/**
  The grammar of canonical text, stated apart from the printer and the parser
  (RFC 8259, sections 3 to 7; packages/crypto/hash.py:21-54): no whitespace, keys
  rising, and only the escapes that must be written, each in its one form.
 */
module CanonicalText {
  import opened Wrappers
  import opened Bytes
  import opened CanonicalJson
  import opened Sorting

  // ----- Strings -----

  /** Written as it is: not a quote, a backslash or a control character, nor, for an ASCII text, anything past `~`. */
  predicate Unescaped(c: char, ascii: bool)
  {
    c != '\"' && c != '\\' && 32 <= c as int && (ascii ==> c as int <= 126)
  }

  /** The second character of a short escape. */
  function ShortEscape(c: char): Option<char>
  {
    match c as int
    case 8 => Some('b')
    case 9 => Some('t')
    case 10 => Some('n')
    case 12 => Some('f')
    case 13 => Some('r')
    case 34 => Some('\"')
    case 92 => Some('\\')
    case _ => None
  }

  predicate IsLowerHex(c: char)
  {
    '0' <= c <= '9' || 'a' <= c <= 'f'
  }

  /** `\u` and the four lowercase hex digits of `n`. */
  ghost predicate SpellsUnit(text: string, n: int)
  {
    |text| == 6 && (forall i :: 2 <= i < 6 ==> IsLowerHex(text[i])) && ParseUnit(text) == Some(n)
  }

  ghost predicate SpellsPair(text: string, n: int)
  {
    exists high, low ::
      && 0xD800 <= high < 0xDC00 && 0xDC00 <= low < 0xE000 && n == 0x10000 + (high - 0xD800) * 0x400 + (low - 0xDC00)
      && |text| == 12 && SpellsUnit(text[..6], high) && SpellsUnit(text[6..], low)
  }

  ghost predicate SpellsChar(text: string, c: char, ascii: bool)
  {
    if Unescaped(c, ascii) then text == [c]
    else if ShortEscape(c).Some? then text == ['\\', ShortEscape(c).value]
    else if c as int < 0x10000 then SpellsUnit(text, c as int)
    else SpellsPair(text, c as int)
  }

  function Concat(parts: seq<string>): string
  {
    if parts == [] then "" else parts[0] + Concat(parts[1..])
  }

  ghost predicate SpellsChars(parts: seq<string>, s: string, ascii: bool)
  {
    |parts| == |s| && forall i :: 0 <= i < |s| ==> SpellsChar(parts[i], s[i], ascii)
  }

  ghost predicate SpellsString(text: string, s: string, ascii: bool)
  {
    exists parts :: SpellsChars(parts, s, ascii) && text == "\"" + Concat(parts) + "\""
  }

  // ----- Numbers -----

  predicate AllDigits(s: string)
  {
    forall i :: 0 <= i < |s| ==> '0' <= s[i] <= '9'
  }

  function DigitsValue(s: string): nat
    requires AllDigits(s)
  {
    if s == "" then 0 else DigitsValue(s[..|s| - 1]) * 10 + (s[|s| - 1] as int - '0' as int)
  }

  /** Decimal digits without a leading zero. */
  ghost predicate SpellsNat(text: string, n: nat)
  {
    text != "" && AllDigits(text) && (text[0] == '0' ==> |text| == 1) && DigitsValue(text) == n
  }

  /** A sign on negative numbers only. */
  ghost predicate SpellsInt(text: string, n: int)
  {
    if n < 0 then text != "" && text[0] == '-' && SpellsNat(text[1..], -n) else SpellsNat(text, n)
  }

  // ----- Lists and dicts -----

  function Commas(parts: seq<string>): string
  {
    if parts == [] then "" else if |parts| == 1 then parts[0] else parts[0] + "," + Commas(parts[1..])
  }

  function Pairs(keys: seq<string>, values: seq<string>): (pairs: seq<string>)
    requires |keys| == |values|
    ensures |pairs| == |keys|
  {
    seq(|keys|, i requires 0 <= i < |keys| => keys[i] + ":" + values[i])
  }

  ghost predicate Spells(text: string, v: Json, ascii: bool)
    decreases v, 1
  {
    match v
    case Null => text == "null"
    case Str(s) => SpellsString(text, s, ascii)
    case Num(n) => SpellsInt(text, n)
    case Bool(b) => text == if b then "true" else "false"
    case Arr(xs) => exists parts :: SpellsItems(parts, xs, ascii) && text == "[" + Commas(parts) + "]"
    case Obj(ms) =>
      exists keys, values :: SpellsMembers(keys, values, ms, ascii) && text == "{" + Commas(Pairs(keys, values)) + "}"
  }

  ghost predicate SpellsItems(parts: seq<string>, xs: seq<Json>, ascii: bool)
    decreases xs, 0
  {
    |parts| == |xs| && forall i :: 0 <= i < |xs| ==> Spells(parts[i], xs[i], ascii)
  }

  ghost predicate SpellsMembers(keys: seq<string>, values: seq<string>, ms: seq<Member>, ascii: bool)
    decreases ms, 0
  {
    && |keys| == |values| == |ms|
    && forall i :: 0 <= i < |ms| ==> SpellsString(keys[i], ms[i].key, ascii) && Spells(values[i], ms[i].value, ascii)
  }

  /** The keys of every dict, at every level, rise character by character. */
  ghost predicate KeysRise(v: Json)
  {
    match v
    case Arr(xs) => forall x | x in xs :: KeysRise(x)
    case Obj(ms) =>
      && (forall i, j :: 0 <= i < j < |ms| ==> Before(ms[i].key, ms[j].key))
      && (forall m | m in ms :: KeysRise(m.value))
    case _ => true
  }

  // ----- The printer keeps to the grammar -----

  lemma UnitSpells(n: int)
    requires 0 <= n < 0x10000
    ensures SpellsUnit(UnicodeUnit(n), n)
  {
    hide ParseUnit;
    UnitRoundTrip(n, "");
    assert UnicodeUnit(n) + "" == UnicodeUnit(n);
    HexIsLower(n / 4096);
    HexIsLower(n / 256 % 16);
    HexIsLower(n / 16 % 16);
    HexIsLower(n % 16);
    hide HexDigit;
  }

  lemma HexIsLower(d: int)
    requires 0 <= d < 16
    ensures IsLowerHex(HexDigit(d))
  {
  }

  lemma EscapeSpells(c: char, ascii: bool)
    ensures SpellsChar(Escape(c, ascii), c, ascii)
  {
    var n := c as int;
    if !Unescaped(c, ascii) && ShortEscape(c).None? {
      if n < 0x10000 {
        UnitSpells(n);
      } else {
        PairSpells(n);
      }
    }
  }

  lemma PairSpells(n: int)
    requires 0x10000 <= n < 0x110000
    ensures SpellsPair(UnicodeEscape(n), n)
  {
    hide UnicodeUnit, SpellsUnit;
    SurrogateSplit(n - 0x10000);
    var high, low := 0xD800 + (n - 0x10000) / 1024, 0xDC00 + (n - 0x10000) % 1024;
    UnitSpells(high);
    UnitSpells(low);
    UnitLength(high);
    UnitLength(low);
    var text := UnicodeEscape(n);
    assert text[..6] == UnicodeUnit(high) && text[6..] == UnicodeUnit(low);
  }

  lemma UnitLength(n: int)
    requires 0 <= n < 0x10000
    ensures |UnicodeUnit(n)| == 6
  {
  }

  function Escapes(s: string, ascii: bool): (parts: seq<string>)
    ensures |parts| == |s|
  {
    seq(|s|, i requires 0 <= i < |s| => Escape(s[i], ascii))
  }

  lemma {:induction false} CharsAreEscapes(s: string, ascii: bool)
    ensures RenderChars(s, ascii) == Concat(Escapes(s, ascii)) + "\""
  {
    hide Escape;
    if s != "" {
      CharsAreEscapes(s[1..], ascii);
      assert Escapes(s, ascii)[1..] == Escapes(s[1..], ascii);
    }
  }

  lemma StringSpells(s: string, ascii: bool)
    ensures SpellsString("\"" + RenderChars(s, ascii), s, ascii)
  {
    hide Escape, SpellsChar;
    CharsAreEscapes(s, ascii);
    var parts := Escapes(s, ascii);
    forall i | 0 <= i < |s| ensures SpellsChar(parts[i], s[i], ascii) {
      EscapeSpells(s[i], ascii);
    }
    assert "\"" + RenderChars(s, ascii) == "\"" + Concat(parts) + "\"";
  }

  lemma DigitAdds(digits: string, d: int)
    requires AllDigits(digits) && 0 <= d < 10
    ensures var s := digits + [HexDigit(d)]; AllDigits(s) && DigitsValue(s) == DigitsValue(digits) * 10 + d
  {
    var s := digits + [HexDigit(d)];
    assert s[..|s| - 1] == digits;
  }

  lemma {:induction false} NatSpells(n: nat)
    ensures SpellsNat(RenderNat(n), n) && (n > 0 ==> RenderNat(n)[0] != '0')
  {
    hide DigitsValue, AllDigits;
    if n < 10 {
      DigitAdds("", n);
      assert "" + [HexDigit(n)] == [HexDigit(n)];
      NothingIsZero();
    } else {
      NatSpells(n / 10);
      DigitAdds(RenderNat(n / 10), n % 10);
    }
  }

  lemma NothingIsZero()
    ensures AllDigits("") && DigitsValue("") == 0
  {
  }

  lemma IntSpells(n: int)
    ensures SpellsInt(RenderInt(n), n)
  {
    NatSpells(if n < 0 then -n else n);
    if n < 0 {
      assert RenderInt(n)[1..] == RenderNat(-n);
    }
  }

  function ItemTexts(xs: seq<Json>, ascii: bool): (parts: seq<string>)
    ensures |parts| == |xs|
  {
    seq(|xs|, i requires 0 <= i < |xs| => Render(xs[i], ascii))
  }

  function KeyTexts(ms: seq<Member>, ascii: bool): (parts: seq<string>)
    ensures |parts| == |ms|
  {
    seq(|ms|, i requires 0 <= i < |ms| => "\"" + RenderChars(ms[i].key, ascii))
  }

  function ValueTexts(ms: seq<Member>, ascii: bool): (parts: seq<string>)
    ensures |parts| == |ms|
  {
    seq(|ms|, i requires 0 <= i < |ms| => Render(ms[i].value, ascii))
  }

  lemma {:induction false} ItemsAreCommas(xs: seq<Json>, ascii: bool)
    requires xs != []
    ensures RenderItems(xs, ascii) == Commas(ItemTexts(xs, ascii)) + "]"
  {
    hide Render;
    if |xs| > 1 {
      ItemsAreCommas(xs[1..], ascii);
      assert ItemTexts(xs, ascii)[1..] == ItemTexts(xs[1..], ascii);
    }
  }

  lemma {:induction false} MembersAreCommas(ms: seq<Member>, ascii: bool)
    requires ms != []
    ensures RenderMembers(ms, ascii) == Commas(Pairs(KeyTexts(ms, ascii), ValueTexts(ms, ascii))) + "}"
  {
    hide Render, RenderChars;
    if |ms| > 1 {
      MembersAreCommas(ms[1..], ascii);
      assert Pairs(KeyTexts(ms, ascii), ValueTexts(ms, ascii))[1..]
          == Pairs(KeyTexts(ms[1..], ascii), ValueTexts(ms[1..], ascii));
    }
  }

  /** What the printer writes is spelled by the grammar. */
  lemma {:induction false} RenderSpells(v: Json, ascii: bool)
    ensures Spells(Render(v, ascii), v, ascii)
    decreases v
  {
    hide RenderChars, RenderInt, SpellsInt, SpellsString, Commas;
    match v
    case Str(s) => StringSpells(s, ascii);
    case Num(n) => IntSpells(n);
    case Arr(xs) =>
      forall i | 0 <= i < |xs| ensures Spells(ItemTexts(xs, ascii)[i], xs[i], ascii) {
        RenderSpells(xs[i], ascii);
      }
      assert SpellsItems(ItemTexts(xs, ascii), xs, ascii);
      ArrayText(xs, ascii);
    case Obj(ms) =>
      forall i | 0 <= i < |ms|
        ensures SpellsString(KeyTexts(ms, ascii)[i], ms[i].key, ascii)
        ensures Spells(ValueTexts(ms, ascii)[i], ms[i].value, ascii)
      {
        StringSpells(ms[i].key, ascii);
        RenderSpells(ms[i].value, ascii);
      }
      assert SpellsMembers(KeyTexts(ms, ascii), ValueTexts(ms, ascii), ms, ascii);
      ObjectText(ms, ascii);
    case _ =>
  }

  lemma ArrayText(xs: seq<Json>, ascii: bool)
    ensures Render(Arr(xs), ascii) == "[" + Commas(ItemTexts(xs, ascii)) + "]"
  {
    if xs != [] {
      ItemsAreCommas(xs, ascii);
    }
  }

  lemma ObjectText(ms: seq<Member>, ascii: bool)
    ensures Render(Obj(ms), ascii) == "{" + Commas(Pairs(KeyTexts(ms, ascii), ValueTexts(ms, ascii))) + "}"
  {
    if ms != [] {
      MembersAreCommas(ms, ascii);
    }
  }

  // ----- And is the only text that does -----

  lemma HexOfValue(c: char)
    requires IsLowerHex(c)
    ensures HexValue(c).Some? && 0 <= HexValue(c).value < 16 && HexDigit(HexValue(c).value) == c
  {
  }

  lemma HexParts(n: int, a: int, b: int, c: int, d: int)
    requires 0 <= a < 16 && 0 <= b < 16 && 0 <= c < 16 && 0 <= d < 16 && n == a * 4096 + b * 256 + c * 16 + d
    ensures 0 <= n < 0x10000 && n / 4096 == a && n / 256 % 16 == b && n / 16 % 16 == c && n % 16 == d
  {
    assert n / 16 == a * 256 + b * 16 + c;
    assert n / 256 == a * 16 + b;
  }

  lemma UnitUnique(text: string, n: int)
    requires SpellsUnit(text, n)
    ensures 0 <= n < 0x10000 && text == UnicodeUnit(n)
  {
    hide HexValue, HexDigit;
    HexOfValue(text[2]);
    HexOfValue(text[3]);
    HexOfValue(text[4]);
    HexOfValue(text[5]);
    var a, b, c, d := HexValue(text[2]).value, HexValue(text[3]).value, HexValue(text[4]).value, HexValue(text[5]).value;
    HexParts(n, a, b, c, d);
  }

  lemma PairUnique(text: string, n: int)
    requires SpellsPair(text, n)
    ensures 0x10000 <= n < 0x110000 && text == UnicodeEscape(n)
  {
    hide SpellsUnit, UnicodeUnit;
    var high, low :|
      && 0xD800 <= high < 0xDC00 && 0xDC00 <= low < 0xE000 && n == 0x10000 + (high - 0xD800) * 0x400 + (low - 0xDC00)
      && |text| == 12 && SpellsUnit(text[..6], high) && SpellsUnit(text[6..], low);
    UnitUnique(text[..6], high);
    UnitUnique(text[6..], low);
    assert text == text[..6] + text[6..];
  }

  lemma EscapeUnique(text: string, c: char, ascii: bool)
    requires SpellsChar(text, c, ascii)
    ensures text == Escape(c, ascii)
  {
    hide SpellsUnit, SpellsPair, UnicodeUnit;
    if !Unescaped(c, ascii) && ShortEscape(c).None? {
      if c as int < 0x10000 {
        UnitUnique(text, c as int);
      } else {
        PairUnique(text, c as int);
      }
    }
  }

  lemma StringUnique(text: string, s: string, ascii: bool)
    requires SpellsString(text, s, ascii)
    ensures text == "\"" + RenderChars(s, ascii)
  {
    hide Escape, SpellsChar;
    var parts :| SpellsChars(parts, s, ascii) && text == "\"" + Concat(parts) + "\"";
    forall i | 0 <= i < |s| ensures parts[i] == Escapes(s, ascii)[i] {
      EscapeUnique(parts[i], s[i], ascii);
    }
    assert parts == Escapes(s, ascii);
    CharsAreEscapes(s, ascii);
  }

  lemma {:induction false} NatUnique(text: string, n: nat)
    requires SpellsNat(text, n)
    ensures text == RenderNat(n)
    decreases |text|
  {
    var k := |text| - 1;
    var last := text[k] as int - '0' as int;
    assert HexDigit(last) == text[k];
    assert text == text[..k] + [text[k]];
    if k == 0 {
      assert DigitsValue(text[..k]) == 0;
    } else {
      NatUnique(text[..k], DigitsValue(text[..k]));
      PositiveHead(text[..k]);
      assert n / 10 == DigitsValue(text[..k]) && n % 10 == last;
    }
  }

  /** A first digit other than zero makes a positive number. */
  lemma {:induction false} PositiveHead(digits: string)
    requires digits != "" && AllDigits(digits) && digits[0] != '0'
    ensures DigitsValue(digits) > 0
  {
    if |digits| > 1 {
      PositiveHead(digits[..|digits| - 1]);
    }
  }

  lemma IntUnique(text: string, n: int)
    requires SpellsInt(text, n)
    ensures text == RenderInt(n)
  {
    hide DigitsValue, AllDigits, RenderNat;
    if n < 0 {
      NatUnique(text[1..], -n);
      assert text == [text[0]] + text[1..];
    } else {
      NatUnique(text, n);
    }
  }

  /** A value is spelled by no other text than the printed one. */
  lemma {:induction false} SpellsUnique(text: string, v: Json, ascii: bool)
    requires Spells(text, v, ascii)
    ensures text == Render(v, ascii)
    decreases v
  {
    hide RenderChars, RenderInt, SpellsInt, SpellsString, Commas;
    match v
    case Str(s) => StringUnique(text, s, ascii);
    case Num(n) => IntUnique(text, n);
    case Arr(xs) =>
      var parts :| SpellsItems(parts, xs, ascii) && text == "[" + Commas(parts) + "]";
      forall i | 0 <= i < |xs| ensures parts[i] == ItemTexts(xs, ascii)[i] {
        SpellsUnique(parts[i], xs[i], ascii);
      }
      assert parts == ItemTexts(xs, ascii);
      ArrayText(xs, ascii);
    case Obj(ms) =>
      var keys, values :| SpellsMembers(keys, values, ms, ascii) && text == "{" + Commas(Pairs(keys, values)) + "}";
      forall i | 0 <= i < |ms| ensures keys[i] == KeyTexts(ms, ascii)[i] && values[i] == ValueTexts(ms, ascii)[i] {
        StringUnique(keys[i], ms[i].key, ascii);
        SpellsUnique(values[i], ms[i].value, ascii);
      }
      assert keys == KeyTexts(ms, ascii) && values == ValueTexts(ms, ascii);
      ObjectText(ms, ascii);
    case _ =>
  }

  lemma {:induction false} SortedKeysRise(v: Json)
    ensures IsSorted(v) <==> KeysRise(v)
  {
    match v
    case Arr(xs) =>
      forall x | x in xs ensures IsSorted(x) <==> KeysRise(x) {
        SortedKeysRise(x);
      }
    case Obj(ms) =>
      forall i, j | 0 <= i < j < |ms| ensures Less(ms[i].key, ms[j].key) <==> Before(ms[i].key, ms[j].key) {
        LessIsBefore(ms[i].key, ms[j].key);
      }
      forall m | m in ms ensures IsSorted(m.value) <==> KeysRise(m.value) {
        SortedKeysRise(m.value);
      }
    case _ =>
  }

  // ----- Where a null hides -----

  /** The value reached by going into the n-th item or member at each step. */
  ghost function At(v: Json, path: seq<nat>): Option<Json>
  {
    if path == [] then Some(v)
    else if v.Arr? && path[0] < |v.items| then At(v.items[path[0]], path[1..])
    else if v.Obj? && path[0] < |v.members| then At(v.members[path[0]].value, path[1..])
    else None
  }

  ghost predicate NullInside(v: Json)
  {
    exists path :: At(v, path) == Some(Null)
  }

  lemma NullBelow(v: Json, n: nat, w: Json)
    requires (v.Arr? && n < |v.items| && v.items[n] == w) || (v.Obj? && n < |v.members| && v.members[n].value == w)
    requires NullInside(w)
    ensures NullInside(v)
  {
    var path :| At(w, path) == Some(Null);
    assert ([n] + path)[1..] == path;
    assert At(v, [n] + path) == Some(Null);
  }

  lemma {:induction false} NullIsFound(v: Json, path: seq<nat>)
    requires At(v, path) == Some(Null)
    ensures HasNull(v)
  {
    if path != [] {
      NullIsFound(if v.Arr? then v.items[path[0]] else v.members[path[0]].value, path[1..]);
      if v.Obj? {
        assert v.members[path[0]] in v.members;
      }
    }
  }

  lemma {:induction false} FoundIsNull(v: Json)
    requires HasNull(v)
    ensures NullInside(v)
  {
    match v
    case Null => assert At(v, []) == Some(Null);
    case Arr(xs) =>
      var x :| x in xs && HasNull(x);
      var n: nat :| n < |xs| && xs[n] == x;
      FoundIsNull(x);
      NullBelow(v, n, x);
    case Obj(ms) =>
      var m :| m in ms && HasNull(m.value);
      var n: nat :| n < |ms| && ms[n] == m;
      FoundIsNull(m.value);
      NullBelow(v, n, m.value);
    case _ =>
  }

  /** `text` spells, with rising keys, a value that means what `v` means. */
  ghost predicate Canonical(text: string, v: Json)
  {
    exists w :: Meaning(w) == Meaning(v) && KeysRise(w) && Spells(text, w, false)
  }

  lemma CanonicalIsPrinted(text: string, v: Json)
    requires WellFormed(v)
    ensures Canonical(text, v) <==> text == Render(SortKeys(v), false)
  {
    hide KeysRise, Spells, Meaning, WellFormed, IsSorted;
    var sorted := SortKeys(v);
    SortKeysCorrect(v);
    SortedKeysRise(sorted);
    RenderSpells(sorted, false);
    if Canonical(text, v) {
      var w :| Meaning(w) == Meaning(v) && KeysRise(w) && Spells(text, w, false);
      SortedKeysRise(w);
      SortedUnique(w, sorted);
      SpellsUnique(text, w, false);
    }
  }

  /**
    `canonical_json` fails exactly when some path leads to a null. Otherwise its
    bytes are the UTF-8 of the one text that spells the value by the grammar:
    nothing but quotes, backslashes and control characters is escaped, no space is
    written, and the keys of every dict rise in the order of their characters.
   */
  lemma CanonicalForm(v: Json, text: string)
    requires WellFormed(v)
    ensures CanonicalBytes(v).Failure? <==> NullInside(v)
    ensures CanonicalBytes(v) == Success(Utf8(text)) <==> !NullInside(v) && Canonical(text, v)
  {
    hide Utf8, Canonical, At, WellFormed;
    if HasNull(v) {
      FoundIsNull(v);
    }
    if NullInside(v) {
      var path :| At(v, path) == Some(Null);
      NullIsFound(v, path);
    }
    CanonicalIsPrinted(text, v);
    if Utf8(text) == Utf8(Render(SortKeys(v), false)) {
      Utf8Injective(text, Render(SortKeys(v), false));
    }
  }
}
