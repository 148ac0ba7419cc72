/**
  The canonical JSON encoder (packages/crypto/hash.py) with the parser that
  inverts it. A Python dict is a list of members in insertion order with
  distinct keys; `Meaning` forgets that order.
 */
module CanonicalJson {
  import opened Wrappers
  import opened Bytes
  import opened Sorting

  datatype Json =
    | Null
    | Str(s: string)
    | Num(n: int)
    | Bool(b: bool)
    | Arr(items: seq<Json>)
    | Obj(members: seq<Member>)

  datatype Member = Member(key: string, value: Json)

  /** What a value is, whatever order its dicts were filled in. */
  datatype Data =
    | DNull
    | DStr(s: string)
    | DNum(n: int)
    | DBool(b: bool)
    | DArr(items: seq<Data>)
    | DObj(members: map<string, Data>)

  datatype EncodingError = NoneNotPermitted

  // ----- Shape of inputs -----

  ghost predicate DistinctKeys(ms: seq<Member>)
  {
    forall i, j :: 0 <= i < j < |ms| ==> ms[i].key != ms[j].key
  }

  /** Every dict in `v` has distinct keys, as a Python dict does by construction. */
  ghost predicate WellFormed(v: Json)
  {
    match v
    case Arr(xs) => forall x | x in xs :: WellFormed(x)
    case Obj(ms) => DistinctKeys(ms) && forall m | m in ms :: WellFormed(m.value)
    case _ => true
  }

  /** `None` occurs somewhere in `v`. */
  predicate HasNull(v: Json)
  {
    match v
    case Null => true
    case Arr(xs) => exists x | x in xs :: HasNull(x)
    case Obj(ms) => exists m | m in ms :: HasNull(m.value)
    case _ => false
  }

  // ----- Encoder -----

  /** `sort_keys=True`, at every level. */
  function SortKeys(v: Json): Json
  {
    match v
    case Arr(xs) => Arr(SortItems(xs))
    case Obj(ms) => Obj(Sort(KeyLe, SortMembers(ms)))
    case _ => v
  }

  function SortItems(xs: seq<Json>): seq<Json>
  {
    if xs == [] then [] else [SortKeys(xs[0])] + SortItems(xs[1..])
  }

  function SortMembers(ms: seq<Member>): seq<Member>
  {
    if ms == [] then [] else [Member(ms[0].key, SortKeys(ms[0].value))] + SortMembers(ms[1..])
  }

  predicate KeyLe(a: Member, b: Member)
  {
    StringLe(a.key, b.key)
  }

  function HexDigit(d: int): char
    requires 0 <= d < 16
  {
    "0123456789abcdef"[d]
  }

  /** `\uXXXX` */
  function UnicodeUnit(n: int): string
    requires 0 <= n < 0x10000
  {
    ['\\', 'u', HexDigit(n / 4096), HexDigit(n / 256 % 16), HexDigit(n / 16 % 16), HexDigit(n % 16)]
  }

  function UnicodeEscape(n: int): string
    requires 0 <= n < 0x110000
  {
    if n < 0x10000 then UnicodeUnit(n)
    else UnicodeUnit(0xD800 + (n - 0x10000) / 1024) + UnicodeUnit(0xDC00 + (n - 0x10000) % 1024)
  }

  /** One character inside a string literal; `ascii` is json's `ensure_ascii`. */
  function Escape(c: char, ascii: bool): string
  {
    if c == '\"' then "\\\""
    else if c == '\\' then "\\\\"
    else if c == '\n' then "\\n"
    else if c == '\r' then "\\r"
    else if c == '\t' then "\\t"
    else if c as int == 8 then "\\b"
    else if c as int == 12 then "\\f"
    else if c as int < 32 || (ascii && c as int > 126) then UnicodeEscape(c as int)
    else [c]
  }

  function RenderChars(s: string, ascii: bool): string
  {
    if s == "" then "\"" else Escape(s[0], ascii) + RenderChars(s[1..], ascii)
  }

  /** Text that needs no escaping is printed as it is. */
  lemma {:induction false} PlainChars(s: string)
    requires forall c | c in s :: 32 <= c as int && c != '\\' && c != '\"'
    ensures RenderChars(s, false) == s + "\""
  {
    if s != "" {
      assert s == [s[0]] + s[1..] && s[0] in s;
      assert forall c | c in s[1..] :: c in s;
      PlainChars(s[1..]);
    }
  }

  function RenderNat(n: nat): string
  {
    if n < 10 then [HexDigit(n)] else RenderNat(n / 10) + [HexDigit(n % 10)]
  }

  function RenderInt(n: int): string
  {
    if n < 0 then "-" + RenderNat(-n) else RenderNat(n)
  }

  /** `json.dumps(v, separators=(",", ":"))`, dicts in the order given. */
  function Render(v: Json, ascii: bool): string
    decreases v
  {
    match v
    case Null => "null"
    case Str(s) => "\"" + RenderChars(s, ascii)
    case Num(n) => RenderInt(n)
    case Bool(b) => if b then "true" else "false"
    case Arr(xs) => if xs == [] then "[]" else "[" + RenderItems(xs, ascii)
    case Obj(ms) => if ms == [] then "{}" else "{" + RenderMembers(ms, ascii)
  }

  function RenderItems(xs: seq<Json>, ascii: bool): string
    requires xs != []
    decreases xs
  {
    Render(xs[0], ascii) + (if |xs| == 1 then "]" else "," + RenderItems(xs[1..], ascii))
  }

  function RenderMembers(ms: seq<Member>, ascii: bool): string
    requires ms != []
    decreases ms
  {
    "\"" + RenderChars(ms[0].key, ascii) + ":" + Render(ms[0].value, ascii)
    + (if |ms| == 1 then "}" else "," + RenderMembers(ms[1..], ascii))
  }

  /** `canonical_json` */
  function CanonicalBytes(v: Json): Result<ByteString, EncodingError>
  {
    if HasNull(v) then Failure(NoneNotPermitted)
    else Success(Utf8(Render(SortKeys(v), false)))
  }

  // ----- Parser (RFC 8259), as used by json.loads -----

  function HexValue(c: char): Option<int>
  {
    if '0' <= c <= '9' then Some(c as int - 48)
    else if 'a' <= c <= 'f' then Some(c as int - 87)
    else if 'A' <= c <= 'F' then Some(c as int - 55)
    else None
  }

  /** Digits past nine are read in either case. */
  lemma UpperCaseHex(d: int)
    requires 10 <= d < 16
    ensures HexValue(HexDigit(d)) == HexValue((HexDigit(d) as int - 32) as char) == Some(d)
  {
  }

  /** The value of the four hex digits after `\u`. */
  function ParseUnit(s: string): Option<int>
  {
    if |s| < 6 || s[0] != '\\' || s[1] != 'u' then None
    else
      var a, b, c, d := HexValue(s[2]), HexValue(s[3]), HexValue(s[4]), HexValue(s[5]);
      if a.Some? && b.Some? && c.Some? && d.Some?
      then Some(a.value * 4096 + b.value * 256 + c.value * 16 + d.value)
      else None
  }

  /** One possibly escaped character; a lone surrogate is an error here. */
  function ParseChar(s: string): (r: Option<(char, string)>)
    requires s != ""
    ensures r.Some? ==> |r.value.1| < |s|
  {
    if s[0] != '\\' then (if s[0] as int < 32 then None else Some((s[0], s[1..])))
    else if |s| < 2 then None
    else if s[1] == '\"' || s[1] == '\\' || s[1] == '/' then Some((s[1], s[2..]))
    else if s[1] == 'n' then Some(('\n', s[2..]))
    else if s[1] == 'r' then Some(('\r', s[2..]))
    else if s[1] == 't' then Some(('\t', s[2..]))
    else if s[1] == 'b' then Some((8 as char, s[2..]))
    else if s[1] == 'f' then Some((12 as char, s[2..]))
    else match ParseUnit(s)
      case None => None
      case Some(u) =>
        if IsScalar(u) then Some((u as char, s[6..]))
        else match ParseUnit(s[6..])
          case None => None
          case Some(w) =>
            if 0xD800 <= u < 0xDC00 && 0xDC00 <= w < 0xE000
            then Some((((u - 0xD800) * 1024 + (w - 0xDC00) + 0x10000) as char, s[12..]))
            else None
  }

  /** The rest of a string literal, up to its closing quote. */
  function ParseChars(s: string): (r: Option<(string, string)>)
    ensures r.Some? ==> |r.value.1| < |s|
    decreases |s|
  {
    if s == "" then None
    else if s[0] == '\"' then Some(("", s[1..]))
    else match ParseChar(s)
      case None => None
      case Some((c, rest)) =>
        match ParseChars(rest)
        case None => None
        case Some((t, rest')) => Some(([c] + t, rest'))
  }

  predicate StartsWithDigit(s: string)
  {
    s != "" && '0' <= s[0] <= '9'
  }

  /** Reads digits after the ones that made `acc`. */
  function ParseDigits(acc: nat, s: string): (r: (nat, string))
    ensures |r.1| <= |s|
    decreases |s|
  {
    if StartsWithDigit(s) then ParseDigits(acc * 10 + (s[0] as int - 48), s[1..]) else (acc, s)
  }

  function ParseValue(s: string): (r: Option<(Json, string)>)
    ensures r.Some? ==> |r.value.1| < |s|
    decreases |s|, 1
  {
    if s == "" then None
    else if s[0] == '[' then
      if "[]" <= s then Some((Arr([]), s[2..]))
      else match ParseItems(s[1..])
        case None => None
        case Some((xs, rest)) => Some((Arr(xs), rest))
    else if s[0] == '{' then
      if "{}" <= s then Some((Obj([]), s[2..]))
      else match ParseMembers(s[1..])
        case None => None
        case Some((ms, rest)) => Some((Obj(ms), rest))
    else ParseScalar(s)
  }

  function ParseScalar(s: string): (r: Option<(Json, string)>)
    requires s != ""
    ensures r.Some? ==> |r.value.1| < |s|
  {
    if s[0] == '\"' then
      match ParseChars(s[1..])
      case None => None
      case Some((t, rest)) => Some((Str(t), rest))
    else if StartsWithDigit(s) then
      var (n, rest) := ParseDigits(s[0] as int - 48, s[1..]);
      Some((Num(n), rest))
    else if s[0] == '-' && StartsWithDigit(s[1..]) then
      var (n, rest) := ParseDigits(s[1] as int - 48, s[2..]);
      Some((Num(-(n as int)), rest))
    else if "true" <= s then Some((Bool(true), s[4..]))
    else if "false" <= s then Some((Bool(false), s[5..]))
    else if "null" <= s then Some((Null, s[4..]))
    else None
  }

  function ParseItems(s: string): (r: Option<(seq<Json>, string)>)
    ensures r.Some? ==> |r.value.1| < |s|
    decreases |s|, 2
  {
    match ParseValue(s)
    case None => None
    case Some((x, rest)) =>
      if "]" <= rest then Some(([x], rest[1..]))
      else if "," <= rest then
        match ParseItems(rest[1..])
        case None => None
        case Some((xs, rest')) => Some(([x] + xs, rest'))
      else None
  }

  function ParseMembers(s: string): (r: Option<(seq<Member>, string)>)
    ensures r.Some? ==> |r.value.1| < |s|
    decreases |s|, 2
  {
    if s == "" || s[0] != '\"' then None
    else match ParseChars(s[1..])
      case None => None
      case Some((k, afterKey)) =>
        if !(":" <= afterKey) then None
        else match ParseValue(afterKey[1..])
          case None => None
          case Some((x, rest)) =>
            if "}" <= rest then Some(([Member(k, x)], rest[1..]))
            else if "," <= rest then
              match ParseMembers(rest[1..])
              case None => None
              case Some((ms, rest')) => Some(([Member(k, x)] + ms, rest'))
            else None
  }

  /** `json.loads`: one value and nothing after it. */
  function Parse(s: string): Option<Json>
  {
    match ParseValue(s)
    case None => None
    case Some((v, rest)) => if rest == "" then Some(v) else None
  }

  // ----- The parser inverts the encoder -----

  lemma HexSplit(n: int)
    requires 0 <= n < 0x10000
    ensures n == n / 4096 * 4096 + n / 256 % 16 * 256 + n / 16 % 16 * 16 + n % 16
  {
    var q := n / 16;
    assert n == q * 16 + n % 16 && q == q / 16 * 16 + q % 16 && q / 16 == q / 256 * 16 + q / 16 % 16;
    assert q / 16 == n / 256 && q / 256 == n / 4096;
  }

  lemma ParseUnitOf(s: string, a: int, b: int, c: int, d: int)
    requires 0 <= a < 16 && 0 <= b < 16 && 0 <= c < 16 && 0 <= d < 16
    requires |s| >= 6 && s[0] == '\\' && s[1] == 'u'
    requires s[2] == HexDigit(a) && s[3] == HexDigit(b) && s[4] == HexDigit(c) && s[5] == HexDigit(d)
    ensures ParseUnit(s) == Some(a * 4096 + b * 256 + c * 16 + d)
  {
    HexRoundTrip(a);
    HexRoundTrip(b);
    HexRoundTrip(c);
    HexRoundTrip(d);
  }

  lemma UnitRoundTrip(n: int, rest: string)
    requires 0 <= n < 0x10000
    ensures ParseUnit(UnicodeUnit(n) + rest) == Some(n)
    ensures (UnicodeUnit(n) + rest)[6..] == rest
  {
    hide HexDigit, ParseUnit;
    HexSplit(n);
    var a, b, c, d := n / 4096, n / 256 % 16, n / 16 % 16, n % 16;
    var s := UnicodeUnit(n) + rest;
    assert s[..2] == "\\u" && s[2] == HexDigit(a) && s[3] == HexDigit(b) && s[4] == HexDigit(c) && s[5] == HexDigit(d);
    ParseUnitOf(s, a, b, c, d);
  }

  lemma HexRoundTrip(d: int)
    requires 0 <= d < 16
    ensures HexValue(HexDigit(d)) == Some(d)
  {
  }

  lemma CharRoundTrip(c: char, ascii: bool, rest: string)
    ensures Escape(c, ascii) != "" && Escape(c, ascii)[0] != '\"'
    ensures ParseChar(Escape(c, ascii) + rest) == Some((c, rest))
  {
    var n := c as int;
    var s := Escape(c, ascii) + rest;
    if Escape(c, ascii) == [c] {
      assert s[1..] == rest;
    } else if Escape(c, ascii) == UnicodeEscape(n) {
      EscapedCharRoundTrip(c, rest);
    } else {
      assert s[2..] == rest;
    }
  }

  lemma SurrogateSplit(m: int)
    requires 0 <= m < 0x100000
    ensures 0 <= m / 1024 < 1024 && 0 <= m % 1024 < 1024 && m == m / 1024 * 1024 + m % 1024
  {
  }

  lemma EscapedCharRoundTrip(c: char, rest: string)
    ensures ParseChar(UnicodeEscape(c as int) + rest) == Some((c, rest))
  {
    hide UnicodeUnit, ParseChar;
    var n := c as int;
    if n < 0x10000 {
      BasicCharRoundTrip(c, rest);
    } else {
      SurrogateSplit(n - 0x10000);
      SurrogatesRoundTrip(c, 0xD800 + (n - 0x10000) / 1024, 0xDC00 + (n - 0x10000) % 1024, rest);
    }
  }

  lemma BasicCharRoundTrip(c: char, rest: string)
    requires c as int < 0x10000
    ensures ParseChar(UnicodeUnit(c as int) + rest) == Some((c, rest))
  {
    var s := UnicodeUnit(c as int) + rest;
    UnitRoundTrip(c as int, rest);
    ParseBasicUnit(s, c as int, rest);
  }

  lemma SurrogatesRoundTrip(c: char, high: int, low: int, rest: string)
    requires 0xD800 <= high < 0xDC00 && 0xDC00 <= low < 0xE000
    requires c as int == (high - 0xD800) * 1024 + (low - 0xDC00) + 0x10000
    ensures ParseChar(UnicodeUnit(high) + UnicodeUnit(low) + rest) == Some((c, rest))
  {
    var tail := UnicodeUnit(low) + rest;
    assert UnicodeUnit(high) + UnicodeUnit(low) + rest == UnicodeUnit(high) + tail;
    UnitRoundTrip(high, tail);
    UnitRoundTrip(low, rest);
    ParseSurrogates(UnicodeUnit(high) + tail, high, low, tail, rest);
  }

  lemma ParseBasicUnit(s: string, n: int, rest: string)
    requires ParseUnit(s) == Some(n) && IsScalar(n) && s[6..] == rest
    ensures ParseChar(s) == Some((n as char, rest))
  {
  }

  lemma ParseSurrogates(s: string, high: int, low: int, tail: string, rest: string)
    requires ParseUnit(s) == Some(high) && s[6..] == tail
    requires ParseUnit(tail) == Some(low) && tail[6..] == rest
    requires 0xD800 <= high < 0xDC00 && 0xDC00 <= low < 0xE000
    ensures ParseChar(s) == Some((((high - 0xD800) * 1024 + (low - 0xDC00) + 0x10000) as char, rest))
  {
    assert s[12..] == s[6..][6..];
  }

  lemma {:induction false} CharsRoundTrip(s: string, ascii: bool, rest: string)
    ensures ParseChars(RenderChars(s, ascii) + rest) == Some((s, rest))
  {
    var text := RenderChars(s, ascii) + rest;
    if s == "" {
      assert text[1..] == rest;
    } else {
      var tail := RenderChars(s[1..], ascii) + rest;
      assert text == Escape(s[0], ascii) + tail;
      CharRoundTrip(s[0], ascii, tail);
      CharsRoundTrip(s[1..], ascii, rest);
      assert s == [s[0]] + s[1..];
    }
  }

  lemma {:induction false} NatRoundTrip(n: nat, rest: string)
    requires !StartsWithDigit(rest)
    ensures var s := RenderNat(n) + rest;
            StartsWithDigit(s) && ParseDigits(s[0] as int - 48, s[1..]) == (n, rest)
  {
    DigitsFold(n, rest);
    var s := RenderNat(n) + rest;
    assert ParseDigits(0, s) == ParseDigits(0 * 10 + (s[0] as int - 48), s[1..]);
  }

  lemma {:induction false} DigitsFold(n: nat, rest: string)
    ensures StartsWithDigit(RenderNat(n) + rest)
    ensures ParseDigits(0, RenderNat(n) + rest) == ParseDigits(n, rest)
  {
    var s := RenderNat(n) + rest;
    if n < 10 {
      assert s[1..] == rest;
    } else {
      var rest' := [HexDigit(n % 10)] + rest;
      assert s == RenderNat(n / 10) + rest';
      DigitsFold(n / 10, rest');
      assert rest'[1..] == rest;
    }
  }

  lemma StrRoundTrip(t: string, ascii: bool, rest: string)
    ensures ParseScalar("\"" + RenderChars(t, ascii) + rest) == Some((Str(t), rest))
  {
    var s := "\"" + RenderChars(t, ascii) + rest;
    CharsRoundTrip(t, ascii, rest);
    assert s[1..] == RenderChars(t, ascii) + rest;
  }

  lemma ParseNumber(body: string, n: nat, rest: string)
    requires StartsWithDigit(body) && ParseDigits(body[0] as int - 48, body[1..]) == (n, rest)
    ensures ParseScalar(body) == Some((Num(n), rest))
    ensures ParseScalar("-" + body) == Some((Num(-(n as int)), rest))
  {
    var s := "-" + body;
    assert s[1..] == body && s[2..] == body[1..];
  }

  lemma NumRoundTrip(n: int, rest: string)
    requires !StartsWithDigit(rest)
    ensures ParseScalar(RenderInt(n) + rest) == Some((Num(n), rest))
  {
    var m := if n < 0 then -n else n;
    var body := RenderNat(m) + rest;
    NatRoundTrip(m, rest);
    ParseNumber(body, m, rest);
    assert RenderInt(n) + rest == if n < 0 then "-" + body else body;
  }

  lemma KeywordRoundTrip(rest: string)
    ensures ParseScalar("null" + rest) == Some((Null, rest))
    ensures ParseScalar("true" + rest) == Some((Bool(true), rest))
    ensures ParseScalar("false" + rest) == Some((Bool(false), rest))
  {
    assert ("null" + rest)[4..] == rest;
    assert ("true" + rest)[4..] == rest;
    assert ("false" + rest)[5..] == rest;
  }

  predicate IsScalarJson(v: Json) { !v.Arr? && !v.Obj? }

  lemma {:induction false} ScalarRoundTrip(v: Json, ascii: bool, rest: string)
    requires IsScalarJson(v) && !StartsWithDigit(rest)
    ensures ParseScalar(Render(v, ascii) + rest) == Some((v, rest))
    ensures Render(v, ascii)[0] != '[' && Render(v, ascii)[0] != '{'
  {
    match v
    case Str(t) => StrRoundTrip(t, ascii, rest);
    case Num(n) =>
      NumRoundTrip(n, rest);
      DigitsFold(if n < 0 then -n else n, "");
    case _ => KeywordRoundTrip(rest);
  }

  lemma ParseArray(body: string, xs: seq<Json>, rest: string)
    requires body != "" && body[0] != ']' && ParseItems(body) == Some((xs, rest))
    ensures ParseValue("[" + body) == Some((Arr(xs), rest))
  {
    assert ("[" + body)[1..] == body;
  }

  lemma ParseObject(body: string, ms: seq<Member>, rest: string)
    requires body != "" && body[0] == '\"' && ParseMembers(body) == Some((ms, rest))
    ensures ParseValue("{" + body) == Some((Obj(ms), rest))
  {
    assert ("{" + body)[1..] == body;
  }

  lemma ParseEmpty(rest: string)
    ensures ParseValue("[]" + rest) == Some((Arr([]), rest))
    ensures ParseValue("{}" + rest) == Some((Obj([]), rest))
  {
    assert ("[]" + rest)[2..] == rest && ("{}" + rest)[2..] == rest;
  }

  lemma {:induction false} ValueRoundTrip(v: Json, ascii: bool, rest: string)
    requires !StartsWithDigit(rest)
    ensures ParseValue(Render(v, ascii) + rest) == Some((v, rest))
    decreases v
  {
    if v.Arr? && v.items != [] {
      var body := RenderItems(v.items, ascii) + rest;
      assert Render(v, ascii) + rest == "[" + body;
      ItemsRoundTrip(v.items, ascii, rest);
      RenderHead(v.items[0], ascii);
      ParseArray(body, v.items, rest);
    } else if v.Obj? && v.members != [] {
      var body := RenderMembers(v.members, ascii) + rest;
      assert Render(v, ascii) + rest == "{" + body;
      MembersRoundTrip(v.members, ascii, rest);
      ParseObject(body, v.members, rest);
    } else if v.Arr? || v.Obj? {
      ParseEmpty(rest);
    } else {
      ScalarRoundTrip(v, ascii, rest);
    }
  }

  lemma RenderHead(v: Json, ascii: bool)
    ensures Render(v, ascii) != "" && Render(v, ascii)[0] != ']'
  {
    if v.Num? && v.n >= 0 {
      DigitsFold(v.n, "");
      assert RenderNat(v.n) + "" == RenderNat(v.n);
    }
  }

  lemma ParseItemsStep(head: string, x: Json, more: string, rest: string)
    requires ParseValue(head) == Some((x, more))
    ensures more == "]" + rest ==> ParseItems(head) == Some(([x], rest))
    ensures more == "," + rest && ParseItems(rest).Some?
        ==> ParseItems(head) == Some(([x] + ParseItems(rest).value.0, ParseItems(rest).value.1))
  {
    assert more == "]" + rest || more == "," + rest ==> more[1..] == rest;
  }

  lemma ParseMembersStep(head: string, k: string, tail: string, x: Json, more: string, rest: string)
    requires ParseChars(head) == Some((k, ":" + tail)) && ParseValue(tail) == Some((x, more))
    ensures more == "}" + rest ==> ParseMembers("\"" + head) == Some(([Member(k, x)], rest))
    ensures more == "," + rest && ParseMembers(rest).Some?
        ==> ParseMembers("\"" + head)
              == Some(([Member(k, x)] + ParseMembers(rest).value.0, ParseMembers(rest).value.1))
  {
    assert ("\"" + head)[1..] == head;
    assert (":" + tail)[1..] == tail;
    assert more == "}" + rest || more == "," + rest ==> more[1..] == rest;
  }

  lemma {:induction false} ItemsRoundTrip(xs: seq<Json>, ascii: bool, rest: string)
    requires xs != []
    ensures ParseItems(RenderItems(xs, ascii) + rest) == Some((xs, rest))
    decreases xs
  {
    var after := if |xs| == 1 then rest else RenderItems(xs[1..], ascii) + rest;
    var more := (if |xs| == 1 then "]" else ",") + after;
    assert RenderItems(xs, ascii) + rest == Render(xs[0], ascii) + more;
    ValueRoundTrip(xs[0], ascii, more);
    ParseItemsStep(Render(xs[0], ascii) + more, xs[0], more, after);
    if |xs| == 1 {
      assert xs == [xs[0]];
    } else {
      ItemsRoundTrip(xs[1..], ascii, rest);
      assert xs == [xs[0]] + xs[1..];
    }
  }

  lemma Regroup(x: string, y: string, z: string)
    ensures (x + y) + z == x + (y + z)
  {
  }

  lemma RegroupMember(k: string, x: string, tail: string, rest: string)
    ensures ("\"" + k + ":" + x + tail) + rest == "\"" + (k + (":" + (x + (tail + rest))))
  {
    Regroup("\"" + k + ":" + x, tail, rest);
    Regroup("\"" + k + ":", x, tail + rest);
    Regroup("\"" + k, ":", x + (tail + rest));
    Regroup("\"", k, ":" + (x + (tail + rest)));
  }

  lemma MembersText(ms: seq<Member>, ascii: bool, rest: string, after: string)
    requires ms != []
    requires after == if |ms| == 1 then rest else RenderMembers(ms[1..], ascii) + rest
    ensures RenderMembers(ms, ascii) + rest
         == "\"" + (RenderChars(ms[0].key, ascii) + (":" + (Render(ms[0].value, ascii)
            + ((if |ms| == 1 then "}" else ",") + after))))
  {
    hide RenderChars, Render;
    var tail := if |ms| == 1 then "}" else "," + RenderMembers(ms[1..], ascii);
    RegroupMember(RenderChars(ms[0].key, ascii), Render(ms[0].value, ascii), tail, rest);
    if |ms| > 1 {
      Regroup(",", RenderMembers(ms[1..], ascii), rest);
    }
  }

  lemma {:induction false} MembersRoundTrip(ms: seq<Member>, ascii: bool, rest: string)
    requires ms != []
    ensures ParseMembers(RenderMembers(ms, ascii) + rest) == Some((ms, rest))
    decreases ms
  {
    var k, x := ms[0].key, ms[0].value;
    var after := if |ms| == 1 then rest else RenderMembers(ms[1..], ascii) + rest;
    var more := (if |ms| == 1 then "}" else ",") + after;
    var tail := Render(x, ascii) + more;
    var head := RenderChars(k, ascii) + (":" + tail);
    MembersText(ms, ascii, rest, after);
    CharsRoundTrip(k, ascii, ":" + tail);
    ValueRoundTrip(x, ascii, more);
    ParseMembersStep(head, k, tail, x, more, after);
    if |ms| == 1 {
      assert ms == [Member(k, x)];
    } else {
      MembersRoundTrip(ms[1..], ascii, rest);
      assert ms == [Member(k, x)] + ms[1..];
    }
  }

  /** `json.loads(json.dumps(v)) == v`, through escaping and nesting. */
  lemma ParseRender(v: Json, ascii: bool)
    ensures Parse(Render(v, ascii)) == Some(v)
  {
    ValueRoundTrip(v, ascii, "");
    assert Render(v, ascii) + "" == Render(v, ascii);
  }

  // ----- What a value means, and that its canonical text is exactly that -----

  ghost function Meaning(v: Json): Data
    decreases v
  {
    match v
    case Null => DNull
    case Str(s) => DStr(s)
    case Num(n) => DNum(n)
    case Bool(b) => DBool(b)
    case Arr(xs) => DArr(MeaningOfItems(xs))
    case Obj(ms) => DObj(MeaningOfMembers(ms))
  }

  ghost function MeaningOfItems(xs: seq<Json>): (ds: seq<Data>)
    ensures |ds| == |xs|
    ensures forall i :: 0 <= i < |xs| ==> ds[i] == Meaning(xs[i])
    decreases xs
  {
    if xs == [] then [] else [Meaning(xs[0])] + MeaningOfItems(xs[1..])
  }

  ghost function MeaningOfMembers(ms: seq<Member>): map<string, Data>
    decreases ms
  {
    if ms == [] then map[]
    else MeaningOfMembers(ms[1..])[ms[0].key := Meaning(ms[0].value)]
  }

  /** A dict's meaning looks its members up by key. */
  lemma {:induction false} MeaningLookup(ms: seq<Member>)
    requires DistinctKeys(ms)
    ensures forall i :: 0 <= i < |ms| ==>
              ms[i].key in MeaningOfMembers(ms) && MeaningOfMembers(ms)[ms[i].key] == Meaning(ms[i].value)
    ensures forall k :: k in MeaningOfMembers(ms) ==> exists i :: 0 <= i < |ms| && ms[i].key == k
  {
    if ms != [] {
      MeaningLookup(ms[1..]);
      forall i | 0 <= i < |ms|
        ensures ms[i].key in MeaningOfMembers(ms) && MeaningOfMembers(ms)[ms[i].key] == Meaning(ms[i].value)
      {
        if i > 0 {
          assert ms[i] == ms[1..][i - 1];
        }
      }
      forall k | k in MeaningOfMembers(ms) ensures exists i :: 0 <= i < |ms| && ms[i].key == k {
        if k != ms[0].key {
          var i :| 0 <= i < |ms[1..]| && ms[1..][i].key == k;
          assert ms[i + 1].key == k;
        }
      }
    }
  }

  /** Every dict's keys strictly increase. */
  ghost predicate IsSorted(v: Json)
  {
    match v
    case Arr(xs) => forall x | x in xs :: IsSorted(x)
    case Obj(ms) => MembersSorted(ms)
    case _ => true
  }

  ghost predicate MembersSorted(ms: seq<Member>)
  {
    && (forall i, j :: 0 <= i < j < |ms| ==> Less(ms[i].key, ms[j].key))
    && (forall m | m in ms :: IsSorted(m.value))
  }

  lemma KeyLeIsTotalPreorder()
    ensures TotalPreorder(KeyLe)
  {
    StringLeIsTotalPreorder();
    forall x: Member, y: Member, z: Member ensures KeyLe(x, y) && KeyLe(y, z) ==> KeyLe(x, z) {
      assert StringLe(x.key, y.key) && StringLe(y.key, z.key) ==> StringLe(x.key, z.key);
    }
    forall x: Member, y: Member ensures KeyLe(x, y) || KeyLe(y, x) {
      assert StringLe(x.key, y.key) || StringLe(y.key, x.key);
    }
  }

  lemma {:induction false} MeaningOfInsert(m: Member, ms: seq<Member>)
    requires forall i :: 0 <= i < |ms| ==> ms[i].key != m.key
    ensures MeaningOfMembers(Insert(KeyLe, m, ms)) == MeaningOfMembers(ms)[m.key := Meaning(m.value)]
  {
    if ms == [] || KeyLe(m, ms[0]) {
      assert ([m] + ms)[1..] == ms;
    } else {
      MeaningOfInsert(m, ms[1..]);
      assert ([ms[0]] + Insert(KeyLe, m, ms[1..]))[1..] == Insert(KeyLe, m, ms[1..]);
    }
  }

  lemma {:induction false} MeaningOfSort(ms: seq<Member>)
    requires DistinctKeys(ms)
    ensures MeaningOfMembers(Sort(KeyLe, ms)) == MeaningOfMembers(ms)
  {
    if ms != [] {
      MeaningOfSort(ms[1..]);
      SortPermutes(KeyLe, ms[1..]);
      SameElements(Sort(KeyLe, ms[1..]), ms[1..]);
      forall i | 0 <= i < |Sort(KeyLe, ms[1..])| ensures Sort(KeyLe, ms[1..])[i].key != ms[0].key {
        assert Sort(KeyLe, ms[1..])[i] in ms[1..];
      }
      MeaningOfInsert(ms[0], Sort(KeyLe, ms[1..]));
    }
  }

  /** A permutation of members with distinct keys, in order, is in strict order. */
  lemma {:induction false} SortStrictly(ms: seq<Member>)
    requires DistinctKeys(ms)
    ensures forall i, j :: 0 <= i < j < |Sort(KeyLe, ms)| ==> Less(Sort(KeyLe, ms)[i].key, Sort(KeyLe, ms)[j].key)
  {
    var sorted := Sort(KeyLe, ms);
    KeyLeIsTotalPreorder();
    SortAscending(KeyLe, ms);
    SortKeepsKeysDistinct(ms);
    forall i, j | 0 <= i < j < |sorted| ensures Less(sorted[i].key, sorted[j].key) {
      assert KeyLe(sorted[i], sorted[j]);
      LessTrichotomy(sorted[i].key, sorted[j].key);
    }
  }

  lemma {:induction false} SortKeepsKeysDistinct(ms: seq<Member>)
    requires DistinctKeys(ms)
    ensures DistinctKeys(Sort(KeyLe, ms))
  {
    if ms != [] {
      SortKeepsKeysDistinct(ms[1..]);
      SortPermutes(KeyLe, ms[1..]);
      SameElements(Sort(KeyLe, ms[1..]), ms[1..]);
      forall m | m in Sort(KeyLe, ms[1..]) ensures m.key != ms[0].key {
        assert m in ms[1..];
      }
      InsertKeepsKeysDistinct(ms[0], Sort(KeyLe, ms[1..]));
    }
  }

  lemma {:induction false} InsertKeepsKeysDistinct(m: Member, ms: seq<Member>)
    requires DistinctKeys(ms) && forall m' | m' in ms :: m'.key != m.key
    ensures DistinctKeys(Insert(KeyLe, m, ms))
  {
    if ms != [] && !KeyLe(m, ms[0]) {
      InsertKeepsKeysDistinct(m, ms[1..]);
      InsertPermutes(KeyLe, m, ms[1..]);
      SameElements(Insert(KeyLe, m, ms[1..]), [m] + ms[1..]);
      forall m' | m' in Insert(KeyLe, m, ms[1..]) ensures m'.key != ms[0].key {
        assert m' in [m] + ms[1..];
      }
    }
  }

  /** Sorting keys keeps the meaning and puts every dict in strict order. */
  lemma {:induction false} SortKeysCorrect(v: Json)
    requires WellFormed(v)
    ensures Meaning(SortKeys(v)) == Meaning(v)
    ensures IsSorted(SortKeys(v))
    decreases v
  {
    match v
    case Arr(xs) => SortItemsCorrect(xs);
    case Obj(ms) =>
      SortMembersCorrect(ms);
      var ms' := SortMembers(ms);
      MeaningOfSort(ms');
      SortStrictly(ms');
      SortPermutes(KeyLe, ms');
      SameElements(Sort(KeyLe, ms'), ms');
      forall m | m in Sort(KeyLe, ms') ensures IsSorted(m.value) {
        assert m in ms';
      }
    case _ =>
  }

  lemma {:induction false} SortItemsCorrect(xs: seq<Json>)
    requires forall x | x in xs :: WellFormed(x)
    ensures MeaningOfItems(SortItems(xs)) == MeaningOfItems(xs)
    ensures forall x | x in SortItems(xs) :: IsSorted(x)
    decreases xs
  {
    if xs != [] {
      SortKeysCorrect(xs[0]);
      SortItemsCorrect(xs[1..]);
      assert SortItems(xs)[1..] == SortItems(xs[1..]);
    }
  }

  lemma {:induction false} SortMembersCorrect(ms: seq<Member>)
    requires DistinctKeys(ms) && forall m | m in ms :: WellFormed(m.value)
    ensures |SortMembers(ms)| == |ms|
    ensures forall i :: 0 <= i < |ms| ==> SortMembers(ms)[i].key == ms[i].key
    ensures MeaningOfMembers(SortMembers(ms)) == MeaningOfMembers(ms)
    ensures forall m | m in SortMembers(ms) :: IsSorted(m.value)
    decreases ms
  {
    if ms != [] {
      SortKeysCorrect(ms[0].value);
      SortMembersCorrect(ms[1..]);
      assert SortMembers(ms)[1..] == SortMembers(ms[1..]);
    }
  }

  /** Sorted values that mean the same are the same. */
  lemma {:induction false} SortedUnique(a: Json, b: Json)
    requires IsSorted(a) && IsSorted(b) && Meaning(a) == Meaning(b)
    ensures a == b
    decreases a
  {
    match a
    case Arr(xs) =>
      var ys := b.items;
      assert |MeaningOfItems(xs)| == |MeaningOfItems(ys)|;
      forall i | 0 <= i < |xs| ensures xs[i] == ys[i] {
        assert MeaningOfItems(xs)[i] == MeaningOfItems(ys)[i];
        SortedUnique(xs[i], ys[i]);
      }
      assert xs == ys;
    case Obj(ms) => SortedMembersUnique(ms, b.members);
    case _ =>
  }

  lemma SortedIsDistinct(ms: seq<Member>)
    requires MembersSorted(ms)
    ensures DistinctKeys(ms)
  {
    forall i, j | 0 <= i < j < |ms| ensures ms[i].key != ms[j].key {
      LessTrichotomy(ms[i].key, ms[j].key);
    }
  }

  /** The smallest keys of equal dicts are equal. */
  lemma FirstKeyLeast(ms: seq<Member>, ns: seq<Member>)
    requires MembersSorted(ms) && MembersSorted(ns) && ms != [] && ns != []
    requires MeaningOfMembers(ms) == MeaningOfMembers(ns)
    ensures !Less(ns[0].key, ms[0].key)
  {
    SortedIsDistinct(ms);
    SortedIsDistinct(ns);
    MeaningLookup(ms);
    MeaningLookup(ns);
    assert ns[0].key in MeaningOfMembers(ms);
    var i :| 0 <= i < |ms| && ms[i].key == ns[0].key;
    LessTrichotomy(ms[0].key, ms[i].key);
  }

  lemma EmptyMeaning(ms: seq<Member>)
    ensures MeaningOfMembers(ms) == map[] <==> ms == []
  {
    if ms != [] {
      assert ms[0].key in MeaningOfMembers(ms);
    }
  }

  lemma {:induction false} SortedMembersUnique(ms: seq<Member>, ns: seq<Member>)
    requires MembersSorted(ms) && MembersSorted(ns)
    requires MeaningOfMembers(ms) == MeaningOfMembers(ns)
    ensures ms == ns
    decreases ms
  {
    EmptyMeaning(ms);
    EmptyMeaning(ns);
    if ms != [] && ns != [] {
      FirstKeyLeast(ms, ns);
      FirstKeyLeast(ns, ms);
      LessTrichotomy(ms[0].key, ns[0].key);
      SplitHead(ms);
      SplitHead(ns);
      SortedUnique(ms[0].value, ns[0].value);
      SortedMembersUnique(ms[1..], ns[1..]);
      assert ms[0] == ns[0];
      assert ms == [ms[0]] + ms[1..] && ns == [ns[0]] + ns[1..];
    }
  }

  lemma SplitHead(ms: seq<Member>)
    requires ms != [] && MembersSorted(ms)
    ensures ms[0].key in MeaningOfMembers(ms) && MeaningOfMembers(ms)[ms[0].key] == Meaning(ms[0].value)
    ensures IsSorted(ms[0].value) && MembersSorted(ms[1..])
    ensures MeaningOfMembers(ms[1..]) == MeaningOfMembers(ms) - {ms[0].key}
  {
    SortedIsDistinct(ms);
    HeadKeyNotInTail(ms);
    var tail := MeaningOfMembers(ms[1..]);
    assert tail[ms[0].key := Meaning(ms[0].value)] - {ms[0].key} == tail;
  }

  lemma HeadKeyNotInTail(ms: seq<Member>)
    requires ms != [] && DistinctKeys(ms)
    ensures ms[0].key !in MeaningOfMembers(ms[1..])
  {
    var tail := ms[1..];
    MeaningLookup(tail);
    forall i | 0 <= i < |tail| ensures tail[i].key != ms[0].key {
      assert tail[i] == ms[i + 1];
    }
  }

  /**
    The canonical bytes determine the value and are determined by it: the order
    in which dicts were filled never matters, and nothing else is lost.
   */
  lemma CanonicalIffSameMeaning(a: Json, b: Json)
    requires WellFormed(a) && WellFormed(b) && !HasNull(a) && !HasNull(b)
    ensures CanonicalBytes(a) == CanonicalBytes(b) <==> Meaning(a) == Meaning(b)
  {
    SortKeysCorrect(a);
    SortKeysCorrect(b);
    if CanonicalBytes(a) == CanonicalBytes(b) {
      Utf8Injective(Render(SortKeys(a), false), Render(SortKeys(b), false));
      ParseRender(SortKeys(a), false);
      ParseRender(SortKeys(b), false);
    }
    if Meaning(a) == Meaning(b) {
      SortedUnique(SortKeys(a), SortKeys(b));
    }
  }

  /** Decoding and parsing canonical bytes recovers the value. */
  lemma CanonicalRoundTrip(v: Json)
    requires WellFormed(v) && !HasNull(v)
    ensures CanonicalBytes(v).Success?
    ensures var text := DecodeUtf8(CanonicalBytes(v).value);
            text.Some? && Parse(text.value).Some? && Meaning(Parse(text.value).value) == Meaning(v)
  {
    SortKeysCorrect(v);
    Utf8RoundTrip(Render(SortKeys(v), false));
    ParseRender(SortKeys(v), false);
  }
}
