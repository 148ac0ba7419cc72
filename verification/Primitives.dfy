/**
  The library calls the ledger rests on, as parameters: nothing is assumed of
  SHA-256 beyond the shape of its digests, so a tamper theorem says "the
  contents are equal, or two distinct byte strings out of these sets share a
  digest".
 */
module Primitives {
  import opened Wrappers
  import opened Bytes
  import opened CanonicalJson

  predicate IsHexDigit(c: char)
  {
    '0' <= c <= '9' || 'a' <= c <= 'f'
  }

  lemma HexDigits(c: char)
    ensures IsHexDigit(c) <==> exists d :: 0 <= d < 16 && HexDigit(d) == c
  {
    if '0' <= c <= '9' {
      assert HexDigit(c as int - 48) == c;
    } else if 'a' <= c <= 'f' {
      assert HexDigit(c as int - 87) == c;
    }
  }

  /** 64 lowercase hex digits, as every hash validator demands. */
  type Hex64 = s: string | |s| == 64 && forall c | c in s :: IsHexDigit(c)
    witness seq(64, _ => '0')

  /** An Ed25519 signature. */
  type Signature = s: ByteString | |s| == 64
    witness seq(64, _ => 0)

  /** An instant, in microseconds since the epoch. */
  type Time = int

  const DAY: Time := 86_400_000_000

  /** An aware datetime: an instant, and the UTC offset it is written in. */
  datatype Stamp = Stamp(at: Time, offset: int)

  function Utc(t: Time): (s: Stamp)
    ensures s.at == t && s.offset == 0
  {
    Stamp(t, 0)
  }

  /** A timestamp of a request, with or without an offset. */
  datatype RequestTime = Naive(clock: Time) | Aware(stamp: Stamp)

  /** The ISO-8601 text of an aware datetime. */
  type IsoText = s: string | s != "" witness "T"

  /** The canonical text of a UUID. */
  type Uuid = string

  /** The characters `str.strip` removes. */
  predicate IsSpace(c: char)
  {
    var n := c as int;
    || 0x09 <= n <= 0x0D || 0x1C <= n <= 0x20 || n == 0x85 || n == 0xA0 || n == 0x1680
    || 0x2000 <= n <= 0x200A || n == 0x2028 || n == 0x2029 || n == 0x202F || n == 0x205F || n == 0x3000
  }

  /** Python's 29 whitespace characters. */
  lemma Spaces(c: char)
    ensures IsSpace(c)
       <==> c as int in [9, 10, 11, 12, 13, 28, 29, 30, 31, 32, 0x85, 0xA0, 0x1680, 0x2000, 0x2001, 0x2002, 0x2003, 0x2004, 0x2005,
                         0x2006, 0x2007, 0x2008, 0x2009, 0x200A, 0x2028, 0x2029, 0x202F, 0x205F, 0x3000]
  {
  }

  /** `not s or not s.strip()` */
  predicate IsBlank(s: string)
  {
    forall c | c in s :: IsSpace(c)
  }

  datatype Library = Library(
    sha256: ByteString -> Hex64,
    iso: Stamp -> IsoText,
    sign: (ByteString, Hex64) -> Signature
  )

  /** ISO texts differ when the instants or the offsets do. */
  ghost predicate FaithfulIso(lib: Library)
  {
    forall s: Stamp, t: Stamp :: lib.iso(s) == lib.iso(t) ==> s == t
  }

  /** A null is bound as the empty string. */
  function OrEmpty(s: Option<string>): string
  {
    match s
    case None => ""
    case Some(t) => t
  }

  /** A Python value: every dict in it has distinct keys. */
  type Value = v: Json | WellFormed(v) witness Num(0)

  /** A value that can be hashed: dicts have distinct keys, and no null occurs. */
  type Hashable = v: Json | WellFormed(v) && !HasNull(v) witness Num(0)

  ghost predicate IsHashable(v: Json)
  {
    WellFormed(v) && !HasNull(v)
  }

  ghost predicate AllHashable(vs: seq<Json>)
  {
    forall i :: 0 <= i < |vs| ==> IsHashable(vs[i])
  }

  ghost predicate Distinct(keys: seq<string>)
  {
    forall i, j :: 0 <= i < j < |keys| ==> keys[i] != keys[j]
  }

  function Members(keys: seq<string>, vs: seq<Json>): (ms: seq<Member>)
    requires |keys| == |vs|
    ensures |ms| == |keys|
    ensures forall i :: 0 <= i < |ms| ==> ms[i] == Member(keys[i], vs[i])
  {
    seq(|keys|, i requires 0 <= i < |keys| => Member(keys[i], vs[i]))
  }

  /** A dict with these keys and values. */
  function Struct(keys: seq<string>, vs: seq<Json>): (v: Hashable)
    requires |keys| == |vs| && Distinct(keys) && AllHashable(vs)
    ensures v == Obj(Members(keys, vs))
  {
    var ms := Members(keys, vs);
    assert forall m | m in ms :: IsHashable(m.value);
    Obj(ms)
  }

  /** A list of hashable values. */
  function Items(vs: seq<Json>): (v: Hashable)
    requires AllHashable(vs)
    ensures v == Arr(vs)
  {
    assert forall x | x in vs :: IsHashable(x);
    Arr(vs)
  }

  /** Its canonical bytes. */
  function Text(v: Hashable): ByteString
  {
    CanonicalBytes(v).value
  }

  /** `sha256_hex` of such a value. */
  function Digest(lib: Library, v: Hashable): Hex64
  {
    lib.sha256(Text(v))
  }

  /** `sha256_hex` of any payload. */
  function Sha256Hex(lib: Library, v: Json): Result<Hex64, EncodingError>
  {
    match CanonicalBytes(v)
    case Failure(e) => Failure(e)
    case Success(bytes) => Success(lib.sha256(bytes))
  }

  /** A collision between a byte string of `A` and another of `B`. */
  ghost predicate Clash(lib: Library, A: set<ByteString>, B: set<ByteString>)
  {
    exists x, y :: x in A && y in B && x != y && lib.sha256(x) == lib.sha256(y)
  }

  lemma ClashGrows(lib: Library, A: set<ByteString>, B: set<ByteString>, A': set<ByteString>, B': set<ByteString>)
    requires Clash(lib, A, B) && A <= A' && B <= B'
    ensures Clash(lib, A', B')
  {
    var x, y :| x in A && y in B && x != y && lib.sha256(x) == lib.sha256(y);
    assert x in A' && y in B';
  }

  /** Equal digests mean equal contents, or the two canonical texts collide. */
  lemma DigestDetermines(lib: Library, v: Hashable, w: Hashable)
    ensures Meaning(v) == Meaning(w) <==> Text(v) == Text(w)
    ensures Digest(lib, v) == Digest(lib, w) ==> Text(v) == Text(w) || Clash(lib, {Text(v)}, {Text(w)})
  {
    hide Meaning, WellFormed;
    CanonicalIffSameMeaning(v, w);
    if Digest(lib, v) == Digest(lib, w) && Text(v) != Text(w) {
      assert Text(v) in {Text(v)} && Text(w) in {Text(w)};
    }
  }

  ghost predicate SameMeanings(vs: seq<Json>, ws: seq<Json>)
  {
    |vs| == |ws| && forall i :: 0 <= i < |vs| ==> Meaning(vs[i]) == Meaning(ws[i])
  }

  lemma {:induction false} MembersSameMeaning(ms: seq<Member>, ns: seq<Member>)
    requires |ms| == |ns| && DistinctKeys(ms)
    requires forall i :: 0 <= i < |ms| ==> ms[i].key == ns[i].key
    ensures MeaningOfMembers(ms) == MeaningOfMembers(ns)
       <==> forall i :: 0 <= i < |ms| ==> Meaning(ms[i].value) == Meaning(ns[i].value)
  {
    if ms != [] {
      MembersSameMeaning(ms[1..], ns[1..]);
      HeadKeyNotInTail(ms);
      HeadKeyNotInTail(ns);
      var m, n := MeaningOfMembers(ms), MeaningOfMembers(ns);
      var k := ms[0].key;
      assert m - {k} == MeaningOfMembers(ms[1..]) && n - {k} == MeaningOfMembers(ns[1..]);
      assert m[k] == Meaning(ms[0].value) && n[k] == Meaning(ns[0].value);
      if forall i :: 0 <= i < |ms| ==> Meaning(ms[i].value) == Meaning(ns[i].value) {
        forall i | 0 <= i < |ms[1..]| ensures Meaning(ms[1..][i].value) == Meaning(ns[1..][i].value) {
          assert ms[1..][i] == ms[i + 1] && ns[1..][i] == ns[i + 1];
        }
      }
      if m == n {
        forall i | 0 <= i < |ms| ensures Meaning(ms[i].value) == Meaning(ns[i].value) {
          if i > 0 {
            assert ms[1..][i - 1] == ms[i] && ns[1..][i - 1] == ns[i];
          }
        }
      }
    }
  }

  /** Dicts over the same keys have equal texts exactly when their values agree; equal digests say so up to a clash. */
  lemma StructDetermines(lib: Library, keys: seq<string>, vs: seq<Json>, ws: seq<Json>)
    requires |keys| == |vs| == |ws| && Distinct(keys) && AllHashable(vs) && AllHashable(ws)
    ensures SameMeanings(vs, ws) <==> Text(Struct(keys, vs)) == Text(Struct(keys, ws))
    ensures Digest(lib, Struct(keys, vs)) == Digest(lib, Struct(keys, ws))
        ==> SameMeanings(vs, ws) || Clash(lib, {Text(Struct(keys, vs))}, {Text(Struct(keys, ws))})
  {
    hide Text, Clash;
    var v, w := Struct(keys, vs), Struct(keys, ws);
    DigestDetermines(lib, v, w);
    MembersSameMeaning(v.members, w.members);
  }

  /** Lists of values have equal texts exactly when they agree element by element. */
  lemma ItemsSameMeaning(vs: seq<Json>, ws: seq<Json>)
    ensures Meaning(Arr(vs)) == Meaning(Arr(ws)) <==> SameMeanings(vs, ws)
  {
    var ds, es := MeaningOfItems(vs), MeaningOfItems(ws);
    if ds == es {
      forall i | 0 <= i < |vs| ensures Meaning(vs[i]) == Meaning(ws[i]) {
        assert ds[i] == es[i];
      }
    }
    if SameMeanings(vs, ws) {
      assert ds == es;
    }
  }

  /** The same for a dict nested in another. */
  lemma StructSameMeaning(keys: seq<string>, vs: seq<Json>, ws: seq<Json>)
    requires |keys| == |vs| == |ws| && Distinct(keys) && AllHashable(vs) && AllHashable(ws)
    ensures Meaning(Struct(keys, vs)) == Meaning(Struct(keys, ws)) <==> SameMeanings(vs, ws)
  {
    MembersSameMeaning(Members(keys, vs), Members(keys, ws));
  }

  /** A dict's meaning has exactly its keys. */
  lemma StructKeys(keys: seq<string>, vs: seq<Json>, k: string)
    requires |keys| == |vs| && Distinct(keys) && AllHashable(vs)
    ensures Meaning(Struct(keys, vs)).DObj? && (k in Meaning(Struct(keys, vs)).members <==> k in keys)
  {
    hide WellFormed;
    var ms := Members(keys, vs);
    MeaningLookup(ms);
    if k in keys {
      var i :| 0 <= i < |keys| && keys[i] == k;
      assert ms[i].key == k;
    }
  }

  /** What a dict says under a key. */
  ghost function Said(v: Hashable, key: string): Option<Data>
  {
    if Meaning(v).DObj? && key in Meaning(v).members then Some(Meaning(v).members[key]) else None
  }

  lemma StructSays(keys: seq<string>, vs: seq<Json>)
    requires |keys| == |vs| && Distinct(keys) && AllHashable(vs)
    ensures forall i :: 0 <= i < |keys| ==> Said(Struct(keys, vs), keys[i]) == Some(Meaning(vs[i]))
  {
    hide WellFormed, HasNull;
    var ms := Members(keys, vs);
    MeaningLookup(ms);
    forall i | 0 <= i < |keys| ensures Said(Struct(keys, vs), keys[i]) == Some(Meaning(vs[i])) {
      assert ms[i] == Member(keys[i], vs[i]);
    }
  }

  lemma NothingElseSaid(keys: seq<string>, vs: seq<Json>, k: string)
    requires |keys| == |vs| && Distinct(keys) && AllHashable(vs)
    ensures Said(Struct(keys, vs), k).Some? <==> k in keys
  {
    hide Meaning, Struct;
    StructKeys(keys, vs, k);
  }

  // ----- Dicts that leave members out -----

  /** A member that is dumped only when there is something to dump. */
  datatype Field = Field(key: string, value: Option<Json>)

  ghost predicate DistinctFields(fields: seq<Field>)
  {
    forall i, j :: 0 <= i < j < |fields| ==> fields[i].key != fields[j].key
  }

  function Present(fields: seq<Field>): seq<Member>
  {
    if fields == [] then []
    else
      (if fields[0].value.Some? then [Member(fields[0].key, fields[0].value.value)] else []) + Present(fields[1..])
  }

  lemma {:induction false} PresentMembers(fields: seq<Field>)
    ensures forall m :: m in Present(fields) <==> exists i :: 0 <= i < |fields| && fields[i] == Field(m.key, Some(m.value))
  {
    if fields != [] {
      PresentMembers(fields[1..]);
      forall m ensures m in Present(fields) <==> exists i :: 0 <= i < |fields| && fields[i] == Field(m.key, Some(m.value)) {
        if m in Present(fields[1..]) {
          var i :| 0 <= i < |fields[1..]| && fields[1..][i] == Field(m.key, Some(m.value));
          assert fields[i + 1] == Field(m.key, Some(m.value));
        }
        if i :| 0 < i < |fields| && fields[i] == Field(m.key, Some(m.value)) {
          assert fields[1..][i - 1] == fields[i];
        }
      }
    }
  }

  lemma {:induction false} PresentDistinct(fields: seq<Field>)
    requires DistinctFields(fields)
    ensures DistinctKeys(Present(fields))
  {
    if fields != [] {
      forall i, j | 0 <= i < j < |fields[1..]| ensures fields[1..][i].key != fields[1..][j].key {
        assert fields[1..][i] == fields[i + 1] && fields[1..][j] == fields[j + 1];
      }
      PresentDistinct(fields[1..]);
      PresentMembers(fields[1..]);
      var rest := Present(fields[1..]);
      forall j | 0 <= j < |rest| ensures rest[j].key != fields[0].key {
        assert rest[j] in rest;
        var k :| 0 <= k < |fields[1..]| && fields[1..][k] == Field(rest[j].key, Some(rest[j].value));
        assert fields[k + 1].key == rest[j].key;
      }
    }
  }

  /** Two optional values that are both absent, or mean the same. */
  ghost predicate SameOption(a: Option<Json>, b: Option<Json>)
  {
    a.Some? == b.Some? && (a.Some? ==> Meaning(a.value) == Meaning(b.value))
  }

  /** Under its key a dict says what the field holds, or nothing. */
  lemma FieldSaid(fields: seq<Field>, i: nat)
    requires DistinctFields(fields) && i < |fields|
    ensures var m := MeaningOfMembers(Present(fields));
      && (fields[i].key in m <==> fields[i].value.Some?)
      && (fields[i].value.Some? ==> m[fields[i].key] == Meaning(fields[i].value.value))
  {
    hide Meaning, MeaningOfMembers, Present;
    var ms := Present(fields);
    PresentMembers(fields);
    PresentDistinct(fields);
    MeaningLookup(ms);
    if fields[i].value.Some? {
      var m := Member(fields[i].key, fields[i].value.value);
      assert fields[i] == Field(m.key, Some(m.value));
      assert m in ms;
      var j :| 0 <= j < |ms| && ms[j] == m;
    } else {
      forall j | 0 <= j < |ms| ensures ms[j].key != fields[i].key {
        assert ms[j] in ms;
      }
    }
  }

  /** Dumps over the same keys mean the same exactly when they do field by field. */
  lemma FieldsSameMeaning(a: seq<Field>, b: seq<Field>)
    requires DistinctFields(a) && |a| == |b| && forall i :: 0 <= i < |a| ==> a[i].key == b[i].key
    ensures Meaning(Obj(Present(a))) == Meaning(Obj(Present(b)))
       <==> forall i :: 0 <= i < |a| ==> SameOption(a[i].value, b[i].value)
  {
    var m, n := MeaningOfMembers(Present(a)), MeaningOfMembers(Present(b));
    hide MeaningOfMembers, Present;
    assert DistinctFields(b);
    forall i | 0 <= i < |a|
      ensures (a[i].key in m <==> a[i].value.Some?) && (a[i].value.Some? ==> m[a[i].key] == Meaning(a[i].value.value))
      ensures (b[i].key in n <==> b[i].value.Some?) && (b[i].value.Some? ==> n[b[i].key] == Meaning(b[i].value.value))
    {
      FieldSaid(a, i);
      FieldSaid(b, i);
    }
    KeysOfFields(a);
    KeysOfFields(b);
    if forall i :: 0 <= i < |a| ==> SameOption(a[i].value, b[i].value) {
      assert m == n;
    }
  }

  lemma KeysOfFields(fields: seq<Field>)
    requires DistinctFields(fields)
    ensures forall k :: k in MeaningOfMembers(Present(fields)) ==> exists i :: 0 <= i < |fields| && fields[i].key == k
  {
    hide Meaning, MeaningOfMembers, Present;
    var ms := Present(fields);
    PresentMembers(fields);
    PresentDistinct(fields);
    MeaningLookup(ms);
    forall k | k in MeaningOfMembers(ms) ensures exists i :: 0 <= i < |fields| && fields[i].key == k {
      var j :| 0 <= j < |ms| && ms[j].key == k;
      assert ms[j] in ms;
    }
  }
}
