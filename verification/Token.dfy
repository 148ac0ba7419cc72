/**
  Bearer tokens `b64url(payload).b64url(mac)` (apps/api/auth/token.py): minting,
  verifying, and that the second undoes the first.
 */
module Token {
  import opened Wrappers
  import opened Bytes
  import opened CanonicalJson
  import opened Primitives

  const MIN_SECRET_LEN := 32
  const MICROS := 1_000_000

  datatype Principal = Principal(tenantId: Uuid, agentId: Uuid, agentSlug: string, scopes: set<string>)

  /** `Uncaught` is the AttributeError that `UUID(x)` raises on a claim that is neither text nor null. */
  datatype TokenError = Invalid | Expired | Uncaught

  datatype MintError = WeakSecret

  /** `hmac` is HMAC-SHA256 (key, message); `parseUuid` reads any spelling of a UUID into its canonical text. */
  datatype Calls = Calls(hmac: (ByteString, ByteString) -> ByteString, parseUuid: string -> Option<Uuid>)

  // ----- Unpadded base64url (RFC 4648, section 5) -----

  function StripPadding(s: string): string
  {
    if s != "" && s[|s| - 1] == '=' then StripPadding(s[..|s| - 1]) else s
  }

  function Padding(n: nat): string
  {
    seq(n, _ => '=')
  }

  /** `_b64url_encode` */
  function B64UrlEncode(bs: ByteString): string
  {
    StripPadding(Base64Encode(bs, true))
  }

  /** `_b64url_decode`: `-len(s) % 4` pad characters are put back. */
  function B64UrlDecode(s: string): Option<ByteString>
  {
    Base64Decode(s + Padding(-|s| % 4), true)
  }

  function PadsOf(bs: ByteString): nat
  {
    if |bs| % 3 == 1 then 2 else if |bs| % 3 == 2 then 1 else 0
  }

  /** The encoder writes whole groups of four, and pads exactly at the end. */
  lemma {:induction false} EncodedShape(bs: ByteString)
    ensures var e := Base64Encode(bs, true);
      && |e| % 4 == 0 && PadsOf(bs) <= |e|
      && (forall i :: 0 <= i < |e| - PadsOf(bs) ==> e[i] != '=')
      && (forall i :: |e| - PadsOf(bs) <= i < |e| ==> e[i] == '=')
    decreases |bs|
  {
    hide Symbol;
    SymbolsAreNotPads();
    if |bs| >= 3 {
      EncodedShape(bs[3..]);
    }
  }

  lemma SymbolsAreNotPads()
    ensures forall d: Sextet :: Symbol(d, true) != '='
  {
    forall d: Sextet ensures Symbol(d, true) != '=' {
      SymbolRoundTrip(d, true);
    }
  }

  lemma {:induction false} StripsExactly(s: string, k: nat)
    requires k <= |s|
    requires forall i :: 0 <= i < |s| - k ==> s[i] != '='
    requires forall i :: |s| - k <= i < |s| ==> s[i] == '='
    ensures StripPadding(s) == s[..|s| - k]
  {
    if k > 0 {
      StripsExactly(s[..|s| - 1], k - 1);
      assert s[..|s| - 1][..|s| - k] == s[..|s| - k];
    } else {
      assert s[..|s|] == s;
    }
  }

  /** Every byte string survives: the pad characters put back are the ones stripped. */
  lemma UnpaddedRoundTrip(bs: ByteString)
    ensures B64UrlDecode(B64UrlEncode(bs)) == Some(bs)
    ensures '.' !in B64UrlEncode(bs) && '=' !in B64UrlEncode(bs)
  {
    hide Base64Encode, Base64Decode, StripPadding;
    var e, k := Base64Encode(bs, true), PadsOf(bs);
    EncodedShape(bs);
    StripsExactly(e, k);
    assert -(|e| - k) % 4 == k;
    assert e == e[..|e| - k] + Padding(k);
    Base64RoundTrip(bs, true);
    Base64IsAscii(bs, true);
  }

  // ----- Splitting at the dot -----

  /** `s.split(".")` */
  function Split(s: string): (parts: seq<string>)
    ensures parts != []
  {
    if s == "" then [""]
    else
      var rest := Split(s[1..]);
      if s[0] == '.' then [""] + rest else [[s[0]] + rest[0]] + rest[1..]
  }

  lemma {:induction false} SplitWhole(s: string)
    requires '.' !in s
    ensures Split(s) == [s]
  {
    if s != "" {
      SplitWhole(s[1..]);
      assert s == [s[0]] + s[1..];
    }
  }

  lemma {:induction false} SplitInTwo(a: string, b: string)
    requires '.' !in a && '.' !in b
    ensures Split(a + "." + b) == [a, b]
  {
    var s := a + "." + b;
    if a == "" {
      assert s[1..] == b;
      SplitWhole(b);
    } else {
      assert s[1..] == a[1..] + "." + b;
      SplitInTwo(a[1..], b);
      assert a == [a[0]] + a[1..];
    }
  }

  /** The parts with a dot between each two. */
  function Dotted(parts: seq<string>): string
    requires parts != []
  {
    if |parts| == 1 then parts[0] else parts[0] + "." + Dotted(parts[1..])
  }

  /** Nothing is lost by splitting, and no part has a dot left. */
  lemma {:induction false} SplitLosesNothing(s: string)
    ensures Dotted(Split(s)) == s
    ensures forall i :: 0 <= i < |Split(s)| ==> '.' !in Split(s)[i]
  {
    if s != "" {
      SplitLosesNothing(s[1..]);
      var rest, parts := Split(s[1..]), Split(s);
      assert s == [s[0]] + s[1..];
      if s[0] == '.' {
        assert parts[1..] == rest;
      } else {
        assert parts[1..] == rest[1..];
        assert |rest| > 1 ==> parts[0] + "." + Dotted(rest[1..]) == [s[0]] + (rest[0] + "." + Dotted(rest[1..]));
      }
    }
  }

  /** Exactly one dot makes two parts. */
  lemma TwoParts(s: string, a: string, b: string)
    ensures Split(s) == [a, b] <==> s == a + "." + b && '.' !in a && '.' !in b
  {
    if Split(s) == [a, b] {
      SplitLosesNothing(s);
      assert [a, b][1..] == [b];
      assert Split(s)[0] == a && Split(s)[1] == b;
    }
    if s == a + "." + b && '.' !in a && '.' !in b {
      SplitInTwo(a, b);
    }
  }

  // ----- Claims -----

  /** `payload.get(key)`: of repeated keys the last counts. */
  function Lookup(ms: seq<Member>, key: string): Option<Json>
  {
    if ms == [] then None
    else if ms[|ms| - 1].key == key then Some(ms[|ms| - 1].value)
    else Lookup(ms[..|ms| - 1], key)
  }

  function UuidClaim(calls: Calls, claim: Option<Json>): Result<Uuid, TokenError>
  {
    match claim
    case None => Failure(Invalid)
    case Some(Null) => Failure(Invalid)
    case Some(Str(s)) => (match calls.parseUuid(s) case None => Failure(Invalid) case Some(u) => Success(u))
    case Some(_) => Failure(Uncaught)
  }

  predicate AllStrings(xs: seq<Json>)
  {
    forall i :: 0 <= i < |xs| ==> xs[i].Str?
  }

  function ScopesClaim(claim: Option<Json>): Option<set<string>>
  {
    match claim
    case None => Some({})
    case Some(Arr(xs)) => if AllStrings(xs) then Some(set i | 0 <= i < |xs| :: xs[i].s) else None
    case Some(_) => None
  }

  /** Seconds, compared with a clock in microseconds; a JSON boolean counts as 0 or 1. */
  function ExpiryOf(claim: Option<Json>, now: Time): Option<TokenError>
  {
    match claim
    case None => None
    case Some(Null) => None
    case Some(Num(n)) => if n * MICROS < now then Some(Expired) else None
    case Some(Bool(b)) => if (if b then MICROS else 0) < now then Some(Expired) else None
    case Some(_) => Some(Invalid)
  }

  function ReadClaims(calls: Calls, tenantId: Uuid, ms: seq<Member>, now: Time): Result<Principal, TokenError>
  {
    match UuidClaim(calls, Lookup(ms, "tenant_id"))
    case Failure(e) => Failure(e)
    case Success(claimedTenant) =>
      match UuidClaim(calls, Lookup(ms, "agent_id"))
      case Failure(e) => Failure(e)
      case Success(agentId) =>
        match Lookup(ms, "agent_slug")
        case Some(Str(slug)) =>
          if slug == "" || claimedTenant != tenantId then Failure(Invalid)
          else (match ScopesClaim(Lookup(ms, "scopes"))
                case None => Failure(Invalid)
                case Some(scopes) =>
                  match ExpiryOf(Lookup(ms, "exp"), now)
                  case Some(e) => Failure(e)
                  case None => Success(Principal(claimedTenant, agentId, slug, scopes)))
        case _ => Failure(Invalid)
  }

  /** `HmacBearerTokenVerifier.verify` */
  function Verify(calls: Calls, tenantId: Uuid, secret: ByteString, token: string, now: Time): Result<Principal, TokenError>
  {
    var parts := Split(token);
    if |parts| != 2 then Failure(Invalid)
    else match B64UrlDecode(parts[0])
      case None => Failure(Invalid)
      case Some(payloadBytes) =>
        match B64UrlDecode(parts[1])
        case None => Failure(Invalid)
        case Some(mac) =>
          if mac != calls.hmac(secret, payloadBytes) then Failure(Invalid)
          else match DecodeUtf8(payloadBytes)
            case None => Failure(Invalid)
            case Some(text) =>
              match Parse(text)
              case Some(Obj(ms)) => ReadClaims(calls, tenantId, ms, now)
              case _ => Failure(Invalid)
  }

  // ----- Minting -----

  function StringItems(ss: seq<string>): (xs: seq<Json>)
    ensures |xs| == |ss| && AllHashable(xs) && forall i :: 0 <= i < |ss| ==> xs[i] == Str(ss[i])
  {
    seq(|ss|, i requires 0 <= i < |ss| => Str(ss[i]))
  }

  function PayloadKeys(expires: bool): (keys: seq<string>)
    ensures |keys| == (if expires then 5 else 4) && Distinct(keys)
  {
    ["tenant_id", "agent_id", "agent_slug", "scopes"] + if expires then ["exp"] else []
  }

  function PayloadValues(tenantId: Uuid, agentId: Uuid, slug: string, scopes: seq<string>, exp: Option<int>): (vs: seq<Json>)
    ensures |vs| == (if exp.Some? then 5 else 4) && AllHashable(vs)
  {
    [Str(tenantId), Str(agentId), Str(slug), Items(StringItems(scopes))] + if exp.Some? then [Num(exp.value)] else []
  }

  /** The payload dict in the order it is filled. */
  function Payload(tenantId: Uuid, agentId: Uuid, slug: string, scopes: seq<string>, exp: Option<int>): (v: Hashable)
    ensures v.Obj?
  {
    Struct(PayloadKeys(exp.Some?), PayloadValues(tenantId, agentId, slug, scopes, exp))
  }

  function PayloadBytes(v: Json): ByteString
  {
    Utf8(Render(SortKeys(v), true))
  }

  /** `mint_hmac_token` */
  function Mint(
    calls: Calls, tenantId: Uuid, agentId: Uuid, slug: string, secret: ByteString, scopes: Option<seq<string>>,
    exp: Option<int>
  ): Result<string, MintError>
  {
    if |secret| < MIN_SECRET_LEN then Failure(WeakSecret)
    else
      var bytes := PayloadBytes(Payload(tenantId, agentId, slug, if scopes.Some? then scopes.value else [], exp));
      Success(B64UrlEncode(bytes) + "." + B64UrlEncode(calls.hmac(secret, bytes)))
  }

  // ----- Verifying what was minted -----

  lemma LookupIsMeaning(ms: seq<Member>, key: string)
    requires DistinctKeys(ms)
    ensures Lookup(ms, key).Some? <==> key in MeaningOfMembers(ms)
    ensures Lookup(ms, key).Some? ==> Meaning(Lookup(ms, key).value) == MeaningOfMembers(ms)[key]
  {
    hide Meaning, MeaningOfMembers;
    LookupFinds(ms, key);
    MeaningLookup(ms);
  }

  lemma {:induction false} LookupFinds(ms: seq<Member>, key: string)
    ensures Lookup(ms, key).None? <==> forall i :: 0 <= i < |ms| ==> ms[i].key != key
    ensures Lookup(ms, key).Some? ==> exists i :: 0 <= i < |ms| && ms[i] == Member(key, Lookup(ms, key).value)
  {
    if ms != [] {
      var n := |ms| - 1;
      LookupFinds(ms[..n], key);
      assert forall i :: 0 <= i < n ==> ms[..n][i] == ms[i];
      if ms[n].key == key {
        assert ms[n] == Member(key, Lookup(ms, key).value);
      } else if Lookup(ms, key).Some? {
        var i :| 0 <= i < n && ms[..n][i] == Member(key, Lookup(ms, key).value);
        assert ms[i] == Member(key, Lookup(ms, key).value);
      }
    }
  }

  /** What the token's text is parsed back into: the same claims, keys sorted. */
  lemma PayloadReadsBack(v: Hashable)
    requires v.Obj?
    ensures DecodeUtf8(PayloadBytes(v)).Some?
    ensures var parsed := Parse(DecodeUtf8(PayloadBytes(v)).value);
      && parsed.Some? && parsed.value.Obj? && DistinctKeys(parsed.value.members)
      && MeaningOfMembers(parsed.value.members) == MeaningOfMembers(v.members)
  {
    hide WellFormed, HasNull, Render, Parse, DecodeUtf8, Utf8, MeaningOfMembers, MembersSorted;
    var sorted := SortKeys(v);
    SortKeysCorrect(v);
    assert sorted.Obj? && Meaning(sorted) == DObj(MeaningOfMembers(sorted.members));
    SortedIsDistinct(sorted.members);
    Utf8RoundTrip(Render(sorted, true));
    ParseRender(sorted, true);
  }

  lemma ScalarsReadBack(v: Json)
    ensures forall s :: Meaning(v) == DStr(s) ==> v == Str(s)
    ensures forall n :: Meaning(v) == DNum(n) ==> v == Num(n)
  {
  }

  lemma ScopesReadBack(v: Json, ss: seq<string>)
    requires Meaning(v) == Meaning(Arr(StringItems(ss)))
    ensures ScopesClaim(Some(v)) == Some(set i | 0 <= i < |ss| :: ss[i])
  {
    assert v.Arr?;
    var xs := v.items;
    var ds := MeaningOfItems(xs);
    assert ds == MeaningOfItems(StringItems(ss));
    forall i | 0 <= i < |xs| ensures xs[i] == Str(ss[i]) {
      assert ds[i] == Meaning(Str(ss[i])) == DStr(ss[i]);
      ScalarsReadBack(xs[i]);
    }
    assert (set i | 0 <= i < |xs| :: xs[i].s) == (set i | 0 <= i < |ss| :: ss[i]);
  }

  /** What any dict with the payload's meaning says. */
  lemma ClaimsOf(ms: seq<Member>, tenantId: Uuid, agentId: Uuid, slug: string, scopes: seq<string>, exp: Option<int>)
    requires DistinctKeys(ms)
    requires MeaningOfMembers(ms) == MeaningOfMembers(Payload(tenantId, agentId, slug, scopes, exp).members)
    ensures Lookup(ms, "tenant_id") == Some(Str(tenantId)) && Lookup(ms, "agent_id") == Some(Str(agentId))
    ensures Lookup(ms, "agent_slug") == Some(Str(slug))
    ensures Lookup(ms, "scopes").Some? && Meaning(Lookup(ms, "scopes").value) == Meaning(Arr(StringItems(scopes)))
    ensures Lookup(ms, "exp") == (if exp.Some? then Some(Num(exp.value)) else None)
  {
    hide MeaningOfMembers, Meaning, Lookup, HasNull, WellFormed, StringItems;
    var keys, vs := PayloadKeys(exp.Some?), PayloadValues(tenantId, agentId, slug, scopes, exp);
    Claim(ms, keys, vs, 0);
    Claim(ms, keys, vs, 1);
    Claim(ms, keys, vs, 2);
    Claim(ms, keys, vs, 3);
    assert vs[3] == Arr(StringItems(scopes));
    if exp.Some? {
      Claim(ms, keys, vs, 4);
    } else {
      LookupIsMeaning(ms, "exp");
      StructKeys(keys, vs, "exp");
      MembersMeaning(keys, vs);
    }
  }

  lemma MembersMeaning(keys: seq<string>, vs: seq<Json>)
    requires |keys| == |vs| && Distinct(keys) && AllHashable(vs)
    ensures Meaning(Struct(keys, vs)) == DObj(MeaningOfMembers(Struct(keys, vs).members))
  {
    hide WellFormed, HasNull, MeaningOfMembers;
  }

  lemma Claim(ms: seq<Member>, keys: seq<string>, vs: seq<Json>, i: nat)
    requires |keys| == |vs| && Distinct(keys) && AllHashable(vs) && i < |keys|
    requires DistinctKeys(ms) && MeaningOfMembers(ms) == MeaningOfMembers(Struct(keys, vs).members)
    ensures var found := Lookup(ms, keys[i]);
      && found.Some? && Meaning(found.value) == Meaning(vs[i])
      && (vs[i].Str? || vs[i].Num? ==> found.value == vs[i])
  {
    hide MeaningOfMembers, Lookup, WellFormed, HasNull;
    var payload := Struct(keys, vs).members;
    assert payload[i] == Member(keys[i], vs[i]);
    LookupIsMeaning(ms, keys[i]);
    MeaningLookup(payload);
    ScalarsReadBack(Lookup(ms, keys[i]).value);
  }

  /** The outcome a minted token must have at a verifier of tenant `verifier`. */
  function Expected(
    verifier: Uuid, tenantId: Uuid, agentId: Uuid, slug: string, scopes: Option<seq<string>>, exp: Option<int>, now: Time
  ): Result<Principal, TokenError>
  {
    var granted := if scopes.Some? then scopes.value else [];
    if slug == "" || tenantId != verifier then Failure(Invalid)
    else if exp.Some? && exp.value * MICROS < now then Failure(Expired)
    else Success(Principal(tenantId, agentId, slug, set i | 0 <= i < |granted| :: granted[i]))
  }

  /**
    Verifying a minted token under its secret returns exactly the minted
    principal, scopes as a set, unless it has expired, names no agent slug or is
    shown to another tenant's verifier. Under another secret it is invalid, unless
    the two secrets give its payload the same MAC.
   */
  lemma MintThenVerify(
    calls: Calls, verifier: Uuid, tenantId: Uuid, agentId: Uuid, slug: string, secret: ByteString, other: ByteString,
    scopes: Option<seq<string>>, exp: Option<int>, now: Time
  )
    requires calls.parseUuid(tenantId) == Some(tenantId) && calls.parseUuid(agentId) == Some(agentId)
    ensures Mint(calls, tenantId, agentId, slug, secret, scopes, exp).Failure? <==> |secret| < MIN_SECRET_LEN
    ensures |secret| >= MIN_SECRET_LEN ==>
              var token := Mint(calls, tenantId, agentId, slug, secret, scopes, exp).value;
              var bytes := PayloadBytes(Payload(tenantId, agentId, slug, if scopes.Some? then scopes.value else [], exp));
              && Verify(calls, verifier, secret, token, now) == Expected(verifier, tenantId, agentId, slug, scopes, exp, now)
              && Verify(calls, verifier, other, token, now)
                   == if calls.hmac(other, bytes) == calls.hmac(secret, bytes)
                      then Expected(verifier, tenantId, agentId, slug, scopes, exp, now) else Failure(Invalid)
  {
    hide B64UrlEncode, B64UrlDecode, PayloadBytes, Payload, Lookup, Parse, DecodeUtf8, Split, ScopesClaim, MeaningOfMembers,
         Meaning, DistinctKeys, WellFormed, HasNull;
    if |secret| >= MIN_SECRET_LEN {
      var granted := if scopes.Some? then scopes.value else [];
      var payload := Payload(tenantId, agentId, slug, granted, exp);
      var bytes := PayloadBytes(payload);
      var mac := calls.hmac(secret, bytes);
      UnpaddedRoundTrip(bytes);
      UnpaddedRoundTrip(mac);
      SplitInTwo(B64UrlEncode(bytes), B64UrlEncode(mac));
      PayloadReadsBack(payload);
      var ms := Parse(DecodeUtf8(bytes).value).value.members;
      ClaimsOf(ms, tenantId, agentId, slug, granted, exp);
      ScopesReadBack(Lookup(ms, "scopes").value, granted);
    }
  }

  // ----- What any accepted token says -----

  /** The dict's last member of that name. */
  ghost predicate Says(ms: seq<Member>, key: string, claim: Json)
  {
    exists i :: 0 <= i < |ms| && ms[i] == Member(key, claim) && forall j :: i < j < |ms| ==> ms[j].key != key
  }

  ghost predicate Silent(ms: seq<Member>, key: string)
  {
    forall i :: 0 <= i < |ms| ==> ms[i].key != key
  }

  lemma {:induction false} LookupSays(ms: seq<Member>, key: string)
    ensures Lookup(ms, key).None? <==> Silent(ms, key)
    ensures forall claim :: Lookup(ms, key) == Some(claim) <==> Says(ms, key, claim)
  {
    if ms != [] {
      var n := |ms| - 1;
      LookupSays(ms[..n], key);
      forall claim ensures Lookup(ms, key) == Some(claim) <==> Says(ms, key, claim) {
        if ms[n].key == key {
          assert ms[n] == Member(key, ms[n].value);
        } else {
          SaysBelow(ms, key, claim);
        }
      }
      assert forall i :: 0 <= i < n ==> ms[..n][i] == ms[i];
    }
  }

  lemma SaysBelow(ms: seq<Member>, key: string, claim: Json)
    requires ms != [] && ms[|ms| - 1].key != key
    ensures Says(ms, key, claim) <==> Says(ms[..|ms| - 1], key, claim)
  {
    var n := |ms| - 1;
    if i :| 0 <= i < |ms| && ms[i] == Member(key, claim) && forall j :: i < j < |ms| ==> ms[j].key != key {
      assert ms[..n][i] == Member(key, claim);
    }
    if i :| 0 <= i < n && ms[..n][i] == Member(key, claim) && forall j :: i < j < n ==> ms[..n][j].key != key {
      assert ms[i] == Member(key, claim);
      assert forall j :: i < j < n ==> ms[j] == ms[..n][j];
    }
  }

  ghost predicate SaysUuid(calls: Calls, ms: seq<Member>, key: string, id: Uuid)
  {
    exists text :: Says(ms, key, Str(text)) && calls.parseUuid(text) == Some(id)
  }

  /** The scopes are a list of texts, or are not mentioned. */
  ghost predicate SaysScopes(ms: seq<Member>, scopes: set<string>)
  {
    || (Silent(ms, "scopes") && scopes == {})
    || exists xs: seq<Json> :: Says(ms, "scopes", Arr(xs)) && (forall x | x in xs :: x.Str?) && scopes == set x | x in xs :: x.s
  }

  /** Seconds since the epoch; a JSON boolean counts as 0 or 1. */
  ghost predicate SaysExpiry(ms: seq<Member>, seconds: int)
  {
    Says(ms, "exp", Num(seconds)) || (seconds == 0 && Says(ms, "exp", Bool(false))) || (seconds == 1 && Says(ms, "exp", Bool(true)))
  }

  /** The claims name this principal to a verifier of its tenant, whatever their expiry. */
  ghost predicate Names(calls: Calls, verifier: Uuid, ms: seq<Member>, p: Principal)
  {
    && SaysUuid(calls, ms, "tenant_id", p.tenantId) && p.tenantId == verifier && SaysUuid(calls, ms, "agent_id", p.agentId)
    && Says(ms, "agent_slug", Str(p.agentSlug)) && p.agentSlug != "" && SaysScopes(ms, p.scopes)
  }

  ghost predicate NotExpired(ms: seq<Member>, now: Time)
  {
    || Silent(ms, "exp") || Says(ms, "exp", Null)
    || exists seconds :: SaysExpiry(ms, seconds) && now <= seconds * 1_000_000
  }

  /** Two parts, the second the MAC of the first, and the first the text of a dict with these members. */
  ghost predicate Carries(calls: Calls, secret: ByteString, token: string, ms: seq<Member>)
  {
    exists a, b, payload, text ::
      && token == a + "." + b && '.' !in a && '.' !in b
      && B64UrlDecode(a) == Some(payload) && B64UrlDecode(b) == Some(calls.hmac(secret, payload))
      && DecodeUtf8(payload) == Some(text) && Parse(text) == Some(Obj(ms))
  }

  /** What the token carries, if it is authentic. */
  function Opened(calls: Calls, secret: ByteString, token: string): Option<seq<Member>>
  {
    var parts := Split(token);
    if |parts| != 2 then None
    else match (B64UrlDecode(parts[0]), B64UrlDecode(parts[1]))
      case (Some(payload), Some(mac)) =>
        if mac != calls.hmac(secret, payload) then None
        else (match DecodeUtf8(payload)
              case None => None
              case Some(text) => match Parse(text) case Some(Obj(ms)) => Some(ms) case _ => None)
      case _ => None
  }

  lemma OpenedIs(calls: Calls, secret: ByteString, token: string, ms: seq<Member>)
    ensures Opened(calls, secret, token) == Some(ms) <==> Carries(calls, secret, token, ms)
  {
    hide Split, B64UrlDecode, DecodeUtf8, Parse;
    var parts := Split(token);
    if |parts| == 2 {
      assert parts == [parts[0], parts[1]];
      TwoParts(token, parts[0], parts[1]);
    }
    if Carries(calls, secret, token, ms) {
      var a, b, payload, text :|
        && token == a + "." + b && '.' !in a && '.' !in b
        && B64UrlDecode(a) == Some(payload) && B64UrlDecode(b) == Some(calls.hmac(secret, payload))
        && DecodeUtf8(payload) == Some(text) && Parse(text) == Some(Obj(ms));
      TwoParts(token, a, b);
    }
  }

  lemma VerifyOpens(calls: Calls, verifier: Uuid, secret: ByteString, token: string, now: Time)
    ensures Verify(calls, verifier, secret, token, now)
         == match Opened(calls, secret, token)
            case None => Failure(Invalid)
            case Some(ms) => ReadClaims(calls, verifier, ms, now)
  {
    hide Split, B64UrlDecode, DecodeUtf8, Parse, ReadClaims;
  }

  lemma ScopesAre(ms: seq<Member>, scopes: set<string>)
    ensures ScopesClaim(Lookup(ms, "scopes")) == Some(scopes) <==> SaysScopes(ms, scopes)
  {
    hide Lookup;
    LookupSays(ms, "scopes");
    match Lookup(ms, "scopes")
    case Some(Arr(xs)) =>
      assert AllStrings(xs) <==> forall x | x in xs :: x.Str? by {
        assert forall i :: 0 <= i < |xs| ==> xs[i] in xs;
      }
      if AllStrings(xs) {
        assert (set i | 0 <= i < |xs| :: xs[i].s) == set x | x in xs :: x.s;
      }
    case _ =>
  }

  lemma ExpiryIs(ms: seq<Member>, now: Time)
    ensures ExpiryOf(Lookup(ms, "exp"), now).None? <==> NotExpired(ms, now)
    ensures ExpiryOf(Lookup(ms, "exp"), now) == Some(Expired) <==> exists seconds :: SaysExpiry(ms, seconds) && seconds * 1_000_000 < now
  {
    hide Lookup, Says;
    LookupSays(ms, "exp");
    match Lookup(ms, "exp")
    case Some(Num(n)) => assert SaysExpiry(ms, n);
    case Some(Bool(b)) => assert SaysExpiry(ms, if b then 1 else 0);
    case _ =>
  }

  lemma UuidIs(calls: Calls, ms: seq<Member>, key: string, id: Uuid)
    ensures UuidClaim(calls, Lookup(ms, key)) == Success(id) <==> SaysUuid(calls, ms, key, id)
  {
    hide Lookup;
    LookupSays(ms, key);
  }

  lemma ClaimsAre(calls: Calls, verifier: Uuid, ms: seq<Member>, now: Time, p: Principal)
    ensures ReadClaims(calls, verifier, ms, now) == Success(p) <==> Names(calls, verifier, ms, p) && NotExpired(ms, now)
  {
    hide Lookup, UuidClaim, ScopesClaim, ExpiryOf, SaysUuid, SaysScopes, NotExpired, Says;
    UuidIs(calls, ms, "tenant_id", p.tenantId);
    UuidIs(calls, ms, "agent_id", p.agentId);
    LookupSays(ms, "agent_slug");
    ScopesAre(ms, p.scopes);
    ExpiryIs(ms, now);
  }

  lemma ExpiredAre(calls: Calls, verifier: Uuid, ms: seq<Member>, now: Time)
    ensures ReadClaims(calls, verifier, ms, now) == Failure(Expired)
       <==> (exists p :: Names(calls, verifier, ms, p))
            && exists seconds :: SaysExpiry(ms, seconds) && seconds * 1_000_000 < now
  {
    hide Lookup, UuidClaim, ScopesClaim, ExpiryOf, SaysUuid, SaysScopes, Says, SaysExpiry;
    ExpiryIs(ms, now);
    LookupSays(ms, "agent_slug");
    forall p: Principal
      ensures UuidClaim(calls, Lookup(ms, "tenant_id")) == Success(p.tenantId) <==> SaysUuid(calls, ms, "tenant_id", p.tenantId)
      ensures UuidClaim(calls, Lookup(ms, "agent_id")) == Success(p.agentId) <==> SaysUuid(calls, ms, "agent_id", p.agentId)
      ensures ScopesClaim(Lookup(ms, "scopes")) == Some(p.scopes) <==> SaysScopes(ms, p.scopes)
    {
      UuidIs(calls, ms, "tenant_id", p.tenantId);
      UuidIs(calls, ms, "agent_id", p.agentId);
      ScopesAre(ms, p.scopes);
    }
    UuidErrors(calls, Lookup(ms, "tenant_id"));
    UuidErrors(calls, Lookup(ms, "agent_id"));
    if ReadClaims(calls, verifier, ms, now) == Failure(Expired) {
      var p := Principal(UuidClaim(calls, Lookup(ms, "tenant_id")).value, UuidClaim(calls, Lookup(ms, "agent_id")).value,
                         Lookup(ms, "agent_slug").value.s, ScopesClaim(Lookup(ms, "scopes")).value);
      assert Names(calls, verifier, ms, p);
    }
  }

  lemma UuidErrors(calls: Calls, claim: Option<Json>)
    ensures UuidClaim(calls, claim) != Failure(Expired)
  {
  }

  /**
    Soundness and completeness for any text whatever: a token is accepted as `p`
    exactly when it is two parts, the second the MAC of the first under the secret,
    and the dict in the first names `p`, of the verifier's own tenant, and has not
    expired. It is called expired exactly when only that is wrong.
   */
  lemma AcceptedMeansAuthentic(calls: Calls, verifier: Uuid, secret: ByteString, token: string, now: Time, p: Principal)
    ensures Verify(calls, verifier, secret, token, now) == Success(p)
       <==> exists ms :: Carries(calls, secret, token, ms) && Names(calls, verifier, ms, p) && NotExpired(ms, now)
    ensures Verify(calls, verifier, secret, token, now) == Failure(Expired)
       <==> exists ms, q, seconds :: Carries(calls, secret, token, ms) && Names(calls, verifier, ms, q)
                                     && SaysExpiry(ms, seconds) && seconds * 1_000_000 < now
  {
    hide Verify, Opened, ReadClaims, Carries, Names, NotExpired, SaysExpiry;
    VerifyOpens(calls, verifier, secret, token, now);
    forall ms ensures Opened(calls, secret, token) == Some(ms) <==> Carries(calls, secret, token, ms) {
      OpenedIs(calls, secret, token, ms);
    }
    if Opened(calls, secret, token).Some? {
      var ms := Opened(calls, secret, token).value;
      ClaimsAre(calls, verifier, ms, now, p);
      ExpiredAre(calls, verifier, ms, now);
    }
  }
}
