/** The generic hash chain, over dicts of any JSON values (packages/crypto/merkle.py). */
module MerkleChain {
  import opened Wrappers
  import opened Bytes
  import opened CanonicalJson
  import opened Primitives

  /** The four members `verify_chain` requires of a dict. */
  datatype Entry = Entry(sequence: Value, payloadHash: Value, prevHash: Value, entryHash: Value)

  /** What `verify_chain` is handed: anything that lacks a required key is malformed. */
  datatype Candidate = Malformed | Complete(entry: Entry)

  /** What `next_entry` reads of its predecessor: `int(sequence)` and the entry hash. */
  datatype Predecessor = Predecessor(sequence: int, entryHash: Value)

  datatype ChainError = BadPayloadHash | NoneInside

  // ----- Hashing -----

  /** `None` is bound as the empty-string sentinel. */
  function PrevValue(prev: Value): Value
  {
    if prev.Null? then Str("") else prev
  }

  function BindKeys(): (keys: seq<string>)
    ensures |keys| == 3 && Distinct(keys)
  {
    ["sequence", "payload_hash", "prev_hash"]
  }

  /** No null hides in what is hashed. */
  predicate Bindable(e: Entry)
  {
    !HasNull(e.sequence) && !HasNull(e.payloadHash) && !HasNull(PrevValue(e.prevHash))
  }

  function BindValues(e: Entry): (vs: seq<Json>)
    requires Bindable(e)
    ensures |vs| == 3 && AllHashable(vs)
  {
    [e.sequence, e.payloadHash, PrevValue(e.prevHash)]
  }

  function Bind(e: Entry): Hashable
    requires Bindable(e)
  {
    Struct(BindKeys(), BindValues(e))
  }

  /** The names an entry hash binds its fields under. */
  lemma BoundNames(e: Entry)
    requires Bindable(e)
    ensures Said(Bind(e), "sequence") == Some(Meaning(e.sequence))
    ensures Said(Bind(e), "payload_hash") == Some(Meaning(e.payloadHash))
    ensures Said(Bind(e), "prev_hash") == Some(if e.prevHash.Null? then DStr("") else Meaning(e.prevHash))
  {
    hide Said, Struct, HasNull;
    var keys, vs := BindKeys(), BindValues(e);
    StructSays(keys, vs);
    assert Said(Bind(e), keys[0]) == Some(Meaning(vs[0])) && Said(Bind(e), keys[1]) == Some(Meaning(vs[1]));
    assert Said(Bind(e), keys[2]) == Some(Meaning(vs[2]));
  }

  /** `entry_hash`; a null inside is the encoder's ValueError. */
  function EntryHash(lib: Library, e: Entry): Result<Hex64, EncodingError>
  {
    if Bindable(e) then Success(Digest(lib, Bind(e))) else Failure(NoneNotPermitted)
  }

  /** It is the digest of the three-member dict, error and all. */
  lemma EntryHashIsDigest(lib: Library, e: Entry)
    ensures EntryHash(lib, e) == Sha256Hex(lib, Obj(Members(BindKeys(), [e.sequence, e.payloadHash, PrevValue(e.prevHash)])))
  {
    var ms := Members(BindKeys(), [e.sequence, e.payloadHash, PrevValue(e.prevHash)]);
    assert ms[0].value == e.sequence && ms[1].value == e.payloadHash && ms[2].value == PrevValue(e.prevHash);
    assert forall m | m in ms :: m == ms[0] || m == ms[1] || m == ms[2];
    assert ms[0] in ms && ms[1] in ms && ms[2] in ms;
  }

  // ----- Building and verifying -----

  function NextEntry(lib: Library, prev: Option<Predecessor>, payloadHash: Value): Result<Entry, ChainError>
  {
    if !payloadHash.Str? || payloadHash.s == "" then Failure(BadPayloadHash)
    else
      var draft := match prev
        case None => Entry(Num(0), payloadHash, Null, Null)
        case Some(p) => Entry(Num(p.sequence + 1), payloadHash, p.entryHash, Null);
      match EntryHash(lib, draft)
      case Failure(_) => Failure(NoneInside)
      case Success(hash) => Success(draft.(entryHash := Str(hash)))
  }

  /** Python's `v == i`: a boolean equals 0 or 1. */
  predicate EqualsInt(v: Value, i: int)
  {
    match v
    case Num(n) => n == i
    case Bool(b) => i == if b then 1 else 0
    case _ => false
  }

  /** Position 0 may be written `False`, and position 1 `True`; no other text or value passes for a number. */
  lemma EqualToPosition(v: Value, i: nat)
    ensures EqualsInt(v, i) <==> v == Num(i) || (i == 0 && v == Bool(false)) || (i == 1 && v == Bool(true))
  {
  }

  /** Entry `e` may stand at position `i` after the entry hash `prev`, or null. */
  ghost predicate Fits(lib: Library, e: Entry, i: nat, prev: Value)
  {
    EqualsInt(e.sequence, i) && e.prevHash == prev
    && EntryHash(lib, e).Success? && e.entryHash == Str(EntryHash(lib, e).value)
  }

  function HeadHash(es: seq<Entry>): Value
  {
    if es == [] then Null else es[|es| - 1].entryHash
  }

  /** Sequence, link and hash agree at every position. */
  ghost predicate Chained(lib: Library, es: seq<Entry>)
  {
    forall i :: 0 <= i < |es| ==> Fits(lib, es[i], i, HeadHash(es[..i]))
  }

  lemma ChainedPrefix(lib: Library, es: seq<Entry>, n: nat)
    requires Chained(lib, es) && n <= |es|
    ensures Chained(lib, es[..n])
  {
    forall i | 0 <= i < n ensures Fits(lib, es[..n][i], i, HeadHash(es[..n][..i])) {
      assert es[..n][..i] == es[..i];
    }
  }

  lemma ChainedExtend(lib: Library, es: seq<Entry>, e: Entry)
    requires Chained(lib, es)
    ensures Chained(lib, es + [e]) <==> Fits(lib, e, |es|, HeadHash(es))
  {
    forall i | 0 <= i < |es| ensures Fits(lib, (es + [e])[i], i, HeadHash((es + [e])[..i])) {
      assert (es + [e])[..i] == es[..i];
    }
    assert (es + [e])[..|es|] == es;
    assert (es + [e])[|es|] == e;
  }

  ghost predicate AllComplete(cs: seq<Candidate>)
  {
    forall i :: 0 <= i < |cs| ==> cs[i].Complete?
  }

  ghost function Entries(cs: seq<Candidate>): (es: seq<Entry>)
    requires AllComplete(cs)
    ensures |es| == |cs|
  {
    seq(|cs|, i requires 0 <= i < |cs| => cs[i].entry)
  }

  /** The first `n` candidates are complete and chained. */
  ghost predicate Cleared(lib: Library, cs: seq<Candidate>, n: nat)
  {
    n <= |cs| && AllComplete(cs[..n]) && Chained(lib, Entries(cs[..n]))
  }

  lemma ClearedDown(lib: Library, cs: seq<Candidate>, n: nat, m: nat)
    requires Cleared(lib, cs, n) && m <= n
    ensures Cleared(lib, cs, m)
  {
    hide Fits;
    assert cs[..n][..m] == cs[..m];
    ChainedPrefix(lib, Entries(cs[..n]), m);
    assert Entries(cs[..n])[..m] == Entries(cs[..m]);
  }

  /** The link candidate `i` must carry. */
  ghost function LinkAt(cs: seq<Candidate>, i: nat): Value
    requires i <= |cs| && AllComplete(cs[..i])
  {
    HeadHash(Entries(cs[..i]))
  }

  lemma ClearedStep(lib: Library, cs: seq<Candidate>, i: nat)
    requires i < |cs| && Cleared(lib, cs, i)
    ensures Cleared(lib, cs, i + 1) <==> cs[i].Complete? && Fits(lib, cs[i].entry, i, LinkAt(cs, i))
    ensures Cleared(lib, cs, i + 1) ==> LinkAt(cs, i + 1) == cs[i].entry.entryHash
  {
    hide Fits, Chained;
    assert cs[..i + 1] == cs[..i] + [cs[i]];
    if cs[i].Complete? {
      assert Entries(cs[..i + 1]) == Entries(cs[..i]) + [cs[i].entry];
      ChainedExtend(lib, Entries(cs[..i]), cs[i].entry);
    } else {
      assert cs[..i + 1][i] == cs[i];
    }
  }

  /** The walk reaches entry `i` with sequence and link in order, and cannot hash it for a null inside. */
  ghost predicate RaisesAt(lib: Library, cs: seq<Candidate>, i: nat)
  {
    && i < |cs| && Cleared(lib, cs, i) && cs[i].Complete?
    && EqualsInt(cs[i].entry.sequence, i) && cs[i].entry.prevHash == LinkAt(cs, i)
    && EntryHash(lib, cs[i].entry).Failure?
  }

  /** Where the cleared candidates end is the only place the walk can raise. */
  lemma RaisesOnlyAtEnd(lib: Library, cs: seq<Candidate>, i: nat)
    requires Cleared(lib, cs, i) && !Cleared(lib, cs, i + 1)
    ensures forall j :: RaisesAt(lib, cs, j) ==> j == i
  {
    hide EntryHash, Cleared, EqualsInt;
    forall j: nat | j != i ensures !RaisesAt(lib, cs, j) {
      if j < i {
        ClearedDown(lib, cs, i, j);
        ClearedDown(lib, cs, i, j + 1);
        assert j < |cs| by {
          CoversPrefix(lib, cs, i);
        }
        ClearedStep(lib, cs, j);
      } else if Cleared(lib, cs, j) {
        ClearedDown(lib, cs, j, i + 1);
      }
    }
  }

  lemma CoversPrefix(lib: Library, cs: seq<Candidate>, i: nat)
    requires Cleared(lib, cs, i)
    ensures i <= |cs| && AllComplete(cs[..i])
  {
  }

  /** True exactly on complete, chained entries; an exception only from a null met on the way. */
  method VerifyChain(lib: Library, cs: seq<Candidate>) returns (r: Result<bool, EncodingError>)
    ensures r == Success(true) <==> AllComplete(cs) && Chained(lib, Entries(cs))
    ensures r.Failure? <==> exists i :: RaisesAt(lib, cs, i)
  {
    hide EntryHash, Chained, EqualsInt, LinkAt;
    var expectedPrev: Value := Null;
    StartsCleared(lib, cs);
    for i := 0 to |cs|
      invariant Cleared(lib, cs, i) && expectedPrev == LinkAt(cs, i)
    {
      ClearedStep(lib, cs, i);
      if !Cleared(lib, cs, i + 1) {
        RaisesOnlyAtEnd(lib, cs, i);
        NotAll(lib, cs, i + 1);
      }
      if cs[i].Malformed? {
        return Success(false);
      }
      var e := cs[i].entry;
      if !EqualsInt(e.sequence, i) {
        return Success(false);
      }
      if e.prevHash != expectedPrev {
        return Success(false);
      }
      var hash := EntryHash(lib, e);
      if hash.Failure? {
        assert RaisesAt(lib, cs, i);
        return Failure(hash.error);
      }
      if Str(hash.value) != e.entryHash {
        return Success(false);
      }
      expectedPrev := e.entryHash;
    }
    assert cs[..|cs|] == cs;
    RaisesOnlyAtEnd(lib, cs, |cs|);
    return Success(true);
  }

  lemma StartsCleared(lib: Library, cs: seq<Candidate>)
    ensures Cleared(lib, cs, 0) && LinkAt(cs, 0) == Null
  {
  }

  lemma NotAll(lib: Library, cs: seq<Candidate>, i: nat)
    requires i <= |cs| && !Cleared(lib, cs, i)
    ensures !(AllComplete(cs) && Chained(lib, Entries(cs)))
  {
    hide Chained;
    assert cs[..|cs|] == cs;
    if Cleared(lib, cs, |cs|) {
      ClearedDown(lib, cs, |cs|, i);
    }
  }

  lemma ChainedNil(lib: Library)
    ensures Chained(lib, [])
  {
  }

  // ----- What `next_entry` builds among what verifies -----

  predicate NonEmpty(payloads: seq<string>)
  {
    forall i :: 0 <= i < |payloads| ==> payloads[i] != ""
  }

  /** What the next call reads of the last entry of a verified chain. */
  function LastOf(es: seq<Entry>): Option<Predecessor>
  {
    if es == [] then None else Some(Predecessor(|es| - 1, es[|es| - 1].entryHash))
  }

  /** The chain repeated `next_entry` calls make of these payload hashes. */
  function Built(lib: Library, payloads: seq<string>): (es: seq<Entry>)
    requires NonEmpty(payloads)
    ensures |es| == |payloads|
    ensures forall i :: 0 <= i < |es| ==> es[i].entryHash.Str?
  {
    if payloads == [] then []
    else
      var n := |payloads| - 1;
      var init := Built(lib, payloads[..n]);
      assert !HasNull(HeadHash(init)) || init == [];
      init + [NextEntry(lib, LastOf(init), Str(payloads[n])).value]
  }

  /** An entry as `next_entry` writes them: a number, and a payload hash that is text and not empty. */
  predicate Plain(e: Entry)
  {
    e.sequence.Num? && e.payloadHash.Str? && e.payloadHash.s != ""
  }

  ghost predicate AllPlain(es: seq<Entry>)
  {
    forall i :: 0 <= i < |es| ==> Plain(es[i])
  }

  ghost function Payloads(es: seq<Entry>): (ps: seq<string>)
    requires AllPlain(es)
    ensures |ps| == |es| && NonEmpty(ps)
  {
    seq(|es|, i requires 0 <= i < |es| => es[i].payloadHash.s)
  }

  /** What `next_entry` returns is the one plain entry with that payload hash that fits there. */
  lemma NextEntryFits(lib: Library, es: seq<Entry>, payloadHash: string, e: Entry)
    requires Chained(lib, es) && payloadHash != ""
    ensures Fits(lib, e, |es|, HeadHash(es)) && e.sequence.Num? && e.payloadHash == Str(payloadHash)
       <==> NextEntry(lib, LastOf(es), Str(payloadHash)) == Success(e)
  {
    var draft := Entry(Num(|es|), Str(payloadHash), HeadHash(es), Null);
    HeadIsText(lib, es);
    assert Bind(draft) == Bind(draft.(entryHash := e.entryHash));
  }

  lemma HeadIsText(lib: Library, es: seq<Entry>)
    requires Chained(lib, es)
    ensures if es == [] then HeadHash(es) == Null else HeadHash(es).Str?
  {
    if es != [] {
      assert Fits(lib, es[|es| - 1], |es| - 1, HeadHash(es[..|es| - 1]));
    }
  }

  /** Every list built by repeated `next_entry` calls verifies, is plain, and carries the given payload hashes. */
  lemma {:induction false} BuiltIsChained(lib: Library, payloads: seq<string>)
    requires NonEmpty(payloads)
    ensures Chained(lib, Built(lib, payloads)) && AllPlain(Built(lib, payloads))
    ensures Payloads(Built(lib, payloads)) == payloads
  {
    hide EntryHash, Chained, NextEntry;
    if payloads == [] {
      ChainedNil(lib);
    } else {
      var n := |payloads| - 1;
      BuiltIsChained(lib, payloads[..n]);
      var init := Built(lib, payloads[..n]);
      var e := Built(lib, payloads)[n];
      assert Built(lib, payloads) == init + [e];
      NextEntrySucceeds(lib, init, payloads[n]);
      NextEntryFits(lib, init, payloads[n], e);
      ChainedExtend(lib, init, e);
      assert payloads == payloads[..n] + [payloads[n]];
      assert Payloads(init + [e]) == Payloads(init) + [payloads[n]];
    }
  }

  lemma NextEntrySucceeds(lib: Library, es: seq<Entry>, payloadHash: string)
    requires Chained(lib, es) && payloadHash != ""
    ensures NextEntry(lib, LastOf(es), Str(payloadHash)).Success?
  {
    HeadIsText(lib, es);
  }

  lemma {:induction false} PlainChainIsBuilt(lib: Library, es: seq<Entry>)
    requires Chained(lib, es) && AllPlain(es)
    ensures es == Built(lib, Payloads(es))
  {
    hide EntryHash, Chained, NextEntry;
    if es != [] {
      var n := |es| - 1;
      var init, e := es[..n], es[n];
      ChainedPrefix(lib, es, n);
      assert Payloads(es)[..n] == Payloads(init);
      PlainChainIsBuilt(lib, init);
      assert es == init + [e];
      ChainedExtend(lib, init, e);
      NextEntryFits(lib, init, e.payloadHash.s, e);
    }
  }

  /**
    Exactly which lists repeated `next_entry` calls build: those `verify_chain`
    accepts whose entries are plain. The verifier looks at neither condition.
   */
  lemma {:induction false} BuiltIffChainedAndPlain(lib: Library, es: seq<Entry>)
    ensures (exists ps :: NonEmpty(ps) && es == Built(lib, ps)) <==> Chained(lib, es) && AllPlain(es)
  {
    hide Chained, AllPlain;
    if Chained(lib, es) && AllPlain(es) {
      PlainChainIsBuilt(lib, es);
      assert NonEmpty(Payloads(es)) && es == Built(lib, Payloads(es));
    }
    if ps :| NonEmpty(ps) && es == Built(lib, ps) {
      BuiltIsChained(lib, ps);
    }
  }

  /** A first entry under an empty payload hash, with the right hash of its own. */
  function EmptyPayloadEntry(lib: Library): (e: Entry)
    ensures EntryHash(lib, e).Success? && Fits(lib, e, 0, Null)
  {
    var draft := Entry(Num(0), Str(""), Null, Null);
    assert Bind(draft) == Bind(draft.(entryHash := Str(EntryHash(lib, draft).value)));
    draft.(entryHash := Str(EntryHash(lib, draft).value))
  }

  /** A list of just that entry verifies, yet `next_entry` refuses its payload hash and no calls build it. */
  lemma VerifiedButNeverBuilt(lib: Library)
    ensures var e := EmptyPayloadEntry(lib);
      && Chained(lib, [e]) && NextEntry(lib, None, e.payloadHash) == Failure(BadPayloadHash)
      && !exists ps :: NonEmpty(ps) && [e] == Built(lib, ps)
  {
    hide Built, EntryHash, Fits;
    var e := EmptyPayloadEntry(lib);
    assert [e][..0] == [];
    assert Fits(lib, [e][0], 0, HeadHash([e][..0]));
    assert !Plain([e][0]);
    BuiltIffChainedAndPlain(lib, [e]);
  }

  // ----- The head hash determines the chain -----

  /** The text an entry hash is the digest of, when there is one. */
  ghost function BindTexts(es: seq<Entry>): set<ByteString>
  {
    set e | e in es && Bindable(e) :: Text(Bind(e))
  }

  /** The same entry, whatever order the dicts inside its payload hash were filled in. */
  ghost predicate SameEntry(e: Entry, f: Entry)
  {
    && Meaning(e.sequence) == Meaning(f.sequence) && Meaning(e.payloadHash) == Meaning(f.payloadHash)
    && e.prevHash == f.prevHash && e.entryHash == f.entryHash
  }

  ghost predicate SameEntries(a: seq<Entry>, b: seq<Entry>)
  {
    |a| == |b| && forall i :: 0 <= i < |a| ==> SameEntry(a[i], b[i])
  }

  lemma BindDetermines(lib: Library, e: Entry, f: Entry)
    requires EntryHash(lib, e).Success? && EntryHash(lib, e) == EntryHash(lib, f)
    ensures Bindable(e) && Bindable(f)
    ensures || Clash(lib, {Text(Bind(e))}, {Text(Bind(f))})
            || (Meaning(e.sequence) == Meaning(f.sequence) && Meaning(e.payloadHash) == Meaning(f.payloadHash)
                && Meaning(PrevValue(e.prevHash)) == Meaning(PrevValue(f.prevHash)))
  {
    hide Clash, Text, BindKeys, Meaning, HasNull;
    var vs, ws := BindValues(e), BindValues(f);
    StructDetermines(lib, BindKeys(), vs, ws);
    if SameMeanings(vs, ws) {
      assert Meaning(vs[0]) == Meaning(ws[0]);
      assert Meaning(vs[1]) == Meaning(ws[1]);
      assert Meaning(vs[2]) == Meaning(ws[2]);
    }
  }

  /** What equal sequences mean for the positions they stand at. */
  lemma SequenceIsPosition(e: Entry, f: Entry, m: nat, n: nat)
    requires EqualsInt(e.sequence, m) && EqualsInt(f.sequence, n) && Meaning(e.sequence) == Meaning(f.sequence)
    ensures m == n
  {
  }

  lemma LinksAgree(lib: Library, es: seq<Entry>, fs: seq<Entry>)
    requires Chained(lib, es) && Chained(lib, fs) && |es| == |fs|
    requires Meaning(PrevValue(HeadHash(es))) == Meaning(PrevValue(HeadHash(fs)))
    ensures HeadHash(es) == HeadHash(fs)
  {
    HeadIsText(lib, es);
    HeadIsText(lib, fs);
  }

  /** The last entries of two chains with the same head hash agree, and so do the heads below them. */
  lemma {:induction false} HeadStep(lib: Library, a: seq<Entry>, b: seq<Entry>)
    requires Chained(lib, a) && Chained(lib, b) && a != [] && b != []
    requires HeadHash(a) == HeadHash(b)
    ensures || Clash(lib, BindTexts(a), BindTexts(b))
            || (|a| == |b| && SameEntry(a[|a| - 1], b[|b| - 1]) && HeadHash(a[..|a| - 1]) == HeadHash(b[..|b| - 1]))
  {
    hide EntryHash, Clash, Bind, Text, PrevValue, Meaning, EqualsInt, HasNull;
    var m, n := |a| - 1, |b| - 1;
    var e, f := a[m], b[n];
    assert Fits(lib, e, m, HeadHash(a[..m])) && Fits(lib, f, n, HeadHash(b[..n]));
    BindDetermines(lib, e, f);
    if Clash(lib, {Text(Bind(e))}, {Text(Bind(f))}) {
      ClashGrows(lib, {Text(Bind(e))}, {Text(Bind(f))}, BindTexts(a), BindTexts(b));
    } else {
      SequenceIsPosition(e, f, m, n);
      ChainedPrefix(lib, a, m);
      ChainedPrefix(lib, b, n);
      LinksAgree(lib, a[..m], b[..n]);
    }
  }

  /** Two chains that verify and share their head hash are the same entry by entry, or two bound texts collide. */
  lemma {:induction false} HeadDeterminesChain(lib: Library, a: seq<Entry>, b: seq<Entry>)
    requires Chained(lib, a) && Chained(lib, b) && a != [] && b != []
    requires HeadHash(a) == HeadHash(b)
    ensures SameEntries(a, b) || Clash(lib, BindTexts(a), BindTexts(b))
    decreases |a|
  {
    hide EntryHash, Clash, Bind, Text, Chained, SameEntry, HasNull;
    HeadStep(lib, a, b);
    if !Clash(lib, BindTexts(a), BindTexts(b)) {
      var n := |a| - 1;
      var a', b' := a[..n], b[..n];
      ChainedPrefix(lib, a, n);
      ChainedPrefix(lib, b, n);
      if a' != [] {
        HeadDeterminesChain(lib, a', b');
        if SameEntries(a', b') {
          forall i | 0 <= i < n ensures SameEntry(a[i], b[i]) {
            assert a'[i] == a[i] && b'[i] == b[i];
          }
        } else {
          ClashGrows(lib, BindTexts(a'), BindTexts(b'), BindTexts(a), BindTexts(b));
        }
      }
    }
  }
}
