/**
  Multipart upload of a bundle and its reassembly
  (packages/export/streaming.py:194-249, 317-452).
 */
module Streaming {
  import opened Wrappers
  import opened Bytes
  import opened Primitives
  import Sorting

  const MB := 1024 * 1024
  const MIN_CHUNK := 5 * MB
  const MAX_CHUNK := 5 * 1024 * MB

  datatype Part = Part(partNumber: nat, body: ByteString, md5: string, size: nat)

  datatype Reference = Reference(bucket: string, key: string, sizeBytes: nat, sha256: Hex64, partCount: nat)

  datatype UploadError = ChunkTooSmall | ChunkTooLarge | BlankBucket | BlankKey | NoSuchUpload | UploaderFailed

  // ----- Splitting -----

  /** `max(1, ceil(n / c))` */
  function PartCount(n: nat, c: nat): nat
    requires c > 0
  {
    if n == 0 then 1 else (n + c - 1) / c
  }

  function Bound(n: nat, c: nat, i: nat): nat
  {
    if i * c <= n then i * c else n
  }

  /** Part `i` is numbered from 1 and holds the next `c` bytes, or what is left. */
  ghost predicate CutAt(parts: seq<Part>, data: ByteString, c: nat, md5: ByteString -> string, i: nat)
    requires i < |parts|
  {
    && parts[i].partNumber == i + 1
    && Bound(|data|, c, i) <= Bound(|data|, c, i + 1) <= |data|
    && parts[i].body == data[Bound(|data|, c, i)..Bound(|data|, c, i + 1)]
    && parts[i].size == |parts[i].body| && parts[i].md5 == md5(parts[i].body)
  }

  ghost predicate Cuts(parts: seq<Part>, data: ByteString, c: nat, md5: ByteString -> string)
  {
    forall i :: 0 <= i < |parts| ==> CutAt(parts, data, c, md5, i)
  }

  lemma BoundSteps(n: nat, c: nat, i: nat)
    ensures Bound(n, c, i) <= Bound(n, c, i + 1) <= n
    ensures i * c < n ==> Bound(n, c, i) == i * c && Bound(n, c, i + 1) == if i * c + c <= n then i * c + c else n
    ensures (i + 1) * c == i * c + c
  {
    assert (i + 1) * c == i * c + c;
  }

  lemma CountWhenDone(n: nat, c: nat, k: nat)
    requires c > 0 && n > 0 && k > 0 && (k - 1) * c < n <= k * c
    ensures k == PartCount(n, c)
  {
    var q := (n + c - 1) / c;
    assert n + c - 1 == q * c + (n + c - 1) % c;
    assert k * c == (k - 1) * c + c;
    if k < q {
      Below(k, q, c);
    } else if q < k {
      Below(q, k, c);
    }
  }

  lemma {:induction false} Below(a: nat, b: nat, c: nat)
    requires a < b
    ensures a * c + c <= b * c
  {
    assert b * c == (b - 1) * c + c;
    if a < b - 1 {
      Below(a, b - 1, c);
    }
  }

  lemma CutMore(parts: seq<Part>, data: ByteString, c: nat, md5: ByteString -> string, chunk: ByteString)
    requires Cuts(parts, data, c, md5) && |parts| * c < |data|
    requires chunk == data[|parts| * c..if |parts| * c + c <= |data| then |parts| * c + c else |data|]
    ensures Cuts(parts + [Part(|parts| + 1, chunk, md5(chunk), |chunk|)], data, c, md5)
  {
    hide Bound;
    BoundSteps(|data|, c, |parts|);
    var longer := parts + [Part(|parts| + 1, chunk, md5(chunk), |chunk|)];
    forall i | 0 <= i < |longer| ensures CutAt(longer, data, c, md5, i) {
      if i < |parts| {
        assert CutAt(parts, data, c, md5, i);
      }
    }
  }

  lemma CutsPrefix(parts: seq<Part>, data: ByteString, c: nat, md5: ByteString -> string, n: nat)
    requires Cuts(parts, data, c, md5) && n <= |parts|
    ensures Cuts(parts[..n], data, c, md5)
  {
    hide Bound;
    forall i | 0 <= i < n ensures CutAt(parts[..n], data, c, md5, i) {
      assert CutAt(parts, data, c, md5, i);
    }
  }

  method SplitIntoParts(data: ByteString, c: nat, md5: ByteString -> string) returns (parts: seq<Part>)
    requires c > 0
    ensures Cuts(parts, data, c, md5) && |parts| == PartCount(|data|, c)
  {
    hide Cuts, PartCount;
    if |data| == 0 {
      OnePartForNothing(data, c, md5);
      return [Part(1, [], md5([]), 0)];
    }
    parts := [];
    assert Cuts(parts, data, c, md5) by {
      NoCuts(data, c, md5);
    }
    var offset := 0;
    var partNumber := 1;
    while offset < |data|
      invariant partNumber == |parts| + 1 && offset == |parts| * c
      invariant Cuts(parts, data, c, md5)
      invariant |parts| > 0 ==> offset - c < |data|
      decreases |data| - offset
    {
      var chunk := data[offset..if offset + c <= |data| then offset + c else |data|];
      CutMore(parts, data, c, md5, chunk);
      BoundSteps(|data|, c, |parts|);
      parts := parts + [Part(partNumber, chunk, md5(chunk), |chunk|)];
      offset := offset + c;
      partNumber := partNumber + 1;
    }
    assert (|parts| - 1) * c == offset - c;
    CountWhenDone(|data|, c, |parts|);
  }

  lemma NoCuts(data: ByteString, c: nat, md5: ByteString -> string)
    ensures Cuts([], data, c, md5)
  {
  }

  lemma OnePartForNothing(data: ByteString, c: nat, md5: ByteString -> string)
    requires data == [] && c > 0
    ensures Cuts([Part(1, [], md5([]), 0)], data, c, md5) && PartCount(0, c) == 1
  {
    BoundSteps(0, c, 0);
    assert 0 * c == 0;
  }

  /** What the acquirer does with the parts. */
  function Joined(parts: seq<Part>): ByteString
  {
    if parts == [] then [] else Joined(parts[..|parts| - 1]) + parts[|parts| - 1].body
  }

  lemma {:induction false} JoinedPrefix(parts: seq<Part>, data: ByteString, c: nat, md5: ByteString -> string)
    requires Cuts(parts, data, c, md5)
    ensures Joined(parts) == data[..Bound(|data|, c, |parts|)]
  {
    if parts == [] {
      assert 0 * c == 0;
    } else {
      hide Bound;
      var n := |parts| - 1;
      CutsPrefix(parts, data, c, md5, n);
      JoinedPrefix(parts[..n], data, c, md5);
      assert CutAt(parts, data, c, md5, n);
      var from, to := Bound(|data|, c, n), Bound(|data|, c, n + 1);
      assert data[..to] == data[..from] + data[from..to];
    }
  }

  /** Lossless for every byte string and chunk size, with every part but the last full. */
  lemma SplitIsLossless(parts: seq<Part>, data: ByteString, c: nat, md5: ByteString -> string)
    requires c > 0 && Cuts(parts, data, c, md5) && |parts| == PartCount(|data|, c)
    ensures Joined(parts) == data
    ensures forall i :: 0 <= i < |parts| - 1 ==> parts[i].size == c
    ensures parts[|parts| - 1].size <= c && (data != [] ==> parts[|parts| - 1].size > 0)
  {
    hide Cuts;
    var n, k := |data|, |parts|;
    JoinedPrefix(parts, data, c, md5);
    CountCovers(n, c);
    assert data[..n] == data;
    forall i | 0 <= i < k ensures parts[i].size == Bound(n, c, i + 1) - Bound(n, c, i) {
      SizeOf(parts, data, c, md5, i);
    }
    forall i | 0 <= i < k - 1 ensures parts[i].size == c {
      Below(i, k - 1, c);
      BoundSteps(n, c, i);
    }
    BoundSteps(n, c, k - 1);
  }

  lemma SizeOf(parts: seq<Part>, data: ByteString, c: nat, md5: ByteString -> string, i: nat)
    requires Cuts(parts, data, c, md5) && i < |parts|
    ensures parts[i].size == Bound(|data|, c, i + 1) - Bound(|data|, c, i)
  {
    hide Bound;
    assert CutAt(parts, data, c, md5, i);
  }

  lemma CountCovers(n: nat, c: nat)
    requires c > 0
    ensures Bound(n, c, PartCount(n, c)) == n && PartCount(n, c) >= 1
    ensures n > 0 ==> (PartCount(n, c) - 1) * c < n
  {
    var q := (n + c - 1) / c;
    assert n + c - 1 == q * c + (n + c - 1) % c;
    assert n > 0 ==> q > 0 by {
      if q == 0 {
        assert q * c == 0;
      }
    }
    assert (q - 1) * c == q * c - c;
  }

  // ----- The uploader -----

  datatype UploadKey = UploadKey(bucket: string, key: string, id: nat)

  datatype ObjectKey = ObjectKey(bucket: string, key: string)

  datatype LogEntry = LogEntry(upload: UploadKey, partNumber: nat, size: nat)

  /** A dict of parts by number, in insertion order: a part of a known number replaces it in place. */
  function PutPart(slot: seq<Part>, part: Part): seq<Part>
  {
    if slot == [] then [part]
    else if slot[0].partNumber == part.partNumber then [part] + slot[1..]
    else [slot[0]] + PutPart(slot[1..], part)
  }

  predicate ByNumber(a: Part, b: Part)
  {
    a.partNumber <= b.partNumber
  }

  lemma {:induction false} PutNewPart(slot: seq<Part>, part: Part)
    requires forall i :: 0 <= i < |slot| ==> slot[i].partNumber != part.partNumber
    ensures PutPart(slot, part) == slot + [part]
  {
    if slot != [] {
      PutNewPart(slot[1..], part);
    }
  }

  /** A part of a known number takes the place of the one before. */
  lemma {:induction false} PutKnownPart(slot: seq<Part>, part: Part, k: nat)
    requires k < |slot| && slot[k].partNumber == part.partNumber
    requires forall i :: 0 <= i < k ==> slot[i].partNumber != part.partNumber
    ensures PutPart(slot, part) == slot[k := part]
  {
    if k > 0 {
      PutKnownPart(slot[1..], part, k - 1);
      assert slot[k := part] == [slot[0]] + slot[1..][k - 1 := part];
    }
  }

  /** One entry for each part, in order. */
  function LogOf(u: UploadKey, parts: seq<Part>): (log: seq<LogEntry>)
    ensures |log| == |parts|
  {
    seq(|parts|, i requires 0 <= i < |parts| => LogEntry(u, parts[i].partNumber, parts[i].size))
  }

  class MockUploader {
    var inProgress: map<UploadKey, seq<Part>>
    var completed: map<ObjectKey, ByteString>
    var aborted: set<UploadKey>
    var partsLog: seq<LogEntry>
    var nextId: nat

    /** Upload ids are given out in order. */
    ghost predicate Valid()
      reads this
    {
      forall u | u in inProgress :: u.id <= nextId
    }

    constructor ()
      ensures Valid() && inProgress == map[] && completed == map[] && aborted == {} && partsLog == []
    {
      inProgress, completed, aborted, partsLog, nextId := map[], map[], {}, [], 0;
    }

    method Initiate(bucket: string, key: string) returns (id: nat)
      requires Valid()
      modifies this`nextId, this`inProgress
      ensures Valid() && id == nextId == old(nextId) + 1
      ensures UploadKey(bucket, key, id) !in old(inProgress)
      ensures inProgress == old(inProgress)[UploadKey(bucket, key, id) := []]
    {
      nextId := nextId + 1;
      id := nextId;
      inProgress := inProgress[UploadKey(bucket, key, id) := []];
    }

    method UploadPart(bucket: string, key: string, id: nat, part: Part) returns (r: Result<string, UploadError>)
      modifies this`inProgress, this`partsLog
      ensures var u := UploadKey(bucket, key, id);
        && (u !in old(inProgress) ==> r == Failure(NoSuchUpload) && inProgress == old(inProgress) && partsLog == old(partsLog))
        && (u in old(inProgress) ==>
              r == Success(part.md5) && inProgress == old(inProgress)[u := PutPart(old(inProgress)[u], part)]
              && partsLog == old(partsLog) + [LogEntry(u, part.partNumber, part.size)])
    {
      var u := UploadKey(bucket, key, id);
      if u !in inProgress {
        return Failure(NoSuchUpload);
      }
      inProgress := inProgress[u := PutPart(inProgress[u], part)];
      partsLog := partsLog + [LogEntry(u, part.partNumber, part.size)];
      return Success(part.md5);
    }

    method Complete(bucket: string, key: string, id: nat) returns (error: Option<UploadError>)
      modifies this`inProgress, this`completed
      ensures var u := UploadKey(bucket, key, id);
        && (u !in old(inProgress) ==> error == Some(NoSuchUpload) && inProgress == old(inProgress) && completed == old(completed))
        && (u in old(inProgress) ==>
              && error == None && inProgress == old(inProgress) - {u}
              && completed == old(completed)[ObjectKey(bucket, key) := Joined(Sorting.Sort(ByNumber, old(inProgress)[u]))])
    {
      var u := UploadKey(bucket, key, id);
      if u !in inProgress {
        return Some(NoSuchUpload);
      }
      var ordered := Sorting.Sort(ByNumber, inProgress[u]);
      inProgress := inProgress - {u};
      var assembled: ByteString := [];
      for i := 0 to |ordered|
        invariant assembled == Joined(ordered[..i])
      {
        assembled := assembled + ordered[i].body;
        assert ordered[..i + 1][..i] == ordered[..i];
      }
      assert ordered[..|ordered|] == ordered;
      completed := completed[ObjectKey(bucket, key) := assembled];
      return None;
    }

    method Abort(bucket: string, key: string, id: nat)
      modifies this`inProgress, this`aborted
      ensures inProgress == old(inProgress) - {UploadKey(bucket, key, id)}
      ensures aborted == old(aborted) + {UploadKey(bucket, key, id)}
    {
      inProgress := inProgress - {UploadKey(bucket, key, id)};
      aborted := aborted + {UploadKey(bucket, key, id)};
    }
  }

  lemma PartsAscend(parts: seq<Part>)
    requires forall i :: 0 <= i < |parts| ==> parts[i].partNumber == i + 1
    ensures Sorting.Sort(ByNumber, parts) == parts
  {
    Sorting.SortIdentity(ByNumber, parts);
  }

  /** The body of the try block: every part in order, then the completing call. */
  method UploadAll(uploader: MockUploader, bucket: string, key: string, id: nat, parts: seq<Part>, failing: Option<nat>)
    returns (ok: bool)
    requires uploader.Valid() && UploadKey(bucket, key, id) in uploader.inProgress
    requires uploader.inProgress[UploadKey(bucket, key, id)] == []
    requires forall i :: 0 <= i < |parts| ==> parts[i].partNumber == i + 1
    modifies uploader`inProgress, uploader`completed, uploader`partsLog
    ensures uploader.Valid()
    ensures var u := UploadKey(bucket, key, id); uploader.inProgress - {u} == old(uploader.inProgress) - {u}
    ensures ok <==> failing.None? || failing.value > |parts|
    ensures ok ==> UploadKey(bucket, key, id) !in uploader.inProgress
                   && uploader.completed == old(uploader.completed)[ObjectKey(bucket, key) := Joined(parts)]
                   && uploader.partsLog == old(uploader.partsLog) + LogOf(UploadKey(bucket, key, id), parts)
    ensures !ok ==> uploader.completed == old(uploader.completed)
  {
    hide Sorting.Sort, Joined, PutPart;
    ghost var u := UploadKey(bucket, key, id);
    for i := 0 to |parts|
      invariant uploader.Valid() && u in uploader.inProgress && uploader.inProgress[u] == parts[..i]
      invariant uploader.inProgress - {u} == old(uploader.inProgress) - {u}
      invariant uploader.completed == old(uploader.completed)
      invariant uploader.partsLog == old(uploader.partsLog) + LogOf(u, parts[..i])
      invariant failing.Some? ==> i <= failing.value
    {
      if failing == Some(i) {
        return false;
      }
      PutNewPart(parts[..i], parts[i]);
      var etag := uploader.UploadPart(bucket, key, id, parts[i]);
      assert parts[..i] + [parts[i]] == parts[..i + 1];
    }
    assert parts[..|parts|] == parts;
    if failing == Some(|parts|) {
      return false;
    }
    PartsAscend(parts);
    var error := uploader.Complete(bucket, key, id);
    return true;
  }

  /**
    `stream_ma_diligence_export_to_s3` of a serialised bundle. `failing` numbers
    the upload_part or complete call that raises before it does anything.
    On success the object is the plaintext; after such a failure completed
    objects are as before and the upload is aborted and not in progress; bad
    settings touch nothing.
   */
  method StreamExport(
    lib: Library, md5: ByteString -> string, plaintext: ByteString, bucket: string, key: string,
    uploader: MockUploader, chunkMb: int, failing: Option<nat>
  ) returns (r: Result<Reference, UploadError>)
    requires uploader.Valid()
    modifies uploader
    ensures uploader.Valid()
    ensures r == Failure(ChunkTooSmall) <==> chunkMb < 5
    ensures r == Failure(ChunkTooLarge) <==> 5120 < chunkMb
    ensures r == Failure(BlankBucket) <==> 5 <= chunkMb <= 5120 && IsBlank(bucket)
    ensures r == Failure(BlankKey) <==> 5 <= chunkMb <= 5120 && !IsBlank(bucket) && IsBlank(key)
    ensures chunkMb < 5 || 5120 < chunkMb || IsBlank(bucket) || IsBlank(key) ==> unchanged(uploader)
    ensures 5 <= chunkMb <= 5120 && !IsBlank(bucket) && !IsBlank(key) ==>
              var u := UploadKey(bucket, key, old(uploader.nextId) + 1);
              var n := PartCount(|plaintext|, chunkMb * MB);
              && uploader.inProgress == old(uploader.inProgress)
              && u !in uploader.inProgress
              && (r.Failure? <==> failing.Some? && failing.value <= n)
              && (r.Success? ==>
                    && r.value == Reference(bucket, key, |plaintext|, lib.sha256(plaintext), n)
                    && uploader.completed == old(uploader.completed)[ObjectKey(bucket, key) := plaintext]
                    && uploader.aborted == old(uploader.aborted)
                    && exists parts :: Cuts(parts, plaintext, chunkMb * MB, md5) && |parts| == n
                                       && uploader.partsLog == old(uploader.partsLog) + LogOf(u, parts))
              && (r.Failure? ==>
                    && r.error == UploaderFailed && uploader.completed == old(uploader.completed)
                    && uploader.aborted == old(uploader.aborted) + {u})
  {
    hide Cuts, Sorting.Sort, IsBlank, Joined, PutPart;
    if chunkMb * MB < MIN_CHUNK {
      return Failure(ChunkTooSmall);
    }
    if chunkMb * MB > MAX_CHUNK {
      return Failure(ChunkTooLarge);
    }
    if IsBlank(bucket) {
      return Failure(BlankBucket);
    }
    if IsBlank(key) {
      return Failure(BlankKey);
    }
    var parts := SplitIntoParts(plaintext, chunkMb * MB, md5);
    NumbersOf(parts, plaintext, chunkMb * MB, md5);
    SplitIsLossless(parts, plaintext, chunkMb * MB, md5);
    var id := uploader.Initiate(bucket, key);
    ghost var u := UploadKey(bucket, key, id);
    assert old(uploader.inProgress)[u := []] - {u} == old(uploader.inProgress);
    var ok := UploadAll(uploader, bucket, key, id, parts, failing);
    if !ok {
      uploader.Abort(bucket, key, id);
      return Failure(UploaderFailed);
    }
    assert uploader.inProgress == uploader.inProgress - {u};
    return Success(Reference(bucket, key, |plaintext|, lib.sha256(plaintext), |parts|));
  }

  lemma NumbersOf(parts: seq<Part>, data: ByteString, c: nat, md5: ByteString -> string)
    requires Cuts(parts, data, c, md5)
    ensures forall i :: 0 <= i < |parts| ==> parts[i].partNumber == i + 1
  {
    hide Bound;
    forall i | 0 <= i < |parts| ensures parts[i].partNumber == i + 1 {
      assert CutAt(parts, data, c, md5, i);
    }
  }
}
