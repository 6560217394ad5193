/** The digest helpers of src/hash.rs: whole-blob verification, hashing of a staged upload part and
    of a sequence of blobs.  A running digest is the byte string fed to it so far; `sha256` and
    `md5` stand for the finished digest functions. */
module BlobHash {
  import opened Bytes
  import opened BlobStore
  import opened BlobWalk

  /** Rows of one (upload, part): the staged blob and its recorded size. */
  datatype UploadChunk = UploadChunk(blob: BlobId, size: Int64)

  datatype PartDigest = PartDigest(sha256: bytes, md5: bytes, totalSize: int)

  /** The complete content of a blob as the walk from an empty path sees it. */
  function Whole(store: Store, id: BlobId): bytes {
    Visible(store, 0, id)
  }

  function WholeSequence(store: Store, ids: seq<BlobId>): bytes {
    if ids == [] then [] else WholeSequence(store, ids[..|ids| - 1]) + Whole(store, ids[|ids| - 1])
  }

  /** Everything a blob must satisfy for its verification to succeed. */
  ghost predicate Verifiable(store: Store, rank: map<BlobId, nat>, sha256: bytes -> bytes, id: BlobId) {
    && WellFormed(store, rank)
    && id in store.blobs && id in rank && rank[id] < MAX_BLOB_DEPTH
    && sha256(Whole(store, id)) == id.digest
  }

  lemma VerifiableWalk(store: Store, rank: map<BlobId, nat>, sha256: bytes -> bytes, id: BlobId)
    requires Verifiable(store, rank, sha256, id)
    ensures LoadBlob(store, id).Ok?
    ensures Walkable(store, rank, [], id, 0, store.blobs[id].size)
  {
    assert store.blobs[id].size >= 0 by { assert SoundBlob(store, rank, id); }
    WalkableBlob(store, rank, [], id, 0, store.blobs[id].size);
  }

  /** Walks a whole blob of the given size. */
  method WalkWhole(store: Store, id: BlobId, size: int, ghost rank: map<BlobId, nat>)
    returns (r: Outcome<()>, streamed: bytes)
    requires LoadBlob(store, id).Ok? && size == LoadBlob(store, id).value.size
    ensures r.Ok? ==> streamed == Whole(store, id) && |streamed| == size
    ensures Walkable(store, rank, [], id, 0, size) ==> r.Ok?
  {
    var walker := new BlobWalker(store);
    r := walker.StreamBlobRange(id, 0, size, rank);
    streamed := Flatten(walker.emitted);
    if r.Ok? {
      assert Flatten<byte>([]) + Whole(store, id)[0..size] == Whole(store, id);
    }
  }

  /** Feeds a blob to the caller's digest.  Success means that exactly the blob's content was fed,
      that it has the recorded size, and that its digest is the blob's own id. */
  method StreamVerifiedBlob(store: Store, sha256: bytes -> bytes, id: BlobId, fed: bytes, ghost rank: map<BlobId, nat>)
    returns (r: Outcome<int>, fed': bytes)
    ensures r.Ok? ==>
              && fed' == fed + Whole(store, id)
              && r.value == |Whole(store, id)| <= I64_MAX
              && id in store.blobs && r.value == store.blobs[id].size
              && sha256(Whole(store, id)) == id.digest
    ensures Verifiable(store, rank, sha256, id) ==> r.Ok?
  {
    if Verifiable(store, rank, sha256, id) {
      VerifiableWalk(store, rank, sha256, id);
    }
    var loaded := LoadBlob(store, id);
    if loaded.Corrupt? {
      return Corrupt(loaded.message), fed;
    }
    var size := loaded.value.size;
    var walked, streamed := WalkWhole(store, id, size, rank);
    if walked.Corrupt? {
      return Corrupt(walked.message), fed;
    }
    if |streamed| > I64_MAX {
      return Corrupt("verified blob size overflows bigint"), fed;
    }
    if |streamed| != size {
      return Corrupt("a blob traversal did not read its complete logical size"), fed;
    }
    if sha256(streamed) != id.digest {
      return Corrupt("canonical payload SHA-256 does not match its blob ID"), fed;
    }
    return Ok(size), fed + streamed;
  }

  /** Digest and total size of a sequence of complete blobs. */
  method HashBlobSequence(store: Store, sha256: bytes -> bytes, ids: seq<BlobId>, ghost rank: map<BlobId, nat>)
    returns (r: Outcome<(bytes, int)>)
    ensures r.Ok? ==> r.value == (sha256(WholeSequence(store, ids)), |WholeSequence(store, ids)|)
    ensures r.Ok? ==> forall i :: 0 <= i < |ids| ==> sha256(Whole(store, ids[i])) == ids[i].digest
    ensures |WholeSequence(store, ids)| <= I64_MAX
            && (forall i :: 0 <= i < |ids| ==> Verifiable(store, rank, sha256, ids[i]))
            ==> r.Ok?
  {
    var fed: bytes, total, i := [], 0, 0;
    while i < |ids|
      invariant 0 <= i <= |ids|
      invariant fed == WholeSequence(store, ids[..i]) && total == |fed|
      invariant forall j :: 0 <= j < i ==> sha256(Whole(store, ids[j])) == ids[j].digest
    {
      var one, fed' := StreamVerifiedBlob(store, sha256, ids[i], fed, rank);
      if one.Corrupt? {
        return Corrupt(one.message);
      }
      SequenceStep(store, ids, i);
      fed := fed';
      total := total + one.value;
      i := i + 1;
      if total > I64_MAX {
        return Corrupt("blob sequence size overflows bigint");
      }
    }
    assert ids[..i] == ids;
    return Ok((sha256(fed), total));
  }

  lemma SequenceStep(store: Store, ids: seq<BlobId>, i: nat)
    requires i < |ids|
    ensures WholeSequence(store, ids[..i + 1]) == WholeSequence(store, ids[..i]) + Whole(store, ids[i])
    ensures |WholeSequence(store, ids[..i + 1])| <= |WholeSequence(store, ids)|
  {
    assert ids[..i + 1][..i] == ids[..i];
    SequenceGrows(store, ids, i + 1);
  }

  lemma {:induction false} SequenceGrows(store: Store, ids: seq<BlobId>, i: nat)
    requires i <= |ids|
    ensures |WholeSequence(store, ids[..i])| <= |WholeSequence(store, ids)|
    decreases |ids|
  {
    if i == |ids| {
      assert ids[..i] == ids;
    } else {
      assert ids[..|ids| - 1][..i] == ids[..i];
      SequenceGrows(store, ids[..|ids| - 1], i);
    }
  }

  // ----- one staged upload part

  function RecordedSizes(rows: map<Int32, UploadChunk>): map<int, int> {
    map k | k in rows :: rows[k].size
  }

  predicate SizesNonNegative(rows: map<Int32, UploadChunk>) {
    forall k :: k in rows ==> rows[k].size >= 0
  }

  /** A staged row tells the truth: its size is the content's, its blob id the content's digest. */
  ghost predicate Recorded(store: Store, sha256: bytes -> bytes, chunk: UploadChunk) {
    chunk.size == |Whole(store, chunk.blob)| && sha256(Whole(store, chunk.blob)) == chunk.blob.digest
  }

  /** The contents of the first n staged chunks in row order. */
  function StagedContent(store: Store, rows: map<Int32, UploadChunk>, n: nat): bytes {
    if n == 0 then []
    else StagedContent(store, rows, n - 1) + (if n - 1 in rows then Whole(store, rows[n - 1].blob) else [])
  }

  /** Rows numbered 0..n-1 with sizes that are not negative. */
  ghost predicate Staged(rows: map<Int32, UploadChunk>) {
    (forall k :: k in rows <==> 0 <= k < |rows|) && SizesNonNegative(rows)
  }

  /** Everything a staged part must satisfy for hashing it to succeed. */
  ghost predicate Hashable(store: Store, rank: map<BlobId, nat>, sha256: bytes -> bytes,
                           multipart: bool, partNumber: int, rows: map<Int32, UploadChunk>)
  {
    && 0 <= partNumber <= 10_000 && (multipart <==> partNumber > 0) && (multipart ==> |rows| > 0)
    && Staged(rows)
    && (forall k :: k in rows ==> Verifiable(store, rank, sha256, rows[k].blob) && Recorded(store, sha256, rows[k]))
    && |StagedContent(store, rows, |rows|)| <= I64_MAX
  }

  /** Hashes the chunks staged for one part.  `multipart` is the upload's flag.  A result means the
      rows were exactly 0..n-1, each chunk's content had its recorded size and its own digest, and
      the digests cover the concatenation of the contents in sequence order. */
  method HashUploadPart(store: Store, sha256: bytes -> bytes, md5: bytes -> bytes,
                        multipart: bool, partNumber: int, rows: map<Int32, UploadChunk>, ghost rank: map<BlobId, nat>)
    returns (r: Outcome<PartDigest>)
    ensures r.Ok? ==>
              var all := StagedContent(store, rows, |rows|);
              && r.value == PartDigest(sha256(all), md5(all), |all|)
              && (forall k :: k in rows <==> 0 <= k < |rows|)
              && (forall k :: k in rows ==> Recorded(store, sha256, rows[k]))
    ensures r.Ok? ==> 0 <= partNumber <= 10_000 && (multipart <==> partNumber > 0) && (multipart ==> |rows| > 0)
    ensures Hashable(store, rank, sha256, multipart, partNumber, rows) ==> r.Ok?
  {
    if partNumber < 0 || partNumber > 10_000 {
      return Corrupt("part_number must be between 0 and 10000");
    }
    if multipart == (partNumber == 0) {
      return Corrupt("part_number 0 is only valid for a non-multipart streaming PUT");
    }
    var total := ValidatePart(rows, partNumber);
    if total.Corrupt? {
      return Corrupt(total.message);
    }
    var fed := FeedPart(store, sha256, rows, rank);
    if fed.Corrupt? {
      return Corrupt(fed.message);
    }
    StagedSize(store, sha256, rows, |rows|);
    if |fed.value| != total.value {
      return Corrupt("the streamed upload size changed while hashing");
    }
    return Ok(PartDigest(sha256(fed.value), md5(fed.value), |fed.value|));
  }

  method ValidatePart(rows: map<Int32, UploadChunk>, partNumber: int) returns (r: Outcome<int>)
    ensures r.Ok? ==> (forall k :: k in rows <==> 0 <= k < |rows|) && (partNumber > 0 ==> |rows| > 0)
    ensures r.Ok? ==> r.value == SumOf(RecordedSizes(rows))
    ensures Staged(rows) && (partNumber > 0 ==> |rows| > 0) ==> r.Ok?
  {
    if Staged(rows) {
      StagedAccepted(rows);
    }
    var stats := Stats(RecordedSizes(rows), SizesNonNegative(rows));
    if partNumber > 0 && stats.count == 0 {
      return Corrupt("a multipart part must contain at least one staged chunk");
    }
    var layout := DenseLayoutError(stats, stats.count, stats.totalSize);
    if layout.Some? {
      return Corrupt(layout.value);
    }
    PartLayout(rows);
    return Ok(stats.totalSize);
  }

  /** Everything the rows must satisfy for feeding them to succeed. */
  ghost predicate Feedable(
    store: Store, rank: map<BlobId, nat>, sha256: bytes -> bytes, rows: map<Int32, UploadChunk>)
  {
    && (forall k :: k in rows ==> Verifiable(store, rank, sha256, rows[k].blob) && Recorded(store, sha256, rows[k]))
    && |StagedContent(store, rows, |rows|)| <= I64_MAX
  }

  /** The chunk of one row is verified and fed. */
  method FeedChunk(store: Store, sha256: bytes -> bytes, rows: map<Int32, UploadChunk>, k: nat, fed: bytes,
                   ghost rank: map<BlobId, nat>)
    returns (r: Outcome<bytes>)
    requires k in rows && fed == StagedContent(store, rows, k)
    ensures r.Ok? ==> r.value == StagedContent(store, rows, k + 1) && Recorded(store, sha256, rows[k])
    ensures Verifiable(store, rank, sha256, rows[k].blob) && Recorded(store, sha256, rows[k]) ==>
              |StagedContent(store, rows, k + 1)| <= I64_MAX ==> r.Ok?
  {
    var one, fed' := StreamVerifiedBlob(store, sha256, rows[k].blob, fed, rank);
    if one.Corrupt? {
      return Corrupt(one.message);
    }
    if one.value != rows[k].size {
      return Corrupt("an upload chunk size does not match its canonical blob");
    }
    StagedStep(store, rows, k);
    if |fed'| > I64_MAX {
      return Corrupt("canonical blob size overflows bigint");
    }
    return Ok(fed');
  }

  method FeedPart(store: Store, sha256: bytes -> bytes, rows: map<Int32, UploadChunk>, ghost rank: map<BlobId, nat>)
    returns (r: Outcome<bytes>)
    requires forall k :: k in rows <==> 0 <= k < |rows|
    ensures r.Ok? ==> r.value == StagedContent(store, rows, |rows|)
    ensures r.Ok? ==> forall k :: k in rows ==> Recorded(store, sha256, rows[k])
    ensures Feedable(store, rank, sha256, rows) ==> r.Ok?
  {
    var fed: bytes, k := [], 0;
    while k < |rows|
      invariant 0 <= k <= |rows|
      invariant fed == StagedContent(store, rows, k)
      invariant forall j :: 0 <= j < k ==> Recorded(store, sha256, rows[j])
    {
      StagedGrows(store, rows, k + 1, |rows|);
      var next := FeedChunk(store, sha256, rows, k, fed, rank);
      if next.Corrupt? {
        return next;
      }
      fed := next.value;
      k := k + 1;
    }
    return Ok(fed);
  }

  lemma PartLayout(rows: map<Int32, UploadChunk>)
    requires var stats := Stats(RecordedSizes(rows), SizesNonNegative(rows));
             DenseLayoutError(stats, stats.count, stats.totalSize).None?
    ensures forall k :: k in rows <==> 0 <= k < |rows|
    ensures |rows| == |RecordedSizes(rows)|
  {
    var sizes := RecordedSizes(rows);
    DenseLayout(sizes, SizesNonNegative(rows), |sizes|, SumOf(sizes));
    assert sizes.Keys == rows.Keys;
    assert |rows| == |rows.Keys| == |sizes.Keys|;
  }

  lemma StagedStep(store: Store, rows: map<Int32, UploadChunk>, k: nat)
    requires k in rows
    ensures StagedContent(store, rows, k + 1) == StagedContent(store, rows, k) + Whole(store, rows[k].blob)
  {
  }

  lemma {:induction false} StagedGrows(store: Store, rows: map<Int32, UploadChunk>, k: nat, n: nat)
    requires k <= n && forall j :: 0 <= j < n ==> j in rows
    ensures |StagedContent(store, rows, k)| <= |StagedContent(store, rows, n)|
    decreases n
  {
    if k < n {
      StagedGrows(store, rows, k, n - 1);
      StagedStep(store, rows, n - 1);
    }
  }

  lemma StagedContentStep(store: Store, sha256: bytes -> bytes, rows: map<Int32, UploadChunk>, k: nat)
    requires k in rows && Recorded(store, sha256, rows[k])
    ensures |StagedContent(store, rows, k + 1)| == |StagedContent(store, rows, k)| + rows[k].size
  {
    StagedStep(store, rows, k);
  }

  lemma PrefixStep(rows: map<Int32, UploadChunk>, n: nat)
    requires n > 0 && n - 1 in rows
    ensures PrefixSum(RecordedSizes(rows), n) == PrefixSum(RecordedSizes(rows), n - 1) + rows[n - 1].size
  {
  }

  /** Recorded sizes add up to the staged content. */
  lemma {:induction false} StagedPrefix(store: Store, sha256: bytes -> bytes, rows: map<Int32, UploadChunk>, n: nat)
    requires forall k :: 0 <= k < n ==> k in rows && Recorded(store, sha256, rows[k])
    ensures PrefixSum(RecordedSizes(rows), n) == |StagedContent(store, rows, n)|
  {
    if n > 0 {
      StagedPrefix(store, sha256, rows, n - 1);
      StagedContentStep(store, sha256, rows, n - 1);
      PrefixStep(rows, n);
    }
  }

  lemma StagedSize(store: Store, sha256: bytes -> bytes, rows: map<Int32, UploadChunk>, n: nat)
    requires n == |rows| && (forall k :: k in rows <==> 0 <= k < n)
    requires forall k :: k in rows ==> Recorded(store, sha256, rows[k])
    ensures SumOf(RecordedSizes(rows)) == |StagedContent(store, rows, n)|
  {
    StagedPrefix(store, sha256, rows, n);
    assert RecordedSizes(rows).Keys == Upto(n);
    SumIsPrefixSum(RecordedSizes(rows), n);
  }

  lemma {:induction false} PrefixNonNegative(values: map<int, int>, n: nat)
    requires forall k :: k in values ==> values[k] >= 0
    ensures PrefixSum(values, n) >= 0
  {
    if n > 0 {
      PrefixNonNegative(values, n - 1);
    }
  }

  lemma StagedAccepted(rows: map<Int32, UploadChunk>)
    requires Staged(rows)
    ensures var stats := Stats(RecordedSizes(rows), SizesNonNegative(rows));
            stats.count == |rows| && DenseLayoutError(stats, stats.count, stats.totalSize).None?
  {
    var sizes := RecordedSizes(rows);
    assert sizes.Keys == rows.Keys;
    assert |sizes| == |sizes.Keys| == |rows.Keys| == |rows|;
    assert sizes.Keys == Upto(|rows|);
    SumIsPrefixSum(sizes, |rows|);
    PrefixNonNegative(sizes, |rows|);
    DenseLayoutExact(sizes, SizesNonNegative(rows), |rows|, SumOf(sizes));
  }
}
