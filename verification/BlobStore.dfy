/** The canonical blob tables as the hash helpers of src/hash.rs see them, the aggregates
    those helpers ask SQL for, and the byte content a blob stands for. */
module BlobStore {
  import opened Bytes

  type Digest = d: bytes | |d| == 32 witness seq(32, _ => 0)

  /** A blob is known by the SHA-256 of its content. */
  datatype BlobId = BlobId(digest: Digest)

  /** `Unknown` is any text outside the three names the loader recognises. */
  datatype StorageKind = Inline | Chunked | Composite | Unknown

  datatype BlobRow = BlobRow(size: Int64, chunkSize: Int32, kind: StorageKind, inlined: Option<bytes>)

  datatype ExtentRow = ExtentRow(logicalOffset: Int64, source: BlobId, sourceOffset: Int64, length: Int64)

  /** Tables keyed by blob id, the two layout tables by (blob id, seq).  Nothing is assumed of the
      rows beyond the column types: offsets may be negative, rows missing, extents cyclic. */
  datatype Store = Store(
    blobs: map<BlobId, BlobRow>,
    chunks: map<BlobId, map<Int32, bytes>>,
    extents: map<BlobId, map<Int32, ExtentRow>>)
  {
    function ChunkRows(id: BlobId): map<Int32, bytes> {
      if id in chunks then chunks[id] else map[]
    }

    function ExtentRows(id: BlobId): map<Int32, ExtentRow> {
      if id in extents then extents[id] else map[]
    }
  }

  // ----- aggregates over the rows of one blob

  predicate IsMax(s: set<int>, m: int) {
    m in s && forall y :: y in s ==> y <= m
  }

  predicate IsMin(s: set<int>, m: int) {
    m in s && forall y :: y in s ==> m <= y
  }

  lemma {:induction false} FindMax(s: set<int>) returns (m: int)
    requires s != {}
    ensures IsMax(s, m)
  {
    if forall x: int :: x !in s { assert false; }
    var pick :| pick in s;
    var rest := s - {pick};
    assert s == rest + {pick};
    m := pick;
    if rest != {} {
      var other := FindMax(rest);
      m := if pick < other then other else pick;
    }
  }

  lemma {:induction false} FindMin(s: set<int>) returns (m: int)
    requires s != {}
    ensures IsMin(s, m)
  {
    if forall x: int :: x !in s { assert false; }
    var pick :| pick in s;
    var rest := s - {pick};
    assert s == rest + {pick};
    m := pick;
    if rest != {} {
      var other := FindMin(rest);
      m := if pick < other then pick else other;
    }
  }

  lemma MaxExists(s: set<int>)
    requires s != {}
    ensures exists m :: IsMax(s, m)
  {
    var m := FindMax(s);
  }

  lemma MinExists(s: set<int>)
    requires s != {}
    ensures exists m :: IsMin(s, m)
  {
    var m := FindMin(s);
  }

  function MaxOf(s: set<int>): (m: int)
    requires s != {}
    ensures m in s && forall y :: y in s ==> y <= m
  {
    MaxExists(s);
    var m :| m in s && IsMax(s, m);
    m
  }

  function MinOf(s: set<int>): (m: int)
    requires s != {}
    ensures m in s && forall y :: y in s ==> m <= y
  {
    MinExists(s);
    var m :| m in s && IsMin(s, m);
    m
  }

  /** SQL `sum` over a column given as a map from seq to value. */
  function SumOf(values: map<int, int>): int
    decreases |values|
  {
    if values.Keys == {} then 0
    else
      var top := MaxOf(values.Keys);
      assert |values - {top}| < |values| by { assert (values - {top}).Keys == values.Keys - {top}; }
      values[top] + SumOf(values - {top})
  }

  /** The rows before `seq`: the window ROWS BETWEEN UNBOUNDED PRECEDING AND 1 PRECEDING. */
  function Preceding(values: map<int, int>, seq_: int): map<int, int> {
    map k | k in values && k < seq_ :: values[k]
  }

  function Lengths(rows: map<Int32, bytes>): map<int, int> {
    map k | k in rows :: |rows[k]|
  }

  function ExtentLengths(rows: map<Int32, ExtentRow>): map<int, int> {
    map k | k in rows :: rows[k].length
  }

  datatype LayoutStats = LayoutStats(
    count: int, minSeq: Option<int>, maxSeq: Option<int>, totalSize: int, rowsValid: bool)

  function Stats(lengths: map<int, int>, rowsValid: bool): LayoutStats {
    LayoutStats(
      |lengths|,
      if lengths.Keys == {} then None else Some(MinOf(lengths.Keys)),
      if lengths.Keys == {} then None else Some(MaxOf(lengths.Keys)),
      SumOf(lengths),
      rowsValid)
  }

  function DenseLayoutError(stats: LayoutStats, expectedCount: int, expectedSize: int): Option<string> {
    if expectedCount < 0 || expectedSize < 0 || stats.count < 0 || stats.totalSize < 0 then
      Some("negative layout cardinality or size")
    else if stats.count != expectedCount then
      Some("layout row count does not match its recorded size")
    else if expectedCount == 0 && (stats.minSeq.Some? || stats.maxSeq.Some?) then
      Some("empty layout has a sequence number")
    else if expectedCount != 0 && (stats.minSeq != Some(0) || stats.maxSeq != Some(expectedCount - 1)) then
      Some("layout sequence numbers are not contiguous from zero")
    else if stats.totalSize != expectedSize then
      Some("layout byte count does not match the blob size")
    else if !stats.rowsValid then
      Some("layout offsets or element sizes are invalid")
    else None
  }

  // ----- what an accepted layout means

  /** The integers 0..n-1. */
  function Upto(n: nat): (s: set<int>)
    ensures |s| == n
    ensures forall k :: k in s <==> 0 <= k < n
  {
    if n == 0 then {} else Upto(n - 1) + {n - 1}
  }

  /** Pigeonhole: n distinct integers between 0 and n-1 are all of them. */
  lemma DenseKeys(s: set<int>, n: nat)
    requires |s| == n
    requires forall x :: x in s ==> 0 <= x < n
    ensures s == Upto(n)
  {
    assert s <= Upto(n);
    assert Upto(n) == s + (Upto(n) - s);
    assert Upto(n) - s == {};
  }

  /** The five aggregates and the three checks pin the layout down: the sequence numbers are
      exactly 0..count-1, the lengths add up and the row predicate held of every row. */
  lemma DenseLayout(lengths: map<int, int>, rowsValid: bool, expectedCount: int, expectedSize: int)
    requires DenseLayoutError(Stats(lengths, rowsValid), expectedCount, expectedSize).None?
    ensures expectedCount >= 0 && lengths.Keys == Upto(expectedCount)
    ensures SumOf(lengths) == expectedSize >= 0
    ensures rowsValid
  {
    assert |lengths.Keys| == |lengths|;
    if lengths.Keys != {} {
      DenseKeys(lengths.Keys, expectedCount);
    }
  }

  lemma DenseLayoutComplete(lengths: map<int, int>, n: int, size: int)
    requires n >= 0 && size >= 0 && lengths.Keys == Upto(n) && SumOf(lengths) == size
    ensures DenseLayoutError(Stats(lengths, true), n, size).None?
  {
    var keys := lengths.Keys;
    assert |lengths| == |keys| == n;
    if n > 0 {
      UptoBounds(keys, n);
    } else {
      assert keys == {};
    }
  }

  lemma UptoBounds(keys: set<int>, n: nat)
    requires keys == Upto(n) && n > 0
    ensures keys != {} && MinOf(keys) == 0 && MaxOf(keys) == n - 1
  {
    assert 0 in keys && n - 1 in keys;
  }

  /** No error is reported exactly for rows numbered 0..n-1 that add up and are valid. */
  lemma DenseLayoutExact(lengths: map<int, int>, rowsValid: bool, n: int, size: int)
    ensures DenseLayoutError(Stats(lengths, rowsValid), n, size).None?
            <==> n >= 0 && size >= 0 && lengths.Keys == Upto(n) && SumOf(lengths) == size && rowsValid
  {
    if DenseLayoutError(Stats(lengths, rowsValid), n, size).None? {
      DenseLayout(lengths, rowsValid, n, size);
    }
    if n >= 0 && size >= 0 && lengths.Keys == Upto(n) && SumOf(lengths) == size && rowsValid {
      DenseLayoutComplete(lengths, n, size);
    }
  }

  /** Sum of the values at 0..n-1. */
  function PrefixSum(values: map<int, int>, n: nat): int {
    if n == 0 then 0
    else PrefixSum(values, n - 1) + (if n - 1 in values then values[n - 1] else 0)
  }

  lemma {:induction false} PrefixSumAgrees(a: map<int, int>, b: map<int, int>, n: nat)
    requires forall k :: 0 <= k < n ==> k in a && k in b && a[k] == b[k]
    ensures PrefixSum(a, n) == PrefixSum(b, n)
  {
    if n > 0 {
      PrefixSumAgrees(a, b, n - 1);
    }
  }

  lemma SumTop(values: map<int, int>, n: nat)
    requires n > 0 && values.Keys == Upto(n)
    ensures SumOf(values) == values[n - 1] + SumOf(values - {n - 1})
    ensures (values - {n - 1}).Keys == Upto(n - 1)
  {
    assert n - 1 in values.Keys;
    assert MaxOf(values.Keys) == n - 1;
  }

  lemma {:induction false} SumIsPrefixSum(values: map<int, int>, n: nat)
    requires values.Keys == Upto(n)
    ensures SumOf(values) == PrefixSum(values, n)
  {
    if n > 0 {
      var rest := values - {n - 1};
      SumTop(values, n);
      SumIsPrefixSum(rest, n - 1);
      PrefixSumAgrees(values, rest, n - 1);
    }
  }

  lemma WindowIsPrefixSum(values: map<int, int>, n: nat, k: nat)
    requires values.Keys == Upto(n) && k <= n
    ensures SumOf(Preceding(values, k)) == PrefixSum(values, k)
  {
    var before := Preceding(values, k);
    assert before.Keys == Upto(k);
    SumIsPrefixSum(before, k);
    PrefixSumAgrees(values, before, k);
  }

  // ----- the content of a blob

  /** `length` bytes of `content` from `offset`; positions outside the content read as zero, so
      a piece of a corrupt source still occupies its place. */
  function Piece(content: bytes, offset: int, length: int): (p: bytes)
    ensures |p| == Max(length, 0)
    ensures 0 <= offset && 0 <= length && offset + length <= |content| ==> p == content[offset..offset + length]
  {
    seq(Max(length, 0), i => if 0 <= offset + i < |content| then content[offset + i] else 0)
  }

  /** The bytes a blob denotes, following extents at most `depth` blobs deep. */
  function Content(store: Store, id: BlobId, depth: nat): bytes
    decreases depth, 1, 0
  {
    if depth == 0 || id !in store.blobs then [] else
    match store.blobs[id].kind
    case Inline => if store.blobs[id].inlined.Some? then store.blobs[id].inlined.value else []
    case Chunked => JoinedChunks(store.ChunkRows(id), |store.ChunkRows(id)|)
    case Composite => JoinedExtents(store, store.ExtentRows(id), |store.ExtentRows(id)|, depth)
    case Unknown => []
  }

  function JoinedChunks(rows: map<Int32, bytes>, n: nat): bytes {
    if n == 0 then []
    else JoinedChunks(rows, n - 1) + (if n - 1 in rows then rows[n - 1] else [])
  }

  function JoinedExtents(store: Store, rows: map<Int32, ExtentRow>, n: nat, depth: nat): bytes
    requires depth > 0
    decreases depth, 0, n
  {
    if n == 0 then []
    else
      JoinedExtents(store, rows, n - 1, depth)
      + (if n - 1 in rows
         then Piece(Content(store, rows[n - 1].source, depth - 1), rows[n - 1].sourceOffset, rows[n - 1].length)
         else [])
  }
}
