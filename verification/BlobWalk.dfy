/** The bounded, cycle-checked walk of src/hash.rs over the canonical blob graph. */
module BlobWalk {
  import opened Bytes
  import opened BlobStore

  const READ_BLOCK_BYTES: int := 1024 * 1024
  const MAX_BLOB_DEPTH: nat := 64

  /** `corrupt` and `invalid` raise a PostgreSQL error, which ends the whole call. */
  datatype Outcome<+T> = Ok(value: T) | Corrupt(message: string)

  function RangeEnd(start: int, length: int, size: int): Outcome<int> {
    if start < 0 || length < 0 || size < 0 then Corrupt("negative blob range or size")
    else if start + length > I64_MAX then Corrupt("blob range overflows bigint")
    else if start + length > size then Corrupt("blob range exceeds its source blob")
    else Ok(start + length)
  }

  function LoadBlob(store: Store, id: BlobId): Outcome<BlobRow> {
    if id !in store.blobs then Corrupt("a referenced blob row is missing") else
    var row := store.blobs[id];
    if row.size < 0 || row.chunkSize <= 0 then
      Corrupt("a blob has a negative size or non-positive chunk size")
    else match row.kind
      case Inline =>
        if row.inlined.None? || |row.inlined.value| != row.size then
          Corrupt("inline bytes do not match the recorded blob size")
        else if row.size > I32_MAX - 1 then
          Corrupt("an inline blob is too large for PostgreSQL substring")
        else Ok(row)
      case Chunked =>
        if row.inlined.Some? then Corrupt("a chunked blob also contains inline bytes") else Ok(row)
      case Composite =>
        if row.inlined.Some? then Corrupt("a composite blob also contains inline bytes") else Ok(row)
      case Unknown => Corrupt("a blob has an unknown storage kind")
  }

  function ChunkCount(size: int, chunkSize: int): int
    requires chunkSize > 0 && size >= 0
  {
    if size == 0 then 0 else (size - 1) / chunkSize + 1
  }

  predicate ChunkRowsValid(rows: map<Int32, bytes>, chunkSize: int, size: int) {
    forall k :: k in rows ==> k * chunkSize < size && |rows[k]| == Min(chunkSize, size - k * chunkSize)
  }

  function ChunkLayoutError(store: Store, id: BlobId, row: BlobRow): Option<string>
    requires row.chunkSize > 0 && row.size >= 0
  {
    var rows := store.ChunkRows(id);
    DenseLayoutError(
      Stats(Lengths(rows), ChunkRowsValid(rows, row.chunkSize, row.size)),
      ChunkCount(row.size, row.chunkSize),
      row.size)
  }

  predicate ExtentRowsValid(store: Store, rows: map<Int32, ExtentRow>) {
    forall k :: k in rows ==>
      && rows[k].logicalOffset == SumOf(Preceding(ExtentLengths(rows), k))
      && rows[k].source in store.blobs
      && rows[k].sourceOffset <= store.blobs[rows[k].source].size
      && rows[k].length <= store.blobs[rows[k].source].size - rows[k].sourceOffset
  }

  function ExtentLayoutError(store: Store, id: BlobId, row: BlobRow): Option<string> {
    var rows := store.ExtentRows(id);
    DenseLayoutError(
      Stats(ExtentLengths(rows), ExtentRowsValid(store, rows)), |ExtentLengths(rows)|, row.size)
  }

  // ----- chunk tiling

  lemma {:induction false} JoinedChunksPrefix(rows: map<Int32, bytes>, k: nat, n: nat)
    requires k <= n
    ensures JoinedChunks(rows, k) <= JoinedChunks(rows, n)
    decreases n
  {
    if k < n {
      JoinedChunksPrefix(rows, k, n - 1);
    }
  }

  /** An accepted chunk layout tiles the blob: the first k chunks hold its first min(k*chunkSize, size)
      bytes, for every k. */
  lemma {:induction false} ChunkTiling(rows: map<Int32, bytes>, chunkSize: int, size: int, k: nat)
    requires chunkSize > 0 && size >= 0
    requires ChunkRowsValid(rows, chunkSize, size)
    requires forall j :: 0 <= j < k ==> j in rows
    ensures |JoinedChunks(rows, k)| == Min(k * chunkSize, size)
  {
    if k > 0 {
      ChunkTiling(rows, chunkSize, size, k - 1);
      assert k * chunkSize == (k - 1) * chunkSize + chunkSize;
      assert k - 1 in rows;
    }
  }

  /** What an accepted chunk layout amounts to: rows 0..n-1, each of its prescribed length. */
  ghost predicate TiledChunks(rows: map<Int32, bytes>, chunkSize: int, size: int) {
    && 0 < chunkSize <= I32_MAX && 0 <= size
    && |rows| == ChunkCount(size, chunkSize)
    && (forall k :: k in rows <==> 0 <= k < |rows|)
    && ChunkRowsValid(rows, chunkSize, size)
  }

  lemma ChunkLayout(store: Store, id: BlobId, row: BlobRow)
    requires row.chunkSize > 0 && row.size >= 0
    requires ChunkLayoutError(store, id, row).None?
    ensures TiledChunks(store.ChunkRows(id), row.chunkSize, row.size)
    ensures |JoinedChunks(store.ChunkRows(id), |store.ChunkRows(id)|)| == row.size
  {
    var rows := store.ChunkRows(id);
    var lengths := Lengths(rows);
    DenseLayout(lengths, ChunkRowsValid(rows, row.chunkSize, row.size), ChunkCount(row.size, row.chunkSize), row.size);
    assert rows.Keys == lengths.Keys;
    assert |rows| == |rows.Keys|;
    TiledSize(rows, row.chunkSize, row.size);
  }

  lemma TiledSize(rows: map<Int32, bytes>, chunkSize: int, size: int)
    requires TiledChunks(rows, chunkSize, size)
    ensures |JoinedChunks(rows, |rows|)| == size
  {
    ChunkTiling(rows, chunkSize, size, |rows|);
    if size > 0 {
      CountCovers(size, chunkSize);
    }
  }

  lemma CountCovers(size: int, chunkSize: int)
    requires size > 0 && chunkSize > 0
    ensures ChunkCount(size, chunkSize) * chunkSize >= size
  {
    var q := (size - 1) / chunkSize;
    assert size - 1 == q * chunkSize + (size - 1) % chunkSize;
    assert (q + 1) * chunkSize == q * chunkSize + chunkSize;
  }

  lemma SequenceRange(start: int, end: int, size: int, chunkSize: int)
    requires 0 <= start < end <= size && 0 < chunkSize
    ensures var first, last := start / chunkSize, (end - 1) / chunkSize;
            && 0 <= first <= last < ChunkCount(size, chunkSize)
            && first * chunkSize <= start < (first + 1) * chunkSize
            && last * chunkSize < end <= (last + 1) * chunkSize
  {
    var first, last := start / chunkSize, (end - 1) / chunkSize;
    assert start == first * chunkSize + start % chunkSize;
    assert end - 1 == last * chunkSize + (end - 1) % chunkSize;
    assert (first + 1) * chunkSize == first * chunkSize + chunkSize;
    assert (last + 1) * chunkSize == last * chunkSize + chunkSize;
    Quotients(start, end - 1, chunkSize);
    Quotients(end - 1, size - 1, chunkSize);
  }

  lemma Quotients(a: int, b: int, d: int)
    requires 0 <= a <= b && 0 < d
    ensures 0 <= a / d <= b / d
  {
    assert a == a / d * d + a % d && b == b / d * d + b % d;
    assert (b / d + 1) * d == b / d * d + d;
    if a / d > b / d {
      ProductMonotone(b / d + 1, a / d, d);
      assert false;
    }
  }

  lemma ProductMonotone(a: int, b: int, d: int)
    requires a <= b && 0 <= d
    ensures a * d <= b * d
  {
    assert (b - a) * d >= 0;
    assert b * d == a * d + (b - a) * d;
  }

  /** Inside the sequence range no i32 or i64 bound is reached, and the clipped read lies in the row. */
  lemma ChunkFits(rows: map<Int32, bytes>, k: int, chunkSize: int, size: int, start: int, end: int)
    requires TiledChunks(rows, chunkSize, size) && 0 <= start < end <= size
    requires start / chunkSize <= k <= (end - 1) / chunkSize
    ensures k in rows && k <= I32_MAX
    ensures var at := k * chunkSize;
            && 0 <= at && at + chunkSize <= I64_MAX
            && at < end && start < at + chunkSize
            && |rows[k]| == Min(chunkSize, size - at)
            && |JoinedChunks(rows, k)| == at
  {
    SequenceRange(start, end, size, chunkSize);
    assert k in rows;
    ChunkBounds(k, start / chunkSize, (end - 1) / chunkSize, chunkSize);
    ChunkTiling(rows, chunkSize, size, k);
  }

  lemma ChunkBounds(k: int, first: int, last: int, chunkSize: int)
    requires 0 <= first <= k <= last && k <= I32_MAX && 0 < chunkSize <= I32_MAX
    ensures 0 <= k * chunkSize <= last * chunkSize
    ensures (first + 1) * chunkSize <= k * chunkSize + chunkSize <= I64_MAX
  {
    ProductMonotone(first + 1, k + 1, chunkSize);
    ProductMonotone(k, last, chunkSize);
    ProductMonotone(0, k, chunkSize);
    ProductMonotone(k, I32_MAX, chunkSize);
    assert (k + 1) * chunkSize == k * chunkSize + chunkSize;
  }

  // ----- extent tiling

  /** Where extent n begins if the extents before it lie end to end. */
  function ExtentOffset(rows: map<Int32, ExtentRow>, n: nat): int {
    if n == 0 then 0
    else ExtentOffset(rows, n - 1) + (if n - 1 in rows then rows[n - 1].length else 0)
  }

  lemma {:induction false} ExtentOffsetIsPrefixSum(rows: map<Int32, ExtentRow>, n: nat)
    ensures ExtentOffset(rows, n) == PrefixSum(ExtentLengths(rows), n)
  {
    if n > 0 {
      ExtentOffsetIsPrefixSum(rows, n - 1);
    }
  }

  /** What an accepted extent layout amounts to: rows 0..n-1, each starting where the previous
      lengths end, adding up to the blob size. */
  ghost predicate TiledExtents(rows: map<Int32, ExtentRow>, size: int) {
    && (forall k :: k in rows <==> 0 <= k < |rows|)
    && (forall k {:trigger StartsInPlace(rows, k)} :: k in rows ==> StartsInPlace(rows, k))
    && ExtentOffset(rows, |rows|) == size
  }

  ghost predicate StartsInPlace(rows: map<Int32, ExtentRow>, k: int) {
    0 <= k && k in rows && rows[k].logicalOffset == ExtentOffset(rows, k)
  }

  lemma ExtentLayout(store: Store, id: BlobId, row: BlobRow)
    requires ExtentLayoutError(store, id, row).None?
    ensures TiledExtents(store.ExtentRows(id), row.size)
    ensures ExtentRowsValid(store, store.ExtentRows(id))
  {
    var rows := store.ExtentRows(id);
    var lengths := ExtentLengths(rows);
    DenseLayout(lengths, ExtentRowsValid(store, rows), |lengths|, row.size);
    assert rows.Keys == lengths.Keys;
    assert |rows| == |rows.Keys| == |lengths.Keys| == |lengths|;
    SumIsPrefixSum(lengths, |rows|);
    ExtentOffsetIsPrefixSum(rows, |rows|);
    forall k | k in rows
      ensures StartsInPlace(rows, k)
    {
      WindowIsPrefixSum(lengths, |rows|, k);
      ExtentOffsetIsPrefixSum(rows, k);
    }
  }

  /** The first k extents are present and have non-negative lengths. */
  ghost predicate Readable(rows: map<Int32, ExtentRow>, k: int) {
    forall j :: 0 <= j < k ==> j in rows && rows[j].length >= 0
  }

  /** While the extents read so far have non-negative lengths, their pieces end exactly where the
      next logical offset begins. */
  lemma {:induction false} JoinedExtentsLength(store: Store, rows: map<Int32, ExtentRow>, k: nat, depth: nat)
    requires depth > 0
    requires Readable(rows, k)
    ensures |JoinedExtents(store, rows, k, depth)| == ExtentOffset(rows, k)
  {
    if k > 0 {
      JoinedExtentsLength(store, rows, k - 1, depth);
      assert k - 1 in rows;
    }
  }

  lemma {:induction false} ExtentOffsetMonotone(rows: map<Int32, ExtentRow>, k: nat, n: nat)
    requires k <= n
    requires Readable(rows, n)
    ensures 0 <= ExtentOffset(rows, k) <= ExtentOffset(rows, n)
    decreases n
  {
    if k < n {
      ExtentOffsetMonotone(rows, k, n - 1);
      assert n - 1 in rows;
    } else if n > 0 {
      ExtentOffsetMonotone(rows, n - 1, n - 1);
      assert n - 1 in rows;
    }
  }

  // ----- interval clipping

  /** The part of `s` inside [from, to), where both bounds are clipped to the sequence. */
  function Clip(s: bytes, from: int, to: int): bytes
    requires 0 <= from <= to
  {
    s[Min(from, |s|)..Min(to, |s|)]
  }

  /** Appending a piece extends the clipped part by the overlap of the piece with the interval. */
  lemma ClipStep(s: bytes, piece: bytes, from: int, to: int)
    requires 0 <= from <= to
    ensures var lo, hi := Max(from, |s|), Min(to, |s| + |piece|);
            Clip(s + piece, from, to)
            == Clip(s, from, to) + (if lo < hi then piece[lo - |s|..hi - |s|] else [])
  {
    var lo, hi := Max(from, |s|), Min(to, |s| + |piece|);
    var all := s + piece;
    if lo < hi {
      assert all[lo..hi] == piece[lo - |s|..hi - |s|];
      if from < |s| {
        assert all[from..hi] == all[from..|s|] + all[|s|..hi];
        assert all[from..|s|] == s[from..|s|] == Clip(s, from, to);
      } else {
        assert Clip(s, from, to) == [];
      }
    } else if from <= |s| {
      assert Clip(all, from, to) == s[from..Min(to, |s|)];
    } else {
      assert Clip(all, from, to) == [] == Clip(s, from, to);
    }
  }

  /** A slice of a piece is the corresponding slice of the source where the source has those bytes. */
  lemma PieceSlice(content: bytes, offset: int, length: int, lo: int, hi: int)
    requires 0 <= lo <= hi <= length
    requires 0 <= offset + lo && offset + hi <= |content|
    ensures Piece(content, offset, length)[lo..hi] == content[offset + lo..offset + hi]
  {
    var p, slice := Piece(content, offset, length)[lo..hi], content[offset + lo..offset + hi];
    assert |p| == |slice|;
    forall i | 0 <= i < |p| ensures p[i] == slice[i] {
      assert p[i] == Piece(content, offset, length)[lo + i];
    }
  }

  lemma ClipFirst(rows: map<Int32, bytes>, chunkSize: int, size: int, start: int, end: int)
    requires TiledChunks(rows, chunkSize, size) && 0 <= start < end <= size
    ensures 0 <= start / chunkSize <= (end - 1) / chunkSize
    ensures ChunksRead(rows, start / chunkSize, start, end) == []
  {
    SequenceRange(start, end, size, chunkSize);
    ChunkTiling(rows, chunkSize, size, start / chunkSize);
  }

  lemma ClipLast(rows: map<Int32, bytes>, chunkSize: int, size: int, start: int, end: int)
    requires TiledChunks(rows, chunkSize, size) && 0 <= start < end <= size
    ensures 0 <= (end - 1) / chunkSize
    ensures end <= |JoinedChunks(rows, |rows|)|
    ensures ChunksRead(rows, (end - 1) / chunkSize + 1, start, end) == JoinedChunks(rows, |rows|)[start..end]
  {
    SequenceRange(start, end, size, chunkSize);
    ChunkTiling(rows, chunkSize, size, (end - 1) / chunkSize + 1);
    JoinedChunksPrefix(rows, (end - 1) / chunkSize + 1, |rows|);
  }

  /** The part of [start, end) that the first k chunks, or extents, cover. */
  ghost function ChunksRead(rows: map<Int32, bytes>, k: nat, start: int, end: int): bytes
    requires 0 <= start <= end
  {
    Clip(JoinedChunks(rows, k), start, end)
  }

  ghost function ExtentsRead(store: Store, rows: map<Int32, ExtentRow>, k: nat, depth: nat, start: int, end: int): bytes
    requires 0 <= start <= end
  {
    Clip(JoinedExtents(store, rows, k, depth + 1), start, end)
  }

  /** The content of a blob as seen below a path, which leaves only so many levels. */
  function Visible(store: Store, depth: nat, id: BlobId): bytes
    requires depth <= MAX_BLOB_DEPTH
  {
    Content(store, id, MAX_BLOB_DEPTH - depth)
  }

  // ----- emission

  ghost predicate Bounded(blocks: seq<bytes>) {
    forall i :: 0 <= i < |blocks| ==> 0 < |blocks[i]| <= READ_BLOCK_BYTES
  }

  /** The callback log went from `before` to `after` by blocks of at most 1 MiB that concatenate to
      `content`. */
  ghost predicate Emits(before: seq<bytes>, after: seq<bytes>, content: bytes) {
    && Flatten(after) == Flatten(before) + content
    && (Bounded(before) ==> Bounded(after))
  }

  lemma EmitsThen(a: seq<bytes>, b: seq<bytes>, c: seq<bytes>, x: bytes, y: bytes)
    requires Emits(a, b, x) && Emits(b, c, y)
    ensures Emits(a, c, x + y)
  {
    assert Flatten(a) + (x + y) == (Flatten(a) + x) + y;
  }

  lemma EmitsNothing(a: seq<bytes>, nothing: bytes)
    requires nothing == []
    ensures Emits(a, a, nothing)
  {
    assert Flatten(a) + nothing == Flatten(a);
  }

  lemma SliceGrows(value: bytes, from: int, to: int, more: int)
    requires 0 <= from <= to && 0 <= more && to + more <= |value|
    ensures value[from..to] + value[to..to + more] == value[from..to + more]
    ensures Substring(value, to + 1, more) == value[to..to + more] && value[from..from] == []
  {
  }

  lemma EmitsBlock(a: seq<bytes>, b: seq<bytes>, x: bytes, block: bytes)
    requires Emits(a, b, x) && 0 < |block| <= READ_BLOCK_BYTES
    ensures Emits(a, b + [block], x + block)
  {
    FlattenSnoc(b, block);
    assert Flatten(a) + (x + block) == (Flatten(a) + x) + block;
  }

  lemma ChunkStep(rows: map<Int32, bytes>, k: int, at: int, chunkSize: int, size: int, start: int, end: int,
                  from: int, to: int, base: seq<bytes>, before: seq<bytes>, after: seq<bytes>)
    requires 0 <= k && k in rows && 0 <= start < end <= size && 0 < chunkSize
    requires |JoinedChunks(rows, k)| == at < end && start < at + chunkSize && |rows[k]| == Min(chunkSize, size - at)
    requires from == Max(start, at) && to == Min(end, at + chunkSize)
    requires Emits(before, after, rows[k][from - at..to - at])
    requires Emits(base, before, ChunksRead(rows, k, start, end))
    ensures Emits(base, after, ChunksRead(rows, k + 1, start, end))
  {
    ClipOverlap(JoinedChunks(rows, k), rows[k], start, end, from, to);
    EmitsThen(base, before, after, ChunksRead(rows, k, start, end), rows[k][from - at..to - at]);
  }

  lemma ClipOverlap(s: bytes, piece: bytes, start: int, end: int, from: int, to: int)
    requires 0 <= start <= end && from == Max(start, |s|) && to == Min(end, |s| + |piece|) && from < to
    ensures Clip(s + piece, start, end) == Clip(s, start, end) + piece[from - |s|..to - |s|]
  {
    ClipStep(s, piece, start, end);
  }

  /** What an extent contributes to [start, end): nothing when it misses the range, else the
      clipped slice of its source, which must have those bytes. */
  ghost predicate Contributes(source: bytes, e: ExtentRow, start: int, end: int, part: bytes) {
    var from, to := Max(start, e.logicalOffset), Min(end, e.logicalOffset + e.length);
    var shift := e.sourceOffset - e.logicalOffset;
    if from < to
    then 0 <= from + shift && to + shift <= |source| && part == source[from + shift..to + shift]
    else part == []
  }

  lemma ExtentStep(store: Store, rows: map<Int32, ExtentRow>, k: int, depth: nat, start: int, end: int, part: bytes)
    requires StartsInPlace(rows, k) && rows[k].length >= 0 && 0 <= start <= end
    requires Readable(rows, k)
    requires Contributes(Content(store, rows[k].source, depth), rows[k], start, end, part)
    ensures ExtentsRead(store, rows, k + 1, depth, start, end)
            == ExtentsRead(store, rows, k, depth, start, end) + part
  {
    JoinedExtentsLength(store, rows, k, depth + 1);
    var source := Content(store, rows[k].source, depth);
    PieceStep(JoinedExtents(store, rows, k, depth + 1), source, rows[k], start, end, part);
  }

  /** What the first k extents contribute to [start, end), one after the other. */
  ghost predicate Reads(
    store: Store, rows: map<Int32, ExtentRow>, k: nat, depth: nat, start: int, end: int, content: bytes)
  {
    if k == 0 then content == []
    else
      exists done: bytes, part: bytes ::
        && Reads(store, rows, k - 1, depth, start, end, done)
        && Adds(store, rows, k - 1, depth, start, end, part) && content == done + part
  }

  ghost predicate Adds(
    store: Store, rows: map<Int32, ExtentRow>, k: nat, depth: nat, start: int, end: int, part: bytes)
  {
    && k in rows && rows[k].length >= 0
    && Contributes(Content(store, rows[k].source, depth), rows[k], start, end, part)
  }

  lemma ReadsStep(
    store: Store, rows: map<Int32, ExtentRow>, k: nat, depth: nat, start: int, end: int, done: bytes, part: bytes)
    requires Reads(store, rows, k, depth, start, end, done) && Adds(store, rows, k, depth, start, end, part)
    ensures Reads(store, rows, k + 1, depth, start, end, done + part)
  {
  }

  /** Together these contributions are the clipped concatenation. */
  lemma {:induction false} ReadsJoined(
    store: Store, rows: map<Int32, ExtentRow>, k: nat, depth: nat, start: int, end: int, content: bytes)
    requires Reads(store, rows, k, depth, start, end, content) && 0 <= start <= end
    requires forall j {:trigger StartsInPlace(rows, j)} :: 0 <= j < k ==> StartsInPlace(rows, j)
    ensures Readable(rows, k) && content == ExtentsRead(store, rows, k, depth, start, end)
  {
    if k > 0 {
      var done, part :| Reads(store, rows, k - 1, depth, start, end, done)
                        && Adds(store, rows, k - 1, depth, start, end, part) && content == done + part;
      ReadsJoined(store, rows, k - 1, depth, start, end, done);
      assert StartsInPlace(rows, k - 1);
      ExtentStep(store, rows, k - 1, depth, start, end, part);
    }
  }

  lemma PieceStep(joined: bytes, source: bytes, e: ExtentRow, start: int, end: int, part: bytes)
    requires 0 <= start <= end && 0 <= e.length && |joined| == e.logicalOffset
    requires Contributes(source, e, start, end, part)
    ensures Clip(joined + Piece(source, e.sourceOffset, e.length), start, end) == Clip(joined, start, end) + part
  {
    var from, to := Max(start, |joined|) - |joined|, Min(end, |joined| + e.length) - |joined|;
    var piece := Piece(source, e.sourceOffset, e.length);
    ClipStep(joined, piece, start, end);
    if from < to {
      PieceSlice(source, e.sourceOffset, e.length, from, to);
      assert part == piece[from..to];
    }
  }

  lemma ClipAllExtents(store: Store, id: BlobId, size: int, depth: nat, start: int, end: int)
    requires 0 < depth <= MAX_BLOB_DEPTH && id in store.blobs && store.blobs[id].kind.Composite?
    requires var rows := store.ExtentRows(id);
             TiledExtents(rows, size) && Readable(rows, |rows|) && 0 <= start <= end <= size
    ensures var content := Visible(store, depth - 1, id);
            && |content| == size
            && ExtentsRead(store, store.ExtentRows(id), |store.ExtentRows(id)|, MAX_BLOB_DEPTH - depth, start, end)
               == content[start..end]
  {
    JoinedExtentsLength(store, store.ExtentRows(id), |store.ExtentRows(id)|, MAX_BLOB_DEPTH - depth + 1);
  }

  /** All extents together contribute the slice of the content. */
  lemma ReadsAll(store: Store, id: BlobId, size: int, depth: nat, start: int, end: int, content: bytes)
    requires 0 < depth <= MAX_BLOB_DEPTH && id in store.blobs && store.blobs[id].kind.Composite?
    requires TiledExtents(store.ExtentRows(id), size) && 0 <= start <= end <= size
    requires Reads(store, store.ExtentRows(id), |store.ExtentRows(id)|, MAX_BLOB_DEPTH - depth, start, end, content)
    ensures |Visible(store, depth - 1, id)| == size && content == Visible(store, depth - 1, id)[start..end]
  {
    var rows := store.ExtentRows(id);
    forall j {:trigger StartsInPlace(rows, j)} | 0 <= j < |rows| ensures StartsInPlace(rows, j) {
    }
    ReadsJoined(store, rows, |rows|, MAX_BLOB_DEPTH - depth, start, end, content);
    ClipAllExtents(store, id, size, depth, start, end);
  }

  /** PostgreSQL `substring(value, position, length)` on bytea, position counted from one. */
  function Substring(value: bytes, position: int, length: int): bytes
    requires position >= 1 && length >= 0
  {
    value[Min(position - 1, |value|)..Min(position - 1 + length, |value|)]
  }

  /** At most 64 blobs, none of them twice. */
  ghost predicate PathOk(path: seq<BlobId>) {
    |path| <= MAX_BLOB_DEPTH && Distinct(path)
  }

  ghost predicate Distinct(path: seq<BlobId>) {
    path == [] || (path[|path| - 1] !in path[..|path| - 1] && Distinct(path[..|path| - 1]))
  }

  /** A blob that loads and whose layout is accepted, with offsets that obey the CHECK constraints
      of the tables and extents that lead to blobs of lower rank. */
  ghost predicate SoundBlob(store: Store, rank: map<BlobId, nat>, id: BlobId) {
    && id in store.blobs && id in rank
    && LoadBlob(store, id).Ok?
    && (store.blobs[id].kind.Chunked? ==> ChunkLayoutError(store, id, store.blobs[id]).None?)
    && (store.blobs[id].kind.Composite? ==>
          && ExtentLayoutError(store, id, store.blobs[id]).None?
          && SoundExtents(store, rank, id))
  }

  ghost predicate SoundExtents(store: Store, rank: map<BlobId, nat>, id: BlobId)
    requires id in rank
  {
    forall k :: k in store.ExtentRows(id) ==>
      var e := store.ExtentRows(id)[k];
      && e.length >= 0 && e.sourceOffset >= 0
      && e.source in rank && rank[e.source] < rank[id]
      && e.source in store.blobs && e.sourceOffset + e.length <= store.blobs[e.source].size
  }

  ghost predicate WellFormed(store: Store, rank: map<BlobId, nat>) {
    forall id {:trigger SoundBlob(store, rank, id)} :: id in store.blobs ==> SoundBlob(store, rank, id)
  }

  /** A walk that must succeed: the range lies in the blob, at most 64 blobs are nested from here,
      and every blob on the path ranks above this one. */
  ghost predicate Walkable(
    store: Store, rank: map<BlobId, nat>, path: seq<BlobId>, id: BlobId, start: int, length: int)
  {
    && WellFormed(store, rank)
    && id in store.blobs && id in rank
    && |path| + rank[id] < MAX_BLOB_DEPTH
    && (forall i :: 0 <= i < |path| ==> path[i] in rank && rank[id] < rank[path[i]])
    && 0 <= start && 0 <= length && start + length <= store.blobs[id].size
  }

  /** The same with the blob already on the path. */
  ghost predicate Entered(
    store: Store, rank: map<BlobId, nat>, path: seq<BlobId>, id: BlobId, start: int, end: int)
  {
    && WellFormed(store, rank)
    && id in store.blobs && id in rank
    && |path| + rank[id] <= MAX_BLOB_DEPTH
    && (forall i :: 0 <= i < |path| ==> path[i] in rank && rank[id] <= rank[path[i]])
    && 0 <= start <= end <= store.blobs[id].size
  }

  lemma WalkableBlob(
    store: Store, rank: map<BlobId, nat>, path: seq<BlobId>, id: BlobId, start: int, length: int)
    requires Walkable(store, rank, path, id, start, length)
    ensures id !in path && LoadBlob(store, id).Ok? && RangeEnd(start, length, store.blobs[id].size).Ok?
  {
    assert SoundBlob(store, rank, id);
  }

  lemma PathPush(path: seq<BlobId>, id: BlobId)
    requires PathOk(path) && |path| < MAX_BLOB_DEPTH && id !in path
    ensures PathOk(path + [id]) && (path + [id])[..|path + [id]| - 1] == path
  {
  }

  lemma EnteredPush(store: Store, rank: map<BlobId, nat>, path: seq<BlobId>, id: BlobId, start: int, length: int)
    requires Walkable(store, rank, path, id, start, length)
    ensures Entered(store, rank, path + [id], id, start, start + length)
  {
  }

  lemma WellFormedExtents(store: Store, rank: map<BlobId, nat>, id: BlobId)
    requires WellFormed(store, rank) && id in store.blobs && store.blobs[id].kind.Composite?
    ensures id in rank && SoundExtents(store, rank, id)
  {
    assert SoundBlob(store, rank, id);
  }

  // ----- depth does not matter

  /** The content of a blob of a well-formed store is the same at every depth that reaches its
      leaves. */
  lemma {:induction false} ContentDepth(store: Store, rank: map<BlobId, nat>, id: BlobId, d: nat, e: nat)
    requires WellFormed(store, rank) && id in store.blobs && id in rank && rank[id] < d && rank[id] < e
    ensures Content(store, id, d) == Content(store, id, e)
    decreases rank[id], 1, 0
  {
    if store.blobs[id].kind.Composite? {
      JoinedDepth(store, rank, id, |store.ExtentRows(id)|, d, e);
    }
  }

  lemma {:induction false} JoinedDepth(store: Store, rank: map<BlobId, nat>, id: BlobId, n: nat, d: nat, e: nat)
    requires WellFormed(store, rank) && id in store.blobs && id in rank && rank[id] < d && rank[id] < e
    requires store.blobs[id].kind.Composite?
    ensures JoinedExtents(store, store.ExtentRows(id), n, d) == JoinedExtents(store, store.ExtentRows(id), n, e)
    decreases rank[id], 0, n
  {
    if n > 0 {
      JoinedDepth(store, rank, id, n - 1, d, e);
      WellFormedExtents(store, rank, id);
      if n - 1 in store.ExtentRows(id) {
        var row := store.ExtentRows(id)[n - 1];
        ContentDepth(store, rank, row.source, d - 1, e - 1);
        JoinedAgree(store, store.ExtentRows(id), n, d, e);
      }
    }
  }

  lemma JoinedAgree(store: Store, rows: map<Int32, ExtentRow>, n: nat, d: nat, e: nat)
    requires 0 < n && 0 < d && 0 < e && n - 1 in rows
    requires JoinedExtents(store, rows, n - 1, d) == JoinedExtents(store, rows, n - 1, e)
    requires Content(store, rows[n - 1].source, d - 1) == Content(store, rows[n - 1].source, e - 1)
    ensures JoinedExtents(store, rows, n, d) == JoinedExtents(store, rows, n, e)
  {
  }

  /** What is seen of a blob below a path is its whole content, as long as the path leaves room for
      what is nested in it. */
  lemma VisibleAnywhere(store: Store, rank: map<BlobId, nat>, id: BlobId, depth: nat)
    requires WellFormed(store, rank) && id in store.blobs && id in rank && depth + rank[id] < MAX_BLOB_DEPTH
    ensures Visible(store, depth, id) == Visible(store, 0, id)
  {
    ContentDepth(store, rank, id, MAX_BLOB_DEPTH - depth, MAX_BLOB_DEPTH);
  }

  /** On a walkable composite every extent passes its own range check, and its clipped source
      range is walkable in turn. */
  lemma WalkableExtent(
    store: Store, rank: map<BlobId, nat>, path: seq<BlobId>, id: BlobId, k: int, start: int, end: int)
    requires Entered(store, rank, path, id, start, end)
    requires store.blobs[id].kind.Composite? && TiledExtents(store.ExtentRows(id), store.blobs[id].size)
    requires k in store.ExtentRows(id)
    ensures var e := store.ExtentRows(id)[k];
            && RangeEnd(e.logicalOffset, e.length, store.blobs[id].size).Ok?
            && var from, to := Max(start, e.logicalOffset), Min(end, e.logicalOffset + e.length);
            && var sourceStart := e.sourceOffset + (from - e.logicalOffset);
            from <= to ==> sourceStart <= I64_MAX && Walkable(store, rank, path, e.source, sourceStart, to - from)
  {
    var rows, size := store.ExtentRows(id), store.blobs[id].size;
    WellFormedExtents(store, rank, id);
    assert StartsInPlace(rows, k);
    ExtentOffsetMonotone(rows, k, |rows|);
    ExtentOffsetMonotone(rows, k + 1, |rows|);
  }

  class BlobWalker {
    const store: Store
    var path: seq<BlobId>
    var emitted: seq<bytes>

    constructor (store: Store)
      ensures this.store == store && path == [] && emitted == []
    {
      this.store := store;
      path, emitted := [], [];
    }

    /** Reads one inline value or chunk row in blocks of at most 1 MiB. */
    method EmitBoundedCell(cell: Option<bytes>, offset0: int, length0: int) returns (r: Outcome<()>)
      requires 0 <= offset0 && 0 <= length0 && offset0 + length0 <= I64_MAX
      modifies this`emitted
      ensures r.Ok? && length0 > 0 ==> cell.Some? && offset0 + length0 <= |cell.value|
      ensures r.Ok? ==> Emits(old(emitted), emitted, if length0 > 0 then cell.value[offset0..offset0 + length0] else [])
      ensures cell.Some? && offset0 + length0 <= |cell.value| <= I32_MAX ==> r.Ok?
    {
      var offset, length := offset0, length0;
      ghost var done: bytes := [];
      ghost var before := emitted;
      while length > 0
        invariant 0 <= length <= length0 && offset + length == offset0 + length0
        invariant length < length0 ==> cell.Some? && offset <= |cell.value| && done == cell.value[offset0..offset]
        invariant length == length0 ==> done == []
        invariant Emits(before, emitted, done)
      {
        var amount := Min(length, READ_BLOCK_BYTES);
        if offset + 1 > I32_MAX {
          return Corrupt("read offset exceeds integer");
        }
        if cell.None? {
          return Corrupt("bytes disappeared while hashing");
        }
        var block := Substring(cell.value, offset + 1, amount);
        if |block| != amount {
          return Corrupt("a bounded payload read returned fewer bytes than requested");
        }
        EmitsBlock(before, emitted, done, block);
        SliceGrows(cell.value, offset0, offset, amount);
        emitted := emitted + [block];
        done := done + block;
        offset, length := offset + amount, length - amount;
      }
      return Ok(());
    }

    /** Streams [start, start + length) of a blob.

        On every store: whatever happens, the path never repeats an id nor holds more than 64 of
        them; on success it is restored, and what was emitted is bounded blocks that concatenate
        to exactly that range of the blob's content.  On a well-formed store an in-range walk
        succeeds. */
    method StreamBlobRange(id: BlobId, start: int, length: int, ghost rank: map<BlobId, nat>) returns (r: Outcome<()>)
      requires PathOk(path)
      modifies this
      ensures PathOk(path)
      ensures r.Ok? ==> path == old(path) && |path| < MAX_BLOB_DEPTH
      ensures r.Ok? ==>
                var content := Visible(store, |path|, id);
                && id in store.blobs && |content| == store.blobs[id].size
                && 0 <= start <= start + length <= |content|
                && Emits(old(emitted), emitted, content[start..start + length])
      ensures Walkable(store, rank, old(path), id, start, length) ==> r.Ok?
      decreases MAX_BLOB_DEPTH - |path|, 0, 1
    {
      ghost var walkable := Walkable(store, rank, path, id, start, length);
      if walkable {
        WalkableBlob(store, rank, path, id, start, length);
      }
      if |path| >= MAX_BLOB_DEPTH {
        return Corrupt("blob extent nesting exceeds 64 levels");
      }
      if id in path {
        return Corrupt("blob extent graph contains a cycle");
      }
      var loaded := LoadBlob(store, id);
      if loaded.Corrupt? {
        return Corrupt(loaded.message);
      }
      var meta := loaded.value;
      var bound := RangeEnd(start, length, meta.size);
      if bound.Corrupt? {
        return Corrupt(bound.message);
      }
      if walkable {
        EnteredPush(store, rank, path, id, start, length);
      }
      r := StreamEntered(id, meta, start, bound.value, rank, walkable);
    }

    /** Streams a blob with its id on the path, and takes the id off again. */
    method StreamEntered(id: BlobId, meta: BlobRow, start: int, end: int, ghost rank: map<BlobId, nat>,
                         ghost walkable: bool)
      returns (r: Outcome<()>)
      requires LoadBlob(store, id) == Ok(meta) && 0 <= start <= end <= meta.size
      requires PathOk(path) && |path| < MAX_BLOB_DEPTH && id !in path
      requires walkable ==> Entered(store, rank, path + [id], id, start, end)
      modifies this
      ensures PathOk(path)
      ensures r.Ok? ==> path == old(path)
      ensures r.Ok? ==>
                var content := Visible(store, |path|, id);
                |content| == meta.size && Emits(old(emitted), emitted, content[start..end])
      ensures walkable ==> r.Ok?
      decreases MAX_BLOB_DEPTH - |path|, 0, 0
    {
      ghost var entry := path;
      PathPush(path, id);
      path := path + [id];
      r := StreamStored(id, meta, start, end, rank, walkable);
      if r.Ok? {
        path := path[..|path| - 1];
        assert path == entry;
      }
    }

    /** The dispatch on the storage kind, with the blob already on the path. */
    method StreamStored(id: BlobId, meta: BlobRow, start: int, end: int, ghost rank: map<BlobId, nat>,
                        ghost walkable: bool)
      returns (r: Outcome<()>)
      requires LoadBlob(store, id) == Ok(meta)
      requires 0 <= start <= end <= meta.size
      requires PathOk(path) && path != []
      requires walkable ==> Entered(store, rank, path, id, start, end)
      modifies this
      ensures PathOk(path)
      ensures r.Ok? ==> path == old(path)
      ensures r.Ok? ==>
                var content := Visible(store, |path| - 1, id);
                |content| == meta.size && Emits(old(emitted), emitted, content[start..end])
      ensures walkable ==> r.Ok?
      decreases MAX_BLOB_DEPTH - |path|, 5
    {
      match meta.kind {
        case Inline =>
          r := EmitBoundedCell(meta.inlined, start, end - start);
        case Chunked =>
          r := StreamChunks(id, meta, start, end, |path| - 1, rank);
        case Composite =>
          r := StreamExtents(id, meta, start, end, rank, walkable);
      }
    }

    method ValidateChunkLayout(id: BlobId, meta: BlobRow, ghost rank: map<BlobId, nat>) returns (r: Outcome<int>)
      requires id in store.blobs && meta == store.blobs[id]
      requires meta.chunkSize > 0 && meta.size >= 0 && meta.kind.Chunked?
      ensures r.Ok? ==> TiledChunks(store.ChunkRows(id), meta.chunkSize, meta.size) && r.value == |store.ChunkRows(id)|
      ensures WellFormed(store, rank) ==> r.Ok?
    {
      var layout := ChunkLayoutError(store, id, meta);
      if layout.Some? {
        assert !SoundBlob(store, rank, id);
        return Corrupt(layout.value);
      }
      ChunkLayout(store, id, meta);
      return Ok(ChunkCount(meta.size, meta.chunkSize));
    }

    method ValidateExtentLayout(id: BlobId, meta: BlobRow, ghost rank: map<BlobId, nat>) returns (r: Outcome<int>)
      requires id in store.blobs && meta == store.blobs[id] && meta.kind.Composite?
      ensures r.Ok? ==> TiledExtents(store.ExtentRows(id), meta.size) && r.value == |store.ExtentRows(id)|
      ensures WellFormed(store, rank) ==> r.Ok?
    {
      var layout := ExtentLayoutError(store, id, meta);
      if layout.Some? {
        assert !SoundBlob(store, rank, id);
        return Corrupt(layout.value);
      }
      ExtentLayout(store, id, meta);
      return Ok(|store.ExtentRows(id)|);
    }

    method StreamChunks(id: BlobId, meta: BlobRow, start: int, end: int, ghost depth: nat, ghost rank: map<BlobId, nat>)
      returns (r: Outcome<()>)
      requires depth < MAX_BLOB_DEPTH
      requires id in store.blobs && meta == store.blobs[id]
      requires meta.kind.Chunked? && meta.chunkSize > 0 && meta.size >= 0
      requires 0 <= start <= end <= meta.size
      modifies this`emitted
      ensures r.Ok? ==>
                var content := Visible(store, depth, id);
                |content| == meta.size && Emits(old(emitted), emitted, content[start..end])
      ensures WellFormed(store, rank) ==> r.Ok?
    {
      var layout := ValidateChunkLayout(id, meta, rank);
      if layout.Corrupt? {
        return Corrupt(layout.message);
      }
      var rows := store.ChunkRows(id);
      TiledSize(rows, meta.chunkSize, meta.size);
      if start == end {
        EmitsNothing(emitted, []);
        return Ok(());
      }
      r := StreamChunkRows(rows, meta.chunkSize, meta.size, start, end);
    }

    /** The loop over the chunks that meet the range. */
    method StreamChunkRows(rows: map<Int32, bytes>, chunkSize: Int32, size: Int64, start: int, end: int)
      returns (r: Outcome<()>)
      requires TiledChunks(rows, chunkSize, size) && 0 <= start < end <= size
      modifies this`emitted
      ensures r.Ok? && end <= |JoinedChunks(rows, |rows|)|
      ensures Emits(old(emitted), emitted, JoinedChunks(rows, |rows|)[start..end])
    {
      var first, last := start / chunkSize, (end - 1) / chunkSize;
      ghost var base := emitted;
      ClipFirst(rows, chunkSize, size, start, end);
      EmitsNothing(emitted, ChunksRead(rows, first, start, end));
      var seq64 := first;
      while seq64 <= last
        invariant first <= seq64 <= last + 1
        invariant Emits(base, emitted, ChunksRead(rows, seq64, start, end))
      {
        r := StreamChunk(rows, seq64, chunkSize, size, start, end, base);
        seq64 := seq64 + 1;
      }
      ClipLast(rows, chunkSize, size, start, end);
      return Ok(());
    }

    /** One iteration of the chunk loop; after the layout checks none of its guards can fire. */
    method StreamChunk(rows: map<Int32, bytes>, seq64: int, chunkSize: Int32, size: Int64, start: int, end: int,
                       ghost base: seq<bytes>)
      returns (r: Outcome<()>)
      requires TiledChunks(rows, chunkSize, size) && 0 <= start < end <= size
      requires 0 <= seq64 && start / chunkSize <= seq64 <= (end - 1) / chunkSize
      requires Emits(base, emitted, ChunksRead(rows, seq64, start, end))
      modifies this`emitted
      ensures r.Ok? && Emits(base, emitted, ChunksRead(rows, seq64 + 1, start, end))
    {
      ChunkFits(rows, seq64, chunkSize, size, start, end);
      if seq64 > I32_MAX {
        return Corrupt("chunk sequence exceeds integer");
      }
      var chunkStart := seq64 * chunkSize;
      if chunkStart > I64_MAX {
        return Corrupt("chunk offset overflows bigint");
      }
      if chunkStart + chunkSize > I64_MAX {
        return Corrupt("chunk end overflows bigint");
      }
      var from, to := Max(start, chunkStart), Min(end, chunkStart + chunkSize);
      ghost var before := emitted;
      r := EmitBoundedCell(Some(rows[seq64]), from - chunkStart, to - from);
      ChunkStep(rows, seq64, chunkStart, chunkSize, size, start, end, from, to, base, before, emitted);
    }

    method StreamExtents(id: BlobId, meta: BlobRow, start: int, end: int, ghost rank: map<BlobId, nat>,
                            ghost walkable: bool)
      returns (r: Outcome<()>)
      requires id in store.blobs && meta == store.blobs[id] && meta.kind.Composite?
      requires 0 <= start <= end <= meta.size
      requires PathOk(path) && path != []
      requires walkable ==> Entered(store, rank, path, id, start, end)
      modifies this
      ensures PathOk(path)
      ensures r.Ok? ==> path == old(path)
      ensures r.Ok? ==>
                var content := Visible(store, |path| - 1, id);
                |content| == meta.size && Emits(old(emitted), emitted, content[start..end])
      ensures walkable ==> r.Ok?
      decreases MAX_BLOB_DEPTH - |path|, 4
    {
      var layout := ValidateExtentLayout(id, meta, rank);
      if layout.Corrupt? {
        return Corrupt(layout.message);
      }
      ghost var content;
      r, content := StreamExtentRows(id, meta, start, end, rank, walkable);
      if r.Ok? {
        ReadsAll(store, id, meta.size, |path|, start, end, content);
      }
    }

    method StreamExtentRows(id: BlobId, meta: BlobRow, start: int, end: int, ghost rank: map<BlobId, nat>,
                            ghost walkable: bool)
      returns (r: Outcome<()>, ghost content: bytes)
      requires id in store.blobs && meta == store.blobs[id] && meta.kind.Composite?
      requires TiledExtents(store.ExtentRows(id), meta.size)
      requires 0 <= start <= end <= meta.size
      requires PathOk(path) && path != []
      requires walkable ==> Entered(store, rank, path, id, start, end)
      modifies this
      ensures PathOk(path)
      ensures r.Ok? ==> path == old(path)
      ensures r.Ok? ==>
                var rows := store.ExtentRows(id);
                && Reads(store, rows, |rows|, MAX_BLOB_DEPTH - |path|, start, end, content)
                && Emits(old(emitted), emitted, content)
      ensures walkable ==> r.Ok?
      decreases MAX_BLOB_DEPTH - |path|, 3
    {
      var rows := store.ExtentRows(id);
      ghost var entry, depth, base := path, MAX_BLOB_DEPTH - |path|, emitted;
      content := [];
      var seq64 := 0;
      EmitsNothing(emitted, []);
      while seq64 < |rows|
        invariant 0 <= seq64 <= |rows|
        invariant path == entry
        invariant Reads(store, rows, seq64, depth, start, end, content)
        invariant Emits(base, emitted, content)
      {
        ghost var before, part := emitted, [];
        r, part := StreamExtent(id, meta, rows, seq64, start, end, rank, walkable);
        if r.Corrupt? {
          return;
        }
        EmitsThen(base, before, emitted, content, part);
        ReadsStep(store, rows, seq64, depth, start, end, content, part);
        content := content + part;
        seq64 := seq64 + 1;
      }
      r := Ok(());
    }

    /** One iteration of the extent loop: an extent outside the range emits nothing, any other
        emits the overlap of its piece with the range. */
    method StreamExtent(id: BlobId, meta: BlobRow, rows: map<Int32, ExtentRow>, seq64: int, start: int, end: int,
                        ghost rank: map<BlobId, nat>, ghost walkable: bool)
      returns (r: Outcome<()>, ghost part: bytes)
      requires id in store.blobs && meta == store.blobs[id] && meta.kind.Composite? && rows == store.ExtentRows(id)
      requires 0 <= start <= end <= meta.size
      requires PathOk(path) && path != []
      requires walkable ==> Entered(store, rank, path, id, start, end)
      requires TiledExtents(rows, meta.size) && seq64 in rows
      modifies this
      ensures PathOk(path)
      ensures r.Ok? ==> path == old(path) && rows[seq64].length >= 0
      ensures r.Ok? ==> Emits(old(emitted), emitted, part)
      ensures r.Ok? ==>
                Contributes(Visible(store, |path|, rows[seq64].source), rows[seq64], start, end, part)
      ensures walkable ==> r.Ok?
      decreases MAX_BLOB_DEPTH - |path|, 1
    {
      part := [];
      if seq64 > I32_MAX {
        return Corrupt("extent sequence exceeds integer"), [];
      }
      var extent := rows[seq64];
      var bound := RangeEnd(extent.logicalOffset, extent.length, meta.size);
      if walkable {
        WalkableExtent(store, rank, path, id, seq64, start, end);
      }
      if bound.Corrupt? {
        return Corrupt(bound.message), [];
      }
      var extentEnd := bound.value;
      if extent.length == 0 || extent.logicalOffset >= end || extentEnd <= start {
        return Ok(()), [];
      }
      var from, to := Max(start, extent.logicalOffset), Min(end, extentEnd);
      var sourceStart := extent.sourceOffset + (from - extent.logicalOffset);
      if sourceStart > I64_MAX {
        return Corrupt("source extent offset overflows bigint"), [];
      }
      r := StreamBlobRange(extent.source, sourceStart, to - from, rank);
      if r.Ok? {
        part := Visible(store, |path|, extent.source)[sourceStart..sourceStart + (to - from)];
      }
    }
  }
}
