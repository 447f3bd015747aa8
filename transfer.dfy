/** The chunked transfer of a region: the frames `writeDataFromBuffer` sends
    for pages pageStart..pageEnd and columns colStart..colEnd, reading the
    staged bytes in order, and what those frames carry. */
module Transfer {
  import opened Ssd1315Defs
  import opened Commands
  import opened Geometry

  /** Pixel bytes per data frame: the transfer limit less the control byte. */
  const CHUNK_SIZE: int := I2C_BUFFER_SIZE - 1

  function Min(a: int, b: int): int {
    if a < b then a else b
  }

  /** One pass of the column loop of `writeDataFromBuffer` in 32-bit `int`
      arithmetic: the chunk it sends from `col`, and the column `col += chunk`
      leaves behind. */
  function ChunkInt32(col: int, colEnd: int): int {
    Min(CHUNK_SIZE, Wrap32(Wrap32(colEnd - col) + 1))
  }

  function NextColumnInt32(col: int, colEnd: int): int {
    Wrap32(col + ChunkInt32(col, colEnd))
  }

  /** A run that ends at the largest `int` passes the column check as written
      with a DATA_SIZE the capacity test accepts, and the column loop then never
      ends: the first `col += chunk` wraps to the smallest `int`, still at most
      colEnd, and from there `colEnd - col + 1` wraps to 0, so every later pass
      sends the control byte alone and leaves `col` where it is. */
  lemma {:induction false} ColumnLoopInt32Stalls()
    ensures CheckColumnsInt32(0x7FFF_FFF8, 8) && !CheckColumns(0x7FFF_FFF8, 8)
    ensures CheckRows(0, 8) && !CapacityTestFires(DataSize(8, 8))
    ensures Wrap32(Wrap32(0x7FFF_FFF8 + 8) - 1) == 0x7FFF_FFFF
    ensures ChunkInt32(0x7FFF_FFF8, 0x7FFF_FFFF) == 8
    ensures NextColumnInt32(0x7FFF_FFF8, 0x7FFF_FFFF) == -0x8000_0000
    ensures ChunkInt32(-0x8000_0000, 0x7FFF_FFFF) == 0
    ensures NextColumnInt32(-0x8000_0000, 0x7FFF_FFFF) == -0x8000_0000
  {
  }

  /** The frames that select column `col`: `ColumnStartFrames` of the column
      converted to a byte, as the C call converts its `int` argument to `uint8_t`. */
  function ColumnSelect(col: int): seq<Frame> {
    ColumnStartFrames((col % 256) as bv8)
  }

  /** The frame that selects page `page`: `PageStartCmd` of the page
      converted to a byte, as the C call converts its `int` argument to `uint8_t`. */
  function PageSelect(page: int): Frame {
    PageStartCmd((page % 256) as bv8)
  }

  /** What the transfer relies on from a column-select encoder: two command
      frames per column of the surface, neither of them a page select. */
  predicate SelectsColumns(selectColumn: int -> seq<Frame>) {
    && TwoFrames(selectColumn)
    && forall c :: 0 <= c < COL_COUNT ==>
      && IsCommandFrame(selectColumn(c)[0]) && IsCommandFrame(selectColumn(c)[1])
      && SelectedPage(selectColumn(c)[0]) == [] && SelectedPage(selectColumn(c)[1]) == []
  }

  /** Every column of the surface is selected by two frames. */
  predicate TwoFrames(selectColumn: int -> seq<Frame>) {
    forall c :: 0 <= c < COL_COUNT ==> |selectColumn(c)| == 2
  }

  /** What the transfer relies on from a page-select encoder: per page of the
      surface one command frame that selects that page. */
  predicate SelectsPages(selectPage: int -> Frame) {
    forall p :: 0 <= p < PAGE_COUNT ==> IsCommandFrame(selectPage(p)) && SelectedPage(selectPage(p)) == [p]
  }

  /** Frames sent for one page, from column `col` to `colEnd`, reading the
      page's bytes from `staged[k..]`: per chunk the column select `selectColumn(col)`
      of the current column and a data frame of at most CHUNK_SIZE bytes.
      The transfer passes `ColumnSelect`; the structure lemmas below hold for
      any encoder satisfying `SelectsColumns`. */
  function RowFrames(selectColumn: int -> seq<Frame>, col: int, colEnd: int, staged: seq<bv8>, k: int): seq<Frame>
    requires 0 <= col <= colEnd + 1 <= COL_COUNT
    requires 0 <= k && k + (colEnd - col + 1) <= |staged|
    decreases colEnd - col
  {
    if col > colEnd then []
    else
      var n := Min(CHUNK_SIZE, colEnd - col + 1);
      selectColumn(col) + [DataFrame(staged, k, n)] + RowFrames(selectColumn, col + n, colEnd, staged, k + n)
  }

  /** The data frame carrying staged[k..k + n]: the data control byte, then the bytes. */
  function DataFrame(staged: seq<bv8>, k: int, n: int): Frame
    requires 0 <= k <= k + n <= |staged|
  {
    [DATA] + staged[k..k + n]
  }

  /** Bytes a region of pages page..pageEnd and columns colStart..colEnd holds. */
  function RegionBytes(page: int, pageEnd: int, colStart: int, colEnd: int): nat
    requires page <= pageEnd + 1 && colStart <= colEnd
  {
    Times(pageEnd - page + 1, colEnd - colStart + 1)
  }

  /** `a` times `b`, as `a` additions of `b`: the transfer counts pages of
      equal width and chunks of equal size one at a time, so the proofs
      about it step through this sum. */
  function Times(a: nat, b: nat): nat {
    if a == 0 then 0 else b + Times(a - 1, b)
  }

  /** The repeated sum is the product. */
  lemma {:induction false} TimesProduct(a: nat, b: nat)
    ensures Times(a, b) == a * b
  {
    if a > 0 {
      TimesProduct(a - 1, b);
      assert a * b == b + (a - 1) * b;
    }
  }

  /** A region of the surface holds at most the whole surface's bytes. */
  lemma {:induction false} RegionFitsSurface(page: int, pageEnd: int, colStart: int, colEnd: int)
    requires 0 <= page <= pageEnd + 1 <= PAGE_COUNT && 0 <= colStart <= colEnd < COL_COUNT
    ensures RegionBytes(page, pageEnd, colStart, colEnd) <= BUFF_SIZE
  {
    var pages := pageEnd - page + 1;
    var w := colEnd - colStart + 1;
    TimesProduct(pages, w);
    assert pages * w <= PAGE_COUNT * w <= PAGE_COUNT * COL_COUNT;
  }

  /** A region of at least one page is its first page's row and the rest. */
  lemma {:induction false} RegionBytesStep(page: int, pageEnd: int, colStart: int, colEnd: int)
    requires page <= pageEnd && colStart <= colEnd
    ensures RegionBytes(page, pageEnd, colStart, colEnd) == (colEnd - colStart + 1) + RegionBytes(page + 1, pageEnd, colStart, colEnd)
  {
  }

  /** A region with no pages left holds no bytes. */
  lemma {:induction false} RegionBytesEmpty(page: int, pageEnd: int, colStart: int, colEnd: int)
    requires page == pageEnd + 1 && colStart <= colEnd
    ensures RegionBytes(page, pageEnd, colStart, colEnd) == 0
  {
  }

  /** Frames sent for pages `page`..`pageEnd`: per page a page select, then the
      page's row of chunks; the bytes of consecutive pages follow each other in `staged`. */
  function RegionFrames(selectPage: int -> Frame, selectColumn: int -> seq<Frame>, page: int, pageEnd: int, colStart: int, colEnd: int, staged: seq<bv8>, k: int): seq<Frame>
    requires 0 <= page <= pageEnd + 1 <= PAGE_COUNT
    requires 0 <= colStart <= colEnd < COL_COUNT
    requires 0 <= k && k + RegionBytes(page, pageEnd, colStart, colEnd) <= |staged|
    decreases pageEnd - page
  {
    if page > pageEnd then []
    else
      var w := colEnd - colStart + 1;
      RegionBytesStep(page, pageEnd, colStart, colEnd);
      [selectPage(page)] + RowFrames(selectColumn, colStart, colEnd, staged, k)
        + RegionFrames(selectPage, selectColumn, page + 1, pageEnd, colStart, colEnd, staged, k + w)
  }

  // ---- Observations of a frame sequence ----

  /** A pixel-data frame: the data control byte followed by pixel bytes. */
  predicate IsDataFrame(f: Frame) {
    |f| >= 1 && f[0] == DATA
  }

  /** What an observer collects from a frame sequence, frame by frame, in order. */
  function Collect<T>(fs: seq<Frame>, pick: Frame -> seq<T>): seq<T> {
    if fs == [] then [] else pick(fs[0]) + Collect(fs[1..], pick)
  }

  function PixelBytes(f: Frame): seq<bv8> {
    if IsDataFrame(f) then f[1..] else []
  }

  function ChunkLength(f: Frame): seq<int> {
    if IsDataFrame(f) then [|f| - 1] else []
  }

  function SelectedPage(f: Frame): seq<int> {
    if IsPageSelect(f) then [(f[1] & 0x07) as int] else []
  }

  /** The pixel bytes of all data frames, concatenated in order. */
  function Payload(fs: seq<Frame>): seq<bv8> {
    Collect(fs, PixelBytes)
  }

  /** The payload length of each data frame, in order. */
  function ChunkLengths(fs: seq<Frame>): seq<int> {
    Collect(fs, ChunkLength)
  }

  /** The pages selected by page-select frames, in order. */
  function PagesSelected(fs: seq<Frame>): seq<int> {
    Collect(fs, SelectedPage)
  }

  lemma {:induction false} CollectAppend<T>(a: seq<Frame>, b: seq<Frame>, pick: Frame -> seq<T>)
    ensures Collect(a + b, pick) == Collect(a, pick) + Collect(b, pick)
  {
    if a == [] {
      assert a + b == b;
    } else {
      assert (a + b)[1..] == a[1..] + b;
      CollectAppend(a[1..], b, pick);
    }
  }

  // ---- Chunking of one page ----

  /** Chunk lengths the inner loop produces for `n` columns. */
  function Chunks(n: int): seq<int>
    decreases n
  {
    if n <= 0 then [] else [Min(CHUNK_SIZE, n)] + Chunks(n - Min(CHUNK_SIZE, n))
  }

  /** Chunks needed for `n` columns: one per CHUNK_SIZE columns begun. */
  function ChunkCount(n: int): nat
    decreases n
  {
    if n <= 0 then 0 else 1 + ChunkCount(n - CHUNK_SIZE)
  }

  /** ChunkCount(n) is the ceiling of n / CHUNK_SIZE. */
  lemma {:induction false} ChunkCountCeiling(n: nat)
    ensures ChunkCount(n) == (n + CHUNK_SIZE - 1) / CHUNK_SIZE
    decreases n
  {
    if n > CHUNK_SIZE {
      ChunkCountCeiling(n - CHUNK_SIZE);
      assert n + CHUNK_SIZE - 1 == (n - CHUNK_SIZE + CHUNK_SIZE - 1) + CHUNK_SIZE;
    }
  }

  /** Chunk `j` of a row of `n` columns starts at column offset
      Times(j, CHUNK_SIZE), which lies inside the row. */
  lemma {:induction false} ChunkIndexInRow(n: int, j: nat)
    requires j < ChunkCount(n)
    ensures Times(j, CHUNK_SIZE) < n
    decreases j
  {
    if j > 0 {
      ChunkIndexInRow(n - CHUNK_SIZE, j - 1);
    }
  }

  function Sum(xs: seq<int>): int {
    if xs == [] then 0 else xs[0] + Sum(xs[1..])
  }

  /** `n` columns go out in ChunkCount(n) chunks of 1..CHUNK_SIZE bytes that
      add up to n; every chunk but the last is full. */
  lemma {:induction false} ChunksSplitWidth(n: nat)
    ensures |Chunks(n)| == ChunkCount(n)
    ensures Sum(Chunks(n)) == n
    ensures forall i :: 0 <= i < |Chunks(n)| ==> 1 <= Chunks(n)[i] <= CHUNK_SIZE
    ensures forall i :: 0 <= i < |Chunks(n)| - 1 ==> Chunks(n)[i] == CHUNK_SIZE
  {
    if n > 0 {
      var m := Min(CHUNK_SIZE, n);
      ChunksSplitWidth(n - m);
      assert Chunks(n) == [m] + Chunks(n - m);
      ChunkCountStep(n);
    }
  }

  /** The frames of one page, chunk by chunk: chunk j selects column
      col + CHUNK_SIZE * j and carries the next min(CHUNK_SIZE, remaining) staged bytes. */
  lemma {:induction false} RowFramesAt(selectColumn: int -> seq<Frame>, col: int, colEnd: int, staged: seq<bv8>, k: int, j: int)
    requires SelectsColumns(selectColumn)
    requires 0 <= col <= colEnd < COL_COUNT
    requires 0 <= k && k + (colEnd - col + 1) <= |staged|
    requires 0 <= j && CHUNK_SIZE * j <= colEnd - col
    ensures 3 * j + 2 < |RowFrames(selectColumn, col, colEnd, staged, k)|
    ensures RowFrames(selectColumn, col, colEnd, staged, k)[3 * j] == selectColumn(col + CHUNK_SIZE * j)[0]
    ensures RowFrames(selectColumn, col, colEnd, staged, k)[3 * j + 1] == selectColumn(col + CHUNK_SIZE * j)[1]
    ensures RowFrames(selectColumn, col, colEnd, staged, k)[3 * j + 2]
            == DataFrame(staged, k + CHUNK_SIZE * j, Min(CHUNK_SIZE, colEnd - (col + CHUNK_SIZE * j) + 1))
  {
    TimesProduct(j, CHUNK_SIZE);
    RowChunkAt(selectColumn, col, colEnd, staged, k, j, col + CHUNK_SIZE * j, k + CHUNK_SIZE * j);
  }

  /** `RowFramesAt` with chunk `j`'s column `c` = col + Times(j, CHUNK_SIZE)
      and staged index `m` named. */
  lemma {:induction false} RowChunkAt(selectColumn: int -> seq<Frame>, col: int, colEnd: int, staged: seq<bv8>, k: int, j: int, c: int, m: int)
    requires TwoFrames(selectColumn)
    requires 0 <= col <= colEnd < COL_COUNT
    requires 0 <= k && k + (colEnd - col + 1) <= |staged|
    requires 0 <= j && c == col + Times(j, CHUNK_SIZE) && c <= colEnd && m == k + (c - col)
    decreases j
    ensures 3 * j + 2 < |RowFrames(selectColumn, col, colEnd, staged, k)|
    ensures RowFrames(selectColumn, col, colEnd, staged, k)[3 * j] == selectColumn(c)[0]
    ensures RowFrames(selectColumn, col, colEnd, staged, k)[3 * j + 1] == selectColumn(c)[1]
    ensures RowFrames(selectColumn, col, colEnd, staged, k)[3 * j + 2] == DataFrame(staged, m, Min(CHUNK_SIZE, colEnd - c + 1))
  {
    if j == 0 {
      assert c == col && m == k;
      RowFramesFirst(selectColumn, col, colEnd, staged, k);
    } else {
      RowChunkAt(selectColumn, col + CHUNK_SIZE, colEnd, staged, k + CHUNK_SIZE, j - 1, c, m);
      RowChunkAtStep(selectColumn, col, colEnd, staged, k, j, c, m);
    }
  }

  /** The inductive step of `RowChunkAt`. */
  lemma {:induction false} RowChunkAtStep(selectColumn: int -> seq<Frame>, col: int, colEnd: int, staged: seq<bv8>, k: int, j: int, c: int, m: int)
    requires TwoFrames(selectColumn)
    requires 0 <= col && col + CHUNK_SIZE <= colEnd < COL_COUNT
    requires 0 <= k && k + (colEnd - col + 1) <= |staged|
    requires 1 <= j && col <= c <= colEnd && m == k + (c - col)
    requires 3 * (j - 1) + 2 < |RowFrames(selectColumn, col + CHUNK_SIZE, colEnd, staged, k + CHUNK_SIZE)|
    requires RowFrames(selectColumn, col + CHUNK_SIZE, colEnd, staged, k + CHUNK_SIZE)[3 * (j - 1)] == selectColumn(c)[0]
    requires RowFrames(selectColumn, col + CHUNK_SIZE, colEnd, staged, k + CHUNK_SIZE)[3 * (j - 1) + 1] == selectColumn(c)[1]
    requires RowFrames(selectColumn, col + CHUNK_SIZE, colEnd, staged, k + CHUNK_SIZE)[3 * (j - 1) + 2] == DataFrame(staged, m, Min(CHUNK_SIZE, colEnd - c + 1))
    ensures 3 * j + 2 < |RowFrames(selectColumn, col, colEnd, staged, k)|
    ensures RowFrames(selectColumn, col, colEnd, staged, k)[3 * j] == selectColumn(c)[0]
    ensures RowFrames(selectColumn, col, colEnd, staged, k)[3 * j + 1] == selectColumn(c)[1]
    ensures RowFrames(selectColumn, col, colEnd, staged, k)[3 * j + 2] == DataFrame(staged, m, Min(CHUNK_SIZE, colEnd - c + 1))
  {
    RowFramesLater(selectColumn, col, colEnd, staged, k, j);
  }

  /** The first three frames of a row: the first chunk's column select and data frame. */
  lemma {:induction false} RowFramesFirst(selectColumn: int -> seq<Frame>, col: int, colEnd: int, staged: seq<bv8>, k: int)
    requires TwoFrames(selectColumn)
    requires 0 <= col <= colEnd < COL_COUNT
    requires 0 <= k && k + (colEnd - col + 1) <= |staged|
    ensures 3 <= |RowFrames(selectColumn, col, colEnd, staged, k)|
    ensures RowFrames(selectColumn, col, colEnd, staged, k)[0] == selectColumn(col)[0]
    ensures RowFrames(selectColumn, col, colEnd, staged, k)[1] == selectColumn(col)[1]
    ensures RowFrames(selectColumn, col, colEnd, staged, k)[2] == DataFrame(staged, k, Min(CHUNK_SIZE, colEnd - col + 1))
  {
    var head := selectColumn(col) + [DataFrame(staged, k, Min(CHUNK_SIZE, colEnd - col + 1))];
    assert RowFrames(selectColumn, col, colEnd, staged, k)
           == head + RowFrames(selectColumn, col + Min(CHUNK_SIZE, colEnd - col + 1), colEnd, staged, k + Min(CHUNK_SIZE, colEnd - col + 1));
  }

  /** Past a full first chunk, chunk `j` of a row is chunk `j - 1` of the rest of the row. */
  lemma {:induction false} RowFramesLater(selectColumn: int -> seq<Frame>, col: int, colEnd: int, staged: seq<bv8>, k: int, j: int)
    requires TwoFrames(selectColumn)
    requires 0 <= col && col + CHUNK_SIZE <= colEnd < COL_COUNT
    requires 0 <= k && k + (colEnd - col + 1) <= |staged|
    requires 1 <= j && 3 * (j - 1) + 2 < |RowFrames(selectColumn, col + CHUNK_SIZE, colEnd, staged, k + CHUNK_SIZE)|
    ensures 3 * j + 2 < |RowFrames(selectColumn, col, colEnd, staged, k)|
    ensures var fs, later := RowFrames(selectColumn, col, colEnd, staged, k), RowFrames(selectColumn, col + CHUNK_SIZE, colEnd, staged, k + CHUNK_SIZE);
      fs[3 * j] == later[3 * (j - 1)] && fs[3 * j + 1] == later[3 * (j - 1) + 1] && fs[3 * j + 2] == later[3 * (j - 1) + 2]
  {
    var head := selectColumn(col) + [DataFrame(staged, k, CHUNK_SIZE)];
    var rest := RowFrames(selectColumn, col + CHUNK_SIZE, colEnd, staged, k + CHUNK_SIZE);
    assert RowFrames(selectColumn, col, colEnd, staged, k) == head + rest;
    LaterChunk(head + rest, rest, j);
  }

  /** Frames 3j..3j+2 of a row are frames 3(j-1)..3(j-1)+2 of the row past its first chunk. */
  lemma {:induction false} LaterChunk(fs: seq<Frame>, later: seq<Frame>, j: int)
    requires 1 <= j && |fs| == 3 + |later| && fs[3..] == later && 3 * (j - 1) + 2 < |later|
    ensures 3 * j + 2 < |fs|
    ensures fs[3 * j] == later[3 * (j - 1)] && fs[3 * j + 1] == later[3 * (j - 1) + 1] && fs[3 * j + 2] == later[3 * (j - 1) + 2]
  {
  }

  /** An observer of a chunk or a page: the select frames' share, the one
      frame's share, the rest's share. */
  lemma {:induction false} CollectChunk<T>(a: seq<Frame>, d: Frame, b: seq<Frame>, pick: Frame -> seq<T>)
    ensures Collect(a + [d] + b, pick) == Collect(a, pick) + pick(d) + Collect(b, pick)
  {
    CollectAppend(a + [d], b, pick);
    CollectAppend(a, [d], pick);
    assert [d][1..] == [];
  }

  lemma {:induction false} CollectCons<T>(d: Frame, b: seq<Frame>, pick: Frame -> seq<T>)
    ensures Collect([d] + b, pick) == pick(d) + Collect(b, pick)
  {
    assert ([d] + b)[1..] == b;
  }

  /** A column select carries no pixels and selects no page. */
  lemma {:induction false} ColumnSelectFrames(selectColumn: int -> seq<Frame>, col: int)
    requires SelectsColumns(selectColumn)
    requires 0 <= col < COL_COUNT
    ensures PagesSelected(selectColumn(col)) == []
    ensures Payload(selectColumn(col)) == [] && ChunkLengths(selectColumn(col)) == []
  {
    var cs := selectColumn(col);
    assert cs == [cs[0]] + [cs[1]];
    CollectNothing(cs, SelectedPage);
    CollectNothing(cs, PixelBytes);
    CollectNothing(cs, ChunkLength);
  }

  /** An observer that picks nothing from any frame collects nothing. */
  lemma {:induction false} CollectNothing<T>(fs: seq<Frame>, pick: Frame -> seq<T>)
    requires forall i :: 0 <= i < |fs| ==> pick(fs[i]) == []
    ensures Collect(fs, pick) == []
  {
    if fs != [] {
      CollectNothing(fs[1..], pick);
    }
  }

  lemma {:induction false} CollectOne<T>(d: Frame, pick: Frame -> seq<T>)
    ensures Collect([d], pick) == pick(d)
  {
    assert [d][1..] == [];
  }

  /** One page sends three frames per chunk, ChunkCount(width) chunks in all. */
  lemma {:induction false} RowFramesLength(selectColumn: int -> seq<Frame>, col: int, colEnd: int, staged: seq<bv8>, k: int)
    requires TwoFrames(selectColumn)
    requires 0 <= col <= colEnd + 1 <= COL_COUNT
    requires 0 <= k && k + (colEnd - col + 1) <= |staged|
    ensures |RowFrames(selectColumn, col, colEnd, staged, k)| == 3 * ChunkCount(colEnd - col + 1)
    decreases colEnd - col
  {
    if col <= colEnd {
      var n := Min(CHUNK_SIZE, colEnd - col + 1);
      RowFramesLength(selectColumn, col + n, colEnd, staged, k + n);
      ChunkCountStep(colEnd - col + 1);
    }
  }

  /** Sending one chunk of `n` > 0 columns leaves one chunk fewer to send. */
  lemma {:induction false} ChunkCountStep(n: int)
    requires n > 0
    ensures ChunkCount(n) == 1 + ChunkCount(n - Min(CHUNK_SIZE, n))
  {
    if n <= CHUNK_SIZE {
      assert ChunkCount(n - CHUNK_SIZE) == 0;
    }
  }

  /** The data frames of one page have the chunk lengths of `Chunks`. */
  lemma {:induction false} RowFramesChunkLengths(selectColumn: int -> seq<Frame>, col: int, colEnd: int, staged: seq<bv8>, k: int)
    requires SelectsColumns(selectColumn)
    requires 0 <= col <= colEnd + 1 <= COL_COUNT
    requires 0 <= k && k + (colEnd - col + 1) <= |staged|
    ensures ChunkLengths(RowFrames(selectColumn, col, colEnd, staged, k)) == Chunks(colEnd - col + 1)
    decreases colEnd - col
  {
    if col <= colEnd {
      var n := Min(CHUNK_SIZE, colEnd - col + 1);
      RowFramesChunkLengths(selectColumn, col + n, colEnd, staged, k + n);
      RowFramesChunkLengthsStep(selectColumn, col, colEnd, staged, k);
    }
  }

  /** The inductive step of `RowFramesChunkLengths`. */
  lemma {:induction false} RowFramesChunkLengthsStep(selectColumn: int -> seq<Frame>, col: int, colEnd: int, staged: seq<bv8>, k: int)
    requires SelectsColumns(selectColumn)
    requires 0 <= col <= colEnd < COL_COUNT
    requires 0 <= k && k + (colEnd - col + 1) <= |staged|
    requires ChunkLengths(RowFrames(selectColumn, col + Min(CHUNK_SIZE, colEnd - col + 1), colEnd, staged, k + Min(CHUNK_SIZE, colEnd - col + 1))) == Chunks(colEnd - (col + Min(CHUNK_SIZE, colEnd - col + 1)) + 1)
    ensures ChunkLengths(RowFrames(selectColumn, col, colEnd, staged, k)) == Chunks(colEnd - col + 1)
  {
    ColumnSelectFrames(selectColumn, col);
    RowChunkStep(selectColumn(col), DataFrame(staged, k, Min(CHUNK_SIZE, colEnd - col + 1)), RowFrames(selectColumn, col + Min(CHUNK_SIZE, colEnd - col + 1), colEnd, staged, k + Min(CHUNK_SIZE, colEnd - col + 1)), ChunkLength);
  }

  /** An observer of a chunk and the rest of its row: the column select
      contributes nothing, then the data frame's share, then the rest's. */
  lemma {:induction false} RowChunkStep<T>(cs: seq<Frame>, d: Frame, rest: seq<Frame>, pick: Frame -> seq<T>)
    requires Collect(cs, pick) == []
    ensures Collect(cs + [d] + rest, pick) == pick(d) + Collect(rest, pick)
  {
    CollectChunk(cs, d, rest, pick);
  }

  /** The data frames of one page carry exactly the page's staged bytes, in order. */
  lemma {:induction false} RowFramesPayload(selectColumn: int -> seq<Frame>, col: int, colEnd: int, staged: seq<bv8>, k: int)
    requires SelectsColumns(selectColumn)
    requires 0 <= col <= colEnd + 1 <= COL_COUNT
    requires 0 <= k && k + (colEnd - col + 1) <= |staged|
    ensures Payload(RowFrames(selectColumn, col, colEnd, staged, k)) == staged[k..k + (colEnd - col + 1)]
    decreases colEnd - col
  {
    if col <= colEnd {
      var n := Min(CHUNK_SIZE, colEnd - col + 1);
      RowFramesPayload(selectColumn, col + n, colEnd, staged, k + n);
      RowFramesPayloadStep(selectColumn, col, colEnd, staged, k);
    }
  }

  /** The inductive step of `RowFramesPayload`: the first chunk's bytes, then the rest of the row's. */
  lemma {:induction false} RowFramesPayloadStep(selectColumn: int -> seq<Frame>, col: int, colEnd: int, staged: seq<bv8>, k: int)
    requires SelectsColumns(selectColumn)
    requires 0 <= col <= colEnd < COL_COUNT
    requires 0 <= k && k + (colEnd - col + 1) <= |staged|
    requires Payload(RowFrames(selectColumn, col + Min(CHUNK_SIZE, colEnd - col + 1), colEnd, staged, k + Min(CHUNK_SIZE, colEnd - col + 1)))
             == staged[k + Min(CHUNK_SIZE, colEnd - col + 1)..k + Min(CHUNK_SIZE, colEnd - col + 1) + (colEnd - (col + Min(CHUNK_SIZE, colEnd - col + 1)) + 1)]
    ensures Payload(RowFrames(selectColumn, col, colEnd, staged, k)) == staged[k..k + (colEnd - col + 1)]
  {
    ColumnSelectFrames(selectColumn, col);
    RowChunkStep(selectColumn(col), DataFrame(staged, k, Min(CHUNK_SIZE, colEnd - col + 1)), RowFrames(selectColumn, col + Min(CHUNK_SIZE, colEnd - col + 1), colEnd, staged, k + Min(CHUNK_SIZE, colEnd - col + 1)), PixelBytes);
    DataFramePixels(staged, k, Min(CHUNK_SIZE, colEnd - col + 1), k + Min(CHUNK_SIZE, colEnd - col + 1) + (colEnd - (col + Min(CHUNK_SIZE, colEnd - col + 1)) + 1));
  }

  /** A data frame's pixels followed by the bytes staged after them. */
  lemma {:induction false} DataFramePixels(staged: seq<bv8>, k: int, n: int, hi: int)
    requires 0 <= k <= k + n <= hi <= |staged|
    ensures PixelBytes(DataFrame(staged, k, n)) + staged[k + n..hi] == staged[k..hi]
  {
    assert DataFrame(staged, k, n)[1..] == staged[k..k + n];
    assert staged[k..hi] == staged[k..k + n] + staged[k + n..hi];
  }

  /** One page's frames select no page. */
  lemma {:induction false} RowFramesSelectNoPage(selectColumn: int -> seq<Frame>, col: int, colEnd: int, staged: seq<bv8>, k: int)
    requires SelectsColumns(selectColumn)
    requires 0 <= col <= colEnd + 1 <= COL_COUNT
    requires 0 <= k && k + (colEnd - col + 1) <= |staged|
    ensures PagesSelected(RowFrames(selectColumn, col, colEnd, staged, k)) == []
    decreases colEnd - col
  {
    if col <= colEnd {
      var n := Min(CHUNK_SIZE, colEnd - col + 1);
      RowFramesSelectNoPage(selectColumn, col + n, colEnd, staged, k + n);
      RowFramesSelectNoPageStep(selectColumn, col, colEnd, staged, k);
    }
  }

  /** The inductive step of `RowFramesSelectNoPage`. */
  lemma {:induction false} RowFramesSelectNoPageStep(selectColumn: int -> seq<Frame>, col: int, colEnd: int, staged: seq<bv8>, k: int)
    requires SelectsColumns(selectColumn)
    requires 0 <= col <= colEnd < COL_COUNT
    requires 0 <= k && k + (colEnd - col + 1) <= |staged|
    requires PagesSelected(RowFrames(selectColumn, col + Min(CHUNK_SIZE, colEnd - col + 1), colEnd, staged, k + Min(CHUNK_SIZE, colEnd - col + 1))) == []
    ensures PagesSelected(RowFrames(selectColumn, col, colEnd, staged, k)) == []
  {
    ColumnSelectFrames(selectColumn, col);
    RowChunkStep(selectColumn(col), DataFrame(staged, k, Min(CHUNK_SIZE, colEnd - col + 1)), RowFrames(selectColumn, col + Min(CHUNK_SIZE, colEnd - col + 1), colEnd, staged, k + Min(CHUNK_SIZE, colEnd - col + 1)), SelectedPage);
  }

  // ---- The whole region ----

  /** Every frame of a region transfer is either a command frame of 2..4
      bytes or a data frame of 2..I2C_BUFFER_SIZE bytes. */
  predicate WellFormed(fs: seq<Frame>) {
    forall i :: 0 <= i < |fs| ==>
      IsCommandFrame(fs[i]) || (IsDataFrame(fs[i]) && 2 <= |fs[i]| <= I2C_BUFFER_SIZE)
  }

  /** The ascending run of pages first..last. */
  function PageRange(first: int, last: int): seq<int>
    decreases last - first
  {
    if first > last then [] else [first] + PageRange(first + 1, last)
  }

  /** Every frame of one page's row is a command frame or a data frame within the transfer limit. */
  lemma {:induction false} RowFramesWellFormed(selectColumn: int -> seq<Frame>, col: int, colEnd: int, staged: seq<bv8>, k: int)
    requires SelectsColumns(selectColumn)
    requires 0 <= col <= colEnd < COL_COUNT
    requires 0 <= k && k + (colEnd - col + 1) <= |staged|
    ensures WellFormed(RowFrames(selectColumn, col, colEnd, staged, k))
  {
    var fs := RowFrames(selectColumn, col, colEnd, staged, k);
    RowFramesLength(selectColumn, col, colEnd, staged, k);
    forall i | 0 <= i < |fs|
      ensures IsCommandFrame(fs[i]) || (IsDataFrame(fs[i]) && 2 <= |fs[i]| <= I2C_BUFFER_SIZE)
    {
      var j := i / 3;
      ChunkIndexInRow(colEnd - col + 1, j);
      RowChunkAt(selectColumn, col, colEnd, staged, k, j, col + Times(j, CHUNK_SIZE), k + Times(j, CHUNK_SIZE));
    }
  }

  /** A page select carries no pixels and no chunk, and selects its page. */
  lemma {:induction false} PageSelectFrame(selectPage: int -> Frame, page: int)
    requires SelectsPages(selectPage)
    requires 0 <= page < PAGE_COUNT
    ensures SelectedPage(selectPage(page)) == [page]
    ensures PixelBytes(selectPage(page)) == [] && ChunkLength(selectPage(page)) == []
  {
  }

  /** A region transfer of at least one page: the page's select, its row, then the later pages. */
  lemma {:induction false} RegionFramesStep(selectPage: int -> Frame, selectColumn: int -> seq<Frame>, page: int, pageEnd: int, colStart: int, colEnd: int, staged: seq<bv8>, k: int)
    requires 0 <= page <= pageEnd < PAGE_COUNT
    requires 0 <= colStart <= colEnd < COL_COUNT
    requires 0 <= k && k + RegionBytes(page, pageEnd, colStart, colEnd) <= |staged|
    ensures k + (colEnd - colStart + 1) + RegionBytes(page + 1, pageEnd, colStart, colEnd) <= |staged|
    ensures RegionFrames(selectPage, selectColumn, page, pageEnd, colStart, colEnd, staged, k)
            == [selectPage(page)] + (RowFrames(selectColumn, colStart, colEnd, staged, k)
                + RegionFrames(selectPage, selectColumn, page + 1, pageEnd, colStart, colEnd, staged, k + (colEnd - colStart + 1)))
  {
    var w := colEnd - colStart + 1;
    RegionBytesStep(page, pageEnd, colStart, colEnd);
  }

  /** A region transfer selects every page from `page` to `pageEnd` once, in ascending order. */
  lemma {:induction false} RegionFramesPages(selectPage: int -> Frame, selectColumn: int -> seq<Frame>, page: int, pageEnd: int, colStart: int, colEnd: int, staged: seq<bv8>, k: int)
    requires SelectsPages(selectPage) && SelectsColumns(selectColumn)
    requires 0 <= page <= pageEnd + 1 <= PAGE_COUNT
    requires 0 <= colStart <= colEnd < COL_COUNT
    requires 0 <= k && k + RegionBytes(page, pageEnd, colStart, colEnd) <= |staged|
    ensures PagesSelected(RegionFrames(selectPage, selectColumn, page, pageEnd, colStart, colEnd, staged, k)) == PageRange(page, pageEnd)
    decreases pageEnd - page
  {
    if page <= pageEnd {
      RegionBytesStep(page, pageEnd, colStart, colEnd);
      RegionFramesPages(selectPage, selectColumn, page + 1, pageEnd, colStart, colEnd, staged, k + (colEnd - colStart + 1));
      RegionFramesPagesStep(selectPage, selectColumn, page, pageEnd, colStart, colEnd, staged, k);
    }
  }

  /** The inductive step of `RegionFramesPages`. */
  lemma {:induction false} RegionFramesPagesStep(selectPage: int -> Frame, selectColumn: int -> seq<Frame>, page: int, pageEnd: int, colStart: int, colEnd: int, staged: seq<bv8>, k: int)
    requires SelectsPages(selectPage) && SelectsColumns(selectColumn)
    requires 0 <= page <= pageEnd < PAGE_COUNT
    requires 0 <= colStart <= colEnd < COL_COUNT
    requires 0 <= k && k + RegionBytes(page, pageEnd, colStart, colEnd) <= |staged|
    requires k + (colEnd - colStart + 1) + RegionBytes(page + 1, pageEnd, colStart, colEnd) <= |staged|
    requires PagesSelected(RegionFrames(selectPage, selectColumn, page + 1, pageEnd, colStart, colEnd, staged, k + (colEnd - colStart + 1))) == PageRange(page + 1, pageEnd)
    ensures PagesSelected(RegionFrames(selectPage, selectColumn, page, pageEnd, colStart, colEnd, staged, k)) == PageRange(page, pageEnd)
  {
    RegionFramesStep(selectPage, selectColumn, page, pageEnd, colStart, colEnd, staged, k);
    RowFramesSelectNoPage(selectColumn, colStart, colEnd, staged, k);
    PageSelectFrame(selectPage, page);
    PagesStep(selectPage(page), page, pageEnd, RowFrames(selectColumn, colStart, colEnd, staged, k), RegionFrames(selectPage, selectColumn, page + 1, pageEnd, colStart, colEnd, staged, k + (colEnd - colStart + 1)));
  }

  /** The inductive step of `RegionFramesPagesStep`, over any page select,
      row and later frames. */
  lemma {:induction false} PagesStep(select: Frame, page: int, pageEnd: int, row: seq<Frame>, rest: seq<Frame>)
    requires page <= pageEnd
    requires SelectedPage(select) == [page] && PagesSelected(row) == []
    requires PagesSelected(rest) == PageRange(page + 1, pageEnd)
    ensures PagesSelected([select] + (row + rest)) == PageRange(page, pageEnd)
  {
    CollectPage(select, row, rest, SelectedPage);
  }

  /** An observer of a page's frames: the select's share, the row's, the later pages'. */
  lemma {:induction false} CollectPage<T>(x: Frame, row: seq<Frame>, rest: seq<Frame>, pick: Frame -> seq<T>)
    ensures Collect([x] + (row + rest), pick) == pick(x) + (Collect(row, pick) + Collect(rest, pick))
  {
    CollectCons(x, row + rest, pick);
    CollectAppend(row, rest, pick);
  }

  /** The data frames of a region transfer carry exactly the region's staged bytes, in order. */
  lemma {:induction false} RegionFramesPayload(selectPage: int -> Frame, selectColumn: int -> seq<Frame>, page: int, pageEnd: int, colStart: int, colEnd: int, staged: seq<bv8>, k: int)
    requires SelectsPages(selectPage) && SelectsColumns(selectColumn)
    requires 0 <= page <= pageEnd + 1 <= PAGE_COUNT
    requires 0 <= colStart <= colEnd < COL_COUNT
    requires 0 <= k && k + RegionBytes(page, pageEnd, colStart, colEnd) <= |staged|
    ensures Payload(RegionFrames(selectPage, selectColumn, page, pageEnd, colStart, colEnd, staged, k))
            == staged[k..k + RegionBytes(page, pageEnd, colStart, colEnd)]
    decreases pageEnd - page
  {
    if page <= pageEnd {
      RegionBytesStep(page, pageEnd, colStart, colEnd);
      RegionFramesPayload(selectPage, selectColumn, page + 1, pageEnd, colStart, colEnd, staged, k + (colEnd - colStart + 1));
      RegionFramesPayloadStep(selectPage, selectColumn, page, pageEnd, colStart, colEnd, staged, k);
    }
  }

  /** The inductive step of `RegionFramesPayload`. */
  lemma {:induction false} RegionFramesPayloadStep(selectPage: int -> Frame, selectColumn: int -> seq<Frame>, page: int, pageEnd: int, colStart: int, colEnd: int, staged: seq<bv8>, k: int)
    requires SelectsPages(selectPage) && SelectsColumns(selectColumn)
    requires 0 <= page <= pageEnd < PAGE_COUNT
    requires 0 <= colStart <= colEnd < COL_COUNT
    requires 0 <= k && k + RegionBytes(page, pageEnd, colStart, colEnd) <= |staged|
    requires k + (colEnd - colStart + 1) + RegionBytes(page + 1, pageEnd, colStart, colEnd) <= |staged|
    requires Payload(RegionFrames(selectPage, selectColumn, page + 1, pageEnd, colStart, colEnd, staged, k + (colEnd - colStart + 1)))
             == staged[k + (colEnd - colStart + 1)..k + (colEnd - colStart + 1) + RegionBytes(page + 1, pageEnd, colStart, colEnd)]
    ensures Payload(RegionFrames(selectPage, selectColumn, page, pageEnd, colStart, colEnd, staged, k))
            == staged[k..k + RegionBytes(page, pageEnd, colStart, colEnd)]
  {
    RegionBytesStep(page, pageEnd, colStart, colEnd);
    RegionFramesStep(selectPage, selectColumn, page, pageEnd, colStart, colEnd, staged, k);
    RowFramesPayload(selectColumn, colStart, colEnd, staged, k);
    PageSelectFrame(selectPage, page);
    PayloadStep(selectPage(page), RowFrames(selectColumn, colStart, colEnd, staged, k), RegionFrames(selectPage, selectColumn, page + 1, pageEnd, colStart, colEnd, staged, k + (colEnd - colStart + 1)),
                staged, k, k + (colEnd - colStart + 1), k + (colEnd - colStart + 1) + RegionBytes(page + 1, pageEnd, colStart, colEnd));
  }

  /** The inductive step of `RegionFramesPayloadStep`, over any page select,
      row and later frames: the row's bytes come before the later pages' bytes. */
  lemma {:induction false} PayloadStep(select: Frame, row: seq<Frame>, rest: seq<Frame>, staged: seq<bv8>, lo: int, mid: int, hi: int)
    requires 0 <= lo <= mid <= hi <= |staged|
    requires PixelBytes(select) == [] && Payload(row) == staged[lo..mid] && Payload(rest) == staged[mid..hi]
    ensures Payload([select] + (row + rest)) == staged[lo..hi]
  {
    CollectPage(select, row, rest, PixelBytes);
    assert staged[lo..hi] == staged[lo..mid] + staged[mid..hi];
  }

  /** A region transfer sends ChunkCount(width) data frames per page. */
  lemma {:induction false} RegionFramesChunkCount(selectPage: int -> Frame, selectColumn: int -> seq<Frame>, page: int, pageEnd: int, colStart: int, colEnd: int, staged: seq<bv8>, k: int)
    requires SelectsPages(selectPage) && SelectsColumns(selectColumn)
    requires 0 <= page <= pageEnd + 1 <= PAGE_COUNT
    requires 0 <= colStart <= colEnd < COL_COUNT
    requires 0 <= k && k + RegionBytes(page, pageEnd, colStart, colEnd) <= |staged|
    ensures |ChunkLengths(RegionFrames(selectPage, selectColumn, page, pageEnd, colStart, colEnd, staged, k))| == Times(pageEnd - page + 1, ChunkCount(colEnd - colStart + 1))
    decreases pageEnd - page
  {
    if page <= pageEnd {
      RegionBytesStep(page, pageEnd, colStart, colEnd);
      RegionFramesChunkCount(selectPage, selectColumn, page + 1, pageEnd, colStart, colEnd, staged, k + (colEnd - colStart + 1));
      RegionFramesChunkCountStep(selectPage, selectColumn, page, pageEnd, colStart, colEnd, staged, k);
    }
  }

  /** The inductive step of `RegionFramesChunkCount`. */
  lemma {:induction false} RegionFramesChunkCountStep(selectPage: int -> Frame, selectColumn: int -> seq<Frame>, page: int, pageEnd: int, colStart: int, colEnd: int, staged: seq<bv8>, k: int)
    requires SelectsPages(selectPage) && SelectsColumns(selectColumn)
    requires 0 <= page <= pageEnd < PAGE_COUNT
    requires 0 <= colStart <= colEnd < COL_COUNT
    requires 0 <= k && k + RegionBytes(page, pageEnd, colStart, colEnd) <= |staged|
    requires k + (colEnd - colStart + 1) + RegionBytes(page + 1, pageEnd, colStart, colEnd) <= |staged|
    requires |ChunkLengths(RegionFrames(selectPage, selectColumn, page + 1, pageEnd, colStart, colEnd, staged, k + (colEnd - colStart + 1)))| == Times(pageEnd - (page + 1) + 1, ChunkCount(colEnd - colStart + 1))
    ensures |ChunkLengths(RegionFrames(selectPage, selectColumn, page, pageEnd, colStart, colEnd, staged, k))| == Times(pageEnd - page + 1, ChunkCount(colEnd - colStart + 1))
  {
    RegionFramesStep(selectPage, selectColumn, page, pageEnd, colStart, colEnd, staged, k);
    RowFramesChunkLengths(selectColumn, colStart, colEnd, staged, k);
    ChunksSplitWidth(colEnd - colStart + 1);
    PageSelectFrame(selectPage, page);
    PageChunksStep(selectPage(page), RowFrames(selectColumn, colStart, colEnd, staged, k), RegionFrames(selectPage, selectColumn, page + 1, pageEnd, colStart, colEnd, staged, k + (colEnd - colStart + 1)),
                   pageEnd - page, ChunkCount(colEnd - colStart + 1));
  }

  /** The inductive step of `RegionFramesChunkCountStep`, over any page select,
      row of `perPage` chunks and later frames of `pages` such rows. */
  lemma {:induction false} PageChunksStep(select: Frame, row: seq<Frame>, rest: seq<Frame>, pages: nat, perPage: nat)
    requires ChunkLength(select) == [] && |ChunkLengths(row)| == perPage
    requires |ChunkLengths(rest)| == Times(pages, perPage)
    ensures |ChunkLengths([select] + (row + rest))| == Times(pages + 1, perPage)
  {
    CollectPage(select, row, rest, ChunkLength);
  }

  /** Every frame of a region transfer is a command frame or a data frame within the transfer limit. */
  lemma {:induction false} RegionFramesWellFormed(selectPage: int -> Frame, selectColumn: int -> seq<Frame>, page: int, pageEnd: int, colStart: int, colEnd: int, staged: seq<bv8>, k: int)
    requires SelectsPages(selectPage) && SelectsColumns(selectColumn)
    requires 0 <= page <= pageEnd + 1 <= PAGE_COUNT
    requires 0 <= colStart <= colEnd < COL_COUNT
    requires 0 <= k && k + RegionBytes(page, pageEnd, colStart, colEnd) <= |staged|
    ensures WellFormed(RegionFrames(selectPage, selectColumn, page, pageEnd, colStart, colEnd, staged, k))
    decreases pageEnd - page
  {
    if page <= pageEnd {
      RegionBytesStep(page, pageEnd, colStart, colEnd);
      RegionFramesWellFormed(selectPage, selectColumn, page + 1, pageEnd, colStart, colEnd, staged, k + (colEnd - colStart + 1));
      RegionFramesWellFormedStep(selectPage, selectColumn, page, pageEnd, colStart, colEnd, staged, k);
    }
  }

  /** The inductive step of `RegionFramesWellFormed`. */
  lemma {:induction false} RegionFramesWellFormedStep(selectPage: int -> Frame, selectColumn: int -> seq<Frame>, page: int, pageEnd: int, colStart: int, colEnd: int, staged: seq<bv8>, k: int)
    requires SelectsPages(selectPage) && SelectsColumns(selectColumn)
    requires 0 <= page <= pageEnd < PAGE_COUNT
    requires 0 <= colStart <= colEnd < COL_COUNT
    requires 0 <= k && k + RegionBytes(page, pageEnd, colStart, colEnd) <= |staged|
    requires k + (colEnd - colStart + 1) + RegionBytes(page + 1, pageEnd, colStart, colEnd) <= |staged|
    requires WellFormed(RegionFrames(selectPage, selectColumn, page + 1, pageEnd, colStart, colEnd, staged, k + (colEnd - colStart + 1)))
    ensures WellFormed(RegionFrames(selectPage, selectColumn, page, pageEnd, colStart, colEnd, staged, k))
  {
    RegionFramesStep(selectPage, selectColumn, page, pageEnd, colStart, colEnd, staged, k);
    RowFramesWellFormed(selectColumn, colStart, colEnd, staged, k);
    WellFormedStep(selectPage(page), RowFrames(selectColumn, colStart, colEnd, staged, k),
                   RegionFrames(selectPage, selectColumn, page + 1, pageEnd, colStart, colEnd, staged, k + (colEnd - colStart + 1)));
  }

  /** The inductive step of `RegionFramesWellFormedStep`, over any command
      frame, row and later frames. */
  lemma {:induction false} WellFormedStep(select: Frame, row: seq<Frame>, rest: seq<Frame>)
    requires IsCommandFrame(select) && WellFormed(row) && WellFormed(rest)
    ensures WellFormed([select] + (row + rest))
  {
    var fs := [select] + (row + rest);
    forall i | 0 <= i < |fs|
      ensures IsCommandFrame(fs[i]) || (IsDataFrame(fs[i]) && 2 <= |fs[i]| <= I2C_BUFFER_SIZE)
    {
      if i == 0 {
      } else if i <= |row| {
        assert fs[i] == row[i - 1];
      } else {
        assert fs[i] == rest[i - 1 - |row|];
      }
    }
  }

  /** A region transfer reads nothing but the region's staged bytes: two
      staging areas that agree there produce the same frames. */
  lemma {:induction false} RegionFramesReadOnlyRegion(selectPage: int -> Frame, selectColumn: int -> seq<Frame>, page: int, pageEnd: int, colStart: int, colEnd: int, s1: seq<bv8>, s2: seq<bv8>, k: int)
    requires 0 <= page <= pageEnd + 1 <= PAGE_COUNT
    requires 0 <= colStart <= colEnd < COL_COUNT
    requires 0 <= k
    requires k + RegionBytes(page, pageEnd, colStart, colEnd) <= |s1|
    requires k + RegionBytes(page, pageEnd, colStart, colEnd) <= |s2|
    requires s1[k..k + RegionBytes(page, pageEnd, colStart, colEnd)] == s2[k..k + RegionBytes(page, pageEnd, colStart, colEnd)]
    ensures RegionFrames(selectPage, selectColumn, page, pageEnd, colStart, colEnd, s1, k) == RegionFrames(selectPage, selectColumn, page, pageEnd, colStart, colEnd, s2, k)
    decreases pageEnd - page
  {
    var w := colEnd - colStart + 1;
    if page <= pageEnd {
      var t := RegionBytes(page, pageEnd, colStart, colEnd);
      RegionBytesStep(page, pageEnd, colStart, colEnd);
      assert s1[k..k + w] == s1[k..k + t][..w];
      assert s2[k..k + w] == s2[k..k + t][..w];
      RowFramesReadOnlyRow(selectColumn, colStart, colEnd, s1, s2, k);
      assert s1[k + w..k + t] == s1[k..k + t][w..];
      assert s2[k + w..k + t] == s2[k..k + t][w..];
      RegionFramesReadOnlyRegion(selectPage, selectColumn, page + 1, pageEnd, colStart, colEnd, s1, s2, k + w);
    }
  }

  lemma {:induction false} RowFramesReadOnlyRow(selectColumn: int -> seq<Frame>, col: int, colEnd: int, s1: seq<bv8>, s2: seq<bv8>, k: int)
    requires 0 <= col <= colEnd + 1 <= COL_COUNT
    requires 0 <= k && k + (colEnd - col + 1) <= |s1| && k + (colEnd - col + 1) <= |s2|
    requires s1[k..k + (colEnd - col + 1)] == s2[k..k + (colEnd - col + 1)]
    ensures RowFrames(selectColumn, col, colEnd, s1, k) == RowFrames(selectColumn, col, colEnd, s2, k)
    decreases colEnd - col
  {
    if col <= colEnd {
      var n := Min(CHUNK_SIZE, colEnd - col + 1);
      assert s1[k..k + n] == s1[k..k + (colEnd - col + 1)][..n];
      assert s2[k..k + n] == s2[k..k + (colEnd - col + 1)][..n];
      assert s1[k + n..k + (colEnd - col + 1)] == s1[k..k + (colEnd - col + 1)][n..];
      assert s2[k + n..k + (colEnd - col + 1)] == s2[k..k + (colEnd - col + 1)][n..];
      RowFramesReadOnlyRow(selectColumn, col + n, colEnd, s1, s2, k + n);
    }
  }

  /** What a region transfer with the driver's own encoders sends: one page
      select per page, in ascending order; ChunkCount(width) chunks per page;
      the region's staged bytes, in order, as the pixel data; and nothing but
      command frames and data frames of at most I2C_BUFFER_SIZE bytes. */
  lemma {:induction false} RegionTransfer(pageStart: int, pageEnd: int, colStart: int, colEnd: int, staged: seq<bv8>)
    requires 0 <= pageStart <= pageEnd < PAGE_COUNT && 0 <= colStart <= colEnd < COL_COUNT
    requires 1 + RegionBytes(pageStart, pageEnd, colStart, colEnd) <= |staged|
    ensures PagesSelected(RegionFrames(PageSelect, ColumnSelect, pageStart, pageEnd, colStart, colEnd, staged, 1))
            == PageRange(pageStart, pageEnd)
    ensures |ChunkLengths(RegionFrames(PageSelect, ColumnSelect, pageStart, pageEnd, colStart, colEnd, staged, 1))|
            == Times(pageEnd - pageStart + 1, ChunkCount(colEnd - colStart + 1))
    ensures Payload(RegionFrames(PageSelect, ColumnSelect, pageStart, pageEnd, colStart, colEnd, staged, 1))
            == staged[1..1 + RegionBytes(pageStart, pageEnd, colStart, colEnd)]
    ensures WellFormed(RegionFrames(PageSelect, ColumnSelect, pageStart, pageEnd, colStart, colEnd, staged, 1))
  {
    PageSelectSelectsPages();
    ColumnSelectSelectsColumns();
    RegionFramesPages(PageSelect, ColumnSelect, pageStart, pageEnd, colStart, colEnd, staged, 1);
    RegionFramesChunkCount(PageSelect, ColumnSelect, pageStart, pageEnd, colStart, colEnd, staged, 1);
    RegionFramesPayload(PageSelect, ColumnSelect, pageStart, pageEnd, colStart, colEnd, staged, 1);
    RegionFramesWellFormed(PageSelect, ColumnSelect, pageStart, pageEnd, colStart, colEnd, staged, 1);
  }

  /** The page-start encoder meets what the transfer relies on. */
  lemma {:induction false} PageSelectSelectsPages()
    ensures SelectsPages(PageSelect)
  {
    forall p | 0 <= p < PAGE_COUNT
      ensures IsCommandFrame(PageSelect(p)) && SelectedPage(PageSelect(p)) == [p]
    {
      var b := (p % 256) as bv8;
      assert b as int == p;
      assert b < 8;
      MasksFitGeometry(b, b);
      assert (b & 0x07) == b;
      assert IsPageSelect(PageStartCmd(b));
    }
  }

  /** The column-start encoder meets what the transfer relies on, and the
      select sent for a column of the surface decodes back to that column. */
  lemma {:induction false} ColumnSelectSelectsColumns()
    ensures SelectsColumns(ColumnSelect)
    ensures forall c :: 0 <= c < COL_COUNT ==> ColumnOf(ColumnSelect(c)[0], ColumnSelect(c)[1]) == Some(c as bv8)
  {
    forall c | 0 <= c < COL_COUNT
      ensures |ColumnSelect(c)| == 2
      ensures IsCommandFrame(ColumnSelect(c)[0]) && IsCommandFrame(ColumnSelect(c)[1])
      ensures SelectedPage(ColumnSelect(c)[0]) == [] && SelectedPage(ColumnSelect(c)[1]) == []
      ensures ColumnOf(ColumnSelect(c)[0], ColumnSelect(c)[1]) == Some(c as bv8)
    {
      var b := (c % 256) as bv8;
      assert b == c as bv8 && b < 0x80;
      var fs := ColumnStartFrames(b);
      assert ColumnSelect(c) == fs;
    }
  }

  // ---- The staging buffer after a transfer ----

  /** Staging-buffer index `i` is where `writeDataFromBuffer` puts a data
      control byte: the byte just before each chunk, that is index 0 before
      the first chunk and otherwise the last pixel byte of the chunk sent
      before it, whether that chunk ends a page or not. `total` is the
      region's byte count and `width` the bytes of one page. */
  predicate IsMarker(i: int, total: int, width: int)
    requires width > 0
  {
    0 <= i < total && (i % width) % CHUNK_SIZE == 0
  }

  /** Offset `c` of row `r` of a region `w` bytes wide lies in column offset `c`. */
  lemma {:induction false} OffsetInRow(r: nat, w: int, c: int)
    requires 0 <= c < w
    ensures (r * w + c) % w == c
  {
    var a := r * w + c;
    var q := a / w;
    var m := a % w;
    assert a == q * w + m;
    assert (r - q) * w == m - c;
    if r - q >= 1 {
      MulAtLeast(r - q, w);
    } else if q - r >= 1 {
      MulAtLeast(q - r, w);
    }
  }

  lemma {:induction false} MulAtLeast(a: int, w: int)
    requires a >= 1 && w > 0
    ensures a * w >= w
  {
  }

  /** `x` is a whole number of `m`s: where a row of a region `m` bytes wide
      starts, or where a chunk of CHUNK_SIZE columns starts within its row. */
  predicate IsMultiple(x: int, m: int)
    decreases x
  {
    x == 0 || (m > 0 && x >= m && IsMultiple(x - m, m))
  }

  lemma {:induction false} MultipleMod(x: int, m: int)
    requires 0 <= x && m > 0 && IsMultiple(x, m)
    ensures x % m == 0
    decreases x
  {
    if x != 0 {
      MultipleMod(x - m, m);
      assert (x - m) / m * m == x - m;
      assert x == ((x - m) / m + 1) * m + 0;
      OffsetInRow((x - m) / m + 1, m, 0);
    }
  }

  /** Offset `c` of a row starting at `base` lies in column offset `c`. */
  lemma {:induction false} OffsetAfterBase(base: int, w: int, c: int)
    requires 0 <= base && w > 0 && IsMultiple(base, w) && 0 <= c < w
    ensures (base + c) % w == c
  {
    MultipleMod(base, w);
    var r := base / w;
    assert base == r * w;
    OffsetInRow(r, w, c);
  }

  /** The chunk at column offset `c` (a multiple of CHUNK_SIZE) of a row
      starting at staged offset `base` puts its marker at base + c, and no
      marker lies among the chunk's other bytes. */
  lemma {:induction false} ChunkMarkers(base: int, w: int, c: int, n: int, total: int)
    requires 0 <= base && w > 0 && IsMultiple(base, w)
    requires 0 <= c && IsMultiple(c, CHUNK_SIZE) && 1 <= n <= CHUNK_SIZE && c + n <= w
    requires base + c < total
    ensures IsMarker(base + c, total, w)
    ensures forall i :: base + c < i < base + c + n ==> !IsMarker(i, total, w)
  {
    MultipleMod(c, CHUNK_SIZE);
    OffsetAfterBase(base, w, c);
    forall i | base + c < i < base + c + n
      ensures !IsMarker(i, total, w)
    {
      OffsetAfterBase(base, w, i - base);
      OffsetAfterBase(c, CHUNK_SIZE, i - base - c);
    }
  }

  /** `b` with the data control byte written at every marker position in
      [lo, hi) and every other byte kept. */
  function MarkRange(b: seq<bv8>, lo: int, hi: int, total: int, width: int): seq<bv8>
    requires width > 0
  {
    seq(|b|, i requires 0 <= i < |b| => if lo <= i < hi && IsMarker(i, total, width) then DATA else b[i])
  }

  /** The staging area after a region transfer: the data control byte at
      every marker position, the staged byte everywhere else. */
  function WithMarkers(staged: seq<bv8>, total: int, width: int): (r: seq<bv8>)
    requires width > 0
    ensures |r| == |staged|
    ensures forall i :: 0 <= i < |r| ==> r[i] == if IsMarker(i, total, width) then DATA else staged[i]
  {
    MarkRange(staged, 0, total, total, width)
  }

  /** Read by page and column: the byte of page row `p` at column offset `c`
      of a region `width` bytes wide is the data control byte exactly when it
      lies within the `total` bytes sent and `c` is where a chunk of that page
      row starts (0, CHUNK_SIZE, 2 * CHUNK_SIZE, ...); otherwise the staged
      byte survives. */
  lemma {:induction false} WithMarkersAt(staged: seq<bv8>, total: int, width: int, p: nat, c: int)
    requires 0 <= c < width && p * width + c < |staged|
    ensures WithMarkers(staged, total, width)[p * width + c]
              == if p * width + c < total && c % CHUNK_SIZE == 0 then DATA else staged[p * width + c]
  {
    OffsetInRow(p, width, c);
  }

  /** Nothing is marked in an empty range. */
  lemma {:induction false} MarkRangeEmpty(b: seq<bv8>, lo: int, total: int, w: int)
    requires w > 0
    ensures MarkRange(b, lo, lo, total, w) == b
  {
  }

  /** Bytes at or after `hi` keep their value. */
  lemma {:induction false} MarkRangeAfter(b: seq<bv8>, lo: int, hi: int, total: int, w: int, k: int, n: int)
    requires w > 0 && hi <= k && 0 <= k <= k + n <= |b|
    ensures MarkRange(b, lo, hi, total, w)[k..k + n] == b[k..k + n]
  {
  }

  /** Marking [lo, mid) and then [mid, hi) marks [lo, hi). */
  lemma {:induction false} MarkRangeChain(b: seq<bv8>, lo: int, mid: int, hi: int, total: int, w: int)
    requires w > 0 && lo <= mid <= hi
    ensures MarkRange(MarkRange(b, lo, mid, total, w), mid, hi, total, w) == MarkRange(b, lo, hi, total, w)
  {
  }

  /** Writing the marker of the chunk at column offset `c` of a row starting
      at `base`, staged index `at`, extends the marked range over the chunk's
      `n` bytes. */
  lemma {:induction false} MarkChunk(b: seq<bv8>, base: int, c: int, at: int, n: int, hi: int, total: int, w: int)
    requires 0 <= base && w > 0 && IsMultiple(base, w)
    requires 0 <= c && IsMultiple(c, CHUNK_SIZE) && 1 <= n <= CHUNK_SIZE && c + n <= w
    requires at == base + c && hi == at + n && at < total && at < |b|
    ensures MarkRange(b, base, at, total, w)[at := DATA] == MarkRange(b, base, hi, total, w)
  {
    ChunkMarkers(base, w, c, n, total);
  }

  /** One pass of the inner transfer loop, over the frames: once the chunk
      at column `col` has been sent, the rest of the row is still to send. */
  lemma {:induction false} ChunkStepFrames(selectColumn: int -> seq<Frame>, colEnd: int, staged: seq<bv8>, col: int, k: int, col1: int, k1: int, f0: seq<Frame>, f1: seq<Frame>, all: seq<Frame>)
    requires 0 <= col <= colEnd < COL_COUNT
    requires 0 <= k && k + (colEnd - col + 1) <= |staged|
    requires col1 == col + Min(CHUNK_SIZE, colEnd - col + 1) && k1 == k + (col1 - col)
    requires f0 + RowFrames(selectColumn, col, colEnd, staged, k) == all
    requires f1 == f0 + (selectColumn(col) + [DataFrame(staged, k, Min(CHUNK_SIZE, colEnd - col + 1))])
    ensures f1 + RowFrames(selectColumn, col1, colEnd, staged, k1) == all
  {
    var n := Min(CHUNK_SIZE, colEnd - col + 1);
    Sent(f0, selectColumn(col) + [DataFrame(staged, k, n)], RowFrames(selectColumn, col1, colEnd, staged, k1), all);
  }

  /** One pass of the inner transfer loop, over the buffer: writing the
      marker of the chunk at column `col` of a row staged from `rowStart`
      grows the marked range over the chunk, and the next chunk again
      starts a whole number of chunks into the row. */
  lemma {:induction false} ChunkStepMarks(colStart: int, colEnd: int, staged: seq<bv8>, rowStart: int, total: int, col: int, k: int, col1: int, k1: int, b0: seq<bv8>, b1: seq<bv8>)
    requires 0 <= colStart <= col <= colEnd < COL_COUNT
    requires IsMultiple(col - colStart, CHUNK_SIZE)
    requires 1 <= rowStart && IsMultiple(rowStart - 1, colEnd - colStart + 1)
    requires rowStart - 1 + (colEnd - colStart + 1) <= total < |staged|
    requires k == rowStart + (col - colStart)
    requires col1 == col + Min(CHUNK_SIZE, colEnd - col + 1) && k1 == k + (col1 - col)
    requires b0 == MarkRange(staged, rowStart - 1, k - 1, total, colEnd - colStart + 1)
    requires b1 == b0[k - 1 := DATA]
    ensures b1 == MarkRange(staged, rowStart - 1, k1 - 1, total, colEnd - colStart + 1)
    ensures col1 <= colEnd ==> IsMultiple(col1 - colStart, CHUNK_SIZE)
  {
    var n := Min(CHUNK_SIZE, colEnd - col + 1);
    MarkChunk(staged, rowStart - 1, col - colStart, k - 1, n, k1 - 1, total, colEnd - colStart + 1);
    if col1 <= colEnd {
      assert IsMultiple(col1 - colStart - CHUNK_SIZE, CHUNK_SIZE);
    }
  }

  /** One pass of the outer transfer loop, over the frames: once page
      `page`'s select and its row, read from a buffer `b0` that agrees with
      the staged bytes on the row, have been sent, the following pages are
      still to send, and the staged bytes left over have shrunk by the row. */
  lemma {:induction false} PageStepFrames(selectPage: int -> Frame, selectColumn: int -> seq<Frame>, pageEnd: int, colStart: int, colEnd: int,
                       staged: seq<bv8>, total: int, page: int, k: int, page1: int, next: int,
                       f0: seq<Frame>, b0: seq<bv8>, f1: seq<Frame>, all: seq<Frame>)
    requires 0 <= page <= pageEnd < PAGE_COUNT && page1 == page + 1
    requires 0 <= colStart <= colEnd < COL_COUNT
    requires 1 <= k && k + RegionBytes(page, pageEnd, colStart, colEnd) == 1 + total && total < |staged|
    requires f0 + RegionFrames(selectPage, selectColumn, page, pageEnd, colStart, colEnd, staged, k) == all
    requires next == k + (colEnd - colStart + 1) && |b0| == |staged| && next <= |staged|
    requires b0[k..k + (colEnd - colStart + 1)] == staged[k..k + (colEnd - colStart + 1)]
    requires f1 == (f0 + [selectPage(page)]) + RowFrames(selectColumn, colStart, colEnd, b0, k)
    ensures next + RegionBytes(page1, pageEnd, colStart, colEnd) == 1 + total
    ensures f1 + RegionFrames(selectPage, selectColumn, page1, pageEnd, colStart, colEnd, staged, next) == all
  {
    RegionBytesStep(page, pageEnd, colStart, colEnd);
    RegionFramesStep(selectPage, selectColumn, page, pageEnd, colStart, colEnd, staged, k);
    RowFramesReadOnlyRow(selectColumn, colStart, colEnd, b0, staged, k);
    Regroup(f0, selectPage(page), RowFrames(selectColumn, colStart, colEnd, b0, k), RowFrames(selectColumn, colStart, colEnd, staged, k),
            RegionFrames(selectPage, selectColumn, page + 1, pageEnd, colStart, colEnd, staged, next), f1, all);
  }

  /** One pass of the outer transfer loop, over the buffer: the row's bytes
      are still the staged ones before its markers are written, and once they
      are, the marked range has grown over the row, which ends a whole number
      of rows into the buffer. */
  lemma {:induction false} PageStepMarks(colStart: int, colEnd: int, staged: seq<bv8>, total: int, k: int, next: int, b0: seq<bv8>, b1: seq<bv8>)
    requires 0 <= colStart <= colEnd < COL_COUNT
    requires 1 <= k && next == k + (colEnd - colStart + 1) && next - 1 <= total < |staged|
    requires IsMultiple(k - 1, colEnd - colStart + 1)
    requires b0 == MarkRange(staged, 0, k - 1, total, colEnd - colStart + 1)
    requires b1 == MarkRange(b0, k - 1, next - 1, total, colEnd - colStart + 1)
    ensures |b0| == |staged| && next <= |staged|
    ensures b0[k..k + (colEnd - colStart + 1)] == staged[k..k + (colEnd - colStart + 1)]
    ensures IsMultiple(next - 1, colEnd - colStart + 1)
    ensures b1 == MarkRange(staged, 0, next - 1, total, colEnd - colStart + 1)
  {
    MarkRangeAfter(staged, 0, k - 1, total, colEnd - colStart + 1, k, colEnd - colStart + 1);
    MarkRangeChain(staged, 0, k - 1, next - 1, total, colEnd - colStart + 1);
    assert IsMultiple(next - 1 - (colEnd - colStart + 1), colEnd - colStart + 1);
  }

  /** Regrouping a concatenation does not change it. */
  lemma {:induction false} Regroup<T>(a: seq<T>, x: T, b': seq<T>, b: seq<T>, c: seq<T>, sent: seq<T>, all: seq<T>)
    requires a + ([x] + (b + c)) == all
    requires b' == b && sent == (a + [x]) + b'
    ensures sent + c == all
  {
    assert a + ([x] + (b + c)) == ((a + [x]) + b) + c;
  }

  /** Sending `a` moves it from the frames still to send to the frames sent. */
  lemma {:induction false} Sent<T>(sent: seq<T>, a: seq<T>, todo: seq<T>, all: seq<T>)
    requires sent + (a + todo) == all
    ensures (sent + a) + todo == all
  {
    assert sent + (a + todo) == (sent + a) + todo;
  }
}
