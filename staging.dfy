/** The region operations of the SSD1315 driver as values: what a bitmap
    write, an area fill and a screen clear put into the staging buffer, which
    frames the transfer that follows sends, and what the buffer holds after
    it. The driver's methods are proved against these definitions. */
module Staging {
  import opened Ssd1315Defs
  import opened Geometry
  import opened Transfer

  /** The buffer `b` once `d` has been copied in from index 1 on, as
      `memcpy(buffer + 1, d, |d|)` and `memset(buffer + 1, v, |d|)` do:
      the control byte at index 0 and everything after `d` are kept. */
  function Staged(b: seq<bv8>, d: seq<bv8>): (r: seq<bv8>)
    requires 1 + |d| <= |b|
    ensures |r| == |b| && r[0] == b[0]
    ensures forall i :: 1 <= i <= |d| ==> r[i] == d[i - 1]
    ensures forall i :: 1 + |d| <= i < |b| ==> r[i] == b[i]
  {
    b[..1] + d + b[1 + |d|..]
  }

  /** `n` copies of the byte `v`. */
  function Fill(v: bv8, n: nat): (r: seq<bv8>)
    ensures |r| == n
    ensures forall i :: 0 <= i < n ==> r[i] == v
  {
    seq(n, _ => v)
  }

  /** A region that passes the row and column checks and the staged bytes
      that exactly cover it, in a buffer of the driver's size. */
  predicate Covers(b: seq<bv8>, x: int, y8x: int, width: int, height8x: int, d: seq<bv8>) {
    && CheckRows(y8x, height8x) && CheckColumns(x, width)
    && |d| == DataSize(width, height8x) && |b| == BUFF_SIZE + 1
  }

  /** The frames a region write sends once `d` is staged in `b`: the
      transfer of pages FirstPage(y8x)..LastPage(y8x, height8x) and columns
      x..x + width - 1, read from the buffer from index 1 on. */
  function RegionWrite(b: seq<bv8>, x: int, y8x: int, width: int, height8x: int, d: seq<bv8>): seq<Frame>
    requires Covers(b, x, y8x, width, height8x, d)
  {
    ValidRegionFitsBuffer(x, y8x, width, height8x);
    TimesProduct(LastPage(y8x, height8x) - FirstPage(y8x) + 1, width);
    RegionFrames(PageSelect, ColumnSelect, FirstPage(y8x), LastPage(y8x, height8x), x, x + width - 1, Staged(b, d), 1)
  }

  /** The buffer after a region write: `d` staged from index 1 on, then the
      data control byte written in front of every chunk. */
  function AfterWrite(b: seq<bv8>, width: int, d: seq<bv8>): seq<bv8>
    requires 1 + |d| <= |b| && width > 0
  {
    WithMarkers(Staged(b, d), |d|, width)
  }

  /** A region write is the transfer of the band's pages and the region's
      columns, over exactly the bytes staged, and leaves those bytes marked. */
  lemma {:induction false} RegionWriteTransfer(b: seq<bv8>, x: int, y8x: int, width: int, height8x: int, d: seq<bv8>, staged: seq<bv8>)
    requires Covers(b, x, y8x, width, height8x, d) && staged == Staged(b, d)
    ensures 0 <= FirstPage(y8x) <= LastPage(y8x, height8x) < PAGE_COUNT && 0 <= x <= x + width - 1 < COL_COUNT
    ensures RegionBytes(FirstPage(y8x), LastPage(y8x, height8x), x, x + width - 1) == |d| <= BUFF_SIZE
    ensures |staged| == |b|
    ensures RegionWrite(b, x, y8x, width, height8x, d)
            == RegionFrames(PageSelect, ColumnSelect, FirstPage(y8x), LastPage(y8x, height8x), x, x + width - 1, staged, 1)
    ensures AfterWrite(b, width, d)
            == WithMarkers(staged, RegionBytes(FirstPage(y8x), LastPage(y8x, height8x), x, x + width - 1), x + width - 1 - x + 1)
  {
    ValidRegionFitsBuffer(x, y8x, width, height8x);
    TimesProduct(LastPage(y8x, height8x) - FirstPage(y8x) + 1, width);
  }

  /** A region write selects each page of the band once, in ascending
      order, sends ChunkCount(width) chunks per page, sends exactly the
      staged bytes as pixel data, and sends no frame longer than the
      transport accepts. */
  lemma {:induction false} RegionWriteSends(b: seq<bv8>, x: int, y8x: int, width: int, height8x: int, d: seq<bv8>)
    requires Covers(b, x, y8x, width, height8x, d)
    ensures PagesSelected(RegionWrite(b, x, y8x, width, height8x, d)) == PageRange(FirstPage(y8x), LastPage(y8x, height8x))
    ensures |ChunkLengths(RegionWrite(b, x, y8x, width, height8x, d))| == height8x / BITS_PER_PAGE * ChunkCount(width)
    ensures Payload(RegionWrite(b, x, y8x, width, height8x, d)) == d
    ensures WellFormed(RegionWrite(b, x, y8x, width, height8x, d))
  {
    var staged := Staged(b, d);
    RegionWriteTransfer(b, x, y8x, width, height8x, d, staged);
    ValidRegionFitsBuffer(x, y8x, width, height8x);
    assert staged[1..1 + |d|] == d;
    BandTransfer(FirstPage(y8x), LastPage(y8x, height8x), x, width, staged, d, height8x / BITS_PER_PAGE);
  }

  /** The transfer of pages first..last and columns x..x + width - 1 over
      bytes `d` staged from index 1 on. */
  lemma {:induction false} BandTransfer(first: int, last: int, x: int, width: int, staged: seq<bv8>, d: seq<bv8>, pages: int)
    requires 0 <= first <= last < PAGE_COUNT && 0 <= x <= x + width - 1 < COL_COUNT
    requires 1 + RegionBytes(first, last, x, x + width - 1) <= |staged|
    requires staged[1..1 + RegionBytes(first, last, x, x + width - 1)] == d
    requires pages == last - first + 1
    ensures PagesSelected(RegionFrames(PageSelect, ColumnSelect, first, last, x, x + width - 1, staged, 1)) == PageRange(first, last)
    ensures |ChunkLengths(RegionFrames(PageSelect, ColumnSelect, first, last, x, x + width - 1, staged, 1))| == pages * ChunkCount(width)
    ensures Payload(RegionFrames(PageSelect, ColumnSelect, first, last, x, x + width - 1, staged, 1)) == d
    ensures WellFormed(RegionFrames(PageSelect, ColumnSelect, first, last, x, x + width - 1, staged, 1))
  {
    RegionTransfer(first, last, x, x + width - 1, staged);
    assert x + width - 1 - x + 1 == width;
    TimesProduct(pages, ChunkCount(width));
  }

  /** After a region write the control byte is still at index 0; each
      staged byte is in place except where the data control byte of the
      chunk after it was written; past the staged bytes nothing changed. */
  lemma {:induction false} AfterWriteBuffer(b: seq<bv8>, width: int, d: seq<bv8>)
    requires 1 + |d| <= |b| && width > 0 && |d| > 0 && b[0] == DATA
    ensures |AfterWrite(b, width, d)| == |b| && AfterWrite(b, width, d)[0] == DATA
    ensures forall i :: 1 <= i <= |d| ==>
              AfterWrite(b, width, d)[i] == if IsMarker(i, |d|, width) then DATA else d[i - 1]
    ensures forall i :: 1 + |d| <= i < |b| ==> AfterWrite(b, width, d)[i] == b[i]
  {
  }

  /** An area fill sends only the fill byte as pixel data, one per byte of the region. */
  lemma {:induction false} FillSendsFillByte(b: seq<bv8>, x: int, y8x: int, width: int, height8x: int, v: bv8)
    requires CheckRows(y8x, height8x) && CheckColumns(x, width) && |b| == BUFF_SIZE + 1
    ensures DataSize(width, height8x) >= 0
    ensures Covers(b, x, y8x, width, height8x, Fill(v, DataSize(width, height8x)))
    ensures |Payload(RegionWrite(b, x, y8x, width, height8x, Fill(v, DataSize(width, height8x))))| == DataSize(width, height8x)
    ensures forall i :: 0 <= i < DataSize(width, height8x) ==>
              Payload(RegionWrite(b, x, y8x, width, height8x, Fill(v, DataSize(width, height8x))))[i] == v
  {
    ValidRegionFitsBuffer(x, y8x, width, height8x);
    RegionWriteSends(b, x, y8x, width, height8x, Fill(v, DataSize(width, height8x)));
  }

  /** Clearing the screen covers the whole surface: it selects pages 0..7 in
      order, sends 8 pages of 5 chunks, that is 40 data frames, and sends
      1024 zero bytes as pixel data. */
  lemma {:induction false} ClearScreenSends(b: seq<bv8>)
    requires |b| == BUFF_SIZE + 1
    ensures Covers(b, 0, 0, COL_COUNT, ROW_COUNT, Fill(0, BUFF_SIZE))
    ensures PagesSelected(RegionWrite(b, 0, 0, COL_COUNT, ROW_COUNT, Fill(0, BUFF_SIZE))) == PageRange(0, PAGE_COUNT - 1)
    ensures |ChunkLengths(RegionWrite(b, 0, 0, COL_COUNT, ROW_COUNT, Fill(0, BUFF_SIZE)))| == 40
    ensures Payload(RegionWrite(b, 0, 0, COL_COUNT, ROW_COUNT, Fill(0, BUFF_SIZE))) == Fill(0, 1024)
  {
    RegionWriteSends(b, 0, 0, COL_COUNT, ROW_COUNT, Fill(0, BUFF_SIZE));
    ChunkCountCeiling(COL_COUNT);
  }
}
