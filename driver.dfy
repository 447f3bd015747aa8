/** The SSD1315 driver state: the staging buffer and the frames handed to the
    two-wire transport. */
module Driver {
  import opened Ssd1315Defs
  import opened Commands
  import opened Geometry
  import opened Transfer
  import opened Staging

  class Ssd1315 {
    /** The static buffer: the data control byte at index 0, then BUFF_SIZE staging bytes. */
    const buffer: array<bv8>
    /** Every frame handed to the transport, in order. */
    var frames: seq<Frame>

    ghost predicate Valid()
      reads buffer
    {
      buffer.Length == BUFF_SIZE + 1 && buffer[0] == DATA
    }

    /** The static initialiser of the buffer and `SSD1315_Init`: index 0 holds
        the data control byte, the rest is zero, nothing has been sent. */
    constructor ()
      ensures Valid() && fresh(buffer)
      ensures forall i :: 1 <= i < buffer.Length ==> buffer[i] == 0
      ensures frames == []
    {
      var b := new bv8[BUFF_SIZE + 1](_ => 0);
      b[0] := DATA;
      buffer := b;
      frames := [];
    }

    /** `writeToLcd`: hands one frame to the transport. The frame counts as
        sent whatever the transport returns: a non-zero result only goes to
        the debug sink, and nothing here depends on it. */
    method WriteToLcd(data: Frame)
      modifies this
      ensures frames == old(frames) + [data]
    {
      var err: int := *;
      frames := frames + [data];
    }

    method DisplayOn(enable: bool)
      modifies this
      ensures frames == old(frames) + [DisplayOnCmd(enable)]
    {
      WriteToLcd(DisplayOnCmd(enable));
    }

    method EntireDisplayOn(enable: bool)
      modifies this
      ensures frames == old(frames) + [EntireDisplayOnCmd(enable)]
    {
      WriteToLcd(EntireDisplayOnCmd(enable));
    }

    /** Sends the low nibble, then the high bits, of the column start address. */
    method ColumnStartAddressSet(addr: bv8)
      modifies this
      ensures frames == old(frames) + ColumnStartFrames(addr)
    {
      WriteToLcd(LowColumnCmd(addr));
      WriteToLcd(HighColumnCmd(addr));
    }

    method DisplayStartLineSet(line: bv8)
      modifies this
      ensures frames == old(frames) + [DisplayStartLineCmd(line)]
    {
      WriteToLcd(DisplayStartLineCmd(line));
    }

    method MemoryModeSet(mode: MemMode)
      modifies this
      ensures frames == old(frames) + [MemoryModeCmd(mode)]
    {
      WriteToLcd(MemoryModeCmd(mode));
    }

    method PageStartAddressSet(addr: bv8)
      modifies this
      ensures frames == old(frames) + [PageStartCmd(addr)]
    {
      WriteToLcd(PageStartCmd(addr));
    }

    method ContrastSet(contrast: bv8)
      modifies this
      ensures frames == old(frames) + [ContrastCmd(contrast)]
    {
      WriteToLcd(ContrastCmd(contrast));
    }

    method SegmentRemap(remap: bool)
      modifies this
      ensures frames == old(frames) + [SegmentRemapCmd(remap)]
    {
      WriteToLcd(SegmentRemapCmd(remap));
    }

    method MuxRatioSet(mux: bv8)
      modifies this
      ensures frames == old(frames) + [MuxRatioCmd(mux)]
    {
      WriteToLcd(MuxRatioCmd(mux));
    }

    method ComScanInvert(invert: bool)
      modifies this
      ensures frames == old(frames) + [ComScanInvertCmd(invert)]
    {
      WriteToLcd(ComScanInvertCmd(invert));
    }

    method DisplayOffsetSet(offset: bv8)
      modifies this
      ensures frames == old(frames) + [DisplayOffsetCmd(offset)]
    {
      WriteToLcd(DisplayOffsetCmd(offset));
    }

    method ClockSet(freq: bv8, divider: bv8)
      modifies this
      ensures frames == old(frames) + [ClockCmd(freq, divider)]
    {
      WriteToLcd(ClockCmd(freq, divider));
    }

    method PrechargePeriodSet(period: bv8)
      modifies this
      ensures frames == old(frames) + [PrechargePeriodCmd(period)]
    {
      WriteToLcd(PrechargePeriodCmd(period));
    }

    method ComPinsSet(alternative: bool, leftRightRemap: bool)
      modifies this
      ensures frames == old(frames) + [ComPinsCmd(alternative, leftRightRemap)]
    {
      WriteToLcd(ComPinsCmd(alternative, leftRightRemap));
    }

    method VcomhLevelSet(level: VcomLevel)
      modifies this
      ensures frames == old(frames) + [VcomhLevelCmd(level)]
    {
      WriteToLcd(VcomhLevelCmd(level));
    }

    method ChargePumpModeSet(mode: ChargePumpMode)
      modifies this
      ensures frames == old(frames) + [ChargePumpModeCmd(mode)]
    {
      WriteToLcd(ChargePumpModeCmd(mode));
    }

    method DisplayInvert(invert: bool)
      modifies this
      ensures frames == old(frames) + [DisplayInvertCmd(invert)]
    {
      WriteToLcd(DisplayInvertCmd(invert));
    }

    method ColumnAddressSet(begin: bv8, end: bv8)
      modifies this
      ensures frames == old(frames) + [ColumnAddressCmd(begin, end)]
    {
      WriteToLcd(ColumnAddressCmd(begin, end));
    }

    method PageAddressSet(begin: bv8, end: bv8)
      modifies this
      ensures frames == old(frames) + [PageAddressCmd(begin, end)]
    {
      WriteToLcd(PageAddressCmd(begin, end));
    }

    /** `SSD1315_DefInit`: the fixed configuration sequence, then a cleared screen. */
    method DefInit(xyFlip: bool)
      requires Valid()
      modifies this, buffer
      ensures Valid()
      ensures Covers(old(buffer[..]), 0, 0, COL_COUNT, ROW_COUNT, Fill(0, BUFF_SIZE))
      ensures frames == old(frames) + DefInitCommands(xyFlip)
                        + RegionWrite(old(buffer[..]), 0, 0, COL_COUNT, ROW_COUNT, Fill(0, BUFF_SIZE))
      ensures buffer[..] == AfterWrite(old(buffer[..]), COL_COUNT, Fill(0, BUFF_SIZE))
    {
      Configure(xyFlip);
      var _ := ClearScreen();
    }

    /** The commands of `SSD1315_DefInit` before it clears the screen. */
    method Configure(xyFlip: bool)
      modifies this
      ensures frames == old(frames) + DefInitCommands(xyFlip)
    {
      ghost var f0 := frames;
      ChargePumpModeSet(ChargePumpMode7V);
      DisplayOn(false);
      MemoryModeSet(MemModePage);
      DisplayStartLineSet(0);
      ComScanInvert(xyFlip);
      SegmentRemap(xyFlip);
      DisplayInvert(false);
      DisplayOn(true);
      EntireDisplayOn(false);
      assert frames == f0 + DefInitCommands(xyFlip);
    }

    /** `SSD1315_ClearScreen`: zeroes all staging bytes and sends the whole
        surface; it always succeeds. */
    method ClearScreen() returns (r: int)
      requires Valid()
      modifies this, buffer
      ensures Valid() && r == OK
      ensures Covers(old(buffer[..]), 0, 0, COL_COUNT, ROW_COUNT, Fill(0, BUFF_SIZE))
      ensures frames == old(frames) + RegionWrite(old(buffer[..]), 0, 0, COL_COUNT, ROW_COUNT, Fill(0, BUFF_SIZE))
      ensures buffer[..] == AfterWrite(old(buffer[..]), COL_COUNT, Fill(0, BUFF_SIZE))
    {
      ghost var b := buffer[..];
      ghost var staged := Staged(b, Fill(0, BUFF_SIZE));
      forall i | 1 <= i < buffer.Length {
        buffer[i] := 0;
      }
      assert buffer[..] == staged;
      // pages 0..PAGE_COUNT - 1, columns 0..COL_COUNT - 1
      WriteRegion(0, 0, COL_COUNT, ROW_COUNT, b, Fill(0, BUFF_SIZE));
      r := OK;
    }

    /** `SSD1315_OutputPreparedBitmap`: checks rows, columns and length in
        that order and returns the first failure untouched; otherwise copies
        the `dataSize` bytes of `data` into the buffer from index 1 on and
        sends the region. */
    method OutputPreparedBitmap(x: int, y8x: int, width: int, height8x: int, data: seq<bv8>, dataSize: int) returns (r: int)
      requires Valid()
      requires BitmapStatus(x, y8x, width, height8x, dataSize) == OK ==> dataSize <= |data|
      modifies this, buffer
      ensures Valid()
      ensures r == BitmapStatus(x, y8x, width, height8x, dataSize)
      ensures r != OK ==> frames == old(frames) && buffer[..] == old(buffer[..])
      ensures r == OK ==> Covers(old(buffer[..]), x, y8x, width, height8x, data[..dataSize])
      ensures r == OK ==> frames == old(frames) + RegionWrite(old(buffer[..]), x, y8x, width, height8x, data[..dataSize])
      ensures r == OK ==> buffer[..] == AfterWrite(old(buffer[..]), width, data[..dataSize])
    {
      if !CheckRows(y8x, height8x) {
        return ERR_INVALID_ROW;
      }
      if !CheckColumns(x, width) {
        return ERR_INVALID_COL;
      }
      var calcDataSize := DataSize(width, height8x);
      if calcDataSize != dataSize {
        return ERR_INVALID_LENGTH;
      }
      if dataSize > BUFF_SIZE {
        return ERR_INVALID_LENGTH;
      }
      ghost var b := buffer[..];
      ghost var staged := Staged(b, data[..dataSize]);
      forall i | 1 <= i <= dataSize {
        buffer[i] := data[i - 1];
      }
      assert buffer[..] == staged;
      WriteRegion(x, y8x, width, height8x, b, data[..dataSize]);
      r := OK;
    }

    /** `SSD1315_FillArea`: checks rows and columns in that order and returns
        the first failure untouched; otherwise sets the region's DATA_SIZE
        bytes of the buffer from index 1 on to `data` and sends the region.
        There is no length check. */
    method FillArea(x: int, y8x: int, width: int, height8x: int, data: bv8) returns (r: int)
      requires Valid()
      modifies this, buffer
      ensures Valid()
      ensures r == FillStatus(x, y8x, width, height8x)
      ensures r != OK ==> frames == old(frames) && buffer[..] == old(buffer[..])
      ensures r == OK ==> DataSize(width, height8x) >= 0
      ensures r == OK ==> Covers(old(buffer[..]), x, y8x, width, height8x, Fill(data, DataSize(width, height8x)))
      ensures r == OK ==> frames == old(frames) + RegionWrite(old(buffer[..]), x, y8x, width, height8x, Fill(data, DataSize(width, height8x)))
      ensures r == OK ==> buffer[..] == AfterWrite(old(buffer[..]), width, Fill(data, DataSize(width, height8x)))
    {
      if !CheckRows(y8x, height8x) {
        return ERR_INVALID_ROW;
      }
      if !CheckColumns(x, width) {
        return ERR_INVALID_COL;
      }
      var dataSize := DataSize(width, height8x);
      ValidRegionFitsBuffer(x, y8x, width, height8x);
      ghost var b := buffer[..];
      ghost var staged := Staged(b, Fill(data, dataSize));
      forall i | 1 <= i <= dataSize {
        buffer[i] := data;
      }
      assert buffer[..] == staged;
      WriteRegion(x, y8x, width, height8x, b, Fill(data, dataSize));
      r := OK;
    }

    /** The transfer both region operations end with: pages y8x / 8 ..
        (y8x + height8x) / 8 - 1 and columns x .. x + width - 1 of what is
        staged in the buffer. */
    method WriteRegion(x: int, y8x: int, width: int, height8x: int, ghost b: seq<bv8>, ghost d: seq<bv8>)
      requires Valid() && Covers(b, x, y8x, width, height8x, d)
      requires buffer[..] == Staged(b, d)
      modifies this, buffer
      ensures Valid()
      ensures frames == old(frames) + RegionWrite(b, x, y8x, width, height8x, d)
      ensures buffer[..] == AfterWrite(b, width, d)
    {
      RegionWriteTransfer(b, x, y8x, width, height8x, d, buffer[..]);
      WriteDataFromBuffer(FirstPage(y8x), LastPage(y8x, height8x), x, x + width - 1);
    }

    /** `writeDataFromBuffer`: sends the staged bytes of pages `pageStart`..`pageEnd`,
        columns `colStart`..`colEnd`, page by page, each page in chunks of at
        most CHUNK_SIZE columns. The region's bytes are staged contiguously
        from index 1, one page-row of `colEnd - colStart + 1` bytes after the
        other. Before each chunk is sent the byte in front of it is overwritten
        with the data control byte, so that control byte and chunk go out as
        one contiguous frame; those overwritten bytes are the markers. */
    method WriteDataFromBuffer(pageStart: int, pageEnd: int, colStart: int, colEnd: int)
      requires Valid()
      requires 0 <= pageStart <= pageEnd < PAGE_COUNT && 0 <= colStart <= colEnd < COL_COUNT
      modifies this, buffer
      ensures Valid()
      ensures RegionBytes(pageStart, pageEnd, colStart, colEnd) <= BUFF_SIZE
              && frames == old(frames) + RegionFrames(PageSelect, ColumnSelect, pageStart, pageEnd, colStart, colEnd, old(buffer[..]), 1)
      ensures buffer[..] == WithMarkers(old(buffer[..]), RegionBytes(pageStart, pageEnd, colStart, colEnd), colEnd - colStart + 1)
    {
      RegionFitsSurface(pageStart, pageEnd, colStart, colEnd);
      ghost var staged := buffer[..];
      ghost var total := RegionBytes(pageStart, pageEnd, colStart, colEnd);
      ghost var all := frames + RegionFrames(PageSelect, ColumnSelect, pageStart, pageEnd, colStart, colEnd, staged, 1);
      var bufPtr := 1;
      var page := pageStart;
      MarkRangeEmpty(staged, 0, total, colEnd - colStart + 1);
      while page <= pageEnd
        invariant pageStart <= page <= pageEnd + 1
        invariant 1 <= bufPtr && bufPtr + RegionBytes(page, pageEnd, colStart, colEnd) == 1 + total
        invariant IsMultiple(bufPtr - 1, colEnd - colStart + 1)
        invariant frames + RegionFrames(PageSelect, ColumnSelect, page, pageEnd, colStart, colEnd, staged, bufPtr) == all
        invariant Valid()
        invariant buffer[..] == MarkRange(staged, 0, bufPtr - 1, total, colEnd - colStart + 1)
      {
        ghost var f0 := frames;
        RegionBytesStep(page, pageEnd, colStart, colEnd);
        PageStartAddressSet((page % 256) as bv8);
        ghost var b0 := buffer[..];
        var next := WriteRow(colStart, colEnd, bufPtr, total);
        PageStepMarks(colStart, colEnd, staged, total, bufPtr, next, b0, buffer[..]);
        ghost var page0, bufPtr0 := page, bufPtr;
        page := page + 1;
        bufPtr := next;
        PageStepFrames(PageSelect, ColumnSelect, pageEnd, colStart, colEnd, staged, total, page0, bufPtr0, page, bufPtr, f0, b0, frames, all);
      }
      RegionBytesEmpty(page, pageEnd, colStart, colEnd);
      assert bufPtr - 1 == total;
    }

    /** The inner loop of `writeDataFromBuffer`: one page-row of the region,
        starting at staged index `bufPtr`, in chunks of at most CHUNK_SIZE
        columns; returns the staged index just after the row. */
    method WriteRow(colStart: int, colEnd: int, bufPtr: int, ghost total: int) returns (next: int)
      requires Valid()
      requires 0 <= colStart <= colEnd < COL_COUNT
      requires 1 <= bufPtr && IsMultiple(bufPtr - 1, colEnd - colStart + 1)
      requires bufPtr - 1 + (colEnd - colStart + 1) <= total <= BUFF_SIZE
      modifies this, buffer
      ensures Valid()
      ensures next == bufPtr + (colEnd - colStart + 1)
      ensures frames == old(frames) + RowFrames(ColumnSelect, colStart, colEnd, old(buffer[..]), bufPtr)
      ensures buffer[..] == MarkRange(old(buffer[..]), bufPtr - 1, next - 1, total, colEnd - colStart + 1)
    {
      ghost var staged := buffer[..];
      ghost var all := frames + RowFrames(ColumnSelect, colStart, colEnd, staged, bufPtr);
      next := bufPtr;
      var col := colStart;
      MarkRangeEmpty(staged, bufPtr - 1, total, colEnd - colStart + 1);
      while col <= colEnd
        invariant colStart <= col <= colEnd + 1
        invariant col <= colEnd ==> IsMultiple(col - colStart, CHUNK_SIZE)
        invariant next == bufPtr + (col - colStart)
        invariant frames + RowFrames(ColumnSelect, col, colEnd, staged, next) == all
        invariant Valid()
        invariant buffer[..] == MarkRange(staged, bufPtr - 1, next - 1, total, colEnd - colStart + 1)
      {
        col, next := WriteRowChunk(colStart, colEnd, bufPtr, col, next, total, staged, all);
      }
    }

    /** A pass of the inner loop of `writeDataFromBuffer` seen from the row:
        the frames still to send and the marked range of the buffer move on
        by the chunk at column `col`, and the next chunk again starts a whole
        number of chunks into the row. */
    method WriteRowChunk(colStart: int, colEnd: int, bufPtr: int, col: int, next: int, ghost total: int, ghost staged: seq<bv8>, ghost all: seq<Frame>)
      returns (col1: int, next1: int)
      requires Valid() && |staged| == buffer.Length
      requires 0 <= colStart <= col <= colEnd < COL_COUNT && IsMultiple(col - colStart, CHUNK_SIZE)
      requires 1 <= bufPtr && IsMultiple(bufPtr - 1, colEnd - colStart + 1)
      requires bufPtr - 1 + (colEnd - colStart + 1) <= total <= BUFF_SIZE
      requires next == bufPtr + (col - colStart)
      requires frames + RowFrames(ColumnSelect, col, colEnd, staged, next) == all
      requires buffer[..] == MarkRange(staged, bufPtr - 1, next - 1, total, colEnd - colStart + 1)
      modifies this, buffer
      ensures Valid()
      ensures col < col1 <= colEnd + 1 && (col1 <= colEnd ==> IsMultiple(col1 - colStart, CHUNK_SIZE))
      ensures next1 == bufPtr + (col1 - colStart)
      ensures frames + RowFrames(ColumnSelect, col1, colEnd, staged, next1) == all
      ensures buffer[..] == MarkRange(staged, bufPtr - 1, next1 - 1, total, colEnd - colStart + 1)
    {
      var chunk := Min(CHUNK_SIZE, colEnd - col + 1);
      ghost var f0, b0 := frames, buffer[..];
      MarkRangeAfter(staged, bufPtr - 1, next - 1, total, colEnd - colStart + 1, next, chunk);
      WriteChunk(col, colEnd, next, staged);
      next1 := next + chunk;
      col1 := col + chunk;
      ChunkStepFrames(ColumnSelect, colEnd, staged, col, next, col1, next1, f0, frames, all);
      ChunkStepMarks(colStart, colEnd, staged, bufPtr, total, col, next, col1, next1, b0, buffer[..]);
    }

    /** One pass of the inner loop of `writeDataFromBuffer`: selects column
        `col`, marks the byte in front of the chunk staged at `bufPtr` with the
        data control byte and sends marker and chunk as one frame. */
    method WriteChunk(col: int, colEnd: int, bufPtr: int, ghost staged: seq<bv8>)
      requires Valid()
      requires 0 <= col <= colEnd < COL_COUNT
      requires 1 <= bufPtr && bufPtr + Min(CHUNK_SIZE, colEnd - col + 1) <= buffer.Length <= |staged|
      requires buffer[bufPtr..bufPtr + Min(CHUNK_SIZE, colEnd - col + 1)] == staged[bufPtr..bufPtr + Min(CHUNK_SIZE, colEnd - col + 1)]
      modifies this, buffer
      ensures Valid()
      ensures buffer[..] == old(buffer[..])[bufPtr - 1 := DATA]
      ensures frames == old(frames) + (ColumnSelect(col) + [DataFrame(staged, bufPtr, Min(CHUNK_SIZE, colEnd - col + 1))])
    {
      ColumnStartAddressSet((col % 256) as bv8);
      var chunk := Min(I2C_BUFFER_SIZE - 1, colEnd - col + 1);
      buffer[bufPtr - 1] := DATA;
      assert buffer[bufPtr - 1..bufPtr + chunk] == [DATA] + staged[bufPtr..bufPtr + chunk];
      WriteToLcd(buffer[bufPtr - 1..bufPtr + chunk]);
    }
  }
}
