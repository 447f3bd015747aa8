/** Region validation of the SSD1315 driver: the row check, the column check
    and the byte count of a region, with the codes the region operations return.
    The checks here compare mathematical integers; `CheckRowsInt32` and
    `CheckColumnsInt32` are the same macros evaluated with 32-bit `int`
    arithmetic as written, where the sum of two large arguments wraps. */
module Geometry {
  import opened Ssd1315Defs

  /** CHECK_ROWS: a non-empty band of whole pages inside the 64 rows. */
  predicate CheckRows(y8x: int, height8x: int) {
    && y8x >= 0 && height8x > 0
    && y8x + height8x <= PAGE_COUNT * BITS_PER_PAGE
    && y8x % BITS_PER_PAGE == 0 && height8x % BITS_PER_PAGE == 0
  }

  /** CHECK_COLUMNS: a non-empty run of columns inside the 128 columns. */
  predicate CheckColumns(x: int, width: int) {
    x >= 0 && width > 0 && x + width <= COL_COUNT
  }

  /** DATA_SIZE: bytes of a region, one per column per page. */
  function DataSize(width: int, height8x: int): int {
    height8x / BITS_PER_PAGE * width
  }

  /** `count` whole pages starting at page `first`, given in rows as (y8x, height8x). */
  predicate IsPageBand(first: int, count: int, y8x: int, height8x: int) {
    && 0 <= first && 1 <= count && first + count <= PAGE_COUNT
    && y8x == first * BITS_PER_PAGE && height8x == count * BITS_PER_PAGE
  }

  predicate IsColumn(c: int) {
    0 <= c < COL_COUNT
  }

  /** The row check accepts exactly the bands of whole pages on the surface. */
  lemma {:induction false} RowCheckIsPageBand(y8x: int, height8x: int)
    ensures CheckRows(y8x, height8x) <==> exists first, count :: IsPageBand(first, count, y8x, height8x)
  {
    if CheckRows(y8x, height8x) {
      assert IsPageBand(y8x / BITS_PER_PAGE, height8x / BITS_PER_PAGE, y8x, height8x);
    }
  }

  /** The column check accepts exactly the non-empty column runs whose every column is on the surface. */
  lemma {:induction false} ColumnCheckIsOnSurface(x: int, width: int)
    ensures CheckColumns(x, width) <==> width > 0 && forall c :: x <= c < x + width ==> IsColumn(c)
  {
    if width > 0 && forall c :: x <= c < x + width ==> IsColumn(c) {
      assert IsColumn(x) && IsColumn(x + width - 1);
    }
  }

  /** First and last page a valid row band covers, as `writeDataFromBuffer` receives them. */
  function FirstPage(y8x: int): int {
    y8x / BITS_PER_PAGE
  }

  function LastPage(y8x: int, height8x: int): int {
    (y8x + height8x) / BITS_PER_PAGE - 1
  }

  /** A valid region spans pages FirstPage..LastPage of the surface and columns
      x..x+width-1, and its byte count is pages times width, between 1 and the
      whole surface: with sums that do not wrap, the defensive
      `dataSize > sizeof(buffer) - 1` test can never fire. */
  lemma {:induction false} ValidRegionFitsBuffer(x: int, y8x: int, width: int, height8x: int)
    requires CheckRows(y8x, height8x) && CheckColumns(x, width)
    ensures 0 <= FirstPage(y8x) <= LastPage(y8x, height8x) < PAGE_COUNT
    ensures 0 <= x <= x + width - 1 < COL_COUNT
    ensures LastPage(y8x, height8x) - FirstPage(y8x) + 1 == height8x / BITS_PER_PAGE
    ensures DataSize(width, height8x) == (LastPage(y8x, height8x) - FirstPage(y8x) + 1) * width
    ensures 1 <= DataSize(width, height8x) <= BUFF_SIZE
  {
    var pages := height8x / BITS_PER_PAGE;
    assert LastPage(y8x, height8x) - FirstPage(y8x) + 1 == pages;
    assert 1 <= pages <= PAGE_COUNT;
    assert pages * width <= PAGE_COUNT * width <= PAGE_COUNT * COL_COUNT;
  }

  /** The status `SSD1315_OutputPreparedBitmap` returns before it touches the
      buffer: rows are checked first, then columns, then the length (and, as a
      defence, the capacity of the buffer). */
  function BitmapStatus(x: int, y8x: int, width: int, height8x: int, dataSize: int): (r: int)
    ensures r == OK <==> (exists first, count :: IsPageBand(first, count, y8x, height8x))
                         && width > 0 && (forall c :: x <= c < x + width ==> IsColumn(c))
                         && dataSize == DataSize(width, height8x)
    ensures r == ERR_INVALID_ROW <==> !CheckRows(y8x, height8x)
    ensures r == ERR_INVALID_COL <==> CheckRows(y8x, height8x) && !CheckColumns(x, width)
    ensures r == ERR_INVALID_LENGTH <==>
              CheckRows(y8x, height8x) && CheckColumns(x, width) && dataSize != DataSize(width, height8x)
  {
    RowCheckIsPageBand(y8x, height8x);
    ColumnCheckIsOnSurface(x, width);
    if !CheckRows(y8x, height8x) then ERR_INVALID_ROW
    else if !CheckColumns(x, width) then ERR_INVALID_COL
    else if DataSize(width, height8x) != dataSize then ERR_INVALID_LENGTH
    else if dataSize > BUFF_SIZE then
      ValidRegionFitsBuffer(x, y8x, width, height8x);
      ERR_INVALID_LENGTH
    else OK
  }

  /** The status `SSD1315_FillArea` returns: the same row and column checks, no length check. */
  function FillStatus(x: int, y8x: int, width: int, height8x: int): (r: int)
    ensures r == OK <==> (exists first, count :: IsPageBand(first, count, y8x, height8x))
                         && width > 0 && (forall c :: x <= c < x + width ==> IsColumn(c))
    ensures r == ERR_INVALID_ROW <==> !CheckRows(y8x, height8x)
    ensures r == ERR_INVALID_COL <==> CheckRows(y8x, height8x) && !CheckColumns(x, width)
  {
    RowCheckIsPageBand(y8x, height8x);
    ColumnCheckIsOnSurface(x, width);
    if !CheckRows(y8x, height8x) then ERR_INVALID_ROW
    else if !CheckColumns(x, width) then ERR_INVALID_COL
    else OK
  }

  // ---- The checks as written, in 32-bit `int` arithmetic ----

  predicate IsInt32(v: int) {
    -0x8000_0000 <= v < 0x8000_0000
  }

  /** The value a 32-bit two's-complement `int` holds after an overflowing sum. */
  function Wrap32(v: int): (r: int)
    ensures IsInt32(r) && (r - v) % 0x1_0000_0000 == 0
    ensures IsInt32(v) ==> r == v
  {
    (v + 0x8000_0000) % 0x1_0000_0000 - 0x8000_0000
  }

  /** CHECK_ROWS as written: `y8x + height8x` is an `int` sum that can wrap. */
  predicate CheckRowsInt32(y8x: int, height8x: int)
    requires IsInt32(y8x) && IsInt32(height8x)
  {
    && y8x >= 0 && height8x > 0
    && Wrap32(y8x + height8x) <= PAGE_COUNT * BITS_PER_PAGE
    && y8x % BITS_PER_PAGE == 0 && height8x % BITS_PER_PAGE == 0
  }

  /** CHECK_COLUMNS as written: `x + width` is an `int` sum that can wrap. */
  predicate CheckColumnsInt32(x: int, width: int)
    requires IsInt32(x) && IsInt32(width)
  {
    x >= 0 && width > 0 && Wrap32(x + width) <= COL_COUNT
  }

  /** Where the sums do not overflow, the checks as written agree with the checks above. */
  lemma {:induction false} Int32ChecksAgreeWithoutOverflow(x: int, y8x: int, width: int, height8x: int)
    requires IsInt32(x) && IsInt32(y8x) && IsInt32(width) && IsInt32(height8x)
    requires IsInt32(y8x + height8x) && IsInt32(x + width)
    ensures CheckRowsInt32(y8x, height8x) == CheckRows(y8x, height8x)
    ensures CheckColumnsInt32(x, width) == CheckColumns(x, width)
  {
  }

  /** The capacity test of `SSD1315_OutputPreparedBitmap` as written: `dataSize`
      is compared with the unsigned `sizeof(buffer) - 1`, so a negative size
      converts to a huge value and fails it as well. */
  predicate CapacityTestFires(dataSize: int) {
    dataSize < 0 || dataSize > BUFF_SIZE
  }

  /** A band far below the surface passes the row check as written. Its
      DATA_SIZE is far larger than the buffer: the capacity test stops
      `OutputPreparedBitmap`, but `FillArea` has no such test and fills it.
      A one-page band starting at the last page row a 32-bit `int` can hold
      passes too, fits the capacity test, and its last page comes out below
      its first, so the page loop runs zero times and the call returns OK. */
  lemma {:induction false} RowCheckInt32Overflow()
    ensures IsInt32(8) && IsInt32(0x7FFF_FFF8)
    ensures CheckRowsInt32(8, 0x7FFF_FFF8) && !CheckRows(8, 0x7FFF_FFF8)
    ensures DataSize(1, 0x7FFF_FFF8) > BUFF_SIZE && CapacityTestFires(DataSize(1, 0x7FFF_FFF8))
    ensures CheckRowsInt32(0x7FFF_FFF8, 8) && !CheckRows(0x7FFF_FFF8, 8)
    ensures !CapacityTestFires(DataSize(1, 8))
    ensures Wrap32(0x7FFF_FFF8 + 8) / BITS_PER_PAGE - 1 < FirstPage(0x7FFF_FFF8)
  {
  }

  /** A run far wider than the surface passes the column check as written. Its
      DATA_SIZE is far larger than the buffer: the capacity test stops
      `OutputPreparedBitmap`, but `FillArea` has no such test and fills it. */
  lemma {:induction false} ColumnCheckInt32Overflow()
    ensures IsInt32(8) && IsInt32(0x7FFF_FFF8)
    ensures CheckColumnsInt32(8, 0x7FFF_FFF8) && !CheckColumns(8, 0x7FFF_FFF8)
    ensures CheckRows(0, 8) && DataSize(0x7FFF_FFF8, 8) > BUFF_SIZE
    ensures CapacityTestFires(DataSize(0x7FFF_FFF8, 8))
  {
  }
}
