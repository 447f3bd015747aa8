# SSD1315 OLED driver, modelled in Dafny

This project models the core of a small C driver for the SSD1315 OLED
controller. The panel is 128 columns by 64 rows, organised as 8 pages of 8
rows; one byte holds the 8 pixels of one column of one page. The driver talks
to the controller over a two-wire bus in frames of at most 32 bytes. Each
frame starts with a control byte: 0x80 for a command, 0x40 for pixel data.

What is modelled:

- **The constants and enumerations of the header** (module `Ssd1315Defs`).
  This covers the geometry, the transfer limit, the control bytes, command
  codes and masks, error codes, memory modes, Vcomh levels and charge-pump
  modes.
- **The command encoders** (module `Commands`). Each is a pure function from
  its arguments to the 2- to 4-byte frame the C function builds. `Decode` is
  an independent reader: it reads a frame back into the command it carries,
  following the bit layout of the header. Every encoder is proved against it.
  `DefInitCommands` is the configuration sequence of `SSD1315_DefInit`.
- **Region validation** (module `Geometry`). `CHECK_ROWS`, `CHECK_COLUMNS`
  and `DATA_SIZE` are modelled, along with the status the two region
  operations return. The checks are also modelled as written in 32-bit `int`
  arithmetic (see Findings).
- **The chunked transfer** (module `Transfer`).
  - `RowFrames` and `RegionFrames` are the frame sequence `writeDataFromBuffer`
    sends for a region, read from the staging bytes.
  - `Payload`, `ChunkLengths` and `PagesSelected` are what an observer of
    that sequence sees.
  - `WithMarkers` is the staging area after the transfer. Before each chunk,
    the byte just before it is overwritten with 0x40.
- **The region operations as values** (module `Staging`). These are what a
  bitmap write, a fill and a clear stage in the buffer, send and leave
  behind.
- **The controller's display RAM** (module `Controller`). This is the
  receiving side, in the page addressing mode `SSD1315_DefInit` selects. A
  page select sets the page pointer. The two column-start frames set the
  low and the high bits of the column pointer. Each pixel byte of a data
  frame is stored at (page, column), and the column pointer advances. The
  layout lemmas take any receiver that behaves this way (`PageAddressing`),
  and `ReceivePageAddressing` shows the modelled one does. Against this
  model, a bitmap write is proved to put the caller's bytes where the
  header's description of `SSD1315_OutputPreparedBitmap` says they go.
- **The driver** (module `Driver`, class `Ssd1315`).
  - The static 1025-byte buffer is an `array<bv8>` whose byte 0 is the data
    control byte.
  - Every frame handed to the transport is appended to `frames`.
  - The methods are the C functions, with their loops. Each method's
    `ensures` ties the new buffer and the new frames to the functions above.

One might expect `SSD1315_ClearScreen` to leave the staging buffer all
zero. The code does not: `writeDataFromBuffer` (SSD1315.c:41) writes 0x40
into the byte in front of every chunk it sends. After a clear, the last byte of
each 31-byte chunk that another chunk of its page follows is 0x40, and so is
the last byte of every page row except the last one. The model follows the
code: see `Driver.Ssd1315.ClearScreen`, `Staging.AfterWriteBuffer` and
`Transfer.IsMarker`.

## Model

| member | source | states |
|---|---|---|
| Ssd1315Defs.BoolByte | SSD1315.c:74 | the C conversion of `bool` to `uint8_t` is 1 exactly for true and at most 1 |
| Ssd1315Defs.SurfaceGeometry | SSD1315.h:13-24 | the surface is 64 rows and 1024 bytes; a data frame carries at most 31 pixel bytes |
| Ssd1315Defs.ErrorCodesDistinct | SSD1315.h:86-89 | success is 0 and the four error codes are negative and pairwise distinct |
| Ssd1315Defs.MasksFitGeometry | SSD1315.h:47-70 | the low and high column-start masks together carry exactly the 7-bit column the column-address mask keeps, which is below 128; the page masks carry a page below 8 and keep every page of the surface unchanged |
| Ssd1315Defs.EnumCodesFit | SSD1315.h:91-102 | every memory-mode code passes the addressing-mode mask unchanged; every Vcomh level uses only bits 4-5 |
| Commands.DisplayOnCmd | SSD1315.c:71-77 | a command frame that decodes to display on/off with the argument |
| Commands.EntireDisplayOnCmd | SSD1315.c:79-85 | a command frame that decodes to entire-display-on with the argument |
| Commands.LowColumnCmd | SSD1315.c:87-92 | the first column-start frame: the opcode bits are 0x00 and the low nibble is that of the column |
| Commands.HighColumnCmd | SSD1315.c:93-94 | the second column-start frame: the opcode bits are 0x10 and the low 3 bits are bits 4-6 of the column |
| Commands.ColumnStartFrames | SSD1315.c:87-95 | two frames, low first: the first decodes to the low-column command with the low nibble of the column, the second to the high-column command with its bits 4-6; for every column below 128 the two together select that column |
| Commands.ColumnStartDecodes | SSD1315.c:87-95 | the pair decodes to the low and high parts; for every column below 128 the parts put back together give the column |
| Commands.ColumnStartInjective | SSD1315.c:87-95 | two columns of the surface send the same pair exactly when they are equal |
| Commands.DisplayStartLineCmd | SSD1315.c:97-103 | decodes to the line masked to 6 bits, which is the line itself below 64 |
| Commands.MemoryModeCmd | SSD1315.c:105-112 | decodes to the memory mode given |
| Commands.PageStartCmd | SSD1315.c:114-120 | a two-byte frame whose opcode bits are 0xB0 and whose low 3 bits are those of the page |
| Commands.PageStartDecodes | SSD1315.c:114-120 | the frame is a page select that decodes to the page masked to 3 bits, which is the page itself for every page of the surface |
| Commands.PageSelectIsPageStart | SSD1315.c:114-120 | a frame is a page select exactly when it decodes to a page-start command, and then to its low 3 bits |
| Commands.ContrastCmd | SSD1315.c:122-129 | decodes to the contrast given |
| Commands.SegmentRemapCmd | SSD1315.c:131-137 | decodes to the remap flag given |
| Commands.MuxClamp | SSD1315.c:140-141 | the ratio sent lies in 15..63; arguments in range are kept, smaller ones become 15 and larger ones 63 |
| Commands.MuxRatioCmd | SSD1315.c:139-144 | decodes to the clamped ratio |
| Commands.MuxClampIdempotent | SSD1315.c:140-141 | clamping twice is clamping once |
| Commands.ComScanInvertCmd | SSD1315.c:146-152 | decodes to the scan direction given, carried in bit 3 |
| Commands.DisplayOffsetCmd | SSD1315.c:154-157 | decodes to the offset given |
| Commands.ClockCmd | SSD1315.c:159-167 | decodes to the frequency in the high nibble and the divider in the low nibble, both masked to 4 bits; arguments below 16 come back unchanged |
| Commands.PrechargePeriodCmd | SSD1315.c:169-172 | decodes to the period given |
| Commands.ComPinsCmd | SSD1315.c:174-183 | decodes to both flags given, with the fixed bit 1 set |
| Commands.VcomhLevelCmd | SSD1315.c:185-188 | decodes to the Vcomh level given |
| Commands.ChargePumpModeCmd | SSD1315.c:190-197 | decodes to the charge-pump mode given |
| Commands.DisplayInvertCmd | SSD1315.c:199-205 | decodes to the invert flag given |
| Commands.ColumnAddressCmd | SSD1315.c:207-215 | decodes to both column bounds masked to 7 bits, which are the bounds themselves below 128 |
| Commands.PageAddressCmd | SSD1315.c:217-225 | decodes to both page bounds masked to 3 bits, which are the bounds themselves below 8 |
| Commands.DefInitCommandsDecode | SSD1315.c:55-64 | nine command frames that decode in order to: 7 V charge pump, display off, page addressing, start line 0, scan direction and segment remap both following `xyFlip`, normal display, display on, RAM output |
| Geometry.RowCheckIsPageBand | SSD1315.c:6 | the row check accepts exactly the bands of one or more whole pages inside the 8 pages |
| Geometry.ColumnCheckIsOnSurface | SSD1315.c:7 | the column check accepts exactly the non-empty runs of columns that all lie on the surface |
| Geometry.ValidRegionFitsBuffer | SSD1315.c:6-8 | a region passing both checks covers pages y8x/8 .. (y8x+height8x)/8-1 and columns x .. x+width-1 of the surface; its DATA_SIZE is pages times width, between 1 and 1024, so with sums that fit in 32 bits the test at SSD1315.c:252 never fires (where they wrap, see Findings) |
| Geometry.BitmapStatus | SSD1315.c:234-255 | success exactly for a page band, a run of columns on the surface and a matching length; the row error exactly when the rows fail; the column error exactly when the rows pass and the columns fail; the length error exactly when both pass and the length differs |
| Geometry.FillStatus | SSD1315.c:264-273 | success exactly for a page band and a run of columns on the surface; the row error before the column error, with no length check |
| Geometry.Wrap32 | SSD1315.c:6-7 | the result is a 32-bit value congruent to the sum modulo 2^32, and equal to it when no overflow occurs |
| Geometry.Int32ChecksAgreeWithoutOverflow | SSD1315.c:6-7 | when the two sums fit in 32 bits, the checks as written agree with the checks on mathematical integers |
| Geometry.RowCheckInt32Overflow | SSD1315.c:6 | y8x = 8 and height8x = 0x7FFFFFF8 pass the row check as written but not the intended check, and their DATA_SIZE exceeds the buffer, so the capacity test at SSD1315.c:252 fires; y8x = 0x7FFFFFF8 and height8x = 8 pass too, with a DATA_SIZE the capacity test accepts and a last page below the first |
| Geometry.ColumnCheckInt32Overflow | SSD1315.c:7 | x = 8 and width = 0x7FFFFFF8 pass the column check as written but not the intended check, and their DATA_SIZE exceeds the buffer, so the capacity test at SSD1315.c:252 fires |
| Transfer.ColumnLoopInt32Stalls | SSD1315.c:35-46 | x = 0x7FFFFFF8 and width = 8 pass the column check as written with a DATA_SIZE the capacity test accepts; in 32-bit arithmetic the column loop's first step wraps `col` to -2^31 and every later chunk has size 0, so `col` never reaches past colEnd |
| Transfer.TimesProduct | SSD1315.c:8 | the page-by-page byte count of a region is pages times width |
| Transfer.RegionFitsSurface | SSD1315.c:24-49 | a region of the surface holds at most 1024 bytes |
| Transfer.ChunkCountCeiling | SSD1315.c:35-46 | the inner loop makes ⌈n/31⌉ chunks for n columns |
| Transfer.ChunksSplitWidth | SSD1315.c:40-46 | a page of n columns is split into ⌈n/31⌉ chunks of 1 to 31 columns that add up to n, all of them full except the last |
| Transfer.RowFramesAt | SSD1315.c:35-46 | chunk j of a page is the column select of column colStart + 31·j followed by the data frame of the next min(31, remaining) staged bytes |
| Transfer.RowFramesLength | SSD1315.c:35-46 | one page sends three frames per chunk |
| Transfer.RowFramesChunkLengths | SSD1315.c:40-46 | the data frames of one page have the chunk lengths of `Chunks` |
| Transfer.RowFramesPayload | SSD1315.c:40-46 | the data frames of one page carry exactly that page's staged bytes, in order |
| Transfer.RowFramesSelectNoPage | SSD1315.c:35-46 | one page's frames select no page |
| Transfer.RowFramesWellFormed | SSD1315.c:28-46 | every frame of one page is a command frame or a data frame of 2 to 32 bytes |
| Transfer.ColumnSelectFrames | SSD1315.c:37 | a column select carries no pixels and selects no page |
| Transfer.PageSelectFrame | SSD1315.c:32 | a page select carries no pixels and selects its page |
| Transfer.RegionFramesPages | SSD1315.c:30-32 | a transfer selects every page from the first to the last once, in ascending order |
| Transfer.RegionFramesPayload | SSD1315.c:30-48 | the data frames of a transfer carry exactly the region's staged bytes, in order |
| Transfer.RegionFramesChunkCount | SSD1315.c:30-46 | a transfer sends ⌈width/31⌉ data frames per page |
| Transfer.RegionFramesWellFormed | SSD1315.c:28-48 | every frame of a transfer is a command frame or a data frame of 2 to 32 bytes |
| Transfer.RegionFramesReadOnlyRegion | SSD1315.c:24-49 | the frames depend only on the region's staged bytes |
| Transfer.RowFramesReadOnlyRow | SSD1315.c:35-46 | one page's frames depend only on that page's staged bytes |
| Transfer.RegionTransfer | SSD1315.c:24-49 | with the driver's encoders, a transfer selects pages first..last in order, sends pages × ⌈width/31⌉ data frames, carries exactly the staged bytes and only well-formed frames |
| Transfer.PageSelectSelectsPages | SSD1315.c:32 | the page-start encoder, given an `int` page converted to a byte, selects that page for every page of the surface |
| Transfer.ColumnSelectSelectsColumns | SSD1315.c:37 | the column-start encoder sends two command frames per column and no page select; they decode back to the column |
| Transfer.ChunkMarkers | SSD1315.c:41 | the chunk at column offset c of a page row puts its marker at its own staged offset, and no marker falls among its other bytes |
| Transfer.WithMarkersAt | SSD1315.c:35-46 | after a transfer, the staged byte of page row p at column offset c is 0x40 exactly when it lies within the bytes sent and c is 0, 31, 62, ... (where a chunk of that row starts); every other byte keeps its staged value |
| Transfer.MarkChunk | SSD1315.c:41 | writing one chunk's marker extends the marked prefix to the end of that chunk |
| Transfer.ChunkStepFrames | SSD1315.c:37-46 | one pass of the inner loop sends the next chunk's frames and leaves the rest of the page still to send |
| Transfer.ChunkStepMarks | SSD1315.c:41-46 | one pass of the inner loop extends the marked prefix of the buffer to the next chunk |
| Transfer.PageStepFrames | SSD1315.c:30-47 | one pass of the outer loop sends the page select and the page's row and leaves the later pages still to send |
| Transfer.PageStepMarks | SSD1315.c:30-47 | after one pass of the outer loop the buffer is marked up to the next page row |
| Staging.Staged | SSD1315.c:257 | the copy keeps byte 0, puts the data from index 1 on and keeps every byte after it |
| Staging.Fill | SSD1315.c:277 | `n` copies of the fill byte |
| Staging.RegionWriteTransfer | SSD1315.c:257-260 | a region write is the transfer of its pages and columns over exactly the staged bytes, and leaves those bytes marked |
| Staging.RegionWriteSends | SSD1315.c:257-260 | a region write selects each page of the band once in ascending order, sends ⌈width/31⌉ chunks per page, sends exactly the caller's data as pixel data and only well-formed frames |
| Staging.BandTransfer | SSD1315.c:260 | the transfer of pages first..last and columns x..x+width-1 over staged data sends that data, pages × ⌈width/31⌉ chunks and each page once |
| Staging.AfterWriteBuffer | SSD1315.c:41-45 | after a region write byte 0 is 0x40; each staged byte is in place except where the next chunk's control byte was written; bytes past the data are unchanged |
| Staging.FillSendsFillByte | SSD1315.c:276-280 | a fill sends DATA_SIZE pixel bytes, each equal to the fill byte |
| Staging.ClearScreenSends | SSD1315.c:229-230 | a clear selects pages 0..7 in order, sends 40 data frames and 1024 zero bytes of pixel data |
| Controller.Store | SSD1315.h:149-150 | storing pixel bytes keeps the page pointer and advances the column pointer by their number |
| Controller.StoreCell | SSD1315.h:149-150 | byte c of a data frame lands in the current page, c columns right of the column pointer |
| Controller.StoreKeeps | SSD1315.h:149-150 | storing changes no display RAM cell outside the run it writes |
| Controller.ColumnSelectSetsColumn | SSD1315.c:87-95 | on the controller, the column-start pair for a column of the surface sets the column pointer to that column and changes nothing else |
| Controller.PageSelectSetsPage | SSD1315.c:114-120 | on the controller, the page-start frame for a page of the surface sets the page pointer to that page and changes nothing else |
| Controller.ReceivePageAddressing | SSD1315.c:58 | the modelled controller, in page addressing mode, stores data frames, follows page selects and follows column selects as the layout proofs require |
| Controller.RowFramesStore | SSD1315.c:35-47 | one page's chunks leave the display RAM as the page row's bytes stored from its first column on |
| Controller.RegionFramesStore | SSD1315.c:30-48 | the transfer of a region leaves the display RAM as the region's bytes stored row by row, one page per row of the data |
| Controller.StoreRowsCell | SSD1315.h:149-150 | in the rows stored, byte r·w + c sits at page first + r, column colStart + c |
| Controller.StoreRowsKeeps | SSD1315.h:149-150 | the rows stored change no cell outside their pages and columns |
| Controller.RegionWriteStores | SSD1315.c:257-260 | a region write leaves the display RAM as the caller's data stored row by row over the region's pages and columns |
| Controller.RegionWritePixel | SSD1315.h:149-150 | data byte r·width + c, the byte of rows y8x+8r .. y8x+8r+7 in column x+c, lands at page y8x/8 + r, column x + c |
| Controller.RegionWriteOutside | SSD1315.c:234-262 | a bitmap write changes no display RAM cell outside its pages and columns |
| Driver.Ssd1315.constructor | SSD1315.c:13 | byte 0 of the buffer is 0x40, the other 1024 bytes are 0, nothing has been sent |
| Driver.Ssd1315.WriteToLcd | SSD1315.c:15-22 | the frame is appended to what has been sent, whatever the transport returns |
| Driver.Ssd1315.DisplayOn | SSD1315.c:71-77 | sends exactly the display on/off frame |
| Driver.Ssd1315.EntireDisplayOn | SSD1315.c:79-85 | sends exactly the entire-display-on frame |
| Driver.Ssd1315.ColumnStartAddressSet | SSD1315.c:87-95 | sends the low-nibble frame, then the high-bits frame |
| Driver.Ssd1315.DisplayStartLineSet | SSD1315.c:97-103 | sends exactly the start-line frame |
| Driver.Ssd1315.MemoryModeSet | SSD1315.c:105-112 | sends exactly the memory-mode frame |
| Driver.Ssd1315.PageStartAddressSet | SSD1315.c:114-120 | sends exactly the page-start frame |
| Driver.Ssd1315.ContrastSet | SSD1315.c:122-129 | sends exactly the contrast frame |
| Driver.Ssd1315.SegmentRemap | SSD1315.c:131-137 | sends exactly the segment-remap frame |
| Driver.Ssd1315.MuxRatioSet | SSD1315.c:139-144 | sends exactly the frame of the clamped ratio |
| Driver.Ssd1315.ComScanInvert | SSD1315.c:146-152 | sends exactly the scan-direction frame |
| Driver.Ssd1315.DisplayOffsetSet | SSD1315.c:154-157 | sends exactly the display-offset frame |
| Driver.Ssd1315.ClockSet | SSD1315.c:159-167 | sends exactly the clock frame |
| Driver.Ssd1315.PrechargePeriodSet | SSD1315.c:169-172 | sends exactly the pre-charge frame |
| Driver.Ssd1315.ComPinsSet | SSD1315.c:174-183 | sends exactly the COM-pins frame |
| Driver.Ssd1315.VcomhLevelSet | SSD1315.c:185-188 | sends exactly the Vcomh frame |
| Driver.Ssd1315.ChargePumpModeSet | SSD1315.c:190-197 | sends exactly the charge-pump frame |
| Driver.Ssd1315.DisplayInvert | SSD1315.c:199-205 | sends exactly the display-invert frame |
| Driver.Ssd1315.ColumnAddressSet | SSD1315.c:207-215 | sends exactly the column-range frame |
| Driver.Ssd1315.PageAddressSet | SSD1315.c:217-225 | sends exactly the page-range frame |
| Driver.Ssd1315.DefInit | SSD1315.c:55-69 | sends the nine configuration frames, then exactly what a clear of the whole surface sends, and leaves the buffer as that clear does |
| Driver.Ssd1315.Configure | SSD1315.c:56-64 | sends the configuration sequence in order |
| Driver.Ssd1315.ClearScreen | SSD1315.c:227-232 | returns 0; sends the transfer of the whole surface over 1024 zero bytes and leaves those zeros with the markers written |
| Driver.Ssd1315.OutputPreparedBitmap | SSD1315.c:234-262 | returns the status of the checks in their order; on failure nothing is sent and the buffer is unchanged; on success it sends the region write of the caller's `dataSize` bytes and leaves them staged with the markers written |
| Driver.Ssd1315.FillArea | SSD1315.c:264-282 | returns the status of the row and column checks; on failure nothing is sent and the buffer is unchanged; on success it sends the region write of DATA_SIZE copies of the fill byte and leaves them staged with the markers written |
| Driver.Ssd1315.WriteRegion | SSD1315.c:260 | sends the transfer of pages y8x/8 .. (y8x+height8x)/8-1 and columns x..x+width-1 of the staged data and marks the buffer |
| Driver.Ssd1315.WriteDataFromBuffer | SSD1315.c:24-49 | sends exactly `RegionFrames` of the buffer as it was on entry and leaves it as `WithMarkers` of it; byte 0 stays 0x40 |
| Driver.Ssd1315.WriteRow | SSD1315.c:35-47 | sends exactly one page's `RowFrames`, advances the staging offset by the width and marks that page row |
| Driver.Ssd1315.WriteRowChunk | SSD1315.c:36-46 | one pass of the inner loop keeps the loop invariant and advances the column by 1 to 31 |
| Driver.Ssd1315.WriteChunk | SSD1315.c:37-42 | writes 0x40 in front of the chunk and sends the column select, then the data frame of 0x40 and the chunk |

## Left out

- The transport (`i2cWrite`) and the debug sink (`debugPrint`) are foreign function pointers. The model records each frame handed to the transport. Its result is an arbitrary value that changes nothing, as in the code. The bus address and the formatted debug message are not modelled.
- `SSD1315_Init` only stores the platform pointer. The constructor models the static buffer initialiser instead. The platform is not part of the state.
- The names the source gets wrong do not appear in the model: the platform struct, the enum type names and the missing `SSD1315_I2C_ADDR`.
- The commented-out delay in `SSD1315_DefInit` and all timing.
- What the configuration commands do to the panel (charge pump, contrast, Vcomh and so on). Only their byte encodings are modelled. The scroll, fade, zoom, Iref and NOP codes have no function in the driver and are left out.
- The header mentions an `OUTPUT_FLAG_DATA_BYTE_PREFIXED` flag when it describes `dataSize`. No such flag exists. The code demands exactly DATA_SIZE bytes, and so does the model.
- The bit order inside a pixel byte (least significant bit at the top) is a property of the panel. The driver never looks inside a byte. The model proves where each byte lands in display RAM, not which pixel each bit lights.
- The controller model covers page addressing mode only, the mode `SSD1315_DefInit` selects. Its column pointer does not wrap at the last column. The driver's chunks never reach past column 127, so the wrap is never exercised. Commands other than page and column selects leave the pointers and the display RAM unchanged in this model.
- `data` of `OutputPreparedBitmap` is a sequence rather than a pointer. The caller must supply at least `dataSize` bytes when the checks pass, as the C caller must.
- Driver.Ssd1315.OutputPreparedBitmap: the region arguments are unbounded integers, so the checks are modelled without 32-bit wrap-around. The wrap-around is shown separately under Findings.
- Driver.Ssd1315.FillArea: the region arguments are unbounded integers, so the checks are modelled without 32-bit wrap-around. The wrap-around is shown separately under Findings.
- Concurrency and reentrancy. The driver uses global state and is single-threaded.

## Findings

| source | as written | input that shows it | evidently intended | confidence | as-written member | corrected member |
|---|---|---|---|---|---|---|
| SSD1315.c:6 | `y8x + height8x` is a signed 32-bit sum, and it wraps to a negative value for large heights, so the row check passes | y8x = 8, height8x = 0x7FFFFFF8, x = 0, width = 1: the sum wraps to -2^31 and the check passes. `OutputPreparedBitmap` is stopped by its capacity test at SSD1315.c:252, since DATA_SIZE is 0x0FFFFFFF. `FillArea` has no such test and sets 0x0FFFFFFF bytes from `buffer + 1`. With y8x = 0x7FFFFFF8, height8x = 8 both calls pass every test and return 0 having sent nothing | reject every band that does not fit in the 64 rows | not executed | Geometry.RowCheckInt32Overflow | Geometry.ValidRegionFitsBuffer |
| SSD1315.c:7 | `x + width` is a signed 32-bit sum, and it wraps to a negative value for large widths, so the column check passes | x = 8, width = 0x7FFFFFF8, y8x = 0, height8x = 8: the check passes. `OutputPreparedBitmap` is stopped by its capacity test at SSD1315.c:252, since DATA_SIZE is 0x7FFFFFF8. `FillArea` has no such test and sets 0x7FFFFFF8 bytes from `buffer + 1` | reject every run of columns that does not fit in the 128 columns | not executed | Geometry.ColumnCheckInt32Overflow | Geometry.ValidRegionFitsBuffer |
| SSD1315.c:35-46 | `colEnd - col + 1` and `col += chunk` are signed 32-bit sums, and the column check at SSD1315.c:7 lets through a run that ends at the largest `int`, so `col` wraps and the column loop never ends | x = 0x7FFFFFF8, width = 8, y8x = 0, height8x = 8, dataSize = 8: every test passes; after the first chunk `col` is -2^31, every later chunk is 0 bytes long and `col` stays put, so `OutputPreparedBitmap` and `FillArea` keep sending the control byte alone | reject the run, so that the loop only ever walks columns 0..127 | not executed | Transfer.ColumnLoopInt32Stalls | Geometry.ValidRegionFitsBuffer |
