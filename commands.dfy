/** The command encoders of the SSD1315 driver: each turns its arguments into
    one fixed 2- to 4-byte frame that starts with the command control byte.
    `Decode` reads a frame back into the command it carries, following the
    bit layout the header documents; every encoder is stated against it. */
module Commands {
  import opened Ssd1315Defs

  /** A configuration or addressing command with its decoded parameters. */
  datatype Command =
    | DisplayOn(enable: bool)
    | EntireDisplayOn(enable: bool)
    | LowColumnStart(low: bv8)        // bits 0..3 of the start column
    | HighColumnStart(high: bv8)      // bits 4..6 of the start column
    | DisplayStartLine(line: bv8)
    | MemoryMode(memMode: MemMode)
    | PageStart(page: bv8)
    | Contrast(contrast: bv8)
    | SegmentRemap(remap: bool)
    | MuxRatio(mux: bv8)
    | ComScanInvert(invert: bool)
    | DisplayOffset(offset: bv8)
    | Clock(freq: bv8, divider: bv8)
    | PrechargePeriod(period: bv8)
    | ComPins(alternative: bool, leftRightRemap: bool)
    | VcomhLevel(level: VcomLevel)
    | ChargePump(pumpMode: ChargePumpMode)
    | DisplayInvert(invert: bool)
    | ColumnAddress(begin: bv8, end: bv8)
    | PageAddress(begin: bv8, end: bv8)

  datatype Option<T> = None | Some(value: T)

  function DecodeMemMode(b: bv8): Option<MemMode> {
    if b == 0x00 then Some(MemModeHoriz)
    else if b == 0x01 then Some(MemModeVert)
    else if b == 0x02 then Some(MemModePage)
    else None
  }

  function DecodeVcomLevel(b: bv8): Option<VcomLevel> {
    if b == 0x00 then Some(VcomLevel065)
    else if b == 0x10 then Some(VcomLevel071)
    else if b == 0x20 then Some(VcomLevel077)
    else if b == 0x30 then Some(VcomLevel083)
    else None
  }

  function DecodeChargePump(b: bv8): Option<ChargePumpMode> {
    if b == 0x10 then Some(ChargePumpDisable)
    else if b == 0x14 then Some(ChargePumpMode7V)
    else if b == 0x94 then Some(ChargePumpMode8_5V)
    else if b == 0x95 then Some(ChargePumpMode9V)
    else None
  }

  /** The command a frame carries, read by opcode and length after the command
      codes and masks of SSD1315.h; None for anything that is not a well-formed
      command frame. This is the model's reading of those codes. */
  function Decode(f: Frame): Option<Command> {
    if |f| < 2 || f[0] != CMD then None
    else
      var op := f[1];
      if |f| == 2 then
        if op & 0xF0 == CMD_LCS then Some(LowColumnStart(op & 0x0F))
        else if op & 0xF8 == CMD_HCS then Some(HighColumnStart(op & 0x07))
        else if op & 0xC0 == CMD_DSL then Some(DisplayStartLine(op & 0x3F))
        else if op & 0xF8 == CMD_PSA then Some(PageStart(op & 0x07))
        else if op & 0xFE == CMD_SR then Some(SegmentRemap(op & 1 == 1))
        else if op & 0xFE == CMD_EDON then Some(EntireDisplayOn(op & 1 == 1))
        else if op & 0xFE == CMD_DINV then Some(DisplayInvert(op & 1 == 1))
        else if op & 0xFE == CMD_DON then Some(DisplayOn(op & 1 == 1))
        else if op & 0xF7 == CMD_COSD then Some(ComScanInvert(op & 0x08 != 0))
        else None
      else if |f| == 3 then
        var p := f[2];
        if op == CMD_MAM then
          match DecodeMemMode(p)
          case Some(m) => Some(MemoryMode(m))
          case None => None
        else if op == CMD_CC then Some(Contrast(p))
        else if op == CMD_MR then Some(MuxRatio(p))
        else if op == CMD_DO then Some(DisplayOffset(p))
        else if op == CMD_DCDR then Some(Clock(p >> 4, p & 0x0F))
        else if op == CMD_PCP then Some(PrechargePeriod(p))
        else if op == CMD_CPHC && p & 0xCF == CMD_CPHC_VALUE then
          Some(ComPins(p & 0x10 != 0, p & 0x20 != 0))
        else if op == CMD_VCSL then
          match DecodeVcomLevel(p)
          case Some(l) => Some(VcomhLevel(l))
          case None => None
        else if op == CMD_CPS then
          match DecodeChargePump(p)
          case Some(m) => Some(ChargePump(m))
          case None => None
        else None
      else if |f| == 4 then
        if op == CMD_CA && f[2] < 0x80 && f[3] < 0x80 then Some(ColumnAddress(f[2], f[3]))
        else if op == CMD_PA && f[2] < 0x08 && f[3] < 0x08 then Some(PageAddress(f[2], f[3]))
        else None
      else None
  }

  /** A command frame: the command control byte and one to three more bytes. */
  predicate IsCommandFrame(f: Frame) {
    2 <= |f| <= 4 && f[0] == CMD
  }

  function DisplayOnCmd(enable: bool): (r: Frame)
    ensures IsCommandFrame(r) && Decode(r) == Some(DisplayOn(enable))
  {
    [CMD, CMD_DON | BoolByte(enable)]
  }

  function EntireDisplayOnCmd(enable: bool): (r: Frame)
    ensures IsCommandFrame(r) && Decode(r) == Some(EntireDisplayOn(enable))
  {
    [CMD, CMD_EDON | BoolByte(enable)]
  }

  /** First frame of a column-start select: the low nibble of the column. */
  function LowColumnCmd(addr: bv8): (r: Frame)
    ensures IsCommandFrame(r) && |r| == 2
    ensures r[1] & 0xF0 == CMD_LCS && r[1] & 0x0F == addr & 0x0F
  {
    [CMD, CMD_LCS | (addr & CMD_LCS_MASK)]
  }

  /** Second frame of a column-start select: bits 4..6 of the column. */
  function HighColumnCmd(addr: bv8): (r: Frame)
    ensures IsCommandFrame(r) && |r| == 2
    ensures r[1] & 0xF8 == CMD_HCS && r[1] & 0x07 == (addr >> 4) & 0x07
  {
    [CMD, CMD_HCS | ((addr >> 4) & CMD_HCS_MASK)]
  }

  /** The two frames a column-start select sends, low nibble first: they carry
      the low and the high part of the column, and on the surface the two parts
      put back together give the column. */
  function ColumnStartFrames(addr: bv8): (r: seq<Frame>)
    ensures |r| == 2 && r[0] == LowColumnCmd(addr) && r[1] == HighColumnCmd(addr)
    ensures Decode(r[0]) == Some(LowColumnStart(addr & 0x0F))
    ensures Decode(r[1]) == Some(HighColumnStart((addr >> 4) & 0x07))
    ensures addr < 0x80 ==> ColumnOf(r[0], r[1]) == Some(addr)
  {
    ColumnStartDecodes(addr);
    [LowColumnCmd(addr), HighColumnCmd(addr)]
  }

  /** The column-start pair decodes to the low and the high part of the
      column, and for every column of the surface the two parts put back
      together give the column. */
  lemma {:induction false} ColumnStartDecodes(addr: bv8)
    ensures Decode(LowColumnCmd(addr)) == Some(LowColumnStart(addr & 0x0F))
    ensures Decode(HighColumnCmd(addr)) == Some(HighColumnStart((addr >> 4) & 0x07))
    ensures addr < 0x80 ==> ColumnOf(LowColumnCmd(addr), HighColumnCmd(addr)) == Some(addr)
  {
  }

  /** The column a low/high pair of column-start frames selects. */
  function ColumnOf(lo: Frame, hi: Frame): Option<bv8> {
    match (Decode(lo), Decode(hi))
    case (Some(LowColumnStart(l)), Some(HighColumnStart(h))) => Some((h << 4) | l)
    case _ => None
  }

  /** Every column of the surface has its own column-start pair. */
  lemma {:induction false} ColumnStartInjective(a: bv8, b: bv8)
    requires a < 0x80 && b < 0x80
    ensures ColumnStartFrames(a) == ColumnStartFrames(b) <==> a == b
  {
  }

  function DisplayStartLineCmd(line: bv8): (r: Frame)
    ensures IsCommandFrame(r) && Decode(r) == Some(DisplayStartLine(line & 0x3F))
    ensures line < 64 ==> Decode(r) == Some(DisplayStartLine(line))
  {
    [CMD, CMD_DSL | (line & CMD_DSL_MASK)]
  }

  function MemoryModeCmd(mode: MemMode): (r: Frame)
    ensures IsCommandFrame(r) && Decode(r) == Some(MemoryMode(mode))
  {
    [CMD, CMD_MAM, MemModeCode(mode) & CMD_MAM_MASK]
  }

  function PageStartCmd(addr: bv8): (r: Frame)
    ensures IsCommandFrame(r) && |r| == 2
    ensures r[1] & 0xF8 == CMD_PSA && r[1] & 0x07 == addr & 0x07
  {
    [CMD, CMD_PSA | (addr & CMD_PSA_MASK)]
  }

  /** A page select: a two-byte command frame whose opcode carries a page in its low 3 bits. */
  predicate IsPageSelect(f: Frame) {
    |f| == 2 && f[0] == CMD && f[1] & 0xF8 == CMD_PSA
  }

  /** The page select decodes to its page, which for a page of the surface is the argument. */
  lemma {:induction false} PageStartDecodes(addr: bv8)
    ensures IsPageSelect(PageStartCmd(addr))
    ensures Decode(PageStartCmd(addr)) == Some(PageStart(addr & 0x07))
    ensures addr as int < PAGE_COUNT ==> Decode(PageStartCmd(addr)) == Some(PageStart(addr))
  {
  }

  /** A frame is a page select exactly when it decodes to a page-start command. */
  lemma {:induction false} PageSelectIsPageStart(f: Frame)
    ensures IsPageSelect(f) <==> Decode(f).Some? && Decode(f).value.PageStart?
    ensures IsPageSelect(f) ==> Decode(f) == Some(PageStart(f[1] & 0x07))
  {
  }

  function ContrastCmd(contrast: bv8): (r: Frame)
    ensures IsCommandFrame(r) && Decode(r) == Some(Contrast(contrast))
  {
    [CMD, CMD_CC, contrast]
  }

  function SegmentRemapCmd(remap: bool): (r: Frame)
    ensures IsCommandFrame(r) && Decode(r) == Some(SegmentRemap(remap))
  {
    [CMD, CMD_SR | BoolByte(remap)]
  }

  /** The multiplex ratio actually sent: the argument clamped into MUX_MIN..MUX_MAX. */
  function MuxClamp(mux: bv8): (m: bv8)
    ensures MUX_MIN <= m <= MUX_MAX
    ensures MUX_MIN <= mux <= MUX_MAX ==> m == mux
    ensures mux < MUX_MIN ==> m == MUX_MIN
    ensures mux > MUX_MAX ==> m == MUX_MAX
  {
    var lo := if mux < MUX_MIN then MUX_MIN else mux;
    if lo > MUX_MAX then MUX_MAX else lo
  }

  function MuxRatioCmd(mux: bv8): (r: Frame)
    ensures IsCommandFrame(r) && Decode(r) == Some(MuxRatio(MuxClamp(mux)))
  {
    [CMD, CMD_MR, MuxClamp(mux)]
  }

  /** Clamping twice is clamping once. */
  lemma {:induction false} MuxClampIdempotent(mux: bv8)
    ensures MuxClamp(MuxClamp(mux)) == MuxClamp(mux)
  {
  }

  function ComScanInvertCmd(invert: bool): (r: Frame)
    ensures IsCommandFrame(r) && Decode(r) == Some(ComScanInvert(invert))
  {
    [CMD, CMD_COSD | (BoolByte(invert) << CMD_COSD_POS)]
  }

  function DisplayOffsetCmd(offset: bv8): (r: Frame)
    ensures IsCommandFrame(r) && Decode(r) == Some(DisplayOffset(offset))
  {
    [CMD, CMD_DO, offset]
  }

  /** Divider in the low nibble, oscillator frequency in the high nibble. */
  function ClockCmd(freq: bv8, divider: bv8): (r: Frame)
    ensures IsCommandFrame(r) && Decode(r) == Some(Clock(freq & 0x0F, divider & 0x0F))
    ensures freq < 16 && divider < 16 ==> Decode(r) == Some(Clock(freq, divider))
  {
    [CMD, CMD_DCDR, (divider & CMD_DCDR_DIV_MASK) | ((freq << CMD_DCDR_CLK_POS) & CMD_DCDR_CLK_MASK)]
  }

  function PrechargePeriodCmd(period: bv8): (r: Frame)
    ensures IsCommandFrame(r) && Decode(r) == Some(PrechargePeriod(period))
  {
    [CMD, CMD_PCP, period]
  }

  function ComPinsCmd(alternative: bool, leftRightRemap: bool): (r: Frame)
    ensures IsCommandFrame(r) && Decode(r) == Some(ComPins(alternative, leftRightRemap))
  {
    [CMD, CMD_CPHC,
     CMD_CPHC_VALUE | (BoolByte(alternative) << CMD_CPHC_CONF_POS) | (BoolByte(leftRightRemap) << CMD_CPHC_MAP_POS)]
  }

  function VcomhLevelCmd(level: VcomLevel): (r: Frame)
    ensures IsCommandFrame(r) && Decode(r) == Some(VcomhLevel(level))
  {
    [CMD, CMD_VCSL, VcomLevelCode(level)]
  }

  function ChargePumpModeCmd(mode: ChargePumpMode): (r: Frame)
    ensures IsCommandFrame(r) && Decode(r) == Some(ChargePump(mode))
  {
    [CMD, CMD_CPS, ChargePumpCode(mode)]
  }

  function DisplayInvertCmd(invert: bool): (r: Frame)
    ensures IsCommandFrame(r) && Decode(r) == Some(DisplayInvert(invert))
  {
    [CMD, CMD_DINV | BoolByte(invert)]
  }

  function ColumnAddressCmd(begin: bv8, end: bv8): (r: Frame)
    ensures IsCommandFrame(r) && Decode(r) == Some(ColumnAddress(begin & 0x7F, end & 0x7F))
    ensures begin < 0x80 && end < 0x80 ==> Decode(r) == Some(ColumnAddress(begin, end))
  {
    [CMD, CMD_CA, begin & CMD_CA_MASK, end & CMD_CA_MASK]
  }

  function PageAddressCmd(begin: bv8, end: bv8): (r: Frame)
    ensures IsCommandFrame(r) && Decode(r) == Some(PageAddress(begin & 0x07, end & 0x07))
    ensures begin < 0x08 && end < 0x08 ==> Decode(r) == Some(PageAddress(begin, end))
  {
    [CMD, CMD_PA, begin & CMD_PA_MASK, end & CMD_PA_MASK]
  }

  /** The configuration `DefInit` sends before clearing the screen: the 7 V
      charge pump, display off, page addressing, start line 0, the scan
      direction and segment remap both following `xyFlip`, normal (not
      inverted) display, display on, and RAM (not all-on) output. */
  function DefInitCommands(xyFlip: bool): seq<Frame> {
    [ ChargePumpModeCmd(ChargePumpMode7V),
      DisplayOnCmd(false),
      MemoryModeCmd(MemModePage),
      DisplayStartLineCmd(0),
      ComScanInvertCmd(xyFlip),
      SegmentRemapCmd(xyFlip),
      DisplayInvertCmd(false),
      DisplayOnCmd(true),
      EntireDisplayOnCmd(false) ]
  }

  /** The configuration `DefInit` sends is nine command frames that decode,
      in order, to exactly the settings listed above. */
  lemma {:induction false} DefInitCommandsDecode(xyFlip: bool)
    ensures |DefInitCommands(xyFlip)| == 9
    ensures forall i :: 0 <= i < 9 ==> IsCommandFrame(DefInitCommands(xyFlip)[i])
    ensures Decode(DefInitCommands(xyFlip)[0]) == Some(ChargePump(ChargePumpMode7V))
    ensures Decode(DefInitCommands(xyFlip)[1]) == Some(DisplayOn(false))
    ensures Decode(DefInitCommands(xyFlip)[2]) == Some(MemoryMode(MemModePage))
    ensures Decode(DefInitCommands(xyFlip)[3]) == Some(DisplayStartLine(0))
    ensures Decode(DefInitCommands(xyFlip)[4]) == Some(ComScanInvert(xyFlip))
    ensures Decode(DefInitCommands(xyFlip)[5]) == Some(SegmentRemap(xyFlip))
    ensures Decode(DefInitCommands(xyFlip)[6]) == Some(DisplayInvert(false))
    ensures Decode(DefInitCommands(xyFlip)[7]) == Some(DisplayOn(true))
    ensures Decode(DefInitCommands(xyFlip)[8]) == Some(EntireDisplayOn(false))
  {
  }
}
