/** Constants of the SSD1315 driver header: bus transfer size, control bytes,
    display geometry, command codes and masks, error codes and enumerations. */
module Ssd1315Defs {

  /** One transfer on the two-wire bus: the bytes handed to the transport. */
  type Frame = seq<bv8>

  // Bus addresses of the controller (the D/C# pin selects one of them)
  const I2C_ADDR_DEF: bv8 := 0x3C
  const I2C_ADDR_ALTERNATE: bv8 := 0x3D

  /** Largest transfer the transport accepts, control byte included. */
  const I2C_BUFFER_SIZE: int := 32

  // Control byte that starts every frame
  const CMD: bv8 := 0x80
  const DATA: bv8 := 0x40

  // Display geometry
  const BITS_PER_PAGE: int := 8
  const PAGE_COUNT: int := 8
  const COL_COUNT: int := 128
  const ROW_COUNT: int := PAGE_COUNT * BITS_PER_PAGE
  /** Bytes of the whole pixel surface, one byte per column per page. */
  const BUFF_SIZE: int := COL_COUNT * PAGE_COUNT

  // Command codes
  const CMD_CC: bv8 := 0x81     // contrast control
  const CMD_SR: bv8 := 0xA0     // segment remap
  const CMD_EDON: bv8 := 0xA4   // entire display on
  const CMD_DINV: bv8 := 0xA6   // normal / inverse display
  const CMD_IREF: bv8 := 0xAD   // internal Iref setting
  const CMD_DON: bv8 := 0xAE    // display on / off
  const CMD_DO: bv8 := 0xD3     // display offset
  const CMD_PCP: bv8 := 0xD9    // pre-charge period
  const CMD_VCSL: bv8 := 0xDB   // Vcomh select level
  const CMD_NOP: bv8 := 0xE3
  const CMD_CPS: bv8 := 0x8D    // charge pump setting

  const CMD_LCS: bv8 := 0x00    // lower column start address (page addressing mode)
  const CMD_LCS_MASK: bv8 := 0x0F
  const CMD_HCS: bv8 := 0x10    // higher column start address (page addressing mode)
  const CMD_HCS_MASK: bv8 := 0x07
  const CMD_MAM: bv8 := 0x20    // memory addressing mode
  const CMD_MAM_MASK: bv8 := 0x03
  const CMD_CA: bv8 := 0x21     // column address range
  const CMD_CA_MASK: bv8 := 0x7F
  const CMD_PA: bv8 := 0x22     // page address range
  const CMD_PA_MASK: bv8 := 0x07
  const CMD_DSL: bv8 := 0x40    // display start line
  const CMD_DSL_MASK: bv8 := 0x3F
  const CMD_MR: bv8 := 0xA8     // multiplex ratio
  const MUX_MIN: bv8 := 15
  const MUX_MAX: bv8 := 63
  const CMD_PSA: bv8 := 0xB0    // page start address (page addressing mode)
  const CMD_PSA_MASK: bv8 := 0x07
  const CMD_COSD: bv8 := 0xC0   // COM output scan direction
  const CMD_COSD_POS: bv8 := 3
  const CMD_DCDR: bv8 := 0xD5   // display clock divide ratio / oscillator frequency
  const CMD_DCDR_CLK_POS: bv8 := 4
  const CMD_DCDR_CLK_MASK: bv8 := 0xF0
  const CMD_DCDR_DIV_MASK: bv8 := 0x0F
  const CMD_CPHC: bv8 := 0xDA   // COM pins hardware configuration
  const CMD_CPHC_VALUE: bv8 := 0x02
  const CMD_CPHC_CONF_POS: bv8 := 4
  const CMD_CPHC_MAP_POS: bv8 := 5

  // Error codes; 0 is success
  const OK: int := 0
  const ERR_I2C: int := -1
  const ERR_INVALID_ROW: int := -2
  const ERR_INVALID_COL: int := -3
  const ERR_INVALID_LENGTH: int := -4

  datatype MemMode = MemModeHoriz | MemModeVert | MemModePage

  function MemModeCode(m: MemMode): bv8 {
    match m
    case MemModeHoriz => 0x00
    case MemModeVert => 0x01
    case MemModePage => 0x02
  }

  datatype VcomLevel = VcomLevel065 | VcomLevel071 | VcomLevel077 | VcomLevel083

  function VcomLevelCode(l: VcomLevel): bv8 {
    match l
    case VcomLevel065 => 0x00
    case VcomLevel071 => 0x10
    case VcomLevel077 => 0x20
    case VcomLevel083 => 0x30
  }

  datatype ChargePumpMode = ChargePumpDisable | ChargePumpMode7V | ChargePumpMode8_5V | ChargePumpMode9V

  function ChargePumpCode(m: ChargePumpMode): bv8 {
    match m
    case ChargePumpDisable => 0x10
    case ChargePumpMode7V => 0x14
    case ChargePumpMode8_5V => 0x94
    case ChargePumpMode9V => 0x95
  }

  /** The C conversion of a `bool` to `uint8_t`. */
  function BoolByte(b: bool): (r: bv8)
    ensures r <= 1 && (r == 1 <==> b)
  {
    if b then 1 else 0
  }

  /** The surface is 8 pages of 8 rows by 128 columns, one byte per page column. */
  lemma {:induction false} SurfaceGeometry()
    ensures ROW_COUNT == 64 && BUFF_SIZE == 1024
    ensures I2C_BUFFER_SIZE - 1 == 31
  {
  }

  /** Success and the four failures are told apart by their codes. */
  lemma {:induction false} ErrorCodesDistinct()
    ensures OK == 0 && ERR_I2C < 0 && ERR_INVALID_ROW < 0 && ERR_INVALID_COL < 0 && ERR_INVALID_LENGTH < 0
    ensures |{ERR_I2C, ERR_INVALID_ROW, ERR_INVALID_COL, ERR_INVALID_LENGTH}| == 4
  {
  }

  /** The two column nibble masks together carry exactly a 7-bit column 0..127,
      the page masks a page 0..7, the range mask a column 0..127. */
  lemma {:induction false} MasksFitGeometry(col: bv8, page: bv8)
    ensures (((col >> 4) & CMD_HCS_MASK) << 4) | (col & CMD_LCS_MASK) == col & CMD_CA_MASK
    ensures (col & CMD_CA_MASK) as int < COL_COUNT
    ensures (page & CMD_PSA_MASK) as int < PAGE_COUNT && (page & CMD_PA_MASK) as int < PAGE_COUNT
    ensures page as int < PAGE_COUNT ==> page & CMD_PSA_MASK == page
  {
  }

  /** The enumerations fit the fields their commands put them in. */
  lemma {:induction false} EnumCodesFit(m: MemMode, l: VcomLevel)
    ensures MemModeCode(m) & CMD_MAM_MASK == MemModeCode(m)
    ensures VcomLevelCode(l) & 0xCF == 0
  {
  }
}
