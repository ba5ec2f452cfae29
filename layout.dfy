/** The machine layout declared by the interpreter's header: the fixed sizes of the
    state, the load addresses and the built-in hexadecimal font; and the whole machine
    state as one value, `Machine`, which the semantics transform and the interpreter
    class exposes as a snapshot of its arrays and fields. */
module Layout {

  const ScreenWidth: int := 64
  const ScreenHeight: int := 32
  const VideoSize: int := ScreenWidth * ScreenHeight
  const MemorySize: int := 4096
  const RegisterCount: int := 16
  const StackSize: int := 16
  const KeyCount: int := 16
  const FontsetSize: int := 80
  const FontsetStart: int := 0
  const MemStart: int := 0x200

  /** Register F, which several instructions overwrite with a flag. */
  const Flag: int := 0xF

  /** The source's unsigned field types. Wrap-around on them is written out as `%`
      wherever the source's arithmetic can leave the range. */
  type Byte = b: int | 0 <= b < 0x100        // uint8_t
  type Word = w: int | 0 <= w < 0x1_0000     // uint16_t
  type Cell = c: int | 0 <= c < 0x1_0000_0000  // uint32_t

  /** Sixteen glyphs of five rows each, one per hexadecimal digit. */
  const Fontset: seq<Byte> := [
    0xF0, 0x90, 0x90, 0x90, 0xF0,  // 0
    0x20, 0x60, 0x20, 0x20, 0x70,  // 1
    0xF0, 0x10, 0xF0, 0x80, 0xF0,  // 2
    0xF0, 0x10, 0xF0, 0x10, 0xF0,  // 3
    0x90, 0x90, 0xF0, 0x10, 0x10,  // 4
    0xF0, 0x80, 0xF0, 0x10, 0xF0,  // 5
    0xF0, 0x80, 0xF0, 0x90, 0xF0,  // 6
    0xF0, 0x10, 0x20, 0x40, 0x40,  // 7
    0xF0, 0x90, 0xF0, 0x90, 0xF0,  // 8
    0xF0, 0x90, 0xF0, 0x10, 0xF0,  // 9
    0xF0, 0x90, 0xF0, 0x90, 0x90,  // A
    0xE0, 0x90, 0xE0, 0x90, 0xE0,  // B
    0xF0, 0x80, 0x80, 0x80, 0xF0,  // C
    0xE0, 0x90, 0x90, 0x90, 0xE0,  // D
    0xF0, 0x80, 0xF0, 0x80, 0xF0,  // E
    0xF0, 0x80, 0xF0, 0x80, 0x80   // F
  ]

  /** The complete interpreter state, with the widths of the source's fields: 8-bit
      memory, registers, keypad, timers and stack pointer, 16-bit index, program counter,
      stack slots and last opcode, 32-bit video cells. */
  datatype Machine = Machine(
    memory: seq<Byte>,
    video: seq<Cell>,
    index: Word,
    delayTimer: Byte,
    soundTimer: Byte,
    registers: seq<Byte>,
    programCounter: Word,
    stack: seq<Word>,
    stackPointer: Byte,
    keypad: seq<Byte>,
    opCode: Word,
    drawFlag: bool)

  /** Every collection has the size the header gives it. */
  predicate WellFormed(m: Machine) {
    && |m.memory| == MemorySize
    && |m.video| == VideoSize
    && |m.registers| == RegisterCount
    && |m.stack| == StackSize
    && |m.keypad| == KeyCount
  }

  /** Row-major address of the video cell in column `x` of row `y`. */
  function VideoAddress(x: int, y: int): (c: int)
    requires 0 <= x < ScreenWidth && 0 <= y < ScreenHeight
    ensures 0 <= c < VideoSize
    ensures c / ScreenWidth == y && c % ScreenWidth == x
  {
    y * ScreenWidth + x
  }

  /** The glyph of hexadecimal digit `d`: five rows of which the high four bits are
      the pixels. */
  function Glyph(d: int): (g: seq<Byte>)
    requires 0 <= d < 16
    ensures |g| == 5
  {
    Fontset[5 * d .. 5 * d + 5]
  }
}
