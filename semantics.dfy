/** What one instruction, one cycle and the other public operations do to the machine
    state, as functions on `Machine` values. The interpreter class is proved to move its
    arrays and fields exactly as these functions say. */
module Semantics {
  import opened Layout
  import opened Bits
  import opened Opcodes

  datatype Option<T> = None | Some(value: T)

  /** The byte- and cell-wide bitwise operators of the source. */
  function ByteAnd(a: Byte, b: Byte): Byte { BitAnd(a, b) }
  function ByteOr(a: Byte, b: Byte): Byte { OrBelow(a, b, 8); BitOr(a, b) }
  function ByteXor(a: Byte, b: Byte): Byte { XorBelow(a, b, 8); BitXor(a, b) }
  function FlipCell(c: Cell): Cell { XorOne(c); BitXor(c, 1) }

  /** `Overlay(base, at, src)` is `base` with `src` written over it from `at` on: the
      effect of a loop `base[at + i] = src[i]` for every `i` below `|src|`. */
  function Overlay<T>(base: seq<T>, at: int, src: seq<T>): (r: seq<T>)
    requires 0 <= at && at + |src| <= |base|
    ensures |r| == |base|
  {
    seq(|base|, a requires 0 <= a < |base| => if at <= a < at + |src| then src[a - at] else base[a])
  }

  function Blank(): (v: seq<Cell>)
    ensures |v| == VideoSize
  {
    seq(VideoSize, _ => 0)
  }

  function V(s: Machine, r: Nibble): Byte
    requires WellFormed(s)
  {
    s.registers[r]
  }

  function SetV(s: Machine, r: Nibble, v: Byte): (t: Machine)
    requires WellFormed(s)
    ensures WellFormed(t)
  {
    s.(registers := s.registers[r := v])
  }

  /** `programCounter += 2`, at 16 bits. */
  function Next(s: Machine): Machine {
    s.(programCounter := (s.programCounter as int + 2) % 0x1_0000)
  }

  /** A conditional skip: one extra `programCounter += 2` when `c` holds. */
  function SkipIf(s: Machine, c: bool): Machine {
    Next(if c then Next(s) else s)
  }

  // ---------------------------------------------------------------------------------
  // Sprites

  /** Pixel `b` (0 is the leftmost) of a sprite row: `row & (0x80 >> b)` is nonzero. */
  predicate SpriteBit(row: Byte, b: int)
    requires 0 <= b < 8
  {
    BitAnd(row, Pow2(7 - b)) != 0
  }

  /** The rows of a sprite of height `n` can all be read from memory at `I`. */
  predicate RowsReadable(s: Machine, n: int) {
    n <= 0 || s.index + n <= MemorySize
  }

  /** Pixel `b` of row `r` of the sprite at `I` is set. */
  predicate Lit(s: Machine, r: int, b: int)
    requires WellFormed(s) && 0 <= r && s.index + r < MemorySize && 0 <= b < 8
  {
    SpriteBit(s.memory[s.index + r], b)
  }

  /** The video index the source computes for pixel `b` of row `r`: it does not wrap
      at either edge of the screen. */
  function Target(x: int, y: int, r: int, b: int): int {
    x + b + (y + r) * ScreenWidth
  }

  /** The source writes the video buffer wherever a set pixel lands, unchecked. */
  predicate DrawSafe(s: Machine, x: Byte, y: Byte, n: Nibble)
    requires WellFormed(s)
  {
    && RowsReadable(s, n)
    && forall r, b | 0 <= r < n && 0 <= b < 8 :: Lit(s, r, b) ==> Target(x, y, r, b) < VideoSize
  }

  /** Pixel (r, b) is visited before pixel (r0, b0) in the row-by-row scan. */
  predicate Before(r: int, b: int, r0: int, b0: int) {
    r < r0 || (r == r0 && b < b0)
  }

  /** Video cell `c` is the target of a set pixel visited before (r0, b0). The pixel
      aimed at `c` can only be the one at row `d / 64`, column `d % 64` of the sprite,
      where `d` is the offset of `c` from the sprite's origin. */
  predicate HitBefore(s: Machine, x: Byte, y: Byte, n: Nibble, c: int, r0: int, b0: int)
    requires WellFormed(s) && RowsReadable(s, n)
  {
    var d := c - x - y * ScreenWidth;
    && 0 <= d && d % ScreenWidth < 8 && d / ScreenWidth < n
    && Before(d / ScreenWidth, d % ScreenWidth, r0, b0)
    && Lit(s, d / ScreenWidth, d % ScreenWidth)
  }

  /** Video cell `c` is the target of one of the sprite's set pixels. */
  predicate Hit(s: Machine, x: Byte, y: Byte, n: Nibble, c: int)
    requires WellFormed(s) && RowsReadable(s, n)
  {
    HitBefore(s, x, y, n, c, n, 0)
  }

  /** Some set pixel visited before (r0, b0) lands on a cell that holds 1. */
  predicate CollisionBefore(s: Machine, x: Byte, y: Byte, n: Nibble, r0: int, b0: int)
    requires WellFormed(s) && DrawSafe(s, x, y, n)
  {
    exists r, b | 0 <= r < n && 0 <= b < 8 && Before(r, b, r0, b0) ::
      Lit(s, r, b) && s.video[Target(x, y, r, b)] == 1
  }

  predicate Collision(s: Machine, x: Byte, y: Byte, n: Nibble)
    requires WellFormed(s) && DrawSafe(s, x, y, n)
  {
    CollisionBefore(s, x, y, n, n, 0)
  }

  /** The video buffer once the pixels visited before (r0, b0) are XORed in. */
  function VideoBefore(s: Machine, x: Byte, y: Byte, n: Nibble, r0: int, b0: int): (v: seq<Cell>)
    requires WellFormed(s) && RowsReadable(s, n)
    ensures |v| == VideoSize
  {
    seq(VideoSize, c requires 0 <= c < VideoSize =>
      if HitBefore(s, x, y, n, c, r0, b0) then FlipCell(s.video[c]) else s.video[c])
  }

  function DrawnVideo(s: Machine, x: Byte, y: Byte, n: Nibble): (v: seq<Cell>)
    requires WellFormed(s) && RowsReadable(s, n)
    ensures |v| == VideoSize
  {
    VideoBefore(s, x, y, n, n, 0)
  }

  /** Visiting pixel (r, b) flips exactly its target cell, if the pixel is set, and
      that cell has not been flipped by an earlier pixel. */
  lemma VideoStep(s: Machine, x: Byte, y: Byte, n: Nibble, r: int, b: int)
    requires WellFormed(s) && DrawSafe(s, x, y, n) && 0 <= r < n && 0 <= b < 8
    ensures Lit(s, r, b) ==> Target(x, y, r, b) < VideoSize
    ensures Lit(s, r, b) ==> VideoBefore(s, x, y, n, r, b)[Target(x, y, r, b)] == s.video[Target(x, y, r, b)]
    ensures VideoBefore(s, x, y, n, r, b + 1) ==
      if Lit(s, r, b)
      then VideoBefore(s, x, y, n, r, b)[Target(x, y, r, b) := FlipCell(s.video[Target(x, y, r, b)])]
      else VideoBefore(s, x, y, n, r, b)
  {
    var t := Target(x, y, r, b);
    forall c | 0 <= c < VideoSize
      ensures HitBefore(s, x, y, n, c, r, b + 1) <==> HitBefore(s, x, y, n, c, r, b) || (c == t && Lit(s, r, b))
      ensures c == t ==> !HitBefore(s, x, y, n, c, r, b)
    {
      var d := c - x - y * ScreenWidth;
      if c == t {
        assert d == r * ScreenWidth + b;
        assert d / ScreenWidth == r && d % ScreenWidth == b;
      } else if 0 <= d && d % ScreenWidth < 8 && d / ScreenWidth == r {
        assert d == r * ScreenWidth + d % ScreenWidth;
        assert d % ScreenWidth != b;
      }
    }
  }

  /** Finishing row r is the same as starting row r + 1. */
  lemma VideoRowEnd(s: Machine, x: Byte, y: Byte, n: Nibble, r: int)
    requires WellFormed(s) && RowsReadable(s, n)
    ensures VideoBefore(s, x, y, n, r, 8) == VideoBefore(s, x, y, n, r + 1, 0)
  {
    forall c | 0 <= c < VideoSize
      ensures HitBefore(s, x, y, n, c, r, 8) == HitBefore(s, x, y, n, c, r + 1, 0)
    {
    }
  }

  /** Visiting pixel (r, b) makes a collision exactly when it is set and lands on a 1. */
  lemma CollisionStep(s: Machine, x: Byte, y: Byte, n: Nibble, r: int, b: int)
    requires WellFormed(s) && DrawSafe(s, x, y, n) && 0 <= r < n && 0 <= b < 8
    ensures CollisionBefore(s, x, y, n, r, b + 1) <==>
      CollisionBefore(s, x, y, n, r, b) || (Lit(s, r, b) && s.video[Target(x, y, r, b)] == 1)
  {
    if CollisionBefore(s, x, y, n, r, b + 1) && !CollisionBefore(s, x, y, n, r, b) {
      var r', b' :| 0 <= r' < n && 0 <= b' < 8 && Before(r', b', r, b + 1) &&
        Lit(s, r', b') && s.video[Target(x, y, r', b')] == 1;
      assert r' == r && b' == b;
    }
  }

  lemma CollisionRowEnd(s: Machine, x: Byte, y: Byte, n: Nibble, r: int)
    requires WellFormed(s) && DrawSafe(s, x, y, n)
    ensures CollisionBefore(s, x, y, n, r, 8) == CollisionBefore(s, x, y, n, r + 1, 0)
  {
  }

  // ---------------------------------------------------------------------------------
  // Keys

  /** The highest of keys 0 .. n-1 that is down, if any: the scan of FX0A overwrites
      Vx with every pressed key it meets, so the last one wins. */
  function HighestPressed(keys: seq<Byte>, n: nat): (r: Option<nat>)
    requires n <= |keys|
    ensures r.Some? ==> r.value < n && keys[r.value] != 0
    ensures r.Some? ==> forall j :: r.value < j < n ==> keys[j] == 0
    ensures r.None? <==> forall j :: 0 <= j < n ==> keys[j] == 0
  {
    if n == 0 then None
    else if keys[n - 1] != 0 then Some(n - 1)
    else HighestPressed(keys, n - 1)
  }

  // ---------------------------------------------------------------------------------
  // Instructions

  /** The accesses the source makes without a bounds check stay inside their arrays. */
  predicate Safe(s: Machine, i: Instr)
    requires WellFormed(s)
  {
    match i
    case Ret => 1 <= s.stackPointer <= StackSize
    case Call(_) => s.stackPointer < StackSize
    case Drw(x, y, n) => DrawSafe(s, V(s, x), V(s, y), n)
    case Skp(x) => V(s, x) < KeyCount
    case Sknp(x) => V(s, x) < KeyCount
    case LdBcd(_) => s.index + 2 < MemorySize
    case StoreRegs(x) => s.index + x < MemorySize
    case LoadRegs(x) => s.index + x < MemorySize
    case _ => true
  }

  /** One instruction. `rnd` is the byte the random engine draws for CXKK. The cases
      are grouped as the interpreter class groups them. */
  function Step(s: Machine, i: Instr, rnd: Byte): (t: Machine)
    requires WellFormed(s) && Safe(s, i)
    ensures WellFormed(t)
  {
    match i
    case Cls | Ret | Jp(_) | Call(_) | JpV0(_) => FlowStep(s, i)
    case SeByte(_, _) | SneByte(_, _) | SeReg(_, _) | SneReg(_, _) | Skp(_) | Sknp(_) => SkipStep(s, i)
    case LdByte(_, _) | AddByte(_, _) | LdI(_) | Rnd(_, _) => LoadStep(s, i, rnd)
    case LdReg(_, _) | Or(_, _) | And(_, _) | Xor(_, _) => LogicStep(s, i)
    case AddReg(_, _) | Sub(_, _) | Shr(_, _) | Subn(_, _) | Shl(_, _) => ArithStep(s, i)
    case Drw(x, y, n) => DrawStep(s, V(s, x), V(s, y), n)
    case LdFromDelay(_) | LdKey(_) | LdDelay(_) | LdSound(_) => TimerStep(s, i)
    case AddI(_) | LdFont(_) | LdBcd(_) | StoreRegs(_) | LoadRegs(_) => IndexStep(s, i)
    case Unknown(_) => s
  }

  /** 00E0, 00EE, 1NNN, 2NNN and BNNN. BNNN's target can exceed 0xFFF; it is below
      0x10FF, so it does not wrap. */
  function FlowStep(s: Machine, i: Instr): (t: Machine)
    requires WellFormed(s) && Safe(s, i)
    requires i.Cls? || i.Ret? || i.Jp? || i.Call? || i.JpV0?
    ensures WellFormed(t)
    ensures t.delayTimer == s.delayTimer && t.soundTimer == s.soundTimer
  {
    if i.Cls? then
      Next(s.(video := Blank(), drawFlag := true))
    else if i.Ret? then
      var sp := s.stackPointer - 1;
      s.(stackPointer := sp, programCounter := (s.stack[sp] as int + 2) % 0x1_0000)
    else if i.Jp? then
      s.(programCounter := i.nnn)
    else if i.Call? then
      s.(stack := s.stack[s.stackPointer := s.programCounter],
         stackPointer := s.stackPointer + 1,
         programCounter := i.nnn)
    else
      s.(programCounter := i.nnn + V(s, 0))
  }

  /** The conditional skips 3XKK, 4XKK, 5XY0, 9XY0, EX9E and EXA1. */
  function SkipStep(s: Machine, i: Instr): (t: Machine)
    requires WellFormed(s) && Safe(s, i)
    requires i.SeByte? || i.SneByte? || i.SeReg? || i.SneReg? || i.Skp? || i.Sknp?
    ensures WellFormed(t)
    ensures t.delayTimer == s.delayTimer && t.soundTimer == s.soundTimer
  {
    if i.SeByte? then SkipIf(s, i.kk == V(s, i.x))
    else if i.SneByte? then SkipIf(s, i.kk != V(s, i.x))
    else if i.SeReg? then SkipIf(s, V(s, i.y) == V(s, i.x))
    else if i.SneReg? then SkipIf(s, V(s, i.y) != V(s, i.x))
    else if i.Skp? then SkipIf(s, s.keypad[V(s, i.x)] != 0)
    else SkipIf(s, s.keypad[V(s, i.x)] == 0)
  }

  /** 6XKK, 7XKK, ANNN and CXKK. 7XKK wraps at 8 bits and leaves VF alone. */
  function LoadStep(s: Machine, i: Instr, rnd: Byte): (t: Machine)
    requires WellFormed(s)
    requires i.LdByte? || i.AddByte? || i.LdI? || i.Rnd?
    ensures WellFormed(t)
    ensures t.delayTimer == s.delayTimer && t.soundTimer == s.soundTimer
  {
    if i.LdByte? then Next(SetV(s, i.x, i.kk))
    else if i.AddByte? then Next(SetV(s, i.x, (V(s, i.x) + i.kk) % 0x100))
    else if i.LdI? then Next(s.(index := i.nnn))
    else Next(SetV(s, i.x, ByteAnd(rnd, i.kk)))
  }

  /** 8XY0 to 8XY3. */
  function LogicStep(s: Machine, i: Instr): (t: Machine)
    requires WellFormed(s)
    requires i.LdReg? || i.Or? || i.And? || i.Xor?
    ensures WellFormed(t)
    ensures t.delayTimer == s.delayTimer && t.soundTimer == s.soundTimer
  {
    var vx, vy := V(s, i.x), V(s, i.y);
    if i.LdReg? then Next(SetV(s, i.x, vy))
    else if i.Or? then Next(SetV(s, i.x, ByteOr(vx, vy)))
    else if i.And? then Next(SetV(s, i.x, ByteAnd(vx, vy)))
    else Next(SetV(s, i.x, ByteXor(vx, vy)))
  }

  /** 8XY4 to 8XY7 and 8XYE. The source writes VF first and then reads the operand
      registers again, so with X or Y equal to F the operand read is the fresh flag. */
  function ArithStep(s: Machine, i: Instr): (t: Machine)
    requires WellFormed(s)
    requires i.AddReg? || i.Sub? || i.Shr? || i.Subn? || i.Shl?
    ensures WellFormed(t)
    ensures t.delayTimer == s.delayTimer && t.soundTimer == s.soundTimer
  {
    var vx, vy := V(s, i.x), V(s, i.y);
    if i.AddReg? then
      var f := SetV(s, Flag, if vx > 0xFF - vy then 1 else 0);
      Next(SetV(f, i.x, (V(f, i.x) + V(f, i.y)) % 0x100))
    else if i.Sub? then
      var f := SetV(s, Flag, if vx > vy then 1 else 0);
      Next(SetV(f, i.x, (V(f, i.x) - V(f, i.y)) % 0x100))
    else if i.Shr? then
      var f := SetV(s, Flag, vx % 2);
      Next(SetV(f, i.x, V(f, i.x) / 2))
    else if i.Subn? then
      var f := SetV(s, Flag, if vy > vx then 1 else 0);
      Next(SetV(f, i.x, (V(f, i.y) - V(f, i.x)) % 0x100))
    else
      var f := SetV(s, Flag, vx / 0x80);
      Next(SetV(f, i.x, V(f, i.x) * 2 % 0x100))
  }

  /** DXYN at (x, y) = (Vx, Vy), read before VF is cleared: VF ends as 1 exactly when
      a set pixel lands on a cell holding 1, and every cell a set pixel lands on is
      XORed with 1. */
  function DrawStep(s: Machine, x: Byte, y: Byte, n: Nibble): (t: Machine)
    requires WellFormed(s) && DrawSafe(s, x, y, n)
    ensures WellFormed(t)
    ensures t.delayTimer == s.delayTimer && t.soundTimer == s.soundTimer
  {
    var f := SetV(s, Flag, if Collision(s, x, y, n) then 1 else 0);
    Next(f.(video := DrawnVideo(s, x, y, n), drawFlag := true))
  }

  /** FX07, FX0A, FX15 and FX18. FX0A with no key down returns before
      `programCounter += 2`, so the machine waits on it. */
  function TimerStep(s: Machine, i: Instr): (t: Machine)
    requires WellFormed(s)
    requires i.LdFromDelay? || i.LdKey? || i.LdDelay? || i.LdSound?
    ensures WellFormed(t)
    ensures !i.LdDelay? ==> t.delayTimer == s.delayTimer
    ensures !i.LdSound? ==> t.soundTimer == s.soundTimer
  {
    if i.LdFromDelay? then Next(SetV(s, i.x, s.delayTimer))
    else if i.LdKey? then
      (match HighestPressed(s.keypad, KeyCount)
       case None => s
       case Some(k) => Next(SetV(s, i.x, k)))
    else if i.LdDelay? then Next(s.(delayTimer := V(s, i.x)))
    else Next(s.(soundTimer := V(s, i.x)))
  }

  /** FX1E, FX29, FX33, FX55 and FX65. FX1E writes VF before reading Vx; FX55 and FX65
      advance I past the block they copy. */
  function IndexStep(s: Machine, i: Instr): (t: Machine)
    requires WellFormed(s) && Safe(s, i)
    requires i.AddI? || i.LdFont? || i.LdBcd? || i.StoreRegs? || i.LoadRegs?
    ensures WellFormed(t)
    ensures t.delayTimer == s.delayTimer && t.soundTimer == s.soundTimer
  {
    var x, at := i.x, s.index;
    if i.AddI? then
      var f := SetV(s, Flag, if at + V(s, x) > 0xFFF then 1 else 0);
      Next(f.(index := (at + V(f, x)) % 0x1_0000))
    else if i.LdFont? then
      Next(s.(index := V(s, x) * 5))
    else if i.LdBcd? then
      var v := V(s, x);
      Next(s.(memory := s.memory[at := v / 100][at + 1 := v / 10 % 10][at + 2 := v % 10]))
    else if i.StoreRegs? then
      Next(s.(memory := Overlay(s.memory, at, s.registers[..x + 1]),
              index := (at + x + 1) % 0x1_0000))
    else
      Next(s.(registers := Overlay(s.registers, 0, s.memory[at .. at + x + 1]),
              index := (at + x + 1) % 0x1_0000))
  }

  /** `execute(op)`: decode, then run. */
  function Execute(s: Machine, op: Word, rnd: Byte): (t: Machine)
    requires WellFormed(s) && Safe(s, Decode(op))
    ensures WellFormed(t)
  {
    Step(s, Decode(op), rnd)
  }

  // ---------------------------------------------------------------------------------
  // Cycle

  /** The big-endian word at the program counter: `memory[pc] << 8 | memory[pc + 1]`. */
  function Fetch(s: Machine): (w: Word)
    requires WellFormed(s) && s.programCounter + 1 < MemorySize
    ensures w / 0x100 == s.memory[s.programCounter] && w % 0x100 == s.memory[s.programCounter + 1]
  {
    s.memory[s.programCounter] as int * 0x100 + s.memory[s.programCounter + 1]
  }

  /** Each timer counts down by one and stops at zero. */
  function Tick(s: Machine): (t: Machine)
    ensures WellFormed(s) ==> WellFormed(t)
    ensures t.delayTimer <= s.delayTimer && t.soundTimer <= s.soundTimer
    ensures (t.delayTimer == 0 <==> s.delayTimer <= 1) && (t.soundTimer == 0 <==> s.soundTimer <= 1)
    ensures t == s.(delayTimer := t.delayTimer, soundTimer := t.soundTimer)
  {
    s.(delayTimer := if s.delayTimer > 0 then s.delayTimer - 1 else 0,
       soundTimer := if s.soundTimer > 0 then s.soundTimer - 1 else 0)
  }

  /** The beep sounds on the tick that takes the sound timer from 1 to 0. */
  predicate Beeps(s: Machine): (b: bool)
    ensures b <==> s.soundTimer != 0 && Tick(s).soundTimer == 0
  {
    s.soundTimer == 1
  }

  /** The state in which `execute` runs: the fetched word is stored in `opCode`. */
  function Fetched(s: Machine): Machine
    requires WellFormed(s) && s.programCounter + 1 < MemorySize
  {
    s.(opCode := Fetch(s))
  }

  predicate CycleSafe(s: Machine)
    requires WellFormed(s)
  {
    s.programCounter + 1 < MemorySize && Safe(Fetched(s), Decode(Fetch(s)))
  }

  /** `emulateCycle`: fetch, execute, then tick both timers. The second component says
      whether the cycle beeped. */
  function Cycle(s: Machine, rnd: Byte): (r: (Machine, bool))
    requires WellFormed(s) && CycleSafe(s)
    ensures WellFormed(r.0)
  {
    var t := Execute(Fetched(s), Fetch(s), rnd);
    (Tick(t), Beeps(t))
  }

  // ---------------------------------------------------------------------------------
  // Construction, ROM loading and the keypad

  /** The constructed interpreter. The constructor sets neither timer; their values
      are whatever the object's storage held, here the parameters. */
  function Initial(delay: Byte, sound: Byte): (m: Machine)
    ensures WellFormed(m)
  {
    Machine(
      memory := Overlay(seq(MemorySize, _ => 0), FontsetStart, Fontset),
      video := Blank(),
      index := 0,
      delayTimer := delay,
      soundTimer := sound,
      registers := seq(RegisterCount, _ => 0),
      programCounter := MemStart,
      stack := seq(StackSize, _ => 0),
      stackPointer := 0,
      keypad := seq(KeyCount, _ => 0),
      opCode := 0,
      drawFlag := false)
  }

  /** `loadROM`: the ROM's bytes from `MemStart` on. The source does not check the size;
      a ROM longer than the memory above `MemStart` would write past the array. */
  function LoadRom(s: Machine, rom: seq<Byte>): (t: Machine)
    requires WellFormed(s) && |rom| <= MemorySize - MemStart
    ensures WellFormed(t)
  {
    s.(memory := Overlay(s.memory, MemStart, rom))
  }

  /** `setKeys`: the first sixteen entries of `keys` become the keypad. */
  function SetKeys(s: Machine, keys: seq<Byte>): (t: Machine)
    requires WellFormed(s) && |keys| >= KeyCount
    ensures WellFormed(t)
  {
    s.(keypad := keys[..KeyCount])
  }

  /** What `draw()` does to the state: with `drawFlag` clear it returns at once;
      otherwise it renders the video buffer, which changes nothing modelled here, and
      clears the flag. */
  function Present(s: Machine): (t: Machine)
    ensures WellFormed(s) ==> WellFormed(t)
    ensures !t.drawFlag
  {
    if !s.drawFlag then s else s.(drawFlag := false)
  }
}
