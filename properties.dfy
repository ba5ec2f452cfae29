/** What the instructions promise, proved about the functions of `Semantics`: the
    flag rules, the skips, call and return, the sprite XOR and its collision flag, the
    key wait, the register block copies, the font, ROM loading and the keypad, and
    whole cycles. */
module Properties {
  import opened Layout
  import opened Bits
  import opened Opcodes
  import opened Semantics

  /** `programCounter + k` at 16 bits. */
  function PcPlus(s: Machine, k: int): Word {
    (s.programCounter as int + k) % 0x1_0000
  }

  /** Two 16-bit advances by 2 are one advance by 4. */
  lemma AdvanceTwice(s: Machine)
    ensures Next(Next(s)) == s.(programCounter := PcPlus(s, 4))
  {
    var p := s.programCounter as int;
    if p + 2 >= 0x1_0000 {
      assert (p + 2) % 0x1_0000 == p + 2 - 0x1_0000;
    }
  }

  // ---------------------------------------------------------------------------------
  // Register arithmetic, 8XY4 to 8XYE

  /** 8XY4: VF is the carry out of the 8-bit sum; with X equal to F the sum then
      overwrites it. No other register changes. */
  lemma AddRegCarry(s: Machine, x: Nibble, y: Nibble, rnd: Byte)
    requires WellFormed(s)
    ensures var t, vx, vy := Step(s, AddReg(x, y), rnd), V(s, x), V(s, y);
      var carry := if vx + vy > 0xFF then 1 else 0;
      && (x != Flag ==> t.registers[Flag] == carry)
      && (x != Flag && y != Flag ==> t.registers[x] == (vx + vy) % 0x100)
      && (x != Flag && y == Flag ==> t.registers[x] == (vx + carry) % 0x100)
      && (x == Flag ==> t.registers[Flag] == (carry + (if y == Flag then carry else vy)) % 0x100)
      && (forall r | 0 <= r < RegisterCount && r != x && r != Flag :: t.registers[r] == s.registers[r])
      && t == s.(registers := t.registers, programCounter := PcPlus(s, 2))
  {
  }

  /** 8XY5: VF is 1 exactly when Vx > Vy (not when they are equal), and Vx becomes the
      8-bit difference. */
  lemma SubBorrow(s: Machine, x: Nibble, y: Nibble, rnd: Byte)
    requires WellFormed(s)
    ensures var t, vx, vy := Step(s, Sub(x, y), rnd), V(s, x), V(s, y);
      && (x != Flag ==> (t.registers[Flag] == 1 <==> vx > vy) && t.registers[Flag] <= 1)
      && (x != Flag && y != Flag ==> t.registers[x] + vy == vx || t.registers[x] + vy == vx + 0x100)
      && (forall r | 0 <= r < RegisterCount && r != x && r != Flag :: t.registers[r] == s.registers[r])
      && t == s.(registers := t.registers, programCounter := PcPlus(s, 2))
  {
  }

  /** 8XY7: VF is 1 exactly when Vy > Vx, and Vx becomes the 8-bit Vy - Vx. */
  lemma SubnBorrow(s: Machine, x: Nibble, y: Nibble, rnd: Byte)
    requires WellFormed(s)
    ensures var t, vx, vy := Step(s, Subn(x, y), rnd), V(s, x), V(s, y);
      && (x != Flag ==> (t.registers[Flag] == 1 <==> vy > vx) && t.registers[Flag] <= 1)
      && (x != Flag && y != Flag ==> t.registers[x] + vx == vy || t.registers[x] + vx == vy + 0x100)
      && (forall r | 0 <= r < RegisterCount && r != x && r != Flag :: t.registers[r] == s.registers[r])
      && t == s.(registers := t.registers, programCounter := PcPlus(s, 2))
  {
  }

  /** A byte's top bit is set exactly when it is at least 0x80. */
  lemma TopBit(v: Byte)
    ensures Bit(v, 7) <==> v >= 0x80
  {
    var v1, v2, v3 := v / 2, v / 4, v / 8;
    var v4, v5, v6, v7 := v / 16, v / 32, v / 64, v / 128;
    assert v2 == v1 / 2 && v3 == v2 / 2 && v4 == v3 / 2;
    assert v5 == v4 / 2 && v6 == v5 / 2 && v7 == v6 / 2;
    assert Bit(v, 7) == Bit(v1, 6) == Bit(v2, 5) == Bit(v3, 4);
    assert Bit(v3, 4) == Bit(v4, 3) == Bit(v5, 2) == Bit(v6, 1) == Bit(v7, 0);
  }

  /** 8XY6: VF receives bit 0, the bit shifted out, and Vx is halved. Y plays no
      part. */
  lemma ShrOutBit(s: Machine, x: Nibble, y: Nibble, rnd: Byte)
    requires WellFormed(s)
    ensures var t, vx := Step(s, Shr(x, y), rnd), V(s, x);
      && (x != Flag ==> (t.registers[Flag] == 1 <==> Bit(vx, 0)) && t.registers[Flag] <= 1)
      && (x != Flag ==> t.registers[x] as int * 2 + t.registers[Flag] == vx)
      && (x == Flag ==> t.registers[Flag] == vx % 2 / 2)
      && (forall r | 0 <= r < RegisterCount && r != x && r != Flag :: t.registers[r] == s.registers[r])
      && t == s.(registers := t.registers, programCounter := PcPlus(s, 2))
  {
  }

  /** 8XYE: VF receives bit 7, the bit shifted out, and Vx is doubled at 8 bits. Y
      plays no part. */
  lemma ShlOutBit(s: Machine, x: Nibble, y: Nibble, rnd: Byte)
    requires WellFormed(s)
    ensures var t, vx := Step(s, Shl(x, y), rnd), V(s, x);
      && (x != Flag ==> (t.registers[Flag] == 1 <==> Bit(vx, 7)) && t.registers[Flag] <= 1)
      && (x != Flag ==> t.registers[x] as int + t.registers[Flag] as int * 0x100 == 2 * vx)
      && (x == Flag ==> t.registers[Flag] == vx / 0x80 * 2)
      && (forall r | 0 <= r < RegisterCount && r != x && r != Flag :: t.registers[r] == s.registers[r])
      && t == s.(registers := t.registers, programCounter := PcPlus(s, 2))
  {
    TopBit(V(s, x));
  }

  // ---------------------------------------------------------------------------------
  // Loads and bitwise operations, 6XKK, 7XKK, 8XY0 to 8XY3, CXKK

  /** 6XKK loads KK; 7XKK adds KK at 8 bits and, unlike 8XY4, leaves VF alone. */
  lemma LoadAndAddByte(s: Machine, x: Nibble, kk: Byte, rnd: Byte)
    requires WellFormed(s)
    ensures var l, a := Step(s, LdByte(x, kk), rnd), Step(s, AddByte(x, kk), rnd);
      && l.registers == s.registers[x := kk]
      && a.registers[x] as int + (if V(s, x) + kk >= 0x100 then 0x100 else 0) == V(s, x) + kk
      && (forall r | 0 <= r < RegisterCount && r != x :: a.registers[r] == s.registers[r])
      && l == s.(registers := l.registers, programCounter := PcPlus(s, 2))
      && a == s.(registers := a.registers, programCounter := PcPlus(s, 2))
  {
  }

  /** 8XY0 to 8XY3 write Vx only: no other register, VF included, changes, and each
      advances pc by 2. */
  lemma LogicFrame(s: Machine, x: Nibble, y: Nibble, rnd: Byte)
    requires WellFormed(s)
    ensures var vx, vy := V(s, x), V(s, y);
      && Step(s, LdReg(x, y), rnd) == s.(registers := s.registers[x := vy], programCounter := PcPlus(s, 2))
      && Step(s, Or(x, y), rnd) == s.(registers := s.registers[x := ByteOr(vx, vy)], programCounter := PcPlus(s, 2))
      && Step(s, And(x, y), rnd) == s.(registers := s.registers[x := ByteAnd(vx, vy)], programCounter := PcPlus(s, 2))
      && Step(s, Xor(x, y), rnd) == s.(registers := s.registers[x := ByteXor(vx, vy)], programCounter := PcPlus(s, 2))
  {
    LogicDispatch(s, LdReg(x, y), rnd);
    LogicDispatch(s, Or(x, y), rnd);
    LogicDispatch(s, And(x, y), rnd);
    LogicDispatch(s, Xor(x, y), rnd);
  }

  /** `Step` hands 8XY0 to 8XY3 to `LogicStep`. */
  lemma LogicDispatch(s: Machine, i: Instr, rnd: Byte)
    requires WellFormed(s) && (i.LdReg? || i.Or? || i.And? || i.Xor?)
    ensures Step(s, i, rnd) == LogicStep(s, i)
  {
  }

  /** 8XY0 copies Vy; 8XY1, 8XY2 and 8XY3 combine Vx and Vy bit by bit. */
  lemma LogicBits(s: Machine, x: Nibble, y: Nibble, rnd: Byte, j: nat)
    requires WellFormed(s)
    ensures var vx, vy := V(s, x), V(s, y);
      && Step(s, LdReg(x, y), rnd).registers[x] == vy
      && (Bit(Step(s, Or(x, y), rnd).registers[x], j) <==> Bit(vx, j) || Bit(vy, j))
      && (Bit(Step(s, And(x, y), rnd).registers[x], j) <==> Bit(vx, j) && Bit(vy, j))
      && (Bit(Step(s, Xor(x, y), rnd).registers[x], j) <==> Bit(vx, j) != Bit(vy, j))
  {
    LogicFrame(s, x, y, rnd);
    OrBit(V(s, x), V(s, y), j);
    AndBit(V(s, x), V(s, y), j);
    XorBit(V(s, x), V(s, y), j);
  }

  /** CXKK: Vx keeps exactly the bits the random byte and KK share, so it has none
      outside KK and does not exceed KK. */
  lemma RandomMasked(s: Machine, x: Nibble, kk: Byte, rnd: Byte)
    requires WellFormed(s)
    ensures var t := Step(s, Rnd(x, kk), rnd);
      && (forall j: nat :: Bit(t.registers[x], j) <==> Bit(rnd, j) && Bit(kk, j))
      && t.registers[x] <= kk
      && t == s.(registers := t.registers, programCounter := PcPlus(s, 2))
  {
    forall j: nat
      ensures Bit(BitAnd(rnd, kk), j) <==> Bit(rnd, j) && Bit(kk, j)
    {
      AndBit(rnd, kk, j);
    }
  }

  // ---------------------------------------------------------------------------------
  // Skips

  /** 3XKK and 4XKK add 4 to the program counter when Vx equals, resp. differs from,
      KK and 2 otherwise, and change nothing else. */
  lemma SkipsOnByte(s: Machine, x: Nibble, kk: Byte, rnd: Byte)
    requires WellFormed(s)
    ensures Step(s, SeByte(x, kk), rnd) == s.(programCounter := PcPlus(s, if V(s, x) == kk then 4 else 2))
    ensures Step(s, SneByte(x, kk), rnd) == s.(programCounter := PcPlus(s, if V(s, x) != kk then 4 else 2))
  {
    AdvanceTwice(s);
  }

  /** 5XY0 and 9XY0 do the same with Vx and Vy. */
  lemma SkipsOnRegisters(s: Machine, x: Nibble, y: Nibble, rnd: Byte)
    requires WellFormed(s)
    ensures Step(s, SeReg(x, y), rnd) == s.(programCounter := PcPlus(s, if V(s, x) == V(s, y) then 4 else 2))
    ensures Step(s, SneReg(x, y), rnd) == s.(programCounter := PcPlus(s, if V(s, x) != V(s, y) then 4 else 2))
  {
    AdvanceTwice(s);
  }

  /** EX9E and EXA1 do the same with key Vx being down, resp. up. */
  lemma SkipsOnKey(s: Machine, x: Nibble, rnd: Byte)
    requires WellFormed(s) && V(s, x) < KeyCount
    ensures Step(s, Skp(x), rnd) == s.(programCounter := PcPlus(s, if s.keypad[V(s, x)] != 0 then 4 else 2))
    ensures Step(s, Sknp(x), rnd) == s.(programCounter := PcPlus(s, if s.keypad[V(s, x)] == 0 then 4 else 2))
  {
    AdvanceTwice(s);
  }

  // ---------------------------------------------------------------------------------
  // Jumps, calls and returns

  /** 1NNN jumps without advancing; BNNN adds V0 and can land above 0xFFF; ANNN loads I. */
  lemma Jumps(s: Machine, nnn: Addr, rnd: Byte)
    requires WellFormed(s)
    ensures Step(s, Jp(nnn), rnd) == s.(programCounter := nnn)
    ensures Step(s, JpV0(nnn), rnd).programCounter == nnn + s.registers[0]
    ensures Step(s, JpV0(nnn), rnd) == s.(programCounter := Step(s, JpV0(nnn), rnd).programCounter)
    ensures Step(s, LdI(nnn), rnd) == s.(index := nnn, programCounter := PcPlus(s, 2))
  {
  }

  /** BNNN at 0xFFF with V0 = 1 targets 0x1000, past the last byte of memory. */
  lemma JumpPastMemory(s: Machine, rnd: Byte)
    requires WellFormed(s) && s.registers[0] == 1
    ensures Step(s, JpV0(0xFFF), rnd).programCounter == MemorySize
  {
  }

  /** 2NNN pushes the program counter; a following 00EE pops it and resumes at the
      instruction after the call, with the stack pointer where it started. */
  lemma CallThenReturn(s: Machine, nnn: Addr, rnd: Byte)
    requires WellFormed(s) && s.stackPointer < StackSize
    ensures Step(s, Call(nnn), rnd) == s.(stack := s.stack[s.stackPointer := s.programCounter],
                                          stackPointer := s.stackPointer + 1, programCounter := nnn)
    ensures var c := Step(s, Call(nnn), rnd);
      && Safe(c, Ret)
      && Step(c, Ret, rnd) == s.(stack := c.stack, programCounter := PcPlus(s, 2))
  {
  }

  /** 00EE pops the top slot and resumes two bytes after the address stored there. */
  lemma ReturnPops(s: Machine, rnd: Byte)
    requires WellFormed(s) && Safe(s, Ret)
    ensures var t := Step(s, Ret, rnd);
      && t.stackPointer == s.stackPointer - 1
      && t.programCounter == (s.stack[t.stackPointer] as int + 2) % 0x1_0000
      && t == s.(stackPointer := t.stackPointer, programCounter := t.programCounter)
  {
  }

  // ---------------------------------------------------------------------------------
  // Sprites

  /** Pixel `b` of row `r` is set exactly when bit `7 - b` of the sprite byte is: the
      mask `0x80 >> b` reads a row from its top bit down. */
  lemma LitReadsBit(s: Machine, r: int, b: int)
    requires WellFormed(s) && 0 <= r && s.index + r < MemorySize && 0 <= b < 8
    ensures Lit(s, r, b) <==> Bit(s.memory[s.index + r], 7 - b)
  {
    MaskTest(s.memory[s.index + r], 7 - b);
  }

  /** Where the draw's index lands on the screen: a pixel left of the right edge is
      the cell of column `x + b` in row `y + r`, and a pixel past the right edge does
      not wrap to column `x + b - 64` of its own row but falls into the next row. */
  lemma TargetCell(x: int, y: int, r: int, b: int)
    requires 0 <= x + b < 2 * ScreenWidth && 0 <= y + r
    requires x + b < ScreenWidth ==> y + r < ScreenHeight
    requires x + b >= ScreenWidth ==> y + r + 1 < ScreenHeight
    ensures x + b < ScreenWidth ==> Target(x, y, r, b) == VideoAddress(x + b, y + r)
    ensures x + b >= ScreenWidth ==> Target(x, y, r, b) == VideoAddress(x + b - ScreenWidth, y + r + 1)
  {
  }

  /** A cell is hit exactly when it is the target of one of the sprite's set pixels:
      the per-cell view of `DrawnVideo` agrees with the source's per-pixel scan. */
  lemma HitIsTarget(s: Machine, x: Byte, y: Byte, n: Nibble, c: int)
    requires WellFormed(s) && RowsReadable(s, n)
    ensures Hit(s, x, y, n, c) <==>
      exists r, b | 0 <= r < n && 0 <= b < 8 :: Lit(s, r, b) && c == Target(x, y, r, b)
  {
    var d := c - x - y * ScreenWidth;
    if Hit(s, x, y, n, c) {
      var r, b := d / ScreenWidth, d % ScreenWidth;
      assert Lit(s, r, b) && c == Target(x, y, r, b);
    }
    if exists r, b | 0 <= r < n && 0 <= b < 8 :: Lit(s, r, b) && c == Target(x, y, r, b) {
      var r, b :| 0 <= r < n && 0 <= b < 8 && Lit(s, r, b) && c == Target(x, y, r, b);
      assert d == r * ScreenWidth + b;
      assert d / ScreenWidth == r && d % ScreenWidth == b;
    }
  }

  /** DXYN XORs 1 into exactly the hit cells, sets `drawFlag` and advances. Only VF
      among the registers changes. */
  lemma DrawFlips(s: Machine, x: Byte, y: Byte, n: Nibble)
    requires WellFormed(s) && DrawSafe(s, x, y, n)
    ensures var t := DrawStep(s, x, y, n);
      && (forall c | 0 <= c < VideoSize && Hit(s, x, y, n, c) ::
            t.video[c] == if s.video[c] % 2 == 0 then s.video[c] + 1 else s.video[c] - 1)
      && (forall c | 0 <= c < VideoSize && !Hit(s, x, y, n, c) :: t.video[c] == s.video[c])
      && t.drawFlag
      && t == s.(registers := t.registers, video := t.video, drawFlag := true, programCounter := PcPlus(s, 2))
      && t.registers == s.registers[Flag := t.registers[Flag]]
  {
    var t := DrawStep(s, x, y, n);
    forall c | 0 <= c < VideoSize && Hit(s, x, y, n, c)
      ensures t.video[c] == if s.video[c] % 2 == 0 then s.video[c] + 1 else s.video[c] - 1
    {
      XorOne(s.video[c]);
    }
  }

  /** VF ends as 1 exactly when some hit cell held 1 before the draw, and as 0
      otherwise. */
  lemma DrawCollision(s: Machine, x: Byte, y: Byte, n: Nibble)
    requires WellFormed(s) && DrawSafe(s, x, y, n)
    ensures var t := DrawStep(s, x, y, n);
      && (t.registers[Flag] == 1 <==> exists c | 0 <= c < VideoSize :: Hit(s, x, y, n, c) && s.video[c] == 1)
      && t.registers[Flag] <= 1
  {
    if Collision(s, x, y, n) {
      var r, b :| 0 <= r < n && 0 <= b < 8 && Before(r, b, n, 0) &&
        Lit(s, r, b) && s.video[Target(x, y, r, b)] == 1;
      var c := Target(x, y, r, b);
      HitIsTarget(s, x, y, n, c);
      assert Hit(s, x, y, n, c) && s.video[c] == 1;
    }
    if exists c | 0 <= c < VideoSize :: Hit(s, x, y, n, c) && s.video[c] == 1 {
      var c :| 0 <= c < VideoSize && Hit(s, x, y, n, c) && s.video[c] == 1;
      HitIsTarget(s, x, y, n, c);
      var r, b :| 0 <= r < n && 0 <= b < 8 && Lit(s, r, b) && c == Target(x, y, r, b);
      assert Before(r, b, n, 0);
    }
  }

  predicate Binary(v: seq<Cell>) {
    forall c | 0 <= c < |v| :: v[c] <= 1
  }

  /** A screen of zeros and ones stays one after a draw. */
  lemma DrawKeepsBinary(s: Machine, x: Byte, y: Byte, n: Nibble)
    requires WellFormed(s) && DrawSafe(s, x, y, n) && Binary(s.video)
    ensures Binary(DrawStep(s, x, y, n).video)
  {
    forall c | 0 <= c < VideoSize
      ensures DrawStep(s, x, y, n).video[c] <= 1
    {
      XorOne(s.video[c]);
    }
  }

  /** Drawing the same sprite at the same place twice restores the screen, provided
      neither coordinate register is VF, which the first draw overwrites. */
  lemma DrawTwiceRestores(s: Machine, x: Nibble, y: Nibble, n: Nibble, rnd: Byte)
    requires WellFormed(s) && Safe(s, Drw(x, y, n)) && x != Flag && y != Flag
    ensures Safe(Step(s, Drw(x, y, n), rnd), Drw(x, y, n))
    ensures Step(Step(s, Drw(x, y, n), rnd), Drw(x, y, n), rnd).video == s.video
  {
    var t := Step(s, Drw(x, y, n), rnd);
    var vx, vy := V(s, x), V(s, y);
    assert V(t, x) == vx && V(t, y) == vy;
    assert t.memory == s.memory && t.index == s.index;
    forall r, b | 0 <= r < n && 0 <= b < 8
      ensures Lit(t, r, b) == Lit(s, r, b)
    {
    }
    forall c | 0 <= c < VideoSize
      ensures DrawnVideo(t, vx, vy, n)[c] == s.video[c]
    {
      assert Hit(t, vx, vy, n, c) == Hit(s, vx, vy, n, c);
      XorOne(s.video[c]);
    }
  }

  // ---------------------------------------------------------------------------------
  // Keys

  /** FX0A with no key down changes nothing, so the cycle repeats it. */
  lemma WaitKeyStalls(s: Machine, x: Nibble, rnd: Byte)
    requires WellFormed(s) && forall k | 0 <= k < KeyCount :: s.keypad[k] == 0
    ensures Step(s, LdKey(x), rnd) == s
  {
  }

  /** FX0A with key k down and no higher key down stores k and advances. */
  lemma WaitKeyTakesHighest(s: Machine, x: Nibble, k: int, rnd: Byte)
    requires WellFormed(s) && 0 <= k < KeyCount && s.keypad[k] != 0
    requires forall j | k < j < KeyCount :: s.keypad[j] == 0
    ensures Step(s, LdKey(x), rnd) == s.(registers := s.registers[x := k], programCounter := PcPlus(s, 2))
  {
    var h := HighestPressed(s.keypad, KeyCount);
    assert h.Some? && h.value == k;
  }

  // ---------------------------------------------------------------------------------
  // The index register and the memory block instructions

  /** FX1E: VF is 1 exactly when I + Vx leaves the 12-bit address space, and I becomes
      I + Vx at 16 bits; with X equal to F the flag is what is added. */
  lemma AddIndexFlag(s: Machine, x: Nibble, rnd: Byte)
    requires WellFormed(s)
    ensures var t, vx := Step(s, AddI(x), rnd), V(s, x);
      && (t.registers[Flag] == 1 <==> s.index + vx > 0xFFF) && t.registers[Flag] <= 1
      && (x != Flag ==> t.index == (s.index + vx) % 0x1_0000)
      && (x == Flag ==> t.index == (s.index + t.registers[Flag]) % 0x1_0000)
      && t == s.(registers := s.registers[Flag := t.registers[Flag]], index := t.index, programCounter := PcPlus(s, 2))
  {
  }

  /** FX29 points I at the glyph of Vx, which is where the font sits once the
      constructor has copied it. */
  lemma FontPointsAtGlyph(s: Machine, x: Nibble, rnd: Byte)
    requires WellFormed(s)
    ensures var t := Step(s, LdFont(x), rnd);
      && t.index == FontsetStart + 5 * V(s, x)
      && t == s.(index := t.index, programCounter := PcPlus(s, 2))
      && (V(s, x) < 16 && s.memory[FontsetStart .. FontsetStart + FontsetSize] == Fontset ==>
            t.memory[t.index .. t.index + 5] == Glyph(V(s, x)))
  {
    FontDispatch(s, x, rnd);
    if V(s, x) < 16 && s.memory[FontsetStart .. FontsetStart + FontsetSize] == Fontset {
      GlyphInFont(s.memory, V(s, x));
    }
  }

  /** `Step` runs FX29 as `IndexStep` does: I := 5 * Vx, then pc += 2. */
  lemma FontDispatch(s: Machine, x: Nibble, rnd: Byte)
    requires WellFormed(s)
    ensures Step(s, LdFont(x), rnd) == Next(s.(index := V(s, x) * 5))
  {
    assert Step(s, LdFont(x), rnd) == IndexStep(s, LdFont(x));
  }

  /** Memory holding the font at `FontsetStart` holds the glyph of `d` at `5 * d`. */
  lemma GlyphInFont(mem: seq<Byte>, d: int)
    requires FontsetStart + FontsetSize <= |mem| && 0 <= d < 16
    requires mem[FontsetStart .. FontsetStart + FontsetSize] == Fontset
    ensures mem[FontsetStart + 5 * d .. FontsetStart + 5 * d + 5] == Glyph(d)
  {
    var font := mem[FontsetStart .. FontsetStart + FontsetSize];
    assert mem[FontsetStart + 5 * d .. FontsetStart + 5 * d + 5] == font[5 * d .. 5 * d + 5];
  }

  /** FX33 writes the decimal digits of Vx at I, I + 1 and I + 2, most significant
      first, and touches no other byte. */
  lemma BcdDigits(s: Machine, x: Nibble, rnd: Byte)
    requires WellFormed(s) && Safe(s, LdBcd(x))
    ensures var t, at := Step(s, LdBcd(x), rnd), s.index;
      var h, d, u := t.memory[at], t.memory[at + 1], t.memory[at + 2];
      && h <= 9 && d <= 9 && u <= 9
      && 100 * h + 10 * d + u == V(s, x)
      && (forall a | 0 <= a < MemorySize && (a < at || a > at + 2) :: t.memory[a] == s.memory[a])
      && t == s.(memory := t.memory, programCounter := PcPlus(s, 2))
  {
  }

  lemma BcdExample(s: Machine, x: Nibble, rnd: Byte)
    requires WellFormed(s) && Safe(s, LdBcd(x)) && V(s, x) == 234
    ensures var t := Step(s, LdBcd(x), rnd);
      t.memory[s.index .. s.index + 3] == [2, 3, 4]
  {
  }

  /** FX55 stores V0 to Vx at I .. I + x, leaves the rest of memory and the registers
      alone, and moves I past the block. */
  lemma StoreRegsCopies(s: Machine, x: Nibble, rnd: Byte)
    requires WellFormed(s) && Safe(s, StoreRegs(x))
    ensures var t, at := Step(s, StoreRegs(x), rnd), s.index;
      && (forall k | 0 <= k <= x :: t.memory[at + k] == s.registers[k])
      && (forall a | 0 <= a < MemorySize && (a < at || a > at + x) :: t.memory[a] == s.memory[a])
      && t == s.(memory := t.memory, index := (at + x + 1) % 0x1_0000, programCounter := PcPlus(s, 2))
  {
  }

  /** FX65 loads V0 to Vx from I .. I + x, leaves the higher registers alone, and moves
      I past the block. */
  lemma LoadRegsCopies(s: Machine, x: Nibble, rnd: Byte)
    requires WellFormed(s) && Safe(s, LoadRegs(x))
    ensures var t, at := Step(s, LoadRegs(x), rnd), s.index;
      && (forall k | 0 <= k <= x :: t.registers[k] == s.memory[at + k])
      && (forall r | x < r < RegisterCount :: t.registers[r] == s.registers[r])
      && t == s.(registers := t.registers, index := (at + x + 1) % 0x1_0000, programCounter := PcPlus(s, 2))
  {
  }

  /** Storing V0 .. Vx, pointing I back at the block with ANNN and loading it again
      gives back the registers that were stored. */
  lemma StoreThenLoad(s: Machine, x: Nibble, rnd: Byte)
    requires WellFormed(s) && s.index < 0x1000 && s.index + x < MemorySize
    ensures var t1 := Step(s, StoreRegs(x), rnd);
      var t2 := Step(t1, LdI(s.index), rnd);
      && Safe(t2, LoadRegs(x))
      && Step(t2, LoadRegs(x), rnd).registers == s.registers
  {
    var t1 := Step(s, StoreRegs(x), rnd);
    var t2 := Step(t1, LdI(s.index), rnd);
    StoreRegsCopies(s, x, rnd);
    assert t2.registers == s.registers && t2.index == s.index && t2.memory == t1.memory;
    assert forall k | 0 <= k <= x :: t2.memory[s.index + k] == s.registers[k];
    LoadRegsCopies(t2, x, rnd);
    var t3 := Step(t2, LoadRegs(x), rnd);
    assert forall k | 0 <= k <= x :: t3.registers[k] == s.registers[k];
    assert forall r | x < r < RegisterCount :: t3.registers[r] == s.registers[r];
    assert t3.registers == s.registers;
  }

  // ---------------------------------------------------------------------------------
  // Timers and decoding

  /** FX07 reads the delay timer into Vx. */
  lemma TimerRead(s: Machine, x: Nibble, rnd: Byte)
    requires WellFormed(s)
    ensures Step(s, LdFromDelay(x), rnd) == s.(registers := s.registers[x := s.delayTimer], programCounter := PcPlus(s, 2))
  {
  }

  /** FX15 and FX18 set the delay and the sound timer from Vx. */
  lemma TimerSet(s: Machine, x: Nibble, rnd: Byte)
    requires WellFormed(s)
    ensures Step(s, LdDelay(x), rnd) == s.(delayTimer := V(s, x), programCounter := PcPlus(s, 2))
    ensures Step(s, LdSound(x), rnd) == s.(soundTimer := V(s, x), programCounter := PcPlus(s, 2))
  {
  }

  /** 00E0 blanks the screen and sets `drawFlag`. */
  lemma ClearBlanks(s: Machine, rnd: Byte)
    requires WellFormed(s)
    ensures var t := Step(s, Cls, rnd);
      && (forall c | 0 <= c < VideoSize :: t.video[c] == 0)
      && t == s.(video := t.video, drawFlag := true, programCounter := PcPlus(s, 2))
  {
  }

  /** A word outside the instruction set leaves the machine as it was, program counter
      included, so the interpreter stalls on it. */
  lemma UnknownStalls(s: Machine, op: Word, rnd: Byte)
    requires WellFormed(s) && Decode(op).Unknown?
    ensures Safe(s, Decode(op)) && Execute(s, op, rnd) == s
  {
  }

  /** Examples: 0x0001 and 0x8008 are unknown; 0x0000 and 0x0230 clear the screen like
      0x00E0; 0x0DDE returns; 0x502F compares V0 with V2. */
  lemma DecodeExamples()
    ensures Decode(0x0001) == Unknown(0x0001) && Decode(0x0000) == Cls
    ensures Decode(0x8008) == Unknown(0x8008)
    ensures Decode(0x0230) == Cls && Decode(0x00E0) == Cls && Decode(0x0DDE) == Ret
    ensures Decode(0x502F) == SeReg(0, 2) && Decode(0xD125) == Drw(1, 2, 5)
  {
    assert Family(0x0000) == 0 && N(0x0000) == 0;
    assert Family(0x0001) == 0 && N(0x0001) == 1;
    assert Family(0x8008) == 8 && N(0x8008) == 8;
    assert Family(0x0230) == 0 && N(0x0230) == 0;
    assert Family(0x00E0) == 0 && N(0x00E0) == 0;
    assert Family(0x0DDE) == 0 && N(0x0DDE) == 0xE;
    assert Family(0x502F) == 5 && X(0x502F) == 0 && Y(0x502F) == 2;
    assert Family(0xD125) == 0xD && X(0xD125) == 1 && Y(0xD125) == 2 && N(0xD125) == 5;
  }

  // ---------------------------------------------------------------------------------
  // Cycles

  /** The instruction stored at the program counter, high byte first, is the one the
      cycle decodes. */
  lemma FetchDecodes(s: Machine, i: Instr)
    requires WellFormed(s) && s.programCounter + 1 < MemorySize && Decodable(i)
    requires s.memory[s.programCounter] == Encode(i) / 0x100
    requires s.memory[s.programCounter + 1] == Encode(i) % 0x100
    ensures Decode(Fetch(s)) == i
  {
    assert Fetch(s) == Encode(i);
    DecodeEncode(i);
  }

  /** After the instruction, each timer drops by one unless it is zero, and the cycle
      beeps exactly when the sound timer it ticks is 1. */
  lemma CycleTicks(s: Machine, rnd: Byte)
    requires WellFormed(s) && CycleSafe(s)
    ensures var t := Execute(Fetched(s), Fetch(s), rnd);
      var r := Cycle(s, rnd);
      && r.0.delayTimer == (if t.delayTimer > 0 then t.delayTimer - 1 else 0)
      && r.0.soundTimer == (if t.soundTimer > 0 then t.soundTimer - 1 else 0)
      && (r.1 <==> t.soundTimer == 1)
      && r.0 == t.(delayTimer := r.0.delayTimer, soundTimer := r.0.soundTimer)
  {
  }

  /** A cycle on FX0A with no key down keeps the program counter and the registers,
      but the timers still tick. */
  lemma StalledCycleTicks(s: Machine, x: Nibble, rnd: Byte)
    requires WellFormed(s) && s.programCounter + 1 < MemorySize && Decode(Fetch(s)) == LdKey(x)
    requires forall k | 0 <= k < KeyCount :: s.keypad[k] == 0
    ensures CycleSafe(s)
    ensures var r := Cycle(s, rnd);
      && r.0.programCounter == s.programCounter && r.0.registers == s.registers
      && r.0.delayTimer == (if s.delayTimer > 0 then s.delayTimer - 1 else 0)
      && r.0.soundTimer == (if s.soundTimer > 0 then s.soundTimer - 1 else 0)
      && (r.1 <==> s.soundTimer == 1)
  {
    WaitKeyStalls(Fetched(s), x, rnd);
  }

  /** Only FX18 writes the sound timer. */
  lemma OnlyLdSoundSetsSound(s: Machine, i: Instr, rnd: Byte)
    requires WellFormed(s) && Safe(s, i) && !i.LdSound?
    ensures Step(s, i, rnd).soundTimer == s.soundTimer
  {
    if i.LdFromDelay? || i.LdKey? || i.LdDelay? {
      assert Step(s, i, rnd) == TimerStep(s, i);
    } else if i.AddI? || i.LdFont? || i.LdBcd? || i.StoreRegs? || i.LoadRegs? {
      assert Step(s, i, rnd) == IndexStep(s, i);
    }
  }

  /** FX18 with Vx = 1 beeps on its own cycle and leaves the sound timer at 0; from
      then on a cycle whose instruction is not FX18 does not beep again. */
  lemma BeepOnce(s: Machine, x: Nibble, rnd: Byte)
    requires WellFormed(s) && s.programCounter + 1 < MemorySize
    requires Decode(Fetch(s)) == LdSound(x) && V(s, x) == 1
    ensures CycleSafe(s) && Cycle(s, rnd).1 && Cycle(s, rnd).0.soundTimer == 0
  {
  }

  lemma SilentAtZero(s: Machine, rnd: Byte)
    requires WellFormed(s) && CycleSafe(s) && s.soundTimer == 0 && !Decode(Fetch(s)).LdSound?
    ensures !Cycle(s, rnd).1 && Cycle(s, rnd).0.soundTimer == 0
  {
    OnlyLdSoundSetsSound(Fetched(s), Decode(Fetch(s)), rnd);
  }

  // ---------------------------------------------------------------------------------
  // Construction, ROM loading and the keypad

  /** The constructed machine: the font in bytes 0 to 79 and zeros above, empty
      screen, registers, stack and keypad, the program counter at 0x200. */
  lemma InitialState(delay: Byte, sound: Byte)
    ensures var m := Initial(delay, sound);
      && WellFormed(m)
      && m.memory[..FontsetSize] == Fontset
      && (forall a | FontsetSize <= a < MemorySize :: m.memory[a] == 0)
      && (forall c | 0 <= c < VideoSize :: m.video[c] == 0)
      && (forall r | 0 <= r < RegisterCount :: m.registers[r] == 0 && m.stack[r] == 0 && m.keypad[r] == 0)
      && m.programCounter == MemStart && m.index == 0 && m.stackPointer == 0 && !m.drawFlag
  {
    var m := Initial(delay, sound);
    assert m.memory[..FontsetSize] == Fontset;
  }

  /** The glyph of every digit sits at 5 times the digit in the initial memory. */
  lemma InitialGlyphs(delay: Byte, sound: Byte, d: int)
    requires 0 <= d < 16
    ensures Initial(delay, sound).memory[5 * d .. 5 * d + 5] == Glyph(d)
  {
    InitialState(delay, sound);
    var m := Initial(delay, sound).memory;
    assert m[5 * d .. 5 * d + 5] == m[..FontsetSize][5 * d .. 5 * d + 5];
  }

  /** `loadROM` puts byte k of the ROM at 0x200 + k and leaves every other byte, the
      font included, and the rest of the state as it was. */
  lemma LoadRomPlaces(s: Machine, rom: seq<Byte>)
    requires WellFormed(s) && |rom| <= MemorySize - MemStart
    ensures var t := LoadRom(s, rom);
      && (forall k | 0 <= k < |rom| :: t.memory[MemStart + k] == rom[k])
      && (forall a | 0 <= a < MemorySize && (a < MemStart || a >= MemStart + |rom|) :: t.memory[a] == s.memory[a])
      && t.memory[..MemStart] == s.memory[..MemStart]
      && t == s.(memory := t.memory)
  {
    var t := LoadRom(s, rom);
    assert forall a | 0 <= a < MemStart :: t.memory[..MemStart][a] == s.memory[..MemStart][a];
  }

  /** `setKeys` replaces the keypad and nothing else; doing it twice is doing it once. */
  lemma SetKeysReplaces(s: Machine, keys: seq<Byte>)
    requires WellFormed(s) && |keys| >= KeyCount
    ensures var t := SetKeys(s, keys);
      && (forall k | 0 <= k < KeyCount :: t.keypad[k] == keys[k])
      && t == s.(keypad := t.keypad)
      && SetKeys(t, keys) == t
  {
  }

  /** `draw()` clears `drawFlag` and nothing else, so a second call changes nothing;
      after DXYN it keeps the drawn buffer and the advanced program counter. */
  lemma PresentClears(s: Machine, x: Nibble, y: Nibble, n: Nibble, rnd: Byte)
    requires WellFormed(s)
    ensures Present(s) == s.(drawFlag := false)
    ensures Present(Present(s)) == Present(s)
    ensures !s.drawFlag ==> Present(s) == s
    ensures Safe(s, Drw(x, y, n)) ==>
      var t := Step(s, Drw(x, y, n), rnd);
      t.drawFlag && Present(t) == t.(drawFlag := false)
  {
  }

  /** A two-instruction ROM, `V0 := 5; V0 += 3`, loaded into the constructed machine:
      two cycles leave 8 in V0 and the program counter at 0x204. */
  lemma RunSmallRom(delay: Byte, sound: Byte, rnd: Byte)
    ensures var m := LoadRom(Initial(delay, sound), [0x60, 0x05, 0x70, 0x03]);
      && CycleSafe(m)
      && CycleSafe(Cycle(m, rnd).0)
      && var r := Cycle(Cycle(m, rnd).0, rnd).0;
      r.registers[0] == 8 && r.programCounter == 0x204
  {
    var m := LoadRom(Initial(delay, sound), [0x60, 0x05, 0x70, 0x03]);
    assert m.memory[0x200] == 0x60 && m.memory[0x201] == 0x05;
    assert m.memory[0x202] == 0x70 && m.memory[0x203] == 0x03;
    FirstCycle(m, rnd);
    SecondCycle(Cycle(m, rnd).0, rnd);
  }

  lemma FirstCycle(m: Machine, rnd: Byte)
    requires WellFormed(m) && m.programCounter == 0x200
    requires m.memory[0x200] == 0x60 && m.memory[0x201] == 0x05
    ensures CycleSafe(m)
    ensures var r := Cycle(m, rnd).0;
      r.memory == m.memory && r.programCounter == 0x202 && r.registers[0] == 5
  {
    assert Fetch(m) == 0x6005;
    assert Decode(0x6005) == LdByte(0, 5);
  }

  lemma SecondCycle(m: Machine, rnd: Byte)
    requires WellFormed(m) && m.programCounter == 0x202 && m.registers[0] == 5
    requires m.memory[0x202] == 0x70 && m.memory[0x203] == 0x03
    ensures CycleSafe(m)
    ensures var r := Cycle(m, rnd).0;
      r.programCounter == 0x204 && r.registers[0] == 8
  {
    assert Fetch(m) == 0x7003;
    assert Decode(0x7003) == AddByte(0, 3);
  }
}
