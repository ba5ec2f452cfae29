/** The interpreter object: the arrays and registers of the machine as the fields of a
    class whose methods update them in place, as the source's `Chip8` class does. Each
    method is proved to leave the object in the state the matching function of
    `Semantics` computes from the state it started in. */
module Interpreter {
  import opened Layout
  import opened Bits
  import opened Opcodes
  import opened Semantics

  class Chip8 {
    const memory: array<Byte>
    const video: array<Cell>
    const registers: array<Byte>
    const stack: array<Word>
    const keypad: array<Byte>

    var index: Word
    var delayTimer: Byte
    var soundTimer: Byte
    var programCounter: Word
    var stackPointer: Byte
    var opCode: Word
    var drawFlag: bool

    /** The arrays have the sizes the header declares and do not alias one another. */
    ghost predicate Valid()
      reads this
    {
      && memory.Length == MemorySize
      && video.Length == VideoSize
      && registers.Length == RegisterCount
      && stack.Length == StackSize
      && keypad.Length == KeyCount
      && memory != registers && memory != keypad && registers != keypad
    }

    /** The object's whole state as a `Machine` value. */
    ghost function Snapshot(): (m: Machine)
      requires Valid()
      reads this, memory, video, registers, stack, keypad
      ensures WellFormed(m)
    {
      Machine(memory[..], video[..], index, delayTimer, soundTimer, registers[..],
              programCounter, stack[..], stackPointer, keypad[..], opCode, drawFlag)
    }

    /** Zero the state, start at `MemStart` and copy the font to `FontsetStart`. The
        timers are not set by the source; here they are the constructor's arguments. */
    constructor (delay: Byte, sound: Byte)
      ensures Valid() && fresh(memory) && fresh(video) && fresh(registers) && fresh(stack) && fresh(keypad)
      ensures Snapshot() == Initial(delay, sound)
    {
      programCounter := MemStart;
      opCode := 0;
      index := 0;
      stackPointer := 0;
      var m := new Byte[MemorySize](_ => 0);
      ghost var zeros := m[..];
      for k := 0 to FontsetSize
        invariant m[..] == Overlay(zeros, FontsetStart, Fontset[..k])
      {
        m[FontsetStart + k] := Fontset[k];
        OverlayGrow(zeros, FontsetStart, Fontset, k);
      }
      memory := m;
      video := new Cell[VideoSize](_ => 0);
      registers := new Byte[RegisterCount](_ => 0);
      stack := new Word[StackSize](_ => 0);
      keypad := new Byte[KeyCount](_ => 0);
      delayTimer := delay;
      soundTimer := sound;
      drawFlag := false;
      new;
      assert Fontset[..FontsetSize] == Fontset;
      assert zeros == seq(MemorySize, _ => 0);
      assert video[..] == Initial(delay, sound).video by {
        assert forall c | 0 <= c < VideoSize :: video[..][c] == Blank()[c];
      }
      assert registers[..] == Initial(delay, sound).registers;
      assert stack[..] == Initial(delay, sound).stack;
      assert keypad[..] == Initial(delay, sound).keypad;
    }

    /** `loadROM`, given the file's bytes: they are copied from `MemStart` on. */
    method LoadRom(rom: seq<Byte>)
      requires Valid() && |rom| <= MemorySize - MemStart
      modifies memory
      ensures Valid() && Snapshot() == Semantics.LoadRom(old(Snapshot()), rom)
    {
      ghost var before := memory[..];
      for k := 0 to |rom|
        invariant memory[..] == Overlay(before, MemStart, rom[..k])
      {
        memory[MemStart + k] := rom[k];
        OverlayGrow(before, MemStart, rom, k);
      }
      assert rom[..|rom|] == rom;
    }

    /** `setKeys`: the first sixteen entries of `keys` become the keypad. */
    method SetKeys(keys: seq<Byte>)
      requires Valid() && |keys| >= KeyCount
      modifies keypad
      ensures Valid() && Snapshot() == Semantics.SetKeys(old(Snapshot()), keys)
    {
      for k := 0 to KeyCount
        invariant forall j | 0 <= j < k :: keypad[j] == keys[j]
      {
        keypad[k] := keys[k];
      }
      assert keypad[..] == keys[..KeyCount];
    }

    /** `draw()`: the rendering is left to the screen; the object only sees `drawFlag`
        cleared once a frame has been shown. */
    method Draw()
      requires Valid()
      modifies this`drawFlag
      ensures Valid() && Snapshot() == Present(old(Snapshot()))
    {
      if drawFlag {
        drawFlag := false;
      }
    }

    /** `emulateCycle`: fetch the big-endian word at the program counter into `opCode`,
        execute it, then tick both timers. `rnd` is the byte CXKK would draw; the result
        says whether the sound timer ran out on this cycle, when the source beeps. */
    method EmulateCycle(rnd: Byte) returns (beep: bool)
      requires Valid() && CycleSafe(Snapshot())
      modifies this, memory, video, registers, stack
      ensures Valid() && (Snapshot(), beep) == Semantics.Cycle(old(Snapshot()), rnd)
    {
      // The source writes `memory[pc] << 8 | memory[pc + 1]`; the low byte fills the
      // eight bits the shift clears, so this is the same word.
      ghost var s := Snapshot();
      opCode := memory[programCounter] as int * 0x100 + memory[programCounter + 1];
      assert Snapshot() == Fetched(s);
      Execute(opCode, rnd);
      beep := TickTimers();
    }

    /** Each timer counts down towards zero; `beep` is set when the sound timer goes
        from 1 to 0. */
    method TickTimers() returns (beep: bool)
      requires Valid()
      modifies this
      ensures Valid() && Snapshot() == Tick(old(Snapshot())) && beep == Beeps(old(Snapshot()))
    {
      if delayTimer > 0 {
        delayTimer := delayTimer - 1;
      }
      beep := false;
      if soundTimer > 0 {
        if soundTimer == 1 {
          beep := true;
        }
        soundTimer := soundTimer - 1;
      }
    }

    /** `execute(op)`: decode the word and run the instruction's group. */
    method Execute(op: Word, rnd: Byte)
      requires Valid() && Safe(Snapshot(), Decode(op))
      modifies this, memory, video, registers, stack
      ensures Valid() && Snapshot() == Semantics.Execute(old(Snapshot()), op, rnd)
    {
      var i := Decode(op);
      if DrawOrFx(i) {
        ExecuteDrawOrFx(i, rnd);
      } else {
        ExecuteOthers(i, rnd);
      }
    }

    /** 00E0 to CXKK, and the key skips EX9E and EXA1. */
    method ExecuteOthers(i: Instr, rnd: Byte)
      requires Valid() && Safe(Snapshot(), i) && !DrawOrFx(i)
      modifies this, video, registers, stack
      ensures Valid() && Snapshot() == Step(old(Snapshot()), i, rnd)
    {
      match i
      case Cls | Ret | Jp(_) | Call(_) | JpV0(_) => ExecuteFlow(i);
      case SeByte(_, _) | SneByte(_, _) | SeReg(_, _) | SneReg(_, _) | Skp(_) | Sknp(_) => ExecuteSkip(i);
      case LdByte(_, _) | AddByte(_, _) | LdI(_) | Rnd(_, _) => ExecuteLoad(i, rnd);
      case LdReg(_, _) | Or(_, _) | And(_, _) | Xor(_, _) => ExecuteLogic(i);
      case AddReg(_, _) | Sub(_, _) | Shr(_, _) | Subn(_, _) | Shl(_, _) => ExecuteArith(i);
    }

    /** DXYN, the FXNN instructions and the words the dispatcher does not know. */
    method ExecuteDrawOrFx(i: Instr, ghost rnd: Byte)
      requires Valid() && Safe(Snapshot(), i) && DrawOrFx(i)
      modifies this, memory, video, registers
      ensures Valid() && Snapshot() == Step(old(Snapshot()), i, rnd)
    {
      match i
      case Drw(x, y, n) => DrawSprite(registers[x], registers[y], n);
      case LdFromDelay(_) | LdKey(_) | LdDelay(_) | LdSound(_) => ExecuteTimer(i);
      case AddI(_) | LdFont(_) | LdBcd(_) => ExecuteIndex(i);
      case StoreRegs(x) => StoreRegisters(x);
      case LoadRegs(x) => LoadRegisters(x);
      case Unknown(_) =>
        // The source reports the word on the error stream and changes nothing.
    }

    method ExecuteFlow(i: Instr)
      requires Valid() && Safe(Snapshot(), i)
      requires i.Cls? || i.Ret? || i.Jp? || i.Call? || i.JpV0?
      modifies this, video, stack
      ensures Valid() && Snapshot() == FlowStep(old(Snapshot()), i)
    {
      if i.Cls? {
        forall c | 0 <= c < video.Length {
          video[c] := 0;
        }
        assert video[..] == Blank();
        drawFlag := true;
        programCounter := (programCounter as int + 2) % 0x1_0000;
      } else if i.Ret? {
        stackPointer := stackPointer - 1;
        programCounter := (stack[stackPointer] as int + 2) % 0x1_0000;
      } else if i.Jp? {
        programCounter := i.nnn;
      } else if i.Call? {
        stack[stackPointer] := programCounter;
        stackPointer := stackPointer + 1;
        programCounter := i.nnn;
      } else {
        programCounter := i.nnn + registers[0];
      }
    }

    method ExecuteSkip(i: Instr)
      requires Valid() && Safe(Snapshot(), i)
      requires i.SeByte? || i.SneByte? || i.SeReg? || i.SneReg? || i.Skp? || i.Sknp?
      modifies this`programCounter
      ensures Valid() && Snapshot() == SkipStep(old(Snapshot()), i)
    {
      ghost var s := Snapshot();
      var skip;
      if i.SeByte? {
        skip := i.kk == registers[i.x];
      } else if i.SneByte? {
        skip := i.kk != registers[i.x];
      } else if i.SeReg? {
        skip := registers[i.y] == registers[i.x];
      } else if i.SneReg? {
        skip := registers[i.y] != registers[i.x];
      } else if i.Skp? {
        skip := keypad[registers[i.x]] != 0;
      } else {
        skip := keypad[registers[i.x]] == 0;
      }
      assert SkipStep(s, i) == SkipIf(s, skip);
      if skip {
        programCounter := (programCounter as int + 2) % 0x1_0000;
      }
      programCounter := (programCounter as int + 2) % 0x1_0000;
    }

    method ExecuteLoad(i: Instr, rnd: Byte)
      requires Valid()
      requires i.LdByte? || i.AddByte? || i.LdI? || i.Rnd?
      modifies this, registers
      ensures Valid() && Snapshot() == LoadStep(old(Snapshot()), i, rnd)
    {
      if i.LdByte? {
        registers[i.x] := i.kk;
      } else if i.AddByte? {
        registers[i.x] := (registers[i.x] as int + i.kk) % 0x100;
      } else if i.LdI? {
        index := i.nnn;
      } else {
        registers[i.x] := ByteAnd(rnd, i.kk);
      }
      programCounter := (programCounter as int + 2) % 0x1_0000;
    }

    method ExecuteLogic(i: Instr)
      requires Valid()
      requires i.LdReg? || i.Or? || i.And? || i.Xor?
      modifies this`programCounter, registers
      ensures Valid() && Snapshot() == LogicStep(old(Snapshot()), i)
    {
      if i.LdReg? {
        registers[i.x] := registers[i.y];
      } else if i.Or? {
        registers[i.x] := ByteOr(registers[i.x], registers[i.y]);
      } else if i.And? {
        registers[i.x] := ByteAnd(registers[i.x], registers[i.y]);
      } else {
        registers[i.x] := ByteXor(registers[i.x], registers[i.y]);
      }
      programCounter := (programCounter as int + 2) % 0x1_0000;
    }

    /** The flag is written before the operands are read again, as in the source. */
    method ExecuteArith(i: Instr)
      requires Valid()
      requires i.AddReg? || i.Sub? || i.Shr? || i.Subn? || i.Shl?
      modifies this`programCounter, registers
      ensures Valid() && Snapshot() == ArithStep(old(Snapshot()), i)
    {
      if i.Shr? || i.Shl? {
        ExecuteShift(i);
      } else if i.AddReg? {
        ExecuteAdd(i);
      } else {
        ExecuteSub(i);
      }
    }

    /** 8XY4: VF receives the carry first, then Vx and Vy are read again for the sum. */
    method ExecuteAdd(i: Instr)
      requires Valid() && i.AddReg?
      modifies this`programCounter, registers
      ensures Valid() && Snapshot() == ArithStep(old(Snapshot()), i)
    {
      registers[Flag] := if registers[i.x] > 0xFF - registers[i.y] then 1 else 0;
      registers[i.x] := (registers[i.x] as int + registers[i.y]) % 0x100;
      programCounter := (programCounter as int + 2) % 0x1_0000;
    }

    /** 8XY5 and 8XY7: VF receives the no-borrow flag first, then the operands are read
        again for the difference. */
    method ExecuteSub(i: Instr)
      requires Valid() && (i.Sub? || i.Subn?)
      modifies this`programCounter, registers
      ensures Valid() && Snapshot() == ArithStep(old(Snapshot()), i)
    {
      if i.Sub? {
        registers[Flag] := if registers[i.x] > registers[i.y] then 1 else 0;
        registers[i.x] := (registers[i.x] as int - registers[i.y]) % 0x100;
      } else {
        registers[Flag] := if registers[i.y] > registers[i.x] then 1 else 0;
        registers[i.x] := (registers[i.y] as int - registers[i.x]) % 0x100;
      }
      programCounter := (programCounter as int + 2) % 0x1_0000;
    }

    /** 8XY6 and 8XYE: VF receives the bit shifted out, then Vx is read again. */
    method ExecuteShift(i: Instr)
      requires Valid()
      requires i.Shr? || i.Shl?
      modifies this`programCounter, registers
      ensures Valid() && Snapshot() == ArithStep(old(Snapshot()), i)
    {
      if i.Shr? {
        registers[Flag] := registers[i.x] % 2;
        registers[i.x] := registers[i.x] / 2;
      } else {
        registers[Flag] := registers[i.x] / 0x80;
        registers[i.x] := registers[i.x] as int * 2 % 0x100;
      }
      programCounter := (programCounter as int + 2) % 0x1_0000;
    }

    /** DXYN with (x, y) = (Vx, Vy) already read: clear VF, then scan the sprite row by
        row and pixel by pixel, XORing each set pixel into the video buffer and raising
        VF when it lands on a cell holding 1. */
    method DrawSprite(x: Byte, y: Byte, n: Nibble)
      requires Valid() && DrawSafe(Snapshot(), x, y, n)
      modifies this`drawFlag, this`programCounter, registers, video
      ensures Valid() && Snapshot() == DrawStep(old(Snapshot()), x, y, n)
    {
      ghost var s := Snapshot();
      registers[Flag] := 0;
      var yline := 0;
      while yline < n
        invariant 0 <= yline <= n
        invariant programCounter == s.programCounter && drawFlag == s.drawFlag
        invariant video[..] == VideoBefore(s, x, y, n, yline, 0)
        invariant registers[..] == s.registers[Flag := if CollisionBefore(s, x, y, n, yline, 0) then 1 else 0]
      {
        DrawRow(s, x, y, n, yline, memory[index + yline]);
        yline := yline + 1;
      }
      drawFlag := true;
      programCounter := (programCounter as int + 2) % 0x1_0000;
    }

    /** One row of the sprite scan: the eight pixels of `pixel`, leftmost first. */
    method DrawRow(ghost s: Machine, x: Byte, y: Byte, n: Nibble, yline: int, pixel: Byte)
      requires Valid() && WellFormed(s) && DrawSafe(s, x, y, n) && 0 <= yline < n
      requires pixel == s.memory[s.index + yline]
      requires video[..] == VideoBefore(s, x, y, n, yline, 0)
      requires registers[..] == s.registers[Flag := if CollisionBefore(s, x, y, n, yline, 0) then 1 else 0]
      modifies registers, video
      ensures video[..] == VideoBefore(s, x, y, n, yline + 1, 0)
      ensures registers[..] == s.registers[Flag := if CollisionBefore(s, x, y, n, yline + 1, 0) then 1 else 0]
    {
      var xline := 0;
      while xline < 8
        invariant 0 <= xline <= 8
        invariant video[..] == VideoBefore(s, x, y, n, yline, xline)
        invariant registers[..] == s.registers[Flag := if CollisionBefore(s, x, y, n, yline, xline) then 1 else 0]
      {
        VideoStep(s, x, y, n, yline, xline);
        CollisionStep(s, x, y, n, yline, xline);
        if SpriteBit(pixel, xline) {
          var c := x + xline + (y + yline) * ScreenWidth;
          if video[c] == 1 {
            registers[Flag] := 1;
          }
          video[c] := FlipCell(video[c]);
        }
        xline := xline + 1;
      }
      VideoRowEnd(s, x, y, n, yline);
      CollisionRowEnd(s, x, y, n, yline);
    }

    method ExecuteTimer(i: Instr)
      requires Valid()
      requires i.LdFromDelay? || i.LdKey? || i.LdDelay? || i.LdSound?
      modifies this, registers
      ensures Valid() && Snapshot() == TimerStep(old(Snapshot()), i)
    {
      if i.LdFromDelay? {
        registers[i.x] := delayTimer;
      } else if i.LdKey? {
        var pressed := WaitKey(i.x);
        if !pressed {
          return;
        }
      } else if i.LdDelay? {
        delayTimer := registers[i.x];
      } else {
        soundTimer := registers[i.x];
      }
      programCounter := (programCounter as int + 2) % 0x1_0000;
    }

    /** The key scan of FX0A: every pressed key overwrites Vx, so the highest one is
        left there; `pressed` says whether there was one. */
    method WaitKey(x: Nibble) returns (pressed: bool)
      requires Valid()
      modifies registers
      ensures Valid()
      ensures pressed <==> HighestPressed(old(keypad[..]), KeyCount).Some?
      ensures pressed ==> Snapshot() == SetV(old(Snapshot()), x, HighestPressed(old(keypad[..]), KeyCount).value)
      ensures !pressed ==> Snapshot() == old(Snapshot())
    {
      pressed := false;
      for k := 0 to KeyCount
        invariant pressed <==> HighestPressed(keypad[..], k).Some?
        invariant registers[..] ==
          if pressed then old(registers[..])[x := HighestPressed(keypad[..], k).value] else old(registers[..])
      {
        if keypad[k] != 0 {
          registers[x] := k;
          pressed := true;
        }
      }
    }

    method ExecuteIndex(i: Instr)
      requires Valid() && Safe(Snapshot(), i)
      requires i.AddI? || i.LdFont? || i.LdBcd?
      modifies this, memory, registers
      ensures Valid() && Snapshot() == IndexStep(old(Snapshot()), i)
    {
      if i.AddI? {
        registers[Flag] := if index as int + registers[i.x] > 0xFFF then 1 else 0;
        index := (index as int + registers[i.x]) % 0x1_0000;
      } else if i.LdFont? {
        index := registers[i.x] as int * 5;
      } else {
        memory[index] := registers[i.x] / 100;
        memory[index + 1] := registers[i.x] / 10 % 10;
        memory[index + 2] := registers[i.x] % 10;
      }
      programCounter := (programCounter as int + 2) % 0x1_0000;
    }

    /** FX55: registers 0 to x are copied to memory from I on, then I moves past them. */
    method StoreRegisters(x: Nibble)
      requires Valid() && index + x < MemorySize
      modifies this, memory
      ensures Valid() && Snapshot() == IndexStep(old(Snapshot()), StoreRegs(x))
    {
      ghost var before := memory[..];
      for k := 0 to x + 1
        invariant index == old(index) && programCounter == old(programCounter)
        invariant delayTimer == old(delayTimer) && soundTimer == old(soundTimer)
        invariant stackPointer == old(stackPointer) && opCode == old(opCode) && drawFlag == old(drawFlag)
        invariant memory[..] == Overlay(before, index, registers[..k])
      {
        memory[index + k] := registers[k];
        OverlayGrow(before, index, registers[..x + 1], k);
        assert registers[..x + 1][..k] == registers[..k];
        assert registers[..x + 1][..k + 1] == registers[..k + 1];
      }
      index := (index as int + x + 1) % 0x1_0000;
      programCounter := (programCounter as int + 2) % 0x1_0000;
    }

    /** FX65: memory from I on is copied to registers 0 to x, then I moves past it. */
    method LoadRegisters(x: Nibble)
      requires Valid() && index + x < MemorySize
      modifies this, registers
      ensures Valid() && Snapshot() == IndexStep(old(Snapshot()), LoadRegs(x))
    {
      ghost var before := registers[..];
      for k := 0 to x + 1
        invariant index == old(index) && programCounter == old(programCounter)
        invariant delayTimer == old(delayTimer) && soundTimer == old(soundTimer)
        invariant stackPointer == old(stackPointer) && opCode == old(opCode) && drawFlag == old(drawFlag)
        invariant registers[..] == Overlay(before, 0, memory[index .. index + k])
      {
        registers[k] := memory[index + k];
        OverlayGrow(before, 0, memory[index .. index + x + 1], k);
        assert memory[index .. index + x + 1][..k] == memory[index .. index + k];
        assert memory[index .. index + x + 1][..k + 1] == memory[index .. index + k + 1];
      }
      index := (index as int + x + 1) % 0x1_0000;
      programCounter := (programCounter as int + 2) % 0x1_0000;
    }
  }

  /** DXYN, FX07 to FX65, and unknown words: the instructions that do not need the
      random byte. */
  predicate DrawOrFx(i: Instr) {
    i.Drw? || i.LdFromDelay? || i.LdKey? || i.LdDelay? || i.LdSound? || i.AddI? ||
    i.LdFont? || i.LdBcd? || i.StoreRegs? || i.LoadRegs? || i.Unknown?
  }

  /** One more element of `src` written over `base`. */
  lemma OverlayGrow<T>(base: seq<T>, at: int, src: seq<T>, k: int)
    requires 0 <= at && 0 <= k < |src| && at + |src| <= |base|
    ensures Overlay(base, at, src[..k + 1]) == Overlay(base, at, src[..k])[at + k := src[k]]
  {
  }
}
