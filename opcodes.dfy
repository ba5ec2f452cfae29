/** Decoding of the 16-bit instruction word. The interpreter's `execute` switches on
    the top nibble and then, in families 0 and 8, on the low nibble, and in families E
    and F on the low byte; that nested dispatch is `Decode` here, from the word to one
    decoded instruction, and `Encode` is its inverse on the instructions decoding can
    produce. */
module Opcodes {
  import opened Layout

  /** A register number or a row count: one nibble. */
  type Nibble = n: int | 0 <= n < 0x10

  /** A 12-bit address operand NNN. */
  type Addr = a: int | 0 <= a < 0x1000

  /** One decoded instruction, named after its conventional mnemonic. `x` and `y` are
      register numbers, `kk` an 8-bit literal, `nnn` an address, `n` a row count.
      Every word the dispatcher does not recognise is `Unknown`. */
  datatype Instr =
    | Cls                                 // 00E0, and any 0NN0
    | Ret                                 // 00EE, and any 0NNE
    | Jp(nnn: Addr)                       // 1NNN
    | Call(nnn: Addr)                     // 2NNN
    | SeByte(x: Nibble, kk: Byte)         // 3XKK
    | SneByte(x: Nibble, kk: Byte)        // 4XKK
    | SeReg(x: Nibble, y: Nibble)         // 5XYN, any N
    | LdByte(x: Nibble, kk: Byte)         // 6XKK
    | AddByte(x: Nibble, kk: Byte)        // 7XKK
    | LdReg(x: Nibble, y: Nibble)         // 8XY0
    | Or(x: Nibble, y: Nibble)            // 8XY1
    | And(x: Nibble, y: Nibble)           // 8XY2
    | Xor(x: Nibble, y: Nibble)           // 8XY3
    | AddReg(x: Nibble, y: Nibble)        // 8XY4
    | Sub(x: Nibble, y: Nibble)           // 8XY5
    | Shr(x: Nibble, y: Nibble)           // 8XY6
    | Subn(x: Nibble, y: Nibble)          // 8XY7
    | Shl(x: Nibble, y: Nibble)           // 8XYE
    | SneReg(x: Nibble, y: Nibble)        // 9XYN, any N
    | LdI(nnn: Addr)                      // ANNN
    | JpV0(nnn: Addr)                     // BNNN
    | Rnd(x: Nibble, kk: Byte)            // CXKK
    | Drw(x: Nibble, y: Nibble, n: Nibble)  // DXYN
    | Skp(x: Nibble)                      // EX9E
    | Sknp(x: Nibble)                     // EXA1
    | LdFromDelay(x: Nibble)              // FX07
    | LdKey(x: Nibble)                    // FX0A
    | LdDelay(x: Nibble)                  // FX15
    | LdSound(x: Nibble)                  // FX18
    | AddI(x: Nibble)                     // FX1E
    | LdFont(x: Nibble)                   // FX29
    | LdBcd(x: Nibble)                    // FX33
    | StoreRegs(x: Nibble)                // FX55
    | LoadRegs(x: Nibble)                 // FX65
    | Unknown(op: Word)

  /** The fields of an instruction word: the four nibbles, most significant first, the
      low byte KK and the low twelve bits NNN. The source extracts them with masks and
      shifts (`(op & 0x0F00) >> 8` and so on); on an unsigned word these are the
      quotients and remainders below. */
  function Family(op: Word): Nibble { op / 0x1000 }
  function X(op: Word): Nibble { (op / 0x100) % 0x10 }
  function Y(op: Word): Nibble { (op / 0x10) % 0x10 }
  function N(op: Word): Nibble { op % 0x10 }
  function KK(op: Word): Byte { op % 0x100 }
  function NNN(op: Word): Addr { op % 0x1000 }

  function Decode(op: Word): (i: Instr)
    ensures i.Unknown? ==> i.op == op
  {
    var x, y := X(op), Y(op);
    match Family(op)
    case 0x0 =>
      if N(op) == 0x0 then Cls
      else if N(op) == 0xE then Ret
      else Unknown(op)
    case 0x1 => Jp(NNN(op))
    case 0x2 => Call(NNN(op))
    case 0x3 => SeByte(x, KK(op))
    case 0x4 => SneByte(x, KK(op))
    case 0x5 => SeReg(x, y)
    case 0x6 => LdByte(x, KK(op))
    case 0x7 => AddByte(x, KK(op))
    case 0x8 =>
      (match N(op)
       case 0x0 => LdReg(x, y)
       case 0x1 => Or(x, y)
       case 0x2 => And(x, y)
       case 0x3 => Xor(x, y)
       case 0x4 => AddReg(x, y)
       case 0x5 => Sub(x, y)
       case 0x6 => Shr(x, y)
       case 0x7 => Subn(x, y)
       case 0xE => Shl(x, y)
       case _ => Unknown(op))
    case 0x9 => SneReg(x, y)
    case 0xA => LdI(NNN(op))
    case 0xB => JpV0(NNN(op))
    case 0xC => Rnd(x, KK(op))
    case 0xD => Drw(x, y, N(op))
    case 0xE =>
      if KK(op) == 0x9E then Skp(x)
      else if KK(op) == 0xA1 then Sknp(x)
      else Unknown(op)
    case _ =>
      (match KK(op)
       case 0x07 => LdFromDelay(x)
       case 0x0A => LdKey(x)
       case 0x15 => LdDelay(x)
       case 0x18 => LdSound(x)
       case 0x1E => AddI(x)
       case 0x29 => LdFont(x)
       case 0x33 => LdBcd(x)
       case 0x55 => StoreRegs(x)
       case 0x65 => LoadRegs(x)
       case _ => Unknown(op))
  }

  /** The three shapes of an instruction word. */
  function WithAddr(family: Nibble, nnn: Addr): Word { family * 0x1000 + nnn }
  function WithByte(family: Nibble, x: Nibble, kk: Byte): Word { family * 0x1000 + x * 0x100 + kk }
  function WithNibbles(family: Nibble, x: Nibble, y: Nibble, n: Nibble): Word {
    family * 0x1000 + x * 0x100 + y * 0x10 + n
  }

  /** The canonical word of an instruction: the one the mnemonic tables give, with the
      ignored nibbles of 0NN0, 0NNE, 5XYN and 9XYN set to their conventional values. */
  function Encode(i: Instr): Word {
    match i
    case Cls => 0x00E0
    case Ret => 0x00EE
    case Jp(nnn) => WithAddr(0x1, nnn)
    case Call(nnn) => WithAddr(0x2, nnn)
    case SeByte(x, kk) => WithByte(0x3, x, kk)
    case SneByte(x, kk) => WithByte(0x4, x, kk)
    case SeReg(x, y) => WithNibbles(0x5, x, y, 0x0)
    case LdByte(x, kk) => WithByte(0x6, x, kk)
    case AddByte(x, kk) => WithByte(0x7, x, kk)
    case LdReg(x, y) => WithNibbles(0x8, x, y, 0x0)
    case Or(x, y) => WithNibbles(0x8, x, y, 0x1)
    case And(x, y) => WithNibbles(0x8, x, y, 0x2)
    case Xor(x, y) => WithNibbles(0x8, x, y, 0x3)
    case AddReg(x, y) => WithNibbles(0x8, x, y, 0x4)
    case Sub(x, y) => WithNibbles(0x8, x, y, 0x5)
    case Shr(x, y) => WithNibbles(0x8, x, y, 0x6)
    case Subn(x, y) => WithNibbles(0x8, x, y, 0x7)
    case Shl(x, y) => WithNibbles(0x8, x, y, 0xE)
    case SneReg(x, y) => WithNibbles(0x9, x, y, 0x0)
    case LdI(nnn) => WithAddr(0xA, nnn)
    case JpV0(nnn) => WithAddr(0xB, nnn)
    case Rnd(x, kk) => WithByte(0xC, x, kk)
    case Drw(x, y, n) => WithNibbles(0xD, x, y, n)
    case Skp(x) => WithByte(0xE, x, 0x9E)
    case Sknp(x) => WithByte(0xE, x, 0xA1)
    case LdFromDelay(x) => WithByte(0xF, x, 0x07)
    case LdKey(x) => WithByte(0xF, x, 0x0A)
    case LdDelay(x) => WithByte(0xF, x, 0x15)
    case LdSound(x) => WithByte(0xF, x, 0x18)
    case AddI(x) => WithByte(0xF, x, 0x1E)
    case LdFont(x) => WithByte(0xF, x, 0x29)
    case LdBcd(x) => WithByte(0xF, x, 0x33)
    case StoreRegs(x) => WithByte(0xF, x, 0x55)
    case LoadRegs(x) => WithByte(0xF, x, 0x65)
    case Unknown(op) => op
  }

  /** An instruction that decoding can produce: an `Unknown` carries a word the
      dispatcher does not recognise. */
  predicate Decodable(i: Instr) {
    i.Unknown? ==> Decode(i.op) == i
  }

  /** Quotient and remainder of `q * d + r` for the three divisors the fields use. */
  lemma Split16(q: int, r: int)
    requires 0 <= r < 0x10
    ensures (q * 0x10 + r) / 0x10 == q && (q * 0x10 + r) % 0x10 == r
  {}

  lemma Split256(q: int, r: int)
    requires 0 <= r < 0x100
    ensures (q * 0x100 + r) / 0x100 == q && (q * 0x100 + r) % 0x100 == r
  {}

  lemma Split4096(q: int, r: int)
    requires 0 <= r < 0x1000
    ensures (q * 0x1000 + r) / 0x1000 == q && (q * 0x1000 + r) % 0x1000 == r
  {}

  /** The field functions read back what the three word shapes put in. */
  lemma AddrFields(family: Nibble, nnn: Addr)
    ensures Family(WithAddr(family, nnn)) == family && NNN(WithAddr(family, nnn)) == nnn
  {
    Split4096(family, nnn);
  }

  lemma ByteFields(family: Nibble, x: Nibble, kk: Byte)
    ensures var op := WithByte(family, x, kk);
      Family(op) == family && X(op) == x && KK(op) == kk
  {
    Split4096(family, x * 0x100 + kk);
    Split256(family * 0x10 + x, kk);
    Split16(family, x);
  }

  lemma NibbleFields(family: Nibble, x: Nibble, y: Nibble, n: Nibble)
    ensures var op := WithNibbles(family, x, y, n);
      && Family(op) == family && X(op) == x && Y(op) == y && N(op) == n
      && KK(op) == y * 0x10 + n
  {
    Split4096(family, x * 0x100 + y * 0x10 + n);
    Split256(family * 0x10 + x, y * 0x10 + n);
    Split16(family, x);
    Split16(family * 0x100 + x * 0x10 + y, n);
    Split16(family * 0x10 + x, y);
  }

  /** Every word is the composition of its four nibbles. */
  lemma Decompose(op: Word)
    ensures op == WithNibbles(Family(op), X(op), Y(op), N(op))
  {
    var q1, q2 := op / 0x10, op / 0x100;
    assert q2 == q1 / 0x10;
    assert Family(op) == q2 / 0x10;
  }

  /** Decoding undoes encoding; the proof goes through the constructors a few at a
      time. */
  lemma DecodeEncode1(i: Instr)
    requires i.Cls? || i.Ret? || i.Jp?
    ensures Decode(Encode(i)) == i
  {
    match i
    case Cls =>
    case Ret =>
    case Jp(nnn) => AddrFields(0x1, nnn);
  }

  lemma DecodeEncode2(i: Instr)
    requires i.Call? || i.LdI? || i.JpV0?
    ensures Decode(Encode(i)) == i
  {
    match i
    case Call(nnn) => AddrFields(0x2, nnn);
    case LdI(nnn) => AddrFields(0xA, nnn);
    case JpV0(nnn) => AddrFields(0xB, nnn);
  }

  lemma DecodeEncode3(i: Instr)
    requires i.SeByte? || i.SneByte? || i.LdByte?
    ensures Decode(Encode(i)) == i
  {
    match i
    case SeByte(x, kk) => ByteFields(0x3, x, kk);
    case SneByte(x, kk) => ByteFields(0x4, x, kk);
    case LdByte(x, kk) => ByteFields(0x6, x, kk);
  }

  lemma DecodeEncode4(i: Instr)
    requires i.AddByte? || i.Rnd? || i.SeReg?
    ensures Decode(Encode(i)) == i
  {
    match i
    case AddByte(x, kk) => ByteFields(0x7, x, kk);
    case Rnd(x, kk) => ByteFields(0xC, x, kk);
    case SeReg(x, y) => NibbleFields(0x5, x, y, 0x0);
  }

  lemma DecodeEncode5(i: Instr)
    requires i.SneReg? || i.LdReg? || i.Or?
    ensures Decode(Encode(i)) == i
  {
    match i
    case SneReg(x, y) => NibbleFields(0x9, x, y, 0x0);
    case LdReg(x, y) => NibbleFields(0x8, x, y, 0x0);
    case Or(x, y) => NibbleFields(0x8, x, y, 0x1);
  }

  lemma DecodeEncode6(i: Instr)
    requires i.And? || i.Xor? || i.AddReg?
    ensures Decode(Encode(i)) == i
  {
    match i
    case And(x, y) => NibbleFields(0x8, x, y, 0x2);
    case Xor(x, y) => NibbleFields(0x8, x, y, 0x3);
    case AddReg(x, y) => NibbleFields(0x8, x, y, 0x4);
  }

  lemma DecodeEncode7(i: Instr)
    requires i.Sub? || i.Shr? || i.Subn?
    ensures Decode(Encode(i)) == i
  {
    match i
    case Sub(x, y) => NibbleFields(0x8, x, y, 0x5);
    case Shr(x, y) => NibbleFields(0x8, x, y, 0x6);
    case Subn(x, y) => NibbleFields(0x8, x, y, 0x7);
  }

  lemma DecodeEncode8(i: Instr)
    requires i.Shl? || i.Drw? || i.Skp?
    ensures Decode(Encode(i)) == i
  {
    match i
    case Shl(x, y) => NibbleFields(0x8, x, y, 0xE);
    case Drw(x, y, n) => NibbleFields(0xD, x, y, n);
    case Skp(x) => ByteFields(0xE, x, 0x9E);
  }

  lemma DecodeEncode9(i: Instr)
    requires i.Sknp? || i.LdFromDelay? || i.LdKey?
    ensures Decode(Encode(i)) == i
  {
    match i
    case Sknp(x) => ByteFields(0xE, x, 0xA1);
    case LdFromDelay(x) => ByteFields(0xF, x, 0x07);
    case LdKey(x) => ByteFields(0xF, x, 0x0A);
  }

  lemma DecodeEncode10(i: Instr)
    requires i.LdDelay? || i.LdSound? || i.AddI?
    ensures Decode(Encode(i)) == i
  {
    match i
    case LdDelay(x) => ByteFields(0xF, x, 0x15);
    case LdSound(x) => ByteFields(0xF, x, 0x18);
    case AddI(x) => ByteFields(0xF, x, 0x1E);
  }

  lemma DecodeEncode11(i: Instr)
    requires i.LdFont? || i.LdBcd? || i.StoreRegs?
    ensures Decode(Encode(i)) == i
  {
    match i
    case LdFont(x) => ByteFields(0xF, x, 0x29);
    case LdBcd(x) => ByteFields(0xF, x, 0x33);
    case StoreRegs(x) => ByteFields(0xF, x, 0x55);
  }

  lemma DecodeEncode12(i: Instr)
    requires i.LoadRegs?
    ensures Decode(Encode(i)) == i
  {
    match i
    case LoadRegs(x) => ByteFields(0xF, x, 0x65);
  }

  lemma DecodeEncode(i: Instr)
    requires Decodable(i)
    ensures Decode(Encode(i)) == i
  {
    if i.Cls? || i.Ret? || i.Jp? {
      DecodeEncode1(i);
    } else if i.Call? || i.LdI? || i.JpV0? {
      DecodeEncode2(i);
    } else if i.SeByte? || i.SneByte? || i.LdByte? {
      DecodeEncode3(i);
    } else if i.AddByte? || i.Rnd? || i.SeReg? {
      DecodeEncode4(i);
    } else if i.SneReg? || i.LdReg? || i.Or? {
      DecodeEncode5(i);
    } else if i.And? || i.Xor? || i.AddReg? {
      DecodeEncode6(i);
    } else if i.Sub? || i.Shr? || i.Subn? {
      DecodeEncode7(i);
    } else if i.Shl? || i.Drw? || i.Skp? {
      DecodeEncode8(i);
    } else if i.Sknp? || i.LdFromDelay? || i.LdKey? {
      DecodeEncode9(i);
    } else if i.LdDelay? || i.LdSound? || i.AddI? {
      DecodeEncode10(i);
    } else if i.LdFont? || i.LdBcd? || i.StoreRegs? {
      DecodeEncode11(i);
    } else if i.LoadRegs? {
      DecodeEncode12(i);
    }
  }

  /** Every decoded word is decodable, and its canonical word decodes to the same
      instruction: words that differ only in ignored nibbles share one encoding. */
  lemma EncodeDecode(op: Word)
    ensures Decodable(Decode(op))
    ensures Decode(Encode(Decode(op))) == Decode(op)
  {
    DecodeEncode(Decode(op));
  }

  /** Exactly these words are unknown to the dispatcher: family 0 other than 0NN0 and
      0NNE, family 8 with a low nibble outside 0-7 and E, family E other than EX9E and
      EXA1, and family F with a low byte outside the nine it names. */
  lemma UnknownWords(op: Word)
    ensures Decode(op).Unknown? <==>
      || (Family(op) == 0x0 && N(op) != 0x0 && N(op) != 0xE)
      || (Family(op) == 0x8 && 0x7 < N(op) && N(op) != 0xE)
      || (Family(op) == 0xE && KK(op) != 0x9E && KK(op) != 0xA1)
      || (Family(op) == 0xF && KK(op) !in {0x07, 0x0A, 0x15, 0x18, 0x1E, 0x29, 0x33, 0x55, 0x65})
  {}

  /** Family 0 is told apart by its low nibble alone: every 0NN0 clears the screen and
      every 0NNE returns, whatever its middle nibbles. */
  lemma FamilyZero(op: Word)
    requires Family(op) == 0x0
    ensures Decode(op) == Cls <==> N(op) == 0x0
    ensures Decode(op) == Ret <==> N(op) == 0xE
  {}

  /** 5XYN and 9XYN decode the same for every low nibble N. */
  lemma RegisterSkipsIgnoreLowNibble(op: Word)
    requires Family(op) == 0x5 || Family(op) == 0x9
    ensures Decode(op) == Decode(op - N(op))
    ensures Decode(op) == if Family(op) == 0x5 then SeReg(X(op), Y(op)) else SneReg(X(op), Y(op))
  {
    Decompose(op);
    var low := WithNibbles(Family(op), X(op), Y(op), 0x0);
    assert op - N(op) == low;
    NibbleFields(Family(op), X(op), Y(op), 0x0);
    if Family(op) == 0x5 {
      assert Decode(low) == SeReg(X(op), Y(op));
    } else {
      assert Decode(low) == SneReg(X(op), Y(op));
    }
  }
}
