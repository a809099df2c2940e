/** The instruction set as the dispatcher of `VM::cycle` recognises it: one
    constructor per match arm, carrying the operand fields its handler reads.
    `Decode` is the dispatcher's pattern match; `Encode` is its inverse. */
module Instruction {
  import opened Results
  import opened Opcode

  datatype Instr =
    | ClearScreen                          // 00E0
    | Return                               // 00EE
    | Jump(nnn: Address)                   // 1NNN
    | Call(nnn: Address)                   // 2NNN
    | SkipIfEqual(x: Nibble, nn: Byte)     // 3XNN
    | SkipIfNotEqual(x: Nibble, nn: Byte)  // 4XNN
    | SkipIfRegsEqual(x: Nibble, y: Nibble)  // 5XY0
    | SetReg(x: Nibble, nn: Byte)          // 6XNN
    | AddConst(x: Nibble, nn: Byte)        // 7XNN
    | Assign(x: Nibble, y: Nibble)         // 8XY0
    | OrRegs(x: Nibble, y: Nibble)             // 8XY1
    | AndRegs(x: Nibble, y: Nibble)            // 8XY2
    | XorRegs(x: Nibble, y: Nibble)            // 8XY3
    | AddRegs(x: Nibble, y: Nibble)        // 8XY4
    | SubRegs(x: Nibble, y: Nibble)        // 8XY5
    | ShiftRegRight(x: Nibble, y: Nibble)     // 8XY6
    | SubFrom(x: Nibble, y: Nibble)        // 8XY7
    | ShiftRegLeft(x: Nibble, y: Nibble)      // 8XYE
    | SkipIfRegsNotEqual(x: Nibble, y: Nibble)  // 9XY0
    | SetIndex(nnn: Address)               // ANNN
    | JumpOffset(nnn: Address)             // BNNN
    | Random(x: Nibble, nn: Byte)          // CXNN
    | Draw(x: Nibble, y: Nibble, n: Nibble)  // DXYN
    | SkipIfKey(x: Nibble)                 // EX9E
    | SkipIfNotKey(x: Nibble)              // EXA1
    | ReadDelay(x: Nibble)                 // FX07
    | WaitKey(x: Nibble)                   // FX0A
    | SetDelay(x: Nibble)                  // FX15
    | SetSound(x: Nibble)                  // FX18
    | AddIndex(x: Nibble)                  // FX1E
    | GlyphAddress(x: Nibble)              // FX29
    | StoreBcd(x: Nibble)                  // FX33
    | StoreRegs(x: Nibble)                 // FX55
    | LoadRegs(x: Nibble)                  // FX65

  /** The dispatcher. A source arm on the range 0xK000..=0xKFFF is a match
      on the family nibble K; a guard `opcode & 0x0F` tests N and a guard
      `opcode & 0xFF` tests NN. `None` is the fatal default arm. */
  function Decode(op: Word): Option<Instr>
  {
    var o := OperandsOf(op);
    match Family(op)
    case 0x0 =>
      if o.NNN == 0x0E0 then Some(ClearScreen)
      else if o.NNN == 0x0EE then Some(Return)
      else None
    case 0x1 => Some(Jump(o.NNN))
    case 0x2 => Some(Call(o.NNN))
    case 0x3 => Some(SkipIfEqual(o.X, o.NN))
    case 0x4 => Some(SkipIfNotEqual(o.X, o.NN))
    case 0x5 => if o.N == 0x0 then Some(SkipIfRegsEqual(o.X, o.Y)) else None
    case 0x6 => Some(SetReg(o.X, o.NN))
    case 0x7 => Some(AddConst(o.X, o.NN))
    case 0x8 =>
      if o.N == 0x0 then Some(Assign(o.X, o.Y))
      else if o.N == 0x1 then Some(OrRegs(o.X, o.Y))
      else if o.N == 0x2 then Some(AndRegs(o.X, o.Y))
      else if o.N == 0x3 then Some(XorRegs(o.X, o.Y))
      else if o.N == 0x4 then Some(AddRegs(o.X, o.Y))
      else if o.N == 0x5 then Some(SubRegs(o.X, o.Y))
      else if o.N == 0x6 then Some(ShiftRegRight(o.X, o.Y))
      else if o.N == 0x7 then Some(SubFrom(o.X, o.Y))
      else if o.N == 0xE then Some(ShiftRegLeft(o.X, o.Y))
      else None
    case 0x9 => if o.N == 0x0 then Some(SkipIfRegsNotEqual(o.X, o.Y)) else None
    case 0xA => Some(SetIndex(o.NNN))
    case 0xB => Some(JumpOffset(o.NNN))
    case 0xC => Some(Random(o.X, o.NN))
    case 0xD => Some(Draw(o.X, o.Y, o.N))
    case 0xE =>
      if o.NN == 0x9E then Some(SkipIfKey(o.X))
      else if o.NN == 0xA1 then Some(SkipIfNotKey(o.X))
      else None
    case 0xF =>
      if o.NN == 0x07 then Some(ReadDelay(o.X))
      else if o.NN == 0x0A then Some(WaitKey(o.X))
      else if o.NN == 0x15 then Some(SetDelay(o.X))
      else if o.NN == 0x18 then Some(SetSound(o.X))
      else if o.NN == 0x1E then Some(AddIndex(o.X))
      else if o.NN == 0x29 then Some(GlyphAddress(o.X))
      else if o.NN == 0x33 then Some(StoreBcd(o.X))
      else if o.NN == 0x55 then Some(StoreRegs(o.X))
      else if o.NN == 0x65 then Some(LoadRegs(o.X))
      else None
  }

  /** The opcode that names an instruction, written out nibble by nibble. */
  function Encode(i: Instr): Word
  {
    match i
    case ClearScreen => 0x00E0
    case Return => 0x00EE
    case Jump(nnn) => 0x1000 + nnn
    case Call(nnn) => 0x2000 + nnn
    case SkipIfEqual(x, nn) => 0x3000 + x * 0x100 + nn
    case SkipIfNotEqual(x, nn) => 0x4000 + x * 0x100 + nn
    case SkipIfRegsEqual(x, y) => 0x5000 + x * 0x100 + y * 0x10
    case SetReg(x, nn) => 0x6000 + x * 0x100 + nn
    case AddConst(x, nn) => 0x7000 + x * 0x100 + nn
    case Assign(x, y) => 0x8000 + x * 0x100 + y * 0x10
    case OrRegs(x, y) => 0x8001 + x * 0x100 + y * 0x10
    case AndRegs(x, y) => 0x8002 + x * 0x100 + y * 0x10
    case XorRegs(x, y) => 0x8003 + x * 0x100 + y * 0x10
    case AddRegs(x, y) => 0x8004 + x * 0x100 + y * 0x10
    case SubRegs(x, y) => 0x8005 + x * 0x100 + y * 0x10
    case ShiftRegRight(x, y) => 0x8006 + x * 0x100 + y * 0x10
    case SubFrom(x, y) => 0x8007 + x * 0x100 + y * 0x10
    case ShiftRegLeft(x, y) => 0x800E + x * 0x100 + y * 0x10
    case SkipIfRegsNotEqual(x, y) => 0x9000 + x * 0x100 + y * 0x10
    case SetIndex(nnn) => 0xA000 + nnn
    case JumpOffset(nnn) => 0xB000 + nnn
    case Random(x, nn) => 0xC000 + x * 0x100 + nn
    case Draw(x, y, n) => 0xD000 + x * 0x100 + y * 0x10 + n
    case SkipIfKey(x) => 0xE09E + x * 0x100
    case SkipIfNotKey(x) => 0xE0A1 + x * 0x100
    case ReadDelay(x) => 0xF007 + x * 0x100
    case WaitKey(x) => 0xF00A + x * 0x100
    case SetDelay(x) => 0xF015 + x * 0x100
    case SetSound(x) => 0xF018 + x * 0x100
    case AddIndex(x) => 0xF01E + x * 0x100
    case GlyphAddress(x) => 0xF029 + x * 0x100
    case StoreBcd(x) => 0xF033 + x * 0x100
    case StoreRegs(x) => 0xF055 + x * 0x100
    case LoadRegs(x) => 0xF065 + x * 0x100
  }

  /** Every instruction is recognised from its own encoding.
      The cases are proved in groups of a few instructions each. */
  lemma DecodeEncode(i: Instr)
    ensures Decode(Encode(i)) == Some(i)
  {
    match i
    case ClearScreen | Return | Jump(_) | Call(_) => EncodeFlow(i);
    case SkipIfEqual(_, _) | SkipIfNotEqual(_, _) | SkipIfRegsEqual(_, _) | SkipIfRegsNotEqual(_, _) =>
      EncodeSkips(i);
    case SetReg(_, _) | AddConst(_, _) | SetIndex(_) | JumpOffset(_) | Random(_, _) => EncodeImmediates(i);
    case Assign(_, _) | OrRegs(_, _) | AndRegs(_, _) | XorRegs(_, _) | AddRegs(_, _) => EncodeLogic(i);
    case SubRegs(_, _) | ShiftRegRight(_, _) | SubFrom(_, _) | ShiftRegLeft(_, _) => EncodeArithmetic(i);
    case Draw(_, _, _) | SkipIfKey(_) | SkipIfNotKey(_) | ReadDelay(_) | WaitKey(_) => EncodeIo(i);
    case SetDelay(_) | SetSound(_) | AddIndex(_) | GlyphAddress(_) => EncodeTimersIndex(i);
    case StoreBcd(_) | StoreRegs(_) | LoadRegs(_) => EncodeMemory(i);
  }

  lemma EncodeFlow(i: Instr)
    requires i.ClearScreen? || i.Return? || i.Jump? || i.Call?
    ensures Decode(Encode(i)) == Some(i)
  {
    match i
    case ClearScreen => OperandsOfCompose(Encode(i), 0, 0, 0xE, 0);
    case Return => OperandsOfCompose(Encode(i), 0, 0, 0xE, 0xE);
    case Jump(nnn) => ComposeAddress(Encode(i), 1, nnn);
    case Call(nnn) => ComposeAddress(Encode(i), 2, nnn);
  }

  lemma EncodeSkips(i: Instr)
    requires i.SkipIfEqual? || i.SkipIfNotEqual? || i.SkipIfRegsEqual? || i.SkipIfRegsNotEqual?
    ensures Decode(Encode(i)) == Some(i)
  {
    match i
    case SkipIfEqual(x, nn) => ComposeByte(Encode(i), 3, x, nn);
    case SkipIfNotEqual(x, nn) => ComposeByte(Encode(i), 4, x, nn);
    case SkipIfRegsEqual(x, y) => OperandsOfCompose(Encode(i), 5, x, y, 0);
    case SkipIfRegsNotEqual(x, y) => OperandsOfCompose(Encode(i), 9, x, y, 0);
  }

  lemma EncodeImmediates(i: Instr)
    requires i.SetReg? || i.AddConst? || i.SetIndex? || i.JumpOffset? || i.Random?
    ensures Decode(Encode(i)) == Some(i)
  {
    match i
    case SetReg(x, nn) => ComposeByte(Encode(i), 6, x, nn);
    case AddConst(x, nn) => ComposeByte(Encode(i), 7, x, nn);
    case SetIndex(nnn) => ComposeAddress(Encode(i), 0xA, nnn);
    case JumpOffset(nnn) => ComposeAddress(Encode(i), 0xB, nnn);
    case Random(x, nn) => ComposeByte(Encode(i), 0xC, x, nn);
  }

  lemma EncodeLogic(i: Instr)
    requires i.Assign? || i.OrRegs? || i.AndRegs? || i.XorRegs? || i.AddRegs?
    ensures Decode(Encode(i)) == Some(i)
  {
    match i
    case Assign(x, y) => OperandsOfCompose(Encode(i), 8, x, y, 0);
    case OrRegs(x, y) => OperandsOfCompose(Encode(i), 8, x, y, 1);
    case AndRegs(x, y) => OperandsOfCompose(Encode(i), 8, x, y, 2);
    case XorRegs(x, y) => OperandsOfCompose(Encode(i), 8, x, y, 3);
    case AddRegs(x, y) => OperandsOfCompose(Encode(i), 8, x, y, 4);
  }

  lemma EncodeArithmetic(i: Instr)
    requires i.SubRegs? || i.ShiftRegRight? || i.SubFrom? || i.ShiftRegLeft?
    ensures Decode(Encode(i)) == Some(i)
  {
    match i
    case SubRegs(x, y) => OperandsOfCompose(Encode(i), 8, x, y, 5);
    case ShiftRegRight(x, y) => OperandsOfCompose(Encode(i), 8, x, y, 6);
    case SubFrom(x, y) => OperandsOfCompose(Encode(i), 8, x, y, 7);
    case ShiftRegLeft(x, y) => OperandsOfCompose(Encode(i), 8, x, y, 0xE);
  }

  lemma EncodeIo(i: Instr)
    requires i.Draw? || i.SkipIfKey? || i.SkipIfNotKey? || i.ReadDelay? || i.WaitKey?
    ensures Decode(Encode(i)) == Some(i)
  {
    match i
    case Draw(x, y, n) => OperandsOfCompose(Encode(i), 0xD, x, y, n);
    case SkipIfKey(x) => OperandsOfCompose(Encode(i), 0xE, x, 9, 0xE);
    case SkipIfNotKey(x) => OperandsOfCompose(Encode(i), 0xE, x, 0xA, 1);
    case ReadDelay(x) => OperandsOfCompose(Encode(i), 0xF, x, 0, 7);
    case WaitKey(x) => OperandsOfCompose(Encode(i), 0xF, x, 0, 0xA);
  }

  lemma EncodeTimersIndex(i: Instr)
    requires i.SetDelay? || i.SetSound? || i.AddIndex? || i.GlyphAddress?
    ensures Decode(Encode(i)) == Some(i)
  {
    match i
    case SetDelay(x) => OperandsOfCompose(Encode(i), 0xF, x, 1, 5);
    case SetSound(x) => OperandsOfCompose(Encode(i), 0xF, x, 1, 8);
    case AddIndex(x) => OperandsOfCompose(Encode(i), 0xF, x, 1, 0xE);
    case GlyphAddress(x) => OperandsOfCompose(Encode(i), 0xF, x, 2, 9);
  }

  lemma EncodeMemory(i: Instr)
    requires i.StoreBcd? || i.StoreRegs? || i.LoadRegs?
    ensures Decode(Encode(i)) == Some(i)
  {
    match i
    case StoreBcd(x) => OperandsOfCompose(Encode(i), 0xF, x, 3, 3);
    case StoreRegs(x) => OperandsOfCompose(Encode(i), 0xF, x, 5, 5);
    case LoadRegs(x) => OperandsOfCompose(Encode(i), 0xF, x, 6, 5);
  }

  /** The fields of a family nibble followed by a register and a byte. */
  lemma ComposeByte(op: Word, f: Nibble, x: Nibble, nn: Byte)
    requires op == f * 0x1000 + x * 0x100 + nn
    ensures Family(op) == f && OperandsOf(op).X == x && OperandsOf(op).NN == nn
  {
    OperandsOfCompose(op, f, x, nn / 0x10, nn % 0x10);
  }

  /** The fields of a family nibble followed by a 12-bit address. */
  lemma ComposeAddress(op: Word, f: Nibble, nnn: Address)
    requires op == f * 0x1000 + nnn
    ensures Family(op) == f && OperandsOf(op).NNN == nnn
  {
    var x := nnn / 0x100;
    var nn := nnn % 0x100;
    OperandsOfCompose(op, f, x, nn / 0x10, nn % 0x10);
  }

  /** The decoder is injective: whatever it recognises is the encoding of the
      instruction it returns. */
  lemma EncodeDecode(op: Word)
    ensures Decode(op).Some? ==> Encode(Decode(op).value) == op
  {
    var f := Family(op);
    if f == 8 {
      EncodeDecodeRegisterOps(op);
    } else if f == 0xF {
      EncodeDecodeMisc(op);
    } else if f < 8 {
      EncodeDecodeLow(op);
    } else if f < 0xC {
      EncodeDecodeHigh(op);
    } else {
      EncodeDecodeDevices(op);
    }
  }

  lemma EncodeDecodeLow(op: Word)
    requires Family(op) < 8
    ensures Decode(op).Some? ==> Encode(Decode(op).value) == op
  {
  }

  lemma EncodeDecodeRegisterOps(op: Word)
    requires Family(op) == 8
    ensures Decode(op).Some? ==> Encode(Decode(op).value) == op
  {
  }

  lemma EncodeDecodeHigh(op: Word)
    requires 8 < Family(op) < 0xC
    ensures Decode(op).Some? ==> Encode(Decode(op).value) == op
  {
  }

  lemma EncodeDecodeDevices(op: Word)
    requires 0xC <= Family(op) < 0xF
    ensures Decode(op).Some? ==> Encode(Decode(op).value) == op
  {
  }

  lemma EncodeDecodeMisc(op: Word)
    requires Family(op) == 0xF
    ensures Decode(op).Some? ==> Encode(Decode(op).value) == op
  {
  }

  /** The fatal default arm is taken exactly for the words that are the
      encoding of no instruction. */
  lemma UnknownIffNoEncoding(op: Word)
    ensures Decode(op).None? <==> forall i: Instr :: Encode(i) != op
  {
    if Decode(op).Some? {
      EncodeDecode(op);
    } else {
      forall i: Instr
        ensures Encode(i) != op
      {
        DecodeEncode(i);
      }
    }
  }

  /** Words in the gaps of the dispatcher match no arm: 0NNN other than
      00E0 and 00EE, 5XYN and 9XYN with N != 0, 8XYN with N in 8 to D or F,
      and EXNN and FXNN with NN outside the listed codes. */
  lemma GapsAreUnknown(op: Word)
    ensures Family(op) == 0x0 && op != 0x00E0 && op != 0x00EE ==> Decode(op).None?
    ensures (Family(op) == 0x5 || Family(op) == 0x9) && op % 0x10 != 0 ==> Decode(op).None?
    ensures Family(op) == 0x8 && 8 <= op % 0x10 && op % 0x10 != 0xE ==> Decode(op).None?
    ensures Family(op) == 0xE && op % 0x100 != 0x9E && op % 0x100 != 0xA1 ==> Decode(op).None?
    ensures Family(op) == 0xF && op % 0x100 !in {0x07, 0x0A, 0x15, 0x18, 0x1E, 0x29, 0x33, 0x55, 0x65}
            ==> Decode(op).None?
  {
    var o := OperandsOf(op);
    assert o.N == op % 0x10 && o.NN == op % 0x100 && o.NNN == op % 0x1000;
  }

  /** The dispatcher sends exactly the words 0xD000 to 0xDFFF to DXYN. */
  lemma DrawIffFamilyD(op: Word)
    ensures Decode(op).Some? && Decode(op).value.Draw? <==> 0xD000 <= op <= 0xDFFF
  {
  }
}
