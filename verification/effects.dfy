/** What one cycle does to registers, memory, the screen, the key pad and
    the timers, for the handlers that do more than move the program counter.
    As in `Properties`, each lemma starts from a valid state whose program
    counter points at an opcode the dispatcher recognises. */
module Effects {
  import opened Results
  import opened Opcode
  import opened Bits
  import opened Machine
  import opened Instruction
  import opened Alu
  import opened Execute
  import opened Properties
  import Display

  /** 6XNN, 7XNN, 8XY0, CXNN and FX07 write V[X] and nothing else: the
      constant, the constant added modulo 256 without touching VF, V[Y], the
      random byte with the digits of NN cleared that are clear in NN, and the
      delay timer. */
  lemma LoadsWriteOneRegister(s: State, ins: Instr, rnd: Byte, cfg: Config)
    requires Valid(s) && Decode(Fetch(s)) == Some(ins)
    requires ins.SetReg? || ins.AddConst? || ins.Assign? || ins.Random? || ins.ReadDelay?
    ensures Cycle(s, rnd, cfg).Ok?
    ensures var t := Cycle(s, rnd, cfg).value;
            && t == s.(opcode := Fetch(s), pc := (s.pc + 2) % MemorySize, V := s.V[ins.x := t.V[ins.x]])
            && (ins.SetReg? ==> t.V[ins.x] == ins.nn)
            && (ins.AddConst? ==> t.V[ins.x] == (s.V[ins.x] as int + ins.nn) % 0x100)
            && (ins.Assign? ==> t.V[ins.x] == s.V[ins.y])
            && (ins.Random? ==> forall k :: 0 <= k < 8 ==>
                                  Bit(t.V[ins.x], k) == Bit(rnd, k) * Bit(ins.nn, k))
            && (ins.ReadDelay? ==> t.V[ins.x] == s.delay)
  {
    CycleLoad(s, ins, rnd, cfg);
    if ins.Random? {
      forall k | 0 <= k < 8
        ensures Bit(ByteAnd(rnd, ins.nn), k) == Bit(rnd, k) * Bit(ins.nn, k)
      {
        BitwiseDigits(rnd, ins.nn, k);
      }
    }
  }

  /** The digit-wise reading of 8XY1, 8XY2 and 8XY3 on registers. */
  predicate BitwiseResult(ins: Instr, a: Byte, b: Byte, r: Byte)
    requires ins.OrRegs? || ins.AndRegs? || ins.XorRegs?
  {
    forall k :: 0 <= k < 8 ==>
      Bit(r, k) == match ins
                   case OrRegs(_, _) => if Bit(a, k) == 1 || Bit(b, k) == 1 then 1 else 0
                   case AndRegs(_, _) => Bit(a, k) * Bit(b, k)
                   case XorRegs(_, _) => (Bit(a, k) + Bit(b, k)) % 2
  }

  /** 8XY1, 8XY2 and 8XY3 combine V[X] and V[Y] digit by digit into V[X]
      and leave every other register, VF included, alone. */
  lemma BitwiseOps(s: State, ins: Instr, rnd: Byte, cfg: Config)
    requires Valid(s) && Decode(Fetch(s)) == Some(ins)
    requires ins.OrRegs? || ins.AndRegs? || ins.XorRegs?
    ensures Cycle(s, rnd, cfg).Ok?
    ensures var t := Cycle(s, rnd, cfg).value;
            && t == s.(opcode := Fetch(s), pc := (s.pc + 2) % MemorySize, V := s.V[ins.x := t.V[ins.x]])
            && BitwiseResult(ins, s.V[ins.x], s.V[ins.y], t.V[ins.x])
  {
    CycleRegisters(s, ins, rnd, cfg);
    var a, b := s.V[ins.x], s.V[ins.y];
    var W := Arithmetic(s.V, ins, cfg.shift);
    assert W == s.V[ins.x := W[ins.x]];
    forall k | 0 <= k < 8
      ensures Bit(W[ins.x], k) == match ins
                                  case OrRegs(_, _) => if Bit(a, k) == 1 || Bit(b, k) == 1 then 1 else 0
                                  case AndRegs(_, _) => Bit(a, k) * Bit(b, k)
                                  case XorRegs(_, _) => (Bit(a, k) + Bit(b, k)) % 2
    {
      BitwiseDigits(a, b, k);
    }
  }

  /** 8XY3 run twice with X != Y gives back the registers it started from. */
  lemma XorUndoes(V: seq<Byte>, x: Nibble, y: Nibble, shift: ShiftSource)
    requires |V| == 16 && x != y
    ensures Arithmetic(Arithmetic(V, XorRegs(x, y), shift), XorRegs(x, y), shift) == V
  {
    XorSelfInverse(V[x], V[y]);
    var W := Arithmetic(V, XorRegs(x, y), shift);
    assert W == V[x := Xor(V[x], V[y])];
  }

  /** 8XY6 and 8XYE under either build: the shifted register is V[Y] by
      default and V[X] under `quirky_shift`; V[X] receives it halved, or
      doubled modulo 256, VF the digit shifted out, and by default V[Y] the
      result as well. The flag is written first, so with X = F the shifted
      value is what VF keeps, and when the shifted register is VF itself it
      is shifted after receiving its own digit: V[X] and VF then end at 0
      (8XY6), or at twice its old top digit (8XYE). */
  lemma ShiftsMoveOneDigit(s: State, ins: Instr, rnd: Byte, cfg: Config)
    requires Valid(s) && Decode(Fetch(s)) == Some(ins)
    requires ins.ShiftRegRight? || ins.ShiftRegLeft?
    ensures Cycle(s, rnd, cfg).Ok?
    ensures var t := Cycle(s, rnd, cfg).value;
            var src := Shifted(ins.x, ins.y, cfg.shift);
            && t == s.(opcode := Fetch(s), pc := (s.pc + 2) % MemorySize, V := t.V)
            && (ins.x != VF && src != VF && ins.ShiftRegRight? ==>
                  t.V[ins.x] == s.V[src] / 2 && t.V[VF] == Bit(s.V[src], 0))
            && (ins.x != VF && src != VF && ins.ShiftRegLeft? ==>
                  t.V[ins.x] == (2 * s.V[src] as int) % 0x100 && t.V[VF] == Bit(s.V[src], 7))
            && (ins.x == VF && src != VF ==>
                  t.V[VF] == if ins.ShiftRegRight? then s.V[src] / 2 else (2 * s.V[src] as int) % 0x100)
            && (src == VF && ins.ShiftRegRight? ==> t.V[ins.x] == 0 && t.V[VF] == 0)
            && (src == VF && ins.ShiftRegLeft? ==>
                  t.V[ins.x] == 2 * Bit(s.V[VF], 7) && t.V[VF] == 2 * Bit(s.V[VF], 7))
            && (cfg.shift == ShiftVy ==> t.V[ins.y] == t.V[ins.x])
            && forall r :: 0 <= r < 16 && r != ins.x && r != VF && r != src ==> t.V[r] == s.V[r]
  {
    CycleRegisters(s, ins, rnd, cfg);
    var v := s.V[Shifted(ins.x, ins.y, cfg.shift)];
    HighDigit(v);
  }

  /** Digit 7 of a byte is its quotient by 0x80. */
  lemma HighDigit(v: Byte)
    ensures Bit(v, 7) == v / 0x80
  {
    var h := v / 2 / 2 / 2 / 2 / 2 / 2 / 2;
    assert Bit(v, 7) == Bit(v / 2, 6) == Bit(v / 2 / 2, 5) == Bit(v / 2 / 2 / 2, 4);
    assert Bit(v / 2 / 2 / 2, 4) == Bit(v / 2 / 2 / 2 / 2, 3) == Bit(v / 2 / 2 / 2 / 2 / 2, 2);
    assert Bit(v / 2 / 2 / 2 / 2 / 2, 2) == Bit(v / 2 / 2 / 2 / 2 / 2 / 2, 1) == Bit(h, 0);
    assert v / 2 / 2 == v / 4;
    assert v / 4 / 2 / 2 == v / 16;
    assert v / 16 / 2 / 2 == v / 64;
    assert h == v / 0x80;
  }
}
