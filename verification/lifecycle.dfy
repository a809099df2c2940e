/** The machine as the front end drives it: construction, when a cycle
    stops the machine, and the drawing flag the front end polls after each
    cycle. */
module Lifecycle {
  import opened Results
  import opened Opcode
  import opened Machine
  import opened Instruction
  import opened Execute

  /** A cycle stops the machine exactly when the opcode at pc matches no
      arm of the dispatcher, or it is an FX55 or FX65 whose block runs past
      the end of memory; the fault names the opcode, respectively the first
      address out of range. */
  lemma CycleFaults(s: State, rnd: Byte, cfg: Config)
    requires Valid(s)
    ensures var d := Decode(Fetch(s));
            Cycle(s, rnd, cfg).Err? <==>
              d.None? || ((d.value.StoreRegs? || d.value.LoadRegs?) && s.I + d.value.x >= MemorySize)
    ensures Decode(Fetch(s)).None? ==> Cycle(s, rnd, cfg) == Err(UnknownOpcode(Fetch(s)))
    ensures Cycle(s, rnd, cfg).Err? && Decode(Fetch(s)).Some? ==>
              Cycle(s, rnd, cfg) == Err(RamIndexOutOfRange(MemorySize))
  {
    match Decode(Fetch(s))
    case None =>
    case Some(ins) =>
      var t := s.(opcode := Fetch(s));
      assert Cycle(s, rnd, cfg).Err? <==> Execute.Execute(t, ins, rnd, cfg).Err?;
  }

  /** The machine stops on an unknown opcode exactly when the word at pc is
      the encoding of no instruction. */
  lemma UnknownOpcodeHalts(s: State, rnd: Byte, cfg: Config)
    requires Valid(s)
    ensures Cycle(s, rnd, cfg) == Err(UnknownOpcode(Fetch(s))) <==> forall i: Instr :: Encode(i) != Fetch(s)
  {
    UnknownIffNoEncoding(Fetch(s));
  }

  /** After a cycle the front end redraws exactly when that cycle ran a
      DXYN. */
  lemma IsDrawingIffDraw(s: State, rnd: Byte, cfg: Config)
    requires Valid(s) && Cycle(s, rnd, cfg).Ok?
    ensures IsDrawing(Cycle(s, rnd, cfg).value) <==> Decode(Fetch(s)).Some? && Decode(Fetch(s)).value.Draw?
  {
    DrawIffFamilyD(Fetch(s));
  }

  /** The first cycle of a fresh machine runs the first two bytes of the
      program image. */
  lemma NewStartsAtRom(rom: seq<Byte>)
    requires |rom| >= 2
    ensures Fetch(New(rom)) == rom[0] as int * 0x100 + rom[1]
  {
    var s := New(rom);
    assert s.ram[ProgramStart] == rom[0] && s.ram[ProgramStart + 1] == rom[1];
    WordOfBytes(Fetch(s));
  }

  /** An empty program image leaves 0x0000 at 0x200, which stops the
      machine on its first cycle. */
  lemma EmptyRomHalts(rom: seq<Byte>, rnd: Byte, cfg: Config)
    requires |rom| == 0
    ensures Cycle(New(rom), rnd, cfg) == Err(UnknownOpcode(0))
  {
    var s := New(rom);
    NewBlankAtStart(rom);
    ZeroWordAtPc(s);
    UnknownZero();
    CycleFaults(s, rnd, cfg);
  }

  /** Without a program image the two bytes at 0x200 are zero. */
  lemma NewBlankAtStart(rom: seq<Byte>)
    requires |rom| == 0
    ensures New(rom).ram[ProgramStart] == 0 && New(rom).ram[ProgramStart + 1] == 0
  {
  }

  /** 0x0000 matches no arm of the dispatcher. */
  lemma UnknownZero()
    ensures Decode(0) == None
  {
  }

  /** Two zero bytes at pc make the zero opcode. */
  lemma ZeroWordAtPc(s: State)
    requires Valid(s) && s.ram[s.pc] == 0 && s.ram[(s.pc + 1) % MemorySize] == 0
    ensures Fetch(s) == 0
  {
    WordOfBytes(Fetch(s));
  }

  /** A word is its high byte times 0x100 plus its low byte. */
  lemma WordOfBytes(op: Word)
    ensures op == op / 0x100 * 0x100 + op % 0x100
  {
  }
}
