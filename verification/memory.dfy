/** What one cycle does to the index register and to memory: ANNN, FX1E,
    FX29, FX33, FX55 and FX65. As in `Properties`, each lemma starts from a
    valid state whose program counter points at an opcode the dispatcher
    recognises. */
module MemoryEffects {
  import opened Results
  import opened Opcode
  import opened Machine
  import opened Instruction
  import opened Execute
  import opened Properties
  import Display

  /** ANNN, FX1E and FX29 set I and change nothing else: to NNN, to
      I + V[X] wrapped to 12 bits, and to five times V[X], the address of
      the glyph of digit V[X]. */
  lemma IndexUpdates(s: State, ins: Instr, rnd: Byte, cfg: Config)
    requires Valid(s) && Decode(Fetch(s)) == Some(ins)
    requires ins.SetIndex? || ins.AddIndex? || ins.GlyphAddress?
    ensures Cycle(s, rnd, cfg).Ok?
    ensures var t := Cycle(s, rnd, cfg).value;
            && t == s.(opcode := Fetch(s), pc := (s.pc + 2) % MemorySize, I := t.I)
            && (ins.SetIndex? ==> t.I == ins.nnn)
            && (ins.AddIndex? ==> t.I == (s.I + s.V[ins.x]) % MemorySize)
            && (ins.GlyphAddress? ==> t.I == s.V[ins.x] as int * 5)
  {
    CycleIndex(s, ins, rnd, cfg);
  }

  /** The glyph table still holds the sixteen digits at 5 * d. */
  predicate GlyphsIntact(ram: seq<Byte>)
  {
    && |ram| == MemorySize
    && forall d: Nibble, r :: 0 <= r < 5 ==> ram[5 * d + r] == Glyphs[d][r]
  }

  /** A fresh machine holds the glyph table whatever the program image. */
  lemma NewHasGlyphs(rom: seq<Byte>)
    ensures GlyphsIntact(New(rom).ram)
  {
    var ram := New(rom).ram;
    forall d: Nibble, r | 0 <= r < 5
      ensures ram[5 * d + r] == Glyphs[d][r]
    {
      assert 5 * d + r < GlyphTableEnd < ProgramStart;
    }
  }

  /** FX29 followed by a five-row DXYN draws the digit: while the glyph
      table is intact and V[X] is a digit, the five bytes from the new I are
      its glyph. A larger V[X] is not reduced to a digit, and I then points
      past the table. */
  lemma GlyphAddressFindsGlyph(s: State, x: Nibble, rnd: Byte, cfg: Config)
    requires Valid(s) && Decode(Fetch(s)) == Some(GlyphAddress(x))
    ensures Cycle(s, rnd, cfg).Ok?
    ensures var t := Cycle(s, rnd, cfg).value;
            && (GlyphsIntact(s.ram) && s.V[x] < 16 ==> Display.Sprite(t.ram, t.I, 5) == Glyphs[s.V[x]])
            && (s.V[x] >= 16 ==> t.I >= GlyphTableEnd)
  {
    IndexUpdates(s, GlyphAddress(x), rnd, cfg);
    var t := Cycle(s, rnd, cfg).value;
    if GlyphsIntact(s.ram) && s.V[x] < 16 {
      var d: Nibble := s.V[x];
      var sprite := Display.Sprite(t.ram, t.I, 5);
      forall r | 0 <= r < 5
        ensures sprite[r] == Glyphs[d][r]
      {
        assert (t.I + r) % MemorySize == 5 * d + r;
      }
    }
  }

  /** FX33 writes the three decimal digits of V[X] to I, I + 1 and I + 2
      (the last two wrapped) and changes nothing else. */
  lemma BcdDigits(s: State, x: Nibble, rnd: Byte, cfg: Config)
    requires Valid(s) && Decode(Fetch(s)) == Some(StoreBcd(x))
    ensures Cycle(s, rnd, cfg).Ok?
    ensures var t := Cycle(s, rnd, cfg).value;
            var a1, a2 := (s.I + 1) % MemorySize, (s.I + 2) % MemorySize;
            && t == s.(opcode := Fetch(s), pc := (s.pc + 2) % MemorySize, ram := t.ram)
            && t.ram[s.I] == s.V[x] / 100
            && t.ram[a1] == (s.V[x] / 10) % 10
            && t.ram[a2] == s.V[x] % 10
            && forall a :: 0 <= a < MemorySize && a != s.I && a != a1 && a != a2 ==> t.ram[a] == s.ram[a]
  {
    CycleIndex(s, StoreBcd(x), rnd, cfg);
    var t := Cycle(s, rnd, cfg).value;
    DecimalDigits(s.V[x], t.ram[s.I], t.ram[(s.I + 1) % MemorySize], t.ram[(s.I + 2) % MemorySize]);
  }

  /** Three decimal digits spelling `v` are its hundreds, tens and ones. */
  lemma DecimalDigits(v: Byte, h: nat, t: nat, o: nat)
    requires h < 10 && t < 10 && o < 10 && 100 * h + 10 * t + o == v
    ensures h == v / 100 && t == (v / 10) % 10 && o == v % 10
  {
  }

  /** FX55 stops the machine when V0 to VX would run past the end of
      memory. Otherwise it writes V0 to VX to I, ..., I + X, leaves the rest
      of memory and the registers alone, and moves I past the block (wrapped)
      or, under `quirky_restore`, keeps it. */
  lemma StoreRegsCopies(s: State, x: Nibble, rnd: Byte, cfg: Config)
    requires Valid(s) && Decode(Fetch(s)) == Some(StoreRegs(x))
    ensures Cycle(s, rnd, cfg).Err? <==> s.I + x >= MemorySize
    ensures Cycle(s, rnd, cfg).Err? ==> Cycle(s, rnd, cfg).error == RamIndexOutOfRange(MemorySize)
    ensures var r := Cycle(s, rnd, cfg);
            r.Ok? ==>
              && r.value == s.(opcode := Fetch(s), pc := (s.pc + 2) % MemorySize, I := r.value.I, ram := r.value.ram)
              && (forall a :: 0 <= a < MemorySize ==>
                    r.value.ram[a] == if s.I <= a <= s.I + x then s.V[a - s.I] else s.ram[a])
              && r.value.I == if cfg.block == AdvanceIndex then (s.I + x + 1) % MemorySize else s.I
  {
    CycleBlock(s, StoreRegs(x), rnd, cfg);
  }

  /** FX65 stops the machine when the block would run past the end of
      memory. Otherwise it loads V0 to VX from I, ..., I + X, leaves the
      other registers and memory alone, and updates I as FX55 does. */
  lemma LoadRegsCopies(s: State, x: Nibble, rnd: Byte, cfg: Config)
    requires Valid(s) && Decode(Fetch(s)) == Some(LoadRegs(x))
    ensures Cycle(s, rnd, cfg).Err? <==> s.I + x >= MemorySize
    ensures Cycle(s, rnd, cfg).Err? ==> Cycle(s, rnd, cfg).error == RamIndexOutOfRange(MemorySize)
    ensures var r := Cycle(s, rnd, cfg);
            r.Ok? ==>
              && r.value == s.(opcode := Fetch(s), pc := (s.pc + 2) % MemorySize, I := r.value.I, V := r.value.V)
              && (forall k :: 0 <= k < 16 ==> r.value.V[k] == if k <= x then s.ram[s.I + k] else s.V[k])
              && r.value.I == if cfg.block == AdvanceIndex then (s.I + x + 1) % MemorySize else s.I
  {
    CycleBlock(s, LoadRegs(x), rnd, cfg);
  }

  /** Loading a block back from where it was stored gives the registers
      that were stored. */
  lemma StoreThenLoad(s: State, x: Nibble, block: IndexAfterBlock)
    requires Valid(s) && !BlockOverruns(s, x)
    ensures var t := Block(s, StoreRegs(x), block);
            Block(t.(I := s.I), LoadRegs(x), block).V == s.V
  {
    var t := Block(s, StoreRegs(x), block);
    var u := Block(t.(I := s.I), LoadRegs(x), block);
    assert u.V == LoadBlock(s.V, t.ram, s.I, x, 0);
    assert t.ram == StoreBlock(s.ram, s.V, s.I, x, 0);
  }

  /** Under `quirky_restore` an FX55 followed by an FX65 of the same
      registers, both at the program counter, leaves V0 to VF as they were;
      I is kept by both, so the load reads the block just stored. */
  lemma StoreLoadRoundTrip(s: State, t: State, u: State, x: Nibble, rnd: Byte, rnd': Byte, cfg: Config)
    requires cfg.block == KeepIndex
    requires Valid(s) && Decode(Fetch(s)) == Some(StoreRegs(x)) && Cycle(s, rnd, cfg) == Ok(t)
    requires Valid(t) && Decode(Fetch(t)) == Some(LoadRegs(x)) && Cycle(t, rnd', cfg) == Ok(u)
    ensures u.V == s.V && u.I == s.I
  {
    StoreRegsCopies(s, x, rnd, cfg);
    LoadRegsCopies(t, x, rnd', cfg);
    forall k | 0 <= k < 16
      ensures u.V[k] == s.V[k]
    {
      if k <= x {
        assert u.V[k] == t.ram[s.I + k];
      }
    }
  }
}
