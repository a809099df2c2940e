/** What one cycle does, instruction by instruction: each lemma takes a
    valid state whose program counter points at the encoding of an
    instruction, and states the machine after the cycle in terms of the
    machine before it. */
module Properties {
  import opened Results
  import opened Opcode
  import opened Bits
  import opened Machine
  import opened Instruction
  import opened Alu
  import opened Execute
  import Display

  /** The cycle in which `s` runs `ins` records the opcode and hands the
      rest to the handler, which picks `next`; pc then becomes `next`
      masked to 12 bits. Unless the instruction chooses `next` itself,
      `next` is pc + 2. */
  lemma CycleRunsHandler(s: State, ins: Instr, rnd: Byte, cfg: Config)
    requires Valid(s) && Decode(Fetch(s)) == Some(ins)
    ensures Cycle(s, rnd, cfg).Ok? <==> Execute.Execute(s.(opcode := Fetch(s)), ins, rnd, cfg).Ok?
    ensures Cycle(s, rnd, cfg).Ok? ==>
              var d := Execute.Execute(s.(opcode := Fetch(s)), ins, rnd, cfg).value;
              Cycle(s, rnd, cfg).value == d.0.(pc := d.1 % MemorySize)
    ensures Cycle(s, rnd, cfg).Ok? && !ChoosesNext(ins) ==>
              Cycle(s, rnd, cfg).value.pc == (s.pc + 2) % MemorySize
  {
  }

  /** 3XNN, 4XNN, 5XY0, 9XY0, EX9E and EXA1 move pc on by four when their
      condition holds and by two otherwise, wrapping at the end of memory,
      and change nothing but pc and the recorded opcode. */
  lemma SkipsAdvance(s: State, ins: Instr, rnd: Byte, cfg: Config)
    requires Valid(s) && Decode(Fetch(s)) == Some(ins)
    requires ins.SkipIfEqual? || ins.SkipIfNotEqual? || ins.SkipIfRegsEqual? || ins.SkipIfRegsNotEqual?
          || ins.SkipIfKey? || ins.SkipIfNotKey?
    ensures Cycle(s, rnd, cfg).Ok?
    ensures var t := Cycle(s, rnd, cfg).value;
            && t == s.(opcode := Fetch(s), pc := t.pc)
            && t.pc == (s.pc + if SkipCondition(s, ins) then 4 else 2) % MemorySize
  {
    CycleRunsHandler(s, ins, rnd, cfg);
  }

  /** The condition each skip tests, as the instruction set defines it. */
  predicate SkipCondition(s: State, ins: Instr)
    requires Valid(s)
    requires ins.SkipIfEqual? || ins.SkipIfNotEqual? || ins.SkipIfRegsEqual? || ins.SkipIfRegsNotEqual?
          || ins.SkipIfKey? || ins.SkipIfNotKey?
  {
    match ins
    case SkipIfEqual(x, nn) => s.V[x] == nn
    case SkipIfNotEqual(x, nn) => s.V[x] != nn
    case SkipIfRegsEqual(x, y) => s.V[x] == s.V[y]
    case SkipIfRegsNotEqual(x, y) => s.V[x] != s.V[y]
    case SkipIfKey(x) => s.keypad[s.V[x] % 16]
    case SkipIfNotKey(x) => !s.keypad[s.V[x] % 16]
  }

  /** A register-to-register operation leaves everything but V, pc and the
      opcode alone and moves pc on by two. */
  lemma CycleRegisters(s: State, ins: Instr, rnd: Byte, cfg: Config)
    requires Valid(s) && Decode(Fetch(s)) == Some(ins)
    requires ins.OrRegs? || ins.AndRegs? || ins.XorRegs? || ins.AddRegs? || ins.SubRegs? || ins.ShiftRegRight?
          || ins.SubFrom? || ins.ShiftRegLeft?
    ensures Cycle(s, rnd, cfg)
            == Ok(s.(opcode := Fetch(s), pc := (s.pc + 2) % MemorySize, V := Arithmetic(s.V, ins, cfg.shift)))
  {
    CycleRunsHandler(s, ins, rnd, cfg);
    var t0 := s.(opcode := Fetch(s));
    assert Run(t0, ins, rnd, cfg) == (Registers(t0, ins, cfg.shift), s.pc + 2);
    assert Execute.Execute(t0, ins, rnd, cfg) == Ok(Run(t0, ins, rnd, cfg));
  }

  /** 8XY4: V[X] takes the low byte of the sum and VF the carry out of it;
      when X is F the carry is what remains. No other register changes. */
  lemma AddRegsCarries(s: State, x: Nibble, y: Nibble, rnd: Byte, cfg: Config)
    requires Valid(s) && Decode(Fetch(s)) == Some(AddRegs(x, y))
    ensures Cycle(s, rnd, cfg).Ok?
    ensures var t := Cycle(s, rnd, cfg).value;
            && t == s.(opcode := Fetch(s), pc := (s.pc + 2) % MemorySize, V := t.V)
            && t.V[VF] == (if s.V[x] as int + s.V[y] >= 0x100 then 1 else 0)
            && (x != VF ==> t.V[x] == (s.V[x] as int + s.V[y]) % 0x100)
            && forall r :: 0 <= r < 16 && r != x && r != VF ==> t.V[r] == s.V[r]
  {
    CycleRegisters(s, AddRegs(x, y), rnd, cfg);
    assert Arithmetic(s.V, AddRegs(x, y), cfg.shift) == AddWithCarry(s.V, x, y);
    ArithmeticWraps(s.V, x, y, 0, 0);
  }

  /** 8XY5 and 8XY7: V[X] takes the difference modulo 256 and VF is 1 iff
      no borrow occurred, that is iff the minuend is at least the
      subtrahend; when X is F the flag is what remains. */
  lemma SubtractionsBorrow(s: State, ins: Instr, rnd: Byte, cfg: Config)
    requires Valid(s) && Decode(Fetch(s)) == Some(ins)
    requires ins.SubRegs? || ins.SubFrom?
    ensures Cycle(s, rnd, cfg).Ok?
    ensures var t := Cycle(s, rnd, cfg).value;
            var a := if ins.SubRegs? then s.V[ins.x] else s.V[ins.y];
            var b := if ins.SubRegs? then s.V[ins.y] else s.V[ins.x];
            && t == s.(opcode := Fetch(s), pc := (s.pc + 2) % MemorySize, V := t.V)
            && t.V[VF] == (if a >= b then 1 else 0)
            && (ins.x != VF ==> t.V[ins.x] == (a as int - b) % 0x100)
            && forall r :: 0 <= r < 16 && r != ins.x && r != VF ==> t.V[r] == s.V[r]
  {
    CycleRegisters(s, ins, rnd, cfg);
    var a := if ins.SubRegs? then s.V[ins.x] else s.V[ins.y];
    var b := if ins.SubRegs? then s.V[ins.y] else s.V[ins.x];
    assert Arithmetic(s.V, ins, cfg.shift) == Subtract(s.V, ins.x, a, b);
    ArithmeticWraps(s.V, ins.x, ins.y, a, b);
  }

  /** The state a handler sees: the fetched opcode is recorded. */
  function Fetched(s: State): (t: State)
    requires Valid(s)
    ensures Valid(t) && t == s.(opcode := t.opcode)
  {
    s.(opcode := Fetch(s))
  }

  /** 00E0, 00EE, 1NNN, 2NNN and BNNN: pc becomes the handler's `next`,
      wrapped to 12 bits. */
  lemma CycleControl(s: State, ins: Instr, rnd: Byte, cfg: Config)
    requires Valid(s) && Decode(Fetch(s)) == Some(ins)
    requires ins.ClearScreen? || ins.Return? || ins.Jump? || ins.Call? || ins.JumpOffset?
    ensures var d := ControlFlow(Fetched(s), ins);
            Cycle(s, rnd, cfg) == Ok(d.0.(pc := d.1 % MemorySize))
  {
    CycleRunsHandler(s, ins, rnd, cfg);
    var t0 := Fetched(s);
    assert Execute.Execute(t0, ins, rnd, cfg) == Ok(Run(t0, ins, rnd, cfg));
    assert Run(t0, ins, rnd, cfg) == ControlFlow(t0, ins);
  }

  /** 6XNN, 7XNN, 8XY0, CXNN and FX07 write V[X] only. */
  lemma CycleLoad(s: State, ins: Instr, rnd: Byte, cfg: Config)
    requires Valid(s) && Decode(Fetch(s)) == Some(ins)
    requires ins.SetReg? || ins.AddConst? || ins.Assign? || ins.Random? || ins.ReadDelay?
    ensures Cycle(s, rnd, cfg)
            == Ok(s.(opcode := Fetch(s), pc := (s.pc + 2) % MemorySize, V := Load(Fetched(s), ins, rnd)))
  {
    CycleRunsHandler(s, ins, rnd, cfg);
    var t0 := Fetched(s);
    assert Execute.Execute(t0, ins, rnd, cfg) == Ok(Run(t0, ins, rnd, cfg));
    assert Run(t0, ins, rnd, cfg) == (t0.(V := Load(t0, ins, rnd)), s.pc + 2);
  }

  /** DXYN, FX0A, FX15 and FX18. */
  lemma CycleDevices(s: State, ins: Instr, rnd: Byte, cfg: Config)
    requires Valid(s) && Decode(Fetch(s)) == Some(ins)
    requires ins.Draw? || ins.WaitKey? || ins.SetDelay? || ins.SetSound?
    ensures var d := Devices(Fetched(s), ins);
            Cycle(s, rnd, cfg) == Ok(d.0.(pc := d.1 % MemorySize))
  {
    CycleRunsHandler(s, ins, rnd, cfg);
    var t0 := Fetched(s);
    assert Execute.Execute(t0, ins, rnd, cfg) == Ok(Run(t0, ins, rnd, cfg));
    assert Run(t0, ins, rnd, cfg) == Devices(t0, ins);
  }

  /** ANNN, FX1E, FX29 and FX33. */
  lemma CycleIndex(s: State, ins: Instr, rnd: Byte, cfg: Config)
    requires Valid(s) && Decode(Fetch(s)) == Some(ins)
    requires ins.SetIndex? || ins.AddIndex? || ins.GlyphAddress? || ins.StoreBcd?
    ensures Cycle(s, rnd, cfg) == Ok(Index(Fetched(s), ins).(pc := (s.pc + 2) % MemorySize))
  {
    CycleRunsHandler(s, ins, rnd, cfg);
    var t0 := Fetched(s);
    assert Execute.Execute(t0, ins, rnd, cfg) == Ok(Run(t0, ins, rnd, cfg));
    assert Run(t0, ins, rnd, cfg) == (Index(t0, ins), s.pc + 2);
  }

  /** FX55 and FX65 stop the machine when the block runs past the end of
      memory, and otherwise copy the block and move pc on by two. */
  lemma CycleBlock(s: State, ins: Instr, rnd: Byte, cfg: Config)
    requires Valid(s) && Decode(Fetch(s)) == Some(ins)
    requires ins.StoreRegs? || ins.LoadRegs?
    ensures BlockOverruns(s, ins.x) ==> Cycle(s, rnd, cfg) == Err(RamIndexOutOfRange(MemorySize))
    ensures !BlockOverruns(s, ins.x) ==>
              Cycle(s, rnd, cfg) == Ok(Block(Fetched(s), ins, cfg.block).(pc := (s.pc + 2) % MemorySize))
  {
    CycleRunsHandler(s, ins, rnd, cfg);
  }

  /** 00E0 blanks every row of the screen and touches nothing else. */
  lemma ClearScreenBlanks(s: State, rnd: Byte, cfg: Config)
    requires Valid(s) && Decode(Fetch(s)) == Some(ClearScreen)
    ensures Cycle(s, rnd, cfg).Ok?
    ensures var t := Cycle(s, rnd, cfg).value;
            && t == s.(opcode := Fetch(s), pc := (s.pc + 2) % MemorySize, fb := t.fb)
            && forall r :: 0 <= r < Display.Height ==> t.fb[r] == 0
  {
    CycleControl(s, ClearScreen, rnd, cfg);
    var blank: seq<Display.Row> := seq(Display.Height, _ => 0);
    assert ControlFlow(Fetched(s), ClearScreen) == (Fetched(s).(fb := blank), s.pc + 2);
  }

  /** 1NNN continues at NNN, BNNN at NNN + V0 wrapped to 12 bits; nothing
      else changes. */
  lemma JumpsLand(s: State, ins: Instr, rnd: Byte, cfg: Config)
    requires Valid(s) && Decode(Fetch(s)) == Some(ins)
    requires ins.Jump? || ins.JumpOffset?
    ensures Cycle(s, rnd, cfg).Ok?
    ensures var t := Cycle(s, rnd, cfg).value;
            && t == s.(opcode := Fetch(s), pc := t.pc)
            && t.pc == if ins.Jump? then ins.nnn else (ins.nnn + s.V[0]) % MemorySize
  {
    CycleControl(s, ins, rnd, cfg);
  }

  /** 2NNN saves the address after it in the slot the stack pointer names,
      advances the pointer modulo 8 and continues at NNN. */
  lemma CallPushes(s: State, nnn: Address, rnd: Byte, cfg: Config)
    requires Valid(s) && Decode(Fetch(s)) == Some(Call(nnn))
    ensures Cycle(s, rnd, cfg).Ok?
    ensures var t := Cycle(s, rnd, cfg).value;
            && t == s.(opcode := Fetch(s), pc := nnn, sp := t.sp, stack := t.stack)
            && t.stack == s.stack[s.sp := s.pc + 2]
            && t.sp == (s.sp + 1) % StackDepth
  {
    CycleControl(s, Call(nnn), rnd, cfg);
  }

  /** 00EE steps the stack pointer back modulo 8 and continues at the
      address in the slot it then names, wrapped to 12 bits. */
  lemma ReturnPops(s: State, rnd: Byte, cfg: Config)
    requires Valid(s) && Decode(Fetch(s)) == Some(Return)
    ensures Cycle(s, rnd, cfg).Ok?
    ensures var t := Cycle(s, rnd, cfg).value;
            && t == s.(opcode := Fetch(s), pc := t.pc, sp := t.sp)
            && t.sp == (s.sp + StackDepth - 1) % StackDepth
            && t.pc == s.stack[t.sp] % MemorySize
  {
    CycleControl(s, Return, rnd, cfg);
  }

  /** A 00EE executed right after a 2NNN returns to the instruction after
      the call and restores the stack pointer. */
  lemma CallThenReturn(s: State, t: State, u: State, nnn: Address, rnd: Byte, rnd': Byte, cfg: Config)
    requires Valid(s) && Decode(Fetch(s)) == Some(Call(nnn)) && Cycle(s, rnd, cfg) == Ok(t)
    requires Valid(t) && Decode(Fetch(t)) == Some(Return) && Cycle(t, rnd', cfg) == Ok(u)
    ensures u.pc == (s.pc + 2) % MemorySize && u.sp == s.sp && u.stack == s.stack[s.sp := s.pc + 2]
  {
    CallStack(s, t, nnn, rnd, cfg);
    ReturnStack(t, u, rnd', cfg);
    StackRoundTrip(s, t, u, s.pc + 2);
  }

  lemma CallStack(s: State, t: State, nnn: Address, rnd: Byte, cfg: Config)
    requires Valid(s) && Decode(Fetch(s)) == Some(Call(nnn)) && Cycle(s, rnd, cfg) == Ok(t)
    ensures t.sp == (s.sp + 1) % StackDepth && t.stack == s.stack[s.sp := s.pc + 2]
  {
    CallPushes(s, nnn, rnd, cfg);
  }

  lemma ReturnStack(t: State, u: State, rnd: Byte, cfg: Config)
    requires Valid(t) && Decode(Fetch(t)) == Some(Return) && Cycle(t, rnd, cfg) == Ok(u)
    ensures u.sp == (t.sp + StackDepth - 1) % StackDepth && u.stack == t.stack
    ensures u.pc == t.stack[u.sp] % MemorySize
  {
    ReturnPops(t, rnd, cfg);
  }

  lemma StackRoundTrip(s: State, t: State, u: State, a: nat)
    requires s.sp < StackDepth && |s.stack| == 12
    requires t.sp == (s.sp + 1) % StackDepth && t.stack == s.stack[s.sp := a]
    requires u.sp == (t.sp + StackDepth - 1) % StackDepth && u.stack == t.stack
    requires u.pc == t.stack[u.sp] % MemorySize
    ensures u.pc == a % MemorySize && u.sp == s.sp && u.stack == s.stack[s.sp := a]
  {
  }
}
