/** One machine cycle: fetch the opcode at the program counter, dispatch it
    to its handler, and move the program counter to the address the handler
    chose. A handler sees the state after the fetch and proposes `next`, the
    address of the following instruction, which starts out as pc + 2. */
module Execute {
  import opened Results
  import opened Opcode
  import opened Bits
  import opened Machine
  import opened Instruction
  import opened Alu
  import Display

  /** The key FX0A takes: the lowest-numbered key from `k` on that is held
      down, if there is one. */
  function FirstHeld(keys: seq<bool>, k: nat): (r: Option<Nibble>)
    requires |keys| == 16 && k <= 16
    ensures r.Some? ==> k <= r.value && keys[r.value] && forall j :: k <= j < r.value ==> !keys[j]
    ensures r.None? ==> forall j :: k <= j < 16 ==> !keys[j]
    decreases 16 - k
  {
    if k == 16 then None
    else if keys[k] then Some(k)
    else FirstHeld(keys, k + 1)
  }

  /** FX33: the hundreds, tens and ones digits of `v` stored at I, I + 1
      and I + 2, the last two addresses wrapped; the ones digit is written
      first and the hundreds digit last. */
  function StoreDigits(ram: seq<Byte>, I: Address, v: Byte): (m: seq<Byte>)
    requires |ram| == MemorySize
    ensures |m| == MemorySize
    ensures m[I] < 10 && m[(I + 1) % MemorySize] < 10 && m[(I + 2) % MemorySize] < 10
    ensures 100 * m[I] as int + 10 * m[(I + 1) % MemorySize] as int + m[(I + 2) % MemorySize] == v
    ensures forall a :: 0 <= a < MemorySize && a != I && a != (I + 1) % MemorySize && a != (I + 2) % MemorySize
              ==> m[a] == ram[a]
  {
    ram[(I + 2) % MemorySize := v % 10][(I + 1) % MemorySize := (v / 10) % 10][I := (v / 100) % 10]
  }

  /** The loop of FX55 from register `i` on: V[i] is written to address
      I + i, up to and including register `x`. */
  function StoreBlock(ram: seq<Byte>, V: seq<Byte>, I: nat, x: Nibble, i: nat): (m: seq<Byte>)
    requires |ram| == MemorySize && |V| == 16 && I + x < MemorySize && i <= x + 1
    ensures |m| == MemorySize
    ensures forall a :: 0 <= a < MemorySize ==> m[a] == if I + i <= a <= I + x then V[a - I] else ram[a]
    decreases x + 1 - i
  {
    if i > x then ram
    else StoreBlock(ram[I + i := V[i]], V, I, x, i + 1)
  }

  /** The loop of FX65 from register `i` on: register i is loaded from
      address I + i, up to and including register `x`. */
  function LoadBlock(V: seq<Byte>, ram: seq<Byte>, I: nat, x: Nibble, i: nat): (W: seq<Byte>)
    requires |ram| == MemorySize && |V| == 16 && I + x < MemorySize && i <= x + 1
    ensures |W| == 16
    ensures forall r :: 0 <= r < 16 ==> W[r] == if i <= r <= x then ram[I + r] else V[r]
    decreases x + 1 - i
  {
    if i > x then V
    else LoadBlock(V[i := ram[I + i]], ram, I, x, i + 1)
  }

  /** I after FX55 or FX65: moved past the block and wrapped, unless the
      `quirky_restore` build keeps it. */
  function IndexAfter(I: nat, x: Nibble, block: IndexAfterBlock): nat
  {
    match block
    case AdvanceIndex => (I + x + 1) % MemorySize
    case KeepIndex => I
  }

  /** DXYN: the sprite starts at column V[X] mod 64 and row V[Y] mod 32 and
      is cut at the bottom edge; VF ends 1 iff the drawing erased a pixel. */
  function DrawSprite(s: State, x: Nibble, y: Nibble, n: Nibble): (t: State)
    requires Valid(s)
    ensures Valid(t)
    ensures t == s.(fb := t.fb, V := t.V)
    ensures t.V == s.V[VF := t.V[VF]] && t.V[VF] < 2
  {
    var row := SpriteRow(s, y);
    var drawn := Display.Draw(s.fb, Display.Sprite(s.ram, s.I, SpriteHeight(row, n)), SpriteColumn(s, x), row);
    s.(fb := drawn.0, V := s.V[VF := if drawn.1 then 1 else 0])
  }

  /** The leftmost column DXYN draws at: V[X] mod 64, by definition. */
  function SpriteColumn(s: State, x: Nibble): (c: nat)
    requires Valid(s)
    ensures c < Display.Width
  {
    s.V[x] % Display.Width
  }

  /** The top row DXYN draws at: V[Y] mod 32, by definition. */
  function SpriteRow(s: State, y: Nibble): (r: nat)
    requires Valid(s)
    ensures r < Display.Height
  {
    s.V[y] % Display.Height
  }

  /** How many of the N sprite rows DXYN draws: min(N, 32 - row), that is
      all of them when they fit, and otherwise those down to the bottom
      edge. */
  function SpriteHeight(row: nat, n: Nibble): (h: nat)
    requires row < Display.Height
    ensures row + h <= Display.Height
    ensures h <= n && (h < n ==> row + h == Display.Height)
  {
    if n < Display.Height - row then n else Display.Height - row
  }

  /** FX0A: with a key held, V[X] receives the lowest held key; with none,
      `next` is stepped back by two, so the cycle repeats the instruction. */
  function AwaitKey(s: State, x: Nibble): (r: (State, nat))
    requires Valid(s)
    ensures Valid(r.0)
    ensures r.0 == s.(V := r.0.V)
    ensures r.1 == s.pc <==> forall k :: 0 <= k < 16 ==> !s.keypad[k]
  {
    var next := s.pc + 2;
    match FirstHeld(s.keypad, 0)
    case Some(k) => (s.(V := s.V[x := k]), next)
    case None => (s, next - 2)
  }

  /** The fatal arm of FX55 and FX65: the block runs past the end of memory,
      where the interpreter indexes memory without wrapping. */
  predicate BlockOverruns(s: State, x: Nibble)
  {
    s.I + x >= MemorySize
  }

  /** Runs the handler of `ins` on `s`, whose pc is the address of `ins`.
      Yields the new state and `next`; `rnd` is the random byte CXNN draws
      and `cfg` the build's quirks. */
  function Execute(s: State, ins: Instr, rnd: Byte, cfg: Config): (r: Result<(State, nat), Fault>)
    requires Valid(s)
    ensures r.Ok? ==> Valid(r.value.0) && r.value.0.pc == s.pc && r.value.0.opcode == s.opcode
    ensures r.Err? <==> (ins.StoreRegs? || ins.LoadRegs?) && BlockOverruns(s, ins.x)
    ensures r.Err? ==> r.error == RamIndexOutOfRange(MemorySize)
    ensures r.Ok? && !ChoosesNext(ins) ==> r.value.1 == s.pc + 2
  {
    if ins.StoreRegs? || ins.LoadRegs? then
      if BlockOverruns(s, ins.x) then Err(RamIndexOutOfRange(MemorySize))
      else Ok((Block(s, ins, cfg.block), s.pc + 2))
    else Ok(Run(s, ins, rnd, cfg))
  }

  /** The instructions whose handler chooses `next` itself: the returns,
      jumps and calls, the conditional skips, and FX0A. Every other handler
      leaves `next` at pc + 2. */
  predicate ChoosesNext(ins: Instr)
  {
    || ins.Return? || ins.Jump? || ins.Call? || ins.JumpOffset?
    || ins.SkipIfEqual? || ins.SkipIfNotEqual? || ins.SkipIfRegsEqual? || ins.SkipIfRegsNotEqual?
    || ins.SkipIfKey? || ins.SkipIfNotKey? || ins.WaitKey?
  }

  /** The handlers that cannot fail, grouped by what they touch. */
  function Run(s: State, ins: Instr, rnd: Byte, cfg: Config): (r: (State, nat))
    requires Valid(s)
    requires !ins.StoreRegs? && !ins.LoadRegs?
    ensures Valid(r.0) && r.0.pc == s.pc && r.0.opcode == s.opcode
    ensures !ChoosesNext(ins) ==> r.1 == s.pc + 2
  {
    match ins
    case ClearScreen | Return | Jump(_) | Call(_) | JumpOffset(_) => ControlFlow(s, ins)
    case SkipIfEqual(_, _) | SkipIfNotEqual(_, _) | SkipIfRegsEqual(_, _) | SkipIfRegsNotEqual(_, _)
       | SkipIfKey(_) | SkipIfNotKey(_) => (s, Skip(s, ins))
    case SetReg(_, _) | AddConst(_, _) | Assign(_, _) | Random(_, _) | ReadDelay(_) =>
      (s.(V := Load(s, ins, rnd)), s.pc + 2)
    case OrRegs(_, _) | AndRegs(_, _) | XorRegs(_, _) | AddRegs(_, _) | SubRegs(_, _) | ShiftRegRight(_, _)
       | SubFrom(_, _) | ShiftRegLeft(_, _) => (Registers(s, ins, cfg.shift), s.pc + 2)
    case Draw(_, _, _) | WaitKey(_) | SetDelay(_) | SetSound(_) => Devices(s, ins)
    case SetIndex(_) | AddIndex(_) | GlyphAddress(_) | StoreBcd(_) => (Index(s, ins), s.pc + 2)
  }

  /** 00E0, 00EE, 1NNN, 2NNN and BNNN: the clear, and the instructions that
      choose `next` outright. 2NNN pushes pc + 2 before jumping. */
  function ControlFlow(s: State, ins: Instr): (r: (State, nat))
    requires Valid(s)
    requires ins.ClearScreen? || ins.Return? || ins.Jump? || ins.Call? || ins.JumpOffset?
    ensures Valid(r.0) && r.0.pc == s.pc && r.0.opcode == s.opcode
    ensures r.0.V == s.V && r.0.I == s.I && r.0.ram == s.ram && r.0.keypad == s.keypad
    ensures r.0.delay == s.delay && r.0.sound == s.sound
  {
    match ins
    case ClearScreen => (s.(fb := seq(Display.Height, _ => 0)), s.pc + 2)
    case Return => Pop(s)
    case Jump(nnn) => (s, nnn)
    case Call(nnn) => (Push(s, s.pc + 2), nnn)
    case JumpOffset(nnn) => (s, nnn + s.V[0])
  }

  /** The conditional skips: `next` is pc + 4 when the condition holds and
      pc + 2 otherwise. The key tests read the key V[X] mod 16. */
  function Skip(s: State, ins: Instr): (next: nat)
    requires Valid(s)
    requires ins.SkipIfEqual? || ins.SkipIfNotEqual? || ins.SkipIfRegsEqual? || ins.SkipIfRegsNotEqual?
          || ins.SkipIfKey? || ins.SkipIfNotKey?
    ensures next == s.pc + 2 || next == s.pc + 4
  {
    var next := s.pc + 2;
    match ins
    case SkipIfEqual(x, nn) => if s.V[x] == nn then next + 2 else next
    case SkipIfNotEqual(x, nn) => if s.V[x] != nn then next + 2 else next
    case SkipIfRegsEqual(x, y) => if s.V[x] == s.V[y] then next + 2 else next
    case SkipIfRegsNotEqual(x, y) => if s.V[x] != s.V[y] then next + 2 else next
    case SkipIfKey(x) => if s.keypad[s.V[x] % 16] then next + 2 else next
    case SkipIfNotKey(x) => if !s.keypad[s.V[x] % 16] then next + 2 else next
  }

  /** 6XNN, 7XNN, 8XY0, CXNN and FX07: V[X] receives a value; 7XNN adds
      without touching the flag, CXNN masks the random byte with NN. */
  function Load(s: State, ins: Instr, rnd: Byte): (V: seq<Byte>)
    requires Valid(s)
    requires ins.SetReg? || ins.AddConst? || ins.Assign? || ins.Random? || ins.ReadDelay?
    ensures |V| == 16 && V == s.V[ins.x := V[ins.x]]
  {
    match ins
    case SetReg(x, nn) => s.V[x := nn]
    case AddConst(x, nn) => s.V[x := (s.V[x] as int + nn) % 0x100]
    case Assign(x, y) => s.V[x := s.V[y]]
    case Random(x, nn) => s.V[x := ByteAnd(rnd, nn)]
    case ReadDelay(x) => s.V[x := s.delay]
  }

  /** 8XY1 to 8XYE: the register-to-register operations. */
  function Arithmetic(V: seq<Byte>, ins: Instr, shift: ShiftSource): (W: seq<Byte>)
    requires |V| == 16
    requires ins.OrRegs? || ins.AndRegs? || ins.XorRegs? || ins.AddRegs? || ins.SubRegs? || ins.ShiftRegRight?
          || ins.SubFrom? || ins.ShiftRegLeft?
    ensures |W| == 16
    ensures forall r :: 0 <= r < 16 && r != ins.x && r != VF && r != ins.y ==> W[r] == V[r]
  {
    match ins
    case OrRegs(x, y) => V[x := ByteOr(V[x], V[y])]
    case AndRegs(x, y) => V[x := ByteAnd(V[x], V[y])]
    case XorRegs(x, y) => V[x := ByteXor(V[x], V[y])]
    case AddRegs(x, y) => AddWithCarry(V, x, y)
    case SubRegs(x, y) => Subtract(V, x, V[x], V[y])
    case ShiftRegRight(x, y) => ShiftRight(V, x, y, shift)
    case SubFrom(x, y) => Subtract(V, x, V[y], V[x])
    case ShiftRegLeft(x, y) => ShiftLeft(V, x, y, shift)
  }

  /** The state after a register-to-register operation. */
  function Registers(s: State, ins: Instr, shift: ShiftSource): (t: State)
    requires Valid(s)
    requires ins.OrRegs? || ins.AndRegs? || ins.XorRegs? || ins.AddRegs? || ins.SubRegs? || ins.ShiftRegRight?
          || ins.SubFrom? || ins.ShiftRegLeft?
    ensures Valid(t) && t == s.(V := t.V)
  {
    s.(V := Arithmetic(s.V, ins, shift))
  }

  /** DXYN, FX0A, FX15 and FX18: the screen, the key pad and the timers. */
  function Devices(s: State, ins: Instr): (r: (State, nat))
    requires Valid(s)
    requires ins.Draw? || ins.WaitKey? || ins.SetDelay? || ins.SetSound?
    ensures Valid(r.0) && r.0.pc == s.pc && r.0.opcode == s.opcode
    ensures r.0.I == s.I && r.0.ram == s.ram && r.0.stack == s.stack && r.0.sp == s.sp
  {
    match ins
    case Draw(x, y, n) => (DrawSprite(s, x, y, n), s.pc + 2)
    case WaitKey(x) => AwaitKey(s, x)
    case SetDelay(x) => (s.(delay := s.V[x]), s.pc + 2)
    case SetSound(x) => (s.(sound := s.V[x]), s.pc + 2)
  }

  /** ANNN, FX1E, FX29 and FX33: I and the digits at I. FX1E wraps I to
      12 bits; FX29 sets it unwrapped, which stays below 16 * 5 * 16. */
  function Index(s: State, ins: Instr): (t: State)
    requires Valid(s)
    requires ins.SetIndex? || ins.AddIndex? || ins.GlyphAddress? || ins.StoreBcd?
    ensures Valid(t)
    ensures t == s.(I := t.I, ram := t.ram)
  {
    match ins
    case SetIndex(nnn) => s.(I := nnn)
    case AddIndex(x) => s.(I := (s.I + s.V[x]) % MemorySize)
    case GlyphAddress(x) => s.(I := s.V[x] as int * 5)
    case StoreBcd(x) => s.(ram := StoreDigits(s.ram, s.I, s.V[x]))
  }

  /** FX55 and FX65 when the block fits in memory: registers V0 to VX are
      copied to or from I, I + 1, ..., I + X, then I is updated. */
  function Block(s: State, ins: Instr, block: IndexAfterBlock): (t: State)
    requires Valid(s)
    requires ins.StoreRegs? || ins.LoadRegs?
    requires !BlockOverruns(s, ins.x)
    ensures Valid(t)
    ensures t == s.(I := t.I, ram := t.ram, V := t.V)
  {
    match ins
    case StoreRegs(x) => s.(ram := StoreBlock(s.ram, s.V, s.I, x, 0), I := IndexAfter(s.I, x, block))
    case LoadRegs(x) => s.(V := LoadBlock(s.V, s.ram, s.I, x, 0), I := IndexAfter(s.I, x, block))
  }

  /** One cycle: the opcode at pc is fetched and recorded, decoded, and run;
      pc then becomes `next` wrapped to 12 bits. An opcode no arm matches
      stops the machine. */
  function Cycle(s: State, rnd: Byte, cfg: Config): (r: Result<State, Fault>)
    requires Valid(s)
    ensures r.Ok? ==> Valid(r.value) && r.value.opcode == Fetch(s)
    ensures r == Err(UnknownOpcode(Fetch(s))) <==> Decode(Fetch(s)).None?
  {
    var op := Fetch(s);
    var t := s.(opcode := op);
    match Decode(op)
    case None => Err(UnknownOpcode(op))
    case Some(ins) =>
      var done :- Execute(t, ins, rnd, cfg);
      Ok(done.0.(pc := done.1 % MemorySize))
  }

  /** A frame of the front end as far as the machine sees it: the key pad
      is replaced, then one cycle runs. */
  function Step(s: State, keys: seq<bool>, rnd: Byte, cfg: Config): (r: Result<State, Fault>)
    requires Valid(s) && |keys| == 16
    ensures r.Ok? ==> Valid(r.value) && r.value.keypad == keys
  {
    Cycle(UpdateKeys(s, keys), rnd, cfg)
  }

  /** Whether the most recently fetched opcode was a DXYN. */
  predicate IsDrawing(s: State)
  {
    0xD000 <= s.opcode <= 0xDFFF
  }
}
