/** The machine state of the interpreter and the operations on it that do not
    depend on the instruction being executed: construction with the glyph
    table and a program image, the key pad update, the timer tick, fetching
    the opcode at the program counter and the call stack. */
module Machine {
  import opened Results
  import opened Opcode
  import Display

  /** Size of the address space; addresses wrap modulo this. */
  const MemorySize: nat := 0x1000
  /** Where the program image is loaded and execution starts. */
  const ProgramStart: nat := 0x200
  /** The stack pointer wraps modulo this, although the stack has 12 slots. */
  const StackDepth: nat := 8

  /** Which register 8XY6 and 8XYE shift. `ShiftVy` (the default build)
      shifts V[Y] and copies the result into V[X]; `ShiftVx` (the
      `quirky_shift` build) shifts V[X] in place. */
  datatype ShiftSource = ShiftVy | ShiftVx

  /** What FX55 and FX65 do with I. `AdvanceIndex` (the default build) moves
      I past the copied block; `KeepIndex` (the `quirky_restore` build) leaves
      it alone. */
  datatype IndexAfterBlock = AdvanceIndex | KeepIndex

  /** The two compile-time switches of the source, made one run-time value. */
  datatype Config = Config(shift: ShiftSource, block: IndexAfterBlock)

  /** Why the machine stopped: the dispatcher's fatal default arm, or an
      unmasked memory access of FX55/FX65 past the end of memory. */
  datatype Fault = UnknownOpcode(opcode: Word) | RamIndexOutOfRange(index: nat)

  /** The interpreter state. `opcode` is the most recently fetched word; it
      answers whether the last cycle drew. */
  datatype State = State(
    I: nat,
    V: seq<Byte>,
    fb: seq<Display.Row>,
    pc: nat,
    sp: nat,
    ram: seq<Byte>,
    delay: Byte,
    sound: Byte,
    stack: seq<nat>,
    keypad: seq<bool>,
    opcode: Word)

  /** The shape every reachable state has: fixed array lengths, the program
      counter and I inside memory, the stack pointer below 8. */
  predicate Valid(s: State)
  {
    && |s.V| == 16
    && |s.fb| == 32
    && |s.ram| == MemorySize
    && |s.stack| == 12
    && |s.keypad| == 16
    && s.pc < MemorySize
    && s.I < MemorySize
    && s.sp < StackDepth
  }

  /** Five rows of a glyph, four pixels each in the high nibble of a byte. */
  type GlyphRows = g: seq<Byte> | |g| == 5 witness [0, 0, 0, 0, 0]

  /** The sixteen built-in hexadecimal glyphs, glyph d for digit d. */
  const Glyphs: seq<GlyphRows> := [
    [0xF0, 0x90, 0x90, 0x90, 0xF0],  // 0
    [0x20, 0x60, 0x20, 0x20, 0x70],  // 1
    [0xF0, 0x10, 0xF0, 0x80, 0xF0],  // 2
    [0xF0, 0x10, 0xF0, 0x10, 0xF0],  // 3
    [0x90, 0x90, 0xF0, 0x10, 0x10],  // 4
    [0xF0, 0x80, 0xF0, 0x10, 0xF0],  // 5
    [0xF0, 0x80, 0xF0, 0x90, 0xF0],  // 6
    [0xF0, 0x10, 0x20, 0x40, 0x40],  // 7
    [0xF0, 0x90, 0xF0, 0x90, 0xF0],  // 8
    [0xF0, 0x90, 0xF0, 0x10, 0xF0],  // 9
    [0xF0, 0x90, 0xF0, 0x90, 0x90],  // A
    [0xE0, 0x90, 0xE0, 0x90, 0xE0],  // B
    [0xF0, 0x80, 0x80, 0x80, 0xF0],  // C
    [0xE0, 0x90, 0x90, 0x90, 0xE0],  // D
    [0xF0, 0x80, 0xF0, 0x80, 0xF0],  // E
    [0xF0, 0x80, 0xF0, 0x80, 0x80]   // F
  ]

  /** Bytes past the glyph table. */
  const GlyphTableEnd: nat := 80

  /** Zero-filled memory with glyph d at addresses 5d to 5d + 4. */
  function InitRam(): (ram: seq<Byte>)
    ensures |ram| == MemorySize
    ensures forall d: Nibble, r :: 0 <= r < 5 ==> ram[5 * d + r] == Glyphs[d][r]
    ensures forall a :: GlyphTableEnd <= a < MemorySize ==> ram[a] == 0
  {
    assert |Glyphs| == 16;
    seq(MemorySize, a => if 0 <= a < GlyphTableEnd then Glyphs[a / 5][a % 5] else 0)
  }

  /** Every glyph is four pixels wide: the low nibble of each row is blank;
      and the glyph for 0 is the closed box F0 90 90 90 F0. */
  lemma GlyphShapes()
    ensures forall d: Nibble, r :: 0 <= r < 5 ==> Glyphs[d][r] % 0x10 == 0
    ensures Glyphs[0] == [0xF0, 0x90, 0x90, 0x90, 0xF0]
  {
  }

  /** A fresh machine running `rom`: the image is copied to 0x200 and cut
      off at the end of memory; everything else is zero apart from the
      glyph table, and execution starts at 0x200. */
  function New(rom: seq<Byte>): (s: State)
    ensures Valid(s)
    ensures s.pc == ProgramStart && s.I == 0 && s.sp == 0
    ensures s.delay == 0 && s.sound == 0
    ensures forall r :: 0 <= r < 16 ==> s.V[r] == 0 && !s.keypad[r]
    ensures forall r :: 0 <= r < 32 ==> s.fb[r] == 0
    ensures forall k :: 0 <= k < 12 ==> s.stack[k] == 0
    ensures forall a :: 0 <= a < MemorySize ==>
              s.ram[a] == if ProgramStart <= a < ProgramStart + |rom| then rom[a - ProgramStart]
                          else if a < GlyphTableEnd then Glyphs[a / 5][a % 5]
                          else 0
  {
    var n := if |rom| < MemorySize - ProgramStart then |rom| else MemorySize - ProgramStart;
    var blank := InitRam();
    var ram := blank[..ProgramStart] + rom[..n] + blank[ProgramStart + n..];
    State(0, seq(16, _ => 0), seq(32, _ => 0), ProgramStart, 0, ram, 0, 0,
          seq(12, _ => 0), seq(16, _ => false), 0)
  }

  /** The key pad is overwritten wholesale before a cycle. */
  function UpdateKeys(s: State, keys: seq<bool>): (t: State)
    requires Valid(s) && |keys| == 16
    ensures Valid(t)
  {
    s.(keypad := keys)
  }

  /** One timer tick: each timer that is still running counts down by one;
      a timer at zero stays there. Nothing else changes. */
  function Tick(s: State): (t: State)
    ensures t == s.(delay := t.delay, sound := t.sound)
    ensures t.delay <= s.delay && t.sound <= s.sound
    ensures t.delay as int == if s.delay == 0 then 0 else s.delay - 1
    ensures t.sound as int == if s.sound == 0 then 0 else s.sound - 1
  {
    var delay := if s.delay > 0 then s.delay - 1 else s.delay;
    var sound := if s.sound > 0 then s.sound - 1 else s.sound;
    s.(delay := delay, sound := sound)
  }

  /** `n` ticks in a row. */
  function Ticks(s: State, n: nat): State
  {
    if n == 0 then s else Tick(Ticks(s, n - 1))
  }

  /** After `n` ticks each timer reads its old value minus `n`, floored at
      zero: the timers never wrap around. */
  lemma {:induction false} TicksCountDown(s: State, n: nat)
    ensures Ticks(s, n) == s.(delay := Ticks(s, n).delay, sound := Ticks(s, n).sound)
    ensures Ticks(s, n).delay == if s.delay >= n then s.delay - n else 0
    ensures Ticks(s, n).sound == if s.sound >= n then s.sound - n else 0
  {
    if n > 0 {
      TicksCountDown(s, n - 1);
    }
  }

  /** The big-endian word at the program counter; the second byte's address
      wraps within memory. */
  function Fetch(s: State): (op: Word)
    requires Valid(s)
    ensures op / 0x100 == s.ram[s.pc]
    ensures op % 0x100 == s.ram[(s.pc + 1) % MemorySize]
  {
    FromBytes(s.ram[s.pc], s.ram[(s.pc + 1) % MemorySize])
  }

  /** Stores `a` in the slot the stack pointer names and advances the
      pointer modulo 8. */
  function Push(s: State, a: nat): (t: State)
    requires |s.stack| == 12 && s.sp < StackDepth
    ensures |t.stack| == 12 && t.sp < StackDepth
  {
    s.(stack := s.stack[s.sp := a], sp := (s.sp + 1) % StackDepth)
  }

  /** Steps the stack pointer back modulo 8 and reads the slot it names. */
  function Pop(s: State): (r: (State, nat))
    requires |s.stack| == 12 && s.sp < StackDepth
    ensures r.0.stack == s.stack && r.0.sp < StackDepth
  {
    var sp := (s.sp + StackDepth - 1) % StackDepth;
    (s.(sp := sp), s.stack[sp])
  }

  /** A pop right after a push returns the pushed address and restores the
      stack pointer. */
  lemma PopAfterPush(s: State, a: nat)
    requires |s.stack| == 12 && s.sp < StackDepth
    ensures Pop(Push(s, a)).1 == a
    ensures Pop(Push(s, a)).0 == s.(stack := s.stack[s.sp := a])
  {
  }

  /** The addresses of `addrs` pushed in order. */
  function Pushes(s: State, addrs: seq<nat>): (t: State)
    requires |s.stack| == 12 && s.sp < StackDepth
    ensures |t.stack| == 12 && t.sp < StackDepth
  {
    if |addrs| == 0 then s else Push(Pushes(s, addrs[..|addrs| - 1]), addrs[|addrs| - 1])
  }

  /** The stack pointer counts pushes modulo 8, and the last four of the
      twelve slots are never written. */
  lemma {:induction false} PushesWrap(s: State, addrs: seq<nat>)
    requires |s.stack| == 12 && s.sp < StackDepth
    ensures Pushes(s, addrs).sp == (s.sp + |addrs|) % StackDepth
    ensures Pushes(s, addrs).stack[StackDepth..] == s.stack[StackDepth..]
  {
    if |addrs| > 0 {
      PushesWrap(s, addrs[..|addrs| - 1]);
    }
  }

  /** Nine nested pushes overwrite the first: the slot that received the
      first address holds the ninth, and no error is raised. */
  lemma NinthPushOverwritesFirst(s: State, addrs: seq<nat>)
    requires |s.stack| == 12 && s.sp < StackDepth
    requires |addrs| == 9
    ensures Pushes(s, addrs).stack[s.sp] == addrs[8]
    ensures Pushes(s, addrs).sp == (s.sp + 1) % StackDepth
  {
    PushesWrap(s, addrs[..8]);
    PushesWrap(s, addrs);
  }
}
