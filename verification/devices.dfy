/** What one cycle does to the screen, the key pad and the timers: DXYN,
    FX0A, FX15 and FX18. */
module DeviceEffects {
  import opened Results
  import opened Opcode
  import opened Machine
  import opened Instruction
  import opened Alu
  import opened Execute
  import opened Properties
  import opened Display

  /** Whether DXYN with these operands lights pixel `c` of screen row `r`:
      the sprite starts at column V[X] mod 64 and row V[Y] mod 32, its
      rows are read from I on with the address wrapped, it is cut at the
      bottom edge, and columns right of 63 are not drawn. */
  predicate SpriteCovers(s: State, x: Nibble, y: Nibble, n: Nibble, r: nat, c: nat)
    requires Valid(s) && c < Width
  {
    var row := SpriteRow(s, y);
    Covers(Sprite(s.ram, s.I, SpriteHeight(row, n)), SpriteColumn(s, x), row, r, c)
  }

  /** The screen and the flag DXYN leaves, as the row loop of `Display`
      computes them from the clipped sprite. */
  lemma DrawSpriteUnfolds(s: State, x: Nibble, y: Nibble, n: Nibble)
    requires Valid(s)
    ensures var row := SpriteRow(s, y);
            var drawn := Display.Draw(s.fb, Sprite(s.ram, s.I, SpriteHeight(row, n)), SpriteColumn(s, x), row);
            && DrawSprite(s, x, y, n).fb == drawn.0
            && (DrawSprite(s, x, y, n).V[VF] == 1 <==> drawn.1)
  {
  }

  /** DXYN row by row: only the rows from V[Y] mod 32 down to the bottom
      edge or N rows, whichever comes first, change, each XORed with its
      sprite byte shifted to start at column V[X] mod 64. */
  lemma DrawSpriteRows(s: State, x: Nibble, y: Nibble, n: Nibble)
    requires Valid(s)
    ensures var row, col := SpriteRow(s, y), SpriteColumn(s, x);
            var t := DrawSprite(s, x, y, n);
            forall r :: 0 <= r < Height ==>
              t.fb[r] == if row <= r < row + SpriteHeight(row, n)
                         then XorRow(s.fb[r], SpriteMask(s.ram[(s.I + (r - row)) % MemorySize], col))
                         else s.fb[r]
  {
    var row := SpriteRow(s, y);
    DrawSpriteUnfolds(s, x, y, n);
    DrawRows(s.fb, Sprite(s.ram, s.I, SpriteHeight(row, n)), SpriteColumn(s, x), row);
  }

  /** DXYN flips pixel (r, c) exactly when the sprite covers it. */
  lemma DrawSpritePixel(s: State, x: Nibble, y: Nibble, n: Nibble, r: nat, c: nat)
    requires Valid(s) && r < Height && c < Width
    ensures Pixel(DrawSprite(s, x, y, n).fb[r], c) <==> Pixel(s.fb[r], c) != SpriteCovers(s, x, y, n, r, c)
  {
    var row := SpriteRow(s, y);
    DrawSpriteUnfolds(s, x, y, n);
    Display.DrawPixel(s.fb, Sprite(s.ram, s.I, SpriteHeight(row, n)), SpriteColumn(s, x), row, r, c);
  }

  /** DXYN sets VF exactly when a lit pixel went dark. */
  lemma DrawSpriteFlag(s: State, x: Nibble, y: Nibble, n: Nibble)
    requires Valid(s)
    ensures var t := DrawSprite(s, x, y, n);
            t.V[VF] == 1 <==> exists r: nat, c: nat :: r < Height && c < Width && Pixel(s.fb[r], c) && !Pixel(t.fb[r], c)
  {
    var row := SpriteRow(s, y);
    DrawSpriteUnfolds(s, x, y, n);
    Display.DrawCollision(s.fb, Sprite(s.ram, s.I, SpriteHeight(row, n)), SpriteColumn(s, x), row);
  }

  /** DXYN on the state the handler sees: a pixel flips exactly when the
      sprite covers it, and VF is 1 exactly when a lit pixel went dark. */
  lemma DrawSpriteEffect(s: State, x: Nibble, y: Nibble, n: Nibble)
    requires Valid(s)
    ensures var t := DrawSprite(s, x, y, n);
            forall r: nat, c: nat :: r < Height && c < Width ==>
              (Pixel(t.fb[r], c) <==> Pixel(s.fb[r], c) != SpriteCovers(s, x, y, n, r, c))
    ensures var t := DrawSprite(s, x, y, n);
            t.V[VF] == 1 <==> exists r: nat, c: nat :: r < Height && c < Width && Pixel(s.fb[r], c) && !Pixel(t.fb[r], c)
  {
    forall r: nat, c: nat | r < Height && c < Width
      ensures Pixel(DrawSprite(s, x, y, n).fb[r], c) <==> Pixel(s.fb[r], c) != SpriteCovers(s, x, y, n, r, c)
    {
      DrawSpritePixel(s, x, y, n, r, c);
    }
    DrawSpriteFlag(s, x, y, n);
  }

  /** DXYN at the program counter: the screen is XORed with the sprite, VF
      reports whether a lit pixel went dark, and nothing else but pc and
      the opcode changes. */
  lemma DrawFlipsCoveredPixels(s: State, x: Nibble, y: Nibble, n: Nibble, rnd: Byte, cfg: Config)
    requires Valid(s) && Decode(Fetch(s)) == Some(Draw(x, y, n))
    ensures Cycle(s, rnd, cfg).Ok?
    ensures var t := Cycle(s, rnd, cfg).value;
            && t == s.(opcode := Fetch(s), pc := (s.pc + 2) % MemorySize, fb := t.fb, V := s.V[VF := t.V[VF]])
            && t.V[VF] < 2
            && (forall r: nat, c: nat :: r < Height && c < Width ==>
                  (Pixel(t.fb[r], c) <==> Pixel(s.fb[r], c) != SpriteCovers(s, x, y, n, r, c)))
            && (t.V[VF] == 1 <==>
                  exists r: nat, c: nat :: r < Height && c < Width && Pixel(s.fb[r], c) && !Pixel(t.fb[r], c))
  {
    CycleDevices(s, Draw(x, y, n), rnd, cfg);
    var t0 := Fetched(s);
    assert Devices(t0, Draw(x, y, n)) == (DrawSprite(t0, x, y, n), s.pc + 2);
    DrawSpriteEffect(t0, x, y, n);
  }

  /** Drawing the same sprite twice restores the screen, provided neither
      coordinate register is VF (the first drawing overwrites VF). */
  lemma DrawSpriteTwice(s: State, x: Nibble, y: Nibble, n: Nibble)
    requires Valid(s) && x != VF && y != VF
    ensures DrawSprite(DrawSprite(s, x, y, n), x, y, n).fb == s.fb
  {
    var t := DrawSprite(s, x, y, n);
    var row := SpriteRow(s, y);
    DrawSpriteUnfolds(s, x, y, n);
    DrawSpriteUnfolds(t, x, y, n);
    assert SpriteRow(t, y) == row && SpriteColumn(t, x) == SpriteColumn(s, x);
    Display.DrawTwice(s.fb, Sprite(s.ram, s.I, SpriteHeight(row, n)), SpriteColumn(s, x), row);
  }

  /** FX0A with no key held changes nothing but the recorded opcode, so the
      next cycle runs it again; with a key held, V[X] receives the lowest
      held key and pc moves on. */
  lemma WaitKeyBlocks(s: State, x: Nibble, rnd: Byte, cfg: Config)
    requires Valid(s) && Decode(Fetch(s)) == Some(WaitKey(x))
    ensures Cycle(s, rnd, cfg).Ok?
    ensures (forall k :: 0 <= k < 16 ==> !s.keypad[k]) ==> Cycle(s, rnd, cfg).value == s.(opcode := Fetch(s))
    ensures var t := Cycle(s, rnd, cfg).value;
            (exists k :: 0 <= k < 16 && s.keypad[k]) ==>
              && t == s.(opcode := Fetch(s), pc := (s.pc + 2) % MemorySize, V := s.V[x := t.V[x]])
              && t.V[x] < 16 && s.keypad[t.V[x]]
              && forall j :: 0 <= j < t.V[x] ==> !s.keypad[j]
  {
    CycleDevices(s, WaitKey(x), rnd, cfg);
    var t0 := Fetched(s);
    var r := AwaitKey(t0, x);
    assert Devices(t0, WaitKey(x)) == r;
    AwaitKeyTakesLowest(t0, x);
    WaitKeyFrame(s, x, t0, r.0, r.1, Cycle(s, rnd, cfg).value);
  }

  /** The cycle-level frame of FX0A, stated on the fields alone. */
  lemma WaitKeyFrame(s: State, x: Nibble, t0: State, h: State, next: nat, t: State)
    requires Valid(s) && Valid(h) && t0 == s.(opcode := t0.opcode) && t == h.(pc := next % MemorySize)
    requires (forall k :: 0 <= k < 16 ==> !s.keypad[k]) ==> h == t0 && next == t0.pc
    requires (exists k :: 0 <= k < 16 && s.keypad[k]) ==> next == t0.pc + 2 && h == t0.(V := t0.V[x := h.V[x]])
    ensures (forall k :: 0 <= k < 16 ==> !s.keypad[k]) ==> t == s.(opcode := t0.opcode)
    ensures (exists k :: 0 <= k < 16 && s.keypad[k]) ==>
              t == s.(opcode := t0.opcode, pc := (s.pc + 2) % MemorySize, V := s.V[x := t.V[x]])
  {
  }

  /** The handler of FX0A on its own: with no key held it proposes its own
      address as `next`, so pc stays; otherwise V[X] gets the lowest held
      key and `next` is pc + 2. */
  lemma AwaitKeyTakesLowest(s: State, x: Nibble)
    requires Valid(s)
    ensures (forall k :: 0 <= k < 16 ==> !s.keypad[k]) ==> AwaitKey(s, x) == (s, s.pc)
    ensures var r := AwaitKey(s, x);
            (exists k :: 0 <= k < 16 && s.keypad[k]) ==>
              && r.1 == s.pc + 2 && r.0 == s.(V := s.V[x := r.0.V[x]])
              && r.0.V[x] < 16 && s.keypad[r.0.V[x]]
              && forall j :: 0 <= j < r.0.V[x] ==> !s.keypad[j]
  {
  }

  /** The front end replaces the key pad before the cycle: FX0A under
      `Step` moves on exactly when one of the new keys is down. */
  lemma StepWaitsForKeys(s: State, keys: seq<bool>, x: Nibble, rnd: Byte, cfg: Config)
    requires Valid(s) && |keys| == 16 && Decode(Fetch(s)) == Some(WaitKey(x))
    ensures Step(s, keys, rnd, cfg).Ok?
    ensures Step(s, keys, rnd, cfg).value.pc == s.pc <==> forall k :: 0 <= k < 16 ==> !keys[k]
  {
    var u := UpdateKeys(s, keys);
    assert Fetch(u) == Fetch(s);
    WaitKeyBlocks(u, x, rnd, cfg);
  }

  /** FX15 and FX18 load a timer from V[X] and change nothing else. */
  lemma TimersLoad(s: State, ins: Instr, rnd: Byte, cfg: Config)
    requires Valid(s) && Decode(Fetch(s)) == Some(ins)
    requires ins.SetDelay? || ins.SetSound?
    ensures Cycle(s, rnd, cfg).Ok?
    ensures ins.SetDelay? ==>
              Cycle(s, rnd, cfg).value == s.(opcode := Fetch(s), pc := (s.pc + 2) % MemorySize, delay := s.V[ins.x])
    ensures ins.SetSound? ==>
              Cycle(s, rnd, cfg).value == s.(opcode := Fetch(s), pc := (s.pc + 2) % MemorySize, sound := s.V[ins.x])
  {
    CycleDevices(s, ins, rnd, cfg);
  }

  /** After FX15 the delay timer counts down from V[X] one step per tick
      and stops at zero, while the sound timer keeps counting from where it
      was. */
  lemma DelayCountsDown(s: State, t: State, x: Nibble, n: nat, rnd: Byte, cfg: Config)
    requires Valid(s) && Decode(Fetch(s)) == Some(SetDelay(x)) && Cycle(s, rnd, cfg) == Ok(t)
    ensures Ticks(t, n).delay == if s.V[x] >= n then s.V[x] - n else 0
    ensures Ticks(t, n).sound == if s.sound >= n then s.sound - n else 0
  {
    TimersLoad(s, SetDelay(x), rnd, cfg);
    TicksCountDown(t, n);
  }
}
