# CHIP-8 virtual machine, modelled in Dafny

This project models the machine core of a CHIP-8 interpreter written in Rust (`src/vm.rs`): the `VM` state, the fetch of a big-endian opcode at the program counter, the operand fields cut out of it, the dispatcher of `cycle` with its fatal default arm, the 34 instruction handlers, the eight-deep wrapping call stack, the timer tick, the key pad update, the drawing hint and the built-in glyph table.

The model is functional. `Machine.State` is an immutable record:

- `I`, `V[0..16]`, `fb[0..32]`, `pc`, `sp`, `ram[0..4096]`, `delay`, `sound`, `stack[0..12]`, `keypad[0..16]`;
- `opcode`, the most recently fetched word.

`Execute.Cycle` maps a state, the random byte of CXNN and a build configuration to `Ok(next state)` or `Err(fault)`. `Execute.Step` first replaces the key pad, as the front end does. `Machine.Tick` counts the timers down.

The two cargo features become one value, `Machine.Config`:

- `quirky_shift` selects `ShiftVx`; the default build is `ShiftVy`.
- `quirky_restore` selects `KeepIndex`; the default build is `AdvanceIndex`.

Registers, memory cells and timers are naturals below 256. Addresses are naturals below 4096. A screen row is the value of its 64-bit word as a natural below 2^64, with the leftmost pixel in the most significant digit. The bitwise operations `&`, `|` and `^` are defined digit by digit on naturals (module `Bits`). Each source width is written out: byte arithmetic wraps modulo 256, `pc` and `I` are masked to 12 bits, and the stack pointer wraps modulo 8.

Modules, following the source:

- `Opcode`: words and operand fields (`get_opcode`, `Operands::from`).
- `Instruction`: the dispatcher as `Decode` into an `Instr` datatype (one constructor per match arm), and its inverse `Encode`.
- `Machine`: state, construction, glyph table, tick, fetch, push and pop.
- `Bits`: digit-wise `And`/`Or`/`Xor` on naturals.
- `Alu`: the flag-writing register operations 8XY4 to 8XYE.
- `Display`: the rows, the sprite mask, the XOR drawing and the collision test of DXYN.
- `Execute`: the handlers, `Cycle`, `Step` and `IsDrawing`.
- `Properties`, `Effects`, `DeviceEffects`, `MemoryEffects`, `Lifecycle`: what one cycle does, instruction by instruction, and the properties relating several operations.

Two orderings in the code decide what a program sees:

- The shifts 8XY6 and 8XYE (both builds, `src/vm.rs:259-311`) write VF before their result, unlike 8XY4, 8XY5 and 8XY7 (`src/vm.rs:231-257`, `279-291`), which write it last. So with X = F the shifted value, not the flag, is what stays (`Alu.ResultWinsShift`), while the arithmetic leaves the flag (`Alu.FlagWinsArithmetic`). In the default build with Y = F, VF is shifted after receiving its own digit, so 8XF6 leaves V[X] = VF = 0 (`Alu.FlagShiftedByDefault`).
- FX29 (`src/vm.rs:416-420`) sets I to `V[X] * 5` without reducing V[X] to a digit. For V[X] >= 16, I points past the glyph table (`MemoryEffects.GlyphAddressFindsGlyph`).

## Model

| member | source | states |
|---|---|---|
| Opcode.FromBytes | src/vm.rs:115-121 | the opcode is big-endian: its high byte is the first byte, its low byte the second |
| Opcode.OperandsOf | src/vm.rs:483-491 | the word is family * 0x1000 + X * 0x100 + Y * 0x10 + N, NN is Y and N joined, NNN is X and NN joined |
| Opcode.OperandsOfBytes | src/vm.rs:483-491 | from the two fetched bytes: X is the low nibble of the first, Y and N the nibbles of the second, NN the whole second byte, NNN the low twelve bits |
| Opcode.OperandsOfCompose | src/vm.rs:483-491 | conversely, a word assembled from four nibbles yields exactly those nibbles as family and fields |
| Machine.Fetch | src/vm.rs:115-121 | the fetched word's high byte is ram[pc] and its low byte ram[(pc + 1) mod 4096], so pc = 0xFFF wraps to address 0 |
| Instruction.DecodeEncode | src/vm.rs:60-94 | every instruction's encoding is dispatched back to that instruction |
| Instruction.EncodeDecode | src/vm.rs:60-94 | every word the dispatcher recognises is the encoding of the instruction it runs, so the arms do not overlap and lose no operand |
| Instruction.UnknownIffNoEncoding | src/vm.rs:60-95 | the fatal arm is reached exactly for the words that encode no instruction |
| Instruction.GapsAreUnknown | src/vm.rs:60-95 | 0NNN other than 00E0/00EE, 5XYN and 9XYN with N != 0, 8XYN with N in 8..D or F, and unlisted EXNN/FXNN reach the fatal arm |
| Instruction.DrawIffFamilyD | src/vm.rs:83 | exactly the words 0xD000..0xDFFF are dispatched to DXYN |
| Machine.InitRam | src/vm.rs:500-614 | glyph d occupies addresses 5d..5d+4 and every byte from 80 on is zero |
| Machine.GlyphShapes | src/vm.rs:500-614 | every glyph row uses only the high nibble, so glyphs are four pixels wide; glyph 0 is F0 90 90 90 F0 |
| Machine.New | src/vm.rs:23-43 | a fresh machine is valid, starts at 0x200 with I, sp, timers, V, stack, screen and keys zero, holds the glyphs below 80 and the image from 0x200 cut at the end of memory |
| MemoryEffects.NewHasGlyphs | src/vm.rs:23-26 | whatever the image, a fresh machine holds the whole glyph table |
| Lifecycle.NewStartsAtRom | src/vm.rs:23-43 | the first opcode of a fresh machine is the first two bytes of the image |
| Lifecycle.EmptyRomHalts | src/vm.rs:23-43 | with an empty image the first cycle meets 0x0000 and stops with an unknown-opcode fault |
| Machine.Tick | src/vm.rs:101-109 | each timer above zero drops by exactly one, a timer at zero stays at zero, nothing else changes |
| Machine.TicksCountDown | src/vm.rs:101-109 | after n ticks each timer is its old value minus n floored at zero: no underflow |
| Machine.PopAfterPush | src/vm.rs:123-133 | pop right after push(a) returns a and restores the stack pointer |
| Machine.PushesWrap | src/vm.rs:123-127 | the stack pointer counts pushes modulo 8 and slots 8 to 11 are never written |
| Machine.NinthPushOverwritesFirst | src/vm.rs:123-127 | nine nested pushes silently overwrite the slot of the first |
| Execute.FirstHeld | src/vm.rs:384-395 | the key FX0A takes is held and every lower key is up; none is found only when all keys are up |
| Execute.StoreDigits | src/vm.rs:422-428 | FX33 writes three digits below 10 whose decimal value is V[X], at I, I+1 and I+2 (masked), and no other cell |
| Execute.StoreBlock | src/vm.rs:440-449 | the FX55 loop writes V[i] to I + i for i = 0..X and leaves every other cell |
| Execute.LoadBlock | src/vm.rs:461-470 | the FX65 loop loads V[i] from I + i for i = 0..X and leaves every other register |
| Execute.AwaitKey | src/vm.rs:384-395 | FX0A leaves pc on itself exactly when no key is held, and changes only V |
| Execute.Execute | src/vm.rs:60-94 | a handler keeps the state valid; it fails exactly for FX55/FX65 whose block runs past the end of memory |
| Execute.Cycle | src/vm.rs:53-99 | a successful cycle leaves a valid state (pc and I below 0x1000, sp below 8) that records the fetched opcode; it stops with an unknown-opcode fault exactly when the dispatcher finds no arm |
| Execute.Step | src/vm.rs:49-51 | the key pad the cycle ends with is the one just supplied |
| Properties.CycleRunsHandler | src/vm.rs:53-99 | a cycle records the opcode, hands the decoded instruction to its handler with next = pc + 2, and sets pc to the handler's next masked to 12 bits; every handler other than the returns, jumps, calls, skips and FX0A leaves next at pc + 2 |
| Properties.SkipsAdvance | src/vm.rs:153-181 | 3XNN, 4XNN, 5XY0, 9XY0, EX9E, EXA1 set pc to (pc + 4) mod 4096 when the condition holds and (pc + 2) mod 4096 otherwise, and change nothing else |
| Properties.ClearScreenBlanks | src/vm.rs:135-137 | 00E0 blanks every row and changes nothing else |
| Properties.JumpsLand | src/vm.rs:144-146 | 1NNN continues at NNN and BNNN at (NNN + V0) mod 4096, nothing else changes |
| Properties.CallPushes | src/vm.rs:148-151 | 2NNN stores pc + 2 in the slot sp names, advances sp modulo 8 and continues at NNN |
| Properties.ReturnPops | src/vm.rs:139-142 | 00EE steps sp back modulo 8 and continues at the stored address masked to 12 bits |
| Properties.CallThenReturn | src/vm.rs:139-151 | a 00EE right after a 2NNN continues after the call and restores sp |
| Properties.AddRegsCarries | src/vm.rs:231-243 | 8XY4 leaves (V[X] + V[Y]) mod 256 in V[X] and VF = 1 exactly when the sum exceeds 255 |
| Properties.SubtractionsBorrow | src/vm.rs:245-257 | 8XY5 and 8XY7 leave the difference mod 256 in V[X] and VF = 1 exactly when nothing was borrowed |
| Alu.AddWithCarry | src/vm.rs:231-243 | carry and result together make the true sum; only V[X] and VF change |
| Alu.Subtract | src/vm.rs:245-257 | result plus subtrahend equals minuend plus 256 times the borrow; only V[X] and VF change |
| Alu.ShiftRight | src/vm.rs:259-277 | twice the result plus the flag is the shifted register; with X = F VF keeps the halved value; when the shifted register is VF, V[X] and VF both end at 0; the default build copies the result into V[Y] too |
| Alu.ShiftLeft | src/vm.rs:293-311 | the result plus 256 times the flag is twice the shifted register; with X = F VF keeps the doubled value; when the shifted register is VF, V[X] and VF both end at twice its old top digit; the default build copies the result into V[Y] too |
| Alu.ArithmeticWraps | src/vm.rs:231-257 | the sum and the differences are taken modulo 256 and the flag is the carry or the absence of a borrow |
| Alu.FlagWinsArithmetic | src/vm.rs:231-291 | with X = F the flag of 8XY4, 8XY5 and 8XY7 is what VF holds |
| Alu.ResultWinsShift | src/vm.rs:259-311 | with X = F the shifts leave the shifted value in VF, the flag written first being lost; for 8FF6 and 8FFE in the default build, and 8FY6 and 8FYE under quirky_shift, that value is VF's own digit shifted: 0, or twice the old top digit |
| Alu.FlagShiftedByDefault | src/vm.rs:268-311 | in the default build 8XF6 leaves V[X] = VF = 0 and 8XFE leaves V[X] = VF = twice the old top digit of VF, whatever X is |
| Effects.LoadsWriteOneRegister | src/vm.rs:183-205 | 6XNN, 7XNN, 8XY0, FX07 and CXNN change only V[X]: NN, V[X] + NN mod 256 with VF untouched, V[Y], the delay timer, and the random byte masked digit by digit with NN (CXNN at lines 331-333, FX07 at 378-382) |
| Effects.BitwiseOps | src/vm.rs:207-229 | 8XY1, 8XY2 and 8XY3 combine V[X] and V[Y] digit by digit, leaving VF and the rest alone |
| Effects.XorUndoes | src/vm.rs:223-229 | 8XY3 applied twice with X != Y restores the registers |
| Effects.ShiftsMoveOneDigit | src/vm.rs:259-311 | at cycle level, in every case: 8XY6 halves the shifted register with its lowest digit to VF, 8XYE doubles it modulo 256 with its highest digit to VF; with X = F VF keeps the result; when the shifted register is VF, V[X] and VF end at 0, or at twice its old top digit; the default build leaves V[Y] equal to V[X] |
| Bits.BitwiseDigits | src/vm.rs:207-229 | digit k of a & b, a \| b and a ^ b is the product, the maximum and the sum mod 2 of the digits k |
| Bits.XorSelfInverse | src/vm.rs:223-229 | (a ^ b) ^ b == a |
| Bits.BytesByDigits | src/vm.rs:207-229 | a byte is the AND, OR or XOR of two bytes exactly when each of its eight digits is the AND, OR or XOR of theirs |
| Bits.AndKeepsDigits | src/vm.rs:335-360 | a & b == a exactly when every digit set in a is set in b |
| Display.SpriteMaskPixel | src/vm.rs:351-352 | the widened byte shifted left 56 and right x lights exactly columns x..x+7 as the byte does; columns past 63 are cut, nothing wraps |
| Display.XorPixel | src/vm.rs:351-352 | XOR flips exactly the pixels lit in the mask |
| Display.ErasesIff | src/vm.rs:354-356 | old & new < old holds exactly when some lit pixel went dark |
| Display.RowLoopEffect | src/vm.rs:348-357 | the row loop replaces each row of its range once, from its old value, keeps the others, and raises the flag iff some row was hit |
| Display.DrawRows | src/vm.rs:335-360 | the rows the sprite spans are XORed with its placed bytes, the others kept; the flag is set iff one of those rows fails the collision test |
| Display.DrawPixel | src/vm.rs:335-360 | a pixel flips exactly when the sprite covers it |
| Display.DrawCollision | src/vm.rs:335-360 | the flag is set exactly when some pixel that was lit is dark afterwards |
| Display.DrawTwice | src/vm.rs:335-360 | drawing the same sprite twice at the same place restores the screen |
| Execute.SpriteHeight | src/vm.rs:342-344 | the drawn height is at most N and never runs past the bottom edge, and it falls short of N only when the sprite reaches that edge: min(N, 32 - y) |
| DeviceEffects.DrawSpriteRows | src/vm.rs:335-360 | DXYN changes only the rows y..y+min(N, 32-y)-1 with y = V[Y] mod 32, each to old XOR (byte << 56 >> x) with x = V[X] mod 64 |
| DeviceEffects.DrawSpriteEffect | src/vm.rs:335-360 | DXYN flips exactly the covered pixels and sets VF to 1 exactly when a lit pixel went dark |
| DeviceEffects.DrawFlipsCoveredPixels | src/vm.rs:335-360 | at cycle level: the screen and VF change as above, pc moves on by two, nothing else changes |
| DeviceEffects.DrawSpriteTwice | src/vm.rs:335-360 | repeating a DXYN whose coordinates are not in VF restores the screen |
| DeviceEffects.WaitKeyBlocks | src/vm.rs:384-395 | FX0A with no key held changes only the recorded opcode, so the next cycle runs it again; with a key held V[X] gets the lowest one and pc moves on |
| DeviceEffects.StepWaitsForKeys | src/vm.rs:49-51 | under the front end, FX0A keeps pc exactly when none of the supplied keys is down |
| DeviceEffects.TimersLoad | src/vm.rs:397-407 | FX15 and FX18 load the timer from V[X] and change nothing else |
| DeviceEffects.DelayCountsDown | src/vm.rs:397-401 | after FX15 and n ticks the delay timer reads V[X] - n floored at zero |
| MemoryEffects.IndexUpdates | src/vm.rs:409-420 | FX1E sets I to (I + V[X]) mod 4096 and FX29 to 5 V[X]; ANNN (lines 323-325) sets it to NNN; nothing else changes |
| MemoryEffects.GlyphAddressFindsGlyph | src/vm.rs:416-420 | after FX29 with an intact glyph table and V[X] < 16, the five bytes at I are glyph V[X]; for V[X] >= 16 I lies past the table |
| MemoryEffects.BcdDigits | src/vm.rs:422-428 | FX33 stores the hundreds, tens and ones of V[X] at I, I+1, I+2 (masked) and changes nothing else |
| MemoryEffects.StoreRegsCopies | src/vm.rs:430-449 | FX55 faults exactly when I + X >= 4096; otherwise it copies V0..VX to I..I+X and advances I by X+1 masked, or keeps I under quirky_restore |
| MemoryEffects.LoadRegsCopies | src/vm.rs:451-470 | FX65 faults exactly when I + X >= 4096; otherwise it loads V0..VX from I..I+X and updates I as FX55 does |
| MemoryEffects.StoreThenLoad | src/vm.rs:430-470 | loading a block back from where FX55 stored it gives the stored registers |
| MemoryEffects.StoreLoadRoundTrip | src/vm.rs:430-470 | under quirky_restore an FX55 followed by an FX65 of the same registers leaves V and I unchanged |
| Lifecycle.CycleFaults | src/vm.rs:60-95 | a cycle stops exactly on an unknown opcode or an FX55/FX65 block past the end of memory, and says which |
| Lifecycle.UnknownOpcodeHalts | src/vm.rs:95 | the unknown-opcode fault happens exactly when the word at pc encodes no instruction |
| Lifecycle.IsDrawingIffDraw | src/vm.rs:111-113 | after a cycle the drawing hint is true exactly when that cycle ran a DXYN |

## Left out

- `load_rom` (`src/vm.rs:494-498`) reads a file; the model takes the image as a byte sequence. A short or failed read is not modelled: `New` copies the whole image, cut at the end of memory.
- The `rand::random` call of CXNN is a parameter of `Cycle` and `Step`.
- `panic!` on an unknown opcode and the out-of-range indexing of FX55/FX65 become `Err` results. The stores FX55 made before indexing out of range are not kept, since the process aborts.
- The transient fields `next` and `operands` are locals of `Cycle` and are not part of `State`.
- `get_fb` is a plain accessor of `fb`.
- The `println!` debug line is left out.
- `src/main.rs` (window, key mapping, colours, frame loop) is not part of this model.
- Helpers without a row of their own, whose behaviour the rows above state: `Instruction.Decode` (the match of `cycle`, `src/vm.rs:60-95`) through `Instruction.DecodeEncode`, `EncodeDecode`, `UnknownIffNoEncoding` and `GapsAreUnknown`; `Machine.Push` and `Machine.Pop` (`src/vm.rs:123-133`) through `Machine.PopAfterPush`, `PushesWrap` and `NinthPushOverwritesFirst`; `Display.Sprite` (the wrapped read at `src/vm.rs:352`) through `DeviceEffects.DrawSpriteRows` and `MemoryEffects.GlyphAddressFindsGlyph`; `Execute.DrawSprite` (`xDXYN`) through the `DeviceEffects.DrawSprite*` lemmas; and the handler groups `Execute.ControlFlow`, `Skip`, `Load`, `Arithmetic`, `Registers`, `Devices`, `Index` and `Block` (the `x....` handlers) through the cycle-level lemmas of `Properties`, `Effects`, `DeviceEffects` and `MemoryEffects`, one per instruction.
- Execute.IsDrawing: its only contract is `Lifecycle.IsDrawingIffDraw`, which links it to DXYN after a cycle, not for an arbitrary state.
- Machine.UpdateKeys: stated through `Execute.Step` and `DeviceEffects.StepWaitsForKeys` rather than on its own.
- Integer widths: `usize` arithmetic on pc, I and the stack never overflows in the source, since each value stays below 0x1000 + 0xFF; the model uses unbounded naturals and writes out every mask.
