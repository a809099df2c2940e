/** The register-file updates of the arithmetic handlers 8XY4 to 8XYE. VF
    (register 0xF) doubles as the flag register. Each handler writes its
    result and its flag in the order the interpreter does, so when X (or, for
    the shifts, Y) is 0xF the write that comes last is the one that stays. */
module Alu {
  import opened Opcode
  import opened Machine

  /** The flag register. */
  const VF: Nibble := 0xF

  /** 8XY4: V[X] := V[X] + V[Y], wrapping; then VF := 1 on a carry out of
      the byte and 0 otherwise. */
  function AddWithCarry(V: seq<Byte>, x: Nibble, y: Nibble): (W: seq<Byte>)
    requires |V| == 16
    ensures |W| == 16
    ensures W[VF] < 2
    ensures x != VF ==> 0x100 * W[VF] as int + W[x] == V[x] as int + V[y]
    ensures forall r :: 0 <= r < 16 && r != x && r != VF ==> W[r] == V[r]
  {
    var sum := V[x] as int + V[y];
    if sum <= 0xFF then V[x := sum][VF := 0]
    else V[x := sum - 0x100][VF := 1]
  }

  /** 8XY5 and 8XY7: V[X] := a - b, wrapping; then VF := 1 when nothing was
      borrowed and 0 when the difference went below zero. */
  function Subtract(V: seq<Byte>, x: Nibble, a: Byte, b: Byte): (W: seq<Byte>)
    requires |V| == 16
    ensures |W| == 16
    ensures W[VF] < 2
    ensures x != VF ==> W[x] as int + b == a as int + 0x100 * (1 - W[VF] as int)
    ensures forall r :: 0 <= r < 16 && r != x && r != VF ==> W[r] == V[r]
  {
    if a >= b then V[x := a - b][VF := 1]
    else V[x := a as int + 0x100 - b][VF := 0]
  }

  /** The register a shift reads: V[Y] in the default build, V[X] under
      the `quirky_shift` build. */
  function Shifted(x: Nibble, y: Nibble, src: ShiftSource): Nibble
  {
    if src == ShiftVx then x else y
  }

  /** 8XY6. `ShiftVx`: VF := V[X] & 1, then V[X] := V[X] >> 1.
      `ShiftVy`: VF := V[Y] & 1, then V[Y] := V[Y] >> 1, then V[X] := V[Y].
      The flag is written first. When the shifted register is VF itself, it
      is shifted after receiving its own low digit, so both VF and V[X] end
      at zero. */
  function ShiftRight(V: seq<Byte>, x: Nibble, y: Nibble, src: ShiftSource): (W: seq<Byte>)
    requires |V| == 16
    ensures |W| == 16
    ensures x != VF && Shifted(x, y, src) != VF ==>
              W[VF] < 2 && 2 * W[x] as int + W[VF] == V[Shifted(x, y, src)]
    ensures x == VF && Shifted(x, y, src) != VF ==> W[VF] == V[Shifted(x, y, src)] / 2
    ensures Shifted(x, y, src) == VF ==> W[x] == 0 && W[VF] == 0
    ensures src == ShiftVy ==> W[y] == W[x]
    ensures forall r :: 0 <= r < 16 && r != x && r != VF && r != Shifted(x, y, src) ==> W[r] == V[r]
  {
    match src
    case ShiftVx =>
      var V1 := V[VF := V[x] % 2];
      V1[x := V1[x] / 2]
    case ShiftVy =>
      var V1 := V[VF := V[y] % 2];
      var V2 := V1[y := V1[y] / 2];
      V2[x := V2[y]]
  }

  /** 8XYE. `ShiftVx`: VF := V[X] >> 7, then V[X] := V[X] << 1 cut to a byte.
      `ShiftVy`: VF := V[Y] >> 7, then V[Y] := V[Y] << 1 cut to a byte, then
      V[X] := V[Y]. The flag is written first. When the shifted register is
      VF itself, VF and V[X] both end at twice its old top digit. */
  function ShiftLeft(V: seq<Byte>, x: Nibble, y: Nibble, src: ShiftSource): (W: seq<Byte>)
    requires |V| == 16
    ensures |W| == 16
    ensures x != VF && Shifted(x, y, src) != VF ==>
              W[VF] < 2 && 0x100 * W[VF] as int + W[x] == 2 * V[Shifted(x, y, src)] as int
    ensures x == VF && Shifted(x, y, src) != VF ==> W[VF] == (2 * V[Shifted(x, y, src)] as int) % 0x100
    ensures Shifted(x, y, src) == VF ==> W[x] == W[VF] == 2 * (V[VF] / 0x80)
    ensures src == ShiftVy ==> W[y] == W[x]
    ensures forall r :: 0 <= r < 16 && r != x && r != VF && r != Shifted(x, y, src) ==> W[r] == V[r]
  {
    match src
    case ShiftVx =>
      var V1 := V[VF := V[x] / 0x80];
      V1[x := (V1[x] as int * 2) % 0x100]
    case ShiftVy =>
      var V1 := V[VF := V[y] / 0x80];
      var V2 := V1[y := (V1[y] as int * 2) % 0x100];
      V2[x := V2[y]]
  }

  /** The sum and the difference are taken modulo 256, and the flag is the
      carry, respectively the absence of a borrow. */
  lemma ArithmeticWraps(V: seq<Byte>, x: Nibble, y: Nibble, a: Byte, b: Byte)
    requires |V| == 16
    ensures AddWithCarry(V, x, y)[VF] == if V[x] as int + V[y] >= 0x100 then 1 else 0
    ensures x != VF ==> AddWithCarry(V, x, y)[x] == (V[x] as int + V[y]) % 0x100
    ensures Subtract(V, x, a, b)[VF] == if a >= b then 1 else 0
    ensures x != VF ==> Subtract(V, x, a, b)[x] == (a as int - b) % 0x100
  {
  }

  /** With X = F, the additions and subtractions leave the flag in VF: the
      result written first is lost. */
  lemma FlagWinsArithmetic(V: seq<Byte>, y: Nibble, a: Byte, b: Byte)
    requires |V| == 16
    ensures AddWithCarry(V, VF, y)[VF] == if V[VF] as int + V[y] > 0xFF then 1 else 0
    ensures Subtract(V, VF, a, b)[VF] == if a >= b then 1 else 0
  {
  }

  /** With X = F the shifts lose the flag instead: it is written first and
      then overwritten by the shifted value. When the value shifted is VF
      itself (X = F under `ShiftVx`, Y = F under `ShiftVy`) it is the flag
      just written, so 8FY6 and 8FF6 always leave VF = 0 and 8FYE and 8FFE
      leave twice the old top digit. */
  lemma ResultWinsShift(V: seq<Byte>, y: Nibble)
    requires |V| == 16
    ensures ShiftRight(V, VF, y, ShiftVx)[VF] == 0
    ensures ShiftLeft(V, VF, y, ShiftVx)[VF] == 2 * (V[VF] / 0x80)
    ensures ShiftRight(V, VF, y, ShiftVy)[VF] == if y == VF then 0 else V[y] / 2
    ensures ShiftLeft(V, VF, y, ShiftVy)[VF] ==
              if y == VF then 2 * (V[VF] / 0x80) else (2 * V[y] as int) % 0x100
  {
  }

  /** In the default build, 8XF6 and 8XFE shift VF after writing the flag
      into it, so V[X] and VF end equal: 0 for 8XF6 and twice the old top
      digit of VF for 8XFE, whatever V[X] held. */
  lemma FlagShiftedByDefault(V: seq<Byte>, x: Nibble)
    requires |V| == 16
    ensures ShiftRight(V, x, VF, ShiftVy)[x] == 0 && ShiftRight(V, x, VF, ShiftVy)[VF] == 0
    ensures var b := 2 * (V[VF] / 0x80);
            ShiftLeft(V, x, VF, ShiftVy)[x] == b && ShiftLeft(V, x, VF, ShiftVy)[VF] == b
  {
  }
}
