/** Instruction words and their operand fields: the two bytes fetched at the
    program counter form a big-endian 16-bit opcode, from which the register
    indices X and Y and the immediates N, NN and NNN are cut. */
module Opcode {

  /** A 4-bit field of an opcode. */
  type Nibble = n: nat | n < 0x10

  /** A 16-bit instruction word. */
  type Word = w: nat | w < 0x1_0000

  /** An 8-bit value: a register, a memory cell, a timer or a byte immediate. */
  type Byte = b: nat | b < 0x100

  /** A 12-bit address into the 4 KiB memory. */
  type Address = a: nat | a < 0x1000

  /** The positional operand fields of an opcode. */
  datatype Operands = Operands(X: Nibble, Y: Nibble, N: Nibble, NN: Byte, NNN: Address)

  /** Joins two bytes, the first one most significant, into an opcode. */
  function FromBytes(left: Byte, right: Byte): (op: Word)
    ensures op / 0x100 == left
    ensures op % 0x100 == right
  {
    left * 0x100 + right
  }

  /** The high nibble of an opcode, which selects the instruction family. */
  function Family(op: Word): Nibble
  {
    op / 0x1000
  }

  /** Cuts the operand fields out of an opcode. */
  function OperandsOf(op: Word): (o: Operands)
    ensures op == Family(op) * 0x1000 + o.X * 0x100 + o.Y * 0x10 + o.N
    ensures o.NN == o.Y * 0x10 + o.N
    ensures o.NNN == o.X * 0x100 + o.NN
  {
    Nibbles(op);
    Operands((op / 0x100) % 0x10, (op / 0x10) % 0x10, op % 0x10, op % 0x100, op % 0x1000)
  }

  /** Splits a word into its four nibbles by repeated division by sixteen. */
  lemma Nibbles(op: Word)
    ensures op == (op / 0x1000) * 0x1000 + ((op / 0x100) % 0x10) * 0x100 + ((op / 0x10) % 0x10) * 0x10 + op % 0x10
    ensures op % 0x100 == ((op / 0x10) % 0x10) * 0x10 + op % 0x10
    ensures op % 0x1000 == ((op / 0x100) % 0x10) * 0x100 + op % 0x100
  {
    var q1, n := op / 0x10, op % 0x10;
    var q2, y := q1 / 0x10, q1 % 0x10;
    var q3, x := q2 / 0x10, q2 % 0x10;
    assert op == q1 * 0x10 + n;
    assert q1 == q2 * 0x10 + y;
    assert q2 == q3 * 0x10 + x;
    assert op == q3 * 0x1000 + x * 0x100 + y * 0x10 + n;
    assert op / 0x100 == q2;
    assert op / 0x1000 == q3;
    assert op % 0x100 == y * 0x10 + n;
    assert op % 0x1000 == x * 0x100 + y * 0x10 + n;
  }

  /** The fields are the nibbles of the two fetched bytes: X is the low nibble
      of the first byte, Y and N the high and low nibbles of the second, NN the
      whole second byte and NNN the low twelve bits of the word. */
  lemma OperandsOfBytes(left: Byte, right: Byte)
    ensures var op := FromBytes(left, right);
            var o := OperandsOf(op);
            && Family(op) == left / 0x10
            && o.X == left % 0x10
            && o.Y == right / 0x10
            && o.N == right % 0x10
            && o.NN == right
            && o.NNN == (left % 0x10) * 0x100 + right
  {
    var l: int, r: int := left, right;
    var a, b, c, d := l / 0x10, l % 0x10, r / 0x10, r % 0x10;
    assert l == a * 0x10 + b;
    assert r == c * 0x10 + d;
    OperandsOfCompose(FromBytes(left, right), a, b, c, d);
  }

  /** Conversely, a word assembled from four nibbles has exactly those
      nibbles as its family and fields. */
  lemma OperandsOfCompose(op: Word, f: Nibble, x: Nibble, y: Nibble, n: Nibble)
    requires op == f * 0x1000 + x * 0x100 + y * 0x10 + n
    ensures Family(op) == f
    ensures OperandsOf(op) == Operands(x, y, n, y * 0x10 + n, x * 0x100 + y * 0x10 + n)
  {
    var q1 := f * 0x100 + x * 0x10 + y;
    var q2 := f * 0x10 + x;
    assert op == q1 * 0x10 + n;
    assert op / 0x10 == q1 && op % 0x10 == n;
    assert q1 == q2 * 0x10 + y;
    assert q1 % 0x10 == y;
    assert op == q2 * 0x100 + (y * 0x10 + n);
    assert op / 0x100 == q2 && op % 0x100 == y * 0x10 + n;
    assert q2 % 0x10 == x;
    assert op == f * 0x1000 + (x * 0x100 + y * 0x10 + n);
    assert op / 0x1000 == f && op % 0x1000 == x * 0x100 + y * 0x10 + n;
  }
}
