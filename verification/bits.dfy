/** Bitwise AND, OR and XOR on naturals, defined one binary digit at a time,
    as the byte operations `&`, `|` and `^` of the interpreter compute them. */
module Bits {
  import opened Opcode

  /** 2 to the power `w`. */
  function Pow2(w: nat): (p: nat)
    ensures p >= 1
  {
    if w == 0 then 1 else 2 * Pow2(w - 1)
  }

  /** Digit-wise AND: a result digit is 1 iff both operand digits are. */
  function And(a: nat, b: nat): nat
  {
    if a == 0 || b == 0 then 0 else 2 * And(a / 2, b / 2) + (a % 2) * (b % 2)
  }

  /** Digit-wise OR: a result digit is 1 iff some operand digit is. */
  function Or(a: nat, b: nat): nat
    decreases a + b
  {
    if a == 0 then b
    else if b == 0 then a
    else 2 * Or(a / 2, b / 2) + (if a % 2 == 1 || b % 2 == 1 then 1 else 0)
  }

  /** Digit-wise XOR: a result digit is 1 iff the operand digits differ. */
  function Xor(a: nat, b: nat): nat
    decreases a + b
  {
    if a == 0 then b
    else if b == 0 then a
    else 2 * Xor(a / 2, b / 2) + (a % 2 + b % 2) % 2
  }

  /** The recurrences hold also when an operand is zero. */
  lemma AndStep(a: nat, b: nat)
    ensures And(a, b) == 2 * And(a / 2, b / 2) + (a % 2) * (b % 2)
  {
  }

  lemma OrStep(a: nat, b: nat)
    ensures Or(a, b) == 2 * Or(a / 2, b / 2) + (if a % 2 == 1 || b % 2 == 1 then 1 else 0)
  {
  }

  lemma XorStep(a: nat, b: nat)
    ensures Xor(a, b) == 2 * Xor(a / 2, b / 2) + (a % 2 + b % 2) % 2
  {
  }

  lemma Halves(q: nat, r: nat)
    requires r < 2
    ensures (2 * q + r) / 2 == q && (2 * q + r) % 2 == r
  {
  }

  /** OR counts every digit lit in either operand once: a | b == a + b - (a & b). */
  lemma {:induction false} OrPlusAnd(a: nat, b: nat)
    ensures Or(a, b) + And(a, b) == a + b
    decreases a + b
  {
    if a != 0 && b != 0 {
      OrPlusAnd(a / 2, b / 2);
    }
  }

  /** XOR drops the digits lit in both: a ^ b == a + b - 2 (a & b). */
  lemma {:induction false} XorPlusAnd(a: nat, b: nat)
    ensures Xor(a, b) + 2 * And(a, b) == a + b
    decreases a + b
  {
    if a != 0 && b != 0 {
      XorPlusAnd(a / 2, b / 2);
      XorStep(a, b);
      AndStep(a, b);
    }
  }

  /** AND keeps only digits of each operand, so it is at most either. */
  lemma {:induction false} AndBelow(a: nat, b: nat)
    ensures And(a, b) <= a && And(a, b) <= b
    decreases a
  {
    if a != 0 && b != 0 {
      AndBelow(a / 2, b / 2);
    }
  }

  /** OR of two `w`-digit numbers has at most `w` digits. */
  lemma {:induction false} OrWidth(a: nat, b: nat, w: nat)
    requires a < Pow2(w) && b < Pow2(w)
    ensures Or(a, b) < Pow2(w)
    decreases w
  {
    if a != 0 && b != 0 {
      OrWidth(a / 2, b / 2, w - 1);
    }
  }

  /** XORing the same value twice restores the original. */
  lemma {:induction false} XorSelfInverse(a: nat, b: nat)
    ensures Xor(Xor(a, b), b) == a
    decreases a + b
  {
    if a + b != 0 {
      var c := Xor(a, b);
      XorStep(a, b);
      Halves(Xor(a / 2, b / 2), (a % 2 + b % 2) % 2);
      XorStep(c, b);
      XorSelfInverse(a / 2, b / 2);
    }
  }

  /** Binary digit `k` of `a`, digit 0 being the least significant. */
  function Bit(a: nat, k: nat): (d: nat)
    ensures d < 2
  {
    if k == 0 then a % 2 else Bit(a / 2, k - 1)
  }

  /** The operations act digit by digit: digit `k` of the result is the AND,
      the OR and the XOR of digit `k` of the operands. */
  lemma {:induction false} BitwiseDigits(a: nat, b: nat, k: nat)
    ensures Bit(And(a, b), k) == Bit(a, k) * Bit(b, k)
    ensures Bit(Or(a, b), k) == if Bit(a, k) == 1 || Bit(b, k) == 1 then 1 else 0
    ensures Bit(Xor(a, b), k) == (Bit(a, k) + Bit(b, k)) % 2
    decreases k
  {
    AndStep(a, b);
    OrStep(a, b);
    XorStep(a, b);
    Halves(And(a / 2, b / 2), (a % 2) * (b % 2));
    Halves(Or(a / 2, b / 2), if a % 2 == 1 || b % 2 == 1 then 1 else 0);
    Halves(Xor(a / 2, b / 2), (a % 2 + b % 2) % 2);
    if k > 0 {
      BitwiseDigits(a / 2, b / 2, k - 1);
    }
  }

  /** A `w`-digit number is determined by its digits, so the digit-wise
      statements above pin the results down completely. */
  lemma {:induction false} DigitsDetermine(a: nat, b: nat, w: nat)
    requires a < Pow2(w) && b < Pow2(w)
    requires forall k :: 0 <= k < w ==> Bit(a, k) == Bit(b, k)
    ensures a == b
    decreases w
  {
    if w > 0 {
      assert Bit(a, 0) == Bit(b, 0);
      forall k | 0 <= k < w - 1
        ensures Bit(a / 2, k) == Bit(b / 2, k)
      {
        assert Bit(a, k + 1) == Bit(b, k + 1);
      }
      DigitsDetermine(a / 2, b / 2, w - 1);
    }
  }

  /** Every digit of zero is zero. */
  lemma {:induction false} ZeroDigits(k: nat)
    ensures Bit(0, k) == 0
  {
    if k > 0 {
      ZeroDigits(k - 1);
    }
  }

  /** A `w`-digit number has no digit at position `w` or above. */
  lemma {:induction false} DigitsAbove(a: nat, w: nat, k: nat)
    requires a < Pow2(w) && w <= k
    ensures Bit(a, k) == 0
    decreases w
  {
    if w == 0 {
      ZeroDigits(k);
    } else {
      DigitsAbove(a / 2, w - 1, k - 1);
    }
  }

  /** XOR of two `w`-digit numbers has at most `w` digits. */
  lemma {:induction false} XorWidth(a: nat, b: nat, w: nat)
    requires a < Pow2(w) && b < Pow2(w)
    ensures Xor(a, b) < Pow2(w)
    decreases w
  {
    if a != 0 && b != 0 {
      XorWidth(a / 2, b / 2, w - 1);
    }
  }

  /** `a & b == a` exactly when every digit set in `a` is set in `b`. */
  lemma {:induction false} AndKeepsDigits(a: nat, b: nat)
    ensures And(a, b) == a <==> forall k: nat :: Bit(a, k) == 1 ==> Bit(b, k) == 1
    decreases a
  {
    if a == 0 {
      forall k: nat
        ensures Bit(a, k) == 0
      {
        ZeroDigits(k);
      }
    } else {
      AndStep(a, b);
      AndBelow(a / 2, b / 2);
      AndKeepsDigits(a / 2, b / 2);
      if And(a, b) == a {
        assert And(a / 2, b / 2) == a / 2 && (a % 2) * (b % 2) == a % 2;
        forall k: nat | Bit(a, k) == 1
          ensures Bit(b, k) == 1
        {
          if k > 0 {
            assert Bit(a / 2, k - 1) == 1;
          }
        }
      } else if And(a / 2, b / 2) != a / 2 {
        var k: nat :| Bit(a / 2, k) == 1 && Bit(b / 2, k) != 1;
        assert Bit(a, k + 1) == 1 && Bit(b, k + 1) != 1;
      } else {
        assert Bit(a, 0) == 1 && Bit(b, 0) != 1;
      }
    }
  }

  /** Powers of two multiply by adding exponents. */
  lemma {:induction false} Pow2Sum(a: nat, b: nat)
    ensures Pow2(a + b) == Pow2(a) * Pow2(b)
    decreases b
  {
    if b > 0 {
      Pow2Sum(a, b - 1);
      assert Pow2(a + b) == 2 * Pow2(a + b - 1);
    }
  }

  /** 2 to the 64th: the values of a 64-bit word. */
  lemma Pow2Word()
    ensures Pow2(64) == 0x1_0000_0000_0000_0000
  {
    Pow2Byte();
    Pow2Sum(8, 8);
    assert Pow2(16) == 0x1_0000;
    Pow2Sum(16, 16);
    assert Pow2(32) == 0x1_0000_0000;
    Pow2Sum(32, 32);
  }

  lemma Pow2Byte()
    ensures Pow2(8) == 0x100
  {
    assert Pow2(4) == 0x10;
  }

  /** The byte operations: the results stay bytes. */
  function ByteAnd(a: Byte, b: Byte): (r: Byte)
    ensures r <= a && r <= b
  {
    AndBelow(a, b);
    And(a, b)
  }

  function ByteOr(a: Byte, b: Byte): (r: Byte)
    ensures r + ByteAnd(a, b) == a + b
  {
    Pow2Byte();
    OrWidth(a, b, 8);
    OrPlusAnd(a, b);
    Or(a, b)
  }

  function ByteXor(a: Byte, b: Byte): (r: Byte)
    ensures r + 2 * ByteAnd(a, b) == a + b
  {
    XorPlusAnd(a, b);
    OrPlusAnd(a, b);
    Pow2Byte();
    OrWidth(a, b, 8);
    Xor(a, b)
  }

  /** A byte is the AND, the OR or the XOR of two bytes exactly when each of
      its eight digits is the AND, the OR or the XOR of theirs. */
  lemma BytesByDigits(a: Byte, b: Byte, p: Byte, q: Byte, x: Byte)
    ensures p == ByteAnd(a, b) <==> forall k :: 0 <= k < 8 ==> Bit(p, k) == Bit(a, k) * Bit(b, k)
    ensures q == ByteOr(a, b) <==>
              forall k :: 0 <= k < 8 ==> Bit(q, k) == if Bit(a, k) == 1 || Bit(b, k) == 1 then 1 else 0
    ensures x == ByteXor(a, b) <==> forall k :: 0 <= k < 8 ==> Bit(x, k) == (Bit(a, k) + Bit(b, k)) % 2
  {
    ByteDigitsMatch(ByteAnd(a, b), p, a, b, AndOp);
    ByteDigitsMatch(ByteOr(a, b), q, a, b, OrOp);
    ByteDigitsMatch(ByteXor(a, b), x, a, b, XorOp);
  }

  /** The three digit-wise operations. */
  datatype BitOp = AndOp | OrOp | XorOp

  /** Digit `k` of `op` applied to `a` and `b`, from their digits `k`. */
  function DigitOf(op: BitOp, a: nat, b: nat, k: nat): nat
  {
    match op
    case AndOp => Bit(a, k) * Bit(b, k)
    case OrOp => if Bit(a, k) == 1 || Bit(b, k) == 1 then 1 else 0
    case XorOp => (Bit(a, k) + Bit(b, k)) % 2
  }

  /** `r` is `op` of two bytes: another byte equals it exactly when it has
      the same eight digits. */
  lemma {:induction false} ByteDigitsMatch(r: Byte, p: Byte, a: Byte, b: Byte, op: BitOp)
    requires op.AndOp? ==> r == And(a, b)
    requires op.OrOp? ==> r == Or(a, b)
    requires op.XorOp? ==> r == Xor(a, b)
    ensures p == r <==> forall k :: 0 <= k < 8 ==> Bit(p, k) == DigitOf(op, a, b, k)
  {
    Pow2Byte();
    forall k | 0 <= k < 8
      ensures Bit(r, k) == DigitOf(op, a, b, k)
    {
      BitwiseDigits(a, b, k);
    }
    if forall k :: 0 <= k < 8 ==> Bit(p, k) == DigitOf(op, a, b, k) {
      DigitsDetermine(p, r, 8);
    }
  }
}
