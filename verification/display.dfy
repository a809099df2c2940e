/** The monochrome display: 32 rows of 64 pixels. A row is the value of a
    64-bit word whose most significant digit is the leftmost pixel. DXYN
    XORs byte-wide sprite rows into the screen and reports whether that
    erased a lit pixel. */
module Display {
  import opened Opcode
  import opened Bits

  const Width: nat := 64
  const Height: nat := 32

  /** One screen row, the value of a 64-bit word. */
  type Row = r: nat | r < 0x1_0000_0000_0000_0000

  /** Whether column `c` (0 is leftmost) of `row` is lit. */
  predicate Pixel(row: nat, c: nat)
    requires c < Width
  {
    Bit(row, 63 - c) == 1
  }

  /** Whether pixel `k` (0 is leftmost) of a sprite byte is lit. */
  predicate SpriteBit(b: Byte, k: nat)
    requires k < 8
  {
    Bit(b, 7 - k) == 1
  }

  /** `n << w` on naturals. */
  function ShiftUp(n: nat, w: nat): nat
  {
    if w == 0 then n else 2 * ShiftUp(n, w - 1)
  }

  /** `n >> w`. */
  function ShiftDown(n: nat, w: nat): (r: nat)
    ensures r <= n
  {
    if w == 0 then n else ShiftDown(n / 2, w - 1)
  }

  /** Shifting up by `w` moves every digit up by `w` and fills with zeros. */
  lemma {:induction false} ShiftUpDigits(n: nat, w: nat, k: nat)
    ensures Bit(ShiftUp(n, w), k) == if k < w then 0 else Bit(n, k - w)
    decreases w
  {
    if w > 0 {
      var m := ShiftUp(n, w - 1);
      Halves(m, 0);
      if k > 0 {
        ShiftUpDigits(n, w - 1, k - 1);
      }
    }
  }

  /** Shifting up by `w` adds `w` to the width. */
  lemma {:induction false} ShiftUpWidth(n: nat, v: nat, w: nat)
    requires n < Pow2(v)
    ensures ShiftUp(n, w) < Pow2(v + w)
    decreases w
  {
    if w > 0 {
      ShiftUpWidth(n, v, w - 1);
    }
  }

  /** Shifting down by `w` moves every digit down by `w`. */
  lemma {:induction false} ShiftDownDigits(n: nat, w: nat, k: nat)
    ensures Bit(ShiftDown(n, w), k) == Bit(n, k + w)
    decreases w
  {
    if w > 0 {
      ShiftDownDigits(n / 2, w - 1, k);
    }
  }

  /** A sprite byte placed in a row so that its leftmost pixel is column
      `x`: the byte widened to 64 bits, shifted up by 56 and down by `x`. */
  function SpriteMask(b: Byte, x: nat): Row
    requires x < Width
  {
    Pow2Byte();
    Pow2Word();
    ShiftUpWidth(b, 8, 56);
    ShiftDown(ShiftUp(b, 56), x)
  }

  /** The placed sprite lights exactly columns x to x + 7 as the sprite byte
      does, and nothing left of x; columns past 63 are cut off, so nothing
      wraps around to the left edge. */
  lemma SpriteMaskPixel(b: Byte, x: nat, c: nat)
    requires x < Width && c < Width
    ensures Pixel(SpriteMask(b, x), c) <==> x <= c < x + 8 && SpriteBit(b, c - x)
  {
    ShiftDownDigits(ShiftUp(b, 56), x, 63 - c);
    ShiftUpDigits(b, 56, 63 - c + x);
    if c < x {
      Pow2Byte();
      DigitsAbove(b, 8, 7 + x - c);
    }
  }

  /** A row XORed with a mask is a row again. */
  function XorRow(row: Row, m: Row): Row
  {
    Pow2Word();
    XorWidth(row, m, 64);
    Xor(row, m)
  }

  /** XOR flips exactly the pixels lit in the mask. */
  lemma XorPixel(row: Row, m: Row, c: nat)
    requires c < Width
    ensures Pixel(XorRow(row, m), c) <==> Pixel(row, c) != Pixel(m, c)
  {
    BitwiseDigits(row, m, 63 - c);
  }

  /** XORing the same mask twice restores the row. */
  lemma XorRowTwice(row: Row, m: Row)
    ensures XorRow(XorRow(row, m), m) == row
  {
    XorSelfInverse(row, m);
  }

  /** The collision test of DXYN on one row: `old & new < old`. */
  predicate Erases(before: nat, after: nat)
  {
    And(before, after) < before
  }

  /** The collision test holds exactly when some pixel that was lit is dark
      afterwards. */
  lemma ErasesIff(before: Row, after: Row)
    ensures Erases(before, after) <==> exists c: nat :: c < Width && Pixel(before, c) && !Pixel(after, c)
  {
    AndBelow(before, after);
    AndKeepsDigits(before, after);
    if Erases(before, after) {
      var k: nat :| Bit(before, k) == 1 && Bit(after, k) != 1;
      if k >= 64 {
        Pow2Word();
        DigitsAbove(before, 64, k);
      }
      assert Pixel(before, 63 - k) && !Pixel(after, 63 - k);
    }
    if exists c: nat :: c < Width && Pixel(before, c) && !Pixel(after, c) {
      var c: nat :| c < Width && Pixel(before, c) && !Pixel(after, c);
      LostDigitErases(before, after, 63 - c);
    }
  }

  /** A digit set before and clear after fails the collision test. */
  lemma LostDigitErases(before: nat, after: nat, k: nat)
    requires Bit(before, k) == 1 && Bit(after, k) != 1
    ensures Erases(before, after)
  {
    AndBelow(before, after);
    AndKeepsDigits(before, after);
  }

  /** The row loop of DXYN, whatever a row is: rows `i` to `hi - 1` are
      replaced in order by `f(row, index)`, and `flag` accumulates
      `hit(before, after)` of each replaced row. */
  function RowLoop<T>(rows: seq<T>, f: (T, nat) -> T, hit: (T, T) -> bool, i: nat, hi: nat, flag: bool)
    : (r: (seq<T>, bool))
    requires i <= hi <= |rows|
    ensures |r.0| == |rows|
    decreases hi - i
  {
    if i == hi then (rows, flag)
    else
      var before := rows[i];
      var after := f(before, i);
      RowLoop(rows[i := after], f, hit, i + 1, hi, flag || hit(before, after))
  }

  /** Every row of the range is replaced by `f` of its value before the loop
      (no row is visited twice), the others are kept, and the flag ends set
      iff it started set or some row of the range was hit. */
  lemma {:induction false} RowLoopEffect<T>(rows: seq<T>, f: (T, nat) -> T, hit: (T, T) -> bool, i: nat, hi: nat, flag: bool)
    requires i <= hi <= |rows|
    ensures forall r :: 0 <= r < |rows| ==>
              RowLoop(rows, f, hit, i, hi, flag).0[r] == if i <= r < hi then f(rows[r], r) else rows[r]
    ensures RowLoop(rows, f, hit, i, hi, flag).1
            <==> flag || exists r :: i <= r < hi && hit(rows[r], f(rows[r], r))
    decreases hi - i
  {
    if i < hi {
      var rows1 := rows[i := f(rows[i], i)];
      var flag1 := flag || hit(rows[i], f(rows[i], i));
      RowLoopEffect(rows1, f, hit, i + 1, hi, flag1);
      if exists r :: i < r < hi && hit(rows[r], f(rows[r], r)) {
        var r :| i < r < hi && hit(rows[r], f(rows[r], r));
        assert hit(rows1[r], f(rows1[r], r));
      }
      if exists r :: i + 1 <= r < hi && hit(rows1[r], f(rows1[r], r)) {
        var r :| i + 1 <= r < hi && hit(rows1[r], f(rows1[r], r));
        assert hit(rows[r], f(rows[r], r));
      }
    }
  }

  /** The sprite of DXYN: `n` bytes read from I on, each address wrapped to
      the 4 KiB memory. */
  function Sprite(ram: seq<Byte>, I: nat, n: nat): (sprite: seq<Byte>)
    requires |ram| == 0x1000
    ensures |sprite| == n
    ensures forall k :: 0 <= k < n ==> sprite[k] == ram[(I + k) % 0x1000]
  {
    seq(n, k requires 0 <= k => ram[(I + k) % 0x1000])
  }

  /** What DXYN does to screen row `r` when its sprite starts at row `y`. */
  function DrawRow(sprite: seq<Byte>, x: nat, y: nat, row: Row, r: nat): Row
    requires x < Width
  {
    if y <= r < y + |sprite| then XorRow(row, SpriteMask(sprite[r - y], x)) else row
  }

  /** The drawing of DXYN: the sprite's rows XORed into the rows from `y`
      down (the caller has already cut the sprite at the bottom edge), and
      whether any of them failed the collision test. */
  function Draw(fb: seq<Row>, sprite: seq<Byte>, x: nat, y: nat): (r: (seq<Row>, bool))
    requires |fb| == Height && x < Width && y + |sprite| <= Height
    ensures |r.0| == Height
  {
    RowLoop(fb, (row: Row, r: nat) => DrawRow(sprite, x, y, row, r),
            (before: Row, after: Row) => Erases(before, after), y, y + |sprite|, false)
  }

  /** Row by row: the rows the sprite spans are XORed with its placed bytes,
      the others are kept, and the flag is set exactly when one of the
      spanned rows fails the collision test. */
  lemma DrawRows(fb: seq<Row>, sprite: seq<Byte>, x: nat, y: nat)
    requires |fb| == Height && x < Width && y + |sprite| <= Height
    ensures forall r :: 0 <= r < Height ==>
              Draw(fb, sprite, x, y).0[r]
              == if y <= r < y + |sprite| then XorRow(fb[r], SpriteMask(sprite[r - y], x)) else fb[r]
    ensures Draw(fb, sprite, x, y).1
            <==> exists r :: y <= r < y + |sprite| && Erases(fb[r], XorRow(fb[r], SpriteMask(sprite[r - y], x)))
  {
    var f := (row: Row, r: nat) => DrawRow(sprite, x, y, row, r);
    var hit := (before: Row, after: Row) => Erases(before, after);
    RowLoopEffect(fb, f, hit, y, y + |sprite|, false);
  }

  /** Row `r` after the drawing is `DrawRow` of row `r` before it. */
  lemma DrawRowAt(fb: seq<Row>, sprite: seq<Byte>, x: nat, y: nat, r: nat)
    requires |fb| == Height && x < Width && y + |sprite| <= Height && r < Height
    ensures Draw(fb, sprite, x, y).0[r] == DrawRow(sprite, x, y, fb[r], r)
  {
    var f := (row: Row, r: nat) => DrawRow(sprite, x, y, row, r);
    var hit := (before: Row, after: Row) => Erases(before, after);
    RowLoopEffect(fb, f, hit, y, y + |sprite|, false);
  }

  /** Whether the sprite drawn with its top left corner at column `x` and
      row `y` lights pixel `c` of row `r`. */
  predicate Covers(sprite: seq<Byte>, x: nat, y: nat, r: nat, c: nat)
  {
    y <= r < y + |sprite| && x <= c < x + 8 && SpriteBit(sprite[r - y], c - x)
  }

  /** One row: a pixel flips exactly when the sprite lights it. */
  lemma DrawRowPixel(sprite: seq<Byte>, x: nat, y: nat, row: Row, r: nat, c: nat)
    requires x < Width && c < Width
    ensures Pixel(DrawRow(sprite, x, y, row, r), c) <==> Pixel(row, c) != Covers(sprite, x, y, r, c)
  {
    if y <= r < y + |sprite| {
      XorPixel(row, SpriteMask(sprite[r - y], x), c);
      SpriteMaskPixel(sprite[r - y], x, c);
    }
  }

  /** Pixel by pixel: a pixel flips exactly when the sprite lights it. */
  lemma DrawPixel(fb: seq<Row>, sprite: seq<Byte>, x: nat, y: nat, r: nat, c: nat)
    requires |fb| == Height && x < Width && y + |sprite| <= Height
    requires r < Height && c < Width
    ensures Pixel(Draw(fb, sprite, x, y).0[r], c) <==> Pixel(fb[r], c) != Covers(sprite, x, y, r, c)
  {
    DrawRowAt(fb, sprite, x, y, r);
    DrawRowPixel(sprite, x, y, fb[r], r, c);
  }

  /** A row left as it was never fails the collision test. */
  lemma ErasesNothing(row: nat)
    ensures !Erases(row, row)
  {
    AndBelow(row, row);
    AndKeepsDigits(row, row);
  }

  /** The flag is set exactly when some row fails the collision test between
      its value before and after the drawing. */
  lemma DrawFlag(fb: seq<Row>, sprite: seq<Byte>, x: nat, y: nat)
    requires |fb| == Height && x < Width && y + |sprite| <= Height
    ensures Draw(fb, sprite, x, y).1 <==> exists r :: 0 <= r < Height && Erases(fb[r], Draw(fb, sprite, x, y).0[r])
  {
    var f := (row: Row, r: nat) => DrawRow(sprite, x, y, row, r);
    var hit := (before: Row, after: Row) => Erases(before, after);
    RowLoopEffect(fb, f, hit, y, y + |sprite|, false);
    var out := Draw(fb, sprite, x, y);
    if exists r :: 0 <= r < Height && Erases(fb[r], out.0[r]) {
      var r :| 0 <= r < Height && Erases(fb[r], out.0[r]);
      if !(y <= r < y + |sprite|) {
        ErasesNothing(fb[r]);
      }
      assert hit(fb[r], f(fb[r], r));
    }
  }

  /** The collision flag of DXYN is set exactly when some pixel that was lit
      is dark afterwards. */
  lemma DrawCollision(fb: seq<Row>, sprite: seq<Byte>, x: nat, y: nat)
    requires |fb| == Height && x < Width && y + |sprite| <= Height
    ensures Draw(fb, sprite, x, y).1
            <==> exists r: nat, c: nat :: r < Height && c < Width && Pixel(fb[r], c) && !Pixel(Draw(fb, sprite, x, y).0[r], c)
  {
    DrawFlag(fb, sprite, x, y);
    var out := Draw(fb, sprite, x, y).0;
    if exists r :: 0 <= r < Height && Erases(fb[r], out[r]) {
      var r :| 0 <= r < Height && Erases(fb[r], out[r]);
      ErasesIff(fb[r], out[r]);
    }
    if exists r: nat, c: nat :: r < Height && c < Width && Pixel(fb[r], c) && !Pixel(out[r], c) {
      var r: nat, c: nat :| r < Height && c < Width && Pixel(fb[r], c) && !Pixel(out[r], c);
      ErasesIff(fb[r], out[r]);
    }
  }

  /** Drawing the same sprite twice at the same place restores the screen. */
  lemma DrawTwice(fb: seq<Row>, sprite: seq<Byte>, x: nat, y: nat)
    requires |fb| == Height && x < Width && y + |sprite| <= Height
    ensures Draw(Draw(fb, sprite, x, y).0, sprite, x, y).0 == fb
  {
    var once := Draw(fb, sprite, x, y).0;
    var twice := Draw(once, sprite, x, y).0;
    forall r | 0 <= r < Height
      ensures twice[r] == fb[r]
    {
      DrawRowAt(fb, sprite, x, y, r);
      DrawRowAt(once, sprite, x, y, r);
      if y <= r < y + |sprite| {
        XorRowTwice(fb[r], SpriteMask(sprite[r - y], x));
      }
    }
  }
}
