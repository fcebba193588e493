/** Facts about multiplication, division and remainder used by the row-major index proofs. */
module Arith {

  lemma MulMonotone(a: int, b: int, c: int)
    requires a <= b && 0 <= c
    ensures a * c <= b * c
  {
    assert b * c - a * c == (b - a) * c;
  }

  /** Division by a positive number has a unique quotient and remainder. */
  lemma DivModUnique(a: int, b: int, q: int, r: int)
    requires 0 < b && 0 <= r < b && a == q * b + r
    ensures a / b == q && a % b == r
  {
    var q0, r0 := a / b, a % b;
    assert a == q0 * b + r0;
    assert (q - q0) * b == r0 - r;
    if q0 < q {
      MulMonotone(1, q - q0, b);
      assert false;
    } else if q < q0 {
      MulMonotone(1, q0 - q, b);
      assert false;
    }
  }

  /** A value splits into quotient and remainder. */
  lemma DivModSplit(a: int, b: int)
    requires 0 < b
    ensures a == (a / b) * b + a % b && 0 <= a % b < b
  {
  }

  lemma DivNonNegative(a: int, b: int)
    requires 0 <= a && 0 < b
    ensures 0 <= a / b
  {
    DivModSplit(a, b);
    if a / b < 0 {
      MulMonotone(a / b, -1, b);
    }
  }

  /** Row-major indexing: (x, y) in a w×h grid lands inside and decodes back. */
  lemma RowMajor(x: int, y: int, w: int, h: int)
    requires 0 <= x < w && 0 <= y < h
    ensures 0 <= y * w + x < w * h
    ensures (y * w + x) / w == y && (y * w + x) % w == x
  {
    MulMonotone(0, y, w);
    MulMonotone(y + 1, h, w);
    DivModUnique(y * w + x, w, y, x);
  }

  /** Every index of a w×h grid is `row * w + column` with the row below h. */
  lemma RowMajorDecode(k: int, w: int, h: int)
    requires 0 < w && 0 <= k < w * h
    ensures 0 <= k / w < h && 0 <= k % w < w
  {
    DivModSplit(k, w);
    if k / w >= h {
      MulMonotone(h, k / w, w);
      assert false;
    }
    if k / w < 0 {
      MulMonotone(k / w, -1, w);
      assert false;
    }
  }

  lemma DivMonotone(x: int, y: int, b: int)
    requires 0 <= x <= y && 0 < b
    ensures x / b <= y / b
  {
    DivModSplit(x, b);
    DivModSplit(y, b);
    if y / b < x / b {
      MulMonotone(y / b + 1, x / b, b);
      assert false;
    }
  }

  /** X lies in the q-th block of width s exactly when X / s == q. */
  lemma DivBlock(x: int, q: int, s: int)
    requires 0 < s
    ensures (q * s <= x < q * s + s) <==> x / s == q
  {
    DivModSplit(x, s);
    if q * s <= x < q * s + s {
      DivModUnique(x, s, q, x - q * s);
    }
  }
}
