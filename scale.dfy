/** The zoom factor and the Z key that doubles it under an 8-bit mask. */
module Scale {

  predicate IsPowerOfTwo(n: int)
    decreases n
  {
    n == 1 || (n >= 2 && n % 2 == 0 && IsPowerOfTwo(n / 2))
  }

  /** The zoom factors the workspace can hold: 1, 2, 4, ..., 128. */
  predicate ValidScale(s: int) {
    1 <= s <= 128 && IsPowerOfTwo(s)
  }

  function Pow2(k: nat): (r: nat)
    ensures r >= 1
  {
    if k == 0 then 1 else 2 * Pow2(k - 1)
  }

  /** Z: `scale = (scale << 1) & 255`, then 0 becomes 1. For a non-negative `scale` below 2^30
      the shift is a doubling and the mask keeps the remainder modulo 256. */
  function Zoom(scale: int): (r: int)
    requires 0 <= scale < 0x4000_0000
    ensures 1 <= r < 256
  {
    var masked := (2 * scale) % 256;
    if masked == 0 then 1 else masked
  }

  /** `n` presses of Z starting from `scale`. */
  function ZoomPresses(scale: int, n: nat): (r: int)
    requires 0 <= scale < 0x4000_0000
    ensures 1 <= r < 256 || (n == 0 && r == scale)
  {
    if n == 0 then scale else Zoom(ZoomPresses(scale, n - 1))
  }

  /** A power of two strictly below 2m, m itself a power of two, is at most m. */
  lemma {:induction false} PowerOfTwoBelow(n: int, m: int)
    requires IsPowerOfTwo(n) && IsPowerOfTwo(m) && n < 2 * m
    ensures n <= m
    decreases n
  {
    if n != 1 && m != 1 {
      PowerOfTwoBelow(n / 2, m / 2);
    }
  }

  lemma {:induction false} Pow2IsPowerOfTwo(k: nat)
    ensures IsPowerOfTwo(Pow2(k))
  {
    if k > 0 {
      Pow2IsPowerOfTwo(k - 1);
      assert Pow2(k) / 2 == Pow2(k - 1);
    }
  }

  /** Z keeps the scale a power of two in [1, 128]: it doubles it, and 128 wraps to 1. */
  lemma ZoomValid(s: int)
    requires ValidScale(s)
    ensures ValidScale(Zoom(s))
    ensures Zoom(s) == if s == 128 then 1 else 2 * s
  {
    if s != 128 {
      Pow2IsPowerOfTwo(6);
      PowerOfTwoBelow(s, Pow2(6));
      assert (2 * s) / 2 == s;
    }
  }

  /** The first eight powers of two are valid scales, and only the last is 128. */
  lemma {:induction false} Pow2Valid(k: nat)
    requires k < 8
    ensures ValidScale(Pow2(k))
    ensures Pow2(k) == 128 <==> k == 7
  {
    Pow2IsPowerOfTwo(k);
    if k > 0 {
      Pow2Valid(k - 1);
      Pow2IsPowerOfTwo(k - 1);
      Pow2IsPowerOfTwo(6);
      PowerOfTwoBelow(Pow2(k - 1), Pow2(6));
    }
  }

  /** From the initial scale 1, after `n` presses of Z the scale is 2^(n mod 8):
      the sequence 1, 2, 4, ..., 128, 1, 2, ... */
  lemma {:induction false} ZoomCycle(n: nat)
    ensures ZoomPresses(1, n) == Pow2(n % 8)
  {
    if n > 0 {
      ZoomCycle(n - 1);
      var k := (n - 1) % 8;
      Pow2Valid(k);
      ZoomValid(Pow2(k));
      if k == 7 {
        assert n % 8 == 0;
      } else {
        assert n % 8 == k + 1;
      }
    }
  }
}
