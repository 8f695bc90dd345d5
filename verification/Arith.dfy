/** Powers of two, bitwise `and` and Euclidean remainders, as the ring buffers and the codec use them. */
module Arith {

  const WORD := 0x1_0000_0000
  const TOP := 0x100_0000

  function Pow2(k: nat): (p: int)
    ensures p >= 1
  {
    if k == 0 then 1 else 2 * Pow2(k - 1)
  }

  predicate PowerOfTwo(n: int) {
    n == 1 || (n > 1 && n % 2 == 0 && PowerOfTwo(n / 2))
  }

  /** Two's-complement `x & y` for a non-negative `y`. */
  function And(x: int, y: nat): (r: int)
    ensures 0 <= r <= y
    decreases y
  {
    if y == 0 then 0 else 2 * And(x / 2, y / 2) + (if x % 2 == 1 && y % 2 == 1 then 1 else 0)
  }

  /** Masking with `n - 1` is the remainder modulo `n`, for every power of two `n`. */
  lemma {:induction false} AndIsMod(x: int, n: int)
    requires PowerOfTwo(n)
    ensures And(x, n - 1) == x % n
    decreases n
  {
    if n != 1 {
      var m := n / 2;
      AndIsMod(x / 2, m);
      assert (n - 1) / 2 == m - 1 && (n - 1) % 2 == 1;
      ModTwice(x, m);
    }
  }

  lemma ModTwice(x: int, m: int)
    requires m > 0
    ensures x % (2 * m) == 2 * ((x / 2) % m) + x % 2
  {
    var q, r := (x / 2) / m, (x / 2) % m;
    assert x == 2 * (m * q + r) + x % 2;
    assert 2 * (m * q) == (2 * m) * q;
    ModUnique(x, 2 * m, q, 2 * r + x % 2);
  }

  /** A non-zero multiple of `n` is at least `n` away from zero. */
  lemma MulGap(n: int, d: int)
    requires n > 0
    ensures d >= 1 ==> n * d >= n
    ensures d <= -1 ==> n * d <= -n
  {
  }

  lemma ModUnique(x: int, n: int, q: int, r: int)
    requires n > 0 && 0 <= r < n && x == n * q + r
    ensures x % n == r && x / n == q
  {
    var d := x / n - q;
    assert n * (x / n) + x % n == n * q + r;
    assert n * d == r - x % n;
    MulGap(n, d);
  }

  /** Two indices less than one lap apart share a slot only if they are equal. */
  lemma SameSlot(a: int, b: int, n: int)
    requires n > 0 && -n < a - b < n && a % n == b % n
    ensures a == b
  {
    var q := a / n - b / n;
    assert a - b == n * q;
    MulGap(n, q);
  }

  lemma ModShift(h: int, i: int, n: int)
    requires n > 0
    ensures (h % n + i) % n == (h + i) % n
  {
    var s := h % n + i;
    assert h + i == n * (h / n) + s;
    assert s == n * (s / n) + s % n;
    assert n * (h / n) + n * (s / n) == n * (h / n + s / n);
    ModUnique(h + i, n, h / n + s / n, s % n);
  }

  lemma {:induction false} Pow2IsPowerOfTwo(k: nat)
    ensures PowerOfTwo(Pow2(k))
  {
    if k != 0 {
      Pow2IsPowerOfTwo(k - 1);
    }
  }

  /** Distinct powers of two differ by a factor of at least two. */
  lemma {:induction false} PowerOfTwoGap(n: int, m: int)
    requires PowerOfTwo(n) && PowerOfTwo(m) && n < m
    ensures 2 * n <= m
  {
    if n != 1 {
      PowerOfTwoGap(n / 2, m / 2);
    }
  }

  lemma {:induction false} Pow2Add(a: nat, b: nat)
    ensures Pow2(a + b) == Pow2(a) * Pow2(b)
  {
    if a != 0 {
      Pow2Add(a - 1, b);
      assert Pow2(a + b) == 2 * Pow2(a - 1 + b);
    }
  }

  lemma {:induction false} Pow2Monotone(a: nat, b: nat)
    requires a <= b
    ensures Pow2(a) <= Pow2(b)
    decreases b
  {
    if a < b {
      Pow2Monotone(a, b - 1);
    }
  }

  /** Masked indices less than one lap apart share a slot only if they are equal. */
  lemma AndDistinct(a: int, b: int, mask: nat)
    requires PowerOfTwo(mask + 1) && a < b <= a + mask
    ensures And(a, mask) != And(b, mask)
  {
    AndIsMod(a, mask + 1);
    AndIsMod(b, mask + 1);
    if a % (mask + 1) == b % (mask + 1) {
      SameSlot(a, b, mask + 1);
    }
  }

  lemma AndShift(h: int, i: int, mask: nat)
    requires PowerOfTwo(mask + 1)
    ensures And(And(h, mask) + i, mask) == And(h + i, mask)
  {
    AndIsMod(h, mask + 1);
    AndIsMod(And(h, mask) + i, mask + 1);
    AndIsMod(h + i, mask + 1);
    ModShift(h, i, mask + 1);
  }

  lemma AndSmall(i: int, mask: nat)
    requires PowerOfTwo(mask + 1) && 0 <= i <= mask
    ensures And(i, mask) == i
  {
    AndIsMod(i, mask + 1);
    ModUnique(i, mask + 1, 0, i);
  }

  /** Bits at or above those of `y` do not matter. */
  lemma {:induction false} AndLowBits(x: int, y: nat, n: int)
    requires PowerOfTwo(n) && y < n
    ensures And(x % n, y) == And(x, y)
    decreases n
  {
    if y != 0 {
      var m := n / 2;
      ModTwice(x, m);
      assert (x % n) / 2 == (x / 2) % m && (x % n) % 2 == x % 2;
      AndLowBits(x / 2, y / 2, m);
    }
  }

  lemma WordPowers()
    ensures Pow2(32) == WORD && Pow2(24) == TOP && Pow2(8) == 256
  {
    assert Pow2(8) == 256;
    Pow2Add(8, 8);
    Pow2Add(16, 8);
    Pow2Add(24, 8);
  }
}
