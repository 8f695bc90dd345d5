/** Bit strings, most significant bit first, and the numbers they spell. */
module BitStrings {
  import opened Arith

  ghost predicate Bits(bits: seq<int>) {
    forall i | 0 <= i < |bits| :: 0 <= bits[i] <= 1
  }

  /** The number that a bit string spells. */
  ghost function Value(bits: seq<int>): int {
    if bits == [] then 0 else 2 * Value(bits[..|bits| - 1]) + bits[|bits| - 1]
  }

  lemma ValueStep(bits: seq<int>, n: nat)
    requires n < |bits|
    ensures Value(bits[..n + 1]) == 2 * Value(bits[..n]) + bits[n]
  {
    assert bits[..n + 1][..n] == bits[..n];
  }

  lemma {:induction false} ValueBound(bits: seq<int>, n: nat)
    requires Bits(bits) && n <= |bits|
    ensures 0 <= Value(bits[..n]) < Pow2(n)
  {
    if n > 0 {
      ValueBound(bits, n - 1);
      ValueStep(bits, n - 1);
    }
  }

  lemma ValueRange(bits: seq<int>)
    requires Bits(bits)
    ensures 0 <= Value(bits) < Pow2(|bits|)
  {
    ValueBound(bits, |bits|);
    assert bits[..|bits|] == bits;
  }

  lemma {:induction false} ValueConcat(x: seq<int>, y: seq<int>)
    ensures Value(x + y) == Value(x) * Pow2(|y|) + Value(y)
  {
    if y == [] {
      assert x + y == x;
    } else {
      var y' := y[..|y| - 1];
      ValueConcat(x, y');
      assert (x + y)[..|x + y| - 1] == x + y';
      assert Value(x) * Pow2(|y|) == 2 * (Value(x) * Pow2(|y'|));
    }
  }

  /** The low `n` bits of `v`. */
  ghost function BitsOf(n: nat, v: int): (bits: seq<int>)
    ensures |bits| == n && Bits(bits)
  {
    if n == 0 then [] else BitsOf(n - 1, v / 2) + [v % 2]
  }

  lemma {:induction false} BitsOfValue(n: nat, v: int)
    requires 0 <= v < Pow2(n)
    ensures Value(BitsOf(n, v)) == v
  {
    if n > 0 {
      BitsOfValue(n - 1, v / 2);
      var bits := BitsOf(n, v);
      assert bits[..n - 1] == BitsOf(n - 1, v / 2);
    }
  }

  lemma {:induction false} BitsOfSplit(m: nat, k: nat, h: int, l: int)
    requires 0 <= l < Pow2(k)
    ensures BitsOf(m + k, h * Pow2(k) + l) == BitsOf(m, h) + BitsOf(k, l)
  {
    if k > 0 {
      var v, half := h * Pow2(k) + l, h * Pow2(k - 1);
      assert h * Pow2(k) == 2 * half;
      assert v / 2 == half + l / 2 && v % 2 == l % 2;
      BitsOfSplit(m, k - 1, h, l / 2);
    }
  }

  /** Only the low `n` bits of `v` matter. */
  lemma {:induction false} BitsOfMod(n: nat, m: nat, v: int)
    requires n <= m
    ensures BitsOf(n, v % Pow2(m)) == BitsOf(n, v)
  {
    if n > 0 {
      ModTwice(v, Pow2(m - 1));
      BitsOfMod(n - 1, m - 1, v / 2);
    }
  }

  lemma BitsOfLow(m: nat, k: nat, v: int)
    ensures BitsOf(m + k, v) == BitsOf(m, v / Pow2(k)) + BitsOf(k, v)
  {
    hide BitsOf, Pow2;
    BitsOfSplit(m, k, v / Pow2(k), v % Pow2(k));
    BitsOfMod(k, k, v);
  }

  lemma LastByte(m: nat, u: int)
    ensures BitsOf(m + 8, u) == BitsOf(m, u / 256) + BitsOf(8, u)
  {
    assert Pow2(8) == 256;
    BitsOfLow(m, 8, u);
  }

  lemma {:induction false} ValueUnique(x: seq<int>, y: seq<int>)
    requires Bits(x) && Bits(y) && |x| == |y| && Value(x) == Value(y)
    ensures x == y
  {
    if x != [] {
      var x', y' := x[..|x| - 1], y[..|y| - 1];
      ValueUnique(x', y');
      assert x == x' + [x[|x| - 1]] && y == y' + [y[|y| - 1]];
    }
  }

  ghost predicate Bytes(xs: seq<int>) {
    forall i | 0 <= i < |xs| :: 0 <= xs[i] < 256
  }

  /** The bits of a byte string. */
  ghost function BytesBits(xs: seq<int>): (bits: seq<int>)
    ensures |bits| == 8 * |xs| && Bits(bits)
  {
    if xs == [] then [] else BytesBits(xs[..|xs| - 1]) + BitsOf(8, xs[|xs| - 1])
  }

  lemma BytesBitsMore(xs: seq<int>, x: int)
    ensures BytesBits(xs + [x]) == BytesBits(xs) + BitsOf(8, x)
  {
    assert (xs + [x])[..|xs|] == xs;
  }

  lemma BytesBitsNone()
    ensures BytesBits([]) == []
  {
  }

  lemma {:induction false} BytesBitsConcat(xs: seq<int>, ys: seq<int>)
    ensures BytesBits(xs + ys) == BytesBits(xs) + BytesBits(ys)
  {
    hide BytesBits, BitsOf;
    if ys == [] {
      assert xs + ys == xs;
      BytesBitsNone();
      assert BytesBits(xs) + [] == BytesBits(xs);
    } else {
      var ys', y := ys[..|ys| - 1], ys[|ys| - 1];
      BytesBitsConcat(xs, ys');
      assert xs + ys == xs + ys' + [y] && ys == ys' + [y];
      BytesBitsMore(xs + ys', y);
      BytesBitsMore(ys', y);
      assert BytesBits(xs) + BytesBits(ys') + BitsOf(8, y) == BytesBits(xs) + (BytesBits(ys') + BitsOf(8, y));
    }
  }

  lemma SplitEqual(a: seq<int>, b: seq<int>, c: seq<int>, d: seq<int>)
    requires a + c == b + d && |a| == |b|
    ensures a == b && c == d
  {
    assert a == (a + c)[..|a|] && b == (b + d)[..|b|];
    assert c == (a + c)[|a|..] && d == (b + d)[|b|..];
  }

  /** Byte strings with the same bits are the same. */
  lemma {:induction false} BytesBitsUnique(xs: seq<int>, ys: seq<int>)
    requires Bytes(xs) && Bytes(ys) && BytesBits(xs) == BytesBits(ys)
    ensures xs == ys
  {
    hide BytesBits, BitsOf, Value, Pow2;
    assert |xs| == |ys|;
    if xs != [] {
      var xs', ys', x, y := xs[..|xs| - 1], ys[..|ys| - 1], xs[|xs| - 1], ys[|ys| - 1];
      assert xs == xs' + [x] && ys == ys' + [y];
      BytesBitsMore(xs', x);
      BytesBitsMore(ys', y);
      SplitEqual(BytesBits(xs'), BytesBits(ys'), BitsOf(8, x), BitsOf(8, y));
      BytesBitsUnique(xs', ys');
      WordPowers();
      BitsOfValue(8, x);
      BitsOfValue(8, y);
    }
  }

  lemma ByteBetween(a: seq<int>, x: int, c: seq<int>)
    ensures BytesBits(a + [x] + c) == BytesBits(a) + BitsOf(8, x) + BytesBits(c)
  {
    hide BytesBits, BitsOf;
    BytesBitsMore(a, x);
    BytesBitsConcat(a + [x], c);
  }
}
