/** The linear congruential generator modulo 2^46 computed in doubles, and skipping ahead in it. */
module Randlc {
  import opened Arith

  const M23 := 8388608
  const M44 := 17592186044416
  const M46 := 70368744177664
  const M53 := 9007199254740992

  // ---------------------------------------------------------------- exact doubles

  /** `m` divided by the `e`-th power of two. */
  ghost function Dyadic(m: int, e: nat): real {
    m as real / Pow2(e) as real
  }

  /** Rounding to a double leaves every number alone that has at most 53 significant bits. */
  ghost predicate Rounds(rnd: real -> real) {
    forall m: int, e: nat | -M53 <= m <= M53 && e <= 1000 :: rnd(Dyadic(m, e)) == Dyadic(m, e)
  }

  lemma Powers()
    ensures Pow2(0) == 1 && Pow2(23) == M23 && Pow2(46) == M46
  {
    assert Pow2(8) == 256 && Pow2(7) == 128;
    Pow2Add(8, 8);
    Pow2Add(16, 7);
    Pow2Add(23, 23);
  }

  lemma Whole(rnd: real -> real, n: int)
    requires Rounds(rnd) && -M53 <= n <= M53
    ensures rnd(n as real) == n as real
  {
    Powers();
    assert Dyadic(n, 0) == n as real;
  }

  lemma Scaled(rnd: real -> real, n: int)
    requires Rounds(rnd) && -M53 <= n <= M53
    ensures rnd(n as real / 8388608.0) == n as real / 8388608.0
    ensures rnd(n as real / 70368744177664.0) == n as real / 70368744177664.0
  {
    Powers();
    assert Dyadic(n, 23) == n as real / 8388608.0;
    assert Dyadic(n, 46) == n as real / 70368744177664.0;
  }

  lemma RealProduct(a: int, b: int)
    ensures a as real * b as real == (a * b) as real
  {
  }

  /** A product of whole numbers. */
  function Mul(rnd: real -> real, x: real, y: real): real {
    rnd(x * y)
  }

  lemma MulWhole(rnd: real -> real, a: int, b: int)
    requires Rounds(rnd) && -M53 <= a * b <= M53
    ensures Mul(rnd, a as real, b as real) == (a * b) as real
  {
    RealProduct(a, b);
    Whole(rnd, a * b);
  }

  /** The constants 2^-23, 2^-46, 2^23 and 2^46, computed in loops. */
  method Constants(rnd: real -> real) returns (r23: real, r46: real, t23: real, t46: real)
    requires Rounds(rnd)
    ensures r23 == 1.0 / 8388608.0 && r46 == 1.0 / 70368744177664.0 && t23 == 8388608.0 && t46 == 70368744177664.0
  {
    hide Rounds, Pow2;
    Powers();
    r23, t23 := Halve(rnd, 23);
    r46, t46 := Halve(rnd, 46);
  }

  method Halve(rnd: real -> real, n: nat) returns (r: real, t: real)
    requires Rounds(rnd) && n <= 46
    ensures r == 1.0 / Pow2(n) as real && t == Pow2(n) as real
  {
    hide Rounds, Pow2, Dyadic, Mul;
    StartPowers();
    r, t := 1.0, 1.0;
    for i := 0 to n
      invariant r == Dyadic(1, i) && t == Pow2(i) as real
    {
      NextPower(rnd, i);
      r := Mul(rnd, 0.5, r);
      t := Mul(rnd, 2.0, t);
    }
    DyadicOne(n);
  }

  lemma StartPowers()
    ensures Dyadic(1, 0) == 1.0 && Pow2(0) as real == 1.0
  {
  }

  lemma DyadicOne(n: nat)
    ensures Dyadic(1, n) == 1.0 / Pow2(n) as real
  {
  }

  lemma NextPower(rnd: real -> real, i: nat)
    requires Rounds(rnd) && i < 46
    ensures Mul(rnd, 0.5, Dyadic(1, i)) == Dyadic(1, i + 1)
    ensures Mul(rnd, 2.0, Pow2(i) as real) == Pow2(i + 1) as real
  {
    hide Rounds, Pow2, Dyadic;
    Powers();
    Pow2Monotone(i + 1, 46);
    Doubling(i);
    HalfDyadic(i);
    ExactDyadic(rnd, 1, i + 1);
    Whole(rnd, Pow2(i + 1));
  }

  lemma ExactDyadic(rnd: real -> real, m: int, e: nat)
    requires Rounds(rnd) && -M53 <= m <= M53 && e <= 1000
    ensures rnd(Dyadic(m, e)) == Dyadic(m, e)
  {
  }

  lemma HalfDyadic(i: nat)
    ensures 0.5 * Dyadic(1, i) == Dyadic(1, i + 1)
  {
    var p := Pow2(i) as real;
    assert Pow2(i + 1) as real == 2.0 * p;
    assert 0.5 * (1.0 / p) == 1.0 / (2.0 * p);
  }

  // ---------------------------------------------------------------- one step of the generator

  /** Multiplication in halves of 23 bits. */
  lemma Halves(a: int, x: int)
    requires 0 <= a < M46 && 0 <= x < M46
    ensures var a1, a2, x1, x2 := a / M23, a % M23, x / M23, x % M23;
            var t1 := a1 * x2 + a2 * x1;
            var t3 := M23 * (t1 % M23) + a2 * x2;
            && 0 <= a1 < M23 && 0 <= a2 < M23 && 0 <= x1 < M23 && 0 <= x2 < M23
            && 0 <= a1 * x2 < M46 && 0 <= a2 * x1 < M46 && 0 <= a2 * x2 < M46
            && 0 <= t1 < 2 * M46 && 0 <= t3 < 2 * M46 && t3 % M46 == a * x % M46
  {
    var a1, a2, x1, x2 := a / M23, a % M23, x / M23, x % M23;
    Small(a1, x2);
    Small(a2, x1);
    Small(a2, x2);
    var t1 := a1 * x2 + a2 * x1;
    var z, q := t1 % M23, t1 / M23;
    var t3 := M23 * z + a2 * x2;
    assert a == M23 * a1 + a2 && x == M23 * x1 + x2 && t1 == M23 * q + z;
    Expand(a1, a2, x1, x2);
    assert a * x == M46 * (a1 * x1) + M23 * t1 + a2 * x2;
    assert a * x == M46 * (a1 * x1 + q) + t3;
    ModAdd(a1 * x1 + q, t3, M46);
  }

  lemma Small(a: int, b: int)
    requires 0 <= a < M23 && 0 <= b < M23
    ensures 0 <= a * b < M46
  {
    Product(a, b);
    Product(M23 - 1 - a, b);
    assert (M23 - 1 - a) * b == (M23 - 1) * b - a * b;
  }

  lemma Product(a: int, b: int)
    requires a >= 0 && b >= 0
    ensures a * b >= 0
  {
  }

  lemma Expand(a1: int, a2: int, x1: int, x2: int)
    ensures (M23 * a1 + a2) * (M23 * x1 + x2) == M46 * (a1 * x1) + M23 * (a1 * x2 + a2 * x1) + a2 * x2
  {
    var x := M23 * x1 + x2;
    assert (M23 * a1 + a2) * x == M23 * (a1 * x) + a2 * x;
    assert a1 * x == M23 * (a1 * x1) + a1 * x2;
    assert a2 * x == M23 * (a2 * x1) + a2 * x2;
  }

  lemma ModAdd(k: int, z: int, m: int)
    requires m > 0
    ensures (m * k + z) % m == z % m
  {
    ModUnique(m * k + z, m, k + z / m, z % m);
  }

  /** The part of a double above the low 23 bits, as an integer, and the part below. */
  method SplitDouble(rnd: real -> real, r23: real, t23: real, ghost n: int, v: real) returns (hi: real, lo: real)
    requires Rounds(rnd) && r23 == 1.0 / 8388608.0 && t23 == 8388608.0 && 0 <= n < 2 * M46 && v == n as real
    ensures hi == (n / M23) as real && lo == (n % M23) as real
  {
    hide Rounds;
    Scaled(rnd, n);
    var t1 := Mul(rnd, r23, v);
    var j := t1.Floor;
    assert j == n / M23;
    hi := j as real;
    MulWhole(rnd, M23, j);
    Whole(rnd, n % M23);
    lo := rnd(v - Mul(rnd, t23, hi));
    assert n as real - (M23 * j) as real == (n % M23) as real;
  }

  /** A sum of two products of whole numbers. */
  method SumOfProducts(rnd: real -> real, a: real, b: real, c: real, d: real, ghost an: int, ghost bn: int,
      ghost cn: int, ghost dn: int)
    returns (t: real)
    requires Rounds(rnd) && a == an as real && b == bn as real && c == cn as real && d == dn as real
    requires 0 <= an * bn <= 2 * M46 && 0 <= cn * dn <= 2 * M46
    ensures t == (an * bn + cn * dn) as real
  {
    hide Rounds, Mul;
    ghost var p, q := an * bn, cn * dn;
    MulWhole(rnd, an, bn);
    MulWhole(rnd, cn, dn);
    Whole(rnd, p + q);
    var x, y := Mul(rnd, a, b), Mul(rnd, c, d);
    assert x == p as real && y == q as real;
    t := rnd(x + y);
    RealSum(p, q);
  }

  lemma RealSum(p: int, q: int)
    ensures p as real + q as real == (p + q) as real
  {
  }

  /** The remainder modulo 2^46, and the same scaled to [0, 1). */
  method LowHalf(rnd: real -> real, r46: real, t46: real, t3: real, ghost n3: int) returns (x: real, r: real)
    requires Rounds(rnd) && r46 == 1.0 / 70368744177664.0 && t46 == 70368744177664.0 && 0 <= n3 < 2 * M46
        && t3 == n3 as real
    ensures x == (n3 % M46) as real && r == x / 70368744177664.0
  {
    hide Rounds;
    Scaled(rnd, n3);
    var j := Mul(rnd, r46, t3).Floor;
    assert j == n3 / M46;
    MulWhole(rnd, M46, j);
    Whole(rnd, n3 % M46);
    x := rnd(t3 - Mul(rnd, t46, j as real));
    assert n3 as real - (M46 * j) as real == (n3 % M46) as real;
    Scaled(rnd, n3 % M46);
    r := Mul(rnd, r46, x);
  }

  /** One step: `x` becomes `a * x` modulo 2^46, exactly, and the result is `x` scaled to [0, 1). */
  method Step(rnd: real -> real, ghost xn: int, x: real, ghost an: int, a: real) returns (x': real, r: real)
    requires Rounds(rnd) && 0 <= xn < M46 && x == xn as real && 0 <= an < M46 && a == an as real
    ensures x' == (an * xn % M46) as real && r == x' / 70368744177664.0
  {
    hide Rounds;
    var r23, r46, t23, t46 := Constants(rnd);
    Halves(an, xn);
    ghost var b1, b2, y1, y2 := an / M23, an % M23, xn / M23, xn % M23;
    var a1, a2 := SplitDouble(rnd, r23, t23, an, a);
    var x1, x2 := SplitDouble(rnd, r23, t23, xn, x);
    var t1 := SumOfProducts(rnd, a1, x2, a2, x1, b1, y2, b2, y1);
    var t2, z := SplitDouble(rnd, r23, t23, b1 * y2 + b2 * y1, t1);
    ghost var zn := (b1 * y2 + b2 * y1) % M23;
    var t3 := SumOfProducts(rnd, t23, z, a2, x2, M23, zn, b2, y2);
    x', r := LowHalf(rnd, r46, t46, t3, M23 * zn + b2 * y2);
  }

  // ---------------------------------------------------------------- skipping ahead

  function Power(a: int, k: nat): int {
    if k == 0 then 1 else a * Power(a, k - 1)
  }

  lemma {:induction false} PowerAdd(a: int, j: nat, k: nat)
    ensures Power(a, j + k) == Power(a, j) * Power(a, k)
  {
    if j > 0 {
      PowerAdd(a, j - 1, k);
      var p, q := Power(a, j - 1), Power(a, k);
      assert a * (p * q) == (a * p) * q;
    }
  }

  /** The state of the generator after `k` single steps. */
  function After(s: int, a: int, k: nat): int {
    if k == 0 then s else a * After(s, a, k - 1) % M46
  }

  lemma MulMod(x: int, y: int, m: int)
    requires m > 0
    ensures (x % m) * y % m == x * y % m
  {
    var q, r := x / m, x % m;
    assert x == m * q + r;
    assert x * y == m * (q * y) + r * y by {
      assert (m * q + r) * y == (m * q) * y + r * y;
      assert (m * q) * y == m * (q * y);
    }
    ModAdd(q * y, r * y, m);
  }

  lemma MulModBoth(x: int, y: int, m: int)
    requires m > 0
    ensures (x % m) * (y % m) % m == x * y % m
  {
    MulMod(x, y % m, m);
    MulMod(y, x, m);
    assert x * (y % m) == (y % m) * x && y * x == x * y;
  }

  lemma {:induction false} AfterIsPower(s: int, a: int, k: nat)
    requires 0 <= s < M46
    ensures After(s, a, k) == s * Power(a, k) % M46
  {
    if k > 0 {
      AfterIsPower(s, a, k - 1);
      OneMoreFactor(s, a, Power(a, k - 1));
    }
  }

  lemma OneMoreFactor(s: int, a: int, p: int)
    ensures a * (s * p % M46) % M46 == s * (a * p) % M46
  {
    var x := s * p;
    MulMod(x, a, M46);
    assert a * (x % M46) == (x % M46) * a;
    assert x * a == s * (a * p);
  }

  /** Squaring doubles the exponent. */
  lemma SquareStep(a: int, w: nat)
    ensures var t := Power(a, w) % M46;
            t * t % M46 == Power(a, 2 * w) % M46
  {
    PowerAdd(a, w, w);
    MulModBoth(Power(a, w), Power(a, w), M46);
  }

  /** Multiplying adds to the exponent. */
  lemma MultiplyStep(s: int, a: int, e: nat, w: nat)
    ensures (Power(a, w) % M46) * (s * Power(a, e) % M46) % M46 == s * Power(a, e + w) % M46
  {
    PowerAdd(a, e, w);
    MulModBoth(Power(a, w), s * Power(a, e), M46);
    assert Power(a, w) * (s * Power(a, e)) == s * (Power(a, e) * Power(a, w));
  }

  /** The exponent of the largest power of two that is not above `n`; zero for `n` below two. */
  ghost predicate IsLog(n: int, mq: nat) {
    Pow2(mq) <= (if n < 1 then 1 else n) < Pow2(mq + 1)
  }

  /** How often `n` can be halved until nothing above one is left. */
  ghost function FloorLog(n: int): nat {
    if n <= 1 then 0 else 1 + FloorLog(n / 2)
  }

  lemma {:induction false} LogUnique(n: int, mq: nat)
    requires n >= 0 && IsLog(n, mq)
    ensures mq == FloorLog(n)
  {
    if n > 1 {
      assert mq > 0;
      Doubling(mq - 1);
      Doubling(mq);
      LogUnique(n / 2, mq - 1);
    }
  }

  lemma {:induction false} FloorLogIsLog(n: int)
    requires n >= 0
    ensures IsLog(n, FloorLog(n))
  {
    if n > 1 {
      FloorLogIsLog(n / 2);
      Doubling(FloorLog(n / 2));
      Doubling(FloorLog(n));
    }
  }

  /** Counts how often `nq` can be halved. */
  method Log(nq0: int) returns (mq: nat)
    requires nq0 >= 0
    ensures IsLog(nq0, mq)
  {
    var nq := nq0;
    mq := 0;
    while nq > 1
      invariant nq >= 0 && (nq0 >= 1 ==> nq >= 1) && (nq0 < 1 ==> nq == nq0 && mq == 0)
      invariant nq0 >= 1 ==> Pow2(mq) * nq <= nq0 < Pow2(mq) * (nq + 1)
      decreases nq
    {
      HalveBounds(Pow2(mq), nq, nq0);
      mq := mq + 1;
      nq := nq / 2;
    }
  }

  lemma HalveBounds(p: int, nq: int, n: int)
    requires p >= 1 && nq >= 2 && p * nq <= n < p * (nq + 1)
    ensures 2 * p * (nq / 2) <= n < 2 * p * (nq / 2 + 1)
  {
    var h, b := nq / 2, nq % 2;
    var u, v := p * h, p * nq;
    Over(p, h, h);
    Over(p, h + h, b);
    Over(p, nq, 1);
    Over(p, h, 1);
    Regroup(p, h);
    Regroup(p, h + 1);
    assert nq == h + h + b && (b == 0 || b == 1);
    assert v == u + u + p * b;
    assert b == 0 ==> p * b == 0;
    assert b == 1 ==> p * b == p;
  }

  lemma Over(p: int, x: int, y: int)
    ensures p * (x + y) == p * x + p * y
  {
  }

  lemma Regroup(p: int, h: int)
    ensures 2 * p * h == 2 * (p * h)
  {
  }

  /** Raises the multiplier to the power `2^mq` by squaring. */
  method RaiseByTwos(rnd: real -> real, ghost an: int, a: real, mq: nat) returns (t: real)
    requires Rounds(rnd) && 0 <= an < M46 && a == an as real
    ensures t == (Power(an, Pow2(mq)) % M46) as real
  {
    hide Rounds, Power;
    t := a;
    assert Power(an, 1) == an by { PowerOne(an); }
    ghost var w: nat := 1;
    for i := 0 to mq
      invariant w == Pow2(i) && t == (Power(an, w) % M46) as real
    {
      SquareStep(an, w);
      var r;
      t, r := Step(rnd, Power(an, w) % M46, t, Power(an, w) % M46, t);
      w := 2 * w;
    }
  }

  lemma PowerOne(a: int)
    ensures Power(a, 0) == 1 && Power(a, 1) == a
  {
  }

  /** The seed of processor `kn`: the state after `kn * 2^mq` steps, where `2^mq` is the largest power of two not above
      the length `nn / np` of a subsequence. */
  method FindMySeed(rnd: real -> real, kn: int, np: int, nn: int, ghost sn: int, s: real, ghost an: int, a: real)
    returns (t1: real)
    requires Rounds(rnd) && 0 <= sn < M46 && s == sn as real && 0 <= an < M46 && a == an as real
    requires 0 <= kn < Pow2(63) && np >= 1 && nn >= 0
    ensures t1 == After(sn, an, kn * Pow2(FloorLog(nn / np))) as real
  {
    hide Rounds, Power, After, IsLog, Pow2, FloorLog;
    var mq := Log(nn / np);
    LogUnique(nn / np, mq);
    var an' := RaiseByTwos(rnd, an, a, mq);
    t1 := RaiseTo(rnd, kn, sn, s, an, Pow2(mq), an');
  }

  /** Multiplies the seed by the `kn`-th power of a multiplier, by repeated squaring. */
  method RaiseTo(rnd: real -> real, kn: int, ghost sn: int, s: real, ghost an: int, ghost w0: nat, a: real)
    returns (t1: real)
    requires Rounds(rnd) && 0 <= sn < M46 && s == sn as real && w0 >= 1 && a == (Power(an, w0) % M46) as real
    requires 0 <= kn < Pow2(63)
    ensures kn * w0 >= 0 && t1 == After(sn, an, kn * w0) as real
  {
    hide Rounds, Power, After, Pow2;
    PowerOne(an);
    Product(kn, w0);
    ghost var w, e, bits: nat := w0, 0, 63;
    var t2, kk, i := a, kn, 1;
    t1 := s;
    while i <= 100
      invariant 1 <= i <= 64 && bits == 64 - i && 0 <= kk < Pow2(bits) && w >= 1 && Left(kn, w0, e, kk, w)
      invariant t1 == (sn * Power(an, e) % M46) as real && t2 == (Power(an, w) % M46) as real
      decreases 101 - i
    {
      var ik := kk / 2;
      var r;
      NextBit(kn, w0, e, kk, w, bits);
      if 2 * ik != kk {
        MultiplyStep(sn, an, e, w);
        t1, r := Step(rnd, sn * Power(an, e) % M46, t1, Power(an, w) % M46, t2);
        e := e + w;
      }
      if ik == 0 {
        break;
      }
      SquareStep(an, w);
      t2, r := Step(rnd, Power(an, w) % M46, t2, Power(an, w) % M46, t2);
      w := 2 * w;
      kk := ik;
      bits := bits - 1;
      i := i + 1;
    }
    AfterIsPower(sn, an, kn * w0);
  }

  /** `e` of the steps are done, and `kk` multiples of `w` are left. */
  ghost predicate Left(kn: int, w0: int, e: int, kk: int, w: int) {
    e + kk * w == kn * w0
  }

  lemma NextBit(kn: int, w0: int, e: int, kk: int, w: int, bits: nat)
    requires Left(kn, w0, e, kk, w) && 0 <= kk < Pow2(bits)
    ensures Left(kn, w0, if kk % 2 == 1 then e + w else e, kk / 2, 2 * w)
    ensures kk / 2 == 0 ==> (if kk % 2 == 1 then e + w else e) == kn * w0
    ensures kk / 2 > 0 ==> bits >= 2
    ensures bits >= 1 ==> kk / 2 < Pow2(bits - 1)
  {
    var ik := kk / 2;
    if kk % 2 == 1 {
      TakeOne(kk, ik, w);
    } else {
      TakeNone(kk, ik, w);
    }
    assert ik == 0 ==> ik * (2 * w) == 0;
    if bits >= 1 {
      Doubling(bits - 1);
    }
  }

  lemma TakeOne(kk: int, ik: int, w: int)
    requires kk == 2 * ik + 1
    ensures kk * w == w + ik * (2 * w)
  {
  }

  lemma TakeNone(kk: int, ik: int, w: int)
    requires kk == 2 * ik
    ensures kk * w == ik * (2 * w)
  {
  }

  // ---------------------------------------------------------------- the period

  /** `x` can be halved `n` times. */
  ghost predicate Halvable(x: int, n: nat)
    decreases n
  {
    n == 0 || (x % 2 == 0 && Halvable(x / 2, n - 1))
  }

  lemma {:induction false} HalvableIsMultiple(x: int, n: nat)
    ensures Halvable(x, n) <==> x % Pow2(n) == 0
    decreases n
  {
    if n > 0 {
      HalvableIsMultiple(x / 2, n - 1);
      ModTwice(x, Pow2(n - 1));
    }
  }

  lemma OddProduct(x: int, y: int)
    requires y % 2 == 1
    ensures x * y % 2 == x % 2
  {
    var u, v := x / 2, y / 2;
    assert x * y == 2 * (x * v) + x;
  }

  lemma {:induction false} OddFactor(x: int, o: int, n: nat)
    requires o % 2 == 1
    ensures Halvable(x * o, n) <==> Halvable(x, n)
    decreases n
  {
    if n > 0 {
      OddProduct(x, o);
      if x % 2 == 0 {
        var y := x / 2;
        assert x * o == 2 * (y * o);
        OddFactor(y, o, n - 1);
      }
    }
  }

  lemma HalvableDouble(x: int, n: nat)
    requires n > 0
    ensures Halvable(2 * x, n) <==> Halvable(x, n - 1)
  {
    assert 2 * x % 2 == 0 && 2 * x / 2 == x;
  }

  lemma {:induction false} HalvableMore(x: int, m: nat, n: nat)
    requires m <= n
    ensures Halvable(x, n) ==> Halvable(x, m)
    decreases n
  {
    if m > 0 && x % 2 == 0 {
      HalvableMore(x / 2, m - 1, n - 1);
    }
  }

  lemma {:induction false} HalvableTimes(x: int, y: int, n: nat)
    requires Halvable(x, n)
    ensures Halvable(y * x, n)
    decreases n
  {
    if n > 0 {
      var h := x / 2;
      assert y * x == 2 * (y * h);
      HalvableTimes(h, y, n - 1);
      HalvableDouble(y * h, n);
    }
  }

  lemma {:induction false} HalvableSum(x: int, y: int, n: nat)
    requires Halvable(x, n)
    ensures Halvable(x + y, n) <==> Halvable(y, n)
    decreases n
  {
    if n > 0 && y % 2 == 0 {
      assert (x + y) / 2 == x / 2 + y / 2;
      HalvableSum(x / 2, y / 2, n - 1);
    }
  }

  lemma HalvableNone(x: int)
    ensures Halvable(x, 0)
  {
  }

  lemma HalvableParity(d: nat, k: nat)
    requires k > 0
    ensures Halvable(d, k) <==> d % 2 == 0 && Halvable(d / 2, k - 1)
  {
  }

  /** `p` is 1 modulo the `n`-th power of two. */
  ghost predicate NearOne(p: int, n: nat) {
    Halvable(p - 1, n)
  }

  lemma NextLess(p: int, q: int)
    ensures p * q - 1 == p * (q - 1) + (p - 1)
  {
  }

  /** A power of a number near 1 is as near. */
  lemma {:induction false} PowerStaysNear(p: int, d: nat, n: nat)
    requires NearOne(p, n)
    ensures NearOne(Power(p, d), n)
  {
    hide Halvable;
    if d == 0 {
      HalvableZero(n);
    } else {
      var q := Power(p, d - 1);
      PowerStaysNear(p, d - 1, n);
      NextLess(p, q);
      HalvableTimes(q - 1, p, n);
      HalvableSum(p * (q - 1), p - 1, n);
    }
  }

  lemma {:induction false} HalvableZero(n: nat)
    ensures Halvable(0, n)
  {
    if n > 0 {
      HalvableZero(n - 1);
    }
  }

  lemma {:induction false} PowerOfSquare(p: int, e: nat)
    ensures Power(p * p, e) == Power(p, 2 * e)
  {
    if e > 0 {
      PowerOfSquare(p, e - 1);
      var q := Power(p, 2 * e - 2);
      assert Power(p, 2 * e) == p * (p * q);
      assert (p * p) * q == p * (p * q);
    }
  }

  lemma Square(p: int) returns (o: int)
    requires p % 4 == 1
    ensures o % 2 == 1 && p * p - 1 == 2 * ((p - 1) * o)
  {
    o := (p + 1) / 2;
    assert p == 2 * o - 1;
    assert (p - 1) * (2 * o) == 2 * ((p - 1) * o);
    assert (p - 1) * (p + 1) == p * p - 1;
  }

  /** Squaring a number that is 1 modulo 4 takes it one factor of two nearer to 1. */
  lemma SquareGains(p: int, n: nat)
    requires p % 4 == 1
    ensures NearOne(p * p, n + 1) <==> NearOne(p, n)
  {
    hide Halvable;
    var o := Square(p);
    HalvableDouble((p - 1) * o, n + 1);
    OddFactor(p - 1, o, n);
  }

  lemma SquareModFour(p: int)
    requires p % 2 == 1
    ensures p * p % 4 == 1
  {
    var h := p / 2;
    assert p == 2 * h + 1;
    assert p * p == 4 * (h * h + h) + 1 by { assert (2 * h + 1) * (2 * h + 1) == 4 * (h * h) + 4 * h + 1; }
    ModAdd(h * h + h, 1, 4);
  }

  /** An odd power of a number is no nearer to 1 than the number, whose square is nearer. */
  lemma OddPower(p: int, e: nat, n: nat)
    requires NearOne(p * p, n)
    ensures NearOne(Power(p, 2 * e + 1), n) <==> NearOne(p, n)
  {
    hide Halvable;
    var q := Power(p, 2 * e);
    PowerOfSquare(p, e);
    PowerStaysNear(p * p, e, n);
    NextLess(p, q);
    HalvableTimes(q - 1, p, n);
    HalvableSum(p * (q - 1), p - 1, n);
  }

  /** If `p` is near 1 by exactly `v` factors of two, then `p^d` is by exactly as many more as `d` has. */
  lemma {:induction false} PowerNearOne(p: int, v: nat, d: nat, n: nat)
    requires p % 4 == 1 && v <= n && NearOne(p, v) && !NearOne(p, v + 1)
    ensures NearOne(Power(p, d), n) <==> Halvable(d, n - v)
    decreases n - v
  {
    hide Power, Halvable, NearOne;
    if n == v {
      PowerStaysNear(p, d, v);
      HalvableNone(d);
    } else {
      var e := d / 2;
      HalvableParity(d, n - v);
      SquareGains(p, v);
      if d % 2 == 1 {
        assert d == 2 * e + 1;
        OddPower(p, e, v + 1);
        NotNearer(Power(p, d), v + 1, n);
      } else {
        assert d == 2 * e;
        PowerOfSquare(p, e);
        SquareGains(p, v + 1);
        SquareModFour(p);
        PowerNearOne(p * p, v + 1, e, n);
      }
    }
  }

  lemma NotNearer(p: int, m: nat, n: nat)
    requires m <= n && !NearOne(p, m)
    ensures !NearOne(p, n)
  {
    HalvableMore(p - 1, m, n);
  }

  /** How often `x` can be halved, at most `n` times. */
  function TwosIn(x: int, n: nat): (v: nat)
    ensures v <= n
    decreases n
  {
    if n == 0 || x % 2 == 1 then 0 else 1 + TwosIn(x / 2, n - 1)
  }

  lemma {:induction false} TwosAre(x: int, n: nat)
    ensures Halvable(x, TwosIn(x, n)) && (TwosIn(x, n) < n ==> !Halvable(x, TwosIn(x, n) + 1))
    decreases n
  {
    if n > 0 && x % 2 == 0 {
      TwosAre(x / 2, n - 1);
    }
  }

  /** After how many steps a sequence of odd numbers repeats: a multiplier that has `v` factors of two in what it
      exceeds 1 by, or falls short of the next multiple of four by, has period 2^(46 - v), but at least 2 in the second
      case. */
  function PeriodOf(a: int): int {
    if a % 4 == 1 then Pow2(46 - TwosIn(a - 1, 46))
    else Pow2(if TwosIn(a + 1, 46) == 46 then 1 else 46 - TwosIn(a + 1, 46))
  }

  lemma PeriodNearOne(a: int, d: nat)
    requires a % 4 == 1
    ensures NearOne(Power(a, d), 46) <==> d % PeriodOf(a) == 0
  {
    hide Power, Halvable, Pow2, TwosIn;
    var v := TwosIn(a - 1, 46);
    TwosAre(a - 1, 46);
    HalvableIsMultiple(d, 46 - v);
    if v == 46 {
      PowerStaysNear(a, d, 46);
      HalvableNone(d);
    } else {
      PowerNearOne(a, v, d, 46);
    }
  }

  lemma SquareFromBelow(a: int) returns (o: int)
    requires a % 4 == 3
    ensures o % 2 == 1 && a * a - 1 == 2 * ((a + 1) * o) && (a - 1) % 4 == 2
  {
    o := (a - 1) / 2;
    assert a == 2 * o + 1;
    assert (a + 1) * (2 * o) == 2 * ((a + 1) * o);
    assert (a + 1) * (a - 1) == a * a - 1;
  }

  lemma ThreeModFour(a: int, v: nat)
    requires a % 4 == 3
    ensures NearOne(a * a, v + 1) <==> Halvable(a + 1, v)
    ensures !NearOne(a, 2)
  {
    hide Halvable;
    var o := SquareFromBelow(a);
    HalvableDouble((a + 1) * o, v + 1);
    OddFactor(a + 1, o, v);
    NotFour(a - 1);
  }

  lemma NotFour(x: int)
    requires x % 4 == 2
    ensures !Halvable(x, 2)
  {
    var h := x / 2;
    assert h % 2 == 1;
    assert !Halvable(h, 1);
  }

  lemma PeriodFromBelow(a: int, d: nat)
    requires a % 4 == 3
    ensures NearOne(Power(a, d), 46) <==> d % PeriodOf(a) == 0
  {
    hide Power, Halvable, Pow2, TwosIn, NearOne;
    var v, e := TwosIn(a + 1, 46), d / 2;
    var k := if v == 46 then 1 else 46 - v;
    HalvableIsMultiple(d, k);
    HalvableParity(d, k);
    if d % 2 == 1 {
      assert d == 2 * e + 1;
      ThreeModFour(a, 1);
      OnceHalvable(a + 1);
      OddPower(a, e, 2);
      NotNearer(Power(a, d), 2, 46);
    } else {
      assert d == 2 * e;
      EvenFromBelow(a, e, v, k);
    }
  }

  lemma EvenFromBelow(a: int, e: nat, v: nat, k: nat)
    requires a % 4 == 3 && v == TwosIn(a + 1, 46) && k == if v == 46 then 1 else 46 - v
    ensures NearOne(Power(a, 2 * e), 46) <==> Halvable(e, k - 1)
  {
    hide Power, Halvable, TwosIn, NearOne;
    TwosAre(a + 1, 46);
    PowerOfSquare(a, e);
    if v == 46 {
      HalvableNone(e);
      ThreeModFour(a, 45);
      Weaken(a + 1, 45, 46);
      PowerStaysNear(a * a, e, 46);
    } else {
      ThreeModFour(a, v);
      ThreeModFour(a, v + 1);
      SquareModFour(a);
      PowerNearOne(a * a, v + 1, e, 46);
    }
  }

  lemma Weaken(x: int, m: nat, n: nat)
    requires m <= n && Halvable(x, n)
    ensures Halvable(x, m)
  {
    HalvableMore(x, m, n);
  }

  lemma OnceHalvable(x: int)
    ensures x % 4 == 0 ==> Halvable(x, 1)
  {
    if x % 4 == 0 {
      HalvableNone(x / 2);
    }
  }

  lemma ManyHalvings(x: int)
    ensures Halvable(x, 46) <==> x % M46 == 0
  {
    hide Halvable, Pow2;
    Powers();
    HalvableIsMultiple(x, 46);
  }

  /** Two states of a sequence of odd numbers are equal exactly when the power of the multiplier between them is 1. */
  lemma StatesEqual(s: int, a: int, x: nat, y: nat)
    requires 0 <= s < M46 && s % 2 == 1 && a % 2 == 1 && x <= y
    ensures After(s, a, x) == After(s, a, y) <==> NearOne(Power(a, y - x), 46)
  {
    hide Power, After, Halvable;
    AfterIsPower(s, a, x);
    AfterIsPower(s, a, y);
    PowerAdd(a, x, y - x);
    OddPowers(a, x);
    Factored(s, Power(a, x), Power(a, y - x));
  }

  lemma {:induction false} OddPowers(a: int, d: nat)
    requires a % 2 == 1
    ensures Power(a, d) % 2 == 1
  {
    if d > 0 {
      OddPowers(a, d - 1);
      OddProduct(a, Power(a, d - 1));
    }
  }

  lemma Factored(s: int, p: int, q: int)
    requires s % 2 == 1 && p % 2 == 1
    ensures s * p % M46 == s * (p * q) % M46 <==> Halvable(q - 1, 46)
  {
    hide Halvable;
    var t := s * p;
    assert s * (p * q) == t * q;
    assert t * q - t == (q - 1) * t;
    SameRemainder(t, t * q, M46);
    OddProduct(s, p);
    ManyHalvings((q - 1) * t);
    OddFactor(q - 1, t, 46);
  }

  lemma OddResidues(a: int)
    requires a % 2 == 1
    ensures a % 4 == 1 || a % 4 == 3
  {
  }

  /** From an odd seed, with an odd multiplier, states repeat every `PeriodOf(a)` steps and never earlier. */
  lemma Period(s: int, a: int, x: nat, y: nat)
    requires 0 <= s < M46 && s % 2 == 1 && a % 2 == 1 && x <= y
    ensures PeriodOf(a) > 0
    ensures After(s, a, x) == After(s, a, y) <==> (y - x) % PeriodOf(a) == 0
  {
    hide Power, After, NearOne, PeriodOf;
    PeriodPositive(a);
    StatesEqual(s, a, x, y);
    OddResidues(a);
    if a % 4 == 1 {
      PeriodNearOne(a, y - x);
    } else {
      PeriodFromBelow(a, y - x);
    }
  }

  lemma PeriodPositive(a: int)
    ensures PeriodOf(a) > 0
  {
  }

  /** An odd multiplier gives the promised 2^44 numbers before repeating exactly when it is 3 or 5 modulo 8; no odd
      multiplier gives more. */
  lemma FullPeriod(a: int)
    requires a % 2 == 1
    ensures PeriodOf(a) == M44 <==> a % 8 == 3 || a % 8 == 5
    ensures PeriodOf(a) <= M44
  {
    hide Pow2, TwosIn;
    PowersNear44();
    OddResidues(a);
    var x := if a % 4 == 1 then a - 1 else a + 1;
    var v := TwosIn(x, 46);
    assert x % 4 == 0;
    TwosOfFour(x, 46);
    assert v == 2 <==> x % 8 == 4;
    var k := if a % 4 == 3 && v == 46 then 1 else 46 - v;
    assert PeriodOf(a) == Pow2(k) && k <= 44;
    Pow2Monotone(k, 44);
    if k < 44 {
      Pow2Monotone(k, 43);
    }
  }

  lemma TwosOfFour(x: int, n: nat)
    requires x % 4 == 0 && n >= 3
    ensures TwosIn(x, n) >= 2 && (TwosIn(x, n) == 2 <==> x % 8 == 4)
  {
    var h := x / 2;
    var q := h / 2;
    assert x % 2 == 0 && h % 2 == 0 && x == 4 * q;
    assert TwosIn(x, n) == 1 + TwosIn(h, n - 1) && TwosIn(h, n - 1) == 1 + TwosIn(q, n - 2);
    assert q % 2 == 1 <==> x % 8 == 4;
  }

  lemma PowersNear44()
    ensures Pow2(44) == M44 && Pow2(43) == M44 / 2
  {
    Powers();
    Pow2Add(44, 2);
    assert Pow2(2) == 4;
    Doubling(43);
  }

  lemma SameRemainder(x: int, y: int, m: int)
    requires m > 0
    ensures x % m == y % m <==> (y - x) % m == 0
  {
    var q := (y - x) / m;
    if (y - x) % m == 0 {
      assert y == m * q + x;
      ModAdd(q, x, m);
    }
    if x % m == y % m {
      var d := y / m - x / m;
      assert y - x == m * d;
      ModUnique(y - x, m, d, 0);
    }
  }

  /** The seed is the promised start of subsequence `kn`, step `kn * nq` for subsequences of length `nq`, exactly when
      the steps it falls short by are a multiple of the period; within one period, exactly when the length is a power of
      two. */
  lemma SeedsAreSpaced(s: int, a: int, kn: nat, nq: int)
    requires 0 <= s < M46 && s % 2 == 1 && a % 2 == 1 && nq >= 1
    ensures PeriodOf(a) > 0 && kn * Pow2(FloorLog(nq)) >= 0 && kn * nq >= 0
    ensures After(s, a, kn * Pow2(FloorLog(nq))) == After(s, a, kn * nq) <==>
        kn * (nq - Pow2(FloorLog(nq))) % PeriodOf(a) == 0
    ensures kn * nq < PeriodOf(a) ==>
      (After(s, a, kn * Pow2(FloorLog(nq))) == After(s, a, kn * nq) <==> kn == 0 || PowerOfTwo(nq))
  {
    hide Pow2, After, FloorLog, PeriodOf, PowerOfTwo;
    FloorLogIsLog(nq);
    var mq := FloorLog(nq);
    var p := Pow2(mq);
    var d := nq - p;
    LogReached(nq, mq);
    Product(kn, p);
    Product(kn, d);
    assert kn * nq == kn * p + kn * d;
    Period(s, a, kn * p, kn * nq);
    if kn * nq < PeriodOf(a) {
      ShortOfPeriod(kn, p, d, PeriodOf(a));
    }
  }

  lemma ShortOfPeriod(kn: nat, p: int, d: int, period: int)
    requires p > 0 && d >= 0 && period > 0 && kn * p + kn * d < period
    ensures kn * d % period == 0 <==> kn == 0 || d == 0
  {
    Product(kn, p);
    Product(kn, d);
    if kn > 0 && d > 0 {
      MulGap(kn, d);
    }
  }

  lemma LogReached(nq: int, mq: nat)
    requires nq >= 1 && IsLog(nq, mq)
    ensures Pow2(mq) <= nq && (Pow2(mq) == nq <==> PowerOfTwo(nq))
  {
    Pow2IsPowerOfTwo(mq);
    Doubling(mq);
    if PowerOfTwo(nq) && Pow2(mq) < nq {
      PowerOfTwoGap(Pow2(mq), nq);
    }
  }

  /** With the constants the source suggests, three numbers for each processor already start processor 1 one step
      early. */
  lemma SeedMisplaced()
    ensures After(314159265, 1220703125, 1 * Pow2(FloorLog(3))) != After(314159265, 1220703125, 1 * 3)
  {
    hide After, Pow2, PeriodOf;
    SeedsAreSpaced(314159265, 1220703125, 1, 3);
    FullPeriod(1220703125);
    assert FloorLog(3) == 1;
    assert !PowerOfTwo(3);
  }

  lemma Doubling(k: nat)
    ensures Pow2(k + 1) == 2 * Pow2(k)
  {
  }
}
