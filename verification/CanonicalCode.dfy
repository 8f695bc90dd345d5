/** Canonical Huffman codes. */
module CanonicalCode {
  // Assignment of codes, the limit/base/perm tables and the decoding loop.

  import opened Arith
  import opened BitStrings
  import opened HuffmanLengths
  import opened HuffmanTree

  const MAX_CODE_LEN := 23

  /** Code lengths between `minLen` and `maxLen`, at most 20 bits, that satisfy the Kraft inequality. */
  ghost predicate Lengths(len: seq<int>, minLen: int, maxLen: int) {
    && 1 <= minLen <= maxLen <= 20 && 0 < |len| <= MAX_ALPHA
    && (forall i | 0 <= i < |len| :: minLen <= len[i] <= maxLen)
  }

  /** How many of the first `i` symbols have length `n`. */
  ghost function CountTo(len: seq<int>, n: int, i: nat): nat
    requires i <= |len|
  {
    if i == 0 then 0 else CountTo(len, n, i - 1) + (if len[i - 1] == n then 1 else 0)
  }

  ghost function CountOf(len: seq<int>, n: int): nat {
    CountTo(len, n, |len|)
  }

  /** How many symbols are shorter than `n`. */
  ghost function Below(len: seq<int>, n: nat): nat {
    if n == 0 then 0 else Below(len, n - 1) + CountOf(len, n - 1)
  }

  /** The first code of length `n`. */
  ghost function First(len: seq<int>, minLen: int, n: int): nat
    decreases n - minLen
  {
    if n <= minLen then 0 else 2 * (First(len, minLen, n - 1) + CountOf(len, n - 1))
  }

  ghost function CodeOf(len: seq<int>, minLen: int, i: nat): nat
    requires i < |len|
  {
    First(len, minLen, len[i]) + CountTo(len, len[i], i)
  }

  // ---------------------------------------------------------------- counting

  lemma {:induction false} CountMonotone(len: seq<int>, n: int, i: nat, j: nat)
    requires i <= j <= |len|
    ensures CountTo(len, n, i) <= CountTo(len, n, j)
    ensures i < j && len[i] == n ==> CountTo(len, n, i) < CountTo(len, n, j)
    decreases j
  {
    if i < j {
      CountMonotone(len, n, i, j - 1);
    }
  }

  /** Two symbols of one length have different ranks. */
  lemma RankInjective(len: seq<int>, n: int, i: nat, j: nat)
    requires i < |len| && j < |len| && len[i] == len[j] == n && CountTo(len, n, i) == CountTo(len, n, j)
    ensures i == j
  {
    if i < j {
      CountMonotone(len, n, i, j);
    } else if j < i {
      CountMonotone(len, n, j, i);
    }
  }

  /** Every rank below the count belongs to a symbol. */
  lemma {:induction false} RankSurjective(len: seq<int>, n: int, r: nat, i: nat) returns (k: nat)
    requires i <= |len| && r < CountTo(len, n, i)
    ensures k < i && len[k] == n && CountTo(len, n, k) == r
  {
    if len[i - 1] == n && r == CountTo(len, n, i - 1) {
      k := i - 1;
    } else {
      k := RankSurjective(len, n, r, i - 1);
    }
  }

  lemma {:induction false} CountOutside(len: seq<int>, n: int, i: nat)
    requires i <= |len| && forall k | 0 <= k < |len| :: len[k] != n
    ensures CountTo(len, n, i) == 0
  {
    if i > 0 {
      CountOutside(len, n, i - 1);
    }
  }

  lemma {:induction false} BelowMin(len: seq<int>, n: nat)
    requires forall k | 0 <= k < |len| :: len[k] >= n
    ensures Below(len, n) == 0
  {
    if n > 0 {
      BelowMin(len, n - 1);
      CountOutside(len, n - 1, |len|);
    }
  }

  ghost function ShorterTo(len: seq<int>, n: int, i: nat): nat
    requires i <= |len|
    ensures ShorterTo(len, n, i) <= i
  {
    if i == 0 then 0 else ShorterTo(len, n, i - 1) + (if len[i - 1] < n then 1 else 0)
  }

  lemma {:induction false} ShorterStep(len: seq<int>, n: int, i: nat)
    requires i <= |len|
    ensures ShorterTo(len, n + 1, i) == ShorterTo(len, n, i) + CountTo(len, n, i)
  {
    if i > 0 {
      ShorterStep(len, n, i - 1);
    }
  }

  /** There are at most as many shorter symbols as symbols. */
  lemma {:induction false} BelowTotal(len: seq<int>, n: nat)
    ensures Below(len, n) <= ShorterTo(len, n, |len|) <= |len|
  {
    if n > 0 {
      BelowTotal(len, n - 1);
      ShorterStep(len, n - 1, |len|);
    }
  }

  // ---------------------------------------------------------------- the Kraft inequality per level

  /** The part of the Kraft sum that comes from the first `i` symbols of length at most `n`. */
  ghost function KraftTo(len: seq<int>, n: int, d: int, i: nat): int
    requires i <= |len| && forall k | 0 <= k < |len| :: 0 <= len[k] <= d
  {
    if i == 0 then 0 else KraftTo(len, n, d, i - 1) + (if len[i - 1] <= n then Pow2(d - len[i - 1]) else 0)
  }

  lemma {:induction false} KraftLevel(len: seq<int>, n: nat, d: int, i: nat)
    requires i <= |len| && 1 <= n <= d && forall k | 0 <= k < |len| :: 0 <= len[k] <= d
    ensures KraftTo(len, n, d, i) == KraftTo(len, n - 1, d, i) + CountTo(len, n, i) * Pow2(d - n)
  {
    hide Pow2;
    if i > 0 {
      KraftLevel(len, n, d, i - 1);
      if len[i - 1] == n {
        assert CountTo(len, n, i) * Pow2(d - n) == CountTo(len, n, i - 1) * Pow2(d - n) + Pow2(d - n);
      }
    } else {
      assert CountTo(len, n, i) * Pow2(d - n) == 0;
    }
  }

  lemma {:induction false} KraftPart(len: seq<int>, n: int, d: int, i: nat)
    requires i <= |len| && forall k | 0 <= k < |len| :: 0 <= len[k] <= d
    ensures KraftTo(len, n, d, i) <= KraftSum(len[..i], d)
    ensures d <= n ==> KraftTo(len, n, d, i) == KraftSum(len[..i], d)
  {
    hide Pow2;
    if i > 0 {
      KraftPart(len, n, d, i - 1);
      assert len[..i][..i - 1] == len[..i - 1];
    }
  }

  lemma {:induction false} KraftNothing(len: seq<int>, n: int, d: int, i: nat)
    requires i <= |len| && forall k | 0 <= k < |len| :: n < len[k] <= d && 0 <= len[k]
    ensures KraftTo(len, n, d, i) == 0
  {
    hide Pow2;
    if i > 0 {
      KraftNothing(len, n, d, i - 1);
    }
  }

  /** The codes used up to level `n`, measured in codes of length `d`, are the Kraft sum up to `n`. */
  lemma {:induction false} FirstIsKraft(len: seq<int>, minLen: int, n: int, d: int)
    requires 1 <= minLen <= n <= d && forall k | 0 <= k < |len| :: minLen <= len[k] <= d
    ensures (First(len, minLen, n) + CountOf(len, n)) * Pow2(d - n) == KraftTo(len, n, d, |len|)
    decreases n
  {
    KraftLevel(len, n, d, |len|);
    var c, p := CountOf(len, n), Pow2(d - n);
    if n == minLen {
      KraftNothing(len, n - 1, d, |len|);
      assert First(len, minLen, n) == 0;
    } else {
      FirstIsKraft(len, minLen, n - 1, d);
      var f := First(len, minLen, n - 1) + CountOf(len, n - 1);
      assert Pow2(d - (n - 1)) == 2 * p;
      assert First(len, minLen, n) == 2 * f;
      Regroup(f, c, p);
    }
  }

  lemma Regroup(f: int, c: int, p: int)
    ensures (2 * f + c) * p == f * (2 * p) + c * p
  {
  }

  /** Codes of every length fit into that many bits. */
  lemma LevelFits(len: seq<int>, minLen: int, maxLen: int, n: int)
    requires Lengths(len, minLen, maxLen) && KraftSum(len, maxLen) <= Pow2(maxLen) && minLen <= n <= maxLen
    ensures First(len, minLen, n) + CountOf(len, n) <= Pow2(n)
  {
    hide First, CountTo, KraftTo, KraftSum, Pow2;
    FirstIsKraft(len, minLen, n, maxLen);
    KraftPart(len, n, maxLen, |len|);
    assert len[..|len|] == len;
    Pow2Add(n, maxLen - n);
    var x, p := First(len, minLen, n) + CountOf(len, n), Pow2(maxLen - n);
    assert x * p <= Pow2(n) * p;
    MulLe(x, Pow2(n), p);
  }

  lemma MulLe(x: int, y: int, p: int)
    requires p > 0 && x * p <= y * p
    ensures x <= y
  {
    if x > y {
      MulGap(p, x - y);
    }
  }

  // ---------------------------------------------------------------- codes as bit strings

  /** The bit string begins with the code of symbol `i`. */
  ghost predicate BeginsWith(bits: seq<int>, len: seq<int>, minLen: int, i: int) {
    0 <= i < |len| && 0 <= len[i] <= |bits| && Value(bits[..len[i]]) == CodeOf(len, minLen, i)
  }

  /** As long as the string spells at least the first code of its length, shorter prefixes lie
      beyond all shorter codes. */
  lemma {:induction false} PrefixBeyond(bits: seq<int>, len: seq<int>, minLen: int, n: nat, m: nat)
    requires Bits(bits) && minLen <= n < m <= |bits| && First(len, minLen, m) <= Value(bits[..m])
    ensures First(len, minLen, n) + CountOf(len, n) <= Value(bits[..n])
    decreases m
  {
    hide CountTo;
    ValueStep(bits, m - 1);
    assert First(len, minLen, m - 1) + CountOf(len, m - 1) <= Value(bits[..m - 1]);
    if n < m - 1 {
      PrefixBeyond(bits, len, minLen, n, m - 1);
    }
  }

  lemma CodeInLevel(len: seq<int>, minLen: int, i: nat)
    requires i < |len|
    ensures First(len, minLen, len[i]) <= CodeOf(len, minLen, i) < First(len, minLen, len[i]) + CountOf(len, len[i])
  {
    CountMonotone(len, len[i], i, |len|);
  }

  // ---------------------------------------------------------------- building the tables

  ghost function Limit(len: seq<int>, minLen: int, n: int): int {
    First(len, minLen, n) + CountOf(len, n) - 1
  }

  ghost function BaseOf(len: seq<int>, minLen: int, n: nat): int {
    First(len, minLen, n) - Below(len, n)
  }

  ghost function Place(len: seq<int>, i: nat): nat
    requires i < |len| && len[i] >= 0
  {
    Below(len, len[i]) + CountTo(len, len[i], i)
  }

  /** What the decoding tables hold. */
  ghost predicate Tables(limit: seq<int>, base: seq<int>, perm: seq<int>, len: seq<int>, minLen: int, maxLen: int) {
    && |limit| >= MAX_CODE_LEN && |base| >= MAX_CODE_LEN && |perm| >= |len| && 0 <= minLen <= maxLen < MAX_CODE_LEN
    && (forall n | minLen <= n <= maxLen :: limit[n] == Limit(len, minLen, n) && base[n] == BaseOf(len, minLen, n))
    && (forall n | maxLen < n < MAX_CODE_LEN :: limit[n] == 0)
    && (forall i | 0 <= i < |len| :: len[i] >= 0 && Place(len, i) < |perm| && perm[Place(len, i)] == i)
  }

  /** Assigns the codes, shortest first and in the order of the symbols. */
  method AssignCodes(code: array<int>, length: seq<int>, minLen: int, maxLen: int)
    requires code.Length == |length| && 0 <= minLen <= maxLen
    requires forall i | 0 <= i < |length| :: minLen <= length[i] <= maxLen
    modifies code
    ensures forall i | 0 <= i < |length| :: code[i] == CodeOf(length, minLen, i)
  {
    var vec := 0;
    for n := minLen to maxLen + 1
      invariant vec == First(length, minLen, n)
      invariant forall i | 0 <= i < |length| && length[i] < n :: code[i] == CodeOf(length, minLen, i)
    {
      for i := 0 to |length|
        invariant vec == First(length, minLen, n) + CountTo(length, n, i)
        invariant forall k | 0 <= k < |length| && length[k] < n :: code[k] == CodeOf(length, minLen, k)
        invariant forall k | 0 <= k < i && length[k] == n :: code[k] == CodeOf(length, minLen, k)
      {
        if length[i] == n {
          code[i] := vec;
          vec := vec + 1;
        }
      }
      vec := 2 * vec;
    }
  }

  ghost predicate Placed(perm: seq<int>, len: seq<int>, i: nat, pp: int)
    requires i < |len|
  {
    len[i] >= 0 && Place(len, i) < pp <= |perm| && perm[Place(len, i)] == i
  }

  /** Lists the symbols by length. */
  method FillPerm(perm: array<int>, length: seq<int>, minLen: int, maxLen: int)
    requires perm.Length >= |length| && 0 <= minLen <= maxLen
    requires forall i | 0 <= i < |length| :: minLen <= length[i] <= maxLen
    modifies perm
    ensures forall i | 0 <= i < |length| :: Placed(perm[..], length, i, |length|)
  {
    hide Below, CountTo;
    var pp := 0;
    BelowMin(length, minLen);
    for n := minLen to maxLen + 1
      invariant pp == Below(length, n)
      invariant forall i | 0 <= i < |length| && length[i] < n :: Placed(perm[..], length, i, pp)
    {
      pp := FillLevel(perm, length, n, pp);
    }
    BelowTotal(length, maxLen + 1);
  }

  /** Lists the symbols of length `n`. */
  method FillLevel(perm: array<int>, length: seq<int>, n: nat, start: int) returns (pp: int)
    requires perm.Length >= |length| && start == Below(length, n)
    requires forall i | 0 <= i < |length| && length[i] < n :: Placed(perm[..], length, i, start)
    modifies perm
    ensures pp == Below(length, n + 1)
    ensures forall i | 0 <= i < |length| && length[i] < n + 1 :: Placed(perm[..], length, i, pp)
  {
    pp := start;
    BelowTotal(length, n + 1);
    for i := 0 to |length|
      invariant pp == Below(length, n) + CountTo(length, n, i)
      invariant forall k | 0 <= k < |length|
          && (length[k] < n || (length[k] == n && k < i)) :: Placed(perm[..], length, k, pp)
    {
      CountMonotone(length, n, i, |length|);
      if length[i] == n {
        perm[pp] := i;
        pp := pp + 1;
      }
    }
  }

  /** Builds the limit, base and perm tables. */
  method CreateDecodeTables(limit: array<int>, base: array<int>, perm: array<int>, length: seq<int>, minLen: int,
      maxLen: int)
    requires limit != base && limit != perm && base != perm
    requires limit.Length >= MAX_CODE_LEN && base.Length >= MAX_CODE_LEN && perm.Length >= |length|
    requires Lengths(length, minLen, maxLen)
    modifies limit, base, perm
    ensures Tables(limit[..], base[..], perm[..], length, minLen, maxLen)
  {
    hide Below, CountTo, First, KraftSum, Pow2;
    FillPerm(perm, length, minLen, maxLen);
    ghost var p := perm[..];
    CountLengths(base, length, maxLen);
    SumLengths(base, length);
    FillLimit(limit, base, length, minLen, maxLen);
    FillBase(limit, base, length, minLen, maxLen);
    assert perm[..] == p;
    forall i | 0 <= i < |length|
      ensures length[i] >= 0 && Place(length, i) < |p| && p[Place(length, i)] == i
    {
      assert Placed(p, length, i, |length|);
    }
  }

  /** base[n + 1] counts the symbols of length n. */
  method CountLengths(base: array<int>, length: seq<int>, maxLen: int)
    requires base.Length >= MAX_CODE_LEN && 0 <= maxLen <= 20
    requires forall i | 0 <= i < |length| :: 0 <= length[i] <= maxLen
    modifies base
    ensures base[0] == 0 && forall n | 1 <= n < MAX_CODE_LEN :: base[n] == CountOf(length, n - 1)
  {
    for i := 0 to MAX_CODE_LEN
      invariant forall n | 0 <= n < i :: base[n] == 0
    {
      base[i] := 0;
    }
    for i := 0 to |length|
      invariant base[0] == 0 && forall n | 1 <= n < MAX_CODE_LEN :: base[n] == CountTo(length, n - 1, i)
    {
      base[length[i] + 1] := base[length[i] + 1] + 1;
    }
  }

  lemma BelowSteps(len: seq<int>, n: nat)
    requires n >= 1
    ensures Below(len, 0) == 0 && Below(len, n) == Below(len, n - 1) + CountOf(len, n - 1)
  {
  }

  /** base[n] counts the symbols shorter than n. */
  method SumLengths(base: array<int>, length: seq<int>)
    requires base.Length >= MAX_CODE_LEN
    requires base[0] == 0 && forall n | 1 <= n < MAX_CODE_LEN :: base[n] == CountOf(length, n - 1)
    modifies base
    ensures forall n | 0 <= n < MAX_CODE_LEN :: base[n] == Below(length, n)
  {
    hide CountOf, Below;
    BelowSteps(length, 1);
    for i := 1 to MAX_CODE_LEN
      invariant forall n | 0 <= n < i :: base[n] == Below(length, n)
      invariant forall n | i <= n < MAX_CODE_LEN :: base[n] == CountOf(length, n - 1)
    {
      BelowSteps(length, i);
      base[i] := base[i] + base[i - 1];
    }
  }

  method FillLimit(limit: array<int>, base: array<int>, length: seq<int>, minLen: int, maxLen: int)
    requires limit != base && limit.Length >= MAX_CODE_LEN && base.Length >= MAX_CODE_LEN
    requires 1 <= minLen <= maxLen <= 20 && forall n | 0 <= n < MAX_CODE_LEN :: base[n] == Below(length, n)
    modifies limit
    ensures forall n | 0 <= n < MAX_CODE_LEN :: limit[n] == if minLen <= n <= maxLen then Limit(length, minLen, n)
        else 0
  {
    for i := 0 to MAX_CODE_LEN
      invariant forall n | 0 <= n < i :: limit[n] == 0
    {
      limit[i] := 0;
    }
    hide CountTo;
    var vec := 0;
    for i := minLen to maxLen + 1
      invariant vec == First(length, minLen, i)
      invariant forall n | 0 <= n < MAX_CODE_LEN :: limit[n] == if minLen <= n < i then Limit(length, minLen, n) else 0
    {
      assert base[i + 1] == Below(length, i + 1);
      vec := vec + (base[i + 1] - base[i]);
      limit[i] := vec - 1;
      vec := 2 * vec;
    }
  }

  method FillBase(limit: array<int>, base: array<int>, length: seq<int>, minLen: int, maxLen: int)
    requires limit != base && limit.Length >= MAX_CODE_LEN && base.Length >= MAX_CODE_LEN
    requires 1 <= minLen <= maxLen <= 20 && forall n | 0 <= n < MAX_CODE_LEN :: base[n] == Below(length, n)
    requires forall n | minLen <= n <= maxLen :: limit[n] == Limit(length, minLen, n)
    requires forall i | 0 <= i < |length| :: minLen <= length[i]
    modifies base
    ensures forall n | minLen <= n <= maxLen :: base[n] == BaseOf(length, minLen, n)
  {
    hide CountTo;
    BelowMin(length, minLen);
    for i := minLen + 1 to maxLen + 1
      invariant forall n | minLen <= n < i :: base[n] == BaseOf(length, minLen, n)
      invariant forall n | i <= n <= maxLen :: base[n] == Below(length, n)
    {
      base[i] := 2 * (limit[i - 1] + 1) - base[i];
    }
  }

  // ---------------------------------------------------------------- decoding

  datatype Outcome = Symbol(sym: int, used: int) | NeedBits | DataError

  lemma ShortBits(bits: seq<int>, len: seq<int>, minLen: int, maxLen: int)
    requires Lengths(len, minLen, maxLen) && |bits| < minLen
    ensures forall i :: !BeginsWith(bits, len, minLen, i)
  {
  }

  lemma FirstAtMin(len: seq<int>, minLen: int)
    ensures First(len, minLen, minLen) == 0
  {
  }

  lemma {:induction false} KraftPositive(len: seq<int>, d: int)
    requires len != [] && forall i | 0 <= i < |len| :: 0 <= len[i] <= d
    ensures KraftSum(len, d) > 0
  {
    if |len| > 1 {
      KraftPositive(len[..|len| - 1], d);
    }
  }

  /** The last level is never empty. */
  lemma LastLevel(len: seq<int>, minLen: int, maxLen: int)
    requires Lengths(len, minLen, maxLen)
    ensures First(len, minLen, maxLen) + CountOf(len, maxLen) >= 1
  {
    hide First, CountTo, KraftTo, KraftSum;
    FirstIsKraft(len, minLen, maxLen, maxLen);
    KraftPart(len, maxLen, maxLen, |len|);
    assert len[..|len|] == len;
    KraftPositive(len, maxLen);
    assert Pow2(0) == 1;
  }

  /** Beyond the limit of its length, the string can only begin with a longer code. */
  lemma Undecided(bits: seq<int>, len: seq<int>, minLen: int, maxLen: int, n: int, v: int)
    requires Lengths(len, minLen, maxLen) && minLen <= n <= |bits| && v == Value(bits[..n])
    requires n <= maxLen ==> v > Limit(len, minLen, n)
    requires forall i | BeginsWith(bits, len, minLen, i) :: n <= len[i]
    ensures forall i | BeginsWith(bits, len, minLen, i) :: n < len[i]
    ensures n < maxLen ==> First(len, minLen, n + 1) <= 2 * v
    ensures n == maxLen ==> v > 0
  {
    hide Value;
    forall i | BeginsWith(bits, len, minLen, i)
      ensures n < len[i]
    {
      CodeInLevel(len, minLen, i);
    }
    LastLevel(len, minLen, maxLen);
  }

  /** At or below the limit, the string begins with the code of exactly one symbol. */
  lemma Decided(bits: seq<int>, limit: seq<int>, base: seq<int>, perm: seq<int>, len: seq<int>,
                minLen: int, maxLen: int, n: int, v: int)
    requires Bits(bits) && Lengths(len, minLen, maxLen) && Tables(limit, base, perm, len, minLen, maxLen)
    requires minLen <= n <= 20 && n <= |bits| && v == Value(bits[..n]) && v <= limit[n]
    requires n <= maxLen ==> First(len, minLen, n) <= v
    requires n > maxLen ==> v > 0
    requires forall i | BeginsWith(bits, len, minLen, i) :: n <= len[i]
    ensures n <= maxLen && 0 <= v - base[n] < |perm|
    ensures var k := perm[v - base[n]];
            && BeginsWith(bits, len, minLen, k) && len[k] == n
            && forall i | BeginsWith(bits, len, minLen, i) :: i == k
  {
    hide Value, First, Below, CountTo, KraftSum, Pow2;
    var k := RankSurjective(len, n, v - First(len, minLen, n), |len|);
    assert v - base[n] == Place(len, k);
    forall i | BeginsWith(bits, len, minLen, i)
      ensures i == k
    {
      CodeInLevel(len, minLen, i);
      if n < len[i] {
        PrefixBeyond(bits, len, minLen, n, len[i]);
      }
      RankInjective(len, n, i, k);
    }
  }

  /** The decoding loop reads bits until the number read is at most the limit of its length. */
  method Decode(bits: seq<int>, limit: seq<int>, base: seq<int>, perm: seq<int>, minLen: int,
                ghost len: seq<int>, ghost maxLen: int)
    returns (r: Outcome)
    requires Bits(bits) && Lengths(len, minLen, maxLen) && |perm| == MAX_ALPHA
    requires Tables(limit, base, perm, len, minLen, maxLen)
    ensures r.Symbol? ==> BeginsWith(bits, len, minLen, r.sym) && r.used == len[r.sym]
    ensures forall i | BeginsWith(bits, len, minLen, i) :: r == Symbol(i, len[i])
  {
    hide First, Below, CountTo, KraftSum, Pow2;
    if |bits| < minLen {
      ShortBits(bits, len, minLen, maxLen);
      return NeedBits;
    }
    var zn := minLen;
    var zvec := ReadBits(bits, minLen);
    FirstAtMin(len, minLen);
    ValueBound(bits, minLen);
    while true
      invariant minLen <= zn <= 21 && zn <= |bits| && zvec == Value(bits[..zn])
      invariant zn <= maxLen ==> First(len, minLen, zn) <= zvec
      invariant zn > maxLen ==> zvec > 0
      invariant forall i | BeginsWith(bits, len, minLen, i) :: zn <= len[i]
      decreases 21 - zn
    {
      if zn > 20 { return DataError; }
      if zvec <= limit[zn] { break; }
      Undecided(bits, len, minLen, maxLen, zn, zvec);
      if zn == |bits| { return NeedBits; }
      ValueStep(bits, zn);
      zvec := 2 * zvec + bits[zn];
      zn := zn + 1;
    }
    Decided(bits, limit, base, perm, len, minLen, maxLen, zn, zvec);
    if zvec - base[zn] < 0 || zvec - base[zn] >= MAX_ALPHA { return DataError; }
    return Symbol(perm[zvec - base[zn]], zn);
  }

  method ReadBits(bits: seq<int>, n: nat) returns (v: int)
    requires n <= |bits|
    ensures v == Value(bits[..n])
  {
    v := 0;
    for i := 0 to n
      invariant v == Value(bits[..i])
    {
      ValueStep(bits, i);
      v := 2 * v + bits[i];
    }
  }

  /** No code is a prefix of another, and every code fits its length. */
  lemma PrefixFree(bits: seq<int>, len: seq<int>, minLen: int, maxLen: int, i: nat, j: nat)
    requires Lengths(len, minLen, maxLen) && Bits(bits)
    requires BeginsWith(bits, len, minLen, i) && BeginsWith(bits, len, minLen, j)
    ensures i == j && CodeOf(len, minLen, i) < Pow2(len[i])
  {
    hide First, CountTo, Value, KraftSum, Pow2;
    CodeInLevel(len, minLen, i);
    CodeInLevel(len, minLen, j);
    if len[i] < len[j] {
      PrefixBeyond(bits, len, minLen, len[i], len[j]);
    } else if len[j] < len[i] {
      PrefixBeyond(bits, len, minLen, len[j], len[i]);
    }
    RankInjective(len, len[i], i, j);
    ValueBound(bits, len[i]);
  }

  /** When the Kraft sum is exactly one, every string of `maxLen` bits begins with a code. */
  lemma Complete(bits: seq<int>, len: seq<int>, minLen: int, maxLen: int) returns (i: nat)
    requires Lengths(len, minLen, maxLen) && KraftSum(len, maxLen) == Pow2(maxLen)
    requires Bits(bits) && |bits| >= maxLen
    ensures BeginsWith(bits, len, minLen, i)
  {
    hide CountTo, Value, KraftSum, Pow2;
    LastLevelFull(len, minLen, maxLen);
    ValueBound(bits, maxLen);
    i := FindCode(bits, len, minLen, maxLen, maxLen);
  }

  lemma LastLevelFull(len: seq<int>, minLen: int, maxLen: int)
    requires Lengths(len, minLen, maxLen) && KraftSum(len, maxLen) == Pow2(maxLen)
    ensures First(len, minLen, maxLen) + CountOf(len, maxLen) == Pow2(maxLen)
  {
    hide First, CountTo, KraftTo, KraftSum;
    FirstIsKraft(len, minLen, maxLen, maxLen);
    KraftPart(len, maxLen, maxLen, |len|);
    assert len[..|len|] == len;
    assert Pow2(0) == 1;
  }

  lemma {:induction false} FindCode(bits: seq<int>, len: seq<int>, minLen: int, maxLen: int, n: int) returns (i: nat)
    requires Lengths(len, minLen, maxLen) && Bits(bits) && minLen <= n <= maxLen <= |bits|
    requires 0 <= Value(bits[..n]) < First(len, minLen, n) + CountOf(len, n)
    ensures BeginsWith(bits, len, minLen, i)
    decreases n
  {
    hide CountTo, Value, KraftSum, Pow2;
    if First(len, minLen, n) <= Value(bits[..n]) {
      i := RankSurjective(len, n, Value(bits[..n]) - First(len, minLen, n), |len|);
    } else {
      ValueStep(bits, n - 1);
      ValueBound(bits, n - 1);
      i := FindCode(bits, len, minLen, maxLen, n - 1);
    }
  }
}
