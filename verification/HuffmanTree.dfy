/** The Huffman tree. */
module HuffmanTree {
  // Merging the two lightest roots until one tree is left: heights, depths, the Kraft sum and optimality.

  import opened Arith
  import W = WeightedCodes

  function Fib(n: nat): nat {
    if n < 2 then n else Fib(n - 1) + Fib(n - 2)
  }

  /** A packed weight holds a count in its upper 24 bits and a tree height in its low 8 bits. */
  function Count(z: int): int {
    z / 256
  }

  function Height(z: int): int {
    z % 256
  }

  function Max(x: int, y: int): int {
    if x > y then x else y
  }

  /** The ADDWEIGHTS macro; its bitwise `or` is a sum because the height fits into 8 bits. */
  function AddWeights(z1: int, z2: int): int
    requires Height(z1) < 255 && Height(z2) < 255
  {
    256 * (Count(z1) + Count(z2)) + (1 + Max(Height(z1), Height(z2)))
  }

  // ---------------------------------------------------------------- Fibonacci numbers

  lemma {:induction false} FibMonotone(i: nat, j: nat)
    requires i <= j
    ensures Fib(i) <= Fib(j)
    decreases j
  {
    if i < j {
      FibMonotone(i, j - 1);
    }
  }

  lemma {:induction false} FibDoubles(k: nat)
    ensures Fib(2 * k + 2) >= Pow2(k)
  {
    if k > 0 {
      FibDoubles(k - 1);
      FibMonotone(2 * k, 2 * k + 1);
    }
  }

  lemma Pow2Of23()
    ensures Pow2(23) == 0x80_0000
  {
    assert Pow2(7) == 128 && Pow2(8) == 256;
    Pow2Add(8, 8);
    Pow2Add(16, 7);
  }

  /** A height is bounded by the logarithm of the count that it costs. */
  lemma HeightFits(z: int)
    requires Fib(Height(z) + 2) <= Count(z) < 0x80_0000
    ensures Height(z) < 46
  {
    hide Pow2;
    if Height(z) >= 46 {
      FibMonotone(48, Height(z) + 2);
      FibDoubles(23);
      Pow2Of23();
    }
  }

  // ---------------------------------------------------------------- the forest

  /** Nodes 1..a are leaves; every node m in a+1..n has exactly the two children `kids[m]`. */
  ghost predicate Linked(parent: seq<int>, kids: seq<(int, int)>, a: int, n: int) {
    && 1 <= a <= n < |parent| && |kids| == |parent|
    && (forall m | a < m <= n :: Branch(parent, kids[m], m))
    && (forall k | 1 <= k <= n :: parent[k] == -1 || Child(parent, kids, a, n, k))
  }

  ghost predicate Branch(parent: seq<int>, kid: (int, int), m: int) {
    && 1 <= kid.0 < m && 1 <= kid.1 < m && kid.0 != kid.1 && m <= |parent|
    && parent[kid.0] == m && parent[kid.1] == m
  }

  ghost predicate Child(parent: seq<int>, kids: seq<(int, int)>, a: int, n: int, k: int)
    requires 1 <= k <= n < |parent| == |kids|
  {
    a < parent[k] <= n && k < parent[k] && (k == kids[parent[k]].0 || k == kids[parent[k]].1)
  }

  /** Packed weights are those of the tree: every height costs a Fibonacci count. */
  ghost predicate Costly(weight: seq<int>, n: int) {
    n < |weight| && forall k | 1 <= k <= n :: weight[k] > 0 && Fib(Height(weight[k]) + 2) <= Count(weight[k])
  }

  ghost predicate Merged(weight: seq<int>, kid: (int, int), m: int, low: int)
    requires 1 <= kid.0 < m < |weight| && 1 <= kid.1 < m
  {
    && Count(weight[kid.0]) <= low && Count(weight[kid.1]) <= low
    && Height(weight[m]) == 1 + Max(Height(weight[kid.0]), Height(weight[kid.1]))
  }

  /** `low` separates the nodes already merged from the roots. */
  ghost predicate Levelled(parent: seq<int>, weight: seq<int>, kids: seq<(int, int)>, a: int, n: int, low: int)
    requires Linked(parent, kids, a, n) && n < |weight|
  {
    && (forall m | a < m <= n :: Merged(weight, kids[m], m, low))
    && (forall k | 1 <= k <= n && parent[k] == -1 :: low <= Count(weight[k]))
  }

  ghost function RootSum(parent: seq<int>, weight: seq<int>, n: nat): int
    requires n < |parent| && n < |weight|
  {
    if n == 0 then 0
    else RootSum(parent, weight, n - 1) + (if parent[n] == -1 then Count(weight[n]) else 0)
  }

  ghost predicate Grown(parent: seq<int>, weight: seq<int>, kids: seq<(int, int)>, a: int, n: int, low: int,
      total: int) {
    && Linked(parent, kids, a, n) && |weight| == |parent|
    && Costly(weight, n)
    && Levelled(parent, weight, kids, a, n, low)
    && RootSum(parent, weight, n) == total < 0x80_0000
  }

  // ---------------------------------------------------------------- merging two roots

  /** The child of a merged node is no heavier than any root, so heights grow as Fibonacci numbers do. */
  lemma HeavierChild(weight: seq<int>, kids: seq<(int, int)>, a: int, n: int, low: int, x: int)
    requires 1 <= a <= n < |weight| == |kids| && Costly(weight, n) && a < x <= n
    requires 1 <= kids[x].0 < x && 1 <= kids[x].1 < x && Merged(weight, kids[x], x, low)
    ensures Fib(Height(weight[x]) + 1) <= low
  {
    var c := if Height(weight[kids[x].0]) > Height(weight[kids[x].1]) then kids[x].0 else kids[x].1;
    assert Height(weight[x]) + 1 == Height(weight[c]) + 2;
  }

  lemma FibOfRoot(parent: seq<int>, weight: seq<int>, kids: seq<(int, int)>, a: int, n: int, low: int, x: int)
    requires Linked(parent, kids, a, n) && n < |weight| == |kids| && Costly(weight, n)
    requires Levelled(parent, weight, kids, a, n, low) && 1 <= x <= n
    requires forall k | 1 <= k <= a :: Height(weight[k]) == 0
    ensures Fib(Height(weight[x]) + 1) <= Max(low, 1)
  {
    if x > a {
      assert Branch(parent, kids[x], x);
      assert Merged(weight, kids[x], x, low);
      HeavierChild(weight, kids, a, n, low, x);
    }
  }

  lemma MergedCount(z1: int, z2: int, low: int)
    requires z1 > 0 && z2 > 0 && Height(z1) < 255 && Height(z2) < 255
    requires Fib(Height(z1) + 2) <= Count(z1) && Fib(Height(z2) + 2) <= Count(z2)
    requires Fib(Height(z1) + 1) <= Max(low, 1) && Fib(Height(z2) + 1) <= Max(low, 1)
    requires low <= Count(z1) && low <= Count(z2)
    ensures var z := AddWeights(z1, z2);
            && z > 0 && Count(z) == Count(z1) + Count(z2) && Height(z) == 1 + Max(Height(z1), Height(z2))
            && Fib(Height(z) + 2) <= Count(z)
  {
    var h := Max(Height(z1), Height(z2));
    assert Fib(h + 3) == Fib(h + 2) + Fib(h + 1);
    FibMonotone(2, Height(z1) + 2);
    FibMonotone(2, Height(z2) + 2);
  }

  lemma {:induction false} RootSumFrame(parent: seq<int>, weight: seq<int>, parent': seq<int>, weight': seq<int>,
      n: nat)
    requires n < |parent| == |parent'| && n < |weight| == |weight'|
    requires forall k | 1 <= k <= n :: parent[k] == parent'[k] && weight[k] == weight'[k]
    ensures RootSum(parent, weight, n) == RootSum(parent', weight', n)
  {
    if n > 0 {
      RootSumFrame(parent, weight, parent', weight', n - 1);
    }
  }

  lemma {:induction false} RootSumDrop(parent: seq<int>, weight: seq<int>, n: nat, k: int, m: int)
    requires n < |parent| && n < |weight| && 1 <= k <= n && parent[k] == -1 && m != -1
    ensures RootSum(parent[k := m], weight, n) == RootSum(parent, weight, n) - Count(weight[k])
  {
    if k == n {
      RootSumFrame(parent, weight, parent[k := m], weight, n - 1);
    } else {
      RootSumDrop(parent, weight, n - 1, k, m);
    }
  }

  lemma {:induction false} RootSumNonNegative(parent: seq<int>, weight: seq<int>, n: nat)
    requires n < |parent| && n < |weight| && forall k | 1 <= k <= n :: weight[k] >= 0
    ensures RootSum(parent, weight, n) >= 0
  {
    if n > 0 {
      RootSumNonNegative(parent, weight, n - 1);
    }
  }

  ghost function Adopt(parent: seq<int>, n: int, n1: int, n2: int): seq<int>
    requires 0 <= n1 < |parent| && 0 <= n2 < |parent| && 0 <= n + 1 < |parent|
  {
    parent[n1 := n + 1][n2 := n + 1][n + 1 := -1]
  }

  lemma AdoptSum(parent: seq<int>, weight: seq<int>, n: nat, n1: int, n2: int, z: int)
    requires n + 1 < |parent| == |weight| && 1 <= n1 <= n && 1 <= n2 <= n && n1 != n2
    requires parent[n1] == -1 && parent[n2] == -1 && Count(z) == Count(weight[n1]) + Count(weight[n2])
    requires forall k | 1 <= k <= n :: weight[k] >= 0
    ensures RootSum(Adopt(parent, n, n1, n2), weight[n + 1 := z], n + 1) == RootSum(parent, weight, n)
    ensures Count(weight[n1]) + Count(weight[n2]) <= RootSum(parent, weight, n)
  {
    var p1 := parent[n1 := n + 1];
    var p2 := p1[n2 := n + 1];
    RootSumDrop(parent, weight, n, n1, n + 1);
    RootSumDrop(p1, weight, n, n2, n + 1);
    RootSumNonNegative(p2, weight, n);
    RootSumFrame(p2, weight, p2[n + 1 := -1], weight[n + 1 := z], n);
  }

  lemma AdoptLinked(parent: seq<int>, kids: seq<(int, int)>, a: int, n: int, n1: int, n2: int)
    requires Linked(parent, kids, a, n) && n + 1 < |parent|
    requires 1 <= n1 <= n && 1 <= n2 <= n && n1 != n2 && parent[n1] == -1 && parent[n2] == -1
    ensures Linked(Adopt(parent, n, n1, n2), kids[n + 1 := (n1, n2)], a, n + 1)
  {
    var p, q := Adopt(parent, n, n1, n2), kids[n + 1 := (n1, n2)];
    forall m | a < m <= n + 1
      ensures Branch(p, q[m], m)
    {
      if m <= n {
        assert Branch(parent, kids[m], m);
      }
    }
    forall k | 1 <= k <= n + 1
      ensures p[k] == -1 || Child(p, q, a, n + 1, k)
    {
      if k <= n && parent[k] != -1 {
        assert Child(parent, kids, a, n, k);
      }
    }
  }

  /** Merging the two lightest roots keeps the forest invariant. */
  lemma MergeRoots(parent: seq<int>, weight: seq<int>, kids: seq<(int, int)>, a: int, n: int, low: int, total: int,
      n1: int, n2: int)
    requires Grown(parent, weight, kids, a, n, low, total) && n + 1 < |parent|
    requires forall k | 1 <= k <= a :: Height(weight[k]) == 0
    requires 1 <= n1 <= n && 1 <= n2 <= n && n1 != n2 && parent[n1] == -1 && parent[n2] == -1
    requires Count(weight[n1]) <= Count(weight[n2])
    requires forall k | 1 <= k <= n && parent[k] == -1 && k != n1 :: Count(weight[n2]) <= Count(weight[k])
    ensures Height(weight[n1]) < 255 && Height(weight[n2]) < 255
    ensures Count(weight[n1]) + Count(weight[n2]) < 0x80_0000
    ensures AddWeights(weight[n1], weight[n2]) > 0 && 0 <= Count(weight[n1])
    ensures Count(AddWeights(weight[n1], weight[n2])) == Count(weight[n1]) + Count(weight[n2])
    ensures Grown(Adopt(parent, n, n1, n2), weight[n + 1 := AddWeights(weight[n1], weight[n2])],
                  kids[n + 1 := (n1, n2)], a, n + 1, Count(weight[n2]), total)
  {
    hide RootSum, Fib, Linked, Levelled, Adopt, AddWeights, Costly;
    GrownFacts(parent, weight, kids, a, n, low, total, n1);
    GrownFacts(parent, weight, kids, a, n, low, total, n2);
    AdoptSum(parent, weight, n, n1, n2, 256 * (Count(weight[n1]) + Count(weight[n2])));
    FibNonNegative(weight[n1], weight[n2]);
    HeightFits(weight[n1]);
    HeightFits(weight[n2]);
    var z := AddWeights(weight[n1], weight[n2]);
    FibOfRoot(parent, weight, kids, a, n, low, n1);
    FibOfRoot(parent, weight, kids, a, n, low, n2);
    MergedCount(weight[n1], weight[n2], low);
    AdoptSum(parent, weight, n, n1, n2, z);
    AdoptLinked(parent, kids, a, n, n1, n2);
    AdoptLevelled(parent, weight, kids, a, n, low, n1, n2, z);
    CostlyMore(weight, n, z);
    AdoptLength(parent, n, n1, n2);
  }

  lemma GrownFacts(parent: seq<int>, weight: seq<int>, kids: seq<(int, int)>, a: int, n: int, low: int, total: int,
      r: int)
    requires Grown(parent, weight, kids, a, n, low, total) && 1 <= r <= n && parent[r] == -1
    ensures 1 <= a <= n < |weight| == |parent| == |kids| && low <= Count(weight[r])
    ensures weight[r] > 0 && Fib(Height(weight[r]) + 2) <= Count(weight[r]) && forall k | 1 <= k <= n :: weight[k] >= 0
  {
  }

  lemma CostlyMore(weight: seq<int>, n: int, z: int)
    requires Costly(weight, n) && 0 <= n && n + 1 < |weight| && z > 0 && Fib(Height(z) + 2) <= Count(z)
    ensures Costly(weight[n + 1 := z], n + 1)
  {
  }

  lemma AdoptLength(parent: seq<int>, n: int, n1: int, n2: int)
    requires 0 <= n1 < |parent| && 0 <= n2 < |parent| && 0 <= n + 1 < |parent|
    ensures |Adopt(parent, n, n1, n2)| == |parent| && Adopt(parent, n, n1, n2)[n + 1] == -1
  {
  }

  lemma FibNonNegative(z1: int, z2: int)
    requires z1 > 0 && z2 > 0
    ensures Count(z1) >= 0 && Count(z2) >= 0
  {
  }

  lemma AdoptLevelled(parent: seq<int>, weight: seq<int>, kids: seq<(int, int)>, a: int, n: int, low: int, n1: int,
      n2: int, z: int)
    requires Linked(parent, kids, a, n) && n + 1 < |parent| == |weight| && Levelled(parent, weight, kids, a, n, low)
    requires 1 <= n1 <= n && 1 <= n2 <= n && n1 != n2 && parent[n1] == -1 && parent[n2] == -1
    requires 0 <= Count(weight[n1]) <= Count(weight[n2])
    requires forall k | 1 <= k <= n && parent[k] == -1 && k != n1 :: Count(weight[n2]) <= Count(weight[k])
    requires Count(z) == Count(weight[n1]) + Count(weight[n2])
        && Height(z) == 1 + Max(Height(weight[n1]), Height(weight[n2]))
    requires Linked(Adopt(parent, n, n1, n2), kids[n + 1 := (n1, n2)], a, n + 1)
    ensures Levelled(Adopt(parent, n, n1, n2), weight[n + 1 := z], kids[n + 1 := (n1, n2)], a, n + 1, Count(weight[n2]))
  {
    hide Count, Height;
    var q, w := kids[n + 1 := (n1, n2)], weight[n + 1 := z];
    assert low <= Count(weight[n2]);
    forall m | a < m <= n + 1
      ensures Merged(w, q[m], m, Count(weight[n2]))
    {
      if m <= n {
        assert Branch(parent, kids[m], m);
        assert Merged(weight, kids[m], m, low);
      }
    }
  }

  // ---------------------------------------------------------------- the order of merging

  /** Node `m` was made from the two lightest roots of its time. */
  ghost predicate Picked(parent: seq<int>, weight: seq<int>, kid: (int, int), m: int)
    requires 1 <= kid.0 < m < |weight| == |parent| && 1 <= kid.1 < m
  {
    && Count(weight[m]) == Count(weight[kid.0]) + Count(weight[kid.1])
        && 0 <= Count(weight[kid.0]) <= Count(weight[kid.1])
    && forall k | 1 <= k < m && (parent[k] == -1 || parent[k] >= m) && k != kid.0 && k != kid.1 ::
         Count(weight[kid.1]) <= Count(weight[k])
  }

  ghost predicate Greedy(parent: seq<int>, weight: seq<int>, kids: seq<(int, int)>, a: int, n: int)
    requires Linked(parent, kids, a, n) && |weight| == |parent|
  {
    forall m | a < m <= n :: Picked(parent, weight, kids[m], m)
  }

  lemma ParentBelow(parent: seq<int>, kids: seq<(int, int)>, a: int, n: int, k: int)
    requires Linked(parent, kids, a, n) && 1 <= k <= n
    ensures parent[k] <= n
  {
    assert parent[k] == -1 || Child(parent, kids, a, n, k);
  }

  lemma LinkedSizes(parent: seq<int>, kids: seq<(int, int)>, a: int, n: int)
    requires Linked(parent, kids, a, n)
    ensures 1 <= a <= n < |parent| == |kids|
  {
  }

  lemma AdoptGreedy(parent: seq<int>, weight: seq<int>, kids: seq<(int, int)>, a: int, n: int, n1: int, n2: int, z: int)
    requires Linked(parent, kids, a, n) && n + 1 < |parent| == |weight| && Greedy(parent, weight, kids, a, n)
    requires 1 <= n1 <= n && 1 <= n2 <= n && n1 != n2 && parent[n1] == -1 && parent[n2] == -1
    requires 0 <= Count(weight[n1]) <= Count(weight[n2]) && Count(z) == Count(weight[n1]) + Count(weight[n2])
    requires forall k | 1 <= k <= n && parent[k] == -1 && k != n1 :: Count(weight[n2]) <= Count(weight[k])
    requires Linked(Adopt(parent, n, n1, n2), kids[n + 1 := (n1, n2)], a, n + 1)
    ensures Greedy(Adopt(parent, n, n1, n2), weight[n + 1 := z], kids[n + 1 := (n1, n2)], a, n + 1)
  {
    hide Count;
    var p, q, w := Adopt(parent, n, n1, n2), kids[n + 1 := (n1, n2)], weight[n + 1 := z];
    forall m | a < m <= n + 1
      ensures Picked(p, w, q[m], m)
    {
      if m <= n {
        assert Branch(parent, kids[m], m);
        assert Picked(parent, weight, kids[m], m);
      } else {
        forall k | 1 <= k < m && (p[k] == -1 || p[k] >= m) && k != n1 && k != n2
          ensures Count(w[n2]) <= Count(w[k])
        {
          ParentBelow(parent, kids, a, n, k);
        }
      }
    }
  }

  // ---------------------------------------------------------------- the roots are the nodes in the heap

  ghost function RootNodes(parent: seq<int>, n: nat): multiset<int>
    requires n < |parent|
  {
    if n == 0 then multiset{}
    else RootNodes(parent, n - 1) + (if parent[n] == -1 then multiset{n} else multiset{})
  }

  lemma {:induction false} RootNodesMember(parent: seq<int>, n: nat, k: int)
    requires n < |parent|
    ensures RootNodes(parent, n)[k] == (if 1 <= k <= n && parent[k] == -1 then 1 else 0)
  {
    if n > 0 {
      RootNodesMember(parent, n - 1, k);
    }
  }

  lemma AdoptNodes(parent: seq<int>, n: nat, n1: int, n2: int)
    requires n + 1 < |parent| && 1 <= n1 <= n && 1 <= n2 <= n && n1 != n2 && parent[n1] == -1 && parent[n2] == -1
    ensures RootNodes(Adopt(parent, n, n1, n2), n + 1)
         == RootNodes(parent, n) - multiset{n1} - multiset{n2} + multiset{n + 1}
  {
    hide RootNodes;
    var p := Adopt(parent, n, n1, n2);
    var before, after := RootNodes(parent, n), RootNodes(p, n + 1);
    var expected := before - multiset{n1} - multiset{n2} + multiset{n + 1};
    RootNodesMember(parent, n, n1);
    RootNodesMember(parent, n, n2);
    forall k | k in after || k in expected
      ensures after[k] == expected[k]
    {
      RootNodesMember(parent, n, k);
      RootNodesMember(p, n + 1, k);
    }
  }

  lemma OnlyRoot(parent: seq<int>, n: nat, k: int)
    requires n < |parent| && |RootNodes(parent, n)| == 1 && 1 <= k < n && parent[n] == -1
    ensures parent[k] != -1
  {
    if parent[k] == -1 {
      RootNodesMember(parent, n, k);
      RootNodesMember(parent, n, n);
      AtLeastTwo(RootNodes(parent, n), k, n);
    }
  }

  lemma AtLeastTwo(m: multiset<int>, x: int, y: int)
    requires x in m && y in m && x != y
    ensures |m| >= 2
  {
    assert m == multiset{x, y} + (m - multiset{x, y});
  }

  // ---------------------------------------------------------------- depths and the Kraft sum

  /** Parents come after their children. */
  ghost predicate Upward(parent: seq<int>, n: int) {
    0 <= n < |parent| && forall k | 1 <= k <= n :: parent[k] == -1 || k < parent[k] <= n
  }

  ghost function Depth(parent: seq<int>, n: int, k: int): nat
    requires Upward(parent, n) && 1 <= k <= n
    ensures Depth(parent, n, k) <= n - k
    decreases n - k
  {
    if parent[k] == -1 then 0 else 1 + Depth(parent, n, parent[k])
  }

  /** The term of node `k` when the nodes after `j` are still collapsed. */
  ghost function Term(parent: seq<int>, n: int, j: int, k: int): int
    requires Upward(parent, n) && 1 <= k <= n
  {
    if parent[k] == -1 || parent[k] > j then Pow2(n - Depth(parent, n, k)) else 0
  }

  ghost function Frontier(parent: seq<int>, n: int, j: int, i: nat): int
    requires Upward(parent, n) && i <= n
  {
    if i == 0 then 0 else Frontier(parent, n, j, i - 1) + Term(parent, n, j, i)
  }

  ghost function Exposed(kid: (int, int), i: int, v: int): int {
    (if kid.0 <= i then v else 0) + (if kid.1 <= i then v else 0)
  }

  lemma ChildTerm(parent: seq<int>, n: int, k: int)
    requires Upward(parent, n) && 1 <= k <= n && parent[k] != -1
    ensures 2 * Pow2(n - Depth(parent, n, k)) == Pow2(n - Depth(parent, n, parent[k]))
  {
  }

  /** Expanding node `j` exposes its two children, each with half of its term. */
  lemma {:induction false} ExpandNode(parent: seq<int>, kids: seq<(int, int)>, a: int, n: int, j: int, i: nat)
    requires Linked(parent, kids, a, n) && Upward(parent, n) && a < j <= n && i < j
    ensures 2 * (Frontier(parent, n, j - 1, i) - Frontier(parent, n, j, i))
         == Exposed(kids[j], i, Pow2(n - Depth(parent, n, j)))
  {
    hide Pow2, Depth;
    assert Branch(parent, kids[j], j);
    if i > 0 {
      ExpandNode(parent, kids, a, n, j, i - 1);
      if parent[i] == j {
        assert Child(parent, kids, a, n, i);
        ChildTerm(parent, n, i);
      }
    }
  }

  lemma {:induction false} FrontierConstant(parent: seq<int>, kids: seq<(int, int)>, a: int, n: int, j: int)
    requires Linked(parent, kids, a, n) && Upward(parent, n) && a <= j <= n
    ensures Frontier(parent, n, j, j) == Frontier(parent, n, n, n)
    decreases n - j
  {
    hide Pow2, Depth;
    if j < n {
      FrontierConstant(parent, kids, a, n, j + 1);
      ExpandNode(parent, kids, a, n, j + 1, j);
      assert Branch(parent, kids[j + 1], j + 1);
    }
  }

  lemma {:induction false} FrontierOfRoot(parent: seq<int>, n: int, i: nat)
    requires Upward(parent, n) && i <= n && 1 <= n && parent[n] == -1 && forall k | 1 <= k < n :: parent[k] != -1
    ensures Frontier(parent, n, n, i) == if i == n then Pow2(n) else 0
  {
    if i > 0 {
      FrontierOfRoot(parent, n, i - 1);
    }
  }

  /** The Kraft sum of code lengths, scaled by 2^d. */
  ghost function KraftSum(len: seq<int>, d: int): int
    requires forall i | 0 <= i < |len| :: 0 <= len[i] <= d
  {
    if len == [] then 0 else KraftSum(len[..|len| - 1], d) + Pow2(d - len[|len| - 1])
  }

  lemma {:induction false} KraftIsFrontier(parent: seq<int>, kids: seq<(int, int)>, a: int, n: int, len: seq<int>)
    requires Linked(parent, kids, a, n) && Upward(parent, n) && |len| <= a
    requires forall i | 0 <= i < |len| :: 0 <= len[i] == Depth(parent, n, i + 1) <= n
    ensures KraftSum(len, n) == Frontier(parent, n, a, |len|)
  {
    hide Pow2, Depth;
    if len != [] {
      var i := |len| - 1;
      var rest := len[..i];
      forall k | 0 <= k < |rest|
        ensures 0 <= rest[k] == Depth(parent, n, k + 1) <= n
      {
        assert rest[k] == len[k];
      }
      KraftIsFrontier(parent, kids, a, n, rest);
      assert parent[i + 1] == -1 || Child(parent, kids, a, n, i + 1);
    }
  }

  lemma {:induction false} KraftScale(len: seq<int>, d: int, e: nat)
    requires forall i | 0 <= i < |len| :: 0 <= len[i] <= d
    ensures KraftSum(len, d + e) == Pow2(e) * KraftSum(len, d)
  {
    hide Pow2;
    if len != [] {
      var i := |len| - 1;
      KraftScale(len[..i], d, e);
      Pow2Add(e, d - len[i]);
      assert Pow2(e) * KraftSum(len, d) == Pow2(e) * KraftSum(len[..i], d) + Pow2(e) * Pow2(d - len[i]);
    } else {
      assert Pow2(e) * 0 == 0;
    }
  }

  /** Leaf depths of a full binary tree have Kraft sum exactly one. */
  lemma TreeKraft(parent: seq<int>, kids: seq<(int, int)>, a: int, n: int, len: seq<int>, d: int)
    requires Linked(parent, kids, a, n) && Upward(parent, n) && parent[n] == -1 && 0 <= d
    requires forall k | 1 <= k < n :: parent[k] != -1
    requires |len| == a && forall i | 0 <= i < a :: 0 <= len[i] == Depth(parent, n, i + 1) <= d
    ensures KraftSum(len, d) == Pow2(d)
  {
    hide Pow2, KraftSum, Frontier;
    forall i | 0 <= i < |len|
      ensures 0 <= len[i] == Depth(parent, n, i + 1) <= n
    {
      assert Depth(parent, n, i + 1) <= n - (i + 1);
    }
    KraftIsFrontier(parent, kids, a, n, len);
    FrontierConstant(parent, kids, a, n, a);
    FrontierOfRoot(parent, n, n);
    KraftOne(len, n, d);
  }

  /** Whether the Kraft sum is one does not depend on the scale. */
  lemma KraftOne(len: seq<int>, n: nat, d: nat)
    requires forall i | 0 <= i < |len| :: 0 <= len[i] <= n && len[i] <= d
    requires KraftSum(len, n) == Pow2(n)
    ensures KraftSum(len, d) == Pow2(d)
  {
    hide Pow2, KraftSum;
    if d <= n {
      KraftScale(len, d, n - d);
      Pow2Add(n - d, d);
      MulCancel(Pow2(n - d), KraftSum(len, d), Pow2(d));
    } else {
      KraftScale(len, n, d - n);
      Pow2Add(d - n, n);
    }
  }

  lemma MulCancel(p: int, x: int, y: int)
    requires p > 0 && p * x == p * y
    ensures x == y
  {
    MulGap(p, x - y);
    assert p * (x - y) == p * x - p * y;
  }

  /** A node's depth and height together are at most the height of the root. */
  lemma {:induction false} DepthHeight(parent: seq<int>, weight: seq<int>, kids: seq<(int, int)>, a: int, n: int,
      low: int, total: int, k: int)
    requires Grown(parent, weight, kids, a, n, low, total) && Upward(parent, n) && 1 <= k <= n
    requires forall i | 1 <= i < n :: parent[i] != -1
    ensures Depth(parent, n, k) + Height(weight[k]) <= Height(weight[n])
    decreases n - k
  {
    hide RootSum, Height, Count;
    if parent[k] != -1 {
      var m := parent[k];
      assert Child(parent, kids, a, n, k);
      assert Merged(weight, kids[m], m, low);
      DepthHeight(parent, weight, kids, a, n, low, total, m);
    }
  }

  /** A finished tree: the last node is the only root, and every height costs a Fibonacci count. */
  ghost predicate Tree(parent: seq<int>, weight: seq<int>, kids: seq<(int, int)>, a: int, n: int, total: int) {
    && Linked(parent, kids, a, n) && Upward(parent, n) && n < |weight| == |parent|
    && parent[n] == -1 && (forall k | 1 <= k < n :: parent[k] != -1)
    && (forall k | 1 <= k <= a :: Depth(parent, n, k) <= Height(weight[n]))
    && Greedy(parent, weight, kids, a, n)
    && Fib(Height(weight[n]) + 2) <= total
  }

  lemma TreeLengths(parent: seq<int>, weight: seq<int>, kids: seq<(int, int)>, a: int, n: int, total: int,
      len: seq<int>, maxLen: nat)
    requires Tree(parent, weight, kids, a, n, total) && a < n && |len| == a
    requires forall i | 0 <= i < a :: len[i] == Depth(parent, n, i + 1) && len[i] <= maxLen
    ensures forall i | 0 <= i < a :: 1 <= len[i] <= maxLen
    ensures KraftSum(len, maxLen) == Pow2(maxLen)
  {
    hide KraftSum, Pow2, Fib;
    forall i | 0 <= i < a
      ensures 1 <= len[i] <= maxLen
    {
      assert parent[i + 1] != -1;
    }
    TreeKraft(parent, kids, a, n, len, maxLen);
  }

  /** A code longer than `maxLen` needs a total count of at least a Fibonacci number. */
  lemma TooLongIsHeavy(parent: seq<int>, weight: seq<int>, kids: seq<(int, int)>, a: int, n: int, total: int, i: int,
      maxLen: nat)
    requires Tree(parent, weight, kids, a, n, total) && 0 <= i < a && Depth(parent, n, i + 1) > maxLen
    ensures Fib(maxLen + 3) <= total
  {
    hide Fib;
    FibMonotone(maxLen + 3, Height(weight[n]) + 2);
  }

  // ---------------------------------------------------------------- no code is better

  /** The roots once the nodes up to `j` exist. */
  ghost function OpenAt(parent: seq<int>, n: nat, j: int): (r: seq<bool>)
    requires n < |parent|
    ensures |r| == n + 1
  {
    seq(n + 1, k requires 0 <= k <= n => 1 <= k <= j && (parent[k] == -1 || parent[k] > j))
  }

  ghost function CountsOf(weight: seq<int>, n: nat): (r: seq<int>)
    requires n < |weight|
    ensures |r| == n + 1
  {
    seq(n + 1, k requires 0 <= k <= n => Count(weight[k]))
  }

  ghost function Depths(parent: seq<int>, n: int): (r: seq<int>)
    requires Upward(parent, n)
    ensures |r| == n + 1
  {
    seq(n + 1, k requires 0 <= k <= n => if k == 0 then 0 else Depth(parent, n, k))
  }

  /** The counts of the nodes after `j`. */
  ghost function MergeSum(weight: seq<int>, n: int, j: int): int
    requires 0 <= j <= n < |weight|
    decreases n - j
  {
    if j == n then 0 else Count(weight[j + 1]) + MergeSum(weight, n, j + 1)
  }

  lemma OpenStep(parent: seq<int>, kids: seq<(int, int)>, a: int, n: int, j: int)
    requires Linked(parent, kids, a, n) && Upward(parent, n) && a < j <= n
    ensures var x, y := kids[j].0, kids[j].1;
            && 1 <= x < j && 1 <= y < j && x != y
            && OpenAt(parent, n, j - 1)[x] && OpenAt(parent, n, j - 1)[y] && !OpenAt(parent, n, j - 1)[j]
            && OpenAt(parent, n, j) == W.Merge(OpenAt(parent, n, j - 1), x, y, j)
  {
    assert Branch(parent, kids[j], j);
    var x, y := kids[j].0, kids[j].1;
    var now, next := OpenAt(parent, n, j - 1), OpenAt(parent, n, j);
    forall k | 0 <= k <= n
      ensures next[k] == W.Merge(now, x, y, j)[k]
    {
      if 1 <= k {
        assert parent[k] == -1 || Child(parent, kids, a, n, k);
      }
    }
  }

  lemma OpenLightest(parent: seq<int>, weight: seq<int>, kids: seq<(int, int)>, a: int, n: int, j: int)
    requires Linked(parent, kids, a, n) && Upward(parent, n) && a < j <= n && |weight| == |parent|
        && Greedy(parent, weight, kids, a, n)
    ensures W.Lightest(OpenAt(parent, n, j - 1), CountsOf(weight, n), kids[j].0, kids[j].1)
    ensures CountsOf(weight, n)[j] == CountsOf(weight, n)[kids[j].0] + CountsOf(weight, n)[kids[j].1]
  {
    hide Count;
    OpenStep(parent, kids, a, n, j);
    assert Picked(parent, weight, kids[j], j);
  }

  /** Every code for the roots at `j` costs at least the counts that are still to be merged. */
  lemma {:induction false} TreeBound(parent: seq<int>, weight: seq<int>, kids: seq<(int, int)>, a: int, n: int, j: int)
    requires Linked(parent, kids, a, n) && Upward(parent, n) && a <= j <= n && |weight| == |parent|
        && Greedy(parent, weight, kids, a, n)
    requires parent[n] == -1 && (forall k | 1 <= k < n :: parent[k] != -1) && Count(weight[n]) >= 0
    ensures W.Bound(OpenAt(parent, n, j), CountsOf(weight, n), MergeSum(weight, n, j))
    decreases n - j
  {
    hide W.Bound, Linked, Greedy, Count;
    LinkedSizes(parent, kids, a, n);
    if j == n {
      OnlyOpen(parent, weight, n);
    } else {
      TreeBound(parent, weight, kids, a, n, j + 1);
      OpenStep(parent, kids, a, n, j + 1);
      OpenLightest(parent, weight, kids, a, n, j + 1);
      W.MergeBound(OpenAt(parent, n, j), CountsOf(weight, n), kids[j + 1].0, kids[j + 1].1, j + 1,
          MergeSum(weight, n, j + 1));
    }
  }

  lemma OnlyOpen(parent: seq<int>, weight: seq<int>, n: nat)
    requires Upward(parent, n) && 1 <= n < |weight| && parent[n] == -1 && (forall k | 1 <= k < n :: parent[k] != -1)
        && Count(weight[n]) >= 0
    ensures W.Bound(OpenAt(parent, n, n), CountsOf(weight, n), 0)
  {
    hide Count;
    var open, w := OpenAt(parent, n, n), CountsOf(weight, n);
    forall l, d | W.IsCode(open, l, d)
      ensures |l| == |open| && W.Cost(open, w, l, |open|) >= 0
    {
      NothingOpen(open, w, l, n);
      W.MulNonNegative(w[n], l[n]);
    }
  }

  lemma {:induction false} NothingOpen(open: seq<bool>, w: seq<int>, l: seq<int>, i: nat)
    requires i <= |open| == |w| == |l| && forall k | 0 <= k < i :: !open[k]
    ensures W.Cost(open, w, l, i) == 0
  {
    if i > 0 {
      NothingOpen(open, w, l, i - 1);
    }
  }

  /** The depths in the tree cost exactly that. */
  lemma {:induction false} TreeCost(parent: seq<int>, weight: seq<int>, kids: seq<(int, int)>, a: int, n: int, j: int)
    requires Linked(parent, kids, a, n) && Upward(parent, n) && a <= j <= n && |weight| == |parent|
        && Greedy(parent, weight, kids, a, n)
    requires parent[n] == -1 && forall k | 1 <= k < n :: parent[k] != -1
    ensures W.Cost(OpenAt(parent, n, j), CountsOf(weight, n), Depths(parent, n), n + 1) == MergeSum(weight, n, j)
    decreases n - j
  {
    hide W.Cost, Linked, Greedy, Count;
    LinkedSizes(parent, kids, a, n);
    if j == n {
      RootCost(parent, weight, n);
    } else {
      TreeCost(parent, weight, kids, a, n, j + 1);
      OpenStep(parent, kids, a, n, j + 1);
      OpenLightest(parent, weight, kids, a, n, j + 1);
      DepthStep(parent, kids, a, n, j + 1);
      W.CostMerge(OpenAt(parent, n, j), CountsOf(weight, n), Depths(parent, n), kids[j + 1].0, kids[j + 1].1, j + 1);
    }
  }

  lemma RootCost(parent: seq<int>, weight: seq<int>, n: nat)
    requires Upward(parent, n) && 1 <= n < |weight| && parent[n] == -1 && forall k | 1 <= k < n :: parent[k] != -1
    ensures W.Cost(OpenAt(parent, n, n), CountsOf(weight, n), Depths(parent, n), n + 1) == 0
  {
    hide Count;
    NothingOpen(OpenAt(parent, n, n), CountsOf(weight, n), Depths(parent, n), n);
  }

  lemma DepthStep(parent: seq<int>, kids: seq<(int, int)>, a: int, n: int, j: int)
    requires Linked(parent, kids, a, n) && Upward(parent, n) && a < j <= n
    ensures 1 <= kids[j].0 < j && 1 <= kids[j].1 < j
    ensures Depths(parent, n)[kids[j].0] == Depths(parent, n)[kids[j].1] == Depths(parent, n)[j] + 1
  {
    assert Branch(parent, kids[j], j);
  }

  /** The sum of the counts times the lengths. */
  ghost function Weighted(counts: seq<int>, len: seq<int>): int
    requires |counts| == |len|
  {
    if len == [] then 0
    else Weighted(counts[..|len| - 1], len[..|len| - 1]) + counts[|len| - 1] * len[|len| - 1]
  }

  /** The lengths satisfy the Kraft inequality. */
  ghost predicate PrefixCode(len: seq<int>, d: int) {
    d >= 0 && (forall i | 0 <= i < |len| :: 0 <= len[i] <= d) && KraftSum(len, d) <= Pow2(d)
  }

  /** No prefix code has a smaller weighted length. */
  ghost predicate Optimal(counts: seq<int>, len: seq<int>) {
    |counts| == |len| && forall l, d | PrefixCode(l, d) && |l| == |len| :: Weighted(counts, len) <= Weighted(counts, l)
  }

  /** Lengths of the leaves as lengths of the nodes. */
  ghost function AsNodes(l: seq<int>, n: nat): (r: seq<int>)
    requires |l| <= n
    ensures |r| == n + 1
  {
    [0] + l + seq(n - |l|, i => 0)
  }

  lemma {:induction false} LeafCost(open: seq<bool>, w: seq<int>, l: seq<int>, counts: seq<int>, n: nat, i: nat)
    requires |open| == |w| == n + 1 && |l| == |counts| <= n && i <= n + 1
    requires forall k | 0 <= k <= n :: open[k] <==> 1 <= k <= |l|
    requires forall k | 0 <= k < |l| :: w[k + 1] == counts[k]
    ensures W.Cost(open, w, AsNodes(l, n), i) ==
        var m := if i == 0 then 0 else if i <= |l| + 1 then i - 1 else |l|; Weighted(counts[..m], l[..m])
  {
    if i == 0 {
    } else {
      LeafCost(open, w, l, counts, n, i - 1);
      if 2 <= i <= |l| + 1 {
        var m := i - 1;
        assert counts[..m][..m - 1] == counts[..m - 1] && l[..m][..m - 1] == l[..m - 1];
      }
    }
  }

  lemma {:induction false} LeafKraft(open: seq<bool>, l: seq<int>, d: int, n: nat, i: nat)
    requires |open| == n + 1 && |l| <= n && i <= n + 1 && d >= 0 && forall k | 0 <= k < |l| :: 0 <= l[k] <= d
    requires forall k | 0 <= k <= n :: open[k] <==> 1 <= k <= |l|
    ensures W.Within(open, AsNodes(l, n), d)
    ensures W.Kraft(open, AsNodes(l, n), d, i) ==
        var m := if i == 0 then 0 else if i <= |l| + 1 then i - 1 else |l|; KraftSum(l[..m], d)
  {
    hide Pow2;
    if i > 0 {
      LeafKraft(open, l, d, n, i - 1);
      if 2 <= i <= |l| + 1 {
        var m := i - 1;
        assert l[..m][..m - 1] == l[..m - 1];
      }
    }
  }

  /** No other code for the counts of the leaves costs less than the merged weights. */
  lemma LeavesBound(parent: seq<int>, weight: seq<int>, kids: seq<(int, int)>, a: int, n: int, total: int,
      counts: seq<int>, l: seq<int>, d: int)
    requires Tree(parent, weight, kids, a, n, total) && a < n && |counts| == a && Count(weight[n]) >= 0
    requires forall i | 0 <= i < a :: counts[i] == Count(weight[i + 1])
    requires PrefixCode(l, d) && |l| == a
    ensures MergeSum(weight, n, a) <= Weighted(counts, l)
  {
    hide Count, W.Cost, W.Kraft, KraftSum, Weighted, Pow2, Depth, MergeSum, Fib;
    var open, w := OpenAt(parent, n, a), CountsOf(weight, n);
    LeavesOpen(parent, weight, kids, a, n, total);
    TreeBound(parent, weight, kids, a, n, a);
    LeafCost(open, w, l, counts, n, n + 1);
    LeafKraft(open, l, d, n, n + 1);
    assert l[..a] == l && counts[..a] == counts;
    W.BoundOf(open, w, MergeSum(weight, n, a), AsNodes(l, n), d);
  }

  /** At the start the open nodes are the leaves. */
  lemma LeavesOpen(parent: seq<int>, weight: seq<int>, kids: seq<(int, int)>, a: int, n: int, total: int)
    requires Tree(parent, weight, kids, a, n, total) && a < n
    ensures forall k | 0 <= k <= n :: OpenAt(parent, n, a)[k] <==> 1 <= k <= a
  {
    hide Count, Depth, Fib;
    forall k | 0 <= k <= n
      ensures OpenAt(parent, n, a)[k] <==> 1 <= k <= a
    {
      if 1 <= k <= a {
        assert parent[k] == -1 || Child(parent, kids, a, n, k);
      }
    }
  }

  /** The depths of the leaves are an optimal code for their counts. */
  lemma TreeOptimal(parent: seq<int>, weight: seq<int>, kids: seq<(int, int)>, a: int, n: int, total: int,
      counts: seq<int>, len: seq<int>)
    requires Tree(parent, weight, kids, a, n, total) && a < n && |len| == |counts| == a && Count(weight[n]) >= 0
    requires forall i | 0 <= i < a :: len[i] == Depth(parent, n, i + 1) && counts[i] == Count(weight[i + 1])
    ensures Optimal(counts, len)
  {
    hide Count, W.Cost, W.Kraft, KraftSum, Weighted, Pow2, Depth, MergeSum, Fib, PrefixCode;
    var open, w := OpenAt(parent, n, a), CountsOf(weight, n);
    LeavesOpen(parent, weight, kids, a, n, total);
    TreeCost(parent, weight, kids, a, n, a);
    LeafCost(open, w, len, counts, n, n + 1);
    assert counts[..a] == counts && len[..a] == len;
    SameCost(open, w, AsNodes(len, n), Depths(parent, n), n + 1);
    forall l, d | PrefixCode(l, d) && |l| == a
      ensures Weighted(counts, len) <= Weighted(counts, l)
    {
      LeavesBound(parent, weight, kids, a, n, total, counts, l, d);
    }
  }

  lemma {:induction false} SameCost(open: seq<bool>, w: seq<int>, l: seq<int>, l': seq<int>, i: nat)
    requires i <= |open| == |w| == |l| == |l'| && forall k | 0 <= k < i && open[k] :: l[k] == l'[k]
    ensures W.Cost(open, w, l, i) == W.Cost(open, w, l', i)
  {
    if i > 0 {
      SameCost(open, w, l, l', i - 1);
    }
  }
}
