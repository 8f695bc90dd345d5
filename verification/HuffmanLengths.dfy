/** Huffman code lengths. */
module HuffmanLengths {
  // The two smallest weights are merged until one tree is left, and the counts are halved and the construction repeated
  // while some code is too long.

  import opened Arith
  import opened HuffmanHeap
  import opened HuffmanTree

  const MAX_ALPHA := 258

  // ---------------------------------------------------------------- the procedure

  ghost function LeafSum(weight: seq<int>, a: nat): int
    requires a < |weight|
  {
    if a == 0 then 0 else LeafSum(weight, a - 1) + Count(weight[a])
  }

  /** Leaves carry a positive count and height zero. */
  ghost predicate Leaves(weight: seq<int>, a: int) {
    1 <= a < |weight| && forall k | 1 <= k <= a :: Count(weight[k]) >= 1 && Height(weight[k]) == 0
  }

  lemma {:induction false} LeafRoots(parent: seq<int>, weight: seq<int>, a: nat)
    requires a < |parent| && a < |weight| && forall k | 1 <= k <= a :: parent[k] == -1
    ensures RootSum(parent, weight, a) == LeafSum(weight, a)
  {
    if a > 0 {
      LeafRoots(parent, weight, a - 1);
    }
  }

  lemma PlantedIsGrown(parent: seq<int>, weight: seq<int>, kids: seq<(int, int)>, a: int)
    requires Leaves(weight, a) && |parent| == |weight| == |kids| && LeafSum(weight, a) < 0x80_0000
    requires forall k | 1 <= k <= a :: parent[k] == -1
    ensures Grown(parent, weight, kids, a, a, 0, LeafSum(weight, a)) && Greedy(parent, weight, kids, a, a)
  {
    LeafRoots(parent, weight, a);
    assert Fib(2) == 1;
  }

  /** All leaves become roots and enter the heap. */
  method Plant(heap: array<int>, weight: array<int>, parent: array<int>, a: int)
    requires heap != weight && heap != parent && weight != parent
    requires Leaves(weight[..], a) && a + 1 < heap.Length && weight.Length == parent.Length
    modifies heap, weight, parent
    ensures weight[..] == old(weight[..])[0 := 0] && forall k | 1 <= k <= a :: parent[k] == -1
    ensures HeapOf(heap[..], weight[..], a, RootNodes(parent[..], a))
  {
    hide HeapOf, RootNodes;
    heap[0] := 0;
    weight[0] := 0;
    parent[0] := -2;
    ghost var w := weight[..];
    assert w == old(weight[..])[0 := 0];
    NothingPlanted(heap[..], w, parent[..]);
    var i := 1;
    while i <= a
      invariant 1 <= i <= a + 1
      invariant weight[..] == w
      invariant forall k | 1 <= k < i :: parent[k] == -1
      invariant HeapOf(heap[..], w, i - 1, RootNodes(parent[..], i - 1))
    {
      ghost var p := parent[..];
      parent[i] := -1;
      RootNodesExtend(p, i);
      assert parent[..] == p[i := -1];
      assert old(weight[..])[i] > 0 && w[i] == old(weight[..])[i];
      Insert(heap, weight, i - 1, i, RootNodes(p, i - 1));
      i := i + 1;
    }
  }

  lemma NothingPlanted(h: seq<int>, w: seq<int>, parent: seq<int>)
    requires |h| > 0 && h[0] == 0 && |w| > 0 && w[0] == 0 && |parent| > 0
    ensures HeapOf(h, w, 0, RootNodes(parent, 0))
  {
  }

  lemma RootNodesExtend(parent: seq<int>, n: nat)
    requires 1 <= n < |parent|
    ensures RootNodes(parent[n := -1], n) == RootNodes(parent, n - 1) + multiset{n}
  {
    hide RootNodes;
    RootNodesFrame(parent, parent[n := -1], n - 1);
    RootNodesStep(parent[n := -1], n);
  }

  lemma RootNodesStep(parent: seq<int>, n: nat)
    requires 1 <= n < |parent| && parent[n] == -1
    ensures RootNodes(parent, n) == RootNodes(parent, n - 1) + multiset{n}
  {
  }

  lemma {:induction false} RootNodesFrame(parent: seq<int>, parent': seq<int>, n: nat)
    requires n < |parent| == |parent'| && forall k | 1 <= k <= n :: parent[k] == parent'[k]
    ensures RootNodes(parent, n) == RootNodes(parent', n)
  {
    if n > 0 {
      RootNodesFrame(parent, parent', n - 1);
    }
  }

  /** The two nodes taken from the heap are the two lightest roots. */
  lemma LightestRoots(parent: seq<int>, weight: seq<int>, n: nat, n1: int, n2: int)
    requires n < |parent| == |weight|
    requires 0 < n1 < |weight| && n1 in RootNodes(parent, n)
    requires 0 < n2 < |weight| && n2 in RootNodes(parent, n) - multiset{n1}
    requires forall k | k in RootNodes(parent, n) :: 0 < k < |weight| && weight[n1] <= weight[k]
    requires forall k | k in RootNodes(parent, n) - multiset{n1} :: 0 < k < |weight| && weight[n2] <= weight[k]
    ensures 1 <= n1 <= n && 1 <= n2 <= n && n1 != n2 && parent[n1] == -1 && parent[n2] == -1
    ensures Count(weight[n1]) <= Count(weight[n2])
    ensures forall k | 1 <= k <= n && parent[k] == -1 && k != n1 :: Count(weight[n2]) <= Count(weight[k])
  {
    hide RootNodes;
    var nodes := RootNodes(parent, n);
    RootNodesMember(parent, n, n1);
    RootNodesMember(parent, n, n2);
    forall k | 1 <= k <= n && parent[k] == -1 && k != n1
      ensures Count(weight[n2]) <= Count(weight[k])
    {
      RootNodesMember(parent, n, k);
      assert k in nodes - multiset{n1};
    }
  }

  /** What the merging loop keeps: the heap holds exactly the roots of a well-grown forest. */
  ghost predicate Growing(h: seq<int>, weight: seq<int>, parent: seq<int>, kids: seq<(int, int)>,
                          a: int, n: int, nHeap: int, low: int, total: int) {
    && 1 <= a <= n < |parent| == |weight| == |kids| && n + nHeap == 2 * a <= |parent| && 0 <= nHeap < |h|
    && Grown(parent, weight, kids, a, n, low, total) && Greedy(parent, weight, kids, a, n)
    && Leaves(weight, a) && weight[0] == 0 && parent[n] == -1
    && HeapOf(h, weight, nHeap, RootNodes(parent, n))
  }

  /** The two lightest roots leave the heap. */
  method TakeTwo(heap: array<int>, weight: array<int>, nHeap: int, ghost parent: seq<int>, ghost n: nat)
    returns (n1: int, n2: int)
    requires heap != weight && nHeap >= 2 && n < |parent| == weight.Length
    requires HeapOf(heap[..], weight[..], nHeap, RootNodes(parent, n))
    modifies heap
    ensures 1 <= n1 <= n && 1 <= n2 <= n && n1 != n2 && parent[n1] == -1 && parent[n2] == -1
    ensures Count(weight[n1]) <= Count(weight[n2])
    ensures forall k | 1 <= k <= n && parent[k] == -1 && k != n1 :: Count(weight[n2]) <= Count(weight[k])
    ensures HeapOf(heap[..], weight[..], nHeap - 2, RootNodes(parent, n) - multiset{n1} - multiset{n2})
  {
    hide HeapOf, RootNodes;
    n1 := ExtractMin(heap, weight, nHeap, RootNodes(parent, n));
    n2 := ExtractMin(heap, weight, nHeap - 1, RootNodes(parent, n) - multiset{n1});
    LightestRoots(parent, weight[..], n, n1, n2);
  }

  /** One round of the merging loop. */
  method MergeTwo(heap: array<int>, weight: array<int>, parent: array<int>, a: int, n: int, nHeap: int,
                  ghost kids: seq<(int, int)>, ghost low: int, ghost total: int)
    returns (ghost kids': seq<(int, int)>, ghost low': int)
    requires heap != weight && heap != parent && weight != parent && nHeap >= 2
    requires Growing(heap[..], weight[..], parent[..], kids, a, n, nHeap, low, total)
    modifies heap, weight, parent
    ensures Growing(heap[..], weight[..], parent[..], kids', a, n + 1, nHeap - 1, low', total)
    ensures forall k | 1 <= k <= a :: weight[k] == old(weight[k])
  {
    hide HeapOf, RootNodes, Grown, Adopt, AddWeights, Leaves, Greedy;
    ghost var p, w := parent[..], weight[..];
    var n1, n2 := TakeTwo(heap, weight, nHeap, p, n);
    LeavesAreFlat(w, a);
    MergeRoots(p, w, kids, a, n, low, total, n1, n2);
    MergeGreedy(p, w, kids, a, n, low, total, n1, n2);
    AdoptNodes(p, n, n1, n2);
    ghost var rest := RootNodes(p, n) - multiset{n1} - multiset{n2};
    Join(weight, parent, n, n1, n2);
    kids', low' := kids[n + 1 := (n1, n2)], Count(w[n2]);
    AdoptLength(p, n, n1, n2);
    NewNodeNotInHeap(p, n, n1, n2);
    LeavesStay(w, a, n, weight[n + 1]);
    HeapOfFrame(heap[..], w, weight[..], nHeap - 2, rest);
    Insert(heap, weight, nHeap - 2, n + 1, rest);
  }

  lemma MergeGreedy(parent: seq<int>, weight: seq<int>, kids: seq<(int, int)>, a: int, n: int, low: int, total: int,
      n1: int, n2: int)
    requires Grown(parent, weight, kids, a, n, low, total) && Greedy(parent, weight, kids, a, n) && n + 1 < |parent|
    requires 1 <= n1 <= n && 1 <= n2 <= n && n1 != n2 && parent[n1] == -1 && parent[n2] == -1
    requires 0 <= Count(weight[n1]) <= Count(weight[n2])
    requires forall k | 1 <= k <= n && parent[k] == -1 && k != n1 :: Count(weight[n2]) <= Count(weight[k])
    requires Height(weight[n1]) < 255 && Height(weight[n2]) < 255
    requires Count(AddWeights(weight[n1], weight[n2])) == Count(weight[n1]) + Count(weight[n2])
    ensures Linked(Adopt(parent, n, n1, n2), kids[n + 1 := (n1, n2)], a, n + 1)
    ensures Greedy(Adopt(parent, n, n1, n2), weight[n + 1 := AddWeights(weight[n1], weight[n2])],
        kids[n + 1 := (n1, n2)], a, n + 1)
  {
    hide Linked, Greedy, Adopt, AddWeights, Count, Levelled, Costly, RootSum;
    AdoptLength(parent, n, n1, n2);
    AdoptLinked(parent, kids, a, n, n1, n2);
    AdoptGreedy(parent, weight, kids, a, n, n1, n2, AddWeights(weight[n1], weight[n2]));
  }

  lemma LeavesAreFlat(weight: seq<int>, a: int)
    requires Leaves(weight, a)
    ensures 1 <= a < |weight| && forall k | 1 <= k <= a :: Height(weight[k]) == 0
  {
  }

  lemma LeavesStay(weight: seq<int>, a: int, n: int, z: int)
    requires Leaves(weight, a) && a <= n && n + 1 < |weight|
    ensures Leaves(weight[n + 1 := z], a)
  {
  }

  /** Makes node `n + 1` the parent of two roots. */
  method Join(weight: array<int>, parent: array<int>, n: int, n1: int, n2: int)
    requires weight != parent && weight.Length == parent.Length && 0 <= n && n + 1 < weight.Length && 0 <= n1 <= n
        && 0 <= n2 <= n
    requires Height(weight[n1]) < 255 && Height(weight[n2]) < 255
    modifies weight, parent
    ensures parent[..] == Adopt(old(parent[..]), n, n1, n2)
    ensures weight[..] == old(weight[..])[n + 1 := AddWeights(old(weight[n1]), old(weight[n2]))]
  {
    parent[n1] := n + 1;
    parent[n2] := n + 1;
    weight[n + 1] := AddWeights(weight[n1], weight[n2]);
    parent[n + 1] := -1;
  }

  lemma NewNodeNotInHeap(parent: seq<int>, n: nat, n1: int, n2: int)
    requires n < |parent|
    ensures n + 1 !in RootNodes(parent, n) - multiset{n1} - multiset{n2}
  {
    RootNodesMember(parent, n, n + 1);
  }

  lemma GrownTree(h: seq<int>, weight: seq<int>, parent: seq<int>, kids: seq<(int, int)>, a: int, n: int, low: int,
      total: int)
    requires Growing(h, weight, parent, kids, a, n, 1, low, total)
    ensures Upward(parent, n) && Tree(parent, weight, kids, a, n, total)
  {
    assert Upward(parent, n) by {
      forall k | 1 <= k <= n
        ensures parent[k] == -1 || k < parent[k] <= n
      {
        assert parent[k] == -1 || Child(parent, kids, a, n, k);
      }
    }
    assert |multiset(h[1..2])| == 1;
    forall k | 1 <= k < n
      ensures parent[k] != -1
    {
      OnlyRoot(parent, n, k);
    }
    forall k | 1 <= k <= a
      ensures Depth(parent, n, k) <= Height(weight[n])
    {
      DepthHeight(parent, weight, kids, a, n, low, total, k);
    }
    OnlyRootSum(parent, weight, n, n);
  }

  lemma {:induction false} OnlyRootSum(parent: seq<int>, weight: seq<int>, n: nat, i: nat)
    requires 1 <= n < |parent| && n < |weight| && i <= n
    requires parent[n] == -1 && forall k | 1 <= k < n :: parent[k] != -1
    ensures RootSum(parent, weight, i) == if i == n then Count(weight[n]) else 0
  {
    if i > 0 {
      OnlyRootSum(parent, weight, n, i - 1);
    }
  }

  /** Builds one tree over all leaves. */
  method BuildTree(heap: array<int>, weight: array<int>, parent: array<int>, a: int)
    returns (n: int, ghost kids: seq<(int, int)>)
    requires heap != weight && heap != parent && weight != parent
    requires 2 <= a && a + 1 < heap.Length && 2 * a <= weight.Length == parent.Length
    requires Leaves(weight[..], a) && LeafSum(weight[..], a) < 0x80_0000
    modifies heap, weight, parent
    ensures forall k | 1 <= k <= a :: weight[k] == old(weight[k])
    ensures n == 2 * a - 1 && Tree(parent[..], weight[..], kids, a, n, LeafSum(old(weight[..]), a))
    ensures Upward(parent[..], n)
  {
    hide HeapOf, RootNodes, Grown, Tree, Greedy;
    ghost var total := LeafSum(weight[..], a);
    LeafSumFrame(weight[..], weight[..][0 := 0], a);
    Plant(heap, weight, parent, a);
    kids := seq(parent.Length, i => (0, 0));
    ghost var low := 0;
    n := a;
    PlantedIsGrown(parent[..], weight[..], kids, a);
    var nHeap := a;
    while nHeap > 1
      invariant 1 <= nHeap && Growing(heap[..], weight[..], parent[..], kids, a, n, nHeap, low, total)
      invariant forall k | 1 <= k <= a :: weight[k] == old(weight[k])
    {
      kids, low := MergeTwo(heap, weight, parent, a, n, nHeap, kids, low, total);
      n, nHeap := n + 1, nHeap - 1;
    }
    GrownTree(heap[..], weight[..], parent[..], kids, a, n, low, total);
  }

  lemma {:induction false} LeafSumFrame(weight: seq<int>, weight': seq<int>, a: nat)
    requires a < |weight| && a < |weight'| && forall k | 1 <= k <= a :: weight[k] == weight'[k]
    ensures LeafSum(weight, a) == LeafSum(weight', a)
  {
    if a > 0 {
      LeafSumFrame(weight, weight', a - 1);
    }
  }

  /** Walks from every leaf to the root and records how far that is. */
  method ReadLengths(len: array<int>, parent: array<int>, a: int, n: int, maxLen: int) returns (tooLong: bool)
    requires len != parent && 1 <= a <= n && a <= len.Length && Upward(parent[..], n)
    modifies len
    ensures forall i | 0 <= i < a :: len[i] == Depth(parent[..], n, i + 1)
    ensures tooLong <==> exists i | 0 <= i < a :: len[i] > maxLen
    ensures forall i | a <= i < len.Length :: len[i] == old(len[i])
  {
    ghost var p := parent[..];
    ghost var worst := 0;
    tooLong := false;
    for i := 1 to a + 1
      invariant forall k | 0 <= k < i - 1 :: len[k] == Depth(p, n, k + 1)
      invariant tooLong ==> 0 <= worst < i - 1 && len[worst] > maxLen
      invariant !tooLong ==> forall k | 0 <= k < i - 1 :: len[k] <= maxLen
      invariant forall k | a <= k < len.Length :: len[k] == old(len[k])
    {
      var j, k := 0, i;
      while parent[k] >= 0
        invariant 1 <= k <= n && j + Depth(p, n, k) == Depth(p, n, i)
        decreases n - k
      {
        k := parent[k];
        j := j + 1;
      }
      len[i - 1] := j;
      if j > maxLen { tooLong, worst := true, i - 1; }
    }
  }

  /** Halves every count, but never below one. */
  method Rescale(weight: array<int>, a: int)
    requires Leaves(weight[..], a)
    modifies weight
    ensures Leaves(weight[..], a)
    ensures forall k | 1 <= k <= a :: Count(weight[k]) == 1 + Count(old(weight[k])) / 2
  {
    for i := 1 to a + 1
      invariant forall k | 1 <= k < i :: Count(weight[k]) == 1 + Count(old(weight[k])) / 2 && Height(weight[k]) == 0
      invariant forall k | i <= k <= a :: weight[k] == old(weight[k])
    {
      var j := weight[i] / 256;
      j := 1 + j / 2;
      weight[i] := j * 256;
    }
  }

  /** Rescaling shrinks the total as soon as one count exceeds two. */
  lemma {:induction false} RescaleShrinks(weight: seq<int>, weight': seq<int>, a: nat)
    requires a < |weight| && a < |weight'|
    requires forall k | 1 <= k <= a :: Count(weight[k]) >= 1 && Count(weight'[k]) == 1 + Count(weight[k]) / 2
    ensures LeafSum(weight', a) <= LeafSum(weight, a)
    ensures LeafSum(weight, a) > 2 * a ==> LeafSum(weight', a) < LeafSum(weight, a)
  {
    if a > 0 {
      RescaleShrinks(weight, weight', a - 1);
    }
  }

  lemma {:induction false} LeafSumAtLeast(weight: seq<int>, a: nat)
    requires a < |weight| && forall k | 1 <= k <= a :: Count(weight[k]) >= 1
    ensures LeafSum(weight, a) >= a
  {
    if a > 0 {
      LeafSumAtLeast(weight, a - 1);
    }
  }

  ghost function FreqSum(freq: seq<nat>): nat {
    if freq == [] then 0
    else FreqSum(freq[..|freq| - 1]) + (if freq[|freq| - 1] == 0 then 1 else freq[|freq| - 1])
  }

  /** The counts that the first tree is built for. */
  ghost function Counts(freq: seq<nat>): (r: seq<int>)
    ensures |r| == |freq|
  {
    seq(|freq|, i requires 0 <= i < |freq| => if freq[i] == 0 then 1 else freq[i])
  }

  /** Counts that were halved `rounds` times. */
  ghost function Rescaled(counts: seq<int>, rounds: nat): (r: seq<int>)
    ensures |r| == |counts|
  {
    if rounds == 0 then counts
    else
      var before := Rescaled(counts, rounds - 1);
      seq(|counts|, i requires 0 <= i < |counts| => 1 + before[i] / 2)
  }

  /** A count after some halvings: what dividing by that power of two gives, and one or two more. */
  lemma {:induction false} RescaledIs(counts: seq<int>, rounds: nat, i: nat)
    requires i < |counts| && rounds >= 1
    ensures counts[i] / Pow2(rounds) + 1 <= Rescaled(counts, rounds)[i] <= counts[i] / Pow2(rounds) + 2
  {
    if rounds == 1 {
      assert Rescaled(counts, 0) == counts && Pow2(1) == 2;
    } else {
      RescaledIs(counts, rounds - 1, i);
      HalvedAgain(counts[i], Pow2(rounds - 1));
    }
  }

  lemma HalvedAgain(x: int, p: int)
    requires p >= 1
    ensures x / p / 2 == x / (2 * p)
  {
    var q, r := x / p, x % p;
    assert x == p * q + r;
    assert p * q == (2 * p) * (q / 2) + p * (q % 2);
    Quotient(x, 2 * p, q / 2, p * (q % 2) + r);
  }

  lemma Quotient(x: int, n: int, q: int, r: int)
    requires n >= 1 && 0 <= r < n && x == n * q + r
    ensures x / n == q
  {
    ModUnique(x, n, q, r);
    assert n * (x / n) == n * q;
    if x / n > q {
      MulGap(n, x / n - q);
    } else if x / n < q {
      MulGap(n, q - x / n);
    }
  }

  /** Some best code for these counts is too long. */
  ghost predicate TooLong(counts: seq<int>, maxLen: int) {
    exists len, d :: PrefixCode(len, d) && Optimal(counts, len) && exists i :: 0 <= i < |len| && len[i] > maxLen
  }

  /** The leaves carry these counts. */
  ghost predicate Carries(weight: seq<int>, counts: seq<int>) {
    |counts| < |weight| && forall i | 0 <= i < |counts| :: Count(weight[i + 1]) == counts[i]
  }

  lemma CarriesNext(weight: seq<int>, weight': seq<int>, counts: seq<int>, rounds: nat)
    requires Carries(weight, Rescaled(counts, rounds)) && |weight| == |weight'|
    requires forall k | 1 <= k <= |counts| :: Count(weight'[k]) == 1 + Count(weight[k]) / 2
    ensures Carries(weight', Rescaled(counts, rounds + 1))
  {
  }

  lemma CarriesFrame(weight: seq<int>, weight': seq<int>, counts: seq<int>)
    requires Carries(weight, counts) && |weight| == |weight'|
        && forall k | 1 <= k <= |counts| :: weight[k] == weight'[k]
    ensures Carries(weight', counts)
  {
  }

  /** Packs the frequencies; a symbol that does not occur counts once. */
  method PackWeights(weight: array<int>, freq: seq<nat>)
    requires |freq| < weight.Length && |freq| >= 1
    modifies weight
    ensures Leaves(weight[..], |freq|) && LeafSum(weight[..], |freq|) == FreqSum(freq)
        && Carries(weight[..], Counts(freq))
  {
    for i := 0 to |freq|
      invariant forall k | 1 <= k <= i :: Count(weight[k]) >= 1 && Height(weight[k]) == 0
      invariant LeafSum(weight[..], i) == FreqSum(freq[..i])
          && forall k | 0 <= k < i :: Count(weight[k + 1]) == Counts(freq)[k]
    {
      ghost var w := weight[..];
      weight[i + 1] := (if freq[i] == 0 then 1 else freq[i]) * 256;
      LeafSumFrame(w, weight[..], i);
      assert freq[..i + 1][..i] == freq[..i];
    }
    assert freq[..|freq|] == freq;
  }

  /** The limit of 17 bits that the compressor uses is enough for every alphabet. */
  lemma SeventeenIsEnough(a: nat)
    requires a <= MAX_ALPHA
    ensures Fib(17 + 3) > 2 * a
  {
    assert Fib(8) == 21 && Fib(9) == 34;
    assert Fib(12) == 3 * Fib(9) + 2 * Fib(8);
    assert Fib(15) == Fib(13) + Fib(14);
    FibMonotone(15, 20);
  }

  lemma RootHeavy(parent: seq<int>, weight: seq<int>, kids: seq<(int, int)>, a: int, n: int, total: int)
    requires Tree(parent, weight, kids, a, n, total) && a < n
    ensures Count(weight[n]) >= 0
  {
    assert Branch(parent, kids[n], n);
    assert Picked(parent, weight, kids[n], n);
  }

  lemma LengthsOptimal(parent: seq<int>, weight: seq<int>, kids: seq<(int, int)>, a: int, n: int, total: int,
      counts: seq<int>, len: seq<int>)
    requires Tree(parent, weight, kids, a, n, total) && a < n && Upward(parent, n) && Carries(weight, counts)
        && |counts| == |len| == a
    requires forall i | 0 <= i < a :: len[i] == Depth(parent, n, i + 1)
    ensures Optimal(counts, len)
  {
    hide Tree, Depth, Count, Optimal;
    RootHeavy(parent, weight, kids, a, n, total);
    TreeOptimal(parent, weight, kids, a, n, total, counts, len);
  }

  lemma LengthsTooLong(parent: seq<int>, weight: seq<int>, kids: seq<(int, int)>, a: int, n: int, total: int,
      counts: seq<int>, len: seq<int>, i: int, maxLen: int)
    requires Tree(parent, weight, kids, a, n, total) && a < n && Upward(parent, n)
    requires |len| == a && Optimal(counts, len) && 0 <= i < a && len[i] > maxLen
    requires forall i | 0 <= i < a :: len[i] == Depth(parent, n, i + 1)
    ensures TooLong(counts, maxLen)
  {
    hide Tree, Depth, Optimal, KraftSum, Pow2;
    TreeLengths(parent, weight, kids, a, n, total, len, n);
    assert PrefixCode(len, n);
  }

  /**
    For every frequency vector of 2 to 258 symbols whose counts fit 23 bits, the construction
    terminates with lengths between 1 and `maxLen` whose Kraft sum is exactly one, provided that
    a tree over counts of at most two cannot be deeper than `maxLen`.  The lengths are optimal for
    the counts after `rounds` rescalings, and nothing is rescaled if the total is below the
    Fibonacci number that a longer code would need.
   */
  method MakeCodeLengths(len: array<int>, freq: seq<nat>, maxLen: nat) returns (ghost rounds: nat)
    requires 2 <= |freq| <= MAX_ALPHA && len.Length == |freq|
    requires FreqSum(freq) < 0x80_0000 && Fib(maxLen + 3) > 2 * |freq|
    modifies len
    ensures forall i | 0 <= i < |freq| :: 1 <= len[i] <= maxLen
    ensures KraftSum(len[..], maxLen) == Pow2(maxLen)
    ensures Optimal(Rescaled(Counts(freq), rounds), len[..])
    ensures FreqSum(freq) < Fib(maxLen + 3) ==> rounds == 0
    ensures forall r | 0 <= r < rounds :: TooLong(Rescaled(Counts(freq), r), maxLen)
  {
    hide Tree, Fib, LeafSum, FreqSum, KraftSum, Pow2, Carries, Rescaled, Counts, Optimal, Count, TooLong;
    var a := |freq|;
    var heap := new int[MAX_ALPHA + 2];
    var weight := new int[MAX_ALPHA * 2];
    var parent := new int[MAX_ALPHA * 2];
    PackWeights(weight, freq);
    LeafSumAtLeast(weight[..], a);
    rounds := 0;
    CarriesStart(weight[..], freq);
    while true
      invariant Leaves(weight[..], a) && 0 <= LeafSum(weight[..], a) < 0x80_0000
      invariant Carries(weight[..], Rescaled(Counts(freq), rounds))
      invariant if rounds == 0 then LeafSum(weight[..], a) == FreqSum(freq) else Fib(maxLen + 3) <= FreqSum(freq)
      invariant forall r | 0 <= r < rounds :: TooLong(Rescaled(Counts(freq), r), maxLen)
      decreases LeafSum(weight[..], a)
    {
      ghost var w := weight[..];
      var n, kids := BuildTree(heap, weight, parent, a);
      LeafSumFrame(w, weight[..], a);
      CarriesFrame(w, weight[..], Rescaled(Counts(freq), rounds));
      assert Upward(parent[..], n);
      var tooLong := ReadLengths(len, parent, a, n, maxLen);
      LengthsOptimal(parent[..], weight[..], kids, a, n, LeafSum(w, a), Rescaled(Counts(freq), rounds), len[..]);
      if !tooLong {
        TreeLengths(parent[..], weight[..], kids, a, n, LeafSum(w, a), len[..], maxLen);
        break;
      }
      ghost var i :| 0 <= i < a && len[i] > maxLen;
      LengthsTooLong(parent[..], weight[..], kids, a, n, LeafSum(w, a), Rescaled(Counts(freq), rounds), len[..], i,
                     maxLen);
      TooLongIsHeavy(parent[..], weight[..], kids, a, n, LeafSum(w, a), i, maxLen);
      ghost var w' := weight[..];
      Rescale(weight, a);
      RescaleShrinks(w', weight[..], a);
      CarriesNext(w', weight[..], Counts(freq), rounds);
      LeafSumAtLeast(weight[..], a);
      rounds := rounds + 1;
    }
  }

  lemma CarriesStart(weight: seq<int>, freq: seq<nat>)
    requires Carries(weight, Counts(freq))
    ensures Carries(weight, Rescaled(Counts(freq), 0))
  {
  }
}
