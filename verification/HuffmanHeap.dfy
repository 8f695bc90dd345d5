/** The binary heap of node numbers, ordered by packed weight, with a sentinel in entry 0. */
module HuffmanHeap {

  /** Entry 0 is the sentinel node 0 of weight 0; entries 1..n are nodes of positive weight. */
  ghost predicate Entries(h: seq<int>, w: seq<int>, n: int) {
    && 0 <= n < |h| && 0 < |w|
    && h[0] == 0 && w[0] == 0
    && forall i | 1 <= i <= n :: 0 < h[i] < |w| && w[h[i]] > 0
  }

  ghost predicate Edge(h: seq<int>, w: seq<int>, i: int)
    requires 2 <= i < |h| && 0 <= h[i / 2] < |w| && 0 <= h[i] < |w|
  {
    w[h[i / 2]] <= w[h[i]]
  }

  /** Every entry is at least its parent. */
  ghost predicate Ordered(h: seq<int>, w: seq<int>, n: int)
    requires Entries(h, w, n)
  {
    forall i | 2 <= i <= n :: Edge(h, w, i)
  }

  /** Ordered but for the entry at `z`, which may be too small for its parent. */
  ghost predicate OrderedButUp(h: seq<int>, w: seq<int>, n: int, z: int)
    requires Entries(h, w, n)
  {
    && 1 <= z <= n
    && (forall i | 2 <= i <= n && i != z :: Edge(h, w, i))
    && (forall i | 2 <= i <= n && i / 2 == z && z >= 2 :: w[h[z / 2]] <= w[h[i]])
  }

  /** Ordered but for the entry at `z`, which may be too large for its children. */
  ghost predicate OrderedButDown(h: seq<int>, w: seq<int>, n: int, z: int)
    requires Entries(h, w, n)
  {
    && 1 <= z <= n
    && (forall i | 2 <= i <= n && i / 2 != z :: Edge(h, w, i))
    && (forall i | 2 <= i <= n && i / 2 == z && z >= 2 :: w[h[z / 2]] <= w[h[i]])
  }

  ghost function Swap(h: seq<int>, i: int, j: int): (r: seq<int>)
    requires 0 <= i < |h| && 0 <= j < |h|
    ensures |r| == |h|
  {
    h[i := h[j]][j := h[i]]
  }

  lemma SwapKeepsNodes(h: seq<int>, n: int, i: int, j: int)
    requires 0 <= n < |h| && 1 <= i <= n && 1 <= j <= n
    ensures multiset(Swap(h, i, j)[1..n + 1]) == multiset(h[1..n + 1])
  {
    var s := h[1..n + 1];
    assert Swap(h, i, j)[1..n + 1] == s[i - 1 := s[j - 1]][j - 1 := s[i - 1]];
  }

  lemma SwapUp(h: seq<int>, w: seq<int>, n: int, z: int)
    requires Entries(h, w, n) && OrderedButUp(h, w, n, z) && z >= 2 && w[h[z]] < w[h[z / 2]]
    ensures Entries(Swap(h, z, z / 2), w, n) && OrderedButUp(Swap(h, z, z / 2), w, n, z / 2)
  {
    var p, r := z / 2, Swap(h, z, z / 2);
    forall i | 2 <= i <= n && i != p
      ensures Edge(r, w, i)
    {
      if i != z {
        assert Edge(h, w, i);
      }
    }
    if p >= 2 {
      assert Edge(h, w, p);
      forall i | 2 <= i <= n && i / 2 == p
        ensures w[r[p / 2]] <= w[r[i]]
      {
        if i != z {
          assert Edge(h, w, i);
        }
      }
    }
  }

  lemma SwapDown(h: seq<int>, w: seq<int>, n: int, z: int, y: int)
    requires Entries(h, w, n) && OrderedButDown(h, w, n, z) && 2 <= y <= n && y / 2 == z
    requires w[h[y]] <= w[h[z]]
    requires forall i | 2 <= i <= n && i / 2 == z :: w[h[y]] <= w[h[i]]
    ensures Entries(Swap(h, z, y), w, n) && OrderedButDown(Swap(h, z, y), w, n, y)
  {
    var r := Swap(h, z, y);
    forall i | 2 <= i <= n && i / 2 != y
      ensures Edge(r, w, i)
    {
      if i / 2 != z {
        assert Edge(h, w, i);
      }
    }
    forall i | 2 <= i <= n && i / 2 == y
      ensures w[r[y / 2]] <= w[r[i]]
    {
      assert Edge(h, w, i);
    }
  }

  /** The entries 1..n hold the same nodes as before, and the entries after n are untouched. */
  ghost predicate SameNodes(h: seq<int>, h0: seq<int>, n: int) {
    && |h| == |h0| && 0 <= n < |h|
    && multiset(h[1..n + 1]) == multiset(h0[1..n + 1])
    && h[n + 1..] == h0[n + 1..]
  }

  ghost predicate Rising(h: seq<int>, h0: seq<int>, w: seq<int>, n: int, z: int) {
    Entries(h, w, n) && OrderedButUp(h, w, n, z) && SameNodes(h, h0, n)
  }

  ghost predicate Sinking(h: seq<int>, h0: seq<int>, w: seq<int>, n: int, z: int) {
    Entries(h, w, n) && OrderedButDown(h, w, n, z) && SameNodes(h, h0, n)
  }

  ghost predicate Settled(h: seq<int>, h0: seq<int>, w: seq<int>, n: int) {
    Entries(h, w, n) && Ordered(h, w, n) && SameNodes(h, h0, n)
  }

  lemma RiseOne(h: seq<int>, h0: seq<int>, w: seq<int>, n: int, z: int)
    requires Rising(h, h0, w, n, z) && w[h[z]] < w[h[z / 2]]
    ensures z >= 2 && Rising(Swap(h, z, z / 2), h0, w, n, z / 2)
  {
    if z >= 2 {
      SwapUp(h, w, n, z);
      SwapKeepsNodes(h, n, z, z / 2);
    }
  }

  lemma RiseEnds(h: seq<int>, h0: seq<int>, w: seq<int>, n: int, z: int)
    requires Rising(h, h0, w, n, z) && w[h[z / 2]] <= w[h[z]]
    ensures Settled(h, h0, w, n)
  {
    forall i | 2 <= i <= n
      ensures Edge(h, w, i)
    {
      if i != z {
        assert Edge(h, w, i);
      }
    }
  }

  lemma SinkOne(h: seq<int>, h0: seq<int>, w: seq<int>, n: int, z: int, y: int)
    requires Sinking(h, h0, w, n, z) && 2 <= y <= n && y / 2 == z && w[h[y]] <= w[h[z]]
    requires forall i | 2 <= i <= n && i / 2 == z :: w[h[y]] <= w[h[i]]
    ensures Sinking(Swap(h, z, y), h0, w, n, y)
  {
    SwapDown(h, w, n, z, y);
    SwapKeepsNodes(h, n, z, y);
  }

  lemma SinkEnds(h: seq<int>, h0: seq<int>, w: seq<int>, n: int, z: int)
    requires Sinking(h, h0, w, n, z)
    requires forall i | 2 <= i <= n && i / 2 == z :: w[h[z]] <= w[h[i]]
    ensures Settled(h, h0, w, n)
  {
    forall i | 2 <= i <= n
      ensures Edge(h, w, i)
    {
      if i / 2 != z {
        assert Edge(h, w, i);
      }
    }
  }

  /** The UPHEAP macro: entry `z`, new at the end, is moved up to its place. */
  method UpHeap(heap: array<int>, weight: array<int>, z: int)
    requires heap != weight && Entries(heap[..], weight[..], z) && z >= 1
    requires forall i | 2 <= i < z :: Edge(heap[..], weight[..], i)
    modifies heap
    ensures Settled(heap[..], old(heap[..]), weight[..], z)
  {
    hide OrderedButUp, Ordered, SameNodes;
    var zz, tmp := z, heap[z];
    ghost var w, h0 := weight[..], heap[..];
    ghost var h := h0;   // the heap with `tmp` put into the hole at `zz`
    RiseStarts(h0, w, z);
    while weight[tmp] < weight[heap[zz / 2]]
      invariant 1 <= zz <= z && 0 < tmp < weight.Length && h == heap[..][zz := tmp]
      invariant Rising(h, h0, w, z, zz)
      invariant 0 <= heap[zz / 2] < weight.Length && heap[zz / 2] == h[zz / 2]
      decreases zz
    {
      RiseOne(h, h0, w, z, zz);
      h := Swap(h, zz, zz / 2);
      heap[zz] := heap[zz / 2];
      zz := zz / 2;
      assert h == heap[..][zz := tmp];
      assert heap[zz / 2] == h[zz / 2];
    }
    heap[zz] := tmp;
    RiseEnds(h, h0, w, z, zz);
  }

  lemma RiseStarts(h: seq<int>, w: seq<int>, z: int)
    requires Entries(h, w, z) && z >= 1
    requires forall i | 2 <= i < z :: Edge(h, w, i)
    ensures Rising(h, h, w, z, z)
  {
  }

  /** The DOWNHEAP macro at the root: entry 1 is moved down to its place. */
  method DownHeap(heap: array<int>, weight: array<int>, nHeap: int)
    requires heap != weight && nHeap >= 1 && Sinking(heap[..], heap[..], weight[..], nHeap, 1)
    modifies heap
    ensures Settled(heap[..], old(heap[..]), weight[..], nHeap)
  {
    hide OrderedButDown, Ordered, SameNodes;
    var zz, tmp := 1, heap[1];
    ghost var w, h0 := weight[..], heap[..];
    ghost var h := h0;
    while true
      invariant 1 <= zz <= nHeap && 0 < tmp < weight.Length && h == heap[..][zz := tmp]
      invariant Sinking(h, h0, w, nHeap, zz)
      decreases nHeap - zz
    {
      var yy := 2 * zz;
      if yy > nHeap { break; }
      assert h[yy] == heap[yy];
      if yy < nHeap {
        assert h[yy + 1] == heap[yy + 1];
        if weight[heap[yy + 1]] < weight[heap[yy]] {
          yy := yy + 1;
        }
      }
      if weight[tmp] < weight[heap[yy]] { break; }
      SinkOne(h, h0, w, nHeap, zz, yy);
      h := Swap(h, zz, yy);
      heap[zz] := heap[yy];
      zz := yy;
    }
    heap[zz] := tmp;
    SinkEnds(h, h0, w, nHeap, zz);
  }

  /** The root of an ordered heap is a smallest entry. */
  lemma {:induction false} RootIsLeast(h: seq<int>, w: seq<int>, n: int, i: int)
    requires Entries(h, w, n) && Ordered(h, w, n) && 1 <= i <= n
    ensures w[h[1]] <= w[h[i]]
  {
    if i >= 2 {
      assert Edge(h, w, i);
      RootIsLeast(h, w, n, i / 2);
    }
  }

  /** An ordered heap of `n` entries that holds exactly the given nodes. */
  ghost predicate HeapOf(h: seq<int>, w: seq<int>, n: int, nodes: multiset<int>) {
    Entries(h, w, n) && Ordered(h, w, n) && multiset(h[1..n + 1]) == nodes
  }

  /** Only the weights of the nodes in the heap matter. */
  lemma HeapOfFrame(h: seq<int>, w: seq<int>, w': seq<int>, n: int, nodes: multiset<int>)
    requires HeapOf(h, w, n, nodes) && |w'| == |w| && w'[0] == 0
    requires forall k | k in nodes && 0 < k < |w| :: w'[k] == w[k]
    ensures HeapOf(h, w', n, nodes)
  {
    forall i | 1 <= i <= n
      ensures h[i] in nodes
    {
      assert h[i] == h[1..n + 1][i - 1];
    }
    forall i | 2 <= i <= n
      ensures Edge(h, w', i)
    {
      assert Edge(h, w, i);
    }
  }

  lemma HeapNode(h: seq<int>, w: seq<int>, n: int, nodes: multiset<int>, k: int)
    requires HeapOf(h, w, n, nodes) && k in nodes
    ensures 0 < k < |w| && w[k] > 0 && n >= 1 && w[h[1]] <= w[k]
  {
    var s := h[1..n + 1];
    assert k in s;
    var i :| 0 <= i < |s| && s[i] == k;
    RootIsLeast(h, w, n, i + 1);
  }

  /** Taking the last entry to the root leaves only the root out of place. */
  lemma RemoveRoot(h: seq<int>, w: seq<int>, n: int, nodes: multiset<int>)
    requires HeapOf(h, w, n, nodes) && n >= 1
    ensures var r := h[1 := h[n]];
            && Entries(r, w, n - 1) && multiset(r[1..n]) == nodes - multiset{h[1]}
            && (n >= 2 ==> OrderedButDown(r, w, n - 1, 1))
  {
    var r := h[1 := h[n]];
    forall i | 2 <= i <= n - 1 && i / 2 != 1
      ensures Edge(r, w, i)
    {
      assert Edge(h, w, i);
    }
    RemoveRootNodes(h, n);
  }

  lemma RemoveRootNodes(h: seq<int>, n: int)
    requires 1 <= n < |h|
    ensures multiset(h[1 := h[n]][1..n]) == multiset(h[1..n + 1]) - multiset{h[1]}
  {
    var r := h[1 := h[n]];
    if n == 1 {
      assert h[1..2] == [h[1]];
    } else {
      assert h[1..n + 1] == [h[1]] + (h[2..n] + [h[n]]);
      assert r[1..n] == [h[n]] + h[2..n];
    }
  }

  /** Takes a node of least weight out of the heap. */
  method ExtractMin(heap: array<int>, weight: array<int>, nHeap: int, ghost nodes: multiset<int>) returns (least: int)
    requires heap != weight && nHeap >= 1 && HeapOf(heap[..], weight[..], nHeap, nodes)
    modifies heap
    ensures least in nodes && 0 < least < weight.Length
    ensures forall k | k in nodes :: 0 < k < weight.Length && weight[least] <= weight[k]
    ensures HeapOf(heap[..], weight[..], nHeap - 1, nodes - multiset{least})
  {
    hide Ordered, OrderedButDown, Entries;
    ghost var h := heap[..];
    LeastNode(h, weight[..], nHeap, nodes);
    least := heap[1];
    RemoveRoot(h, weight[..], nHeap, nodes);
    heap[1] := heap[nHeap];
    assert heap[..] == h[1 := h[nHeap]];
    if nHeap >= 2 {   // on an empty heap DOWNHEAP writes heap[1] back unchanged
      DownHeap(heap, weight, nHeap - 1);
    } else {
      EmptyOrdered(heap[..], weight[..]);
    }
  }

  lemma LeastNode(h: seq<int>, w: seq<int>, n: int, nodes: multiset<int>)
    requires HeapOf(h, w, n, nodes) && n >= 1
    ensures n < |h| && 0 < h[1] < |w| && h[1] in nodes && forall k | k in nodes :: 0 < k < |w| && w[h[1]] <= w[k]
  {
    hide Ordered;
    assert h[1] == h[1..n + 1][0];
    forall k | k in nodes
      ensures 0 < k < |w| && w[h[1]] <= w[k]
    {
      HeapNode(h, w, n, nodes, k);
    }
  }

  lemma EmptyOrdered(h: seq<int>, w: seq<int>)
    requires Entries(h, w, 0)
    ensures Ordered(h, w, 0)
  {
  }

  /** Adds a node to the heap. */
  method Insert(heap: array<int>, weight: array<int>, nHeap: int, node: int, ghost nodes: multiset<int>)
    requires heap != weight && HeapOf(heap[..], weight[..], nHeap, nodes)
    requires nHeap + 1 < heap.Length && 0 < node < weight.Length && weight[node] > 0
    modifies heap
    ensures HeapOf(heap[..], weight[..], nHeap + 1, nodes + multiset{node})
  {
    ghost var h, w := heap[..], weight[..];
    heap[nHeap + 1] := node;
    ghost var h1 := heap[..];
    assert h1 == h[nHeap + 1 := node];
    AppendNode(h, w, nHeap, node, nodes);
    hide Ordered;
    UpHeap(heap, weight, nHeap + 1);
  }

  lemma AppendNode(h: seq<int>, w: seq<int>, n: int, node: int, nodes: multiset<int>)
    requires HeapOf(h, w, n, nodes) && n + 1 < |h| && 0 < node < |w| && w[node] > 0
    ensures var r := h[n + 1 := node];
            && Entries(r, w, n + 1) && multiset(r[1..n + 2]) == nodes + multiset{node}
            && forall i | 2 <= i < n + 1 :: Edge(r, w, i)
  {
    var r := h[n + 1 := node];
    assert r[1..n + 2] == h[1..n + 1] + [node];
    forall i | 2 <= i < n + 1
      ensures Edge(r, w, i)
    {
      assert Edge(h, w, i);
    }
  }
}
