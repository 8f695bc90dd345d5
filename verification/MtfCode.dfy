/** Move-to-front symbols. */
module MtfCode {
  // The encoder's symbols for the last column of a block, and the decoder that reads them back.

  import opened BitStrings
  import opened MtfSegments
  import opened Permutation
  import opened InverseBwt
  import opened Sequences

  const RUNA := 0
  const RUNB := 1
  const INT_MAX := 0x7fff_ffff

  // ---------------------------------------------------------------- what a symbol sequence means

  /** A list of ranks, the weight of the next run digit, and the ranks emitted so far. */
  datatype Meaning = Meaning(list: seq<int>, weight: nat, out: seq<int>)

  function Ranks(): (r: seq<int>)
    ensures |r| == 256
  {
    seq(256, q => q)
  }

  /** A run digit repeats the front of the list; any other symbol names a list position to emit and move to the
      front. */
  function Feed(s: Meaning, sym: int): (r: Meaning)
    requires |s.list| == 256 && 0 <= sym <= 256
    ensures |r.list| == 256
  {
    if sym == RUNA then Meaning(s.list, 2 * s.weight, s.out + Repeat(s.list[0], s.weight))
    else if sym == RUNB then Meaning(s.list, 2 * s.weight, s.out + Repeat(s.list[0], 2 * s.weight))
    else Meaning(MoveToFront(s.list, sym - 1), 1, s.out + [s.list[sym - 1]])
  }

  ghost predicate Symbols(syms: seq<int>) {
    forall i | 0 <= i < |syms| :: 0 <= syms[i] <= 256
  }

  function FeedAll(syms: seq<int>): (r: Meaning)
    requires Symbols(syms)
    ensures |r.list| == 256
  {
    if |syms| == 0 then Meaning(Ranks(), 1, [])
    else Feed(FeedAll(syms[..|syms| - 1]), syms[|syms| - 1])
  }

  /** Emitted ranks only ever grow. */
  lemma {:induction false} OutGrows(syms: seq<int>, k: int)
    requires Symbols(syms) && 0 <= k <= |syms|
    ensures Symbols(syms[..k]) && |FeedAll(syms[..k]).out| <= |FeedAll(syms).out|
  {
    if k == |syms| {
      assert syms[..k] == syms;
    } else {
      var s := syms[..|syms| - 1];
      OutGrows(s, k);
      assert s[..k] == syms[..k];
    }
  }

  // ---------------------------------------------------------------- counting

  ghost predicate Counted(freq: seq<int>, eob: int, syms: seq<int>) {
    0 <= eob < |freq| && forall k | 0 <= k <= eob :: freq[k] == Equal(syms, k, |syms|)
  }

  lemma {:induction false} EqualPrefix(xs: seq<int>, ys: seq<int>, c: int, i: nat)
    requires i <= |xs|
    ensures Equal(xs + ys, c, i) == Equal(xs, c, i)
  {
    if i > 0 {
      EqualPrefix(xs, ys, c, i - 1);
    }
  }

  lemma {:induction false} EqualRepeat(xs: seq<int>, x: int, n: nat, c: int)
    ensures Equal(xs + Repeat(x, n), c, |xs| + n) == Equal(xs, c, |xs|) + (if c == x then n else 0)
  {
    if n == 0 {
      assert xs + Repeat(x, 0) == xs;
    } else {
      EqualRepeat(xs, x, n - 1, c);
      var ys := xs + Repeat(x, n - 1);
      assert xs + Repeat(x, n) == ys + [x];
      EqualPrefix(ys, [x], c, |ys|);
    }
  }

  lemma EqualOneMore(xs: seq<int>, x: int, c: int)
    ensures Equal(xs + [x], c, |xs| + 1) == Equal(xs, c, |xs|) + (if c == x then 1 else 0)
  {
    assert Repeat(x, 1) == [x];
    EqualRepeat(xs, x, 1, c);
  }

  // ---------------------------------------------------------------- the encoder

  /** The number of bytes in use below `c`. */
  function Rank(inUse: seq<bool>, c: int): (r: int)
    requires 0 <= c <= |inUse|
    ensures 0 <= r <= c
  {
    if c == 0 then 0 else Rank(inUse, c - 1) + (if inUse[c - 1] then 1 else 0)
  }

  lemma {:induction false} RankGrows(inUse: seq<bool>, c: int, d: int)
    requires 0 <= c < d <= |inUse| && inUse[c]
    ensures Rank(inUse, c) < Rank(inUse, d)
  {
    if c + 1 < d {
      RankGrows(inUse, c, d - 1);
    }
  }

  method MakeMapsEncoder(inUse: seq<bool>) returns (unseqToSeq: seq<int>, nInUse: int)
    requires |inUse| == 256
    ensures |unseqToSeq| == 256 && nInUse == Rank(inUse, 256)
    ensures forall c | 0 <= c < 256 && inUse[c] :: unseqToSeq[c] == Rank(inUse, c) < nInUse
  {
    nInUse := 0;
    unseqToSeq := seq(256, _ => 0);
    for i := 0 to 256
      invariant |unseqToSeq| == 256 && nInUse == Rank(inUse, i)
      invariant forall c | 0 <= c < i && inUse[c] :: unseqToSeq[c] == Rank(inUse, c) < nInUse
    {
      if inUse[i] {
        unseqToSeq := unseqToSeq[i := nInUse];
        nInUse := nInUse + 1;
      }
    }
  }

  method MakeMapsDecoder(inUse: seq<bool>) returns (seqToUnseq: seq<int>, nInUse: int)
    requires |inUse| == 256
    ensures |seqToUnseq| == 256 && nInUse == Rank(inUse, 256)
    ensures forall c | 0 <= c < 256 && inUse[c] :: seqToUnseq[Rank(inUse, c)] == c
    ensures forall r | 0 <= r < 256 :: 0 <= seqToUnseq[r] < 256
  {
    nInUse := 0;
    seqToUnseq := seq(256, _ => 0);
    for i := 0 to 256
      invariant |seqToUnseq| == 256 && nInUse == Rank(inUse, i)
      invariant forall c | 0 <= c < i && inUse[c] :: Rank(inUse, c) < nInUse && seqToUnseq[Rank(inUse, c)] == c
      invariant forall r | 0 <= r < 256 :: 0 <= seqToUnseq[r] < 256
    {
      if inUse[i] {
        seqToUnseq := seqToUnseq[nInUse := i];
        nInUse := nInUse + 1;
      }
    }
  }

  /** Appends one symbol and counts it. */
  method Emit(mtfv: array<int>, mtfFreq: array<int>, wr: int, sym: int, ghost eob: int)
    requires mtfv != mtfFreq && 0 <= wr < mtfv.Length && 0 <= sym <= eob
    requires Counted(mtfFreq[..], eob, mtfv[..wr])
    modifies mtfv, mtfFreq
    ensures mtfv[..wr + 1] == old(mtfv[..wr]) + [sym] && forall k | wr < k < mtfv.Length :: mtfv[k] == old(mtfv[k])
    ensures Counted(mtfFreq[..], eob, mtfv[..wr + 1])
  {
    ghost var was := mtfv[..wr];
    mtfv[wr] := sym;
    mtfFreq[sym] := mtfFreq[sym] + 1;
    assert mtfv[..wr + 1] == was + [sym];
    forall k | 0 <= k <= eob
      ensures mtfFreq[k] == Equal(was + [sym], k, wr + 1)
    {
      EqualOneMore(was, sym, k);
    }
  }

  lemma FeedOne(syms: seq<int>, sym: int)
    requires Symbols(syms) && 0 <= sym <= 256
    ensures Symbols(syms + [sym]) && FeedAll(syms + [sym]) == Feed(FeedAll(syms), sym)
  {
    assert (syms + [sym])[..|syms|] == syms;
  }

  /** One digit of a run in bijective base two. */
  lemma Digit(z: int, n: int)
    requires z >= 0 && n >= 1
    ensures (if z % 2 == 1 then 2 * n else n) <= (z + 1) * n
    ensures z >= 2 ==> (z + 1) * n == (if z % 2 == 1 then 2 * n else n) + ((z - 2) / 2 + 1) * (2 * n)
    ensures z < 2 ==> (z + 1) * n == if z % 2 == 1 then 2 * n else n
  {
    if z >= 2 {
      var h := (z - 2) / 2;
      assert z == 2 * h + 2 || z == 2 * h + 3;
    }
  }

  /** After `base`, the run digits `ds` have emitted `done` copies of the front, and the next digit weighs `n`. */
  ghost predicate Run(base: seq<int>, ds: seq<int>, n: nat, done: nat) {
    && Symbols(base) && Symbols(base + ds) && |ds| <= done && n >= 1
    && (forall i | 0 <= i < |ds| :: ds[i] == RUNA || ds[i] == RUNB)
    && var s := FeedAll(base);
       FeedAll(base + ds) == Meaning(s.list, n, s.out + Repeat(s.list[0], done))
  }

  lemma RunStarts(base: seq<int>)
    requires Symbols(base) && FeedAll(base).weight == 1
    ensures Run(base, [], 1, 0)
  {
    assert base + [] == base;
    var s := FeedAll(base);
    assert s.out + Repeat(s.list[0], 0) == s.out;
  }

  lemma RunStep(base: seq<int>, ds: seq<int>, n: nat, done: nat, sym: int)
    requires Run(base, ds, n, done) && (sym == RUNA || sym == RUNB)
    ensures Run(base, ds + [sym], 2 * n, done + if sym == RUNB then 2 * n else n)
  {
    var s := FeedAll(base);
    var more := if sym == RUNB then 2 * n else n;
    FeedOne(base + ds, sym);
    assert base + ds + [sym] == base + (ds + [sym]);
    RepeatMore(s.list[0], done, more);
    assert s.out + Repeat(s.list[0], done) + Repeat(s.list[0], more) ==
        s.out + (Repeat(s.list[0], done) + Repeat(s.list[0], more));
  }

  /** Writes a pending run of `z` repetitions of the front of the list as run digits; nothing when `z` is zero. */
  method FlushRun(mtfv: array<int>, mtfFreq: array<int>, wr: int, z: int, ghost eob: int)
    returns (wr': int, ghost ds: seq<int>, ghost n: nat)
    requires mtfv != mtfFreq && z >= 0 && 0 <= wr && wr + z <= mtfv.Length && eob >= 2
    requires Counted(mtfFreq[..], eob, mtfv[..wr])
    requires Symbols(mtfv[..wr]) && FeedAll(mtfv[..wr]).weight == 1
    modifies mtfv, mtfFreq
    ensures wr <= wr' <= wr + z && mtfv[..wr'] == old(mtfv[..wr]) + ds
    ensures forall k | wr' <= k < mtfv.Length :: mtfv[k] == old(mtfv[k])
    ensures Counted(mtfFreq[..], eob, mtfv[..wr'])
    ensures Run(old(mtfv[..wr]), ds, n, z)
  {
    hide Counted, Run, FeedAll, Symbols;
    ghost var base := mtfv[..wr];
    RunStarts(base);
    n, ds := 1, [];
    ghost var done := 0;
    wr' := wr;
    if z == 0 {
      assert base + [] == base;
      return;
    }
    var zPend := z - 1;
    while true
      invariant zPend >= 0 && n >= 1 && done >= 0 && done + (zPend + 1) * n == z
      invariant wr <= wr' <= wr + done && mtfv[..wr'] == base + ds
      invariant forall k | wr' <= k < mtfv.Length :: mtfv[k] == old(mtfv[k])
      invariant Counted(mtfFreq[..], eob, mtfv[..wr'])
      invariant Run(base, ds, n, done)
      decreases zPend
    {
      Digit(zPend, n);
      var sym := if zPend % 2 == 1 then RUNB else RUNA;
      Emit(mtfv, mtfFreq, wr', sym, eob);
      RunStep(base, ds, n, done, sym);
      assert base + ds + [sym] == base + (ds + [sym]);
      wr' := wr' + 1;
      n, ds, done := 2 * n, ds + [sym], done + if sym == RUNB then 2 * n else n;
      if zPend < 2 { break; }
      zPend := (zPend - 2) / 2;
    }
  }

  /** Every rank below `n` is among the first `n` entries. */
  ghost predicate Covers(yy: seq<int>, n: int) {
    0 <= n <= |yy| && forall v | 0 <= v < n :: v in yy[..n]
  }

  lemma CoversMoved(yy: seq<int>, n: int, j: int)
    requires Covers(yy, n) && 0 <= j < n
    ensures Covers(MoveToFront(yy, j), n)
  {
    var zz := MoveToFront(yy, j);
    forall v | 0 <= v < n
      ensures v in zz[..n]
    {
      var head := yy[..n];
      assert v in head;
      var k :| 0 <= k < |head| && head[k] == v;
      var k' := if k == j then 0 else if k < j then k + 1 else k;
      MoveToFrontAt(yy, j, k');
      assert zz[..n][k'] == v;
    }
  }

  /** Searches for `ll` and moves it to the front in one pass. */
  method FindAndMove(yy: array<int>, n: int, ll: int) returns (j: int)
    requires Covers(yy[..], n) && 0 <= ll < n && yy[0] != ll
    modifies yy
    ensures 1 <= j < n && old(yy[j]) == ll && yy[..] == MoveToFront(old(yy[..]), j)
  {
    ghost var was := yy[..];
    ghost var head := yy[..n];
    assert ll in head;
    ghost var q :| 0 <= q < |head| && head[q] == ll;
    assert head[0] == yy[0] && was[q] == ll;
    var rtmp := yy[1];
    yy[1] := yy[0];
    j := 1;
    while ll != rtmp
      invariant 1 <= j <= q && rtmp == was[j]
      invariant forall c {:trigger yy[c]} | 0 <= c < yy.Length :: yy[c] == if 1 <= c <= j then was[c - 1] else was[c]
      decreases q - j
    {
      j := j + 1;
      var rtmp2 := rtmp;
      rtmp := yy[j];
      yy[j] := rtmp2;
    }
    yy[0] := rtmp;
    forall c | 0 <= c < yy.Length
      ensures yy[..][c] == MoveToFront(was, j)[c]
    {
      MoveToFrontAt(was, j, c);
    }
  }

  /** The symbols written so far and `zPend` pending repetitions stand for `ranks`. */
  ghost predicate Encoded(syms: seq<int>, yy: seq<int>, n: int, zPend: nat, ranks: seq<int>) {
    && Symbols(syms) && 0 <= n <= 256 == |yy| && (forall i | 0 <= i < |syms| :: syms[i] <= n)
    && var s := FeedAll(syms);
       s.weight == 1 && s.list[..n] == yy[..n] && s.out + Repeat(s.list[0], zPend) == ranks
  }

  lemma EncodePending(syms: seq<int>, yy: seq<int>, n: int, zPend: nat, ranks: seq<int>)
    requires Encoded(syms, yy, n, zPend, ranks) && n > 0
    ensures Encoded(syms, yy, n, zPend + 1, ranks + [yy[0]])
  {
    var s := FeedAll(syms);
    assert s.list[0] == s.list[..n][0] == yy[..n][0];
    RepeatMore(yy[0], zPend, 1);
    assert Repeat(yy[0], 1) == [yy[0]];
    assert s.out + Repeat(yy[0], zPend) + [yy[0]] == s.out + (Repeat(yy[0], zPend) + [yy[0]]);
  }

  /** Run digits for the pending repetitions, then the position of the next rank. */
  lemma EncodeMove(syms: seq<int>, yy: seq<int>, n: int, zPend: nat, ranks: seq<int>, ds: seq<int>, w: nat, j: int)
    requires Encoded(syms, yy, n, zPend, ranks) && Run(syms, ds, w, zPend) && 1 <= j < n
    ensures Encoded(syms + ds + [j + 1], MoveToFront(yy, j), n, 0, ranks + [yy[j]])
  {
    var s, all := FeedAll(syms), syms + ds;
    FeedOne(all, j + 1);
    var list := MoveToFront(s.list, j);
    assert s.list[j] == s.list[..n][j] == yy[..n][j];
    forall c | 0 <= c < n
      ensures list[..n][c] == MoveToFront(yy, j)[..n][c]
    {
      MoveToFrontAt(s.list, j, c);
      MoveToFrontAt(yy, j, c);
      assert s.list[c] == s.list[..n][c] == yy[..n][c];
      assert c > 0 ==> s.list[c - 1] == s.list[..n][c - 1] == yy[..n][c - 1];
    }
    assert list[..n] == MoveToFront(yy, j)[..n];
    assert ranks + [yy[j]] + Repeat(list[0], 0) == ranks + [yy[j]];
    forall i | 0 <= i < |all|
      ensures all[i] <= n
    {
      if |syms| <= i < |all| {
        assert all[i] == ds[i - |syms|];
      }
    }
  }

  /** The ranks of a column of bytes. */
  ghost function RanksOf(inUse: seq<bool>, col: seq<int>): (r: seq<int>)
    requires |inUse| == 256 && forall i | 0 <= i < |col| :: 0 <= col[i] < 256
    ensures |r| == |col|
  {
    seq(|col|, i requires 0 <= i < |col| => Rank(inUse, col[i]))
  }

  /** Symbols that stand for `ranks`, closed by the end-of-block symbol, which occurs nowhere else. */
  ghost predicate StandsFor(mtfv: seq<int>, nInUse: int, ranks: seq<int>) {
    && |mtfv| > 0 && 0 <= nInUse <= 256 && mtfv[|mtfv| - 1] == nInUse + 1
    && var syms := mtfv[..|mtfv| - 1];
       Symbols(syms) && (forall i | 0 <= i < |syms| :: syms[i] <= nInUse) && FeedAll(syms).out == ranks
  }

  lemma EncodeEnd(syms: seq<int>, yy: seq<int>, n: int, zPend: nat, ranks: seq<int>, ds: seq<int>, w: nat)
    requires Encoded(syms, yy, n, zPend, ranks) && Run(syms, ds, w, zPend) && n >= 1
    ensures StandsFor(syms + ds + [n + 1], n, ranks)
  {
    var all := syms + ds;
    assert (all + [n + 1])[..|all|] == all;
    forall i | 0 <= i < |all|
      ensures all[i] <= n
    {
      if |syms| <= i {
        assert all[i] == ds[i - |syms|];
      }
    }
  }

  lemma RanksGrow(inUse: seq<bool>, col: seq<int>, i: int)
    requires |inUse| == 256 && 0 <= i < |col| && forall i | 0 <= i < |col| :: 0 <= col[i] < 256
    ensures RanksOf(inUse, col[..i + 1]) == RanksOf(inUse, col[..i]) + [Rank(inUse, col[i])]
  {
  }

  /** Encodes one rank: one more pending repetition, or the pending run and a move to the front. */
  method EncodeOne(mtfv: array<int>, mtfFreq: array<int>, yy: array<int>, wr: nat, zPend: nat, nInUse: int, ll: int,
                   ghost ranks: seq<int>)
    returns (wr': nat, zPend': nat)
    requires mtfv != mtfFreq && mtfv != yy && mtfFreq != yy && wr + zPend < mtfv.Length
    requires Covers(yy[..], nInUse) && 0 <= ll < nInUse
    requires Encoded(mtfv[..wr], yy[..], nInUse, zPend, ranks)
    requires Counted(mtfFreq[..], nInUse + 1, mtfv[..wr])
    modifies mtfv, mtfFreq, yy
    ensures wr' + zPend' <= wr + zPend + 1 && forall k | wr' <= k < mtfv.Length :: mtfv[k] == old(mtfv[k])
    ensures Covers(yy[..], nInUse)
    ensures Encoded(mtfv[..wr'], yy[..], nInUse, zPend', ranks + [ll])
    ensures Counted(mtfFreq[..], nInUse + 1, mtfv[..wr'])
  {
    hide Encoded, Run, FeedAll, Symbols, Counted, Covers, MoveToFront, Repeat;
    CoversLength(yy[..], nInUse);
    if yy[0] == ll {
      EncodePending(mtfv[..wr], yy[..], nInUse, zPend, ranks);
      return wr, zPend + 1;
    }
    ghost var syms, zz := mtfv[..wr], yy[..];
    EncodedWeight(syms, zz, nInUse, zPend, ranks);
    ghost var ds, w;
    wr', ds, w := FlushRun(mtfv, mtfFreq, wr, zPend, nInUse + 1);
    var j := FindAndMove(yy, nInUse, ll);
    EncodeMove(syms, zz, nInUse, zPend, ranks, ds, w, j);
    CoversMoved(zz, nInUse, j);
    Emit(mtfv, mtfFreq, wr', j + 1, nInUse + 1);
    wr' := wr' + 1;
    zPend' := 0;
  }

  lemma CoversLength(yy: seq<int>, n: int)
    requires Covers(yy, n)
    ensures 0 <= n <= |yy|
  {
  }

  /** The memory, in halves of 16 bits, begins with these 32-bit words. */
  ghost predicate HoldsWords(memory: seq<int>, words: seq<int>) {
    2 * |words| <= |memory| && forall i | 0 <= i < |words| :: memory[2 * i] + 65536 * memory[2 * i + 1] == words[i]
  }

  lemma WordAt(memory: seq<int>, words: seq<int>, i: nat)
    requires HoldsWords(memory, words) && i < |words|
    ensures 2 * i + 1 < |memory| && memory[2 * i] + 65536 * memory[2 * i + 1] == words[i]
  {
  }

  /** Encodes the last column of the sorted rotations of `block`.  The symbols, of 16 bits each, are written over the
      32-bit words of `ptr`, which share their memory; a word is overwritten only after it has been read. */
  method GenerateMtfValues(block: seq<int>, ghost ptr: seq<int>, inUse: seq<bool>, mtfv: array<int>,
      mtfFreq: array<int>)
    returns (nInUse: int, nMtf: int)
    requires Block(block) && |block| > 0 && IsPermutation(ptr, |block|)
    requires |inUse| == 256 && forall i | 0 <= i < |block| :: inUse[block[i]]
    requires mtfv != mtfFreq && mtfv.Length >= 2 * |block| && mtfFreq.Length == 258 && HoldsWords(mtfv[..], ptr)
    modifies mtfv, mtfFreq
    ensures nInUse == Rank(inUse, 256) && 1 <= nMtf <= |block| + 1
    ensures var col := LastColumn(block, ptr);
            (forall i | 0 <= i < |col| :: 0 <= col[i] < 256) && StandsFor(mtfv[..nMtf], nInUse, RanksOf(inUse, col))
    ensures Counted(mtfFreq[..], nInUse + 1, mtfv[..nMtf])
  {
    hide Encoded, Run, FeedAll, Symbols, Counted, Covers, StandsFor, Rank, RanksOf, MoveToFront, Repeat, HoldsWords;
    ghost var memory := mtfv[..];
    ghost var col := LastColumn(block, ptr);
    var unseqToSeq;
    unseqToSeq, nInUse := MakeMapsEncoder(inUse);
    assert nInUse > unseqToSeq[block[0]] >= 0;
    var eob := nInUse + 1;
    ClearCounts(mtfFreq, eob);
    var wr, zPend := 0, 0;
    var yy := new int[256];
    FillYy(yy, nInUse);
    EncodedEmpty(yy[..], nInUse);
    assert mtfv[..0] == [] && col[..0] == [];
    assert RanksOf(inUse, []) == [];
    var i := 0;
    while i < |block|
      invariant 0 <= i <= |block| && zPend >= 0 && 0 <= wr && wr + zPend <= i
      invariant yy.Length == 256 && Covers(yy[..], nInUse)
      invariant Encoded(mtfv[..wr], yy[..], nInUse, zPend, RanksOf(inUse, col[..i]))
      invariant Counted(mtfFreq[..], eob, mtfv[..wr])
      invariant forall k | 2 * i <= k < mtfv.Length :: mtfv[k] == memory[k]
    {
      assert wr <= i;
      WordAt(memory, ptr, i);
      var j := mtfv[2 * i] + 65536 * mtfv[2 * i + 1] - 1;
      if j < 0 { j := j + |block|; }
      var ll := unseqToSeq[block[j]];
      assert block[j] == col[i] && ll == Rank(inUse, col[i]);
      RanksGrow(inUse, col, i);
      wr, zPend := EncodeOne(mtfv, mtfFreq, yy, wr, zPend, nInUse, ll, RanksOf(inUse, col[..i]));
      i := i + 1;
    }
    assert col[..|block|] == col;
    ghost var syms := mtfv[..wr];
    ghost var ds, w;
    EncodedWeight(syms, yy[..], nInUse, zPend, RanksOf(inUse, col));
    ghost var pending := zPend;
    wr, ds, w := FlushRun(mtfv, mtfFreq, wr, zPend, eob);
    zPend := 0;
    EncodeEnd(syms, yy[..], nInUse, pending, RanksOf(inUse, col), ds, w);
    Emit(mtfv, mtfFreq, wr, eob, eob);
    nMtf := wr + 1;
  }

  lemma EncodedWeight(syms: seq<int>, yy: seq<int>, n: int, zPend: nat, ranks: seq<int>)
    requires Encoded(syms, yy, n, zPend, ranks)
    ensures Symbols(syms) && FeedAll(syms).weight == 1
  {
  }

  lemma EncodedEmpty(yy: seq<int>, n: int)
    requires 0 <= n <= 256 == |yy| && forall i | 0 <= i < n :: yy[i] == i
    ensures Encoded([], yy, n, 0, []) && Covers(yy, n)
  {
    assert Ranks()[..n] == yy[..n];
    forall v | 0 <= v < n
      ensures v in yy[..n]
    {
      assert yy[..n][v] == v;
    }
  }

  method FillYy(yy: array<int>, n: int)
    requires 0 <= n <= yy.Length
    modifies yy
    ensures forall i | 0 <= i < n :: yy[i] == i
  {
    for i := 0 to n
      invariant forall k | 0 <= k < i :: yy[k] == k
    {
      yy[i] := i;
    }
  }

  method ClearCounts(mtfFreq: array<int>, eob: int)
    requires 0 <= eob < mtfFreq.Length
    modifies mtfFreq
    ensures Counted(mtfFreq[..], eob, [])
  {
    for i := 0 to eob + 1
      invariant forall k | 0 <= k < i :: mtfFreq[k] == 0
    {
      mtfFreq[i] := 0;
    }
  }

  // ---------------------------------------------------------------- the decoder

  /** `Finished` at the end-of-block symbol; `DataError` when the block overflows; `NeedInput` when the symbols run out;
      `Undefined` where the source's 32-bit run counter overflows. */
  datatype Outcome = Finished(used: nat, nblock: nat) | DataError | NeedInput | Undefined

  ghost function Translate(seqToUnseq: seq<int>, ranks: seq<int>): (r: seq<int>)
    requires |seqToUnseq| == 256 && forall i | 0 <= i < |ranks| :: 0 <= ranks[i] < 256
    ensures |r| == |ranks|
  {
    seq(|ranks|, i requires 0 <= i < |ranks| => seqToUnseq[ranks[i]])
  }

  lemma {:induction false} FeedBytes(syms: seq<int>)
    requires Symbols(syms)
    ensures Bytes(FeedAll(syms).list) && Bytes(FeedAll(syms).out)
  {
    if |syms| > 0 {
      FeedBytes(syms[..|syms| - 1]);
      var s, sym := FeedAll(syms[..|syms| - 1]), syms[|syms| - 1];
      if sym > RUNB {
        var list := MoveToFront(s.list, sym - 1);
        forall q | 0 <= q < 256
          ensures 0 <= list[q] < 256
        {
          MoveToFrontAt(s.list, sym - 1, q);
        }
      }
    }
  }

  /** What the decoder has produced when it has consumed `syms`. */
  ghost predicate Decoded(syms: seq<int>, list: seq<int>, seqToUnseq: seq<int>, out: seq<int>, counts: seq<int>) {
    && Symbols(syms) && |seqToUnseq| == 256 && |counts| == 256
    && var s := FeedAll(syms);
       && s.list == list && Bytes(s.out) && out == Translate(seqToUnseq, s.out)
       && forall c | 0 <= c < 256 :: counts[c] == Equal(out, c, |out|)
  }

  /** Adds up the digits of one run. */
  method ReadRun(syms: seq<int>, k: nat, nInUse: int) returns (k': nat, es: int, overflow: bool, ghost w: nat)
    requires 1 <= nInUse <= 256 && k < |syms| && (forall i | 0 <= i < |syms| :: 0 <= syms[i] <= nInUse + 1)
    requires Symbols(syms[..k]) && FeedAll(syms[..k]).weight == 1 && (syms[k] == RUNA || syms[k] == RUNB)
    ensures k < k' <= |syms| && es >= 0 && Run(syms[..k], syms[k..k'], w, es)
    ensures overflow ==> es >= 0x4000_0000
    ensures overflow <==> w > 0x7fff_ffff
    ensures !overflow && k' < |syms| ==> syms[k'] != RUNA && syms[k'] != RUNB
  {
    hide Run, FeedAll, Symbols;
    ghost var base := syms[..k];
    RunStarts(base);
    es := -1;
    w := 1;
    var n := 1;
    k' := k;
    overflow := false;
    assert syms[k..k] == [];
    while k' < |syms| && (syms[k'] == RUNA || syms[k'] == RUNB) && !overflow
      invariant k <= k' <= |syms| && n == w >= 1 && es + 1 >= 0 && es + 2 >= n
      invariant k' == k ==> !overflow
      invariant Run(base, syms[k..k'], w, es + 1)
      invariant overflow ==> es + 1 >= 0x4000_0000
      invariant overflow <==> w > 0x7fff_ffff
      decreases |syms| - k'
    {
      RunStep(base, syms[k..k'], w, es + 1, syms[k']);
      assert syms[k..k' + 1] == syms[k..k'] + [syms[k']];
      overflow := 2 * n > INT_MAX;
      if syms[k'] == RUNA { es := es + n; } else { es := es + 2 * n; }
      n := n * 2;
      w := n;
      k' := k' + 1;
    }
    es := es + 1;
  }

  /** Writes `es` copies of `uc`, or fails when the block is full. */
  method FillRun(tt: array<int>, nblock: nat, uc: int, es: nat, nblockMax: int) returns (nblock': nat, ok: bool)
    requires nblock <= nblockMax <= tt.Length
    modifies tt
    ensures ok <==> nblock + es <= nblockMax
    ensures ok ==> nblock' == nblock + es && tt[..nblock'] == old(tt[..nblock]) + Repeat(uc, es)
  {
    var left := es;
    nblock' := nblock;
    while left > 0
      invariant 0 <= left <= es && nblock' == nblock + (es - left) <= nblockMax
      invariant tt[..nblock] == old(tt[..nblock]) && forall i | nblock <= i < nblock' :: tt[i] == uc
    {
      if nblock' >= nblockMax { return nblock', false; }
      tt[nblock'] := uc;
      nblock' := nblock' + 1;
      left := left - 1;
    }
    ok := true;
    assert tt[..nblock'] == tt[..nblock] + tt[nblock..nblock'];
  }

  ghost function Added(counts: seq<int>, c: int, n: int): seq<int>
    requires 0 <= c < |counts|
  {
    counts[c := counts[c] + n]
  }

  lemma DecodeRun(syms: seq<int>, list: seq<int>, table: seq<int>, out: seq<int>, counts: seq<int>,
                  ds: seq<int>, w: nat, es: nat)
    requires Decoded(syms, list, table, out, counts) && Bytes(table) && Run(syms, ds, w, es)
    ensures |list| == 256 && Bytes(list)
    ensures Decoded(syms + ds, list, table, out + Repeat(table[list[0]], es), Added(counts, table[list[0]], es))
    ensures |FeedAll(syms + ds).out| == |out| + es
  {
    hide Feed, FeedAll;
    FeedBytes(syms);
    FeedBytes(syms + ds);
    var uc := table[list[0]];
    var s := FeedAll(syms);
    var more := out + Repeat(uc, es);
    assert more == Translate(table, s.out + Repeat(list[0], es));
    forall c | 0 <= c < 256
      ensures Added(counts, uc, es)[c] == Equal(more, c, |more|)
    {
      EqualRepeat(out, uc, es, c);
    }
  }

  lemma DecodeMove(syms: seq<int>, list: seq<int>, table: seq<int>, out: seq<int>, counts: seq<int>, sym: int)
    requires Decoded(syms, list, table, out, counts) && Bytes(table) && RUNB < sym <= 256
    ensures |list| == 256 && Bytes(list) && Symbols(syms + [sym])
    ensures var uc := table[list[sym - 1]];
            Decoded(syms + [sym], MoveToFront(list, sym - 1), table, out + [uc], Added(counts, uc, 1))
    ensures FeedAll(syms + [sym]).weight == 1 && |FeedAll(syms + [sym]).out| == |out| + 1
  {
    hide FeedAll, MoveToFront;
    FeedOne(syms, sym);
    FeedBytes(syms);
    FeedBytes(syms + [sym]);
    var uc := table[list[sym - 1]];
    var s := FeedAll(syms);
    assert out + [uc] == Translate(table, s.out + [list[sym - 1]]);
    forall c | 0 <= c < 256
      ensures Added(counts, uc, 1)[c] == Equal(out + [uc], c, |out| + 1)
    {
      EqualOneMore(out, uc, c);
    }
  }

  lemma DecodeNothing(table: seq<int>, counts: seq<int>)
    requires |table| == 256 && |counts| == 256 && forall c | 0 <= c < 256 :: counts[c] == 0
    ensures Decoded([], Ranks(), table, [], counts) && FeedAll([]).weight == 1
  {
  }

  /** Decodes symbols into `tt` until the end-of-block symbol, counting each byte in `unzftab`. */
  method DecodeMtf(syms: seq<int>, seqToUnseq: seq<int>, nInUse: int, nblockMax: int, tt: array<int>,
      unzftab: array<int>)
    returns (r: Outcome, ghost k: nat)
    requires 1 <= nInUse <= 256 && (forall i | 0 <= i < |syms| :: 0 <= syms[i] <= nInUse + 1)
    requires |seqToUnseq| == 256 && Bytes(seqToUnseq)
    requires 0 <= nblockMax <= 900_000 && tt.Length == nblockMax && unzftab.Length == 256 && tt != unzftab
    modifies tt, unzftab
    ensures k <= |syms| && nInUse + 1 !in syms[..k] && Symbols(syms[..k])
    ensures r.Finished? ==> r.used == k < |syms| && syms[k] == nInUse + 1 && r.nblock <= nblockMax
    ensures r.Finished? ==> exists list :: Decoded(syms[..k], list, seqToUnseq, tt[..r.nblock], unzftab[..])
    ensures r.DataError? || r.Undefined? ==> |FeedAll(syms[..k]).out| > nblockMax
    ensures r.NeedInput? ==> k == |syms|
  {
    hide Decoded, Run, FeedAll, Symbols, MoveToFront, Repeat, View, Laid, Equal, Added;
    ClearUnzftab(unzftab);
    DecodeNothing(seqToUnseq, unzftab[..]);
    var mtfa, mtfbase := new int[SIZE], new int[SEGMENT];
    Initialise(mtfa, mtfbase);
    var nblock := 0;
    k := 0;
    var p := 0;
    assert syms[..0] == [] && tt[..0] == [];
    while p < |syms|
      invariant p == k <= |syms| && 0 <= nblock <= nblockMax
      invariant nInUse + 1 !in syms[..k] && Symbols(syms[..k])
      invariant Laid(mtfbase[..]) && mtfbase[0] >= 1
      invariant Decoded(syms[..k], View(mtfa[..], mtfbase[..]), seqToUnseq, tt[..nblock], unzftab[..])
      invariant FeedAll(syms[..k]).weight == 1 || (k < |syms| ==> syms[k] != RUNA && syms[k] != RUNB)
      decreases |syms| - p
    {
      var nextSym := syms[p];
      if nextSym == nInUse + 1 {
        return Finished(p, nblock), k;
      }
      ghost var list, out := View(mtfa[..], mtfbase[..]), tt[..nblock];
      if nextSym == RUNA || nextSym == RUNB {
        var k', es, overflow;
        ghost var w;
        k', es, overflow, w := ReadRun(syms, p, nInUse);
        RunOnly(syms, p, k', w, es, nInUse + 1);
        DecodeRun(syms[..k], list, seqToUnseq, out, unzftab[..], syms[p..k'], w, es);
        assert syms[..k'] == syms[..p] + syms[p..k'];
        k := k';
        if overflow {
          return Undefined, k;
        }
        if k' == |syms| {
          return NeedInput, k;
        }
        FrontCell(mtfa[..], mtfbase[..]);
        var uc := seqToUnseq[mtfa[mtfbase[0]]];
        AddCount(unzftab, uc, es);
        var ok;
        nblock, ok := FillRun(tt, nblock, uc, es, nblockMax);
        if !ok {
          return DataError, k;
        }
        p := k';
      } else {
        DecodeMove(syms[..k], list, seqToUnseq, out, unzftab[..], nextSym);
        assert syms[..k + 1] == syms[..k] + [nextSym];
        k := k + 1;
        if nblock >= nblockMax {
          return DataError, k;
        }
        var uc := TakeNth(mtfa, mtfbase, nextSym - 1);
        PutByte(tt, unzftab, nblock, seqToUnseq[uc]);
        nblock := nblock + 1;
        p := p + 1;
      }
    }
    r := NeedInput;
  }

  /** Writes one byte and counts it. */
  method PutByte(tt: array<int>, unzftab: array<int>, nblock: nat, c: int)
    requires nblock < tt.Length && 0 <= c < unzftab.Length && tt != unzftab
    modifies tt, unzftab
    ensures tt[..nblock + 1] == old(tt[..nblock]) + [c] && unzftab[..] == Added(old(unzftab[..]), c, 1)
  {
    AddCount(unzftab, c, 1);
    tt[nblock] := c;
  }

  method AddCount(unzftab: array<int>, c: int, n: int)
    requires 0 <= c < unzftab.Length
    modifies unzftab
    ensures unzftab[..] == Added(old(unzftab[..]), c, n)
  {
    unzftab[c] := unzftab[c] + n;
  }

  lemma FrontCell(m: seq<int>, b: seq<int>)
    requires |m| == SIZE && Laid(b)
    ensures 0 <= b[0] < SIZE && View(m, b)[0] == m[b[0]]
  {
    assert View(m, b)[0] == Cell(m, b, 0);
  }

  lemma RunOnly(syms: seq<int>, p: nat, k: nat, w: nat, es: nat, eob: int)
    requires p < k <= |syms| && Run(syms[..p], syms[p..k], w, es) && eob >= 2 && eob !in syms[..p]
    ensures eob !in syms[..k] && Symbols(syms[..k])
  {
    assert syms[..k] == syms[..p] + syms[p..k];
  }

  method ClearUnzftab(unzftab: array<int>)
    modifies unzftab
    ensures forall c | 0 <= c < unzftab.Length :: unzftab[c] == 0
  {
    for i := 0 to unzftab.Length
      invariant forall c | 0 <= c < i :: unzftab[c] == 0
    {
      unzftab[i] := 0;
    }
  }
}
