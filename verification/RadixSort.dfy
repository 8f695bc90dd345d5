/** The parallel radix sort. */
module RadixSort {
  // Threads count, prefix, offset and scatter between barriers, in any interleaving.

  import opened Arith
  import opened Pardo
  import opened Permutation

  /** One pass: the number of threads, the number of digit values, the keys and their digits. */
  datatype Pass = Pass(threads: int, range: int, keys: seq<int>, digits: seq<int>)

  ghost predicate IsPass(p: Pass) {
    && p.threads >= 1 && p.range >= 1 && |p.keys| == |p.digits|
    && forall x | 0 <= x < |p.digits| :: 0 <= p.digits[x] < p.range
  }

  /** Where a thread stands: clearing its counters, counting its keys, waiting at a barrier, summing its columns over
      the threads, turning counts into positions, or writing its keys. */
  datatype Pc = Clear(k: int) | Count(x: int) | Barrier(n: int) | Prefix(col: int, j: int, last: int)
              | Offset(c: int, offset: int) | Scatter(y: int) | Done

  /** Every thread's counters, their sums over the threads, the output, and whether an index was out of range. */
  datatype State = State(my: seq<seq<int>>, ps: seq<seq<int>>, out: seq<int>, pc: seq<Pc>, fault: bool)

  ghost predicate Shape(p: Pass, s: State) {
    && IsPass(p) && |s.my| == |s.ps| == |s.pc| == p.threads && |s.out| == |p.keys|
    && (forall t | 0 <= t < p.threads :: |s.my[t]| == p.range)
    && (forall t | 0 <= t < p.threads :: |s.ps[t]| == p.range)
  }

  function Stage(pc: Pc): int {
    match pc
    case Clear(_) => 0
    case Count(_) => 0
    case Barrier(n) => 2 * n - 1
    case Prefix(_, _, _) => 2
    case Offset(_, _) => 4
    case Scatter(_) => 6
    case Done => 8
  }

  /** All threads have arrived at barrier `n`. */
  predicate AllArrived(pc: seq<Pc>, n: int) {
    forall u | 0 <= u < |pc| :: Stage(pc[u]) >= 2 * n - 1
  }

  function First(p: Pass, t: int): int requires p.threads >= 1 { M1(0, |p.keys|, p.threads, t) }
  function Limit(p: Pass, t: int): int requires p.threads >= 1 { M2(0, |p.keys|, p.threads, t) }
  function FirstColumn(p: Pass, t: int): int requires p.threads >= 1 { M1(0, p.range, p.threads, t) }
  function LimitColumn(p: Pass, t: int): int requires p.threads >= 1 { M2(0, p.range, p.threads, t) }

  function After(p: Pass, t: int, n: int): Pc
    requires p.threads >= 1
  {
    if n == 1 then Prefix(FirstColumn(p, t), 0, 0)
    else if n == 2 then Offset(0, 0)
    else if n == 3 then Scatter(First(p, t))
    else Done
  }

  /** One row of a table with one entry changed. */
  function Set(rows: seq<seq<int>>, t: int, k: int, v: int): seq<seq<int>> {
    if 0 <= t < |rows| && 0 <= k < |rows[t]| then rows[t := rows[t][k := v]] else rows
  }

  function At(rows: seq<seq<int>>, t: int, k: int): int {
    if 0 <= t < |rows| && 0 <= k < |rows[t]| then rows[t][k] else 0
  }

  /** One step of thread `t`. */
  function Step(p: Pass, s: State, t: int): State
    requires IsPass(p) && |s.pc| == p.threads && 0 <= t < p.threads
  {
    match s.pc[t]
    case Clear(k) =>
      if k < p.range then s.(my := Set(s.my, t, k, 0), pc := s.pc[t := Clear(k + 1)], fault := s.fault || k < 0)
      else s.(pc := s.pc[t := Count(First(p, t))])
    case Count(x) =>
      if x < Limit(p, t) then
        if 0 <= x < |p.keys| then
          var d := p.digits[x];
          s.(my := Set(s.my, t, d, At(s.my, t, d) + 1), pc := s.pc[t := Count(x + 1)])
        else s.(fault := true)
      else s.(pc := s.pc[t := Barrier(1)])
    case Barrier(n) =>
      if AllArrived(s.pc, n) then s.(pc := s.pc[t := After(p, t, n)]) else s
    case Prefix(k, j, last) =>
      if k < LimitColumn(p, t) then
        if !(0 <= k < p.range) then s.(fault := true)
        else if j == 0 then
          s.(ps := Set(s.ps, 0, k, At(s.my, 0, k)), pc := s.pc[t := Prefix(k, 1, At(s.my, 0, k))])
        else if j < p.threads then
          var temp := last + At(s.my, j, k);
          s.(ps := Set(s.ps, j, k, temp), pc := s.pc[t := Prefix(k, j + 1, temp)])
        else s.(pc := s.pc[t := Prefix(k + 1, 0, 0)])
      else s.(pc := s.pc[t := Barrier(2)])
    case Offset(k, offset) =>
      if k < p.range then
        s.(my := Set(s.my, t, k, At(s.ps, t, k) - At(s.my, t, k) + offset),
           pc := s.pc[t := Offset(k + 1, offset + At(s.ps, p.threads - 1, k))], fault := s.fault || k < 0)
      else s.(pc := s.pc[t := Barrier(3)])
    case Scatter(x) =>
      if x < Limit(p, t) then
        if 0 <= x < |p.keys| && 0 <= At(s.my, t, p.digits[x]) < |s.out| then
          var d := p.digits[x];
          s.(out := s.out[At(s.my, t, d) := p.keys[x]], my := Set(s.my, t, d, At(s.my, t, d) + 1),
              pc := s.pc[t := Scatter(x + 1)])
        else s.(fault := true)
      else s.(pc := s.pc[t := Barrier(4)])
    case Done => s
  }

  // ---------------------------------------------------------------- the invariant

  function Cut(p: Pass, x: int): (r: int)
    ensures r <= |p.keys|
  {
    if x < |p.keys| then x else |p.keys|
  }

  /** How many of the keys up to `i` have digit `c`. */
  ghost function Upto(p: Pass, c: int, i: int): int
    requires IsPass(p)
  {
    if 0 <= i <= |p.digits| then Equal(p.digits, c, i) else 0
  }

  ghost function Below(p: Pass, c: int): int
    requires IsPass(p)
  {
    Less(p.digits, c, |p.digits|)
  }

  ghost function Full(p: Pass, t: int, c: int): int
    requires IsPass(p)
  {
    Upto(p, c, Cut(p, Limit(p, t))) - Upto(p, c, Cut(p, First(p, t)))
  }

  /** What a thread's own counters hold. */
  ghost predicate RowOk(p: Pass, row: seq<int>, pc: Pc, t: int)
    requires IsPass(p)
  {
    && |row| == p.range
    && match pc
       case Clear(k) => 0 <= k <= p.range && forall c | 0 <= c < k :: row[c] == 0
       case Count(x) => Moving(p, t, x)
           && forall c | 0 <= c < p.range :: row[c] == Upto(p, c, Cut(p, x)) - Upto(p, c, Cut(p, First(p, t)))
       case Barrier(n) =>
         && 1 <= n <= 4
         && (n <= 2 ==> forall c | 0 <= c < p.range :: row[c] == Full(p, t, c))
         && (n == 3 ==> forall c | 0 <= c < p.range :: row[c] == Below(p, c) + Upto(p, c, Cut(p, First(p, t))))
       case Prefix(_, _, _) => forall c | 0 <= c < p.range :: row[c] == Full(p, t, c)
       case Offset(k, offset) =>
         && 0 <= k <= p.range && offset == Below(p, k)
         && (forall c | 0 <= c < k :: row[c] == Below(p, c) + Upto(p, c, Cut(p, First(p, t))))
         && (forall c | k <= c < p.range :: row[c] == Full(p, t, c))
       case Scatter(x) => Moving(p, t, x)
           && forall c | 0 <= c < p.range :: row[c] == Below(p, c) + Upto(p, c, Cut(p, x))
       case Done => true
  }

  /** `x` is where thread `t` may be in its part of the keys. */
  predicate Moving(p: Pass, t: int, x: int)
    requires p.threads >= 1
  {
    x == First(p, t) || First(p, t) < x <= Limit(p, t)
  }

  /** The sums of column `k` for the first `j` threads. */
  ghost predicate Summed(p: Pass, ps: seq<seq<int>>, k: int, j: int)
    requires IsPass(p)
  {
    forall u | 0 <= u < j :: At(ps, u, k) == Upto(p, k, Cut(p, Limit(p, u)))
  }

  /** What the columns of thread `t` hold. */
  ghost predicate ColumnsOk(p: Pass, ps: seq<seq<int>>, pc: Pc, t: int)
    requires IsPass(p)
  {
    && (pc.Prefix? ==>
          && FirstColumn(p, t) <= pc.col && (forall k | FirstColumn(p, t) <= k < pc.col :: Summed(p, ps, k, p.threads))
          && (pc.col <= LimitColumn(p, t) || pc.col == FirstColumn(p, t)) && (pc.col >= LimitColumn(p, t) ==> pc.j == 0)
          && 0 <= pc.j <= p.threads && Summed(p, ps, pc.col, pc.j)
          && (pc.j > 0 ==> pc.last == Upto(p, pc.col, Cut(p, Limit(p, pc.j - 1)))))
    && (Stage(pc) >= 3 ==> forall k | FirstColumn(p, t) <= k < LimitColumn(p, t) :: Summed(p, ps, k, p.threads))
  }

  /** Key `x` is in its place. */
  ghost predicate Placed(p: Pass, out: seq<int>, x: int)
    requires IsPass(p) && |out| == |p.keys|
  {
    0 <= x < |p.keys| && Dest(p.digits, x) < |out| && out[Dest(p.digits, x)] == p.keys[x]
  }

  /** What thread `t` has written. */
  ghost predicate OutOk(p: Pass, out: seq<int>, pc: Pc, t: int)
    requires IsPass(p) && |out| == |p.keys|
  {
    && (pc.Scatter? ==> forall x | Cut(p, First(p, t)) <= x < Cut(p, pc.y) :: Placed(p, out, x))
    && (Stage(pc) >= 7 ==> forall x | Cut(p, First(p, t)) <= x < Cut(p, Limit(p, t)) :: Placed(p, out, x))
  }

  /** The barrier that a thread at this stage has passed lets through only when all have arrived. */
  function Gate(stage: int): int {
    if stage < 2 then 0 else stage / 2 * 2 - 1
  }

  ghost predicate Gated(pc: seq<Pc>) {
    forall t, u | 0 <= t < |pc| && 0 <= u < |pc| :: Gate(Stage(pc[t])) <= Stage(pc[u])
  }

  ghost predicate ThreadOk(p: Pass, s: State, t: int)
    requires Shape(p, s) && 0 <= t < p.threads
  {
    RowOk(p, s.my[t], s.pc[t], t) && ColumnsOk(p, s.ps, s.pc[t], t) && OutOk(p, s.out, s.pc[t], t)
  }

  ghost predicate Inv(p: Pass, s: State) {
    Shape(p, s) && !s.fault && Gated(s.pc) && forall t | 0 <= t < p.threads :: ThreadOk(p, s, t)
  }

  // ---------------------------------------------------------------- shares

  lemma Share(p: Pass, t: int)
    requires IsPass(p) && 0 <= t < p.threads
    ensures 0 <= Cut(p, First(p, t)) <= Cut(p, Limit(p, t))
    ensures First(p, t) < Limit(p, t) ==> 0 <= First(p, t) && Limit(p, t) <= |p.keys|
    ensures First(p, t) >= Limit(p, t) ==> Cut(p, First(p, t)) == Cut(p, Limit(p, t))
    ensures t == 0 ==> Cut(p, First(p, t)) == 0
    ensures t == p.threads - 1 ==> Cut(p, Limit(p, t)) == |p.keys|
    ensures t < p.threads - 1 ==> Cut(p, Limit(p, t)) == Cut(p, First(p, t + 1))
  {
    hide M1, M2;
    Pieces(0, |p.keys|, p.threads, t);
  }

  lemma Columns(p: Pass, t: int)
    requires IsPass(p) && 0 <= t < p.threads
    ensures FirstColumn(p, t) < LimitColumn(p, t) ==> 0 <= FirstColumn(p, t) && LimitColumn(p, t) <= p.range
  {
    hide M1, M2;
    Pieces(0, p.range, p.threads, t);
  }

  lemma ColumnsDisjoint(p: Pass, t: int, u: int, k: int)
    requires IsPass(p) && 0 <= t < p.threads && 0 <= u < p.threads && t != u
    requires FirstColumn(p, t) <= k < LimitColumn(p, t)
    ensures !(FirstColumn(p, u) <= k < LimitColumn(p, u))
  {
    Partition(0, p.range, 1, p.threads, k);
    AlignedByOne(0, k);
    assert Runs(0, p.range, 1, p.threads, t, k);
    if FirstColumn(p, u) <= k < LimitColumn(p, u) {
      assert Runs(0, p.range, 1, p.threads, u, k);
    }
  }

  lemma KeysDisjoint(p: Pass, t: int, u: int, x: int)
    requires IsPass(p) && 0 <= t < p.threads && 0 <= u < p.threads && t != u
    requires Cut(p, First(p, t)) <= x < Cut(p, Limit(p, t))
    ensures !(Cut(p, First(p, u)) <= x < Cut(p, Limit(p, u)))
  {
    hide M1, M2;
    if t < u {
      LoMonotone(0, |p.keys|, p.threads, t, u);
    } else {
      LoMonotone(0, |p.keys|, p.threads, u, t);
    }
  }

  lemma ColumnOwner(p: Pass, k: int) returns (t: int)
    requires IsPass(p) && 0 <= k < p.range
    ensures 0 <= t < p.threads && FirstColumn(p, t) <= k < LimitColumn(p, t)
  {
    hide M1, M2;
    Pieces(0, p.range, p.threads, p.threads - 1);
    t := FindOwner(0, p.range, p.threads, k, p.threads - 1);
    Pieces(0, p.range, p.threads, t);
  }

  lemma KeyOwner(p: Pass, x: int) returns (t: int)
    requires IsPass(p) && 0 <= x < |p.keys|
    ensures 0 <= t < p.threads && Cut(p, First(p, t)) <= x < Cut(p, Limit(p, t))
  {
    hide M1, M2;
    Pieces(0, |p.keys|, p.threads, p.threads - 1);
    t := FindOwner(0, |p.keys|, p.threads, x, p.threads - 1);
  }

  lemma CountNext(p: Pass, x: int)
    requires IsPass(p) && 0 <= x < |p.keys|
    ensures forall c :: Upto(p, c, x + 1) == Upto(p, c, x) + (if p.digits[x] == c then 1 else 0)
  {
  }

  // ---------------------------------------------------------------- one step

  /** A step of thread `t` that keeps its own part and disturbs no other. */
  lemma Frame(p: Pass, s: State, s': State, t: int)
    requires Inv(p, s) && Shape(p, s') && 0 <= t < p.threads && !s'.fault
    requires ThreadOk(p, s', t) && Gated(s'.pc)
    requires forall u | 0 <= u < p.threads && u != t :: s'.pc[u] == s.pc[u] && s'.my[u] == s.my[u]
    requires forall u | 0 <= u < p.threads && u != t :: ColumnsOk(p, s'.ps, s.pc[u], u)
    requires forall u | 0 <= u < p.threads && u != t :: OutOk(p, s'.out, s.pc[u], u)
    ensures Inv(p, s')
  {
    hide RowOk, ColumnsOk, OutOk, Gated;
    forall u | 0 <= u < p.threads
      ensures ThreadOk(p, s', u)
    {
      assert ThreadOk(p, s, u);
    }
  }

  /** Most steps touch only the thread's own counters. */
  lemma OwnStep(p: Pass, s: State, t: int, row: seq<int>, pc: Pc)
    requires Inv(p, s) && 0 <= t < p.threads && |row| == p.range
    requires RowOk(p, row, pc, t) && ColumnsOk(p, s.ps, pc, t) && OutOk(p, s.out, pc, t) && Gated(s.pc[t := pc])
    ensures Inv(p, s.(my := s.my[t := row], pc := s.pc[t := pc]))
  {
    hide RowOk, ColumnsOk, OutOk, Gated;
    var s' := s.(my := s.my[t := row], pc := s.pc[t := pc]);
    forall u | 0 <= u < p.threads && u != t
      ensures ColumnsOk(p, s'.ps, s.pc[u], u) && OutOk(p, s'.out, s.pc[u], u)
    {
      assert ThreadOk(p, s, u);
    }
    Frame(p, s, s', t);
  }

  lemma SameGate(pc: seq<Pc>, t: int, pc': Pc)
    requires Gated(pc) && 0 <= t < |pc| && Stage(pc[t]) <= Stage(pc')
        && Gate(Stage(pc')) == Gate(Stage(pc[t])) <= Stage(pc')
    ensures Gated(pc[t := pc'])
  {
  }

  lemma ClearStep(p: Pass, s: State, t: int)
    requires Inv(p, s) && 0 <= t < p.threads && s.pc[t].Clear?
    ensures Inv(p, Step(p, s, t))
  {
    hide M1, M2, Equal, Less;
    assert ThreadOk(p, s, t);
    var k := s.pc[t].k;
    var pc' := if k < p.range then Clear(k + 1) else Count(First(p, t));
    var row := if k < p.range then s.my[t][k := 0] else s.my[t];
    SameGate(s.pc, t, pc');
    OwnStep(p, s, t, row, pc');
    assert s.my[t := s.my[t]] == s.my;
  }

  lemma CountStep(p: Pass, s: State, t: int)
    requires Inv(p, s) && 0 <= t < p.threads && s.pc[t].Count?
    ensures Inv(p, Step(p, s, t))
  {
    hide M1, M2, Equal, Less;
    assert ThreadOk(p, s, t);
    Share(p, t);
    var x := s.pc[t].x;
    var row, pc' := s.my[t], Barrier(1);
    if x < Limit(p, t) {
      CountNext(p, x);
      var d := p.digits[x];
      row, pc' := row[d := row[d] + 1], Count(x + 1);
    }
    SameGate(s.pc, t, pc');
    OwnStep(p, s, t, row, pc');
    assert s.my[t := s.my[t]] == s.my;
  }

  lemma BarrierStep(p: Pass, s: State, t: int)
    requires Inv(p, s) && 0 <= t < p.threads && s.pc[t].Barrier?
    ensures Inv(p, Step(p, s, t))
  {
    hide M1, M2, Equal, Less;
    assert ThreadOk(p, s, t);
    Share(p, t);
    NothingLess(p.digits, |p.digits|);
    var n := s.pc[t].n;
    if AllArrived(s.pc, n) {
      var pc' := After(p, t, n);
      PassGate(s.pc, t, n, pc');
      OwnStep(p, s, t, s.my[t], pc');
      assert s.my[t := s.my[t]] == s.my;
    }
  }

  lemma PassGate(pc: seq<Pc>, t: int, n: int, pc': Pc)
    requires Gated(pc) && 0 <= t < |pc| && pc[t] == Barrier(n) && 1 <= n <= 4 && AllArrived(pc, n)
        && Stage(pc') == 2 * n
    ensures Gated(pc[t := pc'])
  {
  }

  /** While one thread sums columns, every thread's counters are complete counts. */
  lemma CountsComplete(p: Pass, s: State, t: int, u: int, k: int)
    requires Inv(p, s) && 0 <= t < p.threads && 0 <= u < p.threads && s.pc[t].Prefix? && 0 <= k < p.range
    ensures At(s.my, u, k) == Full(p, u, k)
  {
    hide M1, M2, Equal, Less, ColumnsOk, OutOk;
    assert ThreadOk(p, s, u);
    assert Gate(Stage(s.pc[t])) <= Stage(s.pc[u]) && Gate(Stage(s.pc[u])) <= Stage(s.pc[t]);
  }

  lemma SetOther(rows: seq<seq<int>>, j: int, k: int, v: int, u: int, c: int)
    requires u != j || c != k
    ensures At(Set(rows, j, k, v), u, c) == At(rows, u, c)
  {
  }

  lemma SummedElsewhere(p: Pass, ps: seq<seq<int>>, j: int, k: int, v: int, c: int, n: int)
    requires IsPass(p) && Summed(p, ps, c, n) && (c != k || j >= n)
    ensures Summed(p, Set(ps, j, k, v), c, n)
  {
    hide M1, M2, Equal, Less, Set;
    forall u | 0 <= u < n
      ensures At(Set(ps, j, k, v), u, c) == Upto(p, c, Cut(p, Limit(p, u)))
    {
      SetOther(ps, j, k, v, u, c);
    }
  }

  lemma OthersColumns(p: Pass, ps: seq<seq<int>>, pc: Pc, t: int, u: int, j: int, k: int, v: int)
    requires IsPass(p) && 0 <= t < p.threads && 0 <= u < p.threads && t != u
        && FirstColumn(p, t) <= k < LimitColumn(p, t)
    requires ColumnsOk(p, ps, pc, u)
    ensures ColumnsOk(p, Set(ps, j, k, v), pc, u)
  {
    hide M1, M2, Equal, Less, Set, Summed;
    forall c | FirstColumn(p, u) <= c < LimitColumn(p, u) && Summed(p, ps, c, p.threads)
      ensures Summed(p, Set(ps, j, k, v), c, p.threads)
    {
      ColumnsDisjoint(p, t, u, k);
      SummedElsewhere(p, ps, j, k, v, c, p.threads);
    }
    if pc.Prefix? {
      if pc.j == 0 {
        SummedNone(p, Set(ps, j, k, v), pc.col);
      } else {
        ColumnsDisjoint(p, t, u, k);
        SummedElsewhere(p, ps, j, k, v, pc.col, pc.j);
      }
    }
  }

  lemma SummedNone(p: Pass, ps: seq<seq<int>>, k: int)
    requires IsPass(p)
    ensures Summed(p, ps, k, 0)
  {
  }

  /** Writing one sum of the current column. */
  lemma SumOne(p: Pass, s: State, t: int, k: int, j: int, last: int, v: int)
    requires Inv(p, s) && 0 <= t < p.threads && s.pc[t] == Prefix(k, j, last) && k < LimitColumn(p, t) && j < p.threads
    requires v == if j == 0 then At(s.my, 0, k) else last + At(s.my, j, k)
    ensures 0 <= k < p.range && v == Upto(p, k, Cut(p, Limit(p, j)))
    ensures ColumnsOk(p, Set(s.ps, j, k, v), Prefix(k, j + 1, v), t)
  {
    hide M1, M2, Equal, Less, RowOk, OutOk, Gated;
    assert ThreadOk(p, s, t);
    Columns(p, t);
    CountsComplete(p, s, t, j, k);
    Share(p, j);
    assert Upto(p, k, 0) == 0 by { UptoNone(p, k); }
    if j > 0 {
      Share(p, j - 1);
    }
    var ps' := Set(s.ps, j, k, v);
    forall c | FirstColumn(p, t) <= c < k
      ensures Summed(p, ps', c, p.threads)
    {
      SummedElsewhere(p, s.ps, j, k, v, c, p.threads);
    }
    SummedElsewhere(p, s.ps, j, k, v, k, j);
    assert At(ps', j, k) == v;
  }

  lemma UptoNone(p: Pass, c: int)
    requires IsPass(p)
    ensures Upto(p, c, 0) == 0
  {
  }

  lemma SetShape(p: Pass, rows: seq<seq<int>>, j: int, k: int, v: int)
    requires |rows| == p.threads && forall t | 0 <= t < p.threads :: |rows[t]| == p.range
    ensures |Set(rows, j, k, v)| == p.threads && forall t | 0 <= t < p.threads :: |Set(rows, j, k, v)[t]| == p.range
  {
  }

  lemma PrefixStep(p: Pass, s: State, t: int)
    requires Inv(p, s) && 0 <= t < p.threads && s.pc[t].Prefix?
    ensures Inv(p, Step(p, s, t))
  {
    hide M1, M2, Equal, Less, Set, Summed;
    assert ThreadOk(p, s, t);
    Columns(p, t);
    var k, j, last := s.pc[t].col, s.pc[t].j, s.pc[t].last;
    assert s.my[t := s.my[t]] == s.my;
    if k >= LimitColumn(p, t) {
      SameGate(s.pc, t, Barrier(2));
      OwnStep(p, s, t, s.my[t], Barrier(2));
    } else if j == p.threads {
      SummedNone(p, s.ps, k + 1);
      SameGate(s.pc, t, Prefix(k + 1, 0, 0));
      OwnStep(p, s, t, s.my[t], Prefix(k + 1, 0, 0));
    } else {
      var v := if j == 0 then At(s.my, 0, k) else last + At(s.my, j, k);
      SumOne(p, s, t, k, j, last, v);
      SumStep(p, s, t, k, j, v);
    }
  }

  lemma SumStep(p: Pass, s: State, t: int, k: int, j: int, v: int)
    requires Inv(p, s) && 0 <= t < p.threads && s.pc[t].Prefix? && FirstColumn(p, t) <= k < LimitColumn(p, t)
    requires ColumnsOk(p, Set(s.ps, j, k, v), Prefix(k, j + 1, v), t)
    ensures Inv(p, s.(ps := Set(s.ps, j, k, v), pc := s.pc[t := Prefix(k, j + 1, v)]))
  {
    hide M1, M2, Equal, Less, Set, Summed, ColumnsOk, Gated;
    assert ThreadOk(p, s, t);
    var s' := s.(ps := Set(s.ps, j, k, v), pc := s.pc[t := Prefix(k, j + 1, v)]);
    SetShape(p, s.ps, j, k, v);
    SameGate(s.pc, t, Prefix(k, j + 1, v));
    forall u | 0 <= u < p.threads && u != t
      ensures ColumnsOk(p, s'.ps, s.pc[u], u) && OutOk(p, s'.out, s.pc[u], u)
    {
      assert ThreadOk(p, s, u);
      OthersColumns(p, s.ps, s.pc[u], t, u, j, k, v);
    }
    Frame(p, s, s', t);
  }

  /** Once a thread turns counts into positions, all sums are complete. */
  lemma SumsComplete(p: Pass, s: State, t: int, u: int, k: int)
    requires Inv(p, s) && 0 <= t < p.threads && 0 <= u < p.threads && s.pc[t].Offset? && 0 <= k < p.range
    ensures At(s.ps, u, k) == Upto(p, k, Cut(p, Limit(p, u)))
  {
    hide M1, M2, Equal, Less, RowOk, OutOk;
    var w := ColumnOwner(p, k);
    assert ThreadOk(p, s, w);
    assert Gate(Stage(s.pc[t])) <= Stage(s.pc[w]);
    assert Summed(p, s.ps, k, p.threads);
  }

  lemma OffsetStep(p: Pass, s: State, t: int)
    requires Inv(p, s) && 0 <= t < p.threads && s.pc[t].Offset?
    ensures Inv(p, Step(p, s, t))
  {
    hide M1, M2, Equal, Less, Summed;
    assert ThreadOk(p, s, t);
    var k, offset := s.pc[t].c, s.pc[t].offset;
    var row, pc' := s.my[t], Barrier(3);
    if k < p.range {
      SumsComplete(p, s, t, t, k);
      SumsComplete(p, s, t, p.threads - 1, k);
      Share(p, p.threads - 1);
      LessStep(p.digits, k, |p.digits|);
      row := row[k := At(s.ps, t, k) - row[k] + offset];
      pc' := Offset(k + 1, offset + At(s.ps, p.threads - 1, k));
    }
    SameGate(s.pc, t, pc');
    OwnStep(p, s, t, row, pc');
    assert s.my[t := s.my[t]] == s.my;
  }

  /** No two keys go to the same place. */
  lemma DestDistinct(p: Pass, x: int, y: int)
    requires IsPass(p) && 0 <= x < |p.keys| && 0 <= y < |p.keys| && x != y
    ensures Dest(p.digits, x) != Dest(p.digits, y)
  {
    DestsPermute(p.digits);
    var d := Dests(p.digits);
    assert d[x] != d[y];
  }

  lemma PlacedStays(p: Pass, out: seq<int>, x: int, y: int)
    requires IsPass(p) && |out| == |p.keys| && 0 <= x < |p.keys| && Dest(p.digits, x) < |out| && x != y
        && Placed(p, out, y)
    ensures Placed(p, out[Dest(p.digits, x) := p.keys[x]], y)
  {
    hide Less, Equal, Dest;
    DestDistinct(p, x, y);
  }

  lemma OutStays(p: Pass, out: seq<int>, pc: Pc, t: int, u: int, x: int)
    requires IsPass(p) && |out| == |p.keys| && 0 <= t < p.threads && 0 <= u < p.threads && t != u
    requires Cut(p, First(p, t)) <= x < Cut(p, Limit(p, t)) && 0 <= x && Dest(p.digits, x) < |out|
    requires OutOk(p, out, pc, u) && (pc.Scatter? ==> Moving(p, u, pc.y))
    ensures OutOk(p, out[Dest(p.digits, x) := p.keys[x]], pc, u)
  {
    hide M1, M2, Equal, Less, Dest, Placed;
    Share(p, u);
    KeysDisjoint(p, t, u, x);
    var out' := out[Dest(p.digits, x) := p.keys[x]];
    forall y | Cut(p, First(p, u)) <= y < Cut(p, Limit(p, u)) && Placed(p, out, y)
      ensures Placed(p, out', y)
    {
      PlacedStays(p, out, x, y);
    }
  }

  lemma ScatterStep(p: Pass, s: State, t: int)
    requires Inv(p, s) && 0 <= t < p.threads && s.pc[t].Scatter?
    ensures Inv(p, Step(p, s, t))
  {
    hide M1, M2, Equal, Less, Dest, Placed, Summed;
    assert ThreadOk(p, s, t);
    Share(p, t);
    var x := s.pc[t].y;
    if x < Limit(p, t) {
      var d := p.digits[x];
      PlaceNext(p, s, t, x);
      ScatterOne(p, s, t, x);
    } else {
      SameGate(s.pc, t, Barrier(4));
      OwnStep(p, s, t, s.my[t], Barrier(4));
      assert s.my[t := s.my[t]] == s.my;
    }
  }

  /** The counter of its digit says where key `x` goes. */
  lemma PlaceNext(p: Pass, s: State, t: int, x: int)
    requires Inv(p, s) && 0 <= t < p.threads && s.pc[t] == Scatter(x) && x < Limit(p, t)
    ensures 0 <= x < |p.keys| && Cut(p, First(p, t)) <= x < Cut(p, Limit(p, t))
    ensures At(s.my, t, p.digits[x]) == Dest(p.digits, x) < |s.out|
    ensures var row := s.my[t][p.digits[x] := Dest(p.digits, x) + 1];
            RowOk(p, row, Scatter(x + 1), t)
  {
    hide M1, M2, Equal, Less, ColumnsOk, OutOk, Gated;
    assert ThreadOk(p, s, t);
    Share(p, t);
    DestRange(p.digits, x);
    CountNext(p, x);
  }

  lemma ScatterOne(p: Pass, s: State, t: int, x: int)
    requires Inv(p, s) && 0 <= t < p.threads && s.pc[t] == Scatter(x) && 0 <= x < |p.keys|
    requires Cut(p, First(p, t)) <= x < Cut(p, Limit(p, t)) && Dest(p.digits, x) < |s.out|
    requires RowOk(p, s.my[t][p.digits[x] := Dest(p.digits, x) + 1], Scatter(x + 1), t)
    ensures var row := s.my[t][p.digits[x] := Dest(p.digits, x) + 1];
            Inv(p, s.(out := s.out[Dest(p.digits, x) := p.keys[x]], my := s.my[t := row],
                pc := s.pc[t := Scatter(x + 1)]))
  {
    hide M1, M2, Equal, Less, Dest, ColumnsOk, Gated;
    assert ThreadOk(p, s, t);
    var row := s.my[t][p.digits[x] := Dest(p.digits, x) + 1];
    var out' := s.out[Dest(p.digits, x) := p.keys[x]];
    var s' := s.(out := out', my := s.my[t := row], pc := s.pc[t := Scatter(x + 1)]);
    SameGate(s.pc, t, Scatter(x + 1));
    forall y | Cut(p, First(p, t)) <= y < Cut(p, x + 1)
      ensures Placed(p, out', y)
    {
      if y != x {
        PlacedStays(p, s.out, x, y);
      }
    }
    forall u | 0 <= u < p.threads && u != t
      ensures ColumnsOk(p, s'.ps, s.pc[u], u) && OutOk(p, s'.out, s.pc[u], u)
    {
      assert ThreadOk(p, s, u);
      OutStays(p, s.out, s.pc[u], t, u, x);
    }
    assert ColumnsOk(p, s'.ps, Scatter(x + 1), t) by { ScatterColumns(p, s.ps, x, t); }
    Frame(p, s, s', t);
  }

  lemma ScatterColumns(p: Pass, ps: seq<seq<int>>, x: int, t: int)
    requires IsPass(p) && ColumnsOk(p, ps, Scatter(x), t)
    ensures ColumnsOk(p, ps, Scatter(x + 1), t)
  {
  }

  /** Every step of every thread keeps the invariant. */
  lemma StepKeepsInv(p: Pass, s: State, t: int)
    requires Inv(p, s) && 0 <= t < p.threads
    ensures Inv(p, Step(p, s, t))
  {
    hide Step, ThreadOk, Gated;
    match s.pc[t] {
      case Clear(_) => ClearStep(p, s, t);
      case Count(_) => CountStep(p, s, t);
      case Barrier(_) => BarrierStep(p, s, t);
      case Prefix(_, _, _) => PrefixStep(p, s, t);
      case Offset(_, _) => OffsetStep(p, s, t);
      case Scatter(_) => ScatterStep(p, s, t);
      case Done => DoneStep(p, s, t);
    }
  }

  lemma DoneStep(p: Pass, s: State, t: int)
    requires IsPass(p) && |s.pc| == p.threads && 0 <= t < p.threads && s.pc[t].Done?
    ensures Step(p, s, t) == s
  {
  }

  // ---------------------------------------------------------------- runs

  /** All threads at the start of the pass, whatever the tables hold. */
  ghost predicate Start(p: Pass, s: State) {
    Shape(p, s) && !s.fault && forall t | 0 <= t < p.threads :: s.pc[t] == Clear(0)
  }

  ghost predicate Schedule(p: Pass, ts: seq<int>) {
    forall i | 0 <= i < |ts| :: 0 <= ts[i] < p.threads
  }

  ghost function Exec(p: Pass, s: State, ts: seq<int>): (s': State)
    requires Start(p, s) && Schedule(p, ts)
    ensures |s'.pc| == p.threads
  {
    if ts == [] then s else Step(p, Exec(p, s, ts[..|ts| - 1]), ts[|ts| - 1])
  }

  lemma {:induction false} RunInv(p: Pass, s: State, ts: seq<int>)
    requires Start(p, s) && Schedule(p, ts)
    ensures Inv(p, Exec(p, s, ts))
  {
    if ts == [] {
      StartInv(p, s);
    } else {
      RunInv(p, s, ts[..|ts| - 1]);
      StepKeepsInv(p, Exec(p, s, ts[..|ts| - 1]), ts[|ts| - 1]);
    }
  }

  lemma StartInv(p: Pass, s: State)
    requires Start(p, s)
    ensures Inv(p, s)
  {
    forall t | 0 <= t < p.threads
      ensures ThreadOk(p, s, t)
    {
    }
  }

  /** A stable sort of the keys by their digits. */
  ghost predicate StablySorted(keys: seq<int>, digits: seq<int>, out: seq<int>) {
    |keys| == |digits| == |out|
    && forall x | 0 <= x < |keys| :: Dest(digits, x) < |out| && out[Dest(digits, x)] == keys[x]
  }

  /** In every interleaving: no index is ever out of range, and when all threads are done the output is a stable
      sort. */
  lemma RunSorts(p: Pass, s: State, ts: seq<int>)
    requires Start(p, s) && Schedule(p, ts)
    ensures !Exec(p, s, ts).fault
    ensures (forall t | 0 <= t < p.threads :: Exec(p, s, ts).pc[t].Done?) ==>
        StablySorted(p.keys, p.digits, Exec(p, s, ts).out)
  {
    hide M1, M2, Equal, Less, Dest, RowOk, ColumnsOk;
    RunInv(p, s, ts);
    var e := Exec(p, s, ts);
    if forall t | 0 <= t < p.threads :: e.pc[t].Done? {
      forall x | 0 <= x < |p.keys|
        ensures Dest(p.digits, x) < |e.out| && e.out[Dest(p.digits, x)] == p.keys[x]
      {
        var t := KeyOwner(p, x);
        assert ThreadOk(p, e, t);
        assert Placed(p, e.out, x);
      }
    }
  }

  /** The thread that is furthest behind. */
  lemma {:induction false} Last(pc: seq<Pc>, n: nat) returns (t: int)
    requires 1 <= n <= |pc|
    ensures 0 <= t < n && forall u | 0 <= u < n :: Stage(pc[t]) <= Stage(pc[u])
  {
    t := 0;
    if n > 1 {
      t := Last(pc, n - 1);
      if Stage(pc[n - 1]) < Stage(pc[t]) {
        t := n - 1;
      }
    }
  }

  /** The threads never block each other for good: until all are done, some thread can step. */
  lemma NeverStuck(p: Pass, s: State) returns (t: int)
    requires Inv(p, s) && exists u :: 0 <= u < p.threads && !s.pc[u].Done?
    ensures 0 <= t < p.threads && Step(p, s, t).pc != s.pc
  {
    hide M1, M2, Equal, Less, ColumnsOk, OutOk;
    t := Last(s.pc, p.threads);
    assert ThreadOk(p, s, t);
    StepKeepsInv(p, s, t);
    var u :| 0 <= u < p.threads && !s.pc[u].Done?;
    assert Stage(s.pc[t]) <= Stage(s.pc[u]);
    assert ThreadOk(p, s, u);
    assert Step(p, s, t).pc[t] != s.pc[t];
  }

  // ---------------------------------------------------------------- three passes

  /** Bits `k` to `k + j - 1` of a key; shifting a negative key down keeps its sign. */
  function Bits(x: int, k: nat, j: nat): int {
    x / Pow2(k) % Pow2(j)
  }

  ghost function DigitsOf(keys: seq<int>, k: nat, j: nat): (ds: seq<int>)
    ensures |ds| == |keys|
  {
    seq(|keys|, x requires 0 <= x < |keys| => Bits(keys[x], k, j))
  }

  /** The keys are in order when only their low `k` bits count. */
  ghost predicate SortedBy(keys: seq<int>, k: nat) {
    forall x, y | 0 <= x < y < |keys| :: keys[x] % Pow2(k) <= keys[y] % Pow2(k)
  }

  /** The low `k + j` bits are the digit above the low `k` bits. */
  lemma LowBits(x: int, k: nat, j: nat)
    ensures x % Pow2(k + j) == Bits(x, k, j) * Pow2(k) + x % Pow2(k)
  {
    hide Pow2;
    Pow2Add(k, j);
    var a, b := Pow2(k), Pow2(j);
    var q, r := x / a, x % a;
    assert x == a * q + r;
    var q2, d := q / b, q % b;
    assert q == b * q2 + d;
    LowBitsArithmetic(a, b, q2, d, r);
  }

  lemma LowBitsArithmetic(a: int, b: int, q2: int, d: int, r: int)
    requires a >= 1 && b >= 1 && 0 <= d < b && 0 <= r < a
    ensures (a * (b * q2 + d) + r) % (a * b) == d * a + r
  {
    assert a * (b * q2 + d) + r == (a * b) * q2 + (d * a + r) by {
      assert a * (b * q2) == (a * b) * q2;
      assert a * d == d * a;
    }
    assert d * a + r < a * b by { assert (d + 1) * a <= b * a by { Grow(a, d + 1, b); } }
    assert 0 <= d * a by { Grow(a, 0, d); }
    ModUnique(a * (b * q2 + d) + r, a * b, q2, d * a + r);
  }

  lemma DigitOrder(d: int, e: int, a: int, r: int, r': int)
    requires 0 <= r < a && 0 <= r' && (d < e || (d == e && r <= r'))
    ensures d * a + r <= e * a + r'
  {
    if d < e {
      assert e * a == (e - d - 1) * a + (d + 1) * a;
      assert (e - d - 1) * a >= 0 by { Grow(a, 0, e - d - 1); }
    }
  }

  /** A stable pass by the next digit extends the order to that digit and keeps the elements. */
  lemma PassExtends(keys: seq<int>, out: seq<int>, k: nat, j: nat)
    requires StablySorted(keys, DigitsOf(keys, k, j), out) && SortedBy(keys, k)
    ensures SortedBy(out, k + j) && multiset(out) == multiset(keys)
  {
    hide Pow2, Dest, Bits;
    var ds := DigitsOf(keys, k, j);
    var dest := Dests(ds);
    DestsPermute(ds);
    InverseOf(dest, |keys|);
    var src := Inverse(dest, |keys|);
    assert out == Compose(keys, src);
    ComposeKeepsElements(keys, src);
    forall a, b | 0 <= a < b < |out|
      ensures out[a] % Pow2(k + j) <= out[b] % Pow2(k + j)
    {
      var x, y := src[a], src[b];
      assert dest[x] == a && dest[y] == b && out[a] == keys[x] && out[b] == keys[y];
      if ds[y] < ds[x] || (ds[y] == ds[x] && y < x) {
        DestOrder(ds, y, x);
      }
      LowBits(keys[x], k, j);
      LowBits(keys[y], k, j);
      DigitOrder(ds[x], ds[y], Pow2(k), keys[x] % Pow2(k), keys[y] % Pow2(k));
    }
  }

  /** A 32-bit signed key. */
  ghost predicate Int32(x: int) {
    -(WORD / 2) <= x < WORD / 2
  }

  ghost predicate Ascending(keys: seq<int>) {
    forall x, y | 0 <= x < y < |keys| :: keys[x] <= keys[y]
  }

  /** Negative and other keys do not occur together. */
  ghost predicate OneSign(keys: seq<int>) {
    (forall x | 0 <= x < |keys| :: keys[x] < 0) || forall x | 0 <= x < |keys| :: keys[x] >= 0
  }

  lemma Unsigned(x: int)
    requires Int32(x)
    ensures x % WORD == if x < 0 then x + WORD else x
  {
    ModUnique(x, WORD, if x < 0 then -1 else 0, if x < 0 then x + WORD else x);
  }

  /** Keys in order of their unsigned values are in order exactly when they have one sign. */
  lemma UnsignedOrder(keys: seq<int>)
    requires SortedBy(keys, 32) && forall x | 0 <= x < |keys| :: Int32(keys[x])
    ensures Ascending(keys) <==> OneSign(keys)
  {
    hide Pow2;
    WordPowers();
    forall x | 0 <= x < |keys|
      ensures keys[x] % Pow2(32) == if keys[x] < 0 then keys[x] + WORD else keys[x]
    {
      Unsigned(keys[x]);
    }
    if !OneSign(keys) {
      var x :| 0 <= x < |keys| && keys[x] >= 0;
      var y :| 0 <= y < |keys| && keys[y] < 0;
      assert x < y;
    }
  }

  lemma SameSigns(keys: seq<int>, out: seq<int>)
    requires multiset(out) == multiset(keys)
    ensures OneSign(out) <==> OneSign(keys)
    ensures (forall x | 0 <= x < |keys| :: Int32(keys[x])) ==> forall x | 0 <= x < |out| :: Int32(out[x])
  {
    hide Int32;
    forall x | 0 <= x < |out|
      ensures out[x] in keys
    {
      assert out[x] in multiset(out);
    }
    forall x | 0 <= x < |keys|
      ensures keys[x] in out
    {
      assert keys[x] in multiset(keys);
    }
  }

  /** Three passes over 11, 11 and 10 bits put all keys in the order of their unsigned values, which is ascending order
      exactly when no negative key is among others. */
  lemma ThreePassesSort(keys: seq<int>, one: seq<int>, two: seq<int>, three: seq<int>)
    requires forall x | 0 <= x < |keys| :: Int32(keys[x])
    requires StablySorted(keys, DigitsOf(keys, 0, 11), one)
    requires StablySorted(one, DigitsOf(one, 11, 11), two)
    requires StablySorted(two, DigitsOf(two, 22, 10), three)
    ensures multiset(three) == multiset(keys) && SortedBy(three, 32)
    ensures Ascending(three) <==> OneSign(keys)
  {
    hide StablySorted, Pow2, DigitsOf, OneSign, Ascending;
    assert Pow2(0) == 1 by { PowZero(); }
    PassExtends(keys, one, 0, 11);
    PassExtends(one, two, 11, 11);
    PassExtends(two, three, 22, 10);
    SameSigns(keys, three);
    UnsignedOrder(three);
  }

  /** So two keys are enough to show it. */
  lemma MixedSignsMisplaced(one: seq<int>, two: seq<int>, three: seq<int>)
    requires StablySorted([-1, 0], DigitsOf([-1, 0], 0, 11), one)
    requires StablySorted(one, DigitsOf(one, 11, 11), two)
    requires StablySorted(two, DigitsOf(two, 22, 10), three)
    ensures three == [0, -1]
  {
    hide StablySorted, Pow2, DigitsOf, SortedBy;
    ThreePassesSort([-1, 0], one, two, three);
    assert [-1, 0][0] == -1 && [-1, 0][1] == 0;
    assert |three| == |multiset(three)| == 2;
    assert three == [three[0], three[1]];
    assert three[0] in multiset(three) && three[1] in multiset(three);
  }

  lemma PowZero()
    ensures Pow2(0) == 1
  {
  }

  ghost function DigitPass(threads: int, keys: seq<int>, k: nat, j: nat): Pass {
    Pass(threads, Pow2(j), keys, DigitsOf(keys, k, j))
  }

  /** Some interleaving of one pass has ended with all threads done and this output. */
  ghost predicate Finishes(p: Pass, s: State, ts: seq<int>, out: seq<int>) {
    && Start(p, s) && Schedule(p, ts) && Exec(p, s, ts).out == out
    && forall t | 0 <= t < p.threads :: Exec(p, s, ts).pc[t].Done?
  }

  /** However the threads interleave in each of the three passes, the result has the same keys in the order of their
      unsigned values, and it is sorted exactly when no negative key is among others. */
  lemma RadixSortS3(threads: int, keys: seq<int>, s1: State, ts1: seq<int>, one: seq<int>, s2: State, ts2: seq<int>,
      two: seq<int>, s3: State, ts3: seq<int>, three: seq<int>)
    requires forall x | 0 <= x < |keys| :: Int32(keys[x])
    requires Finishes(DigitPass(threads, keys, 0, 11), s1, ts1, one)
    requires Finishes(DigitPass(threads, one, 11, 11), s2, ts2, two)
    requires Finishes(DigitPass(threads, two, 22, 10), s3, ts3, three)
    ensures multiset(three) == multiset(keys) && SortedBy(three, 32)
    ensures Ascending(three) <==> OneSign(keys)
  {
    hide Start, Exec, StablySorted, Pow2, DigitsOf, SortedBy, Ascending, OneSign;
    RunSorts(DigitPass(threads, keys, 0, 11), s1, ts1);
    RunSorts(DigitPass(threads, one, 11, 11), s2, ts2);
    RunSorts(DigitPass(threads, two, 22, 10), s3, ts3);
    ThreePassesSort(keys, one, two, three);
  }
}
