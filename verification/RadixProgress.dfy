/** Every pass of the radix sort ends. */
module RadixProgress {
  // A measure that every effective step lowers bounds the effective steps of every run.

  import opened Arith
  import opened Pardo
  import opened RadixSort

  function AtLeastZero(x: int): (r: int)
    ensures r >= 0
  {
    if x < 0 then 0 else x
  }

  /** The steps that the columns still need: for each one, a step for every thread and one to go on. */
  function ColumnWork(p: Pass, t: int, col: int, j: int): int
    requires p.threads >= 1
  {
    var left := LimitColumn(p, t) - col;
    if left <= 0 then 0 else left * (p.threads + 1) - j
  }

  /** More than all columns need. */
  function AllColumns(p: Pass): int {
    p.range * (p.threads + 1)
  }

  /** How many effective steps thread `t` has before it at most. */
  function Work(p: Pass, pc: Pc, t: int): int
    requires p.threads >= 1
  {
    var n, r, c := |p.keys|, p.range, AllColumns(p);
    match pc
    case Done => 0
    case Scatter(x) => 2 + AtLeastZero(Limit(p, t) - x)
    case Offset(k, _) => 4 + n + AtLeastZero(r - k)
    case Prefix(k, j, _) => 6 + n + r + ColumnWork(p, t, k, j)
    case Count(x) => 8 + n + r + c + AtLeastZero(Limit(p, t) - x)
    case Clear(k) => 9 + 2 * n + r + c + AtLeastZero(r - k)
    case Barrier(i) =>
      if i == 1 then 7 + n + r + c else if i == 2 then 5 + n + r else if i == 3 then 3 + n else 1
  }

  lemma ShareSize(p: Pass, t: int)
    requires IsPass(p) && 0 <= t < p.threads
    ensures Limit(p, t) - First(p, t) <= |p.keys|
  {
    hide M1, M2;
    Share(p, t);
  }

  lemma ColumnsSize(p: Pass, t: int)
    requires IsPass(p) && 0 <= t < p.threads
    ensures 0 <= ColumnWork(p, t, FirstColumn(p, t), 0) <= AllColumns(p)
  {
    hide M1, M2;
    Columns(p, t);
    var left := LimitColumn(p, t) - FirstColumn(p, t);
    if left > 0 {
      Product(left, p.range, p.threads + 1);
    }
  }

  lemma Product(a: int, b: int, c: int)
    requires 0 <= a <= b && 0 <= c
    ensures 0 <= a * c <= b * c
  {
  }

  lemma ColumnNext(p: Pass, t: int, col: int, j: int)
    requires IsPass(p) && 0 <= t < p.threads && col < LimitColumn(p, t) && 0 <= j <= p.threads
    ensures ColumnWork(p, t, col, j) >= 1
    ensures j < p.threads ==> ColumnWork(p, t, col, j + 1) < ColumnWork(p, t, col, j)
    ensures j == p.threads ==> ColumnWork(p, t, col + 1, 0) < ColumnWork(p, t, col, j)
  {
    hide M1, M2;
    var left := LimitColumn(p, t) - col;
    assert left * (p.threads + 1) == (left - 1) * (p.threads + 1) + (p.threads + 1);
    Product(0, left - 1, p.threads + 1);
  }

  /** The work of a thread is not negative. */
  lemma WorkIsNat(p: Pass, s: State, t: int)
    requires Inv(p, s) && 0 <= t < p.threads
    ensures Work(p, s.pc[t], t) >= 0
  {
    hide M1, M2, RowOk, OutOk, Gated, Summed, ColumnWork;
    assert ThreadOk(p, s, t);
    Product(0, p.range, p.threads + 1);
    if s.pc[t].Prefix? && s.pc[t].col < LimitColumn(p, t) {
      ColumnNext(p, t, s.pc[t].col, s.pc[t].j);
    } else if s.pc[t].Prefix? {
      NoColumns(p, t, s.pc[t].col, s.pc[t].j);
    }
  }

  lemma NoColumns(p: Pass, t: int, col: int, j: int)
    requires p.threads >= 1 && col >= LimitColumn(p, t)
    ensures ColumnWork(p, t, col, j) == 0
  {
  }

  /** A step that moves a thread lowers its work, and no other thread moves. */
  lemma WorkDrops(p: Pass, s: State, t: int)
    requires Inv(p, s) && 0 <= t < p.threads
    ensures var pc := Step(p, s, t).pc;
            |pc| == |s.pc| && pc == s.pc[t := pc[t]] && (pc[t] != s.pc[t] ==> Work(p, pc[t], t) < Work(p, s.pc[t], t))
  {
    hide M1, M2, Upto, Gated, Summed, ColumnWork, AllColumns, OutOk;
    assert ThreadOk(p, s, t);
    ShareSize(p, t);
    ColumnsSize(p, t);
    if s.pc[t].Prefix? {
      if s.pc[t].col < LimitColumn(p, t) {
        ColumnNext(p, t, s.pc[t].col, s.pc[t].j);
      } else {
        NoColumns(p, t, s.pc[t].col, s.pc[t].j);
      }
    }
  }

  // ---------------------------------------------------------------- all threads

  function Total(p: Pass, pc: seq<Pc>, n: nat): int
    requires p.threads >= 1 && n <= |pc|
  {
    if n == 0 then 0 else Total(p, pc, n - 1) + Work(p, pc[n - 1], n - 1)
  }

  lemma {:induction false} TotalIsNat(p: Pass, s: State, n: nat)
    requires Inv(p, s) && n <= p.threads
    ensures Total(p, s.pc, n) >= 0
  {
    hide Work;
    if n > 0 {
      TotalIsNat(p, s, n - 1);
      WorkIsNat(p, s, n - 1);
    }
  }

  lemma {:induction false} TotalChanges(p: Pass, pc: seq<Pc>, t: nat, now: Pc, n: nat)
    requires p.threads >= 1 && n <= |pc| && t < |pc|
    ensures Total(p, pc[t := now], n) ==
              Total(p, pc, n) + if t < n then Work(p, now, t) - Work(p, pc[t], t) else 0
  {
    hide Work;
    if n > 0 {
      TotalChanges(p, pc, t, now, n - 1);
    }
  }

  /** Every effective step lowers the measure. */
  lemma StepLowers(p: Pass, s: State, t: int)
    requires Inv(p, s) && 0 <= t < p.threads
    ensures |Step(p, s, t).pc| == p.threads
    ensures Step(p, s, t).pc == s.pc || Total(p, Step(p, s, t).pc, p.threads) < Total(p, s.pc, p.threads)
  {
    hide Step, Work, Inv;
    InvThreads(p, s);
    WorkDrops(p, s, t);
    var pc := Step(p, s, t).pc;
    TotalChanges(p, s.pc, t, pc[t], p.threads);
    assert pc[t] == s.pc[t] ==> pc == s.pc;
  }

  lemma InvThreads(p: Pass, s: State)
    requires Inv(p, s)
    ensures IsPass(p) && |s.pc| == p.threads >= 1
  {
  }

  /** The steps of a run that move a thread. */
  ghost function Effective(p: Pass, s: State, ts: seq<int>): nat
    requires Start(p, s) && Schedule(p, ts)
  {
    if ts == [] then 0
    else
      var before := ts[..|ts| - 1];
      Effective(p, s, before) + if Exec(p, s, ts).pc != Exec(p, s, before).pc then 1 else 0
  }

  /** No run has more effective steps than the measure of its start. */
  lemma {:induction false} RunIsShort(p: Pass, s: State, ts: seq<int>)
    requires Start(p, s) && Schedule(p, ts)
    ensures Effective(p, s, ts) + Total(p, Exec(p, s, ts).pc, p.threads) <= Total(p, s.pc, p.threads)
    ensures Effective(p, s, ts) <= Total(p, s.pc, p.threads)
  {
    hide Step, Total, Inv, Start;
    StartThreads(p, s);
    RunInv(p, s, ts);
    TotalIsNat(p, Exec(p, s, ts), p.threads);
    if ts != [] {
      var before := ts[..|ts| - 1];
      RunIsShort(p, s, before);
      RunInv(p, s, before);
      StepLowers(p, Exec(p, s, before), ts[|ts| - 1]);
    }
  }

  lemma StartThreads(p: Pass, s: State)
    requires Start(p, s)
    ensures p.threads >= 1 && |s.pc| == p.threads
  {
  }

  ghost predicate AllDone(s: State) {
    forall t | 0 <= t < |s.pc| :: s.pc[t].Done?
  }

  /** Every run can be continued until all threads are done. */
  lemma {:induction false} RunEnds(p: Pass, s: State, ts: seq<int>) returns (all: seq<int>)
    requires Start(p, s) && Schedule(p, ts)
    ensures ts <= all && Schedule(p, all) && AllDone(Exec(p, s, all))
    decreases Measure(p, s, ts)
  {
    hide Step, Total, Inv, Start;
    StartThreads(p, s);
    RunInv(p, s, ts);
    var e := Exec(p, s, ts);
    all := ts;
    if !AllDone(e) {
      InvThreads(p, e);
      var t := NeverStuck(p, e);
      var more := ts + [t];
      assert more[..|more| - 1] == ts;
      StepLowers(p, e, t);
      RunInv(p, s, more);
      TotalIsNat(p, e, p.threads);
      TotalIsNat(p, Exec(p, s, more), p.threads);
      all := RunEnds(p, s, more);
    }
  }

  ghost function Measure(p: Pass, s: State, ts: seq<int>): (m: nat)
    requires Start(p, s) && Schedule(p, ts)
  {
    StartThreads(p, s);
    AtLeastZero(Total(p, Exec(p, s, ts).pc, p.threads))
  }

  // ---------------------------------------------------------------- whole sorts

  /** A pass with all threads at the start. */
  lemma PassEnds(p: Pass) returns (s: State, ts: seq<int>, out: seq<int>)
    requires IsPass(p)
    ensures Finishes(p, s, ts, out)
  {
    var rows := seq(p.threads, _ => seq(p.range, _ => 0));
    s := State(rows, rows, seq(|p.keys|, _ => 0), seq(p.threads, _ => Clear(0)), false);
    assert Start(p, s);
    ts := RunEnds(p, s, []);
    out := Exec(p, s, ts).out;
  }

  lemma DigitPassIs(threads: int, keys: seq<int>, k: nat, j: nat)
    requires threads >= 1
    ensures IsPass(DigitPass(threads, keys, k, j))
  {
    hide Pow2;
  }

  /** The runs that the sort is made of. */
  datatype SortRun = SortRun(s1: State, ts1: seq<int>, one: seq<int>, s2: State, ts2: seq<int>, two: seq<int>,
      s3: State, ts3: seq<int>, three: seq<int>)

  ghost predicate Sorts(threads: int, keys: seq<int>, r: SortRun) {
    && Finishes(DigitPass(threads, keys, 0, 11), r.s1, r.ts1, r.one)
    && Finishes(DigitPass(threads, r.one, 11, 11), r.s2, r.ts2, r.two)
    && Finishes(DigitPass(threads, r.two, 22, 10), r.s3, r.ts3, r.three)
  }

  /** For every number of threads and all keys the three passes have runs that finish. */
  lemma SortEnds(threads: int, keys: seq<int>) returns (r: SortRun)
    requires threads >= 1
    ensures Sorts(threads, keys, r)
  {
    hide Finishes, IsPass;
    DigitPassIs(threads, keys, 0, 11);
    var s1, ts1, one := PassEnds(DigitPass(threads, keys, 0, 11));
    DigitPassIs(threads, one, 11, 11);
    var s2, ts2, two := PassEnds(DigitPass(threads, one, 11, 11));
    DigitPassIs(threads, two, 22, 10);
    var s3, ts3, three := PassEnds(DigitPass(threads, two, 22, 10));
    r := SortRun(s1, ts1, one, s2, ts2, two, s3, ts3, three);
  }

  /** And each of them, for the keys -1 and 0, gives 0 and -1. */
  lemma MixedSignsRun(threads: int) returns (r: SortRun)
    requires threads >= 1
    ensures Sorts(threads, [-1, 0], r) && r.three == [0, -1]
  {
    r := SortEnds(threads, [-1, 0]);
    EveryMixedRun(threads, r);
  }

  lemma EveryMixedRun(threads: int, r: SortRun)
    requires Sorts(threads, [-1, 0], r)
    ensures r.three == [0, -1]
  {
    hide Start, Exec, StablySorted, Pow2, DigitsOf;
    RunSorts(DigitPass(threads, [-1, 0], 0, 11), r.s1, r.ts1);
    RunSorts(DigitPass(threads, r.one, 11, 11), r.s2, r.ts2);
    RunSorts(DigitPass(threads, r.two, 22, 10), r.s3, r.ts3);
    MixedSignsMisplaced(r.one, r.two, r.three);
  }
}
