/** Barrier and reduction. */
module Barrier {
  // A counter, a single phase bit and a condition variable, used again and again.

  import opened Mutex
  import opened Permutation

  /** The reductions; any other request is reported and leaves the running value alone. */
  datatype Op = Min | Max | Sum | Other

  /** What a call brings. */
  datatype Arg = Arg(op: Op, val: int)

  /** Where a thread stands: outside, waiting for the lock, arriving, in the waiting loop, asleep in it, woken, about to
      unlock, or about to read the result after unlocking. */
  datatype Pc = Idle | WantLock(arg: Arg) | Entering(arg: Arg) | Looping(phase: int) | Asleep(phase: int)
    | Woken(phase: int) | Unlocking | Reading

  /** One arrival: the thread and what its call brings. */
  datatype Arrival = Arrival(who: int, arg: Arg)

  /** The shared fields and the threads.  `arrived` lists the arrivals of the current episode and `done` those of the
      finished ones; `entered` counts how often each thread has arrived, `given` lists what its calls brought and
      `returned` what they returned. */
  datatype State = State(holder: int, phase: int, waiting: int, sum: int, result: int, pc: seq<Pc>, entered: seq<int>,
                         given: seq<seq<Arg>>, returned: seq<seq<int>>, arrived: seq<Arrival>, done: seq<seq<Arrival>>)

  datatype Choice = Go | Call(arg: Arg) | Spurious

  function Apply(op: Op, a: int, b: int): int {
    match op
    case Min => if a < b then a else b
    case Max => if a > b then a else b
    case Sum => a + b
    case Other => a
  }

  /** A broadcast wakes every sleeping thread. */
  function WakeAll(pc: seq<Pc>): (r: seq<Pc>)
    ensures |r| == |pc|
  {
    seq(|pc|, i requires 0 <= i < |pc| => if pc[i].Asleep? then Woken(pc[i].phase) else pc[i])
  }

  ghost predicate Shape(s: State) {
    |s.pc| == |s.entered| == |s.given| == |s.returned| >= 1
  }

  /** A thread arrives: it adds its value, and the last one to arrive ends the episode. */
  function Arrive(s: State, t: int, arg: Arg): State
    requires Shape(s) && 0 <= t < |s.pc|
  {
    var sum := if s.waiting == 0 then arg.val else Apply(arg.op, s.sum, arg.val);
    var arrived := s.arrived + [Arrival(t, arg)];
    var entered := s.entered[t := s.entered[t] + 1];
    var pc := s.pc[t := Looping(s.phase)];
    if s.waiting + 1 == |s.pc| then
      s.(result := sum, sum := 0, waiting := 0, phase := 1 - s.phase, pc := WakeAll(pc), entered := entered,
         arrived := [], done := s.done + [arrived])
    else
      s.(sum := sum, waiting := s.waiting + 1, pc := pc, entered := entered, arrived := arrived)
  }

  /** One step of thread `t`. */
  function Step(s: State, t: int, c: Choice): State
    requires Shape(s) && 0 <= t < |s.pc|
  {
    match s.pc[t]
    case Idle => if c.Call? then s.(given := s.given[t := s.given[t] + [c.arg]], pc := s.pc[t := WantLock(c.arg)])
        else s
    case WantLock(arg) => if s.holder == -1 then s.(holder := t, pc := s.pc[t := Entering(arg)]) else s
    case Entering(arg) => Arrive(s, t, arg)
    case Looping(mine) =>
      if s.phase == mine then s.(holder := -1, pc := s.pc[t := Asleep(mine)]) else s.(pc := s.pc[t := Unlocking])
    case Asleep(mine) => if c.Spurious? then s.(pc := s.pc[t := Woken(mine)]) else s
    case Woken(mine) => if s.holder == -1 then s.(holder := t, pc := s.pc[t := Looping(mine)]) else s
    case Unlocking => s.(holder := -1, pc := s.pc[t := Reading])
    case Reading => s.(returned := s.returned[t := s.returned[t] + [s.result]], pc := s.pc[t := Idle])
  }

  // ---------------------------------------------------------------- the invariant

  /** The value of an episode: its arrivals combined in their order, each with its own operator. */
  function Fold(arrivals: seq<Arrival>): int {
    if |arrivals| == 0 then 0
    else
      var last := arrivals[|arrivals| - 1].arg;
      if |arrivals| == 1 then last.val else Apply(last.op, Fold(arrivals[..|arrivals| - 1]), last.val)
  }

  ghost function Who(arrivals: seq<Arrival>): (ts: seq<int>)
    ensures |ts| == |arrivals|
  {
    seq(|arrivals|, i requires 0 <= i < |arrivals| => arrivals[i].who)
  }

  /** Every one of the `n` threads arrived exactly once. */
  ghost predicate Complete(arrivals: seq<Arrival>, n: int) {
    n >= 0 && IsPermutation(Who(arrivals), n)
  }

  /** Different threads have arrived in the current episode, exactly those one ahead. */
  ghost predicate Arriving(arrived: seq<Arrival>, entered: seq<int>, e: int) {
    && |arrived| < |entered|
    && (forall i | 0 <= i < |arrived| :: 0 <= arrived[i].who < |entered| && entered[arrived[i].who] == e + 1)
    && (forall i, j | 0 <= i < j < |arrived| :: arrived[i].who != arrived[j].who)
    && (forall t | 0 <= t < |entered| :: entered[t] == e || (entered[t] == e + 1 && t in Who(arrived)))
  }

  predicate Holds(pc: Pc) {
    pc.Entering? || pc.Looping? || pc.Unlocking?
  }

  /** What a thread's place says about the episode it is in. */
  ghost predicate ThreadOk(pc: Pc, entered: int, returned: seq<int>, e: int) {
    match pc
    case Idle => entered == e == |returned|
    case WantLock(_) => entered == e == |returned|
    case Entering(_) => entered == e == |returned|
    case Looping(mine) => entered >= 1 && mine == (entered + 1) % 2 && |returned| == entered - 1
    case Asleep(mine) => entered == e + 1 && mine == (entered + 1) % 2 && |returned| == entered - 1
    case Woken(mine) => entered >= 1 && mine == (entered + 1) % 2 && |returned| == entered - 1
    case Unlocking => entered == e >= 1 && |returned| == entered - 1
    case Reading => entered == e >= 1 && |returned| == entered - 1
  }

  ghost predicate Results(returned: seq<int>, done: seq<seq<Arrival>>) {
    |returned| <= |done| && forall k | 0 <= k < |returned| :: returned[k] == Fold(done[k])
  }

  ghost predicate Sums(waiting: int, sum: int, result: int, arrived: seq<Arrival>, done: seq<seq<Arrival>>) {
    && waiting == |arrived| && (waiting > 0 ==> sum == Fold(arrived))
    && (done != [] ==> result == Fold(done[|done| - 1]))
  }

  /** What a thread's `k`-th call brings. */
  ghost predicate Gave(given: seq<seq<Arg>>, a: Arrival, k: int) {
    0 <= a.who < |given| && 0 <= k < |given[a.who]| && a.arg == given[a.who][k]
  }

  /** Arrivals carry what the calls bring that they belong to. */
  ghost predicate Recorded(given: seq<seq<Arg>>, arrived: seq<Arrival>, done: seq<seq<Arrival>>) {
    && (forall k, i | 0 <= k < |done| && 0 <= i < |done[k]| :: Gave(given, done[k][i], k))
    && (forall i | 0 <= i < |arrived| :: Gave(given, arrived[i], |done|))
  }

  /** A call that has not arrived yet is the latest. */
  ghost predicate Waiting(pc: Pc, given: seq<Arg>, entered: int) {
    if pc.WantLock? || pc.Entering? then 0 <= entered && |given| == entered + 1 && pc.arg == given[entered]
        else |given| == entered
  }

  ghost predicate Inv(s: State) {
    && Shape(s) && Exclusive(s.pc, Holds, s.holder) && s.phase == |s.done| % 2
    && Arriving(s.arrived, s.entered, |s.done|)
    && (forall e | 0 <= e < |s.done| :: Complete(s.done[e], |s.pc|))
    && Sums(s.waiting, s.sum, s.result, s.arrived, s.done)
    && (forall t | 0 <= t < |s.pc| :: ThreadOk(s.pc[t], s.entered[t], s.returned[t], |s.done|))
    && (forall t | 0 <= t < |s.pc| :: Results(s.returned[t], s.done))
    && (forall t | 0 <= t < |s.pc| :: Waiting(s.pc[t], s.given[t], s.entered[t]))
    && Recorded(s.given, s.arrived, s.done)
  }

  // ---------------------------------------------------------------- one step

  lemma FoldMore(arrivals: seq<Arrival>, a: Arrival)
    ensures Fold(arrivals + [a]) == if arrivals == [] then a.arg.val else Apply(a.arg.op, Fold(arrivals), a.arg.val)
  {
    assert (arrivals + [a])[..|arrivals|] == arrivals;
  }

  lemma ArrivingMore(arrived: seq<Arrival>, entered: seq<int>, e: int, t: int, arg: Arg)
    requires Arriving(arrived, entered, e) && 0 <= t < |entered| && entered[t] == e
    ensures var now, entered' := arrived + [Arrival(t, arg)], entered[t := e + 1];
            && (|now| < |entered| ==> Arriving(now, entered', e))
            && (|now| == |entered| ==>
                Complete(now, |entered|) && forall u | 0 <= u < |entered| :: entered'[u] == e + 1)
  {
    var now, entered' := arrived + [Arrival(t, arg)], entered[t := e + 1];
    forall u | 0 <= u < |entered| && entered'[u] != e
      ensures entered'[u] == e + 1 && u in Who(now)
    {
      if u == t {
        assert Who(now)[|arrived|] == t;
      } else {
        assert u in Who(arrived);
        var i :| 0 <= i < |arrived| && Who(arrived)[i] == u;
        assert Who(now)[i] == u;
      }
    }
    forall i, j | 0 <= i < j < |now|
      ensures now[i].who != now[j].who
    {
      if j == |arrived| {
        assert entered[now[i].who] == e + 1;
      }
    }
    if |now| == |entered| {
      var p := Who(now);
      assert IsPermutation(p, |entered|);
      forall u | 0 <= u < |entered|
        ensures entered'[u] == e + 1
      {
        var i := Hit(p, |entered|, u);
        assert now[i].who == u;
      }
    }
  }

  /** A step that only moves the thread. */
  lemma MoveStep(s: State, t: int, pc': Pc, holder': int)
    requires Inv(s) && 0 <= t < |s.pc| && ThreadOk(pc', s.entered[t], s.returned[t], |s.done|)
        && Waiting(pc', s.given[t], s.entered[t])
    requires if Holds(pc') then holder' == t && (s.holder == t || s.holder == -1)
        else holder' == if s.holder == t then -1 else s.holder
    ensures Inv(s.(pc := s.pc[t := pc'], holder := holder'))
  {
    hide Arriving, Complete, Sums, Results, Recorded;
    ExclusiveStep(s.pc, Holds, s.holder, t, pc', holder');
  }

  lemma CallStep(s: State, t: int, c: Choice)
    requires Inv(s) && 0 <= t < |s.pc| && s.pc[t].Idle? && c.Call?
    ensures Inv(Step(s, t, c))
  {
    hide Arriving, Complete, Sums, Results;
    assert Waiting(s.pc[t], s.given[t], s.entered[t]);
    ExclusiveStep(s.pc, Holds, s.holder, t, WantLock(c.arg), s.holder);
    RecordedMore(s.given, t, c.arg, s.arrived, s.done);
  }

  lemma RecordedMore(given: seq<seq<Arg>>, t: int, arg: Arg, arrived: seq<Arrival>, done: seq<seq<Arrival>>)
    requires Recorded(given, arrived, done) && 0 <= t < |given|
    ensures Recorded(given[t := given[t] + [arg]], arrived, done)
  {
    var given' := given[t := given[t] + [arg]];
    forall k, i | 0 <= k < |done| && 0 <= i < |done[k]|
      ensures Gave(given', done[k][i], k)
    {
      assert Gave(given, done[k][i], k);
    }
    forall i | 0 <= i < |arrived|
      ensures Gave(given', arrived[i], |done|)
    {
      assert Gave(given, arrived[i], |done|);
    }
  }

  lemma ReadStep(s: State, t: int, c: Choice)
    requires Inv(s) && 0 <= t < |s.pc| && s.pc[t].Reading?
    ensures Inv(Step(s, t, c))
  {
    hide Arriving, Complete, Fold, Recorded;
    assert Waiting(s.pc[t], s.given[t], s.entered[t]);
    assert ThreadOk(s.pc[t], s.entered[t], s.returned[t], |s.done|);
    assert Results(s.returned[t], s.done);
    ExclusiveStep(s.pc, Holds, s.holder, t, Idle, s.holder);
  }

  lemma ResultsMore(returned: seq<int>, done: seq<seq<Arrival>>, arrivals: seq<Arrival>)
    requires Results(returned, done)
    ensures Results(returned, done + [arrivals])
  {
  }

  lemma ArriveStep(s: State, t: int, c: Choice)
    requires Inv(s) && 0 <= t < |s.pc| && s.pc[t].Entering?
    ensures Inv(Step(s, t, c))
  {
    hide Arriving, Complete, Results, Fold;
    var arg, e := s.pc[t].arg, |s.done|;
    assert Waiting(s.pc[t], s.given[t], s.entered[t]);
    assert Gave(s.given, Arrival(t, arg), e);
    assert ThreadOk(s.pc[t], s.entered[t], s.returned[t], e);
    FoldMore(s.arrived, Arrival(t, arg));
    ArrivingMore(s.arrived, s.entered, e, t, arg);
    ArrivingCount(s.arrived, s.entered, e);
    ExclusiveStep(s.pc, Holds, s.holder, t, Looping(s.phase), s.holder);
    if s.waiting + 1 == |s.pc| {
      EndEpisode(s, t, arg);
    }
  }

  lemma ArrivingCount(arrived: seq<Arrival>, entered: seq<int>, e: int)
    requires Arriving(arrived, entered, e)
    ensures |arrived| < |entered|
  {
  }

  /** The last arrival ends the episode. */
  lemma EndEpisode(s: State, t: int, arg: Arg)
    requires Inv(s) && 0 <= t < |s.pc| && s.pc[t] == Entering(arg) && s.waiting + 1 == |s.pc|
        && s.entered[t] == |s.done|
    ensures Inv(Arrive(s, t, arg))
  {
    hide Arriving, Complete, Results, Fold, Recorded;
    var e := |s.done|;
    var s' := Arrive(s, t, arg);
    var arrived := s.arrived + [Arrival(t, arg)];
    assert Waiting(s.pc[t], s.given[t], s.entered[t]);
    RecordedNext(s.given, s.arrived, s.done, Arrival(t, arg));
    assert ThreadOk(s.pc[t], s.entered[t], s.returned[t], e);
    FoldMore(s.arrived, Arrival(t, arg));
    ArrivingMore(s.arrived, s.entered, e, t, arg);
    NextEpisode(s'.entered, e + 1);
    assert s'.done[e] == arrived;
    forall u | 0 <= u < |s.pc|
      ensures Results(s'.returned[u], s'.done)
    {
      ResultsMore(s.returned[u], s.done, arrived);
    }
    forall u | 0 <= u < |s.pc|
      ensures ThreadOk(s'.pc[u], s'.entered[u], s'.returned[u], e + 1)
    {
      assert ThreadOk(s.pc[u], s.entered[u], s.returned[u], e);
    }
    forall u | 0 <= u < |s.pc|
      ensures Waiting(s'.pc[u], s'.given[u], s'.entered[u])
    {
      assert Waiting(s.pc[u], s.given[u], s.entered[u]);
      assert ThreadOk(s.pc[u], s.entered[u], s.returned[u], e);
    }
  }

  lemma RecordedNext(given: seq<seq<Arg>>, arrived: seq<Arrival>, done: seq<seq<Arrival>>, a: Arrival)
    requires Recorded(given, arrived, done) && Gave(given, a, |done|)
    ensures Recorded(given, [], done + [arrived + [a]])
  {
    var done' := done + [arrived + [a]];
    forall k, i | 0 <= k < |done'| && 0 <= i < |done'[k]|
      ensures Gave(given, done'[k][i], k)
    {
      if k < |done| {
        assert Gave(given, done[k][i], k);
      } else if i < |arrived| {
        assert Gave(given, arrived[i], |done|);
      }
    }
  }

  lemma NextEpisode(entered: seq<int>, e: int)
    requires |entered| >= 1 && forall u | 0 <= u < |entered| :: entered[u] == e
    ensures Arriving([], entered, e)
  {
  }

  /** Every step of every thread keeps the invariant. */
  lemma StepKeepsInv(s: State, t: int, c: Choice)
    requires Inv(s) && 0 <= t < |s.pc|
    ensures Inv(Step(s, t, c))
  {
    hide Complete, Sums, Results;
    assert ThreadOk(s.pc[t], s.entered[t], s.returned[t], |s.done|);
    match s.pc[t] {
      case Idle => if c.Call? { CallStep(s, t, c); }
      case WantLock(arg) => if s.holder == -1 { MoveStep(s, t, Entering(arg), t); }
      case Entering(_) => ArriveStep(s, t, c);
      case Looping(mine) =>
        assert s.entered[t] == |s.done| || s.entered[t] == |s.done| + 1;
        if s.phase == mine { MoveStep(s, t, Asleep(mine), -1); } else { MoveStep(s, t, Unlocking, t); }
      case Asleep(mine) => if c.Spurious? { MoveStep(s, t, Woken(mine), s.holder); }
      case Woken(mine) => if s.holder == -1 { MoveStep(s, t, Looping(mine), t); }
      case Unlocking => MoveStep(s, t, Reading, -1);
      case Reading => ReadStep(s, t, c);
    }
  }

  // ---------------------------------------------------------------- runs

  ghost predicate Start(s: State) {
    && Shape(s) && s.holder == -1 && s.phase == 0 && s.waiting == 0 && s.arrived == [] && s.done == []
    && forall t | 0 <= t < |s.pc| :: s.pc[t].Idle? && s.entered[t] == 0 && s.given[t] == [] && s.returned[t] == []
  }

  ghost predicate Schedule(n: int, cs: seq<(int, Choice)>) {
    forall i | 0 <= i < |cs| :: 0 <= cs[i].0 < n
  }

  ghost function Exec(s: State, cs: seq<(int, Choice)>): (s': State)
    requires Start(s) && Schedule(|s.pc|, cs)
    ensures Shape(s') && |s'.pc| == |s.pc|
  {
    if cs == [] then s else Step(Exec(s, cs[..|cs| - 1]), cs[|cs| - 1].0, cs[|cs| - 1].1)
  }

  lemma {:induction false} RunInv(s: State, cs: seq<(int, Choice)>)
    requires Start(s) && Schedule(|s.pc|, cs)
    ensures Inv(Exec(s, cs))
  {
    hide Inv, Step;
    if cs == [] {
      StartInv(s);
    } else {
      RunInv(s, cs[..|cs| - 1]);
      StepKeepsInv(Exec(s, cs[..|cs| - 1]), cs[|cs| - 1].0, cs[|cs| - 1].1);
    }
  }

  lemma StartInv(s: State)
    requires Start(s)
    ensures Inv(s)
  {
  }

  /** The thread has passed the waiting loop of its latest episode. */
  predicate Left(pc: Pc) {
    pc.Idle? || pc.WantLock? || pc.Entering? || pc.Unlocking? || pc.Reading?
  }

  /** No thread leaves an episode before every thread has entered it. */
  lemma NobodyLeavesEarly(s: State, cs: seq<(int, Choice)>, t: int, u: int)
    requires Start(s) && Schedule(|s.pc|, cs) && 0 <= t < |s.pc| && 0 <= u < |s.pc|
    requires Left(Exec(s, cs).pc[t])
    ensures Exec(s, cs).entered[t] <= Exec(s, cs).entered[u]
  {
    RunInv(s, cs);
    var e := Exec(s, cs);
    assert ThreadOk(e.pc[t], e.entered[t], e.returned[t], |e.done|);
  }

  /** Values combined in their order. */
  function FoldValues(op: Op, xs: seq<int>): int {
    if |xs| == 0 then 0
    else if |xs| == 1 then xs[0]
    else Apply(op, FoldValues(op, xs[..|xs| - 1]), xs[|xs| - 1])
  }

  function Values(arrivals: seq<Arrival>): (xs: seq<int>)
    ensures |xs| == |arrivals|
  {
    seq(|arrivals|, i requires 0 <= i < |arrivals| => arrivals[i].arg.val)
  }

  lemma {:induction false} FoldIsValues(op: Op, arrivals: seq<Arrival>)
    requires forall i | 0 <= i < |arrivals| :: arrivals[i].arg.op == op
    ensures Fold(arrivals) == FoldValues(op, Values(arrivals))
  {
    if |arrivals| > 1 {
      var rest := arrivals[..|arrivals| - 1];
      FoldIsValues(op, rest);
      assert Values(arrivals)[..|arrivals| - 1] == Values(rest);
    }
  }

  lemma FoldOneMore(op: Op, xs: seq<int>, x: int)
    ensures FoldValues(op, xs + [x]) == if xs == [] then x else Apply(op, FoldValues(op, xs), x)
  {
    assert (xs + [x])[..|xs|] == xs;
  }

  /** A value may be moved to the end. */
  lemma {:induction false} FoldMove(op: Op, a: seq<int>, y: int, b: seq<int>)
    requires !op.Other?
    ensures FoldValues(op, a + [y] + b) == FoldValues(op, a + b + [y])
  {
    hide FoldValues, Apply;
    if b == [] {
      assert a + [y] + b == a + b + [y];
    } else {
      var b', z := b[..|b| - 1], b[|b| - 1];
      FoldMove(op, a, y, b');
      assert a + [y] + b == (a + [y] + b') + [z] && a + b + [y] == (a + b' + [z]) + [y];
      FoldOneMore(op, a + [y] + b', z);
      FoldOneMore(op, a + b', y);
      FoldOneMore(op, a + b', z);
      FoldOneMore(op, a + b' + [z], y);
      ApplySwap(op, FoldValues(op, a + b'), y, z);
    }
  }

  lemma ApplySwap(op: Op, f: int, y: int, z: int)
    requires !op.Other?
    ensures Apply(op, Apply(op, f, y), z) == Apply(op, Apply(op, f, z), y) && Apply(op, y, z) == Apply(op, z, y)
  {
  }

  /** The order of the values does not matter. */
  lemma {:induction false} FoldAnyOrder(op: Op, xs: seq<int>, ys: seq<int>)
    requires !op.Other? && multiset(xs) == multiset(ys)
    ensures FoldValues(op, xs) == FoldValues(op, ys)
    decreases |ys|
  {
    hide FoldValues, Apply;
    assert |xs| == |multiset(xs)| == |multiset(ys)| == |ys|;
    if ys == [] {
      assert xs == [];
    } else {
      var ys', y := ys[..|ys| - 1], ys[|ys| - 1];
      var i := SamePlace(xs, ys, y);
      var a, b := xs[..i], xs[i + 1..];
      assert xs == a + [y] + b && ys == ys' + [y];
      FoldMove(op, a, y, b);
      TakeOut(a, y, b, ys');
      FoldAnyOrder(op, a + b, ys');
      FoldOneMore(op, a + b, y);
      FoldOneMore(op, ys', y);
      assert |a + b| == |ys'|;
    }
  }

  lemma SamePlace(xs: seq<int>, ys: seq<int>, y: int) returns (i: int)
    requires multiset(xs) == multiset(ys) && y in ys
    ensures 0 <= i < |xs| && xs[i] == y
  {
    assert y in multiset(ys);
    assert y in xs;
    i :| 0 <= i < |xs| && xs[i] == y;
  }

  lemma TakeOut(a: seq<int>, y: int, b: seq<int>, ys: seq<int>)
    requires multiset(a + [y] + b) == multiset(ys + [y])
    ensures multiset(a + b) == multiset(ys)
  {
    assert multiset(a + [y] + b) == multiset(a + b) + multiset{y};
    assert multiset(ys + [y]) == multiset(ys) + multiset{y};
    assert multiset(a + b) == multiset(a + b) + multiset{y} - multiset{y};
    assert multiset(ys) == multiset(ys) + multiset{y} - multiset{y};
  }

  /** The values that the threads give to their `k`-th calls, in the order of the threads. */
  ghost function Inputs(given: seq<seq<Arg>>, k: int): (xs: seq<int>)
    ensures |xs| == |given|
  {
    seq(|given|, t requires 0 <= t < |given| => if 0 <= k < |given[t]| then given[t][k].val else 0)
  }

  /** The sum of the values, from the front. */
  ghost function Total(xs: seq<int>): int {
    if xs == [] then 0 else xs[0] + Total(xs[1..])
  }

  /** What a reduction of `xs` has to be. */
  ghost predicate Reduces(op: Op, xs: seq<int>, r: int) {
    match op
    case Min => r in xs && forall i | 0 <= i < |xs| :: r <= xs[i]
    case Max => r in xs && forall i | 0 <= i < |xs| :: xs[i] <= r
    case Sum => r == Total(xs)
    case Other => r in xs
  }

  lemma {:induction false} TotalMore(xs: seq<int>, x: int)
    ensures Total(xs + [x]) == Total(xs) + x
  {
    if xs == [] {
      assert Total([x]) == x + Total([]);
    } else {
      TotalMore(xs[1..], x);
      assert (xs + [x])[1..] == xs[1..] + [x];
    }
  }

  /** The combinations are the least value, the greatest value and the sum. */
  lemma {:induction false} FoldReduces(op: Op, xs: seq<int>)
    requires xs != []
    ensures Reduces(op, xs, FoldValues(op, xs))
  {
    hide Total;
    var n := |xs| - 1;
    if n == 0 {
      TotalMore([], xs[0]);
      NoTotal();
      assert xs == [] + [xs[0]];
    } else {
      FoldReduces(op, xs[..n]);
      TotalMore(xs[..n], xs[n]);
      assert xs == xs[..n] + [xs[n]];
    }
  }

  lemma NoTotal()
    ensures Total([]) == 0
  {
  }

  lemma EpisodeValue(op: Op, given: seq<seq<Arg>>, arrivals: seq<Arrival>, k: int)
    requires Complete(arrivals, |given|) && forall i | 0 <= i < |arrivals| :: Gave(given, arrivals[i], k)
    requires !op.Other? && forall u | 0 <= u < |given| && 0 <= k < |given[u]| :: given[u][k].op == op
    ensures Fold(arrivals) == FoldValues(op, Inputs(given, k))
  {
    var xs, p := Inputs(given, k), Who(arrivals);
    ComposeKeepsElements(xs, p);
    forall i | 0 <= i < |arrivals|
      ensures Values(arrivals)[i] == Compose(xs, p)[i]
    {
      assert Gave(given, arrivals[i], k);
    }
    assert Values(arrivals) == Compose(xs, p);
    FoldIsValues(op, arrivals);
    FoldAnyOrder(op, Values(arrivals), xs);
  }

  /** In every run, when all threads give the same operator to their `k`-th calls, each of these calls returns that
      operator's combination of the values of all threads' `k`-th calls, whatever the other calls ask for. */
  lemma ReduceReturns(s: State, cs: seq<(int, Choice)>, t: int, k: int, op: Op)
    requires Start(s) && Schedule(|s.pc|, cs) && 0 <= t < |s.pc| && 0 <= k < |Exec(s, cs).returned[t]| && !op.Other?
    requires var given := Exec(s, cs).given;
             forall u | 0 <= u < |given| && k < |given[u]| :: given[u][k].op == op
    ensures var e := Exec(s, cs);
            && (forall u | 0 <= u < |s.pc| :: k < |e.given[u]|)
            && e.returned[t][k] == FoldValues(op, Inputs(e.given, k))
            && Reduces(op, Inputs(e.given, k), e.returned[t][k])
  {
    hide Exec, Fold, FoldValues, Start, Reduces;
    RunInv(s, cs);
    var e := Exec(s, cs);
    assert Results(e.returned[t], e.done);
    assert Complete(e.done[k], |s.pc|);
    EpisodeValue(op, e.given, e.done[k], k);
    FoldReduces(op, Inputs(e.given, k));
    AllGave(e, k);
  }

  lemma {:induction false} FoldOther(arrivals: seq<Arrival>)
    requires arrivals != [] && forall i | 0 <= i < |arrivals| :: arrivals[i].arg.op.Other?
    ensures Fold(arrivals) == arrivals[0].arg.val
  {
    if |arrivals| > 1 {
      FoldOther(arrivals[..|arrivals| - 1]);
    }
  }

  /** A request that is no reduction returns the value of one of the calls, to all threads alike. */
  lemma OtherReturns(s: State, cs: seq<(int, Choice)>, t: int, k: int) returns (u: int)
    requires Start(s) && Schedule(|s.pc|, cs) && 0 <= t < |s.pc| && 0 <= k < |Exec(s, cs).returned[t]|
    requires var given := Exec(s, cs).given;
             forall u | 0 <= u < |given| && k < |given[u]| :: given[u][k].op.Other?
    ensures var e := Exec(s, cs);
            0 <= u < |s.pc| && k < |e.given[u]| && e.returned[t][k] == e.given[u][k].val
  {
    hide Exec, Fold, Start;
    RunInv(s, cs);
    var e := Exec(s, cs);
    assert Results(e.returned[t], e.done);
    var arrivals := e.done[k];
    assert Complete(arrivals, |s.pc|);
    forall i | 0 <= i < |arrivals|
      ensures arrivals[i].arg.op.Other?
    {
      assert Gave(e.given, arrivals[i], k);
    }
    FoldOther(arrivals);
    u := arrivals[0].who;
    assert Gave(e.given, arrivals[0], k);
  }

  /** What the calls of thread `t` bring: the arguments with which the schedule calls it while it is outside. */
  ghost function CallsOf(s: State, cs: seq<(int, Choice)>, t: int): seq<Arg>
    requires Start(s) && Schedule(|s.pc|, cs) && 0 <= t < |s.pc|
  {
    if cs == [] then []
    else
      var before, now := cs[..|cs| - 1], cs[|cs| - 1];
      CallsOf(s, before, t) + if now.0 == t && now.1.Call? && Exec(s, before).pc[t].Idle? then [now.1.arg] else []
  }

  /** The calls are those of the schedule, and all of them have returned but the one that a thread is in. */
  lemma {:induction false} CallsReturn(s: State, cs: seq<(int, Choice)>, t: int)
    requires Start(s) && Schedule(|s.pc|, cs) && 0 <= t < |s.pc|
    ensures var e := Exec(s, cs);
            && e.given[t] == CallsOf(s, cs, t)
            && |e.returned[t]| == |CallsOf(s, cs, t)| - if e.pc[t].Idle? then 0 else 1
  {
    GivenAre(s, cs, t);
    RunInv(s, cs);
    var e := Exec(s, cs);
    assert ThreadOk(e.pc[t], e.entered[t], e.returned[t], |e.done|) && Waiting(e.pc[t], e.given[t], e.entered[t]);
  }

  lemma {:induction false} GivenAre(s: State, cs: seq<(int, Choice)>, t: int)
    requires Start(s) && Schedule(|s.pc|, cs) && 0 <= t < |s.pc|
    ensures Exec(s, cs).given[t] == CallsOf(s, cs, t)
  {
    if cs != [] {
      var before, now := cs[..|cs| - 1], cs[|cs| - 1];
      GivenAre(s, before, t);
      StepGives(Exec(s, before), now.0, now.1, t);
    }
  }

  lemma StepGives(s: State, u: int, c: Choice, t: int)
    requires Shape(s) && 0 <= u < |s.pc| && 0 <= t < |s.pc|
    ensures Step(s, u, c).given[t] == s.given[t] + if u == t && c.Call? && s.pc[t].Idle? then [c.arg] else []
  {
  }

  lemma AllGave(s: State, k: int)
    requires Inv(s) && 0 <= k < |s.done|
    ensures forall u | 0 <= u < |s.pc| :: k < |s.given[u]|
  {
    forall u | 0 <= u < |s.pc|
      ensures k < |s.given[u]|
    {
      assert Waiting(s.pc[u], s.given[u], s.entered[u]);
    }
  }

  /** Even when the operators differ within an episode, all threads return the same value from it, and it combines one
      argument of every thread. */
  lemma ReduceAgrees(s: State, cs: seq<(int, Choice)>, t: int, u: int, k: int)
    requires Start(s) && Schedule(|s.pc|, cs) && 0 <= t < |s.pc| && 0 <= u < |s.pc|
    requires 0 <= k < |Exec(s, cs).returned[t]| && k < |Exec(s, cs).returned[u]|
    ensures var e := Exec(s, cs);
            && e.returned[t][k] == e.returned[u][k]
            && exists arrivals :: && e.returned[t][k] == Fold(arrivals) && Complete(arrivals, |s.pc|)
                                  && forall i | 0 <= i < |arrivals| :: Gave(e.given, arrivals[i], k)
  {
    hide Exec, Fold, Start, Complete;
    RunInv(s, cs);
    var e := Exec(s, cs);
    assert Results(e.returned[t], e.done) && Results(e.returned[u], e.done);
    var arrivals := e.done[k];
    assert Complete(arrivals, |s.pc|);
  }

  /** A thread that is asleep waits for an episode that is still open, so the threads are never all asleep. */
  lemma NotAllAsleep(s: State, cs: seq<(int, Choice)>)
    requires Start(s) && Schedule(|s.pc|, cs)
    ensures !(forall t | 0 <= t < |s.pc| :: Exec(s, cs).pc[t].Asleep?)
  {
    RunInv(s, cs);
    var e := Exec(s, cs);
    if forall t | 0 <= t < |s.pc| :: e.pc[t].Asleep? {
      AllInside(e.arrived, e.entered, |e.done|);
    }
  }

  lemma AllInside(arrived: seq<Arrival>, entered: seq<int>, e: int)
    requires Arriving(arrived, entered, e)
    ensures exists t :: 0 <= t < |entered| && entered[t] == e
  {
    var t := Missing(Who(arrived), |entered|);
    assert entered[t] == e;
  }

  /** Fewer than `n` entries leave out one of `n` numbers. */
  lemma {:induction false} Missing(p: seq<int>, n: int) returns (t: int)
    requires |p| < n
    ensures 0 <= t < n && t !in p
  {
    if n - 1 in p {
      var i :| 0 <= i < |p| && p[i] == n - 1;
      var q := p[..i] + p[i + 1..];
      t := Missing(q, n - 1);
      assert p == p[..i] + [n - 1] + p[i + 1..];
    } else {
      t := n - 1;
    }
  }

  /** Whenever some thread is awake inside a call, some thread inside a call can move. */
  lemma NeverStuck(s: State, t: int) returns (u: int)
    requires Inv(s) && 0 <= t < |s.pc| && !s.pc[t].Idle? && !s.pc[t].Asleep?
    ensures 0 <= u < |s.pc| && !s.pc[u].Idle? && Step(s, u, Go) != s
  {
    hide Arriving, Complete, Sums, Results, Recorded;
    u := if s.holder == -1 || s.pc[t].Reading? then t else s.holder;
    assert Step(s, u, Go).pc[u] != s.pc[u];
  }
}
