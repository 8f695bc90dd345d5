/** The bounded buffer. */
module BoundedBuffer {
  // A mutex and two condition variables guard it, for any number of producers and consumers.

  import opened Mutex

  datatype Role = Producer(item: int) | Consumer

  /** Where a thread stands inside a call: before the lock, testing the loop condition, waiting, woken but without the
      lock yet, acting on the buffer, about to signal, about to unlock. */
  datatype Pc = Idle | WantLock(role: Role) | Testing(role: Role) | Asleep(role: Role) | Woken(role: Role)
              | Acting(role: Role) | Signalling(role: Role) | Unlocking(role: Role)

  /** The buffer, the holder of the mutex (or -1), the threads, and all items put and got so far. */
  datatype State = State(max: int, buf: seq<int>, head: int, rear: int, holder: int, pc: seq<Pc>, put: seq<int>,
      got: seq<int>)

  /** What the scheduler and the library may choose: a new call, a wake-up without a signal, or which threads a signal
      wakes. */
  datatype Choice = Go | Call(role: Role) | Spurious | Wake(who: set<int>)

  function Next(i: int, max: int): (r: int)
    requires max >= 1
  {
    (i + 1) % max
  }

  predicate AsleepAs(pc: Pc, producer: bool) {
    pc.Asleep? && pc.role.Producer? == producer
  }

  /** A signal wakes at least one waiting thread of its kind, if there is any. */
  predicate SignalMay(pc: seq<Pc>, producer: bool, who: set<int>) {
    (exists i :: 0 <= i < |pc| && AsleepAs(pc[i], producer)) ==>
      exists i :: 0 <= i < |pc| && i in who && AsleepAs(pc[i], producer)
  }

  function Woke(pc: seq<Pc>, producer: bool, who: set<int>): (r: seq<Pc>)
    ensures |r| == |pc|
  {
    seq(|pc|, i requires 0 <= i < |pc| => if i in who && AsleepAs(pc[i], producer) then Woken(pc[i].role) else pc[i])
  }

  ghost predicate Shape(s: State) {
    s.max >= 1 && |s.buf| == s.max && 0 <= s.head < s.max && 0 <= s.rear < s.max
  }

  /** One step of thread `t`. */
  function Step(s: State, t: int, c: Choice): State
    requires Shape(s) && 0 <= t < |s.pc|
  {
    match s.pc[t]
    case Idle => if c.Call? then s.(pc := s.pc[t := WantLock(c.role)]) else s
    case WantLock(role) => if s.holder == -1 then s.(holder := t, pc := s.pc[t := Testing(role)]) else s
    case Woken(role) => if s.holder == -1 then s.(holder := t, pc := s.pc[t := Testing(role)]) else s
    case Testing(role) =>
      if (if role.Producer? then Next(s.rear, s.max) == s.head else s.head == s.rear)
      then s.(holder := -1, pc := s.pc[t := Asleep(role)])
      else s.(pc := s.pc[t := Acting(role)])
    case Asleep(role) => if c.Spurious? then s.(pc := s.pc[t := Woken(role)]) else s
    case Acting(role) =>
      if role.Producer? then
        s.(buf := s.buf[s.rear := role.item], rear := Next(s.rear, s.max), put := s.put + [role.item],
            pc := s.pc[t := Signalling(role)])
      else
        s.(got := s.got + [s.buf[s.head]], head := Next(s.head, s.max), pc := s.pc[t := Signalling(role)])
    case Signalling(role) =>
      if c.Wake? && SignalMay(s.pc, !role.Producer?, c.who)
      then s.(pc := Woke(s.pc, !role.Producer?, c.who)[t := Unlocking(role)])
      else s
    case Unlocking(role) => s.(holder := -1, pc := s.pc[t := Idle])
  }

  // ---------------------------------------------------------------- the ring

  /** The items in the buffer, oldest first. */
  function Contents(buf: seq<int>, head: int, rear: int): (r: seq<int>)
    requires 0 <= head < |buf| && 0 <= rear < |buf|
  {
    if head <= rear then buf[head..rear] else buf[head..] + buf[..rear]
  }

  lemma NextIs(i: int, max: int)
    requires 0 <= i < max
    ensures Next(i, max) == if i + 1 < max then i + 1 else 0
  {
  }

  lemma FullOrEmpty(buf: seq<int>, head: int, rear: int)
    requires 0 <= head < |buf| && 0 <= rear < |buf|
    ensures head == rear <==> Contents(buf, head, rear) == []
    ensures Next(rear, |buf|) == head <==> |Contents(buf, head, rear)| == |buf| - 1
    ensures |Contents(buf, head, rear)| <= |buf| - 1
  {
    NextIs(rear, |buf|);
  }

  lemma RingPut(buf: seq<int>, head: int, rear: int, item: int)
    requires 0 <= head < |buf| && 0 <= rear < |buf| && Next(rear, |buf|) != head
    ensures 0 <= Next(rear, |buf|) < |buf|
    ensures Contents(buf[rear := item], head, Next(rear, |buf|)) == Contents(buf, head, rear) + [item]
  {
    NextIs(rear, |buf|);
    var buf' := buf[rear := item];
    if head <= rear && rear + 1 < |buf| {
      assert buf'[head..rear + 1] == buf[head..rear] + [item];
    } else if head <= rear {
      assert buf'[head..] == buf[head..rear] + [item];
    } else {
      assert buf'[..rear + 1] == buf[..rear] + [item];
    }
  }

  lemma RingGet(buf: seq<int>, head: int, rear: int)
    requires 0 <= head < |buf| && 0 <= rear < |buf| && head != rear
    ensures 0 <= Next(head, |buf|) < |buf|
    ensures Contents(buf, head, rear) == [buf[head]] + Contents(buf, Next(head, |buf|), rear)
  {
    NextIs(head, |buf|);
  }

  // ---------------------------------------------------------------- counting threads

  function Sum(ws: seq<int>): int {
    if ws == [] then 0 else Sum(ws[..|ws| - 1]) + ws[|ws| - 1]
  }

  lemma {:induction false} SumUpdate(ws: seq<int>, i: int, v: int)
    requires 0 <= i < |ws|
    ensures Sum(ws[i := v]) == Sum(ws) - ws[i] + v
  {
    var n := |ws| - 1;
    if i == n {
      assert ws[i := v][..n] == ws[..n];
    } else {
      SumUpdate(ws[..n], i, v);
      assert ws[i := v][..n] == ws[..n][i := v];
    }
  }

  lemma {:induction false} SumLe(ws: seq<int>, vs: seq<int>)
    requires |ws| == |vs| && forall i | 0 <= i < |ws| :: ws[i] <= vs[i]
    ensures Sum(ws) <= Sum(vs)
  {
    if ws != [] {
      var n := |ws| - 1;
      SumLe(ws[..n], vs[..n]);
    }
  }

  lemma {:induction false} SumZero(ws: seq<int>)
    requires forall i | 0 <= i < |ws| :: ws[i] == 0
    ensures Sum(ws) == 0
  {
    if ws != [] {
      SumZero(ws[..|ws| - 1]);
    }
  }

  /** Threads that will look at the buffer as consumers (or producers) before any more can be asleep with reason to
      wake: those awake inside the waiting loop or past it, and those about to signal that kind. */
  function Helper(pc: Pc, producer: bool): int {
    if (pc.Woken? || pc.Testing? || pc.Acting?) && pc.role.Producer? == producer then 1
    else if pc.Signalling? && pc.role.Producer? != producer then 1
    else 0
  }

  function Helpers(pc: seq<Pc>, producer: bool): (ws: seq<int>)
    ensures |ws| == |pc|
  {
    seq(|pc|, i requires 0 <= i < |pc| => Helper(pc[i], producer))
  }

  ghost predicate SomeAsleep(pc: seq<Pc>, producer: bool) {
    exists i :: 0 <= i < |pc| && AsleepAs(pc[i], producer)
  }

  // ---------------------------------------------------------------- the invariant

  predicate Holds(pc: Pc) {
    pc.Testing? || pc.Acting? || pc.Signalling? || pc.Unlocking?
  }

  ghost predicate Fifo(put: seq<int>, got: seq<int>, items: seq<int>) {
    put == got + items
  }

  /** Room for a producer, items for a consumer. */
  function Chances(max: int, n: int, producer: bool): int {
    if producer then max - 1 - n else n
  }

  /** While threads of one kind sleep, there are enough helpers for every chance they have. */
  ghost predicate NoLostWakeup(pc: seq<Pc>, max: int, n: int, producer: bool) {
    SomeAsleep(pc, producer) ==> Chances(max, n, producer) <= Sum(Helpers(pc, producer))
  }

  /** A thread past the waiting loop finds what it waited for. */
  ghost predicate Ready(pc: seq<Pc>, max: int, n: int) {
    forall i | 0 <= i < |pc| && pc[i].Acting? :: Chances(max, n, pc[i].role.Producer?) >= 1
  }

  ghost function Count(s: State): int
    requires Shape(s)
  {
    |Contents(s.buf, s.head, s.rear)|
  }

  ghost predicate Inv(s: State) {
    && Shape(s) && Exclusive(s.pc, Holds, s.holder) && Fifo(s.put, s.got, Contents(s.buf, s.head, s.rear))
    && Ready(s.pc, s.max, Count(s))
    && NoLostWakeup(s.pc, s.max, Count(s), true) && NoLostWakeup(s.pc, s.max, Count(s), false)
  }

  // ---------------------------------------------------------------- one step

  lemma HelpersUpdate(pc: seq<Pc>, t: int, pc': Pc, producer: bool)
    requires 0 <= t < |pc|
    ensures Sum(Helpers(pc[t := pc'], producer)) ==
        Sum(Helpers(pc, producer)) - Helper(pc[t], producer) + Helper(pc', producer)
  {
    SumUpdate(Helpers(pc, producer), t, Helper(pc', producer));
    assert Helpers(pc[t := pc'], producer) == Helpers(pc, producer)[t := Helper(pc', producer)];
  }

  lemma HelpersNotNegative(pc: seq<Pc>, producer: bool)
    ensures Sum(Helpers(pc, producer)) >= 0
  {
    var zeros := seq(|pc|, _ => 0);
    SumZero(zeros);
    SumLe(zeros, Helpers(pc, producer));
  }

  /** A step that puts nobody to sleep and loses no helper. */
  lemma Keeps(pc: seq<Pc>, t: int, pc': Pc, max: int, n: int, n': int, producer: bool)
    requires 0 <= t < |pc| && NoLostWakeup(pc, max, n, producer) && !AsleepAs(pc', producer)
    requires Chances(max, n', producer) - Chances(max, n, producer) <= Helper(pc', producer) - Helper(pc[t], producer)
    ensures NoLostWakeup(pc[t := pc'], max, n', producer)
  {
    HelpersUpdate(pc, t, pc', producer);
    if SomeAsleep(pc[t := pc'], producer) {
      var i :| 0 <= i < |pc| && AsleepAs(pc[t := pc'][i], producer);
      assert AsleepAs(pc[i], producer);
    }
  }

  /** Going to sleep when there is no chance. */
  lemma FallsAsleep(pc: seq<Pc>, max: int, n: int, producer: bool)
    requires Chances(max, n, producer) <= 0
    ensures NoLostWakeup(pc, max, n, producer)
  {
    HelpersNotNegative(pc, producer);
  }

  /** A signal turns its sender's help into that of a woken thread. */
  lemma Signals(pc: seq<Pc>, t: int, role: Role, who: set<int>, max: int, n: int)
    requires 0 <= t < |pc| && pc[t] == Signalling(role) && SignalMay(pc, !role.Producer?, who)
    requires NoLostWakeup(pc, max, n, true) && NoLostWakeup(pc, max, n, false)
    ensures var pc' := Woke(pc, !role.Producer?, who)[t := Unlocking(role)];
            NoLostWakeup(pc', max, n, true) && NoLostWakeup(pc', max, n, false)
  {
    hide Sum;
    var kind := !role.Producer?;
    var woke := Woke(pc, kind, who);
    var pc' := woke[t := Unlocking(role)];
    HelpersUpdate(woke, t, Unlocking(role), kind);
    HelpersUpdate(woke, t, Unlocking(role), !kind);
    SignalsOther(pc, woke, kind, who);
    if SomeAsleep(pc', kind) {
      var i :| 0 <= i < |pc| && AsleepAs(pc'[i], kind);
      assert AsleepAs(pc[i], kind);
      var j :| 0 <= j < |pc| && j in who && AsleepAs(pc[j], kind);
      SignalsKind(pc, woke, kind, who, j);
    }
    if SomeAsleep(pc', !kind) {
      var i :| 0 <= i < |pc| && AsleepAs(pc'[i], !kind);
      assert AsleepAs(pc[i], !kind);
    }
  }

  lemma SignalsKind(pc: seq<Pc>, woke: seq<Pc>, kind: bool, who: set<int>, j: int)
    requires woke == Woke(pc, kind, who) && 0 <= j < |pc| && j in who && AsleepAs(pc[j], kind)
    ensures Sum(Helpers(woke, kind)) >= Sum(Helpers(pc, kind)) + 1
  {
    var before := Helpers(pc, kind);
    SumUpdate(before, j, 1);
    SumLe(before[j := 1], Helpers(woke, kind));
  }

  lemma SignalsOther(pc: seq<Pc>, woke: seq<Pc>, kind: bool, who: set<int>)
    requires woke == Woke(pc, kind, who)
    ensures Sum(Helpers(woke, !kind)) == Sum(Helpers(pc, !kind))
  {
    assert Helpers(woke, !kind) == Helpers(pc, !kind);
  }

  lemma QuietStep(s: State, t: int, pc': Pc, holder': int)
    requires Inv(s) && 0 <= t < |s.pc| && !pc'.Asleep?
    requires if Holds(pc') then holder' == t && (s.holder == t || s.holder == -1)
             else holder' == if s.holder == t then -1 else s.holder
    requires Helper(s.pc[t], true) <= Helper(pc', true) && Helper(s.pc[t], false) <= Helper(pc', false)
    requires pc'.Acting? ==> Chances(s.max, Count(s), pc'.role.Producer?) >= 1
    ensures Inv(s.(pc := s.pc[t := pc'], holder := holder'))
  {
    hide Sum, Contents;
    ExclusiveStep(s.pc, Holds, s.holder, t, pc', holder');
    Keeps(s.pc, t, pc', s.max, Count(s), Count(s), true);
    Keeps(s.pc, t, pc', s.max, Count(s), Count(s), false);
  }

  lemma TestStep(s: State, t: int, c: Choice)
    requires Inv(s) && 0 <= t < |s.pc| && s.pc[t].Testing?
    ensures Inv(Step(s, t, c))
  {
    hide Sum, Contents;
    var role := s.pc[t].role;
    FullOrEmpty(s.buf, s.head, s.rear);
    if (if role.Producer? then Next(s.rear, s.max) == s.head else s.head == s.rear) {
      ExclusiveStep(s.pc, Holds, s.holder, t, Asleep(role), -1);
      FallsAsleep(s.pc[t := Asleep(role)], s.max, Count(s), role.Producer?);
      Keeps(s.pc, t, Asleep(role), s.max, Count(s), Count(s), !role.Producer?);
    } else {
      QuietStep(s, t, Acting(role), s.holder);
    }
  }

  lemma ActStep(s: State, t: int, c: Choice)
    requires Inv(s) && 0 <= t < |s.pc| && s.pc[t].Acting?
    ensures Inv(Step(s, t, c))
  {
    hide Sum, Contents;
    var role, n := s.pc[t].role, Count(s);
    var s' := Step(s, t, c);
    FullOrEmpty(s.buf, s.head, s.rear);
    ExclusiveStep(s.pc, Holds, s.holder, t, Signalling(role), s.holder);
    if role.Producer? {
      RingPut(s.buf, s.head, s.rear, role.item);
      assert s.got + (Contents(s.buf, s.head, s.rear) + [role.item]) == s.put + [role.item];
      Keeps(s.pc, t, Signalling(role), s.max, n, n + 1, true);
      Keeps(s.pc, t, Signalling(role), s.max, n, n + 1, false);
    } else {
      RingGet(s.buf, s.head, s.rear);
      assert s.got + [s.buf[s.head]] + Contents(s'.buf, s'.head, s'.rear) == s.put;
      Keeps(s.pc, t, Signalling(role), s.max, n, n - 1, true);
      Keeps(s.pc, t, Signalling(role), s.max, n, n - 1, false);
    }
  }

  lemma SignalStep(s: State, t: int, c: Choice)
    requires Inv(s) && 0 <= t < |s.pc| && s.pc[t].Signalling?
    ensures Inv(Step(s, t, c))
  {
    hide Sum, Contents;
    var role := s.pc[t].role;
    if c.Wake? && SignalMay(s.pc, !role.Producer?, c.who) {
      Signals(s.pc, t, role, c.who, s.max, Count(s));
      var pc' := Woke(s.pc, !role.Producer?, c.who)[t := Unlocking(role)];
      assert forall i | 0 <= i < |s.pc| && i != t :: Holds(pc'[i]) == Holds(s.pc[i]);
    }
  }

  /** Every step of every thread, with every choice, keeps the invariant. */
  lemma StepKeepsInv(s: State, t: int, c: Choice)
    requires Inv(s) && 0 <= t < |s.pc|
    ensures Inv(Step(s, t, c))
  {
    hide Sum, Contents, NoLostWakeup, Fifo;
    match s.pc[t] {
      case Idle => if c.Call? { QuietStep(s, t, WantLock(c.role), s.holder); }
      case WantLock(role) => if s.holder == -1 { QuietStep(s, t, Testing(role), t); }
      case Woken(role) => if s.holder == -1 { QuietStep(s, t, Testing(role), t); }
      case Testing(_) => TestStep(s, t, c);
      case Asleep(role) => if c.Spurious? { QuietStep(s, t, Woken(role), s.holder); }
      case Acting(_) => ActStep(s, t, c);
      case Signalling(_) => SignalStep(s, t, c);
      case Unlocking(_) => QuietStep(s, t, Idle, -1);
    }
  }

  // ---------------------------------------------------------------- runs

  ghost predicate Start(s: State) {
    && Shape(s) && s.head == 0 && s.rear == 0 && s.holder == -1 && s.put == [] && s.got == []
    && forall i | 0 <= i < |s.pc| :: s.pc[i].Idle?
  }

  ghost predicate Schedule(n: int, cs: seq<(int, Choice)>) {
    forall i | 0 <= i < |cs| :: 0 <= cs[i].0 < n
  }

  ghost function Exec(s: State, cs: seq<(int, Choice)>): (s': State)
    requires Start(s) && Schedule(|s.pc|, cs)
    ensures Shape(s') && |s'.pc| == |s.pc| && s'.max == s.max
  {
    if cs == [] then s
    else
      var e := Exec(s, cs[..|cs| - 1]);
      var (t, c) := cs[|cs| - 1];
      StepShape(e, t, c);
      Step(e, t, c)
  }

  lemma StepShape(s: State, t: int, c: Choice)
    requires Shape(s) && 0 <= t < |s.pc|
    ensures Shape(Step(s, t, c)) && |Step(s, t, c).pc| == |s.pc| && Step(s, t, c).max == s.max
  {
    NextIs(s.head, s.max);
    NextIs(s.rear, s.max);
  }

  lemma {:induction false} RunInv(s: State, cs: seq<(int, Choice)>)
    requires Start(s) && Schedule(|s.pc|, cs)
    ensures Inv(Exec(s, cs))
  {
    hide Inv, Step;
    if cs == [] {
      StartInv(s);
    } else {
      RunInv(s, cs[..|cs| - 1]);
      StepKeepsInv(Exec(s, cs[..|cs| - 1]), cs[|cs| - 1].0, cs[|cs| - 1].1);
    }
  }

  lemma StartInv(s: State)
    requires Start(s)
    ensures Inv(s)
  {
    assert s.put == s.got + Contents(s.buf, s.head, s.rear);
  }

  /** In every run items leave in the order in which they came. */
  lemma RunIsFifo(s: State, cs: seq<(int, Choice)>)
    requires Start(s) && Schedule(|s.pc|, cs)
    ensures var e := Exec(s, cs);
            e.put == e.got + Contents(e.buf, e.head, e.rear) && |Contents(e.buf, e.head, e.rear)| <= e.max - 1
  {
    RunInv(s, cs);
    var e := Exec(s, cs);
    FullOrEmpty(e.buf, e.head, e.rear);
  }

  /** Woken threads of one kind. */
  function WokenOnly(pc: seq<Pc>, producer: bool): (ws: seq<int>)
    ensures |ws| == |pc|
  {
    seq(|pc|, i requires 0 <= i < |pc| => if pc[i].Woken? && pc[i].role.Producer? == producer then 1 else 0)
  }

  /** No wake-up is lost: whenever the mutex is free and a consumer sleeps, there are no more items than consumers
      already woken; whenever a producer sleeps, no more free places than producers already woken. */
  lemma NoWakeupLost(s: State, cs: seq<(int, Choice)>)
    requires Start(s) && Schedule(|s.pc|, cs) && Exec(s, cs).holder == -1
    ensures var e := Exec(s, cs);
            && (SomeAsleep(e.pc, false) ==> Count(e) <= Sum(WokenOnly(e.pc, false)))
            && (SomeAsleep(e.pc, true) ==> e.max - 1 - Count(e) <= Sum(WokenOnly(e.pc, true)))
  {
    hide Sum, Contents;
    RunInv(s, cs);
    var e := Exec(s, cs);
    assert Helpers(e.pc, false) == WokenOnly(e.pc, false);
    assert Helpers(e.pc, true) == WokenOnly(e.pc, true);
  }

  /** Every thread inside a call is asleep. */
  ghost predicate AllAsleep(pc: seq<Pc>) {
    forall i | 0 <= i < |pc| :: pc[i].Idle? || pc[i].Asleep?
  }

  /** With room for an item, producers and consumers are never all asleep: if all callers sleep, then they all wait for
      the same thing, and it is not there. */
  lemma NotAllAsleep(s: State, cs: seq<(int, Choice)>)
    requires Start(s) && Schedule(|s.pc|, cs) && AllAsleep(Exec(s, cs).pc)
    ensures var e := Exec(s, cs);
            && (SomeAsleep(e.pc, false) ==> Count(e) == 0)
            && (SomeAsleep(e.pc, true) ==> Count(e) == e.max - 1)
            && (s.max >= 2 ==> !(SomeAsleep(e.pc, false) && SomeAsleep(e.pc, true)))
  {
    hide Sum, Contents;
    RunInv(s, cs);
    var e := Exec(s, cs);
    FullOrEmpty(e.buf, e.head, e.rear);
    SumZero(Helpers(e.pc, false));
    SumZero(Helpers(e.pc, true));
  }

  /** A thread that is awake inside a call can be made to move. */
  lemma NeverStuck(s: State, t: int) returns (u: int, c: Choice)
    requires Inv(s) && 0 <= t < |s.pc| && !s.pc[t].Idle? && !s.pc[t].Asleep?
    ensures 0 <= u < |s.pc| && !s.pc[u].Idle? && !s.pc[u].Asleep? && Step(s, u, c) != s
  {
    hide Sum, Contents;
    u, c := if s.holder == -1 then t else s.holder, Go;
    if s.pc[u].Signalling? {
      c := Wake({});
      var kind := !s.pc[u].role.Producer?;
      if SomeAsleep(s.pc, kind) {
        var j :| 0 <= j < |s.pc| && AsleepAs(s.pc[j], kind);
        c := Wake({j});
      }
    }
    assert Step(s, u, c).pc[u] != s.pc[u];
  }

  // ---------------------------------------------------------------- one place

  /** With `max` 1 the buffer never holds anything, and a producer and a consumer both sleep for good. */
  lemma OnePlaceSleeps(s: State, item: int)
    requires Start(s) && s.max == 1 && |s.pc| == 2
    ensures var cs := [(0, Call(Producer(item))), (0, Go), (0, Go), (1, Call(Consumer)), (1, Go), (1, Go)];
            Schedule(2, cs) && Exec(s, cs).pc == [Asleep(Producer(item)), Asleep(Consumer)]
  {
    hide Exec, Schedule, Step;
    var p, q := Producer(item), Consumer;
    var cs := [(0, Call(p)), (0, Go), (0, Go), (1, Call(q)), (1, Go), (1, Go)];
    NoneYet(s);
    assert cs[..1] == [] + [cs[0]] && cs[..2] == cs[..1] + [cs[1]] && cs[..3] == cs[..2] + [cs[2]];
    assert cs[..4] == cs[..3] + [cs[3]] && cs[..5] == cs[..4] + [cs[4]] && cs == cs[..5] + [cs[5]];
    ExecMore(s, [], cs[0]);
    ExecMore(s, cs[..1], cs[1]);
    ExecMore(s, cs[..2], cs[2]);
    ExecMore(s, cs[..3], cs[3]);
    ExecMore(s, cs[..4], cs[4]);
    ExecMore(s, cs[..5], cs[5]);
    OnePlaceRun(s, p, q);
  }

  lemma NoneYet(s: State)
    requires Start(s)
    ensures Schedule(|s.pc|, []) && Exec(s, []) == s
  {
  }

  lemma OnePlaceRun(s: State, p: Role, q: Role)
    requires Start(s) && s.max == 1 && |s.pc| == 2
    ensures var e3 := s.(pc := [Asleep(p), Idle]);
            && Step(s, 0, Call(p)) == s.(pc := [WantLock(p), Idle])
            && Step(s.(pc := [WantLock(p), Idle]), 0, Go) == s.(pc := [Testing(p), Idle], holder := 0)
            && Step(s.(pc := [Testing(p), Idle], holder := 0), 0, Go) == e3
            && Step(e3, 1, Call(q)) == s.(pc := [Asleep(p), WantLock(q)])
            && Step(s.(pc := [Asleep(p), WantLock(q)]), 1, Go) == s.(pc := [Asleep(p), Testing(q)], holder := 1)
            && Step(s.(pc := [Asleep(p), Testing(q)], holder := 1), 1, Go) == s.(pc := [Asleep(p), Asleep(q)])
  {
    NextIs(0, 1);
    assert s.pc == [Idle, Idle];
  }

  /** With `max` 1 no call ever gets past its waiting loop, in any run. */
  lemma {:induction false} OnePlaceUseless(s: State, cs: seq<(int, Choice)>)
    requires Start(s) && s.max == 1 && Schedule(|s.pc|, cs)
    ensures Exec(s, cs).put == [] && Exec(s, cs).got == []
  {
    hide Sum, Contents, Exclusive, NoLostWakeup, Fifo;
    if cs == [] {
      NoneYet(s);
    } else {
      var before, last := cs[..|cs| - 1], cs[|cs| - 1];
      OnePlaceUseless(s, before);
      RunInv(s, before);
      var e := Exec(s, before);
      FullOrEmpty(e.buf, e.head, e.rear);
      ExecMore(s, before, last);
      assert cs == before + [last];
      assert !e.pc[last.0].Acting?;
    }
  }

  lemma ExecMore(s: State, cs: seq<(int, Choice)>, c: (int, Choice))
    requires Start(s) && Schedule(|s.pc|, cs) && 0 <= c.0 < |s.pc|
    ensures Schedule(|s.pc|, cs + [c]) && Exec(s, cs + [c]) == Step(Exec(s, cs), c.0, c.1)
  {
    assert (cs + [c])[..|cs|] == cs;
  }
}
