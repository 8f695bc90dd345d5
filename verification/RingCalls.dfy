/** Calls of the ring. */
module RingCalls {
  // Every run without an overrun looks from outside like a run of an atomic queue: calls start and return as the
  // schedule and the idle states show, each takes effect at one moment in between, and a dequeue returns what the queue
  // gave it then.

  import opened Arith
  import opened BufRing

  // ---------------------------------------------------------------- the atomic queue with calls

  /** What a thread's call has come to.  It has not taken effect, and perhaps has seen the queue in a state in which it
      may be refused; or it has, and a dequeue will return `value`. */
  datatype Call<T> = NoCall | Putting(x: T, refusable: bool) | Put | Getting(refusable: bool) | Got(value: T)

  /** The queue, how many calls have put an element or taken one without having returned yet, and the calls. */
  datatype Spec<T> = Spec(queue: seq<T>, placing: nat, leaving: nat, calls: seq<Call<T>>)

  /** No place is free as long as dequeuers that have taken an element occupy its place. */
  ghost predicate NoRoom<T>(m: Spec<T>, size: nat) {
    |m.queue| + m.leaving == size
  }

  /** No element is ready as long as its enqueuer has not returned. */
  ghost predicate NothingReady<T>(m: Spec<T>) {
    |m.queue| <= m.placing
  }

  /** The call of thread `i` takes effect, or looks at the queue, or nothing happens. */
  ghost predicate Acts<T>(m: Spec<T>, i: nat, size: nat, m': Spec<T>)
    requires i < |m.calls|
  {
    match m.calls[i]
    case Putting(x, _) =>
      || (exists seen :: (seen ==> m.calls[i].refusable || NoRoom(m, size))
                         && m' == m.(calls := m.calls[i := Putting(x, seen)]))
      || (!NoRoom(m, size)
          && m' == m.(queue := m.queue + [x], placing := m.placing + 1, calls := m.calls[i := Put]))
    case Getting(_) =>
      || (exists seen :: (seen ==> m.calls[i].refusable || NothingReady(m))
                         && m' == m.(calls := m.calls[i := Getting(seen)]))
      || (!NothingReady(m)
          && m' == m.(queue := m.queue[1..], leaving := m.leaving + 1, calls := m.calls[i := Got(m.queue[0])]))
    case _ => m' == m
  }

  /** The call of thread `i` returns.  `published` and `left` are what the step shows of the result: an enqueue advances
      the tail of the producers unless it is refused, and a dequeue returns a value unless it is refused.  If `timely`,
      a call is refused only when it has seen the queue refuse it. */
  ghost predicate Returns<T>(m: Spec<T>, i: nat, timely: bool, published: bool, left: seq<T>, m': Spec<T>)
    requires i < |m.calls|
  {
    match m.calls[i]
    case NoCall => false
    case Putting(_, seen) => (timely ==> seen) && !published && left == [] && m' == m.(calls := m.calls[i := NoCall])
    case Getting(seen) => (timely ==> seen) && !published && left == [] && m' == m.(calls := m.calls[i := NoCall])
    case Put =>
      m.placing > 0 && published && left == [] && m' == m.(placing := m.placing - 1, calls := m.calls[i := NoCall])
    case Got(v) =>
      m.leaving > 0 && !published && left == [v] && m' == m.(leaving := m.leaving - 1, calls := m.calls[i := NoCall])
  }

  ghost function Begun<T>(cmd: Command<T>): Call<T> {
    match cmd
    case Nothing => NoCall
    case Enqueue(x) => Putting(x, false)
    case Dequeue => Getting(false)
  }

  /** A step of the run is a move of the atomic queue, and only the thread that moves starts or ends a call in it. */
  ghost predicate Move<T>(m: Spec<T>, c: Choice<T>, timely: bool, s: State<T>, s': State<T>, m': Spec<T>) {
    && |s.pcs| == |s'.pcs| == |m.calls| == |m'.calls| && s.ring.left <= s'.ring.left && s'.ring.size == s.ring.size
    && var published, left := s'.ring.prodTail != s.ring.prodTail, s'.ring.left[|s.ring.left|..];
       if c.i < |s.pcs| then
         && s'.pcs == s.pcs[c.i := s'.pcs[c.i]]
         && if s.pcs[c.i].Idle? then
              && m.calls[c.i] == NoCall && s'.pcs[c.i].Idle? == c.cmd.Nothing? && !published && left == []
              && m' == m.(calls := m.calls[c.i := Begun(c.cmd)])
            else if s'.pcs[c.i].Idle? then Returns(m, c.i, timely, published, left, m')
            else !published && left == [] && Acts(m, c.i, s.ring.size, m') && m'.calls[c.i] != NoCall
       else s' == s && m' == m
  }

  ghost function Empty<T>(threads: nat): Spec<T> {
    Spec([], 0, 0, seq(threads, i => NoCall))
  }

  /** The run of the atomic queue explains the whole run. */
  ghost predicate Explains<T>(s: State<T>, schedule: seq<Choice<T>>, timely: bool, ms: seq<Spec<T>>)
    requires Shape(s.ring)
  {
    && |ms| == |schedule| + 1 && ms[0] == Empty(|s.pcs|)
    && forall k | 0 <= k < |schedule| ::
         Move(ms[k], schedule[k], timely, At(s, schedule, k), At(s, schedule, k + 1), ms[k + 1])
  }

  /** No thread's second read comes so late that its registers have wrapped around since the first. */
  ghost predicate Timely<T>(r: Ring<T>, pc: Pc<T>) {
    match pc
    case EnqCas(_, _, _, k, c, _) => c - k < WORD - r.size
    case DeqCas(_, _, k, c, _) => c - k < WORD
    case _ => true
  }

  ghost predicate TimelyAt<T>(s: State<T>, c: Choice<T>) {
    c.i < |s.pcs| ==> Timely(s.ring, s.pcs[c.i])
  }

  ghost predicate TimelyRun<T>(s: State<T>, schedule: seq<Choice<T>>)
    requires Shape(s.ring)
  {
    forall k | 0 <= k < |schedule| :: TimelyAt(At(s, schedule, k), schedule[k])
  }

  // ---------------------------------------------------------------- how they correspond

  ghost predicate CallRel<T>(pc: Pc<T>, r: Ring<T>, call: Call<T>)
    requires Counters(r)
  {
    match pc
    case Idle => call == NoCall
    case EnqReadHead(x) => call.Putting? && call.x == x
    case EnqReadTail(x, _, _) => call.Putting? && call.x == x
    case EnqCas(x, _, _, _, _, full) => call.Putting? && call.x == x && (full ==> call.refusable)
    case EnqWrite(_, _, _) => call == Put
    case EnqWait(_, _) => call == Put
    case EnqPublish(_, _) => call == Put
    case DeqReadHead => call.Getting?
    case DeqReadTail(_, _) => call.Getting?
    case DeqCas(_, _, _, _, empty) => call.Getting? && (empty ==> call.refusable)
    case DeqRead(_, k) => k < |r.entered| && call == Got(r.entered[k])
    case DeqWait(_, k, _) => k < |r.entered| && call == Got(r.entered[k])
    case DeqPublish(_, k, _) => k < |r.entered| && call == Got(r.entered[k])
  }

  ghost predicate Rel<T>(s: State<T>, m: Spec<T>) {
    && Shape(s.ring) && Counters(s.ring) && |m.calls| == |s.pcs|
    && m.queue == s.ring.entered[s.ring.ch..] && m.placing == s.ring.ph - s.ring.pt
        && m.leaving == s.ring.ch - s.ring.ct
    && forall i | 0 <= i < |s.pcs| :: CallRel(s.pcs[i], s.ring, m.calls[i])
  }

  lemma InitialRel<T>(size: nat, threads: nat, dflt: T)
    requires size > 0
    ensures Rel(Initial(size, threads, dflt), Empty(threads))
  {
  }

  /** What a step leaves alone: the other threads, and the values of tickets already drawn. */
  lemma StepTouches<T>(s: State<T>, c: Choice<T>)
    requires Inv(s) && c.i < |s.pcs|
    ensures var s' := Step(s, c);
            && s'.pcs == s.pcs[c.i := s'.pcs[c.i]] && |s'.pcs| == |s.pcs| && s'.ring.size == s.ring.size
            && s.ring.entered <= s'.ring.entered && s.ring.left <= s'.ring.left
  {
    hide And, PowerOfTwo, Minus, Next, ThreadInv, Holders;
  }

  lemma OthersKept<T>(s: State<T>, s': State<T>, m: Spec<T>, i: nat, j: nat)
    requires Rel(s, m) && Counters(s'.ring) && s.ring.entered <= s'.ring.entered && |s'.pcs| == |s.pcs|
    requires i < |s.pcs| && s'.pcs == s.pcs[i := s'.pcs[i]] && j < |s.pcs| && j != i
    ensures CallRel(s'.pcs[j], s'.ring, m.calls[j])
  {
    assert CallRel(s.pcs[j], s.ring, m.calls[j]);
  }

  /** What a step does to the counters, the values and the mover. */
  ghost predicate Simulated<T>(s: State<T>, m: Spec<T>, c: Choice<T>, timely: bool, s': State<T>, m': Spec<T>)
    requires c.i < |s.pcs| == |s'.pcs| && |m.calls| == |s.pcs| && s.ring.left <= s'.ring.left && Counters(s'.ring)
  {
    && |m'.calls| == |m.calls| && m'.calls == m.calls[c.i := m'.calls[c.i]]
    && m'.queue == s'.ring.entered[s'.ring.ch..]
    && m'.placing == s'.ring.ph - s'.ring.pt && m'.leaving == s'.ring.ch - s'.ring.ct
    && CallRel(s'.pcs[c.i], s'.ring, m'.calls[c.i])
    && var published, left := s'.ring.prodTail != s.ring.prodTail, s'.ring.left[|s.ring.left|..];
       if s.pcs[c.i].Idle? then
         && m.calls[c.i] == NoCall && s'.pcs[c.i].Idle? == c.cmd.Nothing? && !published && left == []
         && m' == m.(calls := m.calls[c.i := Begun(c.cmd)])
       else if s'.pcs[c.i].Idle? then Returns(m, c.i, timely, published, left, m')
       else !published && left == [] && Acts(m, c.i, s.ring.size, m') && m'.calls[c.i] != NoCall
  }

  lemma StartSimulates<T>(s: State<T>, m: Spec<T>, c: Choice<T>, timely: bool) returns (m': Spec<T>)
    requires Inv(s) && Rel(s, m) && c.i < |s.pcs| && s.pcs[c.i].Idle? && Counters(Step(s, c).ring)
    ensures Simulated(s, m, c, timely, Step(s, c), m')
  {
    hide And, PowerOfTwo, Minus, Next, ThreadInv, Holders;
    assert CallRel(s.pcs[c.i], s.ring, m.calls[c.i]);
    m' := m.(calls := m.calls[c.i := Begun(c.cmd)]);
  }

  lemma ReadSimulates<T>(s: State<T>, m: Spec<T>, c: Choice<T>, timely: bool) returns (m': Spec<T>)
    requires Inv(s) && Rel(s, m) && c.i < |s.pcs| && Counters(Step(s, c).ring)
    requires s.pcs[c.i].EnqReadHead? || s.pcs[c.i].EnqReadTail? || s.pcs[c.i].DeqReadHead? || s.pcs[c.i].DeqReadTail?
    ensures Simulated(s, m, c, timely, Step(s, c), m')
  {
    hide And, PowerOfTwo, Minus, Next, ThreadInv, Holders, Contents;
    var pc, call := s.pcs[c.i], m.calls[c.i];
    assert CallRel(pc, s.ring, call);
    match call {
      case Putting(x, seen) =>
        var now := seen || (pc.EnqReadTail? && s.ring.ph - s.ring.ct == s.ring.size);
        m' := m.(calls := m.calls[c.i := Putting(x, now)]);
      case Getting(seen) =>
        var now := seen || (pc.DeqReadTail? && s.ring.ch == s.ring.pt);
        m' := m.(calls := m.calls[c.i := Getting(now)]);
    }
  }

  lemma EnqCasSimulates<T>(s: State<T>, m: Spec<T>, c: Choice<T>, timely: bool) returns (m': Spec<T>)
    requires Inv(s) && Rel(s, m) && c.i < |s.pcs| && s.pcs[c.i].EnqCas? && Inv(Step(s, c))
    requires timely ==> Timely(s.ring, s.pcs[c.i])
    ensures Counters(Step(s, c).ring) && Simulated(s, m, c, timely, Step(s, c), m')
  {
    hide And, PowerOfTwo, Minus, Holders, Contents;
    var pc, call, r := s.pcs[c.i], m.calls[c.i], s.ring;
    assert CallRel(pc, r, call);
    EnqFails(s, c);
    var s' := Step(s, c);
    if s'.pcs[c.i].Idle? {
      m' := m.(calls := m.calls[c.i := NoCall]);
    } else if s'.pcs[c.i].EnqReadHead? {
      m' := m;
    } else {
      m' := m.(queue := m.queue + [call.x], placing := m.placing + 1, calls := m.calls[c.i := Put]);
      assert s'.ring.entered[s'.ring.ch..] == r.entered[r.ch..] + [call.x];
    }
  }

  lemma EnqFails<T>(s: State<T>, c: Choice<T>)
    requires Inv(s) && c.i < |s.pcs| && s.pcs[c.i].EnqCas?
    ensures Step(s, c) == Step(s, Choice(c.i, Nothing))
    ensures Step(s, c).pcs[c.i].Idle? && Timely(s.ring, s.pcs[c.i]) ==> s.pcs[c.i].full
  {
    hide And, PowerOfTwo, Minus, Holders, Contents;
    EnqFailsTruthfully(s, c.i);
  }

  lemma DeqCasSimulates<T>(s: State<T>, m: Spec<T>, c: Choice<T>, timely: bool) returns (m': Spec<T>)
    requires Inv(s) && Rel(s, m) && c.i < |s.pcs| && s.pcs[c.i].DeqCas? && Inv(Step(s, c))
    requires timely ==> Timely(s.ring, s.pcs[c.i])
    ensures Counters(Step(s, c).ring) && Simulated(s, m, c, timely, Step(s, c), m')
  {
    hide And, PowerOfTwo, Minus, Holders, Contents;
    var pc, call, r := s.pcs[c.i], m.calls[c.i], s.ring;
    assert CallRel(pc, r, call);
    DeqFails(s, c);
    var s' := Step(s, c);
    if s'.pcs[c.i].Idle? {
      m' := m.(calls := m.calls[c.i := NoCall]);
    } else if s'.pcs[c.i].DeqReadHead? {
      m' := m;
    } else {
      m' := m.(queue := m.queue[1..], leaving := m.leaving + 1, calls := m.calls[c.i := Got(m.queue[0])]);
      assert s'.ring.entered[s'.ring.ch..] == r.entered[r.ch..][1..];
    }
  }

  lemma DeqFails<T>(s: State<T>, c: Choice<T>)
    requires Inv(s) && c.i < |s.pcs| && s.pcs[c.i].DeqCas?
    ensures Step(s, c) == Step(s, Choice(c.i, Nothing))
    ensures Step(s, c).pcs[c.i].Idle? && Timely(s.ring, s.pcs[c.i]) ==> s.pcs[c.i].empty
  {
    hide And, PowerOfTwo, Minus, Holders, Contents;
    DeqFailsTruthfully(s, c.i);
  }

  lemma TicketSimulates<T>(s: State<T>, m: Spec<T>, c: Choice<T>, timely: bool) returns (m': Spec<T>)
    requires Inv(s) && Rel(s, m) && c.i < |s.pcs| && Inv(Step(s, c))
    requires s.pcs[c.i].EnqWrite? || s.pcs[c.i].EnqWait? || s.pcs[c.i].DeqRead? || s.pcs[c.i].DeqWait?
    ensures Counters(Step(s, c).ring) && Simulated(s, m, c, timely, Step(s, c), m')
  {
    hide And, PowerOfTwo, Minus, Next, Holders, Contents;
    assert CallRel(s.pcs[c.i], s.ring, m.calls[c.i]);
    m' := m;
  }

  lemma PublishSimulates<T>(s: State<T>, m: Spec<T>, c: Choice<T>, timely: bool) returns (m': Spec<T>)
    requires Inv(s) && Rel(s, m) && c.i < |s.pcs| && Inv(Step(s, c))
    requires s.pcs[c.i].EnqPublish? || s.pcs[c.i].DeqPublish?
    ensures Counters(Step(s, c).ring) && Simulated(s, m, c, timely, Step(s, c), m')
  {
    hide And, PowerOfTwo, Minus, Holders, Contents;
    assert CallRel(s.pcs[c.i], s.ring, m.calls[c.i]);
    assert ThreadInv(s.ring, c.i, s.pcs[c.i]);
    if s.pcs[c.i].EnqPublish? {
      m' := m.(placing := m.placing - 1, calls := m.calls[c.i := NoCall]);
      NextDiffers(s.ring.pt);
    } else {
      m' := m.(leaving := m.leaving - 1, calls := m.calls[c.i := NoCall]);
    }
  }

  lemma NextDiffers(k: nat)
    ensures Next(k % WORD) != k % WORD
  {
    NextRegister(k);
    if (k + 1) % WORD == k % WORD {
      SameRegister(k + 1, k);
    }
  }

  lemma StepSimulates<T>(s: State<T>, m: Spec<T>, c: Choice<T>, timely: bool) returns (m': Spec<T>)
    requires Inv(s) && Rel(s, m) && !OverrunsAt(s, c) && (timely ==> TimelyAt(s, c))
    ensures Move(m, c, timely, s, Step(s, c), m') && Rel(Step(s, c), m')
  {
    hide Inv, Step, CallRel, Overruns, Timely, Returns, Acts;
    StepKeepsInv(s, c);
    var s' := Step(s, c);
    InvCounters(s);
    InvCounters(s');
    if c.i >= |s.pcs| {
      m' := m;
      NoSuchThread(s, c);
    } else {
      StepTouches(s, c);
      m' := ThreadSimulates(s, m, c, timely);
      forall j | 0 <= j < |s.pcs|
        ensures CallRel(s'.pcs[j], s'.ring, m'.calls[j])
      {
        if j != c.i {
          OthersKept(s, s', m, c.i, j);
        }
      }
    }
  }

  lemma ThreadSimulates<T>(s: State<T>, m: Spec<T>, c: Choice<T>, timely: bool) returns (m': Spec<T>)
    requires Inv(s) && Rel(s, m) && c.i < |s.pcs| && Inv(Step(s, c)) && (timely ==> Timely(s.ring, s.pcs[c.i]))
    ensures |Step(s, c).pcs| == |s.pcs| && s.ring.left <= Step(s, c).ring.left && Counters(Step(s, c).ring)
    ensures Simulated(s, m, c, timely, Step(s, c), m')
  {
    hide Inv, Step, CallRel, Timely, Simulated, Rel;
    InvCounters(s);
    InvCounters(Step(s, c));
    StepTouches(s, c);
    match s.pcs[c.i] {
      case Idle => m' := StartSimulates(s, m, c, timely);
      case EnqCas(_, _, _, _, _, _) => m' := EnqCasSimulates(s, m, c, timely);
      case DeqCas(_, _, _, _, _) => m' := DeqCasSimulates(s, m, c, timely);
      case EnqPublish(_, _) => m' := PublishSimulates(s, m, c, timely);
      case DeqPublish(_, _, _) => m' := PublishSimulates(s, m, c, timely);
      case EnqReadHead(_) => m' := ReadSimulates(s, m, c, timely);
      case EnqReadTail(_, _, _) => m' := ReadSimulates(s, m, c, timely);
      case DeqReadHead => m' := ReadSimulates(s, m, c, timely);
      case DeqReadTail(_, _) => m' := ReadSimulates(s, m, c, timely);
      case _ => m' := TicketSimulates(s, m, c, timely);
    }
  }

  lemma InvCounters<T>(s: State<T>)
    requires Inv(s)
    ensures Shape(s.ring) && Counters(s.ring)
  {
  }

  lemma NoSuchThread<T>(s: State<T>, c: Choice<T>)
    requires Shape(s.ring) && c.i >= |s.pcs|
    ensures Step(s, c) == s
  {
  }

  // ---------------------------------------------------------------- whole runs

  /** The runs of a shorter schedule are those of the longer one so far. */
  lemma Shorter<T>(s: State<T>, schedule: seq<Choice<T>>, n: nat, timely: bool)
    requires Shape(s.ring) && n < |schedule| && SafeRun(s, schedule) && (timely ==> TimelyRun(s, schedule))
    ensures forall k | 0 <= k <= n :: At(s, schedule, k) == At(s, schedule[..n], k)
    ensures SafeRun(s, schedule[..n]) && (timely ==> TimelyRun(s, schedule[..n]))
    ensures !OverrunsAt(At(s, schedule, n), schedule[n]) && (timely ==> TimelyAt(At(s, schedule, n), schedule[n]))
  {
    hide Exec, OverrunsAt, TimelyAt;
    var before := schedule[..n];
    forall k | 0 <= k <= n
      ensures At(s, schedule, k) == At(s, before, k)
    {
      assert before[..k] == schedule[..k];
    }
  }

  lemma ExplainsMore<T>(s: State<T>, schedule: seq<Choice<T>>, n: nat, timely: bool, ms: seq<Spec<T>>, m: Spec<T>)
    requires Shape(s.ring) && |schedule| == n + 1 && Explains(s, schedule[..n], timely, ms)
    requires forall k | 0 <= k <= n :: At(s, schedule, k) == At(s, schedule[..n], k)
    requires Move(ms[n], schedule[n], timely, At(s, schedule, n), At(s, schedule, n + 1), m)
    ensures Explains(s, schedule, timely, ms + [m])
  {
    hide Move, At;
    var before, all := schedule[..n], ms + [m];
    forall k | 0 <= k < |schedule|
      ensures Move(all[k], schedule[k], timely, At(s, schedule, k), At(s, schedule, k + 1), all[k + 1])
    {
      if k < n {
        assert Move(ms[k], before[k], timely, At(s, before, k), At(s, before, k + 1), ms[k + 1]);
      }
    }
  }

  /** Every run without an overrun is explained by a run of the atomic queue; if all reads are timely, every refused
      call has seen the queue refuse it. */
  lemma {:induction false} RunLinearizes<T>(size: nat, threads: nat, dflt: T, schedule: seq<Choice<T>>, timely: bool)
    returns (ms: seq<Spec<T>>)
    requires PowerOfTwo(size) && 0 < size <= WORD / 2
    requires SafeRun(Initial(size, threads, dflt), schedule)
    requires timely ==> TimelyRun(Initial(size, threads, dflt), schedule)
    ensures Explains(Initial(size, threads, dflt), schedule, timely, ms)
    ensures Rel(Exec(Initial(size, threads, dflt), schedule), ms[|schedule|])
  {
    hide PowerOfTwo, Inv, Move, Rel, Step, OverrunsAt, TimelyAt, At, SafeRun, TimelyRun, Exec, InvAt;
    var s := Initial(size, threads, dflt);
    if schedule == [] {
      InitialRel(size, threads, dflt);
      AtEnds(s, schedule);
      assert schedule[..0] == schedule;
      ms := [Empty(threads)];
    } else {
      var n := |schedule| - 1;
      var before := schedule[..n];
      Shorter(s, schedule, n, timely);
      ms := RunLinearizes(size, threads, dflt, before, timely);
      RunInv(size, threads, dflt, before);
      AtEnds(s, before);
      AtEnds(s, schedule);
      AtNext(s, schedule, n);
      InvNow(s, before, n);
      var m := StepSimulates(At(s, schedule, n), ms[n], schedule[n], timely);
      ExplainsMore(s, schedule, n, timely, ms, m);
      ms := ms + [m];
    }
  }

  lemma InvNow<T>(s: State<T>, schedule: seq<Choice<T>>, k: nat)
    requires Shape(s.ring) && k <= |schedule| && InvAt(s, schedule, k)
    ensures Inv(At(s, schedule, k))
  {
  }

  // ---------------------------------------------------------------- arguments

  /** The call with which thread `i` last left its idle state. */
  ghost function LastCall<T>(s: State<T>, schedule: seq<Choice<T>>, i: nat): Command<T>
    requires Shape(s.ring)
  {
    if schedule == [] then Nothing
    else
      var before, c := schedule[..|schedule| - 1], schedule[|schedule| - 1];
      var now := Exec(s, before);
      if c.i == i && i < |now.pcs| && now.pcs[i].Idle? then c.cmd else LastCall(s, before, i)
  }

  /** The arguments of the enqueue calls, in the order in which they advanced the head. */
  ghost function Arguments<T>(s: State<T>, schedule: seq<Choice<T>>): seq<T>
    requires Shape(s.ring)
  {
    if schedule == [] then []
    else
      var before, c := schedule[..|schedule| - 1], schedule[|schedule| - 1];
      var call := LastCall(s, before, c.i);
      if Exec(s, schedule).ring.prodHead != Exec(s, before).ring.prodHead && call.Enqueue? then
        Arguments(s, before) + [call.x]
      else Arguments(s, before)
  }

  /** The threads that made these calls. */
  ghost function Callers<T>(s: State<T>, schedule: seq<Choice<T>>): seq<nat>
    requires Shape(s.ring)
  {
    if schedule == [] then []
    else
      var before, c := schedule[..|schedule| - 1], schedule[|schedule| - 1];
      if Exec(s, schedule).ring.prodHead != Exec(s, before).ring.prodHead && LastCall(s, before, c.i).Enqueue? then
        Callers(s, before) + [c.i]
      else Callers(s, before)
  }

  ghost predicate Carries<T>(pc: Pc<T>, call: Command<T>) {
    pc.EnqReadHead? || pc.EnqReadTail? || pc.EnqCas? ==> call == Enqueue(pc.x)
  }

  lemma CarriesStep<T>(s: State<T>, c: Choice<T>, i: nat, call: Command<T>)
    requires Shape(s.ring) && i < |s.pcs| && Carries(s.pcs[i], call)
    ensures |Step(s, c).pcs| == |s.pcs|
    ensures Carries(Step(s, c).pcs[i], if c.i == i && s.pcs[i].Idle? then c.cmd else call)
  {
    hide And, Minus, Next;
  }

  lemma {:induction false} CarriesArgument<T>(s: State<T>, schedule: seq<Choice<T>>, i: nat)
    requires Shape(s.ring) && (forall j | 0 <= j < |s.pcs| :: s.pcs[j].Idle?) && i < |s.pcs|
    ensures i < |Exec(s, schedule).pcs| == |s.pcs| && Carries(Exec(s, schedule).pcs[i], LastCall(s, schedule, i))
  {
    hide Step, Carries;
    if schedule == [] {
      IdleCarries(s.pcs[i], LastCall(s, schedule, i));
    } else {
      var n := |schedule| - 1;
      CarriesArgument(s, schedule[..n], i);
      CarriesStep(Exec(s, schedule[..n]), schedule[n], i, LastCall(s, schedule[..n], i));
    }
  }

  lemma IdleCarries<T>(pc: Pc<T>, call: Command<T>)
    requires pc.Idle?
    ensures Carries(pc, call)
  {
  }

  lemma HeadMoves<T>(s: State<T>, c: Choice<T>)
    requires Shape(s.ring)
    ensures var s' := Step(s, c);
            if s'.ring.prodHead != s.ring.prodHead then
              && c.i < |s.pcs| && s.pcs[c.i].EnqCas? && s'.ring.entered == s.ring.entered + [s.pcs[c.i].x]
              && s'.ring.prodBy == s.ring.prodBy + [c.i]
            else s'.ring.entered == s.ring.entered && s'.ring.prodBy == s.ring.prodBy
  {
    hide And, Minus;
  }

  lemma {:induction false} SameThreads<T>(s: State<T>, schedule: seq<Choice<T>>)
    requires Shape(s.ring)
    ensures |Exec(s, schedule).pcs| == |s.pcs|
  {
    hide ThreadStep;
    if schedule != [] {
      SameThreads(s, schedule[..|schedule| - 1]);
    }
  }

  /** In every run, what enters the ring are the arguments of the calls, in the order in which they draw tickets. */
  lemma {:induction false} ArgumentsEnter<T>(size: nat, threads: nat, dflt: T, schedule: seq<Choice<T>>)
    requires size > 0
    ensures Exec(Initial(size, threads, dflt), schedule).ring.entered ==
        Arguments(Initial(size, threads, dflt), schedule)
    ensures Exec(Initial(size, threads, dflt), schedule).ring.prodBy == Callers(Initial(size, threads, dflt), schedule)
  {
    hide Step;
    var s := Initial(size, threads, dflt);
    if schedule != [] {
      var before, c := schedule[..|schedule| - 1], schedule[|schedule| - 1];
      ArgumentsEnter(size, threads, dflt, before);
      HeadMoves(Exec(s, before), c);
      SameThreads(s, before);
      if c.i < threads {
        CarriesArgument(s, before, c.i);
      }
    }
  }

  /** So a run without an overrun returns the arguments of the calls, in that order. */
  lemma RunReturnsArguments<T>(size: nat, threads: nat, dflt: T, schedule: seq<Choice<T>>)
    requires PowerOfTwo(size) && 0 < size <= WORD / 2 && SafeRun(Initial(size, threads, dflt), schedule)
    ensures Exec(Initial(size, threads, dflt), schedule).ring.left <= Arguments(Initial(size, threads, dflt), schedule)
  {
    hide PowerOfTwo, Exec, SafeRun, Arguments;
    RunIsFifo(size, threads, dflt, schedule);
    ArgumentsEnter(size, threads, dflt, schedule);
  }

  // ---------------------------------------------------------------- calls end

  /** At most how many steps a call has before it, unless it has to try again or to wait. */
  ghost function Work<T>(pc: Pc<T>): nat {
    match pc
    case Idle => 0
    case EnqReadHead(_) => 6
    case EnqReadTail(_, _, _) => 5
    case EnqCas(_, _, _, _, _, _) => 4
    case EnqWrite(_, _, _) => 3
    case EnqWait(_, _) => 2
    case EnqPublish(_, _) => 1
    case DeqReadHead => 6
    case DeqReadTail(_, _) => 5
    case DeqCas(_, _, _, _, _) => 4
    case DeqRead(_, _) => 3
    case DeqWait(_, _, _) => 2
    case DeqPublish(_, _, _) => 1
  }

  /** Every step inside a call brings it nearer to its end, except that it tries again when another thread has drawn a
      ticket since it read the head, and waits while an earlier ticket is not published. */
  lemma CallsEnd<T>(s: State<T>, c: Choice<T>)
    requires Inv(s) && c.i < |s.pcs| && !s.pcs[c.i].Idle?
    ensures var r, pc, pc' := s.ring, s.pcs[c.i], Step(s, c).pcs[c.i];
            || Work(pc') < Work(pc) <= 6
            || (pc.EnqCas? && pc' == EnqReadHead(pc.x) && r.ph > pc.k)
            || (pc.DeqCas? && pc' == DeqReadHead && r.ch > pc.k)
            || (pc.EnqWait? && pc' == pc && r.pt < pc.k)
            || (pc.DeqWait? && pc' == pc && r.ct < pc.k)
  {
    hide And, PowerOfTwo, Minus, Next, Holders, Contents;
    assert ThreadInv(s.ring, c.i, s.pcs[c.i]);
  }
}
