/** Calls of the bounded buffer. */
module BufferCalls {
  // Every run looks from outside like a run of an atomic queue with a bound: calls start and return as the schedule and
  // the idle states show, and each takes effect at one moment in between.

  import opened BoundedBuffer

  // ---------------------------------------------------------------- the atomic queue with calls

  datatype Call = NoCall | Called(role: Role) | Done

  datatype Spec = Spec(queue: seq<int>, calls: seq<Call>)

  /** The call of thread `t` puts its argument into a queue with room, or takes the oldest item of one that is not
      empty, or nothing happens.  `put` and `got` are the items that the step puts and gets. */
  ghost predicate Acts(m: Spec, t: nat, room: int, put: seq<int>, got: seq<int>, m': Spec)
    requires t < |m.calls|
  {
    || (put == [] && got == [] && m' == m)
    || (m.calls[t].Called? && m.calls[t].role.Producer? && |m.queue| < room
        && put == [m.calls[t].role.item] && got == [] && m' == Spec(m.queue + put, m.calls[t := Done]))
    || (m.calls[t].Called? && m.calls[t].role.Consumer? && put == [] && m.queue != [] && got == [m.queue[0]]
        && m' == Spec(m.queue[1..], m.calls[t := Done]))
  }

  /** A step of the run is a move of the atomic queue, and only the thread that moves starts or ends a call in it. */
  ghost predicate Move(m: Spec, t: nat, c: Choice, s: State, s': State, m': Spec)
    requires t < |s.pc|
  {
    && |s.pc| == |s'.pc| == |m.calls| == |m'.calls| && s.put <= s'.put && s.got <= s'.got
    && (forall u | 0 <= u < |s.pc| && u != t :: s'.pc[u].Idle? == s.pc[u].Idle?)
    && var put, got := s'.put[|s.put|..], s'.got[|s.got|..];
       if s.pc[t].Idle? then
         && m.calls[t] == NoCall && s'.pc[t].Idle? == !c.Call? && put == [] && got == []
         && m' == if c.Call? then m.(calls := m.calls[t := Called(c.role)]) else m
       else if s'.pc[t].Idle? then
         put == [] && got == [] && m.calls[t] == Done && m' == m.(calls := m.calls[t := NoCall])
       else Acts(m, t, s.max - 1, put, got, m') && m'.calls[t] != NoCall
  }

  ghost predicate Explains(s: State, cs: seq<(int, Choice)>, ms: seq<Spec>)
    requires Start(s) && Schedule(|s.pc|, cs)
  {
    && |ms| == |cs| + 1 && ms[0] == Spec([], seq(|s.pc|, i => NoCall))
    && forall k | 0 <= k < |cs| :: Move(ms[k], cs[k].0, cs[k].1, After(s, cs, k), After(s, cs, k + 1), ms[k + 1])
  }

  /** The state after the first `k` choices. */
  ghost function After(s: State, cs: seq<(int, Choice)>, k: nat): (s': State)
    requires Start(s) && Schedule(|s.pc|, cs) && k <= |cs|
    ensures |s'.pc| == |s.pc|
  {
    Exec(s, cs[..k])
  }

  // ---------------------------------------------------------------- how they correspond

  ghost predicate CallRel(pc: Pc, call: Call) {
    match pc
    case Idle => call == NoCall
    case Signalling(_) => call == Done
    case Unlocking(_) => call == Done
    case _ => call == Called(pc.role)
  }

  ghost predicate Rel(s: State, m: Spec) {
    && Shape(s) && m.queue == Contents(s.buf, s.head, s.rear) && |m.calls| == |s.pc|
    && forall i | 0 <= i < |s.pc| :: CallRel(s.pc[i], m.calls[i])
  }

  lemma ActSimulates(s: State, m: Spec, t: nat, c: Choice) returns (m': Spec)
    requires Inv(s) && Rel(s, m) && t < |s.pc| && s.pc[t].Acting?
    ensures Move(m, t, c, s, Step(s, t, c), m') && Rel(Step(s, t, c), m')
  {
    hide Contents, Sum, NoLostWakeup;
    var role := s.pc[t].role;
    FullOrEmpty(s.buf, s.head, s.rear);
    assert CallRel(s.pc[t], m.calls[t]);
    if role.Producer? {
      RingPut(s.buf, s.head, s.rear, role.item);
      m' := Spec(m.queue + [role.item], m.calls[t := Done]);
    } else {
      RingGet(s.buf, s.head, s.rear);
      m' := Spec(m.queue[1..], m.calls[t := Done]);
    }
  }

  lemma OtherSimulates(s: State, m: Spec, t: nat, c: Choice) returns (m': Spec)
    requires Inv(s) && Rel(s, m) && t < |s.pc| && !s.pc[t].Acting?
    ensures Move(m, t, c, s, Step(s, t, c), m') && Rel(Step(s, t, c), m')
  {
    hide Contents, Sum, NoLostWakeup, Next;
    assert CallRel(s.pc[t], m.calls[t]);
    m' := m;
    match s.pc[t] {
      case Idle => if c.Call? { m' := m.(calls := m.calls[t := Called(c.role)]); }
      case Unlocking(_) => m' := m.(calls := m.calls[t := NoCall]);
      case _ =>
    }
    var s' := Step(s, t, c);
    forall i | 0 <= i < |s.pc|
      ensures CallRel(s'.pc[i], m'.calls[i]) && (i != t ==> s'.pc[i].Idle? == s.pc[i].Idle?)
    {
      assert CallRel(s.pc[i], m.calls[i]);
    }
  }

  lemma StepSimulates(s: State, m: Spec, t: nat, c: Choice) returns (m': Spec)
    requires Inv(s) && Rel(s, m) && t < |s.pc|
    ensures Move(m, t, c, s, Step(s, t, c), m') && Rel(Step(s, t, c), m')
  {
    hide Inv, Step, Move, Rel;
    if s.pc[t].Acting? {
      m' := ActSimulates(s, m, t, c);
    } else {
      m' := OtherSimulates(s, m, t, c);
    }
  }

  lemma {:induction false} ExplainsMore(s: State, cs: seq<(int, Choice)>, c: (int, Choice), ms: seq<Spec>, m: Spec)
    requires Start(s) && Schedule(|s.pc|, cs) && 0 <= c.0 < |s.pc| && Explains(s, cs, ms)
    requires Move(ms[|cs|], c.0, c.1, Exec(s, cs), Step(Exec(s, cs), c.0, c.1), m)
    ensures Schedule(|s.pc|, cs + [c]) && Explains(s, cs + [c], ms + [m])
  {
    hide Move, Start, Exec, Step;
    ExecMore(s, cs, c);
    var all, ns := cs + [c], ms + [m];
    assert all[..|cs|] == cs && all[..|all|] == all;
    forall k | 0 <= k <= |cs|
      ensures After(s, all, k) == After(s, cs, k)
    {
      assert all[..k] == cs[..k];
    }
    assert After(s, cs, |cs|) == Exec(s, cs) by { assert cs[..|cs|] == cs; }
    forall k | 0 <= k < |all|
      ensures Move(ns[k], all[k].0, all[k].1, After(s, all, k), After(s, all, k + 1), ns[k + 1])
    {
      if k < |cs| {
        assert Move(ms[k], cs[k].0, cs[k].1, After(s, cs, k), After(s, cs, k + 1), ms[k + 1]);
      }
    }
  }

  /** Every run is explained by a run of the atomic queue, whose bound is one less than the size of the buffer. */
  lemma {:induction false} RunLinearizes(s: State, cs: seq<(int, Choice)>) returns (ms: seq<Spec>)
    requires Start(s) && Schedule(|s.pc|, cs)
    ensures Explains(s, cs, ms) && Rel(Exec(s, cs), ms[|cs|])
  {
    hide Inv, Step, Move, Start, Rel, Exec;
    if cs == [] {
      StartRel(s);
      ms := [Spec([], seq(|s.pc|, i => NoCall))];
    } else {
      var n := |cs| - 1;
      var before, c := cs[..n], cs[n];
      ms := RunLinearizes(s, before);
      RunInv(s, before);
      var m := StepSimulates(Exec(s, before), ms[n], c.0, c.1);
      assert cs == before + [c];
      ExecMore(s, before, c);
      ExplainsMore(s, before, c, ms, m);
      ms := ms + [m];
    }
  }

  lemma StartRel(s: State)
    requires Start(s)
    ensures Rel(s, Spec([], seq(|s.pc|, i => NoCall))) && Exec(s, []) == s
  {
  }
}
