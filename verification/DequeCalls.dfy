/** Calls of the work-stealing deque. */
module DequeCalls {
  // Every run looks from outside like a run of an atomic deque: calls start and return as the schedule and the idle
  // states show, each takes effect at one moment in between, and it returns what the atomic deque gave it then.

  import opened Arith
  import opened WorkStealQueue

  // ---------------------------------------------------------------- the atomic deque with calls

  datatype Op<+T> = PushOp(x: T) | PopOp | StealOp

  /** What a thread's call has come to: it has not taken effect, or it has and will return this. */
  datatype Call<+T> = NoCall | Called(op: Op<T>) | Finished(result: Option<T>)

  /** The atomic deque, the calls of its users, and all elements that pushes have put into it. */
  datatype Spec<T(==)> = Spec(queue: seq<T>, owner: Call<T>, stealers: seq<Call<T>>, pushed: multiset<T>)

  /** The owner's call takes effect, or nothing happens. */
  predicate OwnerActs<T(==)>(m: Spec<T>, m': Spec<T>) {
    || m' == m
    || (m.owner.Called? && m.owner.op.PushOp?
        && m' == m.(queue := m.queue + [m.owner.op.x], owner := Finished(None),
            pushed := m.pushed + multiset{m.owner.op.x}))
    || (m.owner == Called(PopOp) && m.queue == [] && m' == m.(owner := Finished(None)))
    || (m.owner == Called(PopOp) && m.queue != []
        && m' == m.(queue := m.queue[..|m.queue| - 1], owner := Finished(Some(m.queue[|m.queue| - 1]))))
  }

  /** A stealer's call takes effect, or nothing happens.  It may fail on a single element that a pop is after. */
  predicate StealActs<T(==)>(m: Spec<T>, i: nat, m': Spec<T>)
    requires i < |m.stealers|
  {
    || m' == m
    || (m.stealers[i] == Called(StealOp) && (m.queue == [] || (|m.queue| == 1 && m.owner == Called(PopOp)))
        && m' == m.(stealers := m.stealers[i := Finished(None)]))
    || (m.stealers[i] == Called(StealOp) && m.queue != []
        && m' == m.(queue := m.queue[1..], stealers := m.stealers[i := Finished(Some(m.queue[0]))]))
  }

  function Gain<T(==)>(result: Option<T>): multiset<T> {
    if result.Some? then multiset{result.value} else multiset{}
  }

  function OpOf<T>(cmd: Command<T>): Op<T>
    requires !cmd.Nothing?
  {
    match cmd
    case Push(x) => PushOp(x)
    case Pop => PopOp
  }

  /** What a step of the owner may look like: whether it was and is outside a call, and what was returned in it.  A push
      may take effect in the step with which it returns. */
  ghost predicate OwnerMove<T>(m: Spec<T>, cmd: Command<T>, was: bool, now: bool, gain: multiset<T>, m': Spec<T>) {
    if was then
      && gain == multiset{} && m.owner == NoCall && now == cmd.Nothing?
      && m' == if cmd.Nothing? then m else m.(owner := Called(OpOf(cmd)))
    else if now then
      || (m.owner.Finished? && gain == Gain(m.owner.result) && m' == m.(owner := NoCall))
      || (m.owner.Called? && m.owner.op.PushOp? && gain == multiset{}
          && m' == m.(queue := m.queue + [m.owner.op.x], owner := NoCall, pushed := m.pushed + multiset{m.owner.op.x}))
    else gain == multiset{} && OwnerActs(m, m') && m'.owner != NoCall
  }

  ghost predicate StealMove<T>(m: Spec<T>, i: nat, was: bool, now: bool, gain: multiset<T>, m': Spec<T>)
    requires i < |m.stealers|
  {
    if was then
      gain == multiset{} && m.stealers[i] == NoCall && !now && m' == m.(stealers := m.stealers[i := Called(StealOp)])
    else if now then
      m.stealers[i].Finished? && gain == Gain(m.stealers[i].result) && m' == m.(stealers := m.stealers[i := NoCall])
    else gain == multiset{} && StealActs(m, i, m') && m'.stealers[i] != NoCall
  }

  /** A step of the run is a move of the atomic deque, and only the thread that moves starts or ends a call in it. */
  ghost predicate Move<T>(m: Spec<T>, c: Choice<T>, s: State<T>, s': State<T>, m': Spec<T>) {
    && s.returned <= s'.returned && |s.stealers| == |s'.stealers| == |m.stealers| == |m'.stealers|
    && match c
       case OwnerMoves(cmd) =>
         && s'.stealers == s.stealers
         && OwnerMove(m, cmd, s.owner.Idle?, s'.owner.Idle?, s'.returned - s.returned, m')
       case StealerMoves(i) =>
         && s'.owner == s.owner
         && if i < |s.stealers| then
              && s'.stealers == s.stealers[i := s'.stealers[i]]
              && StealMove(m, i, s.stealers[i].StealIdle?, s'.stealers[i].StealIdle?, s'.returned - s.returned, m')
            else s' == s && m' == m
  }

  ghost function Empty<T>(stealers: nat): Spec<T> {
    Spec([], NoCall, seq(stealers, i => NoCall), multiset{})
  }

  /** The state after the first `k` choices. */
  ghost function After<T>(s: State<T>, schedule: seq<Choice<T>>, dflt: T, k: nat): State<T>
    requires Shape(s) && k <= |schedule|
  {
    Exec(s, schedule[..k], dflt)
  }

  /** The run of the atomic deque explains the whole run. */
  ghost predicate Explains<T>(s: State<T>, schedule: seq<Choice<T>>, dflt: T, ms: seq<Spec<T>>)
    requires Shape(s)
  {
    && |ms| == |schedule| + 1 && ms[0] == Empty(|s.stealers|)
    && forall k | 0 <= k < |schedule| ::
         Move(ms[k], schedule[k], After(s, schedule, dflt, k), After(s, schedule, dflt, k + 1), ms[k + 1])
  }

  // ---------------------------------------------------------------- how they correspond

  ghost predicate OwnerRel<T>(owner: Owner<T>, elems: seq<T>, mask: nat, call: Call<T>)
    requires |elems| == mask + 1
  {
    match owner
    case Idle => call == NoCall
    case Aborted(_) => call.Called? && call.op.PushOp?
    case PopReadTail | PopWriteTail(_) | PopReadHead(_) | PopRestore(_) => call == Called(PopOp)
    case SyncPopAcquire | SyncPopReadTail | SyncPopWriteTail(_) | SyncPopReadHead(_) => call == Called(PopOp)
    case PopTake(t) => call == Finished(Some(At(elems, mask, t)))
    case SyncPopTake(t) => call == Finished(Some(At(elems, mask, t)))
    case SyncPopRecheck(_, found) => call == Finished(found)
    case SyncPopRelease(found) => call == Finished(found)
    case SyncPopRestore(_) | SyncPopResetHead | SyncPopResetTail | SyncPushRelease => call == Finished(None)
    case _ => call == Called(PushOp(owner.x))
  }

  ghost predicate StealRel<T>(p: Stealer<T>, elems: seq<T>, mask: nat, call: Call<T>)
    requires |elems| == mask + 1
  {
    match p
    case StealIdle => call == NoCall
    case StealTake(h) => call == Finished(Some(At(elems, mask, h)))
    case StealRestore(_) => call == Finished(None)
    case StealRelease(found) => call == Finished(found)
    case _ => call == Called(StealOp)
  }

  ghost predicate Rel<T>(s: State<T>, m: Spec<T>) {
    && Shape(s) && m.queue == Queue(s) && m.pushed == s.pushed && |m.stealers| == |s.stealers|
    && OwnerRel(s.owner, s.elems, s.mask, m.owner)
    && forall i | 0 <= i < |s.stealers| :: StealRel(s.stealers[i], s.elems, s.mask, m.stealers[i])
  }

  lemma InitialRel<T>(size: nat, stealers: nat, dflt: T)
    requires PowerOfTwo(size)
    ensures Rel(Initial(size, stealers, dflt), Empty(stealers))
  {
    hide PowerOfTwo;
  }

  // ---------------------------------------------------------------- steps of the owner

  /** No step of the owner disturbs what a stealer is about to return. */
  lemma StealersKept<T>(s: State<T>, s': State<T>, e: Event<T>, m: Spec<T>, i: nat)
    requires Inv(s) && Sound(s, e, s') && Rel(s, m) && s'.stealers == s.stealers && i < |s.stealers|
    requires (s'.elems == s.elems && s'.mask == s.mask) || s.holder == ByOwner || s.owner.PushWriteElem?
    requires s.owner.PushWriteElem? ==> e == Quiet && s'.owner.PushWriteTail? && s'.holder == s.holder
    ensures StealRel(s'.stealers[i], s'.elems, s'.mask, m.stealers[i])
  {
    hide And, At, PowerOfTwo, Window, OwnerInv;
    if s.stealers[i].StealTake? {
      assert StealerCritical(s.stealers[i]);
      assert ThiefOf(s) == s.stealers[i];
      if s.owner.PushWriteElem? {
        assert ThiefOf(s') == s.stealers[i];
        var h := s.stealers[i].h;
        assert Claimed(s) == multiset{At(s.elems, s.mask, h)} && Claimed(s') == multiset{At(s'.elems, s'.mask, h)};
        assert At(s'.elems, s'.mask, h) in Claimed(s);
      }
    }
  }

  /** The owner's next state of affairs. */
  ghost predicate OwnerSimulated<T>(s: State<T>, m: Spec<T>, cmd: Command<T>, s': State<T>, m': Spec<T>) {
    && s.returned <= s'.returned && OwnerPart(s', m') && m'.stealers == m.stealers
    && OwnerMove(m, cmd, s.owner.Idle?, s'.owner.Idle?, s'.returned - s.returned, m')
  }

  ghost predicate OwnerPart<T>(s: State<T>, m: Spec<T>) {
    Shape(s) && m.queue == Queue(s) && m.pushed == s.pushed && OwnerRel(s.owner, s.elems, s.mask, m.owner)
  }

  lemma StartSimulates<T>(s: State<T>, m: Spec<T>, cmd: Command<T>, dflt: T) returns (m': Spec<T>)
    requires Inv(s) && Rel(s, m) && s.owner.Idle?
    ensures OwnerSimulated(s, m, cmd, Step(s, OwnerMoves(cmd), dflt), m')
  {
    hide And, At, PowerOfTwo, Window, Thief, StealersInv, StealRel;
    m' := if cmd.Nothing? then m else m.(owner := Called(OpOf(cmd)));
  }

  /** The owner is in the middle of a call and its step neither takes effect nor ends it. */
  predicate InBetween<T>(o: Owner<T>) {
    && !o.Idle? && !o.PushWriteTail? && !o.SyncPushPublish? && !o.SyncPushRelease?
    && !o.PopReadHead? && !o.PopTake? && !o.SyncPopReadHead? && !o.SyncPopRelease?
  }

  lemma QuietPush<T>(s: State<T>, m: Spec<T>, dflt: T)
    requires Inv(s) && Rel(s, m) && InBetween(s.owner) && !InPop(s.owner) && !InSyncPop(s.owner)
    ensures var s' := Step(s, OwnerMoves(Nothing), dflt);
            s'.returned == s.returned && !s'.owner.Idle? && OwnerRel(s'.owner, s'.elems, s'.mask, m.owner)
  {
    hide And, At, PowerOfTwo, Window, Thief, StealersInv, StealRel, Queue, Enlarged;
  }

  lemma QuietPop<T>(s: State<T>, m: Spec<T>, dflt: T)
    requires Inv(s) && Rel(s, m) && InBetween(s.owner) && (InPop(s.owner) || InSyncPop(s.owner))
    ensures var s' := Step(s, OwnerMoves(Nothing), dflt);
            s'.returned == s.returned && !s'.owner.Idle? && OwnerRel(s'.owner, s'.elems, s'.mask, m.owner)
  {
    hide And, At, PowerOfTwo, Window, Thief, StealersInv, StealRel, Queue;
  }

  lemma IgnoresCommand<T>(s: State<T>, cmd: Command<T>, dflt: T)
    requires Shape(s) && !s.owner.Idle?
    ensures Step(s, OwnerMoves(cmd), dflt) == Step(s, OwnerMoves(Nothing), dflt)
  {
    hide PushStep, PopStep, SyncPopStep, SyncPushStep;
  }

  lemma BetweenIsQuiet<T>(s: State<T>)
    requires Shape(s) && InBetween(s.owner)
    ensures OwnerEvent(s) == Quiet
  {
    hide At, And;
  }

  lemma QuietSimulates<T>(s: State<T>, m: Spec<T>, cmd: Command<T>, dflt: T) returns (m': Spec<T>)
    requires Inv(s) && Rel(s, m) && InBetween(s.owner)
    ensures OwnerSimulated(s, m, cmd, Step(s, OwnerMoves(cmd), dflt), m')
  {
    hide Step, Inv, OwnerRel, StealRel, Queue, OwnerEvent, Claimed;
    IgnoresCommand(s, cmd, dflt);
    OwnerSound(s, cmd, dflt);
    BetweenIsQuiet(s);
    if InPop(s.owner) || InSyncPop(s.owner) {
      QuietPop(s, m, dflt);
    } else {
      QuietPush(s, m, dflt);
    }
    OwnerCalls(s.owner, s.elems, s.mask, m.owner);
    m' := m;
  }

  lemma OwnerCalls<T>(o: Owner<T>, elems: seq<T>, mask: nat, call: Call<T>)
    requires |elems| == mask + 1 && OwnerRel(o, elems, mask, call)
    ensures o.Idle? <==> call == NoCall
  {
  }

  /** Where a push takes effect. */
  lemma PushPublishes<T>(s: State<T>, cmd: Command<T>, dflt: T)
    requires Inv(s) && (s.owner.PushWriteTail? || s.owner.SyncPushPublish?)
    ensures var s' := Step(s, OwnerMoves(cmd), dflt);
            && s'.returned == s.returned && s'.pushed == s.pushed + multiset{s.owner.x}
            && s'.owner == (if s.owner.PushWriteTail? then Idle else SyncPushRelease)
            && Queue(s') == Queue(s) + [s.owner.x]
  {
    hide Queue, At, Inv, Claimed;
    InvShape(s);
    OwnerSound(s, cmd, dflt);
  }

  lemma PushSimulates<T>(s: State<T>, m: Spec<T>, cmd: Command<T>, dflt: T) returns (m': Spec<T>)
    requires Inv(s) && Rel(s, m) && (s.owner.PushWriteTail? || s.owner.SyncPushPublish?)
    ensures OwnerSimulated(s, m, cmd, Step(s, OwnerMoves(cmd), dflt), m')
  {
    hide Step, Queue, At, StealRel, Inv;
    InvShape(s);
    PushPublishes(s, cmd, dflt);
    var s' := Step(s, OwnerMoves(cmd), dflt);
    var call := if s.owner.PushWriteTail? then NoCall else Finished(None);
    m' := m.(queue := Queue(s'), pushed := s'.pushed, owner := call);
  }

  /** Where a pop decides: it takes the last element, or goes on, or gives up on an empty deque. */
  lemma PopDecides<T>(s: State<T>, dflt: T)
    requires Inv(s) && (s.owner.PopReadHead? || s.owner.SyncPopReadHead?)
    ensures var s' := Step(s, OwnerMoves(Nothing), dflt);
            && s'.returned == s.returned && s'.pushed == s.pushed && s'.elems == s.elems && s'.mask == s.mask
            && if s'.owner.PopTake? || s'.owner.SyncPopTake? then
                 && Queue(s) != [] && s'.owner.t == s.owner.t
                 && At(s.elems, s.mask, s.owner.t) == Queue(s)[|Queue(s)| - 1]
                 && Queue(s') == Queue(s)[..|Queue(s)| - 1]
               else
                 && Queue(s') == Queue(s)
                 && (s'.owner.PopRestore? || (s'.owner.SyncPopRestore? && Queue(s) == []))
  {
    hide And, At, PowerOfTwo, StealersInv, Window, ThiefClaim;
    if s.head <= s.owner.t {
      WindowEnds(s.elems, s.mask, Low(s), High(s));
    }
  }

  lemma PopSimulates<T>(s: State<T>, m: Spec<T>, dflt: T) returns (m': Spec<T>)
    requires Inv(s) && Rel(s, m) && (s.owner.PopReadHead? || s.owner.SyncPopReadHead?)
    ensures OwnerSimulated(s, m, Nothing, Step(s, OwnerMoves(Nothing), dflt), m')
  {
    hide Step, Queue, At, StealRel, Inv;
    InvShape(s);
    var s' := Step(s, OwnerMoves(Nothing), dflt);
    PopDecides(s, dflt);
    m' := m.(queue := Queue(s'));
    if s'.owner.PopTake? || s'.owner.SyncPopTake? {
      m' := m'.(owner := Finished(Some(At(s.elems, s.mask, s.owner.t))));
    } else if s'.owner.SyncPopRestore? {
      m' := m'.(owner := Finished(None));
    }
  }

  lemma InvShape<T>(s: State<T>)
    requires Inv(s)
    ensures Shape(s)
  {
  }

  /** Where a pop, or a push under the lock, returns. */
  lemma ReturnTouches<T>(s: State<T>, cmd: Command<T>, dflt: T)
    requires Inv(s) && (s.owner.PopTake? || s.owner.SyncPopRelease? || s.owner.SyncPushRelease?)
    ensures var s' := Step(s, OwnerMoves(cmd), dflt);
            && s'.owner == Idle && s'.pushed == s.pushed && Queue(s') == Queue(s)
            && s'.returned == s.returned + (match s.owner
                                            case PopTake(t) => multiset{At(s.elems, s.mask, t)}
                                            case SyncPopRelease(found) => Gain(found)
                                            case _ => multiset{})
  {
    hide Queue, At, Inv, Claimed;
    InvShape(s);
    OwnerSound(s, cmd, dflt);
  }

  lemma ReturnSimulates<T>(s: State<T>, m: Spec<T>, cmd: Command<T>, dflt: T) returns (m': Spec<T>)
    requires Inv(s) && Rel(s, m)
    requires s.owner.PopTake? || s.owner.SyncPopRelease? || s.owner.SyncPushRelease?
    ensures OwnerSimulated(s, m, cmd, Step(s, OwnerMoves(cmd), dflt), m')
  {
    hide Step, Queue, At, StealRel, Inv;
    InvShape(s);
    ReturnTouches(s, cmd, dflt);
    m' := m.(owner := NoCall);
  }

  lemma OwnerSimulates<T>(s: State<T>, m: Spec<T>, cmd: Command<T>, dflt: T) returns (m': Spec<T>)
    requires Inv(s) && Rel(s, m)
    ensures Move(m, OwnerMoves(cmd), s, Step(s, OwnerMoves(cmd), dflt), m') && Rel(Step(s, OwnerMoves(cmd), dflt), m')
  {
    hide Step, Queue, Inv, StealRel, OwnerEvent, OwnerMove, OwnerRel, Performs;
    if s.owner.Idle? {
      m' := StartSimulates(s, m, cmd, dflt);
    } else if InBetween(s.owner) {
      m' := QuietSimulates(s, m, cmd, dflt);
    } else if s.owner.PopTake? || s.owner.SyncPopRelease? || s.owner.SyncPushRelease? {
      m' := ReturnSimulates(s, m, cmd, dflt);
    } else if s.owner.PushWriteTail? || s.owner.SyncPushPublish? {
      m' := PushSimulates(s, m, cmd, dflt);
    } else {
      IgnoresCommand(s, cmd, dflt);
      m' := PopSimulates(s, m, dflt);
      PopMoveAny(m, cmd, s, dflt, m');
    }
    var s' := Step(s, OwnerMoves(cmd), dflt);
    OwnerSound(s, cmd, dflt);
    OwnerTouches(s, cmd, dflt);
    forall i | 0 <= i < |s.stealers|
      ensures StealRel(s'.stealers[i], s'.elems, s'.mask, m'.stealers[i])
    {
      StealersKept(s, s', OwnerEvent(s), m, i);
    }
  }

  lemma PopMoveAny<T>(m: Spec<T>, cmd: Command<T>, s: State<T>, dflt: T, m': Spec<T>)
    requires Shape(s) && !s.owner.Idle? && OwnerSimulated(s, m, Nothing, Step(s, OwnerMoves(Nothing), dflt), m')
    ensures OwnerSimulated(s, m, cmd, Step(s, OwnerMoves(Nothing), dflt), m')
  {
    hide Step, Queue, OwnerRel;
  }

  lemma OwnerTouches<T>(s: State<T>, cmd: Command<T>, dflt: T)
    requires Inv(s)
    ensures var s' := Step(s, OwnerMoves(cmd), dflt);
            && s'.stealers == s.stealers
            && ((s'.elems == s.elems && s'.mask == s.mask) || s.holder == ByOwner || s.owner.PushWriteElem?)
            && (s.owner.PushWriteElem? ==> OwnerEvent(s) == Quiet && s'.owner.PushWriteTail? && s'.holder == s.holder)
  {
    hide And, At, PowerOfTwo, StealersInv, Window, OwnerInv, Enlarged;
  }

  // ---------------------------------------------------------------- steps of a stealer

  /** Where a steal decides: it takes the first element, or gives up on an empty deque or on a single element that a pop
      is after. */
  lemma StealDecides<T>(s: State<T>, i: nat)
    requires Inv(s) && i < |s.stealers| && s.stealers[i].StealReadTail?
    ensures var s' := StealStep(s, i);
            if s'.stealers[i].StealTake? then
              && Queue(s) != [] && Queue(s') == Queue(s)[1..]
              && At(s'.elems, s'.mask, s'.stealers[i].h) == Queue(s)[0]
            else
              && s'.stealers[i].StealRestore? && Queue(s') == Queue(s)
              && (Queue(s) == [] || (|Queue(s)| == 1 && (s.owner.PopReadHead? || s.owner.PopRestore?)))
  {
    hide And, At, PowerOfTwo, Window, OwnerClaim;
    var s' := StealStep(s, i);
    assert ThiefOf(s) == s.stealers[i] && ThiefOf(s') == s'.stealers[i];
    if s'.stealers[i].StealTake? {
      WindowEnds(s.elems, s.mask, Low(s), High(s));
    } else {
      StealFailsTruthfully(s, i);
    }
  }

  lemma StealDecisionSimulates<T>(s: State<T>, m: Spec<T>, i: nat) returns (m': Spec<T>)
    requires Inv(s) && Rel(s, m) && i < |s.stealers| && s.stealers[i].StealReadTail?
    ensures StealSimulated(s, m, i, StealStep(s, i), m')
  {
    hide Queue, At, Inv;
    InvShape(s);
    StealDecides(s, i);
    var s' := StealStep(s, i);
    assert StealRel(s.stealers[i], s.elems, s.mask, m.stealers[i]);
    if s'.stealers[i].StealTake? {
      m' := m.(queue := Queue(s)[1..], stealers := m.stealers[i := Finished(Some(Queue(s)[0]))]);
    } else {
      m' := m.(stealers := m.stealers[i := Finished(None)]);
    }
  }

  ghost predicate StealSimulated<T>(s: State<T>, m: Spec<T>, i: nat, s': State<T>, m': Spec<T>)
    requires i < |s.stealers|
  {
    && Move(m, StealerMoves(i), s, s', m') && Rel(s', m')
  }

  /** Any other step of a stealer leaves the deque alone. */
  lemma StealQueue<T>(s: State<T>, i: nat)
    requires Inv(s) && i < |s.stealers| && !s.stealers[i].StealReadTail?
    ensures Shape(s) && Queue(StealStep(s, i)) == Queue(s)
  {
    hide Queue, At, Inv, StealStep, Claimed;
    InvShape(s);
    StealSound(s, i);
  }

  lemma StealTouches<T>(s: State<T>, i: nat)
    requires Inv(s) && i < |s.stealers| && !s.stealers[i].StealReadTail?
    ensures var s' := StealStep(s, i);
            && s'.owner == s.owner && s'.elems == s.elems && s'.mask == s.mask && s'.pushed == s.pushed
            && |s'.stealers| == |s.stealers| && s'.stealers == s.stealers[i := s'.stealers[i]]
            && s'.returned == s.returned + (if s.stealers[i].StealRelease? then Gain(s.stealers[i].found)
                else multiset{})
            && match s.stealers[i]
               case StealIdle => s'.stealers[i] == StealAcquire
               case StealTake(h) => s'.stealers[i] == StealRelease(Some(At(s.elems, s.mask, h)))
               case StealRestore(_) => s'.stealers[i] == StealRelease(None)
               case StealRelease(_) => s'.stealers[i] == StealIdle
               case StealReadTail(_) => true
               case _ => StealRel(s'.stealers[i], s.elems, s.mask, Called(StealOp))
  {
    hide And, At, PowerOfTwo, Window, OwnerInv;
  }

  lemma StealOtherSimulates<T>(s: State<T>, m: Spec<T>, i: nat) returns (m': Spec<T>)
    requires Inv(s) && Rel(s, m) && i < |s.stealers| && !s.stealers[i].StealReadTail?
    ensures StealSimulated(s, m, i, StealStep(s, i), m')
  {
    hide Queue, At, Inv, OwnerRel, StealStep;
    InvShape(s);
    StealQueue(s, i);
    StealTouches(s, i);
    assert StealRel(s.stealers[i], s.elems, s.mask, m.stealers[i]);
    match s.stealers[i] {
      case StealIdle => m' := m.(stealers := m.stealers[i := Called(StealOp)]);
      case StealRelease(_) => m' := m.(stealers := m.stealers[i := NoCall]);
      case _ => m' := m;
    }
  }

  // ---------------------------------------------------------------- whole runs

  lemma StepSimulates<T>(s: State<T>, m: Spec<T>, c: Choice<T>, dflt: T) returns (m': Spec<T>)
    requires Inv(s) && Rel(s, m)
    ensures Move(m, c, s, Step(s, c, dflt), m') && Rel(Step(s, c, dflt), m')
  {
    hide Inv, StealStep, PushStep, PopStep, SyncPushStep, SyncPopStep, Queue, OwnerRel, StealRel;
    match c {
      case OwnerMoves(cmd) => m' := OwnerSimulates(s, m, cmd, dflt);
      case StealerMoves(i) =>
        if i >= |s.stealers| {
          m' := m;
        } else if s.stealers[i].StealReadTail? {
          m' := StealDecisionSimulates(s, m, i);
        } else {
          m' := StealOtherSimulates(s, m, i);
        }
    }
  }

  /** Every run of one owner and any number of stealers is explained by a run of the atomic deque. */
  lemma {:induction false} RunLinearizes<T>(size: nat, stealers: nat, dflt: T, schedule: seq<Choice<T>>)
    returns (ms: seq<Spec<T>>)
    requires PowerOfTwo(size) && size <= MAX_SIZE
    ensures Explains(Initial(size, stealers, dflt), schedule, dflt, ms)
    ensures Rel(Exec(Initial(size, stealers, dflt), schedule, dflt), ms[|schedule|])
  {
    hide PowerOfTwo, Inv, Move, Rel, Step;
    var s := Initial(size, stealers, dflt);
    if schedule == [] {
      InitialRel(size, stealers, dflt);
      ms := [Empty(stealers)];
    } else {
      var n := |schedule| - 1;
      var before, c := schedule[..n], schedule[n];
      ms := RunLinearizes(size, stealers, dflt, before);
      RunConserves(size, stealers, dflt, before);
      var m := StepSimulates(Exec(s, before, dflt), ms[n], c, dflt);
      assert schedule[..n + 1] == schedule;
      forall k | 0 <= k <= n
        ensures After(s, schedule, dflt, k) == After(s, before, dflt, k)
      {
        assert before[..k] == schedule[..k];
      }
      ms := ms + [m];
    }
  }

  // ---------------------------------------------------------------- calls end

  /** At most how many steps the owner's call has before it, not counting those that wait for the lock. */
  function OwnerWork<T>(o: Owner<T>): nat {
    match o
    case Idle => 0
    case Aborted(_) => 0
    case PushReadTail(_) => 14
    case PushReadHead(_, _) => 13
    case PushWriteElem(_, _) => 2
    case PushWriteTail(_, _) => 1
    case SyncPushAcquire(_) => 12
    case SyncPushReadHead(_) => 11
    case SyncPushReadTail(_, _) => 10
    case SyncPushWriteHead(_, _, _) => 9
    case SyncPushWriteTail(_, _, _) => 8
    case SyncPushCheck(_, _, _) => 7
    case SyncPushResetHead(_, _) => 6
    case SyncPushResetTail(_, _) => 5
    case SyncPushReadSlot(_, _) => 4
    case SyncPushWriteElem(_, _) => 3
    case SyncPushPublish(_, _) => 2
    case SyncPushRelease => 1
    case PopReadTail => 13
    case PopWriteTail(_) => 12
    case PopReadHead(_) => 11
    case PopTake(_) => 1
    case PopRestore(_) => 10
    case SyncPopAcquire => 9
    case SyncPopReadTail => 8
    case SyncPopWriteTail(_) => 7
    case SyncPopReadHead(_) => 6
    case SyncPopTake(_) => 5
    case SyncPopRestore(_) => 5
    case SyncPopRecheck(_, _) => 4
    case SyncPopResetHead => 3
    case SyncPopResetTail => 2
    case SyncPopRelease(_) => 1
  }

  function StealWork<T>(p: Stealer<T>): nat {
    match p
    case StealIdle => 0
    case StealAcquire => 6
    case StealReadHead => 5
    case StealWriteHead(_) => 4
    case StealReadTail(_) => 3
    case StealTake(_) => 2
    case StealRestore(_) => 2
    case StealRelease(_) => 1
  }

  /** The owner waits for a lock that a stealer holds. */
  predicate OwnerWaits<T(==)>(s: State<T>) {
    (s.owner.SyncPushAcquire? || s.owner.SyncPopAcquire?) && s.holder != Free
  }

  /** Every step of the owner inside a call that does not wait for the lock brings the call nearer to its end, so a call
      has at most 14 such steps. */
  lemma OwnerCallsEnd<T>(s: State<T>, cmd: Command<T>, dflt: T)
    requires Shape(s)
    ensures OwnerWork(s.owner) <= 14 && (OwnerWork(s.owner) == 0 <==> s.owner.Idle? || s.owner.Aborted?)
    ensures OwnerWork(s.owner) > 0 && !OwnerWaits(s) ==>
              OwnerWork(Step(s, OwnerMoves(cmd), dflt).owner) < OwnerWork(s.owner)
  {
    hide PushStep, PopStep, SyncPushStep, SyncPopStep;
    PushCallsEnd(s);
    PopCallsEnd(s);
    SyncPopCallsEnd(s);
    SyncPushCallsEnd(s, dflt);
  }

  lemma PushCallsEnd<T>(s: State<T>)
    requires Shape(s)
    ensures InPush(s.owner) ==> OwnerWork(PushStep(s).owner) < OwnerWork(s.owner)
  {
    hide And;
  }

  lemma PopCallsEnd<T>(s: State<T>)
    requires Shape(s)
    ensures InPop(s.owner) ==> OwnerWork(PopStep(s).owner) < OwnerWork(s.owner)
  {
    hide And, At;
  }

  lemma SyncPopCallsEnd<T>(s: State<T>)
    requires Shape(s)
    ensures InSyncPop(s.owner) && !OwnerWaits(s) ==> OwnerWork(SyncPopStep(s).owner) < OwnerWork(s.owner)
  {
    hide And, At;
  }

  lemma SyncPushCallsEnd<T>(s: State<T>, dflt: T)
    requires Shape(s)
    ensures OwnerWork(s.owner) > 0 && !InPush(s.owner) && !InPop(s.owner) && !InSyncPop(s.owner) && !OwnerWaits(s) ==>
              OwnerWork(SyncPushStep(s, dflt).owner) < OwnerWork(s.owner)
  {
    hide And, At, Enlarged, NewSize;
  }

  /** The same for a steal, which has at most 6 such steps. */
  lemma StealCallsEnd<T>(s: State<T>, i: nat)
    requires Shape(s) && i < |s.stealers|
    ensures StealWork(s.stealers[i]) <= 6 && (StealWork(s.stealers[i]) == 0 <==> s.stealers[i].StealIdle?)
    ensures !s.stealers[i].StealIdle? && (s.stealers[i].StealAcquire? ==> s.holder == Free) ==>
              StealWork(StealStep(s, i).stealers[i]) < StealWork(s.stealers[i])
  {
    hide And, At;
  }
}
