/** The work-stealing deque. */
module WorkStealQueue {
  // One owner pushes and pops at the tail, and any number of stealers take from the head under a spin lock.
  // Every shared access of the source is one step of one thread.  A run is a schedule, that is, any sequence of
  // thread choices.  Accesses are sequentially consistent.

  import opened Arith

  const MAX_SIZE := 1048576
  const INITIAL_SIZE := 1024

  datatype Option<+T> = None | Some(value: T)

  /** Where a stealer stands in `Steal`; the fields are its locals. */
  datatype Stealer<+T> =
    | StealIdle
    | StealAcquire
    | StealReadHead
    | StealWriteHead(h: int)
    | StealReadTail(h: int)
    | StealTake(h: int)
    | StealRestore(h: int)
    | StealRelease(found: Option<T>)

  datatype Cause = SizeAssertion | RoomAssertion

  /** Where the owner stands in `Push`, `SyncPush`, `Pop` or `SyncPop`. */
  datatype Owner<+T> =
    | Idle
    | Aborted(cause: Cause)
    | PushReadTail(x: T)
    | PushReadHead(x: T, t: int)
    | PushWriteElem(x: T, t: int)
    | PushWriteTail(x: T, t: int)
    | SyncPushAcquire(x: T)
    | SyncPushReadHead(x: T)
    | SyncPushReadTail(x: T, h: int)
    | SyncPushWriteHead(x: T, h: int, count: int)
    | SyncPushWriteTail(x: T, h: int, count: int)
    | SyncPushCheck(x: T, h: int, count: int)
    | SyncPushResetHead(x: T, count: int)
    | SyncPushResetTail(x: T, count: int)
    | SyncPushReadSlot(x: T, count: int)
    | SyncPushWriteElem(x: T, t: int)
    | SyncPushPublish(x: T, t: int)
    | SyncPushRelease
    | PopReadTail
    | PopWriteTail(t: int)
    | PopReadHead(t: int)
    | PopTake(t: int)
    | PopRestore(t: int)
    | SyncPopAcquire
    | SyncPopReadTail
    | SyncPopWriteTail(t: int)
    | SyncPopReadHead(t: int)
    | SyncPopTake(t: int)
    | SyncPopRestore(t: int)
    | SyncPopRecheck(t: int, found: Option<T>)
    | SyncPopResetHead
    | SyncPopResetTail
    | SyncPopRelease(found: Option<T>)

  datatype Holder = Free | ByOwner | ByStealer(id: nat)

  /** `holder` is the spin lock (free or taken) together with who took it.
      `pushed` and `returned` record the history of the run and influence no step. */
  datatype State<T(==)> = State(
    head: int, tail: int, elems: seq<T>, mask: nat, holder: Holder,
    owner: Owner<T>, stealers: seq<Stealer<T>>,
    pushed: multiset<T>, returned: multiset<T>)

  datatype Command<+T> = Nothing | Push(x: T) | Pop
  datatype Choice<+T> = OwnerMoves(cmd: Command<T>) | StealerMoves(i: nat)

  // ---------------------------------------------------------------- the steps of the source

  predicate Shape<T(==)>(s: State<T>) {
    |s.elems| == s.mask + 1
  }

  function At<T>(elems: seq<T>, mask: nat, i: int): T
    requires |elems| == mask + 1
  {
    elems[And(i, mask)]
  }

  /** The enlarged array of `SyncPush`: `count` elements copied to the front, the rest default. */
  function Enlarged<T>(elems: seq<T>, mask: nat, h: int, count: int, newsize: nat, dflt: T): (r: seq<T>)
    requires |elems| == mask + 1
  {
    seq(newsize, i => if 0 <= i < count then At(elems, mask, h + i) else dflt)
  }

  function NewSize(mask: nat): nat {
    if mask == 0 then INITIAL_SIZE else 2 * (mask + 1)
  }

  function PushStep<T(==)>(s: State<T>): (s': State<T>)
    requires Shape(s)
    ensures Shape(s')
  {
    match s.owner
    case PushReadTail(x) => s.(owner := PushReadHead(x, s.tail))
    case PushReadHead(x, t) =>
      if t < s.head + s.mask && t < MAX_SIZE then s.(owner := PushWriteElem(x, t))
      else s.(owner := SyncPushAcquire(x))
    case PushWriteElem(x, t) =>
      s.(elems := s.elems[And(t, s.mask) := x], owner := PushWriteTail(x, t))
    case PushWriteTail(x, t) =>
      s.(tail := t + 1, owner := Idle, pushed := s.pushed + multiset{x})
    case _ => s
  }

  function SyncPushStep<T(==)>(s: State<T>, dflt: T): (s': State<T>)
    requires Shape(s)
    ensures Shape(s')
  {
    match s.owner
    case SyncPushAcquire(x) =>
      if s.holder == Free then s.(holder := ByOwner, owner := SyncPushReadHead(x)) else s
    case SyncPushReadHead(x) => s.(owner := SyncPushReadTail(x, s.head))
    case SyncPushReadTail(x, h) => s.(owner := SyncPushWriteHead(x, And(h, s.mask), s.tail - h))
    case SyncPushWriteHead(x, h, count) => s.(head := h, owner := SyncPushWriteTail(x, h, count))
    case SyncPushWriteTail(x, h, count) => s.(tail := h + count, owner := SyncPushCheck(x, h, count))
    case SyncPushCheck(x, h, count) =>
      if count >= s.mask then
        var newsize := NewSize(s.mask);
        if newsize < MAX_SIZE then
          s.(elems := Enlarged(s.elems, s.mask, h, count, newsize, dflt), mask := newsize - 1,
             owner := SyncPushResetHead(x, count))
        else s.(owner := Aborted(SizeAssertion))
      else s.(owner := SyncPushReadSlot(x, count))
    case SyncPushResetHead(x, count) => s.(head := 0, owner := SyncPushResetTail(x, count))
    case SyncPushResetTail(x, count) => s.(tail := count, owner := SyncPushReadSlot(x, count))
    case SyncPushReadSlot(x, count) =>
      if count < s.mask then s.(owner := SyncPushWriteElem(x, s.tail))
      else s.(owner := Aborted(RoomAssertion))
    case SyncPushWriteElem(x, t) =>
      s.(elems := s.elems[And(t, s.mask) := x], owner := SyncPushPublish(x, t))
    case SyncPushPublish(x, t) =>
      s.(tail := t + 1, owner := SyncPushRelease, pushed := s.pushed + multiset{x})
    case SyncPushRelease => s.(holder := Free, owner := Idle)
    case _ => s
  }

  function PopStep<T(==)>(s: State<T>): (s': State<T>)
    requires Shape(s)
    ensures Shape(s')
  {
    match s.owner
    case PopReadTail => s.(owner := PopWriteTail(s.tail - 1))
    case PopWriteTail(t) => s.(tail := t, owner := PopReadHead(t))
    case PopReadHead(t) => s.(owner := if s.head <= t then PopTake(t) else PopRestore(t))
    case PopTake(t) =>
      s.(owner := Idle, returned := s.returned + multiset{At(s.elems, s.mask, t)})
    case PopRestore(t) => s.(tail := t + 1, owner := SyncPopAcquire)
    case _ => s
  }

  function SyncPopStep<T(==)>(s: State<T>): (s': State<T>)
    requires Shape(s)
    ensures Shape(s')
  {
    match s.owner
    case SyncPopAcquire =>
      if s.holder == Free then s.(holder := ByOwner, owner := SyncPopReadTail) else s
    case SyncPopReadTail => s.(owner := SyncPopWriteTail(s.tail - 1))
    case SyncPopWriteTail(t) => s.(tail := t, owner := SyncPopReadHead(t))
    case SyncPopReadHead(t) => s.(owner := if s.head <= t then SyncPopTake(t) else SyncPopRestore(t))
    case SyncPopTake(t) => s.(owner := SyncPopRecheck(t, Some(At(s.elems, s.mask, t))))
    case SyncPopRestore(t) => s.(tail := t + 1, owner := SyncPopRecheck(t, None))
    case SyncPopRecheck(t, found) =>
      s.(owner := if s.head > t then SyncPopResetHead else SyncPopRelease(found))
    case SyncPopResetHead => s.(head := 0, owner := SyncPopResetTail)
    case SyncPopResetTail => s.(tail := 0, owner := SyncPopRelease(None))
    case SyncPopRelease(found) =>
      s.(holder := Free, owner := Idle,
         returned := if found.Some? then s.returned + multiset{found.value} else s.returned)
    case _ => s
  }

  function StealStep<T(==)>(s: State<T>, i: nat): (s': State<T>)
    requires Shape(s)
    requires i < |s.stealers|
    ensures Shape(s')
  {
    match s.stealers[i]
    case StealIdle => s.(stealers := s.stealers[i := StealAcquire])
    case StealAcquire =>
      if s.holder == Free then s.(holder := ByStealer(i), stealers := s.stealers[i := StealReadHead]) else s
    case StealReadHead => s.(stealers := s.stealers[i := StealWriteHead(s.head)])
    case StealWriteHead(h) => s.(head := h + 1, stealers := s.stealers[i := StealReadTail(h)])
    case StealReadTail(h) =>
      s.(stealers := s.stealers[i := if h < s.tail then StealTake(h) else StealRestore(h)])
    case StealTake(h) =>
      s.(stealers := s.stealers[i := StealRelease(Some(At(s.elems, s.mask, h)))])
    case StealRestore(h) => s.(head := h, stealers := s.stealers[i := StealRelease(None)])
    case StealRelease(found) =>
      s.(holder := Free, stealers := s.stealers[i := StealIdle],
         returned := if found.Some? then s.returned + multiset{found.value} else s.returned)
  }

  predicate InPush<T>(o: Owner<T>) {
    o.PushReadTail? || o.PushReadHead? || o.PushWriteElem? || o.PushWriteTail?
  }

  predicate InPop<T>(o: Owner<T>) {
    o.PopReadTail? || o.PopWriteTail? || o.PopReadHead? || o.PopTake? || o.PopRestore?
  }

  predicate InSyncPop<T>(o: Owner<T>) {
    || o.SyncPopAcquire? || o.SyncPopReadTail? || o.SyncPopWriteTail? || o.SyncPopReadHead? || o.SyncPopTake?
    || o.SyncPopRestore? || o.SyncPopRecheck? || o.SyncPopResetHead? || o.SyncPopResetTail? || o.SyncPopRelease?
  }

  /** One access by one thread; a thread whose step is not enabled leaves the state unchanged. */
  function Step<T(==)>(s: State<T>, c: Choice<T>, dflt: T): (s': State<T>)
    requires Shape(s)
    ensures Shape(s')
  {
    match c
    case OwnerMoves(cmd) =>
      if s.owner.Idle? then
        match cmd
        case Nothing => s
        case Push(x) => s.(owner := PushReadTail(x))
        case Pop => s.(owner := PopReadTail)
      else if InPush(s.owner) then PushStep(s)
      else if InPop(s.owner) then PopStep(s)
      else if InSyncPop(s.owner) then SyncPopStep(s)
      else SyncPushStep(s, dflt)
    case StealerMoves(i) => if i < |s.stealers| then StealStep(s, i) else s
  }

  function Initial<T(==)>(size: nat, stealers: nat, dflt: T): (s: State<T>)
    requires PowerOfTwo(size)
    ensures Shape(s)
  {
    State(0, 0, seq(size, i => dflt), size - 1, Free, Idle, seq(stealers, i => StealIdle), multiset{}, multiset{})
  }

  function Exec<T(==)>(s: State<T>, schedule: seq<Choice<T>>, dflt: T): (s': State<T>)
    requires Shape(s)
    ensures Shape(s')
  {
    if schedule == [] then s
    else Step(Exec(s, schedule[..|schedule| - 1], dflt), schedule[|schedule| - 1], dflt)
  }

  // ---------------------------------------------------------------- the abstract deque

  /** The elements at indices `lo..hi` of a ring. */
  function Window<T>(elems: seq<T>, mask: nat, lo: int, hi: int): (w: seq<T>)
    requires |elems| == mask + 1
    ensures lo <= hi ==> |w| == hi - lo
    ensures forall i | 0 <= i < |w| :: w[i] == At(elems, mask, lo + i)
  {
    if lo <= hi then seq(hi - lo, i requires 0 <= i < hi - lo => At(elems, mask, lo + i)) else []
  }

  /** The stealer that holds the lock, or `StealIdle` if none does. */
  function Thief<T>(holder: Holder, stealers: seq<Stealer<T>>): Stealer<T> {
    if holder.ByStealer? && holder.id < |stealers| then stealers[holder.id] else StealIdle
  }

  /** The head once an undecided or failing `Steal` is discounted. */
  function LowEnd<T>(head: int, owner: Owner<T>, thief: Stealer<T>): int {
    if owner.SyncPushResetHead? then 0
    else if thief.StealReadTail? || thief.StealRestore? then head - 1
    else head
  }

  /** The lowest index whose slot is still needed: a claimed element has not been read yet. */
  function BaseEnd<T>(head: int, owner: Owner<T>, thief: Stealer<T>): int {
    if thief.StealTake? then LowEnd(head, owner, thief) - 1 else LowEnd(head, owner, thief)
  }

  /** The tail once an undecided or failing `Pop` and half-done renumberings are discounted. */
  function HighEnd<T>(tail: int, owner: Owner<T>): int {
    match owner
    case PopReadHead(_) | PopRestore(_) | SyncPopReadHead(_) | SyncPopRestore(_) => tail + 1
    case SyncPushWriteTail(_, h, count) => h + count
    case SyncPushResetHead(_, count) => count
    case SyncPushResetTail(_, count) => count
    case SyncPopResetTail => 0
    case _ => tail
  }

  function ThiefOf<T(==)>(s: State<T>): Stealer<T> {
    Thief(s.holder, s.stealers)
  }

  function Low<T(==)>(s: State<T>): int {
    LowEnd(s.head, s.owner, ThiefOf(s))
  }

  function Base<T(==)>(s: State<T>): int {
    BaseEnd(s.head, s.owner, ThiefOf(s))
  }

  function High<T(==)>(s: State<T>): int {
    HighEnd(s.tail, s.owner)
  }

  /** The contents of the deque. */
  function Queue<T(==)>(s: State<T>): seq<T>
    requires Shape(s)
  {
    Window(s.elems, s.mask, Low(s), High(s))
  }

  function ThiefClaim<T(==)>(elems: seq<T>, mask: nat, thief: Stealer<T>): multiset<T>
    requires |elems| == mask + 1
  {
    match thief
    case StealTake(h) => multiset{At(elems, mask, h)}
    case StealRelease(Some(v)) => multiset{v}
    case _ => multiset{}
  }

  function OwnerClaim<T(==)>(elems: seq<T>, mask: nat, owner: Owner<T>): multiset<T>
    requires |elems| == mask + 1
  {
    match owner
    case PopTake(t) => multiset{At(elems, mask, t)}
    case SyncPopTake(t) => multiset{At(elems, mask, t)}
    case SyncPopRecheck(_, Some(v)) => multiset{v}
    case SyncPopRelease(Some(v)) => multiset{v}
    case _ => multiset{}
  }

  /** Elements taken out of the deque by an operation that has not returned yet. */
  function Claimed<T(==)>(s: State<T>): multiset<T>
    requires Shape(s)
  {
    ThiefClaim(s.elems, s.mask, ThiefOf(s)) + OwnerClaim(s.elems, s.mask, s.owner)
  }

  /** An atomic deque, together with what it was given and what it has handed out. */
  datatype Deque<T(==)> = Deque(queue: seq<T>, claimed: multiset<T>, pushed: multiset<T>, returned: multiset<T>)

  datatype Event<+T> = Quiet | Pushed(x: T) | TookBack | TookFront | Returned(v: T)

  function Abstract<T(==)>(s: State<T>): Deque<T>
    requires Shape(s)
  {
    Deque(Queue(s), Claimed(s), s.pushed, s.returned)
  }

  /** What one event may do to the atomic deque. */
  predicate Performs<T(==)>(a: Deque<T>, e: Event<T>, b: Deque<T>) {
    match e
    case Quiet => b == a
    case Pushed(x) => b == a.(queue := a.queue + [x], pushed := a.pushed + multiset{x})
    case TookBack =>
      && |a.queue| > 0
      && b == a.(queue := a.queue[..|a.queue| - 1], claimed := a.claimed + multiset{a.queue[|a.queue| - 1]})
    case TookFront =>
      && |a.queue| > 0
      && b == a.(queue := a.queue[1..], claimed := a.claimed + multiset{a.queue[0]})
    case Returned(v) =>
      && v in a.claimed
      && b == a.(claimed := a.claimed - multiset{v}, returned := a.returned + multiset{v})
  }

  function OwnerEvent<T(==)>(s: State<T>): Event<T>
    requires Shape(s)
  {
    match s.owner
    case PushWriteTail(x, _) => Pushed(x)
    case SyncPushPublish(x, _) => Pushed(x)
    case PopReadHead(t) => if s.head <= t then TookBack else Quiet
    case SyncPopReadHead(t) => if s.head <= t then TookBack else Quiet
    case PopTake(t) => Returned(At(s.elems, s.mask, t))
    case SyncPopRelease(Some(v)) => Returned(v)
    case _ => Quiet
  }

  function StealEvent<T(==)>(s: State<T>, i: nat): Event<T>
    requires Shape(s) && i < |s.stealers|
  {
    match s.stealers[i]
    case StealReadTail(h) => if h < s.tail then TookFront else Quiet
    case StealRelease(Some(v)) => Returned(v)
    case _ => Quiet
  }

  /** The event of the atomic deque that a step stands for. */
  function EventOf<T(==)>(s: State<T>, c: Choice<T>): Event<T>
    requires Shape(s)
  {
    match c
    case OwnerMoves(_) => OwnerEvent(s)
    case StealerMoves(i) => if i < |s.stealers| then StealEvent(s, i) else Quiet
  }

  // ---------------------------------------------------------------- the invariant

  predicate OwnerCritical<T>(o: Owner<T>) {
    || o.Aborted?
    || (InSyncPop(o) && !o.SyncPopAcquire?)
    || (!o.Idle? && !InPush(o) && !InPop(o) && !InSyncPop(o) && !o.SyncPushAcquire?)
  }

  predicate StealerCritical<T>(p: Stealer<T>) {
    !p.StealIdle? && !p.StealAcquire?
  }

  predicate StealersInv<T>(holder: Holder, stealers: seq<Stealer<T>>) {
    && (forall i | 0 <= i < |stealers| :: StealerCritical(stealers[i]) <==> holder == ByStealer(i))
    && (holder.ByStealer? ==> holder.id < |stealers|)
  }

  predicate ThiefInv<T>(thief: Stealer<T>, head: int) {
    match thief
    case StealWriteHead(h) => h == head
    case StealReadTail(h) => h + 1 == head
    case StealTake(h) => h + 1 == head
    case StealRestore(h) => h + 1 == head
    case _ => true
  }

  predicate OwnerInv<T(==)>(owner: Owner<T>, head: int, tail: int, base: int, elems: seq<T>, mask: nat)
    requires |elems| == mask + 1
  {
    match owner
    case PushReadHead(_, t) => t == tail
    case PushWriteElem(_, t) => t == tail && t < MAX_SIZE && t - base <= mask
    case PushWriteTail(x, t) => t == tail && t < MAX_SIZE && t - base <= mask && At(elems, mask, t) == x
    case SyncPushReadTail(_, h) => h == head
    case SyncPushWriteHead(_, h, count) => h == And(head, mask) && count == tail - head
    case SyncPushWriteTail(_, h, count) => 0 <= h == head <= mask
    case SyncPushCheck(_, h, count) => 0 <= h == head <= mask && tail == h + count
    case SyncPushResetHead(_, count) => count < mask
    case SyncPushResetTail(_, count) => head == 0 && count < mask
    case SyncPushReadSlot(_, count) => count == tail - head && count < mask && head <= mask
    case SyncPushWriteElem(_, t) => t == tail && t - head < mask && head <= mask
    case SyncPushPublish(x, t) => t == tail && t - head < mask && head <= mask && At(elems, mask, t) == x
    case PopWriteTail(t) => t == tail - 1
    case PopReadHead(t) => t == tail
    case PopTake(t) => t == tail
    case PopRestore(t) => t == tail
    case SyncPopWriteTail(t) => t == tail - 1
    case SyncPopReadHead(t) => t == tail
    case SyncPopTake(t) => t == tail && head <= t
    case SyncPopRestore(t) => t == tail && head > t
    case SyncPopRecheck(t, found) => if found.Some? then head <= t == tail else head > t == tail - 1
    case SyncPopResetHead => head == tail
    case SyncPopResetTail => head == 0
    case SyncPopRelease(found) => found.Some? || head == tail == 0
    case Aborted(cause) => cause == SizeAssertion
    case _ => true
  }

  function IndexBound(mask: nat): int {
    if 2 * mask + 1 <= MAX_SIZE then MAX_SIZE else 2 * mask + 1
  }

  /** Mutual exclusion, the meaning of every thread's locals, and the bounds on all indices. */
  predicate Inv<T(==)>(s: State<T>) {
    && Shape(s)
    && PowerOfTwo(s.mask + 1)
    && s.mask < MAX_SIZE
    && (OwnerCritical(s.owner) <==> s.holder == ByOwner)
    && StealersInv(s.holder, s.stealers)
    && ThiefInv(ThiefOf(s), s.head)
    && OwnerInv(s.owner, s.head, s.tail, Base(s), s.elems, s.mask)
    && 0 <= s.head
    && -1 <= s.tail
    && 0 <= Base(s)
    && Low(s) <= High(s) <= Base(s) + s.mask + 1
    && High(s) <= IndexBound(s.mask)
  }

  // ---------------------------------------------------------------- windows of a ring

  /** Writing slot `t` leaves every window of earlier indices within one lap alone. */
  lemma WindowWrite<T>(elems: seq<T>, mask: nat, lo: int, hi: int, t: int, x: T)
    requires |elems| == mask + 1 && PowerOfTwo(mask + 1) && lo <= hi <= t <= lo + mask
    ensures Window(elems[And(t, mask) := x], mask, lo, hi) == Window(elems, mask, lo, hi)
  {
    hide And, PowerOfTwo;
    var w, w' := Window(elems, mask, lo, hi), Window(elems[And(t, mask) := x], mask, lo, hi);
    forall i | 0 <= i < |w|
      ensures w'[i] == w[i]
    {
      AndDistinct(lo + i, t, mask);
    }
  }

  lemma SlotShift<T>(elems: seq<T>, mask: nat, h: int, i: int)
    requires |elems| == mask + 1 && PowerOfTwo(mask + 1)
    ensures At(elems, mask, And(h, mask) + i) == At(elems, mask, h + i)
  {
    hide And, PowerOfTwo;
    AndShift(h, i, mask);
  }

  /** Reducing the head modulo the size moves the window but keeps its contents. */
  lemma WindowRenumber<T>(elems: seq<T>, mask: nat, h: int, count: nat)
    requires |elems| == mask + 1 && PowerOfTwo(mask + 1)
    ensures Window(elems, mask, And(h, mask), And(h, mask) + count) == Window(elems, mask, h, h + count)
  {
    hide And, PowerOfTwo;
    hide At;
    var g := And(h, mask);
    var w, w' := Window(elems, mask, h, h + count), Window(elems, mask, g, g + count);
    forall i | 0 <= i < |w|
      ensures w'[i] == w[i]
    {
      SlotShift(elems, mask, h, i);
    }
  }

  lemma NewSizeIsPowerOfTwo(mask: nat)
    requires PowerOfTwo(mask + 1)
    ensures PowerOfTwo(NewSize(mask)) && NewSize(mask) > 2 * mask + 1
  {
    if mask == 0 {
      Pow2IsPowerOfTwo(10);
    } else {
      assert NewSize(mask) / 2 == mask + 1;
    }
  }

  /** Copying into a larger array moves the window to the front and keeps its contents. */
  lemma WindowEnlarge<T>(elems: seq<T>, mask: nat, h: int, count: nat, newsize: nat, dflt: T)
    requires |elems| == mask + 1 && PowerOfTwo(newsize) && count < newsize
    ensures Window(Enlarged(elems, mask, h, count, newsize, dflt), newsize - 1, 0, count)
         == Window(elems, mask, h, h + count)
  {
    var big := Enlarged(elems, mask, h, count, newsize, dflt);
    var w, w' := Window(elems, mask, h, h + count), Window(big, newsize - 1, 0, count);
    forall i | 0 <= i < |w|
      ensures w'[i] == w[i]
    {
      AndSmall(i, newsize - 1);
    }
  }

  lemma SlotWrite<T>(elems: seq<T>, mask: nat, t: int, x: T)
    requires |elems| == mask + 1
    ensures At(elems[And(t, mask) := x], mask, t) == x
  {
    hide And;
  }

  /** Writing slot `t` does not disturb an element that a stealer has claimed but not read. */
  lemma ThiefKeepsClaim<T>(elems: seq<T>, mask: nat, thief: Stealer<T>, head: int, t: int, x: T)
    requires |elems| == mask + 1 && PowerOfTwo(mask + 1) && ThiefInv(thief, head)
    requires thief.StealTake? ==> head - 1 < t <= head - 1 + mask
    ensures ThiefClaim(elems[And(t, mask) := x], mask, thief) == ThiefClaim(elems, mask, thief)
  {
    hide And, PowerOfTwo;
    if thief.StealTake? {
      AndDistinct(thief.h, t, mask);
    }
  }

  lemma WindowEnds<T>(elems: seq<T>, mask: nat, lo: int, hi: int)
    requires |elems| == mask + 1 && lo < hi
    ensures Window(elems, mask, lo, hi) == [At(elems, mask, lo)] + Window(elems, mask, lo + 1, hi)
    ensures Window(elems, mask, lo, hi) == Window(elems, mask, lo, hi - 1) + [At(elems, mask, hi - 1)]
  {
    hide And;
    hide At;
    var w, tail := Window(elems, mask, lo, hi), Window(elems, mask, lo + 1, hi);
    forall i | 0 <= i < |tail|
      ensures tail[i] == w[i + 1]
    {
      assert lo + 1 + i == lo + (i + 1);
    }
  }

  // ---------------------------------------------------------------- every step keeps the invariant

  predicate Sound<T(==)>(s: State<T>, e: Event<T>, s': State<T>)
    requires Shape(s)
  {
    Inv(s') && Performs(Abstract(s), e, Abstract(s'))
  }

  lemma StaysQuiet<T>(s: State<T>, s': State<T>)
    requires Shape(s) && s' == s.(owner := s'.owner) && High(s') == High(s) && Low(s') == Low(s)
    requires OwnerClaim(s.elems, s.mask, s.owner) == OwnerClaim(s.elems, s.mask, s'.owner)
    ensures Performs(Abstract(s), Quiet, Abstract(s'))
  {
    hide And, At, Window, Thief, ThiefClaim, OwnerClaim, HighEnd, LowEnd;
  }

  lemma TakesBack<T>(s: State<T>, s': State<T>)
    requires Shape(s) && Low(s) < High(s)
    requires s' == s.(owner := s'.owner) && High(s') == High(s) - 1 && Low(s') == Low(s)
    requires OwnerClaim(s.elems, s.mask, s.owner) == multiset{}
    requires OwnerClaim(s.elems, s.mask, s'.owner) == multiset{At(s.elems, s.mask, High(s) - 1)}
    ensures Performs(Abstract(s), TookBack, Abstract(s'))
  {
    hide And, At, Window, Thief, ThiefClaim, OwnerClaim, HighEnd, LowEnd;
    WindowEnds(s.elems, s.mask, Low(s), High(s));
  }

  lemma PushReadTailSound<T>(s: State<T>)
    requires Inv(s) && (s.owner.PushReadTail?)
    ensures Sound(s, OwnerEvent(s), PushStep(s))
  {
    hide And, At, PowerOfTwo, Window, Thief, ThiefClaim, ThiefInv, StealersInv;
  }

  lemma PushReadHeadSound<T>(s: State<T>)
    requires Inv(s) && (s.owner.PushReadHead?)
    ensures Sound(s, OwnerEvent(s), PushStep(s))
  {
    hide And, At, PowerOfTwo, Window, Thief, ThiefClaim, ThiefInv, StealersInv;
  }

  lemma PushWriteElemSound<T>(s: State<T>)
    requires Inv(s) && (s.owner.PushWriteElem?)
    ensures Sound(s, OwnerEvent(s), PushStep(s))
  {
    hide And, At, PowerOfTwo, Window, Thief, ThiefClaim, ThiefInv, StealersInv;
    SlotWrite(s.elems, s.mask, s.owner.t, s.owner.x);
    WindowWrite(s.elems, s.mask, Low(s), High(s), s.owner.t, s.owner.x);
    ThiefKeepsClaim(s.elems, s.mask, ThiefOf(s), s.head, s.owner.t, s.owner.x);
  }

  lemma PushWriteTailSound<T>(s: State<T>)
    requires Inv(s) && (s.owner.PushWriteTail?)
    ensures Sound(s, OwnerEvent(s), PushStep(s))
  {
    hide And, At, PowerOfTwo, Window, Thief, ThiefClaim, ThiefInv, StealersInv;
    WindowEnds(s.elems, s.mask, Low(s), High(s) + 1);
  }

  lemma PopQuietSound<T>(s: State<T>)
    requires Inv(s) && (s.owner.PopReadTail? || s.owner.PopRestore?)
    ensures Sound(s, OwnerEvent(s), PopStep(s))
  {
    hide And, At, PowerOfTwo, Window, Thief, ThiefClaim, ThiefInv, StealersInv;
  }

  lemma PopWriteTailSound<T>(s: State<T>)
    requires Inv(s) && s.owner.PopWriteTail?
    ensures Sound(s, OwnerEvent(s), PopStep(s))
  {
    hide And, At, PowerOfTwo, Window, Thief, ThiefClaim, ThiefInv, StealersInv;
  }

  lemma PopReadHeadSound<T>(s: State<T>)
    requires Inv(s) && (s.owner.PopReadHead?)
    ensures Sound(s, OwnerEvent(s), PopStep(s))
  {
    hide And, At, PowerOfTwo, Window, Thief, ThiefClaim, ThiefInv, StealersInv, Performs, Abstract;
    if s.head <= s.owner.t {
      TakesBack(s, PopStep(s));
    } else {
      StaysQuiet(s, PopStep(s));
    }
  }

  lemma PopTakeSound<T>(s: State<T>)
    requires Inv(s) && (s.owner.PopTake?)
    ensures Sound(s, OwnerEvent(s), PopStep(s))
  {
    hide And, At, PowerOfTwo, Window, Thief, ThiefClaim, ThiefInv, StealersInv;
  }

  lemma SyncPopStartSound<T>(s: State<T>)
    requires Inv(s) && (s.owner.SyncPopAcquire? || s.owner.SyncPopReadTail? || s.owner.SyncPopWriteTail?)
    ensures Sound(s, OwnerEvent(s), SyncPopStep(s))
  {
    hide And, At, PowerOfTwo, Window;
  }

  lemma SyncPopDecidedSound<T>(s: State<T>)
    requires Inv(s) && (s.owner.SyncPopTake? || s.owner.SyncPopRestore?)
    ensures Sound(s, OwnerEvent(s), SyncPopStep(s))
  {
    hide And, At, PowerOfTwo, Window;
  }

  lemma SyncPopReadHeadSound<T>(s: State<T>)
    requires Inv(s) && (s.owner.SyncPopReadHead?)
    ensures Sound(s, OwnerEvent(s), SyncPopStep(s))
  {
    hide And, At, PowerOfTwo, Window, Thief, ThiefClaim, ThiefInv, StealersInv, Performs, Abstract;
    if s.head <= s.owner.t {
      TakesBack(s, SyncPopStep(s));
    } else {
      StaysQuiet(s, SyncPopStep(s));
    }
  }

  lemma SyncPopRecheckSound<T>(s: State<T>)
    requires Inv(s) && (s.owner.SyncPopRecheck?)
    ensures Sound(s, OwnerEvent(s), SyncPopStep(s))
  {
    hide And, At, PowerOfTwo, Window;
  }

  lemma SyncPopResetSound<T>(s: State<T>)
    requires Inv(s) && (s.owner.SyncPopResetHead? || s.owner.SyncPopResetTail?)
    ensures Sound(s, OwnerEvent(s), SyncPopStep(s))
  {
    hide And, At, PowerOfTwo, Window;
  }

  lemma SyncPopReleaseSound<T>(s: State<T>)
    requires Inv(s) && (s.owner.SyncPopRelease?)
    ensures Sound(s, OwnerEvent(s), SyncPopStep(s))
  {
    hide And, At, PowerOfTwo, Window;
  }

  lemma SyncPushQuietSound<T>(s: State<T>, dflt: T)
    requires Inv(s) && (s.owner.SyncPushAcquire? || s.owner.SyncPushReadHead? || s.owner.SyncPushReadTail?
        || s.owner.SyncPushWriteTail?)
    ensures Sound(s, OwnerEvent(s), SyncPushStep(s, dflt))
  {
    hide And, At, PowerOfTwo, Window;
  }

  lemma SyncPushWriteHeadSound<T>(s: State<T>, dflt: T)
    requires Inv(s) && (s.owner.SyncPushWriteHead?)
    ensures Sound(s, OwnerEvent(s), SyncPushStep(s, dflt))
  {
    hide And, At, PowerOfTwo, Window;
    WindowRenumber(s.elems, s.mask, s.head, s.owner.count);
  }

  lemma SyncPushCheckSound<T>(s: State<T>, dflt: T)
    requires Inv(s) && (s.owner.SyncPushCheck?)
    ensures Sound(s, OwnerEvent(s), SyncPushStep(s, dflt))
  {
    if s.owner.count >= s.mask && NewSize(s.mask) < MAX_SIZE {
      SyncPushGrowSound(s, dflt);
    } else {
      SyncPushNoGrowSound(s, dflt);
    }
  }

  lemma SyncPushNoGrowSound<T>(s: State<T>, dflt: T)
    requires Inv(s) && s.owner.SyncPushCheck? && !(s.owner.count >= s.mask && NewSize(s.mask) < MAX_SIZE)
    ensures Sound(s, OwnerEvent(s), SyncPushStep(s, dflt))
  {
    hide And, At, PowerOfTwo, Window, Enlarged, StealersInv;
  }

  lemma SyncPushGrowSound<T>(s: State<T>, dflt: T)
    requires Inv(s) && s.owner.SyncPushCheck? && s.owner.count >= s.mask && NewSize(s.mask) < MAX_SIZE
    ensures Sound(s, OwnerEvent(s), SyncPushStep(s, dflt))
    ensures |SyncPushStep(s, dflt).elems| == if |s.elems| == 1 then 1024 else 2 * |s.elems|
  {
    hide And, At, PowerOfTwo, Window, Enlarged, StealersInv;
    NewSizeIsPowerOfTwo(s.mask);
    WindowEnlarge(s.elems, s.mask, s.owner.h, s.owner.count, NewSize(s.mask), dflt);
    assert Queue(SyncPushStep(s, dflt)) == Queue(s);
  }

  lemma SyncPushEndSound<T>(s: State<T>, dflt: T)
    requires Inv(s) && (s.owner.SyncPushResetHead? || s.owner.SyncPushResetTail? || s.owner.SyncPushReadSlot?
        || s.owner.SyncPushRelease? || s.owner.Aborted?)
    ensures Sound(s, OwnerEvent(s), SyncPushStep(s, dflt))
  {
    hide And, At, PowerOfTwo, Window;
  }

  lemma SyncPushWriteElemSound<T>(s: State<T>, dflt: T)
    requires Inv(s) && (s.owner.SyncPushWriteElem?)
    ensures Sound(s, OwnerEvent(s), SyncPushStep(s, dflt))
  {
    hide And, At, PowerOfTwo, Window;
    SlotWrite(s.elems, s.mask, s.owner.t, s.owner.x);
    WindowWrite(s.elems, s.mask, Low(s), High(s), s.owner.t, s.owner.x);
  }

  lemma SyncPushPublishSound<T>(s: State<T>, dflt: T)
    requires Inv(s) && (s.owner.SyncPushPublish?)
    ensures Sound(s, OwnerEvent(s), SyncPushStep(s, dflt))
  {
    hide And, At, PowerOfTwo, Window;
    WindowEnds(s.elems, s.mask, Low(s), High(s) + 1);
  }

  lemma StealIdleSound<T>(s: State<T>, i: nat)
    requires Inv(s) && i < |s.stealers| && (s.stealers[i].StealIdle?)
    ensures Sound(s, StealEvent(s, i), StealStep(s, i))
  {
    hide And, At, PowerOfTwo, Window, OwnerClaim, HighEnd, OwnerCritical;
    assert ThiefOf(StealStep(s, i)) == ThiefOf(s);
  }

  lemma StealAcquireSound<T>(s: State<T>, i: nat)
    requires Inv(s) && i < |s.stealers| && (s.stealers[i].StealAcquire?)
    ensures Sound(s, StealEvent(s, i), StealStep(s, i))
  {
    hide And, At, PowerOfTwo, Window, OwnerClaim, HighEnd, OwnerCritical;
  }

  lemma StealReadHeadSound<T>(s: State<T>, i: nat)
    requires Inv(s) && i < |s.stealers| && (s.stealers[i].StealReadHead?)
    ensures Sound(s, StealEvent(s, i), StealStep(s, i))
  {
    hide And, At, PowerOfTwo, Window, OwnerClaim, HighEnd, OwnerCritical;
  }

  lemma StealWriteHeadSound<T>(s: State<T>, i: nat)
    requires Inv(s) && i < |s.stealers| && (s.stealers[i].StealWriteHead?)
    ensures Sound(s, StealEvent(s, i), StealStep(s, i))
  {
    hide And, At, PowerOfTwo, Window, OwnerClaim;
  }

  lemma StealClaimSound<T>(s: State<T>, i: nat)
    requires Inv(s) && i < |s.stealers| && s.stealers[i].StealReadTail? && s.stealers[i].h < s.tail
    ensures Sound(s, StealEvent(s, i), StealStep(s, i))
  {
    hide And, At, PowerOfTwo, Window, OwnerClaim;
    var s' := StealStep(s, i);
    assert ThiefOf(s) == s.stealers[i] && ThiefOf(s') == s'.stealers[i];
    WindowEnds(s.elems, s.mask, Low(s), High(s));
  }

  lemma StealMissSound<T>(s: State<T>, i: nat)
    requires Inv(s) && i < |s.stealers| && s.stealers[i].StealReadTail? && s.stealers[i].h >= s.tail
    ensures Sound(s, StealEvent(s, i), StealStep(s, i))
  {
    hide And, At, PowerOfTwo, Window, OwnerClaim;
    var s' := StealStep(s, i);
    assert ThiefOf(s) == s.stealers[i] && ThiefOf(s') == s'.stealers[i];
  }

  lemma StealTakeSound<T>(s: State<T>, i: nat)
    requires Inv(s) && i < |s.stealers| && (s.stealers[i].StealTake?)
    ensures Sound(s, StealEvent(s, i), StealStep(s, i))
  {
    hide And, At, PowerOfTwo, Window, OwnerClaim, HighEnd, OwnerCritical;
  }

  lemma StealRestoreSound<T>(s: State<T>, i: nat)
    requires Inv(s) && i < |s.stealers| && (s.stealers[i].StealRestore?)
    ensures Sound(s, StealEvent(s, i), StealStep(s, i))
  {
    hide And, At, PowerOfTwo, Window, OwnerClaim;
  }

  lemma StealReleaseSound<T>(s: State<T>, i: nat)
    requires Inv(s) && i < |s.stealers| && (s.stealers[i].StealRelease?)
    ensures Sound(s, StealEvent(s, i), StealStep(s, i))
  {
    hide And, At, PowerOfTwo, Window, OwnerClaim, HighEnd, OwnerCritical;
  }

  // ---------------------------------------------------------------- whole steps and whole runs

  lemma OwnerSound<T>(s: State<T>, cmd: Command<T>, dflt: T)
    requires Inv(s)
    ensures Sound(s, OwnerEvent(s), Step(s, OwnerMoves(cmd), dflt))
  {
    hide Inv, Sound, OwnerEvent, PushStep, PopStep, SyncPopStep, SyncPushStep;
    if s.owner.Idle? {
      IdleSound(s, cmd, dflt);
    } else {
      match s.owner {
        case PushReadTail(_) => PushReadTailSound(s);
        case PushReadHead(_, _) => PushReadHeadSound(s);
        case PushWriteElem(_, _) => PushWriteElemSound(s);
        case PushWriteTail(_, _) => PushWriteTailSound(s);
        case PopReadTail | PopRestore(_) => PopQuietSound(s);
        case PopWriteTail(_) => PopWriteTailSound(s);
        case PopReadHead(_) => PopReadHeadSound(s);
        case PopTake(_) => PopTakeSound(s);
        case SyncPopAcquire | SyncPopReadTail | SyncPopWriteTail(_) => SyncPopStartSound(s);
        case SyncPopReadHead(_) => SyncPopReadHeadSound(s);
        case SyncPopTake(_) | SyncPopRestore(_) => SyncPopDecidedSound(s);
        case SyncPopRecheck(_, _) => SyncPopRecheckSound(s);
        case SyncPopResetHead | SyncPopResetTail => SyncPopResetSound(s);
        case SyncPopRelease(_) => SyncPopReleaseSound(s);
        case SyncPushAcquire(_) | SyncPushReadHead(_) | SyncPushReadTail(_, _) | SyncPushWriteTail(_, _, _) =>
          SyncPushQuietSound(s, dflt);
        case SyncPushWriteHead(_, _, _) => SyncPushWriteHeadSound(s, dflt);
        case SyncPushCheck(_, _, _) => SyncPushCheckSound(s, dflt);
        case SyncPushWriteElem(_, _) => SyncPushWriteElemSound(s, dflt);
        case SyncPushPublish(_, _) => SyncPushPublishSound(s, dflt);
        case _ => SyncPushEndSound(s, dflt);
      }
    }
  }

  lemma IdleSound<T>(s: State<T>, cmd: Command<T>, dflt: T)
    requires Inv(s) && s.owner.Idle?
    ensures Sound(s, OwnerEvent(s), Step(s, OwnerMoves(cmd), dflt))
  {
    hide And, At, PowerOfTwo, Window, Thief, ThiefClaim, ThiefInv, StealersInv;
  }

  lemma StealSound<T>(s: State<T>, i: nat)
    requires Inv(s) && i < |s.stealers|
    ensures Sound(s, StealEvent(s, i), StealStep(s, i))
  {
    hide Inv, Sound, StealEvent, StealStep;
    match s.stealers[i] {
      case StealIdle => StealIdleSound(s, i);
      case StealAcquire => StealAcquireSound(s, i);
      case StealReadHead => StealReadHeadSound(s, i);
      case StealWriteHead(_) => StealWriteHeadSound(s, i);
      case StealReadTail(_) => if s.stealers[i].h < s.tail { StealClaimSound(s, i); } else { StealMissSound(s, i); }
      case StealTake(_) => StealTakeSound(s, i);
      case StealRestore(_) => StealRestoreSound(s, i);
      case StealRelease(_) => StealReleaseSound(s, i);
    }
  }

  /** Every step keeps the invariant and does to the atomic deque exactly what its event says. */
  lemma StepSound<T>(s: State<T>, c: Choice<T>, dflt: T)
    requires Inv(s)
    ensures Sound(s, EventOf(s, c), Step(s, c, dflt))
  {
    match c {
      case OwnerMoves(cmd) => OwnerSound(s, cmd, dflt);
      case StealerMoves(i) =>
        if i < |s.stealers| {
          StealSound(s, i);
        }
    }
  }

  /** Nothing is lost, duplicated or invented. */
  predicate Conserved<T(==)>(d: Deque<T>) {
    d.pushed == d.returned + d.claimed + multiset(d.queue)
  }

  lemma InitialInv<T>(size: nat, stealers: nat, dflt: T)
    requires PowerOfTwo(size) && size <= MAX_SIZE
    ensures Inv(Initial(size, stealers, dflt))
    ensures Conserved(Abstract(Initial(size, stealers, dflt)))
  {
    hide PowerOfTwo;
  }

  lemma Transfer<T>(p: multiset<T>, r: multiset<T>, c: multiset<T>, q: multiset<T>, x: T)
    requires p == r + c + (q + multiset{x})
    ensures p == r + (c + multiset{x}) + q
  {
  }

  lemma HandOver<T>(p: multiset<T>, r: multiset<T>, c: multiset<T>, q: multiset<T>, v: T)
    requires p == r + c + q && v in c
    ensures p == (r + multiset{v}) + (c - multiset{v}) + q
  {
  }

  lemma OneElementMore<T>(xs: seq<T>, x: T)
    ensures multiset(xs + [x]) == multiset([x] + xs) == multiset(xs) + multiset{x}
  {
  }

  lemma TakeConserves<T>(a: Deque<T>, e: Event<T>, b: Deque<T>)
    requires Performs(a, e, b) && Conserved(a) && (e.TookBack? || e.TookFront?)
    ensures Conserved(b)
  {
    var x := if e.TookBack? then a.queue[|a.queue| - 1] else a.queue[0];
    assert a.queue == if e.TookBack? then b.queue + [x] else [x] + b.queue;
    OneElementMore(b.queue, x);
    Transfer(a.pushed, a.returned, a.claimed, multiset(b.queue), x);
  }

  lemma EventConserves<T>(a: Deque<T>, e: Event<T>, b: Deque<T>)
    requires Performs(a, e, b) && Conserved(a)
    ensures Conserved(b)
  {
    match e {
      case Quiet =>
      case Pushed(x) =>
        assert multiset(b.queue) == multiset(a.queue) + multiset{x};
      case TookBack => TakeConserves(a, e, b);
      case TookFront => TakeConserves(a, e, b);
      case Returned(v) =>
        HandOver(a.pushed, a.returned, a.claimed, multiset(a.queue), v);
    }
  }

  /** In every run of one owner and any number of stealers, the pushed elements are exactly those
      returned, those claimed by an unfinished operation and those still queued. */
  lemma {:induction false} RunConserves<T>(size: nat, stealers: nat, dflt: T, schedule: seq<Choice<T>>)
    requires PowerOfTwo(size) && size <= MAX_SIZE
    ensures var s := Exec(Initial(size, stealers, dflt), schedule, dflt);
            Inv(s) && Conserved(Abstract(s))
  {
    hide Inv, PowerOfTwo, Abstract, Performs, Conserved, Step;
    if schedule == [] {
      InitialInv(size, stealers, dflt);
    } else {
      var before, c := schedule[..|schedule| - 1], schedule[|schedule| - 1];
      RunConserves(size, stealers, dflt, before);
      var s := Exec(Initial(size, stealers, dflt), before, dflt);
      StepSound(s, c, dflt);
      EventConserves(Abstract(s), EventOf(s, c), Abstract(Step(s, c, dflt)));
    }
  }

  // ---------------------------------------------------------------- failures, assertions and bounds

  /** A `Steal` that is about to fail saw an empty deque, or a single element that a `Pop` is after. */
  lemma StealFailsTruthfully<T>(s: State<T>, i: nat)
    requires Inv(s) && i < |s.stealers| && s.stealers[i].StealReadTail? && StealStep(s, i).stealers[i].StealRestore?
    ensures Queue(s) == [] || (|Queue(s)| == 1 && (s.owner.PopReadHead? || s.owner.PopRestore?))
  {
    hide And, At, PowerOfTwo, OwnerInv, OwnerClaim;
    assert ThiefOf(s) == s.stealers[i];
  }

  /** A `Push` takes the lock only when the ring has no place left or the indices are too large. */
  lemma PushTakesLock<T>(s: State<T>)
    requires Inv(s) && s.owner.PushReadHead?
    ensures PushStep(s).owner.SyncPushAcquire? ==> |Queue(s)| >= s.mask || s.tail >= 0x10_0000
    ensures PushStep(s).owner.PushWriteElem? ==> |Queue(s)| <= s.mask
  {
    hide And, At, PowerOfTwo, StealersInv;
  }

  /** A `Pop` returns nothing only from an empty deque, whose indices it has set back to zero. */
  lemma PopFailsTruthfully<T>(s: State<T>)
    requires Inv(s) && s.owner == SyncPopRelease(None)
    ensures Queue(s) == [] && s.head == s.tail == 0
  {
    hide And, At, PowerOfTwo, StealersInv;
  }

  /** `assert(newsize < MaxSize)` fails exactly when the deque fills a ring that may not be doubled. */
  lemma AbortsExactlyWhenFull<T>(s: State<T>, dflt: T)
    requires Inv(s) && s.owner.SyncPushCheck?
    ensures SyncPushStep(s, dflt).owner.Aborted?
       <==> |Queue(s)| >= s.mask && 2 * (s.mask + 1) >= 0x10_0000
  {
    hide And, At, PowerOfTwo, StealersInv;
  }

  /** `assert(count < mask)` never fails, and the other assertion cannot fail below 2^19 - 1 elements. */
  lemma {:induction false} NoAssertionFails<T>(size: nat, stealers: nat, dflt: T, schedule: seq<Choice<T>>)
    requires PowerOfTwo(size) && size <= MAX_SIZE
    requires forall k | 0 <= k <= |schedule| ::
               |Queue(Exec(Initial(size, stealers, dflt), schedule[..k], dflt))| < 0x7_ffff
    ensures !Exec(Initial(size, stealers, dflt), schedule, dflt).owner.Aborted?
  {
    hide Inv, PowerOfTwo, Queue, Conserved, Abstract;
    if schedule != [] {
      var n := |schedule| - 1;
      assert forall k | 0 <= k <= n :: schedule[..n][..k] == schedule[..k];
      NoAssertionFails(size, stealers, dflt, schedule[..n]);
      RunConserves(size, stealers, dflt, schedule[..n]);
      StepAborts(Exec(Initial(size, stealers, dflt), schedule[..n], dflt), schedule[n], dflt);
    }
  }

  lemma StepAborts<T>(s: State<T>, c: Choice<T>, dflt: T)
    requires Inv(s) && !s.owner.Aborted? && |Queue(s)| < MAX_SIZE / 2 - 1
    ensures !Step(s, c, dflt).owner.Aborted?
  {
    hide And, At, PowerOfTwo, StealersInv, Queue;
    if c.OwnerMoves? && s.owner.SyncPushCheck? {
      AbortsExactlyWhenFull(s, dflt);
    }
  }

  /** From a start size below the maximum, the ring stays at or below half of it and no index exceeds it. */
  lemma {:induction false} RunBounds<T>(size: nat, stealers: nat, dflt: T, schedule: seq<Choice<T>>)
    requires PowerOfTwo(size) && size < MAX_SIZE
    ensures var s := Exec(Initial(size, stealers, dflt), schedule, dflt);
            && PowerOfTwo(s.mask + 1) && 2 * (s.mask + 1) <= 0x10_0000
            && 0 <= Low(s) <= High(s) <= 0x10_0000
  {
    hide PowerOfTwo, Conserved, Abstract, Inv, Low, High, Exec;
    RunConserves(size, stealers, dflt, schedule);
    RunMask(size, stealers, dflt, schedule);
    InvBounds(Exec(Initial(size, stealers, dflt), schedule, dflt));
  }

  lemma InvBounds<T>(s: State<T>)
    requires Inv(s) && s.mask + 1 < MAX_SIZE
    ensures PowerOfTwo(s.mask + 1) && 2 * (s.mask + 1) <= MAX_SIZE
    ensures 0 <= Low(s) <= High(s) <= MAX_SIZE
  {
    hide PowerOfTwo, And, At, OwnerInv, StealersInv, HighEnd;
    MaxSizeIsPowerOfTwo();
    PowerOfTwoGap(s.mask + 1, MAX_SIZE);
  }

  lemma MaxSizeIsPowerOfTwo()
    ensures PowerOfTwo(MAX_SIZE)
  {
    Pow2IsPowerOfTwo(20);
    assert Pow2(10) == 1024;
    Pow2Add(10, 10);
  }

  lemma StepMask<T>(s: State<T>, c: Choice<T>, dflt: T)
    requires Shape(s) && s.mask + 1 < MAX_SIZE
    ensures Step(s, c, dflt).mask + 1 < MAX_SIZE
  {
    hide And, At;
  }

  lemma {:induction false} RunMask<T>(size: nat, stealers: nat, dflt: T, schedule: seq<Choice<T>>)
    requires PowerOfTwo(size) && size < MAX_SIZE
    ensures Exec(Initial(size, stealers, dflt), schedule, dflt).mask + 1 < MAX_SIZE
  {
    hide PowerOfTwo, Step;
    if schedule != [] {
      var before := schedule[..|schedule| - 1];
      RunMask(size, stealers, dflt, before);
      StepMask(Exec(Initial(size, stealers, dflt), before, dflt), schedule[|schedule| - 1], dflt);
    }
  }

  /** Whoever holds the lock can take its next step, so waiting for the lock is never waiting for a waiter. */
  lemma HolderCanStep<T>(s: State<T>, dflt: T)
    requires Inv(s) && s.holder != Free && !s.owner.Aborted?
    ensures s.holder == ByOwner ==> Step(s, OwnerMoves(Nothing), dflt) != s
    ensures s.holder.ByStealer? ==> Step(s, StealerMoves(s.holder.id), dflt) != s
  {
    hide And, At, PowerOfTwo, Window, OwnerInv;
    match s.holder {
      case ByStealer(id) =>
        assert StealerCritical(s.stealers[id]);
        assert Step(s, StealerMoves(id), dflt).stealers[id] != s.stealers[id];
      case ByOwner =>
        assert Step(s, OwnerMoves(Nothing), dflt).owner != s.owner;
    }
  }

  // ---------------------------------------------------------------- the copying loops of SyncPush

  /** The allocation and the two loops that build the enlarged array. */
  method CopyToLarger<T(0)>(elems: array<T>, mask: nat, h: nat, count: nat, newsize: nat, dflt: T)
    returns (newtasks: array<T>)
    requires elems.Length == mask + 1 && count <= newsize
    ensures fresh(newtasks) && newtasks[..] == Enlarged(elems[..], mask, h, count, newsize, dflt)
  {
    newtasks := new T[newsize];
    for i := 0 to newsize
      invariant forall j | 0 <= j < i :: newtasks[j] == dflt
    {
      newtasks[i] := dflt;
    }
    for i := 0 to count
      invariant forall j | 0 <= j < i :: newtasks[j] == At(elems[..], mask, h + j)
      invariant forall j | i <= j < newsize :: newtasks[j] == dflt
    {
      newtasks[i] := elems[And(h + i, mask)];
    }
  }
}
