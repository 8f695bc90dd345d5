/** The multi-producer ring. */
module BufRing {
  // Any number of enqueuers and dequeuers share the ring, with both fixes and without the debugging checks.  Head and
  // tail registers are 32-bit and wrap around.  Each shared access is one step of one thread, and a run is any schedule
  // of any number of threads.

  import opened Arith

  /** Where a thread stands in `buf_ring_enqueue_bytes` or `buf_ring_dequeue_mc`.  The fields
      `prodHead`, `consTail`, `consHead`, `prodTail` are its 32-bit locals.  Before the
      compare-and-set, `k` and `c` record which ticket such a local was read at, and `full` and
      `empty` what was true of the ring when the second register was read; after it, `k` is the
      ticket drawn.  No step depends on them. */
  datatype Pc<T> =
    | Idle
    | EnqReadHead(x: T)
    | EnqReadTail(x: T, prodHead: nat, k: nat)
    | EnqCas(x: T, prodHead: nat, consTail: nat, k: nat, c: nat, full: bool)
    | EnqWrite(x: T, prodHead: nat, k: nat)
    | EnqWait(prodHead: nat, k: nat)
    | EnqPublish(prodHead: nat, k: nat)
    | DeqReadHead
    | DeqReadTail(consHead: nat, k: nat)
    | DeqCas(consHead: nat, prodTail: nat, k: nat, c: nat, empty: bool)
    | DeqRead(consHead: nat, k: nat)
    | DeqWait(consHead: nat, k: nat, v: T)
    | DeqPublish(consHead: nat, k: nat, v: T)

  /** The shared ring.  `ph`, `pt`, `ch`, `ct` count how often each register was advanced, `entered`
      lists the values in the order in which enqueuers drew tickets, `left` the returned values in
      the order of return, and `prodBy` and `consBy` the threads that drew each ticket.  These
      record the history of the run; no step depends on them. */
  datatype Ring<T> = Ring(
    size: nat, slots: seq<T>, prodHead: nat, prodTail: nat, consHead: nat, consTail: nat,
    ph: nat, pt: nat, ch: nat, ct: nat,
    entered: seq<T>, left: seq<T>, prodBy: seq<nat>, consBy: seq<nat>)

  datatype State<T> = State(ring: Ring<T>, pcs: seq<Pc<T>>)

  datatype Command<T> = Nothing | Enqueue(x: T) | Dequeue
  datatype Choice<T> = Choice(i: nat, cmd: Command<T>)

  function Next(register: nat): nat {
    (register + 1) % WORD
  }

  /** 32-bit unsigned subtraction. */
  function Minus(a: int, b: int): int {
    (a - b) % WORD
  }

  predicate Shape<T>(r: Ring<T>) {
    |r.slots| == r.size && r.size > 0
  }

  // ---------------------------------------------------------------- the steps of the source

  function EnqueueStep<T>(r: Ring<T>, i: nat, pc: Pc<T>): (res: (Ring<T>, Pc<T>))
    requires Shape(r)
    ensures Shape(res.0)
  {
    match pc
    case EnqReadHead(x) => (r, EnqReadTail(x, r.prodHead, r.ph))
    case EnqReadTail(x, prodHead, k) =>
      (r, EnqCas(x, prodHead, r.consTail, k, r.ct, r.ph - r.ct == r.size))
    case EnqCas(x, prodHead, consTail, _, _, _) =>
      if Minus(prodHead, consTail) == r.size then (r, Idle)
      else if r.prodHead == prodHead then
        (r.(prodHead := Next(prodHead), ph := r.ph + 1, entered := r.entered + [x], prodBy := r.prodBy + [i]),
         EnqWrite(x, prodHead, r.ph))
      else (r, EnqReadHead(x))
    case EnqWrite(x, prodHead, k) =>
      (r.(slots := r.slots[And(prodHead, r.size - 1) := x]), EnqWait(prodHead, k))
    case EnqWait(prodHead, k) =>
      if r.prodTail == prodHead then (r, EnqPublish(prodHead, k)) else (r, pc)
    case EnqPublish(prodHead, _) =>
      (r.(prodTail := Next(prodHead), pt := r.pt + 1), Idle)
    case _ => (r, pc)
  }

  function DequeueStep<T>(r: Ring<T>, i: nat, pc: Pc<T>): (res: (Ring<T>, Pc<T>))
    requires Shape(r)
    ensures Shape(res.0)
  {
    match pc
    case DeqReadHead => (r, DeqReadTail(r.consHead, r.ch))
    case DeqReadTail(consHead, k) => (r, DeqCas(consHead, r.prodTail, k, r.pt, r.ch == r.pt))
    case DeqCas(consHead, prodTail, _, _, _) =>
      if consHead == prodTail then (r, Idle)
      else if r.consHead == consHead then
        (r.(consHead := Next(consHead), ch := r.ch + 1, consBy := r.consBy + [i]), DeqRead(consHead, r.ch))
      else (r, DeqReadHead)
    case DeqRead(consHead, k) => (r, DeqWait(consHead, k, r.slots[And(consHead, r.size - 1)]))
    case DeqWait(consHead, k, v) =>
      if r.consTail == consHead then (r, DeqPublish(consHead, k, v)) else (r, pc)
    case DeqPublish(consHead, _, v) =>
      (r.(consTail := Next(consHead), ct := r.ct + 1, left := r.left + [v]), Idle)
    case _ => (r, pc)
  }

  function ThreadStep<T>(r: Ring<T>, i: nat, pc: Pc<T>, cmd: Command<T>): (res: (Ring<T>, Pc<T>))
    requires Shape(r)
    ensures Shape(res.0)
  {
    match pc
    case Idle =>
      (match cmd
       case Nothing => (r, Idle)
       case Enqueue(x) => (r, EnqReadHead(x))
       case Dequeue => (r, DeqReadHead))
    case DeqReadHead | DeqReadTail(_, _) | DeqCas(_, _, _, _, _) | DeqRead(_, _) | DeqWait(_, _, _)
        | DeqPublish(_, _, _) =>
      DequeueStep(r, i, pc)
    case _ => EnqueueStep(r, i, pc)
  }

  function Step<T>(s: State<T>, c: Choice<T>): (s': State<T>)
    requires Shape(s.ring)
    ensures Shape(s'.ring)
  {
    if c.i < |s.pcs| then
      var (r, pc) := ThreadStep(s.ring, c.i, s.pcs[c.i], c.cmd);
      State(r, s.pcs[c.i := pc])
    else s
  }

  function Initial<T>(size: nat, threads: nat, dflt: T): (s: State<T>)
    requires size > 0
    ensures Shape(s.ring)
  {
    State(Ring(size, seq(size, i => dflt), 0, 0, 0, 0, 0, 0, 0, 0, [], [], [], []), seq(threads, i => Idle))
  }

  function Exec<T>(s: State<T>, schedule: seq<Choice<T>>): (s': State<T>)
    requires Shape(s.ring)
    ensures Shape(s'.ring)
  {
    if schedule == [] then s
    else Step(Exec(s, schedule[..|schedule| - 1]), schedule[|schedule| - 1])
  }

  // ---------------------------------------------------------------- the invariant

  /** The slot of ticket `k`. */
  ghost function Slot<T>(r: Ring<T>, k: nat): T
    requires Shape(r)
  {
    r.slots[And(k, r.size - 1)]
  }

  ghost predicate Counters<T>(r: Ring<T>) {
    && r.ct <= r.ch <= r.pt <= r.ph <= r.ct + r.size
    && r.prodHead == r.ph % WORD && r.prodTail == r.pt % WORD
    && r.consHead == r.ch % WORD && r.consTail == r.ct % WORD
    && |r.entered| == |r.prodBy| == r.ph && |r.consBy| == r.ch && |r.left| == r.ct
  }

  ghost predicate Contents<T>(r: Ring<T>)
    requires Shape(r) && Counters(r)
  {
    && r.left == r.entered[..r.ct]
    && forall k | r.ct <= k < r.pt :: Slot(r, k) == r.entered[k]
  }

  ghost predicate RingInv<T>(r: Ring<T>) {
    && PowerOfTwo(r.size) && r.size <= WORD / 2
    && Shape(r) && Counters(r) && Contents(r)
  }

  ghost predicate HoldsProd<T>(pc: Pc<T>, k: nat) {
    (pc.EnqWrite? || pc.EnqWait? || pc.EnqPublish?) && pc.k == k
  }

  ghost predicate HoldsCons<T>(pc: Pc<T>, k: nat) {
    (pc.DeqRead? || pc.DeqWait? || pc.DeqPublish?) && pc.k == k
  }

  ghost predicate Ticketed<T>(pc: Pc<T>) {
    pc.EnqWrite? || pc.EnqWait? || pc.EnqPublish? || pc.DeqRead? || pc.DeqWait? || pc.DeqPublish?
  }

  /** What the locals of thread `i` mean. */
  ghost predicate ThreadInv<T>(r: Ring<T>, i: nat, pc: Pc<T>)
    requires Shape(r) && Counters(r)
  {
    match pc
    case EnqReadTail(_, prodHead, k) => prodHead == k % WORD && k <= r.ph
    case EnqCas(_, prodHead, consTail, k, c, full) =>
      && prodHead == k % WORD && k <= r.ph && consTail == c % WORD && c <= r.ct
      && k <= c + r.size && (k == c + r.size ==> full)
    case EnqWrite(x, prodHead, k) => ProdTicket(r, i, prodHead, k) && r.entered[k] == x
    case EnqWait(prodHead, k) => ProdTicket(r, i, prodHead, k) && Slot(r, k) == r.entered[k]
    case EnqPublish(prodHead, k) => ProdTicket(r, i, prodHead, k) && Slot(r, k) == r.entered[k] && k == r.pt
    case DeqReadTail(consHead, k) => consHead == k % WORD && k <= r.ch
    case DeqCas(consHead, prodTail, k, c, empty) =>
      && consHead == k % WORD && k <= r.ch && prodTail == c % WORD && c <= r.pt
      && k <= c && (k == c ==> empty)
    case DeqRead(consHead, k) => ConsTicket(r, i, consHead, k)
    case DeqWait(consHead, k, v) => ConsTicket(r, i, consHead, k) && v == r.entered[k]
    case DeqPublish(consHead, k, v) => ConsTicket(r, i, consHead, k) && v == r.entered[k] && k == r.ct
    case _ => true
  }

  /** Thread `i` drew producer ticket `k` and has not published it. */
  ghost predicate ProdTicket<T>(r: Ring<T>, i: nat, prodHead: nat, k: nat)
    requires Counters(r)
  {
    prodHead == k % WORD && r.pt <= k < r.ph && r.prodBy[k] == i
  }

  ghost predicate ConsTicket<T>(r: Ring<T>, i: nat, consHead: nat, k: nat)
    requires Counters(r)
  {
    consHead == k % WORD && r.ct <= k < r.ch && r.consBy[k] == i
  }

  /** Every ticket drawn but not published is held by a thread that is past its compare-and-set. */
  ghost predicate Holders<T>(r: Ring<T>, pcs: seq<Pc<T>>)
    requires Counters(r)
  {
    && (forall k | r.pt <= k < r.ph :: r.prodBy[k] < |pcs| && HoldsProd(pcs[r.prodBy[k]], k))
    && (forall k | r.ct <= k < r.ch :: r.consBy[k] < |pcs| && HoldsCons(pcs[r.consBy[k]], k))
  }

  ghost predicate Inv<T>(s: State<T>) {
    && RingInv(s.ring)
    && (forall i | 0 <= i < |s.pcs| :: ThreadInv(s.ring, i, s.pcs[i]))
    && Holders(s.ring, s.pcs)
  }

  /** The mover is about to draw a ticket that the ring does not have: it is full, or empty, but its head has come back
      to the register the mover read, and the mover's two reads do not show it. */
  ghost predicate Overruns<T>(r: Ring<T>, pc: Pc<T>) {
    match pc
    case EnqCas(_, prodHead, consTail, k, _, _) =>
      r.ph == r.ct + r.size && (r.ph - k) % WORD == 0 && Minus(prodHead, consTail) != r.size
    case DeqCas(consHead, prodTail, k, _, _) =>
      r.ch == r.pt && (r.ch - k) % WORD == 0 && consHead != prodTail
    case _ => false
  }

  /** No retry loop has been overtaken by 2^32 tickets since it read its register. */
  ghost predicate Fresh<T>(r: Ring<T>, pc: Pc<T>) {
    match pc
    case EnqCas(_, _, _, k, _, _) => r.ph - k < WORD
    case DeqCas(_, _, k, _, _) => r.ch - k < WORD
    case _ => true
  }

  // ---------------------------------------------------------------- 32-bit arithmetic

  /** Masking a 32-bit register selects the slot of the unbounded ticket. */
  lemma SlotOfRegister(k: nat, size: nat)
    requires PowerOfTwo(size) && size <= WORD / 2
    ensures And(k % WORD, size - 1) == And(k, size - 1)
  {
    WordIsPowerOfTwo();
    AndLowBits(k, size - 1, WORD);
  }

  lemma WordIsPowerOfTwo()
    ensures PowerOfTwo(WORD)
  {
    hide PowerOfTwo;
    assert Pow2(8) == 256;
    Pow2Add(8, 8);
    Pow2Add(16, 16);
    Pow2IsPowerOfTwo(32);
  }

  /** Registers that count fewer than 2^32 steps apart are equal only if the counts are. */
  lemma SameRegister(a: nat, b: nat)
    requires -WORD < a - b < WORD && a % WORD == b % WORD
    ensures a == b
  {
    SameSlot(a, b, WORD);
  }

  lemma NextRegister(a: nat)
    ensures Next(a % WORD) == (a + 1) % WORD
  {
    ModShift(a, 1, WORD);
  }

  lemma LapsApart(a: nat, b: nat)
    requires b <= a
    ensures a % WORD == b % WORD <==> (a - b) % WORD == 0
  {
    if a % WORD == b % WORD {
      ModUnique(a - b, WORD, a / WORD - b / WORD, 0);
    }
    if (a - b) % WORD == 0 {
      ModUnique(a, WORD, (a - b) / WORD + b / WORD, b % WORD);
    }
  }

  /** The full test on wrapped registers decides whether the tickets differ by the size, up to whole laps. */
  lemma FullTest(k: nat, c: nat, size: nat)
    requires 0 < size <= WORD / 2 && k <= c + size
    ensures Minus(k % WORD, c % WORD) == size <==> (c + size - k) % WORD == 0
    ensures k == c + size ==> Minus(k % WORD, c % WORD) == size
    ensures c + size - k < WORD ==> (Minus(k % WORD, c % WORD) == size <==> k == c + size)
  {
    var d, e := k % WORD - c % WORD, c + size - k;
    var q := k / WORD - c / WORD;
    assert e == size - d - WORD * q;
    if e % WORD == 0 {
      ModUnique(d, WORD, -q - e / WORD, size);
    }
    if d % WORD == size {
      ModUnique(e, WORD, -(d / WORD) - q, 0);
    }
    if e < WORD {
      ModUnique(e, WORD, 0, e);
    }
  }

  lemma DistinctSlots(a: int, b: int, size: int)
    requires PowerOfTwo(size) && a != b && -size < a - b < size
    ensures And(a, size - 1) != And(b, size - 1)
  {
    if a < b {
      AndDistinct(a, b, size - 1);
    } else {
      AndDistinct(b, a, size - 1);
    }
  }

  // ---------------------------------------------------------------- every step keeps the invariant

  /** Reading a register changes nothing that is shared. */
  lemma ReadsKeepInv<T>(s: State<T>, i: nat, cmd: Command<T>)
    requires Inv(s) && i < |s.pcs|
    requires s.pcs[i].Idle? || s.pcs[i].EnqReadHead? || s.pcs[i].EnqReadTail? || s.pcs[i].DeqReadHead?
        || s.pcs[i].DeqReadTail?
    ensures Inv(Step(s, Choice(i, cmd)))
  {
    hide And, PowerOfTwo;
  }

  /** A thread that holds no ticket may move to any position whose locals are right. */
  lemma MoveKeepsInv<T>(s: State<T>, i: nat, pc: Pc<T>)
    requires Inv(s) && i < |s.pcs| && ThreadInv(s.ring, i, pc)
    requires !Ticketed(s.pcs[i])
    ensures Inv(State(s.ring, s.pcs[i := pc]))
  {
    hide And, PowerOfTwo;
  }

  ghost function WithTicket<T>(r: Ring<T>, i: nat, x: T): Ring<T> {
    r.(prodHead := Next(r.prodHead), ph := r.ph + 1, entered := r.entered + [x], prodBy := r.prodBy + [i])
  }

  lemma TicketKeepsRing<T>(r: Ring<T>, i: nat, x: T)
    requires RingInv(r) && r.ph < r.ct + r.size
    ensures RingInv(WithTicket(r, i, x))
  {
    hide And, PowerOfTwo, Next;
    NextRegister(r.ph);
  }

  lemma TicketKeepsThread<T>(r: Ring<T>, i: nat, x: T, j: nat, pc: Pc<T>)
    requires RingInv(r) && RingInv(WithTicket(r, i, x)) && ThreadInv(r, j, pc)
    ensures ThreadInv(WithTicket(r, i, x), j, pc)
  {
    hide And, PowerOfTwo, Next, Contents;
  }

  /** Drawing the producer ticket `ph`: there is room, and no other thread is disturbed. */
  lemma ProdDrawKeepsInv<T>(s: State<T>, i: nat, x: T)
    requires Inv(s) && i < |s.pcs| && s.pcs[i].EnqCas? && s.ring.ph < s.ring.ct + s.ring.size
    ensures Inv(State(WithTicket(s.ring, i, x), s.pcs[i := EnqWrite(x, s.ring.prodHead, s.ring.ph)]))
  {
    hide And, PowerOfTwo, Next, Contents;
    var r := s.ring;
    TicketKeepsRing(r, i, x);
    var pcs := s.pcs[i := EnqWrite(x, r.prodHead, r.ph)];
    forall j | 0 <= j < |pcs|
      ensures ThreadInv(WithTicket(r, i, x), j, pcs[j])
    {
      if j != i {
        TicketKeepsThread(r, i, x, j, pcs[j]);
      }
    }
  }

  lemma ConsDrawKeepsInv<T>(s: State<T>, i: nat)
    requires Inv(s) && i < |s.pcs| && s.pcs[i].DeqCas? && s.ring.ch < s.ring.pt
    ensures var r := s.ring;
            var r' := r.(consHead := Next(r.consHead), ch := r.ch + 1, consBy := r.consBy + [i]);
            Inv(State(r', s.pcs[i := DeqRead(r.consHead, r.ch)]))
  {
    hide And, PowerOfTwo, Next;
    NextRegister(s.ring.ch);
  }

  /** Despite stale locals, the compare-and-set draws a ticket only with room, unless it overruns. */
  lemma EnqCasKeepsInv<T>(s: State<T>, i: nat, cmd: Command<T>)
    requires Inv(s) && i < |s.pcs| && s.pcs[i].EnqCas?
    ensures Inv(Step(s, Choice(i, cmd))) <==> !Overruns(s.ring, s.pcs[i])
    ensures Step(s, Choice(i, cmd)).ring.ph > s.ring.ct + s.ring.size <==> Overruns(s.ring, s.pcs[i])
  {
    hide Contents, Holders;
    var r, pc := s.ring, s.pcs[i];
    assert ThreadInv(r, i, pc);
    LapsApart(r.ph, pc.k);
    if Minus(pc.prodHead, pc.consTail) != r.size && r.prodHead == pc.prodHead {
      if r.ph < r.ct + r.size {
        ProdDrawKeepsInv(s, i, pc.x);
      }
    } else {
      MoveKeepsInv(s, i, Idle);
      MoveKeepsInv(s, i, EnqReadHead(pc.x));
    }
  }

  lemma DeqCasKeepsInv<T>(s: State<T>, i: nat, cmd: Command<T>)
    requires Inv(s) && i < |s.pcs| && s.pcs[i].DeqCas?
    ensures Inv(Step(s, Choice(i, cmd))) <==> !Overruns(s.ring, s.pcs[i])
    ensures Step(s, Choice(i, cmd)).ring.ch > s.ring.pt <==> Overruns(s.ring, s.pcs[i])
  {
    hide Contents, Holders;
    var r, pc := s.ring, s.pcs[i];
    assert ThreadInv(r, i, pc);
    LapsApart(r.ch, pc.k);
    if pc.consHead != pc.prodTail && r.consHead == pc.consHead {
      if r.ch < r.pt {
        ConsDrawKeepsInv(s, i);
      }
    } else {
      MoveKeepsInv(s, i, Idle);
      MoveKeepsInv(s, i, DeqReadHead);
    }
  }

  lemma ShortLap(d: int)
    requires 0 <= d < WORD
    ensures d % WORD == 0 <==> d == 0
  {
  }

  /** A thread that fewer than 2^32 tickets have overtaken does not overrun. */
  lemma FreshIsSafe<T>(s: State<T>, i: nat)
    requires Inv(s) && i < |s.pcs| && Fresh(s.ring, s.pcs[i])
    ensures !Overruns(s.ring, s.pcs[i])
  {
    hide Contents, Holders, And, PowerOfTwo, Minus;
    var r, pc := s.ring, s.pcs[i];
    assert ThreadInv(r, i, pc);
    if pc.EnqCas? {
      ShortLap(r.ph - pc.k);
      if r.ph == pc.k == r.ct + r.size {
        FullTest(pc.k, pc.c, r.size);
      }
    } else if pc.DeqCas? {
      ShortLap(r.ch - pc.k);
    }
  }

  lemma EnqWriteKeepsInv<T>(s: State<T>, i: nat, cmd: Command<T>)
    requires Inv(s) && i < |s.pcs| && s.pcs[i].EnqWrite?
    ensures Inv(Step(s, Choice(i, cmd)))
  {
    hide And, PowerOfTwo, Next;
    var r, pc := s.ring, s.pcs[i];
    SlotOfRegister(pc.k, r.size);
    var r' := Step(s, Choice(i, cmd)).ring;
    forall k: nat | r.ct <= k < r.ph && k != pc.k
      ensures Slot(r', k) == Slot(r, k)
    {
      DistinctSlots(k, pc.k, r.size);
    }
  }

  lemma DeqReadKeepsInv<T>(s: State<T>, i: nat, cmd: Command<T>)
    requires Inv(s) && i < |s.pcs| && s.pcs[i].DeqRead?
    ensures Inv(Step(s, Choice(i, cmd)))
  {
    hide And, PowerOfTwo, Next;
    var r, pc := s.ring, s.pcs[i];
    SlotOfRegister(pc.k, r.size);
    assert Slot(r, pc.k) == r.entered[pc.k];
  }

  lemma WaitKeepsInv<T>(s: State<T>, i: nat, cmd: Command<T>)
    requires Inv(s) && i < |s.pcs| && (s.pcs[i].EnqWait? || s.pcs[i].DeqWait?)
    ensures Inv(Step(s, Choice(i, cmd)))
  {
    hide And, PowerOfTwo, Next;
    var r, pc := s.ring, s.pcs[i];
    if pc.EnqWait? && r.prodTail == pc.prodHead {
      SameRegister(r.pt, pc.k);
    } else if pc.DeqWait? && r.consTail == pc.consHead {
      SameRegister(r.ct, pc.k);
    }
  }

  lemma EnqPublishKeepsInv<T>(s: State<T>, i: nat, cmd: Command<T>)
    requires Inv(s) && i < |s.pcs| && s.pcs[i].EnqPublish?
    ensures Inv(Step(s, Choice(i, cmd)))
  {
    hide And, PowerOfTwo, Next;
    NextRegister(s.ring.pt);
  }

  lemma DeqPublishKeepsInv<T>(s: State<T>, i: nat, cmd: Command<T>)
    requires Inv(s) && i < |s.pcs| && s.pcs[i].DeqPublish?
    ensures Inv(Step(s, Choice(i, cmd)))
  {
    hide And, PowerOfTwo, Next;
    NextRegister(s.ring.ct);
  }

  /** A step keeps the invariant exactly when it does not overrun. */
  lemma StepKeepsInv<T>(s: State<T>, c: Choice<T>)
    requires Inv(s)
    ensures Inv(Step(s, c)) <==> !OverrunsAt(s, c)
  {
    if c.i < |s.pcs| {
      hide Inv, Step;
      match s.pcs[c.i] {
        case EnqCas(_, _, _, _, _, _) => EnqCasKeepsInv(s, c.i, c.cmd);
        case DeqCas(_, _, _, _, _) => DeqCasKeepsInv(s, c.i, c.cmd);
        case EnqWrite(_, _, _) => EnqWriteKeepsInv(s, c.i, c.cmd);
        case DeqRead(_, _) => DeqReadKeepsInv(s, c.i, c.cmd);
        case EnqWait(_, _) | DeqWait(_, _, _) => WaitKeepsInv(s, c.i, c.cmd);
        case EnqPublish(_, _) => EnqPublishKeepsInv(s, c.i, c.cmd);
        case DeqPublish(_, _, _) => DeqPublishKeepsInv(s, c.i, c.cmd);
        case _ => ReadsKeepInv(s, c.i, c.cmd);
      }
    }
  }

  ghost predicate OverrunsAt<T>(s: State<T>, c: Choice<T>) {
    c.i < |s.pcs| && Overruns(s.ring, s.pcs[c.i])
  }

  // ---------------------------------------------------------------- whole runs

  /** The state after the first `k` steps. */
  ghost function At<T>(s: State<T>, schedule: seq<Choice<T>>, k: nat): State<T>
    requires Shape(s.ring) && k <= |schedule|
  {
    Exec(s, schedule[..k])
  }

  /** No step of the run overruns. */
  ghost predicate SafeRun<T>(s: State<T>, schedule: seq<Choice<T>>)
    requires Shape(s.ring)
  {
    forall k | 0 <= k < |schedule| :: !OverrunsAt(At(s, schedule, k), schedule[k])
  }

  /** No thread is overtaken by 2^32 tickets between its reads and its compare-and-set. */
  ghost predicate FreshRun<T>(s: State<T>, schedule: seq<Choice<T>>)
    requires Shape(s.ring)
  {
    forall k | 0 <= k < |schedule| :: FreshAt(At(s, schedule, k), schedule[k])
  }

  ghost predicate FreshAt<T>(s: State<T>, c: Choice<T>) {
    c.i < |s.pcs| ==> Fresh(s.ring, s.pcs[c.i])
  }

  lemma InitialInv<T>(size: nat, threads: nat, dflt: T)
    requires PowerOfTwo(size) && 0 < size <= WORD / 2
    ensures Inv(Initial(size, threads, dflt))
  {
    hide PowerOfTwo;
  }

  lemma AtNext<T>(s: State<T>, schedule: seq<Choice<T>>, k: nat)
    requires Shape(s.ring) && k < |schedule|
    ensures At(s, schedule, k + 1) == Step(At(s, schedule, k), schedule[k])
  {
    hide Step;
    assert schedule[..k + 1][..k] == schedule[..k];
  }

  lemma AtEnds<T>(s: State<T>, schedule: seq<Choice<T>>)
    requires Shape(s.ring)
    ensures At(s, schedule, 0) == s && At(s, schedule, |schedule|) == Exec(s, schedule)
  {
    hide Step;
    assert schedule[..0] == [] && schedule[..|schedule|] == schedule;
  }

  ghost predicate InvAt<T>(s: State<T>, schedule: seq<Choice<T>>, k: nat)
    requires Shape(s.ring) && k <= |schedule|
  {
    Inv(At(s, schedule, k))
  }

  lemma NextInv<T>(s: State<T>, schedule: seq<Choice<T>>, k: nat)
    requires Shape(s.ring) && k < |schedule| && InvAt(s, schedule, k)
    ensures InvAt(s, schedule, k + 1) <==> !OverrunsAt(At(s, schedule, k), schedule[k])
  {
    hide Step, Inv, OverrunsAt, At;
    AtNext(s, schedule, k);
    StepKeepsInv(At(s, schedule, k), schedule[k]);
  }

  /** The invariant holds all along a run exactly when no step of the run overruns. */
  lemma {:induction false} RunInv<T>(size: nat, threads: nat, dflt: T, schedule: seq<Choice<T>>)
    requires PowerOfTwo(size) && 0 < size <= WORD / 2
    ensures var s := Initial(size, threads, dflt);
            SafeRun(s, schedule) <==> forall k | 0 <= k <= |schedule| :: InvAt(s, schedule, k)
  {
    var s := Initial(size, threads, dflt);
    assert InvAt(s, schedule, 0) by {
      InitialInv(size, threads, dflt);
      AtEnds(s, schedule);
    }
    InvAllAlong(s, schedule);
  }

  lemma InvAllAlong<T>(s: State<T>, schedule: seq<Choice<T>>)
    requires Shape(s.ring) && InvAt(s, schedule, 0)
    ensures SafeRun(s, schedule) <==> forall k | 0 <= k <= |schedule| :: InvAt(s, schedule, k)
  {
    hide InvAt, OverrunsAt, At;
    var n := 0;
    while n < |schedule| && !OverrunsAt(At(s, schedule, n), schedule[n])
      invariant 0 <= n <= |schedule|
      invariant forall k | 0 <= k <= n :: InvAt(s, schedule, k)
      invariant forall k | 0 <= k < n :: !OverrunsAt(At(s, schedule, k), schedule[k])
    {
      NextInv(s, schedule, n);
      n := n + 1;
    }
    if n < |schedule| {
      NextInv(s, schedule, n);
    }
  }

  /** So it does when no thread is overtaken by 2^32 tickets. */
  lemma {:induction false} FreshRunIsSafe<T>(size: nat, threads: nat, dflt: T, schedule: seq<Choice<T>>)
    requires PowerOfTwo(size) && 0 < size <= WORD / 2
    requires FreshRun(Initial(size, threads, dflt), schedule)
    ensures SafeRun(Initial(size, threads, dflt), schedule)
  {
    hide PowerOfTwo, OverrunsAt, InvAt, FreshAt, At;
    var s := Initial(size, threads, dflt);
    InitialInv(size, threads, dflt);
    AtEnds(s, schedule);
    StartInv(s, schedule);
    for n := 0 to |schedule|
      invariant InvAt(s, schedule, n)
      invariant forall k | 0 <= k < n :: !OverrunsAt(At(s, schedule, k), schedule[k])
    {
      FreshStep(s, schedule, n);
      NextInv(s, schedule, n);
    }
  }

  lemma StartInv<T>(s: State<T>, schedule: seq<Choice<T>>)
    requires Shape(s.ring) && Inv(s) && At(s, schedule, 0) == s
    ensures InvAt(s, schedule, 0)
  {
  }

  lemma FreshStep<T>(s: State<T>, schedule: seq<Choice<T>>, n: nat)
    requires Shape(s.ring) && n < |schedule| && InvAt(s, schedule, n) && FreshAt(At(s, schedule, n), schedule[n])
    ensures !OverrunsAt(At(s, schedule, n), schedule[n])
  {
    hide At, Inv, Fresh, Overruns;
    var now := At(s, schedule, n);
    if schedule[n].i < |now.pcs| {
      FreshIsSafe(now, schedule[n].i);
    }
  }

  /** In every run without an overrun the tickets stay ordered and within one lap, and the values returned are, in the
      order of return, exactly the first values enqueued, in the order in which tickets were drawn. */
  lemma RunIsFifo<T>(size: nat, threads: nat, dflt: T, schedule: seq<Choice<T>>)
    requires PowerOfTwo(size) && 0 < size <= WORD / 2
    requires SafeRun(Initial(size, threads, dflt), schedule)
    ensures var r := Exec(Initial(size, threads, dflt), schedule).ring;
            && r.ct <= r.ch <= r.pt <= r.ph <= r.ct + r.size
            && |r.entered| == r.ph
            && r.left == r.entered[..r.ct]
  {
    hide PowerOfTwo, Exec, Initial, SafeRun, Step, At;
    RunInv(size, threads, dflt, schedule);
    AtEnds(Initial(size, threads, dflt), schedule);
    assert InvAt(Initial(size, threads, dflt), schedule, |schedule|);
  }

  /** The dequeuer that holds ticket `k` carries the value of the enqueuer that drew ticket `k`. */
  lemma TicketsMatch<T>(s: State<T>, i: nat)
    requires Inv(s) && i < |s.pcs|
    ensures s.pcs[i].DeqWait? || s.pcs[i].DeqPublish? ==>
              s.pcs[i].k < |s.ring.entered| && s.pcs[i].v == s.ring.entered[s.pcs[i].k]
    ensures s.pcs[i].DeqPublish? ==> Step(s, Choice(i, Nothing)).ring.left == s.ring.entered[..s.pcs[i].k + 1]
  {
    hide And, PowerOfTwo;
    assert ThreadInv(s.ring, i, s.pcs[i]);
  }

  /** No ticket is held twice. */
  lemma TicketsUnique<T>(s: State<T>, i: nat, j: nat, k: nat)
    requires Inv(s) && i < |s.pcs| && j < |s.pcs|
    requires (HoldsProd(s.pcs[i], k) && HoldsProd(s.pcs[j], k)) || (HoldsCons(s.pcs[i], k) && HoldsCons(s.pcs[j], k))
    ensures i == j
  {
    hide And, PowerOfTwo;
    assert ThreadInv(s.ring, i, s.pcs[i]) && ThreadInv(s.ring, j, s.pcs[j]);
  }

  // ---------------------------------------------------------------- failures and waiting

  /** `ENOBUFS` is returned exactly when the tail ticket read is a size short of the head ticket read, up to whole laps.
      So the ring was full when `br_cons_tail` was read, unless that tail was already 2^32 - size tickets past the head
      read. */
  lemma EnqFailsTruthfully<T>(s: State<T>, i: nat)
    requires Inv(s) && i < |s.pcs| && s.pcs[i].EnqCas?
    ensures Step(s, Choice(i, Nothing)).pcs[i].Idle? <==> (s.pcs[i].c + s.ring.size - s.pcs[i].k) % WORD == 0
    ensures Step(s, Choice(i, Nothing)).pcs[i].Idle? ==> s.pcs[i].full || s.pcs[i].c - s.pcs[i].k >= WORD - s.ring.size
  {
    hide And, PowerOfTwo, Minus, Holders, Contents;
    assert ThreadInv(s.ring, i, s.pcs[i]);
    FullTest(s.pcs[i].k, s.pcs[i].c, s.ring.size);
  }

  /** `NULL` is returned exactly when the two tickets read are whole laps apart.  So no published entry was unclaimed
      when `br_prod_tail` was read, unless that tail was already 2^32 tickets past the head read. */
  lemma DeqFailsTruthfully<T>(s: State<T>, i: nat)
    requires Inv(s) && i < |s.pcs| && s.pcs[i].DeqCas?
    ensures Step(s, Choice(i, Nothing)).pcs[i].Idle? <==> (s.pcs[i].c - s.pcs[i].k) % WORD == 0
    ensures Step(s, Choice(i, Nothing)).pcs[i].Idle? ==> s.pcs[i].empty || s.pcs[i].c - s.pcs[i].k >= WORD
  {
    hide And, PowerOfTwo, Holders, Contents;
    assert ThreadInv(s.ring, i, s.pcs[i]);
    LapsApart(s.pcs[i].c, s.pcs[i].k);
  }

  /** While a producer ticket is unpublished, the thread holding the oldest one can take its next step. */
  lemma ProducersAreNeverStuck<T>(s: State<T>)
    requires Inv(s) && s.ring.pt < s.ring.ph
    ensures var i := s.ring.prodBy[s.ring.pt];
            && i < |s.pcs| && HoldsProd(s.pcs[i], s.ring.pt)
            && Step(s, Choice(i, Nothing)).pcs[i] != s.pcs[i]
  {
    hide And, PowerOfTwo;
    var i := s.ring.prodBy[s.ring.pt];
    assert HoldsProd(s.pcs[i], s.ring.pt);
    assert ThreadInv(s.ring, i, s.pcs[i]);
  }

  lemma ConsumersAreNeverStuck<T>(s: State<T>)
    requires Inv(s) && s.ring.ct < s.ring.ch
    ensures var i := s.ring.consBy[s.ring.ct];
            && i < |s.pcs| && HoldsCons(s.pcs[i], s.ring.ct)
            && Step(s, Choice(i, Nothing)).pcs[i] != s.pcs[i]
  {
    hide And, PowerOfTwo;
    var i := s.ring.consBy[s.ring.ct];
    assert HoldsCons(s.pcs[i], s.ring.ct);
    assert ThreadInv(s.ring, i, s.pcs[i]);
  }

  // ---------------------------------------------------------------- runs in which a thread is overtaken

  lemma {:induction false} ExecAppend<T>(s: State<T>, a: seq<Choice<T>>, b: seq<Choice<T>>)
    requires Shape(s.ring)
    ensures Exec(s, a + b) == Exec(Exec(s, a), b)
    decreases |b|
  {
    hide Step;
    if b == [] {
      assert a + b == a;
    } else {
      var n := |b| - 1;
      assert (a + b)[..|a| + n] == a + b[..n];
      ExecAppend(s, a, b[..n]);
    }
  }

  /** Thread 0 stands anywhere, thread 1 has put `a` copies of `x` into the ring and taken `b` out again, and is
      idle. */
  ghost function Resting<T>(size: nat, x: T, a: nat, b: nat, pc: Pc<T>): (s: State<T>)
    requires size > 0
    ensures Shape(s.ring)
  {
    State(Ring(size, seq(size, i => x), a % WORD, a % WORD, b % WORD, b % WORD, a, a, b, b,
               seq(a, i => x), seq(b, i => x), seq(a, i => 1), seq(b, i => 1)), [pc, Idle])
  }

  /** `n` steps of one thread. */
  ghost function Steps<T>(c: Choice<T>, n: nat): seq<Choice<T>> {
    seq(n, i => c)
  }

  lemma OneMore<T>(s: State<T>, c: Choice<T>, n: nat)
    requires Shape(s.ring)
    ensures Exec(s, Steps(c, 0)) == s
    ensures Exec(s, Steps(c, n + 1)) == Step(Exec(s, Steps(c, n)), c)
  {
    hide Step;
    assert Steps(c, n + 1)[..n] == Steps(c, n);
  }

  ghost predicate Sized(size: nat, a: nat, b: nat) {
    PowerOfTwo(size) && 0 < size <= WORD / 2 && b <= a <= b + size
  }

  lemma PutDraws<T>(size: nat, x: T, a: nat, b: nat, pc: Pc<T>)
    requires Sized(size, a, b) && a < b + size
    ensures var s := Resting(size, x, a, b, pc);
            var c := Choice(1, Enqueue(x));
            Step(Step(Step(Step(s, c), c), c), c) ==
              State(s.ring.(prodHead := (a + 1) % WORD, ph := a + 1, entered := seq(a + 1, i => x),
                            prodBy := seq(a + 1, i => 1)),
                    [pc, EnqWrite(x, a % WORD, a)])
  {
    hide PowerOfTwo, Minus;
    var s, c := Resting(size, x, a, b, pc), Choice(1, Enqueue(x));
    FullTest(a, b, size);
    NextRegister(a);
    var s3 := Step(Step(Step(s, c), c), c);
    assert s3 == State(s.ring, [pc, EnqCas(x, a % WORD, b % WORD, a, b, a - b == size)]);
    assert s.ring.entered + [x] == seq(a + 1, i => x);
    assert s.ring.prodBy + [1] == seq(a + 1, i => 1);
  }

  lemma PutPublishes<T>(size: nat, x: T, a: nat, b: nat, pc: Pc<T>)
    requires Sized(size, a, b) && a < b + size
    ensures var r := Resting(size, x, a, b, pc).ring;
            var s := State(r.(prodHead := (a + 1) % WORD, ph := a + 1, entered := seq(a + 1, i => x),
                              prodBy := seq(a + 1, i => 1)),
                           [pc, EnqWrite(x, a % WORD, a)]);
            var c := Choice(1, Enqueue(x));
            Step(Step(Step(s, c), c), c) == Resting(size, x, a + 1, b, pc)
  {
    hide PowerOfTwo;
    NextRegister(a);
    var slots := seq(size, i => x);
    assert slots[And(a % WORD, size - 1) := x] == slots;
  }

  /** A whole call of thread 1 puts `x`. */
  lemma PutOne<T>(size: nat, x: T, a: nat, b: nat, pc: Pc<T>)
    requires Sized(size, a, b) && a < b + size
    ensures Exec(Resting(size, x, a, b, pc), Steps(Choice(1, Enqueue(x)), 7)) == Resting(size, x, a + 1, b, pc)
  {
    hide Step, Resting, Steps, PowerOfTwo;
    PutDraws(size, x, a, b, pc);
    PutPublishes(size, x, a, b, pc);
    SevenSteps(Resting(size, x, a, b, pc), Choice(1, Enqueue(x)));
  }

  lemma SevenSteps<T>(s: State<T>, c: Choice<T>)
    requires Shape(s.ring)
    ensures Exec(s, Steps(c, 7)) == Step(Step(Step(Step(Step(Step(Step(s, c), c), c), c), c), c), c)
  {
    hide Step, Steps, Exec;
    var s3 := Step(Step(Step(s, c), c), c);
    FewSteps(s, c);
    OneMore(s, c, 3);
    OneMore(s, c, 4);
    var s5 := Step(Step(s3, c), c);
    assert Exec(s, Steps(c, 5)) == s5;
    OneMore(s, c, 5);
    OneMore(s, c, 6);
  }

  lemma GetDraws<T>(size: nat, x: T, a: nat, b: nat, pc: Pc<T>)
    requires Sized(size, a, b) && b < a
    ensures var s := Resting(size, x, a, b, pc);
            var c := Choice(1, Dequeue);
            Step(Step(Step(Step(s, c), c), c), c) ==
              State(s.ring.(consHead := (b + 1) % WORD, ch := b + 1, consBy := seq(b + 1, i => 1)),
                  [pc, DeqRead(b % WORD, b)])
  {
    hide PowerOfTwo;
    var s, c := Resting(size, x, a, b, pc), Choice(1, Dequeue);
    if a % WORD == b % WORD {
      SameRegister(a, b);
    }
    NextRegister(b);
    var s3 := Step(Step(Step(s, c), c), c);
    assert s3 == State(s.ring, [pc, DeqCas(b % WORD, a % WORD, b, a, b == a)]);
    assert s.ring.consBy + [1] == seq(b + 1, i => 1);
  }

  lemma GetPublishes<T>(size: nat, x: T, a: nat, b: nat, pc: Pc<T>)
    requires Sized(size, a, b) && b < a
    ensures var r := Resting(size, x, a, b, pc).ring;
            var s := State(r.(consHead := (b + 1) % WORD, ch := b + 1, consBy := seq(b + 1, i => 1)),
                [pc, DeqRead(b % WORD, b)]);
            var c := Choice(1, Dequeue);
            Step(Step(Step(s, c), c), c) == Resting(size, x, a, b + 1, pc)
  {
    hide PowerOfTwo;
    NextRegister(b);
    assert seq(b, i => x) + [x] == seq(b + 1, i => x);
  }

  /** A whole call of thread 1 takes the oldest. */
  lemma GetOne<T>(size: nat, x: T, a: nat, b: nat, pc: Pc<T>)
    requires Sized(size, a, b) && b < a
    ensures Exec(Resting(size, x, a, b, pc), Steps(Choice(1, Dequeue), 7)) == Resting(size, x, a, b + 1, pc)
  {
    hide Step, Resting, Steps, PowerOfTwo;
    GetDraws(size, x, a, b, pc);
    GetPublishes(size, x, a, b, pc);
    SevenSteps(Resting(size, x, a, b, pc), Choice(1, Dequeue));
  }

  /** Calls of thread 1: `n` values put. */
  ghost function Puts<T>(x: T, n: nat): seq<Choice<T>> {
    if n == 0 then [] else Puts(x, n - 1) + Steps(Choice(1, Enqueue(x)), 7)
  }

  /** Calls of thread 1: `n` times a value put and taken. */
  ghost function Laps<T>(x: T, n: nat): seq<Choice<T>> {
    if n == 0 then [] else Laps(x, n - 1) + (Steps(Choice(1, Enqueue(x)), 7) + Steps(Choice(1, Dequeue), 7))
  }

  lemma {:induction false} PutMany<T>(size: nat, x: T, a: nat, b: nat, pc: Pc<T>, n: nat)
    requires Sized(size, a, b) && a + n <= b + size
    ensures Exec(Resting(size, x, a, b, pc), Puts(x, n)) == Resting(size, x, a + n, b, pc)
  {
    hide Step, Resting, Steps, PowerOfTwo;
    if n > 0 {
      PutMany(size, x, a, b, pc, n - 1);
      PutOne(size, x, a + n - 1, b, pc);
      ExecAppend(Resting(size, x, a, b, pc), Puts(x, n - 1), Steps(Choice(1, Enqueue(x)), 7));
    }
  }

  lemma PutAndGet<T>(size: nat, x: T, a: nat, pc: Pc<T>)
    requires Sized(size, a, a)
    ensures Exec(Resting(size, x, a, a, pc), Steps(Choice(1, Enqueue(x)), 7) + Steps(Choice(1, Dequeue), 7))
            == Resting(size, x, a + 1, a + 1, pc)
  {
    hide Step, Resting, Steps, Exec;
    PutOne(size, x, a, a, pc);
    GetOne(size, x, a + 1, a, pc);
    ExecAppend(Resting(size, x, a, a, pc), Steps(Choice(1, Enqueue(x)), 7), Steps(Choice(1, Dequeue), 7));
  }

  lemma {:induction false} RunLaps<T>(size: nat, x: T, a: nat, pc: Pc<T>, n: nat)
    requires Sized(size, a, a)
    ensures Exec(Resting(size, x, a, a, pc), Laps(x, n)) == Resting(size, x, a + n, a + n, pc)
  {
    hide Step, Resting, Steps, PowerOfTwo;
    if n > 0 {
      RunLaps(size, x, a, pc, n - 1);
      PutAndGet(size, x, a + n - 1, pc);
      ExecAppend(Resting(size, x, a, a, pc), Laps(x, n - 1),
          Steps(Choice(1, Enqueue(x)), 7) + Steps(Choice(1, Dequeue), 7));
    }
  }

  lemma Rests<T>(size: nat, x: T)
    requires size > 0
    ensures Initial(size, 2, x) == Resting(size, x, 0, 0, Idle)
  {
    var pcs: seq<Pc<T>> := seq(2, i => Idle);
    assert pcs == [Idle, Idle];
    assert seq(0, i => x) == [] && seq<nat>(0, i => 1) == [];
  }

  lemma RestingInv<T>(size: nat, x: T, a: nat, b: nat, pc: Pc<T>)
    requires Sized(size, a, b) && !Ticketed(pc)
    requires var r := Resting(size, x, a, b, pc).ring;
             Counters(r) && ThreadInv(r, 0, pc)
    ensures Inv(Resting(size, x, a, b, pc))
  {
    hide And, PowerOfTwo;
    var r := Resting(size, x, a, b, pc).ring;
    assert r.left == r.entered[..r.ct];
  }

  lemma FewSteps<T>(s: State<T>, c: Choice<T>)
    requires Shape(s.ring)
    ensures Exec(s, Steps(c, 1)) == Step(s, c)
    ensures Exec(s, Steps(c, 2)) == Step(Step(s, c), c)
    ensures Exec(s, Steps(c, 3)) == Step(Step(Step(s, c), c), c)
  {
    hide Step, Steps, Exec;
    OneMore(s, c, 0);
    OneMore(s, c, 1);
    OneMore(s, c, 2);
  }

  /** Thread 0 moves first, then thread 1 makes `laps` laps and puts `puts` values. */
  ghost function Overtaking<T>(x: T, cmd: Command<T>, steps: nat, laps: nat, puts: nat): seq<Choice<T>> {
    Steps(Choice(0, cmd), steps) + Laps(x, laps) + Puts(x, puts)
  }

  lemma Overtake<T>(s: State<T>, size: nat, x: T, a: nat, cmd: Command<T>, steps: nat, laps: nat, puts: nat, pc: Pc<T>)
    requires Shape(s.ring) && Sized(size, a, a) && Exec(s, Steps(Choice(0, cmd), steps)) == Resting(size, x, a, a, pc)
        && puts <= size
    ensures Exec(s, Overtaking(x, cmd, steps, laps, puts)) == Resting(size, x, a + laps + puts, a + laps, pc)
  {
    hide Step, Resting, Steps, Exec, Laps, Puts, PowerOfTwo;
    var start := Steps(Choice(0, cmd), steps);
    ExecAppend(s, start, Laps(x, laps));
    RunLaps(size, x, a, pc, laps);
    ExecAppend(s, start + Laps(x, laps), Puts(x, puts));
    PutMany(size, x, a + laps, a + laps, pc, puts);
  }

  lemma Sizes(size: nat, a: nat, n: nat)
    requires PowerOfTwo(size) && 0 < size <= WORD / 2 && n <= size
    ensures Sized(size, a + n, a) && Sized(size, a, a)
  {
  }

  /** The distance bound cannot be dropped: in a ring of any size, a thread that 2^32 tickets have overtaken overfills
      it. */
  lemma OvertakenPutOverfills<T>(size: nat, x: T)
    requires PowerOfTwo(size) && 0 < size <= WORD / 2
    ensures var s := Exec(Initial(size, 2, x), Overtaking(x, Enqueue(x), 3, WORD - size, size));
            && Inv(s) && |s.pcs| == 2 && s.pcs[0].EnqCas? && s.ring.ph - s.pcs[0].k == WORD
                && Overruns(s.ring, s.pcs[0])
            && Step(s, Choice(0, Nothing)).ring.ph == s.ring.ct + size + 1
  {
    hide PowerOfTwo, Sized, Exec, Steps, Laps, Puts, Inv, Overtaking;
    Sizes(size, 0, 0);
    Sizes(size, WORD - size, size);
    var s, c, pc := Initial(size, 2, x), Choice(0, Enqueue(x)), EnqCas(x, 0, 0, 0, 0, false);
    Rests(size, x);
    FewSteps(s, c);
    assert Step(Step(Step(s, c), c), c) == Resting(size, x, 0, 0, pc);
    Overtake(s, size, x, 0, Enqueue(x), 3, WORD - size, size, pc);
    RestingInv(size, x, WORD, WORD - size, pc);
  }

  /** The bound on truthful failures cannot be dropped: 2^32 - size tickets later, the ring is empty and `ENOBUFS` is
      returned. */
  lemma OvertakenPutFails<T>(size: nat, x: T)
    requires PowerOfTwo(size) && 0 < size <= WORD / 2
    ensures var c := Choice(0, Enqueue(x));
            var s := Exec(Initial(size, 2, x), Overtaking(x, Enqueue(x), 2, WORD - size, 0) + Steps(c, 1));
            && Inv(s) && |s.pcs| == 2 && s.pcs[0].EnqCas? && s.pcs[0].c - s.pcs[0].k == WORD - size
            && s.ring.ph == s.ring.ct && !s.pcs[0].full && Step(s, c).pcs[0].Idle?
  {
    hide PowerOfTwo, Sized, Exec, Steps, Laps, Puts, Inv, Overtaking, Minus, Step, Initial;
    var c, pc, a := Choice(0, Enqueue(x)), EnqReadTail(x, 0, 0), WORD - size;
    Sizes(size, 0, 0);
    Sizes(size, a, 0);
    ReadHeads(size, x);
    Overtake(Initial(size, 2, x), size, x, 0, Enqueue(x), 2, a, 0, pc);
    ExecAppend(Initial(size, 2, x), Overtaking(x, Enqueue(x), 2, a, 0), Steps(c, 1));
    FewSteps(Resting(size, x, a, a, pc), c);
    ReadLateTail(size, x);
    RestingInv(size, x, a, a, EnqCas(x, 0, a, 0, a, false));
  }

  lemma ReadHeads<T>(size: nat, x: T)
    requires size > 0
    ensures Exec(Initial(size, 2, x), Steps(Choice(0, Enqueue(x)), 2)) == Resting(size, x, 0, 0, EnqReadTail(x, 0, 0))
    ensures Exec(Initial(size, 2, x), Steps(Choice(0, Dequeue), 2)) == Resting(size, x, 0, 0, DeqReadTail(0, 0))
  {
    hide Steps, Exec;
    var s := Initial(size, 2, x);
    Rests(size, x);
    FewSteps(s, Choice(0, Enqueue(x)));
    FewSteps(s, Choice(0, Dequeue));
  }

  lemma ReadLateTail<T>(size: nat, x: T)
    requires 0 < size <= WORD / 2
    ensures var c, a := Choice(0, Enqueue(x)), WORD - size;
            var s := Resting(size, x, a, a, EnqCas(x, 0, a, 0, a, false));
            Step(Resting(size, x, a, a, EnqReadTail(x, 0, 0)), c) == s && Step(s, c).pcs[0] == Idle
  {
    var a := WORD - size;
    assert a % WORD == a;
    ModUnique(0 - a, WORD, -1, size);
    assert Minus(0, a) == size;
  }

  /** A thread that read both registers of a ring with one entry, and that 2^32 tickets have overtaken, takes from an
      empty ring. */
  lemma OvertakenGetUnderruns<T>(size: nat, x: T)
    requires PowerOfTwo(size) && 0 < size <= WORD / 2
    ensures var s := Exec(Initial(size, 2, x), UnderrunSchedule(x));
            && Inv(s) && |s.pcs| == 2 && s.pcs[0].DeqCas? && s.ring.ch - s.pcs[0].k == WORD
                && Overruns(s.ring, s.pcs[0])
            && Step(s, Choice(0, Nothing)).ring.ch == s.ring.pt + 1
  {
    hide PowerOfTwo, Sized, Exec, UnderrunSchedule, Inv;
    Sizes(size, 0, 1);
    Sizes(size, WORD, 0);
    Sizes(size, 1, 0);
    var pc := DeqCas(0, 1, 0, 1, false);
    UnderrunRuns(size, x, pc);
    RestingInv(size, x, WORD, WORD, pc);
  }

  /** One value is put; thread 0 reads both registers; thread 1 takes the value and goes once around the registers. */
  ghost function UnderrunSchedule<T>(x: T): seq<Choice<T>> {
    Puts(x, 1) + (Steps(Choice(0, Dequeue), 3) + (Steps(Choice(1, Dequeue), 7) + Laps(x, WORD - 1)))
  }

  lemma UnderrunRuns<T>(size: nat, x: T, pc: Pc<T>)
    requires Sized(size, 0, 0) && Sized(size, 1, 1) && Sized(size, 1, 0) && pc == DeqCas(0, 1, 0, 1, false)
    ensures Exec(Initial(size, 2, x), UnderrunSchedule(x)) == Resting(size, x, WORD, WORD, pc)
  {
    hide PowerOfTwo, Puts, Laps, Steps, Exec, Initial;
    var s, c := Initial(size, 2, x), Choice(0, Dequeue);
    Rests(size, x);
    var s1 := Resting(size, x, 1, 0, Idle);
    PutMany(size, x, 0, 0, Idle, 1);
    FewSteps(s1, c);
    assert Step(Step(Step(s1, c), c), c) == Resting(size, x, 1, 0, pc);
    GetOne(size, x, 1, 0, pc);
    RunLaps(size, x, 1, pc, WORD - 1);
    ExecAppend(Resting(size, x, 1, 0, pc), Steps(Choice(1, Dequeue), 7), Laps(x, WORD - 1));
    ExecAppend(s1, Steps(c, 3), Steps(Choice(1, Dequeue), 7) + Laps(x, WORD - 1));
    ExecAppend(s, Puts(x, 1), Steps(c, 3) + (Steps(Choice(1, Dequeue), 7) + Laps(x, WORD - 1)));
  }

  /** A thread that read the head of an empty ring, and that 2^32 tickets have overtaken, finds nothing in a ring with
      an entry. */
  lemma OvertakenGetFails<T>(size: nat, x: T)
    requires PowerOfTwo(size) && 0 < size <= WORD / 2
    ensures var c := Choice(0, Dequeue);
            var s := Exec(Initial(size, 2, x), Overtaking(x, Dequeue, 2, WORD - 1, 1) + Steps(c, 1));
            && Inv(s) && |s.pcs| == 2 && s.pcs[0].DeqCas? && s.pcs[0].c - s.pcs[0].k == WORD
            && s.ring.ch < s.ring.pt && !s.pcs[0].empty && Step(s, c).pcs[0].Idle?
  {
    hide PowerOfTwo, Sized, Exec, Steps, Laps, Puts, Inv, Overtaking, Initial;
    var c, pc := Choice(0, Dequeue), DeqReadTail(0, 0);
    Sizes(size, 0, 0);
    Sizes(size, WORD - 1, 1);
    ReadHeads(size, x);
    Overtake(Initial(size, 2, x), size, x, 0, Dequeue, 2, WORD - 1, 1, pc);
    ExecAppend(Initial(size, 2, x), Overtaking(x, Dequeue, 2, WORD - 1, 1), Steps(c, 1));
    FewSteps(Resting(size, x, WORD, WORD - 1, pc), c);
    var pc' := DeqCas(0, 0, 0, WORD, false);
    assert Step(Resting(size, x, WORD, WORD - 1, pc), c) == Resting(size, x, WORD, WORD - 1, pc');
    RestingInv(size, x, WORD, WORD - 1, pc');
  }
}
