/** Any number of producer and consumer threads around one pool and one blocking queue, in
    every interleaving of the steps in which they touch them: the Opus encoder and decoder,
    the mixer and the echo canceller are built this way. */
module Pipeline {
  import opened Options
  import opened BlockingQueueModel
  import opened Sets

  type Samples = int

  /** What is queued: NULL, or a buffer together with what was in it when it was put. */
  datatype Entry = Null | Frame(buffer: nat, samples: Samples)

  datatype Pc =
    | Idle
    | Holding(buffer: nat)       // a buffer from the pool, not queued yet
    | Pushing                    // has put, still holds the queue's mutex
    | Acquired                   // has taken the semaphore, not yet the front
    | Processing(entry: Entry)

  datatype Limits = Limits(capacity: nat, pool: nat, maxNulls: nat)

  datatype System = System(
    queue: seq<Entry>,
    semaphore: nat,
    lock: Option<nat>,      // the thread between its push and its release
    owned: set<nat>,        // the buffers the pool has handed out
    memory: seq<Samples>,
    pcs: seq<Pc>,
    nulls: nat,             // how many NULLs were put
    put: seq<Entry>,
    taken: seq<Entry>,
    aborted: bool,          // Put found the queue over its capacity
    poppedEmpty: bool)      // the front of an empty list was asked for

  datatype Action =
    | Take(t: nat, buffer: nat)       // BufferPool::Get gives a free buffer
    | Write(t: nat, samples: Samples) // whoever has a buffer may change it
    | Push(t: nat)
    | PushNull(t: nat)
    | Release(t: nat)
    | Acquire(t: nat)
    | Pop(t: nat)
    | Finish(t: nat)                  // BufferPool::Reuse

  function Start(limits: Limits, threads: nat): System {
    System([], 0, None, {}, seq(limits.pool, _ => 0), seq(threads, _ => Idle), 0, [], [], false, false)
  }

  // ---------------------------------------------------------------------- the steps

  function Pushed(limits: Limits, s: System, t: nat, e: Entry): System
    requires t < |s.pcs|
  {
    match PutInto(s.queue, limits.capacity, false, e)
    case Stored(q) => s.(queue := q, lock := Some(t), pcs := s.pcs[t := Pushing], put := s.put + [e])
    case _ => s.(aborted := true)
  }

  /** The buffer a thread has for itself. */
  function Mine(pc: Pc): Option<nat> {
    match pc
    case Holding(b) => Some(b)
    case Processing(Frame(b, _)) => Some(b)
    case _ => None
  }

  /** A step that is not possible changes nothing; an aborted process takes no step. */
  function Step(limits: Limits, s: System, a: Action): System {
    if s.aborted || s.poppedEmpty || a.t >= |s.pcs| then s else
    var pc := s.pcs[a.t];
    match a
    case Take(t, b) =>
      if pc.Idle? && b < limits.pool && b !in s.owned
      then s.(owned := s.owned + {b}, pcs := s.pcs[t := Holding(b)]) else s
    case Write(t, samples) =>
      if Mine(pc).Some? && Mine(pc).value < |s.memory|
      then s.(memory := s.memory[Mine(pc).value := samples]) else s
    case Push(t) =>
      if pc.Holding? && pc.buffer < |s.memory| && s.lock.None?
      then Pushed(limits, s, t, Frame(pc.buffer, s.memory[pc.buffer])) else s
    case PushNull(t) =>
      if pc.Idle? && s.lock.None? && s.nulls < limits.maxNulls
      then Pushed(limits, s.(nulls := s.nulls + 1), t, Null) else s
    case Release(t) =>
      if pc.Pushing?
      then s.(semaphore := s.semaphore + 1, lock := None, pcs := s.pcs[t := Idle]) else s
    case Acquire(t) =>
      if pc.Idle? && s.semaphore > 0
      then s.(semaphore := s.semaphore - 1, pcs := s.pcs[t := Acquired]) else s
    case Pop(t) =>
      if !pc.Acquired? || s.lock.Some? then s
      else if s.queue == [] then s.(poppedEmpty := true)
      else s.(queue := s.queue[1..], taken := s.taken + [s.queue[0]], pcs := s.pcs[t := Processing(s.queue[0])])
    case Finish(t) =>
      if pc.Processing?
      then s.(owned := if pc.entry.Frame? then s.owned - {pc.entry.buffer} else s.owned, pcs := s.pcs[t := Idle])
      else s
  }

  function Run(limits: Limits, s: System, acts: seq<Action>): System
    decreases |acts|
  {
    if acts == [] then s else Step(limits, Run(limits, s, acts[..|acts| - 1]), acts[|acts| - 1])
  }

  // ------------------------------------------------------------------- conservation

  function InEntry(e: Entry): multiset<nat> {
    if e.Frame? then multiset{e.buffer} else multiset{}
  }

  function InThread(pc: Pc): multiset<nat> {
    if Mine(pc).Some? then multiset{Mine(pc).value} else multiset{}
  }

  function Queued(queue: seq<Entry>): multiset<nat> {
    if queue == [] then multiset{} else InEntry(queue[0]) + Queued(queue[1..])
  }

  function Nulls(queue: seq<Entry>): nat {
    if queue == [] then 0 else (if queue[0].Null? then 1 else 0) + Nulls(queue[1..])
  }

  function Held(pcs: seq<Pc>): multiset<nat> {
    if pcs == [] then multiset{} else InThread(pcs[0]) + Held(pcs[1..])
  }

  /** Threads between taking the semaphore and the front, or between push and release. */
  function Between(pcs: seq<Pc>): nat {
    if pcs == [] then 0 else (if pcs[0].Acquired? || pcs[0].Pushing? then 1 else 0) + Between(pcs[1..])
  }

  lemma {:induction false} QueuedAppend(queue: seq<Entry>, e: Entry)
    ensures Queued(queue + [e]) == Queued(queue) + InEntry(e)
  {
    var all := queue + [e];
    if queue == [] {
      assert all[1..] == [] && all[0] == e;
    } else {
      assert all[0] == queue[0] && all[1..] == queue[1..] + [e];
      QueuedAppend(queue[1..], e);
      calc {
        Queued(all);
        InEntry(queue[0]) + (Queued(queue[1..]) + InEntry(e));
        Queued(queue) + InEntry(e);
      }
    }
  }

  lemma {:induction false} NullsAppend(queue: seq<Entry>, e: Entry)
    ensures Nulls(queue + [e]) == Nulls(queue) + (if e.Null? then 1 else 0)
  {
    var all := queue + [e];
    if queue == [] {
      assert all[1..] == [] && all[0] == e;
    } else {
      assert all[0] == queue[0] && all[1..] == queue[1..] + [e];
      NullsAppend(queue[1..], e);
    }
  }

  lemma {:induction false} QueueSize(queue: seq<Entry>)
    ensures |queue| == |Queued(queue)| + Nulls(queue)
  {
    if queue != [] {
      QueueSize(queue[1..]);
    }
  }

  lemma {:induction false} QueuedHas(queue: seq<Entry>, i: nat)
    requires i < |queue| && queue[i].Frame?
    ensures queue[i].buffer in Queued(queue)
  {
    if i > 0 {
      QueuedHas(queue[1..], i - 1);
    }
  }

  lemma {:induction false} HeldUpdate(pcs: seq<Pc>, t: nat, pc: Pc)
    requires t < |pcs|
    ensures Held(pcs[t := pc]) + InThread(pcs[t]) == Held(pcs) + InThread(pc)
  {
    hide InThread;
    var pcs1 := pcs[t := pc];
    assert Held(pcs1) == InThread(pcs1[0]) + Held(pcs1[1..]);
    if t == 0 {
      assert pcs1[1..] == pcs[1..];
      Exchanged(multiset{}, InThread(pc) + Held(pcs[1..]), InThread(pcs[0]) + Held(pcs[1..]), InThread(pcs[0]), InThread(pc));
    } else {
      assert pcs1[1..] == pcs[1..][t - 1 := pc];
      HeldUpdate(pcs[1..], t - 1, pc);
      Exchanged(InThread(pcs[0]), Held(pcs1[1..]), Held(pcs[1..]), InThread(pcs[t]), InThread(pc));
    }
  }

  lemma Exchanged(kept: multiset<nat>, a: multiset<nat>, b: multiset<nat>, x: multiset<nat>, y: multiset<nat>)
    requires a + x == b + y
    ensures (kept + a) + x == (kept + b) + y
  {
    assert (kept + a) + x == kept + (a + x);
    assert (kept + b) + y == kept + (b + y);
  }

  lemma {:induction false} HeldHas(pcs: seq<Pc>, t: nat)
    requires t < |pcs| && Mine(pcs[t]).Some?
    ensures Mine(pcs[t]).value in Held(pcs)
  {
    if t > 0 {
      HeldHas(pcs[1..], t - 1);
    }
  }

  function Weight(pc: Pc): nat {
    if pc.Acquired? || pc.Pushing? then 1 else 0
  }

  lemma {:induction false} BetweenUpdate(pcs: seq<Pc>, t: nat, pc: Pc)
    requires t < |pcs|
    ensures Between(pcs[t := pc]) == Between(pcs) - Weight(pcs[t]) + Weight(pc)
  {
    if t == 0 {
      assert pcs[t := pc][1..] == pcs[1..];
    } else {
      assert pcs[t := pc][1..] == pcs[1..][t - 1 := pc];
      BetweenUpdate(pcs[1..], t - 1, pc);
    }
  }

  lemma {:induction false} BetweenAtLeast(pcs: seq<Pc>, t: nat)
    requires t < |pcs|
    ensures Between(pcs) >= Weight(pcs[t])
  {
    if t > 0 {
      BetweenAtLeast(pcs[1..], t - 1);
    }
  }

  // -------------------------------------------------------------------- the invariant

  /** Every buffer handed out is in exactly one place: with one thread or once in the queue. */
  predicate BuffersConserved(limits: Limits, s: System) {
    && |s.memory| == limits.pool
    && (forall b :: b in s.owned ==> b < limits.pool)
    && Held(s.pcs) + Queued(s.queue) == multiset(s.owned)
  }

  /** The semaphore counts the queue, but for the threads in between. */
  predicate CountsAgree(s: System) {
    && s.semaphore + Between(s.pcs) == |s.queue|
    && (forall t :: 0 <= t < |s.pcs| && s.pcs[t].Pushing? ==> s.lock == Some(t))
    && (s.lock.Some? ==> s.lock.value < |s.pcs| && s.pcs[s.lock.value].Pushing?)
  }

  /** What was put comes out in order, and is still in its buffer until then. */
  predicate InOrder(s: System) {
    && s.put == s.taken + s.queue
    && (forall i :: 0 <= i < |s.queue| && s.queue[i].Frame? ==>
         s.queue[i].buffer < |s.memory| && s.memory[s.queue[i].buffer] == s.queue[i].samples)
  }

  predicate Invariant(limits: Limits, s: System) {
    && BuffersConserved(limits, s) && CountsAgree(s) && InOrder(s)
    && Nulls(s.queue) <= s.nulls <= limits.maxNulls
    && !s.poppedEmpty
  }

  /** A buffer with a thread is in no queue and with no other thread. */
  lemma NotElsewhere(limits: Limits, s: System, t: nat)
    requires BuffersConserved(limits, s) && t < |s.pcs| && Mine(s.pcs[t]).Some?
    ensures Mine(s.pcs[t]).value in s.owned && Mine(s.pcs[t]).value !in Queued(s.queue)
  {
    var b := Mine(s.pcs[t]).value;
    HeldHas(s.pcs, t);
    assert multiset(s.owned)[b] <= 1;
    assert (Held(s.pcs) + Queued(s.queue))[b] == Held(s.pcs)[b] + Queued(s.queue)[b];
  }

  /** There is room for one more while one buffer, or one allowed NULL, is outside the queue. */
  lemma RoomForOne(limits: Limits, s: System, t: nat, e: Entry)
    requires Invariant(limits, s) && limits.pool + limits.maxNulls <= limits.capacity
    requires t < |s.pcs| && (if e.Frame? then s.pcs[t].Holding? else s.nulls < limits.maxNulls)
    ensures |s.queue| < limits.capacity
  {
    QueueSize(s.queue);
    BelowIs(limits.pool);
    SubsetSize(s.owned, Below(limits.pool));
    assert |Held(s.pcs)| + |Queued(s.queue)| == |multiset(s.owned)| == |s.owned|;
    if e.Frame? {
      HeldHas(s.pcs, t);
      assert |Held(s.pcs)| >= 1;
    }
  }

  // ------------------------------------------------------------- every step keeps it

  /** What a thread, the queue and the pool gain and lose must cancel out. */
  lemma Conserves(limits: Limits, s: System, s1: System, t: nat, pc: Pc)
    requires BuffersConserved(limits, s) && t < |s.pcs| && s1.pcs == s.pcs[t := pc]
    requires |s1.memory| == limits.pool && forall b :: b in s1.owned ==> b < limits.pool
    requires InThread(pc) + Queued(s1.queue) + multiset(s.owned) ==
             InThread(s.pcs[t]) + Queued(s.queue) + multiset(s1.owned)
    ensures BuffersConserved(limits, s1)
  {
    hide Held, Queued, InThread;
    HeldUpdate(s.pcs, t, pc);
    var h, h1, q, q1, o, o1 := Held(s.pcs), Held(s1.pcs), Queued(s.queue), Queued(s1.queue), multiset(s.owned), multiset(s1.owned);
    var i, i1 := InThread(s.pcs[t]), InThread(pc);
    forall b ensures (h1 + q1)[b] == o1[b] {
      assert (h1 + i)[b] == (h + i1)[b] && (i1 + q1 + o)[b] == (i + q + o1)[b] && (h + q)[b] == o[b];
    }
  }

  lemma PushConserves(limits: Limits, s: System, t: nat, e: Entry)
    requires BuffersConserved(limits, s) && t < |s.pcs|
    requires Mine(s.pcs[t]) == if e.Frame? then Some(e.buffer) else None
    ensures BuffersConserved(limits, Pushed(limits, s, t, e))
  {
    QueuedAppend(s.queue, e);
    if |s.queue| < limits.capacity {
      hide Held, Queued;
      Conserves(limits, s, Pushed(limits, s, t, e), t, Pushing);
    }
  }

  lemma TakeConserves(limits: Limits, s: System, s1: System, t: nat, b: nat)
    requires BuffersConserved(limits, s) && t < |s.pcs| && s.pcs[t].Idle? && b < limits.pool && b !in s.owned
    requires s1 == s.(owned := s.owned + {b}, pcs := s.pcs[t := Holding(b)])
    ensures BuffersConserved(limits, s1)
  {
    assert multiset(s1.owned) == multiset(s.owned) + multiset{b};
    hide Held, Queued;
    Conserves(limits, s, s1, t, Holding(b));
  }

  lemma FinishConserves(limits: Limits, s: System, s1: System, t: nat)
    requires BuffersConserved(limits, s) && t < |s.pcs| && s.pcs[t].Processing? && s.pcs[t].entry.Frame?
    requires s1 == s.(owned := s.owned - {s.pcs[t].entry.buffer}, pcs := s.pcs[t := Idle])
    ensures BuffersConserved(limits, s1)
  {
    var b := s.pcs[t].entry.buffer;
    NotElsewhere(limits, s, t);
    assert multiset(s.owned) == multiset(s1.owned) + multiset{b};
    hide Held, Queued;
    Conserves(limits, s, s1, t, Idle);
  }

  lemma PopConserves(limits: Limits, s: System, s1: System, t: nat)
    requires BuffersConserved(limits, s) && t < |s.pcs| && s.pcs[t].Acquired? && s.queue != []
    requires s1.pcs == s.pcs[t := Processing(s.queue[0])] && s1.queue == s.queue[1..]
    requires s1.memory == s.memory && s1.owned == s.owned
    ensures BuffersConserved(limits, s1)
  {
    assert Queued(s.queue) == InThread(Processing(s.queue[0])) + Queued(s1.queue);
    hide Held, Queued;
    Conserves(limits, s, s1, t, Processing(s.queue[0]));
  }

  lemma NothingMoved(limits: Limits, s: System, s1: System, t: nat, pc: Pc)
    requires BuffersConserved(limits, s) && t < |s.pcs| && s1.pcs == s.pcs[t := pc] && Mine(pc) == Mine(s.pcs[t])
    requires s1.memory == s.memory && s1.owned == s.owned && s1.queue == s.queue
    ensures BuffersConserved(limits, s1)
  {
    hide Held, Queued;
    Conserves(limits, s, s1, t, pc);
  }

  lemma StepConserves(limits: Limits, s: System, a: Action)
    requires BuffersConserved(limits, s)
    ensures BuffersConserved(limits, Step(limits, s, a))
  {
    hide BuffersConserved, Pushed;
    var s1 := Step(limits, s, a);
    if s1 != s && a.t < |s.pcs| {
      var pc := s.pcs[a.t];
      match a
      case Take(t, b) => TakeConserves(limits, s, s1, t, b);
      case Write(t, samples) => WriteConserves(limits, s, s1);
      case Push(t) => PushConserves(limits, s, t, Frame(pc.buffer, s.memory[pc.buffer]));
      case PushNull(t) =>
        WriteConserves(limits, s, s.(nulls := s.nulls + 1));
        PushConserves(limits, s.(nulls := s.nulls + 1), t, Null);
      case Release(t) => NothingMoved(limits, s, s1, t, Idle);
      case Acquire(t) => NothingMoved(limits, s, s1, t, Acquired);
      case Pop(t) =>
        if s.queue != [] { PopConserves(limits, s, s1, t); } else { WriteConserves(limits, s, s1); }
      case Finish(t) =>
        if pc.entry.Frame? { FinishConserves(limits, s, s1, t); } else { NothingMoved(limits, s, s1, t, Idle); }
    }
  }

  lemma WriteConserves(limits: Limits, s: System, s1: System)
    requires BuffersConserved(limits, s)
    requires s1.pcs == s.pcs && s1.queue == s.queue && s1.owned == s.owned && |s1.memory| == |s.memory|
    ensures BuffersConserved(limits, s1)
  {
  }

  /** The semaphore, the threads in between and the queue change together. */
  lemma Counts(s: System, s1: System, t: nat, pc: Pc)
    requires CountsAgree(s) && t < |s.pcs| && s1.pcs == s.pcs[t := pc]
    requires s1.semaphore + Weight(pc) + |s.queue| == s.semaphore + Weight(s.pcs[t]) + |s1.queue|
    requires s1.lock == if pc.Pushing? then Some(t) else if s.pcs[t].Pushing? then None else s.lock
    requires pc.Pushing? ==> s.lock.None?
    ensures CountsAgree(s1)
  {
    BetweenUpdate(s.pcs, t, pc);
  }

  lemma StepCounts(limits: Limits, s: System, a: Action)
    requires CountsAgree(s) && !s.poppedEmpty
    ensures CountsAgree(Step(limits, s, a)) && !Step(limits, s, a).poppedEmpty
  {
    hide Between, CountsAgree;
    var s1 := Step(limits, s, a);
    if s1 != s && a.t < |s.pcs| {
      var pc := s.pcs[a.t];
      match a
      case Take(t, b) => Counts(s, s1, t, Holding(b));
      case Write(t, samples) => SameCounts(s, s1);
      case Push(t) => if s1.aborted { SameCounts(s, s1); } else { Counts(s, s1, t, Pushing); }
      case PushNull(t) => if s1.aborted { SameCounts(s, s1); } else { Counts(s, s1, t, Pushing); }
      case Release(t) => Counts(s, s1, t, Idle);
      case Acquire(t) => Counts(s, s1, t, Acquired);
      case Pop(t) =>
        SomethingToPop(s, t);
        Counts(s, s1, t, Processing(s.queue[0]));
      case Finish(t) => Counts(s, s1, t, Idle);
    }
  }

  lemma SameCounts(s: System, s1: System)
    requires CountsAgree(s)
    requires s1.pcs == s.pcs && s1.queue == s.queue && s1.semaphore == s.semaphore && s1.lock == s.lock
    ensures CountsAgree(s1)
  {
  }

  lemma SomethingToPop(s: System, t: nat)
    requires CountsAgree(s) && t < |s.pcs| && s.pcs[t].Acquired?
    ensures s.queue != []
  {
    BetweenAtLeast(s.pcs, t);
  }

  lemma StepOrders(limits: Limits, s: System, a: Action)
    requires BuffersConserved(limits, s) && InOrder(s)
    ensures InOrder(Step(limits, s, a))
  {
    hide BuffersConserved;
    var s1 := Step(limits, s, a);
    if a.Write? && a.t < |s.pcs| && Mine(s.pcs[a.t]).Some? {
      NotElsewhere(limits, s, a.t);
      forall i | 0 <= i < |s.queue| && s.queue[i].Frame? ensures s.queue[i].buffer != Mine(s.pcs[a.t]).value {
        QueuedHas(s.queue, i);
      }
    }
    if a.Pop? && s.queue != [] {
      assert s.taken + s.queue == (s.taken + [s.queue[0]]) + s.queue[1..];
    }
    if (a.Push? || a.PushNull?) && |s1.queue| > |s.queue| {
      assert s.put + [s1.queue[|s.queue|]] == s.taken + s1.queue;
    }
  }

  lemma StepBoundsNulls(limits: Limits, s: System, a: Action)
    requires Nulls(s.queue) <= s.nulls <= limits.maxNulls
    ensures Nulls(Step(limits, s, a).queue) <= Step(limits, s, a).nulls <= limits.maxNulls
  {
    var s1 := Step(limits, s, a);
    if |s1.queue| > |s.queue| {
      NullsAppend(s.queue, s1.queue[|s.queue|]);
      assert s1.queue == s.queue + [s1.queue[|s.queue|]];
      hide Nulls;
      assert a.PushNull? ==> s1.queue[|s.queue|].Null?;
    }
  }

  lemma StepKeepsInvariant(limits: Limits, s: System, a: Action)
    requires Invariant(limits, s)
    ensures Invariant(limits, Step(limits, s, a))
  {
    hide Step, BuffersConserved, CountsAgree, InOrder, Nulls;
    StepConserves(limits, s, a);
    StepCounts(limits, s, a);
    StepOrders(limits, s, a);
    StepBoundsNulls(limits, s, a);
  }

  lemma {:induction false} NothingHeld(threads: nat)
    ensures Held(seq(threads, _ => Idle)) == multiset{} && Between(seq(threads, _ => Idle)) == 0
  {
    if threads > 0 {
      assert seq(threads, _ => Idle)[1..] == seq(threads - 1, _ => Idle);
      NothingHeld(threads - 1);
    }
  }

  /** In every interleaving of any number of threads: no buffer is lost or shared, frames
      come out in the order and with the content they were put, and the front of an empty
      list is never asked for. */
  lemma {:induction false} RunKeepsInvariant(limits: Limits, threads: nat, acts: seq<Action>)
    ensures Invariant(limits, Run(limits, Start(limits, threads), acts))
    decreases |acts|
  {
    if acts == [] {
      NothingHeld(threads);
    } else {
      RunKeepsInvariant(limits, threads, acts[..|acts| - 1]);
      StepKeepsInvariant(limits, Run(limits, Start(limits, threads), acts[..|acts| - 1]), acts[|acts| - 1]);
    }
  }

  /** A thread that waits for the semaphore waits only for what is not there: no wake-up is lost. */
  lemma NoLostWakeup(limits: Limits, threads: nat, acts: seq<Action>)
    ensures var s := Run(limits, Start(limits, threads), acts);
            s.semaphore == 0 && s.queue != [] ==>
              exists t :: 0 <= t < |s.pcs| && (s.pcs[t].Acquired? || s.pcs[t].Pushing?)
  {
    RunKeepsInvariant(limits, threads, acts);
    var s := Run(limits, Start(limits, threads), acts);
    if s.semaphore == 0 && s.queue != [] {
      SomeoneBetween(s.pcs);
    }
  }

  lemma {:induction false} SomeoneBetween(pcs: seq<Pc>)
    requires Between(pcs) > 0
    ensures exists t :: 0 <= t < |pcs| && (pcs[t].Acquired? || pcs[t].Pushing?)
  {
    if Weight(pcs[0]) == 0 {
      SomeoneBetween(pcs[1..]);
      var t :| 0 <= t < |pcs[1..]| && (pcs[1..][t].Acquired? || pcs[1..][t].Pushing?);
      assert pcs[t + 1] == pcs[1..][t];
    }
  }

  // ------------------------------------------------------------- when Put never aborts

  lemma {:induction false} EnoughRoomNeverAborts(limits: Limits, threads: nat, acts: seq<Action>)
    requires limits.pool + limits.maxNulls <= limits.capacity
    ensures !Run(limits, Start(limits, threads), acts).aborted
    decreases |acts|
  {
    if acts != [] {
      var before, a := Run(limits, Start(limits, threads), acts[..|acts| - 1]), acts[|acts| - 1];
      EnoughRoomNeverAborts(limits, threads, acts[..|acts| - 1]);
      RunKeepsInvariant(limits, threads, acts[..|acts| - 1]);
      if a.t < |before.pcs| && before.pcs[a.t].Holding? {
        RoomForOne(limits, before, a.t, Frame(0, 0));
      }
      if a.PushNull? && a.t < |before.pcs| && before.nulls < limits.maxNulls {
        RoomForOne(limits, before, a.t, Null);
      }
    }
  }

  /** One thread that fills the queue: `frames` buffers of the pool, then `nulls` NULLs. */
  function Filling(frames: nat, nulls: nat): seq<Action> {
    if nulls > 0 then Filling(frames, nulls - 1) + [PushNull(0), Release(0)]
    else if frames > 0 then Filling(frames - 1, 0) + [Take(0, frames - 1), Push(0), Release(0)]
    else []
  }

  lemma {:induction false} RunAppend(limits: Limits, s: System, a: seq<Action>, b: seq<Action>)
    ensures Run(limits, s, a + b) == Run(limits, Run(limits, s, a), b)
    decreases |b|
  {
    if b == [] {
      assert a + b == a;
    } else {
      assert (a + b)[..|a + b| - 1] == a + b[..|b| - 1];
      RunAppend(limits, s, a, b[..|b| - 1]);
    }
  }

  predicate Filled(limits: Limits, s: System, frames: nat, nulls: nat) {
    && |s.queue| == frames + nulls && s.nulls == nulls && !s.aborted && !s.poppedEmpty
    && s.lock.None? && |s.pcs| > 0 && (forall t :: 0 <= t < |s.pcs| ==> s.pcs[t].Idle?)
    && |s.memory| == limits.pool && forall b :: b in s.owned ==> b < frames
  }

  lemma FillNull(limits: Limits, s: System, frames: nat, nulls: nat)
    requires Filled(limits, s, frames, nulls) && nulls < limits.maxNulls && frames + nulls < limits.capacity
    ensures Filled(limits, Step(limits, Step(limits, s, PushNull(0)), Release(0)), frames, nulls + 1)
  {
  }

  lemma FillFrame(limits: Limits, s: System, frames: nat)
    requires Filled(limits, s, frames, 0) && frames < limits.pool && frames < limits.capacity
    ensures Filled(limits, Step(limits, Step(limits, Step(limits, s, Take(0, frames)), Push(0)), Release(0)), frames + 1, 0)
  {
  }

  lemma {:induction false} FillingFills(limits: Limits, threads: nat, frames: nat, nulls: nat)
    requires threads > 0 && frames <= limits.pool && nulls <= limits.maxNulls
    requires frames + nulls <= limits.capacity
    ensures Filled(limits, Run(limits, Start(limits, threads), Filling(frames, nulls)), frames, nulls)
  {
    hide Step;
    var s0 := Start(limits, threads);
    if nulls > 0 {
      FillingFills(limits, threads, frames, nulls - 1);
      RunAppend(limits, s0, Filling(frames, nulls - 1), [PushNull(0), Release(0)]);
      TwoSteps(limits, Run(limits, s0, Filling(frames, nulls - 1)), PushNull(0), Release(0));
      FillNull(limits, Run(limits, s0, Filling(frames, nulls - 1)), frames, nulls - 1);
    } else if frames > 0 {
      FillingFills(limits, threads, frames - 1, 0);
      RunAppend(limits, s0, Filling(frames - 1, 0), [Take(0, frames - 1), Push(0), Release(0)]);
      ThreeSteps(limits, Run(limits, s0, Filling(frames - 1, 0)), Take(0, frames - 1), Push(0), Release(0));
      FillFrame(limits, Run(limits, s0, Filling(frames - 1, 0)), frames - 1);
    }
  }

  lemma TwoSteps(limits: Limits, s: System, a: Action, b: Action)
    ensures Run(limits, s, [a, b]) == Step(limits, Step(limits, s, a), b)
  {
    assert [a, b][..1] == [a] && [a][..0] == [];
    assert Run(limits, s, [a]) == Step(limits, Run(limits, s, []), a);
  }

  lemma ThreeSteps(limits: Limits, s: System, a: Action, b: Action, c: Action)
    ensures Run(limits, s, [a, b, c]) == Step(limits, Step(limits, Step(limits, s, a), b), c)
  {
    TwoSteps(limits, s, a, b);
    assert [a, b, c][..2] == [a, b];
  }

  /** The queue is safe exactly when it can hold the whole pool and every NULL. */
  lemma NeverAbortsIffRoomForAll(limits: Limits)
    ensures (forall threads: nat, acts: seq<Action> :: !Run(limits, Start(limits, threads), acts).aborted)
            <==> limits.pool + limits.maxNulls <= limits.capacity
  {
    if limits.pool + limits.maxNulls <= limits.capacity {
      forall threads: nat, acts: seq<Action> ensures !Run(limits, Start(limits, threads), acts).aborted {
        EnoughRoomNeverAborts(limits, threads, acts);
      }
    } else {
      var acts := Overfilling(limits);
      assert Run(limits, Start(limits, 1), acts).aborted;
    }
  }

  lemma Overfilling(limits: Limits) returns (acts: seq<Action>)
    requires limits.pool + limits.maxNulls > limits.capacity
    ensures Run(limits, Start(limits, 1), acts).aborted
  {
    var s0 := Start(limits, 1);
    if limits.pool > limits.capacity {
      var full := Filling(limits.capacity, 0);
      FillingFills(limits, 1, limits.capacity, 0);
      acts := full + [Take(0, limits.capacity), Push(0)];
      RunAppend(limits, s0, full, [Take(0, limits.capacity), Push(0)]);
      TwoSteps(limits, Run(limits, s0, full), Take(0, limits.capacity), Push(0));
    } else {
      var full := Filling(limits.pool, limits.capacity - limits.pool);
      FillingFills(limits, 1, limits.pool, limits.capacity - limits.pool);
      acts := full + [PushNull(0)];
      RunAppend(limits, s0, full, [PushNull(0)]);
      assert [PushNull(0)][..0] == [];
    }
  }

  // ------------------------------------------------------------------ the four users

  const ENCODER := Limits(11, 10, 1)        // each Stop puts one NULL
  const DECODER := Limits(33, 32, 0)
  const MIXER := Limits(16, 16, 0)
  const ECHO_CANCELLER := Limits(11, 10, 0)

  lemma EveryPipelineIsSafe(threads: nat, acts: seq<Action>)
    ensures !Run(ENCODER, Start(ENCODER, threads), acts).aborted
    ensures !Run(DECODER, Start(DECODER, threads), acts).aborted
    ensures !Run(MIXER, Start(MIXER, threads), acts).aborted
    ensures !Run(ECHO_CANCELLER, Start(ECHO_CANCELLER, threads), acts).aborted
  {
    EnoughRoomNeverAborts(ENCODER, threads, acts);
    EnoughRoomNeverAborts(DECODER, threads, acts);
    EnoughRoomNeverAborts(MIXER, threads, acts);
    EnoughRoomNeverAborts(ECHO_CANCELLER, threads, acts);
  }
}
