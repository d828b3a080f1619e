/** The encoder around its queue: the audio callback (thread 0), the encoder thread (1), and
    whoever starts and stops it (2), with the flag that the thread looks at only between two
    packets. */
module OpusEncoder {
  import opened Options
  import opened Pipeline
  import Sets

  /** Where the encoder thread is: before `while(running)`, inside the loop, or gone. */
  datatype Thread = Gone | AtHead | Inside

  /** Where a call of Stop is. */
  datatype Stopper = NotStopping | FlagCleared | NullPut | Joining

  datatype Encoder = Encoder(sys: System, running: bool, thread: Thread, stopper: Stopper)

  datatype Event =
    | Start
    | ClearFlag            // Stop, and what it does in turn
    | PutNull
    | ReleaseQueue
    | Join
    | CheckFlag            // the encoder thread at the head of its loop
    | Encode(step: Action) // and in its body
    | Callback(step: Action)

  /** An encoder that is stopped at most `stops` times. */
  function Bound(stops: nat): Limits {
    ENCODER.(maxNulls := stops)
  }

  function NewEncoder(stops: nat): Encoder {
    Encoder(Pipeline.Start(Bound(stops), 3), false, Gone, NotStopping)
  }

  predicate OfCallback(a: Action) {
    a.t == 0 && (a.Take? || a.Write? || a.Push? || a.Release?)
  }

  predicate OfThread(a: Action) {
    a.t == 1 && (a.Acquire? || a.Pop? || a.Write? || a.Finish?)
  }

  function At(e: Encoder, t: nat): Pc {
    if t < |e.sys.pcs| then e.sys.pcs[t] else Idle
  }

  /** A step that is not possible changes nothing. */
  function Next(stops: nat, e: Encoder, ev: Event): Encoder {
    match ev
    case Start =>
      if e.stopper.NotStopping? && !e.running then e.(running := true, thread := AtHead) else e
    case ClearFlag =>
      if e.stopper.NotStopping? && e.running && e.sys.nulls < stops
      then e.(running := false, stopper := FlagCleared) else e
    case PutNull =>
      if e.stopper.FlagCleared? && e.sys.lock.None?
      then e.(sys := Step(Bound(stops), e.sys, PushNull(2)), stopper := NullPut) else e
    case ReleaseQueue =>
      if e.stopper.NullPut? then e.(sys := Step(Bound(stops), e.sys, Release(2)), stopper := Joining) else e
    case Join =>
      if e.stopper.Joining? && e.thread.Gone? then e.(stopper := NotStopping) else e
    case CheckFlag =>
      if e.thread.AtHead? then e.(thread := if e.running then Inside else Gone) else e
    case Encode(a) =>
      if e.thread.Inside? && OfThread(a)
      then e.(sys := Step(Bound(stops), e.sys, a),
              thread := if a.Finish? && At(e, 1).Processing? then AtHead else Inside)
      else e
    case Callback(a) =>
      if OfCallback(a) then e.(sys := Step(Bound(stops), e.sys, a)) else e
  }

  function Runs(stops: nat, e: Encoder, evs: seq<Event>): Encoder
    decreases |evs|
  {
    if evs == [] then e else Next(stops, Runs(stops, e, evs[..|evs| - 1]), evs[|evs| - 1])
  }

  // ---------------------------------------------------------- a run of the pipeline

  /** What an event does to pool and queue is one of the pipeline's steps, or nothing. */
  lemma EventIsStep(stops: nat, e: Encoder, ev: Event)
    ensures var e' := Next(stops, e, ev);
            e'.sys == e.sys || exists a :: e'.sys == Step(Bound(stops), e.sys, a)
  {
    hide Step;
    var e' := Next(stops, e, ev);
    match ev
    case PutNull => assert e'.sys == e.sys || e'.sys == Step(Bound(stops), e.sys, PushNull(2));
    case ReleaseQueue => assert e'.sys == e.sys || e'.sys == Step(Bound(stops), e.sys, Release(2));
    case Encode(a) => assert e'.sys == e.sys || e'.sys == Step(Bound(stops), e.sys, a);
    case Callback(a) => assert e'.sys == e.sys || e'.sys == Step(Bound(stops), e.sys, a);
    case _ =>
  }

  /** So every run of the encoder is, for pool and queue, a run of the pipeline. */
  lemma {:induction false} EncoderRunsAreRuns(stops: nat, evs: seq<Event>) returns (acts: seq<Action>)
    ensures Runs(stops, NewEncoder(stops), evs).sys == Run(Bound(stops), Pipeline.Start(Bound(stops), 3), acts)
    decreases |evs|
  {
    hide Step, Next;
    if evs == [] {
      acts := [];
    } else {
      var before := Runs(stops, NewEncoder(stops), evs[..|evs| - 1]);
      acts := EncoderRunsAreRuns(stops, evs[..|evs| - 1]);
      EventIsStep(stops, before, evs[|evs| - 1]);
      if Runs(stops, NewEncoder(stops), evs).sys != before.sys {
        var a :| Next(stops, before, evs[|evs| - 1]).sys == Step(Bound(stops), before.sys, a);
        assert (acts + [a])[..|acts|] == acts;
        acts := acts + [a];
      }
    }
  }

  // ------------------------------------------------------------------ the bad run

  lemma {:induction false} RunsAppend(stops: nat, e: Encoder, a: seq<Event>, b: seq<Event>)
    ensures Runs(stops, e, a + b) == Runs(stops, Runs(stops, e, a), b)
    decreases |b|
  {
    hide Next;
    if b == [] {
      assert a + b == a;
    } else {
      assert (a + b)[..|a + b| - 1] == a + b[..|b| - 1];
      RunsAppend(stops, e, a, b[..|b| - 1]);
    }
  }

  lemma RunsOne(stops: nat, e: Encoder, a: seq<Event>, ev: Event)
    ensures Runs(stops, e, a + [ev]) == Next(stops, Runs(stops, e, a), ev)
  {
    assert (a + [ev])[..|a|] == a;
  }

  function Callbacks(acts: seq<Action>): (evs: seq<Event>)
    ensures |evs| == |acts|
  {
    seq(|acts|, i requires 0 <= i < |acts| => Callback(acts[i]))
  }

  lemma {:induction false} CallbacksRun(stops: nat, e: Encoder, acts: seq<Action>)
    requires forall a :: a in acts ==> OfCallback(a)
    ensures Runs(stops, e, Callbacks(acts)) == e.(sys := Run(Bound(stops), e.sys, acts))
    decreases |acts|
  {
    hide Step;
    if acts != [] {
      var front, last := acts[..|acts| - 1], acts[|acts| - 1];
      assert Callbacks(acts) == Callbacks(front) + [Callback(last)];
      CallbacksRun(stops, e, front);
      RunsOne(stops, e, Callbacks(front), Callback(last));
      assert last in acts;
    }
  }

  lemma {:induction false} FillingIsOfCallback(frames: nat)
    ensures forall a :: a in Filling(frames, 0) ==> OfCallback(a)
  {
    if frames > 0 {
      FillingIsOfCallback(frames - 1);
    }
  }

  /** The encoder runs, its thread has not looked at the flag yet, and the queue holds so
      many entries, among them as many NULLs as it was stopped. */
  predicate Waiting(e: Encoder, length: nat, nulls: nat) {
    && e.running && e.thread.AtHead? && e.stopper.NotStopping?
    && |e.sys.queue| == length && e.sys.nulls == nulls && e.sys.lock.None?
    && !e.sys.aborted && !e.sys.poppedEmpty
    && |e.sys.pcs| == 3 && e.sys.pcs[2].Idle?
  }

  /** Stop has put its NULL and still holds the queue. */
  predicate HasPut(e: Encoder, length: nat, nulls: nat) {
    && !e.running && e.thread.AtHead? && e.stopper.NullPut?
    && |e.sys.queue| == length && e.sys.nulls == nulls
    && !e.sys.aborted && !e.sys.poppedEmpty
    && |e.sys.pcs| == 3 && e.sys.pcs[2].Pushing?
  }

  lemma StopPuts(stops: nat, e: Encoder, length: nat, nulls: nat)
    requires Waiting(e, length, nulls) && nulls < stops && length < 11
    ensures HasPut(Next(stops, Next(stops, e, ClearFlag), PutNull), length + 1, nulls + 1)
  {
    assert Bound(stops).capacity == 11 && Bound(stops).maxNulls == stops;
  }

  lemma StopsAndStarts(stops: nat, e: Encoder, length: nat, nulls: nat)
    requires HasPut(e, length, nulls)
    ensures Waiting(Next(stops, Next(stops, Next(stops, Next(stops, e, ReleaseQueue), CheckFlag), Join), Start), length, nulls)
  {
    var released := Next(stops, e, ReleaseQueue);
    assert released.sys.lock.None? && released.sys.pcs[2].Idle? && released.stopper.Joining?;
    hide Step;
    assert Next(stops, Next(stops, released, CheckFlag), Join) == released.(thread := Gone, stopper := NotStopping);
  }

  lemma RunsFour(stops: nat, e: Encoder, a: Event, b: Event, c: Event, d: Event)
    ensures Runs(stops, e, [a, b]) == Next(stops, Next(stops, e, a), b)
    ensures Runs(stops, e, [a, b, c, d]) == Next(stops, Next(stops, Next(stops, Next(stops, e, a), b), c), d)
  {
    hide Next;
    assert [a] == [] + [a] && [a, b] == [a] + [b] && [a, b, c] == [a, b] + [c] && [a, b, c, d] == [a, b, c] + [d];
    RunsOne(stops, e, [], a);
    RunsOne(stops, e, [a], b);
    RunsOne(stops, e, [a, b], c);
    RunsOne(stops, e, [a, b, c], d);
  }

  /** Stop, with a thread that sees the cleared flag and leaves the NULL behind, then Start. */
  lemma StopAndStart(stops: nat, e: Encoder, length: nat, nulls: nat)
    requires Waiting(e, length, nulls) && nulls < stops && length < 11
    ensures Waiting(Runs(stops, e, [ClearFlag, PutNull] + [ReleaseQueue, CheckFlag, Join, Start]), length + 1, nulls + 1)
  {
    hide Next, Runs, Waiting, HasPut;
    StopPuts(stops, e, length, nulls);
    RunsAppend(stops, e, [ClearFlag, PutNull], [ReleaseQueue, CheckFlag, Join, Start]);
    RunsFour(stops, e, ClearFlag, PutNull, Join, Start);
    var mid := Runs(stops, e, [ClearFlag, PutNull]);
    RunsFour(stops, mid, ReleaseQueue, CheckFlag, Join, Start);
    StopsAndStarts(stops, mid, length + 1, nulls + 1);
  }

  lemma StopAborts(stops: nat, e: Encoder, nulls: nat)
    requires Waiting(e, 11, nulls) && nulls < stops
    ensures Runs(stops, e, [ClearFlag, PutNull]).sys.aborted
  {
    RunsFour(stops, e, ClearFlag, PutNull, Join, Start);
  }

  /** Start, ten packets before the thread gets to run, Stop, Start, Stop. */
  lemma StoppedTwiceAborts(stops: nat) returns (evs: seq<Event>)
    requires stops > 1
    ensures Runs(stops, NewEncoder(stops), evs).sys.aborted
  {
    hide Step, Run, Next, Runs;
    var e0 := NewEncoder(stops);
    var fill := Callbacks(Filling(10, 0));
    StartsUp(stops);
    var e1 := Runs(stops, e0, [Start]);
    FillingIsOfCallback(10);
    FillingFills(Bound(stops), 3, 10, 0);
    CallbacksRun(stops, e1, Filling(10, 0));
    RunsAppend(stops, e0, [Start], fill);
    var e2 := Runs(stops, e1, fill);
    assert Waiting(e2, 10, 0) by { FillingKeepsThreads(Bound(stops), 3, 10); }
    var again := [ClearFlag, PutNull] + [ReleaseQueue, CheckFlag, Join, Start];
    StopAndStart(stops, e2, 10, 0);
    RunsAppend(stops, e0, [Start] + fill, again);
    StopAborts(stops, Runs(stops, e2, again), 1);
    RunsAppend(stops, e0, [Start] + fill + again, [ClearFlag, PutNull]);
    evs := [Start] + fill + again + [ClearFlag, PutNull];
  }

  lemma StartsUp(stops: nat)
    ensures Runs(stops, NewEncoder(stops), [Start]) == NewEncoder(stops).(running := true, thread := AtHead)
  {
    assert [Start] == [] + [Start];
    RunsOne(stops, NewEncoder(stops), [], Start);
  }

  lemma {:induction false} FillingKeepsThreads(limits: Limits, threads: nat, frames: nat)
    ensures |Run(limits, Pipeline.Start(limits, threads), Filling(frames, 0)).pcs| == threads
  {
    RunKeepsThreads(limits, Pipeline.Start(limits, threads), Filling(frames, 0));
  }

  lemma {:induction false} RunKeepsThreads(limits: Limits, s: System, acts: seq<Action>)
    ensures |Run(limits, s, acts).pcs| == |s.pcs|
    decreases |acts|
  {
    if acts != [] {
      RunKeepsThreads(limits, s, acts[..|acts| - 1]);
    }
  }

  /** The queue's one place beyond the pool is enough for one stop and no more: however the
      three threads interleave, an encoder never aborts if it is stopped once, and one that
      is started again and stopped a second time may. */
  lemma SafeForOneStop(stops: nat)
    ensures (forall evs :: !Runs(stops, NewEncoder(stops), evs).sys.aborted) <==> stops <= 1
  {
    if stops <= 1 {
      forall evs ensures !Runs(stops, NewEncoder(stops), evs).sys.aborted {
        var acts := EncoderRunsAreRuns(stops, evs);
        EnoughRoomNeverAborts(Bound(stops), 3, acts);
      }
    } else {
      var evs := StoppedTwiceAborts(stops);
    }
  }

  // -------------------------------------------------------- when the next stop can abort

  /** From here some run, without a stop in between, ends in a stop that aborts. */
  ghost predicate NextStopCanAbort(stops: nat, e: Encoder) {
    exists more :: PutNull !in more && !Runs(stops, e, more).sys.aborted && Runs(stops, e, more + [PutNull]).sys.aborted
  }

  lemma {:induction false} AbortNeedsNull(stops: nat, evs: seq<Event>)
    requires !Runs(stops, NewEncoder(stops), evs).sys.aborted
    requires Runs(stops, NewEncoder(stops), evs + [PutNull]).sys.aborted
    ensures Nulls(Runs(stops, NewEncoder(stops), evs).sys.queue) > 0
  {
    hide Runs, Run, Nulls;
    var s := Runs(stops, NewEncoder(stops), evs).sys;
    var acts := EncoderRunsAreRuns(stops, evs);
    RunKeepsInvariant(Bound(stops), 3, acts);
    RunsOne(stops, NewEncoder(stops), evs, PutNull);
    FramesFitPool(Bound(stops), s);
  }

  lemma FramesFitPool(limits: Limits, s: System)
    requires BuffersConserved(limits, s)
    ensures |s.queue| <= limits.pool + Nulls(s.queue)
  {
    QueueSize(s.queue);
    Sets.BelowIs(limits.pool);
    Sets.SubsetSize(s.owned, Sets.Below(limits.pool));
    assert |Held(s.pcs)| + |Queued(s.queue)| == |multiset(s.owned)| == |s.owned|;
  }

  /** Only a stop adds a NULL. */
  lemma NullsOnlyFromStop(stops: nat, e: Encoder, ev: Event)
    requires ev != PutNull
    ensures Nulls(Next(stops, e, ev).sys.queue) <= Nulls(e.sys.queue)
  {
    var s := e.sys;
    if (ev.Callback? || ev.Encode?) && ev.step.Push? && ev.step.t < |s.pcs| && s.pcs[ev.step.t].Holding? {
      if s.pcs[ev.step.t].buffer < |s.memory| {
        NullsAppend(s.queue, Frame(s.pcs[ev.step.t].buffer, s.memory[s.pcs[ev.step.t].buffer]));
      }
    }
  }

  lemma {:induction false} NullsStay(stops: nat, e: Encoder, more: seq<Event>)
    requires PutNull !in more
    ensures Nulls(Runs(stops, e, more).sys.queue) <= Nulls(e.sys.queue)
    decreases |more|
  {
    hide Next, Nulls;
    if more != [] {
      NullsStay(stops, e, more[..|more| - 1]);
      NullsOnlyFromStop(stops, Runs(stops, e, more[..|more| - 1]), more[|more| - 1]);
    }
  }

  /** Who may be where while nothing has gone wrong. */
  predicate Roles(stops: nat, e: Encoder) {
    && |e.sys.pcs| == 3
    && (e.sys.pcs[0].Idle? || e.sys.pcs[0].Holding? || e.sys.pcs[0].Pushing?)
    && (e.sys.pcs[1].Idle? || e.sys.pcs[1].Acquired? || e.sys.pcs[1].Processing?)
    && (e.thread.Inside? || e.sys.pcs[1].Idle?)
    && (if e.stopper.NullPut? then e.sys.pcs[2].Pushing? else e.sys.pcs[2].Idle?)
    && (e.stopper.FlagCleared? ==> e.sys.nulls < stops)
    && (e.stopper.NotStopping? && !e.running ==> e.thread.Gone?)
  }

  lemma {:induction false} NextKeepsRoles(stops: nat, e: Encoder, ev: Event)
    requires Roles(stops, e) && !e.sys.aborted && !e.sys.poppedEmpty
    requires var s := Next(stops, e, ev).sys; !s.aborted && !s.poppedEmpty
    ensures Roles(stops, Next(stops, e, ev))
  {
  }

  /** An encoder that goes on: a stop is left, and nothing has gone wrong. */
  ghost predicate GoesOn(stops: nat, e: Encoder) {
    && Roles(stops, e) && Invariant(Bound(stops), e.sys) && !e.sys.aborted
    && |e.sys.queue| <= 11
  }

  lemma {:induction false} NextGoesOn(stops: nat, e: Encoder, ev: Event)
    requires GoesOn(stops, e) && !Next(stops, e, ev).sys.aborted
    ensures GoesOn(stops, Next(stops, e, ev))
  {
    hide Invariant, Roles;
    EventIsStep(stops, e, ev);
    var e' := Next(stops, e, ev);
    if e'.sys != e.sys {
      var a :| e'.sys == Step(Bound(stops), e.sys, a);
      StepKeepsInvariant(Bound(stops), e.sys, a);
    }
    NeverPopped(stops, e.sys);
    NeverPopped(stops, e'.sys);
    NextKeepsRoles(stops, e, ev);
    WithinCapacity(stops, e, ev);
  }

  lemma NeverPopped(stops: nat, s: System)
    requires Invariant(Bound(stops), s)
    ensures !s.poppedEmpty
  {
  }

  lemma WithinCapacity(stops: nat, e: Encoder, ev: Event)
    requires |e.sys.queue| <= 11
    ensures |Next(stops, e, ev).sys.queue| <= 11
  {
  }

  lemma {:induction false} AbortedStays(stops: nat, e: Encoder, ev: Event)
    requires e.sys.aborted
    ensures Next(stops, e, ev).sys.aborted
  {
  }

  lemma {:induction false} RunGoesOn(stops: nat, evs: seq<Event>)
    requires !Runs(stops, NewEncoder(stops), evs).sys.aborted
    ensures GoesOn(stops, Runs(stops, NewEncoder(stops), evs))
    decreases |evs|
  {
    hide Next, GoesOn;
    if evs == [] {
      NewGoesOn(stops);
    } else {
      var before := Runs(stops, NewEncoder(stops), evs[..|evs| - 1]);
      if before.sys.aborted {
        AbortedStays(stops, before, evs[|evs| - 1]);
      }
      RunGoesOn(stops, evs[..|evs| - 1]);
      NextGoesOn(stops, before, evs[|evs| - 1]);
    }
  }

  lemma NewGoesOn(stops: nat)
    ensures GoesOn(stops, NewEncoder(stops))
  {
    RunKeepsInvariant(Bound(stops), 3, []);
  }

  lemma {:induction false} NobodyHolds(pcs: seq<Pc>)
    requires forall t :: 0 <= t < |pcs| ==> Mine(pcs[t]).None?
    ensures Held(pcs) == multiset{}
  {
    if pcs != [] {
      NobodyHolds(pcs[1..]);
    }
  }

  /** With nobody holding one and a NULL in a queue that is not full, some buffer is free. */
  lemma {:induction false} FreeBuffer(stops: nat, e: Encoder) returns (b: nat)
    requires GoesOn(stops, e) && Nulls(e.sys.queue) > 0 && |e.sys.queue| < 11
    requires forall t :: 0 <= t < 3 ==> Mine(e.sys.pcs[t]).None?
    ensures b < 10 && b !in e.sys.owned
  {
    hide Nulls, Held, Queued;
    var s := e.sys;
    NobodyHolds(s.pcs);
    QueueSize(s.queue);
    assert |Held(s.pcs)| + |Queued(s.queue)| == |multiset(s.owned)| == |s.owned|;
    Sets.BelowIs(10);
    if forall k :: 0 <= k < 10 ==> k in s.owned {
      Sets.SubsetSize(Sets.Below(10), s.owned);
      assert false;
    }
    b :| 0 <= b < 10 && b !in s.owned;
  }

  /** What is still to be done before the queue is full and free. */
  function Rank(e: Encoder): nat
    requires |e.sys.pcs| == 3
  {
    (if e.sys.lock.Some? then 4 else 0) + (if e.sys.pcs[1].Processing? then 2 else 0) + (if e.sys.pcs[0].Idle? then 1 else 0)
  }

  /** A running encoder with a stop left. */
  predicate MayStop(stops: nat, e: Encoder) {
    e.running && e.stopper.NotStopping? && e.sys.nulls < stops
  }

  /** One event nearer to a full queue that nobody holds. */
  lemma {:induction false} OneNearer(stops: nat, e: Encoder) returns (ev: Event)
    requires GoesOn(stops, e) && MayStop(stops, e) && Nulls(e.sys.queue) > 0
    requires |e.sys.queue| < 11 || e.sys.lock.Some?
    ensures ev != PutNull
    ensures var e' := Next(stops, e, ev);
            && !e'.sys.aborted && MayStop(stops, e') && Nulls(e'.sys.queue) >= Nulls(e.sys.queue)
            && |e'.sys.pcs| == 3
            && (|e'.sys.queue| > |e.sys.queue| || (|e'.sys.queue| == |e.sys.queue| && Rank(e') < Rank(e)))
  {
    hide BuffersConserved, InOrder;
    var s := e.sys;
    if s.lock.Some? {
      ev := Callback(Release(0));
    } else if s.pcs[1].Processing? {
      ev := Encode(Finish(1));
    } else if s.pcs[0].Holding? {
      ev := Callback(Push(0));
      HoldsARealBuffer(stops, e);
      NullsAppend(s.queue, Frame(s.pcs[0].buffer, s.memory[s.pcs[0].buffer]));
    } else {
      var b := FreeBuffer(stops, e);
      ev := Callback(Take(0, b));
    }
  }

  lemma HoldsARealBuffer(stops: nat, e: Encoder)
    requires GoesOn(stops, e) && e.sys.pcs[0].Holding?
    ensures e.sys.pcs[0].buffer < |e.sys.memory|
  {
    NotElsewhere(Bound(stops), e.sys, 0);
  }

  lemma {:induction false} FillsUp(stops: nat, e: Encoder) returns (more: seq<Event>)
    requires GoesOn(stops, e) && MayStop(stops, e) && Nulls(e.sys.queue) > 0
    ensures PutNull !in more
    ensures var e' := Runs(stops, e, more);
            GoesOn(stops, e') && MayStop(stops, e') && |e'.sys.queue| == 11 && e'.sys.lock.None?
    decreases 11 - |e.sys.queue|, Rank(e)
  {
    hide Next, Nulls, Invariant, Runs, MayStop;
    if |e.sys.queue| == 11 && e.sys.lock.None? {
      more := [];
      RunsNone(stops, e);
    } else {
      var ev := OneNearer(stops, e);
      NextGoesOn(stops, e, ev);
      var rest := FillsUp(stops, Next(stops, e, ev));
      RunsAppend(stops, e, [ev], rest);
      RunsNone(stops, e);
      RunsOne(stops, e, [], ev);
      assert [] + [ev] == [ev];
      more := [ev] + rest;
    }
  }

  lemma RunsNone(stops: nat, e: Encoder)
    ensures Runs(stops, e, []) == e
  {
  }

  /** Stop, with the queue full. */
  lemma FullQueueAborts(stops: nat, e: Encoder)
    requires GoesOn(stops, e) && MayStop(stops, e) && |e.sys.queue| == 11 && e.sys.lock.None?
    ensures !Next(stops, e, ClearFlag).sys.aborted
    ensures Next(stops, Next(stops, e, ClearFlag), PutNull).sys.aborted
  {
    hide BuffersConserved, CountsAgree, InOrder;
  }

  /** Exactly when a stop can still go wrong, however often the encoder was stopped before:
      while it runs, the next stop can abort if and only if the NULL of an earlier one is
      queued. */
  lemma {:induction false} AbortNeedsLeftOverNull(stops: nat, evs: seq<Event>)
    requires var e := Runs(stops, NewEncoder(stops), evs); MayStop(stops, e) && !e.sys.aborted
    ensures var e := Runs(stops, NewEncoder(stops), evs);
            NextStopCanAbort(stops, e) <==> Nulls(e.sys.queue) > 0
  {
    hide Next, Nulls, Runs, GoesOn, MayStop;
    var e := Runs(stops, NewEncoder(stops), evs);
    if Nulls(e.sys.queue) > 0 {
      RunGoesOn(stops, evs);
      var fill := FillsUp(stops, e);
      var full := Runs(stops, e, fill);
      FullQueueAborts(stops, full);
      RunsOne(stops, e, fill, ClearFlag);
      RunsOne(stops, e, fill + [ClearFlag], PutNull);
      assert PutNull !in fill + [ClearFlag];
    } else {
      forall more | PutNull !in more && !Runs(stops, e, more).sys.aborted
        ensures !Runs(stops, e, more + [PutNull]).sys.aborted
      {
        NullsStay(stops, e, more);
        RunsAppend(stops, NewEncoder(stops), evs, more);
        RunsAppend(stops, NewEncoder(stops), evs, more + [PutNull]);
        assert (evs + more) + [PutNull] == evs + (more + [PutNull]);
        if Runs(stops, e, more + [PutNull]).sys.aborted {
          AbortNeedsNull(stops, evs + more);
        }
      }
    }
  }
}
