/** The gateway: a list of bridges, each event routed to one of them, and what holds over
    every run of events. */
module GatewayModel {
  import opened Options
  import opened BridgeModel

  datatype GatewayState = GatewayState(
    bridges: seq<Bridge>,
    errors: seq<nat>,    // queued internal errors, by context
    log: seq<Entry>,     // what was issued or learnt so far
    nextCtx: nat,        // contexts are numbered and never reused
    halted: bool)        // an exception left the event loop

  const EMPTY_GATEWAY: GatewayState := GatewayState([], [], [], 0, false)

  datatype Input =
    | External(event: Event, replies: Replies)
    | Internal           // the loop takes an internal error from its queue

  /** The first bridge an event is for, or the number of bridges. */
  function Find(bridges: seq<Bridge>, e: Event): (i: nat)
    ensures i <= |bridges|
    ensures i < |bridges| ==> Matches(bridges[i], e)
    ensures forall j :: 0 <= j < i ==> !Matches(bridges[j], e)
  {
    if bridges == [] || Matches(bridges[0], e) then 0 else Find(bridges[1..], e) + 1
  }

  function Without(bridges: seq<Bridge>, i: nat): seq<Bridge>
    requires i < |bridges|
  {
    bridges[..i] + bridges[i + 1..]
  }

  /** The list after the `i`-th bridge became `b`, or left. */
  function Replaced(bridges: seq<Bridge>, i: nat, b: Bridge, gone: bool): seq<Bridge>
    requires i < |bridges|
  {
    if gone then Without(bridges, i) else bridges[i := b]
  }

  /** The event is processed by the `i`-th bridge, which leaves the list when it is done. */
  function Processed(g: GatewayState, callbackUriIsSet: bool, i: nat, e: Event, r: Replies): GatewayState
    requires i < |g.bridges|
  {
    var o := React(g.bridges[i], callbackUriIsSet, e, r);
    g.(bridges := Replaced(g.bridges, i, o.bridge, !o.thrown && o.bridge.state.Terminated?),
       errors := g.errors + o.errors,
       log := g.log + o.issued,
       halted := o.thrown)
  }

  /** `search_call`: an event without a bridge gets a new one. */
  function WithBridge(g: GatewayState, e: Event): (r: GatewayState)
    ensures Find(g.bridges, e) < |r.bridges|
  {
    if Find(g.bridges, e) < |g.bridges| then g
    else g.(bridges := g.bridges + [NewBridge(g.nextCtx)], nextCtx := g.nextCtx + 1)
  }

  function Step(g: GatewayState, callbackUriIsSet: bool, input: Input): GatewayState {
    if g.halted then g else
    match input
    case External(e, r) =>
      if e.InternalError? then g
      else Processed(WithBridge(g, e), callbackUriIsSet, Find(g.bridges, e), e, r)
    case Internal =>
      if g.errors == [] then g
      else
        var e := InternalError(g.errors[0]);
        var g1 := g.(errors := g.errors[1..]);
        var i := Find(g.bridges, e);
        if i < |g.bridges| then Processed(g1, callbackUriIsSet, i, e, NO_REPLIES) else g1
  }

  /** An internal error asks nothing of the clients. */
  const NO_REPLIES: Replies := Replies(true, None, None, true, true, true)

  function Run(g: GatewayState, callbackUriIsSet: bool, inputs: seq<Input>): GatewayState
    decreases |inputs|
  {
    if inputs == [] then g
    else Step(Run(g, callbackUriIsSet, inputs[..|inputs| - 1]), callbackUriIsSet, inputs[|inputs| - 1])
  }

  // -------------------------------------------------------------------- the invariant

  predicate Listed(bridges: seq<Bridge>, ctx: nat) {
    exists i :: 0 <= i < |bridges| && bridges[i].ctx == ctx
  }

  ghost predicate Good(b: Bridge, log: seq<Entry>, errors: seq<nat>) {
    && Shaped(b) && !b.state.Terminated?
    && LegOpen(b, log, Tg) && LegOpen(b, log, Sip) && AudioIsDue(b, log)
    && (Lame(b) ==> b.ctx in errors)
  }

  ghost predicate Closed(ctx: nat, log: seq<Entry>) {
    LegClosed(ctx, log, Tg) && LegClosed(ctx, log, Sip)
  }

  predicate Numbered(g: GatewayState) {
    && (forall i :: 0 <= i < |g.bridges| ==> g.bridges[i].ctx < g.nextCtx)
    && (forall i, j :: 0 <= i < j < |g.bridges| ==> g.bridges[i].ctx != g.bridges[j].ctx)
    && (forall i :: 0 <= i < |g.log| ==> g.log[i].ctx < g.nextCtx)
  }

  ghost predicate AllGood(g: GatewayState) {
    forall i :: 0 <= i < |g.bridges| ==> Good(g.bridges[i], g.log, g.errors)
  }

  ghost predicate OthersClosed(g: GatewayState) {
    forall ctx: nat {:trigger Closed(ctx, g.log)} :: ctx < g.nextCtx && !Listed(g.bridges, ctx) ==> Closed(ctx, g.log)
  }

  predicate AllStarted(g: GatewayState) {
    forall i :: 0 <= i < |g.bridges| ==> g.bridges[i].state.FromTg? || g.bridges[i].state.FromSip?
  }

  ghost predicate Invariant(g: GatewayState) {
    Numbered(g) && AllGood(g) && OthersClosed(g) && AudioInOrder(g.log)
  }

  // -------------------------------------------------------------- one step keeps it

  lemma OthersOwnNothing(log: seq<Entry>, issued: seq<Entry>, owner: nat, e: Entry)
    requires OwnEntries(owner, issued) && e.ctx != owner
    ensures Count(log + issued, e) == Count(log, e)
  {
    OthersDoNotCount(log, issued, e);
  }

  lemma OtherStaysGood(b: Bridge, log: seq<Entry>, issued: seq<Entry>, errors: seq<nat>, errors1: seq<nat>, owner: nat)
    requires Good(b, log, errors) && OwnEntries(owner, issued) && owner != b.ctx
    requires b.ctx in errors ==> b.ctx in errors1
    ensures Good(b, log + issued, errors1)
  {
    hide Count, Shaped, Lame, OwnEntries;
    forall leg, id, e | e in {Held(b.ctx, leg, id), RemoteEnded(b.ctx, leg, id), Released(b.ctx, leg, id)}
      ensures Count(log + issued, e) == Count(log, e)
    {
      OthersOwnNothing(log, issued, owner, e);
    }
    AudioStaysDue(b, log, issued);
  }

  lemma OtherStaysClosed(ctx: nat, log: seq<Entry>, issued: seq<Entry>, owner: nat)
    requires Closed(ctx, log) && OwnEntries(owner, issued) && owner != ctx
    ensures Closed(ctx, log + issued)
  {
    hide Count, OwnEntries;
    forall leg, id, e | e in {Held(ctx, leg, id), RemoteEnded(ctx, leg, id), Released(ctx, leg, id)}
      ensures Count(log + issued, e) == Count(log, e)
    {
      OthersOwnNothing(log, issued, owner, e);
    }
  }

  /** The bridge that reacts stays good or is closed. */
  lemma {:induction false} ReactsWell(b: Bridge, callbackUriIsSet: bool, e: Event, r: Replies, log: seq<Entry>, errors: seq<nat>, errors1: seq<nat>)
    requires Good(b, log, errors) && AudioInOrder(log)
    requires b.state.Init? || Matches(b, e)
    requires b.state.Init? ==> !e.InternalError?
    requires b.ctx in errors && !e.InternalError? ==> b.ctx in errors1
    ensures var o := React(b, callbackUriIsSet, e, r);
            && AudioInOrder(log + o.issued) && OwnOutcome(b, o)
            && (!o.thrown && !o.bridge.state.Terminated? ==> Good(o.bridge, log + o.issued, errors1 + o.errors))
            && (!o.thrown && o.bridge.state.Terminated? ==> Closed(b.ctx, log + o.issued))
            && (e.InternalError? ==> !o.thrown && o.bridge.state.Terminated?)
  {
    var o := React(b, callbackUriIsSet, e, r);
    assert e.InternalError? ==> !o.thrown && o.bridge.state.Terminated?;
    hide React, LegOpen, LegClosed, Shaped, AudioIsDue, AudioInOrder, Lame, OwnEntries;
    ReactsOwn(b, callbackUriIsSet, e, r);
    ReactsShaped(b, callbackUriIsSet, e, r);
    ReactsLedger(b, callbackUriIsSet, e, r, log, Tg);
    ReactsLedger(b, callbackUriIsSet, e, r, log, Sip);
    ReactsInOrder(b, callbackUriIsSet, e, r, log);
    LameIsReported(b, callbackUriIsSet, e, r);
  }

  lemma WithoutLists(bridges: seq<Bridge>, i: nat, ctx: nat)
    requires i < |bridges| && Listed(bridges, ctx) && bridges[i].ctx != ctx
    ensures Listed(Without(bridges, i), ctx)
  {
    var j :| 0 <= j < |bridges| && bridges[j].ctx == ctx;
    if j < i {
      assert Without(bridges, i)[j].ctx == ctx;
    } else {
      assert Without(bridges, i)[j - 1].ctx == ctx;
    }
  }

  lemma UpdateLists(bridges: seq<Bridge>, i: nat, b: Bridge, ctx: nat)
    requires i < |bridges| && b.ctx == bridges[i].ctx && Listed(bridges, ctx)
    ensures Listed(bridges[i := b], ctx)
  {
    var j :| 0 <= j < |bridges| && bridges[j].ctx == ctx;
    assert bridges[i := b][j].ctx == ctx;
  }

  /** `rest` is what is left of the errors when an error is being processed. */
  predicate Leaves(errors: seq<nat>, rest: seq<nat>, e: Event) {
    forall c :: c in errors ==> c in rest || (e.InternalError? && c == e.ctx)
  }

  lemma {:induction false} ProcessedNumbers(g: GatewayState, callbackUriIsSet: bool, i: nat, e: Event, r: Replies)
    requires Numbered(g) && i < |g.bridges|
    ensures Numbered(Processed(g, callbackUriIsSet, i, e, r))
  {
    hide React;
    ReactsOwn(g.bridges[i], callbackUriIsSet, e, r);
  }

  lemma ReplacedGood(bridges: seq<Bridge>, i: nat, b: Bridge, gone: bool, log: seq<Entry>, errors: seq<nat>)
    requires i < |bridges| && forall k :: 0 <= k < |bridges| && k != i ==> Good(bridges[k], log, errors)
    requires !gone ==> Good(b, log, errors)
    ensures var left := Replaced(bridges, i, b, gone);
            forall k :: 0 <= k < |left| ==> Good(left[k], log, errors)
  {
    hide Good;
  }

  lemma ProcessedGood(g: GatewayState, rest: seq<nat>, callbackUriIsSet: bool, i: nat, e: Event, r: Replies)
    requires Invariant(g) && i < |g.bridges| && Leaves(g.errors, rest, e)
    requires g.bridges[i].state.Init? || Matches(g.bridges[i], e)
    requires g.bridges[i].state.Init? ==> !e.InternalError?
    ensures var g1 := Processed(g.(errors := rest), callbackUriIsSet, i, e, r);
            !g1.halted ==> AllGood(g1) && AudioInOrder(g1.log)
  {
    var b, o := g.bridges[i], React(g.bridges[i], callbackUriIsSet, e, r);
    hide React, Good, OthersClosed, AudioInOrder, Closed, OwnEntries;
    ReactsWell(b, callbackUriIsSet, e, r, g.log, g.errors, rest);
    forall k | 0 <= k < |g.bridges| && k != i ensures Good(g.bridges[k], g.log + o.issued, rest + o.errors) {
      assert g.bridges[k].ctx != b.ctx;
      OtherStaysGood(g.bridges[k], g.log, o.issued, g.errors, rest + o.errors, b.ctx);
    }
    hide Numbered, Leaves, Without;
    if !o.thrown {
      ReplacedGood(g.bridges, i, o.bridge, o.bridge.state.Terminated?, g.log + o.issued, rest + o.errors);
    }
  }

  lemma ProcessedCloses(g: GatewayState, rest: seq<nat>, callbackUriIsSet: bool, i: nat, e: Event, r: Replies)
    requires Invariant(g) && i < |g.bridges| && Leaves(g.errors, rest, e)
    requires g.bridges[i].state.Init? || Matches(g.bridges[i], e)
    requires g.bridges[i].state.Init? ==> !e.InternalError?
    ensures var g1 := Processed(g.(errors := rest), callbackUriIsSet, i, e, r);
            !g1.halted ==> OthersClosed(g1)
  {
    var b, o := g.bridges[i], React(g.bridges[i], callbackUriIsSet, e, r);
    var g1 := Processed(g.(errors := rest), callbackUriIsSet, i, e, r);
    hide React, Good, AudioInOrder, Closed, Listed;
    ReactsWell(b, callbackUriIsSet, e, r, g.log, g.errors, rest);
    if !g1.halted {
      forall ctx: nat | ctx < g1.nextCtx && !Listed(g1.bridges, ctx) ensures Closed(ctx, g1.log) {
        if ctx == b.ctx {
          if !o.bridge.state.Terminated? {
            IsListed(g1.bridges, i);
          }
        } else {
          if Listed(g.bridges, ctx) {
            if o.bridge.state.Terminated? {
              WithoutLists(g.bridges, i, ctx);
            } else {
              UpdateLists(g.bridges, i, o.bridge, ctx);
            }
          }
          OtherStaysClosed(ctx, g.log, o.issued, b.ctx);
        }
      }
    }
  }

  lemma IsListed(bridges: seq<Bridge>, i: nat)
    requires i < |bridges|
    ensures Listed(bridges, bridges[i].ctx)
  {
  }

  /** A new bridge has held nothing, in a log that does not know its number. */
  lemma NewIsGood(g: GatewayState)
    requires Numbered(g)
    ensures Good(NewBridge(g.nextCtx), g.log, g.errors)
  {
    forall e: Entry | e.ctx == g.nextCtx ensures Count(g.log, e) == 0 {
      assert e !in g.log;
    }
  }

  lemma WithBridgeKeeps(g: GatewayState, e: Event)
    requires Invariant(g)
    ensures Invariant(WithBridge(g, e))
  {
    hide Good, Closed, AudioInOrder, Listed;
    NewIsGood(g);
    var g1 := WithBridge(g, e);
    forall ctx: nat | ctx < g1.nextCtx && !Listed(g1.bridges, ctx) ensures Closed(ctx, g1.log) {
      if g1 != g {
        IsListed(g1.bridges, |g.bridges|);
        if Listed(g.bridges, ctx) {
          StaysListed(g.bridges, NewBridge(g.nextCtx), ctx);
        }
      }
    }
  }

  lemma StaysListed(bridges: seq<Bridge>, b: Bridge, ctx: nat)
    requires Listed(bridges, ctx)
    ensures Listed(bridges + [b], ctx)
  {
    var j :| 0 <= j < |bridges| && bridges[j].ctx == ctx;
    assert (bridges + [b])[j].ctx == ctx;
  }

  lemma ProcessedStarted(g: GatewayState, callbackUriIsSet: bool, i: nat, e: Event, r: Replies)
    requires i < |g.bridges| && Shaped(g.bridges[i])
    requires g.bridges[i].state.Init? || Matches(g.bridges[i], e)
    requires g.bridges[i].state.Init? ==> !e.InternalError?
    requires forall k :: 0 <= k < |g.bridges| && k != i ==> g.bridges[k].state.FromTg? || g.bridges[k].state.FromSip?
    ensures var g1 := Processed(g, callbackUriIsSet, i, e, r);
            !g1.halted ==> AllStarted(g1)
  {
    hide React;
    ReactsShaped(g.bridges[i], callbackUriIsSet, e, r);
  }

  lemma {:induction false} StepKeepsInvariant(g: GatewayState, callbackUriIsSet: bool, input: Input)
    requires Invariant(g) && AllStarted(g) && !g.halted
    ensures var g1 := Step(g, callbackUriIsSet, input);
            !g1.halted ==> Invariant(g1) && AllStarted(g1)
  {
    hide React, Shaped, LegOpen, AudioIsDue, Lame, AudioInOrder, Closed, Processed;
    match input
    case External(e, r) =>
      if !e.InternalError? {
        var i := Find(g.bridges, e);
        WithBridgeKeeps(g, e);
        var g1 := WithBridge(g, e);
        ProcessedNumbers(g1, callbackUriIsSet, i, e, r);
        ProcessedGood(g1, g1.errors, callbackUriIsSet, i, e, r);
        ProcessedCloses(g1, g1.errors, callbackUriIsSet, i, e, r);
        ProcessedStarted(g1, callbackUriIsSet, i, e, r);
        assert g1.(errors := g1.errors) == g1;
      }
    case Internal =>
      if g.errors != [] {
        InternalKeepsInvariant(g, callbackUriIsSet);
      }
  }

  lemma {:induction false} InternalKeepsInvariant(g: GatewayState, callbackUriIsSet: bool)
    requires Invariant(g) && AllStarted(g) && !g.halted && g.errors != []
    ensures var g1 := Step(g, callbackUriIsSet, Internal);
            !g1.halted ==> Invariant(g1) && AllStarted(g1)
  {
    hide React, Shaped, LegOpen, AudioIsDue, AudioInOrder, Closed, Processed;
    var e, rest := InternalError(g.errors[0]), g.errors[1..];
    var i := Find(g.bridges, e);
    assert Leaves(g.errors, rest, e);
    if i < |g.bridges| {
      ProcessedNumbers(g.(errors := rest), callbackUriIsSet, i, e, NO_REPLIES);
      ProcessedGood(g, rest, callbackUriIsSet, i, e, NO_REPLIES);
      ProcessedCloses(g, rest, callbackUriIsSet, i, e, NO_REPLIES);
      ProcessedStarted(g.(errors := rest), callbackUriIsSet, i, e, NO_REPLIES);
    } else {
      forall k | 0 <= k < |g.bridges| ensures Good(g.bridges[k], g.log, rest) {
        assert !Matches(g.bridges[k], e);
      }
    }
  }

  lemma {:induction false} RunKeepsInvariant(callbackUriIsSet: bool, inputs: seq<Input>)
    ensures var g := Run(EMPTY_GATEWAY, callbackUriIsSet, inputs);
            !g.halted ==> Invariant(g) && AllStarted(g)
    decreases |inputs|
  {
    hide Step, Invariant, AllStarted;
    if inputs == [] {
      NothingYet();
    } else {
      var before := Run(EMPTY_GATEWAY, callbackUriIsSet, inputs[..|inputs| - 1]);
      RunKeepsInvariant(callbackUriIsSet, inputs[..|inputs| - 1]);
      if before.halted {
        StaysHalted(before, callbackUriIsSet, inputs[|inputs| - 1]);
      } else {
        StepKeepsInvariant(before, callbackUriIsSet, inputs[|inputs| - 1]);
      }
    }
  }

  lemma NothingYet()
    ensures Invariant(EMPTY_GATEWAY) && AllStarted(EMPTY_GATEWAY)
  {
  }

  lemma StaysHalted(g: GatewayState, callbackUriIsSet: bool, input: Input)
    requires g.halted
    ensures Step(g, callbackUriIsSet, input) == g
  {
  }

  // ------------------------------------------------------------------- what it means

  /** Every call a bridge ever held is, once the bridge has left the list, over in exactly
      one way: the other side ended it, or the bridge discarded it or hung it up once. */
  lemma {:induction false} NoCallLeaks(callbackUriIsSet: bool, inputs: seq<Input>, ctx: nat, leg: Leg, id: int)
    requires !Run(EMPTY_GATEWAY, callbackUriIsSet, inputs).halted
    requires !Listed(Run(EMPTY_GATEWAY, callbackUriIsSet, inputs).bridges, ctx)
    ensures var log := Run(EMPTY_GATEWAY, callbackUriIsSet, inputs).log;
            && Count(log, Held(ctx, leg, id)) <= 1
            && Count(log, RemoteEnded(ctx, leg, id)) + Count(log, Released(ctx, leg, id)) == Count(log, Held(ctx, leg, id))
  {
    var g := Run(EMPTY_GATEWAY, callbackUriIsSet, inputs);
    RunKeepsInvariant(callbackUriIsSet, inputs);
    hide Run, Count;
    if ctx < g.nextCtx {
      assert Closed(ctx, g.log);
    } else {
      NotInLog(g, ctx);
    }
  }

  lemma NotInLog(g: GatewayState, ctx: nat)
    requires Numbered(g) && ctx >= g.nextCtx
    ensures forall e: Entry :: e.ctx == ctx ==> Count(g.log, e) == 0
  {
    forall e: Entry | e.ctx == ctx ensures Count(g.log, e) == 0 {
      assert e !in g.log;
    }
  }

  /** While a bridge is listed, its calls are the ones it holds and none of them is over. */
  lemma {:induction false} ListedCallsAreOpen(callbackUriIsSet: bool, inputs: seq<Input>, i: nat, leg: Leg, id: int)
    requires !Run(EMPTY_GATEWAY, callbackUriIsSet, inputs).halted
    requires i < |Run(EMPTY_GATEWAY, callbackUriIsSet, inputs).bridges|
    ensures var g := Run(EMPTY_GATEWAY, callbackUriIsSet, inputs);
            var b := g.bridges[i];
            && !b.state.Terminated? && !b.state.Init?
            && Count(g.log, Held(b.ctx, leg, id)) == (if Live(b, leg, id) then 1 else 0)
            && Count(g.log, RemoteEnded(b.ctx, leg, id)) == 0 && Count(g.log, Released(b.ctx, leg, id)) == 0
  {
    RunKeepsInvariant(callbackUriIsSet, inputs);
    var g := Run(EMPTY_GATEWAY, callbackUriIsSet, inputs);
    hide Run, Count;
    assert Good(g.bridges[i], g.log, g.errors);
  }

  /** A started bridge that lacks a leg has its end queued. */
  lemma {:induction false} LameBridgesEnd(callbackUriIsSet: bool, inputs: seq<Input>, i: nat)
    requires !Run(EMPTY_GATEWAY, callbackUriIsSet, inputs).halted
    requires i < |Run(EMPTY_GATEWAY, callbackUriIsSet, inputs).bridges|
    ensures var g := Run(EMPTY_GATEWAY, callbackUriIsSet, inputs);
            Lame(g.bridges[i]) ==> g.bridges[i].ctx in g.errors
  {
    RunKeepsInvariant(callbackUriIsSet, inputs);
    var g := Run(EMPTY_GATEWAY, callbackUriIsSet, inputs);
    hide Run;
    assert Good(g.bridges[i], g.log, g.errors);
  }

  lemma {:induction false} AudioIsBridgedInOrder(callbackUriIsSet: bool, inputs: seq<Input>, i: nat)
    requires !Run(EMPTY_GATEWAY, callbackUriIsSet, inputs).halted
    requires i < |Run(EMPTY_GATEWAY, callbackUriIsSet, inputs).log|
    requires Run(EMPTY_GATEWAY, callbackUriIsSet, inputs).log[i].BridgeAudio?
    ensures var log := Run(EMPTY_GATEWAY, callbackUriIsSet, inputs).log;
            AudioMayFlow(log[i].ctx, log[..i])
  {
    RunKeepsInvariant(callbackUriIsSet, inputs);
  }

  // ------------------------------------------------------------------------- routing

  /** Which events start a bridge when no bridge is there for them. */
  predicate Starts(callbackUriIsSet: bool, e: Event) {
    || e.IncomingCall?
    || (e.UpdateCall? && !e.outgoing && e.callState.Pending? && callbackUriIsSet)
  }

  /** An event that no bridge is there for changes the list only if it starts a bridge;
      the exception of an unknown user is the one other way out. */
  lemma StrayEventsChangeNothing(g: GatewayState, callbackUriIsSet: bool, e: Event, r: Replies)
    requires !g.halted && !e.InternalError? && Find(g.bridges, e) == |g.bridges|
    ensures var g1 := Step(g, callbackUriIsSet, External(e, r));
            && (g1.bridges == g.bridges <==> !Starts(callbackUriIsSet, e))
            && (g1.bridges == g.bridges ==> g1.errors == g.errors && !g1.halted)
            && (g1.halted <==> Starts(callbackUriIsSet, e) && e.UpdateCall? && !r.userKnown)
  {
    hide ValidExtension;
    assert Without(g.bridges + [NewBridge(g.nextCtx)], |g.bridges|) == g.bridges;
  }

  /** An internal error reaches only its own bridge, and ends it. */
  lemma InternalErrorsAreForOne(g: GatewayState, callbackUriIsSet: bool)
    requires Invariant(g) && AllStarted(g) && !g.halted && g.errors != []
    ensures var g1 := Step(g, callbackUriIsSet, Internal);
            && !g1.halted && g1.errors == g.errors[1..] && !Listed(g1.bridges, g.errors[0])
            && (!Listed(g.bridges, g.errors[0]) ==> g1 == g.(errors := g.errors[1..]))
            && (forall b :: b in g.bridges && b.ctx != g.errors[0] ==> b in g1.bridges)
  {
    hide LegOpen, AudioIsDue, AudioInOrder, Closed, OthersClosed, Good;
    var e := InternalError(g.errors[0]);
    var i := Find(g.bridges, e);
    if i < |g.bridges| {
      var left := Without(g.bridges, i);
      assert React(g.bridges[i], callbackUriIsSet, e, NO_REPLIES) == Terminate(g.bridges[i], []);
      assert g.errors[1..] + [] == g.errors[1..];
      forall k | 0 <= k < |left| ensures left[k].ctx != g.errors[0] {
        assert left[k] == g.bridges[if k < i then k else k + 1];
      }
      forall b | b in g.bridges && b.ctx != g.errors[0] ensures b in left {
        var k :| 0 <= k < |g.bridges| && g.bridges[k] == b;
        assert left[if k < i then k else k - 1] == b;
      }
    }
  }

  /** The one way the loop stops leaves a Telegram call in nobody's hands. */
  lemma {:induction false} HaltingLeaksACall(callbackUriIsSet: bool, inputs: seq<Input>)
    requires Run(EMPTY_GATEWAY, callbackUriIsSet, inputs).halted
    ensures var log := Run(EMPTY_GATEWAY, callbackUriIsSet, inputs).log;
            exists ctx, id ::
              && Count(log, Held(ctx, Tg, id)) == 1
              && Count(log, RemoteEnded(ctx, Tg, id)) == 0 && Count(log, Released(ctx, Tg, id)) == 0
    decreases |inputs|
  {
    hide Step;
    var before, input := Run(EMPTY_GATEWAY, callbackUriIsSet, inputs[..|inputs| - 1]), inputs[|inputs| - 1];
    if before.halted {
      StaysHalted(before, callbackUriIsSet, input);
      HaltingLeaksACall(callbackUriIsSet, inputs[..|inputs| - 1]);
    } else {
      RunKeepsInvariant(callbackUriIsSet, inputs[..|inputs| - 1]);
      HaltingStepLeaks(before, callbackUriIsSet, input);
    }
  }

  lemma OnlyNewBridgesThrow(b: Bridge, callbackUriIsSet: bool, e: Event, r: Replies)
    requires React(b, callbackUriIsSet, e, r).thrown
    ensures b.state.Init? && e.UpdateCall? && React(b, callbackUriIsSet, e, r).issued == [Held(b.ctx, Tg, e.tgId)]
  {
    hide ValidExtension;
  }

  lemma {:induction false} HaltingStepLeaks(g: GatewayState, callbackUriIsSet: bool, input: Input)
    requires Invariant(g) && AllStarted(g) && !g.halted && Step(g, callbackUriIsSet, input).halted
    ensures var log := Step(g, callbackUriIsSet, input).log;
            exists ctx, id ::
              && Count(log, Held(ctx, Tg, id)) == 1
              && Count(log, RemoteEnded(ctx, Tg, id)) == 0 && Count(log, Released(ctx, Tg, id)) == 0
  {
    hide React, AllGood, OthersClosed, AudioInOrder, Count;
    if input.External? {
      var i, g1 := Find(g.bridges, input.event), WithBridge(g, input.event);
      OnlyNewBridgesThrow(g1.bridges[i], callbackUriIsSet, input.event, input.replies);
      var held := Held(g.nextCtx, Tg, input.event.tgId);
      NotInLog(g, g.nextCtx);
      forall x: Entry ensures Count(g.log + [held], x) == Count(g.log, x) + (if x == held then 1 else 0) {
        CountAppend(g.log, [held], x);
        CountFew(x);
      }
      assert Count(g.log + [held], held) == 1;
    } else {
      var i := Find(g.bridges, InternalError(g.errors[0]));
      OnlyNewBridgesThrow(g.bridges[i], callbackUriIsSet, InternalError(g.errors[0]), NO_REPLIES);
    }
  }

  // ------------------------------------------------------------- no two share a call

  /** The clients give out no number that a listed bridge holds. */
  predicate FreshReplies(g: GatewayState, input: Input) {
    input.External? ==> forall i :: 0 <= i < |g.bridges| ==>
      && (input.replies.dialed.Some? ==> g.bridges[i].sipCallId != input.replies.dialed.value)
      && (input.replies.created.Some? ==> g.bridges[i].tgCallId != input.replies.created.value)
  }

  predicate FreshRun(callbackUriIsSet: bool, inputs: seq<Input>)
    decreases |inputs|
  {
    inputs == [] ||
    (FreshRun(callbackUriIsSet, inputs[..|inputs| - 1]) &&
     FreshReplies(Run(EMPTY_GATEWAY, callbackUriIsSet, inputs[..|inputs| - 1]), inputs[|inputs| - 1]))
  }

  predicate Separate(bridges: seq<Bridge>) {
    forall i, j :: 0 <= i < j < |bridges| ==>
      && (bridges[i].tgCallId == bridges[j].tgCallId ==> bridges[i].tgCallId == NO_TG_CALL)
      && (bridges[i].sipCallId == bridges[j].sipCallId ==> bridges[i].sipCallId == NO_SIP_CALL)
  }

  /** A bridge keeps its calls, lets them go, or gets one from the event or a reply. */
  lemma ReactsIds(b: Bridge, callbackUriIsSet: bool, e: Event, r: Replies)
    ensures var b1 := React(b, callbackUriIsSet, e, r).bridge;
            && (b1.tgCallId == b.tgCallId || b1.tgCallId == NO_TG_CALL || r.created == Some(b1.tgCallId) ||
                (b.state.Init? && e.UpdateCall? && b1.tgCallId == e.tgId))
            && (b1.sipCallId == b.sipCallId || b1.sipCallId == NO_SIP_CALL || r.dialed == Some(b1.sipCallId) ||
                (b.state.Init? && e.IncomingCall? && b1.sipCallId == e.sipId))
  {
    hide ValidExtension;
  }

  lemma ReplacedSeparate(bridges: seq<Bridge>, i: nat, b: Bridge, gone: bool)
    requires i < |bridges| && Separate(bridges)
    requires forall k :: 0 <= k < |bridges| && k != i ==>
      && (bridges[k].tgCallId == b.tgCallId ==> b.tgCallId == NO_TG_CALL)
      && (bridges[k].sipCallId == b.sipCallId ==> b.sipCallId == NO_SIP_CALL)
    ensures Separate(Replaced(bridges, i, b, gone))
  {
    if gone {
      var left := Without(bridges, i);
      forall k | 0 <= k < |left| ensures left[k] == bridges[if k < i then k else k + 1] {
      }
    }
  }

  lemma {:induction false} StepKeepsSeparate(g: GatewayState, callbackUriIsSet: bool, input: Input)
    requires AllStarted(g) && Separate(g.bridges) && FreshReplies(g, input)
    ensures Separate(Step(g, callbackUriIsSet, input).bridges)
  {
    hide React, Without, Replaced;
    if !g.halted {
      match input
      case External(e, r) =>
        var i, g1 := Find(g.bridges, e), WithBridge(g, e);
        ReactsIds(g1.bridges[i], callbackUriIsSet, e, r);
        var o := React(g1.bridges[i], callbackUriIsSet, e, r);
        ReplacedSeparate(g1.bridges, i, o.bridge, !o.thrown && o.bridge.state.Terminated?);
      case Internal =>
        if g.errors != [] {
          var e := InternalError(g.errors[0]);
          var i := Find(g.bridges, e);
          if i < |g.bridges| {
            ReactsIds(g.bridges[i], callbackUriIsSet, e, NO_REPLIES);
            var o := React(g.bridges[i], callbackUriIsSet, e, NO_REPLIES);
            ReplacedSeparate(g.bridges, i, o.bridge, !o.thrown && o.bridge.state.Terminated?);
          }
        }
    }
  }

  lemma {:induction false} NoTwoShareACall(callbackUriIsSet: bool, inputs: seq<Input>)
    requires FreshRun(callbackUriIsSet, inputs)
    ensures var g := Run(EMPTY_GATEWAY, callbackUriIsSet, inputs);
            !g.halted ==> Separate(g.bridges)
    decreases |inputs|
  {
    if inputs != [] {
      hide Step, Separate, Invariant;
      var before := Run(EMPTY_GATEWAY, callbackUriIsSet, inputs[..|inputs| - 1]);
      NoTwoShareACall(callbackUriIsSet, inputs[..|inputs| - 1]);
      RunKeepsInvariant(callbackUriIsSet, inputs[..|inputs| - 1]);
      if before.halted {
        StaysHalted(before, callbackUriIsSet, inputs[|inputs| - 1]);
      } else {
        StepKeepsSeparate(before, callbackUriIsSet, inputs[|inputs| - 1]);
      }
    }
  }
}
