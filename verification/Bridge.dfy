/** One bridged call: the context of a bridge and the state machine that drives it.  What
    the Telegram and SIP clients answer is an input of each step. */
module BridgeModel {
  import opened Options

  type TgId = x: int | x != 0 witness 1
  type SipId = x: int | x >= 0

  const NO_TG_CALL := 0
  const NO_SIP_CALL := -1

  datatype CallState = Pending | ExchangingKeys | Ready | HangingUp | Discarded | Failed
  datatype SipState = Calling | Incoming | Early | Connecting | Confirmed | Disconnected

  datatype Event =
    | UpdateCall(tgId: TgId, outgoing: bool, callState: CallState)
    | IncomingCall(sipId: SipId, extension: string)
    | CallStateUpdate(sipId: SipId, sipState: SipState)
    | CallMediaStateUpdate(sipId: SipId, hasMedia: bool)
    | InternalError(ctx: nat)

  /** The answers of the clients to whatever a step asks them. */
  datatype Replies = Replies(
    userKnown: bool,         // getUser
    dialed: Option<SipId>,   // Dial
    created: Option<TgId>,   // createCall, after whatever lookup came before it
    accepted: bool,          // acceptCall
    answered: bool,          // Answer
    bridged: bool)           // BridgeAudio

  datatype Sub = SipWaitMedia | WaitTg | WaitDtmf | SipWaitConfirm
  datatype State = Init | FromTg(sub: Sub) | FromSip(sub: Sub) | Terminated

  datatype Bridge = Bridge(
    ctx: nat,
    state: State,
    sipCallId: int,
    tgCallId: int,
    controller: bool)

  datatype Leg = Tg | Sip

  /** What a bridge did or learnt, in order. */
  datatype Entry =
    | Held(ctx: nat, leg: Leg, id: int)         // the bridge got hold of a call
    | RemoteEnded(ctx: nat, leg: Leg, id: int)  // the other side ended it
    | Released(ctx: nat, leg: Leg, id: int)     // discardCall or Hangup for it
    | MediaReported(ctx: nat)
    | DialledTg(ctx: nat)                       // a Telegram call was to be created
    | RangSip(ctx: nat)                         // Answer: ringing
    | AnsweredCaller(ctx: nat)                  // acceptCall, or Answer: ok
    | StartController(ctx: nat)
    | StopController(ctx: nat)
    | BridgeAudio(ctx: nat)

  datatype Outcome = Outcome(bridge: Bridge, issued: seq<Entry>, errors: seq<nat>, thrown: bool)

  function NewBridge(ctx: nat): Bridge {
    Bridge(ctx, Init, NO_SIP_CALL, NO_TG_CALL, false)
  }

  function CallId(b: Bridge, leg: Leg): int {
    if leg.Tg? then b.tgCallId else b.sipCallId
  }

  function NoCall(leg: Leg): int {
    if leg.Tg? then NO_TG_CALL else NO_SIP_CALL
  }

  predicate Live(b: Bridge, leg: Leg, id: int) {
    CallId(b, leg) == id != NoCall(leg)
  }

  // ------------------------------------------------------------------- the extension

  predicate IsDigits(s: string) {
    forall i :: 0 <= i < |s| ==> '0' <= s[i] <= '9'
  }

  function Number(s: string): nat
    requires IsDigits(s)
  {
    if s == "" then 0
    else Number(s[..|s| - 1]) * 10 + (s[|s| - 1] as int - '0' as int)
  }

  /** "tg#name", "+phone", or a user id that a 64-bit signed integer can hold. */
  predicate ValidExtension(ext: string) {
    || (|ext| > 3 && ext[..3] == "tg#")
    || (|ext| > 1 && ext[0] == '+' && IsDigits(ext[1..]))
    || (IsDigits(ext) && ext != "" && Number(ext) < 0x8000_0000_0000_0000)
  }

  // --------------------------------------------------------------------- the actions

  /** Entering the terminal state runs `CleanUp`. */
  function Terminate(b: Bridge, issued: seq<Entry>): Outcome {
    var stop := if b.controller then [StopController(b.ctx)] else [];
    var discard := if b.tgCallId != NO_TG_CALL then [Released(b.ctx, Tg, b.tgCallId)] else [];
    var hangup := if b.sipCallId != NO_SIP_CALL then [Released(b.ctx, Sip, b.sipCallId)] else [];
    Outcome(b.(state := Terminated, tgCallId := NO_TG_CALL, sipCallId := NO_SIP_CALL),
            issued + stop + discard + hangup, [], false)
  }

  function Enter(b: Bridge, state: State, issued: seq<Entry>, ok: bool): Outcome {
    Outcome(b.(state := state), issued, if ok then [] else [b.ctx], false)
  }

  function Ignore(b: Bridge): Outcome {
    Outcome(b, [], [], false)
  }

  /** `StoreTgId` and `DialSip`: an unknown user throws out of the machine. */
  function StartFromTg(b: Bridge, id: TgId, r: Replies): Outcome {
    var held := b.(tgCallId := id);
    if !r.userKnown then Outcome(held, [Held(b.ctx, Tg, id)], [], true)
    else
      match r.dialed
      case Some(sip) =>
        Enter(held.(sipCallId := sip), FromTg(SipWaitMedia), [Held(b.ctx, Tg, id), Held(b.ctx, Sip, sip)], true)
      case None =>
        Enter(held, FromTg(SipWaitMedia), [Held(b.ctx, Tg, id)], false)
  }

  function DialTg(b: Bridge, r: Replies): Outcome {
    match r.created
    case Some(id) => Enter(b.(tgCallId := id), FromSip(WaitTg), [DialledTg(b.ctx), Held(b.ctx, Tg, id)], true)
    case None => Enter(b, FromSip(WaitTg), [DialledTg(b.ctx)], false)
  }

  // ------------------------------------------------- the transition tables, by event

  /** The sub-machine is asked first, then the machine around it. */
  function OnUpdateCall(b: Bridge, callbackUriIsSet: bool, e: Event, r: Replies): Outcome
    requires e.UpdateCall?
  {
    match b.state
    case Init =>
      if !e.outgoing && e.callState.Pending? then
        if callbackUriIsSet then StartFromTg(b, e.tgId, r)
        else Terminate(b.(tgCallId := e.tgId), [Held(b.ctx, Tg, e.tgId)])
      else Terminate(b, [])
    case FromTg(WaitTg) =>
      if e.callState.Ready? then
        Enter(b.(controller := true), FromTg(WaitDtmf), [StartController(b.ctx), BridgeAudio(b.ctx)], r.bridged)
      else TgEnded(b, e)
    case FromSip(WaitTg) =>
      if e.callState.Ready? then
        Enter(b.(controller := true), FromSip(SipWaitMedia),
              [StartController(b.ctx), AnsweredCaller(b.ctx)], r.answered)
      else TgEnded(b, e)
    case Terminated => Ignore(b)
    case _ => TgEnded(b, e)
  }

  function TgEnded(b: Bridge, e: Event): Outcome
    requires e.UpdateCall?
  {
    if e.callState.Discarded? || e.callState.Failed?
    then Terminate(b.(tgCallId := NO_TG_CALL), [RemoteEnded(b.ctx, Tg, e.tgId)])
    else Ignore(b)
  }

  function OnCallState(b: Bridge, e: Event, r: Replies): Outcome
    requires e.CallStateUpdate?
  {
    match b.state
    case Init => Terminate(b, [])
    case Terminated => Ignore(b)
    case _ =>
      if b.state == FromSip(SipWaitConfirm) && e.sipState.Early? then DialTg(b, r)
      else if e.sipState.Disconnected?
      then Terminate(b.(sipCallId := NO_SIP_CALL), [RemoteEnded(b.ctx, Sip, e.sipId)])
      else Ignore(b)
  }

  function OnMediaState(b: Bridge, e: Event, r: Replies): Outcome
    requires e.CallMediaStateUpdate?
  {
    match b.state
    case Init => Terminate(b, [])
    case FromTg(SipWaitMedia) =>
      if e.hasMedia then Enter(b, FromTg(WaitTg), [MediaReported(b.ctx), AnsweredCaller(b.ctx)], r.accepted) else Ignore(b)
    case FromSip(SipWaitMedia) =>
      if e.hasMedia then Enter(b, FromSip(WaitDtmf), [MediaReported(b.ctx), BridgeAudio(b.ctx)], r.bridged) else Ignore(b)
    case _ => Ignore(b)
  }

  function OnIncomingCall(b: Bridge, e: Event, r: Replies): Outcome
    requires e.IncomingCall?
  {
    if !b.state.Init? then Ignore(b)
    else
      var held := b.(sipCallId := e.sipId);
      if ValidExtension(e.extension)
      then Enter(held, FromSip(SipWaitConfirm), [Held(b.ctx, Sip, e.sipId), RangSip(b.ctx)], r.answered)
      else Enter(held, FromSip(SipWaitConfirm), [Held(b.ctx, Sip, e.sipId)], false)
  }

  function OnInternalError(b: Bridge): Outcome {
    if b.state.FromTg? || b.state.FromSip? then Terminate(b, []) else Ignore(b)
  }

  function React(b: Bridge, callbackUriIsSet: bool, e: Event, r: Replies): Outcome {
    match e
    case UpdateCall(_, _, _) => OnUpdateCall(b, callbackUriIsSet, e, r)
    case IncomingCall(_, _) => OnIncomingCall(b, e, r)
    case CallStateUpdate(_, _) => OnCallState(b, e, r)
    case CallMediaStateUpdate(_, _) => OnMediaState(b, e, r)
    case InternalError(_) => OnInternalError(b)
  }

  predicate Matches(b: Bridge, e: Event) {
    match e
    case UpdateCall(id, _, _) => b.tgCallId == id
    case IncomingCall(id, _) => b.sipCallId == id
    case CallStateUpdate(id, _) => b.sipCallId == id
    case CallMediaStateUpdate(id, _) => b.sipCallId == id
    case InternalError(ctx) => b.ctx == ctx
  }

  // ------------------------------------------------------- what a bridge keeps to

  function Count(log: seq<Entry>, e: Entry): nat {
    multiset(log)[e]
  }

  /** A call is in the bridge's hands exactly once, and not yet over. */
  ghost predicate LegOpen(b: Bridge, log: seq<Entry>, leg: Leg) {
    forall id :: (
      && Count(log, Held(b.ctx, leg, id)) == (if Live(b, leg, id) then 1 else 0)
      && Count(log, RemoteEnded(b.ctx, leg, id)) == 0
      && Count(log, Released(b.ctx, leg, id)) == 0)
  }

  /** Every call that was held is over in exactly one way. */
  ghost predicate LegClosed(ctx: nat, log: seq<Entry>, leg: Leg) {
    forall id :: (
      && Count(log, Held(ctx, leg, id)) <= 1
      && Count(log, RemoteEnded(ctx, leg, id)) + Count(log, Released(ctx, leg, id)) == Count(log, Held(ctx, leg, id)))
  }

  predicate Shaped(b: Bridge) {
    match b.state
    case Init => b == NewBridge(b.ctx)
    case FromTg(sub) => b.tgCallId != NO_TG_CALL && !sub.SipWaitConfirm? && b.controller == sub.WaitDtmf?
    case FromSip(sub) =>
      && b.sipCallId != NO_SIP_CALL && b.controller == (sub.SipWaitMedia? || sub.WaitDtmf?)
      && (sub.SipWaitConfirm? ==> b.tgCallId == NO_TG_CALL)
    case Terminated => b.tgCallId == NO_TG_CALL && b.sipCallId == NO_SIP_CALL
  }

  /** A started bridge that lacks a leg it should have. */
  predicate Lame(b: Bridge) {
    || (b.state.FromTg? && b.sipCallId == NO_SIP_CALL)
    || (b.state.FromSip? && !b.state.sub.SipWaitConfirm? && b.tgCallId == NO_TG_CALL)
  }

  const MEDIA_SEEN: set<State> := {FromTg(WaitTg), FromTg(WaitDtmf), FromSip(WaitDtmf)}
  const CALLER_ANSWERED: set<State> := {FromTg(WaitTg), FromTg(WaitDtmf), FromSip(SipWaitMedia), FromSip(WaitDtmf)}

  predicate AudioIsDue(b: Bridge, log: seq<Entry>) {
    && (b.controller ==> StartController(b.ctx) in log)
    && (b.state in MEDIA_SEEN ==> MediaReported(b.ctx) in log)
    && (b.state in CALLER_ANSWERED ==> AnsweredCaller(b.ctx) in log)
  }

  predicate AudioMayFlow(ctx: nat, log: seq<Entry>) {
    StartController(ctx) in log && MediaReported(ctx) in log && AnsweredCaller(ctx) in log
  }

  /** Audio is bridged only after the caller was answered, the controller was started and
      SIP media was reported. */
  predicate AudioInOrder(log: seq<Entry>) {
    forall i :: 0 <= i < |log| && log[i].BridgeAudio? ==> AudioMayFlow(log[i].ctx, log[..i])
  }

  predicate OwnEntries(ctx: nat, issued: seq<Entry>) {
    forall i :: 0 <= i < |issued| ==> issued[i].ctx == ctx
  }

  /** A step of a bridge speaks of that bridge alone. */
  predicate OwnOutcome(b: Bridge, o: Outcome) {
    OwnEntries(b.ctx, o.issued) && o.bridge.ctx == b.ctx && |o.errors| <= 1 && (o.errors != [] ==> o.errors[0] == b.ctx)
  }

  lemma TerminateOwns(b: Bridge, issued: seq<Entry>)
    requires OwnEntries(b.ctx, issued)
    ensures OwnOutcome(b, Terminate(b, issued))
  {
  }

  lemma UpdateCallOwns(b: Bridge, callbackUriIsSet: bool, e: Event, r: Replies)
    requires e.UpdateCall?
    ensures OwnOutcome(b, OnUpdateCall(b, callbackUriIsSet, e, r))
  {
    hide Terminate;
    TerminateOwns(b.(tgCallId := e.tgId), [Held(b.ctx, Tg, e.tgId)]);
    TerminateOwns(b.(tgCallId := NO_TG_CALL), [RemoteEnded(b.ctx, Tg, e.tgId)]);
    TerminateOwns(b, []);
  }

  lemma CallStateOwns(b: Bridge, e: Event, r: Replies)
    requires e.CallStateUpdate?
    ensures OwnOutcome(b, OnCallState(b, e, r))
  {
    hide Terminate;
    TerminateOwns(b.(sipCallId := NO_SIP_CALL), [RemoteEnded(b.ctx, Sip, e.sipId)]);
    TerminateOwns(b, []);
  }

  lemma {:induction false} ReactsOwn(b: Bridge, callbackUriIsSet: bool, e: Event, r: Replies)
    ensures OwnOutcome(b, React(b, callbackUriIsSet, e, r))
  {
    hide Terminate, ValidExtension, OnUpdateCall, OnCallState;
    match e
    case UpdateCall(_, _, _) => UpdateCallOwns(b, callbackUriIsSet, e, r);
    case CallStateUpdate(_, _) => CallStateOwns(b, e, r);
    case _ => TerminateOwns(b, []);
  }

  lemma ReactsShaped(b: Bridge, callbackUriIsSet: bool, e: Event, r: Replies)
    requires Shaped(b) && (b.state.Init? || Matches(b, e)) && (b.state.Init? ==> !e.InternalError?)
    ensures var o := React(b, callbackUriIsSet, e, r);
            !o.thrown ==> Shaped(o.bridge) && !o.bridge.state.Init?
  {
    hide ValidExtension;
  }

  // ---------------------------------------------------------------- the ledger of a leg

  lemma CountAppend(log: seq<Entry>, more: seq<Entry>, e: Entry)
    ensures Count(log + more, e) == Count(log, e) + Count(more, e)
  {
  }

  lemma CountFew(e: Entry)
    ensures Count([], e) == 0
    ensures forall x :: Count([x], e) == if x == e then 1 else 0
  {
  }

  /** What was held is over in one way or still in hand. */
  ghost predicate LegBalanced(b: Bridge, log: seq<Entry>, leg: Leg) {
    forall id :: (
      && Count(log, Held(b.ctx, leg, id)) <= 1
      && Count(log, Held(b.ctx, leg, id)) ==
         Count(log, RemoteEnded(b.ctx, leg, id)) + Count(log, Released(b.ctx, leg, id)) +
         (if Live(b, leg, id) then 1 else 0))
  }

  /** What `CleanUp` adds to the log. */
  lemma TerminateCounts(b: Bridge, log: seq<Entry>, issued: seq<Entry>, e: Entry)
    requires !e.StopController?
    ensures Count(log + Terminate(b, issued).issued, e) ==
            Count(log + issued, e) + (if e.Released? && e.ctx == b.ctx && Live(b, e.leg, e.id) then 1 else 0)
  {
    hide Count;
    var stop := if b.controller then [StopController(b.ctx)] else [];
    var discard := if b.tgCallId != NO_TG_CALL then [Released(b.ctx, Tg, b.tgCallId)] else [];
    var hangup := if b.sipCallId != NO_SIP_CALL then [Released(b.ctx, Sip, b.sipCallId)] else [];
    assert log + Terminate(b, issued).issued == log + issued + stop + discard + hangup;
    CountAppend(log + issued, stop, e);
    CountAppend(log + issued + stop, discard, e);
    CountAppend(log + issued + stop + discard, hangup, e);
    CountFew(e);
  }

  lemma {:induction false} TerminateCloses(b: Bridge, log: seq<Entry>, issued: seq<Entry>, leg: Leg)
    requires LegBalanced(b, log + issued, leg)
    ensures LegClosed(b.ctx, log + Terminate(b, issued).issued, leg)
  {
    hide Count, Terminate;
    forall id, e | e in {Held(b.ctx, leg, id), RemoteEnded(b.ctx, leg, id), Released(b.ctx, leg, id)}
      ensures Count(log + Terminate(b, issued).issued, e) ==
              Count(log + issued, e) + (if e.Released? && Live(b, leg, id) then 1 else 0)
    {
      TerminateCounts(b, log, issued, e);
    }
  }

  /** Entries that concern no leg leave the counts as they are. */
  predicate NoLegs(issued: seq<Entry>) {
    forall x :: x in issued ==> !x.Held? && !x.RemoteEnded? && !x.Released?
  }

  lemma OthersDoNotCount(log: seq<Entry>, issued: seq<Entry>, e: Entry)
    requires e !in issued
    ensures Count(log + issued, e) == Count(log, e)
  {
  }

  /** Each leg after an event: still open, or closed if the bridge terminated. */
  ghost predicate LegAfter(b: Bridge, log: seq<Entry>, leg: Leg) {
    if b.state.Terminated? then LegClosed(b.ctx, log, leg) else LegOpen(b, log, leg)
  }

  lemma TerminateLeg(b: Bridge, log: seq<Entry>, issued: seq<Entry>, leg: Leg)
    requires LegOpen(b, log, leg) && NoLegs(issued)
    ensures LegClosed(b.ctx, log + Terminate(b, issued).issued, leg)
  {
    hide Count, Terminate;
    forall id, e | e in {Held(b.ctx, leg, id), RemoteEnded(b.ctx, leg, id), Released(b.ctx, leg, id)}
      ensures Count(log + issued, e) == Count(log, e)
    {
      OthersDoNotCount(log, issued, e);
    }
    TerminateCloses(b, log, issued, leg);
  }

  predicate OfLeg(x: Entry, leg: Leg) {
    (x.Held? || x.RemoteEnded? || x.Released?) && x.leg == leg
  }

  predicate NoEntryOf(issued: seq<Entry>, leg: Leg) {
    forall i :: 0 <= i < |issued| ==> !OfLeg(issued[i], leg)
  }

  /** The bridge goes on and this leg is as it was. */
  lemma GoesOn(b: Bridge, b1: Bridge, log: seq<Entry>, issued: seq<Entry>, leg: Leg)
    requires LegOpen(b, log, leg) && b1.ctx == b.ctx && CallId(b1, leg) == CallId(b, leg) && NoEntryOf(issued, leg)
    ensures LegOpen(b1, log + issued, leg)
  {
    hide Count;
    forall id, e | e in {Held(b.ctx, leg, id), RemoteEnded(b.ctx, leg, id), Released(b.ctx, leg, id)}
      ensures Count(log + issued, e) == Count(log, e)
    {
      OthersDoNotCount(log, issued, e);
    }
  }

  /** The `k`-th entry takes hold of the call on this leg, and no other entry concerns it. */
  predicate TakesHold(b: Bridge, b1: Bridge, issued: seq<Entry>, leg: Leg, k: nat) {
    && b1.ctx == b.ctx && CallId(b, leg) == NoCall(leg) != CallId(b1, leg)
    && k < |issued| && issued[k] == Held(b.ctx, leg, CallId(b1, leg))
    && NoEntryOf(issued[..k], leg) && NoEntryOf(issued[k + 1..], leg)
  }

  lemma GetsHold(b: Bridge, b1: Bridge, log: seq<Entry>, issued: seq<Entry>, leg: Leg, k: nat)
    requires LegOpen(b, log, leg) && TakesHold(b, b1, issued, leg, k)
    ensures LegOpen(b1, log + issued, leg)
  {
    hide Count;
    var held, before, after := issued[k], issued[..k], issued[k + 1..];
    assert log + issued == log + before + [held] + after;
    forall other, e | e in {Held(b.ctx, leg, other), RemoteEnded(b.ctx, leg, other), Released(b.ctx, leg, other)}
      ensures Count(log + issued, e) == Count(log, e) + (if e == held then 1 else 0)
    {
      assert OfLeg(e, leg);
      assert e !in before && e !in after;
      OthersDoNotCount(log, before, e);
      CountAppend(log + before, [held], e);
      CountFew(e);
      OthersDoNotCount(log + before + [held], after, e);
    }
  }

  /** The other side ends the call, and the bridge terminates. */
  lemma {:induction false} RemoteEnds(b: Bridge, b1: Bridge, log: seq<Entry>, ended: Leg, leg: Leg)
    requires LegOpen(b, log, leg) && b1.ctx == b.ctx
    requires ended == leg ==> CallId(b, leg) != NoCall(leg) && CallId(b1, leg) == NoCall(leg)
    requires ended != leg ==> CallId(b1, leg) == CallId(b, leg)
    ensures LegClosed(b.ctx, log + Terminate(b1, [RemoteEnded(b.ctx, ended, CallId(b, ended))]).issued, leg)
  {
    hide Count, Terminate;
    var over := RemoteEnded(b.ctx, ended, CallId(b, ended));
    forall id, e | e in {Held(b.ctx, leg, id), RemoteEnded(b.ctx, leg, id), Released(b.ctx, leg, id)}
      ensures Count(log + [over], e) == Count(log, e) + (if e == over then 1 else 0)
    {
      CountAppend(log, [over], e);
      CountFew(e);
    }
    assert LegBalanced(b1, log + [over], leg);
    TerminateCloses(b1, log, [over], leg);
  }

  /** Every event keeps the ledger of both legs. */
  lemma {:induction false} ReactsLedger(b: Bridge, callbackUriIsSet: bool, e: Event, r: Replies, log: seq<Entry>, leg: Leg)
    requires Shaped(b) && (b.state.Init? || Matches(b, e)) && !b.state.Terminated?
    requires LegOpen(b, log, leg)
    ensures var o := React(b, callbackUriIsSet, e, r);
            LegAfter(o.bridge, log + o.issued, leg)
  {
    hide ValidExtension, Count, LegOpen, LegClosed;
    var o := React(b, callbackUriIsSet, e, r);
    if o.bridge.state.Terminated? {
      match e
      case UpdateCall(id, _, _) =>
        if b.state.Init? {
          if !e.outgoing && e.callState.Pending? {
            EndsAtOnce(b, log, id, leg);
          } else {
            TerminateLeg(b, log, [], leg);
          }
        } else {
          RemoteEnds(b, b.(tgCallId := NO_TG_CALL), log, Tg, leg);
        }
      case CallStateUpdate(id, _) =>
        if b.state.Init? {
          TerminateLeg(b, log, [], leg);
        } else {
          RemoteEnds(b, b.(sipCallId := NO_SIP_CALL), log, Sip, leg);
        }
      case _ => TerminateLeg(b, log, [], leg);
    } else {
      GoesOnOrGetsHold(b, callbackUriIsSet, e, r, log, leg);
    }
  }

  /** A call that comes in while there is nowhere to route it is discarded. */
  lemma EndsAtOnce(b: Bridge, log: seq<Entry>, id: TgId, leg: Leg)
    requires b.state.Init? && Shaped(b) && LegOpen(b, log, leg)
    ensures LegClosed(b.ctx, log + Terminate(b.(tgCallId := id), [Held(b.ctx, Tg, id)]).issued, leg)
  {
    hide Count, Terminate;
    var b1, held := b.(tgCallId := id), [Held(b.ctx, Tg, id)];
    if leg.Tg? {
      GetsHold(b, b1, log, held, leg, 0);
    } else {
      GoesOn(b, b1, log, held, leg);
    }
    assert LegBalanced(b1, log + held, leg);
    TerminateCloses(b1, log, held, leg);
  }

  /** A step takes hold of the call on a leg, or leaves that leg alone. */
  predicate LegKept(b: Bridge, o: Outcome, leg: Leg) {
    || TakesHold(b, o.bridge, o.issued, leg, 0)
    || TakesHold(b, o.bridge, o.issued, leg, 1)
    || (o.bridge.ctx == b.ctx && CallId(o.bridge, leg) == CallId(b, leg) && NoEntryOf(o.issued, leg))
  }

  lemma StartKeepsLeg(b: Bridge, id: TgId, r: Replies, leg: Leg)
    requires b == NewBridge(b.ctx)
    ensures LegKept(b, StartFromTg(b, id, r), leg)
  {
  }

  lemma UpdateCallKeepsLeg(b: Bridge, callbackUriIsSet: bool, e: Event, r: Replies, leg: Leg)
    requires Shaped(b) && e.UpdateCall?
    requires !OnUpdateCall(b, callbackUriIsSet, e, r).bridge.state.Terminated?
    ensures LegKept(b, OnUpdateCall(b, callbackUriIsSet, e, r), leg)
  {
    hide StartFromTg, TakesHold;
    if b.state.Init? {
      StartKeepsLeg(b, e.tgId, r, leg);
    }
  }

  lemma CallStateKeepsLeg(b: Bridge, e: Event, r: Replies, leg: Leg)
    requires Shaped(b) && e.CallStateUpdate?
    requires !OnCallState(b, e, r).bridge.state.Terminated?
    ensures LegKept(b, OnCallState(b, e, r), leg)
  {
  }

  /** What an event that does not end the bridge does to a leg. */
  lemma LegEffect(b: Bridge, callbackUriIsSet: bool, e: Event, r: Replies, leg: Leg)
    requires Shaped(b) && (b.state.Init? || Matches(b, e))
    requires !React(b, callbackUriIsSet, e, r).bridge.state.Terminated?
    ensures LegKept(b, React(b, callbackUriIsSet, e, r), leg)
  {
    hide OnUpdateCall, OnCallState, ValidExtension;
    match e
    case UpdateCall(_, _, _) => UpdateCallKeepsLeg(b, callbackUriIsSet, e, r, leg);
    case CallStateUpdate(_, _) => CallStateKeepsLeg(b, e, r, leg);
    case _ =>
  }

  lemma {:induction false} GoesOnOrGetsHold(b: Bridge, callbackUriIsSet: bool, e: Event, r: Replies, log: seq<Entry>, leg: Leg)
    requires Shaped(b) && (b.state.Init? || Matches(b, e)) && LegOpen(b, log, leg)
    requires !React(b, callbackUriIsSet, e, r).bridge.state.Terminated?
    ensures var o := React(b, callbackUriIsSet, e, r);
            LegOpen(o.bridge, log + o.issued, leg)
  {
    hide React, LegOpen, TakesHold, NoEntryOf, Shaped;
    var o := React(b, callbackUriIsSet, e, r);
    LegEffect(b, callbackUriIsSet, e, r, leg);
    if TakesHold(b, o.bridge, o.issued, leg, 0) {
      GetsHold(b, o.bridge, log, o.issued, leg, 0);
    } else if TakesHold(b, o.bridge, o.issued, leg, 1) {
      GetsHold(b, o.bridge, log, o.issued, leg, 1);
    } else {
      GoesOn(b, o.bridge, log, o.issued, leg);
    }
  }

  // ------------------------------------------------------------------------ the audio

  lemma AudioAppend(log: seq<Entry>, issued: seq<Entry>)
    requires AudioInOrder(log)
    requires forall i :: 0 <= i < |issued| && issued[i].BridgeAudio? ==> AudioMayFlow(issued[i].ctx, log + issued[..i])
    ensures AudioInOrder(log + issued)
  {
    hide AudioMayFlow;
    var all := log + issued;
    forall i | 0 <= i < |all| && all[i].BridgeAudio? ensures AudioMayFlow(all[i].ctx, all[..i]) {
      if i < |log| {
        assert all[..i] == log[..i];
      } else {
        assert all[..i] == log + issued[..i - |log|];
      }
    }
  }

  lemma AudioStaysDue(b: Bridge, log: seq<Entry>, more: seq<Entry>)
    requires AudioIsDue(b, log)
    ensures AudioIsDue(b, log + more)
  {
  }

  lemma TerminateHasNoAudio(b: Bridge, issued: seq<Entry>)
    requires forall i :: 0 <= i < |issued| ==> !issued[i].BridgeAudio?
    ensures var o := Terminate(b, issued);
            && o.bridge.state.Terminated? && o.bridge.controller == b.controller
            && forall i :: 0 <= i < |o.issued| ==> !o.issued[i].BridgeAudio?
  {
  }

  /** Which steps bridge the audio, and what was known before. */
  predicate AudioStep(b: Bridge, o: Outcome) {
    forall i :: 0 <= i < |o.issued| && o.issued[i].BridgeAudio? ==>
      && i == 1 && o.issued[1].ctx == b.ctx && b.state in CALLER_ANSWERED
      && if b.state == FromTg(WaitTg) then o.issued[0] == StartController(b.ctx)
         else b.controller && o.issued[0] == MediaReported(b.ctx)
  }

  /** What a step makes true was true before or is issued by it. */
  predicate AudioNow(b: Bridge, o: Outcome) {
    && (o.bridge.controller ==> b.controller || StartController(b.ctx) in o.issued)
    && (o.bridge.state in MEDIA_SEEN ==> b.state in MEDIA_SEEN || MediaReported(b.ctx) in o.issued)
    && (o.bridge.state in CALLER_ANSWERED ==> b.state in CALLER_ANSWERED || AnsweredCaller(b.ctx) in o.issued)
  }

  lemma UpdateCallAudio(b: Bridge, callbackUriIsSet: bool, e: Event, r: Replies)
    requires Shaped(b) && e.UpdateCall?
    ensures var o := OnUpdateCall(b, callbackUriIsSet, e, r); AudioStep(b, o) && AudioNow(b, o)
  {
    hide ValidExtension, Terminate;
    TerminateHasNoAudio(b, []);
    TerminateHasNoAudio(b.(tgCallId := e.tgId), [Held(b.ctx, Tg, e.tgId)]);
    TerminateHasNoAudio(b.(tgCallId := NO_TG_CALL), [RemoteEnded(b.ctx, Tg, e.tgId)]);
  }

  lemma CallStateAudio(b: Bridge, e: Event, r: Replies)
    requires Shaped(b) && e.CallStateUpdate?
    ensures var o := OnCallState(b, e, r); AudioStep(b, o) && AudioNow(b, o)
  {
    hide ValidExtension, Terminate;
    TerminateHasNoAudio(b, []);
    TerminateHasNoAudio(b.(sipCallId := NO_SIP_CALL), [RemoteEnded(b.ctx, Sip, e.sipId)]);
  }

  lemma {:induction false} ReactsAudio(b: Bridge, callbackUriIsSet: bool, e: Event, r: Replies)
    requires Shaped(b)
    ensures AudioStep(b, React(b, callbackUriIsSet, e, r)) && AudioNow(b, React(b, callbackUriIsSet, e, r))
  {
    hide ValidExtension, Terminate, OnUpdateCall, OnCallState;
    match e
    case UpdateCall(_, _, _) => UpdateCallAudio(b, callbackUriIsSet, e, r);
    case CallStateUpdate(_, _) => CallStateAudio(b, e, r);
    case _ => TerminateHasNoAudio(b, []);
  }

  lemma ReactsInOrder(b: Bridge, callbackUriIsSet: bool, e: Event, r: Replies, log: seq<Entry>)
    requires Shaped(b) && AudioIsDue(b, log) && AudioInOrder(log)
    ensures var o := React(b, callbackUriIsSet, e, r);
            AudioInOrder(log + o.issued) && AudioIsDue(o.bridge, log + o.issued)
  {
    hide React;
    ReactsAudio(b, callbackUriIsSet, e, r);
    ReactsOwn(b, callbackUriIsSet, e, r);
    var o := React(b, callbackUriIsSet, e, r);
    forall i | 0 <= i < |o.issued| && o.issued[i].BridgeAudio?
      ensures AudioMayFlow(o.issued[i].ctx, log + o.issued[..i])
    {
      assert o.issued[..i][0] == o.issued[0];
    }
    AudioAppend(log, o.issued);
  }

  /** A bridge that lacks a leg reports it at once. */
  lemma LameIsReported(b: Bridge, callbackUriIsSet: bool, e: Event, r: Replies)
    requires Shaped(b) && (b.state.Init? || Matches(b, e))
    ensures var o := React(b, callbackUriIsSet, e, r);
            Lame(o.bridge) && !o.thrown ==> Lame(b) || o.errors == [b.ctx]
  {
    hide ValidExtension;
  }
}
