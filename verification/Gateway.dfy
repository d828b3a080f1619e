/** The event loop's handlers on the mutable list of bridges. */
module GatewayLoop {
  import opened BridgeModel
  import opened GatewayModel

  class Gateway {
    const callbackUriIsSet: bool
    var bridges: seq<Bridge>
    var internalEvents: seq<nat>
    var log: seq<Entry>
    var nextCtx: nat
    var halted: bool

    ghost function View(): GatewayState
      reads this
    {
      GatewayState(bridges, internalEvents, log, nextCtx, halted)
    }

    constructor (callbackUriIsSet: bool)
      ensures View() == EMPTY_GATEWAY && this.callbackUriIsSet == callbackUriIsSet
    {
      this.callbackUriIsSet := callbackUriIsSet;
      bridges, internalEvents, log, nextCtx, halted := [], [], [], 0, false;
    }

    method FindBridge(e: Event) returns (i: nat)
      ensures i == Find(bridges, e)
    {
      i := 0;
      while i < |bridges|
        invariant 0 <= i <= |bridges|
        invariant Find(bridges, e) == i + Find(bridges[i..], e)
      {
        if Matches(bridges[i], e) {
          return;
        }
        i := i + 1;
      }
    }

    method SearchCall(e: Event) returns (i: nat)
      modifies this`bridges, this`nextCtx
      ensures i == Find(old(bridges), e) < |bridges|
      ensures View() == WithBridge(old(View()), e)
    {
      i := FindBridge(e);
      if i == |bridges| {
        bridges := bridges + [NewBridge(nextCtx)];
        nextCtx := nextCtx + 1;
      }
    }

    /** Hands the event to the machine of a bridge and forgets the bridge when it is done. */
    method Dispatch(i: nat, e: Event, r: Replies)
      requires i < |bridges| && !halted
      modifies this
      ensures View() == Processed(old(View()), callbackUriIsSet, i, e, r)
    {
      hide React;
      var o := React(bridges[i], callbackUriIsSet, e, r);
      bridges := bridges[i := o.bridge];
      internalEvents := internalEvents + o.errors;
      log := log + o.issued;
      if o.thrown {
        halted := true;
        return;
      }
      if bridges[i].state.Terminated? {
        bridges := bridges[..i] + bridges[i + 1..];
      }
    }

    method ProcessEvent(e: Event, r: Replies)
      requires !e.InternalError? && !halted
      modifies this
      ensures View() == Step(old(View()), callbackUriIsSet, External(e, r))
    {
      hide Processed;
      var i := SearchCall(e);
      Dispatch(i, e, r);
    }

    method ProcessInternalEvents()
      requires !halted
      modifies this
      ensures View() == Step(old(View()), callbackUriIsSet, Internal)
    {
      hide Processed;
      if |internalEvents| == 0 {
        return;
      }
      var e := InternalError(internalEvents[0]);
      internalEvents := internalEvents[1..];
      var i := FindBridge(e);
      if i == |bridges| {
        return;
      }
      Dispatch(i, e, NO_REPLIES);
    }
  }
}
