/** The congestion accounting: which packets are in flight, how many bytes they are, and
    how many were given up as lost. */
module CongestionControlModel {
  import opened SequenceNumbers

  const SLOTS: nat := 100

  /** A slot is free while its send time is 0; times are positive. */
  datatype Slot = Slot(seqNo: uint32, sendTime: real, size: nat)

  datatype Congestion = Congestion(
    slots: seq<Slot>,
    lastSentSeq: uint32,
    inflight: int,
    lossCount: nat,
    accepted: nat,   // packets accepted for sending
    acked: nat)      // packets acknowledged

  predicate Live(s: Slot) {
    s.sendTime != 0.0
  }

  function LiveCount(slots: seq<Slot>): nat {
    if slots == [] then 0 else LiveCount(slots[..|slots| - 1]) + (if Live(slots[|slots| - 1]) then 1 else 0)
  }

  function LiveSize(slots: seq<Slot>): nat {
    if slots == [] then 0
    else LiveSize(slots[..|slots| - 1]) + (if Live(slots[|slots| - 1]) then slots[|slots| - 1].size else 0)
  }

  lemma {:induction false} CountUpdate(slots: seq<Slot>, i: nat, s: Slot)
    requires i < |slots|
    ensures LiveCount(slots[i := s]) ==
            LiveCount(slots) - (if Live(slots[i]) then 1 else 0) + (if Live(s) then 1 else 0)
    ensures LiveSize(slots[i := s]) ==
            LiveSize(slots) - (if Live(slots[i]) then slots[i].size else 0) + (if Live(s) then s.size else 0)
  {
    var n := |slots| - 1;
    if i == n {
      assert slots[i := s][..n] == slots[..n];
    } else {
      assert slots[i := s][..n] == slots[..n][i := s];
      CountUpdate(slots[..n], i, s);
    }
  }

  // ----------------------------------------------------------------------- the steps

  /** The first free slot, or the first of those sent earliest; `best` is what the scan
      has found before slot `i`. */
  function Choose(slots: seq<Slot>, i: nat, best: nat): nat
    requires i <= |slots|
    requires i > 0 ==> best < i
    decreases |slots| - i
  {
    if i == |slots| then best
    else if !Live(slots[i]) then i
    else Choose(slots, i + 1, if i == 0 || slots[best].sendTime > slots[i].sendTime then i else best)
  }

  lemma {:induction false} ChoiceIsFreeOrOldest(slots: seq<Slot>, i: nat, best: nat)
    requires i <= |slots| && |slots| > 0 && (i > 0 ==> best < i)
    requires forall k :: 0 <= k < i ==> Live(slots[k]) && slots[best].sendTime <= slots[k].sendTime
    ensures var c := Choose(slots, i, best);
            && c < |slots|
            && (Live(slots[c]) ==>
                 forall k :: 0 <= k < |slots| ==> Live(slots[k]) && slots[c].sendTime <= slots[k].sendTime)
    decreases |slots| - i
  {
    if i < |slots| && Live(slots[i]) {
      ChoiceIsFreeOrOldest(slots, i + 1, if i == 0 || slots[best].sendTime > slots[i].sendTime then i else best);
    }
  }

  function Sent(c: Congestion, seqNo: uint32, size: nat, now: real): (r: Congestion)
    requires |c.slots| == SLOTS
    ensures |r.slots| == SLOTS
  {
    if !SeqGt(seqNo, c.lastSentSeq) || seqNo == c.lastSentSeq then c
    else
      ChoiceIsFreeOrOldest(c.slots, 0, 0);
      var i := Choose(c.slots, 0, 0);
      var evicted := c.slots[i];
      c.(slots := c.slots[i := Slot(seqNo, now, size)],
         lastSentSeq := seqNo,
         inflight := c.inflight - (if Live(evicted) then evicted.size else 0) + size,
         lossCount := c.lossCount + (if Live(evicted) then 1 else 0),
         accepted := c.accepted + 1)
  }

  /** The first live slot with this number, or the number of slots. */
  function Find(slots: seq<Slot>, seqNo: uint32, i: nat): (r: nat)
    requires i <= |slots|
    ensures i <= r <= |slots|
    ensures r < |slots| ==> slots[r].seqNo == seqNo && Live(slots[r])
    ensures forall k :: i <= k < r ==> !(slots[k].seqNo == seqNo && Live(slots[k]))
    decreases |slots| - i
  {
    if i == |slots| || (slots[i].seqNo == seqNo && Live(slots[i])) then i else Find(slots, seqNo, i + 1)
  }

  function Freed(c: Congestion, i: nat): Congestion
    requires i < |c.slots|
  {
    c.(slots := c.slots[i := c.slots[i].(sendTime := 0.0)], inflight := c.inflight - c.slots[i].size)
  }

  function Acknowledged(c: Congestion, seqNo: uint32): Congestion {
    var i := Find(c.slots, seqNo, 0);
    if i < |c.slots| then Freed(c, i).(acked := c.acked + 1) else c
  }

  predicate Expired(s: Slot, now: real) {
    Live(s) && now - s.sendTime > 2.0
  }

  /** The first `n` slots of a tick; the clock is read once for every slot. */
  function Ticked(c: Congestion, clock: seq<real>, n: nat): (r: Congestion)
    requires n <= |c.slots| == |clock|
    ensures |r.slots| == |c.slots|
  {
    if n == 0 then c
    else
      var before := Ticked(c, clock, n - 1);
      if Expired(before.slots[n - 1], clock[n - 1])
      then Freed(before, n - 1).(lossCount := before.lossCount + 1)
      else before
  }

  // ------------------------------------------------------------------- conservation

  /** The bytes in flight are those of the live packets, and every accepted packet is
      acknowledged, lost or live. */
  predicate Conserved(c: Congestion) {
    && |c.slots| == SLOTS
    && (forall i :: 0 <= i < SLOTS ==> c.slots[i].sendTime >= 0.0)
    && c.inflight == LiveSize(c.slots)
    && c.accepted == c.acked + c.lossCount + LiveCount(c.slots)
  }

  lemma SentConserves(c: Congestion, seqNo: uint32, size: nat, now: real)
    requires Conserved(c) && now > 0.0
    ensures Conserved(Sent(c, seqNo, size, now))
  {
    ChoiceIsFreeOrOldest(c.slots, 0, 0);
    CountUpdate(c.slots, Choose(c.slots, 0, 0), Slot(seqNo, now, size));
  }

  lemma AcknowledgedConserves(c: Congestion, seqNo: uint32)
    requires Conserved(c)
    ensures Conserved(Acknowledged(c, seqNo))
  {
    var i := Find(c.slots, seqNo, 0);
    if i < |c.slots| {
      CountUpdate(c.slots, i, c.slots[i].(sendTime := 0.0));
    }
  }

  lemma {:induction false} TickedConserves(c: Congestion, clock: seq<real>, n: nat)
    requires Conserved(c) && n <= SLOTS == |clock|
    ensures Conserved(Ticked(c, clock, n))
    ensures forall k :: n <= k < SLOTS ==> Ticked(c, clock, n).slots[k] == c.slots[k]
    ensures forall k :: 0 <= k < n ==> !Expired(Ticked(c, clock, n).slots[k], clock[k])
    ensures Ticked(c, clock, n).acked == c.acked && Ticked(c, clock, n).accepted == c.accepted
  {
    if n > 0 {
      TickedConserves(c, clock, n - 1);
      var before := Ticked(c, clock, n - 1);
      CountUpdate(before.slots, n - 1, before.slots[n - 1].(sendTime := 0.0));
    }
  }

  // ------------------------------------------------------------------------ all runs

  datatype Action =
    | Send(seqNo: uint32, size: nat, now: real)
    | Acknowledge(seqNo: uint32)
    | Tick(clock: seq<real>)

  function NoPackets(): seq<Slot> {
    seq(SLOTS, _ => Slot(0, 0.0, 0))
  }

  function Fresh(): Congestion {
    Congestion(NoPackets(), 0, 0, 0, 0, 0)
  }

  function Step(c: Congestion, a: Action): (r: Congestion)
    requires |c.slots| == SLOTS
    ensures |r.slots| == SLOTS
  {
    match a
    case Send(seqNo, size, now) => if now > 0.0 then Sent(c, seqNo, size, now) else c
    case Acknowledge(seqNo) => Acknowledged(c, seqNo)
    case Tick(clock) => if |clock| == SLOTS then Ticked(c, clock, SLOTS) else c
  }

  function Run(acts: seq<Action>): (r: Congestion)
    ensures |r.slots| == SLOTS
  {
    if acts == [] then Fresh() else Step(Run(acts[..|acts| - 1]), acts[|acts| - 1])
  }

  lemma {:induction false} NothingLive(slots: seq<Slot>)
    requires forall i :: 0 <= i < |slots| ==> !Live(slots[i])
    ensures LiveCount(slots) == 0 && LiveSize(slots) == 0
  {
    if slots != [] {
      NothingLive(slots[..|slots| - 1]);
    }
  }

  lemma {:induction false} EveryRunConserves(acts: seq<Action>)
    ensures Conserved(Run(acts)) && Run(acts).inflight >= 0
  {
    if acts == [] {
      NothingLive(NoPackets());
    } else {
      var c, a := Run(acts[..|acts| - 1]), acts[|acts| - 1];
      EveryRunConserves(acts[..|acts| - 1]);
      match a
      case Send(seqNo, size, now) => if now > 0.0 { SentConserves(c, seqNo, size, now); }
      case Acknowledge(seqNo) => AcknowledgedConserves(c, seqNo);
      case Tick(clock) => if |clock| == SLOTS { TickedConserves(c, clock, SLOTS); }
    }
  }

  /** A packet in flight is given up by a send only if every slot is taken, and then it is
      one of those sent earliest. */
  lemma EvictionTakesTheOldest(c: Congestion, seqNo: uint32, size: nat, now: real)
    requires Conserved(c) && now > 0.0
    ensures var r := Sent(c, seqNo, size, now);
            && (r.lossCount > c.lossCount ==> LiveCount(c.slots) == SLOTS)
            && (r.lossCount > c.lossCount ==>
                 exists i :: 0 <= i < SLOTS && r.slots == c.slots[i := Slot(seqNo, now, size)] &&
                             forall k :: 0 <= k < SLOTS ==> c.slots[i].sendTime <= c.slots[k].sendTime)
            && r.inflight <= c.inflight + size
  {
    ChoiceIsFreeOrOldest(c.slots, 0, 0);
    var i := Choose(c.slots, 0, 0);
    if Live(c.slots[i]) {
      AllLive(c.slots);
    }
  }

  lemma {:induction false} AllLive(slots: seq<Slot>)
    requires forall i :: 0 <= i < |slots| ==> Live(slots[i])
    ensures LiveCount(slots) == |slots|
  {
    if slots != [] {
      AllLive(slots[..|slots| - 1]);
    }
  }

  // ----------------------------------------------------------------------- the class

  class CongestionControl {
    const inflightPackets: array<Slot>
    var lastSentSeq: uint32
    var inflightDataSize: nat
    var lossCount: nat
    ghost var accepted: nat
    ghost var acked: nat

    ghost function View(): Congestion
      reads this, inflightPackets
    {
      Congestion(inflightPackets[..], lastSentSeq, inflightDataSize, lossCount, accepted, acked)
    }

    ghost predicate Valid()
      reads this, inflightPackets
    {
      Conserved(View())
    }

    constructor ()
      ensures Valid() && View() == Fresh() && fresh(inflightPackets)
    {
      inflightPackets := new Slot[SLOTS](_ => Slot(0, 0.0, 0));
      lastSentSeq, inflightDataSize, lossCount, accepted, acked := 0, 0, 0, 0, 0;
      new;
      assert inflightPackets[..] == NoPackets();
      NothingLive(inflightPackets[..]);
    }

    method PacketSent(seqNo: uint32, size: nat, now: real)
      requires Valid() && now > 0.0
      modifies this, inflightPackets
      ensures Valid() && View() == Sent(old(View()), seqNo, size, now)
    {
      if !SeqGt(seqNo, lastSentSeq) || seqNo == lastSentSeq {
        return;
      }
      ghost var slots := inflightPackets[..];
      SentConserves(View(), seqNo, size, now);
      ChoiceIsFreeOrOldest(slots, 0, 0);
      hide LiveCount, LiveSize;
      lastSentSeq := seqNo;
      var slot := 0;
      var smallestSendTime := 0.0; // infinity, until a slot was looked at
      var i := 0;
      while i < inflightPackets.Length
        invariant 0 <= i <= inflightPackets.Length && (i > 0 ==> slot < i)
        invariant i > 0 ==> smallestSendTime == slots[slot].sendTime
        invariant Choose(slots, 0, 0) == Choose(slots, i, slot)
      {
        if inflightPackets[i].sendTime == 0.0 {
          slot := i;
          break;
        }
        if i == 0 || smallestSendTime > inflightPackets[i].sendTime {
          slot := i;
          smallestSendTime := inflightPackets[i].sendTime;
        }
        i := i + 1;
      }
      assert slot == Choose(slots, 0, 0);
      if inflightPackets[slot].sendTime > 0.0 {
        EnoughIn(slots, slot, inflightDataSize);
        inflightDataSize := inflightDataSize - inflightPackets[slot].size;
        lossCount := lossCount + 1;
      }
      inflightPackets[slot] := Slot(seqNo, now, size);
      inflightDataSize := inflightDataSize + size;
      accepted := accepted + 1;
    }

    /** Subtracting needs the slot's bytes to be among those in flight. */
    static lemma EnoughIn(slots: seq<Slot>, i: nat, inflight: nat)
      requires i < |slots| && Live(slots[i]) && inflight == LiveSize(slots)
      ensures slots[i].size <= inflight
    {
      CountUpdate(slots, i, slots[i].(sendTime := 0.0));
    }

    method PacketAcknowledged(seqNo: uint32)
      requires Valid()
      modifies this, inflightPackets
      ensures Valid() && View() == Acknowledged(old(View()), seqNo)
    {
      ghost var slots := inflightPackets[..];
      AcknowledgedConserves(View(), seqNo);
      hide LiveCount, LiveSize;
      var i := 0;
      while i < inflightPackets.Length
        invariant 0 <= i <= inflightPackets.Length
        invariant Find(slots, seqNo, 0) == Find(slots, seqNo, i)
      {
        if inflightPackets[i].seqNo == seqNo && inflightPackets[i].sendTime > 0.0 {
          EnoughIn(slots, i, inflightDataSize);
          inflightPackets[i] := inflightPackets[i].(sendTime := 0.0);
          inflightDataSize := inflightDataSize - inflightPackets[i].size;
          acked := acked + 1;
          break;
        }
        i := i + 1;
      }
    }

    method Tick(clock: seq<real>)
      requires Valid() && |clock| == SLOTS
      modifies this, inflightPackets
      ensures Valid() && View() == Ticked(old(View()), clock, SLOTS)
    {
      ghost var was := View();
      var i := 0;
      while i < inflightPackets.Length
        invariant 0 <= i <= inflightPackets.Length == SLOTS
        invariant View() == Ticked(was, clock, i) && Valid()
      {
        hide LiveCount, LiveSize;
        TickedConserves(was, clock, i + 1);
        if inflightPackets[i].sendTime != 0.0 && clock[i] - inflightPackets[i].sendTime > 2.0 {
          EnoughIn(inflightPackets[..], i, inflightDataSize);
          inflightPackets[i] := inflightPackets[i].(sendTime := 0.0);
          inflightDataSize := inflightDataSize - inflightPackets[i].size;
          lossCount := lossCount + 1;
        }
        i := i + 1;
      }
    }
  }
}
