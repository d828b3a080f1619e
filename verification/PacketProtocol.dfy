/** The sequence, acknowledgement and "extra" part of the packet protocol, as functions
    on the state of one peer.  The controller class is proved against these functions. */
module PacketProtocol {
  import opened SequenceNumbers
  import opened Bytes

  const WINDOW: nat := 32
  const MAX_RECENT_PACKETS: nat := 128

  datatype Extra = Extra(kind: byte, data: seq<byte>)

  /** An extra that is repeated in every header until acknowledged.
      `firstContainingSeq` is 0 while no header carries it. */
  datatype PendingExtra = PendingExtra(extra: Extra, firstContainingSeq: uint32)

  datatype Header = Header(packetType: byte, ackId: uint32, pseq: uint32, acks: uint32, extras: seq<Extra>)

  /** A packet sent recently; `ackTime` is 0 until a mask reports it received. */
  datatype RecentPacket = RecentPacket(seqNo: uint32, ackTime: real)

  datatype Peer = Peer(
    nextSeq: uint32,
    lastRemoteSeq: uint32,
    window: seq<real>,
    lastRemoteAckSeq: uint32,
    extras: seq<PendingExtra>,
    recent: seq<RecentPacket>,
    lastSentSeq: uint32)
  {
    predicate Valid() {
      |window| == WINDOW && |recent| <= MAX_RECENT_PACKETS
    }
  }

  function Zeros(n: nat): (z: seq<real>)
    ensures |z| == n && forall i :: 0 <= i < n ==> z[i] == 0.0
  {
    seq(n, _ => 0.0)
  }

  const NEW_PEER: Peer := Peer(1, 0, Zeros(WINDOW), 0, [], [], 0)

  // ---------------------------------------------------------------- the ack mask

  function ShiftRight(mask: nat, k: nat): nat {
    if k == 0 then mask else ShiftRight(mask / 2, k - 1)
  }

  predicate Bit(mask: nat, k: nat) {
    ShiftRight(mask, k) % 2 == 1
  }

  /** The mask after the first `n` window entries: entry 0 is the most significant. */
  function MaskPrefix(w: seq<real>, n: nat): (m: nat)
    requires n <= |w|
    ensures m < Pow2(n)
  {
    if n == 0 then 0 else 2 * MaskPrefix(w, n - 1) + (if w[n - 1] > 0.0 then 1 else 0)
  }

  function AckMask(w: seq<real>): uint32
    requires |w| == WINDOW
  {
    Pow2Of32();
    MaskPrefix(w, WINDOW)
  }

  lemma Pow2Of32()
    ensures Pow2(32) == MODULUS
  {
    assert Pow2(8) == 256;
    assert Pow2(16) == 256 * Pow2(8);
    assert Pow2(24) == 256 * Pow2(16);
    assert Pow2(32) == 256 * Pow2(24);
  }

  lemma {:induction false} MaskShift(w: seq<real>, n: nat, k: nat)
    requires k <= n <= |w|
    ensures ShiftRight(MaskPrefix(w, n), k) == MaskPrefix(w, n - k)
  {
    if k > 0 {
      assert MaskPrefix(w, n) / 2 == MaskPrefix(w, n - 1);
      MaskShift(w, n - 1, k - 1);
    }
  }

  /** Bit `31 - i` of a written mask reports window entry `i`. */
  lemma MaskReportsWindow(w: seq<real>, i: nat)
    requires |w| == WINDOW && i < WINDOW
    ensures Bit(AckMask(w), 31 - i) <==> w[i] > 0.0
  {
    MaskShift(w, WINDOW, 31 - i);
  }

  // ------------------------------------------------------------ the receive window

  datatype Verdict = Newest | Older | Duplicate | TooLate {
    predicate Accepted() { Newest? || Older? }
  }

  datatype WindowStep = WindowStep(verdict: Verdict, last: uint32, window: seq<real>)

  /** The window after the newest number moves forward by `diff`. */
  function Slide(w: seq<real>, diff: nat, now: real): (r: seq<real>)
    requires |w| == WINDOW && diff > 0
    ensures |r| == WINDOW
  {
    if diff > 31 then Zeros(WINDOW)
    else [now] + Zeros(diff - 1) + w[..WINDOW - diff]
  }

  function ReceiveSeq(last: uint32, w: seq<real>, pseq: uint32, now: real): (r: WindowStep)
    requires |w| == WINDOW
    ensures |r.window| == WINDOW
  {
    if SeqGt(pseq, last) then
      WindowStep(Newest, pseq, (SeqGtMeansAhead(pseq, last); Slide(w, Sub32(pseq, last), now)))
    else if Sub32(last, pseq) < 32 then
      if w[Sub32(last, pseq)] != 0.0 then WindowStep(Duplicate, last, w)
      else WindowStep(Older, last, w[Sub32(last, pseq) := now])
    else
      WindowStep(TooLate, last, w)
  }

  /** A number first accepted by a jump of more than 31 leaves no mark in the window, so
      it is accepted once more if it comes again, and only once. */
  lemma JumpIsAcceptedTwice(last: uint32, w: seq<real>, pseq: uint32, t0: real, t1: real, t2: real)
    requires |w| == WINDOW && t1 > 0.0
    requires SeqGt(pseq, last)
    ensures var r0 := ReceiveSeq(last, w, pseq, t0);
            var r1 := ReceiveSeq(r0.last, r0.window, pseq, t1);
            var r2 := ReceiveSeq(r1.last, r1.window, pseq, t2);
            && r0.verdict == Newest
            && (t0 > 0.0 ==> (r1.verdict.Accepted() <==> Sub32(pseq, last) > 31))
            && r2.verdict == Duplicate
  {
    SeqGtIsTotalChoice(pseq, pseq);
    SeqGtMeansAhead(pseq, last);
  }

  // -------------------------------------------------------------- sending a header

  function StampAll(xs: seq<PendingExtra>, pseq: uint32): (r: seq<PendingExtra>)
    ensures |r| == |xs|
  {
    seq(|xs|, i requires 0 <= i < |xs| =>
      if xs[i].firstContainingSeq == 0 then xs[i].(firstContainingSeq := pseq) else xs[i])
  }

  function Carried(xs: seq<PendingExtra>): (r: seq<Extra>)
    ensures |r| == |xs|
  {
    seq(|xs|, i requires 0 <= i < |xs| => xs[i].extra)
  }

  function KeepNewest<T>(s: seq<T>, limit: nat): (r: seq<T>)
    ensures |r| <= limit
  {
    if |s| > limit then s[|s| - limit..] else s
  }

  function HeaderOf(p: Peer, pseq: uint32, packetType: byte): Header
    requires p.Valid()
  {
    Header(packetType, p.lastRemoteSeq, pseq, AckMask(p.window), Carried(p.extras))
  }

  function AfterWrite(p: Peer, pseq: uint32): (r: Peer)
    requires p.Valid()
    ensures r.Valid()
  {
    p.(extras := StampAll(p.extras, pseq),
       recent := KeepNewest(p.recent + [RecentPacket(pseq, 0.0)], MAX_RECENT_PACKETS),
       lastSentSeq := pseq)
  }

  // ------------------------------------------------------------------ adding extras

  function FindKind(xs: seq<PendingExtra>, kind: byte): (i: nat)
    ensures i <= |xs|
    ensures i < |xs| ==> xs[i].extra.kind == kind
    ensures forall j :: 0 <= j < i ==> xs[j].extra.kind != kind
  {
    if xs == [] then 0
    else if xs[0].extra.kind == kind then 0
    else 1 + FindKind(xs[1..], kind)
  }

  /** A new extra replaces the pending one of its kind and becomes unsent again. */
  function AddExtra(xs: seq<PendingExtra>, e: Extra): (r: seq<PendingExtra>)
    ensures |xs| <= |r| <= |xs| + 1
  {
    var i := FindKind(xs, e.kind);
    if i < |xs| then xs[i := PendingExtra(e, 0)] else xs + [PendingExtra(e, 0)]
  }

  predicate DistinctKinds(xs: seq<PendingExtra>) {
    forall i, j :: 0 <= i < j < |xs| ==> xs[i].extra.kind != xs[j].extra.kind
  }

  lemma AddExtraKeepsKindsDistinct(xs: seq<PendingExtra>, e: Extra)
    requires DistinctKinds(xs)
    ensures DistinctKinds(AddExtra(xs, e))
    ensures PendingExtra(e, 0) in AddExtra(xs, e)
    ensures forall x :: x in AddExtra(xs, e) && x.extra.kind != e.kind ==> x in xs
  {
    var i, r := FindKind(xs, e.kind), AddExtra(xs, e);
    if i < |xs| {
      assert r[i] == PendingExtra(e, 0);
    } else {
      assert r[|xs|] == PendingExtra(e, 0);
    }
  }

  // ------------------------------------------------------- acknowledgements received

  /** The one place that a mask bit stands for, as the reader sees it: bit `31 - i`
      is taken for packet `ackId - (i + 1)`. */
  function Marked(r: RecentPacket, ackId: uint32, acks: uint32, now: real): RecentPacket {
    var d := Sub32(ackId, r.seqNo);
    if r.ackTime == 0.0 && 1 <= d <= 31 && Bit(acks, 32 - d) then r.(ackTime := now) else r
  }

  function MarkAll(rs: seq<RecentPacket>, ackId: uint32, acks: uint32, now: real): (r: seq<RecentPacket>)
    ensures |r| == |rs|
  {
    seq(|rs|, j requires 0 <= j < |rs| => Marked(rs[j], ackId, acks, now))
  }

  /** Writer and reader of the mask are one place apart: packet `ackId - k` is marked
      exactly when the window entry of `ackId - (k - 1)` was set. */
  lemma AckMaskIsShiftedByOne(w: seq<real>, ackId: uint32, r: RecentPacket, k: nat, now: real)
    requires |w| == WINDOW && 1 <= k <= 31 && now > 0.0
    requires r.ackTime == 0.0 && r.seqNo == Sub32(ackId, k)
    ensures Marked(r, ackId, AckMask(w), now).ackTime != 0.0 <==> w[k - 1] > 0.0
  {
    assert Sub32(ackId, r.seqNo) == k;
    MaskReportsWindow(w, k - 1);
  }

  /** The packet was sent `k` before `ackId`, and the window entry one place later was set. */
  predicate ReportedAt(w: seq<real>, ackId: uint32, seqNo: uint32, k: nat)
    requires |w| == WINDOW
  {
    1 <= k <= 31 && seqNo == Sub32(ackId, k) && w[k - 1] > 0.0
  }

  /** Of the recent packets exactly those are marked that had no time yet and are 1 to 31
      behind `ackId` with the entry of the packet after them set; everything else stays. */
  lemma MaskMarksExactly(w: seq<real>, rs: seq<RecentPacket>, ackId: uint32, now: real, j: nat)
    requires |w| == WINDOW && now > 0.0 && j < |rs|
    ensures MarkAll(rs, ackId, AckMask(w), now)[j] ==
            if rs[j].ackTime == 0.0 && (exists k :: ReportedAt(w, ackId, rs[j].seqNo, k))
            then rs[j].(ackTime := now) else rs[j]
  {
    hide Sub32, AckMask, Bit;
    var d := Sub32(ackId, rs[j].seqNo);
    forall k | 1 <= k <= 31 ensures rs[j].seqNo == Sub32(ackId, k) <==> k == d { DistanceIs(ackId, rs[j].seqNo, k); }
    if 1 <= d <= 31 {
      MaskReportsWindow(w, d - 1);
      assert ReportedAt(w, ackId, rs[j].seqNo, d) <==> w[d - 1] > 0.0;
    }
  }

  lemma DistanceIs(a: uint32, b: uint32, k: nat)
    requires k < MODULUS
    ensures b == Sub32(a, k) <==> k == Sub32(a, b)
  {
  }

  predicate Covered(x: PendingExtra, ackId: uint32) {
    x.firstContainingSeq != 0 && (ackId == x.firstContainingSeq || SeqGt(ackId, x.firstContainingSeq))
  }

  function Uncovered(xs: seq<PendingExtra>, ackId: uint32): (r: seq<PendingExtra>)
    ensures |r| <= |xs|
  {
    if xs == [] then [] else
      (if Covered(xs[0], ackId) then [] else [xs[0]]) + Uncovered(xs[1..], ackId)
  }

  /** The extras reported to the caller as acknowledged, in order. */
  function Acknowledged(xs: seq<PendingExtra>, ackId: uint32): seq<Extra> {
    if xs == [] then [] else
      (if Covered(xs[0], ackId) then [xs[0].extra] else []) + Acknowledged(xs[1..], ackId)
  }

  /** An acknowledgement splits the pending extras: each is either kept or reported. */
  lemma {:induction false} AcknowledgementSplitsExtras(xs: seq<PendingExtra>, ackId: uint32)
    ensures forall x :: x in Uncovered(xs, ackId) <==> x in xs && !Covered(x, ackId)
    ensures forall e :: e in Acknowledged(xs, ackId) <==> exists x :: x in xs && x.extra == e && Covered(x, ackId)
    ensures |Uncovered(xs, ackId)| + |Acknowledged(xs, ackId)| == |xs|
  {
    if xs != [] {
      AcknowledgementSplitsExtras(xs[1..], ackId);
      assert forall x :: x in xs <==> x == xs[0] || x in xs[1..];
    }
  }

  function Shifted(idx: seq<nat>): (r: seq<nat>)
    ensures |r| == |idx|
  {
    seq(|idx|, i requires 0 <= i < |idx| => idx[i] + 1)
  }

  /** These positions, in this order, are all that satisfy or all that fail the cover. */
  predicate Positions(xs: seq<PendingExtra>, ackId: uint32, covered: bool, idx: seq<nat>) {
    && (forall i, j :: 0 <= i < j < |idx| ==> idx[i] < idx[j])
    && (forall i :: 0 <= i < |idx| ==> idx[i] < |xs|)
    && (forall k :: 0 <= k < |xs| ==> (k in idx <==> Covered(xs[k], ackId) == covered))
  }

  lemma {:induction false} OnePositionMore(xs: seq<PendingExtra>, ackId: uint32, covered: bool, idx: seq<nat>)
    requires xs != [] && Positions(xs[1..], ackId, covered, idx)
    ensures Positions(xs, ackId, covered, (if Covered(xs[0], ackId) == covered then [0] else []) + Shifted(idx))
  {
    var all := (if Covered(xs[0], ackId) == covered then [0] else []) + Shifted(idx);
    forall k | 0 <= k < |xs| ensures k in all <==> Covered(xs[k], ackId) == covered {
      if k > 0 {
        assert xs[k] == xs[1..][k - 1];
        assert k - 1 in idx ==> exists i :: 0 <= i < |idx| && idx[i] == k - 1 && Shifted(idx)[i] == k;
        assert k in Shifted(idx) <==> k - 1 in idx;
      } else {
        assert 0 !in Shifted(idx);
      }
    }
  }

  function Picked(xs: seq<PendingExtra>, idx: seq<nat>): (r: seq<PendingExtra>)
    requires forall i :: 0 <= i < |idx| ==> idx[i] < |xs|
    ensures |r| == |idx|
  {
    seq(|idx|, i requires 0 <= i < |idx| => xs[idx[i]])
  }

  lemma PickedMore(xs: seq<PendingExtra>, idx: seq<nat>)
    requires xs != [] && forall i :: 0 <= i < |idx| ==> idx[i] < |xs[1..]|
    ensures Picked(xs, Shifted(idx)) == Picked(xs[1..], idx)
    ensures Picked(xs, [0] + Shifted(idx)) == [xs[0]] + Picked(xs[1..], idx)
  {
  }

  lemma CarriedMore(x: PendingExtra, rest: seq<PendingExtra>)
    ensures Carried([x] + rest) == [x.extra] + Carried(rest)
  {
  }

  /** What stays pending and what is reported keep the order they had. */
  lemma {:induction false} AcknowledgementKeepsOrder(xs: seq<PendingExtra>, ackId: uint32)
    returns (kept: seq<nat>, gone: seq<nat>)
    ensures Positions(xs, ackId, false, kept) && Positions(xs, ackId, true, gone)
    ensures Uncovered(xs, ackId) == Picked(xs, kept)
    ensures Acknowledged(xs, ackId) == Carried(Picked(xs, gone))
  {
    hide Covered, Shifted, Picked, Carried;
    if xs == [] {
      kept, gone := [], [];
      NothingPicked();
    } else {
      var rest := xs[1..];
      kept, gone := AcknowledgementKeepsOrder(rest, ackId);
      OnePositionMore(xs, ackId, false, kept);
      OnePositionMore(xs, ackId, true, gone);
      PickedMore(xs, kept);
      PickedMore(xs, gone);
      CarriedMore(xs[0], Picked(rest, gone));
      hide Positions;
      if Covered(xs[0], ackId) {
        assert [] + Shifted(kept) == Shifted(kept) && [] + Uncovered(rest, ackId) == Uncovered(rest, ackId);
        kept, gone := Shifted(kept), [0] + Shifted(gone);
      } else {
        assert [] + Shifted(gone) == Shifted(gone) && [] + Acknowledged(rest, ackId) == Acknowledged(rest, ackId);
        kept, gone := [0] + Shifted(kept), Shifted(gone);
      }
    }
  }

  lemma NothingPicked()
    ensures Picked([], []) == [] && Carried([]) == []
  {
  }

  datatype Received = Received(peer: Peer, verdict: Verdict, acknowledged: seq<Extra>)

  function Receive(p: Peer, h: Header, now: real): (r: Received)
    requires p.Valid()
    ensures r.peer.Valid()
  {
    var s := ReceiveSeq(p.lastRemoteSeq, p.window, h.pseq, now);
    var p1 := p.(lastRemoteSeq := s.last, window := s.window);
    if s.verdict.Accepted() && SeqGt(h.ackId, p.lastRemoteAckSeq) then
      Received(p1.(lastRemoteAckSeq := h.ackId,
                   recent := MarkAll(p.recent, h.ackId, h.acks, now),
                   extras := Uncovered(p.extras, h.ackId)),
               s.verdict, Acknowledged(p.extras, h.ackId))
    else
      Received(p1, s.verdict, [])
  }
}
