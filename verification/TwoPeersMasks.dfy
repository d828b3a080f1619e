/** The acknowledgement masks of two peers over whole runs: writer and reader are one place
    apart, so a packet counts as acknowledged when the one after it was recorded. */
module TwoPeersMasks {
  import opened SequenceNumbers
  import opened Bytes
  import opened PacketProtocol
  import opened TwoPeers
  import TwoPeersLimits

  /** The receive window holds an entry for number `n`. */
  predicate Recorded(r: Side, n: nat)
    requires r.peer.Valid()
  {
    n <= r.remoteN && r.remoteN - n < WINDOW && r.peer.window[r.remoteN - n] > 0.0
  }

  lemma {:induction false} TimelyPrefix(sys: System, acts: seq<Action>, k: nat)
    requires Sound(sys) && TimelyRun(sys, acts) && k <= |acts|
    ensures TimelyRun(sys, acts[..k])
    decreases |acts|
  {
    if k < |acts| {
      assert acts[..|acts| - 1][..k] == acts[..k];
      TimelyPrefix(sys, acts[..|acts| - 1], k);
    } else {
      assert acts[..k] == acts;
    }
  }

  // ------------------------------------------------------- what the window has recorded

  predicate NonNegative(s: Side) {
    forall i :: 0 <= i < |s.peer.window| ==> s.peer.window[i] >= 0.0
  }

  lemma ReceiveKeepsNonNegative(s: Side, p: Packet, now: real)
    requires s.peer.Valid() && NonNegative(s) && now > 0.0
    ensures NonNegative(Delivered(s, p, now))
  {
    if SeqGt(p.header.pseq, s.peer.lastRemoteSeq) {
      SeqGtMeansAhead(p.header.pseq, s.peer.lastRemoteSeq);
    }
  }

  lemma {:induction false} RunKeepsNonNegative(acts: seq<Action>, who: Name)
    ensures NonNegative(Run(START, acts).At(who))
    decreases |acts|
  {
    hide Delivered, NonNegative;
    if acts == [] {
      NewIsNonNegative();
    } else {
      var before, a := Run(START, acts[..|acts| - 1]), acts[|acts| - 1];
      RunKeepsNonNegative(acts[..|acts| - 1], who);
      var net := before.At(who.Other()).written;
      if a.who == who && a.Deliver? && a.index < |net| && a.now > 0.0 {
        ReceiveKeepsNonNegative(before.At(who), net[a.index], a.now);
      } else {
        SameWindowNonNegative(before.At(who), Run(START, acts).At(who));
      }
    }
  }

  lemma NewIsNonNegative()
    ensures NonNegative(NEW_SIDE)
  {
  }

  lemma SameWindowNonNegative(s: Side, s': Side)
    requires NonNegative(s) && s'.peer.window == s.peer.window
    ensures NonNegative(s')
  {
  }

  lemma RecordedMeans(r: Side, n: nat)
    requires r.peer.Valid() && WindowAgrees(r) && NonNegative(r)
    ensures Recorded(r, n) <==>
            n <= r.remoteN < n + 32 && Times(r.accepted, n) == if n in r.jumped then 2 else 1
  {
    if n <= r.remoteN < n + 32 {
      assert EntryAgrees(r, r.remoteN - n);
    }
  }

  /** Over every timely run the window holds an entry for exactly those of the last 32 numbers
      that were accepted otherwise than by the jump that brought them in. */
  lemma {:induction false} RecordedIsExact(acts: seq<Action>, who: Name, n: nat)
    requires TimelyRun(START, acts)
    ensures var r := Run(START, acts).At(who);
            Recorded(r, n) <==>
            n <= r.remoteN < n + 32 && Times(r.accepted, n) == if n in r.jumped then 2 else 1
  {
    hide Recorded, WindowAgrees, NonNegative, Times, Base;
    TimelyRunsAreConsistent(acts);
    RunKeepsNonNegative(acts, who);
    RecordedMeans(Run(START, acts).At(who), n);
  }

  lemma RecordedWasAccepted(acts: seq<Action>, who: Name, n: nat)
    requires TimelyRun(START, acts) && Recorded(Run(START, acts).At(who), n)
    ensures Accepted(Run(START, acts).At(who), n)
  {
    RecordedIsExact(acts, who, n);
    TimesMeansAccepted(Run(START, acts).At(who).accepted, n);
  }

  // ------------------------------------------------------------ where a header comes from

  /** Header `w` of side `who` was written in the state after the first `k` actions. */
  ghost predicate WrittenAt(acts: seq<Action>, who: Name, w: Packet, k: nat)
    requires k <= |acts|
  {
    w == Written(Run(START, acts[..k]).At(who), w.n, w.header.packetType)
  }

  lemma {:induction false} WrittenSometime(acts: seq<Action>, who: Name, w: Packet) returns (k: nat)
    requires w in Run(START, acts).At(who).written
    ensures k <= |acts| && WrittenAt(acts, who, w, k)
    decreases |acts|
  {
    hide Delivered;
    var n := |acts| - 1;
    var front, last := acts[..n], acts[n];
    if w in Run(START, front).At(who).written {
      k := WrittenSometime(front, who, w);
      assert front[..k] == acts[..k];
    } else {
      StepWrites(Run(START, front), last, who, w);
      k := n;
    }
  }

  lemma StepWrites(sys: System, a: Action, who: Name, w: Packet)
    requires Sound(sys)
    requires w in Step(sys, a).At(who).written && w !in sys.At(who).written
    ensures w == Written(sys.At(who), w.n, w.header.packetType)
  {
  }

  // ------------------------------------------------------------------ the mask received

  lemma {:induction false} DistanceIsTrue(a: nat, m: nat, k: nat)
    requires a < m + HALF && m < a + HALF && k <= 31
    ensures Wrap(m) == Sub32(Wrap(a), k) <==> m + k == a
  {
    DistanceIs(Wrap(a), Wrap(m), k);
    if m <= a {
      WrapDifference(a, m);
    } else {
      WrapDifference(m, a);
      Opposite(Wrap(m), Wrap(a), m - a);
    }
  }

  lemma Opposite(x: uint32, y: uint32, d: nat)
    requires 0 < d < HALF && Sub32(x, y) == d
    ensures Sub32(y, x) == MODULUS - d
  {
  }

  /** The mask written by `r` marks the packet `m` of the sender exactly if `r` had recorded
      number `m + 1`. */
  lemma {:induction false} MaskMarksPredecessor(r: Side, rs: seq<RecentPacket>, now: real, j: nat, m: nat)
    requires r.peer.Valid() && r.peer.lastRemoteSeq == Wrap(r.remoteN)
    requires now > 0.0 && j < |rs| && rs[j].seqNo == Wrap(m)
    requires r.remoteN < m + HALF && m < r.remoteN + HALF
    ensures MarkAll(rs, Wrap(r.remoteN), AckMask(r.peer.window), now)[j] ==
            if rs[j].ackTime == 0.0 && m < r.remoteN <= m + 31 && Recorded(r, m + 1)
            then rs[j].(ackTime := now) else rs[j]
  {
    hide MarkAll, AckMask, Sub32, Wrap;
    var w, ackId := r.peer.window, Wrap(r.remoteN);
    MaskMarksExactly(w, rs, ackId, now, j);
    forall k | ReportedAt(w, ackId, rs[j].seqNo, k) ensures m + k == r.remoteN && Recorded(r, m + 1) {
      DistanceIsTrue(r.remoteN, m, k);
    }
    if m < r.remoteN <= m + 31 && Recorded(r, m + 1) {
      DistanceIsTrue(r.remoteN, m, r.remoteN - m);
      assert ReportedAt(w, ackId, rs[j].seqNo, r.remoteN - m);
    }
  }

  /** What an arriving header does to a remembered packet, in the true numbers. */
  lemma {:induction false} DeliveryMarks(s: Side, r: Side, r0: Side, p: Packet, now: real, j: nat, m: nat)
    requires Base(s, r) && Base(r, s) && p in r.written && now > 0.0
    requires p.n > s.remoteN - HALF && p.ackN > s.ackN - HALF
    requires r0.peer.Valid() && r0.peer.lastRemoteSeq == Wrap(r0.remoteN) && p == Written(r0, p.n, p.header.packetType)
    requires j < |s.peer.recent| && s.peer.recent[j].seqNo == Wrap(m) && m < s.generated && p.ackN < m + HALF
    ensures var s', x := Delivered(s, p, now), s.peer.recent[j];
            && |s'.peer.recent| == |s.peer.recent|
            && s'.peer.recent[j] ==
               if s'.accepted != s.accepted && p.ackN > s.ackN && x.ackTime == 0.0
                  && m < p.ackN <= m + 31 && Recorded(r0, m + 1)
               then x.(ackTime := now) else x
  {
    ComparisonsAreTrue(s, r, p);
    assert |s.accepted + [p]| == |s.accepted| + 1;
    hide MarkAll, AckMask, ReceiveSeq, SeqGt, Uncovered, Acknowledged, Wrap, Recorded;
    if p.ackN > s.ackN {
      MaskMarksPredecessor(r0, s.peer.recent, now, j, m);
    }
  }

  /** The shift by one over whole runs.  When a header arrives in a timely run, a remembered
      packet `m` is marked as acknowledged exactly if the header is accepted and acknowledges
      more than any before, `m` has no time yet and is 1 to 31 before the acknowledged number,
      and the peer had recorded number `m + 1` (not `m`) when it wrote the header. */
  lemma {:induction false} MaskIsReadOnePlaceOff(acts: seq<Action>, who: Name, i: nat, now: real, j: nat, m: nat)
    returns (k: nat)
    requires TimelyRun(START, acts) && now > 0.0
    requires i < |Run(START, acts).At(who.Other()).written| && Timely(Run(START, acts), Deliver(who, i, now))
    requires var s, p := Run(START, acts).At(who), Run(START, acts).At(who.Other()).written[i];
             j < |s.peer.recent| && s.peer.recent[j].seqNo == Wrap(m) && m < s.generated && p.ackN < m + HALF
    ensures k <= |acts| && WrittenAt(acts, who.Other(), Run(START, acts).At(who.Other()).written[i], k)
    ensures var s, p := Run(START, acts).At(who), Run(START, acts).At(who.Other()).written[i];
            var s', x := Step(Run(START, acts), Deliver(who, i, now)).At(who), s.peer.recent[j];
            && |s'.peer.recent| == |s.peer.recent|
            && s'.peer.recent[j] ==
               if s'.accepted != s.accepted && p.ackN > s.ackN && x.ackTime == 0.0
                  && m < p.ackN <= m + 31 && Recorded(Run(START, acts[..k]).At(who.Other()), m + 1)
               then x.(ackTime := now) else x
  {
    hide Delivered, Recorded, Written;
    TimelyRunsAreConsistent(acts);
    var s, r := Run(START, acts).At(who), Run(START, acts).At(who.Other());
    k := WrittenSometime(acts, who.Other(), r.written[i]);
    TimelyPrefix(START, acts, k);
    TimelyRunsAreConsistent(acts[..k]);
    DeliveryMarks(s, r, Run(START, acts[..k]).At(who.Other()), r.written[i], now, j, m);
  }

  // ------------------------------------------------------ marked, and never accepted

  lemma TwoAreSent() returns (acts: seq<Action>)
    ensures TimelyRun(START, acts) && OrderedRun(START, acts)
    ensures var sys := Run(START, acts);
            && sys.right == NEW_SIDE
            && sys.left.peer.recent == [RecentPacket(1, 0.0), RecentPacket(2, 0.0)]
            && sys.left.ackN == 0 && sys.left.accepted == []
            && sys.left.peer.lastRemoteSeq == 0 && sys.left.peer.lastRemoteAckSeq == 0 && sys.left.remoteN == 0
            && |sys.left.written| == 2
            && var w := sys.left.written[1]; w.n == 2 && w.ackN == 0 && w.header.pseq == 2 && w.header.ackId == 0
  {
    var a := Generate(Left);
    acts := [] + [a] + [a] + [Transmit(Left, 1, 0)] + [Transmit(Left, 2, 0)];
    TwoPeersLimits.RunSnoc(START, [], a);
    TwoPeersLimits.RunSnoc(START, [] + [a], a);
    TwoPeersLimits.RunSnoc(START, [] + [a] + [a], Transmit(Left, 1, 0));
    TwoPeersLimits.RunSnoc(START, [] + [a] + [a] + [Transmit(Left, 1, 0)], Transmit(Left, 2, 0));
  }

  /** Packets 1 and 2 are sent, 2 alone arrives and is answered. */
  lemma {:induction false} OnlySecondArrives() returns (acts: seq<Action>)
    ensures TimelyRun(START, acts) && OrderedRun(START, acts)
    ensures var sys := Run(START, acts);
            var l, r := sys.left, sys.right;
            && l.peer.recent == [RecentPacket(1, 0.0), RecentPacket(2, 0.0)]
            && l.ackN == 0 && l.remoteN == 0 && l.accepted == [] && l.peer.lastRemoteSeq == 0 && l.peer.lastRemoteAckSeq == 0
            && (forall p :: p in r.accepted ==> p.n == 2)
            && r.remoteN == 2 && r.peer.window[0] == 1.0 && r.peer.lastRemoteSeq == 2 && r.peer.Valid()
            && r.written == [Packet(1, 2, HeaderOf(r.peer, 1, 0))]
  {
    hide Delivered, Run, TimelyRun, OrderedRun;
    var b := Deliver(Right, 1, 1.0);
    acts := TwoAreSent();
    var sent := Run(START, acts);
    TwoPeersLimits.RunSnoc(START, acts, b);
    SecondIsAccepted(sent.left.written[1]);
    TwoPeersLimits.RunSnoc(START, acts + [b], Generate(Right));
    TwoPeersLimits.RunSnoc(START, acts + [b] + [Generate(Right)], Transmit(Right, 1, 0));
    acts := acts + [b] + [Generate(Right)] + [Transmit(Right, 1, 0)];
  }

  lemma SecondIsAccepted(w: Packet)
    requires w.n == 2 && w.header.pseq == 2 && w.ackN == 0 && w.header.ackId == 0
    ensures var r := Delivered(NEW_SIDE, w, 1.0);
            && r.accepted == [w] && r.remoteN == 2 && r.generated == 1 && r.written == [] && r.ackN == 0
            && r.peer.lastRemoteSeq == 2 && r.peer.window[0] == 1.0 && r.peer.extras == []
  {
    assert SeqGt(2, 0);
  }

  /** A run in which the mask marks a packet that the peer never accepted: packet 1 is lost,
      packet 2 arrives, and its acknowledgement is taken for packet 1 and not for packet 2. */
  lemma LostPacketIsMarked() returns (acts: seq<Action>)
    ensures TimelyRun(START, acts) && OrderedRun(START, acts)
    ensures var sys := Run(START, acts);
            && sys.left.peer.recent == [RecentPacket(1, 1.0), RecentPacket(2, 0.0)]
            && !Accepted(sys.right, 1) && Accepted(sys.right, 2)
  {
    hide Run, TimelyRun, OrderedRun, Delivered;
    var before := OnlySecondArrives();
    var d := Deliver(Left, 0, 1.0);
    var sys := Run(START, before);
    TwoPeersLimits.RunSnoc(START, before, d);
    acts := before + [d];
    AnswerMarks(sys.left, sys.right);
    TimelyRunsAreConsistent(before);
    assert Accepted(sys.right, 2);
  }

  lemma AnswerMarks(l: Side, r: Side)
    requires l.peer.Valid() && l.peer.recent == [RecentPacket(1, 0.0), RecentPacket(2, 0.0)]
    requires l.peer.lastRemoteSeq == 0 && l.peer.lastRemoteAckSeq == 0
    requires r.peer.Valid() && r.remoteN == 2 && r.peer.lastRemoteSeq == 2 && r.peer.window[0] == 1.0
    ensures Delivered(l, Packet(1, 2, HeaderOf(r.peer, 1, 0)), 1.0).peer.recent ==
            [RecentPacket(1, 1.0), RecentPacket(2, 0.0)]
  {
    assert SeqGt(1, 0) && SeqGt(2, 0);
    MaskMarksPredecessor(r, l.peer.recent, 1.0, 0, 1);
    MaskMarksPredecessor(r, l.peer.recent, 1.0, 1, 2);
    hide MarkAll, AckMask;
  }
}
