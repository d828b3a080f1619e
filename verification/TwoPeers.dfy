/** Two peers and a network that may lose, reorder, repeat and delay packets for ever.
    Every header on the wire carries 32-bit numbers; beside them the system keeps the
    unbounded numbers they stand for, which no peer looks at. */
module TwoPeers {
  import opened SequenceNumbers
  import opened Bytes
  import opened PacketProtocol

  /** A header as written, with the true numbers behind `pseq` and `ackId`. */
  datatype Packet = Packet(n: nat, ackN: nat, header: Header)

  datatype Side = Side(
    peer: Peer,
    generated: nat,          // the true number GenerateOutSeq returns next
    written: seq<Packet>,    // every header written, in writing order: the network
    remoteN: nat,            // the true number behind lastRemoteSeq
    accepted: seq<Packet>,   // packets accepted, in order
    jumped: set<nat>,        // numbers first accepted by a jump of more than 31
    ackN: nat,               // the true number behind lastRemoteAckSeq
    acknowledged: seq<Extra> // extras dropped as acknowledged
  )

  datatype Name = Left | Right {
    function Other(): Name { if Left? then Right else Left }
  }

  datatype System = System(left: Side, right: Side) {
    function At(who: Name): Side { if who.Left? then left else right }

    function Put(who: Name, s: Side): System {
      if who.Left? then System(s, right) else System(left, s)
    }
  }

  datatype Action =
    | Generate(who: Name)                                // take the next number
    | Transmit(who: Name, n: nat, packetType: byte)      // write a header for a number taken before
    | Attach(who: Name, extra: Extra)                    // SendExtra
    | Deliver(who: Name, index: nat, now: real)          // the peer's index-th header arrives

  const NEW_SIDE: Side := Side(NEW_PEER, 1, [], 0, [], {}, 0, [])
  const START: System := System(NEW_SIDE, NEW_SIDE)

  // ----------------------------------------------------------------- the steps

  /** A number that was taken may wait long for its header, get none, or get several: the
      first packets of a call are written for every endpoint under one number. */
  predicate Taken(s: Side, n: nat) {
    1 <= n < s.generated
  }

  function Generated(s: Side): Side {
    s.(peer := s.peer.(nextSeq := Wrap(s.peer.nextSeq + 1)),
       generated := s.generated + 1)
  }

  function Written(s: Side, n: nat, packetType: byte): Packet
    requires s.peer.Valid()
  {
    Packet(n, s.remoteN, HeaderOf(s.peer, Wrap(n), packetType))
  }

  function Transmitted(s: Side, n: nat, packetType: byte): Side
    requires s.peer.Valid()
  {
    s.(peer := AfterWrite(s.peer, Wrap(n)),
       written := s.written + [Written(s, n, packetType)])
  }

  function Attached(s: Side, e: Extra): Side {
    s.(peer := s.peer.(extras := AddExtra(s.peer.extras, e)))
  }

  function Delivered(s: Side, p: Packet, now: real): Side
    requires s.peer.Valid()
  {
    var r := Receive(s.peer, p.header, now);
    if !r.verdict.Accepted() then
      s.(peer := r.peer)
    else
      s.(peer := r.peer,
         remoteN := if r.verdict.Newest? then p.n else s.remoteN,
         accepted := s.accepted + [p],
         jumped := if r.verdict.Newest? && Sub32(p.header.pseq, s.peer.lastRemoteSeq) > 31
                   then s.jumped + {p.n} else s.jumped,
         ackN := if SeqGt(p.header.ackId, s.peer.lastRemoteAckSeq) then p.ackN else s.ackN,
         acknowledged := s.acknowledged + r.acknowledged)
  }

  predicate Sound(sys: System) {
    sys.left.peer.Valid() && sys.right.peer.Valid()
  }

  /** An action that is not possible in a state leaves it unchanged. */
  function Step(sys: System, a: Action): (r: System)
    requires Sound(sys)
    ensures Sound(r)
  {
    var s := sys.At(a.who);
    match a
    case Generate(_) => sys.Put(a.who, Generated(s))
    case Transmit(_, n, t) => if Taken(s, n) then sys.Put(a.who, Transmitted(s, n, t)) else sys
    case Attach(_, e) => sys.Put(a.who, Attached(s, e))
    case Deliver(_, i, now) =>
      var net := sys.At(a.who.Other()).written;
      if i < |net| && now > 0.0 then sys.Put(a.who, Delivered(s, net[i], now)) else sys
  }

  function Run(sys: System, acts: seq<Action>): (r: System)
    requires Sound(sys)
    ensures Sound(r)
    decreases |acts|
  {
    if acts == [] then sys else Step(Run(sys, acts[..|acts| - 1]), acts[|acts| - 1])
  }

  // ------------------------------------------------------------- what is asked of a run

  /** A peer never gets 2^31 numbers ahead of the last one acknowledged to it, and no
      packet arrives that is 2^31 numbers behind what its receiver already knows. */
  ghost predicate Timely(sys: System, a: Action) {
    var s, r := sys.At(a.who), sys.At(a.who.Other());
    match a
    case Generate(_) => s.generated + 1 - s.ackN <= HALF
    case Deliver(_, i, _) => i < |r.written| ==>
      r.written[i].n > s.remoteN - HALF && r.written[i].ackN > s.ackN - HALF
    case _ => true
  }

  /** A header that is the first to carry some extra has a higher number than every
      header written before it. */
  ghost predicate StampsInOrder(sys: System, a: Action) {
    a.Transmit? ==>
      var s := sys.At(a.who);
      (exists x :: x in s.peer.extras && x.firstContainingSeq == 0) ==>
        forall w :: w in s.written ==> w.n < a.n
  }

  ghost predicate TimelyRun(sys: System, acts: seq<Action>)
    requires Sound(sys)
    decreases |acts|
  {
    acts == [] ||
    (TimelyRun(sys, acts[..|acts| - 1]) && Timely(Run(sys, acts[..|acts| - 1]), acts[|acts| - 1]))
  }

  ghost predicate OrderedRun(sys: System, acts: seq<Action>)
    requires Sound(sys)
    decreases |acts|
  {
    acts == [] ||
    (OrderedRun(sys, acts[..|acts| - 1]) && StampsInOrder(Run(sys, acts[..|acts| - 1]), acts[|acts| - 1]))
  }

  // ------------------------------------------------- invariants of a sender `s` and its receiver `r`

  ghost predicate Accepted(r: Side, n: nat) {
    exists p :: p in r.accepted && p.n == n
  }

  ghost predicate Numbered(s: Side) {
    && s.peer.Valid()
    && s.generated >= 1
    && s.peer.nextSeq == Wrap(s.generated)
    && (forall w :: w in s.written ==>
        && Taken(s, w.n)
        && w.header.pseq == Wrap(w.n) && w.header.ackId == Wrap(w.ackN))
  }

  ghost predicate Tracks(s: Side, r: Side) {
    && r.peer.lastRemoteSeq == Wrap(r.remoteN)
    && r.remoteN < s.generated
    && (forall p :: p in r.accepted ==> p in s.written && p.n <= r.remoteN)
    && (r.remoteN == 0 || Accepted(r, r.remoteN))
  }

  ghost predicate TrueAck(r: Side, n: nat) {
    n <= r.remoteN && (n == 0 || Accepted(r, n))
  }

  ghost predicate AcksAreTrue(s: Side, r: Side) {
    && (forall w {:trigger TrueAck(r, w.ackN)} :: w in r.written ==> TrueAck(r, w.ackN))
    && TrueAck(r, s.ackN)
    && s.peer.lastRemoteAckSeq == Wrap(s.ackN)
    && s.generated - s.ackN <= HALF
  }

  ghost predicate Base(s: Side, r: Side) {
    Numbered(s) && Tracks(s, r) && AcksAreTrue(s, r)
  }

  function Times(log: seq<Packet>, n: nat): nat {
    if log == [] then 0
    else Times(log[..|log| - 1], n) + (if log[|log| - 1].n == n then 1 else 0)
  }

  ghost predicate WindowAgrees(r: Side) {
    && |r.peer.window| == WINDOW
    && (forall i :: 0 <= i < WINDOW ==> EntryAgrees(r, i))
    && (forall n :: AtMostTwice(r, n))
    && (forall n :: n in r.jumped ==> n <= r.remoteN)
  }

  /** A window entry and the jump record together say how often its number was accepted. */
  ghost predicate EntryAgrees(r: Side, i: nat)
    requires i < |r.peer.window|
  {
    if i > r.remoteN then r.peer.window[i] == 0.0
    else Times(r.accepted, r.remoteN - i) ==
         (if r.peer.window[i] != 0.0 then 1 else 0) + (if r.remoteN - i in r.jumped then 1 else 0)
  }

  ghost predicate AtMostTwice(r: Side, n: nat) {
    Times(r.accepted, n) <= 1 + (if n in r.jumped then 1 else 0)
  }

  /** `n` is the true number behind `x.firstContainingSeq`: every header from `n` on carries it. */
  ghost predicate StampedAt(s: Side, x: PendingExtra, n: nat) {
    && s.ackN < n < s.generated
    && x.firstContainingSeq == Wrap(n)
    && forall w :: w in s.written && w.n >= n ==> x.extra in w.header.extras
  }

  ghost predicate ExtrasAreCarried(s: Side) {
    forall x :: x in s.peer.extras && x.firstContainingSeq != 0 ==> exists n :: StampedAt(s, x, n)
  }

  ghost predicate AcceptedCarrying(r: Side, e: Extra) {
    exists p :: p in r.accepted && e in p.header.extras
  }

  ghost predicate DropsAreDelivered(s: Side, r: Side) {
    forall e :: e in s.acknowledged ==> AcceptedCarrying(r, e)
  }

  ghost predicate Consistent(sys: System) {
    Base(sys.left, sys.right) && Base(sys.right, sys.left)
  }

  // ------------------------------------------------------------ every step keeps the base

  /** A receiver that has accepted at least as much still vouches for every true acknowledgement. */
  lemma TrueAckGrows(r: Side, r': Side)
    requires r.remoteN <= r'.remoteN && forall p :: p in r.accepted ==> p in r'.accepted
    ensures forall n {:trigger TrueAck(r', n)} :: TrueAck(r, n) ==> TrueAck(r', n)
  {
    assert forall k :: Accepted(r, k) ==> Accepted(r', k);
  }

  lemma {:induction false} GenerateKeepsBase(s: Side, r: Side)
    requires Base(s, r) && Base(r, s)
    requires s.generated + 1 - s.ackN <= HALF
    ensures Base(Generated(s), r) && Base(r, Generated(s))
  {
    var s' := Generated(s);
    WrapSuccessor(s.generated);
    TrueAckGrows(s, s');
    assert Numbered(s');
    assert Tracks(s', r) && Tracks(r, s');
  }

  lemma {:induction false} TransmitKeepsBase(s: Side, r: Side, n: nat, t: byte)
    requires Base(s, r) && Base(r, s)
    requires Taken(s, n)
    ensures Base(Transmitted(s, n, t), r) && Base(r, Transmitted(s, n, t))
  {
    var s' := Transmitted(s, n, t);
    TrueAckGrows(s, s');
    assert forall w :: w in s'.written <==> w in s.written || w == Written(s, n, t);
    assert forall i :: 0 <= i < |s.written| ==> s.written[i] in s.written;
    assert TrueAck(s', s.remoteN);
  }

  lemma AttachKeepsBase(s: Side, r: Side, e: Extra)
    requires Base(s, r) && Base(r, s)
    ensures Base(Attached(s, e), r) && Base(r, Attached(s, e))
  {
    TrueAckGrows(s, Attached(s, e));
  }

  /** Under the timing condition the 32-bit comparisons made on arrival are the true ones. */
  lemma {:induction false} ComparisonsAreTrue(s: Side, r: Side, p: Packet)
    requires Base(s, r) && Base(r, s)
    requires p in r.written
    requires p.n > s.remoteN - HALF && p.ackN > s.ackN - HALF
    ensures SeqGt(p.header.pseq, s.peer.lastRemoteSeq) <==> p.n > s.remoteN
    ensures p.n > s.remoteN ==> Sub32(p.header.pseq, s.peer.lastRemoteSeq) == p.n - s.remoteN
    ensures p.n <= s.remoteN ==> Sub32(s.peer.lastRemoteSeq, p.header.pseq) == s.remoteN - p.n
    ensures SeqGt(p.header.ackId, s.peer.lastRemoteAckSeq) <==> p.ackN > s.ackN
  {
    assert TrueAck(r, p.ackN) && TrueAck(s, r.ackN);
    SeqGtAgreesWithCounters(p.n, s.remoteN);
    SeqGtAgreesWithCounters(p.ackN, s.ackN);
    if p.n > s.remoteN {
      WrapDifference(p.n, s.remoteN);
    } else {
      WrapDifference(s.remoteN, p.n);
    }
  }

  function Max(a: nat, b: nat): nat { if a > b then a else b }

  /** An arrival in true numbers: either nothing but the window changes, or the packet
      joins the accepted ones and both marks move up to it. */
  ghost predicate Arrived(s: Side, p: Packet, s': Side) {
    && s'.peer.Valid() && s'.peer.nextSeq == s.peer.nextSeq
    && s'.generated == s.generated && s'.written == s.written
    && (s'.accepted == s.accepted ==>
        && s'.remoteN == s.remoteN && s'.ackN == s.ackN
        && s'.peer.lastRemoteSeq == s.peer.lastRemoteSeq
        && s'.peer.lastRemoteAckSeq == s.peer.lastRemoteAckSeq)
    && (s'.accepted != s.accepted ==>
        && s'.accepted == s.accepted + [p]
        && s'.remoteN == Max(s.remoteN, p.n) && s'.ackN == Max(s.ackN, p.ackN)
        && s'.peer.lastRemoteSeq == Wrap(s'.remoteN)
        && s'.peer.lastRemoteAckSeq == Wrap(s'.ackN))
  }

  lemma {:induction false} DeliveryArrives(s: Side, r: Side, p: Packet, now: real)
    requires Base(s, r) && Base(r, s)
    requires p in r.written && now > 0.0
    requires p.n > s.remoteN - HALF && p.ackN > s.ackN - HALF
    ensures Arrived(s, p, Delivered(s, p, now))
  {
    ComparisonsAreTrue(s, r, p);
    var s' := Delivered(s, p, now);
    assert s.accepted + [p] != s.accepted by {
      assert |s.accepted + [p]| == |s.accepted| + 1;
    }
  }

  lemma {:induction false} ArrivalKeepsBase(s: Side, r: Side, p: Packet, s': Side)
    requires Base(s, r) && Base(r, s)
    requires p in r.written && Arrived(s, p, s')
    ensures Base(s', r) && Base(r, s')
  {
    assert forall q :: q in s.accepted ==> q in s'.accepted;
    TrueAckGrows(s, s');
    assert TrueAck(r, p.ackN);
    if s'.accepted != s.accepted {
      assert s'.accepted[|s.accepted|] == p;
      assert Accepted(s', p.n);
      assert Accepted(s', s.remoteN) || s.remoteN == 0;
      assert forall q :: q in s'.accepted ==> q in s.accepted || q == p;
    }
    assert Numbered(s') && Tracks(s', r) && AcksAreTrue(s', r);
    assert Tracks(r, s') && AcksAreTrue(r, s');
  }

  lemma {:induction false} DeliverKeepsBase(s: Side, r: Side, p: Packet, now: real)
    requires Base(s, r) && Base(r, s)
    requires p in r.written && now > 0.0
    requires p.n > s.remoteN - HALF && p.ackN > s.ackN - HALF
    ensures Base(Delivered(s, p, now), r) && Base(r, Delivered(s, p, now))
  {
    DeliveryArrives(s, r, p, now);
    ArrivalKeepsBase(s, r, p, Delivered(s, p, now));
  }

  lemma {:induction false} StepKeepsBase(sys: System, a: Action)
    requires Consistent(sys) && Timely(sys, a)
    ensures Consistent(Step(sys, a))
  {
    var s, r := sys.At(a.who), sys.At(a.who.Other());
    match a
    case Generate(_) => GenerateKeepsBase(s, r);
    case Transmit(_, n, t) => if Taken(s, n) { TransmitKeepsBase(s, r, n, t); }
    case Attach(_, e) => AttachKeepsBase(s, r, e);
    case Deliver(_, i, now) =>
      if i < |r.written| && now > 0.0 { DeliverKeepsBase(s, r, r.written[i], now); }
  }

  // --------------------------------------------------------------- the receive window

  lemma TimesOfOne(log: seq<Packet>, p: Packet, n: nat)
    ensures Times(log + [p], n) == Times(log, n) + (if p.n == n then 1 else 0)
  {
    assert (log + [p])[..|log|] == log;
  }

  lemma {:induction false} TimesMeansAccepted(log: seq<Packet>, n: nat)
    ensures Times(log, n) > 0 <==> exists p :: p in log && p.n == n
  {
    if log != [] {
      var front, last := log[..|log| - 1], log[|log| - 1];
      TimesMeansAccepted(front, n);
      assert log == front + [last];
    }
  }

  lemma NothingAheadOfRemote(s: Side, r: Side, n: nat)
    requires Tracks(s, r) && n > r.remoteN
    ensures Times(r.accepted, n) == 0
  {
    TimesMeansAccepted(r.accepted, n);
  }

  /** What an arrival does to the window, in true numbers. */
  ghost predicate WindowMoved(s: Side, p: Packet, now: real, s': Side) {
    var w, w' := s.peer.window, s'.peer.window;
    && |w| == |w'| == WINDOW
    && (s'.accepted == s.accepted ==> w' == w && s'.jumped == s.jumped)
    && (s'.accepted != s.accepted ==>
        if p.n > s.remoteN then
          var diff := p.n - s.remoteN;
          && s'.jumped == (if diff > 31 then s.jumped + {p.n} else s.jumped)
          && (w'[0] == if diff > 31 then 0.0 else now)
          && (forall i :: 1 <= i < diff && i < WINDOW ==> w'[i] == 0.0)
          && (forall i :: diff <= i < WINDOW ==> w'[i] == w[i - diff])
        else
          var k := s.remoteN - p.n;
          && k < WINDOW && w[k] == 0.0 && w' == w[k := now]
          && s'.jumped == s.jumped)
  }

  lemma {:induction false} DeliveryMovesWindow(s: Side, r: Side, p: Packet, now: real)
    requires Base(s, r) && Base(r, s)
    requires p in r.written && now > 0.0
    requires p.n > s.remoteN - HALF && p.ackN > s.ackN - HALF
    ensures WindowMoved(s, p, now, Delivered(s, p, now))
  {
    ComparisonsAreTrue(s, r, p);
    assert s.accepted + [p] != s.accepted by {
      assert |s.accepted + [p]| == |s.accepted| + 1;
    }
  }

  lemma NewestKeepsEntry(s: Side, r: Side, p: Packet, now: real, s': Side, i: nat)
    requires Tracks(r, s) && WindowAgrees(s) && now > 0.0
    requires WindowMoved(s, p, now, s') && p.n > s.remoteN && i < WINDOW
    requires s'.accepted == s.accepted + [p] && s'.remoteN == p.n
    ensures EntryAgrees(s', i)
  {
    var diff := p.n - s.remoteN;
    if i <= p.n {
      TimesOfOne(s.accepted, p, p.n - i);
      if i < diff {
        NothingAheadOfRemote(r, s, p.n - i);
      } else {
        assert p.n - i == s.remoteN - (i - diff);
        assert EntryAgrees(s, i - diff);
      }
    } else if diff <= i {
      assert EntryAgrees(s, i - diff);
    }
  }

  lemma OlderKeepsEntry(s: Side, p: Packet, now: real, s': Side, i: nat)
    requires WindowAgrees(s) && now > 0.0
    requires WindowMoved(s, p, now, s') && p.n <= s.remoteN && i < WINDOW
    requires s'.accepted == s.accepted + [p] && s'.remoteN == s.remoteN
    ensures EntryAgrees(s', i)
  {
    assert EntryAgrees(s, i);
    if i <= s.remoteN {
      TimesOfOne(s.accepted, p, s.remoteN - i);
    }
  }

  lemma ArrivalKeepsCounts(s: Side, r: Side, p: Packet, now: real, s': Side, n: nat)
    requires Tracks(r, s) && WindowAgrees(s)
    requires WindowMoved(s, p, now, s')
    requires s'.accepted == s.accepted + [p]
    ensures AtMostTwice(s', n)
  {
    TimesOfOne(s.accepted, p, n);
    assert AtMostTwice(s, n);
    if p.n == n {
      if n > s.remoteN {
        NothingAheadOfRemote(r, s, n);
      } else {
        assert EntryAgrees(s, s.remoteN - n);
      }
    }
  }

  lemma {:induction false} DeliverKeepsWindow(s: Side, r: Side, p: Packet, now: real)
    requires Base(s, r) && Base(r, s) && WindowAgrees(s)
    requires p in r.written && now > 0.0
    requires p.n > s.remoteN - HALF && p.ackN > s.ackN - HALF
    ensures WindowAgrees(Delivered(s, p, now))
  {
    var s' := Delivered(s, p, now);
    DeliveryArrives(s, r, p, now);
    DeliveryMovesWindow(s, r, p, now);
    if s'.accepted == s.accepted {
      forall i | 0 <= i < WINDOW ensures EntryAgrees(s', i) { assert EntryAgrees(s, i); }
      forall n ensures AtMostTwice(s', n) { assert AtMostTwice(s, n); }
    } else {
      forall i | 0 <= i < WINDOW ensures EntryAgrees(s', i) {
        if p.n > s.remoteN { NewestKeepsEntry(s, r, p, now, s', i); } else { OlderKeepsEntry(s, p, now, s', i); }
      }
      forall n ensures AtMostTwice(s', n) { ArrivalKeepsCounts(s, r, p, now, s', n); }
    }
  }

  // ------------------------------------------------------------- extras until acknowledged

  lemma TransmitKeepsExtras(s: Side, r: Side, n: nat, t: byte)
    requires Base(s, r) && ExtrasAreCarried(s)
    requires Taken(s, n)
    requires (exists x :: x in s.peer.extras && x.firstContainingSeq == 0) ==> forall w :: w in s.written ==> w.n < n
    ensures ExtrasAreCarried(Transmitted(s, n, t))
  {
    var s', packet := Transmitted(s, n, t), Written(s, n, t);
    forall x' | x' in s'.peer.extras && x'.firstContainingSeq != 0 ensures exists k :: StampedAt(s', x', k) {
      var i :| 0 <= i < |s'.peer.extras| && s'.peer.extras[i] == x';
      var x := s.peer.extras[i];
      assert x in s.peer.extras;
      assert packet.header.extras[i] == x.extra;
      if x.firstContainingSeq != 0 {
        var k :| StampedAt(s, x, k);
        assert StampedAt(s', x', k);
      } else {
        assert s.ackN < n;
        assert StampedAt(s', x', n);
      }
    }
  }

  lemma AttachKeepsExtras(s: Side, e: Extra)
    requires ExtrasAreCarried(s)
    ensures ExtrasAreCarried(Attached(s, e))
  {
    var s' := Attached(s, e);
    forall x | x in s'.peer.extras && x.firstContainingSeq != 0 ensures exists k :: StampedAt(s', x, k) {
      assert x in s.peer.extras;
      var k :| StampedAt(s, x, k);
      assert StampedAt(s', x, k);
    }
  }

  /** On arrival, an extra is dropped exactly when the true acknowledgement has reached its stamp. */
  lemma {:induction false} CoverageIsTrue(s: Side, r: Side, p: Packet, x: PendingExtra, k: nat)
    requires Base(s, r) && Base(r, s)
    requires p in r.written && p.ackN > s.ackN && StampedAt(s, x, k)
    requires x.firstContainingSeq != 0
    ensures Covered(x, p.header.ackId) <==> p.ackN >= k
  {
    assert TrueAck(r, p.ackN);
    SeqGtAgreesWithCounters(p.ackN, k);
  }

  lemma {:induction false} DeliverKeepsExtras(s: Side, r: Side, p: Packet, now: real)
    requires Base(s, r) && Base(r, s)
    requires ExtrasAreCarried(s)
    requires p in r.written && now > 0.0
    requires p.n > s.remoteN - HALF && p.ackN > s.ackN - HALF
    ensures ExtrasAreCarried(Delivered(s, p, now))
  {
    var s' := Delivered(s, p, now);
    DeliveryArrives(s, r, p, now);
    ComparisonsAreTrue(s, r, p);
    AcknowledgementSplitsExtras(s.peer.extras, p.header.ackId);
    forall x | x in s'.peer.extras && x.firstContainingSeq != 0 ensures exists k :: StampedAt(s', x, k) {
      var k :| StampedAt(s, x, k);
      if s'.ackN != s.ackN {
        CoverageIsTrue(s, r, p, x, k);
      }
      assert StampedAt(s', x, k);
    }
  }

  /** The heart of the matter: what is dropped on arrival was accepted by the other side. */
  lemma {:induction false} DropMeansDelivered(s: Side, r: Side, p: Packet, now: real, e: Extra)
    requires Base(s, r) && Base(r, s)
    requires ExtrasAreCarried(s)
    requires p in r.written && now > 0.0
    requires p.n > s.remoteN - HALF && p.ackN > s.ackN - HALF
    requires e in Receive(s.peer, p.header, now).acknowledged
    ensures AcceptedCarrying(r, e)
  {
    ComparisonsAreTrue(s, r, p);
    AcknowledgementSplitsExtras(s.peer.extras, p.header.ackId);
    var x :| x in s.peer.extras && x.extra == e && Covered(x, p.header.ackId);
    var k :| StampedAt(s, x, k);
    CoverageIsTrue(s, r, p, x, k);
    assert TrueAck(r, p.ackN);
    var q :| q in r.accepted && q.n == p.ackN;
    assert e in q.header.extras;
  }

  lemma {:induction false} DeliverKeepsDrops(s: Side, r: Side, p: Packet, now: real)
    requires Base(s, r) && Base(r, s)
    requires ExtrasAreCarried(s)
    requires DropsAreDelivered(s, r) && DropsAreDelivered(r, s)
    requires p in r.written && now > 0.0
    requires p.n > s.remoteN - HALF && p.ackN > s.ackN - HALF
    ensures DropsAreDelivered(Delivered(s, p, now), r) && DropsAreDelivered(r, Delivered(s, p, now))
  {
    var s' := Delivered(s, p, now);
    DeliveryArrives(s, r, p, now);
    forall e | e in s'.acknowledged ensures AcceptedCarrying(r, e) {
      if e !in s.acknowledged {
        DropMeansDelivered(s, r, p, now, e);
      }
    }
    forall e | e in r.acknowledged ensures AcceptedCarrying(s', e) {
      var q :| q in s.accepted && e in q.header.extras;
      assert q in s'.accepted;
    }
  }

  ghost predicate ExtrasSafe(sys: System) {
    && ExtrasAreCarried(sys.left) && ExtrasAreCarried(sys.right)
    && DropsAreDelivered(sys.left, sys.right) && DropsAreDelivered(sys.right, sys.left)
  }

  lemma {:induction false} StepKeepsExtras(sys: System, a: Action)
    requires Consistent(sys) && ExtrasSafe(sys)
    requires Timely(sys, a) && StampsInOrder(sys, a)
    ensures ExtrasSafe(Step(sys, a))
  {
    var s, r := sys.At(a.who), sys.At(a.who.Other());
    match a
    case Generate(_) =>
      var s' := Generated(s);
      forall x | x in s'.peer.extras && x.firstContainingSeq != 0 ensures exists k :: StampedAt(s', x, k) {
        var k :| StampedAt(s, x, k);
        assert StampedAt(s', x, k);
      }
      SameAcceptedSameDrops(s, r, s');
    case Transmit(_, n, t) =>
      if Taken(s, n) {
        TransmitKeepsExtras(s, r, n, t);
        SameAcceptedSameDrops(s, r, Transmitted(s, n, t));
      }
    case Attach(_, e) =>
      AttachKeepsExtras(s, e);
      SameAcceptedSameDrops(s, r, Attached(s, e));
    case Deliver(_, i, now) =>
      if i < |r.written| && now > 0.0 {
        DeliverKeepsExtras(s, r, r.written[i], now);
        DeliverKeepsDrops(s, r, r.written[i], now);
      }
  }

  lemma SameAcceptedSameDrops(s: Side, r: Side, s': Side)
    requires DropsAreDelivered(s, r) && DropsAreDelivered(r, s)
    requires s'.accepted == s.accepted && s'.acknowledged == s.acknowledged
    ensures DropsAreDelivered(s', r) && DropsAreDelivered(r, s')
  {
    assert forall e :: AcceptedCarrying(s, e) ==> AcceptedCarrying(s', e);
  }

  // --------------------------------------------------------------------- whole runs

  ghost predicate WindowsAgree(sys: System) {
    WindowAgrees(sys.left) && WindowAgrees(sys.right)
  }

  lemma StartIsGood()
    ensures Consistent(START) && WindowsAgree(START) && ExtrasSafe(START)
  {
  }

  lemma {:induction false} StepKeepsWindows(sys: System, a: Action)
    requires Consistent(sys) && WindowsAgree(sys) && Timely(sys, a)
    ensures WindowsAgree(Step(sys, a))
  {
    var s, r := sys.At(a.who), sys.At(a.who.Other());
    if a.Deliver? && a.index < |r.written| && a.now > 0.0 {
      DeliverKeepsWindow(s, r, r.written[a.index], a.now);
    } else {
      SameWindowAgrees(s, Step(sys, a).At(a.who));
    }
  }

  lemma SameWindowAgrees(s: Side, s': Side)
    requires WindowAgrees(s)
    requires s'.accepted == s.accepted && s'.peer.window == s.peer.window
    requires s'.remoteN == s.remoteN && s'.jumped == s.jumped
    ensures WindowAgrees(s')
  {
    forall i | 0 <= i < WINDOW ensures EntryAgrees(s', i) { assert EntryAgrees(s, i); }
    forall n ensures AtMostTwice(s', n) { assert AtMostTwice(s, n); }
  }

  /** Every timely run keeps the numbering, acknowledgement and window invariants. */
  lemma {:induction false} TimelyRunsAreConsistent(acts: seq<Action>)
    requires TimelyRun(START, acts)
    ensures Consistent(Run(START, acts)) && WindowsAgree(Run(START, acts))
    decreases |acts|
  {
    StartIsGood();
    if acts != [] {
      var front, last := acts[..|acts| - 1], acts[|acts| - 1];
      TimelyRunsAreConsistent(front);
      StepKeepsBase(Run(START, front), last);
      StepKeepsWindows(Run(START, front), last);
    }
  }

  lemma TimelyRunsKeepWindows(acts: seq<Action>)
    requires TimelyRun(START, acts)
    ensures WindowsAgree(Run(START, acts))
  {
    TimelyRunsAreConsistent(acts);
  }

  lemma {:induction false} OrderedRunsAreSafe(acts: seq<Action>)
    requires TimelyRun(START, acts) && OrderedRun(START, acts)
    ensures ExtrasSafe(Run(START, acts))
    decreases |acts|
  {
    StartIsGood();
    if acts != [] {
      var front, last := acts[..|acts| - 1], acts[|acts| - 1];
      TimelyRunsAreConsistent(front);
      OrderedRunsAreSafe(front);
      StepKeepsExtras(Run(START, front), last);
    }
  }

  /** Reliable delivery of extras: over every run in which no peer outruns its
      acknowledgements by 2^31, nothing arrives 2^31 late, and fresh extras are stamped by
      headers in increasing order, an extra is dropped only after the other side accepted
      a packet carrying exactly it. */
  lemma {:induction false} DroppedExtrasWereDelivered(acts: seq<Action>, who: Name, e: Extra)
    requires TimelyRun(START, acts) && OrderedRun(START, acts)
    requires e in Run(START, acts).At(who).acknowledged
    ensures exists p :: p in Run(START, acts).At(who.Other()).accepted && e in p.header.extras
  {
    OrderedRunsAreSafe(acts);
    assert AcceptedCarrying(Run(START, acts).At(who.Other()), e);
  }

  /** Over every timely run a packet is accepted exactly when it is newer than all accepted
      ones, or less than 32 behind and not yet accepted, or accepted so far only by the jump
      of more than 31 that introduced it. */
  lemma {:induction false} AcceptanceIsExact(acts: seq<Action>, who: Name, i: nat, now: real)
    requires TimelyRun(START, acts) && now > 0.0
    requires i < |Run(START, acts).At(who.Other()).written|
    requires Timely(Run(START, acts), Deliver(who, i, now))
    ensures var s := Run(START, acts).At(who);
            var p := Run(START, acts).At(who.Other()).written[i];
            var s' := Step(Run(START, acts), Deliver(who, i, now)).At(who);
            s'.accepted == (if || p.n > s.remoteN
                               || (s.remoteN - p.n < 32 && Times(s.accepted, p.n) == if p.n in s.jumped then 1 else 0)
                            then s.accepted + [p] else s.accepted)
  {
    TimelyRunsAreConsistent(acts);
    var sys := Run(START, acts);
    var s, r := sys.At(who), sys.At(who.Other());
    AcceptsExactly(s, r, r.written[i], now);
  }

  lemma {:induction false} AcceptsExactly(s: Side, r: Side, p: Packet, now: real)
    requires Base(s, r) && Base(r, s) && WindowAgrees(s)
    requires p in r.written && now > 0.0
    requires p.n > s.remoteN - HALF && p.ackN > s.ackN - HALF
    ensures Delivered(s, p, now).accepted ==
            if || p.n > s.remoteN
               || (s.remoteN - p.n < 32 && Times(s.accepted, p.n) == if p.n in s.jumped then 1 else 0)
            then s.accepted + [p] else s.accepted
  {
    WindowDecides(s, r, p, now);
    if p.n <= s.remoteN && s.remoteN - p.n < 32 {
      assert EntryAgrees(s, s.remoteN - p.n);
    }
  }

  lemma {:induction false} WindowDecides(s: Side, r: Side, p: Packet, now: real)
    requires Base(s, r) && Base(r, s)
    requires p in r.written && now > 0.0
    requires p.n > s.remoteN - HALF && p.ackN > s.ackN - HALF
    ensures Delivered(s, p, now).accepted ==
            if p.n > s.remoteN || (s.remoteN - p.n < 32 && s.peer.window[s.remoteN - p.n] == 0.0)
            then s.accepted + [p] else s.accepted
  {
    ComparisonsAreTrue(s, r, p);
  }

  /** Over every timely run the window entries report acceptances truly, and no number is
      accepted twice unless a jump of more than 31 first brought it in; none three times. */
  lemma AcceptedAtMostOnceUnlessJumped(acts: seq<Action>, who: Name, n: nat, i: nat)
    requires TimelyRun(START, acts) && i < WINDOW
    ensures var s := Run(START, acts).At(who);
            && Times(s.accepted, n) <= (if n in s.jumped then 2 else 1)
            && |s.peer.window| == WINDOW
            && (s.peer.window[i] != 0.0 ==> i <= s.remoteN && Times(s.accepted, s.remoteN - i) >= 1)
  {
    TimelyRunsKeepWindows(acts);
    WindowCounts(Run(START, acts).At(who), n, i);
  }

  lemma WindowCounts(s: Side, n: nat, i: nat)
    requires WindowAgrees(s) && i < WINDOW
    ensures Times(s.accepted, n) <= (if n in s.jumped then 2 else 1)
    ensures s.peer.window[i] != 0.0 ==> i <= s.remoteN && Times(s.accepted, s.remoteN - i) >= 1
  {
    assert AtMostTwice(s, n) && EntryAgrees(s, i);
  }
}
