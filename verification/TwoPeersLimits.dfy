/** Where reliable delivery of extras stops: what happens when a header is stamped out of
    order, and when a peer runs more than 2^31 numbers ahead of its acknowledgements. */
module TwoPeersLimits {
  import opened SequenceNumbers
  import opened Bytes
  import opened PacketProtocol
  import opened TwoPeers

  lemma RunSnoc(sys: System, acts: seq<Action>, a: Action)
    requires Sound(sys)
    ensures Run(sys, acts + [a]) == Step(Run(sys, acts), a)
    ensures TimelyRun(sys, acts + [a]) <==> TimelyRun(sys, acts) && Timely(Run(sys, acts), a)
    ensures OrderedRun(sys, acts + [a]) <==> OrderedRun(sys, acts) && StampsInOrder(Run(sys, acts), a)
  {
    assert (acts + [a])[..|acts|] == acts;
  }

  lemma {:induction false} RunAppend(sys: System, front: seq<Action>, back: seq<Action>)
    requires Sound(sys)
    ensures Run(sys, front + back) == Run(Run(sys, front), back)
    ensures TimelyRun(sys, front + back) <==> TimelyRun(sys, front) && TimelyRun(Run(sys, front), back)
    ensures OrderedRun(sys, front + back) <==> OrderedRun(sys, front) && OrderedRun(Run(sys, front), back)
    decreases |back|
  {
    if back == [] {
      assert front + back == front;
    } else {
      var b, a := back[..|back| - 1], back[|back| - 1];
      assert back == b + [a];
      assert front + back == (front + b) + [a];
      RunAppend(sys, front, b);
      RunSnoc(sys, front + b, a);
      RunSnoc(Run(sys, front), b, a);
    }
  }

  // ------------------------------------------------------- stamping out of order

  /** `acts` is a run from `sys` to `sys'`, timely and with every stamp in order. */
  ghost predicate Leads(sys: System, acts: seq<Action>, sys': System) {
    Sound(sys) && Run(sys, acts) == sys' && TimelyRun(sys, acts) && OrderedRun(sys, acts)
  }

  lemma LeadsOneMore(sys: System, acts: seq<Action>, mid: System, a: Action)
    requires Leads(sys, acts, mid) && Sound(mid) && Timely(mid, a) && StampsInOrder(mid, a)
    ensures Leads(sys, acts + [a], Step(mid, a))
  {
    RunSnoc(sys, acts, a);
  }

  /** Header `n` of side `who` will be the first to carry the pending extra `e`.  It is
      written less than 2^31 numbers after its own number was taken, and the other side may
      still take a number. */
  ghost predicate FirstStamp(sys: System, who: Name, n: nat, e: Extra) {
    var s, r := sys.At(who), sys.At(who.Other());
    && Taken(s, n) && PendingExtra(e, 0) in s.peer.extras
    && s.generated - n <= HALF && r.generated + 1 - r.ackN <= HALF
  }

  /** After header `n` is written, some run loses `e`: it is dropped as acknowledged and the
      other side has accepted nothing that carries it. */
  ghost predicate CanBeLost(sys: System, who: Name, n: nat, t: byte, e: Extra)
    requires Sound(sys)
  {
    exists acts, sys' :: Leads(Step(sys, Transmit(who, n, t)), acts, sys')
      && e in sys'.At(who).acknowledged && !AcceptedCarrying(sys'.At(who.Other()), e)
  }

  /** A header from `n` on that the other side of `s` would still accept as its newest, and
      that does not carry `e`. */
  ghost predicate Overtaker(s: Side, r: Side, n: nat, e: Extra, w: Packet) {
    w in s.written && w.n >= n && w.n > r.remoteN && w.ackN > r.ackN - HALF && e !in w.header.extras
  }

  /** The other side has already accepted a number from `n` on that it may yet acknowledge,
      or an overtaking header without `e` may still reach it. */
  ghost predicate Overtaken(s: Side, r: Side, n: nat, e: Extra) {
    || (r.remoteN >= n && r.remoteN > s.ackN)
    || exists w :: Overtaker(s, r, n, e, w)
  }

  /** The stamp that the 32-bit numbers can express comes too late for `e`. */
  ghost predicate StampedTooLate(sys: System, who: Name, n: nat, e: Extra) {
    var s, r := sys.At(who), sys.At(who.Other());
    Wrap(n) != 0 && !AcceptedCarrying(r, e) && Overtaken(s, r, n, e)
  }

  // ..................................................... a late stamp loses the extra

  lemma {:induction false} AcceptOvertaker(r: Side, s: Side, w: Packet)
    requires Base(r, s) && Base(s, r) && w in s.written
    requires w.n > r.remoteN && w.ackN > r.ackN - HALF
    ensures var r' := Delivered(r, w, 1.0);
            && r'.accepted == r.accepted + [w] && r'.remoteN == w.n
            && r'.generated == r.generated && r'.written == r.written && r'.ackN >= r.ackN
  {
    WindowDecides(r, s, w, 1.0);
    DeliveryArrives(r, s, w, 1.0);
    assert |Delivered(r, w, 1.0).accepted| == |r.accepted| + 1;
  }

  lemma DropStamped(s: Side, r: Side, q: Packet, e: Extra, n: nat)
    requires Base(s, r) && Base(r, s) && q in r.written
    requires PendingExtra(e, Wrap(n)) in s.peer.extras && Wrap(n) != 0
    requires q.n > s.remoteN && n <= q.ackN < n + HALF && q.ackN > s.ackN
    ensures e in Delivered(s, q, 1.0).acknowledged
  {
    ComparisonsAreTrue(s, r, q);
    AcknowledgementSplitsExtras(s.peer.extras, q.header.ackId);
    SeqGtAgreesWithCounters(q.ackN, n);
    var x := PendingExtra(e, Wrap(n));
    assert Covered(x, q.header.ackId) && x.extra == e;
  }

  lemma StampsPending(s: Side, e: Extra, n: nat, t: byte)
    requires s.peer.Valid() && PendingExtra(e, 0) in s.peer.extras
    ensures PendingExtra(e, Wrap(n)) in Transmitted(s, n, t).peer.extras
  {
    var i :| 0 <= i < |s.peer.extras| && s.peer.extras[i] == PendingExtra(e, 0);
    assert Transmitted(s, n, t).peer.extras[i] == PendingExtra(e, Wrap(n));
  }

  lemma {:induction false} ArrivesNext(sys: System, acts: seq<Action>, mid: System, o: Name, i: nat)
    returns (sys': System)
    requires Leads(sys, acts, mid) && Consistent(mid)
    requires i < |mid.At(o.Other()).written| && Timely(mid, Deliver(o, i, 1.0))
    ensures Consistent(sys') && Leads(sys, acts + [Deliver(o, i, 1.0)], sys')
    ensures sys'.At(o) == Delivered(mid.At(o), mid.At(o.Other()).written[i], 1.0)
    ensures sys'.At(o.Other()) == mid.At(o.Other())
  {
    StepKeepsBase(mid, Deliver(o, i, 1.0));
    LeadsOneMore(sys, acts, mid, Deliver(o, i, 1.0));
    sys' := Step(mid, Deliver(o, i, 1.0));
  }

  /** What the late stamp needs of the other side `r`: it has accepted nothing that carries
      `e`, may still take a number, and has a number from `n` on to acknowledge. */
  ghost predicate ReadyToAnswer(s: Side, r: Side, n: nat, e: Extra) {
    && !AcceptedCarrying(r, e) && r.generated + 1 - r.ackN <= HALF
    && r.remoteN >= n && r.remoteN > s.ackN
  }

  /** If the overtaking header has not arrived yet, it arrives now. */
  lemma {:induction false} OvertakerArrives(sys: System, who: Name, n: nat, e: Extra)
    returns (acts: seq<Action>, sys': System)
    requires Consistent(sys) && !AcceptedCarrying(sys.At(who.Other()), e)
    requires Overtaken(sys.At(who), sys.At(who.Other()), n, e)
    requires sys.At(who.Other()).generated + 1 - sys.At(who.Other()).ackN <= HALF
    ensures Leads(sys, acts, sys') && Consistent(sys')
    ensures sys'.At(who) == sys.At(who)
    ensures ReadyToAnswer(sys'.At(who), sys'.At(who.Other()), n, e)
  {
    hide Delivered, Attached, Transmitted, Generated;
    var s, r := sys.At(who), sys.At(who.Other());
    if r.remoteN >= n && r.remoteN > s.ackN {
      acts, sys' := [], sys;
    } else {
      var w :| Overtaker(s, r, n, e, w);
      var i :| 0 <= i < |s.written| && s.written[i] == w;
      AcceptOvertaker(r, s, w);
      RemoteStaysBehind(s, r);
      sys' := ArrivesNext(sys, [], sys, who.Other(), i);
      acts := [] + [Deliver(who.Other(), i, 1.0)];
    }
  }

  /** The peer answers with its next number. */
  lemma {:induction false} PeerAnswers(sys: System, acts: seq<Action>, mid: System, o: Name)
    returns (acts': seq<Action>, sys': System)
    requires Leads(sys, acts, mid) && Consistent(mid) && Timely(mid, Generate(o))
    ensures Leads(sys, acts', sys') && Consistent(sys')
    ensures sys'.At(o) == Transmitted(Generated(mid.At(o)), mid.At(o).generated, 0)
    ensures sys'.At(o.Other()) == mid.At(o.Other())
  {
    var a, b := Generate(o), Transmit(o, mid.At(o).generated, 0);
    StepKeepsBase(mid, a);
    StepKeepsBase(Step(mid, a), b);
    LeadsOneMore(sys, acts, mid, a);
    LeadsOneMore(sys, acts + [a], Step(mid, a), b);
    acts', sys' := acts + [a] + [b], Step(Step(mid, a), b);
  }

  lemma RemoteStaysBehind(s: Side, r: Side)
    requires Base(s, r) && Base(r, s)
    ensures s.remoteN < r.generated && s.ackN <= r.remoteN < s.generated
  {
    assert TrueAck(r, s.ackN);
  }

  lemma {:induction false} LateStampLoses(sys: System, who: Name, n: nat, t: byte, e: Extra)
    requires Consistent(sys) && FirstStamp(sys, who, n, e) && StampedTooLate(sys, who, n, e)
    ensures CanBeLost(sys, who, n, t, e)
  {
    hide Delivered, Run, TimelyRun, OrderedRun;
    var stamped := Step(sys, Transmit(who, n, t));
    StepKeepsBase(sys, Transmit(who, n, t));
    StampsPending(sys.At(who), e, n, t);
    StampKeepsOvertaken(sys.At(who), sys.At(who.Other()), n, t, e);
    var acts1, sys1 := OvertakerArrives(stamped, who, n, e);
    var acts2, sys2 := PeerAnswers(stamped, acts1, sys1, who.Other());
    AnswerIsLast(sys1.At(who.Other()));
    LastAnswerDrops(stamped, acts2, sys2, who, n, e);
  }

  lemma StampKeepsOvertaken(s: Side, r: Side, n: nat, t: byte, e: Extra)
    requires s.peer.Valid() && Overtaken(s, r, n, e)
    ensures Overtaken(Transmitted(s, n, t), r, n, e)
  {
    if !(r.remoteN >= n && r.remoteN > s.ackN) {
      var w :| Overtaker(s, r, n, e, w);
      assert Overtaker(Transmitted(s, n, t), r, n, e, w);
    }
  }

  lemma AnswerIsLast(r: Side)
    requires r.peer.Valid()
    ensures var r' := Transmitted(Generated(r), r.generated, 0);
            && r'.accepted == r.accepted && |r'.written| == |r.written| + 1
            && r'.written[|r.written|].n == r.generated && r'.written[|r.written|].ackN == r.remoteN
            && r'.remoteN == r.remoteN && r'.generated == r.generated + 1
  {
  }

  lemma {:induction false} LastAnswerDrops(sys: System, acts: seq<Action>, mid: System, who: Name, n: nat, e: Extra)
    requires Leads(sys, acts, mid) && Consistent(mid)
    requires var s, r := mid.At(who), mid.At(who.Other());
             && PendingExtra(e, Wrap(n)) in s.peer.extras && Wrap(n) != 0 && s.generated - n <= HALF
             && !AcceptedCarrying(r, e)
             && |r.written| > 0 && r.remoteN >= n && r.remoteN > s.ackN
             && var q := r.written[|r.written| - 1];
                q.n > s.remoteN && q.ackN == r.remoteN
    ensures exists acts', sys' :: Leads(sys, acts', sys')
              && e in sys'.At(who).acknowledged && !AcceptedCarrying(sys'.At(who.Other()), e)
  {
    var s, r := mid.At(who), mid.At(who.Other());
    var i := |r.written| - 1;
    RemoteStaysBehind(s, r);
    DropStamped(s, r, r.written[i], e, n);
    var sys' := ArrivesNext(sys, acts, mid, who, i);
  }

  // .......................................... a stamp in time never loses the extra

  /** A pending copy of `e` that no acknowledgement can drop before the other side accepts
      `e`: it is stamped in order, or it is stamped `n` and nothing has overtaken `n`. */
  ghost predicate Harmless(s: Side, r: Side, n: nat, x: PendingExtra) {
    || (exists k :: StampedAt(s, x, k))
    || (x.firstContainingSeq == Wrap(n) && n < s.generated && !Overtaken(s, r, n, x.extra))
  }

  ghost predicate Guarded(s: Side, r: Side, n: nat, e: Extra) {
    || AcceptedCarrying(r, e)
    || (&& e !in s.acknowledged
        && forall x :: x in s.peer.extras && x.extra == e && x.firstContainingSeq != 0 ==> Harmless(s, r, n, x))
  }

  lemma {:induction false} SenderWrites(s: Side, r: Side, n: nat, e: Extra, k: nat, t: byte)
    requires Base(s, r) && Guarded(s, r, n, e) && Taken(s, k)
    requires (exists x :: x in s.peer.extras && x.firstContainingSeq == 0) ==> forall w :: w in s.written ==> w.n < k
    ensures Guarded(Transmitted(s, k, t), r, n, e)
  {
    var s', packet := Transmitted(s, k, t), Written(s, k, t);
    if !AcceptedCarrying(r, e) {
      forall x' | x' in s'.peer.extras && x'.extra == e && x'.firstContainingSeq != 0 ensures Harmless(s', r, n, x') {
        var i :| 0 <= i < |s'.peer.extras| && s'.peer.extras[i] == x';
        var x := s.peer.extras[i];
        assert x in s.peer.extras && packet.header.extras[i] == e;
        if x.firstContainingSeq == 0 {
          assert s.ackN < k;
          assert StampedAt(s', x', k);
        } else if j :| StampedAt(s, x, j) {
          assert StampedAt(s', x', j);
        } else {
          CarryingHeaderIsNoThreat(s, r, n, e, k, t);
        }
      }
    }
  }

  lemma CarryingHeaderIsNoThreat(s: Side, r: Side, n: nat, e: Extra, k: nat, t: byte)
    requires s.peer.Valid() && e in Carried(s.peer.extras) && !Overtaken(s, r, n, e)
    ensures !Overtaken(Transmitted(s, k, t), r, n, e)
  {
    var s' := Transmitted(s, k, t);
    forall w ensures !Overtaker(s', r, n, e, w) {
      assert !Overtaker(s, r, n, e, w);
    }
  }

  lemma SenderAttaches(s: Side, r: Side, n: nat, e: Extra, e': Extra)
    requires Guarded(s, r, n, e)
    ensures Guarded(Attached(s, e'), r, n, e)
  {
    var s' := Attached(s, e');
    if !AcceptedCarrying(r, e) {
      forall x | x in s'.peer.extras && x.extra == e && x.firstContainingSeq != 0 ensures Harmless(s', r, n, x) {
        assert x in s.peer.extras;
        SameWrittenSameHarm(s, r, s', r, n, x);
      }
    }
  }

  lemma SenderTakesNumber(s: Side, r: Side, n: nat, e: Extra)
    requires Guarded(s, r, n, e)
    ensures Guarded(Generated(s), r, n, e)
  {
    var s' := Generated(s);
    if !AcceptedCarrying(r, e) {
      forall x | x in s'.peer.extras && x.extra == e && x.firstContainingSeq != 0 ensures Harmless(s', r, n, x) {
        SameWrittenSameHarm(s, r, s', r, n, x);
      }
    }
  }

  lemma SameWrittenSameHarm(s: Side, r: Side, s': Side, r': Side, n: nat, x: PendingExtra)
    requires Harmless(s, r, n, x)
    requires s'.written == s.written && s'.ackN == s.ackN && s'.generated >= s.generated
    requires r'.remoteN == r.remoteN && r'.ackN >= r.ackN
    ensures Harmless(s', r', n, x)
  {
    if k :| StampedAt(s, x, k) {
      assert StampedAt(s', x, k);
    } else {
      forall w ensures !Overtaker(s', r', n, x.extra, w) {
        assert !Overtaker(s, r, n, x.extra, w);
      }
    }
  }

  /** An acknowledgement reaches the sender: a harmless copy of `e` stays pending. */
  lemma {:induction false} SenderReceives(s: Side, r: Side, n: nat, e: Extra, p: Packet, now: real)
    requires Base(s, r) && Base(r, s) && Guarded(s, r, n, e)
    requires p in r.written && now > 0.0
    requires p.n > s.remoteN - HALF && p.ackN > s.ackN - HALF
    ensures Guarded(Delivered(s, p, now), r, n, e)
  {
    var s' := Delivered(s, p, now);
    DeliveryArrives(s, r, p, now);
    ComparisonsAreTrue(s, r, p);
    AcknowledgementSplitsExtras(s.peer.extras, p.header.ackId);
    if !AcceptedCarrying(r, e) {
      if s'.ackN == s.ackN {
        forall x | x in s'.peer.extras && x.extra == e && x.firstContainingSeq != 0 ensures Harmless(s', r, n, x) {
          SameWrittenSameHarm(s, r, s', r, n, x);
        }
      } else {
        forall x | x in s.peer.extras && x.extra == e && x.firstContainingSeq != 0
          ensures !Covered(x, p.header.ackId) && Harmless(s', r, n, x)
        {
          HarmlessIsKept(s, r, n, x, p, s');
        }
      }
    }
  }

  lemma AcknowledgedStampWasCarried(s: Side, r: Side, x: PendingExtra, k: nat, m: nat)
    requires Tracks(s, r) && StampedAt(s, x, k) && TrueAck(r, m)
    ensures m >= k ==> AcceptedCarrying(r, x.extra)
  {
    if m >= k {
      var q :| q in r.accepted && q.n == m;
      assert x.extra in q.header.extras;
    }
  }

  lemma {:induction false} HarmlessIsKept(s: Side, r: Side, n: nat, x: PendingExtra, p: Packet, s': Side)
    requires Base(s, r) && Base(r, s)
    requires x.firstContainingSeq != 0 && Harmless(s, r, n, x) && !AcceptedCarrying(r, x.extra)
    requires p in r.written && s'.ackN == p.ackN > s.ackN
    requires s'.written == s.written && s'.generated == s.generated
    ensures !Covered(x, p.header.ackId) && Harmless(s', r, n, x)
  {
    assert TrueAck(r, p.ackN);
    if k :| StampedAt(s, x, k) {
      CoverageIsTrue(s, r, p, x, k);
      AcknowledgedStampWasCarried(s, r, x, k, p.ackN);
      assert StampedAt(s', x, k);
    } else {
      SeqGtAgreesWithCounters(p.ackN, n);
      forall w ensures !Overtaker(s', r, n, x.extra, w) {
        assert !Overtaker(s, r, n, x.extra, w);
      }
    }
  }

  /** A header reaches the other side: it carries `e` or is no overtaker. */
  lemma {:induction false} PeerReceives(s: Side, r: Side, n: nat, e: Extra, w: Packet, now: real)
    requires Base(s, r) && Base(r, s) && Guarded(s, r, n, e)
    requires w in s.written && now > 0.0
    requires w.n > r.remoteN - HALF && w.ackN > r.ackN - HALF
    ensures Guarded(s, Delivered(r, w, now), n, e)
  {
    var r' := Delivered(r, w, now);
    DeliveryArrives(r, s, w, now);
    if AcceptedCarrying(r, e) {
      AcceptedStays(r, r', e);
    } else if r'.accepted != r.accepted && e in w.header.extras {
      assert r'.accepted[|r.accepted|] == w;
    } else {
      forall x | x in s.peer.extras && x.extra == e && x.firstContainingSeq != 0 ensures Harmless(s, r', n, x) {
        PeerKeepsHarmless(s, r, n, x, w, r');
      }
    }
  }

  lemma AcceptedStays(r: Side, r': Side, e: Extra)
    requires AcceptedCarrying(r, e) && forall q :: q in r.accepted ==> q in r'.accepted
    ensures AcceptedCarrying(r', e)
  {
  }

  lemma PeerKeepsHarmless(s: Side, r: Side, n: nat, x: PendingExtra, w: Packet, r': Side)
    requires Harmless(s, r, n, x) && Arrived(r, w, r')
    requires w in s.written && w.ackN > r.ackN - HALF
    requires r'.accepted != r.accepted ==> x.extra !in w.header.extras
    ensures Harmless(s, r', n, x)
  {
    if k :| StampedAt(s, x, k) {
      assert StampedAt(s, x, k);
    } else {
      assert !Overtaker(s, r, n, x.extra, w);
      forall v ensures !Overtaker(s, r', n, x.extra, v) {
        assert !Overtaker(s, r, n, x.extra, v);
      }
    }
  }

  lemma {:induction false} StepKeepsGuard(sys: System, who: Name, n: nat, e: Extra, a: Action)
    requires Consistent(sys) && Guarded(sys.At(who), sys.At(who.Other()), n, e)
    requires Timely(sys, a) && StampsInOrder(sys, a)
    ensures var sys' := Step(sys, a); Guarded(sys'.At(who), sys'.At(who.Other()), n, e)
  {
    var s, r := sys.At(who), sys.At(who.Other());
    if a.who == who {
      match a
      case Generate(_) => SenderTakesNumber(s, r, n, e);
      case Transmit(_, k, t) => if Taken(s, k) { SenderWrites(s, r, n, e, k, t); }
      case Attach(_, e') => SenderAttaches(s, r, n, e, e');
      case Deliver(_, i, now) =>
        if i < |r.written| && now > 0.0 { SenderReceives(s, r, n, e, r.written[i], now); }
    } else if a.Deliver? {
      if a.index < |s.written| && a.now > 0.0 { PeerReceives(s, r, n, e, s.written[a.index], a.now); }
    } else {
      PeerOnlySends(s, r, Step(sys, a).At(who.Other()), n, e);
    }
  }

  lemma PeerOnlySends(s: Side, r: Side, r': Side, n: nat, e: Extra)
    requires Guarded(s, r, n, e)
    requires r'.accepted == r.accepted && r'.remoteN == r.remoteN && r'.ackN == r.ackN
    ensures Guarded(s, r', n, e)
  {
    if AcceptedCarrying(r, e) {
      AcceptedStays(r, r', e);
    } else {
      forall x | x in s.peer.extras && x.extra == e && x.firstContainingSeq != 0 ensures Harmless(s, r', n, x) {
        SameWrittenSameHarm(s, r, s, r', n, x);
      }
    }
  }

  lemma {:induction false} RunKeepsGuard(sys: System, who: Name, n: nat, e: Extra, acts: seq<Action>)
    requires Consistent(sys) && Guarded(sys.At(who), sys.At(who.Other()), n, e)
    requires TimelyRun(sys, acts) && OrderedRun(sys, acts)
    ensures var sys' := Run(sys, acts);
            Consistent(sys') && Guarded(sys'.At(who), sys'.At(who.Other()), n, e)
    decreases |acts|
  {
    if acts != [] {
      var front, last := acts[..|acts| - 1], acts[|acts| - 1];
      RunKeepsGuard(sys, who, n, e, front);
      StepKeepsBase(Run(sys, front), last);
      StepKeepsGuard(Run(sys, front), who, n, e, last);
    }
  }

  /** The stamp itself, when it is in time. */
  lemma {:induction false} TimelyStampGuards(s: Side, r: Side, n: nat, t: byte, e: Extra)
    requires Base(s, r) && ExtrasAreCarried(s) && DropsAreDelivered(s, r) && Taken(s, n)
    requires Wrap(n) == 0 || AcceptedCarrying(r, e) || !Overtaken(s, r, n, e)
    ensures Guarded(Transmitted(s, n, t), r, n, e)
  {
    var s', packet := Transmitted(s, n, t), Written(s, n, t);
    if !AcceptedCarrying(r, e) {
      forall x' | x' in s'.peer.extras && x'.extra == e && x'.firstContainingSeq != 0 ensures Harmless(s', r, n, x') {
        var i :| 0 <= i < |s'.peer.extras| && s'.peer.extras[i] == x';
        var x := s.peer.extras[i];
        assert x in s.peer.extras && packet.header.extras[i] == e;
        if x.firstContainingSeq != 0 {
          var k :| StampedAt(s, x, k);
          assert StampedAt(s', x', k);
        } else {
          CarryingHeaderIsNoThreat(s, r, n, e, n, t);
        }
      }
    }
  }

  /** Exactly which stamps break delivery.  After header `n` has stamped `e`, the network can
      make `e` be dropped although the peer never accepted it if and only if the peer has
      accepted nothing that carries `e` yet and either has accepted a number from `n` on that
      is still to be acknowledged, or a written header from `n` on without `e` can still
      become its newest.  (Number 2^32 stamps nothing: its 32-bit value is the mark for
      "not sent".) */
  lemma {:induction false} OutOfOrderStampLosesExtra(sys: System, who: Name, n: nat, t: byte, e: Extra)
    requires Consistent(sys) && ExtrasSafe(sys) && FirstStamp(sys, who, n, e)
    ensures CanBeLost(sys, who, n, t, e) <==> StampedTooLate(sys, who, n, e)
  {
    if StampedTooLate(sys, who, n, e) {
      LateStampLoses(sys, who, n, t, e);
    } else {
      var a := Transmit(who, n, t);
      TimelyStampGuards(sys.At(who), sys.At(who.Other()), n, t, e);
      StepKeepsBase(sys, a);
      forall acts, sys' | Leads(Step(sys, a), acts, sys')
        ensures e in sys'.At(who).acknowledged ==> AcceptedCarrying(sys'.At(who.Other()), e)
      {
        RunKeepsGuard(Step(sys, a), who, n, e, acts);
      }
    }
  }

  lemma SecondNumberFirst() returns (sent: seq<Action>)
    ensures sent == [Generate(Left), Generate(Left), Transmit(Left, 2, 0)]
    ensures TimelyRun(START, sent) && OrderedRun(START, sent)
    ensures var sys := Run(START, sent);
            && sys.right == NEW_SIDE && sys.left.generated == 3 && sys.left.ackN == 0
            && sys.left.peer.extras == []
            && sys.left.written == [Packet(2, 0, HeaderOf(NEW_PEER, 2, 0))]
  {
    sent := [Generate(Left), Generate(Left), Transmit(Left, 2, 0)];
    assert sent == (([] + [sent[0]]) + [sent[1]]) + [sent[2]];
    RunSnoc(START, [], sent[0]);
    RunSnoc(START, [] + [sent[0]], sent[1]);
    RunSnoc(START, [] + [sent[0]] + [sent[1]], sent[2]);
  }

  lemma AcceptTheSecond()
    ensures var w := Packet(2, 0, HeaderOf(NEW_PEER, 2, 0)); var r := Delivered(NEW_SIDE, w, 1.0);
            r.remoteN == 2 && r.accepted == [w] && r.generated == 1 && r.ackN == 0
  {
    assert SeqGt(2, 0);
  }

  /** Both failures are reachable: number 1 is taken and waits for the socket, number 2 is
      sent at once, then an extra is attached; number 2 may have arrived before that or not. */
  lemma OutOfOrderStampIsReachable(e: Extra, arrived: bool)
    ensures var sent := [Generate(Left), Generate(Left), Transmit(Left, 2, 0)];
            var acts := sent + (if arrived then [Deliver(Right, 0, 1.0)] else []) + [Attach(Left, e)];
            var sys := Run(START, acts);
            && TimelyRun(START, acts) && OrderedRun(START, acts)
            && FirstStamp(sys, Left, 1, e) && StampedTooLate(sys, Left, 1, e)
            && sys.right.remoteN == (if arrived then 2 else 0)
  {
    hide Run, TimelyRun, OrderedRun, Delivered;
    var sent := SecondNumberFirst();
    var more := if arrived then [Deliver(Right, 0, 1.0)] else [];
    if arrived {
      RunSnoc(START, sent, Deliver(Right, 0, 1.0));
      AcceptTheSecond();
    } else {
      assert sent + more == sent;
    }
    RunSnoc(START, sent + more, Attach(Left, e));
    var sys := Run(START, sent + more + [Attach(Left, e)]);
    assert !arrived ==> Overtaker(sys.left, sys.right, 1, e, sys.left.written[0]);
  }

  // ------------------------------------------------- more than 2^31 unacknowledged numbers

  /** `acts` is a run from `sys` to `sys'` that stamps in order. */
  ghost predicate OrderedLeads(sys: System, acts: seq<Action>, sys': System) {
    Sound(sys) && Run(sys, acts) == sys' && OrderedRun(sys, acts)
  }

  lemma OrderedLeadsOneMore(sys: System, acts: seq<Action>, mid: System, a: Action)
    requires OrderedLeads(sys, acts, mid) && Sound(mid) && StampsInOrder(mid, a)
    ensures OrderedLeads(sys, acts + [a], Step(mid, a))
  {
    RunSnoc(sys, acts, a);
  }

  /** What sending without any extra pending leaves as it was. */
  ghost predicate OnlySent(l: Side, l': Side, k: nat) {
    && l'.generated == l.generated + k
    && l'.peer.extras == []
    && l'.ackN == l.ackN && l'.remoteN == l.remoteN
    && l'.peer.lastRemoteSeq == l.peer.lastRemoteSeq
    && l'.peer.lastRemoteAckSeq == l.peer.lastRemoteAckSeq
    && (forall w :: w in l'.written ==> w in l.written || w.n < l'.generated)
  }

  lemma SendOne(sys: System)
    requires Sound(sys) && sys.left.peer.extras == []
    ensures var sys1 := Step(sys, Generate(Left));
            var t := Transmit(Left, sys.left.generated, 0);
            && StampsInOrder(sys1, t)
            && Step(sys1, t).right == sys.right
            && OnlySent(sys.left, Step(sys1, t).left, 1)
  {
    var l' := Step(Step(sys, Generate(Left)), Transmit(Left, sys.left.generated, 0)).left;
  }

  /** `k` packets are sent one after another and all are lost. */
  lemma {:induction false} Flood(sys: System, acts: seq<Action>, mid: System, k: nat)
    returns (acts': seq<Action>, sys': System)
    requires OrderedLeads(sys, acts, mid) && Sound(mid)
    requires mid.left.peer.extras == []
    ensures OrderedLeads(sys, acts', sys') && Sound(sys')
    ensures sys'.right == mid.right && OnlySent(mid.left, sys'.left, k)
  {
    if k == 0 {
      acts', sys' := acts, mid;
    } else {
      var acts1, sys1 := Flood(sys, acts, mid, k - 1);
      acts', sys' := SendAfter(sys, acts1, sys1);
    }
  }

  lemma SendAfter(sys: System, acts: seq<Action>, mid: System)
    returns (acts': seq<Action>, sys': System)
    requires OrderedLeads(sys, acts, mid) && Sound(mid)
    requires mid.left.peer.extras == []
    ensures OrderedLeads(sys, acts', sys') && Sound(sys')
    ensures sys'.right == mid.right && OnlySent(mid.left, sys'.left, 1)
  {
    var a, b := Generate(Left), Transmit(Left, mid.left.generated, 0);
    SendOne(mid);
    OrderedLeadsOneMore(sys, acts, mid, a);
    OrderedLeadsOneMore(sys, acts + [a], Step(mid, a), b);
    acts', sys' := acts + [a] + [b], Step(Step(mid, a), b);
  }

  /** The first packet is accepted and acknowledged; the acknowledgement is delayed. */
  lemma Opening() returns (acts: seq<Action>, sys: System)
    ensures OrderedLeads(START, acts, sys) && Sound(sys)
    ensures var l, r := sys.left, sys.right;
            && l.generated == 2 && l.peer.extras == []
            && l.peer.lastRemoteSeq == 0 && l.peer.lastRemoteAckSeq == 0
            && (forall w :: w in l.written ==> w.n == 1)
            && |r.accepted| == 1 && r.accepted[0].header.extras == []
            && |r.written| == 1 && r.written[0].header.pseq == 1 && r.written[0].header.ackId == 1
  {
    var a, b := Generate(Left), Transmit(Left, 1, 0);
    OrderedLeadsOneMore(START, [], START, a);
    OrderedLeadsOneMore(START, [] + [a], Step(START, a), b);
    var sent := Step(Step(START, a), b);
    acts, sys := FirstExchange([] + [a] + [b], sent);
  }

  lemma {:induction false} FirstExchange(acts: seq<Action>, sent: System) returns (acts': seq<Action>, sys: System)
    requires OrderedLeads(START, acts, sent) && Sound(sent)
    requires sent.right == NEW_SIDE
    requires |sent.left.written| == 1
    requires var w := sent.left.written[0]; w.n == 1 && w.header.pseq == 1 && w.header.extras == []
    ensures OrderedLeads(START, acts', sys) && Sound(sys)
    ensures var r := sys.right;
            && sys.left == sent.left
            && |r.accepted| == 1 && r.accepted[0].header.extras == []
            && |r.written| == 1 && r.written[0].header.pseq == 1 && r.written[0].header.ackId == 1
  {
    var a, b, c := Deliver(Right, 0, 1.0), Generate(Right), Transmit(Right, 1, 0);
    assert SeqGt(1, 0);
    OrderedLeadsOneMore(START, acts, sent, a);
    var got := Step(sent, a);
    assert got.right.peer.extras == [];
    OrderedLeadsOneMore(START, acts + [a], got, b);
    OrderedLeadsOneMore(START, acts + [a] + [b], Step(got, b), c);
    acts', sys := acts + [a] + [b] + [c], Step(Step(got, b), c);
  }

  lemma StampOne(sys: System, e: Extra)
    requires Sound(sys) && sys.left.peer.extras == [PendingExtra(e, 0)] && sys.left.generated == HALF + 1
    ensures var sys' := Step(Step(sys, Generate(Left)), Transmit(Left, HALF + 1, 0));
            var l, l' := sys.left, sys'.left;
            && sys'.right == sys.right && l'.peer.extras == [PendingExtra(e, HALF + 1)]
            && l'.peer.lastRemoteSeq == l.peer.lastRemoteSeq
            && l'.peer.lastRemoteAckSeq == l.peer.lastRemoteAckSeq
  {
  }

  /** An extra is attached and stamped 2^31 numbers ahead. */
  lemma {:induction false} StampFarAhead(acts: seq<Action>, sys: System, e: Extra) returns (acts': seq<Action>, sys': System)
    requires OrderedLeads(START, acts, sys) && Sound(sys)
    requires sys.left.generated == HALF + 1 && sys.left.peer.extras == []
    requires forall w :: w in sys.left.written ==> w.n < sys.left.generated
    ensures OrderedLeads(START, acts', sys') && Sound(sys')
    ensures var l, l' := sys.left, sys'.left;
            && sys'.right == sys.right && l'.peer.extras == [PendingExtra(e, HALF + 1)]
            && l'.peer.lastRemoteSeq == l.peer.lastRemoteSeq
            && l'.peer.lastRemoteAckSeq == l.peer.lastRemoteAckSeq
  {
    hide OrderedLeads, Transmitted, Delivered;
    var a, b, c := Attach(Left, e), Generate(Left), Transmit(Left, HALF + 1, 0);
    OrderedLeadsOneMore(START, acts, sys, a);
    OrderedLeadsOneMore(START, acts + [a], Step(sys, a), b);
    OrderedLeadsOneMore(START, acts + [a] + [b], Step(Step(sys, a), b), c);
    StampOne(Step(sys, a), e);
    acts', sys' := acts + [a] + [b] + [c], Step(Step(Step(sys, a), b), c);
  }

  /** Then the old acknowledgement arrives. */
  lemma {:induction false} Closing(acts: seq<Action>, sys: System, e: Extra) returns (acts': seq<Action>, sys': System)
    requires OrderedLeads(START, acts, sys) && Sound(sys)
    requires var l, r := sys.left, sys.right;
            && l.generated == HALF + 1 && l.peer.extras == []
            && l.peer.lastRemoteSeq == 0 && l.peer.lastRemoteAckSeq == 0
            && (forall w :: w in l.written ==> w.n < l.generated)
            && |r.written| == 1 && r.written[0].header.pseq == 1 && r.written[0].header.ackId == 1
    ensures OrderedLeads(START, acts', sys')
    ensures sys'.right == sys.right && e in sys'.left.acknowledged
  {
    var acts1, stamped := StampFarAhead(acts, sys, e);
    var d := Deliver(Left, 0, 1.0);
    OldAckDrops(stamped, e);
    OrderedLeadsOneMore(START, acts1, stamped, d);
    acts', sys' := acts1 + [d], Step(stamped, d);
  }

  lemma OldAckDrops(sys: System, e: Extra)
    requires Sound(sys) && sys.left.peer.extras == [PendingExtra(e, HALF + 1)]
    requires sys.left.peer.lastRemoteSeq == 0 && sys.left.peer.lastRemoteAckSeq == 0
    requires |sys.right.written| == 1
    requires sys.right.written[0].header.pseq == 1 && sys.right.written[0].header.ackId == 1
    ensures var sys' := Step(sys, Deliver(Left, 0, 1.0));
            sys'.right == sys.right && e in sys'.left.acknowledged
  {
    var h, x := sys.right.written[0].header, sys.left.peer.extras[0];
    assert SeqGt(h.pseq, 0) && SeqGt(h.ackId, 0);
    assert Covered(x, h.ackId);
    AcknowledgementSplitsExtras(sys.left.peer.extras, h.ackId);
    assert x.extra in Acknowledged(sys.left.peer.extras, h.ackId);
  }

  /** The timing condition is needed too: a run that stamps in order but lets one peer run
      2^31 numbers ahead drops an extra the other side never saw. */
  lemma TooFarAheadLosesExtra(e: Extra)
    ensures exists acts, sys :: OrderedLeads(START, acts, sys)
              && e in sys.left.acknowledged && !AcceptedCarrying(sys.right, e)
  {
    var acts0, sys0 := Opening();
    var acts1, sys1 := Flood(START, acts0, sys0, HALF - 1);
    var acts2, sys2 := Closing(acts1, sys1, e);
    assert !AcceptedCarrying(sys2.right, e);
  }
}
