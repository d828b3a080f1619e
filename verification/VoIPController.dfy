/** The controller's packet bookkeeping, changed in place as the code changes it. */
module VoIPControllerModel {
  import opened SequenceNumbers
  import opened Bytes
  import opened PacketProtocol

  class VoIPController {
    var outSeq: uint32
    var lastRemoteSeq: uint32
    const recvPacketTimes: array<real>
    var lastRemoteAckSeq: uint32
    var currentExtras: seq<PendingExtra>
    var recentOutgoingPackets: seq<RecentPacket>
    var lastSentSeq: uint32

    ghost predicate Valid()
      reads this, recvPacketTimes
    {
      View().Valid()
    }

    ghost function View(): Peer
      reads this, recvPacketTimes
    {
      Peer(outSeq, lastRemoteSeq, recvPacketTimes[..], lastRemoteAckSeq,
           currentExtras, recentOutgoingPackets, lastSentSeq)
    }

    constructor ()
      ensures Valid() && View() == NEW_PEER && fresh(recvPacketTimes)
    {
      outSeq := 1;
      lastRemoteSeq := 0;
      recvPacketTimes := new real[32](_ => 0.0);
      lastRemoteAckSeq := 0;
      currentExtras := [];
      recentOutgoingPackets := [];
      lastSentSeq := 0;
      new;
      assert recvPacketTimes[..] == Zeros(WINDOW);
    }

    method GenerateOutSeq() returns (s: uint32)
      requires Valid()
      modifies this`outSeq
      ensures Valid() && s == old(outSeq)
      ensures View() == old(View()).(nextSeq := Wrap(s + 1))
    {
      s := outSeq;
      outSeq := (outSeq + 1) % MODULUS;
    }

    /** The mask loop of the header writer. */
    method ComputeAcks() returns (acks: uint32)
      requires Valid()
      ensures acks == AckMask(recvPacketTimes[..])
    {
      ghost var w := recvPacketTimes[..];
      var mask: nat := 0;
      var i := 0;
      while i < 32
        invariant 0 <= i <= 32
        invariant i < 32 ==> mask == 2 * MaskPrefix(w, i)
        invariant i == 32 ==> mask == MaskPrefix(w, 32)
      {
        if recvPacketTimes[i] > 0.0 {
          mask := mask + 1; // the lowest bit is clear here
        }
        assert mask == MaskPrefix(w, i + 1);
        if i < 31 {
          mask := mask * 2;
        }
        i := i + 1;
      }
      Pow2Of32();
      acks := mask;
    }

    /** The loop over the extras: each is written, and stamped if no header carried it yet. */
    method WriteExtras(pseq: uint32) returns (written: seq<Extra>)
      modifies this`currentExtras
      ensures written == Carried(old(currentExtras))
      ensures currentExtras == StampAll(old(currentExtras), pseq)
    {
      written := [];
      ghost var was := currentExtras;
      var j := 0;
      while j < |currentExtras|
        invariant 0 <= j <= |currentExtras| == |was| && |written| == j
        invariant forall k :: 0 <= k < j ==> written[k] == was[k].extra
        invariant forall k :: 0 <= k < j ==> currentExtras[k] == StampAll(was, pseq)[k]
        invariant forall k :: j <= k < |was| ==> currentExtras[k] == was[k]
      {
        written := written + [currentExtras[j].extra];
        if currentExtras[j].firstContainingSeq == 0 {
          currentExtras := currentExtras[j := currentExtras[j].(firstContainingSeq := pseq)];
        }
        j := j + 1;
      }
    }

    method WritePacketHeader(pseq: uint32, packetType: byte) returns (h: Header)
      requires Valid()
      modifies this`currentExtras, this`recentOutgoingPackets, this`lastSentSeq
      ensures Valid()
      ensures h == HeaderOf(old(View()), pseq, packetType)
      ensures View() == AfterWrite(old(View()), pseq)
    {
      var acks := ComputeAcks();
      var written := WriteExtras(pseq);
      h := Header(packetType, lastRemoteSeq, pseq, acks, written);
      RememberSent(pseq);
      lastSentSeq := pseq;
    }

    method RememberSent(pseq: uint32)
      requires Valid()
      modifies this`recentOutgoingPackets
      ensures recentOutgoingPackets ==
              KeepNewest(old(recentOutgoingPackets) + [RecentPacket(pseq, 0.0)], MAX_RECENT_PACKETS)
    {
      recentOutgoingPackets := recentOutgoingPackets + [RecentPacket(pseq, 0.0)];
      ghost var all := recentOutgoingPackets;
      while |recentOutgoingPackets| > MAX_RECENT_PACKETS
        invariant |recentOutgoingPackets| <= |all|
        invariant recentOutgoingPackets == all[|all| - |recentOutgoingPackets|..]
        invariant |all| >= MAX_RECENT_PACKETS ==> |recentOutgoingPackets| >= MAX_RECENT_PACKETS
        invariant |all| <= MAX_RECENT_PACKETS ==> recentOutgoingPackets == all
      {
        recentOutgoingPackets := recentOutgoingPackets[1..];
      }
    }

    method SendExtra(e: Extra)
      requires Valid()
      modifies this`currentExtras
      ensures Valid()
      ensures View() == old(View()).(extras := PacketProtocol.AddExtra(old(currentExtras), e))
    {
      var i := 0;
      while i < |currentExtras|
        invariant 0 <= i <= |currentExtras|
        invariant currentExtras == old(currentExtras)
        invariant forall k :: 0 <= k < i ==> currentExtras[k].extra.kind != e.kind
      {
        if currentExtras[i].extra.kind == e.kind {
          assert FindKind(currentExtras, e.kind) == i;
          currentExtras := currentExtras[i := PendingExtra(e, 0)];
          return;
        }
        i := i + 1;
      }
      assert FindKind(currentExtras, e.kind) == |currentExtras|;
      currentExtras := currentExtras + [PendingExtra(e, 0)];
    }

    /** The window part of receiving a packet. */
    method AcceptSeq(pseq: uint32, now: real) returns (v: Verdict)
      requires Valid()
      modifies this`lastRemoteSeq, recvPacketTimes
      ensures Valid()
      ensures var r := ReceiveSeq(old(lastRemoteSeq), old(recvPacketTimes[..]), pseq, now);
              v == r.verdict && lastRemoteSeq == r.last && recvPacketTimes[..] == r.window
    {
      ghost var w := recvPacketTimes[..];
      if SeqGt(pseq, lastRemoteSeq) {
        var diff := Sub32(pseq, lastRemoteSeq);
        SeqGtMeansAhead(pseq, lastRemoteSeq);
        if diff > 31 {
          forall i | 0 <= i < 32 { recvPacketTimes[i] := 0.0; }
        } else {
          forall i | diff <= i < 32 { recvPacketTimes[i] := recvPacketTimes[i - diff]; }
          if diff > 1 {
            forall i | 0 <= i < diff { recvPacketTimes[i] := 0.0; }
          }
          recvPacketTimes[0] := now;
        }
        assert recvPacketTimes[..] == Slide(w, diff, now);
        lastRemoteSeq := pseq;
        v := Newest;
      } else if Sub32(lastRemoteSeq, pseq) < 32 {
        var i := Sub32(lastRemoteSeq, pseq);
        if recvPacketTimes[i] != 0.0 {
          return Duplicate;
        }
        recvPacketTimes[i] := now;
        v := Older;
      } else {
        v := TooLate;
      }
    }

    /** The two nested loops that turn the peer's mask into acknowledgement times. */
    method MarkRecent(ackId: uint32, acks: uint32, now: real)
      requires Valid() && now > 0.0
      modifies this`recentOutgoingPackets
      ensures recentOutgoingPackets == MarkAll(old(recentOutgoingPackets), ackId, acks, now)
    {
      ghost var was := recentOutgoingPackets;
      var i := 0;
      while i < 31
        invariant 0 <= i <= 31
        invariant |recentOutgoingPackets| == |was|
        invariant forall j :: 0 <= j < |was| ==>
          recentOutgoingPackets[j] ==
          if Sub32(ackId, was[j].seqNo) <= i then Marked(was[j], ackId, acks, now) else was[j]
      {
        var k := 0;
        while k < |recentOutgoingPackets|
          invariant 0 <= k <= |recentOutgoingPackets| == |was|
          invariant forall j :: 0 <= j < |was| ==>
            recentOutgoingPackets[j] ==
            if Sub32(ackId, was[j].seqNo) <= (if j < k then i + 1 else i)
            then Marked(was[j], ackId, acks, now) else was[j]
        {
          var r := recentOutgoingPackets[k];
          if r.ackTime == 0.0 && Bit(acks, 31 - i) && r.seqNo == Sub32(ackId, i + 1) {
            recentOutgoingPackets := recentOutgoingPackets[k := r.(ackTime := now)];
          }
          SameDistance(ackId, was[k].seqNo, i + 1);
          k := k + 1;
        }
        i := i + 1;
      }
      assert forall j :: 0 <= j < |was| ==>
        (Sub32(ackId, was[j].seqNo) > 31 ==> Marked(was[j], ackId, acks, now) == was[j]);
    }

    lemma SameDistance(a: uint32, s: uint32, d: uint32)
      ensures s == Sub32(a, d) <==> Sub32(a, s) == d
    {
    }

    method DropAcknowledgedExtras(ackId: uint32) returns (acknowledged: seq<Extra>)
      requires Valid()
      modifies this`currentExtras
      ensures currentExtras == Uncovered(old(currentExtras), ackId)
      ensures acknowledged == Acknowledged(old(currentExtras), ackId)
    {
      ghost var was := currentExtras;
      ghost var front: seq<PendingExtra>, rest := [], currentExtras;
      acknowledged := [];
      var x := 0;
      while x < |currentExtras|
        invariant currentExtras == front + rest && x == |front|
        invariant front + Uncovered(rest, ackId) == Uncovered(was, ackId)
        invariant acknowledged + Acknowledged(rest, ackId) == Acknowledged(was, ackId)
        decreases |rest|
      {
        if Covered(currentExtras[x], ackId) {
          acknowledged := acknowledged + [currentExtras[x].extra];
          currentExtras := currentExtras[..x] + currentExtras[x + 1..];
        } else {
          front := front + [rest[0]];
          x := x + 1;
        }
        rest := rest[1..];
      }
    }

    method ProcessIncomingHeader(h: Header, now: real) returns (v: Verdict, acknowledged: seq<Extra>)
      requires Valid() && now > 0.0
      modifies this`lastRemoteSeq, this`lastRemoteAckSeq, this`currentExtras, this`recentOutgoingPackets
      modifies recvPacketTimes
      ensures Valid()
      ensures Received(View(), v, acknowledged) == Receive(old(View()), h, now)
    {
      acknowledged := [];
      v := AcceptSeq(h.pseq, now);
      if v == Duplicate || v == TooLate {
        return;
      }
      if SeqGt(h.ackId, lastRemoteAckSeq) {
        lastRemoteAckSeq := h.ackId;
        MarkRecent(h.ackId, h.acks, now);
        acknowledged := DropAcknowledgedExtras(h.ackId);
      }
    }
  }
}
