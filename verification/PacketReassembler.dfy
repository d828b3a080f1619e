/** The receiver of video fragments with its array of parts, and the sender's loop that
    cuts a frame. */
module PacketReassemblerModel {
  import opened SequenceNumbers
  import opened Bytes
  import opened VideoFrames

  class PacketReassembler {
    var currentTimestamp: uint32
    var currentPacketPartCount: nat
    const parts: array<bytes>
    var currentIsKeyframe: bool
    var receivedPartCount: nat
    var delivered: seq<Frame>   // what the callback received

    ghost predicate Valid()
      reads this
    {
      parts.Length == MAX_PARTS
    }

    ghost function View(): (a: Assembly)
      reads this, parts
      ensures Valid() ==> a.Valid()
    {
      Assembly(currentTimestamp, currentPacketPartCount, parts[..], currentIsKeyframe, receivedPartCount)
    }

    /** The first timestamp is whatever was in memory. */
    constructor (leftOver: uint32, leftOverFlag: bool)
      ensures Valid() && fresh(parts) && delivered == []
      ensures View() == Assembly(leftOver, 0, Emptied(View().parts, MAX_PARTS), leftOverFlag, 0)
    {
      currentTimestamp, currentIsKeyframe := leftOver, leftOverFlag;
      currentPacketPartCount, receivedPartCount := 0, 0;
      parts := new bytes[MAX_PARTS](_ => []);
      delivered := [];
    }

    /** Looks for a missing part of the current frame. */
    method AnyAreEmpty() returns (found: bool)
      requires Valid() && currentPacketPartCount <= MAX_PARTS
      ensures found <==> !AllPresent(parts[..], currentPacketPartCount)
    {
      found := false;
      var i := 0;
      while i < currentPacketPartCount
        invariant 0 <= i <= currentPacketPartCount
        invariant forall k :: 0 <= k < i ==> parts[..][k] != []
      {
        if |parts[i]| == 0 {
          assert parts[..][i] == [];
          return true;
        }
        i := i + 1;
      }
    }

    /** Writes the parts out one after another and lets go of them. */
    method TakeParts() returns (out: bytes)
      requires Valid() && currentPacketPartCount <= MAX_PARTS
      modifies parts
      ensures out == Join(old(parts[..currentPacketPartCount]))
      ensures parts[..] == Emptied(old(parts[..]), currentPacketPartCount)
    {
      ghost var was := parts[..];
      out := [];
      var i := 0;
      while i < currentPacketPartCount
        invariant 0 <= i <= currentPacketPartCount
        invariant out == Join(was[..i])
        invariant forall k :: 0 <= k < MAX_PARTS ==> parts[k] == if k < i then [] else was[k]
      {
        assert was[..i + 1][..i] == was[..i];
        out := out + parts[i];
        parts[i] := [];
        i := i + 1;
      }
    }

    method AddFragment(f: Fragment)
      requires Valid()
      modifies this, parts
      ensures Valid()
      ensures var (a, out) := VideoFrames.AddFragment(old(View()), f);
              View() == a && delivered == old(delivered) + (if out.Some? then [out.value] else [])
    {
      hide AllPresent, Join, Emptied;
      assert delivered + [] == delivered;
      if f.pts != currentTimestamp {
        currentTimestamp := f.pts;
        currentPacketPartCount := f.count;
        currentIsKeyframe := f.keyframe;
        receivedPartCount := 0;
      }
      if f.count == 0 || f.count == 1 {
        delivered := delivered + [Frame(f.data, f.pts, f.keyframe)];
        return;
      }
      if f.index < currentPacketPartCount && f.index < parts.Length {
        parts[f.index] := f.data;
      }
      if parts.Length < currentPacketPartCount {
        return;
      }
      receivedPartCount := receivedPartCount + 1;
      var anyAreEmpty := AnyAreEmpty();
      if !anyAreEmpty && receivedPartCount == currentPacketPartCount {
        var out := TakeParts();
        delivered := delivered + [Frame(out, currentTimestamp, currentIsKeyframe)];
        currentPacketPartCount := 0;
        currentTimestamp := 0;
      }
    }
  }

  /** The sender's loop over the segments of a frame. */
  method SendVideoFrame(f: Frame) returns (sent: seq<Fragment>)
    ensures |sent| == SegmentCount(|f.data|)
    ensures forall seg :: 0 <= seg < |sent| ==> sent[seg] == Cut(f, seg)
  {
    var segmentCount := |f.data| / 1024;
    if |f.data| % 1024 > 0 {
      segmentCount := segmentCount + 1;
    }
    sent := [];
    var seg := 0;
    while seg < segmentCount
      invariant 0 <= seg <= segmentCount && |sent| == seg
      invariant forall s :: 0 <= s < seg ==> sent[s] == Cut(f, s)
    {
      SegmentsCover(|f.data|, seg);
      var offset := seg * 1024;
      var len := if |f.data| - offset < 1024 then |f.data| - offset else 1024;
      var index, count := 0, 0;
      if segmentCount > 1 {
        index, count := seg % 256, segmentCount % 256;
      }
      sent := sent + [Fragment(f.data[offset..offset + len], index, count, f.pts, f.keyframe)];
      seg := seg + 1;
    }
  }
}
