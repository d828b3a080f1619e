/** Video frames cut into segments by the sender and put together by the receiver, which
    counts arrivals and never clears the parts of a frame it gave up. */
module VideoFrames {
  import opened SequenceNumbers
  import opened Bytes
  import opened Options
  import opened Sets

  const SEGMENT: nat := 1024
  const MAX_PARTS: nat := 255

  datatype Frame = Frame(data: bytes, pts: uint32, keyframe: bool)

  /** What one packet carries; an unfragmented one leaves index and count at 0. */
  datatype Fragment = Fragment(data: bytes, index: nat, count: nat, pts: uint32, keyframe: bool)

  // ------------------------------------------------------------------------- cutting

  function SegmentCount(length: nat): nat {
    length / SEGMENT + (if length % SEGMENT > 0 then 1 else 0)
  }

  function SegmentEnd(length: nat, seg: nat): (e: nat)
    requires seg * SEGMENT <= length
    ensures seg * SEGMENT <= e <= length
  {
    if length - seg * SEGMENT > SEGMENT then (seg + 1) * SEGMENT else length
  }

  lemma SegmentsCover(length: nat, seg: nat)
    requires seg < SegmentCount(length)
    ensures seg * SEGMENT < length
    ensures SegmentEnd(length, seg) == if seg + 1 == SegmentCount(length) then length else (seg + 1) * SEGMENT
    ensures seg * SEGMENT < SegmentEnd(length, seg)
  {
  }

  function SegmentData(data: bytes, seg: nat): bytes
    requires seg < SegmentCount(|data|)
  {
    SegmentsCover(|data|, seg);
    data[seg * SEGMENT..SegmentEnd(|data|, seg)]
  }

  /** The packet of a segment; index and count travel in one byte each. */
  function Cut(f: Frame, seg: nat): Fragment
    requires seg < SegmentCount(|f.data|)
  {
    var n := SegmentCount(|f.data|);
    Fragment(SegmentData(f.data, seg), if n > 1 then seg % 256 else 0, if n > 1 then n % 256 else 0, f.pts, f.keyframe)
  }

  // ------------------------------------------------------------------ putting together

  datatype Assembly = Assembly(
    currentTimestamp: uint32,
    partCount: nat,
    parts: seq<bytes>,
    isKeyframe: bool,
    received: nat)
  {
    predicate Valid() { |parts| == MAX_PARTS }
  }

  function Join(parts: seq<bytes>): bytes {
    if parts == [] then [] else Join(parts[..|parts| - 1]) + parts[|parts| - 1]
  }

  function Restarted(a: Assembly, f: Fragment): Assembly {
    if f.pts != a.currentTimestamp
    then a.(currentTimestamp := f.pts, partCount := f.count, isKeyframe := f.keyframe, received := 0)
    else a
  }

  function Emptied(parts: seq<bytes>, n: nat): (r: seq<bytes>)
    ensures |r| == |parts|
  {
    seq(|parts|, i requires 0 <= i < |parts| => if i < n then [] else parts[i])
  }

  predicate AllPresent(parts: seq<bytes>, n: nat)
    requires n <= |parts|
  {
    forall i :: 0 <= i < n ==> parts[i] != []
  }

  function AddFragment(a: Assembly, f: Fragment): (r: (Assembly, Option<Frame>))
    requires a.Valid()
    ensures r.0.Valid()
  {
    var s := Restarted(a, f);
    if f.count <= 1 then (s, Some(Frame(f.data, f.pts, f.keyframe)))
    else
      var parts := if f.index < s.partCount && f.index < MAX_PARTS then s.parts[f.index := f.data] else s.parts;
      if s.partCount > MAX_PARTS then (s.(parts := parts), None)
      else
        var got := s.(parts := parts, received := s.received + 1);
        if AllPresent(parts, got.partCount) && got.received == got.partCount
        then (got.(parts := Emptied(parts, got.partCount), partCount := 0, currentTimestamp := 0),
              Some(Frame(Join(parts[..got.partCount]), got.currentTimestamp, got.isKeyframe)))
        else (got, None)
  }

  // --------------------------------------------------------------- one frame, any order

  /** Every entry names a segment of the frame. */
  predicate Segments(f: Frame, order: seq<nat>) {
    forall i :: 0 <= i < |order| ==> order[i] < SegmentCount(|f.data|)
  }

  /** The packets of these segments, in this order. */
  function Arrive(a: Assembly, f: Frame, order: seq<nat>): (r: (Assembly, seq<Frame>))
    requires a.Valid() && Segments(f, order)
    ensures r.0.Valid()
    decreases |order|
  {
    if order == [] then (a, [])
    else
      var (before, out) := Arrive(a, f, order[..|order| - 1]);
      var (after, done) := AddFragment(before, Cut(f, order[|order| - 1]));
      (after, out + (if done.Some? then [done.value] else []))
  }

  predicate Distinct(order: seq<nat>) {
    forall i, j :: 0 <= i < j < |order| ==> order[i] != order[j]
  }

  lemma {:induction false} JoinUpTo(data: bytes, parts: seq<bytes>, k: nat)
    requires k <= |parts| && |parts| == SegmentCount(|data|)
    requires forall i :: 0 <= i < k ==> parts[i] == SegmentData(data, i)
    ensures Join(parts[..k]) == if k == SegmentCount(|data|) then data else data[..k * SEGMENT]
  {
    if k == 0 {
      assert SegmentCount(|data|) == 0 ==> |data| == 0;
    } else {
      JoinUpTo(data, parts, k - 1);
      assert parts[..k][..k - 1] == parts[..k - 1];
      SegmentsCover(|data|, k - 1);
      assert data[..(k - 1) * SEGMENT] + SegmentData(data, k - 1) == data[..SegmentEnd(|data|, k - 1)];
      assert data[..|data|] == data;
    }
  }

  function Named(order: seq<nat>): set<nat> {
    set x | x in order
  }

  lemma {:induction false} DistinctCount(order: seq<nat>)
    requires Distinct(order)
    ensures |Named(order)| == |order|
  {
    if order != [] {
      var front, last := order[..|order| - 1], order[|order| - 1];
      DistinctCount(front);
      assert Named(order) == Named(front) + {last} && last !in front;
    }
  }

  /** Distinct indices are at most as many as there are segments, and name all of them if
      they are as many. */
  lemma NamesAll(f: Frame, order: seq<nat>)
    requires Distinct(order) && Segments(f, order)
    ensures |order| <= SegmentCount(|f.data|)
    ensures |order| == SegmentCount(|f.data|) ==> forall k :: 0 <= k < |order| ==> k in order
  {
    var n := SegmentCount(|f.data|);
    DistinctCount(order);
    BelowIs(n);
    SubsetSize(Named(order), Below(n));
    if |order| == n {
      forall k | 0 <= k < n ensures k in order { assert k in Named(order); }
    }
  }

  predicate Fits(f: Frame) {
    1 < SegmentCount(|f.data|) <= MAX_PARTS
  }

  lemma NotEmpty(data: bytes, seg: nat)
    requires seg < SegmentCount(|data|)
    ensures SegmentData(data, seg) != []
  {
    SegmentsCover(|data|, seg);
  }

  /** The parts once these segments of `f` lie over what was there. */
  function Laid(parts: seq<bytes>, f: Frame, order: seq<nat>): (r: seq<bytes>)
    requires Segments(f, order)
    ensures |r| == |parts|
  {
    seq(|parts|, i requires 0 <= i < |parts| => if i in order then SegmentData(f.data, i) else parts[i])
  }

  /** No part is empty then: a segment never is, and the others hold something left over. */
  predicate Present(parts: seq<bytes>, order: seq<nat>, n: nat)
    requires n <= |parts|
  {
    forall i :: 0 <= i < n ==> i in order || parts[i] != []
  }

  lemma PresentMeansNoneEmpty(parts: seq<bytes>, f: Frame, order: seq<nat>, n: nat)
    requires n <= |parts| && Segments(f, order)
    ensures AllPresent(Laid(parts, f, order), n) <==> Present(parts, order, n)
  {
    hide SegmentData, SegmentCount;
    var r := Laid(parts, f, order);
    forall i | 0 <= i < n ensures r[i] != [] <==> i in order || parts[i] != [] {
      if i in order {
        NotEmpty(f.data, i);
      }
    }
  }

  /** What the first arrivals of a fragmented frame come to, at most as many as it has
      segments: they are laid over what earlier frames left, and when their number is right
      and no part is empty, the parts are joined, whatever they are. */
  function FirstPass(a: Assembly, f: Frame, order: seq<nat>): (r: (Assembly, seq<Frame>))
    requires a.Valid() && Fits(f) && Segments(f, order) && 0 < |order| <= SegmentCount(|f.data|)
    ensures r.0.Valid()
  {
    var n, parts := SegmentCount(|f.data|), Laid(a.parts, f, order);
    if |order| == n && Present(a.parts, order, n)
    then (Assembly(0, 0, Emptied(parts, n), f.keyframe, n), [Frame(Join(parts[..n]), f.pts, f.keyframe)])
    else (Assembly(f.pts, n, parts, f.keyframe, |order|), [])
  }

  lemma LaidOne(parts: seq<bytes>, f: Frame, front: seq<nat>, k: nat)
    requires Segments(f, front) && k < SegmentCount(|f.data|) && k < |parts|
    ensures Segments(f, front + [k])
    ensures Laid(parts, f, front)[k := SegmentData(f.data, k)] == Laid(parts, f, front + [k])
  {
    hide SegmentData, SegmentCount;
    forall i: nat ensures i in front + [k] <==> i in front || i == k {
    }
  }

  lemma {:induction false} OneMore(a: Assembly, f: Frame, front: seq<nat>, k: nat)
    requires Fits(f) && a.Valid() && a.currentTimestamp != f.pts
    requires Segments(f, front) && |front| < SegmentCount(|f.data|) && k < SegmentCount(|f.data|)
    requires Segments(f, front + [k])
    ensures var b := if front == [] then a else FirstPass(a, f, front).0;
            var (r, done) := AddFragment(b, Cut(f, k));
            FirstPass(a, f, front + [k]) == (r, if done.Some? then [done.value] else [])
  {
    hide SegmentCount, SegmentData, Join, Emptied, Present, AllPresent, Laid;
    var b := if front == [] then a else FirstPass(a, f, front).0;
    LaidOne(a.parts, f, front, k);
    PresentMeansNoneEmpty(a.parts, f, front + [k], SegmentCount(|f.data|));
    if front == [] {
      LaidNone(a.parts, f);
    }
  }

  lemma LaidNone(parts: seq<bytes>, f: Frame)
    ensures Laid(parts, f, []) == parts
  {
    assert forall i :: 0 <= i < |parts| ==> Laid(parts, f, [])[i] == parts[i];
  }

  lemma {:induction false} FirstArrivals(a: Assembly, f: Frame, order: seq<nat>)
    requires Fits(f) && a.Valid() && a.currentTimestamp != f.pts
    requires Segments(f, order) && 0 < |order| <= SegmentCount(|f.data|)
    ensures Arrive(a, f, order) == FirstPass(a, f, order)
    decreases |order|
  {
    hide AddFragment, Cut, SegmentCount, Join, Laid, Present;
    var front, last := order[..|order| - 1], order[|order| - 1];
    if front == [] {
      NoneArrive(a, f);
    } else {
      FirstArrivals(a, f, front);
    }
    assert front + [last] == order;
    OneMore(a, f, front, last);
    var done := AddFragment(Arrive(a, f, front).0, Cut(f, last)).1;
    var more := if done.Some? then [done.value] else [];
    assert Arrive(a, f, front).1 == [] && [] + more == more;
  }

  lemma NoneArrive(a: Assembly, f: Frame)
    requires a.Valid()
    ensures Arrive(a, f, []) == (a, [])
  {
  }

  /** With every segment named, whatever was left over is covered. */
  lemma LaidCompletely(parts: seq<bytes>, f: Frame, order: seq<nat>)
    requires Fits(f) && |parts| == MAX_PARTS && Segments(f, order)
    requires forall k :: 0 <= k < SegmentCount(|f.data|) ==> k in order
    ensures Present(parts, order, SegmentCount(|f.data|))
    ensures Join(Laid(parts, f, order)[..SegmentCount(|f.data|)]) == f.data
  {
    var n := SegmentCount(|f.data|);
    var r := Laid(parts, f, order)[..n];
    JoinUpTo(f.data, r, n);
    assert r[..n] == r;
  }

  lemma OneArrives(a: Assembly, f: Frame, k: nat)
    requires a.Valid() && k < SegmentCount(|f.data|)
    ensures var (r, out) := AddFragment(a, Cut(f, k));
            Arrive(a, f, [k]) == (r, if out.Some? then [out.value] else [])
  {
    hide AddFragment, Cut;
    assert [k][..0] == [];
    assert Arrive(a, f, []) == (a, []);
    assert [] + (if AddFragment(a, Cut(f, k)).1.Some? then [AddFragment(a, Cut(f, k)).1.value] else []) ==
           if AddFragment(a, Cut(f, k)).1.Some? then [AddFragment(a, Cut(f, k)).1.value] else [];
  }

  lemma OnlySegment(a: Assembly, f: Frame)
    requires SegmentCount(|f.data|) == 1 && a.Valid()
    ensures Arrive(a, f, [0]) == (Restarted(a, Cut(f, 0)), [f])
  {
    SegmentsCover(|f.data|, 0);
    assert Cut(f, 0) == Fragment(f.data, 0, 0, f.pts, f.keyframe);
    OneArrives(a, f, 0);
  }

  /** The segments of a frame, each at most once and in any order, give that frame exactly
      once when all of them arrive, and nothing otherwise: whatever was there before. */
  lemma {:induction false} FrameArrives(a: Assembly, f: Frame, order: seq<nat>)
    requires a.Valid() && a.currentTimestamp != f.pts && Distinct(order) && Segments(f, order)
    requires 0 < SegmentCount(|f.data|) <= MAX_PARTS
    ensures var (r, out) := Arrive(a, f, order);
            && out == (if |order| == SegmentCount(|f.data|) then [f] else [])
            && (order == [] ==> r == a)
            && (order != [] ==> r.currentTimestamp == f.pts || (r.currentTimestamp == 0 && |order| == SegmentCount(|f.data|)))
  {
    hide Arrive;
    NamesAll(f, order);
    if order == [] {
      NoneArrive(a, f);
    } else if SegmentCount(|f.data|) == 1 {
      assert order == [0];
      OnlySegment(a, f);
    } else {
      FirstArrivals(a, f, order);
      if |order| == SegmentCount(|f.data|) {
        LaidCompletely(a.parts, f, order);
      }
    }
  }

  // ---------------------------------------------------------------------- many frames

  /** A frame and the segments of it that arrive, in order. */
  datatype Arrival = Arrival(frame: Frame, order: seq<nat>)

  predicate Proper(x: Arrival) {
    && 0 < SegmentCount(|x.frame.data|) <= MAX_PARTS
    && x.order != [] && Distinct(x.order) && Segments(x.frame, x.order)
  }

  predicate Complete(x: Arrival) {
    |x.order| == SegmentCount(|x.frame.data|)
  }

  function ArriveAll(a: Assembly, xs: seq<Arrival>): (r: (Assembly, seq<Frame>))
    requires a.Valid() && forall x :: x in xs ==> Proper(x)
    ensures r.0.Valid()
    decreases |xs|
  {
    if xs == [] then (a, [])
    else
      assert Proper(xs[0]);
      var (next, first) := Arrive(a, xs[0].frame, xs[0].order);
      var (last, rest) := ArriveAll(next, xs[1..]);
      (last, first + rest)
  }

  function CompleteFrames(xs: seq<Arrival>): seq<Frame> {
    if xs == [] then []
    else (if Complete(xs[0]) then [xs[0].frame] else []) + CompleteFrames(xs[1..])
  }

  /** Frame numbers are not 0 and neighbours differ. */
  predicate WellNumbered(xs: seq<Arrival>) {
    && (forall i :: 0 <= i < |xs| ==> xs[i].frame.pts != 0)
    && (forall i :: 0 < i < |xs| ==> xs[i - 1].frame.pts != xs[i].frame.pts)
  }

  /** Over a whole stream, the callback gets exactly the frames that arrived completely,
      in order and as they were sent, between any frames that were given up. */
  lemma {:induction false} StreamArrives(a: Assembly, xs: seq<Arrival>)
    requires a.Valid() && (forall x :: x in xs ==> Proper(x)) && WellNumbered(xs)
    requires xs != [] ==> a.currentTimestamp != xs[0].frame.pts
    ensures ArriveAll(a, xs).1 == CompleteFrames(xs)
    decreases |xs|
  {
    if xs != [] {
      assert xs[0] in xs;
      FrameArrives(a, xs[0].frame, xs[0].order);
      assert forall i :: 0 <= i < |xs[1..]| ==> xs[1..][i] == xs[i + 1];
      StreamArrives(Arrive(a, xs[0].frame, xs[0].order).0, xs[1..]);
    }
  }

  // ---------------------------------------------------------------- repeated segments

  lemma {:induction false} ArriveInTwo(a: Assembly, f: Frame, x: seq<nat>, y: seq<nat>)
    requires a.Valid() && Segments(f, x + y)
    ensures Segments(f, x) && Segments(f, y)
    ensures var (mid, first) := Arrive(a, f, x);
            var (r, rest) := Arrive(mid, f, y);
            Arrive(a, f, x + y) == (r, first + rest)
    decreases |y|
  {
    hide AddFragment, Cut, SegmentCount;
    assert forall i :: 0 <= i < |x| ==> x[i] == (x + y)[i];
    assert forall i :: 0 <= i < |y| ==> y[i] == (x + y)[|x| + i];
    if y == [] {
      assert x + y == x;
      NoneArrive(Arrive(a, f, x).0, f);
      assert Arrive(a, f, x).1 + [] == Arrive(a, f, x).1;
    } else {
      var front, last := y[..|y| - 1], y[|y| - 1];
      assert (x + y)[..|x + y| - 1] == x + front && (x + y)[|x + y| - 1] == last;
      ArriveInTwo(a, f, x, front);
      var done := AddFragment(Arrive(a, f, x + front).0, Cut(f, last)).1;
      var more := if done.Some? then [done.value] else [];
      assert Arrive(a, f, x).1 + (Arrive(Arrive(a, f, x).0, f, front).1 + more) ==
             (Arrive(a, f, x).1 + Arrive(Arrive(a, f, x).0, f, front).1) + more;
    }
  }

  /** Once as many packets have been counted as the frame has segments, and the frame has
      not been given out, nothing more comes under its number. */
  lemma {:induction false} NothingComes(a: Assembly, f: Frame, order: seq<nat>)
    requires a.Valid() && Fits(f) && Segments(f, order)
    requires a.currentTimestamp == f.pts && a.received >= a.partCount
    ensures Arrive(a, f, order).1 == []
    ensures var r := Arrive(a, f, order).0;
            r.currentTimestamp == f.pts && r.received >= r.partCount
    decreases |order|
  {
    hide SegmentCount, SegmentData;
    if order != [] {
      NothingComes(a, f, order[..|order| - 1]);
    }
  }

  /** How often a frame is given out when nothing is left over from earlier ones: once for
      each successive run of distinct segments, until a run with a repeated one.  Number 0
      gives a fragmented frame once only. */
  function Copies(f: Frame, order: seq<nat>): nat
    requires 0 < SegmentCount(|f.data|)
    decreases |order|
  {
    var n := SegmentCount(|f.data|);
    if |order| < n || !Distinct(order[..n]) then 0
    else if f.pts == 0 && n > 1 then 1
    else 1 + Copies(f, order[n..])
  }

  function Repeated(f: Frame, k: nat): (r: seq<Frame>)
    ensures |r| == k
  {
    seq(k, _ => f)
  }

  /** No part of the first `n` holds anything: so it is at the start and after every
      complete frame of as many segments. */
  predicate Clean(a: Assembly, n: nat)
    requires n <= |a.parts|
  {
    forall i :: 0 <= i < n ==> a.parts[i] == []
  }

  /** As many indices as there are segments name all of them only if they are distinct. */
  lemma {:induction false} NamingAllIsDistinct(order: seq<nat>)
    requires forall k :: 0 <= k < |order| ==> k in order
    ensures Distinct(order)
  {
    forall i, j | 0 <= i < j < |order| ensures order[i] != order[j] {
      if order[i] == order[j] {
        var rest := order[..j] + order[j + 1..];
        forall k | 0 <= k < |order| ensures k in Named(rest) {
          assert k in order;
          var m :| 0 <= m < |order| && order[m] == k;
          if m == j { assert rest[i] == k; } else if m < j { assert rest[m] == k; } else { assert rest[m - 1] == k; }
        }
        BelowIs(|order|);
        SubsetSize(Below(|order|), Named(rest));
        NamedIsSmall(rest);
        assert false;
      }
    }
  }

  lemma {:induction false} NamedIsSmall(order: seq<nat>)
    ensures |Named(order)| <= |order|
  {
    if order != [] {
      var front, last := order[..|order| - 1], order[|order| - 1];
      NamedIsSmall(front);
      assert Named(order) == Named(front) + {last};
    }
  }

  /** Exactly when the first arrivals give the frame, if nothing is left over: as many as it
      has segments, they must be distinct. */
  lemma {:induction false} FirstPassGivesFrame(a: Assembly, f: Frame, order: seq<nat>)
    requires Fits(f) && a.Valid() && a.currentTimestamp != f.pts && Clean(a, SegmentCount(|f.data|))
    requires Segments(f, order) && |order| == SegmentCount(|f.data|)
    ensures Arrive(a, f, order).1 == (if Distinct(order) then [f] else [])
    ensures var r := Arrive(a, f, order).0;
            if Distinct(order) then r.currentTimestamp == 0 && r.partCount == 0 && r.received == |order| && Clean(r, |order|)
            else r.currentTimestamp == f.pts && r.received == r.partCount
  {
    hide Arrive, SegmentCount, Join;
    FirstArrivals(a, f, order);
    if Distinct(order) {
      NamesAll(f, order);
      LaidCompletely(a.parts, f, order);
    } else if Present(a.parts, order, |order|) {
      NamingAllIsDistinct(order);
    }
  }

  /** Any arrivals of the segments of a frame, repeated or not, when nothing is left over. */
  lemma {:induction false} RepeatsGiveCopies(a: Assembly, f: Frame, order: seq<nat>)
    requires 0 < SegmentCount(|f.data|) <= MAX_PARTS && a.Valid() && a.currentTimestamp != f.pts
    requires Clean(a, SegmentCount(|f.data|)) && Segments(f, order)
    ensures Arrive(a, f, order).1 == Repeated(f, Copies(f, order))
    decreases |order|
  {
    hide SegmentCount, Arrive, Clean;
    var n := SegmentCount(|f.data|);
    if n == 1 {
      SingleSegments(a, f, order);
    } else if |order| < n {
      if order == [] { NoneArrive(a, f); } else { FirstArrivals(a, f, order); }
    } else {
      var x, y := order[..n], order[n..];
      assert x + y == order;
      ArriveInTwo(a, f, x, y);
      FirstPassGivesFrame(a, f, x);
      AfterFirstPass(Arrive(a, f, x).0, f, x, y);
    }
  }

  lemma {:induction false} AfterFirstPass(b: Assembly, f: Frame, x: seq<nat>, y: seq<nat>)
    requires Fits(f) && b.Valid() && Segments(f, x) && Segments(f, y) && |x| == SegmentCount(|f.data|)
    requires if Distinct(x) then b.currentTimestamp == 0 && b.partCount == 0 && Clean(b, |x|)
             else b.currentTimestamp == f.pts && b.received >= b.partCount
    ensures (if Distinct(x) then [f] else []) + Arrive(b, f, y).1 == Repeated(f, Copies(f, x + y))
    decreases |x + y|, 0
  {
    hide SegmentCount, Arrive, Clean;
    assert (x + y)[..|x|] == x && (x + y)[|x|..] == y;
    if Distinct(x) && f.pts != 0 {
      RepeatsGiveCopies(b, f, y);
    } else {
      NothingComes(b, f, y);
    }
  }

  /** An unfragmented frame is given out as often as it comes. */
  lemma {:induction false} SingleSegments(a: Assembly, f: Frame, order: seq<nat>)
    requires a.Valid() && SegmentCount(|f.data|) == 1 && Segments(f, order)
    ensures Arrive(a, f, order).1 == Repeated(f, |order|) && Copies(f, order) == |order|
    decreases |order|
  {
    if order != [] {
      var front, last := order[..|order| - 1], order[|order| - 1];
      SingleSegments(a, f, front);
      SegmentsCover(|f.data|, 0);
      assert last == 0 && Cut(f, 0) == Fragment(f.data, 0, 0, f.pts, f.keyframe);
      AllSingleCopies(f, order);
    }
  }

  lemma {:induction false} AllSingleCopies(f: Frame, order: seq<nat>)
    requires SegmentCount(|f.data|) == 1
    ensures Copies(f, order) == |order|
    decreases |order|
  {
    if order != [] {
      AllSingleCopies(f, order[1..]);
    }
  }

  /** Any arrivals at all of the segments of a fragmented frame, whatever earlier frames
      left: nothing before the first `n` of them; then exactly if each part has arrived or
      holds something left over, one frame of new and old parts joined; after it only true
      copies, and without it nothing ever. */
  lemma {:induction false} RepeatsOverLeftovers(a: Assembly, f: Frame, order: seq<nat>)
    requires Fits(f) && a.Valid() && a.currentTimestamp != f.pts && Segments(f, order)
    ensures var n, out := SegmentCount(|f.data|), Arrive(a, f, order).1;
            if |order| < n || !Present(a.parts, order[..n], n) then out == []
            else
              && Segments(f, order[..n])
              && var mixed := Frame(Join(Laid(a.parts, f, order[..n])[..n]), f.pts, f.keyframe);
                 out == [mixed] + Repeated(f, if f.pts == 0 then 0 else Copies(f, order[n..]))
  {
    hide SegmentCount, Arrive, Join, Laid, Present, Copies;
    var n := SegmentCount(|f.data|);
    if |order| < n {
      if order == [] { NoneArrive(a, f); } else { FirstArrivals(a, f, order); }
    } else {
      var x, y := order[..n], order[n..];
      assert x + y == order;
      ArriveInTwo(a, f, x, y);
      FirstArrivals(a, f, x);
      var b := Arrive(a, f, x).0;
      if Present(a.parts, x, n) && f.pts != 0 {
        RepeatsGiveCopies(b, f, y);
      } else {
        NothingComes(b, f, y);
      }
    }
  }

  /** One segment that arrives twice completes a frame with a part of an older one. */
  lemma {:induction false} DuplicateMixesFrames(a: Assembly, older: Frame, f: Frame)
    requires a.Valid() && SegmentCount(|older.data|) == SegmentCount(|f.data|) == 2
    requires a.currentTimestamp != older.pts && older.pts != f.pts
    ensures var (r, none) := Arrive(a, older, [1]);
            none == [] &&
            Arrive(r, f, [0, 0]).1 == [Frame(SegmentData(f.data, 0) + SegmentData(older.data, 1), f.pts, f.keyframe)]
  {
    hide SegmentCount, SegmentData, Join, Emptied, Arrive;
    NotEmpty(older.data, 1);
    FirstArrivals(a, older, [1]);
    var r := Arrive(a, older, [1]).0;
    FirstArrivals(r, f, [0, 0]);
    var first, second := SegmentData(f.data, 0), SegmentData(older.data, 1);
    assert Laid(r.parts, f, [0, 0])[..2] == [first, second];
    JoinTwo(first, second);
  }

  lemma JoinTwo(x: bytes, y: bytes)
    ensures Join([x, y]) == x + y
  {
    assert [x, y][..1] == [x] && [x][..0] == [];
    assert Join([x]) == Join([]) + x;
  }

  // --------------------------------------------------------------------- number zero

  /** After a complete fragmented frame the receiver takes number 0 for the frame it has
      just finished: a fragmented frame arrives then exactly if its number is not 0. */
  lemma {:induction false} NumberZeroIsLost(a: Assembly, f: Frame, order: seq<nat>)
    requires a.Valid() && a.currentTimestamp == 0 && a.partCount == 0
    requires Fits(f) && Distinct(order) && |order| == SegmentCount(|f.data|)
    requires Segments(f, order)
    ensures Arrive(a, f, order).1 == [f] <==> f.pts != 0
  {
    if f.pts != 0 {
      FrameArrives(a, f, order);
    } else {
      NothingComes(a, f, order);
    }
  }

  // ------------------------------------------------------------ more than 255 segments

  /** No part is longer than a segment: so it is as long as only such packets arrive. */
  predicate SmallParts(a: Assembly) {
    forall i :: 0 <= i < |a.parts| ==> |a.parts[i]| <= SEGMENT
  }

  lemma {:induction false} JoinIsBounded(parts: seq<bytes>)
    requires forall i :: 0 <= i < |parts| ==> |parts[i]| <= SEGMENT
    ensures |Join(parts)| <= SEGMENT * |parts|
  {
    if parts != [] {
      JoinIsBounded(parts[..|parts| - 1]);
    }
  }

  lemma SegmentIsSmall(data: bytes, seg: nat)
    requires seg < SegmentCount(|data|)
    ensures |SegmentData(data, seg)| <= SEGMENT
  {
    SegmentsCover(|data|, seg);
  }

  lemma {:induction false} FragmentGivesSmall(a: Assembly, x: Fragment)
    requires a.Valid() && SmallParts(a) && |x.data| <= SEGMENT
    ensures SmallParts(AddFragment(a, x).0)
    ensures AddFragment(a, x).1.Some? ==> |AddFragment(a, x).1.value.data| <= SEGMENT * MAX_PARTS
  {
    hide Join;
    var s := Restarted(a, x);
    var parts := if x.index < s.partCount && x.index < MAX_PARTS then s.parts[x.index := x.data] else s.parts;
    if s.partCount <= MAX_PARTS {
      JoinIsBounded(parts[..s.partCount]);
    }
  }

  /** Whatever arrives, in any order and any number, no frame of more than 255 * 1024 bytes
      is given out. */
  lemma {:induction false} OnlySmallFramesCome(a: Assembly, f: Frame, order: seq<nat>)
    requires a.Valid() && SmallParts(a) && Segments(f, order)
    ensures SmallParts(Arrive(a, f, order).0)
    ensures forall g :: g in Arrive(a, f, order).1 ==> |g.data| <= SEGMENT * MAX_PARTS
    decreases |order|
  {
    hide AddFragment, SegmentCount, SegmentData, SmallParts;
    if order != [] {
      var front, last := order[..|order| - 1], order[|order| - 1];
      OnlySmallFramesCome(a, f, front);
      SegmentIsSmall(f.data, last);
      FragmentGivesSmall(Arrive(a, f, front).0, Cut(f, last));
    }
  }

  /** A frame comes exactly if its number of segments fits in its byte: all of them, once
      each and in any order, give the frame if there are at most 255, and if there are more,
      nothing that arrives ever gives it. */
  lemma {:induction false} FramesUpTo255Arrive(a: Assembly, f: Frame, order: seq<nat>)
    requires a.Valid() && SmallParts(a) && a.currentTimestamp != f.pts
    requires Distinct(order) && Segments(f, order) && |order| == SegmentCount(|f.data|) > 0
    ensures f in Arrive(a, f, order).1 <==> SegmentCount(|f.data|) <= MAX_PARTS
  {
    hide Arrive, SmallParts;
    if SegmentCount(|f.data|) <= MAX_PARTS {
      FrameArrives(a, f, order);
    } else {
      OnlySmallFramesCome(a, f, order);
      assert |f.data| > SEGMENT * MAX_PARTS;
    }
  }

  /** The numbers below `n` in order, as the sender sends them. */
  function UpTo(n: nat): (r: seq<nat>)
    ensures |r| == n && forall i :: 0 <= i < n ==> r[i] == i
  {
    seq(n, i => i)
  }

  /** The beginning of a frame that is too long, as far as the byte for the count reaches. */
  function Beginning(f: Frame): Frame {
    var c := SegmentCount(|f.data|) % 256;
    if c * SEGMENT <= |f.data| then Frame(f.data[..c * SEGMENT], f.pts, f.keyframe) else f
  }

  lemma BeginningCount(f: Frame)
    requires SegmentCount(|f.data|) > MAX_PARTS
    ensures SegmentCount(|Beginning(f).data|) == SegmentCount(|f.data|) % 256
    ensures |Beginning(f).data| == SegmentCount(|f.data|) % 256 * SEGMENT < |f.data|
  {
  }

  lemma TakeThenSlice(data: bytes, m: nat, x: nat, y: nat)
    requires x <= y <= m <= |data|
    ensures data[..m][x..y] == data[x..y]
  {
  }

  lemma BeginningIsCutAlike(f: Frame, k: nat)
    requires SegmentCount(|f.data|) > MAX_PARTS && SegmentCount(|f.data|) % 256 > 1
    requires k < SegmentCount(|f.data|) % 256
    ensures k < SegmentCount(|Beginning(f).data|) && Cut(Beginning(f), k) == Cut(f, k)
  {
    BeginningCount(f);
    SegmentsCover(|f.data|, k);
    SegmentsCover(|Beginning(f).data|, k);
    var c, g := SegmentCount(|f.data|) % 256, Beginning(f);
    assert SegmentEnd(|f.data|, k) == SegmentEnd(|g.data|, k) == (k + 1) * SEGMENT <= c * SEGMENT;
    TakeThenSlice(f.data, c * SEGMENT, k * SEGMENT, (k + 1) * SEGMENT);
  }

  lemma {:induction false} ArriveAlike(a: Assembly, f: Frame, g: Frame, order: seq<nat>)
    requires a.Valid() && Segments(f, order) && Segments(g, order)
    requires forall k :: k in order ==> k < SegmentCount(|f.data|) && k < SegmentCount(|g.data|) && Cut(f, k) == Cut(g, k)
    ensures Arrive(a, f, order) == Arrive(a, g, order)
    decreases |order|
  {
    hide AddFragment, Cut, SegmentCount;
    if order != [] {
      var front, last := order[..|order| - 1], order[|order| - 1];
      assert last in order && forall k :: k in front ==> k in order;
      ArriveAlike(a, f, g, front);
    }
  }

  /** What comes of a frame of more than 255 segments when its count byte is 2 or more: sent in
      order, its beginning is given out as if it were the frame. */
  lemma {:induction false} TooLongIsCut(a: Assembly, f: Frame)
    requires a.Valid() && a.currentTimestamp != f.pts
    requires SegmentCount(|f.data|) > MAX_PARTS && SegmentCount(|f.data|) % 256 > 1
    ensures var c := SegmentCount(|f.data|) % 256;
            && Segments(f, UpTo(c)) && |f.data| > c * SEGMENT
            && Arrive(a, f, UpTo(c)).1 == [Frame(f.data[..c * SEGMENT], f.pts, f.keyframe)]
  {
    hide Arrive, Cut, SegmentData;
    var c, g := SegmentCount(|f.data|) % 256, Beginning(f);
    BeginningCount(f);
    forall k | k in UpTo(c)
      ensures k < SegmentCount(|f.data|) && k < SegmentCount(|g.data|) && Cut(f, k) == Cut(g, k)
    {
      BeginningIsCutAlike(f, k);
    }
    hide SegmentCount, Beginning;
    ArriveAlike(a, f, g, UpTo(c));
    FrameArrives(a, g, UpTo(c));
  }

  /** Each segment taken for a frame of its own. */
  function Pieces(f: Frame, order: seq<nat>): (r: seq<Frame>)
    requires Segments(f, order)
    ensures |r| == |order|
  {
    seq(|order|, i requires 0 <= i < |order| => Frame(SegmentData(f.data, order[i]), f.pts, f.keyframe))
  }

  /** And when its count byte is 0 or 1: every segment is given out as a frame of its own. */
  lemma {:induction false} TooLongComesInPieces(a: Assembly, f: Frame, order: seq<nat>)
    requires a.Valid() && Segments(f, order)
    requires SegmentCount(|f.data|) > MAX_PARTS && SegmentCount(|f.data|) % 256 <= 1
    ensures Arrive(a, f, order).1 == Pieces(f, order)
    decreases |order|
  {
    hide SegmentCount, SegmentData;
    if order != [] {
      TooLongComesInPieces(a, f, order[..|order| - 1]);
    }
  }
}
