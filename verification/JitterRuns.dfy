/** What holds over every run of the jitter buffer. */
module JitterRuns {
  import opened SequenceNumbers
  import opened Bytes
  import opened HistoricBufferModel
  import opened JitterModel
  import opened Sets

  datatype Action =
    | Input(ts: uint32, packet: Packet)
    | Play(dropped: set<uint32>, capacity: nat, offset: int, advance: bool)
    | Clear
    | Pass(measured: nat)
    | Configure(count: nat)
    | Report                        // GetAndResetLostPacketCount

  /** The buffer and what was seen of it. */
  datatype Track = Track(
    state: Jitter,
    played: seq<uint32>,            // timestamps taken at offset 0 since the cursor was placed
    given: set<(uint32, Packet)>,   // everything that was put
    requested: int,                 // playback time asked for since the ledger was cleared
    paid: int,                      // playback time added, or taken away, in that time
    increases: nat,                 // ticks that raised the delay
    misses: nat,                    // outputs at the cursor that found nothing, while not buffering
    lates: nat,                     // packets stored behind the cursor
    reported: int)                  // the sum of the lost-packet counts returned

  predicate Sound(c: Config, s: Jitter) {
    s.Valid() && c.step > 0 && c.maxUsedSlots >= 2 && |s.packets| <= c.maxUsedSlots && |s.packets| <= SLOT_COUNT
  }

  predicate Possible(c: Config, s: Jitter, a: Action) {
    a.Play? ==> Droppable(c, s, a.dropped)
  }

  predicate Resyncs(s: Jitter, ts: uint32, p: Packet) {
    TakesSlot(s, ts, p) && s.wasReset
  }

  predicate GivesUp(c: Config, s: Jitter, a: Action)
    requires a.Play?
  {
    ReadGivesUp(c, Started(c, s, a.dropped), a.offset, a.advance)
  }

  /** Whether a packet that takes a slot comes behind the cursor. */
  predicate ArrivesLate(c: Config, s: Jitter, ts: uint32, p: Packet) {
    TakesSlot(s, ts, p) && ts < (if s.wasReset then ts - c.step * s.minDelay else s.next)
  }

  ghost function Step(c: Config, tr: Track, a: Action): Track
    requires Sound(c, tr.state)
  {
    var s := tr.state;
    if !Possible(c, s, a) then tr else
    match a
    case Input(ts, p) =>
      CanPut(c, s, ts, p);
      var t1 := tr.(state := Put(c, s, ts, p), given := tr.given + {(ts, p)},
                    lates := if ArrivesLate(c, s, ts, p) then tr.lates + 1 else tr.lates);
      if Resyncs(s, ts, p) then t1.(played := [], requested := 0, paid := 0) else t1
    case Play(dropped, capacity, offset, advance) =>
      var start := Started(c, s, dropped);
      var o := HandleOutput(c, s, dropped, capacity, offset, advance);
      var t1 := tr.(state := o.state,
                    played := if offset == 0 && (o.result.Found? || o.result.Unread?)
                              then tr.played + [start.next] else tr.played,
                    misses := if offset == 0 && o.result.Missing? then tr.misses + 1 else tr.misses);
      if GivesUp(c, s, a) then t1.(requested := 0, paid := 0)
      else if s.outstanding != 0 then t1.(paid := tr.paid + (o.duration - NORMAL))
      else t1
    case Clear =>
      tr.(state := WasReset(s), requested := 0, paid := 0)
    case Pass(measured) =>
      var s1 := Tick(c, s, measured);
      tr.(state := s1, requested := tr.requested + (s1.outstanding - s.outstanding),
          increases := if s1.minDelay > s.minDelay then tr.increases + 1 else tr.increases)
    case Configure(count) =>
      tr.(state := SetMinPacketCount(s, count))
    case Report =>
      tr.(state := Reported(s), reported := tr.reported + s.lostPackets)
  }

  // ------------------------------------------------------------------ every step is possible

  lemma FewerPackets(a: map<uint32, Packet>, b: map<uint32, Packet>)
    requires a.Keys <= b.Keys
    ensures |a| <= |b|
  {
    SubsetSize(a.Keys, b.Keys);
    assert |a| == |a.Keys| && |b| == |b.Keys|;
  }

  lemma CanPut(c: Config, s: Jitter, ts: uint32, p: Packet)
    requires Sound(c, s)
    ensures MustEvict(c, Prepared(c, s, ts).packets) ==> HasVictim(Prepared(c, s, ts).packets)
  {
    EvictionNeedsTwoSlots(c);
  }

  lemma PreparedEffect(c: Config, s: Jitter, ts: uint32)
    ensures var q := Prepared(c, s, ts);
            && q.packets.Keys <= s.packets.Keys && (forall t :: t in q.packets ==> q.packets[t] == s.packets[t])
            && !q.wasReset && q.outstanding == (if s.wasReset then 0 else s.outstanding)
            && (!s.wasReset ==> q.next == s.next)
            && q.minDelay == s.minDelay && q.minMinDelay == s.minMinDelay && q.dontInc == s.dontInc
            && q.lostCount == s.lostCount
            && (var late := if ts < (if s.wasReset then ts - c.step * s.minDelay else s.next) then 1 else 0;
               q.late == s.late + late && q.lostPackets == s.lostPackets - late)
            && q.lateHistory == s.lateHistory && q.delayHistory == s.delayHistory
  {
  }

  lemma RoomMadeEffect(c: Config, q: Jitter)
    requires MustEvict(c, q.packets) ==> HasVictim(q.packets)
    requires c.maxUsedSlots >= 2 && |q.packets| <= c.maxUsedSlots && |q.packets| <= SLOT_COUNT
    ensures var r := RoomMade(c, q);
            && r.packets.Keys <= q.packets.Keys && (forall t :: t in r.packets ==> r.packets[t] == q.packets[t])
            && |r.packets| < c.maxUsedSlots && |r.packets| < SLOT_COUNT
            && r == q.(packets := r.packets, next := r.next) && q.next <= r.next
  {
    hide HasVictim;
    if MustEvict(c, q.packets) {
      RemovesOne(q.packets, Victim(q.packets));
    }
  }

  /** What storing a packet can change. */
  lemma PutEffect(c: Config, s: Jitter, ts: uint32, p: Packet)
    requires Sound(c, s)
    requires MustEvict(c, Prepared(c, s, ts).packets) ==> HasVictim(Prepared(c, s, ts).packets)
    ensures Sound(c, Put(c, s, ts, p))
    ensures var r := Put(c, s, ts, p);
            && (forall t :: t in r.packets && t != ts ==> t in s.packets && r.packets[t] == s.packets[t])
            && (ts in r.packets ==> r.packets[ts] == p || (ts in s.packets && r.packets[ts] == s.packets[ts]))
            && r.wasReset == (s.wasReset && !TakesSlot(s, ts, p))
            && r.outstanding == (if Resyncs(s, ts, p) then 0 else s.outstanding)
            && (!Resyncs(s, ts, p) ==> r.next >= s.next)
            && (!TakesSlot(s, ts, p) ==> r.packets.Keys == s.packets.Keys)
            && r.minDelay == s.minDelay && r.minMinDelay == s.minMinDelay && r.dontInc == s.dontInc
            && r.lostCount == s.lostCount
            && (var late := if ArrivesLate(c, s, ts, p) then 1 else 0;
               r.late == s.late + late && r.lostPackets == s.lostPackets - late)
  {
    hide HasVictim, Prepared, RoomMade, MustEvict;
    if TakesSlot(s, ts, p) {
      var q := Prepared(c, s, ts);
      PreparedEffect(c, s, ts);
      FewerPackets(q.packets, s.packets);
      RoomMadeEffect(c, q);
      var r := RoomMade(c, q);
      assert r.packets[ts := p].Keys == r.packets.Keys + {ts};
      assert |r.packets[ts := p]| == |r.packets[ts := p].Keys| && |r.packets| == |r.packets.Keys|;
    } else if ts in s.packets {
      assert s.packets[ts := p].Keys == s.packets.Keys;
      FewerPackets(s.packets[ts := p], s.packets);
    }
  }

  lemma RemovesOne(packets: map<uint32, Packet>, t: uint32)
    requires t in packets
    ensures |packets - {t}| == |packets| - 1
  {
    assert (packets - {t}).Keys == packets.Keys - {t};
    assert |packets - {t}| == |(packets - {t}).Keys| && |packets| == |packets.Keys|;
  }

  lemma StartedEffect(c: Config, s: Jitter, dropped: set<uint32>)
    ensures var r := Started(c, s, dropped);
            && r == s.(packets := r.packets, next := r.next, first := false) && s.next <= r.next
            && r.packets.Keys <= s.packets.Keys && (forall t :: t in r.packets ==> r.packets[t] == s.packets[t])
  {
    assert c.step * StartAdvances(s) >= 0;
  }

  /** Whether a read ends in the reset after too many losses. */
  predicate ReadGivesUp(c: Config, s: Jitter, offset: int, advance: bool) {
    !Holds(s.packets, Target(c, s, offset)) && !s.needBuffering &&
    LosesTooMuch(c, CountedLost(if advance then Advanced(c, s) else s, offset))
  }

  lemma LostEffect(c: Config, s: Jitter, offset: int)
    requires s.Valid()
    ensures var r, back := Lost(c, s, offset), LosesTooMuch(c, CountedLost(s, offset));
            && r.Valid() && r.packets == (if back then map[] else s.packets)
            && (back ==> r.wasReset && r.outstanding == 0 && r.dontInc == 16 && r.lostCount == 0)
            && (!back ==> r.next == s.next && r.wasReset == s.wasReset && r.lostCount < c.lossesToReset)
            && (!back ==> r.dontInc == s.dontInc && r.outstanding == s.outstanding)
            && r.lostPackets == s.lostPackets + (if offset == 0 then 1 else 0)
            && r.minDelay == s.minDelay && r.minMinDelay == s.minMinDelay
  {
    hide Blank;
    BlankSize();
  }

  lemma {:induction false} GetEffect(c: Config, s: Jitter, capacity: nat, offset: int, advance: bool)
    requires s.Valid() && c.step > 0
    ensures var (r, result) := Get(c, s, capacity, offset, advance);
            var back, t := ReadGivesUp(c, s, offset, advance), s.next + offset * c.step;
            && r.Valid() && r.packets.Keys <= s.packets.Keys
            && (forall t :: t in r.packets ==> r.packets[t] == s.packets[t])
            && (back ==> r.packets == map[] && r.wasReset && r.outstanding == 0 && r.dontInc == 16 && result.Missing?)
            && (!back ==> r.next >= s.next && r.wasReset == s.wasReset)
            && (!back ==> r.dontInc == s.dontInc && r.outstanding == s.outstanding)
            && ((result.Found? || result.Unread?) <==> Holds(s.packets, t))
            && (Holds(s.packets, t) && offset == 0 ==> r.next > s.next)
            && (result.Found? ==> result.packet == s.packets[t])
            && r.lostPackets == s.lostPackets + (if result.Missing? && offset == 0 then 1 else 0)
            && (r.lostCount == 0 || r.lostCount == s.lostCount || r.lostCount < c.lossesToReset)
            && r.minDelay == s.minDelay && r.minMinDelay == s.minMinDelay
  {
    hide Lost, LosesTooMuch, CountedLost;
    LostEffect(c, if advance then Advanced(c, s) else s, offset);
  }

  lemma ScaledPays(s: Jitter, advance: bool)
    ensures var (r, duration) := Scaled(s, advance);
            && r == s.(outstanding := s.outstanding - Payment(s))
            && (s.outstanding != 0 ==> duration - NORMAL == Payment(s))
  {
  }

  /** What an output can change. */
  lemma {:induction false} PlayEffect(c: Config, s: Jitter, a: Action)
    requires Sound(c, s) && a.Play? && Possible(c, s, a)
    ensures var o := HandleOutput(c, s, a.dropped, a.capacity, a.offset, a.advance);
            var r, start, back := o.state, Started(c, s, a.dropped).next, GivesUp(c, s, a);
            && Sound(c, r) && start >= s.next
            && (forall t :: t in r.packets ==> t in s.packets && r.packets[t] == s.packets[t])
            && (back ==> r.packets == map[] && r.wasReset && r.outstanding == 0 && r.dontInc == 16 && o.result.Missing?)
            && (!back ==> r.next >= start && r.wasReset == s.wasReset && r.dontInc == s.dontInc)
            && (!back ==> r.outstanding == s.outstanding - Payment(s))
            && (!back && s.outstanding != 0 ==> o.duration - NORMAL == Payment(s))
            && ((o.result.Found? || o.result.Unread?) ==>
                 Holds(s.packets, start + a.offset * c.step) && (a.offset == 0 ==> r.next > start))
            && (o.result.Found? ==> o.result.packet == s.packets[start + a.offset * c.step])
            && r.lostPackets == s.lostPackets + (if o.result.Missing? && a.offset == 0 then 1 else 0)
            && (r.lostCount == 0 || r.lostCount == s.lostCount || r.lostCount < c.lossesToReset)
            && r.minDelay == s.minDelay && r.minMinDelay == s.minMinDelay
  {
    hide Get, Started, Scaled, LosesTooMuch, CountedLost, Droppable;
    StartedEffect(c, s, a.dropped);
    var s0 := Started(c, s, a.dropped);
    GetEffect(c, s0, a.capacity, a.offset, a.advance);
    ScaledPays(Get(c, s0, a.capacity, a.offset, a.advance).0, a.advance);
    FewerPackets(Get(c, s0, a.capacity, a.offset, a.advance).0.packets, s.packets);
  }

  lemma BlankSize()
    ensures |Blank(HISTORY)| == HISTORY
  {
  }

  /** The playback time one output pays: 20 towards zero, or nothing. */
  function Payment(s: Jitter): int {
    if s.outstanding < 0 then -20 else if s.outstanding > 0 then 20 else 0
  }

  /** A buffer within its bounds stays within them, whatever is done to it. */
  lemma BoundsAreKept(c: Config, tr: Track, a: Action)
    requires Sound(c, tr.state)
    ensures Sound(c, Step(c, tr, a).state)
  {
    hide Tick, HandleOutput, Put, GivesUp, Started, Resyncs, Prepared;
    var s := tr.state;
    if Possible(c, s, a) {
      match a
      case Input(ts, p) =>
        CanPut(c, s, ts, p);
        PutEffect(c, s, ts, p);
      case Play(dropped, capacity, offset, advance) =>
        PlayEffect(c, s, a);
      case Clear =>
        FewerPackets(map[], s.packets);
      case Pass(measured) =>
        TickKeepsPackets(c, s, measured);
      case Configure(count) =>
      case Report =>
    }
  }

  /** What no part of a tick touches. */
  predicate SamePackets(s: Jitter, r: Jitter) {
    && (s.Valid() ==> r.Valid()) && r.packets == s.packets && r.next == s.next && (s.wasReset ==> r.wasReset)
    && r.lostPackets == s.lostPackets && r.lostCount == s.lostCount
  }

  lemma MeasuredKeeps(c: Config, s: Jitter)
    requires s.Valid()
    ensures SamePackets(s, Measured(c, s))
  {
    hide AverageOf, NoneLate, Remembered;
  }

  lemma DelayAdjustedKeeps(s: Jitter, target: nat)
    ensures SamePackets(s, DelayAdjusted(s, target))
  {
  }

  lemma PlayoutAdjustedKeeps(s: Jitter, avgDelay: real)
    ensures SamePackets(s, PlayoutAdjusted(s, avgDelay))
  {
  }

  lemma TickKeepsPackets(c: Config, s: Jitter, measured: nat)
    requires s.Valid()
    ensures var r := Tick(c, s, measured);
            && r.Valid() && r.packets == s.packets && r.next == s.next && (s.wasReset ==> r.wasReset)
            && r.lostPackets == s.lostPackets && r.lostCount == s.lostCount
  {
    hide AverageOf, Clamped, Measured, DelayAdjusted, PlayoutAdjusted;
    var s1 := Measured(c, s);
    var s2 := DelayAdjusted(s1, Clamped(c, s1, measured));
    MeasuredKeeps(c, s);
    DelayAdjustedKeeps(s1, Clamped(c, s1, measured));
    PlayoutAdjustedKeeps(s2, AverageOf(s1.delayHistory, 32));
  }

  ghost function Run(c: Config, tr: Track, acts: seq<Action>): (r: Track)
    requires Sound(c, tr.state)
    ensures Sound(c, r.state)
    decreases |acts|
  {
    if acts == [] then tr
    else
      var before := Run(c, tr, acts[..|acts| - 1]);
      BoundsAreKept(c, before, acts[|acts| - 1]);
      Step(c, before, acts[|acts| - 1])
  }

  function Fresh(minMinDelay: nat): Track {
    Track(NewJitter(minMinDelay), [], {}, 0, 0, 0, 0, 0, 0)
  }

  // ------------------------------------------------------------------ frames come in order

  predicate Increasing(s: seq<uint32>) {
    forall i, j :: 0 <= i < j < |s| ==> s[i] < s[j]
  }

  /** The last frame taken is behind the cursor, or nothing can be taken before the
      cursor is placed anew. */
  predicate BehindCursor(s: Jitter, played: seq<uint32>) {
    && Increasing(played)
    && (played == [] || played[|played| - 1] < s.next || (s.packets == map[] && s.wasReset))
  }

  lemma {:induction false} StepKeepsOrder(c: Config, tr: Track, a: Action)
    requires Sound(c, tr.state) && BehindCursor(tr.state, tr.played)
    ensures BehindCursor(Step(c, tr, a).state, Step(c, tr, a).played)
  {
    hide Tick, HandleOutput, Put, GivesUp, Started, Prepared, Droppable, MustEvict;
    var s := tr.state;
    if Possible(c, s, a) {
      match a
      case Input(ts, p) =>
        CanPut(c, s, ts, p);
        PutEffect(c, s, ts, p);
        assert !TakesSlot(s, ts, p) && s.packets == map[] ==> Put(c, s, ts, p).packets.Keys == {};
      case Play(dropped, capacity, offset, advance) =>
        PlayEffect(c, s, a);
      case Clear =>
      case Pass(measured) =>
        TickKeepsPackets(c, s, measured);
      case Configure(count) =>
      case Report =>
    }
  }

  /** Between two placements of the cursor no frame is taken twice or out of order. */
  lemma {:induction false} FramesComeInOrder(c: Config, minMinDelay: nat, acts: seq<Action>)
    requires Sound(c, NewJitter(minMinDelay))
    ensures var tr := Run(c, Fresh(minMinDelay), acts);
            Increasing(tr.played) && BehindCursor(tr.state, tr.played)
    decreases |acts|
  {
    if acts != [] {
      var n := |acts| - 1;
      FramesComeInOrder(c, minMinDelay, acts[..n]);
      StepKeepsOrder(c, Run(c, Fresh(minMinDelay), acts[..n]), acts[n]);
    }
  }

  // --------------------------------------------------------------- frames are what was put

  predicate Genuine(tr: Track) {
    forall t :: t in tr.state.packets ==> (t, tr.state.packets[t]) in tr.given
  }

  lemma {:induction false} StepKeepsGenuine(c: Config, tr: Track, a: Action)
    requires Sound(c, tr.state) && Genuine(tr)
    ensures Genuine(Step(c, tr, a))
  {
    hide Tick, HandleOutput, Put, GivesUp, Started, Prepared, Droppable, MustEvict, Resyncs;
    var s := tr.state;
    if Possible(c, s, a) {
      match a
      case Input(ts, p) =>
        CanPut(c, s, ts, p);
        PutEffect(c, s, ts, p);
      case Play(dropped, capacity, offset, advance) =>
        PlayEffect(c, s, a);
      case Clear =>
      case Pass(measured) =>
        TickKeepsPackets(c, s, measured);
      case Configure(count) =>
      case Report =>
    }
  }

  lemma {:induction false} RunKeepsGenuine(c: Config, minMinDelay: nat, acts: seq<Action>)
    requires Sound(c, NewJitter(minMinDelay))
    ensures Genuine(Run(c, Fresh(minMinDelay), acts))
    decreases |acts|
  {
    if acts != [] {
      var n := |acts| - 1;
      RunKeepsGenuine(c, minMinDelay, acts[..n]);
      StepKeepsGenuine(c, Run(c, Fresh(minMinDelay), acts[..n]), acts[n]);
    }
  }

  /** Whatever is handed out was put under exactly the timestamp it is played for. */
  lemma {:induction false} FramesAreGenuine(c: Config, minMinDelay: nat, acts: seq<Action>, a: Action)
    requires Sound(c, NewJitter(minMinDelay))
    requires a.Play? && Possible(c, Run(c, Fresh(minMinDelay), acts).state, a)
    ensures var tr := Run(c, Fresh(minMinDelay), acts);
            var o := HandleOutput(c, tr.state, a.dropped, a.capacity, a.offset, a.advance);
            o.result.Found? ==>
              exists t :: (t, o.result.packet) in tr.given &&
                          t == Started(c, tr.state, a.dropped).next + a.offset * c.step
  {
    hide Started, HandleOutput, Droppable;
    RunKeepsGenuine(c, minMinDelay, acts);
    var tr := Run(c, Fresh(minMinDelay), acts);
    PlayEffect(c, tr.state, a);
    var o := HandleOutput(c, tr.state, a.dropped, a.capacity, a.offset, a.advance);
    if o.result.Found? {
      var t: uint32 := Started(c, tr.state, a.dropped).next + a.offset * c.step;
      assert (t, o.result.packet) in tr.given;
    }
  }

  /** A redundant packet never replaces one that is there. */
  lemma RedundantNeverReplaces(c: Config, s: Jitter, ts: uint32, p: Packet)
    requires Sound(c, s) && p.isEC
    ensures MustEvict(c, Prepared(c, s, ts).packets) ==> HasVictim(Prepared(c, s, ts).packets)
    ensures ts in s.packets ==> Put(c, s, ts, p) == s
    ensures forall t :: t in s.packets && t in Put(c, s, ts, p).packets ==> Put(c, s, ts, p).packets[t] == s.packets[t]
  {
    hide Prepared, RoomMade;
    CanPut(c, s, ts, p);
    PutEffect(c, s, ts, p);
  }

  // ---------------------------------------------------------------------- the delay ledger

  /** What the playback owes is what was asked for less what was paid, in parts of 20. */
  predicate Balanced(tr: Track) {
    tr.state.outstanding == tr.requested - tr.paid && tr.state.outstanding % 20 == 0
  }

  lemma AdjustedAsks(s: Jitter, target: nat)
    ensures var r := DelayAdjusted(s, target);
            r.outstanding - s.outstanding == 60 * (r.minDelay - s.minDelay)
  {
  }

  lemma CorrectionAsks(s: Jitter, avgDelay: real)
    ensures var r := PlayoutAdjusted(s, avgDelay);
            && r.minDelay == s.minDelay && r.minMinDelay == s.minMinDelay && r.dontInc == s.dontInc
            && r.outstanding - s.outstanding in {-60, -20, 0, 20}
  {
  }

  /** A tick asks for 60 for each step of the delay, and for one correction besides. */
  lemma {:induction false} TickRequests(c: Config, s: Jitter, measured: nat)
    requires s.Valid()
    ensures var r := Tick(c, s, measured);
            r.outstanding - s.outstanding - 60 * (r.minDelay - s.minDelay) in {-60, -20, 0, 20}
  {
    hide AverageOf, NoneLate, Remembered, Clamped, DelayAdjusted, PlayoutAdjusted;
    var s1 := Measured(c, s);
    var s2 := DelayAdjusted(s1, Clamped(c, s1, measured));
    AdjustedAsks(s1, Clamped(c, s1, measured));
    CorrectionAsks(s2, AverageOf(s1.delayHistory, 32));
  }

  lemma Multiple(q: int)
    ensures 20 * q % 20 == 0
  {
  }

  lemma InTwenties(a: int, b: int)
    requires a % 20 == 0 && b % 20 == 0
    ensures (a + b) % 20 == 0
  {
    assert a == 20 * (a / 20) && b == 20 * (b / 20);
    Multiple(a / 20 + b / 20);
  }

  lemma {:induction false} RequestInTwenties(c: Config, s: Jitter, measured: nat)
    requires s.Valid()
    ensures (Tick(c, s, measured).outstanding - s.outstanding) % 20 == 0
  {
    hide Tick;
    TickRequests(c, s, measured);
    var r := Tick(c, s, measured);
    SixtiesAndOneMore(r.minDelay - s.minDelay, r.outstanding - s.outstanding - 60 * (r.minDelay - s.minDelay));
  }

  lemma SixtiesAndOneMore(steps: int, more: int)
    requires more in {-60, -20, 0, 20}
    ensures (60 * steps + more) % 20 == 0
  {
    assert 60 * steps + more == 20 * (3 * steps + (if more == -60 then -3 else if more == -20 then -1 else if more == 0 then 0 else 1));
    Multiple(3 * steps + (if more == -60 then -3 else if more == -20 then -1 else if more == 0 then 0 else 1));
  }

  lemma {:induction false} StepKeepsBalance(c: Config, tr: Track, a: Action)
    requires Sound(c, tr.state) && Balanced(tr)
    ensures Balanced(Step(c, tr, a))
  {
    hide Tick, HandleOutput, Put, GivesUp, Started, Prepared, Droppable, MustEvict;
    var s := tr.state;
    if Possible(c, s, a) {
      match a
      case Input(ts, p) =>
        CanPut(c, s, ts, p);
        PutEffect(c, s, ts, p);
      case Play(dropped, capacity, offset, advance) =>
        PlayEffect(c, s, a);
        InTwenties(s.outstanding, -Payment(s));
      case Clear =>
      case Pass(measured) =>
        TickRequests(c, s, measured);
        RequestInTwenties(c, s, measured);
        InTwenties(s.outstanding, Tick(c, s, measured).outstanding - s.outstanding);
      case Configure(count) =>
      case Report =>
    }
  }

  lemma {:induction false} LedgerBalances(c: Config, minMinDelay: nat, acts: seq<Action>)
    requires Sound(c, NewJitter(minMinDelay))
    ensures Balanced(Run(c, Fresh(minMinDelay), acts))
    decreases |acts|
  {
    if acts != [] {
      var n := |acts| - 1;
      LedgerBalances(c, minMinDelay, acts[..n]);
      StepKeepsBalance(c, Run(c, Fresh(minMinDelay), acts[..n]), acts[n]);
    }
  }

  /** An output pays 20 of the debt, or the debt is forgotten. */
  lemma OutputPays(c: Config, tr: Track, a: Action)
    requires Sound(c, tr.state) && a.Play? && Possible(c, tr.state, a)
    ensures var owed, left := tr.state.outstanding, Step(c, tr, a).state.outstanding;
            left == 0 || left == owed - Payment(tr.state)
  {
    hide Tick, HandleOutput, Put, GivesUp, Started, Prepared, Droppable, MustEvict;
    PlayEffect(c, tr.state, a);
  }

  function Abs(x: int): nat {
    if x < 0 then -x else x
  }

  predicate Paying(owed: int, left: int, outputs: nat) {
    left % 20 == 0 && Abs(left) <= Abs(owed) && (left == 0 || Abs(left) == Abs(owed) - 20 * outputs)
  }

  lemma PayOnce(owed: int, before: int, left: int, outputs: nat)
    requires Paying(owed, before, outputs)
    requires left == 0 || left == before - (if before < 0 then -20 else if before > 0 then 20 else 0)
    ensures Paying(owed, left, outputs + 1)
  {
    var q := before / 20;
    assert before == 20 * q;
    assert left == 0 || left == 20 * (if q < 0 then q + 1 else q - 1);
    Multiple(if q < 0 then q + 1 else q - 1);
  }

  ghost predicate AllPossible(c: Config, tr: Track, outputs: seq<Action>)
    requires Sound(c, tr.state)
  {
    forall k :: 0 <= k < |outputs| ==> outputs[k].Play? && Possible(c, Run(c, tr, outputs[..k]).state, outputs[k])
  }

  lemma {:induction false} AllPossibleBefore(c: Config, tr: Track, outputs: seq<Action>)
    requires Sound(c, tr.state) && AllPossible(c, tr, outputs) && outputs != []
    ensures AllPossible(c, tr, outputs[..|outputs| - 1])
  {
    hide Run, Possible;
    var before := outputs[..|outputs| - 1];
    forall k | 0 <= k < |before| ensures before[k].Play? && Possible(c, Run(c, tr, before[..k]).state, before[k]) {
      assert before[..k] == outputs[..k] && before[k] == outputs[k];
    }
  }

  /** Outputs alone pay the whole debt, 20 at a time. */
  lemma {:induction false} DebtDrains(c: Config, tr: Track, outputs: seq<Action>)
    requires Sound(c, tr.state) && AllPossible(c, tr, outputs) && tr.state.outstanding % 20 == 0
    ensures Paying(tr.state.outstanding, Run(c, tr, outputs).state.outstanding, |outputs|)
    ensures 20 * |outputs| >= Abs(tr.state.outstanding) ==> Run(c, tr, outputs).state.outstanding == 0
    decreases |outputs|
  {
    hide Step, Possible;
    if outputs != [] {
      var n := |outputs| - 1;
      AllPossibleBefore(c, tr, outputs);
      DebtDrains(c, tr, outputs[..n]);
      var before := Run(c, tr, outputs[..n]);
      OutputPays(c, before, outputs[n]);
      PayOnce(tr.state.outstanding, before.state.outstanding, Run(c, tr, outputs).state.outstanding, n);
    }
  }

  // ------------------------------------------------------------------------ the wanted delay

  predicate MovesSlowly(before: Jitter, after: Jitter) {
    && before.minDelay - 1 <= after.minDelay <= before.minDelay + 1
    && after.minMinDelay == before.minMinDelay
    && (after.minDelay > before.minDelay ==> after.dontInc == 25 && before.dontInc == 0)
    && (after.minDelay <= before.minDelay ==> after.dontInc == before.dontInc)
  }

  /** The limits as the settings mean them. */
  predicate Within(c: Config, s: Jitter) {
    s.minMinDelay <= s.minDelay <= c.maxMinDelay
  }

  /** The delay that the measurement asks for, cut to the limits, is above the present one. */
  predicate Wants(c: Config, s: Jitter, measured: nat) {
    Clamped(c, s, measured) > s.minDelay
  }

  lemma AdjustedMovesSlowly(c: Config, s: Jitter, measured: nat)
    ensures var r := DelayAdjusted(s, Clamped(c, s, measured));
            && MovesSlowly(s, r) && (Within(c, s) ==> Within(c, r))
            && (r.minDelay > s.minDelay <==> s.dontInc == 0 && Wants(c, s, measured))
            && (r.minDelay < s.minDelay <==> s.dontDec == 0 && Clamped(c, s, measured) < s.minDelay)
  {
  }

  /** The delay moves by at most one in a tick.  It is raised exactly if the guard against
      raising is 0 and more is wanted, lowered exactly if the other guard, once counted down,
      is 0 and less is wanted; and it does not leave its limits. */
  lemma DelayMovesSlowly(c: Config, s: Jitter, measured: nat)
    requires s.Valid()
    ensures var r := Tick(c, s, measured);
            && MovesSlowly(s, r) && (Within(c, s) ==> Within(c, r))
            && (r.minDelay > s.minDelay <==> s.dontInc == 0 && Wants(c, s, measured))
            && (r.minDelay < s.minDelay <==> Measured(c, s).dontDec == 0 && Clamped(c, s, measured) < s.minDelay)
  {
    hide AverageOf, NoneLate, Remembered, DelayAdjusted, PlayoutAdjusted;
    var s1 := Measured(c, s);
    AdjustedMovesSlowly(c, s1, measured);
    CorrectionAsks(DelayAdjusted(s1, Clamped(c, s1, measured)), AverageOf(s1.delayHistory, 32));
  }

  /** What sets the guard against raising: a tick that wants more, or the reset after too
      many losses. */
  predicate Blocks(c: Config, s: Jitter, a: Action) {
    match a
    case Pass(measured) => Wants(c, s, measured)
    case Play(_, _, _, _) => Possible(c, s, a) && GivesUp(c, s, a)
    case _ => false
  }

  /** The guard is never counted down: it is up exactly if it was, or this action blocks. */
  lemma {:induction false} StepBlocks(c: Config, tr: Track, a: Action)
    requires Sound(c, tr.state)
    ensures var s, tr' := tr.state, Step(c, tr, a);
            && (tr'.state.dontInc > 0 <==> s.dontInc > 0 || Blocks(c, s, a))
            && tr'.increases == tr.increases + (if a.Pass? && s.dontInc == 0 && Blocks(c, s, a) then 1 else 0)
  {
    hide Tick, HandleOutput, Put, GivesUp, Started, Prepared, Droppable, MustEvict, Wants;
    var s := tr.state;
    if Possible(c, s, a) {
      match a
      case Input(ts, p) =>
        CanPut(c, s, ts, p);
        PutEffect(c, s, ts, p);
      case Play(dropped, capacity, offset, advance) =>
        PlayEffect(c, s, a);
      case Clear =>
      case Pass(measured) =>
        DelayMovesSlowly(c, s, measured);
      case Configure(count) =>
      case Report =>
    }
  }

  /** Action `k` of a run blocks. */
  ghost predicate BlocksAt(c: Config, tr: Track, acts: seq<Action>, k: nat)
    requires Sound(c, tr.state) && k < |acts|
  {
    Blocks(c, Run(c, tr, acts[..k]).state, acts[k])
  }

  ghost predicate Blocked(c: Config, tr: Track, acts: seq<Action>)
    requires Sound(c, tr.state)
  {
    exists k :: 0 <= k < |acts| && BlocksAt(c, tr, acts, k)
  }

  /** The first action that blocks is a tick. */
  ghost predicate TickBlocksFirst(c: Config, tr: Track, acts: seq<Action>)
    requires Sound(c, tr.state)
  {
    exists k :: 0 <= k < |acts| && acts[k].Pass? && BlocksAt(c, tr, acts, k) && !Blocked(c, tr, acts[..k])
  }

  lemma {:induction false} BlockedOneMore(c: Config, tr: Track, acts: seq<Action>)
    requires Sound(c, tr.state) && acts != []
    ensures var n := |acts| - 1;
            && (Blocked(c, tr, acts) <==> Blocked(c, tr, acts[..n]) || BlocksAt(c, tr, acts, n))
            && (TickBlocksFirst(c, tr, acts) <==>
                 TickBlocksFirst(c, tr, acts[..n]) || (acts[n].Pass? && BlocksAt(c, tr, acts, n) && !Blocked(c, tr, acts[..n])))
  {
    hide Blocks, Run;
    var n := |acts| - 1;
    var front := acts[..n];
    forall k | 0 <= k < n
      ensures BlocksAt(c, tr, acts, k) == BlocksAt(c, tr, front, k) && front[k] == acts[k] && front[..k] == acts[..k]
    {
      assert front[..k] == acts[..k];
    }
    if k :| 0 <= k < n && BlocksAt(c, tr, acts, k) {
      assert BlocksAt(c, tr, front, k);
    }
    if TickBlocksFirst(c, tr, acts) {
      var k :| 0 <= k < |acts| && acts[k].Pass? && BlocksAt(c, tr, acts, k) && !Blocked(c, tr, acts[..k]);
      assert k < n ==> BlocksAt(c, tr, front, k) && !Blocked(c, tr, front[..k]);
    }
    if TickBlocksFirst(c, tr, front) {
      var k :| 0 <= k < |front| && front[k].Pass? && BlocksAt(c, tr, front, k) && !Blocked(c, tr, front[..k]);
      assert BlocksAt(c, tr, acts, k) && !Blocked(c, tr, acts[..k]);
    }
  }

  /** Over every run: the guard is up exactly if something has blocked, and ticks raised the
      delay once if the first that blocked was a tick, and never otherwise. */
  lemma {:induction false} GuardIsExact(c: Config, minMinDelay: nat, acts: seq<Action>)
    requires Sound(c, NewJitter(minMinDelay))
    ensures var tr := Run(c, Fresh(minMinDelay), acts);
            && (tr.state.dontInc > 0 <==> Blocked(c, Fresh(minMinDelay), acts))
            && tr.increases == if TickBlocksFirst(c, Fresh(minMinDelay), acts) then 1 else 0
    decreases |acts|
  {
    hide Blocked, TickBlocksFirst, Blocks, Step;
    var start := Fresh(minMinDelay);
    if acts == [] {
      NothingBlocked(c, start);
    } else {
      var n := |acts| - 1;
      GuardIsExact(c, minMinDelay, acts[..n]);
      StepBlocks(c, Run(c, start, acts[..n]), acts[n]);
      BlockedOneMore(c, start, acts);
      FirstBlockIsABlock(c, start, acts[..n]);
    }
  }

  lemma NothingBlocked(c: Config, tr: Track)
    requires Sound(c, tr.state)
    ensures !Blocked(c, tr, []) && !TickBlocksFirst(c, tr, [])
  {
  }

  lemma FirstBlockIsABlock(c: Config, tr: Track, acts: seq<Action>)
    requires Sound(c, tr.state)
    ensures TickBlocksFirst(c, tr, acts) ==> Blocked(c, tr, acts)
  {
  }

  /** Exactly when a tick raises the delay, after any run: it wants more, and no tick before it
      did and no reset after too many losses has come.  So in a whole call ticks raise the
      delay at most once, and never after such a reset. */
  lemma {:induction false} DelayIsRaisedAtMostOnce(c: Config, minMinDelay: nat, acts: seq<Action>, measured: nat)
    requires Sound(c, NewJitter(minMinDelay))
    ensures var tr := Run(c, Fresh(minMinDelay), acts);
            && (Tick(c, tr.state, measured).minDelay > tr.state.minDelay <==>
                 Wants(c, tr.state, measured) && !Blocked(c, Fresh(minMinDelay), acts))
            && tr.increases <= 1
  {
    hide Tick, Wants, Blocked, TickBlocksFirst, Run;
    GuardIsExact(c, minMinDelay, acts);
    DelayMovesSlowly(c, Run(c, Fresh(minMinDelay), acts).state, measured);
  }

  // ............................................................... runs with a refused raise

  lemma RunOneMore(c: Config, tr: Track, acts: seq<Action>, a: Action)
    requires Sound(c, tr.state)
    ensures Run(c, tr, acts + [a]) == Step(c, Run(c, tr, acts), a)
  {
    assert (acts + [a])[..|acts|] == acts;
  }

  /** Two ticks that want a delay of 8: the first raises it to 7, the second is refused. */
  lemma SecondRaiseIsRefused(c: Config, minMinDelay: nat)
    requires Sound(c, NewJitter(minMinDelay)) && c.maxMinDelay >= 8
    ensures var s := Run(c, Fresh(minMinDelay), [Pass(8)]).state;
            s.minDelay == 7 && Wants(c, s, 8) && Tick(c, s, 8).minDelay == 7
  {
    hide Tick, Step;
    var start := Fresh(minMinDelay);
    RunOneMore(c, start, [], Pass(8));
    assert [] + [Pass(8)] == [Pass(8)];
    DelayMovesSlowly(c, start.state, 8);
    var s1 := Tick(c, start.state, 8);
    assert Run(c, start, [Pass(8)]).state == s1 by { PassIsTick(c, start, 8); }
    TickKeepsPackets(c, start.state, 8);
    DelayMovesSlowly(c, s1, 8);
  }

  lemma PassIsTick(c: Config, tr: Track, measured: nat)
    requires Sound(c, tr.state)
    ensures Step(c, tr, Pass(measured)).state == Tick(c, tr.state, measured)
  {
    hide Tick;
  }

  /** Nothing waits and nothing is being buffered: each output misses. */
  predicate Starved(s: Jitter) {
    s.packets == map[] && !s.needBuffering
  }

  /** An output at the cursor, of a buffer that then drops nothing. */
  function Plain(capacity: nat): Action {
    Play({}, capacity, 0, true)
  }

  lemma OneMiss(c: Config, s: Jitter, capacity: nat)
    requires s.Valid() && c.step > 0 && Starved(s)
    ensures var a, r := Plain(capacity), HandleOutput(c, s, {}, capacity, 0, true).state;
            && Possible(c, s, a)
            && (!GivesUp(c, s, a) ==> s.lostCount + 1 < c.lossesToReset && r.lostCount == s.lostCount + 1 && Starved(r))
            && r.minDelay == s.minDelay && r.minMinDelay == s.minMinDelay
  {
    assert s.packets - {} == map[];
  }

  lemma PlayIsOutput(c: Config, tr: Track, capacity: nat)
    requires Sound(c, tr.state)
    ensures Possible(c, tr.state, Plain(capacity))
    ensures var r := Step(c, tr, Plain(capacity));
            && r.state == HandleOutput(c, tr.state, {}, capacity, 0, true).state
            && r.increases == tr.increases
  {
    hide HandleOutput, Started, GivesUp;
  }

  /** Enough misses in a row end in the reset. */
  lemma {:induction false} MissesBlock(c: Config, tr: Track, acts: seq<Action>, capacity: nat) returns (acts': seq<Action>)
    requires Sound(c, tr.state) && Starved(Run(c, tr, acts).state)
    requires forall a :: a in acts ==> !a.Pass? && !a.Configure?
    ensures forall a :: a in acts' ==> !a.Pass? && !a.Configure?
    ensures Run(c, tr, acts').state.dontInc > 0
    decreases c.lossesToReset - Run(c, tr, acts).state.lostCount
  {
    hide HandleOutput, GivesUp, Step, Starved, Run;
    var a, here := Plain(capacity), Run(c, tr, acts);
    OneMiss(c, here.state, capacity);
    PlayIsOutput(c, here, capacity);
    RunOneMore(c, tr, acts, a);
    if GivesUp(c, here.state, a) {
      acts' := acts + [a];
      StepBlocks(c, here, a);
    } else {
      acts' := MissesBlock(c, tr, acts + [a], capacity);
    }
  }

  /** A packet that waits alone is taken in the end, and then nothing waits. */
  lemma {:induction false} TakenAtLast(c: Config, tr: Track, acts: seq<Action>, ts: uint32, p: Packet, k: nat)
    returns (acts': seq<Action>)
    requires Sound(c, tr.state) && Waiting(c, Run(c, tr, acts).state, ts, p, k)
    requires forall a :: a in acts ==> !a.Pass? && !a.Configure?
    ensures forall a :: a in acts' ==> !a.Pass? && !a.Configure?
    ensures Starved(Run(c, tr, acts').state)
    decreases k
  {
    hide HandleOutput, GivesUp, Step, Starved, Run, Waiting;
    var a, here := Plain(|p.data|), Run(c, tr, acts);
    OneOutput(c, here.state, ts, p, |p.data|, k);
    PlayIsOutput(c, here, |p.data|);
    RunOneMore(c, tr, acts, a);
    if k == 0 {
      LastOneTaken(c, here.state, ts, p);
      acts' := acts + [a];
    } else {
      acts' := TakenAtLast(c, tr, acts + [a], ts, p, k - 1);
    }
  }

  lemma LastOneTaken(c: Config, s: Jitter, ts: uint32, p: Packet)
    requires c.step > 0 && Waiting(c, s, ts, p, 0)
    ensures Starved(HandleOutput(c, s, {}, |p.data|, 0, true).state)
  {
    assert |s.packets| == |s.packets.Keys| == 1;
    assert s.packets - {} == s.packets && s.packets - {ts} == map[];
  }

  lemma {:induction false} OnlyTicksMoveDelay(c: Config, tr: Track, a: Action)
    requires Sound(c, tr.state) && !a.Pass? && !a.Configure?
    ensures Step(c, tr, a).state.minDelay == tr.state.minDelay && Step(c, tr, a).increases == tr.increases
  {
    hide HandleOutput, Put, GivesUp, Started, Prepared, Droppable, MustEvict;
    var s := tr.state;
    if Possible(c, s, a) {
      match a
      case Input(ts, p) =>
        CanPut(c, s, ts, p);
        PutEffect(c, s, ts, p);
      case Play(dropped, capacity, offset, advance) =>
        PlayEffect(c, s, a);
      case _ =>
    }
  }

  lemma {:induction false} DelayUnmoved(c: Config, tr: Track, acts: seq<Action>)
    requires Sound(c, tr.state) && forall a :: a in acts ==> !a.Pass? && !a.Configure?
    ensures Run(c, tr, acts).state.minDelay == tr.state.minDelay && Run(c, tr, acts).increases == tr.increases
    decreases |acts|
  {
    hide Step;
    if acts != [] {
      DelayUnmoved(c, tr, acts[..|acts| - 1]);
      OnlyTicksMoveDelay(c, Run(c, tr, acts[..|acts| - 1]), acts[|acts| - 1]);
    }
  }

  /** The other cause, in every configuration: a run without any tick that ends in the reset
      after losses, from which on no tick raises the delay, whatever follows. */
  lemma {:induction false} LossesForbidRaising(c: Config, minMinDelay: nat) returns (acts: seq<Action>)
    requires Sound(c, NewJitter(minMinDelay))
    ensures forall a :: a in acts ==> !a.Pass? && !a.Configure?
    ensures var tr := Run(c, Fresh(minMinDelay), acts);
            && tr.increases == 0 && tr.state.minDelay == 6
            && (c.maxMinDelay > 6 ==> Wants(c, tr.state, 7))
    ensures forall more, measured ::
              var s := Run(c, Fresh(minMinDelay), acts + more).state;
              Tick(c, s, measured).minDelay <= s.minDelay
  {
    hide Step, Put, Waiting, Starved, Run, Blocked, Tick;
    var start, p := Fresh(minMinDelay), Packet([], false);
    var a := Input(0, p);
    FirstPut(c, start.state, 0, p);
    InputIsPut(c, start, 0, p);
    RunOneMore(c, start, [], a);
    RunNothing(c, start);
    acts := TakenAtLast(c, start, [] + [a], 0, p, start.state.minDelay);
    acts := MissesBlock(c, start, acts, 0);
    DelayUnmoved(c, start, acts);
    GuardIsExact(c, minMinDelay, acts);
    forall more, measured
      ensures var s := Run(c, start, acts + more).state; Tick(c, s, measured).minDelay <= s.minDelay
    {
      StaysBlocked(c, start, acts, more);
      DelayIsRaisedAtMostOnce(c, minMinDelay, acts + more, measured);
    }
  }

  lemma RunNothing(c: Config, tr: Track)
    requires Sound(c, tr.state)
    ensures Run(c, tr, []) == tr
  {
  }

  lemma InputIsPut(c: Config, tr: Track, ts: uint32, p: Packet)
    requires Sound(c, tr.state)
    ensures MustEvict(c, Prepared(c, tr.state, ts).packets) ==> HasVictim(Prepared(c, tr.state, ts).packets)
    ensures Step(c, tr, Input(ts, p)).state == Put(c, tr.state, ts, p)
  {
    hide Put, MustEvict, HasVictim, Prepared;
    CanPut(c, tr.state, ts, p);
  }

  lemma StaysBlocked(c: Config, tr: Track, acts: seq<Action>, more: seq<Action>)
    requires Sound(c, tr.state) && Blocked(c, tr, acts)
    ensures Blocked(c, tr, acts + more)
  {
    hide Blocks, Run;
    var k :| 0 <= k < |acts| && BlocksAt(c, tr, acts, k);
    assert (acts + more)[..k] == acts[..k] && (acts + more)[k] == acts[k];
    assert BlocksAt(c, tr, acts + more, k);
  }

  // .................................................................. the limits of the delay

  /** Once the least delay is within the greatest, so is the delay. */
  predicate LimitsHold(c: Config, s: Jitter) {
    s.minMinDelay <= c.maxMinDelay ==> Within(c, s)
  }

  lemma {:induction false} StepKeepsLimits(c: Config, tr: Track, a: Action)
    requires Sound(c, tr.state)
    ensures var s, r := tr.state, Step(c, tr, a).state;
            && (LimitsHold(c, s) || a.Configure? ==> LimitsHold(c, r))
            && r.minMinDelay == if a.Configure? then a.count else s.minMinDelay
  {
    hide Tick, HandleOutput, Put, GivesUp, Started, Prepared, Droppable, MustEvict;
    var s := tr.state;
    if Possible(c, s, a) {
      match a
      case Input(ts, p) =>
        CanPut(c, s, ts, p);
        PutEffect(c, s, ts, p);
      case Play(dropped, capacity, offset, advance) =>
        PlayEffect(c, s, a);
      case Clear =>
      case Pass(measured) =>
        DelayMovesSlowly(c, s, measured);
      case Configure(count) =>
      case Report =>
    }
  }

  /** The least delay in force after a run: as configured last. */
  function LeastDelay(minMinDelay: nat, acts: seq<Action>): nat
    decreases |acts|
  {
    if acts == [] then minMinDelay
    else if acts[|acts| - 1].Configure? then acts[|acts| - 1].count
    else LeastDelay(minMinDelay, acts[..|acts| - 1])
  }

  predicate Configured(acts: seq<Action>) {
    exists k :: 0 <= k < |acts| && acts[k].Configure?
  }

  lemma {:induction false} RunKeepsLimits(c: Config, minMinDelay: nat, acts: seq<Action>)
    requires Sound(c, NewJitter(minMinDelay))
    ensures var s := Run(c, Fresh(minMinDelay), acts).state;
            && s.minMinDelay == LeastDelay(minMinDelay, acts)
            && (LimitsHold(c, NewJitter(minMinDelay)) || Configured(acts) ==> LimitsHold(c, s))
    decreases |acts|
  {
    hide Step, LimitsHold;
    if acts != [] {
      var n := |acts| - 1;
      RunKeepsLimits(c, minMinDelay, acts[..n]);
      StepKeepsLimits(c, Run(c, Fresh(minMinDelay), acts[..n]), acts[n]);
      assert Configured(acts) && !acts[n].Configure? ==> Configured(acts[..n]) by {
        if k :| 0 <= k < n && acts[k].Configure? { assert acts[..n][k] == acts[k]; }
      }
    }
  }

  /** Once a least delay was configured, the delay is within its limits after a run exactly if
      the count configured last is not above the greatest delay. */
  lemma DelayIsWithinAsConfigured(c: Config, minMinDelay: nat, acts: seq<Action>)
    requires Sound(c, NewJitter(minMinDelay)) && Configured(acts)
    ensures Within(c, Run(c, Fresh(minMinDelay), acts).state) <==> LeastDelay(minMinDelay, acts) <= c.maxMinDelay
  {
    RunKeepsLimits(c, minMinDelay, acts);
  }

  predicate CountsFit(c: Config, acts: seq<Action>) {
    forall k :: 0 <= k < |acts| && acts[k].Configure? ==> acts[k].count <= c.maxMinDelay
  }

  lemma {:induction false} LeastDelayFits(c: Config, minMinDelay: nat, acts: seq<Action>)
    requires CountsFit(c, acts) && minMinDelay <= c.maxMinDelay
    ensures LeastDelay(minMinDelay, acts) <= c.maxMinDelay
    decreases |acts|
  {
    if acts != [] {
      LeastDelayFits(c, minMinDelay, acts[..|acts| - 1]);
    }
  }

  /** Over runs that configure no count above the greatest delay, the delay is always within
      its limits exactly if the settings put them around 6, the delay a buffer starts with. */
  lemma {:induction false} DelayStaysWithin(c: Config, minMinDelay: nat)
    requires Sound(c, NewJitter(minMinDelay))
    ensures (forall acts :: CountsFit(c, acts) ==> Within(c, Run(c, Fresh(minMinDelay), acts).state))
            <==> minMinDelay <= 6 <= c.maxMinDelay
  {
    hide Run, CountsFit;
    if minMinDelay <= 6 <= c.maxMinDelay {
      forall acts | CountsFit(c, acts) ensures Within(c, Run(c, Fresh(minMinDelay), acts).state) {
        RunKeepsLimits(c, minMinDelay, acts);
        LeastDelayFits(c, minMinDelay, acts);
      }
    } else {
      RunNothing(c, Fresh(minMinDelay));
      NoCounts(c);
      assert CountsFit(c, []) && !Within(c, Run(c, Fresh(minMinDelay), []).state);
    }
  }

  lemma NoCounts(c: Config)
    ensures CountsFit(c, [])
  {
  }

  // ------------------------------------------------------------------------- lost packets

  /** The lost packets reported and still to be reported are the misses less the packets that
      came after all, and fewer misses in a row than the limit go by without a reset. */
  predicate LossesCounted(c: Config, tr: Track) {
    && tr.reported + tr.state.lostPackets == tr.misses - tr.lates
    && (tr.state.lostCount == 0 || tr.state.lostCount < c.lossesToReset)
  }

  lemma StepKeepsLosses(c: Config, tr: Track, a: Action)
    requires Sound(c, tr.state) && LossesCounted(c, tr)
    ensures LossesCounted(c, Step(c, tr, a))
  {
    hide Tick, HandleOutput, Put, GivesUp, Started, Prepared, Droppable, MustEvict, Resyncs, ArrivesLate;
    var s := tr.state;
    if Possible(c, s, a) {
      match a
      case Input(ts, p) =>
        CanPut(c, s, ts, p);
        PutEffect(c, s, ts, p);
      case Play(dropped, capacity, offset, advance) =>
        PlayEffect(c, s, a);
      case Clear =>
      case Pass(measured) =>
        TickKeepsPackets(c, s, measured);
      case Configure(count) =>
      case Report =>
    }
  }

  lemma {:induction false} LossesAreCounted(c: Config, minMinDelay: nat, acts: seq<Action>)
    requires Sound(c, NewJitter(minMinDelay))
    ensures LossesCounted(c, Run(c, Fresh(minMinDelay), acts))
    decreases |acts|
  {
    if acts != [] {
      var n := |acts| - 1;
      LossesAreCounted(c, minMinDelay, acts[..n]);
      StepKeepsLosses(c, Run(c, Fresh(minMinDelay), acts[..n]), acts[n]);
    }
  }

  // ------------------------------------------------------------------------ start-up delay

  /** `n` outputs in turn, at the cursor, with nothing put in between. */
  function Outputs(c: Config, s: Jitter, capacity: nat, n: nat): (Jitter, Result)
    requires n > 0
  {
    var before := if n == 1 then s else Outputs(c, s, capacity, n - 1).0;
    var o := HandleOutput(c, before, {}, capacity, 0, true);
    (o.state, o.result)
  }

  /** One packet waits, `k` steps ahead of the cursor, and nothing was played yet. */
  predicate Waiting(c: Config, s: Jitter, ts: uint32, p: Packet, k: nat) {
    s.packets == map[ts := p] && s.needBuffering && s.next == ts - c.step * k
  }

  lemma OneOutput(c: Config, s: Jitter, ts: uint32, p: Packet, capacity: nat, k: nat)
    requires c.step > 0 && Waiting(c, s, ts, p, k) && |p.data| <= capacity
    ensures var o := HandleOutput(c, s, {}, capacity, 0, true);
            if k == 0 then o.result == Found(p)
            else o.result == Buffering && Waiting(c, o.state, ts, p, k - 1)
  {
    assert |s.packets| == |s.packets.Keys| == 1;
    assert k > 0 ==> c.step * k == c.step * (k - 1) + c.step && c.step * (k - 1) >= 0;
    assert s.packets - {} == s.packets;
  }

  lemma FirstPut(c: Config, s: Jitter, ts: uint32, p: Packet)
    requires Sound(c, s) && s.packets == map[] && s.wasReset && s.needBuffering && |p.data| <= SLOT_SIZE
    ensures !MustEvict(c, Prepared(c, s, ts).packets)
    ensures Waiting(c, Put(c, s, ts, p), ts, p, s.minDelay)
  {
    assert Purged(s.packets, ts - c.step * s.minDelay) == map[];
  }

  /** A packet put into a cleared buffer waits exactly `minDelay` outputs. */
  lemma {:induction false} FirstPacketWaits(c: Config, s: Jitter, ts: uint32, p: Packet, capacity: nat, n: nat)
    requires Sound(c, s) && s.packets == map[] && s.wasReset && s.needBuffering
    requires |p.data| <= SLOT_SIZE && |p.data| <= capacity && 0 < n <= s.minDelay + 1
    ensures !MustEvict(c, Prepared(c, s, ts).packets)
    ensures var (r, result) := Outputs(c, Put(c, s, ts, p), capacity, n);
            if n <= s.minDelay then result == Buffering && Waiting(c, r, ts, p, s.minDelay - n)
            else result == Found(p)
  {
    hide Put, HandleOutput, Prepared, Waiting;
    FirstPut(c, s, ts, p);
    if n == 1 {
      OneOutput(c, Put(c, s, ts, p), ts, p, capacity, s.minDelay);
    } else {
      FirstPacketWaits(c, s, ts, p, capacity, n - 1);
      OneOutput(c, Outputs(c, Put(c, s, ts, p), capacity, n - 1).0, ts, p, capacity, s.minDelay - (n - 1));
    }
  }
}
