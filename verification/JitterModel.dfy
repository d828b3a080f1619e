/** The jitter buffer as a bounded map from timestamps to packets with a playout cursor.
    The class with its slot array is proved against these functions. */
module JitterModel {
  import opened SequenceNumbers
  import opened Bytes
  import opened HistoricBufferModel

  const SLOT_COUNT: nat := 64
  const SLOT_SIZE: nat := 1024
  const HISTORY: nat := 64
  const LAST_TIMESTAMP: uint32 := 0xFFFF_FFFF

  datatype Packet = Packet(data: bytes, isEC: bool)

  datatype Config = Config(
    step: nat,
    maxMinDelay: nat,
    maxUsedSlots: nat,
    lossesToReset: nat,
    resyncThreshold: real)

  datatype Jitter = Jitter(
    packets: map<uint32, Packet>,
    next: int,               // the timestamp to play next
    minDelay: nat,
    minMinDelay: nat,
    lastPut: uint32,
    lostCount: nat,
    lostSinceReset: nat,
    gotSinceReset: nat,
    wasReset: bool,          // the next packet stored places the cursor anew
    needBuffering: bool,
    first: bool,             // no output since the cursor was placed
    late: nat,
    lateHistory: seq<int>,
    delayHistory: seq<int>,
    dontInc: nat,
    dontDec: nat,
    dontChange: nat,
    outstanding: int,        // playback time still to be added or taken away
    lostPackets: int)
  {
    predicate Valid() {
      |lateHistory| == HISTORY && |delayHistory| == HISTORY
    }
  }

  function NewJitter(minMinDelay: nat): Jitter {
    Jitter(map[], 0, 6, minMinDelay, 0, 0, 0, 0, true, true, true, 0,
           Blank(HISTORY), Blank(HISTORY), 0, 0, 0, 0, 0)
  }

  /** `Advance` */
  function Advanced(c: Config, s: Jitter): Jitter {
    s.(next := s.next + c.step)
  }

  function WasReset(s: Jitter): Jitter {
    s.(packets := map[], wasReset := true, needBuffering := true, lastPut := 0,
       lateHistory := Blank(HISTORY), delayHistory := Blank(HISTORY),
       lostSinceReset := 0, gotSinceReset := 0, outstanding := 0, dontChange := 0)
  }

  // ------------------------------------------------------------------------ input

  function CountedIn(s: Jitter): Jitter {
    s.(gotSinceReset := s.gotSinceReset + 1)
  }

  function Resynced(c: Config, s: Jitter, ts: uint32): Jitter {
    if s.wasReset then
      s.(wasReset := false, outstanding := 0, first := true, next := ts - c.step * s.minDelay)
    else s
  }

  function Purged(packets: map<uint32, Packet>, next: int): map<uint32, Packet> {
    map t | t in packets && t >= next - 1 :: packets[t]
  }

  function CountedLate(s: Jitter, ts: uint32): Jitter {
    var s1 := if ts < s.next then s.(late := s.late + 1, lostPackets := s.lostPackets - 1) else s;
    if ts > s1.lastPut then s1.(lastPut := ts) else s1
  }

  predicate MustEvict(c: Config, packets: map<uint32, Packet>) {
    |packets| == SLOT_COUNT || |packets| >= c.maxUsedSlots
  }

  /** The scan for a victim starts from the largest timestamp with a strict comparison,
      so it never finds a packet that carries the largest timestamp itself. */
  ghost predicate IsVictim(packets: map<uint32, Packet>, t: uint32) {
    t in packets && t < LAST_TIMESTAMP && forall u :: u in packets ==> t <= u
  }

  ghost predicate HasVictim(packets: map<uint32, Packet>) {
    exists t :: IsVictim(packets, t)
  }

  ghost function Victim(packets: map<uint32, Packet>): uint32
    requires HasVictim(packets)
  {
    var t: uint32 :| IsVictim(packets, t);
    t
  }

  /** Two packets waiting are enough for the victim scan to find one. */
  lemma TwoPacketsHaveAVictim(packets: map<uint32, Packet>, oldest: uint32)
    requires oldest in packets && forall t :: t in packets ==> oldest <= t
    requires |packets| >= 2
    ensures IsVictim(packets, oldest)
  {
    assert |packets| == |packets.Keys|;
    assert packets.Keys != {LAST_TIMESTAMP};
    assert oldest == LAST_TIMESTAMP ==> packets.Keys == {oldest};
  }

  lemma {:induction false} OldestExists(keys: set<uint32>) returns (oldest: uint32)
    requires keys != {}
    ensures oldest in keys && forall t :: t in keys ==> oldest <= t
  {
    var t :| t in keys;
    oldest := t;
    if keys != {t} {
      assert keys == {t} + (keys - {t});
      var o := OldestExists(keys - {t});
      oldest := if o < t then o else t;
    }
  }

  /** A full buffer has a packet to give up whatever it holds, exactly when it may hold two. */
  lemma EvictionNeedsTwoSlots(c: Config)
    ensures (forall packets: map<uint32, Packet> {:trigger MustEvict(c, packets)} ::
               MustEvict(c, packets) ==> HasVictim(packets)) <==> c.maxUsedSlots >= 2
  {
    if c.maxUsedSlots >= 2 {
      forall packets: map<uint32, Packet> | MustEvict(c, packets) ensures HasVictim(packets) {
        assert |packets| == |packets.Keys|;
        var oldest := OldestExists(packets.Keys);
        TwoPacketsHaveAVictim(packets, oldest);
      }
    } else {
      var only := map[LAST_TIMESTAMP := Packet([], false)];
      assert |only| == |only.Keys| == 1;
      assert MustEvict(c, only) && !HasVictim(only);
    }
  }

  ghost function RoomMade(c: Config, s: Jitter): Jitter
    requires MustEvict(c, s.packets) ==> HasVictim(s.packets)
  {
    if MustEvict(c, s.packets)
    then Advanced(c, s).(packets := s.packets - {Victim(s.packets)})
    else s
  }

  /** The buffer when a packet with a new timestamp is about to be given a slot. */
  function Prepared(c: Config, s: Jitter, ts: uint32): Jitter {
    var s1 := Resynced(c, CountedIn(s), ts);
    CountedLate(s1.(packets := Purged(s1.packets, s1.next)), ts)
  }

  predicate TakesSlot(s: Jitter, ts: uint32, p: Packet) {
    |p.data| <= SLOT_SIZE && ts !in s.packets
  }

  ghost function Put(c: Config, s: Jitter, ts: uint32, p: Packet): Jitter
    requires (TakesSlot(s, ts, p) && MustEvict(c, Prepared(c, s, ts).packets)) ==>
             HasVictim(Prepared(c, s, ts).packets)
  {
    if |p.data| > SLOT_SIZE then s
    else if ts in s.packets then
      if p.isEC then s else s.(packets := s.packets[ts := p])
    else
      var r := RoomMade(c, Prepared(c, s, ts));
      r.(packets := r.packets[ts := p])
  }

  /** A packet that needs a slot gets one. */
  ghost predicate FindsRoom(c: Config, s: Jitter, ts: uint32, p: Packet) {
    TakesSlot(s, ts, p) && MustEvict(c, Prepared(c, s, ts).packets) ==> HasVictim(Prepared(c, s, ts).packets)
  }

  ghost predicate AllFindRoom(c: Config, s: Jitter, puts: seq<(uint32, Packet)>)
    decreases |puts|
  {
    puts == [] ||
    (FindsRoom(c, s, puts[0].0, puts[0].1) && AllFindRoom(c, Put(c, s, puts[0].0, puts[0].1), puts[1..]))
  }

  lemma {:induction false} TwoSlotsAreEnough(c: Config, s: Jitter, puts: seq<(uint32, Packet)>)
    requires c.maxUsedSlots >= 2
    ensures AllFindRoom(c, s, puts)
    decreases |puts|
  {
    hide Put, Prepared, MustEvict, HasVictim;
    if puts != [] {
      EvictionNeedsTwoSlots(c);
      TwoSlotsAreEnough(c, Put(c, s, puts[0].0, puts[0].1), puts[1..]);
    }
  }

  /** With one slot, a packet with the largest timestamp keeps it for ever. */
  lemma OneSlotIsStuck(c: Config, minMinDelay: nat, p: Packet)
    requires c.maxUsedSlots == 1 && p == Packet([], false)
    ensures var s0 := NewJitter(minMinDelay);
            && FindsRoom(c, s0, LAST_TIMESTAMP, p)
            && !FindsRoom(c, Put(c, s0, LAST_TIMESTAMP, p), 0, p)
  {
    var s0 := NewJitter(minMinDelay);
    assert Purged(s0.packets, LAST_TIMESTAMP - c.step * s0.minDelay) == map[];
    var s1 := Put(c, s0, LAST_TIMESTAMP, p);
    assert s1.packets == map[LAST_TIMESTAMP := p];
    assert c.step * s0.minDelay >= 0;
    assert Purged(s1.packets, s1.next) == s1.packets;
    assert |s1.packets| == |s1.packets.Keys| == 1;
  }

  /** A buffer that starts empty finds room for every packet that is ever put, exactly when
      it may hold two.  Otherwise the scan can end without a slot. */
  lemma {:induction false} EveryPutFindsRoom(c: Config, minMinDelay: nat)
    ensures (forall puts :: AllFindRoom(c, NewJitter(minMinDelay), puts)) <==> c.maxUsedSlots >= 2
  {
    hide Put, FindsRoom;
    var s0, p := NewJitter(minMinDelay), Packet([], false);
    if c.maxUsedSlots >= 2 {
      forall puts ensures AllFindRoom(c, s0, puts) { TwoSlotsAreEnough(c, s0, puts); }
    } else {
      var puts := SomePutFindsNone(c, minMinDelay, p);
    }
  }

  lemma {:induction false} SomePutFindsNone(c: Config, minMinDelay: nat, p: Packet) returns (puts: seq<(uint32, Packet)>)
    requires c.maxUsedSlots < 2 && p == Packet([], false)
    ensures !AllFindRoom(c, NewJitter(minMinDelay), puts)
  {
    hide Put, FindsRoom;
    if c.maxUsedSlots == 0 {
      NoSlotIsStuck(c, minMinDelay, p);
      puts := [(0, p)];
    } else {
      OneSlotIsStuck(c, minMinDelay, p);
      var s1 := Put(c, NewJitter(minMinDelay), LAST_TIMESTAMP, p);
      puts := [(LAST_TIMESTAMP, p), (0, p)];
      var rest: seq<(uint32, Packet)> := [(0, p)];
      assert puts[1..] == rest && rest[0] == (0, p) && !AllFindRoom(c, s1, rest);
    }
  }

  lemma NoSlotIsStuck(c: Config, minMinDelay: nat, p: Packet)
    requires c.maxUsedSlots == 0 && p == Packet([], false)
    ensures !FindsRoom(c, NewJitter(minMinDelay), 0, p)
  {
    var s0 := NewJitter(minMinDelay);
    assert Purged(s0.packets, 0 - c.step * s0.minDelay) == map[];
    assert Prepared(c, s0, 0).packets == map[];
  }

  // ----------------------------------------------------------------------- output

  /** `Unread`: found, but the caller's memory is too small to copy it. */
  datatype Result = Found(packet: Packet) | Unread | Missing | Buffering

  predicate LosesTooMuch(c: Config, s: Jitter) {
    || s.lostCount >= c.lossesToReset
    || (s.gotSinceReset > s.minDelay * 25 && s.lostSinceReset > s.gotSinceReset / 2)
  }

  function CountedLost(s: Jitter, offset: int): Jitter {
    var s1 := s.(lostCount := s.lostCount + 1);
    if offset == 0
    then s1.(lostPackets := s.lostPackets + 1, lostSinceReset := s.lostSinceReset + 1)
    else s1
  }

  /** The cursor moves back by a number of packets where it counts time. */
  function GivenUp(s: Jitter): Jitter {
    WasReset(s.(dontInc := 16, dontDec := s.dontDec + 128, lostCount := 0,
                next := if |s.packets| < s.minDelay then s.next - (s.minDelay - |s.packets|) else s.next))
  }

  function Lost(c: Config, s: Jitter, offset: int): Jitter {
    var s1 := CountedLost(s, offset);
    if LosesTooMuch(c, s1) then GivenUp(s1) else s1
  }

  function Target(c: Config, s: Jitter, offset: int): int {
    s.next + offset * c.step
  }

  /** A timestamp as the integers see it: `t` names a packet only if it is in range. */
  predicate Holds(packets: map<uint32, Packet>, t: int) {
    0 <= t < MODULUS && t in packets
  }

  function Taken(c: Config, s: Jitter, t: uint32, offset: int): Jitter {
    var s1 := s.(packets := s.packets - {t}, lostCount := 0, needBuffering := false);
    if offset == 0 then Advanced(c, s1) else s1
  }

  function Get(c: Config, s: Jitter, capacity: nat, offset: int, advance: bool): (Jitter, Result) {
    var t := Target(c, s, offset);
    if Holds(s.packets, t) then
      (Taken(c, s, t, offset), if capacity < |s.packets[t].data| then Unread else Found(s.packets[t]))
    else
      var s1 := if advance then Advanced(c, s) else s;
      if s.needBuffering then (s1, Buffering) else (Lost(c, s1, offset), Missing)
  }

  /** The positions the cursor leaves in `n` advances. */
  function Passed(next: int, step: nat, n: nat): set<int> {
    if n == 0 then {} else Passed(next, step, n - 1) + {next + step * (n - 1)}
  }

  lemma {:induction false} PassedIsBehind(next: int, step: nat, n: nat, t: int)
    requires step > 0 && t in Passed(next, step, n)
    ensures next <= t < next + step * n
  {
    assert step * n == step * (n - 1) + step;
    if t != next + step * (n - 1) {
      PassedIsBehind(next, step, n - 1, t);
    }
  }

  /** The cursor after `n` advances. */
  function Forward(next: int, step: nat, n: nat): int {
    next + step * n
  }

  /** How far the first output moves the cursor when too much waits. */
  function StartAdvances(s: Jitter): nat {
    if s.first && |s.packets| > 5 && |s.packets| > s.minDelay then |s.packets| - s.minDelay else 0
  }

  /** A first output may only drop packets the cursor passes; which of them it does drop
      depends on the order of the slots. */
  predicate Droppable(c: Config, s: Jitter, dropped: set<uint32>) {
    forall t :: t in dropped ==> t in s.packets && t in Passed(s.next, c.step, StartAdvances(s))
  }

  function Started(c: Config, s: Jitter, dropped: set<uint32>): Jitter {
    s.(packets := s.packets - dropped, next := Forward(s.next, c.step, StartAdvances(s)), first := false)
  }

  const SHORT := 40
  const NORMAL := 60
  const LONG := 80

  function Scaled(s: Jitter, advance: bool): (Jitter, int) {
    if s.outstanding < 0 then (s.(outstanding := s.outstanding + 20), SHORT)
    else if s.outstanding > 0 then (s.(outstanding := s.outstanding - 20), LONG)
    else (s, if advance && |s.packets| == 0 then LONG else NORMAL)
  }

  datatype Output = Output(state: Jitter, result: Result, duration: int)

  function HandleOutput(c: Config, s: Jitter, dropped: set<uint32>, capacity: nat, offset: int, advance: bool): Output {
    var (s1, r) := Get(c, Started(c, s, dropped), capacity, offset, advance);
    var (s2, d) := Scaled(s1, advance);
    Output(s2, r, d)
  }

  // ------------------------------------------------------------------------- ticks

  function Clamped(c: Config, s: Jitter, measured: nat): nat {
    var atLeast := if measured < s.minMinDelay then s.minMinDelay else measured;
    if atLeast > c.maxMinDelay then c.maxMinDelay else atLeast
  }

  function DelayAdjusted(s: Jitter, target: nat): Jitter {
    if target > s.minDelay then
      if s.dontInc == 0
      then s.(minDelay := s.minDelay + 1, outstanding := s.outstanding + 60,
              dontChange := s.dontChange + 32, dontDec := 100, dontInc := 25)
      else s.(dontDec := 100)
    else if target < s.minDelay && s.dontDec == 0 then
      s.(minDelay := s.minDelay - 1, outstanding := s.outstanding - 60,
         dontChange := s.dontChange + 32, dontDec := 25)
    else s
  }

  function PlayoutAdjusted(s: Jitter, avgDelay: real): Jitter {
    if s.dontChange > 0 then s
    else if avgDelay > s.minDelay as real + 0.5 then
      s.(outstanding := s.outstanding - (if avgDelay > s.minDelay as real + 2.0 then 60 else 20),
         dontChange := s.dontChange + 10)
    else if avgDelay < s.minDelay as real - 0.3 then
      s.(outstanding := s.outstanding + 20, dontChange := s.dontChange + 10)
    else s
  }

  function Less(n: nat): nat {
    if n > 0 then n - 1 else 0
  }

  /** The largest entry is 0. */
  predicate NoneLate(history: seq<int>) {
    0 in history && forall x :: x in history ==> x <= 0
  }

  function Measured(c: Config, s: Jitter): (r: Jitter)
    requires s.Valid()
    ensures r.Valid()
  {
    var lates := Remembered(s.lateHistory, s.late);
    s.(late := 0,
       lateHistory := lates,
       delayHistory := Remembered(s.delayHistory, |s.packets|),
       wasReset := s.wasReset || AverageOf(lates, 16) >= c.resyncThreshold,
       dontDec := if NoneLate(lates) then Less(s.dontDec) else s.dontDec)
  }

  /** `measured` is the delay that the deviation of arrival times asks for. */
  function Tick(c: Config, s: Jitter, measured: nat): Jitter
    requires s.Valid()
  {
    var s1 := Measured(c, s);
    var s2 := DelayAdjusted(s1, Clamped(c, s1, measured));
    var s3 := PlayoutAdjusted(s2, AverageOf(s1.delayHistory, 32));
    s3.(dontChange := Less(s3.dontChange))
  }

  /** What `GetAndResetLostPacketCount` leaves; it returns the count, which can be negative. */
  function Reported(s: Jitter): Jitter {
    s.(lostPackets := 0)
  }

  function SetMinPacketCount(s: Jitter, count: nat): Jitter {
    s.(minDelay := count, minMinDelay := count)
  }
}
