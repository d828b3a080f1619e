/** The jitter buffer with its slot array and its buffer pool, changed in place. */
module JitterBufferModel {
  import opened SequenceNumbers
  import opened Bytes
  import opened Options
  import opened Sets
  import opened BufferPoolModel
  import opened HistoricBufferModel
  import opened JitterModel
  import opened JitterStorage

  /** The first slot that carries timestamp `t` is an empty one. */
  predicate Shadowed(slots: seq<Slot>, t: uint32) {
    exists i :: 0 <= i < |slots| && slots[i].timestamp == t && slots[i].buffer.None? &&
                forall j :: 0 <= j < i ==> slots[j].timestamp != t
  }

  lemma ShadowedAgrees(a: seq<Slot>, b: seq<Slot>, t: uint32)
    requires |a| == |b|
    requires forall i :: 0 <= i < |a| ==> a[i].timestamp == b[i].timestamp && (a[i].timestamp == t ==> a[i] == b[i])
    ensures Shadowed(a, t) == Shadowed(b, t)
  {
    if Shadowed(a, t) {
      var i :| 0 <= i < |a| && a[i].timestamp == t && a[i].buffer.None? && forall j :: 0 <= j < i ==> a[j].timestamp != t;
      assert b[i] == a[i];
    }
    if Shadowed(b, t) {
      var i :| 0 <= i < |b| && b[i].timestamp == t && b[i].buffer.None? && forall j :: 0 <= j < i ==> b[j].timestamp != t;
      assert a[i] == b[i];
    }
  }

  /** A first output drops exactly the packets the cursor passes that are not shadowed. */
  ghost predicate DropsUnshadowed(c: Config, s: Jitter, slots: seq<Slot>, dropped: set<uint32>) {
    forall t :: t in s.packets && t in Passed(s.next, c.step, StartAdvances(s)) ==>
      (t in dropped <==> !Shadowed(slots, t))
  }

  /** The same after `k` advances, with what is left in the slots. */
  ghost predicate DropProgress(was: seq<Slot>, s: Jitter, step: nat, k: nat,
                               slots: seq<Slot>, packets: map<uint32, Packet>, dropped: set<uint32>) {
    && packets == s.packets - dropped && |slots| == |was|
    && (forall t :: t in dropped ==> t in s.packets && t in Passed(s.next, step, k))
    && (forall t :: t in s.packets && t in Passed(s.next, step, k) ==> (t in dropped <==> !Shadowed(was, t)))
    && (forall j :: 0 <= j < |was| ==> slots[j].timestamp == was[j].timestamp)
    && (forall j :: 0 <= j < |was| && was[j].timestamp >= s.next + step * k ==> slots[j] == was[j])
  }

  lemma DropStep(was: seq<Slot>, s: Jitter, step: nat, k: nat,
                 slots: seq<Slot>, packets: map<uint32, Packet>, dropped: set<uint32>,
                 slots1: seq<Slot>, gone: set<uint32>)
    requires DropProgress(was, s, step, k, slots, packets, dropped) && step > 0
    requires forall t :: t in gone <==> t in packets && t == s.next + step * k && !Shadowed(slots, t)
    requires |slots1| == |slots|
    requires forall j :: 0 <= j < |slots| ==> slots1[j].timestamp == slots[j].timestamp
    requires forall j :: 0 <= j < |slots| && slots1[j].timestamp != s.next + step * k ==> slots1[j] == slots[j]
    ensures DropProgress(was, s, step, k + 1, slots1, packets - gone, dropped + gone)
  {
    hide Shadowed;
    var here := s.next + step * k;
    forall t | t in Passed(s.next, step, k) ensures t < here { PassedIsBehind(s.next, step, k, t); }
    if 0 <= here < MODULUS {
      ShadowedAgrees(slots, was, here);
    }
    assert s.next + step * (k + 1) == here + step;
    assert Passed(s.next, step, k + 1) == Passed(s.next, step, k) + {here};
  }

  lemma NothingDropped(slots: seq<Slot>, s: Jitter, step: nat)
    ensures DropProgress(slots, s, step, 0, slots, s.packets, {}) && Forward(s.next, step, 0) == s.next
  {
    hide Shadowed;
    assert s.packets - {} == s.packets;
  }

  lemma DropDone(c: Config, was: seq<Slot>, s: Jitter, slots: seq<Slot>, packets: map<uint32, Packet>, dropped: set<uint32>)
    requires DropProgress(was, s, c.step, StartAdvances(s), slots, packets, dropped)
    ensures Droppable(c, s, dropped) && DropsUnshadowed(c, s, was, dropped) && packets == s.packets - dropped
  {
    hide Shadowed, Passed, StartAdvances;
  }

  class JitterBuffer {
    const config: Config
    const slots: array<Slot>
    const pool: BufferPool
    const lateHistory: HistoricBuffer
    const delayHistory: HistoricBuffer
    var nextTimestamp: int
    var minDelay: nat
    var minMinDelay: nat
    var lastPutTimestamp: uint32
    var lostCount: nat
    var lostSinceReset: nat
    var gotSinceReset: nat
    var wasReset: bool
    var needBuffering: bool
    var first: bool
    var latePacketCount: nat
    var dontIncMinDelay: nat
    var dontDecMinDelay: nat
    var dontChangeDelay: nat
    var outstandingDelayChange: int
    var lostPackets: int
    ghost var packets: map<uint32, Packet>

    // ------------------------------------------------------------------ invariant

    ghost predicate Stores()
      reads this`packets, slots, pool, pool.memory
    {
      && slots.Length == SLOT_COUNT && pool.Valid() && pool.bufferCount == SLOT_COUNT
      && Storage(slots[..], pool.memory[..], packets, Owned(pool.usedBuffers, SLOT_COUNT))
    }

    ghost predicate Remembers()
      reads lateHistory, delayHistory
    {
      && lateHistory.Valid() && lateHistory.data.Length == HISTORY
      && delayHistory.Valid() && delayHistory.data.Length == HISTORY
      && lateHistory != delayHistory && lateHistory.data != delayHistory.data
    }

    ghost predicate Valid()
      reads this`packets, slots, pool, pool.memory, lateHistory, delayHistory
    {
      && config.step > 0 && config.maxUsedSlots >= 2
      && Stores() && Remembers() && |packets| <= config.maxUsedSlots
    }

    lemma PartsOfValid()
      ensures Valid() <==>
              && config.step > 0 && config.maxUsedSlots >= 2
              && Stores() && Remembers() && |packets| <= config.maxUsedSlots
      ensures Stores() ==> slots.Length == SLOT_COUNT
    {
    }

    ghost function View(): Jitter
      requires lateHistory.Valid() && delayHistory.Valid()
      reads this, lateHistory, lateHistory.data, delayHistory, delayHistory.data
    {
      Jitter(packets, nextTimestamp, minDelay, minMinDelay, lastPutTimestamp, lostCount, lostSinceReset,
             gotSinceReset, wasReset, needBuffering, first, latePacketCount,
             lateHistory.History(), delayHistory.History(),
             dontIncMinDelay, dontDecMinDelay, dontChangeDelay, outstandingDelayChange, lostPackets)
    }

    /** The server's settings choose the limits by the length of a step. */
    constructor (settings: Config, minMinDelay: nat)
      requires settings.step > 0 && settings.maxUsedSlots >= 2
      ensures Valid() && config == settings && View() == NewJitter(minMinDelay)
      ensures fresh(slots) && fresh(pool) && fresh(pool.memory)
      ensures fresh(lateHistory) && fresh(lateHistory.data) && fresh(delayHistory) && fresh(delayHistory.data)
    {
      config := settings;
      slots := new Slot[SLOT_COUNT](_ => Slot(None, 0, 0, false));
      pool := new BufferPool(SLOT_COUNT, SLOT_SIZE);
      lateHistory := new HistoricBuffer(HISTORY);
      delayHistory := new HistoricBuffer(HISTORY);
      nextTimestamp := 0;
      minDelay := 6;
      this.minMinDelay := minMinDelay;
      lastPutTimestamp := 0;
      lostCount, lostSinceReset, gotSinceReset := 0, 0, 0;
      wasReset, needBuffering, first := true, true, true;
      latePacketCount := 0;
      dontIncMinDelay, dontDecMinDelay, dontChangeDelay := 0, 0, 0;
      outstandingDelayChange := 0;
      lostPackets := 0;
      packets := map[];
      new;
      assert Timestamps(slots[..]) == {} && Buffers(slots[..]) == {};
    }

    // ---------------------------------------------------------------------- slots

    method GetCurrentDelay() returns (delay: nat)
      requires Stores()
      ensures delay == |packets|
    {
      delay := 0;
      var i := 0;
      while i < slots.Length
        invariant 0 <= i <= slots.Length
        invariant delay == Occupied(slots[..i])
      {
        assert slots[..i + 1][..i] == slots[..i];
        if slots[i].buffer.Some? {
          delay := delay + 1;
        }
        i := i + 1;
      }
      assert slots[..slots.Length] == slots[..];
      StorageCounts(slots[..], pool.memory[..], packets, Owned(pool.usedBuffers, SLOT_COUNT));
    }

    /** The occupied slot with timestamp `t`, or the number of slots. */
    method FindPacket(t: int) returns (i: nat)
      requires Stores()
      ensures i <= SLOT_COUNT
      ensures i < SLOT_COUNT <==> Holds(packets, t)
      ensures i < SLOT_COUNT ==> slots[i].buffer.Some? && slots[i].timestamp == t
    {
      i := 0;
      while i < slots.Length
        invariant 0 <= i <= slots.Length
        invariant forall k :: 0 <= k < i ==> !(slots[k].buffer.Some? && slots[k].timestamp == t)
      {
        if slots[i].buffer.Some? && slots[i].timestamp == t {
          Member(slots[..], i);
          return;
        }
        i := i + 1;
      }
      assert Holds(packets, t) <==> t in Timestamps(slots[..]);
    }

    method FreeSlot(i: nat)
      requires Stores() && i < slots.Length && slots[i].buffer.Some?
      modifies this`packets, slots, pool`usedBuffers
      ensures Stores()
      ensures slots[..] == Freed(old(slots[..]), i)
      ensures packets == old(packets) - {slots[i].timestamp}
    {
      hide Timestamps, Buffers, Distinct, Backed, Used;
      FreeingTakesThePacket(slots[..], pool.memory[..], packets, Owned(pool.usedBuffers, SLOT_COUNT), i);
      assert slots[i].buffer.value < SLOT_COUNT by { assert Backed(slots[..], pool.memory[..]); InRange(i); }
      pool.Reuse(slots[i].buffer.value);
      packets := packets - {slots[i].timestamp};
      slots[i] := slots[i].(buffer := None);
    }

    lemma InRange(i: nat)
      requires slots.Length == SLOT_COUNT && Backed(slots[..], pool.memory[..])
      requires i < slots.Length && slots[i].buffer.Some?
      ensures slots[i].buffer.value < SLOT_COUNT && slots[i].size <= SLOT_SIZE
      ensures pool.memory.Length == SLOT_COUNT
      ensures |pool.memory[slots[i].buffer.value]| == SLOT_SIZE
    {
      assert slots[..][i] == slots[i];
      assert pool.memory[..][slots[i].buffer.value] == pool.memory[slots[i].buffer.value];
    }

    method Advance()
      modifies this`nextTimestamp
      ensures nextTimestamp == old(nextTimestamp) + config.step
    {
      nextTimestamp := nextTimestamp + config.step;
    }

    method FreeAll()
      requires Stores()
      modifies this`packets, slots, pool`usedBuffers
      ensures Stores() && packets == map[]
    {
      var i := 0;
      while i < slots.Length
        invariant 0 <= i <= slots.Length && Stores()
        invariant forall k :: 0 <= k < i ==> slots[k].buffer.None?
      {
        if slots[i].buffer.Some? {
          FreeSlot(i);
        }
        i := i + 1;
      }
      assert Timestamps(slots[..]) == {};
    }

    method ForgetHistory()
      requires Remembers()
      modifies lateHistory`offset, lateHistory.data, delayHistory`offset, delayHistory.data
      ensures Remembers()
      ensures lateHistory.History() == Blank(HISTORY) && delayHistory.History() == Blank(HISTORY)
    {
      delayHistory.Reset();
      lateHistory.Reset();
    }

    method ClearCounters()
      requires Remembers()
      modifies this`wasReset, this`needBuffering, this`lastPutTimestamp, this`lostSinceReset, this`gotSinceReset
      modifies this`outstandingDelayChange, this`dontChangeDelay
      ensures wasReset && needBuffering && lastPutTimestamp == 0 && lostSinceReset == 0 && gotSinceReset == 0
      ensures outstandingDelayChange == 0 && dontChangeDelay == 0
    {
      wasReset, needBuffering, lastPutTimestamp := true, true, 0;
      lostSinceReset := 0;
      gotSinceReset := 0;
      outstandingDelayChange := 0;
      dontChangeDelay := 0;
    }

    method Reset()
      requires Valid()
      modifies this, slots, pool`usedBuffers
      modifies lateHistory`offset, lateHistory.data, delayHistory`offset, delayHistory.data
      ensures Valid()
      ensures View() == WasReset(old(View()))
    {
      hide Storage, Owned, HistoricBuffer.History, Stores, Blank, HistoricBuffer.Valid, Remembers, Valid;
      PartsOfValid();
      FreeAll();
      ForgetHistory();
      ClearCounters();
      PartsOfValid();
    }

    // ---------------------------------------------------------------------- input

    /** Frees every packet more than one unit behind the cursor. */
    method Purge()
      requires Stores()
      modifies this`packets, slots, pool`usedBuffers
      ensures Stores()
      ensures packets == Purged(old(packets), nextTimestamp)
      ensures packets.Keys <= old(packets.Keys) && |packets| <= |old(packets)|
    {
      hide Storage, Owned, HistoricBuffer.History;
      ghost var was := packets;
      var i := 0;
      while i < slots.Length
        invariant 0 <= i <= slots.Length && Stores()
        invariant forall t :: t in packets ==> t in was && packets[t] == was[t]
        invariant forall t :: t in was && t !in packets ==> t < nextTimestamp - 1
        invariant forall k :: 0 <= k < i && slots[k].buffer.Some? ==> slots[k].timestamp >= nextTimestamp - 1
      {
        if slots[i].buffer.Some? && slots[i].timestamp < nextTimestamp - 1 {
          FreeSlot(i);
        }
        i := i + 1;
      }
      OnlyOccupied(nextTimestamp - 1);
      SubsetSize(packets.Keys, was.Keys);
      assert |packets| == |packets.Keys| && |was| == |was.Keys|;
    }

    lemma OnlyOccupied(bound: int)
      requires Stores()
      requires forall k :: 0 <= k < slots.Length && slots[k].buffer.Some? ==> slots[k].timestamp >= bound
      ensures forall t :: t in packets ==> t >= bound
    {
      forall t | t in packets ensures t >= bound {
        assert t in Timestamps(slots[..]);
      }
    }

    static lemma GivesUpVictim(c: Config, packets: map<uint32, Packet>, t: uint32)
      requires IsVictim(packets, t)
      ensures HasVictim(packets) && Victim(packets) == t && |packets - {t}| == |packets| - 1
    {
      assert (packets - {t}).Keys == packets.Keys - {t};
      assert |packets - {t}| == |(packets - {t}).Keys| && |packets| == |packets.Keys|;
    }

    /** An empty slot for a new packet; the oldest packet gives up its slot if it must. */
    method MakeRoom() returns (i: nat)
      requires Valid()
      modifies this`packets, this`nextTimestamp, slots, pool`usedBuffers
      ensures Valid() && i < slots.Length && slots[i].buffer.None?
      ensures |packets| < config.maxUsedSlots
      ensures MustEvict(config, old(packets)) ==> HasVictim(old(packets))
      ensures packets == if MustEvict(config, old(packets)) then old(packets) - {Victim(old(packets))} else old(packets)
      ensures nextTimestamp == old(nextTimestamp) + (if MustEvict(config, old(packets)) then config.step else 0)
      ensures packets.Keys <= old(packets.Keys)
    {
      hide HistoricBuffer.History, Stores, Remembers, Valid, IsVictim, HasVictim, Victim;
      PartsOfValid();
      i := FindEmpty();
      var delay := GetCurrentDelay();
      if i == slots.Length || delay >= config.maxUsedSlots {
        i := FindOldest();
        GivesUpVictim(config, packets, slots[i].timestamp);
        Advance();
        FreeSlot(i);
      }
      PartsOfValid();
    }

    method FindEmpty() returns (i: nat)
      requires Stores()
      ensures i <= slots.Length
      ensures i < slots.Length ==> slots[i].buffer.None?
      ensures i < slots.Length <==> |packets| < SLOT_COUNT
      ensures |packets| <= SLOT_COUNT
    {
      i := 0;
      while i < slots.Length && slots[i].buffer.Some?
        invariant 0 <= i <= slots.Length
        invariant forall k :: 0 <= k < i ==> slots[k].buffer.Some?
      {
        i := i + 1;
      }
      StorageCounts(slots[..], pool.memory[..], packets, Owned(pool.usedBuffers, SLOT_COUNT));
      if i < slots.Length {
        OccupiedBound(slots[..], i);
      } else {
        AllOccupied(slots[..]);
      }
    }

    method FindOldest() returns (toRemove: nat)
      requires Valid() && MustEvict(config, packets)
      ensures toRemove < slots.Length && slots[toRemove].buffer.Some?
      ensures IsVictim(packets, slots[toRemove].timestamp)
    {
      toRemove := slots.Length;
      var bestTimestamp: uint32 := LAST_TIMESTAMP;
      var i := 0;
      while i < slots.Length
        invariant 0 <= i <= slots.Length
        invariant toRemove < i || (toRemove == slots.Length && bestTimestamp == LAST_TIMESTAMP)
        invariant toRemove < i ==> slots[toRemove].buffer.Some? && slots[toRemove].timestamp == bestTimestamp
        invariant forall k :: 0 <= k < i && slots[k].buffer.Some? ==> bestTimestamp <= slots[k].timestamp
      {
        if slots[i].buffer.Some? && slots[i].timestamp < bestTimestamp {
          toRemove := i;
          bestTimestamp := slots[i].timestamp;
        }
        i := i + 1;
      }
      OnlyOccupied(bestTimestamp);
      if toRemove == slots.Length {
        OnlyLast();
      } else {
        Member(slots[..], toRemove);
        TwoPacketsHaveAVictim(packets, bestTimestamp);
      }
    }

    lemma OnlyLast()
      requires forall t :: t in packets ==> t == LAST_TIMESTAMP
      ensures |packets| <= 1
    {
      assert |packets| == |packets.Keys|;
      assert packets.Keys <= {LAST_TIMESTAMP};
      SubsetSize(packets.Keys, {LAST_TIMESTAMP});
    }

    /** Replaces a stored packet in its own slot and buffer. */
    method Overwrite(i: nat, ts: uint32, p: Packet)
      requires Stores() && i < slots.Length && |p.data| <= SLOT_SIZE
      requires slots[i].buffer.Some? && slots[i].timestamp == ts
      modifies this`packets, slots, pool.memory
      ensures Stores() && packets == old(packets)[ts := p]
    {
      hide Timestamps, Buffers, Distinct, Backed, Used;
      ghost var owned := Owned(pool.usedBuffers, SLOT_COUNT);
      InRange(i);
      var b := slots[i].buffer.value;
      FillingStoresThePacket(slots[..], pool.memory[..], packets, owned, i, b, ts, p);
      Member(slots[..], i);
      assert owned + {b} == owned;
      pool.memory[b] := Overwritten(pool.memory[b], p.data);
      slots[i] := slots[i].(size := |p.data|, isEC := p.isEC);
      packets := packets[ts := p];
    }

    /** Gives a new packet an empty slot and a buffer of the pool. */
    method Fill(i: nat, ts: uint32, p: Packet)
      requires Stores() && i < slots.Length && slots[i].buffer.None?
      requires ts !in packets && |p.data| <= SLOT_SIZE
      modifies this`packets, slots, pool`usedBuffers, pool.memory
      ensures Stores() && packets == old(packets)[ts := p]
    {
      hide Timestamps, Buffers, Distinct, Used;
      ghost var owned := Owned(pool.usedBuffers, SLOT_COUNT);
      StorageCounts(slots[..], pool.memory[..], packets, owned);
      OccupiedBound(slots[..], i);
      var buffer := pool.Get();
      assert buffer.Some?;
      FillingStoresThePacket(slots[..], pool.memory[..], packets, owned, i, buffer.value, ts, p);
      assert slots[..][i] == slots[i];
      slots[i] := Slot(buffer, |p.data|, ts, p.isEC);
      pool.memory[buffer.value] := Overwritten(pool.memory[buffer.value], p.data);
      packets := packets[ts := p];
    }

    /** Counts a packet and, after a reset, places the cursor by it. */
    method Resync(ts: uint32)
      requires Valid()
      modifies this`gotSinceReset, this`wasReset, this`outstandingDelayChange, this`nextTimestamp, this`first
      ensures Valid()
      ensures View() == Resynced(config, CountedIn(old(View())), ts)
    {
      hide Storage, Owned, HistoricBuffer.History, Stores, Remembers, Valid;
      gotSinceReset := gotSinceReset + 1;
      if wasReset {
        wasReset := false;
        outstandingDelayChange := 0;
        nextTimestamp := ts - config.step * minDelay;
        first := true;
      }
    }

    method CountLate(ts: uint32)
      requires Valid()
      modifies this`latePacketCount, this`lostPackets, this`lastPutTimestamp
      ensures Valid()
      ensures View() == CountedLate(old(View()), ts)
    {
      hide Storage, Owned, HistoricBuffer.History, Stores, Remembers, Valid;
      if ts < nextTimestamp {
        latePacketCount := latePacketCount + 1;
        lostPackets := lostPackets - 1;
      } // the test for "more than one unit late" that follows here can never hold
      if ts > lastPutTimestamp {
        lastPutTimestamp := ts;
      }
    }

    /** The part of storing a packet that comes before a slot is looked for. */
    method Prepare(ts: uint32)
      requires Valid()
      modifies this, slots, pool`usedBuffers
      ensures Valid()
      ensures View() == Prepared(config, old(View()), ts)
      ensures packets.Keys <= old(packets.Keys)
    {
      hide Storage, Owned, HistoricBuffer.History, Resynced, CountedLate, Purged, Stores, CountedIn, Remembers;
      Resync(ts);
      Purge();
      CountLate(ts);
    }

    /** Finds a slot for a new packet and fills it. */
    method Store(ts: uint32, p: Packet)
      requires Valid() && ts !in packets && |p.data| <= SLOT_SIZE
      modifies this`packets, this`nextTimestamp, slots, pool`usedBuffers, pool.memory
      ensures Valid()
      ensures MustEvict(config, old(packets)) ==> HasVictim(old(packets))
      ensures var r := RoomMade(config, old(View())); View() == r.(packets := r.packets[ts := p])
    {
      hide HistoricBuffer.History, MustEvict, HasVictim, Victim, Remembers, Stores, Valid;
      var i := MakeRoom();
      PartsOfValid();
      OneMore(packets, ts, p);
      Fill(i, ts, p);
      PartsOfValid();
    }

    static lemma OneMore(m: map<uint32, Packet>, ts: uint32, p: Packet)
      requires ts !in m
      ensures |m[ts := p]| == |m| + 1
    {
      assert m[ts := p].Keys == m.Keys + {ts};
      assert |m| == |m.Keys| && |m[ts := p]| == |m[ts := p].Keys|;
    }

    method PutInternal(ts: uint32, p: Packet, overwriteExisting: bool)
      requires Valid() && overwriteExisting == !p.isEC
      modifies this, slots, pool`usedBuffers, pool.memory
      ensures Valid()
      ensures TakesSlot(old(View()), ts, p) && MustEvict(config, Prepared(config, old(View()), ts).packets) ==>
                HasVictim(Prepared(config, old(View()), ts).packets)
      ensures View() == Put(config, old(View()), ts, p)
    {
      hide HistoricBuffer.History, Prepared, MustEvict, HasVictim, Victim, Remembers, Stores, Valid;
      PartsOfValid();
      if |p.data| > SLOT_SIZE {
        return;
      }
      var found := FindPacket(ts);
      if found < slots.Length {
        if overwriteExisting {
          Overwrite(found, ts, p);
        }
        PartsOfValid();
        return;
      }
      Prepare(ts);
      Store(ts, p);
      PartsOfValid();
    }

    method HandleInput(data: bytes, ts: uint32, isEC: bool)
      requires Valid()
      modifies this, slots, pool`usedBuffers, pool.memory
      ensures Valid()
      ensures var p := Packet(data, isEC);
              && (TakesSlot(old(View()), ts, p) && MustEvict(config, Prepared(config, old(View()), ts).packets) ==>
                   HasVictim(Prepared(config, old(View()), ts).packets))
              && View() == Put(config, old(View()), ts, p)
    {
      PutInternal(ts, Packet(data, isEC), !isEC);
    }

    // --------------------------------------------------------------------- output

    /** Copies the packet in slot `i` if the caller has room for it. */
    method Read(i: nat, capacity: nat) returns (r: Result)
      requires Stores() && i < slots.Length && slots[i].buffer.Some?
      ensures slots[i].timestamp in packets
      ensures var p := packets[slots[i].timestamp];
              r == if capacity < |p.data| then Unread else Found(p)
    {
      hide Owned, Timestamps, Buffers, Distinct, Backed;
      InRange(i);
      assert slots[..][i] == slots[i];
      if capacity < slots[i].size {
        r := Unread;
      } else {
        r := Found(Packet(pool.memory[slots[i].buffer.value][..slots[i].size], slots[i].isEC));
      }
    }

    /** Hands out the packet in slot `i` and frees the slot. */
    method Take(i: nat, capacity: nat, offset: int) returns (r: Result)
      requires Valid() && i < slots.Length && slots[i].buffer.Some?
      modifies this`packets, this`nextTimestamp, this`lostCount, this`needBuffering, slots, pool`usedBuffers
      ensures Valid()
      ensures var t := old(slots[i].timestamp);
              && t in old(packets)
              && r == (if capacity < |old(packets)[t].data| then Unread else Found(old(packets)[t]))
              && packets == old(packets) - {t} && lostCount == 0 && !needBuffering
              && nextTimestamp == if offset == 0 then old(nextTimestamp) + config.step else old(nextTimestamp)
    {
      hide HistoricBuffer.History, Remembers, Stores, Valid;
      PartsOfValid();
      r := Read(i, capacity);
      Fewer(packets, slots[i].timestamp);
      FreeSlot(i);
      if offset == 0 {
        Advance();
      }
      lostCount := 0;
      needBuffering := false;
      PartsOfValid();
    }

    static lemma Fewer(m: map<uint32, Packet>, t: uint32)
      ensures |m - {t}| <= |m|
    {
      SubsetSize((m - {t}).Keys, m.Keys);
      assert |m| == |m.Keys| && |m - {t}| == |(m - {t}).Keys|;
    }

    method CountLost(offset: int)
      requires Valid()
      modifies this`lostCount, this`lostPackets, this`lostSinceReset
      ensures Valid()
      ensures View() == CountedLost(old(View()), offset)
    {
      hide Storage, Owned, HistoricBuffer.History, Stores, Remembers, Valid;
      lostCount := lostCount + 1;
      if offset == 0 {
        lostPackets := lostPackets + 1;
        lostSinceReset := lostSinceReset + 1;
      }
    }

    /** Moves the cursor back by the packets that are missing. */
    method StepBack()
      requires Stores()
      modifies this`nextTimestamp
      ensures nextTimestamp == old(nextTimestamp) - (if |packets| < minDelay then minDelay - |packets| else 0)
    {
      var delay := GetCurrentDelay();
      if delay < minDelay {
        nextTimestamp := nextTimestamp - (minDelay - delay);
      }
    }

    method GiveUp()
      requires Valid()
      modifies this, slots, pool`usedBuffers
      modifies lateHistory`offset, lateHistory.data, delayHistory`offset, delayHistory.data
      ensures Valid()
      ensures View() == GivenUp(old(View()))
    {
      hide HistoricBuffer.History, Blank, Remembers, Stores, Valid;
      PartsOfValid();
      dontIncMinDelay := 16;
      dontDecMinDelay := dontDecMinDelay + 128;
      StepBack();
      lostCount := 0;
      Reset();
      PartsOfValid();
    }

    method GetInternal(capacity: nat, offset: int, advance: bool) returns (r: Result)
      requires Valid()
      modifies this, slots, pool`usedBuffers
      modifies lateHistory`offset, lateHistory.data, delayHistory`offset, delayHistory.data
      ensures Valid()
      ensures (View(), r) == Get(config, old(View()), capacity, offset, advance)
    {
      hide HistoricBuffer.History, CountedLost, GivenUp, Remembers, Stores, Valid;
      PartsOfValid();
      var timestampToGet := nextTimestamp + offset * config.step;
      var i := FindPacket(timestampToGet);
      if i < slots.Length {
        r := Take(i, capacity, offset);
        return;
      }
      if advance {
        Advance();
      }
      if needBuffering {
        return Buffering;
      }
      CountLost(offset);
      if lostCount >= config.lossesToReset
         || (gotSinceReset > minDelay * 25 && lostSinceReset > gotSinceReset / 2) {
        GiveUp();
      }
      r := Missing;
    }

    /** Frees the first slot with the cursor's timestamp, if that slot is occupied. */
    method DropAtCursor() returns (ghost gone: set<uint32>)
      requires Stores()
      modifies this`packets, slots, pool`usedBuffers
      ensures Stores()
      ensures packets == old(packets) - gone
      ensures forall t :: t in gone <==> t in old(packets) && t == nextTimestamp && !Shadowed(old(slots[..]), t)
      ensures forall k :: 0 <= k < slots.Length ==> slots[k].timestamp == old(slots[k].timestamp)
      ensures forall k :: 0 <= k < slots.Length && slots[k].timestamp != nextTimestamp ==> slots[k] == old(slots[k])
    {
      hide Storage, Owned;
      gone := {};
      var i := 0;
      while i < slots.Length && slots[i].timestamp != nextTimestamp
        invariant 0 <= i <= slots.Length
        invariant forall k :: 0 <= k < i ==> slots[k].timestamp != nextTimestamp
      {
        i := i + 1;
      }
      ghost var here := slots[..];
      if i < slots.Length {
        assert here[i].timestamp == nextTimestamp && forall k :: 0 <= k < i ==> here[k].timestamp != nextTimestamp;
        if slots[i].buffer.Some? {
          gone := {slots[i].timestamp};
          assert slots[i].timestamp in packets by { HeldBy(i); }
          FreeSlot(i);
        }
      } else {
        NotHeld();
      }
    }

    lemma HeldBy(i: nat)
      requires Stores() && i < slots.Length && slots[i].buffer.Some?
      ensures slots[i].timestamp in packets
    {
      Member(slots[..], i);
    }

    lemma NotHeld()
      requires Stores()
      requires forall k :: 0 <= k < slots.Length ==> slots[k].timestamp != nextTimestamp
      ensures nextTimestamp !in packets.Keys
    {
      forall t | t in packets ensures t != nextTimestamp { assert t in Timestamps(slots[..]); }
    }

    /** Moves the cursor until only the wanted delay is left, whatever it passes. */
    method DropDown(delay: nat, ghost s: Jitter) returns (ghost dropped: set<uint32>)
      requires Stores() && config.step > 0
      requires packets == s.packets && nextTimestamp == s.next && delay > minDelay
      modifies this`packets, this`nextTimestamp, slots, pool`usedBuffers
      ensures Stores() && nextTimestamp == Forward(s.next, config.step, delay - minDelay)
      ensures DropProgress(old(slots[..]), s, config.step, delay - minDelay, slots[..], packets, dropped)
    {
      hide Storage, Owned, Shadowed;
      dropped := {};
      ghost var was, step := slots[..], config.step;
      var left := delay;
      assert DropProgress(was, s, step, 0, slots[..], packets, dropped);
      while left > minDelay
        invariant minDelay <= left <= delay
        invariant Stores() && nextTimestamp == s.next + step * (delay - left)
        invariant DropProgress(was, s, step, delay - left, slots[..], packets, dropped)
      {
        hide DropProgress;
        ghost var shown, had, k := slots[..], packets, delay - left;
        ghost var gone := DropAtCursor();
        DropStep(was, s, step, k, shown, had, dropped, slots[..], gone);
        Advance();
        assert step * (k + 1) == step * k + step;
        dropped, left := dropped + gone, left - 1;
      }
    }

    /** The first output after the cursor was placed, when more than five packets wait. */
    method DropAtStart() returns (ghost dropped: set<uint32>)
      requires Valid()
      modifies this`first, this`packets, this`nextTimestamp, slots, pool`usedBuffers
      ensures Valid()
      ensures Droppable(config, old(View()), dropped)
      ensures View() == Started(config, old(View()), dropped)
      ensures DropsUnshadowed(config, old(View()), old(slots[..]), dropped)
    {
      hide HistoricBuffer.History, Stores, DropProgress, Droppable, DropsUnshadowed, Passed, Forward;
      ghost var was, s := slots[..], View();
      hide Remembers, Valid;
      PartsOfValid();
      NothingDropped(was, s, config.step);
      dropped := {};
      if first {
        first := false;
        var delay := GetCurrentDelay();
        if delay > 5 && delay > minDelay {
          dropped := DropDown(delay, s);
        }
      }
      DropDone(config, was, s, slots[..], packets, dropped);
      FewerLeft(packets, s.packets);
      PartsOfValid();
    }

    static lemma FewerLeft(m: map<uint32, Packet>, all: map<uint32, Packet>)
      requires m.Keys <= all.Keys
      ensures |m| <= |all|
    {
      SubsetSize(m.Keys, all.Keys);
      assert |m| == |m.Keys| && |all| == |all.Keys|;
    }

    method ScaleDuration(advance: bool) returns (playbackScaledDuration: int)
      requires Valid()
      modifies this`outstandingDelayChange
      ensures Valid()
      ensures (View(), playbackScaledDuration) == Scaled(old(View()), advance)
    {
      hide Storage, Owned, HistoricBuffer.History, Remembers;
      var delay := GetCurrentDelay();
      if outstandingDelayChange != 0 {
        if outstandingDelayChange < 0 {
          playbackScaledDuration := 40;
          outstandingDelayChange := outstandingDelayChange + 20;
        } else {
          playbackScaledDuration := 80;
          outstandingDelayChange := outstandingDelayChange - 20;
        }
      } else if advance && delay == 0 {
        playbackScaledDuration := 80;
      } else {
        playbackScaledDuration := 60;
      }
    }

    method HandleOutput(capacity: nat, offsetInSteps: int, advance: bool)
      returns (r: Result, playbackScaledDuration: int, ghost dropped: set<uint32>)
      requires Valid()
      modifies this, slots, pool`usedBuffers
      modifies lateHistory`offset, lateHistory.data, delayHistory`offset, delayHistory.data
      ensures Valid()
      ensures Droppable(config, old(View()), dropped)
      ensures Output(View(), r, playbackScaledDuration) ==
              JitterModel.HandleOutput(config, old(View()), dropped, capacity, offsetInSteps, advance)
      ensures DropsUnshadowed(config, old(View()), old(slots[..]), dropped)
    {
      hide HistoricBuffer.History, Stores, Get, Scaled, Droppable, DropsUnshadowed, StartAdvances, Remembers, Valid;
      dropped := DropAtStart();
      r := GetInternal(capacity, offsetInSteps, advance);
      playbackScaledDuration := ScaleDuration(advance);
    }

    // ---------------------------------------------------------------------- ticks

    method AdjustDelay(target: nat)
      requires Valid()
      modifies this`minDelay, this`outstandingDelayChange
      modifies this`dontChangeDelay, this`dontDecMinDelay, this`dontIncMinDelay
      ensures Valid()
      ensures View() == DelayAdjusted(old(View()), target)
    {
      hide Storage, Owned, HistoricBuffer.History, Stores, Remembers, Valid;
      if target != minDelay {
        var diff := target - minDelay;
        if diff > 0 {
          dontDecMinDelay := 100;
        }
        if diff < -1 {
          diff := -1;
        }
        if diff > 1 {
          diff := 1;
        }
        if (diff > 0 && dontIncMinDelay == 0) || (diff < 0 && dontDecMinDelay == 0) {
          minDelay := minDelay + diff;
          outstandingDelayChange := outstandingDelayChange + diff * 60;
          dontChangeDelay := dontChangeDelay + 32;
          if diff < 0 {
            dontDecMinDelay := dontDecMinDelay + 25;
          }
          if diff > 0 {
            dontIncMinDelay := 25;
          }
        }
      }
    }

    method AdjustPlayout(avgDelay: real)
      requires Valid()
      modifies this`outstandingDelayChange, this`dontChangeDelay
      ensures Valid()
      ensures View() == PlayoutAdjusted(old(View()), avgDelay)
    {
      hide Storage, Owned, HistoricBuffer.History, Stores, Remembers, Valid;
      if dontChangeDelay == 0 {
        if avgDelay > minDelay as real + 0.5 {
          outstandingDelayChange := outstandingDelayChange - (if avgDelay > minDelay as real + 2.0 then 60 else 20);
          dontChangeDelay := dontChangeDelay + 10;
        } else if avgDelay < minDelay as real - 0.3 {
          outstandingDelayChange := outstandingDelayChange + 20;
          dontChangeDelay := dontChangeDelay + 10;
        }
      }
    }

    /** Records the late packets of the last interval. */
    method RecordLate()
      requires Valid()
      modifies this`latePacketCount, this`wasReset, this`dontDecMinDelay, lateHistory`offset, lateHistory.data
      ensures Valid() && latePacketCount == 0
      ensures var lates := Remembered(old(lateHistory.History()), old(latePacketCount));
              && lateHistory.History() == lates
              && wasReset == (old(wasReset) || AverageOf(lates, 16) >= config.resyncThreshold)
              && dontDecMinDelay == if NoneLate(lates) then Less(old(dontDecMinDelay)) else old(dontDecMinDelay)
    {
      hide Storage, Owned, HistoricBuffer.History, Remembered, AverageOf;
      lateHistory.Add(latePacketCount);
      latePacketCount := 0;
      var mostLate := lateHistory.Max();
      var absolutelyNoLatePackets := mostLate == 0;
      var avgLate16 := lateHistory.Average(16);
      if avgLate16 >= config.resyncThreshold {
        wasReset := true;
      }
      if absolutelyNoLatePackets {
        if dontDecMinDelay > 0 {
          dontDecMinDelay := dontDecMinDelay - 1;
        }
      }
    }

    method RecordDelay() returns (avgDelay: real)
      requires Valid()
      modifies delayHistory`offset, delayHistory.data
      ensures Valid()
      ensures delayHistory.History() == Remembered(old(delayHistory.History()), |packets|)
      ensures avgDelay == AverageOf(delayHistory.History(), 32)
    {
      hide Storage, Owned, HistoricBuffer.History, Remembered, AverageOf;
      var delay := GetCurrentDelay();
      delayHistory.Add(delay);
      avgDelay := delayHistory.Average(32);
    }

    method Measure() returns (avgDelay: real)
      requires Valid()
      modifies this`latePacketCount, this`wasReset, this`dontDecMinDelay
      modifies lateHistory`offset, lateHistory.data, delayHistory`offset, delayHistory.data
      ensures Valid()
      ensures View() == Measured(config, old(View()))
      ensures avgDelay == AverageOf(delayHistory.History(), 32)
    {
      hide Storage, Owned, HistoricBuffer.History, Remembered, AverageOf, Stores, NoneLate, Less;
      RecordLate();
      avgDelay := RecordDelay();
    }

    /** `stddevDelay` is the delay that the deviation of arrival times asks for. */
    method Tick(stddevDelay: nat)
      requires Valid()
      modifies this, lateHistory`offset, lateHistory.data, delayHistory`offset, delayHistory.data
      ensures Valid()
      ensures View() == JitterModel.Tick(config, old(View()), stddevDelay)
    {
      hide Storage, Owned, HistoricBuffer.History, Measured, DelayAdjusted, PlayoutAdjusted, JitterBuffer.Stores, AverageOf;
      var avgDelay := Measure();
      var target := stddevDelay;
      if target < minMinDelay {
        target := minMinDelay;
      }
      if target > config.maxMinDelay {
        target := config.maxMinDelay;
      }
      AdjustDelay(target);
      AdjustPlayout(avgDelay);
      if dontChangeDelay > 0 {
        dontChangeDelay := dontChangeDelay - 1;
      }
    }

    method GetAndResetLostPacketCount() returns (r: int)
      requires Valid()
      modifies this`lostPackets
      ensures Valid()
      ensures r == old(View()).lostPackets && View() == Reported(old(View()))
    {
      hide Storage, Owned, HistoricBuffer.History, Stores, Remembers, Valid;
      r := lostPackets;
      lostPackets := 0;
    }

    method SetMinPacketCount(count: nat)
      requires Valid()
      modifies this`minDelay, this`minMinDelay
      ensures Valid()
      ensures View() == JitterModel.SetMinPacketCount(old(View()), count)
    {
      hide Storage, Owned, HistoricBuffer.History, Stores, Remembers, Valid;
      minDelay := count;
      minMinDelay := count;
    }
  }
}
