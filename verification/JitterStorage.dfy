/** What the jitter buffer's slots, and the pool memory behind them, stand for. */
module JitterStorage {
  import opened SequenceNumbers
  import opened Bytes
  import opened Options
  import opened JitterModel

  /** An empty slot keeps the timestamp of the packet it held last. */
  datatype Slot = Slot(buffer: Option<nat>, size: nat, timestamp: uint32, isEC: bool)

  // ------------------------------------------------- what slots and memory stand for

  predicate Distinct(slots: seq<Slot>) {
    forall i, j :: 0 <= i < j < |slots| && slots[i].buffer.Some? && slots[j].buffer.Some? ==>
      slots[i].timestamp != slots[j].timestamp && slots[i].buffer != slots[j].buffer
  }

  predicate Backed(slots: seq<Slot>, memory: seq<bytes>) {
    && |memory| == SLOT_COUNT
    && (forall b :: 0 <= b < |memory| ==> |memory[b]| == SLOT_SIZE)
    && (forall i :: 0 <= i < |slots| && slots[i].buffer.Some? ==>
         slots[i].buffer.value < SLOT_COUNT && slots[i].size <= SLOT_SIZE)
  }

  function Content(slot: Slot, memory: seq<bytes>): Packet
    requires slot.buffer.Some? && slot.buffer.value < |memory|
    requires slot.size <= |memory[slot.buffer.value]|
  {
    Packet(memory[slot.buffer.value][..slot.size], slot.isEC)
  }

  ghost function Timestamps(slots: seq<Slot>): set<uint32> {
    set i | 0 <= i < |slots| && slots[i].buffer.Some? :: slots[i].timestamp
  }

  ghost function Buffers(slots: seq<Slot>): set<nat> {
    set i | 0 <= i < |slots| && slots[i].buffer.Some? :: slots[i].buffer.value
  }

  /** The occupied slots hold exactly these packets, in exactly these buffers. */
  ghost predicate Storage(slots: seq<Slot>, memory: seq<bytes>, packets: map<uint32, Packet>, owned: set<nat>) {
    && |slots| == SLOT_COUNT && Distinct(slots) && Backed(slots, memory)
    && Timestamps(slots) == packets.Keys && Buffers(slots) == owned
    && (forall i :: 0 <= i < |slots| && slots[i].buffer.Some? ==>
         slots[i].timestamp in packets && packets[slots[i].timestamp] == Content(slots[i], memory))
  }

  function Occupied(slots: seq<Slot>): nat {
    if slots == [] then 0
    else Occupied(slots[..|slots| - 1]) + (if slots[|slots| - 1].buffer.Some? then 1 else 0)
  }

  lemma LastSlot(slots: seq<Slot>)
    requires slots != []
    ensures var front, last := slots[..|slots| - 1], slots[|slots| - 1];
            && Timestamps(slots) == Timestamps(front) + (if last.buffer.Some? then {last.timestamp} else {})
            && Buffers(slots) == Buffers(front) + (if last.buffer.Some? then {last.buffer.value} else {})
  {
    var front, last := slots[..|slots| - 1], slots[|slots| - 1];
    forall t ensures t in Timestamps(slots) <==> t in Timestamps(front) || (last.buffer.Some? && t == last.timestamp) {
      if t in Timestamps(front) {
        var k :| 0 <= k < |front| && front[k].buffer.Some? && front[k].timestamp == t;
        assert slots[k] == front[k];
      }
    }
    forall b ensures b in Buffers(slots) <==> b in Buffers(front) || last.buffer == Some(b) {
      if b in Buffers(front) {
        var k :| 0 <= k < |front| && front[k].buffer.Some? && front[k].buffer.value == b;
        assert slots[k] == front[k];
      }
    }
  }

  lemma {:induction false} CountsOccupied(slots: seq<Slot>)
    requires Distinct(slots)
    ensures |Timestamps(slots)| == |Buffers(slots)| == Occupied(slots)
  {
    if slots != [] {
      var front, last := slots[..|slots| - 1], slots[|slots| - 1];
      CountsOccupied(front);
      LastSlot(slots);
      if last.buffer.Some? {
        assert last.timestamp !in Timestamps(front) && last.buffer.value !in Buffers(front);
      }
    }
  }

  /** The occupied slots, the packets and the buffers handed out are equally many. */
  lemma StorageCounts(slots: seq<Slot>, memory: seq<bytes>, packets: map<uint32, Packet>, owned: set<nat>)
    requires Storage(slots, memory, packets, owned)
    ensures |packets| == |owned| == Occupied(slots)
  {
    hide Timestamps, Buffers, Backed, Occupied, Distinct;
    CountsOccupied(slots);
    assert |packets| == |packets.Keys|;
  }

  lemma {:induction false} OccupiedBound(slots: seq<Slot>, i: nat)
    requires i < |slots|
    ensures Occupied(slots) <= |slots|
    ensures slots[i].buffer.None? ==> Occupied(slots) < |slots|
  {
    if |slots| > 1 {
      var front := slots[..|slots| - 1];
      OccupiedBound(front, if i < |front| then i else 0);
    }
  }

  lemma {:induction false} AllOccupied(slots: seq<Slot>)
    requires forall i :: 0 <= i < |slots| ==> slots[i].buffer.Some?
    ensures Occupied(slots) == |slots|
  {
    if slots != [] {
      AllOccupied(slots[..|slots| - 1]);
    }
  }

  // ---------------------------------------------------------- changes of one slot

  function Freed(slots: seq<Slot>, i: nat): seq<Slot>
    requires i < |slots|
  {
    slots[i := slots[i].(buffer := None)]
  }

  lemma FreeingShrinks(slots: seq<Slot>, i: nat)
    requires Distinct(slots) && i < |slots| && slots[i].buffer.Some?
    ensures Timestamps(Freed(slots, i)) == Timestamps(slots) - {slots[i].timestamp}
    ensures Buffers(Freed(slots, i)) == Buffers(slots) - {slots[i].buffer.value}
  {
    var after := Freed(slots, i);
    forall t ensures t in Timestamps(after) <==> t in Timestamps(slots) - {slots[i].timestamp} {
      if t in Timestamps(slots) && t != slots[i].timestamp {
        var k :| 0 <= k < |slots| && slots[k].buffer.Some? && slots[k].timestamp == t;
        assert after[k] == slots[k];
      }
    }
    forall b ensures b in Buffers(after) <==> b in Buffers(slots) - {slots[i].buffer.value} {
      if b in Buffers(slots) && b != slots[i].buffer.value {
        var k :| 0 <= k < |slots| && slots[k].buffer.Some? && slots[k].buffer.value == b;
        assert after[k] == slots[k];
      }
    }
  }

  lemma FillingGrows(slots: seq<Slot>, i: nat, slot: Slot)
    requires i < |slots| && slot.buffer.Some?
    requires slots[i].buffer.Some? ==> slots[i].buffer == slot.buffer && slots[i].timestamp == slot.timestamp
    ensures Timestamps(slots[i := slot]) == Timestamps(slots) + {slot.timestamp}
    ensures Buffers(slots[i := slot]) == Buffers(slots) + {slot.buffer.value}
  {
    var after := slots[i := slot];
    assert after[i] == slot;
    forall t ensures t in Timestamps(after) <==> t in Timestamps(slots) + {slot.timestamp} {
      if t in Timestamps(slots) && t != slot.timestamp {
        var k :| 0 <= k < |slots| && slots[k].buffer.Some? && slots[k].timestamp == t;
        assert after[k] == slots[k];
      }
    }
    forall b ensures b in Buffers(after) <==> b in Buffers(slots) + {slot.buffer.value} {
      if b in Buffers(slots) && b != slot.buffer.value {
        var k :| 0 <= k < |slots| && slots[k].buffer.Some? && slots[k].buffer.value == b;
        assert after[k] == slots[k];
      }
    }
  }

  lemma Member(slots: seq<Slot>, i: nat)
    requires i < |slots| && slots[i].buffer.Some?
    ensures slots[i].timestamp in Timestamps(slots) && slots[i].buffer.value in Buffers(slots)
  {
  }

  lemma FreeingTakesThePacket(slots: seq<Slot>, memory: seq<bytes>, packets: map<uint32, Packet>, owned: set<nat>, i: nat)
    requires Storage(slots, memory, packets, owned)
    requires i < |slots| && slots[i].buffer.Some?
    ensures Storage(Freed(slots, i), memory, packets - {slots[i].timestamp}, owned - {slots[i].buffer.value})
  {
    hide Timestamps, Buffers;
    FreeingShrinks(slots, i);
    assert Distinct(Freed(slots, i));
    assert Backed(Freed(slots, i), memory);
  }

  function Overwritten(was: bytes, data: bytes): (r: bytes)
    requires |data| <= |was|
    ensures |r| == |was| && r[..|data|] == data
  {
    data + was[|data|..]
  }

  /** Storing a packet in an empty slot, or replacing one under the same timestamp. */
  lemma FillingStoresThePacket(slots: seq<Slot>, memory: seq<bytes>, packets: map<uint32, Packet>, owned: set<nat>,
                               i: nat, b: nat, ts: uint32, p: Packet)
    requires Storage(slots, memory, packets, owned)
    requires i < |slots| && b < SLOT_COUNT && |p.data| <= SLOT_SIZE
    requires if slots[i].buffer.None? then b !in owned && ts !in packets
             else slots[i].buffer == Some(b) && slots[i].timestamp == ts
    ensures Storage(slots[i := Slot(Some(b), |p.data|, ts, p.isEC)],
                    memory[b := Overwritten(memory[b], p.data)], packets[ts := p], owned + {b})
  {
    hide Timestamps, Buffers;
    var slot := Slot(Some(b), |p.data|, ts, p.isEC);
    var after, mem := slots[i := slot], memory[b := Overwritten(memory[b], p.data)];
    FillingGrows(slots, i, slot);
    forall k | 0 <= k < |slots| && k != i && slots[k].buffer.Some?
      ensures slots[k].timestamp != ts && slots[k].buffer.value != b
      ensures Content(slots[k], mem) == Content(slots[k], memory)
    {
      Member(slots, k);
    }
    assert Distinct(after) by { hide Backed; }
    assert Backed(after, mem) by { hide Distinct; }
    assert packets[ts := p].Keys == packets.Keys + {ts};
  }
}
