/** The bitmask allocator: a fixed number of equal buffers, one mask bit for each. */
module BufferPoolModel {
  import opened Bytes
  import opened Options

  // ------------------------------------------------------------------- the mask

  /** Bit `i` of the mask, the way `(mask >> i) & 1` reads it. */
  predicate Used(mask: nat, i: nat) {
    if i == 0 then mask % 2 == 1 else Used(mask / 2, i - 1)
  }

  /** `mask | (1 << i)` */
  function SetBit(mask: nat, i: nat): nat {
    if i == 0 then mask / 2 * 2 + 1 else SetBit(mask / 2, i - 1) * 2 + mask % 2
  }

  /** `mask & ~(1 << i)` */
  function ClearBit(mask: nat, i: nat): nat {
    if i == 0 then mask / 2 * 2 else ClearBit(mask / 2, i - 1) * 2 + mask % 2
  }

  lemma {:induction false} SetBitSets(mask: nat, i: nat, j: nat)
    ensures Used(SetBit(mask, i), j) <==> i == j || Used(mask, j)
  {
    if i > 0 && j > 0 {
      SetBitSets(mask / 2, i - 1, j - 1);
      assert SetBit(mask, i) / 2 == SetBit(mask / 2, i - 1);
    }
  }

  lemma {:induction false} ClearBitClears(mask: nat, i: nat, j: nat)
    ensures Used(ClearBit(mask, i), j) <==> i != j && Used(mask, j)
  {
    if i > 0 && j > 0 {
      ClearBitClears(mask / 2, i - 1, j - 1);
      assert ClearBit(mask, i) / 2 == ClearBit(mask / 2, i - 1);
    }
  }

  lemma {:induction false} EmptyMask(j: nat)
    ensures !Used(0, j)
  {
    if j > 0 {
      EmptyMask(j - 1);
    }
  }

  /** The buffers a mask of `count` bits marks as handed out. */
  function Owned(mask: nat, count: nat): set<nat> {
    set i: nat | i < count && Used(mask, i)
  }

  lemma SetBitOwns(mask: nat, count: nat, i: nat)
    requires i < count
    ensures Owned(SetBit(mask, i), count) == Owned(mask, count) + {i}
  {
    forall j: nat ensures Used(SetBit(mask, i), j) <==> i == j || Used(mask, j) { SetBitSets(mask, i, j); }
  }

  lemma ClearBitDisowns(mask: nat, count: nat, i: nat)
    ensures Owned(ClearBit(mask, i), count) == Owned(mask, count) - {i}
  {
    forall j: nat ensures Used(ClearBit(mask, i), j) <==> i != j && Used(mask, j) { ClearBitClears(mask, i, j); }
  }

  /** The lowest free buffer, if any. */
  function LowestFree(mask: nat, count: nat, from: nat): (r: Option<nat>)
    requires from <= count
    ensures r.Some? ==> from <= r.value < count && !Used(mask, r.value)
    ensures r.Some? ==> forall j :: from <= j < r.value ==> Used(mask, j)
    ensures r.None? ==> forall j :: from <= j < count ==> Used(mask, j)
    decreases count - from
  {
    if from == count then None
    else if !Used(mask, from) then Some(from)
    else LowestFree(mask, count, from + 1)
  }

  // ------------------------------------------------------------------- the pool

  class BufferPool {
    var usedBuffers: nat
    const bufferCount: nat
    const memory: array<bytes>

    ghost predicate Valid()
      reads this
    {
      memory.Length == bufferCount
    }

    constructor (count: nat, size: nat)
      ensures Valid() && fresh(memory) && bufferCount == count
      ensures Owned(usedBuffers, bufferCount) == {}
      ensures forall b :: 0 <= b < count ==> |memory[b]| == size
    {
      usedBuffers := 0;
      bufferCount := count;
      memory := new bytes[count](_ => seq(size, _ => 0));
      new;
      forall j: nat ensures !Used(0, j) { EmptyMask(j); }
    }

    method Get() returns (r: Option<nat>)
      requires Valid()
      modifies this`usedBuffers
      ensures Valid()
      ensures r == LowestFree(old(usedBuffers), bufferCount, 0)
      ensures Owned(usedBuffers, bufferCount) ==
              old(Owned(usedBuffers, bufferCount)) + (if r.Some? then {r.value} else {})
      ensures r.Some? ==> r.value !in old(Owned(usedBuffers, bufferCount))
      ensures r.None? ==> |old(Owned(usedBuffers, bufferCount))| == bufferCount
    {
      var i := 0;
      while i < bufferCount
        invariant 0 <= i <= bufferCount
        invariant usedBuffers == old(usedBuffers)
        invariant LowestFree(usedBuffers, bufferCount, i) == LowestFree(usedBuffers, bufferCount, 0)
        invariant forall j :: 0 <= j < i ==> Used(usedBuffers, j)
      {
        if !Used(usedBuffers, i) {
          SetBitOwns(usedBuffers, bufferCount, i);
          usedBuffers := SetBit(usedBuffers, i);
          return Some(i);
        }
        i := i + 1;
      }
      AllOwned(usedBuffers, bufferCount);
      r := None;
    }

    /** Passing anything but one of the pool's buffers aborts the process. */
    method Reuse(b: nat)
      requires Valid() && b < bufferCount
      modifies this`usedBuffers
      ensures Valid()
      ensures Owned(usedBuffers, bufferCount) == old(Owned(usedBuffers, bufferCount)) - {b}
    {
      ClearBitDisowns(usedBuffers, bufferCount, b);
      usedBuffers := ClearBit(usedBuffers, b);
    }
  }

  lemma {:induction false} AllOwned(mask: nat, count: nat)
    requires forall j :: 0 <= j < count ==> Used(mask, j)
    ensures |Owned(mask, count)| == count
  {
    if count > 0 {
      AllOwned(mask, count - 1);
      assert Owned(mask, count) == Owned(mask, count - 1) + {count - 1};
    }
  }
}
