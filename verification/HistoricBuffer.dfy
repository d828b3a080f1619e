/** The ring buffer that keeps the last `size` measurements. */
module HistoricBufferModel {

  const INT_MIN := -0x8000_0000

  function Sum(s: seq<int>): int {
    if s == [] then 0 else Sum(s[..|s| - 1]) + s[|s| - 1]
  }

  /** The newest measurement comes first. */
  function Remembered(history: seq<int>, el: int): (h: seq<int>)
    requires |history| > 0
    ensures |h| == |history|
  {
    [el] + history[..|history| - 1]
  }

  function Blank(size: nat): seq<int> {
    seq(size, _ => 0)
  }

  function AverageOf(history: seq<int>, firstN: nat): real
    requires 0 < firstN <= |history|
  {
    Sum(history[..firstN]) as real / firstN as real
  }

  lemma NextOffset(offset: nat, size: nat)
    requires offset < size
    ensures (offset + 1) % size == if offset + 1 == size then 0 else offset + 1
  {
  }

  class HistoricBuffer {
    const data: array<int>
    var offset: nat

    ghost predicate Valid()
      reads this
    {
      offset < data.Length
    }

    /** Where the entry of age `i` is kept. */
    function Place(i: nat): (p: nat)
      requires offset < data.Length && i < data.Length
      reads this
      ensures p < data.Length
    {
      if i < offset then offset - i - 1 else data.Length + offset - i - 1
    }

    ghost function History(): (h: seq<int>)
      requires Valid()
      reads this, data
      ensures |h| == data.Length
    {
      seq(data.Length, i requires 0 <= i < data.Length && Valid() reads this, data => data[Place(i)])
    }

    constructor (size: nat)
      requires size > 0
      ensures Valid() && fresh(data) && data.Length == size && History() == Blank(size)
    {
      data := new int[size](_ => 0);
      offset := 0;
    }

    method Add(el: int)
      requires Valid()
      modifies this`offset, data
      ensures Valid()
      ensures History() == Remembered(old(History()), el)
    {
      ghost var was, n := History(), data.Length;
      NextOffset(offset, n);
      data[offset] := el;
      offset := (offset + 1) % data.Length;
      forall i | 0 <= i < n ensures History()[i] == Remembered(was, el)[i] {
        assert i > 0 ==> Place(i) == old(Place(i - 1));
      }
    }

    method Reset()
      requires Valid()
      modifies this`offset, data
      ensures Valid()
      ensures History() == Blank(data.Length)
    {
      forall i | 0 <= i < data.Length { data[i] := 0; }
      offset := 0;
    }

    method Average(firstN: nat) returns (avg: real)
      requires Valid() && 0 < firstN <= data.Length
      ensures avg == AverageOf(History(), firstN)
    {
      ghost var h := History();
      var total := 0;
      var i := 0;
      while i < firstN
        invariant 0 <= i <= firstN
        invariant total == Sum(h[..i])
      {
        total := total + data[Place(i)];
        assert h[..i + 1][..i] == h[..i];
        i := i + 1;
      }
      avg := total as real / firstN as real;
    }

    /** The scan runs over the slots of the ring, not over the ages. */
    method Max() returns (max: int)
      requires Valid()
      ensures max in History() || max == INT_MIN
      ensures forall x :: x in History() ==> x <= max
    {
      ghost var h := History();
      max := INT_MIN;
      var i := 0;
      while i < data.Length
        invariant 0 <= i <= data.Length
        invariant max == INT_MIN || exists k :: 0 <= k < i && max == data[k]
        invariant forall k :: 0 <= k < i ==> data[k] <= max
      {
        if data[i] > max {
          max := data[i];
        }
        i := i + 1;
      }
      if max != INT_MIN {
        ghost var k :| 0 <= k < data.Length && max == data[k];
        ghost var age := if k < offset then offset - k - 1 else data.Length + offset - k - 1;
        assert h[age] == max;
      }
      forall x | x in h ensures x <= max {
        var a :| 0 <= a < |h| && h[a] == x;
        assert x == data[Place(a)];
      }
    }
  }
}
