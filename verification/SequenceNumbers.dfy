/** Wrapping 32-bit sequence numbers: the comparison the controller uses for
    every packet and acknowledgement number. */
module SequenceNumbers {

  const MODULUS := 0x1_0000_0000
  const SEQ_MAX := 0xFFFF_FFFF
  const HALF := 0x8000_0000

  type uint32 = n: nat | n < 0x1_0000_0000

  /** Unsigned subtraction, with the wrap written out. */
  function Sub32(a: uint32, b: uint32): uint32 {
    (a - b) % MODULUS
  }

  function Wrap(n: nat): uint32 {
    n % MODULUS
  }

  predicate SeqGt(s1: uint32, s2: uint32) {
    || (s1 > s2 && s1 - s2 <= SEQ_MAX / 2)
    || (s1 < s2 && s2 - s1 > SEQ_MAX / 2)
  }

  /** What the comparison means on the circle of residues: `s1` is ahead by less
      than half a turn, or by exactly half a turn and numerically smaller. */
  lemma SeqGtMeansAhead(s1: uint32, s2: uint32)
    ensures SeqGt(s1, s2) <==> (0 < Sub32(s1, s2) < HALF || (Sub32(s1, s2) == HALF && s1 < s2))
  {
    if s1 >= s2 {
      assert Sub32(s1, s2) == s1 - s2;
    } else {
      assert (s1 - s2) % MODULUS == s1 - s2 + MODULUS;
    }
  }

  /** Exactly one direction holds between distinct values, even half a turn apart. */
  lemma SeqGtIsTotalChoice(s1: uint32, s2: uint32)
    ensures s1 == s2 ==> !SeqGt(s1, s2)
    ensures s1 != s2 ==> (SeqGt(s1, s2) <==> !SeqGt(s2, s1))
  {
  }

  /** The comparison is not an order: three values can be ahead of each other in a ring. */
  lemma SeqGtIsNotTransitive()
    ensures exists a: uint32, b: uint32, c: uint32 :: SeqGt(a, b) && SeqGt(b, c) && SeqGt(c, a)
  {
    var a: uint32, b: uint32, c: uint32 := 0x6000_0000, 0, 0xB000_0000;
    assert SeqGt(a, b) && SeqGt(b, c) && SeqGt(c, a);
  }

  /** Residues of two unbounded counters differ by the residue of their difference. */
  lemma WrapDifference(m: nat, n: nat)
    requires n <= m < n + MODULUS
    ensures Sub32(Wrap(m), Wrap(n)) == m - n
  {
    var q, r := n / MODULUS, n % MODULUS;
    assert n == q * MODULUS + r;
    if r + (m - n) < MODULUS {
      assert m == q * MODULUS + (r + (m - n));
      assert m % MODULUS == r + (m - n);
    } else {
      assert m == (q + 1) * MODULUS + (r + (m - n) - MODULUS);
      assert m % MODULUS == r + (m - n) - MODULUS;
      assert Wrap(m) - Wrap(n) == (m - n) - MODULUS;
    }
  }

  lemma WrapSuccessor(n: nat)
    ensures Wrap(Wrap(n) + 1) == Wrap(n + 1)
  {
  }

  /** Counters less than half a turn apart compare, through their residues, as the
      counters themselves do, however often they have wrapped. */
  lemma SeqGtAgreesWithCounters(m: nat, n: nat)
    requires -HALF < m - n < HALF
    ensures SeqGt(Wrap(m), Wrap(n)) <==> m > n
    ensures Wrap(m) == Wrap(n) <==> m == n
  {
    SeqGtMeansAhead(Wrap(m), Wrap(n));
    SeqGtIsTotalChoice(Wrap(m), Wrap(n));
    if m >= n {
      WrapDifference(m, n);
    } else {
      WrapDifference(n, m);
      SeqGtMeansAhead(Wrap(n), Wrap(m));
    }
  }

  /** Half a turn is the limit: one step further and the comparison is reversed. */
  lemma SeqGtReversesBeyondHalf(m: nat, n: nat)
    requires HALF < m - n < MODULUS
    ensures SeqGt(Wrap(n), Wrap(m)) && !SeqGt(Wrap(m), Wrap(n))
  {
    WrapDifference(m, n);
    SeqGtMeansAhead(Wrap(m), Wrap(n));
    SeqGtIsTotalChoice(Wrap(m), Wrap(n));
  }
}
