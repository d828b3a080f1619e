/** Octets, as the code's `unsigned char` and `std::string` hold them. */
module Bytes {

  type byte = n: nat | n < 256

  type bytes = seq<byte>

  /** `text` stands in `s` at position `i`. */
  ghost predicate Occurs(text: bytes, s: bytes, i: nat) {
    i + |text| <= |s| && s[i..i + |text|] == text
  }

  lemma OccursSplit(a: bytes, b: bytes, s: bytes, i: nat)
    ensures Occurs(a + b, s, i) <==> Occurs(a, s, i) && Occurs(b, s, i + |a|)
  {
    if Occurs(a + b, s, i) {
      assert s[i..i + |a|] == s[i..i + |a + b|][..|a|] == a;
      assert s[i + |a|..i + |a| + |b|] == s[i..i + |a + b|][|a|..] == b;
    }
    if Occurs(a, s, i) && Occurs(b, s, i + |a|) {
      assert s[i..i + |a + b|] == s[i..i + |a|] + s[i + |a|..i + |a| + |b|];
    }
  }

  lemma OccursAt(text: bytes, s: bytes, i: nat, k: nat)
    requires Occurs(text, s, i) && k < |text|
    ensures s[i + k] == text[k]
  {
    assert s[i + k] == s[i..i + |text|][k];
  }

  function Pow2(k: nat): (p: nat)
    ensures p > 0
  {
    if k == 0 then 1 else 2 * Pow2(k - 1)
  }

  /** The three low bytes of a number, and the rest. */
  lemma LowBytes(n: nat)
    ensures n % 256 + n / 0x100 % 256 * 0x100 + n / 0x1_0000 % 256 * 0x1_0000 == n % 0x100_0000
    ensures n == n % 0x100_0000 + 0x100_0000 * (n / 0x100_0000)
  {
    var m, k, j := n / 0x100, n / 0x1_0000, n / 0x100_0000;
    assert n == n % 256 + 256 * m;
    assert m / 256 == k && m == m % 256 + 256 * k;
    assert k / 256 == j && k == k % 256 + 256 * j;
    assert n == n % 0x100_0000 + 0x100_0000 * j;
  }
}
