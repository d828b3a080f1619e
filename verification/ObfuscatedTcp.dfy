/** The obfuscated TCP framing: a length, the packet, and one keystream over both.  The
    cipher is any keystream; encrypting and decrypting are the same exclusive or. */
module ObfuscatedTcp {
  import opened Bytes
  import opened Options

  type Keystream = nat -> byte

  // ---------------------------------------------------------------------- the cipher

  function XorBits(a: nat, b: nat, bits: nat): nat {
    if bits == 0 then 0 else (a % 2 + b % 2) % 2 + 2 * XorBits(a / 2, b / 2, bits - 1)
  }

  lemma LowestBit(p: nat, rest: nat)
    requires p < 2
    ensures (p + 2 * rest) % 2 == p && (p + 2 * rest) / 2 == rest
  {
  }

  lemma BitTwice(p: nat, q: nat)
    requires p < 2 && q < 2
    ensures ((p + q) % 2 + q) % 2 == p
  {
  }

  lemma {:induction false} XorTwice(a: nat, b: nat, bits: nat)
    requires a < Pow2(bits)
    ensures XorBits(a, b, bits) < Pow2(bits)
    ensures XorBits(XorBits(a, b, bits), b, bits) == a
  {
    if bits > 0 {
      var half, p, q := a / 2, a % 2, b % 2;
      var rest, bit := XorBits(half, b / 2, bits - 1), (p + q) % 2;
      assert a == p + 2 * half && half < Pow2(bits - 1);
      XorTwice(half, b / 2, bits - 1);
      LowestBit(bit, rest);
      BitTwice(p, q);
    }
  }

  function Xor(a: byte, b: byte): (x: byte)
    ensures XorBits(x, b, 8) == a
  {
    assert Pow2(4) == 16 && Pow2(8) == 16 * Pow2(4);
    XorTwice(a, b, 8);
    XorBits(a, b, 8)
  }

  /** `EncryptForTCPO2` from a position of the keystream. */
  function Crypt(ks: Keystream, pos: nat, s: bytes): (r: bytes)
    ensures |r| == |s|
  {
    seq(|s|, i requires 0 <= i < |s| => Xor(s[i], ks(pos + i)))
  }

  lemma CryptTwice(ks: Keystream, pos: nat, s: bytes)
    ensures Crypt(ks, pos, Crypt(ks, pos, s)) == s
  {
    hide XorBits;
    forall i | 0 <= i < |s| ensures Xor(Xor(s[i], ks(pos + i)), ks(pos + i)) == s[i] {
      XorInverts(s[i], ks(pos + i));
    }
  }

  lemma XorInverts(a: byte, b: byte)
    ensures Xor(Xor(a, b), b) == a
  {
  }

  lemma CryptSplit(ks: Keystream, pos: nat, a: bytes, b: bytes)
    ensures Crypt(ks, pos, a + b) == Crypt(ks, pos, a) + Crypt(ks, pos + |a|, b)
  {
    hide Xor;
  }

  // --------------------------------------------------------------------- the framing

  /** The number of whole words, in one byte or in three after 0x7F. */
  function Prefix(length: nat): bytes {
    var len := length / 4;
    if len < 0x7F then [len] else [0x7F, len % 256, len / 0x100 % 256, len / 0x1_0000 % 256]
  }

  function Framed(packet: bytes): bytes {
    Prefix(|packet|) + packet
  }

  function Sent(ks: Keystream, pos: nat, packet: bytes): bytes {
    Crypt(ks, pos, Framed(packet))
  }

  /** `wire` is what has arrived and was not read; the prefix is read whole. */
  datatype Received = Received(packet: Option<bytes>, pos: nat, wire: bytes)

  function Words(b0: byte, b1: byte, b2: byte): nat {
    b0 as nat + b1 as nat * 0x100 + b2 as nat * 0x1_0000
  }

  function ReadPrefix(ks: Keystream, pos: nat, wire: bytes): (Option<nat>, nat, bytes) {
    if |wire| < 1 then (None, pos, wire)
    else
      var len1 := Xor(wire[0], ks(pos));
      if len1 < 0x7F then (Some(len1 as nat * 4), pos + 1, wire[1..])
      else if |wire| < 4 then (None, pos + 1, wire[1..])
      else
        var len2 := Crypt(ks, pos + 1, wire[1..4]);
        (Some(Words(len2[0], len2[1], len2[2]) * 4), pos + 4, wire[4..])
  }

  /** A packet that does not fit is left on the wire; a connection that ends within a
      packet gives nothing. */
  function ReceiveFrom(ks: Keystream, pos: nat, wire: bytes, capacity: nat): Received {
    var (n, pos1, wire1) := ReadPrefix(ks, pos, wire);
    match n
    case None => Received(None, pos1, wire1)
    case Some(packetLen) =>
      if packetLen > capacity then Received(None, pos1, wire1)
      else if |wire1| < packetLen then Received(None, pos1, [])
      else Received(Some(Crypt(ks, pos1, wire1[..packetLen])), pos1 + packetLen, wire1[packetLen..])
  }

  // ----------------------------------------------------------------------- the inverse

  /** The length a prefix carries: whole words, modulo 2^24 of them once they need three bytes. */
  function Carried(length: nat): nat {
    if length / 4 < 0x7F then length / 4 * 4 else length / 4 % 0x100_0000 * 4
  }

  lemma CarriedIsLength(length: nat)
    ensures Carried(length) <= length
    ensures Carried(length) == length <==> length % 4 == 0 && length < 0x400_0000
  {
  }

  lemma {:induction false} PrefixIsRead(ks: Keystream, pos: nat, length: nat, rest: bytes)
    ensures ReadPrefix(ks, pos, Crypt(ks, pos, Prefix(length)) + rest) ==
            (Some(Carried(length)), pos + |Prefix(length)|, rest)
  {
    hide XorBits, Xor;
    var len, p := length / 4, Prefix(length);
    var wire := Crypt(ks, pos, p) + rest;
    CryptTwice(ks, pos, p);
    assert Xor(wire[0], ks(pos)) == Crypt(ks, pos, Crypt(ks, pos, p))[0] == p[0];
    assert wire[|p|..] == rest;
    if len >= 0x7F {
      var tail := p[1..];
      assert p == [p[0]] + tail;
      CryptSplit(ks, pos, [p[0]], tail);
      assert wire[1..4] == Crypt(ks, pos + 1, tail);
      CryptTwice(ks, pos + 1, tail);
      LowBytes(len);
    }
  }

  /** What is left on the wire when a prefix carries less than the whole packet. */
  function LeftOver(ks: Keystream, pos: nat, packet: bytes): bytes {
    CarriedIsLength(|packet|);
    Crypt(ks, pos, packet)[Carried(|packet|)..]
  }

  function Start(packet: bytes): bytes {
    CarriedIsLength(|packet|);
    packet[..Carried(|packet|)]
  }

  lemma StartIsRead(ks: Keystream, pos: nat, packet: bytes, rest: bytes)
    ensures var n, wire := Carried(|packet|), Crypt(ks, pos, packet) + rest;
            && n <= |wire| && Crypt(ks, pos, wire[..n]) == Start(packet)
            && wire[n..] == LeftOver(ks, pos, packet) + rest
  {
    hide Xor, Carried;
    CarriedIsLength(|packet|);
    var n, body := Carried(|packet|), Crypt(ks, pos, packet);
    var start, end := packet[..n], packet[n..];
    assert start + end == packet;
    CryptSplit(ks, pos, start, end);
    CryptTwice(ks, pos, start);
    assert (body + rest)[..n] == Crypt(ks, pos, start);
    assert (body + rest)[n..] == body[n..] + rest;
  }

  /** What the receiver makes of a packet sent from the same keystream position. */
  lemma SentIsReceived(ks: Keystream, pos: nat, packet: bytes, rest: bytes, capacity: nat)
    requires |packet| <= capacity
    ensures var body := pos + |Prefix(|packet|)|;
            ReceiveFrom(ks, pos, Sent(ks, pos, packet) + rest, capacity) ==
            Received(Some(Start(packet)), body + Carried(|packet|), LeftOver(ks, body, packet) + rest)
  {
    hide Crypt, ReadPrefix, Carried, Start, LeftOver;
    var p := Prefix(|packet|);
    var body := Crypt(ks, pos + |p|, packet);
    CryptSplit(ks, pos, p, packet);
    assert Sent(ks, pos, packet) + rest == Crypt(ks, pos, p) + (body + rest);
    PrefixIsRead(ks, pos, |packet|, body + rest);
    CarriedIsLength(|packet|);
    StartIsRead(ks, pos + |p|, packet, rest);
  }

  /** A packet comes back, and the two ends stay in step, exactly if its length is a
      multiple of 4 below 2^26. */
  lemma PacketRoundTrip(ks: Keystream, pos: nat, packet: bytes, rest: bytes, capacity: nat)
    requires |packet| <= capacity
    ensures var r := ReceiveFrom(ks, pos, Sent(ks, pos, packet) + rest, capacity);
            r == Received(Some(packet), pos + |Framed(packet)|, rest) <==>
            |packet| % 4 == 0 && |packet| < 0x400_0000
  {
    hide ReceiveFrom, Sent, Crypt, Carried;
    SentIsReceived(ks, pos, packet, rest, capacity);
    CarriedIsLength(|packet|);
    if Carried(|packet|) == |packet| {
      assert Start(packet) == packet;
      assert LeftOver(ks, pos + |Prefix(|packet|)|, packet) == [] && [] + rest == rest;
    } else {
      assert |Start(packet)| < |packet|;
    }
  }

  // ------------------------------------------------------------------ whole streams

  function SentAll(ks: Keystream, pos: nat, packets: seq<bytes>): bytes
    decreases |packets|
  {
    if packets == [] then []
    else Sent(ks, pos, packets[0]) + SentAll(ks, pos + |Framed(packets[0])|, packets[1..])
  }

  function SendPosition(pos: nat, packets: seq<bytes>): nat
    decreases |packets|
  {
    if packets == [] then pos else SendPosition(pos + |Framed(packets[0])|, packets[1..])
  }

  /** `count` calls of `Receive`, as long as they give packets. */
  function ReceiveMany(ks: Keystream, pos: nat, wire: bytes, capacity: nat, count: nat): (seq<bytes>, nat, bytes)
    decreases count
  {
    if count == 0 then ([], pos, wire)
    else
      var r := ReceiveFrom(ks, pos, wire, capacity);
      match r.packet
      case None => ([], r.pos, r.wire)
      case Some(p) =>
        var (more, pos1, wire1) := ReceiveMany(ks, r.pos, r.wire, capacity, count - 1);
        ([p] + more, pos1, wire1)
  }

  predicate Sendable(packets: seq<bytes>, capacity: nat) {
    forall i :: 0 <= i < |packets| ==>
      |packets[i]| % 4 == 0 && |packets[i]| < 0x400_0000 && |packets[i]| <= capacity
  }

  /** Any sequence of packets comes through, with the cipher positions in step at the end. */
  lemma {:induction false} StreamRoundTrip(ks: Keystream, pos: nat, packets: seq<bytes>, rest: bytes, capacity: nat)
    requires Sendable(packets, capacity)
    ensures ReceiveMany(ks, pos, SentAll(ks, pos, packets) + rest, capacity, |packets|) ==
            (packets, SendPosition(pos, packets), rest)
    decreases |packets|
  {
    hide ReceiveFrom, Sent, Framed;
    if packets == [] {
      assert [] + rest == rest;
    } else {
      var first, others, next := packets[0], packets[1..], pos + |Framed(packets[0])|;
      var later := SentAll(ks, next, others) + rest;
      assert SentAll(ks, pos, packets) + rest == Sent(ks, pos, first) + later;
      PacketRoundTrip(ks, pos, first, later, capacity);
      StreamRoundTrip(ks, next, others, rest, capacity);
      assert [first] + others == packets;
    }
  }

  // -------------------------------------------------------------------------- classes

  /** The sending half; `sent` is what the wrapped socket was given. */
  class Sender {
    const keystream: Keystream
    var position: nat
    var sent: bytes

    constructor (keystream: Keystream, position: nat)
      ensures this.keystream == keystream && this.position == position && sent == []
    {
      this.keystream, this.position, sent := keystream, position, [];
    }

    method Send(packet: bytes)
      modifies this
      ensures sent == old(sent) + Sent(keystream, old(position), packet)
      ensures position == old(position) + |Framed(packet)|
    {
      var os: bytes := [];
      var len := |packet| / 4;
      if len < 0x7F {
        os := os + [len];
      } else {
        os := os + [0x7F];
        os := os + [len % 256];
        os := os + [len / 0x100 % 256];
        os := os + [len / 0x1_0000 % 256];
      }
      os := os + packet;
      assert os == Framed(packet);
      sent := sent + Crypt(keystream, position, os);
      position := position + |os|;
    }
  }

  /** The receiving half; the wrapped socket gives what has arrived in pieces of its own
      choosing. */
  class Receiver {
    const keystream: Keystream
    var position: nat
    var wire: bytes

    constructor (keystream: Keystream, position: nat, arrived: bytes)
      ensures this.keystream == keystream && this.position == position && wire == arrived
    {
      this.keystream, this.position, wire := keystream, position, arrived;
    }

    /** Some of the bytes that have arrived, at most `limit`; none once the peer has closed. */
    method ReceiveSome(limit: nat) returns (piece: bytes)
      requires limit > 0
      modifies this`wire
      ensures |piece| <= limit && piece + wire == old(wire)
      ensures |piece| == 0 <==> |old(wire)| == 0
    {
      if |wire| == 0 {
        return [];
      }
      var n: nat :| 1 <= n <= limit && n <= |wire|;
      piece := wire[..n];
      wire := wire[n..];
    }

    /** The length prefix, decrypted. */
    method ReadLength() returns (packetLen: Option<nat>)
      modifies this
      ensures (packetLen, position, wire) == ReadPrefix(keystream, old(position), old(wire))
    {
      hide Xor;
      if |wire| < 1 {
        return None;
      }
      var len1 := Xor(wire[0], keystream(position));
      wire, position := wire[1..], position + 1;
      if len1 < 0x7F {
        return Some(len1 as nat * 4);
      }
      if |wire| < 3 {
        return None;
      }
      var len2 := Crypt(keystream, position, wire[..3]);
      assert wire[..3] == old(wire)[1..4] && wire[3..] == old(wire)[4..];
      wire, position := wire[3..], position + 3;
      packetLen := Some(Words(len2[0], len2[1], len2[2]) * 4);
    }

    /** Reads piece after piece until the packet is whole. */
    method ReadBody(packetLen: nat) returns (data: Option<bytes>)
      modifies this`wire
      ensures data.None? <==> |old(wire)| < packetLen
      ensures data.None? ==> wire == []
      ensures data.Some? ==> data.value == old(wire)[..packetLen] && wire == old(wire)[packetLen..]
    {
      ghost var body := wire;
      var got: bytes := [];
      while |got| < packetLen
        invariant |got| <= packetLen && got + wire == body
      {
        ghost var before := got + wire;
        var piece := ReceiveSome(packetLen - |got|);
        if |piece| == 0 {
          return None;
        }
        got := got + piece;
        assert got + wire == before;
      }
      assert got == body[..packetLen] && wire == body[packetLen..];
      data := Some(got);
    }

    method Receive(capacity: nat) returns (packet: Option<bytes>)
      modifies this
      ensures Received(packet, position, wire) == ReceiveFrom(keystream, old(position), old(wire), capacity)
    {
      hide Crypt, ReadPrefix;
      var packetLen := ReadLength();
      if packetLen.None? || packetLen.value > capacity {
        return None;
      }
      var data := ReadBody(packetLen.value);
      if data.None? {
        return None;
      }
      packet := Some(Crypt(keystream, position, data.value));
      position := position + packetLen.value;
    }
  }
}
