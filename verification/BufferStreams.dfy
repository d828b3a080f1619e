/** The byte streams: a writer over a growing, or a given, buffer and a reader with an
    offset; and the header written and read through them. */
module BufferStreams {
  import opened SequenceNumbers
  import opened Bytes
  import opened PacketProtocol
  import opened WireHeader

  class BufferOutputStream {
    var buffer: array<byte>
    var offset: nat
    const bufferProvided: bool

    ghost predicate Valid()
      reads this
    {
      offset <= buffer.Length
    }

    ghost function Contents(): (c: bytes)
      requires Valid()
      reads this, buffer
      ensures |c| == offset
    {
      buffer[..offset]
    }

    constructor (size: nat)
      ensures Valid() && Contents() == [] && !bufferProvided && fresh(buffer) && buffer.Length == size
    {
      buffer := new byte[size];
      offset, bufferProvided := 0, false;
    }

    constructor Over(buffer: array<byte>)
      ensures Valid() && Contents() == [] && bufferProvided && this.buffer == buffer
    {
      this.buffer := buffer;
      offset, bufferProvided := 0, true;
    }

    /** Makes room for `need` bytes; a buffer that was given cannot grow. */
    method ExpandBufferIfNeeded(need: nat) returns (ok: bool)
      requires Valid()
      modifies this`buffer
      ensures Valid() && (buffer == old(buffer) || fresh(buffer))
      ensures ok <==> !(bufferProvided && offset + need > old(buffer.Length))
      ensures ok ==> offset + need <= buffer.Length
      ensures Contents() == old(Contents())
    {
      ok := true;
      if offset + need > buffer.Length {
        if bufferProvided {
          return false;
        }
        var grown := new byte[buffer.Length + if need < 1024 then 1024 else need];
        forall i | 0 <= i < buffer.Length { grown[i] := buffer[i]; }
        assert grown[..offset] == buffer[..offset];
        buffer := grown;
      }
    }

    /** Every write is all or nothing. */
    method WriteBytes(b: bytes) returns (ok: bool)
      requires Valid()
      modifies this, buffer
      ensures Valid() && (buffer == old(buffer) || fresh(buffer))
      ensures ok <==> !(bufferProvided && old(offset) + |b| > old(buffer.Length))
      ensures Contents() == if ok then old(Contents()) + b else old(Contents())
    {
      ok := ExpandBufferIfNeeded(|b|);
      if ok {
        forall i | 0 <= i < |b| { buffer[offset + i] := b[i]; }
        offset := offset + |b|;
      }
    }

    method WriteByte(b: byte) returns (ok: bool)
      requires Valid()
      modifies this, buffer
      ensures Valid() && (buffer == old(buffer) || fresh(buffer))
      ensures ok <==> !(bufferProvided && old(offset) + 1 > old(buffer.Length))
      ensures Contents() == if ok then old(Contents()) + [b] else old(Contents())
    {
      ok := ExpandBufferIfNeeded(1);
      if ok {
        buffer[offset] := b;
        offset := offset + 1;
      }
    }

    method WriteInt32(n: uint32) returns (ok: bool)
      requires Valid()
      modifies this, buffer
      ensures Valid() && (buffer == old(buffer) || fresh(buffer))
      ensures ok <==> !(bufferProvided && old(offset) + 4 > old(buffer.Length))
      ensures Contents() == if ok then old(Contents()) + Le32(n) else old(Contents())
    {
      ok := ExpandBufferIfNeeded(4);
      if ok {
        buffer[offset + 3] := n / 0x100_0000;
        buffer[offset + 2] := n / 0x1_0000 % 256;
        buffer[offset + 1] := n / 0x100 % 256;
        buffer[offset] := n % 256;
        offset := offset + 4;
      }
    }
  }

  class BufferInputStream {
    const buffer: bytes
    var offset: nat

    ghost predicate Valid()
      reads this
    {
      offset <= |buffer|
    }

    ghost function Rest(): bytes
      requires Valid()
      reads this
    {
      buffer[offset..]
    }

    constructor (data: bytes)
      ensures Valid() && Rest() == data
    {
      buffer, offset := data, 0;
    }

    method ReadByte() returns (r: Result<byte>)
      requires Valid()
      modifies this`offset
      ensures Valid()
      ensures match WireHeader.ReadByte(old(Rest()))
              case Success(pair) => r == Success(pair.0) && Rest() == pair.1
              case Failure(reason) => r == Failure(reason)
    {
      if |buffer| - offset < 1 {
        return Failure(NotEnoughBytes);
      }
      r := Success(buffer[offset]);
      offset := offset + 1;
    }

    method ReadInt32() returns (r: Result<uint32>)
      requires Valid()
      modifies this`offset
      ensures Valid()
      ensures match Read32(old(Rest()))
              case Success(pair) => r == Success(pair.0) && Rest() == pair.1
              case Failure(reason) => r == Failure(reason)
    {
      if |buffer| - offset < 4 {
        return Failure(NotEnoughBytes);
      }
      var b0: nat, b1: nat, b2: nat, b3: nat :=
        buffer[offset], buffer[offset + 1], buffer[offset + 2], buffer[offset + 3];
      r := Success(b0 + b1 * 0x100 + b2 * 0x1_0000 + b3 * 0x100_0000);
      offset := offset + 4;
    }

    method ReadBytes(count: nat) returns (r: Result<bytes>)
      requires Valid()
      modifies this`offset
      ensures Valid()
      ensures match WireHeader.ReadBytes(old(Rest()), count)
              case Success(pair) => r == Success(pair.0) && Rest() == pair.1
              case Failure(reason) => r == Failure(reason)
    {
      if |buffer| - offset < count {
        return Failure(NotEnoughBytes);
      }
      assert Rest()[..count] == buffer[offset..offset + count];
      r := Success(buffer[offset..offset + count]);
      offset := offset + count;
    }

    method ReadTlLength() returns (r: Result<nat>)
      requires Valid()
      modifies this`offset
      ensures Valid()
      ensures match WireHeader.ReadTlLength(old(Rest()))
              case Success(pair) => r == Success(pair.0) && Rest() == pair.1
              case Failure(reason) => r == Failure(reason)
    {
      var l :- ReadByte();
      if l < 254 {
        return Success(l);
      }
      if |buffer| - offset < 3 {
        return Failure(NotEnoughBytes);
      }
      var b0: nat, b1: nat, b2: nat := buffer[offset], buffer[offset + 1], buffer[offset + 2];
      r := Success(b0 + b1 * 0x100 + b2 * 0x1_0000);
      offset := offset + 3;
    }
  }

  // ------------------------------------------------------------------ the header written

  method WriteOneExtra(s: BufferOutputStream, e: Extra) returns (ok: bool)
    requires s.Valid() && !s.bufferProvided && |e.data| <= 254
    modifies s, s.buffer
    ensures s.Valid() && (s.buffer == old(s.buffer) || fresh(s.buffer))
    ensures ok && s.Contents() == old(s.Contents()) + OneExtra(e)
  {
    ok := s.WriteByte(|e.data| + 1);
    ok := s.WriteByte(e.kind);
    ok := s.WriteBytes(e.data);
  }

  /** The loop over the extras, in the short form and in the newer of the older ones. */
  method WriteExtrasPart(s: BufferOutputStream, extras: seq<Extra>) returns (ok: bool)
    requires s.Valid() && !s.bufferProvided && WireHeader.Short(extras)
    modifies s, s.buffer
    ensures s.Valid() && (s.buffer == old(s.buffer) || fresh(s.buffer))
    ensures ok && s.Contents() == old(s.Contents()) + ExtrasPart(extras)
  {
    hide AllExtras, OneExtra;
    ghost var before := s.Contents();
    if |extras| == 0 {
      ok := s.WriteByte(0);
      return;
    }
    ok := s.WriteByte(XPFLAG_HAS_EXTRA);
    ok := s.WriteByte(|extras| % 256);
    ghost var start := s.Contents();
    assert start == before + [XPFLAG_HAS_EXTRA, |extras| % 256];
    var x := 0;
    assert extras[0..] == extras;
    while x < |extras|
      invariant 0 <= x <= |extras| && ok && s.Valid()
      invariant s.buffer == old(s.buffer) || fresh(s.buffer)
      invariant s.Contents() + AllExtras(extras[x..]) == start + AllExtras(extras)
    {
      ExtrasHead(extras, x);
      Regroup(s.Contents(), OneExtra(extras[x]), AllExtras(extras[x + 1..]));
      ok := WriteOneExtra(s, extras[x]);
      x := x + 1;
    }
    NoExtras(extras[x..]);
    Regroup(before, [XPFLAG_HAS_EXTRA, |extras| % 256], AllExtras(extras));
  }

  lemma Regroup(a: bytes, b: bytes, c: bytes)
    ensures (a + b) + c == a + (b + c)
  {
  }

  lemma NoExtras(extras: seq<Extra>)
    requires extras == []
    ensures AllExtras(extras) == [] && forall a: bytes :: a + [] == a
  {
  }

  lemma ExtrasHead(extras: seq<Extra>, x: nat)
    requires WireHeader.Short(extras) && x < |extras|
    ensures AllExtras(extras[x..]) == OneExtra(extras[x]) + AllExtras(extras[x + 1..])
  {
    assert extras[x..][0] == extras[x] && extras[x..][1..] == extras[x + 1..];
  }

  method WriteNumbers(s: BufferOutputStream, h: Header) returns (ok: bool)
    requires s.Valid() && !s.bufferProvided
    modifies s, s.buffer
    ensures s.Valid() && (s.buffer == old(s.buffer) || fresh(s.buffer))
    ensures ok && s.Contents() == old(s.Contents()) + Numbers(h)
  {
    hide Le32;
    Regroup(s.Contents(), Le32(h.ackId), Le32(h.pseq));
    Regroup(s.Contents(), Le32(h.ackId) + Le32(h.pseq), Le32(h.acks));
    ok := s.WriteInt32(h.ackId);
    ok := s.WriteInt32(h.pseq);
    ok := s.WriteInt32(h.acks);
  }

  method WriteTlLength(s: BufferOutputStream, length: uint32) returns (ok: bool)
    requires s.Valid() && !s.bufferProvided
    modifies s, s.buffer
    ensures s.Valid() && (s.buffer == old(s.buffer) || fresh(s.buffer))
    ensures ok && s.Contents() == old(s.Contents()) + TlLength(length)
  {
    if length <= 253 {
      ok := s.WriteByte(length);
    } else {
      ok := s.WriteByte(254);
      ok := s.WriteByte(length % 256);
      ok := s.WriteByte(length / 0x100 % 256);
      ok := s.WriteByte(length / 0x1_0000 % 256);
    }
  }

  /** The constructor number, the random id and the seven random bytes as a string. */
  method WriteBlockStart(s: BufferOutputStream, tlid: uint32, r: Random) returns (ok: bool)
    requires s.Valid() && !s.bufferProvided
    modifies s, s.buffer
    ensures s.Valid() && (s.buffer == old(s.buffer) || fresh(s.buffer))
    ensures ok && s.Contents() == old(s.Contents()) + BlockStart(tlid, r)
  {
    hide Le32;
    ghost var before := s.Contents();
    Regroup(before, Le32(tlid), r.id);
    Regroup(before, Le32(tlid) + r.id, [7]);
    Regroup(before, Le32(tlid) + r.id + [7], r.filler);
    ok := s.WriteInt32(tlid);
    ok := s.WriteBytes(r.id);
    ok := s.WriteByte(7);
    ok := s.WriteBytes(r.filler);
  }

  method WriteShortHeader(s: BufferOutputStream, h: Header) returns (ok: bool)
    requires s.Valid() && !s.bufferProvided && WireHeader.Short(h.extras)
    modifies s, s.buffer
    ensures s.Valid() && (s.buffer == old(s.buffer) || fresh(s.buffer))
    ensures ok && s.Contents() == old(s.Contents()) + ([h.packetType] + Numbers(h) + ExtrasPart(h.extras))
  {
    hide Numbers, ExtrasPart, Short;
    Regroup(s.Contents(), [h.packetType], Numbers(h));
    Regroup(s.Contents(), [h.packetType] + Numbers(h), ExtrasPart(h.extras));
    ok := s.WriteByte(h.packetType);
    ok := WriteNumbers(s, h);
    ok := WriteExtrasPart(s, h.extras);
  }

  method WriteDecryptedBlock(s: BufferOutputStream, callId: bytes, h: Header, length: uint32, r: Random)
    returns (ok: bool)
    requires s.Valid() && !s.bufferProvided && WireHeader.Short(h.extras)
    modifies s, s.buffer
    ensures s.Valid() && (s.buffer == old(s.buffer) || fresh(s.buffer))
    ensures ok && s.Contents() == old(s.Contents()) + WriteHeader(DecryptedBlock(callId), h, length, r)
  {
    hide Numbers, BlockStart, TlLength, Le32, Short;
    var flags: uint32 := 32 + 16;
    if length > 0 {
      flags := flags + 1;
    }
    flags := flags + 4 + 8;
    flags := flags + h.packetType as nat * 0x100_0000;
    ghost var before, f := s.Contents(), Le32(flags);
    ghost var a := BlockStart(TLID_DECRYPTED_AUDIO_BLOCK, r);
    assert flags == InitFlags(h.packetType, length);
    Regroup(before, a, f);
    Regroup(before, a + f, callId);
    Regroup(before, a + f + callId, Numbers(h));
    Regroup(before, a + f + callId + Numbers(h), Le32(PROTOCOL_NAME));
    ghost var upTo := a + f + callId + Numbers(h) + Le32(PROTOCOL_NAME);
    Regroup(before, upTo, TlLength(length));
    assert upTo + [] == upTo;
    ok := WriteBlockStart(s, TLID_DECRYPTED_AUDIO_BLOCK, r);
    ok := s.WriteInt32(flags);
    ok := s.WriteBytes(callId);
    ok := WriteNumbers(s, h);
    ok := s.WriteInt32(PROTOCOL_NAME);
    if length > 0 {
      ok := WriteTlLength(s, length);
    }
  }

  method WriteSimpleBlock(s: BufferOutputStream, hasFlags: bool, h: Header, length: uint32, r: Random)
    returns (ok: bool)
    requires s.Valid() && !s.bufferProvided && WireHeader.Short(h.extras)
    modifies s, s.buffer
    ensures s.Valid() && (s.buffer == old(s.buffer) || fresh(s.buffer))
    ensures ok && s.Contents() == old(s.Contents()) + WriteHeader(SimpleBlock(hasFlags), h, length, r)
  {
    hide Numbers, BlockStart, TlLength, ExtrasPart, Short;
    var lenWithHeader := (length + 13) % MODULUS;
    ghost var before, a, l := s.Contents(), BlockStart(TLID_SIMPLE_AUDIO_BLOCK, r), TlLength(lenWithHeader);
    Regroup(before, a, l);
    Regroup(before, a + l, [h.packetType]);
    Regroup(before, a + l + [h.packetType], Numbers(h));
    ghost var upTo := a + l + [h.packetType] + Numbers(h);
    Regroup(before, upTo, ExtrasPart(h.extras));
    assert upTo + [] == upTo;
    ok := WriteBlockStart(s, TLID_SIMPLE_AUDIO_BLOCK, r);
    ok := WriteTlLength(s, lenWithHeader);
    ok := s.WriteByte(h.packetType);
    ok := WriteNumbers(s, h);
    if hasFlags {
      ok := WriteExtrasPart(s, h.extras);
    }
  }

  /** The form depends on the peer's version and on whether the connection is set up. */
  method WritePacketHeader(s: BufferOutputStream, link: Link, h: Header, length: uint32, r: Random) returns (ok: bool)
    requires s.Valid() && !s.bufferProvided && WireHeader.Short(h.extras)
    modifies s, s.buffer
    ensures s.Valid() && (s.buffer == old(s.buffer) || fresh(s.buffer))
    ensures ok && s.Contents() == old(s.Contents()) + WriteHeader(link.Writes(), h, length, r)
  {
    if link.peerVersion >= 8 || (link.peerVersion == 0 && link.connectionMaxLayer >= 92) {
      ok := WriteShortHeader(s, h);
    } else if link.state == WaitInit || link.state == WaitInitAck {
      ok := WriteDecryptedBlock(s, link.callId, h, length, r);
    } else {
      ok := WriteSimpleBlock(s, link.peerVersion >= 6, h, length, r);
    }
  }

  // --------------------------------------------------------------------- the header read

  method ReadExtra(s: BufferInputStream) returns (r: Result<Extra>)
    requires s.Valid()
    modifies s`offset
    ensures s.Valid()
    ensures match ReadOneExtra(old(s.Rest()))
            case Success(pair) => r == Success(pair.0) && s.Rest() == pair.1
            case Failure(reason) => r == Failure(reason)
  {
    var extraLen :- s.ReadByte();
    var xbuffer :- s.ReadBytes(extraLen);
    if |xbuffer| < 1 {
      return Failure(NotEnoughBytes);
    }
    r := Success(Extra(xbuffer[0], xbuffer[1..]));
  }

  /** What a loop that has read some extras still has to read. */
  ghost predicate StillToRead(all: Result<(seq<Extra>, bytes)>, sofar: seq<Extra>, rest: bytes, count: nat) {
    match ReadAllExtras(rest, count)
    case Success(pair) => all == Success((sofar + pair.0, pair.1))
    case Failure(reason) => all == Failure(reason)
  }

  lemma ReadsOneMore(all: Result<(seq<Extra>, bytes)>, sofar: seq<Extra>, rest: bytes, count: nat)
    requires count > 0 && StillToRead(all, sofar, rest, count)
    ensures match ReadOneExtra(rest)
            case Success(pair) => StillToRead(all, sofar + [pair.0], pair.1, count - 1)
            case Failure(reason) => all == Failure(reason)
  {
    hide ReadOneExtra;
    match ReadOneExtra(rest)
    case Success(pair) =>
      match ReadAllExtras(pair.1, count - 1) {
        case Success(more) => assert sofar + ([pair.0] + more.0) == sofar + [pair.0] + more.0;
        case Failure(_) =>
      }
    case Failure(_) =>
  }

  method ReadExtras(s: BufferInputStream) returns (r: Result<seq<Extra>>)
    requires s.Valid()
    modifies s`offset
    ensures s.Valid()
    ensures match ReadExtrasPart(old(s.Rest()))
            case Success(pair) => r == Success(pair.0) && s.Rest() == pair.1
            case Failure(reason) => r == Failure(reason)
  {
    var pflags :- s.ReadByte();
    if pflags % 2 == 0 {
      return Success([]);
    }
    var extraCount :- s.ReadByte();
    ghost var all := ReadAllExtras(s.Rest(), extraCount);
    assert all.Success? ==> [] + all.value.0 == all.value.0;
    var extras := [];
    var i := 0;
    assert StillToRead(all, extras, s.Rest(), extraCount - i);
    hide ReadAllExtras, ReadOneExtra, StillToRead;
    while i < extraCount
      invariant 0 <= i <= extraCount && s.Valid()
      invariant StillToRead(all, extras, s.Rest(), extraCount - i)
    {
      ReadsOneMore(all, extras, s.Rest(), extraCount - i);
      var e :- ReadExtra(s);
      extras := extras + [e];
      i := i + 1;
    }
    AllRead(all, extras, s.Rest());
    r := Success(extras);
  }

  lemma AllRead(all: Result<(seq<Extra>, bytes)>, sofar: seq<Extra>, rest: bytes)
    requires StillToRead(all, sofar, rest, 0)
    ensures all == Success((sofar, rest))
  {
    assert sofar + [] == sofar;
  }

  method ReadShortHeader(s: BufferInputStream) returns (r: Result<Parsed>)
    requires s.Valid()
    modifies s`offset
    ensures s.Valid() && r == ReadShort(old(s.Rest()))
    ensures r.Success? ==> s.Rest() == r.value.rest
  {
    hide ReadExtrasPart, Read32, WireHeader.ReadByte;
    var packetType :- s.ReadByte();
    var ackId :- s.ReadInt32();
    var pseq :- s.ReadInt32();
    var acks :- s.ReadInt32();
    var extras :- ReadExtras(s);
    r := Success(Parsed(Header(packetType, ackId, pseq, acks, extras), 0, s.buffer[s.offset..]));
  }

  method SkipRandom(s: BufferInputStream) returns (r: Result<nat>)
    requires s.Valid()
    modifies s`offset
    ensures s.Valid()
    ensures match SkipBlockStart(old(s.Rest()))
            case Success(rest) => r.Success? && s.Rest() == rest
            case Failure(reason) => r == Failure(reason)
  {
    var id :- s.ReadBytes(8);
    r := SkipTlString(s);
  }

  method SkipTlString(s: BufferInputStream) returns (r: Result<nat>)
    requires s.Valid()
    modifies s`offset
    ensures s.Valid()
    ensures match SkipString(old(s.Rest()))
            case Success(rest) => r.Success? && s.Rest() == rest
            case Failure(reason) => r == Failure(reason)
  {
    hide WireHeader.ReadTlLength;
    var n :- s.ReadTlLength();
    var skipped :- s.ReadBytes(n + Pad4(n));
    r := Success(n);
  }

  method ReadDecrypted(s: BufferInputStream, callId: bytes) returns (r: Result<Parsed>)
    requires s.Valid()
    modifies s`offset
    ensures s.Valid() && r == ReadDecryptedBlock(old(s.Rest()), callId)
    ensures r.Success? ==> s.Rest() == r.value.rest
  {
    hide WireHeader.ReadTlLength, Read32, WireHeader.ReadBytes, SkipString, SkipBlockStart, HasFlag;
    var _ :- SkipRandom(s);
    var flags :- s.ReadInt32();
    var packetType: byte := flags / 0x100_0000;
    if !HasFlag(flags, 16) || !HasFlag(flags, 32) {
      return Failure(FlagsMissing);
    }
    if HasFlag(flags, 4) {
      var pktCallID :- s.ReadBytes(16);
      if pktCallID != callId {
        return Failure(WrongCallId);
      }
    }
    var ackId :- s.ReadInt32();
    var pseq :- s.ReadInt32();
    var acks :- s.ReadInt32();
    if HasFlag(flags, 8) {
      var proto :- s.ReadInt32();
      if proto != PROTOCOL_NAME {
        return Failure(WrongProtocol);
      }
    }
    if HasFlag(flags, 2) {
      var _ :- SkipTlString(s);
    }
    var packetInnerLen := 0;
    if HasFlag(flags, 1) {
      packetInnerLen :- s.ReadTlLength();
    }
    r := Success(Parsed(Header(packetType, ackId, pseq, acks, []), packetInnerLen, s.buffer[s.offset..]));
  }

  method ReadSimple(s: BufferInputStream, hasFlags: bool) returns (r: Result<Parsed>)
    requires s.Valid()
    modifies s`offset
    ensures s.Valid() && r == ReadSimpleBlock(old(s.Rest()), hasFlags)
    ensures r.Success? ==> s.Rest() == r.value.rest
  {
    hide WireHeader.ReadTlLength, Read32, WireHeader.ReadByte, SkipBlockStart, ReadExtrasPart;
    var _ :- SkipRandom(s);
    var packetInnerLen :- s.ReadTlLength();
    var packetType :- s.ReadByte();
    var ackId :- s.ReadInt32();
    var pseq :- s.ReadInt32();
    var acks :- s.ReadInt32();
    var extras := [];
    if hasFlags {
      extras :- ReadExtras(s);
    }
    r := Success(Parsed(Header(packetType, ackId, pseq, acks, extras), packetInnerLen, s.buffer[s.offset..]));
  }

  method ReadPacketHeader(s: BufferInputStream, link: Link) returns (r: Result<Parsed>)
    requires s.Valid()
    modifies s`offset
    ensures s.Valid() && r == ReadHeader(link, old(s.Rest()))
    ensures r.Success? ==> s.Rest() == r.value.rest
  {
    hide ReadShort, ReadDecryptedBlock, ReadSimpleBlock, Read32;
    var shortFormat := link.peerVersion >= 8 || (link.peerVersion == 0 && link.connectionMaxLayer >= 92);
    if shortFormat {
      r := ReadShortHeader(s);
      return;
    }
    var tlid :- s.ReadInt32();
    if tlid == TLID_DECRYPTED_AUDIO_BLOCK {
      r := ReadDecrypted(s, link.callId);
    } else if tlid == TLID_SIMPLE_AUDIO_BLOCK {
      r := ReadSimple(s, link.peerVersion >= 6);
    } else {
      r := Failure(UnknownType);
    }
  }
}
