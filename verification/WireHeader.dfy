/** The packet header on the wire: the short form and the two older ones, written and read
    back.  Integers are little-endian. */
module WireHeader {
  import opened SequenceNumbers
  import opened Bytes
  import opened PacketProtocol

  const TLID_DECRYPTED_AUDIO_BLOCK: uint32 := 0xDBF948C1
  const TLID_SIMPLE_AUDIO_BLOCK: uint32 := 0xCC0D0E76
  const PROTOCOL_NAME: uint32 := 0x50567247
  const XPFLAG_HAS_EXTRA: byte := 1

  datatype Reason = NotEnoughBytes | FlagsMissing | WrongCallId | WrongProtocol | UnknownType

  datatype Result<+T> = Success(value: T) | Failure(reason: Reason) {
    predicate IsFailure() { Failure? }
    function PropagateFailure<U>(): Result<U>
      requires IsFailure()
    {
      Failure(reason)
    }
    function Extract(): T
      requires !IsFailure()
    {
      value
    }
  }

  // ------------------------------------------------------------------- small pieces

  function Le32(n: uint32): (b: bytes)
    ensures |b| == 4
  {
    [n % 256, n / 0x100 % 256, n / 0x1_0000 % 256, n / 0x100_0000]
  }

  function From32(b0: byte, b1: byte, b2: byte, b3: byte): uint32 {
    b0 + b1 * 0x100 + b2 * 0x1_0000 + b3 * 0x100_0000
  }

  function ReadByte(s: bytes): Result<(byte, bytes)> {
    if |s| < 1 then Failure(NotEnoughBytes) else Success((s[0], s[1..]))
  }

  function Read32(s: bytes): Result<(uint32, bytes)> {
    if |s| < 4 then Failure(NotEnoughBytes) else Success((From32(s[0], s[1], s[2], s[3]), s[4..]))
  }

  function ReadBytes(s: bytes, n: nat): Result<(bytes, bytes)> {
    if |s| < n then Failure(NotEnoughBytes) else Success((s[..n], s[n..]))
  }

  /** A length in the older forms: one byte, or 254 and three bytes. */
  function TlLength(n: uint32): bytes {
    if n <= 253 then [n] else [254, n % 256, n / 0x100 % 256, n / 0x1_0000 % 256]
  }

  function ReadTlLength(s: bytes): Result<(nat, bytes)> {
    var (l, s1) :- ReadByte(s);
    if l < 254 then Success((l, s1))
    else if |s1| < 3 then Failure(NotEnoughBytes)
    else Success((From32(s1[0], s1[1], s1[2], 0), s1[3..]))
  }

  /** The bytes that fill up a string of length `n` and its length to a multiple of 4. */
  function Pad4(n: nat): (p: nat)
    ensures p < 4 && (n + (if n <= 253 then 1 else 0) + p) % 4 == 0
  {
    var r := 4 - (n + (if n <= 253 then 1 else 0)) % 4;
    if r == 4 then 0 else r
  }

  lemma Le32RoundTrip(n: uint32, rest: bytes)
    ensures Read32(Le32(n) + rest) == Success((n, rest))
  {
    var s := Le32(n) + rest;
    LowBytes(n);
    assert s[4..] == rest;
    assert s[..4] == Le32(n);
  }

  lemma ByteRoundTrip(b: byte, rest: bytes)
    ensures ReadByte([b] + rest) == Success((b, rest))
  {
  }

  lemma BytesRoundTrip(b: bytes, rest: bytes)
    ensures ReadBytes(b + rest, |b|) == Success((b, rest))
  {
  }

  /** A length comes back exactly if it fits in three bytes. */
  lemma {:induction false} TlLengthRoundTrip(n: uint32, rest: bytes)
    ensures ReadTlLength(TlLength(n) + rest) == Success((n % 0x100_0000, rest))
    ensures ReadTlLength(TlLength(n) + rest) == Success((n, rest)) <==> n < 0x100_0000
  {
    var s := TlLength(n) + rest;
    LowBytes(n);
    if n <= 253 {
      assert s[0] == n && s[1..] == rest;
    } else {
      var b0, b1, b2: byte := n % 256, n / 0x100 % 256, n / 0x1_0000 % 256;
      assert TlLength(n) == [254, b0, b1, b2];
      assert s[0] == 254 && s[1..] == [b0, b1, b2] + rest && s[1..][3..] == rest;
    }
  }

  // -------------------------------------------------------------------------- extras

  function OneExtra(e: Extra): bytes
    requires |e.data| <= 254
  {
    [|e.data| + 1, e.kind] + e.data
  }

  predicate Short(extras: seq<Extra>) {
    forall i :: 0 <= i < |extras| ==> |extras[i].data| <= 254
  }

  function AllExtras(extras: seq<Extra>): bytes
    requires Short(extras)
  {
    if extras == [] then [] else OneExtra(extras[0]) + AllExtras(extras[1..])
  }

  /** Flags, and the extras after their number in one byte. */
  function ExtrasPart(extras: seq<Extra>): bytes
    requires Short(extras)
  {
    if extras == [] then [0] else [XPFLAG_HAS_EXTRA, |extras| % 256] + AllExtras(extras)
  }

  function ReadOneExtra(s: bytes): Result<(Extra, bytes)> {
    var (n, s1) :- ReadByte(s);
    var (body, s2) :- ReadBytes(s1, n);
    var (kind, data) :- ReadByte(body);
    Success((Extra(kind, data), s2))
  }

  function ReadAllExtras(s: bytes, count: nat): Result<(seq<Extra>, bytes)> {
    if count == 0 then Success(([], s))
    else
      var (e, s1) :- ReadOneExtra(s);
      var (es, s2) :- ReadAllExtras(s1, count - 1);
      Success(([e] + es, s2))
  }

  function ReadExtrasPart(s: bytes): Result<(seq<Extra>, bytes)> {
    var (flags, s1) :- ReadByte(s);
    if flags % 2 == 0 then Success(([], s1))
    else
      var (count, s2) :- ReadByte(s1);
      ReadAllExtras(s2, count)
  }

  lemma OneExtraRoundTrip(e: Extra, rest: bytes)
    requires |e.data| <= 254
    ensures ReadOneExtra(OneExtra(e) + rest) == Success((e, rest))
  {
    var body := [e.kind] + e.data;
    assert OneExtra(e) + rest == [|e.data| + 1] + (body + rest);
    ByteRoundTrip(|e.data| + 1, body + rest);
    BytesRoundTrip(body, rest);
    ByteRoundTrip(e.kind, e.data);
  }

  lemma {:induction false} SomeExtrasRoundTrip(extras: seq<Extra>, rest: bytes, count: nat)
    requires Short(extras) && count <= |extras|
    ensures ReadAllExtras(AllExtras(extras) + rest, count) ==
            Success((extras[..count], AllExtras(extras[count..]) + rest))
    decreases count
  {
    if count == 0 {
      assert extras[0..] == extras;
    } else {
      assert AllExtras(extras) + rest == OneExtra(extras[0]) + (AllExtras(extras[1..]) + rest);
      OneExtraRoundTrip(extras[0], AllExtras(extras[1..]) + rest);
      SomeExtrasRoundTrip(extras[1..], rest, count - 1);
      assert extras[1..][count - 1..] == extras[count..];
      assert [extras[0]] + extras[1..][..count - 1] == extras[..count];
    }
  }

  lemma CountIsRead(s: bytes, s1: bytes, s2: bytes, flags: byte, count: byte)
    requires ReadByte(s) == Success((flags, s1)) && ReadByte(s1) == Success((count, s2)) && flags % 2 == 1
    ensures ReadExtrasPart(s) == ReadAllExtras(s2, count)
  {
    hide ReadByte, ReadAllExtras;
  }

  lemma NothingIsRead(rest: bytes)
    ensures ReadExtrasPart(ExtrasPart([]) + rest) == Success(([], rest))
  {
    ByteRoundTrip(0, rest);
  }

  lemma TwoInFront(a: byte, b: byte, all: bytes, rest: bytes)
    ensures ([a, b] + all) + rest == [a] + ([b] + (all + rest))
  {
    assert ([a, b] + all) + rest == [a, b] + (all + rest);
    assert [a, b] == [a] + [b];
  }

  lemma PartOfSome(extras: seq<Extra>, rest: bytes)
    requires Short(extras) && extras != []
    ensures ExtrasPart(extras) + rest == [XPFLAG_HAS_EXTRA] + ([|extras| % 256] + (AllExtras(extras) + rest))
  {
    TwoInFront(XPFLAG_HAS_EXTRA, |extras| % 256, AllExtras(extras), rest);
    hide AllExtras;
  }

  /** What comes back is as many extras as the byte for their number says. */
  lemma {:induction false} ExtrasAreRead(extras: seq<Extra>, rest: bytes)
    requires Short(extras)
    ensures ReadExtrasPart(ExtrasPart(extras) + rest) ==
            Success((extras[..|extras| % 256], AllExtras(extras[|extras| % 256..]) + rest))
  {
    var count := |extras| % 256;
    var all := AllExtras(extras) + rest;
    if extras == [] {
      NothingIsRead(rest);
      assert all == rest;
    } else {
      hide ReadAllExtras, OneExtra, ReadExtrasPart, ReadByte, AllExtras, ExtrasPart;
      PartOfSome(extras, rest);
      ByteRoundTrip(XPFLAG_HAS_EXTRA, [count] + all);
      ByteRoundTrip(count, all);
      CountIsRead(ExtrasPart(extras) + rest, [count] + all, all, XPFLAG_HAS_EXTRA, count);
      SomeExtrasRoundTrip(extras, rest, count);
    }
  }

  /** The extras come back exactly if their number fits in its byte. */
  lemma ExtrasRoundTrip(extras: seq<Extra>, rest: bytes)
    requires Short(extras)
    ensures ReadExtrasPart(ExtrasPart(extras) + rest) == Success((extras, rest)) <==> |extras| <= 255
  {
    hide ExtrasPart, ReadExtrasPart;
    ExtrasAreRead(extras, rest);
    var count := |extras| % 256;
    if |extras| <= 255 {
      assert extras[..count] == extras && extras[count..] == [];
      assert AllExtras([]) + rest == rest;
    } else {
      assert |extras[..count]| < |extras|;
    }
  }

  // ------------------------------------------------------------------------ the forms

  /** `DecryptedBlock` while the connection is set up, `SimpleBlock` after it; peers before
      version 6 know no flags there. */
  datatype Form = ShortForm | DecryptedBlock(callId: bytes) | SimpleBlock(hasFlags: bool)

  datatype State = WaitInit | WaitInitAck | Established | Failed | Reconnecting

  /** What a controller goes by: `peerVersion` is 0 until the peer has told its version. */
  datatype Link = Link(peerVersion: int, connectionMaxLayer: int, state: State, callId: bytes) {
    predicate ShortFormat() {
      peerVersion >= 8 || (peerVersion == 0 && connectionMaxLayer >= 92)
    }

    predicate HasFlags() { peerVersion >= 6 }

    predicate SettingUp() { state.WaitInit? || state.WaitInitAck? }

    /** The form in which this side writes its headers. */
    function Writes(): Form {
      if ShortFormat() then ShortForm
      else if SettingUp() then DecryptedBlock(callId)
      else SimpleBlock(HasFlags())
    }
  }

  /** The numbers every form carries. */
  function Numbers(h: Header): bytes {
    Le32(h.ackId) + Le32(h.pseq) + Le32(h.acks)
  }

  /** Eight random bytes, and seven more as a string. */
  datatype Random = Random(id: bytes, filler: bytes) {
    predicate Valid() { |id| == 8 && |filler| == 7 }
  }

  function BlockStart(tlid: uint32, r: Random): bytes {
    Le32(tlid) + r.id + [7] + r.filler
  }

  function InitFlags(packetType: byte, length: uint32): uint32 {
    // recent mask, sequence numbers, call id and protocol; data if there is any
    32 + 16 + 8 + 4 + (if length > 0 then 1 else 0) + packetType * 0x100_0000
  }

  function WriteHeader(form: Form, h: Header, length: uint32, r: Random): bytes
    requires Short(h.extras)
  {
    match form
    case ShortForm => [h.packetType] + Numbers(h) + ExtrasPart(h.extras)
    case DecryptedBlock(callId) =>
      BlockStart(TLID_DECRYPTED_AUDIO_BLOCK, r) + Le32(InitFlags(h.packetType, length)) + callId + Numbers(h)
      + Le32(PROTOCOL_NAME) + (if length > 0 then TlLength(length) else [])
    case SimpleBlock(hasFlags) =>
      BlockStart(TLID_SIMPLE_AUDIO_BLOCK, r) + TlLength(Wrap(length + 13)) + [h.packetType] + Numbers(h)
      + (if hasFlags then ExtrasPart(h.extras) else [])
  }

  /** What the receiver reads: the header, the inner length of the older forms, and what is
      left of the packet. */
  datatype Parsed = Parsed(header: Header, innerLength: nat, rest: bytes)

  predicate HasFlag(flags: uint32, flag: nat)
    requires flag > 0
  {
    flags / flag % 2 == 1
  }

  function ReadNumbers(s: bytes): Result<((uint32, uint32, uint32), bytes)> {
    var (ackId, s1) :- Read32(s);
    var (pseq, s2) :- Read32(s1);
    var (acks, s3) :- Read32(s2);
    Success(((ackId, pseq, acks), s3))
  }

  function SkipString(s: bytes): Result<bytes> {
    var (n, s1) :- ReadTlLength(s);
    var (skipped, s2) :- ReadBytes(s1, n + Pad4(n));
    Success(s2)
  }

  function SkipBlockStart(s: bytes): Result<bytes> {
    var (id, s1) :- ReadBytes(s, 8);
    SkipString(s1)
  }

  function ReadShort(s: bytes): Result<Parsed> {
    var (packetType, s1) :- ReadByte(s);
    var (numbers, s2) :- ReadNumbers(s1);
    var (extras, s3) :- ReadExtrasPart(s2);
    Success(Parsed(Header(packetType, numbers.0, numbers.1, numbers.2, extras), 0, s3))
  }

  function ReadCallId(s: bytes, flags: uint32, callId: bytes): Result<bytes> {
    if !HasFlag(flags, 4) then Success(s)
    else
      var (id, s1) :- ReadBytes(s, 16);
      if id != callId then Failure(WrongCallId) else Success(s1)
  }

  function ReadProtocol(s: bytes, flags: uint32): Result<bytes> {
    if !HasFlag(flags, 8) then Success(s)
    else
      var (protocol, s1) :- Read32(s);
      if protocol != PROTOCOL_NAME then Failure(WrongProtocol) else Success(s1)
  }

  function ReadDecryptedBlock(s: bytes, callId: bytes): Result<Parsed> {
    var s1 :- SkipBlockStart(s);
    var (flags, s2) :- Read32(s1);
    if !HasFlag(flags, 16) || !HasFlag(flags, 32) then Failure(FlagsMissing)
    else
      var s3 :- ReadCallId(s2, flags, callId);
      var (numbers, s4) :- ReadNumbers(s3);
      var s5 :- ReadProtocol(s4, flags);
      var s6 :- (if HasFlag(flags, 2) then SkipString(s5) else Success(s5));
      var (length, s7) :- (if HasFlag(flags, 1) then ReadTlLength(s6) else Success((0, s6)));
      Success(Parsed(Header(flags / 0x100_0000, numbers.0, numbers.1, numbers.2, []), length, s7))
  }

  function ReadSimpleBlock(s: bytes, hasFlags: bool): Result<Parsed> {
    var s1 :- SkipBlockStart(s);
    var (length, s2) :- ReadTlLength(s1);
    var (packetType, s3) :- ReadByte(s2);
    var (numbers, s4) :- ReadNumbers(s3);
    var (extras, s5) :- (if hasFlags then ReadExtrasPart(s4) else Success(([], s4)));
    Success(Parsed(Header(packetType, numbers.0, numbers.1, numbers.2, extras), length, s5))
  }

  /** Which older form it is, the packet says itself. */
  function ReadHeader(link: Link, s: bytes): Result<Parsed> {
    if link.ShortFormat() then ReadShort(s)
    else
      var (tlid, s1) :- Read32(s);
      if tlid == TLID_DECRYPTED_AUDIO_BLOCK then ReadDecryptedBlock(s1, link.callId)
      else if tlid == TLID_SIMPLE_AUDIO_BLOCK then ReadSimpleBlock(s1, link.HasFlags())
      else Failure(UnknownType)
  }

  // --------------------------------------------------------------------- round trips

  lemma {:induction false} NumbersRoundTrip(h: Header, rest: bytes)
    ensures ReadNumbers(Numbers(h) + rest) == Success(((h.ackId, h.pseq, h.acks), rest))
  {
    var s3 := Le32(h.acks) + rest;
    var s2 := Le32(h.pseq) + s3;
    assert Numbers(h) + rest == Le32(h.ackId) + s2;
    Le32RoundTrip(h.ackId, s2);
    Le32RoundTrip(h.pseq, s3);
    Le32RoundTrip(h.acks, rest);
  }

  lemma BlockStartRoundTrip(r: Random, rest: bytes)
    requires r.Valid()
    ensures SkipBlockStart(r.id + [7] + r.filler + rest) == Success(rest)
  {
    var s1 := [7] + (r.filler + rest);
    assert r.id + [7] + r.filler + rest == r.id + s1;
    BytesRoundTrip(r.id, s1);
    TlLengthRoundTrip(7, r.filler + rest);
    BytesRoundTrip(r.filler, rest);
  }

  /** In the short form everything comes back exactly if there are at most 255 extras. */
  lemma {:induction false} ShortFormRoundTrip(h: Header, length: uint32, r: Random, reader: Link, payload: bytes)
    requires Short(h.extras) && reader.ShortFormat()
    ensures var read := ReadHeader(reader, WriteHeader(ShortForm, h, length, r) + payload);
            read == Success(Parsed(h, 0, payload)) <==> |h.extras| <= 255
  {
    hide ExtrasPart, ReadExtrasPart, Numbers, ReadNumbers;
    var s2 := ExtrasPart(h.extras) + payload;
    var s1 := Numbers(h) + s2;
    assert WriteHeader(ShortForm, h, length, r) + payload == [h.packetType] + s1;
    ByteRoundTrip(h.packetType, s1);
    NumbersRoundTrip(h, s2);
    ExtrasRoundTrip(h.extras, payload);
    var extras := ReadExtrasPart(s2);
    assert ReadHeader(reader, [h.packetType] + s1) ==
           if extras.Failure? then Failure(extras.reason)
           else Success(Parsed(h.(extras := extras.value.0), 0, extras.value.1));
  }

  lemma InitFlagsAreRead(packetType: byte, length: uint32)
    ensures var flags := InitFlags(packetType, length);
            && flags / 0x100_0000 == packetType
            && HasFlag(flags, 1) == (length > 0) && !HasFlag(flags, 2) && HasFlag(flags, 4) && HasFlag(flags, 8)
            && HasFlag(flags, 16) && HasFlag(flags, 32)
  {
  }

  /** The set-up form carries no extras; its data length comes back below 2^24. */
  lemma {:induction false} DecryptedBlockRoundTrip(h: Header, length: uint32, r: Random, reader: Link, payload: bytes)
    requires Short(h.extras) && r.Valid() && |reader.callId| == 16 && !reader.ShortFormat()
    ensures ReadHeader(reader, WriteHeader(DecryptedBlock(reader.callId), h, length, r) + payload) ==
            Success(Parsed(h.(extras := []), length % 0x100_0000, payload))
  {
    var callId := reader.callId;
    var flags, tl := InitFlags(h.packetType, length), if length > 0 then TlLength(length) else [];
    InitFlagsAreRead(h.packetType, length);
    TlLengthRoundTrip(length, payload);
    assert [] + payload == payload;
    assert ReadAfterFlags(flags, tl + payload) == Success((length % 0x100_0000, payload));
    hide Numbers, ReadNumbers, SkipBlockStart, Le32, Read32, TlLength, ReadTlLength, InitFlags, HasFlag, From32;
    var s6 := tl + payload;
    var s5 := Le32(PROTOCOL_NAME) + s6;
    var s4 := Numbers(h) + s5;
    var s3 := callId + s4;
    var s2 := Le32(flags) + s3;
    var s1 := r.id + [7] + r.filler + s2;
    assert WriteHeader(DecryptedBlock(callId), h, length, r) + payload == Le32(TLID_DECRYPTED_AUDIO_BLOCK) + s1;
    Le32RoundTrip(TLID_DECRYPTED_AUDIO_BLOCK, s1);
    BlockStartRoundTrip(r, s2);
    Le32RoundTrip(flags, s3);
    BytesRoundTrip(callId, s4);
    NumbersRoundTrip(h, s5);
    Le32RoundTrip(PROTOCOL_NAME, s6);
  }

  function ReadAfterFlags(flags: uint32, s: bytes): Result<(nat, bytes)> {
    if HasFlag(flags, 1) then ReadTlLength(s) else Success((0, s))
  }

  /** The ordinary older form: the length covers the thirteen bytes after it as well, and
      comes back below 2^24; extras travel only with flags, and then come back exactly if
      there are at most 255. */
  lemma {:induction false} SimpleBlockRoundTrip(h: Header, length: uint32, r: Random, reader: Link, payload: bytes)
    requires Short(h.extras) && r.Valid() && !reader.ShortFormat()
    ensures var flags := reader.HasFlags();
            ReadHeader(reader, WriteHeader(SimpleBlock(flags), h, length, r) + payload) ==
            Success(Parsed(if flags then h else h.(extras := []), Wrap(length + 13) % 0x100_0000, payload))
            <==> (flags ==> |h.extras| <= 255)
  {
    hide Numbers, ReadNumbers, SkipBlockStart, Le32, Read32, TlLength, ReadTlLength, ExtrasPart, ReadExtrasPart;
    var hasFlags := reader.HasFlags();
    var extras := if hasFlags then ExtrasPart(h.extras) else [];
    var s5 := extras + payload;
    var s4 := Numbers(h) + s5;
    var s3 := [h.packetType] + s4;
    var s2 := TlLength(Wrap(length + 13)) + s3;
    var s1 := r.id + [7] + r.filler + s2;
    var wire := WriteHeader(SimpleBlock(hasFlags), h, length, r) + payload;
    assert wire == Le32(TLID_SIMPLE_AUDIO_BLOCK) + s1;
    Le32RoundTrip(TLID_SIMPLE_AUDIO_BLOCK, s1);
    BlockStartRoundTrip(r, s2);
    TlLengthRoundTrip(Wrap(length + 13), s3);
    ByteRoundTrip(h.packetType, s4);
    NumbersRoundTrip(h, s5);
    ExtrasRoundTrip(h.extras, payload);
    assert [] + payload == payload;
    var got := if hasFlags then ReadExtrasPart(s5) else Success(([], s5));
    assert ReadHeader(reader, wire) ==
           if got.Failure? then Failure(got.reason)
           else Success(Parsed(h.(extras := got.value.0), Wrap(length + 13) % 0x100_0000, got.value.1));
  }

  /** What a form can carry of a header, and the length it announces. */
  function CarriedBy(form: Form, h: Header): Header {
    if form.ShortForm? || (form.SimpleBlock? && form.hasFlags) then h else h.(extras := [])
  }

  function Announced(form: Form, length: uint32): nat {
    match form
    case ShortForm => 0
    case DecryptedBlock(_) => length % 0x100_0000
    case SimpleBlock(_) => Wrap(length + 13) % 0x100_0000
  }

  /** Two sides of one call that agree on the short format and, without it, on the flags:
      whatever form the sender chooses in its state, the receiver reads back what that form
      carries, exactly if the extras it carries are at most 255. */
  lemma {:induction false} HeaderRoundTrip(sender: Link, reader: Link, h: Header, length: uint32, r: Random, payload: bytes)
    requires Short(h.extras) && r.Valid() && |reader.callId| == 16 && sender.callId == reader.callId
    requires sender.ShortFormat() == reader.ShortFormat()
    requires !sender.ShortFormat() ==> sender.HasFlags() == reader.HasFlags()
    ensures var form := sender.Writes();
            ReadHeader(reader, WriteHeader(form, h, length, r) + payload) ==
            Success(Parsed(CarriedBy(form, h), Announced(form, length), payload))
            <==> |CarriedBy(form, h).extras| <= 255
  {
    hide ReadHeader, WriteHeader;
    match sender.Writes()
    case ShortForm => ShortFormRoundTrip(h, length, r, reader, payload);
    case DecryptedBlock(_) => DecryptedBlockRoundTrip(h, length, r, reader, payload);
    case SimpleBlock(_) => SimpleBlockRoundTrip(h, length, r, reader, payload);
  }
}
