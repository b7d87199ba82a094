/**
 * Operands whose encoding varies in size or depends on what follows: derived structs, bounded
 * buffers, optional tails, continuation-bit profiles and the service, timer, tuner, source and
 * user-control operands (linux-cec/src/operand.rs).
 */
module Operand {
  import Arithmetic
  import opened Wire
  import opened FixedOperand

  /** The operand types a message layout is made of. */
  datatype Kind =
    | Plain(f: Fixed)
    | Record(fields: seq<Fixed>)                 // structs deriving Operand
    | Buffer(capacity: nat, element: Fixed)      // BoundedBufferOperand<S, T>
    | Tail(f: Fixed)                             // Option<T>
    | RcProfile
    | DeviceFeatures
    | DigitalService
    | TimerStatus
    | TunerDevice
    | ExternalSource
    | RecordSource
    | UiCommand
    | Cdc                                        // a nested message, decoded by module Codec

  datatype Buf = Buf(slots: seq<FixedValue>, len: nat) {
    function Used(): seq<FixedValue> requires len <= |slots| { slots[..len] }
  }

  datatype Head = Source(flags: u8) | Tv(id: u8) | Features(flags: u8)

  datatype DigitalServiceId =
    | Service(system: u8, data: seq<FixedValue>)
    | ByChannel(system: u8, channel: ChannelId, reserved: u16)

  datatype ServiceId = Digital(id: DigitalServiceId) | Analogue(fields: seq<FixedValue>)

  datatype External = Plug(plug: u8) | Address(address: u16)

  datatype RecordFrom =
    | Own
    | DigitalSource(id: DigitalServiceId)
    | AnalogueSource(fields: seq<FixedValue>)
    | FromExternal(e: External)

  datatype Value =
    | VPlain(v: FixedValue)
    | VRecord(vs: seq<FixedValue>)
    | VBuffer(buf: Buf)
    | VTail(tail: Option<FixedValue>)
    | VTagged(head: Head, extras: Buf)
    | VDigital(id: DigitalServiceId)
    | VTimer(overlap: bool, media: u8, programmed: bool, code: u8, duration: Option<seq<FixedValue>>)
    | VTuner(recording: bool, display: u8, service: ServiceId)
    | VExternal(e: External)
    | VRecordFrom(r: RecordFrom)
    | VUi(command: u8, payload: Option<FixedValue>)
    | VCdc(message: Message)

  datatype Message = Message(opcode: u8, args: seq<Value>)

  // ---------------------------------------------------------------- tables

  const DURATION: seq<Fixed> := [Bcd(0, 99), Bcd(0, 59)]
  const TIME: seq<Fixed> := [Bcd(0, 23), Bcd(0, 59)]
  const ANALOGUE: seq<Fixed> :=
    [OneOf("AnalogueBroadcastType", {0, 1, 2}), Word, OneOf("BroadcastSystem", {0, 1, 2, 3, 4, 5, 6, 7, 8, 0x1f})]
  const PROFILE_IDS: set<u8> := {0x00, 0x02, 0x06, 0x0a, 0x0e}
  const PLAY_MODES: set<u8> :=
    {0x05, 0x06, 0x07, 0x09, 0x0a, 0x0b, 0x15, 0x16, 0x17, 0x19, 0x1a, 0x1b, 0x20, 0x24, 0x25}
  predicate AtscSystem(system: u8) { system == 0x01 || 0x10 <= system <= 0x12 }

  predicate DigitalSystem(system: u8) {
    AtscSystem(system) || system == 0x00 || system == 0x02 || 0x08 <= system <= 0x0a || 0x18 <= system <= 0x1b
  }

  /** The user-control commands without a parameter. */
  predicate PlainCommand(c: u8) {
    || c <= 0x0d || 0x10 <= c <= 0x11 || 0x1d <= c <= 0x2c || 0x2f <= c <= 0x38 || 0x40 <= c <= 0x4e
    || 0x50 <= c <= 0x55 || 0x58 <= c <= 0x5a || 0x61 <= c <= 0x66 || 0x6b <= c <= 0x6d || 0x71 <= c <= 0x76
  }

  /** The optional parameter of the user-control commands that carry one. */
  function PayloadOf(command: u8): Option<Fixed> {
    match command
    case 0x56 => Some(OneOf("UiBroadcastType",
                            {0x00, 0x01, 0x10, 0x20, 0x30, 0x40, 0x50, 0x60, 0x70, 0x80, 0x90, 0x91, 0xa0}))
    case 0x57 => Some(OneOf("UiSoundPresentationControl",
                            {0x10, 0x20, 0x80, 0x90, 0xa0, 0xb1, 0xb2, 0xb3, 0xc1, 0xc2, 0xc3}))
    case 0x60 => Some(OneOf("PlayMode", PLAY_MODES))
    case 0x67 => Some(Channel)
    case 0x68 => Some(AnyByte)
    case 0x69 => Some(AnyByte)
    case 0x6a => Some(AnyByte)
    case _ => None
  }

  function ServiceFields(system: u8): (fs: seq<Fixed>)
    ensures RecordSize(fs) == 6
  {
    RecordSizes();
    if AtscSystem(system) then [Atsc] else [Word, Word, Word]
  }

  /** The timer status codes that may be followed by the time available. */
  predicate CarriesDuration(programmed: bool, code: u8) {
    if programmed then code == 0x9 || code == 0xb else code == 0xe
  }

  predicate ValidTimerCode(programmed: bool, code: u8) {
    if programmed then code in {0x8, 0x9, 0xa, 0xb}
    else code in {0x1, 0x2, 0x3, 0x4, 0x5, 0x6, 0x7, 0x8, 0x9, 0xa, 0xe}
  }

  /** The lengths a decoder declares it needs. */
  function Expect(k: Kind): Range {
    match k
    case Plain(f) => AtLeast(Size(f))
    case Record(fields) => AtLeast(RecordSize(fields))
    case Buffer(_, _) => AtLeast(0)
    case Tail(_) => AtLeast(0)
    case DigitalService => AtLeast(7)
    case TunerDevice => Only([5, 8])
    case ExternalSource => Only([1, 2])
    case _ => AtLeast(1)
  }

  /** Kinds that decode the same whatever follows them; the others must come last in a message. */
  predicate Delimited(k: Kind) {
    k.Plain? || k.Record? || k.RcProfile? || k.DeviceFeatures? || k.DigitalService? || k.RecordSource?
  }

  // ---------------------------------------------------------------- structs

  function RecordSize(fs: seq<Fixed>): nat {
    if fs == [] then 0 else Size(fs[0]) + RecordSize(fs[1..])
  }

  lemma {:induction false} RecordSizes()
    ensures RecordSize([Word, Word, Word]) == RecordSize([Atsc]) == 6
    ensures RecordSize(ANALOGUE) == 4 && RecordSize(DURATION) == RecordSize(TIME) == 2
  {
    assert [Word, Word, Word][1..] == [Word, Word] && [Word, Word][1..] == [Word];
    assert ANALOGUE[1..][1..] == [ANALOGUE[2]];
    assert DURATION[1..] == [Bcd(0, 59)] == TIME[1..];
  }

  predicate TypedRecord(fs: seq<Fixed>, vs: seq<FixedValue>) {
    |fs| == |vs| && forall i :: 0 <= i < |fs| ==> FixedOperand.Typed(fs[i], vs[i])
  }

  predicate WellFormedRecord(fs: seq<Fixed>, vs: seq<FixedValue>) {
    |fs| == |vs| && forall i :: 0 <= i < |fs| ==> FixedOperand.WellFormed(fs[i], vs[i])
  }

  function EncodeRecord(fs: seq<Fixed>, vs: seq<FixedValue>): (b: bytes)
    requires TypedRecord(fs, vs)
    ensures |b| == RecordSize(fs)
  {
    if fs == [] then [] else FixedOperand.Encode(fs[0], vs[0]) + EncodeRecord(fs[1..], vs[1..])
  }

  /** The fields of a struct, each decoded from the running offset. */
  function DecodeStruct(fs: seq<Fixed>, b: bytes, offset: nat): (r: Result<seq<FixedValue>>)
    requires offset <= |b|
    ensures r.Success? ==> WellFormedRecord(fs, r.value) && offset + RecordSize(fs) <= |b|
    ensures r.Failure? && LengthError(r.error) ==> |b| < offset + RecordSize(fs)
  {
    if fs == [] then Success([])
    else
      var v :- FixedOperand.Decode(fs[0], b[offset..]).AddOffset(offset);
      var rest :- DecodeStruct(fs[1..], b, offset + Size(fs[0]));
      Success([v] + rest)
  }

  function DecodeRecord(fs: seq<Fixed>, b: bytes): (r: Result<seq<FixedValue>>)
    ensures r.Success? ==> WellFormedRecord(fs, r.value) && RecordSize(fs) <= |b|
    ensures Honest(r, |b|)
    ensures r.Failure? && LengthError(r.error) ==> |b| < RecordSize(fs)
  {
    var _ :- Check(AtLeast(RecordSize(fs)), |b|, Bytes);
    DecodeStruct(fs, b, 0)
  }

  lemma {:induction false} RecordStep(fs: seq<Fixed>, vs: seq<FixedValue>)
    requires fs != [] && WellFormedRecord(fs, vs)
    ensures FixedOperand.WellFormed(fs[0], vs[0]) && FixedOperand.Typed(fs[0], vs[0])
    ensures WellFormedRecord(fs[1..], vs[1..]) && TypedRecord(fs[1..], vs[1..]) && vs == [vs[0]] + vs[1..]
    ensures EncodeRecord(fs, vs) == FixedOperand.Encode(fs[0], vs[0]) + EncodeRecord(fs[1..], vs[1..])
  {
    hide FixedOperand.Encode;
  }

  lemma {:induction false} StructStep(fs: seq<Fixed>, b: bytes, offset: nat, v: FixedValue, rest: seq<FixedValue>)
    requires fs != [] && offset <= |b| && FixedOperand.Decode(fs[0], b[offset..]) == Success(v)
    requires offset + Size(fs[0]) <= |b| && DecodeStruct(fs[1..], b, offset + Size(fs[0])) == Success(rest)
    ensures DecodeStruct(fs, b, offset) == Success([v] + rest)
  {
    hide FixedOperand.Decode, FixedOperand.WellFormed;
  }

  lemma {:induction false} NoFields(vs: seq<FixedValue>, b: bytes, offset: nat)
    requires WellFormedRecord([], vs) && offset <= |b|
    ensures DecodeStruct([], b, offset) == Success(vs)
  {}

  lemma {:induction false} StructRoundTrip(fs: seq<Fixed>, vs: seq<FixedValue>, b: bytes, offset: nat, suffix: bytes)
    requires WellFormedRecord(fs, vs)
    requires offset <= |b| && b[offset..] == EncodeRecord(fs, vs) + suffix
    ensures DecodeStruct(fs, b, offset) == Success(vs)
    decreases |fs|
  {
    hide *;
    if fs == [] {
      NoFields(vs, b, offset);
    } else {
      RecordStep(fs, vs);
      var first, rest := FixedOperand.Encode(fs[0], vs[0]), EncodeRecord(fs[1..], vs[1..]);
      assert (first + rest) + suffix == first + (rest + suffix);
      SkipFront(b, offset, first, rest + suffix);
      FixedOperand.RoundTrip(fs[0], vs[0], rest + suffix);
      StructRoundTrip(fs[1..], vs[1..], b, offset + |first|, suffix);
      StructStep(fs, b, offset, vs[0], vs[1..]);
    }
  }

  lemma {:induction false} RecordRoundTrip(fs: seq<Fixed>, vs: seq<FixedValue>, suffix: bytes)
    requires WellFormedRecord(fs, vs)
    ensures DecodeRecord(fs, EncodeRecord(fs, vs) + suffix) == Success(vs)
  {
    StructRoundTrip(fs, vs, EncodeRecord(fs, vs) + suffix, 0, suffix);
  }

  // ---------------------------------------------------------------- buffers

  predicate TypedAll(f: Fixed, vs: seq<FixedValue>) {
    forall i :: 0 <= i < |vs| ==> FixedOperand.Typed(f, vs[i])
  }

  predicate WellFormedAll(f: Fixed, vs: seq<FixedValue>) {
    forall i :: 0 <= i < |vs| ==> FixedOperand.WellFormed(f, vs[i])
  }

  /** What every constructor of BoundedBufferOperand keeps: a bounded length and a default tail. */
  predicate TypedBuf(capacity: nat, f: Fixed, buf: Buf) {
    && |buf.slots| == capacity && buf.len <= capacity
    && TypedAll(f, buf.Used())
    && forall i :: buf.len <= i < capacity ==> buf.slots[i] == Default(f)
  }

  predicate WellFormedBuf(capacity: nat, f: Fixed, buf: Buf) {
    TypedBuf(capacity, f, buf) && WellFormedAll(f, buf.Used())
  }

  function Padded(capacity: nat, f: Fixed, vs: seq<FixedValue>): Buf
    requires |vs| <= capacity
  {
    Buf(vs + seq(capacity - |vs|, i => Default(f)), |vs|)
  }

  function EncodeAll(f: Fixed, vs: seq<FixedValue>): (b: bytes)
    requires TypedAll(f, vs)
  {
    if vs == [] then [] else FixedOperand.Encode(f, vs[0]) + EncodeAll(f, vs[1..])
  }

  lemma {:induction false} AllLength(f: Fixed, vs: seq<FixedValue>)
    requires TypedAll(f, vs)
    ensures |EncodeAll(f, vs)| == |vs| * Size(f)
  {
    if vs == [] {
    } else {
      AllLength(f, vs[1..]);
    }
  }

  function DecodeAll(f: Fixed, b: bytes, offset: nat, room: nat): (r: Result<seq<FixedValue>>)
    ensures r.Success? ==> |r.value| <= room && WellFormedAll(f, r.value)
    ensures r.Success? && offset <= |b| ==> offset + |r.value| * Size(f) <= |b|
    ensures r.Failure? ==> !LengthError(r.error)
    decreases room
  {
    if room == 0 || offset + Size(f) > |b| then Success([])
    else
      var v :- FixedOperand.Decode(f, b[offset..]).AddOffset(offset);
      var rest :- DecodeAll(f, b, offset + Size(f), room - 1);
      Arithmetic.OneMore(|rest|, Size(f));
      Success([v] + rest)
  }

  function DecodeBuffer(capacity: nat, f: Fixed, b: bytes): (r: Result<Buf>)
    ensures r.Success? ==> WellFormedBuf(capacity, f, r.value) && r.value.len * Size(f) <= |b|
    ensures r.Failure? ==> !LengthError(r.error)
  {
    var vs :- DecodeAll(f, b, 0, capacity);
    var buf := Padded(capacity, f, vs);
    assert buf.Used() == vs;
    Success(buf)
  }

  lemma {:induction false} AllRoundTrip(f: Fixed, vs: seq<FixedValue>, b: bytes, offset: nat, room: nat)
    requires WellFormedAll(f, vs) && |vs| <= room && Size(f) > 0
    requires offset <= |b| && b[offset..] == EncodeAll(f, vs)
    ensures DecodeAll(f, b, offset, room) == Success(vs)
  {
    hide FixedOperand.Decode, FixedOperand.Encode;
    if vs == [] {
    } else {
      var first, rest := FixedOperand.Encode(f, vs[0]), EncodeAll(f, vs[1..]);
      SkipFront(b, offset, first, rest);
      FixedOperand.RoundTrip(f, vs[0], rest);
      AllRoundTrip(f, vs[1..], b, offset + |first|, room - 1);
      assert vs == [vs[0]] + vs[1..];
    }
  }

  lemma {:induction false} BufferRoundTrip(capacity: nat, f: Fixed, buf: Buf)
    requires WellFormedBuf(capacity, f, buf) && Size(f) > 0
    ensures DecodeBuffer(capacity, f, EncodeAll(f, buf.Used())) == Success(buf)
  {
    AllRoundTrip(f, buf.Used(), EncodeAll(f, buf.Used()), 0, capacity);
    assert Padded(capacity, f, buf.Used()).slots == buf.slots;
  }

  // ---------------------------------------------------------------- continuation-bit profiles

  function HeadByte(h: Head): u8 {
    match h
    case Source(flags) => flags
    case Tv(id) => id
    case Features(flags) => flags
  }

  predicate TypedHead(k: Kind, h: Head) {
    match h
    case Source(_) => k.RcProfile?
    case Tv(id) => k.RcProfile? && id in PROFILE_IDS
    case Features(_) => k.DeviceFeatures?
  }

  /** Seven bits are left to the head; a source profile is marked by bit 0x40. */
  predicate WellFormedHead(k: Kind, h: Head) {
    TypedHead(k, h) && HeadByte(h) < 0x80 && (h.Source? ==> HasBit(h.flags, 0x40))
  }

  function DecodeHead(k: Kind, b: u8): (r: Result<Head>)
    requires (k.RcProfile? || k.DeviceFeatures?) && b < 0x80
    ensures r.Success? ==> WellFormedHead(k, r.value)
    ensures r.Failure? ==> !LengthError(r.error)
  {
    if k.DeviceFeatures? then Success(Features(b))
    else if HasBit(b, 0x40) then Success(Source(b))
    else if b % 0x10 in PROFILE_IDS then Success(Tv(b % 0x10))
    else Failure(InvalidValueForType("RcProfileId", b % 0x10))
  }

  predicate SevenBit(b: bytes) { forall i :: 0 <= i < |b| ==> b[i] < 0x80 }

  function ExtraBytes(buf: Buf): (b: bytes)
    requires TypedBuf(14, AnyByte, buf)
    ensures |b| == buf.len
  {
    AllLength(AnyByte, buf.Used());
    EncodeAll(AnyByte, buf.Used())
  }

  /** All but the last byte carry the continuation bit. */
  function EncodeTagged(head: u8, extra: bytes): (b: bytes)
    ensures |b| == 1 + |extra|
    decreases extra
  {
    if extra == [] then [head % 0x80]
    else [SetBit(head, 0x80)] + EncodeTagged(extra[0], extra[1..])
  }

  /** The parameters from offset on, up to and including the first without a continuation bit. */
  function Extras(b: bytes, offset: nat): (extra: bytes)
    requires offset <= |b|
    ensures |extra| <= |b| - offset && SevenBit(extra)
    decreases |b| - offset
  {
    if offset == |b| then []
    else [b[offset] % 0x80] + (if b[offset] < 0x80 then [] else Extras(b, offset + 1))
  }

  function DecodeTagged(k: Kind, b: bytes): (r: Result<Value>)
    requires k.RcProfile? || k.DeviceFeatures?
    ensures r.Success? ==> WellFormedTagged(k, r.value) && 1 + r.value.extras.len <= |b|
    ensures Honest(r, |b|)
    ensures r.Failure? && LengthError(r.error) ==> b == []
  {
    var _ :- Check(AtLeast(1), |b|, Bytes);
    var head :- DecodeHead(k, b[0] % 0x80);
    var extra := if b[0] < 0x80 then [] else Extras(b, 1);
    var buf :- DecodeBuffer(14, AnyByte, extra);
    DecodedExtras(extra, 0, 14);
    assert SevenBit(ExtraBytes(buf));
    Success(VTagged(head, buf))
  }

  predicate WellFormedTagged(k: Kind, v: Value) {
    v.VTagged? && WellFormedHead(k, v.head) && TypedBuf(14, AnyByte, v.extras) && SevenBit(ExtraBytes(v.extras))
  }

  /** A byte buffer decodes to the bytes themselves, as many as fit. */
  lemma {:induction false} DecodedExtras(b: bytes, offset: nat, room: nat)
    requires offset <= |b|
    ensures DecodeAll(AnyByte, b, offset, room).Success?
    ensures EncodeAll(AnyByte, DecodeAll(AnyByte, b, offset, room).value) <= b[offset..]
    decreases room
  {
    if room > 0 && offset < |b| {
      DecodedExtras(b, offset + 1, room - 1);
      assert b[offset..] == [b[offset]] + b[offset + 1..];
    }
  }

  lemma {:induction false} ContinuationBit(x: u8)
    requires x < 0x80
    ensures SetBit(x, 0x80) == x + 0x80 && (x + 0x80) % 0x80 == x == x % 0x80
  {}

  lemma {:induction false} ExtrasRoundTrip(extra: bytes, b: bytes, offset: nat, suffix: bytes)
    requires extra != [] && SevenBit(extra)
    requires offset <= |b| && b[offset..] == EncodeTagged(extra[0], extra[1..]) + suffix
    ensures Extras(b, offset) == extra
    decreases extra
  {
    hide SetBit;
    var rest := extra[1..];
    ContinuationBit(extra[0]);
    assert b[offset] == b[offset..][0];
    if rest == [] {
      assert b[offset] == extra[0];
    } else {
      assert b[offset] == extra[0] + 0x80;
      assert b[offset + 1..] == EncodeTagged(rest[0], rest[1..]) + suffix;
      ExtrasRoundTrip(rest, b, offset + 1, suffix);
    }
    assert extra == [extra[0]] + rest;
  }

  /**
   * The continuation-bit encoding is self-delimiting: head and parameters come back whatever
   * follows, and the encoding is one byte longer than the parameters.
   */
  lemma {:induction false} TaggedRoundTrip(k: Kind, head: Head, extras: Buf, suffix: bytes)
    requires k.RcProfile? || k.DeviceFeatures?
    requires WellFormedTagged(k, VTagged(head, extras))
    ensures DecodeTagged(k, EncodeTagged(HeadByte(head), ExtraBytes(extras)) + suffix) == Success(VTagged(head, extras))
    ensures |EncodeTagged(HeadByte(head), ExtraBytes(extras))| == 1 + extras.len
  {
    var extra := ExtraBytes(extras);
    BufferRoundTrip(14, AnyByte, extras);
    HeadRoundTrip(k, head);
    TaggedParts(HeadByte(head), extra, suffix);
  }

  lemma {:induction false} HeadRoundTrip(k: Kind, head: Head)
    requires WellFormedHead(k, head)
    ensures DecodeHead(k, HeadByte(head)) == Success(head)
  {}

  lemma {:induction false} TaggedParts(head: u8, extra: bytes, suffix: bytes)
    requires head < 0x80 && SevenBit(extra)
    ensures var b := EncodeTagged(head, extra) + suffix;
      b[0] % 0x80 == head && (if b[0] < 0x80 then [] else Extras(b, 1)) == extra
  {
    hide SetBit;
    ContinuationBit(head);
    var b := EncodeTagged(head, extra) + suffix;
    if extra != [] {
      assert b[1..] == EncodeTagged(extra[0], extra[1..]) + suffix;
      ExtrasRoundTrip(extra, b, 1, suffix);
    }
  }

  // ---------------------------------------------------------------- services and sources

  predicate TypedDigital(id: DigitalServiceId) {
    DigitalSystem(id.system) && (id.Service? ==> TypedRecord(ServiceFields(id.system), id.data))
  }

  predicate WellFormedDigital(id: DigitalServiceId) {
    && DigitalSystem(id.system)
    && (id.Service? ==> WellFormedRecord(ServiceFields(id.system), id.data))
    && (id.ByChannel? ==> FixedOperand.WellFormed(Channel, VChannel(id.channel)))
  }

  function EncodeDigital(id: DigitalServiceId): (b: bytes)
    requires TypedDigital(id)
    ensures |b| == 7
  {
    match id
    case Service(system, data) => [system] + EncodeRecord(ServiceFields(system), data)
    case ByChannel(system, channel, reserved) =>
      [SetBit(system, 0x80)] + FixedOperand.Encode(Channel, VChannel(channel)) + WordBytes(reserved)
  }

  function DecodeDigital(b: bytes): (r: Result<DigitalServiceId>)
    ensures r.Success? ==> WellFormedDigital(r.value) && 7 <= |b|
    ensures Honest(r, |b|)
    ensures r.Failure? && LengthError(r.error) ==> |b| < 7
  {
    var _ :- Check(AtLeast(7), |b|, Bytes);
    var system := b[0] % 0x80;
    if !DigitalSystem(system) then Failure(InvalidValueForType("DigitalServiceBroadcastSystem", system))
    else if b[0] >= 0x80 then
      var channel :- FixedOperand.Decode(Channel, b[1..]).AddOffset(1);
      var reserved :- FixedOperand.Decode(Word, b[5..]).AddOffset(5);
      Success(ByChannel(system, channel.id, reserved.w))
    else
      var data :- DecodeRecord(ServiceFields(system), b[1..]).AddOffset(1);
      Success(Service(system, data))
  }

  lemma {:induction false} DigitalRoundTrip(id: DigitalServiceId, suffix: bytes)
    requires WellFormedDigital(id)
    ensures DecodeDigital(EncodeDigital(id) + suffix) == Success(id)
  {
    hide *;
    if id.Service? {
      ByServiceRoundTrip(id, suffix);
    } else {
      ByChannelRoundTrip(id, suffix);
    }
  }

  lemma {:induction false} ByServiceRoundTrip(id: DigitalServiceId, suffix: bytes)
    requires WellFormedDigital(id) && id.Service?
    ensures DecodeDigital(EncodeDigital(id) + suffix) == Success(id)
  {
    hide DecodeRecord, EncodeRecord, ServiceFields, FixedOperand.Typed;
    assert (EncodeDigital(id) + suffix)[1..] == EncodeRecord(ServiceFields(id.system), id.data) + suffix;
    RecordRoundTrip(ServiceFields(id.system), id.data, suffix);
  }

  lemma {:induction false} ByChannelRoundTrip(id: DigitalServiceId, suffix: bytes)
    requires WellFormedDigital(id) && id.ByChannel?
    ensures DecodeDigital(EncodeDigital(id) + suffix) == Success(id)
  {
    hide FixedOperand.Encode, FixedOperand.Decode, FixedOperand.WellFormed;
    var b, channel, word := EncodeDigital(id) + suffix, VChannel(id.channel), VWord(id.reserved);
    EncodesWord(id.reserved);
    assert b[1..] == FixedOperand.Encode(Channel, channel) + (WordBytes(id.reserved) + suffix);
    FixedOperand.RoundTrip(Channel, channel, WordBytes(id.reserved) + suffix);
    assert b[5..] == FixedOperand.Encode(Word, word) + suffix;
    FixedOperand.RoundTrip(Word, word, suffix);
  }

  lemma {:induction false} EncodesWord(w: u16)
    ensures FixedOperand.WellFormed(Word, VWord(w)) && FixedOperand.Encode(Word, VWord(w)) == WordBytes(w)
  {}

  function EncodeExternal(e: External): (b: bytes)
    ensures |b| == (if e.Plug? then 1 else 2)
  {
    match e
    case Plug(plug) => [plug]
    case Address(address) => WordBytes(address)
  }

  /** The form is told by the length alone. */
  function DecodeExternal(b: bytes): (r: Result<External>)
    ensures r.Success? ==> b == EncodeExternal(r.value)
    ensures Honest(r, |b|)
    ensures r.Failure? <==> |b| !in [1, 2]
  {
    var _ :- Check(Only([1, 2]), |b|, Bytes);
    if |b| == 1 then Success(Plug(b[0])) else Success(Address(WordAt(b, 0)))
  }

  predicate TypedRecordFrom(r: RecordFrom) {
    && (r.DigitalSource? ==> TypedDigital(r.id))
    && (r.AnalogueSource? ==> TypedRecord(ANALOGUE, r.fields))
  }

  predicate WellFormedRecordFrom(r: RecordFrom) {
    && (r.DigitalSource? ==> WellFormedDigital(r.id))
    && (r.AnalogueSource? ==> WellFormedRecord(ANALOGUE, r.fields))
  }

  function RecordFromLen(r: RecordFrom): nat {
    match r
    case Own => 1
    case DigitalSource(_) => 8
    case AnalogueSource(_) => 5
    case FromExternal(e) => if e.Plug? then 2 else 3
  }

  function EncodeRecordFrom(r: RecordFrom): (b: bytes)
    requires TypedRecordFrom(r)
    ensures |b| == RecordFromLen(r)
  {
    match r
    case Own => [1]
    case DigitalSource(id) => [2] + EncodeDigital(id)
    case AnalogueSource(fields) => [3] + EncodeRecord(ANALOGUE, fields)
    case FromExternal(e) => [if e.Plug? then 4 else 5] + EncodeExternal(e)
  }

  function DecodeRecordFrom(b: bytes): (r: Result<RecordFrom>)
    ensures r.Success? ==> WellFormedRecordFrom(r.value) && RecordFromLen(r.value) <= |b|
    ensures Honest(r, |b|)
  {
    var _ :- Check(AtLeast(1), |b|, Bytes);
    match b[0]
    case 1 => Success(Own)
    case 2 =>
      OffsetHonest(DecodeDigital(b[1..]), |b| - 1, 1);
      var id :- DecodeDigital(b[1..]).AddOffset(1);
      Success(DigitalSource(id))
    case 3 =>
      OffsetHonest(DecodeRecord(ANALOGUE, b[1..]), |b| - 1, 1);
      var fields :- DecodeRecord(ANALOGUE, b[1..]).AddOffset(1);
      Success(AnalogueSource(fields))
    case 4 =>
      var _ :- Check(AtLeast(2), |b|, Bytes);
      Success(FromExternal(Plug(b[1])))
    case 5 =>
      OffsetHonest(FixedOperand.Decode(Word, b[1..]), |b| - 1, 1);
      var address :- FixedOperand.Decode(Word, b[1..]).AddOffset(1);
      Success(FromExternal(Address(address.w)))
    case x => Failure(InvalidValueForType("RecordSourceType", x))
  }

  lemma {:induction false} OffsetHonest<T>(r: Result<T>, n: nat, offset: nat)
    requires Honest(r, n)
    ensures Honest(r.AddOffset(offset), n + offset)
  {
    if r.Failure? { OffsetKeepsHonest(r.error, n, offset); }
  }

  lemma {:induction false} RecordFromRoundTrip(r: RecordFrom, suffix: bytes)
    requires WellFormedRecordFrom(r)
    ensures DecodeRecordFrom(EncodeRecordFrom(r) + suffix) == Success(r)
  {
    hide EncodeDigital, DecodeDigital, DecodeRecord, EncodeRecord;
    var b := EncodeRecordFrom(r) + suffix;
    match r
    case Own =>
    case DigitalSource(id) =>
      assert b[1..] == EncodeDigital(id) + suffix;
      DigitalRoundTrip(id, suffix);
    case AnalogueSource(fields) =>
      assert b[1..] == EncodeRecord(ANALOGUE, fields) + suffix;
      RecordRoundTrip(ANALOGUE, fields, suffix);
    case FromExternal(e) =>
      if e.Address? {
        assert b[1..] == WordBytes(e.address) + suffix;
        EncodesWord(e.address);
        FixedOperand.RoundTrip(Word, VWord(e.address), suffix);
      }
  }

  // ---------------------------------------------------------------- timer and tuner status

  predicate TypedTimer(v: Value) {
    && v.VTimer? && v.media in {0, 1, 2} && ValidTimerCode(v.programmed, v.code)
    && (v.duration.Some? ==> CarriesDuration(v.programmed, v.code) && TypedRecord(DURATION, v.duration.value))
  }

  /** Overlap in bit 7, media in bits 5 and 6, programmed in bit 4, the code below. */
  function TimerByte(overlap: bool, media: u8, programmed: bool, code: u8): u8
    requires media < 3 && code < 0x10
  {
    (if overlap then 0x80 else 0) + media * 0x20 + (if programmed then 0x10 else 0) + code
  }

  function EncodeTimer(v: Value): (b: bytes)
    requires TypedTimer(v)
    ensures |b| == (if v.duration.Some? then 3 else 1)
  {
    RecordSizes();
    [TimerByte(v.overlap, v.media, v.programmed, v.code)]
    + (if v.duration.Some? then EncodeRecord(DURATION, v.duration.value) else [])
  }

  function DecodeDuration(b: bytes): (r: Result<Option<seq<FixedValue>>>)
    requires b != []
    ensures r.Success? && r.value.Some? ==> |b| >= 3 && WellFormedRecord(DURATION, r.value.value)
    ensures r.Failure? ==> !LengthError(r.error)
  {
    RecordSizes();
    if |b| >= 3 then
      var duration :- DecodeRecord(DURATION, b[1..]).AddOffset(1);
      Success(Some(duration))
    else Success(None)
  }

  function DecodeTimer(b: bytes): (r: Result<Value>)
    ensures r.Success? ==> TypedTimer(r.value) && (if r.value.duration.Some? then 3 else 1) <= |b|
    ensures Honest(r, |b|)
  {
    var _ :- Check(AtLeast(1), |b|, Bytes);
    var media, programmed, code := b[0] / 0x20 % 4, HasBit(b[0], 0x10), b[0] % 0x10;
    if media == 3 then Failure(InvalidValueForType("MediaInfo", media))
    else if !ValidTimerCode(programmed, code) then
      Failure(InvalidValueForType(if programmed then "ProgrammedInfo" else "NotProgrammedErrorInfo", code))
    else if CarriesDuration(programmed, code) then
      var duration :- DecodeDuration(b);
      Success(VTimer(b[0] >= 0x80, media, programmed, code, duration))
    else Success(VTimer(b[0] >= 0x80, media, programmed, code, None))
  }

  lemma {:induction false} TimerByteFields(overlap: bool, media: u8, programmed: bool, code: u8)
    requires media < 3 && code < 0x10
    ensures var b := TimerByte(overlap, media, programmed, code);
      (b >= 0x80) == overlap && b / 0x20 % 4 == media && HasBit(b, 0x10) == programmed && b % 0x10 == code
  {}

  lemma {:induction false} TimerRoundTrip(v: Value)
    requires TypedTimer(v)
    ensures DecodeTimer(EncodeTimer(v)) == Success(v)
  {
    var b := EncodeTimer(v);
    TimerByteFields(v.overlap, v.media, v.programmed, v.code);
    if v.duration.Some? {
      assert b[1..] == EncodeRecord(DURATION, v.duration.value) + [];
      RecordRoundTrip(DURATION, v.duration.value, []);
    }
  }

  predicate TypedTuner(v: Value) {
    && v.VTuner? && v.display in {0, 1, 2}
    && (match v.service
        case Digital(id) => TypedDigital(id)
        case Analogue(fields) => TypedRecord(ANALOGUE, fields))
  }

  predicate WellFormedTuner(v: Value) {
    && v.VTuner? && v.display in {0, 1, 2}
    && (match v.service
        case Digital(id) => WellFormedDigital(id)
        case Analogue(fields) => WellFormedRecord(ANALOGUE, fields))
  }

  function EncodeTuner(v: Value): (b: bytes)
    requires TypedTuner(v)
    ensures |b| == (if v.service.Digital? then 8 else 5)
  {
    RecordSizes();
    [if v.recording then v.display + 0x80 else v.display]
    + (match v.service
       case Digital(id) => EncodeDigital(id)
       case Analogue(fields) => EncodeRecord(ANALOGUE, fields))
  }

  /** The kind of service is told by the length alone. */
  function DecodeTuner(b: bytes): (r: Result<Value>)
    ensures r.Success? ==> WellFormedTuner(r.value) && |b| == (if r.value.service.Digital? then 8 else 5)
    ensures Honest(r, |b|)
    ensures r.Failure? && LengthError(r.error) ==> |b| !in [5, 8]
  {
    var _ :- Check(Only([5, 8]), |b|, Bytes);
    RecordSizes();
    if b[0] % 0x80 !in {0, 1, 2} then Failure(InvalidValueForType("TunerDisplayInfo", b[0] % 0x80))
    else if |b| == 5 then
      var fields :- DecodeRecord(ANALOGUE, b[1..]);
      Success(VTuner(b[0] >= 0x80, b[0] % 0x80, Analogue(fields)))
    else
      var id :- DecodeDigital(b[1..]);
      Success(VTuner(b[0] >= 0x80, b[0] % 0x80, Digital(id)))
  }

  lemma {:induction false} TunerRoundTrip(v: Value)
    requires WellFormedTuner(v)
    ensures DecodeTuner(EncodeTuner(v)) == Success(v)
  {
    hide EncodeDigital, DecodeDigital, EncodeRecord, DecodeRecord;
    var b := EncodeTuner(v);
    match v.service
    case Digital(id) =>
      assert b[1..] == EncodeDigital(id) + [];
      DigitalRoundTrip(id, []);
    case Analogue(fields) =>
      assert b[1..] == EncodeRecord(ANALOGUE, fields) + [];
      RecordRoundTrip(ANALOGUE, fields, []);
  }

  // ---------------------------------------------------------------- user control commands

  predicate TypedTail(f: Fixed, o: Option<FixedValue>) { o.Some? ==> FixedOperand.Typed(f, o.value) }

  predicate WellFormedTail(f: Fixed, o: Option<FixedValue>) { o.Some? ==> FixedOperand.WellFormed(f, o.value) }

  function EncodeTail(f: Fixed, o: Option<FixedValue>): (b: bytes)
    requires TypedTail(f, o)
    ensures |b| == (if o.Some? then Size(f) else 0)
  {
    if o.Some? then FixedOperand.Encode(f, o.value) else []
  }

  function DecodeTail(f: Fixed, b: bytes): (r: Result<Option<FixedValue>>)
    ensures r.Success? ==> WellFormedTail(f, r.value) && (r.value.Some? ==> Size(f) <= |b|)
    ensures r.Success? ==> (r.value.None? <==> b == [])
    ensures Honest(r, |b|)
    ensures r.Failure? && LengthError(r.error) ==> 0 < |b| < Size(f)
  {
    if b == [] then Success(None)
    else
      var v :- FixedOperand.Decode(f, b);
      Success(Some(v))
  }

  lemma {:induction false} TailRoundTrip(f: Fixed, o: Option<FixedValue>)
    requires WellFormedTail(f, o) && Size(f) > 0
    ensures DecodeTail(f, EncodeTail(f, o)) == Success(o)
  {
    if o.Some? {
      FixedOperand.RoundTrip(f, o.value, []);
      assert FixedOperand.Encode(f, o.value) + [] == FixedOperand.Encode(f, o.value);
    }
  }

  predicate TypedUi(command: u8, payload: Option<FixedValue>) {
    match PayloadOf(command)
    case Some(f) => TypedTail(f, payload)
    case None => PlainCommand(command) && payload.None?
  }

  predicate WellFormedUi(command: u8, payload: Option<FixedValue>) {
    TypedUi(command, payload) && (PayloadOf(command).Some? ==> WellFormedTail(PayloadOf(command).value, payload))
  }

  function EncodeUi(command: u8, payload: Option<FixedValue>): (b: bytes)
    requires TypedUi(command, payload)
    ensures |b| == 1 + (if payload.Some? then Size(PayloadOf(command).value) else 0)
  {
    match PayloadOf(command)
    case Some(f) => [command] + EncodeTail(f, payload)
    case None => [command]
  }

  /** A length error of the parameter is passed on without the command byte in front of it. */
  function DecodeUi(b: bytes): (r: Result<Value>)
    ensures r.Success? ==>
      && r.value.VUi? && WellFormedUi(r.value.command, r.value.payload)
      && |EncodeUi(r.value.command, r.value.payload)| <= |b|
    ensures r.Failure? && LengthError(r.error) <==> b == [] || (b[0] == 0x67 && 1 < |b| < 5)
    ensures b == [] ==> Honest(r, |b|)
    ensures b != [] && b[0] == 0x67 && 1 < |b| < 5 ==> r.error == OutOfRange(AtLeast(4), |b| - 1, Bytes)
  {
    var _ :- Check(AtLeast(1), |b|, Bytes);
    match PayloadOf(b[0])
    case Some(f) =>
      var payload :- DecodeTail(f, b[1..]);
      Success(VUi(b[0], payload))
    case None =>
      if PlainCommand(b[0]) then Success(VUi(b[0], None))
      else Failure(InvalidValueForType("UiCommand", b[0]))
  }

  lemma {:induction false} UiRoundTrip(command: u8, payload: Option<FixedValue>)
    requires WellFormedUi(command, payload)
    ensures DecodeUi(EncodeUi(command, payload)) == Success(VUi(command, payload))
  {
    if PayloadOf(command).Some? {
      var f := PayloadOf(command).value;
      TailRoundTrip(f, payload);
      assert EncodeUi(command, payload)[1..] == EncodeTail(f, payload);
    }
  }

  // ---------------------------------------------------------------- every operand kind

  predicate Typed(k: Kind, v: Value) {
    match k
    case Plain(f) => v.VPlain? && FixedOperand.Typed(f, v.v)
    case Record(fields) => v.VRecord? && TypedRecord(fields, v.vs)
    case Buffer(capacity, f) => v.VBuffer? && TypedBuf(capacity, f, v.buf)
    case Tail(f) => v.VTail? && TypedTail(f, v.tail)
    case RcProfile => v.VTagged? && TypedHead(k, v.head) && TypedBuf(14, AnyByte, v.extras)
    case DeviceFeatures => v.VTagged? && TypedHead(k, v.head) && TypedBuf(14, AnyByte, v.extras)
    case DigitalService => v.VDigital? && TypedDigital(v.id)
    case TimerStatus => TypedTimer(v)
    case TunerDevice => TypedTuner(v)
    case ExternalSource => v.VExternal?
    case RecordSource => v.VRecordFrom? && TypedRecordFrom(v.r)
    case UiCommand => v.VUi? && TypedUi(v.command, v.payload)
    case Cdc => v.VCdc?
  }

  predicate WellFormed(k: Kind, v: Value) {
    match k
    case Plain(f) => v.VPlain? && FixedOperand.WellFormed(f, v.v)
    case Record(fields) => v.VRecord? && WellFormedRecord(fields, v.vs)
    case Buffer(capacity, f) => v.VBuffer? && WellFormedBuf(capacity, f, v.buf)
    case Tail(f) => v.VTail? && WellFormedTail(f, v.tail)
    case RcProfile => WellFormedTagged(k, v)
    case DeviceFeatures => WellFormedTagged(k, v)
    case DigitalService => v.VDigital? && WellFormedDigital(v.id)
    case TimerStatus => TypedTimer(v)
    case TunerDevice => WellFormedTuner(v)
    case ExternalSource => v.VExternal?
    case RecordSource => v.VRecordFrom? && WellFormedRecordFrom(v.r)
    case UiCommand => v.VUi? && WellFormedUi(v.command, v.payload)
    case Cdc => v.VCdc?
  }

  /** The source's own length function, written apart from the encoder. */
  function Len(k: Kind, v: Value): nat
    requires !k.Cdc? && Typed(k, v)
  {
    match k
    case Plain(f) => Size(f)
    case Record(fields) => RecordSize(fields)
    case Buffer(capacity, f) => (if v.buf.len < capacity then v.buf.len else capacity) * Size(f)
    case Tail(f) => if v.tail.Some? then Size(f) else 0
    case RcProfile => 1 + v.extras.len
    case DeviceFeatures => 1 + v.extras.len
    case DigitalService => 7
    case TimerStatus => if v.duration.Some? then 3 else 1
    case TunerDevice => if v.service.Analogue? then 5 else 8
    case ExternalSource => if v.e.Plug? then 1 else 2
    case RecordSource => RecordFromLen(v.r)
    case UiCommand => (if v.payload.Some? then Size(PayloadOf(v.command).value) else 0) + 1
  }

  function Encode(k: Kind, v: Value): (b: bytes)
    requires !k.Cdc? && Typed(k, v)
    ensures |b| == Len(k, v)
  {
    match k
    case Plain(f) => FixedOperand.Encode(f, v.v)
    case Record(fields) => EncodeRecord(fields, v.vs)
    case Buffer(_, f) => AllLength(f, v.buf.Used()); EncodeAll(f, v.buf.Used())
    case Tail(f) => EncodeTail(f, v.tail)
    case RcProfile => EncodeTagged(HeadByte(v.head), ExtraBytes(v.extras))
    case DeviceFeatures => EncodeTagged(HeadByte(v.head), ExtraBytes(v.extras))
    case DigitalService => EncodeDigital(v.id)
    case TimerStatus => EncodeTimer(v)
    case TunerDevice => EncodeTuner(v)
    case ExternalSource => EncodeExternal(v.e)
    case RecordSource => EncodeRecordFrom(v.r)
    case UiCommand => EncodeUi(v.command, v.payload)
  }

  function Decode(k: Kind, b: bytes): (r: Result<Value>)
    requires !k.Cdc?
    ensures r.Success? ==> WellFormed(k, r.value) && Typed(k, r.value) && Len(k, r.value) <= |b|
  {
    match k
    case Plain(f) => var v :- FixedOperand.Decode(f, b); Success(VPlain(v))
    case Record(fields) => var vs :- DecodeRecord(fields, b); Success(VRecord(vs))
    case Buffer(capacity, f) => var buf :- DecodeBuffer(capacity, f, b); Success(VBuffer(buf))
    case Tail(f) => var o :- DecodeTail(f, b); Success(VTail(o))
    case RcProfile => DecodeTagged(k, b)
    case DeviceFeatures => DecodeTagged(k, b)
    case DigitalService => var id :- DecodeDigital(b); Success(VDigital(id))
    case TimerStatus => DecodeTimer(b)
    case TunerDevice => DecodeTuner(b)
    case ExternalSource => var e :- DecodeExternal(b); Success(VExternal(e))
    case RecordSource => var r :- DecodeRecordFrom(b); Success(VRecordFrom(r))
    case UiCommand => DecodeUi(b)
  }

  /** The one input family whose length error misreports: a truncated TuneFunction channel. */
  predicate TruncatedTune(k: Kind, b: bytes) {
    k.UiCommand? && 1 < |b| < 5 && b[0] == 0x67
  }

  /** Length errors of an operand are honest about its bytes, but for a truncated TuneFunction. */
  lemma {:induction false} LengthErrors(k: Kind, b: bytes)
    requires !k.Cdc?
    ensures TruncatedTune(k, b) ==> Decode(k, b) == Failure(OutOfRange(AtLeast(4), |b| - 1, Bytes))
    ensures !TruncatedTune(k, b) ==> Honest(Decode(k, b), |b|)
  {}

  /** Elements and optional parameters take at least one byte. */
  predicate Sized(k: Kind) {
    match k
    case Buffer(_, f) => Size(f) > 0
    case Tail(f) => Size(f) > 0
    case _ => true
  }

  /** A well-formed operand comes back, followed by anything if its kind is delimited. */
  lemma {:induction false} RoundTrip(k: Kind, v: Value, suffix: bytes)
    requires !k.Cdc? && Sized(k) && WellFormed(k, v) && (Delimited(k) || suffix == [])
    ensures Decode(k, Encode(k, v) + suffix) == Success(v)
  {
    if !Delimited(k) { assert Encode(k, v) + suffix == Encode(k, v); }
    match k
    case Plain(f) => FixedOperand.RoundTrip(f, v.v, suffix);
    case Record(fields) => RecordRoundTrip(fields, v.vs, suffix);
    case Buffer(capacity, f) => BufferRoundTrip(capacity, f, v.buf);
    case Tail(f) => TailRoundTrip(f, v.tail);
    case RcProfile => TaggedRoundTrip(k, v.head, v.extras, suffix);
    case DeviceFeatures => TaggedRoundTrip(k, v.head, v.extras, suffix);
    case DigitalService => DigitalRoundTrip(v.id, suffix);
    case TimerStatus => TimerRoundTrip(v);
    case TunerDevice => TunerRoundTrip(v);
    case ExternalSource => assert DecodeExternal(EncodeExternal(v.e)).value == v.e;
    case RecordSource => RecordFromRoundTrip(v.r, suffix);
    case UiCommand => UiRoundTrip(v.command, v.payload);
  }

  /** Every encoding has a length its decoder declares. */
  lemma {:induction false} EncodedAsExpected(k: Kind, v: Value)
    requires !k.Cdc? && Typed(k, v)
    ensures Expect(k).Contains(|Encode(k, v)|)
  {}
}
