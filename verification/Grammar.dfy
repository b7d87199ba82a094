/**
 * The wire format written down as a relation between bytes and values, in plain arithmetic and without the decoders'
 * own tests, and the proof that decoding reads exactly this (linux-cec/src/operand.rs, cdc.rs, linux-cec-macros).
 */
module Grammar {
  import opened Wire
  import opened FixedOperand
  import opened Operand
  import opened Codec
  import OperandLoops

  // ---------------------------------------------------------------- operands of fixed size

  /** Two bytes, high byte first. */
  function Pair(b: bytes, i: nat): int
    requires i + 2 <= |b|
  {
    var high: int, low: int := b[i], b[i + 1];
    256 * high + low
  }

  /** A byte of two decimal digits whose number is in the range. */
  ghost predicate Decimal(b: u8, min: u8, max: u8) {
    exists tens: nat, ones: nat :: Digits(b, tens, ones) && min <= 10 * tens + ones <= max
  }

  predicate Digits(b: u8, tens: nat, ones: nat) { tens <= 9 && ones <= 9 && b == 16 * tens + ones }

  predicate OneByte(v: FixedValue, b: bytes) { |b| >= 1 && v == VByte(b[0]) }

  ghost predicate HecReads(v: FixedValue, b: bytes) {
    && |b| >= 2 && v.VHec? && |v.inputs| == 14
    && (forall i :: 0 <= i < 14 ==> (v.inputs[i] <==> Pair(b, 0) / Pow2(i) % 2 == 1))
    && (v.output <==> Pair(b, 0) / 16384 % 2 == 1)
  }

  predicate ChannelReads(v: FixedValue, b: bytes) {
    && |b| >= 4 && v.VChannel?
    && match v.id
       case OnePart(part) => 1024 <= Pair(b, 0) < 2048 && Pair(b, 2) == part
       case TwoPart(major, minor) => major < 1024 && Pair(b, 0) == 2048 + major && Pair(b, 2) == minor
  }

  /** The front of the bytes spells the value. */
  ghost predicate FixedReads(f: Fixed, v: FixedValue, b: bytes) {
    match f
    case AnyByte => OneByte(v, b)
    case OneOf(_, values) => OneByte(v, b) && b[0] in values
    case Truth => |b| >= 1 && v.VTruth? && (v.t <==> b[0] > 0)
    case Word => |b| >= 2 && v.VWord? && v.w == Pair(b, 0)
    case Octets(n) => |b| >= n && v.VOctets? && |v.o| == n && forall i :: 0 <= i < n ==> v.o[i] == b[i]
    case Bcd(min, max) => OneByte(v, b) && Decimal(b[0], min, max)
    case Limited(low, high, escape) => OneByte(v, b) && (low <= b[0] <= high || escape == Some(b[0]))
    case Hec => HecReads(v, b)
    case Channel => ChannelReads(v, b)
    case Atsc => |b| >= 6 && v.VAtsc? && v.stream == Pair(b, 0) && v.program == Pair(b, 2) && b[4] == b[5] == 0
  }

  lemma {:induction false} BcdIsDecimal(min: u8, max: u8, b: u8)
    ensures ValidBcd(min, max, b) <==> Decimal(b, min, max)
  {
    assert b == 16 * (b / 16) + b % 16;
    assert ValidBcd(min, max, b) ==> Digits(b, b / 16, b % 16);
    if tens: nat, ones: nat :| Digits(b, tens, ones) && min <= 10 * tens + ones <= max {
      assert b / 16 == tens && b % 16 == ones;
    }
  }

  lemma {:induction false} HecDecodes(v: FixedValue, b: bytes)
    requires |b| >= 2
    ensures DecodeHec(WordAt(b, 0)) == v <==> HecReads(v, b)
  {
    var word := WordAt(b, 0);
    OperandLoops.BitsAreShifts(word, 14);
    hide Pow2, WordToBits;
    var bits := WordToBits(word, 14);
    if HecReads(v, b) {
      forall i | 0 <= i < 14 ensures v.inputs[i] == bits[i] {}
      assert v.inputs == bits;
    }
  }

  /** Decoding an operand of fixed size succeeds with a value exactly if the bytes spell it. */
  lemma {:induction false} FixedDecodes(f: Fixed, v: FixedValue, b: bytes)
    ensures FixedOperand.Decode(f, b) == Success(v) <==> FixedReads(f, v, b)
  {
    match f
    case Bcd(min, max) => if b != [] { BcdIsDecimal(min, max, b[0]); }
    case Hec => if |b| >= 2 { HecDecodes(v, b); }
    case Octets(n) => if |b| >= n && v.VOctets? { assert b[..n] == v.o <==> FixedReads(f, v, b); }
    case _ =>
  }

  // ---------------------------------------------------------------- operands of variable size

  /** The fields of a struct, one behind the other. */
  ghost predicate RecordReads(fs: seq<Fixed>, vs: seq<FixedValue>, b: bytes)
    decreases |fs|
  {
    if fs == [] then vs == []
    else
      && vs != [] && FixedReads(fs[0], vs[0], b) && Size(fs[0]) <= |b|
      && RecordReads(fs[1..], vs[1..], b[Size(fs[0])..])
  }

  /** As many whole elements as there are, up to the room. */
  ghost predicate AllRead(f: Fixed, vs: seq<FixedValue>, b: bytes, room: nat)
    decreases room
  {
    if room == 0 || |b| < Size(f) then vs == []
    else vs != [] && FixedReads(f, vs[0], b) && AllRead(f, vs[1..], b[Size(f)..], room - 1)
  }

  /** What stands in a buffer behind its elements: an invalid address, zeros or a zero. */
  predicate Unused(f: Fixed, v: FixedValue) {
    match f
    case Word => v == VWord(65535)
    case Octets(n) => v.VOctets? && |v.o| == n && forall i :: 0 <= i < n ==> v.o[i] == 0
    case _ => v == VByte(0)
  }

  ghost predicate BufferReads(capacity: nat, f: Fixed, buf: Buf, b: bytes) {
    && |buf.slots| == capacity && buf.len <= capacity
    && AllRead(f, buf.slots[..buf.len], b, capacity)
    && forall i :: buf.len <= i < capacity ==> Unused(f, buf.slots[i])
  }

  ghost predicate TailReads(f: Fixed, o: Option<FixedValue>, b: bytes) {
    if o.None? then b == [] else b != [] && FixedReads(f, o.value, b)
  }

  /** The low seven bits of the bytes that the continuation bits announce. */
  function Continued(b: bytes): bytes
    requires b != []
  {
    if b[0] < 128 || |b| == 1 then [] else [b[1] % 128] + Continued(b[1..])
  }

  /** Bit 6 marks a source profile; otherwise the low four bits name a television profile. */
  predicate HeadReads(k: Kind, h: Head, low: u8) {
    if k.DeviceFeatures? then h == Features(low)
    else if low >= 64 then h == Head.Source(low)
    else low % 16 in {0x00, 0x02, 0x06, 0x0a, 0x0e} && h == Tv(low % 16)
  }

  ghost predicate TaggedReads(k: Kind, v: Value, b: bytes) {
    && b != [] && v.VTagged?
    && HeadReads(k, v.head, b[0] % 128) && BufferReads(14, AnyByte, v.extras, Continued(b))
  }

  /** Three words for the European and Japanese systems; two and a reserved one for the American ones. */
  ghost predicate ServiceReads(system: u8, data: seq<FixedValue>, b: bytes) {
    RecordReads(if system in {0x01, 0x10, 0x11, 0x12} then [Atsc] else [Word, Word, Word], data, b)
  }

  /** The broadcast systems there are. */
  predicate ListedSystem(system: u8) {
    system in {0x00, 0x01, 0x02, 0x08, 0x09, 0x0a, 0x10, 0x11, 0x12, 0x18, 0x19, 0x1a, 0x1b}
  }

  /** Bit 7 of the system says whether a channel number follows. */
  ghost predicate DigitalReads(id: DigitalServiceId, b: bytes) {
    && |b| >= 7
    && ListedSystem(id.system)
    && match id
       case Service(system, data) => b[0] == system && ServiceReads(system, data, b[1..])
       case ByChannel(system, channel, reserved) =>
         b[0] as int == 128 + system && ChannelReads(VChannel(channel), b[1..]) && reserved == Pair(b, 5)
  }

  predicate ExternalReads(e: External, b: bytes) {
    match e
    case Plug(plug) => b == [plug]
    case Address(address) => |b| == 2 && address == Pair(b, 0)
  }

  ghost predicate RecordFromReads(r: RecordFrom, b: bytes) {
    b != [] &&
    match r
    case Own => b[0] == 1
    case DigitalSource(id) => b[0] == 2 && DigitalReads(id, b[1..])
    case AnalogueSource(fields) => b[0] == 3 && RecordReads(ANALOGUE, fields, b[1..])
    case FromExternal(Plug(plug)) => |b| >= 2 && b[0] == 4 && b[1] == plug
    case FromExternal(Address(address)) => |b| >= 3 && b[0] == 5 && Pair(b, 1) == address
  }

  /** Overlap in bit 7, media in bits 5 and 6, programmed in bit 4, the code below. */
  predicate TimerBits(b: u8, overlap: bool, media: u8, programmed: bool, code: u8) {
    b == (if overlap then 128 else 0) + 32 * media + (if programmed then 16 else 0) + code
  }

  /** Some codes are followed by a duration, if there is room for one. */
  ghost predicate TimerReads(v: Value, b: bytes) {
    && b != [] && v.VTimer? && v.media <= 2 && v.code < 16
    && TimerBits(b[0], v.overlap, v.media, v.programmed, v.code)
    && v.code in (if v.programmed then {8, 9, 10, 11} else {1, 2, 3, 4, 5, 6, 7, 8, 9, 10, 14})
    && (if v.code in (if v.programmed then {9, 11} else {14}) && |b| >= 3
        then v.duration.Some? && RecordReads(DURATION, v.duration.value, b[1..])
        else v.duration.None?)
  }

  /** The length tells an analogue service from a digital one. */
  ghost predicate TunerReads(v: Value, b: bytes) {
    && b != [] && v.VTuner? && v.display <= 2 && b[0] as int == (if v.recording then 128 else 0) + v.display
    && match v.service
       case Analogue(fields) => |b| == 5 && RecordReads(ANALOGUE, fields, b[1..])
       case Digital(id) => |b| == 8 && DigitalReads(id, b[1..])
  }

  /** Which values a command of one optional parameter byte takes. */
  predicate ParameterByte(command: u8, x: u8) {
    match command
    case 0x56 => x in {0x00, 0x01, 0x10, 0x20, 0x30, 0x40, 0x50, 0x60, 0x70, 0x80, 0x90, 0x91, 0xa0}
    case 0x57 => x in {0x10, 0x20, 0x80, 0x90, 0xa0, 0xb1, 0xb2, 0xb3, 0xc1, 0xc2, 0xc3}
    case 0x60 => x in {0x05, 0x06, 0x07, 0x09, 0x0a, 0x0b, 0x15, 0x16, 0x17, 0x19, 0x1a, 0x1b, 0x20, 0x24, 0x25}
    case _ => 0x68 <= command <= 0x6a
  }

  /** The codes no command has. */
  predicate Unassigned(c: u8) {
    || 0x0e <= c <= 0x0f || 0x12 <= c <= 0x1c || 0x2d <= c <= 0x2e || 0x39 <= c <= 0x3f || c == 0x4f
    || 0x5b <= c <= 0x5f || 0x6e <= c <= 0x70 || c >= 0x77
  }

  /** Seven commands have an optional parameter, one of them a channel number. */
  ghost predicate UiReads(v: Value, b: bytes) {
    && b != [] && v.VUi? && b[0] == v.command
    && if v.command in {0x56, 0x57, 0x60, 0x67, 0x68, 0x69, 0x6a}
       then
         && (v.payload.None? <==> |b| == 1)
         && (v.payload.Some? && v.command == 0x67 ==> ChannelReads(v.payload.value, b[1..]))
         && (v.payload.Some? && v.command != 0x67 ==>
               OneByte(v.payload.value, b[1..]) && ParameterByte(v.command, b[1]))
       else v.payload.None? && !Unassigned(v.command)
  }

  /** The bytes spell the operand; kinds that are not delimited take them to be all there is. */
  ghost predicate OperandReads(k: Kind, v: Value, b: bytes) {
    match k
    case Plain(f) => v.VPlain? && FixedReads(f, v.v, b)
    case Record(fields) => v.VRecord? && RecordReads(fields, v.vs, b)
    case Buffer(capacity, f) => v.VBuffer? && BufferReads(capacity, f, v.buf, b)
    case Tail(f) => v.VTail? && TailReads(f, v.tail, b)
    case RcProfile => TaggedReads(k, v, b)
    case DeviceFeatures => TaggedReads(k, v, b)
    case DigitalService => v.VDigital? && DigitalReads(v.id, b)
    case TimerStatus => TimerReads(v, b)
    case TunerDevice => TunerReads(v, b)
    case ExternalSource => v.VExternal? && ExternalReads(v.e, b)
    case RecordSource => v.VRecordFrom? && RecordFromReads(v.r, b)
    case UiCommand => UiReads(v, b)
    case Cdc => false
  }

  lemma {:induction false} StructDecodes(fs: seq<Fixed>, vs: seq<FixedValue>, b: bytes, offset: nat)
    requires offset <= |b|
    ensures DecodeStruct(fs, b, offset) == Success(vs) <==> RecordReads(fs, vs, b[offset..])
    decreases |fs|
  {
    hide FixedOperand.Decode, FixedReads, Size, FixedOperand.WellFormed;
    if fs == [] {
    } else {
      var rest := b[offset..];
      var first := FixedOperand.Decode(fs[0], rest);
      if first.Success? {
        FixedDecodes(fs[0], first.value, rest);
        assert b[offset + Size(fs[0])..] == rest[Size(fs[0])..];
        if vs != [] {
          FixedDecodes(fs[0], vs[0], rest);
          StructDecodes(fs[1..], vs[1..], b, offset + Size(fs[0]));
          assert vs == [vs[0]] + vs[1..];
        }
      } else if vs != [] {
        FixedDecodes(fs[0], vs[0], rest);
      }
    }
  }

  lemma {:induction false} RecordDecodes(fs: seq<Fixed>, vs: seq<FixedValue>, b: bytes)
    ensures DecodeRecord(fs, b) == Success(vs) <==> RecordReads(fs, vs, b)
  {
    StructDecodes(fs, vs, b, 0);
    assert b[0..] == b;
    if RecordReads(fs, vs, b) { RecordFits(fs, vs, b); }
  }

  lemma {:induction false} RecordFits(fs: seq<Fixed>, vs: seq<FixedValue>, b: bytes)
    requires RecordReads(fs, vs, b)
    ensures RecordSize(fs) <= |b|
    decreases |fs|
  {
    hide FixedReads, Size;
    if fs == [] {
    } else {
      RecordFits(fs[1..], vs[1..], b[Size(fs[0])..]);
    }
  }

  lemma {:induction false} AllDecode(f: Fixed, vs: seq<FixedValue>, b: bytes, offset: nat, room: nat)
    requires offset <= |b|
    ensures DecodeAll(f, b, offset, room) == Success(vs) <==> AllRead(f, vs, b[offset..], room)
    decreases room
  {
    hide FixedOperand.Decode, FixedReads, Size, FixedOperand.WellFormed;
    if room == 0 || offset + Size(f) > |b| {
    } else {
      var rest := b[offset..];
      var first := FixedOperand.Decode(f, rest);
      assert b[offset + Size(f)..] == rest[Size(f)..];
      if vs != [] {
        FixedDecodes(f, vs[0], rest);
        AllDecode(f, vs[1..], b, offset + Size(f), room - 1);
        assert vs == [vs[0]] + vs[1..];
      }
    }
  }

  lemma {:induction false} UnusedIsDefault(f: Fixed)
    ensures forall v :: Unused(f, v) <==> v == Default(f)
  {
    if f.Octets? {
      forall v ensures Unused(f, v) <==> v == Default(f) {
        if Unused(f, v) { assert v.o == Default(f).o; }
      }
    }
  }

  lemma {:induction false} BufferDecodes(capacity: nat, f: Fixed, buf: Buf, b: bytes)
    ensures DecodeBuffer(capacity, f, b) == Success(buf) <==> BufferReads(capacity, f, buf, b)
  {
    assert b[0..] == b;
    UnusedIsDefault(f);
    var r := DecodeAll(f, b, 0, capacity);
    hide Unused, DecodeAll, AllRead, Default, Size, WellFormedAll, WellFormedBuf;
    if r.Success? {
      AllDecode(f, r.value, b, 0, capacity);
      assert Padded(capacity, f, r.value).Used() == r.value;
    }
    if buf.len <= |buf.slots| {
      AllDecode(f, buf.Used(), b, 0, capacity);
      assert BufferReads(capacity, f, buf, b) ==> Padded(capacity, f, buf.Used()).slots == buf.slots;
    }
  }

  lemma {:induction false} TailDecodes(f: Fixed, o: Option<FixedValue>, b: bytes)
    ensures DecodeTail(f, b) == Success(o) <==> TailReads(f, o, b)
  {
    if o.Some? { FixedDecodes(f, o.value, b); }
  }

  lemma {:induction false} ExtrasContinue(b: bytes, offset: nat)
    requires offset < |b|
    ensures Continued(b[offset..]) == if b[offset] < 128 then [] else Extras(b, offset + 1)
    decreases |b| - offset
  {
    var rest := b[offset..];
    if rest[0] < 128 || |rest| == 1 {
    } else {
      assert rest[1..] == b[offset + 1..];
      ExtrasContinue(b, offset + 1);
    }
  }

  lemma {:induction false} TaggedDecodes(k: Kind, v: Value, b: bytes)
    requires k.RcProfile? || k.DeviceFeatures?
    ensures DecodeTagged(k, b) == Success(v) <==> TaggedReads(k, v, b)
  {
    if b != [] {
      ExtrasContinue(b, 0);
      assert b[0..] == b;
      HeadDecodes(k, b[0] % 128);
      hide BufferReads, DecodeBuffer, Extras, Continued, DecodeHead, HeadReads, WellFormedTagged;
      var extra := if b[0] < 128 then [] else Extras(b, 1);
      if v.VTagged? { BufferDecodes(14, AnyByte, v.extras, extra); }
    }
  }

  lemma {:induction false} HeadDecodes(k: Kind, low: u8)
    requires (k.RcProfile? || k.DeviceFeatures?) && low < 128
    ensures forall h :: DecodeHead(k, low) == Success(h) <==> HeadReads(k, h, low)
  {}

  lemma {:induction false} DigitalDecodes(id: DigitalServiceId, b: bytes)
    ensures DecodeDigital(b) == Success(id) <==> DigitalReads(id, b)
  {
    if |b| >= 7 {
      match id
      case Service(system, data) => ServiceFormDecodes(system, data, b);
      case ByChannel(system, channel, reserved) => ChannelFormDecodes(system, channel, reserved, b);
    }
  }

  lemma {:induction false} SystemByte(x: u8)
    ensures DigitalSystem(x % 0x80) <==> ListedSystem(x % 128)
    ensures x < 128 ==> x % 0x80 == x
    ensures x >= 128 ==> x % 0x80 == x - 128
  {}

  lemma {:induction false} ServiceFormDecodes(system: u8, data: seq<FixedValue>, b: bytes)
    requires |b| >= 7
    ensures DecodeDigital(b) == Success(Service(system, data)) <==> DigitalReads(Service(system, data), b)
  {
    SystemByte(b[0]);
    ServiceDecodes(system, data, b[1..]);
    hide FixedOperand.Decode, DecodeRecord, ServiceReads, ServiceFields, DigitalSystem;
  }

  lemma {:induction false} ChannelFormDecodes(system: u8, channel: ChannelId, reserved: u16, b: bytes)
    requires |b| >= 7
    ensures DecodeDigital(b) == Success(ByChannel(system, channel, reserved)) <==>
      DigitalReads(ByChannel(system, channel, reserved), b)
  {
    SystemByte(b[0]);
    ChannelAndWord(channel, reserved, b);
    hide FixedOperand.Decode, DecodeRecord, ChannelReads, ServiceFields, DigitalSystem, Pair;
  }

  lemma {:induction false} ServiceDecodes(system: u8, data: seq<FixedValue>, b: bytes)
    ensures DecodeRecord(ServiceFields(system), b) == Success(data) <==> ServiceReads(system, data, b)
  {
    RecordDecodes(ServiceFields(system), data, b);
    hide DecodeRecord, RecordReads;
  }

  lemma {:induction false} ChannelAndWord(channel: ChannelId, reserved: u16, b: bytes)
    requires |b| >= 7
    ensures FixedOperand.Decode(Channel, b[1..]) == Success(VChannel(channel)) <==>
      ChannelReads(VChannel(channel), b[1..])
    ensures FixedOperand.Decode(Word, b[5..]) == Success(VWord(reserved)) <==> reserved == Pair(b, 5)
    ensures FixedOperand.Decode(Channel, b[1..]).Success? ==> FixedOperand.Decode(Channel, b[1..]).value.VChannel?
    ensures FixedOperand.Decode(Word, b[5..]).Success? && FixedOperand.Decode(Word, b[5..]).value.VWord?
  {
    FixedDecodes(Channel, VChannel(channel), b[1..]);
    FixedDecodes(Word, VWord(reserved), b[5..]);
  }

  lemma {:induction false} RecordFromDecodes(r: RecordFrom, b: bytes)
    ensures DecodeRecordFrom(b) == Success(r) <==> RecordFromReads(r, b)
  {
    hide DecodeDigital, DecodeRecord, RecordReads, DigitalReads, FixedOperand.WellFormed;
    match r
    case DigitalSource(id) => if b != [] { DigitalDecodes(id, b[1..]); }
    case AnalogueSource(fields) => if b != [] { RecordDecodes(ANALOGUE, fields, b[1..]); }
    case _ =>
  }

  lemma {:induction false} TimerBitsAreFields(b: u8, overlap: bool, media: u8, programmed: bool, code: u8)
    requires media < 4 && code < 16
    ensures TimerBits(b, overlap, media, programmed, code) <==>
      (b >= 0x80) == overlap && b / 0x20 % 4 == media && HasBit(b, 0x10) == programmed && b % 0x10 == code
  {}

  lemma {:induction false} DurationDecodes(d: Option<seq<FixedValue>>, b: bytes)
    requires b != []
    ensures DecodeDuration(b) == Success(d) <==>
      if |b| >= 3 then d.Some? && RecordReads(DURATION, d.value, b[1..]) else d.None?
  {
    hide DecodeRecord, RecordReads;
    if d.Some? { RecordDecodes(DURATION, d.value, b[1..]); }
  }

  lemma {:induction false} TimerDecodes(v: Value, b: bytes)
    ensures DecodeTimer(b) == Success(v) <==> TimerReads(v, b)
  {
    if b != [] && v.VTimer? {
      if v.media < 4 && v.code < 16 { TimerBitsAreFields(b[0], v.overlap, v.media, v.programmed, v.code); }
      DurationDecodes(v.duration, b);
      hide DecodeDuration, RecordReads, HasBit, TypedRecord, WellFormedRecord;
    }
  }

  lemma {:induction false} TunerDecodes(v: Value, b: bytes)
    ensures DecodeTuner(b) == Success(v) <==> TunerReads(v, b)
  {
    hide DecodeDigital, DecodeRecord, RecordReads, DigitalReads;
    if b != [] && v.VTuner? {
      match v.service
      case Digital(id) => DigitalDecodes(id, b[1..]);
      case Analogue(fields) => RecordDecodes(ANALOGUE, fields, b[1..]);
    }
  }

  lemma {:induction false} CommandsListed(c: u8)
    ensures PayloadOf(c).Some? <==> c in {0x56, 0x57, 0x60, 0x67, 0x68, 0x69, 0x6a}
    ensures PayloadOf(c).None? ==> (PlainCommand(c) <==> !Unassigned(c))
    ensures c == 0x67 ==> PayloadOf(c) == Some(Channel)
    ensures PayloadOf(c).Some? && c != 0x67 ==> PayloadOf(c).value.AnyByte? || PayloadOf(c).value.OneOf?
    ensures PayloadOf(c).Some? && c != 0x67 ==>
      forall x: u8 :: ParameterByte(c, x) <==>
        (PayloadOf(c).value.AnyByte? || (PayloadOf(c).value.OneOf? && x in PayloadOf(c).value.values))
  {}

  lemma {:induction false} ParameterDecodes(c: u8, o: Option<FixedValue>, b: bytes)
    requires PayloadOf(c).Some?
    ensures TailReads(PayloadOf(c).value, o, b) <==>
      && (o.None? <==> b == [])
      && (o.Some? && c == 0x67 ==> ChannelReads(o.value, b))
      && (o.Some? && c != 0x67 ==> OneByte(o.value, b) && ParameterByte(c, b[0]))
  {
    CommandsListed(c);
    hide ParameterByte, ChannelReads, PayloadOf;
  }

  lemma {:induction false} UiDecodes(v: Value, b: bytes)
    ensures DecodeUi(b) == Success(v) <==> UiReads(v, b)
  {
    if b != [] && v.VUi? {
      CommandsListed(b[0]);
      if PayloadOf(b[0]).Some? {
        TailDecodes(PayloadOf(b[0]).value, v.payload, b[1..]);
        ParameterDecodes(b[0], v.payload, b[1..]);
      }
      hide PayloadOf, PlainCommand, Unassigned, TailReads, DecodeTail, ParameterByte, ChannelReads;
    }
  }

  /** Decoding an operand succeeds with a value exactly if the bytes spell it. */
  lemma {:induction false} OperandDecodes(k: Kind, v: Value, b: bytes)
    requires !k.Cdc?
    ensures Operand.Decode(k, b) == Success(v) <==> OperandReads(k, v, b)
  {
    hide FixedOperand.Decode, FixedReads, DecodeRecord, RecordReads, DecodeBuffer, BufferReads, DecodeTail, TailReads;
    hide DecodeTagged, TaggedReads, DecodeDigital, DigitalReads, DecodeTimer, TimerReads, DecodeTuner, TunerReads;
    hide DecodeRecordFrom, RecordFromReads, DecodeUi, UiReads;
    match k
    case Plain(f) => if v.VPlain? { FixedDecodes(f, v.v, b); }
    case Record(fields) => if v.VRecord? { RecordDecodes(fields, v.vs, b); }
    case Buffer(capacity, f) => if v.VBuffer? { BufferDecodes(capacity, f, v.buf, b); }
    case Tail(f) => if v.VTail? { TailDecodes(f, v.tail, b); }
    case RcProfile => TaggedDecodes(k, v, b);
    case DeviceFeatures => TaggedDecodes(k, v, b);
    case DigitalService => if v.VDigital? { DigitalDecodes(v.id, b); }
    case TimerStatus => TimerDecodes(v, b);
    case TunerDevice => TunerDecodes(v, b);
    case ExternalSource =>
    case RecordSource => if v.VRecordFrom? { RecordFromDecodes(v.r, b); }
    case UiCommand => UiDecodes(v, b);
  }

  // ---------------------------------------------------------------- messages

  ghost predicate FieldReads(t: Table, k: Kind, v: Value, b: bytes)
    decreases t.Rank(), 0
  {
    if k.Cdc? then t.CecTable? && v.VCdc? && MessageReads(CdcTable, v.message, b) else OperandReads(k, v, b)
  }

  /** The operands one behind the other, each as long as it says. */
  ghost predicate FieldsRead(t: Table, fs: seq<Kind>, vs: seq<Value>, b: bytes)
    decreases t.Rank(), 1, |fs|
  {
    if fs == [] then vs == []
    else
      && vs != [] && FieldReads(t, fs[0], vs[0], b)
      && TypedField(t, fs[0], vs[0]) && FieldLen(t, fs[0], vs[0]) <= |b|
      && FieldsRead(t, fs[1..], vs[1..], b[FieldLen(t, fs[0], vs[0])..])
  }

  /** An opcode of the table, and behind it the operands of its layout. */
  ghost predicate MessageReads(t: Table, m: Message, b: bytes)
    decreases t.Rank(), 2
  {
    && b != [] && b[0] == m.opcode && Layout(t, m.opcode).Some?
    && FieldsRead(t, Layout(t, m.opcode).value, m.args, b[1..])
  }

  lemma {:induction false} FieldDecodes(t: Table, k: Kind, v: Value, b: bytes)
    requires k.Cdc? ==> t.CecTable?
    ensures DecodeField(t, k, b) == Success(v) <==> FieldReads(t, k, v, b)
    decreases t.Rank(), 0
  {
    hide Operand.Decode, OperandReads, MessageReads;
    if k.Cdc? {
      if v.VCdc? { MessageDecodes(CdcTable, v.message, b); }
    } else {
      OperandDecodes(k, v, b);
    }
  }

  lemma {:induction false} FieldsDecode(t: Table, fs: seq<Kind>, vs: seq<Value>, b: bytes, offset: nat)
    requires offset <= |b| && LaidOut(t, fs)
    ensures DecodeFields(t, fs, b, offset) == Success(vs) <==> FieldsRead(t, fs, vs, b[offset..])
    decreases t.Rank(), 1, |fs|
  {
    hide DecodeField, FieldReads, FieldLen, Operand.WellFormed, Operand.Typed;
    if fs == [] {
    } else if vs != [] {
      var rest := b[offset..];
      FieldDecodes(t, fs[0], vs[0], rest);
      assert vs == [vs[0]] + vs[1..];
      if DecodeField(t, fs[0], rest) == Success(vs[0]) {
        var next := offset + FieldLen(t, fs[0], vs[0]);
        FieldsDecode(t, fs[1..], vs[1..], b, next);
        assert b[next..] == rest[FieldLen(t, fs[0], vs[0])..];
      }
    }
  }

  /** An operand that lists its lengths takes all there is. */
  lemma {:induction false} ListReadsAll(t: Table, fs: seq<Kind>, vs: seq<Value>, b: bytes)
    requires FieldsRead(t, fs, vs, b) && TypedFields(t, fs, vs) && EndsInList(fs)
    ensures |b| == FieldsLen(t, fs, vs)
    decreases |fs|
  {
    if |fs| == 1 {
      assert fs[1..] == [];
      assert fs[0].ExternalSource? || fs[0].TunerDevice?;
    } else {
      hide FieldReads, FieldLen, TypedField;
      ListReadsAll(t, fs[1..], vs[1..], b[FieldLen(t, fs[0], vs[0])..]);
    }
  }

  lemma {:induction false} LengthAdmitted(t: Table, fs: seq<Kind>, vs: seq<Value>, b: bytes)
    requires b != [] && LaidOut(t, fs) && DecodeFields(t, fs, b, 1) == Success(vs)
    ensures FoldLen(1, fs).Contains(|b|)
    decreases t.Rank(), 1, |fs| + 1
  {
    hide FieldsRead, FieldsLen, DecodeFields, TypedField, FoldLen, Expect, Delimited, TypedFields, WellFormedFields;
    FieldsDecode(t, fs, vs, b, 1);
    FoldMet(t, 1, 1, fs, vs);
    if EndsInList(fs) {
      ListReadsAll(t, fs, vs, b[1..]);
    } else {
      FoldShape(1, fs);
    }
  }

  lemma {:induction false} FoldShape(least: nat, fs: seq<Kind>)
    requires forall i :: 0 <= i < |fs| - 1 ==> Delimited(fs[i])
    ensures !EndsInList(fs) ==> FoldLen(least, fs).AtLeast?
    decreases |fs|
  {
    if fs == [] {
    } else if Expect(fs[0]).AtLeast? {
      FoldShape(least + Expect(fs[0]).min, fs[1..]);
    } else {
      assert |fs| == 1;
    }
  }

  /**
   * Decoding any bytes succeeds with a message exactly if they spell it. So the decoder accepts exactly the format
   * written down here, and reads nothing else out of it.
   */
  lemma {:induction false} MessageDecodes(t: Table, m: Message, b: bytes)
    ensures Codec.Decode(t, b) == Success(m) <==> MessageReads(t, m, b)
    decreases t.Rank(), 2
  {
    if b != [] && Layout(t, b[0]).Some? {
      var fs := Layout(t, b[0]).value;
      FieldsDecode(t, fs, m.args, b, 1);
      hide CecLayout, CdcLayout, DecodeFields, FieldsRead, FoldLen, WellFormedField, TypedField;
      if DecodeFields(t, fs, b, 1) == Success(m.args) { LengthAdmitted(t, fs, m.args, b); }
    }
  }

  lemma {:induction false} EncodingSpells(t: Table, m: Message)
    requires Codec.WellFormed(t, m)
    ensures MessageReads(t, m, Codec.Encode(t, m))
  {
    hide *;
    WellFormedArgs(t, m);
    assert Codec.Encode(t, m) + [] == Codec.Encode(t, m);
    Codec.RoundTrip(t, m, []);
    MessageDecodes(t, m, Codec.Encode(t, m));
  }

  /** How many operands each message has; nothing else is a message. */
  function Operands(opcode: u8): Option<nat> {
    if opcode in {0x04, 0x05, 0x06, 0x0b, 0x0d, 0x0f, 0x36, 0x45, 0x46, 0x71, 0x7d, 0x83, 0x85, 0x8b, 0x8c, 0x8f, 0x91,
                  0x9f, 0xa5, 0xc0, 0xc1, 0xc2, 0xc3, 0xc4, 0xc5, 0xff} then Some(0)
    else if opcode in {0x07, 0x08, 0x09, 0x0a, 0x1a, 0x1b, 0x32, 0x35, 0x41, 0x42, 0x43, 0x44, 0x47, 0x67, 0x70, 0x72,
                       0x73, 0x7a, 0x7e, 0x81, 0x82, 0x86, 0x87, 0x89, 0x8a, 0x8d, 0x8e, 0x90, 0x92, 0x93, 0x9a, 0x9d,
                       0x9e, 0xa3, 0xa4, 0xa7} then Some(1)
    else if opcode in {0x00, 0x64, 0x80, 0x84, 0xa0, 0xf8} then Some(2)
    else if opcode in {0xa6, 0xa8} then Some(4)
    else if opcode in {0x33, 0x34, 0x97, 0x99, 0xa1, 0xa2} then Some(6)
    else None
  }

  lemma {:induction false} KnownMessages(opcode: u8)
    ensures Operands(opcode) == match CecLayout(opcode) { case Some(fs) => Some(|fs|) case None => None }
  {
    if opcode < 0x80 { LowMessages(opcode); } else { HighMessages(opcode); }
  }

  lemma {:induction false} LowMessages(opcode: u8)
    requires opcode < 0x80
    ensures Operands(opcode) == match LowLayout(opcode) { case Some(fs) => Some(|fs|) case None => None }
  {}

  lemma {:induction false} HighMessages(opcode: u8)
    requires opcode >= 0x80
    ensures Operands(opcode) == match HighLayout(opcode) { case Some(fs) => Some(|fs|) case None => None }
  {}

  // ---------------------------------------------------------------- short messages

  lemma {:induction false} LastRead(t: Table, k: Kind, v: Value, b: bytes)
    requires !k.Cdc?
    ensures FieldsRead(t, [k], [v], b) <==> OperandReads(k, v, b)
  {
    OperandDecodes(k, v, b);
    hide OperandReads, Operand.Decode, Operand.Typed, Operand.WellFormed, Operand.Len;
    assert [v][1..] == [] && [k][1..] == [];
  }

  lemma {:induction false} PlainRead(t: Table, f: Fixed, v: FixedValue, fs: seq<Kind>, vs: seq<Value>, b: bytes)
    ensures FieldsRead(t, [Plain(f)] + fs, [VPlain(v)] + vs, b) <==>
      FixedReads(f, v, b) && Size(f) <= |b| && FieldsRead(t, fs, vs, b[Size(f)..])
  {
    FixedDecodes(f, v, b);
    assert FixedReads(f, v, b) ==> FixedOperand.Typed(f, v);
    hide FixedReads, FixedOperand.Decode, FixedOperand.Typed, FixedOperand.WellFormed, Size;
    assert ([Plain(f)] + fs)[1..] == fs && ([VPlain(v)] + vs)[1..] == vs;
  }

  /** What is decoded has the opcode of the bytes and as many operands as its layout. */
  lemma {:induction false} DecodedShape(t: Table, b: bytes)
    requires Codec.Decode(t, b).Success?
    ensures b != [] && Layout(t, b[0]).Some?
    ensures var m := Codec.Decode(t, b).value; m.opcode == b[0] && |m.args| == |Layout(t, b[0]).value|
  {
    MessageDecodes(t, Codec.Decode(t, b).value, b);
    hide CecLayout, CdcLayout, FieldsRead;
  }

  lemma {:induction false} KnownCdcMessages(opcode: u8)
    ensures (match CdcLayout(opcode) { case Some(fs) => Some(|fs|) case None => None }) ==
      if opcode in {0x05, 0x06} then Some(0)
      else if opcode in {0x10, 0x11} then Some(1)
      else if opcode in {0x00, 0x02} then Some(2)
      else if opcode in {0x01, 0x04} then Some(3)
      else if opcode == 0x03 then Some(4)
      else None
  {}

  // ---------------------------------------------------------------- clocks and analogue services

  lemma {:induction false} TwoFields(f: Fixed, g: Fixed, vs: seq<FixedValue>, b: bytes)
    requires Size(f) == Size(g) == 1
    ensures RecordReads([f, g], vs, b) <==>
      |vs| == 2 && |b| >= 2 && FixedReads(f, vs[0], b) && FixedReads(g, vs[1], b[1..])
  {
    hide FixedReads, Size;
    assert [f, g][1..] == [g] && [g][1..] == [];
    if vs != [] && |b| >= 1 {
      var rest := vs[1..];
      assert RecordReads([g], rest, b[1..]) <==>
        rest != [] && FixedReads(g, rest[0], b[1..]) && 1 <= |b[1..]| && rest[1..] == [];
    }
  }

  /** A time is its hour and then its minute, a duration its hours and then its minutes, all in decimal digits. */
  lemma {:induction false} ClockReads(vs: seq<FixedValue>, b: bytes)
    ensures RecordReads(TIME, vs, b) <==>
      |b| >= 2 && vs == [VByte(b[0]), VByte(b[1])] && Decimal(b[0], 0, 23) && Decimal(b[1], 0, 59)
    ensures RecordReads(DURATION, vs, b) <==>
      |b| >= 2 && vs == [VByte(b[0]), VByte(b[1])] && Decimal(b[0], 0, 99) && Decimal(b[1], 0, 59)
  {
    TwoFields(Bcd(0, 23), Bcd(0, 59), vs, b);
    TwoFields(Bcd(0, 99), Bcd(0, 59), vs, b);
    hide RecordReads, Decimal;
  }

  /** An analogue service is its kind, its frequency and its broadcast system. */
  lemma {:induction false} AnalogueReads(vs: seq<FixedValue>, b: bytes)
    ensures RecordReads(ANALOGUE, vs, b) <==>
      && |b| >= 4 && vs == [VByte(b[0]), VWord(Pair(b, 1)), VByte(b[3])]
      && b[0] <= 2 && (b[3] <= 8 || b[3] == 31)
  {
    var kind, system := ANALOGUE[0], ANALOGUE[2];
    assert ANALOGUE[1..] == [Word, system] && ANALOGUE[1..][1..] == [system] && ANALOGUE[1..][1..][1..] == [];
    if |vs| >= 1 && |b| >= 1 {
      if |vs| >= 2 && |b| >= 3 {
        assert b[1..][2..] == b[3..];
        if |vs| == 3 { assert vs[1..][1..][1..] == []; }
      }
    }
  }
}
