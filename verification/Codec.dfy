/**
 * The message codec the MessageEnum derive generates, for the CEC messages and for the CDC
 * messages nested in one of them (linux-cec-macros/src/lib.rs, linux-cec/src/message.rs, cdc.rs).
 */
module Codec {
  import opened Wire
  import opened FixedOperand
  import opened Operand

  datatype Table = CdcTable | CecTable {
    function Rank(): nat { if CecTable? then 1 else 0 }
  }

  // ---------------------------------------------------------------- layouts

  const ADDRESS := Plain(Word)

  function Span(low: u8, high: u8): set<u8> { set x: u8 | Within(x, low, high) }

  /** The operands every timer message starts with. */
  function TimerSlot(service: Kind): seq<Kind> {
    [Plain(OneOf("DayOfMonth", Span(1, 31))), Plain(OneOf("MonthOfYear", Span(1, 12))),
     Record(TIME), Record(DURATION), Plain(AnyByte), service]
  }

  const VERSION := Plain(OneOf("Version", Span(0, 6)))
  const STATUS_REQUEST := Plain(OneOf("StatusRequest", {1, 2, 3}))
  const DELAY := Limited(1, 251, None)

  /** The operands of each message, in the order the enum declares them. */
  function CecLayout(opcode: u8): (r: Option<seq<Kind>>)
    ensures r.Some? ==> LaidOut(CecTable, r.value)
  {
    if opcode < 0x80 then LowLayout(opcode) else HighLayout(opcode)
  }

  function LowLayout(opcode: u8): (r: Option<seq<Kind>>)
    ensures r.Some? ==> LaidOut(CecTable, r.value)
  {
    match opcode
    case 0x09 => Some([RecordSource])                                       // RecordOn
    case 0x0a => Some([Plain(OneOf("RecordStatusInfo",
                               Span(1, 7) + Span(9, 0xe) + Span(0x10, 0x17) + {0x1a, 0x1b, 0x1f}))]) // RecordStatus
    case 0x33 => Some(TimerSlot(Record(ANALOGUE)))                      // ClearAnalogueTimer
    case 0x34 => Some(TimerSlot(Record(ANALOGUE)))                      // SetAnalogueTimer
    case 0x67 => Some([Buffer(14, AnyByte)])                                // SetTimerProgramTitle
    case 0x43 => Some([Plain(OneOf("TimerClearedStatusData", {0, 1, 2, 0x80}))])  // TimerClearedStatus
    case 0x35 => Some([TimerStatus])                                        // TimerStatus
    case 0x32 => Some([Plain(Octets(3))])                                   // SetMenuLanguage
    case 0x42 => Some([Plain(OneOf("DeckControlMode", {1, 2, 3, 4}))])      // DeckControl
    case 0x1b => Some([Plain(OneOf("DeckInfo", Span(0x11, 0x1f)))]) // DeckStatus
    case 0x1a => Some([STATUS_REQUEST])                                     // GiveDeckStatus
    case 0x41 => Some([Plain(OneOf("PlayMode", PLAY_MODES))])               // Play
    case 0x08 => Some([STATUS_REQUEST])                                     // GiveTunerDeviceStatus
    case 0x07 => Some([TunerDevice])                                        // TunerDeviceStatus
    case 0x64 => Some([Plain(OneOf("DisplayControl", {0, 0x40, 0x80})), Buffer(13, AnyByte)]) // SetOsdString
    case 0x47 => Some([Buffer(14, AnyByte)])                                // SetOsdName
    case 0x44 => Some([UiCommand])                                          // UserControlPressed
    case 0x00 => Some([Plain(AnyByte), Plain(OneOf("AbortReason", Span(0, 5)))]) // FeatureAbort
    case 0x7a => Some([Plain(AnyByte)])                                     // ReportAudioStatus
    case 0x72 => Some([Plain(Truth)])                                       // SetSystemAudioMode
    case 0x70 => Some([ADDRESS])                                            // SystemAudioModeRequest
    case 0x7e => Some([Plain(Truth)])                                       // SystemAudioModeStatus
    case 0x73 => Some([Plain(Limited(0, 100, Some(0x7F)))])                 // SetAudioVolumeLevel
    case _ => if BareOpcode(opcode) then Some([]) else None
  }

  function HighLayout(opcode: u8): (r: Option<seq<Kind>>)
    ensures r.Some? ==> LaidOut(CecTable, r.value)
  {
    match opcode
    case 0x82 => Some([ADDRESS])                                            // ActiveSource
    case 0x9d => Some([ADDRESS])                                            // InactiveSource
    case 0x80 => Some([ADDRESS, ADDRESS])                                   // RoutingChange
    case 0x81 => Some([ADDRESS])                                            // RoutingInformation
    case 0x86 => Some([ADDRESS])                                            // SetStreamPath
    case 0x99 => Some(TimerSlot(DigitalService))                        // ClearDigitalTimer
    case 0xa1 => Some(TimerSlot(ExternalSource))                        // ClearExtTimer
    case 0x97 => Some(TimerSlot(DigitalService))                        // SetDigitalTimer
    case 0xa2 => Some(TimerSlot(ExternalSource))                        // SetExtTimer
    case 0x9e => Some([VERSION])                                            // CecVersion
    case 0x84 => Some([ADDRESS, Plain(OneOf("PrimaryDeviceType", {0, 1} + Span(3, 7)))]) // ReportPhysicalAddr
    case 0x92 => Some([Record(ANALOGUE)])                                   // SelectAnalogueService
    case 0x93 => Some([DigitalService])                                     // SelectDigitalService
    case 0x87 => Some([Plain(Octets(3))])                                   // DeviceVendorId
    case 0x89 => Some([Buffer(14, AnyByte)])                                // VendorCommand
    case 0xa0 => Some([Plain(Octets(3)), Buffer(11, AnyByte)])              // VendorCommandWithId
    case 0x8a => Some([Buffer(14, AnyByte)])                                // VendorRemoteButtonDown
    case 0x8d => Some([Plain(OneOf("MenuRequestType", {0, 1, 2}))])         // MenuRequest
    case 0x8e => Some([Plain(OneOf("MenuState", {0, 1}))])                  // MenuStatus
    case 0x90 => Some([Plain(OneOf("PowerStatus", {0, 1, 2, 3}))])          // ReportPowerStatus
    case 0xa3 => Some([Buffer(4, Octets(3))])                               // ReportShortAudioDescriptor
    case 0xa4 => Some([Buffer(4, AnyByte)])                                 // RequestShortAudioDescriptor
    case 0x9a => Some([Plain(OneOf("AudioRate", Span(0, 6)))])   // SetAudioRate
    case 0xf8 => Some([ADDRESS, Cdc])                                       // CdcMessage
    case 0xa6 => Some([VERSION, Plain(AnyByte), RcProfile, DeviceFeatures])       // ReportFeatures
    case 0xa7 => Some([ADDRESS])                                            // RequestCurrentLatency
    case 0xa8 => Some([ADDRESS, Plain(DELAY), Plain(AnyByte), Tail(DELAY)])       // ReportCurrentLatency
    case _ => if BareOpcode(opcode) then Some([]) else None
  }

  /** Messages without operands, such as ImageViewOn, Standby or GiveFeatures. */
  predicate BareOpcode(opcode: u8) {
    || 0x04 <= opcode <= 0x06 || opcode == 0x0b || opcode == 0x0d || opcode == 0x0f || opcode == 0x36
    || 0x45 <= opcode <= 0x46 || opcode == 0x71 || opcode == 0x7d || opcode == 0x83 || opcode == 0x85
    || 0x8b <= opcode <= 0x8c || opcode == 0x8f || opcode == 0x91 || opcode == 0x9f || opcode == 0xa5
    || 0xc0 <= opcode <= 0xc5 || opcode == 0xff
  }

  function CdcLayout(opcode: u8): (r: Option<seq<Kind>>)
    ensures r.Some? ==> LaidOut(CdcTable, r.value)
  {
    match opcode
    case 0x00 => Some([ADDRESS, ADDRESS])                                   // HecInquireState
    case 0x01 => Some([ADDRESS, Plain(AnyByte), Tail(Hec)])                 // HecReportState
    case 0x02 => Some([ADDRESS, Plain(Truth)])                              // HecSetStateAdjacent
    case 0x03 => Some([ADDRESS, ADDRESS, Plain(Truth), Buffer(3, Word)])    // HecSetState
    case 0x04 => Some([ADDRESS, ADDRESS, ADDRESS])                          // HecRequestDeactivation
    case 0x05 => Some([])                                                   // HecNotifyAlive
    case 0x06 => Some([])                                                   // HecDiscover
    case 0x10 => Some([Plain(AnyByte)])                                     // HpdSetState
    case 0x11 => Some([Plain(AnyByte)])                                     // HpdReportState
    case _ => None
  }

  function Layout(t: Table, opcode: u8): (r: Option<seq<Kind>>)
    ensures r.Some? ==> LaidOut(t, r.value)
  {
    if t.CecTable? then CecLayout(opcode) else CdcLayout(opcode)
  }

  /**
   * What every layout must respect: only the last operand may depend on the end of the message,
   * and in front of one that lists its lengths every operand has a single length.
   */
  predicate LaidOut(t: Table, fs: seq<Kind>) {
    && (forall i :: 0 <= i < |fs| - 1 ==> Delimited(fs[i]) && (EndsInList(fs) ==> FixedSize(fs[i])))
    && (forall i :: 0 <= i < |fs| ==> Sized(fs[i]) && (fs[i].Cdc? || fs[i].UiCommand? ==> t.CecTable?))
  }

  predicate EndsInList(fs: seq<Kind>) { fs != [] && Expect(fs[|fs| - 1]).Only? }

  predicate FixedSize(k: Kind) { k.Plain? || k.Record? || k.DigitalService? }

  /** The generated fold over the operands' declared lengths; it has no case for a range after a list. */
  function FoldLen(least: nat, fs: seq<Kind>): (r: Range)
    requires forall i :: 0 <= i < |fs| - 1 ==> Delimited(fs[i])
    ensures r.AtLeast? || (fs != [] && !Delimited(fs[|fs| - 1]))
    decreases fs
  {
    if fs == [] then AtLeast(least)
    else
      match Expect(fs[0])
      case AtLeast(n) => FoldLen(least + n, fs[1..])
      case Only(list) => assert !Delimited(fs[0]) && |fs| == 1; Only(list).Plus(least)
  }

  // ---------------------------------------------------------------- typing

  predicate TypedField(t: Table, k: Kind, v: Value)
    decreases t.Rank(), 0
  {
    Operand.Typed(k, v) && (k.Cdc? ==> t.CecTable? && Typed(CdcTable, v.message))
  }

  predicate Typed(t: Table, m: Message)
    decreases t.Rank(), 1
  {
    && Layout(t, m.opcode).Some?
    && var fs := Layout(t, m.opcode).value;
    |fs| == |m.args| && forall i :: 0 <= i < |fs| ==> TypedField(t, fs[i], m.args[i])
  }

  predicate WellFormedField(t: Table, k: Kind, v: Value)
    decreases t.Rank(), 0
  {
    TypedField(t, k, v) && Operand.WellFormed(k, v) && (k.Cdc? ==> WellFormed(CdcTable, v.message))
  }

  predicate WellFormed(t: Table, m: Message)
    decreases t.Rank(), 1
  {
    && Typed(t, m)
    && var fs := Layout(t, m.opcode).value;
    forall i :: 0 <= i < |fs| ==> WellFormedField(t, fs[i], m.args[i])
  }

  predicate TypedFields(t: Table, fs: seq<Kind>, vs: seq<Value>) {
    |fs| == |vs| && forall i :: 0 <= i < |fs| ==> TypedField(t, fs[i], vs[i])
  }

  predicate WellFormedFields(t: Table, fs: seq<Kind>, vs: seq<Value>) {
    |fs| == |vs| && forall i :: 0 <= i < |fs| ==> WellFormedField(t, fs[i], vs[i])
  }

  // ---------------------------------------------------------------- codec

  function FieldLen(t: Table, k: Kind, v: Value): nat
    requires TypedField(t, k, v)
    decreases t.Rank(), 0
  {
    if k.Cdc? then Len(CdcTable, v.message) else Operand.Len(k, v)
  }

  function FieldsLen(t: Table, fs: seq<Kind>, vs: seq<Value>): nat
    requires TypedFields(t, fs, vs)
    decreases t.Rank(), 1, |fs|
  {
    if fs == [] then 0 else FieldLen(t, fs[0], vs[0]) + FieldsLen(t, fs[1..], vs[1..])
  }

  function Len(t: Table, m: Message): nat
    requires Typed(t, m)
    decreases t.Rank(), 2
  {
    1 + FieldsLen(t, Layout(t, m.opcode).value, m.args)
  }

  function EncodeField(t: Table, k: Kind, v: Value): (b: bytes)
    requires TypedField(t, k, v)
    ensures |b| == FieldLen(t, k, v)
    decreases t.Rank(), 0
  {
    if k.Cdc? then Encode(CdcTable, v.message) else Operand.Encode(k, v)
  }

  function EncodeFields(t: Table, fs: seq<Kind>, vs: seq<Value>): (b: bytes)
    requires TypedFields(t, fs, vs)
    ensures |b| == FieldsLen(t, fs, vs)
    decreases t.Rank(), 1, |fs|
  {
    if fs == [] then [] else EncodeField(t, fs[0], vs[0]) + EncodeFields(t, fs[1..], vs[1..])
  }

  /** The opcode, then each operand; the length is the one len() predicts. */
  function Encode(t: Table, m: Message): (b: bytes)
    requires Typed(t, m)
    ensures |b| == Len(t, m) && b[0] == m.opcode
    decreases t.Rank(), 2
  {
    [m.opcode] + EncodeFields(t, Layout(t, m.opcode).value, m.args)
  }

  function DecodeField(t: Table, k: Kind, b: bytes): (r: Result<Value>)
    requires k.Cdc? ==> t.CecTable?
    ensures r.Success? ==> WellFormedField(t, k, r.value) && FieldLen(t, k, r.value) <= |b|
    decreases t.Rank(), 0
  {
    if k.Cdc? then var m :- Decode(CdcTable, b); Success(VCdc(m)) else Operand.Decode(k, b)
  }

  lemma {:induction false} FieldJoins(t: Table, fs: seq<Kind>, v: Value, rest: seq<Value>)
    requires fs != [] && WellFormedField(t, fs[0], v) && TypedField(t, fs[0], v)
    requires WellFormedFields(t, fs[1..], rest) && TypedFields(t, fs[1..], rest)
    ensures WellFormedFields(t, fs, [v] + rest) && TypedFields(t, fs, [v] + rest)
    ensures FieldsLen(t, fs, [v] + rest) == FieldLen(t, fs[0], v) + FieldsLen(t, fs[1..], rest)
  {
    hide TypedField, WellFormedField, FieldLen;
    assert ([v] + rest)[1..] == rest;
  }

  /** Each operand decoded from the running offset, the offset moved on by its length. */
  function DecodeFields(t: Table, fs: seq<Kind>, b: bytes, offset: nat): (r: Result<seq<Value>>)
    requires offset <= |b| && LaidOut(t, fs)
    ensures r.Success? ==> WellFormedFields(t, fs, r.value) && TypedFields(t, fs, r.value)
    ensures r.Success? ==> offset + FieldsLen(t, fs, r.value) <= |b|
    decreases t.Rank(), 1, |fs|
  {
    if fs == [] then Success([])
    else
      var v :- DecodeField(t, fs[0], b[offset..]).AddOffset(offset);
      var rest :- DecodeFields(t, fs[1..], b, offset + FieldLen(t, fs[0], v));
      FieldJoins(t, fs, v, rest);
      Success([v] + rest)
  }

  function Decode(t: Table, b: bytes): (r: Result<Message>)
    ensures r.Success? ==> WellFormed(t, r.value) && Len(t, r.value) <= |b|
    decreases t.Rank(), 2
  {
    if b == [] then Failure(OutOfRange(AtLeast(1), 0, Bytes))
    else if Layout(t, b[0]).None? then Failure(InvalidValueForType("Opcode", b[0]))
    else
      var fs := Layout(t, b[0]).value;
      var _ :- Check(FoldLen(1, fs), |b|, Bytes);
      var args :- DecodeFields(t, fs, b, 1);
      Success(Message(b[0], args))
  }

  // ---------------------------------------------------------------- round trips

  lemma {:induction false} FieldAsExpected(t: Table, k: Kind, v: Value)
    requires TypedField(t, k, v)
    ensures Expect(k).Contains(FieldLen(t, k, v))
    ensures FixedSize(k) ==> Expect(k) == AtLeast(FieldLen(t, k, v))
  {
    if !k.Cdc? { EncodedAsExpected(k, v); }
  }

  /** An encoding always has a length the decoder's fold declares. */
  lemma {:induction false} FoldMet(t: Table, least: nat, before: nat, fs: seq<Kind>, vs: seq<Value>)
    requires LaidOut(t, fs) && TypedFields(t, fs, vs)
    requires least <= before && (EndsInList(fs) ==> least == before)
    ensures FoldLen(least, fs).Contains(before + FieldsLen(t, fs, vs))
    decreases fs
  {
    hide TypedField, FieldLen, Len;
    if fs == [] {
    } else {
      FieldAsExpected(t, fs[0], vs[0]);
      match Expect(fs[0])
      case AtLeast(n) => FoldMet(t, least + n, before + FieldLen(t, fs[0], vs[0]), fs[1..], vs[1..]);
      case Only(list) => PlusContains(Only(list), least, FieldLen(t, fs[0], vs[0]));
    }
  }

  predicate Closed(fs: seq<Kind>) { fs == [] || Delimited(fs[|fs| - 1]) }

  /** What the fields after the first inherit, and what the first may rely on. */
  lemma {:induction false} LaterFields(t: Table, fs: seq<Kind>, vs: seq<Value>, suffix: bytes)
    requires fs != [] && LaidOut(t, fs) && WellFormedFields(t, fs, vs) && TypedFields(t, fs, vs)
    requires Closed(fs) || suffix == []
    ensures LaidOut(t, fs[1..]) && WellFormedFields(t, fs[1..], vs[1..]) && TypedFields(t, fs[1..], vs[1..])
    ensures Closed(fs[1..]) || suffix == []
    ensures WellFormedField(t, fs[0], vs[0]) && TypedField(t, fs[0], vs[0]) && Sized(fs[0])
    ensures EncodeFields(t, fs, vs) == EncodeField(t, fs[0], vs[0]) + EncodeFields(t, fs[1..], vs[1..])
    ensures vs == [vs[0]] + vs[1..]
    ensures Delimited(fs[0]) || EncodeFields(t, fs[1..], vs[1..]) + suffix == []
  {
    hide TypedField, WellFormedField, EncodeField, FieldLen, Expect;
  }

  lemma {:induction false} DecodeStep(t: Table, fs: seq<Kind>, b: bytes, offset: nat, v: Value, vs: seq<Value>)
    requires offset <= |b| && fs != [] && LaidOut(t, fs)
    requires DecodeField(t, fs[0], b[offset..]) == Success(v)
    requires DecodeFields(t, fs[1..], b, offset + FieldLen(t, fs[0], v)) == Success(vs)
    ensures DecodeFields(t, fs, b, offset) == Success([v] + vs)
  {
    hide DecodeField, FieldLen, Operand.WellFormed, Operand.Typed;
  }

  lemma {:induction false} NoFields(t: Table, vs: seq<Value>, b: bytes, offset: nat)
    requires offset <= |b| && TypedFields(t, [], vs)
    ensures vs == [] && DecodeFields(t, [], b, offset) == Success(vs)
  {}

  lemma {:induction false} FieldsRoundTrip(t: Table, fs: seq<Kind>, vs: seq<Value>,
                                           b: bytes, offset: nat, suffix: bytes)
    requires LaidOut(t, fs) && WellFormedFields(t, fs, vs) && TypedFields(t, fs, vs)
    requires Closed(fs) || suffix == []
    requires offset <= |b| && b[offset..] == EncodeFields(t, fs, vs) + suffix
    ensures DecodeFields(t, fs, b, offset) == Success(vs)
    decreases t.Rank(), 1, |fs|
  {
    hide *;
    if fs == [] {
      NoFields(t, vs, b, offset);
    } else {
      LaterFields(t, fs, vs, suffix);
      var first, rest := EncodeField(t, fs[0], vs[0]), EncodeFields(t, fs[1..], vs[1..]);
      assert b[offset..] == first + (rest + suffix);
      FieldRoundTrip(t, fs[0], vs[0], rest + suffix);
      SkipFront(b, offset, first, rest + suffix);
      FieldsRoundTrip(t, fs[1..], vs[1..], b, offset + |first|, suffix);
      DecodeStep(t, fs, b, offset, vs[0], vs[1..]);
    }
  }

  lemma {:induction false} FieldRoundTrip(t: Table, k: Kind, v: Value, suffix: bytes)
    requires Sized(k) && WellFormedField(t, k, v)
    requires Delimited(k) || suffix == []
    ensures DecodeField(t, k, EncodeField(t, k, v) + suffix) == Success(v)
    decreases t.Rank(), 0
  {
    if k.Cdc? {
      RoundTrip(CdcTable, v.message, suffix);
    } else {
      Operand.RoundTrip(k, v, suffix);
    }
  }

  /**
   * Every well-formed message of every variant decodes to itself; when its last operand is
   * delimited, trailing bytes change nothing.
   */
  lemma {:induction false} RoundTrip(t: Table, m: Message, suffix: bytes)
    requires WellFormed(t, m)
    requires Closed(Layout(t, m.opcode).value) || suffix == []
    ensures Decode(t, Encode(t, m) + suffix) == Success(m)
    decreases t.Rank(), 2
  {
    hide *;
    WellFormedArgs(t, m);
    var fs, b := Layout(t, m.opcode).value, Encode(t, m) + suffix;
    assert b[1..] == EncodeFields(t, fs, m.args) + suffix;
    FoldMet(t, 1, 1, fs, m.args);
    TrailingBytes(t, fs, |b| - |suffix|, suffix);
    FieldsRoundTrip(t, fs, m.args, b, 1, suffix);
    DecodeArgs(t, b, m.args);
  }

  lemma {:induction false} WellFormedArgs(t: Table, m: Message)
    requires WellFormed(t, m)
    ensures Layout(t, m.opcode).Some? && Typed(t, m)
    ensures var fs := Layout(t, m.opcode).value;
      && LaidOut(t, fs) && WellFormedFields(t, fs, m.args) && TypedFields(t, fs, m.args)
      && Encode(t, m) == [m.opcode] + EncodeFields(t, fs, m.args)
      && Len(t, m) == 1 + FieldsLen(t, fs, m.args)
  {
    hide TypedField, WellFormedField, CecLayout, CdcLayout;
  }

  lemma {:induction false} TrailingBytes(t: Table, fs: seq<Kind>, n: nat, suffix: bytes)
    requires LaidOut(t, fs)
    requires FoldLen(1, fs).Contains(n) && (Closed(fs) || suffix == [])
    ensures FoldLen(1, fs).Contains(n + |suffix|)
  {
    hide FoldLen, Delimited;
  }

  lemma {:induction false} DecodeArgs(t: Table, b: bytes, args: seq<Value>)
    requires b != [] && Layout(t, b[0]).Some?
    requires FoldLen(1, Layout(t, b[0]).value).Contains(|b|)
    requires DecodeFields(t, Layout(t, b[0]).value, b, 1) == Success(args)
    ensures Decode(t, b) == Success(Message(b[0], args))
  {
    hide CecLayout, CdcLayout, DecodeFields, FoldLen, WellFormedField, TypedField;
  }

  /** Decoding an encoding gives the message back exactly when the message is well-formed. */
  lemma {:induction false} RoundTripIff(m: Message)
    requires Typed(CecTable, m)
    ensures Decode(CecTable, Encode(CecTable, m)) == Success(m) <==> WellFormed(CecTable, m)
  {
    var b := Encode(CecTable, m);
    assert b + [] == b;
    if WellFormed(CecTable, m) { RoundTrip(CecTable, m, []); }
  }

  /** Decoding then encoding canonicalises: it never grows the input and a second pass changes nothing. */
  lemma {:induction false} Canonical(b: bytes)
    requires Decode(CecTable, b).Success?
    ensures var m := Decode(CecTable, b).value;
      && WellFormed(CecTable, m)
      && |Encode(CecTable, m)| <= |b|
      && Encode(CecTable, m)[0] == b[0]
      && Decode(CecTable, Encode(CecTable, m)) == Success(m)
  {
    RoundTripIff(Decode(CecTable, b).value);
  }

  // ---------------------------------------------------------------- error reports

  /** A UserControlPressed with a TuneFunction channel cut short. */
  predicate TruncatedTuneMessage(b: bytes) {
    2 < |b| < 6 && b[0] == 0x44 && b[1] == 0x67
  }

  lemma {:induction false} FieldHonest(t: Table, k: Kind, b: bytes)
    requires k.Cdc? ==> t.CecTable?
    requires !TruncatedTune(k, b)
    ensures Honest(DecodeField(t, k, b), |b|)
    decreases t.Rank(), 0
  {
    hide Operand.Decode;
    if k.Cdc? { MessageHonest(CdcTable, b); } else { LengthErrors(k, b); }
  }

  lemma {:induction false} FieldsHonest(t: Table, fs: seq<Kind>, b: bytes, offset: nat)
    requires offset <= |b| && LaidOut(t, fs)
    requires forall i :: 0 <= i < |fs| ==> !fs[i].UiCommand?
    ensures Honest(DecodeFields(t, fs, b, offset), |b|)
    decreases t.Rank(), 1, |fs|
  {
    hide DecodeField, TypedField, FieldLen, Operand.WellFormed;
    if fs == [] {
    } else {
      var first := DecodeField(t, fs[0], b[offset..]);
      FieldHonest(t, fs[0], b[offset..]);
      OffsetHonest(first, |b| - offset, offset);
      if first.Success? { FieldsHonest(t, fs[1..], b, offset + FieldLen(t, fs[0], first.value)); }
    }
  }

  lemma {:induction false} MessageHonest(t: Table, b: bytes)
    requires t.CecTable? && b != [] ==> b[0] != 0x44
    ensures Honest(Decode(t, b), |b|)
    decreases t.Rank(), 2
  {
    if b != [] && Layout(t, b[0]).Some? {
      var fs := Layout(t, b[0]).value;
      if t.CecTable? { NoUiElsewhere(b[0]); }
      hide CecLayout, CdcLayout, DecodeFields;
      if |b| >= 1 { FieldsHonest(t, fs, b, 1); }
    }
  }

  lemma {:induction false} NoUiElsewhere(opcode: u8)
    requires opcode != 0x44 && CecLayout(opcode).Some?
    ensures forall i :: 0 <= i < |CecLayout(opcode).value| ==> !CecLayout(opcode).value[i].UiCommand?
  {}

  /**
   * A length error reports the length of the whole input and a range that input violates, through
   * every nested operand and CDC message, exactly when the input is not a cut-short TuneFunction;
   * there the reported length is one short.
   */
  lemma {:induction false} LengthErrorsHonest(b: bytes)
    ensures Honest(Decode(CecTable, b), |b|) <==> !TruncatedTuneMessage(b)
    ensures TruncatedTuneMessage(b) ==> Decode(CecTable, b) == Failure(OutOfRange(AtLeast(5), |b| - 1, Bytes))
  {
    hide CecLayout, CdcLayout;
    if b != [] && b[0] == 0x44 {
      UserControlErrors(b);
    } else {
      MessageHonest(CecTable, b);
    }
  }

  lemma {:induction false} UserControlErrors(b: bytes)
    requires b != [] && b[0] == 0x44
    ensures TruncatedTuneMessage(b) ==> Decode(CecTable, b) == Failure(OutOfRange(AtLeast(5), |b| - 1, Bytes))
    ensures !TruncatedTuneMessage(b) ==> Honest(Decode(CecTable, b), |b|)
  {
    UserControlLayout();
    hide Operand.Decode, CecLayout, CdcLayout;
    if |b| >= 2 {
      var first := DecodeField(CecTable, UiCommand, b[1..]);
      if !TruncatedTune(UiCommand, b[1..]) {
        FieldHonest(CecTable, UiCommand, b[1..]);
        OffsetHonest(first, |b| - 1, 1);
      } else {
        LengthErrors(UiCommand, b[1..]);
      }
    }
  }

  lemma {:induction false} UserControlLayout()
    ensures CecLayout(0x44) == Some([UiCommand]) && FoldLen(1, [UiCommand]) == AtLeast(2)
  {}
}
