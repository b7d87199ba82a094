/** Which messages the device task tells apart, and how its replies look on the wire (cecd/src/device.rs). */
module Messages {
  import opened Wire
  import FixedOperand
  import Operand
  import opened Codec
  import opened E = Envelope
  import G = Grammar
  import opened Reactions

  /** The match of handle_message on a received message. */
  function Classify(data: MessageData): Event
    requires data.Valid? ==> WellFormed(CecTable, data.message)
  {
    if data.Invalid? then Unhandled
    else
      var m := data.message;
      match m.opcode
      case 0x8f => PowerRequest
      case 0x44 => Pressed(m.args[0])
      case 0x45 => Released
      case 0x86 => StreamPath(AddressArg(m, 0))
      case 0x82 => SourceAnnounced(AddressArg(m, 0))
      case 0x80 => RouteChanged(AddressArg(m, 1))
      case 0x36 => StandbyRequest
      case 0x85 => SourceRequest
      case 0x72 => AudioMode(m.args[0].v.t)
      case 0x7e => AudioMode(m.args[0].v.t)
      case 0x00 => Aborted
      case _ => Unhandled
  }

  function AddressArg(m: Operand.Message, i: nat): Address
    requires i < |m.args| && m.args[i].VPlain? && m.args[i].v.VWord?
  {
    m.args[i].v.w
  }

  function Address1(a: Address): Operand.Value { Operand.VPlain(FixedOperand.VWord(a)) }

  function Byte1(b: u8): Operand.Value { Operand.VPlain(FixedOperand.VByte(b)) }

  function ReplyMessage(reply: Reply): Operand.Message {
    match reply
    case PowerOn => Operand.Message(0x90, [Byte1(0)])
    case Source(a) => Operand.Message(0x82, [Address1(a)])
    case FeatureAbort(opcode, reason) => Operand.Message(0x00, [Byte1(opcode), Byte1(reason)])
  }

  /** RequestActiveSource, which a local activation sends. */
  function RequestMessage(): Operand.Message { Operand.Message(0x85, []) }

  lemma {:induction false} ReplyLayouts()
    ensures Layout(CecTable, 0x90) == Some([Operand.Plain(FixedOperand.OneOf("PowerStatus", {0, 1, 2, 3}))])
    ensures Layout(CecTable, 0x82) == Some([ADDRESS])
    ensures Layout(CecTable, 0x00) ==
      Some([Operand.Plain(FixedOperand.AnyByte), Operand.Plain(FixedOperand.OneOf("AbortReason", Span(0, 5)))])
    ensures Layout(CecTable, 0x85) == Some([])
  {}

  /** A message of one or two fixed-size operands is as well-formed as they are. */
  lemma {:induction false} PlainMessage(m: Operand.Message, fs: seq<Operand.Kind>)
    requires Layout(CecTable, m.opcode) == Some(fs) && 1 <= |fs| == |m.args| <= 2
    requires forall i :: 0 <= i < |fs| ==>
      fs[i].Plain? && m.args[i].VPlain? && FixedOperand.WellFormed(fs[i].f, m.args[i].v)
    requires forall i :: 0 <= i < |fs| ==> FixedOperand.Size(fs[i].f) <= 2 / |fs|
    ensures WellFormed(CecTable, m) && Len(CecTable, m) <= 3
  {
    hide Layout, FixedOperand.Typed, FixedOperand.Size;
    forall i | 0 <= i < |fs| ensures WellFormedField(CecTable, fs[i], m.args[i]) {}
    assert TypedFields(CecTable, fs, m.args);
    assert FieldsLen(CecTable, fs[1..], m.args[1..]) <= 2 - 2 / |fs|;
  }

  lemma {:induction false} RepliesAreWellFormed(reply: Reply)
    requires reply.FeatureAbort? ==> reply.reason <= UNDETERMINED
    ensures WellFormed(CecTable, ReplyMessage(reply)) && Len(CecTable, ReplyMessage(reply)) <= 3
    ensures Classify(MessageData.Valid(ReplyMessage(reply))) == AsReceived(reply)
  {
    hide Layout, WellFormed, Len;
    ReplyLayouts();
    var m := ReplyMessage(reply);
    PlainMessage(m, Layout(CecTable, m.opcode).value);
  }

  /** A reply framed by one daemon is received by another as exactly the event the protocol reasons about. */
  lemma {:induction false} ReplyArrives(reply: Reply, initiator: LogicalAddress, destination: LogicalAddress)
    requires reply.FeatureAbort? ==> reply.reason <= UNDETERMINED
    ensures WellFormed(CecTable, ReplyMessage(reply))
    ensures
      var m := ReplyMessage(reply);
      var r := FromRaw(Frame(initiator * 16 + destination, m), SentLen(m), false, false, false);
      && r.Success? && r.value.initiator == initiator && r.value.destination == destination
      && (r.value.data.Valid? ==> WellFormed(CecTable, r.value.data.message))
      && Classify(r.value.data) == AsReceived(reply)
  {
    hide Frame, FromRaw, SentLen, Layout, WellFormed, Classify, ReplyMessage, Len;
    RepliesAreWellFormed(reply);
    FrameRoundTrip(ReplyMessage(reply), initiator, destination);
  }

  lemma {:induction false} RequestArrives(initiator: LogicalAddress, destination: LogicalAddress)
    ensures WellFormed(CecTable, RequestMessage())
    ensures
      var m := RequestMessage();
      var r := FromRaw(Frame(initiator * 16 + destination, m), SentLen(m), false, false, false);
      && r == Success(E.Envelope.Envelope(MessageData.Valid(m), initiator, destination))
      && Classify(MessageData.Valid(m)) == SourceRequest
  {
    hide Frame, FromRaw, SentLen, CecLayout, CdcLayout;
    ReplyLayouts();
    FrameRoundTrip(RequestMessage(), initiator, destination);
  }

  /** A message no decoder understands is one the task does not handle itself. */
  lemma {:induction false} UnparsableIsUnhandled(msg: bytes, len: nat)
    requires |msg| == 16 && 2 <= len <= 15 && Decode(CecTable, msg[1..len]).Failure?
    ensures var r := FromRaw(msg, len, false, false, false);
      r.Success? && r.value.data.Invalid? && Classify(r.value.data) == Unhandled && r.value.data.Opcode() == msg[1]
  {
    ReceivedKeepsPayload(msg, len);
  }

  // ---------------------------------------------------------------- events by their bytes

  lemma {:induction false} NoOperands(b: bytes)
    requires b != [] && Layout(CecTable, b[0]) == Some([])
    ensures Decode(CecTable, b) == Success(Operand.Message(b[0], []))
  {
    hide Layout;
    G.MessageDecodes(CecTable, Operand.Message(b[0], []), b);
  }

  lemma {:induction false} OneOperand(b: bytes, k: Operand.Kind, v: Operand.Value)
    requires b != [] && Layout(CecTable, b[0]) == Some([k]) && !k.Cdc?
    ensures Decode(CecTable, b) == Success(Operand.Message(b[0], [v])) <==> G.OperandReads(k, v, b[1..])
  {
    hide *;
    G.LastRead(CecTable, k, v, b[1..]);
    Spelled(b, [v]);
  }

  lemma {:induction false} Spelled(b: bytes, vs: seq<Operand.Value>)
    requires b != [] && Layout(CecTable, b[0]).Some?
    ensures Decode(CecTable, b) == Success(Operand.Message(b[0], vs)) <==>
      G.FieldsRead(CecTable, Layout(CecTable, b[0]).value, vs, b[1..])
  {
    G.MessageDecodes(CecTable, Operand.Message(b[0], vs), b);
    hide Layout, G.FieldsRead, Decode;
  }

  lemma {:induction false} TwoOperands(b: bytes, f: FixedOperand.Fixed, g: FixedOperand.Fixed,
                                       v: FixedOperand.FixedValue, w: FixedOperand.FixedValue)
    requires b != [] && Layout(CecTable, b[0]) == Some([Operand.Plain(f), Operand.Plain(g)])
    ensures Decode(CecTable, b) == Success(Operand.Message(b[0], [Operand.VPlain(v), Operand.VPlain(w)])) <==>
      G.FixedReads(f, v, b[1..]) && FixedOperand.Size(f) < |b| && G.FixedReads(g, w, b[1 + FixedOperand.Size(f)..])
  {
    hide *;
    var vs, ks := [Operand.VPlain(w)], [Operand.Plain(g)];
    assert [Operand.VPlain(v), Operand.VPlain(w)] == [Operand.VPlain(v)] + vs;
    assert [Operand.Plain(f), Operand.Plain(g)] == [Operand.Plain(f)] + ks;
    Spelled(b, [Operand.VPlain(v)] + vs);
    G.PlainRead(CecTable, f, v, ks, vs, b[1..]);
    if FixedOperand.Size(f) < |b| {
      var rest := b[1 + FixedOperand.Size(f)..];
      assert b[1..][FixedOperand.Size(f)..] == rest;
      G.LastRead(CecTable, Operand.Plain(g), vs[0], rest);
      PlainReads(g, w, rest);
    }
  }

  lemma {:induction false} PlainReads(f: FixedOperand.Fixed, v: FixedOperand.FixedValue, b: bytes)
    ensures G.OperandReads(Operand.Plain(f), Operand.VPlain(v), b) <==> G.FixedReads(f, v, b)
  {}

  lemma {:induction false} OneArg(b: bytes, k: Operand.Kind)
    requires b != [] && Layout(CecTable, b[0]) == Some([k]) && !k.Cdc? && Decode(CecTable, b).Success?
    ensures var m := Decode(CecTable, b).value;
      && m.opcode == b[0] && |m.args| == 1 && m == Operand.Message(b[0], [m.args[0]])
      && G.OperandReads(k, m.args[0], b[1..])
  {
    hide *;
    var m := Decode(CecTable, b).value;
    G.DecodedShape(CecTable, b);
    assert m.args == [m.args[0]];
    OneOperand(b, k, m.args[0]);
  }

  /** What the payload of a frame is taken for. */
  function DataOf(b: bytes): (data: MessageData)
    ensures data.Valid? ==> WellFormed(CecTable, data.message)
  {
    match Decode(CecTable, b)
    case Success(message) => MessageData.Valid(message)
    case Failure(_) => Invalid(b)
  }

  lemma {:induction false} EventLayouts()
    ensures forall op :: op in {0x8f, 0x45, 0x36, 0x85} ==> Layout(CecTable, op) == Some([])
    ensures Layout(CecTable, 0x86) == Layout(CecTable, 0x82) == Some([ADDRESS])
    ensures Layout(CecTable, 0x80) == Some([ADDRESS, ADDRESS])
    ensures Layout(CecTable, 0x72) == Layout(CecTable, 0x7e) == Some([Operand.Plain(FixedOperand.Truth)])
    ensures Layout(CecTable, 0x44) == Some([Operand.UiCommand])
    ensures Layout(CecTable, 0x00) ==
      Some([Operand.Plain(FixedOperand.AnyByte), Operand.Plain(FixedOperand.OneOf("AbortReason", Span(0, 5)))])
  {}

  /** A payload of another opcode, or one that cannot be decoded, is no event of the task's own. */
  lemma {:induction false} OtherEvents(b: bytes)
    requires b != []
    requires Decode(CecTable, b).Failure?
      || b[0] !in {0x8f, 0x44, 0x45, 0x86, 0x82, 0x36, 0x80, 0x85, 0x72, 0x7e, 0x00}
    ensures Classify(DataOf(b)) == Unhandled
  {
    hide Layout, Decode, WellFormed;
    if Decode(CecTable, b).Success? { OpcodeKept(b); }
  }

  lemma {:induction false} OpcodeKept(b: bytes)
    requires Decode(CecTable, b).Success?
    ensures b != [] && Decode(CecTable, b).value.opcode == b[0]
  {
    G.DecodedShape(CecTable, b);
  }

  lemma {:induction false} BareEvents(b: bytes)
    requires b != [] && b[0] in {0x8f, 0x45, 0x36, 0x85}
    ensures Classify(DataOf(b)) ==
      if b[0] == 0x8f then PowerRequest else if b[0] == 0x45 then Released
      else if b[0] == 0x36 then StandbyRequest else SourceRequest
  {
    EventLayouts();
    hide Layout, Decode, WellFormed;
    NoOperands(b);
  }

  lemma {:induction false} AddressEvents(b: bytes)
    requires b != [] && b[0] in {0x86, 0x82}
    ensures Classify(DataOf(b)) ==
      if |b| < 3 then Unhandled else if b[0] == 0x86 then StreamPath(G.Pair(b, 1)) else SourceAnnounced(G.Pair(b, 1))
  {
    EventLayouts();
    hide Layout, Decode, WellFormed;
    var r := Decode(CecTable, b);
    if |b| >= 3 { OneOperand(b, ADDRESS, Address1(G.Pair(b, 1))); }
    if r.Success? { OneArg(b, ADDRESS); }
  }

  lemma {:induction false} AudioEvents(b: bytes)
    requires b != [] && b[0] in {0x72, 0x7e}
    ensures Classify(DataOf(b)) == if |b| < 2 then Unhandled else AudioMode(b[1] > 0)
  {
    EventLayouts();
    hide Layout, Decode, WellFormed;
    var r := Decode(CecTable, b);
    var truth := Operand.Plain(FixedOperand.Truth);
    if |b| >= 2 { OneOperand(b, truth, Operand.VPlain(FixedOperand.VTruth(b[1] > 0))); }
    if r.Success? { OneArg(b, truth); }
  }

  lemma {:induction false} KeyEvents(b: bytes, v: Operand.Value)
    requires b != [] && b[0] == 0x44
    ensures Classify(DataOf(b)) == Pressed(v) <==> G.UiReads(v, b[1..])
    ensures Classify(DataOf(b)) == Unhandled || Classify(DataOf(b)).Pressed?
  {
    EventLayouts();
    hide Layout, Decode, WellFormed, G.UiReads;
    var r := Decode(CecTable, b);
    OneOperand(b, Operand.UiCommand, v);
    if r.Success? { OneArg(b, Operand.UiCommand); }
  }

  lemma {:induction false} TwoArgs(b: bytes, f: FixedOperand.Fixed, g: FixedOperand.Fixed)
    requires b != [] && Layout(CecTable, b[0]) == Some([Operand.Plain(f), Operand.Plain(g)])
    requires Decode(CecTable, b).Success?
    ensures var m := Decode(CecTable, b).value;
      && m.opcode == b[0] && |m.args| == 2 && m.args[0].VPlain? && m.args[1].VPlain?
      && m == Operand.Message(b[0], [m.args[0], m.args[1]])
      && FixedOperand.Size(f) < |b| && G.FixedReads(g, m.args[1].v, b[1 + FixedOperand.Size(f)..])
  {
    var m := Decode(CecTable, b).value;
    G.DecodedShape(CecTable, b);
    PlainArgs(m, f, g);
    hide *;
    assert m.args == [m.args[0], m.args[1]];
    TwoOperands(b, f, g, m.args[0].v, m.args[1].v);
  }

  lemma {:induction false} PlainArgs(m: Operand.Message, f: FixedOperand.Fixed, g: FixedOperand.Fixed)
    requires Layout(CecTable, m.opcode) == Some([Operand.Plain(f), Operand.Plain(g)]) && WellFormed(CecTable, m)
    ensures |m.args| == 2 && m.args[0].VPlain? && m.args[1].VPlain?
    ensures m.args[0] == Operand.VPlain(m.args[0].v) && m.args[1] == Operand.VPlain(m.args[1].v)
  {
    hide Layout, FixedOperand.Typed;
    WellFormedArgs(CecTable, m);
  }

  lemma {:induction false} RouteEvents(b: bytes)
    requires b != [] && b[0] == 0x80
    ensures Classify(DataOf(b)) == if |b| < 5 then Unhandled else RouteChanged(G.Pair(b, 3))
  {
    EventLayouts();
    hide Layout, Decode, WellFormed;
    if Decode(CecTable, b).Success? { TwoArgs(b, FixedOperand.Word, FixedOperand.Word); }
    if |b| >= 5 {
      TwoOperands(b, FixedOperand.Word, FixedOperand.Word,
                  FixedOperand.VWord(G.Pair(b, 1)), FixedOperand.VWord(G.Pair(b, 3)));
    }
  }

  lemma {:induction false} AbortEvents(b: bytes)
    requires b != [] && b[0] == 0x00
    ensures Classify(DataOf(b)) == if |b| >= 3 && b[2] <= 5 then Aborted else Unhandled
  {
    EventLayouts();
    hide Layout, Decode, WellFormed;
    var reasons := FixedOperand.OneOf("AbortReason", Span(0, 5));
    if Decode(CecTable, b).Success? { TwoArgs(b, FixedOperand.AnyByte, reasons); }
    if |b| >= 3 {
      TwoOperands(b, FixedOperand.AnyByte, reasons, FixedOperand.VByte(b[1]), FixedOperand.VByte(b[2]));
    }
  }

  /** Which event a payload of any bytes is, told by those bytes alone. */
  lemma {:induction false} EventsByBytes(b: bytes, v: Operand.Value)
    requires b != []
    ensures var e := Classify(DataOf(b));
      && (e == PowerRequest <==> b[0] == 0x8f) && (e == Released <==> b[0] == 0x45)
      && (e == StandbyRequest <==> b[0] == 0x36) && (e == SourceRequest <==> b[0] == 0x85)
      && (e.StreamPath? <==> b[0] == 0x86 && |b| >= 3) && (e.StreamPath? ==> e.address == G.Pair(b, 1))
      && (e.SourceAnnounced? <==> b[0] == 0x82 && |b| >= 3) && (e.SourceAnnounced? ==> e.address == G.Pair(b, 1))
      && (e.RouteChanged? <==> b[0] == 0x80 && |b| >= 5) && (e.RouteChanged? ==> e.address == G.Pair(b, 3))
      && (e.AudioMode? <==> b[0] in {0x72, 0x7e} && |b| >= 2) && (e.AudioMode? ==> (e.on <==> b[1] > 0))
      && (e == Aborted <==> b[0] == 0x00 && |b| >= 3 && b[2] <= 5)
      && (e == Pressed(v) <==> b[0] == 0x44 && G.UiReads(v, b[1..]))
      && (e.Pressed? ==> b[0] == 0x44)
  {
    hide *;
    match b[0]
    case 0x8f => BareEvents(b);
    case 0x45 => BareEvents(b);
    case 0x36 => BareEvents(b);
    case 0x85 => BareEvents(b);
    case 0x86 => AddressEvents(b);
    case 0x82 => AddressEvents(b);
    case 0x80 => RouteEvents(b);
    case 0x72 => AudioEvents(b);
    case 0x7e => AudioEvents(b);
    case 0x00 => AbortEvents(b);
    case 0x44 => KeyEvents(b, v);
    case _ => OtherEvents(b);
  }

  /** And that is the event of the frame they came in. */
  lemma {:induction false} FramesByBytes(msg: bytes, len: nat)
    requires |msg| == 16 && 2 <= len <= 15
    ensures var r := FromRaw(msg, len, false, false, false);
      && r.Success? && r.value.data == DataOf(msg[1..len])
      && r.value.initiator == msg[0] / 16 && r.value.destination == msg[0] % 16
  {
    hide Decode, WellFormed;
  }

  // ---------------------------------------------------------------- replies by their bytes

  lemma {:induction false} PlainBytes(op: u8, f: FixedOperand.Fixed, v: FixedOperand.FixedValue)
    requires Layout(CecTable, op) == Some([Operand.Plain(f)]) && FixedOperand.Typed(f, v)
    ensures Typed(CecTable, Operand.Message(op, [Operand.VPlain(v)]))
    ensures Encode(CecTable, Operand.Message(op, [Operand.VPlain(v)])) == [op] + FixedOperand.Encode(f, v)
  {
    hide Layout, FixedOperand.Typed, FixedOperand.Encode;
  }

  /** The three replies and the request of an activation, byte by byte. */
  lemma {:induction false} ReplyBytes(reply: Reply)
    requires reply.FeatureAbort? ==> reply.reason <= UNDETERMINED
    ensures Typed(CecTable, ReplyMessage(reply)) && ReplyMessage(reply).opcode == ReplyOpcode(reply)
    ensures Encode(CecTable, ReplyMessage(reply)) ==
      match reply
      case PowerOn => [0x90, 0]
      case Source(a) => [0x82, a / 256, a % 256]
      case FeatureAbort(opcode, reason) => [0x00, opcode, reason]
  {
    hide Layout, WellFormed;
    ReplyLayouts();
    match reply
    case PowerOn => PlainBytes(0x90, FixedOperand.OneOf("PowerStatus", {0, 1, 2, 3}), FixedOperand.VByte(0));
    case Source(a) => PlainBytes(0x82, FixedOperand.Word, FixedOperand.VWord(a));
    case FeatureAbort(opcode, reason) => RefusalBytes(opcode, reason);
  }

  lemma {:induction false} RefusalBytes(opcode: u8, reason: u8)
    requires reason <= UNDETERMINED
    ensures Typed(CecTable, ReplyMessage(FeatureAbort(opcode, reason)))
    ensures Encode(CecTable, ReplyMessage(FeatureAbort(opcode, reason))) == [0x00, opcode, reason]
  {
    hide Layout;
    ReplyLayouts();
    var m := ReplyMessage(FeatureAbort(opcode, reason));
    var fs := Layout(CecTable, 0x00).value;
    assert fs[1..][1..] == [] && m.args[1..][1..] == [];
    assert EncodeFields(CecTable, fs[1..], m.args[1..]) == [reason];
  }

  /**
   * A payload the task does not know itself, sent to it alone, is answered with the three bytes of a refusal that
   * names its opcode, unless a handler accepts it.
   */
  lemma {:induction false} UnknownIsRefused(b: bytes, r: Routing, c: Context)
    requires b != [] && c.opcode == b[0]
    requires Decode(CecTable, b).Failure?
      || b[0] !in {0x8f, 0x44, 0x45, 0x86, 0x82, 0x36, 0x80, 0x85, 0x72, 0x7e, 0x00}
    ensures var a := Answer(r, Classify(DataOf(b)), c);
      && (a.None? <==> !c.direct || c.handler.Accepted?)
      && (a.Some? ==>
            && a.value.0.FeatureAbort? && a.value.0.reason <= UNDETERMINED && a.value.1.Initiator?
            && Typed(CecTable, ReplyMessage(a.value.0))
            && Encode(CecTable, ReplyMessage(a.value.0)) ==
                 [0x00, b[0], match c.handler
                              case Absent => 0
                              case Refused(reason) => if reason < 5 then reason else 5
                              case _ => 5])
  {
    OtherEvents(b);
    hide Decode, Encode, Typed, Layout, ReplyMessage, Classify;
    var a := Answer(r, Unhandled, c);
    if a.Some? { ReplyBytes(a.value.0); }
  }
}
