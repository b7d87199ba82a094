/** Framing a message for the kernel and reading a received frame (linux-cec/src/device.rs). */
module Envelope {
  import opened Wire
  import Operand
  import opened Codec
  import FixedOperand

  type Message = Operand.Message

  datatype MessageData = Valid(message: Message) | Invalid(payload: bytes) {
    function Opcode(): u8
      requires Invalid? ==> payload != []
    {
      if Valid? then message.opcode else payload[0]
    }

    function ToBytes(): bytes
      requires Valid? ==> Typed(CecTable, message)
    {
      if Valid? then Encode(CecTable, message) else payload
    }
  }

  datatype Envelope = Envelope(data: MessageData, initiator: LogicalAddress, destination: LogicalAddress)

  /** The fields of struct cec_msg that framing touches. */
  class RawMessage {
    var len: nat
    const msg: array<u8>
    var timedOut: bool
    var aborted: bool
    var featureAborted: bool

    predicate Valid()
      reads this
    {
      msg.Length == 16 && len <= 16
    }

    /** cec_msg::new: a poll message, everything but the header zero. */
    constructor (initiator: LogicalAddress, destination: LogicalAddress)
      ensures Valid() && fresh(msg) && len == 1
      ensures !timedOut && !aborted && !featureAborted
      ensures msg[..] == [initiator * 16 + destination] + Zeros(15)
    {
      len := 1;
      msg := new u8[16](i => if i == 0 then initiator * 16 + destination else 0);
      timedOut, aborted, featureAborted := false, false, false;
    }

    /** The part of tx_rx_message that fills in the message. */
    method Fill(message: Message)
      requires Valid() && Typed(CecTable, message)
      requires msg[..] == [msg[0]] + Zeros(15)
      modifies this`len, msg
      ensures Valid()
      ensures len == SentLen(message) && msg[..] == Frame(old(msg[0]), message)
      ensures msg[0] == old(msg[0])
      ensures len == 1 + if |Encode(CecTable, message)| < 15 then |Encode(CecTable, message)| else 15
      ensures forall k :: 1 <= k < 16 ==> msg[k] == if k < len then Encode(CecTable, message)[k - 1] else 0
    {
      hide Encode, Len, Typed, Codec.WellFormed, Layout, Decode;
      var bytes := Encode(CecTable, message);
      len := (if |bytes| < 15 then |bytes| else 15) + 1;
      for i := 1 to len
        invariant len == SentLen(message) && msg[0] == old(msg[0])
        invariant forall k :: 1 <= k < i ==> msg[k] == bytes[k - 1]
        invariant forall k :: i <= k < 16 ==> msg[k] == 0
      {
        msg[i] := bytes[i - 1];
      }
      assert msg[..] == Frame(old(msg[0]), message);
    }

    /** Envelope::try_from: what it takes, and what a received envelope keeps of the frame. */
    method Receive() returns (r: Result<Envelope>)
      requires Valid()
      ensures r == FromRaw(msg[..], len, timedOut, aborted, featureAborted)
      ensures r.Success? <==> !timedOut && !aborted && !featureAborted && 2 <= len <= 15
      // The first thing that is wrong with a frame is what is reported.
      ensures timedOut ==> r == Failure(Timeout)
      ensures !timedOut && aborted ==> r == Failure(Abort)
      ensures !timedOut && !aborted && featureAborted ==> r == Failure(FeatureAborted)
      ensures !timedOut && !aborted && !featureAborted && !(2 <= len <= 15) ==> r == Failure(InvalidData)
      ensures r.Success? ==>
        && r.value.initiator * 16 + r.value.destination == msg[0] && r.value.data.Opcode() == msg[1]
        && (r.value.data.Invalid? ==>
              r.value.data.payload == msg[1..len] && Decode(CecTable, msg[1..len]).Failure?)
        && (r.value.data.Valid? ==>
              && Decode(CecTable, msg[1..len]) == Success(r.value.data.message)
              && WellFormed(CecTable, r.value.data.message))
        && |r.value.data.ToBytes()| <= 14
    {
      hide Encode, Len, Typed, Codec.WellFormed, Layout, Decode;
      if timedOut { return Failure(Timeout); }
      if aborted { return Failure(Abort); }
      if featureAborted { return Failure(FeatureAborted); }
      if !(2 <= len <= 15) { return Failure(InvalidData); }
      var bytes := msg[1..len];
      assert bytes == msg[..][1..len];
      var data := match Decode(CecTable, bytes) {
        case Success(message) => MessageData.Valid(message)
        case Failure(_) => Invalid(bytes)
      };
      ReceivedKeepsPayload(msg[..], len);
      r := Success(Envelope(data, msg[0] / 16, msg[0] % 16));
    }
  }

  function Zeros(n: nat): bytes { seq(n, i => 0) }

  function SentLen(message: Message): (n: nat)
    requires Typed(CecTable, message)
    ensures 2 <= n <= 16
  {
    var length := Len(CecTable, message);
    (if length < 15 then length else 15) + 1
  }

  /** Sixteen bytes: the header, as much of the message as fits, and zeros. */
  function Frame(header: u8, message: Message): (frame: bytes)
    requires Typed(CecTable, message)
    ensures |frame| == 16
  {
    var sent := SentLen(message) - 1;
    [header] + Encode(CecTable, message)[..sent] + Zeros(15 - sent)
  }

  function FromRaw(msg: bytes, len: nat, timedOut: bool, aborted: bool, featureAborted: bool): Result<Envelope>
    requires |msg| == 16 && len <= 16
  {
    if timedOut then Failure(Timeout)
    else if aborted then Failure(Abort)
    else if featureAborted then Failure(FeatureAborted)
    else if len < 2 || len > 15 then Failure(InvalidData)
    else
      var data := match Decode(CecTable, msg[1..len])
        case Success(message) => MessageData.Valid(message)
        case Failure(_) => Invalid(msg[1..len]);
      Success(Envelope(data, msg[0] / 16, msg[0] % 16))
  }

  /**
   * A well-formed message sent from any address to any other arrives unchanged exactly when it is
   * at most fourteen bytes long; a longer one is rejected as invalid data.
   */
  lemma {:induction false} FrameRoundTrip(message: Message, initiator: LogicalAddress, destination: LogicalAddress)
    requires WellFormed(CecTable, message)
    ensures var r := FromRaw(Frame(initiator * 16 + destination, message), SentLen(message), false, false, false);
      r == if Len(CecTable, message) <= 14 then Success(Envelope(MessageData.Valid(message), initiator, destination))
           else Failure(InvalidData)
  {
    hide Encode, Len, Typed, Layout, Decode;
    var frame, len := Frame(initiator * 16 + destination, message), SentLen(message);
    if Len(CecTable, message) <= 14 {
      assert frame[1..len] == Encode(CecTable, message);
      RoundTripIff(message);
    }
  }

  /** A name of fourteen characters makes a Set OSD Name message no daemon can receive. */
  lemma {:induction false} LongestNameIsRejected(name: Operand.Buf,
                                                 initiator: LogicalAddress, destination: LogicalAddress)
    requires Operand.TypedBuf(14, FixedOperand.AnyByte, name) && name.len == 14
    ensures var m := Operand.Message(0x47, [Operand.VBuffer(name)]);
      && WellFormed(CecTable, m)
      && FromRaw(Frame(initiator * 16 + destination, m), SentLen(m), false, false, false) == Failure(InvalidData)
  {
    var m := Operand.Message(0x47, [Operand.VBuffer(name)]);
    assert Layout(CecTable, 0x47) == Some([Operand.Buffer(14, FixedOperand.AnyByte)]);
    assert Len(CecTable, m) == 15;
  }

  /** Whatever the bytes, a received envelope keeps the opcode, and keeps an unparsable payload whole. */
  lemma {:induction false} ReceivedKeepsPayload(msg: bytes, len: nat)
    requires |msg| == 16 && 2 <= len <= 15
    ensures var r := FromRaw(msg, len, false, false, false);
      && r.Success?
      && (r.value.data.Invalid? <==> Decode(CecTable, msg[1..len]).Failure?)
      && (r.value.data.Invalid? ==> r.value.data.payload == msg[1..len])
      && (r.value.data.Valid? ==> WellFormed(CecTable, r.value.data.message))
      && r.value.data.Opcode() == msg[1]
      && |r.value.data.ToBytes()| <= 14
  {
    var r := FromRaw(msg, len, false, false, false);
    if r.value.data.Valid? { Canonical(msg[1..len]); }
  }
}
