/**
 * Operands of one fixed encoded size: integers, one-byte enums and flags, BCD digits,
 * channel numbers, ATSC identifiers and the HEC field (linux-cec/src/operand.rs, cdc.rs).
 */
module FixedOperand {
  import opened Wire

  /** What the decoder of an operand type accepts. */
  datatype Fixed =
    | AnyByte                                    // u8, bitfield structs, bitflags
    | OneOf(ty: string, values: set<u8>)         // one-byte enums
    | Truth                                      // bool
    | Word                                       // u16, PhysicalAddress
    | Octets(size: nat)                          // [u8; N], VendorId
    | Bcd(min: u8, max: u8)                      // BcdByte<MIN, MAX>
    | Limited(low: u8, high: u8, escape: Option<u8>) // Delay, AudioVolumeLevel
    | Hec                                        // HecField
    | Channel                                    // ChannelId
    | Atsc                                       // AtscData

  datatype ChannelId = OnePart(part: u16) | TwoPart(major: u16, minor: u16)

  datatype FixedValue =
    | VByte(b: u8)
    | VTruth(t: bool)
    | VWord(w: u16)
    | VOctets(o: bytes)
    | VHec(inputs: seq<bool>, output: bool)
    | VChannel(id: ChannelId)
    | VAtsc(stream: u16, program: u16)

  function Size(f: Fixed): nat {
    match f
    case Octets(n) => n
    case Word => 2
    case Hec => 2
    case Channel => 4
    case Atsc => 6
    case _ => 1
  }

  function BcdValue(b: u8): nat { b / 16 * 10 + b % 16 }

  predicate ValidBcd(min: u8, max: u8, b: u8) {
    b % 16 <= 9 && b / 16 <= 9 && min <= BcdValue(b) <= max
  }

  predicate ValidLimited(low: u8, high: u8, escape: Option<u8>, b: u8) {
    (low <= b <= high) || escape == Some(b)
  }

  /** The values the operand's Rust type can hold. */
  predicate Typed(f: Fixed, v: FixedValue) {
    match (f, v)
    case (AnyByte, VByte(_)) => true
    case (OneOf(_, values), VByte(b)) => b in values
    case (Truth, VTruth(_)) => true
    case (Word, VWord(_)) => true
    case (Octets(n), VOctets(o)) => |o| == n
    case (Bcd(min, max), VByte(b)) => ValidBcd(min, max, b)
    case (Limited(low, high, escape), VByte(b)) => ValidLimited(low, high, escape, b)
    case (Hec, VHec(inputs, _)) => |inputs| == 14
    case (Channel, VChannel(_)) => true
    case (Atsc, VAtsc(_, _)) => true
    case _ => false
  }

  /** The values with a faithful encoding: a two-part channel's major number has ten bits. */
  predicate WellFormed(f: Fixed, v: FixedValue) {
    Typed(f, v) && (v.VChannel? && v.id.TwoPart? ==> v.id.major < 0x400)
  }

  function Default(f: Fixed): FixedValue {
    match f
    case Word => VWord(0xFFFF)
    case Octets(n) => VOctets(seq(n, i => 0))
    case _ => VByte(0)
  }

  // Words are sent high byte first.
  function WordBytes(w: u16): (b: bytes)
    ensures |b| == 2
  {
    [w / 0x100, w % 0x100]
  }

  function WordAt(b: bytes, i: nat): u16
    requires i + 2 <= |b|
  {
    var high: int, low: int := b[i], b[i + 1];
    high * 0x100 + low
  }

  /** The first word of a channel number: the format in bits 10 and up, the major number below. */
  function ChannelWord(id: ChannelId): u16 {
    match id
    case OnePart(_) => 1 * 0x400
    case TwoPart(major, _) => SetBit(major, 2 * 0x400)
  }

  /** bits[0] is bit 0. */
  function BitsToWord(bits: seq<bool>): nat {
    if bits == [] then 0 else 2 * BitsToWord(bits[1..]) + (if bits[0] then 1 else 0)
  }

  function WordToBits(w: nat, n: nat): (bits: seq<bool>)
    ensures |bits| == n
  {
    if n == 0 then [] else [w % 2 == 1] + WordToBits(w / 2, n - 1)
  }

  lemma {:induction false} BitsRoundTrip(bits: seq<bool>, high: nat)
    ensures WordToBits(BitsToWord(bits) + high * Pow2(|bits|), |bits|) == bits
    ensures BitsToWord(bits) < Pow2(|bits|)
  {
    if bits == [] {
    } else {
      var p, low := Pow2(|bits| - 1), if bits[0] then 1 else 0;
      BitsRoundTrip(bits[1..], high);
      assert high * Pow2(|bits|) == 2 * (high * p);
      LowBit(BitsToWord(bits[1..]) + high * p, low);
    }
  }

  lemma {:induction false} LowBit(w: nat, low: nat)
    requires low < 2
    ensures (2 * w + low) / 2 == w && (2 * w + low) % 2 == low
  {}

  function Pow2(n: nat): (p: nat)
    ensures p > 0
  {
    if n == 0 then 1 else 2 * Pow2(n - 1)
  }

  lemma {:induction false} Pow2Of14()
    ensures Pow2(14) == 0x4000
  {
    assert Pow2(5) == 32 && Pow2(10) == 1024;
  }

  function HecWord(inputs: seq<bool>, output: bool): u16
    requires |inputs| == 14
  {
    BitsRoundTrip(inputs, 0);
    Pow2Of14();
    BitsToWord(inputs) + (if output then 0x4000 else 0)
  }

  function Encode(f: Fixed, v: FixedValue): (b: bytes)
    requires Typed(f, v)
    ensures |b| == Size(f)
  {
    match v
    case VByte(b) => [b]
    case VTruth(t) => [if t then 1 else 0]
    case VWord(w) => WordBytes(w)
    case VOctets(o) => o
    case VHec(inputs, output) => WordBytes(HecWord(inputs, output))
    case VChannel(id) =>
      WordBytes(ChannelWord(id)) + WordBytes(if id.OnePart? then id.part else id.minor)
    case VAtsc(stream, program) => WordBytes(stream) + WordBytes(program) + WordBytes(0)
  }

  function DecodeBcd(min: u8, max: u8, b: u8): (r: Result<FixedValue>)
    ensures r.Success? <==> ValidBcd(min, max, b)
    ensures if r.Success? then r.value == VByte(b) else !LengthError(r.error)
  {
    var _ :- Check(Interval(0, 9), b % 16, LowBits);
    var _ :- Check(Interval(0, 9), b / 16, HighBits);
    var _ :- Check(Interval(min, max), BcdValue(b), Scalar);
    Success(VByte(b))
  }

  function DecodeLimited(low: u8, high: u8, escape: Option<u8>, b: u8): (r: Result<FixedValue>)
    ensures r.Success? <==> ValidLimited(low, high, escape, b)
    ensures if r.Success? then r.value == VByte(b) else !LengthError(r.error)
  {
    if escape == Some(b) then Success(VByte(b))
    else
      var _ :- Check(Interval(low, high), b, Scalar);
      Success(VByte(b))
  }

  function DecodeChannel(high: u16, low: u16): (r: Result<FixedValue>)
    ensures r.Success? ==> WellFormed(Channel, r.value)
    ensures r.Failure? ==> !LengthError(r.error)
  {
    if high / 0x400 == 1 then Success(VChannel(OnePart(low)))
    else if high / 0x400 == 2 then Success(VChannel(TwoPart(high % 0x400, low)))
    else Failure(InvalidValueForType("ChannelNumberFormat", high / 0x400))
  }

  function DecodeHec(word: u16): FixedValue {
    VHec(WordToBits(word, 14), HasBit(word, 0x4000))
  }

  function DecodeAtsc(stream: u16, program: u16, reserved: u16): Result<FixedValue> {
    if reserved != 0 then Failure(InvalidData) else Success(VAtsc(stream, program))
  }

  /** Decodes from the front; what follows the operand is never looked at. */
  function Decode(f: Fixed, b: bytes): (r: Result<FixedValue>)
    ensures r.Success? ==> Size(f) <= |b| && WellFormed(f, r.value)
    ensures Honest(r, |b|)
    ensures r.Failure? && LengthError(r.error) ==> |b| < Size(f)
  {
    var _ :- Check(AtLeast(Size(f)), |b|, Bytes);
    match f
    case AnyByte => Success(VByte(b[0]))
    case OneOf(ty, values) =>
      if b[0] in values then Success(VByte(b[0])) else Failure(InvalidValueForType(ty, b[0]))
    case Truth => Success(VTruth(b[0] != 0))
    case Word => Success(VWord(WordAt(b, 0)))
    case Octets(n) => Success(VOctets(b[..n]))
    case Bcd(min, max) => DecodeBcd(min, max, b[0])
    case Limited(low, high, escape) => DecodeLimited(low, high, escape, b[0])
    case Hec => Success(DecodeHec(WordAt(b, 0)))
    case Channel => DecodeChannel(WordAt(b, 0), WordAt(b, 2))
    case Atsc => DecodeAtsc(WordAt(b, 0), WordAt(b, 2), WordAt(b, 4))
  }

  lemma {:induction false} HecRoundTrip(inputs: seq<bool>, output: bool)
    requires |inputs| == 14
    ensures DecodeHec(HecWord(inputs, output)) == VHec(inputs, output)
  {
    BitsRoundTrip(inputs, if output then 1 else 0);
    Pow2Of14();
    hide WordToBits, BitsToWord, Pow2;
  }

  lemma {:induction false} ChannelRoundTrip(id: ChannelId)
    requires id.TwoPart? ==> id.major < 0x400
    ensures DecodeChannel(ChannelWord(id), if id.OnePart? then id.part else id.minor) == Success(VChannel(id))
  {}

  lemma {:induction false} WordRoundTrip(w: u16, b: bytes, i: nat)
    requires i + 2 <= |b| && b[i] == w / 0x100 && b[i + 1] == w % 0x100
    ensures WordAt(b, i) == w
  {}

  /** Every well-formed operand comes back, whatever bytes follow it. */
  lemma {:induction false} RoundTrip(f: Fixed, v: FixedValue, suffix: bytes)
    requires WellFormed(f, v)
    ensures Decode(f, Encode(f, v) + suffix) == Success(v)
  {
    var b := Encode(f, v) + suffix;
    match v
    case VHec(inputs, output) =>
      WordRoundTrip(HecWord(inputs, output), b, 0);
      HecRoundTrip(inputs, output);
    case VChannel(id) =>
      WordRoundTrip(ChannelWord(id), b, 0);
      WordRoundTrip(if id.OnePart? then id.part else id.minor, b, 2);
      ChannelRoundTrip(id);
    case VAtsc(stream, program) =>
      WordRoundTrip(stream, b, 0);
      WordRoundTrip(program, b, 2);
      WordRoundTrip(0, b, 4);
    case VOctets(o) => assert b[..f.size] == o;
    case VWord(w) => WordRoundTrip(w, b, 0);
    case _ =>
  }
}
