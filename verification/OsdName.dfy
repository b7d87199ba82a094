/** Fitting the name shown on the television into a message (cecd/src/system.rs, linux-cec/src/operand.rs). */
module OsdName {
  import opened Wire
  import FixedOperand
  import Operand
  import Codec
  import E = Envelope

  const LIMIT := 14

  // ---------------------------------------------------------------- UTF-8, section 4 of RFC 3629

  predicate Continuation(x: u8) { Within(x, 0x80, 0xBF) }

  /** The length of the character at the front, if there is one. */
  function CharLen(b: bytes): (n: Option<nat>)
    ensures n.Some? ==> 1 <= n.value <= 4 && n.value <= |b|
    ensures n.Some? ==> !Continuation(b[0]) && forall i :: 0 < i < n.value ==> Continuation(b[i])
  {
    if b == [] then None
    else if b[0] < 0x80 then Some(1)
    else if |b| >= 2 && Within(b[0], 0xC2, 0xDF) && Continuation(b[1]) then Some(2)
    else if |b| >= 3 && Within(b[0], 0xE0, 0xEF) && Continuation(b[1]) && Continuation(b[2])
      && (b[0] == 0xE0 ==> b[1] >= 0xA0) && (b[0] == 0xED ==> b[1] <= 0x9F) then Some(3)
    else if |b| >= 4 && Within(b[0], 0xF0, 0xF4) && Continuation(b[1]) && Continuation(b[2]) && Continuation(b[3])
      && (b[0] == 0xF0 ==> b[1] >= 0x90) && (b[0] == 0xF4 ==> b[1] <= 0x8F) then Some(4)
    else None
  }

  /** A sequence of whole characters. */
  predicate Utf8(b: bytes)
    decreases |b|
  {
    b == [] || (CharLen(b).Some? && Utf8(b[CharLen(b).value..]))
  }

  /** str::is_char_boundary, which looks at a single byte. */
  predicate IsCharBoundary(b: bytes, i: nat) {
    i == 0 || i == |b| || (i < |b| && !Continuation(b[i]))
  }

  /** Cutting at a boundary leaves whole characters on both sides, and nothing else does. */
  lemma {:induction false} BoundaryCuts(b: bytes, i: nat)
    requires Utf8(b) && i <= |b|
    ensures IsCharBoundary(b, i) <==> Utf8(b[..i])
    ensures IsCharBoundary(b, i) ==> Utf8(b[i..])
    decreases |b|
  {
    if 0 < i < |b| {
      var n := CharLen(b).value;
      if i < n {
        CutInside(b, i);
      } else {
        BoundaryCuts(b[n..], i - n);
        assert b[n..][..i - n] == b[n..i] == b[..i][n..];
        assert b[n..][i - n..] == b[i..];
        SameChar(b, i);
        if i == n { assert b[..i][n..] == []; }
      }
    } else if i == |b| {
      assert b[..i] == b;
    }
  }

  lemma {:induction false} SameChar(b: bytes, i: nat)
    requires CharLen(b).Some? && CharLen(b).value <= i <= |b|
    ensures CharLen(b[..i]) == CharLen(b)
  {}

  lemma {:induction false} CutInside(b: bytes, i: nat)
    requires CharLen(b).Some? && 0 < i < CharLen(b).value
    ensures CharLen(b[..i]).None? && !Utf8(b[..i]) && Continuation(b[i])
  {}

  /** Among any four neighbouring positions one is a boundary, as no character is longer. */
  lemma {:induction false} BoundaryNearby(b: bytes, i: nat)
    requires Utf8(b) && i + 3 <= |b|
    ensures exists k :: i <= k <= i + 3 && IsCharBoundary(b, k)
    decreases |b|
  {
    if i == 0 {
      assert IsCharBoundary(b, 0);
    } else {
      var n := CharLen(b).value;
      if n >= i {
        assert IsCharBoundary(b, n) by { if n < |b| { assert Utf8(b[n..]); } }
      } else {
        BoundaryNearby(b[n..], i - n);
        var k :| i - n <= k <= i - n + 3 && IsCharBoundary(b[n..], k);
        assert IsCharBoundary(b, k + n);
      }
    }
  }

  // ---------------------------------------------------------------- trimming

  /** The longest run of whole characters at the front that fits. */
  ghost predicate LongestFit(name: bytes, r: bytes) {
    && r <= name && |r| <= LIMIT && Utf8(r)
    && forall i :: |r| < i <= LIMIT && i <= |name| ==> !Utf8(name[..i])
  }

  /** System::trimmed_osd_name */
  method TrimmedOsdName(name: bytes) returns (r: bytes)
    requires Utf8(name)
    ensures LongestFit(name, r)
    ensures |name| > LIMIT ==> |r| > 10
  {
    if |name| <= LIMIT { return name; }
    var i := LIMIT;
    while i >= 10
      invariant 9 <= i <= LIMIT
      invariant forall k :: i < k <= LIMIT ==> !IsCharBoundary(name, k)
      decreases i
    {
      BoundaryCuts(name, i);
      if IsCharBoundary(name, i) {
        forall k | i < k <= LIMIT ensures !Utf8(name[..k]) { BoundaryCuts(name, k); }
        BoundaryNearby(name, 11);
        return name[..i];
      }
      i := i - 1;
    }
    BoundaryNearby(name, 11);
    assert false;
  }

  /** The fit is unique, so the trimmed name is determined by the name. */
  lemma {:induction false} FitIsUnique(name: bytes, a: bytes, b: bytes)
    requires LongestFit(name, a) && LongestFit(name, b)
    ensures a == b
  {
    assert name[..|a|] == a && name[..|b|] == b;
  }

  // ---------------------------------------------------------------- into a message

  /** BoundedBufferOperand::from_str */
  function FromStr(capacity: nat, b: bytes): Result<Operand.Buf> {
    var _ :- Check(AtMost(capacity), |b|, Bytes);
    Success(Operand.Padded(capacity, FixedOperand.AnyByte, Values(b)))
  }

  function Values(b: bytes): (vs: seq<FixedOperand.FixedValue>)
    ensures |vs| == |b| && forall i :: 0 <= i < |b| ==> vs[i] == FixedOperand.VByte(b[i])
  {
    seq(|b|, i requires 0 <= i < |b| => FixedOperand.VByte(b[i]))
  }

  lemma {:induction false} ValuesEncode(b: bytes)
    ensures Operand.EncodeAll(FixedOperand.AnyByte, Values(b)) == b
  {
    if b == [] {
    } else {
      ValuesEncode(b[1..]);
      assert Values(b)[1..] == Values(b[1..]);
      assert b == [b[0]] + b[1..];
    }
  }

  /** A text that fits becomes a Set OSD Name message carrying exactly its bytes. */
  lemma {:induction false} NameMessage(text: bytes)
    requires |text| <= LIMIT
    ensures FromStr(LIMIT, text).Success?
    ensures var m := Operand.Message(0x47, [Operand.VBuffer(FromStr(LIMIT, text).value)]);
      Codec.WellFormed(Codec.CecTable, m) && Codec.Encode(Codec.CecTable, m) == [0x47] + text
  {
    var buf := FromStr(LIMIT, text).value;
    var m := Operand.Message(0x47, [Operand.VBuffer(buf)]);
    assert buf.Used() == Values(text);
    ValuesEncode(text);
    assert Codec.Layout(Codec.CecTable, 0x47) == Some([Operand.Buffer(14, FixedOperand.AnyByte)]);
    hide Codec.Layout;
    assert m.args[1..] == [];
    assert text + [] == text;
  }

  /**
   * The trimmed name is always accepted by the fourteen-byte buffer and sent whole, but a name of exactly
   * fourteen bytes makes a message no receiver, the sender's own result included, takes for valid.
   */
  lemma {:induction false} TrimmedNameIsSent(name: bytes, r: bytes,
                                             initiator: LogicalAddress, destination: LogicalAddress)
    requires LongestFit(name, r)
    ensures FromStr(LIMIT, r).Success?
    ensures
      var m := Operand.Message(0x47, [Operand.VBuffer(FromStr(LIMIT, r).value)]);
      && Codec.WellFormed(Codec.CecTable, m)
      && E.Frame(initiator * 16 + destination, m)[1..2 + |r|] == [0x47] + r
      && E.FromRaw(E.Frame(initiator * 16 + destination, m), E.SentLen(m), false, false, false) ==
        if |r| < LIMIT then Success(E.Envelope.Envelope(E.MessageData.Valid(m), initiator, destination))
        else Failure(InvalidData)
  {
    NameMessage(r);
    var m := Operand.Message(0x47, [Operand.VBuffer(FromStr(LIMIT, r).value)]);
    hide FromStr, Codec.Encode, Codec.Len, Codec.Typed, Codec.Layout, Codec.WellFormed, E.FromRaw;
    E.FrameRoundTrip(m, initiator, destination);
    var bytes := Codec.Encode(Codec.CecTable, m);
    assert bytes[..1 + |r|] == bytes;
  }
}
