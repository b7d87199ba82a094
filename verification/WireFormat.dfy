/**
 * The layout of bytes on the wire, independently of the decoder that reads it back (linux-cec/src/operand.rs,
 * message.rs, cdc.rs).
 */
module WireFormat {
  import opened Wire
  import FixedOperand
  import Operand
  import opened Codec
  import OperandLoops

  /** A 16-bit operand is sent high byte first. */
  lemma {:induction false} WordsAreBigEndian(high: u8, low: u8, w: u16)
    ensures FixedOperand.Encode(FixedOperand.Word, FixedOperand.VWord(w)) == [high, low] <==>
      high as int * 0x100 + low as int == w as int
  {}

  /** True is sent as one and false as zero; any other byte than zero is read as true. */
  lemma {:induction false} TruthIsOne(t: bool, b: bytes)
    ensures FixedOperand.Encode(FixedOperand.Truth, FixedOperand.VTruth(t)) == [if t then 1 else 0]
    ensures b != [] ==>
      (FixedOperand.Decode(FixedOperand.Truth, b) == Success(FixedOperand.VTruth(t)) <==> (t <==> b[0] != 0))
  {}

  /** Input i of a HEC field is bit i of its word, the output bit 14, and bit 15 stays clear. */
  lemma {:induction false} HecBits(inputs: seq<bool>, output: bool)
    requires |inputs| == 14
    ensures var word := FixedOperand.HecWord(inputs, output);
      && (forall i :: 0 <= i < 14 ==> HasBit(word, FixedOperand.Pow2(i)) == inputs[i])
      && HasBit(word, 0x4000) == output && !HasBit(word, 0x8000)
  {
    hide HasBit, FixedOperand.Pow2, FixedOperand.WordToBits, FixedOperand.HecWord;
    var word := FixedOperand.HecWord(inputs, output);
    HecTop(inputs, output);
    FixedOperand.HecRoundTrip(inputs, output);
    OperandLoops.BitsAreShifts(word, 14);
  }

  lemma {:induction false} HecTop(inputs: seq<bool>, output: bool)
    requires |inputs| == 14
    ensures !HasBit(FixedOperand.HecWord(inputs, output), 0x8000)
  {
    FixedOperand.BitsRoundTrip(inputs, 0);
    FixedOperand.Pow2Of14();
    hide FixedOperand.WordToBits, FixedOperand.BitsToWord, FixedOperand.Pow2;
  }

  /** In a continuation-bit operand every byte but the last has bit 7, and the other bits are head and parameters. */
  lemma {:induction false} ContinuationBits(head: u8, extra: bytes, i: nat)
    requires i <= |extra|
    ensures Operand.EncodeTagged(head, extra)[i] % 0x80 == (if i == 0 then head else extra[i - 1]) % 0x80
    ensures Operand.EncodeTagged(head, extra)[i] >= 0x80 <==> i < |extra|
    decreases i
  {
    if i == 0 {
    } else {
      ContinuationBits(extra[0], extra[1..], i - 1);
    }
  }

  /** The format in the top six bits of a channel number tells its parts. */
  lemma {:induction false} ChannelBits(id: FixedOperand.ChannelId, b: bytes)
    requires FixedOperand.WellFormed(FixedOperand.Channel, FixedOperand.VChannel(id))
    requires b == FixedOperand.Encode(FixedOperand.Channel, FixedOperand.VChannel(id))
    ensures |b| == 4
    ensures b[0] / 4 == if id.OnePart? then 1 else 2
    ensures FixedOperand.WordAt(b, 0) % 0x400 == if id.OnePart? then 0 else id.major
    ensures FixedOperand.WordAt(b, 2) == if id.OnePart? then id.part else id.minor
  {}

  // ---------------------------------------------------------------- messages

  lemma {:induction false} FrontFirst(t: Table, fs: seq<Operand.Kind>, vs: seq<Operand.Value>)
    requires TypedFields(t, fs, vs) && fs != []
    ensures TypedField(t, fs[0], vs[0]) && TypedFields(t, fs[1..], vs[1..])
    ensures EncodeFields(t, fs, vs) == EncodeField(t, fs[0], vs[0]) + EncodeFields(t, fs[1..], vs[1..])
  {
    hide TypedField, EncodeField, FieldLen;
  }

  lemma {:induction false} NothingInFront(t: Table, fs: seq<Operand.Kind>, vs: seq<Operand.Value>)
    requires TypedFields(t, fs, vs)
    ensures |fs| == |vs| && TypedFields(t, fs[..0], vs[..0]) && EncodeFields(t, fs[..0], vs[..0]) == []
  {
    hide TypedField, FieldLen, EncodeField;
  }

  lemma {:induction false} TypedSplit(t: Table, fs: seq<Operand.Kind>, vs: seq<Operand.Value>, i: nat)
    requires TypedFields(t, fs, vs) && i < |fs|
    ensures TypedFields(t, fs[..i], vs[..i]) && TypedField(t, fs[i], vs[i]) && TypedFields(t, fs[i + 1..], vs[i + 1..])
  {
    hide TypedField;
  }

  /** The operands stand one after another in the order of the layout, each encoded on its own. */
  lemma {:induction false} OperandsInOrder(t: Table, fs: seq<Operand.Kind>, vs: seq<Operand.Value>, i: nat)
    requires TypedFields(t, fs, vs) && i < |fs|
    ensures TypedFields(t, fs[..i], vs[..i]) && TypedField(t, fs[i], vs[i]) && TypedFields(t, fs[i + 1..], vs[i + 1..])
    ensures EncodeFields(t, fs, vs) ==
      EncodeFields(t, fs[..i], vs[..i]) + EncodeField(t, fs[i], vs[i]) + EncodeFields(t, fs[i + 1..], vs[i + 1..])
    decreases i
  {
    hide *;
    NothingInFront(t, fs, vs);
    TypedSplit(t, fs, vs, i);
    FrontFirst(t, fs, vs);
    if i == 0 {
    } else {
      var fs', vs' := fs[1..], vs[1..];
      OperandsInOrder(t, fs', vs', i - 1);
      Shifted(fs, i);
      Shifted(vs, i);
      FrontFirst(t, fs[..i], vs[..i]);
      var a, b := EncodeField(t, fs[0], vs[0]), EncodeFields(t, fs'[..i - 1], vs'[..i - 1]);
      var c, d := EncodeField(t, fs[i], vs[i]), EncodeFields(t, fs[i + 1..], vs[i + 1..]);
      assert a + (b + c + d) == (a + b) + c + d;
    }
  }

  lemma {:induction false} Shifted<T>(s: seq<T>, i: nat)
    requires 0 < i < |s|
    ensures s[..i][1..] == s[1..][..i - 1] && s[..i][0] == s[0] && s[1..][i - 1] == s[i] && s[1..][i..] == s[i + 1..]
  {}
}
