/**
 * The decoders and the encoder the source writes as loops, proved equal to the functions of
 * FixedOperand and Operand (linux-cec/src/operand.rs, cdc.rs).
 */
module OperandLoops {
  import Arithmetic
  import opened Wire
  import opened FixedOperand
  import opened Operand

  /** The output buffer an encoder extends. */
  class Sink {
    var out: bytes

    constructor ()
      ensures out == []
    {
      out := [];
    }

    method Extend(b: bytes)
      modifies this
      ensures out == old(out) + b
    {
      out := out + b;
    }
  }

  method WriteBuffer(sink: Sink, capacity: nat, f: Fixed, buf: Buf)
    requires TypedBuf(capacity, f, buf)
    modifies sink
    ensures sink.out == old(sink.out) + Operand.Encode(Buffer(capacity, f), VBuffer(buf))
  {
    hide *;
    BufferEncoding(capacity, f, buf);
    var used := buf.Used();
    assert used[0..] == used && used[|used|..] == [];
    for i := 0 to |used|
      invariant TypedAll(f, used[i..])
      invariant sink.out + EncodeAll(f, used[i..]) == old(sink.out) + EncodeAll(f, used)
    {
      EncodeAllFrom(f, used, i);
      sink.Extend(FixedOperand.Encode(f, used[i]));
    }
  }

  lemma {:induction false} BufferEncoding(capacity: nat, f: Fixed, buf: Buf)
    requires TypedBuf(capacity, f, buf)
    ensures Operand.Typed(Buffer(capacity, f), VBuffer(buf)) && buf.len <= |buf.slots|
    ensures TypedAll(f, buf.Used()) && TypedAll(f, []) && EncodeAll(f, []) == []
    ensures Operand.Encode(Buffer(capacity, f), VBuffer(buf)) == EncodeAll(f, buf.Used())
  {
    hide FixedOperand.Typed, FixedOperand.Encode;
  }

  lemma {:induction false} EncodeAllFrom(f: Fixed, vs: seq<FixedValue>, i: nat)
    requires i < |vs| && TypedAll(f, vs[i..])
    ensures FixedOperand.Typed(f, vs[i]) && TypedAll(f, vs[i + 1..])
    ensures EncodeAll(f, vs[i..]) == FixedOperand.Encode(f, vs[i]) + EncodeAll(f, vs[i + 1..])
  {
    hide FixedOperand.Typed, FixedOperand.Encode;
    assert vs[i..][0] == vs[i] && vs[i..][1..] == vs[i + 1..];
    forall k | i <= k < |vs| ensures FixedOperand.Typed(f, vs[k]) {
      assert vs[k] == vs[i..][k - i];
    }
  }

  function Prepend<T>(xs: seq<T>, r: Result<seq<T>>): Result<seq<T>> {
    if r.Success? then Success(xs + r.value) else r
  }

  lemma {:induction false} PrependSteps<T>(xs: seq<T>, x: T, r: Result<seq<T>>)
    ensures Prepend([], r) == r
    ensures Prepend(xs, Prepend([x], r)) == Prepend(xs + [x], r)
    ensures Prepend(xs, Success([])) == Success(xs)
  {
    assert xs + [] == xs;
    if r.Success? {
      assert [] + r.value == r.value;
      assert xs + ([x] + r.value) == xs + [x] + r.value;
    }
  }

  method ParseBuffer(capacity: nat, f: Fixed, b: bytes) returns (r: Result<Buf>)
    requires Size(f) > 0
    ensures r == DecodeBuffer(capacity, f, b)
  {
    hide FixedOperand.Decode, DecodeAll, Size, FixedOperand.WellFormed, WellFormedAll;
    var vs: seq<FixedValue> := [];
    var offset, len := 0, 0;
    PrependSteps([], VByte(0), DecodeAll(f, b, 0, capacity));
    while offset < capacity * Size(f) && offset + Size(f) <= |b|
      invariant len == |vs| <= capacity && offset == len * Size(f)
      invariant DecodeAll(f, b, 0, capacity) == Prepend(vs, DecodeAll(f, b, offset, capacity - len))
      decreases capacity - len
    {
      Arithmetic.StrictlyMonotone(len, capacity, Size(f));
      Arithmetic.OneMore(len, Size(f));
      var v := FixedOperand.Decode(f, b[offset..]).AddOffset(offset);
      DecodeAllStep(f, b, offset, capacity - len);
      if v.Failure? { return Failure(v.error); }
      PrependSteps(vs, v.value, DecodeAll(f, b, offset + Size(f), capacity - len - 1));
      vs, offset, len := vs + [v.value], offset + Size(f), len + 1;
    }
    Arithmetic.StrictlyMonotone(len, capacity, Size(f));
    DecodeAllEnd(f, b, offset, capacity - len);
    PrependSteps(vs, VByte(0), Success([]));
    r := Success(Padded(capacity, f, vs));
  }

  lemma {:induction false} DecodeAllEnd(f: Fixed, b: bytes, offset: nat, room: nat)
    requires room == 0 || offset + Size(f) > |b|
    ensures DecodeAll(f, b, offset, room) == Success([])
  {}

  lemma {:induction false} DecodeAllStep(f: Fixed, b: bytes, offset: nat, room: nat)
    requires room > 0 && offset + Size(f) <= |b|
    ensures var v := FixedOperand.Decode(f, b[offset..]).AddOffset(offset);
      DecodeAll(f, b, offset, room)
      == if v.Failure? then Failure(v.error) else Prepend([v.value], DecodeAll(f, b, offset + Size(f), room - 1))
  {
    hide FixedOperand.Decode;
  }

  method ParseExtras(b: bytes) returns (extra: bytes)
    requires b != []
    ensures extra == Extras(b, 1)
  {
    hide Extras;
    extra := [];
    var offset := 1;
    while offset < |b|
      invariant 1 <= offset <= |b|
      invariant Extras(b, 1) == extra + Extras(b, offset)
      decreases |b| - offset
    {
      ExtrasFrom(b, offset);
      extra := extra + [b[offset] % 0x80];
      if b[offset] < 0x80 {
        return;
      }
      offset := offset + 1;
    }
    ExtrasFrom(b, offset);
  }

  lemma {:induction false} ExtrasFrom(b: bytes, offset: nat)
    requires offset <= |b|
    ensures Extras(b, offset)
         == if offset == |b| then []
            else if b[offset] < 0x80 then [b[offset] % 0x80]
            else [b[offset] % 0x80] + Extras(b, offset + 1)
  {}

  method ParseTagged(k: Kind, b: bytes) returns (r: Result<Value>)
    requires k.RcProfile? || k.DeviceFeatures?
    ensures r == DecodeTagged(k, b)
  {
    hide Extras, DecodeBuffer, DecodeHead;
    if |b| < 1 { return Failure(OutOfRange(AtLeast(1), |b|, Bytes)); }
    var head := DecodeHead(k, b[0] % 0x80);
    if head.Failure? { return Failure(head.error); }
    var extra: bytes := [];
    if b[0] >= 0x80 {
      extra := ParseExtras(b);
    }
    var buf := ParseBuffer(14, AnyByte, extra);
    if buf.Failure? { return Failure(buf.error); }
    r := Success(VTagged(head.value, buf.value));
  }

  method ParseHec(b: bytes) returns (r: Result<FixedValue>)
    ensures r == FixedOperand.Decode(Hec, b)
  {
    if |b| < 2 { return Failure(OutOfRange(AtLeast(2), |b|, Bytes)); }
    var word := WordAt(b, 0);
    var input := new bool[14];
    for idx := 0 to 14
      invariant forall i :: 0 <= i < idx ==> input[i] == HasBit(word, Pow2(i))
    {
      input[idx] := HasBit(word, Pow2(idx));
    }
    BitsAreShifts(word, 14);
    assert input[..] == WordToBits(word, 14);
    r := Success(VHec(input[..], HasBit(word, 0x4000)));
  }

  /** Entry i of the field is bit i of the word. */
  lemma {:induction false} BitsAreShifts(w: nat, n: nat)
    ensures forall i :: 0 <= i < n ==> WordToBits(w, n)[i] == HasBit(w, Pow2(i))
  {
    if n == 0 {
    } else {
      BitsAreShifts(w / 2, n - 1);
      forall i | 0 <= i < n ensures WordToBits(w, n)[i] == HasBit(w, Pow2(i)) {
        if i > 0 { HalfThenDivide(w, Pow2(i - 1)); }
      }
    }
  }

  ghost predicate IsQuotient(x: nat, m: nat, q: nat) { q * m <= x < q * m + m }

  lemma {:induction false} Divided(x: nat, m: nat) returns (q: nat)
    requires m > 0
    ensures q == x / m && IsQuotient(x, m, q)
  {
    q := x / m;
  }

  lemma {:induction false} HalfQuotient(w: nat, p: nat, q: nat)
    requires IsQuotient(w, 2 * p, q)
    ensures IsQuotient(w / 2, p, q)
  {
    var a := q * p;
    assert q * (2 * p) == 2 * a;
  }

  lemma {:induction false} SameQuotient(x: nat, p: nat, q: nat, d: nat)
    requires p > 0 && IsQuotient(x, p, q) && IsQuotient(x, p, d)
    ensures q == d
  {
    Arithmetic.OneMore(q, p);
    Arithmetic.OneMore(d, p);
    Arithmetic.StrictlyMonotone(d, q + 1, p);
    Arithmetic.StrictlyMonotone(q, d + 1, p);
  }

  lemma {:induction false} HalfThenDivide(w: nat, p: nat)
    requires p > 0
    ensures w / 2 / p == w / (2 * p)
  {
    hide IsQuotient;
    var q := Divided(w, 2 * p);
    var d := Divided(w / 2, p);
    HalfQuotient(w, p, q);
    SameQuotient(w / 2, p, q, d);
  }
}
