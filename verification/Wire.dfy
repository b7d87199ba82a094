/** Bytes, ranges and errors shared by every decoder (linux-cec/src/lib.rs). */
module Wire {
  // Masks and shifts of the source are written as / and % by powers of two;
  // an "or" of bits that may overlap is written out by SetBit.
  type u8 = x: int | 0 <= x < 0x100 witness 0
  type u16 = x: int | 0 <= x < 0x1_0000 witness 0
  type bytes = seq<u8>

  predicate Within(x: u8, low: u8, high: u8) { low <= x <= high }

  type LogicalAddress = x: int | 0 <= x < 16 witness 0

  const BROADCAST: LogicalAddress := 15

  /** Bit number log2(bit) of x. */
  predicate HasBit(x: nat, bit: nat)
    requires bit > 0
  {
    x / bit % 2 == 1
  }

  /** x | bit, for a power of two. */
  function SetBit(x: nat, bit: nat): nat
    requires bit > 0
  {
    if HasBit(x, bit) then x else x + bit
  }

  datatype Option<+T> = None | Some(value: T)

  datatype Range =
    | AtMost(max: nat)
    | AtLeast(min: nat)
    | Exact(n: nat)
    | Only(list: seq<nat>)
    | Interval(low: nat, high: nat)
  {
    predicate Contains(n: nat) {
      match this
      case AtMost(max) => n <= max
      case AtLeast(min) => min <= n
      case Exact(x) => n == x
      case Only(list) => n in list
      case Interval(low, high) => low <= n <= high
    }

    function Plus(k: nat): Range {
      match this
      case AtMost(max) => AtMost(max + k)
      case AtLeast(min) => AtLeast(min + k)
      case Exact(x) => Exact(x + k)
      case Only(list) => Only(seq(|list|, i requires 0 <= i < |list| => list[i] + k))
      case Interval(low, high) => Interval(low + k, high + k)
    }
  }

  datatype Quantity = Bytes | Scalar | LowBits | HighBits

  datatype Error =
    | OutOfRange(expected: Range, got: nat, quantity: Quantity)
    | InvalidValueForType(ty: string, value: u8)
    | InvalidData
    | Timeout
    | Abort
    | FeatureAborted
  {
    function AddOffset(offset: nat): Error {
      if OutOfRange? && quantity == Bytes then
        OutOfRange(expected.Plus(offset), got + offset, quantity)
      else this
    }
  }

  datatype Result<+T> = Success(value: T) | Failure(error: Error) {
    predicate IsFailure() { Failure? }
    function PropagateFailure<U>(): Result<U> requires Failure? { Failure(error) }
    function Extract(): T requires Success? { value }
    function AddOffset(offset: nat): Result<T> {
      if Failure? then Failure(error.AddOffset(offset)) else this
    }
  }

  /** Range::check */
  function Check(expected: Range, got: nat, quantity: Quantity): Result<()> {
    if expected.Contains(got) then Success(()) else Failure(OutOfRange(expected, got, quantity))
  }

  /** A length error is honest about an input of n bytes when it reports n and a range n violates. */
  ghost predicate HonestError(e: Error, n: nat) {
    e.OutOfRange? && e.quantity == Bytes ==> e.got == n && !e.expected.Contains(n)
  }

  ghost predicate Honest<T>(r: Result<T>, n: nat) {
    r.Failure? ==> HonestError(r.error, n)
  }

  predicate LengthError(e: Error) { e.OutOfRange? && e.quantity == Bytes }

  lemma {:induction false} PlusContains(r: Range, k: nat, n: nat)
    ensures r.Plus(k).Contains(n + k) <==> r.Contains(n)
  {
    if r.Only? {
      var shifted := r.Plus(k).list;
      if n + k in shifted {
        var i :| 0 <= i < |shifted| && shifted[i] == n + k;
        assert r.list[i] == n;
      }
      if n in r.list {
        var i :| 0 <= i < |r.list| && r.list[i] == n;
        assert shifted[i] == n + k;
      }
    }
  }

  /** Shifting an honest error by the bytes in front of the operand keeps it honest about the whole. */
  lemma {:induction false} OffsetKeepsHonest(e: Error, n: nat, offset: nat)
    requires HonestError(e, n)
    ensures HonestError(e.AddOffset(offset), n + offset)
  {
    if LengthError(e) {
      PlusContains(e.expected, offset, n);
    }
  }

  /** Stepping over the first part of what is left. */
  lemma {:induction false} SkipFront(b: bytes, offset: nat, first: bytes, rest: bytes)
    requires offset <= |b| && b[offset..] == first + rest
    ensures offset + |first| <= |b| && b[offset + |first|..] == rest
  {
    assert b[offset..][|first|..] == b[offset + |first|..];
  }
}
