/**
 * Shared vocabulary: the C# integer widths the runtime works with, the
 * errors its operations raise, and Option/Result wrappers.
 */
module Common {

  const TWO_7: int := 0x80
  const TWO_31: int := 0x8000_0000
  const TWO_32: int := 0x1_0000_0000
  const TWO_63: int := 0x8000_0000_0000_0000
  const TWO_64: int := 0x1_0000_0000_0000_0000

  /** Largest .NET `int`; a `Span<byte>` is never longer than this. */
  const MAX_INT32: int := TWO_31 - 1

  type byte = b: int | 0 <= b < 256
  type int32 = x: int | -0x8000_0000 <= x < 0x8000_0000
  type uint32 = x: int | 0 <= x < 0x1_0000_0000
  type int64 = x: int | -0x8000_0000_0000_0000 <= x < 0x8000_0000_0000_0000
  type uint64 = x: int | 0 <= x < 0x1_0000_0000_0000_0000

  /** `(int)u` for a `uint`: two's-complement reinterpretation of the 32 bits. */
  function AsInt32(u: uint32): (r: int32)
    ensures 0 <= r ==> r == u
    ensures r < 0 ==> r == u - TWO_32
    ensures r < 0 <==> u >= TWO_31
  {
    if u < TWO_31 then u else u - TWO_32
  }

  /** `(long)u` for a `ulong`. */
  function AsInt64(u: uint64): (r: int64)
    ensures 0 <= r ==> r == u
    ensures r < 0 ==> r == u - TWO_64
    ensures r < 0 <==> u >= TWO_63
  {
    if u < TWO_63 then u else u - TWO_64
  }

  /** `(uint)x` / `(ulong)x` in an unchecked context: keep the low bits. */
  function Low32(x: int): (r: uint32)
    ensures (r - x) % TWO_32 == 0
  {
    x % TWO_32
  }

  function Low64(x: int): (r: uint64)
    ensures (r - x) % TWO_64 == 0
  {
    x % TWO_64
  }

  datatype Option<T> = None | Some(value: T)

  /** The exceptions the modelled code raises, one constructor per cause. */
  datatype Error =
    | EndOfStream            // IOException / EndOfStreamException: the bytes ran out
    | VarIntTooLarge         // ProtocolBufferException: more than 32 or 64 bits
    | InvalidBoolean         // ProtocolBufferException: a bool byte other than 0 or 1
    | OutOfBuffer            // InvalidOperationException from BufferStream
    | ArgumentOutOfRange     // a negative count, or a span outside its array
    | ArgumentNull           // ArgumentNullException
    | NegativeArraySize      // OverflowException from `new byte[negative]`
    | IndexOutOfRange        // array access at a negative index
    | UnknownWireType        // NotImplementedException from SkipKey
    | StringTooLong          // the UTF-8 bytes do not fit the static scratch buffer
    | PackedLengthMismatch   // ProtocolBufferException: packed payload overran its length
    | PastLimit              // ProtocolBufferException: "Read past max limit"
    | InvalidFieldId         // ProtocolBufferException: field id 0
    | NullReference          // NullReferenceException in emitted code
    | NotSupported           // NotSupportedException in emitted code or the generator
    | NotImplemented         // NotImplementedException in emitted code
    | InvalidOperation       // InvalidOperationException in emitted code
    | NotPooled              // Dispose on an instance whose ShouldPool is false

  datatype Result<+T> = Ok(value: T) | Err(error: Error)
  {
    predicate IsFailure() { Err? }

    function PropagateFailure<U>(): Result<U>
      requires Err?
    {
      Err(error)
    }

    function Extract(): T
      requires Ok?
    {
      value
    }
  }

  /** The outcome of an operation that produces no value. */
  datatype Outcome = Pass | Fail(error: Error)
  {
    predicate IsFailure() { Fail? }

    function PropagateFailure(): Outcome
      requires Fail?
    {
      this
    }
  }

  /** A value read from a byte sequence, with the position just after it. */
  datatype Read<+T> = Read(value: T, next: nat)

  /** `s` with `w` written over it from index `at`. */
  function Splice<T>(s: seq<T>, at: nat, w: seq<T>): (r: seq<T>)
    requires at + |w| <= |s|
    ensures |r| == |s|
    ensures r[..at] == s[..at] && r[at..at + |w|] == w && r[at + |w|..] == s[at + |w|..]
  {
    s[..at] + w + s[at + |w|..]
  }

  /** Writing one more element right after a spliced window extends the window. */
  lemma {:induction false} SpliceExtend<T>(s: seq<T>, at: nat, w: seq<T>, x: T)
    requires at + |w| < |s|
    ensures Splice(s, at, w)[at + |w| := x] == Splice(s, at, w + [x])
  {
    var u := Splice(s, at, w)[at + |w| := x];
    var v := Splice(s, at, w + [x]);
    assert |u| == |v|;
    forall i | 0 <= i < |u|
      ensures u[i] == v[i]
    {
      if i < at {
        assert u[i] == s[..at][i];
      } else if i < at + |w| + 1 {
      } else {
        assert u[i] == s[at + |w|..][i - at - |w|];
        assert v[i] == s[at + |w| + 1..][i - at - |w| - 1];
      }
    }
  }

  /** Storing `w[k]` just after a window holding `w[..k]` makes it hold `w[..k + 1]`. */
  lemma {:induction false} SpliceNext<T>(s: seq<T>, at: nat, w: seq<T>, k: nat)
    requires k < |w| && at + k < |s|
    ensures Splice(s, at, w[..k])[at + k := w[k]] == Splice(s, at, w[..k + 1])
  {
    SpliceExtend(s, at, w[..k], w[k]);
    assert w[..k] + [w[k]] == w[..k + 1];
  }

  /** Splicing `x` and then `y` right after it splices `x + y`. */
  lemma {:induction false} SpliceTwice<T>(s: seq<T>, at: nat, x: seq<T>, y: seq<T>)
    requires at + |x| + |y| <= |s|
    ensures Splice(Splice(s, at, x), at + |x|, y) == Splice(s, at, x + y)
  {
    var u := Splice(Splice(s, at, x), at + |x|, y);
    var v := Splice(s, at, x + y);
    forall i | 0 <= i < |u|
      ensures u[i] == v[i]
    {
      if i < at {
        assert u[i] == Splice(s, at, x)[..at + |x|][i];
        assert v[i] == s[..at][i];
      } else if i < at + |x| {
        assert u[i] == Splice(s, at, x)[..at + |x|][i];
        assert v[i] == (x + y)[i - at];
      } else if i < at + |x| + |y| {
        assert v[i] == (x + y)[i - at];
      } else {
        assert u[i] == s[at + |x| + |y|..][i - at - |x| - |y|];
      }
    }
  }
}
