/** Shared vocabulary of the classifier model: bytes, the compressed-size oracle,
    failure-carrying results and small integer helpers. */
module Common {

  /** An unsigned 8-bit value, the element type of the sample texts (`uint8_t`). */
  newtype byte = x: int | 0 <= x < 256

  /** The compressed-size oracle: the output length of zlib's `compress2` at
      `Z_BEST_COMPRESSION`. A Dafny function value always returns the same size
      for the same bytes, which is the determinism the distance relies on. */
  type Compressor = seq<byte> -> nat

  /** Number of categories the vote histogram has (`CLASS_COUNT`). */
  const ClassCount: nat := 4

  /** Width of `size_t`: unsigned arithmetic on compressed sizes wraps modulo this. */
  const SizeModulus: nat := 0x1_0000_0000_0000_0000

  datatype Option<+T> = None | Some(value: T)

  /** Why a step of the classification could not produce a value. */
  datatype Error =
    | ShortLine        // a training line shorter than its two-byte class prefix
    | ZeroSize         // both compressed sizes are zero, so the NCD has no denominator
    | BufferOverflow   // a worker would write past the end of its result buffer

  datatype Result<+T> = Ok(value: T) | Err(error: Error)

  /** The `MIN` macro: the first argument unless the second is strictly smaller. */
  function Min(a: int, b: int): (m: int)
    ensures m <= a && m <= b
    ensures m == a || m == b
  {
    if a < b then a else b
  }

  /** The `MAX` macro: the first argument unless the second is strictly larger. */
  function Max(a: int, b: int): (m: int)
    ensures m >= a && m >= b
    ensures m == a || m == b
  {
    if a > b then a else b
  }

  /** Sum of a sequence of counts, folded from the end. */
  function Sum(s: seq<int>): int
  {
    if |s| == 0 then 0 else Sum(s[..|s| - 1]) + s[|s| - 1]
  }

  /** A sequence of zeros sums to zero. */
  lemma {:induction false} SumZeros(s: seq<int>)
    requires forall i :: 0 <= i < |s| ==> s[i] == 0
    ensures Sum(s) == 0
    decreases |s|
  {
    if |s| > 0 {
      SumZeros(s[..|s| - 1]);
    }
  }

  /** Incrementing one entry of a sequence raises its sum by exactly one. */
  lemma {:induction false} SumIncrement(s: seq<int>, c: nat)
    requires c < |s|
    ensures Sum(s[c := s[c] + 1]) == Sum(s) + 1
    decreases |s|
  {
    var t := s[c := s[c] + 1];
    var n := |s| - 1;
    assert t[..n] == if c < n then s[..n][c := s[c] + 1] else s[..n];
    if c < n {
      SumIncrement(s[..n], c);
    }
  }
}
