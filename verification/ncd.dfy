/** The Normalized Compression Distance between two samples and the distance
    record (`ncd_t`) a worker produces for each training sample. */
module Distance {
  import opened Common
  import opened Samples

  /** One entry of the result buffer: the distance from the query and the class id
      of the training sample it was measured against. */
  datatype Record = Record(distance: real, classId: int)

  /** Capacity of the fixed scratch buffer the source concatenates into. */
  const ScratchSize: nat := 2048

  /** The distance has a denominator: at least one memoized size is non-zero. */
  predicate Comparable(x: Sample, y: Sample)
  {
    Max(x.cs, y.cs) > 0
  }

  /** `C(x ++ y) - min(Cx, Cy)`, with `x`'s text first, as a signed quantity. */
  function Numerator(C: Compressor, x: Sample, y: Sample): int
  {
    C(x.text + y.text) - Min(x.cs, y.cs)
  }

  /** A quotient by a positive denominator is non-negative, or at most one, exactly
      when its numerator is non-negative, or at most the denominator. */
  lemma QuotientBounds(num: real, m: real, d: real)
    requires m > 0.0 && d * m == num
    ensures d >= 0.0 <==> num >= 0.0
    ensures d <= 1.0 <==> num <= m
  {
    if d > 1.0 {
      assert num - m == (d - 1.0) * m;
    }
    if d < 0.0 {
      assert num == d * m;
    }
    if d <= 1.0 {
      assert m - num == (1.0 - d) * m;
    }
  }

  /** NCD(x, y) = (C(x ++ y) - min(Cx, Cy)) / max(Cx, Cy), computed exactly, with the
      concatenation compressed afresh and the single sizes taken from the samples.
      The distance is non-negative exactly when the concatenation compresses to no
      less than the smaller part, and at most one exactly when it compresses to no
      more than both parts together. */
  function Ncd(C: Compressor, x: Sample, y: Sample): (d: real)
    requires Comparable(x, y)
    ensures d >= 0.0 <==> C(x.text + y.text) >= Min(x.cs, y.cs)
    ensures d <= 1.0 <==> C(x.text + y.text) <= x.cs + y.cs
  {
    var m := Max(x.cs, y.cs) as real;
    var d := Numerator(C, x, y) as real / m;
    QuotientBounds(Numerator(C, x, y) as real, m, d);
    assert Max(x.cs, y.cs) + Min(x.cs, y.cs) == x.cs + y.cs;
    d
  }

  /** The compressor is a normal compressor on this pair: the concatenation costs at
      least as much as the larger part and no more than both parts separately. */
  predicate NormalOn(C: Compressor, x: Sample, y: Sample)
  {
    Max(C(x.text), C(y.text)) <= C(x.text + y.text) <= C(x.text) + C(y.text)
  }

  /** For memoized samples and a normal compressor the distance lies in [0, 1],
      the range given for NCD in "Less is More: Parameter-Free Text Classification
      with Gzip" (arXiv:2212.09410). */
  lemma NcdInUnitInterval(C: Compressor, x: Sample, y: Sample)
    requires Memoized(C, x) && Memoized(C, y) && Comparable(x, y)
    requires NormalOn(C, x, y)
    ensures 0.0 <= Ncd(C, x, y) <= 1.0
  {
  }

  /** Swapping the arguments changes only the order of the concatenation, so the
      distance is symmetric exactly when the oracle is on this pair. */
  lemma NcdSymmetricIff(C: Compressor, x: Sample, y: Sample)
    requires Comparable(x, y)
    ensures Comparable(y, x)
    ensures Ncd(C, x, y) == Ncd(C, y, x) <==> C(x.text + y.text) == C(y.text + x.text)
  {
    var m := Max(x.cs, y.cs) as real;
    assert Max(y.cs, x.cs) as real == m;
    assert Ncd(C, x, y) * m == Numerator(C, x, y) as real;
    assert Ncd(C, y, x) * m == Numerator(C, y, x) as real;
  }

  /** `ncd` as written: both texts are copied into a 2048-byte stack buffer, and the
      numerator is an unsigned `size_t` subtraction. A concatenation that does not fit
      overflows the buffer, and a zero denominator gives no real value; both are
      `None`. */
  function NcdAsWritten(C: Compressor, x: Sample, y: Sample): (r: Option<real>)
    ensures r.Some? <==> |x.text| + |y.text| <= ScratchSize && Comparable(x, y)
  {
    if |x.text| + |y.text| > ScratchSize || Max(x.cs, y.cs) == 0 then None
    else Some((Numerator(C, x, y) % SizeModulus) as real / Max(x.cs, y.cs) as real)
  }

  /** Where the texts fit the buffer and the subtraction does not wrap, the code
      computes the formula. */
  lemma NcdAsWrittenAgrees(C: Compressor, x: Sample, y: Sample)
    requires Comparable(x, y) && |x.text| + |y.text| <= ScratchSize
    requires 0 <= Numerator(C, x, y) < SizeModulus
    ensures NcdAsWritten(C, x, y) == Some(Ncd(C, x, y))
  {
  }

  /** Two texts of 1025 and 1024 bytes have a distance, but the code writes past its
      scratch buffer computing it. */
  lemma NcdAsWrittenOverflowsScratch(C: Compressor)
    ensures var x := Sample(0, seq(1025, _ => 97), 1);
            var y := Sample(1, seq(1024, _ => 98), 1);
            Comparable(x, y) && NcdAsWritten(C, x, y) == None
  {
  }

  /** Whenever the concatenation compresses below the smaller single size, the true
      distance is negative, while the code's unsigned numerator wraps to
      `2^64 + Numerator` and the distance it computes lies above 1. The bound on the
      sizes only keeps them far below `2^64`, as any real compressed size is. */
  lemma NcdAsWrittenWrapsAboveOne(C: Compressor, x: Sample, y: Sample)
    requires Comparable(x, y) && |x.text| + |y.text| <= ScratchSize
    requires Numerator(C, x, y) < 0 && Max(x.cs, y.cs) < SizeModulus / 2
    ensures Ncd(C, x, y) < 0.0
    ensures NcdAsWritten(C, x, y) == Some((SizeModulus + Numerator(C, x, y)) as real / Max(x.cs, y.cs) as real)
    ensures NcdAsWritten(C, x, y).value > 1.0
  {
    var num := Numerator(C, x, y);
    var m := Max(x.cs, y.cs);
    assert num % SizeModulus == SizeModulus + num;
    var q := (SizeModulus + num) as real / m as real;
    assert (SizeModulus + num) > m;
    QuotientBounds((SizeModulus + num) as real, m as real, q);
  }

  /** An oracle that compresses the two-byte concatenation below either single size
      makes the true numerator negative; the unsigned subtraction instead wraps to a
      value near 2^64 and the distance lands far above 1. */
  lemma NcdAsWrittenWraps()
    ensures var C: Compressor := (s: seq<byte>) => if |s| == 2 then 1 else 2;
            var x := Sample(0, [1], 2);
            var y := Sample(1, [2], 2);
            && Ncd(C, x, y) == -0.5
            && NcdAsWritten(C, x, y) == Some((SizeModulus - 1) as real / 2.0)
  {
    var C: Compressor := (s: seq<byte>) => if |s| == 2 then 1 else 2;
    var x := Sample(0, [1], 2);
    var y := Sample(1, [2], 2);
    assert |x.text + y.text| == 2;
    assert Numerator(C, x, y) == -1;
  }
}
