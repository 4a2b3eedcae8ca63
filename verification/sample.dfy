/** A labelled training or query record (`sample_t`): its class id parsed from the
    line's leading ordinal, its text, and its memoized compressed size. */
module Samples {
  import opened Common

  /** `class_` is the zero-based class id, `text` the bytes after the two-byte
      prefix, and `cs` the compressed size computed when the sample was built. */
  datatype Sample = Sample(classId: int, text: seq<byte>, cs: nat)

  /** The memoized size is the oracle's size of the sample's own text. */
  predicate Memoized(C: Compressor, s: Sample)
  {
    s.cs == C(s.text)
  }

  const Nul: byte := 0
  const Zero: byte := 48   // '0'
  const Plus: byte := 43   // '+'
  const Minus: byte := 45  // '-'

  predicate IsDigit(b: byte)
  {
    Zero <= b <= Zero + 9
  }

  /** The C `isspace` set: space, tab, newline, vertical tab, form feed, carriage return. */
  predicate IsSpace(b: byte)
  {
    b == 32 || 9 <= b <= 13
  }

  predicate AllDigits(s: seq<byte>)
  {
    forall i :: 0 <= i < |s| ==> IsDigit(s[i])
  }

  /** True when `s` cannot continue a run of digits: it is empty or starts with a non-digit. */
  predicate EndsNumber(s: seq<byte>)
  {
    |s| == 0 || !IsDigit(s[0])
  }

  function SkipSpace(s: seq<byte>): (t: seq<byte>)
    ensures |t| <= |s| && t == s[|s| - |t|..]
    ensures |t| == 0 || !IsSpace(t[0])
  {
    if |s| > 0 && IsSpace(s[0]) then SkipSpace(s[1..]) else s
  }

  /** Accumulates the leading run of decimal digits of `s` onto `acc`, most significant first. */
  function ParseDigits(s: seq<byte>, acc: int): (r: int)
    ensures acc >= 0 ==> r >= acc
    ensures (|s| == 0 || !IsDigit(s[0])) ==> r == acc
  {
    if |s| > 0 && IsDigit(s[0]) then ParseDigits(s[1..], acc * 10 + (s[0] - Zero) as int) else acc
  }

  /** `atoi`: skips leading white space, reads an optional sign and then the longest
      run of decimal digits; no digits gives zero. The result is negative only after
      a minus sign, and non-zero only when the first byte past the white space is a
      sign or a digit. */
  function AtoI(s: seq<byte>): (r: int)
    ensures r < 0 ==> |SkipSpace(s)| > 0 && SkipSpace(s)[0] == Minus
    ensures r != 0 ==> |SkipSpace(s)| > 0 && (IsDigit(SkipSpace(s)[0]) || SkipSpace(s)[0] == Plus || SkipSpace(s)[0] == Minus)
  {
    var t := SkipSpace(s);
    if |t| > 0 && t[0] == Minus then -ParseDigits(t[1..], 0)
    else if |t| > 0 && t[0] == Plus then ParseDigits(t[1..], 0)
    else ParseDigits(t, 0)
  }

  /** The decimal rendering of `n`, without sign or leading zeros. */
  function Decimal(n: nat): (d: seq<byte>)
    ensures |d| > 0 && AllDigits(d)
  {
    if n < 10 then [Zero + n as byte] else Decimal(n / 10) + [Zero + (n % 10) as byte]
  }

  /** Digits are read left to right: parsing a digit run and then the rest is parsing the whole. */
  lemma {:induction false} ParseDigitsAppend(a: seq<byte>, b: seq<byte>, acc: int)
    requires AllDigits(a)
    ensures ParseDigits(a + b, acc) == ParseDigits(b, ParseDigits(a, acc))
    decreases |a|
  {
    if |a| > 0 {
      assert (a + b)[1..] == a[1..] + b;
      ParseDigitsAppend(a[1..], b, acc * 10 + (a[0] - Zero) as int);
    } else {
      assert a + b == b;
    }
  }

  /** Parsing the decimal rendering of `n` gives back `n`. */
  lemma {:induction false} ParseDecimal(n: nat)
    ensures ParseDigits(Decimal(n), 0) == n
    decreases n
  {
    if n >= 10 {
      var d: seq<byte> := [Zero + (n % 10) as byte];
      ParseDecimal(n / 10);
      ParseDigitsAppend(Decimal(n / 10), d, 0);
      assert ParseDigits(d[1..], n / 10 * 10 + n % 10) == n;
    }
  }

  /** `atoi` inverts the decimal rendering of a class ordinal as long as the
      ordinal is followed by something that is not a digit. */
  lemma AtoIDecimal(n: nat, rest: seq<byte>)
    requires EndsNumber(rest)
    ensures AtoI(Decimal(n) + rest) == n
  {
    var line := Decimal(n) + rest;
    assert line[0] == Decimal(n)[0];
    assert SkipSpace(line) == line;
    ParseDigitsAppend(Decimal(n), rest, 0);
    ParseDecimal(n);
  }

  /** `sample_t::init`, corrected: the class id is the leading integer minus one, the
      text is everything after the two-byte prefix, and the compressed size is taken
      once. A line too short to hold the prefix is rejected. */
  function Init(C: Compressor, line: seq<byte>): (r: Result<Sample>)
    ensures r.Ok? <==> |line| >= 2
    ensures r.Err? ==> r.error == ShortLine
    ensures r.Ok? ==> Memoized(C, r.value) && |r.value.text| + 2 == |line|
    ensures r.Ok? ==> r.value.text == line[2..] && r.value.classId == AtoI(line) - 1
  {
    if |line| < 2 then Err(ShortLine)
    else Ok(Sample(AtoI(line) - 1, line[2..], C(line[2..])))
  }

  /** A training line in the corpus format — one ordinal class digit, one separator,
      the text — builds the sample of that class (zero-based) and exactly that text. */
  lemma InitParsesLine(C: Compressor, ordinal: nat, sep: byte, text: seq<byte>)
    requires 1 <= ordinal <= 9
    requires !IsDigit(sep)
    ensures Init(C, Decimal(ordinal) + [sep] + text) == Ok(Sample(ordinal - 1, text, C(text)))
  {
    var line := Decimal(ordinal) + [sep] + text;
    assert line == Decimal(ordinal) + ([sep] + text);
    AtoIDecimal(ordinal, [sep] + text);
    assert line[2..] == text;
  }

  /** `sample_t::init` as written: the caller passes the line and its length `n`,
      and `n` bytes are copied starting two bytes in. The readable memory is the
      line followed by its terminating NUL; a copy reaching beyond it has no value. */
  function InitAsWritten(C: Compressor, line: seq<byte>, n: nat): (r: Option<Sample>)
    ensures r.Some? <==> n + 1 <= |line|
  {
    var mem := line + [Nul];
    if 2 + n > |mem| then None
    else Some(Sample(AtoI(line) - 1, mem[2..2 + n], C(mem[2..2 + n])))
  }

  /** Both constructors pass the full line length, so the copy always runs past the
      terminating NUL: no line yields a sample. */
  lemma InitAsWrittenOverreads(C: Compressor, line: seq<byte>)
    ensures InitAsWritten(C, line, |line|) == None
  {
  }

  /** Passing the length minus the two prefix bytes makes the copy agree with `Init`. */
  lemma InitAsWrittenShortenedAgrees(C: Compressor, line: seq<byte>)
    requires |line| >= 2
    ensures InitAsWritten(C, line, |line| - 2) == Some(Init(C, line).value)
  {
    assert (line + [Nul])[2..|line|] == line[2..];
  }

  /** `sample_t::compress`: recompute the memoized size from the text. */
  function Compress(C: Compressor, s: Sample): (r: Sample)
    ensures Memoized(C, r)
    ensures r.classId == s.classId && r.text == s.text
  {
    s.(cs := C(s.text))
  }

  /** Because the oracle is deterministic, recompressing a sample built by `Init`
      changes nothing: the size really is computed once. */
  lemma CompressAfterInit(C: Compressor, line: seq<byte>)
    requires |line| >= 2
    ensures Compress(C, Init(C, line).value) == Init(C, line).value
  {
  }
}
