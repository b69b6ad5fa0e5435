/** The positional index as the scanner accumulates it in a std::size_t: every step
    `parg * 10 + digit` is taken modulo 2^64, so a long enough digit run wraps around.
    The rest of the model reads indices as unbounded naturals; this module states
    where the two agree and exhibits where they part. */
module IndexWidth {
  import opened Digits
  import opened FormatArgs
  import opened FormatSpec

  /** One more than the largest std::size_t on a 64-bit target. */
  const SizeModulus: nat := 0x1_0000_0000_0000_0000

  /** The index accumulation as written: left to right, modulo 2^64 at every step. */
  function WrappedDecimalValue(ds: seq<char>): (n: nat)
    requires AllDigits(ds)
    ensures n < SizeModulus
  {
    if ds == [] then 0
    else (WrappedDecimalValue(ds[..|ds| - 1]) * 10 + DigitValue(ds[|ds| - 1])) % SizeModulus
  }

  lemma ModuloStep(x: nat, d: nat)
    ensures ((x % SizeModulus) * 10 + d) % SizeModulus == (x * 10 + d) % SizeModulus
  {
    var q, r := x / SizeModulus, x % SizeModulus;
    assert x * 10 + d == (q * 10) * SizeModulus + (r * 10 + d);
    ShiftByMultiple(q * 10, r * 10 + d);
  }

  lemma ShiftByMultiple(k: nat, y: nat)
    ensures (k * SizeModulus + y) % SizeModulus == y % SizeModulus
  {
    var n := k * SizeModulus + y;
    assert n == (k + y / SizeModulus) * SizeModulus + y % SizeModulus;
  }

  /** The wrapped index is the decimal value of the run reduced modulo 2^64. */
  lemma {:induction false} WrappedIsDecimalModulo(ds: seq<char>)
    requires AllDigits(ds)
    ensures WrappedDecimalValue(ds) == DecimalValue(ds) % SizeModulus
  {
    if ds != [] {
      var init := ds[..|ds| - 1];
      WrappedIsDecimalModulo(init);
      ModuloStep(DecimalValue(init), DigitValue(ds[|ds| - 1]));
    }
  }

  lemma {:induction false} Pow10Monotone(a: nat, b: nat)
    requires a <= b
    ensures Pow10(a) <= Pow10(b)
    decreases b - a
  {
    if a < b {
      Pow10Monotone(a, b - 1);
    }
  }

  /** Runs of at most 19 digits stay below 10^19 < 2^64 and never wrap. */
  lemma ShortRunsDoNotWrap(ds: seq<char>)
    requires AllDigits(ds) && |ds| <= 19
    ensures WrappedDecimalValue(ds) == DecimalValue(ds)
  {
    DecimalValueBound(ds);
    Pow10Monotone(|ds|, 19);
    assert Pow10(4) == 10000;
    assert Pow10(8) == 10000 * 10000 by { assert Pow10(8) == 10000 * Pow10(4); }
    assert Pow10(16) == Pow10(8) * Pow10(8) by { Pow10Add(8, 8); }
    assert Pow10(19) == 1000 * Pow10(16);
    WrappedIsDecimalModulo(ds);
  }

  lemma {:induction false} Pow10Add(a: nat, b: nat)
    ensures Pow10(a + b) == Pow10(a) * Pow10(b)
  {
    if a > 0 {
      Pow10Add(a - 1, b);
    }
  }

  /** As written, the template "%18446744073709551616" (the index 2^64) does not fail with
      IndexOutOfRange: the index wraps to 0 and the first argument is written. The index
      is the parameter `m`, fixed to 2^64, so that the verifier does not expand its
      twenty-digit text character by character. */
  lemma WrapSelectsFirstArgument(m: nat, arg: Text)
    requires m == SizeModulus
    ensures WrappedDecimalValue(Decimal(m)) == 0
    ensures PosOut([arg], WrappedDecimalValue(Decimal(m))) == Ok(arg)
  {
    var ds := Decimal(m);
    DecimalRoundTrip(m);
    WrappedIsDecimalModulo(ds);
    assert DecimalValue(ds) % SizeModulus == m % m == 0;
  }

  /** With the index read as an unbounded natural, the same template is rejected with
      the index it names and the number of arguments supplied. */
  lemma OverlongIndexRejected(m: nat, arg: Text, named: map<Text, Text>)
    requires m == SizeModulus
    ensures Format([ArgStart] + Decimal(m), named, [arg]) == Err(IndexOutOfRange(m, 1))
  {
    DecimalRoundTrip(m);
    PositionalPlaceholder(Decimal(m), [], named, [arg]);
    assert [ArgStart] + Decimal(m) + [] == [ArgStart] + Decimal(m);
  }
}
