/** TraitsImpl::doFormat as the loop it is: a view `v` over the rest of the template
    that shrinks on every pass, and the text written to the stream so far. The body
    of the loop, from the '%' on, is EscapeStep; its digit loop is ReadIndex. */
module FormatScanner {
  import opened Digits
  import opened FormatArgs
  import opened FormatSpec

  /** The digit loop: starting after the '%' at v[0], reads the maximal run of digits,
      accumulating `parg = parg * 10 + digit`; `idx` ends on the first non-digit. */
  method ReadIndex(v: Text) returns (parg: nat, idx: nat)
    requires |v| >= 2 && IsDigit(v[1])
    ensures 2 <= idx <= |v| && AllDigits(v[1..idx]) && (idx == |v| || !IsDigit(v[idx]))
    ensures idx == DigitRunEnd(v, 1) && parg == DecimalValue(v[1..idx])
  {
    parg, idx := 0, 1;
    while idx < |v|
      invariant 1 <= idx <= |v|
      invariant AllDigits(v[1..idx])
      invariant parg == DecimalValue(v[1..idx])
      invariant DigitRunEnd(v, idx) == DigitRunEnd(v, 1)
    {
      if !IsDigit(v[idx]) {
        break;
      }
      DecimalValueSnoc(v[1..idx], v[idx]);
      assert v[1..idx] + [v[idx]] == v[1..idx + 1];
      parg := parg * 10 + DigitValue(v[idx]);
      idx := idx + 1;
    }
  }

  /** Handles the escape at the head of `v` (which starts with '%'): returns the text it
      writes and the view scanning resumes with, or the error it raises. The written text
      followed by the output of `rest` is what the specification gives for this escape. */
  method EscapeStep(v: Text, named: map<Text, Text>, pos: seq<Text>) returns (written: Result<Text>, rest: Text)
    requires v != [] && v[0] == ArgStart
    ensures |rest| < |v|
    ensures written.Err? ==> Escape(v, named, pos) == Err(written.error)
    ensures written.Ok? ==> Escape(v, named, pos) == Prepend(written.value, Format(rest, named, pos))
  {
    rest := [];
    if |v| == 1 {
      return Err(UnexpectedEnd), rest;
    }

    if v[1] == ArgStart {
      return Ok([ArgStart]), v[2..];
    }

    if v[1] == NargStart {
      var stop := Find(v, NargStop);
      if stop.None? {
        return Err(UnterminatedNamedArg), rest;
      }
      var nas := stop.value;
      var key := v[2..nas];
      if key == [] {
        return Err(EmptyNamedKey), rest;
      }
      written := NamedOut(named, key);
      rest := if nas == |v| - 1 then [] else v[nas + 1..];
      assert rest == v[nas + 1..];
      return;
    }

    if !IsDigit(v[1]) {
      return Err(InvalidEscape), rest;
    }

    var parg, idx := ReadIndex(v);
    written := PosOut(pos, parg);
    if idx < |v| {
      rest := if v[idx] == PargBrake then v[idx + 1..] else v[idx..];
    }
    assert rest == AfterIndex(v, idx);
  }

  /** Scans `template`, writing literal text and argument texts in order. The result is
      exactly what the recursive scanner specification gives: the whole output, or the
      first error raised. */
  method DoFormat(template: Text, named: map<Text, Text>, pos: seq<Text>) returns (r: Result<Text>)
    ensures r == Format(template, named, pos)
  {
    var v := template;
    var out: Text := [];
    PrependNothing(Format(v, named, pos));
    while v != []
      invariant Format(template, named, pos) == Prepend(out, Format(v, named, pos))
      decreases |v|
    {
      var found := Find(v, ArgStart);
      if found.None? {
        out := out + v;
        assert Format(template, named, pos) == Ok(out);
        break;
      }
      var asp := found.value;
      PrependPrepend(out, v[..asp], Escape(v[asp..], named, pos));
      out, v := out + v[..asp], v[asp..];

      var written, rest := EscapeStep(v, named, pos);
      if written.Err? {
        return Err(written.error);
      }
      PrependPrepend(out, written.value, Format(rest, named, pos));
      out, v := out + written.value, rest;
    }
    assert v == [] ==> out + v == out;
    return Ok(out);
  }
}
