/** The behaviour the library's own test suite expects, derived from the general
    lemmas about the scanner and the argument containers. Where a test uses a whole
    template, the template, the named table and the argument list are parameters fixed
    by `requires` to the test's values: stated as literals inside `Format(...)` the
    verifier would unfold the scanner over every character at once, which is far more
    costly than taking the template apart escape by escape. */
module FormatScenarios {
  import opened Digits
  import opened FormatArgs
  import opened FormatSpec
  import opened FormatPieces

  /** Positional lookup in call order, and the failure one past the last argument. */
  lemma PositionalLookups()
    ensures var args := ["mama", "1", "mila", "ramu", "2"];
      PosOut(args, 0) == Ok("mama") && PosOut(args, 1) == Ok("1") && PosOut(args, 2) == Ok("mila") &&
      PosOut(args, 3) == Ok("ramu") && PosOut(args, 4) == Ok("2") &&
      PosOut(args, 5) == Err(IndexOutOfRange(5, 5))
  {
  }

  /** Named lookup by key: each key finds the text it is bound to. */
  lemma NamedLookups()
    ensures var table := map["1" := "mama", "2" := "1", "3" := "mila", "4" := "ramu", "5" := "2"];
      NamedOut(table, "1") == Ok("mama") && NamedOut(table, "2") == Ok("1") &&
      NamedOut(table, "3") == Ok("mila") && NamedOut(table, "4") == Ok("ramu") &&
      NamedOut(table, "5") == Ok("2")
  {
  }

  /** "%0'5" with first argument "mama": the apostrophe ends the index, the 5 is literal. */
  lemma ApostropheEndsIndex(named: map<Text, Text>)
    ensures Format("%0'5", named, ["mama"]) == Ok("mama5")
  {
    var pos := ["mama"];
    assert "%0'5" == "%" + "0" + "'5";
    assert DecimalValue("0") == 0 by { assert "0"[..0] == []; }
    PositionalPlaceholder("0", "'5", named, pos);
    assert "'5"[1..] == "5";
    NoPlaceholderUnchanged("5", named, pos);
    assert "mama" + "5" == "mama5";
  }

  /** Without the apostrophe the digits run on: "%05" names argument 5. */
  lemma DigitsRunOn(named: map<Text, Text>)
    ensures Format("%05", named, ["mama"]) == Err(IndexOutOfRange(5, 1))
  {
    assert "%05" == "%" + "05" + [];
    assert DecimalValue("05") == 5 by { DecimalValueSnoc("0", '5'); assert "0" + ['5'] == "05"; }
    PositionalPlaceholder("05", [], named, ["mama"]);
  }

  /** "%<i>" closing a template writes argument i. */
  lemma LastPositional(d: char, named: map<Text, Text>, pos: seq<Text>)
    requires IsDigit(d) && DigitValue(d) < |pos|
    ensures Format([ArgStart, d], named, pos) == Ok(pos[DigitValue(d)])
  {
    assert [d][..0] == [];
    assert [ArgStart, d] == [ArgStart] + [d] + [];
    PositionalPlaceholder([d], [], named, pos);
    assert Format([], named, pos) == Ok([]) && pos[DigitValue(d)] + [] == pos[DigitValue(d)];
  }

  /** "%<i>" followed by more text writes argument i, then what the text writes. */
  lemma LeadingPositional(d: char, rest: Text, named: map<Text, Text>, pos: seq<Text>)
    requires IsDigit(d) && DigitValue(d) < |pos|
    requires rest != [] && !IsDigit(rest[0]) && rest[0] != PargBrake
    ensures Format([ArgStart, d] + rest, named, pos) == Prepend(pos[DigitValue(d)], Format(rest, named, pos))
  {
    assert [d][..0] == [];
    assert [ArgStart, d] + rest == [ArgStart] + [d] + rest;
    PositionalPlaceholder([d], rest, named, pos);
  }

  lemma MixedArgumentsTail(t: Text, named: map<Text, Text>, pos: seq<Text>)
    requires t == " %{mila} %1"
    requires named == map["mila" := "mila"] && pos == ["mama", "ramu", "10", "20"]
    ensures Format(t, named, pos) == Ok(" mila ramu")
  {
    var t3 := " %1";
    var t2 := "%{mila} %1";
    assert t3 == " " + [ArgStart, '1'] && " " + "ramu" == " ramu";
    assert t2 == "%{" + "mila" + "}" + t3 && "mila" + " ramu" == "mila ramu";
    assert t == " " + t2 && " " + "mila ramu" == " mila ramu";
    LastPositional('1', named, pos);
    LiteralPrefix(" ", [ArgStart, '1'], named, pos);
    NamedPlaceholder("mila", t3, named, pos);
    LiteralPrefix(" ", t2, named, pos);
  }

  /** Named and positional placeholders mixed in one template, unused arguments ignored. */
  lemma MixedArguments(template: Text, named: map<Text, Text>, pos: seq<Text>)
    requires template == "%0 %{mila} %1"
    requires named == map["mila" := "mila"] && pos == ["mama", "ramu", "10", "20"]
    ensures Format(template, named, pos) == Ok("mama mila ramu")
  {
    var t := " %{mila} %1";
    assert template == [ArgStart, '0'] + t && "mama" + " mila ramu" == "mama mila ramu";
    MixedArgumentsTail(t, named, pos);
    LeadingPositional('0', t, named, pos);
  }

  /** The tail " %1 %2" of the positional template below writes " mila ramu". */
  lemma PositionalArgsTail(t: Text, named: map<Text, Text>, pos: seq<Text>)
    requires t == " %1 %2" && pos == ["mama", "mila", "ramu", "10", "20"]
    ensures Format(t, named, pos) == Ok(" mila ramu")
  {
    var t3 := " %2";
    var t2 := "%1 %2";
    assert t3 == " " + [ArgStart, '2'] && " " + "ramu" == " ramu";
    assert t2 == [ArgStart, '1'] + t3 && "mila" + " ramu" == "mila ramu";
    assert t == " " + t2 && " " + "mila ramu" == " mila ramu";
    assert DigitValue('1') == 1 && DigitValue('2') == 2;
    LastPositional('2', named, pos);
    LiteralPrefix(" ", [ArgStart, '2'], named, pos);
    LeadingPositional('1', t3, named, pos);
    LiteralPrefix(" ", t2, named, pos);
  }

  /** Positional placeholders only, the unused trailing arguments ignored. */
  lemma PositionalArgsOnly(template: Text, named: map<Text, Text>, pos: seq<Text>)
    requires template == "%0 %1 %2" && pos == ["mama", "mila", "ramu", "10", "20"]
    ensures Format(template, named, pos) == Ok("mama mila ramu")
  {
    var t := " %1 %2";
    assert template == [ArgStart, '0'] + t && "mama" + " mila ramu" == "mama mila ramu";
    assert DigitValue('0') == 0;
    PositionalArgsTail(t, named, pos);
    LeadingPositional('0', t, named, pos);
  }

  /** " %% " followed by `rest`: a space, one '%' and a space, then what `rest` writes. */
  lemma SpacedPercent(rest: Text, named: map<Text, Text>, pos: seq<Text>)
    ensures Format(" %% " + rest, named, pos) == Prepend(" % ", Format(rest, named, pos))
  {
    var r3 := " " + rest;
    var r2 := "%%" + r3;
    SpacedPercentTexts();
    assert " %% " + rest == " " + r2;
    LiteralPrefix(" ", r2, named, pos);
    EscapedPercent(r3, named, pos);
    LiteralPrefix(" ", rest, named, pos);
    var f := Format(rest, named, pos);
    PrependPrepend("%", " ", f);
    PrependPrepend(" ", "% ", f);
  }

  lemma SpacedPercentTexts()
    ensures " %% " == " " + "%%" + " "
    ensures "%" + " " == "% " && " " + "% " == " % "
  {
  }

  /** "%<d> %% " followed by `rest`: argument d, a space, one '%' and a space, then
      what `rest` writes. */
  lemma PositionalThenPercent(d: char, rest: Text, named: map<Text, Text>, pos: seq<Text>)
    requires IsDigit(d) && DigitValue(d) < |pos|
    ensures Format([ArgStart, d] + (" %% " + rest), named, pos) ==
            Prepend(pos[DigitValue(d)] + " % ", Format(rest, named, pos))
  {
    var r1 := " %% " + rest;
    assert r1[0] == ' ';
    LeadingPositional(d, r1, named, pos);
    SpacedPercent(rest, named, pos);
    PrependPrepend(pos[DigitValue(d)], " % ", Format(rest, named, pos));
  }

  /** The head "%0 %% %1 %% " shared by the error tests, with arguments "mama" and "mila". */
  lemma TestHead(t: Text, named: map<Text, Text>, pos: seq<Text>)
    requires pos == ["mama", "mila"]
    ensures Format("%0 %% %1 %% " + t, named, pos) == Prepend("mama % mila % ", Format(t, named, pos))
  {
    var u := [ArgStart, '1'] + (" %% " + t);
    var v := [ArgStart, '0'] + (" %% " + u);
    assert "%0 %% %1 %% " == [ArgStart, '0'] + " %% " + [ArgStart, '1'] + " %% ";
    assert "%0 %% %1 %% " + t == v;
    assert DigitValue('0') == 0 && DigitValue('1') == 1;
    PositionalThenPercent('1', t, named, pos);
    assert pos[1] + " % " == "mila % ";
    PositionalThenPercent('0', u, named, pos);
    assert pos[0] + " % " == "mama % ";
    PrependPrepend("mama % ", "mila % ", Format(t, named, pos));
    assert "mama % " + "mila % " == "mama % mila % ";
  }

  /** "%%" between placeholders writes a single '%' each time. */
  lemma DoublePercentSymbol(template: Text, named: map<Text, Text>, pos: seq<Text>)
    requires template == "%0 %% %1 %% %{ramu}"
    requires named == map["ramu" := "ramu"] && pos == ["mama", "mila"]
    ensures Format(template, named, pos) == Ok("mama % mila % ramu")
  {
    var t := "%{ramu}";
    DoublePercentSymbolTexts();
    TestHead(t, named, pos);
    NamedTail(t, named, pos);
  }

  /** The template and the output of the test above, split after the shared head. */
  lemma DoublePercentSymbolTexts()
    ensures "%0 %% %1 %% " + "%{ramu}" == "%0 %% %1 %% %{ramu}"
    ensures "mama % mila % " + "ramu" == "mama % mila % ramu"
  {
  }

  /** The last placeholder of the template above, "%{ramu}", writes "ramu". */
  lemma NamedTail(t: Text, named: map<Text, Text>, pos: seq<Text>)
    requires t == "%{ramu}" && named == map["ramu" := "ramu"]
    ensures Format(t, named, pos) == Ok("ramu")
  {
    assert t == "%{" + "ramu" + "}" + [];
    assert "ramu" in named && named["ramu"] == "ramu";
    NamedPlaceholder("ramu", [], named, pos);
    assert Format([], named, pos) == Ok([]);
    assert "ramu" + [] == "ramu";
  }

  /** A '%' ending the template raises UnexpectedEnd after the earlier placeholders. */
  lemma UnexpectedEndPercentAtEnd(template: Text, named: map<Text, Text>, pos: seq<Text>)
    requires template == "%0 %% %1 %% %{ramu} %"
    requires named == map["ramu" := "ramu"] && pos == ["mama", "mila"]
    ensures Format(template, named, pos) == Err(UnexpectedEnd)
  {
    var t := "%{ramu} %";
    PercentAtEndTexts();
    TestHead(t, named, pos);
    NamedPlaceholder("ramu", " %", named, pos);
    PercentAtEnd(" ", named, pos);
  }

  /** The template of the test above, split after the shared head and after "%{ramu}". */
  lemma PercentAtEndTexts()
    ensures "%0 %% %1 %% " + "%{ramu} %" == "%0 %% %1 %% %{ramu} %"
    ensures "%{ramu} %" == "%{" + "ramu" + "}" + " %" && " %" == " " + "%"
  {
  }

  /** An unclosed brace raises UnterminatedNamedArg after the earlier placeholders. */
  lemma UnexpectedEndUnclosedCurlBraces(template: Text, named: map<Text, Text>, pos: seq<Text>)
    requires template == "%0 %% %1 %% %{ramu sfds"
    requires named == map["ramu" := "ramu"] && pos == ["mama", "mila"]
    ensures Format(template, named, pos) == Err(UnterminatedNamedArg)
  {
    var t := "%{ramu sfds";
    var tail := "ramu sfds";
    assert template == "%0 %% %1 %% " + t;
    assert t == "%{" + tail;
    assert NargStop !in tail by {
      forall k | 0 <= k < |tail| ensures tail[k] != NargStop {
      }
    }
    TestHead(t, named, pos);
    UnterminatedNamed(tail, named, pos);
  }

  /** A letter after '%' raises InvalidEscape after the earlier placeholders. */
  lemma UnexpectedSymbolAfterPercent(template: Text, named: map<Text, Text>, pos: seq<Text>)
    requires template == "%0 %% %1 %% %ramu sfds"
    requires named == map["ramu" := "ramu"] && pos == ["mama", "mila"]
    ensures Format(template, named, pos) == Err(InvalidEscape)
  {
    var t := "%ramu sfds";
    assert template == "%0 %% %1 %% " + t;
    assert t == [ArgStart, 'r'] + "amu sfds";
    TestHead(t, named, pos);
    BadEscape('r', "amu sfds", named, pos);
  }

  /** "%{}" raises EmptyNamedKey after the earlier placeholders. */
  lemma UnexpectedEmptyKeyForNamedArg(template: Text, named: map<Text, Text>, pos: seq<Text>)
    requires template == "%0 %% %1 %% %{}"
    requires named == map["ramu" := "ramu"] && pos == ["mama", "mila"]
    ensures Format(template, named, pos) == Err(EmptyNamedKey)
  {
    var t := "%{}";
    assert template == "%0 %% %1 %% " + t;
    assert t == "%{}" + [];
    TestHead(t, named, pos);
    EmptyKey([], named, pos);
  }

  /** mira::fmt("string") writes "string". */
  lemma PlainTemplate()
    ensures Fmt("string") == Ok("string")
  {
    NoPlaceholderUnchanged("string", map[], []);
  }
}
