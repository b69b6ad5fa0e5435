/** The template scanner of TraitsImpl::doFormat as a recursive function over the
    remaining view of the template, and what it promises about each kind of escape. */
module FormatSpec {
  import opened Digits
  import opened FormatArgs

  const ArgStart: char := '%'
  const PargBrake: char := '\''
  const NargStart: char := '{'
  const NargStop: char := '}'

  /** basic_string_view::find for one character: the first position holding `c`. */
  function Find(s: Text, c: char): (r: Option<nat>)
    ensures r.None? <==> c !in s
    ensures r.Some? ==> r.value < |s| && s[r.value] == c && c !in s[..r.value]
  {
    if s == [] then None
    else if s[0] == c then Some(0)
    else
      match Find(s[1..], c)
      case None => None
      case Some(i) =>
        assert s[..i + 1] == [s[0]] + s[1..][..i];
        Some(i + 1)
  }

  /** The first occurrence is the only position that `find` can report. */
  lemma FindFirst(s: Text, c: char, j: nat)
    requires j < |s| && s[j] == c && c !in s[..j]
    ensures Find(s, c) == Some(j)
  {
  }

  /** Where scanning resumes after a positional placeholder whose digits end at `idx`:
      one apostrophe right after the digits is swallowed, anything else is kept. */
  function AfterIndex(w: Text, idx: nat): (rest: Text)
    requires idx <= |w|
    ensures |rest| <= |w| - idx
  {
    if idx < |w| then (if w[idx] == PargBrake then w[idx + 1..] else w[idx..]) else []
  }

  /** The output the scanner writes for template `v`, or the first error it raises.
      `named` is the named argument table, `pos` the positional argument list. Literal
      text up to the first '%' is written, then the escape that starts there is handled. */
  function Format(v: Text, named: map<Text, Text>, pos: seq<Text>): Result<Text>
    decreases |v|, 3
  {
    if v == [] then Ok([])
    else
      match Find(v, ArgStart)
      case None => Ok(v)
      case Some(asp) => Prepend(v[..asp], Escape(v[asp..], named, pos))
  }

  /** One pass of the scanner's loop body from the '%' at the head of `w`: what that
      escape writes followed by the output of the rest of the template. */
  function Escape(w: Text, named: map<Text, Text>, pos: seq<Text>): Result<Text>
    requires w != [] && w[0] == ArgStart
    decreases |w|, 2
  {
    if |w| == 1 then Err(UnexpectedEnd)
    else if w[1] == ArgStart then Prepend([ArgStart], Format(w[2..], named, pos))
    else if w[1] == NargStart then NamedEscape(w, named, pos)
    else if !IsDigit(w[1]) then Err(InvalidEscape)
    else PositionalEscape(w, named, pos)
  }

  /** "%{key}": the key runs up to the first '}' after the brace. */
  function NamedEscape(w: Text, named: map<Text, Text>, pos: seq<Text>): Result<Text>
    requires |w| >= 2 && w[0] == ArgStart && w[1] == NargStart
    decreases |w|, 1
  {
    match Find(w, NargStop)
    case None => Err(UnterminatedNamedArg)
    case Some(nas) =>
      var key := w[2..nas];
      if key == [] then Err(EmptyNamedKey)
      else Chain(NamedOut(named, key), Format(w[nas + 1..], named, pos))
  }

  /** "%<digits>": the index is the value of the whole digit run. */
  function PositionalEscape(w: Text, named: map<Text, Text>, pos: seq<Text>): Result<Text>
    requires |w| >= 2 && IsDigit(w[1])
    decreases |w|, 1
  {
    var idx := DigitRunEnd(w, 1);
    Chain(PosOut(pos, DecimalValue(w[1..idx])), Format(AfterIndex(w, idx), named, pos))
  }

  /** A template without '%' is written unchanged, whatever arguments are supplied. */
  lemma NoPlaceholderUnchanged(v: Text, named: map<Text, Text>, pos: seq<Text>)
    requires ArgStart !in v
    ensures Format(v, named, pos) == Ok(v)
  {
  }

  /** A view that starts with '%' writes no literal text before handling that escape. */
  lemma FormatAtEscape(w: Text, named: map<Text, Text>, pos: seq<Text>)
    requires w != [] && w[0] == ArgStart
    ensures Format(w, named, pos) == Escape(w, named, pos)
  {
    FindFirst(w, ArgStart, 0);
    assert w[0..] == w;
    assert w[..0] == [];
    var r := Escape(w, named, pos);
    if r.Ok? {
      assert [] + r.value == r.value;
    }
  }

  /** Text without '%' in front of an escape is written before that escape is handled. */
  lemma FormatSplit(pre: Text, w: Text, named: map<Text, Text>, pos: seq<Text>)
    requires ArgStart !in pre && w != [] && w[0] == ArgStart
    ensures Format(pre + w, named, pos) == Prepend(pre, Escape(w, named, pos))
  {
    var v := pre + w;
    assert v[..|pre|] == pre;
    assert v[|pre|..] == w;
    FindFirst(v, ArgStart, |pre|);
  }

  /** Literal text before the next '%' is copied in front of whatever the rest produces,
      and an error in the rest is the error of the whole. */
  lemma LiteralPrefix(lit: Text, rest: Text, named: map<Text, Text>, pos: seq<Text>)
    requires ArgStart !in lit
    ensures Format(lit + rest, named, pos) == Prepend(lit, Format(rest, named, pos))
  {
    if ArgStart in rest {
      var j := Find(rest, ArgStart).value;
      assert rest == rest[..j] + rest[j..];
      LiteralBeforeEscape(lit, rest[..j], rest[j..], named, pos);
    } else {
      var v := lit + rest;
      assert ArgStart !in v by {
        forall k | 0 <= k < |v| ensures v[k] != ArgStart {
          if k < |lit| { assert v[k] == lit[k]; } else { assert v[k] == rest[k - |lit|]; }
        }
      }
      if rest == [] {
        assert v == lit;
      }
    }
  }

  lemma LiteralBeforeEscape(lit: Text, mid: Text, w: Text, named: map<Text, Text>, pos: seq<Text>)
    requires ArgStart !in lit && ArgStart !in mid && w != [] && w[0] == ArgStart
    ensures Format(lit + (mid + w), named, pos) == Prepend(lit, Format(mid + w, named, pos))
  {
    assert lit + (mid + w) == (lit + mid) + w;
    assert ArgStart !in lit + mid by {
      forall k | 0 <= k < |lit + mid| ensures (lit + mid)[k] != ArgStart {
        if k >= |lit| { assert (lit + mid)[k] == mid[k - |lit|]; }
      }
    }
    FormatSplit(lit + mid, w, named, pos);
    FormatSplit(mid, w, named, pos);
    PrependPrepend(lit, mid, Escape(w, named, pos));
  }

  /** "%%" writes one '%' and scanning resumes right after it. */
  lemma EscapedPercent(rest: Text, named: map<Text, Text>, pos: seq<Text>)
    ensures Format("%%" + rest, named, pos) == Prepend("%", Format(rest, named, pos))
  {
    var v := "%%" + rest;
    FormatAtEscape(v, named, pos);
    assert v[2..] == rest;
  }

  /** A '%' as the last character of the template raises UnexpectedEnd. */
  lemma PercentAtEnd(lit: Text, named: map<Text, Text>, pos: seq<Text>)
    requires ArgStart !in lit
    ensures Format(lit + "%", named, pos) == Err(UnexpectedEnd)
  {
    LiteralPrefix(lit, "%", named, pos);
    FormatAtEscape("%", named, pos);
  }

  /** '%' followed by a character other than '%', '{' or a digit raises InvalidEscape. */
  lemma BadEscape(c: char, rest: Text, named: map<Text, Text>, pos: seq<Text>)
    requires c != ArgStart && c != NargStart && !IsDigit(c)
    ensures Format([ArgStart, c] + rest, named, pos) == Err(InvalidEscape)
  {
    FormatAtEscape([ArgStart, c] + rest, named, pos);
  }

  /** "%{" with no '}' anywhere after it raises UnterminatedNamedArg. */
  lemma UnterminatedNamed(tail: Text, named: map<Text, Text>, pos: seq<Text>)
    requires NargStop !in tail
    ensures Format("%{" + tail, named, pos) == Err(UnterminatedNamedArg)
  {
    var v := "%{" + tail;
    FormatAtEscape(v, named, pos);
  }

  /** "%{}" raises EmptyNamedKey. */
  lemma EmptyKey(rest: Text, named: map<Text, Text>, pos: seq<Text>)
    ensures Format("%{}" + rest, named, pos) == Err(EmptyNamedKey)
  {
    var v := "%{}" + rest;
    FormatAtEscape(v, named, pos);
    FindFirst(v, NargStop, 2);
  }

  /** "%{key}" writes the text bound to `key`, the key being everything up to the first
      '}', and resumes right after that '}'; an unknown key raises UnknownKey(key). */
  lemma NamedPlaceholder(key: Text, rest: Text, named: map<Text, Text>, pos: seq<Text>)
    requires key != [] && NargStop !in key
    ensures key in named ==>
      Format("%{" + key + "}" + rest, named, pos) == Prepend(named[key], Format(rest, named, pos))
    ensures key !in named ==>
      Format("%{" + key + "}" + rest, named, pos) == Err(UnknownKey(key))
  {
    var v := "%{" + key + "}" + rest;
    var nas := |key| + 2;
    FormatAtEscape(v, named, pos);
    assert v[..nas] == "%{" + key;
    FindFirst(v, NargStop, nas);
    assert v[2..nas] == key;
    assert v[nas + 1..] == rest;
  }

  /** "%<digits>" writes the positional argument whose index is the decimal value of the
      whole digit run (or raises IndexOutOfRange); a single apostrophe right after the
      digits is swallowed, and any other character is scanned as ordinary text. */
  lemma PositionalPlaceholder(ds: Text, rest: Text, named: map<Text, Text>, pos: seq<Text>)
    requires ds != [] && AllDigits(ds)
    requires rest == [] || !IsDigit(rest[0])
    ensures var i := DecimalValue(ds);
      var resume := if rest != [] && rest[0] == PargBrake then rest[1..] else rest;
      Format("%" + ds + rest, named, pos) ==
        if i < |pos| then Prepend(pos[i], Format(resume, named, pos))
        else Err(IndexOutOfRange(i, |pos|))
  {
    var v := "%" + ds + rest;
    var idx := |ds| + 1;
    FormatAtEscape(v, named, pos);
    assert v[1] == ds[0];
    assert v[1..idx] == ds;
    assert rest != [] ==> v[idx] == rest[0];
    DigitRunEndUnique(v, 1, idx);
    if idx < |v| {
      assert v[idx + 1..] == rest[1..];
      assert v[idx..] == rest;
    }
  }

  /** Doubles every '%' of `s`: the template whose output is exactly `s`. */
  function Quote(s: Text): (t: Text)
    ensures |t| >= |s|
  {
    if s == [] then []
    else (if s[0] == ArgStart then "%%" else [s[0]]) + Quote(s[1..])
  }

  /** Formatting the quoted text gives the text back: "%%" is the only escape that
      writes a '%', and literal text is copied verbatim, whatever the arguments. */
  lemma {:induction false} QuoteRoundTrip(s: Text, named: map<Text, Text>, pos: seq<Text>)
    ensures Format(Quote(s), named, pos) == Ok(s)
  {
    if s != [] {
      QuoteRoundTrip(s[1..], named, pos);
      if s[0] == ArgStart {
        EscapedPercent(Quote(s[1..]), named, pos);
      } else {
        LiteralPrefix([s[0]], Quote(s[1..]), named, pos);
      }
      assert [s[0]] + s[1..] == s;
    }
  }

  /** Arguments that the template does not use never cause an error or change the
      output: a table with more entries and a longer positional list give the same result. */
  lemma {:induction false} ExtraArgumentsHarmless(v: Text, named: map<Text, Text>, pos: seq<Text>,
                                                  moreNamed: map<Text, Text>, morePos: seq<Text>)
    requires SubTable(named, moreNamed)
    requires Format(v, named, pos).Ok?
    ensures Format(v, moreNamed, pos + morePos) == Format(v, named, pos)
    decreases |v|, 3
  {
    if v != [] && ArgStart in v {
      var asp := Find(v, ArgStart).value;
      EscapeExtraArguments(v[asp..], named, pos, moreNamed, morePos);
    }
  }

  lemma {:induction false} EscapeExtraArguments(w: Text, named: map<Text, Text>, pos: seq<Text>,
                                                moreNamed: map<Text, Text>, morePos: seq<Text>)
    requires w != [] && w[0] == ArgStart
    requires SubTable(named, moreNamed)
    requires Escape(w, named, pos).Ok?
    ensures Escape(w, moreNamed, pos + morePos) == Escape(w, named, pos)
    decreases |w|, 2
  {
    if w[1] == ArgStart {
      ExtraArgumentsHarmless(w[2..], named, pos, moreNamed, morePos);
    } else if w[1] == NargStart {
      assert NamedEscape(w, named, pos).Ok?;
      var nas := Find(w, NargStop).value;
      NamedOutExtend(named, moreNamed, w[2..nas]);
      ExtraArgumentsHarmless(w[nas + 1..], named, pos, moreNamed, morePos);
    } else {
      assert PositionalEscape(w, named, pos).Ok?;
      var idx := DigitRunEnd(w, 1);
      PosOutExtend(pos, morePos, DecimalValue(w[1..idx]));
      ExtraArgumentsHarmless(AfterIndex(w, idx), named, pos, moreNamed, morePos);
    }
  }
}
