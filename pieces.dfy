/** The template language as a sequence of pieces: literal spans, "%%", named and
    positional placeholders. Parsing a template into pieces needs no arguments; the
    scanner's output is the pieces' texts in order, the first failed lookup or the
    syntax error that ends the pieces being what it raises. */
module FormatPieces {
  import opened Digits
  import opened FormatArgs
  import opened FormatSpec

  datatype Piece =
    | Lit(text: Text)    // literal span, written verbatim
    | Pct                // "%%", writes one '%'
    | Named(key: Text)   // "%{key}"
    | Pos(index: nat)    // "%<digits>", optionally closed by one apostrophe

  /** The pieces a template decomposes into, and the syntax error met after them, if any. */
  datatype Scan = Scan(pieces: seq<Piece>, fault: Option<FormatError>)

  /** What the scanner can produce: literal spans hold no '%', keys are non-empty and hold no '}'. */
  predicate WellFormedPiece(p: Piece) {
    match p
    case Lit(t) => t != [] && ArgStart !in t
    case Pct => true
    case Named(k) => k != [] && NargStop !in k
    case Pos(_) => true
  }

  predicate WellFormedPieces(ps: seq<Piece>) {
    forall i :: 0 <= i < |ps| ==> WellFormedPiece(ps[i])
  }

  function LitPieces(t: Text): seq<Piece> {
    if t == [] then [] else [Lit(t)]
  }

  function Cons(ps: seq<Piece>, s: Scan): Scan {
    Scan(ps + s.pieces, s.fault)
  }

  /** Splits template `v` into pieces following the scanner's own steps. */
  function Parse(v: Text): (s: Scan)
    ensures WellFormedPieces(s.pieces)
    ensures s.fault.Some? ==> s.fault.value.IsSyntaxError()
    decreases |v|, 3
  {
    if v == [] then Scan([], None)
    else
      match Find(v, ArgStart)
      case None => Scan([Lit(v)], None)
      case Some(asp) => Cons(LitPieces(v[..asp]), ParseEscape(v[asp..]))
  }

  function ParseEscape(w: Text): (s: Scan)
    requires w != [] && w[0] == ArgStart
    ensures WellFormedPieces(s.pieces)
    ensures s.fault.Some? ==> s.fault.value.IsSyntaxError()
    decreases |w|, 2
  {
    if |w| == 1 then Scan([], Some(UnexpectedEnd))
    else if w[1] == ArgStart then Cons([Pct], Parse(w[2..]))
    else if w[1] == NargStart then ParseNamed(w)
    else if !IsDigit(w[1]) then Scan([], Some(InvalidEscape))
    else ParsePositional(w)
  }

  function ParseNamed(w: Text): (s: Scan)
    requires |w| >= 2 && w[0] == ArgStart && w[1] == NargStart
    ensures WellFormedPieces(s.pieces)
    ensures s.fault.Some? ==> s.fault.value.IsSyntaxError()
    decreases |w|, 1
  {
    match Find(w, NargStop)
    case None => Scan([], Some(UnterminatedNamedArg))
    case Some(nas) =>
      var key := w[2..nas];
      if key == [] then Scan([], Some(EmptyNamedKey))
      else
        assert key == w[..nas][2..];
        Cons([Named(key)], Parse(w[nas + 1..]))
  }

  function ParsePositional(w: Text): (s: Scan)
    requires |w| >= 2 && IsDigit(w[1])
    ensures WellFormedPieces(s.pieces)
    ensures s.fault.Some? ==> s.fault.value.IsSyntaxError()
    decreases |w|, 1
  {
    var idx := DigitRunEnd(w, 1);
    Cons([Pos(DecimalValue(w[1..idx]))], Parse(AfterIndex(w, idx)))
  }

  /** What one piece writes: a literal its text, "%%" one '%', a placeholder its argument. */
  function RenderPiece(p: Piece, named: map<Text, Text>, pos: seq<Text>): Result<Text> {
    match p
    case Lit(t) => Ok(t)
    case Pct => Ok([ArgStart])
    case Named(k) => NamedOut(named, k)
    case Pos(i) => PosOut(pos, i)
  }

  /** The pieces written in order; the first piece whose lookup fails decides the error. */
  function Render(ps: seq<Piece>, named: map<Text, Text>, pos: seq<Text>): Result<Text> {
    if ps == [] then Ok([]) else Chain(RenderPiece(ps[0], named, pos), Render(ps[1..], named, pos))
  }

  /** Running a scan: its pieces' output, unless a lookup fails first or a syntax error follows. */
  function Run(s: Scan, named: map<Text, Text>, pos: seq<Text>): Result<Text> {
    match Render(s.pieces, named, pos)
    case Err(e) => Err(e)
    case Ok(t) => if s.fault.Some? then Err(s.fault.value) else Ok(t)
  }

  lemma {:induction false} RenderAppend(a: seq<Piece>, b: seq<Piece>, named: map<Text, Text>, pos: seq<Text>)
    ensures Render(a + b, named, pos) == Chain(Render(a, named, pos), Render(b, named, pos))
  {
    if a == [] {
      assert a + b == b;
      PrependNothing(Render(b, named, pos));
    } else {
      assert (a + b)[1..] == a[1..] + b;
      RenderAppend(a[1..], b, named, pos);
      ChainAssociative(RenderPiece(a[0], named, pos), Render(a[1..], named, pos), Render(b, named, pos));
    }
  }

  lemma RunCons(ps: seq<Piece>, s: Scan, named: map<Text, Text>, pos: seq<Text>)
    ensures Run(Cons(ps, s), named, pos) == Chain(Render(ps, named, pos), Run(s, named, pos))
  {
    RenderAppend(ps, s.pieces, named, pos);
  }

  lemma RenderOne(p: Piece, named: map<Text, Text>, pos: seq<Text>)
    ensures Render([p], named, pos) == RenderPiece(p, named, pos)
  {
    var r := RenderPiece(p, named, pos);
    if r.Ok? {
      assert r.value + [] == r.value;
    }
  }

  /** The scanner's result is the result of running its decomposition into pieces. */
  lemma {:induction false} FormatIsRunOfParse(v: Text, named: map<Text, Text>, pos: seq<Text>)
    ensures Format(v, named, pos) == Run(Parse(v), named, pos)
    decreases |v|, 3
  {
    if v != [] && ArgStart in v {
      var asp := Find(v, ArgStart).value;
      var lit := v[..asp];
      EscapeIsRunOfParse(v[asp..], named, pos);
      RunCons(LitPieces(lit), ParseEscape(v[asp..]), named, pos);
      if lit == [] {
        PrependNothing(Escape(v[asp..], named, pos));
      } else {
        RenderOne(Lit(lit), named, pos);
      }
    } else if v != [] {
      RenderOne(Lit(v), named, pos);
    }
  }

  lemma {:induction false} EscapeIsRunOfParse(w: Text, named: map<Text, Text>, pos: seq<Text>)
    requires w != [] && w[0] == ArgStart
    ensures Escape(w, named, pos) == Run(ParseEscape(w), named, pos)
    decreases |w|, 2
  {
    if |w| == 1 {
    } else if w[1] == ArgStart {
      FormatIsRunOfParse(w[2..], named, pos);
      RunCons([Pct], Parse(w[2..]), named, pos);
      RenderOne(Pct, named, pos);
    } else if w[1] == NargStart {
      NamedIsRunOfParse(w, named, pos);
    } else if IsDigit(w[1]) {
      PositionalIsRunOfParse(w, named, pos);
    }
  }

  lemma {:induction false} NamedIsRunOfParse(w: Text, named: map<Text, Text>, pos: seq<Text>)
    requires |w| >= 2 && w[0] == ArgStart && w[1] == NargStart
    ensures NamedEscape(w, named, pos) == Run(ParseNamed(w), named, pos)
    decreases |w|, 1
  {
    match Find(w, NargStop)
    case None =>
      assert ParseNamed(w) == Scan([], Some(UnterminatedNamedArg));
    case Some(nas) =>
      var key := w[2..nas];
      if key == [] {
        assert ParseNamed(w) == Scan([], Some(EmptyNamedKey));
      } else {
        var rest := w[nas + 1..];
        assert NamedEscape(w, named, pos) == Chain(NamedOut(named, key), Format(rest, named, pos));
        assert ParseNamed(w) == Cons([Named(key)], Parse(rest));
        FormatIsRunOfParse(rest, named, pos);
        RunCons([Named(key)], Parse(rest), named, pos);
        RenderOne(Named(key), named, pos);
      }
  }

  lemma {:induction false} PositionalIsRunOfParse(w: Text, named: map<Text, Text>, pos: seq<Text>)
    requires |w| >= 2 && IsDigit(w[1])
    ensures PositionalEscape(w, named, pos) == Run(ParsePositional(w), named, pos)
    decreases |w|, 1
  {
    var idx := DigitRunEnd(w, 1);
    var p := Pos(DecimalValue(w[1..idx]));
    FormatIsRunOfParse(AfterIndex(w, idx), named, pos);
    RunCons([p], Parse(AfterIndex(w, idx)), named, pos);
    RenderOne(p, named, pos);
  }

  /** Every placeholder among `ps` finds its argument: the key is in the table, the
      index is below the number of positional arguments. */
  predicate Resolves(ps: seq<Piece>, named: map<Text, Text>, pos: seq<Text>) {
    forall i :: 0 <= i < |ps| ==>
      (ps[i].Named? ==> ps[i].key in named) && (ps[i].Pos? ==> ps[i].index < |pos|)
  }

  lemma {:induction false} RenderSucceedsIff(ps: seq<Piece>, named: map<Text, Text>, pos: seq<Text>)
    ensures Render(ps, named, pos).Ok? <==> Resolves(ps, named, pos)
  {
    if ps != [] {
      RenderSucceedsIff(ps[1..], named, pos);
      if Resolves(ps, named, pos) {
        assert Resolves(ps[1..], named, pos) by {
          forall i | 0 <= i < |ps[1..]|
            ensures (ps[1..][i].Named? ==> ps[1..][i].key in named) && (ps[1..][i].Pos? ==> ps[1..][i].index < |pos|)
          {
            assert ps[1..][i] == ps[i + 1];
          }
        }
        assert (ps[0].Named? ==> ps[0].key in named) && (ps[0].Pos? ==> ps[0].index < |pos|);
      }
    }
  }

  /** The scanner succeeds exactly when the template has no syntax error and every
      placeholder in it finds its argument. */
  lemma FormatSucceedsIff(v: Text, named: map<Text, Text>, pos: seq<Text>)
    ensures Format(v, named, pos).Ok? <==> Parse(v).fault.None? && Resolves(Parse(v).pieces, named, pos)
  {
    FormatIsRunOfParse(v, named, pos);
    RenderSucceedsIff(Parse(v).pieces, named, pos);
  }

  /** A syntax error fails the scanner whatever the arguments are; it is the error
      raised whenever every placeholder before it finds its argument. */
  lemma SyntaxErrorIndependentOfArguments(v: Text, named: map<Text, Text>, pos: seq<Text>)
    requires Parse(v).fault.Some?
    ensures Format(v, named, pos).Err?
    ensures Resolves(Parse(v).pieces, named, pos) ==> Format(v, named, pos) == Err(Parse(v).fault.value)
  {
    FormatIsRunOfParse(v, named, pos);
    RenderSucceedsIff(Parse(v).pieces, named, pos);
  }

  /** mira::fmt(input) without arguments: the scanner with an empty table and list. */
  function Fmt(template: Text): Result<Text> {
    Format(template, map[], [])
  }

  /** Without arguments a template succeeds exactly when it is well formed and made of
      literal text and "%%" only. */
  lemma FmtSucceedsIff(template: Text)
    ensures Fmt(template).Ok? <==>
      Parse(template).fault.None? &&
      forall i :: 0 <= i < |Parse(template).pieces| ==>
        Parse(template).pieces[i].Lit? || Parse(template).pieces[i].Pct?
  {
    FormatSucceedsIff(template, map[], []);
  }

  /** The template text of a piece. A positional index is always closed by an apostrophe,
      so a literal span that follows it may start with a digit. */
  function PieceText(p: Piece): (t: Text)
    ensures p.Lit? || (t != [] && t[0] == ArgStart)
  {
    match p
    case Lit(t) => t
    case Pct => [ArgStart, ArgStart]
    case Named(k) => [ArgStart, NargStart] + k + [NargStop]
    case Pos(i) => [ArgStart] + Decimal(i) + [PargBrake]
  }

  function Serialize(ps: seq<Piece>): (t: Text)
    ensures ps != [] && !ps[0].Lit? ==> t != [] && t[0] == ArgStart
  {
    if ps == [] then [] else PieceText(ps[0]) + Serialize(ps[1..])
  }

  /** Pieces that a template can be written from and read back into: each well formed,
      and no two literal spans next to each other (the scanner reads them as one). */
  predicate Canonical(ps: seq<Piece>) {
    WellFormedPieces(ps) &&
    forall i :: 0 < i < |ps| ==> !(ps[i - 1].Lit? && ps[i].Lit?)
  }

  lemma ParseAtEscape(w: Text)
    requires w != [] && w[0] == ArgStart
    ensures Parse(w) == ParseEscape(w)
  {
    FindFirst(w, ArgStart, 0);
    assert w[0..] == w;
    assert w[..0] == [];
    assert [] + ParseEscape(w).pieces == ParseEscape(w).pieces;
  }

  lemma ParseLiteral(t: Text, rest: Text)
    requires t != [] && ArgStart !in t
    requires rest == [] || rest[0] == ArgStart
    ensures Parse(t + rest) == Cons([Lit(t)], Parse(rest))
  {
    var v := t + rest;
    if rest == [] {
      assert v == t;
    } else {
      assert v[..|t|] == t;
      FindFirst(v, ArgStart, |t|);
      assert v[|t|..] == rest;
      ParseAtEscape(rest);
    }
  }

  lemma ParsePlaceholder(p: Piece, rest: Text)
    requires !p.Lit? && WellFormedPiece(p)
    ensures Parse(PieceText(p) + rest) == Cons([p], Parse(rest))
  {
    var v := PieceText(p) + rest;
    ParseAtEscape(v);
    match p
    case Pct =>
      assert v[2..] == rest;
    case Named(k) =>
      ParseNamedKey(k, rest);
    case Pos(i) =>
      ParseIndex(i, rest);
  }

  lemma ParseNamedKey(k: Text, rest: Text)
    requires k != [] && NargStop !in k
    ensures ParseNamed(PieceText(Named(k)) + rest) == Cons([Named(k)], Parse(rest))
  {
    var v := PieceText(Named(k)) + rest;
    var nas := |k| + 2;
    assert v[..nas] == [ArgStart, NargStart] + k;
    FindFirst(v, NargStop, nas);
    assert v[2..nas] == k;
    assert v[nas + 1..] == rest;
  }

  lemma ParseIndex(i: nat, rest: Text)
    ensures ParsePositional(PieceText(Pos(i)) + rest) == Cons([Pos(i)], Parse(rest))
  {
    var v := PieceText(Pos(i)) + rest;
    var ds := Decimal(i);
    var idx := |ds| + 1;
    assert v[1] == ds[0];
    assert v[1..idx] == ds;
    assert v[idx] == PargBrake;
    DigitRunEndUnique(v, 1, idx);
    DecimalRoundTrip(i);
    assert v[idx + 1..] == rest;
  }

  /** Reading back a template written from canonical pieces gives those pieces and no error. */
  lemma {:induction false} ParseSerialize(ps: seq<Piece>)
    requires Canonical(ps)
    ensures Parse(Serialize(ps)) == Scan(ps, None)
  {
    if ps != [] {
      var tail := ps[1..];
      assert Canonical(tail) by {
        forall i | 0 <= i < |tail| ensures WellFormedPiece(tail[i]) {
          assert tail[i] == ps[i + 1];
        }
        forall i | 0 < i < |tail| ensures !(tail[i - 1].Lit? && tail[i].Lit?) {
          assert tail[i - 1] == ps[i] && tail[i] == ps[i + 1];
        }
      }
      ParseSerialize(tail);
      assert WellFormedPiece(ps[0]);
      if ps[0].Lit? {
        assert tail != [] ==> !tail[0].Lit? by {
          if tail != [] { assert tail[0] == ps[1]; }
        }
        ParseLiteral(ps[0].text, Serialize(tail));
      } else {
        ParsePlaceholder(ps[0], Serialize(tail));
      }
      assert [ps[0]] + tail == ps;
    }
  }

  /** Formatting a template written from canonical pieces writes the pieces' texts in
      order, or fails with the first placeholder whose argument is missing. */
  lemma FormatSerialize(ps: seq<Piece>, named: map<Text, Text>, pos: seq<Text>)
    requires Canonical(ps)
    ensures Format(Serialize(ps), named, pos) == Render(ps, named, pos)
  {
    FormatIsRunOfParse(Serialize(ps), named, pos);
    ParseSerialize(ps);
  }
}
