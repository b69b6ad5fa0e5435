/** The argument containers of the formatter: the positional argument list
    (PosArgs) and the named argument table (NamedArgsMap), each argument reduced to
    the text its stream insertion produces, and the error kinds the engine raises. */
module FormatArgs {

  type Text = seq<char>

  datatype Option<T> = None | Some(value: T)

  /** The exceptions thrown by the formatter, as values carrying their context. */
  datatype FormatError =
    | UnexpectedEnd                        // '%' is the last character
    | UnterminatedNamedArg                 // "%{" without a later '}'
    | EmptyNamedKey                        // "%{}"
    | InvalidEscape                        // '%' followed by anything but '%', '{' or a digit
    | IndexOutOfRange(idx: nat, size: nat) // positional index not below the argument count
    | UnknownKey(key: Text)                // named key absent from the table
  {
    /** Errors that depend on the template alone, not on the arguments. */
    predicate IsSyntaxError() {
      UnexpectedEnd? || UnterminatedNamedArg? || EmptyNamedKey? || InvalidEscape?
    }
  }

  datatype Result<T> = Ok(value: T) | Err(error: FormatError)

  /** Text `prefix` already written to the stream, followed by what `r` writes;
      an error discards the success value and is passed on unchanged. */
  function Prepend(prefix: Text, r: Result<Text>): (q: Result<Text>)
    ensures q.Ok? <==> r.Ok?
    ensures q.Ok? ==> q.value == prefix + r.value
    ensures q.Err? ==> q.error == r.error
  {
    match r
    case Ok(s) => Ok(prefix + s)
    case Err(e) => Err(e)
  }

  lemma PrependNothing(r: Result<Text>)
    ensures Prepend([], r) == r
  {
    if r.Ok? {
      assert [] + r.value == r.value;
    }
  }

  lemma PrependPrepend(a: Text, b: Text, r: Result<Text>)
    ensures Prepend(a, Prepend(b, r)) == Prepend(a + b, r)
  {
    if r.Ok? {
      assert a + (b + r.value) == (a + b) + r.value;
    }
  }

  /** `first` written, then `second`: the first error of the two, or both texts in order. */
  function Chain(first: Result<Text>, second: Result<Text>): (r: Result<Text>)
    ensures r.Ok? <==> first.Ok? && second.Ok?
    ensures r.Ok? ==> r.value == first.value + second.value
    ensures r.Err? ==> r.error == if first.Err? then first.error else second.error
  {
    match first
    case Err(e) => Err(e)
    case Ok(t) => Prepend(t, second)
  }

  lemma ChainAssociative(a: Result<Text>, b: Result<Text>, c: Result<Text>)
    ensures Chain(Chain(a, b), c) == Chain(a, Chain(b, c))
  {
    if a.Ok? && b.Ok? {
      PrependPrepend(a.value, b.value, c);
    }
  }

  /** PosArgs::doOut: the text of the argument at `idx`, counted from 0 in call order;
      an index not below the number of arguments fails with the index and the size. */
  function PosOut(args: seq<Text>, idx: nat): (r: Result<Text>)
    ensures r.Ok? <==> idx < |args|
    ensures r.Ok? ==> r.value == args[idx]
    ensures r.Err? ==> r.error == IndexOutOfRange(idx, |args|)
  {
    if idx < |args| then Ok(args[idx]) else Err(IndexOutOfRange(idx, |args|))
  }

  /** The specialisation for an empty argument pack fails for every index, reporting size 0. */
  lemma PosOutEmpty(idx: nat)
    ensures PosOut([], idx) == Err(IndexOutOfRange(idx, 0))
  {
  }

  /** Arguments keep their call order: the argument after `before` has index |before|. */
  lemma PosOutCallOrder(before: seq<Text>, arg: Text, after: seq<Text>)
    ensures PosOut(before + [arg] + after, |before|) == Ok(arg)
  {
  }

  /** Supplying more arguments at the end never changes a lookup that already succeeded. */
  lemma PosOutExtend(args: seq<Text>, more: seq<Text>, idx: nat)
    requires PosOut(args, idx).Ok?
    ensures PosOut(args + more, idx) == PosOut(args, idx)
  {
  }

  /** NamedArgsMap::doOut: the text bound to `key`; a missing key fails with that key. */
  function NamedOut(table: map<Text, Text>, key: Text): (r: Result<Text>)
    ensures r.Ok? <==> key in table
    ensures r.Ok? ==> r.value == table[key]
    ensures r.Err? ==> r.error == UnknownKey(key)
  {
    if key in table then Ok(table[key]) else Err(UnknownKey(key))
  }

  /** `small` is contained in `large`: every key of `small` is bound to the same text in `large`. */
  predicate SubTable(small: map<Text, Text>, large: map<Text, Text>) {
    forall k :: k in small ==> k in large && large[k] == small[k]
  }

  /** A table with more entries answers every key the smaller one answers, the same way. */
  lemma NamedOutExtend(small: map<Text, Text>, large: map<Text, Text>, key: Text)
    requires SubTable(small, large)
    requires NamedOut(small, key).Ok?
    ensures NamedOut(large, key) == NamedOut(small, key)
  {
  }
}
