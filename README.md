# mira::format template engine in Dafny

This project models the template substitution engine of `mira::format`. A template
is scanned left to right:

- literal text is copied to the output;
- `%%` writes one `%`;
- `%{key}` writes the named argument bound to `key`;
- `%<digits>` writes the positional argument with that index. A single `'` right
  after the digits ends the index and is swallowed.

Malformed templates raise an error. So does an index beyond the argument list, or
a key missing from the named table.

Each argument is modelled as the text its stream insertion produces:

- the positional argument list (`PosArgs`) is a `seq<Text>`;
- the named argument table (`NamedArgsMap`) is a `map<Text, Text>`.

The exceptions are values of `FormatError`:

| error | raised when | carries |
|---|---|---|
| `UnexpectedEnd` | the template ends on a `%` | nothing |
| `UnterminatedNamedArg` | `%{` has no later `}` | nothing |
| `EmptyNamedKey` | the template holds `%{}` | nothing |
| `InvalidEscape` | `%` is followed by a bad character | nothing |
| `IndexOutOfRange` | a positional index is too large | the index and the argument count |
| `UnknownKey` | a key is not in the named table | the key |

Modules:

- `Digits`: the scanner's ASCII digit class, the value of a digit run, the end of
  the maximal run, and the canonical decimal text of a number.
- `FormatArgs`: errors, results, and the two lookups `PosOut` (`PosArgs::doOut`)
  and `NamedOut` (`NamedArgsMap::doOut`).
- `FormatSpec`: `Format`, the scanner as a recursive function over the remaining
  view of the template, with one lemma per kind of escape.
- `FormatScanner`: `DoFormat`, the scanner's `while` loop with its inner digit
  loop as imperative methods, proved equal to `Format`.
- `FormatPieces`: the same scan, with the argument lookups deferred to a separate
  render pass.
  - `Parse` follows the scanner's own case split. It turns a template into pieces
    (literal, `%%`, named, positional) plus a trailing syntax error, if any.
  - `Render` writes the pieces in order, looking each argument up.
  - The scanner is proved to compute exactly `Render` after `Parse`.
  - `Serialize` writes pieces back as template text, independently of the scanner.
    Parsing that text gives the same pieces back.
- `IndexWidth`: the positional index as accumulated in a 64-bit `std::size_t`.
  See Findings.
- `FormatScenarios`: the behaviour that the library's tests cited in the table
  below expect, for the test's own template, table and arguments. Each is derived
  from the general lemmas.

## Model

| member | source | states |
|---|---|---|
| `FormatScanner.DoFormat` | libs/format/include/mira/format/format.hpp:248-316 | The scanning loop returns exactly what the recursive scanner `Format` gives: the whole output, or the first error raised. The loop terminates because the view shrinks on every pass. |
| `FormatScanner.EscapeStep` | libs/format/include/mira/format/format.hpp:269-314 | One pass of the loop body from the `%` on. It returns a strictly shorter view to resume with. Either it returns the escape's error, or its written text followed by the output of the rest is the escape's result. |
| `FormatScanner.ReadIndex` | libs/format/include/mira/format/format.hpp:299-306 | The digit loop stops at the end of the maximal digit run after `%`. It returns the decimal value of that run, over unbounded naturals. |
| `FormatSpec.Format` | libs/format/include/mira/format/format.hpp:261-315 | The specification of the scanner: the output, or the first error raised. It has no contract of its own. Its meaning is stated by `DoFormat`, `FormatIsRunOfParse`, `FormatSerialize`, `FormatSucceedsIff`, `QuoteRoundTrip`, `ExtraArgumentsHarmless` and the step lemmas below. |
| `FormatSpec.Escape` | libs/format/include/mira/format/format.hpp:269-314 | One pass of the loop body from the `%` on, dispatched on the character after it. `EscapeStep`, `EscapeIsRunOfParse` and the step lemmas below state each branch. |
| `FormatSpec.NamedEscape` | libs/format/include/mira/format/format.hpp:281-292 | The `%{key}` branch. Its meaning is stated by `NamedPlaceholder`, `UnterminatedNamed`, `EmptyKey` and `NamedIsRunOfParse`. |
| `FormatSpec.PositionalEscape` | libs/format/include/mira/format/format.hpp:299-314 | The `%<digits>` branch. Its meaning is stated by `PositionalPlaceholder` and `PositionalIsRunOfParse`. |
| `FormatSpec.Find` | libs/format/include/mira/format/format.hpp:262 | `find` reports no position exactly when the character is absent. Otherwise it reports the first position holding the character. |
| `FormatSpec.FindFirst` | libs/format/include/mira/format/format.hpp:262 | `find` reports the first occurrence of the character and no other position. |
| `FormatSpec.AfterIndex` | libs/format/include/mira/format/format.hpp:310-314 | Scanning resumes after the digit run, minus at most one apostrophe. The remaining view is never longer than the text after the digits. |
| `FormatSpec.NoPlaceholderUnchanged` | libs/format/include/mira/format/format.hpp:261-267 | A template without `%` is written unchanged, whatever arguments are supplied. |
| `FormatSpec.FormatAtEscape` | libs/format/include/mira/format/format.hpp:261-269 | A view starting with `%` writes no literal text before handling the escape. |
| `FormatSpec.FormatSplit` | libs/format/include/mira/format/format.hpp:261-269 | Literal text before the first `%` is written, then the escape is handled. |
| `FormatSpec.LiteralPrefix` | libs/format/include/mira/format/format.hpp:261-267 | Text without `%` at the front of any template is copied in front of what the rest of the template produces. |
| `FormatSpec.LiteralBeforeEscape` | libs/format/include/mira/format/format.hpp:261-269 | Two literal spans in front of an escape are written in order, then the escape is handled. |
| `FormatSpec.EscapedPercent` | libs/format/include/mira/format/format.hpp:275-279 | `%%` writes exactly one `%`, then scanning resumes two characters later. Nothing else in the output changes. |
| `FormatSpec.PercentAtEnd` | libs/format/include/mira/format/format.hpp:271-273 | A `%` as the last character raises `UnexpectedEnd`. |
| `FormatSpec.BadEscape` | libs/format/include/mira/format/format.hpp:295-297 | A `%` followed by anything but `%`, `{` or an ASCII digit raises `InvalidEscape`. |
| `FormatSpec.UnterminatedNamed` | libs/format/include/mira/format/format.hpp:281-285 | `%{` with no later `}` raises `UnterminatedNamedArg`. |
| `FormatSpec.EmptyKey` | libs/format/include/mira/format/format.hpp:286-289 | `%{}` raises `EmptyNamedKey`. |
| `FormatSpec.NamedPlaceholder` | libs/format/include/mira/format/format.hpp:281-292 | The key is the text between `{` and the first `}`. A present key writes its text, then scanning resumes just past the `}`. An absent key raises `UnknownKey(key)`. |
| `FormatSpec.PositionalPlaceholder` | libs/format/include/mira/format/format.hpp:299-314 | The index is the decimal value of the maximal digit run, and one following `'` is swallowed. An index below the argument count writes that argument before the rest. Otherwise it raises `IndexOutOfRange(index, count)`. |
| `FormatSpec.QuoteRoundTrip` | libs/format/include/mira/format/format.hpp:261-279 | Formatting a text with each `%` doubled gives the text back. |
| `FormatSpec.ExtraArgumentsHarmless` | libs/format/include/mira/format/format.hpp:248-316 | A template that succeeds still succeeds, with the same output, when more named entries or more trailing positional arguments are supplied. |
| `FormatSpec.EscapeExtraArguments` | libs/format/include/mira/format/format.hpp:269-314 | The same property as `ExtraArgumentsHarmless`, for a single escape. |
| `FormatArgs.Prepend` | libs/format/include/mira/format/format.hpp:263 | Text already written comes in front of what follows. An error passes through unchanged. |
| `FormatArgs.Chain` | libs/format/include/mira/format/format.hpp:290-291 | An emitted argument followed by the rest of the scan: success exactly when both succeed, with the texts concatenated in order. Otherwise the first error. |
| `FormatArgs.PosOut` | libs/format/include/mira/format/format.hpp:318-326 | Succeeds exactly when `idx < size`, writing exactly `args[idx]`. Otherwise fails with `IndexOutOfRange(idx, size)`. |
| `FormatArgs.PosOutEmpty` | libs/format/include/mira/format/format.hpp:328-332 | The empty argument pack fails for every index, reporting size 0. |
| `FormatArgs.PosOutCallOrder` | libs/format/include/mira/format/format.hpp:318-326 | Arguments are numbered from 0 in call order. |
| `FormatArgs.PosOutExtend` | libs/format/include/mira/format/format.hpp:318-326 | Appending arguments never changes a lookup that succeeded. |
| `FormatArgs.NamedOut` | libs/format/include/mira/format/format.hpp:334-344 | Succeeds exactly when the key is in the table, writing exactly the bound text. Otherwise fails with `UnknownKey(key)`. The table is an immutable value, so the lookup cannot alter it. |
| `FormatArgs.NamedOutExtend` | libs/format/include/mira/format/format.hpp:334-344 | A larger table answers every key the smaller one answers, in the same way. |
| `Digits.IsDigit` | libs/format/include/mira/format/format.hpp:295-302 | `std::isdigit` in the "C" locale: exactly the ASCII characters `'0'` to `'9'`. It is a predicate with no contract, used by `BadEscape`, `ReadIndex` and `DigitRunEnd`. |
| `Digits.DecimalValue` | libs/format/include/mira/format/format.hpp:305 | The value of `parg = parg * 10 + digit` over a digit run. It has no contract of its own. Its meaning is stated by `DecimalValueSnoc`, `DecimalValueBound` and `DecimalRoundTrip`. |
| `Digits.DigitValue` | libs/format/include/mira/format/format.hpp:305 | `v[idx] - '0'` is a single decimal digit. |
| `Digits.DigitChar` | libs/format/include/mira/format/format.hpp:302 | Every digit value has an ASCII digit character that reads back as that value. |
| `Digits.DecimalValueSnoc` | libs/format/include/mira/format/format.hpp:305 | One more digit multiplies the accumulated value by ten and adds the digit. |
| `Digits.DecimalValueBound` | libs/format/include/mira/format/format.hpp:299-306 | A run of n digits denotes a value below 10^n. |
| `Digits.DigitRunEnd` | libs/format/include/mira/format/format.hpp:301-306 | The digit loop stops at a position ending an all-digit span, either at the view's end or on a non-digit. |
| `Digits.DigitRunEndUnique` | libs/format/include/mira/format/format.hpp:301-306 | That stopping position is the only one closing a digit run from the start. |
| `Digits.DecimalRoundTrip` | libs/format/include/mira/format/format.hpp:299-306 | Reading the canonical decimal text of n gives back n. |
| `FormatPieces.Parse` | libs/format/include/mira/format/format.hpp:261-314 | Decomposing a template gives well-formed pieces. Literals hold no `%`, and keys are non-empty and hold no `}`. Any trailing fault is a syntax error. |
| `FormatPieces.FormatIsRunOfParse` | libs/format/include/mira/format/format.hpp:261-315 | On success, the scanner's output is the in-order concatenation of literal spans, single `%`s and argument texts. On failure, its error is the first one met. |
| `FormatPieces.EscapeIsRunOfParse` | libs/format/include/mira/format/format.hpp:269-314 | The same as `FormatIsRunOfParse`, for the escape at the head of the view. |
| `FormatPieces.NamedIsRunOfParse` | libs/format/include/mira/format/format.hpp:281-292 | The same as `FormatIsRunOfParse`, for a named placeholder. |
| `FormatPieces.PositionalIsRunOfParse` | libs/format/include/mira/format/format.hpp:299-314 | The same as `FormatIsRunOfParse`, for a positional placeholder. |
| `FormatPieces.RenderAppend` | libs/format/include/mira/format/format.hpp:261-315 | Rendering concatenated piece lists is rendering each list in turn. |
| `FormatPieces.RenderSucceedsIff` | libs/format/include/mira/format/format.hpp:318-344 | Rendering succeeds exactly when every named key is in the table and every index is below the argument count. |
| `FormatPieces.FormatSucceedsIff` | libs/format/include/mira/format/format.hpp:248-344 | A template succeeds exactly when it has no syntax error and every placeholder finds its argument. |
| `FormatPieces.SyntaxErrorIndependentOfArguments` | libs/format/include/mira/format/format.hpp:271-297 | A malformed template fails whatever the arguments. Once every earlier placeholder resolves, it fails with its syntax error. |
| `FormatPieces.Fmt` | libs/format/include/mira/format/format.hpp:211-217 | `fmt(input)`: the scanner with an empty table and an empty argument list. It has no contract of its own. Its meaning is stated by `FmtSucceedsIff` and `PlainTemplate`. |
| `FormatPieces.FmtSucceedsIff` | libs/format/include/mira/format/format.hpp:211-217 | `fmt(input)` with no arguments succeeds exactly when the template is well formed and holds no placeholders, only literals and `%%`. |
| `FormatPieces.PieceText` | libs/format/include/mira/format/format.hpp:269-314 | Every non-literal piece is written starting with `%`. |
| `FormatPieces.ParsePlaceholder` | libs/format/include/mira/format/format.hpp:275-314 | A placeholder's own text is read back as that placeholder, and scanning resumes right after it. |
| `FormatPieces.ParseLiteral` | libs/format/include/mira/format/format.hpp:261-267 | A literal span is read back as one literal piece. |
| `FormatPieces.ParseSerialize` | libs/format/include/mira/format/format.hpp:261-314 | A template written from canonical pieces parses back to those pieces, with no error. |
| `FormatPieces.FormatSerialize` | libs/format/include/mira/format/format.hpp:248-316 | Formatting a template written from canonical pieces renders the pieces in order. |
| `IndexWidth.WrappedDecimalValue` | libs/format/include/mira/format/format.hpp:299-306 | The index as written, accumulated modulo 2^64, always fits a `size_t`. |
| `IndexWidth.WrappedIsDecimalModulo` | libs/format/include/mira/format/format.hpp:305 | The wrapped index is the run's decimal value reduced modulo 2^64. |
| `IndexWidth.ShortRunsDoNotWrap` | libs/format/include/mira/format/format.hpp:305 | Runs of at most 19 digits never wrap. |
| `IndexWidth.WrapSelectsFirstArgument` | libs/format/include/mira/format/format.hpp:305 | As written, the index 18446744073709551616 wraps to 0 and selects the first argument. |
| `IndexWidth.OverlongIndexRejected` | libs/format/include/mira/format/format.hpp:299-326 | With an unbounded index, the same template with one argument raises `IndexOutOfRange(2^64, 1)`. |
| `FormatScenarios.PositionalLookups` | libs/format/tests/format.tests.cpp:23-34 | Indices 0 to 4 find the five arguments in call order, and index 5 fails with `IndexOutOfRange(5, 5)`. |
| `FormatScenarios.NamedLookups` | libs/format/tests/format.tests.cpp:36-45 | Each of the keys "1" to "5" finds the text bound to it. |
| `FormatScenarios.ApostropheEndsIndex` | libs/format/include/mira/format/format.hpp:308-311 | `%0'5` with "mama" writes "mama5". |
| `FormatScenarios.DigitsRunOn` | libs/format/include/mira/format/format.hpp:301-306 | `%05` names argument 5. |
| `FormatScenarios.LastPositional` | libs/format/tests/format.tests.cpp:73-76 | A one-digit placeholder that ends a template writes its argument. |
| `FormatScenarios.LeadingPositional` | libs/format/tests/format.tests.cpp:73-76 | A one-digit placeholder followed by text writes its argument, then the text's output. |
| `FormatScenarios.MixedArgumentsTail` | libs/format/tests/format.tests.cpp:86-89 | The tail " %{mila} %1" of the mixed template writes " mila ramu". |
| `FormatScenarios.MixedArguments` | libs/format/tests/format.tests.cpp:86-89 | "%0 %{mila} %1" writes "mama mila ramu" and ignores the unused arguments. |
| `FormatScenarios.PositionalArgsTail` | libs/format/tests/format.tests.cpp:73-76 | The tail " %1 %2" of the positional template writes " mila ramu". |
| `FormatScenarios.PositionalArgsOnly` | libs/format/tests/format.tests.cpp:73-76 | "%0 %1 %2" with "mama", "mila", "ramu", 10, 20 writes "mama mila ramu" and ignores the unused arguments. |
| `FormatScenarios.SpacedPercent` | libs/format/tests/format.tests.cpp:99-102 | " %% " writes " % " in front of whatever follows. |
| `FormatScenarios.PositionalThenPercent` | libs/format/tests/format.tests.cpp:99-102 | "%d %% " writes argument d and " % " in front of whatever follows. |
| `FormatScenarios.TestHead` | libs/format/tests/format.tests.cpp:99-122 | The head "%0 %% %1 %% " with "mama" and "mila" writes "mama % mila % " in front of whatever follows. |
| `FormatScenarios.NamedTail` | libs/format/tests/format.tests.cpp:99-102 | "%{ramu}" with the table {ramu: ramu} writes "ramu". |
| `FormatScenarios.DoublePercentSymbol` | libs/format/tests/format.tests.cpp:99-102 | "%0 %% %1 %% %{ramu}" with the table {ramu: ramu} and "mama", "mila" writes "mama % mila % ramu". |
| `FormatScenarios.UnexpectedEndPercentAtEnd` | libs/format/tests/format.tests.cpp:104-107 | "%0 %% %1 %% %{ramu} %" with the same table and arguments fails with `UnexpectedEnd`, after the earlier placeholders are filled in. |
| `FormatScenarios.UnexpectedEndUnclosedCurlBraces` | libs/format/tests/format.tests.cpp:109-112 | "%0 %% %1 %% %{ramu sfds" with the same table and arguments fails with `UnterminatedNamedArg`. |
| `FormatScenarios.UnexpectedSymbolAfterPercent` | libs/format/tests/format.tests.cpp:114-117 | "%0 %% %1 %% %ramu sfds" with the same table and arguments fails with `InvalidEscape`. |
| `FormatScenarios.UnexpectedEmptyKeyForNamedArg` | libs/format/tests/format.tests.cpp:119-122 | "%0 %% %1 %% %{}" with the same table and arguments fails with `EmptyNamedKey`. |
| `FormatScenarios.PlainTemplate` | libs/format/tests/format.tests.cpp:47-50 | `fmt("string")` writes "string". |

## Left out

- `Arg` type erasure and rendering (format.hpp:14-32). The function pointer,
  `void const*` box and `operator<<` call are foreign stream code. Each argument is
  the text it renders to.
- `TraitsTypeSelector`, `IsStream` and the `EnableIf*` aliases (format.hpp:101-174).
  This is compile-time type dispatch with no run-time behaviour.
- The `mira::fmt` overloads (format.hpp:178-244). They are thin wrappers around the
  scanner. Only the argument-less string form is modelled, as `FormatPieces.Fmt`.
  The others call `Format` with the table and list they are given.
- `std::locale("C")` and `std::isdigit` (format.hpp:259, 295, 302) are modelled as
  the ASCII test `'0' <= c <= '9'`.
- Exception message text built with recursive `fmt` calls (format.hpp:322, 331,
  340). Errors are structured values carrying the index and size, or the key.
- Exception types. The model distinguishes the syntax errors (`std::invalid_argument`)
  from the lookup errors (`std::out_of_range`) through `FormatError.IsSyntaxError`.
- Output written to the stream before an exception is raised. A failed `Format`
  carries only the error, not the partial text.
- Duplicate keys in the named argument initializer list (format.hpp:65-67). The
  table is a map, so each key is bound once.
- Character types other than `char`. Text is `seq<char>`.
- Streams as mutable objects. The stream is modelled as the text written to it,
  the `out` sequence of `DoFormat`.
- build.py: build scripting, with no formatting logic.
- The tests at format.tests.cpp:52-71, 78-84 and 91-97 are not restated as lemmas.
  They use the same escapes as the restated tests, with other arguments, or pass
  the template as a `std::string`, which the model does not distinguish from a
  literal.
- FormatScanner.ReadIndex: accumulates the index over unbounded naturals rather than
  a 64-bit `size_t`. The wrap-around the source performs is modelled separately in
  `IndexWidth` (see Findings).

## Findings

| source | as written | input that shows it | evidently intended | confidence | as-written member | corrected member |
|---|---|---|---|---|---|---|
| libs/format/include/mira/format/format.hpp:305 | `parg = parg * 10 + (v[idx] - '0')` accumulates in `size_t`, which wraps modulo 2^64 | template "%18446744073709551616" with one argument: the index wraps to 0 and the first argument is written | an index of 2^64 or more is out of range and raises `std::out_of_range` | medium, not executed | `IndexWidth.WrapSelectsFirstArgument` | `IndexWidth.OverlongIndexRejected` |
