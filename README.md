# HloLexer — a verified model of the HLO text-format lexer

This project models `HloLexer`, the tokenizer of XLA's HLO text format in
`src/xlaz/hlo_lexer.py` (a Python port of XLA's C++ lexer). The lexer reads
one fixed character buffer. Each `Lex()` call yields the next token kind and
sets one payload field of the token state (`str_val`, `int64_val` or
`primitive_type_val`). The lexer also answers line and column queries
through a one-entry line-number cache, and it can look one token ahead.

The project has these modules:

- `Wrappers` and `Chars`: `Option`, the ASCII character classes, and `Span`
  (the length of the longest run of a class).
- `BufferPointers`: `BufferPointer`, an offset plus an optional slice end
  into the single buffer. It has `add`, `sub`, `to`, `value`, `begin`,
  `end`, `deref` and `StringPieceFromPointers`, each stated by the text the
  resulting pointer designates. The lexer keeps its pointers as offsets;
  `AtPieces` shows that a piece between two such pointers is the plain
  slice, and the lexer takes its identifier and string text through
  `StringPiece`.
- `Patterns`: hand-written recognisers for the regular expressions
  `float_pattern`, `dim_labels_pattern`, `dxd_pattern`, `pad_pattern`,
  `int_pattern`, `-inf`, `-nan`, `name_pattern` and `escaping_pattern`.
  - Each recogniser is proved against an independent, declarative
    description of its pattern's language.
  - What it matches is in the language, and no longer prefix is.
  - For these patterns, that longest prefix is what Python's `re.match`
    (anchored, greedy, alternatives tried left to right) returns.
- `Tokens`: the token kinds, the ten keywords with their spellings, the
  primitive-type values and the token state.
- `LexerSpec`: the pure specification of one `LexToken` call.
  - `Dispatch` is one turn of the loop.
  - `Scan` runs turns until one yields a token.
  - Each sub-lexer (`NumberOrPattern`, `Identifier`, `Percent`,
    `StringToken`) and the two comment scans is its own function.
- `Lexer`: the class `HloLexer`.
  - Its state is the cursor `cur` (`current_ptr_`), the token state and the
    line-number cache.
  - It has the source's methods, each with its loop.
  - Each method is proved to produce exactly the outcome, cursor and token
    state that `LexerSpec` and `Location` describe.
- `Location`: line counting, `GetLineAndColumn`'s result, the cache
  invariant, and `GetLine`.
- `LexerProperties`: what the lexer promises, stated about `Scan` and the
  sub-lexers:
  - end of input and `'\0'`;
  - whitespace and comments;
  - fixed tokens;
  - the numeric priority order;
  - identifier classification;
  - `%` names and strings.

Three inputs make the Python code raise an exception:

- the identifier `nan`;
- the number `-nan`;
- an identifier run that reaches the end of the buffer or a `'\0'`.

The first two are modelled as the outcome `Raised(NanHelperUndefined)`
rather than excluded by a precondition, so every input has a defined result.
The third is a defect of the source (see Findings). Only
`LexerSpec.IdentifierAsWritten` reproduces it, as the outcome
`Raised(SentinelHasNoIsAlpha)`. `Scan`, `Dispatch` and the class
`HloLexer` use the corrected identifier lexer `LexerSpec.Identifier`, which
ends the run there and classifies it (so `ROOT` at the end of the input is
`kw_ROOT`).

## Model

| member | source | states |
|---|---|---|
| BufferPointers.Slice | src/xlaz/hlo_lexer.py:93 | Python slicing `s[lo:hi]`: the end is clamped to the length, a reversed range is empty, no end means to the end |
| BufferPointers.AddSubInverse | src/xlaz/hlo_lexer.py:81-88 | `add` and `sub` of the same amount undo each other, in either order |
| BufferPointers.AddValue | src/xlaz/hlo_lexer.py:81-83 | `add(n)` designates what `p` designates without its first `n` characters |
| BufferPointers.SubValue | src/xlaz/hlo_lexer.py:84-88 | `sub(n)` on an open-ended pointer designates the `n` characters before `p` followed by what `p` designates |
| BufferPointers.ToValue | src/xlaz/hlo_lexer.py:89-93 | `p.to(q)` designates exactly `buf[p..q]`, whose length is `q - p` |
| BufferPointers.BeginValue | src/xlaz/hlo_lexer.py:95 | `begin()` designates the buffer from its start up to `p`'s slice end |
| BufferPointers.EndValue | src/xlaz/hlo_lexer.py:96 | `end()` designates nothing, for every pointer |
| BufferPointers.AtPieces | src/xlaz/hlo_lexer.py:368 | the pointer `buf_.begin() + a` designates `buf[a..]`, and the piece between the pointers at `a` and `b` is `buf[a..b]`, the slice the lexer's offsets stand for |
| BufferPointers.StringPiece | src/xlaz/hlo_lexer.py:547-548 | `StringPieceFromPointers(a, b)` is exactly `buf[a..b]` for ordered pointers and empty for reversed ones |
| BufferPointers.StringPieceSplit | src/xlaz/hlo_lexer.py:547-548 | the piece between two pointers has their distance as its length, and splits at any pointer between them |
| BufferPointers.WholeBufferBounds | src/xlaz/hlo_lexer.py:146-147 | for the lexer's whole-buffer pointer, `begin()` designates the whole buffer, and `end()` sits at `len(buf)` and designates nothing |
| BufferPointers.Deref | src/xlaz/hlo_lexer.py:97 | `deref()` of a non-empty slice is the buffer character at the pointer's offset |
| Chars.Span | src/xlaz/hlo_lexer.py:356-357 | the run of class characters from `i` stays in the buffer and stops at the end or at a character outside the class |
| Chars.SpanUnique | src/xlaz/hlo_lexer.py:356-357 | a stretch of class characters that ends at the end or at a non-class character is exactly the span |
| Patterns.IntMatch | src/xlaz/hlo_lexer.py:452 | `int_pattern`'s anchored match, a non-empty prefix; it is `SignedDigitsEnd` from 0, so what it matches and that nothing longer matches are stated by `SignedDigitsSound`/`SignedDigitsLongest` and, through `Match`, by `MatchSound`/`MatchIsLongest` |
| Patterns.SignedDigitsSound | src/xlaz/hlo_lexer.py:452 | an `int_pattern` match is an optional `-` followed by one or more digits |
| Patterns.SignedDigitsLongest | src/xlaz/hlo_lexer.py:452 | every such signed-digit prefix is matched, and the match is at least as long |
| Patterns.FloatSound | src/xlaz/hlo_lexer.py:448 | a `float_pattern` match is a float with an exponent, or one with a `.` and no exponent |
| Patterns.FloatLongest | src/xlaz/hlo_lexer.py:448 | every prefix in the float language is matched, by a match at least as long; so plain `5` does not match |
| Patterns.DimLabelsSound | src/xlaz/hlo_lexer.py:449 | a `dim_labels_pattern` match is `[0-9bf]{2,}_[0-9io]{2,}->[0-9bf]{2,}` |
| Patterns.DimLabelsLongest | src/xlaz/hlo_lexer.py:449 | no longer dim-labels prefix exists, and one exists only when there is a match |
| Patterns.DxDSound | src/xlaz/hlo_lexer.py:450 | a `dxd_pattern` match is digit groups joined by at least one `x` |
| Patterns.DxDLongest | src/xlaz/hlo_lexer.py:450 | no longer `dxd` prefix exists, and one exists only when there is a match |
| Patterns.PadSound | src/xlaz/hlo_lexer.py:451 | a `pad_pattern` match is `lo_hi[_interior]` dimensions joined by `x` |
| Patterns.PadLongestFrom | src/xlaz/hlo_lexer.py:451 | no longer `pad` prefix exists, and one exists only when there is a match |
| Patterns.LiteralMatch | src/xlaz/hlo_lexer.py:453-454 | `-inf` and `-nan` match exactly when the text starts with that literal, with its length |
| Patterns.NameSound | src/xlaz/hlo_lexer.py:510 | a `name_pattern` match is `[a-zA-Z_][a-zA-Z0-9_.-]*` |
| Patterns.NameLongest | src/xlaz/hlo_lexer.py:510 | the name match is the maximal run, and one exists only when there is a match |
| Patterns.StringSound | src/xlaz/hlo_lexer.py:518 | an `escaping_pattern` match is a quote, characters other than `"` and `\` or a backslash with any non-newline character, and a closing quote |
| Patterns.StringMatchExact | src/xlaz/hlo_lexer.py:518 | every quoted-literal prefix is exactly the match (the literal ends at its first unescaped quote) |
| Patterns.MatchSound | src/xlaz/hlo_lexer.py:536-542 | for every pattern, `Consume`'s anchored match is a word of the pattern's language |
| Patterns.MatchIsLongest | src/xlaz/hlo_lexer.py:536-542 | for every pattern, the anchored match is the longest prefix in the language; no match means no prefix is in it |
| Tokens.KeywordFromSound | src/xlaz/hlo_lexer.py:410-423 | the keyword the in-order scan finds has the identifier as its spelling |
| Tokens.KeywordFromNone | src/xlaz/hlo_lexer.py:410-423 | when the scan from position `i` finds nothing, no later keyword in the list is spelled like the identifier |
| Tokens.KeywordKindComplete | src/xlaz/hlo_lexer.py:410-423 | the keyword scan succeeds if and only if some keyword is spelled like the identifier, and then it returns that keyword |
| Tokens.KeywordRoundTrip | src/xlaz/hlo_lexer.py:410-423 | looking up a keyword's spelling gives that keyword back |
| Tokens.SpellingInjective | src/xlaz/hlo_lexer.py:39-49 | no two keywords share a spelling |
| LexerSpec.PeekAt | src/xlaz/hlo_lexer.py:152-159 | `PeekCurrentChar` is `kEOF` exactly at the end, `kError` exactly at a `'\0'`, and otherwise the character under the cursor |
| LexerSpec.PunctuationKind | src/xlaz/hlo_lexer.py:244-286 | a character is a punctuation token exactly when it is that token's one-character spelling |
| LexerSpec.FirstMatch | src/xlaz/hlo_lexer.py:455-509 | the first numeric pattern, in priority order from `i`, that matches, with its match length |
| LexerSpec.FirstMatchEarlier | src/xlaz/hlo_lexer.py:455-509 | every pattern before the first match fails to match; with no first match, every pattern fails |
| LexerSpec.NumberOutcomeInjective | src/xlaz/hlo_lexer.py:455-509 | the seven numeric patterns yield seven distinct outcomes, none of them `kError` |
| LexerSpec.NumberFrom | src/xlaz/hlo_lexer.py:455-509 | the numeric sub-lexer starts at the token start and always moves the cursor forward within the buffer |
| LexerSpec.ClassifyWord | src/xlaz/hlo_lexer.py:368-436 | classifying a finished run keeps the cursor at the run's end and never raises the end-of-buffer fault |
| LexerSpec.IdentifierAsWritten | src/xlaz/hlo_lexer.py:355-436 | `LexIdentifier` as written, including the exception at the end of the buffer and at `'\0'`; the cursor moves forward within the buffer |
| LexerSpec.Identifier | src/xlaz/hlo_lexer.py:355-436 | corrected `LexIdentifier`: the cursor moves forward within the buffer and the end-of-buffer fault never occurs |
| LexerSpec.Percent | src/xlaz/hlo_lexer.py:510-517 | `LexPercent` starts at the `%` and moves the cursor forward within the buffer |
| LexerSpec.StringToken | src/xlaz/hlo_lexer.py:518-535 | `LexString` starts at the quote and moves the cursor forward within the buffer |
| LexerSpec.BlockCommentEnd | src/xlaz/hlo_lexer.py:288-324 | a closed block comment ends just past a `*/` within the buffer; a `'\0'` stop is at a `'\0'` |
| LexerSpec.LineCommentEnd | src/xlaz/hlo_lexer.py:325-338 | a line comment is never unterminated: it stops before `\n`, before `\r` or at the end, or at a `'\0'` |
| LexerSpec.Dispatch | src/xlaz/hlo_lexer.py:227-354 | one loop turn either skips strictly forward, or yields a token that starts at the cursor and never moves back; only `kEof` at the end and `kError` at `'\0'` consume nothing |
| LexerSpec.Scan | src/xlaz/hlo_lexer.py:226-354 | `LexToken` terminates, and `cursor-before <= token_start <= cursor <= len(buf)`; a token that consumes nothing is `kEof` at the end or `kError` at a `'\0'`, with no payload |
| Location.CountNewlines | src/xlaz/hlo_lexer.py:192-196 | the number of `\n` is at most the length, and it is zero exactly when there is none |
| Location.CountNewlinesAppend | src/xlaz/hlo_lexer.py:186-196 | newline counts add up over a concatenation, which is what lets the walk resume from the cache |
| Location.RFind | src/xlaz/hlo_lexer.py:200 | `rfind` returns the last occurrence, or -1 when there is none |
| Location.Find | src/xlaz/hlo_lexer.py:210 | `find` returns the first occurrence, or -1 when there is none |
| Location.ColumnMeaning | src/xlaz/hlo_lexer.py:176-203 | the line is 1 + the number of `\n` before `loc`; the column is `loc` on line 1 and the distance from the last `\n` otherwise |
| Location.LineStart | src/xlaz/hlo_lexer.py:208-209 | the line starts just past the last `\n` at or before `loc`, or at 0 |
| Location.LineEnd | src/xlaz/hlo_lexer.py:210-211 | the line ends at the first `\n` at or after `loc`, or at the end of the buffer |
| Location.GetLine | src/xlaz/hlo_lexer.py:204-212 | out of range gives `LINE OUT OF RANGE`; otherwise the result has no `\n`, and it is empty on a `\n` |
| Location.GetLineIsTheLine | src/xlaz/hlo_lexer.py:204-212 | on a character that is not `\n`, `GetLine` is the maximal newline-free stretch of the buffer around `loc` |
| Lexer.HloLexer.constructor | src/xlaz/hlo_lexer.py:145-151 | the cursor is at 0, the token state is the default with `kEof`, and the cache is empty |
| Lexer.HloLexer.PeekCurrentChar | src/xlaz/hlo_lexer.py:152-159 | returns `PeekAt` of the cursor |
| Lexer.HloLexer.GetNextChar | src/xlaz/hlo_lexer.py:160-164 | returns what `PeekCurrentChar` sees, and advances by one exactly when that is a character |
| Lexer.HloLexer.Consume | src/xlaz/hlo_lexer.py:536-542 | on a match, returns the matched text and the position past it; otherwise returns nothing and the position is unchanged |
| Lexer.HloLexer.Lex | src/xlaz/hlo_lexer.py:167-169 | keeps `Valid`, satisfies `cursor-before <= token_start <= cursor <= len(buf)`, yields `Scan`'s outcome, cursor and payload, and records the kind |
| Lexer.HloLexer.LexToken | src/xlaz/hlo_lexer.py:226-354 | the loop yields exactly `Scan` from the old cursor; the token state changes only in its start and payload |
| Lexer.HloLexer.LexTurn | src/xlaz/hlo_lexer.py:227-354 | one turn does what `Dispatch` says: it skips to its next position, or yields its token, cursor and payload |
| Lexer.HloLexer.SkipBlockComment | src/xlaz/hlo_lexer.py:288-324 | closes past `*/`; an unterminated comment rewinds the cursor to `token_start + 1`; a `'\0'` stops there with `kError` |
| Lexer.HloLexer.SkipLineComment | src/xlaz/hlo_lexer.py:325-338 | stops before `\n`, before `\r` or at the end; a `'\0'` stops there with `kError` |
| Lexer.HloLexer.LexNumberOrPattern | src/xlaz/hlo_lexer.py:455-466 | yields `NumberOrPattern`'s outcome, cursor and payload |
| Lexer.HloLexer.LexDxD | src/xlaz/hlo_lexer.py:467-471 | given that float and dim-labels failed, yields the priority scan from the `dxd` pattern onward |
| Lexer.HloLexer.LexPad | src/xlaz/hlo_lexer.py:472-476 | given that the three earlier patterns failed, yields the priority scan from the `pad` pattern onward |
| Lexer.HloLexer.LexSignedNumber | src/xlaz/hlo_lexer.py:477-509 | given that the earlier patterns failed, yields the priority scan from the `int` pattern onward, including the final `kError` |
| Lexer.HloLexer.LexIdentifier | src/xlaz/hlo_lexer.py:355-436 | yields the corrected `Identifier` outcome, cursor and payload |
| Lexer.HloLexer.SkipIdentifierChars | src/xlaz/hlo_lexer.py:356-357 | advances the cursor over exactly the maximal identifier-character run |
| Lexer.HloLexer.ClassifyIdentifier | src/xlaz/hlo_lexer.py:368-436 | yields `ClassifyWord` of the run, taken as `StringPieceFromPointers(token_start, current_ptr_)`: primitive type, then `nan`, then the keywords, then identifier |
| Lexer.HloLexer.LookupKeyword | src/xlaz/hlo_lexer.py:410-423 | the in-order keyword loop finds a keyword exactly when one is spelled like the identifier |
| Lexer.HloLexer.LexPercent | src/xlaz/hlo_lexer.py:510-517 | yields `Percent`'s outcome, cursor and payload |
| Lexer.HloLexer.LexString | src/xlaz/hlo_lexer.py:518-535 | yields `StringToken`'s outcome, cursor and payload; the payload is `StringPieceFromPointers(token_start + 1, current_ptr_ - 1)`, and `CUnescape` is the identity |
| Lexer.HloLexer.GetLineAndColumn | src/xlaz/hlo_lexer.py:176-203 | gives `LineAndColumn(buf, loc)` whatever the cache holds, keeps the cache invariant, and caches `loc` |
| Lexer.HloLexer.LookAhead | src/xlaz/hlo_lexer.py:213-225 | keeps the lexer valid and leaves the cursor and the token state exactly as before; after `kEof`/`kError` yields that kind, otherwise the outcome the next `Lex` would yield |
| LexerProperties.EofAtEnd | src/xlaz/hlo_lexer.py:228-232 | at the end of the buffer, the token is `kEof` and the cursor does not move |
| LexerProperties.ErrorAtNul | src/xlaz/hlo_lexer.py:233-235 | at a `'\0'`, the token is `kError` and the cursor does not move |
| LexerProperties.ScanFixedPoint | src/xlaz/hlo_lexer.py:226-235 | a token that consumed nothing is yielded again, identically, by the next call |
| LexerProperties.SkipsWhitespace | src/xlaz/hlo_lexer.py:236-238 | any run of spaces, tabs and line ends before a token is skipped |
| LexerProperties.WhitespaceStep | src/xlaz/hlo_lexer.py:236-238 | a single whitespace character is skipped |
| LexerProperties.LineCommentEndAt | src/xlaz/hlo_lexer.py:325-338 | the line-comment scan stops at the first stop character in the body |
| LexerProperties.LineCommentSkipped | src/xlaz/hlo_lexer.py:325-338 | a `//` comment is skipped up to, but not including, `\n`, `\r` or the end |
| LexerProperties.LineCommentNul | src/xlaz/hlo_lexer.py:333-336 | a `'\0'` inside a `//` comment gives `kError` with the cursor on the `'\0'` |
| LexerProperties.BlockCommentEndAt | src/xlaz/hlo_lexer.py:288-324 | the block-comment scan stops at the first `*/`, at the first `'\0'`, or reports the comment unterminated |
| LexerProperties.BlockCommentSkipped | src/xlaz/hlo_lexer.py:288-324 | a closed `/*...*/` comment is skipped, and lexing continues after it |
| LexerProperties.BlockCommentUnterminated | src/xlaz/hlo_lexer.py:313-317 | an unterminated `/*` gives `kError`; the token start stays on the `/` and the cursor is `token_start + 1` |
| LexerProperties.BlockCommentNul | src/xlaz/hlo_lexer.py:318-322 | a `'\0'` inside a `/*` comment gives `kError` with the cursor on the `'\0'` |
| LexerProperties.SlashStarSlashIsUnterminated | src/xlaz/hlo_lexer.py:288-324 | `/*/` does not close: it is an unterminated comment |
| LexerProperties.FixedToken | src/xlaz/hlo_lexer.py:239-286 | every punctuation token, `->`, `<=` and `...` is yielded after consuming exactly its spelling |
| LexerProperties.PunctuationScan | src/xlaz/hlo_lexer.py:244-286 | a punctuation character yields its token and consumes one character |
| LexerProperties.OperatorScan | src/xlaz/hlo_lexer.py:239-250 | `->` yields `kArrow`, `<=` yields `kLeq` and `...` yields `kDots`, each consuming its lexeme |
| LexerProperties.LoneCharacterErrors | src/xlaz/hlo_lexer.py:246-347 | a lone `<`, a lone `/` and a lone `.` yield `kError` after one character; `..` without a third dot yields `kError` two past the start |
| LexerProperties.NumberDispatch | src/xlaz/hlo_lexer.py:239-243 | a digit, or a `-` not followed by `>`, goes to `LexNumberOrPattern` |
| LexerProperties.NumberMatchOf | src/xlaz/hlo_lexer.py:455-509 | an outcome from pattern `i` means the earlier patterns all failed and pattern `i` matched the consumed length |
| LexerProperties.NoEarlierPattern | src/xlaz/hlo_lexer.py:455-509 | a pattern that fails to match has no word of its language as a prefix |
| LexerProperties.NumberPriority | src/xlaz/hlo_lexer.py:455-485 | the first pattern, in priority order, whose language has a prefix of the token wins; it consumes its longest such prefix; DimLabels, DxD and Pad carry the text and Int carries its value |
| LexerProperties.NumberNoMatch | src/xlaz/hlo_lexer.py:455-509 | `kError` if and only if no numeric pattern has any prefix of the token in its language; the cursor is then `token_start + 1` |
| LexerProperties.DxDExample | src/xlaz/hlo_lexer.py:467-471 | `1x2x3` lexes as `kDxD` with text `1x2x3`, consuming all five characters |
| LexerProperties.IntExample | src/xlaz/hlo_lexer.py:477-481 | `5,` lexes as `kInt` with value 5, consuming one character |
| LexerProperties.DigitsValueOfText | src/xlaz/hlo_lexer.py:480 | the value of a natural number's decimal text is that number |
| LexerProperties.IntValueRoundTrip | src/xlaz/hlo_lexer.py:480 | `int(s)` of any integer's decimal text, with its sign, is that integer |
| LexerProperties.IdentifierDispatch | src/xlaz/hlo_lexer.py:350-353 | a letter or `_` goes to `LexIdentifier` |
| LexerProperties.IdentifierRunEnd | src/xlaz/hlo_lexer.py:356-357 | the identifier loop stops exactly at the end of the maximal identifier-character run |
| LexerProperties.IdentifierRunName | src/xlaz/hlo_lexer.py:358-362 | a run followed by `:` yields `kName`; the `:` is consumed but is not part of `str_val` |
| LexerProperties.IdentifierRunAttributeName | src/xlaz/hlo_lexer.py:363-367 | a run followed by `=` yields `kAttributeName`; the `=` is consumed but is not part of `str_val` |
| LexerProperties.IdentifierRunClassified | src/xlaz/hlo_lexer.py:355-436 | any other run, including one that ends the buffer, is classified as a word, and the cursor ends at the run's end |
| LexerProperties.ClassifyWordOrder | src/xlaz/hlo_lexer.py:368-436 | each class holds if and only if its test passes and every earlier test fails: primitive type (not `tuple`), then `nan`, then keyword, then identifier with `str_val` equal to the run |
| LexerProperties.TupleIsNotAPrimitiveTypeToken | src/xlaz/hlo_lexer.py:379-383 | the lexer never yields `tuple` as a primitive-type token |
| LexerProperties.IdentifierSentinelDefect | src/xlaz/hlo_lexer.py:356 | as written, a run that reaches the end or a `'\0'` raises; the corrected lexer classifies it |
| LexerProperties.IdentifierAsWrittenElsewhere | src/xlaz/hlo_lexer.py:355-436 | wherever the run stops at an ordinary character, the as-written and the corrected lexer agree |
| LexerProperties.IdentifierAtEndExample | src/xlaz/hlo_lexer.py:356 | `ROOT` alone raises as written, and lexes as `kw_ROOT` once corrected |
| LexerProperties.PercentName | src/xlaz/hlo_lexer.py:510-516 | `%` followed by a maximal name yields `kName` with that name, without `%`, in `str_val` |
| LexerProperties.PercentError | src/xlaz/hlo_lexer.py:510-517 | `%` yields `kError` if and only if no name follows it; the cursor is then just past the `%` |
| LexerProperties.StringLiteral | src/xlaz/hlo_lexer.py:518-533 | a quoted literal yields `kString`, with exactly the raw text between the quotes in `str_val` |
| LexerProperties.StringUnterminated | src/xlaz/hlo_lexer.py:518-535 | `"` yields `kError` if and only if no quoted literal starts there; the cursor is then just past the quote |

## Left out

- NaN paths: the identifier `nan` (src/xlaz/hlo_lexer.py:398-409) and the
  number `-nan` (486-508) call helpers that the file does not define, so
  they raise. They are modelled as the outcome `Raised(NanHelperUndefined)`,
  with the cursor moved past the text.
  - The `(payload)` suffix, the floating-point NaN values and the inverted
    payload test at line 499 are not modelled.
- `decimal_val`: it is a float parsed with `float(s)`. Only the `kDecimal`
  kind and the consumed span are modelled.
- Primitive types: `primitive_util` wraps a protobuf enum that is not part
  of this model. The name-to-type table is a `map` given to the
  constructor. The exclusion of `TUPLE` stays in the lexer.
- Unicode character classes: `str.isalpha`, `str.isnumeric` and `\d` are
  modelled as ASCII letters and digits.
- Integer width: `int64_val` is an unbounded `int`, as Python's `int(s)`
  is. The C++ lexer's 64-bit range checks are not part of the Python code.
- `BufferPointer` across buffers:
  - the `id()`-based ordering (118-121);
  - `same_buffer`'s type checks (98-106);
  - `__new__` returning `None` (72-76);
  - the inverted `__rsub__` (111).
  The lexer uses one buffer only, so a pointer is an offset into that
  buffer.
- LexerSpec.Dispatch, LexerSpec.Scan, Lexer.HloLexer.Lex, LexToken, LexTurn:
  they use the corrected identifier lexer `LexerSpec.Identifier`. Where the
  source raises `AttributeError` (an identifier run that reaches the end of
  the buffer or a `'\0'`, line 356), they yield the run's classification
  instead. The as-written behaviour is kept in
  `LexerSpec.IdentifierAsWritten` (see Findings).
- BufferPointers.Deref: the `assert len(self) > 0` of `deref()` (line 97)
  is a precondition rather than a modelled failure. The lexer never
  dereferences an empty slice: it peeks only below the end of the buffer.
- `BufferPointer` arithmetic on negative offsets: `Add` and `Sub` require
  the result to be non-negative, because `__init__` raises on a negative
  offset.
- Pointer identity and copying: the lexer class holds the cursor as a
  `nat`. The token state and the cache are immutable datatype values, so
  `copy()` is value assignment.
- `LazyRE2` and `lru_cache` only memoise the compiled patterns. The
  patterns are fixed recogniser functions.
- `str_val` is sometimes a `BufferPointer` in the source (lines 360 and
  365). It is modelled as the text that pointer designates.
- The stderr `print` at line 530 cannot be reached, because `CUnescape`
  always succeeds. `CUnescape` is the identity, inlined in `LexString`.
- `GetKind`, `GetLoc` and `CanDereference` (165-166, 170-175) read a field or
  compare an offset. They appear as the fields `tokenState.currentKind`
  and `tokenState.tokenStart`, and as the predicate
  `Location.CanDereference`.
- Lexer.HloLexer.GetLineAndColumn: the `assert ptr < end` of the walk
  (line 193) becomes the precondition `loc <= len(buf)`.
- Lexer.HloLexer.LookAhead: the exception case of its `try`/`finally` is
  not modelled. The `Raised` outcome is returned like any other, and the
  state is restored in both cases.
- Lexer.HloLexer.LexTurn, LexDxD, LexPad, LexSignedNumber,
  SkipIdentifierChars, ClassifyIdentifier and LookupKeyword split
  `LexToken`, `LexNumberOrPattern` and `LexIdentifier` into smaller
  methods. Their statements are the source's statements, in the source's
  order.
- Packaging (`setup.py`, `setup_info.py`), the protobuf module aliasing
  (`src/xlaz/pb/__init__.py`) and the smoke test (`tests/test_xlaz.py`)
  are not part of this model.

## Findings

| source | as written | input that shows it | evidently intended | confidence | as-written member | corrected member |
|---|---|---|---|---|---|---|
| src/xlaz/hlo_lexer.py:356 | `IsIdentifierChar(self.PeekCurrentChar())` receives the integer sentinel `kEOF`/`kError` at the end of the buffer or at a `'\0'`, and `.isalpha()` on an `int` raises `AttributeError` | the buffer `ROOT` (an identifier that ends the input) | the run stops at the end of the buffer or at a `'\0'`, and the word is classified as usual (`kw_ROOT`), as in the C++ lexer | not executed | LexerSpec.IdentifierAsWritten, LexerProperties.IdentifierAtEndExample | LexerSpec.Identifier, LexerProperties.IdentifierSentinelDefect |
