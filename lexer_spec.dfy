/** What one call of `LexToken` computes, as functions of the buffer, the
    primitive-type table and the cursor. `HloLexer` in lexer.dfy is proved
    to follow these functions step by step. */
module LexerSpec {
  import opened Wrappers
  import opened Chars
  import opened Patterns
  import opened Tokens

  /** What `PeekCurrentChar` returns: `kEOF`, `kError`, or a character. */
  datatype Peeked = EofChar | ErrorChar | Ch(c: char)

  function PeekAt(buf: seq<char>, p: nat): (r: Peeked)
    requires p <= |buf|
    ensures r == EofChar <==> p == |buf|
    ensures r == ErrorChar <==> p < |buf| && buf[p] == '\0'
    ensures r.Ch? ==> p < |buf| && r.c == buf[p] && r.c != '\0'
  {
    if p == |buf| then EofChar else if buf[p] == '\0' then ErrorChar else Ch(buf[p])
  }

  /** The exceptions the Python code raises while lexing. */
  datatype Fault =
    | SentinelHasNoIsAlpha  // `IsIdentifierChar` applied to the integer `kEOF`/`kError`
    | NanHelperUndefined    // the NaN helpers `LexNanPayload`, `QuietNanWithoutPayload` are not defined

  /** A token kind, or an exception that leaves `current_kind` unassigned. */
  datatype Outcome = Tok(kind: TokKind) | Raised(fault: Fault)

  /** The effect of lexing one token: the outcome, the token start, the new
      cursor and the payload field assigned. */
  datatype Step = Step(outcome: Outcome, start: nat, cursor: nat, payload: Payload)

  /** A token that carries nothing and ends at `cursor`. */
  function Bare(kind: TokKind, start: nat, cursor: nat): Step
  {
    Step(Tok(kind), start, cursor, NoPayload)
  }

  // ---------------------------------------------------------------------
  // Sub-lexers; each starts at the token's first character `p`
  // ---------------------------------------------------------------------

  /** The ten characters that form a token on their own. */
  function PunctuationKind(c: char): (r: Option<TokKind>)
    ensures r.Some? ==> IsPunctuation(r.value) && Spelling(r.value) == Some([c])
    ensures r.None? ==> forall k :: IsPunctuation(k) ==> Spelling(k) != Some([c])
  {
    if c == '=' then Some(Equal)
    else if c == ',' then Some(Comma)
    else if c == ':' then Some(Colon)
    else if c == '*' then Some(Asterisk)
    else if c == '[' then Some(Lsquare)
    else if c == ']' then Some(Rsquare)
    else if c == '{' then Some(Lbrace)
    else if c == '}' then Some(Rbrace)
    else if c == '(' then Some(Lparen)
    else if c == ')' then Some(Rparen)
    else None
  }

  /** The patterns `LexNumberOrPattern` tries, in order. */
  const NumberPatterns: seq<Pattern> :=
    [FloatPattern, DimLabelsPattern, DxDPattern, PadPattern, IntPattern, NegInfPattern, NegNanPattern]

  /** What `LexNumberOrPattern` reports for a match of `NumberPatterns[i]`. */
  function NumberOutcome(i: nat): Outcome
    requires i < |NumberPatterns|
  {
    [Tok(Decimal), Tok(DimLabels), Tok(DxD), Tok(Pad), Tok(Int), Tok(NegInf), Raised(NanHelperUndefined)][i]
  }

  /** `int(s)` of a decimal text. */
  function DigitsValue(s: seq<char>): (v: nat)
    requires AllInRange(s, 0, |s|, Digits)
    decreases |s|
  {
    if |s| == 0 then 0
    else
      AllInRangeAt(s, 0, |s|, Digits, |s| - 1);
      AllInRangePrefix(s, |s| - 1);
      10 * DigitsValue(s[..|s| - 1]) + (s[|s| - 1] - '0') as int
  }

  lemma {:induction false} AllInRangePrefix(s: seq<char>, n: nat)
    requires n <= |s| && AllInRange(s, 0, |s|, Digits)
    ensures AllInRange(s[..n], 0, n, Digits)
  {
    forall q | 0 <= q < n ensures IsDigit(s[..n][q]) {
      AllInRangeAt(s, 0, |s|, Digits, q);
    }
    AllInRangeFrom(s[..n], 0, n);
  }

  lemma {:induction false} AllInRangeFrom(s: seq<char>, lo: nat, hi: nat)
    requires lo <= hi <= |s| && forall q :: lo <= q < hi ==> IsDigit(s[q])
    ensures AllInRange(s, lo, hi, Digits)
    decreases hi - lo
  {
    if lo < hi { AllInRangeFrom(s, lo + 1, hi); }
  }

  /** `int(s)` of a text matched by `[-]?\d+`. */
  function IntValue(s: seq<char>): int
  {
    if |s| > 0 && s[0] == '-' && AllInRange(s, 1, |s|, Digits) then
      AllInRangeShift(s, 1);
      var v: int := DigitsValue(s[1..]);
      -v
    else if AllInRange(s, 0, |s|, Digits) then DigitsValue(s)
    else 0
  }

  lemma {:induction false} AllInRangeShift(s: seq<char>, d: nat)
    requires d <= |s| && AllInRange(s, d, |s|, Digits)
    ensures AllInRange(s[d..], 0, |s| - d, Digits)
  {
    forall q | 0 <= q < |s| - d ensures IsDigit(s[d..][q]) {
      AllInRangeAt(s, d, |s|, Digits, q + d);
    }
    AllInRangeFrom(s[d..], 0, |s| - d);
  }

  /** A match of pattern number `index` of `NumberPatterns`, `len` characters long. */
  datatype Hit = Hit(index: nat, len: nat)

  /** The first of `NumberPatterns[i..]` that matches a prefix of `s`. */
  function FirstMatch(s: seq<char>, i: nat): (r: Option<Hit>)
    requires i <= |NumberPatterns|
    ensures r.Some? ==> i <= r.value.index < |NumberPatterns|
    ensures r.Some? ==> Match(NumberPatterns[r.value.index], s) == Some(r.value.len)
    decreases |NumberPatterns| - i
  {
    if i == |NumberPatterns| then None
    else
      match Match(NumberPatterns[i], s)
      case Some(n) => Some(Hit(i, n))
      case None => FirstMatch(s, i + 1)
  }

  /** A pattern that does not match is passed over. */
  lemma FirstMatchPass(s: seq<char>, i: nat)
    requires i < |NumberPatterns| && Match(NumberPatterns[i], s).None?
    ensures FirstMatch(s, i) == FirstMatch(s, i + 1)
  {
  }

  /** Every pattern before the one found, or every pattern when none is found,
      fails to match. */
  lemma {:induction false} FirstMatchEarlier(s: seq<char>, i: nat)
    requires i <= |NumberPatterns|
    ensures FirstMatch(s, i).Some? ==>
      forall k :: i <= k < FirstMatch(s, i).value.index ==> Match(NumberPatterns[k], s).None?
    ensures FirstMatch(s, i).None? ==>
      forall k :: i <= k < |NumberPatterns| ==> Match(NumberPatterns[k], s).None?
    decreases |NumberPatterns| - i
  {
    if i < |NumberPatterns| {
      FirstMatchEarlier(s, i + 1);
    }
  }

  /** Distinct patterns report distinct outcomes, none of them `Error`. */
  lemma NumberOutcomeInjective(i: nat)
    requires i < |NumberPatterns|
    ensures NumberOutcome(i) != Tok(Error)
    ensures forall j :: 0 <= j < |NumberPatterns| && NumberOutcome(j) == NumberOutcome(i) ==> j == i
  {
  }

  /** The payload `LexNumberOrPattern` assigns for pattern `i` and matched
      text `text`: dim labels, dxd and pad keep the text, an int its value. */
  function NumberPayload(i: nat, text: seq<char>): Payload
  {
    if 1 <= i <= 3 then StrVal(text)
    else if i == 4 then IntVal(IntValue(text))
    else NoPayload
  }

  /** The token of the first of `NumberPatterns[i..]` matching at `p`, or an
      error one character long. */
  function NumberFrom(buf: seq<char>, p: nat, i: nat): (r: Step)
    requires p < |buf| && i <= |NumberPatterns|
    ensures r.start == p && p < r.cursor <= |buf|
  {
    match FirstMatch(buf[p..], i)
    case None => Bare(Error, p, p + 1)
    case Some(h) => Step(NumberOutcome(h.index), p, p + h.len, NumberPayload(h.index, buf[p..p + h.len]))
  }

  /** `LexNumberOrPattern`: the first of `NumberPatterns` matching at `p` wins. */
  function NumberOrPattern(buf: seq<char>, p: nat): Step
    requires p < |buf|
  {
    NumberFrom(buf, p, 0)
  }

  /** The classification of an identifier `buf[p..q]` that is not followed by
      `:` or `=`: primitive type, `nan`, keyword, or plain identifier. */
  function ClassifyWord(buf: seq<char>, table: map<string, PrimitiveType>, p: nat, q: nat): (r: Step)
    requires p < q <= |buf|
    ensures r.start == p && r.cursor == q && r.outcome != Raised(SentinelHasNoIsAlpha)
  {
    var id := buf[p..q];
    if id in table && table[id] != Tuple then Step(Tok(PrimitiveType), p, q, PrimVal(table[id]))
    else if id == "nan" then Step(Raised(NanHelperUndefined), p, q, NoPayload)
    else if KeywordKind(id).Some? then Bare(Kw(KeywordKind(id).value), p, q)
    else Step(Tok(Ident), p, q, StrVal(id))
  }

  /** `LexIdentifier` as written: the run test reaches `IsIdentifierChar(kEOF)`
      or `IsIdentifierChar(kError)` whenever the run ends the buffer or meets
      a `'\0'`, and that raises. */
  function IdentifierAsWritten(buf: seq<char>, table: map<string, PrimitiveType>, p: nat): (r: Step)
    requires p < |buf|
    ensures r.start == p && p < r.cursor <= |buf|
  {
    var q := p + 1 + Span(buf, p + 1, IdentifierChars);
    if q == |buf| || buf[q] == '\0' then Step(Raised(SentinelHasNoIsAlpha), p, q, NoPayload)
    else if buf[q] == ':' then Step(Tok(Name), p, q + 1, StrVal(buf[p..q]))
    else if buf[q] == '=' then Step(Tok(AttributeName), p, q + 1, StrVal(buf[p..q]))
    else ClassifyWord(buf, table, p, q)
  }

  /** `LexIdentifier` with the end-of-buffer and `'\0'` sentinels treated as
      non-identifier characters, as the C++ lexer it was ported from does. */
  function Identifier(buf: seq<char>, table: map<string, PrimitiveType>, p: nat): (r: Step)
    requires p < |buf|
    ensures r.start == p && p < r.cursor <= |buf|
    ensures r.outcome != Raised(SentinelHasNoIsAlpha)
  {
    var q := p + 1 + Span(buf, p + 1, IdentifierChars);
    if q < |buf| && buf[q] == ':' then Step(Tok(Name), p, q + 1, StrVal(buf[p..q]))
    else if q < |buf| && buf[q] == '=' then Step(Tok(AttributeName), p, q + 1, StrVal(buf[p..q]))
    else ClassifyWord(buf, table, p, q)
  }

  /** `LexPercent`: a `name_pattern` match after the `%`. */
  function Percent(buf: seq<char>, p: nat): (r: Step)
    requires p < |buf|
    ensures r.start == p && p < r.cursor <= |buf|
  {
    var n := NameMatch(buf[p + 1..]);
    if n.Some? then Step(Tok(Name), p, p + 1 + n.value, StrVal(buf[p + 1..p + 1 + n.value]))
    else Bare(Error, p, p + 1)
  }

  /** `LexString`: an `escaping_pattern` match from the opening quote; the
      text between the quotes, passed through `CUnescape` (an identity that
      always succeeds), becomes `str_val`. */
  function StringToken(buf: seq<char>, p: nat): (r: Step)
    requires p < |buf|
    ensures r.start == p && p < r.cursor <= |buf|
  {
    var n := StringMatch(buf[p..]);
    if n.Some? then Step(Tok(String), p, p + n.value, StrVal(buf[p + 1..p + n.value - 1]))
    else Bare(Error, p, p + 1)
  }

  // ---------------------------------------------------------------------
  // Comments
  // ---------------------------------------------------------------------

  /** How a comment scan stops: after the comment (`next` is where lexing
      resumes), at the end of the buffer, or at a `'\0'`. */
  datatype CommentEnd = Closed(next: nat) | Unterminated | NulAt(at: nat)

  /** The block-comment scan, from `k` (just past the opening slash-star). */
  function BlockCommentEnd(buf: seq<char>, k: nat): (r: CommentEnd)
    requires k <= |buf|
    ensures r.Closed? ==> k + 2 <= r.next <= |buf| && buf[r.next - 2] == '*' && buf[r.next - 1] == '/'
    ensures r.NulAt? ==> k <= r.at < |buf| && buf[r.at] == '\0'
    decreases |buf| - k
  {
    if k == |buf| then Unterminated
    else if buf[k] == '\0' then NulAt(k)
    else if buf[k] == '*' && k + 1 < |buf| && buf[k + 1] == '/' then Closed(k + 2)
    else BlockCommentEnd(buf, k + 1)
  }

  /** The `//` scan from `k`: it stops before the line end, or at a `'\0'`. */
  function LineCommentEnd(buf: seq<char>, k: nat): (r: CommentEnd)
    requires k <= |buf|
    ensures !r.Unterminated?
    ensures r.Closed? ==> k <= r.next <= |buf| && (r.next == |buf| || buf[r.next] == '\n' || buf[r.next] == '\r')
    ensures r.NulAt? ==> k <= r.at < |buf| && buf[r.at] == '\0'
    decreases |buf| - k
  {
    if k == |buf| || buf[k] == '\n' || buf[k] == '\r' then Closed(k)
    else if buf[k] == '\0' then NulAt(k)
    else LineCommentEnd(buf, k + 1)
  }

  // ---------------------------------------------------------------------
  // The dispatcher
  // ---------------------------------------------------------------------

  /** One turn of the `LexToken` loop: skip to `next` and go round again,
      or finish with a step. */
  datatype Dispatched = Skip(next: nat) | Emit(step: Step)

  /** One turn of `LexToken`'s loop with the cursor at `p`. */
  function Dispatch(buf: seq<char>, table: map<string, PrimitiveType>, p: nat): (r: Dispatched)
    requires p <= |buf|
    ensures r.Skip? ==> p < r.next <= |buf|
    ensures r.Emit? ==> r.step.start == p && p <= r.step.cursor <= |buf|
    ensures r.Emit? && r.step.cursor == p ==>
      r.step.payload == NoPayload &&
      ((p == |buf| && r.step.outcome == Tok(Eof)) || (p < |buf| && buf[p] == '\0' && r.step.outcome == Tok(Error)))
  {
    if p == |buf| then Emit(Bare(Eof, p, p))
    else
      var c := buf[p];
      if c == '\0' then Emit(Bare(Error, p, p))
      else if IsSpace(c) then Skip(p + 1)
      else if IsDigit(c) || c == '-' then
        if c == '-' && PeekAt(buf, p + 1) == Ch('>') then Emit(Bare(Arrow, p, p + 2))
        else Emit(NumberOrPattern(buf, p))
      else if c == '<' then
        if PeekAt(buf, p + 1) == Ch('=') then Emit(Bare(Leq, p, p + 2)) else Emit(Bare(Error, p, p + 1))
      else if c == '%' then Emit(Percent(buf, p))
      else if PunctuationKind(c).Some? then Emit(Bare(PunctuationKind(c).value, p, p + 1))
      else if c == '/' then
        if PeekAt(buf, p + 1) == Ch('*') then
          var e := BlockCommentEnd(buf, p + 2);
          if e.Closed? then Skip(e.next)
          else if e.NulAt? then Emit(Bare(Error, p, e.at))
          else Emit(Bare(Error, p, p + 1))
        else if PeekAt(buf, p + 1) == Ch('/') then
          var e := LineCommentEnd(buf, p + 1);
          if e.Closed? then Skip(e.next) else Emit(Bare(Error, p, e.at))
        else Emit(Bare(Error, p, p + 1))
      else if c == '.' then
        if PeekAt(buf, p + 1) == Ch('.') then
          if PeekAt(buf, p + 2) == Ch('.') then Emit(Bare(Dots, p, p + 3)) else Emit(Bare(Error, p, p + 2))
        else Emit(Bare(Error, p, p + 1))
      else if c == '"' then Emit(StringToken(buf, p))
      else if IsAlpha(c) || c == '_' then Emit(Identifier(buf, table, p))
      else Emit(Bare(Error, p, p + 1))
  }

  /** `LexToken` from the cursor `p`: turns of the loop until one emits.
      The token starts at or after `p`; the cursor never moves back; a token
      that consumes nothing is `kEof` at the end or `kError` at a `'\0'`. */
  function Scan(buf: seq<char>, table: map<string, PrimitiveType>, p: nat): (r: Step)
    requires p <= |buf|
    ensures p <= r.start <= r.cursor <= |buf|
    ensures r.start == r.cursor ==>
      r.payload == NoPayload &&
      ((r.cursor == |buf| && r.outcome == Tok(Eof)) || (r.cursor < |buf| && buf[r.cursor] == '\0' && r.outcome == Tok(Error)))
    decreases |buf| - p, 1
  {
    ScanAfter(buf, table, p, Dispatch(buf, table, p))
  }

  /** The rest of `Scan` once the turn at `p` has been dispatched: another
      turn after a skip, the token otherwise. */
  function ScanAfter(buf: seq<char>, table: map<string, PrimitiveType>, p: nat, d: Dispatched): (r: Step)
    requires p <= |buf| && d == Dispatch(buf, table, p)
    ensures p <= r.start <= r.cursor <= |buf|
    ensures r.start == r.cursor ==>
      r.payload == NoPayload &&
      ((r.cursor == |buf| && r.outcome == Tok(Eof)) || (r.cursor < |buf| && buf[r.cursor] == '\0' && r.outcome == Tok(Error)))
    decreases |buf| - p, 0
  {
    if d.Skip? then Scan(buf, table, d.next) else d.step
  }
}
