/** Properties of `Scan` and the sub-lexers: what the lexer promises about
    end of input, whitespace and comments, fixed tokens, the numeric
    priority order, identifiers, `%` names and strings. */
module LexerProperties {
  import opened Wrappers
  import opened Chars
  import opened Patterns
  import opened Tokens
  import opened LexerSpec

  // ---------------------------------------------------------------------
  // End of input and '\0'
  // ---------------------------------------------------------------------

  /** At the end of the buffer the lexer reports `kEof` and does not move. */
  lemma EofAtEnd(buf: seq<char>, table: map<string, PrimitiveType>)
    ensures Scan(buf, table, |buf|) == Bare(Eof, |buf|, |buf|)
  {
  }

  /** At a `'\0'` the lexer reports `kError` and does not move. */
  lemma ErrorAtNul(buf: seq<char>, table: map<string, PrimitiveType>, p: nat)
    requires p < |buf| && buf[p] == '\0'
    ensures Scan(buf, table, p) == Bare(Error, p, p)
  {
  }

  /** A token that consumed nothing is reported again, unchanged, by the
      next call: repeated calls at the end or at a `'\0'` agree. */
  lemma ScanFixedPoint(buf: seq<char>, table: map<string, PrimitiveType>, p: nat)
    requires p <= |buf|
    requires Scan(buf, table, p).start == Scan(buf, table, p).cursor
    ensures Scan(buf, table, Scan(buf, table, p).cursor) == Scan(buf, table, p)
  {
    var r := Scan(buf, table, p);
    if r.cursor == |buf| {
      EofAtEnd(buf, table);
    } else {
      ErrorAtNul(buf, table, r.cursor);
    }
  }

  // ---------------------------------------------------------------------
  // Whitespace and comments
  // ---------------------------------------------------------------------

  /** Whitespace before a token is skipped. */
  lemma {:induction false} SkipsWhitespace(buf: seq<char>, table: map<string, PrimitiveType>, p: nat, k: nat)
    requires p <= k <= |buf|
    requires forall q :: p <= q < k ==> IsSpace(buf[q])
    ensures Scan(buf, table, p) == Scan(buf, table, k)
    decreases k - p
  {
    if p < k {
      WhitespaceStep(buf, table, p);
      SkipsWhitespace(buf, table, p + 1, k);
    }
  }

  lemma WhitespaceStep(buf: seq<char>, table: map<string, PrimitiveType>, p: nat)
    requires p < |buf| && IsSpace(buf[p])
    ensures Scan(buf, table, p) == Scan(buf, table, p + 1)
  {
    assert Dispatch(buf, table, p) == Skip(p + 1);
  }

  /** `buf[q]` ends a line comment's scan. */
  predicate LineStop(buf: seq<char>, q: nat)
  {
    q == |buf| || (q < |buf| && (buf[q] == '\n' || buf[q] == '\r'))
  }

  /** No position in `[lo, hi)` holds a line end or a `'\0'`. */
  ghost predicate LineCommentBody(buf: seq<char>, lo: nat, hi: nat)
  {
    hi <= |buf| && forall q :: lo <= q < hi ==> buf[q] != '\n' && buf[q] != '\r' && buf[q] != '\0'
  }

  lemma {:induction false} LineCommentEndAt(buf: seq<char>, i: nat, k: nat)
    requires i <= k <= |buf| && LineCommentBody(buf, i, k)
    ensures LineStop(buf, k) ==> LineCommentEnd(buf, i) == Closed(k)
    ensures k < |buf| && buf[k] == '\0' ==> LineCommentEnd(buf, i) == NulAt(k)
    decreases k - i
  {
    if i < k { LineCommentEndAt(buf, i + 1, k); }
  }

  /** A `//` comment is skipped up to, not including, the line end. */
  lemma LineCommentSkipped(buf: seq<char>, table: map<string, PrimitiveType>, p: nat, k: nat)
    requires p + 2 <= k <= |buf| && buf[p] == '/' && buf[p + 1] == '/'
    requires LineCommentBody(buf, p + 2, k) && LineStop(buf, k)
    ensures Scan(buf, table, p) == Scan(buf, table, k)
  {
    LineCommentEndAt(buf, p + 1, k);
  }

  /** A `'\0'` inside a `//` comment is an error at the `'\0'`. */
  lemma LineCommentNul(buf: seq<char>, table: map<string, PrimitiveType>, p: nat, k: nat)
    requires p + 2 <= k < |buf| && buf[p] == '/' && buf[p + 1] == '/'
    requires LineCommentBody(buf, p + 2, k) && buf[k] == '\0'
    ensures Scan(buf, table, p) == Bare(Error, p, k)
  {
    LineCommentEndAt(buf, p + 1, k);
  }

  /** A comment closer starts at `j`. */
  predicate ClosesAt(buf: seq<char>, j: nat)
  {
    j + 1 < |buf| && buf[j] == '*' && buf[j + 1] == '/'
  }

  /** No position in `[lo, hi)` holds a `'\0'` or starts a closer. */
  ghost predicate BlockCommentBody(buf: seq<char>, lo: nat, hi: nat)
  {
    hi <= |buf| && forall j :: lo <= j < hi ==> buf[j] != '\0' && !ClosesAt(buf, j)
  }

  lemma {:induction false} BlockCommentEndAt(buf: seq<char>, i: nat, k: nat)
    requires i <= k <= |buf| && BlockCommentBody(buf, i, k)
    ensures ClosesAt(buf, k) ==> BlockCommentEnd(buf, i) == Closed(k + 2)
    ensures k < |buf| && buf[k] == '\0' ==> BlockCommentEnd(buf, i) == NulAt(k)
    ensures k == |buf| ==> BlockCommentEnd(buf, i) == Unterminated
    decreases k - i
  {
    if i < k {
      assert buf[i] != '\0' && !ClosesAt(buf, i);
      BlockCommentEndAt(buf, i + 1, k);
    }
  }

  /** A block comment is skipped through its first closer, which is searched
      for from just past the opening pair, so the slash of the opener
      cannot close it. */
  lemma BlockCommentSkipped(buf: seq<char>, table: map<string, PrimitiveType>, p: nat, k: nat)
    requires p + 2 <= k && k + 2 <= |buf| && buf[p] == '/' && buf[p + 1] == '*'
    requires BlockCommentBody(buf, p + 2, k) && ClosesAt(buf, k)
    ensures Scan(buf, table, p) == Scan(buf, table, k + 2)
  {
    BlockCommentEndAt(buf, p + 2, k);
  }

  /** An unterminated block comment is an error one past its slash; the
      token still starts at the slash. */
  lemma BlockCommentUnterminated(buf: seq<char>, table: map<string, PrimitiveType>, p: nat)
    requires p + 2 <= |buf| && buf[p] == '/' && buf[p + 1] == '*'
    requires BlockCommentBody(buf, p + 2, |buf|)
    ensures Scan(buf, table, p) == Bare(Error, p, p + 1)
  {
    BlockCommentEndAt(buf, p + 2, |buf|);
  }

  /** A `'\0'` inside a block comment is an error at the `'\0'`. */
  lemma BlockCommentNul(buf: seq<char>, table: map<string, PrimitiveType>, p: nat, k: nat)
    requires p + 2 <= k < |buf| && buf[p] == '/' && buf[p + 1] == '*'
    requires BlockCommentBody(buf, p + 2, k) && buf[k] == '\0'
    ensures Scan(buf, table, p) == Bare(Error, p, k)
  {
    BlockCommentEndAt(buf, p + 2, k);
  }

  /** A slash, a star and a slash do not make a closed comment. */
  lemma SlashStarSlashIsUnterminated(table: map<string, PrimitiveType>)
    ensures Scan("/*/", table, 0) == Bare(Error, 0, 1)
  {
    BlockCommentUnterminated("/*/", table, 0);
  }

  // ---------------------------------------------------------------------
  // Fixed tokens
  // ---------------------------------------------------------------------

  /** Each punctuation mark, `->`, `<=` and `...` is lexed from its spelling,
      consuming exactly that spelling. */
  lemma FixedToken(buf: seq<char>, table: map<string, PrimitiveType>, p: nat, k: TokKind)
    requires IsPunctuation(k) || k == Arrow || k == Leq || k == Dots
    requires p + |Spelling(k).value| <= |buf| && buf[p..p + |Spelling(k).value|] == Spelling(k).value
    ensures Scan(buf, table, p) == Bare(k, p, p + |Spelling(k).value|)
  {
    var s := Spelling(k).value;
    assert buf[p] == s[0];
    if IsPunctuation(k) {
      assert PunctuationKind(buf[p]) == Some(k);
      PunctuationScan(buf, table, p);
    } else {
      assert buf[p + 1] == s[1];
      if k == Dots { assert buf[p + 2] == s[2]; }
      OperatorScan(buf, table, p);
    }
  }

  lemma PunctuationScan(buf: seq<char>, table: map<string, PrimitiveType>, p: nat)
    requires p < |buf| && PunctuationKind(buf[p]).Some?
    ensures Scan(buf, table, p) == Bare(PunctuationKind(buf[p]).value, p, p + 1)
  {
  }

  lemma OperatorScan(buf: seq<char>, table: map<string, PrimitiveType>, p: nat)
    requires p + 1 < |buf|
    ensures buf[p] == '-' && buf[p + 1] == '>' ==> Scan(buf, table, p) == Bare(Arrow, p, p + 2)
    ensures buf[p] == '<' && buf[p + 1] == '=' ==> Scan(buf, table, p) == Bare(Leq, p, p + 2)
    ensures p + 2 < |buf| && buf[p] == '.' && buf[p + 1] == '.' && buf[p + 2] == '.' ==>
      Scan(buf, table, p) == Bare(Dots, p, p + 3)
  {
  }

  /** A lone `<`, a lone `/`, and `.` or `..` without a further dot are errors;
      `..` leaves the cursor two past the start. */
  lemma LoneCharacterErrors(buf: seq<char>, table: map<string, PrimitiveType>, p: nat)
    requires p < |buf|
    ensures buf[p] == '<' && PeekAt(buf, p + 1) != Ch('=') ==> Scan(buf, table, p) == Bare(Error, p, p + 1)
    ensures buf[p] == '/' && PeekAt(buf, p + 1) != Ch('*') && PeekAt(buf, p + 1) != Ch('/') ==>
      Scan(buf, table, p) == Bare(Error, p, p + 1)
    ensures buf[p] == '.' && PeekAt(buf, p + 1) != Ch('.') ==> Scan(buf, table, p) == Bare(Error, p, p + 1)
    ensures buf[p] == '.' && PeekAt(buf, p + 1) == Ch('.') && PeekAt(buf, p + 2) != Ch('.') ==>
      Scan(buf, table, p) == Bare(Error, p, p + 2)
  {
  }

  // ---------------------------------------------------------------------
  // Numbers and patterns
  // ---------------------------------------------------------------------

  /** A digit, or a `-` not followed by `>`, starts `LexNumberOrPattern`. */
  lemma NumberDispatch(buf: seq<char>, table: map<string, PrimitiveType>, p: nat)
    requires p < |buf| && (IsDigit(buf[p]) || (buf[p] == '-' && PeekAt(buf, p + 1) != Ch('>')))
    ensures Scan(buf, table, p) == NumberOrPattern(buf, p)
  {
  }

  /** Which pattern of the priority list produced the outcome: every earlier
      pattern fails and pattern `i` matches the token's text. */
  lemma NumberMatchOf(buf: seq<char>, p: nat, i: nat)
    requires p < |buf| && i < |NumberPatterns|
    requires NumberOrPattern(buf, p).outcome == NumberOutcome(i)
    ensures FirstMatch(buf[p..], 0) == Some(Hit(i, NumberOrPattern(buf, p).cursor - p))
    ensures forall j :: 0 <= j < i ==> Match(NumberPatterns[j], buf[p..]).None?
    ensures Match(NumberPatterns[i], buf[p..]) == Some(NumberOrPattern(buf, p).cursor - p)
  {
    NumberOutcomeInjective(i);
    FirstMatchEarlier(buf[p..], 0);
  }

  /** No prefix is in the language of a pattern whose `Match` fails. */
  lemma NoEarlierPattern(rest: seq<char>, i: nat)
    requires i <= |NumberPatterns|
    requires forall j :: 0 <= j < i ==> Match(NumberPatterns[j], rest).None?
    ensures forall j, k: nat :: 0 <= j < i ==> !InLanguage(NumberPatterns[j], rest, k)
  {
    forall j, k: nat | 0 <= j < i
      ensures !InLanguage(NumberPatterns[j], rest, k)
    {
      if InLanguage(NumberPatterns[j], rest, k) {
        MatchIsLongest(NumberPatterns[j], rest, k);
        assert false;
      }
    }
  }

  /** `LexNumberOrPattern` reports pattern `i` only when no earlier pattern
      matches any prefix; the token is then the longest prefix in pattern
      `i`'s language, and dim labels, dxd and pad keep their text, an int
      its value. */
  lemma NumberPriority(buf: seq<char>, p: nat, i: nat)
    requires p < |buf| && i < |NumberPatterns|
    requires NumberOrPattern(buf, p).outcome == NumberOutcome(i)
    ensures forall j, k: nat :: 0 <= j < i ==> !InLanguage(NumberPatterns[j], buf[p..], k)
    ensures InLanguage(NumberPatterns[i], buf[p..], NumberOrPattern(buf, p).cursor - p)
    ensures forall k: nat :: InLanguage(NumberPatterns[i], buf[p..], k) ==> k <= NumberOrPattern(buf, p).cursor - p
    ensures 1 <= i <= 3 ==> NumberOrPattern(buf, p).payload == StrVal(buf[p..NumberOrPattern(buf, p).cursor])
    ensures i == 4 ==> NumberOrPattern(buf, p).payload == IntVal(IntValue(buf[p..NumberOrPattern(buf, p).cursor]))
  {
    var rest := buf[p..];
    var r := NumberOrPattern(buf, p);
    NumberMatchOf(buf, p, i);
    NoEarlierPattern(rest, i);
    MatchSound(NumberPatterns[i], rest);
    forall k: nat | InLanguage(NumberPatterns[i], rest, k)
      ensures k <= r.cursor - p
    {
      MatchIsLongest(NumberPatterns[i], rest, k);
    }
  }

  /** `LexNumberOrPattern` fails exactly when no pattern matches any prefix,
      and then the cursor is one past the token start. */
  lemma NumberNoMatch(buf: seq<char>, p: nat)
    requires p < |buf|
    ensures NumberOrPattern(buf, p).outcome == Tok(Error) <==>
      forall j, k: nat :: 0 <= j < |NumberPatterns| ==> !InLanguage(NumberPatterns[j], buf[p..], k)
    ensures NumberOrPattern(buf, p).outcome == Tok(Error) ==> NumberOrPattern(buf, p).cursor == p + 1
  {
    var rest := buf[p..];
    var h := FirstMatch(rest, 0);
    if h.None? {
      FirstMatchEarlier(rest, 0);
      NoEarlierPattern(rest, |NumberPatterns|);
    } else {
      NumberOutcomeInjective(h.value.index);
      MatchSound(NumberPatterns[h.value.index], rest);
    }
  }

  /** `1x2x3` is one dxd token, not a float or an int. */
  lemma DxDExample(s: string, table: map<string, PrimitiveType>)
    requires s == "1x2x3"
    ensures Scan(s, table, 0) == Step(Tok(DxD), 0, 5, StrVal(s))
  {
    DxDExampleMatches(s);
    assert s[0..] == s && s[0..5] == s;
    assert NumberPatterns[..3] == [FloatPattern, DimLabelsPattern, DxDPattern];
    FirstMatchPass(s, 0);
    FirstMatchPass(s, 1);
    NumberDispatch(s, table, 0);
  }

  lemma DxDExampleMatches(s: string)
    requires s == "1x2x3"
    ensures Match(FloatPattern, s).None? && Match(DimLabelsPattern, s).None?
    ensures Match(DxDPattern, s) == Some(5)
  {
    assert Span(s, 0, Digits) == 1 && Span(s, 2, Digits) == 1 && Span(s, 4, Digits) == 1;
    assert Span(s, 0, BatchFeature) == 1;
    assert GroupsEnd(s, 5) == 5;
    assert GroupsEnd(s, 1) == 5;
  }

  /** `5,` is an int token of value 5 that stops before the comma. */
  lemma IntExample(s: string, table: map<string, PrimitiveType>)
    requires s == "5,"
    ensures Scan(s, table, 0) == Step(Tok(Int), 0, 1, IntVal(5))
  {
    IntExampleMatches(s);
    assert s[0..] == s && s[0..1] == "5" && DigitsValue("5") == 5;
    assert NumberPatterns[..5] == [FloatPattern, DimLabelsPattern, DxDPattern, PadPattern, IntPattern];
    FirstMatchPass(s, 0);
    FirstMatchPass(s, 1);
    FirstMatchPass(s, 2);
    FirstMatchPass(s, 3);
    NumberDispatch(s, table, 0);
  }

  lemma IntExampleMatches(s: string)
    requires s == "5,"
    ensures Match(FloatPattern, s).None? && Match(DimLabelsPattern, s).None?
    ensures Match(DxDPattern, s).None? && Match(PadPattern, s).None?
    ensures Match(IntPattern, s) == Some(1)
  {
    assert Span(s, 0, Digits) == 1 && Span(s, 0, BatchFeature) == 1;
    assert GroupsEnd(s, 1) == 1;
  }

  // ---------------------------------------------------------------------
  // Integers
  // ---------------------------------------------------------------------

  /** The decimal text of a natural number, as `str(n)` writes it. */
  function DecimalText(n: nat): (t: string)
    ensures |t| >= 1 && AllInRange(t, 0, |t|, Digits)
    decreases n
  {
    var d := [('0' as int + n % 10) as char];
    if n < 10 then d
    else
      var h := DecimalText(n / 10);
      AllInRangeAppend(h, d);
      h + d
  }

  lemma {:induction false} AllInRangeAppend(a: seq<char>, b: seq<char>)
    requires AllInRange(a, 0, |a|, Digits) && |b| == 1 && IsDigit(b[0])
    ensures AllInRange(a + b, 0, |a + b|, Digits)
  {
    forall q | 0 <= q < |a + b| ensures IsDigit((a + b)[q]) {
      if q < |a| { AllInRangeAt(a, 0, |a|, Digits, q); }
    }
    AllInRangeFrom(a + b, 0, |a + b|);
  }

  /** The text of an integer, with a leading `-` when negative. */
  function IntText(i: int): string
  {
    if i < 0 then "-" + DecimalText(-i) else DecimalText(i)
  }

  lemma {:induction false} DigitsValueOfText(n: nat)
    ensures DigitsValue(DecimalText(n)) == n
    decreases n
  {
    if n >= 10 {
      var t := DecimalText(n);
      DigitsValueOfText(n / 10);
      assert t[..|t| - 1] == DecimalText(n / 10);
    }
  }

  /** `int` reads back the text of every integer. */
  lemma IntValueRoundTrip(i: int)
    ensures IntValue(IntText(i)) == i
  {
    if i < 0 {
      var t := IntText(i);
      DigitsValueOfText(-i);
      assert t[1..] == DecimalText(-i);
      AllInRangeShiftBack(t, DecimalText(-i));
    } else {
      DigitsValueOfText(i);
    }
  }

  lemma AllInRangeShiftBack(t: seq<char>, d: seq<char>)
    requires |t| >= 1 && t[1..] == d && AllInRange(d, 0, |d|, Digits)
    ensures AllInRange(t, 1, |t|, Digits)
  {
    forall q | 1 <= q < |t| ensures IsDigit(t[q]) {
      AllInRangeAt(d, 0, |d|, Digits, q - 1);
    }
    AllInRangeFrom(t, 1, |t|);
  }

  // ---------------------------------------------------------------------
  // Identifiers
  // ---------------------------------------------------------------------

  /** An alphabetic or `_` character starts `LexIdentifier`. */
  lemma IdentifierDispatch(buf: seq<char>, table: map<string, PrimitiveType>, p: nat)
    requires p < |buf| && (IsAlpha(buf[p]) || buf[p] == '_')
    ensures Scan(buf, table, p) == Identifier(buf, table, p)
  {
  }

  /** The run `LexIdentifier` consumes ends where the identifier characters do. */
  lemma IdentifierRunEnd(buf: seq<char>, p: nat, j: nat)
    requires p < j <= |buf|
    requires AllInRange(buf, p + 1, j, IdentifierChars)
    requires j == |buf| || !IsIdentifierChar(buf[j])
    ensures p + 1 + Span(buf, p + 1, IdentifierChars) == j
  {
    SpanUnique(buf, p + 1, j, IdentifierChars);
  }

  /** `LexIdentifier` consumes the maximal identifier run `buf[p..j]`; a
      following `:` makes it a name (the mark consumed, not part of the text). */
  lemma IdentifierRunName(buf: seq<char>, table: map<string, PrimitiveType>, p: nat, j: nat)
    requires p < j < |buf| && buf[j] == ':'
    requires AllInRange(buf, p + 1, j, IdentifierChars)
    ensures Identifier(buf, table, p) == Step(Tok(Name), p, j + 1, StrVal(buf[p..j]))
  {
    IdentifierRunEnd(buf, p, j);
  }

  /** A following `=` makes the run an attribute name. */
  lemma IdentifierRunAttributeName(buf: seq<char>, table: map<string, PrimitiveType>, p: nat, j: nat)
    requires p < j < |buf| && buf[j] == '='
    requires AllInRange(buf, p + 1, j, IdentifierChars)
    ensures Identifier(buf, table, p) == Step(Tok(AttributeName), p, j + 1, StrVal(buf[p..j]))
  {
    IdentifierRunEnd(buf, p, j);
  }

  /** Otherwise the run `buf[p..j]` is classified. */
  lemma IdentifierRunClassified(buf: seq<char>, table: map<string, PrimitiveType>, p: nat, j: nat)
    requires p < j <= |buf|
    requires AllInRange(buf, p + 1, j, IdentifierChars)
    requires j == |buf| || (!IsIdentifierChar(buf[j]) && buf[j] != ':' && buf[j] != '=')
    ensures Identifier(buf, table, p) == ClassifyWord(buf, table, p, j)
  {
    IdentifierRunEnd(buf, p, j);
  }

  /** The classification order: a primitive type other than `TUPLE`, then
      `nan`, then the keywords, then a plain identifier that keeps its text. */
  lemma ClassifyWordOrder(buf: seq<char>, table: map<string, PrimitiveType>, p: nat, q: nat)
    requires p < q <= |buf|
    ensures var r := ClassifyWord(buf, table, p, q);
      var id := buf[p..q];
      && (r.outcome == Tok(PrimitiveType) <==> id in table && table[id] != Tuple)
      && (r.outcome == Tok(PrimitiveType) ==> r.payload == PrimVal(table[id]))
      && (r.outcome == Raised(NanHelperUndefined) <==> !(id in table && table[id] != Tuple) && id == "nan")
      && (forall kw ::
            (r.outcome == Tok(Kw(kw)) <==> !(id in table && table[id] != Tuple) && KeywordSpelling(kw) == id))
      && (r.outcome == Tok(Ident) <==>
            !(id in table && table[id] != Tuple) && id != "nan" && forall kw :: KeywordSpelling(kw) != id)
      && (r.outcome == Tok(Ident) ==> r.payload == StrVal(id))
  {
    var id := buf[p..q];
    var r := ClassifyWord(buf, table, p, q);
    KeywordKindComplete(id);
    forall kw
      ensures r.outcome == Tok(Kw(kw)) <==> !(id in table && table[id] != Tuple) && KeywordSpelling(kw) == id
    {
      if !(id in table && table[id] != Tuple) && KeywordSpelling(kw) == id {
        KeywordRoundTrip(kw);
      }
    }
  }

  /** `TUPLE` is never reported as a primitive-type token. */
  lemma TupleIsNotAPrimitiveTypeToken(buf: seq<char>, table: map<string, PrimitiveType>, p: nat)
    requires p < |buf|
    ensures Identifier(buf, table, p).payload != PrimVal(Tuple)
    ensures Identifier(buf, table, p).outcome == Tok(PrimitiveType) ==>
      Identifier(buf, table, p).payload.PrimVal? && Identifier(buf, table, p).payload.p != Tuple
  {
  }

  /** The source's `LexIdentifier` raises whenever the identifier run ends the
      buffer or meets a `'\0'`, where the corrected one classifies the run. */
  lemma IdentifierSentinelDefect(buf: seq<char>, table: map<string, PrimitiveType>, p: nat, j: nat)
    requires p < j <= |buf|
    requires AllInRange(buf, p + 1, j, IdentifierChars)
    requires j == |buf| || buf[j] == '\0'
    ensures IdentifierAsWritten(buf, table, p) == Step(Raised(SentinelHasNoIsAlpha), p, j, NoPayload)
    ensures Identifier(buf, table, p) == ClassifyWord(buf, table, p, j)
  {
    IdentifierRunEnd(buf, p, j);
    IdentifierRunClassified(buf, table, p, j);
  }

  /** Anywhere else the source's `LexIdentifier` and the corrected one agree,
      so the source raises exactly at the end of the buffer and at `'\0'`. */
  lemma IdentifierAsWrittenElsewhere(buf: seq<char>, table: map<string, PrimitiveType>, p: nat, j: nat)
    requires p < j < |buf| && buf[j] != '\0' && !IsIdentifierChar(buf[j])
    requires AllInRange(buf, p + 1, j, IdentifierChars)
    ensures IdentifierAsWritten(buf, table, p) == Identifier(buf, table, p)
    ensures IdentifierAsWritten(buf, table, p).outcome != Raised(SentinelHasNoIsAlpha)
  {
    IdentifierRunEnd(buf, p, j);
  }

  /** The smallest witness: a module header whose name ends the text. */
  lemma IdentifierAtEndExample()
    ensures IdentifierAsWritten("ROOT", map[], 0) == Step(Raised(SentinelHasNoIsAlpha), 0, 4, NoPayload)
    ensures Identifier("ROOT", map[], 0) == Bare(Kw(KwRoot), 0, 4)
  {
    var b := "ROOT";
    assert AllInRange(b, 1, 4, IdentifierChars) by {
      assert IsIdentifierChar(b[3]) && IsIdentifierChar(b[2]) && IsIdentifierChar(b[1]);
    }
    SpanUnique(b, 1, 4, IdentifierChars);
    assert b[0..4] == "ROOT";
    KeywordRoundTrip(KwRoot);
  }

  // ---------------------------------------------------------------------
  // `%` names and strings
  // ---------------------------------------------------------------------

  /** `%` followed by a maximal name `buf[p+1..p+1+k]` is a name token whose
      text is the name without the `%`. */
  lemma PercentName(buf: seq<char>, p: nat, k: nat)
    requires p < |buf| && NameAt(buf[p + 1..], k)
    requires p + 1 + k == |buf| || !IsNameChar(buf[p + 1 + k])
    ensures Percent(buf, p) == Step(Tok(Name), p, p + 1 + k, StrVal(buf[p + 1..p + 1 + k]))
  {
    var s := buf[p + 1..];
    assert k == |s| || !InClass(NameChars, s[k]);
    SpanUnique(s, 1, k, NameChars);
  }

  /** `%` is an error exactly when no name follows it; the cursor is then
      one past the `%`. */
  lemma PercentError(buf: seq<char>, p: nat)
    requires p < |buf|
    ensures Percent(buf, p).outcome == Tok(Error) <==> forall k: nat :: !InLanguage(NamePattern, buf[p..][1..], k)
    ensures Percent(buf, p).outcome == Tok(Error) ==> Percent(buf, p).cursor == p + 1
  {
    var s := buf[p..][1..];
    assert s == buf[p + 1..];
    if Match(NamePattern, s).Some? {
      MatchSound(NamePattern, s);
    } else {
      forall k: nat ensures !InLanguage(NamePattern, s, k) {
        if InLanguage(NamePattern, s, k) { MatchIsLongest(NamePattern, s, k); }
      }
    }
  }

  /** A complete literal `buf[p..p+k]` is a string token whose text is what
      lies between the quotes, escapes kept as written. */
  lemma StringLiteral(buf: seq<char>, p: nat, k: nat)
    requires p < |buf| && StringLiteralAt(buf[p..], k)
    ensures StringToken(buf, p) == Step(Tok(String), p, p + k, StrVal(buf[p + 1..p + k - 1]))
  {
    StringMatchExact(buf[p..], k);
  }

  /** A quote that starts no complete literal is an error one past the quote. */
  lemma StringUnterminated(buf: seq<char>, p: nat)
    requires p < |buf|
    ensures StringToken(buf, p).outcome == Tok(Error) <==> forall k: nat :: !InLanguage(EscapingPattern, buf[p..], k)
    ensures StringToken(buf, p).outcome == Tok(Error) ==> StringToken(buf, p).cursor == p + 1
  {
    var s := buf[p..];
    if Match(EscapingPattern, s).Some? {
      MatchSound(EscapingPattern, s);
    } else {
      forall k: nat ensures !InLanguage(EscapingPattern, s, k) {
        if InLanguage(EscapingPattern, s, k) { MatchIsLongest(EscapingPattern, s, k); }
      }
    }
  }
}
