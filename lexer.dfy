/** `HloLexer`: the cursor, the token state and the line-number cache over
    one fixed buffer. Every method is proved to do what the functions of
    `LexerSpec` and `Location` describe. */
module Lexer {
  import opened Wrappers
  import opened Chars
  import opened Patterns
  import opened Tokens
  import opened LexerSpec
  import opened Location
  import BufferPointers

  /** The token state after a step: the token start and the payload field. */
  function Record(ts: TokenState, r: Step): TokenState
  {
    WithPayload(ts.(tokenStart := r.start), r.payload)
  }

  /** The token state after `Lex`: also the kind, unless the step raised. */
  function Committed(ts: TokenState, r: Step): TokenState
  {
    var t := Record(ts, r);
    if r.outcome.Tok? then t.(currentKind := r.outcome.kind) else t
  }

  class HloLexer {
    const buf: seq<char>
    /** The primitive-type names and their enum values. */
    const primitiveTypes: map<string, PrimitiveType>
    /** `current_ptr_`, as an offset into `buf`. */
    var cur: nat
    var tokenState: TokenState
    var lineNoCache: LineNoCache

    ghost predicate Valid()
      reads this
    {
      tokenState.tokenStart <= cur <= |buf| && CacheConsistent(buf, lineNoCache)
    }

    constructor(input: seq<char>, table: map<string, PrimitiveType>)
      ensures buf == input && primitiveTypes == table
      ensures cur == 0 && tokenState == InitialTokenState && lineNoCache == EmptyCache
      ensures Valid()
    {
      buf := input;
      primitiveTypes := table;
      cur := 0;
      tokenState := InitialTokenState;
      lineNoCache := EmptyCache;
    }

    method PeekCurrentChar() returns (c: Peeked)
      requires cur <= |buf|
      ensures c == PeekAt(buf, cur)
    {
      if cur == |buf| {
        c := EofChar;
      } else if buf[cur] == '\0' {
        c := ErrorChar;
      } else {
        c := Ch(buf[cur]);
      }
    }

    /** Returns what `PeekCurrentChar` sees and steps over it if it is a character. */
    method GetNextChar() returns (c: Peeked)
      requires cur <= |buf|
      modifies this`cur
      ensures c == PeekAt(buf, old(cur))
      ensures cur == old(cur) + (if c.Ch? then 1 else 0)
    {
      c := PeekCurrentChar();
      if c.Ch? {
        cur := cur + 1;
      }
    }

    /** Anchored match of `pattern` at `from`: the matched text and the
        position just past it, or no match and `from` unchanged. */
    method Consume(from: nat, pattern: Pattern) returns (matched: Option<string>, next: nat)
      requires from <= |buf|
      ensures Match(pattern, buf[from..]).None? ==> matched.None? && next == from
      ensures Match(pattern, buf[from..]).Some? ==>
        next == from + Match(pattern, buf[from..]).value <= |buf| && matched == Some(buf[from..next])
    {
      var m := Match(pattern, buf[from..]);
      if m.Some? {
        next := from + m.value;
        matched := Some(buf[from..next]);
      } else {
        matched, next := None, from;
      }
    }

    /** Lexes the next token and records its kind. */
    method Lex() returns (o: Outcome)
      requires Valid()
      modifies this`cur, this`tokenState
      ensures Valid()
      ensures old(cur) <= tokenState.tokenStart <= cur <= |buf|
      ensures var r := Scan(buf, primitiveTypes, old(cur));
        o == r.outcome && cur == r.cursor && tokenState == Committed(old(tokenState), r)
    {
      o := LexToken();
      if o.Tok? {
        tokenState := tokenState.(currentKind := o.kind);
      }
    }

    /** Turns of the lexing loop until one produces a token (or raises). */
    method LexToken() returns (o: Outcome)
      requires cur <= |buf|
      modifies this`cur, this`tokenState
      ensures var r := Scan(buf, primitiveTypes, old(cur));
        o == r.outcome && cur == r.cursor && tokenState == Record(old(tokenState), r)
    {
      while true
        invariant cur <= |buf|
        invariant Scan(buf, primitiveTypes, cur) == Scan(buf, primitiveTypes, old(cur))
        invariant tokenState == old(tokenState).(tokenStart := tokenState.tokenStart)
        decreases |buf| - cur
      {
        var emitted := LexTurn();
        if emitted.Some? {
          return emitted.value;
        }
      }
    }

    /** One turn of the `LexToken` loop from the cursor: marks the token
        start, then either skips (whitespace, a closed comment) or produces
        the outcome of the token there. */
    method LexTurn() returns (emitted: Option<Outcome>)
      requires cur <= |buf|
      modifies this`cur, this`tokenState
      ensures var d := Dispatch(buf, primitiveTypes, old(cur));
        && (d.Skip? ==> emitted.None? && cur == d.next && tokenState == old(tokenState).(tokenStart := old(cur)))
        && (d.Emit? ==> emitted == Some(d.step.outcome) && cur == d.step.cursor && tokenState == Record(old(tokenState), d.step))
    {
      tokenState := tokenState.(tokenStart := cur);
      var p := cur;
      var c := GetNextChar();
      if c == EofChar {
        return Some(Tok(Eof));
      } else if c == ErrorChar {
        return Some(Tok(Error));
      }
      var ch := c.c;
      if IsSpace(ch) {
        return None;
      } else if IsDigit(ch) || ch == '-' {
        var n := PeekCurrentChar();
        if ch == '-' && n == Ch('>') {
          cur := cur + 1;
          return Some(Tok(Arrow));
        }
        var o := LexNumberOrPattern();
        return Some(o);
      } else if ch == '<' {
        var n := PeekCurrentChar();
        if n == Ch('=') {
          cur := cur + 1;
          return Some(Tok(Leq));
        }
        return Some(Tok(Error));
      } else if ch == '%' {
        var o := LexPercent();
        return Some(o);
      } else if PunctuationKind(ch).Some? {
        return Some(Tok(PunctuationKind(ch).value));
      } else if ch == '/' {
        var n := PeekCurrentChar();
        if n == Ch('*') {
          var r := SkipBlockComment(p);
          if r.Some? {
            return Some(r.value);
          }
          return None;
        } else if n == Ch('/') {
          var r := SkipLineComment(p);
          if r.Some? {
            return Some(r.value);
          }
          return None;
        }
        return Some(Tok(Error));
      } else if ch == '.' {
        var n := PeekCurrentChar();
        if n == Ch('.') {
          cur := cur + 1;
          var n2 := PeekCurrentChar();
          if n2 == Ch('.') {
            cur := cur + 1;
            return Some(Tok(Dots));
          }
        }
        return Some(Tok(Error));
      } else if ch == '"' {
        var o := LexString();
        return Some(o);
      } else if IsAlpha(ch) || ch == '_' {
        var o := LexIdentifier();
        return Some(o);
      }
      return Some(Tok(Error));
    }

    /** The block-comment loop, entered with the cursor on the star; returns
        the error it stops with, or nothing when the comment closed. */
    method SkipBlockComment(ghost p: nat) returns (err: Option<Outcome>)
      requires p + 2 <= |buf| && buf[p] == '/' && buf[p + 1] == '*' && cur == p + 1
      modifies this`cur
      ensures var e := BlockCommentEnd(buf, p + 2);
        && (e.Closed? ==> err.None? && cur == e.next)
        && (e.Unterminated? ==> err == Some(Tok(Error)) && cur == p + 1)
        && (e.NulAt? ==> err == Some(Tok(Error)) && cur == e.at)
    {
      var commentStart := cur;
      cur := cur + 1;
      while true
        invariant p + 2 <= cur <= |buf|
        invariant BlockCommentEnd(buf, cur) == BlockCommentEnd(buf, p + 2)
        decreases |buf| - cur
      {
        var current := GetNextChar();
        if current == Ch('*') {
          var n := PeekCurrentChar();
          if n == Ch('/') {
            cur := cur + 1;
            return None;
          }
        }
        if current == EofChar {
          cur := commentStart;
          return Some(Tok(Error));
        }
        if current == ErrorChar {
          return Some(Tok(Error));
        }
      }
    }

    /** The line-comment loop, entered with the cursor on the second slash; stops
        before a line end or the end, or with an error at a `'\0'`. */
    method SkipLineComment(ghost p: nat) returns (err: Option<Outcome>)
      requires p + 2 <= |buf| && buf[p] == '/' && buf[p + 1] == '/' && cur == p + 1
      modifies this`cur
      ensures var e := LineCommentEnd(buf, p + 1);
        && (e.Closed? ==> err.None? && cur == e.next)
        && (e.NulAt? ==> err == Some(Tok(Error)) && cur == e.at)
    {
      while true
        invariant p + 1 <= cur <= |buf|
        invariant LineCommentEnd(buf, cur) == LineCommentEnd(buf, p + 1)
        decreases |buf| - cur
      {
        var current := PeekCurrentChar();
        if current == EofChar || current == Ch('\n') || current == Ch('\r') {
          return None;
        }
        if current == ErrorChar {
          return Some(Tok(Error));
        }
        cur := cur + 1;
      }
    }

    /** Tries the numeric patterns in order from the token start. */
    method LexNumberOrPattern() returns (o: Outcome)
      requires tokenState.tokenStart < |buf| && cur == tokenState.tokenStart + 1
      modifies this`cur, this`tokenState
      ensures var r := NumberOrPattern(buf, old(tokenState.tokenStart));
        o == r.outcome && cur == r.cursor && tokenState == Record(old(tokenState), r)
    {
      var p := tokenState.tokenStart;
      var s, next := Consume(p, NumberPatterns[0]);
      if s.Some? {
        cur := next;
        return Tok(Decimal);
      }
      s, next := Consume(p, NumberPatterns[1]);
      if s.Some? {
        FirstMatchPass(buf[p..], 0);
        cur := next;
        tokenState := tokenState.(strVal := s.value);
        return Tok(DimLabels);
      }
      FirstMatchPass(buf[p..], 0);
      FirstMatchPass(buf[p..], 1);
      o := LexDxD();
    }

    /** The dxd pattern of `LexNumberOrPattern`, then the later ones. */
    method LexDxD() returns (o: Outcome)
      requires tokenState.tokenStart < |buf| && cur == tokenState.tokenStart + 1
      modifies this`cur, this`tokenState
      ensures var r := NumberFrom(buf, old(tokenState.tokenStart), 2);
        o == r.outcome && cur == r.cursor && tokenState == Record(old(tokenState), r)
    {
      var p := tokenState.tokenStart;
      var s, next := Consume(p, NumberPatterns[2]);
      if s.Some? {
        cur := next;
        tokenState := tokenState.(strVal := s.value);
        return Tok(DxD);
      }
      FirstMatchPass(buf[p..], 2);
      o := LexPad();
    }

    /** The pad pattern of `LexNumberOrPattern`, then the later ones. */
    method LexPad() returns (o: Outcome)
      requires tokenState.tokenStart < |buf| && cur == tokenState.tokenStart + 1
      modifies this`cur, this`tokenState
      ensures var r := NumberFrom(buf, old(tokenState.tokenStart), 3);
        o == r.outcome && cur == r.cursor && tokenState == Record(old(tokenState), r)
    {
      var p := tokenState.tokenStart;
      var s, next := Consume(p, NumberPatterns[3]);
      if s.Some? {
        cur := next;
        tokenState := tokenState.(strVal := s.value);
        return Tok(Pad);
      }
      FirstMatchPass(buf[p..], 3);
      o := LexSignedNumber();
    }

    /** The integer, `-inf` and `-nan` patterns of `LexNumberOrPattern`. */
    method LexSignedNumber() returns (o: Outcome)
      requires tokenState.tokenStart < |buf| && cur == tokenState.tokenStart + 1
      modifies this`cur, this`tokenState
      ensures var r := NumberFrom(buf, old(tokenState.tokenStart), 4);
        o == r.outcome && cur == r.cursor && tokenState == Record(old(tokenState), r)
    {
      var p := tokenState.tokenStart;
      var s, next := Consume(p, NumberPatterns[4]);
      if s.Some? {
        cur := next;
        tokenState := tokenState.(int64Val := IntValue(s.value));
        return Tok(Int);
      }
      s, next := Consume(p, NumberPatterns[5]);
      if s.Some? {
        FirstMatchPass(buf[p..], 4);
        cur := next;
        return Tok(NegInf);
      }
      s, next := Consume(p, NumberPatterns[6]);
      if s.Some? {
        FirstMatchPass(buf[p..], 4);
        FirstMatchPass(buf[p..], 5);
        cur := next;
        return Raised(NanHelperUndefined);
      }
      FirstMatchPass(buf[p..], 4);
      FirstMatchPass(buf[p..], 5);
      FirstMatchPass(buf[p..], 6);
      return Tok(Error);
    }

    /** Consumes the identifier run from the token start and classifies it;
        a run that ends the buffer or meets a `'\0'` simply ends there. */
    method LexIdentifier() returns (o: Outcome)
      requires tokenState.tokenStart < |buf| && cur == tokenState.tokenStart + 1
      modifies this`cur, this`tokenState
      ensures var r := Identifier(buf, primitiveTypes, old(tokenState.tokenStart));
        o == r.outcome && cur == r.cursor && tokenState == Record(old(tokenState), r)
    {
      var p := tokenState.tokenStart;
      SkipIdentifierChars();
      var c := PeekCurrentChar();
      if c == Ch(':') {
        tokenState := tokenState.(strVal := buf[p..cur]);
        cur := cur + 1;
        return Tok(Name);
      }
      if c == Ch('=') {
        tokenState := tokenState.(strVal := buf[p..cur]);
        cur := cur + 1;
        return Tok(AttributeName);
      }
      o := ClassifyIdentifier();
    }

    /** Steps over the run of identifier characters at the cursor. */
    method SkipIdentifierChars()
      requires cur <= |buf|
      modifies this`cur
      ensures cur == old(cur) + Span(buf, old(cur), IdentifierChars)
    {
      var c := PeekCurrentChar();
      while c.Ch? && IsIdentifierChar(c.c)
        invariant old(cur) <= cur <= |buf| && c == PeekAt(buf, cur)
        invariant old(cur) + Span(buf, old(cur), IdentifierChars) == cur + Span(buf, cur, IdentifierChars)
        decreases |buf| - cur
      {
        cur := cur + 1;
        c := PeekCurrentChar();
      }
      assert Span(buf, cur, IdentifierChars) == 0;
    }

    /** The identifier `buf[tokenStart..cur]`, not followed by `:` or `=`:
        a primitive type, `nan`, a keyword in list order, or a plain identifier. */
    method ClassifyIdentifier() returns (o: Outcome)
      requires tokenState.tokenStart < cur <= |buf|
      modifies this`tokenState
      ensures var r := ClassifyWord(buf, primitiveTypes, old(tokenState.tokenStart), cur);
        o == r.outcome && tokenState == Record(old(tokenState), r)
    {
      var identifier := BufferPointers.StringPiece(buf, BufferPointers.At(tokenState.tokenStart), BufferPointers.At(cur));
      BufferPointers.AtPieces(buf, tokenState.tokenStart, cur);
      if identifier in primitiveTypes {
        var primitiveType := primitiveTypes[identifier];
        if primitiveType != Tuple {
          tokenState := tokenState.(primitiveTypeVal := primitiveType);
          return Tok(PrimitiveType);
        }
      }
      if identifier == "nan" {
        return Raised(NanHelperUndefined);
      }
      var keyword := LookupKeyword(identifier);
      if keyword.Some? {
        return Tok(Kw(keyword.value));
      }
      tokenState := tokenState.(strVal := identifier);
      return Tok(Ident);
    }

    /** The scan of the keyword list, in order, for the identifier's spelling. */
    static method LookupKeyword(identifier: string) returns (k: Option<Keyword>)
      ensures k == KeywordKind(identifier)
      ensures k.Some? <==> exists kw :: KeywordSpelling(kw) == identifier
    {
      KeywordKindComplete(identifier);
      var i := 0;
      while i < |Keywords|
        invariant i <= |Keywords|
        invariant KeywordFrom(identifier, i) == KeywordKind(identifier)
      {
        if KeywordSpelling(Keywords[i]) == identifier {
          return Some(Keywords[i]);
        }
        i := i + 1;
      }
      return None;
    }

    /** A `name_pattern` match right after the `%`. */
    method LexPercent() returns (o: Outcome)
      requires tokenState.tokenStart < |buf| && cur == tokenState.tokenStart + 1
      modifies this`cur, this`tokenState
      ensures var r := Percent(buf, old(tokenState.tokenStart));
        o == r.outcome && cur == r.cursor && tokenState == Record(old(tokenState), r)
    {
      var s, next := Consume(cur, NamePattern);
      if s.Some? {
        cur := next;
        tokenState := tokenState.(strVal := s.value);
        return Tok(Name);
      }
      return Tok(Error);
    }

    /** An `escaping_pattern` match from the opening quote; `CUnescape` is
        the identity, so the text between the quotes is kept as written. */
    method LexString() returns (o: Outcome)
      requires tokenState.tokenStart < |buf| && cur == tokenState.tokenStart + 1
      modifies this`cur, this`tokenState
      ensures var r := StringToken(buf, old(tokenState.tokenStart));
        o == r.outcome && cur == r.cursor && tokenState == Record(old(tokenState), r)
    {
      var p := tokenState.tokenStart;
      var s, next := Consume(p, EscapingPattern);
      if s.Some? {
        cur := next;
        var raw := BufferPointers.StringPiece(buf, BufferPointers.At(p + 1), BufferPointers.At(cur - 1));
        BufferPointers.AtPieces(buf, p + 1, cur - 1);
        tokenState := tokenState.(strVal := raw);
        return Tok(String);
      }
      return Tok(Error);
    }

    /** Line and column of `loc`, walking from the cached location when it
        lies inside the buffer and not after `loc`; the answer does not
        depend on the cache, and the cache is left at `loc`. */
    method GetLineAndColumn(loc: nat) returns (line: int, column: int)
      requires Valid() && loc <= |buf|
      modifies this`lineNoCache
      ensures Valid()
      ensures (line, column) == LineAndColumn(buf, loc)
      ensures lineNoCache == LineNoCache(Some(loc), line)
    {
      var lineNo := 1;
      var ptr := 0;
      if lineNoCache.lastQuery.Some? && CanDereference(buf, lineNoCache.lastQuery.value)
         && lineNoCache.lastQuery.value <= loc {
        ptr := lineNoCache.lastQuery.value;
        lineNo := lineNoCache.lineNoOfQuery;
      }
      while ptr != loc
        invariant ptr <= loc
        invariant lineNo == 1 + CountNewlines(buf[..ptr])
        decreases loc - ptr
      {
        assert buf[..ptr + 1][..ptr] == buf[..ptr];
        if buf[ptr] == '\n' {
          lineNo := lineNo + 1;
        }
        ptr := ptr + 1;
      }
      lineNoCache := LineNoCache(Some(ptr), lineNo);
      var lineOffset := RFind(buf[..ptr], '\n');
      if lineOffset < 0 {
        lineOffset := 0;
      }
      return lineNo, ptr - lineOffset;
    }

    /** The kind the next `Lex` would return, with the cursor and the token
        state left as they were; after `kEof` or `kError` that kind itself,
        without scanning. */
    method LookAhead() returns (o: Outcome)
      requires Valid()
      modifies this`cur, this`tokenState
      ensures Valid()
      ensures cur == old(cur) && tokenState == old(tokenState)
      ensures old(tokenState.currentKind) == Eof || old(tokenState.currentKind) == Error ==>
        o == Tok(old(tokenState.currentKind))
      ensures old(tokenState.currentKind) != Eof && old(tokenState.currentKind) != Error ==>
        o == Scan(buf, primitiveTypes, old(cur)).outcome
    {
      if tokenState.currentKind == Eof || tokenState.currentKind == Error {
        return Tok(tokenState.currentKind);
      }
      var oldCurrentPtr := cur;
      var oldCurrentState := tokenState;
      o := Lex();
      tokenState := oldCurrentState;
      cur := oldCurrentPtr;
    }
  }
}
