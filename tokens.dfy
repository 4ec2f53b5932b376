/** Token kinds, primitive types and the lexer's token state. */
module Tokens {
  import opened Wrappers

  /** `TokKind`: markers, tokens without payload, keywords and typed tokens. */
  datatype TokKind =
    | Eof | Error
    | Equal | Comma | Colon | Asterisk | Lsquare | Rsquare | Lbrace | Rbrace | Lparen | Rparen
    | Dots | Arrow | Leq
    | Kw(keyword: Keyword) | NegInf
    | PrimitiveType | Name | AttributeName | DimLabels | DxD | Pad | Ident | String | Int | Decimal

  /** The keyword kinds. */
  datatype Keyword =
    | KwHloModule | KwEntry | KwRoot | KwTrue | KwFalse | KwMaximal | KwReplicated | KwManual
    | KwLastTileDimReplicate | KwInf

  /** The text of each keyword. */
  function KeywordSpelling(kw: Keyword): string
  {
    match kw
    case KwHloModule => "HloModule"
    case KwEntry => "ENTRY"
    case KwRoot => "ROOT"
    case KwTrue => "true"
    case KwFalse => "false"
    case KwMaximal => "maximal"
    case KwReplicated => "replicated"
    case KwManual => "manual"
    case KwLastTileDimReplicate => "last_tile_dim_replicate"
    case KwInf => "inf"
  }

  /** The enum value the source gives a kind: its fixed spelling, if it has one. */
  function Spelling(k: TokKind): Option<string>
  {
    match k
    case Equal => Some("=")
    case Comma => Some(",")
    case Colon => Some(":")
    case Asterisk => Some("*")
    case Lsquare => Some("[")
    case Rsquare => Some("]")
    case Lbrace => Some("{")
    case Rbrace => Some("}")
    case Lparen => Some("(")
    case Rparen => Some(")")
    case Dots => Some("...")
    case Arrow => Some("->")
    case Leq => Some("<=")
    case Kw(kw) => Some(KeywordSpelling(kw))
    case NegInf => Some("-inf")
    case _ => None
  }

  /** The keyword kinds, in the order `LexIdentifier` compares them. */
  const Keywords: seq<Keyword> :=
    [KwTrue, KwFalse, KwInf, KwHloModule, KwEntry, KwRoot, KwMaximal, KwReplicated, KwManual,
     KwLastTileDimReplicate]

  /** The single-character punctuation kinds. */
  predicate IsPunctuation(k: TokKind)
  {
    k in {Equal, Comma, Colon, Asterisk, Lsquare, Rsquare, Lbrace, Rbrace, Lparen, Rparen}
  }

  /** The first keyword, from position `i` of `Keywords` on, spelled `id`. */
  function KeywordFrom(id: string, i: nat): Option<Keyword>
    requires i <= |Keywords|
    decreases |Keywords| - i, 1
  {
    if i == |Keywords| then None else KeywordAt(id, i)
  }

  /** One step of the scan: keyword `i` itself, or the scan from `i + 1`. */
  function KeywordAt(id: string, i: nat): Option<Keyword>
    requires i < |Keywords|
    decreases |Keywords| - i, 0
  {
    if KeywordSpelling(Keywords[i]) == id then Some(Keywords[i]) else KeywordFrom(id, i + 1)
  }

  /** The keyword spelled `id`, if any. */
  function KeywordKind(id: string): Option<Keyword>
  {
    KeywordFrom(id, 0)
  }

  /** The scan from `i` finds only a keyword spelled `id`. */
  lemma {:induction false} KeywordFromSound(id: string, i: nat)
    requires i <= |Keywords| && KeywordFrom(id, i).Some?
    ensures KeywordSpelling(KeywordFrom(id, i).value) == id
    decreases |Keywords| - i
  {
    if KeywordSpelling(Keywords[i]) != id {
      KeywordFromSound(id, i + 1);
    }
  }

  /** The scan from `i` finds nothing only when no keyword from `i` on is spelled `id`. */
  lemma {:induction false} KeywordFromNone(id: string, i: nat)
    requires i <= |Keywords| && KeywordFrom(id, i).None?
    ensures forall j :: i <= j < |Keywords| ==> KeywordSpelling(Keywords[j]) != id
    decreases |Keywords| - i
  {
    if i < |Keywords| {
      KeywordFromNone(id, i + 1);
    }
  }

  /** `Keywords` lists every keyword. */
  lemma KeywordListed(kw: Keyword)
    ensures exists j :: 0 <= j < |Keywords| && Keywords[j] == kw
  {
    match kw
    case KwTrue => assert Keywords[0] == kw;
    case KwFalse => assert Keywords[1] == kw;
    case KwInf => assert Keywords[2] == kw;
    case KwHloModule => assert Keywords[3] == kw;
    case KwEntry => assert Keywords[4] == kw;
    case KwRoot => assert Keywords[5] == kw;
    case KwMaximal => assert Keywords[6] == kw;
    case KwReplicated => assert Keywords[7] == kw;
    case KwManual => assert Keywords[8] == kw;
    case KwLastTileDimReplicate => assert Keywords[9] == kw;
  }

  /** `KeywordKind` finds a keyword exactly when some keyword is spelled
      `id`, and the keyword it finds is spelled `id`. */
  lemma KeywordKindComplete(id: string)
    ensures KeywordKind(id).Some? <==> exists kw :: KeywordSpelling(kw) == id
    ensures KeywordKind(id).Some? ==> KeywordSpelling(KeywordKind(id).value) == id
  {
    if KeywordKind(id).Some? {
      KeywordFromSound(id, 0);
    } else {
      KeywordFromNone(id, 0);
      forall kw ensures KeywordSpelling(kw) != id {
        KeywordListed(kw);
      }
    }
  }

  /** Every keyword is recognised from its own spelling. */
  lemma KeywordRoundTrip(kw: Keyword)
    ensures KeywordKind(KeywordSpelling(kw)) == Some(kw)
  {
    KeywordKindComplete(KeywordSpelling(kw));
    var r := KeywordKind(KeywordSpelling(kw));
    SpellingInjective(r.value, kw);
  }

  /** No two keywords share a spelling. */
  lemma SpellingInjective(a: Keyword, b: Keyword)
    requires KeywordSpelling(a) == KeywordSpelling(b)
    ensures a == b
  {
    var s := KeywordSpelling(a);
    assert |s| == |KeywordSpelling(b)| && s[0] == KeywordSpelling(b)[0];
  }

  /** `xd.PrimitiveType`: the invalid marker, `TUPLE`, and every other enum value by number. */
  datatype PrimitiveType = PrimitiveTypeInvalid | Tuple | OtherType(code: nat)

  /** `TokenState`, without the floating-point `decimal_val`. */
  datatype TokenState = TokenState(
    tokenStart: nat,
    currentKind: TokKind,
    strVal: string,
    int64Val: int,
    primitiveTypeVal: PrimitiveType)

  /** The dataclass defaults. */
  const InitialTokenState: TokenState := TokenState(0, Eof, "", 0, PrimitiveTypeInvalid)

  /** The token-state field a sub-lexer assigns, with the value assigned. */
  datatype Payload = NoPayload | StrVal(s: string) | IntVal(i: int) | PrimVal(p: PrimitiveType)

  /** `ts` with the payload field assigned. */
  function WithPayload(ts: TokenState, v: Payload): (r: TokenState)
    ensures r.tokenStart == ts.tokenStart && r.currentKind == ts.currentKind
    ensures v.NoPayload? ==> r == ts
    ensures v.StrVal? ==> r.strVal == v.s && r == ts.(strVal := v.s)
    ensures v.IntVal? ==> r.int64Val == v.i && r == ts.(int64Val := v.i)
    ensures v.PrimVal? ==> r.primitiveTypeVal == v.p && r == ts.(primitiveTypeVal := v.p)
  {
    match v
    case NoPayload => ts
    case StrVal(s) => ts.(strVal := s)
    case IntVal(i) => ts.(int64Val := i)
    case PrimVal(p) => ts.(primitiveTypeVal := p)
  }
}
