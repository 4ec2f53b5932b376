/** Character classes of the HLO lexer.
    Python's `str.isalpha`, `str.isnumeric` and the regex class `\d` accept
    Unicode letters and digits; this model restricts all of them to ASCII. */
module Chars {
  predicate IsDigit(c: char) { '0' <= c <= '9' }

  predicate IsAlpha(c: char) { 'a' <= c <= 'z' || 'A' <= c <= 'Z' }

  /** The four characters `LexToken` skips between tokens. */
  predicate IsSpace(c: char) { c == ' ' || c == '\t' || c == '\n' || c == '\r' }

  /** `IsIdentifierChar` on a real character: letters, digits, `.`, `_` and `-`. */
  predicate IsIdentifierChar(c: char) { IsAlpha(c) || IsDigit(c) || c == '.' || c == '_' || c == '-' }

  /** The continuation class `[a-zA-Z0-9_.-]` of the `%`-name pattern. */
  predicate IsNameChar(c: char) { IsAlpha(c) || IsDigit(c) || c == '_' || c == '.' || c == '-' }

  /** The character classes that the lexer's loops and patterns repeat. */
  datatype CharClass = Digits | BatchFeature | InOut | NameChars | IdentifierChars

  /** `[0-9]`, `[0-9bf]`, `[0-9io]`, `[a-zA-Z0-9_.-]` and identifier characters. */
  predicate InClass(p: CharClass, c: char)
  {
    match p
    case Digits => IsDigit(c)
    case BatchFeature => IsDigit(c) || c == 'b' || c == 'f'
    case InOut => IsDigit(c) || c == 'i' || c == 'o'
    case NameChars => IsNameChar(c)
    case IdentifierChars => IsIdentifierChar(c)
  }

  /** Every position of `s` in `[lo, hi)` holds a character of class `p`. */
  predicate AllInRange(s: seq<char>, lo: nat, hi: nat, p: CharClass)
    decreases hi - lo
  {
    lo >= hi || (lo < |s| && InClass(p, s[lo]) && AllInRange(s, lo + 1, hi, p))
  }

  lemma {:induction false} AllInRangeAt(s: seq<char>, lo: nat, hi: nat, p: CharClass, q: nat)
    requires AllInRange(s, lo, hi, p) && lo <= q < hi
    ensures q < |s| && InClass(p, s[q])
    decreases hi - lo
  {
    if lo < q { AllInRangeAt(s, lo + 1, hi, p, q); }
  }

  /** Length of the maximal run of characters of class `p` that starts at `i`
      (what a greedy `[class]*` consumes). */
  function Span(s: seq<char>, i: nat, p: CharClass): (n: nat)
    requires i <= |s|
    ensures i + n <= |s|
    ensures i + n == |s| || !InClass(p, s[i + n])
    decreases |s| - i
  {
    if i < |s| && InClass(p, s[i]) then 1 + Span(s, i + 1, p) else 0
  }

  /** Every character of the maximal run is of class `p`. */
  lemma {:induction false} SpanInClass(s: seq<char>, i: nat, p: CharClass)
    requires i <= |s|
    ensures AllInRange(s, i, i + Span(s, i, p), p)
    decreases |s| - i
  {
    if i < |s| && InClass(p, s[i]) { SpanInClass(s, i + 1, p); }
  }

  /** A run that ends where `p` fails is the maximal run. */
  lemma {:induction false} SpanUnique(s: seq<char>, i: nat, j: nat, p: CharClass)
    requires i <= j <= |s|
    requires AllInRange(s, i, j, p)
    requires j == |s| || !InClass(p, s[j])
    ensures Span(s, i, p) == j - i
    decreases j - i
  {
    if i < j { SpanUnique(s, i + 1, j, p); }
  }

  /** Any run of `p` characters lies inside the maximal run. */
  lemma {:induction false} SpanCovers(s: seq<char>, i: nat, j: nat, p: CharClass)
    requires i <= j <= |s|
    requires AllInRange(s, i, j, p)
    ensures j <= i + Span(s, i, p)
    decreases j - i
  {
    if i < j { SpanCovers(s, i + 1, j, p); }
  }
}
