/** Hand-written recognisers for the regular expressions of the HLO lexer
    (hlo_lexer.py:448-454, 510, 518).

    Each recogniser is applied the way `re.match` applies a pattern: anchored
    at the start of the text, greedy, alternatives tried left to right. For
    every pattern here the first match that Python's backtracking finds is
    also the LONGEST prefix of the text that belongs to the pattern's
    language. So each recogniser is specified against an independent,
    declarative description of that language (the `...At` predicates, which
    say that the characters `s[i..j]` spell a word of the language): what it
    returns is in the language (`...Sound` lemmas), and no longer prefix is
    (`...Longest` lemmas); with no match, no prefix at all is. */
module Patterns {
  import opened Wrappers
  import opened Chars

  /** `s[i..j]` is `[0-9]+`. */
  ghost predicate DigitsAt(s: seq<char>, i: nat, j: nat)
  {
    i < j <= |s| && AllInRange(s, i, j, Digits)
  }

  /** `1` when a greedy `[-]?` at `i` takes a minus sign. */
  function SignAt(s: seq<char>, i: nat): nat
  {
    if i < |s| && s[i] == '-' then 1 else 0
  }

  // ---------------------------------------------------------------------
  // int_pattern `[-]?\d+` (also the two signed parts of a pad dimension)
  // ---------------------------------------------------------------------

  /** `s[i..j]` is `[-]?[0-9]+`. */
  ghost predicate IntAt(s: seq<char>, i: nat, j: nat)
  {
    DigitsAt(s, i, j) || (i < |s| && s[i] == '-' && DigitsAt(s, i + 1, j))
  }

  /** End index of a greedy `[-]?[0-9]+` matched at `i`. */
  function SignedDigitsEnd(s: seq<char>, i: nat): (r: Option<nat>)
    requires i <= |s|
    ensures r.Some? ==> i < r.value <= |s|
  {
    var a := i + SignAt(s, i);
    var n := Span(s, a, Digits);
    if n >= 1 then Some(a + n) else None
  }

  lemma SignedDigitsSound(s: seq<char>, i: nat)
    requires i <= |s| && SignedDigitsEnd(s, i).Some?
    ensures IntAt(s, i, SignedDigitsEnd(s, i).value)
  {
    SpanInClass(s, i + SignAt(s, i), Digits);
  }

  lemma SignedDigitsLongest(s: seq<char>, i: nat, j: nat)
    requires IntAt(s, i, j)
    ensures SignedDigitsEnd(s, i).Some? && j <= SignedDigitsEnd(s, i).value
  {
    if SignAt(s, i) == 1 {
      assert !DigitsAt(s, i, j) by { assert !InClass(Digits, s[i]); }
      SpanCovers(s, i + 1, j, Digits);
    } else {
      SpanCovers(s, i, j, Digits);
    }
  }

  /** A signed integer followed by a non-digit is exactly the greedy match. */
  lemma IntStopsAt(s: seq<char>, i: nat, j: nat)
    requires IntAt(s, i, j) && (j == |s| || !IsDigit(s[j]))
    ensures SignedDigitsEnd(s, i) == Some(j)
  {
    if SignAt(s, i) == 1 {
      assert !DigitsAt(s, i, j) by { assert !InClass(Digits, s[i]); }
      SpanUnique(s, i + 1, j, Digits);
    } else {
      SpanUnique(s, i, j, Digits);
    }
  }

  function IntMatch(s: seq<char>): (r: Option<nat>)
    ensures r.Some? ==> 0 < r.value <= |s|
  {
    SignedDigitsEnd(s, 0)
  }

  // ---------------------------------------------------------------------
  // float_pattern
  //   [-]?((\d+|\d+[.]\d*|\d*[.]\d+)([eE][+-]?\d+)) | [-]?(\d+[.]\d*|\d*[.]\d+)
  // ---------------------------------------------------------------------

  /** `s[i..j]` is `[eE][+-]?[0-9]+`. */
  ghost predicate ExponentAt(s: seq<char>, i: nat, j: nat)
  {
    i + 2 <= j <= |s| && (s[i] == 'e' || s[i] == 'E') &&
    (DigitsAt(s, i + 1, j) || ((s[i + 1] == '+' || s[i + 1] == '-') && DigitsAt(s, i + 2, j)))
  }

  /** `s[i..j]` is digits, the dot at `d`, digits, with at least one digit. */
  ghost predicate FractionSplit(s: seq<char>, i: nat, j: nat, d: nat)
  {
    i <= d < j <= |s| && j - i >= 2 && s[d] == '.' &&
    AllInRange(s, i, d, Digits) && AllInRange(s, d + 1, j, Digits)
  }

  /** `s[i..j]` is `\d+[.]\d*|\d*[.]\d+`. */
  ghost predicate FractionAt(s: seq<char>, i: nat, j: nat)
  {
    exists d: nat :: FractionSplit(s, i, j, d)
  }

  /** `s[i..j]` is `(\d+|\d+[.]\d*|\d*[.]\d+)([eE][+-]?\d+)|(\d+[.]\d*|\d*[.]\d+)`. */
  ghost predicate UnsignedFloatAt(s: seq<char>, i: nat, j: nat)
  {
    exists m: nat :: UnsignedFloatSplit(s, i, j, m)
  }

  /** `s[i..j]` is a float whose exponent starts at `m`, or (`m == j`) a
      fraction without exponent. */
  ghost predicate UnsignedFloatSplit(s: seq<char>, i: nat, j: nat, m: nat)
  {
    (m == j && FractionAt(s, i, j)) ||
    (i < m < j && (DigitsAt(s, i, m) || FractionAt(s, i, m)) && ExponentAt(s, m, j))
  }

  /** `s[i..j]` is a word of `float_pattern`. */
  ghost predicate FloatAt(s: seq<char>, i: nat, j: nat)
  {
    UnsignedFloatAt(s, i, j) || (i < |s| && s[i] == '-' && UnsignedFloatAt(s, i + 1, j))
  }

  /** End index of a greedy `[eE][+-]?\d+` matched at `i`. */
  function ExponentEnd(s: seq<char>, i: nat): (r: Option<nat>)
    requires i <= |s|
    ensures r.Some? ==> i + 2 <= r.value <= |s| && (s[i] == 'e' || s[i] == 'E')
  {
    if i < |s| && (s[i] == 'e' || s[i] == 'E') then
      var sg := if i + 1 < |s| && (s[i + 1] == '+' || s[i + 1] == '-') then 1 else 0;
      var n := Span(s, i + 1 + sg, Digits);
      if n >= 1 then Some(i + 1 + sg + n) else None
    else None
  }

  lemma ExponentSound(s: seq<char>, i: nat)
    requires i <= |s| && ExponentEnd(s, i).Some?
    ensures ExponentAt(s, i, ExponentEnd(s, i).value)
  {
    var sg := if i + 1 < |s| && (s[i + 1] == '+' || s[i + 1] == '-') then 1 else 0;
    SpanInClass(s, i + 1 + sg, Digits);
  }

  lemma ExponentLongest(s: seq<char>, i: nat, j: nat)
    requires ExponentAt(s, i, j)
    ensures ExponentEnd(s, i).Some? && j <= ExponentEnd(s, i).value
  {
    if s[i + 1] == '+' || s[i + 1] == '-' {
      assert !DigitsAt(s, i + 1, j) by { assert !InClass(Digits, s[i + 1]); }
      SpanCovers(s, i + 2, j, Digits);
    } else {
      SpanCovers(s, i + 1, j, Digits);
    }
  }

  /** A fraction at `i` is the maximal digit run, its dot, then (part of) the
      maximal digit run after the dot; all of it when a non-digit follows. */
  lemma FractionShape(s: seq<char>, i: nat, j: nat)
    requires FractionAt(s, i, j)
    ensures var n := Span(s, i, Digits);
            i + n < j && s[i + n] == '.' &&
            j <= i + n + 1 + Span(s, i + n + 1, Digits) &&
            (n >= 1 || j >= i + n + 2) &&
            ((j == |s| || !IsDigit(s[j])) ==> j == i + n + 1 + Span(s, i + n + 1, Digits))
  {
    var d: nat :| FractionSplit(s, i, j, d);
    assert !InClass(Digits, s[d]);
    SpanUnique(s, i, d, Digits);
    SpanCovers(s, d + 1, j, Digits);
    if j == |s| || !IsDigit(s[j]) { SpanUnique(s, d + 1, j, Digits); }
  }

  /** A float starts with a digit or a dot. */
  lemma UnsignedFloatStart(s: seq<char>, i: nat, j: nat)
    requires UnsignedFloatAt(s, i, j)
    ensures i < |s| && (IsDigit(s[i]) || s[i] == '.')
  {
    var m: nat :| UnsignedFloatSplit(s, i, j, m);
    if FractionAt(s, i, m) {
      FractionShape(s, i, m);
    } else {
      assert InClass(Digits, s[i]);
    }
  }

  /** End index of the unsigned part of `float_pattern` matched at `i`. */
  function UnsignedFloatEnd(s: seq<char>, i: nat): (r: Option<nat>)
    requires i <= |s|
    ensures r.Some? ==> i < r.value <= |s|
  {
    var n := Span(s, i, Digits);
    if n >= 1 && ExponentEnd(s, i + n).Some? then
      ExponentEnd(s, i + n)
    else if i + n < |s| && s[i + n] == '.' then
      var m := Span(s, i + n + 1, Digits);
      var f := i + n + 1 + m;
      if n + m >= 1 then
        if ExponentEnd(s, f).Some? then ExponentEnd(s, f) else Some(f)
      else None
    else None
  }

  lemma FloatFromSplit(s: seq<char>, i: nat, j: nat, m: nat)
    requires UnsignedFloatSplit(s, i, j, m)
    ensures UnsignedFloatAt(s, i, j)
  {
  }

  /** The digits-then-exponent branch of `UnsignedFloatEnd` yields a float. */
  lemma DigitsExponentSound(s: seq<char>, i: nat, n: nat, r: nat)
    requires i + n <= |s| && n == Span(s, i, Digits) && n >= 1 && ExponentEnd(s, i + n) == Some(r)
    ensures UnsignedFloatAt(s, i, r)
  {
    SpanInClass(s, i, Digits);
    ExponentSound(s, i + n);
    assert DigitsAt(s, i, i + n);
    FloatFromSplit(s, i, r, i + n);
  }

  /** The dot branch of `UnsignedFloatEnd` yields a float. */
  lemma FractionEndSound(s: seq<char>, i: nat, n: nat, r: nat)
    requires i + n < |s| && n == Span(s, i, Digits) && s[i + n] == '.'
    requires var f := i + n + 1 + Span(s, i + n + 1, Digits);
             n + (f - i - n - 1) >= 1 &&
             r == (if ExponentEnd(s, f).Some? then ExponentEnd(s, f).value else f)
    ensures UnsignedFloatAt(s, i, r)
  {
    var f := i + n + 1 + Span(s, i + n + 1, Digits);
    SpanInClass(s, i, Digits);
    SpanInClass(s, i + n + 1, Digits);
    assert FractionSplit(s, i, f, i + n);
    if ExponentEnd(s, f).Some? {
      ExponentSound(s, f);
      FloatFromSplit(s, i, r, f);
    } else {
      FloatFromSplit(s, i, r, r);
    }
  }

  lemma UnsignedFloatSound(s: seq<char>, i: nat, r: nat)
    requires i <= |s| && UnsignedFloatEnd(s, i) == Some(r)
    ensures UnsignedFloatAt(s, i, r)
  {
    var n := Span(s, i, Digits);
    if n >= 1 && ExponentEnd(s, i + n).Some? {
      DigitsExponentSound(s, i, n, r);
    } else {
      FractionEndSound(s, i, n, r);
    }
  }

  lemma FractionLongest(s: seq<char>, i: nat, j: nat)
    requires FractionAt(s, i, j)
    ensures UnsignedFloatEnd(s, i).Some? && j <= UnsignedFloatEnd(s, i).value
  {
    FractionShape(s, i, j);
  }

  lemma DigitsExponentLongest(s: seq<char>, i: nat, m: nat, j: nat)
    requires DigitsAt(s, i, m) && ExponentAt(s, m, j)
    ensures UnsignedFloatEnd(s, i).Some? && j <= UnsignedFloatEnd(s, i).value
  {
    assert !InClass(Digits, s[m]);
    SpanUnique(s, i, m, Digits);
    ExponentLongest(s, m, j);
  }

  lemma FractionExponentLongest(s: seq<char>, i: nat, m: nat, j: nat)
    requires FractionAt(s, i, m) && ExponentAt(s, m, j)
    ensures UnsignedFloatEnd(s, i).Some? && j <= UnsignedFloatEnd(s, i).value
  {
    FractionShape(s, i, m);
    ExponentLongest(s, m, j);
  }

  lemma UnsignedFloatLongest(s: seq<char>, i: nat, j: nat)
    requires UnsignedFloatAt(s, i, j)
    ensures UnsignedFloatEnd(s, i).Some? && j <= UnsignedFloatEnd(s, i).value
  {
    var m: nat :| UnsignedFloatSplit(s, i, j, m);
    if m == j {
      FractionLongest(s, i, j);
    } else {
      if DigitsAt(s, i, m) {
        DigitsExponentLongest(s, i, m, j);
      } else {
        FractionExponentLongest(s, i, m, j);
      }
    }
  }

  function FloatMatch(s: seq<char>): (r: Option<nat>)
    ensures r.Some? ==> 0 < r.value <= |s|
  {
    UnsignedFloatEnd(s, SignAt(s, 0))
  }

  lemma FloatSound(s: seq<char>)
    requires FloatMatch(s).Some?
    ensures FloatAt(s, 0, FloatMatch(s).value)
  {
    UnsignedFloatSound(s, SignAt(s, 0), FloatMatch(s).value);
  }

  lemma FloatLongest(s: seq<char>, k: nat)
    requires FloatAt(s, 0, k)
    ensures FloatMatch(s).Some? && k <= FloatMatch(s).value
  {
    if UnsignedFloatAt(s, 0, k) {
      UnsignedFloatStart(s, 0, k);
      UnsignedFloatLongest(s, 0, k);
    } else {
      UnsignedFloatLongest(s, 1, k);
    }
  }

  // ---------------------------------------------------------------------
  // dim_labels_pattern `[0-9bf]{2,}_[0-9io]{2,}->[0-9bf]{2,}`
  // ---------------------------------------------------------------------

  /** `s[..k]` is dim labels with the `_` at `a` and the `->` at `b`. */
  ghost predicate DimLabelsSplit(s: seq<char>, k: nat, a: nat, b: nat)
  {
    2 <= a && a + 3 <= b && b + 4 <= k <= |s| && s[a] == '_' && s[b] == '-' && s[b + 1] == '>' &&
    AllInRange(s, 0, a, BatchFeature) && AllInRange(s, a + 1, b, InOut) && AllInRange(s, b + 2, k, BatchFeature)
  }

  ghost predicate DimLabelsAt(s: seq<char>, k: nat)
  {
    exists a: nat, b: nat :: DimLabelsSplit(s, k, a, b)
  }

  function DimLabelsMatch(s: seq<char>): (r: Option<nat>)
    ensures r.Some? ==> 0 < r.value <= |s|
  {
    var a := Span(s, 0, BatchFeature);
    if a >= 2 && a < |s| && s[a] == '_' then
      var b := a + 1 + Span(s, a + 1, InOut);
      if b >= a + 3 && b + 1 < |s| && s[b] == '-' && s[b + 1] == '>' then
        var z := Span(s, b + 2, BatchFeature);
        if z >= 2 then Some(b + 2 + z) else None
      else None
    else None
  }

  lemma DimLabelsSound(s: seq<char>)
    requires DimLabelsMatch(s).Some?
    ensures DimLabelsAt(s, DimLabelsMatch(s).value)
  {
    var a := Span(s, 0, BatchFeature);
    var b := a + 1 + Span(s, a + 1, InOut);
    SpanInClass(s, 0, BatchFeature);
    SpanInClass(s, a + 1, InOut);
    SpanInClass(s, b + 2, BatchFeature);
    assert DimLabelsSplit(s, DimLabelsMatch(s).value, a, b);
  }

  lemma DimLabelsLongest(s: seq<char>, k: nat)
    requires DimLabelsAt(s, k)
    ensures DimLabelsMatch(s).Some? && k <= DimLabelsMatch(s).value
  {
    var a: nat, b: nat :| DimLabelsSplit(s, k, a, b);
    assert !InClass(BatchFeature, s[a]);
    SpanUnique(s, 0, a, BatchFeature);
    assert !InClass(InOut, s[b]);
    SpanUnique(s, a + 1, b, InOut);
    SpanCovers(s, b + 2, k, BatchFeature);
  }

  // ---------------------------------------------------------------------
  // dxd_pattern `[0-9]+(x[0-9]+)+`
  // ---------------------------------------------------------------------

  /** `s[q]` is a digit, or an `x` followed by a digit before `hi`. */
  ghost predicate DxDCharAt(s: seq<char>, q: nat, hi: nat)
    requires q < hi <= |s|
  {
    IsDigit(s[q]) || (s[q] == 'x' && q + 1 < hi && IsDigit(s[q + 1]))
  }

  /** Every character of `s[lo..hi]` is a digit, or an `x` followed by a digit. */
  ghost predicate DxDChars(s: seq<char>, lo: nat, hi: nat)
  {
    hi <= |s| && forall q: nat :: lo <= q < hi ==> DxDCharAt(s, q, hi)
  }

  /** `s[..k]` starts with a digit, holds an `x`, and every `x` is followed by a digit. */
  ghost predicate DxDAt(s: seq<char>, k: nat)
  {
    1 <= k <= |s| && IsDigit(s[0]) && (exists q :: 0 <= q < k && s[q] == 'x') && DxDChars(s, 0, k)
  }

  /** End index of the greedy `(x[0-9]+)*` that starts at `i`. */
  function GroupsEnd(s: seq<char>, i: nat): (e: nat)
    requires i <= |s|
    ensures i <= e <= |s|
    decreases |s| - i
  {
    if i + 1 < |s| && s[i] == 'x' && IsDigit(s[i + 1]) then
      GroupsEnd(s, i + 1 + Span(s, i + 1, Digits))
    else i
  }

  lemma {:induction false} GroupsSound(s: seq<char>, i: nat)
    requires i <= |s|
    ensures DxDChars(s, i, GroupsEnd(s, i))
    ensures GroupsEnd(s, i) > i ==> s[i] == 'x'
    decreases |s| - i
  {
    if i + 1 < |s| && s[i] == 'x' && IsDigit(s[i + 1]) {
      var j := i + 1 + Span(s, i + 1, Digits);
      var e := GroupsEnd(s, j);
      SpanInClass(s, i + 1, Digits);
      GroupsSound(s, j);
      forall q: nat | i <= q < e
        ensures DxDCharAt(s, q, e)
      {
        if i < q < j { AllInRangeAt(s, i + 1, j, Digits, q); }
      }
    }
  }

  /** From a group boundary inside a dxd text, the groups reach the text's end. */
  lemma {:induction false} GroupsCover(s: seq<char>, i: nat, k: nat)
    requires i <= k <= |s| && DxDChars(s, i, k) && (i == k || s[i] == 'x')
    ensures k <= GroupsEnd(s, i)
    decreases k - i
  {
    if i < k {
      assert DxDCharAt(s, i, k);
      var j := i + 1 + Span(s, i + 1, Digits);
      if j <= k {
        if j < k {
          assert !InClass(Digits, s[j]) && DxDCharAt(s, j, k);
        }
        GroupsCover(s, j, k);
      }
    }
  }

  function DxDMatch(s: seq<char>): (r: Option<nat>)
    ensures r.Some? ==> 0 < r.value <= |s|
  {
    var n := Span(s, 0, Digits);
    if n >= 1 then
      var e := GroupsEnd(s, n);
      if e > n then Some(e) else None
    else None
  }

  lemma DxDSound(s: seq<char>)
    requires DxDMatch(s).Some?
    ensures DxDAt(s, DxDMatch(s).value)
  {
    var n := Span(s, 0, Digits);
    var e := GroupsEnd(s, n);
    SpanInClass(s, 0, Digits);
    GroupsSound(s, n);
    forall q: nat | q < e
      ensures DxDCharAt(s, q, e)
    {
      if q < n { AllInRangeAt(s, 0, n, Digits, q); }
    }
  }

  lemma DxDLongest(s: seq<char>, k: nat)
    requires DxDAt(s, k)
    ensures DxDMatch(s).Some? && k <= DxDMatch(s).value
  {
    var n := Span(s, 0, Digits);
    assert InClass(Digits, s[0]);
    var x :| 0 <= x < k && s[x] == 'x';
    assert n <= x by {
      if x < n {
        SpanInClass(s, 0, Digits);
        AllInRangeAt(s, 0, n, Digits, x);
        assert false;
      }
    }
    assert !InClass(Digits, s[n]) && DxDCharAt(s, n, k);
    GroupsCover(s, n, k);
  }

  // ---------------------------------------------------------------------
  // pad_pattern `[-]?[0-9]+_[-]?[0-9]+(_[0-9]+)?(x[-]?[0-9]+_[-]?[0-9]+(_[0-9]+)?)*`
  // ---------------------------------------------------------------------

  /** `s[i..j]` is `[-]?[0-9]+(_[0-9]+)?`: a pad's high edge and optional interior. */
  ghost predicate PadHighAt(s: seq<char>, i: nat, j: nat)
  {
    exists b: nat :: PadHighSplit(s, i, j, b)
  }

  /** `s[i..j]` is a high edge whose interior part starts after the `_` at
      `b`, or (`b == j`) one without an interior part. */
  ghost predicate PadHighSplit(s: seq<char>, i: nat, j: nat, b: nat)
  {
    (b == j && IntAt(s, i, j)) ||
    (i < b < j <= |s| && s[b] == '_' && IntAt(s, i, b) && DigitsAt(s, b + 1, j))
  }

  /** `s[i..j]` is one pad dimension `[-]?[0-9]+_[-]?[0-9]+(_[0-9]+)?`. */
  ghost predicate PadDimAt(s: seq<char>, i: nat, j: nat)
  {
    j <= |s| && exists a: nat :: i < a < j && s[a] == '_' && IntAt(s, i, a) && PadHighAt(s, a + 1, j)
  }

  /** `s[i..j]` is pad dimensions separated by `x`. */
  ghost predicate PadAt(s: seq<char>, i: nat, j: nat)
    decreases j - i, 1
  {
    exists x: nat :: PadSplit(s, i, j, x)
  }

  /** `s[i..j]` is pad text whose first dimension ends at `x`: the whole text
      is that dimension (`x == i`), or `s[x]` is the `x` before the rest. */
  ghost predicate PadSplit(s: seq<char>, i: nat, j: nat, x: nat)
    decreases j - i, 0
  {
    (x == i && PadDimAt(s, i, j)) ||
    (i < x < j <= |s| && s[x] == 'x' && PadDimAt(s, i, x) && PadAt(s, x + 1, j))
  }

  /** End index of a greedy `[-]?[0-9]+(_[0-9]+)?` matched at `h`. */
  function PadHighEnd(s: seq<char>, h: nat): (r: Option<nat>)
    requires h <= |s|
    ensures r.Some? ==> h < r.value <= |s|
  {
    var c := SignedDigitsEnd(s, h);
    if c.Some? && c.value + 1 < |s| && s[c.value] == '_' && IsDigit(s[c.value + 1]) then
      Some(c.value + 1 + Span(s, c.value + 1, Digits))
    else c
  }

  /** End index of one greedy pad dimension matched at `i`. */
  function PadDimEnd(s: seq<char>, i: nat): (r: Option<nat>)
    requires i <= |s|
    ensures r.Some? ==> i < r.value <= |s|
  {
    var a := SignedDigitsEnd(s, i);
    if a.Some? && a.value < |s| && s[a.value] == '_' then PadHighEnd(s, a.value + 1) else None
  }

  lemma PadHighSound(s: seq<char>, h: nat)
    requires h <= |s| && PadHighEnd(s, h).Some?
    ensures PadHighAt(s, h, PadHighEnd(s, h).value)
  {
    var c := SignedDigitsEnd(s, h).value;
    SignedDigitsSound(s, h);
    if c + 1 < |s| && s[c] == '_' && IsDigit(s[c + 1]) {
      SpanInClass(s, c + 1, Digits);
      assert PadHighSplit(s, h, PadHighEnd(s, h).value, c);
    } else {
      assert PadHighSplit(s, h, c, c);
    }
  }

  lemma PadDimSound(s: seq<char>, i: nat)
    requires i <= |s| && PadDimEnd(s, i).Some?
    ensures PadDimAt(s, i, PadDimEnd(s, i).value)
  {
    var a := SignedDigitsEnd(s, i).value;
    SignedDigitsSound(s, i);
    PadHighSound(s, a + 1);
  }

  /** A high edge with an interior part: the greedy match reaches past it. */
  lemma InteriorLongest(s: seq<char>, h: nat, b: nat, j: nat)
    requires h < b < j <= |s| && s[b] == '_' && IntAt(s, h, b) && DigitsAt(s, b + 1, j)
    ensures PadHighEnd(s, h).Some? && j <= PadHighEnd(s, h).value
    ensures j < |s| && !IsDigit(s[j]) ==> PadHighEnd(s, h) == Some(j)
  {
    IntStopsAt(s, h, b);
    assert InClass(Digits, s[b + 1]);
    SpanCovers(s, b + 1, j, Digits);
    if j < |s| && !IsDigit(s[j]) { SpanUnique(s, b + 1, j, Digits); }
  }

  lemma PadHighLongest(s: seq<char>, h: nat, j: nat)
    requires PadHighAt(s, h, j)
    ensures PadHighEnd(s, h).Some? && j <= PadHighEnd(s, h).value
  {
    var b: nat :| PadHighSplit(s, h, j, b);
    if b == j {
      SignedDigitsLongest(s, h, j);
    } else {
      InteriorLongest(s, h, b, j);
    }
  }

  /** A high edge followed by an `x` is exactly the greedy match. */
  lemma PadHighStopsAt(s: seq<char>, h: nat, j: nat)
    requires PadHighAt(s, h, j) && j < |s| && s[j] == 'x'
    ensures PadHighEnd(s, h) == Some(j)
  {
    var b: nat :| PadHighSplit(s, h, j, b);
    if b == j {
      IntStopsAt(s, h, j);
    } else {
      InteriorLongest(s, h, b, j);
    }
  }

  lemma PadDimLongest(s: seq<char>, i: nat, j: nat)
    requires PadDimAt(s, i, j)
    ensures PadDimEnd(s, i).Some? && j <= PadDimEnd(s, i).value
  {
    var a: nat :| i < a < j && s[a] == '_' && IntAt(s, i, a) && PadHighAt(s, a + 1, j);
    IntStopsAt(s, i, a);
    PadHighLongest(s, a + 1, j);
  }

  /** A pad dimension followed by an `x` is exactly the greedy dimension. */
  lemma PadDimStopsAt(s: seq<char>, i: nat, j: nat)
    requires PadDimAt(s, i, j) && j < |s| && s[j] == 'x'
    ensures PadDimEnd(s, i) == Some(j)
  {
    var a: nat :| i < a < j && s[a] == '_' && IntAt(s, i, a) && PadHighAt(s, a + 1, j);
    IntStopsAt(s, i, a);
    PadHighStopsAt(s, a + 1, j);
  }

  /** End index of `P(xP)*` matched at `i`, each `P` a greedy pad dimension. */
  function PadEnd(s: seq<char>, i: nat): (r: Option<nat>)
    requires i <= |s|
    ensures r.Some? ==> i < r.value <= |s|
    decreases |s| - i
  {
    var d := PadDimEnd(s, i);
    if d.Some? && d.value < |s| && s[d.value] == 'x' && PadEnd(s, d.value + 1).Some? then PadEnd(s, d.value + 1) else d
  }

  /** A single greedy dimension is pad text. */
  lemma PadOneDim(s: seq<char>, i: nat, e: nat)
    requires i <= |s| && PadDimEnd(s, i) == Some(e)
    ensures PadAt(s, i, e)
  {
    PadDimSound(s, i);
    assert PadSplit(s, i, e, i);
  }

  /** A greedy dimension, an `x`, and pad text are pad text. */
  lemma PadExtend(s: seq<char>, i: nat, e: nat, r: nat)
    requires i <= |s| && PadDimEnd(s, i) == Some(e) && e < r <= |s| && s[e] == 'x' && PadAt(s, e + 1, r)
    ensures PadAt(s, i, r)
  {
    PadDimSound(s, i);
    assert PadSplit(s, i, r, e);
  }

  lemma {:induction false} PadSound(s: seq<char>, i: nat, r: nat)
    requires i <= |s| && PadEnd(s, i) == Some(r)
    ensures PadAt(s, i, r)
    decreases |s| - i
  {
    var e := PadDimEnd(s, i).value;
    if e < |s| && s[e] == 'x' && PadEnd(s, e + 1).Some? {
      PadSound(s, e + 1, r);
      PadExtend(s, i, e, r);
    } else {
      PadOneDim(s, i, e);
    }
  }

  /** One dimension and an `x`, then pad text: the greedy match goes on past the `x`. */
  lemma PadStepLongest(s: seq<char>, i: nat, x: nat, j: nat)
    requires i <= x < |s| && PadDimEnd(s, i) == Some(x) && s[x] == 'x'
    requires PadEnd(s, x + 1).Some? && j <= PadEnd(s, x + 1).value
    ensures PadEnd(s, i).Some? && j <= PadEnd(s, i).value
  {
  }

  lemma {:induction false} PadLongestFrom(s: seq<char>, i: nat, j: nat)
    requires PadAt(s, i, j)
    ensures i <= |s| && PadEnd(s, i).Some? && j <= PadEnd(s, i).value
    decreases j - i
  {
    var x: nat :| PadSplit(s, i, j, x);
    if x == i {
      PadDimLongest(s, i, j);
    } else {
      PadDimStopsAt(s, i, x);
      PadLongestFrom(s, x + 1, j);
      PadStepLongest(s, i, x, j);
    }
  }

  function PadMatch(s: seq<char>): (r: Option<nat>)
    ensures r.Some? ==> 0 < r.value <= |s|
  {
    PadEnd(s, 0)
  }

  // ---------------------------------------------------------------------
  // name_pattern `[a-zA-Z_][a-zA-Z0-9_.-]*`
  // ---------------------------------------------------------------------

  ghost predicate NameAt(s: seq<char>, k: nat)
  {
    1 <= k <= |s| && (IsAlpha(s[0]) || s[0] == '_') && AllInRange(s, 1, k, NameChars)
  }

  function NameMatch(s: seq<char>): (r: Option<nat>)
    ensures r.Some? ==> 0 < r.value <= |s|
  {
    if |s| >= 1 && (IsAlpha(s[0]) || s[0] == '_') then Some(1 + Span(s, 1, NameChars)) else None
  }

  lemma NameSound(s: seq<char>)
    requires NameMatch(s).Some?
    ensures NameAt(s, NameMatch(s).value)
  {
    SpanInClass(s, 1, NameChars);
  }

  lemma NameLongest(s: seq<char>, k: nat)
    requires NameAt(s, k)
    ensures NameMatch(s).Some? && k <= NameMatch(s).value
  {
    SpanCovers(s, 1, k, NameChars);
  }

  // ---------------------------------------------------------------------
  // escaping_pattern `("([^"\\]|\\.)*")`; `.` does not match a newline
  // ---------------------------------------------------------------------

  /** `s[i..j]` is `([^"\\]|\\.)*`. */
  ghost predicate StringBodyAt(s: seq<char>, i: nat, j: nat)
    decreases j - i
  {
    j <= |s| &&
    (i == j ||
     (i < j && s[i] != '"' && s[i] != '\\' && StringBodyAt(s, i + 1, j)) ||
     (i + 2 <= j && s[i] == '\\' && s[i + 1] != '\n' && StringBodyAt(s, i + 2, j)))
  }

  /** `s[..k]` is a double-quoted literal. */
  ghost predicate StringLiteralAt(s: seq<char>, k: nat)
  {
    2 <= k <= |s| && s[0] == '"' && s[k - 1] == '"' && StringBodyAt(s, 1, k - 1)
  }

  /** End index (just past the closing quote) of the string body scanned from `i`. */
  function StringEnd(s: seq<char>, i: nat): (r: Option<nat>)
    requires i <= |s|
    ensures r.Some? ==> i < r.value <= |s| && s[r.value - 1] == '"'
    decreases |s| - i
  {
    if i >= |s| then None
    else if s[i] == '"' then Some(i + 1)
    else if s[i] == '\\' then
      if i + 1 < |s| && s[i + 1] != '\n' then StringEnd(s, i + 2) else None
    else StringEnd(s, i + 1)
  }

  lemma {:induction false} StringEndSound(s: seq<char>, i: nat)
    requires i <= |s| && StringEnd(s, i).Some?
    ensures StringBodyAt(s, i, StringEnd(s, i).value - 1)
    decreases |s| - i
  {
    if s[i] == '\\' {
      StringEndSound(s, i + 2);
    } else if s[i] != '"' {
      StringEndSound(s, i + 1);
    }
  }

  /** The body of a literal can only end at its first unescaped quote. */
  lemma {:induction false} StringEndUnique(s: seq<char>, i: nat, j: nat)
    requires i <= j < |s| && s[j] == '"' && StringBodyAt(s, i, j)
    ensures StringEnd(s, i) == Some(j + 1)
    decreases j - i
  {
    if i < j {
      if s[i] == '\\' {
        StringEndUnique(s, i + 2, j);
      } else {
        StringEndUnique(s, i + 1, j);
      }
    }
  }

  function StringMatch(s: seq<char>): (r: Option<nat>)
    ensures r.Some? ==> 2 <= r.value <= |s|
  {
    if |s| >= 1 && s[0] == '"' then StringEnd(s, 1) else None
  }

  lemma StringSound(s: seq<char>)
    requires StringMatch(s).Some?
    ensures StringLiteralAt(s, StringMatch(s).value)
  {
    StringEndSound(s, 1);
  }

  /** A literal at the start of the text is exactly what is matched. */
  lemma StringMatchExact(s: seq<char>, k: nat)
    requires StringLiteralAt(s, k)
    ensures StringMatch(s) == Some(k)
  {
    StringEndUnique(s, 1, k - 1);
  }

  // ---------------------------------------------------------------------
  // neg_inf `-inf` and neg_nan `-nan`
  // ---------------------------------------------------------------------

  function LiteralMatch(s: seq<char>, lit: seq<char>): (r: Option<nat>)
    ensures r.Some? <==> |lit| <= |s| && s[..|lit|] == lit
    ensures r.Some? ==> r.value == |lit|
  {
    if |lit| <= |s| && s[..|lit|] == lit then Some(|lit|) else None
  }

  // ---------------------------------------------------------------------
  // The pattern table
  // ---------------------------------------------------------------------

  datatype Pattern =
    | FloatPattern | DimLabelsPattern | DxDPattern | PadPattern | IntPattern
    | NegInfPattern | NegNanPattern | NamePattern | EscapingPattern

  /** The first `k` characters of `s` spell a word of the pattern's language. */
  ghost predicate InLanguage(p: Pattern, s: seq<char>, k: nat)
  {
    match p
    case FloatPattern => FloatAt(s, 0, k)
    case DimLabelsPattern => DimLabelsAt(s, k)
    case DxDPattern => DxDAt(s, k)
    case PadPattern => PadAt(s, 0, k)
    case IntPattern => IntAt(s, 0, k)
    case NegInfPattern => k == 4 <= |s| && s[..4] == "-inf"
    case NegNanPattern => k == 4 <= |s| && s[..4] == "-nan"
    case NamePattern => NameAt(s, k)
    case EscapingPattern => StringLiteralAt(s, k)
  }

  /** `pattern.match(s)`: the length of the anchored match, if any. */
  function Match(p: Pattern, s: seq<char>): (r: Option<nat>)
    ensures r.Some? ==> 0 < r.value <= |s|
  {
    match p
    case FloatPattern => FloatMatch(s)
    case DimLabelsPattern => DimLabelsMatch(s)
    case DxDPattern => DxDMatch(s)
    case PadPattern => PadMatch(s)
    case IntPattern => IntMatch(s)
    case NegInfPattern => LiteralMatch(s, "-inf")
    case NegNanPattern => LiteralMatch(s, "-nan")
    case NamePattern => NameMatch(s)
    case EscapingPattern => StringMatch(s)
  }

  /** What is matched is a word of the language. */
  lemma MatchSound(p: Pattern, s: seq<char>)
    requires Match(p, s).Some?
    ensures InLanguage(p, s, Match(p, s).value)
  {
    match p
    case FloatPattern => FloatSound(s);
    case DimLabelsPattern => DimLabelsSound(s);
    case DxDPattern => DxDSound(s);
    case PadPattern => PadSound(s, 0, Match(p, s).value);
    case IntPattern => SignedDigitsSound(s, 0);
    case NegInfPattern =>
    case NegNanPattern =>
    case NamePattern => NameSound(s);
    case EscapingPattern => StringSound(s);
  }

  /** The match is the longest prefix of `s` in the pattern's language;
      no match means no prefix of `s` is in it. */
  lemma MatchIsLongest(p: Pattern, s: seq<char>, k: nat)
    requires InLanguage(p, s, k)
    ensures Match(p, s).Some? && k <= Match(p, s).value
  {
    match p
    case FloatPattern => FloatLongest(s, k);
    case DimLabelsPattern => DimLabelsLongest(s, k);
    case DxDPattern => DxDLongest(s, k);
    case PadPattern => PadLongestFrom(s, 0, k);
    case IntPattern => SignedDigitsLongest(s, 0, k);
    case NegInfPattern =>
    case NegNanPattern =>
    case NamePattern => NameLongest(s, k);
    case EscapingPattern => StringMatchExact(s, k);
  }
}
