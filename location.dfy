/** Line numbers, columns and lines of locations in the buffer, and the
    one-entry line-number cache `GetLineAndColumn` keeps. */
module Location {
  import opened Wrappers

  /** The number of `'\n'` in `s`. */
  function CountNewlines(s: seq<char>): (n: nat)
    ensures n <= |s|
    ensures n == 0 <==> forall k :: 0 <= k < |s| ==> s[k] != '\n'
    decreases |s|
  {
    if |s| == 0 then 0
    else CountNewlines(s[..|s| - 1]) + (if s[|s| - 1] == '\n' then 1 else 0)
  }

  /** Counting is additive over concatenation. */
  lemma {:induction false} CountNewlinesAppend(a: seq<char>, b: seq<char>)
    ensures CountNewlines(a + b) == CountNewlines(a) + CountNewlines(b)
    decreases |b|
  {
    if |b| > 0 {
      var b' := b[..|b| - 1];
      assert (a + b)[..|a + b| - 1] == a + b';
      assert (a + b)[|a + b| - 1] == b[|b| - 1];
      CountNewlinesAppend(a, b');
    } else {
      assert a + b == a;
    }
  }

  /** `str.rfind(c)`: the last index of `c` in `s`, or -1. */
  function RFind(s: seq<char>, c: char): (i: int)
    ensures -1 <= i < |s|
    ensures i >= 0 ==> s[i] == c
    ensures forall k :: i < k < |s| && 0 <= k ==> s[k] != c
    decreases |s|
  {
    if |s| == 0 then -1
    else if s[|s| - 1] == c then |s| - 1
    else RFind(s[..|s| - 1], c)
  }

  /** `str.find(c)`: the first index of `c` in `s`, or -1. */
  function Find(s: seq<char>, c: char): (i: int)
    ensures -1 <= i < |s|
    ensures i >= 0 ==> s[i] == c
    ensures forall k :: 0 <= k < |s| && (i < 0 || k < i) ==> s[k] != c
    decreases |s|
  {
    if |s| == 0 then -1
    else if s[0] == c then 0
    else
      var r := Find(s[1..], c);
      if r < 0 then -1 else r + 1
  }

  /** What `GetLineAndColumn(loc)` returns: the line is one more than the
      newlines before `loc`; the column is `loc` on the first line and the
      distance from the last newline before `loc` on later lines. */
  function LineAndColumn(buf: seq<char>, loc: nat): (lc: (int, int))
    requires loc <= |buf|
  {
    var lineOffset := RFind(buf[..loc], '\n');
    (1 + CountNewlines(buf[..loc]), loc - (if lineOffset < 0 then 0 else lineOffset))
  }

  /** The column counts from 0 on the first line and from 1 on later lines:
      on line 1 it is `loc` itself, elsewhere `loc - column` is the newline
      that starts the line. */
  lemma ColumnMeaning(buf: seq<char>, loc: nat)
    requires loc <= |buf|
    ensures var (line, column) := LineAndColumn(buf, loc);
      && line >= 1
      && (line == 1 <==> forall k :: 0 <= k < loc ==> buf[k] != '\n')
      && (line == 1 ==> column == loc)
      && (line > 1 ==> 1 <= column <= loc && buf[loc - column] == '\n' &&
                       forall k :: loc - column < k < loc ==> buf[k] != '\n')
  {
    var pre := buf[..loc];
    var i := RFind(pre, '\n');
    if CountNewlines(pre) > 0 {
      var k :| 0 <= k < |pre| && pre[k] == '\n';
      assert i >= 0;
    } else {
      assert i < 0 || pre[i] == '\n';
    }
  }

  /** The one-entry cache: the last queried location and its line number. */
  datatype LineNoCache = LineNoCache(lastQuery: Option<nat>, lineNoOfQuery: int)

  const EmptyCache: LineNoCache := LineNoCache(None, 0)

  /** The cached line number is the line of the cached location. */
  ghost predicate CacheConsistent(buf: seq<char>, c: LineNoCache)
  {
    c.lastQuery.Some? ==> c.lastQuery.value <= |buf| && c.lineNoOfQuery == 1 + CountNewlines(buf[..c.lastQuery.value])
  }

  /** `CanDereference`: a location inside the buffer. */
  predicate CanDereference(buf: seq<char>, loc: nat)
  {
    loc < |buf|
  }

  /** Where the line holding `loc` starts: just past the last `'\n'` at or
      before `loc`, or 0. */
  function LineStart(buf: seq<char>, loc: nat): (start: nat)
    requires loc < |buf|
    ensures start <= loc + 1
    ensures start == 0 || buf[start - 1] == '\n'
    ensures forall k :: start <= k <= loc ==> buf[k] != '\n'
  {
    var lineStart := RFind(buf[..loc + 1], '\n');
    assert forall k :: lineStart < k <= loc ==> buf[..loc + 1][k] == buf[k];
    if lineStart < 0 then 0 else lineStart + 1
  }

  /** Where the line holding `loc` ends: at the first `'\n'` at or after
      `loc`, or at the end of the buffer. */
  function LineEnd(buf: seq<char>, loc: nat): (end: nat)
    requires loc < |buf|
    ensures loc <= end <= |buf|
    ensures end == |buf| || buf[end] == '\n'
    ensures forall k :: loc <= k < end ==> buf[k] != '\n'
  {
    var lineEnd := Find(buf[loc..], '\n');
    assert forall k :: loc <= k < |buf| ==> buf[loc..][k - loc] == buf[k];
    if lineEnd < 0 then |buf| else loc + lineEnd
  }

  /** `GetLine`: the text of the line holding `loc`, without its line end. */
  function GetLine(buf: seq<char>, loc: nat): (line: seq<char>)
    ensures !CanDereference(buf, loc) ==> line == "LINE OUT OF RANGE"
    ensures CanDereference(buf, loc) ==> forall k :: 0 <= k < |line| ==> line[k] != '\n'
    ensures CanDereference(buf, loc) && buf[loc] == '\n' ==> line == []
  {
    if !CanDereference(buf, loc) then "LINE OUT OF RANGE"
    else
      var start := LineStart(buf, loc);
      var end := LineEnd(buf, loc);
      if start <= end then buf[start..end] else []
  }

  /** On a character that is not a line end, `GetLine` is the maximal
      newline-free stretch of the buffer around it. */
  lemma GetLineIsTheLine(buf: seq<char>, loc: nat)
    requires loc < |buf| && buf[loc] != '\n'
    ensures exists start: nat, end: nat ::
      && start <= loc < end <= |buf|
      && GetLine(buf, loc) == buf[start..end]
      && (start == 0 || buf[start - 1] == '\n')
      && (end == |buf| || buf[end] == '\n')
      && forall k :: start <= k < end ==> buf[k] != '\n'
  {
    var start := LineStart(buf, loc);
    var end := LineEnd(buf, loc);
    assert start <= loc < end <= |buf| && GetLine(buf, loc) == buf[start..end];
  }
}
