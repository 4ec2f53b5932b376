/** `BufferPointer`: an offset into the lexer's one buffer, with an optional
    slice end (`length_`, which despite its name is an end index). Only the
    single-buffer behaviour is modelled, so the buffer is a parameter. */
module BufferPointers {
  import opened Wrappers

  /** Python's `s[lo:hi]` for a non-negative `lo` and an end that is absent
      or non-negative: the end is clamped to `len(s)`, and a reversed range
      is empty. */
  function Slice(s: seq<char>, lo: nat, hi: Option<nat>): (r: seq<char>)
    ensures |r| <= |s|
    ensures lo <= |s| && hi.None? ==> r == s[lo..]
    ensures hi.Some? && lo <= hi.value <= |s| ==> r == s[lo..hi.value]
    ensures hi.Some? && hi.value <= lo ==> r == []
    ensures lo >= |s| ==> r == []
  {
    var h := if hi.None? || hi.value > |s| then |s| else hi.value;
    if lo >= h then [] else s[lo..h]
  }

  datatype BufferPointer = BufferPointer(offset: nat, length: Option<nat>)

  /** The pointer over the whole buffer that the lexer starts from. */
  const Whole: BufferPointer := BufferPointer(0, None)

  /** `value`: the characters the pointer designates. */
  function Value(buf: seq<char>, p: BufferPointer): seq<char>
  {
    Slice(buf, p.offset, p.length)
  }

  /** `sub` of two pointers: their distance. */
  function Distance(p: BufferPointer, q: BufferPointer): (d: int)
    ensures q.offset + d == p.offset
  {
    p.offset - q.offset
  }

  /** `add` of an integer; a negative resulting offset raises `ValueError`. */
  function Add(p: BufferPointer, n: int): (r: BufferPointer)
    requires p.offset + n >= 0
    ensures Distance(r, p) == n && r.length == p.length
  {
    BufferPointer(p.offset + n, p.length)
  }

  /** `sub` of an integer. */
  function Sub(p: BufferPointer, n: int): (r: BufferPointer)
    requires p.offset - n >= 0
    ensures Distance(p, r) == n && r.length == p.length
  {
    BufferPointer(p.offset - n, p.length)
  }

  /** Moving forward and back by the same amount is the identity, in either order. */
  lemma AddSubInverse(p: BufferPointer, n: int)
    requires p.offset + n >= 0 && p.offset - n >= 0
    ensures Sub(Add(p, n), n) == p && Add(Sub(p, n), n) == p
  {
  }

  /** `to`: the pointer from `p` whose slice ends where `q` starts. */
  function To(p: BufferPointer, q: BufferPointer): (r: BufferPointer)
    ensures r.offset == p.offset && r.length == Some(q.offset)
  {
    BufferPointer(p.offset, Some(p.offset + Distance(q, p)))
  }

  /** `StringPieceFromPointers(a, b)`: the text from `a` up to `b`. */
  function StringPiece(buf: seq<char>, a: BufferPointer, b: BufferPointer): (r: seq<char>)
    ensures a.offset <= b.offset <= |buf| ==> r == buf[a.offset..b.offset]
    ensures b.offset <= a.offset ==> r == []
  {
    Value(buf, To(a, b))
  }

  /** `begin`: the same slice end, at offset 0. */
  function Begin(p: BufferPointer): (r: BufferPointer)
    ensures r.offset == 0 && r.length == p.length
  {
    Sub(p, p.offset)
  }

  /** `end`: the pointer just past what `p` designates. */
  function End(buf: seq<char>, p: BufferPointer): (r: BufferPointer)
    ensures Distance(r, p) == |Value(buf, p)|
  {
    Add(p, |Value(buf, p)|)
  }

  /** For the whole-buffer pointer, `begin()` designates the whole buffer and
      `end()` is at `len(buf)` and designates nothing. */
  lemma WholeBufferBounds(buf: seq<char>)
    ensures Value(buf, Begin(Whole)) == buf
    ensures End(buf, Whole).offset == |buf| && Value(buf, End(buf, Whole)) == []
  {
  }

  /** `deref`: the first designated character; an empty slice fails the assertion. */
  function Deref(buf: seq<char>, p: BufferPointer): (c: char)
    requires |Value(buf, p)| > 0
    ensures p.offset < |buf| && c == buf[p.offset]
  {
    Value(buf, p)[0]
  }

  /** The text between two ordered pointers has their distance as length, and
      splits at any pointer in between. */
  lemma StringPieceSplit(buf: seq<char>, a: BufferPointer, m: BufferPointer, b: BufferPointer)
    requires a.offset <= m.offset <= b.offset <= |buf|
    ensures |StringPiece(buf, a, b)| == Distance(b, a)
    ensures StringPiece(buf, a, b) == StringPiece(buf, a, m) + StringPiece(buf, m, b)
  {
    assert buf[a.offset..b.offset] == buf[a.offset..m.offset] + buf[m.offset..b.offset];
  }

  // ---------------------------------------------------------------------
  // What the moved pointers designate
  // ---------------------------------------------------------------------

  /** `add(n)` drops the first `n` designated characters. */
  lemma AddValue(buf: seq<char>, p: BufferPointer, n: nat)
    requires n <= |Value(buf, p)|
    ensures Value(buf, Add(p, n)) == Value(buf, p)[n..]
  {
  }

  /** `sub(n)` on an open-ended pointer puts the `n` characters before it back
      in front. */
  lemma SubValue(buf: seq<char>, p: BufferPointer, n: nat)
    requires p.length.None? && n <= p.offset <= |buf|
    ensures Value(buf, Sub(p, n)) == buf[p.offset - n..p.offset] + Value(buf, p)
  {
  }

  /** `end()` designates nothing, whatever the pointer. */
  lemma EndValue(buf: seq<char>, p: BufferPointer)
    ensures Value(buf, End(buf, p)) == []
  {
  }

  /** `begin()` designates the buffer from its start up to the pointer's slice end. */
  lemma BeginValue(buf: seq<char>, p: BufferPointer)
    ensures Value(buf, Begin(p)) == Slice(buf, 0, p.length)
  {
  }

  /** `p.to(q)` designates the text from `p` up to `q`, as long as their distance. */
  lemma ToValue(buf: seq<char>, p: BufferPointer, q: BufferPointer)
    requires p.offset <= q.offset <= |buf|
    ensures Value(buf, To(p, q)) == buf[p.offset..q.offset]
    ensures |Value(buf, To(p, q))| == Distance(q, p)
  {
  }

  /** The lexer's pointer `n` characters into the buffer: `buf_.begin() + n`. */
  function At(n: nat): (r: BufferPointer)
    ensures r.offset == n && r.length.None?
  {
    Add(Begin(Whole), n)
  }

  /** The lexer keeps its pointers as offsets: the pointer `n` in designates
      the rest of the buffer from `n`, and the piece between the pointers at
      `a` and `b` is the plain slice `buf[a..b]`. */
  lemma AtPieces(buf: seq<char>, a: nat, b: nat)
    requires a <= b <= |buf|
    ensures Value(buf, At(a)) == buf[a..]
    ensures StringPiece(buf, At(a), At(b)) == buf[a..b]
  {
  }
}

