/**
 * The line structure of a document: the line index (`line_bases`) that the
 * editor rebuilds after every mutation, and the (pos, line, col) cursor that
 * `get_cursor_from_pos` derives from a logical offset.
 */
module Lines {
  import opened Bytes

  /** Number of '\n' bytes in `t`. */
  function NewlineCount(t: seq<u8>): nat
  {
    if |t| == 0 then 0 else NewlineCount(t[..|t| - 1]) + (if t[|t| - 1] == NL then 1 else 0)
  }

  /** The offsets just after each '\n' of `t`, in the order a forward scan meets them. */
  function Breaks(t: seq<u8>): seq<int>
  {
    if |t| == 0 then [] else Breaks(t[..|t| - 1]) + (if t[|t| - 1] == NL then [|t|] else [])
  }

  /** The line index of `t`: 0, every offset after a '\n', and the sentinel |t| + 1. */
  function LineBases(t: seq<u8>): seq<int>
  {
    [0] + Breaks(t) + [|t| + 1]
  }

  /** Number of lines: one more than the number of '\n' bytes. */
  function LineCount(t: seq<u8>): int
  {
    |LineBases(t)| - 1
  }

  ghost predicate StrictlyIncreasing(s: seq<int>)
  {
    forall j, k :: 0 <= j < k < |s| ==> s[j] < s[k]
  }

  /** Every break is the offset after a '\n', they are strictly increasing, and there is one per '\n'. */
  lemma {:induction false} BreaksShape(t: seq<u8>)
    ensures |Breaks(t)| == NewlineCount(t)
    ensures StrictlyIncreasing(Breaks(t))
    ensures forall k :: 0 <= k < |Breaks(t)| ==> 1 <= Breaks(t)[k] <= |t| && t[Breaks(t)[k] - 1] == NL
  {
    if |t| > 0 {
      var u := t[..|t| - 1];
      BreaksShape(u);
      assert forall k :: 0 <= k < |Breaks(u)| ==> t[Breaks(u)[k] - 1] == u[Breaks(u)[k] - 1];
    }
  }

  /** The line index is strictly increasing, starts at 0 and ends with the sentinel. */
  lemma LineBasesShape(t: seq<u8>)
    ensures |LineBases(t)| == NewlineCount(t) + 2
    ensures LineCount(t) == NewlineCount(t) + 1
    ensures LineBases(t)[0] == 0 && LineBases(t)[|LineBases(t)| - 1] == |t| + 1
    ensures StrictlyIncreasing(LineBases(t))
    ensures forall l :: 0 < l < LineCount(t) ==> 1 <= LineBases(t)[l] <= |t| && t[LineBases(t)[l] - 1] == NL
  {
    BreaksShape(t);
  }

  /** Scanning a prefix meets a prefix of the breaks; every later break lies beyond the prefix. */
  lemma {:induction false} BreaksPrefix(t: seq<u8>, p: int)
    requires 0 <= p <= |t|
    ensures Breaks(t[..p]) <= Breaks(t)
    ensures forall k :: |Breaks(t[..p])| <= k < |Breaks(t)| ==> Breaks(t)[k] > p
  {
    if p < |t| {
      var u := t[..|t| - 1];
      BreaksPrefix(u, p);
      assert u[..p] == t[..p];
    } else {
      assert t[..p] == t;
    }
  }

  /** Counting '\n' is additive over concatenation. */
  lemma {:induction false} NewlineCountAppend(a: seq<u8>, b: seq<u8>)
    ensures NewlineCount(a + b) == NewlineCount(a) + NewlineCount(b)
  {
    if |b| > 0 {
      NewlineCountAppend(a, b[..|b| - 1]);
      assert (a + b)[..|a + b| - 1] == a + b[..|b| - 1];
    } else {
      assert a + b == a;
    }
  }

  /** The line of `p`: the number of '\n' before it. */
  function LineOf(t: seq<u8>, p: int): int
    requires 0 <= p <= |t|
  {
    NewlineCount(t[..p])
  }

  /** `p` lies in the half-open extent of line `LineOf(t, p)` of the line index. */
  lemma LineOfBounds(t: seq<u8>, p: int)
    requires 0 <= p <= |t|
    ensures 0 <= LineOf(t, p) < LineCount(t)
    ensures LineBases(t)[LineOf(t, p)] <= p < LineBases(t)[LineOf(t, p) + 1]
  {
    var a := t[..p];
    BreaksShape(a);
    BreaksShape(t);
    BreaksPrefix(t, p);
    var L := LineOf(t, p);
    assert |Breaks(a)| == L;
    if L > 0 {
      assert LineBases(t)[L] == Breaks(a)[L - 1];
    }
  }

  /** Conversely, any line whose extent holds `p` is the line of `p`. */
  lemma LineOfUnique(t: seq<u8>, l: int, p: int)
    requires 0 <= l < LineCount(t)
    requires LineBases(t)[l] <= p < LineBases(t)[l + 1]
    ensures 0 <= p <= |t|
    ensures LineOf(t, p) == l
  {
    LineBasesShape(t);
    var B := LineBases(t);
    assert 0 <= p;
    assert B[l + 1] <= B[|B| - 1];
    LineOfBounds(t, p);
    var L := LineOf(t, p);
  }

  /** A line holds no '\n' before its last byte, and every line but the last ends in one. */
  lemma LineShape(t: seq<u8>, l: int)
    requires 0 <= l < LineCount(t)
    ensures 0 <= LineBases(t)[l] < LineBases(t)[l + 1] <= |t| + 1
    ensures l + 1 < LineCount(t) ==> LineBases(t)[l + 1] <= |t|
    ensures forall j :: LineBases(t)[l] <= j < LineBases(t)[l + 1] - 1 ==> t[j] != NL
    ensures l + 1 < LineCount(t) ==> t[LineBases(t)[l + 1] - 1] == NL
  {
    LineBasesShape(t);
    var B := LineBases(t);
    assert B[l + 1] <= B[|B| - 1];
    forall j | B[l] <= j < B[l + 1] - 1
      ensures t[j] != NL
    {
      LineOfUnique(t, l, j);
      LineOfUnique(t, l, j + 1);
      assert t[..j + 1][..j] == t[..j];
    }
  }

  /** A cursor: logical offset, 0-based line and 0-based column (`Cursor` in codex.h). */
  datatype Cursor = Cursor(pos: int, line: int, col: int)

  /** The settled cursor at `p`: its line counts the '\n' before it, its column the bytes since the line start. */
  function CursorAt(t: seq<u8>, p: int): (c: Cursor)
    requires 0 <= p <= |t|
    ensures c.pos == p && 0 <= c.line < LineCount(t) && 0 <= c.col
    ensures p == LineBases(t)[c.line] + c.col < LineBases(t)[c.line + 1]
  {
    LineOfBounds(t, p);
    Cursor(p, LineOf(t, p), p - LineBases(t)[LineOf(t, p)])
  }

  /** A cursor whose line and column agree with its offset. */
  ghost predicate Settled(t: seq<u8>, c: Cursor)
  {
    0 <= c.pos <= |t| && c == CursorAt(t, c.pos)
  }

  /** Any (line, col) inside a line's extent is the settled cursor at that offset. */
  lemma SettledInLine(t: seq<u8>, l: int, col: int)
    requires 0 <= l < LineCount(t) && 0 <= col
    requires LineBases(t)[l] + col < LineBases(t)[l + 1]
    ensures Settled(t, Cursor(LineBases(t)[l] + col, l, col))
  {
    LineOfUnique(t, l, LineBases(t)[l] + col);
  }

  /** The offset after a '\n' starts the next line. */
  lemma AfterNewline(t: seq<u8>, q: int)
    requires 0 < q <= |t| && t[q - 1] == NL
    ensures 0 <= LineOf(t, q) < LineCount(t)
    ensures LineOf(t, q) == LineOf(t, q - 1) + 1
    ensures LineBases(t)[LineOf(t, q)] == q
  {
    assert t[..q][..q - 1] == t[..q - 1];
    LineOfBounds(t, q);
    LineOfBounds(t, q - 1);
    var L := LineOf(t, q);
    var B := LineBases(t);
    assert B[L - 1] <= q - 1 < B[L];
  }

  /** A '\n' (or the document end) is the last byte of its line. */
  lemma LineEndAt(t: seq<u8>, q: int)
    requires 0 <= q <= |t|
    requires q == |t| || t[q] == NL
    ensures 0 <= LineOf(t, q) < LineCount(t)
    ensures LineBases(t)[LineOf(t, q) + 1] - 1 == q
  {
    LineOfBounds(t, q);
    var L := LineOf(t, q);
    LineShape(t, L);
    LineBasesShape(t);
    assert LineBases(t)[L + 1] <= LineBases(t)[|LineBases(t)| - 1];
  }

  /** Offset where the last line of `s` starts (0 when `s` holds no '\n'). */
  function LastLineStart(s: seq<u8>): int
  {
    if |Breaks(s)| == 0 then 0 else Breaks(s)[|Breaks(s)| - 1]
  }

  /** One more byte of a forward scan: a '\n' bumps the line and starts a new one after it. */
  lemma {:induction false} ScanStep(s: seq<u8>, b: u8)
    ensures NewlineCount(s + [b]) == NewlineCount(s) + (if b == NL then 1 else 0)
    ensures LastLineStart(s + [b]) == if b == NL then |s| + 1 else LastLineStart(s)
  {
    var t := s + [b];
    assert t[..|t| - 1] == s;
    assert Breaks(t) == Breaks(s) + (if b == NL then [|t|] else []);
  }

  /** The line of `p` in `t` starts where the last line of the prefix `t[..p]` starts. */
  lemma LineStartOfPrefix(t: seq<u8>, p: int)
    requires 0 <= p <= |t|
    ensures 0 <= LineOf(t, p) < LineCount(t)
    ensures LineBases(t)[LineOf(t, p)] == LastLineStart(t[..p])
  {
    var a := t[..p];
    LineOfBounds(t, p);
    BreaksShape(a);
    BreaksPrefix(t, p);
  }
}
