/**
 * The editing commands of codex.cpp: each changes the document of the active
 * view through the gap buffer and returns the view's new state.
 */
module Edits {
  import opened Bytes
  import opened Lines
  import opened TextStore
  import opened Clamping
  import opened Views
  import Keymaps

  // ---------------------------------------------------------------- line facts about insertions

  /** Appending bytes without a '\n' changes neither the line count nor where the last line starts. */
  lemma {:induction false} NoNewlineAppend(a: seq<u8>, s: seq<u8>)
    requires forall k :: 0 <= k < |s| ==> s[k] != NL
    ensures NewlineCount(a + s) == NewlineCount(a)
    ensures LastLineStart(a + s) == LastLineStart(a)
  {
    if |s| > 0 {
      var u := s[..|s| - 1];
      NoNewlineAppend(a, u);
      assert a + s == (a + u) + [s[|s| - 1]];
      ScanStep(a + u, s[|s| - 1]);
    } else {
      assert a + s == a;
    }
  }

  /** Inserting bytes without a '\n' at `p` leaves the cursor after them on the same line, `|s|` columns on. */
  lemma InsertWithoutNewline(t: seq<u8>, p: int, s: seq<u8>)
    requires 0 <= p <= |t|
    requires forall k :: 0 <= k < |s| ==> s[k] != NL
    ensures var t1 := t[..p] + s + t[p..];
      CursorAt(t1, p + |s|) == Cursor(p + |s|, CursorAt(t, p).line, CursorAt(t, p).col + |s|)
  {
    var t1 := t[..p] + s + t[p..];
    assert t1[..p + |s|] == t[..p] + s;
    NoNewlineAppend(t[..p], s);
    LineStartOfPrefix(t, p);
    LineStartOfPrefix(t1, p + |s|);
  }

  /** Inserting a '\n' at `p` puts offset `p + 1` at column 0 of the next line. */
  lemma InsertNewlineAt(t: seq<u8>, p: int)
    requires 0 <= p <= |t|
    ensures var t1 := t[..p] + [NL] + t[p..];
      CursorAt(t1, p + 1) == Cursor(p + 1, CursorAt(t, p).line + 1, 0)
  {
    var t1 := t[..p] + [NL] + t[p..];
    assert t1[..p] == t[..p];
    AfterNewline(t1, p + 1);
  }

  /** Inserting one '\n' adds exactly one line. */
  lemma InsertNewlineCount(t: seq<u8>, q: int, s: seq<u8>)
    requires 0 <= q <= |t|
    requires forall k :: 0 <= k < |s| ==> s[k] != NL
    ensures LineCount(t[..q] + [NL] + s + t[q..]) == LineCount(t) + 1
  {
    LineBasesShape(t);
    LineBasesShape(t[..q] + [NL] + s + t[q..]);
    NewlineCountAppend(t[..q] + [NL] + s, t[q..]);
    NewlineCountAppend(t[..q] + [NL], s);
    NewlineCountAppend(t[..q], [NL]);
    NewlineCountAppend(t[..q], t[q..]);
    NoNewlineAppend([], s);
    assert [] + s == s;
    assert t[..q] + t[q..] == t;
  }

  /** One more space typed in front of a run of spaces lengthens the run. */
  lemma SpaceBefore(a: seq<u8>, sp: seq<u8>, b: seq<u8>)
    requires forall k :: 0 <= k < |sp| ==> sp[k] == SPACE
    ensures var t := a + sp + b; t[..|a|] + [SPACE] + t[|a|..] == a + Spaces(|sp| + 1) + b
  {
    var t := a + sp + b;
    assert t[..|a|] == a && t[|a|..] == sp + b;
    assert [SPACE] + sp == Spaces(|sp| + 1);
  }

  /** One more space typed after a run of spaces lengthens the run. */
  lemma SpaceAfter(a: seq<u8>, sp: seq<u8>, b: seq<u8>)
    requires forall k :: 0 <= k < |sp| ==> sp[k] == SPACE
    ensures var t := a + sp + b; t[..|a| + |sp|] + [SPACE] + t[|a| + |sp|..] == a + Spaces(|sp| + 1) + b
  {
    var t := a + sp + b;
    assert t[..|a| + |sp|] == a + sp && t[|a| + |sp|..] == b;
    assert sp + [SPACE] == Spaces(|sp| + 1);
  }

  /**
   * One `insert_char` of a space at either end of a run of `i` spaces that
   * earlier insertions put at offset `pos` of `t0`: the run grows by one.
   */
  method InsertSpaceInRun(buf: TextBuffer, ghost t0: seq<u8>, pos: int, i: nat, at: int)
    requires buf.Valid() && 0 <= pos <= |t0| && buf.Text() == t0[..pos] + Spaces(i) + t0[pos..]
    requires at == pos || at == pos + i
    modifies buf, buf.contents
    ensures buf.Valid() && (buf.contents == old(buf.contents) || fresh(buf.contents))
    ensures buf.Text() == t0[..pos] + Spaces(i + 1) + t0[pos..]
  {
    buf.InsertChar(at, SPACE);
    if at == pos {
      SpaceBefore(t0[..pos], Spaces(i), t0[pos..]);
    } else {
      SpaceAfter(t0[..pos], Spaces(i), t0[pos..]);
    }
  }

  // ---------------------------------------------------------------- typing

  /** `self_insert`: the last typed byte goes in at the cursor, which moves past it. */
  method SelfInsert(buf: TextBuffer, v: View, c: u8) returns (r: View)
    requires buf.Valid() && ViewOk(buf.Text(), v)
    modifies buf, buf.contents
    ensures buf.Valid()
    ensures buf.Text() == old(buf.Text())[..v.cursor.pos] + [c] + old(buf.Text())[v.cursor.pos..]
    ensures ViewOk(buf.Text(), r) && r.cursor == CursorAt(buf.Text(), v.cursor.pos + 1)
    ensures c != NL ==> r.cursor.line == v.cursor.line && r.cursor.col == v.cursor.col + 1
    ensures r.(cursor := v.cursor) == v
  {
    ghost var t0 := buf.Text();
    buf.InsertChar(v.cursor.pos, c);
    var cur := buf.GetCursorFromPos(v.cursor.pos + 1);
    r := v.(cursor := cur);
    if c != NL {
      InsertWithoutNewline(t0, v.cursor.pos, [c]);
    }
  }

  /** `insert_newline`: a '\n' goes in at the cursor, which moves to the start of the new line. */
  method InsertNewline(buf: TextBuffer, v: View) returns (r: View)
    requires buf.Valid() && ViewOk(buf.Text(), v)
    modifies buf, buf.contents
    ensures buf.Valid()
    ensures buf.Text() == old(buf.Text())[..v.cursor.pos] + [NL] + old(buf.Text())[v.cursor.pos..]
    ensures ViewOk(buf.Text(), r) && r.cursor == CursorAt(buf.Text(), v.cursor.pos + 1)
    ensures r.cursor.line == v.cursor.line + 1 && r.cursor.col == 0
    ensures r.(cursor := v.cursor) == v
  {
    ghost var t0 := buf.Text();
    buf.InsertChar(v.cursor.pos, NL);
    InsertNewlineAt(t0, v.cursor.pos);
    var cur := buf.GetCursorFromLine(v.cursor.line + 1);
    r := v.(cursor := cur);
  }

  /** The loop of `insert_tab`: `n` spaces go in one after another, each at offset `pos`. */
  method InsertSpacesAt(buf: TextBuffer, pos: int, n: int)
    requires buf.Valid() && 0 <= pos <= |buf.Text()| && 0 <= n
    modifies buf, buf.contents
    ensures buf.Valid()
    ensures buf.Text() == old(buf.Text())[..pos] + Spaces(n) + old(buf.Text())[pos..]
  {
    ghost var t0 := buf.Text();
    var i := 0;
    while i < n
      invariant 0 <= i <= n
      invariant buf.Valid() && (buf.contents == old(buf.contents) || fresh(buf.contents))
      invariant buf.Text() == t0[..pos] + Spaces(i) + t0[pos..]
    {
      InsertSpaceInRun(buf, t0, pos, i, pos);
      i := i + 1;
    }
  }

  /** `insert_tab`: four spaces go in at the cursor, which moves past them. */
  method InsertTab(buf: TextBuffer, v: View) returns (r: View)
    requires buf.Valid() && ViewOk(buf.Text(), v)
    modifies buf, buf.contents
    ensures buf.Valid()
    ensures buf.Text() == old(buf.Text())[..v.cursor.pos] + Spaces(4) + old(buf.Text())[v.cursor.pos..]
    ensures ViewOk(buf.Text(), r) && r.cursor == CursorAt(buf.Text(), v.cursor.pos + 4)
    ensures r.cursor.line == v.cursor.line && r.cursor.col == v.cursor.col + 4
    ensures r.(cursor := v.cursor) == v
  {
    ghost var t0 := buf.Text();
    var p := v.cursor.pos;
    InsertSpacesAt(buf, p, 4);
    var cur := buf.GetCursorFromPos(p + 4);
    r := v.(cursor := cur);
    InsertWithoutNewline(t0, p, Spaces(4));
  }

  /** `delete_char_backward`: the byte before the cursor goes and the cursor moves back onto its offset. */
  method DeleteCharBackward(buf: TextBuffer, v: View) returns (r: View)
    requires buf.Valid() && ViewOk(buf.Text(), v)
    modifies buf, buf.contents
    ensures buf.Valid()
    ensures v.cursor.pos == 0 ==> buf.Text() == old(buf.Text()) && r == v
    ensures v.cursor.pos > 0 ==>
      buf.Text() == old(buf.Text())[..v.cursor.pos - 1] + old(buf.Text())[v.cursor.pos..] &&
      r.cursor == CursorAt(buf.Text(), v.cursor.pos - 1)
    ensures ViewOk(buf.Text(), r) && r.(cursor := v.cursor) == v
  {
    r := v;
    if v.cursor.pos > 0 {
      buf.DeleteSingle(v.cursor.pos - 1);
      var cur := buf.GetCursorFromPos(v.cursor.pos - 1);
      r := v.(cursor := cur);
    }
  }

  /** Deleting the byte before a cursor that is not at a line start keeps it on its line, one column back. */
  lemma DeleteBackwardWithinLine(t: seq<u8>, p: int)
    requires 0 < p <= |t| && t[p - 1] != NL
    ensures var t1 := t[..p - 1] + t[p..];
      CursorAt(t1, p - 1) == Cursor(p - 1, CursorAt(t, p).line, CursorAt(t, p).col - 1)
  {
    var t1 := t[..p - 1] + t[p..];
    assert t == t1[..p - 1] + [t[p - 1]] + t1[p - 1..];
    InsertWithoutNewline(t1, p - 1, [t[p - 1]]);
  }

  // ---------------------------------------------------------------- opening lines

  /** Where `open_line_above` inserts: the '\n' that ends the previous line, or offset 0 on the first line. */
  function LineAbovePos(t: seq<u8>, l: int): (q: int)
    requires 0 <= l < LineCount(t)
    ensures 0 <= q <= |t|
    ensures l == 0 ==> q == 0
    ensures 0 < l ==> q + 1 == LineStart(t, l) && t[q] == NL
  {
    Max(LineStart(t, l) - 1, 0)
  }

  /** Inserting a '\n' at `LineAbovePos(t, l)` makes line `l` an empty line starting where line `l` started. */
  lemma OpenedLineAbove(t: seq<u8>, l: int)
    requires 0 <= l < LineCount(t)
    ensures var q := LineAbovePos(t, l);
      var t1 := t[..q] + [NL] + t[q..];
      l < LineCount(t1) && LineStart(t1, l) == LineStart(t, l) && LineEnd(t1, l) == LineStart(t1, l)
  {
    var q := LineAbovePos(t, l);
    var t1 := t[..q] + [NL] + t[q..];
    InsertNewlineCount(t, q, []);
    assert t[..q] + [NL] + [] + t[q..] == t1;
    LineBasesShape(t1);
    if l == 0 {
      LineEndAt(t1, 0);
    } else {
      var base := LineStart(t, l);
      LineShape(t, l);
      LineOfUnique(t, l, base);
      AfterNewline(t, base);
      assert t1[..q] == t[..q];
      AfterNewline(t1, q + 1);
      assert t1[q + 1] == t[q];
      LineEndAt(t1, q + 1);
    }
  }

  /**
   * `open_line_above`: a '\n' goes in before the start of the cursor's line,
   * and the cursor goes to the empty line that appears there, in insert mode.
   */
  method OpenLineAbove(buf: TextBuffer, v: View) returns (r: View)
    requires buf.Valid() && ViewOk(buf.Text(), v)
    modifies buf, buf.contents
    ensures buf.Valid()
    ensures var q := LineAbovePos(old(buf.Text()), v.cursor.line);
      buf.Text() == old(buf.Text())[..q] + [NL] + old(buf.Text())[q..]
    ensures ViewOk(buf.Text(), r) && r.cursor.line == v.cursor.line && r.cursor.col == 0
    ensures r.cursor.pos == LineStart(old(buf.Text()), v.cursor.line)
    ensures LineEnd(buf.Text(), r.cursor.line) == r.cursor.pos
    ensures r == InsertMode(v.(cursor := r.cursor))
  {
    ghost var t0 := buf.Text();
    var pos := buf.GetLinePos(v.cursor.line) - 1;
    if pos < 0 {
      pos := 0;
    }
    assert pos == LineAbovePos(t0, v.cursor.line);
    buf.InsertChar(pos, NL);
    OpenedLineAbove(t0, v.cursor.line);
    var cur := buf.GetCursorFromLine(v.cursor.line);
    r := InsertMode(v.(cursor := cur));
  }

  /** The first offset at or after `i` that does not hold a space (past the end there is the 0 sentinel). */
  function LeadingSpaces(t: seq<u8>, i: int): (j: int)
    requires 0 <= i
    ensures i <= j && CharAt(t, j) != SPACE
    decreases |t| - i
  {
    if CharAt(t, i) != SPACE then i else LeadingSpaces(t, i + 1)
  }

  /** Every offset a run of spaces passes over holds a space, and the run stops at any non-space. */
  lemma {:induction false} LeadingSpacesRun(t: seq<u8>, i: int, e: int)
    requires 0 <= i <= e && CharAt(t, e) != SPACE
    ensures LeadingSpaces(t, i) <= e
    ensures forall k :: i <= k < LeadingSpaces(t, i) ==> CharAt(t, k) == SPACE
    decreases e - i
  {
    if CharAt(t, i) == SPACE {
      LeadingSpacesRun(t, i + 1, e);
    }
  }

  /** Number of spaces that open line `l`. */
  function Indentation(t: seq<u8>, l: int): (n: int)
    requires 0 <= l < LineCount(t)
    ensures 0 <= n && LineStart(t, l) + n <= LineEnd(t, l)
    ensures CharAt(t, LineStart(t, l) + n) != SPACE
  {
    var e := LineEnd(t, l);
    LeadingSpacesRun(t, LineStart(t, l), e);
    LeadingSpaces(t, LineStart(t, l)) - LineStart(t, l)
  }

  /** The indentation of a line is a run of spaces at its start, ended by a byte that is not a space. */
  lemma IndentationIsSpaces(t: seq<u8>, l: int)
    requires 0 <= l < LineCount(t)
    ensures forall j :: LineStart(t, l) <= j < LineStart(t, l) + Indentation(t, l) ==> t[j] == SPACE
    ensures LineStart(t, l) + Indentation(t, l) < LineEnd(t, l) ==> t[LineStart(t, l) + Indentation(t, l)] != SPACE
  {
    LeadingSpacesRun(t, LineStart(t, l), LineEnd(t, l));
    forall j | LineStart(t, l) <= j < LineStart(t, l) + Indentation(t, l)
      ensures t[j] == SPACE
    {
      assert CharAt(t, j) == SPACE;
    }
  }

  /** A line's bytes read through `CharAt` are its text followed by its '\n' or the 0 sentinel. */
  lemma LineBytes(t: seq<u8>, l: int, s: seq<u8>)
    requires 0 <= l < LineCount(t) && |s| == LineLength(t, l)
    requires forall k :: 0 <= k < |s| ==> s[k] == CharAt(t, LineStart(t, l) + k)
    ensures s[..|s| - 1] == t[LineStart(t, l)..LineEnd(t, l)]
    ensures s[|s| - 1] == CharAt(t, LineEnd(t, l))
  {
  }

  /** `get_line_string`: a copy of the line's bytes followed by its '\n' (the 0 sentinel on the last line). */
  method GetLineString(buf: TextBuffer, line: int) returns (s: seq<u8>)
    requires buf.Valid() && 0 <= line < LineCount(buf.Text())
    ensures |s| == LineLength(buf.Text(), line)
    ensures forall k :: 0 <= k < |s| ==> s[k] == CharAt(buf.Text(), LineStart(buf.Text(), line) + k)
    ensures s[..|s| - 1] == buf.Text()[LineStart(buf.Text(), line)..LineEnd(buf.Text(), line)]
    ensures s[|s| - 1] == CharAt(buf.Text(), LineEnd(buf.Text(), line))
  {
    ghost var t := buf.Text();
    ghost var base := LineStart(t, line);
    var len := buf.GetLineLength(line);
    s := [];
    var i := 0;
    var pos := buf.GetCursorFromLine(line).pos;
    while i < len
      invariant 0 <= i <= len && pos == base + i && |s| == i
      invariant forall k :: 0 <= k < i ==> s[k] == CharAt(t, base + k)
    {
      s := s + [buf.CharFromPos(pos)];
      i := i + 1;
      pos := pos + 1;
    }
    LineBytes(t, line, s);
  }

  /** The loop of `get_line_indentation` over `s`, the copy of line `l` that `get_line_string` returns: the spaces that open it. */
  method CountLeadingSpaces(ghost t: seq<u8>, l: int, s: seq<u8>) returns (indent: int)
    requires 0 <= l < LineCount(t) && |s| == LineLength(t, l)
    requires forall k :: 0 <= k < |s| ==> s[k] == CharAt(t, LineStart(t, l) + k)
    ensures indent == Indentation(t, l)
  {
    ghost var base := LineStart(t, l);
    LeadingSpacesRun(t, base, LineEnd(t, l));
    indent := 0;
    var i := 0;
    while i < |s|
      invariant 0 <= i <= |s| && indent == i
      invariant LeadingSpaces(t, base + i) == LeadingSpaces(t, base)
    {
      if s[i] != SPACE {
        break;
      }
      indent := indent + 1;
      i := i + 1;
    }
  }

  /** `get_line_indentation`: the number of spaces that open the line; 0 for a negative line. */
  method GetLineIndentation(buf: TextBuffer, line: int) returns (indent: int)
    requires buf.Valid() && line < LineCount(buf.Text())
    ensures line < 0 ==> indent == 0
    ensures 0 <= line ==> indent == Indentation(buf.Text(), line)
  {
    indent := 0;
    if line >= 0 {
      var s := GetLineString(buf, line);
      indent := CountLeadingSpaces(buf.Text(), line, s);
    }
  }

  /** A line that opens after `a` and a '\n', holds `s` and then ends at offset `q`. */
  lemma LineAfterPrefix(t: seq<u8>, q: int, a: seq<u8>, s: seq<u8>)
    requires 0 <= q <= |t| && (q == |t| || t[q] == NL)
    requires t[..q] == a + [NL] + s
    requires forall k :: 0 <= k < |s| ==> s[k] != NL
    ensures 0 <= LineOf(t, q) < LineCount(t) && LineOf(t, q) == NewlineCount(a) + 1
    ensures LineBases(t)[LineOf(t, q)] == |a| + 1 && LineBases(t)[LineOf(t, q) + 1] - 1 == q
  {
    NoNewlineAppend(a + [NL], s);
    ScanStep(a, NL);
    LineStartOfPrefix(t, q);
    LineEndAt(t, q);
  }

  /** After inserting a '\n' and `n` spaces in front of a line's last byte `e`, offset `e + 1 + n` ends the next line, which starts at `e + 1`. */
  lemma SpacedLineAfter(t: seq<u8>, e: int, n: nat)
    requires 0 <= e <= |t| && (e == |t| || t[e] == NL)
    ensures var t1 := t[..e] + [NL] + Spaces(n) + t[e..];
      var q := e + 1 + n;
      LineOf(t1, q) == LineOf(t, e) + 1 && LineOf(t1, q) < LineCount(t1) &&
      LineBases(t1)[LineOf(t1, q)] == e + 1 && LineBases(t1)[LineOf(t1, q) + 1] - 1 == q
  {
    var t1 := t[..e] + [NL] + Spaces(n) + t[e..];
    var q := e + 1 + n;
    assert t1[..q] == t[..e] + [NL] + Spaces(n);
    assert q == |t1| || t1[q] == NL by {
      if e < |t| {
        assert t1[q] == t[e];
      }
    }
    LineAfterPrefix(t1, q, t[..e], Spaces(n));
  }

  /** Inserting a '\n' and `n` spaces at the end of line `l` opens line `l + 1` holding just those spaces. */
  lemma OpenedLineBelow(t: seq<u8>, l: int, n: nat, t1: seq<u8>)
    requires 0 <= l < LineCount(t)
    requires t1 == t[..LineEnd(t, l)] + [NL] + Spaces(n) + t[LineEnd(t, l)..]
    ensures l + 1 < LineCount(t1) && LineStart(t1, l + 1) == LineEnd(t, l) + 1
    ensures LineEnd(t1, l + 1) == LineEnd(t, l) + 1 + n
    ensures CursorAt(t1, LineEnd(t1, l + 1)) == Cursor(LineEnd(t1, l + 1), l + 1, n)
  {
    SpacedLineAfter(t, LineEnd(t, l), n);
    CursorAtLineEnd(t1, l + 1);
  }

  /** The spacing loop of `open_line`: `n` spaces go in one after another from `pos` on. */
  method InsertSpacesFrom(buf: TextBuffer, pos: int, n: int)
    requires buf.Valid() && 0 <= pos <= |buf.Text()| && 0 <= n
    modifies buf, buf.contents
    ensures buf.Valid()
    ensures buf.Text() == old(buf.Text())[..pos] + Spaces(n) + old(buf.Text())[pos..]
  {
    ghost var t0 := buf.Text();
    var i := 0;
    while i < n
      invariant 0 <= i <= n
      invariant buf.Valid() && (buf.contents == old(buf.contents) || fresh(buf.contents))
      invariant buf.Text() == t0[..pos] + Spaces(i) + t0[pos..]
    {
      InsertSpaceInRun(buf, t0, pos, i, pos + i);
      i := i + 1;
    }
  }

  /** The edits of `open_line`: a '\n' at `pos`, then `n` spaces after it. */
  method InsertIndentedBreak(buf: TextBuffer, pos: int, n: int)
    requires buf.Valid() && 0 <= pos <= |buf.Text()| && 0 <= n
    modifies buf, buf.contents
    ensures buf.Valid()
    ensures buf.Text() == old(buf.Text())[..pos] + [NL] + Spaces(n) + old(buf.Text())[pos..]
  {
    ghost var t0 := buf.Text();
    buf.InsertChar(pos, NL);
    ghost var t1 := buf.Text();
    InsertSpacesFrom(buf, pos + 1, n);
    assert t1[..pos + 1] == t0[..pos] + [NL] && t1[pos + 1..] == t0[pos..];
  }

  /** The document after `open_line` on line `l`: a '\n' and the line's indentation inserted at its last byte. */
  function OpenedBelow(t: seq<u8>, l: int): (t1: seq<u8>)
    requires 0 <= l < LineCount(t)
    ensures l + 1 < LineCount(t1)
  {
    var t1 := t[..LineEnd(t, l)] + [NL] + Spaces(Indentation(t, l)) + t[LineEnd(t, l)..];
    OpenedLineBelow(t, l, Indentation(t, l), t1);
    t1
  }

  /** Where `open_line` leaves the cursor: at the end of the opened line. */
  function OpenedCursor(t: seq<u8>, l: int): Cursor
    requires 0 <= l < LineCount(t)
  {
    var t1 := OpenedBelow(t, l);
    CursorAt(t1, LineEnd(t1, l + 1))
  }

  /** `get_cursor_from_pos(buffer, get_line_end_pos(buffer, line))` right after `open_line` on `t0`: the cursor on the last byte of the opened line. */
  method CursorOnOpenedLine(buf: TextBuffer, ghost t0: seq<u8>, l: int) returns (c: Cursor)
    requires 0 <= l < LineCount(t0) && buf.Valid() && buf.Text() == OpenedBelow(t0, l)
    ensures c == OpenedCursor(t0, l)
  {
    ghost var t1 := buf.Text();
    var pos := buf.GetLineEndPos(l + 1);
    assert pos == LineEnd(t1, l + 1);
    c := buf.GetCursorFromPos(pos);
  }

  /**
   * `open_line`: a '\n' followed by the current line's indentation goes in at
   * the end of the cursor's line; the cursor goes to the end of the new line,
   * in insert mode.
   */
  method OpenLine(buf: TextBuffer, v: View) returns (r: View)
    requires buf.Valid() && ViewOk(buf.Text(), v)
    modifies buf, buf.contents
    ensures buf.Valid() && buf.Text() == OpenedBelow(old(buf.Text()), v.cursor.line)
    ensures r == InsertMode(v.(cursor := OpenedCursor(old(buf.Text()), v.cursor.line)))
  {
    ghost var t0 := buf.Text();
    var indent := GetLineIndentation(buf, v.cursor.line);
    var pos := buf.GetLineEndPos(v.cursor.line);
    assert pos == LineEnd(t0, v.cursor.line);
    InsertIndentedBreak(buf, pos, indent);
    ghost var t1 := buf.Text();
    assert t1 == OpenedBelow(t0, v.cursor.line);
    var cur := CursorOnOpenedLine(buf, t0, v.cursor.line);
    r := InsertMode(v.(cursor := cur));
  }

  /**
   * After `open_line` the view is well-formed: the cursor is settled at the end
   * of the new line, which starts just past the old line's end and holds as
   * many columns as the old line's indentation.
   */
  lemma OpenLineView(t: seq<u8>, v: View)
    requires ViewOk(t, v)
    ensures var t1 := OpenedBelow(t, v.cursor.line);
      var c := OpenedCursor(t, v.cursor.line);
      ViewOk(t1, InsertMode(v.(cursor := c))) && c.line == v.cursor.line + 1 &&
      c.col == Indentation(t, v.cursor.line) && LineStart(t1, c.line) == LineEnd(t, v.cursor.line) + 1 &&
      c.pos == LineEnd(t, v.cursor.line) + 1 + Indentation(t, v.cursor.line)
  {
    OpenedLineBelow(t, v.cursor.line, Indentation(t, v.cursor.line), OpenedBelow(t, v.cursor.line));
  }

  // ---------------------------------------------------------------- deleting the selection

  /** The offsets a selection covers: the span between cursor and anchor, or the cursor's own offset. */
  ghost predicate Covered(v: View, i: int)
  {
    if v.selectActive then Min(v.cursor.pos, v.selectCursor.pos) <= i <= Max(v.cursor.pos, v.selectCursor.pos)
    else i == v.cursor.pos
  }

  /**
   * The range `delete_selection` passes to `delete_range`, as written: from the
   * lower end to one past the upper end, whatever the document's length.
   */
  function SelectionRangeAsWritten(v: View): (r: (int, int))
    ensures r.0 < r.1
    ensures forall i :: r.0 <= i < r.1 <==> Covered(v, i)
  {
    var lo := if v.selectActive then Min(v.cursor.pos, v.selectCursor.pos) else v.cursor.pos;
    var hi := if v.selectActive then Max(v.cursor.pos, v.selectCursor.pos) else v.cursor.pos;
    (lo, hi + 1)
  }

  /** With the cursor after the last byte of "a", the range as written ends past the document. */
  lemma SelectionRangePastEnd()
    ensures var t: seq<u8> := [97];
      var v := View(Cursor(1, 0, 1), Keymaps.NormalMap, false, Cursor(0, 0, 0), 0, 0, 1);
      ViewOk(t, v) && SelectionOk(t, v) && SelectionRangeAsWritten(v).1 > |t|
  {
    var t: seq<u8> := [97];
    assert t[..1] == t && t[..0] == [];
    assert NewlineCount(t) == 0;
    assert Breaks(t) == [];
    assert LineBases(t) == [0, 2];
  }

  /** The range `delete_selection` removes, with its end kept inside the document. */
  function SelectionRange(v: View, len: int): (r: (int, int))
    requires 0 <= v.cursor.pos <= len && (v.selectActive ==> 0 <= v.selectCursor.pos <= len)
    ensures 0 <= r.0 <= r.1 <= len
    ensures forall i :: 0 <= i < len ==> (r.0 <= i < r.1 <==> Covered(v, i))
  {
    var lo := if v.selectActive then Min(v.cursor.pos, v.selectCursor.pos) else v.cursor.pos;
    var hi := if v.selectActive then Max(v.cursor.pos, v.selectCursor.pos) else v.cursor.pos;
    (lo, Min(hi + 1, len))
  }

  /**
   * `delete_selection`, with the end of the range clamped to the document:
   * the covered bytes go, the cursor and the anchor both land where the range
   * began, and the view returns to normal mode.
   */
  method DeleteSelection(buf: TextBuffer, v: View) returns (r: View)
    requires buf.Valid() && ViewOk(buf.Text(), v) && SelectionOk(buf.Text(), v)
    modifies buf, buf.contents
    ensures buf.Valid()
    ensures var range := SelectionRange(v, |old(buf.Text())|);
      buf.Text() == old(buf.Text())[..range.0] + old(buf.Text())[range.1..]
    ensures r.cursor == CursorAt(buf.Text(), SelectionRange(v, |old(buf.Text())|).0)
    ensures ViewOk(buf.Text(), r) && SelectionOk(buf.Text(), r) && r.selectCursor == r.cursor
    ensures r == NormalMode(v.(cursor := r.cursor, selectCursor := r.cursor))
  {
    var start := v.cursor.pos;
    var end := v.selectCursor.pos;
    if end < start {
      start, end := end, start;
    }
    if !v.selectActive {
      start := v.cursor.pos;
      end := start;
    }
    var stop := end + 1;
    if stop > buf.BufferLength() {
      stop := buf.BufferLength();
    }
    ghost var range := SelectionRange(v, buf.BufferLength());
    assert start == range.0 && stop == range.1;
    buf.DeleteRange(start, stop);
    var cur := buf.GetCursorFromPos(start);
    r := NormalMode(v.(cursor := cur, selectCursor := cur));
  }
}
