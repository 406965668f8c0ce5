/**
 * The cursor motions and selection commands of codex.cpp. Each reads the
 * buffer of the active view and returns the view's new state; none of them
 * changes the document.
 */
module Motions {
  import opened Bytes
  import opened Lines
  import opened TextStore
  import opened Clamping
  import opened Views
  import Keymaps

  // ---------------------------------------------------------------- goto

  /** `goto_file_start`: the first byte of the document, scrolled to the top. */
  method GotoFileStart(buf: TextBuffer, v: View) returns (r: View)
    requires buf.Valid() && ViewOk(buf.Text(), v)
    ensures ViewOk(buf.Text(), r)
    ensures r.cursor == Cursor(0, 0, 0) && r.lineOffset == 0
    ensures r.(cursor := v.cursor, lineOffset := v.lineOffset) == v
  {
    r := v.(cursor := Cursor(0, 0, 0), lineOffset := 0);
    LineBasesShape(buf.Text());
    SettledInLine(buf.Text(), 0, 0);
  }

  /**
   * `goto_file_end` as written: the cursor goes to offset `buffer_length - 1`
   * and the view scrolls so that its line is the second from the bottom.
   * On an empty document that offset is -1, which is not a cursor of it.
   */
  method GotoFileEndAsWritten(buf: TextBuffer, v: View) returns (r: View)
    requires buf.Valid() && ViewOk(buf.Text(), v)
    ensures |buf.Text()| > 0 ==> ViewOk(buf.Text(), r) && r.cursor == CursorAt(buf.Text(), |buf.Text()| - 1)
    ensures |buf.Text()| == 0 ==> r.cursor == Cursor(-1, 0, 0) && !Settled(buf.Text(), r.cursor)
    ensures r.lineOffset == r.cursor.line - v.lines + 2
    ensures r.(cursor := v.cursor, lineOffset := v.lineOffset) == v
  {
    var c := buf.GetCursorFromPos(buf.BufferLength() - 1);
    r := v.(cursor := c, lineOffset := c.line - v.lines + 2);
  }

  /**
   * `goto_file_end` with the offset kept inside the document: the last byte,
   * or offset 0 when the document is empty.
   */
  method GotoFileEnd(buf: TextBuffer, v: View) returns (r: View)
    requires buf.Valid() && ViewOk(buf.Text(), v)
    ensures ViewOk(buf.Text(), r)
    ensures r.cursor == CursorAt(buf.Text(), Max(|buf.Text()| - 1, 0))
    ensures r.lineOffset == r.cursor.line - v.lines + 2
    ensures r.(cursor := v.cursor, lineOffset := v.lineOffset) == v
  {
    var pos := buf.BufferLength() - 1;
    if pos < 0 {
      pos := 0;
    }
    var c := buf.GetCursorFromPos(pos);
    r := v.(cursor := c, lineOffset := c.line - v.lines + 2);
  }

  /** `goto_line_end`: the '\n' that ends the cursor's line, or the document end. */
  method GotoLineEnd(buf: TextBuffer, v: View) returns (r: View)
    requires buf.Valid() && ViewOk(buf.Text(), v)
    ensures ViewOk(buf.Text(), r) && r.cursor.line == v.cursor.line
    ensures r.cursor.pos == LineEnd(buf.Text(), v.cursor.line)
    ensures v.cursor.pos <= r.cursor.pos
    ensures r.(cursor := v.cursor) == v
  {
    var c := buf.GetCursorFromPos(buf.GetLineEndPos(v.cursor.line));
    r := v.(cursor := c);
    LineShape(buf.Text(), v.cursor.line);
  }

  /** `goto_line_start`: column 0 of the cursor's line. */
  method GotoLineStart(buf: TextBuffer, v: View) returns (r: View)
    requires buf.Valid() && ViewOk(buf.Text(), v)
    ensures ViewOk(buf.Text(), r)
    ensures r.cursor == Cursor(LineStart(buf.Text(), v.cursor.line), v.cursor.line, 0)
    ensures r.(cursor := v.cursor) == v
  {
    var c := buf.GetCursorFromPos(buf.GetLinePos(v.cursor.line));
    r := v.(cursor := c);
    LineShape(buf.Text(), v.cursor.line);
    SettledInLine(buf.Text(), v.cursor.line, 0);
  }

  // ---------------------------------------------------------------- characters

  /** `move_char_left`: one byte back unless at offset 0; the window scrolls left to keep the column visible. */
  method MoveCharLeft(buf: TextBuffer, v: View) returns (r: View)
    requires buf.Valid() && ViewOk(buf.Text(), v)
    ensures ViewOk(buf.Text(), r)
    ensures r.cursor == CursorAt(buf.Text(), Max(v.cursor.pos - 1, 0))
    ensures r.colOffset == Min(v.colOffset, r.cursor.col)
    ensures r.(cursor := v.cursor, colOffset := v.colOffset) == v
  {
    r := v;
    if v.cursor.pos > 0 {
      var c := buf.GetCursorFromPos(v.cursor.pos - 1);
      r := r.(cursor := c);
    }
    if r.cursor.col < r.colOffset {
      r := r.(colOffset := r.cursor.col);
    }
  }

  /** The step of `move_char_right`: the cursor one byte on, or where it is at the document end. */
  method StepRight(buf: TextBuffer, p: int) returns (c: Cursor)
    requires buf.Valid() && 0 <= p <= |buf.Text()|
    ensures c == CursorAt(buf.Text(), Min(p + 1, |buf.Text()|)) && Settled(buf.Text(), c)
  {
    if p < buf.BufferLength() {
      c := buf.GetCursorFromPos(p + 1);
    } else {
      c := buf.GetCursorFromPos(p);
    }
  }

  /** `move_char_right`: one byte on unless at the document end; the window scrolls right to keep the column visible. */
  method MoveCharRight(buf: TextBuffer, v: View) returns (r: View)
    requires buf.Valid() && ViewOk(buf.Text(), v)
    ensures ViewOk(buf.Text(), r)
    ensures r.cursor == CursorAt(buf.Text(), Min(v.cursor.pos + 1, |buf.Text()|))
    ensures r.colOffset == Max(v.colOffset, r.cursor.col - LineLength(buf.Text(), r.cursor.line) + 1)
    ensures r.cursor.col <= r.colOffset + LineLength(buf.Text(), r.cursor.line) - 1
    ensures r.(cursor := v.cursor, colOffset := v.colOffset) == v
  {
    var c := StepRight(buf, v.cursor.pos);
    var cols := buf.GetLineLength(c.line);
    r := v.(cursor := c);
    if c.col > v.colOffset + cols - 1 {
      r := r.(colOffset := c.col - cols + 1);
    }
  }

  // ---------------------------------------------------------------- words

  /** The first offset at or after `i` whose whitespace class is `want`, or an offset at or past the end. */
  function Scan(t: seq<u8>, i: int, want: bool): (j: int)
    requires 0 <= i
    ensures i <= j && (i <= |t| ==> j <= |t|) && (i >= |t| ==> j == i)
    ensures j < |t| ==> IsWhitespace(t[j]) == want
    decreases |t| - i
  {
    if i >= |t| || IsWhitespace(t[i]) == want then i else Scan(t, i + 1, want)
  }

  /** Every byte a scan passes over has the other whitespace class. */
  lemma {:induction false} ScanSkips(t: seq<u8>, i: int, want: bool)
    requires 0 <= i
    ensures forall k :: i <= k < Scan(t, i, want) ==> IsWhitespace(t[k]) != want
    decreases |t| - i
  {
    if i < |t| && IsWhitespace(t[i]) != want {
      ScanSkips(t, i + 1, want);
    }
  }

  /** The first step of `move_next_word_end`: when `p` or the byte after it is whitespace, the next non-whitespace byte after `p`; otherwise `p`. */
  function WordStart(t: seq<u8>, p: int): (s: int)
    requires 0 <= p <= |t|
    ensures p <= s <= |t| + 1
  {
    if IsWhitespace(CharAt(t, p)) || IsWhitespace(CharAt(t, p + 1)) then Scan(t, p + 1, false) else p
  }

  /** The second step: the byte before the next whitespace after `s`, or one byte on when none follows, clamped to the document. */
  function WordStop(t: seq<u8>, s: int): (b: int)
    requires 0 <= s
    ensures 0 <= b <= |t|
  {
    var stop := Scan(t, s + 1, true);
    Clamp(if stop < |t| then stop - 1 else s + 1, 0, |t|)
  }

  /**
   * Where `move_next_word_end` puts the cursor from `p`: when `p` or the byte
   * after it is whitespace, first skip to the next non-whitespace byte after
   * `p`; then stop on the byte before the next whitespace. When no whitespace
   * follows, the target is one byte on (clamped to the document end).
   */
  function WordEnd(t: seq<u8>, p: int): (b: int)
    requires 0 <= p <= |t|
    ensures 0 <= b <= |t|
  {
    WordStop(t, WordStart(t, p))
  }

  /** Away from the document end the motion always moves forward. */
  lemma WordEndAdvances(t: seq<u8>, p: int)
    requires 0 <= p < |t|
    ensures p < WordEnd(t, p)
  {
    var start := if IsWhitespace(CharAt(t, p)) || IsWhitespace(CharAt(t, p + 1)) then Scan(t, p + 1, false) else p;
    var stop := Scan(t, start + 1, true);
    if start == p {
      // neither p nor p + 1 is whitespace, so the next whitespace is at p + 2 or later
      assert !IsWhitespace(CharAt(t, p + 1));
      if p + 1 < |t| {
        assert !IsWhitespace(t[p + 1]);
        assert stop >= p + 2;
      }
    }
  }

  /** When whitespace follows the target, the target is the last byte of a word. */
  lemma WordEndBeforeSpace(t: seq<u8>, p: int)
    requires 0 <= p <= |t|
    requires WordEnd(t, p) + 1 < |t| && IsWhitespace(t[WordEnd(t, p) + 1])
    ensures !IsWhitespace(t[WordEnd(t, p)])
  {
    var start := if IsWhitespace(CharAt(t, p)) || IsWhitespace(CharAt(t, p + 1)) then Scan(t, p + 1, false) else p;
    ScanSkips(t, start + 1, true);
    if start != p {
      assert start < |t|;
    }
  }

  /** A scan over bytes that all have the other whitespace class runs to the document end. */
  lemma {:induction false} ScanToEnd(t: seq<u8>, i: int, want: bool)
    requires 0 <= i
    requires forall k :: i <= k < |t| ==> IsWhitespace(t[k]) != want
    ensures Scan(t, i, want) == if i <= |t| then |t| else i
    decreases |t| - i
  {
    if i < |t| {
      ScanToEnd(t, i + 1, want);
    }
  }

  /**
   * When no whitespace follows the word start, there is no word end to find:
   * the motion advances one byte past the word start, clamped to the
   * document end, instead of landing on the word's last byte.
   */
  lemma WordEndWithoutSpace(t: seq<u8>, p: int)
    requires 0 <= p <= |t|
    requires forall k :: WordStart(t, p) + 1 <= k < |t| ==> !IsWhitespace(t[k])
    ensures WordEnd(t, p) == Min(WordStart(t, p) + 1, |t|)
  {
    ScanToEnd(t, WordStart(t, p) + 1, true);
  }

  /** "abc" from 0 lands on 1, the middle of the word, not on its last byte. */
  lemma WordEndAbc()
    ensures WordEnd([97, 98, 99], 0) == 1
  {
    var t: seq<u8> := [97, 98, 99];
    assert !IsWhitespace(CharAt(t, 0)) && !IsWhitespace(CharAt(t, 1));
    assert WordStart(t, 0) == 0;
    WordEndWithoutSpace(t, 0);
  }

  /** The scanning loop of `move_next_word_end`: from `from`, the first byte whose whitespace class is `want`. */
  method ScanBuffer(buf: TextBuffer, from: int, want: bool) returns (pos: int)
    requires buf.ValidGap() && 0 <= from
    ensures pos == Scan(buf.Text(), from, want)
  {
    ghost var t := buf.Text();
    var length := buf.BufferLength();
    pos := from;
    while pos < length
      invariant from <= pos && Scan(t, pos, want) == Scan(t, from, want)
      decreases length - pos
    {
      if IsWhitespace(buf.CharFromPos(pos)) == want {
        break;
      }
      pos := pos + 1;
    }
  }

  /** The first half of `move_next_word_end`: go to a non-whitespace byte. */
  method SkipToWord(buf: TextBuffer, p: int) returns (pos: int)
    requires buf.ValidGap() && 0 <= p <= |buf.Text()|
    ensures pos == WordStart(buf.Text(), p)
  {
    pos := p;
    if IsWhitespace(buf.CharFromPos(pos)) || IsWhitespace(buf.CharFromPos(pos + 1)) {
      pos := ScanBuffer(buf, p + 1, false);
    }
  }

  /** The second half of `move_next_word_end`: stop before the next whitespace byte after `start`. */
  method StopBeforeSpace(buf: TextBuffer, start: int) returns (bound: int)
    requires buf.ValidGap() && 0 <= start
    ensures bound == WordStop(buf.Text(), start)
  {
    var length := buf.BufferLength();
    bound := start + 1;
    var stop := ScanBuffer(buf, start + 1, true);
    if stop < length {
      bound := stop - 1;
    }
    bound := Clamp(bound, 0, buf.BufferLength());
  }

  /** `move_next_word_end`: the cursor goes to `WordEnd` of its offset. */
  method MoveNextWordEnd(buf: TextBuffer, v: View) returns (r: View)
    requires buf.Valid() && ViewOk(buf.Text(), v)
    ensures ViewOk(buf.Text(), r)
    ensures r.cursor == CursorAt(buf.Text(), WordEnd(buf.Text(), v.cursor.pos))
    ensures r.(cursor := v.cursor) == v
  {
    var pos := SkipToWord(buf, v.cursor.pos);
    var bound := StopBeforeSpace(buf, pos);
    var c := buf.GetCursorFromPos(bound);
    r := v.(cursor := c);
  }

  // ---------------------------------------------------------------- lines

  /** `move_line_up`: the line above, same column clamped to that line; scrolls up when it leaves the window. */
  method MoveLineUp(buf: TextBuffer, v: View) returns (r: View)
    requires buf.Valid() && ViewOk(buf.Text(), v)
    ensures ViewOk(buf.Text(), r)
    ensures v.cursor.line == 0 ==> r == v
    ensures v.cursor.line > 0 ==>
      r.cursor.line == v.cursor.line - 1 &&
      r.cursor.col == Min(v.cursor.col, LineLength(buf.Text(), r.cursor.line) - 1) &&
      r.lineOffset == Min(v.lineOffset, r.cursor.line)
    ensures r.(cursor := v.cursor, lineOffset := v.lineOffset) == v
  {
    ghost var t := buf.Text();
    r := v;
    if v.cursor.line > 0 {
      var line := Clamp(v.cursor.line - 1, 0, buf.GetLineCount());
      var col := Clamp(v.cursor.col, 0, buf.GetLineLength(line) - 1);
      var pos := buf.GetLinePos(line) + col;
      r := r.(cursor := Cursor(pos, line, col));
      if r.cursor.line < r.lineOffset {
        r := r.(lineOffset := r.cursor.line);
      }
      SettledInLine(t, line, col);
    }
  }

  /** `move_line_down`: the line below, same column clamped to that line; scrolls down when it leaves the window. */
  method MoveLineDown(buf: TextBuffer, v: View) returns (r: View)
    requires buf.Valid() && ViewOk(buf.Text(), v)
    ensures ViewOk(buf.Text(), r)
    ensures v.cursor.line == LineCount(buf.Text()) - 1 ==> r == v
    ensures v.cursor.line < LineCount(buf.Text()) - 1 ==>
      r.cursor.line == v.cursor.line + 1 &&
      r.cursor.col == Min(v.cursor.col, LineLength(buf.Text(), r.cursor.line) - 1) &&
      r.lineOffset == Max(v.lineOffset, r.cursor.line - v.lines + 1)
    ensures r.(cursor := v.cursor, lineOffset := v.lineOffset) == v
  {
    ghost var t := buf.Text();
    r := v;
    if v.cursor.line < buf.GetLineCount() - 1 {
      var line := Clamp(v.cursor.line + 1, 0, buf.GetLineCount());
      var col := Clamp(v.cursor.col, 0, buf.GetLineLength(line) - 1);
      var pos := buf.GetLinePos(line) + col;
      r := r.(cursor := Cursor(pos, line, col));
      if line > r.lineOffset + r.lines - 1 {
        r := r.(lineOffset := line - r.lines + 1);
      }
      SettledInLine(t, line, col);
    }
  }

  /** A line holds nothing but whitespace before its last byte. */
  ghost predicate LineBlank(t: seq<u8>, l: int)
    requires 0 <= l < LineCount(t)
  {
    forall j :: LineStart(t, l) <= j < LineEnd(t, l) ==> IsWhitespace(t[j])
  }

  /** `buffer_line_empty`: true exactly when the line is blank. */
  method BufferLineEmpty(buf: TextBuffer, line: int) returns (empty: bool)
    requires buf.Valid() && 0 <= line < LineCount(buf.Text())
    ensures empty <==> LineBlank(buf.Text(), line)
  {
    ghost var t := buf.Text();
    LineShape(t, line);
    empty := true;
    var end := buf.GetLineEndPos(line);
    var pos := buf.GetLinePos(line);
    while pos < end
      invariant LineBases(t)[line] <= pos
      invariant forall j :: LineBases(t)[line] <= j < pos && j < end ==> IsWhitespace(t[j])
      decreases end - pos
    {
      if !IsWhitespace(buf.CharFromPos(pos)) {
        empty := false;
        break;
      }
      pos := pos + 1;
    }
  }

  /** The loop of `move_paragraph_up`: the nearest blank line above `from`, or `from` itself. */
  method BlankLineAbove(buf: TextBuffer, from: int) returns (moveLine: int)
    requires buf.Valid() && 0 <= from < LineCount(buf.Text())
    ensures 0 <= moveLine <= from
    ensures moveLine < from ==> LineBlank(buf.Text(), moveLine)
    ensures forall l :: moveLine < l < from ==> !LineBlank(buf.Text(), l)
    ensures moveLine == from ==> forall l :: 0 <= l < from ==> !LineBlank(buf.Text(), l)
  {
    moveLine := from;
    var line := from - 1;
    while line >= 0
      invariant -1 <= line < from && moveLine == from
      invariant forall l :: line < l < from ==> !LineBlank(buf.Text(), l)
      decreases line
    {
      var empty := BufferLineEmpty(buf, line);
      if empty {
        moveLine := line;
        break;
      }
      line := line - 1;
    }
  }

  /** The loop of `move_paragraph_down`: the nearest blank line below `from`, or `from` itself. */
  method BlankLineBelow(buf: TextBuffer, from: int) returns (moveLine: int)
    requires buf.Valid() && 0 <= from < LineCount(buf.Text())
    ensures from <= moveLine < LineCount(buf.Text())
    ensures from < moveLine ==> LineBlank(buf.Text(), moveLine)
    ensures forall l :: from < l < moveLine ==> !LineBlank(buf.Text(), l)
    ensures moveLine == from ==> forall l :: from < l < LineCount(buf.Text()) ==> !LineBlank(buf.Text(), l)
  {
    var lineCount := buf.GetLineCount();
    moveLine := from;
    var line := from + 1;
    while line < lineCount
      invariant from < line <= lineCount && moveLine == from
      invariant forall l :: from < l < line ==> !LineBlank(buf.Text(), l)
      decreases lineCount - line
    {
      var empty := BufferLineEmpty(buf, line);
      if empty {
        moveLine := line;
        break;
      }
      line := line + 1;
    }
  }

  /** `get_cursor_from_pos(buffer, get_line_pos(buffer, line))`: the cursor at the start of `line`. */
  method CursorAtLineStartOf(buf: TextBuffer, line: int) returns (c: Cursor)
    requires buf.Valid() && 0 <= line < LineCount(buf.Text())
    ensures c == Cursor(LineStart(buf.Text(), line), line, 0) && Settled(buf.Text(), c)
  {
    var linePos := buf.GetLinePos(line);
    assert linePos == LineStart(buf.Text(), line);
    CursorWithinLine(buf.Text(), line, linePos);
    c := buf.GetCursorFromPos(linePos);
  }

  /**
   * `move_paragraph_up`: the start of the nearest blank line above the cursor,
   * or the start of the cursor's own line when there is none.
   */
  method MoveParagraphUp(buf: TextBuffer, v: View) returns (r: View)
    requires buf.Valid() && ViewOk(buf.Text(), v)
    ensures ViewOk(buf.Text(), r) && r.cursor.col == 0 && 0 <= r.cursor.line <= v.cursor.line
    ensures r.cursor.line < v.cursor.line ==> LineBlank(buf.Text(), r.cursor.line)
    ensures forall l :: r.cursor.line < l < v.cursor.line ==> !LineBlank(buf.Text(), l)
    ensures r.cursor.line == v.cursor.line ==> forall l :: 0 <= l < v.cursor.line ==> !LineBlank(buf.Text(), l)
    ensures r.(cursor := v.cursor) == v
  {
    var moveLine := BlankLineAbove(buf, v.cursor.line);
    var c := CursorAtLineStartOf(buf, moveLine);
    r := v.(cursor := c);
  }

  /**
   * `move_paragraph_down`: the start of the nearest blank line below the
   * cursor, or the start of the cursor's own line when there is none.
   */
  method MoveParagraphDown(buf: TextBuffer, v: View) returns (r: View)
    requires buf.Valid() && ViewOk(buf.Text(), v)
    ensures ViewOk(buf.Text(), r) && r.cursor.col == 0 && v.cursor.line <= r.cursor.line
    ensures v.cursor.line < r.cursor.line ==> LineBlank(buf.Text(), r.cursor.line)
    ensures forall l :: v.cursor.line < l < r.cursor.line ==> !LineBlank(buf.Text(), l)
    ensures r.cursor.line == v.cursor.line ==>
      forall l :: v.cursor.line < l < LineCount(buf.Text()) ==> !LineBlank(buf.Text(), l)
    ensures r.(cursor := v.cursor) == v
  {
    var moveLine := BlankLineBelow(buf, v.cursor.line);
    var c := CursorAtLineStartOf(buf, moveLine);
    r := v.(cursor := c);
  }

  /** `page_up`: `lines` lines up (not above the first), column 0, that line at the top of the window. */
  method PageUp(buf: TextBuffer, v: View) returns (r: View)
    requires buf.Valid() && ViewOk(buf.Text(), v)
    ensures ViewOk(buf.Text(), r)
    ensures r.cursor.line == Max(v.cursor.line - v.lines, 0) && r.cursor.col == 0
    ensures r.lineOffset == r.cursor.line
    ensures r.(cursor := v.cursor, lineOffset := v.lineOffset) == v
  {
    var line := v.cursor.line;
    line := line - v.lines;
    if line < 0 {
      line := 0;
    }
    var c := buf.GetCursorFromLine(line);
    r := v.(lineOffset := line, cursor := c);
  }

  /** `page_down`: `lines` lines down (not below the last), column 0, that line at the top of the window. */
  method PageDown(buf: TextBuffer, v: View) returns (r: View)
    requires buf.Valid() && ViewOk(buf.Text(), v)
    ensures ViewOk(buf.Text(), r)
    ensures r.cursor.line == Min(v.cursor.line + v.lines, LineCount(buf.Text()) - 1) && r.cursor.col == 0
    ensures r.lineOffset == r.cursor.line
    ensures r.(cursor := v.cursor, lineOffset := v.lineOffset) == v
  {
    var line := v.cursor.line;
    line := line + v.lines;
    var lineCount := buf.GetLineCount();
    if line >= lineCount {
      line := lineCount - 1;
    }
    var c := buf.GetCursorFromLine(line);
    r := v.(lineOffset := line, cursor := c);
  }

  // ---------------------------------------------------------------- entering insert mode

  /** The loop of `insert_at_line_start`: the first offset in `[start, end)` holding a byte that is not whitespace, or `end`. */
  method SkipWhitespace(buf: TextBuffer, start: int, end: int) returns (pos: int)
    requires buf.ValidGap() && 0 <= start <= end <= |buf.Text()|
    ensures start <= pos <= end
    ensures forall j :: start <= j < pos ==> IsWhitespace(buf.Text()[j])
    ensures pos < end ==> !IsWhitespace(buf.Text()[pos])
  {
    pos := start;
    while pos < end
      invariant start <= pos <= end
      invariant forall j :: start <= j < pos ==> IsWhitespace(buf.Text()[j])
      decreases end - pos
    {
      if !IsWhitespace(buf.CharFromPos(pos)) {
        break;
      }
      pos := pos + 1;
    }
  }

  /** `insert_at_line_start`: the first non-whitespace byte of the line (or its last byte), in insert mode. */
  method InsertAtLineStart(buf: TextBuffer, v: View) returns (r: View)
    requires buf.Valid() && ViewOk(buf.Text(), v)
    ensures ViewOk(buf.Text(), r) && r.cursor.line == v.cursor.line
    ensures LineStart(buf.Text(), v.cursor.line) <= r.cursor.pos <= LineEnd(buf.Text(), v.cursor.line)
    ensures forall j :: LineStart(buf.Text(), v.cursor.line) <= j < r.cursor.pos ==> IsWhitespace(buf.Text()[j])
    ensures r.cursor.pos < LineEnd(buf.Text(), v.cursor.line) ==> !IsWhitespace(buf.Text()[r.cursor.pos])
    ensures r == InsertMode(v.(cursor := r.cursor))
  {
    ghost var t := buf.Text();
    var start := buf.GetCursorFromLine(v.cursor.line).pos;
    var end := start + buf.GetLineLength(v.cursor.line) - 1;
    assert start == LineStart(t, v.cursor.line) && end == LineEnd(t, v.cursor.line);
    var pos := SkipWhitespace(buf, start, end);
    CursorWithinLine(t, v.cursor.line, pos);
    var c := buf.GetCursorFromPos(pos);
    r := InsertMode(v.(cursor := c));
  }

  /** `insert_at_line_end`: the last byte of the line (its '\n' or the document end), in insert mode. */
  method InsertAtLineEnd(buf: TextBuffer, v: View) returns (r: View)
    requires buf.Valid() && ViewOk(buf.Text(), v)
    ensures ViewOk(buf.Text(), r) && r.cursor.line == v.cursor.line
    ensures r.cursor.pos == LineEnd(buf.Text(), v.cursor.line)
    ensures r == InsertMode(v.(cursor := r.cursor))
  {
    ghost var t := buf.Text();
    LineShape(t, v.cursor.line);
    var pos := buf.GetLineEndPos(v.cursor.line);
    var c := buf.GetCursorFromPos(pos);
    r := InsertMode(v.(cursor := c));
  }

  // ---------------------------------------------------------------- selection

  /** `extend_line`: select the cursor's whole line, anchor at its start and cursor on its last byte. */
  method ExtendLine(buf: TextBuffer, v: View) returns (r: View)
    requires buf.Valid() && ViewOk(buf.Text(), v)
    ensures ViewOk(buf.Text(), r) && SelectionOk(buf.Text(), r)
    ensures r.selectCursor == Cursor(LineStart(buf.Text(), v.cursor.line), v.cursor.line, 0)
    ensures r.cursor.line == v.cursor.line && r.cursor.pos == LineEnd(buf.Text(), v.cursor.line)
    ensures r == SelectMode(v).(cursor := r.cursor, selectCursor := r.selectCursor)
  {
    ghost var t := buf.Text();
    LineShape(t, v.cursor.line);
    var s := SelectMode(v);
    var begin := buf.GetCursorFromLine(v.cursor.line);
    var endPos := begin.pos + buf.GetLineLength(v.cursor.line) - 1;
    assert endPos == LineEnd(t, v.cursor.line);
    var end := buf.GetCursorFromPos(endPos);
    r := s.(cursor := end, selectCursor := begin);
  }

  /**
   * `extend_line_below`: with a selection active the cursor moves to the end of
   * the next line (the last line at most); otherwise select mode starts at the
   * cursor and the cursor goes to the end of its own line.
   */
  method ExtendLineBelow(buf: TextBuffer, v: View) returns (r: View)
    requires buf.Valid() && ViewOk(buf.Text(), v)
    ensures ViewOk(buf.Text(), r) && r.selectActive
    ensures var target := if v.selectActive then Min(v.cursor.line + 1, LineCount(buf.Text()) - 1) else v.cursor.line;
      r.cursor.line == target && r.cursor.pos == LineEnd(buf.Text(), target)
    ensures v.selectActive ==> r == v.(cursor := r.cursor)
    ensures !v.selectActive ==> r == SelectMode(v).(cursor := r.cursor)
  {
    ghost var t := buf.Text();
    var s := v;
    var line := v.cursor.line + 1;
    if !v.selectActive {
      s := SelectMode(v);
      line := v.cursor.line;
    }
    if line >= buf.GetLineCount() {
      line := buf.GetLineCount() - 1;
    }
    var c := buf.GetCursorFromPos(buf.GetLineEndPos(line));
    r := s.(cursor := c);
  }
}
