/**
 * The gap buffer (`TextBuffer`, codex.cpp lines 170-494): a byte array holding
 * the document in two spans around a movable gap, plus the line index that
 * every mutation rebuilds in full.
 */
module TextStore {
  import opened Bytes
  import opened Lines

  /** `GAP_SIZE`: both the initial capacity of an empty buffer and the growth increment. */
  const GAP_SIZE: int := 1024

  /** `memcpy`: copies `n` bytes of `src` starting at `si` into `dst` starting at `di`; nothing else of `dst` changes. */
  method CopyBytes(dst: array<u8>, di: int, src: array<u8>, si: int, n: int)
    requires dst != src
    requires 0 <= di && 0 <= si && 0 <= n && di + n <= dst.Length && si + n <= src.Length
    modifies dst
    ensures forall k :: di <= k < di + n ==> dst[k] == src[si + k - di]
    ensures forall k :: 0 <= k < dst.Length && !(di <= k < di + n) ==> dst[k] == old(dst[k])
  {
    var i := 0;
    while i < n
      invariant 0 <= i <= n
      invariant forall k :: di <= k < di + i ==> dst[k] == src[si + k - di]
      invariant forall k :: 0 <= k < dst.Length && !(di <= k < di + i) ==> dst[k] == old(dst[k])
    {
      dst[di + i] := src[si + i];
      i := i + 1;
    }
  }

  /** `memcpy(dst, src, n)`: the first `n` bytes of `dst` become those of `src`; the rest of `dst` is kept. */
  method CopyPrefix(dst: array<u8>, src: array<u8>, n: int)
    requires dst != src && 0 <= n <= dst.Length && n <= src.Length
    modifies dst
    ensures dst[..n] == src[..n] && dst[n..] == old(dst[n..])
  {
    CopyBytes(dst, 0, src, 0, n);
  }

  /** Where `gap_shift` takes the byte it puts in slot `k` (outside the new gap): the old slot of the same logical offset. */
  function SlotSource(k: int, newGap: int, oldStart: int, delta: int): int
  {
    var logical := if k < newGap then k else k - delta;
    if logical < oldStart then logical else logical + delta
  }

  /** The three copies of `gap_shift` when the gap moves towards the end. */
  method ShiftRightCopies(temp: array<u8>, src: array<u8>, oldStart: int, oldEnd: int, newGap: int, e: int)
    requires temp != src
    requires 0 <= oldStart < newGap && oldStart <= oldEnd && newGap + (oldEnd - oldStart) <= e
    requires e <= src.Length && e <= temp.Length
    modifies temp
    ensures forall k :: 0 <= k < e && !(newGap <= k < newGap + (oldEnd - oldStart)) ==>
      temp[k] == src[SlotSource(k, newGap, oldStart, oldEnd - oldStart)]
    ensures forall k :: 0 <= k < temp.Length && !(0 <= k < newGap || newGap + (oldEnd - oldStart) <= k < e) ==> temp[k] == old(temp[k])
  {
    var delta := oldEnd - oldStart;
    CopyBytes(temp, 0, src, 0, oldStart);
    CopyBytes(temp, oldStart, src, oldEnd, newGap - oldStart);
    CopyBytes(temp, newGap + delta, src, oldEnd + newGap - oldStart, e - (newGap + delta));
  }

  /** The three copies of `gap_shift` when the gap moves towards the start (or stays). */
  method ShiftLeftCopies(temp: array<u8>, src: array<u8>, oldStart: int, oldEnd: int, newGap: int, e: int)
    requires temp != src
    requires 0 <= newGap <= oldStart <= oldEnd <= e
    requires e <= src.Length && e <= temp.Length
    modifies temp
    ensures forall k :: 0 <= k < e && !(newGap <= k < newGap + (oldEnd - oldStart)) ==>
      temp[k] == src[SlotSource(k, newGap, oldStart, oldEnd - oldStart)]
    ensures forall k :: 0 <= k < temp.Length && !(0 <= k < newGap || newGap + (oldEnd - oldStart) <= k < e) ==> temp[k] == old(temp[k])
  {
    var delta := oldEnd - oldStart;
    CopyBytes(temp, 0, src, 0, newGap);
    CopyBytes(temp, newGap + delta, src, newGap, oldStart - newGap);
    CopyBytes(temp, newGap + delta + (oldStart - newGap), src, oldEnd, e - oldEnd);
  }

  /** Bytes laid out as `SlotSource` says spell, around the new gap, the text the old layout spelled around the old one. */
  lemma ShiftedText(c: seq<u8>, n: seq<u8>, oldStart: int, oldEnd: int, newGap: int, e: int)
    requires 0 <= oldStart <= oldEnd <= e <= |c| && e <= |n|
    requires 0 <= newGap <= e - (oldEnd - oldStart)
    requires forall k :: 0 <= k < e && !(newGap <= k < newGap + (oldEnd - oldStart)) ==>
      n[k] == c[SlotSource(k, newGap, oldStart, oldEnd - oldStart)]
    ensures n[..newGap] + n[newGap + (oldEnd - oldStart)..e] == c[..oldStart] + c[oldEnd..e]
  {
    var delta := oldEnd - oldStart;
    var lhs := n[..newGap] + n[newGap + delta..e];
    var rhs := c[..oldStart] + c[oldEnd..e];
    assert |lhs| == |rhs|;
    forall i | 0 <= i < |lhs|
      ensures lhs[i] == rhs[i]
    {
      var k := if i < newGap then i else i + delta;
      assert lhs[i] == n[k];
    }
  }

  /** Two byte sequences that agree on their first `e` bytes spell the same text around any gap below `e`. */
  lemma SameSpans(x: seq<u8>, y: seq<u8>, a: int, b: int, e: int)
    requires 0 <= a <= b <= e <= |x| && e <= |y| && x[..e] == y[..e]
    ensures x[..a] + x[b..e] == y[..a] + y[b..e]
  {
    assert x[..a] == x[..e][..a] && y[..a] == y[..e][..a];
    assert x[b..e] == x[..e][b..] && y[b..e] == y[..e][b..];
  }

  /** A copy of the first `e` bytes of a layout keeps both the text it spells around a gap and the gap's filling. */
  lemma CopiedLayout(n: seq<u8>, tm: seq<u8>, t: seq<u8>, g: int, delta: int, e: int)
    requires 0 <= g && 0 <= delta && g + delta <= e <= |n| && e <= |tm| && n[..e] == tm[..e]
    requires tm[..g] + tm[g + delta..e] == t
    requires forall k :: g <= k < g + delta ==> tm[k] == DASH
    ensures n[..g] + n[g + delta..e] == t
    ensures forall k :: g <= k < g + delta ==> n[k] == DASH
  {
    SameSpans(n, tm, g, g + delta, e);
    forall k | g <= k < g + delta
      ensures n[k] == DASH
    {
      assert n[k] == n[..e][k];
    }
  }

  /** Bytes changed only inside `[start, stop)` leave the text around a gap `[start, ge)` equal to the old text around `[stop, ge)` less `[start, stop)`. */
  lemma ZeroedSpan(d: seq<u8>, n: seq<u8>, start: int, stop: int, ge: int, e: int)
    requires 0 <= start <= stop <= ge <= e <= |d| == |n|
    requires forall k :: 0 <= k < |n| && !(start <= k < stop) ==> n[k] == d[k]
    ensures var t := d[..stop] + d[ge..e]; n[..start] + n[ge..e] == t[..start] + t[stop..]
  {
    var t := d[..stop] + d[ge..e];
    assert n[..start] == d[..start] == t[..start];
    assert n[ge..e] == d[ge..e] == t[stop..];
  }

  /** `insert_char` and `delete_single` at the same offset undo each other, in either order. */
  lemma InsertDeleteInverse(t: seq<u8>, p: int, c: u8)
    requires 0 <= p <= |t|
    ensures var u := t[..p] + [c] + t[p..]; |u| == |t| + 1 && u[p] == c && u[..p] + u[p + 1..] == t
    ensures p < |t| ==> var d := t[..p] + t[p + 1..]; d[..p] + [t[p]] + d[p..] == t
  {
  }

  class TextBuffer {
    var contents: array<u8>
    var gapStart: int
    var gapEnd: int
    var end: int
    var lineBases: seq<int>

    /** The gap lies inside the allocated bytes; `end` bytes of `contents` are in use. */
    ghost predicate ValidGap()
      reads this`contents, this`gapStart, this`gapEnd, this`end
    {
      0 <= gapStart <= gapEnd <= end <= contents.Length
    }

    /** ... and the line index describes the current text. */
    ghost predicate Valid()
      reads this, contents
    {
      ValidGap() && lineBases == LineBases(Text())
    }

    /** The document: the bytes before the gap followed by the bytes after it. */
    function Text(): seq<u8>
      reads this`contents, this`gapStart, this`gapEnd, this`end, contents
      requires ValidGap()
    {
      contents[..gapStart] + contents[gapEnd..end]
    }

    /** Logical byte `i` sits at `i` before the gap and `gapEnd - gapStart` further on after it. */
    lemma TextAt(i: int)
      requires ValidGap() && 0 <= i < |Text()|
      ensures Text()[i] == if i < gapStart then contents[i] else contents[i + (gapEnd - gapStart)]
    {
    }

    /** `text_buffer_init()` followed by `update_line_bases`: an empty document whose gap spans `GAP_SIZE` bytes. */
    constructor Empty()
      ensures Valid() && fresh(contents) && Text() == []
      ensures gapStart == 0 && gapEnd == end == GAP_SIZE
    {
      contents := new u8[GAP_SIZE];
      gapStart := 0;
      gapEnd, end := GAP_SIZE, GAP_SIZE;
      lineBases := [];
      new;
      UpdateLineBases();
    }

    /** `text_buffer_init(contents)` followed by `update_line_bases`: adopts the loaded bytes (and their NUL terminator) with an empty gap at offset 0. */
    constructor FromBytes(data: seq<u8>)
      ensures Valid() && fresh(contents) && Text() == data
      ensures gapStart == gapEnd == 0 && end == |data|
    {
      contents := new u8[|data| + 1](i => if 0 <= i < |data| then data[i] else NUL);
      gapStart, gapEnd := 0, 0;
      end := |data|;
      lineBases := [];
      new;
      assert contents[0..end] == data;
      UpdateLineBases();
    }

    /** `buffer_length`: the document length, the allocation minus the gap. */
    function BufferLength(): (n: int)
      reads this`contents, this`gapStart, this`gapEnd, this`end, contents
      requires ValidGap()
      ensures n == |Text()|
    {
      end - (gapEnd - gapStart)
    }

    /** `raw_buffer_pos`: the slot of `contents` that holds logical byte `pos`, never inside the gap. */
    function RawBufferPos(pos: int): (r: int)
      reads this`contents, this`gapStart, this`gapEnd, this`end, contents
      requires ValidGap() && 0 <= pos
      ensures pos <= r
      ensures pos < |Text()| ==> r < end && !(gapStart <= r < gapEnd) && contents[r] == Text()[pos]
    {
      var r := if pos >= gapStart then pos + (gapEnd - gapStart) else pos;
      if pos < end - (gapEnd - gapStart) then TextAt(pos); r else r
    }

    /** `char_from_pos`: the byte at a logical offset, 0 at or past the end. */
    function CharFromPos(pos: int): (c: u8)
      reads this`contents, this`gapStart, this`gapEnd, this`end, contents
      requires ValidGap() && 0 <= pos
      ensures c == CharAt(Text(), pos)
    {
      if pos >= BufferLength() then NUL else contents[RawBufferPos(pos)]
    }

    /** `update_line_bases`: clears the index, pushes 0, the offset after each '\n' in order, then the sentinel. */
    method UpdateLineBases()
      requires ValidGap()
      modifies this`lineBases
      ensures Valid()
    {
      ghost var t := Text();
      var bases := [0];
      var i := 0;
      while i < BufferLength()
        invariant 0 <= i <= |t|
        invariant bases == [0] + Breaks(t[..i])
      {
        if CharFromPos(i) == NL {
          bases := bases + [i + 1];
        }
        assert t[..i + 1][..i] == t[..i];
        i := i + 1;
      }
      assert t[..i] == t;
      lineBases := bases + [BufferLength() + 1];
    }

    /** `buffer_clear`: the gap swallows every byte, leaving an empty document. */
    method BufferClear()
      requires ValidGap()
      modifies this`gapStart, this`gapEnd, this`lineBases
      ensures Valid() && Text() == [] && end == old(end) && gapStart == 0 && gapEnd == end
    {
      gapStart := 0;
      gapEnd := end;
      UpdateLineBases();
    }

    /** `buffer_text`: a fresh copy of the document (two spans copied around the gap, NUL-terminated). */
    method BufferText() returns (s: seq<u8>)
      requires ValidGap()
      ensures s == Text()
    {
      var n := BufferLength();
      var ptr := new u8[n + 1];
      CopyBytes(ptr, 0, contents, 0, gapStart);
      CopyBytes(ptr, gapStart, contents, gapEnd, end - gapEnd);
      ptr[n] := NUL;
      s := ptr[..n];
      forall i | 0 <= i < n
        ensures s[i] == Text()[i]
      {
        TextAt(i);
      }
    }

    /** `copy_range`: a fresh copy of the logical bytes `[start, stop)`, read slot by slot across the gap. */
    method CopyRange(start: int, stop: int) returns (r: seq<u8>)
      requires ValidGap() && 0 <= start <= stop <= |Text()|
      ensures r == Text()[start..stop]
    {
      r := [];
      var pos := start;
      while pos < stop
        invariant start <= pos <= stop
        invariant r == Text()[start..pos]
      {
        r := r + [contents[RawBufferPos(pos)]];
        pos := pos + 1;
      }
    }

    /**
     * `buffer_gap_grow`: with the gap used up, reallocates `GAP_SIZE` more
     * (zeroed) bytes, keeps the bytes before the gap in place and moves the
     * bytes after it up by `GAP_SIZE`.
     */
    method BufferGapGrow()
      requires ValidGap() && gapStart == gapEnd
      modifies this`contents, this`gapEnd, this`end
      ensures ValidGap() && fresh(contents) && Text() == old(Text())
      ensures gapStart == old(gapStart) && gapEnd == old(gapEnd) + GAP_SIZE && end == old(end) + GAP_SIZE
    {
      ghost var t := Text();
      var temp := new u8[end + GAP_SIZE + 1](_ => NUL);
      CopyBytes(temp, 0, contents, 0, gapStart);
      CopyBytes(temp, gapStart + GAP_SIZE, contents, gapEnd, end - gapEnd);
      contents := temp;
      gapEnd := gapEnd + GAP_SIZE;
      end := end + GAP_SIZE;
      assert |Text()| == |t|;
      forall i | 0 <= i < |t|
        ensures Text()[i] == t[i]
      {
        TextAt(i);
      }
    }

    /**
     * `gap_shift`: moves the gap so that it starts at `newGap`, keeping its
     * width. The bytes are rebuilt in a scratch copy pre-filled with '-' (which
     * is what the gap holds afterwards) and copied back in place.
     */
    method GapShift(newGap: int)
      requires ValidGap() && 0 <= newGap <= |Text()|
      modifies this`gapStart, this`gapEnd, contents
      ensures ValidGap() && Text() == old(Text())
      ensures gapStart == newGap && gapEnd - gapStart == old(gapEnd - gapStart)
      ensures forall k :: gapStart <= k < gapEnd ==> contents[k] == DASH
    {
      ghost var t := Text();
      var e, delta := end, gapEnd - gapStart;
      var temp := ShiftedCopy(newGap, t);
      ghost var tm := temp[..];
      CopyPrefix(contents, temp, end);
      CopiedLayout(contents[..], tm, t, newGap, delta, e);
      gapStart := newGap;
      gapEnd := newGap + delta;
    }

    /** The scratch copy `gap_shift` builds: '-' over the new gap, every other slot filled from the old slot of the same logical offset. */
    method ShiftedCopy(newGap: int, ghost t: seq<u8>) returns (temp: array<u8>)
      requires ValidGap() && 0 <= newGap <= |t| && t == Text()
      ensures fresh(temp) && temp.Length == end + 1
      ensures temp[..newGap] + temp[newGap + (gapEnd - gapStart)..end] == t
      ensures forall k :: newGap <= k < newGap + (gapEnd - gapStart) ==> temp[k] == DASH
    {
      ghost var c := contents[..];
      assert t == c[..gapStart] + c[gapEnd..end];
      var e := end;
      temp := new u8[e + 1](i => if i < e then DASH else NUL);
      if newGap > gapStart {
        ShiftRightCopies(temp, contents, gapStart, gapEnd, newGap, e);
      } else {
        ShiftLeftCopies(temp, contents, gapStart, gapEnd, newGap, e);
      }
      ShiftedText(c, temp[..], gapStart, gapEnd, newGap, e);
    }

    /** `buffer_ensure_gap`: grows the buffer when the gap is empty. */
    method BufferEnsureGap()
      requires ValidGap()
      modifies this`contents, this`gapEnd, this`end
      ensures ValidGap() && Text() == old(Text()) && gapStart == old(gapStart)
      ensures gapEnd > gapStart
      ensures contents == old(contents) || fresh(contents)
    {
      if gapEnd - gapStart <= 0 {
        BufferGapGrow();
      }
    }

    /** The write step of `insert_char`: the byte goes into the first slot of the gap, which then starts one later. */
    method PutAtGapStart(c: u8)
      requires ValidGap() && gapStart < gapEnd
      modifies contents, this`gapStart
      ensures ValidGap() && gapStart == old(gapStart) + 1 && gapEnd == old(gapEnd)
      ensures Text() == old(Text())[..old(gapStart)] + [c] + old(Text())[old(gapStart)..]
    {
      ghost var t := Text();
      var p := gapStart;
      contents[p] := c;
      gapStart := gapStart + 1;
      ghost var want := t[..p] + [c] + t[p..];
      assert |Text()| == |want|;
      forall i | 0 <= i < |want|
        ensures Text()[i] == want[i]
      {
        TextAt(i);
        if i > p {
          assert want[i] == t[i - 1];
        }
      }
    }

    /** `insert_char`: makes room, moves the gap to `position`, writes `c` into its first byte and rebuilds the line index. */
    method InsertChar(position: int, c: u8)
      requires Valid() && 0 <= position <= |Text()|
      modifies this, contents
      ensures Valid() && (contents == old(contents) || fresh(contents))
      ensures Text() == old(Text())[..position] + [c] + old(Text())[position..]
    {
      ghost var t := Text();
      BufferEnsureGap();
      ghost var a := contents;
      if position != gapStart {
        GapShift(position);
      }
      assert contents == a && gapStart == position && Text() == t;
      PutAtGapStart(c);
      assert contents == a;
      UpdateLineBases();
    }

    /** The tail of `delete_range`: zeroes the bytes `[start, gapStart)` and lets the gap take them. */
    method DropBeforeGap(start: int)
      requires ValidGap() && 0 <= start <= gapStart
      modifies contents, this`gapStart
      ensures ValidGap() && gapStart == start && gapEnd == old(gapEnd)
      ensures Text() == old(Text())[..start] + old(Text())[old(gapStart)..]
    {
      ghost var t := Text();
      ghost var d := contents[..];
      var stop := gapStart;
      var base := RawBufferPos(start);
      var pos, idx := start, 0;
      while pos < stop
        invariant start <= pos <= stop && idx == pos - start
        invariant start < stop ==> base == start
        invariant forall k :: 0 <= k < contents.Length && !(start <= k < pos) ==> contents[k] == d[k]
      {
        contents[base + idx] := NUL;
        idx := idx + 1;
        pos := pos + 1;
      }
      gapStart := start;
      ZeroedSpan(d, contents[..], start, stop, gapEnd, end);
    }

    /**
     * `delete_range`: moves the gap to end at `stop`, zeroes the bytes
     * `[start, stop)` and widens the gap back to `start`; then rebuilds the line index.
     */
    method DeleteRange(start: int, stop: int)
      requires Valid() && 0 <= start <= stop <= |Text()|
      modifies this, contents
      ensures Valid() && contents == old(contents)
      ensures Text() == old(Text())[..start] + old(Text())[stop..]
    {
      ghost var t := Text();
      if gapStart != stop {
        GapShift(stop);
      }
      DropBeforeGap(start);
      assert t[stop..] == Text()[start..] by {
        assert Text() == t[..start] + t[stop..];
      }
      UpdateLineBases();
    }

    /** `delete_single`: deletes the one byte at `pos`. */
    method DeleteSingle(pos: int)
      requires Valid() && 0 <= pos < |Text()|
      modifies this, contents
      ensures Valid() && contents == old(contents)
      ensures Text() == old(Text())[..pos] + old(Text())[pos + 1..]
    {
      DeleteRange(pos, pos + 1);
    }

    /** `get_line_count`: the number of lines, one more than the number of '\n' bytes. */
    function GetLineCount(): (n: int)
      reads this, contents
      requires Valid()
      ensures n == NewlineCount(Text()) + 1 && n == Lines.LineCount(Text())
    {
      LineBasesShape(Text());
      |lineBases| - 1
    }

    /** `get_line_length`: the bytes of a line counting its terminating '\n' (for the last line, the document end). */
    function GetLineLength(line: int): (n: int)
      reads this, contents
      requires Valid() && 0 <= line < |lineBases| - 1
      ensures n >= 1 && lineBases[line] + n == lineBases[line + 1]
      ensures 0 <= lineBases[line] && lineBases[line] + n <= |Text()| + 1
      ensures line + 1 < GetLineCount() ==> lineBases[line] + n <= |Text()|
      ensures forall j :: lineBases[line] <= j < lineBases[line] + n - 1 ==> Text()[j] != NL
      ensures line + 1 < GetLineCount() ==> Text()[lineBases[line] + n - 1] == NL
      ensures line + 1 == GetLineCount() ==> lineBases[line] + n - 1 == |Text()|
    {
      LineShape(Text(), line);
      LineBasesShape(Text());
      lineBases[line + 1] - lineBases[line]
    }

    /** `get_line_pos`: where a line starts; its assertion also admits the sentinel entry, one past the last line. */
    function GetLinePos(line: int): (p: int)
      reads this, contents
      requires Valid() && 0 <= line <= |lineBases| - 1
      ensures line == 0 ==> p == 0
      ensures 0 < line < GetLineCount() ==> 0 < p <= |Text()| && Text()[p - 1] == NL && LineOf(Text(), p) == line
      ensures line == GetLineCount() ==> p == |Text()| + 1
    {
      LineBasesShape(Text());
      if 0 < line < |lineBases| - 1 then
        LineShape(Text(), line);
        SettledInLine(Text(), line, 0);
        lineBases[line]
      else
        lineBases[line]
    }

    /** `get_line_end_pos`: the offset of a line's '\n', or the document end for the last line. */
    function GetLineEndPos(line: int): (p: int)
      reads this, contents
      requires Valid() && 0 <= line < |lineBases| - 1
      ensures GetLinePos(line) <= p <= |Text()|
      ensures p == |Text()| || Text()[p] == NL
      ensures forall j :: GetLinePos(line) <= j < p ==> Text()[j] != NL
      ensures LineOf(Text(), p) == line
    {
      LineShape(Text(), line);
      SettledInLine(Text(), line, GetLineLength(line) - 1);
      GetLinePos(line) + GetLineLength(line) - 1
    }

    /** `get_cursor_from_pos`: walks from offset 0 counting '\n' bytes; a negative offset yields line 0, column 0. */
    method GetCursorFromPos(pos: int) returns (c: Cursor)
      requires ValidGap() && pos <= |Text()|
      ensures pos < 0 ==> c == Cursor(pos, 0, 0)
      ensures 0 <= pos ==> c == CursorAt(Text(), pos)
    {
      c := Cursor(pos, 0, 0);
      var p := 0;
      while p < pos
        invariant 0 <= p <= (if pos < 0 then 0 else pos)
        invariant c.pos == pos && c.line == NewlineCount(Text()[..p])
        invariant c.col == p - LastLineStart(Text()[..p])
      {
        ScanStep(Text()[..p], Text()[p]);
        assert Text()[..p + 1] == Text()[..p] + [Text()[p]];
        c := c.(col := c.col + 1);
        if CharFromPos(p) == NL {
          c := c.(line := c.line + 1, col := 0);
        }
        p := p + 1;
      }
      if 0 <= pos {
        LineStartOfPrefix(Text(), pos);
      }
    }

    /** `get_cursor_from_line`: column 0 of a line; the sentinel line lands one past the document end. */
    function GetCursorFromLine(line: int): (c: Cursor)
      reads this, contents
      requires Valid() && 0 <= line <= |lineBases| - 1
      ensures c.line == line && c.col == 0 && c.pos == GetLinePos(line)
      ensures line < GetLineCount() ==> Settled(Text(), c)
      ensures line == GetLineCount() ==> c.pos == |Text()| + 1
    {
      LineBasesShape(Text());
      if line < |lineBases| - 1 then
        SettledInLine(Text(), line, 0);
        Cursor(lineBases[line], line, 0)
      else
        Cursor(lineBases[line], line, 0)
    }

    /** Typing a byte and deleting it again leaves the document as it was. */
    method InsertThenDelete(position: int, c: u8)
      requires Valid() && 0 <= position <= |Text()|
      modifies this, contents
      ensures Valid() && Text() == old(Text())
    {
      ghost var t := Text();
      InsertChar(position, c);
      DeleteSingle(position);
      InsertDeleteInverse(t, position, c);
    }
  }
}
