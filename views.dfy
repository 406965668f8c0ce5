/**
 * The editing state of a view (`View` in codex.h) that commands read and
 * write: the cursor, the active keymap, the selection, the scroll offsets and
 * the number of visible lines. The buffer a view shows is passed alongside.
 */
module Views {
  import opened Bytes
  import opened Lines
  import Keymaps

  datatype View = View(
    cursor: Cursor,
    keymap: Keymaps.KeymapId,
    selectActive: bool,
    selectCursor: Cursor,
    lineOffset: int,
    colOffset: int,
    lines: int)

  /** The cursor agrees with the document and the visible line count is not negative. */
  ghost predicate ViewOk(t: seq<u8>, v: View)
  {
    Settled(t, v.cursor) && 0 <= v.lines
  }

  /** While a selection is active its anchor is a cursor of the document too. */
  ghost predicate SelectionOk(t: seq<u8>, v: View)
  {
    v.selectActive ==> Settled(t, v.selectCursor)
  }

  /** Length of line `l`, counting its '\n' (or the virtual byte after the document end). */
  function LineLength(t: seq<u8>, l: int): (n: int)
    requires 0 <= l < LineCount(t)
    ensures n >= 1
  {
    LineShape(t, l);
    LineBases(t)[l + 1] - LineBases(t)[l]
  }

  /** Offset of the first byte of line `l`. */
  function LineStart(t: seq<u8>, l: int): (b: int)
    requires 0 <= l < LineCount(t)
    ensures 0 <= b <= |t| && (l == 0 ==> b == 0) && (0 < l ==> 0 < b && t[b - 1] == NL)
  {
    LineShape(t, l);
    LineBasesShape(t);
    LineBases(t)[l]
  }

  /** Offset of the last byte of line `l`: its '\n', or the document end on the last line. */
  function LineEnd(t: seq<u8>, l: int): (e: int)
    requires 0 <= l < LineCount(t)
    ensures 0 <= e <= |t| && (e == |t| || t[e] == NL)
    ensures LineStart(t, l) <= e && LineOf(t, e) == l
  {
    LineShape(t, l);
    LineBasesShape(t);
    var e := LineBases(t)[l + 1] - 1;
    LineOfUnique(t, l, e);
    e
  }

  /** No '\n' lies between a line's start and its last byte. */
  lemma LineEndFirstBreak(t: seq<u8>, l: int)
    requires 0 <= l < LineCount(t)
    ensures forall j :: LineStart(t, l) <= j < LineEnd(t, l) ==> t[j] != NL
  {
    LineShape(t, l);
  }

  /** Every offset from a line's start to its last byte lies on that line. */
  lemma CursorWithinLine(t: seq<u8>, l: int, p: int)
    requires 0 <= l < LineCount(t) && LineStart(t, l) <= p <= LineEnd(t, l)
    ensures CursorAt(t, p) == Cursor(p, l, p - LineStart(t, l))
  {
    LineOfUnique(t, l, p);
  }

  /** The settled cursor at a line's last byte is on that line, as many columns in as the line has bytes before it. */
  lemma CursorAtLineEnd(t: seq<u8>, l: int)
    requires 0 <= l < LineCount(t)
    ensures CursorAt(t, LineEnd(t, l)) == Cursor(LineEnd(t, l), l, LineEnd(t, l) - LineStart(t, l))
  {
  }

  /** `normal_mode`: the normal keymap, no selection; nothing else changes. */
  function NormalMode(v: View): (r: View)
    ensures r.keymap == Keymaps.NormalMap && !r.selectActive
    ensures r.(keymap := v.keymap, selectActive := v.selectActive) == v
  {
    v.(keymap := Keymaps.NormalMap, selectActive := false)
  }

  /** `insert_mode`: the insert keymap, no selection; nothing else changes. */
  function InsertMode(v: View): (r: View)
    ensures r.keymap == Keymaps.InsertMap && !r.selectActive
    ensures r.(keymap := v.keymap, selectActive := v.selectActive) == v
  {
    v.(keymap := Keymaps.InsertMap, selectActive := false)
  }

  /** `select_mode`: the select keymap and an active selection anchored at the cursor. */
  function SelectMode(v: View): (r: View)
    ensures r.keymap == Keymaps.SelectMap && r.selectActive && r.selectCursor == r.cursor
    ensures r.(keymap := v.keymap, selectActive := v.selectActive, selectCursor := v.selectCursor) == v
  {
    v.(keymap := Keymaps.SelectMap, selectActive := true, selectCursor := v.cursor)
  }

  /** `exchange_selection_mark`: the cursor and the selection anchor swap places. */
  function ExchangeSelectionMark(v: View): (r: View)
    ensures r.cursor == v.selectCursor && r.selectCursor == v.cursor
    ensures r.(cursor := v.cursor, selectCursor := v.selectCursor) == v
  {
    v.(cursor := v.selectCursor, selectCursor := v.cursor)
  }

  /** Entering a mode keeps a well-formed view well-formed, and select mode starts a well-formed selection. */
  lemma ModesKeepView(t: seq<u8>, v: View)
    requires ViewOk(t, v)
    ensures ViewOk(t, NormalMode(v)) && SelectionOk(t, NormalMode(v))
    ensures ViewOk(t, InsertMode(v)) && SelectionOk(t, InsertMode(v))
    ensures ViewOk(t, SelectMode(v)) && SelectionOk(t, SelectMode(v))
  {
  }

  /** Exchanging twice restores the view, and exchanging keeps an active selection well-formed. */
  lemma ExchangeInvolution(t: seq<u8>, v: View)
    requires ViewOk(t, v) && SelectionOk(t, v) && v.selectActive
    ensures ExchangeSelectionMark(ExchangeSelectionMark(v)) == v
    ensures ViewOk(t, ExchangeSelectionMark(v)) && SelectionOk(t, ExchangeSelectionMark(v))
  {
  }
}
