# Codex editor core in Dafny

This project models the core of Codex, a small modal text editor written in
C++ for Win32. It covers:

- the **gap buffer** that stores a document, with its **line index**;
- the **cursor**, **motion**, **edit**, **selection** and **search** commands of the active view;
- the **command line**, where typed commands such as `search foo` run;
- the **keymaps**, which turn queued key presses into commands through a trie of tables;
- the small helpers the core uses: `split`, `join`, the line-ending conversions, `unix_path_is_abs`, the `StringBuilder` append, the growable `Array<T>` and `clamp`.

The modules follow the source's own structure:

| file | module | what it models |
|---|---|---|
| `bytes.dfy` | `Bytes` | `u8`, the byte constants, `is_whitespace`, `isprint`, the `char_from_pos` reading convention (0 past the end) |
| `clamp.dfy` | `Clamping` | the `clamp` template and min/max |
| `dynarray.dfy` | `DynArray` | `Array<T>` as a class over an `array` |
| `lines.dfy` | `Lines` | the line index as a function of the text, and the `Cursor` record |
| `textbuffer.dfy` | `TextStore` | `TextBuffer` as a class over `array<u8>`, with `gap_start`, `gap_end`, `end` and `line_bases` as fields |
| `views.dfy` | `Views` | the `View` record and the mode commands |
| `motions.dfy` | `Motions` | the cursor, paragraph, page, goto and selection-extension commands |
| `edits.dfy` | `Edits` | the typing, line-opening and deleting commands |
| `search.dfy` | `Search` | `buffer_search_forward` and the `search` command |
| `strings.dfy` | `Strings` | `split`, `join`, `lf_to_crlf`, `crlf_to_lf`, `unix_path_is_abs`, `string_emplace` |
| `keymaps.dfy` | `Keymaps` | key encoding, `Keymap::bind`, the start-up tables, `execute_command`, the key-down glue |
| `commandline.dfy` | `CommandLine` | `command_mode`, `exit_command_mode` and the `typeable_commands` table |

## How the model is built

The document is the abstract byte sequence
`Text() == contents[..gapStart] + contents[gapEnd..end]`. The buffer's
`Valid()` also requires that `lineBases` equals `LineBases(Text())`, which is:

- 0;
- then the offset after every `'\n'`, in order;
- then the sentinel `|Text()| + 1`.

Every buffer operation is a method with a `modifies` clause. Its contract states
the new `Text()`. The gap-moving steps also state the new gap.

Commands take the buffer and a `View` value, and return the new `View`. In the
source, a view is a struct that the commands overwrite field by field. The view
is a value here because no command keeps a reference to it. Each command's
contract states the new cursor in terms of the text. It also says that every
other field of the view is unchanged.

A cursor is settled when its line and column agree with its offset. The model
proves that commands keep cursors settled.

The keymap tables are classes over `array<KeyBind>`. `Dispatch` is the walk
`execute_command` performs, stated over a snapshot of the five tables.

Most functions and proofs operate on offsets and sequences. Two places in the
source are bounded integers that matter, and the model spells both out:

- the key codes (`CTRL | ALT | c` below 2048);
- the `size_t` overflow guard of `string_emplace_realloc`.

Three behaviours of the code are easy to misread. The model follows the code:

- `move_next_word_end` is named after vi's `e`, which lands on the last byte of a word. When no whitespace follows the word start, though, there is no word end to find, and the code moves one byte past the start instead: "abc" from 0 lands on 1 (`Motions.WordEndWithoutSpace`, `Motions.WordEndAbc`).
- `move_paragraph_up` and `move_paragraph_down` start `move_line` at the cursor's own line. With no blank line in that direction, the cursor still moves, to the start of its own line.
- `crlf_to_lf` is named for CR LF pairs, but it drops every `'\r'`, not only those before a `'\n'` (`Strings.LoneReturnDropped`).

Also, in the keymap walk, an unbound entry under a submap is not rejected at
once. It leaves the queue waiting for one more key (`Keymaps.GotoUnboundKey`).

## Model

| member | source | states |
|---|---|---|
| Bytes.IsWhitespace | src/codex.cpp:150-152 | defines whitespace as space, tab, `'\n'` and `'\r'` (no contract) |
| Bytes.IsPrint | src/win32_codex.cpp:306-310 | defines the printable bytes 0x20 through 0x7E that the insert table binds to themselves (no contract) |
| Bytes.Spaces | src/codex.cpp:657-663 | a run of exactly `n` space bytes, which `insert_tab` and `open_line` insert |
| Clamping.Clamp | src/win32_codex.cpp:36-40 | the result is `lo` below `lo`, `hi` above `hi` (when not below `lo`) and `value` otherwise; it stays within `[lo, hi]` when `lo <= hi` |
| Clamping.Min | src/codex.cpp:739-748 | the smaller of two values, as the `if` guards of the column and scroll updates compute it |
| Clamping.Max | src/codex.cpp:750-760 | the larger of two values, as the `if` guards of the column and scroll updates compute it |
| DynArray.CapacityForFits | src/array.cpp:26-33 | the capacity `grow` settles on has the form 2^k - 1 and holds the requested total |
| DynArray.CapacityForLeast | src/array.cpp:26-33 | no smaller capacity of the form 2^k - 1 holds the requested total |
| DynArray.AllOnesStep | src/array.cpp:28-30 | one step `2 * c + 1` of the doubling loop stays of the form 2^k - 1 and does not overshoot a larger one |
| DynArray.Array.constructor | src/array.cpp:13-17 | a new array has no storage and no elements |
| DynArray.Array.FromList | src/array.cpp:19-24 | the initializer-list constructor holds the list's elements in order, with capacity equal to its size |
| DynArray.Array.Grow | src/array.cpp:26-33 | the capacity becomes the least 2^k - 1 at or above the old capacity plus `n`; the elements are kept |
| DynArray.Array.Push | src/array.cpp:35-41 | the elements become the old ones followed by `x`; the array grows by one slot only when full, and `count <= capacity` is kept |
| DynArray.Array.At | src/array.cpp:43-46 | indexing below `count` returns that element |
| DynArray.Array.IsEmpty | src/array.cpp:48 | true exactly when the array holds no elements |
| DynArray.Array.Clear | src/array.cpp:50-56 | no elements remain and count and capacity are 0 |
| Lines.BreaksShape | src/codex.cpp:341-351 | the offsets the index records after each `'\n'` are strictly increasing, one per `'\n'`, each just after a `'\n'` |
| Lines.LineBasesShape | src/codex.cpp:341-351 | the line index starts at 0, ends with the sentinel `length + 1`, is strictly increasing, and has two more entries than there are `'\n'` bytes |
| Lines.BreaksPrefix | src/codex.cpp:341-351 | scanning a prefix of the text meets a prefix of the line starts, and every later one lies beyond it |
| Lines.NewlineCountAppend | src/codex.cpp:424-432 | the line count is additive over concatenated texts |
| Lines.LineOfBounds | src/codex.cpp:203-214 | the line `get_cursor_from_pos` finds for an offset is a real line whose index extent holds the offset |
| Lines.LineOfUnique | src/codex.cpp:203-214 | any line whose extent holds an offset is the line of that offset |
| Lines.LineShape | src/codex.cpp:478-494 | a line holds no `'\n'` before its last byte, and every line but the last ends with one |
| Lines.CursorAt | src/codex.cpp:203-214 | the settled cursor at an offset: `pos == line_bases[line] + col`, inside that line's extent |
| Lines.SettledInLine | src/codex.cpp:216-223 | any line and column inside the line's extent form the settled cursor at that offset |
| Lines.AfterNewline | src/codex.cpp:208-212 | the offset after a `'\n'` starts the next line |
| Lines.LineEndAt | src/codex.cpp:490-494 | a `'\n'`, or the document end, is the last byte of its line |
| Lines.ScanStep | src/codex.cpp:206-213 | one step of the forward scan of `get_cursor_from_pos`: a `'\n'` bumps the line and starts a new one after it |
| Lines.LineStartOfPrefix | src/codex.cpp:203-214 | the line of an offset starts where the last line of the text before it starts |
| TextStore.CopyBytes | src/codex.cpp:379-384 | `memcpy` of `n` bytes to an offset; every other byte of the destination is kept |
| TextStore.CopyPrefix | src/codex.cpp:411 | `memcpy(contents, temp, end)`: the first `n` bytes are copied and the rest are kept |
| TextStore.ShiftRightCopies | src/codex.cpp:401-404 | the three copies of `gap_shift` when the gap moves towards the end fill every slot outside the new gap from the old slot of the same logical offset |
| TextStore.ShiftLeftCopies | src/codex.cpp:405-408 | the three copies of `gap_shift` when the gap moves towards the start do the same |
| TextStore.ShiftedText | src/codex.cpp:392-416 | bytes laid out that way spell the same text around the new gap as the old layout did around the old gap |
| TextStore.SameSpans | src/codex.cpp:411 | two byte arrays that agree on their first `end` bytes spell the same text around any gap |
| TextStore.CopiedLayout | src/codex.cpp:411-413 | copying the scratch layout back keeps both the text and the `'-'` filling of the gap |
| TextStore.InsertDeleteInverse | src/codex.cpp:434-476 | inserting a byte at `p` and deleting the byte at `p` undo each other, in either order |
| TextStore.TextBuffer.TextAt | src/codex.cpp:188-194 | logical byte `i` is stored at `i` before the gap and `gap_end - gap_start` further on after it |
| TextStore.TextBuffer.Empty | src/codex.cpp:1018-1025 | an empty buffer's document is empty and its gap spans all `GAP_SIZE` bytes |
| TextStore.TextBuffer.FromBytes | src/codex.cpp:1008-1016 | a buffer made from loaded bytes has those bytes as its document, with an empty gap at offset 0 |
| TextStore.TextBuffer.BufferLength | src/codex.cpp:175-178 | `end - (gap_end - gap_start)` is the document length |
| TextStore.TextBuffer.RawBufferPos | src/codex.cpp:180-186 | the slot that holds a logical byte lies outside the gap and holds that byte |
| TextStore.TextBuffer.CharFromPos | src/codex.cpp:188-194 | the byte at a logical offset, and 0 at or past the end |
| TextStore.TextBuffer.UpdateLineBases | src/codex.cpp:341-351 | after the rebuild the index is the line index of the current text |
| TextStore.TextBuffer.BufferClear | src/codex.cpp:353-357 | the gap swallows every byte, so the document becomes empty and the allocation is kept |
| TextStore.TextBuffer.BufferText | src/codex.cpp:359-371 | the copy equals the document |
| TextStore.TextBuffer.CopyRange | src/codex.cpp:447-458 | the copy equals the logical bytes `[start, stop)` read across the gap |
| TextStore.TextBuffer.BufferGapGrow | src/codex.cpp:373-390 | the document is unchanged; the gap and `end` each grow by `GAP_SIZE` |
| TextStore.TextBuffer.GapShift | src/codex.cpp:392-416 | the document is unchanged; the gap keeps its width and starts at the new offset, filled with `'-'` |
| TextStore.TextBuffer.ShiftedCopy | src/codex.cpp:393-409 | the scratch copy spells the document around the new gap, and the new gap holds `'-'` |
| TextStore.TextBuffer.BufferEnsureGap | src/codex.cpp:418-422 | the document is unchanged and the gap is no longer empty |
| TextStore.TextBuffer.PutAtGapStart | src/codex.cpp:441-442 | the byte goes in at the gap start, which moves one on |
| TextStore.TextBuffer.InsertChar | src/codex.cpp:434-445 | the document `t` becomes `t[..p] + [c] + t[p..]`, and the line index is rebuilt |
| TextStore.TextBuffer.DropBeforeGap | src/codex.cpp:464-469 | the bytes `[start, gap_start)` leave the document as the gap widens back to `start` |
| TextStore.TextBuffer.DeleteRange | src/codex.cpp:460-472 | the document `t` becomes `t[..start] + t[stop..]`, and the line index is rebuilt |
| TextStore.TextBuffer.DeleteSingle | src/codex.cpp:474-476 | exactly the byte at `pos` leaves the document |
| TextStore.TextBuffer.InsertThenDelete | src/codex.cpp:434-476 | `insert_char` at `p` followed by `delete_single` at `p` restores the document |
| TextStore.TextBuffer.GetLineCount | src/codex.cpp:424-432 | the number of lines is one more than the number of `'\n'` bytes |
| TextStore.TextBuffer.GetLineLength | src/codex.cpp:478-482 | a line's bytes counting its `'\n'`, or the virtual byte at the end for the last line; no `'\n'` inside |
| TextStore.TextBuffer.GetLinePos | src/codex.cpp:484-488 | line 0 starts at 0, every other line just after a `'\n'`; the sentinel index (admitted by the assertion) gives `length + 1` |
| TextStore.TextBuffer.GetLineEndPos | src/codex.cpp:490-494 | the first `'\n'` at or after the line start, or the document end, on that same line |
| TextStore.TextBuffer.GetCursorFromPos | src/codex.cpp:203-214 | a non-negative offset gives the settled cursor there; a negative one gives line 0, column 0 |
| TextStore.TextBuffer.GetCursorFromLine | src/codex.cpp:216-223 | column 0 of the line, settled for a real line, and `length + 1` for the sentinel line |
| Views.LineLength | src/codex.cpp:478-482 | every line is at least one byte long, counting its end |
| Views.LineStart | src/codex.cpp:484-488 | line 0 starts at 0 and every other line just after a `'\n'` |
| Views.LineEnd | src/codex.cpp:490-494 | a line's last byte is a `'\n'` or the document end, and it lies on that line |
| Views.LineEndFirstBreak | src/codex.cpp:490-494 | no `'\n'` lies between a line's start and its last byte |
| Views.CursorWithinLine | src/codex.cpp:203-214 | every offset from a line's start to its last byte is on that line, at column `offset - start` |
| Views.CursorAtLineEnd | src/codex.cpp:641-644 | the cursor at a line's last byte is on that line |
| Views.NormalMode | src/codex.cpp:504-508 | the view gets the normal keymap and no selection; nothing else changes |
| Views.InsertMode | src/codex.cpp:510-514 | the view gets the insert keymap and no selection; nothing else changes |
| Views.SelectMode | src/codex.cpp:516-521 | the view gets the select keymap and a selection anchored at the cursor |
| Views.ExchangeSelectionMark | src/codex.cpp:554-559 | the cursor and the anchor swap |
| Views.ModesKeepView | src/codex.cpp:504-521 | entering any mode keeps a settled cursor, and select mode starts a valid selection |
| Views.ExchangeInvolution | src/codex.cpp:554-559 | exchanging twice restores the view, and exchanging keeps a valid selection valid |
| Motions.GotoFileStart | src/codex.cpp:629-633 | the cursor goes to offset 0 and the view scrolls to the top |
| Motions.GotoFileEndAsWritten | src/codex.cpp:635-639 | the cursor goes to `length - 1`; on an empty document that is offset -1, which is not a cursor of the document |
| Motions.GotoFileEnd | src/codex.cpp:635-639 | the cursor goes to the last byte (offset 0 when the document is empty) and the view scrolls it to the second line from the bottom |
| Motions.GotoLineEnd | src/codex.cpp:641-644 | the cursor goes to its line's last byte, on the same line and not backwards |
| Motions.GotoLineStart | src/codex.cpp:646-649 | the cursor goes to column 0 of its line |
| Motions.MoveCharLeft | src/codex.cpp:739-748 | the cursor goes one byte back, except at offset 0, and the window scrolls left to show its column |
| Motions.StepRight | src/codex.cpp:752-754 | the cursor goes one byte on, but never past the document length |
| Motions.MoveCharRight | src/codex.cpp:750-760 | the cursor goes one byte on, reaching at most `length`, and the window scrolls right to show its column |
| Motions.Scan | src/codex.cpp:769-784 | the first offset whose whitespace class is the wanted one, or the end |
| Motions.ScanSkips | src/codex.cpp:769-784 | every byte a scan passes over has the other whitespace class |
| Motions.WordStart | src/codex.cpp:768-774 | the first step of `move_next_word_end` does not move backwards, and stays within one past the end |
| Motions.WordStop | src/codex.cpp:776-785 | the second step, clamped, is a document offset |
| Motions.WordEnd | src/codex.cpp:762-788 | the word-end target is a document offset |
| Motions.WordEndAdvances | src/codex.cpp:762-788 | away from the document end the motion always moves forward |
| Motions.WordEndBeforeSpace | src/codex.cpp:776-782 | when whitespace follows, the target is not whitespace, so it is the last byte of a word |
| Motions.ScanToEnd | src/codex.cpp:776-780 | a scan over bytes that all have the other whitespace class stops at the document end |
| Motions.WordEndWithoutSpace | src/codex.cpp:762-788 | for any document and start, with no whitespace after the word start the target is one byte past that start, clamped to the document end |
| Motions.WordEndAbc | src/codex.cpp:762-788 | "abc" from 0 lands on 1, not on the last byte of the word |
| Motions.ScanBuffer | src/codex.cpp:769-784 | the scanning loop stops where `Scan` does |
| Motions.SkipToWord | src/codex.cpp:768-774 | the first loop of `move_next_word_end` computes `WordStart` |
| Motions.StopBeforeSpace | src/codex.cpp:776-785 | the second loop and the clamp compute `WordStop` |
| Motions.MoveNextWordEnd | src/codex.cpp:762-788 | the cursor goes to the settled cursor at `WordEnd` of its offset |
| Motions.MoveLineUp | src/codex.cpp:790-802 | nothing changes on the first line; otherwise the cursor goes one line up with its column clamped to that line, and the view scrolls up if needed |
| Motions.MoveLineDown | src/codex.cpp:804-816 | nothing changes on the last line; otherwise the cursor goes one line down with its column clamped, and the view scrolls down if needed |
| Motions.BufferLineEmpty | src/codex.cpp:818-829 | true exactly when the line holds only whitespace before its last byte |
| Motions.BlankLineAbove | src/codex.cpp:834-840 | the nearest blank line above, or the current line when no line above is blank |
| Motions.BlankLineBelow | src/codex.cpp:848-854 | the nearest blank line below, or the current line when no line below is blank |
| Motions.CursorAtLineStartOf | src/codex.cpp:842 | the cursor at a line's start is settled at column 0 of that line |
| Motions.MoveParagraphUp | src/codex.cpp:831-843 | the cursor goes to column 0 of the nearest blank line above, with no blank line skipped; with none, to column 0 of its own line |
| Motions.MoveParagraphDown | src/codex.cpp:845-857 | the same downwards |
| Motions.PageUp | src/codex.cpp:859-868 | the cursor goes up `lines` lines (to line 0 at most), at column 0, and that line becomes the top of the window |
| Motions.PageDown | src/codex.cpp:870-880 | the cursor goes down `lines` lines (to the last line at most), at column 0, and that line becomes the top of the window |
| Motions.SkipWhitespace | src/codex.cpp:669-675 | the first non-whitespace offset of a range, with only whitespace before it, or the range end |
| Motions.InsertAtLineStart | src/codex.cpp:665-678 | the cursor goes to the first non-whitespace byte of its line (or the line's last byte) and insert mode starts |
| Motions.InsertAtLineEnd | src/codex.cpp:689-694 | the cursor goes to its line's last byte and insert mode starts |
| Motions.ExtendLine | src/codex.cpp:533-540 | select mode starts; the anchor goes to the line start and the cursor to the line's last byte |
| Motions.ExtendLineBelow | src/codex.cpp:542-552 | with a selection active the cursor goes to the end of the next line (the last line at most); otherwise select mode starts and the cursor goes to the end of its own line |
| Edits.NoNewlineAppend | src/codex.cpp:206-213 | appending bytes without a `'\n'` changes neither the line count nor where the last line starts |
| Edits.InsertWithoutNewline | src/codex.cpp:623-627 | inserting bytes without a `'\n'` leaves the cursor after them on the same line, that many columns on |
| Edits.InsertNewlineAt | src/codex.cpp:651-655 | inserting a `'\n'` puts the next offset at column 0 of the next line |
| Edits.InsertNewlineCount | src/codex.cpp:719-729 | inserting one `'\n'` adds exactly one line |
| Edits.SpaceBefore | src/codex.cpp:657-663 | one more space in front of a run of spaces lengthens the run |
| Edits.SpaceAfter | src/codex.cpp:723-726 | one more space after a run of spaces lengthens the run |
| Edits.InsertSpaceInRun | src/codex.cpp:659-661 | each `insert_char(' ')` lengthens the inserted run of spaces by one |
| Edits.SelfInsert | src/codex.cpp:623-627 | the typed byte goes in at the cursor, and the cursor moves past it (same line and one column on unless the byte is `'\n'`) |
| Edits.InsertNewline | src/codex.cpp:651-655 | a `'\n'` goes in at the cursor, and the cursor goes to column 0 of the next line |
| Edits.InsertSpacesAt | src/codex.cpp:659-661 | `n` inserts of a space at the same offset insert `n` spaces there |
| Edits.InsertTab | src/codex.cpp:657-663 | four spaces go in at the cursor, and the cursor moves four columns on along its line |
| Edits.DeleteCharBackward | src/codex.cpp:731-737 | nothing changes at offset 0; otherwise the byte before the cursor goes and the cursor moves back onto its offset |
| Edits.DeleteBackwardWithinLine | src/codex.cpp:731-737 | deleting a byte that is not a `'\n'` keeps the cursor on its line, one column back |
| Edits.LineAbovePos | src/codex.cpp:698-699 | the insertion point is the `'\n'` ending the previous line, or 0 on the first line |
| Edits.OpenedLineAbove | src/codex.cpp:696-703 | inserting a `'\n'` there makes the cursor's line an empty line at the same start |
| Edits.OpenLineAbove | src/codex.cpp:696-703 | a `'\n'` goes in before the cursor's line, and the cursor goes to that new empty line in insert mode |
| Edits.LeadingSpaces | src/codex.cpp:709-714 | the run of spaces ends at a byte that is not a space |
| Edits.LeadingSpacesRun | src/codex.cpp:709-714 | every byte the run passes over is a space, and it stops before any non-space |
| Edits.Indentation | src/codex.cpp:705-717 | a line's indentation fits within the line and is followed by a non-space |
| Edits.IndentationIsSpaces | src/codex.cpp:705-717 | the indentation is exactly the run of spaces that opens the line |
| Edits.LineBytes | src/codex.cpp:229-238 | a line's copy is its text followed by its `'\n'`, or by the 0 terminator on the last line |
| Edits.GetLineString | src/codex.cpp:229-238 | the copy has the line's length and holds the line's bytes followed by its end byte |
| Edits.CountLeadingSpaces | src/codex.cpp:709-714 | the counting loop computes the line's indentation |
| Edits.GetLineIndentation | src/codex.cpp:705-717 | 0 for a negative line, otherwise the number of spaces that open the line |
| Edits.LineAfterPrefix | src/codex.cpp:719-729 | a line that opens after a `'\n'` and holds no `'\n'` has the expected number, start and end |
| Edits.SpacedLineAfter | src/codex.cpp:719-729 | after inserting a `'\n'` and `n` spaces at a line's end, the new line starts after the `'\n'` and ends after the spaces |
| Edits.OpenedLineBelow | src/codex.cpp:719-729 | inserting a `'\n'` and `n` spaces at the end of line `l` opens line `l + 1` holding just those spaces |
| Edits.InsertSpacesFrom | src/codex.cpp:723-726 | `n` spaces inserted at advancing offsets make one run of `n` spaces |
| Edits.InsertIndentedBreak | src/codex.cpp:722-726 | a `'\n'` followed by `n` spaces goes in at the offset |
| Edits.OpenedBelow | src/codex.cpp:719-729 | the document after `open_line` has a line after the cursor's line |
| Edits.CursorOnOpenedLine | src/codex.cpp:727 | the cursor computed after `open_line` is the one `OpenedCursor` names |
| Edits.OpenLine | src/codex.cpp:719-729 | a `'\n'` and the line's indentation go in at the line's end; the cursor goes to the end of the new line, in insert mode |
| Edits.OpenLineView | src/codex.cpp:719-729 | after `open_line` the cursor is settled on the next line, at the column equal to the old line's indentation |
| Edits.SelectionRangeAsWritten | src/codex.cpp:882-898 | the range `delete_selection` passes covers exactly the selected offsets, and always ends one past the upper end |
| Edits.SelectionRangePastEnd | src/codex.cpp:882-898 | with the cursor at the end of "a" and no selection, that range ends past the document |
| Edits.SelectionRange | src/codex.cpp:882-898 | the corrected range lies within the document and covers exactly the selected offsets in it |
| Edits.DeleteSelection | src/codex.cpp:882-901 | the selected bytes go; cursor and anchor both land at the range start; the view returns to normal mode |
| Search.SignedChar | src/codex.cpp:909 | a pattern byte from 0x80 on reads as a negative `char`, and a lower byte reads as itself |
| Search.PlainMatch | src/codex.cpp:907-913 | for a NUL-free ASCII pattern, the comparison succeeds exactly where the pattern occurs in the document |
| Search.MatchesInExact | src/codex.cpp:903-922 | the match list holds exactly the matching offsets of the range, strictly increasing, each spanning the pattern's length |
| Search.FirstMatch | src/codex.cpp:903-922 | the first match is the least matching offset; with no match, nothing in the range matches |
| Search.HighByteNeverMatches | src/codex.cpp:909 | a pattern holding a byte from 0x80 on never matches |
| Search.MatchAt | src/codex.cpp:907-913 | the inner loop reports a match exactly when every pattern byte compares equal |
| Search.BufferSearchForward | src/codex.cpp:903-922 | the result is the match list of the offsets from `pos` to the document end |
| Search.SearchCommand | src/codex.cpp:924-937 | with no argument nothing changes; otherwise the cursor goes to the first match at or after it, and stays put when there is none |
| Search.SearchFindsOccurrences | src/codex.cpp:903-922 | for a plain pattern the recorded offsets are exactly its occurrences in the document from `pos` on |
| Strings.SpaceIndex | src/codex.cpp:49-51 | the first space at or after an offset, or the end |
| Strings.SpaceIndexAt | src/codex.cpp:49-51 | a scan that passes only non-spaces and stops on a space stops where `SpaceIndex` does |
| Strings.SpaceIndexSkips | src/codex.cpp:49-51 | a space scan passes only non-spaces |
| Strings.DropTrailingSpaceAfter | src/codex.cpp:47-62 | a space before a non-empty tail does not change what trimming the end removes |
| Strings.FirstToken | src/codex.cpp:51-52 | from a non-empty rest there is a first token; it holds no space and is a prefix of that rest |
| Strings.SplitFromTokens | src/codex.cpp:47-62 | the tokens from an offset hold no space |
| Strings.SplitAtSpace | src/codex.cpp:51-54 | a space after a run of non-spaces closes the first token there, and the tokens after it start past the space |
| Strings.SplitAtEnd | src/codex.cpp:55-58 | a non-empty rest without a space is a single token |
| Strings.SplitFromJoin | src/codex.cpp:47-62 | the tokens from an offset, rejoined with single spaces, give back the rest of the text less a final space |
| Strings.JoinStep | src/codex.cpp:51-54 | a token pushed at a space, followed by the later tokens, rejoins to the token, that space and the rest |
| Strings.Split | src/codex.cpp:47-62 | defines `split` on values: the tokens between single spaces, a final space ending the last token (no contract) |
| Strings.SplitJoin | src/codex.cpp:47-62 | `split` loses only spaces: tokens hold none, they rejoin to the text less a final space, there are none exactly for the empty text, and the first starts the text |
| Strings.SplitLoop | src/codex.cpp:47-62 | the loop computes `Split` |
| Strings.CopyInto | src/codex.cpp:66-67 | `memcpy` of a sequence to an offset; nothing else changes |
| Strings.Join | src/codex.cpp:64-74 | the block holds `first`, then `second`, then the NUL terminator, and nothing else |
| Strings.DropReturnsAppend | src/codex.cpp:320-339 | dropping returns distributes over concatenation |
| Strings.LineEndingsRoundTrip | src/codex.cpp:296-339 | converting to CRLF and back gives the original with its returns dropped |
| Strings.DropReturnsClean | src/codex.cpp:320-339 | the result holds no `'\r'`, and a text without one is unchanged |
| Strings.SaveLoad | src/codex.cpp:296-339 | a text without `'\r'` survives a save and a load, and its saved form has one more byte per line break |
| Strings.ExpandLength | src/codex.cpp:296-318 | the CRLF form has one more byte per `'\n'` |
| Strings.LoneReturnDropped | src/codex.cpp:324-328 | a `'\r'` not followed by `'\n'` is dropped too |
| Strings.LfToCrlf | src/codex.cpp:296-318 | the loop computes `ExpandNewlines` |
| Strings.CrlfToLf | src/codex.cpp:320-339 | the loop computes `DropReturns` |
| Strings.UnixPathIsAbs | src/codex.cpp:154-160 | defines an absolute path as one starting with `'/'` or `'\'` (no contract) |
| Strings.JoinedPathIsAbs | src/codex.cpp:575 | a path made by `join(directory, name)` is absolute exactly when the directory is, whatever the name |
| Strings.GrownCapacity | src/codex.cpp:94-105 | the new capacity is above the new count and within `SIZE_MAX`; below `SIZE_MAX` it is one and a half times `count + 1` |
| Strings.StringBuilder.constructor | src/codex.h:62-66 | a zero-initialised builder has no storage and no bytes |
| Strings.StringBuilder.EmplaceRealloc | src/codex.cpp:93-114 | a fresh block holds the old bytes followed by `str`, with the grown capacity |
| Strings.StringBuilder.EmplaceCapacity | src/codex.cpp:116-121 | `str` is appended in place, and the block and capacity are kept |
| Strings.StringBuilder.Emplace | src/codex.cpp:123-130 | `str` is appended; the capacity grows only when it did not fit |
| Keymaps.EncodeKey | src/win32_codex.cpp:208 | the key code is below 2048, keeps the byte in its low 8 bits, and has the CTRL and ALT bits exactly when those modifiers are down |
| Keymaps.OrOfFields | src/codex.h:172-175 | or-ing the modifier bits with the byte adds them, since their bits do not overlap |
| Keymaps.KeyFields | src/codex.h:170-175 | a code `m * 256 + c` gives back its byte and modifier bits and fits the table |
| Keymaps.BitOrCommutes | src/win32_codex.cpp:208 | bitwise or is commutative |
| Keymaps.BitOrDisjoint | src/win32_codex.cpp:208 | or-ing a multiple of 2^k with a number below 2^k adds them |
| Keymaps.Keymap.constructor | src/codex.h:196-197 | a zero-initialised global keymap has every entry unbound |
| Keymaps.Keymap.BindCommand | src/codex.h:199-205 | entry `key` becomes a command binding; no other entry changes |
| Keymaps.Keymap.BindMap | src/codex.h:207-212 | entry `key` becomes a submap binding; no other entry changes |
| Keymaps.Keymap.CopyFrom | src/win32_codex.cpp:324 | struct assignment copies every entry |
| Keymaps.Keymap.BindAllUndefined | src/win32_codex.cpp:275-277 | every entry becomes bound to `undefined` |
| Keymaps.Dispatch | src/codex.cpp:971-983 | defines the keymap walk: a command, a drop, or a queue still waiting for keys (no contract) |
| Keymaps.DispatchStable | src/codex.cpp:971-983 | once a queue is decided, more keys do not change the decision |
| Keymaps.PendingWalk | src/codex.cpp:971-983 | a queue waits only when its first key opens a submap, or when it is one unbound key |
| Keymaps.StartupTables | src/win32_codex.cpp:274-331 | every start-up table has one entry per key code |
| Keymaps.TopLevelBound | src/win32_codex.cpp:274-331 | every key of the normal, insert, select and command tables is bound, and every key of the insert and command tables to a command |
| Keymaps.SingleKeyHandled | src/win32_codex.cpp:274-331 | one key from those tables is always handled, except `'g'` in normal and select, which waits |
| Keymaps.GotoFileStartKeys | src/win32_codex.cpp:290-318 | "gg" runs `goto_file_start` |
| Keymaps.GotoUnboundKey | src/win32_codex.cpp:318-321 | `'g'` followed by a key the goto table does not bind stays pending, and the next key discards the queue |
| Keymaps.KeymapSet.Snapshot | src/win32_codex.cpp:274-331 | the snapshot holds the current entries of each of the five tables |
| Keymaps.KeymapSet.constructor | src/win32_codex.cpp:274-331 | five fresh, distinct tables with every entry unbound, as the zeroed globals are before start-up |
| Keymaps.KeymapSet.Startup | src/win32_codex.cpp:274-331 | constructing the tables and running start-up on them leaves exactly the start-up tables |
| Keymaps.KeymapSet.SetupNormal | src/win32_codex.cpp:275-300 | the normal table becomes `NormalTable()` |
| Keymaps.KeymapSet.SetupInsert | src/win32_codex.cpp:303-315 | the insert table becomes `InsertTable()`, with printable bytes inserting themselves |
| Keymaps.KeymapSet.SetupGoto | src/win32_codex.cpp:318-321 | the goto table binds exactly g, e, h and l |
| Keymaps.KeymapSet.SetupSelect | src/win32_codex.cpp:324-326 | the select table is the normal table with `'v'` and `'o'` rebound |
| Keymaps.KeymapSet.SetupCommand | src/win32_codex.cpp:329-331 | the command table is the insert table with `'\n'` and `'\r'` bound to `exit_command_mode` |
| Keymaps.KeymapSet.Setup | src/win32_codex.cpp:274-331 | start-up leaves exactly the start-up tables |
| Keymaps.KeymapSet.ExecuteCommand | src/codex.cpp:971-983 | it reports handled exactly when the walk is decided, and returns the command the walk reaches |
| Keymaps.InputQueue.constructor | src/win32_codex.cpp:208-213 | the queue starts empty |
| Keymaps.InputQueue.KeyDown | src/win32_codex.cpp:204-213 | the encoded key is queued and dispatched; the queue is cleared exactly when the dispatch is decided, and the reached command is returned |
| CommandLine.Name | src/codex.cpp:940-944 | every command name is non-empty and holds no NUL |
| CommandLine.StrncmpAgrees | src/codex.cpp:962 | over a NUL-free name, `strncmp` reports equality exactly when the text reads the same bytes |
| CommandLine.Strncmp | src/codex.cpp:962 | the loop computes the `strncmp` comparison |
| CommandLine.RunsIffPrefix | src/codex.cpp:960-967 | a table entry runs exactly when the typed text starts with its full name |
| CommandLine.RunsFirstByte | src/codex.cpp:960-967 | an entry that runs has its name's first byte at the start of the text |
| CommandLine.RunsForTable | src/codex.cpp:960-967 | the loop considers the entries in table order, without stopping at the first match |
| CommandLine.AtMostOneRuns | src/codex.cpp:940-967 | at most one entry runs, and it is one whose name starts the text |
| CommandLine.AliasesRunNothing | src/codex.cpp:940-967 | an alias typed alone ("w", "f", "q", "o") runs nothing |
| CommandLine.LongerWordRuns | src/codex.cpp:960-967 | "quitter" runs `quit` |
| CommandLine.RunCommands | src/codex.cpp:960-967 | the loop over the table collects exactly the entries that run, in order |
| CommandLine.CommandMode | src/codex.cpp:523-528 | the command view takes the keyboard, its buffer becomes empty and its cursor goes to offset 0 |
| CommandLine.ExitCommandMode | src/codex.cpp:946-969 | the main view takes the keyboard back in normal mode; for non-empty text, the entries whose names start it run with the remaining tokens as arguments |

## Left out

- Win32 windowing, OpenGL, FreeType, the message loop, frame timing and resizing are platform I/O and floating point. Rendering, `rgb_to_color` and `get_string_width` are left out for the same reason.
- File I/O is left out: `read_file`, `write_file`, and the `open` and `write_buffer` commands. Only their pure line-ending conversions are modelled.
- `quit_codex` only sets a global flag. `undefined` does nothing. Both appear only as command names in the keymaps.
- The `Application` record is not modelled as a whole. Focus is the `Focus` value that `CommandMode`/`ExitCommandMode` return. `command_args` is the argument list `ExitCommandMode` returns.
- `ExitCommandMode` returns the commands to run; it does not run them. Running `search` is `SearchCommand`, applied to the main view with those arguments.
- Memory lifetimes are left out: `malloc`/`free`/`realloc` success, `free_string`, `free_builder`, `copy`, `reserve`, `string_make`, and the `push_buffer`/`push_view` list plumbing.
- `buffer_init`, `view_init`, `application_init` and `parse_arguments` only allocate records and read the command line, so they are not modelled. `text_buffer_init` is modelled.
- `append` only forwards to `string_emplace`, so `Strings.StringBuilder.Emplace` models it. `buffer_gap_delta` is folded into `BufferLength` and `RawBufferPos`.
- `string_from_pos` returns a pointer into the array, so it is not modelled as a member. `DropBeforeGap` writes through that pointer. `view_char` is unused by the core and is left out.
- `EditRecord` is never used, so it is not modelled.
- `xpath.h` is declarations only and is not part of this model.
- `line_offset`, `col_offset` and `lines` are carried as plain integers. The contracts state the scroll updates the commands make, but no invariant about the window.
- The `s32` and `int` fields of `Cursor`, `View` and `string` are unbounded integers. Truncation of documents longer than 2^31 bytes is not modelled.
- `Search.SearchCommand`: a pattern byte ≥ 0x80 is compared as a signed `char`, so it never matches, and this is modelled. The proof that matches are exactly occurrences (`Search.SearchFindsOccurrences`) is stated only for NUL-free ASCII patterns.
- `Strings.StringBuilder.Emplace` requires storage or a non-empty `str`. On a zero builder, an empty append takes the in-place path and writes the terminator through a null pointer.
- `Strings.StringBuilder.EmplaceRealloc` requires `count + |str| < SIZE_MAX`. When the capacity saturates at `SIZE_MAX`, `realloc(data, SIZE_MAX + 1)` wraps to a zero-byte request, and that case is not modelled.
- `TextStore.TextBuffer.DropBeforeGap` zeroes the deleted bytes. The contract does not state this, because those bytes are inside the gap and not part of the document.
- The `name` of a `MappableCommand` is always left empty by `bind`, so key bindings carry only their command.

## Findings

| source | as written | input that shows it | evidently intended | confidence | as-written member | corrected member |
|---|---|---|---|---|---|---|
| src/codex.cpp:882-901 | `delete_selection` always calls `delete_range(start, end + 1)` | cursor after the last byte of "a" (offset 1), no selection: `delete_range(1, 2)` reaches past the document and shifts the gap beyond its length | the range ends at the document end | not executed | Edits.SelectionRangeAsWritten, Edits.SelectionRangePastEnd | Edits.SelectionRange, Edits.DeleteSelection |
| src/codex.cpp:635-639 | `goto_file_end` moves to `buffer_length - 1` | empty document: the cursor becomes offset -1 | the cursor stays at offset 0 on an empty document | not executed | Motions.GotoFileEndAsWritten | Motions.GotoFileEnd |
