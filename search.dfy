/**
 * Literal forward search (`buffer_search_forward` and the `search` command of
 * codex.cpp): every offset from the cursor on where the pattern's bytes
 * compare equal to the document's, byte by byte.
 */
module Search {
  import opened Bytes
  import opened Lines
  import opened TextStore
  import opened Views

  /** `StringMatch`: where a match starts and how many bytes it spans. */
  datatype StringMatch = StringMatch(pos: int, count: int)

  /**
   * A pattern byte as the `char` of a `string` holds it: signed, so the bytes
   * from 0x80 on are negative and never equal a `u8` read from the document.
   */
  function SignedChar(b: u8): (c: int)
    ensures b < 128 ==> c == b as int
    ensures b >= 128 ==> c < 0
  {
    if b < 128 then b as int else b as int - 256
  }

  /** The comparison loop of `buffer_search_forward` at `i`: every pattern byte equals the byte read at its offset (0 past the end). */
  ghost predicate MatchesAt(t: seq<u8>, pattern: seq<u8>, i: int)
    requires 0 <= i
  {
    forall k :: 0 <= k < |pattern| ==> SignedChar(pattern[k]) == CharAt(t, i + k) as int
  }

  /** The matches `buffer_search_forward` collects over the offsets `[lo, hi)`, in increasing order. */
  ghost function MatchesIn(t: seq<u8>, pattern: seq<u8>, lo: int, hi: int): seq<StringMatch>
    requires 0 <= lo
    decreases hi - lo
  {
    if hi <= lo then []
    else MatchesIn(t, pattern, lo, hi - 1) + (if MatchesAt(t, pattern, hi - 1) then [StringMatch(hi - 1, |pattern|)] else [])
  }

  /** Printable ASCII without NUL: what the command line can hold. */
  ghost predicate PlainPattern(pattern: seq<u8>)
  {
    forall k :: 0 <= k < |pattern| ==> 0 < pattern[k] < 128
  }

  /** For a plain pattern the comparison is an occurrence of the pattern inside the document. */
  lemma PlainMatch(t: seq<u8>, pattern: seq<u8>, i: int)
    requires 0 <= i < |t| && PlainPattern(pattern)
    ensures MatchesAt(t, pattern, i) <==> i + |pattern| <= |t| && t[i..i + |pattern|] == pattern
  {
    if i + |pattern| > |t| {
      var k := |t| - i;
      assert SignedChar(pattern[k]) != CharAt(t, i + k) as int;
    } else {
      forall k | 0 <= k < |pattern|
        ensures SignedChar(pattern[k]) == CharAt(t, i + k) as int <==> t[i..i + |pattern|][k] == pattern[k]
      {
      }
      if t[i..i + |pattern|] != pattern {
        var k :| 0 <= k < |pattern| && t[i..i + |pattern|][k] != pattern[k];
      }
    }
  }

  /**
   * The match list holds, in strictly increasing order, exactly the offsets
   * of `[lo, hi)` where the pattern compares equal, each spanning the
   * pattern's length.
   */
  lemma {:induction false} MatchesInExact(t: seq<u8>, pattern: seq<u8>, lo: int, hi: int)
    requires 0 <= lo
    ensures forall n :: 0 <= n < |MatchesIn(t, pattern, lo, hi)| ==>
      var m := MatchesIn(t, pattern, lo, hi)[n];
      lo <= m.pos < hi && m.count == |pattern| && MatchesAt(t, pattern, m.pos)
    ensures forall n, n' :: 0 <= n < n' < |MatchesIn(t, pattern, lo, hi)| ==>
      MatchesIn(t, pattern, lo, hi)[n].pos < MatchesIn(t, pattern, lo, hi)[n'].pos
    ensures forall i :: lo <= i < hi && MatchesAt(t, pattern, i) ==>
      exists n :: 0 <= n < |MatchesIn(t, pattern, lo, hi)| && MatchesIn(t, pattern, lo, hi)[n].pos == i
    decreases hi - lo
  {
    if hi > lo {
      MatchesInExact(t, pattern, lo, hi - 1);
      var prev := MatchesIn(t, pattern, lo, hi - 1);
      var all := MatchesIn(t, pattern, lo, hi);
      assert all[..|prev|] == prev;
      forall i | lo <= i < hi && MatchesAt(t, pattern, i)
        ensures exists n :: 0 <= n < |all| && all[n].pos == i
      {
        if i < hi - 1 {
          var n :| 0 <= n < |prev| && prev[n].pos == i;
          assert all[n] == prev[n];
        } else {
          assert all[|prev|].pos == i;
        }
      }
    }
  }

  /** The first match, if any, is the least offset from `lo` on where the pattern compares equal; with none, it compares equal nowhere. */
  lemma {:induction false} FirstMatch(t: seq<u8>, pattern: seq<u8>, lo: int, hi: int)
    requires 0 <= lo
    ensures |MatchesIn(t, pattern, lo, hi)| > 0 ==>
      var p := MatchesIn(t, pattern, lo, hi)[0].pos;
      lo <= p < hi && MatchesAt(t, pattern, p) && forall j :: lo <= j < p ==> !MatchesAt(t, pattern, j)
    ensures |MatchesIn(t, pattern, lo, hi)| == 0 ==> forall j :: lo <= j < hi ==> !MatchesAt(t, pattern, j)
    decreases hi - lo
  {
    if hi > lo {
      FirstMatch(t, pattern, lo, hi - 1);
      var prev := MatchesIn(t, pattern, lo, hi - 1);
      var all := MatchesIn(t, pattern, lo, hi);
      assert all == prev + (if MatchesAt(t, pattern, hi - 1) then [StringMatch(hi - 1, |pattern|)] else []);
      if |prev| > 0 {
        assert all[0] == prev[0];
      } else if |all| > 0 {
        assert all[0].pos == hi - 1;
      }
    }
  }

  /** A pattern holding a byte from 0x80 on never matches: that byte is negative as a `char`. */
  lemma HighByteNeverMatches(t: seq<u8>, pattern: seq<u8>, i: int, k: int)
    requires 0 <= i && 0 <= k < |pattern| && pattern[k] >= 128
    ensures !MatchesAt(t, pattern, i)
  {
    assert SignedChar(pattern[k]) < 0 <= CharAt(t, i + k) as int;
  }

  /** The inner loop of `buffer_search_forward`: does the pattern compare equal at `index`? */
  method MatchAt(buf: TextBuffer, pattern: seq<u8>, index: int) returns (matches: bool)
    requires buf.ValidGap() && 0 <= index
    ensures matches <==> MatchesAt(buf.Text(), pattern, index)
  {
    matches := true;
    var pidx := 0;
    while pidx < |pattern|
      invariant 0 <= pidx <= |pattern|
      invariant forall k :: 0 <= k < pidx ==> SignedChar(pattern[k]) == CharAt(buf.Text(), index + k) as int
    {
      if SignedChar(pattern[pidx]) != buf.CharFromPos(index + pidx) as int {
        assert !MatchesAt(buf.Text(), pattern, index) by {
          assert SignedChar(pattern[pidx]) != CharAt(buf.Text(), index + pidx) as int;
        }
        matches := false;
        break;
      }
      pidx := pidx + 1;
    }
  }

  /** `buffer_search_forward`: every offset from `pos` up to the document end where the pattern compares equal. */
  method BufferSearchForward(buf: TextBuffer, pattern: seq<u8>, pos: int) returns (matchList: seq<StringMatch>)
    requires buf.ValidGap() && 0 <= pos
    ensures matchList == MatchesIn(buf.Text(), pattern, pos, |buf.Text()|)
  {
    matchList := [];
    var last := buf.BufferLength();
    var index := pos;
    while index < last
      invariant pos <= index && (index == pos || index <= last)
      invariant matchList == MatchesIn(buf.Text(), pattern, pos, index)
    {
      var matches := MatchAt(buf, pattern, index);
      if matches {
        matchList := matchList + [StringMatch(index, |pattern|)];
      }
      index := index + 1;
    }
    if pos > last {
      assert MatchesIn(buf.Text(), pattern, pos, last) == [];
    }
  }

  /**
   * `search`: with no argument nothing happens; otherwise the cursor goes to
   * the first match of the first argument at or after it, and stays put when
   * there is none.
   */
  method SearchCommand(buf: TextBuffer, v: View, args: seq<seq<u8>>) returns (r: View)
    requires buf.Valid() && ViewOk(buf.Text(), v)
    ensures ViewOk(buf.Text(), r) && r.(cursor := v.cursor) == v
    ensures |args| == 0 ==> r == v
    ensures |args| > 0 ==> v.cursor.pos <= r.cursor.pos
    ensures |args| > 0 ==> forall j :: v.cursor.pos <= j < r.cursor.pos ==> !MatchesAt(buf.Text(), args[0], j)
    ensures |args| > 0 ==>
      (r.cursor.pos < |buf.Text()| && MatchesAt(buf.Text(), args[0], r.cursor.pos)) ||
      (r == v && forall j :: v.cursor.pos <= j < |buf.Text()| ==> !MatchesAt(buf.Text(), args[0], j))
  {
    r := v;
    if |args| < 1 {
      return;
    }
    var pattern := args[0];
    var matchList := BufferSearchForward(buf, pattern, v.cursor.pos);
    FirstMatch(buf.Text(), pattern, v.cursor.pos, |buf.Text()|);
    if |matchList| > 0 {
      var c := buf.GetCursorFromPos(matchList[0].pos);
      r := v.(cursor := c);
    }
  }

  /** The offsets a match list records. */
  ghost function Positions(ms: seq<StringMatch>): set<int>
  {
    set m | m in ms :: m.pos
  }

  /** The match list of a plain pattern records exactly its occurrences from `lo` on. */
  lemma SearchFindsOccurrences(t: seq<u8>, pattern: seq<u8>, lo: int)
    requires 0 <= lo && PlainPattern(pattern)
    ensures forall i :: i in Positions(MatchesIn(t, pattern, lo, |t|)) <==>
      lo <= i < |t| && i + |pattern| <= |t| && t[i..i + |pattern|] == pattern
  {
    var ms := MatchesIn(t, pattern, lo, |t|);
    MatchesInExact(t, pattern, lo, |t|);
    forall i | i in Positions(ms)
      ensures lo <= i < |t| && i + |pattern| <= |t| && t[i..i + |pattern|] == pattern
    {
      var m :| m in ms && m.pos == i;
      var n :| 0 <= n < |ms| && ms[n] == m;
      PlainMatch(t, pattern, i);
    }
    forall i | lo <= i < |t| && i + |pattern| <= |t| && t[i..i + |pattern|] == pattern
      ensures i in Positions(ms)
    {
      PlainMatch(t, pattern, i);
      var n :| 0 <= n < |ms| && ms[n].pos == i;
      assert ms[n] in ms;
    }
  }
}
