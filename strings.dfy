/**
 * The small string helpers of codex.cpp: `split` on spaces, `join`, the
 * line-ending conversions used when a file is read or written,
 * `unix_path_is_abs`, and the growable `StringBuilder` that `string_emplace`
 * appends to.
 */
module Strings {
  import opened Bytes
  import Lines

  // ---------------------------------------------------------------- split

  /** The first offset at or after `i` holding a space, or `|s|`. */
  function SpaceIndex(s: seq<u8>, i: int): (j: int)
    requires 0 <= i <= |s|
    ensures i <= j <= |s| && (j < |s| ==> s[j] == SPACE)
    decreases |s| - i
  {
    if i == |s| || s[i] == SPACE then i else SpaceIndex(s, i + 1)
  }

  /** A scan that has passed only non-spaces and stops on a space (or the end) stops where `SpaceIndex` does. */
  lemma {:induction false} SpaceIndexAt(s: seq<u8>, i: int, j: int)
    requires 0 <= i <= j <= |s|
    requires forall k :: i <= k < j ==> s[k] != SPACE
    requires j == |s| || s[j] == SPACE
    ensures SpaceIndex(s, i) == j
    decreases j - i
  {
    if i < j {
      SpaceIndexAt(s, i + 1, j);
    }
  }

  /** Every byte a space scan passes over is not a space. */
  lemma {:induction false} SpaceIndexSkips(s: seq<u8>, i: int)
    requires 0 <= i <= |s|
    ensures forall k :: i <= k < SpaceIndex(s, i) ==> s[k] != SPACE
    decreases |s| - i
  {
    if i < |s| && s[i] != SPACE {
      SpaceIndexSkips(s, i + 1);
    }
  }

  /** The tokens `split` pushes from offset `start` on: up to each space, then the rest; no token after a final space. */
  function SplitFrom(s: seq<u8>, start: int): seq<seq<u8>>
    requires 0 <= start <= |s|
    decreases |s| - start
  {
    if start == |s| then []
    else
      var j := SpaceIndex(s, start);
      if j == |s| then [s[start..]] else [s[start..j]] + SplitFrom(s, j + 1)
  }

  /** `split(s)`: the space-separated tokens of `s`; two spaces in a row give an empty token. */
  function Split(s: seq<u8>): seq<seq<u8>>
  {
    SplitFrom(s, 0)
  }

  /** Tokens put back together with one space between each two. */
  function JoinSpaces(ts: seq<seq<u8>>): seq<u8>
  {
    if |ts| == 0 then [] else if |ts| == 1 then ts[0] else ts[0] + [SPACE] + JoinSpaces(ts[1..])
  }

  /** `s` without its last byte when that byte is a space. */
  function DropTrailingSpace(s: seq<u8>): seq<u8>
  {
    if |s| > 0 && s[|s| - 1] == SPACE then s[..|s| - 1] else s
  }

  /** A space in front of a non-empty tail does not change what trimming the end removes. */
  lemma DropTrailingSpaceAfter(a: seq<u8>, b: seq<u8>)
    requires |b| > 0
    ensures DropTrailingSpace(a + [SPACE] + b) == a + [SPACE] + DropTrailingSpace(b)
  {
    var u := a + [SPACE] + b;
    assert u[|u| - 1] == b[|b| - 1];
    if b[|b| - 1] == SPACE {
      assert u[..|u| - 1] == a + [SPACE] + b[..|b| - 1];
    }
  }

  /** Tokens holding no space byte. */
  predicate SpaceFree(ts: seq<seq<u8>>)
  {
    forall n, k :: 0 <= n < |ts| && 0 <= k < |ts[n]| ==> ts[n][k] != SPACE
  }

  /** A space-free token in front of space-free tokens keeps them space-free. */
  lemma SpaceFreeCons(token: seq<u8>, rest: seq<seq<u8>>)
    requires forall k :: 0 <= k < |token| ==> token[k] != SPACE
    requires SpaceFree(rest)
    ensures SpaceFree([token] + rest)
  {
    var ts := [token] + rest;
    forall n, k | 0 <= n < |ts| && 0 <= k < |ts[n]|
      ensures ts[n][k] != SPACE
    {
      if n > 0 {
        assert ts[n] == rest[n - 1];
      }
    }
  }

  /** From a non-empty rest, the first token the space scan closes holds no space and is a prefix of that rest. */
  lemma FirstToken(s: seq<u8>, start: int)
    requires 0 <= start < |s|
    ensures |SplitFrom(s, start)| > 0 && SplitFrom(s, start)[0] <= s[start..]
    ensures forall k :: 0 <= k < |SplitFrom(s, start)[0]| ==> SplitFrom(s, start)[0][k] != SPACE
  {
    var j := SpaceIndex(s, start);
    SpaceIndexSkips(s, start);
    var first := SplitFrom(s, start)[0];
    assert first == s[start..j];
    assert forall k :: 0 <= k < |first| ==> first[k] == s[start + k];
  }

  /** The tokens from `start` on hold no space. */
  lemma {:induction false} SplitFromTokens(s: seq<u8>, start: int)
    requires 0 <= start <= |s|
    ensures SpaceFree(SplitFrom(s, start))
    decreases |s| - start
  {
    if start < |s| {
      var j := SpaceIndex(s, start);
      var toks := SplitFrom(s, start);
      FirstToken(s, start);
      if j < |s| {
        var rest := SplitFrom(s, j + 1);
        SplitFromTokens(s, j + 1);
        assert toks == [toks[0]] + rest;
        SpaceFreeCons(toks[0], rest);
      } else {
        assert toks == [toks[0]] + [];
        SpaceFreeCons(toks[0], []);
      }
    }
  }

  /** The text from `start` on is the token up to the space at `j`, that space, and what follows it. */
  lemma AroundSpace(s: seq<u8>, start: int, j: int)
    requires 0 <= start <= j < |s| && s[j] == SPACE
    ensures s[start..] == s[start..j] + [SPACE] + s[j + 1..]
  {
  }

  /** A last token followed by a final space joins to the text less that space. */
  lemma JoinLast(token: seq<u8>)
    ensures JoinSpaces([token]) == DropTrailingSpace(token + [SPACE])
  {
    var u := token + [SPACE];
    assert u[..|u| - 1] == token;
  }

  /** A token followed by more tokens joins to the token, a space, and the join of the rest. */
  lemma JoinStep(token: seq<u8>, rest: seq<seq<u8>>, tail: seq<u8>)
    requires |rest| > 0 && |tail| > 0 && JoinSpaces(rest) == DropTrailingSpace(tail)
    ensures JoinSpaces([token] + rest) == DropTrailingSpace(token + [SPACE] + tail)
  {
    assert ([token] + rest)[1..] == rest;
    DropTrailingSpaceAfter(token, tail);
  }

  /** A token ended by the space at `j`, followed by the join of the tokens after it, gives the text from `start` on less a final space. */
  lemma JoinAtSpace(s: seq<u8>, start: int, j: int, rest: seq<seq<u8>>)
    requires 0 <= start <= j < |s| && s[j] == SPACE
    requires JoinSpaces(rest) == DropTrailingSpace(s[j + 1..])
    requires j + 1 == |s| ==> rest == []
    requires j + 1 < |s| ==> |rest| > 0
    ensures JoinSpaces([s[start..j]] + rest) == DropTrailingSpace(s[start..])
  {
    AroundSpace(s, start, j);
    if j + 1 == |s| {
      assert [s[start..j]] + rest == [s[start..j]];
      assert s[j + 1..] == [];
      assert s[start..] == s[start..j] + [SPACE];
      JoinLast(s[start..j]);
    } else {
      JoinStep(s[start..j], rest, s[j + 1..]);
    }
  }

  /** Joining the tokens from `start` on with spaces gives back the text from `start` on, less one trailing space. */
  lemma {:induction false} SplitFromJoin(s: seq<u8>, start: int)
    requires 0 <= start <= |s|
    ensures JoinSpaces(SplitFrom(s, start)) == DropTrailingSpace(s[start..])
    decreases |s| - start
  {
    if start < |s| {
      var j := SpaceIndex(s, start);
      if j < |s| {
        SplitFromJoin(s, j + 1);
        JoinAtSpace(s, start, j, SplitFrom(s, j + 1));
      } else {
        SpaceIndexSkips(s, start);
        assert s[start..] == s[start..j];
      }
    }
  }

  /** `split` loses nothing but the spaces: the tokens hold none, rejoin to the text (less a final space), and the first one starts the text. */
  lemma SplitJoin(s: seq<u8>)
    ensures forall n, k :: 0 <= n < |Split(s)| && 0 <= k < |Split(s)[n]| ==> Split(s)[n][k] != SPACE
    ensures JoinSpaces(Split(s)) == DropTrailingSpace(s)
    ensures |Split(s)| == 0 <==> |s| == 0
    ensures |s| > 0 ==> Split(s)[0] <= s
  {
    SplitFromTokens(s, 0);
    if |s| > 0 {
      FirstToken(s, 0);
    }
    SplitFromJoin(s, 0);
    assert s[0..] == s;
  }

  /** A space at `j` after a run of non-spaces from `start` closes the first token. */
  lemma SplitAtSpace(s: seq<u8>, start: int, j: int)
    requires 0 <= start <= j < |s| && s[j] == SPACE
    requires forall k :: start <= k < j ==> s[k] != SPACE
    ensures SplitFrom(s, start) == [s[start..j]] + SplitFrom(s, j + 1)
  {
    SpaceIndexAt(s, start, j);
  }

  /** A non-empty rest with no space is a single token. */
  lemma SplitAtEnd(s: seq<u8>, start: int)
    requires 0 <= start < |s|
    requires forall k :: start <= k < |s| ==> s[k] != SPACE
    ensures SplitFrom(s, start) == [s[start..]]
  {
    SpaceIndexAt(s, start, |s|);
  }

  /** Pushing a token moves it from the front of the pending tokens to the end of the pushed ones. */
  lemma PushToken(splits: seq<seq<u8>>, token: seq<u8>, rest: seq<seq<u8>>)
    ensures splits + ([token] + rest) == (splits + [token]) + rest
  {
  }

  /** The loop of `split`: scan for spaces, push each token, push the last one at the final byte. */
  method SplitLoop(s: seq<u8>) returns (splits: seq<seq<u8>>)
    ensures splits == Split(s)
  {
    splits := [];
    var i, start := 0, 0;
    while i < |s|
      invariant 0 <= start <= i <= |s|
      invariant i == |s| ==> start == |s|
      invariant forall k :: start <= k < i ==> s[k] != SPACE
      invariant splits + SplitFrom(s, start) == Split(s)
    {
      if s[i] == SPACE {
        SplitAtSpace(s, start, i);
        PushToken(splits, s[start..i], SplitFrom(s, i + 1));
        splits := splits + [s[start..i]];
        start := i + 1;
      } else if i == |s| - 1 {
        SplitAtEnd(s, start);
        assert s[start..i + 1] == s[start..];
        splits := splits + [s[start..i + 1]];
        return;
      }
      i := i + 1;
    }
    assert SplitFrom(s, start) == [];
    assert splits + [] == splits;
  }

  // ---------------------------------------------------------------- join and copy

  /** Copies `src` into `dst` from offset `at`; nothing else of `dst` changes. */
  method CopyInto(dst: array<u8>, at: int, src: seq<u8>)
    requires 0 <= at && at + |src| <= dst.Length
    modifies dst
    ensures dst[at..at + |src|] == src
    ensures forall k :: 0 <= k < dst.Length && !(at <= k < at + |src|) ==> dst[k] == old(dst[k])
  {
    var i := 0;
    while i < |src|
      invariant 0 <= i <= |src|
      invariant forall k :: 0 <= k < i ==> dst[at + k] == src[k]
      invariant forall k :: 0 <= k < dst.Length && !(at <= k < at + i) ==> dst[k] == old(dst[k])
    {
      dst[at + i] := src[i];
      i := i + 1;
    }
    assert forall k :: 0 <= k < |src| ==> dst[at..at + |src|][k] == src[k];
  }

  /**
   * `join(first, second)`: a fresh block holding `first`, then `second`,
   * then the NUL terminator.
   */
  method Join(first: seq<u8>, second: seq<u8>) returns (block: seq<u8>)
    ensures |block| == |first| + |second| + 1
    ensures block[..|first|] == first && block[|first|..|block| - 1] == second
    ensures block[|block| - 1] == NUL
  {
    var n := |first| + |second|;
    var str := new u8[n + 1];
    CopyInto(str, 0, first);
    CopyInto(str, |first|, second);
    str[n] := NUL;
    block := str[..];
    assert block[..|first|] == str[0..|first|];
    assert block[|first|..n] == str[|first|..n];
  }

  // ---------------------------------------------------------------- line endings

  /** `lf_to_crlf` on `s`: every '\n' becomes "\r\n"; every other byte is kept. */
  function ExpandNewlines(s: seq<u8>): seq<u8>
  {
    if |s| == 0 then []
    else ExpandNewlines(s[..|s| - 1]) + (if s[|s| - 1] == NL then [CR, NL] else [s[|s| - 1]])
  }

  /** `crlf_to_lf` on `s`: every '\r' is dropped, whether or not a '\n' follows it. */
  function DropReturns(s: seq<u8>): seq<u8>
  {
    if |s| == 0 then []
    else DropReturns(s[..|s| - 1]) + (if s[|s| - 1] == CR then [] else [s[|s| - 1]])
  }

  ghost predicate NoReturns(s: seq<u8>)
  {
    forall k :: 0 <= k < |s| ==> s[k] != CR
  }

  /** Dropping returns distributes over concatenation. */
  lemma {:induction false} DropReturnsAppend(a: seq<u8>, b: seq<u8>)
    ensures DropReturns(a + b) == DropReturns(a) + DropReturns(b)
  {
    if |b| > 0 {
      var u := b[..|b| - 1];
      DropReturnsAppend(a, u);
      assert (a + b)[..|a + b| - 1] == a + u;
    } else {
      assert a + b == a;
    }
  }

  /** Converting to "\r\n" and back gives the original text with its returns dropped. */
  lemma {:induction false} LineEndingsRoundTrip(s: seq<u8>)
    ensures DropReturns(ExpandNewlines(s)) == DropReturns(s)
  {
    if |s| > 0 {
      var u := s[..|s| - 1];
      var b := s[|s| - 1];
      LineEndingsRoundTrip(u);
      DropReturnsAppend(ExpandNewlines(u), if b == NL then [CR, NL] else [b]);
      if b == NL {
        var crnl: seq<u8> := [CR, NL];
        assert crnl[..1] == [CR] && crnl[1] == NL;
        var cr: seq<u8> := [CR];
        assert cr[..0] == [] && cr[0] == CR;
        assert DropReturns(cr) == [];
        assert DropReturns(crnl) == [NL];
      } else {
        assert [b][..0] == [];
      }
    }
  }

  /** `crlf_to_lf` leaves no '\r', and changes nothing in a text that has none. */
  lemma {:induction false} DropReturnsClean(s: seq<u8>)
    ensures NoReturns(DropReturns(s))
    ensures NoReturns(s) ==> DropReturns(s) == s
  {
    if |s| > 0 {
      DropReturnsClean(s[..|s| - 1]);
    }
  }

  /** A text without '\r' survives a save and a load unchanged; its saved form is one byte longer per line break. */
  lemma SaveLoad(s: seq<u8>)
    requires NoReturns(s)
    ensures DropReturns(ExpandNewlines(s)) == s
    ensures |ExpandNewlines(s)| == |s| + Lines.NewlineCount(s)
  {
    LineEndingsRoundTrip(s);
    DropReturnsClean(s);
    ExpandLength(s);
  }

  lemma {:induction false} ExpandLength(s: seq<u8>)
    ensures |ExpandNewlines(s)| == |s| + Lines.NewlineCount(s)
  {
    if |s| > 0 {
      ExpandLength(s[..|s| - 1]);
    }
  }

  /** A lone '\r' is dropped too: "\ra" loads as "a". */
  lemma LoneReturnDropped()
    ensures DropReturns([CR, 97]) == [97]
  {
    var s: seq<u8> := [CR, 97];
    var cr: seq<u8> := [CR];
    assert cr[..0] == [] && cr[0] == CR;
    assert DropReturns(cr) == [];
    assert s[..1] == cr && s[1] == 97;
  }

  /** The loop of `lf_to_crlf`. */
  method LfToCrlf(s: seq<u8>) returns (r: seq<u8>)
    ensures r == ExpandNewlines(s)
  {
    r := [];
    var i := 0;
    while i < |s|
      invariant 0 <= i <= |s|
      invariant r == ExpandNewlines(s[..i])
    {
      assert s[..i + 1][..i] == s[..i];
      if s[i] == NL {
        r := r + [CR, NL];
      } else {
        r := r + [s[i]];
      }
      i := i + 1;
    }
    assert s[..i] == s;
  }

  /** The loop of `crlf_to_lf`. */
  method CrlfToLf(s: seq<u8>) returns (r: seq<u8>)
    ensures r == DropReturns(s)
  {
    r := [];
    var i := 0;
    while i < |s|
      invariant 0 <= i <= |s|
      invariant r == DropReturns(s[..i])
    {
      assert s[..i + 1][..i] == s[..i];
      if s[i] != CR {
        r := r + [s[i]];
      }
      i := i + 1;
    }
    assert s[..i] == s;
  }

  // ---------------------------------------------------------------- paths

  /** `unix_path_is_abs`: a non-empty path is absolute when it starts with '/' or '\'. */
  predicate UnixPathIsAbs(path: seq<u8>)
    requires |path| > 0
  {
    path[0] == SLASH || path[0] == BACKSLASH
  }

  /**
   * Only the first byte decides: a path built by joining a directory with a
   * file name is absolute exactly when the directory is, whatever the name.
   */
  lemma JoinedPathIsAbs(directory: seq<u8>, name: seq<u8>, block: seq<u8>)
    requires |directory| > 0
    requires |block| == |directory| + |name| + 1
    requires block[..|directory|] == directory && block[|directory|..|block| - 1] == name
    ensures UnixPathIsAbs(block) <==> UnixPathIsAbs(directory)
  {
    assert block[0] == block[..|directory|][0];
  }

  // ---------------------------------------------------------------- string builder

  /** `SIZE_MAX` for a 64-bit `size_t`. */
  const SIZE_MAX: int := 0xFFFF_FFFF_FFFF_FFFF

  /** The capacity `string_emplace_realloc` picks for `newCount` bytes: one and a half times `newCount + 1`, or `SIZE_MAX` when that would overflow. */
  function GrownCapacity(newCount: int): (cap: int)
    requires 0 <= newCount < SIZE_MAX
    ensures newCount < cap <= SIZE_MAX
    ensures cap < SIZE_MAX ==> cap == (newCount + 1) + (newCount + 1) / 2
  {
    var c := newCount + 1;
    if c > SIZE_MAX - c / 2 then SIZE_MAX else c + c / 2
  }

  /** `StringBuilder`: `count` bytes in `data`, room for `capacity` bytes and a NUL terminator; a zero-initialised builder has no storage. */
  class StringBuilder {
    var data: array?<u8>
    var count: int
    var capacity: int

    ghost predicate Valid()
      reads this, data
    {
      if data == null then count == 0 && capacity == 0
      else 0 <= count <= capacity && capacity < data.Length && data[count] == NUL
    }

    /** The bytes built so far. */
    ghost function Contents(): seq<u8>
      reads this, data
      requires Valid()
    {
      if data == null then [] else data[..count]
    }

    /** `StringBuilder builder{}`. */
    constructor ()
      ensures Valid() && Contents() == [] && data == null && capacity == 0
    {
      data, count, capacity := null, 0, 0;
    }

    /** `string_emplace_realloc`: a larger block holding the old bytes, then `str` and the terminator. */
    method EmplaceRealloc(str: seq<u8>)
      requires Valid() && count + |str| < SIZE_MAX
      modifies this
      ensures Valid() && fresh(data)
      ensures Contents() == old(Contents()) + str
      ensures count == old(count) + |str| && capacity == GrownCapacity(count)
    {
      var newCount := count + |str|;
      var newCapacity := GrownCapacity(newCount);
      var block := new u8[newCapacity + 1];
      if data != null {
        CopyInto(block, 0, data[..count]);
      }
      CopyInto(block, count, str);
      block[newCount] := NUL;
      assert block[..newCount] == block[0..count] + block[count..count + |str|];
      data, count, capacity := block, newCount, newCapacity;
    }

    /** `string_emplace_capacity`: `str` and the terminator go into the room already there. */
    method EmplaceCapacity(str: seq<u8>)
      requires Valid() && data != null && count + |str| <= capacity
      modifies data, this`count
      ensures Valid() && data == old(data) && capacity == old(capacity)
      ensures Contents() == old(Contents()) + str && count == old(count) + |str|
    {
      ghost var before := data[..count];
      CopyInto(data, count, str);
      count := count + |str|;
      data[count] := NUL;
      assert data[..count] == data[0..old(count)] + data[old(count)..count];
    }

    /**
     * `string_emplace`: appends `str`, reallocating when it does not fit. On a
     * builder without storage only a non-empty `str` is safe: an empty one
     * takes the in-place path and writes the terminator through a null pointer.
     */
    method Emplace(str: seq<u8>)
      requires Valid() && count + |str| < SIZE_MAX
      requires data != null || |str| > 0
      modifies this, data
      ensures Valid() && Contents() == old(Contents()) + str && count == old(count) + |str|
      ensures old(capacity) < count ==> capacity == GrownCapacity(count)
      ensures count <= old(capacity) ==> capacity == old(capacity)
    {
      if capacity < count + |str| {
        EmplaceRealloc(str);
      } else {
        EmplaceCapacity(str);
      }
    }
  }
}
