/**
 * The command line of codex.cpp: `command_mode` hands the keyboard to the
 * one-line command view, and `exit_command_mode` splits its text on spaces and
 * runs every entry of the `typeable_commands` table whose name `strncmp`
 * finds at the start of that text.
 */
module CommandLine {
  import opened Bytes
  import opened Lines
  import opened TextStore
  import opened Views
  import Strings

  /** Which view has the keyboard: `app->active_view` and `app->command_mode`. */
  datatype Focus = MainView | CommandView

  /** The entries of `typeable_commands`, in table order. */
  datatype Typeable = Write | Quit | OpenFile | SearchText

  const TYPEABLE: seq<Typeable> := [Write, Quit, OpenFile, SearchText]

  /** The name of each entry: "write", "quit", "open", "search". */
  function Name(c: Typeable): (name: seq<u8>)
    ensures |name| > 0 && forall k :: 0 <= k < |name| ==> name[k] != NUL
  {
    match c
    case Write => [119, 114, 105, 116, 101]
    case Quit => [113, 117, 105, 116]
    case OpenFile => [111, 112, 101, 110]
    case SearchText => [115, 101, 97, 114, 99, 104]
  }

  /** The aliases the table lists ("w" and "f", "q", "o", none); nothing reads them. */
  function Aliases(c: Typeable): seq<seq<u8>>
  {
    match c
    case Write => [[119], [102]]
    case Quit => [[113]]
    case OpenFile => [[111]]
    case SearchText => []
  }

  /**
   * `strncmp(a, b, n) == 0` from offset `i` on, on NUL-terminated strings: the
   * bytes agree up to `n`, or up to a NUL they share.
   */
  function StrncmpFrom(a: seq<u8>, b: seq<u8>, i: nat, n: nat): bool
    decreases n - i
  {
    i >= n || (CharAt(a, i) == CharAt(b, i) && (CharAt(a, i) == NUL || StrncmpFrom(a, b, i + 1, n)))
  }

  /** Over the rest of a NUL-free name, `strncmp` agrees exactly when the text reads the same bytes there. */
  lemma {:induction false} StrncmpAgrees(name: seq<u8>, s: seq<u8>, i: nat)
    requires i <= |name| && forall k :: 0 <= k < |name| ==> name[k] != NUL
    ensures StrncmpFrom(name, s, i, |name|) <==> forall k :: i <= k < |name| ==> CharAt(s, k) == name[k]
    decreases |name| - i
  {
    if i < |name| {
      StrncmpAgrees(name, s, i + 1);
    }
  }

  /** The `strncmp` loop: compares byte by byte up to `n`, stopping at a difference or a shared NUL. */
  method Strncmp(a: seq<u8>, b: seq<u8>, n: nat) returns (equal: bool)
    ensures equal == StrncmpFrom(a, b, 0, n)
  {
    var i := 0;
    while i < n
      invariant 0 <= i <= n
      invariant StrncmpFrom(a, b, i, n) == StrncmpFrom(a, b, 0, n)
    {
      if CharAt(a, i) != CharAt(b, i) {
        return false;
      }
      if CharAt(a, i) == NUL {
        return true;
      }
      i := i + 1;
    }
    return true;
  }

  /** Whether entry `c` runs for the typed text `s`: its name compared, over its own length, with the text from the first token on. */
  function Runs(c: Typeable, s: seq<u8>): bool
  {
    StrncmpFrom(Name(c), s, 0, |Name(c)|)
  }

  /** An entry runs exactly when the typed text starts with its full name; what follows does not matter. */
  lemma RunsIffPrefix(c: Typeable, s: seq<u8>)
    ensures Runs(c, s) <==> Name(c) <= s
  {
    var name := Name(c);
    StrncmpAgrees(name, s, 0);
    if Runs(c, s) {
      assert CharAt(s, |name| - 1) == name[|name| - 1];
      assert forall k :: 0 <= k < |name| ==> s[k] == name[k];
      assert s[..|name|] == name;
    }
  }

  /** An entry that runs has its name's first byte at the start of the text. */
  lemma RunsFirstByte(c: Typeable, s: seq<u8>)
    ensures Runs(c, s) ==> |s| > 0 && s[0] == Name(c)[0]
  {
    RunsIffPrefix(c, s);
  }

  /** The entries that run for `s`, in table order (the loop does not stop at the first). */
  function RunsFor(s: seq<u8>, cs: seq<Typeable>): seq<Typeable>
  {
    if |cs| == 0 then [] else RunsFor(s, cs[..|cs| - 1]) + (if Runs(cs[|cs| - 1], s) then [cs[|cs| - 1]] else [])
  }

  /** `RunsFor` over the table, written out entry by entry. */
  lemma RunsForTable(s: seq<u8>)
    ensures RunsFor(s, TYPEABLE) ==
      (if Runs(Write, s) then [Write] else []) + (if Runs(Quit, s) then [Quit] else []) +
      (if Runs(OpenFile, s) then [OpenFile] else []) + (if Runs(SearchText, s) then [SearchText] else [])
  {
    var t := TYPEABLE;
    assert t[..4] == t && t[..4][..3] == t[..3] && t[..3][..2] == t[..2] && t[..2][..1] == t[..1] && t[..1][..0] == [];
    assert RunsFor(s, t[..1]) == (if Runs(Write, s) then [Write] else []);
    assert RunsFor(s, t[..2]) == RunsFor(s, t[..1]) + (if Runs(Quit, s) then [Quit] else []);
    assert RunsFor(s, t[..3]) == RunsFor(s, t[..2]) + (if Runs(OpenFile, s) then [OpenFile] else []);
  }

  /** The names start with four different bytes, so at most one entry ever runs, and it is one whose name starts the text. */
  lemma AtMostOneRuns(s: seq<u8>)
    ensures |RunsFor(s, TYPEABLE)| <= 1
    ensures forall c :: c in RunsFor(s, TYPEABLE) ==> Name(c) <= s
  {
    RunsForTable(s);
    RunsFirstByte(Write, s);
    RunsFirstByte(Quit, s);
    RunsFirstByte(OpenFile, s);
    RunsFirstByte(SearchText, s);
    RunsIffPrefix(Write, s);
    RunsIffPrefix(Quit, s);
    RunsIffPrefix(OpenFile, s);
    RunsIffPrefix(SearchText, s);
  }

  /** Aliases are never consulted: "w", "f", "q" and "o" typed alone run nothing. */
  lemma AliasesRunNothing(c: Typeable, a: seq<u8>)
    requires a in Aliases(c)
    ensures RunsFor(a, TYPEABLE) == []
  {
    RunsForTable(a);
    RunsIffPrefix(Write, a);
    RunsIffPrefix(Quit, a);
    RunsIffPrefix(OpenFile, a);
    RunsIffPrefix(SearchText, a);
  }

  /** A longer word that starts with a name still runs that entry: "quitter" quits. */
  lemma LongerWordRuns()
    ensures RunsFor([113, 117, 105, 116, 116, 101, 114], TYPEABLE) == [Quit]
  {
    var s: seq<u8> := [113, 117, 105, 116, 116, 101, 114];
    RunsForTable(s);
    RunsFirstByte(Write, s);
    RunsFirstByte(OpenFile, s);
    RunsFirstByte(SearchText, s);
    RunsIffPrefix(Quit, s);
    assert Name(Quit) == s[..4];
  }

  /** The loop of `exit_command_mode` over the table: every entry is compared, none stops the loop. */
  method RunCommands(s: seq<u8>, table: seq<Typeable>) returns (run: seq<Typeable>)
    ensures run == RunsFor(s, table)
  {
    run := [];
    var i := 0;
    while i < |table|
      invariant 0 <= i <= |table|
      invariant run == RunsFor(s, table[..i])
    {
      var command := table[i];
      var equal := Strncmp(Name(command), s, |Name(command)|);
      assert table[..i + 1][..i] == table[..i];
      if equal {
        run := run + [command];
      }
      i := i + 1;
    }
    assert table[..i] == table;
  }

  /**
   * `command_mode`: the command view takes the keyboard, its buffer is
   * emptied and its cursor goes to offset 0; its keymap is left as it is.
   */
  method CommandMode(cmdBuf: TextBuffer, cmdView: View) returns (focus: Focus, r: View)
    requires cmdBuf.ValidGap()
    modifies cmdBuf`gapStart, cmdBuf`gapEnd, cmdBuf`lineBases
    ensures cmdBuf.Valid() && cmdBuf.Text() == [] && focus == CommandView
    ensures Settled(cmdBuf.Text(), r.cursor)
    ensures r == cmdView.(cursor := Cursor(0, 0, 0))
  {
    focus := CommandView;
    cmdBuf.BufferClear();
    var c := cmdBuf.GetCursorFromPos(0);
    r := cmdView.(cursor := c);
    assert cmdBuf.Text()[..0] == [];
  }

  /**
   * `exit_command_mode`: the main view takes the keyboard back in normal
   * mode; the command text is split on spaces and, unless it is empty, every
   * entry whose name starts the text runs with the remaining tokens as its
   * arguments. The entries to run are returned in order.
   */
  method ExitCommandMode(cmdBuf: TextBuffer, main: View) returns (focus: Focus, r: View, run: seq<Typeable>, args: seq<seq<u8>>)
    requires cmdBuf.ValidGap()
    ensures focus == MainView && r == NormalMode(main)
    ensures cmdBuf.Text() == [] ==> run == []
    ensures cmdBuf.Text() != [] ==> run == RunsFor(cmdBuf.Text(), TYPEABLE)
    ensures cmdBuf.Text() != [] ==> args == Strings.Split(cmdBuf.Text())[1..]
  {
    focus := MainView;
    r := NormalMode(main);
    run, args := [], [];
    var s := cmdBuf.BufferText();
    var tokens := Strings.SplitLoop(s);
    Strings.SplitJoin(s);
    if |tokens| == 0 {
      return;
    }
    args := tokens[1..];
    run := RunCommands(s, TYPEABLE);
  }
}
