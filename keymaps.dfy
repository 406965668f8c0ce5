/**
 * Key bindings (codex.h lines 172-213), the five global keymap tables built
 * at start-up (win32_codex.cpp lines 274-331), the dispatch walk
 * `execute_command` (codex.cpp lines 971-983) and the key-event glue of the
 * window procedure (win32_codex.cpp lines 204-213).
 */
module Keymaps {
  import opened Bytes

  /** Modifier bits and table size of codex.h. */
  const CTRL: int := 256
  const ALT: int := 512
  const SHIFT: int := 1024
  const MAX_KEY_COUNT: int := 2048

  /** The commands a binding can name (the `COMMAND_SIG` procedures of codex.cpp). */
  datatype CommandName =
    | Undefined | QuitCodex
    | NormalMode | InsertMode | SelectMode | CommandMode
    | ExtendLine | ExtendLineBelow | ExchangeSelectionMark
    | Open | WriteBuffer
    | SelfInsert | InsertNewline | InsertTab | InsertAtLineStart | InsertAtLineEnd
    | OpenLineAbove | OpenLine | DeleteCharBackward
    | GotoFileStart | GotoFileEnd | GotoLineEnd | GotoLineStart
    | MoveCharLeft | MoveCharRight | MoveNextWordEnd | MoveLineUp | MoveLineDown
    | MoveParagraphUp | MoveParagraphDown | PageUp | PageDown
    | DeleteSelection | Search | ExitCommandMode

  /** The five global keymaps; a `Keymap *` in the source only ever points at one of them. */
  datatype KeymapId = NormalMap | InsertMap | SelectMap | GotoMap | CommandMap

  /**
   * A `KeyBind`. Its kind enumeration starts at 1, so a zero-initialised entry
   * is neither a command nor a map, and its `map` pointer is null: `Unbound`.
   */
  datatype KeyBind = Unbound | Command(proc: CommandName) | Map(target: KeymapId)

  datatype Option<T> = None | Some(value: T)

  /**
   * The key code the window procedure enqueues: `(ctrl ? CTRL : 0) | (alt ? ALT : 0) | c`.
   * Every byte under every modifier combination is a valid table index, and the
   * code keeps the byte and both modifiers apart.
   */
  function EncodeKey(ctrl: bool, alt: bool, c: u8): (key: int)
    ensures 0 <= key < MAX_KEY_COUNT
    ensures key % 256 == c as int
    ensures (key / CTRL) % 2 == 1 <==> ctrl
    ensures (key / ALT) % 2 == 1 <==> alt
    ensures key / SHIFT == 0
  {
    var key := BitOr(BitOr(if ctrl then CTRL else 0, if alt then ALT else 0), c as int);
    OrOfFields(ctrl, alt, c);
    KeyFields((if ctrl then 1 else 0) + (if alt then 2 else 0), c as int);
    key
  }

  /** The two modifier bits and the byte do not overlap, so or-ing them adds them. */
  lemma OrOfFields(ctrl: bool, alt: bool, c: u8)
    ensures BitOr(BitOr(if ctrl then CTRL else 0, if alt then ALT else 0), c as int)
      == ((if ctrl then 1 else 0) + (if alt then 2 else 0)) * 256 + c as int
  {
    assert Pow2(8) == 256;
    if ctrl && alt {
      assert Pow2(9) == 512;
      BitOrCommutes(CTRL, ALT);
      BitOrDisjoint(1, CTRL, 9);
      BitOrDisjoint(3, c as int, 8);
    } else if ctrl {
      BitOrDisjoint(1, c as int, 8);
    } else if alt {
      BitOrDisjoint(2, c as int, 8);
    }
  }

  /** A code built as `m * 256 + c` gives back its byte and its modifier bits. */
  lemma KeyFields(m: int, c: int)
    requires 0 <= m < 4 && 0 <= c < 256
    ensures 0 <= m * 256 + c < MAX_KEY_COUNT
    ensures (m * 256 + c) % 256 == c && (m * 256 + c) / 256 == m
    ensures (m * 256 + c) / 512 == m / 2 && (m * 256 + c) / 1024 == 0
  {
  }

  /** Bitwise or of two naturals, one bit at a time from the least significant. */
  function BitOr(a: nat, b: nat): nat
    decreases a + b
  {
    if a == 0 then b
    else if b == 0 then a
    else 2 * BitOr(a / 2, b / 2) + (if a % 2 == 1 || b % 2 == 1 then 1 else 0)
  }

  function Pow2(k: nat): nat
  {
    if k == 0 then 1 else 2 * Pow2(k - 1)
  }

  lemma {:induction false} BitOrCommutes(a: nat, b: nat)
    ensures BitOr(a, b) == BitOr(b, a)
    decreases a + b
  {
    if a != 0 && b != 0 {
      BitOrCommutes(a / 2, b / 2);
    }
  }

  /** Or-ing a multiple of 2^k with a number below 2^k adds them: their bits do not overlap. */
  lemma {:induction false} BitOrDisjoint(m: nat, b: nat, k: nat)
    requires b < Pow2(k)
    ensures BitOr(m * Pow2(k), b) == m * Pow2(k) + b
    decreases k
  {
    var a := m * Pow2(k);
    if a != 0 && b != 0 {
      var p := Pow2(k - 1);
      assert a == 2 * (m * p);
      assert a / 2 == m * p && a % 2 == 0;
      BitOrDisjoint(m, b / 2, k - 1);
    }
  }

  /** One keymap: `bindings[max_key_count]` of codex.h. */
  class Keymap {
    var bindings: array<KeyBind>

    /** A zero-initialised global: every entry `Unbound`. */
    constructor ()
      ensures fresh(bindings) && bindings.Length == MAX_KEY_COUNT
      ensures forall k :: 0 <= k < MAX_KEY_COUNT ==> bindings[k] == Unbound
    {
      bindings := new KeyBind[MAX_KEY_COUNT](_ => Unbound);
    }

    /** `bind(key, command)`: entry `key` becomes a command binding; no other entry changes. */
    method BindCommand(key: int, proc: CommandName)
      requires 0 <= key < bindings.Length
      modifies bindings
      ensures bindings[..] == old(bindings[..])[key := Command(proc)]
    {
      bindings[key] := Command(proc);
    }

    /** `bind(key, map)`: entry `key` becomes a submap binding; no other entry changes. */
    method BindMap(key: int, target: KeymapId)
      requires 0 <= key < bindings.Length
      modifies bindings
      ensures bindings[..] == old(bindings[..])[key := Map(target)]
    {
      bindings[key] := Map(target);
    }

    /** The struct assignment `a = b` between two keymaps: every entry is copied. */
    method CopyFrom(other: Keymap)
      requires other.bindings != bindings && other.bindings.Length == bindings.Length
      modifies bindings
      ensures bindings[..] == other.bindings[..]
    {
      var i := 0;
      while i < bindings.Length
        invariant 0 <= i <= bindings.Length
        invariant forall k :: 0 <= k < i ==> bindings[k] == other.bindings[k]
      {
        bindings[i] := other.bindings[i];
        i := i + 1;
      }
    }

    /** The loop `for (i = 0; i < max_key_count; i++) bind(i, undefined)`. */
    method BindAllUndefined()
      modifies bindings
      ensures bindings[..] == seq(bindings.Length, _ => Command(Undefined))
    {
      var i := 0;
      while i < bindings.Length
        invariant 0 <= i <= bindings.Length
        invariant forall k :: 0 <= k < i ==> bindings[k] == Command(Undefined)
      {
        BindCommand(i, Undefined);
        i := i + 1;
      }
    }
  }

  /** A snapshot of the five tables' entries. */
  datatype Tables = Tables(normalKeys: seq<KeyBind>, insertKeys: seq<KeyBind>, selectKeys: seq<KeyBind>,
                           gotoKeys: seq<KeyBind>, commandKeys: seq<KeyBind>)
  {
    function Get(id: KeymapId): seq<KeyBind>
    {
      match id
      case NormalMap => normalKeys
      case InsertMap => insertKeys
      case SelectMap => selectKeys
      case GotoMap => gotoKeys
      case CommandMap => commandKeys
    }

    ghost predicate WellFormed()
    {
      |normalKeys| == MAX_KEY_COUNT && |insertKeys| == MAX_KEY_COUNT && |selectKeys| == MAX_KEY_COUNT &&
      |gotoKeys| == MAX_KEY_COUNT && |commandKeys| == MAX_KEY_COUNT
    }
  }

  /** Key codes that index a table. */
  ghost predicate ValidKeys(keys: seq<int>)
  {
    forall i :: 0 <= i < |keys| ==> 0 <= keys[i] < MAX_KEY_COUNT
  }

  /** What a queue of keys comes to: a command, a discarded sequence, or a prefix still waiting for keys. */
  datatype Outcome = Invoked(proc: CommandName) | Dropped | Pending

  /**
   * The walk `execute_command` performs from keymap `km` (`None` is the null
   * pointer): a command binding ends it, a map binding descends, and an
   * unbound entry descends into the null map, so the sequence is dropped one
   * key later, not at once.
   */
  function Dispatch(t: Tables, km: Option<KeymapId>, keys: seq<int>): Outcome
    requires t.WellFormed() && ValidKeys(keys)
    decreases |keys|
  {
    if |keys| == 0 then Pending
    else if km.None? then Dropped
    else match t.Get(km.value)[keys[0]]
      case Command(p) => Invoked(p)
      case Map(m) => Dispatch(t, Some(m), keys[1..])
      case Unbound => Dispatch(t, None, keys[1..])
  }

  /** Once a queue is decided, more keys do not change the decision. */
  lemma {:induction false} DispatchStable(t: Tables, km: Option<KeymapId>, keys: seq<int>, more: seq<int>)
    requires t.WellFormed() && ValidKeys(keys) && ValidKeys(more)
    requires Dispatch(t, km, keys) != Pending
    ensures ValidKeys(keys + more) && Dispatch(t, km, keys + more) == Dispatch(t, km, keys)
    decreases |keys|
  {
    assert ValidKeys(keys + more);
    if km.Some? {
      assert (keys + more)[0] == keys[0];
      assert (keys + more)[1..] == keys[1..] + more;
      match t.Get(km.value)[keys[0]]
      case Command(p) =>
      case Map(m) => DispatchStable(t, Some(m), keys[1..], more);
      case Unbound => DispatchStable(t, None, keys[1..], more);
    }
  }

  /** A queue is left waiting only when its first key opens a submap, or when it is one unbound key (the null map waits for one more). */
  lemma {:induction false} PendingWalk(t: Tables, km: KeymapId, keys: seq<int>)
    requires t.WellFormed() && ValidKeys(keys) && |keys| > 0
    requires Dispatch(t, Some(km), keys) == Pending
    ensures t.Get(km)[keys[0]].Map? || (t.Get(km)[keys[0]] == Unbound && |keys| == 1)
  {
    match t.Get(km)[keys[0]]
    case Command(p) =>
    case Map(m) =>
    case Unbound =>
  }

  /** A table whose every entry is bound to `undefined`. */
  function AllUndefined(): seq<KeyBind>
  {
    seq(MAX_KEY_COUNT, _ => Command(Undefined))
  }

  /** The normal table after start-up: every key `undefined`, then the bindings in start-up order. */
  function NormalTable(): seq<KeyBind>
  {
    AllUndefined()
      ['i' as int := Command(InsertMode)]
      ['a' as int := Command(CommandMode)]
      ['v' as int := Command(SelectMode)]
      ['h' as int := Command(MoveCharLeft)]
      ['j' as int := Command(MoveLineDown)]
      ['k' as int := Command(MoveLineUp)]
      ['l' as int := Command(MoveCharRight)]
      ['e' as int := Command(MoveNextWordEnd)]
      ['o' as int := Command(OpenLine)]
      ['O' as int := Command(OpenLineAbove)]
      ['g' as int := Map(GotoMap)]
      ['d' as int := Command(DeleteSelection)]
      ['X' as int := Command(ExtendLine)]
      ['x' as int := Command(ExtendLineBelow)]
      ['I' as int := Command(InsertAtLineStart)]
      ['A' as int := Command(InsertAtLineEnd)]
      [CTRL + 'b' as int := Command(PageUp)]
      [CTRL + 'f' as int := Command(PageDown)]
      [CTRL + 's' as int := Command(WriteBuffer)]
      ['{' as int := Command(MoveParagraphUp)]
      ['}' as int := Command(MoveParagraphDown)]
  }

  /** The insert table after its `isprint` loop: printable bytes below 255 insert themselves. */
  function PrintableTable(): seq<KeyBind>
  {
    seq(MAX_KEY_COUNT, k => if k < 255 && IsPrint(k) then Command(SelfInsert) else Command(Undefined))
  }

  /** The insert table after start-up. */
  function InsertTable(): seq<KeyBind>
  {
    PrintableTable()
      [TAB as int := Command(InsertTab)]
      [NL as int := Command(OpenLine)]
      [CR as int := Command(OpenLine)]
      [BS as int := Command(DeleteCharBackward)]
      [CTRL + SPACE as int := Command(NormalMode)]
  }

  /** The goto table: four bindings on a zero-initialised table. */
  function GotoTable(): seq<KeyBind>
  {
    seq(MAX_KEY_COUNT, _ => Unbound)
      ['g' as int := Command(GotoFileStart)]
      ['e' as int := Command(GotoFileEnd)]
      ['h' as int := Command(GotoLineStart)]
      ['l' as int := Command(GotoLineEnd)]
  }

  /** The select table: a copy of the normal table with 'v' and 'o' rebound. */
  function SelectTable(): seq<KeyBind>
  {
    NormalTable()['v' as int := Command(NormalMode)]['o' as int := Command(ExchangeSelectionMark)]
  }

  /** The command-line table: a copy of the insert table whose Enter keys run the typed command. */
  function CommandTable(): seq<KeyBind>
  {
    InsertTable()[NL as int := Command(ExitCommandMode)][CR as int := Command(ExitCommandMode)]
  }

  /** The tables as start-up leaves them. */
  function StartupTables(): (t: Tables)
    ensures t.WellFormed()
  {
    var t := Tables(NormalTable(), InsertTable(), SelectTable(), GotoTable(), CommandTable());
    t
  }

  /** Every key of the normal, insert, select and command tables is bound at the top level. */
  lemma TopLevelBound(id: KeymapId, key: int)
    requires id != GotoMap && 0 <= key < MAX_KEY_COUNT
    ensures StartupTables().Get(id)[key] != Unbound
    ensures id != NormalMap && id != SelectMap ==> StartupTables().Get(id)[key].Command?
  {
  }

  /** So a single key from those tables is always handled, except 'g', which waits for a second key. */
  lemma SingleKeyHandled(id: KeymapId, key: int)
    requires id != GotoMap && 0 <= key < MAX_KEY_COUNT
    ensures Dispatch(StartupTables(), Some(id), [key]) == Pending <==> (id == NormalMap || id == SelectMap) && key == 'g' as int
  {
    TopLevelBound(id, key);
  }

  /** "gg" runs `goto_file_start`. */
  lemma GotoFileStartKeys()
    ensures Dispatch(StartupTables(), Some(NormalMap), ['g' as int, 'g' as int]) == Invoked(GotoFileStart)
  {
  }

  /** 'g' followed by a key goto does not bind stays pending, and the next key discards the queue. */
  lemma GotoUnboundKey(key: int, next: int)
    requires 0 <= key < MAX_KEY_COUNT && 0 <= next < MAX_KEY_COUNT
    requires key !in {'g' as int, 'e' as int, 'h' as int, 'l' as int}
    ensures Dispatch(StartupTables(), Some(NormalMap), ['g' as int, key]) == Pending
    ensures Dispatch(StartupTables(), Some(NormalMap), ['g' as int, key, next]) == Dropped
  {
    var t := StartupTables();
    assert t.Get(NormalMap)['g' as int] == Map(GotoMap);
    assert t.Get(GotoMap)[key] == Unbound;
    assert ['g' as int, key][1..] == [key];
    assert [key][1..] == [];
    assert ['g' as int, key, next][1..] == [key, next];
    assert [key, next][1..] == [next];
    assert Dispatch(t, Some(GotoMap), [key]) == Dispatch(t, None, []) == Pending;
    assert Dispatch(t, Some(GotoMap), [key, next]) == Dispatch(t, None, [next]) == Dropped;
  }

  /** The five global tables. */
  class KeymapSet {
    var normal: Keymap
    var insert: Keymap
    var select: Keymap
    var goto_: Keymap
    var command: Keymap

    ghost predicate Valid()
      reads this, normal, insert, select, goto_, command
    {
      normal.bindings.Length == MAX_KEY_COUNT && insert.bindings.Length == MAX_KEY_COUNT &&
      select.bindings.Length == MAX_KEY_COUNT && goto_.bindings.Length == MAX_KEY_COUNT &&
      command.bindings.Length == MAX_KEY_COUNT &&
      normal.bindings != insert.bindings && normal.bindings != select.bindings &&
      normal.bindings != goto_.bindings && normal.bindings != command.bindings &&
      insert.bindings != select.bindings && insert.bindings != goto_.bindings &&
      insert.bindings != command.bindings && select.bindings != goto_.bindings &&
      select.bindings != command.bindings && goto_.bindings != command.bindings
    }

    /** The keymap a pointer to table `id` designates. */
    function Lookup(id: KeymapId): (k: Keymap)
      reads this
    {
      match id
      case NormalMap => normal
      case InsertMap => insert
      case SelectMap => select
      case GotoMap => goto_
      case CommandMap => command
    }

    /** The current entries of all five tables. */
    function Snapshot(): (t: Tables)
      reads this, normal, insert, select, goto_, command, normal.bindings, insert.bindings,
        select.bindings, goto_.bindings, command.bindings
      requires Valid()
      ensures t.WellFormed()
      ensures forall id: KeymapId :: t.Get(id) == Lookup(id).bindings[..]
    {
      var t := Tables(normal.bindings[..], insert.bindings[..], select.bindings[..], goto_.bindings[..], command.bindings[..]);
      t
    }

    /** Five zero-initialised globals. */
    constructor ()
      ensures Valid() && fresh(normal) && fresh(insert) && fresh(select) && fresh(goto_) && fresh(command)
      ensures fresh(normal.bindings) && fresh(insert.bindings) && fresh(select.bindings)
      ensures fresh(goto_.bindings) && fresh(command.bindings)
      ensures forall k :: 0 <= k < MAX_KEY_COUNT ==> normal.bindings[k] == Unbound && insert.bindings[k] == Unbound
      ensures forall k :: 0 <= k < MAX_KEY_COUNT ==> select.bindings[k] == Unbound && goto_.bindings[k] == Unbound
      ensures forall k :: 0 <= k < MAX_KEY_COUNT ==> command.bindings[k] == Unbound
    {
      normal := new Keymap();
      insert := new Keymap();
      select := new Keymap();
      goto_ := new Keymap();
      command := new Keymap();
    }

    /** The normal-table block of start-up (win32_codex.cpp lines 275-299). */
    method SetupNormal()
      requires Valid()
      modifies normal.bindings
      ensures normal.bindings[..] == NormalTable()
    {
      var m := normal;
      m.BindAllUndefined();
      m.BindCommand('i' as int, InsertMode);
      m.BindCommand('a' as int, CommandMode);
      m.BindCommand('v' as int, SelectMode);
      m.BindCommand('h' as int, MoveCharLeft);
      m.BindCommand('j' as int, MoveLineDown);
      m.BindCommand('k' as int, MoveLineUp);
      m.BindCommand('l' as int, MoveCharRight);
      m.BindCommand('e' as int, MoveNextWordEnd);
      m.BindCommand('o' as int, OpenLine);
      m.BindCommand('O' as int, OpenLineAbove);
      m.BindMap('g' as int, GotoMap);
      m.BindCommand('d' as int, DeleteSelection);
      m.BindCommand('X' as int, ExtendLine);
      m.BindCommand('x' as int, ExtendLineBelow);
      m.BindCommand('I' as int, InsertAtLineStart);
      m.BindCommand('A' as int, InsertAtLineEnd);
      m.BindCommand(CTRL + 'b' as int, PageUp);
      m.BindCommand(CTRL + 'f' as int, PageDown);
      m.BindCommand(CTRL + 's' as int, WriteBuffer);
      m.BindCommand('{' as int, MoveParagraphUp);
      m.BindCommand('}' as int, MoveParagraphDown);
    }

    /** The insert-table block of start-up (win32_codex.cpp lines 301-313). */
    method SetupInsert()
      requires Valid()
      modifies insert.bindings
      ensures insert.bindings[..] == InsertTable()
    {
      var m := insert;
      m.BindAllUndefined();
      var i := 0;
      while i < 255
        invariant 0 <= i <= 255
        invariant forall k :: 0 <= k < MAX_KEY_COUNT ==>
          m.bindings[k] == if k < i && IsPrint(k) then Command(SelfInsert) else Command(Undefined)
      {
        if IsPrint(i) {
          m.BindCommand(i, SelfInsert);
        }
        i := i + 1;
      }
      assert m.bindings[..] == PrintableTable();
      m.BindCommand(TAB as int, InsertTab);
      m.BindCommand(NL as int, OpenLine);
      m.BindCommand(CR as int, OpenLine);
      m.BindCommand(BS as int, DeleteCharBackward);
      m.BindCommand(CTRL + SPACE as int, NormalMode);
    }

    /** The goto block: four bindings on a table left zero-initialised. */
    method SetupGoto()
      requires Valid()
      requires forall k :: 0 <= k < MAX_KEY_COUNT ==> goto_.bindings[k] == Unbound
      modifies goto_.bindings
      ensures goto_.bindings[..] == GotoTable()
    {
      var m := goto_;
      m.BindCommand('g' as int, GotoFileStart);
      m.BindCommand('e' as int, GotoFileEnd);
      m.BindCommand('h' as int, GotoLineStart);
      m.BindCommand('l' as int, GotoLineEnd);
    }

    /** `select_keymap = normal_keymap` and its two rebindings. */
    method SetupSelect()
      requires Valid() && normal.bindings[..] == NormalTable()
      modifies select.bindings
      ensures select.bindings[..] == SelectTable()
    {
      var m := select;
      m.CopyFrom(normal);
      m.BindCommand('v' as int, NormalMode);
      m.BindCommand('o' as int, ExchangeSelectionMark);
    }

    /** `command_keymap = insert_keymap` and its two rebindings. */
    method SetupCommand()
      requires Valid() && insert.bindings[..] == InsertTable()
      modifies command.bindings
      ensures command.bindings[..] == CommandTable()
    {
      var m := command;
      m.CopyFrom(insert);
      m.BindCommand(NL as int, ExitCommandMode);
      m.BindCommand(CR as int, ExitCommandMode);
    }

    /** The whole keymap block of start-up, in the source's order, on freshly zeroed tables. */
    method Setup()
      requires Valid()
      requires forall k :: 0 <= k < MAX_KEY_COUNT ==> goto_.bindings[k] == Unbound
      modifies normal.bindings, insert.bindings, select.bindings, goto_.bindings, command.bindings
      ensures Snapshot() == StartupTables()
    {
      SetupNormal();
      SetupInsert();
      SetupGoto();
      SetupSelect();
      SetupCommand();
    }

    /** Start-up from the zeroed globals to the finished tables. */
    static method Startup() returns (ks: KeymapSet)
      ensures fresh(ks) && ks.Valid() && ks.Snapshot() == StartupTables()
    {
      ks := new KeymapSet();
      ks.Setup();
    }

    /**
     * `execute_command`: walks the queued keys from keymap `km`. It reports
     * handled (true) when a command binding is reached, whose command it
     * returns to be run, or when the walk has fallen into the null map with
     * keys left; it reports false when the keys run out first.
     */
    method ExecuteCommand(km: KeymapId, events: seq<int>) returns (handled: bool, invoked: Option<CommandName>)
      requires Valid() && ValidKeys(events)
      ensures handled <==> Dispatch(Snapshot(), Some(km), events) != Pending
      ensures invoked.Some? <==> Dispatch(Snapshot(), Some(km), events).Invoked?
      ensures invoked.Some? ==> Dispatch(Snapshot(), Some(km), events) == Invoked(invoked.value)
    {
      var cur: Option<KeymapId> := Some(km);
      var i := 0;
      while i < |events|
        invariant 0 <= i <= |events|
        invariant Dispatch(Snapshot(), cur, events[i..]) == Dispatch(Snapshot(), Some(km), events)
      {
        if cur.None? {
          return true, None;
        }
        var bind := Lookup(cur.value).bindings[events[i]];
        assert events[i..][1..] == events[i + 1..];
        if bind.Command? {
          return true, Some(bind.proc);
        }
        cur := if bind.Map? then Some(bind.target) else None;
        i := i + 1;
      }
      return false, None;
    }
  }

  /** The global `input_events` queue the window procedure feeds. */
  class InputQueue {
    var events: seq<int>

    constructor ()
      ensures events == []
    {
      events := [];
    }

    /**
     * A translated key press: the encoded key is pushed and the queue is
     * dispatched from `km`; the queue is cleared exactly when the dispatch
     * reports it handled. The command to run, if any, is returned.
     */
    method KeyDown(keymaps: KeymapSet, km: KeymapId, ctrl: bool, alt: bool, c: u8) returns (invoked: Option<CommandName>)
      requires keymaps.Valid() && ValidKeys(events)
      modifies this
      ensures ValidKeys(events)
      ensures var queue := old(events) + [EncodeKey(ctrl, alt, c)];
        var outcome := Dispatch(keymaps.Snapshot(), Some(km), queue);
        (events == if outcome == Pending then queue else []) &&
        (invoked.Some? <==> outcome.Invoked?) &&
        (invoked.Some? ==> outcome == Invoked(invoked.value))
    {
      var key := EncodeKey(ctrl, alt, c);
      events := events + [key];
      var handled;
      handled, invoked := keymaps.ExecuteCommand(km, events);
      if handled {
        events := [];
      }
    }
  }
}
