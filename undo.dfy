/**
 * The undo history (`UndoManager` in Markdown.Editor.js): a sparse stack of
 * text-area snapshots, a pointer into it, the current editing mode and a
 * snapshot held back while the caret is moving.
 *
 * A snapshot the editor takes of the text area (`inputStateObj` or a fresh
 * `TextareaState`) is an explicit parameter `cur`; `restore()` becomes the
 * snapshot a method returns for the caller to write back.
 */
module UndoHistory {
  import opened Wrappers
  import opened Textarea

  /** The editing modes; `NoMode` is the editor's `"none"`. */
  datatype Mode = NoMode | Moving | Deleting | Newlines | Escape | Typing | Command | Paste

  /**
   * The history as a value. A slot missing from `stack` is one the editor
   * never wrote or set to `null`.
   */
  datatype History = History(stack: map<int, State>, ptr: int, mode: Mode, last: Option<State>)

  /**
   * The invariant the editor keeps: the pointer is at least 1 once the initial
   * state is saved, every slot below it holds a snapshot, and a slot above it
   * holds one only if the slot at the pointer does.
   */
  predicate Valid(h: History) {
    h.ptr >= 1 &&
    (forall i :: 0 <= i < h.ptr ==> i in h.stack) &&
    (h.ptr + 1 in h.stack ==> h.ptr in h.stack)
  }

  /** `canUndo`. */
  predicate CanUndo(h: History) {
    h.ptr > 1
  }

  /** `canRedo`: the slot after the pointer holds a snapshot. */
  predicate CanRedo(h: History) {
    h.ptr + 1 in h.stack
  }

  /**
   * `saveState`: while moving, the first snapshot is held back; otherwise a
   * held-back snapshot is pushed first if its text differs from the one below
   * the pointer, then the current one is pushed and the slot after the new
   * pointer is cleared.
   */
  function Save(h: History, cur: State): (r: History)
    requires Valid(h)
    ensures Valid(r) && r.mode == h.mode
    ensures h.mode == Moving ==> r.stack == h.stack && r.ptr == h.ptr && r.last == (if h.last.Some? then h.last else Some(cur))
    ensures h.mode != Moving ==> r.last == None && r.stack[r.ptr - 1] == cur && !CanRedo(r)
    ensures h.mode != Moving ==> r.ptr == h.ptr + 1 + (if h.last.Some? && h.stack[h.ptr - 1].text != h.last.value.text then 1 else 0)
    ensures h.mode != Moving && r.ptr == h.ptr + 2 ==> r.stack[h.ptr] == h.last.value
    ensures forall i :: 0 <= i < h.ptr ==> r.stack[i] == h.stack[i]
  {
    if h.mode == Moving then
      if h.last.None? then h.(last := Some(cur)) else h
    else
      var pushLast := h.last.Some? && h.stack[h.ptr - 1].text != h.last.value.text;
      var stack := if pushLast then h.stack[h.ptr := h.last.value] else h.stack;
      var ptr := if pushLast then h.ptr + 1 else h.ptr;
      History(stack[ptr := cur] - {ptr + 2}, ptr + 1, h.mode, None)
  }

  /** The history after `init`: the initial snapshot saved into an empty stack. */
  function Initial(initial: State): (h: History)
    ensures Valid(h) && h.ptr == 1 && h.stack[0] == initial && !CanUndo(h) && !CanRedo(h)
  {
    History(map[0 := initial], 1, NoMode, None)
  }

  /** `setMode(m, noSave)`: a change of mode saves (unless `noSave`); the same mode again does nothing. */
  function AfterSetMode(h: History, m: Mode, noSave: bool, cur: State): (r: History)
    requires Valid(h)
    ensures Valid(r) && r.mode == m
    ensures h.mode == m ==> r == h
    ensures h.mode != m && !noSave ==> r == Save(h.(mode := m), cur)
  {
    if h.mode == m then h
    else if noSave then h.(mode := m)
    else Save(h.(mode := m), cur)
  }

  /** `setCommandMode`: always saves, in command mode. */
  function AfterSetCommandMode(h: History, cur: State): (r: History)
    requires Valid(h)
    ensures Valid(r) && r.mode == Command
    ensures r.ptr > h.ptr && r.stack[r.ptr - 1] == cur && !CanRedo(r) && r.last == None
  {
    Save(h.(mode := Command), cur)
  }

  /**
   * The history after `undo`: a held-back snapshot is dropped (it is what is
   * restored); otherwise the current snapshot is stored at the pointer and the
   * pointer steps back. The mode becomes `"none"` either way.
   */
  function Undone(h: History, cur: State): (r: History)
    requires Valid(h)
    ensures Valid(r) && r.mode == NoMode && r.last == (if CanUndo(h) then None else h.last)
    ensures CanUndo(h) && h.last.None? ==> r.ptr == h.ptr - 1 && CanRedo(r) && r.stack[h.ptr] == cur
    ensures !(CanUndo(h) && h.last.None?) ==> r.ptr == h.ptr && r.stack == h.stack
  {
    if !CanUndo(h) then h.(mode := NoMode)
    else if h.last.Some? then h.(last := None, mode := NoMode)
    else h.(stack := h.stack[h.ptr := cur], ptr := h.ptr - 1, mode := NoMode)
  }

  /** The snapshot `undo` restores, if any. */
  function UndoRestored(h: History): (r: Option<State>)
    requires Valid(h)
    ensures r.Some? <==> CanUndo(h)
  {
    if !CanUndo(h) then None
    else if h.last.Some? then h.last
    else Some(h.stack[h.ptr - 1])
  }

  /** The history after `redo`: the pointer steps forward if the next slot holds a snapshot. */
  function Redone(h: History): (r: History)
    requires Valid(h)
    ensures Valid(r) && r.mode == NoMode && r.stack == h.stack && r.last == h.last
    ensures r.ptr == if CanRedo(h) then h.ptr + 1 else h.ptr
  {
    if CanRedo(h) then h.(ptr := h.ptr + 1, mode := NoMode) else h.(mode := NoMode)
  }

  /** The snapshot `redo` restores, if any. */
  function RedoRestored(h: History): (r: Option<State>)
    ensures r.Some? <==> CanRedo(h)
  {
    if CanRedo(h) then Some(h.stack[h.ptr + 1]) else None
  }

  /** The mode a key press selects (`handleModeChange`), or none when the mode is left alone. */
  function ModeForKey(keyCode: int, ctrlOrMeta: bool): (r: Option<Mode>)
    ensures r.Some? ==> r.value in {Moving, Deleting, Newlines, Escape, Typing}
    ensures r == Some(Moving) <==> !ctrlOrMeta && (33 <= keyCode <= 40 || 63232 <= keyCode <= 63235)
    ensures r == Some(Deleting) <==> !ctrlOrMeta && keyCode in {8, 46, 127}
    ensures r == Some(Newlines) <==> !ctrlOrMeta && keyCode == 13
    ensures r == Some(Escape) <==> !ctrlOrMeta && keyCode == 27
    ensures r == Some(Typing) <==>
              !ctrlOrMeta && !(33 <= keyCode <= 40 || 63232 <= keyCode <= 63235) &&
              keyCode !in {8, 13, 27, 46, 91, 127} && !(16 <= keyCode <= 20)
  {
    if ctrlOrMeta then None
    else if (33 <= keyCode <= 40) || (63232 <= keyCode <= 63235) then Some(Moving)
    else if keyCode == 8 || keyCode == 46 || keyCode == 127 then Some(Deleting)
    else if keyCode == 13 then Some(Newlines)
    else if keyCode == 27 then Some(Escape)
    else if (keyCode < 16 || keyCode > 20) && keyCode != 91 then Some(Typing)
    else None
  }

  /** What `handleCtrlYZ` does with a key press. */
  datatype HistoryCommand = UndoCommand | RedoCommand

  /**
   * `handleCtrlYZ`: with Ctrl or Meta and without Alt, `y` redoes, `z` undoes
   * and Shift+`z` redoes; the key is compared case-insensitively.
   */
  function CommandForKey(keyCode: int, ctrlOrMeta: bool, alt: bool, shift: bool): (r: Option<HistoryCommand>)
    ensures r.Some? ==> ctrlOrMeta && !alt && keyCode in {89, 90, 121, 122}
    ensures r == Some(UndoCommand) <==> ctrlOrMeta && !alt && keyCode in {90, 122} && !shift
    ensures r == Some(RedoCommand) <==> ctrlOrMeta && !alt && (keyCode in {89, 121} || (keyCode in {90, 122} && shift))
  {
    if !ctrlOrMeta || alt then None
    else if keyCode == 89 || keyCode == 121 then Some(RedoCommand)
    else if keyCode == 90 || keyCode == 122 then Some(if shift then RedoCommand else UndoCommand)
    else None
  }

  // ---------------------------------------------------------------------
  // Properties
  // ---------------------------------------------------------------------

  /** A key press changes the mode exactly when no modifier is held and the key is not Shift, Ctrl, Alt, Pause, Caps Lock (16-20) or the Windows key (91). */
  lemma ModeForKeyNone(keyCode: int, ctrlOrMeta: bool)
    ensures ModeForKey(keyCode, ctrlOrMeta).None? <==> ctrlOrMeta || 16 <= keyCode <= 20 || keyCode == 91
  {
  }

  /** Repeating a mode (a burst of typing, say) saves only at its first key. */
  lemma SetModeOncePerBurst(h: History, m: Mode, c1: State, c2: State)
    requires Valid(h)
    ensures AfterSetMode(AfterSetMode(h, m, false, c1), m, false, c2) == AfterSetMode(h, m, false, c1)
  {
  }

  /** While the caret moves, only the first snapshot is held back; later ones are ignored. */
  lemma MovingHoldsFirstSnapshot(h: History, a: State, b: State)
    requires Valid(h) && h.mode == Moving && h.last.None?
    ensures Save(Save(h, a), b) == h.(last := Some(a))
  {
  }

  /** Undo restores the snapshot taken by the last save. */
  lemma UndoAfterSave(h: History, before: State, now: State)
    requires Valid(h) && h.mode != Moving && h.last.None?
    ensures var s := Save(h, before);
            UndoRestored(s) == Some(before) && Undone(s, now).ptr == h.ptr
  {
  }

  /** Redo after undo restores the snapshot undo stored and brings the pointer back. */
  lemma RedoAfterUndo(h: History, cur: State)
    requires Valid(h) && CanUndo(h) && h.last.None?
    ensures var u := Undone(h, cur);
            RedoRestored(u) == Some(cur) && Redone(u).ptr == h.ptr &&
            Redone(u).stack == h.stack[h.ptr := cur]
  {
  }

  // ---------------------------------------------------------------------
  // Runs of commands, undos and redos
  // ---------------------------------------------------------------------

  /** The history after one command per snapshot of `cs`, each saved by `setCommandMode` before it runs. */
  function Saves(h: History, cs: seq<State>): (r: History)
    requires Valid(h)
    ensures Valid(r)
    decreases |cs|
  {
    if cs == [] then h else Saves(AfterSetCommandMode(h, cs[0]), cs[1..])
  }

  /**
   * `n` presses of undo in a row, starting with `cur` in the text area; each
   * press finds in the text area the snapshot the one before wrote back. The
   * second component lists the snapshots written back, in order.
   */
  function Undos(h: History, cur: State, n: nat): (r: (History, seq<State>))
    requires Valid(h)
    ensures Valid(r.0)
    decreases n
  {
    if n == 0 then (h, [])
    else
      match UndoRestored(h)
      case Some(s) => var t := Undos(Undone(h, cur), s, n - 1); (t.0, [s] + t.1)
      case None => Undos(Undone(h, cur), cur, n - 1)
  }

  /** `n` presses of redo in a row, with the snapshots written back, in order. */
  function Redos(h: History, n: nat): (r: (History, seq<State>))
    requires Valid(h)
    ensures Valid(r.0)
    decreases n
  {
    if n == 0 then (h, [])
    else
      match RedoRestored(h)
      case Some(s) => var t := Redos(Redone(h), n - 1); (t.0, [s] + t.1)
      case None => Redos(Redone(h), n - 1)
  }

  /** Commands push their snapshots one above the other, above what was below the pointer. */
  lemma {:induction false} SavesPush(h: History, cs: seq<State>)
    requires Valid(h) && h.last.None?
    ensures var r := Saves(h, cs);
            r.ptr == h.ptr + |cs| && r.last.None? &&
            (forall i | 0 <= i < h.ptr :: r.stack[i] == h.stack[i]) &&
            (forall i | h.ptr <= i < h.ptr + |cs| :: i in r.stack && r.stack[i] == cs[i - h.ptr]) &&
            (cs != [] ==> !CanRedo(r))
    decreases |cs|
  {
    if cs != [] {
      var h1 := AfterSetCommandMode(h, cs[0]);
      SavesPush(h1, cs[1..]);
      var r := Saves(h, cs);
      assert r == Saves(h1, cs[1..]);
      forall i | h.ptr <= i < h.ptr + |cs|
        ensures i in r.stack && r.stack[i] == cs[i - h.ptr]
      {
        if i > h.ptr {
          assert cs[1..][i - h.ptr - 1] == cs[i - h.ptr];
        }
      }
    }
  }

  /**
   * Undoing all the way down from a pointer `p` writes back the snapshots
   * below it from the top down and leaves the pointer at 1; the only slot
   * that changes is `p`, which now holds what was in the text area.
   */
  lemma {:induction false} UndosToBottom(h: History, cur: State)
    requires Valid(h) && h.last.None?
    ensures var u := Undos(h, cur, h.ptr - 1);
            u.0.ptr == 1 && !CanUndo(u.0) && u.0.last.None? &&
            u.0.stack == (if h.ptr == 1 then h.stack else h.stack[h.ptr := cur]) &&
            |u.1| == h.ptr - 1 && forall k | 0 <= k < h.ptr - 1 :: u.1[k] == h.stack[h.ptr - 1 - k]
    decreases h.ptr
  {
    if h.ptr > 1 {
      var s := h.stack[h.ptr - 1];
      var h1 := Undone(h, cur);
      assert UndoRestored(h) == Some(s);
      UndosToBottom(h1, s);
      var t := Undos(h1, s, h.ptr - 2);
      assert Undos(h, cur, h.ptr - 1) == (t.0, [s] + t.1);
      if h.ptr > 2 {
        assert h1.stack[h1.ptr := s] == h.stack[h.ptr := cur];
      }
    }
  }

  /** Redoing `n` times over `n` filled slots above the pointer writes them back from the bottom up. */
  lemma {:induction false} RedosUp(h: History, n: nat)
    requires Valid(h)
    requires (forall i | h.ptr < i <= h.ptr + n :: i in h.stack) && h.ptr + n + 1 !in h.stack
    ensures var d := Redos(h, n);
            d.0.ptr == h.ptr + n && d.0.stack == h.stack && !CanRedo(d.0) &&
            |d.1| == n && forall k | 0 <= k < n :: d.1[k] == h.stack[h.ptr + 1 + k]
    decreases n
  {
    if n > 0 {
      var h1 := Redone(h);
      RedosUp(h1, n - 1);
      var t := Redos(h1, n - 1);
      assert Redos(h, n) == (t.0, [h.stack[h.ptr + 1]] + t.1);
    }
  }

  /**
   * After commands saved `cs` over the initial snapshot `s0` and left `now`
   * in the text area, undoing once per command writes back the saved
   * snapshots newest first and then cannot undo further; redoing as many
   * times writes back the later snapshots and finally `now`, oldest first,
   * returns the pointer to where it was and then cannot redo further.
   */
  lemma UndoRedoRoundTrip(s0: State, cs: seq<State>, now: State)
    ensures var h := Saves(Initial(s0), cs);
            var u := Undos(h, now, |cs|);
            var d := Redos(u.0, |cs|);
            h.ptr == |cs| + 1 && !CanUndo(u.0) && u.1 == Reversed(cs) &&
            !CanRedo(d.0) && d.0.ptr == h.ptr && d.1 == (if cs == [] then [] else cs[1..] + [now])
  {
    var h := Saves(Initial(s0), cs);
    InitialSaves(s0, cs);
    UndoTrail(h, cs, now);
    if cs != [] {
      var u := Undos(h, now, |cs|);
      RedoTrail(u.0, cs, now);
    }
  }

  /** Commands from the initial history hold their snapshots in slots 1 up to the pointer. */
  lemma InitialSaves(s0: State, cs: seq<State>)
    ensures var h := Saves(Initial(s0), cs);
            h.last.None? && h.ptr == |cs| + 1 && (cs != [] ==> !CanRedo(h)) &&
            forall i | 1 <= i <= |cs| :: i in h.stack && h.stack[i] == cs[i - 1]
  {
    SavesPush(Initial(s0), cs);
  }

  /**
   * The undo half of `UndoRedoRoundTrip`, over a history holding `cs` above
   * slot 0: the snapshots come back newest first, and the slots above the
   * bottom then hold `cs` followed by `now`.
   */
  lemma UndoTrail(h: History, cs: seq<State>, now: State)
    requires Valid(h) && h.last.None? && h.ptr == |cs| + 1 && (cs != [] ==> !CanRedo(h))
    requires forall i | 1 <= i <= |cs| :: i in h.stack && h.stack[i] == cs[i - 1]
    ensures var u := Undos(h, now, |cs|);
            !CanUndo(u.0) && u.1 == Reversed(cs) && u.0.ptr == 1 &&
            (forall i | 1 <= i <= |cs| :: i in u.0.stack && u.0.stack[i] == cs[i - 1]) &&
            (cs != [] ==> |cs| + 1 in u.0.stack && u.0.stack[|cs| + 1] == now && |cs| + 2 !in u.0.stack)
  {
    UndosToBottom(h, now);
    var u := Undos(h, now, |cs|);
    TrailReversed(h, cs, u.1);
    if cs != [] {
      StoredAbove(h.stack, h.ptr, now, cs);
    }
  }

  /** Snapshots read from the top of `cs`'s slots down are `cs` reversed. */
  lemma TrailReversed(h: History, cs: seq<State>, trail: seq<State>)
    requires h.ptr == |cs| + 1 && forall i | 1 <= i <= |cs| :: i in h.stack && h.stack[i] == cs[i - 1]
    requires |trail| == |cs| && forall k | 0 <= k < |cs| :: trail[k] == h.stack[h.ptr - 1 - k]
    ensures trail == Reversed(cs)
  {
    ReversedAt(cs);
    forall k | 0 <= k < |cs|
      ensures trail[k] == Reversed(cs)[k]
    {
      assert h.stack[|cs| - k] == cs[|cs| - 1 - k];
    }
  }

  /** Storing `now` at the pointer keeps the slots of `cs` below it. */
  lemma StoredAbove(m: map<int, State>, p: int, now: State, cs: seq<State>)
    requires p == |cs| + 1 && p + 1 !in m
    requires forall i | 1 <= i <= |cs| :: i in m && m[i] == cs[i - 1]
    ensures var m' := m[p := now];
            (forall i | 1 <= i <= |cs| :: i in m' && m'[i] == cs[i - 1]) &&
            p in m' && m'[p] == now && p + 1 !in m'
  {
  }

  /** The redo half of `UndoRedoRoundTrip`: from the bottom, the slots holding `cs` and `now` come back oldest first. */
  lemma RedoTrail(h: History, cs: seq<State>, now: State)
    requires Valid(h) && h.ptr == 1 && cs != []
    requires forall i | 1 <= i <= |cs| :: i in h.stack && h.stack[i] == cs[i - 1]
    requires |cs| + 1 in h.stack && h.stack[|cs| + 1] == now && |cs| + 2 !in h.stack
    ensures var d := Redos(h, |cs|);
            !CanRedo(d.0) && d.0.ptr == |cs| + 1 && d.1 == cs[1..] + [now]
  {
    RedosUp(h, |cs|);
    var d := Redos(h, |cs|);
    var later := cs[1..] + [now];
    forall k | 0 <= k < |cs|
      ensures d.1[k] == later[k]
    {
      if k + 1 < |cs| {
        assert h.stack[k + 2] == cs[k + 1];
      }
    }
  }

  /** The snapshots of `s`, last first. */
  function Reversed(s: seq<State>): seq<State> {
    if s == [] then [] else Reversed(s[1..]) + [s[0]]
  }

  /** Entry `k` of `Reversed(s)` is entry `|s| - 1 - k` of `s`. */
  lemma {:induction false} ReversedAt(s: seq<State>)
    ensures |Reversed(s)| == |s| && forall k | 0 <= k < |s| :: Reversed(s)[k] == s[|s| - 1 - k]
    decreases |s|
  {
    if s != [] {
      ReversedAt(s[1..]);
    }
  }

  // ---------------------------------------------------------------------
  // The undo manager object
  // ---------------------------------------------------------------------

  class UndoManager {
    var stack: map<int, State>
    var ptr: int
    var mode: Mode
    var last: Option<State>

    function Value(): History
      reads this
    {
      History(stack, ptr, mode, last)
    }

    /** `init`: the initial snapshot is saved. */
    constructor (initial: State)
      ensures Value() == Initial(initial)
    {
      stack, ptr, mode, last := map[], 0, NoMode, None;
      new;
      stack := stack[ptr := initial];
      ptr := ptr + 1;
      stack := stack - {ptr + 1};
    }

    /** `canUndo`: `undo` would restore a snapshot. */
    function CanUndo(): (b: bool)
      reads this
      requires Valid(Value())
      ensures b <==> UndoRestored(Value()).Some?
    {
      ptr > 1
    }

    /** `canRedo`: `redo` would restore a snapshot and move the pointer forward. */
    function CanRedo(): (b: bool)
      reads this
      requires Valid(Value())
      ensures b <==> RedoRestored(Value()).Some?
      ensures b <==> Redone(Value()).ptr == ptr + 1
    {
      ptr + 1 in stack
    }

    method SaveState(cur: State)
      requires Valid(Value())
      modifies this
      ensures Value() == Save(old(Value()), cur)
    {
      if mode == Moving {
        if last.None? {
          last := Some(cur);
        }
        return;
      }
      if last.Some? {
        if stack[ptr - 1].text != last.value.text {
          stack := stack[ptr := last.value];
          ptr := ptr + 1;
        }
        last := None;
      }
      stack := stack[ptr := cur];
      ptr := ptr + 1;
      stack := stack - {ptr + 1};
    }

    method SetMode(m: Mode, noSave: bool, cur: State)
      requires Valid(Value())
      modifies this
      ensures Value() == AfterSetMode(old(Value()), m, noSave, cur)
    {
      if mode != m {
        mode := m;
        if !noSave {
          SaveState(cur);
        }
      }
    }

    method SetCommandMode(cur: State)
      requires Valid(Value())
      modifies this
      ensures Value() == AfterSetCommandMode(old(Value()), cur)
    {
      mode := Command;
      SaveState(cur);
    }

    /** `handleModeChange`: the mode the key selects is set, saving on a change. */
    method HandleModeChange(keyCode: int, ctrlOrMeta: bool, cur: State)
      requires Valid(Value())
      modifies this
      ensures Value() == match ModeForKey(keyCode, ctrlOrMeta)
                         case Some(m) => AfterSetMode(old(Value()), m, false, cur)
                         case None => old(Value())
    {
      var m := ModeForKey(keyCode, ctrlOrMeta);
      if m.Some? {
        SetMode(m.value, false, cur);
      }
    }

    /** `handlePaste`, once the editor's checks for a pending refresh have passed. */
    method HandlePaste(cur: State)
      requires Valid(Value())
      modifies this
      ensures Value() == Save(old(Value()).(mode := Paste), cur)
    {
      mode := Paste;
      SaveState(cur);
    }

    /** `undo`: returns the snapshot to write back into the text area, if any. */
    method Undo(cur: State) returns (restored: Option<State>)
      requires Valid(Value())
      modifies this
      ensures Value() == Undone(old(Value()), cur) && restored == UndoRestored(old(Value()))
    {
      restored := None;
      if CanUndo() {
        if last.Some? {
          restored := last;
          last := None;
        } else {
          stack := stack[ptr := cur];
          ptr := ptr - 1;
          restored := Some(stack[ptr]);
        }
      }
      mode := NoMode;
    }

    /** `redo`: returns the snapshot to write back into the text area, if any. */
    method Redo() returns (restored: Option<State>)
      requires Valid(Value())
      modifies this
      ensures Value() == Redone(old(Value())) && restored == RedoRestored(old(Value()))
    {
      restored := None;
      if CanRedo() {
        ptr := ptr + 1;
        restored := Some(stack[ptr]);
      }
      mode := NoMode;
    }
  }
}
