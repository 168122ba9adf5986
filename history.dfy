/** The composer's undo/redo history: a bounded undo stack, a redo stack
    and the current state, where saving a state equal in content to the
    current one is ignored
    (src/contest/text-editor/MessageInputController.tsx:199-268). */
module History {
  import opened Wrappers
  import opened TextModel

  /** A snapshot: the caret offset (absent when there was none) and the
      content. */
  datatype HistoryState = HistoryState(caretOffset: Option<nat>, formattedText: FormattedText)

  /** `CONFIG.HISTORY_MAX_STACK_SIZE`. */
  const HistoryMaxStackSize: nat := 100

  /** The three parts of the history as one value. */
  datatype Timeline = Timeline(undoStack: seq<HistoryState>, current: HistoryState, redoStack: seq<HistoryState>)

  /** The bound the manager keeps: the two stacks together never hold more
      than the maximum, so neither does the undo stack alone. */
  predicate Bounded(t: Timeline) {
    |t.undoStack| + |t.redoStack| <= HistoryMaxStackSize
  }

  /** Whether a new state differs in content from the current one, under
      the comparison as the source runs it (entity kind and range only);
      the caret offset is not compared. */
  predicate HasStateChanged(t: Timeline, s: HistoryState) {
    !AreFormattedTextsEqualAsWritten(Some(s.formattedText), Some(t.current.formattedText))
  }

  /** `_saveState`. */
  function Saved(t: Timeline, s: HistoryState): (r: Timeline)
    ensures !HasStateChanged(t, s) ==> r == t
    ensures HasStateChanged(t, s) ==> r.current == s && r.redoStack == []
    ensures HasStateChanged(t, s) && |t.undoStack| < HistoryMaxStackSize ==>
      r.undoStack == t.undoStack + [t.current]
    ensures HasStateChanged(t, s) && |t.undoStack| >= HistoryMaxStackSize ==>
      && |r.undoStack| == |t.undoStack|
      && r.undoStack == (t.undoStack + [t.current])[1..]
  {
    if !HasStateChanged(t, s) then t
    else
      var pushed := t.undoStack + [t.current];
      Timeline(if |pushed| > HistoryMaxStackSize then pushed[1..] else pushed, s, [])
  }

  /** `undo`: the current state goes onto the redo stack and the top of the
      undo stack becomes current; nothing when the undo stack is empty. */
  function Undone(t: Timeline): (r: Option<Timeline>)
    ensures r.None? <==> t.undoStack == []
    ensures r.Some? ==>
      && r.value.current == t.undoStack[|t.undoStack| - 1]
      && r.value.undoStack == t.undoStack[..|t.undoStack| - 1]
      && r.value.redoStack == t.redoStack + [t.current]
  {
    if t.undoStack == [] then None
    else Some(Timeline(t.undoStack[..|t.undoStack| - 1], t.undoStack[|t.undoStack| - 1], t.redoStack + [t.current]))
  }

  /** `redo`: the mirror image of `undo`. */
  function Redone(t: Timeline): (r: Option<Timeline>)
    ensures r.None? <==> t.redoStack == []
    ensures r.Some? ==>
      && r.value.current == t.redoStack[|t.redoStack| - 1]
      && r.value.redoStack == t.redoStack[..|t.redoStack| - 1]
      && r.value.undoStack == t.undoStack + [t.current]
  {
    if t.redoStack == [] then None
    else Some(Timeline(t.undoStack + [t.current], t.redoStack[|t.redoStack| - 1], t.redoStack[..|t.redoStack| - 1]))
  }

  function Reverse(s: seq<HistoryState>): (r: seq<HistoryState>)
    ensures |r| == |s|
    ensures forall i :: 0 <= i < |s| ==> r[i] == s[|s| - 1 - i]
  {
    if s == [] then [] else Reverse(s[1..]) + [s[0]]
  }

  /** All states in order, oldest first: the undo stack, the current
      state, then the redo stack read from its top. */
  function States(t: Timeline): seq<HistoryState> {
    t.undoStack + [t.current] + Reverse(t.redoStack)
  }

  // ---------------------------------------------------------------------
  // Properties
  // ---------------------------------------------------------------------

  /** Every operation keeps the bound, so the undo stack never holds more
      than 100 states. */
  lemma SaveKeepsBound(t: Timeline, s: HistoryState)
    requires Bounded(t)
    ensures Bounded(Saved(t, s)) && |Saved(t, s).undoStack| <= HistoryMaxStackSize
  {
  }

  lemma UndoRedoKeepBound(t: Timeline)
    requires Bounded(t)
    ensures Undone(t).Some? ==> Bounded(Undone(t).value)
    ensures Redone(t).Some? ==> Bounded(Redone(t).value)
  {
  }

  /** `undo` then `redo` gives back the timeline undone, and the other way
      round. */
  lemma UndoThenRedo(t: Timeline)
    requires Undone(t).Some?
    ensures Redone(Undone(t).value) == Some(t)
  {
    var u := Undone(t).value;
    assert u.undoStack + [u.current] == t.undoStack;
  }

  lemma RedoThenUndo(t: Timeline)
    requires Redone(t).Some?
    ensures Undone(Redone(t).value) == Some(t)
  {
    var u := Redone(t).value;
    assert u.redoStack + [u.current] == t.redoStack;
  }

  lemma {:induction false} ReverseSnoc(s: seq<HistoryState>, x: HistoryState)
    ensures Reverse(s + [x]) == [x] + Reverse(s)
  {
    if s != [] {
      assert (s + [x])[1..] == s[1..] + [x];
      ReverseSnoc(s[1..], x);
    } else {
      assert s + [x] == [x];
    }
  }

  /** `undo` and `redo` only move through the states: the sequence of all
      states stays the same and the current one moves one step back or
      forward. */
  lemma UndoRedoMoveThroughStates(t: Timeline)
    ensures Undone(t).Some? ==>
      && States(Undone(t).value) == States(t)
      && |Undone(t).value.undoStack| + 1 == |t.undoStack|
    ensures Redone(t).Some? ==>
      && States(Redone(t).value) == States(t)
      && |Redone(t).value.undoStack| == |t.undoStack| + 1
  {
    if Undone(t).Some? {
      var u := Undone(t).value;
      ReverseSnoc(t.redoStack, t.current);
      assert u.undoStack + [u.current] == t.undoStack;
    }
    if Redone(t).Some? {
      var u := Redone(t).value;
      ReverseSnoc(u.redoStack, u.current);
      assert u.redoStack + [u.current] == t.redoStack;
    }
  }

  /** A save that changed the content can be undone back to the state it
      replaced, and it cannot be redone past. */
  lemma SaveThenUndo(t: Timeline, s: HistoryState)
    requires HasStateChanged(t, s)
    ensures Undone(Saved(t, s)).Some? && Undone(Saved(t, s)).value.current == t.current
    ensures Redone(Saved(t, s)).None?
  {
  }

  /** Saving the same content twice saves once: the second save finds the
      content unchanged, since the comparison is reflexive. */
  lemma SaveIsIdempotent(t: Timeline, s: HistoryState)
    ensures Saved(Saved(t, s), s) == Saved(t, s)
  {
    AreFormattedTextsEqualAsWrittenReflexive(Some(s.formattedText));
  }

  /** A new state that differs from the current one only in a code
      block's language is not saved: the comparison as the source runs it
      looks at entity kinds and ranges, not at their fields. */
  lemma LanguageOnlyChangeIsNotSaved(t: Timeline, caret: Option<nat>, text: string, ea: Entity, eb: Entity)
    requires ea.kind == Pre && eb.kind == Pre && ea.offset == eb.offset && ea.length == eb.length
    requires Field(ea, "language") != Field(eb, "language")
    requires t.current.formattedText == FormattedText(text, Some([ea]))
    ensures Saved(t, HistoryState(caret, FormattedText(text, Some([eb])))) == t
  {
    AsWrittenIgnoresCodeLanguage(text, eb, ea);
  }

  // ---------------------------------------------------------------------
  // The manager object
  // ---------------------------------------------------------------------

  /** `HistoryManager`. The constructor always receives an initial state,
      so `_currentState` is never undefined afterwards. The pending
      debounced save (`_saveTimeout`) is the state it will save. */
  class HistoryManager {
    var undoStack: seq<HistoryState>
    var redoStack: seq<HistoryState>
    var currentState: HistoryState
    var pendingSave: Option<HistoryState>

    function AsTimeline(): Timeline
      reads this
    {
      Timeline(undoStack, currentState, redoStack)
    }

    predicate Valid()
      reads this
    {
      Bounded(AsTimeline())
    }

    constructor (initialState: HistoryState)
      ensures Valid()
      ensures AsTimeline() == Timeline([], initialState, []) && pendingSave == None
    {
      undoStack := [];
      redoStack := [];
      currentState := initialState;
      pendingSave := None;
    }

    /** `_saveState`. */
    method SaveStateNow(newState: HistoryState)
      requires Valid()
      modifies this
      ensures Valid()
      ensures AsTimeline() == Saved(old(AsTimeline()), newState)
      ensures pendingSave == old(pendingSave)
    {
      var hasStateChanged := !AreFormattedTextsEqualAsWritten(Some(newState.formattedText), Some(currentState.formattedText));
      if !hasStateChanged {
        return;
      }
      undoStack := undoStack + [currentState];
      if |undoStack| > HistoryMaxStackSize {
        undoStack := undoStack[1..];
      }
      currentState := newState;
      redoStack := [];
    }

    /** `saveState`: cancels a pending debounced save, then saves. */
    method SaveState(newState: HistoryState)
      requires Valid()
      modifies this
      ensures Valid()
      ensures AsTimeline() == Saved(old(AsTimeline()), newState)
      ensures pendingSave == None
    {
      pendingSave := None;
      SaveStateNow(newState);
    }

    /** `saveStateDebounced`: replaces any pending save; nothing is saved
        until the timer fires. */
    method SaveStateDebounced(newState: HistoryState)
      modifies this
      ensures AsTimeline() == old(AsTimeline())
      ensures pendingSave == Some(newState)
    {
      pendingSave := Some(newState);
    }

    /** The debounce timer firing: the last state scheduled is saved. */
    method SaveTimeoutFires()
      requires Valid()
      modifies this
      ensures Valid()
      ensures old(pendingSave).Some? ==> AsTimeline() == Saved(old(AsTimeline()), old(pendingSave).value)
      ensures old(pendingSave).None? ==> AsTimeline() == old(AsTimeline())
      ensures pendingSave == None
    {
      if pendingSave.Some? {
        var s := pendingSave.value;
        pendingSave := None;
        SaveStateNow(s);
      }
    }

    method Undo() returns (state: Option<HistoryState>)
      requires Valid()
      modifies this
      ensures Valid()
      ensures Undone(old(AsTimeline())).None? ==> state.None? && AsTimeline() == old(AsTimeline())
      ensures Undone(old(AsTimeline())).Some? ==>
        && AsTimeline() == Undone(old(AsTimeline())).value
        && state == Some(currentState)
      ensures pendingSave == old(pendingSave)
    {
      if |undoStack| > 0 {
        redoStack := redoStack + [currentState];
        currentState := undoStack[|undoStack| - 1];
        undoStack := undoStack[..|undoStack| - 1];
        return Some(currentState);
      }
      return None;
    }

    method Redo() returns (state: Option<HistoryState>)
      requires Valid()
      modifies this
      ensures Valid()
      ensures Redone(old(AsTimeline())).None? ==> state.None? && AsTimeline() == old(AsTimeline())
      ensures Redone(old(AsTimeline())).Some? ==>
        && AsTimeline() == Redone(old(AsTimeline())).value
        && state == Some(currentState)
      ensures pendingSave == old(pendingSave)
    {
      if |redoStack| > 0 {
        undoStack := undoStack + [currentState];
        currentState := redoStack[|redoStack| - 1];
        redoStack := redoStack[..|redoStack| - 1];
        return Some(currentState);
      }
      return None;
    }

    method GetCurrentState() returns (state: HistoryState)
      ensures state == AsTimeline().current
    {
      state := currentState;
    }
  }
}
