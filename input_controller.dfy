/** The composer's controller: which formats the toolbar offers for a
    selection and what applying one does, the debounced markdown check that
    re-renders the editor when the markdown structure changes, and the
    locks around restoring a history state
    (src/contest/text-editor/MessageInputController.tsx). */
module InputController {
  import opened Wrappers
  import opened TextModel
  import opened DomTree
  import opened Sync
  import opened History
  import MarkedJS
  import DomEdit
  import opened MarkdownEditorUtils
  import HtmlToMarkdown
  import HtmlToTokens
  import TokensToText
  import InputKeys

  // ---------------------------------------------------------------------
  // The toolbar: available and active formats (getSelectedTextInfo)
  // ---------------------------------------------------------------------

  /** One of `InlineFormattingTypesList`. */
  predicate IsInlineFormat(t: EntityType) {
    t in DomEdit.InlineFormattingTypes
  }

  /** `FormattingTypes`: the inline formats and the quote. */
  predicate IsFormattingType(t: EntityType) {
    IsInlineFormat(t) || t == Blockquote
  }

  /** The kinds of `types` that occur in `present`, order kept. */
  function Present(types: seq<EntityType>, present: seq<EntityType>): (r: seq<EntityType>)
    ensures forall t :: t in r <==> t in types && t in present
    ensures |r| <= |types|
  {
    if types == [] then []
    else (if types[0] in present then [types[0]] else []) + Present(types[1..], present)
  }

  datatype SelectedTextInfo = SelectedTextInfo(availableFormats: seq<EntityType>, activeFormats: seq<EntityType>)

  /** `getSelectedTextInfo`: `elements` are the kinds of the inline entity
      elements in the selection, `blockElement` the kind of the topmost
      block-level element around the caret. */
  function GetSelectedTextInfo(elements: seq<EntityType>, blockElement: Option<EntityType>): (r: SelectedTextInfo)
    ensures forall t :: t in r.availableFormats ==> IsFormattingType(t)
    ensures forall t :: IsInlineFormat(t) ==> t in r.availableFormats
    ensures forall t :: IsInlineFormat(t) ==> (t in r.activeFormats <==> t in elements)
    ensures Blockquote in r.availableFormats <==> Pre !in elements && blockElement != Some(Pre)
    ensures Blockquote in r.activeFormats <==>
      (Blockquote in elements || blockElement == Some(Blockquote)) && Pre !in elements && blockElement != Some(Pre)
    ensures forall t :: t in r.activeFormats ==> t in r.availableFormats
  {
    // the block-level kinds, in the order of `BlockLevelTypesList`, that a
    // selected element or the block around the caret has
    var blockLevel :=
      (if Pre in elements || blockElement == Some(Pre) then [Pre] else [])
      + (if Blockquote in elements || blockElement == Some(Blockquote) then [Blockquote] else []);
    var active := Present(DomEdit.InlineFormattingTypes, elements);
    if blockLevel == [Blockquote] then
      SelectedTextInfo(DomEdit.InlineFormattingTypes + [Blockquote], active + [Blockquote])
    else if blockLevel == [] then
      SelectedTextInfo(DomEdit.InlineFormattingTypes + [Blockquote], active)
    else
      SelectedTextInfo(DomEdit.InlineFormattingTypes, active)
  }

  // ---------------------------------------------------------------------
  // applyFormatToSelectedText
  // ---------------------------------------------------------------------

  /** What applying a format does: unwrap the listed elements of the
      selection, put marker text around the selection, or nothing. */
  datatype FormatEdit =
    | UnwrapElements(indices: seq<nat>)
    | AddMarkers(startText: string, endText: string)
    | NoEdit

  /** The positions of the elements of kind `t`, in order. */
  function IndicesOf(elements: seq<EntityType>, t: EntityType): (r: seq<nat>)
    ensures forall k :: 0 <= k < |r| ==> r[k] < |elements| && elements[r[k]] == t
    ensures forall i :: 0 <= i < |elements| && elements[i] == t ==> i in r
    ensures forall j, k :: 0 <= j < k < |r| ==> r[j] < r[k]
  {
    if elements == [] then []
    else
      var last := |elements| - 1;
      IndicesOf(elements[..last], t) + (if elements[last] == t then [last] else [])
  }

  /** The marker text a format that is off puts around the selection: a
      quote takes `"> "` at the start and nothing at the end. */
  function MarkersFor(t: EntityType): (r: FormatEdit)
    requires IsFormattingType(t)
    ensures t == Blockquote ==> r == AddMarkers("> ", "")
    ensures t != Blockquote ==> GetMarkerByType(t).Some? && r == AddMarkers(GetMarkerByType(t).value, GetMarkerByType(t).value)
  {
    var marker := GetMarkerByType(t).value;
    if t == Blockquote then
      assert marker + " " == "> ";
      AddMarkers(marker + " ", "")
    else AddMarkers(marker, marker)
  }

  /** No element of kind `t`, no index. */
  lemma {:induction false} IndicesOfAbsent(elements: seq<EntityType>, t: EntityType)
    requires forall i :: 0 <= i < |elements| ==> elements[i] != t
    ensures IndicesOf(elements, t) == []
  {
    if elements != [] {
      IndicesOfAbsent(elements[..|elements| - 1], t);
    }
  }

  /** `applyFormatToSelectedText(type)`: a format that is not available
      does nothing; an active one unwraps every selected element of that
      kind; otherwise its marker goes around the selection, a quote taking
      `"> "` at the start only. */
  function ApplyFormat(t: EntityType, elements: seq<EntityType>, blockElement: Option<EntityType>): (r: FormatEdit)
    requires IsFormattingType(t)
    ensures t !in GetSelectedTextInfo(elements, blockElement).availableFormats ==> r == NoEdit
    ensures t in GetSelectedTextInfo(elements, blockElement).activeFormats ==>
      r == UnwrapElements(IndicesOf(elements, t))
    ensures (t in GetSelectedTextInfo(elements, blockElement).availableFormats
             && t !in GetSelectedTextInfo(elements, blockElement).activeFormats) ==>
        r == MarkersFor(t)
  {
    var info := GetSelectedTextInfo(elements, blockElement);
    if t !in info.availableFormats then NoEdit
    else if t in info.activeFormats then UnwrapElements(IndicesOf(elements, t))
    else MarkersFor(t)
  }

  /** An inline format toggles: applied where it is present it unwraps at
      least one element and adds no text; applied where it is absent it
      adds markers that read back as that format. */
  lemma InlineFormatToggles(t: EntityType, elements: seq<EntityType>, blockElement: Option<EntityType>)
    requires IsInlineFormat(t)
    ensures t in elements ==>
      ApplyFormat(t, elements, blockElement).UnwrapElements?
      && |ApplyFormat(t, elements, blockElement).indices| > 0
    ensures t !in elements ==>
      ApplyFormat(t, elements, blockElement).AddMarkers?
      && TypeOfMarker(ApplyFormat(t, elements, blockElement).startText) == Some(t)
      && ApplyFormat(t, elements, blockElement).startText == ApplyFormat(t, elements, blockElement).endText
  {
    var r := ApplyFormat(t, elements, blockElement);
    if t in elements {
      var i :| 0 <= i < |elements| && elements[i] == t;
      assert i in r.indices;
    } else {
      MarkerRoundTrip(t, r.startText);
    }
  }

  /** Toggling the quote off where the caret is inside a quote and the
      selection holds only inline elements unwraps nothing: the quote
      element itself is never among the selected elements. */
  lemma QuoteToggleOffUnwrapsNothing(elements: seq<EntityType>)
    requires forall i :: 0 <= i < |elements| ==> IsInlineFormat(elements[i])
    ensures ApplyFormat(Blockquote, elements, Some(Blockquote)) == UnwrapElements([])
  {
    assert Blockquote !in elements && Pre !in elements;
    assert Blockquote in GetSelectedTextInfo(elements, Some(Blockquote)).activeFormats;
    IndicesOfAbsent(elements, Blockquote);
  }

  // ---------------------------------------------------------------------
  // The markdown check (MarkdownHandler), on values
  // ---------------------------------------------------------------------

  /** `_prevMarkdown` (absent until the first check) and `_prevTokens`. */
  datatype MarkdownCache = MarkdownCache(prevMarkdown: Option<string>, prevTokens: seq<MarkedJS.Token>)

  /** The cache after a check, and what the check asks the controller to
      render: nothing, a new formatted text, or the error it threw. */
  datatype CheckOutcome = CheckOutcome(cache: MarkdownCache, setup: Result<Option<FormattedText>, string>)

  /** `_check`: serialize the editor to markdown; if its trimmed form is
      what was seen last, stop; remember it; if the lexed tokens have the
      same structure as the remembered ones, stop; remember them and render
      their formatted text. `lex` is the markdown lexer. */
  function Checked(cache: MarkdownCache, root: Option<Node>, extract: Node -> Option<CodeBlockData>,
                   lex: string -> seq<MarkedJS.Token>): (r: CheckOutcome)
    ensures root.None? ==> r == CheckOutcome(cache, Success(None))
    ensures root.Some? && HtmlToMarkdown.MarkdownOf(root.value, extract).Failure? ==>
      r.cache == cache && r.setup.Failure?
    ensures root.Some? && HtmlToMarkdown.MarkdownOf(root.value, extract).Success? ==>
      var md := HtmlToMarkdown.MarkdownOf(root.value, extract).value;
      && r.cache.prevMarkdown == Some(Trim(md))
      && (cache.prevMarkdown == Some(Trim(md)) ==> r == CheckOutcome(cache, Success(None)))
      && (!MarkedJS.HasStructureChanged(cache.prevTokens, lex(md)) ==> r.setup == Success(None) && r.cache.prevTokens == cache.prevTokens)
    ensures r.cache.prevTokens != cache.prevTokens ==> MarkedJS.HasStructureChanged(cache.prevTokens, r.cache.prevTokens)
    ensures r.setup.Success? && r.setup.value.Some? ==>
      && r.cache.prevMarkdown != cache.prevMarkdown
      && MarkedJS.HasStructureChanged(cache.prevTokens, r.cache.prevTokens)
      && TokensToText.TokensToFormattedText(r.cache.prevTokens) == Success(r.setup.value.value)
  {
    if root.None? then CheckOutcome(cache, Success(None))
    else
      match HtmlToMarkdown.MarkdownOf(root.value, extract)
      case Failure(e) => CheckOutcome(cache, Failure(e))
      case Success(md) =>
        if cache.prevMarkdown == Some(Trim(md)) then CheckOutcome(cache, Success(None))
        else
          var tokens := lex(md);
          var remembered := cache.(prevMarkdown := Some(Trim(md)));
          if !MarkedJS.HasStructureChanged(cache.prevTokens, tokens) then CheckOutcome(remembered, Success(None))
          else
            var updated := remembered.(prevTokens := tokens);
            match TokensToText.TokensToFormattedText(tokens)
            case Failure(e) => CheckOutcome(updated, Failure(e))
            case Success(ft) => CheckOutcome(updated, Success(Some(ft)))
  }

  /** `reloadMarkdownCache`: remember the current markdown and its tokens
      without rendering anything; a failed serialization leaves the cache as
      it was. */
  function Reloaded(cache: MarkdownCache, root: Option<Node>, extract: Node -> Option<CodeBlockData>,
                    lex: string -> seq<MarkedJS.Token>): (r: Result<MarkdownCache, string>)
    ensures root.None? ==> r == Success(cache)
    ensures root.Some? ==> (r.Success? <==> HtmlToMarkdown.MarkdownOf(root.value, extract).Success?)
    ensures root.Some? && r.Success? ==>
      var md := HtmlToMarkdown.MarkdownOf(root.value, extract).value;
      r.value.prevMarkdown == Some(Trim(md)) && r.value.prevTokens == lex(md)
  {
    if root.None? then Success(cache)
    else
      match HtmlToMarkdown.MarkdownOf(root.value, extract)
      case Failure(e) => Failure(e)
      case Success(md) => Success(MarkdownCache(Some(Trim(md)), lex(md)))
  }

  /** A check right after a reload of the same content renders nothing and
      changes nothing: this is what keeps a restored history state from
      being re-rendered by the markdown check. */
  lemma ReloadThenCheckIsQuiet(cache: MarkdownCache, root: Option<Node>, extract: Node -> Option<CodeBlockData>,
                               lex: string -> seq<MarkedJS.Token>)
    requires Reloaded(cache, root, extract, lex).Success?
    ensures var c := Reloaded(cache, root, extract, lex).value;
      Checked(c, root, extract, lex) == CheckOutcome(c, Success(None))
  {
  }

  /** Checking the same content twice renders at most once: the second
      check finds the markdown it remembered and stops, whatever the first
      one did. */
  lemma CheckIsIdempotent(cache: MarkdownCache, root: Option<Node>, extract: Node -> Option<CodeBlockData>,
                          lex: string -> seq<MarkedJS.Token>)
    ensures var c := Checked(cache, root, extract, lex).cache;
      root.Some? && HtmlToMarkdown.MarkdownOf(root.value, extract).Success? ==>
        Checked(c, root, extract, lex) == CheckOutcome(c, Success(None))
  {
  }

  // ---------------------------------------------------------------------
  // The markdown handler object
  // ---------------------------------------------------------------------

  /** `MarkdownHandler`. `debounceTimer` is whether a timer handle is
      stored; `scheduledChecks` counts the timers started and not yet
      fired, which can exceed one because `checkImmediately` drops the
      handle without clearing its timer. */
  class MarkdownHandler {
    var prevMarkdown: Option<string>
    var prevTokens: seq<MarkedJS.Token>
    var debounceTimer: bool
    var scheduledChecks: nat

    function Cache(): MarkdownCache
      reads this
    {
      MarkdownCache(prevMarkdown, prevTokens)
    }

    constructor ()
      ensures Cache() == MarkdownCache(None, [])
      ensures !debounceTimer && scheduledChecks == 0
    {
      prevMarkdown := None;
      prevTokens := [];
      debounceTimer := false;
      scheduledChecks := 0;
    }

    method ReloadMarkdownCache(root: Option<Node>, extract: Node -> Option<CodeBlockData>,
                               lex: string -> seq<MarkedJS.Token>) returns (r: Result<(), string>)
      modifies this
      ensures r.Success? <==> Reloaded(old(Cache()), root, extract, lex).Success?
      ensures r.Success? ==> Cache() == Reloaded(old(Cache()), root, extract, lex).value
      ensures r.Failure? ==> Cache() == old(Cache())
      ensures debounceTimer == old(debounceTimer) && scheduledChecks == old(scheduledChecks)
    {
      if root.None? {
        return Success(());
      }
      var markdown := HtmlToMarkdown.HtmlToMarkdown(root.value, extract);
      if markdown.Failure? {
        return Failure(markdown.error);
      }
      prevMarkdown := Some(Trim(markdown.value));
      prevTokens := lex(markdown.value);
      r := Success(());
    }

    /** `onContentChanged`: start the debounce timer unless one is
        stored. */
    method OnContentChanged()
      modifies this
      ensures Cache() == old(Cache()) && debounceTimer
      ensures old(debounceTimer) ==> scheduledChecks == old(scheduledChecks)
      ensures !old(debounceTimer) ==> scheduledChecks == old(scheduledChecks) + 1
    {
      if debounceTimer {
        return;
      }
      debounceTimer := true;
      scheduledChecks := scheduledChecks + 1;
    }

    /** `checkImmediately`: forget the stored timer and start another. */
    method CheckImmediately()
      modifies this
      ensures Cache() == old(Cache()) && debounceTimer
      ensures scheduledChecks == old(scheduledChecks) + 1
    {
      debounceTimer := false;
      OnContentChanged();
    }

    /** `_check`, step by step. */
    method Check(root: Option<Node>, extract: Node -> Option<CodeBlockData>,
                 lex: string -> seq<MarkedJS.Token>) returns (r: Result<Option<FormattedText>, string>)
      modifies this
      ensures var out := Checked(old(Cache()), root, extract, lex);
        && Cache() == out.cache
        && (r.Success? <==> out.setup.Success?)
        && (r.Success? ==> r == out.setup)
      ensures debounceTimer == old(debounceTimer) && scheduledChecks == old(scheduledChecks)
    {
      if root.None? {
        return Success(None);
      }
      var markdown := HtmlToMarkdown.HtmlToMarkdown(root.value, extract);
      if markdown.Failure? {
        return Failure(markdown.error);
      }
      if prevMarkdown == Some(Trim(markdown.value)) {
        return Success(None);
      }
      var tokens := lex(markdown.value);
      prevMarkdown := Some(Trim(markdown.value));
      if !MarkedJS.HasStructureChanged(prevTokens, tokens) {
        return Success(None);
      }
      prevTokens := tokens;
      var formattedText := TokensToText.TokensToFormattedTextWalk(tokens);
      if formattedText.Failure? {
        return Failure(formattedText.error);
      }
      r := Success(Some(formattedText.value));
    }

    /** One debounce timer firing: the check runs, then the handle is
        cleared. When the check throws the handle stays stored, so later
        content changes start no timer until `checkImmediately`. */
    method DebounceTimerFires(root: Option<Node>, extract: Node -> Option<CodeBlockData>,
                              lex: string -> seq<MarkedJS.Token>) returns (r: Result<Option<FormattedText>, string>)
      requires scheduledChecks > 0
      modifies this
      ensures scheduledChecks == old(scheduledChecks) - 1
      ensures var out := Checked(old(Cache()), root, extract, lex);
        && Cache() == out.cache
        && (r.Success? <==> out.setup.Success?)
        && (r.Success? ==> r == out.setup)
      ensures r.Success? ==> !debounceTimer
      ensures r.Failure? ==> debounceTimer == old(debounceTimer)
    {
      scheduledChecks := scheduledChecks - 1;
      r := Check(root, extract, lex);
      if r.Failure? {
        return;
      }
      debounceTimer := false;
    }
  }

  // ---------------------------------------------------------------------
  // The controller
  // ---------------------------------------------------------------------

  datatype LockType = ContentChangeLock | HistoryLock

  /** The state the composer starts from: empty text, caret at 0. */
  const InitialState := HistoryState(Some(0), FormattedText("", None))

  /** `MessageInputController`. `content` is the editor root; it is always
      an element, whose children the editor replaces when it renders a
      formatted text. */
  class Controller {
    const locker: MultiLock<LockType>
    const history: HistoryManager
    const markdownHandler: MarkdownHandler
    var content: Node

    predicate Valid()
      reads this, history
    {
      history.Valid() && content.Element?
    }

    constructor (root: Node)
      requires root.Element?
      ensures Valid() && content == root
      ensures history.AsTimeline() == Timeline([], InitialState, []) && history.pendingSave == None
      ensures markdownHandler.Cache() == MarkdownCache(None, []) && !markdownHandler.debounceTimer
      ensures forall k :: !locker.IsLocked(k)
      ensures fresh(locker) && fresh(history) && fresh(markdownHandler)
    {
      locker := new MultiLock();
      history := new HistoryManager(InitialState);
      markdownHandler := new MarkdownHandler();
      content := root;
    }

    /** `_saveHistory`: the state is the caret offset and the formatted
        text read from the editor; reading it can throw, and then nothing
        is saved. */
    method SaveHistory(caret: Option<nat>, extract: Node -> Option<CodeBlockData>, isDebounced: bool)
      returns (r: Result<(), string>)
      requires Valid()
      modifies history
      ensures Valid()
      ensures r.Success? <==> HtmlToTokens.HtmlToFormattedText(content, extract).Success?
      ensures r.Failure? ==> history.AsTimeline() == old(history.AsTimeline()) && history.pendingSave == old(history.pendingSave)
      ensures r.Success? && isDebounced ==>
        var s := HistoryState(caret, HtmlToTokens.HtmlToFormattedText(content, extract).value);
        history.AsTimeline() == old(history.AsTimeline()) && history.pendingSave == Some(s)
      ensures r.Success? && !isDebounced ==>
        var s := HistoryState(caret, HtmlToTokens.HtmlToFormattedText(content, extract).value);
        history.AsTimeline() == Saved(old(history.AsTimeline()), s) && history.pendingSave == None
    {
      var formattedText := HtmlToTokens.HtmlToFormattedText(content, extract);
      if formattedText.Failure? {
        return Failure(formattedText.error);
      }
      var newState := HistoryState(caret, formattedText.value);
      if isDebounced {
        history.SaveStateDebounced(newState);
      } else {
        history.SaveState(newState);
      }
      r := Success(());
    }

    /** The content-change listener: each reaction runs only while its lock
        is released. */
    method OnContentChange(caret: Option<nat>, extract: Node -> Option<CodeBlockData>) returns (r: Result<(), string>)
      requires Valid()
      modifies history, markdownHandler
      ensures Valid()
      ensures markdownHandler.Cache() == old(markdownHandler.Cache())
      ensures locker.IsLocked(ContentChangeLock) ==>
        markdownHandler.debounceTimer == old(markdownHandler.debounceTimer)
        && markdownHandler.scheduledChecks == old(markdownHandler.scheduledChecks)
      ensures !locker.IsLocked(ContentChangeLock) ==> markdownHandler.debounceTimer
      ensures locker.IsLocked(HistoryLock) ==>
        r.Success? && history.AsTimeline() == old(history.AsTimeline()) && history.pendingSave == old(history.pendingSave)
      ensures !locker.IsLocked(HistoryLock) ==>
        (r.Success? <==> HtmlToTokens.HtmlToFormattedText(content, extract).Success?)
        && history.AsTimeline() == old(history.AsTimeline())
      ensures !locker.IsLocked(HistoryLock) && r.Success? ==>
        HtmlToTokens.HtmlToFormattedText(content, extract).Success?
        && history.pendingSave == Some(HistoryState(caret, HtmlToTokens.HtmlToFormattedText(content, extract).value))
    {
      if !locker.IsLocked(ContentChangeLock) {
        markdownHandler.OnContentChanged();
      }
      r := Success(());
      if !locker.IsLocked(HistoryLock) {
        r := SaveHistory(caret, extract, true);
      }
    }

    /** `setup`: render a formatted text into the editor, or clear it when
        there is none; outside a history restore the result is saved at
        once. */
    method Setup(formattedText: Option<FormattedText>, isHistory: bool, render: FormattedText -> seq<Node>,
                 caret: Option<nat>, extract: Node -> Option<CodeBlockData>) returns (r: Result<(), string>)
      requires Valid()
      modifies this, history
      ensures Valid()
      ensures formattedText.Some? ==> content == old(content).(children := render(formattedText.value))
      ensures formattedText.None? ==> content == old(content).(children := [])
      ensures isHistory ==> r.Success? && history.AsTimeline() == old(history.AsTimeline()) && history.pendingSave == old(history.pendingSave)
      ensures !isHistory ==> (r.Success? <==> HtmlToTokens.HtmlToFormattedText(content, extract).Success?)
      ensures !isHistory && r.Success? ==>
        HtmlToTokens.HtmlToFormattedText(content, extract).Success? &&
        history.AsTimeline() == Saved(old(history.AsTimeline()), HistoryState(caret, HtmlToTokens.HtmlToFormattedText(content, extract).value))
    {
      if formattedText.Some? {
        content := content.(children := render(formattedText.value));
      } else {
        content := content.(children := []);
      }
      r := Success(());
      if !isHistory {
        r := SaveHistory(caret, extract, false);
      }
    }

    /** Re-render a restored state with both locks held, then reload the
        markdown cache so the check that follows renders nothing. When the
        reload throws, the locks are never released. */
    method Restore(state: HistoryState, render: FormattedText -> seq<Node>, extract: Node -> Option<CodeBlockData>,
                   lex: string -> seq<MarkedJS.Token>) returns (r: Result<(), string>)
      requires Valid()
      modifies this, locker, markdownHandler
      ensures Valid()
      ensures content == old(content).(children := render(state.formattedText))
      ensures r.Success? <==> Reloaded(old(markdownHandler.Cache()), Some(content), extract, lex).Success?
      ensures r.Success? ==> markdownHandler.Cache() == Reloaded(old(markdownHandler.Cache()), Some(content), extract, lex).value
      ensures r.Failure? ==> markdownHandler.Cache() == old(markdownHandler.Cache())
      ensures markdownHandler.debounceTimer == old(markdownHandler.debounceTimer)
      ensures markdownHandler.scheduledChecks == old(markdownHandler.scheduledChecks)
      ensures r.Success? ==> !locker.IsLocked(ContentChangeLock) && !locker.IsLocked(HistoryLock)
      ensures r.Failure? ==> locker.IsLocked(ContentChangeLock) && locker.IsLocked(HistoryLock)
    {
      locker.Lock(ContentChangeLock);
      locker.Lock(HistoryLock);
      content := content.(children := render(state.formattedText));
      r := markdownHandler.ReloadMarkdownCache(Some(content), extract, lex);
      if r.Failure? {
        return;
      }
      locker.Unlock(HistoryLock);
      locker.Unlock(ContentChangeLock);
    }

    /** `_undoHistory`: returns the caret offset to restore, or nothing
        when there is nothing to undo. */
    method UndoHistory(render: FormattedText -> seq<Node>, extract: Node -> Option<CodeBlockData>,
                       lex: string -> seq<MarkedJS.Token>) returns (caret: Option<Option<nat>>, r: Result<(), string>)
      requires Valid()
      modifies this, history, locker, markdownHandler
      ensures Valid()
      ensures Undone(old(history.AsTimeline())).None? ==>
        && caret.None? && r.Success? && history.AsTimeline() == old(history.AsTimeline()) && content == old(content)
        && unchanged(locker, markdownHandler)
      ensures Undone(old(history.AsTimeline())).Some? ==>
        var t := Undone(old(history.AsTimeline())).value;
        && history.AsTimeline() == t
        && caret == Some(t.current.caretOffset)
        && content == old(content).(children := render(t.current.formattedText))
      ensures history.pendingSave == old(history.pendingSave)
      ensures Undone(old(history.AsTimeline())).Some? ==>
        (r.Success? <==> !locker.IsLocked(ContentChangeLock) && !locker.IsLocked(HistoryLock))
    {
      var state := history.Undo();
      r := Success(());
      if state.None? {
        return None, r;
      }
      r := Restore(state.value, render, extract, lex);
      caret := Some(state.value.caretOffset);
    }

    /** `_redoHistory`, the mirror image. */
    method RedoHistory(render: FormattedText -> seq<Node>, extract: Node -> Option<CodeBlockData>,
                       lex: string -> seq<MarkedJS.Token>) returns (caret: Option<Option<nat>>, r: Result<(), string>)
      requires Valid()
      modifies this, history, locker, markdownHandler
      ensures Valid()
      ensures Redone(old(history.AsTimeline())).None? ==>
        && caret.None? && r.Success? && history.AsTimeline() == old(history.AsTimeline()) && content == old(content)
        && unchanged(locker, markdownHandler)
      ensures Redone(old(history.AsTimeline())).Some? ==>
        var t := Redone(old(history.AsTimeline())).value;
        && history.AsTimeline() == t
        && caret == Some(t.current.caretOffset)
        && content == old(content).(children := render(t.current.formattedText))
      ensures history.pendingSave == old(history.pendingSave)
      ensures Redone(old(history.AsTimeline())).Some? ==>
        (r.Success? <==> !locker.IsLocked(ContentChangeLock) && !locker.IsLocked(HistoryLock))
    {
      var state := history.Redo();
      r := Success(());
      if state.None? {
        return None, r;
      }
      r := Restore(state.value, render, extract, lex);
      caret := Some(state.value.caretOffset);
    }

    /** The history part of `_keydownHandler`: the reaction is decided by
        `InputKeys.Keydown`, and the undo and redo shortcuts are carried
        out here; the other reactions are returned to the caller. */
    method HandleKeydown(combo: InputKeys.SendKeyCombo, ev: InputKeys.KeyEvent, info: Option<InputKeys.BlockInfo>,
                         render: FormattedText -> seq<Node>, extract: Node -> Option<CodeBlockData>,
                         lex: string -> seq<MarkedJS.Token>)
      returns (reaction: InputKeys.Reaction, r: Result<(), string>)
      requires Valid()
      modifies this, history, locker, markdownHandler
      ensures Valid()
      ensures reaction == InputKeys.Keydown(combo, ev, info)
      ensures reaction == InputKeys.UndoHistory && Undone(old(history.AsTimeline())).Some? ==>
        history.AsTimeline() == Undone(old(history.AsTimeline())).value
      ensures reaction == InputKeys.RedoHistory && Redone(old(history.AsTimeline())).Some? ==>
        history.AsTimeline() == Redone(old(history.AsTimeline())).value
      ensures reaction !in {InputKeys.UndoHistory, InputKeys.RedoHistory} ==>
        history.AsTimeline() == old(history.AsTimeline()) && content == old(content) && r.Success?
    {
      reaction := InputKeys.Keydown(combo, ev, info);
      r := Success(());
      if reaction == InputKeys.UndoHistory {
        var _, res := UndoHistory(render, extract, lex);
        r := res;
      } else if reaction == InputKeys.RedoHistory {
        var _, res := RedoHistory(render, extract, lex);
        r := res;
      }
    }
  }
}
