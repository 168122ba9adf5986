/** `tokensToFormattedText`: the walk over a token tree that builds the
    plain text and its entities, keeping a running character offset and a
    stack of entities opened by `html` tokens and not yet closed, shared by
    every level of the walk (src/contest/text-editor/TokenHelper.tsx:344-416). */
module TokensToText {
  import opened Wrappers
  import opened TextModel
  import MarkedJS
  import opened TokenEntities

  /** Where the walk stands: the text and entities of the current level so
      far, the running offset, and the shared pending stack. */
  datatype Progress = Progress(text: string, entities: seq<Entity>, offset: int, pending: seq<Pending>)

  /** The kinds whose own text is their `text` field. */
  const TextLikeKinds: set<MarkedJS.TokenType> :=
    {MarkedJS.text, MarkedJS.codespan, MarkedJS.strong, MarkedJS.em, MarkedJS.del, MarkedJS.link,
     MarkedJS.underline, MarkedJS.spoiler, MarkedJS.blockquote, MarkedJS.tblockquote, MarkedJS.code}

  /** A token's own text (`tokenText`): its `text` for text-like kinds,
      nothing for `html` and `paragraph`, its `raw` for every other kind
      (`escape`, `space`, `br` and the default). `None` is an `undefined`
      `text` field. */
  function OwnText(t: MarkedJS.Token): (r: Option<string>)
    ensures t.kind in TextLikeKinds ==> r == t.text
    ensures t.kind in {MarkedJS.html, MarkedJS.paragraph} ==> r == Some("")
    ensures t.kind !in TextLikeKinds && t.kind !in {MarkedJS.html, MarkedJS.paragraph} ==> r == Some(t.raw)
  {
    if t.kind in TextLikeKinds then t.text
    else if t.kind == MarkedJS.html || t.kind == MarkedJS.paragraph then Some("")
    else Some(t.raw)
  }

  /** `'tokens' in token && token.tokens && token.tokens.length`. */
  predicate HasChildren(t: MarkedJS.Token) {
    t.hasTokens && |t.tokens| > 0
  }

  /** The pending stack after a token's own `html` handling. */
  function HtmlStep(st: Progress, t: MarkedJS.Token): Result<HtmlOutcome, string> {
    if t.kind == MarkedJS.html then GetEntityFromHtmlToken(t.raw, st.offset, st.offset, st.pending)
    else Success(HtmlOutcome(None, st.pending))
  }

  /** The walk over one level, token by token. */
  function ProcessTokens(tokens: seq<MarkedJS.Token>, init: Progress): Result<Progress, string>
    decreases tokens, 1
  {
    if tokens == [] then Success(init)
    else
      match ProcessTokens(tokens[..|tokens| - 1], init)
      case Failure(e) => Failure(e)
      case Success(st) => ProcessToken(st, tokens[|tokens| - 1])
  }

  /** One token: its `html` handling, then its children (which start at the
      token's offset and share the stack), then its entity, pushed before
      its children's entities, and its contribution to the text: the
      children's text when non-empty, its own text otherwise. An
      `undefined` own text that is needed is the source's `TypeError`. */
  function ProcessToken(st: Progress, t: MarkedJS.Token): Result<Progress, string>
    decreases t, 0
  {
    match HtmlStep(st, t)
    case Failure(e) => Failure(e)
    case Success(h) =>
      var start := Progress("", [], st.offset, h.pending);
      match (if HasChildren(t) then ProcessTokens(t.tokens, start) else Success(start))
      case Failure(e) => Failure(e)
      case Success(children) =>
        if children.text == "" && OwnText(t).None? then Failure("TypeError: text is undefined")
        else
          var contribution := if children.text != "" then children.text else OwnText(t).value;
          var entity := if h.entity.Some? then h.entity else GetEntityFromToken(t, st.offset, |contribution|);
          Success(Progress(st.text + contribution,
                           st.entities + (if entity.Some? then [entity.value] else []) + children.entities,
                           st.offset + |contribution|,
                           children.pending))
  }

  // ---------------------------------------------------------------------
  // The text, independently of entities and of the stack
  // ---------------------------------------------------------------------

  /** What a token adds to the text. */
  function Contribution(t: MarkedJS.Token): string
    decreases t, 0
  {
    var children := if HasChildren(t) then TextOf(t.tokens) else "";
    if children != "" then children else OwnText(t).GetOr("")
  }

  /** The in-order concatenation of the tokens' contributions. */
  function TextOf(tokens: seq<MarkedJS.Token>): string
    decreases tokens, 1
  {
    if tokens == [] then "" else TextOf(tokens[..|tokens| - 1]) + Contribution(tokens[|tokens| - 1])
  }

  /** Whenever the walk succeeds, it has appended exactly the tokens'
      contributions to the text and advanced the offset by their length. */
  lemma {:induction false} ProcessTokensText(tokens: seq<MarkedJS.Token>, init: Progress)
    requires ProcessTokens(tokens, init).Success?
    ensures ProcessTokens(tokens, init).value.text == init.text + TextOf(tokens)
    ensures ProcessTokens(tokens, init).value.offset == init.offset + |TextOf(tokens)|
    decreases tokens, 1
  {
    if tokens != [] {
      var prefix := tokens[..|tokens| - 1];
      ProcessTokensText(prefix, init);
      ProcessTokenText(ProcessTokens(prefix, init).value, tokens[|tokens| - 1]);
    }
  }

  lemma {:induction false} ProcessTokenText(st: Progress, t: MarkedJS.Token)
    requires ProcessToken(st, t).Success?
    ensures ProcessToken(st, t).value.text == st.text + Contribution(t)
    ensures ProcessToken(st, t).value.offset == st.offset + |Contribution(t)|
    decreases t, 0
  {
    var h := HtmlStep(st, t).value;
    var start := Progress("", [], st.offset, h.pending);
    if HasChildren(t) {
      ProcessTokensText(t.tokens, start);
    }
  }

  // ---------------------------------------------------------------------
  // Every entity lies within the text
  // ---------------------------------------------------------------------

  /** Offsets are non-negative, every pending entity started at or before
      the running offset, and every entity emitted so far ends there at the
      latest. */
  predicate InRange(st: Progress) {
    && 0 <= st.offset
    && (forall i :: 0 <= i < |st.pending| ==> 0 <= st.pending[i].startOffset <= st.offset)
    && (forall i :: 0 <= i < |st.entities| ==> EntityWithin(st.entities[i], st.offset))
  }

  predicate EntityWithin(e: Entity, end: int) {
    0 <= e.offset && 0 <= e.length && e.offset + e.length <= end
  }

  lemma {:induction false} ProcessTokensInRange(tokens: seq<MarkedJS.Token>, init: Progress)
    requires ProcessTokens(tokens, init).Success? && InRange(init)
    ensures InRange(ProcessTokens(tokens, init).value)
    decreases tokens, 1
  {
    if tokens != [] {
      var prefix := tokens[..|tokens| - 1];
      ProcessTokensInRange(prefix, init);
      ProcessTokenInRange(ProcessTokens(prefix, init).value, tokens[|tokens| - 1]);
    }
  }

  lemma {:induction false} ProcessTokenInRange(st: Progress, t: MarkedJS.Token)
    requires ProcessToken(st, t).Success? && InRange(st)
    ensures InRange(ProcessToken(st, t).value)
    decreases t, 0
  {
    var h := HtmlStep(st, t).value;
    HtmlStepInRange(st, t);
    var start := Progress("", [], st.offset, h.pending);
    var children := if HasChildren(t) then ProcessTokens(t.tokens, start).value else start;
    if HasChildren(t) {
      ProcessTokensInRange(t.tokens, start);
      ProcessTokensText(t.tokens, start);
    }
    var r := ProcessToken(st, t).value;
    assert children.offset <= r.offset;
    var contribution := r.text[|st.text|..];
    var entity := if h.entity.Some? then h.entity else GetEntityFromToken(t, st.offset, r.offset - st.offset);
    var own := if entity.Some? then [entity.value] else [];
    assert r.entities == st.entities + own + children.entities;
    forall i | 0 <= i < |r.entities|
      ensures EntityWithin(r.entities[i], r.offset)
    {
      if i < |st.entities| {
        assert r.entities[i] == st.entities[i];
      } else if i < |st.entities| + |own| {
        assert r.entities[i] == entity.value;
      } else {
        assert r.entities[i] == children.entities[i - |st.entities| - |own|];
      }
    }
  }

  /** An entity closed by an `html` token spans from where it was opened
      to the running offset; the stack loses an entry or gains one that
      starts at the running offset. */
  lemma HtmlStepInRange(st: Progress, t: MarkedJS.Token)
    requires HtmlStep(st, t).Success? && InRange(st)
    ensures var h := HtmlStep(st, t).value;
      && (forall i :: 0 <= i < |h.pending| ==> 0 <= h.pending[i].startOffset <= st.offset)
      && (h.entity.Some? ==> EntityWithin(h.entity.value, st.offset))
  {
    var h := HtmlStep(st, t).value;
    if t.kind == MarkedJS.html && IsClosingTag(t.raw) && st.pending != [] {
      assert h.pending == st.pending[..|st.pending| - 1];
    }
  }

  // ---------------------------------------------------------------------
  // tokensToFormattedText (TokenHelper.tsx:344-416)
  // ---------------------------------------------------------------------

  /** The formatted text of a token list: the walk from offset 0 with an
      empty stack, then the entities stably sorted by offset. It fails
      exactly where the walk throws. */
  function TokensToFormattedText(tokens: seq<MarkedJS.Token>): (r: Result<FormattedText, string>)
    ensures r.Success? <==> ProcessTokens(tokens, Progress("", [], 0, [])).Success?
    ensures r.Success? ==> r.value.text == TextOf(tokens) && r.value.entities.Some?
    ensures r.Success? ==>
      var entities := r.value.entities.value;
      && SortedByOffset(entities)
      && multiset(entities) == multiset(ProcessTokens(tokens, Progress("", [], 0, [])).value.entities)
      && forall i :: 0 <= i < |entities| ==> EntityWithin(entities[i], |r.value.text|)
  {
    var init := Progress("", [], 0, []);
    match ProcessTokens(tokens, init)
    case Failure(e) => Failure(e)
    case Success(st) =>
      ProcessTokensText(tokens, init);
      ProcessTokensInRange(tokens, init);
      var sorted := SortByOffset(st.entities);
      assert forall i :: 0 <= i < |sorted| ==> sorted[i] in multiset(st.entities);
      Success(FormattedText(st.text, Some(sorted)))
  }

  // ---------------------------------------------------------------------
  // The walk as the source performs it: a loop per level, one stack
  // object shared by every level
  // ---------------------------------------------------------------------

  /** The `pendingEntities` array, pushed and popped in place. */
  class PendingEntities {
    var entries: seq<Pending>

    constructor ()
      ensures entries == []
    {
      entries := [];
    }

    /** `getEntityFromHtmlToken`: pushes on an opening tag with an entity
        type, pops on a closing tag; the entity closed, if any. */
    method HandleHtmlToken(raw: string, localOffset: int, startOffset: int) returns (r: Result<Option<Entity>, string>)
      modifies this
      ensures var spec := GetEntityFromHtmlToken(raw, localOffset, startOffset, old(entries));
        && (r.Success? <==> spec.Success?)
        && (r.Success? ==> r.value == spec.value.entity && entries == spec.value.pending)
    {
      if IsOpeningTag(raw) {
        var newEntry := OpenedEntity(raw, localOffset);
        if newEntry.Some? {
          entries := entries + [newEntry.value];
        }
        r := Success(None);
      } else if IsClosingTag(raw) {
        if entries == [] {
          r := Success(None);
        } else {
          var top := entries[|entries| - 1];
          entries := entries[..|entries| - 1];
          var closed := ClosedEntity(top, localOffset, startOffset);
          if closed.Failure? {
            r := Failure(closed.error);
          } else {
            r := Success(Some(closed.value));
          }
        }
      } else {
        r := Success(None);
      }
    }
  }

  /** What one level of the walk returns. */
  datatype Processed = Processed(text: string, entities: seq<Entity>, offset: int)

  /** `processTokens`: walks one level in order, recursing into children
      with the same stack object. */
  method ProcessTokensWalk(tokens: seq<MarkedJS.Token>, currentOffset: int, pending: PendingEntities)
    returns (r: Result<Processed, string>)
    modifies pending
    decreases tokens, 1
    ensures var spec := ProcessTokens(tokens, Progress("", [], currentOffset, old(pending.entries)));
      && (r.Success? <==> spec.Success?)
      && (r.Success? ==> r.value == Processed(spec.value.text, spec.value.entities, spec.value.offset)
                         && pending.entries == spec.value.pending)
  {
    ghost var init := Progress("", [], currentOffset, pending.entries);
    var localText, localOffset, localEntities := "", currentOffset, [];
    var i := 0;
    while i < |tokens|
      invariant 0 <= i <= |tokens|
      invariant ProcessTokens(tokens[..i], init) == Success(Progress(localText, localEntities, localOffset, pending.entries))
    {
      assert tokens[..i + 1][..i] == tokens[..i];
      var step := ProcessTokenWalk(Processed(localText, localEntities, localOffset), tokens[i], pending);
      if step.Failure? {
        FailureExtends(tokens, init, i + 1);
        return Failure(step.error);
      }
      localText, localEntities, localOffset := step.value.text, step.value.entities, step.value.offset;
      i := i + 1;
    }
    assert tokens[..i] == tokens;
    return Success(Processed(localText, localEntities, localOffset));
  }

  /** The body of the loop for one token: its `html` handling, its
      children, its entity and its contribution to the text. */
  method ProcessTokenWalk(acc: Processed, token: MarkedJS.Token, pending: PendingEntities)
    returns (r: Result<Processed, string>)
    modifies pending
    decreases token, 0
    ensures var spec := ProcessToken(Progress(acc.text, acc.entities, acc.offset, old(pending.entries)), token);
      && (r.Success? <==> spec.Success?)
      && (r.Success? ==> r.value == Processed(spec.value.text, spec.value.entities, spec.value.offset)
                         && pending.entries == spec.value.pending)
  {
    ghost var st := Progress(acc.text, acc.entities, acc.offset, pending.entries);
    ghost var hs := HtmlStep(st, token);
    var localOffset := acc.offset;
    var startOffset := localOffset;
    var entity: Option<Entity> := None;
    if token.kind == MarkedJS.html {
      var h := pending.HandleHtmlToken(token.raw, localOffset, startOffset);
      if h.Failure? {
        return Failure(h.error);
      }
      entity := h.value;
    }
    assert hs == Success(HtmlOutcome(entity, pending.entries));
    ghost var start := Progress("", [], st.offset, pending.entries);
    var childTexts: string, childEntities: seq<Entity> := "", [];
    ghost var childOffset := localOffset;
    if HasChildren(token) {
      var processed := ProcessTokensWalk(token.tokens, localOffset, pending);
      if processed.Failure? {
        return Failure(processed.error);
      }
      childTexts, childEntities := processed.value.text, processed.value.entities;
      childOffset := processed.value.offset;
    }
    ghost var children := Progress(childTexts, childEntities, childOffset, pending.entries);
    assert (if HasChildren(token) then ProcessTokens(token.tokens, start) else Success(start)) == Success(children);
    var tokenText := OwnText(token);
    if childTexts == "" && tokenText.None? {
      return Failure("TypeError: text is undefined");
    }
    var contribution := if childTexts != "" then childTexts else tokenText.value;
    if entity.None? {
      entity := GetEntityFromToken(token, startOffset, |contribution|);
    }
    var localEntities := acc.entities;
    if entity.Some? {
      localEntities := localEntities + [entity.value];
    }
    localEntities := localEntities + childEntities;
    ProcessTokenSteps(st, token, hs.value, children, contribution, entity);
    r := Success(Processed(acc.text + contribution, localEntities, localOffset + |contribution|));
  }

  /** One successful token, read off its three stages: the `html`
      handling gave `h`, the children gave `children`, and the token adds
      `contribution` to the text and `entity`, if any, before the
      children's entities. */
  lemma ProcessTokenSteps(st: Progress, t: MarkedJS.Token, h: HtmlOutcome, children: Progress,
                          contribution: string, entity: Option<Entity>)
    requires HtmlStep(st, t) == Success(h)
    requires (if HasChildren(t) then ProcessTokens(t.tokens, Progress("", [], st.offset, h.pending))
              else Success(Progress("", [], st.offset, h.pending))) == Success(children)
    requires children.text != "" || OwnText(t).Some?
    requires contribution == if children.text != "" then children.text else OwnText(t).value
    requires entity == if h.entity.Some? then h.entity else GetEntityFromToken(t, st.offset, |contribution|)
    ensures ProcessToken(st, t) == Success(Progress(st.text + contribution,
                                                    st.entities + (if entity.Some? then [entity.value] else []) + children.entities,
                                                    st.offset + |contribution|,
                                                    children.pending))
  {
  }

  /** Once a prefix of the tokens fails, the whole level fails. */
  lemma {:induction false} FailureExtends(tokens: seq<MarkedJS.Token>, init: Progress, j: nat)
    requires j <= |tokens| && ProcessTokens(tokens[..j], init).Failure?
    ensures ProcessTokens(tokens, init).Failure?
    decreases |tokens| - j
  {
    if j < |tokens| {
      assert tokens[..j + 1][..j] == tokens[..j];
      FailureExtends(tokens, init, j + 1);
    } else {
      assert tokens[..j] == tokens;
    }
  }

  /** `tokensToFormattedText` as the source runs it: the walk with a fresh
      stack, then the sort. */
  method TokensToFormattedTextWalk(tokens: seq<MarkedJS.Token>) returns (r: Result<FormattedText, string>)
    ensures r.Success? <==> TokensToFormattedText(tokens).Success?
    ensures r.Success? ==> r == TokensToFormattedText(tokens)
  {
    var pending := new PendingEntities();
    var processed := ProcessTokensWalk(tokens, 0, pending);
    if processed.Failure? {
      return Failure(processed.error);
    }
    r := Success(FormattedText(processed.value.text, Some(SortByOffset(processed.value.entities))));
  }
}
