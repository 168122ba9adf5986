/** `htmlToTokens`: the walk that turns the editor's tree back into tokens,
    so that the same converter that handles lexed Markdown produces the
    formatted text (src/contest/text-editor/TokenHelper.tsx:513-515,
    561-644). */
module HtmlToTokens {
  import opened Wrappers
  import opened TextModel
  import opened DomTree
  import MarkedJS
  import opened TokenEntities
  import opened TokensToText

  function TextToken(raw: string, text: Option<string>): MarkedJS.Token {
    MarkedJS.Token(MarkedJS.text, raw, text, false, [], None, None)
  }

  function HtmlToken(raw: string): MarkedJS.Token {
    MarkedJS.Token(MarkedJS.html, raw, None, false, [], None, None)
  }

  const BrToken: MarkedJS.Token := MarkedJS.Token(MarkedJS.br, "\n", None, false, [], None, None)

  /** `</tag>` with the tag name lower-cased. */
  function CloseTag(tag: string): string {
    "</" + ToLower(tag) + ">"
  }

  /** The entity kinds written as an opening `html` token, their text, and
      a closing `html` token, so that the converter rebuilds them with
      their attributes. */
  const HtmlWrappedKinds: set<EntityType> := {Mention, TextUrl, Url, Cashtag, Hashtag, CustomEmoji}

  /** `processNode`. A marker element yields nothing, `<br>` a `br` token,
      an image emoji its `alt` as text; a Blockquote becomes its start tag,
      its children's tokens and an end tag; a Pre element its start tag,
      its code and an end tag; the entities in `HtmlWrappedKinds` their start
      tag, their text (a custom emoji's `data-alt`, otherwise the inner
      text) and an end tag; every other element one token whose kind comes
      from `EntityTypeToTokenType` and whose children are its children's
      tokens. A Pre element whose code block cannot be read throws. */
  function NodeTokens(n: Node, extract: Node -> Option<CodeBlockData>): (r: Result<seq<MarkedJS.Token>, string>)
    decreases n, 1
    ensures n.Text? ==> r == Success([TextToken(n.text, Some(n.text))])
    ensures n.Br? ==> r == Success([BrToken])
    ensures n.Element? && n.isMarker ==> r == Success([])
    ensures r.Failure? ==> HasPre(n)
    ensures r.Success? && n.Element? && !n.isMarker && !IsImageEmoji(n) && n.entity.Some?
            && (n.entity.value in HtmlWrappedKinds || n.entity.value == Pre) ==>
      (&& |r.value| == 3
       && r.value[0] == HtmlToken(StartTag(n))
       && r.value[1].kind == MarkedJS.text && r.value[1].raw == InnerHtml(n.children)
       && r.value[2] == HtmlToken(CloseTag(n.tag)))
    ensures n.Element? && !n.isMarker && !IsImageEmoji(n) && n.entity == Some(Pre) ==>
      (r.Failure? <==> extract(n).None?)
      && (r.Success? ==> r.value[1].text == Some(extract(n).value.codeContent))
    ensures r.Success? && n.Element? && !n.isMarker && !IsImageEmoji(n) && n.entity == Some(CustomEmoji) ==>
      r.value[1].text == Attr(n.attrs, "data-alt")
    ensures r.Success? && n.Element? && !n.isMarker && !IsImageEmoji(n) && n.entity.Some?
            && n.entity.value in HtmlWrappedKinds - {CustomEmoji} ==>
      r.value[1].text == Some(InnerText(n))
    ensures r.Success? && n.Element? && !n.isMarker && !IsImageEmoji(n) && n.entity == Some(Blockquote) ==>
      (&& |r.value| >= 2
       && r.value[0] == HtmlToken(StartTag(n))
       && r.value[|r.value| - 1] == HtmlToken(CloseTag(n.tag))
       && ChildTokens(n.children, extract) == Success(r.value[1..|r.value| - 1]))
    ensures r.Success? && n.Element? && !n.isMarker && !IsImageEmoji(n)
            && (n.entity.None? || n.entity.value !in HtmlWrappedKinds + {Pre, Blockquote}) ==>
      (&& |r.value| == 1
       && r.value[0].kind == EntityTypeToTokenType(n.entity)
       && r.value[0].hasTokens
       && ChildTokens(n.children, extract) == Success(r.value[0].tokens))
  {
    match n
    case Text(t) => Success([TextToken(t, Some(t))])
    case Br => Success([BrToken])
    case Element(tag, entity, isMarker, attrs, children) =>
      if isMarker then Success([])
      else if IsImageEmoji(n) then
        var alt := Attr(attrs, "alt").GetOr("");
        Success([TextToken(alt, Some(alt))])
      else if entity == Some(Blockquote) then
        match ChildTokens(children, extract)
        case Failure(e) => Failure(e)
        case Success(inner) =>
          var r := [HtmlToken(StartTag(n))] + inner + [HtmlToken(CloseTag(tag))];
          assert r[1..|r| - 1] == inner;
          Success(r)
      else if entity == Some(Pre) then
        match extract(n)
        case None => Failure("Failed to extract code block.")
        case Some(cb) =>
          Success([HtmlToken(StartTag(n)), TextToken(InnerHtml(children), Some(cb.codeContent)),
                   HtmlToken(CloseTag(tag))])
      else if entity.Some? && entity.value in HtmlWrappedKinds then
        var text := if entity == Some(CustomEmoji) then Attr(attrs, "data-alt") else Some(InnerText(n));
        Success([HtmlToken(StartTag(n)), TextToken(InnerHtml(children), text), HtmlToken(CloseTag(tag))])
      else
        match ChildTokens(children, extract)
        case Failure(e) => Failure(e)
        case Success(inner) =>
          Success([MarkedJS.Token(EntityTypeToTokenType(entity), OuterHtml(n), Some(InnerText(n)), true, inner, None, None)])
  }

  /** `processChildNodes`: the children's tokens, concatenated in order. */
  function ChildTokens(ns: seq<Node>, extract: Node -> Option<CodeBlockData>): (r: Result<seq<MarkedJS.Token>, string>)
    decreases ns, 0
    ensures r.Failure? ==> HasPreAll(ns)
  {
    if ns == [] then Success([])
    else
      match NodeTokens(ns[0], extract)
      case Failure(e) => Failure(e)
      case Success(first) =>
        match ChildTokens(ns[1..], extract)
        case Failure(e) => Failure(e)
        case Success(rest) => Success(first + rest)
  }

  /** Whether a Pre element, whose code block may fail to be read, occurs
      in the subtree below markers' reach. */
  predicate HasPre(n: Node)
    decreases n
  {
    n.Element? && !n.isMarker && !IsImageEmoji(n) && (n.entity == Some(Pre) || HasPreAll(n.children))
  }

  predicate HasPreAll(ns: seq<Node>)
    decreases ns
  {
    exists i :: 0 <= i < |ns| && HasPre(ns[i])
  }

  function HtmlToTokens(root: Node, extract: Node -> Option<CodeBlockData>): Result<seq<MarkedJS.Token>, string> {
    NodeTokens(root, extract)
  }

  /** `htmlToFormattedText`: the tree's tokens through the converter. */
  function HtmlToFormattedText(root: Node, extract: Node -> Option<CodeBlockData>): Result<FormattedText, string> {
    match HtmlToTokens(root, extract)
    case Failure(e) => Failure(e)
    case Success(tokens) => TokensToFormattedText(tokens)
  }

  // ---------------------------------------------------------------------
  // The text of the round trip
  // ---------------------------------------------------------------------

  /** A tree made only of text, line breaks and formatting or untyped
      elements: no markers, no image emoji and none of the kinds written as
      `html` tokens. */
  predicate Plain(n: Node)
    decreases n
  {
    match n
    case Text(_) => true
    case Br => true
    case Element(_, entity, isMarker, _, children) =>
      && !isMarker && !IsImageEmoji(n)
      && (entity.None? || entity.value !in HtmlWrappedKinds + {Pre, Blockquote})
      && PlainAll(children)
  }

  predicate PlainAll(ns: seq<Node>)
    decreases ns
  {
    forall i :: 0 <= i < |ns| ==> Plain(ns[i])
  }

  lemma {:induction false} TextOfAppend(a: seq<MarkedJS.Token>, b: seq<MarkedJS.Token>)
    ensures TextOf(a + b) == TextOf(a) + TextOf(b)
    decreases |b|
  {
    if b == [] {
      assert a + b == a;
    } else {
      var b' := b[..|b| - 1];
      assert (a + b)[..|a + b| - 1] == a + b';
      assert (a + b)[|a + b| - 1] == b[|b| - 1];
      TextOfAppend(a, b');
    }
  }

  lemma TextOfSingle(t: MarkedJS.Token)
    ensures TextOf([t]) == Contribution(t)
  {
    assert [t][..0] == [];
  }

  /** For a plain tree, the text the converter builds from the tree's
      tokens is the tree's inner text: the tokens lose nothing and add
      nothing. */
  lemma {:induction false} PlainTokensText(n: Node, extract: Node -> Option<CodeBlockData>)
    requires Plain(n)
    ensures NodeTokens(n, extract).Success?
    ensures TextOf(NodeTokens(n, extract).value) == InnerText(n)
    decreases n, 1
  {
    if n.Text? {
      TextOfSingle(TextToken(n.text, Some(n.text)));
    } else if n.Br? {
      TextOfSingle(BrToken);
    } else {
      PlainChildrenText(n.children, extract);
      var inner := ChildTokens(n.children, extract).value;
      PlainElementTokens(n, extract);
      ElementTokenText(n, inner);
    }
  }

  /** The token of an element contributes the element's inner text, when
      its children's tokens do. */
  lemma ElementTokenText(n: Node, inner: seq<MarkedJS.Token>)
    requires n.Element? && TextOf(inner) == TextContentAll(n.children, false, false)
    ensures TextOf([MarkedJS.Token(EntityTypeToTokenType(n.entity), OuterHtml(n), Some(InnerText(n)), true, inner, None, None)])
      == InnerText(n)
  {
    var tok := MarkedJS.Token(EntityTypeToTokenType(n.entity), OuterHtml(n), Some(InnerText(n)), true, inner, None, None);
    TextOfSingle(tok);
    assert InnerText(n) == TextContentAll(n.children, false, false);
  }

  /** A plain element is one token holding its children's tokens. */
  lemma PlainElementTokens(n: Node, extract: Node -> Option<CodeBlockData>)
    requires n.Element? && Plain(n) && ChildTokens(n.children, extract).Success?
    ensures NodeTokens(n, extract)
      == Success([MarkedJS.Token(EntityTypeToTokenType(n.entity), OuterHtml(n), Some(InnerText(n)), true,
                                 ChildTokens(n.children, extract).value, None, None)])
  {
  }

  lemma {:induction false} PlainChildrenText(ns: seq<Node>, extract: Node -> Option<CodeBlockData>)
    requires PlainAll(ns)
    ensures ChildTokens(ns, extract).Success?
    ensures TextOf(ChildTokens(ns, extract).value) == TextContentAll(ns, false, false)
    decreases ns, 0
  {
    if ns != [] {
      PlainTokensText(ns[0], extract);
      PlainChildrenText(ns[1..], extract);
      TextOfAppend(NodeTokens(ns[0], extract).value, ChildTokens(ns[1..], extract).value);
    }
  }

  /** Tokens the converter cannot fail on: no `html` token, whose pending
      entities may be malformed, and an own text wherever one may be
      needed. */
  predicate Safe(t: MarkedJS.Token)
    decreases t, 0
  {
    t.kind != MarkedJS.html && OwnText(t).Some? && (HasChildren(t) ==> SafeAll(t.tokens))
  }

  predicate SafeAll(ts: seq<MarkedJS.Token>)
    decreases ts, 1
  {
    forall i :: 0 <= i < |ts| ==> Safe(ts[i])
  }

  lemma {:induction false} SafeTokensSucceed(ts: seq<MarkedJS.Token>, init: Progress)
    requires SafeAll(ts)
    ensures ProcessTokens(ts, init).Success?
    decreases ts, 1
  {
    if ts != [] {
      var prefix := ts[..|ts| - 1];
      assert SafeAll(prefix) by {
        forall i | 0 <= i < |prefix| ensures Safe(prefix[i]) {
          assert prefix[i] == ts[i];
        }
      }
      SafeTokensSucceed(prefix, init);
      SafeTokenSucceeds(ProcessTokens(prefix, init).value, ts[|ts| - 1]);
    }
  }

  lemma {:induction false} SafeTokenSucceeds(st: Progress, t: MarkedJS.Token)
    requires Safe(t)
    ensures ProcessToken(st, t).Success?
    decreases t, 0
  {
    if HasChildren(t) {
      SafeTokensSucceed(t.tokens, Progress("", [], st.offset, st.pending));
    }
  }

  lemma {:induction false} SafeAllAppend(a: seq<MarkedJS.Token>, b: seq<MarkedJS.Token>)
    requires SafeAll(a) && SafeAll(b)
    ensures SafeAll(a + b)
  {
    forall i | 0 <= i < |a + b| ensures Safe((a + b)[i]) {
      if i < |a| {
        assert (a + b)[i] == a[i];
      } else {
        assert (a + b)[i] == b[i - |a|];
      }
    }
  }

  lemma {:induction false} PlainTokensSafe(n: Node, extract: Node -> Option<CodeBlockData>)
    requires Plain(n)
    ensures NodeTokens(n, extract).Success? && SafeAll(NodeTokens(n, extract).value)
    decreases n, 1
  {
    PlainTokensText(n, extract);
    if n.Element? {
      PlainChildrenSafe(n.children, extract);
    }
  }

  lemma {:induction false} PlainChildrenSafe(ns: seq<Node>, extract: Node -> Option<CodeBlockData>)
    requires PlainAll(ns)
    ensures ChildTokens(ns, extract).Success? && SafeAll(ChildTokens(ns, extract).value)
    decreases ns, 0
  {
    if ns != [] {
      PlainTokensSafe(ns[0], extract);
      PlainChildrenSafe(ns[1..], extract);
      SafeAllAppend(NodeTokens(ns[0], extract).value, ChildTokens(ns[1..], extract).value);
    }
  }

  /** On a plain tree the whole pipeline cannot fail, and it yields the
      tree's inner text with every entity inside it. */
  lemma PlainRoundTripText(root: Node, extract: Node -> Option<CodeBlockData>)
    requires Plain(root)
    ensures HtmlToFormattedText(root, extract).Success?
    ensures HtmlToFormattedText(root, extract).value.text == InnerText(root)
  {
    PlainTokensText(root, extract);
    PlainTokensSafe(root, extract);
    SafeTokensSucceed(NodeTokens(root, extract).value, Progress("", [], 0, []));
  }
}
