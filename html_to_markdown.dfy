/** `htmlToMarkdown`: the walk that writes the editor's tree out in the
    composer's Markdown dialect, appending to one shared context that
    remembers the kind of the element just written, so that block-level
    entities always sit on lines of their own
    (src/contest/text-editor/TokenHelper.tsx:236-342). */
module HtmlToMarkdown {
  import opened Wrappers
  import opened TextModel
  import opened DomTree

  /** The shared context: the Markdown so far and the entity kind of the
      last node written. */
  datatype Context = Context(markdown: string, lastNodeEntityType: Option<EntityType>)

  predicate IsBlock(t: Option<EntityType>) {
    t == Some(Blockquote) || t == Some(Pre)
  }

  predicate EndsWithNewline(s: string) {
    |s| > 0 && s[|s| - 1] == '\n'
  }

  /** `addNewlineIfNeeded`: a newline unless the Markdown is empty or
      already ends with one. */
  function WithNewlineIfNeeded(c: Context): (r: Context)
    ensures r.lastNodeEntityType == c.lastNodeEntityType
    ensures r.markdown == "" || EndsWithNewline(r.markdown)
    ensures r.markdown == c.markdown || r.markdown == c.markdown + "\n"
  {
    if !EndsWithNewline(c.markdown) && c.markdown != "" then c.(markdown := c.markdown + "\n") else c
  }

  /** `addToMarkdown`: right after a block-level entity, and unless the
      Markdown is still empty, a newline goes first. */
  function WithMarkdown(c: Context, s: string): (r: Context)
    ensures r.lastNodeEntityType == c.lastNodeEntityType
    ensures IsBlock(c.lastNodeEntityType) && c.markdown != "" ==> r.markdown == c.markdown + "\n" + s
    ensures !(IsBlock(c.lastNodeEntityType) && c.markdown != "") ==> r.markdown == c.markdown + s
  {
    var prefix := if IsBlock(c.lastNodeEntityType) && c.markdown != "" then "\n" else "";
    c.(markdown := c.markdown + prefix + s)
  }

  /** The kinds written out verbatim as HTML. */
  const VerbatimKinds: set<EntityType> := {Mention, TextUrl, Url, Cashtag, Hashtag}

  /** A custom emoji's text: an image's `alt`, else `data-alt`, else
      nothing. */
  function EmojiText(n: Node): string
    requires n.Element?
  {
    var alt := if n.tag == "img" then Attr(n.attrs, "alt") else None;
    if alt.Some? && alt.value != "" then alt.value
    else
      var dataAlt := Attr(n.attrs, "data-alt");
      if dataAlt.Some? && dataAlt.value != "" then dataAlt.value else ""
  }

  /** The Markdown of a code block: its markers (empty once deleted), its
      language line and its code. */
  function CodeBlockMarkdown(cb: CodeBlockData): string {
    cb.startMarker.GetOr("") + cb.language + "\n" + cb.codeContent + "\n" + cb.endMarker.GetOr("")
  }

  /** A custom emoji written back as its start tag, its text and an end
      tag matching its element. */
  function CustomEmojiMarkdown(n: Node): string
    requires n.Element?
  {
    StartTag(n) + EmojiText(n) + (if n.tag == "img" then "</img>" else "</div>")
  }

  /** The context a Blockquote's children are written on: its start tag
      on a line of its own, and no kind remembered. */
  function OpenBlockquote(n: Node, c: Context): Context {
    WithMarkdown(WithNewlineIfNeeded(c), StartTag(n)).(lastNodeEntityType := None)
  }

  /** A code block on a line of its own; the walk stops if the code block
      cannot be read. */
  function PreMarkdown(n: Node, c: Context, extract: Node -> Option<CodeBlockData>): Result<Context, string> {
    match extract(n)
    case None => Failure(ExtractError)
    case Some(cb) => Success(WithMarkdown(WithNewlineIfNeeded(c), CodeBlockMarkdown(cb)))
  }

  const ExtractError := "Failed to extract code block."

  /** `processNode` on the context. */
  function NodeMarkdown(n: Node, c: Context, extract: Node -> Option<CodeBlockData>): (r: Result<Context, string>)
    ensures r.Failure? ==> r.error == ExtractError
    decreases n, 2
  {
    match n
    case Br => Success(WithMarkdown(c, "\n").(lastNodeEntityType := None))
    case Text(t) => Success(WithMarkdown(c, t).(lastNodeEntityType := None))
    case Element(_, entity, _, attrs, _) =>
      if IsImageEmoji(n) then
        Success(WithMarkdown(c, Attr(attrs, "alt").GetOr("")).(lastNodeEntityType := None))
      else
        match ElementMarkdown(n, c, extract)
        case Failure(e) => Failure(e)
        case Success(c2) => Success(c2.(lastNodeEntityType := entity))
  }

  /** The `switch` on an element's entity kind. */
  function ElementMarkdown(n: Node, c: Context, extract: Node -> Option<CodeBlockData>): (r: Result<Context, string>)
    requires n.Element?
    ensures r.Failure? ==> r.error == ExtractError
    decreases n, 1
  {
    if n.entity == Some(Pre) then PreMarkdown(n, c, extract)
    else if n.entity == Some(Blockquote) then
      match ChildrenMarkdown(n.children, OpenBlockquote(n, c), extract)
      case Failure(e) => Failure(e)
      case Success(c2) => Success(WithMarkdown(c2, "</span>"))
    else if n.entity.Some? && n.entity.value in VerbatimKinds then Success(WithMarkdown(c, OuterHtml(n)))
    else if n.entity == Some(CustomEmoji) then Success(WithMarkdown(c, CustomEmojiMarkdown(n)))
    else ChildrenMarkdown(n.children, c, extract)
  }

  /** `processChildsNodes`: the children in order, each on the context the
      previous one left. */
  function ChildrenMarkdown(ns: seq<Node>, c: Context, extract: Node -> Option<CodeBlockData>): (r: Result<Context, string>)
    ensures r.Failure? ==> r.error == ExtractError
    decreases ns, 0
  {
    if ns == [] then Success(c)
    else
      match ChildrenMarkdown(ns[..|ns| - 1], c, extract)
      case Failure(e) => Failure(e)
      case Success(c1) => NodeMarkdown(ns[|ns| - 1], c1, extract)
  }

  /** The Markdown of a tree, the root included. */
  function MarkdownOf(root: Node, extract: Node -> Option<CodeBlockData>): Result<string, string> {
    match NodeMarkdown(root, Context("", None), extract)
    case Failure(e) => Failure(e)
    case Success(c) => Success(c.markdown)
  }

  /** The shared context object of `htmlToMarkdown`, which the walk's
      inner functions update in place. */
  class MarkdownContext {
    var markdown: string
    var lastNodeEntityType: Option<EntityType>

    function State(): Context
      reads this
    {
      Context(markdown, lastNodeEntityType)
    }

    constructor ()
      ensures State() == Context("", None)
    {
      markdown := "";
      lastNodeEntityType := None;
    }

    method AddNewlineIfNeeded()
      modifies this
      ensures State() == WithNewlineIfNeeded(old(State()))
    {
      if !(|markdown| > 0 && markdown[|markdown| - 1] == '\n') && markdown != "" {
        markdown := markdown + "\n";
      }
    }

    method AddToMarkdown(s: string)
      modifies this
      ensures State() == WithMarkdown(old(State()), s)
    {
      if (lastNodeEntityType == Some(Blockquote) || lastNodeEntityType == Some(Pre)) && markdown != "" {
        markdown := markdown + "\n";
      }
      markdown := markdown + s;
    }

    method ProcessNode(n: Node, extract: Node -> Option<CodeBlockData>) returns (r: Result<(), string>)
      modifies this
      ensures r.Success? <==> NodeMarkdown(n, old(State()), extract).Success?
      ensures r.Success? ==> State() == NodeMarkdown(n, old(State()), extract).value
      ensures r.Failure? ==> r.error == ExtractError
      decreases n, 1
    {
      match n {
        case Br =>
          AddToMarkdown("\n");
          lastNodeEntityType := None;
        case Text(t) =>
          AddToMarkdown(t);
          lastNodeEntityType := None;
        case Element(tag, entity, _, attrs, children) =>
          if IsImageEmoji(n) {
            AddToMarkdown(Attr(attrs, "alt").GetOr(""));
            lastNodeEntityType := None;
          } else if entity == Some(Pre) {
            AddNewlineIfNeeded();
            var cb := extract(n);
            if cb.None? {
              return Failure(ExtractError);
            }
            AddToMarkdown(CodeBlockMarkdown(cb.value));
            lastNodeEntityType := entity;
          } else if entity == Some(Blockquote) {
            ghost var c0 := State();
            AddNewlineIfNeeded();
            AddToMarkdown(StartTag(n));
            lastNodeEntityType := None;
            assert State() == OpenBlockquote(n, c0);
            r := ProcessChildNodes(children, extract);
            if r.Failure? {
              return;
            }
            AddToMarkdown("</span>");
            lastNodeEntityType := entity;
          } else if entity.Some? && entity.value in VerbatimKinds {
            AddToMarkdown(OuterHtml(n));
            lastNodeEntityType := entity;
          } else if entity == Some(CustomEmoji) {
            var startTag := StartTag(n);
            var emoji := EmojiText(n);
            var endTag := if tag == "img" then "</img>" else "</div>";
            AddToMarkdown(startTag + emoji + endTag);
            lastNodeEntityType := entity;
          } else {
            r := ProcessChildNodes(children, extract);
            if r.Failure? {
              return;
            }
            lastNodeEntityType := entity;
          }
      }
      r := Success(());
    }

    method ProcessChildNodes(ns: seq<Node>, extract: Node -> Option<CodeBlockData>) returns (r: Result<(), string>)
      modifies this
      ensures r.Success? <==> ChildrenMarkdown(ns, old(State()), extract).Success?
      ensures r.Success? ==> State() == ChildrenMarkdown(ns, old(State()), extract).value
      ensures r.Failure? ==> r.error == ExtractError
      decreases ns, 0
    {
      ghost var start := State();
      var i := 0;
      while i < |ns|
        invariant 0 <= i <= |ns|
        invariant ChildrenMarkdown(ns[..i], start, extract) == Success(State())
      {
        assert ns[..i + 1][..i] == ns[..i];
        r := ProcessNode(ns[i], extract);
        if r.Failure? {
          ChildrenFailureExtends(ns, i + 1, start, extract);
          return;
        }
        i := i + 1;
      }
      assert ns[..|ns|] == ns;
      r := Success(());
    }
  }

  /** Once a prefix of the children fails, so do all of them. */
  lemma {:induction false} ChildrenFailureExtends(ns: seq<Node>, k: nat, c: Context, extract: Node -> Option<CodeBlockData>)
    requires k <= |ns| && ChildrenMarkdown(ns[..k], c, extract).Failure?
    ensures ChildrenMarkdown(ns, c, extract).Failure?
    decreases |ns| - k
  {
    if k == |ns| {
      assert ns[..k] == ns;
    } else {
      assert ns[..k + 1][..k] == ns[..k];
      ChildrenFailureExtends(ns, k + 1, c, extract);
    }
  }

  /** `htmlToMarkdown`: the root itself is processed on a fresh context. */
  method HtmlToMarkdown(root: Node, extract: Node -> Option<CodeBlockData>) returns (r: Result<string, string>)
    ensures r == MarkdownOf(root, extract)
  {
    var context := new MarkdownContext();
    var done := context.ProcessNode(root, extract);
    if done.Failure? {
      return Failure(done.error);
    }
    r := Success(context.markdown);
  }

  // ---------------------------------------------------------------------
  // Properties
  // ---------------------------------------------------------------------

  /** The kinds (and the absence of one) whose elements the walk only
      descends into. */
  predicate ChildrenOnly(entity: Option<EntityType>) {
    entity.None? || !(entity.value in {Pre, Blockquote, CustomEmoji} + VerbatimKinds)
  }

  /** A tree with no block-level, verbatim or emoji element: only text,
      line breaks and elements that contribute their children. */
  predicate Inline(n: Node)
    decreases n
  {
    match n
    case Text(_) => true
    case Br => true
    case Element(_, entity, _, _, children) =>
      && !IsImageEmoji(n)
      && ChildrenOnly(entity)
      && InlineAll(children)
  }

  predicate InlineAll(ns: seq<Node>)
    decreases ns
  {
    forall i :: 0 <= i < |ns| ==> Inline(ns[i])
  }

  /** An inline subtree after anything but a block appends exactly its
      inner text, markers included, and leaves no block kind behind. */
  lemma {:induction false} InlineMarkdownIsInnerText(n: Node, c: Context, extract: Node -> Option<CodeBlockData>)
    requires Inline(n) && !IsBlock(c.lastNodeEntityType)
    ensures NodeMarkdown(n, c, extract).Success?
    ensures NodeMarkdown(n, c, extract).value.markdown == c.markdown + InnerText(n)
    ensures !IsBlock(NodeMarkdown(n, c, extract).value.lastNodeEntityType)
    decreases n, 1
  {
    match n
    case Text(_) =>
    case Br =>
    case Element(_, entity, _, _, children) =>
      InlineChildrenMarkdown(children, c, extract);
      InlineElementIsChildren(n, c, extract);
      var c2 := ChildrenMarkdown(children, c, extract).value;
      assert NodeMarkdown(n, c, extract) == Success(c2.(lastNodeEntityType := entity));
      assert InnerText(n) == TextContentAll(children, false, false);
  }

  lemma InlineElementIsChildren(n: Node, c: Context, extract: Node -> Option<CodeBlockData>)
    requires n.Element? && Inline(n)
    ensures ElementMarkdown(n, c, extract) == ChildrenMarkdown(n.children, c, extract)
  {
  }

  lemma {:induction false} InlineChildrenMarkdown(ns: seq<Node>, c: Context, extract: Node -> Option<CodeBlockData>)
    requires InlineAll(ns) && !IsBlock(c.lastNodeEntityType)
    ensures ChildrenMarkdown(ns, c, extract).Success?
    ensures ChildrenMarkdown(ns, c, extract).value.markdown == c.markdown + TextContentAll(ns, false, false)
    ensures !IsBlock(ChildrenMarkdown(ns, c, extract).value.lastNodeEntityType)
    decreases ns, 0
  {
    if ns != [] {
      var prefix := ns[..|ns| - 1];
      var last := ns[|ns| - 1];
      assert InlineAll(prefix) by {
        forall i | 0 <= i < |prefix| ensures Inline(prefix[i]) {
          assert prefix[i] == ns[i];
        }
      }
      InlineChildrenMarkdown(prefix, c, extract);
      var c1 := ChildrenMarkdown(prefix, c, extract).value;
      InlineMarkdownIsInnerText(last, c1, extract);
      assert ChildrenMarkdown(ns, c, extract) == NodeMarkdown(last, c1, extract);
      assert prefix + [last] == ns;
      TextContentAllAppend(prefix, [last], false, false);
      assert TextContentAll([last], false, false) == InnerText(last) by {
        assert [last][1..] == [];
      }
    }
  }

  /** The Markdown of an inline tree is its inner text. */
  lemma InlineTreeMarkdown(root: Node, extract: Node -> Option<CodeBlockData>)
    requires Inline(root)
    ensures MarkdownOf(root, extract) == Success(InnerText(root))
  {
    InlineMarkdownIsInnerText(root, Context("", None), extract);
    assert "" + InnerText(root) == InnerText(root);
  }

  /** The walk only ever appends. */
  lemma {:induction false} NodeMarkdownExtends(n: Node, c: Context, extract: Node -> Option<CodeBlockData>)
    requires NodeMarkdown(n, c, extract).Success?
    ensures IsPrefix(c.markdown, NodeMarkdown(n, c, extract).value.markdown)
    decreases n, 2
  {
    if n.Element? && !IsImageEmoji(n) {
      ElementMarkdownExtends(n, c, extract);
    }
  }

  lemma {:induction false} ElementMarkdownExtends(n: Node, c: Context, extract: Node -> Option<CodeBlockData>)
    requires n.Element? && ElementMarkdown(n, c, extract).Success?
    ensures IsPrefix(c.markdown, ElementMarkdown(n, c, extract).value.markdown)
    decreases n, 1
  {
    if n.entity == Some(Blockquote) {
      var c1 := OpenBlockquote(n, c);
      ChildrenMarkdownExtends(n.children, c1, extract);
      PrefixTransitive(c.markdown, c1.markdown, ChildrenMarkdown(n.children, c1, extract).value.markdown);
    } else if n.entity != Some(Pre) && !(n.entity.Some? && n.entity.value in VerbatimKinds) && n.entity != Some(CustomEmoji) {
      ChildrenMarkdownExtends(n.children, c, extract);
    }
  }

  lemma {:induction false} ChildrenMarkdownExtends(ns: seq<Node>, c: Context, extract: Node -> Option<CodeBlockData>)
    requires ChildrenMarkdown(ns, c, extract).Success?
    ensures IsPrefix(c.markdown, ChildrenMarkdown(ns, c, extract).value.markdown)
    decreases ns, 0
  {
    if ns != [] {
      var prefix := ns[..|ns| - 1];
      ChildrenMarkdownExtends(prefix, c, extract);
      var c1 := ChildrenMarkdown(prefix, c, extract).value;
      NodeMarkdownExtends(ns[|ns| - 1], c1, extract);
      PrefixTransitive(c.markdown, c1.markdown, ChildrenMarkdown(ns, c, extract).value.markdown);
    }
  }

  predicate IsPrefix(a: string, b: string) {
    |a| <= |b| && b[..|a|] == a
  }

  lemma PrefixTransitive(a: string, b: string, c: string)
    requires IsPrefix(a, b) && IsPrefix(b, c)
    ensures IsPrefix(a, c)
  {
    assert c[..|a|] == c[..|b|][..|a|];
  }

  /** A code block starts on a line of its own: the earlier Markdown, then
      (unless there was none) a newline, then the code block, after which
      the context remembers the block. */
  lemma PreStartsOnOwnLine(n: Node, c: Context, extract: Node -> Option<CodeBlockData>)
    requires n.Element? && !IsImageEmoji(n) && n.entity == Some(Pre)
    requires NodeMarkdown(n, c, extract).Success?
    ensures extract(n).Some?
    ensures var r := NodeMarkdown(n, c, extract).value;
      && r.lastNodeEntityType == Some(Pre)
      && OnOwnLine(c.markdown, r.markdown, CodeBlockMarkdown(extract(n).value))
  {
  }

  /** A Blockquote's start tag starts on a line of its own, and so does
      whatever follows the quote. */
  lemma BlockquoteStartsOnOwnLine(n: Node, c: Context, extract: Node -> Option<CodeBlockData>)
    requires n.Element? && !IsImageEmoji(n) && n.entity == Some(Blockquote)
    requires NodeMarkdown(n, c, extract).Success?
    ensures var r := NodeMarkdown(n, c, extract).value;
      && r.lastNodeEntityType == Some(Blockquote)
      && OnOwnLine(c.markdown, OpenBlockquote(n, c).markdown, StartTag(n))
      && IsPrefix(OpenBlockquote(n, c).markdown, r.markdown)
  {
    var c1 := OpenBlockquote(n, c);
    ChildrenMarkdownExtends(n.children, c1, extract);
    var c2 := ChildrenMarkdown(n.children, c1, extract).value;
    PrefixTransitive(c1.markdown, c2.markdown, WithMarkdown(c2, "</span>").markdown);
  }

  /** `after` is `before`, then a line break unless `before` is empty or
      already ends in one, then possibly one more newline, then `s` (the
      extra newline comes from a block kind remembered before). */
  predicate OnOwnLine(before: string, after: string, s: string) {
    var lined := if before == "" || EndsWithNewline(before) then before else before + "\n";
    after == lined + s || (lined != "" && after == lined + "\n" + s)
  }

  /** After a block, the next node's text starts on a new line. */
  lemma AfterBlockNewLine(n: Node, c: Context, extract: Node -> Option<CodeBlockData>)
    requires IsBlock(c.lastNodeEntityType) && c.markdown != ""
    requires n.Text? || n.Br?
    ensures NodeMarkdown(n, c, extract).Success?
    ensures NodeMarkdown(n, c, extract).value.markdown == c.markdown + "\n" + (if n.Br? then "\n" else n.text)
  {
  }
}
