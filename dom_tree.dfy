/** The editor's document as a value: an abstract node tree standing in for
    the contenteditable DOM, its caret atoms, its text with line breaks and
    its HTML serialization (src/contest/text-editor/utils/index.ts,
    src/contest/text-editor/TokenHelper.tsx). */
module DomTree {
  import opened Wrappers
  import opened TextModel

  /** A DOM node. `entity` is the entity kind the editor's renderer recorded
      on an element (what `getEntityTypeFromNode` reads), `isMarker` whether
      its class list holds `markdown-marker`; `attrs` is the element's
      attribute list in document order. */
  datatype Node =
    | Text(text: string)
    | Br
    | Element(tag: string, entity: Option<EntityType>, isMarker: bool,
              attrs: seq<(string, string)>, children: seq<Node>)

  predicate IsCustomEmoji(n: Node) {
    n.Element? && n.entity == Some(CustomEmoji)
  }

  /** The value of the first attribute called `name`, if any. */
  function Attr(attrs: seq<(string, string)>, name: string): (r: Option<string>)
    ensures r.Some? <==> exists i :: 0 <= i < |attrs| && attrs[i].0 == name
  {
    if attrs == [] then None
    else if attrs[0].0 == name then Some(attrs[0].1)
    else Attr(attrs[1..], name)
  }

  /** An image emoji (`<img data-is-emoji="true">`), not a custom emoji. */
  predicate IsImageEmoji(n: Node) {
    n.Element? && n.tag == "img" && Attr(n.attrs, "data-is-emoji") == Some("true")
  }

  // ---------------------------------------------------------------------
  // Caret atoms: the nodes the editor's tree walker accepts
  // ---------------------------------------------------------------------

  /** What the caret walker counts: text nodes by their length, `<br>` and
      custom-emoji elements as one character each. */
  datatype Atom = TextAtom(text: string) | BrAtom | EmojiAtom

  function AtomWidth(a: Atom): nat {
    match a
    case TextAtom(t) => |t|
    case BrAtom => 1
    case EmojiAtom => 1
  }

  function Width(atoms: seq<Atom>): nat {
    if atoms == [] then 0 else AtomWidth(atoms[0]) + Width(atoms[1..])
  }

  lemma {:induction false} WidthAppend(a: seq<Atom>, b: seq<Atom>)
    ensures Width(a + b) == Width(a) + Width(b)
  {
    if a == [] {
      assert a + b == b;
    } else {
      assert (a + b)[1..] == a[1..] + b;
      WidthAppend(a[1..], b);
    }
  }

  lemma WidthSnoc(a: seq<Atom>, x: Atom)
    ensures Width(a + [x]) == Width(a) + AtomWidth(x)
  {
    WidthAppend(a, [x]);
    assert [x][1..] == [];
  }

  /** The atoms of a subtree in document order. The tree walker accepts a
      custom-emoji element and still descends into it, so the emoji's atom
      precedes the atoms of its children; any other element is skipped but
      walked through. */
  function Atoms(n: Node): seq<Atom>
    decreases n
  {
    match n
    case Text(t) => [TextAtom(t)]
    case Br => [BrAtom]
    case Element(_, entity, _, _, children) =>
      (if entity == Some(CustomEmoji) then [EmojiAtom] else []) + AtomsOfAll(children)
  }

  function AtomsOfAll(ns: seq<Node>): seq<Atom>
    decreases ns
  {
    if ns == [] then [] else Atoms(ns[0]) + AtomsOfAll(ns[1..])
  }

  lemma {:induction false} AtomsOfAllAppend(a: seq<Node>, b: seq<Node>)
    ensures AtomsOfAll(a + b) == AtomsOfAll(a) + AtomsOfAll(b)
  {
    if a == [] {
      assert a + b == b;
    } else {
      assert (a + b)[0] == a[0];
      assert (a + b)[1..] == a[1..] + b;
      AtomsOfAllAppend(a[1..], b);
    }
  }

  /** The walker starts below the root: the root itself is never an atom. */
  function DocumentAtoms(root: Node): seq<Atom> {
    if root.Element? then AtomsOfAll(root.children) else []
  }

  // ---------------------------------------------------------------------
  // getTextContentWithBreaks (utils/index.ts:724-737)
  // ---------------------------------------------------------------------

  /** The text of a subtree with `<br>` read as a newline. With
      `skipMarker`, markdown-marker elements contribute nothing; with
      `trim`, every element's joined text is trimmed, at every level. */
  function TextContent(n: Node, skipMarker: bool, trim: bool): string
    decreases n
  {
    match n
    case Text(t) => t
    case Br => "\n"
    case Element(_, _, isMarker, _, children) =>
      if skipMarker && isMarker then ""
      else
        var joined := TextContentAll(children, skipMarker, trim);
        if trim then Trim(joined) else joined
  }

  function TextContentAll(ns: seq<Node>, skipMarker: bool, trim: bool): string
    decreases ns
  {
    if ns == [] then "" else TextContent(ns[0], skipMarker, trim) + TextContentAll(ns[1..], skipMarker, trim)
  }

  lemma {:induction false} TextContentAllAppend(a: seq<Node>, b: seq<Node>, skipMarker: bool, trim: bool)
    ensures TextContentAll(a + b, skipMarker, trim) == TextContentAll(a, skipMarker, trim) + TextContentAll(b, skipMarker, trim)
  {
    if a == [] {
      assert a + b == b;
    } else {
      assert (a + b)[0] == a[0];
      assert (a + b)[1..] == a[1..] + b;
      TextContentAllAppend(a[1..], b, skipMarker, trim);
    }
  }

  /** In a subtree without marker elements, skipping markers changes
      nothing. */
  lemma {:induction false} SkipMarkerIrrelevantWithoutMarkers(n: Node, trim: bool)
    requires !HasMarker(n)
    ensures TextContent(n, true, trim) == TextContent(n, false, trim)
    decreases n
  {
    if n.Element? {
      SkipMarkerIrrelevantWithoutMarkersAll(n.children, trim);
    }
  }

  lemma {:induction false} SkipMarkerIrrelevantWithoutMarkersAll(ns: seq<Node>, trim: bool)
    requires !HasMarkerAll(ns)
    ensures TextContentAll(ns, true, trim) == TextContentAll(ns, false, trim)
    decreases ns
  {
    if ns != [] {
      SkipMarkerIrrelevantWithoutMarkers(ns[0], trim);
      SkipMarkerIrrelevantWithoutMarkersAll(ns[1..], trim);
    }
  }

  /** Whether a marker element occurs in the subtree. */
  predicate HasMarker(n: Node)
    decreases n
  {
    n.Element? && (n.isMarker || HasMarkerAll(n.children))
  }

  predicate HasMarkerAll(ns: seq<Node>)
    decreases ns
  {
    ns != [] && (HasMarker(ns[0]) || HasMarkerAll(ns[1..]))
  }

  // ---------------------------------------------------------------------
  // HTML serialization (outerHTML / innerHTML), as the HTML standard's
  // fragment serialization algorithm writes it
  // ---------------------------------------------------------------------

  /** Escaping of text content: `&`, no-break space, `<` and `>`. */
  function EscapeText(s: string): string {
    if s == [] then ""
    else
      (if s[0] == '&' then "&amp;"
       else if s[0] == '\U{A0}' then "&nbsp;"
       else if s[0] == '<' then "&lt;"
       else if s[0] == '>' then "&gt;"
       else [s[0]]) + EscapeText(s[1..])
  }

  /** Escaping of attribute values: `&`, no-break space, `"`, `<`, `>`. */
  function EscapeAttr(s: string): (r: string)
    ensures '>' !in r
  {
    if s == [] then ""
    else
      (if s[0] == '&' then "&amp;"
       else if s[0] == '\U{A0}' then "&nbsp;"
       else if s[0] == '"' then "&quot;"
       else if s[0] == '<' then "&lt;"
       else if s[0] == '>' then "&gt;"
       else [s[0]]) + EscapeAttr(s[1..])
  }

  /** Elements serialized without children or end tag. */
  predicate IsVoidTag(tag: string) {
    tag in {"area", "base", "br", "col", "embed", "hr", "img", "input", "link", "meta", "source", "track", "wbr"}
  }

  function SerializeAttrs(attrs: seq<(string, string)>): string {
    if attrs == [] then ""
    else " " + attrs[0].0 + "=\"" + EscapeAttr(attrs[0].1) + "\"" + SerializeAttrs(attrs[1..])
  }

  /** `<tag attr="value" ...>`. */
  function OpenTag(tag: string, attrs: seq<(string, string)>): string {
    "<" + tag + SerializeAttrs(attrs) + ">"
  }

  function OuterHtml(n: Node): string
    decreases n
  {
    match n
    case Text(t) => EscapeText(t)
    case Br => "<br>"
    case Element(tag, _, _, attrs, children) =>
      if IsVoidTag(tag) then OpenTag(tag, attrs)
      else OpenTag(tag, attrs) + InnerHtml(children) + "</" + tag + ">"
  }

  function InnerHtml(ns: seq<Node>): string
    decreases ns
  {
    if ns == [] then "" else OuterHtml(ns[0]) + InnerHtml(ns[1..])
  }

  /** `s.split('>')[0]`: the text before the first `>`. */
  function BeforeFirstGt(s: string): (r: string)
    ensures '>' !in r
  {
    if s == [] then "" else if s[0] == '>' then "" else [s[0]] + BeforeFirstGt(s[1..])
  }

  /** `outerHTML.split('>')[0] + '>'`, the way the source takes an
      element's start tag. */
  function StartTag(n: Node): string {
    BeforeFirstGt(OuterHtml(n)) + ">"
  }

  /** Tag and attribute names never contain `>`. */
  predicate WellFormedNames(tag: string, attrs: seq<(string, string)>) {
    '>' !in tag && forall i :: 0 <= i < |attrs| ==> '>' !in attrs[i].0
  }

  lemma {:induction false} BeforeFirstGtAppend(a: string, b: string)
    requires '>' !in a
    ensures BeforeFirstGt(a + b) == a + BeforeFirstGt(b)
  {
    if a != [] {
      assert (a + b)[1..] == a[1..] + b;
      assert (a + b)[0] == a[0];
      BeforeFirstGtAppend(a[1..], b);
    } else {
      assert a + b == b;
    }
  }

  lemma {:induction false} SerializeAttrsHasNoGt(attrs: seq<(string, string)>)
    requires forall i :: 0 <= i < |attrs| ==> '>' !in attrs[i].0
    ensures '>' !in SerializeAttrs(attrs)
  {
    if attrs != [] {
      SerializeAttrsHasNoGt(attrs[1..]);
    }
  }

  /** Because attribute values are serialized with `>` escaped, cutting the
      outer HTML at its first `>` yields exactly the element's start tag. */
  lemma StartTagIsOpenTag(n: Node)
    requires n.Element? && WellFormedNames(n.tag, n.attrs)
    ensures StartTag(n) == OpenTag(n.tag, n.attrs)
  {
    SerializeAttrsHasNoGt(n.attrs);
    var head := "<" + n.tag + SerializeAttrs(n.attrs);
    assert '>' !in head;
    var rest := if IsVoidTag(n.tag) then ">" else ">" + InnerHtml(n.children) + "</" + n.tag + ">";
    assert OuterHtml(n) == head + rest;
    BeforeFirstGtAppend(head, rest);
  }

  /** `innerText`, read as the text with line breaks and markers kept (the
      CSS-dependent parts of `innerText` are not modelled). */
  function InnerText(n: Node): string {
    TextContent(n, false, false)
  }

  /** What the code-block renderer's `extractCodeBlockData` reads out of a
      Pre element: its header and footer markers (absent once deleted),
      the language and the code. The extraction itself belongs to the
      code-block component, which is not part of this model; the
      conversions take it as a parameter. */
  datatype CodeBlockData = CodeBlockData(startMarker: Option<string>, language: string,
                                         codeContent: string, endMarker: Option<string>)
}
