/** Edits of the editor's tree: unwrapping an element into its parent,
    adding text around the selection, inserting a hard break, and finding
    the topmost formatting element above the caret
    (src/contest/text-editor/utils/index.ts:430-497, 597-629, 791-817). */
module DomEdit {
  import opened Wrappers
  import opened TextModel
  import opened DomTree
  import opened Caret

  // ---------------------------------------------------------------------
  // Paths into the tree
  // ---------------------------------------------------------------------

  /** `path` names a node: every step goes into an element's children. */
  predicate ValidPath(n: Node, path: seq<nat>)
    decreases |path|
  {
    path == [] || (n.Element? && path[0] < |n.children| && ValidPath(n.children[path[0]], path[1..]))
  }

  function NodeAt(n: Node, path: seq<nat>): Node
    requires ValidPath(n, path)
    decreases |path|
  {
    if path == [] then n else NodeAt(n.children[path[0]], path[1..])
  }

  /** The tree with the node at `path` replaced by `m`. */
  function ReplaceAt(n: Node, path: seq<nat>, m: Node): (r: Node)
    requires ValidPath(n, path)
    ensures ValidPath(r, path) && NodeAt(r, path) == m
    ensures path != [] ==> r.Element?
    decreases |path|
  {
    if path == [] then m
    else
      var k := path[0];
      var r := n.(children := n.children[k := ReplaceAt(n.children[k], path[1..], m)]);
      assert r.children[k] == ReplaceAt(n.children[k], path[1..], m);
      r
  }

  /** How a boundary point's offset fits its container. */
  predicate PointFits(c: Node, offset: nat) {
    match c
    case Text(t) => offset <= |t|
    case Br => offset == 0
    case Element(_, _, _, _, children) => offset <= |children|
  }

  lemma {:induction false} ValidPointIsValidPath(n: Node, path: seq<nat>, offset: nat)
    ensures ValidPointIn(n, path, offset) <==> ValidPath(n, path) && PointFits(NodeAt(n, path), offset)
    decreases |path|
  {
    if path != [] && n.Element? && path[0] < |n.children| {
      ValidPointIsValidPath(n.children[path[0]], path[1..], offset);
    }
  }

  lemma {:induction false} ValidPathPrefix(n: Node, path: seq<nat>, k: nat)
    requires ValidPath(n, path) && k <= |path|
    ensures ValidPath(n, path[..k])
    decreases |path|
  {
    if k > 0 {
      ValidPathPrefix(n.children[path[0]], path[1..], k - 1);
      assert path[1..][..k - 1] == path[..k][1..];
    }
  }

  /** The step after a prefix of a valid path goes into an element. */
  lemma {:induction false} ValidPathStep(n: Node, path: seq<nat>, k: nat)
    requires ValidPath(n, path) && k < |path|
    ensures ValidPath(n, path[..k]) && ValidPath(n, path[..k + 1])
    ensures NodeAt(n, path[..k]).Element? && path[k] < |NodeAt(n, path[..k]).children|
    ensures NodeAt(n, path[..k + 1]) == NodeAt(n, path[..k]).children[path[k]]
    decreases |path|
  {
    if k == 0 {
      assert path[..1][1..] == [];
    } else {
      ValidPathStep(n.children[path[0]], path[1..], k - 1);
      assert path[1..][..k - 1] == path[..k][1..];
      assert path[1..][..k] == path[..k + 1][1..];
    }
  }

  /** The node at `path` after inserting `x` among the children of the
      element at `parentPath`, at index `index`. */
  function InsertChild(n: Node, parentPath: seq<nat>, index: nat, x: Node): (r: Node)
    requires ValidPath(n, parentPath) && NodeAt(n, parentPath).Element?
    requires index <= |NodeAt(n, parentPath).children|
    ensures ValidPath(r, parentPath)
    ensures var p := NodeAt(n, parentPath);
      NodeAt(r, parentPath) == p.(children := p.children[..index] + [x] + p.children[index..])
  {
    var p := NodeAt(n, parentPath);
    ReplaceAt(n, parentPath, p.(children := p.children[..index] + [x] + p.children[index..]))
  }

  /** What a node looks like to an edit at a boundary point: its text, a
      line break, or some element. */
  datatype NodeKind = TextKind(text: string) | BrKind | ElementKind

  function Kind(n: Node): NodeKind {
    match n
    case Text(t) => TextKind(t)
    case Br => BrKind
    case Element(_, _, _, _, _) => ElementKind
  }

  /** Where a path goes once a child has been inserted at `index` among the
      children of the element at `parentPath`: paths through a later
      sibling move one place on. */
  function ShiftPath(q: seq<nat>, parentPath: seq<nat>, index: nat): seq<nat> {
    if |q| > |parentPath| && q[..|parentPath|] == parentPath && q[|parentPath|] >= index
    then q[|parentPath| := q[|parentPath|] + 1]
    else q
  }

  lemma ShiftPathStep(i: nat, rest: seq<nat>, pr: seq<nat>, index: nat)
    ensures ShiftPath([i] + rest, [i] + pr, index) == [i] + ShiftPath(rest, pr, index)
  {
    var q, pp := [i] + rest, [i] + pr;
    if |rest| > |pr| {
      assert q[..|pp|] == [i] + rest[..|pr|];
      assert q[..|pp|] == pp <==> rest[..|pr|] == pr by {
        if q[..|pp|] == pp {
          assert rest[..|pr|] == q[..|pp|][1..];
        }
      }
      assert q[|pp|] == rest[|pr|];
      assert q[|pp| := q[|pp|] + 1] == [i] + rest[|pr| := rest[|pr|] + 1];
    }
  }

  lemma ShiftPathOther(i: nat, rest: seq<nat>, pp: seq<nat>, index: nat)
    requires pp != [] && pp[0] != i
    ensures ShiftPath([i] + rest, pp, index) == [i] + rest
  {
    var q := [i] + rest;
    if |q| > |pp| {
      assert q[..|pp|][0] != pp[0];
    }
  }

  /** A node keeps its place, up to the shift, and its kind when a child is
      inserted elsewhere in the tree. */
  lemma {:induction false} InsertChildKeepsNodes(n: Node, parentPath: seq<nat>, index: nat, x: Node, q: seq<nat>)
    requires ValidPath(n, parentPath) && NodeAt(n, parentPath).Element?
    requires index <= |NodeAt(n, parentPath).children|
    requires ValidPath(n, q)
    ensures var r := InsertChild(n, parentPath, index, x); var q' := ShiftPath(q, parentPath, index);
      ValidPath(r, q') && Kind(NodeAt(r, q')) == Kind(NodeAt(n, q))
    decreases |parentPath|
  {
    var r := InsertChild(n, parentPath, index, x);
    if q == [] {
    } else if parentPath == [] {
      var ch := n.children;
      var j := q[0];
      assert r.children == ch[..index] + [x] + ch[index..];
      if j >= index {
        assert ShiftPath(q, parentPath, index) == [j + 1] + q[1..];
        assert r.children[j + 1] == ch[j];
      } else {
        assert ShiftPath(q, parentPath, index) == q;
        assert r.children[j] == ch[j];
      }
    } else {
      var i := parentPath[0];
      var child := n.children[i];
      assert r.children == n.children[i := InsertChild(child, parentPath[1..], index, x)];
      if q[0] == i {
        InsertChildKeepsNodes(child, parentPath[1..], index, x, q[1..]);
        ShiftPathStep(i, q[1..], parentPath[1..], index);
        assert q == [i] + q[1..] && parentPath == [i] + parentPath[1..];
      } else {
        ShiftPathOther(q[0], q[1..], parentPath, index);
        assert q == [q[0]] + q[1..];
      }
    }
  }

  /** Replacing a text node by another text node keeps every other node
      in place and of the same kind. */
  lemma {:induction false} ReplaceTextKeepsNodes(n: Node, tp: seq<nat>, m: Node, q: seq<nat>)
    requires ValidPath(n, tp) && NodeAt(n, tp).Text? && m.Text?
    requires ValidPath(n, q) && q != tp
    ensures var r := ReplaceAt(n, tp, m);
      ValidPath(r, q) && Kind(NodeAt(r, q)) == Kind(NodeAt(n, q))
    decreases |tp|
  {
    var r := ReplaceAt(n, tp, m);
    if q == [] {
      assert tp != [];
    } else if tp == [] {
      assert false;
    } else {
      var i := tp[0];
      assert r.children == n.children[i := ReplaceAt(n.children[i], tp[1..], m)];
      if q[0] == i {
        assert q[1..] != tp[1..] by { assert q == [i] + q[1..] && tp == [i] + tp[1..]; }
        ReplaceTextKeepsNodes(n.children[i], tp[1..], m, q[1..]);
      }
    }
  }

  // ---------------------------------------------------------------------
  // moveContentOutsideOfElement (utils/index.ts:430-447)
  // ---------------------------------------------------------------------

  /** `isMarkdownMarker`: an element whose class list holds
      `markdown-marker` (src/contest/text-editor/index.tsx:13-15). */
  predicate IsMarkdownMarker(n: Node) {
    n.Element? && n.isMarker
  }

  function ChildrenOf(n: Node): seq<Node> {
    if n.Element? then n.children else []
  }

  /** The nodes of `ns` that are not excluded, in order. */
  function Kept(ns: seq<Node>, exclude: Node -> bool): (r: seq<Node>)
    ensures forall c :: c in r ==> c in ns && !exclude(c)
    ensures forall c :: c in ns && !exclude(c) ==> c in r
    decreases |ns|
  {
    if ns == [] then []
    else
      var init := Kept(ns[..|ns| - 1], exclude);
      var last := ns[|ns| - 1];
      assert ns == ns[..|ns| - 1] + [last];
      if exclude(last) then init else init + [last]
  }

  /** A single node is kept exactly when it is not excluded. */
  lemma KeptOne(n: Node, exclude: Node -> bool)
    ensures Kept([n], exclude) == if exclude(n) then [] else [n]
  {
    assert [n][..0] == [];
  }

  /** The filter works piece by piece: with `KeptOne`, the kept children
      are the ones not excluded, each once, in their original order. */
  lemma {:induction false} KeptAppend(a: seq<Node>, b: seq<Node>, exclude: Node -> bool)
    ensures Kept(a + b, exclude) == Kept(a, exclude) + Kept(b, exclude)
    decreases |b|
  {
    if b == [] {
      assert a + b == a;
    } else {
      var init := b[..|b| - 1];
      assert (a + b)[..|a + b| - 1] == a + init;
      assert (a + b)[|a + b| - 1] == b[|b| - 1];
      KeptAppend(a, init, exclude);
    }
  }

  /** The loop of `moveContentOutsideOfElement` that moves each child
      not excluded into a fragment, in order. */
  method CollectKept(children: seq<Node>, shouldExclude: Node -> bool) returns (fragment: seq<Node>)
    ensures fragment == Kept(children, shouldExclude)
  {
    fragment := [];
    var i := 0;
    while i < |children|
      invariant 0 <= i <= |children|
      invariant fragment == Kept(children[..i], shouldExclude)
    {
      assert children[..i + 1][..i] == children[..i];
      if !shouldExclude(children[i]) {
        fragment := fragment + [children[i]];
      }
      i := i + 1;
    }
    assert children[..i] == children;
  }

  /** The tree after the element at `path` has been replaced, in its
      parent, by its children that are not excluded. */
  function Unwrap(root: Node, path: seq<nat>, exclude: Node -> bool): Node
    requires |path| >= 1 && ValidPath(root, path)
  {
    var parentPath := path[..|path| - 1];
    var k := path[|path| - 1];
    ValidPathStep(root, path, |path| - 1);
    var parent := NodeAt(root, parentPath);
    var ch := parent.children;
    ReplaceAt(root, parentPath, parent.(children := ch[..k] + Kept(ChildrenOf(ch[k]), exclude) + ch[k + 1..]))
  }

  /** Marker elements hold no visible text: with markers skipped the kept
      children read like all of them. */
  lemma {:induction false} KeptMarkersText(ns: seq<Node>, exclude: Node -> bool)
    requires forall c :: c in ns && exclude(c) ==> IsMarkdownMarker(c)
    ensures TextContentAll(Kept(ns, exclude), true, false) == TextContentAll(ns, true, false)
    decreases |ns|
  {
    if ns != [] {
      var init := ns[..|ns| - 1];
      var last := ns[|ns| - 1];
      assert ns == init + [last];
      KeptMarkersText(init, exclude);
      TextContentAllAppend(init, [last], true, false);
      assert TextContentAll([last], true, false) == TextContent(last, true, false) by {
        assert [last][1..] == [];
      }
      if !exclude(last) {
        TextContentAllAppend(Kept(init, exclude), [last], true, false);
      }
    }
  }

  lemma TextContentAllUpdate(ch: seq<Node>, k: nat, x: Node, trim: bool)
    requires k < |ch|
    requires TextContent(x, true, trim) == TextContent(ch[k], true, trim)
    ensures TextContentAll(ch[k := x], true, trim) == TextContentAll(ch, true, trim)
  {
    assert ch == ch[..k] + [ch[k]] + ch[k + 1..];
    assert ch[k := x] == ch[..k] + [x] + ch[k + 1..];
    TextContentAllAppend(ch[..k] + [ch[k]], ch[k + 1..], true, trim);
    TextContentAllAppend(ch[..k], [ch[k]], true, trim);
    TextContentAllAppend(ch[..k] + [x], ch[k + 1..], true, trim);
    TextContentAllAppend(ch[..k], [x], true, trim);
    assert [x][1..] == [] && [ch[k]][1..] == [];
  }

  /** Replacing a subtree by one that reads the same leaves the text of
      the whole tree, markers skipped, as it was. */
  lemma {:induction false} ReplaceKeepsText(n: Node, path: seq<nat>, m: Node)
    requires ValidPath(n, path)
    requires TextContent(m, true, false) == TextContent(NodeAt(n, path), true, false)
    ensures TextContent(ReplaceAt(n, path, m), true, false) == TextContent(n, true, false)
    decreases |path|
  {
    if path != [] {
      var k := path[0];
      ReplaceKeepsText(n.children[k], path[1..], m);
      TextContentAllUpdate(n.children, k, ReplaceAt(n.children[k], path[1..], m), false);
    }
  }

  /** In a child list, replacing child `k` by its kept children leaves the
      text, markers skipped, as it was. */
  lemma UnwrapChildrenText(ch: seq<Node>, k: nat, exclude: Node -> bool)
    requires k < |ch| && ch[k].Element? && !ch[k].isMarker
    requires forall c :: c in ch[k].children && exclude(c) ==> IsMarkdownMarker(c)
    ensures TextContentAll(ch[..k] + Kept(ch[k].children, exclude) + ch[k + 1..], true, false)
         == TextContentAll(ch, true, false)
  {
    KeptMarkersText(ch[k].children, exclude);
    SpliceText(ch, k, Kept(ch[k].children, exclude));
  }

  /** Nodes that read like child `k` can stand in its place. */
  lemma SpliceText(ch: seq<Node>, k: nat, mid: seq<Node>)
    requires k < |ch| && TextContentAll(mid, true, false) == TextContent(ch[k], true, false)
    ensures TextContentAll(ch[..k] + mid + ch[k + 1..], true, false) == TextContentAll(ch, true, false)
  {
    var x := ch[k];
    assert ch == ch[..k] + [x] + ch[k + 1..];
    TextContentAllAppend(ch[..k] + mid, ch[k + 1..], true, false);
    TextContentAllAppend(ch[..k], mid, true, false);
    TextContentAllAppend(ch[..k] + [x], ch[k + 1..], true, false);
    TextContentAllAppend(ch[..k], [x], true, false);
    assert TextContentAll([x], true, false) == TextContent(x, true, false) by { assert [x][1..] == []; }
  }

  /** Unwrapping a formatting element and dropping its marker children
      leaves the editor's visible text unchanged. */
  lemma UnwrapKeepsVisibleText(root: Node, path: seq<nat>, exclude: Node -> bool)
    requires |path| >= 1 && ValidPath(root, path)
    requires var e := NodeAt(root, path); e.Element? && !e.isMarker
    requires forall c :: c in ChildrenOf(NodeAt(root, path)) && exclude(c) ==> IsMarkdownMarker(c)
    ensures TextContent(Unwrap(root, path, exclude), true, false) == TextContent(root, true, false)
  {
    var parentPath := path[..|path| - 1];
    var k := path[|path| - 1];
    ValidPathStep(root, path, |path| - 1);
    assert path[..|path| - 1 + 1] == path;
    var parent := NodeAt(root, parentPath);
    var ch := parent.children;
    UnwrapChildrenText(ch, k, exclude);
    var newParent := parent.(children := ch[..k] + Kept(ch[k].children, exclude) + ch[k + 1..]);
    assert TextContent(newParent, true, false) == TextContent(parent, true, false);
    ReplaceKeepsText(root, parentPath, newParent);
  }

  // ---------------------------------------------------------------------
  // addTextAtStartAndEndOfSelection (utils/index.ts:449-497)
  // ---------------------------------------------------------------------

  /** Where inserting at a boundary point put the new text: into a text
      node, as a new child of an element, or outside the editor (before
      the root, whose parent is not part of this model). */
  datatype Insertion = IntoText(path: seq<nat>) | Spliced(parent: seq<nat>, index: nat) | Outside

  /** Inserts `s` at a boundary point: into a text container at the
      offset; for an element container at offset 0, as a text node before
      the element; otherwise as a text node before the child at the
      offset. */
  function InsertAtPoint(root: Node, p: DomPoint, s: string): (r: (Node, Insertion))
    requires ValidPath(root, p.path) && PointFits(NodeAt(root, p.path), p.offset)
    ensures r.1.IntoText? ==> r.1.path == p.path
    ensures r.1.Spliced? ==> ValidPath(root, r.1.parent) && NodeAt(root, r.1.parent).Element?
                             && r.1.index <= |NodeAt(root, r.1.parent).children|
  {
    var c := NodeAt(root, p.path);
    if c.Text? then
      (ReplaceAt(root, p.path, Text(c.text[..p.offset] + s + c.text[p.offset..])), IntoText(p.path))
    else if p.offset == 0 then
      if p.path == [] then (root, Outside)
      else
        var k := |p.path| - 1;
        ValidPathStep(root, p.path, k);
        (InsertChild(root, p.path[..k], p.path[k], Text(s)), Spliced(p.path[..k], p.path[k]))
    else
      (InsertChild(root, p.path, p.offset, Text(s)), Spliced(p.path, p.offset))
  }

  /** Where a node's path goes after an insertion. */
  function PathAfter(q: seq<nat>, ins: Insertion): seq<nat> {
    if ins.Spliced? then ShiftPath(q, ins.parent, ins.index) else q
  }

  /** After inserting at a point, every other node is found at its shifted
      path with its kind unchanged; the text container that took the text
      holds the longer text. */
  lemma InsertAtPointKeepsNodes(root: Node, p: DomPoint, s: string, q: seq<nat>)
    requires ValidPath(root, p.path) && PointFits(NodeAt(root, p.path), p.offset)
    requires ValidPath(root, q)
    ensures var (r, ins) := InsertAtPoint(root, p, s); var q' := PathAfter(q, ins);
      ValidPath(r, q')
      && (ins.IntoText? && q == p.path ==>
            var t := NodeAt(root, q).text; NodeAt(r, q') == Text(t[..p.offset] + s + t[p.offset..]))
      && (!(ins.IntoText? && q == p.path) ==> Kind(NodeAt(r, q')) == Kind(NodeAt(root, q)))
  {
    var c := NodeAt(root, p.path);
    var (r, ins) := InsertAtPoint(root, p, s);
    if c.Text? {
      if q != p.path {
        ReplaceTextKeepsNodes(root, p.path, Text(c.text[..p.offset] + s + c.text[p.offset..]), q);
      }
    } else if p.offset == 0 {
      if p.path != [] {
        var k := |p.path| - 1;
        ValidPathStep(root, p.path, k);
        InsertChildKeepsNodes(root, p.path[..k], p.path[k], Text(s), q);
      }
    } else {
      InsertChildKeepsNodes(root, p.path, p.offset, Text(s), q);
    }
  }

  /** Inserts `e` at the end point: into a text container at the offset,
      into an element as a text node before the child at the offset, or
      at the end when the offset is at or past the last child. A path
      outside the tree, a line break as container or an offset past the
      text leaves the tree as it is; the two edits below never reach those
      cases (`AddTextReachesEnd`). */
  function InsertAtEnd(r: Node, q: seq<nat>, offset: nat, e: string): Node {
    if !ValidPath(r, q) then r
    else
      match NodeAt(r, q)
      case Text(t) => if offset <= |t| then ReplaceAt(r, q, Text(t[..offset] + e + t[offset..])) else r
      case Br => r
      case Element(_, _, _, _, children) =>
        InsertChild(r, q, if offset < |children| then offset else |children|, Text(e))
  }

  /** The selections the model edits: both points in the tree, and an end
      container that is not a line break. The source also accepts an end
      at a `<br>` and appends the end text inside that element; a `Br`
      node here has no children, so that case is left out. */
  predicate EditableRange(root: Node, start: DomPoint, end: DomPoint) {
    ValidPath(root, start.path) && PointFits(NodeAt(root, start.path), start.offset)
    && ValidPath(root, end.path) && PointFits(NodeAt(root, end.path), end.offset)
    && !NodeAt(root, end.path).Br?
  }

  /** The edit as written: after the start text goes in, the end offset is
      moved by the start text's length when both points share a
      container, whatever that container is. */
  function AddTextAsWritten(root: Node, start: DomPoint, end: DomPoint, s: string, e: string): Node
    requires EditableRange(root, start, end)
  {
    EndInsertAsWritten(InsertAtPoint(root, start, s), start, end, |s|, e)
  }

  /** The second half of the edit as written, given the tree and the
      insertion the first half made. */
  function EndInsertAsWritten(ri: (Node, Insertion), start: DomPoint, end: DomPoint, n: nat, e: string): Node {
    InsertAtEnd(ri.0, PathAfter(end.path, ri.1), AsWrittenEndOffset(start, end, n), e)
  }

  function AsWrittenEndOffset(start: DomPoint, end: DomPoint, n: nat): nat {
    if start.path == end.path then end.offset + n else end.offset
  }

  /** The edit as intended: the end offset moves by the start text's
      length when the start text went into the end's own text node, and by
      one when a new node went into the end container's children at or
      before the end offset. */
  function AddTextCorrected(root: Node, start: DomPoint, end: DomPoint, s: string, e: string): Node
    requires EditableRange(root, start, end)
  {
    EndInsertCorrected(InsertAtPoint(root, start, s), start, end, |s|, e)
  }

  function EndInsertCorrected(ri: (Node, Insertion), start: DomPoint, end: DomPoint, n: nat, e: string): Node {
    InsertAtEnd(ri.0, PathAfter(end.path, ri.1), CorrectedEndOffset(ri.1, start, end, n), e)
  }

  function CorrectedEndOffset(ins: Insertion, start: DomPoint, end: DomPoint, n: nat): nat {
    if ins.IntoText? && start.path == end.path then end.offset + n
    else if ins.Spliced? && ins.parent == end.path && ins.index <= end.offset then end.offset + 1
    else end.offset
  }

  /** Both edits find the end point again after the start text went in:
      its container is still in the tree, is no line break, and holds at
      least as many characters as the moved end offset. */
  lemma AddTextReachesEnd(root: Node, start: DomPoint, end: DomPoint, s: string)
    requires EditableRange(root, start, end)
    ensures var ri := InsertAtPoint(root, start, s);
      var q := PathAfter(end.path, ri.1);
      && ValidPath(ri.0, q) && !NodeAt(ri.0, q).Br?
      && (NodeAt(ri.0, q).Text? ==>
            && AsWrittenEndOffset(start, end, |s|) <= |NodeAt(ri.0, q).text|
            && CorrectedEndOffset(ri.1, start, end, |s|) <= |NodeAt(ri.0, q).text|)
  {
    InsertAtPointKeepsNodes(root, start, s, end.path);
  }

  lemma WrapText(t: string, i: nat, j: nat, s: string, e: string)
    requires i <= j <= |t|
    ensures var t1 := t[..i] + s + t[i..];
      t1[..j + |s|] + e + t1[j + |s|..] == t[..i] + s + t[i..j] + e + t[j..]
  {
    var t1 := t[..i] + s + t[i..];
    assert t1[..j + |s|] == t[..i] + s + t[i..j];
    assert t1[j + |s|..] == t[j..];
  }

  /** Inserting at a point inside a text node splices the text in. */
  lemma InsertIntoText(root: Node, path: seq<nat>, i: nat, s: string)
    requires ValidPath(root, path) && NodeAt(root, path).Text? && i <= |NodeAt(root, path).text|
    ensures var t := NodeAt(root, path).text;
      InsertAtPoint(root, DomPoint(path, i), s) == (ReplaceAt(root, path, Text(t[..i] + s + t[i..])), IntoText(path))
  {
  }

  /** A selection inside one text node is one the edit accepts. */
  lemma TextRangeEditable(root: Node, path: seq<nat>, i: nat, j: nat)
    requires ValidPath(root, path) && NodeAt(root, path).Text?
    requires i <= j <= |NodeAt(root, path).text|
    ensures EditableRange(root, DomPoint(path, i), DomPoint(path, j))
  {
  }

  /** When the start text went into the start's own text node, both
      versions move the end offset in that node by its length. */
  lemma EndInsertIntoText(r: Node, path: seq<nat>, i: nat, j: nat, n: nat, e: string)
    ensures EndInsertAsWritten((r, IntoText(path)), DomPoint(path, i), DomPoint(path, j), n, e) == InsertAtEnd(r, path, j + n, e)
    ensures EndInsertCorrected((r, IntoText(path)), DomPoint(path, i), DomPoint(path, j), n, e) == InsertAtEnd(r, path, j + n, e)
  {
  }

  /** Once the start text went into the start's own text node, both
      versions insert the end text into that node, `|s|` further on. */
  lemma AddTextWithinText(root: Node, path: seq<nat>, i: nat, j: nat, s: string, e: string, r: Node)
    requires EditableRange(root, DomPoint(path, i), DomPoint(path, j))
    requires InsertAtPoint(root, DomPoint(path, i), s) == (r, IntoText(path))
    ensures AddTextAsWritten(root, DomPoint(path, i), DomPoint(path, j), s, e) == InsertAtEnd(r, path, j + |s|, e)
    ensures AddTextCorrected(root, DomPoint(path, i), DomPoint(path, j), s, e) == InsertAtEnd(r, path, j + |s|, e)
  {
    AddTextThroughInsertion(root, DomPoint(path, i), DomPoint(path, j), s, e, (r, IntoText(path)));
    EndInsertIntoText(r, path, i, j, |s|, e);
  }

  /** Both versions are their second half applied to what the first half
      made. */
  lemma AddTextThroughInsertion(root: Node, start: DomPoint, end: DomPoint, s: string, e: string, ri: (Node, Insertion))
    requires EditableRange(root, start, end) && InsertAtPoint(root, start, s) == ri
    ensures AddTextAsWritten(root, start, end, s, e) == EndInsertAsWritten(ri, start, end, |s|, e)
    ensures AddTextCorrected(root, start, end, s, e) == EndInsertCorrected(ri, start, end, |s|, e)
  {
  }

  /** Within one text node both versions wrap the selected characters:
      the start text before them, the end text after. */
  lemma AddTextWrapsWithinText(root: Node, path: seq<nat>, i: nat, j: nat, s: string, e: string)
    requires ValidPath(root, path) && NodeAt(root, path).Text?
    requires i <= j <= |NodeAt(root, path).text|
    ensures var t := NodeAt(root, path).text;
      var start, end := DomPoint(path, i), DomPoint(path, j);
      EditableRange(root, start, end)
      && var w := AddTextAsWritten(root, start, end, s, e);
         ValidPath(w, path) && NodeAt(w, path) == Text(t[..i] + s + t[i..j] + e + t[j..])
         && w == AddTextCorrected(root, start, end, s, e)
  {
    var t := NodeAt(root, path).text;
    var t1 := t[..i] + s + t[i..];
    var r := ReplaceAt(root, path, Text(t1));
    TextRangeEditable(root, path, i, j);
    InsertIntoText(root, path, i, s);
    AddTextWithinText(root, path, i, j, s, e, r);
    InsertAtEndIntoText(r, path, j + |s|, e);
    WrapText(t, i, j, s, e);
  }

  /** Inserting at the end point inside a text node splices the text in. */
  lemma InsertAtEndIntoText(r: Node, path: seq<nat>, offset: nat, e: string)
    requires ValidPath(r, path) && NodeAt(r, path).Text? && offset <= |NodeAt(r, path).text|
    ensures var t := NodeAt(r, path).text;
      InsertAtEnd(r, path, offset, e) == ReplaceAt(r, path, Text(t[..offset] + e + t[offset..]))
  {
  }

  lemma WrapChildren(ch: seq<Node>, i: nat, j: nat, x: Node, y: Node)
    requires i <= j <= |ch|
    ensures var c1 := ch[..i] + [x] + ch[i..];
      c1[..j + 1] + [y] + c1[j + 1..] == ch[..i] + [x] + ch[i..j] + [y] + ch[j..]
  {
    var c1 := ch[..i] + [x] + ch[i..];
    assert c1[..j + 1] == ch[..i] + [x] + ch[i..j];
    assert c1[j + 1..] == ch[j..];
  }

  /** Inserting at a point inside an element, past its first child,
      puts a text node before the child at the offset. */
  lemma InsertIntoElement(root: Node, path: seq<nat>, i: nat, s: string)
    requires ValidPath(root, path) && NodeAt(root, path).Element?
    requires 0 < i <= |NodeAt(root, path).children|
    ensures InsertAtPoint(root, DomPoint(path, i), s) == (InsertChild(root, path, i, Text(s)), Spliced(path, i))
  {
  }

  /** A selection inside one element, past its first child, is one the
      edit accepts. */
  lemma ElementRangeEditable(root: Node, path: seq<nat>, i: nat, j: nat)
    requires ValidPath(root, path) && NodeAt(root, path).Element?
    requires 0 < i <= j <= |NodeAt(root, path).children|
    ensures EditableRange(root, DomPoint(path, i), DomPoint(path, j))
  {
  }

  /** When the start text went in as a new child of the end's own
      element, at or before the end offset, the corrected edit moves the
      end offset past it. */
  lemma EndInsertIntoElement(r: Node, path: seq<nat>, i: nat, j: nat, n: nat, e: string)
    requires i <= j
    ensures EndInsertCorrected((r, Spliced(path, i)), DomPoint(path, i), DomPoint(path, j), n, e)
      == InsertAtEnd(r, path, j + 1, e)
  {
    assert ShiftPath(path, path, i) == path;
  }

  /** Within one element, with the start past its first child, the
      corrected edit puts a text node before the first selected child and
      one after the last. */
  lemma AddTextCorrectedWrapsWithinElement(root: Node, path: seq<nat>, i: nat, j: nat, s: string, e: string)
    requires ValidPath(root, path) && NodeAt(root, path).Element?
    requires 0 < i <= j <= |NodeAt(root, path).children|
    ensures var ch := NodeAt(root, path).children;
      var start, end := DomPoint(path, i), DomPoint(path, j);
      EditableRange(root, start, end)
      && var w := AddTextCorrected(root, start, end, s, e);
         ValidPath(w, path)
         && NodeAt(w, path).children == ch[..i] + [Text(s)] + ch[i..j] + [Text(e)] + ch[j..]
  {
    var p := NodeAt(root, path);
    var ch := p.children;
    var r := InsertChild(root, path, i, Text(s));
    ElementRangeEditable(root, path, i, j);
    InsertIntoElement(root, path, i, s);
    EndInsertIntoElement(r, path, i, j, |s|, e);
    var c1 := ch[..i] + [Text(s)] + ch[i..];
    assert NodeAt(r, path) == p.(children := c1);
    assert InsertAtEnd(r, path, j + 1, e) == InsertChild(r, path, j + 1, Text(e));
    WrapChildren(ch, i, j, Text(s), Text(e));
  }

  /** As written, in an element holding the three text nodes "a", "b" and
      "c", selecting from before "b" to after it and adding `**` on both
      sides moves the end offset from 2 to 4, past the last child: the end
      marker lands after "c" instead of after "b". */
  lemma AddTextAsWrittenMisplacesEnd()
    ensures var root := Element("div", None, false, [], [Text("a"), Text("b"), Text("c")]);
      var start, end := DomPoint([], 1), DomPoint([], 2);
      EditableRange(root, start, end)
      && AddTextAsWritten(root, start, end, "**", "**").children
         == [Text("a"), Text("**"), Text("b"), Text("c"), Text("**")]
      && AddTextCorrected(root, start, end, "**", "**").children
         == [Text("a"), Text("**"), Text("b"), Text("**"), Text("c")]
  {
    var ch := [Text("a"), Text("b"), Text("c")];
    var root := Element("div", None, false, [], ch);
    var c1 := ch[..1] + [Text("**")] + ch[1..];
    assert c1 == [Text("a"), Text("**"), Text("b"), Text("c")];
    assert ShiftPath([], [], 1) == [];
    assert c1[..4] + [Text("**")] + c1[4..] == [Text("a"), Text("**"), Text("b"), Text("c"), Text("**")];
    assert c1[..3] + [Text("**")] + c1[3..] == [Text("a"), Text("**"), Text("b"), Text("**"), Text("c")];
  }

  // ---------------------------------------------------------------------
  // insertHardBreak (utils/index.ts:791-817)
  // ---------------------------------------------------------------------

  /** The line a hard break inserts: a `<div>` holding one `<br>`. */
  const HardBreakLine: Node := Element("div", None, false, [], [Br])

  /** A hard break adds exactly one line feed to its parent's text, at
      the place it went in. */
  lemma HardBreakAddsOneLine(ch: seq<Node>, index: nat, skipMarker: bool)
    requires index <= |ch|
    ensures TextContentAll(ch[..index] + [HardBreakLine] + ch[index..], skipMarker, false)
         == TextContentAll(ch[..index], skipMarker, false) + "\n" + TextContentAll(ch[index..], skipMarker, false)
  {
    TextContentAllAppend(ch[..index] + [HardBreakLine], ch[index..], skipMarker, false);
    TextContentAllAppend(ch[..index], [HardBreakLine], skipMarker, false);
    assert [HardBreakLine][1..] == [];
    assert [Br][1..] == [];
    assert TextContentAll([Br], skipMarker, false) == "\n";
  }

  // ---------------------------------------------------------------------
  // getTopmostInlineEntity / getTopmostBlockLevelEntity (utils/index.ts:597-629)
  // ---------------------------------------------------------------------

  /** The inline formats (src/contest/text-editor/MessageInputController.tsx:178-185). */
  const InlineFormattingTypes: seq<EntityType> := [Bold, Italic, Underline, Strike, Spoiler, Code]

  /** The block-level formats (src/contest/text-editor/MessageInputController.tsx:177). */
  const BlockLevelTypes: seq<EntityType> := [Pre, Blockquote]

  /** The ancestor at depth `k` on the way to the container is an element
      of one of `types`. */
  predicate MatchesAt(root: Node, path: seq<nat>, k: nat, types: seq<EntityType>)
    requires ValidPath(root, path) && k <= |path|
  {
    ValidPathPrefix(root, path, k);
    var n := NodeAt(root, path[..k]);
    n.Element? && n.entity.Some? && n.entity.value in types
  }

  /** Walks from the selection's start container up to the root (the root
      itself excluded), remembering the last element of one of `types`;
      the answer is the depth of the matching node nearest the root. */
  method GetTopmostEntity(root: Node, start: Option<seq<nat>>, types: seq<EntityType>) returns (top: Option<nat>)
    requires start.Some? ==> ValidPath(root, start.value)
    ensures start.None? ==> top.None?
    ensures start.Some? && top.Some? ==>
      1 <= top.value <= |start.value| && MatchesAt(root, start.value, top.value, types)
      && forall j :: 1 <= j < top.value ==> !MatchesAt(root, start.value, j, types)
    ensures start.Some? && top.None? ==>
      forall j :: 1 <= j <= |start.value| ==> !MatchesAt(root, start.value, j, types)
  {
    top := None;
    if start.None? {
      return;
    }
    var path := start.value;
    var k := |path|;
    while k > 0
      invariant 0 <= k <= |path|
      invariant top.Some? ==> k < top.value <= |path| && MatchesAt(root, path, top.value, types)
      invariant top.Some? ==> forall j :: k < j < top.value ==> !MatchesAt(root, path, j, types)
      invariant top.None? ==> forall j :: k < j <= |path| ==> !MatchesAt(root, path, j, types)
    {
      ValidPathPrefix(root, path, k);
      var node := NodeAt(root, path[..k]);
      if node.Element? && node.entity.Some? && node.entity.value in types {
        top := Some(k);
      }
      k := k - 1;
    }
  }

  method GetTopmostInlineEntity(root: Node, start: Option<seq<nat>>) returns (top: Option<nat>)
    requires start.Some? ==> ValidPath(root, start.value)
    ensures start.None? ==> top.None?
    ensures start.Some? && top.Some? ==>
      1 <= top.value <= |start.value| && MatchesAt(root, start.value, top.value, InlineFormattingTypes)
      && forall j :: 1 <= j < top.value ==> !MatchesAt(root, start.value, j, InlineFormattingTypes)
    ensures start.Some? && top.None? ==>
      forall j :: 1 <= j <= |start.value| ==> !MatchesAt(root, start.value, j, InlineFormattingTypes)
  {
    top := GetTopmostEntity(root, start, InlineFormattingTypes);
  }

  method GetTopmostBlockLevelEntity(root: Node, start: Option<seq<nat>>) returns (top: Option<nat>)
    requires start.Some? ==> ValidPath(root, start.value)
    ensures start.None? ==> top.None?
    ensures start.Some? && top.Some? ==>
      1 <= top.value <= |start.value| && MatchesAt(root, start.value, top.value, BlockLevelTypes)
      && forall j :: 1 <= j < top.value ==> !MatchesAt(root, start.value, j, BlockLevelTypes)
    ensures start.Some? && top.None? ==>
      forall j :: 1 <= j <= |start.value| ==> !MatchesAt(root, start.value, j, BlockLevelTypes)
  {
    top := GetTopmostEntity(root, start, BlockLevelTypes);
  }

  /** The editor's tree, edited in place. */
  class Dom {
    var root: Node

    constructor(root: Node)
      ensures this.root == root
    {
      this.root := root;
    }

    /** Moves the element's children that are not excluded, in order, into
        the element's parent in its place; the element is removed. */
    method MoveContentOutsideOfElement(path: seq<nat>, shouldExclude: Node -> bool)
      requires |path| >= 1 && ValidPath(root, path)
      modifies this
      ensures root == Unwrap(old(root), path, shouldExclude)
    {
      var parentPath := path[..|path| - 1];
      var k := path[|path| - 1];
      ValidPathStep(root, path, |path| - 1);
      var parent := NodeAt(root, parentPath);
      var fragment := CollectKept(ChildrenOf(parent.children[k]), shouldExclude);
      var ch := parent.children;
      root := ReplaceAt(root, parentPath, parent.(children := ch[..k] + fragment + ch[k + 1..]));
    }

    /** Adds `startText` at the selection's start and `endText` at its end,
        with the end offset moved as the source moves it (by the start
        text's length whenever both ends share a container); without a
        selection nothing changes. */
    method AddTextAtStartAndEndOfSelection(range: Option<(DomPoint, DomPoint)>, startText: string, endText: string)
      requires range.Some? ==> EditableRange(root, range.value.0, range.value.1)
      modifies this
      ensures range.None? ==> root == old(root)
      ensures range.Some? ==> root == AddTextAsWritten(old(root), range.value.0, range.value.1, startText, endText)
    {
      if range.None? {
        return;
      }
      var (start, end) := range.value;
      var (r, ins) := InsertAtPoint(root, start, startText);
      var endOffset := end.offset;
      if start.path == end.path {
        endOffset := endOffset + |startText|;
      }
      root := InsertAtEnd(r, PathAfter(end.path, ins), endOffset, endText);
    }

    /** Inserts a line holding one `<br>` before or after the target node
        and answers the caret position just after the new line; a target
        without a parent in the editor changes nothing. */
    method InsertHardBreak(after: bool, target: seq<nat>) returns (caret: Option<DomPoint>)
      requires ValidPath(root, target)
      modifies this
      ensures target == [] ==> root == old(root) && caret.None?
      ensures target != [] ==>
        var parentPath := target[..|target| - 1];
        var index := target[|target| - 1] + (if after then 1 else 0);
        ValidPath(old(root), parentPath) && NodeAt(old(root), parentPath).Element?
        && index <= |NodeAt(old(root), parentPath).children|
        && root == InsertChild(old(root), parentPath, index, HardBreakLine)
        && caret == Some(DomPoint(parentPath, index + 1))
    {
      if target == [] {
        return None;
      }
      var k := |target| - 1;
      ValidPathStep(root, target, k);
      var index := target[k] + (if after then 1 else 0);
      root := InsertChild(root, target[..k], index, HardBreakLine);
      caret := Some(DomPoint(target[..k], index + 1));
    }
  }
}
