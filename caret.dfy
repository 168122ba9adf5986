/** Caret offsets: the caret as a single character count over the editor's
    atoms, read from and written back to a position in the tree
    (src/contest/text-editor/utils/index.ts:291-404). */
module Caret {
  import opened Wrappers
  import opened TextModel
  import opened DomTree

  // ---------------------------------------------------------------------
  // getCaretCharacterOffset (utils/index.ts:311-346)
  // ---------------------------------------------------------------------

  /** A DOM boundary point: the container reached from the root by `path`
      (child indices), and an offset in it (characters in a text node,
      children in an element). */
  datatype DomPoint = DomPoint(path: seq<nat>, offset: nat)

  predicate ValidPointIn(n: Node, path: seq<nat>, offset: nat)
    decreases |path|
  {
    if path == [] then
      match n
      case Text(t) => offset <= |t|
      case Br => offset == 0
      case Element(_, _, _, _, children) => offset <= |children|
    else
      n.Element? && path[0] < |n.children| && ValidPointIn(n.children[path[0]], path[1..], offset)
  }

  /** The part of `n` that lies before the point: what `cloneContents` of
      the range from the start of `n` to the point holds. A partially
      selected node is cloned shallowly with its selected part inside; a
      text container keeps the characters before the offset. */
  function CloneBefore(n: Node, path: seq<nat>, offset: nat): Node
    requires ValidPointIn(n, path, offset)
    decreases |path|
  {
    if path == [] then
      match n
      case Text(t) => Text(t[..offset])
      case Br => Br
      case Element(tag, e, m, a, children) => Element(tag, e, m, a, children[..offset])
    else
      Element(n.tag, n.entity, n.isMarker, n.attrs,
              n.children[..path[0]] + [CloneBefore(n.children[path[0]], path[1..], offset)])
  }

  /** `c` is `full` cut at some atom boundary, except that its last atom
      may be a text atom cut short. */
  predicate AtomPrefix(c: seq<Atom>, full: seq<Atom>) {
    |c| <= |full|
    && (c == full[..|c|]
        || (|c| > 0 && c[..|c| - 1] == full[..|c| - 1]
            && c[|c| - 1].TextAtom? && full[|c| - 1].TextAtom?
            && c[|c| - 1].text <= full[|c| - 1].text))
  }

  lemma AtomPrefixExtend(pre: seq<Atom>, c: seq<Atom>, full: seq<Atom>, post: seq<Atom>)
    requires AtomPrefix(c, full)
    ensures AtomPrefix(pre + c, pre + full + post)
  {
    var f := pre + full + post;
    assert (pre + c)[..|pre + c|] == pre + c;
    if c == full[..|c|] {
      assert f[..|pre + c|] == pre + full[..|c|];
    } else {
      assert (pre + c)[..|pre + c| - 1] == pre + c[..|c| - 1];
      assert f[..|pre + c| - 1] == pre + full[..|c| - 1];
    }
  }

  /** The atoms of the cloned part of a node are a prefix of the node's
      atoms, up to the text atom the point sits in. */
  function EmojiPart(n: Node): seq<Atom> {
    if n.Element? && n.entity == Some(CustomEmoji) then [EmojiAtom] else []
  }

  lemma AtomsOfSingle(n: Node)
    ensures AtomsOfAll([n]) == Atoms(n)
  {
    assert [n][1..] == [];
  }

  /** Cutting a child list at a position keeps a prefix of its atoms. */
  lemma ChildrenCutIsPrefix(ch: seq<Node>, offset: nat)
    requires offset <= |ch|
    ensures AtomPrefix(AtomsOfAll(ch[..offset]), AtomsOfAll(ch))
  {
    assert ch == ch[..offset] + ch[offset..];
    AtomsOfAllAppend(ch[..offset], ch[offset..]);
    AtomPrefixExtend([], AtomsOfAll(ch[..offset]), AtomsOfAll(ch[..offset]), AtomsOfAll(ch[offset..]));
    assert [] + AtomsOfAll(ch[..offset]) == AtomsOfAll(ch[..offset]);
  }

  lemma AtomsAroundChild(ch: seq<Node>, k: nat)
    requires k < |ch|
    ensures AtomsOfAll(ch) == AtomsOfAll(ch[..k]) + Atoms(ch[k]) + AtomsOfAll(ch[k + 1..])
  {
    AtomsOfAllSplit(ch, k);
    AtomsFromChild(ch, k);
  }

  lemma AtomsOfAllSplit(ch: seq<Node>, k: nat)
    requires k <= |ch|
    ensures AtomsOfAll(ch) == AtomsOfAll(ch[..k]) + AtomsOfAll(ch[k..])
  {
    assert ch == ch[..k] + ch[k..];
    AtomsOfAllAppend(ch[..k], ch[k..]);
  }

  lemma AtomsFromChild(ch: seq<Node>, k: nat)
    requires k < |ch|
    ensures AtomsOfAll(ch[k..]) == Atoms(ch[k]) + AtomsOfAll(ch[k + 1..])
  {
    assert ch[k..][0] == ch[k] && ch[k..][1..] == ch[k + 1..];
  }

  lemma AtomsBeforeChild(ch: seq<Node>, child: Node)
    ensures AtomsOfAll(ch + [child]) == AtomsOfAll(ch) + Atoms(child)
  {
    AtomsOfAllAppend(ch, [child]);
    AtomsOfSingle(child);
  }

  /** Replacing child `k` by its clone and dropping the children after it
      keeps a prefix of the atoms. */
  lemma ChildrenThroughChildIsPrefix(ch: seq<Node>, k: nat, child: Node)
    requires k < |ch|
    requires AtomPrefix(Atoms(child), Atoms(ch[k]))
    ensures AtomPrefix(AtomsOfAll(ch[..k] + [child]), AtomsOfAll(ch))
  {
    AtomsAroundChild(ch, k);
    AtomsBeforeChild(ch[..k], child);
    AtomPrefixExtend(AtomsOfAll(ch[..k]), Atoms(child), Atoms(ch[k]), AtomsOfAll(ch[k + 1..]));
  }

  /** The atoms of the cloned children of an element are a prefix of its
      children's atoms, up to the text atom the point sits in. */
  lemma {:induction false} CloneChildrenArePrefix(n: Node, path: seq<nat>, offset: nat)
    requires n.Element? && ValidPointIn(n, path, offset)
    ensures AtomPrefix(AtomsOfAll(CloneBefore(n, path, offset).children), AtomsOfAll(n.children))
    decreases |path|, 0
  {
    if path == [] {
      ChildrenCutIsPrefix(n.children, offset);
    } else {
      CloneBeforeAtomsArePrefix(n.children[path[0]], path[1..], offset);
      ChildrenThroughChildIsPrefix(n.children, path[0], CloneBefore(n.children[path[0]], path[1..], offset));
    }
  }

  /** The same for the node itself: the atoms of the cloned part are a
      prefix of the node's atoms. */
  lemma {:induction false} CloneBeforeAtomsArePrefix(n: Node, path: seq<nat>, offset: nat)
    requires ValidPointIn(n, path, offset)
    ensures AtomPrefix(Atoms(CloneBefore(n, path, offset)), Atoms(n))
    decreases |path|, 1
  {
    if n.Element? {
      var c := CloneBefore(n, path, offset);
      CloneChildrenArePrefix(n, path, offset);
      AtomPrefixExtend(EmojiPart(n), AtomsOfAll(c.children), AtomsOfAll(n.children), []);
      assert EmojiPart(n) + AtomsOfAll(n.children) + [] == Atoms(n);
      assert Atoms(c) == EmojiPart(n) + AtomsOfAll(c.children);
    } else if n.Text? {
      assert n.text[..offset] <= n.text;
    }
  }

  /** The fragment `cloneContents` returns: the root's cloned children. */
  function CaretFragment(root: Node, p: DomPoint): seq<Node>
    requires root.Element? && ValidPointIn(root, p.path, p.offset)
  {
    CloneBefore(root, p.path, p.offset).children
  }

  /** Walks the atoms of the fragment before the caret and adds up their
      widths; without a selection the offset is 0. The result is the width
      of a prefix of the document's atoms, the last one possibly cut inside
      a text node: the number of characters before the caret. */
  method GetCaretCharacterOffset(root: Node, selection: Option<DomPoint>) returns (caret: nat)
    requires root.Element?
    requires selection.Some? ==> ValidPointIn(root, selection.value.path, selection.value.offset)
    ensures selection.None? ==> caret == 0
    ensures selection.Some? ==>
      var before := AtomsOfAll(CaretFragment(root, selection.value));
      caret == Width(before) && AtomPrefix(before, DocumentAtoms(root))
  {
    if selection.None? {
      return 0;
    }
    var p := selection.value;
    var atoms := AtomsOfAll(CaretFragment(root, p));
    CloneChildrenArePrefix(root, p.path, p.offset);
    caret := 0;
    var i := 0;
    while i < |atoms|
      invariant 0 <= i <= |atoms|
      invariant caret == Width(atoms[..i])
    {
      WidthSnoc(atoms[..i], atoms[i]);
      assert atoms[..i + 1] == atoms[..i] + [atoms[i]];
      match atoms[i] {
        case BrAtom => caret := caret + 1;
        case EmojiAtom => caret := caret + 1;
        case TextAtom(t) => caret := caret + |t|;
      }
      i := i + 1;
    }
    assert atoms[..i] == atoms;
  }

  // ---------------------------------------------------------------------
  // setCaretCharacterOffset (utils/index.ts:348-428)
  // ---------------------------------------------------------------------

  /** Where the caret is put, named by the atoms: inside text atom `atom`
      at `offset`, right after or right before atom `atom`, or at the end
      of the editor. (After a `<br>` is the position following it in its
      parent; after a custom emoji the one following the emoji element.) */
  datatype CaretTarget = InText(atom: nat, offset: nat) | AfterAtom(atom: nat) | BeforeAtom(atom: nat) | AtEnd

  /** The character offset a target stands for. */
  function TargetOffset(atoms: seq<Atom>, t: CaretTarget): nat
    requires t.InText? || t.AfterAtom? || t.BeforeAtom? ==> t.atom < |atoms|
  {
    match t
    case InText(i, o) => Width(atoms[..i]) + o
    case AfterAtom(i) => Width(atoms[..i + 1])
    case BeforeAtom(i) => Width(atoms[..i])
    case AtEnd => Width(atoms)
  }

  /** Whether the cumulative end of atom `i` reaches `k`. */
  predicate Reaches(atoms: seq<Atom>, i: nat, k: nat)
    requires i < |atoms|
  {
    Width(atoms[..i + 1]) >= k
  }

  /** The first atom whose cumulative end reaches `k`, searching from atom
      `i`, whose start is `start`. */
  function FirstReachingFrom(atoms: seq<Atom>, k: nat, i: nat, start: nat): (r: Option<nat>)
    requires i <= |atoms| && start == Width(atoms[..i])
    requires forall j :: 0 <= j < i ==> !Reaches(atoms, j, k)
    ensures r.Some? ==> i <= r.value < |atoms| && Reaches(atoms, r.value, k)
                        && forall j :: 0 <= j < r.value ==> !Reaches(atoms, j, k)
    ensures r.None? ==> forall j :: 0 <= j < |atoms| ==> !Reaches(atoms, j, k)
    decreases |atoms| - i
  {
    if i == |atoms| then None
    else
      WidthSnoc(atoms[..i], atoms[i]);
      assert atoms[..i + 1] == atoms[..i] + [atoms[i]];
      if start + AtomWidth(atoms[i]) >= k then Some(i)
      else FirstReachingFrom(atoms, k, i + 1, start + AtomWidth(atoms[i]))
  }

  function FirstReaching(atoms: seq<Atom>, k: nat): Option<nat> {
    FirstReachingFrom(atoms, k, 0, 0)
  }

  /** The placement rule as written: the first atom whose cumulative end
      reaches the offset takes the caret; inside it for text, after it for
      a `<br>` or a custom emoji; the end when none qualifies or no offset
      is given. */
  function SetCaretAsWritten(atoms: seq<Atom>, offset: Option<nat>): (t: CaretTarget)
    ensures t.InText? || t.AfterAtom? || t.BeforeAtom? ==> t.atom < |atoms|
  {
    if offset.None? then AtEnd
    else
      match FirstReaching(atoms, offset.value)
      case None => AtEnd
      case Some(i) =>
        FirstReachingStartsBelow(atoms, offset.value, i);
        if atoms[i].TextAtom? then InText(i, offset.value - Width(atoms[..i]))
        else AfterAtom(i)
  }

  /** The placement rule with the evident intent: a `<br>` or custom emoji
      that starts at or after the offset takes the caret before it. */
  function SetCaretCorrected(atoms: seq<Atom>, offset: Option<nat>): (t: CaretTarget)
    ensures t.InText? || t.AfterAtom? || t.BeforeAtom? ==> t.atom < |atoms|
  {
    if offset.None? then AtEnd
    else
      match FirstReaching(atoms, offset.value)
      case None => AtEnd
      case Some(i) =>
        FirstReachingStartsBelow(atoms, offset.value, i);
        if atoms[i].TextAtom? then InText(i, offset.value - Width(atoms[..i]))
        else if Width(atoms[..i]) >= offset.value then BeforeAtom(i)
        else AfterAtom(i)
  }

  /** Before the first reaching atom the offset has not been reached, so
      that atom starts before the offset, unless it is the very first. */
  lemma FirstReachingStartsBelow(atoms: seq<Atom>, k: nat, i: nat)
    requires i < |atoms| && Reaches(atoms, i, k)
    requires forall j :: 0 <= j < i ==> !Reaches(atoms, j, k)
    ensures i > 0 ==> Width(atoms[..i]) < k
  {
    if i > 0 {
      assert !Reaches(atoms, i - 1, k);
      assert atoms[..i - 1 + 1] == atoms[..i];
    }
  }

  /** An offset beyond every atom's end is beyond the document's width. */
  lemma NoneReachingMeansBeyondEnd(atoms: seq<Atom>, k: nat)
    requires forall j :: 0 <= j < |atoms| ==> !Reaches(atoms, j, k)
    ensures atoms != [] ==> Width(atoms) < k
  {
    if atoms != [] {
      assert !Reaches(atoms, |atoms| - 1, k);
      assert atoms[..|atoms| - 1 + 1] == atoms;
    }
  }

  /** The corrected rule puts the caret back where it was read: for every
      offset within the document, reading the caret after placing it gives
      the offset. */
  lemma SetCaretCorrectedRoundTrip(atoms: seq<Atom>, k: nat)
    requires k <= Width(atoms)
    ensures TargetOffset(atoms, SetCaretCorrected(atoms, Some(k))) == k
  {
    match FirstReaching(atoms, k)
    case None =>
      NoneReachingMeansBeyondEnd(atoms, k);
    case Some(i) =>
      FirstReachingStartsBelow(atoms, k, i);
      AtomEnd(atoms, i);
      var start := Width(atoms[..i]);
      assert i == 0 ==> start == 0 by { assert atoms[..0] == []; }
      assert Width(atoms[..i + 1]) >= k;
  }

  lemma AtomEnd(atoms: seq<Atom>, i: nat)
    requires i < |atoms|
    ensures Width(atoms[..i + 1]) == Width(atoms[..i]) + AtomWidth(atoms[i])
  {
    WidthSnoc(atoms[..i], atoms[i]);
    assert atoms[..i + 1] == atoms[..i] + [atoms[i]];
  }

  /** The rule as written agrees with the corrected one except when the
      caret is to go to offset 0 and the document starts with a `<br>` or
      a custom emoji. */
  lemma SetCaretAsWrittenAgreesAwayFromStart(atoms: seq<Atom>, k: nat)
    requires k > 0 || atoms == [] || atoms[0].TextAtom?
    ensures SetCaretAsWritten(atoms, Some(k)) == SetCaretCorrected(atoms, Some(k))
  {
    match FirstReaching(atoms, k)
    case None =>
    case Some(i) =>
      FirstReachingStartsBelow(atoms, k, i);
      if i == 0 {
        assert atoms[..0] == [];
      }
  }

  /** As written, restoring caret offset 0 in a document that starts with
      a line break leaves the caret after the break, at offset 1. */
  lemma SetCaretAsWrittenMissesStart()
    ensures SetCaretAsWritten([BrAtom], Some(0)) == AfterAtom(0)
    ensures TargetOffset([BrAtom], SetCaretAsWritten([BrAtom], Some(0))) == 1
    ensures TargetOffset([BrAtom], SetCaretCorrected([BrAtom], Some(0))) == 0
  {
    assert [BrAtom][..1] == [BrAtom];
    assert [BrAtom][..0] == [];
    assert Width([BrAtom][1..]) == 0 by { assert [BrAtom][1..] == []; }
  }

  /** The placement loop as written: walks the atoms keeping the running
      offset, stops at the first atom whose end reaches the offset. */
  method SetCaretCharacterOffset(atoms: seq<Atom>, offset: Option<nat>) returns (target: CaretTarget)
    ensures target == SetCaretAsWritten(atoms, offset)
  {
    target := AtEnd;
    if offset.None? {
      return;
    }
    var k := offset.value;
    var current := 0;
    var i := 0;
    while i < |atoms|
      invariant 0 <= i <= |atoms|
      invariant current == Width(atoms[..i])
      invariant i > 0 ==> current < k
      invariant forall j :: 0 <= j < i ==> !Reaches(atoms, j, k)
      invariant FirstReaching(atoms, k) == FirstReachingFrom(atoms, k, i, current)
    {
      WidthSnoc(atoms[..i], atoms[i]);
      assert atoms[..i + 1] == atoms[..i] + [atoms[i]];
      match atoms[i] {
        case BrAtom =>
          if current + 1 >= k {
            return AfterAtom(i);
          }
          current := current + 1;
        case EmojiAtom =>
          if current + 1 >= k {
            return AfterAtom(i);
          }
          current := current + 1;
        case TextAtom(t) =>
          if current + |t| >= k {
            return InText(i, k - current);
          }
          current := current + |t|;
      }
      i := i + 1;
    }
  }
}
