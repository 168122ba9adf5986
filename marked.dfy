/** The Markdown lexer's tokens as the composer sees them, and the
    structural comparison that decides whether re-rendering is needed
    (src/contest/text-editor/TokenHelper.tsx:19-167). The lexer itself is
    not part of this model: it is whatever function produced the tokens. */
module MarkedJS {
  import opened Wrappers

  /** A token kind is the lexer's `type` string; the names below are the
      ones the composer dispatches on (TokenHelper.tsx:20-52). The lexer may
      produce others, which every dispatch sends to its default branch. */
  type TokenType = string

  const space: TokenType := "space"
  const code: TokenType := "code"
  const blockquote: TokenType := "blockquote"
  const paragraph: TokenType := "paragraph"
  const strong: TokenType := "strong"
  const em: TokenType := "em"
  const codespan: TokenType := "codespan"
  const br: TokenType := "br"
  const del: TokenType := "del"
  const link: TokenType := "link"
  const text: TokenType := "text"
  const escape: TokenType := "escape"
  const html: TokenType := "html"
  const spoiler: TokenType := "spoiler"
  const underline: TokenType := "underline"
  const tblockquote: TokenType := "tblockquote"

  /** A token. `hasTokens` says whether the object has a `tokens` key at
      all; `tokens` is its value (empty when the key is absent or its value
      is not set). `text`, `lang` and `href` are absent on kinds that do not
      carry them. */
  datatype Token = Token(kind: TokenType, raw: string, text: Option<string>,
                         hasTokens: bool, tokens: seq<Token>,
                         lang: Option<string>, href: Option<string>)

  // ---------------------------------------------------------------------
  // isStructureEqual / hasStructureChanged (TokenHelper.tsx:123-167)
  // ---------------------------------------------------------------------

  /** Same length, and position by position the same kind, the same
      presence of a `tokens` key and, where present, structurally equal
      children. */
  predicate IsStructureEqual(tokens1: seq<Token>, tokens2: seq<Token>)
    decreases tokens1
  {
    && |tokens1| == |tokens2|
    && (tokens1 != [] ==>
        && tokens1[0].kind == tokens2[0].kind
        && tokens1[0].hasTokens == tokens2[0].hasTokens
        && (tokens1[0].hasTokens ==> IsStructureEqual(tokens1[0].tokens, tokens2[0].tokens))
        && IsStructureEqual(tokens1[1..], tokens2[1..]))
  }

  /** What the comparison looks at: the kind, and the shapes of the
      children when there is a `tokens` key. */
  datatype Shape = Shape(kind: TokenType, children: Option<seq<Shape>>)

  function ShapeOf(t: Token): Shape
    decreases t
  {
    Shape(t.kind, if t.hasTokens then Some(ShapesOf(t.tokens)) else None)
  }

  function ShapesOf(ts: seq<Token>): (r: seq<Shape>)
    decreases ts
    ensures |r| == |ts|
  {
    if ts == [] then [] else [ShapeOf(ts[0])] + ShapesOf(ts[1..])
  }

  /** The recursive comparison holds exactly when the two token lists have
      the same shape: `text` and `raw` (and every other field) are ignored,
      and nothing else is. */
  lemma {:induction false} StructureEqualIffSameShape(tokens1: seq<Token>, tokens2: seq<Token>)
    ensures IsStructureEqual(tokens1, tokens2) <==> ShapesOf(tokens1) == ShapesOf(tokens2)
    decreases tokens1
  {
    if |tokens1| == |tokens2| && tokens1 != [] {
      var t1, t2 := tokens1[0], tokens2[0];
      if t1.hasTokens {
        StructureEqualIffSameShape(t1.tokens, t2.tokens);
      }
      StructureEqualIffSameShape(tokens1[1..], tokens2[1..]);
      var s1, s2 := ShapesOf(tokens1), ShapesOf(tokens2);
      assert s1 == [ShapeOf(t1)] + ShapesOf(tokens1[1..]);
      assert s2 == [ShapeOf(t2)] + ShapesOf(tokens2[1..]);
      if s1 == s2 {
        assert s1[0] == s2[0];
        assert s1[1..] == s2[1..];
      }
    }
  }

  /** Every token list is structurally equal to itself. */
  lemma {:induction false} StructureEqualReflexive(tokens: seq<Token>)
    ensures IsStructureEqual(tokens, tokens)
  {
    StructureEqualIffSameShape(tokens, tokens);
  }

  /** The comparison does not depend on the order of its arguments. */
  lemma {:induction false} StructureEqualSymmetric(tokens1: seq<Token>, tokens2: seq<Token>)
    ensures IsStructureEqual(tokens1, tokens2) == IsStructureEqual(tokens2, tokens1)
  {
    StructureEqualIffSameShape(tokens1, tokens2);
    StructureEqualIffSameShape(tokens2, tokens1);
  }

  /** Structural equality chains. */
  lemma {:induction false} StructureEqualTransitive(a: seq<Token>, b: seq<Token>, c: seq<Token>)
    requires IsStructureEqual(a, b) && IsStructureEqual(b, c)
    ensures IsStructureEqual(a, c)
  {
    StructureEqualIffSameShape(a, b);
    StructureEqualIffSameShape(b, c);
    StructureEqualIffSameShape(a, c);
  }

  /** The structure changed exactly when the shapes differ. */
  function HasStructureChanged(oldTokens: seq<Token>, newTokens: seq<Token>): (r: bool)
    ensures r <==> ShapesOf(oldTokens) != ShapesOf(newTokens)
  {
    StructureEqualIffSameShape(oldTokens, newTokens);
    !IsStructureEqual(oldTokens, newTokens)
  }

  /** Re-lexing text whose token tree is unchanged in shape (only texts
      differ) never counts as a structural change. */
  lemma HasStructureChangedIgnoresText(tokens: seq<Token>, i: nat, s: string)
    requires i < |tokens|
    ensures !HasStructureChanged(tokens, tokens[i := tokens[i].(text := Some(s), raw := s)])
  {
    var updated := tokens[i := tokens[i].(text := Some(s), raw := s)];
    assert ShapesOf(tokens) == ShapesOf(updated) by {
      ShapesOfUpdate(tokens, i, tokens[i].(text := Some(s), raw := s));
    }
  }

  lemma {:induction false} ShapesOfUpdate(ts: seq<Token>, i: nat, t: Token)
    requires i < |ts| && ShapeOf(t) == ShapeOf(ts[i])
    ensures ShapesOf(ts[i := t]) == ShapesOf(ts)
  {
    if i > 0 {
      ShapesOfUpdate(ts[1..], i - 1, t);
      assert ts[i := t][1..] == ts[1..][i - 1 := t];
    }
  }
}
