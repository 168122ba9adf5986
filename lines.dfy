/** Lines of an editor block and the caret's place among them
    (src/contest/text-editor/utils/index.ts:724-789). */
module Lines {
  import opened Wrappers
  import opened TextModel
  import opened DomTree
  import opened Caret

  // ---------------------------------------------------------------------
  // Splitting on line feeds
  // ---------------------------------------------------------------------

  predicate NoLineFeed(s: string) {
    '\n' !in s
  }

  /** `s.split('\n')`: the pieces between line feeds, built from the end. */
  function SplitLines(s: string): (r: seq<string>)
    ensures |r| >= 1
    decreases |s|
  {
    if s == [] then [""]
    else
      var init := SplitLines(s[..|s| - 1]);
      var c := s[|s| - 1];
      if c == '\n' then init + [""]
      else init[..|init| - 1] + [init[|init| - 1] + [c]]
  }

  /** `lines.join('\n')`. */
  function JoinLines(ls: seq<string>): string
    requires |ls| >= 1
    decreases |ls|
  {
    if |ls| == 1 then ls[0] else JoinLines(ls[..|ls| - 1]) + "\n" + ls[|ls| - 1]
  }

  /** No piece holds a line feed. */
  lemma {:induction false} SplitLinesHaveNoLineFeed(s: string)
    ensures forall i :: 0 <= i < |SplitLines(s)| ==> NoLineFeed(SplitLines(s)[i])
    decreases |s|
  {
    if s != [] {
      SplitLinesHaveNoLineFeed(s[..|s| - 1]);
    }
  }

  /** Joining the pieces back with line feeds gives the text again. */
  lemma {:induction false} JoinSplitLines(s: string)
    ensures JoinLines(SplitLines(s)) == s
    decreases |s|
  {
    if s != [] {
      var init := SplitLines(s[..|s| - 1]);
      JoinSplitLines(s[..|s| - 1]);
      var c := s[|s| - 1];
      assert s == s[..|s| - 1] + [c];
      if c == '\n' {
        JoinEmptyLine(init);
      } else {
        JoinExtendedLine(init, c);
      }
    }
  }

  /** An empty last line adds just its line feed. */
  lemma JoinEmptyLine(ls: seq<string>)
    requires |ls| >= 1
    ensures JoinLines(ls + [""]) == JoinLines(ls) + "\n"
  {
    assert (ls + [""])[..|ls|] == ls;
  }

  /** A character added to the last line is added at the end of the join. */
  lemma JoinExtendedLine(ls: seq<string>, c: char)
    requires |ls| >= 1
    ensures JoinLines(ls[..|ls| - 1] + [ls[|ls| - 1] + [c]]) == JoinLines(ls) + [c]
  {
    var r := ls[..|ls| - 1] + [ls[|ls| - 1] + [c]];
    assert r[..|r| - 1] == ls[..|ls| - 1];
    if |ls| > 1 {
      assert ls[..|ls| - 1][..|ls| - 2] == ls[..|ls| - 2];
    }
  }

  /** The lines with `t` added to the last one. */
  function ExtendLast(ls: seq<string>, t: string): (r: seq<string>)
    requires |ls| >= 1
    ensures |r| == |ls| && r[|r| - 1] == ls[|ls| - 1] + t
    ensures forall i :: 0 <= i < |ls| - 1 ==> r[i] == ls[i]
  {
    ls[..|ls| - 1] + [ls[|ls| - 1] + t]
  }

  /** Appending text without line feeds extends the last line. */
  lemma {:induction false} SplitAppendLineFree(s: string, t: string)
    requires NoLineFeed(t)
    ensures SplitLines(s + t) == ExtendLast(SplitLines(s), t)
    decreases |t|
  {
    if t == [] {
      assert s + t == s;
      ExtendLastByNothing(SplitLines(s));
    } else {
      var t' := t[..|t| - 1];
      var c := t[|t| - 1];
      assert t == t' + [c];
      assert c in t;
      assert NoLineFeed(t') by {
        assert forall x :: x in t' ==> x in t;
      }
      SplitAppendLineFree(s, t');
      assert s + t == (s + t') + [c];
      SplitAppendChar(s + t', c);
      ExtendLastTwice(SplitLines(s), t', c);
    }
  }

  lemma ExtendLastByNothing(ls: seq<string>)
    requires |ls| >= 1
    ensures ExtendLast(ls, []) == ls
  {
    assert ls[|ls| - 1] + [] == ls[|ls| - 1];
  }

  lemma ExtendLastTwice(ls: seq<string>, t: string, c: char)
    requires |ls| >= 1
    ensures ExtendLast(ExtendLast(ls, t), [c]) == ExtendLast(ls, t + [c])
  {
    assert ls[|ls| - 1] + t + [c] == ls[|ls| - 1] + (t + [c]);
  }

  /** A character other than a line feed extends the last line. */
  lemma SplitAppendChar(u: string, c: char)
    requires c != '\n'
    ensures SplitLines(u + [c]) == ExtendLast(SplitLines(u), [c])
  {
    var j := u + [c];
    assert j[..|j| - 1] == u;
    assert j[|j| - 1] == c;
  }

  /** A line feed at the end starts a new, empty line. */
  lemma SplitAfterLineFeed(s: string)
    ensures SplitLines(s + "\n") == SplitLines(s) + [""]
  {
    var j := s + "\n";
    assert j[..|j| - 1] == s;
    assert j[|j| - 1] == '\n';
  }

  /** One more line: joining adds a line feed and the line, splitting
      gives it back. */
  lemma SplitJoinStep(init: seq<string>, last: string)
    requires |init| >= 1 && NoLineFeed(last)
    requires SplitLines(JoinLines(init)) == init
    ensures SplitLines(JoinLines(init + [last])) == init + [last]
  {
    var j := JoinLines(init) + "\n";
    SplitAfterLineFeed(JoinLines(init));
    SplitAppendLineFree(j, last);
    JoinAppendLine(init, last);
    var x := init + [""];
    assert x[..|x| - 1] == init;
    assert x[|x| - 1] + last == last;
  }

  /** Joining one more line adds a line feed and the line. */
  lemma JoinAppendLine(init: seq<string>, last: string)
    requires |init| >= 1
    ensures JoinLines(init + [last]) == JoinLines(init) + "\n" + last
  {
    assert (init + [last])[..|init|] == init;
  }

  /** One line without line feeds is split back into itself. */
  lemma SplitJoinOneLine(line: string)
    requires NoLineFeed(line)
    ensures SplitLines(JoinLines([line])) == [line]
  {
    SplitAppendLineFree([], line);
    assert [] + line == line;
  }

  /** Splitting line-feed-free lines joined with line feeds gives the same
      lines back. */
  lemma {:induction false} SplitJoinLines(ls: seq<string>)
    requires |ls| >= 1
    requires forall i :: 0 <= i < |ls| ==> NoLineFeed(ls[i])
    ensures SplitLines(JoinLines(ls)) == ls
    decreases |ls|
  {
    if |ls| == 1 {
      SplitJoinOneLine(ls[0]);
      assert ls == [ls[0]];
    } else {
      SplitJoinLines(ls[..|ls| - 1]);
      SplitJoinStep(ls[..|ls| - 1], ls[|ls| - 1]);
      assert ls == ls[..|ls| - 1] + [ls[|ls| - 1]];
    }
  }

  /** A text without line feeds is one line. */
  lemma {:induction false} SplitLineFree(s: string)
    requires NoLineFeed(s)
    ensures SplitLines(s) == [s]
    decreases |s|
  {
    if s != [] {
      assert s[|s| - 1] in s;
      assert NoLineFeed(s[..|s| - 1]) by {
        assert forall c :: c in s[..|s| - 1] ==> c in s;
      }
      SplitLineFree(s[..|s| - 1]);
      assert s == s[..|s| - 1] + [s[|s| - 1]];
    }
  }

  // ---------------------------------------------------------------------
  // getCaretLineInfo (utils/index.ts:739-767)
  // ---------------------------------------------------------------------

  /** A line is blank when `line.trim() === ''`. */
  predicate BlankLine(s: string) {
    Trim(s) == []
  }

  /** A line is blank exactly when every character of it is white space. */
  lemma BlankLineIffAllWhitespace(s: string)
    ensures BlankLine(s) <==> forall i :: 0 <= i < |s| ==> IsWhitespace(s[i])
  {
    var r := TrimStart(s);
    TrimStartRemovesLeadingWhitespace(s);
    TrimEndRemovesTrailingWhitespace(r);
    if BlankLine(s) {
      assert r == [];
    }
  }

  /** The lines of a block's text, dropping a last line that is blank when
      there is more than one (the placeholder line a trailing `<br>`
      leaves). */
  function CaretLines(text: string): (ls: seq<string>)
    ensures |ls| >= 1
    ensures forall i :: 0 <= i < |ls| ==> NoLineFeed(ls[i])
  {
    var split := SplitLines(text);
    SplitLinesHaveNoLineFeed(text);
    if |split| > 1 && BlankLine(split[|split| - 1]) then split[..|split| - 1] else split
  }

  /** The kept lines followed by what was dropped give the text back. */
  lemma CaretLinesArePrefix(text: string)
    ensures CaretLines(text) == SplitLines(text)[..|CaretLines(text)|]
    ensures |SplitLines(text)| - 1 <= |CaretLines(text)|
  {
  }

  /** The offset at which line `i` starts: the lengths of the lines before
      it, each with its line feed. */
  function LineStart(ls: seq<string>, i: nat): nat
    requires i <= |ls|
    decreases i
  {
    if i == 0 then 0 else LineStart(ls, i - 1) + |ls[i - 1]| + 1
  }

  function LineEnd(ls: seq<string>, i: nat): nat
    requires i < |ls|
  {
    LineStart(ls, i) + |ls[i]|
  }

  /** Line `i` sits in the joined text at `LineStart(ls, i)`. */
  lemma {:induction false} LineStartLocatesLine(ls: seq<string>, i: nat)
    requires i < |ls|
    ensures LineEnd(ls, i) <= |JoinLines(ls)|
    ensures JoinLines(ls)[LineStart(ls, i)..LineEnd(ls, i)] == ls[i]
    decreases |ls|
  {
    LineStartOfPrefix(ls, |ls| - 1, i);
    if i == |ls| - 1 {
      if |ls| > 1 {
        LineStartIsJoinedLength(ls[..|ls| - 1]);
        LineStartOfPrefix(ls, |ls| - 1, |ls| - 1);
      }
    } else {
      var init := ls[..|ls| - 1];
      LineStartLocatesLine(init, i);
      LineStartOfPrefix(ls, |ls| - 1, i);
      assert init[i] == ls[i];
      var j := JoinLines(init);
      assert JoinLines(ls) == j + ("\n" + ls[|ls| - 1]);
      assert JoinLines(ls)[LineStart(ls, i)..LineEnd(ls, i)] == j[LineStart(init, i)..LineEnd(init, i)];
    }
  }

  /** Line starts are the same in a prefix of the lines. */
  lemma {:induction false} LineStartOfPrefix(ls: seq<string>, n: nat, i: nat)
    requires i <= n <= |ls|
    ensures LineStart(ls[..n], i) == LineStart(ls, i)
    decreases i
  {
    if i > 0 {
      LineStartOfPrefix(ls, n, i - 1);
    }
  }

  /** The start of the line after the last is one past the joined text. */
  lemma {:induction false} LineStartIsJoinedLength(ls: seq<string>)
    requires |ls| >= 1
    ensures LineStart(ls, |ls|) == |JoinLines(ls)| + 1
    decreases |ls|
  {
    if |ls| > 1 {
      var init := ls[..|ls| - 1];
      LineStartIsJoinedLength(init);
      LineStartOfPrefix(ls, |ls| - 1, |ls| - 1);
    }
  }

  /** The caret's line: the first line whose end is at or after the caret. */
  predicate IsCaretLine(ls: seq<string>, caret: int, i: nat)
  {
    i < |ls| && caret <= LineEnd(ls, i) && forall j :: 0 <= j < i ==> caret > LineEnd(ls, j)
  }

  predicate CaretLineExists(ls: seq<string>, caret: int) {
    exists i :: 0 <= i < |ls| && caret <= LineEnd(ls, i)
  }

  /** What `getCaretLineInfo` returns. */
  datatype LineInfo = LineInfo(lines: seq<string>, currentLineIndex: nat, currentLineCaretOffset: int)

  /** The caret's character offset in `container` for the selection. */
  function CaretOffsetIn(container: Node, selection: Option<DomPoint>): nat
    requires container.Element?
    requires selection.Some? ==> ValidPointIn(container, selection.value.path, selection.value.offset)
  {
    if selection.None? then 0 else Width(AtomsOfAll(CaretFragment(container, selection.value)))
  }

  /** The walk over the lines from line `i`, whose start is `acc`: the
      caret's line index and the start it is counted from. */
  function LocateFrom(ls: seq<string>, caret: int, i: nat, acc: int): (nat, int)
    requires i <= |ls|
    decreases |ls| - i
  {
    if i == |ls| then (0, acc)
    else if caret <= acc + |ls[i]| then (i, acc)
    else LocateFrom(ls, caret, i + 1, acc + |ls[i]| + 1)
  }

  /** The line information for a block's text and a caret offset. */
  function CaretLineInfo(text: string, caret: int): LineInfo {
    var ls := CaretLines(text);
    var located := LocateFrom(ls, caret, 0, 0);
    LineInfo(ls, located.0, caret - located.1)
  }

  lemma {:induction false} LocateFromFindsFirstLine(ls: seq<string>, caret: int, i: nat)
    requires i <= |ls|
    requires forall j :: 0 <= j < i ==> caret > LineEnd(ls, j)
    ensures var r := LocateFrom(ls, caret, i, LineStart(ls, i));
      if CaretLineExists(ls, caret) then IsCaretLine(ls, caret, r.0) && r.1 == LineStart(ls, r.0)
      else r.0 == 0 && r.1 == LineStart(ls, |ls|)
    decreases |ls| - i
  {
    if i < |ls| && caret > LineStart(ls, i) + |ls[i]| {
      LocateFromFindsFirstLine(ls, caret, i + 1);
    } else if i < |ls| {
      assert caret <= LineEnd(ls, i);
    }
  }

  /** The caret's line is the first line ending at or after the caret and
      the offset is counted from its start; when no line qualifies the
      index is 0 and the offset is counted past the last line feed. */
  lemma CaretLineInfoLocatesLine(text: string, caret: int)
    ensures var info := CaretLineInfo(text, caret);
      info.lines == CaretLines(text)
      && if CaretLineExists(info.lines, caret) then
        IsCaretLine(info.lines, caret, info.currentLineIndex)
        && info.currentLineCaretOffset == caret - LineStart(info.lines, info.currentLineIndex)
      else
        info.currentLineIndex == 0 && info.currentLineCaretOffset == caret - LineStart(info.lines, |info.lines|)
  {
    LocateFromFindsFirstLine(CaretLines(text), caret, 0);
  }

  /** Splits the block's text into lines and walks them with the running
      start offset until the caret falls inside one. */
  method GetCaretLineInfo(container: Node, selection: Option<DomPoint>) returns (info: LineInfo)
    requires container.Element?
    requires selection.Some? ==> ValidPointIn(container, selection.value.path, selection.value.offset)
    ensures info == CaretLineInfo(TextContent(container, false, false), CaretOffsetIn(container, selection))
  {
    var text := TextContent(container, false, false);
    var lines := CaretLines(text);
    var caretOffset := GetCaretCharacterOffset(container, selection);
    var currentLineIndex := 0;
    var accumulated := 0;
    var i := 0;
    while i < |lines|
      invariant 0 <= i <= |lines|
      invariant LocateFrom(lines, caretOffset, i, accumulated) == LocateFrom(lines, caretOffset, 0, 0)
    {
      if caretOffset <= accumulated + |lines[i]| {
        currentLineIndex := i;
        break;
      }
      accumulated := accumulated + |lines[i]| + 1;
      i := i + 1;
    }
    info := LineInfo(lines, currentLineIndex, caretOffset - accumulated);
  }

  /** A caret inside the kept lines always finds its line, and its offset
      in the line lies between 0 and the line's length. */
  lemma CaretWithinLinesIsFound(ls: seq<string>, caret: nat)
    requires |ls| >= 1 && caret <= |JoinLines(ls)|
    ensures CaretLineExists(ls, caret)
    ensures forall i: nat :: IsCaretLine(ls, caret, i) ==> 0 <= caret - LineStart(ls, i) <= |ls[i]|
  {
    LineStartIsJoinedLength(ls);
    assert caret <= LineEnd(ls, |ls| - 1);
    forall i: nat | IsCaretLine(ls, caret, i)
      ensures 0 <= caret - LineStart(ls, i)
    {
      if i > 0 {
        assert caret > LineEnd(ls, i - 1);
      }
    }
  }

  // ---------------------------------------------------------------------
  // extractFullLineInfo (utils/index.ts:773-789)
  // ---------------------------------------------------------------------

  datatype FullLineInfo = FullLineInfo(
    isInFirstLine: bool,
    isInThirdLine: bool,
    isTwoFirstLineEmpty: bool,
    isInLastLine: bool,
    isTwoLastLineEmpty: bool,
    isStartOfCurrentLine: bool,
    isCurrentLineEmpty: bool)

  /** `lines[i]?.trim() === ''`: false for an index outside the lines. */
  predicate BlankAt(ls: seq<string>, i: int) {
    0 <= i < |ls| && BlankLine(ls[i])
  }

  predicate AllWhitespace(s: string) {
    forall k :: 0 <= k < |s| ==> IsWhitespace(s[k])
  }

  function FullLineInfoOf(info: LineInfo): FullLineInfo {
    var ls := info.lines;
    FullLineInfo(
      info.currentLineIndex == 0,
      info.currentLineIndex == 2,
      |ls| >= 2 && BlankAt(ls, 0) && BlankAt(ls, 1),
      info.currentLineIndex == |ls| - 1,
      |ls| >= 2 && BlankAt(ls, |ls| - 2) && BlankAt(ls, |ls| - 1),
      info.currentLineCaretOffset == 0,
      BlankAt(ls, info.currentLineIndex))
  }

  /** The emptiness flags hold exactly when the lines they look at exist
      and consist of white space only. */
  lemma FullLineInfoFlags(info: LineInfo)
    ensures FullLineInfoOf(info).isInLastLine <==> info.currentLineIndex + 1 == |info.lines|
    ensures FullLineInfoOf(info).isTwoFirstLineEmpty <==>
      |info.lines| >= 2 && AllWhitespace(info.lines[0]) && AllWhitespace(info.lines[1])
    ensures FullLineInfoOf(info).isTwoLastLineEmpty <==>
      |info.lines| >= 2 && AllWhitespace(info.lines[|info.lines| - 2]) && AllWhitespace(info.lines[|info.lines| - 1])
    ensures FullLineInfoOf(info).isCurrentLineEmpty <==>
      info.currentLineIndex < |info.lines| && AllWhitespace(info.lines[info.currentLineIndex])
  {
    var ls := info.lines;
    BlankAtIffAllWhitespace(ls, 0);
    BlankAtIffAllWhitespace(ls, 1);
    BlankAtIffAllWhitespace(ls, |ls| - 2);
    BlankAtIffAllWhitespace(ls, |ls| - 1);
    BlankAtIffAllWhitespace(ls, info.currentLineIndex);
  }

  lemma BlankAtIffAllWhitespace(ls: seq<string>, i: int)
    ensures BlankAt(ls, i) <==> 0 <= i < |ls| && AllWhitespace(ls[i])
  {
    if 0 <= i < |ls| {
      BlankLineIffAllWhitespace(ls[i]);
    }
  }

  /** `extractFullLineInfo`: the flags of the caret's line information. */
  method ExtractFullLineInfo(container: Node, selection: Option<DomPoint>) returns (flags: FullLineInfo)
    requires container.Element?
    requires selection.Some? ==> ValidPointIn(container, selection.value.path, selection.value.offset)
    ensures flags == FullLineInfoOf(CaretLineInfo(TextContent(container, false, false), CaretOffsetIn(container, selection)))
  {
    var info := GetCaretLineInfo(container, selection);
    flags := FullLineInfoOf(info);
  }
}
