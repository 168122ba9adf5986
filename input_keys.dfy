/** How the composer reacts to a key press: the send check, the special
    keys inside code blocks and quotes, the undo/redo shortcuts and the
    automatic pairing of Markdown marker characters
    (src/contest/text-editor/MessageInputController.tsx). */
module InputKeys {
  import opened Wrappers
  import opened TextModel
  import opened Lines
  import opened MarkdownEditorUtils

  /** The parts of a `KeyboardEvent` the composer reads. */
  datatype KeyEvent = KeyEvent(key: string, code: string, repeat: bool, shiftKey: bool, ctrlKey: bool, metaKey: bool)

  /** `messageSendKeyCombo`. */
  datatype SendKeyCombo = EnterSends | CtrlEnterSends | NoSendCombo

  /** The kind of block the caret is in, read off the topmost block-level
      element around it (`getBlockInfo`). */
  datatype BlockType = Paragraph | CodeBlock | QuoteBlock

  function BlockTypeOf(blockElement: Option<EntityType>): (r: BlockType)
    ensures r == CodeBlock <==> blockElement == Some(Pre)
    ensures r == QuoteBlock <==> blockElement == Some(Blockquote)
  {
    if blockElement == Some(Pre) then CodeBlock
    else if blockElement == Some(Blockquote) then QuoteBlock
    else Paragraph
  }

  /** What a handled key does to the block it is pressed in. */
  datatype BlockAction =
    | HardBreakBefore
    | HardBreakAfter
    | RemoveHeaderAndFooter
    | CaretToCodeStart
    | RemoveBlock
    | CaretToPreviousSibling
    | DropFirstTwoLinesAndBreakBefore
    | DropLastTwoLinesAndBreakAfter

  // ---------------------------------------------------------------------
  // _handleCodeBlockKeyDown (MessageInputController.tsx:674-728)
  // ---------------------------------------------------------------------

  /** Where the caret is in a code block: in its header or footer marker
      line, with the caret offset inside that line, and whether the code
      element and its line information could be found at all. */
  datatype CodeBlockCaret = CodeBlockCaret(
    contentFound: bool, isInHeader: bool, isInFooter: bool, headerOffset: nat, footerOffset: nat)

  /** The code-block table; `None` leaves the key to the default
      handling. The handler compares `event.code`, not `event.key`. */
  function CodeBlockKeyDown(code: string, c: CodeBlockCaret): (r: Option<BlockAction>)
    ensures !c.contentFound || (code != "Backspace" && code != "Enter") ==> r.None?
    ensures c.contentFound && code == "Backspace" ==>
      && (c.isInHeader ==>
            r == (if c.headerOffset == 0 then Some(HardBreakBefore)
                  else if c.headerOffset <= 3 then Some(RemoveHeaderAndFooter) else None))
      && (!c.isInHeader && c.isInFooter ==>
            r == (if c.footerOffset == 0 then Some(CaretToCodeStart)
                  else if c.footerOffset <= 3 then Some(RemoveHeaderAndFooter) else None))
      && (!c.isInHeader && !c.isInFooter ==> r.None?)
    ensures c.contentFound && code == "Enter" ==>
      && (c.isInHeader ==> r == Some(if c.headerOffset == 0 then HardBreakBefore else CaretToCodeStart))
      && (!c.isInHeader && c.isInFooter ==> r == Some(HardBreakAfter))
      && (!c.isInHeader && !c.isInFooter ==> r.None?)
    ensures r.Some? ==> r.value in {HardBreakBefore, HardBreakAfter, RemoveHeaderAndFooter, CaretToCodeStart}
  {
    if !c.contentFound then None
    else if code == "Backspace" then
      if c.isInHeader then
        if c.headerOffset == 0 then Some(HardBreakBefore)
        else if c.headerOffset <= 3 then Some(RemoveHeaderAndFooter)
        else None
      else if c.isInFooter then
        if c.footerOffset == 0 then Some(CaretToCodeStart)
        else if c.footerOffset <= 3 then Some(RemoveHeaderAndFooter)
        else None
      else None
    else if code == "Enter" then
      if c.isInHeader then
        if c.headerOffset == 0 then Some(HardBreakBefore) else Some(CaretToCodeStart)
      else if c.isInFooter then Some(HardBreakAfter)
      else None
    else None
  }

  /** The markers of a code block are only ever removed together: a key
      that removes one removes both, and only Backspace removes them. */
  lemma CodeBlockMarkersGoTogether(code: string, c: CodeBlockCaret)
    ensures CodeBlockKeyDown(code, c) == Some(RemoveHeaderAndFooter) <==>
      && c.contentFound && code == "Backspace"
      && ((c.isInHeader && 0 < c.headerOffset <= 3) || (!c.isInHeader && c.isInFooter && 0 < c.footerOffset <= 3))
  {
  }

  // ---------------------------------------------------------------------
  // _handleBlockQuoteKeyDown (MessageInputController.tsx:635-672)
  // ---------------------------------------------------------------------

  /** The quote table, over the line flags of the quote's text container
      (`None` when the container or the caret's line is missing). */
  function BlockQuoteKeyDown(code: string, flags: Option<FullLineInfo>): (r: Option<BlockAction>)
    ensures flags.None? ==> r.None?
    ensures r == Some(RemoveBlock) <==>
      flags.Some? && code == "Backspace" && flags.value.isInFirstLine && flags.value.isInLastLine && flags.value.isCurrentLineEmpty
    ensures r == Some(CaretToPreviousSibling) <==>
      && flags.Some? && code == "Backspace" && flags.value.isInFirstLine && flags.value.isStartOfCurrentLine
      && !(flags.value.isInLastLine && flags.value.isCurrentLineEmpty)
    ensures r == Some(DropFirstTwoLinesAndBreakBefore) <==>
      flags.Some? && code == "Enter" && flags.value.isInThirdLine && flags.value.isTwoFirstLineEmpty
    ensures r == Some(DropLastTwoLinesAndBreakAfter) <==>
      && flags.Some? && code == "Enter" && flags.value.isInLastLine && flags.value.isTwoLastLineEmpty
      && !(flags.value.isInThirdLine && flags.value.isTwoFirstLineEmpty)
    ensures r.Some? ==>
      r.value in {RemoveBlock, CaretToPreviousSibling, DropFirstTwoLinesAndBreakBefore, DropLastTwoLinesAndBreakAfter}
  {
    if flags.None? then None
    else
      var f := flags.value;
      if code == "Backspace" then
        if f.isInFirstLine && f.isInLastLine && f.isCurrentLineEmpty then Some(RemoveBlock)
        else if f.isInFirstLine && f.isStartOfCurrentLine then Some(CaretToPreviousSibling)
        else None
      else if code == "Enter" then
        if f.isInThirdLine && f.isTwoFirstLineEmpty then Some(DropFirstTwoLinesAndBreakBefore)
        else if f.isInLastLine && f.isTwoLastLineEmpty then Some(DropLastTwoLinesAndBreakAfter)
        else None
      else None
  }

  /** Backspace removes a quote only when its whole text is one blank
      line. */
  lemma QuoteRemovedOnlyWhenEmpty(code: string, info: LineInfo)
    requires BlockQuoteKeyDown(code, Some(FullLineInfoOf(info))) == Some(RemoveBlock)
    ensures |info.lines| == 1 && AllWhitespace(info.lines[0])
  {
    FullLineInfoFlags(info);
  }

  // ---------------------------------------------------------------------
  // _keydownHandler (MessageInputController.tsx:525-584)
  // ---------------------------------------------------------------------

  /** `getBlockInfo`, as far as the key handlers read it: the topmost
      block-level element's kind and where the caret is inside it. */
  datatype BlockInfo = BlockInfo(blockElement: Option<EntityType>, codeCaret: CodeBlockCaret, quoteLines: Option<FullLineInfo>)

  /** What the composer does with a key press. */
  datatype Reaction =
    | LeftToSend
    | Block(action: BlockAction)
    | RemoveBlockElement
    | SimulateEnter
    | UndoHistory
    | RedoHistory
    | CheckForAutoInsert
    | NoReaction

  predicate IsSend(combo: SendKeyCombo, ev: KeyEvent) {
    ev.key == "Enter" &&
    ((combo == EnterSends && !ev.shiftKey) || (combo == CtrlEnterSends && (ev.ctrlKey || ev.metaKey)))
  }

  /** The block handler's answer for the block the caret is in. */
  function BlockReaction(ev: KeyEvent, info: Option<BlockInfo>): Option<BlockAction> {
    if (ev.key != "Backspace" && ev.key != "Enter") || info.None? then None
    else
      match BlockTypeOf(info.value.blockElement)
      case CodeBlock => CodeBlockKeyDown(ev.code, info.value.codeCaret)
      case QuoteBlock => BlockQuoteKeyDown(ev.code, info.value.quoteLines)
      case Paragraph => None
  }

  /** `_keydownHandler`. `info` is absent when there is no selection. */
  function Keydown(combo: SendKeyCombo, ev: KeyEvent, info: Option<BlockInfo>): (r: Reaction)
    ensures IsSend(combo, ev) <==> r == LeftToSend
    ensures !IsSend(combo, ev) && BlockReaction(ev, info).Some? ==> r == Block(BlockReaction(ev, info).value)
    ensures r.Block? ==> (ev.key == "Backspace" || ev.key == "Enter") && info.Some? && BlockTypeOf(info.value.blockElement) != Paragraph
    ensures r == RemoveBlockElement <==> ev.key == "Delete" && info.Some? && info.value.blockElement.Some?
    ensures r == SimulateEnter <==>
      ev.key == "Enter" && !ev.shiftKey && !IsSend(combo, ev) && BlockReaction(ev, info).None?
    ensures r == UndoHistory <==>
      ev.key == "z" && (ev.ctrlKey || ev.metaKey) && !ev.repeat && !ev.shiftKey
    ensures r == RedoHistory <==>
      (ev.key == "z" || ev.key == "y") && (ev.ctrlKey || ev.metaKey) && !ev.repeat && (ev.shiftKey || ev.key == "y")
    ensures r == CheckForAutoInsert <==>
      ev.key !in {"Delete", "Enter"} && !((ev.ctrlKey || ev.metaKey) && !ev.repeat) && BlockReaction(ev, info).None?
  {
    if IsSend(combo, ev) then LeftToSend
    else if BlockReaction(ev, info).Some? then Block(BlockReaction(ev, info).value)
    else if ev.key == "Delete" then
      if info.Some? && info.value.blockElement.Some? then RemoveBlockElement else NoReaction
    else if ev.key == "Enter" then
      if !ev.shiftKey then SimulateEnter else NoReaction
    else if (ev.ctrlKey || ev.metaKey) && !ev.repeat then
      if ev.key == "z" then (if ev.shiftKey then RedoHistory else UndoHistory)
      else if ev.key == "y" then RedoHistory
      else NoReaction
    else CheckForAutoInsert
  }

  /** A key pressed with Enter's key but another code (the numeric keypad's
      Enter) is never taken by a block handler, which compare codes. */
  lemma NumpadEnterSkipsBlockHandlers(combo: SendKeyCombo, ev: KeyEvent, info: Option<BlockInfo>)
    requires ev.key == "Enter" && ev.code == "NumpadEnter" && !IsSend(combo, ev)
    ensures Keydown(combo, ev, info) == (if ev.shiftKey then NoReaction else SimulateEnter)
  {
  }

  // ---------------------------------------------------------------------
  // MarkdownHandler.checkForAutoInsert (MessageInputController.tsx:96-154)
  // ---------------------------------------------------------------------

  /** An edit of the editor's text: `inserted` goes in at offset `at`, and
      the caret ends at `caretAfter`. */
  datatype TextEdit = TextEdit(at: nat, inserted: string, caretAfter: nat)

  function Apply(text: string, e: TextEdit): string
    requires e.at <= |text|
  {
    text[..e.at] + e.inserted + text[e.at..]
  }

  /** `currentText[i]`, undefined outside the text. */
  function CharAt(text: string, i: int): Option<char> {
    if 0 <= i < |text| then Some(text[i]) else None
  }

  /** `isAccepted`: no character, or white space (`trim() === ''`). */
  predicate IsAccepted(c: Option<char>) {
    c.None? || IsWhitespace(c.value)
  }

  /** `handleInsertCharacter`: `count` copies of the key at the caret,
      with the caret after `eachSide` of them. */
  function InsertCharacter(key: string, eachSide: nat, count: nat, caret: nat): TextEdit
    requires |key| == 1
  {
    TextEdit(caret, seq(count, _ => key[0]), caret + eachSide)
  }

  /** The pairing rule as written: the character after the caret is read
      at `caret + 1`, one past the one that follows the caret. */
  function PairingAsWritten(key: string, eachSide: nat, text: string, caret: nat): (r: TextEdit)
    requires |key| == 1
    ensures r.at == caret
    ensures IsAccepted(CharAt(text, caret - 1)) && IsAccepted(CharAt(text, caret + 1)) ==>
      && r.inserted == seq(2 * eachSide, _ => key[0])
      && r.caretAfter == caret + eachSide
    ensures !(IsAccepted(CharAt(text, caret - 1)) && IsAccepted(CharAt(text, caret + 1))) ==>
      r.inserted == key && r.caretAfter == caret + 1
  {
    var valid := IsAccepted(CharAt(text, caret - 1)) && IsAccepted(CharAt(text, caret + 1));
    assert seq(1, _ => key[0]) == key;
    InsertCharacter(key, if valid then eachSide else 1, if valid then eachSide * 2 else 1, caret)
  }

  /** The pairing rule with the character right after the caret. */
  function Pairing(key: string, eachSide: nat, text: string, caret: nat): (r: TextEdit)
    requires |key| == 1 && eachSide >= 1
    ensures r.at == caret
    ensures IsAccepted(CharAt(text, caret - 1)) && IsAccepted(CharAt(text, caret)) ==>
      && r.inserted == seq(2 * eachSide, _ => key[0])
      && r.caretAfter == caret + eachSide
    ensures !(IsAccepted(CharAt(text, caret - 1)) && IsAccepted(CharAt(text, caret))) ==>
      r.inserted == key && r.caretAfter == caret + 1
  {
    var valid := IsAccepted(CharAt(text, caret - 1)) && IsAccepted(CharAt(text, caret));
    InsertCharacter(key, if valid then eachSide else 1, if valid then eachSide * 2 else 1, caret)
  }

  /** A paired key puts the caret exactly between the two halves: the
      text before the caret ends with `eachSide` copies of the key and the
      text after it starts with as many. */
  lemma PairingSurroundsCaret(key: string, eachSide: nat, text: string, caret: nat)
    requires |key| == 1 && eachSide >= 1 && caret <= |text|
    requires IsAccepted(CharAt(text, caret - 1)) && IsAccepted(CharAt(text, caret))
    ensures var e := Pairing(key, eachSide, text, caret);
      var t := Apply(text, e);
      && |t| == |text| + 2 * eachSide
      && t[..caret] == text[..caret]
      && t[caret..e.caretAfter] == seq(eachSide, _ => key[0])
      && t[e.caretAfter..e.caretAfter + eachSide] == seq(eachSide, _ => key[0])
      && t[e.caretAfter + eachSide..] == text[caret..]
  {
    var e := Pairing(key, eachSide, text, caret);
    var t := Apply(text, e);
    assert t[caret..e.caretAfter] == e.inserted[..eachSide];
    assert t[e.caretAfter..e.caretAfter + eachSide] == e.inserted[eachSide..];
    assert t[e.caretAfter + eachSide..] == text[caret..];
  }

  /** The two readings differ only when the character right after the
      caret and the one after it are judged differently. */
  lemma PairingAgreesWhenNextCharsAlike(key: string, eachSide: nat, text: string, caret: nat)
    requires |key| == 1 && eachSide >= 1
    requires IsAccepted(CharAt(text, caret)) == IsAccepted(CharAt(text, caret + 1))
    ensures PairingAsWritten(key, eachSide, text, caret) == Pairing(key, eachSide, text, caret)
  {
  }

  /** Typing `*` right before a word pairs it as written, because the
      character examined is the one after the word's first letter; with
      the character right after the caret it is typed once. */
  lemma PairingAsWrittenReadsPastNextChar()
    ensures PairingAsWritten("*", 1, "x", 0) == TextEdit(0, "**", 1)
    ensures Pairing("*", 1, "x", 0) == TextEdit(0, "*", 1)
  {
    assert seq(2, _ => '*') == "**";
    assert seq(1, _ => '*') == "*";
  }

  /** The text typed to open a code block after "``": the third backtick,
      the (empty) default language, a blank code line and the footer. */
  const CodeBlockTemplate := "`\n\n```"

  /** Whether the key press turns the caret's line "``" into a code
      block: only for a backtick, in a paragraph. */
  predicate OpensCodeBlock(key: string, text: string, caret: nat, blockType: BlockType) {
    var info := CaretLineInfo(text, caret);
    key == "`" && info.currentLineIndex < |info.lines| && info.lines[info.currentLineIndex] == "``" && blockType == Paragraph
  }

  /** The code-block opening as written: the caret is moved to, and left
      at, offsets counted from the start of the whole text, although the
      line "``" they are computed from may be any line. */
  function OpenCodeBlockAsWritten(text: string, caret: nat): (r: TextEdit)
    ensures r.inserted == CodeBlockTemplate && r.caretAfter == 3
    ensures CaretLineInfo(text, caret).currentLineCaretOffset == 2 ==> r.at == caret
    ensures CaretLineInfo(text, caret).currentLineCaretOffset != 2 ==> r.at == 2
  {
    var info := CaretLineInfo(text, caret);
    var lineLength := 2;
    var at := if info.currentLineCaretOffset != lineLength then lineLength else caret;
    TextEdit(at, CodeBlockTemplate, lineLength + |CodeBlockTemplate[..1]|)
  }

  /** The start of the caret's line. */
  function CaretLineStart(text: string, caret: nat): nat {
    CaretLineInfoLocatesLine(text, caret);
    caret - CaretLineInfo(text, caret).currentLineCaretOffset
  }

  /** The code-block opening with offsets counted from the start of the
      caret's line: the template goes at the end of the "``" line and the
      caret right after the third backtick. */
  function OpenCodeBlock(text: string, caret: nat): (r: TextEdit)
    ensures r.at == CaretLineStart(text, caret) + 2 && r.caretAfter == r.at + 1
    ensures r.inserted == CodeBlockTemplate
  {
    var lineEnd := CaretLineStart(text, caret) + 2;
    TextEdit(lineEnd, CodeBlockTemplate, lineEnd + |CodeBlockTemplate[..1]|)
  }

  /** Line `i` of the caret lines sits in the text at its start offset. */
  lemma CaretLineInText(text: string, i: nat)
    requires i < |CaretLines(text)|
    ensures LineEnd(CaretLines(text), i) <= |text|
    ensures text[LineStart(CaretLines(text), i)..LineEnd(CaretLines(text), i)] == CaretLines(text)[i]
  {
    var ls := CaretLines(text);
    var sp := SplitLines(text);
    CaretLinesArePrefix(text);
    LineStartOfPrefix(sp, |ls|, i);
    assert sp[i] == ls[i];
    LineStartLocatesLine(sp, i);
    JoinSplitLines(text);
  }

  /** With the caret on the line "``", the corrected opening leaves that
      line reading "```" with the caret at its end, ready for the
      language; the text before the line is untouched. */
  lemma OpenCodeBlockCompletesFence(text: string, caret: nat)
    requires caret <= |text|
    requires var info := CaretLineInfo(text, caret);
      CaretLineExists(info.lines, caret) && info.currentLineIndex < |info.lines| && info.lines[info.currentLineIndex] == "``"
    ensures var e := OpenCodeBlock(text, caret);
      var start := CaretLineStart(text, caret);
      && e.at <= |text|
      && Apply(text, e)[..start] == text[..start]
      && Apply(text, e)[start..e.caretAfter] == "```"
  {
    var info := CaretLineInfo(text, caret);
    CaretLineInfoLocatesLine(text, caret);
    var i := info.currentLineIndex;
    CaretLineInText(text, i);
    var start := CaretLineStart(text, caret);
    assert start == LineStart(info.lines, i);
    var e := OpenCodeBlock(text, caret);
    var t := Apply(text, e);
    assert t[start..e.at] == text[start..e.at] == "``";
    assert t[e.at..e.caretAfter] == "`";
    assert t[start..e.caretAfter] == t[start..e.at] + t[e.at..e.caretAfter];
  }

  /** On the text's first line, where offsets from the line's start and
      from the text's start coincide, the two openings are the same. */
  lemma OpenCodeBlockAgreesOnFirstLine(text: string, caret: nat)
    requires CaretLineStart(text, caret) == 0
    ensures OpenCodeBlockAsWritten(text, caret) == OpenCodeBlock(text, caret)
  {
  }

  /** On the second line the opening as written leaves the caret at offset
      3 of the whole text, between the first two backticks, instead of
      after the third at offset 5. */
  lemma OpenCodeBlockAsWrittenMisplacesCaret()
    ensures OpenCodeBlockAsWritten("a\n``", 4) == TextEdit(4, CodeBlockTemplate, 3)
    ensures OpenCodeBlock("a\n``", 4) == TextEdit(4, CodeBlockTemplate, 5)
  {
    FenceOnSecondLine();
  }

  /** In "a\n``" with the caret at 4, the caret is at the end of the
      second line, "``". */
  lemma FenceOnSecondLine()
    ensures CaretLineInfo("a\n``", 4) == LineInfo(["a", "``"], 1, 2)
  {
    var text := "a\n``";
    var ls := ["a", "``"];
    assert ls[..1] == ["a"];
    assert JoinLines(ls) == text;
    assert NoLineFeed("a") && NoLineFeed("``");
    SplitJoinLines(ls);
    assert !BlankLine("``");
    assert CaretLines(text) == ls;
    assert LocateFrom(["a", "``"], 4, 0, 0) == (1, 2);
  }

  /** `checkForAutoInsert`, for a key press with the caret collapsed in
      the editor; `None` leaves the key to the browser. The pairing and the
      code-block opening are the ones the source runs. */
  function AutoInsert(ev: KeyEvent, text: string, caret: nat, blockType: BlockType): (r: Option<TextEdit>)
    ensures r.Some? <==> ev.key in AutoInsertChars && !ev.repeat
    ensures r.Some? && !OpensCodeBlock(ev.key, text, caret, blockType) ==>
      r.value == PairingAsWritten(ev.key, AutoInsertChars[ev.key], text, caret)
    ensures r.Some? && OpensCodeBlock(ev.key, text, caret, blockType) ==> r.value == OpenCodeBlockAsWritten(text, caret)
  {
    if ev.key !in AutoInsertChars || ev.repeat then None
    else if OpensCodeBlock(ev.key, text, caret, blockType) then Some(OpenCodeBlockAsWritten(text, caret))
    else
      Some(PairingAsWritten(ev.key, AutoInsertChars[ev.key], text, caret))
  }

  /** The source's auto-insert doubles `*` typed right before `x`, and on
      the second line of "a\n``" leaves the caret before the fence. */
  lemma AutoInsertAsTheSourceRunsIt(ev: KeyEvent, ev2: KeyEvent)
    requires ev.key == "*" && !ev.repeat && ev2.key == "`" && !ev2.repeat
    ensures AutoInsert(ev, "x", 0, Paragraph) == Some(TextEdit(0, "**", 1))
    ensures AutoInsert(ev2, "a\n``", 4, Paragraph) == Some(TextEdit(4, CodeBlockTemplate, 3))
  {
    PairingAsWrittenReadsPastNextChar();
    OpenCodeBlockAsWrittenMisplacesCaret();
    FenceOnSecondLine();
  }
}
