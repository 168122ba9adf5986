# Rich-text message composer: a Dafny model

This project models the logic core of a rich-text message composer. The composer comes from a Telegram web client's contest entry.

The user types Markdown-like markers into a contenteditable editor. The editor keeps a formatted text: a string plus entities, each entity a typed range with an offset, a length and one or two type-specific fields. Around that text the editor has:

- a bounded undo/redo history;
- keyboard rules for code blocks and quotes;
- auto-pairing of markers;
- a pipeline from the editor's tree to Markdown, from Markdown tokens to a formatted text, and from the tree to tokens;
- caret arithmetic over the document;
- a few small helpers around it: building a formatted text from parts, folder-title icons, code-language names, and splitting emoji into rows.

The browser DOM is replaced by a value: a node tree `Text | Br | Element(tag, entity, isMarker, attrs, children)`. The caret is held as a character offset, or as a path and offset into that tree.

Every operation has a specification function or a contract. Where the source changes state step by step, the model does too:

- `HistoryManager`, `MultiLock`, `ChangeNotifier`, `MarkdownHandler`, the controller, the pending-entity stack and the folder-title edit are classes whose methods are proved against the functions.
- The caret walks, the line search, `buildFormattedText`, `tokensToFormattedText` and the Markdown serializer are loops or recursive walks with invariants.

The Markdown lexer (`marked`) is a parameter. So are the code-block extractor of the rendering component and the renderer.

Modules, one per source area:

| file | module | models |
|---|---|---|
| wrappers.dfy | Wrappers | `Option` and `Result` |
| text_model.dfy | TextModel | entities, `normalizeWhitespace`, `areFormattedTextsEqual` with its in-place sort |
| sync.dfy | Sync | `MultiLock`, `ChangeNotifier` |
| dom_tree.dfy | DomTree | the node tree, caret atoms, `getTextContentWithBreaks`, HTML serialization |
| caret.dfy | Caret | `getCaretCharacterOffset`, `setCaretCharacterOffset` |
| lines.dfy | Lines | `getCaretLineInfo`, `extractFullLineInfo` |
| dom_edit.dfy | DomEdit | `moveContentOutsideOfElement`, `addTextAtStartAndEndOfSelection`, `insertHardBreak`, the topmost-entity walks |
| marked.dfy | MarkedJS | token trees, `isStructureEqual`, `hasStructureChanged` |
| markers.dfy | MarkdownEditorUtils | the marker tables |
| token_entities.dfy | TokenEntities | `getEntityFromToken`, `entityTypeToTokenType`, `getEntityFromHtmlToken` |
| tokens_to_text.dfy | TokensToText | `tokensToFormattedText` |
| html_to_markdown.dfy | HtmlToMarkdown | `htmlToMarkdown` |
| html_to_tokens.dfy | HtmlToTokens | `htmlToTokens`, `htmlToFormattedText` |
| history.dfy | History | `HistoryManager` |
| input_keys.dfy | InputKeys | the keydown dispatch, the code-block and quote key tables, auto-insert |
| input_controller.dfy | InputController | format availability and toggling, `MarkdownHandler`, the controller's history wiring |
| build_text.dfy | BuildText | `buildFormattedText` |
| folder_icons.dfy | FolderIcons | folder icons and title icon stripping |
| pretty_code.dfy | PrettyCode | code-language display names |
| emoji_picker.dfy | EmojiPicker | `chunkArray` |

Entity types are compared by their wire names (`MessageEntityBold`, `MessageEntityPre`, and so on). These are the values of the client's `ApiMessageEntityTypes`. src/api/types is not part of this model; the names are taken from the client the contest builds on.

## Model

| member | source | states |
|---|---|---|
| TextModel.ParseWireName | src/contest/text-editor/TokenHelper.tsx:434-443 | a `data-entity-type` value read back as an entity type is one whose wire name is that value |
| TextModel.ParseWireNameRoundTrip | src/contest/text-editor/TokenHelper.tsx:456-503 | every entity type's wire name parses back to that type, so the type tests on a pending entity see the type that was written |
| TextModel.ComparedField | src/contest/text-editor/utils/index.ts:68-74 | the extra field compared per type: `language` for Pre, `url` for TextUrl, `userId` for MentionName, `collapsed` for Blockquote, `documentId` for CustomEmoji, none for any other type |
| TextModel.ComparedFieldAsWrittenNeverFound | src/contest/text-editor/utils/index.ts:68-95 | as written, the table is keyed by short names but looked up by wire name, so no type finds a key |
| TextModel.ToLower | src/util/prettyCodeLanguageNames.ts:42 | `toLowerCase` keeps the length and lower-cases each character |
| TextModel.TrimStartRemovesLeadingWhitespace | src/contest/text-editor/utils/index.ts:78 | trimming the start removes exactly a whitespace prefix and leaves a result that does not start with whitespace |
| TextModel.TrimEndRemovesTrailingWhitespace | src/contest/text-editor/utils/index.ts:78 | trimming the end removes exactly a whitespace suffix and leaves a result that does not end with whitespace |
| TextModel.CollapseWhitespaceProperties | src/contest/text-editor/utils/index.ts:78 | `replace(/\s+/g, ' ')` keeps every non-whitespace character in order, leaves single spaces only, and keeps emptiness and whether the string starts with whitespace |
| TextModel.NormalizeWhitespaceCorrect | src/contest/text-editor/utils/index.ts:76-79 | `normalizeWhitespace` keeps the non-whitespace characters in order; its result has single spaces between words and no leading or trailing whitespace |
| TextModel.CanonicalIsNormalized | src/contest/text-editor/utils/index.ts:76-79 | a string already in that form is left unchanged |
| TextModel.NormalizeWhitespaceIdempotent | src/contest/text-editor/utils/index.ts:76-79 | normalizing twice equals normalizing once |
| TextModel.NormalizeWhitespace | src/contest/text-editor/utils/index.ts:76-79 | runs of white space become one space and the ends are trimmed; its properties are the rows NormalizeWhitespaceCorrect and NormalizeWhitespaceIdempotent |
| TextModel.InsertByOffset | src/contest/text-editor/utils/index.ts:86-87 | one insertion step of the sort by offset adds exactly the one entity |
| TextModel.InsertKeepsSorted | src/contest/text-editor/utils/index.ts:86-87 | inserting into a list sorted by offset keeps it sorted |
| TextModel.SortByOffset | src/contest/text-editor/utils/index.ts:86-87 | the sort by `e1.offset - e2.offset` is a permutation of its input and is sorted by offset |
| TextModel.SortSortedIsIdentity | src/contest/text-editor/utils/index.ts:86-87 | a list already sorted by offset is not reordered |
| TextModel.AreFormattedTextsEqualReflexive | src/contest/text-editor/utils/index.ts:81-97 | the corrected comparison (the intended half of Findings row 1) holds of every formatted text, and of the missing one, with itself |
| TextModel.AreFormattedTextsEqualSymmetric | src/contest/text-editor/utils/index.ts:81-97 | the corrected comparison does not depend on argument order |
| TextModel.AreFormattedTextsEqualTransitive | src/contest/text-editor/utils/index.ts:81-97 | the corrected comparison is transitive |
| TextModel.AreFormattedTextsEqual | src/contest/text-editor/utils/index.ts:81-97 | the corrected comparison: both texts missing, or normalized texts equal and the offset-sorted entities agreeing pairwise in type, offset, length and the type's compared field |
| TextModel.AreFormattedTextsEqualAsWritten | src/contest/text-editor/utils/index.ts:81-97 | the comparison as the source runs it, with the compared field looked up by wire name; its meaning is the row AsWrittenEqualityMeaning |
| TextModel.AreFormattedTextsEqualAsWrittenReflexive | src/contest/text-editor/utils/index.ts:81-97 | the comparison as written holds of every formatted text, and of the missing one, with itself |
| TextModel.AreFormattedTextsEqualAsWrittenSymmetric | src/contest/text-editor/utils/index.ts:81-97 | the comparison as written does not depend on argument order |
| TextModel.AreFormattedTextsEqualAsWrittenTransitive | src/contest/text-editor/utils/index.ts:81-97 | the comparison as written is transitive |
| TextModel.AsWrittenEqualityMeaning | src/contest/text-editor/utils/index.ts:84-96 | two present texts are equal as written exactly when their normalized texts match and their offset-sorted entities agree pairwise in type, offset and length, whatever their fields |
| TextModel.CorrectedImpliesAsWritten | src/contest/text-editor/utils/index.ts:81-97 | texts equal under the corrected comparison are equal as written; the correction only makes the comparison stricter |
| TextModel.SortedEntitiesCompareDirectly | src/contest/text-editor/utils/index.ts:84-96 | for entity lists already in offset order, two texts are equal exactly when their normalized texts match and the entities agree pairwise on type, offset, length and the compared field |
| TextModel.AsWrittenIgnoresCodeLanguage | src/contest/text-editor/utils/index.ts:68-96 | as written, two code blocks that differ only in language compare equal; under the intended table they do not |
| TextModel.AsWrittenComparesKindAndRangeOnly | src/contest/text-editor/utils/index.ts:91-96 | as written, entities agree exactly when type, offset and length match |
| TextModel.FormattedTextRef.constructor | src/contest/text-editor/utils/index.ts:81 | a formatted text object holds its text and its entity array |
| TextModel.SortEntitiesInPlace | src/contest/text-editor/utils/index.ts:86-87 | `entities.sort(...)` leaves the array holding the sorted sequence |
| TextModel.AreFormattedTextsEqualInPlace | src/contest/text-editor/utils/index.ts:81-97 | the result is the comparison as written of the two texts as they were, and when the normalized texts match, each argument's entity array is left sorted in place; otherwise the arrays are untouched |
| TextModel.SortAndCompareEntities | src/contest/text-editor/utils/index.ts:86-96 | sorts both arrays in place, then reports whether the sorted lists agree pairwise as written (type, offset and length) |
| TextModel.EntitiesPairwiseAgree | src/contest/text-editor/utils/index.ts:89-96 | the `length` test and the `every` loop report pairwise agreement as written, with the field looked up by wire name |
| Sync.MultiLock.constructor | src/contest/text-editor/utils/index.ts:118-120 | a new lock has every key unlocked |
| Sync.MultiLock.Lock | src/contest/text-editor/utils/index.ts:122-125 | `lock(k)` makes `k` locked and leaves every other key as it was |
| Sync.MultiLock.Unlock | src/contest/text-editor/utils/index.ts:127-130 | `unlock(k)` makes `k` unlocked however often it was locked, and leaves every other key as it was |
| Sync.MultiLock.IsLocked | src/contest/text-editor/utils/index.ts:132-134 | `isLocked(k)`: a key is locked exactly when it is present and set to true; Lock, Unlock and the constructor are stated through it |
| Sync.Without | src/contest/text-editor/utils/index.ts:31 | deleting a callback removes it and only it from the set |
| Sync.WithoutAt | src/contest/text-editor/utils/index.ts:31 | in a duplicate-free list, deleting the callback at position `i` gives the callbacks before it followed by those after it, insertion order kept |
| Sync.ResponsesConcat | src/contest/text-editor/utils/index.ts:20-26 | the listeners of two lists answer as those of the first list, then those of the second |
| Sync.ResponsesAfterUnsubscribe | src/contest/text-editor/utils/index.ts:20-33 | after an unsubscribe the remaining listeners answer in subscription order, the removed one skipped |
| Sync.Responses | src/contest/text-editor/utils/index.ts:20-26 | one response per callback, in insertion order |
| Sync.ChangeNotifier.constructor | src/contest/text-editor/utils/index.ts:12 | a new notifier has no callbacks |
| Sync.ChangeNotifier.Listen | src/contest/text-editor/utils/index.ts:28-29 | adding a callback appends it unless it is already present |
| Sync.ChangeNotifier.Unsubscribe | src/contest/text-editor/utils/index.ts:30-32 | the returned disposer removes that callback and no other; when it was at position `i`, the new list is the old one with position `i` cut out, order kept |
| Sync.ChangeNotifier.Clear | src/contest/text-editor/utils/index.ts:35-37 | `clear` removes every callback |
| Sync.ChangeNotifier.NotifySync | src/contest/text-editor/utils/index.ts:20-26 | `notifySync` returns each callback's response to the event, in insertion order |
| Sync.ResponsesAppend | src/contest/text-editor/utils/index.ts:20-26 | a callback added last answers last |
| Sync.ListenThenUnsubscribeRestores | src/contest/text-editor/utils/index.ts:28-32 | listening with a new callback and then disposing it restores the callbacks |
| DomTree.Attr | src/contest/text-editor/TokenHelper.tsx:584 | an attribute is found exactly when the element carries it |
| DomTree.WidthAppend | src/contest/text-editor/utils/index.ts:329-343 | the caret width of two atom runs is the sum of their widths |
| DomTree.AtomsOfAllAppend | src/contest/text-editor/utils/index.ts:291-309 | the tree walker visits siblings in order: the atoms of two node lists are the concatenation of their atoms |
| DomTree.TextContentAllAppend | src/contest/text-editor/utils/index.ts:732-734 | the text of two node lists is the concatenation of their texts |
| DomTree.SkipMarkerIrrelevantWithoutMarkers | src/contest/text-editor/utils/index.ts:724-737 | for a subtree without marker elements, skipping markers does not change its text |
| DomTree.SkipMarkerIrrelevantWithoutMarkersAll | src/contest/text-editor/utils/index.ts:724-737 | the same for a list of nodes |
| DomTree.EscapeAttr | src/contest/text-editor/TokenHelper.tsx:596 | a serialized attribute value never contains `>` |
| DomTree.BeforeFirstGt | src/contest/text-editor/TokenHelper.tsx:596 | `split('>')[0]` contains no `>` |
| DomTree.StartTagIsOpenTag | src/contest/text-editor/TokenHelper.tsx:595-596 | `outerHTML.split('>')[0] + '>'` is exactly the element's start tag with its attributes |
| DomTree.Atoms | src/contest/text-editor/utils/index.ts:291-309 | the caret atoms of a subtree in document order, a custom-emoji element counting as one atom before its children |
| DomTree.TextContent | src/contest/text-editor/utils/index.ts:724-737 | `getTextContentWithBreaks`: the subtree's text with `<br>` as a line feed, markers skipped on request, each element's text trimmed on request |
| DomTree.OuterHtml | src/contest/text-editor/TokenHelper.tsx:595-596 | the element serialized as its start tag, its children and its end tag |
| DomTree.InnerText | src/contest/text-editor/TokenHelper.tsx:616-629 | `innerText`, read as the text with line breaks and markers kept |
| Caret.CloneChildrenArePrefix | src/contest/text-editor/utils/index.ts:317-324 | the range cloned from the element's start to the caret holds a prefix of the element's atoms |
| Caret.CloneBeforeAtomsArePrefix | src/contest/text-editor/utils/index.ts:317-324 | the same for every subtree along the caret's path |
| Caret.GetCaretCharacterOffset | src/contest/text-editor/utils/index.ts:311-346 | with no selection the offset is 0; otherwise it is the width of the atoms before the caret, which are a prefix of the document's atoms; text counts its length, `<br>` and a custom emoji count 1 |
| Caret.FirstReachingFrom | src/contest/text-editor/utils/index.ts:357-396 | the walk stops at the first atom whose end reaches the offset, or finds none |
| Caret.SetCaretAsWritten | src/contest/text-editor/utils/index.ts:348-428 | the placement as written names an atom inside the document or the end |
| Caret.SetCaretCorrected | src/contest/text-editor/utils/index.ts:348-428 | the corrected placement names an atom inside the document or the end |
| Caret.SetCaretCorrectedRoundTrip | src/contest/text-editor/utils/index.ts:348-428 | placing the caret at any offset up to the document's width puts it where reading the offset back gives the same number |
| Caret.SetCaretAsWrittenAgreesAwayFromStart | src/contest/text-editor/utils/index.ts:355-396 | the code as written places the caret as intended except at offset 0 before a `<br>` or custom emoji |
| Caret.SetCaretAsWrittenMissesStart | src/contest/text-editor/utils/index.ts:360-374 | as written, offset 0 in a document that starts with `<br>` puts the caret after the `<br>`, at offset 1 |
| Caret.SetCaretCharacterOffset | src/contest/text-editor/utils/index.ts:348-428 | the loop with its running `currentOffset` computes the placement as written |
| Lines.SplitLines | src/contest/text-editor/utils/index.ts:743 | `split('\n')` gives at least one line |
| Lines.SplitLinesHaveNoLineFeed | src/contest/text-editor/utils/index.ts:743 | no line of the split contains a line feed |
| Lines.JoinSplitLines | src/contest/text-editor/utils/index.ts:743 | joining the lines with `\n` gives back the text |
| Lines.JoinLines | src/contest/text-editor/utils/index.ts:743 | lines joined with `\n`, the inverse of the split (rows JoinSplitLines and SplitJoinLines) |
| Lines.SplitJoinLines | src/contest/text-editor/utils/index.ts:743 | splitting the join of line-feed-free lines gives back the lines |
| Lines.SplitLineFree | src/contest/text-editor/utils/index.ts:743 | a text without a line feed is one line |
| Lines.ExtendLast | src/contest/text-editor/utils/index.ts:743 | extending the last line changes only the last line |
| Lines.SplitAppendLineFree | src/contest/text-editor/utils/index.ts:743 | appending line-feed-free text extends only the last line |
| Lines.BlankLineIffAllWhitespace | src/contest/text-editor/utils/index.ts:745 | `line.trim() === ''` holds exactly when every character is whitespace |
| Lines.CaretLines | src/contest/text-editor/utils/index.ts:742-747 | the caret lines are at least one line, none containing a line feed |
| Lines.CaretLinesArePrefix | src/contest/text-editor/utils/index.ts:743-747 | they are the split lines, with at most the last one dropped |
| Lines.LineStartLocatesLine | src/contest/text-editor/utils/index.ts:753-760 | line `i` starts after the lengths of the earlier lines plus one per line feed, and the text between its start and end is exactly that line |
| Lines.LineStartIsJoinedLength | src/contest/text-editor/utils/index.ts:759 | the running `accumulatedLength` after every line is the joined length plus one |
| Lines.LocateFromFindsFirstLine | src/contest/text-editor/utils/index.ts:753-760 | the search from line `i` finds the first later line whose end reaches the caret, with `accumulatedLength` at that line's start |
| Lines.CaretLineInfoLocatesLine | src/contest/text-editor/utils/index.ts:739-767 | the caret's line is the first whose end reaches the caret and the line offset is the caret minus that line's start; when no line reaches, the index stays 0 and the offset is taken past the last line |
| Lines.GetCaretLineInfo | src/contest/text-editor/utils/index.ts:739-767 | the loop over the lines computes that line information for the container's text and caret |
| Lines.CaretLineInfo | src/contest/text-editor/utils/index.ts:739-767 | the caret lines, the index of the first line whose end reaches the caret, and the caret's offset within it; its meaning is the row CaretLineInfoLocatesLine |
| Lines.CaretWithinLinesIsFound | src/contest/text-editor/utils/index.ts:753-760 | a caret inside the text always finds its line, and its offset lies within that line |
| Lines.FullLineInfoFlags | src/contest/text-editor/utils/index.ts:777-788 | first, third and last line compare the line index with 0, 2 and the count minus 1; both two-line emptiness flags need at least two lines whose lines are all whitespace; the start flag is line offset 0; the empty flag is a blank current line |
| Lines.BlankAtIffAllWhitespace | src/contest/text-editor/utils/index.ts:778 | `lines[i]?.trim() === ''` holds exactly for an existing all-whitespace line |
| Lines.ExtractFullLineInfo | src/contest/text-editor/utils/index.ts:773-789 | the flags are those of the container's caret line information |
| DomEdit.ReplaceAt | src/contest/text-editor/utils/index.ts:461 | replacing the node at a path puts the new node at that path |
| DomEdit.ValidPointIsValidPath | src/contest/text-editor/utils/index.ts:453-456 | a caret point is valid exactly when its path exists and its offset fits the node there |
| DomEdit.InsertChild | src/contest/text-editor/utils/index.ts:462-469 | `insertBefore` puts the new child at the index and keeps the other children in order |
| DomEdit.InsertChildKeepsNodes | src/contest/text-editor/utils/index.ts:462-469 | after an insertion every other node is found, with the same kind, at its shifted path |
| DomEdit.ReplaceTextKeepsNodes | src/contest/text-editor/utils/index.ts:478-480 | `insertData` on one text node leaves every other node in place |
| DomEdit.Kept | src/contest/text-editor/utils/index.ts:437-443 | the fragment keeps exactly the children that are not excluded |
| DomEdit.KeptOne | src/contest/text-editor/utils/index.ts:437-443 | a single child is kept exactly when it is not excluded |
| DomEdit.KeptAppend | src/contest/text-editor/utils/index.ts:437-443 | filtering a concatenation filters each piece: with KeptOne, the fragment is the children that are not excluded, each once, in their original order |
| DomEdit.KeptMarkersText | src/contest/text-editor/utils/index.ts:437-443 | dropping only marker children does not change the marker-free text |
| DomEdit.ReplaceKeepsText | src/contest/text-editor/utils/index.ts:445-446 | replacing a node by nodes with the same text keeps the document's text |
| DomEdit.UnwrapKeepsVisibleText | src/contest/text-editor/utils/index.ts:430-447 | unwrapping an element while dropping only markers keeps the document's text without markers |
| DomEdit.Unwrap | src/contest/text-editor/utils/index.ts:430-447 | the tree with the element at the path replaced, in its parent, by its children that are not excluded |
| DomEdit.InsertAtPoint | src/contest/text-editor/utils/index.ts:459-470 | the start text goes into the start text node, into the element at the offset, or before the element at offset 0 |
| DomEdit.InsertAtPointKeepsNodes | src/contest/text-editor/utils/index.ts:459-470 | after inserting the start text, every node is found at its shifted path with the same kind, and a text node written into has grown by the text |
| DomEdit.AddTextReachesEnd | src/contest/text-editor/utils/index.ts:472-489 | after the start insertion the end container still exists, and a text end offset still lies within it |
| DomEdit.AddTextWrapsWithinText | src/contest/text-editor/utils/index.ts:449-497 | a selection inside one text node is wrapped: the start text before it and the end text after it |
| DomEdit.AddTextCorrectedWrapsWithinElement | src/contest/text-editor/utils/index.ts:462-489 | with the corrected end offset, a selection of an element's children is wrapped by two new text nodes around exactly those children |
| DomEdit.AddTextAsWrittenMisplacesEnd | src/contest/text-editor/utils/index.ts:473-475 | as written, the end offset inside an element is shifted by the start text's length instead of by one child, and the end text lands after the wrong child |
| DomEdit.AddTextAsWritten | src/contest/text-editor/utils/index.ts:449-497 | the edit as the source runs it: the start text goes in, then the end text at an end offset moved by the start text's length whenever both points share a container |
| DomEdit.AddTextCorrected | src/contest/text-editor/utils/index.ts:449-497 | the intended half of Findings row 5: the end offset moves by the start text's length when that text went into the end's own text node, and by one when a new node went into the end container's children at or before the end offset |
| DomEdit.HardBreakAddsOneLine | src/contest/text-editor/utils/index.ts:799-808 | a hard break adds exactly one line feed to the text, where it goes in |
| DomEdit.GetTopmostEntity | src/contest/text-editor/utils/index.ts:597-629 | the walk from the selection's start up to the root finds the matching element nearest the root, or reports none |
| DomEdit.GetTopmostInlineEntity | src/contest/text-editor/utils/index.ts:597-612 | the same for the six inline formats |
| DomEdit.GetTopmostBlockLevelEntity | src/contest/text-editor/utils/index.ts:614-629 | the same for Pre and Blockquote |
| DomEdit.Dom.constructor | src/contest/text-editor/utils/index.ts:430 | a document holds its root |
| DomEdit.CollectKept | src/contest/text-editor/utils/index.ts:437-443 | the loop over the element's children collects exactly the filtered list Kept, so the children not excluded, in order, each once (KeptAppend, KeptOne) |
| DomEdit.Dom.MoveContentOutsideOfElement | src/contest/text-editor/utils/index.ts:430-447 | the element is replaced in its parent by its non-excluded children, in order and each once (Unwrap over Kept, with KeptAppend and KeptOne) |
| DomEdit.Dom.AddTextAtStartAndEndOfSelection | src/contest/text-editor/utils/index.ts:449-497 | with no range nothing changes; otherwise the start and end texts are inserted at the range's ends as the source inserts them, the end offset moved by the start text's length whenever both ends share a container |
| DomEdit.Dom.InsertHardBreak | src/contest/text-editor/utils/index.ts:791-817 | a `<div><br></div>` goes in before or after the target and the caret goes just after it; without a parent nothing changes |
| MarkedJS.ShapesOf | src/contest/text-editor/TokenHelper.tsx:123-158 | one shape per token |
| MarkedJS.IsStructureEqual | src/contest/text-editor/TokenHelper.tsx:123-158 | `isStructureEqual`: same length and, position by position, the same type, the same presence of children and structurally equal children; its meaning is the row StructureEqualIffSameShape |
| MarkedJS.StructureEqualIffSameShape | src/contest/text-editor/TokenHelper.tsx:123-158 | `isStructureEqual` holds exactly when both trees have the same shape: lengths, types and the presence of children, level by level |
| MarkedJS.StructureEqualReflexive | src/contest/text-editor/TokenHelper.tsx:123-158 | every token tree is structurally equal to itself |
| MarkedJS.StructureEqualSymmetric | src/contest/text-editor/TokenHelper.tsx:123-158 | the comparison does not depend on argument order |
| MarkedJS.StructureEqualTransitive | src/contest/text-editor/TokenHelper.tsx:123-158 | the comparison is transitive |
| MarkedJS.HasStructureChanged | src/contest/text-editor/TokenHelper.tsx:165-167 | the structure has changed exactly when the shapes differ |
| MarkedJS.HasStructureChangedIgnoresText | src/contest/text-editor/TokenHelper.tsx:123-167 | changing a token's text and raw source is never a structural change |
| MarkedJS.ShapesOfUpdate | src/contest/text-editor/TokenHelper.tsx:123-158 | replacing a token by one of the same shape keeps the shapes |
| MarkdownEditorUtils.AutoInsertEachSide | src/contest/text-editor/TokenHelper.tsx:171-177 | exactly `*`, `_`, `~`, `\|` and backtick auto-insert; `_`, `~` and `\|` put 2 on each side, the others 1 |
| MarkdownEditorUtils.GetInlineMarkerByType | src/contest/text-editor/TokenHelper.tsx:193-195 | exactly the six inline formats have a marker, never empty |
| MarkdownEditorUtils.GetBlockMarkerByType | src/contest/text-editor/TokenHelper.tsx:197-199 | exactly Pre and Blockquote have a block marker, never empty |
| MarkdownEditorUtils.GetMarkerByType | src/contest/text-editor/TokenHelper.tsx:179-203 | the inline table is tried first, then the block table: Bold `**`, Italic `*`, Underline `__`, Strike `~~`, Spoiler `\|\|`, Code backtick, Pre three backticks, Blockquote `>`; every other type has none |
| MarkdownEditorUtils.TypeOfMarker | src/contest/text-editor/TokenHelper.tsx:179-191 | a marker read back gives the type whose marker it is; any other string gives none |
| MarkdownEditorUtils.MarkerRoundTrip | src/contest/text-editor/TokenHelper.tsx:179-203 | a type has marker `m` exactly when `m` reads back as that type |
| TokenEntities.GetEntityFromToken | src/contest/text-editor/TokenHelper.tsx:207-234 | strong, em, del, codespan, underline and spoiler map to Bold, Italic, Strike, Code, Underline and Spoiler; code maps to Pre, with a language only when `lang` is non-empty; link maps to TextUrl only with an `href`; blockquote and tblockquote map to Blockquote; any other kind gives no entity; the entity spans the given offset and length |
| TokenEntities.EntityTypeToTokenTypeRoundTrip | src/contest/text-editor/TokenHelper.tsx:517-559 | the token kind chosen for a formatting type maps back to that type; link-like types come back as TextUrl only with an `href`; the other types give no entity |
| TokenEntities.EntityTypeToTokenType | src/contest/text-editor/TokenHelper.tsx:517-559 | the token type an element of each entity type becomes; the row EntityTypeToTokenTypeRoundTrip states it is inverted by the token-to-entity table |
| TokenEntities.QuotedValue | src/contest/text-editor/TokenHelper.tsx:433 | the captured `[^"]*` value runs up to the next quote and contains none |
| TokenEntities.ExtractAttributeFrom | src/contest/text-editor/TokenHelper.tsx:433 | the regular expression match is the leftmost position where `attr="…"` matches, case-insensitively; no match means no position matches |
| TokenEntities.ExtractAttributeOfFirstAttribute | src/contest/text-editor/TokenHelper.tsx:433-434 | in a start tag whose first attribute is `name="value"`, the extraction gives `value` |
| TokenEntities.QuotedValueUpToQuote | src/contest/text-editor/TokenHelper.tsx:433 | the captured value is the text up to the first quote |
| TokenEntities.ExtractAttributeFromFindsFirst | src/contest/text-editor/TokenHelper.tsx:433 | the search returns the first match |
| TokenEntities.OpenedEntity | src/contest/text-editor/TokenHelper.tsx:432-450 | an opening tag pushes a pending entity exactly when it carries a non-empty `data-entity-type`, starting at the current offset |
| TokenEntities.ClosedEntity | src/contest/text-editor/TokenHelper.tsx:451-510 | closing succeeds exactly for Pre, Blockquote, Mention, Url, Cashtag, Hashtag, TextUrl with an `href` and CustomEmoji with a document id; the entity covers from the pending start to the current offset and carries the type's field |
| TokenEntities.GetEntityFromHtmlToken | src/contest/text-editor/TokenHelper.tsx:418-511 | an opening tag only pushes; a closing tag on an empty stack does nothing; a closing tag otherwise pops and emits the closed entity or fails; any other html token changes nothing |
| TokenEntities.OpenThenCloseSpans | src/contest/text-editor/TokenHelper.tsx:418-511 | an opening tag followed `n` characters later by a closing tag emits one entity of the opened type spanning exactly those `n` characters, and restores the stack |
| TokensToText.OwnText | src/contest/text-editor/TokenHelper.tsx:360-390 | a token's own text is `text` for text-like kinds, empty for html and paragraph, and `raw` for the other kinds |
| TokensToText.ProcessTokens | src/contest/text-editor/TokenHelper.tsx:353-404 | the walk over one level, token by token, threading the text, the entities, the offset and the pending stack; its meaning is the rows ProcessTokensText and ProcessTokensInRange |
| TokensToText.ProcessTokensText | src/contest/text-editor/TokenHelper.tsx:353-404 | the walk appends the in-order contributions of the tokens and advances the offset by their length |
| TokensToText.ProcessTokenText | src/contest/text-editor/TokenHelper.tsx:353-404 | one token contributes its children's text when non-empty, otherwise its own text |
| TokensToText.ProcessTokensInRange | src/contest/text-editor/TokenHelper.tsx:353-404 | every emitted entity and every pending start lies within the text produced so far |
| TokensToText.ProcessTokenInRange | src/contest/text-editor/TokenHelper.tsx:353-404 | the same for one token |
| TokensToText.HtmlStepInRange | src/contest/text-editor/TokenHelper.tsx:381-383 | the html step keeps pending starts and the closed entity within the text |
| TokensToText.TokensToFormattedText | src/contest/text-editor/TokenHelper.tsx:344-416 | the text is the tokens' contributions; the entities are a permutation of those the walk emits, sorted by offset and each within the text; it fails exactly where the walk throws |
| TokensToText.PendingEntities.constructor | src/contest/text-editor/TokenHelper.tsx:412 | the shared stack starts empty |
| TokensToText.PendingEntities.HandleHtmlToken | src/contest/text-editor/TokenHelper.tsx:418-511 | pushing and popping the shared array in place does what the pending-entity function describes |
| TokensToText.ProcessTokensWalk | src/contest/text-editor/TokenHelper.tsx:345-411 | the loop over one level computes the walk's text, entities and offset and leaves the shared stack as the walk does |
| TokensToText.ProcessTokenWalk | src/contest/text-editor/TokenHelper.tsx:353-404 | one iteration of the loop computes one token's step |
| TokensToText.ProcessTokenSteps | src/contest/text-editor/TokenHelper.tsx:353-404 | a token's step is: html step, children from the current offset, contribution, its own entity before its children's |
| TokensToText.FailureExtends | src/contest/text-editor/TokenHelper.tsx:353-404 | a throw stops the whole walk |
| TokensToText.TokensToFormattedTextWalk | src/contest/text-editor/TokenHelper.tsx:344-416 | the walk from offset 0 with an empty stack, then the sort, computes the conversion |
| HtmlToMarkdown.WithNewlineIfNeeded | src/contest/text-editor/TokenHelper.tsx:240-244 | adds one `\n` only to a non-empty accumulator that does not end in one |
| HtmlToMarkdown.WithMarkdown | src/contest/text-editor/TokenHelper.tsx:254-264 | after a Pre or Blockquote, a non-empty accumulator gets `\n` before the new text; otherwise the text is appended as is |
| HtmlToMarkdown.NodeMarkdown | src/contest/text-editor/TokenHelper.tsx:266-338 | any failure of a node's serialization is the code-block extraction error |
| HtmlToMarkdown.ElementMarkdown | src/contest/text-editor/TokenHelper.tsx:280-337 | any failure of an element's serialization is the code-block extraction error |
| HtmlToMarkdown.ChildrenMarkdown | src/contest/text-editor/TokenHelper.tsx:246-252 | any failure of the children's serialization is the code-block extraction error |
| HtmlToMarkdown.MarkdownContext.constructor | src/contest/text-editor/TokenHelper.tsx:237-238 | the context starts with empty markdown and no last entity type |
| HtmlToMarkdown.MarkdownContext.AddNewlineIfNeeded | src/contest/text-editor/TokenHelper.tsx:240-244 | the method updates the shared context as the function describes |
| HtmlToMarkdown.MarkdownContext.AddToMarkdown | src/contest/text-editor/TokenHelper.tsx:254-264 | the method updates the shared context as the function describes |
| HtmlToMarkdown.MarkdownContext.ProcessNode | src/contest/text-editor/TokenHelper.tsx:266-338 | the recursive walk over the shared context computes the node's serialization, or fails with the extraction error |
| HtmlToMarkdown.MarkdownContext.ProcessChildNodes | src/contest/text-editor/TokenHelper.tsx:246-252 | the loop over the children computes their serialization |
| HtmlToMarkdown.ChildrenFailureExtends | src/contest/text-editor/TokenHelper.tsx:246-252 | a failure in one child fails the whole list |
| HtmlToMarkdown.HtmlToMarkdown | src/contest/text-editor/TokenHelper.tsx:236-342 | the walk from the root computes the Markdown of the tree |
| HtmlToMarkdown.InlineMarkdownIsInnerText | src/contest/text-editor/TokenHelper.tsx:266-338 | a subtree of text, breaks, untyped and inline-entity elements serializes to its text with breaks as `\n` |
| HtmlToMarkdown.InlineElementIsChildren | src/contest/text-editor/TokenHelper.tsx:282-335 | inline-entity and untyped elements contribute only their children |
| HtmlToMarkdown.InlineChildrenMarkdown | src/contest/text-editor/TokenHelper.tsx:246-252 | the same for a list of such nodes |
| HtmlToMarkdown.InlineTreeMarkdown | src/contest/text-editor/TokenHelper.tsx:236-342 | the Markdown of such a tree is its text |
| HtmlToMarkdown.NodeMarkdownExtends | src/contest/text-editor/TokenHelper.tsx:266-338 | serializing a node only appends to the accumulator |
| HtmlToMarkdown.ElementMarkdownExtends | src/contest/text-editor/TokenHelper.tsx:280-337 | serializing an element only appends |
| HtmlToMarkdown.ChildrenMarkdownExtends | src/contest/text-editor/TokenHelper.tsx:246-252 | serializing children only appends |
| HtmlToMarkdown.PreStartsOnOwnLine | src/contest/text-editor/TokenHelper.tsx:292-299 | a code block's Markdown starts on its own line and sets the last entity type to Pre |
| HtmlToMarkdown.BlockquoteStartsOnOwnLine | src/contest/text-editor/TokenHelper.tsx:300-317 | a quote's start tag starts on its own line, its content follows it, and the last entity type becomes Blockquote |
| HtmlToMarkdown.AfterBlockNewLine | src/contest/text-editor/TokenHelper.tsx:254-274 | the first text or break after a block is prefixed with `\n` |
| HtmlToTokens.NodeTokens | src/contest/text-editor/TokenHelper.tsx:562-635 | text gives one text token; `<br>` one br token; a marker none; Pre and the link-like kinds and CustomEmoji exactly open tag, content and close tag; a quote its open tag, its children's tokens and its close tag; any other element one token of the kind `entityTypeToTokenType` gives, holding its children's tokens; the content token's text is the extracted code for Pre, `data-alt` for a custom emoji and the inner text for the other link-like kinds; a Pre element fails exactly when its code block cannot be read, and failure happens only inside a code block |
| HtmlToTokens.ChildTokens | src/contest/text-editor/TokenHelper.tsx:637-641 | children fail only when one holds an unreadable code block |
| HtmlToTokens.TextOfAppend | src/contest/text-editor/TokenHelper.tsx:353-404 | the text of two token lists is the concatenation of their texts |
| HtmlToTokens.PlainTokensText | src/contest/text-editor/TokenHelper.tsx:562-635 | for a subtree of text, breaks and inline elements, the text the tokens convert to is the subtree's text with breaks |
| HtmlToTokens.PlainChildrenText | src/contest/text-editor/TokenHelper.tsx:637-641 | the same for a list of children |
| HtmlToTokens.ElementTokenText | src/contest/text-editor/TokenHelper.tsx:623-631 | an inline element's token converts to its children's text |
| HtmlToTokens.PlainElementTokens | src/contest/text-editor/TokenHelper.tsx:623-632 | such an element gives exactly one token holding its children's tokens |
| HtmlToTokens.SafeTokensSucceed | src/contest/text-editor/TokenHelper.tsx:353-404 | tokens without html tokens never make the conversion throw |
| HtmlToTokens.SafeTokenSucceeds | src/contest/text-editor/TokenHelper.tsx:353-404 | the same for one token |
| HtmlToTokens.PlainTokensSafe | src/contest/text-editor/TokenHelper.tsx:562-635 | a plain subtree gives tokens without html tokens |
| HtmlToTokens.PlainChildrenSafe | src/contest/text-editor/TokenHelper.tsx:637-641 | the same for a list of children |
| HtmlToTokens.PlainRoundTripText | src/contest/text-editor/TokenHelper.tsx:513-515 | `htmlToFormattedText` of a plain tree succeeds and its text is the tree's text with breaks |
| HtmlToTokens.HtmlToTokens | src/contest/text-editor/TokenHelper.tsx:562-635 | `htmlToTokens`: the root's tokens, or the code-block extraction error |
| HtmlToTokens.HtmlToFormattedText | src/contest/text-editor/TokenHelper.tsx:513-515 | the tree's tokens run through `tokensToFormattedText`, failing with the first error |
| History.Saved | src/contest/text-editor/MessageInputController.tsx:227-245 | a save whose formatted text equals the current one under the comparison as written changes nothing; otherwise the old current state is pushed, the oldest entry is dropped past 100 entries, the new state becomes current and the redo stack is emptied |
| History.Undone | src/contest/text-editor/MessageInputController.tsx:247-254 | undo fails exactly on an empty undo stack; otherwise the current state moves to the redo stack and the last undo entry becomes current |
| History.Redone | src/contest/text-editor/MessageInputController.tsx:256-263 | the mirror image of undo |
| History.Reverse | src/contest/text-editor/MessageInputController.tsx:247-263 | the redo stack read from its top |
| History.HasStateChanged | src/contest/text-editor/MessageInputController.tsx:228 | a new state counts as changed exactly when its formatted text differs from the current one under the comparison as written; the caret offset is not compared |
| History.SaveKeepsBound | src/contest/text-editor/MessageInputController.tsx:237-241 | the undo stack never exceeds 100 entries after a save |
| History.UndoRedoKeepBound | src/contest/text-editor/MessageInputController.tsx:247-263 | undo and redo keep both stacks within 100 entries |
| History.UndoThenRedo | src/contest/text-editor/MessageInputController.tsx:247-263 | redo after undo restores the history exactly |
| History.RedoThenUndo | src/contest/text-editor/MessageInputController.tsx:247-263 | undo after redo restores the history exactly |
| History.UndoRedoMoveThroughStates | src/contest/text-editor/MessageInputController.tsx:247-263 | undo and redo move one step through the same sequence of states |
| History.SaveThenUndo | src/contest/text-editor/MessageInputController.tsx:227-254 | undo right after an effective save returns to the state before the save, with nothing left to redo |
| History.SaveIsIdempotent | src/contest/text-editor/MessageInputController.tsx:227-245 | saving the same state twice is the same as saving it once |
| History.LanguageOnlyChangeIsNotSaved | src/contest/text-editor/MessageInputController.tsx:228-234 | a new state differing from the current one only in a code block's language is not saved, since the comparison as written ignores fields |
| History.HistoryManager.constructor | src/contest/text-editor/MessageInputController.tsx:206-208 | the history starts with the initial state, empty stacks and no pending save |
| History.HistoryManager.SaveStateNow | src/contest/text-editor/MessageInputController.tsx:227-245 | `_saveState` performs the save |
| History.HistoryManager.SaveState | src/contest/text-editor/MessageInputController.tsx:210-216 | `saveState` cancels a pending save and saves at once |
| History.HistoryManager.SaveStateDebounced | src/contest/text-editor/MessageInputController.tsx:218-225 | the debounced save replaces the pending save and changes no stack |
| History.HistoryManager.SaveTimeoutFires | src/contest/text-editor/MessageInputController.tsx:221-224 | when the timer fires, the pending state is saved |
| History.HistoryManager.Undo | src/contest/text-editor/MessageInputController.tsx:247-254 | `undo` performs the undo step and returns the new current state, or nothing on an empty stack |
| History.HistoryManager.Redo | src/contest/text-editor/MessageInputController.tsx:256-263 | `redo` performs the redo step and returns the new current state, or nothing |
| History.HistoryManager.GetCurrentState | src/contest/text-editor/MessageInputController.tsx:265-267 | returns the current state |
| InputKeys.BlockTypeOf | src/contest/text-editor/MessageInputController.tsx:501-523 | a Pre block is a code block, a Blockquote a quote, anything else a paragraph |
| InputKeys.CodeBlockKeyDown | src/contest/text-editor/MessageInputController.tsx:674-728 | Backspace in the header breaks before the block at offset 0 and removes header and footer up to offset 3; in the footer it moves the caret to the code at offset 0 and removes both up to offset 3; Enter in the header breaks before at offset 0 and otherwise moves to the code; Enter in the footer breaks after; anything else is not handled |
| InputKeys.CodeBlockMarkersGoTogether | src/contest/text-editor/MessageInputController.tsx:685-713 | header and footer are removed together exactly on Backspace at offsets 1 to 3 of either |
| InputKeys.BlockQuoteKeyDown | src/contest/text-editor/MessageInputController.tsx:635-672 | Backspace on a sole empty line removes the quote; otherwise Backspace at the start of the first line moves to the previous sibling; Enter on the third line after two empty first lines drops them and breaks before; otherwise Enter on the last line after two empty last lines drops them and breaks after |
| InputKeys.QuoteRemovedOnlyWhenEmpty | src/contest/text-editor/MessageInputController.tsx:641-646 | the quote is removed only when its whole text is one whitespace-only line |
| InputKeys.Keydown | src/contest/text-editor/MessageInputController.tsx:525-584 | the send combination is left to the sender; Delete in a block removes the block; the code-block and quote tables come next; a remaining Enter without Shift is simulated; Ctrl or Cmd with Z undoes and with Shift+Z or Y redoes, not on repeat; any other key goes to auto-insert |
| InputKeys.NumpadEnterSkipsBlockHandlers | src/contest/text-editor/MessageInputController.tsx:525-584 | the block tables test `event.code`, so the keypad's Enter is never handled by them |
| InputKeys.Pairing | src/contest/text-editor/MessageInputController.tsx:135-153 | the intended half of Findings row 3: with white space or nothing right before and right after the caret, `2 × eachSide` copies go in with the caret after `eachSide`; otherwise one copy with the caret after it |
| InputKeys.PairingAsWritten | src/contest/text-editor/MessageInputController.tsx:135-153 | the pairing the source runs: with white space or nothing before the caret and at one past the character after it, `2 × eachSide` copies go in with the caret after `eachSide`; otherwise one copy with the caret after it |
| InputKeys.PairingAgreesWhenNextCharsAlike | src/contest/text-editor/MessageInputController.tsx:148-152 | the source's pairing and the intended one differ only when the character after the caret and the one after that are judged differently |
| InputKeys.PairingSurroundsCaret | src/contest/text-editor/MessageInputController.tsx:135-153 | a pairing leaves the caret with `eachSide` markers on each side |
| InputKeys.PairingAsWrittenReadsPastNextChar | src/contest/text-editor/MessageInputController.tsx:148-152 | as written, the next character is read one past the caret, so `*` before `x` is paired |
| InputKeys.OpenCodeBlock | src/contest/text-editor/MessageInputController.tsx:111-133 | the intended half of Findings row 6: typing a third backtick on a line holding two inserts the rest of the fence at the line's end, with the caret after the new backtick |
| InputKeys.OpenCodeBlockAsWritten | src/contest/text-editor/MessageInputController.tsx:111-133 | the opening the source runs: the fence goes in at the caret when it is at offset 2 of its line and at offset 2 of the whole text otherwise, and the caret ends at offset 3 of the whole text, whatever the line |
| InputKeys.OpenCodeBlockAgreesOnFirstLine | src/contest/text-editor/MessageInputController.tsx:119-128 | on the text's first line the source's opening and the intended one coincide |
| InputKeys.CaretLineInText | src/contest/text-editor/utils/index.ts:742-760 | each caret line sits in the text between its start and its end |
| InputKeys.OpenCodeBlockCompletesFence | src/contest/text-editor/MessageInputController.tsx:111-133 | the inserted text completes the line to a fence, and the caret lands on the language position |
| InputKeys.OpenCodeBlockAsWrittenMisplacesCaret | src/contest/text-editor/MessageInputController.tsx:119-128 | as written, the caret offsets are taken from the line's length rather than from the line's start, so on a later line the caret lands before the fence |
| InputKeys.AutoInsert | src/contest/text-editor/MessageInputController.tsx:96-154 | only a non-repeated auto-insert key is handled; a third backtick on a "``" line in a paragraph opens a code block as the source does, any other key is paired as the source does |
| InputKeys.AutoInsertAsTheSourceRunsIt | src/contest/text-editor/MessageInputController.tsx:96-154 | auto-insert doubles `*` typed right before `x`, and on the second line of "a\n``" leaves the caret at offset 3, before the fence |
| InputController.Present | src/contest/text-editor/MessageInputController.tsx:331-337 | the formats of a list that are present among the selected elements |
| InputController.GetSelectedTextInfo | src/contest/text-editor/MessageInputController.tsx:326-355 | the six inline formats are always available and active exactly when present; the quote is available unless a code block is involved and active when a quote is found |
| InputController.IndicesOf | src/contest/text-editor/MessageInputController.tsx:370-376 | the positions of the selected elements of one type, in order |
| InputController.MarkersFor | src/contest/text-editor/MessageInputController.tsx:377-385 | a quote adds `> ` before the selection only; any other format adds its marker on both sides |
| InputController.IndicesOfAbsent | src/contest/text-editor/MessageInputController.tsx:370-376 | a type not among the elements has no positions |
| InputController.ApplyFormat | src/contest/text-editor/MessageInputController.tsx:361-386 | an unavailable format does nothing; an active one unwraps every selected element of its type; an inactive one adds its markers |
| InputController.InlineFormatToggles | src/contest/text-editor/MessageInputController.tsx:361-386 | an inline format present in the selection is unwrapped; one absent is wrapped in its own marker on both sides |
| InputController.QuoteToggleOffUnwrapsNothing | src/contest/text-editor/MessageInputController.tsx:361-386 | toggling off a quote found only as the block around inline elements unwraps no element |
| InputController.Checked | src/contest/text-editor/MessageInputController.tsx:156-174 | the check is quiet when the trimmed Markdown has not changed or the token structure has not changed; otherwise it remembers the new tokens and renders their formatted text |
| InputController.Reloaded | src/contest/text-editor/MessageInputController.tsx:58-65 | reloading remembers the trimmed Markdown and its tokens, or fails as the serializer does |
| InputController.ReloadThenCheckIsQuiet | src/contest/text-editor/MessageInputController.tsx:156-174 | a check right after a reload renders nothing |
| InputController.CheckIsIdempotent | src/contest/text-editor/MessageInputController.tsx:156-174 | a second check of unchanged content renders nothing |
| InputController.MarkdownHandler.constructor | src/contest/text-editor/MessageInputController.tsx:50-56 | the handler starts with no remembered Markdown and no timer |
| InputController.MarkdownHandler.ReloadMarkdownCache | src/contest/text-editor/MessageInputController.tsx:58-65 | the method updates the remembered Markdown and tokens as the function describes |
| InputController.MarkdownHandler.OnContentChanged | src/contest/text-editor/MessageInputController.tsx:88-94 | a content change starts the debounce timer only when none is running |
| InputController.MarkdownHandler.CheckImmediately | src/contest/text-editor/MessageInputController.tsx:67-70 | clearing the timer and calling the change handler always schedules a check |
| InputController.MarkdownHandler.Check | src/contest/text-editor/MessageInputController.tsx:156-174 | `_check` updates the cache and returns the text to render as the function describes |
| InputController.MarkdownHandler.DebounceTimerFires | src/contest/text-editor/MessageInputController.tsx:90-93 | the timer runs the check and then clears itself |
| InputController.Controller.constructor | src/contest/text-editor/MessageInputController.tsx:270-283 | the controller starts with an empty history at caret 0, a fresh Markdown handler and every lock released |
| InputController.Controller.SaveHistory | src/contest/text-editor/MessageInputController.tsx:586-595 | the current content's formatted text is saved at once or debounced |
| InputController.Controller.OnContentChange | src/contest/text-editor/MessageInputController.tsx:294-297 | each reaction to a content change runs only while its lock is released |
| InputController.Controller.Setup | src/contest/text-editor/MessageInputController.tsx:413-434 | the content is rendered from the formatted text, or cleared, and saved to history unless the setup comes from history |
| InputController.Controller.Restore | src/contest/text-editor/MessageInputController.tsx:602-612 | restoring a history state renders it and reloads the Markdown cache with both locks held, then releases them; when the reload throws, both locks stay held |
| InputController.Controller.UndoHistory | src/contest/text-editor/MessageInputController.tsx:597-614 | an undo renders the state it reaches and returns its caret; with nothing to undo nothing changes |
| InputController.Controller.RedoHistory | src/contest/text-editor/MessageInputController.tsx:616-633 | the mirror image for redo |
| InputController.Controller.HandleKeydown | src/contest/text-editor/MessageInputController.tsx:525-584 | the keydown reaction is the dispatch table's, and only the undo and redo shortcuts change the history |
| BuildText.BuildPartsMeaning | src/contest/contest.tsx:228-269 | building fails exactly when some defined part carries a custom emoji without a document id or a text link without a URL; otherwise the text is the defined parts' texts in order and there is one entity per part with an entity, its other fields kept, in order, each inside the text |
| BuildText.BuildParts | src/contest/contest.tsx:228-269 | the parts folded from the left, each defined part appending its text and its entity at the current length, stopping at the first refusal; its meaning is the row BuildPartsMeaning |
| BuildText.BuildFormattedText | src/contest/contest.tsx:228-269 | the folded text and entities as a formatted text, or the first refusal |
| BuildText.BuildPartsExtends | src/contest/contest.tsx:238-261 | when one more part builds, so does the list without it, and the longer result is the shorter text followed by that part's text, with the part's entity, if any, appended at the shorter text's length and as long as the part's text |
| BuildText.BuildPartsPrefix | src/contest/contest.tsx:238-261 | what a prefix of the parts builds stays, unmoved, at the front of what the whole list builds, both text and entities |
| BuildText.EntitySitsOverItsPart | src/contest/contest.tsx:238-261 | every entity built is the entity of some part, placed at the combined length of the texts of the parts before it and as long as that part's text |
| BuildText.LastEntityCoversLastPart | src/contest/contest.tsx:238-260 | a part's entity starts where the text before it ends and is as long as the part's text |
| BuildText.UndefinedPartIsSkipped | src/contest/contest.tsx:237 | an undefined part changes nothing |
| BuildText.BuildFormattedTextLoop | src/contest/contest.tsx:228-269 | the `forEach` loop computes the fold |
| BuildText.FailureStops | src/contest/contest.tsx:242-252 | a throw ends the loop with that error |
| FolderIcons.FindFrom | src/contest/chat-folders/FolderIcons.tsx:88-89 | `find` returns the first group with that emoticon, or none |
| FolderIcons.GetIconByEmoticon | src/contest/chat-folders/FolderIcons.tsx:88-89 | an icon is found exactly for the eight emoticons, and it is the icon of that emoticon |
| FolderIcons.SupportedEmoticons | src/contest/chat-folders/FolderIcons.tsx:75-91 | `isSupportedEmoticon` holds for exactly the eight emoticons of the groups |
| FolderIcons.IconOfOwnEmoticon | src/contest/chat-folders/FolderIcons.tsx:75-89 | every group's emoticon finds that group |
| FolderIcons.FirstIconFrom | src/contest/chat-folders/FolderIcons.tsx:119-124 | the search finds the first custom emoji at offset 0 |
| FolderIcons.FindIconEntity | src/contest/chat-folders/FolderIcons.tsx:119-124 | the first custom emoji at offset 0, or none when no entity is one |
| FolderIcons.FindCustomEmojiAsIcon | src/contest/chat-folders/FolderIcons.tsx:115-126 | the same for a chat folder and for a folder being edited |
| FolderIcons.GetFolderIcon | src/contest/chat-folders/FolderIcons.tsx:128-147 | folder id 0 gives the chats icon; otherwise a known custom emoji at offset 0; otherwise the icon of a supported emoticon; otherwise the folder icon |
| FolderIcons.WithoutIconEntities | src/contest/chat-folders/FolderIcons.tsx:101-105 | removes exactly the custom emoji at offset 0 and keeps the other entities |
| FolderIcons.WithoutOne | src/contest/chat-folders/FolderIcons.tsx:101-105 | a single entity is kept exactly when it is not a custom emoji at offset 0 |
| FolderIcons.WithoutAppend | src/contest/chat-folders/FolderIcons.tsx:101-105 | filtering a concatenation filters each piece: with WithoutOne, the kept entities are the non-icon ones, each once, in their original order |
| FolderIcons.AfterFirstCharDropped | src/contest/chat-folders/FolderIcons.tsx:110 | part of the intended half of Findings row 4, which the source does not do: an entity after the dropped first character moves one to the left |
| FolderIcons.MapDropped | src/contest/chat-folders/FolderIcons.tsx:101-110 | part of the intended half of Findings row 4: every kept entity is moved with the text |
| FolderIcons.RemovedCustomIcons | src/contest/chat-folders/FolderIcons.tsx:97-112 | the intended half of Findings row 4: a title without an icon entity is unchanged; otherwise it loses its first character and its icon entities, and the other entities move with the text |
| FolderIcons.RemovedCustomIconsAsWritten | src/contest/chat-folders/FolderIcons.tsx:97-112 | the title as the source leaves it: unchanged without an icon entity; otherwise the first character is dropped, the entities are exactly the filtered list WithoutIconEntities, so those that are not a custom emoji at offset 0, in their order, none of them moved |
| FolderIcons.CorrectedMovesAsWrittenEntities | src/contest/chat-folders/FolderIcons.tsx:105-110 | the intended title has the source's text, and its entities are the source's kept entities each moved with the dropped character |
| FolderIcons.KeepAllWhenNoIcon | src/contest/chat-folders/FolderIcons.tsx:101-105 | without icon entities the entity list is unchanged |
| FolderIcons.AfterFirstCharDroppedKeepsCoverage | src/contest/chat-folders/FolderIcons.tsx:110 | a moved entity still covers the same characters, less the dropped one |
| FolderIcons.RemovedCustomIconsKeepsCoverage | src/contest/chat-folders/FolderIcons.tsx:97-112 | every kept entity covers the same characters of the new title as of the old, less the dropped one |
| FolderIcons.RemovedCustomIconsAsWrittenMisplaces | src/contest/chat-folders/FolderIcons.tsx:105-110 | as written, the kept entities keep their offsets after the first character is dropped, so they cover the wrong characters |
| FolderIcons.FolderTitle.constructor | src/contest/chat-folders/FolderIcons.tsx:98 | a title object holds its text and entities |
| FolderIcons.EditedFolder.constructor | src/contest/chat-folders/FolderIcons.tsx:97 | a folder object holds its title and emoticon |
| FolderIcons.RemoveCustomIconsFromFolder | src/contest/chat-folders/FolderIcons.tsx:97-112 | the folder's title is replaced in place by the title as the source leaves it, and the same folder is returned |
| PrettyCode.Distinct | src/util/prettyCodeLanguageNames.ts:39 | spreading a `Set` keeps every element once |
| PrettyCode.DistinctOfDistinct | src/util/prettyCodeLanguageNames.ts:39 | spreading a `Set` built from a list without repeats gives back that list, order kept |
| PrettyCode.AllSupportedLanguages | src/util/prettyCodeLanguageNames.ts:39 | the supported languages are exactly the table's aliases, each once |
| PrettyCode.GetPrettyCodeLanguageName | src/util/prettyCodeLanguageNames.ts:41-44 | a language whose lower case is an alias gets the alias's name; any other is returned unchanged |
| PrettyCode.PrettyNameExamples | src/util/prettyCodeLanguageNames.ts:1-44 | `cpp` and `C++` both name C++, and `JS` names JavaScript |
| PrettyCode.UnknownLanguageExample | src/util/prettyCodeLanguageNames.ts:42-43 | an unknown language keeps its casing |
| PrettyCode.PrettyNames | src/util/prettyCodeLanguageNames.ts:1-37 | the table's values are the 25 pretty names |
| PrettyCode.PrettyNameIsIdempotent | src/util/prettyCodeLanguageNames.ts:41-44 | looking up a looked-up name changes nothing |
| EmojiPicker.DivUnique | src/components/common/CustomEmojiPicker.tsx:119 | quotient and remainder are determined by their bounds |
| EmojiPicker.CoversIsChunkCount | src/components/common/CustomEmojiPicker.tsx:117-123 | the number of chunks that just covers the array is the ceiling of its length over `size` |
| EmojiPicker.ChunkFoldShape | src/components/common/CustomEmojiPicker.tsx:118-122 | after each index the chunks just cover the elements seen, chunk `k` being the slice from `k * size` |
| EmojiPicker.ChunkArrayShape | src/components/common/CustomEmojiPicker.tsx:117-123 | there are ⌈n / size⌉ chunks, chunk `k` is `xs.slice(k * size, (k + 1) * size)`, and an empty array gives none |
| EmojiPicker.ChunkSizes | src/components/common/CustomEmojiPicker.tsx:117-123 | every chunk but the last has `size` elements, and the last has between 1 and `size` |
| EmojiPicker.FlattenPrefix | src/components/common/CustomEmojiPicker.tsx:117-123 | the first `k` chunks laid end to end are the first `k * size` elements |
| EmojiPicker.ChunksConcatenateToInput | src/components/common/CustomEmojiPicker.tsx:117-123 | concatenating the chunks gives back the array |
| EmojiPicker.ZeroSizeGivesNoChunks | src/components/common/CustomEmojiPicker.tsx:119 | with `size` 0, `i % size` is never 0 and no chunk is made |
| EmojiPicker.ChunkArray | src/components/common/CustomEmojiPicker.tsx:117-123 | `chunkArray`: a slice starts at every index divisible by `size`; its shape is the row ChunkArrayShape |

## Left out

- PrettyCode.AllSupportedLanguages: the order of the list, the object literal's key order, is not stated. Distinct keeps the order of a list without repeats (DistinctOfDistinct), but showing that the 35 alias literals are pairwise distinct is beyond the proof budget.
- BuildText.RefusalMessage: the source's message ends with ` Entity: ` and the JSON rendering of the refused entity; `JSON.stringify` is not modelled, so the message stops before that suffix.
- I/O, rendering and the browser: the Selection and Range objects, the tree walker, `execCommand`, event listeners, the renderer `renderTextWithEntities` and the code-block component's `extractCodeBlockData`. The renderer and the extractor are parameters of the conversions; the caret is a path and offset into the node tree.
- Timers and microtasks:
  - the debounced history save and Markdown check are a pending-save field and a pending-timer flag, each with a method for the timer firing;
  - the 250 and 400 ms delays are not modelled;
  - `ChangeNotifier.notify`, which defers `notifySync` to a microtask, is not modelled;
  - the microtask in `_check` that calls `setup` is left to the caller: `Check` returns the formatted text to set up.
- The Markdown lexer (`MarkedJS.tokenizer`, the `marked` library and its regular-expression extensions) is a parameter `lex`.
- `useOperationQueue` is React state plumbing and is not modelled.
- `NodeHelper` (`syncDOMNodes`, `isEqual`, `logNodeDifferences`) is not modelled: nothing calls it.
- `getInlineEntitiesInSelection`, `getClosestElementToCaret`, `moveCaretToEndOfPreviousSibling`, `simulateEnter` and `clearSelection` are selection plumbing. They are not modelled; the key tables return the action they would carry out (`CaretToPreviousSibling`, `SimulateEnter`).
- `checkMarkdownMarkers` toggles a CSS class on marker elements and is not modelled.
- `insertEmoji` and `_eventHandler` are not modelled.
- The code-block and quote key handlers carry out their action through DOM calls; the model decides the action (`InputKeys.CodeBlockKeyDown`, `InputKeys.BlockQuoteKeyDown`) and does not perform the node removals.
- `buildFormattedText` with `randomMode` on skips parts at random and is not modelled.
- Keys a JavaScript object inherits from its prototype (such as `constructor`) are not modelled as aliases in the code-language table.
- Text is a sequence of characters. UTF-16 code units are not distinguished from code points, and `toLowerCase` is modelled on ASCII letters only.
- The `checkLength` option of `getEntityFromHtmlToken` is never set by its one caller and is not modelled.
- `innerText` is read as the text with line breaks; its dependence on CSS layout is not modelled.
- `chunkArray` with a fractional or negative `size` is not modelled: `size` is a natural number.
- DomEdit.InsertAtPoint: a start offset of 0 in an element inserts before the element in its parent; when that element is the modelled root, the source inserts the text before it, outside the modelled tree, and the model returns `Outside` with the tree unchanged.
- DomEdit.Dom.AddTextAtStartAndEndOfSelection: a range whose end container is a `<br>` is excluded by its precondition. The source appends the end text inside that `<br>` element, but a `Br` node in the model has no children, so that case is not modelled.
- Lines.CaretLineInfoLocatesLine: when the caret lies beyond every line, the source reports line 0 with the offset measured past the last line; the model states this and does not call it a finding, since a caret from the same text never lies there (Lines.CaretWithinLinesIsFound).
- History.Saved: the history's states are values, so the in-place sort that `areFormattedTextsEqual` applies to the entity arrays of the new and the current state is not reflected in them; TextModel.AreFormattedTextsEqualInPlace models that sort on its own.
- TextModel.SortByOffset: the sort is stated as a permutation sorted by offset. The stability of the source's sort is not stated.
- TokensToText.TokensToFormattedText: stated as a sorted permutation of the walk's entities; the order among entities with equal offsets is not stated.

## Findings

| source | as written | input that shows it | evidently intended | confidence | as-written member | corrected member |
|---|---|---|---|---|---|---|
| src/contest/text-editor/utils/index.ts:68-95 | `FormattedTextKeys` is keyed by `pre`, `textUrl`, … but looked up with `e.type`, a wire name such as `MessageEntityPre`, so no key is ever found | two texts with the same code block in languages `js` and `py` | the type-specific field (language, URL, user id, collapsed flag, document id) is compared | not executed | TextModel.AsWrittenIgnoresCodeLanguage | TextModel.SortedEntitiesCompareDirectly |
| src/contest/text-editor/utils/index.ts:360-374 | at offset 0 the test `currentOffset + 1 >= offset` already holds at a leading `<br>`, so the caret goes after it | a document holding one `<br>`, offset 0: the caret lands at offset 1 | the caret goes before the first atom, so reading the offset back gives 0 | not executed | Caret.SetCaretAsWrittenMissesStart | Caret.SetCaretCorrectedRoundTrip |
| src/contest/text-editor/MessageInputController.tsx:149 | the character after the caret is read as `currentText[cursorPos + 1]`, one past it | text `x` with the caret at 0: `*` is doubled although `x` follows the caret | `currentText[cursorPos]` | not executed | InputKeys.PairingAsWrittenReadsPastNextChar | InputKeys.PairingSurroundsCaret |
| src/contest/chat-folders/FolderIcons.tsx:105-110 | the first character is dropped but the remaining entities keep their offsets | title `Xab` with a custom emoji over `X` and Bold over `ab` (offset 1, length 2): the new title `ab` keeps Bold at offset 1, length 2, past its end | every remaining entity moves one to the left with its text | not executed | FolderIcons.RemovedCustomIconsAsWrittenMisplaces | FolderIcons.RemovedCustomIconsKeepsCoverage |
| src/contest/text-editor/utils/index.ts:473-475 | when start and end share a container, `endOffset` grows by the start text's length even when the container is an element, where the start insertion added one child | an element holding `a`, `b`, `c` with `b` selected: the end marker lands after `c` | grow by one child in an element, by the text's length in a text node | not executed | DomEdit.AddTextAsWrittenMisplacesEnd | DomEdit.AddTextCorrectedWrapsWithinElement |
| src/contest/text-editor/MessageInputController.tsx:119-128 | the caret offsets are the line's length (2) and that plus one, counted from the start of the document instead of the start of the line | text `a\n` followed by two backticks, caret at 4: the caret lands at 3, before the fence | offsets counted from the caret line's start | not executed | InputKeys.OpenCodeBlockAsWrittenMisplacesCaret | InputKeys.OpenCodeBlockCompletesFence |
