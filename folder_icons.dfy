/** Chat-folder icons: the eight emoticons with an icon of their own, the
    custom emoji a folder title may start with, removing that emoji from a
    title, and the order in which a folder's icon is chosen
    (src/contest/chat-folders/FolderIcons.tsx:73-147). */
module FolderIcons {
  import opened Wrappers
  import opened TextModel

  /** The entries of `FolderIcons.Groups`, in declaration order. */
  datatype IconGroup = Chats | Chat | Bot | User | Group | Star | Channel | Folder

  const Groups: seq<IconGroup> := [Chats, Chat, Bot, User, Group, Star, Channel, Folder]

  function Emoticon(g: IconGroup): string {
    match g
    case Chats => "\U{1F4AC}"
    case Chat => "\U{2705}"
    case Bot => "\U{1F916}"
    case User => "\U{1F464}"
    case Group => "\U{1F465}"
    case Star => "\U{2B50}"
    case Channel => "\U{1F4E2}"
    case Folder => "\U{1F4C1}"
  }

  /** `AllEmoticons`. */
  const AllEmoticons: seq<string> :=
    ["\U{1F4AC}", "\U{2705}", "\U{1F916}", "\U{1F464}", "\U{1F465}", "\U{2B50}", "\U{1F4E2}", "\U{1F4C1}"]

  /** The first group, from index `i` on, whose emoticon is `e`. */
  function FindFrom(e: string, i: nat): (r: Option<IconGroup>)
    requires i <= |Groups|
    ensures r.Some? ==> r.value in Groups[i..] && Emoticon(r.value) == e
    ensures r.None? ==> forall j :: i <= j < |Groups| ==> Emoticon(Groups[j]) != e
    decreases |Groups| - i
  {
    if i == |Groups| then None
    else if Emoticon(Groups[i]) == e then Some(Groups[i])
    else FindFrom(e, i + 1)
  }

  /** `getIconByEmoticon`: the icon of the first group with that
      emoticon, or none. */
  function GetIconByEmoticon(e: string): (r: Option<IconGroup>)
    ensures r.Some? ==> Emoticon(r.value) == e
    ensures r.None? <==> e !in AllEmoticons
  {
    FindFrom(e, 0)
  }

  /** `isSupportedEmoticon`. */
  predicate IsSupportedEmoticon(e: string) {
    GetIconByEmoticon(e).Some?
  }

  /** Exactly the eight emoticons are supported. */
  lemma SupportedEmoticons(e: string)
    ensures IsSupportedEmoticon(e) <==>
      e in {"\U{1F4AC}", "\U{2705}", "\U{1F916}", "\U{1F464}", "\U{1F465}", "\U{2B50}", "\U{1F4E2}", "\U{1F4C1}"}
  {
  }

  /** No two groups share an emoticon, so the lookup finds each group from
      its own emoticon. */
  lemma {:induction false} IconOfOwnEmoticon(g: IconGroup)
    ensures GetIconByEmoticon(Emoticon(g)) == Some(g)
  {
    assert Groups[0] == Chats;
    match g
    case Chats =>
    case Chat => assert FindFrom(Emoticon(g), 1) == Some(g);
    case Bot => assert FindFrom(Emoticon(g), 2) == Some(g);
    case User => assert FindFrom(Emoticon(g), 3) == Some(g);
    case Group => assert FindFrom(Emoticon(g), 4) == Some(g);
    case Star => assert FindFrom(Emoticon(g), 5) == Some(g);
    case Channel => assert FindFrom(Emoticon(g), 6) == Some(g);
    case Folder => assert FindFrom(Emoticon(g), 7) == Some(g);
  }

  // ---------------------------------------------------------------------
  // The custom emoji at the start of a title
  // ---------------------------------------------------------------------

  predicate IsIconEntity(e: Entity) {
    e.kind == CustomEmoji && e.offset == 0
  }

  /** The position of the first custom emoji at offset 0, from `i` on. */
  function FirstIconFrom(entities: seq<Entity>, i: nat): (r: Option<nat>)
    requires i <= |entities|
    ensures r.Some? ==>
      && i <= r.value < |entities| && IsIconEntity(entities[r.value])
      && (forall j :: i <= j < r.value ==> !IsIconEntity(entities[j]))
    ensures r.None? ==> forall j :: i <= j < |entities| ==> !IsIconEntity(entities[j])
    decreases |entities| - i
  {
    if i == |entities| then None
    else if IsIconEntity(entities[i]) then Some(i)
    else FirstIconFrom(entities, i + 1)
  }

  /** `entities?.find(...)`: the first custom emoji at offset 0. */
  function FindIconEntity(entities: seq<Entity>): (r: Option<Entity>)
    ensures r.None? <==> forall i :: 0 <= i < |entities| ==> !IsIconEntity(entities[i])
    ensures r.Some? ==>
      exists i :: && 0 <= i < |entities| && entities[i] == r.value && IsIconEntity(r.value)
                  && (forall j :: 0 <= j < i ==> !IsIconEntity(entities[j]))
  {
    var i := FirstIconFrom(entities, 0);
    if i.None? then None else Some(entities[i.value])
  }

  /** A folder title: its text and optional entity list. */
  datatype FolderDraft = FolderDraft(title: FormattedText, emoticon: Option<string>)

  /** The two shapes `getFolderIcon` accepts: a folder as the API gives it,
      and the settings screen's editing state, whose `folderId` is absent
      for a folder not created yet. */
  datatype FolderSource =
    | ApiChatFolder(id: int, title: FormattedText, emoticon: Option<string>)
    | FoldersState(folderId: Option<int>, folder: FolderDraft)

  function TitleOf(s: FolderSource): FormattedText {
    if s.ApiChatFolder? then s.title else s.folder.title
  }

  /** `findCustomEmojiAsIcon`: the same search on either shape. */
  function FindCustomEmojiAsIcon(s: FolderSource): (r: Option<Entity>)
    ensures r.Some? ==>
      && IsIconEntity(r.value)
      && exists i :: && 0 <= i < |EntitiesOf(TitleOf(s))| && EntitiesOf(TitleOf(s))[i] == r.value
                     && (forall j :: 0 <= j < i ==> !IsIconEntity(EntitiesOf(TitleOf(s))[j]))
    ensures r.None? <==> forall i :: 0 <= i < |EntitiesOf(TitleOf(s))| ==> !IsIconEntity(EntitiesOf(TitleOf(s))[i])
  {
    var title := TitleOf(s);
    if title.entities.None? then None
    else
      assert EntitiesOf(title) == title.entities.value;
      FindIconEntity(title.entities.value)
  }

  // ---------------------------------------------------------------------
  // getFolderIcon
  // ---------------------------------------------------------------------

  /** What is drawn: one of the groups' icons, or a custom emoji. */
  datatype FolderIcon = GroupIcon(group: IconGroup) | CustomEmojiIcon(documentId: string)

  function FolderIdOf(s: FolderSource): Option<int> {
    if s.ApiChatFolder? then Some(s.id) else s.folderId
  }

  function EmoticonOf(s: FolderSource): Option<string> {
    if s.ApiChatFolder? then s.emoticon else s.folder.emoticon
  }

  /** The document id of an entity, when it is a non-empty string. */
  function DocumentId(e: Entity): Option<string> {
    if "documentId" in e.fields && e.fields["documentId"].Str? && e.fields["documentId"].s != ""
    then Some(e.fields["documentId"].s) else None
  }

  /** `getFolderIcon`. `isKnownEmoji` stands for the lookup in the global
      store of loaded custom emoji. */
  function GetFolderIcon(s: FolderSource, isKnownEmoji: string -> bool): (r: FolderIcon)
    ensures FolderIdOf(s) == Some(0) ==> r == GroupIcon(Chats)
    ensures r.CustomEmojiIcon? <==>
      FolderIdOf(s) != Some(0) && FindCustomEmojiAsIcon(s).Some?
      && DocumentId(FindCustomEmojiAsIcon(s).value).Some?
      && isKnownEmoji(DocumentId(FindCustomEmojiAsIcon(s).value).value)
    ensures r.CustomEmojiIcon? ==> Some(r.documentId) == DocumentId(FindCustomEmojiAsIcon(s).value)
    ensures r.GroupIcon? && FolderIdOf(s) != Some(0) && r.group != Folder ==>
      EmoticonOf(s) == Some(Emoticon(r.group))
    ensures (FolderIdOf(s) != Some(0) && !r.CustomEmojiIcon? && EmoticonOf(s).Some?
             && IsSupportedEmoticon(EmoticonOf(s).value)) ==>
        r == GroupIcon(GetIconByEmoticon(EmoticonOf(s).value).value)
    ensures (FolderIdOf(s) != Some(0) && !r.CustomEmojiIcon?
             && (EmoticonOf(s).None? || !IsSupportedEmoticon(EmoticonOf(s).value))) ==>
        r == GroupIcon(Folder)
  {
    if FolderIdOf(s) == Some(0) then GroupIcon(Chats)
    else
      var entity := FindCustomEmojiAsIcon(s);
      if entity.Some? && DocumentId(entity.value).Some? && isKnownEmoji(DocumentId(entity.value).value) then
        CustomEmojiIcon(DocumentId(entity.value).value)
      else if EmoticonOf(s).Some? && EmoticonOf(s).value != "" && GetIconByEmoticon(EmoticonOf(s).value).Some? then
        GroupIcon(GetIconByEmoticon(EmoticonOf(s).value).value)
      else GroupIcon(Folder)
  }

  // ---------------------------------------------------------------------
  // removeCustomIconsFromFolder
  // ---------------------------------------------------------------------

  /** The entities without the custom emoji at offset 0, order kept. */
  function WithoutIconEntities(entities: seq<Entity>): (r: seq<Entity>)
    ensures forall e :: e in r <==> e in entities && !IsIconEntity(e)
    ensures |r| <= |entities|
    ensures |r| == |entities| <==> forall i :: 0 <= i < |entities| ==> !IsIconEntity(entities[i])
  {
    if entities == [] then []
    else (if IsIconEntity(entities[0]) then [] else [entities[0]]) + WithoutIconEntities(entities[1..])
  }

  /** A single entity is kept exactly when it is not the icon. */
  lemma WithoutOne(e: Entity)
    ensures WithoutIconEntities([e]) == if IsIconEntity(e) then [] else [e]
  {
    assert [e][1..] == [];
  }

  lemma ConcatAssoc(p: seq<Entity>, q: seq<Entity>, r: seq<Entity>)
    ensures p + (q + r) == (p + q) + r
  {
  }

  lemma WithoutCons(x: Entity, t: seq<Entity>)
    ensures WithoutIconEntities([x] + t) == (if IsIconEntity(x) then [] else [x]) + WithoutIconEntities(t)
  {
    assert ([x] + t)[1..] == t;
  }

  /** The filter works piece by piece: with `WithoutOne`, the kept
      entities are the non-icon ones, each once, in their original
      order. */
  lemma {:induction false} WithoutAppend(a: seq<Entity>, b: seq<Entity>)
    ensures WithoutIconEntities(a + b) == WithoutIconEntities(a) + WithoutIconEntities(b)
  {
    if a != [] {
      var x, t := a[0], a[1..];
      var h := if IsIconEntity(x) then [] else [x];
      assert a == [x] + t;
      assert a + b == [x] + (t + b);
      calc {
        WithoutIconEntities(a + b);
        { WithoutCons(x, t + b); }
        h + WithoutIconEntities(t + b);
        { WithoutAppend(t, b); }
        h + (WithoutIconEntities(t) + WithoutIconEntities(b));
        { ConcatAssoc(h, WithoutIconEntities(t), WithoutIconEntities(b)); }
        (h + WithoutIconEntities(t)) + WithoutIconEntities(b);
        { WithoutCons(x, t); }
        WithoutIconEntities(a) + WithoutIconEntities(b);
      }
    } else {
      assert a + b == b;
    }
  }

  /** The title as the source leaves it: the custom emoji at offset 0
      dropped from the entities, and the first character dropped from the
      text when any was; the entities kept are not moved. */
  function RemovedCustomIconsAsWritten(title: FormattedText): (r: FormattedText)
    ensures !HasIconEntity(title) ==> r == title
    ensures HasIconEntity(title) && |title.text| > 0 ==> r.text == title.text[1..]
    ensures r.entities.Some? <==> title.entities.Some?
    ensures title.entities.Some? ==>
      forall e :: e in r.entities.value <==> e in title.entities.value && !IsIconEntity(e)
    ensures title.entities.Some? ==> r.entities == Some(WithoutIconEntities(title.entities.value))
  {
    var removed := title.entities.Some? && exists i :: 0 <= i < |title.entities.value| && IsIconEntity(title.entities.value[i]);
    assert !removed && title.entities.Some? ==> WithoutIconEntities(title.entities.value) == title.entities.value by {
      if !removed && title.entities.Some? { KeepAllWhenNoIcon(title.entities.value); }
    }
    FormattedText(
      if removed && |title.text| > 0 then title.text[1..] else title.text,
      if title.entities.None? then None else Some(WithoutIconEntities(title.entities.value)))
  }

  /** An entity after the first character of its text is deleted: one
      starting later moves back by one; one starting at 0 loses that
      character. */
  function AfterFirstCharDropped(e: Entity): (r: Entity)
    ensures r.kind == e.kind && r.fields == e.fields
    ensures e.offset >= 1 ==> r.offset == e.offset - 1 && r.length == e.length
  {
    if e.offset >= 1 then e.(offset := e.offset - 1)
    else e.(length := if e.length >= 1 then e.length - 1 else 0)
  }

  function MapDropped(entities: seq<Entity>): (r: seq<Entity>)
    ensures |r| == |entities|
    ensures forall i :: 0 <= i < |entities| ==> r[i] == AfterFirstCharDropped(entities[i])
  {
    if entities == [] then [] else [AfterFirstCharDropped(entities[0])] + MapDropped(entities[1..])
  }

  predicate HasIconEntity(title: FormattedText) {
    title.entities.Some? && exists i :: 0 <= i < |title.entities.value| && IsIconEntity(title.entities.value[i])
  }

  /** The corrected title: as the source, and the entities kept move with
      the text when its first character is dropped. */
  function RemovedCustomIcons(title: FormattedText): (r: FormattedText)
    ensures !HasIconEntity(title) ==> r == title
    ensures HasIconEntity(title) && |title.text| > 0 ==> r.text == title.text[1..]
    ensures HasIconEntity(title) ==>
      r.entities == Some(MapDropped(WithoutIconEntities(title.entities.value)))
  {
    if !HasIconEntity(title) then
      assert title.entities.Some? ==> WithoutIconEntities(title.entities.value) == title.entities.value by {
        if title.entities.Some? { KeepAllWhenNoIcon(title.entities.value); }
      }
      title
    else
      FormattedText(if |title.text| > 0 then title.text[1..] else title.text,
                    Some(MapDropped(WithoutIconEntities(title.entities.value))))
  }

  /** The correction differs from the source only in the offsets: the
      text is the same, and each kept entity is the source's one moved with
      the dropped first character. */
  lemma CorrectedMovesAsWrittenEntities(title: FormattedText)
    requires HasIconEntity(title)
    ensures RemovedCustomIcons(title).text == RemovedCustomIconsAsWritten(title).text
    ensures RemovedCustomIcons(title).entities == Some(MapDropped(RemovedCustomIconsAsWritten(title).entities.value))
  {
  }

  lemma {:induction false} KeepAllWhenNoIcon(entities: seq<Entity>)
    requires forall i :: 0 <= i < |entities| ==> !IsIconEntity(entities[i])
    ensures WithoutIconEntities(entities) == entities
  {
    if entities != [] {
      KeepAllWhenNoIcon(entities[1..]);
    }
  }

  /** The characters an entity covers, when it lies inside the text. */
  function Covered(text: string, e: Entity): string
    requires 0 <= e.offset && 0 <= e.length && e.offset + e.length <= |text|
  {
    text[e.offset..e.offset + e.length]
  }

  /** Dropping the first character of a text moves an entity inside it
      so that it still covers the same characters, less the dropped one. */
  lemma AfterFirstCharDroppedKeepsCoverage(text: string, e: Entity)
    requires |text| > 0
    requires 0 <= e.offset && 0 <= e.length && e.offset + e.length <= |text|
    ensures var moved := AfterFirstCharDropped(e);
      && 0 <= moved.offset && 0 <= moved.length && moved.offset + moved.length <= |text[1..]|
      && Covered(text[1..], moved) ==
           (if e.offset == 0 && e.length > 0 then Covered(text, e)[1..] else Covered(text, e))
  {
    if e.offset >= 1 {
      assert text[1..][e.offset - 1..e.offset - 1 + e.length] == text[e.offset..e.offset + e.length];
    } else if e.length >= 1 {
      assert text[1..][0..e.length - 1] == text[0..e.length][1..];
    }
  }

  /** With the correction every entity kept still covers the characters it
      covered, less the dropped first one. */
  lemma RemovedCustomIconsKeepsCoverage(title: FormattedText, i: nat)
    requires HasIconEntity(title) && |title.text| > 0
    requires i < |WithoutIconEntities(title.entities.value)|
    requires var e := WithoutIconEntities(title.entities.value)[i];
      0 <= e.offset && 0 <= e.length && e.offset + e.length <= |title.text|
    ensures var e := WithoutIconEntities(title.entities.value)[i];
      var moved := RemovedCustomIcons(title).entities.value[i];
      && 0 <= moved.offset && 0 <= moved.length && moved.offset + moved.length <= |RemovedCustomIcons(title).text|
      && Covered(RemovedCustomIcons(title).text, moved) ==
           (if e.offset == 0 && e.length > 0 then Covered(title.text, e)[1..] else Covered(title.text, e))
  {
    AfterFirstCharDroppedKeepsCoverage(title.text, WithoutIconEntities(title.entities.value)[i]);
  }

  /** What the source does wrong: a title "Xab" whose custom emoji covers
      "X" and whose bold covers "ab" loses the "X", and the bold, left at
      offset 1 with length 2, now runs past the end of "ab". The corrected
      title moves the bold back to offset 0. */
  lemma RemovedCustomIconsAsWrittenMisplaces()
    ensures var emoji := Entity(CustomEmoji, 0, 1, map["documentId" := Str("1")]);
      var bold := Entity(Bold, 1, 2, map[]);
      var title := FormattedText("Xab", Some([emoji, bold]));
      && RemovedCustomIconsAsWritten(title) == FormattedText("ab", Some([bold]))
      && bold.offset + bold.length > |"ab"|
      && RemovedCustomIcons(title) == FormattedText("ab", Some([bold.(offset := 0)]))
  {
    var emoji := Entity(CustomEmoji, 0, 1, map["documentId" := Str("1")]);
    var bold := Entity(Bold, 1, 2, map[]);
    var title := FormattedText("Xab", Some([emoji, bold]));
    assert IsIconEntity(title.entities.value[0]);
    assert [emoji, bold][1..] == [bold];
    assert WithoutIconEntities([emoji, bold]) == [bold];
    assert HasIconEntity(title);
    assert "Xab"[1..] == "ab";
    assert MapDropped([bold]) == [bold.(offset := 0)];
  }

  /** The title object of a folder, which the source edits in place. */
  class FolderTitle {
    var text: string
    var entities: Option<seq<Entity>>

    function Value(): FormattedText
      reads this
    {
      FormattedText(text, entities)
    }

    constructor (title: FormattedText)
      ensures Value() == title
    {
      text := title.text;
      entities := title.entities;
    }
  }

  /** `FoldersState['folder']`: the folder being edited. */
  class EditedFolder {
    const title: FolderTitle
    var emoticon: Option<string>

    constructor (title: FolderTitle, emoticon: Option<string>)
      ensures this.title == title && this.emoticon == emoticon
    {
      this.title := title;
      this.emoticon := emoticon;
    }
  }

  /** `removeCustomIconsFromFolder`: edits the title in place and returns
      the same folder; the entities kept are not moved. */
  method RemoveCustomIconsFromFolder(folder: EditedFolder) returns (r: EditedFolder)
    modifies folder.title
    ensures r == folder
    ensures folder.title.Value() == RemovedCustomIconsAsWritten(old(folder.title.Value()))
  {
    var title := folder.title;
    if title.entities.Some? {
      var toRemove := exists i :: 0 <= i < |title.entities.value| && IsIconEntity(title.entities.value[i]);
      if toRemove {
        title.entities := Some(WithoutIconEntities(title.entities.value));
        if |title.text| > 0 {
          title.text := title.text[1..];
        }
      }
    }
    return folder;
  }
}
