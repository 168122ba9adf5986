/** The composer's Markdown marker vocabulary: which typed characters are
    paired automatically, and the marker text of each formatting kind
    (src/contest/text-editor/TokenHelper.tsx:170-204). */
module MarkdownEditorUtils {
  import opened Wrappers
  import opened TextModel

  /** How many copies of a key go on each side when it is paired
      (TokenHelper.tsx:171-177), keyed by the keyboard event's `key`. */
  const AutoInsertChars: map<string, nat> :=
    map["*" := 1, "_" := 2, "~" := 2, "|" := 2, "`" := 1]

  const InlineMarkers: map<EntityType, string> :=
    map[Bold := "**", Italic := "*", Underline := "__", Strike := "~~", Spoiler := "||", Code := "`"]

  const BlockMarkers: map<EntityType, string> :=
    map[Pre := "```", Blockquote := ">"]

  /** The pairing width of a key, if the key is paired at all. */
  function AutoInsertEachSide(key: string): (r: Option<nat>)
    ensures r.Some? <==> key in {"*", "_", "~", "|", "`"}
    ensures r.Some? ==> r.value in {1, 2}
    ensures r == Some(2) <==> key in {"_", "~", "|"}
  {
    if key in AutoInsertChars then Some(AutoInsertChars[key]) else None
  }

  function GetInlineMarkerByType(t: EntityType): (r: Option<string>)
    ensures r.Some? <==> t in {Bold, Italic, Underline, Strike, Spoiler, Code}
    ensures r.Some? ==> r.value != ""
  {
    if t in InlineMarkers then Some(InlineMarkers[t]) else None
  }

  function GetBlockMarkerByType(t: EntityType): (r: Option<string>)
    ensures r.Some? <==> t in {Pre, Blockquote}
    ensures r.Some? ==> r.value != ""
  {
    if t in BlockMarkers then Some(BlockMarkers[t]) else None
  }

  /** `INLINE_MARKERS[type] || BLOCK_MARKERS[type] || null`: the inline
      table wins, then the block table; no marker text is empty, so `||`
      falls through exactly on a missing key. */
  function GetMarkerByType(t: EntityType): (r: Option<string>)
    ensures r.Some? <==> t in {Bold, Italic, Underline, Strike, Spoiler, Code, Pre, Blockquote}
    ensures GetInlineMarkerByType(t).Some? ==> r == GetInlineMarkerByType(t)
    ensures GetInlineMarkerByType(t).None? ==> r == GetBlockMarkerByType(t)
    ensures t == Bold ==> r == Some("**")
    ensures t == Italic ==> r == Some("*")
    ensures t == Underline ==> r == Some("__")
    ensures t == Strike ==> r == Some("~~")
    ensures t == Spoiler ==> r == Some("||")
    ensures t == Code ==> r == Some("`")
    ensures t == Pre ==> r == Some("```")
    ensures t == Blockquote ==> r == Some(">")
  {
    var inline := GetInlineMarkerByType(t);
    if inline.Some? && inline.value != "" then inline
    else
      var block := GetBlockMarkerByType(t);
      if block.Some? && block.value != "" then block else None
  }

  /** The kind a marker text stands for: the inverse of the two tables, so
      no two kinds share a marker. */
  function TypeOfMarker(m: string): (r: Option<EntityType>)
    ensures r.Some? ==> GetMarkerByType(r.value) == Some(m)
    ensures r.None? ==> m !in {"**", "*", "__", "~~", "||", "`", "```", ">"}
  {
    if m == "**" then Some(Bold)
    else if m == "*" then Some(Italic)
    else if m == "__" then Some(Underline)
    else if m == "~~" then Some(Strike)
    else if m == "||" then Some(Spoiler)
    else if m == "`" then Some(Code)
    else if m == "```" then Some(Pre)
    else if m == ">" then Some(Blockquote)
    else None
  }

  /** A kind has marker `m` exactly when `m` reads back as that kind: no
      two kinds share a marker text. */
  lemma MarkerRoundTrip(t: EntityType, m: string)
    ensures GetMarkerByType(t) == Some(m) <==> TypeOfMarker(m) == Some(t)
  {
  }
}
