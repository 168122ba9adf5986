/** The formatted-text value the composer produces (a plain text plus a list
    of entities that mark ranges of it) and the comparison the composer uses
    to decide whether its content changed
    (src/contest/text-editor/utils/index.ts). */
module TextModel {
  import opened Wrappers

  /** Entity kinds a formatted text can carry. */
  datatype EntityType =
    | Bold | Italic | Underline | Strike | Spoiler | Code | Pre | Blockquote
    | TextUrl | Url | Mention | MentionName | Hashtag | Cashtag | CustomEmoji
    | BotCommand | Email | Phone | Unknown

  /** The string an entity's `type` field holds, as written into the
      `data-entity-type` attribute of the editor's elements. */
  function WireName(t: EntityType): string {
    match t
    case Bold => "MessageEntityBold"
    case Italic => "MessageEntityItalic"
    case Underline => "MessageEntityUnderline"
    case Strike => "MessageEntityStrike"
    case Spoiler => "MessageEntitySpoiler"
    case Code => "MessageEntityCode"
    case Pre => "MessageEntityPre"
    case Blockquote => "MessageEntityBlockquote"
    case TextUrl => "MessageEntityTextUrl"
    case Url => "MessageEntityUrl"
    case Mention => "MessageEntityMention"
    case MentionName => "MessageEntityMentionName"
    case Hashtag => "MessageEntityHashtag"
    case Cashtag => "MessageEntityCashtag"
    case CustomEmoji => "MessageEntityCustomEmoji"
    case BotCommand => "MessageEntityBotCommand"
    case Email => "MessageEntityEmail"
    case Phone => "MessageEntityPhone"
    case Unknown => "MessageEntityUnknown"
  }

  /** The short camel-case name of an entity kind, the spelling the table of
      kind-specific fields is keyed by. */
  function ShortName(t: EntityType): string {
    match t
    case Bold => "bold"
    case Italic => "italic"
    case Underline => "underline"
    case Strike => "strike"
    case Spoiler => "spoiler"
    case Code => "code"
    case Pre => "pre"
    case Blockquote => "blockquote"
    case TextUrl => "textUrl"
    case Url => "url"
    case Mention => "mention"
    case MentionName => "mentionName"
    case Hashtag => "hashtag"
    case Cashtag => "cashtag"
    case CustomEmoji => "customEmoji"
    case BotCommand => "botCommand"
    case Email => "email"
    case Phone => "phone"
    case Unknown => "unknown"
  }

  /** Parses a `data-entity-type` value back into a kind. */
  function ParseWireName(s: string): (r: Option<EntityType>)
    ensures r.Some? ==> WireName(r.value) == s
  {
    if s == "MessageEntityBold" then Some(Bold)
    else if s == "MessageEntityItalic" then Some(Italic)
    else if s == "MessageEntityUnderline" then Some(Underline)
    else if s == "MessageEntityStrike" then Some(Strike)
    else if s == "MessageEntitySpoiler" then Some(Spoiler)
    else if s == "MessageEntityCode" then Some(Code)
    else if s == "MessageEntityPre" then Some(Pre)
    else if s == "MessageEntityBlockquote" then Some(Blockquote)
    else if s == "MessageEntityTextUrl" then Some(TextUrl)
    else if s == "MessageEntityUrl" then Some(Url)
    else if s == "MessageEntityMention" then Some(Mention)
    else if s == "MessageEntityMentionName" then Some(MentionName)
    else if s == "MessageEntityHashtag" then Some(Hashtag)
    else if s == "MessageEntityCashtag" then Some(Cashtag)
    else if s == "MessageEntityCustomEmoji" then Some(CustomEmoji)
    else if s == "MessageEntityBotCommand" then Some(BotCommand)
    else if s == "MessageEntityEmail" then Some(Email)
    else if s == "MessageEntityPhone" then Some(Phone)
    else if s == "MessageEntityUnknown" then Some(Unknown)
    else None
  }

  /** Parsing a written kind gives the kind back. */
  lemma ParseWireNameRoundTrip(t: EntityType)
    ensures ParseWireName(WireName(t)) == Some(t)
  {
    match t
    case Bold =>
    case Italic =>
    case Underline =>
    case Strike =>
    case Spoiler =>
    case Code =>
    case Pre =>
    case Blockquote =>
    case TextUrl =>
    case Url =>
    case Mention =>
    case MentionName =>
    case Hashtag =>
    case Cashtag =>
    case CustomEmoji =>
    case BotCommand =>
    case Email =>
    case Phone =>
    case Unknown =>
  }

  /** A kind-specific field value: a string (`language`, `url`, `userId`,
      `documentId`) or a flag (`collapsed`). */
  datatype FieldValue = Str(s: string) | Flag(b: bool)

  /** One entity: its kind, the range of the text it covers and its
      kind-specific fields; an absent key is an `undefined` field. */
  datatype Entity = Entity(kind: EntityType, offset: int, length: int, fields: map<string, FieldValue>)

  /** A formatted text: the plain text and its optional entity list. */
  datatype FormattedText = FormattedText(text: string, entities: Option<seq<Entity>>)

  function Field(e: Entity, key: string): Option<FieldValue> {
    if key in e.fields then Some(e.fields[key]) else None
  }

  function EntitiesOf(ft: FormattedText): seq<Entity> {
    ft.entities.GetOr([])
  }

  /** The table naming the one field of each kind that takes part in the
      comparison (index.ts:68-74). */
  const FormattedTextKeys: map<string, string> :=
    map["pre" := "language", "textUrl" := "url", "mentionName" := "userId",
        "blockquote" := "collapsed", "customEmoji" := "documentId"]

  /** The compared field of a kind, looked up by the kind's short name, the
      spelling the table is keyed by. */
  function ComparedField(t: EntityType): (r: Option<string>)
    ensures r.Some? <==> t in {Pre, TextUrl, MentionName, Blockquote, CustomEmoji}
    ensures t == Pre ==> r == Some("language")
    ensures t == TextUrl ==> r == Some("url")
    ensures t == MentionName ==> r == Some("userId")
    ensures t == Blockquote ==> r == Some("collapsed")
    ensures t == CustomEmoji ==> r == Some("documentId")
  {
    if ShortName(t) in FormattedTextKeys then Some(FormattedTextKeys[ShortName(t)]) else None
  }

  /** The compared field as the source looks it up: by the value of the
      entity's `type`, which is the wire name. */
  function ComparedFieldAsWritten(t: EntityType): Option<string> {
    if WireName(t) in FormattedTextKeys then Some(FormattedTextKeys[WireName(t)]) else None
  }

  /** No wire name is a key of the table, so the as-written lookup never
      finds a field to compare. */
  lemma ComparedFieldAsWrittenNeverFound(t: EntityType)
    ensures ComparedFieldAsWritten(t) == None
  {
    assert |WireName(t)| > 13 && WireName(t)[..13] == "MessageEntity";
    forall k | k in FormattedTextKeys ensures |k| < 13 || k[..13] != "MessageEntity" {
    }
  }

  // ---------------------------------------------------------------------
  // normalizeWhitespace (index.ts:76-79)
  // ---------------------------------------------------------------------

  /** ASCII case folding: the part of `toLowerCase` and of a regular
      expression's case-insensitive matching that tag names, attribute
      names and language aliases use. */
  function LowerAscii(c: char): char {
    if 'A' <= c <= 'Z' then (c as int + 32) as char else c
  }

  /** `toLowerCase`, letter by letter. */
  function ToLower(s: string): (r: string)
    ensures |r| == |s|
    ensures forall i :: 0 <= i < |s| ==> r[i] == LowerAscii(s[i])
  {
    seq(|s|, i requires 0 <= i < |s| => LowerAscii(s[i]))
  }

  /** The characters JavaScript's `\s` and `String.prototype.trim` treat as
      white space: the ECMAScript WhiteSpace and LineTerminator sets. */
  predicate IsWhitespace(c: char) {
    c == ' ' || c == '\t' || c == '\n' || c == '\r' || c == '\U{B}' || c == '\U{C}'
    || c == '\U{A0}' || c == '\U{FEFF}' || c == '\U{1680}'
    || ('\U{2000}' <= c <= '\U{200A}')
    || c == '\U{2028}' || c == '\U{2029}' || c == '\U{202F}' || c == '\U{205F}' || c == '\U{3000}'
  }

  /** Drops the white space at the start of `s` (`trimStart`). */
  function TrimStart(s: string): string {
    if s != [] && IsWhitespace(s[0]) then TrimStart(s[1..]) else s
  }

  /** Drops the white space at the end of `s` (`trimEnd`). */
  function TrimEnd(s: string): string {
    if s != [] && IsWhitespace(s[|s| - 1]) then TrimEnd(s[..|s| - 1]) else s
  }

  /** `trimStart` removes a prefix made only of white space, and no more. */
  lemma {:induction false} TrimStartRemovesLeadingWhitespace(s: string)
    ensures |TrimStart(s)| <= |s| && TrimStart(s) == s[|s| - |TrimStart(s)|..]
    ensures forall i :: 0 <= i < |s| - |TrimStart(s)| ==> IsWhitespace(s[i])
    ensures TrimStart(s) == [] || !IsWhitespace(TrimStart(s)[0])
  {
    if s != [] && IsWhitespace(s[0]) {
      var t := s[1..];
      TrimStartRemovesLeadingWhitespace(t);
      assert TrimStart(s) == TrimStart(t);
      assert t[|t| - |TrimStart(t)|..] == s[|s| - |TrimStart(t)|..];
      forall i | 1 <= i < |s| - |TrimStart(s)| ensures IsWhitespace(s[i]) {
        assert s[i] == t[i - 1];
      }
    }
  }

  /** `trimEnd` removes a suffix made only of white space, and no more. */
  lemma {:induction false} TrimEndRemovesTrailingWhitespace(s: string)
    ensures |TrimEnd(s)| <= |s| && TrimEnd(s) == s[..|TrimEnd(s)|]
    ensures forall i :: |TrimEnd(s)| <= i < |s| ==> IsWhitespace(s[i])
    ensures TrimEnd(s) == [] || !IsWhitespace(TrimEnd(s)[|TrimEnd(s)| - 1])
  {
    if s != [] && IsWhitespace(s[|s| - 1]) {
      var t := s[..|s| - 1];
      TrimEndRemovesTrailingWhitespace(t);
      assert TrimEnd(s) == TrimEnd(t);
      assert t[..|TrimEnd(t)|] == s[..|TrimEnd(t)|];
      forall i | |TrimEnd(s)| <= i < |s| - 1 ensures IsWhitespace(s[i]) {
        assert s[i] == t[i];
      }
    }
  }

  /** `s.trim()`. */
  function Trim(s: string): string {
    TrimEnd(TrimStart(s))
  }

  /** `s.replace(/\s+/g, ' ')`: every maximal run of white space becomes one
      space. */
  function CollapseWhitespace(s: string): string
    decreases |s|
  {
    if s == [] then []
    else if IsWhitespace(s[0]) then
      TrimStartRemovesLeadingWhitespace(s);
      [' '] + CollapseWhitespace(TrimStart(s))
    else [s[0]] + CollapseWhitespace(s[1..])
  }

  function NormalizeWhitespace(s: string): string {
    Trim(CollapseWhitespace(s))
  }

  /** The characters of `s` that are not white space, in order. */
  function NonWhitespace(s: string): string {
    if s == [] then []
    else if IsWhitespace(s[0]) then NonWhitespace(s[1..])
    else [s[0]] + NonWhitespace(s[1..])
  }

  /** Every white-space character is a plain space and no two are adjacent. */
  predicate SingleSpaced(s: string) {
    (forall i :: 0 <= i < |s| && IsWhitespace(s[i]) ==> s[i] == ' ')
    && (forall i :: 0 <= i < |s| - 1 && IsWhitespace(s[i]) ==> !IsWhitespace(s[i + 1]))
  }

  /** The shape a normalized text has: single-spaced, with no white space at
      either end. */
  predicate Canonical(s: string) {
    SingleSpaced(s) && (s != [] ==> !IsWhitespace(s[0]) && !IsWhitespace(s[|s| - 1]))
  }

  lemma {:induction false} NonWhitespaceAppend(a: string, b: string)
    ensures NonWhitespace(a + b) == NonWhitespace(a) + NonWhitespace(b)
  {
    if a == [] {
      assert a + b == b;
    } else {
      assert (a + b)[0] == a[0];
      assert (a + b)[1..] == a[1..] + b;
      NonWhitespaceAppend(a[1..], b);
    }
  }

  lemma {:induction false} TrimStartKeepsContent(s: string)
    ensures NonWhitespace(TrimStart(s)) == NonWhitespace(s)
  {
    if s != [] && IsWhitespace(s[0]) {
      TrimStartKeepsContent(s[1..]);
    }
  }

  lemma {:induction false} TrimEndKeepsContent(s: string)
    ensures NonWhitespace(TrimEnd(s)) == NonWhitespace(s)
  {
    if s != [] && IsWhitespace(s[|s| - 1]) {
      var t := s[..|s| - 1];
      TrimEndKeepsContent(t);
      assert s == t + [s[|s| - 1]];
      NonWhitespaceAppend(t, [s[|s| - 1]]);
      assert NonWhitespace([s[|s| - 1]]) == [] by {
        assert [s[|s| - 1]][1..] == [];
      }
    }
  }

  /** Collapsing keeps every non-white-space character, in order, and leaves
      a single-spaced text that starts with white space exactly when the
      input does. */
  lemma {:induction false} CollapseWhitespaceProperties(s: string)
    ensures NonWhitespace(CollapseWhitespace(s)) == NonWhitespace(s)
    ensures SingleSpaced(CollapseWhitespace(s))
    ensures |CollapseWhitespace(s)| > 0 <==> |s| > 0
    ensures s != [] ==> (IsWhitespace(CollapseWhitespace(s)[0]) <==> IsWhitespace(s[0]))
    decreases |s|
  {
    if s == [] {
    } else if IsWhitespace(s[0]) {
      var t := TrimStart(s);
      TrimStartRemovesLeadingWhitespace(s);
      CollapseWhitespaceProperties(t);
      TrimStartKeepsContent(s);
      var c := CollapseWhitespace(t);
      assert CollapseWhitespace(s) == [' '] + c;
      assert NonWhitespace([' '] + c) == NonWhitespace(c) by {
        assert ([' '] + c)[1..] == c;
      }
      assert t != [] ==> !IsWhitespace(c[0]);
    } else {
      CollapseWhitespaceProperties(s[1..]);
      var c := CollapseWhitespace(s[1..]);
      assert CollapseWhitespace(s) == [s[0]] + c;
      assert ([s[0]] + c)[1..] == c;
    }
  }

  lemma SingleSpacedSlice(s: string, i: int, j: int)
    requires 0 <= i <= j <= |s|
    requires SingleSpaced(s)
    ensures SingleSpaced(s[i..j])
  {
    var t := s[i..j];
    forall k | 0 <= k < |t| - 1 && IsWhitespace(t[k])
      ensures !IsWhitespace(t[k + 1])
    {
      assert t[k] == s[i + k] && t[k + 1] == s[i + k + 1];
    }
  }

  /** Trimming a single-spaced text keeps its content and leaves it
      canonical. */
  lemma TrimSingleSpaced(c: string)
    requires SingleSpaced(c)
    ensures NonWhitespace(Trim(c)) == NonWhitespace(c)
    ensures Canonical(Trim(c))
  {
    var t := TrimStart(c);
    TrimStartRemovesLeadingWhitespace(c);
    TrimStartKeepsContent(c);
    TrimEndKeepsContent(t);
    SingleSpacedSlice(c, |c| - |t|, |c|);
    var r := TrimEnd(t);
    TrimEndRemovesTrailingWhitespace(t);
    SingleSpacedSlice(t, 0, |r|);
    assert r == t[0..|r|];
    assert r != [] ==> r[0] == t[0];
  }

  /** What normalizing promises: all non-white-space characters are kept in
      order, and the result is single-spaced without edge white space. */
  lemma NormalizeWhitespaceCorrect(s: string)
    ensures NonWhitespace(NormalizeWhitespace(s)) == NonWhitespace(s)
    ensures Canonical(NormalizeWhitespace(s))
  {
    CollapseWhitespaceProperties(s);
    TrimSingleSpaced(CollapseWhitespace(s));
  }

  lemma {:induction false} CollapseSingleSpacedIsIdentity(s: string)
    requires SingleSpaced(s)
    ensures CollapseWhitespace(s) == s
  {
    if s != [] {
      SingleSpacedSlice(s, 1, |s|);
      CollapseSingleSpacedIsIdentity(s[1..]);
      if IsWhitespace(s[0]) {
        assert TrimStart(s) == s[1..] by {
          assert TrimStart(s) == TrimStart(s[1..]);
          assert s[1..] == [] || !IsWhitespace(s[1..][0]);
          assert TrimStart(s[1..]) == s[1..];
        }
      }
      assert s == [s[0]] + s[1..];
    }
  }

  /** A canonical text is left unchanged by normalizing. */
  lemma CanonicalIsNormalized(s: string)
    requires Canonical(s)
    ensures NormalizeWhitespace(s) == s
  {
    CollapseSingleSpacedIsIdentity(s);
  }

  /** Normalizing twice is normalizing once. */
  lemma NormalizeWhitespaceIdempotent(s: string)
    ensures NormalizeWhitespace(NormalizeWhitespace(s)) == NormalizeWhitespace(s)
  {
    NormalizeWhitespaceCorrect(s);
    CanonicalIsNormalized(NormalizeWhitespace(s));
  }

  // ---------------------------------------------------------------------
  // Sorting entities by offset (the comparator `e1.offset - e2.offset`)
  // ---------------------------------------------------------------------

  predicate SortedByOffset(s: seq<Entity>) {
    forall i, j :: 0 <= i < j < |s| ==> s[i].offset <= s[j].offset
  }

  /** Inserts `e` before the first entity whose offset is not smaller. */
  function InsertByOffset(e: Entity, s: seq<Entity>): (r: seq<Entity>)
    ensures multiset(r) == multiset(s) + multiset{e}
    ensures |r| == |s| + 1
  {
    if s == [] || e.offset <= s[0].offset then [e] + s
    else
      assert s == [s[0]] + s[1..];
      [s[0]] + InsertByOffset(e, s[1..])
  }

  lemma {:induction false} InsertKeepsSorted(e: Entity, s: seq<Entity>)
    requires SortedByOffset(s)
    ensures SortedByOffset(InsertByOffset(e, s))
  {
    if s != [] && e.offset > s[0].offset {
      InsertKeepsSorted(e, s[1..]);
      var t := InsertByOffset(e, s[1..]);
      assert InsertByOffset(e, s) == [s[0]] + t;
      InsertKeepsLowerBound(e, s[1..], s[0].offset);
    }
  }

  /** Inserting an entity at or above a lower bound of the offsets keeps
      it a lower bound. */
  lemma {:induction false} InsertKeepsLowerBound(e: Entity, s: seq<Entity>, b: int)
    requires e.offset >= b && forall i :: 0 <= i < |s| ==> s[i].offset >= b
    ensures forall i :: 0 <= i < |InsertByOffset(e, s)| ==> InsertByOffset(e, s)[i].offset >= b
  {
    if s != [] && e.offset > s[0].offset {
      InsertKeepsLowerBound(e, s[1..], b);
      assert InsertByOffset(e, s) == [s[0]] + InsertByOffset(e, s[1..]);
    }
  }

  /** The stable sort by offset that `Array.prototype.sort` performs with
      the source's comparator: entities with equal offsets keep their
      relative order. */
  function SortByOffset(s: seq<Entity>): (r: seq<Entity>)
    ensures multiset(r) == multiset(s)
    ensures |r| == |s|
    ensures SortedByOffset(r)
  {
    if s == [] then []
    else
      assert s == [s[0]] + s[1..];
      InsertKeepsSorted(s[0], SortByOffset(s[1..]));
      InsertByOffset(s[0], SortByOffset(s[1..]))
  }

  /** Sorting an already sorted list changes nothing; in particular sorting
      twice is sorting once. */
  lemma {:induction false} SortSortedIsIdentity(s: seq<Entity>)
    requires SortedByOffset(s)
    ensures SortByOffset(s) == s
  {
    if s != [] {
      SortSortedIsIdentity(s[1..]);
      assert s == [s[0]] + s[1..];
    }
  }

  // ---------------------------------------------------------------------
  // areFormattedTextsEqual (index.ts:81-97)
  // ---------------------------------------------------------------------

  /** Two entities agree: same kind, range, and compared field. */
  predicate EntitiesAgree(e: Entity, f: Entity) {
    e.kind == f.kind && e.offset == f.offset && e.length == f.length
    && match ComparedField(e.kind)
       case None => true
       case Some(k) => Field(e, k) == Field(f, k)
  }

  predicate EntitiesAgreeAsWritten(e: Entity, f: Entity) {
    e.kind == f.kind && e.offset == f.offset && e.length == f.length
    && match ComparedFieldAsWritten(e.kind)
       case None => true
       case Some(k) => Field(e, k) == Field(f, k)
  }

  predicate PairwiseAgree(xs: seq<Entity>, ys: seq<Entity>) {
    |xs| == |ys| && forall i :: 0 <= i < |xs| ==> EntitiesAgree(xs[i], ys[i])
  }

  predicate PairwiseAgreeAsWritten(xs: seq<Entity>, ys: seq<Entity>) {
    |xs| == |ys| && forall i :: 0 <= i < |xs| ==> EntitiesAgreeAsWritten(xs[i], ys[i])
  }

  /** Whether two optional formatted texts count as the same content: both
      absent, or texts equal up to white space and entities (sorted by
      offset) agreeing pairwise, the kind's compared field included. */
  predicate AreFormattedTextsEqual(a: Option<FormattedText>, b: Option<FormattedText>) {
    if a.None? || b.None? then a.None? && b.None?
    else
      NormalizeWhitespace(a.value.text) == NormalizeWhitespace(b.value.text)
      && PairwiseAgree(SortByOffset(EntitiesOf(a.value)), SortByOffset(EntitiesOf(b.value)))
  }

  /** The comparison as written, with the field lookup by wire name. */
  predicate AreFormattedTextsEqualAsWritten(a: Option<FormattedText>, b: Option<FormattedText>) {
    if a.None? || b.None? then a.None? && b.None?
    else
      NormalizeWhitespace(a.value.text) == NormalizeWhitespace(b.value.text)
      && PairwiseAgreeAsWritten(SortByOffset(EntitiesOf(a.value)), SortByOffset(EntitiesOf(b.value)))
  }

  /** The comparison as written is an equivalence relation. */
  lemma AreFormattedTextsEqualAsWrittenReflexive(a: Option<FormattedText>)
    ensures AreFormattedTextsEqualAsWritten(a, a)
  {
  }

  lemma AreFormattedTextsEqualAsWrittenSymmetric(a: Option<FormattedText>, b: Option<FormattedText>)
    requires AreFormattedTextsEqualAsWritten(a, b)
    ensures AreFormattedTextsEqualAsWritten(b, a)
  {
    if a.Some? && b.Some? {
      var xs, ys := SortByOffset(EntitiesOf(a.value)), SortByOffset(EntitiesOf(b.value));
      forall i | 0 <= i < |ys|
        ensures EntitiesAgreeAsWritten(ys[i], xs[i])
      {
        AsWrittenComparesKindAndRangeOnly(xs[i], ys[i]);
        AsWrittenComparesKindAndRangeOnly(ys[i], xs[i]);
      }
    }
  }

  lemma AreFormattedTextsEqualAsWrittenTransitive(a: Option<FormattedText>, b: Option<FormattedText>, c: Option<FormattedText>)
    requires AreFormattedTextsEqualAsWritten(a, b) && AreFormattedTextsEqualAsWritten(b, c)
    ensures AreFormattedTextsEqualAsWritten(a, c)
  {
    if a.Some? && b.Some? && c.Some? {
      var xs, ys, zs := SortByOffset(EntitiesOf(a.value)), SortByOffset(EntitiesOf(b.value)), SortByOffset(EntitiesOf(c.value));
      forall i | 0 <= i < |xs|
        ensures EntitiesAgreeAsWritten(xs[i], zs[i])
      {
        AsWrittenComparesKindAndRangeOnly(xs[i], ys[i]);
        AsWrittenComparesKindAndRangeOnly(ys[i], zs[i]);
        AsWrittenComparesKindAndRangeOnly(xs[i], zs[i]);
      }
    }
  }

  /** Two present texts are equal as written exactly when their normalized
      texts match and their sorted entities agree pairwise in kind, offset
      and length, whatever their type-specific fields. */
  lemma AsWrittenEqualityMeaning(a: FormattedText, b: FormattedText)
    ensures var xs, ys := SortByOffset(EntitiesOf(a)), SortByOffset(EntitiesOf(b));
      AreFormattedTextsEqualAsWritten(Some(a), Some(b)) <==>
        && NormalizeWhitespace(a.text) == NormalizeWhitespace(b.text)
        && |xs| == |ys|
        && forall i :: 0 <= i < |xs| ==>
             xs[i].kind == ys[i].kind && xs[i].offset == ys[i].offset && xs[i].length == ys[i].length
  {
    var xs, ys := SortByOffset(EntitiesOf(a)), SortByOffset(EntitiesOf(b));
    forall i | 0 <= i < |xs| && i < |ys| {
      AsWrittenComparesKindAndRangeOnly(xs[i], ys[i]);
    }
  }

  /** The correction only makes the comparison stricter: texts equal under
      it are equal as written. */
  lemma CorrectedImpliesAsWritten(a: Option<FormattedText>, b: Option<FormattedText>)
    requires AreFormattedTextsEqual(a, b)
    ensures AreFormattedTextsEqualAsWritten(a, b)
  {
    if a.Some? && b.Some? {
      var xs, ys := SortByOffset(EntitiesOf(a.value)), SortByOffset(EntitiesOf(b.value));
      forall i | 0 <= i < |xs|
        ensures EntitiesAgreeAsWritten(xs[i], ys[i])
      {
        assert EntitiesAgree(xs[i], ys[i]);
        AsWrittenComparesKindAndRangeOnly(xs[i], ys[i]);
      }
    }
  }

  /** The corrected comparison is an equivalence relation. */
  lemma AreFormattedTextsEqualReflexive(a: Option<FormattedText>)
    ensures AreFormattedTextsEqual(a, a)
  {
  }

  lemma AreFormattedTextsEqualSymmetric(a: Option<FormattedText>, b: Option<FormattedText>)
    requires AreFormattedTextsEqual(a, b)
    ensures AreFormattedTextsEqual(b, a)
  {
  }

  lemma AreFormattedTextsEqualTransitive(a: Option<FormattedText>, b: Option<FormattedText>, c: Option<FormattedText>)
    requires AreFormattedTextsEqual(a, b) && AreFormattedTextsEqual(b, c)
    ensures AreFormattedTextsEqual(a, c)
  {
  }

  /** Equal texts compare equal regardless of the order of their entity
      lists when those are already sorted (the sort is the identity). */
  lemma SortedEntitiesCompareDirectly(a: FormattedText, b: FormattedText)
    requires SortedByOffset(EntitiesOf(a)) && SortedByOffset(EntitiesOf(b))
    ensures AreFormattedTextsEqual(Some(a), Some(b)) <==>
      (NormalizeWhitespace(a.text) == NormalizeWhitespace(b.text)
       && PairwiseAgree(EntitiesOf(a), EntitiesOf(b)))
  {
    SortSortedIsIdentity(EntitiesOf(a));
    SortSortedIsIdentity(EntitiesOf(b));
  }

  /** The as-written comparison ignores the compared field: a text holding
      one code block and the same text whose code block differs only in its
      language (say "js" and "go") are judged equal, which the corrected
      comparison does not do. */
  lemma AsWrittenIgnoresCodeLanguage(text: string, ea: Entity, eb: Entity)
    requires ea.kind == Pre && eb.kind == Pre && ea.offset == eb.offset && ea.length == eb.length
    requires Field(ea, "language") != Field(eb, "language")
    ensures AreFormattedTextsEqualAsWritten(Some(FormattedText(text, Some([ea]))), Some(FormattedText(text, Some([eb]))))
    ensures !AreFormattedTextsEqual(Some(FormattedText(text, Some([ea]))), Some(FormattedText(text, Some([eb]))))
  {
    SortSortedIsIdentity([ea]);
    SortSortedIsIdentity([eb]);
    SingleEntitiesAsWritten(text, ea, eb);
    assert !EntitiesAgree(ea, eb);
  }

  /** One entity each: the as-written comparison looks at kind and range
      only. */
  lemma SingleEntitiesAsWritten(text: string, ea: Entity, eb: Entity)
    requires ea.kind == eb.kind && ea.offset == eb.offset && ea.length == eb.length
    requires SortByOffset([ea]) == [ea] && SortByOffset([eb]) == [eb]
    ensures AreFormattedTextsEqualAsWritten(Some(FormattedText(text, Some([ea]))), Some(FormattedText(text, Some([eb]))))
  {
    ComparedFieldAsWrittenNeverFound(ea.kind);
    assert EntitiesAgreeAsWritten(ea, eb);
  }

  /** The as-written comparison is never stricter than kind, range and
      text: it coincides with comparing those alone. */
  lemma AsWrittenComparesKindAndRangeOnly(e: Entity, f: Entity)
    ensures EntitiesAgreeAsWritten(e, f) <==>
      (e.kind == f.kind && e.offset == f.offset && e.length == f.length)
  {
    ComparedFieldAsWrittenNeverFound(e.kind);
  }

  // ---------------------------------------------------------------------
  // The comparison on the source's mutable objects: `entities?.sort(...)`
  // sorts each argument's entity array in place before comparing.
  // ---------------------------------------------------------------------

  /** A formatted text held by reference, its entity list a mutable array. */
  class FormattedTextRef {
    var text: string
    var entities: array?<Entity>

    constructor (text: string, entities: array?<Entity>)
      ensures this.text == text && this.entities == entities
    {
      this.text := text;
      this.entities := entities;
    }

    function Value(): FormattedText
      reads this, entities
    {
      FormattedText(text, if entities == null then None else Some(entities[..]))
    }
  }

  function ValueOf(x: FormattedTextRef?): Option<FormattedText>
    reads x, if x == null then {} else {x.entities}
  {
    if x == null then None else Some(x.Value())
  }

  function EntityArrays(x: FormattedTextRef?): set<object>
    reads x
  {
    if x != null && x.entities != null then {x.entities} else {}
  }

  /** Replaces the array's contents by their stable sort by offset. */
  method SortEntitiesInPlace(arr: array<Entity>)
    modifies arr
    ensures arr[..] == SortByOffset(old(arr[..]))
  {
    var sorted := SortByOffset(arr[..]);
    forall i | 0 <= i < arr.Length {
      arr[i] := sorted[i];
    }
  }

  /** `areFormattedTextsEqual` on references: the answer is the value-level
      comparison as written (field looked up by wire name) of the
      arguments as they were; the entity arrays are sorted
      in place exactly when both texts exist and their normalized texts
      agree, and are left alone otherwise. */
  method AreFormattedTextsEqualInPlace(a: FormattedTextRef?, b: FormattedTextRef?) returns (eq: bool)
    modifies EntityArrays(a) + EntityArrays(b)
    ensures eq == AreFormattedTextsEqualAsWritten(old(ValueOf(a)), old(ValueOf(b)))
    ensures a != null && b != null && NormalizeWhitespace(a.text) == NormalizeWhitespace(b.text) ==>
      (a.entities != null ==> a.entities[..] == SortByOffset(old(a.entities[..])))
      && (b.entities != null ==> b.entities[..] == SortByOffset(old(b.entities[..])))
    ensures a != null && b != null && NormalizeWhitespace(a.text) != NormalizeWhitespace(b.text) ==>
      (a.entities != null ==> a.entities[..] == old(a.entities[..]))
      && (b.entities != null ==> b.entities[..] == old(b.entities[..]))
  {
    if a == null || b == null {
      return a == null && b == null;
    }
    if NormalizeWhitespace(a.text) != NormalizeWhitespace(b.text) {
      return false;
    }
    eq := SortAndCompareEntities(a.entities, b.entities);
  }

  /** The second half of the comparison: sort both entity arrays in place
      (an absent list counts as empty), then compare them pairwise. */
  method SortAndCompareEntities(arrA: array?<Entity>, arrB: array?<Entity>) returns (eq: bool)
    modifies arrA, arrB
    ensures eq == PairwiseAgreeAsWritten(SortByOffset(if arrA == null then [] else old(arrA[..])),
                                SortByOffset(if arrB == null then [] else old(arrB[..])))
    ensures arrA != null ==> arrA[..] == SortByOffset(old(arrA[..]))
    ensures arrB != null ==> arrB[..] == SortByOffset(old(arrB[..]))
  {
    ghost var oldA := if arrA == null then [] else arrA[..];
    ghost var oldB := if arrB == null then [] else arrB[..];
    var entsA: seq<Entity> := [];
    if arrA != null {
      SortEntitiesInPlace(arrA);
      entsA := arrA[..];
    }
    var entsB: seq<Entity> := [];
    if arrB != null {
      if arrA == arrB {
        SortEntitiesInPlace(arrB);
        SortSortedIsIdentity(entsA);
        entsB := arrB[..];
      } else {
        ghost var sortedA := if arrA == null then [] else arrA[..];
        SortEntitiesInPlace(arrB);
        entsB := arrB[..];
        assert arrA != null ==> arrA[..] == sortedA;
      }
    }
    eq := EntitiesPairwiseAgree(entsA, entsB);
  }

  /** The `length` check and the `every` loop over two sorted lists, with
      the field looked up by wire name as the source does. */
  method EntitiesPairwiseAgree(entsA: seq<Entity>, entsB: seq<Entity>) returns (eq: bool)
    ensures eq == PairwiseAgreeAsWritten(entsA, entsB)
  {
    if |entsA| != |entsB| {
      return false;
    }
    var i := 0;
    while i < |entsA|
      invariant 0 <= i <= |entsA|
      invariant forall k :: 0 <= k < i ==> EntitiesAgreeAsWritten(entsA[k], entsB[k])
    {
      if !EntitiesAgreeAsWritten(entsA[i], entsB[i]) {
        return false;
      }
      i := i + 1;
    }
    return true;
  }
}
