/** How single tokens become entities: the kind table for Markdown tokens,
    its inverse used when the editor's tree is turned back into tokens, and
    the pairing of opening and closing `html` tokens through a stack of
    pending entities (src/contest/text-editor/TokenHelper.tsx:207-234,
    418-511, 517-559). */
module TokenEntities {
  import opened Wrappers
  import opened TextModel
  import MarkedJS

  /** JavaScript truthiness of an optional string: present and non-empty. */
  predicate Truthy(s: Option<string>) {
    s.Some? && s.value != ""
  }

  /** The Markdown token kinds that stand for an entity of their own. */
  const EntityTokenKinds: set<MarkedJS.TokenType> :=
    {MarkedJS.strong, MarkedJS.spoiler, MarkedJS.em, MarkedJS.underline, MarkedJS.del,
     MarkedJS.codespan, MarkedJS.code, MarkedJS.blockquote, MarkedJS.tblockquote}

  // ---------------------------------------------------------------------
  // getEntityFromToken (TokenHelper.tsx:207-234)
  // ---------------------------------------------------------------------

  /** The entity a Markdown token stands for, over `[startOffset,
      startOffset + length)`. */
  function GetEntityFromToken(token: MarkedJS.Token, startOffset: int, length: int): (r: Option<Entity>)
    ensures r.Some? <==> token.kind in EntityTokenKinds || (token.kind == MarkedJS.link && Truthy(token.href))
    ensures r.Some? ==> r.value.offset == startOffset && r.value.length == length
    ensures token.kind == MarkedJS.strong ==> r.Some? && r.value.kind == Bold
    ensures token.kind == MarkedJS.spoiler ==> r.Some? && r.value.kind == Spoiler
    ensures token.kind == MarkedJS.em ==> r.Some? && r.value.kind == Italic
    ensures token.kind == MarkedJS.underline ==> r.Some? && r.value.kind == Underline
    ensures token.kind == MarkedJS.del ==> r.Some? && r.value.kind == Strike
    ensures token.kind == MarkedJS.codespan ==> r.Some? && r.value.kind == Code
    ensures token.kind == MarkedJS.code ==>
      (&& r.Some? && r.value.kind == Pre
       && (Truthy(token.lang) <==> "language" in r.value.fields)
       && (Truthy(token.lang) ==> r.value.fields["language"] == Str(token.lang.value)))
    ensures token.kind == MarkedJS.link && r.Some? ==>
      r.value.kind == TextUrl && r.value.fields == map["url" := Str(token.href.value)]
    ensures token.kind in {MarkedJS.blockquote, MarkedJS.tblockquote} ==> r.Some? && r.value.kind == Blockquote
  {
    var k := token.kind;
    if k == MarkedJS.strong then Some(Entity(Bold, startOffset, length, map[]))
    else if k == MarkedJS.spoiler then Some(Entity(Spoiler, startOffset, length, map[]))
    else if k == MarkedJS.em then Some(Entity(Italic, startOffset, length, map[]))
    else if k == MarkedJS.underline then Some(Entity(Underline, startOffset, length, map[]))
    else if k == MarkedJS.del then Some(Entity(Strike, startOffset, length, map[]))
    else if k == MarkedJS.codespan then Some(Entity(Code, startOffset, length, map[]))
    else if k == MarkedJS.code then
      Some(Entity(Pre, startOffset, length,
                  if Truthy(token.lang) then map["language" := Str(token.lang.value)] else map[]))
    else if k == MarkedJS.link then
      if Truthy(token.href) then Some(Entity(TextUrl, startOffset, length, map["url" := Str(token.href.value)]))
      else None
    else if k == MarkedJS.blockquote || k == MarkedJS.tblockquote then
      Some(Entity(Blockquote, startOffset, length, map[]))
    else None
  }

  // ---------------------------------------------------------------------
  // entityTypeToTokenType (TokenHelper.tsx:517-559)
  // ---------------------------------------------------------------------

  /** The token kind an element of the given entity kind is turned into;
      kinds without Markdown syntax become plain text or links. */
  function EntityTypeToTokenType(t: Option<EntityType>): MarkedJS.TokenType {
    match t
    case None => MarkedJS.text
    case Some(k) =>
      match k
      case Bold => MarkedJS.strong
      case Blockquote => MarkedJS.blockquote
      case BotCommand => MarkedJS.text
      case Cashtag => MarkedJS.text
      case Code => MarkedJS.codespan
      case Email => MarkedJS.link
      case Hashtag => MarkedJS.text
      case Italic => MarkedJS.em
      case MentionName => MarkedJS.link
      case Mention => MarkedJS.link
      case Phone => MarkedJS.link
      case Pre => MarkedJS.code
      case Strike => MarkedJS.del
      case TextUrl => MarkedJS.link
      case Url => MarkedJS.link
      case Underline => MarkedJS.underline
      case Spoiler => MarkedJS.spoiler
      case CustomEmoji => MarkedJS.text
      case Unknown => MarkedJS.text
  }

  /** Going from an entity kind to a token kind and back through
      `getEntityFromToken`: the eight Markdown kinds come back unchanged;
      the link-like kinds come back as TextUrl, and only when the token has
      an `href`; every other kind becomes plain text and carries no
      entity. */
  lemma EntityTypeToTokenTypeRoundTrip(t: Option<EntityType>, token: MarkedJS.Token, o: int, l: int)
    requires token.kind == EntityTypeToTokenType(t)
    ensures t.Some? && t.value in {Bold, Italic, Underline, Strike, Spoiler, Code, Pre, Blockquote} ==>
      GetEntityFromToken(token, o, l).Some? && GetEntityFromToken(token, o, l).value.kind == t.value
    ensures t.Some? && t.value in {Email, MentionName, Mention, Phone, TextUrl, Url} ==>
      (GetEntityFromToken(token, o, l).Some? <==> Truthy(token.href))
      && (GetEntityFromToken(token, o, l).Some? ==> GetEntityFromToken(token, o, l).value.kind == TextUrl)
    ensures t.None? || t.value in {BotCommand, Cashtag, Hashtag, CustomEmoji, Unknown} ==>
      GetEntityFromToken(token, o, l).None?
  {
  }

  // ---------------------------------------------------------------------
  // Attribute extraction: `raw.match(new RegExp(`${attr}="([^"]*)"`, "i"))`
  // ---------------------------------------------------------------------

  /** `pattern` occurs at position `p` of `s`, letters compared without
      regard to case. */
  predicate OccursAt(s: string, pattern: string, p: nat) {
    p + |pattern| <= |s| && forall k :: 0 <= k < |pattern| ==> LowerAscii(s[p + k]) == LowerAscii(pattern[k])
  }

  /** `([^"]*)"` at position `q`: the characters up to the next double
      quote, if there is one. */
  function QuotedValue(s: string, q: nat): (r: Option<string>)
    decreases |s| - q
    ensures r.Some? ==>
      (&& q + |r.value| < |s| && s[q..q + |r.value|] == r.value
       && s[q + |r.value|] == '"' && '"' !in r.value)
    ensures r.None? ==> forall k :: q <= k < |s| ==> s[k] != '"'
  {
    if q >= |s| then None
    else if s[q] == '"' then Some("")
    else
      match QuotedValue(s, q + 1)
      case None => None
      case Some(v) => Some([s[q]] + v)
  }

  /** The match of `attr="([^"]*)"` that starts at `p`, with its group. */
  function MatchAt(s: string, attr: string, p: nat): Option<string> {
    if OccursAt(s, attr + "=\"", p) then QuotedValue(s, p + |attr| + 2) else None
  }

  /** The leftmost match at or after `p`. */
  function ExtractAttributeFrom(s: string, attr: string, p: nat): (r: Option<string>)
    decreases |s| + 1 - p
    ensures r.Some? ==>
      exists q :: (&& p <= q <= |s| && MatchAt(s, attr, q) == r
                   && forall q' :: p <= q' < q ==> MatchAt(s, attr, q').None?)
    ensures r.None? ==> forall q :: p <= q ==> MatchAt(s, attr, q).None?
  {
    if p > |s| then None
    else
      match MatchAt(s, attr, p)
      case Some(v) => Some(v)
      case None => ExtractAttributeFrom(s, attr, p + 1)
  }

  /** The value of attribute `attr` as the source reads it from a tag's
      text: the group of the leftmost case-insensitive match. */
  function ExtractAttribute(raw: string, attr: string): Option<string> {
    ExtractAttributeFrom(raw, attr, 0)
  }

  /** Reading the first attribute of a start tag the way the editor writes
      it (`<tag name="value" ...>`) gives back its value, when the tag name
      holds no quote and the value needs no escaping. */
  lemma ExtractAttributeOfFirstAttribute(tag: string, name: string, value: string, rest: string)
    requires '"' !in tag && '"' !in name && '"' !in value
    ensures ExtractAttribute("<" + tag + " " + name + "=\"" + value + "\"" + rest, name) == Some(value)
  {
    var head := "<" + tag + " ";
    var s := head + (name + "=\"") + (value + "\"" + rest);
    assert s == "<" + tag + " " + name + "=\"" + value + "\"" + rest;
    var start := |head|;
    AttributeMatchesAt(head, name, value, rest);
    assert s[..start + |name| + 1] == head + name + "=";
    NoMatchBeforeQuote(s, name, start + |name| + 1);
    ExtractAttributeFromFindsFirst(s, name, 0, start);
  }

  lemma AttributeMatchesAt(head: string, name: string, value: string, rest: string)
    requires '"' !in value
    ensures MatchAt(head + (name + "=\"") + (value + "\"" + rest), name, |head|) == Some(value)
  {
    var s := head + (name + "=\"") + (value + "\"" + rest);
    var start := |head|;
    var q := start + |name| + 2;
    assert s[start..q] == name + "=\"";
    assert OccursAt(s, name + "=\"", start);
    assert s[q..] == value + "\"" + rest;
    assert s[q..q + |value|] == value && s[q + |value|] == '"';
    QuotedValueUpToQuote(s, q, |value|);
  }

  /** A match needs a double quote right after `attr=`, so none starts
      where the text up to that quote holds none. */
  lemma NoMatchBeforeQuote(s: string, attr: string, m: nat)
    requires m <= |s| && '"' !in s[..m]
    ensures forall p: nat :: p + |attr| + 1 < m ==> MatchAt(s, attr, p).None?
  {
    forall p: nat | p + |attr| + 1 < m
      ensures MatchAt(s, attr, p).None?
    {
      var k := |attr| + 1;
      assert (attr + "=\"")[k] == '"';
      assert s[p + k] == s[..m][p + k];
    }
  }

  lemma {:induction false} QuotedValueUpToQuote(s: string, q: nat, n: nat)
    requires q + n < |s| && s[q + n] == '"' && '"' !in s[q..q + n]
    ensures QuotedValue(s, q) == Some(s[q..q + n])
    decreases n
  {
    if n > 0 {
      assert s[q] == s[q..q + n][0];
      assert '"' !in s[q + 1..q + n] by {
        assert s[q + 1..q + n] == s[q..q + n][1..];
      }
      QuotedValueUpToQuote(s, q + 1, n - 1);
      assert s[q..q + n] == [s[q]] + s[q + 1..q + n];
    }
  }

  lemma {:induction false} ExtractAttributeFromFindsFirst(s: string, attr: string, p: nat, q: nat)
    requires p <= q <= |s| && MatchAt(s, attr, q).Some?
    requires forall q' :: p <= q' < q ==> MatchAt(s, attr, q').None?
    ensures ExtractAttributeFrom(s, attr, p) == MatchAt(s, attr, q)
    decreases q - p
  {
    if p < q {
      ExtractAttributeFromFindsFirst(s, attr, p + 1, q);
    }
  }

  // ---------------------------------------------------------------------
  // getEntityFromHtmlToken (TokenHelper.tsx:418-511)
  // ---------------------------------------------------------------------

  /** An entity opened by an `html` token and not yet closed: the raw
      `data-entity-type` value, where it started and the attributes it
      will need when it closes. */
  datatype Pending = Pending(kind: string, startOffset: int, href: Option<string>,
                             documentId: Option<string>, language: Option<string>, collapsed: bool)

  /** `raw[0] === '<' && raw[1] !== '/'`, with an out-of-range index read
      as `undefined`. */
  predicate IsOpeningTag(raw: string) {
    |raw| >= 1 && raw[0] == '<' && (|raw| < 2 || raw[1] != '/')
  }

  predicate IsClosingTag(raw: string) {
    |raw| >= 2 && raw[0] == '<' && raw[1] == '/'
  }

  /** What an opening tag pushes, if anything: only a tag whose
      `data-entity-type` attribute has a non-empty value opens an
      entity. */
  function OpenedEntity(raw: string, localOffset: int): (r: Option<Pending>)
    ensures r.Some? <==> Truthy(ExtractAttribute(raw, "data-entity-type"))
    ensures r.Some? ==> r.value.startOffset == localOffset
  {
    var entityType := ExtractAttribute(raw, "data-entity-type");
    if Truthy(entityType) then
      Some(Pending(entityType.value, localOffset,
                   ExtractAttribute(raw, "href"),
                   ExtractAttribute(raw, "data-document-id"),
                   ExtractAttribute(raw, "data-language"),
                   ExtractAttribute(raw, "data-collapsed") == Some("true")))
    else None
  }

  /** The entity kinds a closing tag can produce. */
  const HtmlEntityKinds: set<EntityType> :=
    {TextUrl, CustomEmoji, Pre, Blockquote, Mention, Url, Cashtag, Hashtag}

  /** The entity a popped pending entry closes into, or the error the
      source throws: a TextUrl without `href`, a CustomEmoji without
      `documentId`, or a kind outside the supported ones. */
  function ClosedEntity(p: Pending, localOffset: int, startOffset: int): (r: Result<Entity, string>)
    ensures r.Success? <==>
      (&& ParseWireName(p.kind).Some? && ParseWireName(p.kind).value in HtmlEntityKinds
       && (ParseWireName(p.kind).value == TextUrl ==> Truthy(p.href))
       && (ParseWireName(p.kind).value == CustomEmoji ==> Truthy(p.documentId)))
    ensures r.Success? ==>
      (&& WireName(r.value.kind) == p.kind
       && r.value.length == localOffset - p.startOffset
       && r.value.offset == startOffset - (localOffset - p.startOffset))
    ensures r.Success? && r.value.kind == TextUrl ==> r.value.fields == map["url" := Str(p.href.value)]
    ensures r.Success? && r.value.kind == CustomEmoji ==> r.value.fields == map["documentId" := Str(p.documentId.value)]
    ensures r.Success? && r.value.kind == Pre ==>
      r.value.fields == if p.language.Some? then map["language" := Str(p.language.value)] else map[]
    ensures r.Success? && r.value.kind == Blockquote ==>
      r.value.fields == if p.collapsed then map["collapsed" := Flag(true)] else map[]
    ensures r.Success? && r.value.kind in {Mention, Url, Cashtag, Hashtag} ==> r.value.fields == map[]
  {
    var length := localOffset - p.startOffset;
    var offset := startOffset - length;
    match ParseWireName(p.kind)
    case None => Failure("Unsupported entity type")
    case Some(t) =>
      if t == TextUrl then
        if !Truthy(p.href) then Failure("Missing href for TextUrl entity")
        else Success(Entity(t, offset, length, map["url" := Str(p.href.value)]))
      else if t == CustomEmoji then
        if !Truthy(p.documentId) then Failure("Missing documentId for CustomEmoji entity")
        else Success(Entity(t, offset, length, map["documentId" := Str(p.documentId.value)]))
      else if t == Pre then
        Success(Entity(t, offset, length,
                       if p.language.Some? then map["language" := Str(p.language.value)] else map[]))
      else if t == Blockquote then
        Success(Entity(t, offset, length, if p.collapsed then map["collapsed" := Flag(true)] else map[]))
      else if t in {Mention, Url, Cashtag, Hashtag} then
        Success(Entity(t, offset, length, map[]))
      else Failure("Unsupported entity type")
  }

  /** The outcome of one `html` token: the entity it closed, if any, and
      the pending stack after it. */
  datatype HtmlOutcome = HtmlOutcome(entity: Option<Entity>, pending: seq<Pending>)

  /** One `html` token against the pending stack. An opening tag with an
      entity type pushes; a closing tag pops and closes the popped entry
      (nothing happens on an empty stack); anything else is ignored. */
  function GetEntityFromHtmlToken(raw: string, localOffset: int, startOffset: int, pending: seq<Pending>): (r: Result<HtmlOutcome, string>)
    ensures IsOpeningTag(raw) ==>
      (&& r.Success? && r.value.entity.None?
       && r.value.pending == pending + (if OpenedEntity(raw, localOffset).Some? then [OpenedEntity(raw, localOffset).value] else []))
    ensures IsClosingTag(raw) && pending == [] ==> r == Success(HtmlOutcome(None, []))
    ensures IsClosingTag(raw) && pending != [] ==>
      (&& (r.Success? <==> ClosedEntity(pending[|pending| - 1], localOffset, startOffset).Success?)
       && (r.Success? ==>
             && r.value.pending == pending[..|pending| - 1]
             && r.value.entity == Some(ClosedEntity(pending[|pending| - 1], localOffset, startOffset).value)))
    ensures !IsOpeningTag(raw) && !IsClosingTag(raw) ==> r == Success(HtmlOutcome(None, pending))
  {
    if IsOpeningTag(raw) then
      match OpenedEntity(raw, localOffset)
      case None => Success(HtmlOutcome(None, pending))
      case Some(p) => Success(HtmlOutcome(None, pending + [p]))
    else if IsClosingTag(raw) then
      if pending == [] then Success(HtmlOutcome(None, pending))
      else
        var top := pending[|pending| - 1];
        match ClosedEntity(top, localOffset, startOffset)
        case Failure(e) => Failure(e)
        case Success(entity) => Success(HtmlOutcome(Some(entity), pending[..|pending| - 1]))
    else Success(HtmlOutcome(None, pending))
  }

  /** An opening tag followed, after `n` more characters and with the stack
      back as it was, by a closing tag emits an entity that spans exactly
      those `n` characters. */
  lemma OpenThenCloseSpans(openRaw: string, closeRaw: string, pending: seq<Pending>, start: int, n: nat)
    requires IsOpeningTag(openRaw) && IsClosingTag(closeRaw)
    requires OpenedEntity(openRaw, start).Some?
    requires var p := OpenedEntity(openRaw, start).value; ClosedEntity(p, start + n, start + n).Success?
    ensures var afterOpen := GetEntityFromHtmlToken(openRaw, start, start, pending);
      afterOpen.Success? &&
      (var closed := GetEntityFromHtmlToken(closeRaw, start + n, start + n, afterOpen.value.pending);
       && closed.Success? && closed.value.pending == pending
       && closed.value.entity.Some?
       && closed.value.entity.value.offset == start
       && closed.value.entity.value.length == n
       && WireName(closed.value.entity.value.kind) == ExtractAttribute(openRaw, "data-entity-type").value)
  {
    var p := OpenedEntity(openRaw, start).value;
    var afterOpen := GetEntityFromHtmlToken(openRaw, start, start, pending);
    assert afterOpen.value.pending == pending + [p];
    assert (pending + [p])[..|pending + [p]| - 1] == pending;
  }
}
