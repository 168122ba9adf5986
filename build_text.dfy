/** The test helper that assembles a formatted text from parts, each a
    piece of text with an optional entity spanning it
    (`MMD_Utils.buildFormattedText`, src/contest/contest.tsx:228-269). Only
    the deterministic mode is modelled: with `randomMode` off no part is
    skipped at random. */
module BuildText {
  import opened Wrappers
  import opened TextModel

  /** One element of `parts`: the text and the entity it carries; the
      entity's own offset and length are overwritten. */
  datatype Part = Part(text: string, entity: Option<Entity>)

  /** A field as a JavaScript condition reads it: present, and neither an
      empty string nor `false`. */
  predicate FieldTruthy(e: Entity, key: string) {
    key in e.fields &&
    match e.fields[key]
    case Str(s) => s != ""
    case Flag(b) => b
  }

  /** The entities `buildFormattedText` refuses: a custom emoji without a
      document id, a text link without a URL. */
  predicate Refused(e: Entity) {
    (e.kind == CustomEmoji && !FieldTruthy(e, "documentId"))
    || (e.kind == TextUrl && !FieldTruthy(e, "url"))
  }

  /** The error's opening sentence; the source appends ` Entity: ` and
      the entity rendered as JSON, which is not modelled. */
  function RefusalMessage(e: Entity): string {
    if e.kind == CustomEmoji then "Missing documentId for CustomEmoji entity."
    else "Missing URL for TextUrl entity."
  }

  /** The text and entities built so far. */
  datatype Built = Built(text: string, entities: seq<Entity>)

  /** One part: skipped when undefined; otherwise its text is appended and
      its entity, if any, placed over that text. */
  function Step(acc: Built, part: Option<Part>): Result<Built, string> {
    if part.None? then Success(acc)
    else
      var p := part.value;
      if p.entity.None? then Success(Built(acc.text + p.text, acc.entities))
      else if Refused(p.entity.value) then Failure(RefusalMessage(p.entity.value))
      else Success(Built(acc.text + p.text, acc.entities + [p.entity.value.(offset := |acc.text|, length := |p.text|)]))
  }

  /** The parts folded from the left, stopping at the first refusal. */
  function BuildParts(parts: seq<Option<Part>>): Result<Built, string> {
    if parts == [] then Success(Built("", []))
    else
      match BuildParts(parts[..|parts| - 1])
      case Failure(e) => Failure(e)
      case Success(acc) => Step(acc, parts[|parts| - 1])
  }

  function BuildFormattedText(parts: seq<Option<Part>>): Result<FormattedText, string> {
    match BuildParts(parts)
    case Failure(e) => Failure(e)
    case Success(b) => Success(FormattedText(b.text, Some(b.entities)))
  }

  // ---------------------------------------------------------------------
  // Reference definitions
  // ---------------------------------------------------------------------

  /** The texts of the defined parts, in order. */
  function PartsText(parts: seq<Option<Part>>): string {
    if parts == [] then ""
    else PartsText(parts[..|parts| - 1]) + (if parts[|parts| - 1].Some? then parts[|parts| - 1].value.text else "")
  }

  /** The entities the defined parts carry, in order. */
  function PartsEntities(parts: seq<Option<Part>>): seq<Entity> {
    if parts == [] then []
    else
      var last := parts[|parts| - 1];
      PartsEntities(parts[..|parts| - 1]) + (if last.Some? && last.value.entity.Some? then [last.value.entity.value] else [])
  }

  /** A defined part that carries a refused entity. */
  predicate PartRefused(part: Option<Part>) {
    part.Some? && part.value.entity.Some? && Refused(part.value.entity.value)
  }

  /** Some defined part carries a refused entity. */
  predicate AnyRefused(parts: seq<Option<Part>>) {
    exists i :: 0 <= i < |parts| && PartRefused(parts[i])
  }

  /** An entity list in offset order, each entity inside a text of length
      `n`. */
  predicate Placed(entities: seq<Entity>, n: int) {
    && (forall i :: 0 <= i < |entities| ==>
          0 <= entities[i].offset && 0 <= entities[i].length && entities[i].offset + entities[i].length <= n)
    && (forall i, j :: 0 <= i < j < |entities| ==> entities[i].offset <= entities[j].offset)
  }

  /** The entity `e` is `raw` with a new position. */
  predicate SameApartFromPlace(e: Entity, raw: Entity) {
    e.kind == raw.kind && e.fields == raw.fields
  }

  /** `b` is what the parts describe: their texts in order, and one entity
      per part that carries one, kind and fields kept, placed in order
      inside the text. */
  predicate Describes(b: Built, parts: seq<Option<Part>>) {
    && b.text == PartsText(parts)
    && |b.entities| == |PartsEntities(parts)|
    && (forall i :: 0 <= i < |b.entities| ==> SameApartFromPlace(b.entities[i], PartsEntities(parts)[i]))
    && Placed(b.entities, |b.text|)
  }

  // ---------------------------------------------------------------------
  // Properties
  // ---------------------------------------------------------------------

  /** What the fold builds: it fails exactly when some part is refused, and
      otherwise builds what the parts describe. */
  lemma {:induction false} BuildPartsMeaning(parts: seq<Option<Part>>)
    ensures BuildParts(parts).Failure? <==> AnyRefused(parts)
    ensures BuildParts(parts).Success? ==> Describes(BuildParts(parts).value, parts)
  {
    if parts != [] {
      var init := parts[..|parts| - 1];
      var last := parts[|parts| - 1];
      BuildPartsMeaning(init);
      AnyRefusedSnoc(init, last);
      assert parts == init + [last];
      if BuildParts(init).Success? && Step(BuildParts(init).value, last).Success? {
        StepKeepsDescription(BuildParts(init).value, init, last);
      }
    }
  }

  /** A refused part among `init + [last]` is one of `init` or `last`. */
  lemma AnyRefusedSnoc(init: seq<Option<Part>>, last: Option<Part>)
    ensures AnyRefused(init + [last]) <==> AnyRefused(init) || PartRefused(last)
  {
    var parts := init + [last];
    if AnyRefused(init) {
      var i :| 0 <= i < |init| && PartRefused(init[i]);
      assert parts[i] == init[i];
    }
    if PartRefused(last) {
      assert parts[|init|] == last;
    }
  }

  /** One accepted step extends a description of `init` to one of
      `init + [last]`. */
  lemma StepKeepsDescription(acc: Built, init: seq<Option<Part>>, last: Option<Part>)
    requires Describes(acc, init) && Step(acc, last).Success?
    ensures Describes(Step(acc, last).value, init + [last])
  {
    assert (init + [last])[..|init|] == init;
  }

  /** The entity of a part sits over exactly that part's text: it ends
      where the text built so far ends. */
  lemma LastEntityCoversLastPart(parts: seq<Option<Part>>, p: Part)
    requires BuildParts(parts + [Some(p)]).Success? && p.entity.Some?
    ensures var b := BuildParts(parts + [Some(p)]).value;
      && |b.entities| > 0
      && b.entities[|b.entities| - 1] == p.entity.value.(offset := |b.text| - |p.text|, length := |p.text|)
  {
    assert (parts + [Some(p)])[..|parts|] == parts;
  }

  /** One more part: when the longer list builds, so does the shorter,
      and the longer result is the shorter one with that part's text
      appended and its entity, if any, placed at the old end of the text
      over exactly the part's own text. */
  lemma BuildPartsExtends(parts: seq<Option<Part>>, x: Option<Part>)
    requires BuildParts(parts + [x]).Success?
    ensures BuildParts(parts).Success?
    ensures var b0 := BuildParts(parts).value;
      var b := BuildParts(parts + [x]).value;
      && b.text == b0.text + (if x.Some? then x.value.text else "")
      && b.entities == b0.entities +
           (if x.Some? && x.value.entity.Some?
            then [x.value.entity.value.(offset := |b0.text|, length := |x.value.text|)]
            else [])
  {
    assert (parts + [x])[..|parts|] == parts;
  }

  /** What a prefix of the parts builds is kept, unmoved, at the front of
      what all of them build: text and entities alike. */
  lemma {:induction false} BuildPartsPrefix(p: seq<Option<Part>>, q: seq<Option<Part>>)
    requires BuildParts(p + q).Success?
    ensures BuildParts(p).Success?
    ensures var b0 := BuildParts(p).value;
      var b := BuildParts(p + q).value;
      && |b0.text| <= |b.text| && b.text[..|b0.text|] == b0.text
      && |b0.entities| <= |b.entities| && b.entities[..|b0.entities|] == b0.entities
    decreases |q|
  {
    if q == [] {
      assert p + q == p;
    } else {
      var init := q[..|q| - 1];
      var x := q[|q| - 1];
      assert p + q == (p + init) + [x];
      BuildPartsExtends(p + init, x);
      BuildPartsPrefix(p, init);
      var b0 := BuildParts(p).value;
      var b1 := BuildParts(p + init).value;
      var b := BuildParts(p + q).value;
      assert b.text[..|b1.text|] == b1.text;
      assert b.text[..|b0.text|] == b1.text[..|b0.text|];
      assert b.entities[..|b1.entities|] == b1.entities;
      assert b.entities[..|b0.entities|] == b1.entities[..|b0.entities|];
    }
  }

  /** A part carrying entity `e` at index `k`, and the entity as the
      builder places it: starting where the texts of the parts before it
      end, as long as the part's text. */
  predicate PlacedAt(parts: seq<Option<Part>>, k: int, e: Entity)
    requires 0 <= k < |parts|
  {
    && parts[k].Some? && parts[k].value.entity.Some?
    && e == parts[k].value.entity.value.(offset := |PartsText(parts[..k])|, length := |parts[k].value.text|)
  }

  /** Each entity built is the entity of one of the parts, placed over
      exactly that part's text. */
  lemma {:induction false} EntitySitsOverItsPart(parts: seq<Option<Part>>, i: int)
    requires BuildParts(parts).Success? && 0 <= i < |BuildParts(parts).value.entities|
    ensures exists k :: 0 <= k < |parts| && PlacedAt(parts, k, BuildParts(parts).value.entities[i])
  {
    var init := parts[..|parts| - 1];
    var x := parts[|parts| - 1];
    assert parts == init + [x];
    BuildPartsExtends(init, x);
    var b0 := BuildParts(init).value;
    var e := BuildParts(parts).value.entities[i];
    if i < |b0.entities| {
      EntitySitsOverItsPart(init, i);
      var k :| 0 <= k < |init| && PlacedAt(init, k, b0.entities[i]);
      assert parts[..k] == init[..k];
      assert PlacedAt(parts, k, e);
    } else {
      BuildPartsMeaning(init);
      assert parts[..|init|] == init;
      assert PlacedAt(parts, |init|, e);
    }
  }

  /** An undefined part changes nothing. */
  lemma UndefinedPartIsSkipped(parts: seq<Option<Part>>)
    ensures BuildParts(parts + [None]) == BuildParts(parts)
  {
    assert (parts + [None])[..|parts|] == parts;
  }

  // ---------------------------------------------------------------------
  // The loop as the source runs it
  // ---------------------------------------------------------------------

  /** `buildFormattedText` with `randomMode` off: `forEach` over the parts,
      extending `accumulatedText` and pushing onto `entities`. */
  method BuildFormattedTextLoop(parts: seq<Option<Part>>) returns (r: Result<FormattedText, string>)
    ensures r == BuildFormattedText(parts)
  {
    var accumulatedText := "";
    var entities: seq<Entity> := [];
    for i := 0 to |parts|
      invariant BuildParts(parts[..i]) == Success(Built(accumulatedText, entities))
    {
      assert parts[..i + 1][..i] == parts[..i];
      var part := parts[i];
      if part.None? {
        continue;
      }
      var startOffset := |accumulatedText|;
      accumulatedText := accumulatedText + part.value.text;
      if part.value.entity.Some? {
        var e := part.value.entity.value;
        if e.kind == CustomEmoji && !FieldTruthy(e, "documentId") {
          FailureStops(parts, i + 1);
          return Failure("Missing documentId for CustomEmoji entity.");
        }
        if e.kind == TextUrl && !FieldTruthy(e, "url") {
          FailureStops(parts, i + 1);
          return Failure("Missing URL for TextUrl entity.");
        }
        entities := entities + [e.(offset := startOffset, length := |part.value.text|)];
      }
    }
    assert parts[..|parts|] == parts;
    r := Success(FormattedText(accumulatedText, Some(entities)));
  }

  /** A refusal is final: once a prefix fails, so does every longer one,
      with the same error. */
  lemma {:induction false} FailureStops(parts: seq<Option<Part>>, j: nat)
    requires j <= |parts| && BuildParts(parts[..j]).Failure?
    ensures BuildParts(parts) == BuildParts(parts[..j])
    decreases |parts| - j
  {
    if j < |parts| {
      assert parts[..j + 1][..j] == parts[..j];
      FailureStops(parts, j + 1);
    } else {
      assert parts[..j] == parts;
    }
  }
}
