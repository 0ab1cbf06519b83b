/**
  Articles: a text with entity ranges becomes blocks of nested rich text. Rendering gives back, code
  unit by code unit, the text, its styles from the inside out, its custom emoji and whether it is
  quoted; the theorems say that the conversion keeps all of it.
 */
module RichText {

  datatype Option<T> = None | Some(value: T)

  /** Texts are sequences of UTF-16 code units, as are offsets and lengths. */
  type CodeUnit = x: int | 0 <= x < 0x1_0000

  type Text = seq<CodeUnit>

  datatype Kind =
    | Bold | Italic | Underline | Strikethrough | Code | Pre | Blockquote
    | TextLink(url: string) | Mention(userId: string)
    | CustomEmoji(definition: int, custom: bool) | ConversationLink(conversation: int)

  datatype Entity = Entity(kind: Kind, offset: int, length: int)

  datatype Options = Options(
    userId: Option<string -> int>, customEmojiId: Option<int -> Option<int>>, conversationLink: Option<int -> Option<string>>)

  datatype Style =
    | BoldStyle | ItalicStyle | UnderlineStyle | StrikeStyle | FixedStyle
    | UrlStyle(url: string) | MentionStyle(user: int)

  datatype Rich =
    | Plain(text: Text)
    | Styled(style: Style, inner: Rich)
    | Emoji(documentId: int, alt: Text)
    | Concat(texts: seq<Rich>)

  // ---------------------------------------------------------------- rendering

  /** What a reader sees at one code unit; styles from the inside out. */
  datatype Cell = Cell(unit: CodeUnit, styles: seq<Style>, emoji: Option<int>)

  function Cells(text: Text, styles: seq<Style>, emoji: Option<int>): (r: seq<Cell>)
    ensures |r| == |text| && forall i :: 0 <= i < |text| ==> r[i] == Cell(text[i], styles, emoji)
  {
    seq(|text|, i requires 0 <= i < |text| => Cell(text[i], styles, emoji))
  }

  function Wrapped(cells: seq<Cell>, style: Style): (r: seq<Cell>)
    ensures |r| == |cells| && forall i :: 0 <= i < |cells| ==> r[i] == cells[i].(styles := cells[i].styles + [style])
  {
    seq(|cells|, i requires 0 <= i < |cells| => cells[i].(styles := cells[i].styles + [style]))
  }

  function Render(rich: Rich): seq<Cell> {
    match rich
    case Plain(text) => Cells(text, [], None)
    case Styled(style, inner) => Wrapped(Render(inner), style)
    case Emoji(documentId, alt) => Cells(alt, [], Some(documentId))
    case Concat(texts) => RenderAll(texts)
  }

  function RenderAll(texts: seq<Rich>): seq<Cell> {
    if texts == [] then [] else RenderAll(texts[..|texts| - 1]) + Render(texts[|texts| - 1])
  }

  /** The leaves of a rich text, concatenated. */
  function Leaves(rich: Rich): Text {
    match rich
    case Plain(text) => text
    case Styled(_, inner) => Leaves(inner)
    case Emoji(_, alt) => alt
    case Concat(texts) => AllLeaves(texts)
  }

  function AllLeaves(texts: seq<Rich>): Text {
    if texts == [] then [] else AllLeaves(texts[..|texts| - 1]) + Leaves(texts[|texts| - 1])
  }

  function Units(cells: seq<Cell>): (r: Text)
    ensures |r| == |cells| && forall i :: 0 <= i < |cells| ==> r[i] == cells[i].unit
  {
    seq(|cells|, i requires 0 <= i < |cells| => cells[i].unit)
  }

  /** Rendering shows exactly the leaves. */
  lemma {:induction false} LeavesAreRendered(rich: Rich)
    ensures Units(Render(rich)) == Leaves(rich)
  {
    match rich {
      case Plain(_) =>
      case Styled(_, inner) => LeavesAreRendered(inner);
      case Emoji(_, _) =>
      case Concat(texts) => AllLeavesAreRendered(texts);
    }
  }

  lemma {:induction false} AllLeavesAreRendered(texts: seq<Rich>)
    ensures Units(RenderAll(texts)) == AllLeaves(texts)
  {
    if texts != [] {
      AllLeavesAreRendered(texts[..|texts| - 1]);
      LeavesAreRendered(texts[|texts| - 1]);
    }
  }

  // ----------------------------------------------------------------- entities

  predicate ValidEntity(text: Text, e: Entity) {
    e.offset >= 0 && e.length > 0 && e.offset + e.length <= |text|
  }

  function Filter(es: seq<Entity>, f: Entity -> bool): (r: seq<Entity>)
    ensures forall e :: e in r <==> e in es && f(e)
  {
    if es == [] then []
    else
      assert es == es[..|es| - 1] + [es[|es| - 1]];
      if f(es[|es| - 1]) then Filter(es[..|es| - 1], f) + [es[|es| - 1]] else Filter(es[..|es| - 1], f)
  }

  /** The entities that a text can have. */
  function ValidArticleEntities(text: Text, entities: seq<Entity>): seq<Entity> {
    Filter(entities, e => ValidEntity(text, e))
  }

  predicate Covers(e: Entity, start: int, end: int) {
    e.offset <= start && e.offset + e.length >= end
  }

  /** The order of wrapping: from the one that begins last, and among those from the shortest. */
  predicate Before(a: Entity, b: Entity) {
    a.offset > b.offset || (a.offset == b.offset && a.length < b.length)
  }

  /** Stable insertion from the back. */
  function Insert(sorted: seq<Entity>, e: Entity): seq<Entity> {
    if sorted == [] || !Before(e, sorted[|sorted| - 1]) then sorted + [e]
    else Insert(sorted[..|sorted| - 1], e) + [sorted[|sorted| - 1]]
  }

  function Sort(es: seq<Entity>): seq<Entity> {
    if es == [] then [] else Insert(Sort(es[..|es| - 1]), es[|es| - 1])
  }

  ghost predicate Sorted(es: seq<Entity>) {
    forall i, j :: 0 <= i < j < |es| ==> !Before(es[j], es[i])
  }

  lemma {:induction false} InsertKeeps(sorted: seq<Entity>, e: Entity)
    ensures multiset(Insert(sorted, e)) == multiset(sorted) + multiset{e}
  {
    if sorted != [] && Before(e, sorted[|sorted| - 1]) {
      assert sorted == sorted[..|sorted| - 1] + [sorted[|sorted| - 1]];
      InsertKeeps(sorted[..|sorted| - 1], e);
    }
  }

  lemma SortedSnoc(init: seq<Entity>, last: Entity)
    requires Sorted(init) && forall x :: x in init ==> !Before(last, x)
    ensures Sorted(init + [last])
  {
  }

  lemma {:induction false} InsertSorts(sorted: seq<Entity>, e: Entity)
    requires Sorted(sorted)
    ensures Sorted(Insert(sorted, e))
  {
    if sorted == [] || !Before(e, sorted[|sorted| - 1]) {
      SortedSnoc(sorted, e);
    } else {
      var init, last := sorted[..|sorted| - 1], sorted[|sorted| - 1];
      InsertSorts(init, e);
      InsertKeeps(init, e);
      assert forall x :: x in Insert(init, e) <==> x in multiset(Insert(init, e));
      SortedSnoc(Insert(init, e), last);
    }
  }

  lemma {:induction false} SortSorts(es: seq<Entity>)
    ensures Sorted(Sort(es)) && multiset(Sort(es)) == multiset(es)
  {
    if es != [] {
      SortSorts(es[..|es| - 1]);
      InsertSorts(Sort(es[..|es| - 1]), es[|es| - 1]);
      InsertKeeps(Sort(es[..|es| - 1]), es[|es| - 1]);
      assert es == es[..|es| - 1] + [es[|es| - 1]];
    }
  }

  // ------------------------------------------------------------------- styles

  /** What an entity does to the text it covers. */
  datatype Effect = Nothing | Wraps(style: Style) | Replaces(documentId: int)

  function EffectOf(e: Entity, options: Options): Effect {
    match e.kind
    case Bold => Wraps(BoldStyle)
    case Italic => Wraps(ItalicStyle)
    case Underline => Wraps(UnderlineStyle)
    case Strikethrough => Wraps(StrikeStyle)
    case Code => Wraps(FixedStyle)
    case Pre => Wraps(FixedStyle)
    case Blockquote => Nothing
    case TextLink(url) => Wraps(UrlStyle(url))
    case Mention(userId) => if options.userId.Some? then Wraps(MentionStyle(options.userId.value(userId))) else Nothing
    case CustomEmoji(definition, custom) =>
      if custom && options.customEmojiId.Some? && options.customEmojiId.value(definition).Some?
      then Replaces(options.customEmojiId.value(definition).value) else Nothing
    case ConversationLink(conversation) =>
      if options.conversationLink.Some? && options.conversationLink.value(conversation).Some? &&
         options.conversationLink.value(conversation).value != ""
      then Wraps(UrlStyle(options.conversationLink.value(conversation).value)) else Nothing
  }

  datatype Stack = Stack(styles: seq<Style>, emoji: Option<int>)

  /** The styles that entities give one after the other; a custom emoji replaces what is inside it. */
  function StackOf(es: seq<Entity>, options: Options): Stack {
    if es == [] then Stack([], None)
    else
      var inner := StackOf(es[..|es| - 1], options);
      match EffectOf(es[|es| - 1], options)
      case Nothing => inner
      case Wraps(style) => Stack(inner.styles + [style], inner.emoji)
      case Replaces(documentId) => Stack([], Some(documentId))
  }

  function ApplyOne(segment: Rich, slice: Text, e: Entity, options: Options): Rich {
    match EffectOf(e, options)
    case Nothing => segment
    case Wraps(style) => Styled(style, segment)
    case Replaces(documentId) => Emoji(documentId, slice)
  }

  function Apply(slice: Text, es: seq<Entity>, options: Options): Rich {
    if es == [] then Plain(slice) else ApplyOne(Apply(slice, es[..|es| - 1], options), slice, es[|es| - 1], options)
  }

  lemma {:induction false} ApplyRenders(slice: Text, es: seq<Entity>, options: Options)
    ensures Render(Apply(slice, es, options)) == Cells(slice, StackOf(es, options).styles, StackOf(es, options).emoji)
  {
    if es != [] {
      hide EffectOf;
      ApplyRenders(slice, es[..|es| - 1], options);
    }
  }

  function Inline(text: Text, entities: seq<Entity>): seq<Entity> {
    Filter(ValidArticleEntities(text, entities), (e: Entity) => e.kind != Blockquote)
  }

  function Quotes(text: Text, entities: seq<Entity>): seq<Entity> {
    Filter(ValidArticleEntities(text, entities), (e: Entity) => e.kind == Blockquote)
  }

  function CoveringAt(es: seq<Entity>, p: int): seq<Entity> {
    Filter(es, e => Covers(e, p, p + 1))
  }

  /** What a reader should see at a position of the text. */
  function CellAt(text: Text, entities: seq<Entity>, options: Options, p: nat): Cell
    requires p < |text|
  {
    var stack := StackOf(Sort(CoveringAt(Inline(text, entities), p)), options);
    Cell(text[p], stack.styles, stack.emoji)
  }

  /** A position is quoted when a valid quote covers it. */
  predicate QuotedAt(text: Text, entities: seq<Entity>, p: int) {
    exists e :: e in entities && e.kind == Blockquote && ValidEntity(text, e) && Covers(e, p, p + 1)
  }

  // --------------------------------------------------------------- boundaries

  ghost predicate Ascending(s: seq<int>) {
    forall i, j :: 0 <= i < j < |s| ==> s[i] < s[j]
  }

  lemma AscendingSnoc(init: seq<int>, last: int)
    requires Ascending(init) && forall x :: x in init ==> x < last
    ensures Ascending(init + [last])
  {
    assert forall i :: 0 <= i < |init| ==> init[i] in init;
  }

  function InsertUnique(sorted: seq<int>, x: int): (r: seq<int>)
    requires Ascending(sorted)
    ensures Ascending(r) && forall y :: y in r <==> y in sorted || y == x
  {
    if sorted == [] then [x]
    else
      var init, last := sorted[..|sorted| - 1], sorted[|sorted| - 1];
      assert sorted == init + [last];
      if last < x then sorted + [x]
      else if last == x then sorted
      else
        AscendingSnoc(InsertUnique(init, x), last);
        InsertUnique(init, x) + [last]
  }

  /** The different values in ascending order. */
  function Boundaries(values: seq<int>): (r: seq<int>)
    ensures Ascending(r) && forall y :: y in r <==> y in values
  {
    if values == [] then []
    else
      assert values == values[..|values| - 1] + [values[|values| - 1]];
      InsertUnique(Boundaries(values[..|values| - 1]), values[|values| - 1])
  }

  function Min(a: int, b: int): int { if a <= b then a else b }

  function Max(a: int, b: int): int { if a >= b then a else b }

  /** The ends of entities, cut to a range. */
  function Ends(es: seq<Entity>, start: int, end: int): (r: seq<int>)
    ensures forall e :: e in es ==> Max(start, e.offset) in r && Min(end, e.offset + e.length) in r
    ensures (forall e :: e in es ==> e.offset < end && e.offset + e.length > start) && start <= end ==>
              forall y :: y in r ==> start <= y <= end
  {
    if es == [] then []
    else
      assert es == es[..|es| - 1] + [es[|es| - 1]];
      var e := es[|es| - 1];
      Ends(es[..|es| - 1], start, end) + [Max(start, e.offset), Min(end, e.offset + e.length)]
  }

  /** Neighbouring boundaries: none lies between them. */
  ghost predicate Neighbours(boundaries: seq<int>, a: int, b: int) {
    a < b && forall y :: y in boundaries ==> y <= a || b <= y
  }

  lemma NeighboursAt(boundaries: seq<int>, i: nat)
    requires Ascending(boundaries) && i + 1 < |boundaries|
    ensures Neighbours(boundaries, boundaries[i], boundaries[i + 1])
  {
  }

  /** Between neighbouring boundaries an entity covers everything or nothing. */
  lemma CoversAll(boundaries: seq<int>, start: int, end: int, a: int, b: int, p: int, e: Entity)
    requires Neighbours(boundaries, a, b) && start <= a <= p < b <= end
    requires Max(start, e.offset) in boundaries && Min(end, e.offset + e.length) in boundaries
    ensures Covers(e, a, b) <==> Covers(e, p, p + 1)
  {
    if Covers(e, p, p + 1) {
      assert Max(start, e.offset) <= a && b <= Min(end, e.offset + e.length);
    }
  }

  lemma {:induction false} FilterSame(es: seq<Entity>, f: Entity -> bool, g: Entity -> bool)
    requires forall e :: e in es ==> (f(e) <==> g(e))
    ensures Filter(es, f) == Filter(es, g)
  {
    if es != [] {
      assert es == es[..|es| - 1] + [es[|es| - 1]];
      FilterSame(es[..|es| - 1], f, g);
    }
  }

  /** Filtering twice is filtering by the second condition if that implies the first. */
  lemma {:induction false} FilterTwice(es: seq<Entity>, f: Entity -> bool, g: Entity -> bool)
    requires forall e :: e in es && g(e) ==> f(e)
    ensures Filter(Filter(es, f), g) == Filter(es, g)
  {
    if es != [] {
      var init, last := es[..|es| - 1], es[|es| - 1];
      assert es == init + [last];
      FilterTwice(init, f, g);
      if f(last) {
        var kept := Filter(init, f);
        assert (kept + [last])[..|kept|] == kept;
      }
    }
  }

  /** The inline entities that overlap a range. */
  function Overlapping(text: Text, entities: seq<Entity>, start: int, end: int): seq<Entity> {
    Filter(ValidArticleEntities(text, entities),
           (e: Entity) => e.kind != Blockquote && e.offset < end && e.offset + e.length > start)
  }

  function CoveringSegment(es: seq<Entity>, a: int, b: int): seq<Entity> {
    Filter(es, e => Covers(e, a, b))
  }

  /** The entities applied to a segment are those that cover each of its positions. */
  lemma SegmentEntities(text: Text, entities: seq<Entity>, start: int, end: int, boundaries: seq<int>, a: int, b: int, p: int)
    requires Neighbours(boundaries, a, b) && start <= a <= p < b <= end
    requires forall e :: e in Overlapping(text, entities, start, end) ==>
               Max(start, e.offset) in boundaries && Min(end, e.offset + e.length) in boundaries
    ensures CoveringSegment(Overlapping(text, entities, start, end), a, b) == CoveringAt(Inline(text, entities), p)
  {
    var valid, overlapping := ValidArticleEntities(text, entities), Overlapping(text, entities, start, end);
    var here := (e: Entity) => Covers(e, p, p + 1);
    var hereInline := (e: Entity) => e.kind != Blockquote && Covers(e, p, p + 1);
    forall e | e in overlapping ensures Covers(e, a, b) <==> hereInline(e) {
      CoversAll(boundaries, start, end, a, b, p, e);
    }
    FilterSame(overlapping, e => Covers(e, a, b), hereInline);
    FilterTwice(valid, (e: Entity) => e.kind != Blockquote && e.offset < end && e.offset + e.length > start, hereInline);
    FilterTwice(valid, (e: Entity) => e.kind != Blockquote, hereInline);
    FilterSame(Inline(text, entities), hereInline, here);
  }

  // --------------------------------------------------------------- conversion

  /** What a reader should see of a range of the text. */
  function CellsOf(text: Text, entities: seq<Entity>, options: Options, start: nat, end: nat): (r: seq<Cell>)
    requires start <= end <= |text|
    ensures |r| == end - start && forall i :: 0 <= i < end - start ==> r[i] == CellAt(text, entities, options, start + i)
  {
    seq(end - start, i requires 0 <= i < end - start => CellAt(text, entities, options, start + i))
  }

  lemma CellsOfAppend(text: Text, entities: seq<Entity>, options: Options, start: nat, middle: nat, end: nat)
    requires start <= middle <= end <= |text|
    ensures CellsOf(text, entities, options, start, end) ==
              CellsOf(text, entities, options, start, middle) + CellsOf(text, entities, options, middle, end)
  {
    hide CellAt;
  }

  /** A segment shows what a reader should see there. */
  lemma SegmentRenders(text: Text, entities: seq<Entity>, options: Options, start: nat, end: nat, boundaries: seq<int>, a: nat, b: nat)
    requires end <= |text| && Neighbours(boundaries, a, b) && start <= a < b <= end
    requires forall e :: e in Overlapping(text, entities, start, end) ==>
               Max(start, e.offset) in boundaries && Min(end, e.offset + e.length) in boundaries
    ensures var es := Sort(CoveringSegment(Overlapping(text, entities, start, end), a, b));
            Render(Apply(text[a..b], es, options)) == CellsOf(text, entities, options, a, b)
  {
    hide Overlapping, CoveringSegment, CoveringAt, Inline, Sort, StackOf, Neighbours, Filter;
    var es := Sort(CoveringSegment(Overlapping(text, entities, start, end), a, b));
    ApplyRenders(text[a..b], es, options);
    var rendered, wanted := Render(Apply(text[a..b], es, options)), CellsOf(text, entities, options, a, b);
    forall i | 0 <= i < b - a ensures rendered[i] == wanted[i] {
      SegmentEntities(text, entities, start, end, boundaries, a, b, a + i);
      assert wanted[i] == CellAt(text, entities, options, a + i);
    }
  }

  lemma RenderOne(rich: Rich)
    ensures RenderAll([rich]) == Render(rich)
  {
    assert RenderAll([rich]) == RenderAll([]) + Render(rich);
  }

  lemma RenderMore(texts: seq<Rich>, rich: Rich)
    ensures RenderAll(texts + [rich]) == RenderAll(texts) + Render(rich)
  {
    assert (texts + [rich])[..|texts|] == texts;
  }

  /** Wraps a slice of the text in the entities that cover it. */
  method MakeSegment(slice: Text, es: seq<Entity>, options: Options) returns (segment: Rich)
    ensures segment == Apply(slice, es, options)
  {
    hide EffectOf;
    segment := Plain(slice);
    for i := 0 to |es|
      invariant segment == Apply(slice, es[..i], options)
    {
      assert es[..i + 1][..i] == es[..i];
      segment := ApplyOne(segment, slice, es[i], options);
    }
    assert es[..|es|] == es;
  }

  /** The rich text of a range shows, at every position, exactly the text with the styles that cover it. */
  method MakeTlRichText(text: Text, entities: seq<Entity>, start: nat, end: nat, options: Options) returns (rich: Rich)
    requires start <= end <= |text|
    ensures Render(rich) == CellsOf(text, entities, options, start, end)
  {
    hide Overlapping, CoveringSegment, Sort, CellAt, RenderAll, Apply, Neighbours;
    var valid := Overlapping(text, entities, start, end);
    OverlappingOverlaps(text, entities, start, end);
    var ends := Ends(valid, start, end);
    var boundaries := Boundaries([start, end] + ends);
    RangeOf(boundaries, start, end, ends);
    var segments: seq<Rich> := [];
    EmptyRenders(text, entities, options, start);
    for index := 0 to |boundaries| - 1
      invariant RenderAll(segments) == CellsOf(text, entities, options, start, boundaries[index])
    {
      var a, b := boundaries[index], boundaries[index + 1];
      NeighboursAt(boundaries, index);
      SegmentRenders(text, entities, options, start, end, boundaries, a, b);
      var segment := MakeSegment(text[a..b], Sort(CoveringSegment(valid, a, b)), options);
      RenderMore(segments, segment);
      CellsOfAppend(text, entities, options, start, a, b);
      segments := segments + [segment];
    }
    if |segments| == 1 {
      RenderOne(segments[0]);
      assert segments == [segments[0]];
      return segments[0];
    }
    return Concat(segments);
  }

  lemma OverlappingOverlaps(text: Text, entities: seq<Entity>, start: int, end: int)
    ensures forall e :: e in Overlapping(text, entities, start, end) ==> e.offset < end && e.offset + e.length > start
  {
  }

  lemma EmptyRenders(text: Text, entities: seq<Entity>, options: Options, start: nat)
    requires start <= |text|
    ensures RenderAll([]) == CellsOf(text, entities, options, start, start)
  {
  }

  /** The boundaries of a range begin and end with it. */
  lemma RangeOf(boundaries: seq<int>, start: int, end: int, ends: seq<int>)
    requires Ascending(boundaries) && start <= end
    requires forall y :: y in boundaries <==> y in [start, end] + ends
    requires forall y :: y in ends ==> start <= y <= end
    ensures |boundaries| > 0 && boundaries[0] == start && boundaries[|boundaries| - 1] == end
    ensures forall i :: 0 <= i < |boundaries| ==> start <= boundaries[i] <= end
  {
    assert start in [start, end] + ends && end in [start, end] + ends;
    assert start in boundaries && end in boundaries;
    var i :| 0 <= i < |boundaries| && boundaries[i] == start;
    var j :| 0 <= j < |boundaries| && boundaries[j] == end;
    assert boundaries[0] in boundaries && boundaries[|boundaries| - 1] in boundaries;
  }

  /** Whatever shows a range of the text has leaves that spell it. */
  lemma ConversionKeepsText(text: Text, entities: seq<Entity>, options: Options, start: nat, end: nat, rich: Rich)
    requires start <= end <= |text| && Render(rich) == CellsOf(text, entities, options, start, end)
    ensures Leaves(rich) == text[start..end]
  {
    hide Render;
    LeavesAreRendered(rich);
    assert forall i :: 0 <= i < end - start ==> Units(Render(rich))[i] == text[start + i];
  }

  /** The styles that some entities give, in their order. */
  function StylesOf(es: seq<Entity>, options: Options): seq<Style> {
    if es == [] then []
    else
      var rest := StylesOf(es[..|es| - 1], options);
      match EffectOf(es[|es| - 1], options)
      case Nothing => rest
      case Wraps(style) => rest + [style]
      case Replaces(_) => rest
  }

  lemma StylesOfSnoc(es: seq<Entity>, e: Entity, options: Options)
    ensures StylesOf(es + [e], options) ==
              StylesOf(es, options) + if EffectOf(e, options).Wraps? then [EffectOf(e, options).style] else []
  {
    assert (es + [e])[..|es|] == es;
  }

  lemma {:induction false} StylesOfInsert(sorted: seq<Entity>, e: Entity, options: Options)
    ensures multiset(StylesOf(Insert(sorted, e), options)) == multiset(StylesOf(sorted + [e], options))
  {
    hide EffectOf, Before;
    StylesOfSnoc(sorted, e, options);
    if sorted != [] && Before(e, sorted[|sorted| - 1]) {
      var init, last := sorted[..|sorted| - 1], sorted[|sorted| - 1];
      assert sorted == init + [last];
      StylesOfInsert(init, e, options);
      StylesOfSnoc(init, e, options);
      StylesOfSnoc(init, last, options);
      StylesOfSnoc(Insert(init, e), last, options);
    }
  }

  lemma {:induction false} StylesOfSort(es: seq<Entity>, options: Options)
    ensures multiset(StylesOf(Sort(es), options)) == multiset(StylesOf(es, options))
  {
    hide EffectOf, Insert;
    if es != [] {
      var init, last := es[..|es| - 1], es[|es| - 1];
      assert es == init + [last];
      StylesOfSort(init, options);
      StylesOfInsert(Sort(init), last, options);
      StylesOfSnoc(Sort(init), last, options);
      StylesOfSnoc(init, last, options);
    }
  }

  lemma {:induction false} StackWithoutEmoji(es: seq<Entity>, options: Options)
    ensures (forall i :: 0 <= i < |es| ==> !EffectOf(es[i], options).Replaces?) ==>
              StackOf(es, options) == Stack(StylesOf(es, options), None)
    ensures StackOf(es, options).emoji.Some? <==> exists i :: 0 <= i < |es| && EffectOf(es[i], options).Replaces?
  {
    hide EffectOf;
    if es != [] {
      StackWithoutEmoji(es[..|es| - 1], options);
    }
  }

  /**
    A position shows a custom emoji exactly when a convertible one covers it; elsewhere its styles are
    exactly those of the convertible entities that cover it.
   */
  lemma StylesAreThoseCovering(text: Text, entities: seq<Entity>, options: Options, p: nat)
    requires p < |text|
    ensures var covering, cell := CoveringAt(Inline(text, entities), p), CellAt(text, entities, options, p);
            && (cell.emoji.Some? <==> exists e :: e in covering && EffectOf(e, options).Replaces?)
            && (cell.emoji.None? ==> multiset(cell.styles) == multiset(StylesOf(covering, options)))
  {
    hide EffectOf, CoveringAt, Inline, Sort, StackOf, StylesOf;
    var covering := CoveringAt(Inline(text, entities), p);
    SortSorts(covering);
    assert forall e :: e in Sort(covering) <==> e in multiset(Sort(covering));
    assert forall e :: e in covering <==> e in multiset(covering);
    StackWithoutEmoji(Sort(covering), options);
    StylesOfSort(covering, options);
    if e :| e in covering && EffectOf(e, options).Replaces? {
      assert e in Sort(covering);
      var i :| 0 <= i < |Sort(covering)| && Sort(covering)[i] == e;
    }
    if i :| 0 <= i < |Sort(covering)| && EffectOf(Sort(covering)[i], options).Replaces? {
      assert Sort(covering)[i] in covering;
    }
  }

  /** Nesting is proper: an entity that lies within another is applied first, so it ends up inside. */
  lemma ContainedIsInside(es: seq<Entity>, i: nat, j: nat)
    requires i < |Sort(es)| && j < |Sort(es)| && Sort(es)[i] != Sort(es)[j]
    requires var inner, outer := Sort(es)[i], Sort(es)[j];
             && outer.offset <= inner.offset && inner.offset + inner.length <= outer.offset + outer.length
             && (outer.offset, outer.length) != (inner.offset, inner.length)
    ensures i < j
  {
    SortSorts(es);
  }

  // ----------------------------------------------------------------- articles

  datatype Part =
    | TextPart(text: Text, entities: seq<Entity>)
    | MediaPart(mediaId: int, image: bool, animated: bool)
    | OtherPart

  datatype MediaRow = MediaRow(id: int, partIndex: int, platformMediaId: int)

  datatype Block = BlockquoteBlock(text: Rich) | ParagraphBlock(text: Rich) | PhotoBlock(photoId: int)

  datatype RichMessage = RichMessage(blocks: seq<Block>, photos: seq<int>)

  /** What a reader sees of an article: text, quoted or not, and photos. */
  datatype Mark = TextMark(cell: Cell, quoted: bool) | PhotoMark(photoId: int)

  function TextMarks(cells: seq<Cell>, quoted: bool): (r: seq<Mark>)
    ensures |r| == |cells| && forall i :: 0 <= i < |cells| ==> r[i] == TextMark(cells[i], quoted)
  {
    seq(|cells|, i requires 0 <= i < |cells| => TextMark(cells[i], quoted))
  }

  function RenderBlock(block: Block): seq<Mark> {
    match block
    case BlockquoteBlock(text) => TextMarks(Render(text), true)
    case ParagraphBlock(text) => TextMarks(Render(text), false)
    case PhotoBlock(photoId) => [PhotoMark(photoId)]
  }

  function RenderBlocks(blocks: seq<Block>): seq<Mark> {
    if blocks == [] then [] else RenderBlocks(blocks[..|blocks| - 1]) + RenderBlock(blocks[|blocks| - 1])
  }

  /** What a reader should see of a stretch of a text part. */
  function MarksOf(text: Text, entities: seq<Entity>, options: Options, start: nat, end: nat): (r: seq<Mark>)
    requires start <= end <= |text|
    ensures |r| == end - start
    ensures forall i :: 0 <= i < end - start ==>
              r[i] == TextMark(CellAt(text, entities, options, start + i), QuotedAt(text, entities, start + i))
  {
    seq(end - start, i requires 0 <= i < end - start =>
      TextMark(CellAt(text, entities, options, start + i), QuotedAt(text, entities, start + i)))
  }

  /** White space and line ends of ECMAScript. */
  predicate IsSpace(unit: CodeUnit) {
    9 <= unit <= 13 || unit == 32 || unit == 0xA0 || unit == 0x1680 || 0x2000 <= unit <= 0x200A ||
    unit == 0x2028 || unit == 0x2029 || unit == 0x202F || unit == 0x205F || unit == 0x3000 || unit == 0xFEFF
  }

  predicate Blank(text: Text) {
    forall i :: 0 <= i < |text| ==> IsSpace(text[i])
  }

  function MediaCount(parts: seq<Part>): nat {
    if parts == [] then 0 else MediaCount(parts[..|parts| - 1]) + if parts[|parts| - 1].MediaPart? then 1 else 0
  }

  /** An article has several still images and, between two of them, a text that is not blank. */
  predicate IsArticleMessage(parts: seq<Part>) {
    && MediaCount(parts) >= 2
    && (forall i :: 0 <= i < |parts| ==> !parts[i].OtherPart? && (parts[i].MediaPart? ==> parts[i].image && !parts[i].animated))
    && exists i, j, k :: 0 <= i < j < k < |parts| &&
         parts[i].MediaPart? && parts[j].TextPart? && !Blank(parts[j].text) && parts[k].MediaPart?
  }

  /** The first row of a media part. */
  function FindRow(rows: seq<MediaRow>, partIndex: int, mediaId: int): Option<MediaRow> {
    if rows == [] then None
    else if rows[0].partIndex == partIndex && rows[0].platformMediaId == mediaId then Some(rows[0])
    else FindRow(rows[1..], partIndex, mediaId)
  }

  /** What a reader should see of the first `n` parts. */
  function ArticleMarks(parts: seq<Part>, rows: seq<MediaRow>, options: Options, n: nat): seq<Mark>
    requires n <= |parts|
  {
    if n == 0 then []
    else
      var part := parts[n - 1];
      ArticleMarks(parts, rows, options, n - 1) +
      match part
      case TextPart(text, entities) => if Blank(text) then [] else MarksOf(text, entities, options, 0, |text|)
      case MediaPart(mediaId, _, _) =>
        var row := FindRow(rows, n - 1, mediaId);
        if row.Some? then [PhotoMark(row.value.id)] else []
      case OtherPart => []
  }

  predicate MissesRow(parts: seq<Part>, rows: seq<MediaRow>, n: nat)
    requires n <= |parts|
  {
    exists i :: 0 <= i < n && parts[i].MediaPart? && FindRow(rows, i, parts[i].mediaId).None?
  }

  /** Between neighbouring boundaries of the quotes, everything is quoted or nothing. */
  lemma QuotedTogether(text: Text, entities: seq<Entity>, boundaries: seq<int>, a: nat, b: nat, p: nat)
    requires Neighbours(boundaries, a, b) && a <= p < b <= |text|
    requires forall e :: e in Quotes(text, entities) ==>
               Max(0, e.offset) in boundaries && Min(|text|, e.offset + e.length) in boundaries
    ensures (exists e :: e in Quotes(text, entities) && Covers(e, a, b)) <==> QuotedAt(text, entities, p)
  {
    forall e | e in Quotes(text, entities) ensures Covers(e, a, b) <==> Covers(e, p, p + 1) {
      CoversAll(boundaries, 0, |text|, a, b, p, e);
    }
    if e :| e in entities && e.kind == Blockquote && ValidEntity(text, e) && Covers(e, p, p + 1) {
      assert e in Quotes(text, entities);
    }
  }

  lemma BlockShows(text: Text, entities: seq<Entity>, options: Options, boundaries: seq<int>, a: nat, b: nat, rich: Rich, quoted: bool)
    requires Neighbours(boundaries, a, b) && b <= |text| && Render(rich) == CellsOf(text, entities, options, a, b)
    requires forall e :: e in Quotes(text, entities) ==>
               Max(0, e.offset) in boundaries && Min(|text|, e.offset + e.length) in boundaries
    requires quoted <==> exists e :: e in Quotes(text, entities) && Covers(e, a, b)
    ensures RenderBlock(if quoted then BlockquoteBlock(rich) else ParagraphBlock(rich)) == MarksOf(text, entities, options, a, b)
  {
    hide CellAt, Quotes, Render, Neighbours, QuotedAt;
    var shown := RenderBlock(if quoted then BlockquoteBlock(rich) else ParagraphBlock(rich));
    var wanted := MarksOf(text, entities, options, a, b);
    forall i | 0 <= i < b - a ensures shown[i] == wanted[i] {
      QuotedTogether(text, entities, boundaries, a, b, a + i);
      assert Render(rich)[i] == CellAt(text, entities, options, a + i);
    }
  }

  lemma MarksOfAppend(text: Text, entities: seq<Entity>, options: Options, start: nat, middle: nat, end: nat)
    requires start <= middle <= end <= |text|
    ensures MarksOf(text, entities, options, start, end) ==
              MarksOf(text, entities, options, start, middle) + MarksOf(text, entities, options, middle, end)
  {
    hide CellAt, QuotedAt;
  }

  lemma {:induction false} RenderBlocksAppend(a: seq<Block>, b: seq<Block>)
    ensures RenderBlocks(a + b) == RenderBlocks(a) + RenderBlocks(b)
  {
    hide RenderBlock;
    if b == [] {
      assert a + b == a;
    } else {
      assert (a + b)[..|a + b| - 1] == a + b[..|b| - 1] && (a + b)[|a + b| - 1] == b[|b| - 1];
      RenderBlocksAppend(a, b[..|b| - 1]);
    }
  }

  /** The block of a stretch between neighbouring boundaries. */
  method MakeBlock(
      text: Text, entities: seq<Entity>, options: Options, quotes: seq<Entity>, ghost boundaries: seq<int>, a: nat, b: nat)
      returns (block: Block)
    requires b <= |text| && Neighbours(boundaries, a, b) && quotes == Quotes(text, entities)
    requires forall e :: e in quotes ==> Max(0, e.offset) in boundaries && Min(|text|, e.offset + e.length) in boundaries
    ensures RenderBlock(block) == MarksOf(text, entities, options, a, b) && !block.PhotoBlock?
  {
    hide CellAt, QuotedAt, Quotes, Render, RenderBlock, CellsOf, MarksOf;
    var rich := MakeTlRichText(text, entities, a, b, options);
    var quoted := exists e :: e in quotes && Covers(e, a, b);
    block := if quoted then BlockquoteBlock(rich) else ParagraphBlock(rich);
    BlockShows(text, entities, options, boundaries, a, b, rich, quoted);
  }

  /** The blocks of one text part show its text, each position quoted exactly if a valid quote covers it. */
  method MakeTextBlocks(text: Text, entities: seq<Entity>, options: Options) returns (blocks: seq<Block>)
    ensures RenderBlocks(blocks) == MarksOf(text, entities, options, 0, |text|)
    ensures forall i :: 0 <= i < |blocks| ==> !blocks[i].PhotoBlock?
  {
    hide CellAt, QuotedAt, RenderBlocks, Render, Neighbours, RenderBlock, Quotes, MarksOf;
    var quotes := Quotes(text, entities);
    QuotesOverlap(text, entities);
    var ends := Ends(quotes, 0, |text|);
    var boundaries := Boundaries([0, |text|] + ends);
    RangeOf(boundaries, 0, |text|, ends);
    blocks := [];
    NoBlocks(text, entities, options);
    for index := 0 to |boundaries| - 1
      invariant RenderBlocks(blocks) == MarksOf(text, entities, options, 0, boundaries[index])
      invariant forall i :: 0 <= i < |blocks| ==> !blocks[i].PhotoBlock?
    {
      var a, b := boundaries[index], boundaries[index + 1];
      NeighboursAt(boundaries, index);
      var block := MakeBlock(text, entities, options, quotes, boundaries, a, b);
      RenderBlocksAppend(blocks, [block]);
      OneBlock(block);
      MarksOfAppend(text, entities, options, 0, a, b);
      blocks := blocks + [block];
    }
  }

  lemma OneBlock(block: Block)
    ensures RenderBlocks([block]) == RenderBlock(block)
  {
    assert RenderBlocks([block]) == RenderBlocks([]) + RenderBlock(block);
  }

  lemma NoBlocks(text: Text, entities: seq<Entity>, options: Options)
    ensures RenderBlocks([]) == MarksOf(text, entities, options, 0, 0)
  {
  }

  lemma QuotesOverlap(text: Text, entities: seq<Entity>)
    ensures forall e :: e in Quotes(text, entities) ==> e.offset < |text| && e.offset + e.length > 0
  {
  }

  /** The photos of the media parts, in order. */
  function ArticlePhotos(parts: seq<Part>, rows: seq<MediaRow>, n: nat): seq<int>
    requires n <= |parts|
  {
    if n == 0 then []
    else
      var part := parts[n - 1];
      ArticlePhotos(parts, rows, n - 1) +
      if part.MediaPart? && FindRow(rows, n - 1, part.mediaId).Some? then [FindRow(rows, n - 1, part.mediaId).value.id] else []
  }

  /** The photos shown by blocks, in order. */
  function PhotosOf(blocks: seq<Block>): seq<int> {
    if blocks == [] then []
    else
      var last := blocks[|blocks| - 1];
      PhotosOf(blocks[..|blocks| - 1]) + if last.PhotoBlock? then [last.photoId] else []
  }

  lemma {:induction false} PhotosAppend(a: seq<Block>, b: seq<Block>)
    ensures PhotosOf(a + b) == PhotosOf(a) + PhotosOf(b)
  {
    if b == [] {
      assert a + b == a;
    } else {
      assert (a + b)[..|a + b| - 1] == a + b[..|b| - 1];
      PhotosAppend(a, b[..|b| - 1]);
    }
  }

  lemma {:induction false} NoPhotos(blocks: seq<Block>)
    requires forall i :: 0 <= i < |blocks| ==> !blocks[i].PhotoBlock?
    ensures PhotosOf(blocks) == []
  {
    if blocks != [] {
      NoPhotos(blocks[..|blocks| - 1]);
    }
  }

  lemma OneMorePhoto(blocks: seq<Block>, photoId: int)
    ensures PhotosOf(blocks + [PhotoBlock(photoId)]) == PhotosOf(blocks) + [photoId]
  {
    assert (blocks + [PhotoBlock(photoId)])[..|blocks|] == blocks;
  }

  /**
    An article shows, part by part, exactly its texts and photos, and lists each photo as often and in the
    order it is shown; it is refused when the message is none or a photo has no row.
   */
  method MakeTlArticleMedia(parts: seq<Part>, rows: seq<MediaRow>, options: Options) returns (r: Option<RichMessage>)
    ensures r.Some? <==> IsArticleMessage(parts) && !MissesRow(parts, rows, |parts|)
    ensures r.Some? ==> RenderBlocks(r.value.blocks) == ArticleMarks(parts, rows, options, |parts|)
    ensures r.Some? ==> r.value.photos == ArticlePhotos(parts, rows, |parts|) == PhotosOf(r.value.blocks)
  {
    hide RenderBlocks, MarksOf, Blank, FindRow, PhotosOf;
    if !IsArticleMessage(parts) {
      return None;
    }
    var photos, blocks := [], [];
    NoBlocks([], [], options);
    NoPhotos([]);
    for i := 0 to |parts|
      invariant RenderBlocks(blocks) == ArticleMarks(parts, rows, options, i)
      invariant !MissesRow(parts, rows, i)
      invariant photos == ArticlePhotos(parts, rows, i) == PhotosOf(blocks)
    {
      var part := parts[i];
      if part.TextPart? && !Blank(part.text) {
        var more := MakeTextBlocks(part.text, part.entities, options);
        RenderBlocksAppend(blocks, more);
        PhotosAppend(blocks, more);
        NoPhotos(more);
        blocks := blocks + more;
      } else if part.MediaPart? {
        var row := FindRow(rows, i, part.mediaId);
        if row.None? {
          return None;
        }
        photos := photos + [row.value.id];
        RenderBlocksAppend(blocks, [PhotoBlock(row.value.id)]);
        OneBlock(PhotoBlock(row.value.id));
        OneMorePhoto(blocks, row.value.id);
        blocks := blocks + [PhotoBlock(row.value.id)];
      }
    }
    return Some(RichMessage(blocks, photos));
  }

  // ------------------------------------------------------------- what is kept

  /** The leaves of the text blocks, concatenated. */
  function BlocksText(blocks: seq<Block>): Text {
    if blocks == [] then []
    else
      var last := blocks[|blocks| - 1];
      BlocksText(blocks[..|blocks| - 1]) + if last.PhotoBlock? then [] else Leaves(last.text)
  }

  function MarkUnits(marks: seq<Mark>): Text {
    if marks == [] then []
    else
      var last := marks[|marks| - 1];
      MarkUnits(marks[..|marks| - 1]) + if last.PhotoMark? then [] else [last.cell.unit]
  }

  lemma {:induction false} MarkUnitsAppend(a: seq<Mark>, b: seq<Mark>)
    ensures MarkUnits(a + b) == MarkUnits(a) + MarkUnits(b)
  {
    if b == [] {
      assert a + b == a;
    } else {
      assert (a + b)[..|a + b| - 1] == a + b[..|b| - 1];
      MarkUnitsAppend(a, b[..|b| - 1]);
    }
  }

  lemma {:induction false} MarkUnitsOf(cells: seq<Cell>, quoted: bool)
    ensures MarkUnits(TextMarks(cells, quoted)) == Units(cells)
  {
    if cells != [] {
      MarkUnitsOf(cells[..|cells| - 1], quoted);
      assert TextMarks(cells, quoted)[..|cells| - 1] == TextMarks(cells[..|cells| - 1], quoted);
    }
  }

  lemma {:induction false} BlocksTextIsRendered(blocks: seq<Block>)
    ensures MarkUnits(RenderBlocks(blocks)) == BlocksText(blocks)
  {
    if blocks != [] {
      hide Render, Leaves, MarkUnits;
      var last := blocks[|blocks| - 1];
      BlocksTextIsRendered(blocks[..|blocks| - 1]);
      MarkUnitsAppend(RenderBlocks(blocks[..|blocks| - 1]), RenderBlock(last));
      if last.PhotoBlock? {
        PhotoHasNoUnits(last.photoId);
      } else {
        MarkUnitsOf(Render(last.text), last.BlockquoteBlock?);
        LeavesAreRendered(last.text);
      }
    } else {
      NoMarksNoUnits();
    }
  }

  lemma NoMarksNoUnits()
    ensures MarkUnits([]) == []
  {
  }

  lemma PhotoHasNoUnits(photoId: int)
    ensures MarkUnits([PhotoMark(photoId)]) == []
  {
  }

  lemma {:induction false} MarksSpell(text: Text, entities: seq<Entity>, options: Options, n: nat)
    requires n <= |text|
    ensures MarkUnits(MarksOf(text, entities, options, 0, n)) == text[..n]
  {
    hide CellAt, QuotedAt;
    if n > 0 {
      MarksSpell(text, entities, options, n - 1);
      assert MarksOf(text, entities, options, 0, n)[..n - 1] == MarksOf(text, entities, options, 0, n - 1);
      CellUnit(text, entities, options, n - 1);
    }
  }

  lemma CellUnit(text: Text, entities: seq<Entity>, options: Options, p: nat)
    requires p < |text|
    ensures CellAt(text, entities, options, p).unit == text[p]
  {
  }

  /** The texts of an article that are not blank, concatenated. */
  function ArticleText(parts: seq<Part>, n: nat): Text
    requires n <= |parts|
  {
    if n == 0 then []
    else
      var part := parts[n - 1];
      ArticleText(parts, n - 1) + if part.TextPart? && !Blank(part.text) then part.text else []
  }

  lemma {:induction false} ArticleMarksSpell(parts: seq<Part>, rows: seq<MediaRow>, options: Options, n: nat)
    requires n <= |parts|
    ensures MarkUnits(ArticleMarks(parts, rows, options, n)) == ArticleText(parts, n)
  {
    hide MarksOf, Blank, FindRow, MarkUnits;
    NoMarksNoUnits();
    if n > 0 {
      ArticleMarksSpell(parts, rows, options, n - 1);
      var part := parts[n - 1];
      MarkUnitsAppend(ArticleMarks(parts, rows, options, n - 1), []);
      assert ArticleMarks(parts, rows, options, n - 1) + [] == ArticleMarks(parts, rows, options, n - 1);
      if part.TextPart? {
        MarksSpell(part.text, part.entities, options, |part.text|);
        MarkUnitsAppend(
          ArticleMarks(parts, rows, options, n - 1), MarksOf(part.text, part.entities, options, 0, |part.text|));
      } else if part.MediaPart? && FindRow(rows, n - 1, part.mediaId).Some? {
        PhotoHasNoUnits(FindRow(rows, n - 1, part.mediaId).value.id);
        MarkUnitsAppend(
          ArticleMarks(parts, rows, options, n - 1), [PhotoMark(FindRow(rows, n - 1, part.mediaId).value.id)]);
      }
    }
  }

  /** The leaves across the blocks of an article spell its texts, without the blank ones. */
  lemma ArticleKeepsText(parts: seq<Part>, rows: seq<MediaRow>, options: Options, blocks: seq<Block>)
    requires RenderBlocks(blocks) == ArticleMarks(parts, rows, options, |parts|)
    ensures BlocksText(blocks) == ArticleText(parts, |parts|)
  {
    BlocksTextIsRendered(blocks);
    ArticleMarksSpell(parts, rows, options, |parts|);
  }
}
