/**
  What each kind of entity looks like: which styles and custom emoji a reader sees at a position of a text,
  read off the entities themselves; and which messages are articles, with which photos.
 */
module RichTextKinds {
  import opened RichText

  /** A valid entity of this kind covers the position. */
  predicate Shown(text: Text, entities: seq<Entity>, p: int, kind: Kind) {
    exists e :: e in entities && e.kind == kind && 0 <= e.offset <= p < e.offset + e.length <= |text|
  }

  /** The position is covered by a custom emoji that the options turn into a document. */
  ghost predicate ShownAsEmoji(text: Text, entities: seq<Entity>, options: Options, p: int, documentId: int) {
    exists definition: int ::
      Shown(text, entities, p, CustomEmoji(definition, true)) &&
      options.customEmojiId.Some? && options.customEmojiId.value(definition) == Some(documentId)
  }

  ghost predicate ShownAsLink(text: Text, entities: seq<Entity>, options: Options, p: int, url: string) {
    || Shown(text, entities, p, TextLink(url))
    || (url != "" && options.conversationLink.Some? &&
        exists conversation: int ::
          Shown(text, entities, p, ConversationLink(conversation)) && options.conversationLink.value(conversation) == Some(url))
  }

  ghost predicate ShownAsMention(text: Text, entities: seq<Entity>, options: Options, p: int, user: int) {
    options.userId.Some? &&
    exists userId: string :: Shown(text, entities, p, Mention(userId)) && options.userId.value(userId) == user
  }

  /** What the style stands for at the position. */
  ghost predicate ShownAs(text: Text, entities: seq<Entity>, options: Options, p: int, style: Style) {
    match style
    case BoldStyle => Shown(text, entities, p, Bold)
    case ItalicStyle => Shown(text, entities, p, Italic)
    case UnderlineStyle => Shown(text, entities, p, Underline)
    case StrikeStyle => Shown(text, entities, p, Strikethrough)
    case FixedStyle => Shown(text, entities, p, Code) || Shown(text, entities, p, Pre)
    case UrlStyle(url) => ShownAsLink(text, entities, options, p, url)
    case MentionStyle(user) => ShownAsMention(text, entities, options, p, user)
  }

  lemma {:induction false} StyleComesFrom(es: seq<Entity>, options: Options, style: Style)
    ensures style in StylesOf(es, options) <==> exists e :: e in es && EffectOf(e, options) == Wraps(style)
  {
    hide EffectOf;
    if es != [] {
      var init, last := es[..|es| - 1], es[|es| - 1];
      assert es == init + [last];
      StyleComesFrom(init, options, style);
    }
  }

  /** The entities that cover a position, quotes apart. */
  lemma CoveringIs(text: Text, entities: seq<Entity>, p: int, e: Entity)
    ensures e in CoveringAt(Inline(text, entities), p) <==>
              e in entities && e.kind != Blockquote && 0 <= e.offset <= p < e.offset + e.length <= |text|
  {
  }

  lemma ShownIsCovering(text: Text, entities: seq<Entity>, p: int, kind: Kind)
    requires kind != Blockquote
    ensures Shown(text, entities, p, kind) <==> exists e :: e in CoveringAt(Inline(text, entities), p) && e.kind == kind
  {
    hide CoveringAt, Inline;
    if Shown(text, entities, p, kind) {
      var e :| e in entities && e.kind == kind && 0 <= e.offset <= p < e.offset + e.length <= |text|;
      CoveringIs(text, entities, p, e);
    }
    if e :| e in CoveringAt(Inline(text, entities), p) && e.kind == kind {
      CoveringIs(text, entities, p, e);
    }
  }

  lemma WrapsAs(text: Text, entities: seq<Entity>, options: Options, p: int, style: Style)
    ensures (exists e :: e in CoveringAt(Inline(text, entities), p) && EffectOf(e, options) == Wraps(style)) <==>
            ShownAs(text, entities, options, p, style)
  {
    hide CoveringAt, Inline, Shown;
    var covering := CoveringAt(Inline(text, entities), p);
    forall kind | kind != Blockquote
      ensures Shown(text, entities, p, kind) <==> exists e :: e in covering && e.kind == kind
    {
      ShownIsCovering(text, entities, p, kind);
    }
    forall e | e in covering ensures e.kind != Blockquote {
      CoveringIs(text, entities, p, e);
    }
  }

  lemma ReplacesAs(text: Text, entities: seq<Entity>, options: Options, p: int)
    ensures (exists e :: e in CoveringAt(Inline(text, entities), p) && EffectOf(e, options).Replaces?) <==>
            exists documentId: int :: ShownAsEmoji(text, entities, options, p, documentId)
  {
    hide CoveringAt, Inline, Shown;
    var covering := CoveringAt(Inline(text, entities), p);
    if e :| e in covering && EffectOf(e, options).Replaces? {
      ShownIsCovering(text, entities, p, e.kind);
      assert ShownAsEmoji(text, entities, options, p, EffectOf(e, options).documentId);
    }
    if documentId: int :| ShownAsEmoji(text, entities, options, p, documentId) {
      var definition: int :| Shown(text, entities, p, CustomEmoji(definition, true)) &&
        options.customEmojiId.Some? && options.customEmojiId.value(definition) == Some(documentId);
      ShownIsCovering(text, entities, p, CustomEmoji(definition, true));
    }
  }

  /** The custom emoji shown is one that covers the position. */
  lemma {:induction false} EmojiComesFrom(es: seq<Entity>, options: Options)
    ensures var emoji := StackOf(es, options).emoji;
            emoji.Some? ==> exists e :: e in es && EffectOf(e, options) == Replaces(emoji.value)
  {
    hide EffectOf;
    if es != [] {
      var init, last := es[..|es| - 1], es[|es| - 1];
      assert es == init + [last];
      EmojiComesFrom(init, options);
    }
  }

  /**
    What a reader sees at a position: a custom emoji exactly if one covers it that the options know, and then one
    of those; else each style exactly if an entity of its kind covers it, a link or mention as the options say.
   */
  lemma EachKindLooksSo(text: Text, entities: seq<Entity>, options: Options, p: nat, style: Style)
    requires p < |text|
    ensures var cell := CellAt(text, entities, options, p);
            && cell.unit == text[p]
            && (cell.emoji.Some? <==> exists documentId: int :: ShownAsEmoji(text, entities, options, p, documentId))
            && (cell.emoji.Some? ==> ShownAsEmoji(text, entities, options, p, cell.emoji.value))
            && (cell.emoji.None? ==> (style in cell.styles <==> ShownAs(text, entities, options, p, style)))
  {
    var covering, cell := CoveringAt(Inline(text, entities), p), CellAt(text, entities, options, p);
    StylesAreThoseCovering(text, entities, options, p);
    ReplacesAs(text, entities, options, p);
    if cell.emoji.Some? {
      ShownEmoji(text, entities, options, p, cell.emoji.value);
    } else {
      StyleComesFrom(covering, options, style);
      WrapsAs(text, entities, options, p, style);
      SameMembers(cell.styles, StylesOf(covering, options), style);
    }
    hide EffectOf, CoveringAt, Inline, Shown, ShownAs, ShownAsEmoji, StackOf, StylesOf, Sort;
  }

  lemma SameMembers(a: seq<Style>, b: seq<Style>, style: Style)
    requires multiset(a) == multiset(b)
    ensures style in a <==> style in b
  {
    assert style in a <==> style in multiset(a);
    assert style in b <==> style in multiset(b);
  }

  lemma ShownEmoji(text: Text, entities: seq<Entity>, options: Options, p: nat, documentId: int)
    requires p < |text| && CellAt(text, entities, options, p).emoji == Some(documentId)
    ensures ShownAsEmoji(text, entities, options, p, documentId)
  {
    hide CoveringAt, Inline, Shown, Sort, StackOf;
    var covering := CoveringAt(Inline(text, entities), p);
    EmojiComesFrom(Sort(covering), options);
    SortSorts(covering);
    var e :| e in Sort(covering) && EffectOf(e, options) == Replaces(documentId);
    assert e in covering by {
      assert e in multiset(Sort(covering));
      assert e in multiset(covering);
    }
    ShownIsCovering(text, entities, p, e.kind);
  }

  // ------------------------------------------------------------------- articles

  predicate HasTextBetweenImages(parts: seq<Part>) {
    exists i, j, k ::
      0 <= i < j < k < |parts| && parts[i].MediaPart? && parts[j].TextPart? && !Blank(parts[j].text) && parts[k].MediaPart?
  }

  /** A message is an article exactly if it has only texts and still images, and a text that is not blank between two images. */
  lemma ArticleIs(parts: seq<Part>)
    ensures IsArticleMessage(parts) <==>
              && (forall i :: 0 <= i < |parts| ==> parts[i].TextPart? || (parts[i].MediaPart? && parts[i].image && !parts[i].animated))
              && HasTextBetweenImages(parts)
  {
    hide Blank, MediaCount;
    if HasTextBetweenImages(parts) {
      var i, j, k :| 0 <= i < j < k < |parts| &&
        parts[i].MediaPart? && parts[j].TextPart? && !Blank(parts[j].text) && parts[k].MediaPart?;
      TwoAreTwo(parts, i, k);
    }
  }

  lemma {:induction false} OneIsOne(parts: seq<Part>, i: nat)
    requires i < |parts| && parts[i].MediaPart?
    ensures MediaCount(parts) >= 1
  {
    if i < |parts| - 1 {
      OneIsOne(parts[..|parts| - 1], i);
    }
  }

  lemma {:induction false} TwoAreTwo(parts: seq<Part>, i: nat, k: nat)
    requires i < k < |parts| && parts[i].MediaPart? && parts[k].MediaPart?
    ensures MediaCount(parts) >= 2
  {
    if k < |parts| - 1 {
      TwoAreTwo(parts[..|parts| - 1], i, k);
    } else {
      OneIsOne(parts[..|parts| - 1], i);
    }
  }

  predicate IsRow(row: MediaRow, partIndex: int, mediaId: int) {
    row.partIndex == partIndex && row.platformMediaId == mediaId
  }

  predicate IsFirstRow(rows: seq<MediaRow>, n: nat, partIndex: int, mediaId: int) {
    && n < |rows| && IsRow(rows[n], partIndex, mediaId)
    && forall m :: 0 <= m < n ==> !IsRow(rows[m], partIndex, mediaId)
  }

  /** The row of a media part is the first with its index and its media. */
  lemma {:induction false} RowIs(rows: seq<MediaRow>, partIndex: int, mediaId: int)
    ensures var row := FindRow(rows, partIndex, mediaId);
            && (row.None? <==> forall i :: 0 <= i < |rows| ==> !IsRow(rows[i], partIndex, mediaId))
            && (row.Some? ==> exists n: nat :: IsFirstRow(rows, n, partIndex, mediaId) && rows[n] == row.value)
  {
    if rows != [] {
      RowIs(rows[1..], partIndex, mediaId);
      if IsRow(rows[0], partIndex, mediaId) {
        assert IsFirstRow(rows, 0, partIndex, mediaId);
      } else if FindRow(rows, partIndex, mediaId).Some? {
        var n: nat :| IsFirstRow(rows[1..], n, partIndex, mediaId) && rows[1..][n] == FindRow(rows, partIndex, mediaId).value;
        LaterRow(rows, n, partIndex, mediaId);
      }
    }
  }

  lemma LaterRow(rows: seq<MediaRow>, n: nat, partIndex: int, mediaId: int)
    requires rows != [] && !IsRow(rows[0], partIndex, mediaId) && IsFirstRow(rows[1..], n, partIndex, mediaId)
    ensures IsFirstRow(rows, n + 1, partIndex, mediaId) && rows[n + 1] == rows[1..][n]
  {
    forall m | 0 <= m < n + 1 ensures !IsRow(rows[m], partIndex, mediaId) {
      if m > 0 {
        assert rows[m] == rows[1..][m - 1];
      }
    }
  }
}
