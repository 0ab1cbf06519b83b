/**
  What the filters of shared media find: each filter of the client is a mask of kinds, and the search under
  that mask gives exactly the parts the filter is for, read off the messages themselves.
 */
module SharedMedia {
  import opened SearchMasks

  datatype Filter =
    | Unfiltered | Photos | Videos | PhotosAndVideos | Documents | Links | Gifs | VoiceMessages | RoundVideos | Music
    | MyMentions | PhoneCalls | Unsupported

  function FilterSearchKinds(filter: Filter): Option<bv16> {
    match filter
    case Unfiltered => Some(0)
    case Photos => Some(PHOTO)
    case Videos => Some(VIDEO)
    case PhotosAndVideos => Some(PHOTO | VIDEO)
    case Documents => Some(DOCUMENT)
    case Links => Some(URL)
    case Gifs => Some(GIF)
    case VoiceMessages => Some(VOICE)
    case RoundVideos => Some(VOICE)
    case Music => Some(MUSIC)
    case MyMentions => Some(MENTION)
    case PhoneCalls => Some(PHONE_CALL)
    case Unsupported => None
  }

  // ------------------------------------------------------ what filters are for

  /** The media of a part. */
  function MediaOf(row: Row, part: TlPart): Option<Media> {
    if part.media.Some? && part.media.value < |row.message.parts| && row.message.parts[part.media.value].MediaPart?
    then Some(row.message.parts[part.media.value].media) else None
  }

  predicate IsGif(m: Media) {
    m.mimeType == Some("image/gif") || m.mimeType == Some("image/apng")
  }

  predicate IsPhoto(m: Media) {
    m.image && !IsGif(m)
  }

  predicate IsVoice(m: Media) {
    !m.image && m.voice && !IsGif(m)
  }

  predicate IsVideo(m: Media) {
    !m.image && !m.voice && m.mimeType.Some? && "video/" <= m.mimeType.value
  }

  predicate IsMusic(m: Media) {
    !m.image && !m.voice && m.mimeType.Some? && "audio/" <= m.mimeType.value
  }

  predicate IsDocument(m: Media) {
    !IsPhoto(m) && !IsGif(m) && !IsVoice(m) && !IsVideo(m) && !IsMusic(m)
  }

  /** The part is one of those the filter is for; links, mentions and calls are shown with the first part. */
  predicate Shows(filter: Filter, row: Row, part: TlPart) {
    var media, message := MediaOf(row, part), row.message;
    match filter
    case Unfiltered => part.ordinal == 0 && message.service.None?
    case Photos => media.Some? && IsPhoto(media.value)
    case Videos => media.Some? && IsVideo(media.value)
    case PhotosAndVideos => media.Some? && (IsPhoto(media.value) || IsVideo(media.value))
    case Documents => media.Some? && IsDocument(media.value)
    case Links =>
      part.ordinal == 0 && message.service.None? &&
      exists i :: 0 <= i < |message.parts| && !message.parts[i].MediaPart? && message.parts[i].link
    case Gifs => media.Some? && IsGif(media.value)
    case VoiceMessages => media.Some? && IsVoice(media.value)
    case RoundVideos => media.Some? && IsVoice(media.value)
    case Music => media.Some? && IsMusic(media.value)
    case MyMentions =>
      part.ordinal == 0 && message.service.None? && message.group && !message.outgoing &&
      (message.repliesToSelf ||
       exists i :: 0 <= i < |message.parts| && message.parts[i].TextPart? && message.parts[i].mentionsSelf)
    case PhoneCalls => part.ordinal == 0 && message.service == Some(true)
    case Unsupported => false
  }

  // ------------------------------------------------------------------- members

  lemma {:induction false} TrimMembers(rows: seq<IndexRow>, mask: bv16, x: IndexRow)
    ensures x in Trim(rows, mask) <==> x in rows && Trimmed(x, mask)
  {
    hide Trimmed;
    if rows != [] {
      TrimMembers(rows[1..], mask, x);
      assert rows == [rows[0]] + rows[1..];
    }
  }

  lemma SortMembers(rows: seq<IndexRow>, x: IndexRow)
    ensures x in Sort(rows) <==> x in rows
  {
    SortSorts(rows);
    assert x in Sort(rows) <==> x in multiset(Sort(rows));
    assert x in rows <==> x in multiset(rows);
  }

  predicate IsRowOf(x: IndexRow, row: Row, part: TlPart) {
    part in row.parts && x == PartRow(row, part)
  }

  lemma {:induction false} ScannedMembers(table: seq<Row>, mask: bv16, x: IndexRow)
    ensures x in Scanned(table, mask) <==>
              exists row, part :: row in table && Selected(row, mask) && IsRowOf(x, row, part)
  {
    hide Selected, PartRow;
    if table != [] {
      ScannedMembers(table[1..], mask, x);
      assert table == [table[0]] + table[1..];
      if Selected(table[0], mask) {
        RowsOfMembers(table[0], x);
      }
    }
  }

  lemma RowsOfMembers(row: Row, x: IndexRow)
    ensures x in RowsOf(row, row.parts) <==> exists part :: IsRowOf(x, row, part)
  {
    if part :| IsRowOf(x, row, part) {
      var i :| 0 <= i < |row.parts| && row.parts[i] == part;
      assert RowsOf(row, row.parts)[i] == x;
    }
    if i :| 0 <= i < |RowsOf(row, row.parts)| && RowsOf(row, row.parts)[i] == x {
      assert IsRowOf(x, row, row.parts[i]);
    }
  }

  // ------------------------------------------------------------------ the masks

  lemma MediaBits(m: Media)
    ensures var kind := MediaSearchKind(m);
            && (Meets(PHOTO, kind) <==> IsPhoto(m)) && (Meets(VIDEO, kind) <==> IsVideo(m))
            && (Meets(PHOTO | VIDEO, kind) <==> IsPhoto(m) || IsVideo(m))
            && (Meets(DOCUMENT, kind) <==> IsDocument(m)) && (Meets(GIF, kind) <==> IsGif(m))
            && (Meets(VOICE, kind) <==> IsVoice(m)) && (Meets(MUSIC, kind) <==> IsMusic(m))
            && !Meets(URL, kind) && !Meets(MENTION, kind) && !Meets(PHONE_CALL, kind)
  {
    if m.mimeType.Some? && "video/" <= m.mimeType.value {
      VideoIsNoAudio(m.mimeType.value);
    }
  }

  lemma VideoIsNoAudio(mimeType: string)
    requires "video/" <= mimeType
    ensures !("audio/" <= mimeType)
  {
    assert mimeType[0] == "video/"[0] != "audio/"[0];
  }

  /** Which message-level kinds a message has. */
  lemma LevelBits(message: Message)
    ensures var kinds := MessageKinds(message);
            && (Meets(URL & kinds, MESSAGE_LEVEL) <==> message.service.None? && HasLink(message))
            && (Meets(MENTION & kinds, MESSAGE_LEVEL) <==> message.service.None? && Mentions(message))
            && (Meets(PHONE_CALL & kinds, MESSAGE_LEVEL) <==> message.service == Some(true))
  {
    hide HasLink, Mentions, MediaKinds;
    MediaKindsAreMedia(message.parts);
  }

  lemma NoLevelBits(kinds: bv16)
    ensures !Meets(PHOTO & kinds, MESSAGE_LEVEL) && !Meets(VIDEO & kinds, MESSAGE_LEVEL)
    ensures !Meets((PHOTO | VIDEO) & kinds, MESSAGE_LEVEL) && !Meets(DOCUMENT & kinds, MESSAGE_LEVEL)
    ensures !Meets(GIF & kinds, MESSAGE_LEVEL) && !Meets(VOICE & kinds, MESSAGE_LEVEL) && !Meets(MUSIC & kinds, MESSAGE_LEVEL)
  {
  }

  lemma NothingMeets(mask: bv16)
    ensures !Meets(mask, 0)
  {
  }

  /** A part matches the mask of a filter exactly if it is one the filter is for. */
  lemma MatchIsShown(filter: Filter, row: Row, part: TlPart)
    requires FilterSearchKinds(filter).Some? && !filter.Unfiltered?
    ensures PartKindsMatchSearchKinds(PartRow(row, part), FilterSearchKinds(filter).value) <==> Shows(filter, row, part)
  {
    var mask, kind, kinds := FilterSearchKinds(filter).value, PartKind(row, part), MessageKinds(row.message);
    MatchIsMeeting(kinds, kind, part.ordinal == 0, mask);
    LevelBits(row.message);
    NoLevelBits(kinds);
    var media := MediaOf(row, part);
    if media.Some? {
      MediaBits(media.value);
    } else {
      NothingMeets(mask);
    }
    hide Meets, MessageKinds, MediaSearchKind, KindsMatch, IsPhoto, IsGif, IsVoice, IsVideo, IsMusic, IsDocument;
    hide HasLink, Mentions;
    LinksAndMentions(filter, row, part);
  }

  lemma MatchIsMeeting(kinds: bv16, kind: bv16, first: bool, mask: bv16)
    ensures KindsMatch(kinds, kind, first, mask) <==> Meets(mask, kind) || (first && Meets(mask & kinds, MESSAGE_LEVEL))
  {
    assert Meets(mask, kind) <==> mask & kind != 0;
    assert Meets(mask & kinds, MESSAGE_LEVEL) <==> mask & kinds & MESSAGE_LEVEL != 0;
    hide Meets;
  }

  lemma LinksAndMentions(filter: Filter, row: Row, part: TlPart)
    ensures filter.Links? ==>
              (Shows(filter, row, part) <==> part.ordinal == 0 && row.message.service.None? && HasLink(row.message))
    ensures filter.MyMentions? ==>
              (Shows(filter, row, part) <==> part.ordinal == 0 && row.message.service.None? && Mentions(row.message))
  {
  }

  /** The first part of a message is in the search without kinds exactly if the message is no service message. */
  lemma UnfilteredShown(row: Row, part: TlPart)
    ensures KindsSelected(MessageKinds(row.message), 0) <==> row.message.service.None?
  {
    if row.message.service.None? {
      ContentKinds(row.message);
    }
  }

  /** A part is found under the mask of a filter exactly if it is visible, indexed and one the filter is for. */
  lemma FoundIsShown(filter: Filter, row: Row, i: nat)
    requires WellFormed(row) && i < |row.parts| && FilterSearchKinds(filter).Some?
    ensures var mask := FilterSearchKinds(filter).value;
            Selected(row, mask) && Trimmed(PartRow(row, row.parts[i]), mask) <==>
            row.visible && row.indexed && Shows(filter, row, row.parts[i])
  {
    var mask, part := FilterSearchKinds(filter).value, row.parts[i];
    if filter.Unfiltered? {
      UnfilteredShown(row, part);
      hide KindsSelected, MessageKinds;
    } else {
      MatchIsShown(filter, row, part);
      if row.visible && row.indexed && PartKindsMatchSearchKinds(PartRow(row, part), mask) {
        SelfContains(mask);
        MatchIsSelected(row, i, mask, mask);
      }
      hide Shows, PartKindsMatchSearchKinds, KindsSelected, MessageKinds;
    }
  }

  /** The part of the message is found by the filter, as this hit. */
  predicate IsShownAs(filter: Filter, row: Row, part: TlPart, hit: Hit) {
    && part in row.parts && row.visible && row.indexed && Shows(filter, row, part)
    && hit == Hit(part.tlMessageId, row.timestamp, row.id)
  }

  /**
    The search under the mask of a filter gives exactly the parts that are visible, indexed and for the filter,
    in descending order of their Telegram IDs.
   */
  lemma FilterFindsItsParts(table: seq<Row>, filter: Filter, hit: Hit)
    requires FilterSearchKinds(filter).Some? && forall row :: row in table ==> WellFormed(row)
    ensures hit in SearchPartIndex(table, FilterSearchKinds(filter).value) <==>
              exists row, part :: row in table && IsShownAs(filter, row, part, hit)
  {
    var mask := FilterSearchKinds(filter).value;
    var rows := Answer(table, mask, mask);
    hide FilterSearchKinds, Selected, Trimmed, WellFormed, Shows;
    if hit in SearchPartIndex(table, mask) {
      var i :| 0 <= i < |rows| && Hits(rows)[i] == hit;
      var row, part := WhereFound(table, filter, rows[i]);
      assert IsShownAs(filter, row, part, hit);
    }
    if row, part :| row in table && IsShownAs(filter, row, part, hit) {
      ShownIsFound(table, filter, row, part, hit);
    }
  }

  lemma ShownIsFound(table: seq<Row>, filter: Filter, row: Row, part: TlPart, hit: Hit)
    requires FilterSearchKinds(filter).Some? && row in table && WellFormed(row) && IsShownAs(filter, row, part, hit)
    ensures hit in SearchPartIndex(table, FilterSearchKinds(filter).value)
  {
    var mask := FilterSearchKinds(filter).value;
    var rows := Answer(table, mask, mask);
    hide FilterSearchKinds, Selected, Trimmed, WellFormed, Shows, Answer;
    var k :| 0 <= k < |row.parts| && row.parts[k] == part;
    FoundIsShown(filter, row, k);
    IsFound(table, mask, row, part);
    var i :| 0 <= i < |rows| && rows[i] == PartRow(row, part);
    assert Hits(rows)[i] == hit;
  }

  lemma WhereFound(table: seq<Row>, filter: Filter, x: IndexRow) returns (row: Row, part: TlPart)
    requires FilterSearchKinds(filter).Some? && forall row :: row in table ==> WellFormed(row)
    requires var mask := FilterSearchKinds(filter).value; x in Answer(table, mask, mask)
    ensures row in table && part in row.parts && x == PartRow(row, part)
    ensures row.visible && row.indexed && Shows(filter, row, part)
  {
    var mask := FilterSearchKinds(filter).value;
    hide FilterSearchKinds, Selected, Trimmed, WellFormed, Shows;
    TrimMembers(Scan(table, mask), mask, x);
    SortMembers(Scanned(table, mask), x);
    ScannedMembers(table, mask, x);
    row, part :| row in table && Selected(row, mask) && IsRowOf(x, row, part);
    var k :| 0 <= k < |row.parts| && row.parts[k] == part;
    FoundIsShown(filter, row, k);
  }

  lemma IsFound(table: seq<Row>, mask: bv16, row: Row, part: TlPart)
    requires row in table && part in row.parts && Selected(row, mask) && Trimmed(PartRow(row, part), mask)
    ensures PartRow(row, part) in Answer(table, mask, mask)
  {
    var x := PartRow(row, part);
    hide Selected, Trimmed;
    TrimMembers(Scan(table, mask), mask, x);
    SortMembers(Scanned(table, mask), x);
    ScannedMembers(table, mask, x);
    assert IsRowOf(x, row, part);
  }

  /** The hits come in descending order of their Telegram IDs. */
  lemma HitsDescend(table: seq<Row>, mask: bv16)
    ensures var hits := SearchPartIndex(table, mask);
            forall i, j :: 0 <= i < j < |hits| ==> hits[i].tlMessageId >= hits[j].tlMessageId
  {
    SortSorts(Scanned(table, mask));
    TrimDescends(Scan(table, mask), mask);
  }

  lemma {:induction false} TrimDescends(rows: seq<IndexRow>, mask: bv16)
    requires Descending(rows)
    ensures Descending(Trim(rows, mask))
  {
    hide Trimmed;
    if rows != [] {
      TrimDescends(rows[1..], mask);
      TrimIsBelow(rows[1..], mask);
      if Trimmed(rows[0], mask) {
        DescendingCons(rows[0], Trim(rows[1..], mask));
      }
    }
  }
}
