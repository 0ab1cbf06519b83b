/**
  Shared-media search: every message has a bit mask of the kinds it contains, scans push a mask of
  wanted kinds down to the database, and one scan under the union of several masks is trimmed per
  mask in memory. The theorems say that trimming gives each mask the result of its own scan, and
  exactly when a cached scan may be reused.
 */
module SearchMasks {

  datatype Option<T> = None | Some(value: T)

  const PHOTO: bv16 := 1
  const VIDEO: bv16 := 2
  const DOCUMENT: bv16 := 4
  const URL: bv16 := 8
  const GIF: bv16 := 16
  const VOICE: bv16 := 32
  const MUSIC: bv16 := 64
  const SERVICE: bv16 := 128
  const MENTION: bv16 := 256
  const PHONE_CALL: bv16 := 512

  /** Kinds decided for the message as a whole; they count on its first part only. */
  const MESSAGE_LEVEL: bv16 := URL | MENTION | PHONE_CALL

  // ------------------------------------------------------------------ writing

  datatype Media = Media(image: bool, mimeType: Option<string>, voice: bool)

  /** A content part; whether it holds a link or mentions the user is decided elsewhere. */
  datatype ContentPart =
    | TextPart(link: bool, mentionsSelf: bool)
    | CardPart(link: bool)
    | MediaPart(media: Media)

  /** A message; a service message is a phone call or not. `group` says that it is not in a direct chat. */
  datatype Message = Message(
    service: Option<bool>, parts: seq<ContentPart>, outgoing: bool, group: bool, repliesToSelf: bool)

  predicate IsAnimated(mimeType: Option<string>) {
    mimeType == Some("image/gif") || mimeType == Some("image/apng")
  }

  function MediaSearchKind(media: Media): bv16 {
    if media.image then if IsAnimated(media.mimeType) then GIF else PHOTO
    else if IsAnimated(media.mimeType) then GIF
    else if media.voice then VOICE
    else if media.mimeType.Some? && "video/" <= media.mimeType.value then VIDEO
    else if media.mimeType.Some? && "audio/" <= media.mimeType.value then MUSIC
    else DOCUMENT
  }

  function Join(a: bv16, b: bv16): bv16 {
    a | b
  }

  /** The kinds of the media of some content parts. */
  function MediaKinds(parts: seq<ContentPart>): bv16 {
    if parts == [] then 0
    else
      var last := parts[|parts| - 1];
      if last.MediaPart? then Join(MediaKinds(parts[..|parts| - 1]), MediaSearchKind(last.media))
      else MediaKinds(parts[..|parts| - 1])
  }

  predicate HasLink(message: Message) {
    exists i :: 0 <= i < |message.parts| && !message.parts[i].MediaPart? && message.parts[i].link
  }

  predicate Mentions(message: Message) {
    && message.group && !message.outgoing
    && (message.repliesToSelf ||
        exists i :: 0 <= i < |message.parts| && message.parts[i].TextPart? && message.parts[i].mentionsSelf)
  }

  function ServiceKinds(call: bool): bv16 {
    if call then SERVICE | PHONE_CALL else SERVICE
  }

  function MessageKinds(message: Message): bv16 {
    if message.service.Some? then ServiceKinds(message.service.value)
    else
      var link := if HasLink(message) then URL else 0;
      Join(if Mentions(message) then Join(link, MENTION) else link, MediaKinds(message.parts))
  }

  lemma OneMore(level: bv16, parts: seq<ContentPart>, i: nat)
    requires i < |parts|
    ensures Join(level, MediaKinds(parts[..i + 1])) ==
              if parts[i].MediaPart? then Join(Join(level, MediaKinds(parts[..i])), MediaSearchKind(parts[i].media))
              else Join(level, MediaKinds(parts[..i]))
  {
    hide MediaSearchKind;
    assert parts[..i + 1][..i] == parts[..i] && parts[..i + 1][i] == parts[i];
  }

  lemma AllOfThem(level: bv16, parts: seq<ContentPart>)
    ensures Join(level, MediaKinds(parts[..0])) == level && MediaKinds(parts[..|parts|]) == MediaKinds(parts)
  {
    assert parts[..|parts|] == parts;
  }

  /** The mask written with a message. */
  method MessageSearchKinds(message: Message) returns (kinds: bv16)
    ensures kinds == MessageKinds(message)
  {
    hide Join, MediaKinds, MediaSearchKind, HasLink, Mentions;
    if message.service.Some? {
      return ServiceKinds(message.service.value);
    }
    kinds := if HasLink(message) then URL else 0;
    if Mentions(message) {
      kinds := Join(kinds, MENTION);
    }
    ghost var level := kinds;
    AllOfThem(level, message.parts);
    for i := 0 to |message.parts|
      invariant kinds == Join(level, MediaKinds(message.parts[..i]))
    {
      OneMore(level, message.parts, i);
      if message.parts[i].MediaPart? {
        kinds := Join(kinds, MediaSearchKind(message.parts[i].media));
      }
    }
  }

  /** What media contribute never looks like a message-level kind or a service message. */
  lemma {:induction false} MediaKindsAreMedia(parts: seq<ContentPart>)
    ensures MediaKinds(parts) & (SERVICE | MESSAGE_LEVEL) == 0
  {
    if parts != [] {
      MediaKindsAreMedia(parts[..|parts| - 1]);
    }
  }

  lemma {:induction false} MediaKindsCover(parts: seq<ContentPart>, i: nat)
    requires i < |parts| && parts[i].MediaPart?
    ensures MediaSearchKind(parts[i].media) & MediaKinds(parts) == MediaSearchKind(parts[i].media)
  {
    if i < |parts| - 1 {
      MediaKindsCover(parts[..|parts| - 1], i);
    }
  }

  // ----------------------------------------------------------------- scanning

  /** A projected part; `media` is the place of its media in the message. */
  datatype TlPart = TlPart(tlMessageId: int, ordinal: nat, media: Option<nat>)

  /**
    A stored message. `indexed` says that its search fields were written, `visible` that it meets
    the other conditions of the query: not deleted, in the conversations, text, sender and time.
   */
  datatype Row = Row(id: int, timestamp: int, message: Message, parts: seq<TlPart>, indexed: bool, visible: bool)

  /** Parts point at media of their message, and service messages carry none. */
  ghost predicate WellFormed(row: Row) {
    forall i :: 0 <= i < |row.parts| && row.parts[i].media.Some? ==>
      && row.message.service.None?
      && row.parts[i].media.value < |row.message.parts| && row.message.parts[row.parts[i].media.value].MediaPart?
  }

  function PartKind(row: Row, part: TlPart): bv16 {
    if part.media.Some? && part.media.value < |row.message.parts| && row.message.parts[part.media.value].MediaPart?
    then MediaSearchKind(row.message.parts[part.media.value].media)
    else 0
  }

  datatype IndexRow = IndexRow(
    tlMessageId: int, timestamp: int, messageId: int, ordinal: nat, partKind: bv16, messageKinds: bv16)

  /** The condition on kinds that a scan pushes down: service messages come only with phone calls. */
  predicate KindsSelected(kinds: bv16, mask: bv16) {
    (mask != 0 ==> kinds & mask != 0) && (mask & PHONE_CALL == 0 ==> kinds & SERVICE == 0)
  }

  predicate Selected(row: Row, mask: bv16) {
    row.visible && row.indexed && KindsSelected(MessageKinds(row.message), mask)
  }

  predicate KindsMatch(kinds: bv16, part: bv16, first: bool, mask: bv16) {
    mask & part != 0 || (first && mask & kinds & MESSAGE_LEVEL != 0)
  }

  predicate PartKindsMatchSearchKinds(row: IndexRow, mask: bv16) {
    mask == 0 || KindsMatch(row.messageKinds, row.partKind, row.ordinal == 0, mask)
  }

  /** Whether an index row stays when a scan is trimmed to a mask. */
  predicate Trimmed(row: IndexRow, mask: bv16) {
    if mask == 0 then row.ordinal == 0 else PartKindsMatchSearchKinds(row, mask)
  }

  function PartRow(row: Row, part: TlPart): IndexRow {
    IndexRow(part.tlMessageId, row.timestamp, row.id, part.ordinal, PartKind(row, part), MessageKinds(row.message))
  }

  function RowsOf(row: Row, parts: seq<TlPart>): (rows: seq<IndexRow>)
    ensures |rows| == |parts|
    ensures forall i :: 0 <= i < |parts| ==> rows[i] == PartRow(row, parts[i])
  {
    seq(|parts|, i requires 0 <= i < |parts| => PartRow(row, parts[i]))
  }

  function Scanned(table: seq<Row>, mask: bv16): seq<IndexRow> {
    if table == [] then []
    else (if Selected(table[0], mask) then RowsOf(table[0], table[0].parts) else []) + Scanned(table[1..], mask)
  }

  /** Places a row before the rows with the same or a smaller Telegram ID. */
  function Place(row: IndexRow, sorted: seq<IndexRow>): seq<IndexRow> {
    if sorted == [] || sorted[0].tlMessageId <= row.tlMessageId then [row] + sorted
    else [sorted[0]] + Place(row, sorted[1..])
  }

  /** Stable sort by descending Telegram ID. */
  function Sort(rows: seq<IndexRow>): seq<IndexRow> {
    if rows == [] then [] else Place(rows[0], Sort(rows[1..]))
  }

  function Scan(table: seq<Row>, mask: bv16): seq<IndexRow> {
    Sort(Scanned(table, mask))
  }

  function Trim(rows: seq<IndexRow>, mask: bv16): seq<IndexRow> {
    if rows == [] then []
    else if Trimmed(rows[0], mask) then [rows[0]] + Trim(rows[1..], mask)
    else Trim(rows[1..], mask)
  }

  predicate Descending(rows: seq<IndexRow>) {
    forall i, j :: 0 <= i < j < |rows| ==> rows[i].tlMessageId >= rows[j].tlMessageId
  }

  lemma {:induction false} PlaceKeeps(row: IndexRow, sorted: seq<IndexRow>)
    ensures multiset(Place(row, sorted)) == multiset(sorted) + multiset{row}
    ensures |Place(row, sorted)| == |sorted| + 1
  {
    if sorted != [] {
      assert sorted == [sorted[0]] + sorted[1..];
      PlaceKeeps(row, sorted[1..]);
    }
  }

  lemma DescendingCons(head: IndexRow, tail: seq<IndexRow>)
    requires Descending(tail) && (tail != [] ==> tail[0].tlMessageId <= head.tlMessageId)
    ensures Descending([head] + tail)
  {
  }

  lemma {:induction false} PlaceSorts(row: IndexRow, sorted: seq<IndexRow>)
    requires Descending(sorted)
    ensures Descending(Place(row, sorted))
  {
    if sorted == [] || sorted[0].tlMessageId <= row.tlMessageId {
      DescendingCons(row, sorted);
    } else {
      PlaceSorts(row, sorted[1..]);
      DescendingCons(sorted[0], Place(row, sorted[1..]));
    }
  }

  lemma {:induction false} SortSorts(rows: seq<IndexRow>)
    ensures Descending(Sort(rows)) && multiset(Sort(rows)) == multiset(rows) && |Sort(rows)| == |rows|
  {
    if rows != [] {
      assert rows == [rows[0]] + rows[1..];
      SortSorts(rows[1..]);
      PlaceSorts(rows[0], Sort(rows[1..]));
      PlaceKeeps(rows[0], Sort(rows[1..]));
    }
  }

  // ------------------------------------------------------------------ theorem

  lemma {:induction false} TrimAppend(a: seq<IndexRow>, b: seq<IndexRow>, mask: bv16)
    ensures Trim(a + b, mask) == Trim(a, mask) + Trim(b, mask)
  {
    if a == [] {
      assert a + b == b;
    } else {
      assert (a + b)[1..] == a[1..] + b;
      TrimAppend(a[1..], b, mask);
    }
  }

  /** Trimming a place in a sorted list is placing in the trimmed list. */
  lemma {:induction false} TrimPlace(row: IndexRow, sorted: seq<IndexRow>, mask: bv16)
    requires Descending(sorted)
    ensures Trim(Place(row, sorted), mask) ==
              if Trimmed(row, mask) then Place(row, Trim(sorted, mask)) else Trim(sorted, mask)
  {
    hide Trimmed;
    if sorted == [] || sorted[0].tlMessageId <= row.tlMessageId {
      assert Place(row, sorted)[1..] == sorted;
      TrimIsBelow(sorted, mask);
    } else {
      TrimPlace(row, sorted[1..], mask);
      var placed := Place(row, sorted);
      assert placed[0] == sorted[0] && placed[1..] == Place(row, sorted[1..]);
      if Trimmed(sorted[0], mask) {
        assert Trim(sorted, mask)[1..] == Trim(sorted[1..], mask);
      } else {
        TrimIsBelow(sorted[1..], mask);
      }
    }
  }

  lemma {:induction false} TrimIsBelow(rows: seq<IndexRow>, mask: bv16)
    requires Descending(rows)
    ensures Trim(rows, mask) != [] ==> Trim(rows, mask)[0].tlMessageId <= rows[0].tlMessageId
  {
    if rows != [] && !Trimmed(rows[0], mask) {
      TrimIsBelow(rows[1..], mask);
    }
  }

  /** Trimming does not disturb the order: trim and sort commute. */
  lemma {:induction false} TrimSort(rows: seq<IndexRow>, mask: bv16)
    ensures Trim(Sort(rows), mask) == Sort(Trim(rows, mask))
  {
    if rows != [] {
      TrimSort(rows[1..], mask);
      SortSorts(rows[1..]);
      TrimPlace(rows[0], Sort(rows[1..]), mask);
      assert Trimmed(rows[0], mask) ==> Trim(rows, mask)[1..] == Trim(rows[1..], mask);
    }
  }

  /** Every kind of a mask is in the larger mask. */
  predicate Contains(larger: bv16, mask: bv16) {
    larger & mask == mask
  }

  predicate Meets(a: bv16, b: bv16) {
    a & b != 0
  }

  /** The bit algebra behind the theorem, for a message that is not a service message... */
  lemma ContentBits(kinds: bv16, part: bv16, first: bool, mask: bv16, larger: bv16)
    requires Contains(larger, mask) && KindsMatch(kinds, part, first, mask)
    requires Contains(kinds, part) && !Meets(kinds, SERVICE)
    ensures KindsSelected(kinds, larger) && KindsSelected(kinds, 0)
  {
  }

  /** ...and for a service message. */
  lemma ServiceBits(call: bool, first: bool, mask: bv16, larger: bv16)
    requires Contains(larger, mask) && KindsMatch(ServiceKinds(call), 0, first, mask)
    ensures KindsSelected(ServiceKinds(call), larger) && !KindsSelected(ServiceKinds(call), 0)
    ensures first && call && Meets(mask, PHONE_CALL)
  {
  }

  lemma ContainsTrans(a: bv16, b: bv16, c: bv16)
    requires Contains(a, b) && Contains(b, c)
    ensures Contains(a, c)
  {
  }

  lemma ContentKinds(message: Message)
    requires message.service.None?
    ensures !Meets(MessageKinds(message), SERVICE)
    ensures Contains(MessageKinds(message), MediaKinds(message.parts))
  {
    MediaKindsAreMedia(message.parts);
    hide MediaKinds, HasLink, Mentions;
  }

  lemma PartKindInMedia(row: Row, part: TlPart)
    ensures Contains(MediaKinds(row.message.parts), PartKind(row, part))
  {
    hide MediaSearchKind, MediaKinds;
    if part.media.Some? && part.media.value < |row.message.parts| && row.message.parts[part.media.value].MediaPart? {
      MediaKindsCover(row.message.parts, part.media.value);
    }
  }

  lemma PartKindIsCovered(row: Row, part: TlPart)
    requires row.message.service.None?
    ensures Contains(MessageKinds(row.message), PartKind(row, part))
  {
    hide MediaKinds, MessageKinds, PartKind, Contains, Meets;
    PartKindInMedia(row, part);
    ContentKinds(row.message);
    ContainsTrans(MessageKinds(row.message), MediaKinds(row.message.parts), PartKind(row, part));
  }

  lemma ServicePartKind(row: Row, i: nat)
    requires WellFormed(row) && i < |row.parts| && row.message.service.Some?
    ensures PartKind(row, row.parts[i]) == 0
  {
  }

  /** A part that matches a mask belongs to a message which every larger mask selects. */
  lemma MatchIsSelected(row: Row, i: nat, mask: bv16, larger: bv16)
    requires WellFormed(row) && i < |row.parts| && mask != 0 && Contains(larger, mask)
    requires row.visible && row.indexed && PartKindsMatchSearchKinds(PartRow(row, row.parts[i]), mask)
    ensures Selected(row, larger)
    ensures Selected(row, 0) <==> row.message.service.None?
    ensures row.message.service.Some? ==> row.message.service.value && row.parts[i].ordinal == 0 && Meets(mask, PHONE_CALL)
  {
    hide MediaKinds, PartKind, ServiceKinds, Join, KindsMatch, KindsSelected, Contains, Meets, HasLink, Mentions;
    var part, kinds := row.parts[i], MessageKinds(row.message);
    var partKind := PartKind(row, part);
    if row.message.service.None? {
      hide MessageKinds;
      ContentKinds(row.message);
      PartKindIsCovered(row, part);
      ContentBits(kinds, partKind, part.ordinal == 0, mask, larger);
    } else {
      ServicePartKind(row, i);
      ServiceBits(row.message.service.value, part.ordinal == 0, mask, larger);
    }
  }

  /** A phone call that a scan for phone calls finds. */
  predicate IsVisibleCall(row: Row) {
    row.visible && row.indexed && row.message.service == Some(true) && exists i :: 0 <= i < |row.parts| && row.parts[i].ordinal == 0
  }

  lemma {:induction false} TrimNothing(rows: seq<IndexRow>, mask: bv16)
    requires forall i :: 0 <= i < |rows| ==> !Trimmed(rows[i], mask)
    ensures Trim(rows, mask) == []
  {
    if rows != [] {
      TrimNothing(rows[1..], mask);
    }
  }

  lemma {:induction false} TrimSomething(rows: seq<IndexRow>, mask: bv16, i: nat)
    requires i < |rows| && Trimmed(rows[i], mask)
    ensures Trim(rows, mask) != []
  {
    if !Trimmed(rows[0], mask) {
      TrimSomething(rows[1..], mask, i - 1);
    }
  }

  /** What one row contributes to a scan, trimmed. */
  function RowTrim(row: Row, scan: bv16, mask: bv16): seq<IndexRow> {
    if Selected(row, scan) then Trim(RowsOf(row, row.parts), mask) else []
  }

  lemma {:induction false} TrimScanned(table: seq<Row>, scan: bv16, mask: bv16)
    ensures Trim(Scanned(table, scan), mask) ==
              if table == [] then [] else RowTrim(table[0], scan, mask) + Trim(Scanned(table[1..], scan), mask)
  {
    hide Selected, Trimmed;
    if table != [] {
      TrimAppend(
        if Selected(table[0], scan) then RowsOf(table[0], table[0].parts) else [], Scanned(table[1..], scan), mask);
    }
  }

  /** A row contributes the same to its own scan as to a larger one. */
  lemma LargerRow(row: Row, mask: bv16, larger: bv16)
    requires WellFormed(row) && mask != 0 && Contains(larger, mask)
    ensures RowTrim(row, larger, mask) == RowTrim(row, mask, mask)
  {
    hide WellFormed, KindsSelected, KindsMatch, MessageKinds, PartKind, Trim, Contains;
    var rows := RowsOf(row, row.parts);
    if row.visible && row.indexed && !(Selected(row, larger) && Selected(row, mask)) {
      forall i | 0 <= i < |rows| ensures !Trimmed(rows[i], mask) {
        if Trimmed(rows[i], mask) {
          SelfContains(mask);
          MatchIsSelected(row, i, mask, larger);
          MatchIsSelected(row, i, mask, mask);
        }
      }
      TrimNothing(rows, mask);
    }
  }

  lemma SelfContains(mask: bv16)
    ensures Contains(mask, mask) && !Meets(mask, 0)
  {
  }

  /** It contributes the same to a scan without kinds, unless it is a phone call and those are wanted. */
  lemma UnfilteredRow(row: Row, mask: bv16)
    requires WellFormed(row) && mask != 0
    ensures if IsVisibleCall(row) && Meets(mask, PHONE_CALL) then RowTrim(row, 0, mask) == [] != RowTrim(row, mask, mask)
            else RowTrim(row, 0, mask) == RowTrim(row, mask, mask)
  {
    hide WellFormed, KindsSelected, KindsMatch, MessageKinds, PartKind, Trim, Contains, Meets;
    var rows := RowsOf(row, row.parts);
    SelfContains(mask);
    if row.visible && row.indexed {
      if IsVisibleCall(row) && Meets(mask, PHONE_CALL) {
        var i :| 0 <= i < |row.parts| && row.parts[i].ordinal == 0;
        CallMatches(row, i, mask);
        MatchIsSelected(row, i, mask, mask);
        TrimSomething(rows, mask, i);
      } else if !(Selected(row, 0) && Selected(row, mask)) {
        forall i | 0 <= i < |rows| ensures !Trimmed(rows[i], mask) {
          if Trimmed(rows[i], mask) {
            MatchIsSelected(row, i, mask, mask);
          }
        }
        TrimNothing(rows, mask);
      }
    }
  }

  lemma CallMatches(row: Row, i: nat, mask: bv16)
    requires i < |row.parts| && row.parts[i].ordinal == 0 && row.message.service == Some(true) && Meets(mask, PHONE_CALL)
    ensures PartKindsMatchSearchKinds(PartRow(row, row.parts[i]), mask)
  {
    CallBits(mask);
  }

  lemma CallBits(mask: bv16)
    requires Meets(mask, PHONE_CALL)
    ensures mask & ServiceKinds(true) & MESSAGE_LEVEL != 0
  {
  }

  ghost predicate AllWellFormed(table: seq<Row>) {
    forall i :: 0 <= i < |table| ==> WellFormed(table[i])
  }

  lemma {:induction false} LargerScan(table: seq<Row>, mask: bv16, larger: bv16)
    requires AllWellFormed(table) && mask != 0 && Contains(larger, mask)
    ensures Trim(Scanned(table, larger), mask) == Trim(Scanned(table, mask), mask)
  {
    hide WellFormed, RowTrim, Trim, Scanned, Contains;
    TrimScanned(table, larger, mask);
    TrimScanned(table, mask, mask);
    if table != [] {
      LargerRow(table[0], mask, larger);
      LargerScan(table[1..], mask, larger);
    }
  }

  predicate HasVisibleCall(table: seq<Row>) {
    exists i :: 0 <= i < |table| && IsVisibleCall(table[i])
  }

  lemma {:induction false} UnfilteredScan(table: seq<Row>, mask: bv16)
    requires AllWellFormed(table) && mask != 0
    ensures if HasVisibleCall(table) && Meets(mask, PHONE_CALL)
            then |Trim(Scanned(table, 0), mask)| < |Trim(Scanned(table, mask), mask)|
            else Trim(Scanned(table, 0), mask) == Trim(Scanned(table, mask), mask)
  {
    hide WellFormed, RowTrim, Trim, Scanned, Meets, IsVisibleCall;
    TrimScanned(table, 0, mask);
    TrimScanned(table, mask, mask);
    if table != [] {
      UnfilteredRow(table[0], mask);
      UnfilteredScan(table[1..], mask);
      assert HasVisibleCall(table) <==> IsVisibleCall(table[0]) || HasVisibleCall(table[1..]);
    }
  }

  // -------------------------------------------------------------------- reuse

  /** Whether a cached scan is taken to answer a mask. */
  predicate SearchIndexCovers(cachedMask: bv16, mask: bv16) {
    cachedMask == 0 || (mask != 0 && Contains(cachedMask, mask))
  }

  /** The result a mask gets from a scan. */
  function Answer(table: seq<Row>, scan: bv16, mask: bv16): seq<IndexRow> {
    Trim(Scan(table, scan), mask)
  }

  /**
    A cached scan that is taken to cover a mask gives the mask its own result in exactly these cases:
    it is not the scan without kinds, or phone calls are not wanted, or there is none.
   */
  lemma ReuseIsExact(table: seq<Row>, cachedMask: bv16, mask: bv16)
    requires AllWellFormed(table) && SearchIndexCovers(cachedMask, mask)
    ensures Answer(table, cachedMask, mask) == Answer(table, mask, mask) <==>
              !(cachedMask == 0 && Meets(mask, PHONE_CALL) && HasVisibleCall(table))
    ensures Answer(table, cachedMask, mask) == Answer(table, mask, mask) ||
            |Answer(table, cachedMask, mask)| < |Answer(table, mask, mask)|
  {
    hide Trim, Scanned, Sort, Meets, WellFormed, IsVisibleCall;
    TrimSort(Scanned(table, cachedMask), mask);
    TrimSort(Scanned(table, mask), mask);
    SortSorts(Trim(Scanned(table, cachedMask), mask));
    SortSorts(Trim(Scanned(table, mask), mask));
    if mask == 0 {
      SelfContains(PHONE_CALL);
      NothingMeetsZero(PHONE_CALL);
    } else if cachedMask == 0 {
      UnfilteredScan(table, mask);
    } else {
      LargerScan(table, mask, cachedMask);
    }
  }

  lemma NothingMeetsZero(mask: bv16)
    ensures !Meets(0, mask)
  {
  }

  // ---------------------------------------------------------- several at once

  /** The different masks in the order of their first occurrence. */
  function Dedupe(masks: seq<bv16>): (wanted: seq<bv16>)
    ensures forall m :: m in wanted <==> m in masks
  {
    if masks == [] then []
    else
      var init, last := masks[..|masks| - 1], masks[|masks| - 1];
      assert masks == init + [last];
      if last in init then Dedupe(init) else Dedupe(init) + [last]
  }

  /** The first place of a mask. */
  predicate IsFirstAt(masks: seq<bv16>, m: bv16, n: nat) {
    n < |masks| && masks[n] == m && forall k :: 0 <= k < n ==> masks[k] != m
  }

  /** Every mask is kept once, in the order of the first occurrences. */
  lemma {:induction false} DedupeIsByFirst(masks: seq<bv16>, i: nat, j: nat) returns (a: nat, b: nat)
    requires i < j < |Dedupe(masks)|
    ensures a < b && IsFirstAt(masks, Dedupe(masks)[i], a) && IsFirstAt(masks, Dedupe(masks)[j], b)
  {
    var init, last := masks[..|masks| - 1], masks[|masks| - 1];
    assert masks == init + [last];
    if j < |Dedupe(init)| {
      a, b := DedupeIsByFirst(init, i, j);
    } else {
      a := FirstPlace(init, Dedupe(init)[i]);
      b := |masks| - 1;
    }
  }

  lemma {:induction false} FirstPlace(masks: seq<bv16>, m: bv16) returns (n: nat)
    requires m in masks
    ensures IsFirstAt(masks, m, n)
  {
    var init, last := masks[..|masks| - 1], masks[|masks| - 1];
    assert masks == init + [last];
    if m in init {
      n := FirstPlace(init, m);
    } else {
      n := |masks| - 1;
    }
  }

  function UnionOf(masks: seq<bv16>): bv16 {
    if masks == [] then 0 else Join(UnionOf(masks[..|masks| - 1]), masks[|masks| - 1])
  }

  datatype Hit = Hit(tlMessageId: int, timestamp: int, messageId: int)

  function Hits(rows: seq<IndexRow>): (hits: seq<Hit>)
    ensures |hits| == |rows|
  {
    seq(|rows|, i requires 0 <= i < |rows| => Hit(rows[i].tlMessageId, rows[i].timestamp, rows[i].messageId))
  }

  /** The scan that serves a request: a cached one that covers the union of the masks, else a new one. */
  function ScanFor(wanted: seq<bv16>, cachedMask: Option<bv16>): bv16 {
    if cachedMask.Some? && SearchIndexCovers(cachedMask.value, UnionOf(wanted)) then cachedMask.value else UnionOf(wanted)
  }

  predicate Mixed(wanted: seq<bv16>) {
    0 in wanted && exists i :: 0 <= i < |wanted| && wanted[i] != 0
  }

  /** One scan for several masks; the mask 0 among others gets a scan of its own. */
  function SearchPartIndexMany(table: seq<Row>, masks: seq<bv16>, cachedMask: Option<bv16>): (r: seq<seq<Hit>>)
    ensures |r| == |Dedupe(masks)|
  {
    var wanted := Dedupe(masks);
    var scan := ScanFor(wanted, cachedMask);
    seq(|wanted|, i requires 0 <= i < |wanted| =>
      Hits(Answer(table, if wanted[i] == 0 && Mixed(wanted) then 0 else scan, wanted[i])))
  }

  /** What a mask would get if it were asked for alone, without any cache. */
  function SearchPartIndex(table: seq<Row>, mask: bv16): seq<Hit> {
    Hits(Answer(table, mask, mask))
  }

  lemma AndDistributes(a: bv16, b: bv16, mask: bv16)
    ensures Join(a, b) & mask == Join(a & mask, b & mask)
  {
  }

  lemma Absorbs(a: bv16, mask: bv16)
    ensures Join(mask, a & mask) == mask && Join(a & mask, mask) == mask
  {
  }

  lemma JoinContains(a: bv16, b: bv16, mask: bv16)
    requires Contains(a, mask) || Contains(b, mask)
    ensures Contains(Join(a, b), mask)
  {
    hide Join;
    AndDistributes(a, b, mask);
    Absorbs(a, mask);
    Absorbs(b, mask);
  }

  lemma JoinMeets(a: bv16, b: bv16, mask: bv16)
    ensures Meets(Join(a, b), mask) <==> Meets(a, mask) || Meets(b, mask)
  {
    AndDistributes(a, b, mask);
  }

  lemma {:induction false} UnionContains(masks: seq<bv16>, m: bv16)
    requires m in masks
    ensures Contains(UnionOf(masks), m)
  {
    hide Contains, Join;
    var init, last := masks[..|masks| - 1], masks[|masks| - 1];
    assert masks == init + [last];
    if m in init {
      UnionContains(init, m);
    } else {
      SelfContains(last);
    }
    JoinContains(UnionOf(init), last, m);
  }

  lemma {:induction false} UnionMeets(masks: seq<bv16>, kind: bv16)
    ensures Meets(UnionOf(masks), kind) <==> exists i :: 0 <= i < |masks| && Meets(masks[i], kind)
  {
    hide Meets, Join;
    if masks == [] {
      NothingMeetsZero(kind);
    } else {
      var init, last := masks[..|masks| - 1], masks[|masks| - 1];
      UnionMeets(init, kind);
      JoinMeets(UnionOf(init), last, kind);
      assert forall i :: 0 <= i < |init| ==> masks[i] == init[i];
      assert (exists i :: 0 <= i < |masks| && Meets(masks[i], kind)) <==>
             (exists i :: 0 <= i < |init| && Meets(init[i], kind)) || Meets(last, kind);
    }
  }

  lemma UnionIsZero(masks: seq<bv16>)
    ensures UnionOf(masks) == 0 <==> forall i :: 0 <= i < |masks| ==> masks[i] == 0
  {
    UnionMeets(masks, !0);
    assert forall m: bv16 {:trigger Meets(m, !0)} :: Meets(m, !0) <==> m != 0;
  }

  lemma MemberIsCovered(wanted: seq<bv16>, i: nat, cachedMask: Option<bv16>)
    requires i < |wanted| && (wanted[i] != 0 || !Mixed(wanted))
    ensures SearchIndexCovers(ScanFor(wanted, cachedMask), wanted[i])
    ensures wanted[i] != 0 ==> (ScanFor(wanted, cachedMask) == 0 <==> cachedMask == Some(0))
  {
    hide Contains, UnionOf;
    UnionIsZero(wanted);
    if wanted[i] != 0 {
      UnionContains(wanted, wanted[i]);
      if cachedMask.Some? && Contains(cachedMask.value, UnionOf(wanted)) {
        ContainsTrans(cachedMask.value, UnionOf(wanted), wanted[i]);
      }
    }
  }

  lemma DedupeMeets(masks: seq<bv16>, kind: bv16)
    ensures Meets(UnionOf(Dedupe(masks)), kind) <==> Meets(UnionOf(masks), kind)
  {
    hide Meets, Dedupe, UnionOf;
    var wanted := Dedupe(masks);
    UnionMeets(masks, kind);
    UnionMeets(wanted, kind);
    if k :| 0 <= k < |masks| && Meets(masks[k], kind) {
      assert masks[k] in wanted;
      var i :| 0 <= i < |wanted| && wanted[i] == masks[k];
    }
    if i :| 0 <= i < |wanted| && Meets(wanted[i], kind) {
      assert wanted[i] in masks;
      var k :| 0 <= k < |masks| && masks[k] == wanted[i];
    }
  }

  /** The result of one of the masks of a combined scan. */
  lemma OneOfMany(table: seq<Row>, masks: seq<bv16>, cachedMask: Option<bv16>, i: nat)
    requires AllWellFormed(table) && i < |Dedupe(masks)|
    ensures SearchPartIndexMany(table, masks, cachedMask)[i] == SearchPartIndex(table, Dedupe(masks)[i]) <==>
              !(cachedMask == Some(0) && Meets(Dedupe(masks)[i], PHONE_CALL) && HasVisibleCall(table))
  {
    hide Answer, Contains, Meets, WellFormed, HasVisibleCall, Dedupe, UnionOf;
    var wanted := Dedupe(masks);
    NothingMeetsZero(PHONE_CALL);
    if wanted[i] != 0 || !Mixed(wanted) {
      MemberIsCovered(wanted, i, cachedMask);
      ReuseIsExact(table, ScanFor(wanted, cachedMask), wanted[i]);
    }
  }

  /**
    The combined scan gives every mask its own result, cached or not, except in exactly one case: a
    cached scan without kinds is reused although phone calls are wanted and there are some.
   */
  lemma ManyIsEach(table: seq<Row>, masks: seq<bv16>, cachedMask: Option<bv16>)
    requires AllWellFormed(table)
    ensures (forall i :: 0 <= i < |Dedupe(masks)| ==>
               SearchPartIndexMany(table, masks, cachedMask)[i] == SearchPartIndex(table, Dedupe(masks)[i])) <==>
            !(cachedMask == Some(0) && Meets(UnionOf(masks), PHONE_CALL) && HasVisibleCall(table))
  {
    hide SearchPartIndex, Meets, WellFormed, HasVisibleCall, Dedupe, UnionOf, SearchPartIndexMany;
    forall i | 0 <= i < |Dedupe(masks)|
      ensures SearchPartIndexMany(table, masks, cachedMask)[i] == SearchPartIndex(table, Dedupe(masks)[i]) <==>
                !(cachedMask == Some(0) && Meets(Dedupe(masks)[i], PHONE_CALL) && HasVisibleCall(table))
    {
      OneOfMany(table, masks, cachedMask, i);
    }
    DedupeMeets(masks, PHONE_CALL);
    UnionMeets(Dedupe(masks), PHONE_CALL);
  }

  predicate Distinct(masks: seq<bv16>) {
    forall i, j :: 0 <= i < j < |masks| ==> masks[i] != masks[j]
  }

  lemma DistinctInit(masks: seq<bv16>)
    requires masks != []
    ensures var init, last := masks[..|masks| - 1], masks[|masks| - 1];
            masks == init + [last] && (Distinct(masks) <==> Distinct(init) && last !in init)
  {
    var init, last := masks[..|masks| - 1], masks[|masks| - 1];
    if last in init {
      var i :| 0 <= i < |init| && init[i] == last;
      assert masks[i] == masks[|masks| - 1];
    }
    if Distinct(masks) {
      forall i, j | 0 <= i < j < |init| ensures init[i] != init[j] {
        assert masks[i] != masks[j];
      }
    }
  }

  lemma {:induction false} DedupeLength(masks: seq<bv16>)
    ensures |Dedupe(masks)| <= |masks| && (|Dedupe(masks)| == |masks| <==> Distinct(masks))
    ensures Distinct(masks) ==> Dedupe(masks) == masks
  {
    hide Distinct;
    if masks == [] {
      EmptyIsDistinct();
    } else {
      DedupeLength(masks[..|masks| - 1]);
      DistinctInit(masks);
    }
  }

  lemma EmptyIsDistinct()
    ensures Distinct([])
  {
  }

  /** The results correspond to the masks one to one exactly when no mask is repeated. */
  lemma OneResultPerMask(table: seq<Row>, masks: seq<bv16>, cachedMask: Option<bv16>)
    ensures |SearchPartIndexMany(table, masks, cachedMask)| == |masks| <==> Distinct(masks)
    ensures Distinct(masks) ==> Dedupe(masks) == masks
  {
    hide Dedupe, Distinct;
    DedupeLength(masks);
  }
}
