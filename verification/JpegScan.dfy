/**
  Dimensions of a JPEG image from a prefix of its bytes. The scanner succeeds exactly on the streams
  described by a small grammar after sections B.1.1.2 and B.2.2 of ITU-T T.81: a start of image, markers
  and segments, then a complete frame header with sizes that are not zero.
 */
module JpegScan {

  datatype Option<T> = None | Some(value: T)

  type Byte = x: int | 0 <= x < 256

  type Bytes = seq<Byte>

  datatype Size = Size(width: int, height: int)

  // ------------------------------------------------------------------ scanner

  predicate IsStandalone(marker: Byte) {
    marker == 0xd8 || marker == 0xd9 || marker == 0x01 || 0xd0 <= marker <= 0xd7
  }

  predicate IsStartOfFrame(marker: Byte) {
    0xc0 <= marker <= 0xcf && marker != 0xc4 && marker != 0xc8 && marker != 0xcc
  }

  function ReadU16BE(bytes: Bytes, offset: nat): int
    requires offset + 1 < |bytes|
  {
    bytes[offset] as int * 0x100 + bytes[offset + 1] as int
  }

  function Dimensions(width: int, height: int): Option<Size> {
    if width > 0 && height > 0 then Some(Size(width, height)) else None
  }

  /** The first offset from `offset` on with the byte 0xFF, or the end. */
  function SkipOther(bytes: Bytes, offset: nat): (r: nat)
    requires offset <= |bytes|
    ensures offset <= r <= |bytes| && (r < |bytes| ==> bytes[r] == 0xff)
    ensures forall i :: offset <= i < r ==> bytes[i] != 0xff
    decreases |bytes| - offset
  {
    if offset < |bytes| && bytes[offset] != 0xff then SkipOther(bytes, offset + 1) else offset
  }

  /** The first offset from `offset` on with another byte than 0xFF, or the end. */
  function SkipFill(bytes: Bytes, offset: nat): (r: nat)
    requires offset <= |bytes|
    ensures offset <= r <= |bytes| && (r < |bytes| ==> bytes[r] != 0xff)
    ensures forall i :: offset <= i < r ==> bytes[i] == 0xff
    decreases |bytes| - offset
  {
    if offset < |bytes| && bytes[offset] == 0xff then SkipFill(bytes, offset + 1) else offset
  }

  /** The offset of the next marker code, or the end. */
  function MarkerAt(bytes: Bytes, offset: nat): (r: nat)
    requires offset <= |bytes|
    ensures offset <= r <= |bytes|
  {
    SkipFill(bytes, SkipOther(bytes, offset))
  }

  function ScanFrom(bytes: Bytes, offset: nat): Option<Size>
    decreases |bytes| - offset
  {
    if offset + 3 >= |bytes| then None
    else
      var at := MarkerAt(bytes, offset);
      if at >= |bytes| then None
      else if IsStandalone(bytes[at]) then ScanFrom(bytes, at + 1)
      else if at + 3 > |bytes| then None
      else
        var length := ReadU16BE(bytes, at + 1);
        if length < 2 || at + 1 + length > |bytes| then None
        else if IsStartOfFrame(bytes[at]) && length >= 7 then Dimensions(ReadU16BE(bytes, at + 6), ReadU16BE(bytes, at + 4))
        else ScanFrom(bytes, at + 1 + length)
  }

  function Scan(bytes: Bytes): Option<Size> {
    if |bytes| < 4 || bytes[0] != 0xff || bytes[1] != 0xd8 then None else ScanFrom(bytes, 2)
  }

  /** The two inner loops: to the next 0xFF, and over all of them. */
  method SkipToMarker(bytes: Bytes, start: nat) returns (offset: nat)
    requires start <= |bytes|
    ensures offset == MarkerAt(bytes, start)
  {
    offset := start;
    while offset < |bytes| && bytes[offset] != 0xff
      invariant start <= offset <= |bytes| && SkipOther(bytes, offset) == SkipOther(bytes, start)
    {
      offset := offset + 1;
    }
    ghost var middle := offset;
    while offset < |bytes| && bytes[offset] == 0xff
      invariant middle <= offset <= |bytes| && SkipFill(bytes, offset) == SkipFill(bytes, middle)
    {
      offset := offset + 1;
    }
  }

  /** The scanner: it terminates and never reads beyond the bytes. */
  method JpegDimensions(bytes: Bytes) returns (r: Option<Size>)
    ensures r == Scan(bytes)
  {
    hide MarkerAt, ReadU16BE;
    if |bytes| < 4 || bytes[0] != 0xff || bytes[1] != 0xd8 {
      return None;
    }
    var offset: nat := 2;
    while offset + 3 < |bytes|
      invariant offset <= |bytes| && ScanFrom(bytes, offset) == Scan(bytes)
      decreases |bytes| - offset
    {
      offset := SkipToMarker(bytes, offset);
      if offset >= |bytes| {
        return None;
      }
      var marker := bytes[offset];
      offset := offset + 1;
      if IsStandalone(marker) {
        continue;
      }
      if offset + 2 > |bytes| {
        return None;
      }
      var length := ReadU16BE(bytes, offset);
      if length < 2 || offset + length > |bytes| {
        return None;
      }
      if IsStartOfFrame(marker) && length >= 7 {
        return Dimensions(ReadU16BE(bytes, offset + 5), ReadU16BE(bytes, offset + 3));
      }
      offset := offset + length;
    }
    return None;
  }

  // ------------------------------------------------------------------ grammar

  /** The markers of frame headers in table B.1: SOF0 to SOF3, SOF5 to SOF7, SOF9 to SOF11 and SOF13 to SOF15. */
  const FRAME_HEADERS: set<int> := {0xc0, 0xc1, 0xc2, 0xc3, 0xc5, 0xc6, 0xc7, 0xc9, 0xca, 0xcb, 0xcd, 0xce, 0xcf}

  /** The markers that have no segment: SOI, EOI, TEM and RST0 to RST7. */
  const ALONE: set<int> := {0xd8, 0xd9, 0x01, 0xd0, 0xd1, 0xd2, 0xd3, 0xd4, 0xd5, 0xd6, 0xd7}

  predicate MarksFrame(marker: Byte) {
    marker in FRAME_HEADERS
  }

  predicate StandsAlone(marker: Byte) {
    marker in ALONE
  }

  /** The scanner tells the markers apart as the table does. */
  lemma MarkersAgree(marker: Byte)
    ensures IsStartOfFrame(marker) <==> MarksFrame(marker)
    ensures IsStandalone(marker) <==> StandsAlone(marker)
  {
  }

  /** What comes before a marker code: bytes that are skipped, then at least one 0xFF. */
  datatype Lead = Lead(skipped: Bytes, fill: nat)

  /** A marker without parameters, or a segment with its length. */
  datatype Item = Standalone(lead: Lead, marker: Byte) | Segment(lead: Lead, marker: Byte, payload: Bytes)

  predicate ValidLead(lead: Lead) {
    lead.fill >= 1 && forall i :: 0 <= i < |lead.skipped| ==> lead.skipped[i] != 0xff
  }

  predicate ValidLength(payload: Bytes) {
    |payload| + 2 <= 0xffff
  }

  /** A segment is not a frame header that is long enough to hold sizes. */
  predicate ValidItem(item: Item) {
    && ValidLead(item.lead) && item.marker != 0xff
    && match item
       case Standalone(_, marker) => StandsAlone(marker)
       case Segment(_, marker, payload) =>
         !StandsAlone(marker) && ValidLength(payload) && !(MarksFrame(marker) && |payload| >= 5)
  }

  /** A frame header with its sizes: precision, number of lines, samples per line, and more. */
  datatype FrameHeader = FrameHeader(lead: Lead, marker: Byte, payload: Bytes)

  predicate ValidHeader(header: FrameHeader) {
    && ValidLead(header.lead) && MarksFrame(header.marker)
    && ValidLength(header.payload) && |header.payload| >= 5
  }

  function HeaderSize(header: FrameHeader): Size
    requires ValidHeader(header)
  {
    Size(ReadU16BE(header.payload, 3), ReadU16BE(header.payload, 1))
  }

  function Fill(count: nat): (r: Bytes)
    ensures |r| == count && forall i :: 0 <= i < count ==> r[i] == 0xff
  {
    seq(count, _ => 0xff)
  }

  function LeadBytes(lead: Lead): Bytes {
    lead.skipped + Fill(lead.fill)
  }

  function LengthBytes(length: nat): Bytes
    requires length <= 0xffff
  {
    [length / 0x100, length % 0x100]
  }

  function SegmentBytes(lead: Lead, marker: Byte, payload: Bytes): Bytes
    requires ValidLength(payload)
  {
    LeadBytes(lead) + [marker] + LengthBytes(|payload| + 2) + payload
  }

  function ItemBytes(item: Item): Bytes
    requires ValidItem(item)
  {
    match item
    case Standalone(lead, marker) => LeadBytes(lead) + [marker]
    case Segment(lead, marker, payload) => SegmentBytes(lead, marker, payload)
  }

  ghost predicate ValidItems(items: seq<Item>) {
    forall i :: 0 <= i < |items| ==> ValidItem(items[i])
  }

  ghost function ItemsBytes(items: seq<Item>): Bytes
    requires ValidItems(items)
  {
    if items == [] then [] else ItemBytes(items[0]) + ItemsBytes(items[1..])
  }

  function HeaderBytes(header: FrameHeader): Bytes
    requires ValidHeader(header)
  {
    SegmentBytes(header.lead, header.marker, header.payload)
  }

  const SOI: Bytes := [0xff, 0xd8]

  /** A stream up to and including its first complete frame header, and whatever follows. */
  ghost predicate IsStream(bytes: Bytes, items: seq<Item>, header: FrameHeader, rest: Bytes) {
    ValidItems(items) && ValidHeader(header) && bytes == SOI + ItemsBytes(items) + HeaderBytes(header) + rest
  }

  // ------------------------------------------------------------------ theorem

  /** After a lead the scanner stands at the marker code. */
  lemma FindsMarker(bytes: Bytes, offset: nat, lead: Lead, marker: Byte, tail: Bytes)
    requires offset <= |bytes| && bytes[offset..] == LeadBytes(lead) + [marker] + tail
    requires ValidLead(lead) && marker != 0xff
    ensures var at := offset + |LeadBytes(lead)|;
            MarkerAt(bytes, offset) == at < |bytes| && bytes[at] == marker && bytes[at + 1..] == tail
  {
    var first := offset + |lead.skipped|;
    var at := offset + |LeadBytes(lead)|;
    assert forall i :: offset <= i < |bytes| ==> bytes[i] == bytes[offset..][i - offset];
    assert forall i :: offset <= i < first ==> bytes[i] == lead.skipped[i - offset];
    assert bytes[first] == 0xff;
    assert SkipOther(bytes, offset) == first;
    assert forall i :: first <= i < at ==> bytes[i] == 0xff;
    assert bytes[at] == marker;
    assert SkipFill(bytes, first) == at;
    assert bytes[at + 1..] == bytes[offset..][at + 1 - offset..];
  }

  lemma ReadsLength(bytes: Bytes, offset: nat, payload: Bytes, tail: Bytes)
    requires ValidLength(payload)
    requires offset <= |bytes| && bytes[offset..] == LengthBytes(|payload| + 2) + payload + tail
    ensures offset + |payload| + 2 <= |bytes|
    ensures ReadU16BE(bytes, offset) == |payload| + 2
    ensures forall i: nat :: i < |payload| ==> bytes[offset + 2 + i] == payload[i]
    ensures bytes[offset + 2 + |payload|..] == tail
  {
    var suffix := bytes[offset..];
    assert bytes[offset] == suffix[0] && bytes[offset + 1] == suffix[1];
    forall i: nat | i < |payload| ensures bytes[offset + 2 + i] == payload[i] {
      assert bytes[offset + 2 + i] == suffix[2 + i];
    }
    assert bytes[offset + 2 + |payload|..] == suffix[2 + |payload|..];
  }

  /** A segment where the scanner stands is read as it was written. */
  lemma ReadsSegment(bytes: Bytes, offset: nat, lead: Lead, marker: Byte, payload: Bytes, tail: Bytes)
    requires ValidLead(lead) && marker != 0xff && ValidLength(payload)
    requires offset <= |bytes| && bytes[offset..] == SegmentBytes(lead, marker, payload) + tail
    ensures var at := offset + |LeadBytes(lead)|;
            && MarkerAt(bytes, offset) == at && at + 3 + |payload| + |tail| == |bytes|
            && bytes[at] == marker && ReadU16BE(bytes, at + 1) == |payload| + 2
            && (forall i: nat :: i < |payload| ==> bytes[at + 3 + i] == payload[i])
            && bytes[at + 3 + |payload|..] == tail
  {
    hide MarkerAt, LengthBytes, LeadBytes, ReadU16BE;
    var at := offset + |LeadBytes(lead)|;
    LengthIsTwo(|payload| + 2);
    assert bytes[offset..] == LeadBytes(lead) + [marker] + (LengthBytes(|payload| + 2) + payload + tail);
    FindsMarker(bytes, offset, lead, marker, LengthBytes(|payload| + 2) + payload + tail);
    ReadsLength(bytes, at + 1, payload, tail);
    assert |bytes[offset..]| == |bytes| - offset;
  }

  lemma LengthIsTwo(length: nat)
    requires length <= 0xffff
    ensures |LengthBytes(length)| == 2
  {
  }

  /** The scanner passes over every item. */
  lemma PassesItem(bytes: Bytes, offset: nat, item: Item, tail: Bytes) returns (next: nat)
    requires ValidItem(item) && |tail| >= 4
    requires offset <= |bytes| && bytes[offset..] == ItemBytes(item) + tail
    ensures offset < next <= |bytes| && bytes[next..] == tail && ScanFrom(bytes, offset) == ScanFrom(bytes, next)
  {
    hide MarkerAt, ReadU16BE, LeadBytes, SegmentBytes, MarksFrame, StandsAlone;
    var at := offset + |LeadBytes(item.lead)|;
    MarkersAgree(item.marker);
    match item {
      case Standalone(lead, marker) =>
        FindsMarker(bytes, offset, lead, marker, tail);
        next := at + 1;
      case Segment(lead, marker, payload) =>
        ReadsSegment(bytes, offset, lead, marker, payload, tail);
        next := at + 3 + |payload|;
    }
  }

  lemma ReadsHeader(bytes: Bytes, offset: nat, header: FrameHeader, rest: Bytes)
    requires ValidHeader(header) && offset <= |bytes| && bytes[offset..] == HeaderBytes(header) + rest
    ensures ScanFrom(bytes, offset) == Dimensions(HeaderSize(header).width, HeaderSize(header).height)
  {
    hide MarkerAt, LeadBytes, SegmentBytes;
    var payload := header.payload;
    var at := offset + |LeadBytes(header.lead)|;
    ReadsSegment(bytes, offset, header.lead, header.marker, payload, rest);
    assert bytes[at + 3 + 1] == payload[1] && bytes[at + 3 + 2] == payload[2];
    assert bytes[at + 3 + 3] == payload[3] && bytes[at + 3 + 4] == payload[4];
  }

  lemma {:induction false} PassesItems(bytes: Bytes, offset: nat, items: seq<Item>, header: FrameHeader, rest: Bytes)
    requires ValidItems(items) && ValidHeader(header) && offset <= |bytes|
    requires bytes[offset..] == ItemsBytes(items) + HeaderBytes(header) + rest
    ensures ScanFrom(bytes, offset) == Dimensions(HeaderSize(header).width, HeaderSize(header).height)
    decreases |items|
  {
    hide ScanFrom, HeaderSize, ItemBytes, ValidItem;
    if items == [] {
      assert ItemsBytes(items) + HeaderBytes(header) + rest == HeaderBytes(header) + rest;
      ReadsHeader(bytes, offset, header, rest);
    } else {
      var tail := ItemsBytes(items[1..]) + HeaderBytes(header) + rest;
      assert bytes[offset..] == ItemBytes(items[0]) + tail;
      var next := PassesItem(bytes, offset, items[0], tail);
      PassesItems(bytes, next, items[1..], header, rest);
    }
  }

  /** On every stream of the grammar the scanner gives the sizes of its first complete frame header, unless one is zero. */
  lemma StreamIsScanned(bytes: Bytes, items: seq<Item>, header: FrameHeader, rest: Bytes)
    requires IsStream(bytes, items, header, rest)
    ensures Scan(bytes) == Dimensions(HeaderSize(header).width, HeaderSize(header).height)
  {
    hide ScanFrom, HeaderSize, ItemBytes, ValidItem;
    assert bytes[2..] == ItemsBytes(items) + HeaderBytes(header) + rest;
    assert |HeaderBytes(header)| >= 2;
    PassesItems(bytes, 2, items, header, rest);
  }

  /** What the scanner skipped before a marker code is a lead. */
  lemma LeadAt(bytes: Bytes, offset: nat) returns (lead: Lead)
    requires offset <= |bytes| && MarkerAt(bytes, offset) < |bytes|
    ensures var at := MarkerAt(bytes, offset);
            ValidLead(lead) && bytes[offset..at] == LeadBytes(lead) && bytes[at] != 0xff
  {
    var at, first := MarkerAt(bytes, offset), SkipOther(bytes, offset);
    lead := Lead(bytes[offset..first], at - first);
    assert bytes[offset..at] == bytes[offset..first] + bytes[first..at];
    assert bytes[first..at] == Fill(at - first);
  }

  lemma LengthWrites(bytes: Bytes, offset: nat)
    requires offset + 1 < |bytes|
    ensures 0 <= ReadU16BE(bytes, offset) <= 0xffff
    ensures LengthBytes(ReadU16BE(bytes, offset)) == [bytes[offset], bytes[offset + 1]]
  {
    var hi, lo := bytes[offset] as int, bytes[offset + 1] as int;
    assert (hi * 0x100 + lo) / 0x100 == hi && (hi * 0x100 + lo) % 0x100 == lo;
  }

  /** A complete segment where the scanner stands is one that can be written. */
  lemma SegmentAt(bytes: Bytes, offset: nat) returns (lead: Lead, payload: Bytes)
    requires offset <= |bytes| && MarkerAt(bytes, offset) + 3 <= |bytes|
    requires var at := MarkerAt(bytes, offset);
             2 <= ReadU16BE(bytes, at + 1) <= |bytes| - at - 1
    ensures var at := MarkerAt(bytes, offset);
            var next := at + 1 + ReadU16BE(bytes, at + 1);
            && ValidLead(lead) && ValidLength(payload) && bytes[at] != 0xff
            && payload == bytes[at + 3..next] && |payload| + 2 == ReadU16BE(bytes, at + 1)
            && bytes[offset..] == SegmentBytes(lead, bytes[at], payload) + bytes[next..]
  {
    hide MarkerAt, ReadU16BE, LengthBytes, LeadBytes;
    var at := MarkerAt(bytes, offset);
    var next := at + 1 + ReadU16BE(bytes, at + 1);
    lead := LeadAt(bytes, offset);
    payload := bytes[at + 3..next];
    LengthWrites(bytes, at + 1);
    assert bytes[offset..] == bytes[offset..at] + [bytes[at]] + [bytes[at + 1], bytes[at + 2]] + payload + bytes[next..];
  }

  lemma StandaloneAt(bytes: Bytes, offset: nat) returns (lead: Lead)
    requires offset <= |bytes| && MarkerAt(bytes, offset) < |bytes|
    ensures var at := MarkerAt(bytes, offset);
            && ValidLead(lead) && bytes[at] != 0xff
            && bytes[offset..] == LeadBytes(lead) + [bytes[at]] + bytes[at + 1..]
  {
    hide MarkerAt, LeadBytes;
    var at := MarkerAt(bytes, offset);
    lead := LeadAt(bytes, offset);
    assert bytes[offset..] == bytes[offset..at] + [bytes[at]] + bytes[at + 1..];
  }

  lemma PrependItem(stream: Bytes, tail: Bytes, items: seq<Item>, item: Item, header: FrameHeader, rest: Bytes)
    requires ValidItem(item) && ValidItems(items) && ValidHeader(header)
    requires stream == ItemBytes(item) + tail && tail == ItemsBytes(items) + HeaderBytes(header) + rest
    ensures ValidItems([item] + items)
    ensures stream == ItemsBytes([item] + items) + HeaderBytes(header) + rest
  {
    hide ValidItem, ItemBytes, HeaderBytes;
    assert ([item] + items)[1..] == items;
  }

  lemma NoItems(header: FrameHeader, rest: Bytes)
    requires ValidHeader(header)
    ensures ValidItems([]) && ItemsBytes([]) + HeaderBytes(header) + rest == HeaderBytes(header) + rest
  {
    hide HeaderBytes;
    assert ItemsBytes([]) + HeaderBytes(header) == HeaderBytes(header);
  }

  /** A frame header where the scanner stands is a header of the grammar, and its sizes are those read. */
  lemma HeaderAt(bytes: Bytes, offset: nat) returns (header: FrameHeader, rest: Bytes)
    requires offset <= |bytes| && MarkerAt(bytes, offset) + 3 <= |bytes|
    requires var at := MarkerAt(bytes, offset);
             MarksFrame(bytes[at]) && 7 <= ReadU16BE(bytes, at + 1) <= |bytes| - at - 1
    ensures var at := MarkerAt(bytes, offset);
            && ValidHeader(header) && bytes[offset..] == HeaderBytes(header) + rest
            && HeaderSize(header) == Size(ReadU16BE(bytes, at + 6), ReadU16BE(bytes, at + 4))
  {
    hide MarkerAt, SegmentBytes;
    var at := MarkerAt(bytes, offset);
    var lead, payload := SegmentAt(bytes, offset);
    header, rest := FrameHeader(lead, bytes[at], payload), bytes[at + 1 + ReadU16BE(bytes, at + 1)..];
    assert payload[1] == bytes[at + 4] && payload[2] == bytes[at + 5];
    assert payload[3] == bytes[at + 6] && payload[4] == bytes[at + 7];
  }

  /** Whenever the scanner finds sizes, what it went through is a stream of the grammar. */
  lemma {:induction false} WhatIsFoundIsStream(bytes: Bytes, offset: nat)
    returns (items: seq<Item>, header: FrameHeader, rest: Bytes)
    requires offset <= |bytes| && ScanFrom(bytes, offset).Some?
    ensures ValidItems(items) && ValidHeader(header)
    ensures bytes[offset..] == ItemsBytes(items) + HeaderBytes(header) + rest
    ensures HeaderSize(header) == ScanFrom(bytes, offset).value
    decreases |bytes| - offset
  {
    hide MarkerAt, LeadBytes, SegmentBytes, ReadU16BE, HeaderBytes, HeaderSize, ItemsBytes, ValidItems, ValidHeader;
    var at := MarkerAt(bytes, offset);
    var length := if StandsAlone(bytes[at]) then 0 else ReadU16BE(bytes, at + 1);
    if MarksFrame(bytes[at]) && length >= 7 {
      header, rest := HeaderAt(bytes, offset);
      items := [];
      NoItems(header, rest);
    } else {
      var item;
      if StandsAlone(bytes[at]) {
        var lead := StandaloneAt(bytes, offset);
        item := Standalone(lead, bytes[at]);
      } else {
        var lead, payload := SegmentAt(bytes, offset);
        item := Segment(lead, bytes[at], payload);
      }
      items, header, rest := WhatIsFoundIsStream(bytes, at + 1 + length);
      PrependItem(bytes[offset..], bytes[at + 1 + length..], items, item, header, rest);
      items := [item] + items;
    }
  }

  /** The scanner finds sizes exactly on the streams whose first complete frame header has them, not zero. */
  lemma ScanIsExact(bytes: Bytes, size: Size)
    ensures Scan(bytes) == Some(size) <==>
              size.width > 0 && size.height > 0 &&
              exists items, header, rest :: IsStream(bytes, items, header, rest) && HeaderSize(header) == size
  {
    hide ScanFrom, ItemsBytes, HeaderBytes, HeaderSize;
    if Scan(bytes) == Some(size) {
      var items, header, rest := WhatIsFoundIsStream(bytes, 2);
      assert bytes == SOI + bytes[2..];
      assert bytes == SOI + ItemsBytes(items) + HeaderBytes(header) + rest;
      assert IsStream(bytes, items, header, rest);
      StreamIsScanned(bytes, items, header, rest);
    }
    if items, header, rest :| IsStream(bytes, items, header, rest) && HeaderSize(header) == size {
      StreamIsScanned(bytes, items, header, rest);
    }
  }

  // -------------------------------------------------------------------- probe

  function Flatten(chunks: seq<Bytes>): Bytes {
    if chunks == [] then [] else Flatten(chunks[..|chunks| - 1]) + chunks[|chunks| - 1]
  }

  function Take(bytes: Bytes, limit: nat): Bytes {
    if |bytes| <= limit then bytes else bytes[..limit]
  }

  lemma TakeMore(chunks: seq<Bytes>, i: nat, limit: nat)
    requires i < |chunks|
    ensures var before := Take(Flatten(chunks[..i]), limit);
            Take(Flatten(chunks[..i + 1]), limit) == before + Take(chunks[i], limit - |before|)
  {
    assert chunks[..i + 1][..i] == chunks[..i];
  }

  lemma {:induction false} TakeEnough(chunks: seq<Bytes>, i: nat, limit: nat)
    requires i <= |chunks| && |Take(Flatten(chunks[..i]), limit)| >= limit
    ensures Take(Flatten(chunks), limit) == Take(Flatten(chunks[..i]), limit)
    decreases |chunks| - i
  {
    if i < |chunks| {
      TakeMore(chunks, i, limit);
      TakeEnough(chunks, i + 1, limit);
    } else {
      assert chunks[..i] == chunks;
    }
  }

  /** Reads chunks until there are `limit` bytes: the bounded prefix of what the source holds. */
  method ReadPrefix(chunks: seq<Bytes>, limit: nat) returns (bytes: Bytes)
    ensures bytes == Take(Flatten(chunks), limit)
  {
    bytes := [];
    for i := 0 to |chunks|
      invariant bytes == Take(Flatten(chunks[..i]), limit)
    {
      TakeMore(chunks, i, limit);
      var accepted := Take(chunks[i], limit - |bytes|);
      bytes := bytes + accepted;
      if |bytes| >= limit {
        TakeEnough(chunks, i + 1, limit);
        return;
      }
    }
    assert chunks[..|chunks|] == chunks;
  }

  /** What is found in a bounded prefix is what would be found in the whole source. */
  lemma PrefixIsEnough(bytes: Bytes, limit: nat)
    requires Scan(Take(bytes, limit)).Some?
    ensures Scan(bytes) == Scan(Take(bytes, limit))
  {
    hide Scan, HeaderSize;
    var prefix := Take(bytes, limit);
    var size := Scan(prefix).value;
    ScanIsExact(prefix, size);
    var items, header, rest :| IsStream(prefix, items, header, rest) && HeaderSize(header) == size;
    var more := bytes[|prefix|..];
    assert bytes == prefix + more;
    hide ItemsBytes, HeaderBytes;
    assert bytes == SOI + ItemsBytes(items) + HeaderBytes(header) + (rest + more);
    assert IsStream(bytes, items, header, rest + more);
    ScanIsExact(bytes, size);
  }
}
