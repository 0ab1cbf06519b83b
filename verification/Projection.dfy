/**
  Projection of stored messages onto Telegram message parts. Messages arrive in any order, live or
  from history; each part gets an ID that never changes, placed so that in a conversation a smaller
  native sequence means smaller IDs, or, where there are no sequences, in a scope a smaller order key.
  Every ingest looks only at the nearest neighbours. The theorems say exactly when that is enough.
 */
module Projection {
  import FiniteSets
  import opened MessageIds
  import opened SlotAllocator

  datatype Message = Message(conversation: int, id: int)

  /** A part is named by its message and its place in the message. */
  datatype Key = Key(message: Message, ordinal: nat)

  /**
    Order keys are named by their place in the order of the database; 0 is the empty key. `current`
    says that the part was allocated by the present scheme.
   */
  datatype Part = Part(scope: string, id: int, sequence: Option<int>, orderKey: Option<nat>, current: bool)

  type Table = map<Key, Part>

  // ------------------------------------------------------------------ queries

  /** The greatest member, as a descending query limited to one row gives it. */
  function Greatest(s: set<int>): (m: Option<int>)
    ensures m.None? <==> s == {}
    ensures m.Some? ==> m.value in s && forall x :: x in s ==> x <= m.value
  {
    if s == {} then None
    else
      FiniteSets.HasGreatest(s);
      var m :| FiniteSets.Tops(s, m);
      Some(m)
  }

  function Least(s: set<int>): (m: Option<int>)
    ensures m.None? <==> s == {}
    ensures m.Some? ==> m.value in s && forall x :: x in s ==> m.value <= x
  {
    if s == {} then None
    else
      FiniteSets.HasLeast(s);
      var m :| FiniteSets.Bottoms(s, m);
      Some(m)
  }

  /** What orders parts: native sequences within a conversation, or order keys within a scope. */
  datatype Track = Native(conversation: int) | Keyed(scope: string)

  /** The part has a place on the track. */
  predicate On(table: Table, track: Track, k: Key) {
    && k in table
    && match track
       case Native(conversation) => k.message.conversation == conversation && table[k].sequence.Some?
       case Keyed(scope) => table[k].scope == scope && table[k].orderKey.Some?
  }

  function Place(table: Table, track: Track, k: Key): int
    requires On(table, track, k)
  {
    if track.Native? then table[k].sequence.value else table[k].orderKey.value
  }

  function Places(table: Table, track: Track): set<int> {
    set k | k in table && On(table, track, k) :: Place(table, track, k)
  }

  /** The IDs of the parts at one place. */
  function IdsAt(table: Table, track: Track, place: int): set<int> {
    set k | k in table && On(table, track, k) && Place(table, track, k) == place :: table[k].id
  }

  function Below(all: set<int>, place: int): set<int> {
    set p | p in all && p < place
  }

  function Above(all: set<int>, place: int): set<int> {
    set p | p in all && p > place
  }

  /** The bounds set by the parts at the nearest smaller and the nearest greater place. */
  function NeighbourBounds(table: Table, track: Track, place: int): Bounds {
    var all := Places(table, track);
    var previous := Greatest(Below(all, place));
    var next := Least(Above(all, place));
    Bounds(
      if previous.None? then None else Greatest(IdsAt(table, track, previous.value)),
      if next.None? then None else Least(IdsAt(table, track, next.value)))
  }

  /** The bounds of an order key as they are read: neighbours with the empty key pass for none. */
  function OrderKeyBounds(table: Table, scope: string, orderKey: nat): Bounds {
    var all := Places(table, Keyed(scope));
    var previous := Greatest(Below(all, orderKey));
    var bounds := NeighbourBounds(table, Keyed(scope), orderKey);
    if previous == Some(0) then bounds.(lower := None) else bounds
  }

  // ----------------------------------------------------------------- ordering

  predicate Precedes(table: Table, track: Track, k: Key, l: Key) {
    On(table, track, k) && On(table, track, l) && Place(table, track, k) < Place(table, track, l)
  }

  /** On a track, parts at a smaller place have smaller IDs. */
  ghost predicate OrderedOn(table: Table, track: Track) {
    forall k, l :: k in table && l in table && Precedes(table, track, k, l) ==> table[k].id < table[l].id
  }

  /** In every conversation a smaller native sequence has smaller IDs on all its parts. */
  ghost predicate Ordered(table: Table) {
    forall conversation: int :: OrderedOn(table, Native(conversation))
  }

  /** In every scope a smaller order key has smaller IDs on all its parts. */
  ghost predicate KeyOrdered(table: Table) {
    forall scope: string :: OrderedOn(table, Keyed(scope))
  }

  predicate Between(bounds: Bounds, id: int) {
    && (bounds.lower.Some? ==> bounds.lower.value < id)
    && (bounds.upper.Some? ==> id < bounds.upper.value)
  }

  /** The parts of one message leave the table. */
  function Without(table: Table, message: Message): Table {
    map k | k in table && k.message != message :: table[k]
  }

  /** All parts of a message are at one place of the track. */
  ghost predicate InStep(table: Table, message: Message, track: Track, place: int) {
    forall k :: k in table && k.message == message ==> On(table, track, k) && Place(table, track, k) == place
  }

  /** If the other parts are ordered, the nearest neighbours bound all of them. */
  lemma NearestBoundAll(table: Table, message: Message, track: Track, place: int, k: Key)
    requires OrderedOn(Without(table, message), track) && InStep(table, message, track, place)
    requires On(table, track, k)
    ensures var bounds := NeighbourBounds(table, track, place);
            && (Place(table, track, k) < place ==> bounds.lower.Some? && table[k].id <= bounds.lower.value)
            && (Place(table, track, k) > place ==> bounds.upper.Some? && bounds.upper.value <= table[k].id)
  {
    var others, all, at := Without(table, message), Places(table, track), Place(table, track, k);
    assert at in all;
    if at < place {
      assert at in Below(all, place);
      var previous := Greatest(Below(all, place)).value;
      var l :| l in table && On(table, track, l) && Place(table, track, l) == previous;
      assert table[l].id in IdsAt(table, track, previous);
      assert at == previous ==> table[k].id in IdsAt(table, track, previous);
      assert at < previous ==> Precedes(others, track, k, l);
    } else if at > place {
      assert at in Above(all, place);
      var next := Least(Above(all, place)).value;
      var l :| l in table && On(table, track, l) && Place(table, track, l) == next;
      assert table[l].id in IdsAt(table, track, next);
      assert at == next ==> table[k].id in IdsAt(table, track, next);
      assert at > next ==> Precedes(others, track, l, k);
    }
  }

  /** The bounds are IDs of parts at a smaller and a greater place. */
  lemma BoundsAreNeighbours(table: Table, track: Track, place: int) returns (previous: Key, next: Key)
    ensures var bounds := NeighbourBounds(table, track, place);
            && (bounds.lower.Some? ==>
                  On(table, track, previous) && Place(table, track, previous) < place &&
                  table[previous].id == bounds.lower.value)
            && (bounds.upper.Some? ==>
                  On(table, track, next) && Place(table, track, next) > place &&
                  table[next].id == bounds.upper.value)
  {
    var bounds, all := NeighbourBounds(table, track, place), Places(table, track);
    previous, next := Key(Message(0, 0), 0), Key(Message(0, 0), 0);
    if bounds.lower.Some? {
      var p := Greatest(Below(all, place)).value;
      previous :| previous in table && On(table, track, previous) &&
        Place(table, track, previous) == p && table[previous].id == bounds.lower.value;
    }
    if bounds.upper.Some? {
      var n := Least(Above(all, place)).value;
      next :| next in table && On(table, track, next) &&
        Place(table, track, next) == n && table[next].id == bounds.upper.value;
    }
  }

  /** Looking at the nearest neighbours is enough, in both directions. */
  lemma NeighboursDecide(table: Table, message: Message, track: Track, place: int)
    requires OrderedOn(Without(table, message), track) && InStep(table, message, track, place)
    ensures OrderedOn(table, track) <==>
              forall k :: k in table && k.message == message ==>
                Between(NeighbourBounds(table, track, place), table[k].id)
  {
    hide NeighbourBounds, Place;
    var bounds, others := NeighbourBounds(table, track, place), Without(table, message);
    if OrderedOn(table, track) {
      var previous, next := BoundsAreNeighbours(table, track, place);
      forall k | k in table && k.message == message ensures Between(bounds, table[k].id) {
        assert bounds.lower.Some? ==> Precedes(table, track, previous, k);
        assert bounds.upper.Some? ==> Precedes(table, track, k, next);
      }
    }
    if forall k :: k in table && k.message == message ==> Between(bounds, table[k].id) {
      forall k, l | k in table && l in table && Precedes(table, track, k, l) ensures table[k].id < table[l].id {
        if k.message == message {
          NearestBoundAll(table, message, track, place, l);
        } else if l.message == message {
          NearestBoundAll(table, message, track, place, k);
        } else {
          SamePlaces(table, message, track, k);
          SamePlaces(table, message, track, l);
          assert Precedes(others, track, k, l);
        }
      }
    }
  }

  lemma SamePlaces(table: Table, message: Message, track: Track, k: Key)
    requires k.message != message && On(table, track, k)
    ensures On(Without(table, message), track, k) && Place(Without(table, message), track, k) == Place(table, track, k)
  {
  }

  // ------------------------------------------------------------------- ingest

  datatype Request = Request(
    message: Message, scope: string, timestamp: int, sequence: Option<int>, orderKey: Option<nat>, live: bool, count: nat)

  /** The ordinals of a message are 0, 1, 2 and so on. */
  ghost predicate Dense(table: Table) {
    forall k, o: nat :: k in table && o < k.ordinal ==> Key(k.message, o) in table
  }

  function Ordinals(table: Table, message: Message): set<int> {
    set k | k in table && k.message == message :: k.ordinal
  }

  function PartCount(table: Table, message: Message): nat {
    var last := Greatest(Ordinals(table, message));
    if last.None? || last.value < 0 then 0 else last.value + 1
  }

  lemma PartCountIs(table: Table, message: Message, o: nat)
    requires Dense(table)
    ensures Key(message, o) in table <==> o < PartCount(table, message)
  {
    if Key(message, o) in table {
      assert o in Ordinals(table, message);
    }
    if o < PartCount(table, message) {
      var last := Greatest(Ordinals(table, message)).value;
      var k :| k in table && k.message == message && k.ordinal == last;
      assert o == last || Key(k.message, o) in table;
    }
  }

  predicate RequiresMigration(table: Table, q: Request) {
    exists k :: k in table && k.message == q.message && (table[k].scope != q.scope || !table[k].current)
  }

  /** The parts that stay: none when the message moves to another scope or scheme, else the first `count`. */
  predicate Stays(table: Table, q: Request, k: Key) {
    k.message == q.message ==> !RequiresMigration(table, q) && k.ordinal < q.count
  }

  /** A part with its native sequence and its order key brought up to date. */
  function Renewed(part: Part, q: Request): Part {
    part.(
      sequence := if q.sequence.Some? then q.sequence else part.sequence,
      orderKey := if q.orderKey.Some? then q.orderKey else part.orderKey)
  }

  /** The parts that stay, those of the message renewed in place. */
  function Kept(table: Table, q: Request): Table {
    map k | k in table && Stays(table, q, k) :: if k.message == q.message then Renewed(table[k], q) else table[k]
  }

  predicate IsNew(q: Request, first: nat, ids: seq<int>, k: Key) {
    k.message == q.message && first <= k.ordinal < first + |ids|
  }

  function NewPart(q: Request, id: int): Part {
    Part(q.scope, id, q.sequence, q.orderKey, true)
  }

  function Extended(table: Table, q: Request, first: nat, ids: seq<int>): (t: Table)
    ensures forall k :: k in t <==> k in table || IsNew(q, first, ids, k)
    ensures forall k :: k in t ==>
              t[k] == if IsNew(q, first, ids, k) then NewPart(q, ids[k.ordinal - first]) else table[k]
  {
    table + map o: nat | first <= o < first + |ids| :: Key(q.message, o) := NewPart(q, ids[o - first])
  }

  function Occupied(table: Table, scope: string): set<int> {
    set k | k in table && table[k].scope == scope :: table[k].id
  }

  function BoundsFor(table: Table, q: Request): Bounds {
    if q.sequence.Some? then NeighbourBounds(table, Native(q.message.conversation), q.sequence.value)
    else if q.orderKey.Some? then OrderKeyBounds(table, q.scope, q.orderKey.value)
    else UNBOUNDED
  }

  function ExistingIds(table: Table, message: Message): (ids: seq<int>)
    requires forall o: nat :: o < PartCount(table, message) ==> Key(message, o) in table
    ensures |ids| == PartCount(table, message)
    ensures forall o :: 0 <= o < |ids| ==> ids[o] == table[Key(message, o)].id
  {
    seq(PartCount(table, message), o requires 0 <= o < PartCount(table, message) => table[Key(message, o)].id)
  }

  function Missing(table: Table, q: Request): int {
    q.count - PartCount(Kept(table, q), q.message)
  }

  /** What a successful ingest leaves behind. */
  ghost predicate Ingested(before: Table, q: Request, after: Table, added: seq<int>) {
    var kept := Kept(before, q);
    var n := PartCount(kept, q.message);
    && n <= q.count && |added| == q.count - n
    && after == Extended(kept, q, n, added)
    && (n < q.count ==> Allocated(Occupied(kept, q.scope), [], BoundsFor(kept, q), |added|, added))
  }

  lemma KeptShape(before: Table, q: Request)
    requires Dense(before)
    ensures Dense(Kept(before, q)) && Without(Kept(before, q), q.message) == Without(before, q.message)
    ensures PartCount(Kept(before, q), q.message) <= q.count
  {
    var kept := Kept(before, q);
    PartCountIs(kept, q.message, q.count);
  }

  lemma ExtendedShape(kept: Table, q: Request, ids: seq<int>)
    requires Dense(kept)
    ensures var n := PartCount(kept, q.message);
            var after := Extended(kept, q, n, ids);
            && Dense(after) && Without(after, q.message) == Without(kept, q.message)
            && (forall k :: IsNew(q, n, ids, k) ==> k in after && k !in kept)
  {
    hide PartCount, Extended, NewPart;
    forall k: Key | k.message == q.message ensures k in kept <==> k.ordinal < PartCount(kept, q.message) {
      PartCountIs(kept, q.message, k.ordinal);
    }
  }

  /** The place a request gives the parts of its message on a track. */
  predicate PutsAt(q: Request, track: Track, place: int) {
    match track
    case Native(conversation) => conversation == q.message.conversation && q.sequence == Some(place)
    case Keyed(scope) => scope == q.scope && q.orderKey.Some? && q.orderKey.value == place
  }

  lemma KeptInStep(before: Table, q: Request, track: Track, place: int)
    requires PutsAt(q, track, place)
    ensures InStep(Kept(before, q), q.message, track, place)
  {
  }

  lemma ExtendedInStep(kept: Table, q: Request, first: nat, ids: seq<int>, track: Track, place: int)
    requires PutsAt(q, track, place) && InStep(kept, q.message, track, place)
    ensures InStep(Extended(kept, q, first, ids), q.message, track, place)
  {
    hide Extended;
    var after := Extended(kept, q, first, ids);
    forall k | k in after && k.message == q.message ensures On(after, track, k) && Place(after, track, k) == place {
      assert IsNew(q, first, ids, k) || k in kept;
    }
  }

  lemma SameBounds(a: Table, b: Table, message: Message, track: Track, place: int)
    requires Without(a, message) == Without(b, message)
    requires InStep(a, message, track, place) && InStep(b, message, track, place)
    ensures NeighbourBounds(a, track, place) == NeighbourBounds(b, track, place)
  {
    forall k: Key | k.message != message ensures (k in a <==> k in b) && (k in a ==> a[k] == b[k]) {
      assert k in a <==> k in Without(a, message);
      assert k in b <==> k in Without(b, message);
    }
    assert Below(Places(a, track), place) == Below(Places(b, track), place);
    assert Above(Places(a, track), place) == Above(Places(b, track), place);
    forall p | p != place ensures IdsAt(a, track, p) == IdsAt(b, track, p) {
    }
  }

  /** The parts that stay fit between their neighbours, and the gap has room for the others. */
  ghost predicate FitsOn(before: Table, q: Request, track: Track, place: int) {
    var kept := Kept(before, q);
    var bounds := NeighbourBounds(kept, track, place);
    && (forall k :: k in kept && k.message == q.message ==> Between(bounds, kept[k].id))
    && (Missing(before, q) > 0 ==> |Free(Occupied(kept, q.scope), [], bounds)| >= Missing(before, q))
  }

  ghost predicate Fits(before: Table, q: Request) {
    q.sequence.Some? ==> FitsOn(before, q, Native(q.message.conversation), q.sequence.value)
  }

  ghost predicate FitsByKey(before: Table, q: Request) {
    q.orderKey.Some? ==> FitsOn(before, q, Keyed(q.scope), q.orderKey.value)
  }

  /** All parts of the message end up between its neighbours. */
  ghost predicate LandsOn(before: Table, q: Request, added: seq<int>, track: Track, place: int) {
    var kept := Kept(before, q);
    var bounds := NeighbourBounds(kept, track, place);
    && (forall k :: k in kept && k.message == q.message ==> Between(bounds, kept[k].id))
    && (forall i :: 0 <= i < |added| ==> Between(bounds, added[i]))
  }

  ghost predicate LandsByKey(before: Table, q: Request, added: seq<int>) {
    q.orderKey.Some? ==> LandsOn(before, q, added, Keyed(q.scope), q.orderKey.value)
  }

  /** New IDs are in bounds exactly when the bounds have enough free ones. */
  lemma RoomDecides(occupied: set<int>, bounds: Bounds, ids: seq<int>)
    requires Allocated(occupied, [], bounds, |ids|, ids)
    ensures (forall i :: 0 <= i < |ids| ==> Between(bounds, ids[i])) <==> |Free(occupied, [], bounds)| >= |ids|
  {
    var free := Free(occupied, [], bounds);
    if |free| >= |ids| {
      forall i | 0 <= i < |ids| ensures Between(bounds, ids[i]) {
        assert ids[i] in ids;
      }
    } else {
      DistinctCount(ids);
      assert exists id :: id in ids && id !in free by {
        if forall id :: id in ids ==> id in free {
          SubsetCount(Elements(ids), free);
        }
      }
      var id :| id in ids && id !in free;
      assert id in Free(occupied, [], UNBOUNDED);
      var i :| 0 <= i < |ids| && ids[i] == id;
    }
  }

  lemma ParallelOrdered(before: Table, after: Table, message: Message, track: Track)
    requires OrderedOn(before, track) && Without(after, message) == Without(before, message)
    ensures OrderedOn(Without(after, message), track)
  {
    var others := Without(before, message);
    forall k, l | k in others && l in others && Precedes(others, track, k, l) ensures others[k].id < others[l].id {
      assert Precedes(before, track, k, l);
    }
  }

  lemma AllBetween(kept: Table, q: Request, added: seq<int>, bounds: Bounds)
    requires Dense(kept)
    ensures var after := Extended(kept, q, PartCount(kept, q.message), added);
            (forall k :: k in after && k.message == q.message ==> Between(bounds, after[k].id)) <==>
            (forall k :: k in kept && k.message == q.message ==> Between(bounds, kept[k].id)) &&
            (forall i :: 0 <= i < |added| ==> Between(bounds, added[i]))
  {
    hide PartCount, Extended, Between;
    var n := PartCount(kept, q.message);
    var after := Extended(kept, q, n, added);
    ExtendedShape(kept, q, added);
    assert forall k :: k in kept ==> k in after && after[k] == kept[k];
    if forall k :: k in after && k.message == q.message ==> Between(bounds, after[k].id) {
      forall i | 0 <= i < |added| ensures Between(bounds, added[i]) {
        var k := Key(q.message, n + i);
        assert IsNew(q, n, added, k) && k in after && after[k].id == added[i];
      }
    }
  }

  /** Wherever its IDs were looked for, an ingest keeps a track ordered exactly when all of them land between the neighbours. */
  lemma IngestDecidesTrack(before: Table, q: Request, after: Table, added: seq<int>, track: Track, place: int)
    requires Dense(before) && OrderedOn(before, track) && Ingested(before, q, after, added) && PutsAt(q, track, place)
    ensures OrderedOn(after, track) <==> LandsOn(before, q, added, track, place)
  {
    hide PartCount, OrderedOn, NeighbourBounds, BoundsFor, Extended, Without, Allocated, Free, InStep, Dense, PutsAt;
    var kept := Kept(before, q);
    KeptShape(before, q);
    ExtendedShape(kept, q, added);
    KeptInStep(before, q, track, place);
    ExtendedInStep(kept, q, PartCount(kept, q.message), added, track, place);
    ParallelOrdered(before, after, q.message, track);
    NeighboursDecide(after, q.message, track, place);
    SameBounds(kept, after, q.message, track, place);
    AllBetween(kept, q, added, NeighbourBounds(kept, track, place));
  }

  /** Where the neighbours of a track set the bounds, landing between them is a matter of room. */
  lemma LandingNeedsRoom(before: Table, q: Request, after: Table, added: seq<int>, track: Track, place: int)
    requires Ingested(before, q, after, added)
    requires BoundsFor(Kept(before, q), q) == NeighbourBounds(Kept(before, q), track, place)
    ensures LandsOn(before, q, added, track, place) <==> FitsOn(before, q, track, place)
  {
    hide PartCount, NeighbourBounds, BoundsFor, Extended, Allocated, Free;
    var kept := Kept(before, q);
    if |added| > 0 {
      RoomDecides(Occupied(kept, q.scope), NeighbourBounds(kept, track, place), added);
    }
  }

  /** An ingest keeps a track ordered on which it looks for neighbours exactly when its request fits. */
  lemma IngestKeepsTrack(before: Table, q: Request, after: Table, added: seq<int>, track: Track, place: int)
    requires Dense(before) && OrderedOn(before, track) && Ingested(before, q, after, added)
    requires PutsAt(q, track, place) && BoundsFor(Kept(before, q), q) == NeighbourBounds(Kept(before, q), track, place)
    ensures OrderedOn(after, track) <==> FitsOn(before, q, track, place)
  {
    hide *;
    IngestDecidesTrack(before, q, after, added, track, place);
    LandingNeedsRoom(before, q, after, added, track, place);
  }

  /** Where none of the parts of the message has a place, an ingest changes nothing of the order. */
  lemma IngestLeavesTrack(before: Table, q: Request, after: Table, added: seq<int>, track: Track)
    requires OrderedOn(before, track) && Ingested(before, q, after, added)
    requires match track
             case Native(conversation) => conversation != q.message.conversation || q.sequence.None?
             case Keyed(scope) => scope != q.scope || q.orderKey.None?
    ensures OrderedOn(after, track)
  {
    hide PartCount, Extended, Allocated, Occupied, BoundsFor;
    forall k | k in after && On(after, track, k) ensures On(before, track, k) && Place(before, track, k) == Place(after, track, k)
      ensures before[k].id == after[k].id
    {
    }
    forall k, l | k in after && l in after && Precedes(after, track, k, l) ensures after[k].id < after[l].id {
      assert Precedes(before, track, k, l);
    }
  }

  /** An ingest keeps the conversations ordered exactly when its request fits. */
  lemma IngestKeepsOrder(before: Table, q: Request, after: Table, added: seq<int>)
    requires Dense(before) && Ordered(before) && Ingested(before, q, after, added)
    ensures Ordered(after) <==> Fits(before, q)
  {
    hide OrderedOn, Ingested, FitsOn, NeighbourBounds, Dense;
    var own := Native(q.message.conversation);
    forall conversation: int | conversation != q.message.conversation || q.sequence.None?
      ensures OrderedOn(after, Native(conversation))
    {
      IngestLeavesTrack(before, q, after, added, Native(conversation));
    }
    if q.sequence.Some? {
      IngestKeepsTrack(before, q, after, added, own, q.sequence.value);
      assert Ordered(after) <==> OrderedOn(after, own);
    }
  }

  /** The nearest smaller order key is not the empty one, which would pass for no neighbour. */
  ghost predicate SeesNeighbour(before: Table, q: Request) {
    q.orderKey.Some? ==> Greatest(Below(Places(Kept(before, q), Keyed(q.scope)), q.orderKey.value)) != Some(0)
  }

  /** The bounds read for an order key are those of its neighbours exactly when the nearest smaller key is not empty. */
  lemma KeysAreNeighbours(before: Table, q: Request)
    requires q.orderKey.Some?
    ensures var kept := Kept(before, q);
            OrderKeyBounds(kept, q.scope, q.orderKey.value) == NeighbourBounds(kept, Keyed(q.scope), q.orderKey.value) <==>
            SeesNeighbour(before, q)
  {
    hide Kept;
    var kept, track := Kept(before, q), Keyed(q.scope);
    var previous := Greatest(Below(Places(kept, track), q.orderKey.value));
    if previous == Some(0) {
      var l :| l in kept && On(kept, track, l) && Place(kept, track, l) == 0;
      assert kept[l].id in IdsAt(kept, track, 0);
    }
  }

  /** An ingest keeps the scopes ordered by key exactly when all its IDs land between the neighbours by key. */
  lemma IngestDecidesKeyOrder(before: Table, q: Request, after: Table, added: seq<int>)
    requires Dense(before) && KeyOrdered(before) && Ingested(before, q, after, added)
    ensures KeyOrdered(after) <==> LandsByKey(before, q, added)
  {
    hide OrderedOn, Ingested, LandsOn, Dense;
    var own := Keyed(q.scope);
    forall scope: string | scope != q.scope || q.orderKey.None? ensures OrderedOn(after, Keyed(scope)) {
      IngestLeavesTrack(before, q, after, added, Keyed(scope));
    }
    if q.orderKey.Some? {
      IngestDecidesTrack(before, q, after, added, own, q.orderKey.value);
      assert KeyOrdered(after) <==> OrderedOn(after, own);
    }
  }

  /** A request placed by its order key keeps the scopes ordered exactly when it fits, if its nearest smaller key is not empty. */
  lemma IngestKeepsKeyOrder(before: Table, q: Request, after: Table, added: seq<int>)
    requires Dense(before) && KeyOrdered(before) && Ingested(before, q, after, added)
    requires q.sequence.None? && SeesNeighbour(before, q)
    ensures KeyOrdered(after) <==> FitsByKey(before, q)
  {
    hide Ingested, Dense, KeyOrdered, LandsOn, FitsOn, NeighbourBounds, OrderKeyBounds, SeesNeighbour;
    IngestDecidesKeyOrder(before, q, after, added);
    if q.orderKey.Some? {
      KeysAreNeighbours(before, q);
      LandingNeedsRoom(before, q, after, added, Keyed(q.scope), q.orderKey.value);
    }
  }

  /** The IDs an allocation may draw from: the free ones in bounds if they are enough, else all of the scope. */
  ghost function Pool(table: Table, q: Request, missing: int): set<int> {
    var free := Free(Occupied(table, q.scope), [], BoundsFor(table, q));
    if |free| >= missing then free else Free(Occupied(table, q.scope), [], UNBOUNDED)
  }

  /** The parts that stay lie between the neighbours by key, and so does every ID the others may get. */
  ghost predicate SafeByKey(before: Table, q: Request) {
    q.orderKey.Some? ==>
      var kept := Kept(before, q);
      var bounds := NeighbourBounds(kept, Keyed(q.scope), q.orderKey.value);
      && (forall k :: k in kept && k.message == q.message ==> Between(bounds, kept[k].id))
      && (Missing(before, q) > 0 ==> forall id :: id in Pool(kept, q, Missing(before, q)) ==> Between(bounds, id))
  }

  /** A choice of `n` IDs with some of them given. */
  lemma {:induction false} Choose(given: set<int>, all: set<int>, n: nat) returns (ids: seq<int>)
    requires given <= all && |given| <= n <= |all|
    ensures |ids| == n && Ascending(ids)
    ensures (forall id :: id in given ==> id in ids) && (forall id :: id in ids ==> id in all)
    decreases n
  {
    if n == 0 {
      ids := [];
    } else {
      var x := FiniteSets.Member(if given == {} then all else given);
      FiniteSets.WithoutOne(given, x);
      FiniteSets.WithoutOne(all, x);
      var rest := Choose(given - {x}, all - {x}, n - 1);
      ids := Insert(x, rest);
    }
  }

  /** Every ID of the pool can be one of those allocated. */
  lemma PoolIsUsed(table: Table, q: Request, missing: nat, id: int) returns (ids: seq<int>)
    requires missing > 0 && |Free(Occupied(table, q.scope), [], UNBOUNDED)| >= missing && id in Pool(table, q, missing)
    ensures Allocated(Occupied(table, q.scope), [], BoundsFor(table, q), missing, ids) && id in ids
  {
    hide Occupied, BoundsFor;
    var all := Free(Occupied(table, q.scope), [], UNBOUNDED);
    var free := Free(Occupied(table, q.scope), [], BoundsFor(table, q));
    assert free <= all;
    if |free| >= missing {
      ids := Choose({id}, free, missing);
    } else {
      assert |free + {id}| <= |free| + 1;
      ids := Choose(free + {id}, all, missing);
    }
  }

  /** Allocated IDs come from the pool. */
  lemma DrawnFromPool(table: Table, q: Request, ids: seq<int>, i: nat)
    requires Allocated(Occupied(table, q.scope), [], BoundsFor(table, q), |ids|, ids) && i < |ids|
    ensures ids[i] in Pool(table, q, |ids|)
  {
    assert ids[i] in ids;
  }

  /**
    Whatever places it, native sequence or order key, a request keeps the scopes ordered by key with every
    allocation that is open to it exactly when it is safe.
   */
  lemma SafetyDecidesKeyOrder(before: Table, q: Request)
    requires Dense(before) && KeyOrdered(before)
    requires |Free(Occupied(Kept(before, q), q.scope), [], UNBOUNDED)| >= Missing(before, q)
    ensures SafeByKey(before, q) <==>
              forall after, added :: Ingested(before, q, after, added) ==> KeyOrdered(after)
  {
    hide Dense, KeyOrdered, Allocated, NeighbourBounds, BoundsFor, Occupied, Extended, Free, Pool, PartCount;
    var kept, missing := Kept(before, q), Missing(before, q);
    KeptShape(before, q);
    forall after, added | Ingested(before, q, after, added) ensures KeyOrdered(after) <==> LandsByKey(before, q, added) {
      IngestDecidesKeyOrder(before, q, after, added);
    }
    if SafeByKey(before, q) {
      forall after, added | Ingested(before, q, after, added) ensures KeyOrdered(after) {
        SafeLands(before, q, after, added);
      }
    } else {
      var after, added := UnsafeFails(before, q);
      assert !KeyOrdered(after);
    }
  }

  lemma SafeLands(before: Table, q: Request, after: Table, added: seq<int>)
    requires SafeByKey(before, q) && Ingested(before, q, after, added)
    ensures LandsByKey(before, q, added)
  {
    hide Allocated, NeighbourBounds, BoundsFor, Occupied, Extended, Pool, PartCount;
    forall i | 0 <= i < |added| ensures added[i] in Pool(Kept(before, q), q, |added|) {
      DrawnFromPool(Kept(before, q), q, added, i);
    }
  }

  lemma PoolHasMember(table: Table, q: Request, missing: nat)
    requires missing > 0 && |Free(Occupied(table, q.scope), [], UNBOUNDED)| >= missing
    ensures Pool(table, q, missing) != {}
  {
  }

  lemma UnsafeFails(before: Table, q: Request) returns (after: Table, added: seq<int>)
    requires Dense(before) && !SafeByKey(before, q)
    requires |Free(Occupied(Kept(before, q), q.scope), [], UNBOUNDED)| >= Missing(before, q)
    ensures Ingested(before, q, after, added) && !LandsByKey(before, q, added)
  {
    hide Dense, NeighbourBounds, BoundsFor, Occupied, Free, PartCount, Between, Extended;
    var kept, missing := Kept(before, q), Missing(before, q);
    KeptShape(before, q);
    var bounds := NeighbourBounds(kept, Keyed(q.scope), q.orderKey.value);
    added := [];
    if missing > 0 {
      PoolHasMember(kept, q, missing);
      var id := FiniteSets.Member(Pool(kept, q, missing));
      if bad :| bad in Pool(kept, q, missing) && !Between(bounds, bad) {
        id := bad;
      }
      added := PoolIsUsed(kept, q, missing, id);
      var i :| 0 <= i < |added| && added[i] == id;
    }
    after := Extended(kept, q, PartCount(kept, q.message), added);
  }

  /** No part that stays gets another place on the track. */
  ghost predicate NotMoved(before: Table, q: Request, track: Track) {
    forall k :: k in before && k.message == q.message && Stays(before, q, k) ==>
      && On(before, track, k) && On(Kept(before, q), track, k)
      && Place(before, track, k) == Place(Kept(before, q), track, k)
  }

  /** Unless an issued part gets another place, the only way to lose the order is a gap that is too small. */
  lemma OnlyTheGapMatters(before: Table, q: Request, track: Track, place: int)
    requires Dense(before) && OrderedOn(before, track) && PutsAt(q, track, place) && NotMoved(before, q, track)
    ensures var kept := Kept(before, q);
            FitsOn(before, q, track, place) <==>
              (Missing(before, q) > 0 ==>
                 |Free(Occupied(kept, q.scope), [], NeighbourBounds(kept, track, place))| >= Missing(before, q))
  {
    hide PartCount, NeighbourBounds;
    var kept := Kept(before, q);
    KeptShape(before, q);
    KeptInStep(before, q, track, place);
    assert OrderedOn(kept, track) by {
      forall k | k in kept && On(kept, track, k)
        ensures On(before, track, k) && Place(before, track, k) == Place(kept, track, k) && kept[k].id == before[k].id
      {
      }
      assert forall k, l :: k in kept && l in kept && Precedes(kept, track, k, l) ==> Precedes(before, track, k, l);
    }
    ParallelOrdered(before, kept, q.message, track);
    NeighboursDecide(kept, q.message, track, place);
  }

  // -------------------------------------------------- identity of issued parts

  /** No two parts of a scope have the same ID, and every ID is one a bucket can hold. */
  ghost predicate IdsUnique(table: Table) {
    && (forall k, l :: k in table && l in table && k != l && table[k].scope == table[l].scope ==> table[k].id != table[l].id)
    && (forall k :: k in table ==> SLOTS <= table[k].id <= MAX_ID)
  }

  lemma FreshIdsStayUnique(kept: Table, q: Request, ids: seq<int>)
    requires Dense(kept) && IdsUnique(kept) && Ascending(ids)
    requires forall i :: 0 <= i < |ids| ==> SLOTS <= ids[i] <= MAX_ID && ids[i] !in Occupied(kept, q.scope)
    ensures IdsUnique(Extended(kept, q, PartCount(kept, q.message), ids))
  {
    hide PartCount, Extended, Dense;
    var n := PartCount(kept, q.message);
    var after := Extended(kept, q, n, ids);
    ExtendedShape(kept, q, ids);
    forall k | k in kept && kept[k].scope == q.scope ensures kept[k].id in Occupied(kept, q.scope) {
    }
    forall k, l | k in after && l in after && k != l && after[k].scope == after[l].scope ensures after[k].id != after[l].id {
      if IsNew(q, n, ids, k) && IsNew(q, n, ids, l) {
        assert k.ordinal != l.ordinal;
      }
    }
  }

  lemma IngestKeepsIdsUnique(before: Table, q: Request, after: Table, added: seq<int>)
    requires Dense(before) && IdsUnique(before) && Ingested(before, q, after, added)
    ensures IdsUnique(after)
  {
    hide PartCount, Extended, BoundsFor, Dense;
    var kept := Kept(before, q);
    KeptShape(before, q);
    assert forall k :: k in kept ==> k in before && kept[k].id == before[k].id && kept[k].scope == before[k].scope;
    assert IdsUnique(kept);
    forall i | 0 <= i < |added| ensures SLOTS <= added[i] <= MAX_ID && added[i] !in Occupied(kept, q.scope) {
      assert added[i] in added;
      assert added[i] in Free(Occupied(kept, q.scope), [], UNBOUNDED);
    }
    FreshIdsStayUnique(kept, q, added);
  }

  /** An issued part keeps its ID and scope for as long as it stays; only parts of the message itself can go. */
  lemma IssuedIdsNeverChange(before: Table, q: Request, after: Table, added: seq<int>, k: Key)
    requires Dense(before) && Ingested(before, q, after, added) && k in before
    ensures Stays(before, q, k) ==> k in after && after[k].id == before[k].id && after[k].scope == before[k].scope
    ensures k.message != q.message ==> k in after && after[k] == before[k]
  {
    hide PartCount, Extended;
    KeptShape(before, q);
    ExtendedShape(Kept(before, q), q, added);
  }

  /** After an ingest the message has exactly the requested parts, all in its scope and of the present scheme. */
  lemma IngestCompletes(before: Table, q: Request, after: Table, added: seq<int>, o: nat)
    requires Dense(before) && Ingested(before, q, after, added)
    ensures Dense(after)
    ensures Key(q.message, o) in after <==> o < q.count
    ensures o < q.count ==>
              after[Key(q.message, o)].scope == q.scope && after[Key(q.message, o)].current &&
              (q.sequence.Some? ==> after[Key(q.message, o)].sequence == q.sequence) &&
              (q.orderKey.Some? ==> after[Key(q.message, o)].orderKey == q.orderKey)
  {
    hide PartCount, Extended;
    var kept := Kept(before, q);
    KeptShape(before, q);
    ExtendedShape(kept, q, added);
    PartCountIs(kept, q.message, o);
    assert IsNew(q, PartCount(kept, q.message), added, Key(q.message, o)) || Key(q.message, o) in kept || o >= q.count;
  }

  /** All parts of the message are in the scope of the request and of the present scheme. */
  ghost predicate IsSettled(table: Table, q: Request) {
    forall k :: k in table && k.message == q.message ==> table[k].scope == q.scope && table[k].current
  }

  lemma KeptPart(before: Table, q: Request, k: Key)
    requires k.message == q.message
    ensures k in Kept(before, q) <==> k in before && IsSettled(before, q) && k.ordinal < q.count
    ensures k in Kept(before, q) ==>
              var part := Kept(before, q)[k];
              && part.id == before[k].id && part.scope == q.scope && part.current
              && part.sequence == (if q.sequence.Some? then q.sequence else before[k].sequence)
              && part.orderKey == (if q.orderKey.Some? then q.orderKey else before[k].orderKey)
  {
  }

  /**
    The whole table after an ingest: the parts of a message that was settled stay with their IDs, up to the
    requested number, and learn what the request says of their place; the others of the message are new, with the
    added IDs in order; nothing else changes.
   */
  lemma PartsAfterIngest(before: Table, q: Request, after: Table, added: seq<int>, k: Key)
    requires Dense(before) && Ingested(before, q, after, added)
    ensures k in after <==> if k.message == q.message then k.ordinal < q.count else k in before
    ensures k in after && k.message != q.message ==> after[k] == before[k]
    ensures k in after && k.message == q.message && k in before && IsSettled(before, q) ==>
              after[k] == Part(
                q.scope, before[k].id, if q.sequence.Some? then q.sequence else before[k].sequence,
                if q.orderKey.Some? then q.orderKey else before[k].orderKey, true)
    ensures k in after && k.message == q.message && !(k in before && IsSettled(before, q)) ==>
              var n := q.count - |added|;
              n <= k.ordinal && after[k] == Part(q.scope, added[k.ordinal - n], q.sequence, q.orderKey, true)
  {
    var kept := Kept(before, q);
    IngestCompletes(before, q, after, added, k.ordinal);
    hide PartCount, Dense, Allocated, BoundsFor, Occupied, IsSettled, Kept, Extended, Ingested;
    if k.message == q.message {
      assert k == Key(q.message, k.ordinal);
      KeptPart(before, q, k);
      if k in after {
        OwnPartIs(before, q, after, added, k);
      }
    } else {
      OtherPartsStay(before, q, after, added, k);
    }
  }

  lemma OwnPartIs(before: Table, q: Request, after: Table, added: seq<int>, k: Key)
    requires Dense(before) && Ingested(before, q, after, added) && k.message == q.message && k in after
    ensures k in Kept(before, q) ==> after[k] == Kept(before, q)[k]
    ensures k !in Kept(before, q) ==>
              var n := q.count - |added|;
              n <= k.ordinal < n + |added| && after[k] == Part(q.scope, added[k.ordinal - n], q.sequence, q.orderKey, true)
  {
    KeptShape(before, q);
    PartCountIs(Kept(before, q), q.message, k.ordinal);
    assert k == Key(q.message, k.ordinal);
    hide PartCount, Dense, Allocated, BoundsFor, Occupied, Kept;
  }

  lemma OtherPartsStay(before: Table, q: Request, after: Table, added: seq<int>, k: Key)
    requires Ingested(before, q, after, added) && k.message != q.message
    ensures (k in after <==> k in before) && (k in after ==> after[k] == before[k])
  {
    hide PartCount, Extended, Allocated, BoundsFor, Occupied;
  }

  // --------------------------------------------------------------------- runs

  /** A request either changes the table as specified or, when it fails, not at all. */
  ghost predicate Step(before: Table, q: Request, after: Table) {
    after == before || exists added :: Ingested(before, q, after, added)
  }

  ghost predicate Run(tables: seq<Table>, requests: seq<Request>) {
    && |tables| == |requests| + 1 && tables[0] == map[]
    && forall i :: 0 <= i < |requests| ==> Step(tables[i], requests[i], tables[i + 1])
  }

  /** Whatever the arrival order, IDs are unique and ordinals dense after every run. */
  lemma {:induction false} RunKeepsShape(tables: seq<Table>, requests: seq<Request>, i: nat)
    requires Run(tables, requests) && i < |tables|
    ensures Dense(tables[i]) && IdsUnique(tables[i])
  {
    hide Ingested, Dense, IdsUnique;
    if i == 0 {
      EmptyTable();
    } else {
      RunKeepsShape(tables, requests, i - 1);
      var before, q, after := tables[i - 1], requests[i - 1], tables[i];
      assert Step(before, q, after);
      if after != before {
        var added :| Ingested(before, q, after, added);
        IngestKeepsIdsUnique(before, q, after, added);
        IngestCompletes(before, q, after, added, 0);
      }
    }
  }

  lemma EmptyTable()
    ensures var empty: Table := map[];
            Dense(empty) && IdsUnique(empty) && Ordered(empty) && KeyOrdered(empty)
  {
  }

  /** The order holds after a run in which every request that changed the table fitted. */
  lemma {:induction false} RunKeepsOrder(tables: seq<Table>, requests: seq<Request>, i: nat)
    requires Run(tables, requests) && i < |tables|
    requires forall j :: 0 <= j < i ==> tables[j + 1] == tables[j] || Fits(tables[j], requests[j])
    ensures Ordered(tables[i])
  {
    hide Ingested, Dense, IdsUnique, Ordered, Fits;
    if i == 0 {
      EmptyTable();
    } else {
      RunKeepsOrder(tables, requests, i - 1);
      RunKeepsShape(tables, requests, i - 1);
      var before, q, after := tables[i - 1], requests[i - 1], tables[i];
      assert Step(before, q, after);
      if after != before {
        var added :| Ingested(before, q, after, added);
        IngestKeepsOrder(before, q, after, added);
      }
    }
  }

  /** The first request of a run that changes the table without fitting loses the order. */
  lemma FirstMisfitLosesOrder(tables: seq<Table>, requests: seq<Request>, i: nat)
    requires Run(tables, requests) && i < |requests|
    requires forall j :: 0 <= j < i ==> tables[j + 1] == tables[j] || Fits(tables[j], requests[j])
    requires tables[i + 1] != tables[i] && !Fits(tables[i], requests[i])
    ensures !Ordered(tables[i + 1])
  {
    RunKeepsOrder(tables, requests, i);
    RunKeepsShape(tables, requests, i);
    hide Ingested, Dense, Ordered, Fits;
    assert Step(tables[i], requests[i], tables[i + 1]);
    var added :| Ingested(tables[i], requests[i], tables[i + 1], added);
    IngestKeepsOrder(tables[i], requests[i], tables[i + 1], added);
  }

  /** The scopes are ordered by key all through a run exactly when every ingest lands between the neighbours by key. */
  lemma {:induction false} RunDecidesKeyOrder(tables: seq<Table>, requests: seq<Request>, i: nat)
    requires Run(tables, requests) && i < |tables|
    ensures (forall j :: 0 <= j <= i ==> KeyOrdered(tables[j])) <==>
            (forall j :: 0 <= j < i ==> tables[j + 1] == tables[j] || StepLands(tables[j], requests[j], tables[j + 1]))
  {
    hide Ingested, Dense, IdsUnique, KeyOrdered, LandsByKey;
    if i == 0 {
      EmptyTable();
    } else {
      RunDecidesKeyOrder(tables, requests, i - 1);
      RunKeepsShape(tables, requests, i - 1);
      var before, q, after := tables[i - 1], requests[i - 1], tables[i];
      assert Step(before, q, after);
      if after != before && KeyOrdered(before) {
        forall added | Ingested(before, q, after, added) ensures KeyOrdered(after) <==> LandsByKey(before, q, added) {
          IngestDecidesKeyOrder(before, q, after, added);
        }
      }
    }
  }

  /** The step is an ingest whose IDs all land between the neighbours by key. */
  ghost predicate StepLands(before: Table, q: Request, after: Table) {
    exists added :: Ingested(before, q, after, added) && LandsByKey(before, q, added)
  }

  /** Safe requests, with or without native sequences, keep every scope ordered by key. */
  lemma RunKeepsKeyOrder(tables: seq<Table>, requests: seq<Request>, i: nat)
    requires Run(tables, requests) && i < |tables|
    requires forall j :: 0 <= j < i ==> tables[j + 1] == tables[j] || SafeByKey(tables[j], requests[j])
    ensures KeyOrdered(tables[i])
  {
    hide Ingested, SafeByKey, LandsByKey, KeyOrdered;
    forall j | 0 <= j < i && tables[j + 1] != tables[j] ensures StepLands(tables[j], requests[j], tables[j + 1]) {
      assert Step(tables[j], requests[j], tables[j + 1]);
      var added :| Ingested(tables[j], requests[j], tables[j + 1], added);
      SafeLands(tables[j], requests[j], tables[j + 1], added);
    }
    RunDecidesKeyOrder(tables, requests, i);
  }

  /** A request placed by its order key, its nearest smaller key not empty, is safe exactly when it fits. */
  lemma FittingIsSafe(before: Table, q: Request, after: Table, added: seq<int>)
    requires Ingested(before, q, after, added) && q.sequence.None? && SeesNeighbour(before, q)
    ensures SafeByKey(before, q) <==> FitsByKey(before, q)
  {
    hide NeighbourBounds, OrderKeyBounds, Occupied, Extended, PartCount, SeesNeighbour;
    if q.orderKey.Some? {
      var kept := Kept(before, q);
      KeysAreNeighbours(before, q);
      var bounds := NeighbourBounds(kept, Keyed(q.scope), q.orderKey.value);
      var free, all := Free(Occupied(kept, q.scope), [], bounds), Free(Occupied(kept, q.scope), [], UNBOUNDED);
      if |free| < |added| {
        AllocatedCount(Occupied(kept, q.scope), bounds, added);
        if SafeByKey(before, q) {
          assert Pool(kept, q, |added|) == all;
          assert forall id :: id in all ==> Between(bounds, id);
          SubsetCount(all, free);
        }
      }
    }
  }

  lemma AllocatedCount(occupied: set<int>, bounds: Bounds, ids: seq<int>)
    requires Allocated(occupied, [], bounds, |ids|, ids)
    ensures |Free(occupied, [], UNBOUNDED)| >= |ids|
  {
    DistinctCount(ids);
    SubsetCount(Elements(ids), Free(occupied, [], UNBOUNDED));
  }

  /** The first request by order key of a run that changes the table without fitting loses the order. */
  lemma FirstMisfitLosesKeyOrder(tables: seq<Table>, requests: seq<Request>, i: nat)
    requires Run(tables, requests) && i < |requests|
    requires forall j :: 0 <= j < i ==> tables[j + 1] == tables[j] || SafeByKey(tables[j], requests[j])
    requires tables[i + 1] != tables[i] && requests[i].sequence.None? && SeesNeighbour(tables[i], requests[i])
    requires !FitsByKey(tables[i], requests[i])
    ensures !KeyOrdered(tables[i + 1])
  {
    RunKeepsKeyOrder(tables, requests, i);
    RunKeepsShape(tables, requests, i);
    hide Ingested, Dense, KeyOrdered, FitsByKey, SeesNeighbour;
    assert Step(tables[i], requests[i], tables[i + 1]);
    var added :| Ingested(tables[i], requests[i], tables[i + 1], added);
    IngestKeepsKeyOrder(tables[i], requests[i], tables[i + 1], added);
  }

  /** Two messages of a conversation with adjacent IDs. */
  function Neighbours(scope: string): Table {
    map[Key(Message(1, 1), 0) := Part(scope, 100, Some(1), None, true),
        Key(Message(1, 2), 0) := Part(scope, 101, Some(3), None, true)]
  }

  lemma NewMessage(table: Table, message: Message)
    requires forall k :: k in table ==> k.message != message
    ensures PartCount(table, message) == 0
  {
    assert Ordinals(table, message) == {};
  }

  /** Between neighbours with adjacent IDs nothing can be placed in order. */
  lemma FullGapLosesOrder(q: Request, after: Table, added: seq<int>)
    requires q.count == 1 && q.message == Message(1, 3) && q.sequence == Some(2)
    requires Ingested(Neighbours(q.scope), q, after, added)
    ensures !Ordered(after)
  {
    hide Allocated, Extended, BoundsFor, Occupied, PartCount, Greatest;
    var before, track := Neighbours(q.scope), Native(1);
    var kept := Kept(before, q);
    assert kept == before;
    KeptShape(before, q);
    NewMessage(kept, q.message);
    var first, second, k := Key(Message(1, 1), 0), Key(Message(1, 2), 0), Key(q.message, 0);
    assert IsNew(q, 0, added, k);
    assert Precedes(after, track, first, k) && Precedes(after, track, k, second);
    assert !OrderedOn(after, track);
  }

  /** Re-sequencing an issued part past its neighbour loses the order, because its ID stays. */
  lemma ResequencingLosesOrder(q: Request, after: Table, added: seq<int>)
    requires q.count == 1 && q.message == Message(1, 1) && q.sequence == Some(4)
    requires Ingested(Neighbours(q.scope), q, after, added)
    ensures !Ordered(after)
  {
    hide Allocated, Extended, BoundsFor, Occupied, PartCount;
    var before, track := Neighbours(q.scope), Native(1);
    var kept := Kept(before, q);
    var first, second := Key(Message(1, 1), 0), Key(Message(1, 2), 0);
    PartCountIs(kept, q.message, 0);
    assert first in kept && second in kept;
    assert Precedes(after, track, second, first);
    assert !OrderedOn(after, track);
  }

  // -------------------------------------------------------------------- store

  datatype Outcome = Projected(added: seq<int>, removed: seq<int>) | EmptyPlan | RangeFailure

  /** The epoch of a scope: the stored one, else the one its first message decides. */
  function Epoch(epochs: map<string, int>, scope: string, timestamp: int): Result<int> {
    if scope in epochs then Ok(epochs[scope]) else InitialEpoch(timestamp)
  }

  /** Where the search begins: between the neighbours by order key, else in the bucket of the timestamp. */
  function PreferredId(epochs: map<string, int>, kept: Table, q: Request): Result<int> {
    if q.orderKey.Some? then Ok(OrderedPreferredId(BoundsFor(kept, q)))
    else PreferredByTime(epochs, q)
  }

  function PreferredByTime(epochs: map<string, int>, q: Request): Result<int> {
    var epoch := Epoch(epochs, q.scope, q.timestamp);
    if epoch.RangeError? then RangeError else ClampedBucket(epoch.value, q.timestamp)
  }

  /** A search by time settles the epoch of the scope. */
  function EpochsAfter(epochs: map<string, int>, q: Request): map<string, int> {
    var epoch := Epoch(epochs, q.scope, q.timestamp);
    if q.orderKey.None? && epoch.Ok? then epochs[q.scope := epoch.value] else epochs
  }

  /** IDs the message holds are taken in its scope anyway. */
  lemma HeldIsOccupied(occupied: set<int>, held: seq<int>, bounds: Bounds)
    requires forall id :: id in held ==> id in occupied
    ensures Free(occupied, held, bounds) == Free(occupied, [], bounds)
  {
  }

  lemma AllocatedWithoutHeld(occupied: set<int>, held: seq<int>, bounds: Bounds, count: nat, ids: seq<int>)
    requires forall id :: id in held ==> id in occupied
    requires Allocated(occupied, held, bounds, count, ids)
    ensures Allocated(occupied, [], bounds, count, ids)
  {
    HeldIsOccupied(occupied, held, bounds);
    HeldIsOccupied(occupied, held, UNBOUNDED);
  }

  /** The table while the parts of a message from `first` to `last` are being removed. */
  function Removing(table: Table, message: Message, first: nat, last: nat): Table {
    map k | k in table && !(k.message == message && first <= k.ordinal < last) :: table[k]
  }

  /** The table while the first parts of a message are being renewed. */
  function Updating(table: Table, q: Request, last: nat): Table {
    map k | k in table :: if k.message == q.message && k.ordinal < last then Renewed(table[k], q) else table[k]
  }

  lemma KeptIsUpdated(before: Table, q: Request, first: nat)
    requires Dense(before)
    requires first == if RequiresMigration(before, q) then 0 else Min(q.count, PartCount(before, q.message))
    ensures Updating(Removing(before, q.message, first, PartCount(before, q.message)), q, first) == Kept(before, q)
    ensures PartCount(Kept(before, q), q.message) == first
  {
    hide PartCount, RequiresMigration;
    var n := PartCount(before, q.message);
    forall k: Key | k.message == q.message ensures k in before <==> k.ordinal < n {
      PartCountIs(before, q.message, k.ordinal);
    }
    var kept := Kept(before, q);
    KeptShape(before, q);
    PartCountIs(kept, q.message, first);
    if first > 0 {
      PartCountIs(kept, q.message, first - 1);
    }
  }

  /** The whole scope has enough free IDs for the parts a message lacks. */
  ghost predicate HasRoomFor(table: Table, q: Request) {
    |Free(Occupied(table, q.scope), [], UNBOUNDED)| >= q.count - PartCount(table, q.message)
  }

  /** The IDs of the parts that did not stay, in order. */
  ghost predicate WasRemoved(before: Table, q: Request, removed: seq<int>) {
    var first := PartCount(Kept(before, q), q.message);
    && |removed| == PartCount(before, q.message) - first
    && forall i :: 0 <= i < |removed| ==>
         Key(q.message, first + i) in before && removed[i] == before[Key(q.message, first + i)].id
  }

  /** An allocation looks forwards first, except for a single new part of history. */
  predicate PrefersForward(table: Table, q: Request) {
    q.live || q.count - PartCount(table, q.message) > 1 || PartCount(table, q.message) > 0
  }

  /** Slots are taken from the middle of a bucket where the platform says how messages are ordered. */
  predicate IsCentered(q: Request) {
    q.sequence.Some? || q.orderKey.Some?
  }

  /**
    Among the free IDs in bounds the new ones are in the buckets nearest to the preferred one, in their turn there;
    and so among the free IDs out of bounds.
   */
  ghost predicate PlacedNear(table: Table, q: Request, preferredId: int, ids: seq<int>) {
    var free := Free(Occupied(table, q.scope), [], BoundsFor(table, q));
    var rest := Free(Occupied(table, q.scope), [], UNBOUNDED) - free;
    && Placed(free, BucketStart(preferredId), PrefersForward(table, q), IsCentered(q), ids)
    && Placed(rest, BucketStart(preferredId), PrefersForward(table, q), IsCentered(q), ids)
  }

  /** A successful ingest, of the table and of the epochs. */
  ghost predicate Projects(
      before: Table, epochs: map<string, int>, q: Request, after: Table, epochs': map<string, int>, added: seq<int>)
  {
    var kept := Kept(before, q);
    && Ingested(before, q, after, added)
    && (added != [] ==> PreferredId(epochs, kept, q).Ok? && PlacedNear(kept, q, PreferredId(epochs, kept, q).value, added))
    && epochs' == if added != [] then EpochsAfter(epochs, q) else epochs
  }

  /** One message with the empty key in the upper half of the IDs, a great many of them free above it. */
  function EmptyKeyAbove(scope: string): Table {
    map[Key(Message(1, 1), 0) := Part(scope, 0x7000_0000, None, Some(0), true)]
  }

  /** Nothing of it goes away, its neighbour bounds the gap above it, which has room, and an ingest ignores it. */
  lemma EmptyKeyIsIgnored(q: Request)
    requires q.count == 1 && q.message == Message(1, 2) && q.sequence.None? && q.orderKey == Some(1)
    ensures var before := EmptyKeyAbove(q.scope);
            && Kept(before, q) == before && PartCount(before, q.message) == 0
            && Occupied(before, q.scope) == {0x7000_0000}
            && NeighbourBounds(before, Keyed(q.scope), 1) == Bounds(Some(0x7000_0000), None)
            && BoundsFor(before, q) == UNBOUNDED
  {
    hide PartCount, Greatest, Least;
    var before, track := EmptyKeyAbove(q.scope), Keyed(q.scope);
    assert Kept(before, q) == before;
    NewMessage(before, q.message);
    assert Places(before, track) == {0} && IdsAt(before, track, 0) == {0x7000_0000} by {
      assert On(before, track, Key(Message(1, 1), 0));
    }
    assert Below({0}, 1) == {0} && Above({0}, 1) == {};
    assert Greatest({0}) == Some(0) && Greatest({0x7000_0000}) == Some(0x7000_0000);
    assert Occupied(before, q.scope) == {0x7000_0000};
  }

  lemma EmptyKeyFits(q: Request)
    requires q.count == 1 && q.message == Message(1, 2) && q.sequence.None? && q.orderKey == Some(1)
    ensures KeyOrdered(EmptyKeyAbove(q.scope)) && FitsByKey(EmptyKeyAbove(q.scope), q)
  {
    EmptyKeyIsIgnored(q);
    hide PartCount, Kept, NeighbourBounds, BoundsFor, Occupied;
    assert 0x7000_0001 in Free({0x7000_0000}, [], Bounds(Some(0x7000_0000), None));
  }

  /**
    A neighbour with the empty key passes for none: the gap above it has room, and yet the search begins
    in the middle of all IDs and ends there, below the neighbour.
   */
  lemma EmptyKeyLosesOrder(q: Request, after: Table, added: seq<int>, epochs: map<string, int>)
    requires q.count == 1 && q.message == Message(1, 2) && q.sequence.None? && q.orderKey == Some(1)
    requires var before := EmptyKeyAbove(q.scope);
             Ingested(before, q, after, added) &&
             PlacedNear(Kept(before, q), q, PreferredId(epochs, Kept(before, q), q).value, added)
    ensures KeyOrdered(EmptyKeyAbove(q.scope)) && FitsByKey(EmptyKeyAbove(q.scope), q) && !KeyOrdered(after)
  {
    EmptyKeyFits(q);
    EmptyKeyIsIgnored(q);
    PlacedInTheMiddle(q, after, added, epochs);
    hide PartCount, Kept, BoundsFor, Occupied, FitsByKey, PlacedNear, Allocated;
    var track, key := Keyed(q.scope), Key(q.message, 0);
    assert IsNew(q, 0, added, key);
    assert Precedes(after, track, Key(Message(1, 1), 0), key);
    assert !OrderedOn(after, track);
  }

  lemma PlacedInTheMiddle(q: Request, after: Table, added: seq<int>, epochs: map<string, int>)
    requires q.count == 1 && q.message == Message(1, 2) && q.sequence.None? && q.orderKey == Some(1)
    requires var before := EmptyKeyAbove(q.scope);
             Ingested(before, q, after, added) &&
             PlacedNear(Kept(before, q), q, PreferredId(epochs, Kept(before, q), q).value, added)
    ensures |added| == 1 && added[0] < 0x4000_0010
  {
    EmptyKeyIsIgnored(q);
    var before, free := EmptyKeyAbove(q.scope), Free({0x7000_0000}, [], UNBOUNDED);
    AloneIsFree(before, q, after, added);
    SearchFromTheMiddle(epochs, before, q, added);
    hide Ingested, PlacedNear, PreferredId, Kept, NearestFirst;
    assert 0x4000_0000 in free;
    MiddleIsTaken(free, q.live, added);
  }

  lemma AloneIsFree(before: Table, q: Request, after: Table, added: seq<int>)
    requires Kept(before, q) == before && PartCount(before, q.message) == 0 && q.count == 1
    requires Ingested(before, q, after, added)
    ensures |added| == 1 && added[0] in Free(Occupied(before, q.scope), [], UNBOUNDED)
  {
    hide PartCount, Extended, Kept, Occupied, Free;
    assert added[0] in added;
  }

  lemma SearchFromTheMiddle(epochs: map<string, int>, table: Table, q: Request, ids: seq<int>)
    requires q.orderKey.Some? && BoundsFor(table, q) == UNBOUNDED && q.count == 1 && PartCount(table, q.message) == 0
    requires PlacedNear(table, q, PreferredId(epochs, table, q).value, ids)
    ensures NearestFirst(Free(Occupied(table, q.scope), [], UNBOUNDED), 0x4000_0000, q.live, ids)
  {
    hide NearestFirst, SlotsInTurn, Free, Occupied, BoundsFor, PartCount;
  }

  lemma MiddleIsTaken(free: set<int>, preferForward: bool, ids: seq<int>)
    requires |ids| == 1 && ids[0] in free && 0x4000_0000 in free
    requires NearestFirst(free, 0x4000_0000, preferForward, ids)
    ensures ids[0] < 0x4000_0010
  {
    assert ids[0] in ids;
    assert Rank(0x4000_0000, preferForward, 0x4000_0000) == 0;
    if ids[0] != 0x4000_0000 {
      assert 0x4000_0000 !in ids;
      assert Rank(0x4000_0000, preferForward, ids[0]) <= 0;
    }
  }

  lemma DenseBelow(table: Table, message: Message)
    requires Dense(table)
    ensures forall o: nat :: Key(message, o) in table <==> o < PartCount(table, message)
  {
    forall o: nat ensures Key(message, o) in table <==> o < PartCount(table, message) {
      PartCountIs(table, message, o);
    }
  }

  lemma StillThere(before: Table, message: Message, first: nat, last: nat)
    requires forall o: nat :: o < last ==> Key(message, o) in before
    requires first <= last
    ensures forall o: nat :: o < first ==> Key(message, o) in Removing(before, message, first, last)
  {
  }

  lemma KeptInScope(before: Table, q: Request)
    ensures forall k :: k in Kept(before, q) && k.message == q.message ==> Kept(before, q)[k].scope == q.scope
  {
  }

  lemma HeldIsInScope(table: Table, q: Request, held: seq<int>)
    requires forall k :: k in table && k.message == q.message ==> table[k].scope == q.scope
    requires forall o :: 0 <= o < |held| ==> Key(q.message, o) in table && held[o] == table[Key(q.message, o)].id
    ensures forall id :: id in held ==> id in Occupied(table, q.scope)
  {
  }

  lemma AllocatedLength(occupied: set<int>, bounds: Bounds, count: nat, ids: seq<int>)
    requires Allocated(occupied, [], bounds, count, ids)
    ensures |ids| == count
  {
  }

  lemma ExtendedByNothing(table: Table, q: Request, first: nat)
    ensures Extended(table, q, first, []) == table
  {
  }

  class Store {
    var parts: Table
    var epochs: map<string, int>

    constructor ()
      ensures parts == map[] && epochs == map[] && Dense(parts) && IdsUnique(parts) && Ordered(parts) && KeyOrdered(parts)
    {
      parts, epochs := map[], map[];
    }

    /** Removes the parts of a message from `first` on. */
    method RemoveParts(message: Message, first: nat, last: nat) returns (removed: seq<int>)
      requires first <= last && forall o: nat :: first <= o < last ==> Key(message, o) in parts
      modifies `parts
      ensures parts == Removing(old(parts), message, first, last)
      ensures |removed| == last - first
      ensures forall i :: 0 <= i < |removed| ==> removed[i] == old(parts)[Key(message, first + i)].id
    {
      removed := [];
      for o := first to last
        invariant parts == Removing(old(parts), message, first, o)
        invariant |removed| == o - first
        invariant forall i :: 0 <= i < |removed| ==> removed[i] == old(parts)[Key(message, first + i)].id
      {
        removed := removed + [parts[Key(message, o)].id];
        parts := parts - {Key(message, o)};
      }
    }

    /** Brings the native sequence and the order key of the parts that stay up to date. */
    method UpdateSequence(q: Request, last: nat)
      requires forall o: nat :: o < last ==> Key(q.message, o) in parts
      modifies `parts
      ensures parts == Updating(old(parts), q, last)
    {
      for o := 0 to last
        invariant parts == Updating(old(parts), q, o)
      {
        var k := Key(q.message, o);
        var values := parts[k];
        if q.sequence.Some? && values.sequence != q.sequence {
          values := values.(sequence := q.sequence);
        }
        if q.orderKey.Some? && values.orderKey != q.orderKey {
          values := values.(orderKey := q.orderKey);
        }
        if values != parts[k] {
          parts := parts[k := values];
        }
      }
    }

    /** Migrates or shrinks the parts of a message and renews the others. */
    method KeepParts(q: Request) returns (kept: nat, removed: seq<int>)
      requires Dense(parts)
      modifies `parts
      ensures parts == Kept(old(parts), q) && WasRemoved(old(parts), q, removed)
      ensures kept == PartCount(parts, q.message) <= q.count
    {
      hide PartCount, RequiresMigration, Dense, Removing, Updating;
      ghost var before := parts;
      var existing := PartCount(parts, q.message);
      kept := if RequiresMigration(parts, q) then 0 else Min(q.count, existing);
      DenseBelow(parts, q.message);
      KeptIsUpdated(parts, q, kept);
      removed := RemoveParts(q.message, kept, existing);
      StillThere(before, q.message, kept, existing);
      UpdateSequence(q, kept);
    }

    /** Allocates IDs for the missing parts and appends them. */
    method AddParts(q: Request) returns (ids: Result<seq<int>>)
      requires Dense(parts) && PartCount(parts, q.message) < q.count
      requires forall k :: k in parts && k.message == q.message ==> parts[k].scope == q.scope
      modifies this
      ensures ids.RangeError? <==> PreferredId(old(epochs), old(parts), q).RangeError? || !HasRoomFor(old(parts), q)
      ensures ids.RangeError? ==> parts == old(parts)
      ensures ids.Ok? ==>
                var n := PartCount(old(parts), q.message);
                && |ids.value| == q.count - n && parts == Extended(old(parts), q, n, ids.value)
                && Allocated(Occupied(old(parts), q.scope), [], BoundsFor(old(parts), q), |ids.value|, ids.value)
                && PlacedNear(old(parts), q, PreferredId(old(epochs), old(parts), q).value, ids.value)
                && epochs == EpochsAfter(old(epochs), q)
    {
      hide PartCount, Dense, Free, BoundsFor, Allocated, Occupied, ClampedBucket, NearestFirst, BucketStart;
      DenseBelow(parts, q.message);
      var preferredId := PreferredId(epochs, parts, q);
      if preferredId.RangeError? {
        return RangeError;
      }
      if q.orderKey.None? {
        epochs := epochs[q.scope := Epoch(epochs, q.scope, q.timestamp).value];
      }
      var held, bounds, occupied := ExistingIds(parts, q.message), BoundsFor(parts, q), Occupied(parts, q.scope);
      var count: nat := q.count - PartCount(parts, q.message);
      HeldIsInScope(parts, q, held);
      HeldIsOccupied(occupied, held, UNBOUNDED);
      HeldIsOccupied(occupied, held, bounds);
      ids := Allocate(occupied, held, bounds, preferredId.value, q.live, q.sequence.Some? || q.orderKey.Some?, count);
      if ids.Ok? {
        AllocatedWithoutHeld(occupied, held, bounds, count, ids.value);
        AllocatedLength(occupied, bounds, count, ids.value);
        parts := Extended(parts, q, PartCount(parts, q.message), ids.value);
      }
    }

    /**
      Makes the parts of a message match a request: migrates or shrinks what is there, updates its
      native sequence, allocates IDs for what is missing. A failure rolls everything back.
     */
    method EnsureProjection(q: Request) returns (outcome: Outcome)
      requires Dense(parts)
      modifies this
      ensures outcome.EmptyPlan? <==> q.count == 0
      ensures outcome.RangeFailure? <==>
                q.count > 0 && Missing(old(parts), q) > 0 &&
                (PreferredId(old(epochs), Kept(old(parts), q), q).RangeError? || !HasRoomFor(Kept(old(parts), q), q))
      ensures !outcome.Projected? ==> parts == old(parts) && epochs == old(epochs)
      ensures outcome.Projected? ==>
                && Projects(old(parts), old(epochs), q, parts, epochs, outcome.added)
                && WasRemoved(old(parts), q, outcome.removed)
      ensures outcome.Projected? && Ordered(old(parts)) ==> (Ordered(parts) <==> Fits(old(parts), q))
      ensures outcome.Projected? && KeyOrdered(old(parts)) ==>
                (KeyOrdered(parts) <==> LandsByKey(old(parts), q, outcome.added))
      ensures outcome.Projected? && KeyOrdered(old(parts)) && q.sequence.None? && SeesNeighbour(old(parts), q) ==>
                (KeyOrdered(parts) <==> FitsByKey(old(parts), q))
    {
      hide PartCount, Dense, Ordered, KeyOrdered, Fits, FitsByKey, LandsByKey, SeesNeighbour;
      hide EpochsAfter, Allocated, HasRoomFor, BoundsFor, Occupied, Extended, PreferredId, Epoch, Kept, WasRemoved, PlacedNear;
      if q.count == 0 {
        return EmptyPlan;
      }
      var before, epochsBefore := parts, epochs;
      KeptShape(before, q);
      KeptInScope(before, q);
      var kept, removed := KeepParts(q);
      var added := [];
      if kept < q.count {
        var ids := AddParts(q);
        if ids.RangeError? {
          parts, epochs := before, epochsBefore;
          return RangeFailure;
        }
        added := ids.value;
      } else {
        ExtendedByNothing(parts, q, kept);
      }
      if Ordered(before) {
        IngestKeepsOrder(before, q, parts, added);
      }
      if KeyOrdered(before) {
        IngestDecidesKeyOrder(before, q, parts, added);
        if q.sequence.None? && SeesNeighbour(before, q) {
          IngestKeepsKeyOrder(before, q, parts, added);
        }
      }
      return Projected(added, removed);
    }
  }
}
