/**
  Where messages go that are placed by their time, over whole runs of ingests: the first of a scope decides
  the middle of its ID space, every second has a bucket of its own, and messages of different seconds are in
  the order of time as long as their buckets suffice.
 */
module ProjectionTime {
  import FiniteSets
  import opened MessageIds
  import opened SlotAllocator
  import opened Projection

  datatype Stored = Stored(table: Table, epochs: map<string, int>)

  /** A run of ingests; `results` are the IDs each added, or nothing where it failed or had nothing to do. */
  datatype History = History(states: seq<Stored>, requests: seq<Request>, results: seq<Option<seq<int>>>)

  ghost predicate Ingests(before: Stored, q: Request, result: Option<seq<int>>, after: Stored) {
    match result
    case None => after == before
    case Some(added) => Projects(before.table, before.epochs, q, after.table, after.epochs, added)
  }

  ghost predicate IsHistory(h: History) {
    && |h.states| == |h.requests| + 1 == |h.results| + 1
    && h.states[0] == Stored(map[], map[])
    && forall i :: 0 <= i < |h.requests| ==> Ingests(h.states[i], h.requests[i], h.results[i], h.states[i + 1])
  }

  /** The ingest added parts to the scope, placed by time. */
  predicate ByTime(h: History, i: nat, scope: string)
    requires i < |h.requests| == |h.results|
  {
    h.requests[i].scope == scope && h.requests[i].orderKey.None? && h.results[i].Some? && h.results[i].value != []
  }

  /** The first ingest that did. */
  ghost predicate IsFirst(h: History, f: nat, scope: string)
    requires |h.requests| == |h.results|
  {
    f < |h.requests| && ByTime(h, f, scope) && forall i: nat :: i < f ==> !ByTime(h, i, scope)
  }

  lemma EpochStep(before: Stored, q: Request, result: Option<seq<int>>, after: Stored, scope: string)
    requires Ingests(before, q, result, after)
    ensures var byTime := q.scope == scope && q.orderKey.None? && result.Some? && result.value != [];
            && (scope in before.epochs ==> scope in after.epochs && after.epochs[scope] == before.epochs[scope])
            && (scope !in before.epochs ==>
                  (scope in after.epochs <==> byTime) &&
                  (byTime ==> after.epochs[scope] == q.timestamp - 0x400_0000))
  {
    hide Ingested, PlacedNear, Kept;
  }

  /** A scope has an epoch once a message was placed by time in it: that of the first such message, for ever. */
  lemma {:induction false} EpochIsThatOfTheFirst(h: History, i: nat, scope: string)
    requires IsHistory(h) && i < |h.states|
    ensures scope in h.states[i].epochs <==> exists j: nat :: j < i && ByTime(h, j, scope)
    ensures forall f: nat :: f < i && IsFirst(h, f, scope) ==>
              scope in h.states[i].epochs && h.states[i].epochs[scope] == h.requests[f].timestamp - 0x400_0000
  {
    hide Ingests;
    if i > 0 {
      EpochIsThatOfTheFirst(h, i - 1, scope);
      assert Ingests(h.states[i - 1], h.requests[i - 1], h.results[i - 1], h.states[i]);
      EpochStep(h.states[i - 1], h.requests[i - 1], h.results[i - 1], h.states[i], scope);
      if scope in h.states[i - 1].epochs {
        var j: nat :| j < i - 1 && ByTime(h, j, scope);
        assert j < i && ByTime(h, j, scope);
      } else {
        assert scope in h.states[i].epochs <==> ByTime(h, i - 1, scope);
      }
    }
  }

  /** The bucket of a second, `seconds` after the first message of its scope, within the ID space. */
  function BucketOfSecond(seconds: int): int {
    var id := 0x4000_0000 + 16 * seconds;
    if id < 16 then 16 else if id > 0x7fff_fff0 then 0x7fff_fff0 else id
  }

  /** Where the search of an ingest by time begins. */
  lemma SearchBegins(h: History, i: nat, f: nat, scope: string)
    requires IsHistory(h) && i < |h.requests| && ByTime(h, i, scope) && IsFirst(h, f, scope)
    ensures var kept := Kept(h.states[i].table, h.requests[i]);
            PreferredId(h.states[i].epochs, kept, h.requests[i]) ==
            Ok(BucketOfSecond(h.requests[i].timestamp - h.requests[f].timestamp))
  {
    EpochIsThatOfTheFirst(h, i, scope);
    assert Ingests(h.states[i], h.requests[i], h.results[i], h.states[i + 1]);
    assert f <= i;
    hide Ingested, PlacedNear, Kept, IsHistory;
    if f == i {
      assert scope !in h.states[i].epochs;
    }
  }

  /** The free IDs of a bucket, between the neighbours by native sequence if the message has one. */
  ghost function RoomIn(table: Table, q: Request, bucket: int): set<int> {
    var kept := Kept(table, q);
    set id | bucket <= id < bucket + 16 && 16 <= id <= 0x7fff_ffff &&
      (forall k :: k in kept && kept[k].scope == q.scope ==> kept[k].id != id) &&
      (q.sequence.Some? ==> Between(NeighbourBounds(kept, Native(q.message.conversation), q.sequence.value), id))
  }

  /** The IDs of a bucket that an allocation may take. */
  ghost function FreeIn(kept: Table, q: Request, bucket: int): set<int> {
    set id | id in Free(Occupied(kept, q.scope), [], BoundsFor(kept, q)) && BucketStart(id) == bucket
  }

  /** A message without an order key is bounded by its native sequence alone. */
  lemma RoomIsFree(table: Table, q: Request, bucket: int)
    requires q.orderKey.None? && bucket % SLOTS == 0
    ensures RoomIn(table, q, bucket) == FreeIn(Kept(table, q), q, bucket)
  {
    hide Kept, NeighbourBounds;
    forall id ensures bucket <= id < bucket + 16 <==> BucketStart(id) == bucket {
      BucketStartIs(id, bucket);
    }
    hide BucketStart;
  }

  /** If the bucket has enough of the IDs offered, all IDs taken are in it. */
  lemma AllInBucket(offered: set<int>, bucket: int, preferForward: bool, ids: seq<int>, room: set<int>)
    requires bucket % SLOTS == 0 && NearestFirst(offered, bucket, preferForward, ids) && Ascending(ids)
    requires room == (set id | id in offered && BucketStart(id) == bucket) && |room| >= |ids|
    requires forall id :: id in ids ==> id in offered
    ensures forall id :: id in ids ==> BucketStart(id) == bucket
  {
    forall id | id in ids ensures BucketStart(id) == bucket {
      if BucketStart(id) != bucket {
        DistinctCount(ids);
        var left :| left in room && left !in ids by {
          if room <= Elements(ids) {
            assert id in Elements(ids) && id !in room;
            SubsetCount(room, Elements(ids));
          }
        }
        RankOfBucket(bucket, preferForward, 0, left);
        RankOfBucket(bucket, preferForward, 0, id);
      }
    }
  }

  /**
    An ingest by time puts all its parts into the bucket of its second, counted from the first message of the
    scope that was placed by time, whenever this bucket has enough free IDs between the neighbours.
   */
  lemma PlacedAtItsTime(h: History, i: nat, f: nat, scope: string)
    requires IsHistory(h) && i < |h.requests| && ByTime(h, i, scope) && IsFirst(h, f, scope)
    requires var bucket := BucketOfSecond(h.requests[i].timestamp - h.requests[f].timestamp);
             |RoomIn(h.states[i].table, h.requests[i], bucket)| >= |h.results[i].value|
    ensures var bucket := BucketOfSecond(h.requests[i].timestamp - h.requests[f].timestamp);
            forall id :: id in h.results[i].value ==> bucket <= id < bucket + 16
  {
    var q, added := h.requests[i], h.results[i].value;
    var bucket := BucketOfSecond(q.timestamp - h.requests[f].timestamp);
    var kept := Kept(h.states[i].table, q);
    SearchBegins(h, i, f, scope);
    assert Ingests(h.states[i], q, h.results[i], h.states[i + 1]);
    RoomIsFree(h.states[i].table, q, bucket);
    PlacedInBucket(kept, q, bucket, added, h.states[i].table, h.states[i + 1].table);
    forall id | id in added ensures bucket <= id < bucket + 16 {
      BucketStartIs(id, bucket);
    }
  }

  lemma PlacedInBucket(kept: Table, q: Request, bucket: int, added: seq<int>, before: Table, after: Table)
    requires kept == Kept(before, q) && Ingested(before, q, after, added) && added != []
    requires bucket % SLOTS == 0 && PlacedNear(kept, q, bucket, added)
    requires |FreeIn(kept, q, bucket)| >= |added|
    ensures forall id :: id in added ==> BucketStart(id) == bucket
  {
    var free := Free(Occupied(kept, q.scope), [], BoundsFor(kept, q));
    SubsetCount(FreeIn(kept, q, bucket), free);
    hide Occupied, BoundsFor, Extended, PartCount, SlotsInTurn, Free, Kept;
    AllInBucket(free, bucket, PrefersForward(kept, q), added, FreeIn(kept, q, bucket));
  }

  /** The first ingest by time of a scope in which there is one. */
  lemma {:induction false} FirstExists(h: History, i: nat, scope: string) returns (f: nat)
    requires i < |h.requests| == |h.results| && exists j: nat :: j <= i && ByTime(h, j, scope)
    ensures f <= i && IsFirst(h, f, scope)
  {
    if exists j: nat :: j < i && ByTime(h, j, scope) {
      f := FirstExists(h, i - 1, scope);
    } else {
      f := i;
    }
  }

  /** The ingest was placed by time, and its bucket had enough free IDs between the neighbours. */
  ghost predicate FoundRoom(h: History, i: nat, scope: string)
    requires IsHistory(h) && i < |h.requests|
  {
    ByTime(h, i, scope) &&
    forall f: nat :: IsFirst(h, f, scope) ==>
      |RoomIn(h.states[i].table, h.requests[i], BucketOfSecond(h.requests[i].timestamp - h.requests[f].timestamp))| >=
      |h.results[i].value|
  }

  /** Where the buckets suffice, a later second has greater IDs, whichever message arrived first. */
  lemma TimeOrdersIds(h: History, i: nat, j: nat, f: nat, scope: string)
    requires IsHistory(h) && i < |h.requests| && j < |h.requests|
    requires FoundRoom(h, i, scope) && FoundRoom(h, j, scope) && IsFirst(h, f, scope)
    requires BucketOfSecond(h.requests[i].timestamp - h.requests[f].timestamp) !=
             BucketOfSecond(h.requests[j].timestamp - h.requests[f].timestamp)
    ensures h.requests[i].timestamp < h.requests[j].timestamp <==>
            forall a, b :: a in h.results[i].value && b in h.results[j].value ==> a < b
  {
    PlacedAtItsTime(h, i, f, scope);
    PlacedAtItsTime(h, j, f, scope);
    var a, b := h.requests[i].timestamp - h.requests[f].timestamp, h.requests[j].timestamp - h.requests[f].timestamp;
    BucketsApart(a, b);
    BucketsApart(b, a);
    hide IsHistory, RoomIn, BucketOfSecond;
    IntervalsOrder(h.results[i].value, h.results[j].value, BucketOfSecond(a), BucketOfSecond(b));
  }

  lemma IntervalsOrder(s: seq<int>, t: seq<int>, a: int, b: int)
    requires s != [] && t != [] && (a + 16 <= b || b + 16 <= a)
    requires forall x :: x in s ==> a <= x < a + 16
    requires forall x :: x in t ==> b <= x < b + 16
    ensures a < b <==> forall x, y :: x in s && y in t ==> x < y
  {
    var x, y := s[0], t[0];
    assert x in s && y in t;
    assert a < b <==> x < y;
  }

  /** A part that is in the table got its ID from an ingest of its message, and its scope. */
  lemma {:induction false} PartWasAdded(h: History, n: nat, k: Key) returns (i: nat)
    requires IsHistory(h) && n < |h.states| && k in h.states[n].table
    ensures i < n && h.requests[i].message == k.message && h.requests[i].scope == h.states[n].table[k].scope
    ensures h.results[i].Some? && h.states[n].table[k].id in h.results[i].value
    ensures Dense(h.states[n].table)
  {
    hide Kept, Projects, PartCount, Extended, Dense;
    DenseAlong(h, n - 1);
    var before, q, result, after := h.states[n - 1], h.requests[n - 1], h.results[n - 1], h.states[n];
    assert Ingests(before, q, result, after);
    if result.None? {
      i := PartWasAdded(h, n - 1, k);
    } else {
      ProjectsIngests(before, q, result.value, after);
      DenseAfter(before.table, q, after.table, result.value);
      var stayed := WhenceItCame(before.table, q, result.value, after.table, k);
      if stayed {
        i := PartWasAdded(h, n - 1, k);
      } else {
        i := n - 1;
      }
    }
  }

  lemma ProjectsIngests(before: Stored, q: Request, added: seq<int>, after: Stored)
    requires Projects(before.table, before.epochs, q, after.table, after.epochs, added)
    ensures Ingested(before.table, q, after.table, added)
  {
  }

  lemma DenseAfter(before: Table, q: Request, after: Table, added: seq<int>)
    requires Dense(before) && Ingested(before, q, after, added)
    ensures Dense(after)
  {
    IngestCompletes(before, q, after, added, 0);
  }

  lemma {:induction false} DenseAlong(h: History, n: nat)
    requires IsHistory(h) && n < |h.states|
    ensures Dense(h.states[n].table)
  {
    hide Projects, Ingested, Dense;
    if n == 0 {
      EmptyTable();
    } else {
      DenseAlong(h, n - 1);
      assert Ingests(h.states[n - 1], h.requests[n - 1], h.results[n - 1], h.states[n]);
      if h.results[n - 1].Some? {
        ProjectsIngests(h.states[n - 1], h.requests[n - 1], h.results[n - 1].value, h.states[n]);
        DenseAfter(h.states[n - 1].table, h.requests[n - 1], h.states[n].table, h.results[n - 1].value);
      }
    }
  }

  /** A part after an ingest was there before, with the same ID and scope, or is one of those added. */
  lemma WhenceItCame(before: Table, q: Request, added: seq<int>, after: Table, k: Key) returns (stayed: bool)
    requires Dense(before) && Ingested(before, q, after, added) && k in after
    ensures stayed ==> k in before && after[k].id == before[k].id && after[k].scope == before[k].scope
    ensures !stayed ==> k.message == q.message && after[k].scope == q.scope && after[k].id in added
  {
    hide PartCount, Extended, Allocated, BoundsFor, Occupied;
    var kept := Kept(before, q);
    stayed := !IsNew(q, PartCount(kept, q.message), added, k);
    KeptShape(before, q);
  }

  /**
    In every state of a run: of two parts of a scope that were placed by time into buckets that sufficed, the one
    of the later second has the greater ID.
   */
  lemma LaterSecondsHaveGreaterIds(h: History, n: nat, k: Key, l: Key) returns (i: nat, j: nat)
    requires IsHistory(h) && n < |h.states| && k in h.states[n].table && l in h.states[n].table
    requires h.states[n].table[k].scope == h.states[n].table[l].scope
    ensures i < n && h.requests[i].message == k.message && h.results[i].Some? && h.states[n].table[k].id in h.results[i].value
    ensures j < n && h.requests[j].message == l.message && h.results[j].Some? && h.states[n].table[l].id in h.results[j].value
    ensures var scope := h.states[n].table[k].scope;
            FoundRoom(h, i, scope) && FoundRoom(h, j, scope) ==>
              forall f: nat :: IsFirst(h, f, scope) ==>
                var a := BucketOfSecond(h.requests[i].timestamp - h.requests[f].timestamp);
                var b := BucketOfSecond(h.requests[j].timestamp - h.requests[f].timestamp);
                a < b ==> h.states[n].table[k].id < h.states[n].table[l].id
  {
    i := PartWasAdded(h, n, k);
    j := PartWasAdded(h, n, l);
    var scope := h.states[n].table[k].scope;
    if FoundRoom(h, i, scope) && FoundRoom(h, j, scope) {
      forall f: nat | IsFirst(h, f, scope)
        ensures var a := BucketOfSecond(h.requests[i].timestamp - h.requests[f].timestamp);
                var b := BucketOfSecond(h.requests[j].timestamp - h.requests[f].timestamp);
                a < b ==> h.states[n].table[k].id < h.states[n].table[l].id
      {
        PlacedAtItsTime(h, i, f, scope);
        PlacedAtItsTime(h, j, f, scope);
        BucketsApart(h.requests[i].timestamp - h.requests[f].timestamp, h.requests[j].timestamp - h.requests[f].timestamp);
      }
    }
  }

  /** Different seconds within the ID space have different buckets, the later one above the earlier. */
  lemma BucketsApart(a: int, b: int)
    ensures BucketOfSecond(a) < BucketOfSecond(b) ==> a < b && BucketOfSecond(a) + 16 <= BucketOfSecond(b)
    ensures -0x3ff_ffff <= a < b <= 0x3ff_ffff ==> BucketOfSecond(a) < BucketOfSecond(b)
  {
  }

  /**
    Which slots of its bucket the parts get: of its free IDs in order the first ones, or, for a message with a
    native sequence, the first ones from the middle outwards.
   */
  lemma SlotsAtItsTime(h: History, i: nat, f: nat, scope: string, available: seq<int>, k: nat)
    requires IsHistory(h) && i < |h.requests| && ByTime(h, i, scope) && IsFirst(h, f, scope) && FoundRoom(h, i, scope)
    requires var bucket := BucketOfSecond(h.requests[i].timestamp - h.requests[f].timestamp);
             Ascending(available) && forall id :: id in available <==> id in RoomIn(h.states[i].table, h.requests[i], bucket)
    requires k < |h.results[i].value|
    ensures k < |available|
    ensures var q, kept := h.requests[i], Kept(h.states[i].table, h.requests[i]);
            (if q.sequence.Some? then available[MiddleOutIndex(|available|, PrefersForward(kept, q), k)] else available[k])
            in h.results[i].value
  {
    var q, added := h.requests[i], h.results[i].value;
    var bucket := BucketOfSecond(q.timestamp - h.requests[f].timestamp);
    var before := h.states[i].table;
    var kept := Kept(before, q);
    PlacedAtItsTime(h, i, f, scope);
    SearchBegins(h, i, f, scope);
    assert Ingests(h.states[i], q, h.results[i], h.states[i + 1]);
    RoomIsFree(before, q, bucket);
    AddedIds(before, q, h.states[i + 1].table, added, bucket);
    FirstOfBucket(kept, q, bucket, added, available, k);
  }

  /** What is added is distinct and, where its bucket has room, free between the neighbours. */
  lemma AddedIds(before: Table, q: Request, after: Table, added: seq<int>, bucket: int)
    requires Ingested(before, q, after, added) && added != []
    requires |FreeIn(Kept(before, q), q, bucket)| >= |added|
    ensures Ascending(added)
    ensures forall id :: id in added ==> id in Free(Occupied(Kept(before, q), q.scope), [], BoundsFor(Kept(before, q), q))
  {
    var kept := Kept(before, q);
    SubsetCount(FreeIn(kept, q, bucket), Free(Occupied(kept, q.scope), [], BoundsFor(kept, q)));
    hide Occupied, BoundsFor, Extended, PartCount, Free, Kept, FreeIn;
  }

  lemma FirstOfBucket(kept: Table, q: Request, bucket: int, added: seq<int>, available: seq<int>, k: nat)
    requires bucket % SLOTS == 0 && PlacedNear(kept, q, bucket, added) && Ascending(added)
    requires forall id :: id in added ==> bucket <= id < bucket + 16
    requires forall id :: id in added ==> id in Free(Occupied(kept, q.scope), [], BoundsFor(kept, q))
    requires Ascending(available) && forall id :: id in available <==> id in FreeIn(kept, q, bucket)
    requires k < |added|
    ensures k < |available| && SlotAt(available, PrefersForward(kept, q), IsCentered(q), k) in added
  {
    var free := Free(Occupied(kept, q.scope), [], BoundsFor(kept, q));
    hide Occupied, BoundsFor, PartCount, Free, Kept, SlotsInTurn, NearestFirst, SlotAt, PrefersForward;
    forall id | id in added ensures id in available {
      BucketStartIs(id, bucket);
    }
    DistinctCount(added);
    assert (set id | id in added && id in available) == Elements(added);
    FirstSlots(free, PrefersForward(kept, q), IsCentered(q), added, bucket, available, |added|);
  }
}
