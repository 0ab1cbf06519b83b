/**
  The cache of shared-media scans. Requests, completions and failures of scans, evictions and
  invalidations interleave freely between the awaits of the program. Every entry is one scan; entries
  are numbered in the order in which their scans began, and the number plays the part of the identity
  of the entry object.
 */
module PartIndexCache {
  import opened SearchMasks

  const TTL: int := 30_000
  const LIMIT: nat := 8
  const MAX_ROWS: nat := 40_000

  /** What a request asks for, apart from kinds; `rest` stands for terms, sender and times. */
  datatype Query = Query(session: int, conversations: Option<seq<string>>, rest: int)

  /** Requests for the same conversations in another order share a key. */
  datatype Key = Key(session: int, conversations: Option<multiset<string>>, rest: int)

  datatype Entry = Entry(
    key: Key, conversationIds: seq<string>, mask: bv16, pending: bool, rows: Option<seq<IndexRow>>, settledAt: int)

  /** `order` lists the keys by insertion, as the map of the program iterates over them. */
  datatype Cache = Cache(byKey: map<Key, nat>, order: seq<Key>, entries: map<nat, Entry>, next: nat)

  datatype Event =
    | Request(query: Query, mask: bv16, now: int)
    | Complete(id: nat, rows: seq<IndexRow>, now: int)
    | Fail(id: nat)
    | Invalidate(conversation: string)
    | Clear

  /** How a request is served: by a scan under way, by settled rows, or by a scan of its own. */
  datatype Served = Shared(id: nat) | Settled(id: nat, rows: seq<IndexRow>) | Started(id: nat)

  const EMPTY: Cache := Cache(map[], [], map[], 0)

  function KeyOf(q: Query): Key {
    Key(q.session, if q.conversations.Some? then Some(multiset(q.conversations.value)) else None, q.rest)
  }

  function ConversationIds(q: Query): seq<string> {
    if q.conversations.Some? then q.conversations.value else []
  }

  predicate Stale(conversationIds: seq<string>, conversation: string) {
    conversationIds == [] || conversation in conversationIds
  }

  /** An event after which rows of earlier scans must not be served for a key. */
  predicate Invalidates(event: Event, key: Key) {
    match event
    case Invalidate(conversation) =>
      key.conversations.None? || |key.conversations.value| == 0 || conversation in key.conversations.value
    case Clear => true
    case Request(_, _, _) => false
    case Complete(_, _, _) => false
    case Fail(_) => false
  }

  // ---------------------------------------------------------------- one step

  ghost predicate Valid(c: Cache) {
    && (forall i, j :: 0 <= i < j < |c.order| ==> c.order[i] != c.order[j])
    && (forall key :: key in c.order <==> key in c.byKey)
    && |c.order| <= LIMIT
    && (forall id :: id in c.entries ==> id < c.next && (c.entries[id].pending ==> c.entries[id].rows.None?))
    && (forall key :: key in c.byKey ==> c.byKey[key] in c.entries && Holds(c.entries[c.byKey[key]], key))
  }

  /** An entry found under a key belongs to it and is still being scanned or has rows. */
  ghost predicate Holds(e: Entry, key: Key) {
    && e.key == key && (e.pending || e.rows.Some?)
    && forall conversation :: Stale(e.conversationIds, conversation) <==> Invalidates(Invalidate(conversation), key)
  }

  function Lookup(c: Cache, q: Query, mask: bv16, now: int): Served {
    var key := KeyOf(q);
    if key in c.byKey && c.byKey[key] in c.entries then
      var id := c.byKey[key];
      var e := c.entries[id];
      if !SearchIndexCovers(e.mask, mask) then Started(c.next)
      else if e.pending then Shared(id)
      else if e.rows.Some? && now - e.settledAt < TTL then Settled(id, e.rows.value)
      else Started(c.next)
    else Started(c.next)
  }

  function Remove(keys: seq<Key>, key: Key): (r: seq<Key>)
    ensures forall k :: k in r <==> k in keys && k != key
    ensures |r| <= |keys|
    ensures key !in keys ==> r == keys
  {
    if keys == [] then []
    else
      assert keys == [keys[0]] + keys[1..];
      if keys[0] == key then Remove(keys[1..], key) else [keys[0]] + Remove(keys[1..], key)
  }

  function Delete(c: Cache, key: Key): Cache {
    c.(byKey := c.byKey - {key}, order := Remove(c.order, key))
  }

  /** Drops the oldest keys until at most `LIMIT` are left. */
  function WithinLimit(c: Cache): Cache
    decreases |c.order|
  {
    if |c.order| > LIMIT then WithinLimit(c.(byKey := c.byKey - {c.order[0]}, order := c.order[1..])) else c
  }

  function Start(c: Cache, q: Query, mask: bv16): Cache {
    var key := KeyOf(q);
    WithinLimit(Cache(
      c.byKey[key := c.next],
      if key in c.byKey then c.order else c.order + [key],
      c.entries[c.next := Entry(key, ConversationIds(q), mask, true, None, 0)],
      c.next + 1))
  }

  /** A finished scan fills its entry, also when the entry has been replaced; it never puts it back. */
  function Finish(c: Cache, id: nat, rows: seq<IndexRow>, now: int): Cache {
    if id !in c.entries || !c.entries[id].pending then c
    else
      var e := c.entries[id].(pending := false);
      if |rows| > MAX_ROWS then Discard(c.(entries := c.entries[id := e]), id, e.key)
      else c.(entries := c.entries[id := e.(rows := Some(rows), settledAt := now)])
  }

  /** Removes the key if it still names the entry. */
  function Discard(c: Cache, id: nat, key: Key): Cache {
    if key in c.byKey && c.byKey[key] == id then Delete(c, key) else c
  }

  function Failed(c: Cache, id: nat): Cache {
    if id in c.entries && c.entries[id].pending then Discard(c, id, c.entries[id].key) else c
  }

  predicate StaleKey(c: Cache, key: Key, conversation: string) {
    key in c.byKey && c.byKey[key] in c.entries && Stale(c.entries[c.byKey[key]].conversationIds, conversation)
  }

  /** The keys of a list that stay when a conversation changes. */
  function FreshKeys(c: Cache, keys: seq<Key>, conversation: string): (r: seq<Key>)
    ensures |r| <= |keys|
    ensures forall key :: key in r <==> key in keys && !StaleKey(c, key, conversation)
  {
    if keys == [] then []
    else
      var init, last := keys[..|keys| - 1], keys[|keys| - 1];
      assert keys == init + [last];
      if StaleKey(c, last, conversation) then FreshKeys(c, init, conversation)
      else FreshKeys(c, init, conversation) + [last]
  }

  function Invalidated(c: Cache, conversation: string): Cache {
    c.(byKey := map key | key in c.byKey && !StaleKey(c, key, conversation) :: c.byKey[key],
       order := FreshKeys(c, c.order, conversation))
  }

  function Next(c: Cache, event: Event): Cache {
    match event
    case Request(q, mask, now) => if Lookup(c, q, mask, now).Started? then Start(c, q, mask) else c
    case Complete(id, rows, now) => Finish(c, id, rows, now)
    case Fail(id) => Failed(c, id)
    case Invalidate(conversation) => Invalidated(c, conversation)
    case Clear => c.(byKey := map[], order := [])
  }

  // ------------------------------------------------------------------- safety

  ghost predicate Distinct(keys: seq<Key>) {
    forall i, j :: 0 <= i < j < |keys| ==> keys[i] != keys[j]
  }

  lemma {:induction false} RemoveDistinct(keys: seq<Key>, key: Key)
    requires Distinct(keys)
    ensures Distinct(Remove(keys, key))
  {
    if keys != [] {
      RemoveDistinct(keys[1..], key);
      assert keys[0] !in keys[1..];
      assert forall k :: k in Remove(keys[1..], key) ==> k in keys[1..];
    }
  }

  lemma {:induction false} FreshKeysDistinct(c: Cache, keys: seq<Key>, conversation: string)
    requires Distinct(keys)
    ensures Distinct(FreshKeys(c, keys, conversation))
  {
    if keys != [] {
      FreshKeysDistinct(c, keys[..|keys| - 1], conversation);
    }
  }

  /** Everything but the size limit, which trimming restores. */
  ghost predicate NearlyValid(c: Cache) {
    && Distinct(c.order)
    && (forall key :: key in c.order <==> key in c.byKey)
    && (forall id :: id in c.entries ==> id < c.next && (c.entries[id].pending ==> c.entries[id].rows.None?))
    && (forall key :: key in c.byKey ==> c.byKey[key] in c.entries && Holds(c.entries[c.byKey[key]], key))
  }

  lemma DropOldestValid(c: Cache)
    requires NearlyValid(c) && c.order != []
    ensures NearlyValid(c.(byKey := c.byKey - {c.order[0]}, order := c.order[1..]))
  {
    hide Holds;
    assert c.order == [c.order[0]] + c.order[1..];
  }

  lemma {:induction false} WithinLimitValid(c: Cache)
    requires NearlyValid(c)
    ensures Valid(WithinLimit(c))
    ensures WithinLimit(c).entries == c.entries && WithinLimit(c).next == c.next
    ensures forall key :: key in WithinLimit(c).byKey ==> key in c.byKey && WithinLimit(c).byKey[key] == c.byKey[key]
    decreases |c.order|
  {
    if |c.order| > LIMIT {
      hide NearlyValid, Valid;
      DropOldestValid(c);
      WithinLimitValid(c.(byKey := c.byKey - {c.order[0]}, order := c.order[1..]));
    }
  }

  lemma OwnEntryHolds(q: Query, mask: bv16)
    ensures Holds(Entry(KeyOf(q), ConversationIds(q), mask, true, None, 0), KeyOf(q))
  {
    if q.conversations.Some? {
      forall conversation: string
        ensures conversation in q.conversations.value <==> conversation in multiset(q.conversations.value)
      {
      }
    }
  }

  lemma StartValid(c: Cache, q: Query, mask: bv16)
    requires Valid(c)
    ensures Valid(Start(c, q, mask)) && Start(c, q, mask).next == c.next + 1
    ensures var after := Start(c, q, mask);
            && (forall id :: id in c.entries ==> id in after.entries && after.entries[id] == c.entries[id])
            && (forall key :: key in after.byKey ==>
                  if key == KeyOf(q) then after.byKey[key] == c.next else key in c.byKey && after.byKey[key] == c.byKey[key])
            && c.next in after.entries && after.entries[c.next].key == KeyOf(q) && after.entries[c.next].mask == mask
            && after.entries[c.next].rows == None
            && (forall id :: id in after.entries && id != c.next ==> id in c.entries)
  {
    hide Holds, WithinLimit;
    OwnEntryHolds(q, mask);
    var key := KeyOf(q);
    WithinLimitValid(Cache(
      c.byKey[key := c.next],
      if key in c.byKey then c.order else c.order + [key],
      c.entries[c.next := Entry(key, ConversationIds(q), mask, true, None, 0)],
      c.next + 1));
  }

  lemma DiscardValid(c: Cache, id: nat, key: Key)
    requires NearlyValid(c) && |c.order| <= LIMIT
    ensures Valid(Discard(c, id, key))
  {
    hide Holds;
    RemoveDistinct(c.order, key);
  }

  /** An entry that no key names can change freely. */
  lemma OrphanValid(c: Cache, id: nat, e: Entry)
    requires Valid(c) && id < c.next && !e.pending
    requires forall key :: key in c.byKey ==> c.byKey[key] != id
    ensures Valid(c.(entries := c.entries[id := e]))
  {
    hide Holds;
  }

  lemma SettledValid(c: Cache, id: nat, e: Entry)
    requires Valid(c) && id in c.entries && !e.pending && e.rows.Some?
    requires e.key == c.entries[id].key && e.conversationIds == c.entries[id].conversationIds
    ensures Valid(c.(entries := c.entries[id := e]))
  {
    assert forall key :: Holds(c.entries[id], key) ==> Holds(e, key);
    hide Holds;
  }

  lemma DiscardedIsOrphan(c: Cache, id: nat)
    requires Valid(c) && id in c.entries
    ensures forall key :: key in Discard(c, id, c.entries[id].key).byKey ==> Discard(c, id, c.entries[id].key).byKey[key] != id
  {
    assert forall key :: Holds(c.entries[id], key) ==> key == c.entries[id].key;
    hide Holds;
  }

  lemma FinishValid(c: Cache, id: nat, rows: seq<IndexRow>, now: int)
    requires Valid(c)
    ensures Valid(Finish(c, id, rows, now))
  {
    hide Valid, Holds;
    if id in c.entries && c.entries[id].pending {
      var e := c.entries[id].(pending := false);
      if |rows| > MAX_ROWS {
        ValidParts(c, id);
        DiscardValid(c, id, e.key);
        DiscardedIsOrphan(c, id);
        OrphanValid(Discard(c, id, e.key), id, e);
      } else {
        SettledValid(c, id, e.(rows := Some(rows), settledAt := now));
      }
    }
  }

  lemma ValidParts(c: Cache, id: nat)
    requires Valid(c) && id in c.entries
    ensures NearlyValid(c) && |c.order| <= LIMIT && id < c.next
    ensures c.entries[id].pending ==> c.entries[id].rows.None?
  {
    hide Holds;
  }

  /** Every event keeps the cache valid. */
  lemma NextValid(c: Cache, event: Event)
    requires Valid(c)
    ensures Valid(Next(c, event)) && Next(c, event).next >= c.next
  {
    match event {
      case Request(q, mask, now) =>
        hide Start;
        StartValid(c, q, mask);
      case Complete(id, rows, now) => FinishValid(c, id, rows, now);
      case Fail(id) =>
        hide Holds;
        if id in c.entries {
          DiscardValid(c, id, c.entries[id].key);
        }
      case Invalidate(conversation) =>
        hide Holds;
        FreshKeysDistinct(c, c.order, conversation);
      case Clear =>
    }
  }

  /** An invalidation leaves nothing behind under a key it concerns. */
  lemma InvalidationRemoves(c: Cache, event: Event, key: Key)
    requires Valid(c) && Invalidates(event, key)
    ensures key !in Next(c, event).byKey
  {
    if event.Invalidate? && key in c.byKey {
      assert Holds(c.entries[c.byKey[key]], key);
      assert StaleKey(c, key, event.conversation);
    }
  }

  /** No event puts an older entry under a key: a key names what it named before or the newest scan. */
  lemma KeysOnlyMoveForward(c: Cache, event: Event, key: Key)
    requires Valid(c) && key in Next(c, event).byKey
    ensures (key in c.byKey && Next(c, event).byKey[key] == c.byKey[key]) || Next(c, event).byKey[key] == c.next
  {
    hide Holds;
    if event.Request? {
      hide Start;
      StartValid(c, event.query, event.mask);
    }
  }

  // --------------------------------------------------------------------- runs

  ghost predicate Run(caches: seq<Cache>, events: seq<Event>) {
    && |caches| == |events| + 1 && caches[0] == EMPTY
    && forall i :: 0 <= i < |events| ==> caches[i + 1] == Next(caches[i], events[i])
  }

  lemma {:induction false} RunValid(caches: seq<Cache>, events: seq<Event>, i: nat)
    requires Run(caches, events) && i < |caches|
    ensures Valid(caches[i])
  {
    hide Next;
    if i == 0 {
      hide Valid;
      EmptyValid();
    } else {
      RunValid(caches, events, i - 1);
      NextValid(caches[i - 1], events[i - 1]);
    }
  }

  lemma EmptyValid()
    ensures Valid(EMPTY)
  {
  }

  lemma {:induction false} NumbersGrow(caches: seq<Cache>, events: seq<Event>, i: nat, j: nat)
    requires Run(caches, events) && i <= j < |caches|
    ensures caches[i].next <= caches[j].next
  {
    hide Next;
    if i < j {
      NumbersGrow(caches, events, i, j - 1);
      RunValid(caches, events, j - 1);
      NextValid(caches[j - 1], events[j - 1]);
    }
  }

  /** After an invalidation only scans begun later are found under the key. */
  lemma {:induction false} StaleStaysOut(caches: seq<Cache>, events: seq<Event>, i: nat, j: nat, key: Key)
    requires Run(caches, events) && i < j < |caches| && Invalidates(events[i], key)
    ensures key in caches[j].byKey ==> caches[j].byKey[key] >= caches[i].next
  {
    hide Next;
    RunValid(caches, events, j - 1);
    if j == i + 1 {
      InvalidationRemoves(caches[i], events[i], key);
    } else {
      StaleStaysOut(caches, events, i, j - 1, key);
      NumbersGrow(caches, events, i, j - 1);
      if key in caches[j].byKey {
        KeysOnlyMoveForward(caches[j - 1], events[j - 1], key);
      }
    }
  }

  /**
    Freshness: in every run, a request made after its conversations were invalidated is served by a
    scan that began after the invalidation (scans begun before it have smaller numbers).
   */
  lemma Freshness(caches: seq<Cache>, events: seq<Event>, i: nat, j: nat)
    requires Run(caches, events) && i < j < |events| && events[j].Request? && Invalidates(events[i], KeyOf(events[j].query))
    ensures Lookup(caches[j], events[j].query, events[j].mask, events[j].now).id >= caches[i].next
    ensures forall id :: id in caches[i].entries ==> id < caches[i].next
  {
    hide Next;
    RunValid(caches, events, i);
    NumbersGrow(caches, events, i, j);
    StaleStaysOut(caches, events, i, j, KeyOf(events[j].query));
  }

  /** Whatever serves a request scanned for the same key with a mask that covers the wanted one. */
  lemma ServedScanCovers(caches: seq<Cache>, events: seq<Event>, j: nat)
    requires Run(caches, events) && j < |events| && events[j].Request?
    ensures var served := Lookup(caches[j], events[j].query, events[j].mask, events[j].now);
            var after := caches[j + 1];
            && served.id in after.entries
            && after.entries[served.id].key == KeyOf(events[j].query)
            && SearchIndexCovers(after.entries[served.id].mask, events[j].mask)
  {
    RunValid(caches, events, j);
    SelfContains(events[j].mask);
    hide Start, Contains;
    StartValid(caches[j], events[j].query, events[j].mask);
  }

  /** An entry changes its rows only when its own scan completes. */
  lemma RowsArrive(c: Cache, event: Event, id: nat)
    requires Valid(c) && id in Next(c, event).entries && Next(c, event).entries[id].rows.Some?
    ensures var e := Next(c, event).entries[id];
            || (id in c.entries && c.entries[id] == e)
            || (event == Complete(id, e.rows.value, e.settledAt) && id in c.entries && c.entries[id].pending &&
                |e.rows.value| <= MAX_ROWS)
  {
    hide Valid, Start;
    if event.Request? {
      StartValid(c, event.query, event.mask);
    }
    if id in c.entries {
      ValidParts(c, id);
    }
  }

  /** Rows in an entry are those its own scan completed with, at the time recorded. */
  lemma {:induction false} RowsComeFromTheirScan(caches: seq<Cache>, events: seq<Event>, j: nat, id: nat) returns (i: nat)
    requires Run(caches, events) && j < |caches| && id in caches[j].entries && caches[j].entries[id].rows.Some?
    ensures i < j && events[i] == Complete(id, caches[j].entries[id].rows.value, caches[j].entries[id].settledAt)
    ensures id in caches[i].entries && caches[i].entries[id].pending && |caches[j].entries[id].rows.value| <= MAX_ROWS
  {
    hide Next;
    assert j > 0;
    RunValid(caches, events, j - 1);
    RowsArrive(caches[j - 1], events[j - 1], id);
    var before := caches[j - 1];
    if id in before.entries && before.entries[id] == caches[j].entries[id] {
      i := RowsComeFromTheirScan(caches, events, j - 1, id);
    } else {
      i := j - 1;
    }
  }

  /** The map after an invalidation has gone through some keys. */
  function Dropping(c: Cache, keys: seq<Key>, conversation: string): (r: map<Key, nat>)
    ensures forall key :: key in r <==> key in c.byKey && !(key in keys && StaleKey(c, key, conversation))
    ensures forall key :: key in r ==> r[key] == c.byKey[key]
  {
    if keys == [] then c.byKey
    else
      var init, last := keys[..|keys| - 1], keys[|keys| - 1];
      assert keys == init + [last];
      if StaleKey(c, last, conversation) then Dropping(c, init, conversation) - {last}
      else Dropping(c, init, conversation)
  }

  lemma DropOne(c: Cache, conversation: string, keys: seq<Key>, n: nat)
    requires n < |keys|
    ensures var stale := StaleKey(c, keys[n], conversation);
            && Dropping(c, keys[..n + 1], conversation) ==
                 (if stale then Dropping(c, keys[..n], conversation) - {keys[n]} else Dropping(c, keys[..n], conversation))
            && FreshKeys(c, keys[..n + 1], conversation) ==
                 (if stale then FreshKeys(c, keys[..n], conversation) else FreshKeys(c, keys[..n], conversation) + [keys[n]])
  {
    hide StaleKey;
    assert keys[..n + 1][..n] == keys[..n] && keys[..n + 1][n] == keys[n];
  }

  lemma StartDropping(c: Cache, keys: seq<Key>, conversation: string)
    ensures Dropping(c, keys[..0], conversation) == c.byKey && FreshKeys(c, keys[..0], conversation) == []
    ensures keys[..|keys|] == keys
  {
  }

  lemma KeyIsLive(c: Cache, conversation: string, n: nat)
    requires Valid(c) && n < |c.order|
    ensures var key, byKey := c.order[n], Dropping(c, c.order[..n], conversation);
            && key in byKey && byKey[key] in c.entries
            && (Stale(c.entries[byKey[key]].conversationIds, conversation) <==> StaleKey(c, key, conversation))
  {
    hide Holds, Stale;
    assert c.order[n] in c.order;
    assert forall j :: 0 <= j < n ==> c.order[..n][j] == c.order[j];
  }

  lemma DropAll(c: Cache, conversation: string)
    requires forall key :: key in c.byKey ==> key in c.order
    ensures Dropping(c, c.order, conversation) == Invalidated(c, conversation).byKey
  {
    hide StaleKey, FreshKeys;
  }

  /** What the invalidation loop has done when it has gone through all keys. */
  lemma InvalidationIs(c: Cache, conversation: string)
    requires Valid(c)
    ensures var after := Next(c, Invalidate(conversation));
            && after == c.(byKey := Dropping(c, c.order, conversation), order := FreshKeys(c, c.order, conversation))
            && Valid(after)
  {
    NextValid(c, Invalidate(conversation));
    hide StaleKey, FreshKeys, Holds, Dropping;
    DropAll(c, conversation);
  }

  /** Whoever asks for the same while a scan has just begun shares it: a new scan is never evicted at once. */
  lemma ConcurrentRequestsShare(c: Cache, q: Query, mask: bv16, now: int, other: Query, otherMask: bv16, later: int)
    requires Valid(c) && Lookup(c, q, mask, now).Started?
    requires KeyOf(other) == KeyOf(q) && SearchIndexCovers(mask, otherMask)
    ensures Lookup(Next(c, Request(q, mask, now)), other, otherMask, later) == Shared(Lookup(c, q, mask, now).id)
  {
    hide Holds, SearchIndexCovers;
    var key := KeyOf(q);
    var order := if key in c.byKey then c.order else c.order + [key];
    var full := Cache(
      c.byKey[key := c.next], order, c.entries[c.next := Entry(key, ConversationIds(q), mask, true, None, 0)], c.next + 1);
    if key in c.byKey {
      assert WithinLimit(full) == full;
    } else {
      TrimsOldest(full);
    }
  }

  /** One key too many: only the oldest goes. */
  lemma TrimsOldest(c: Cache)
    requires |c.order| <= LIMIT + 1
    ensures WithinLimit(c) ==
            if |c.order| <= LIMIT then c else c.(byKey := c.byKey - {c.order[0]}, order := c.order[1..])
  {
  }

  // -------------------------------------------------------------------- store

  /** The cache: a map with insertion order, and entries updated in place. */
  class Store {
    var byKey: map<Key, nat>
    var order: seq<Key>
    var entries: map<nat, Entry>
    var next: nat

    function State(): Cache
      reads this
    {
      Cache(byKey, order, entries, next)
    }

    constructor ()
      ensures State() == EMPTY
    {
      byKey, order, entries, next := map[], [], map[], 0;
    }

    /** The part of a request before its first await: reuse what is there or begin a scan. */
    method Request(q: Query, mask: bv16, now: int) returns (served: Served)
      requires Valid(State())
      modifies this
      ensures served == Lookup(old(State()), q, mask, now)
      ensures State() == Next(old(State()), Event.Request(q, mask, now)) && Valid(State())
    {
      NextValid(State(), Event.Request(q, mask, now));
      hide Valid, SearchIndexCovers, WithinLimit;
      ghost var before := State();
      var key := KeyOf(q);
      if key in byKey && byKey[key] in entries {
        var id := byKey[key];
        var e := entries[id];
        if SearchIndexCovers(e.mask, mask) {
          if e.pending {
            return Shared(id);
          }
          if e.rows.Some? && now - e.settledAt < TTL {
            return Settled(id, e.rows.value);
          }
        }
      }
      served := Started(next);
      entries := entries[next := Entry(key, ConversationIds(q), mask, true, None, 0)];
      if key !in byKey {
        order := order + [key];
      }
      byKey := byKey[key := next];
      next := next + 1;
      Trim();
    }

    method Trim()
      modifies this
      ensures State() == WithinLimit(old(State()))
    {
      while |order| > LIMIT
        invariant WithinLimit(State()) == WithinLimit(old(State()))
      {
        var oldest := order[0];
        byKey, order := byKey - {oldest}, order[1..];
      }
    }

    /** Removes a key if it still names the entry. */
    method DiscardKey(id: nat, key: Key)
      modifies this
      ensures State() == Discard(old(State()), id, key)
    {
      if key in byKey && byKey[key] == id {
        byKey, order := byKey - {key}, Remove(order, key);
      }
    }

    /** What follows the await when the scan has ended. */
    method Complete(id: nat, rows: seq<IndexRow>, now: int)
      requires Valid(State())
      requires id in entries && entries[id].pending
      modifies this
      ensures State() == Next(old(State()), Event.Complete(id, rows, now)) && Valid(State())
    {
      NextValid(State(), Event.Complete(id, rows, now));
      hide Valid;
      entries := entries[id := entries[id].(pending := false)];
      if |rows| > MAX_ROWS {
        DiscardKey(id, entries[id].key);
      } else {
        entries := entries[id := entries[id].(rows := Some(rows), settledAt := now)];
      }
    }

    /** What follows the await when the scan has failed. */
    method Fail(id: nat)
      requires Valid(State())
      requires id in entries && entries[id].pending
      modifies this
      ensures State() == Next(old(State()), Event.Fail(id)) && Valid(State())
    {
      NextValid(State(), Event.Fail(id));
      hide Valid;
      DiscardKey(id, entries[id].key);
    }

    /** Goes through the map in insertion order and drops what the change of a conversation makes stale. */
    method Invalidate(conversation: string)
      requires Valid(State())
      modifies this
      ensures State() == Next(old(State()), Event.Invalidate(conversation)) && Valid(State())
    {
      hide Valid, FreshKeys, Dropping, StaleKey, Stale, Invalidated, Next;
      ghost var before := State();
      InvalidationIs(before, conversation);
      var keys, kept := order, [];
      StartDropping(before, keys, conversation);
      for i := 0 to |keys|
        invariant order == before.order && entries == before.entries && next == before.next
        invariant byKey == Dropping(before, keys[..i], conversation) && kept == FreshKeys(before, keys[..i], conversation)
      {
        DropOne(before, conversation, keys, i);
        KeyIsLive(before, conversation, i);
        if Stale(entries[byKey[keys[i]]].conversationIds, conversation) {
          byKey := byKey - {keys[i]};
        } else {
          kept := kept + [keys[i]];
        }
      }
      order := kept;
    }

    method Clear()
      requires Valid(State())
      modifies this
      ensures State() == Next(old(State()), Event.Clear) && Valid(State())
    {
      byKey, order := map[], [];
    }
  }
}
