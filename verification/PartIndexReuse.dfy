/**
  Which scans serve which requests, over whole runs and in terms of the events: a request is served by a scan
  that was begun for the same query, under a mask that has all kinds wanted, and that is still running or whose
  rows are less than 30 seconds old; and a key is forgotten for no other reason than those of the program.
 */
module PartIndexReuse {
  import opened SearchMasks
  import opened PartIndexCache

  /** The same session, the same conversations in any order, the same terms, sender and times. */
  predicate SameQuestion(a: Query, b: Query) {
    && a.session == b.session && a.rest == b.rest
    && (a.conversations.None? <==> b.conversations.None?)
    && (a.conversations.Some? && b.conversations.Some? ==>
          multiset(a.conversations.value) == multiset(b.conversations.value))
  }

  lemma SameQuestionSharesKey(a: Query, b: Query)
    ensures KeyOf(a) == KeyOf(b) <==> SameQuestion(a, b)
  {
  }

  /** The scan is without kinds, or has all the kinds wanted, of which there are some. */
  predicate Suffices(scan: bv16, mask: bv16) {
    scan == 0 || (mask != 0 && scan | mask == scan)
  }

  lemma CoveringSuffices(scan: bv16, mask: bv16)
    ensures SearchIndexCovers(scan, mask) <==> Suffices(scan, mask)
  {
    ContainedBits(scan, mask);
    hide Contains;
  }

  lemma ContainedBits(scan: bv16, mask: bv16)
    ensures Contains(scan, mask) <==> scan | mask == scan
  {
    assert scan & mask == mask ==> scan | mask == scan;
    assert scan | mask == scan ==> scan & mask == mask;
  }

  // ------------------------------------------------------------ scans and events

  /** Event `i` began scan `id`. */
  ghost predicate Begins(caches: seq<Cache>, events: seq<Event>, i: nat, id: nat)
    requires |caches| == |events| + 1 && i < |events|
  {
    && events[i].Request? && id == caches[i].next
    && Lookup(caches[i], events[i].query, events[i].mask, events[i].now) == Started(id)
  }

  /** What a step leaves of an entry that was there. */
  lemma EntryStays(c: Cache, event: Event, id: nat)
    requires Valid(c) && id in Next(c, event).entries
    ensures var e := Next(c, event).entries[id];
            if id in c.entries then
              && e.key == c.entries[id].key && e.mask == c.entries[id].mask
              && (e.pending <==> c.entries[id].pending && !(event.Complete? && event.id == id))
            else
              && event.Request? && id == c.next && Lookup(c, event.query, event.mask, event.now) == Started(id)
              && e.key == KeyOf(event.query) && e.mask == event.mask && e.pending
  {
    hide Valid, Start, SearchIndexCovers;
    if event.Request? {
      StartValid(c, event.query, event.mask);
      StartedIsPending(c, event.query, event.mask);
    }
    if id in c.entries {
      ValidParts(c, id);
    }
  }

  lemma StartedIsPending(c: Cache, q: Query, mask: bv16)
    requires Valid(c)
    ensures c.next in Start(c, q, mask).entries && Start(c, q, mask).entries[c.next].pending
  {
    hide Holds, Valid, WithinLimit;
    var key := KeyOf(q);
    KeepsEntries(Cache(
      c.byKey[key := c.next],
      if key in c.byKey then c.order else c.order + [key],
      c.entries[c.next := Entry(key, ConversationIds(q), mask, true, None, 0)],
      c.next + 1));
  }

  lemma {:induction false} KeepsEntries(c: Cache)
    ensures WithinLimit(c).entries == c.entries
    decreases |c.order|
  {
    if |c.order| > LIMIT {
      KeepsEntries(c.(byKey := c.byKey - {c.order[0]}, order := c.order[1..]));
    }
  }

  /** Every entry was begun by a request, whose key and mask it has; it is pending until its scan completes. */
  lemma {:induction false} BegunByRequest(caches: seq<Cache>, events: seq<Event>, j: nat, id: nat) returns (i: nat)
    requires Run(caches, events) && j < |caches| && id in caches[j].entries
    ensures i < j && Begins(caches, events, i, id)
    ensures caches[j].entries[id].key == KeyOf(events[i].query) && caches[j].entries[id].mask == events[i].mask
    ensures caches[j].entries[id].pending <==> forall k :: i < k < j ==> !(events[k].Complete? && events[k].id == id)
  {
    hide Next, Valid, Lookup;
    if j == 0 {
      assert false;
    }
    RunValid(caches, events, j - 1);
    EntryStays(caches[j - 1], events[j - 1], id);
    if id in caches[j - 1].entries {
      i := BegunByRequest(caches, events, j - 1, id);
    } else {
      i := j - 1;
    }
  }

  /** A scan that has failed is found under no key again. */
  lemma {:induction false} FailedStaysOut(caches: seq<Cache>, events: seq<Event>, i: nat, j: nat, id: nat, key: Key)
    requires Run(caches, events) && i < j < |caches| && events[i] == Fail(id)
    requires id in caches[i].entries && caches[i].entries[id].pending
    ensures key in caches[j].byKey ==> caches[j].byKey[key] != id
  {
    hide Next, Lookup;
    RunValid(caches, events, j - 1);
    if j == i + 1 {
      FailureRemoves(caches[i], id, key);
    } else {
      FailedStaysOut(caches, events, i, j - 1, id, key);
      RunValid(caches, events, i);
      NumbersGrow(caches, events, i, j - 1);
      if key in caches[j].byKey {
        KeysOnlyMoveForward(caches[j - 1], events[j - 1], key);
      }
    }
  }

  lemma FailureRemoves(c: Cache, id: nat, key: Key)
    requires Valid(c) && id in c.entries && c.entries[id].pending
    ensures key in Next(c, Fail(id)).byKey ==> Next(c, Fail(id)).byKey[key] != id
  {
    DiscardedIsOrphan(c, id);
  }

  // ------------------------------------------------------------------ theorems

  /** Whatever serves a request was begun by a request for the same under a mask that suffices. */
  lemma ServedByTheSame(caches: seq<Cache>, events: seq<Event>, j: nat) returns (i: nat)
    requires Run(caches, events) && j < |events| && events[j].Request?
    ensures i <= j && Begins(caches, events, i, Lookup(caches[j], events[j].query, events[j].mask, events[j].now).id)
    ensures SameQuestion(events[i].query, events[j].query) && Suffices(events[i].mask, events[j].mask)
  {
    ServedScanCovers(caches, events, j);
    hide Next, Lookup, Valid;
    var served := Lookup(caches[j], events[j].query, events[j].mask, events[j].now);
    i := BegunByRequest(caches, events, j + 1, served.id);
    SameQuestionSharesKey(events[i].query, events[j].query);
    CoveringSuffices(events[i].mask, events[j].mask);
  }

  /** Rows that are served are those their scan completed with, less than 30 seconds before, and at most 40,000. */
  lemma SettledIsYoung(caches: seq<Cache>, events: seq<Event>, j: nat) returns (i: nat)
    requires Run(caches, events) && j < |events| && events[j].Request?
    requires Lookup(caches[j], events[j].query, events[j].mask, events[j].now).Settled?
    ensures var served := Lookup(caches[j], events[j].query, events[j].mask, events[j].now);
            && i < j && events[i].Complete? && events[i].id == served.id && events[i].rows == served.rows
            && events[j].now - events[i].now < 30_000 && |served.rows| <= 40_000
  {
    hide Next, Valid, SearchIndexCovers;
    var served := Lookup(caches[j], events[j].query, events[j].mask, events[j].now);
    i := RowsComeFromTheirScan(caches, events, j, served.id);
  }

  /** A scan that is shared has neither completed nor failed. */
  lemma SharedIsRunning(caches: seq<Cache>, events: seq<Event>, j: nat, k: nat)
    requires Run(caches, events) && k < j < |events| && events[j].Request?
    requires Lookup(caches[j], events[j].query, events[j].mask, events[j].now).Shared?
    ensures var id := Lookup(caches[j], events[j].query, events[j].mask, events[j].now).id;
            id in caches[k].entries ==> !(events[k].Complete? && events[k].id == id) && events[k] != Fail(id)
  {
    hide Next, Valid, SearchIndexCovers;
    var id := Lookup(caches[j], events[j].query, events[j].mask, events[j].now).id;
    if id in caches[k].entries {
      var i := BegunByRequest(caches, events, j, id);
      var first := BegunByRequest(caches, events, k, id);
      BegunOnce(caches, events, first, i, id);
      if events[k] == Fail(id) {
        FailedStaysOut(caches, events, k, j, id, KeyOf(events[j].query));
      }
    }
  }

  lemma BegunOnce(caches: seq<Cache>, events: seq<Event>, i: nat, j: nat, id: nat)
    requires Run(caches, events) && i < |events| && j < |events| && Begins(caches, events, i, id) && Begins(caches, events, j, id)
    ensures i == j
  {
    hide Next, Valid, Lookup;
    if i < j {
      BeginningCounts(caches, events, i, id);
      NumbersGrow(caches, events, i + 1, j);
    } else if j < i {
      BeginningCounts(caches, events, j, id);
      NumbersGrow(caches, events, j + 1, i);
    }
  }

  lemma BeginningCounts(caches: seq<Cache>, events: seq<Event>, i: nat, id: nat)
    requires Run(caches, events) && i < |events| && Begins(caches, events, i, id)
    ensures caches[i + 1].next == id + 1
  {
    RunValid(caches, events, i);
    hide Valid, Start, Lookup;
    StartValid(caches[i], events[i].query, events[i].mask);
  }

  /** Once a scan has completed under its key, it serves the same question for 30 seconds, and not a moment longer. */
  lemma SettledServes(c: Cache, id: nat, rows: seq<IndexRow>, now: int, q: Query, mask: bv16, later: int)
    requires Valid(c) && KeyOf(q) in c.byKey && c.byKey[KeyOf(q)] == id && c.entries[id].pending && |rows| <= 40_000
    requires SearchIndexCovers(c.entries[id].mask, mask)
    ensures Lookup(Next(c, Complete(id, rows, now)), q, mask, later) ==
            if later - now < 30_000 then Settled(id, rows) else Started(c.next)
  {
    hide SearchIndexCovers, Holds;
  }

  /** A result that is too large is kept for nobody. */
  lemma TooLargeIsForgotten(c: Cache, id: nat, rows: seq<IndexRow>, now: int, q: Query, mask: bv16, later: int)
    requires Valid(c) && KeyOf(q) in c.byKey && c.byKey[KeyOf(q)] == id && c.entries[id].pending && |rows| > 40_000
    ensures Lookup(Next(c, Complete(id, rows, now)), q, mask, later) == Started(c.next)
  {
    assert Holds(c.entries[id], KeyOf(q));
    hide SearchIndexCovers, Holds;
  }

  /** The event is a reason to forget the key. */
  predicate Forgets(c: Cache, event: Event, key: Key)
    requires key in c.byKey && c.byKey[key] in c.entries
  {
    var id := c.byKey[key];
    match event
    case Request(q, mask, now) =>
      // the oldest of eight keys gives way to a ninth
      KeyOf(q) !in c.byKey && |c.order| == 8 && key == c.order[0]
    case Complete(done, rows, _) => done == id && c.entries[id].pending && |rows| > 40_000
    case Fail(failed) => failed == id && c.entries[id].pending
    case Invalidate(conversation) =>
      key.conversations.None? || |key.conversations.value| == 0 || conversation in key.conversations.value
    case Clear => true
  }

  /** Every step keeps every key but those it has a reason to forget, and adds only that of a scan that begins. */
  lemma KeysChangeOnlySo(c: Cache, event: Event, key: Key)
    requires Valid(c)
    ensures key in c.byKey ==> (key in Next(c, event).byKey <==> !Forgets(c, event, key))
    ensures key !in c.byKey ==> (key in Next(c, event).byKey <==> event.Request? && key == KeyOf(event.query))
  {
    hide Holds, SearchIndexCovers;
    match event {
      case Request(q, mask, now) => RequestKeys(c, q, mask, now, key);
      case Complete(id, rows, now) => CompletionKeys(c, id, rows, now, key);
      case Fail(id) => FailureKeys(c, id, key);
      case Invalidate(conversation) => InvalidationKeys(c, conversation, key);
      case Clear =>
    }
  }

  lemma RequestKeys(c: Cache, q: Query, mask: bv16, now: int, key: Key)
    requires Valid(c)
    ensures var after := Next(c, Request(q, mask, now));
            && (key in c.byKey ==> (key in after.byKey <==> !(KeyOf(q) !in c.byKey && |c.order| == 8 && key == c.order[0])))
            && (key !in c.byKey ==> (key in after.byKey <==> key == KeyOf(q)))
  {
    hide Holds, SearchIndexCovers;
    var own := KeyOf(q);
    var order := if own in c.byKey then c.order else c.order + [own];
    var full := Cache(
      c.byKey[own := c.next], order, c.entries[c.next := Entry(own, ConversationIds(q), mask, true, None, 0)], c.next + 1);
    TrimsOldest(full);
    if |c.order| > 0 {
      assert c.order[0] in c.order;
    }
  }

  lemma CompletionKeys(c: Cache, id: nat, rows: seq<IndexRow>, now: int, key: Key)
    requires Valid(c)
    ensures key in Next(c, Complete(id, rows, now)).byKey <==>
              key in c.byKey && !(c.byKey[key] == id && c.entries[id].pending && |rows| > 40_000)
  {
    if key in c.byKey {
      assert Holds(c.entries[c.byKey[key]], key);
    }
    hide Holds;
  }

  lemma FailureKeys(c: Cache, id: nat, key: Key)
    requires Valid(c)
    ensures key in Next(c, Fail(id)).byKey <==> key in c.byKey && !(c.byKey[key] == id && c.entries[id].pending)
  {
    if key in c.byKey {
      assert Holds(c.entries[c.byKey[key]], key);
    }
    hide Holds;
  }

  lemma InvalidationKeys(c: Cache, conversation: string, key: Key)
    requires Valid(c)
    ensures key in Next(c, Invalidate(conversation)).byKey <==> key in c.byKey && !Invalidates(Invalidate(conversation), key)
  {
    if key in c.byKey {
      assert Holds(c.entries[c.byKey[key]], key);
    }
    hide Holds, Stale;
  }
}
