/**
  Deliveries and dates in terms of the events of a run: when a delivery is dropped, whether it has its payload,
  since when it is claimed, when it can be discarded, and which date an account stands at.
 */
module UpdateHistories {
  import opened UpdateJournal
  import opened UpdateCounters

  // ----------------------------------------------------------------- retention

  /** The oldest of a list that is as long as it may be gives way to a new delivery of its scope. */
  predicate GivesWay(s: State, event: Event, key: string) {
    && event.Prepare? && event.stored && event.key !in s.journal.deliveries
    && key in s.journal.deliveries && s.journal.deliveries[key].scope == Scope(event.session, event.channel)
    && var list := KeysOf(s.journal, Scope(event.session, event.channel));
       |list| == s.journal.retention && list != [] && list[0] == key
  }

  lemma TrimmedList(j: Journal, scope: Scope, key: string)
    requires key in j.deliveries && Distinct(KeysOf(j, scope)) && |KeysOf(j, scope)| <= j.retention + 1
    ensures key in Trimmed(j, scope).deliveries <==> !(|KeysOf(j, scope)| > j.retention && KeysOf(j, scope)[0] == key)
  {
    var list := KeysOf(j, scope);
    if |list| > j.retention {
      assert list[..|list| - j.retention] == [list[0]];
    }
  }

  lemma CreationDrops(j: Journal, added: string, d: Delivery, key: string)
    requires Agrees(j) && added !in j.deliveries && key in j.deliveries
    ensures var list := KeysOf(j, d.scope);
            key in Created(j, added, d).deliveries <==> !(|list| == j.retention && list != [] && list[0] == key)
  {
    var list := KeysOf(j, d.scope);
    assert ListOk(j, d.scope, list);
    var longer := Journal(j.retention, j.deliveries[added := d], j.keys[d.scope := list + [added]]);
    assert KeysOf(longer, d.scope) == list + [added];
    TrimmedList(longer, d.scope, key);
  }

  lemma PruningDropsNothing(j: Journal, scope: Scope)
    requires Agrees(j)
    ensures Trimmed(j, scope) == j
  {
    assert ListOk(j, scope, KeysOf(j, scope));
  }

  /**
    A delivery is dropped exactly when it is discarded by its key, or when it is the oldest of its scope, as many
    as are retained are stored, and a new one comes.
   */
  lemma DroppedOnlySo(s: State, event: Event, key: string)
    requires Agrees(s.journal) && key in s.journal.deliveries
    ensures key !in Next(s, event).journal.deliveries <==> Discards(s, event, key) || GivesWay(s, event, key)
  {
    hide Agrees, Created, Trimmed;
    match event
    case AdvancePts(_, _, _, _) =>
    case AdvanceUpdateState(_, _, _) =>
    case Prepare(added, session, count, date, channel, now, stored) =>
      if added !in s.journal.deliveries {
        CreationDrops(s.journal, added, DeliveryFor(s, session, count, date, channel, now), key);
        FirstIsOfScope(s.journal, Scope(session, channel));
      }
    case SetPayload(_) =>
    case Discard(_, _, _) =>
    case Prune(session) => PruningDropsNothing(s.journal, Scope(session, None));
  }

  lemma FirstIsOfScope(j: Journal, scope: Scope)
    requires Agrees(j)
    ensures var list := KeysOf(j, scope);
            list != [] ==> list[0] in j.deliveries && j.deliveries[list[0]].scope == scope
  {
    assert ListOk(j, scope, KeysOf(j, scope));
  }

  /** The order of a list is that of the creation of its deliveries: its first is the oldest. */
  lemma {:induction false} ListIsInOrder(
      states: seq<State>, events: seq<Event>, j: nat, scope: Scope, older: string, newer: string) returns (a: nat, b: nat)
    requires Run(states, events) && j < |states| && Lists(states[j].journal, scope, older, newer)
    ensures a < b < j && Creates(states[a], events[a], older) && Creates(states[b], events[b], newer)
    ensures forall k :: a < k <= j ==> older in states[k].journal.deliveries
    ensures forall k :: b < k <= j ==> newer in states[k].journal.deliveries
  {
    hide Next, Agrees, Lists, Creates, Discards;
    RunAgrees(states, events, j);
    ListedIsStored(states[j].journal, scope, older, newer);
    a := DeliveryWasAllocated(states, events, j, older);
    b := DeliveryWasAllocated(states, events, j, newer);
    if b <= a {
      ListedLater(states, events, j, scope, older, newer, a, b);
    }
  }

  /** If `older` was created no earlier than `newer` and both have stayed, it is not listed first. */
  lemma ListedLater(
      states: seq<State>, events: seq<Event>, j: nat, scope: Scope, older: string, newer: string, a: nat, b: nat)
    requires Run(states, events) && b <= a < j < |states|
    requires Creates(states[a], events[a], older) && Creates(states[b], events[b], newer)
    requires forall k :: a < k <= j ==> older in states[k].journal.deliveries
    requires forall k :: b < k <= j ==> newer in states[k].journal.deliveries
    ensures !Lists(states[j].journal, scope, older, newer)
  {
    hide Next, Agrees, Lists, Discards;
    RunAgrees(states, events, j);
    if Lists(states[j].journal, scope, older, newer) {
      ListedDiffer(states[j].journal, scope, older, newer);
      RunAgrees(states, events, a);
      assert states[a + 1] == Next(states[a], events[a]);
      ScopesStay(states, events, j, older, newer, a, b, scope);
      CreationListsLast(states[a], events[a], newer, older);
      forall k | a + 1 <= k < j ensures !Discards(states[k], events[k], older) {
        DiscardDrops(states[k], events[k], older);
        assert states[k + 1] == Next(states[k], events[k]);
      }
      RunKeepsListing(states, events, a + 1, j, scope, newer, older);
      ListedOneWay(states[j].journal, scope, newer, older);
    }
  }

  lemma DiscardDrops(s: State, event: Event, key: string)
    ensures Discards(s, event, key) ==> key !in Next(s, event).journal.deliveries
  {
  }

  lemma ListedDiffer(j: Journal, scope: Scope, older: string, newer: string)
    requires Agrees(j) && Lists(j, scope, older, newer)
    ensures older != newer && older in j.deliveries && newer in j.deliveries
    ensures j.deliveries[older].scope == scope && j.deliveries[newer].scope == scope
  {
    assert ListOk(j, scope, KeysOf(j, scope));
  }

  lemma ListedOneWay(j: Journal, scope: Scope, older: string, newer: string)
    requires Agrees(j) && Lists(j, scope, older, newer)
    ensures !Lists(j, scope, newer, older)
  {
    assert ListOk(j, scope, KeysOf(j, scope));
  }

  lemma ScopesStay(
      states: seq<State>, events: seq<Event>, j: nat, older: string, newer: string, a: nat, b: nat, scope: Scope)
    requires Run(states, events) && b < a < j < |states|
    requires Creates(states[a], events[a], older)
    requires forall k :: a < k <= j ==> older in states[k].journal.deliveries
    requires forall k :: b < k <= j ==> newer in states[k].journal.deliveries
    requires states[j].journal.deliveries[older].scope == scope && states[j].journal.deliveries[newer].scope == scope
    ensures newer in states[a].journal.deliveries && states[a].journal.deliveries[newer].scope == scope
    ensures Scope(events[a].session, events[a].channel) == scope
  {
    hide Agrees, Lists, Discards;
    DeliveriesAreStable(states, events, a, j, newer);
    DeliveriesAreStable(states, events, a + 1, j, older);
    assert states[a + 1] == Next(states[a], events[a]);
    DeliveryStep(states[a], events[a], older);
  }

  // --------------------------------------------------------- payloads and claims

  ghost predicate FilledBetween(events: seq<Event>, i: nat, j: nat, key: string)
    requires j <= |events|
  {
    exists m: nat :: i < m < j && events[m] == SetPayload(key)
  }

  /** Event `m` is the last before state `j` that prepared the delivery. */
  ghost predicate LastPrepared(events: seq<Event>, m: nat, j: nat, key: string)
    requires m < j <= |events|
  {
    events[m].Prepare? && events[m].key == key && forall k :: m < k < j ==> !(events[k].Prepare? && events[k].key == key)
  }

  /** What an event does to the payload and the claim of a delivery that is stored after it. */
  lemma ContentStep(s: State, event: Event, key: string)
    requires key in Next(s, event).journal.deliveries
    ensures var d := Next(s, event).journal.deliveries[key];
            && d.hasPayload == (event == SetPayload(key) || (key in s.journal.deliveries && s.journal.deliveries[key].hasPayload))
            && if event.Prepare? && event.key == key then d.claimedAt == event.now
               else key in s.journal.deliveries && d.claimedAt == s.journal.deliveries[key].claimedAt
  {
  }

  /**
    A stored delivery has its payload exactly if it was filled since it was created, and is claimed since it was
    last prepared.
   */
  lemma {:induction false} ContentIsHistory(states: seq<State>, events: seq<Event>, j: nat, key: string)
      returns (i: nat, m: nat)
    requires Run(states, events) && j < |states| && key in states[j].journal.deliveries
    ensures i < j && Creates(states[i], events[i], key)
    ensures forall k :: i < k <= j ==> key in states[k].journal.deliveries
    ensures states[j].journal.deliveries[key].hasPayload <==> FilledBetween(events, i, j, key)
    ensures i <= m < j && LastPrepared(events, m, j, key) && states[j].journal.deliveries[key].claimedAt == events[m].now
  {
    hide Next, Creates;
    assert j > 0;
    assert states[j] == Next(states[j - 1], events[j - 1]);
    ContentStep(states[j - 1], events[j - 1], key);
    DeliveryStep(states[j - 1], events[j - 1], key);
    if key in states[j - 1].journal.deliveries {
      i, m := ContentIsHistory(states, events, j - 1, key);
      if events[j - 1] == SetPayload(key) {
        assert i < j - 1 < j && events[j - 1] == SetPayload(key);
      }
      if events[j - 1].Prepare? && events[j - 1].key == key {
        m := j - 1;
      }
    } else {
      i, m := j - 1, j - 1;
      assert Creates(states[i], events[i], key) by {
        DeliveryStep(states[j - 1], events[j - 1], key);
      }
      CreationPrepares(states[i], events[i], key);
    }
  }

  lemma CreationPrepares(s: State, event: Event, key: string)
    requires Creates(s, event, key)
    ensures event.Prepare? && event.key == key
  {
  }

  /**
    A delivery is discarded exactly while nothing has filled it, and, if it must be abandoned, 30 seconds after it
    was last prepared.
   */
  lemma DiscardIsExact(states: seq<State>, events: seq<Event>, j: nat) returns (i: nat, m: nat)
    requires Run(states, events) && j < |events| && events[j].Discard? && events[j].key in states[j].journal.deliveries
    ensures i <= m < j && Creates(states[i], events[i], events[j].key) && LastPrepared(events, m, j, events[j].key)
    ensures events[j].key !in states[j + 1].journal.deliveries <==>
              !FilledBetween(events, i, j, events[j].key) &&
              (events[j].onlyIfAbandoned ==> events[j].now - events[m].now >= 30)
  {
    i, m := ContentIsHistory(states, events, j, events[j].key);
    assert states[j + 1] == Next(states[j], events[j]);
  }

  // --------------------------------------------------------------------- dates

  /** The event pushes to the account, or reserves pts of it, with this date. */
  function DateGiven(s: State, event: Event, session: int): Option<int> {
    match event
    case AdvancePts(who, count, date, channel) =>
      if who == session && channel.None? && 0 < count <= 0x1f_ffff_ffff_ffff then Some(date) else None
    case AdvanceUpdateState(who, _, date) => if who == session then Some(date) else None
    case Prepare(key, who, _, date, _, _, _) => if who == session && key !in s.journal.deliveries then Some(date) else None
    case SetPayload(_) => None
    case Discard(_, _, _) => None
    case Prune(_) => None
  }

  /** The date of the reservation that was last, or the latest of the dates pushed since, no earlier than 0. */
  ghost function DateOf(states: seq<State>, events: seq<Event>, j: nat, session: int): int
    requires |states| == |events| + 1 && j <= |events|
  {
    if j == 0 then 0
    else
      var before, given := DateOf(states, events, j - 1, session), DateGiven(states[j - 1], events[j - 1], session);
      if given.None? then before
      else if events[j - 1].AdvancePts? then given.value
      else if given.value > before then given.value else before
  }

  /** Over every run the date of an account is that; its qts never move. */
  lemma {:induction false} AccountDate(states: seq<State>, events: seq<Event>, j: nat, session: int)
    requires Run(states, events) && j < |states|
    ensures Current(states[j], session).date == DateOf(states, events, j, session) && Current(states[j], session).qts == 0
  {
    if j > 0 {
      AccountDate(states, events, j - 1, session);
      assert states[j] == Next(states[j - 1], events[j - 1]);
      DateStep(states[j - 1], events[j - 1], session);
      hide Run, Next, Current, DateGiven;
    }
  }

  lemma DateStep(s: State, event: Event, session: int)
    ensures var before, given := Current(s, session).date, DateGiven(s, event, session);
            Current(Next(s, event), session).date ==
            if given.None? then before
            else if event.AdvancePts? then given.value
            else if given.value > before then given.value else before
    ensures Current(Next(s, event), session).qts == Current(s, session).qts
  {
  }

  /** How far the date of a channel moves: to that of a reservation, or up to that of a delivery. */
  lemma ChannelDate(s: State, event: Event, id: ChannelId)
    ensures var after := Next(s, event);
            if event.AdvancePts? && event.session == id.session && event.channel == Some(id.channel) &&
               0 < event.count <= 0x1f_ffff_ffff_ffff
            then id in after.channels && after.channels[id].date == event.date
            else if event.Prepare? && event.session == id.session && event.channel == Some(id.channel) &&
                    event.key !in s.journal.deliveries
            then
              && id in after.channels && after.channels[id].date >= event.date
              && after.channels[id].date >= Current(s, id.session).date
              && (id in s.channels ==> after.channels[id].date >= s.channels[id].date)
              && (after.channels[id].date == event.date || after.channels[id].date == Current(s, id.session).date ||
                  after.channels[id].date == (if id in s.channels then s.channels[id].date else 0))
            else (id in after.channels <==> id in s.channels) && (id in s.channels ==> after.channels[id] == s.channels[id])
  {
  }
}
