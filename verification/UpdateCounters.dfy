/**
  The pts, seq and date counters of an account and of its channels, and the deliveries they number, until
  these are discarded or pruned.
  A scope is the account itself (no channel) or one channel. An allocation of `count` at `pts` hands out
  the interval (pts - count, pts].
 */
module UpdateCounters {
  import opened UpdateJournal

  datatype Account = Account(pts: int, qts: int, seqNo: int, date: int)

  datatype Channel = Channel(pts: int, date: int)

  datatype ChannelId = ChannelId(session: int, channel: int)

  datatype State = State(accounts: map<int, Account>, channels: map<ChannelId, Channel>, journal: Journal)

  /** `stored` says whether the delivery could be stored after its transaction was committed. */
  datatype Event =
    | AdvancePts(session: int, count: int, date: int, channel: Option<int>)
    | AdvanceUpdateState(session: int, count: int, date: int)
    | Prepare(key: string, session: int, count: int, date: int, channel: Option<int>, now: int, stored: bool)
    | SetPayload(key: string)
    | Discard(key: string, onlyIfAbandoned: bool, now: int)
    | Prune(session: int)

  datatype Allocation = Allocation(session: int, channel: Option<int>, pts: int, count: int)

  const CLAIM_GRACE_SECONDS: int := 30

  function Empty(retention: nat): State {
    State(map[], map[], Journal(retention, map[], map[]))
  }

  const UNKNOWN: Account := Account(1, 0, 0, 0)

  function Max(a: int, b: int): int { if a >= b then a else b }

  function Current(s: State, session: int): Account {
    if session in s.accounts then s.accounts[session] else UNKNOWN
  }

  /** The pts of a scope; a channel without counters starts from those of the account. */
  function ScopePts(s: State, session: int, channel: Option<int>): int {
    if channel.Some? && ChannelId(session, channel.value) in s.channels
    then s.channels[ChannelId(session, channel.value)].pts
    else Current(s, session).pts
  }

  /** A scope has a pts of its own that only its own allocations move. */
  predicate Started(s: State, session: int, channel: Option<int>) {
    channel.Some? ==> ChannelId(session, channel.value) in s.channels
  }

  const MAX_SAFE_INTEGER: int := 0x1f_ffff_ffff_ffff

  /** The counts that reserving pts accepts. */
  predicate IsPtsCount(count: int) {
    0 < count <= MAX_SAFE_INTEGER
  }

  // --------------------------------------------------------------- operations

  /** What an event allocates. */
  function Allocated(s: State, event: Event): Option<Allocation> {
    match event
    case AdvancePts(session, count, _, channel) =>
      if !IsPtsCount(count) then None
      else Some(Allocation(session, channel, ScopePts(s, session, channel) + count, count))
    case AdvanceUpdateState(session, count, _) => Some(Allocation(session, None, ScopePts(s, session, None) + count, count))
    case Prepare(key, session, count, _, channel, _, _) =>
      if key in s.journal.deliveries then None
      else Some(Allocation(session, channel, ScopePts(s, session, channel) + count, count))
    case SetPayload(_) => None
    case Discard(_, _, _) => None
    case Prune(_) => None
  }

  function PtsAdvanced(s: State, session: int, count: int, date: int, channel: Option<int>): State {
    if channel.Some? then
      s.(channels := s.channels[ChannelId(session, channel.value) := Channel(ScopePts(s, session, channel) + count, date)])
    else
      var a := Current(s, session);
      s.(accounts := s.accounts[session := Account(a.pts + count, a.qts, a.seqNo, date)])
  }

  function StateAdvanced(s: State, session: int, count: int, date: int): State {
    var a := Current(s, session);
    s.(accounts := s.accounts[session := Account(a.pts + count, a.qts, a.seqNo + 1, Max(a.date, date))])
  }

  /** The counters after a new delivery: the account numbers it even when the pts are the channel's. */
  function Numbered(s: State, session: int, count: int, date: int, channel: Option<int>): State {
    var a := Current(s, session);
    var deliveryDate := Max(a.date, date);
    var id := ChannelId(session, if channel.Some? then channel.value else 0);
    State(
      s.accounts[session := Account(a.pts + (if channel.None? then count else 0), a.qts, a.seqNo + 1, deliveryDate)],
      if channel.None? then s.channels
      else s.channels[id := Channel(
        ScopePts(s, session, channel) + count,
        Max(if id in s.channels then s.channels[id].date else 0, deliveryDate))],
      s.journal)
  }

  function DeliveryFor(s: State, session: int, count: int, date: int, channel: Option<int>, now: int): Delivery {
    Delivery(
      Scope(session, channel), ScopePts(s, session, channel) + count, count,
      Current(s, session).seqNo + 1, Max(Current(s, session).date, date), now, false)
  }

  function Prepared(s: State, key: string, session: int, count: int, date: int, channel: Option<int>, now: int, stored: bool): State {
    if key in s.journal.deliveries then s.(journal := Claimed(s.journal, key, now))
    else
      var numbered := Numbered(s, session, count, date, channel);
      if stored then numbered.(journal := Created(s.journal, key, DeliveryFor(s, session, count, date, channel, now)))
      else numbered
  }

  /** A delivery can go while it has no payload, and, if it must be abandoned, once its claim is old. */
  predicate Discardable(s: State, key: string, onlyIfAbandoned: bool, now: int) {
    && key in s.journal.deliveries && !s.journal.deliveries[key].hasPayload
    && (onlyIfAbandoned ==> now - s.journal.deliveries[key].claimedAt >= CLAIM_GRACE_SECONDS)
  }

  function Next(s: State, event: Event): State {
    match event
    case AdvancePts(session, count, date, channel) => if !IsPtsCount(count) then s else PtsAdvanced(s, session, count, date, channel)
    case AdvanceUpdateState(session, count, date) => StateAdvanced(s, session, count, date)
    case Prepare(key, session, count, date, channel, now, stored) => Prepared(s, key, session, count, date, channel, now, stored)
    case SetPayload(key) => s.(journal := WithPayload(s.journal, key))
    case Discard(key, onlyIfAbandoned, now) =>
      if Discardable(s, key, onlyIfAbandoned, now) then s.(journal := Removed(s.journal, key)) else s
    case Prune(session) => s.(journal := Trimmed(s.journal, Scope(session, None)))
  }

  // ------------------------------------------------------------- conservation

  predicate AllocatesIn(s: State, event: Event, session: int, channel: Option<int>) {
    var a := Allocated(s, event);
    a.Some? && a.value.session == session && a.value.channel == channel
  }

  /**
    An allocation continues where its scope stands and moves it by exactly what it hands out; a scope
    of its own stays where it is under every other event.
   */
  lemma StepConserves(s: State, event: Event, session: int, channel: Option<int>)
    ensures AllocatesIn(s, event, session, channel) ==>
              var a := Allocated(s, event).value;
              && a.pts - a.count == ScopePts(s, session, channel)
              && ScopePts(Next(s, event), session, channel) == a.pts
              && Started(Next(s, event), session, channel)
    ensures Started(s, session, channel) && !AllocatesIn(s, event, session, channel) ==>
              Started(Next(s, event), session, channel) &&
              ScopePts(Next(s, event), session, channel) == ScopePts(s, session, channel)
  {
  }

  /** Deliveries and reservations of a channel never move the pts of the account. */
  lemma ChannelsLeaveAccountAlone(s: State, event: Event, session: int)
    requires Allocated(s, event).Some? ==> Allocated(s, event).value.channel.Some?
    ensures Current(Next(s, event), session).pts == Current(s, session).pts
  {
    StepConserves(s, event, session, None);
  }

  /** Preparing a known event again allocates nothing and gives the same numbers. */
  lemma PreparedOnce(s: State, key: string, session: int, count: int, date: int, channel: Option<int>, now: int, stored: bool)
    requires key in s.journal.deliveries
    ensures var event := Prepare(key, session, count, date, channel, now, stored);
            var after := Next(s, event);
            && Allocated(s, event).None? && after.accounts == s.accounts && after.channels == s.channels
            && after.journal.keys == s.journal.keys
            && after.journal.deliveries == s.journal.deliveries[key := s.journal.deliveries[key].(claimedAt := now)]
  {
  }

  ghost predicate Run(states: seq<State>, events: seq<Event>) {
    && |states| == |events| + 1 && states[0] == Empty(states[0].journal.retention)
    && forall i :: 0 <= i < |events| ==> states[i + 1] == Next(states[i], events[i])
  }

  /** A scope stands still between its allocations. */
  lemma {:induction false} StandsStill(states: seq<State>, events: seq<Event>, i: nat, j: nat, session: int, channel: Option<int>)
    requires Run(states, events) && i <= j < |states| && Started(states[i], session, channel)
    requires forall k :: i <= k < j ==> !AllocatesIn(states[k], events[k], session, channel)
    ensures Started(states[j], session, channel)
    ensures ScopePts(states[j], session, channel) == ScopePts(states[i], session, channel)
  {
    hide Next, Started, ScopePts, AllocatesIn;
    if i < j {
      StandsStill(states, events, i, j - 1, session, channel);
      StepConserves(states[j - 1], events[j - 1], session, channel);
    }
  }

  /** Consecutive allocations of a scope are contiguous. */
  lemma Contiguous(states: seq<State>, events: seq<Event>, i: nat, j: nat, session: int, channel: Option<int>)
    requires Run(states, events) && i < j < |events|
    requires AllocatesIn(states[i], events[i], session, channel) && AllocatesIn(states[j], events[j], session, channel)
    requires forall k :: i < k < j ==> !AllocatesIn(states[k], events[k], session, channel)
    ensures var a, b := Allocated(states[i], events[i]).value, Allocated(states[j], events[j]).value;
            b.pts - b.count == a.pts
  {
    hide Next, Started, ScopePts, Allocated;
    StepConserves(states[i], events[i], session, channel);
    StepConserves(states[j], events[j], session, channel);
    StandsStill(states, events, i + 1, j, session, channel);
  }

  /** The first allocation of the account starts at 1, that of a channel where the account stands. */
  lemma FirstAllocation(states: seq<State>, events: seq<Event>, j: nat, session: int, channel: Option<int>)
    requires Run(states, events) && j < |events| && AllocatesIn(states[j], events[j], session, channel)
    requires forall k :: 0 <= k < j ==> !AllocatesIn(states[k], events[k], session, channel)
    ensures var a := Allocated(states[j], events[j]).value;
            a.pts - a.count == if channel.None? then 1 else ScopePts(states[j], session, None)
  {
    StepConserves(states[j], events[j], session, channel);
    hide Next, AllocatesIn, Allocated;
    if channel.None? {
      StandsStill(states, events, 0, j, session, channel);
    } else {
      NotStarted(states, events, j, session, channel);
    }
  }

  lemma {:induction false} NotStarted(states: seq<State>, events: seq<Event>, j: nat, session: int, channel: Option<int>)
    requires Run(states, events) && j < |states| && channel.Some?
    requires forall k :: 0 <= k < j ==> !AllocatesIn(states[k], events[k], session, channel)
    ensures !Started(states[j], session, channel)
  {
    if j > 0 {
      NotStarted(states, events, j - 1, session, channel);
      OnlyAllocationsStart(states[j - 1], events[j - 1], session, channel);
      assert states[j] == Next(states[j - 1], events[j - 1]);
    }
  }

  lemma OnlyAllocationsStart(s: State, event: Event, session: int, channel: Option<int>)
    requires !Started(s, session, channel) && !AllocatesIn(s, event, session, channel)
    ensures !Started(Next(s, event), session, channel)
  {
  }

  /** With counts that are not negative, the intervals of a scope are disjoint and in order over the whole run. */
  lemma {:induction false} Disjoint(states: seq<State>, events: seq<Event>, i: nat, j: nat, session: int, channel: Option<int>)
    requires Run(states, events) && i < j < |events|
    requires AllocatesIn(states[i], events[i], session, channel) && AllocatesIn(states[j], events[j], session, channel)
    requires forall k :: i < k < j && AllocatesIn(states[k], events[k], session, channel) ==>
               Allocated(states[k], events[k]).value.count >= 0
    ensures var a, b := Allocated(states[i], events[i]).value, Allocated(states[j], events[j]).value;
            a.pts <= b.pts - b.count
    decreases j - i
  {
    hide Next, Allocated;
    if k :| i < k < j && AllocatesIn(states[k], events[k], session, channel) {
      Disjoint(states, events, i, k, session, channel);
      Disjoint(states, events, k, j, session, channel);
    } else {
      Contiguous(states, events, i, j, session, channel);
    }
  }

  /** The sum of what a scope handed out between two moments. */
  function HandedOut(states: seq<State>, events: seq<Event>, i: nat, j: nat, session: int, channel: Option<int>): int
    requires |states| == |events| + 1 && i <= j <= |events|
  {
    if i == j then 0
    else
      HandedOut(states, events, i, j - 1, session, channel) +
      if AllocatesIn(states[j - 1], events[j - 1], session, channel) then Allocated(states[j - 1], events[j - 1]).value.count
      else 0
  }

  /** Conservation: a scope moves by exactly the sum of what it hands out. */
  lemma {:induction false} PtsAreConserved(states: seq<State>, events: seq<Event>, i: nat, j: nat, session: int, channel: Option<int>)
    requires Run(states, events) && i <= j <= |events| && Started(states[i], session, channel)
    ensures Started(states[j], session, channel)
    ensures ScopePts(states[j], session, channel) ==
              ScopePts(states[i], session, channel) + HandedOut(states, events, i, j, session, channel)
  {
    hide Next, Started, ScopePts, Allocated;
    if i < j {
      PtsAreConserved(states, events, i, j - 1, session, channel);
      StepConserves(states[j - 1], events[j - 1], session, channel);
    }
  }

  // ------------------------------------------------------------ seq and dates

  /** Events that number a push: they take the next seq of the account. */
  predicate Pushes(s: State, event: Event, session: int) {
    match event
    case AdvancePts(_, _, _, _) => false
    case AdvanceUpdateState(se, _, _) => se == session
    case Prepare(key, se, _, _, _, _, _) => se == session && key !in s.journal.deliveries
    case SetPayload(_) => false
    case Discard(_, _, _) => false
    case Prune(_) => false
  }

  /** Pushes take consecutive seqs; reserving pts for an answer takes none. */
  lemma StepSeq(s: State, event: Event, session: int)
    ensures Current(Next(s, event), session).seqNo == Current(s, session).seqNo + if Pushes(s, event, session) then 1 else 0
  {
  }

  lemma {:induction false} SeqNeverFalls(states: seq<State>, events: seq<Event>, i: nat, j: nat, session: int)
    requires Run(states, events) && i <= j < |states|
    ensures Current(states[i], session).seqNo <= Current(states[j], session).seqNo
  {
    hide Next, Current, Pushes;
    if i < j {
      SeqNeverFalls(states, events, i, j - 1, session);
      StepSeq(states[j - 1], events[j - 1], session);
    }
  }

  /** No two pushes of an account have the same seq, and later ones have greater ones. */
  lemma PushesHaveIncreasingSeqs(states: seq<State>, events: seq<Event>, i: nat, j: nat, session: int)
    requires Run(states, events) && i < j < |events|
    requires Pushes(states[i], events[i], session) && Pushes(states[j], events[j], session)
    ensures Current(states[i + 1], session).seqNo < Current(states[j + 1], session).seqNo
  {
    hide Next, Current, Pushes;
    StepSeq(states[j], events[j], session);
    SeqNeverFalls(states, events, i + 1, j, session);
  }

  /** The date of an account falls only where pts are reserved for an answer with an earlier date. */
  lemma DatesFallOnlyByAdvancePts(s: State, event: Event, session: int)
    requires session in s.accounts
    ensures Current(Next(s, event), session).date < Current(s, session).date <==>
              event.AdvancePts? && event.session == session && event.channel.None? && IsPtsCount(event.count) &&
              event.date < Current(s, session).date
  {
  }

  // --------------------------------------------------------------- deliveries

  /** The event numbers and stores a new delivery. */
  predicate Creates(s: State, event: Event, key: string) {
    event.Prepare? && event.key == key && event.stored && key !in s.journal.deliveries
  }

  /** The numbers of a delivery. */
  predicate SameNumbers(d: Delivery, e: Delivery) {
    d.scope == e.scope && d.pts == e.pts && d.count == e.count && d.seqNo == e.seqNo && d.date == e.date
  }

  /** A new delivery carries the interval allocated for it and the next seq of the account. */
  lemma DeliveryCarriesItsInterval(s: State, event: Event)
    requires event.Prepare? && event.stored && event.key !in s.journal.deliveries && s.journal.retention > 0
    requires Agrees(s.journal)
    ensures var after := Next(s, event);
            && event.key in after.journal.deliveries
            && var d := after.journal.deliveries[event.key];
               && Allocated(s, event) == Some(Allocation(d.scope.session, d.scope.channel, d.pts, d.count))
               && d.seqNo == Current(after, event.session).seqNo
               && d.date == Current(after, event.session).date >= event.date
               && (event.session in s.accounts ==> d.date >= Current(s, event.session).date)
  {
    var d := DeliveryFor(s, event.session, event.count, event.date, event.channel, event.now);
    NewestIsKept(s.journal, event.key, d);
  }

  lemma NewestIsKept(j: Journal, key: string, d: Delivery)
    requires Agrees(j) && key !in j.deliveries
    ensures key in Created(j, key, d).deliveries <==> j.retention > 0
    ensures key in Created(j, key, d).deliveries ==> Created(j, key, d).deliveries[key] == d
  {
    var list := KeysOf(j, d.scope);
    assert ListOk(j, d.scope, list);
    var excess := |list| + 1 - j.retention;
    if excess > 0 {
      assert (list + [key])[..excess] == if excess == |list| + 1 then list + [key] else list[..excess];
    }
  }

  /** What an event can do to a delivery that is stored after it: it was there before, or is the one created. */
  lemma DeliveryStep(s: State, event: Event, key: string)
    requires key in Next(s, event).journal.deliveries
    ensures var d := Next(s, event).journal.deliveries[key];
            if key in s.journal.deliveries then SameNumbers(d, s.journal.deliveries[key])
            else Creates(s, event, key) &&
                 Allocated(s, event) == Some(Allocation(d.scope.session, d.scope.channel, d.pts, d.count)) &&
                 d.seqNo == Current(s, d.scope.session).seqNo + 1
  {
  }

  lemma StepAgrees(s: State, event: Event)
    requires Agrees(s.journal)
    ensures Agrees(Next(s, event).journal) && Next(s, event).journal.retention == s.journal.retention
  {
    hide Agrees, Created, Removed, Trimmed;
    match event
    case AdvancePts(_, _, _, _) =>
    case AdvanceUpdateState(_, _, _) =>
    case Prepare(key, session, count, date, channel, now, stored) =>
      MarkingAgrees(s.journal, key, now);
      CreationAgrees(s.journal, key, DeliveryFor(s, session, count, date, channel, now));
      CreationKeepsRetention(s.journal, key, DeliveryFor(s, session, count, date, channel, now));
    case SetPayload(key) =>
      MarkingAgrees(s.journal, key, 0);
    case Discard(key, _, _) =>
      RemovalAgrees(s.journal, key);
      RemovalKeepsRetention(s.journal, key);
    case Prune(session) =>
      PruningAgrees(s.journal, Scope(session, None));
      TrimmingKeepsRetention(s.journal, Scope(session, None));
  }

  lemma CreationKeepsRetention(j: Journal, key: string, d: Delivery)
    ensures Created(j, key, d).retention == j.retention
  {
  }

  lemma RemovalKeepsRetention(j: Journal, key: string)
    ensures Removed(j, key).retention == j.retention
  {
  }

  lemma TrimmingKeepsRetention(j: Journal, scope: Scope)
    ensures Trimmed(j, scope).retention == j.retention
  {
  }

  /** After every run each list has exactly the stored deliveries of its scope, each once, no more than are retained. */
  lemma {:induction false} RunAgrees(states: seq<State>, events: seq<Event>, i: nat)
    requires Run(states, events) && i < |states|
    ensures Agrees(states[i].journal) && states[i].journal.retention == states[0].journal.retention
  {
    hide Next, Agrees;
    if i == 0 {
      EmptyAgrees(states[0].journal.retention);
    } else {
      RunAgrees(states, events, i - 1);
      StepAgrees(states[i - 1], events[i - 1]);
    }
  }

  lemma EmptyAgrees(retention: nat)
    ensures Agrees(Empty(retention).journal)
  {
  }

  /** A stored delivery carries the interval that one event of the run allocated for it, and its seq. */
  lemma {:induction false} DeliveryWasAllocated(states: seq<State>, events: seq<Event>, j: nat, key: string) returns (i: nat)
    requires Run(states, events) && j < |states| && key in states[j].journal.deliveries
    ensures i < j && Creates(states[i], events[i], key)
    ensures forall k :: i < k <= j ==>
              key in states[k].journal.deliveries &&
              SameNumbers(states[k].journal.deliveries[key], states[j].journal.deliveries[key])
    ensures var d := states[j].journal.deliveries[key];
            && Allocated(states[i], events[i]) == Some(Allocation(d.scope.session, d.scope.channel, d.pts, d.count))
            && d.seqNo == Current(states[i], d.scope.session).seqNo + 1
  {
    hide Next, Allocated, Creates, Current;
    DeliveryStep(states[j - 1], events[j - 1], key);
    if key in states[j - 1].journal.deliveries {
      i := DeliveryWasAllocated(states, events, j - 1, key);
    } else {
      i := j - 1;
    }
  }

  /** While a delivery stays stored its numbers never change, whatever is claimed, filled, discarded or pruned. */
  lemma {:induction false} DeliveriesAreStable(states: seq<State>, events: seq<Event>, i: nat, j: nat, key: string)
    requires Run(states, events) && i <= j < |states|
    requires forall k :: i <= k <= j ==> key in states[k].journal.deliveries
    ensures SameNumbers(states[i].journal.deliveries[key], states[j].journal.deliveries[key])
  {
    hide Next, Allocated;
    if i < j {
      DeliveriesAreStable(states, events, i, j - 1, key);
      assert states[j] == Next(states[j - 1], events[j - 1]);
      DeliveryStep(states[j - 1], events[j - 1], key);
    }
  }

  /** A delivery that was removed and is prepared again gets a new interval, after the one it had, and a greater seq. */
  lemma PreparedAnew(states: seq<State>, events: seq<Event>, i: nat, j: nat, key: string)
    requires Run(states, events) && i < j < |events|
    requires Creates(states[i], events[i], key) && Creates(states[j], events[j], key)
    requires NoNegativeCounts(events)
    ensures var a, b := Allocated(states[i], events[i]).value, Allocated(states[j], events[j]).value;
            && (a.session == b.session && a.channel == b.channel ==> a.pts <= b.pts - b.count)
            && (a.session == b.session ==>
                  Current(states[i + 1], a.session).seqNo < Current(states[j + 1], a.session).seqNo)
  {
    var a, b := Allocated(states[i], events[i]).value, Allocated(states[j], events[j]).value;
    hide Next, Current;
    CountsAreCounts(states, events);
    if a.session == b.session {
      if a.channel == b.channel {
        Disjoint(states, events, i, j, a.session, a.channel);
      }
      PushesHaveIncreasingSeqs(states, events, i, j, a.session);
    }
  }

  /** No event asks for a negative number of pts. */
  ghost predicate NoNegativeCounts(events: seq<Event>) {
    forall i :: 0 <= i < |events| ==> CountIsNotNegative(events[i])
  }

  predicate CountIsNotNegative(event: Event) {
    event.AdvancePts? || event.AdvanceUpdateState? || event.Prepare? ==> event.count >= 0
  }

  lemma CountsAreCounts(states: seq<State>, events: seq<Event>)
    requires Run(states, events) && NoNegativeCounts(events)
    ensures forall i :: 0 <= i < |events| && Allocated(states[i], events[i]).Some? ==> Allocated(states[i], events[i]).value.count >= 0
  {
    assert forall i :: 0 <= i < |events| ==> CountIsNotNegative(events[i]);
  }

  /** Of two deliveries of a scope that are stored at the same time one has its interval after that of the other. */
  lemma StoredAreDisjoint(states: seq<State>, events: seq<Event>, j: nat, first: string, second: string)
    requires Run(states, events) && j < |states| && NoNegativeCounts(events) && first != second
    requires first in states[j].journal.deliveries && second in states[j].journal.deliveries
    ensures var d, e := states[j].journal.deliveries[first], states[j].journal.deliveries[second];
            d.scope == e.scope ==> d.pts <= e.pts - e.count || e.pts <= d.pts - d.count
  {
    hide Next;
    var d, e := states[j].journal.deliveries[first], states[j].journal.deliveries[second];
    var i := DeliveryWasAllocated(states, events, j, first);
    var k := DeliveryWasAllocated(states, events, j, second);
    CountsAreCounts(states, events);
    if d.scope == e.scope {
      if i < k {
        Disjoint(states, events, i, k, d.scope.session, d.scope.channel);
      } else {
        Disjoint(states, events, k, i, d.scope.session, d.scope.channel);
      }
    }
  }

  /** The event takes a delivery away by its key. */
  predicate Discards(s: State, event: Event, key: string) {
    event.Discard? && event.key == key && Discardable(s, key, event.onlyIfAbandoned, event.now)
  }

  lemma StepKeepsListing(s: State, event: Event, scope: Scope, older: string, newer: string)
    requires Agrees(s.journal) && Lists(s.journal, scope, older, newer)
    requires older in Next(s, event).journal.deliveries && !Discards(s, event, newer)
    ensures Lists(Next(s, event).journal, scope, older, newer)
  {
    hide Agrees, Lists, Created, Removed, Trimmed;
    match event
    case AdvancePts(_, _, _, _) =>
    case AdvanceUpdateState(_, _, _) =>
    case Prepare(key, session, count, date, channel, now, stored) =>
      MarkingKeepsListing(s.journal, key, now, scope, older, newer);
      if Creates(s, event, key) {
        CreationKeepsListing(s.journal, key, DeliveryFor(s, session, count, date, channel, now), scope, older, newer);
      }
    case SetPayload(key) =>
      MarkingKeepsListing(s.journal, key, 0, scope, older, newer);
    case Discard(key, onlyIfAbandoned, now) =>
      if Discardable(s, key, onlyIfAbandoned, now) {
        RemovalKeepsListing(s.journal, key, scope, older, newer);
      }
    case Prune(session) =>
      AgreedIsDistinct(s.journal, scope);
      TrimmingKeepsListing(s.journal, Scope(session, None), scope, older, newer);
  }

  lemma {:induction false} RunKeepsListing(
      states: seq<State>, events: seq<Event>, i: nat, j: nat, scope: Scope, older: string, newer: string)
    requires Run(states, events) && i <= j < |states| && Lists(states[i].journal, scope, older, newer)
    requires forall k :: i <= k <= j ==> older in states[k].journal.deliveries
    requires forall k :: i <= k < j ==> !Discards(states[k], events[k], newer)
    ensures Lists(states[j].journal, scope, older, newer)
  {
    hide Next, Agrees, Lists, Discards;
    if i < j {
      RunKeepsListing(states, events, i, j - 1, scope, older, newer);
      RunAgrees(states, events, j - 1);
      assert states[j] == Next(states[j - 1], events[j - 1]);
      StepKeepsListing(states[j - 1], events[j - 1], scope, older, newer);
    }
  }

  /**
    What is kept of a scope has no holes but those of discarded deliveries: if a delivery is still stored,
    so is every later one of its scope that was not discarded. A client at or after the oldest one misses nothing.
   */
  lemma WindowHasNoHoles(states: seq<State>, events: seq<Event>, i: nat, j: nat, older: string, newer: string)
    requires Run(states, events) && NoNegativeCounts(events) && i < j < |states|
    requires Creates(states[i], events[i], newer) && older in states[j].journal.deliveries
    requires var a, d := Allocated(states[i], events[i]).value, states[j].journal.deliveries[older];
             d.scope == Scope(a.session, a.channel) && d.pts < a.pts
    requires forall k :: i < k < j ==> !Discards(states[k], events[k], newer)
    ensures newer in states[j].journal.deliveries
    ensures var a, e := Allocated(states[i], events[i]).value, states[j].journal.deliveries[newer];
            e.scope == Scope(a.session, a.channel) && e.pts == a.pts && e.count == a.count
  {
    hide Next, Agrees, Lists, Discards;
    var a, d := Allocated(states[i], events[i]).value, states[j].journal.deliveries[older];
    var k := DeliveryWasAllocated(states, events, j, older);
    CountsAreCounts(states, events);
    if i < k {
      Disjoint(states, events, i, k, a.session, a.channel);
    }
    assert k < i;
    RunAgrees(states, events, i);
    assert states[i + 1] == Next(states[i], events[i]);
    CreationListsLast(states[i], events[i], older, newer);
    RunKeepsListing(states, events, i + 1, j, d.scope, older, newer);
    RunAgrees(states, events, j);
    ListedIsStored(states[j].journal, d.scope, older, newer);
    var m := DeliveryWasAllocated(states, events, j, newer);
    ListedAllAlong(states, events, i + 1, j, d.scope, older, newer);
    assert m == i;
  }

  /** The new delivery comes after the others of its scope. */
  lemma CreationListsLast(s: State, event: Event, older: string, newer: string)
    requires Agrees(s.journal) && Creates(s, event, newer) && older in s.journal.deliveries
    requires s.journal.deliveries[older].scope == Scope(event.session, event.channel)
    requires older in Next(s, event).journal.deliveries
    ensures Lists(Next(s, event).journal, Scope(event.session, event.channel), older, newer)
  {
    hide Agrees, Lists, Created;
    NewestIsListedLast(
      s.journal, newer, DeliveryFor(s, event.session, event.count, event.date, event.channel, event.now), older);
  }

  lemma ListedAllAlong(
      states: seq<State>, events: seq<Event>, i: nat, j: nat, scope: Scope, older: string, newer: string)
    requires Run(states, events) && i <= j < |states| && Lists(states[i].journal, scope, older, newer)
    requires forall k :: i <= k <= j ==> older in states[k].journal.deliveries
    requires forall k :: i <= k < j ==> !Discards(states[k], events[k], newer)
    ensures forall k :: i <= k <= j ==> newer in states[k].journal.deliveries
  {
    hide Next, Agrees, Lists, Discards;
    forall k | i <= k <= j ensures newer in states[k].journal.deliveries {
      RunKeepsListing(states, events, i, k, scope, older, newer);
      RunAgrees(states, events, k);
      ListedIsStored(states[k].journal, scope, older, newer);
    }
  }

  // -------------------------------------------------------------------- store

  /** The counters and the store of deliveries; every method is one write. */
  class Store {
    var accounts: map<int, Account>
    var channels: map<ChannelId, Channel>
    const updates: MemoryUpdateStore

    function Contents(): State
      reads this, updates
    {
      State(accounts, channels, updates.Contents())
    }

    constructor (retention: nat)
      ensures Contents() == Empty(retention) && fresh(updates)
    {
      accounts, channels := map[], map[];
      updates := new MemoryUpdateStore(retention);
    }

    /** Reserves pts for an answer; fails on a count that is not a positive integer. */
    method AdvancePts(session: int, count: int, date: int, channel: Option<int>) returns (pts: Option<int>)
      modifies this
      ensures Contents() == Next(old(Contents()), Event.AdvancePts(session, count, date, channel))
      ensures pts.Some? <==> IsPtsCount(count)
      ensures pts.Some? ==> pts.value == ScopePts(Contents(), session, channel)
    {
      if !IsPtsCount(count) {
        return None;
      }
      var current := if session in accounts then accounts[session] else UNKNOWN;
      if channel.Some? {
        var id := ChannelId(session, channel.value);
        var base := if id in channels then channels[id].pts else current.pts;
        channels := channels[id := Channel(base + count, date)];
        return Some(base + count);
      }
      accounts := accounts[session := current.(pts := current.pts + count, date := date)];
      return Some(current.pts + count);
    }

    method AdvanceUpdateState(session: int, count: int, date: int) returns (state: Account)
      modifies this
      ensures Contents() == Next(old(Contents()), Event.AdvanceUpdateState(session, count, date))
      ensures state == Current(Contents(), session)
    {
      var current := if session in accounts then accounts[session] else UNKNOWN;
      state := current.(pts := current.pts + count, seqNo := current.seqNo + 1, date := Max(current.date, date));
      accounts := accounts[session := state];
    }

    /** The transaction of a new delivery. */
    method Number(session: int, count: int, date: int, channel: Option<int>) returns (pts: int, seqNo: int, deliveryDate: int)
      modifies this
      ensures Contents() == Numbered(old(Contents()), session, count, date, channel)
      ensures pts == ScopePts(old(Contents()), session, channel) + count
      ensures seqNo == Current(old(Contents()), session).seqNo + 1
      ensures deliveryDate == Max(Current(old(Contents()), session).date, date)
    {
      var current := if session in accounts then accounts[session] else UNKNOWN;
      deliveryDate := Max(current.date, date);
      seqNo := current.seqNo + 1;
      pts := current.pts + count;
      accounts := accounts[session :=
        Account(current.pts + if channel.None? then count else 0, current.qts, seqNo, deliveryDate)];
      if channel.Some? {
        var id := ChannelId(session, channel.value);
        var known := id in channels;
        pts := (if known then channels[id].pts else current.pts) + count;
        channels := channels[id := Channel(pts, Max(if known then channels[id].date else 0, deliveryDate))];
      }
    }

    /** Prepares a delivery; one that is known already is only claimed again. */
    method PrepareUpdateDelivery(
        key: string, session: int, count: int, date: int, channel: Option<int>, now: int, stored: bool)
        returns (delivery: Option<Delivery>)
      modifies this, updates
      ensures Contents() == Next(old(Contents()), Prepare(key, session, count, date, channel, now, stored))
      ensures delivery.Some? <==> key in old(Contents()).journal.deliveries || stored
      ensures delivery.Some? && key in old(Contents()).journal.deliveries ==> delivery.value == Contents().journal.deliveries[key]
      ensures delivery.Some? && key !in old(Contents()).journal.deliveries ==>
                delivery.value == DeliveryFor(old(Contents()), session, count, date, channel, now)
    {
      if key in updates.byEventKey {
        updates.Claim(key, now);
        return Some(updates.byEventKey[key]);
      }
      var pts, seqNo, deliveryDate := Number(session, count, date, channel);
      if !stored {
        return None;
      }
      var created := updates.Create(key, Delivery(Scope(session, channel), pts, count, seqNo, deliveryDate, now, false));
      return Some(created);
    }

    method SetUpdatePayload(key: string)
      modifies updates
      ensures Contents() == Next(old(Contents()), SetPayload(key))
    {
      updates.SetPayload(key);
    }

    /** Discards a delivery without payload, if asked only an abandoned one. */
    method DiscardUpdateDelivery(key: string, onlyIfAbandoned: bool, now: int) returns (discarded: bool)
      modifies updates
      ensures Contents() == Next(old(Contents()), Discard(key, onlyIfAbandoned, now))
      ensures discarded <==> Discardable(old(Contents()), key, onlyIfAbandoned, now)
    {
      if key !in updates.byEventKey || updates.byEventKey[key].hasPayload {
        return false;
      }
      if onlyIfAbandoned && now - updates.byEventKey[key].claimedAt < CLAIM_GRACE_SECONDS {
        return false;
      }
      updates.Remove(key);
      return true;
    }

    method PruneUpdateDeliveries(session: int)
      modifies updates
      ensures Contents() == Next(old(Contents()), Prune(session))
    {
      updates.Prune(Scope(session, None));
    }
  }
}
