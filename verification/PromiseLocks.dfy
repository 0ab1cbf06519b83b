/**
  Locks built from promises: take the tail of the map, install one's own, wait for the old one, and on
  release delete the map entry only if it is still one's own. The queue of authorization reservations,
  the touch lock and the write queue of the store are all this pattern; the last two never reserve
  terminally and always release after having entered. A reservation is named by its number.
 */
module PromiseLocks {

  datatype Option<T> = None | Some(value: T)

  /**
    `previous` is the reservation whose promise this one waits for, `entered` says that its wait has
    returned, and `released` that its own promise is resolved.
   */
  datatype Reservation = Reservation(key: string, previous: Option<nat>, terminal: bool, entered: bool, released: bool)

  datatype State = State(log: seq<Reservation>, tails: map<string, nat>)

  datatype Event = Reserve(key: string, terminal: bool) | Enter(n: nat) | Release(n: nat)

  const EMPTY: State := State([], map[])

  /** A terminal reservation that is still in the map fences its key. */
  predicate Fenced(s: State, key: string) {
    key in s.tails && s.tails[key] < |s.log| && s.log[s.tails[key]].terminal
  }

  function Reserved(s: State, key: string, terminal: bool): State {
    if Fenced(s, key) then s
    else
      State(
        s.log + [Reservation(key, if key in s.tails then Some(s.tails[key]) else None, terminal, false, false)],
        s.tails[key := |s.log|])
  }

  /** The promise a reservation waits for is resolved. */
  predicate GateOpen(s: State, n: nat)
    requires n < |s.log|
  {
    s.log[n].previous.Some? && s.log[n].previous.value < |s.log| ==> s.log[s.log[n].previous.value].released
  }

  function Entered(s: State, n: nat): State {
    if n < |s.log| && GateOpen(s, n) then s.(log := s.log[n := s.log[n].(entered := true)]) else s
  }

  function Released(s: State, n: nat): State {
    if n >= |s.log| || s.log[n].released then s
    else
      var key := s.log[n].key;
      State(
        s.log[n := s.log[n].(released := true)],
        if key in s.tails && s.tails[key] == n then s.tails - {key} else s.tails)
  }

  function Next(s: State, event: Event): State {
    match event
    case Reserve(key, terminal) => Reserved(s, key, terminal)
    case Enter(n) => Entered(s, n)
    case Release(n) => Released(s, n)
  }

  // ---------------------------------------------------------------- structure

  ghost predicate Newest(s: State, n: nat)
    requires n < |s.log|
  {
    forall m :: n < m < |s.log| ==> s.log[m].key != s.log[n].key
  }

  /** The map holds a key exactly when the newest reservation of the key is not released. */
  ghost predicate MapIsTail(s: State) {
    && (forall key :: key in s.tails ==>
          s.tails[key] < |s.log| && s.log[s.tails[key]].key == key && Newest(s, s.tails[key]) && !s.log[s.tails[key]].released)
    && (forall n: nat :: n < |s.log| && Newest(s, n) && !s.log[n].released ==>
          s.log[n].key in s.tails && s.tails[s.log[n].key] == n)
  }

  /** A reservation waits for the reservation of its key just before it, or for none. */
  ghost predicate WaitsForPredecessor(s: State) {
    forall n, m :: 0 <= n < |s.log| && s.log[n].previous.Some? && s.log[n].previous.value < m < n ==>
      s.log[m].key != s.log[n].key
  }

  ghost predicate PreviousIsEarlier(s: State) {
    forall n :: 0 <= n < |s.log| && s.log[n].previous.Some? ==>
      s.log[n].previous.value < n && s.log[s.log[n].previous.value].key == s.log[n].key
  }

  /** A terminal reservation that is not released is the last of its key. */
  ghost predicate FenceHolds(s: State) {
    forall n: nat :: n < |s.log| && s.log[n].terminal && !s.log[n].released ==> Newest(s, n)
  }

  ghost predicate Structured(s: State) {
    MapIsTail(s) && WaitsForPredecessor(s) && PreviousIsEarlier(s) && FenceHolds(s)
  }

  /** Where the promise awaited is resolved, all earlier reservations of the key are released. */
  ghost predicate Orderly(s: State) {
    && (forall n, m :: 0 <= m < n < |s.log| && s.log[m].key == s.log[n].key && GateOpen(s, n) ==> s.log[m].released)
    && (forall m :: 0 <= m < |s.log| && s.log[m].key !in s.tails ==> s.log[m].released)
  }

  /** Whoever has entered did so after everyone before was released. */
  ghost predicate Exclusive(s: State) {
    forall n, m :: 0 <= m < n < |s.log| && s.log[m].key == s.log[n].key && s.log[n].entered ==> s.log[m].released
  }

  lemma NewestWithMore(s: State, r: Reservation, tails: map<string, nat>, m: nat)
    requires m < |s.log|
    ensures Newest(State(s.log + [r], tails), m) <==> Newest(s, m) && s.log[m].key != r.key
  {
    var after := State(s.log + [r], tails);
    if Newest(after, m) {
      assert after.log[|s.log|] == r;
      forall k | m < k < |s.log| ensures s.log[k].key != s.log[m].key {
        assert after.log[k] == s.log[k];
      }
    }
  }

  lemma NewestWithSameKeys(s: State, n: nat, r: Reservation, tails: map<string, nat>, m: nat)
    requires n < |s.log| && r.key == s.log[n].key && m < |s.log|
    ensures Newest(State(s.log[n := r], tails), m) <==> Newest(s, m)
  {
    var after := State(s.log[n := r], tails);
    assert forall k :: 0 <= k < |s.log| ==> after.log[k].key == s.log[k].key;
  }

  lemma ReserveStructured(s: State, key: string, terminal: bool)
    requires Structured(s)
    ensures Structured(Reserved(s, key, terminal))
  {
    if !Fenced(s, key) {
      ReserveMap(s, key, terminal);
      ReserveFence(s, key, terminal);
      ReserveWaits(s, key, terminal);
    }
    hide MapIsTail, FenceHolds, WaitsForPredecessor, PreviousIsEarlier;
  }

  lemma ReserveMap(s: State, key: string, terminal: bool)
    requires MapIsTail(s) && !Fenced(s, key)
    ensures MapIsTail(Reserved(s, key, terminal))
  {
    var after, n := Reserved(s, key, terminal), |s.log|;
    forall m: nat | m < n ensures after.log[m] == s.log[m] && (Newest(after, m) <==> Newest(s, m) && s.log[m].key != key) {
      NewestWithMore(s, after.log[n], after.tails, m);
    }
    assert Newest(after, n);
    hide Newest;
  }

  /** The new reservation waits for the newest of its key that is not released, the tail. */
  lemma ReserveWaits(s: State, key: string, terminal: bool)
    requires MapIsTail(s) && WaitsForPredecessor(s) && PreviousIsEarlier(s) && !Fenced(s, key)
    ensures var after := Reserved(s, key, terminal); WaitsForPredecessor(after) && PreviousIsEarlier(after)
  {
    var after := Reserved(s, key, terminal);
    assert forall m: nat :: m < |s.log| ==> after.log[m] == s.log[m];
    if key in s.tails {
      assert Newest(s, s.tails[key]) && s.log[s.tails[key]].key == key;
    }
    hide MapIsTail;
  }

  lemma ReserveFence(s: State, key: string, terminal: bool)
    requires MapIsTail(s) && FenceHolds(s) && !Fenced(s, key)
    ensures FenceHolds(Reserved(s, key, terminal))
  {
    var after := Reserved(s, key, terminal);
    forall m: nat | m < |after.log| && after.log[m].terminal && !after.log[m].released ensures Newest(after, m) {
      if m < |s.log| {
        assert s.log[m] == after.log[m];
        NewestWithMore(s, after.log[|s.log|], after.tails, m);
      }
    }
  }

  /** The map after a change of one reservation. */
  function TailsAfter(s: State, n: nat, r: Reservation): map<string, nat> {
    if r.released && r.key in s.tails && s.tails[r.key] == n then s.tails - {r.key} else s.tails
  }

  lemma UpdateMap(s: State, n: nat, r: Reservation)
    requires MapIsTail(s) && n < |s.log| && r.key == s.log[n].key && (s.log[n].released ==> r.released)
    ensures MapIsTail(State(s.log[n := r], TailsAfter(s, n, r)))
  {
    var after := State(s.log[n := r], TailsAfter(s, n, r));
    forall m: nat | m < |s.log| ensures Newest(after, m) <==> Newest(s, m) {
      NewestWithSameKeys(s, n, r, after.tails, m);
    }
    hide Newest;
  }

  lemma UpdateFence(s: State, n: nat, r: Reservation, tails: map<string, nat>)
    requires FenceHolds(s) && n < |s.log| && r.key == s.log[n].key && (s.log[n].released ==> r.released)
    requires r.terminal == s.log[n].terminal
    ensures FenceHolds(State(s.log[n := r], tails))
  {
    forall m: nat | m < |s.log| ensures Newest(State(s.log[n := r], tails), m) <==> Newest(s, m) {
      NewestWithSameKeys(s, n, r, tails, m);
    }
    hide Newest;
  }

  lemma UpdateOrder(s: State, n: nat, r: Reservation, tails: map<string, nat>)
    requires WaitsForPredecessor(s) && PreviousIsEarlier(s)
    requires n < |s.log| && r.key == s.log[n].key && r.previous == s.log[n].previous
    ensures WaitsForPredecessor(State(s.log[n := r], tails)) && PreviousIsEarlier(State(s.log[n := r], tails))
  {
  }

  /** Entering and releasing change neither keys nor order. */
  lemma UpdateStructured(s: State, n: nat, r: Reservation)
    requires Structured(s) && n < |s.log|
    requires r.key == s.log[n].key && r.previous == s.log[n].previous && r.terminal == s.log[n].terminal
    requires s.log[n].released ==> r.released
    ensures Structured(State(s.log[n := r], TailsAfter(s, n, r)))
  {
    UpdateMap(s, n, r);
    UpdateFence(s, n, r, TailsAfter(s, n, r));
    UpdateOrder(s, n, r, TailsAfter(s, n, r));
    hide MapIsTail, FenceHolds, WaitsForPredecessor, PreviousIsEarlier;
  }

  lemma ReleaseStructured(s: State, n: nat)
    requires Structured(s)
    ensures Structured(Released(s, n))
  {
    if n < |s.log| && !s.log[n].released {
      UpdateStructured(s, n, s.log[n].(released := true));
    }
  }

  lemma EnterStructured(s: State, n: nat)
    requires Structured(s)
    ensures Structured(Entered(s, n))
  {
    if n < |s.log| && GateOpen(s, n) {
      UpdateStructured(s, n, s.log[n].(entered := true));
      if s.log[n].released && s.log[n].key in s.tails {
        assert s.tails[s.log[n].key] != n;
      }
    }
  }

  lemma NextStructured(s: State, event: Event)
    requires Structured(s)
    ensures Structured(Next(s, event))
  {
    hide Structured;
    match event {
      case Reserve(key, terminal) => ReserveStructured(s, key, terminal);
      case Enter(n) => EnterStructured(s, n);
      case Release(n) => ReleaseStructured(s, n);
    }
  }

  // ---------------------------------------------------------------- exclusion

  lemma ReserveOrderly(s: State, key: string, terminal: bool)
    requires Structured(s) && Orderly(s)
    ensures Orderly(Reserved(s, key, terminal))
  {
    var after := Reserved(s, key, terminal);
    if !Fenced(s, key) {
      var last := |s.log|;
      forall n, m | 0 <= m < n < |after.log| && after.log[m].key == after.log[n].key && GateOpen(after, n)
        ensures after.log[m].released
      {
        assert after.log[m] == s.log[m];
        if n < last {
          assert after.log[n] == s.log[n] && GateOpen(s, n);
        } else if key in s.tails {
          assert false;
        }
      }
    }
  }

  lemma EnterOrderly(s: State, n: nat)
    requires Structured(s) && Orderly(s)
    ensures Orderly(Entered(s, n))
  {
    var after := Entered(s, n);
    assert forall m: nat :: m < |s.log| ==> (GateOpen(after, m) <==> GateOpen(s, m));
    hide GateOpen, Structured;
  }

  lemma {:induction false} NextOfKey(s: State, n: nat, m: nat) returns (next: nat)
    requires n < m < |s.log| && s.log[m].key == s.log[n].key
    ensures n < next <= m && s.log[next].key == s.log[n].key
    ensures forall k :: n < k < next ==> s.log[k].key != s.log[n].key
    decreases m - n
  {
    if k: nat :| n < k < m && s.log[k].key == s.log[n].key {
      next := NextOfKey(s, n, k);
    } else {
      next := m;
    }
  }

  /**
    A release keeps the order exactly when the releaser's own wait had been resolved (or it had
    released before): releasing early lets successors in before the predecessors are done.
   */
  lemma ReleaseKeepsOrder(s: State, n: nat)
    requires Structured(s) && Orderly(s) && n < |s.log|
    ensures Orderly(Released(s, n)) <==> s.log[n].released || GateOpen(s, n)
  {
    var after := Released(s, n);
    if !s.log[n].released {
      if GateOpen(s, n) {
        TimelyRelease(s, n);
      } else {
        EarlyRelease(s, n);
      }
    }
  }

  lemma TimelyRelease(s: State, n: nat)
    requires Structured(s) && Orderly(s) && n < |s.log| && !s.log[n].released && GateOpen(s, n)
    ensures Orderly(Released(s, n))
  {
    var after := Released(s, n);
    TimelyGates(s, n);
    forall m | 0 <= m < |s.log| && after.log[m].key !in after.tails ensures after.log[m].released {
      if s.log[m].key in s.tails {
        assert s.tails[s.log[m].key] == n && Newest(s, n);
        assert m <= n;
      }
    }
    hide GateOpen, Structured;
  }

  lemma TimelyGates(s: State, n: nat)
    requires Structured(s) && Orderly(s) && n < |s.log| && !s.log[n].released && GateOpen(s, n)
    ensures var after := Released(s, n);
            forall k, m :: 0 <= m < k < |after.log| && after.log[m].key == after.log[k].key && GateOpen(after, k) ==>
              after.log[m].released
  {
    var after := Released(s, n);
    hide MapIsTail, FenceHolds;
    forall k, m | 0 <= m < k < |s.log| && after.log[m].key == after.log[k].key && GateOpen(after, k)
      ensures after.log[m].released
    {
      if !GateOpen(s, k) {
        assert s.log[k].previous == Some(n);
        assert m <= n;
      }
    }
  }

  lemma EarlyRelease(s: State, n: nat)
    requires Structured(s) && Orderly(s) && n < |s.log| && !s.log[n].released && !GateOpen(s, n)
    ensures !Orderly(Released(s, n))
  {
    var after, p := Released(s, n), s.log[n].previous.value;
    assert p < n && s.log[p].key == s.log[n].key && !after.log[p].released;
    if Newest(s, n) {
      assert after.log[p].key !in after.tails;
    } else {
      var m :| n < m < |s.log| && s.log[m].key == s.log[n].key;
      var next := NextOfKey(s, n, m);
      assert !GateOpen(s, next) by {
        assert s.log[n].key == s.log[next].key && !s.log[n].released;
      }
      assert s.log[next].previous.value == n;
      assert GateOpen(after, next) && after.log[p].key == after.log[next].key;
    }
  }

  // --------------------------------------------------------------------- runs

  ghost predicate Run(states: seq<State>, events: seq<Event>) {
    && |states| == |events| + 1 && states[0] == EMPTY
    && forall i :: 0 <= i < |events| ==> states[i + 1] == Next(states[i], events[i])
  }

  /** The discipline of the holders: none releases before its wait is resolved. */
  ghost predicate Timely(s: State, event: Event) {
    event.Release? && event.n < |s.log| ==> s.log[event.n].released || GateOpen(s, event.n)
  }

  lemma {:induction false} RunStructured(states: seq<State>, events: seq<Event>, i: nat)
    requires Run(states, events) && i < |states|
    ensures Structured(states[i])
  {
    hide Next, Structured;
    if i == 0 {
      EmptyStructured();
    } else {
      RunStructured(states, events, i - 1);
      NextStructured(states[i - 1], events[i - 1]);
    }
  }

  lemma EmptyStructured()
    ensures Structured(EMPTY) && Orderly(EMPTY)
  {
  }

  lemma {:induction false} RunOrderly(states: seq<State>, events: seq<Event>, i: nat)
    requires Run(states, events) && i < |states|
    requires forall j :: 0 <= j < i ==> Timely(states[j], events[j])
    ensures Orderly(states[i])
  {
    hide Structured, Orderly;
    if i == 0 {
      EmptyStructured();
    } else {
      RunOrderly(states, events, i - 1);
      RunStructured(states, events, i - 1);
      var s := states[i - 1];
      match events[i - 1] {
        case Reserve(key, terminal) => ReserveOrderly(s, key, terminal);
        case Enter(n) => EnterOrderly(s, n);
        case Release(n) =>
          if n < |s.log| {
            ReleaseKeepsOrder(s, n);
          }
      }
    }
  }

  /** Nobody has entered but through a resolved promise. */
  ghost predicate EnteredThroughGate(s: State) {
    forall n: nat :: n < |s.log| && s.log[n].entered ==> GateOpen(s, n)
  }

  lemma {:induction false} RunEntersThroughGate(states: seq<State>, events: seq<Event>, i: nat)
    requires Run(states, events) && i < |states|
    ensures EnteredThroughGate(states[i])
  {
    if i > 0 {
      hide Next;
      RunEntersThroughGate(states, events, i - 1);
      RunStructured(states, events, i - 1);
      GateStaysOpen(states[i - 1], events[i - 1]);
    }
  }

  lemma GateStaysOpen(s: State, event: Event)
    requires EnteredThroughGate(s) && PreviousIsEarlier(s)
    ensures EnteredThroughGate(Next(s, event))
  {
    var after := Next(s, event);
    forall n: nat | n < |after.log| && after.log[n].entered ensures GateOpen(after, n) {
      assert n < |s.log|;
      assert s.log[n].entered || event == Enter(n);
      assert GateOpen(s, n);
      assert after.log[n].previous == s.log[n].previous;
    }
  }

  /**
    Mutual exclusion and order: in a run of timely releases, whoever has entered a key did so after
    every earlier reservation of the key was released, so at most one is inside.
   */
  lemma MutualExclusion(states: seq<State>, events: seq<Event>, i: nat)
    requires Run(states, events) && i < |states|
    requires forall j :: 0 <= j < i ==> Timely(states[j], events[j])
    ensures Exclusive(states[i])
  {
    hide Structured;
    RunOrderly(states, events, i);
    RunEntersThroughGate(states, events, i);
  }

  /** The map holds a key exactly when the newest reservation of the key is not released; nothing leaks. */
  lemma MapIsExact(states: seq<State>, events: seq<Event>, i: nat, key: string)
    requires Run(states, events) && i < |states|
    ensures var s := states[i];
            key in s.tails <==> exists n: nat :: n < |s.log| && s.log[n].key == key && Newest(s, n) && !s.log[n].released
    ensures (forall n :: 0 <= n < |states[i].log| ==> states[i].log[n].released) ==> key !in states[i].tails
  {
    hide Newest, Run;
    RunStructured(states, events, i);
  }

  /** As long as a terminal reservation is not released, no reservation of its key follows and none is accepted. */
  lemma TerminalFences(states: seq<State>, events: seq<Event>, i: nat, n: nat, terminal: bool)
    requires Run(states, events) && i < |states| && n < |states[i].log|
    requires states[i].log[n].terminal && !states[i].log[n].released
    ensures var s := states[i];
            && (forall m :: n < m < |s.log| ==> s.log[m].key != s.log[n].key)
            && Reserved(s, s.log[n].key, terminal) == s
  {
    hide Run;
    RunStructured(states, events, i);
    assert Newest(states[i], n);
  }

  /** A reservation is rejected only by a terminal one that is not released. */
  lemma RejectedByTerminal(states: seq<State>, events: seq<Event>, i: nat, key: string, terminal: bool) returns (n: nat)
    requires Run(states, events) && i < |states| && Reserved(states[i], key, terminal) == states[i]
    ensures n < |states[i].log|
    ensures var r := states[i].log[n]; r.key == key && r.terminal && !r.released
  {
    hide Run;
    RunStructured(states, events, i);
    assert Fenced(states[i], key);
    n := states[i].tails[key];
  }

  // ----------------------------------------------------- in terms of the events

  /** Event `i` reserved the key and was accepted as reservation `n`. */
  ghost predicate AcceptedAs(states: seq<State>, events: seq<Event>, i: nat, key: string, terminal: bool, n: nat)
    requires |states| == |events| + 1 && i < |events|
  {
    events[i] == Reserve(key, terminal) && n == |states[i].log| < |states[i + 1].log|
  }

  ghost predicate ReleasedBetween(events: seq<Event>, i: nat, j: nat, n: nat)
    requires j <= |events|
  {
    exists m: nat :: i < m < j && events[m] == Release(n)
  }

  /** Which event made a reservation, with which key and flag, and whether it was released, is what the log says. */
  lemma {:induction false} LogIsHistory(states: seq<State>, events: seq<Event>, j: nat, n: nat) returns (i: nat)
    requires Run(states, events) && j < |states| && n < |states[j].log|
    ensures i < j && AcceptedAs(states, events, i, states[j].log[n].key, states[j].log[n].terminal, n)
    ensures states[j].log[n].released <==> ReleasedBetween(events, i, j, n)
  {
    var s, event := states[j - 1], events[j - 1];
    assert states[j] == Next(s, event);
    if n < |s.log| {
      i := LogIsHistory(states, events, j - 1, n);
      assert states[j].log[n].released <==> s.log[n].released || event == Release(n);
      if event == Release(n) {
        assert i < j - 1 < j && events[j - 1] == Release(n);
      }
      if m: nat :| i < m < j && events[m] == Release(n) {
        assert m < j - 1 || event == Release(n);
      }
      hide Next, Run;
      assert states[j].log[n].key == s.log[n].key && states[j].log[n].terminal == s.log[n].terminal;
    } else {
      i := j - 1;
    }
  }

  /** The log only grows, and an accepted reservation keeps its key and flag. */
  lemma {:induction false} AcceptedStays(
      states: seq<State>, events: seq<Event>, i: nat, j: nat, key: string, terminal: bool, n: nat)
    requires Run(states, events) && i < j < |states| && AcceptedAs(states, events, i, key, terminal, n)
    ensures n < |states[j].log| && states[j].log[n].key == key && states[j].log[n].terminal == terminal
    ensures states[j].log[n].released <==> ReleasedBetween(events, i, j, n)
  {
    var s, event := states[j - 1], events[j - 1];
    assert states[j] == Next(s, event);
    if i < j - 1 {
      AcceptedStays(states, events, i, j - 1, key, terminal, n);
      assert states[j].log[n].released <==> s.log[n].released || event == Release(n);
      if event == Release(n) {
        assert i < j - 1 < j && events[j - 1] == Release(n);
      }
      if m: nat :| i < m < j && events[m] == Release(n) {
        assert m < j - 1 || event == Release(n);
      }
    }
  }

  /** A terminal reservation of the key was accepted before event `j`, and has not been released since. */
  ghost predicate TerminalBefore(states: seq<State>, events: seq<Event>, j: nat, key: string)
    requires |states| == |events| + 1 && j <= |events|
  {
    exists i: nat, n: nat :: i < j && AcceptedAs(states, events, i, key, true, n) && !ReleasedBetween(events, i, j, n)
  }

  /**
    In every run a reservation is rejected exactly if a terminal one of its key was accepted before and has not
    been released since; else it is accepted, under the next number.
   */
  lemma RejectionIsExact(states: seq<State>, events: seq<Event>, j: nat, key: string, terminal: bool)
    requires Run(states, events) && j < |events| && events[j] == Reserve(key, terminal)
    ensures TerminalBefore(states, events, j, key) ==> states[j + 1] == states[j]
    ensures !TerminalBefore(states, events, j, key) ==> AcceptedAs(states, events, j, key, terminal, |states[j].log|)
  {
    hide Structured;
    RunStructured(states, events, j);
    if Fenced(states[j], key) {
      var n := RejectedByTerminal(states, events, j, key, terminal);
      var i := LogIsHistory(states, events, j, n);
      assert TerminalBefore(states, events, j, key);
    }
    if TerminalBefore(states, events, j, key) {
      var i: nat, n: nat :| i < j && AcceptedAs(states, events, i, key, true, n) && !ReleasedBetween(events, i, j, n);
      AcceptedStays(states, events, i, j, key, true, n);
      TerminalFences(states, events, j, n, terminal);
    }
  }

  /** Where the earlier reservations of its key are all released, a reservation that waits enters. */
  lemma EntersWhenFree(states: seq<State>, events: seq<Event>, j: nat, n: nat)
    requires Run(states, events) && j < |events| && events[j] == Enter(n) && n < |states[j].log|
    requires forall m :: 0 <= m < n && states[j].log[m].key == states[j].log[n].key ==> states[j].log[m].released
    ensures n < |states[j + 1].log| && states[j + 1].log[n].entered
  {
    RunStructured(states, events, j);
    assert PreviousIsEarlier(states[j]);
  }

  /** An early release lets a third reservation in while the first is inside. */
  lemma EarlyReleaseAdmitsTwo(states: seq<State>, events: seq<Event>, key: string)
    requires Run(states, events)
    requires events == [Reserve(key, false), Reserve(key, false), Enter(0), Release(1), Reserve(key, false), Enter(2)]
    ensures var s := states[6];
            && |s.log| == 3 && s.log[0].key == s.log[2].key == key
            && s.log[0].entered && !s.log[0].released && s.log[2].entered && !s.log[2].released
  {
    var first := Reservation(key, None, false, false, false);
    assert states[1] == State([first], map[key := 0]);
    assert states[2] == State([first, first.(previous := Some(0))], map[key := 1]);
    var inside := first.(entered := true);
    assert states[3] == State([inside, first.(previous := Some(0))], map[key := 1]);
    assert states[4] == State([inside, first.(previous := Some(0), released := true)], map[]);
    assert states[5] == State([inside, first.(previous := Some(0), released := true), first], map[key := 2]);
    assert states[6] == State([inside, first.(previous := Some(0), released := true), inside], map[key := 2]);
  }

  // ---------------------------------------------------- sections: the locks

  /** Sections never reserve terminally and release only what has entered: the touch lock and the write queue. */
  ghost predicate SectionEvent(s: State, event: Event) {
    match event
    case Reserve(_, terminal) => !terminal
    case Enter(_) => true
    case Release(n) => n < |s.log| ==> s.log[n].entered
  }

  /** Sections under one key run one after the other in the order of their reservation, and none is rejected. */
  lemma {:induction false} SectionsAreSerial(states: seq<State>, events: seq<Event>, i: nat)
    requires Run(states, events) && i < |states|
    requires forall j :: 0 <= j < i ==> SectionEvent(states[j], events[j])
    ensures Exclusive(states[i])
    ensures forall n :: 0 <= n < |states[i].log| ==> !states[i].log[n].terminal
    ensures forall key :: !Fenced(states[i], key)
  {
    forall j | 0 <= j < i ensures Timely(states[j], events[j]) {
      RunEntersThroughGate(states, events, j);
      assert SectionEvent(states[j], events[j]);
    }
    MutualExclusion(states, events, i);
    NeverTerminal(states, events, i);
  }

  lemma {:induction false} NeverTerminal(states: seq<State>, events: seq<Event>, i: nat)
    requires Run(states, events) && i < |states|
    requires forall j :: 0 <= j < i ==> SectionEvent(states[j], events[j])
    ensures forall n :: 0 <= n < |states[i].log| ==> !states[i].log[n].terminal
  {
    if i > 0 {
      NeverTerminal(states, events, i - 1);
      assert SectionEvent(states[i - 1], events[i - 1]);
      assert states[i] == Next(states[i - 1], events[i - 1]);
    }
  }

  // -------------------------------------------------------------------- queue

  /** The queue: its map, and the reservations handed out. */
  class ReservationQueue {
    var log: seq<Reservation>
    var tails: map<string, nat>

    function Contents(): State
      reads this
    {
      State(log, tails)
    }

    constructor ()
      ensures Contents() == EMPTY && Structured(Contents())
    {
      log, tails := [], map[];
    }

    /** Makes a reservation, unless the key is fenced. */
    method Reserve(key: string, terminal: bool) returns (n: Option<nat>)
      requires Structured(Contents())
      modifies this
      ensures n.None? <==> Fenced(old(Contents()), key)
      ensures n.Some? ==> n.value == |old(log)| < |log| && log[n.value].key == key && log[n.value].terminal == terminal
      ensures Contents() == Reserved(old(Contents()), key, terminal) && Structured(Contents())
    {
      ReserveStructured(Contents(), key, terminal);
      hide Structured;
      var previous := if key in tails then Some(tails[key]) else None;
      if previous.Some? && previous.value < |log| && log[previous.value].terminal {
        return None;
      }
      n := Some(|log|);
      tails := tails[key := |log|];
      log := log + [Reservation(key, previous, terminal, false, false)];
    }

    /** Resolves the promise of a reservation, once, and takes it out of the map if it is still the tail. */
    method Release(n: nat)
      requires Structured(Contents()) && n < |log|
      modifies this
      ensures Contents() == Released(old(Contents()), n) && Structured(Contents())
    {
      ReleaseStructured(Contents(), n);
      hide Structured;
      if log[n].released {
        return;
      }
      var key := log[n].key;
      log := log[n := log[n].(released := true)];
      if key in tails && tails[key] == n {
        tails := tails - {key};
      }
    }
  }
}
