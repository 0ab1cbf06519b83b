/**
  The calls made on the playout ring, as an observer sees them who knows when each call begins and
  returns and how the histories of the ring grow, under every interleaving. A push returns with its own
  frame stored under one ticket of its own; a pop returns with one frame of its own, or with none if at
  some moment of the call there was nothing to take; frames are dropped only by pushes that found the
  ring full; and calls that do not overlap get their tickets in the order of the calls.
 */
module PlayoutCalls {
  import Arithmetic
  import opened PlayoutRing

  datatype Operation<F> = Push(frame: F) | Pop

  datatype Option<T> = None | Some(value: T)

  /**
    A call: the numbers of tickets handed out before it began, the enqueue tickets it got, its entries in
    `taken`, whether at a moment of the call there was nothing to take, or no room, and, once it has
    returned, how many calls had begun by then.
   */
  datatype Call<F> = Call(
    operation: Operation<F>, enqueued: nat, dequeued: nat, tickets: seq<nat>, took: seq<nat>,
    sawNothing: bool, sawNoRoom: bool, ended: Option<nat>)

  /** The ring, all calls in the order in which they began, and the call each thread is in. */
  datatype Whole<F> = Whole(ring: State<F>, calls: seq<Call<F>>, current: seq<Option<nat>>)

  function Start<F>(frames: seq<F>, threadCount: nat): Whole<F> {
    Whole(Initial(frames, threadCount), [], seq(threadCount, _ => None))
  }

  // ----------------------------------------------------------------- observing

  /** The oldest ticket that is not taken has no frame in its cell. */
  predicate NothingToTake<F>(s: State<F>)
    requires |s.cells| > 0
  {
    s.cells[Slot(s.dequeue, |s.cells|)].sequence != s.dequeue + 1
  }

  /** The cell of the next ticket is not free. */
  predicate NoRoom<F>(s: State<F>)
    requires |s.cells| > 0
  {
    s.cells[Slot(s.enqueue, |s.cells|)].sequence != s.enqueue
  }

  /** What an idle thread begins. */
  function Begun<F>(choice: Choice<F>, s: State<F>): Option<Call<F>> {
    match choice
    case StartPush(frame) => Some(Call(Push(frame), s.enqueue, s.dequeue, [], [], false, false, None))
    case StartPop => Some(Call(Pop, s.enqueue, s.dequeue, [], [], false, false, None))
    case Proceed(_) => None
  }

  function Longer(numbers: seq<nat>, before: nat, after: nat): seq<nat> {
    if after > before then numbers + [before] else numbers
  }

  /** A call after a step of its own thread, `calls` calls having begun. */
  function Grown<F>(call: Call<F>, s: State<F>, s': State<F>, t: nat, calls: nat): Call<F>
    requires |s.cells| > 0 && t < |s'.threads|
  {
    Call(
      call.operation, call.enqueued, call.dequeued,
      Longer(call.tickets, |s.written|, |s'.written|), Longer(call.took, |s.taken|, |s'.taken|),
      call.sawNothing || NothingToTake(s), call.sawNoRoom || NoRoom(s),
      if s'.threads[t].Idle? then Some(calls) else None)
  }

  predicate WellFormed<F>(s: Whole<F>) {
    && |s.ring.cells| > 0 && |s.current| == |s.ring.threads|
    && forall t :: 0 <= t < |s.current| && s.current[t].Some? ==> s.current[t].value < |s.calls|
  }

  /** The thread begins a call if it is in none. */
  function Entered<F>(s: Whole<F>, t: nat, choice: Choice<F>): (s': Whole<F>)
    requires WellFormed(s) && t < |s.ring.threads|
    ensures WellFormed(s') && s'.ring == s.ring
  {
    var begun := Begun(choice, s.ring);
    if s.current[t].Some? || begun.None? then s
    else Whole(s.ring, s.calls + [begun.value], s.current[t := Some(|s.calls|)])
  }

  /** A step of the thread; the call it is in has returned when the thread is idle again. */
  function Moved<F>(s: Whole<F>, t: nat, choice: Choice<F>): (s': Whole<F>)
    requires WellFormed(s) && t < |s.ring.threads|
    ensures WellFormed(s') && |s'.ring.threads| == |s.ring.threads| && |s'.ring.cells| == |s.ring.cells|
  {
    var ring, k := Step(s.ring, t, choice), s.current[t];
    if k.None? then s.(ring := ring)
    else
      Whole(
        ring, s.calls[k.value := Grown(s.calls[k.value], s.ring, ring, t, |s.calls|)],
        if ring.threads[t].Idle? then s.current[t := None] else s.current)
  }

  function NextStep<F>(s: Whole<F>, t: nat, choice: Choice<F>): (s': Whole<F>)
    requires WellFormed(s) && t < |s.ring.threads|
    ensures WellFormed(s') && |s'.ring.threads| == |s.ring.threads| && |s'.ring.cells| == |s.ring.cells|
  {
    Moved(Entered(s, t, choice), t, choice)
  }

  function RunAll<F>(s: Whole<F>, schedule: seq<Move<F>>): (s': Whole<F>)
    requires WellFormed(s)
    requires forall m :: m in schedule ==> m.thread < |s.ring.threads|
    ensures WellFormed(s') && |s'.ring.threads| == |s.ring.threads|
    decreases |schedule|
  {
    if schedule == [] then s
    else RunAll(NextStep(s, schedule[0].thread, schedule[0].choice), schedule[1..])
  }

  /** The observer changes nothing: the ring runs as if unobserved. */
  lemma {:induction false} RunIsRun<F>(s: Whole<F>, schedule: seq<Move<F>>)
    requires WellFormed(s)
    requires forall m :: m in schedule ==> m.thread < |s.ring.threads|
    ensures RunAll(s, schedule).ring == Run(s.ring, schedule)
    decreases |schedule|
  {
    if schedule != [] {
      RunIsRun(NextStep(s, schedule[0].thread, schedule[0].choice), schedule[1..]);
    }
  }

  // ------------------------------------------------------------- the ring alone

  /** Sequence numbers only rise: past the positions handed out, past the tickets taken, and by a lap once released. */
  ghost predicate Risen<F>(s: State<F>)
    requires |s.cells| > 0
  {
    && (forall i :: 0 <= i < |s.cells| ==> s.cells[i].sequence >= i)
    && (forall n: nat :: n < s.enqueue ==> s.cells[Slot(n, |s.cells|)].sequence >= n)
    && (forall n: nat :: n < s.dequeue ==> s.cells[Slot(n, |s.cells|)].sequence >= n + 1)
    && (forall j :: 0 <= j < |s.taken| ==>
          s.cells[Slot(s.taken[j].ticket, |s.cells|)].sequence >= s.taken[j].ticket + |s.cells|)
  }

  lemma RisesTo<F>(s: State<F>, s': State<F>)
    requires |s.cells| == |s'.cells| > 0 && Risen(s)
    requires forall i :: 0 <= i < |s.cells| ==> s'.cells[i].sequence >= s.cells[i].sequence
    requires s'.enqueue > s.enqueue ==>
               s'.enqueue == s.enqueue + 1 && s'.cells[Slot(s.enqueue, |s.cells|)].sequence >= s.enqueue
    requires s'.dequeue > s.dequeue ==>
               s'.dequeue == s.dequeue + 1 && s'.cells[Slot(s.dequeue, |s.cells|)].sequence >= s.dequeue + 1
    requires s'.taken != s.taken ==>
               && |s'.taken| == |s.taken| + 1 && s'.taken[..|s.taken|] == s.taken
               && var ticket := s'.taken[|s.taken|].ticket;
                  s'.cells[Slot(ticket, |s.cells|)].sequence >= ticket + |s.cells|
    ensures Risen(s')
  {
    forall j | 0 <= j < |s'.taken|
      ensures s'.cells[Slot(s'.taken[j].ticket, |s.cells|)].sequence >= s'.taken[j].ticket + |s.cells|
    {
      if j < |s.taken| {
        assert s'.taken[j] == s'.taken[..|s.taken|][j];
      }
    }
  }

  lemma StepRises<F>(s: State<F>, t: nat, choice: Choice<F>)
    requires Inv(s) && Risen(s) && t < |s.threads|
    ensures Risen(Step(s, t, choice))
  {
    assert ThreadOk(s, s.threads[t]);
    hide Slot, CellOk, Distinct, TakenOk, Complete, Risen;
    RisesTo(s, Step(s, t, choice));
  }

  lemma InitialRisen<F>(frames: seq<F>, threadCount: nat)
    requires |frames| > 0
    ensures Risen(Initial(frames, threadCount))
  {
  }

  /** The sequence a thread loads for a position handed out can only be small if the position is the next one. */
  lemma StaleIsNext<F>(s: State<F>, p: nat)
    requires |s.cells| > 0 && Risen(s)
    ensures p <= s.enqueue && s.cells[Slot(p, |s.cells|)].sequence < p ==> p == s.enqueue && NoRoom(s)
    ensures p <= s.dequeue && s.cells[Slot(p, |s.cells|)].sequence < p + 1 ==> p == s.dequeue && NothingToTake(s)
  {
  }

  predicate BeingTaken<F>(s: State<F>, ticket: int) {
    ticket >= 0 && exists t :: 0 <= t < |s.threads| && Popping(s.threads[t], ticket)
  }

  predicate BeingStored<F>(s: State<F>, ticket: nat) {
    exists t :: 0 <= t < |s.threads| && Pushing(s.threads[t], ticket)
  }

  /** With no room the ring is full, or a thread is in the middle of a pop a lap behind. */
  lemma NoRoomMeans<F>(s: State<F>)
    requires Inv(s) && Risen(s) && NoRoom(s)
    ensures s.enqueue == s.dequeue + |s.cells| || BeingTaken(s, s.enqueue - |s.cells|)
  {
    if s.enqueue < s.dequeue + |s.cells| && !BeingTaken(s, s.enqueue - |s.cells|) {
      FreeCell(s, s.enqueue);
    }
  }

  /** A position of the next lap whose ticket a lap before is not being taken has its cell free. */
  lemma FreeCell<F>(s: State<F>, n: nat)
    requires Inv(s) && Risen(s) && s.enqueue <= n < s.dequeue + |s.cells|
    requires !BeingTaken(s, n - |s.cells|)
    ensures s.cells[Slot(n, |s.cells|)].sequence == n
  {
    var N := |s.cells|;
    var i := Slot(n, N);
    if n >= N {
      SlotWrap(n - N, N);
      assert TakenOnce(s, n - N);
      var j :| 0 <= j < |s.taken| && s.taken[j].ticket == n - N;
      assert s.cells[i].sequence >= n;
    } else {
      Arithmetic.DivideUnique(n, 0, n, N);
    }
    assert CellOk(s, i);
    var q := s.cells[i].sequence;
    if Slot(q, N) == i {
      SlotDistinct(n, q, N);
    }
  }

  /** With nothing to take the ring is empty, or a thread is in the middle of a push of the oldest ticket. */
  lemma NothingMeans<F>(s: State<F>)
    requires Inv(s) && NothingToTake(s)
    ensures s.enqueue == s.dequeue || BeingStored(s, s.dequeue)
  {
    if s.dequeue < s.enqueue {
      assert Stored(s, s.dequeue);
    }
  }

  // ------------------------------------------------------------------- calls

  /** The tickets of a push have its frame; all were handed out after the call began. A pop has none. */
  ghost predicate TicketsOk<F>(call: Call<F>, ring: State<F>) {
    && |call.tickets| <= 1 && (call.operation.Pop? ==> call.tickets == [])
    && forall n :: n in call.tickets ==>
         && call.enqueued <= n < |ring.written|
         && call.operation == Push(ring.written[n])
  }

  /** What a call took, it took after it began; a pop delivers it, a push drops it, and only for lack of room. */
  ghost predicate TookOk<F>(call: Call<F>, ring: State<F>) {
    && (forall j :: j in call.took ==>
          && j < |ring.taken| && ring.taken[j].delivered == call.operation.Pop?
          && call.dequeued <= ring.taken[j].ticket < ring.dequeue)
    && (call.operation.Push? && call.took != [] ==> call.sawNoRoom)
  }

  /** A call that has returned: a push has its ticket, a pop one frame, or none if there was nothing to take. */
  ghost predicate Complied<F>(call: Call<F>) {
    match call.operation
    case Push(_) => |call.tickets| == 1
    case Pop => |call.took| <= 1 && (call.took == [] ==> call.sawNothing)
  }

  ghost predicate CallOk<F>(call: Call<F>, ring: State<F>) {
    TicketsOk(call, ring) && TookOk(call, ring) && (call.ended.Some? ==> Complied(call))
  }

  ghost predicate IsPush<F>(call: Call<F>, frame: F, tickets: seq<nat>) {
    call.operation == Push(frame) && call.tickets == tickets
  }

  ghost predicate IsFor<F>(call: Call<F>, goal: Goal<F>) {
    match goal
    case Deliver => call.operation == Pop && call.took == []
    case MakeRoom(frame) => IsPush(call, frame, []) && call.sawNoRoom
  }

  /** What the place of a thread says of the call it is in. */
  ghost predicate InStep<F>(thread: Thread<F>, call: Call<F>) {
    match thread
    case Idle => false
    case PushRetry(f) => IsPush(call, f, [])
    case PushAt(f, _) => IsPush(call, f, [])
    case PushSaw(f, p, q) => IsPush(call, f, []) && (q < p ==> call.sawNoRoom)
    case PushWon(f, p) => IsPush(call, f, [p])
    case PushCopied(f, p) => IsPush(call, f, [p])
    case PopAt(goal, _) => IsFor(call, goal)
    case PopSaw(goal, p, q) => IsFor(call, goal) && (q < p + 1 ==> call.sawNothing)
    case PopWon(goal, p) => IsFor(call, goal) && call.dequeued <= p
    case PopCopied(goal, p, _) => IsFor(call, goal) && call.dequeued <= p
  }

  ghost predicate ThreadInStep<F>(s: Whole<F>, t: nat)
    requires WellFormed(s) && t < |s.current|
  {
    if s.current[t].None? then s.ring.threads[t].Idle?
    else
      var call := s.calls[s.current[t].value];
      && call.ended.None? && InStep(s.ring.threads[t], call)
      && call.enqueued <= s.ring.enqueue && call.dequeued <= s.ring.dequeue
  }

  /** Two threads are never in the same call. */
  ghost predicate Apart<F>(s: Whole<F>) {
    forall t, u :: 0 <= t < u < |s.current| && s.current[t].Some? ==> s.current[t] != s.current[u]
  }

  predicate HasTicket<F>(calls: seq<Call<F>>, n: nat) {
    exists k :: 0 <= k < |calls| && n in calls[k].tickets
  }

  predicate HasTaken<F>(calls: seq<Call<F>>, j: nat) {
    exists k :: 0 <= k < |calls| && j in calls[k].took
  }

  /** Every ticket and every entry belongs to a call. */
  ghost predicate Covered<F>(calls: seq<Call<F>>, tickets: nat, entries: nat) {
    && (forall n: nat :: n < tickets ==> HasTicket(calls, n))
    && (forall j: nat :: j < entries ==> HasTaken(calls, j))
  }

  /** None belongs to two. */
  ghost predicate Unshared<F>(calls: seq<Call<F>>) {
    && (forall k, l, n :: 0 <= k < l < |calls| && n in calls[k].tickets ==> n !in calls[l].tickets)
    && (forall k, l, j :: 0 <= k < l < |calls| && j in calls[k].took ==> j !in calls[l].took)
  }

  /** Call `k` had returned when call `l` began. */
  predicate Precedes<F>(calls: seq<Call<F>>, k: nat, l: nat) {
    k < |calls| && l < |calls| && calls[k].ended.Some? && calls[k].ended.value <= l
  }

  ghost predicate TicketsBelow<F>(call: Call<F>, enqueued: nat, dequeued: nat, taken: seq<Taken<F>>) {
    && (forall n :: n in call.tickets ==> n < enqueued)
    && (forall j :: j in call.took ==> j < |taken| && taken[j].ticket < dequeued)
  }

  /** A call has later tickets than the calls that had returned when it began. */
  ghost predicate InOrder<F>(calls: seq<Call<F>>, taken: seq<Taken<F>>) {
    && (forall k :: 0 <= k < |calls| && calls[k].ended.Some? ==> calls[k].ended.value <= |calls|)
    && (forall k: nat, l: nat :: Precedes(calls, k, l) ==> TicketsBelow(calls[k], calls[l].enqueued, calls[l].dequeued, taken))
  }

  ghost predicate CallsOk<F>(calls: seq<Call<F>>, ring: State<F>) {
    forall k :: 0 <= k < |calls| ==> CallOk(calls[k], ring)
  }

  ghost predicate CallsInv<F>(s: Whole<F>) {
    && WellFormed(s) && Inv(s.ring) && Risen(s.ring)
    && CallsOk(s.calls, s.ring)
    && (forall t :: 0 <= t < |s.current| ==> ThreadInStep(s, t))
    && Apart(s)
    && Covered(s.calls, |s.ring.written|, |s.ring.taken|) && Unshared(s.calls) && InOrder(s.calls, s.ring.taken)
  }

  // -------------------------------------------------------------- a call begins

  lemma MoreAreCovered<F>(calls: seq<Call<F>>, calls': seq<Call<F>>, tickets: nat, entries: nat)
    requires Covered(calls, tickets, entries) && |calls| <= |calls'|
    requires forall k :: 0 <= k < |calls| ==> calls[k].tickets <= calls'[k].tickets && calls[k].took <= calls'[k].took
    ensures Covered(calls', tickets, entries)
  {
    forall n: nat | n < tickets ensures HasTicket(calls', n) {
      assert HasTicket(calls, n);
      var k :| 0 <= k < |calls| && n in calls[k].tickets;
      PrefixMembers(calls[k].tickets, calls'[k].tickets, n);
      assert n in calls'[k].tickets;
    }
    forall j: nat | j < entries ensures HasTaken(calls', j) {
      assert HasTaken(calls, j);
      var k :| 0 <= k < |calls| && j in calls[k].took;
      PrefixMembers(calls[k].took, calls'[k].took, j);
      assert j in calls'[k].took;
    }
  }

  lemma PrefixMembers(a: seq<nat>, b: seq<nat>, n: nat)
    requires a <= b && n in a
    ensures n in b
  {
    var i :| 0 <= i < |a| && a[i] == n;
    assert b[i] == n;
  }

  predicate IsNew<F>(call: Call<F>, ring: State<F>) {
    call.tickets == [] && call.took == [] && call.ended.None? && call.enqueued == ring.enqueue && call.dequeued == ring.dequeue
  }

  lemma BeginningKeepsCalls<F>(calls: seq<Call<F>>, call: Call<F>, ring: State<F>)
    requires CallsOk(calls, ring) && IsNew(call, ring) && |ring.written| == ring.enqueue
    requires Covered(calls, |ring.written|, |ring.taken|) && Unshared(calls) && InOrder(calls, ring.taken)
    ensures var calls' := calls + [call];
            && CallsOk(calls', ring) && Covered(calls', |ring.written|, |ring.taken|)
            && Unshared(calls') && InOrder(calls', ring.taken)
  {
    var calls' := calls + [call];
    assert forall k :: 0 <= k < |calls| ==> calls'[k] == calls[k];
    MoreAreCovered(calls, calls', |ring.written|, |ring.taken|);
    forall k: nat, l: nat | Precedes(calls', k, l) ensures TicketsBelow(calls'[k], calls'[l].enqueued, calls'[l].dequeued, ring.taken) {
      assert CallOk(calls[k], ring);
      if l < |calls| {
        assert Precedes(calls, k, l);
      }
    }
  }

  lemma EntryKeeps<F>(s: Whole<F>, t: nat, choice: Choice<F>)
    requires CallsInv(s) && t < |s.ring.threads|
    ensures var s' := Entered(s, t, choice);
            && CallsOk(s'.calls, s'.ring) && Apart(s')
            && Covered(s'.calls, |s'.ring.written|, |s'.ring.taken|)
            && Unshared(s'.calls) && InOrder(s'.calls, s'.ring.taken)
            && (forall u :: 0 <= u < |s'.current| && u != t ==> ThreadInStep(s', u))
  {
    var begun := Begun(choice, s.ring);
    if s.current[t].None? && begun.Some? {
      BeginningKeepsCalls(s.calls, begun.value, s.ring);
    }
    hide Inv, Risen, CallsOk, Covered, Unshared, InOrder;
    var s' := Entered(s, t, choice);
    forall u | 0 <= u < |s'.current| && u != t ensures ThreadInStep(s', u) {
      assert ThreadInStep(s, u);
    }
  }

  // --------------------------------------------------------------- a call moves

  /** How a step of a thread can change the histories and the counters. */
  ghost predicate Extends<F>(ring: State<F>, ring': State<F>) {
    && ring.written <= ring'.written && ring.taken <= ring'.taken
    && |ring'.written| <= |ring.written| + 1 && |ring'.taken| <= |ring.taken| + 1
    && ring.enqueue <= ring'.enqueue && ring.dequeue <= ring'.dequeue
  }

  lemma StepExtends<F>(ring: State<F>, t: nat, choice: Choice<F>)
    requires |ring.cells| > 0 && t < |ring.threads|
    ensures Extends(ring, Step(ring, t, choice))
    ensures forall u :: 0 <= u < |ring.threads| && u != t ==> Step(ring, t, choice).threads[u] == ring.threads[u]
  {
    hide Slot;
  }

  /** What `OwnCallKeeps` says of one step. */
  ghost predicate KeepsCall<F>(ring: State<F>, t: nat, choice: Choice<F>, call: Call<F>, calls: nat)
    requires |ring.cells| > 0 && t < |ring.threads|
  {
    var ring' := Step(ring, t, choice);
    var call' := Grown(call, ring, ring', t, calls);
    && CallOk(call', ring')
    && (!ring'.threads[t].Idle? ==> InStep(ring'.threads[t], call'))
  }

  /** A call stays as it should be when what it gets in a step is its own, and complies if it returns. */
  lemma GrownOk<F>(call: Call<F>, ring: State<F>, ring': State<F>, t: nat, calls: nat)
    requires |ring.cells| > 0 && t < |ring'.threads|
    requires CallOk(call, ring) && Extends(ring, ring')
    requires |ring'.written| > |ring.written| ==>
               && call.tickets == [] && call.enqueued <= |ring.written|
               && call.operation == Push(ring'.written[|ring.written|])
    requires |ring'.taken| > |ring.taken| ==>
               && ring'.taken[|ring.taken|].delivered == call.operation.Pop?
               && call.dequeued <= ring'.taken[|ring.taken|].ticket < ring'.dequeue
               && (call.operation.Push? ==> call.sawNoRoom)
    requires ring'.threads[t].Idle? ==> Complied(Grown(call, ring, ring', t, calls))
    ensures CallOk(Grown(call, ring, ring', t, calls), ring')
  {
    var call' := Grown(call, ring, ring', t, calls);
    hide NoRoom, NothingToTake, Complied;
    assert TicketsOk(call', ring');
    assert TookOk(call', ring');
  }

  /** The position a thread has loaded and found too small is that of a ring with no room, or nothing to take. */
  lemma LoadedStale<F>(ring: State<F>, thread: Thread<F>)
    requires Inv(ring) && Risen(ring) && ThreadOk(ring, thread)
    ensures thread.PushAt? && ring.cells[Slot(thread.position, |ring.cells|)].sequence < thread.position ==> NoRoom(ring)
    ensures thread.PopAt? && ring.cells[Slot(thread.position, |ring.cells|)].sequence < thread.position + 1 ==>
              NothingToTake(ring)
  {
    if thread.PushAt? || thread.PopAt? {
      StaleIsNext(ring, thread.position);
    }
  }

  lemma StaysInStep<F>(ring: State<F>, t: nat, choice: Choice<F>, call: Call<F>, calls: nat)
    requires |ring.cells| > 0 && |ring.written| == ring.enqueue && t < |ring.threads| && InStep(ring.threads[t], call)
    requires call.dequeued <= ring.dequeue
    requires var thread := ring.threads[t];
             && (thread.PushAt? && ring.cells[Slot(thread.position, |ring.cells|)].sequence < thread.position ==> NoRoom(ring))
             && (thread.PopAt? && ring.cells[Slot(thread.position, |ring.cells|)].sequence < thread.position + 1 ==>
                   NothingToTake(ring))
    ensures var ring' := Step(ring, t, choice);
            !ring'.threads[t].Idle? ==> InStep(ring'.threads[t], Grown(call, ring, ring', t, calls))
  {
    hide Slot, NoRoom, NothingToTake;
  }

  /** What a step adds to the histories, by a thread in step with its call. */
  lemma AddsItsOwn<F>(ring: State<F>, t: nat, choice: Choice<F>, call: Call<F>)
    requires |ring.cells| > 0 && t < |ring.threads| && InStep(ring.threads[t], call)
    requires ThreadOk(ring, ring.threads[t]) && call.enqueued <= ring.enqueue == |ring.written|
    ensures var ring' := Step(ring, t, choice);
            && (|ring'.written| > |ring.written| ==>
                  && call.tickets == [] && call.enqueued <= |ring.written|
                  && call.operation == Push(ring'.written[|ring.written|]))
            && (|ring'.taken| > |ring.taken| ==>
                  && ring'.taken[|ring.taken|].delivered == call.operation.Pop?
                  && call.dequeued <= ring'.taken[|ring.taken|].ticket < ring'.dequeue
                  && (call.operation.Push? ==> call.sawNoRoom))
  {
    hide Slot;
  }

  lemma ReturnsComplied<F>(ring: State<F>, t: nat, choice: Choice<F>, call: Call<F>, calls: nat)
    requires |ring.cells| > 0 && t < |ring.threads| && InStep(ring.threads[t], call)
    ensures var ring' := Step(ring, t, choice);
            ring'.threads[t].Idle? ==> Complied(Grown(call, ring, ring', t, calls))
  {
    hide Slot, NoRoom, NothingToTake;
  }

  /** The call of the thread that moves keeps what it has complied with, and stays in step. */
  lemma OwnCallKeeps<F>(ring: State<F>, t: nat, choice: Choice<F>, call: Call<F>, calls: nat)
    requires Inv(ring) && Risen(ring) && t < |ring.threads| && CallOk(call, ring) && call.ended.None?
    requires call.enqueued <= ring.enqueue && call.dequeued <= ring.dequeue
    requires InStep(ring.threads[t], call) || StartsAs(choice, ring.threads[t], call)
    ensures KeepsCall(ring, t, choice, call, calls)
  {
    var ring' := Step(ring, t, choice);
    assert ThreadOk(ring, ring.threads[t]);
    LoadedStale(ring, ring.threads[t]);
    if ring.threads[t].Idle? {
      hide Inv, Risen, Slot;
    } else {
      StepExtends(ring, t, choice);
      AddsItsOwn(ring, t, choice, call);
      ReturnsComplied(ring, t, choice, call, calls);
      StaysInStep(ring, t, choice, call, calls);
      hide Risen, Slot, Step, InStep, CallOk, Complied;
      GrownOk(call, ring, ring', t, calls);
    }
  }

  /** The thread is idle and begins the call, which is new. */
  ghost predicate StartsAs<F>(choice: Choice<F>, thread: Thread<F>, call: Call<F>) {
    && thread.Idle? && call.tickets == [] && call.took == []
    && match choice
       case StartPush(frame) => call.operation == Push(frame)
       case StartPop => call.operation == Pop
       case Proceed(_) => false
  }

  lemma OtherCallsKeep<F>(calls: seq<Call<F>>, ring: State<F>, ring': State<F>)
    requires CallsOk(calls, ring) && Extends(ring, ring')
    ensures CallsOk(calls, ring')
  {
    forall k | 0 <= k < |calls| ensures CallOk(calls[k], ring') {
      assert CallOk(calls[k], ring);
    }
  }

  /** Tickets and entries handed out by a step go to the call of the thread that moves. */
  lemma GrowingKeepsShares<F>(calls: seq<Call<F>>, k: nat, call: Call<F>, ring: State<F>, ring': State<F>)
    requires CallsOk(calls, ring) && Extends(ring, ring') && k < |calls|
    requires Covered(calls, |ring.written|, |ring.taken|) && Unshared(calls)
    requires call.tickets == Longer(calls[k].tickets, |ring.written|, |ring'.written|)
    requires call.took == Longer(calls[k].took, |ring.taken|, |ring'.taken|)
    ensures Covered(calls[k := call], |ring'.written|, |ring'.taken|) && Unshared(calls[k := call])
  {
    var calls' := calls[k := call];
    MoreAreCovered(calls, calls', |ring.written|, |ring.taken|);
    forall n: nat | n < |ring'.written| ensures HasTicket(calls', n) {
      if n == |ring.written| {
        assert n in calls'[k].tickets;
      }
    }
    forall j: nat | j < |ring'.taken| ensures HasTaken(calls', j) {
      if j == |ring.taken| {
        assert j in calls'[k].took;
      }
    }
    forall l | 0 <= l < |calls| ensures |ring.written| !in calls[l].tickets && |ring.taken| !in calls[l].took {
      assert CallOk(calls[l], ring);
    }
    hide Covered, CallsOk;
  }

  lemma GrowingKeepsOrder<F>(calls: seq<Call<F>>, k: nat, call: Call<F>, ring: State<F>, ring': State<F>)
    requires InOrder(calls, ring.taken) && Extends(ring, ring') && k < |calls|
    requires calls[k].ended.None? && call.enqueued == calls[k].enqueued && call.dequeued == calls[k].dequeued
    requires call.ended.Some? ==> call.ended.value == |calls|
    ensures InOrder(calls[k := call], ring'.taken)
  {
    var calls' := calls[k := call];
    forall m: nat, l: nat | Precedes(calls', m, l)
      ensures TicketsBelow(calls'[m], calls'[l].enqueued, calls'[l].dequeued, ring'.taken)
    {
      assert m != k && Precedes(calls, m, l);
    }
  }

  /** The threads stay in step with their calls. */
  lemma ThreadsKeep<F>(s: Whole<F>, t: nat, choice: Choice<F>)
    requires WellFormed(s) && t < |s.ring.threads| && s.current[t].Some? && Apart(s)
    requires forall u :: 0 <= u < |s.current| && u != t ==> ThreadInStep(s, u)
    requires var k := s.current[t].value;
             && KeepsCall(s.ring, t, choice, s.calls[k], |s.calls|)
             && s.calls[k].enqueued <= s.ring.enqueue && s.calls[k].dequeued <= s.ring.dequeue
    ensures var s' := Moved(s, t, choice);
            Apart(s') && forall u :: 0 <= u < |s'.current| ==> ThreadInStep(s', u)
  {
    var s' := Moved(s, t, choice);
    StepExtends(s.ring, t, choice);
    hide Step, InStep, CallOk;
    forall u | 0 <= u < |s'.current| ensures ThreadInStep(s', u) {
      if u != t {
        assert ThreadInStep(s, u) && s'.ring.threads[u] == s.ring.threads[u];
      }
    }
  }

  lemma NextKeeps<F>(s: Whole<F>, t: nat, choice: Choice<F>)
    requires CallsInv(s) && t < |s.ring.threads|
    ensures CallsInv(NextStep(s, t, choice))
  {
    var e, s' := Entered(s, t, choice), NextStep(s, t, choice);
    var ring, ring' := s.ring, s'.ring;
    assert ThreadInStep(s, t);
    StepInv(ring, t, choice);
    StepRises(ring, t, choice);
    StepExtends(ring, t, choice);
    if e.current[t].Some? {
      EntryKeeps(s, t, choice);
      var k := e.current[t].value;
      assert CallOk(e.calls[k], ring);
      hide Inv, Risen, CallOk, Covered, Unshared, InOrder, Step, Extends, InStep;
      OwnCallKeeps(ring, t, choice, e.calls[k], |e.calls|);
      ThreadsKeep(e, t, choice);
      OtherCallsKeep(e.calls, ring, ring');
      GrowingKeepsShares(e.calls, k, s'.calls[k], ring, ring');
      GrowingKeepsOrder(e.calls, k, s'.calls[k], ring, ring');
    } else {
      assert s' == s;
    }
  }

  // ----------------------------------------------------------------- theorems

  lemma StartInv<F>(frames: seq<F>, threadCount: nat)
    requires |frames| >= 2
    ensures CallsInv(Start(frames, threadCount))
  {
    InitialInv(frames, threadCount);
    InitialRisen(frames, threadCount);
  }

  lemma {:induction false} RunKeepsCalls<F>(s: Whole<F>, schedule: seq<Move<F>>)
    requires CallsInv(s)
    requires forall m :: m in schedule ==> m.thread < |s.ring.threads|
    ensures CallsInv(RunAll(s, schedule))
    decreases |schedule|
  {
    assert WellFormed(s);
    hide CallsInv, NextStep;
    if schedule != [] {
      NextKeeps(s, schedule[0].thread, schedule[0].choice);
      RunKeepsCalls(NextStep(s, schedule[0].thread, schedule[0].choice), schedule[1..]);
    }
  }

  /** A state some schedule leads to, with the calls it made. */
  ghost predicate ReachableCalls<F(!new)>(s: Whole<F>) {
    exists frames: seq<F>, threadCount: nat, schedule: seq<Move<F>> :: IsRunOfCalls(frames, threadCount, schedule, s)
  }

  ghost predicate IsRunOfCalls<F>(frames: seq<F>, threadCount: nat, schedule: seq<Move<F>>, s: Whole<F>) {
    && |frames| >= 2
    && (forall m :: m in schedule ==> m.thread < threadCount)
    && RunAll(Start(frames, threadCount), schedule) == s
  }

  lemma ReachableCallsInv<F(!new)>(s: Whole<F>)
    requires ReachableCalls(s)
    ensures CallsInv(s)
  {
    var frames: seq<F>, threadCount: nat, schedule :| IsRunOfCalls(frames, threadCount, schedule, s);
    StartInv(frames, threadCount);
    RunKeepsCalls(Start(frames, threadCount), schedule);
  }

  /**
    A push that has returned, in any run, stored its own frame under one ticket, handed out after it began
    and belonging to no other call. What it took it dropped, and it dropped only if at a moment of the call
    there was no room.
   */
  lemma PushStoresItsFrame<F(!new)>(s: Whole<F>, k: nat, frame: F)
    requires ReachableCalls(s) && k < |s.calls| && s.calls[k].ended.Some? && s.calls[k].operation == Push(frame)
    ensures |s.calls[k].tickets| == 1
    ensures var n := s.calls[k].tickets[0];
            && s.calls[k].enqueued <= n < |s.ring.written| && s.ring.written[n] == frame
            && forall l :: 0 <= l < |s.calls| && l != k ==> n !in s.calls[l].tickets
    ensures forall j :: j in s.calls[k].took ==> j < |s.ring.taken| && !s.ring.taken[j].delivered
    ensures s.calls[k].took != [] ==> s.calls[k].sawNoRoom
  {
    ReachableCallsInv(s);
    hide Inv, Risen, Covered, InOrder;
    assert CallOk(s.calls[k], s.ring);
    assert s.calls[k].tickets[0] in s.calls[k].tickets;
  }

  /** A pop that has returned delivers one frame that no other call took, or none if at a moment of it there was nothing. */
  lemma PopTakesOneFrame<F(!new)>(s: Whole<F>, k: nat)
    requires ReachableCalls(s) && k < |s.calls| && s.calls[k].ended.Some? && s.calls[k].operation == Pop
    ensures s.calls[k].tickets == [] && |s.calls[k].took| <= 1
    ensures s.calls[k].took == [] ==> s.calls[k].sawNothing
    ensures s.calls[k].took != [] ==>
              var j := s.calls[k].took[0];
              && j < |s.ring.taken| && s.ring.taken[j].delivered && s.ring.taken[j].ticket < |s.ring.written|
              && s.ring.taken[j].frame == s.ring.written[s.ring.taken[j].ticket]
              && forall l :: 0 <= l < |s.calls| && l != k ==> j !in s.calls[l].took
  {
    ReachableCallsInv(s);
    assert CallOk(s.calls[k], s.ring);
    if s.calls[k].took != [] {
      assert s.calls[k].took[0] in s.calls[k].took;
      assert TakenOk(s.ring);
    }
    hide Inv, Risen, Covered, InOrder;
  }

  /** No ticket and no frame taken comes from elsewhere: each belongs to a call, running or returned. */
  lemma EveryTicketHasACall<F(!new)>(s: Whole<F>)
    requires ReachableCalls(s)
    ensures forall n: nat :: n < |s.ring.written| ==> HasTicket(s.calls, n)
    ensures forall j: nat :: j < |s.ring.taken| ==> HasTaken(s.calls, j)
  {
    ReachableCallsInv(s);
  }

  /** If one call had returned when another began, all its tickets, of both kinds, are smaller. */
  lemma CallsAreOrdered<F(!new)>(s: Whole<F>, k: nat, l: nat, n: nat, m: nat)
    requires ReachableCalls(s) && Precedes(s.calls, k, l)
    ensures n in s.calls[k].tickets && m in s.calls[l].tickets ==> n < m
    ensures n in s.calls[k].took && m in s.calls[l].took ==>
              n < |s.ring.taken| && m < |s.ring.taken| && s.ring.taken[n].ticket < s.ring.taken[m].ticket
  {
    ReachableCallsInv(s);
    assert CallOk(s.calls[k], s.ring) && CallOk(s.calls[l], s.ring);
    hide Inv, Risen, Covered, Unshared;
    assert TicketsBelow(s.calls[k], s.calls[l].enqueued, s.calls[l].dequeued, s.ring.taken);
  }

  // ---------------------------------------------------------- undisturbed calls

  ghost predicate AllIdle<F>(s: State<F>) {
    forall t :: 0 <= t < |s.threads| ==> s.threads[t].Idle?
  }

  /** A thread that runs alone for some steps, with no spurious failure. */
  function Solo<F>(s: State<F>, t: nat, steps: nat): State<F>
    requires |s.cells| > 0 && t < |s.threads|
    decreases steps
  {
    if steps == 0 then s else Solo(Step(s, t, Proceed(false)), t, steps - 1)
  }

  lemma {:induction false} RunRises<F>(s: State<F>, schedule: seq<Move<F>>)
    requires Inv(s) && Risen(s)
    requires forall m :: m in schedule ==> m.thread < |s.threads|
    ensures Inv(Run(s, schedule)) && Risen(Run(s, schedule))
    decreases |schedule|
  {
    assert |s.cells| > 0;
    hide Inv, Risen, Step;
    if schedule != [] {
      StepInv(s, schedule[0].thread, schedule[0].choice);
      StepRises(s, schedule[0].thread, schedule[0].choice);
      RunRises(Step(s, schedule[0].thread, schedule[0].choice), schedule[1..]);
    }
  }

  /** No call is running, and the invariants of reachable states hold. */
  ghost predicate AtRest<F>(s: State<F>) {
    Inv(s) && Risen(s) && AllIdle(s)
  }

  lemma ReachableRests<F(!new)>(s: State<F>)
    requires Reachable(s) && AllIdle(s)
    ensures AtRest(s)
  {
    var frames: seq<F>, threadCount: nat, schedule :| IsRun(frames, threadCount, schedule, s);
    InitialInv(frames, threadCount);
    InitialRisen(frames, threadCount);
    RunRises(Initial(frames, threadCount), schedule);
  }

  /** At rest the cells of the queued tickets hold their frames. */
  lemma StoredAtRest<F>(s: State<F>)
    requires Inv(s) && AllIdle(s) && s.dequeue < s.enqueue
    ensures s.cells[Slot(s.dequeue, |s.cells|)] == Cell(s.dequeue + 1, s.written[s.dequeue])
  {
    var n := s.dequeue;
    assert Stored(s, n) && CellOk(s, Slot(n, |s.cells|));
    SlotNext(n, |s.cells|);
  }

  /** The state after the oldest frame was taken for some goal by a thread that then stands at `next`. */
  function AfterTake<F>(s: State<F>, t: nat, goal: Goal<F>, next: Thread<F>): State<F>
    requires 0 < |s.cells| && t < |s.threads| && s.dequeue < |s.written|
  {
    State(
      s.cells[Slot(s.dequeue, |s.cells|) := Cell(s.dequeue + |s.cells|, s.written[s.dequeue])],
      s.enqueue, s.dequeue + 1, s.threads[t := next], s.written,
      s.taken + [Taken(s.dequeue, s.written[s.dequeue], goal.Deliver?)])
  }

  /** The state after a frame was stored and its thread is idle. */
  function AfterStore<F>(s: State<F>, t: nat, frame: F): State<F>
    requires 0 < |s.cells| && t < |s.threads|
  {
    State(
      s.cells[Slot(s.enqueue, |s.cells|) := Cell(s.enqueue + 1, frame)],
      s.enqueue + 1, s.dequeue, s.threads[t := Idle], s.written + [frame], s.taken)
  }

  lemma SoloTakes<F>(s: State<F>, t: nat, goal: Goal<F>, rest: nat)
    requires 0 < |s.cells| && t < |s.threads| && s.threads[t] == PopAt(goal, s.dequeue) && s.dequeue < |s.written|
    requires s.cells[Slot(s.dequeue, |s.cells|)] == Cell(s.dequeue + 1, s.written[s.dequeue])
    ensures Solo(s, t, 4 + rest) ==
            Solo(AfterTake(s, t, goal, if goal.Deliver? then Idle else PushRetry(goal.frame)), t, rest)
  {
    hide Slot;
    var p, go := s.dequeue, Proceed(false);
    var s1 := Goto(s, t, PopSaw(goal, p, p + 1));
    var s2 := Goto(s, t, PopWon(goal, p)).(dequeue := p + 1);
    var s3 := Goto(s, t, PopCopied(goal, p, s.written[p])).(dequeue := p + 1);
    var s4 := AfterTake(s, t, goal, if goal.Deliver? then Idle else PushRetry(goal.frame));
    assert Step(s, t, go) == s1;
    assert Step(s1, t, go) == s2;
    assert Step(s2, t, go) == s3;
    assert Step(s3, t, go) == s4;
    hide Step;
    assert Solo(s, t, 4 + rest) == Solo(s1, t, 3 + rest);
    assert Solo(s1, t, 3 + rest) == Solo(s2, t, 2 + rest);
    assert Solo(s2, t, 2 + rest) == Solo(s3, t, 1 + rest);
  }

  lemma SoloStores<F>(s: State<F>, t: nat, frame: F, rest: nat)
    requires |s.cells| > 0 && t < |s.threads| && s.threads[t] == PushAt(frame, s.enqueue)
    requires s.cells[Slot(s.enqueue, |s.cells|)].sequence == s.enqueue
    ensures Solo(s, t, 4 + rest) == Solo(AfterStore(s, t, frame), t, rest)
  {
    hide Slot;
    var p, go := s.enqueue, Proceed(false);
    var i := Slot(p, |s.cells|);
    var s1 := Goto(s, t, PushSaw(frame, p, p));
    var s2 := Goto(s, t, PushWon(frame, p)).(enqueue := p + 1, written := s.written + [frame]);
    var s3 := Goto(s2, t, PushCopied(frame, p)).(cells := s.cells[i := Cell(p, frame)]);
    var s4 := AfterStore(s, t, frame);
    assert Step(s, t, go) == s1;
    assert Step(s1, t, go) == s2;
    assert Step(s2, t, go) == s3;
    assert Step(s3, t, go) == s4;
    hide Step;
    assert Solo(s, t, 4 + rest) == Solo(s1, t, 3 + rest);
    assert Solo(s1, t, 3 + rest) == Solo(s2, t, 2 + rest);
    assert Solo(s2, t, 2 + rest) == Solo(s3, t, 1 + rest);
  }

  /** Alone, a pop delivers the oldest frame, in four steps, exactly when there is one; else it returns after two. */
  lemma SoloPop<F>(s: State<F>, t: nat, steps: nat)
    requires AtRest(s) && t < |s.threads|
    requires steps == if s.dequeue < s.enqueue then 4 else 2
    ensures var s' := Solo(Step(s, t, StartPop), t, steps);
            && s'.threads == s.threads && s'.enqueue == s.enqueue && s'.written == s.written
            && s'.dequeue == (if s.dequeue < s.enqueue then s.dequeue + 1 else s.dequeue)
            && s'.taken == s.taken + if s.dequeue < s.enqueue then [Taken(s.dequeue, s.written[s.dequeue], true)] else []
  {
    var s1 := Goto(s, t, PopAt(Deliver, s.dequeue));
    assert s.threads[t].Idle?;
    assert Step(s, t, StartPop) == s1;
    if s.dequeue < s.enqueue {
      StoredAtRest(s);
      SoloTakes(s1, t, Deliver, steps - 4);
    } else {
      FreeCell(s, s.dequeue);
      var s2 := Goto(s, t, PopSaw(Deliver, s.dequeue, s.dequeue));
      assert Step(s1, t, Proceed(false)) == s2;
      assert Solo(s1, t, steps) == Solo(s2, t, steps - 1);
      assert Step(s2, t, Proceed(false)) == s;
      assert Solo(s2, t, steps - 1) == Solo(s, t, steps - 2) == s;
    }
  }

  /**
    Alone, a push stores its frame, in four steps while there is room; in a full ring it first drops the oldest
    frame, and nothing else, in eleven.
   */
  lemma SoloPush<F>(s: State<F>, t: nat, frame: F, steps: nat)
    requires AtRest(s) && t < |s.threads|
    requires steps == if s.enqueue < s.dequeue + |s.cells| then 4 else 11
    ensures var s' := Solo(Step(s, t, StartPush(frame)), t, steps);
            var full := s.enqueue == s.dequeue + |s.cells|;
            && s'.threads == s.threads && s'.enqueue == s.enqueue + 1 && s'.written == s.written + [frame]
            && s'.dequeue == (if full then s.dequeue + 1 else s.dequeue)
            && s'.taken == s.taken + if full then [Taken(s.dequeue, s.written[s.dequeue], false)] else []
  {
    var s1 := Goto(s, t, PushAt(frame, s.enqueue));
    assert s.threads[t].Idle?;
    assert Step(s, t, StartPush(frame)) == s1;
    if s.enqueue < s.dequeue + |s.cells| {
      FreeCell(s, s.enqueue);
      SoloStores(s1, t, frame, steps - 4);
    } else {
      SoloDrops(s, t, frame, steps - 11);
    }
  }

  /** In a full ring a push alone comes to make room. */
  lemma SoloFindsFull<F>(s: State<F>, t: nat, frame: F, rest: nat)
    requires AtRest(s) && t < |s.threads| && s.enqueue == s.dequeue + |s.cells|
    ensures Solo(Goto(s, t, PushAt(frame, s.enqueue)), t, 2 + rest) == Solo(Goto(s, t, PopAt(MakeRoom(frame), s.dequeue)), t, rest)
  {
    var d, go := s.dequeue, Proceed(false);
    StoredAtRest(s);
    SlotWrap(d, |s.cells|);
    hide Inv, Risen, Slot;
    var s1 := Goto(s, t, PushAt(frame, s.enqueue));
    var s2 := Goto(s, t, PushSaw(frame, s.enqueue, d + 1));
    var s3 := Goto(s, t, PopAt(MakeRoom(frame), d));
    assert Step(s1, t, go) == s2;
    assert Step(s2, t, go) == s3;
    assert Solo(s1, t, 2 + rest) == Solo(s2, t, 1 + rest);
    assert Solo(s2, t, 1 + rest) == Solo(s3, t, rest);
  }

  lemma SoloRetries<F>(s: State<F>, t: nat, frame: F, rest: nat)
    requires |s.cells| > 0 && t < |s.threads| && s.threads[t] == PushRetry(frame)
    requires s.cells[Slot(s.enqueue, |s.cells|)].sequence == s.enqueue
    ensures Solo(s, t, 5 + rest) == Solo(AfterStore(s, t, frame), t, rest)
  {
    hide Slot;
    var s1 := Goto(s, t, PushAt(frame, s.enqueue));
    assert Step(s, t, Proceed(false)) == s1;
    assert AfterStore(s1, t, frame) == AfterStore(s, t, frame);
    hide Step;
    assert Solo(s, t, 5 + rest) == Solo(s1, t, 4 + rest);
    SoloStores(s1, t, frame, rest);
  }

  lemma SoloDrops<F>(s: State<F>, t: nat, frame: F, rest: nat)
    requires AtRest(s) && t < |s.threads| && s.enqueue == s.dequeue + |s.cells|
    ensures var s3 := Goto(s, t, PopAt(MakeRoom(frame), s.dequeue));
            Solo(Goto(s, t, PushAt(frame, s.enqueue)), t, 11 + rest) ==
            Solo(AfterStore(AfterTake(s3, t, MakeRoom(frame), PushRetry(frame)), t, frame), t, rest)
  {
    StoredAtRest(s);
    SlotWrap(s.dequeue, |s.cells|);
    SoloFindsFull(s, t, frame, 9 + rest);
    hide Inv, Risen, Slot, Step;
    var s3 := Goto(s, t, PopAt(MakeRoom(frame), s.dequeue));
    SoloTakes(s3, t, MakeRoom(frame), 5 + rest);
    SoloRetries(AfterTake(s3, t, MakeRoom(frame), PushRetry(frame)), t, frame, rest);
  }
}
