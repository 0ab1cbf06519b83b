/**
  The bounded playout queue of the PCM bridge, under every interleaving of any
  number of threads that push (dropping the oldest frame when the queue is full)
  or pop. Every atomic load, store and compare-and-swap is one step.

  Positions are unbounded here; `PositionsStaySmall` bounds every number the
  queue stores, so a 64-bit counter behaves the same until 2^63 pushes.
 */
module PlayoutRing {
  import Arithmetic

  datatype Cell<F> = Cell(sequence: nat, frame: F)

  /** Why a pop runs: for a consumer, or to make room for the frame of a push. */
  datatype Goal<F> = Deliver | MakeRoom(frame: F)

  /** Where a thread stands, with the local variables that are live there. */
  datatype Thread<F> =
    | Idle
    | PushRetry(frame: F)
    | PushAt(frame: F, position: nat)
    | PushSaw(frame: F, position: nat, sequence: nat)
    | PushWon(frame: F, position: nat)
    | PushCopied(frame: F, position: nat)
    | PopAt(goal: Goal<F>, position: nat)
    | PopSaw(goal: Goal<F>, position: nat, sequence: nat)
    | PopWon(goal: Goal<F>, position: nat)
    | PopCopied(goal: Goal<F>, position: nat, taken: F)

  /** A completed dequeue: its ticket, the frame, and whether a consumer received it. */
  datatype Taken<F> = Taken(ticket: nat, frame: F, delivered: bool)

  /** `written` and `taken` are history: the frame of every enqueue ticket, and every completed dequeue. */
  datatype State<F> = State(
    cells: seq<Cell<F>>,
    enqueue: nat,
    dequeue: nat,
    threads: seq<Thread<F>>,
    written: seq<F>,
    taken: seq<Taken<F>>)

  /** What the scheduler and the callers decide: what an idle thread starts, and whether a weak CAS fails spuriously. */
  datatype Choice<F> = StartPush(frame: F) | StartPop | Proceed(spuriousFailure: bool)

  function Slot(position: nat, capacity: nat): (i: nat)
    requires capacity > 0
    ensures i < capacity
  {
    position % capacity
  }

  /** A ring that is new or was reset: the sequence numbers begin again, the frames are whatever the cells held. */
  function Initial<F>(frames: seq<F>, threadCount: nat): State<F> {
    State(seq(|frames|, i requires 0 <= i < |frames| => Cell(i, frames[i])), 0, 0, seq(threadCount, _ => Idle), [], [])
  }

  function Goto<F>(s: State<F>, t: nat, thread: Thread<F>): State<F>
    requires t < |s.threads|
  {
    s.(threads := s.threads[t := thread])
  }

  /** One atomic step of thread `t`. */
  function Step<F>(s: State<F>, t: nat, choice: Choice<F>): (s': State<F>)
    requires |s.cells| > 0 && t < |s.threads|
    ensures |s'.cells| == |s.cells| && |s'.threads| == |s.threads|
  {
    match s.threads[t]
    case Idle =>
      (match choice
       case StartPush(frame) => Goto(s, t, PushAt(frame, s.enqueue))
       case StartPop => Goto(s, t, PopAt(Deliver, s.dequeue))
       case Proceed(_) => s)
    case PushRetry(frame) =>
      Goto(s, t, PushAt(frame, s.enqueue))
    case PushAt(frame, position) =>
      Goto(s, t, PushSaw(frame, position, s.cells[Slot(position, |s.cells|)].sequence))
    case PushSaw(frame, position, sequence) =>
      if sequence == position then
        if s.enqueue == position && !(choice.Proceed? && choice.spuriousFailure) then
          Goto(s, t, PushWon(frame, position)).(enqueue := position + 1, written := s.written + [frame])
        else
          Goto(s, t, PushAt(frame, s.enqueue))
      else if sequence < position then
        Goto(s, t, PopAt(MakeRoom(frame), s.dequeue))
      else
        Goto(s, t, PushAt(frame, s.enqueue))
    case PushWon(frame, position) =>
      var i := Slot(position, |s.cells|);
      Goto(s, t, PushCopied(frame, position)).(cells := s.cells[i := s.cells[i].(frame := frame)])
    case PushCopied(frame, position) =>
      var i := Slot(position, |s.cells|);
      Goto(s, t, Idle).(cells := s.cells[i := s.cells[i].(sequence := position + 1)])
    case PopAt(goal, position) =>
      Goto(s, t, PopSaw(goal, position, s.cells[Slot(position, |s.cells|)].sequence))
    case PopSaw(goal, position, sequence) =>
      if sequence == position + 1 then
        if s.dequeue == position && !(choice.Proceed? && choice.spuriousFailure) then
          Goto(s, t, PopWon(goal, position)).(dequeue := position + 1)
        else
          Goto(s, t, PopAt(goal, s.dequeue))
      else if sequence < position + 1 then
        Goto(s, t, if goal.Deliver? then Idle else PushAt(goal.frame, s.enqueue))
      else
        Goto(s, t, PopAt(goal, s.dequeue))
    case PopWon(goal, position) =>
      Goto(s, t, PopCopied(goal, position, s.cells[Slot(position, |s.cells|)].frame))
    case PopCopied(goal, position, frame) =>
      var i := Slot(position, |s.cells|);
      Goto(s, t, if goal.Deliver? then Idle else PushRetry(goal.frame)).(
        cells := s.cells[i := s.cells[i].(sequence := position + |s.cells|)],
        taken := s.taken + [Taken(position, frame, goal.Deliver?)])
  }

  datatype Move<F> = Move(thread: nat, choice: Choice<F>)

  function Run<F>(s: State<F>, schedule: seq<Move<F>>): (s': State<F>)
    requires |s.cells| > 0
    requires forall m :: m in schedule ==> m.thread < |s.threads|
    ensures |s'.cells| == |s.cells| && |s'.threads| == |s.threads|
    decreases |schedule|
  {
    if schedule == [] then s
    else Run(Step(s, schedule[0].thread, schedule[0].choice), schedule[1..])
  }

  // ---------------------------------------------------------------- invariant

  predicate Pushing<F>(thread: Thread<F>, position: nat) {
    (thread.PushWon? || thread.PushCopied?) && thread.position == position
  }

  predicate Popping<F>(thread: Thread<F>, position: nat) {
    (thread.PopWon? || thread.PopCopied?) && thread.position == position
  }

  /** The thread may touch the frame of the cell at this slot. */
  predicate Owns<F>(thread: Thread<F>, slot: nat, capacity: nat)
    requires capacity > 0
  {
    (thread.PushWon? || thread.PushCopied? || thread.PopWon? || thread.PopCopied?) &&
    Slot(thread.position, capacity) == slot
  }

  /** A cell is free for position `sequence`, or holds the frame of position `sequence - 1`. */
  ghost predicate CellOk<F>(s: State<F>, i: nat)
    requires i < |s.cells|
  {
    var q := s.cells[i].sequence;
    || (Slot(q, |s.cells|) == i && q < s.dequeue + |s.cells|)
    || (0 < q <= s.enqueue <= |s.written| && Slot(q - 1, |s.cells|) == i && s.cells[i].frame == s.written[q - 1])
  }

  ghost predicate ThreadOk<F>(s: State<F>, thread: Thread<F>)
    requires |s.cells| > 0
  {
    var N := |s.cells|;
    match thread
    case Idle => true
    case PushRetry(_) => true
    case PushAt(_, p) => p <= s.enqueue
    case PushSaw(_, p, q) => p <= s.enqueue && (p == q == s.enqueue ==> s.cells[Slot(p, N)].sequence == p)
    case PushWon(f, p) => s.dequeue <= p < s.enqueue <= |s.written| && s.cells[Slot(p, N)].sequence == p && s.written[p] == f
    case PushCopied(f, p) =>
      s.dequeue <= p < s.enqueue <= |s.written| && s.cells[Slot(p, N)] == Cell(p, f) && s.written[p] == f
    case PopAt(_, p) => p <= s.dequeue
    case PopSaw(_, p, q) => p <= s.dequeue && (p == s.dequeue && q == p + 1 ==> s.cells[Slot(p, N)].sequence == p + 1)
    case PopWon(_, p) => p < s.dequeue && s.cells[Slot(p, N)].sequence == p + 1
    case PopCopied(_, p, f) =>
      p < s.dequeue <= |s.written| && s.cells[Slot(p, N)].sequence == p + 1 && f == s.written[p]
  }

  ghost predicate Distinct<F>(s: State<F>) {
    && (forall t, u, p :: 0 <= t < u < |s.threads| && Pushing(s.threads[t], p) ==> !Pushing(s.threads[u], p))
    && (forall t, u, p :: 0 <= t < u < |s.threads| && Popping(s.threads[t], p) ==> !Popping(s.threads[u], p))
  }

  ghost predicate TakenOk<F>(s: State<F>) {
    && (forall j :: 0 <= j < |s.taken| ==>
          s.taken[j].ticket < s.dequeue <= |s.written| && s.taken[j].frame == s.written[s.taken[j].ticket])
    && (forall j, k :: 0 <= j < k < |s.taken| ==> s.taken[j].ticket != s.taken[k].ticket)
    && (forall j, t :: 0 <= j < |s.taken| && 0 <= t < |s.threads| ==> !Popping(s.threads[t], s.taken[j].ticket))
  }

  ghost predicate TakenOnce<F>(s: State<F>, n: nat) {
    || (exists t :: 0 <= t < |s.threads| && Popping(s.threads[t], n))
    || (exists j :: 0 <= j < |s.taken| && s.taken[j].ticket == n)
  }

  ghost predicate Stored<F>(s: State<F>, n: nat)
    requires |s.cells| > 0
  {
    || s.cells[Slot(n, |s.cells|)].sequence == n + 1
    || (exists t :: 0 <= t < |s.threads| && Pushing(s.threads[t], n))
  }

  /** No ticket is lost: below `dequeue` it was taken or is being taken, above it is stored or being stored. */
  ghost predicate Complete<F>(s: State<F>)
    requires |s.cells| > 0
  {
    && (forall n: nat :: n < s.dequeue ==> TakenOnce(s, n))
    && (forall n: nat :: s.dequeue <= n < s.enqueue ==> Stored(s, n))
  }

  ghost predicate Inv<F>(s: State<F>) {
    && |s.cells| >= 2
    && s.dequeue <= s.enqueue <= s.dequeue + |s.cells|
    && |s.written| == s.enqueue
    && (forall i :: 0 <= i < |s.cells| ==> CellOk(s, i))
    && (forall t :: 0 <= t < |s.threads| ==> ThreadOk(s, s.threads[t]))
    && Distinct(s)
    && TakenOk(s)
    && Complete(s)
  }

  // -------------------------------------------------------------------- slots

  lemma SlotNext(p: nat, N: nat)
    requires N >= 2
    ensures Slot(p + 1, N) != Slot(p, N)
  {
    Arithmetic.NextRemainder(p, N);
  }

  lemma SlotWrap(p: nat, N: nat)
    requires N > 0
    ensures Slot(p + N, N) == Slot(p, N)
  {
    Arithmetic.AddMultiple(p, 1, N);
  }

  lemma SlotDistinct(p: nat, q: nat, N: nat)
    requires N > 0 && p <= q < p + N && Slot(p, N) == Slot(q, N)
    ensures p == q
  {
    Arithmetic.SameRemainder(p, q, N);
  }

  // ------------------------------------------------------------------- steps

  /** Whatever frames its cells hold, a ring whose sequence numbers were reset satisfies the invariant. */
  lemma InitialInv<F>(frames: seq<F>, threadCount: nat)
    requires |frames| >= 2
    ensures Inv(Initial(frames, threadCount))
  {
    var s := Initial(frames, threadCount);
    forall i | 0 <= i < |s.cells| ensures CellOk(s, i) {
      Arithmetic.DivideUnique(i, 0, i, |frames|);
    }
  }

  /** A step that touches only the program counter of a thread holding no cell before or after. */
  lemma LocalStep<F>(s: State<F>, t: nat, thread: Thread<F>)
    requires Inv(s) && t < |s.threads| && ThreadOk(s, thread)
    requires !thread.PushWon? && !thread.PushCopied? && !thread.PopWon? && !thread.PopCopied?
    requires var u := s.threads[t]; !u.PushWon? && !u.PushCopied? && !u.PopWon? && !u.PopCopied?
    ensures Inv(Goto(s, t, thread))
  {
    var s' := Goto(s, t, thread);
    CompleteUnder(s, s');
    forall i | 0 <= i < |s'.cells| ensures CellOk(s', i) { assert CellOk(s, i); }
  }

  /** Completeness carries over when the counters, the cells' sequences and the owners are the same. */
  lemma CompleteUnder<F>(s: State<F>, s': State<F>)
    requires |s.cells| > 0 && Complete(s)
    requires |s'.cells| == |s.cells| && |s'.threads| == |s.threads|
    requires s'.enqueue == s.enqueue && s'.dequeue == s.dequeue && s'.taken == s.taken
    requires forall i :: 0 <= i < |s.cells| ==> s'.cells[i].sequence == s.cells[i].sequence
    requires forall t, p :: 0 <= t < |s.threads| ==> Pushing(s'.threads[t], p) == Pushing(s.threads[t], p)
    requires forall t, p :: 0 <= t < |s.threads| ==> Popping(s'.threads[t], p) == Popping(s.threads[t], p)
    ensures Complete(s')
  {
    forall n: nat | n < s.dequeue ensures TakenOnce(s', n) {
      assert TakenOnce(s, n);
    }
    forall n: nat | s.dequeue <= n < s.enqueue ensures Stored(s', n) {
      assert Stored(s, n);
    }
  }

  function PushWins<F>(s: State<F>, t: nat, frame: F): State<F>
    requires t < |s.threads|
  {
    Goto(s, t, PushWon(frame, s.enqueue)).(enqueue := s.enqueue + 1, written := s.written + [frame])
  }

  lemma WinPushKeepsThreads<F>(s: State<F>, t: nat, frame: F)
    requires Inv(s) && t < |s.threads| && s.threads[t] == PushSaw(frame, s.enqueue, s.enqueue)
    requires s.enqueue < s.dequeue + |s.cells|
    ensures var s' := PushWins(s, t, frame);
            forall u :: 0 <= u < |s.threads| ==> ThreadOk(s', s'.threads[u])
  {
    var s' := PushWins(s, t, frame);
    assert ThreadOk(s, s.threads[t]);
    forall u | 0 <= u < |s.threads| ensures ThreadOk(s', s'.threads[u]) { assert ThreadOk(s, s.threads[u]); }
  }

  lemma WinPushKeepsTickets<F>(s: State<F>, t: nat, frame: F)
    requires Inv(s) && t < |s.threads| && s.threads[t] == PushSaw(frame, s.enqueue, s.enqueue)
    ensures Complete(PushWins(s, t, frame))
  {
    var p, s' := s.enqueue, PushWins(s, t, frame);
    forall n: nat | n < s'.dequeue ensures TakenOnce(s', n) {
      assert TakenOnce(s, n);
      if u :| 0 <= u < |s.threads| && Popping(s.threads[u], n) { assert Popping(s'.threads[u], n); }
    }
    forall n: nat | s'.dequeue <= n < s'.enqueue ensures Stored(s', n) {
      if n == p {
        assert Pushing(s'.threads[t], n);
      } else {
        assert Stored(s, n);
        if u :| 0 <= u < |s.threads| && Pushing(s.threads[u], n) { assert Pushing(s'.threads[u], n); }
      }
    }
  }

  /** The winning compare-and-swap of a push. */
  lemma WinPush<F>(s: State<F>, t: nat, frame: F)
    requires Inv(s) && t < |s.threads|
    requires s.threads[t] == PushSaw(frame, s.enqueue, s.enqueue)
    ensures Inv(PushWins(s, t, frame))
  {
    var p := s.enqueue;
    var N := |s.cells|;
    var s' := PushWins(s, t, frame);
    assert ThreadOk(s, s.threads[t]);
    assert CellOk(s, Slot(p, N)) by { }
    assert p < s.dequeue + N by {
      if p > 0 { SlotNext(p - 1, N); }
    }
    WinPushKeepsThreads(s, t, frame);
    WinPushKeepsTickets(s, t, frame);
    assert Distinct(s') by {
      forall u | 0 <= u < |s.threads| ensures !Pushing(s.threads[u], p) { assert ThreadOk(s, s.threads[u]); }
    }
    forall i | 0 <= i < N ensures CellOk(s', i) { assert CellOk(s, i); }
    hide ThreadOk, Complete, Distinct, CellOk;
  }

  /** The winner of position `p` copies its frame into the cell. */
  lemma CopyIn<F>(s: State<F>, t: nat, frame: F, p: nat)
    requires Inv(s) && t < |s.threads| && s.threads[t] == PushWon(frame, p)
    ensures var i := Slot(p, |s.cells|);
            Inv(Goto(s, t, PushCopied(frame, p)).(cells := s.cells[i := s.cells[i].(frame := frame)]))
  {
    var N := |s.cells|;
    var i := Slot(p, N);
    var s' := Goto(s, t, PushCopied(frame, p)).(cells := s.cells[i := s.cells[i].(frame := frame)]);
    assert ThreadOk(s, s.threads[t]);
    forall j | 0 <= j < N ensures CellOk(s', j) { assert CellOk(s, j); }
    forall u | 0 <= u < |s.threads| ensures ThreadOk(s', s'.threads[u]) {
      assert ThreadOk(s, s.threads[u]);
      if u != t && s.threads[u].PushCopied? {
        assert Pushing(s.threads[t], p) && Pushing(s.threads[u], s.threads[u].position);
      }
    }
    CompleteUnder(s, s');
  }

  function Published<F>(s: State<F>, t: nat, p: nat): State<F>
    requires |s.cells| > 0 && t < |s.threads|
  {
    var i := Slot(p, |s.cells|);
    Goto(s, t, Idle).(cells := s.cells[i := s.cells[i].(sequence := p + 1)])
  }

  lemma PublishKeepsThreads<F>(s: State<F>, t: nat, frame: F, p: nat)
    requires Inv(s) && t < |s.threads| && s.threads[t] == PushCopied(frame, p)
    ensures forall u :: 0 <= u < |s.threads| ==> ThreadOk(Published(s, t, p), Published(s, t, p).threads[u])
  {
    var N := |s.cells|;
    var s' := Published(s, t, p);
    assert ThreadOk(s, s.threads[t]) && Pushing(s.threads[t], p);
    forall u | 0 <= u < |s.threads| ensures ThreadOk(s', s'.threads[u]) {
      assert ThreadOk(s, s.threads[u]);
      if u != t && (s.threads[u].PushWon? || s.threads[u].PushCopied?) {
        assert Pushing(s.threads[u], s.threads[u].position);
      }
      if s.threads[u].PopWon? || s.threads[u].PopCopied? || s.threads[u].PopSaw? {
        SlotNext(s.threads[u].position, N);
      }
    }
  }

  lemma PublishKeepsTickets<F>(s: State<F>, t: nat, frame: F, p: nat)
    requires Inv(s) && t < |s.threads| && s.threads[t] == PushCopied(frame, p)
    ensures Complete(Published(s, t, p))
  {
    var N := |s.cells|;
    var s' := Published(s, t, p);
    assert ThreadOk(s, s.threads[t]);
    forall n: nat | n < s.dequeue ensures TakenOnce(s', n) {
      assert TakenOnce(s, n);
      if u :| 0 <= u < |s.threads| && Popping(s.threads[u], n) { assert Popping(s'.threads[u], n); }
    }
    forall n: nat | s.dequeue <= n < s.enqueue ensures Stored(s', n) {
      assert Stored(s, n);
      if n != p {
        if Slot(n, N) == Slot(p, N) { SlotDistinct(if n < p then n else p, if n < p then p else n, N); }
        if u :| 0 <= u < |s.threads| && Pushing(s.threads[u], n) { assert Pushing(s'.threads[u], n); }
      }
    }
  }

  /** The store that publishes the frame of position `p`. */
  lemma Publish<F>(s: State<F>, t: nat, frame: F, p: nat)
    requires Inv(s) && t < |s.threads| && s.threads[t] == PushCopied(frame, p)
    ensures Inv(Published(s, t, p))
  {
    var s' := Published(s, t, p);
    assert ThreadOk(s, s.threads[t]);
    SlotNext(p, |s.cells|);
    PublishKeepsThreads(s, t, frame, p);
    PublishKeepsTickets(s, t, frame, p);
    forall j | 0 <= j < |s.cells| ensures CellOk(s', j) { assert CellOk(s, j); }
  }

  /** The winning compare-and-swap of a pop. */
  lemma WinPop<F>(s: State<F>, t: nat, goal: Goal<F>)
    requires Inv(s) && t < |s.threads|
    requires s.threads[t] == PopSaw(goal, s.dequeue, s.dequeue + 1)
    ensures Inv(Goto(s, t, PopWon(goal, s.dequeue)).(dequeue := s.dequeue + 1))
  {
    var p := s.dequeue;
    var N := |s.cells|;
    var s' := Goto(s, t, PopWon(goal, p)).(dequeue := p + 1);
    assert ThreadOk(s, s.threads[t]);
    SlotNext(p, N);
    assert CellOk(s, Slot(p, N));
    forall i | 0 <= i < N ensures CellOk(s', i) { assert CellOk(s, i); }
    forall u | 0 <= u < |s.threads| ensures ThreadOk(s', s'.threads[u]) { assert ThreadOk(s, s.threads[u]); }
    forall n: nat | n < s'.dequeue ensures TakenOnce(s', n) {
      if n == p {
        assert Popping(s'.threads[t], n);
      } else {
        assert TakenOnce(s, n);
        if u :| 0 <= u < |s.threads| && Popping(s.threads[u], n) { assert Popping(s'.threads[u], n); }
      }
    }
    forall n: nat | s'.dequeue <= n < s'.enqueue ensures Stored(s', n) {
      assert Stored(s, n);
      if u :| 0 <= u < |s.threads| && Pushing(s.threads[u], n) { assert Pushing(s'.threads[u], n); }
    }
  }

  /** The winner of ticket `p` copies the frame out of the cell. */
  lemma CopyOut<F>(s: State<F>, t: nat, goal: Goal<F>, p: nat)
    requires Inv(s) && t < |s.threads| && s.threads[t] == PopWon(goal, p)
    ensures Inv(Goto(s, t, PopCopied(goal, p, s.cells[Slot(p, |s.cells|)].frame)))
  {
    var N := |s.cells|;
    var s' := Goto(s, t, PopCopied(goal, p, s.cells[Slot(p, N)].frame));
    assert ThreadOk(s, s.threads[t]);
    SlotNext(p, N);
    assert CellOk(s, Slot(p, N));
    CompleteUnder(s, s');
    forall i | 0 <= i < N ensures CellOk(s', i) { assert CellOk(s, i); }
  }

  function Released<F>(s: State<F>, t: nat, goal: Goal<F>, p: nat, frame: F): State<F>
    requires |s.cells| > 0 && t < |s.threads|
  {
    var i := Slot(p, |s.cells|);
    Goto(s, t, if goal.Deliver? then Idle else PushRetry(goal.frame)).(
      cells := s.cells[i := s.cells[i].(sequence := p + |s.cells|)],
      taken := s.taken + [Taken(p, frame, goal.Deliver?)])
  }

  lemma ReleaseKeepsThreads<F>(s: State<F>, t: nat, goal: Goal<F>, p: nat, frame: F)
    requires Inv(s) && t < |s.threads| && s.threads[t] == PopCopied(goal, p, frame)
    ensures var s' := Released(s, t, goal, p, frame);
            forall u :: 0 <= u < |s.threads| ==> ThreadOk(s', s'.threads[u])
  {
    var s' := Released(s, t, goal, p, frame);
    assert ThreadOk(s, s.threads[t]) && Popping(s.threads[t], p);
    SlotNext(p, |s.cells|);
    forall u | 0 <= u < |s.threads| ensures ThreadOk(s', s'.threads[u]) {
      assert ThreadOk(s, s.threads[u]);
      if u != t && (s.threads[u].PopWon? || s.threads[u].PopCopied?) {
        assert Popping(s.threads[u], s.threads[u].position);
      }
    }
  }

  lemma ReleaseKeepsTickets<F>(s: State<F>, t: nat, goal: Goal<F>, p: nat, frame: F)
    requires Inv(s) && t < |s.threads| && s.threads[t] == PopCopied(goal, p, frame)
    ensures Complete(Released(s, t, goal, p, frame))
  {
    var s' := Released(s, t, goal, p, frame);
    assert ThreadOk(s, s.threads[t]);
    forall n: nat | n < s.dequeue ensures TakenOnce(s', n) {
      if n == p {
        assert s'.taken[|s.taken|].ticket == n;
      } else {
        assert TakenOnce(s, n);
        if u :| 0 <= u < |s.threads| && Popping(s.threads[u], n) { assert Popping(s'.threads[u], n); }
        if j :| 0 <= j < |s.taken| && s.taken[j].ticket == n { assert s'.taken[j].ticket == n; }
      }
    }
    forall n: nat | s.dequeue <= n < s.enqueue ensures Stored(s', n) {
      assert Stored(s, n);
      if u :| 0 <= u < |s.threads| && Pushing(s.threads[u], n) { assert Pushing(s'.threads[u], n); }
    }
  }

  lemma ReleaseKeepsTaken<F>(s: State<F>, t: nat, goal: Goal<F>, p: nat, frame: F)
    requires Inv(s) && t < |s.threads| && s.threads[t] == PopCopied(goal, p, frame)
    ensures TakenOk(Released(s, t, goal, p, frame))
  {
    var s' := Released(s, t, goal, p, frame);
    assert ThreadOk(s, s.threads[t]) && Popping(s.threads[t], p);
    forall u | 0 <= u < |s.threads| && u != t ensures !Popping(s'.threads[u], p) {
      assert s'.threads[u] == s.threads[u];
    }
  }

  /** The store that frees the cell of ticket `p` for the position one lap later. */
  lemma Release<F>(s: State<F>, t: nat, goal: Goal<F>, p: nat, frame: F)
    requires Inv(s) && t < |s.threads| && s.threads[t] == PopCopied(goal, p, frame)
    ensures Inv(Released(s, t, goal, p, frame))
  {
    var s' := Released(s, t, goal, p, frame);
    assert ThreadOk(s, s.threads[t]) && Popping(s.threads[t], p);
    SlotWrap(p, |s.cells|);
    ReleaseKeepsThreads(s, t, goal, p, frame);
    ReleaseKeepsTickets(s, t, goal, p, frame);
    ReleaseKeepsTaken(s, t, goal, p, frame);
    hide ThreadOk, Complete, TakenOk, TakenOnce, Stored;
    forall j | 0 <= j < |s.cells| ensures CellOk(s', j) { assert CellOk(s, j); }
  }

  predicate Wins<F>(s: State<F>, thread: Thread<F>, choice: Choice<F>) {
    && !(choice.Proceed? && choice.spuriousFailure)
    && ((thread.PushSaw? && thread.sequence == thread.position == s.enqueue) ||
        (thread.PopSaw? && thread.position == s.dequeue && thread.sequence == thread.position + 1))
  }

  /** Loads, failed compare-and-swaps and local decisions change nothing but the thread's program counter. */
  lemma LocalMove<F>(s: State<F>, t: nat, choice: Choice<F>)
    requires Inv(s) && t < |s.threads| && !Wins(s, s.threads[t], choice)
    requires var u := s.threads[t]; !u.PushWon? && !u.PushCopied? && !u.PopWon? && !u.PopCopied?
    ensures var next := Step(s, t, choice).threads[t];
            && Step(s, t, choice) == Goto(s, t, next) && ThreadOk(s, next)
            && !next.PushWon? && !next.PushCopied? && !next.PopWon? && !next.PopCopied?
  {
    assert ThreadOk(s, s.threads[t]);
  }

  lemma StepInv<F>(s: State<F>, t: nat, choice: Choice<F>)
    requires Inv(s) && t < |s.threads|
    ensures Inv(Step(s, t, choice))
  {
    hide CellOk, ThreadOk, Distinct, TakenOk, Complete, Pushing, Popping, Slot;
    var thread := s.threads[t];
    if thread.PushWon? {
      CopyIn(s, t, thread.frame, thread.position);
    } else if thread.PushCopied? {
      Publish(s, t, thread.frame, thread.position);
    } else if thread.PopWon? {
      CopyOut(s, t, thread.goal, thread.position);
    } else if thread.PopCopied? {
      Release(s, t, thread.goal, thread.position, thread.taken);
    } else if !Wins(s, thread, choice) {
      LocalMove(s, t, choice);
      LocalStep(s, t, Step(s, t, choice).threads[t]);
    } else if thread.PushSaw? {
      WinPush(s, t, thread.frame);
    } else {
      WinPop(s, t, thread.goal);
    }
  }

  lemma {:induction false} RunInv<F>(s: State<F>, schedule: seq<Move<F>>)
    requires Inv(s)
    requires forall m :: m in schedule ==> m.thread < |s.threads|
    ensures Inv(Run(s, schedule))
    decreases |schedule|
  {
    if schedule != [] {
      StepInv(s, schedule[0].thread, schedule[0].choice);
      RunInv(Step(s, schedule[0].thread, schedule[0].choice), schedule[1..]);
    }
  }

  // ---------------------------------------------------------------- theorems

  /** A state some schedule leads to. */
  ghost predicate Reachable<F(!new)>(s: State<F>) {
    exists frames: seq<F>, threadCount: nat, schedule: seq<Move<F>> :: IsRun(frames, threadCount, schedule, s)
  }

  ghost predicate IsRun<F>(frames: seq<F>, threadCount: nat, schedule: seq<Move<F>>, s: State<F>) {
    && |frames| >= 2
    && (forall m :: m in schedule ==> m.thread < threadCount)
    && Run(Initial(frames, threadCount), schedule) == s
  }

  lemma ReachableInv<F(!new)>(s: State<F>)
    requires Reachable(s)
    ensures Inv(s)
  {
    var frames: seq<F>, threadCount: nat, schedule :| IsRun(frames, threadCount, schedule, s);
    InitialInv(frames, threadCount);
    RunInv(Initial(frames, threadCount), schedule);
  }

  /** First in, first out: the n-th dequeue ticket takes the frame of the n-th enqueue ticket, and only once. */
  lemma Fifo<F(!new)>(s: State<F>)
    requires Reachable(s)
    ensures forall j :: 0 <= j < |s.taken| ==>
              s.taken[j].ticket < s.dequeue <= |s.written| && s.taken[j].frame == s.written[s.taken[j].ticket]
    ensures forall j, k :: 0 <= j < |s.taken| && 0 <= k < |s.taken| && s.taken[j].ticket == s.taken[k].ticket ==> j == k
  {
    ReachableInv(s);
  }

  /** No frame is touched by two threads at once: a cell being written is neither read nor written by another thread. */
  lemma ExclusiveCells<F(!new)>(s: State<F>, t: nat, u: nat, i: nat)
    requires Reachable(s) && |s.cells| > 0 && t < |s.threads| && u < |s.threads|
    requires Owns(s.threads[t], i, |s.cells|) && Owns(s.threads[u], i, |s.cells|)
    ensures t == u
  {
    ReachableInv(s);
    assert ThreadOk(s, s.threads[t]) && ThreadOk(s, s.threads[u]);
    var p, q := s.threads[t].position, s.threads[u].position;
    SlotNext(p, |s.cells|);
    SlotNext(q, |s.cells|);
    assert Pushing(s.threads[t], p) || Popping(s.threads[t], p);
    assert Pushing(s.threads[u], q) || Popping(s.threads[u], q);
  }

  /**
    Nothing is lost or invented: every ticket handed out by a push is taken, being taken,
    stored in the cell of its slot with its own frame, or still being stored.
   */
  lemma NothingLost<F(!new)>(s: State<F>, n: nat)
    requires Reachable(s) && |s.cells| > 0 && n < |s.written|
    ensures n < s.dequeue ==>
              || (exists j :: 0 <= j < |s.taken| && s.taken[j] == Taken(n, s.written[n], s.taken[j].delivered))
              || (exists t :: 0 <= t < |s.threads| && Popping(s.threads[t], n))
    ensures n >= s.dequeue ==>
              || s.cells[Slot(n, |s.cells|)] == Cell(n + 1, s.written[n])
              || (exists t :: 0 <= t < |s.threads| && Pushing(s.threads[t], n) && s.threads[t].frame == s.written[n])
  {
    ReachableInv(s);
    if n < s.dequeue {
      assert TakenOnce(s, n);
    } else {
      assert Stored(s, n);
      if s.cells[Slot(n, |s.cells|)].sequence == n + 1 {
        assert CellOk(s, Slot(n, |s.cells|));
        SlotNext(n, |s.cells|);
      } else {
        var t :| 0 <= t < |s.threads| && Pushing(s.threads[t], n);
        assert ThreadOk(s, s.threads[t]);
      }
    }
  }

  /** The queue never holds more than its capacity, and no stored number exceeds `enqueue` by more than it. */
  lemma PositionsStaySmall<F(!new)>(s: State<F>)
    requires Reachable(s)
    ensures s.dequeue <= s.enqueue <= s.dequeue + |s.cells| && |s.written| == s.enqueue
    ensures forall i :: 0 <= i < |s.cells| ==> s.cells[i].sequence <= s.enqueue + |s.cells|
  {
    ReachableInv(s);
    forall i | 0 <= i < |s.cells| ensures s.cells[i].sequence <= s.enqueue + |s.cells| {
      assert CellOk(s, i);
    }
  }

  /** A push that runs alone: it starts, loads the sequence, wins, copies and publishes. */
  function PushAlone<F>(s: State<F>, t: nat, frame: F): State<F>
    requires |s.cells| > 0 && t < |s.threads|
  {
    var go := Proceed(false);
    Step(Step(Step(Step(Step(s, t, StartPush(frame)), t, go), t, go), t, go), t, go)
  }

  /** Why the capacity must be at least 2: with one cell, a second push overwrites the first frame before any pop. */
  lemma CapacityOneOverwrites<F>(first: F, second: F, blank: F)
    ensures PushAlone(PushAlone(Initial([blank], 1), 0, first), 0, second) ==
            State([Cell(2, second)], 2, 0, [Idle], [first, second], [])
  {
    var s0 := Initial([blank], 1);
    var s1 := PushAlone(s0, 0, first);
    assert s1 == State([Cell(1, first)], 1, 0, [Idle], [first], []);
    assert s1.written + [second] == [first, second];
  }
}
