/**
  The counter of dropped playout frames, under every interleaving. A push remembers whether it has dropped
  a frame to make room; once it is done it counts itself, in one atomic step, if it has.
 */
module PlayoutDrops {
  import FiniteSets
  import PlayoutCalls
  import opened PlayoutRing

  /**
    `dropped` is the local variable of each push. `repeated` is history: how often a push dropped a frame that
    had dropped one before.
   */
  datatype Whole<F> = Whole(ring: State<F>, dropped: seq<bool>, counter: nat, repeated: nat)

  function Start<F>(frames: seq<F>, threadCount: nat): Whole<F> {
    Whole(Initial(frames, threadCount), seq(threadCount, _ => false), 0, 0)
  }

  predicate WellFormed<F>(s: Whole<F>) {
    |s.ring.cells| > 0 && |s.dropped| == |s.ring.threads|
  }

  /** The thread is about to finish dropping a frame to make room for its own. */
  predicate Drops<F>(thread: Thread<F>) {
    thread.PopCopied? && thread.goal.MakeRoom?
  }

  /** One atomic step: the counting of a push that is done, or a step in the ring. */
  function NextStep<F>(s: Whole<F>, t: nat, choice: Choice<F>): (s': Whole<F>)
    requires WellFormed(s) && t < |s.ring.threads|
    ensures WellFormed(s') && |s'.ring.threads| == |s.ring.threads|
  {
    var thread := s.ring.threads[t];
    if thread.Idle? && s.dropped[t] then s.(dropped := s.dropped[t := false], counter := s.counter + 1)
    else if Drops(thread) then
      Whole(Step(s.ring, t, choice), s.dropped[t := true], s.counter, s.repeated + if s.dropped[t] then 1 else 0)
    else s.(ring := Step(s.ring, t, choice))
  }

  function RunAll<F>(s: Whole<F>, schedule: seq<Move<F>>): (s': Whole<F>)
    requires WellFormed(s)
    requires forall m :: m in schedule ==> m.thread < |s.ring.threads|
    decreases |schedule|
  {
    if schedule == [] then s
    else RunAll(NextStep(s, schedule[0].thread, schedule[0].choice), schedule[1..])
  }

  /** The frames that no consumer got. */
  function Discarded<F>(taken: seq<Taken<F>>): nat {
    if taken == [] then 0
    else Discarded(taken[..|taken| - 1]) + if taken[|taken| - 1].delivered then 0 else 1
  }

  /** The pushes that have dropped a frame and are not counted yet. */
  ghost function Uncounted(dropped: seq<bool>): set<nat> {
    set t: nat | t < |dropped| && dropped[t]
  }

  /** Every frame that was dropped is counted, about to be, or was dropped by a push that had dropped one before. */
  ghost predicate Balanced<F>(s: Whole<F>) {
    Discarded(s.ring.taken) == s.counter + |Uncounted(s.dropped)| + s.repeated
  }

  lemma UncountedUpdate(dropped: seq<bool>, t: nat, value: bool)
    requires t < |dropped|
    ensures |Uncounted(dropped[t := value])| + (if dropped[t] then 1 else 0) ==
            |Uncounted(dropped)| + (if value then 1 else 0)
  {
    var before, after := Uncounted(dropped), Uncounted(dropped[t := value]);
    assert before - {t} == after - {t};
    FiniteSets.AgreeExceptOne(before, after, t);
  }

  lemma OneMoreTaken<F>(taken: seq<Taken<F>>, one: Taken<F>)
    ensures Discarded(taken + [one]) == Discarded(taken) + if one.delivered then 0 else 1
  {
    assert (taken + [one])[..|taken|] == taken;
  }

  lemma StepTakes<F>(s: State<F>, t: nat, choice: Choice<F>)
    requires |s.cells| > 0 && t < |s.threads|
    ensures Discarded(Step(s, t, choice).taken) == Discarded(s.taken) + if Drops(s.threads[t]) then 1 else 0
  {
    hide Discarded;
    var thread := s.threads[t];
    if thread.PopCopied? {
      OneMoreTaken(s.taken, Taken(thread.position, thread.taken, thread.goal.Deliver?));
    }
  }

  lemma StepBalances<F>(s: Whole<F>, t: nat, choice: Choice<F>)
    requires WellFormed(s) && t < |s.ring.threads| && Balanced(s)
    ensures Balanced(NextStep(s, t, choice))
  {
    hide Discarded, Step;
    StepTakes(s.ring, t, choice);
    UncountedUpdate(s.dropped, t, true);
    UncountedUpdate(s.dropped, t, false);
  }

  lemma {:induction false} RunBalances<F>(s: Whole<F>, schedule: seq<Move<F>>)
    requires WellFormed(s) && Balanced(s)
    requires forall m :: m in schedule ==> m.thread < |s.ring.threads|
    ensures WellFormed(RunAll(s, schedule)) && Balanced(RunAll(s, schedule))
    decreases |schedule|
  {
    hide Balanced, NextStep;
    if schedule != [] {
      StepBalances(s, schedule[0].thread, schedule[0].choice);
      RunBalances(NextStep(s, schedule[0].thread, schedule[0].choice), schedule[1..]);
    }
  }

  /**
    Over every schedule the counter never exceeds the number of frames the pushes dropped. What it lacks is one
    for each push that has dropped and not counted itself yet, and one for each frame that a push dropped after
    its first: it is exact when no push is under way exactly if no push ever dropped twice.
   */
  lemma CounterIsBounded<F>(frames: seq<F>, threadCount: nat, schedule: seq<Move<F>>)
    requires |frames| > 0 && forall m :: m in schedule ==> m.thread < threadCount
    ensures var s := RunAll(Start(frames, threadCount), schedule);
            && s.counter <= Discarded(s.ring.taken)
            && Discarded(s.ring.taken) == s.counter + |Uncounted(s.dropped)| + s.repeated
            && ((forall t :: 0 <= t < |s.dropped| ==> !s.dropped[t]) ==>
                  (s.counter == Discarded(s.ring.taken) <==> s.repeated == 0))
  {
    var start := Start(frames, threadCount);
    assert Uncounted(start.dropped) == {};
    RunBalances(start, schedule);
    var s := RunAll(start, schedule);
    if forall t :: 0 <= t < |s.dropped| ==> !s.dropped[t] {
      assert Uncounted(s.dropped) == {};
    }
  }

  // ------------------------------------------------------- an undisturbed push

  /** A thread that runs alone for some steps, counting included. */
  function SoloAll<F>(s: Whole<F>, t: nat, steps: nat): (s': Whole<F>)
    requires WellFormed(s) && t < |s.ring.threads|
    ensures WellFormed(s') && |s'.ring.threads| == |s.ring.threads|
    decreases steps
  {
    if steps == 0 then s else SoloAll(NextStep(s, t, Proceed(false)), t, steps - 1)
  }

  /** Counting does not disturb the ring; a drop of one's own is pending or counted; and drops beyond that are repeated. */
  lemma {:induction false} SoloCounts<F>(s: Whole<F>, t: nat, steps: nat)
    requires WellFormed(s) && t < |s.ring.threads| && Balanced(s)
    ensures var s' := SoloAll(s, t, steps);
            && s'.ring == PlayoutCalls.Solo(s.ring, t, steps) && Balanced(s')
            && (forall u :: 0 <= u < |s.dropped| && u != t ==> s'.dropped[u] == s.dropped[u])
            && Pending(s', t) >= Pending(s, t) && s'.repeated >= s.repeated
            && (s'.repeated > s.repeated ==> s'.dropped[t] || s'.counter > s.counter)
            && (s.dropped[t] ==> s'.dropped[t] || s'.counter > s.counter)
            && s'.counter >= s.counter
    decreases steps
  {
    hide Balanced, Step;
    if steps > 0 {
      StepBalances(s, t, Proceed(false));
      if s.ring.threads[t].Idle? {
        IdleStays(s.ring, t);
      }
      SoloCounts(NextStep(s, t, Proceed(false)), t, steps - 1);
    }
  }

  lemma IdleStays<F>(ring: State<F>, t: nat)
    requires |ring.cells| > 0 && t < |ring.threads| && ring.threads[t].Idle?
    ensures Step(ring, t, Proceed(false)) == ring
  {
  }

  /** What a thread has counted or is about to. */
  function Pending<F>(s: Whole<F>, t: nat): nat
    requires t < |s.dropped|
  {
    s.counter + if s.dropped[t] then 1 else 0
  }

  /** One more step after an undisturbed push, it is counted exactly if it found the ring full. */
  lemma SoloPushCounts<F>(s: Whole<F>, t: nat, frame: F, steps: nat)
    requires WellFormed(s) && Balanced(s) && PlayoutCalls.AtRest(s.ring) && t < |s.ring.threads| && !s.dropped[t]
    requires steps == if s.ring.enqueue < s.ring.dequeue + |s.ring.cells| then 4 else 11
    ensures var s' := NextStep(SoloAll(NextStep(s, t, StartPush(frame)), t, steps), t, Proceed(false));
            && s'.ring.written == s.ring.written + [frame] && s'.dropped == s.dropped
            && s'.counter == s.counter + if s.ring.enqueue == s.ring.dequeue + |s.ring.cells| then 1 else 0
  {
    hide Balanced, Discarded, Uncounted, Step, NextStep, SoloAll, PlayoutCalls.Solo, PlayoutCalls.AtRest;
    var start := NextStep(s, t, StartPush(frame));
    var done := SoloAll(start, t, steps);
    RestIsIdle(s.ring, t);
    PlayoutCalls.SoloPush(s.ring, t, frame, steps);
    BeginsPush(s, t, frame);
    StepBalances(s, t, StartPush(frame));
    SoloCounts(start, t, steps);
    var full := s.ring.enqueue == s.ring.dequeue + |s.ring.cells|;
    if full {
      OneMoreTaken(s.ring.taken, done.ring.taken[|s.ring.taken|]);
    } else {
      assert done.ring.taken == s.ring.taken;
    }
    CountedOnce(s, done, t, if full then 1 else 0);
    CountsItself(done, t);
  }

  lemma RestIsIdle<F>(ring: State<F>, t: nat)
    requires PlayoutCalls.AtRest(ring) && t < |ring.threads|
    ensures |ring.cells| > 0 && |ring.written| == ring.enqueue
    ensures ring.threads[t].Idle?
  {
  }

  lemma BeginsPush<F>(s: Whole<F>, t: nat, frame: F)
    requires WellFormed(s) && t < |s.ring.threads| && s.ring.threads[t].Idle? && !s.dropped[t]
    ensures NextStep(s, t, StartPush(frame)) == s.(ring := Step(s.ring, t, StartPush(frame)))
  {
  }

  lemma CountsItself<F>(s: Whole<F>, t: nat)
    requires WellFormed(s) && t < |s.ring.threads| && s.ring.threads[t].Idle?
    ensures NextStep(s, t, Proceed(false)) == s.(dropped := s.dropped[t := false], counter := Pending(s, t))
  {
    IdleStays(s.ring, t);
  }

  lemma CountedOnce<F>(s: Whole<F>, done: Whole<F>, t: nat, discarded: nat)
    requires t < |s.dropped| == |done.dropped| && Balanced(s) && Balanced(done) && !s.dropped[t] && discarded <= 1
    requires Discarded(done.ring.taken) == Discarded(s.ring.taken) + discarded
    requires forall u :: 0 <= u < |s.dropped| && u != t ==> done.dropped[u] == s.dropped[u]
    requires Pending(done, t) >= Pending(s, t) && done.repeated >= s.repeated
    requires done.repeated > s.repeated ==> done.dropped[t] || done.counter > s.counter
    requires done.counter >= s.counter
    ensures Pending(done, t) == s.counter + discarded && done.dropped[t := false] == s.dropped
  {
    hide Discarded, Uncounted;
    UncountedUpdate(s.dropped, t, done.dropped[t]);
    assert done.dropped == s.dropped[t := done.dropped[t]];
  }
}
