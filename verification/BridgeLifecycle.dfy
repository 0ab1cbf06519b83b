/**
  Admission to the PCM bridge under every interleaving: the callback word (a stop bit
  and a 31-bit count), the lifecycle word (a destroying bit and a count), and the
  Stop, Drain, Join and Destroy operations that rely on them. Every atomic access and
  every lock or unlock of the lifecycle mutex is one step.
 */
module BridgeLifecycle {
  import FiniteSets

  type Word = w: nat | w < 0x1_0000_0000

  /** Bit 31: `kStoppingBit` in the callback word, `kDestroyingBit` in the lifecycle word. */
  const FLAG: Word := 0x8000_0000
  const COUNT_MASK: Word := 0x7fff_ffff

  predicate Flagged(w: Word) {
    w >= FLAG
  }

  /** The low 31 bits. */
  function Count(w: Word): nat {
    if w >= FLAG then w - FLAG else w
  }

  function Increment(w: Word): Word {
    if w == 0xffff_ffff then 0 else w + 1
  }

  function Decrement(w: Word): Word {
    if w == 0 then 0xffff_ffff else w - 1
  }

  function SetFlag(w: Word): Word {
    if w >= FLAG then w else w + FLAG
  }

  datatype Op = Stop | Drain | Join | Destroy

  datatype Thread =
    | Idle
    | CallbackLoaded(word: Word)
    | InCallback
    | OpLoaded(op: Op, word: Word)
    | OpEntered(op: Op)
    | OpLocked(op: Op)
    | CheckDrained
    | AwaitQuiet(op: Op)
    | Resetting
    | SetJoined
    | DestroyLoaded(word: Word)
    | SetDestroying
    | Unlocking(op: Op, result: bool)
    | Leaving(op: Op, result: bool)
    | AwaitOperations
    | AwaitCallbacks
    | Returned(op: Op, result: bool)

  datatype Option<T> = None | Some(value: T)

  /** What the threads share. `destroyed` is history: how many times Destroy returned true. */
  datatype Shared = Shared(
    callbacks: Word,
    lifecycle: Word,
    mutex: Option<nat>,
    drained: bool,
    joined: bool,
    destroyed: nat)

  datatype State = State(shared: Shared, threads: seq<Thread>)

  datatype Choice = BeginCallback | Begin(op: Op) | Proceed(spuriousFailure: bool)

  function Initial(threadCount: nat): State {
    State(Shared(0, 0, None, false, false, 0), seq(threadCount, _ => Idle))
  }

  predicate HoldsMutex(thread: Thread) {
    thread.OpLocked? || thread.CheckDrained? || thread.AwaitQuiet? || thread.Resetting? || thread.SetJoined? ||
    thread.DestroyLoaded? || thread.SetDestroying? || thread.Unlocking?
  }

  /** TryEnterCallback, the callback itself, LeaveCallback. */
  function CallbackStep(g: Shared, thread: Thread, spuriousFailure: bool): (Shared, Thread)
    requires thread.CallbackLoaded? || thread.InCallback?
  {
    match thread
    case CallbackLoaded(word) =>
      if Flagged(word) || Count(word) == COUNT_MASK then (g, Idle)
      else if g.callbacks == word && !spuriousFailure then (g.(callbacks := Increment(word)), InCallback)
      else (g, CallbackLoaded(g.callbacks))
    case InCallback => (g.(callbacks := Decrement(g.callbacks)), Idle)
  }

  /** TryEnterLifecycleOperation, then the lock, by thread `t`. */
  function EntryStep(g: Shared, t: nat, thread: Thread, spuriousFailure: bool): (Shared, Thread)
    requires thread.OpLoaded? || thread.OpEntered?
  {
    match thread
    case OpLoaded(op, word) =>
      if Flagged(word) || Count(word) == COUNT_MASK then (g, Returned(op, false))
      else if g.lifecycle == word && !spuriousFailure then (g.(lifecycle := Increment(word)), OpEntered(op))
      else (g, OpLoaded(op, g.lifecycle))
    case OpEntered(op) =>
      if g.mutex == None then (g.(mutex := Some(t)), OpLocked(op)) else (g, thread)
  }

  /** The bodies of Stop, Drain, Join and Destroy, under the lock. */
  function LockedStep(g: Shared, thread: Thread): (Shared, Thread)
    requires HoldsMutex(thread)
  {
    match thread
    case OpLocked(Stop) => (g.(callbacks := SetFlag(g.callbacks)), Unlocking(Stop, true))
    case OpLocked(Drain) => (g, if Flagged(g.callbacks) then AwaitQuiet(Drain) else Unlocking(Drain, false))
    case OpLocked(Join) => (g, if Flagged(g.callbacks) then CheckDrained else Unlocking(Join, false))
    case OpLocked(Destroy) => (g, DestroyLoaded(g.lifecycle))
    case CheckDrained => (g, if g.drained then AwaitQuiet(Join) else Unlocking(Join, false))
    case AwaitQuiet(op) =>
      (g, if Count(g.callbacks) != 0 then thread else if op == Drain then Resetting else SetJoined)
    case Resetting => (g.(drained := true), Unlocking(Drain, true))
    case SetJoined => (g.(joined := true), Unlocking(Join, true))
    case DestroyLoaded(word) =>
      (g, if g.joined && !Flagged(word) then SetDestroying else Unlocking(Destroy, false))
    case SetDestroying => (g.(lifecycle := SetFlag(g.lifecycle)), Unlocking(Destroy, true))
    case Unlocking(op, result) => (g.(mutex := None), Leaving(op, result))
  }

  /** LeaveLifecycleOperation, and what Destroy waits for after it. */
  function ExitStep(g: Shared, thread: Thread): (Shared, Thread)
    requires thread.Leaving? || thread.AwaitOperations? || thread.AwaitCallbacks?
  {
    match thread
    case Leaving(op, result) =>
      (g.(lifecycle := Decrement(g.lifecycle)),
       if op == Destroy && result then AwaitOperations else Returned(op, result))
    case AwaitOperations => (g, if Count(g.lifecycle) != 0 then thread else AwaitCallbacks)
    case AwaitCallbacks =>
      if Count(g.callbacks) != 0 then (g, thread)
      else (g.(destroyed := g.destroyed + 1), Returned(Destroy, true))
  }

  function ThreadStep(g: Shared, t: nat, thread: Thread, choice: Choice): (Shared, Thread) {
    var fails := choice.Proceed? && choice.spuriousFailure;
    if thread.Idle? then
      (g, match choice
          case BeginCallback => CallbackLoaded(g.callbacks)
          case Begin(op) => OpLoaded(op, g.lifecycle)
          case Proceed(_) => Idle)
    else if thread.Returned? then (g, Idle)
    else if thread.CallbackLoaded? || thread.InCallback? then CallbackStep(g, thread, fails)
    else if thread.OpLoaded? || thread.OpEntered? then EntryStep(g, t, thread, fails)
    else if HoldsMutex(thread) then LockedStep(g, thread)
    else ExitStep(g, thread)
  }

  /** One atomic step of thread `t`. */
  function Step(s: State, t: nat, choice: Choice): (s': State)
    requires t < |s.threads|
    ensures |s'.threads| == |s.threads|
  {
    var (shared, thread) := ThreadStep(s.shared, t, s.threads[t], choice);
    State(shared, s.threads[t := thread])
  }

  datatype Move = Move(thread: nat, choice: Choice)

  function Run(s: State, schedule: seq<Move>): (s': State)
    requires forall m :: m in schedule ==> m.thread < |s.threads|
    ensures |s'.threads| == |s.threads|
    decreases |schedule|
  {
    if schedule == [] then s
    else Run(Step(s, schedule[0].thread, schedule[0].choice), schedule[1..])
  }

  // ---------------------------------------------------------------- invariant

  predicate InOperation(thread: Thread) {
    thread.OpEntered? || HoldsMutex(thread) || thread.Leaving?
  }

  /** The thread has set the destroying bit and has not returned yet. */
  predicate IsDestroying(thread: Thread) {
    thread == Unlocking(Destroy, true) || thread == Leaving(Destroy, true) ||
    thread.AwaitOperations? || thread.AwaitCallbacks?
  }

  datatype Role = Callback | Operation | Destroyer

  predicate Plays(thread: Thread, role: Role) {
    match role
    case Callback => thread.InCallback?
    case Operation => InOperation(thread)
    case Destroyer => IsDestroying(thread)
  }

  ghost function Players(threads: seq<Thread>, role: Role): set<nat> {
    set t: nat | t < |threads| && Plays(threads[t], role)
  }

  /** How many threads play a role. */
  ghost function Number(threads: seq<Thread>, role: Role): nat {
    |Players(threads, role)|
  }

  lemma NumberUpdate(threads: seq<Thread>, t: nat, thread: Thread, role: Role)
    requires t < |threads|
    ensures Number(threads[t := thread], role) + (if Plays(threads[t], role) then 1 else 0) ==
            Number(threads, role) + (if Plays(thread, role) then 1 else 0)
  {
    hide Plays;
    var before, after := Players(threads, role), Players(threads[t := thread], role);
    assert before - {t} == after - {t};
    FiniteSets.AgreeExceptOne(before, after, t);
  }

  lemma NumberPositive(threads: seq<Thread>, t: nat, role: Role)
    requires t < |threads| && Plays(threads[t], role)
    ensures Number(threads, role) > 0
  {
    assert t in Players(threads, role);
  }

  /** The bridge is stopped and no callback is inside. */
  predicate Quiet(g: Shared) {
    Flagged(g.callbacks) && Count(g.callbacks) == 0
  }

  /** The destroying bit is set and no lifecycle operation is inside. */
  predicate Closed(g: Shared) {
    Flagged(g.lifecycle) && Count(g.lifecycle) == 0
  }

  predicate ThreadOk(g: Shared, t: nat, thread: Thread) {
    && (HoldsMutex(thread) <==> g.mutex == Some(t))
    && (thread.AwaitQuiet? ==>
          Flagged(g.callbacks) && (thread.op == Drain || thread.op == Join) && (thread.op == Join ==> g.drained))
    && (thread.CheckDrained? ==> Flagged(g.callbacks))
    && (thread.Resetting? ==> Quiet(g))
    && (thread.SetJoined? ==> g.drained)
    && (thread.DestroyLoaded? ==> Flagged(thread.word) == Flagged(g.lifecycle))
    && (thread.SetDestroying? ==> g.joined && !Flagged(g.lifecycle))
    && (thread.AwaitCallbacks? ==> Closed(g))
  }

  /** What a thread's role says about the words. */
  predicate RoleOk(g: Shared, thread: Thread) {
    && (thread.InCallback? ==> Count(g.callbacks) > 0)
    && (InOperation(thread) ==> Count(g.lifecycle) > 0)
    && (IsDestroying(thread) ==> Flagged(g.lifecycle) && g.destroyed == 0)
  }

  /** The low bits of each word count the threads admitted through it, and at most one thread ever destroys. */
  ghost predicate CountsOk(s: State) {
    && Count(s.shared.callbacks) == Number(s.threads, Callback)
    && Count(s.shared.lifecycle) == Number(s.threads, Operation)
    && s.shared.destroyed + Number(s.threads, Destroyer) == (if Flagged(s.shared.lifecycle) then 1 else 0)
  }

  predicate FlagsOk(g: Shared) {
    && (g.drained ==> Quiet(g))
    && (g.joined ==> g.drained)
    && (Flagged(g.lifecycle) ==> g.joined)
    && (g.destroyed > 0 ==> Closed(g))
  }

  ghost predicate Inv(s: State) {
    CountsOk(s) && FlagsOk(s.shared) && forall t :: 0 <= t < |s.threads| ==> ThreadOk(s.shared, t, s.threads[t])
  }

  // ------------------------------------------------------------------- steps

  function One(b: bool): nat {
    if b then 1 else 0
  }

  /** A step moves the count of each word by exactly what it does to the thread's place in it. */
  lemma StepBalancesCallbacks(g: Shared, t: nat, thread: Thread, choice: Choice)
    requires RoleOk(g, thread)
    ensures var (g', thread') := ThreadStep(g, t, thread, choice);
            Count(g'.callbacks) + One(thread.InCallback?) == Count(g.callbacks) + One(thread'.InCallback?)
  {
  }

  lemma StepBalancesOperations(g: Shared, t: nat, thread: Thread, choice: Choice)
    requires RoleOk(g, thread)
    ensures var (g', thread') := ThreadStep(g, t, thread, choice);
            Count(g'.lifecycle) + One(InOperation(thread)) == Count(g.lifecycle) + One(InOperation(thread'))
  {
  }

  lemma StepBalancesDestroyers(g: Shared, t: nat, thread: Thread, choice: Choice)
    requires RoleOk(g, thread) && ThreadOk(g, t, thread)
    ensures var (g', thread') := ThreadStep(g, t, thread, choice);
            One(Flagged(g.lifecycle)) + g'.destroyed + One(IsDestroying(thread')) ==
            One(Flagged(g'.lifecycle)) + g.destroyed + One(IsDestroying(thread))
  {
  }

  lemma StepKeepsFlags(g: Shared, t: nat, thread: Thread, choice: Choice)
    requires RoleOk(g, thread) && ThreadOk(g, t, thread) && FlagsOk(g)
    ensures var (g', thread') := ThreadStep(g, t, thread, choice);
            && FlagsOk(g') && ThreadOk(g', t, thread')
            && (Flagged(g.callbacks) ==> Flagged(g'.callbacks)) && (Flagged(g.lifecycle) ==> Flagged(g'.lifecycle))
            && (Quiet(g) ==> Quiet(g')) && (Closed(g) ==> Closed(g'))
            && (g.drained ==> g'.drained) && (g.joined ==> g'.joined)
  {
  }

  /** A step of thread `t` keeps what is known of another thread. */
  lemma StepKeepsOthers(g: Shared, t: nat, thread: Thread, choice: Choice, u: nat, other: Thread)
    requires RoleOk(g, thread) && ThreadOk(g, t, thread) && FlagsOk(g) && u != t && ThreadOk(g, u, other)
    ensures ThreadOk(ThreadStep(g, t, thread, choice).0, u, other)
  {
    StepKeepsFlags(g, t, thread, choice);
  }

  lemma RoleCounts(s: State, t: nat)
    requires CountsOk(s) && t < |s.threads|
    ensures RoleOk(s.shared, s.threads[t])
  {
    if Plays(s.threads[t], Callback) { NumberPositive(s.threads, t, Callback); }
    if Plays(s.threads[t], Operation) { NumberPositive(s.threads, t, Operation); }
    if Plays(s.threads[t], Destroyer) { NumberPositive(s.threads, t, Destroyer); }
  }

  lemma StepInv(s: State, t: nat, choice: Choice)
    requires Inv(s) && t < |s.threads|
    ensures Inv(Step(s, t, choice))
  {
    var g, thread := s.shared, s.threads[t];
    var (g', thread') := ThreadStep(g, t, thread, choice);
    RoleCounts(s, t);
    StepBalancesCallbacks(g, t, thread, choice);
    StepBalancesOperations(g, t, thread, choice);
    StepBalancesDestroyers(g, t, thread, choice);
    StepKeepsFlags(g, t, thread, choice);
    NumberUpdate(s.threads, t, thread', Callback);
    NumberUpdate(s.threads, t, thread', Operation);
    NumberUpdate(s.threads, t, thread', Destroyer);
    var threads' := s.threads[t := thread'];
    forall u | 0 <= u < |threads'| ensures ThreadOk(g', u, threads'[u]) {
      if u != t {
        StepKeepsOthers(g, t, thread, choice, u, s.threads[u]);
      }
    }
  }

  lemma {:induction false} RunInv(s: State, schedule: seq<Move>)
    requires Inv(s)
    requires forall m :: m in schedule ==> m.thread < |s.threads|
    ensures Inv(Run(s, schedule))
    decreases |schedule|
  {
    if schedule != [] {
      StepInv(s, schedule[0].thread, schedule[0].choice);
      RunInv(Step(s, schedule[0].thread, schedule[0].choice), schedule[1..]);
    }
  }

  lemma InitialInv(threadCount: nat)
    ensures Inv(Initial(threadCount))
  {
    var s := Initial(threadCount);
    assert forall role: Role :: Players(s.threads, role) == {};
  }

  // ---------------------------------------------------------------- theorems

  /** A state some schedule leads to. */
  ghost predicate Reachable(s: State) {
    exists threadCount: nat, schedule: seq<Move> :: IsRun(threadCount, schedule, s)
  }

  ghost predicate IsRun(threadCount: nat, schedule: seq<Move>, s: State) {
    && (forall m :: m in schedule ==> m.thread < threadCount)
    && Run(Initial(threadCount), schedule) == s
  }

  lemma ReachableInv(s: State)
    requires Reachable(s)
    ensures Inv(s)
  {
    var threadCount: nat, schedule :| IsRun(threadCount, schedule, s);
    InitialInv(threadCount);
    RunInv(Initial(threadCount), schedule);
  }

  /** The low 31 bits of each word are exactly the number of threads admitted through it. */
  lemma WordsCountThreads(s: State)
    requires Reachable(s)
    ensures Count(s.shared.callbacks) == |set t: nat | t < |s.threads| && s.threads[t].InCallback?|
    ensures Count(s.shared.lifecycle) == |set t: nat | t < |s.threads| && InOperation(s.threads[t])|
  {
    ReachableInv(s);
    assert Players(s.threads, Callback) == set t: nat | t < |s.threads| && s.threads[t].InCallback?;
    assert Players(s.threads, Operation) == set t: nat | t < |s.threads| && InOperation(s.threads[t]);
  }

  /** While Drain resets the queues no callback is inside, and no other thread is under the lock. */
  lemma ResetsAreAlone(s: State, t: nat, u: nat)
    requires Reachable(s) && t < |s.threads| && u < |s.threads| && t != u
    requires s.threads[t].Resetting?
    ensures !s.threads[u].InCallback? && !HoldsMutex(s.threads[u])
  {
    ReachableInv(s);
    assert ThreadOk(s.shared, t, s.threads[t]) && ThreadOk(s.shared, u, s.threads[u]);
    RoleCounts(s, u);
  }

  /** Joined implies drained, and drained implies stopped with no callback inside. */
  lemma LifecycleOrder(s: State)
    requires Reachable(s)
    ensures s.shared.joined ==> s.shared.drained
    ensures s.shared.drained ==> Flagged(s.shared.callbacks) && Count(s.shared.callbacks) == 0
    ensures Flagged(s.shared.lifecycle) ==> s.shared.joined
  {
    ReachableInv(s);
  }

  /** Destroy returns true at most once; by then the bridge is joined and no thread is inside. */
  lemma DestroyOnce(s: State)
    requires Reachable(s)
    ensures s.shared.destroyed <= 1
    ensures s.shared.destroyed == 1 ==> s.shared.joined
    ensures s.shared.destroyed == 1 ==>
              forall t :: 0 <= t < |s.threads| ==> !s.threads[t].InCallback? && !InOperation(s.threads[t])
  {
    ReachableInv(s);
    forall t | 0 <= t < |s.threads| && s.shared.destroyed == 1
      ensures !s.threads[t].InCallback? && !InOperation(s.threads[t])
    {
      RoleCounts(s, t);
    }
  }

  /**
    What stays from any reachable state on: the stop and destroying bits are never cleared,
    a count that reached zero after its bit was set stays zero, and drained and joined stay.
   */
  lemma {:induction false} SettledStays(s: State, schedule: seq<Move>)
    requires Inv(s)
    requires forall m :: m in schedule ==> m.thread < |s.threads|
    ensures var g, g' := s.shared, Run(s, schedule).shared;
            && (Flagged(g.callbacks) ==> Flagged(g'.callbacks)) && (Flagged(g.lifecycle) ==> Flagged(g'.lifecycle))
            && (Quiet(g) ==> Quiet(g')) && (Closed(g) ==> Closed(g'))
            && (g.drained ==> g'.drained) && (g.joined ==> g'.joined)
    decreases |schedule|
  {
    if schedule != [] {
      var t := schedule[0].thread;
      RoleCounts(s, t);
      StepKeepsFlags(s.shared, t, s.threads[t], schedule[0].choice);
      StepInv(s, t, schedule[0].choice);
      SettledStays(Step(s, t, schedule[0].choice), schedule[1..]);
    }
  }

  /** After Destroy returned true, no thread ever gets inside again, whatever runs. */
  lemma NothingAfterDestroy(s: State, schedule: seq<Move>, t: nat)
    requires Reachable(s) && s.shared.destroyed == 1 && t < |s.threads|
    requires forall m :: m in schedule ==> m.thread < |s.threads|
    ensures var later := Run(s, schedule).threads[t]; !later.InCallback? && !InOperation(later)
  {
    ReachableInv(s);
    SettledStays(s, schedule);
    RunInv(s, schedule);
    RoleCounts(Run(s, schedule), t);
  }

  /** Once Drain has seen zero callbacks after Stop, no callback is ever inside again. */
  lemma NoCallbackAfterDrain(s: State, schedule: seq<Move>, t: nat)
    requires Reachable(s) && t < |s.threads| && (s.shared.drained || exists u :: 0 <= u < |s.threads| && s.threads[u].Resetting?)
    requires forall m :: m in schedule ==> m.thread < |s.threads|
    ensures !Run(s, schedule).threads[t].InCallback?
  {
    ReachableInv(s);
    if u :| 0 <= u < |s.threads| && s.threads[u].Resetting? {
      assert ThreadOk(s.shared, u, s.threads[u]);
    }
    SettledStays(s, schedule);
    RunInv(s, schedule);
    RoleCounts(Run(s, schedule), t);
  }

  // ---------------------------------------------------------- undisturbed runs

  /** A thread that runs alone for some steps, with no spurious failure. */
  function Solo(g: Shared, thread: Thread, steps: nat): (Shared, Thread)
    decreases steps
  {
    if steps == 0 then (g, thread)
    else
      var (g', thread') := ThreadStep(g, 0, thread, Proceed(false));
      Solo(g', thread', steps - 1)
  }

  /** No operation holds the mutex, Destroy has not begun, and one more operation can be counted. */
  predicate Free(g: Shared) {
    g.mutex == None && g.lifecycle < 0x7fff_ffff
  }

  /**
    A thread that has loaded a word under which it may go in, now out of date or not, goes in exactly if it still
    may: the stop bit is not set and one more can be counted. It leaves the word as it was.
   */
  lemma SoloCallback(g: Shared, word: Word, steps: nat)
    requires word < 0x7fff_ffff && steps == if word == g.callbacks then 1 else 2
    ensures Solo(g, CallbackLoaded(word), steps) ==
            if g.callbacks < 0x7fff_ffff then (g.(callbacks := g.callbacks + 1), InCallback) else (g, Idle)
    ensures g.callbacks < 0x7fff_ffff ==> Solo(g.(callbacks := g.callbacks + 1), InCallback, 1) == (g, Idle)
  {
    if word != g.callbacks {
      assert ThreadStep(g, 0, CallbackLoaded(word), Proceed(false)) == (g, CallbackLoaded(g.callbacks));
      assert Solo(g, CallbackLoaded(word), steps) == Solo(g, CallbackLoaded(g.callbacks), 1);
    }
  }

  /** A spurious failure makes a thread try again, and never refuses it. */
  lemma SpuriousFailureRetries(g: Shared, t: nat, op: Op)
    ensures g.callbacks < 0x7fff_ffff ==>
              ThreadStep(g, t, CallbackLoaded(g.callbacks), Proceed(true)) == (g, CallbackLoaded(g.callbacks))
    ensures g.lifecycle < 0x7fff_ffff ==>
              ThreadStep(g, t, OpLoaded(op, g.lifecycle), Proceed(true)) == (g, OpLoaded(op, g.lifecycle))
  {
  }

  /** Likewise for an operation, which is refused at once while Destroy is under way or too many are counted. */
  lemma SoloAdmission(g: Shared, op: Op, word: Word, steps: nat)
    requires word < 0x7fff_ffff && steps == if word == g.lifecycle then 1 else 2
    ensures Solo(g, OpLoaded(op, word), steps) ==
            if g.lifecycle < 0x7fff_ffff then (g.(lifecycle := g.lifecycle + 1), OpEntered(op)) else (g, Returned(op, false))
  {
    if word != g.lifecycle {
      assert ThreadStep(g, 0, OpLoaded(op, word), Proceed(false)) == (g, OpLoaded(op, g.lifecycle));
      assert Solo(g, OpLoaded(op, word), steps) == Solo(g, OpLoaded(op, g.lifecycle), 1);
    }
  }

  lemma SoloEntry(g: Shared, op: Op, rest: nat)
    requires Free(g)
    ensures Solo(g, OpLoaded(op, g.lifecycle), 2 + rest) ==
            Solo(g.(lifecycle := g.lifecycle + 1, mutex := Some(0)), OpLocked(op), rest)
  {
    var g1 := g.(lifecycle := g.lifecycle + 1);
    assert ThreadStep(g, 0, OpLoaded(op, g.lifecycle), Proceed(false)) == (g1, OpEntered(op));
    assert Solo(g1, OpEntered(op), 1 + rest) == Solo(g1.(mutex := Some(0)), OpLocked(op), rest);
  }

  lemma SoloExit(g: Shared, op: Op, result: bool, rest: nat)
    requires g.lifecycle > 0
    ensures Solo(g, Unlocking(op, result), 2 + rest) ==
            Solo(g.(mutex := None, lifecycle := g.lifecycle - 1),
                 if op == Destroy && result then AwaitOperations else Returned(op, result), rest)
  {
    var g1 := g.(mutex := None);
    assert Solo(g, Unlocking(op, result), 2 + rest) == Solo(g1, Leaving(op, result), 1 + rest);
  }

  /** Undisturbed, Stop always succeeds, in five steps, whatever callbacks are inside. */
  lemma SoloStop(g: Shared, steps: nat)
    requires Free(g) && steps == 5
    ensures Solo(g, OpLoaded(Stop, g.lifecycle), steps) ==
            (g.(callbacks := if g.callbacks < FLAG then g.callbacks + FLAG else g.callbacks), Returned(Stop, true))
  {
    var g1 := g.(lifecycle := g.lifecycle + 1, mutex := Some(0));
    SoloEntry(g, Stop, steps - 2);
    SoloExit(g1.(callbacks := SetFlag(g.callbacks)), Stop, true, steps - 5);
  }

  /** Undisturbed, Drain succeeds, in seven steps, exactly when the bridge is stopped; else it fails after five. */
  lemma SoloDrain(g: Shared, steps: nat)
    requires Free(g) && steps == if Flagged(g.callbacks) then 7 else 5
    requires Flagged(g.callbacks) ==> g.callbacks == FLAG
    ensures Solo(g, OpLoaded(Drain, g.lifecycle), steps) ==
            if g.callbacks >= FLAG then (g.(drained := true), Returned(Drain, true))
            else (g, Returned(Drain, false))
  {
    var g1 := g.(lifecycle := g.lifecycle + 1, mutex := Some(0));
    SoloEntry(g, Drain, steps - 2);
    if Flagged(g.callbacks) {
      hide Solo;
      SoloDraining(g1, steps - 5);
      SoloExit(g1.(drained := true), Drain, true, steps - 7);
      SoloEnd(g.(drained := true), Returned(Drain, true));
    } else {
      SoloExit(g1, Drain, false, steps - 5);
    }
  }

  lemma SoloEnd(g: Shared, thread: Thread)
    ensures Solo(g, thread, 0) == (g, thread)
  {
  }

  lemma SoloDraining(g: Shared, rest: nat)
    requires g.callbacks == FLAG
    ensures Solo(g, OpLocked(Drain), 3 + rest) == Solo(g.(drained := true), Unlocking(Drain, true), rest)
  {
    assert Solo(g, OpLocked(Drain), 3 + rest) == Solo(g, AwaitQuiet(Drain), 2 + rest);
    assert Solo(g, AwaitQuiet(Drain), 2 + rest) == Solo(g, Resetting, 1 + rest);
  }

  /** While a callback is inside, Drain of a stopped bridge waits. */
  lemma DrainWaits(g: Shared, op: Op)
    requires g.callbacks != 0 && g.callbacks != FLAG
    ensures Solo(g, AwaitQuiet(op), 1) == (g, AwaitQuiet(op))
  {
  }

  lemma SoloJoining(g: Shared, rest: nat)
    requires g.drained && Count(g.callbacks) == 0
    ensures Solo(g, CheckDrained, 3 + rest) == Solo(g.(joined := true), Unlocking(Join, true), rest)
  {
    assert Solo(g, CheckDrained, 3 + rest) == Solo(g, AwaitQuiet(Join), 2 + rest);
    assert Solo(g, AwaitQuiet(Join), 2 + rest) == Solo(g, SetJoined, 1 + rest);
  }

  /** Undisturbed, Join succeeds exactly when the bridge is stopped and drained. */
  lemma SoloJoin(g: Shared, steps: nat)
    requires Free(g) && steps == if !Flagged(g.callbacks) then 5 else if !g.drained then 6 else 8
    requires g.drained ==> g.callbacks == FLAG
    ensures Solo(g, OpLoaded(Join, g.lifecycle), steps) ==
            if g.drained then (g.(joined := true), Returned(Join, true)) else (g, Returned(Join, false))
  {
    var g1 := g.(lifecycle := g.lifecycle + 1, mutex := Some(0));
    SoloEntry(g, Join, steps - 2);
    if !Flagged(g.callbacks) {
      SoloExit(g1, Join, false, steps - 5);
    } else if !g.drained {
      SoloNotDrained(g1, steps - 4);
      SoloExit(g1, Join, false, steps - 6);
    } else {
      assert Solo(g1, OpLocked(Join), steps - 2) == Solo(g1, CheckDrained, steps - 3);
      hide ThreadStep, Solo;
      SoloJoining(g1, steps - 6);
      SoloExit(g1.(joined := true), Join, true, steps - 8);
      SoloEnd(g.(joined := true), Returned(Join, true));
    }
  }

  lemma SoloNotDrained(g: Shared, rest: nat)
    requires g.callbacks >= FLAG && !g.drained
    ensures Solo(g, OpLocked(Join), 2 + rest) == Solo(g, Unlocking(Join, false), rest)
  {
    assert Solo(g, OpLocked(Join), 2 + rest) == Solo(g, CheckDrained, 1 + rest);
  }

  /** After the destroying bit is set, only the waits are left. */
  lemma SoloAwaiting(g: Shared, steps: nat)
    requires g.lifecycle == FLAG && Count(g.callbacks) == 0 && steps == 2
    ensures Solo(g, AwaitOperations, steps) == (g.(destroyed := g.destroyed + 1), Returned(Destroy, true))
  {
    assert Solo(g, AwaitOperations, steps) == Solo(g, AwaitCallbacks, steps - 1);
  }

  lemma SoloMarking(g: Shared, rest: nat)
    requires g.joined && g.lifecycle < FLAG
    ensures Solo(g, OpLocked(Destroy), 3 + rest) == Solo(g.(lifecycle := g.lifecycle + FLAG), Unlocking(Destroy, true), rest)
  {
    assert Solo(g, OpLocked(Destroy), 3 + rest) == Solo(g, DestroyLoaded(g.lifecycle), 2 + rest);
    assert Solo(g, DestroyLoaded(g.lifecycle), 2 + rest) == Solo(g, SetDestroying, 1 + rest);
  }

  lemma SoloRefusing(g: Shared, rest: nat)
    requires !g.joined
    ensures Solo(g, OpLocked(Destroy), 2 + rest) == Solo(g, Unlocking(Destroy, false), rest)
  {
    assert Solo(g, OpLocked(Destroy), 2 + rest) == Solo(g, DestroyLoaded(g.lifecycle), 1 + rest);
  }

  /** With nobody inside, Destroy succeeds exactly when the bridge is joined, and leaves the destroying bit set. */
  lemma SoloDestroy(g: Shared, steps: nat)
    requires g.mutex == None && g.lifecycle == 0 && Count(g.callbacks) == 0 && steps == if g.joined then 9 else 6
    ensures Solo(g, OpLoaded(Destroy, 0), steps) ==
            if g.joined then (g.(lifecycle := FLAG, destroyed := g.destroyed + 1), Returned(Destroy, true))
            else (g, Returned(Destroy, false))
  {
    hide ThreadStep;
    var g1 := g.(lifecycle := 1, mutex := Some(0));
    SoloEntry(g, Destroy, steps - 2);
    if g.joined {
      SoloMarking(g1, steps - 5);
      SoloExit(g1.(lifecycle := FLAG + 1), Destroy, true, steps - 7);
      SoloAwaiting(g.(lifecycle := FLAG), steps - 7);
    } else {
      SoloRefusing(g1, steps - 4);
      SoloExit(g1, Destroy, false, steps - 6);
    }
  }
}
