/**
  A session over the packed words of its PCM bridge. Every operation of the bridge takes the steps of
  BridgeLifecycle, interleaved with those of all other threads. What the session sees of it is the gate
  of SessionLifecycle: each step of the whole is a step of the session with that gate, or none at all.
 */
module SessionBridge {
  import B = BridgeLifecycle
  import FiniteSets
  import S = SessionLifecycle

  /** Where a thread is in the session and, while it calls the bridge, in the bridge. */
  datatype Thread = Thread(session: S.Thread, bridge: B.Thread)

  datatype State = State(session: S.Shared, bridge: B.Shared, threads: seq<Thread>)

  datatype Choice = Session(choice: S.Choice) | Bridge(spuriousFailure: bool)

  /** The bridge as the session sees it. */
  function Seen(bridge: B.Shared): S.Gate {
    S.Gate(B.Flagged(bridge.callbacks), bridge.drained, bridge.joined, B.Count(bridge.callbacks), false)
  }

  function Initial(threadCount: nat, callbacks: S.Callbacks): State {
    State(S.Initial(threadCount, callbacks).shared, B.Initial(threadCount).shared,
          seq(threadCount, _ => Thread(S.Thread(S.Idle, false), B.Idle)))
  }

  predicate CallsBridge(pc: S.Pc) {
    pc.PcmStop? || pc.PcmDrain? || pc.PcmJoin? || pc.PcmEnter? || pc.InPcm?
  }

  function Calling(pc: S.Pc): B.Choice
    requires CallsBridge(pc)
  {
    match pc
    case PcmStop(_) => B.Begin(B.Stop)
    case PcmDrain(_) => B.Begin(B.Drain)
    case PcmJoin(_) => B.Begin(B.Join)
    case PcmEnter => B.BeginCallback
    case InPcm => B.BeginCallback
  }

  /** Where a thread goes with the result of Stop, Drain or Join of the bridge. */
  function After(pc: S.Pc, result: bool): S.Pc {
    match pc
    case PcmStop(failedStart) => S.Lock(S.StopInstance(failedStart, result))
    case PcmDrain(ok) => if result then S.PcmJoin(ok) else S.Lock(S.Unbind(false))
    case PcmJoin(ok) => S.Lock(S.Unbind(ok && result))
    case _ => pc
  }

  /** Where a thread goes that has tried to enter the bridge, or left it. */
  function AfterCallback(pc: S.Pc, before: B.Thread, after: B.Thread): S.Pc {
    if pc.PcmEnter? && after.InCallback? then S.InPcm
    else if pc.PcmEnter? && before.CallbackLoaded? && after.Idle? then S.Returned(S.Pcm, S.Failed, false)
    else if pc.InPcm? then S.Returned(S.Pcm, S.Ok, false)
    else pc
  }

  function BridgeStep(bridge: B.Shared, t: nat, thread: Thread, spuriousFailure: bool): (B.Shared, Thread)
    requires CallsBridge(thread.session.pc)
  {
    var pc, before := thread.session.pc, thread.bridge;
    if before.Returned? then (bridge, Thread(thread.session.(pc := After(pc, before.result)), B.Idle))
    else
      var choice := if before.Idle? then Calling(pc) else B.Proceed(spuriousFailure);
      var (bridge', after) := B.ThreadStep(bridge, t, before, choice);
      (bridge', Thread(thread.session.(pc := AfterCallback(pc, before, after)), after))
  }

  function Step(s: State, t: nat, choice: Choice): (s': State)
    requires t < |s.threads|
    ensures |s'.threads| == |s.threads|
  {
    var thread := s.threads[t];
    if CallsBridge(thread.session.pc) then
      var (bridge, thread') := BridgeStep(s.bridge, t, thread, choice.Bridge? && choice.spuriousFailure);
      State(s.session.(gate := Seen(bridge)), bridge, s.threads[t := thread'])
    else
      var (session, after) :=
        S.ThreadStep(s.session, t, thread.session, if choice.Session? then choice.choice else S.Proceed(false));
      State(session, s.bridge, s.threads[t := thread.(session := after)])
  }

  datatype Move = Move(thread: nat, choice: Choice)

  function Run(s: State, schedule: seq<Move>): (s': State)
    requires forall m :: m in schedule ==> m.thread < |s.threads|
    ensures |s'.threads| == |s.threads|
    decreases |schedule|
  {
    if schedule == [] then s
    else Run(Step(s, schedule[0].thread, schedule[0].choice), schedule[1..])
  }

  // --------------------------------------------------------------- refinement

  /** The operation of the bridge has done what it does and is on its way out. */
  predicate Decided(thread: B.Thread) {
    thread.Unlocking? || thread.Leaving? || thread.Returned?
  }

  /** A thread as the session sees it: an operation of the bridge is over when it is decided. */
  function AsSeen(thread: Thread): S.Thread {
    if Decided(thread.bridge) then thread.session.(pc := After(thread.session.pc, thread.bridge.result))
    else thread.session
  }

  /** The state of SessionLifecycle that corresponds to a state of the whole. */
  function SessionOf(s: State): S.State {
    S.State(s.session, seq(|s.threads|, i requires 0 <= i < |s.threads| => AsSeen(s.threads[i])))
  }

  /** The state of BridgeLifecycle in a state of the whole. */
  function BridgeOf(s: State): B.State {
    B.State(s.bridge, seq(|s.threads|, i requires 0 <= i < |s.threads| => s.threads[i].bridge))
  }

  /** The thread is somewhere in this operation, or about to begin it. */
  predicate IsIn(thread: B.Thread, op: B.Op) {
    match thread
    case Idle => true
    case OpLoaded(o, _) => o == op
    case OpEntered(o) => o == op
    case OpLocked(o) => o == op
    case AwaitQuiet(o) => o == op && op != B.Stop
    case Unlocking(o, _) => o == op
    case Leaving(o, _) => o == op
    case Returned(o, _) => o == op
    case Resetting => op == B.Drain
    case CheckDrained => op == B.Join
    case SetJoined => op == B.Join
    case _ => false
  }

  /** A thread is in the operation its session is waiting for; it found the lifecycle word open and succeeds. */
  predicate ThreadLinked(thread: Thread) {
    var pc, bridge := thread.session.pc, thread.bridge;
    && (!CallsBridge(pc) ==> bridge.Idle?)
    && (pc.PcmStop? ==> IsIn(bridge, B.Stop))
    && (pc.PcmDrain? ==> IsIn(bridge, B.Drain))
    && (pc.PcmJoin? ==> IsIn(bridge, B.Join))
    && (pc.PcmEnter? ==> bridge.Idle? || bridge.CallbackLoaded?)
    && (pc.InPcm? ==> bridge.InCallback?)
    && (bridge.OpLoaded? ==> B.Count(bridge.word) < B.COUNT_MASK && !B.Flagged(bridge.word))
    && (Decided(bridge) ==> bridge.result)
  }

  ghost predicate Linked(s: State) {
    && |s.threads| < B.COUNT_MASK
    && s.session.gate == Seen(s.bridge)
    && !B.Flagged(s.bridge.lifecycle)
    && B.Inv(BridgeOf(s)) && S.Inv(SessionOf(s))
    && forall t :: 0 <= t < |s.threads| ==> ThreadLinked(s.threads[t])
  }

  /** The session sees one of its own steps, or nothing. */
  ghost predicate Sees(g: S.Shared, t: nat, thread: S.Thread, g': S.Shared, thread': S.Thread) {
    (g' == g && thread' == thread) || exists choice :: S.ThreadStep(g, t, thread, choice) == (g', thread')
  }

  /** What is known of a thread that is about to make a step. */
  ghost predicate Ready(g: S.Shared, bridge: B.Shared, t: nat, thread: Thread) {
    && g.gate == Seen(bridge) && !B.Flagged(bridge.lifecycle) && B.Count(bridge.lifecycle) < B.COUNT_MASK
    && B.FlagsOk(bridge) && B.ThreadOk(bridge, t, thread.bridge) && B.RoleOk(bridge, thread.bridge)
    && S.BridgeOk(g.gate, AsSeen(thread).pc)
    && ThreadLinked(thread)
  }

  /** A step in the bridge that the session does not see, or sees as one of its own. */
  ghost predicate Simulates(g: S.Shared, bridge: B.Shared, t: nat, thread: Thread, spuriousFailure: bool)
    requires CallsBridge(thread.session.pc)
  {
    var (bridge', thread') := BridgeStep(bridge, t, thread, spuriousFailure);
    && ThreadLinked(thread') && !B.Flagged(bridge'.lifecycle)
    && Sees(g, t, AsSeen(thread), g.(gate := Seen(bridge')), AsSeen(thread'))
  }

  lemma SeesStep(g: S.Shared, t: nat, thread: S.Thread, succeeds: bool, g': S.Shared, thread': S.Thread)
    requires S.ThreadStep(g, t, thread, S.Proceed(succeeds)) == (g', thread')
    ensures Sees(g, t, thread, g', thread')
  {
  }

  /** What an operation does to the gate. */
  function Effect(gate: S.Gate, op: B.Op): S.Gate {
    match op
    case Stop => S.StopGate(gate, true)
    case Drain => S.DrainGate(gate, true)
    case Join => S.JoinGate(gate, true)
    case Destroy => gate
  }

  /** The bridge is as far as an operation needs it to succeed. */
  predicate Allows(gate: S.Gate, op: B.Op) {
    (op == B.Drain || op == B.Join ==> gate.stopped) && (op == B.Join ==> gate.drained)
  }

  predicate Admitted(thread: B.Thread) {
    thread.OpLoaded? ==> B.Count(thread.word) < B.COUNT_MASK && !B.Flagged(thread.word)
  }

  /** A step within an operation either decides it, successfully, with its effect on the gate, or is not seen. */
  ghost predicate Advances(bridge: B.Shared, before: B.Thread, op: B.Op, bridge': B.Shared, after: B.Thread) {
    && IsIn(after, op) && !after.Idle? && Admitted(after) && !B.Flagged(bridge'.lifecycle)
    && (Decided(after) ==> after.result)
    && (Decided(before) ==> Decided(after))
    && Seen(bridge') == (if Decided(before) == Decided(after) then Seen(bridge) else Effect(Seen(bridge), op))
    && (Decided(after) && !Decided(before) && op != B.Stop ==> B.Quiet(bridge))
  }

  lemma EntryAdvances(bridge: B.Shared, t: nat, thread: B.Thread, op: B.Op, spuriousFailure: bool)
    requires IsIn(thread, op) && Admitted(thread) && (thread.OpLoaded? || thread.OpEntered?)
    requires !B.Flagged(bridge.lifecycle) && B.Count(bridge.lifecycle) < B.COUNT_MASK
    ensures var (bridge', after) := B.ThreadStep(bridge, t, thread, B.Proceed(spuriousFailure));
            Advances(bridge, thread, op, bridge', after)
  {
  }

  lemma LockedAdvances(bridge: B.Shared, t: nat, thread: B.Thread, op: B.Op, spuriousFailure: bool)
    requires IsIn(thread, op) && op != B.Destroy && B.HoldsMutex(thread) && (Decided(thread) ==> thread.result)
    requires B.FlagsOk(bridge) && B.ThreadOk(bridge, t, thread) && !B.Flagged(bridge.lifecycle)
    requires Allows(Seen(bridge), op)
    ensures var (bridge', after) := B.ThreadStep(bridge, t, thread, B.Proceed(spuriousFailure));
            Advances(bridge, thread, op, bridge', after)
  {
  }

  lemma LeavingAdvances(bridge: B.Shared, t: nat, thread: B.Thread, op: B.Op, spuriousFailure: bool)
    requires IsIn(thread, op) && op != B.Destroy && thread.Leaving? && thread.result
    requires !B.Flagged(bridge.lifecycle) && B.RoleOk(bridge, thread)
    ensures var (bridge', after) := B.ThreadStep(bridge, t, thread, B.Proceed(spuriousFailure));
            Advances(bridge, thread, op, bridge', after)
  {
  }

  lemma OperationAdvances(bridge: B.Shared, t: nat, thread: B.Thread, op: B.Op, spuriousFailure: bool)
    requires IsIn(thread, op) && op != B.Destroy && !thread.Idle? && !thread.Returned?
    requires Admitted(thread) && (Decided(thread) ==> thread.result)
    requires !B.Flagged(bridge.lifecycle) && B.Count(bridge.lifecycle) < B.COUNT_MASK
    requires B.FlagsOk(bridge) && B.ThreadOk(bridge, t, thread) && B.RoleOk(bridge, thread)
    requires Allows(Seen(bridge), op)
    ensures var (bridge', after) := B.ThreadStep(bridge, t, thread, B.Proceed(spuriousFailure));
            Advances(bridge, thread, op, bridge', after)
  {
    hide Advances, B.ThreadStep, Seen;
    if thread.OpLoaded? || thread.OpEntered? {
      EntryAdvances(bridge, t, thread, op, spuriousFailure);
    } else if thread.Leaving? {
      LeavingAdvances(bridge, t, thread, op, spuriousFailure);
    } else {
      LockedAdvances(bridge, t, thread, op, spuriousFailure);
    }
  }

  predicate CallsOperation(pc: S.Pc) {
    pc.PcmStop? || pc.PcmDrain? || pc.PcmJoin?
  }

  /** The operation of the bridge a thread is waiting for. */
  function Awaited(pc: S.Pc): B.Op
    requires CallsOperation(pc)
  {
    if pc.PcmStop? then B.Stop else if pc.PcmDrain? then B.Drain else B.Join
  }

  /** A call of an operation, or the return from one. */
  lemma CallSimulates(g: S.Shared, bridge: B.Shared, t: nat, thread: Thread, spuriousFailure: bool)
    requires Ready(g, bridge, t, thread) && CallsOperation(thread.session.pc)
    requires thread.bridge.Idle? || thread.bridge.Returned?
    ensures Simulates(g, bridge, t, thread, spuriousFailure)
  {
  }

  lemma OperationSimulates(g: S.Shared, bridge: B.Shared, t: nat, thread: Thread, spuriousFailure: bool)
    requires Ready(g, bridge, t, thread) && CallsOperation(thread.session.pc)
    requires !thread.bridge.Idle? && !thread.bridge.Returned?
    ensures Simulates(g, bridge, t, thread, spuriousFailure)
  {
    var op := Awaited(thread.session.pc);
    hide Seen, B.ThreadStep, S.BridgeOk, S.ThreadStep, Allows, B.ThreadOk, B.RoleOk, B.FlagsOk, IsIn, Effect, Sees, Advances;
    StillAllowed(g, bridge, t, thread);
    OperationAdvances(bridge, t, thread.bridge, op, spuriousFailure);
    var (bridge', after) := B.ThreadStep(bridge, t, thread.bridge, B.Proceed(spuriousFailure));
    AdvanceIsSeen(g, bridge, t, thread, bridge', after);
    assert BridgeStep(bridge, t, thread, spuriousFailure) == (bridge', thread.(bridge := after));
  }

  lemma AdvanceIsSeen(g: S.Shared, bridge: B.Shared, t: nat, thread: Thread, bridge': B.Shared, after: B.Thread)
    requires CallsOperation(thread.session.pc) && g.gate == Seen(bridge)
    requires Advances(bridge, thread.bridge, Awaited(thread.session.pc), bridge', after)
    requires Allows(Seen(bridge), Awaited(thread.session.pc)) && (Decided(thread.bridge) ==> thread.bridge.result)
    ensures ThreadLinked(thread.(bridge := after)) && !B.Flagged(bridge'.lifecycle)
    ensures Sees(g, t, AsSeen(thread), g.(gate := Seen(bridge')), AsSeen(thread.(bridge := after)))
  {
    hide Seen, S.ThreadStep, Allows, IsIn, Effect;
    if Decided(after) && !Decided(thread.bridge) {
      QuietIsEmpty(bridge);
      DecisionIsSeen(g, t, thread.session, Awaited(thread.session.pc), Seen(bridge'));
    }
  }

  lemma QuietIsEmpty(bridge: B.Shared)
    ensures B.Quiet(bridge) ==> Seen(bridge).inside == 0
  {
  }

  /** The step that decides an operation is the one step the session takes for it. */
  lemma DecisionIsSeen(g: S.Shared, t: nat, thread: S.Thread, op: B.Op, gate: S.Gate)
    requires CallsOperation(thread.pc)
    requires op == Awaited(thread.pc) && gate == Effect(g.gate, op) && Allows(g.gate, op)
    requires op != B.Stop ==> g.gate.inside == 0
    ensures Sees(g, t, thread, g.(gate := gate), thread.(pc := After(thread.pc, true)))
  {
    SeesStep(g, t, thread, true, g.(gate := gate), thread.(pc := After(thread.pc, true)));
  }

  lemma StillAllowed(g: S.Shared, bridge: B.Shared, t: nat, thread: Thread)
    requires Ready(g, bridge, t, thread)
    requires CallsOperation(thread.session.pc)
    ensures Allows(Seen(bridge), Awaited(thread.session.pc))
  {
  }

  lemma EnterSimulates(g: S.Shared, bridge: B.Shared, t: nat, thread: Thread, spuriousFailure: bool)
    requires Ready(g, bridge, t, thread) && thread.session.pc.PcmEnter?
    ensures Simulates(g, bridge, t, thread, spuriousFailure)
  {
    hide S.ThreadStep, S.BridgeOk, B.ThreadOk, B.RoleOk, B.FlagsOk, IsIn;
    var (bridge', thread') := BridgeStep(bridge, t, thread, spuriousFailure);
    if thread'.session.pc != thread.session.pc {
      EnteringIsSeen(g, t, thread.session, bridge, bridge', thread'.session.pc.InPcm?);
    }
  }

  lemma EnteringIsSeen(g: S.Shared, t: nat, thread: S.Thread, bridge: B.Shared, bridge': B.Shared, enters: bool)
    requires g.gate == Seen(bridge) && thread.pc.PcmEnter?
    requires enters ==> !B.Flagged(bridge.callbacks) && bridge' == bridge.(callbacks := B.Increment(bridge.callbacks))
    requires enters ==> B.Count(bridge.callbacks) != B.COUNT_MASK
    requires !enters ==> bridge' == bridge
    ensures Sees(g, t, thread, g.(gate := Seen(bridge')),
                 thread.(pc := if enters then S.InPcm else S.Returned(S.Pcm, S.Failed, false)))
  {
    SeesStep(g, t, thread, enters, g.(gate := Seen(bridge')),
             thread.(pc := if enters then S.InPcm else S.Returned(S.Pcm, S.Failed, false)));
  }

  lemma LeaveSimulates(g: S.Shared, bridge: B.Shared, t: nat, thread: Thread, spuriousFailure: bool)
    requires Ready(g, bridge, t, thread) && thread.session.pc.InPcm?
    ensures Simulates(g, bridge, t, thread, spuriousFailure)
  {
    var (bridge', thread') := BridgeStep(bridge, t, thread, spuriousFailure);
    SeesStep(g, t, AsSeen(thread), true, g.(gate := Seen(bridge')), AsSeen(thread'));
  }

  lemma AnyBridgeStepSimulates(g: S.Shared, bridge: B.Shared, t: nat, thread: Thread, spuriousFailure: bool)
    requires Ready(g, bridge, t, thread) && CallsBridge(thread.session.pc)
    ensures Simulates(g, bridge, t, thread, spuriousFailure)
  {
    hide Ready, Simulates;
    if thread.session.pc.PcmEnter? {
      EnterSimulates(g, bridge, t, thread, spuriousFailure);
    } else if thread.session.pc.InPcm? {
      LeaveSimulates(g, bridge, t, thread, spuriousFailure);
    } else if thread.bridge.Idle? || thread.bridge.Returned? {
      CallSimulates(g, bridge, t, thread, spuriousFailure);
    } else {
      OperationSimulates(g, bridge, t, thread, spuriousFailure);
    }
  }

  /** Outside the calls to the bridge the session leaves it alone. */
  lemma SessionLeavesGate(g: S.Shared, t: nat, thread: S.Thread, choice: S.Choice)
    requires !CallsBridge(thread.pc)
    ensures var (g', thread') := S.ThreadStep(g, t, thread, choice); g'.gate == g.gate && !thread'.pc.InPcm?
  {
    hide S.BeginStep, S.AdapterStep, S.CallbackStep, S.StopStep, S.JoinStep, S.PcmStep;
    var pc, succeeds := thread.pc, choice.Proceed? && choice.succeeds;
    if pc.Idle? && choice.Begin? {
      BeginLeavesGate(g, t, thread.inAccess, choice.call);
    } else if S.IsStopPc(pc) || S.IsJoinPc(pc) {
      StopOrJoinLeavesGate(g, t, pc, succeeds);
    } else if !pc.Idle? && !pc.Returned? {
      AdapterLeavesGate(g, t, pc, succeeds);
    }
  }

  lemma BeginLeavesGate(g: S.Shared, t: nat, inAccess: bool, call: S.Call)
    ensures var (g', thread') := S.BeginStep(g, t, inAccess, call); g'.gate == g.gate && !thread'.pc.InPcm?
  {
  }

  lemma AdapterLeavesGate(g: S.Shared, t: nat, pc: S.Pc, succeeds: bool)
    ensures S.IsAdapterPc(pc) ==> var (g', pc') := S.AdapterStep(g, t, pc, succeeds); g'.gate == g.gate && !pc'.InPcm?
    ensures S.IsCallbackPc(pc) ==> var (g', pc') := S.CallbackStep(g, pc, succeeds); g'.gate == g.gate && !pc'.InPcm?
  {
  }

  lemma StopOrJoinLeavesGate(g: S.Shared, t: nat, pc: S.Pc, succeeds: bool)
    requires !CallsBridge(pc)
    ensures S.IsStopPc(pc) ==> var (g', pc') := S.StopStep(g, t, pc, succeeds); g'.gate == g.gate && !pc'.InPcm?
    ensures S.IsJoinPc(pc) ==> var (g', pc') := S.JoinStep(g, t, pc, succeeds); g'.gate == g.gate && !pc'.InPcm?
  {
  }

  // ---------------------------------------------------------------- whole runs

  lemma CountIsBounded(s: State)
    requires B.CountsOk(BridgeOf(s)) && |s.threads| < B.COUNT_MASK
    ensures B.Count(s.bridge.lifecycle) < B.COUNT_MASK
  {
    var operators := B.Players(BridgeOf(s).threads, B.Operation);
    AtMost(operators, |s.threads|);
  }

  lemma {:induction false} AtMost(some: set<nat>, n: nat)
    requires forall t :: t in some ==> t < n
    ensures |some| <= n
  {
    if n > 0 {
      AtMost(some - {n - 1}, n - 1);
      FiniteSets.WithoutOne(some, n - 1);
    }
  }

  lemma LinkedIsReady(s: State, t: nat)
    requires Linked(s) && t < |s.threads|
    ensures Ready(s.session, s.bridge, t, s.threads[t])
  {
    CountIsBounded(s);
    B.RoleCounts(BridgeOf(s), t);
    assert B.ThreadOk(s.bridge, t, BridgeOf(s).threads[t]);
    assert S.ThreadOk(s.session, t, SessionOf(s).threads[t]);
    assert ThreadLinked(s.threads[t]);
  }

  /** What a step of the whole is in the bridge. */
  lemma BridgeSteps(s: State, t: nat, choice: Choice)
    requires Linked(s) && t < |s.threads|
    ensures B.Inv(BridgeOf(Step(s, t, choice)))
  {
    hide B.Inv, B.ThreadStep, S.Inv, S.ThreadStep;
    var thread := s.threads[t];
    var pc, before := thread.session.pc, thread.bridge;
    var choice' := if before.Idle? && CallsBridge(pc) then Calling(pc)
                   else B.Proceed(choice.Bridge? && choice.spuriousFailure);
    assert BridgeOf(s).threads[t] == before;
    assert ThreadLinked(thread);
    StandingStill(s.bridge, t, before, choice');
    if CallsBridge(pc) {
      B.StepInv(BridgeOf(s), t, choice');
      assert BridgeOf(Step(s, t, choice)) == B.Step(BridgeOf(s), t, choice');
    } else {
      assert BridgeOf(Step(s, t, choice)) == BridgeOf(s);
    }
  }

  lemma StandingStill(bridge: B.Shared, t: nat, thread: B.Thread, choice: B.Choice)
    ensures thread.Returned? ==> B.ThreadStep(bridge, t, thread, choice) == (bridge, B.Idle)
  {
  }

  /** Every step of the whole is a step of the session with its gate, or not seen by it. */
  lemma StepSimulates(s: State, t: nat, choice: Choice)
    requires Linked(s) && t < |s.threads|
    ensures Linked(Step(s, t, choice))
    ensures SessionOf(Step(s, t, choice)) == SessionOf(s) ||
            exists seen :: SessionOf(Step(s, t, choice)) == S.Step(SessionOf(s), t, seen)
  {
    hide B.Inv, B.ThreadStep, S.Inv, S.ThreadStep, Ready, AsSeen;
    BridgeSteps(s, t, choice);
    LinkedIsReady(s, t);
    var thread, s' := s.threads[t], Step(s, t, choice);
    if CallsBridge(thread.session.pc) {
      AnyBridgeStepSimulates(s.session, s.bridge, t, thread, choice.Bridge? && choice.spuriousFailure);
    } else {
      SessionStepSimulates(s.session, s.bridge, t, thread,
                           if choice.Session? then choice.choice else S.Proceed(false));
    }
    var after := s'.threads[t];
    assert Sees(s.session, t, AsSeen(thread), s'.session, AsSeen(after));
    assert SessionOf(s').threads == SessionOf(s).threads[t := AsSeen(after)];
    if s'.session == s.session && AsSeen(after) == AsSeen(thread) {
      assert SessionOf(s') == SessionOf(s);
    } else {
      var seen :| S.ThreadStep(s.session, t, AsSeen(thread), seen) == (s'.session, AsSeen(after));
      assert SessionOf(s') == S.Step(SessionOf(s), t, seen);
      S.StepInv(SessionOf(s), t, seen);
    }
  }

  lemma SessionStepSimulates(g: S.Shared, bridge: B.Shared, t: nat, thread: Thread, choice: S.Choice)
    requires Ready(g, bridge, t, thread) && !CallsBridge(thread.session.pc)
    ensures var (g', after) := S.ThreadStep(g, t, thread.session, choice);
            && g'.gate == Seen(bridge) && !B.Flagged(bridge.lifecycle)
            && ThreadLinked(thread.(session := after))
            && Sees(g, t, AsSeen(thread), g', AsSeen(thread.(session := after)))
  {
    hide S.ThreadStep, S.BridgeOk, B.ThreadOk, B.RoleOk, B.FlagsOk;
    SessionLeavesGate(g, t, thread.session, choice);
    assert AsSeen(thread) == thread.session;
  }

  lemma {:induction false} RunSimulates(s: State, schedule: seq<Move>) returns (seen: seq<S.Move>)
    requires Linked(s)
    requires forall m :: m in schedule ==> m.thread < |s.threads|
    ensures Linked(Run(s, schedule))
    ensures forall m :: m in seen ==> m.thread < |s.threads|
    ensures SessionOf(Run(s, schedule)) == S.Run(SessionOf(s), seen)
    decreases |schedule|
  {
    hide Linked, S.Step;
    if schedule == [] {
      seen := [];
    } else {
      var t, choice := schedule[0].thread, schedule[0].choice;
      StepSimulates(s, t, choice);
      var s' := Step(s, t, choice);
      seen := RunSimulates(s', schedule[1..]);
      if SessionOf(s') != SessionOf(s) {
        var c :| SessionOf(s') == S.Step(SessionOf(s), t, c);
        var rest := seen;
        seen := [S.Move(t, c)] + rest;
        assert seen[1..] == rest;
      }
    }
  }

  ghost predicate IsRun(threadCount: nat, callbacks: S.Callbacks, schedule: seq<Move>, s: State) {
    && (forall m :: m in schedule ==> m.thread < threadCount)
    && Run(Initial(threadCount, callbacks), schedule) == s
  }

  /** A state some schedule of fewer than 2^31 - 1 threads leads to. */
  ghost predicate Reachable(s: State) {
    && |s.threads| < B.COUNT_MASK
    && exists callbacks, schedule :: IsRun(|s.threads|, callbacks, schedule, s)
  }

  lemma InitialLinked(threadCount: nat, callbacks: S.Callbacks)
    requires threadCount < B.COUNT_MASK
    ensures Linked(Initial(threadCount, callbacks))
    ensures SessionOf(Initial(threadCount, callbacks)) == S.Initial(threadCount, callbacks)
  {
    hide B.Inv, S.Inv;
    var s := Initial(threadCount, callbacks);
    assert BridgeOf(s) == B.Initial(threadCount);
    B.InitialInv(threadCount);
    assert SessionOf(s) == S.Initial(threadCount, callbacks);
    S.InitialInv(SessionOf(s));
  }

  /** What the session sees of any run over the bridge is a run of the session with its gate. */
  lemma WholeRefinesSession(s: State)
    requires Reachable(s)
    ensures Linked(s) && S.Reachable(SessionOf(s))
  {
    hide Linked;
    var callbacks, schedule :| IsRun(|s.threads|, callbacks, schedule, s);
    InitialLinked(|s.threads|, callbacks);
    var start := S.Initial(|s.threads|, callbacks);
    var seen := RunSimulates(Initial(|s.threads|, callbacks), schedule);
    assert S.IsRun(start, seen, SessionOf(s));
  }

  /** The bridge refuses none of its operations to a session. */
  lemma NothingIsRefused(s: State, t: nat)
    requires Reachable(s) && t < |s.threads|
    ensures !s.session.gate.refused
    ensures s.threads[t].bridge.Returned? ==> s.threads[t].bridge.result
  {
    WholeRefinesSession(s);
    assert ThreadLinked(s.threads[t]);
  }

  /**
    The Join that performed the transition has returned, whatever its result: the stop bit is set and the
    count of callbacks zero, the bridge is drained and joined, the parameters are wiped, and no thread is in
    the bridge, in a callback or holding the session. All of it is still so after any further run.
   */
  lemma JoinQuiescesWhole(s: State, t: nat, schedule: seq<Move>)
    requires Reachable(s) && t < |s.threads|
    requires s.threads[t].session.pc.Returned? && s.threads[t].session.pc.call == S.Join && s.threads[t].session.pc.transition
    requires forall m :: m in schedule ==> m.thread < |s.threads|
    ensures var later := Run(s, schedule);
            && later.session.phase.Joined? && later.session.wiped && S.CallbacksQuiet(later.session)
            && B.Quiet(later.bridge) && later.bridge.drained && later.bridge.joined
            && forall u :: 0 <= u < |later.threads| ==>
                 var thread := later.threads[u];
                 !thread.bridge.InCallback? && !thread.session.inAccess && !S.InCallbackPc(thread.session.pc)
  {
    WholeRefinesSession(s);
    assert ThreadLinked(s.threads[t]);
    var seen := RunSimulates(s, schedule);
    var later := Run(s, schedule);
    assert SessionOf(s).threads[t] == s.threads[t].session;
    hide S.Run, Run, S.Reachable, Reachable, B.Inv, S.Inv, B.ThreadStep, S.ThreadStep;
    S.JoinQuiesces(SessionOf(s), t, seen);
    forall u | 0 <= u < |later.threads|
      ensures var thread := later.threads[u];
              !thread.bridge.InCallback? && !thread.session.inAccess && !S.InCallbackPc(thread.session.pc)
    {
      assert ThreadLinked(later.threads[u]);
      var theirs := SessionOf(later).threads[u];
      assert !S.InCallbackPc(theirs.pc) && !theirs.inAccess && !theirs.pc.InPcm?;
      assert theirs == AsSeen(later.threads[u]);
    }
  }
}
