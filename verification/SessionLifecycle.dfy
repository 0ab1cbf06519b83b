/**
  A tgcalls session under every interleaving of its callers, the adapter and the
  adapter's callbacks. A critical section of the session mutex that does not wait is
  one step; waits are guards; the adapter mutex is held across steps. The PCM bridge
  is a gate that closes for good and a count of the threads inside; SessionBridge proves
  that the bridge of BridgeLifecycle behaves like that. A call made from inside a callback
  is a call by another thread, during which the thread of the callback does not move.
 */
module SessionLifecycle {
  import FiniteSets

  datatype Option<T> = None | Some(value: T)

  datatype Phase = Created | Starting | Started | Stopping | Stopped | Joining | Joined

  datatype Call = Start | Stop | Join | Receive | Pcm | Outbound | AsyncError | EnterAccess | LeaveAccess

  datatype Result = Ok | InvalidState | Failed

  /** What the adapter mutex is wanted for. */
  datatype Use = StartInstance | StopInstance(failedStart: bool, ok: bool) | JoinInstance | Unbind(ok: bool) | ReceiveData

  /** What an error is reported for. */
  datatype Origin = FromStart | FromReceive | FromCallback

  datatype Pc =
    | Idle
    | Lock(use: Use)
    | Holding(use: Use)
    | StartDone
    | Report(origin: Origin)
    | InError(origin: Origin)
    | ToStopping
    | PcmStop(failedStart: bool)
    | ToStopped(failedStart: bool, ok: bool)
    | WipeAfterFailedStart
    | StopEntry
    | JoinEntry
    | AwaitCallbacks(ok: bool)
    | PcmDrain(ok: bool)
    | PcmJoin(ok: bool)
    | AwaitAccess(ok: bool)
    | ToJoined(ok: bool)
    | JoinWipe(ok: bool)
    | Receiving
    | InOutbound
    | PcmEnter
    | InPcm
    | Returned(call: Call, result: Result, transition: bool)

  /** `inAccess`: the thread is an adapter callback that obtained the session and has not given it back. */
  datatype Thread = Thread(pc: Pc, inAccess: bool)

  /** The bridge. `refused` is history: it has refused to begin one of its operations. */
  datatype Gate = Gate(stopped: bool, drained: bool, joined: bool, inside: nat, refused: bool)

  /** Which callbacks the session was given. */
  datatype Callbacks = Callbacks(outbound: bool, error: bool)

  /**
    What the threads share. `owner` and `startWiped` are history: the thread that moved the phase into
    Starting, Stopping or Joining and has not finished that transition, and whether a failed Start has
    wiped the parameters.
   */
  datatype Shared = Shared(
    phase: Phase,
    owner: Option<nat>,
    adapterMutex: Option<nat>,
    callbacks: Callbacks,
    inFlight: nat,
    gate: Gate,
    bound: bool,
    accessInFlight: nat,
    wiped: bool,
    startWiped: bool)

  datatype State = State(shared: Shared, threads: seq<Thread>)

  /** What an idle thread calls, or whether the adapter call, callback or bridge operation in progress succeeds. */
  datatype Choice = Begin(call: Call) | Proceed(succeeds: bool)

  const OPEN: Gate := Gate(false, false, false, 0, false)

  function Initial(threadCount: nat, callbacks: Callbacks): State {
    State(
      Shared(Created, None, None, callbacks, 0, OPEN, true, 0, false, false),
      seq(threadCount, _ => Thread(Idle, false)))
  }

  // --------------------------------------------------------------- the bridge

  function StopGate(gate: Gate, admitted: bool): Gate {
    if admitted then gate.(stopped := true) else gate.(refused := true)
  }

  /** Drain, once it need not wait. */
  function DrainGate(gate: Gate, admitted: bool): Gate {
    if !admitted then gate.(refused := true) else if gate.stopped then gate.(drained := true) else gate
  }

  function JoinGate(gate: Gate, admitted: bool): Gate {
    if !admitted then gate.(refused := true) else if gate.drained then gate.(joined := true) else gate
  }

  function EnterGate(gate: Gate): Gate {
    gate.(inside := gate.inside + 1)
  }

  function LeaveGate(gate: Gate): Gate {
    gate.(inside := if gate.inside > 0 then gate.inside - 1 else 0)
  }

  // ---------------------------------------------------------------- the steps

  /** AdmitCallback and AdmitErrorCallback let a callback run only in these phases. */
  predicate Admits(phase: Phase) {
    phase.Starting? || phase.Started?
  }

  predicate FromOutside(call: Call) {
    call.Start? || call.Stop? || call.Join? || call.Receive? || call.Pcm?
  }

  /** A public call by an idle thread `t`, up to the end of its first critical section or its first wait. */
  function CallStep(g: Shared, t: nat, inAccess: bool, call: Call): (Shared, Pc)
    requires FromOutside(call)
  {
    match call
    case Start =>
      if g.phase.Started? then (g, Returned(Start, Ok, false))
      else if !g.phase.Created? then (g, Returned(Start, InvalidState, false))
      else (g.(phase := Starting, owner := Some(t)), Lock(StartInstance))
    case Stop => (g, StopEntry)
    case Join => (g, JoinEntry)
    case Receive => (g, Lock(ReceiveData))
    case Pcm =>
      // the adapter's callbacks go straight to the bridge, the public calls check the phase first
      (g, if inAccess || g.phase.Started? then PcmEnter else Returned(Pcm, InvalidState, false))
  }

  /** What an adapter callback does: obtain the session, report through it, give it back. */
  function AccessStep(g: Shared, inAccess: bool, call: Call): (Shared, Thread)
    requires !FromOutside(call)
  {
    match call
    case Outbound =>
      if Admits(g.phase) && g.callbacks.outbound then (g.(inFlight := g.inFlight + 1), Thread(InOutbound, inAccess))
      else (g, Thread(Idle, inAccess))
    case AsyncError => (g, Thread(Report(FromCallback), inAccess))
    case EnterAccess =>
      if !inAccess && g.bound then (g.(accessInFlight := g.accessInFlight + 1), Thread(Idle, true))
      else (g, Thread(Idle, inAccess))
    case LeaveAccess =>
      if inAccess && g.accessInFlight > 0 then (g.(accessInFlight := g.accessInFlight - 1), Thread(Idle, false))
      else (g, Thread(Idle, inAccess))
  }

  function BeginStep(g: Shared, t: nat, inAccess: bool, call: Call): (Shared, Thread) {
    if FromOutside(call) then
      var (g', pc) := CallStep(g, t, inAccess, call);
      (g', Thread(pc, inAccess))
    else
      AccessStep(g, inAccess, call)
  }

  /** The steps that take the adapter mutex, call the adapter and release the mutex. */
  function AdapterStep(g: Shared, t: nat, pc: Pc, succeeds: bool): (Shared, Pc)
    requires pc.Lock? || pc.Holding? || pc.Receiving? || pc.AwaitAccess?
  {
    var released := g.(adapterMutex := None);
    match pc
    case Lock(use) => if g.adapterMutex == None then (g.(adapterMutex := Some(t)), Holding(use)) else (g, pc)
    case Holding(StartInstance) => (released, if succeeds then StartDone else Report(FromStart))
    case Holding(StopInstance(failedStart, ok)) => (released, ToStopped(failedStart, ok && succeeds))
    case Holding(JoinInstance) => (released, AwaitCallbacks(succeeds))
    case Holding(Unbind(ok)) => (g.(bound := false), AwaitAccess(ok))
    case Holding(ReceiveData) =>
      if g.phase.Started? then (g, Receiving) else (released, Returned(Receive, InvalidState, false))
    case Receiving => (released, if succeeds then Returned(Receive, Ok, false) else Report(FromReceive))
    case AwaitAccess(ok) => if g.accessInFlight == 0 then (released, ToJoined(ok)) else (g, pc)
  }

  /** Where a thread goes on that has reported an error. */
  function Reported(origin: Origin): Pc {
    match origin
    case FromStart => ToStopping
    case FromReceive => Returned(Receive, Failed, false)
    case FromCallback => Idle
  }

  /** Callbacks to the session's owner: admission, the callback, leaving. */
  function CallbackStep(g: Shared, pc: Pc, succeeds: bool): (Shared, Pc)
    requires pc.Report? || pc.InError? || pc.InOutbound?
  {
    match pc
    case Report(origin) =>
      if Admits(g.phase) && g.callbacks.error then (g.(inFlight := g.inFlight + 1), InError(origin))
      else (g, Reported(origin))
    case InError(origin) =>
      (g.(inFlight := if g.inFlight > 0 then g.inFlight - 1 else 0), Reported(origin))
    case InOutbound =>
      (g.(inFlight := if g.inFlight > 0 then g.inFlight - 1 else 0), if succeeds then Idle else Report(FromCallback))
  }

  predicate IsStopPc(pc: Pc) {
    pc.StartDone? || pc.ToStopping? || pc.PcmStop? || pc.ToStopped? || pc.WipeAfterFailedStart? || pc.StopEntry?
  }

  /** The rest of Start, and Stop. */
  function StopStep(g: Shared, t: nat, pc: Pc, succeeds: bool): (Shared, Pc)
    requires IsStopPc(pc)
  {
    match pc
    case StartDone => (g.(phase := Started, owner := None), Returned(Start, Ok, true))
    case ToStopping => (g.(phase := Stopping), PcmStop(true))
    case PcmStop(failedStart) =>
      (g.(gate := StopGate(g.gate, succeeds)), Lock(StopInstance(failedStart, succeeds)))
    case ToStopped(failedStart, ok) =>
      (g.(phase := Stopped, owner := None),
       if failedStart then WipeAfterFailedStart else Returned(Stop, if ok then Ok else Failed, true))
    case WipeAfterFailedStart => (g.(wiped := true, startWiped := true), Returned(Start, Failed, true))
    case StopEntry =>
      if g.phase.Starting? || g.phase.Stopping? then (g, pc)
      else if g.phase.Stopped? || g.phase.Joined? then (g, Returned(Stop, Ok, false))
      else if !g.phase.Created? && !g.phase.Started? then (g, Returned(Stop, InvalidState, false))
      else (g.(phase := Stopping, owner := Some(t)), PcmStop(false))
  }

  predicate IsJoinPc(pc: Pc) {
    pc.JoinEntry? || pc.AwaitCallbacks? || pc.PcmDrain? || pc.PcmJoin? || pc.ToJoined? || pc.JoinWipe?
  }

  /** Join, apart from its use of the adapter. */
  function JoinStep(g: Shared, t: nat, pc: Pc, succeeds: bool): (Shared, Pc)
    requires IsJoinPc(pc)
  {
    match pc
    case JoinEntry =>
      if g.phase.Starting? || g.phase.Stopping? then (g, pc)
      else if g.phase.Joined? then (g, Returned(Join, Ok, false))
      else if !g.phase.Stopped? then (g, Returned(Join, InvalidState, false))
      else (g.(phase := Joining, owner := Some(t)), Lock(JoinInstance))
    case AwaitCallbacks(ok) => (g, if g.inFlight == 0 then PcmDrain(ok) else pc)
    case PcmDrain(ok) =>
      if succeeds && g.gate.stopped && g.gate.inside > 0 then (g, pc)
      else
        var gate := DrainGate(g.gate, succeeds);
        (g.(gate := gate), if gate.drained then PcmJoin(ok) else Lock(Unbind(false)))
    case PcmJoin(ok) =>
      if succeeds && g.gate.inside > 0 then (g, pc)
      else
        var gate := JoinGate(g.gate, succeeds);
        (g.(gate := gate), Lock(Unbind(ok && gate.joined)))
    case ToJoined(ok) => (g.(phase := Joined), JoinWipe(ok))
    case JoinWipe(ok) => (g.(wiped := true, owner := None), Returned(Join, if ok then Ok else Failed, true))
  }

  /** The PCM gate: refused once stopped, or when too many threads are inside. */
  function PcmStep(g: Shared, pc: Pc, succeeds: bool): (Shared, Pc)
    requires pc.PcmEnter? || pc.InPcm?
  {
    match pc
    case PcmEnter =>
      if g.gate.stopped || !succeeds then (g, Returned(Pcm, Failed, false))
      else (g.(gate := EnterGate(g.gate)), InPcm)
    case InPcm => (g.(gate := LeaveGate(g.gate)), Returned(Pcm, Ok, false))
  }

  function PcStep(g: Shared, t: nat, pc: Pc, succeeds: bool): (Shared, Pc) {
    if pc.Idle? || pc.Returned? then (g, Idle)
    else if pc.Lock? || pc.Holding? || pc.Receiving? || pc.AwaitAccess? then AdapterStep(g, t, pc, succeeds)
    else if pc.Report? || pc.InError? || pc.InOutbound? then CallbackStep(g, pc, succeeds)
    else if IsStopPc(pc) then StopStep(g, t, pc, succeeds)
    else if IsJoinPc(pc) then JoinStep(g, t, pc, succeeds)
    else PcmStep(g, pc, succeeds)
  }

  function ThreadStep(g: Shared, t: nat, thread: Thread, choice: Choice): (Shared, Thread) {
    if thread.pc.Idle? && choice.Begin? then BeginStep(g, t, thread.inAccess, choice.call)
    else
      var (g', pc) := PcStep(g, t, thread.pc, choice.Proceed? && choice.succeeds);
      (g', Thread(pc, thread.inAccess))
  }

  function Step(s: State, t: nat, choice: Choice): (s': State)
    requires t < |s.threads|
    ensures |s'.threads| == |s.threads|
  {
    var (shared, thread) := ThreadStep(s.shared, t, s.threads[t], choice);
    State(shared, s.threads[t := thread])
  }

  datatype Move = Move(thread: nat, choice: Choice)

  function Run(s: State, schedule: seq<Move>): (s': State)
    requires forall m :: m in schedule ==> m.thread < |s.threads|
    ensures |s'.threads| == |s.threads|
    decreases |schedule|
  {
    if schedule == [] then s
    else Run(Step(s, schedule[0].thread, schedule[0].choice), schedule[1..])
  }

  // ---------------------------------------------------------------- invariant

  predicate HoldsAdapter(pc: Pc) {
    pc.Holding? || pc.Receiving? || pc.AwaitAccess?
  }

  predicate For(pc: Pc, use: Use) {
    (pc.Lock? || pc.Holding?) && pc.use == use
  }

  predicate InStart(pc: Pc) {
    For(pc, StartInstance) || pc.StartDone? || ((pc.Report? || pc.InError?) && pc.origin.FromStart?) || pc.ToStopping?
  }

  predicate InStop(pc: Pc) {
    ((pc.Lock? || pc.Holding?) && pc.use.StopInstance?) || pc.PcmStop? || pc.ToStopped?
  }

  predicate InJoin(pc: Pc) {
    For(pc, JoinInstance) || pc.AwaitCallbacks? || PastCallbacks(pc)
  }

  /** The thread is in the middle of the transition through this phase. */
  predicate InSection(pc: Pc, phase: Phase) {
    || (InStart(pc) && phase.Starting?)
    || (InStop(pc) && phase.Stopping?)
    || (InJoin(pc) && phase.Joining?)
    || (pc.JoinWipe? && phase.Joined?)
  }

  predicate InTransition(pc: Pc) {
    InStart(pc) || InStop(pc) || InJoin(pc) || pc.JoinWipe?
  }

  /** The Join in progress has waited for the callbacks, the bridge, the adapter's callbacks. */
  predicate PastCallbacks(pc: Pc) {
    pc.PcmDrain? || PastDrain(pc)
  }

  predicate PastDrain(pc: Pc) {
    pc.PcmJoin? || PastPcm(pc)
  }

  predicate BeforeDrain(pc: Pc) {
    For(pc, JoinInstance) || pc.AwaitCallbacks? || pc.PcmDrain?
  }

  predicate PastPcm(pc: Pc) {
    ((pc.Lock? || pc.Holding?) && pc.use.Unbind?) || pc.AwaitAccess? || pc.ToJoined?
  }

  predicate ThreadOk(g: Shared, t: nat, thread: Thread) {
    var pc := thread.pc;
    && (HoldsAdapter(pc) <==> g.adapterMutex == Some(t))
    && (InTransition(pc) <==> g.owner == Some(t))
    && (InTransition(pc) ==> InSection(pc, g.phase))
    && (PastCallbacks(pc) ==> g.inFlight == 0)
    && (pc.AwaitAccess? || pc.ToJoined? ==> !g.bound)
    && (pc.ToJoined? ==> g.accessInFlight == 0)
    && BridgeOk(g.gate, pc)
    && ReturnOk(g, pc)
  }

  /** What a thread knows of the bridge in the middle of a transition. */
  predicate BridgeOk(gate: Gate, pc: Pc) {
    && (InTransition(pc) && !PastPcm(pc) && !pc.JoinWipe? ==> !gate.joined)
    && (InStart(pc) || pc.PcmStop? ==> !gate.stopped && !gate.refused)
    && ((InStop(pc) && !pc.PcmStop?) || BeforeDrain(pc) ==> gate.stopped == !gate.refused && !gate.drained)
    && (pc.PcmJoin? ==> gate.drained && !gate.refused)
    && (PastPcm(pc) ==> gate.joined == !gate.refused)
    && (JoinFlag(pc) ==> !gate.refused)
  }

  /** The Join in progress has reached the unbinding, all of it successful so far. */
  predicate JoinFlag(pc: Pc) {
    || ((pc.Lock? || pc.Holding?) && pc.use.Unbind? && pc.use.ok)
    || ((pc.AwaitAccess? || pc.ToJoined? || pc.JoinWipe?) && pc.ok)
  }

  /** What the result of a call tells. */
  predicate ReturnOk(g: Shared, pc: Pc) {
    && (pc.Returned? && pc.call.Join? && pc.result.Ok? ==> g.phase.Joined?)
    && (pc.Returned? && pc.call.Join? && pc.transition ==>
          g.phase.Joined? && g.wiped && (pc.result.Ok? ==> !g.gate.refused))
    && (pc.Returned? && pc.call.Start? && pc.transition && !pc.result.Ok? ==> g.startWiped)
  }

  /** The bridge is stopped, drained and joined, and nobody is inside. */
  predicate BridgeQuiet(gate: Gate) {
    gate.stopped && gate.drained && gate.joined && gate.inside == 0
  }

  /** No callback is running, and no adapter callback has or can get the session. */
  predicate CallbacksQuiet(g: Shared) {
    g.inFlight == 0 && !g.bound && g.accessInFlight == 0
  }

  predicate GateOk(gate: Gate, phase: Phase) {
    && (Rank(phase) <= Rank(Started) ==> !gate.stopped && !gate.refused)
    && (phase.Stopped? ==> gate.stopped == !gate.refused && !gate.drained)
    && (Rank(phase) <= Rank(Stopped) ==> !gate.joined)
    && (gate.drained ==> gate.stopped && gate.inside == 0)
    && (gate.joined ==> gate.drained)
    && (phase.Joined? ==> gate.joined == !gate.refused)
  }

  predicate SharedOk(g: Shared) {
    && (g.phase.Created? || g.phase.Started? || g.phase.Stopped? ==> g.owner == None)
    && GateOk(g.gate, g.phase)
    && (g.phase.Joined? ==> CallbacksQuiet(g))
    && (g.wiped <==> g.startWiped || (g.phase.Joined? && g.owner == None))
  }

  datatype Role = InCallback | InBridge | InAccess

  predicate Plays(thread: Thread, role: Role) {
    match role
    case InCallback => InCallbackPc(thread.pc)
    case InBridge => thread.pc.InPcm?
    case InAccess => thread.inAccess
  }

  function Counter(g: Shared, role: Role): nat {
    match role
    case InCallback => g.inFlight
    case InBridge => g.gate.inside
    case InAccess => g.accessInFlight
  }

  ghost function Players(threads: seq<Thread>, role: Role): set<nat> {
    set t: nat | t < |threads| && Plays(threads[t], role)
  }

  ghost predicate CountsOk(s: State) {
    forall role: Role :: Counter(s.shared, role) == |Players(s.threads, role)|
  }

  /** A thread that is inside is counted. */
  predicate RoleOk(g: Shared, thread: Thread) {
    && (InCallbackPc(thread.pc) ==> g.inFlight > 0)
    && (thread.pc.InPcm? ==> g.gate.inside > 0)
    && (thread.inAccess ==> g.accessInFlight > 0)
  }

  ghost predicate Inv(s: State) {
    && CountsOk(s) && SharedOk(s.shared)
    && (s.shared.owner.Some? ==> s.shared.owner.value < |s.threads|)
    && forall t :: 0 <= t < |s.threads| ==> ThreadOk(s.shared, t, s.threads[t])
  }

  // ------------------------------------------------------------------- steps

  lemma PlayersUpdate(threads: seq<Thread>, t: nat, thread: Thread, role: Role)
    requires t < |threads|
    ensures |Players(threads[t := thread], role)| + (if Plays(threads[t], role) then 1 else 0) ==
            |Players(threads, role)| + (if Plays(thread, role) then 1 else 0)
  {
    hide Plays;
    var before, after := Players(threads, role), Players(threads[t := thread], role);
    assert before - {t} == after - {t};
    FiniteSets.AgreeExceptOne(before, after, t);
  }

  lemma Counted(s: State, t: nat)
    requires CountsOk(s) && t < |s.threads|
    ensures RoleOk(s.shared, s.threads[t])
  {
    forall role: Role | Plays(s.threads[t], role) ensures Counter(s.shared, role) > 0 {
      assert t in Players(s.threads, role);
    }
    assert Plays(s.threads[t], InCallback) ==> Counter(s.shared, InCallback) > 0;
    assert Plays(s.threads[t], InBridge) ==> Counter(s.shared, InBridge) > 0;
    assert Plays(s.threads[t], InAccess) ==> Counter(s.shared, InAccess) > 0;
  }

  function One(b: bool): nat {
    if b then 1 else 0
  }

  predicate InCallbackPc(pc: Pc) {
    pc.InError? || pc.InOutbound?
  }

  /** The counters move by exactly what the step does to the thread's place in them. */
  predicate Balanced(g: Shared, thread: Thread, g': Shared, thread': Thread) {
    && g'.inFlight + One(InCallbackPc(thread.pc)) == g.inFlight + One(InCallbackPc(thread'.pc))
    && g'.gate.inside + One(thread.pc.InPcm?) == g.gate.inside + One(thread'.pc.InPcm?)
    && g'.accessInFlight + One(thread.inAccess) == g.accessInFlight + One(thread'.inAccess)
  }

  predicate IsAdapterPc(pc: Pc) {
    pc.Lock? || pc.Holding? || pc.Receiving? || pc.AwaitAccess?
  }

  predicate IsCallbackPc(pc: Pc) {
    pc.Report? || InCallbackPc(pc)
  }

  lemma BeginBalances(g: Shared, t: nat, inAccess: bool, call: Call)
    requires RoleOk(g, Thread(Idle, inAccess))
    ensures var (g', thread') := BeginStep(g, t, inAccess, call); Balanced(g, Thread(Idle, inAccess), g', thread')
  {
  }

  lemma AdapterBalances(g: Shared, t: nat, thread: Thread, succeeds: bool)
    requires IsAdapterPc(thread.pc)
    ensures var (g', pc) := AdapterStep(g, t, thread.pc, succeeds);
            Balanced(g, thread, g', Thread(pc, thread.inAccess))
  {
  }

  lemma StopBalances(g: Shared, t: nat, thread: Thread, succeeds: bool)
    requires IsStopPc(thread.pc)
    ensures var (g', pc) := StopStep(g, t, thread.pc, succeeds); Balanced(g, thread, g', Thread(pc, thread.inAccess))
  {
  }

  lemma JoinBalances(g: Shared, t: nat, thread: Thread, succeeds: bool)
    requires IsJoinPc(thread.pc)
    ensures var (g', pc) := JoinStep(g, t, thread.pc, succeeds); Balanced(g, thread, g', Thread(pc, thread.inAccess))
  {
  }

  lemma CallbackBalances(g: Shared, thread: Thread, succeeds: bool)
    requires RoleOk(g, thread) && (IsCallbackPc(thread.pc))
    ensures var (g', pc) := CallbackStep(g, thread.pc, succeeds);
            Balanced(g, thread, g', Thread(pc, thread.inAccess))
  {
  }

  lemma PcmBalances(g: Shared, thread: Thread, succeeds: bool)
    requires RoleOk(g, thread) && (thread.pc.PcmEnter? || thread.pc.InPcm?)
    ensures var (g', pc) := PcmStep(g, thread.pc, succeeds); Balanced(g, thread, g', Thread(pc, thread.inAccess))
  {
  }

  lemma StepBalances(g: Shared, t: nat, thread: Thread, choice: Choice)
    requires RoleOk(g, thread)
    ensures var (g', thread') := ThreadStep(g, t, thread, choice); Balanced(g, thread, g', thread')
  {
    hide BeginStep, AdapterStep, CallbackStep, StopStep, JoinStep, PcmStep;
    var pc, succeeds := thread.pc, choice.Proceed? && choice.succeeds;
    if pc.Idle? && choice.Begin? {
      BeginBalances(g, t, thread.inAccess, choice.call);
    } else if IsAdapterPc(pc) {
      AdapterBalances(g, t, thread, succeeds);
    } else if IsCallbackPc(pc) {
      CallbackBalances(g, thread, succeeds);
    } else if IsStopPc(pc) {
      StopBalances(g, t, thread, succeeds);
    } else if IsJoinPc(pc) {
      JoinBalances(g, t, thread, succeeds);
    } else if pc.PcmEnter? || pc.InPcm? {
      PcmBalances(g, thread, succeeds);
    }
  }

  // ------------------------------------------------- what a step keeps

  /** The step leaves the shared state and the moving thread in order. */
  ghost predicate Keeps(t: nat, g': Shared, thread': Thread) {
    SharedOk(g') && ThreadOk(g', t, thread')
  }

  lemma CallKeeps(g: Shared, t: nat, inAccess: bool, call: Call)
    requires ThreadOk(g, t, Thread(Idle, inAccess)) && SharedOk(g) && FromOutside(call)
    ensures var (g', pc) := CallStep(g, t, inAccess, call); Keeps(t, g', Thread(pc, inAccess))
  {
    if call.Start? {
      StartCallKeeps(g, t, inAccess);
    }
  }

  lemma StartCallKeeps(g: Shared, t: nat, inAccess: bool)
    requires ThreadOk(g, t, Thread(Idle, inAccess)) && SharedOk(g)
    ensures var (g', pc) := CallStep(g, t, inAccess, Start); Keeps(t, g', Thread(pc, inAccess))
  {
  }

  lemma AccessKeeps(g: Shared, t: nat, inAccess: bool, call: Call)
    requires ThreadOk(g, t, Thread(Idle, inAccess)) && SharedOk(g) && !FromOutside(call)
    requires RoleOk(g, Thread(Idle, inAccess))
    ensures var (g', thread') := AccessStep(g, inAccess, call); Keeps(t, g', thread')
  {
  }

  lemma BeginKeeps(g: Shared, t: nat, inAccess: bool, call: Call)
    requires ThreadOk(g, t, Thread(Idle, inAccess)) && SharedOk(g) && RoleOk(g, Thread(Idle, inAccess))
    ensures var (g', thread') := BeginStep(g, t, inAccess, call); Keeps(t, g', thread')
  {
    hide CallStep, AccessStep;
    if FromOutside(call) {
      CallKeeps(g, t, inAccess, call);
    } else {
      AccessKeeps(g, t, inAccess, call);
    }
  }

  lemma LockKeeps(g: Shared, t: nat, thread: Thread, succeeds: bool)
    requires ThreadOk(g, t, thread) && SharedOk(g) && thread.pc.Lock?
    ensures var (g', pc) := AdapterStep(g, t, thread.pc, succeeds); Keeps(t, g', Thread(pc, thread.inAccess))
  {
  }

  lemma HoldingKeeps(g: Shared, t: nat, thread: Thread, succeeds: bool)
    requires ThreadOk(g, t, thread) && SharedOk(g) && thread.pc.Holding?
    ensures var (g', pc) := AdapterStep(g, t, thread.pc, succeeds); Keeps(t, g', Thread(pc, thread.inAccess))
  {
    if thread.pc.use.Unbind? {
      UnbindKeeps(g, t, thread, succeeds);
    } else if thread.pc.use.ReceiveData? {
      ReceiveKeeps(g, t, thread, succeeds);
    }
  }

  lemma UnbindKeeps(g: Shared, t: nat, thread: Thread, succeeds: bool)
    requires ThreadOk(g, t, thread) && SharedOk(g) && thread.pc.Holding? && thread.pc.use.Unbind?
    ensures var (g', pc) := AdapterStep(g, t, thread.pc, succeeds); Keeps(t, g', Thread(pc, thread.inAccess))
  {
  }

  lemma ReceiveKeeps(g: Shared, t: nat, thread: Thread, succeeds: bool)
    requires ThreadOk(g, t, thread) && SharedOk(g) && thread.pc.Holding? && thread.pc.use.ReceiveData?
    ensures var (g', pc) := AdapterStep(g, t, thread.pc, succeeds); Keeps(t, g', Thread(pc, thread.inAccess))
  {
  }

  lemma AdapterKeeps(g: Shared, t: nat, thread: Thread, succeeds: bool)
    requires ThreadOk(g, t, thread) && SharedOk(g) && IsAdapterPc(thread.pc)
    ensures var (g', pc) := AdapterStep(g, t, thread.pc, succeeds); Keeps(t, g', Thread(pc, thread.inAccess))
  {
    if thread.pc.Lock? {
      LockKeeps(g, t, thread, succeeds);
    } else if thread.pc.Holding? {
      HoldingKeeps(g, t, thread, succeeds);
    }
  }

  lemma StopKeeps(g: Shared, t: nat, thread: Thread, succeeds: bool)
    requires ThreadOk(g, t, thread) && SharedOk(g) && IsStopPc(thread.pc)
    ensures var (g', pc) := StopStep(g, t, thread.pc, succeeds); Keeps(t, g', Thread(pc, thread.inAccess))
  {
    if thread.pc.StopEntry? {
      StopEntryKeeps(g, t, thread, succeeds);
    }
  }

  lemma StopEntryKeeps(g: Shared, t: nat, thread: Thread, succeeds: bool)
    requires ThreadOk(g, t, thread) && SharedOk(g) && thread.pc.StopEntry?
    ensures var (g', pc) := StopStep(g, t, thread.pc, succeeds); Keeps(t, g', Thread(pc, thread.inAccess))
  {
  }

  lemma JoinKeeps(g: Shared, t: nat, thread: Thread, succeeds: bool)
    requires ThreadOk(g, t, thread) && SharedOk(g) && IsJoinPc(thread.pc)
    ensures var (g', pc) := JoinStep(g, t, thread.pc, succeeds); Keeps(t, g', Thread(pc, thread.inAccess))
  {
    if thread.pc.JoinEntry? {
      JoinEntryKeeps(g, t, thread, succeeds);
    } else if thread.pc.PcmDrain? {
      DrainKeeps(g, t, thread, succeeds);
    } else if thread.pc.PcmJoin? {
      BridgeJoinKeeps(g, t, thread, succeeds);
    }
  }

  lemma JoinEntryKeeps(g: Shared, t: nat, thread: Thread, succeeds: bool)
    requires ThreadOk(g, t, thread) && SharedOk(g) && thread.pc.JoinEntry?
    ensures var (g', pc) := JoinStep(g, t, thread.pc, succeeds); Keeps(t, g', Thread(pc, thread.inAccess))
  {
  }

  lemma DrainKeeps(g: Shared, t: nat, thread: Thread, succeeds: bool)
    requires ThreadOk(g, t, thread) && SharedOk(g) && thread.pc.PcmDrain?
    ensures var (g', pc) := JoinStep(g, t, thread.pc, succeeds); Keeps(t, g', Thread(pc, thread.inAccess))
  {
  }

  lemma BridgeJoinKeeps(g: Shared, t: nat, thread: Thread, succeeds: bool)
    requires ThreadOk(g, t, thread) && SharedOk(g) && thread.pc.PcmJoin?
    ensures var (g', pc) := JoinStep(g, t, thread.pc, succeeds); Keeps(t, g', Thread(pc, thread.inAccess))
  {
  }

  lemma CallbackKeeps(g: Shared, t: nat, thread: Thread, succeeds: bool)
    requires ThreadOk(g, t, thread) && SharedOk(g) && IsCallbackPc(thread.pc)
    ensures var (g', pc) := CallbackStep(g, thread.pc, succeeds); Keeps(t, g', Thread(pc, thread.inAccess))
  {
  }

  lemma PcmKeeps(g: Shared, t: nat, thread: Thread, succeeds: bool)
    requires ThreadOk(g, t, thread) && SharedOk(g) && (thread.pc.PcmEnter? || thread.pc.InPcm?)
    ensures var (g', pc) := PcmStep(g, thread.pc, succeeds); Keeps(t, g', Thread(pc, thread.inAccess))
  {
  }

  lemma StepKeeps(g: Shared, t: nat, thread: Thread, choice: Choice)
    requires ThreadOk(g, t, thread) && SharedOk(g) && RoleOk(g, thread)
    ensures var (g', thread') := ThreadStep(g, t, thread, choice); Keeps(t, g', thread')
  {
    hide BeginStep, AdapterStep, CallbackStep, StopStep, JoinStep, PcmStep;
    var pc, succeeds := thread.pc, choice.Proceed? && choice.succeeds;
    if pc.Idle? && choice.Begin? {
      BeginKeeps(g, t, thread.inAccess, choice.call);
    } else if IsAdapterPc(pc) {
      AdapterKeeps(g, t, thread, succeeds);
    } else if IsCallbackPc(pc) {
      CallbackKeeps(g, t, thread, succeeds);
    } else if IsStopPc(pc) {
      StopKeeps(g, t, thread, succeeds);
    } else if IsJoinPc(pc) {
      JoinKeeps(g, t, thread, succeeds);
    } else if pc.PcmEnter? || pc.InPcm? {
      PcmKeeps(g, t, thread, succeeds);
    }
  }

  /** How far the session's life has come; no step takes it back. */
  function Rank(phase: Phase): nat {
    match phase
    case Created => 0
    case Starting => 1
    case Started => 2
    case Stopping => 3
    case Stopped => 4
    case Joining => 5
    case Joined => 6
  }

  /** More happens to the bridge than a thread going in or out. */
  predicate GateMoves(gate: Gate, gate': Gate) {
    gate.(inside := 0) != gate'.(inside := 0)
  }

  /** What a step of another thread `t` may do to the shared state, as seen by the threads that did not move. */
  ghost predicate Rely(g: Shared, t: nat, g': Shared) {
    && Rank(g.phase) <= Rank(g'.phase)
    && (g'.phase != g.phase ==> g'.owner == Some(t) || g.owner == Some(t))
    && (g'.owner == g.owner || (g.owner == None && g'.owner == Some(t)) || (g.owner == Some(t) && g'.owner == None))
    && (g'.adapterMutex == g.adapterMutex || (g.adapterMutex == None && g'.adapterMutex == Some(t)) ||
        (g.adapterMutex == Some(t) && g'.adapterMutex == None))
    && (g.wiped ==> g'.wiped) && (g.startWiped ==> g'.startWiped) && (!g.bound ==> !g'.bound)
    && (GateMoves(g.gate, g'.gate) ==> g.owner == Some(t) && (g.phase.Stopping? || g.phase.Joining?))
    && (Rank(g.phase) >= 3 ==> g'.inFlight <= g.inFlight)
    && (!g.bound ==> g'.accessInFlight <= g.accessInFlight)
  }

  lemma CallRely(g: Shared, t: nat, inAccess: bool, call: Call)
    requires ThreadOk(g, t, Thread(Idle, inAccess)) && SharedOk(g) && FromOutside(call)
    ensures Rely(g, t, CallStep(g, t, inAccess, call).0)
  {
  }

  lemma AccessRely(g: Shared, t: nat, inAccess: bool, call: Call)
    requires !FromOutside(call)
    ensures Rely(g, t, AccessStep(g, inAccess, call).0)
  {
  }

  lemma BeginRely(g: Shared, t: nat, inAccess: bool, call: Call)
    requires ThreadOk(g, t, Thread(Idle, inAccess)) && SharedOk(g)
    ensures Rely(g, t, BeginStep(g, t, inAccess, call).0)
  {
    hide CallStep, AccessStep;
    if FromOutside(call) {
      CallRely(g, t, inAccess, call);
    } else {
      AccessRely(g, t, inAccess, call);
    }
  }

  lemma StopRely(g: Shared, t: nat, thread: Thread, succeeds: bool)
    requires ThreadOk(g, t, thread) && SharedOk(g) && IsStopPc(thread.pc)
    ensures Rely(g, t, StopStep(g, t, thread.pc, succeeds).0)
  {
  }

  lemma JoinRely(g: Shared, t: nat, thread: Thread, succeeds: bool)
    requires ThreadOk(g, t, thread) && SharedOk(g) && IsJoinPc(thread.pc)
    ensures Rely(g, t, JoinStep(g, t, thread.pc, succeeds).0)
  {
  }

  lemma AdapterRely(g: Shared, t: nat, thread: Thread, succeeds: bool)
    requires ThreadOk(g, t, thread) && SharedOk(g) && IsAdapterPc(thread.pc)
    ensures Rely(g, t, AdapterStep(g, t, thread.pc, succeeds).0)
  {
  }

  lemma CallbackRely(g: Shared, t: nat, thread: Thread, succeeds: bool)
    requires ThreadOk(g, t, thread) && SharedOk(g) && IsCallbackPc(thread.pc)
    ensures Rely(g, t, CallbackStep(g, thread.pc, succeeds).0)
  {
  }

  lemma PcmRely(g: Shared, t: nat, thread: Thread, succeeds: bool)
    requires thread.pc.PcmEnter? || thread.pc.InPcm?
    ensures Rely(g, t, PcmStep(g, thread.pc, succeeds).0)
  {
  }

  lemma StepRely(g: Shared, t: nat, thread: Thread, choice: Choice)
    requires ThreadOk(g, t, thread) && SharedOk(g)
    ensures Rely(g, t, ThreadStep(g, t, thread, choice).0)
  {
    hide BeginStep, AdapterStep, CallbackStep, StopStep, JoinStep, PcmStep;
    var pc := thread.pc;
    if pc.Idle? && choice.Begin? {
      BeginRely(g, t, thread.inAccess, choice.call);
    } else if IsAdapterPc(pc) {
      AdapterRely(g, t, thread, choice.Proceed? && choice.succeeds);
    } else if IsStopPc(pc) {
      StopRely(g, t, thread, choice.Proceed? && choice.succeeds);
    } else if IsJoinPc(pc) {
      JoinRely(g, t, thread, choice.Proceed? && choice.succeeds);
    } else if IsCallbackPc(pc) {
      CallbackRely(g, t, thread, choice.Proceed? && choice.succeeds);
    } else if pc.PcmEnter? || pc.InPcm? {
      PcmRely(g, t, thread, choice.Proceed? && choice.succeeds);
    }
  }

  lemma OthersStay(g: Shared, t: nat, g': Shared, u: nat, other: Thread)
    requires Rely(g, t, g') && u != t && ThreadOk(g, u, other)
    ensures ThreadOk(g', u, other)
  {
  }

  lemma StepInv(s: State, t: nat, choice: Choice)
    requires Inv(s) && t < |s.threads|
    ensures Inv(Step(s, t, choice))
  {
    var g, thread := s.shared, s.threads[t];
    var (g', thread') := ThreadStep(g, t, thread, choice);
    var threads' := s.threads[t := thread'];
    Counted(s, t);
    StepBalances(g, t, thread, choice);
    StepKeeps(g, t, thread, choice);
    StepRely(g, t, thread, choice);
    forall role: Role ensures Counter(g', role) == |Players(threads', role)| {
      PlayersUpdate(s.threads, t, thread', role);
      assert Counter(g, role) == |Players(s.threads, role)|;
    }
    forall u | 0 <= u < |threads'| ensures ThreadOk(g', u, threads'[u]) {
      if u != t {
        OthersStay(g, t, g', u, s.threads[u]);
      }
    }
  }

  lemma {:induction false} RunInv(s: State, schedule: seq<Move>)
    requires Inv(s)
    requires forall m :: m in schedule ==> m.thread < |s.threads|
    ensures Inv(Run(s, schedule))
    ensures Rank(s.shared.phase) <= Rank(Run(s, schedule).shared.phase)
    ensures s.shared.wiped ==> Run(s, schedule).shared.wiped
    ensures s.shared.phase.Joined? ==> Run(s, schedule).shared.gate.refused == s.shared.gate.refused
    decreases |schedule|
  {
    if schedule != [] {
      var t := schedule[0].thread;
      StepInv(s, t, schedule[0].choice);
      StepRely(s.shared, t, s.threads[t], schedule[0].choice);
      RunInv(Step(s, t, schedule[0].choice), schedule[1..]);
    }
  }

  lemma InitialInv(s: State)
    requires IsInitial(s)
    ensures Inv(s)
  {
    assert forall role: Role :: Players(s.threads, role) == {};
  }

  // ---------------------------------------------------------------- theorems

  /** A state some schedule leads to. */
  ghost predicate Reachable(s: State) {
    exists start: State, schedule: seq<Move> :: IsRun(start, schedule, s)
  }

  /** The state of a new session, with or without its callbacks, and any number of threads. */
  ghost predicate IsInitial(s: State) {
    s == Initial(|s.threads|, s.shared.callbacks)
  }

  ghost predicate IsRun(start: State, schedule: seq<Move>, s: State) {
    && IsInitial(start)
    && (forall m :: m in schedule ==> m.thread < |start.threads|)
    && Run(start, schedule) == s
  }

  lemma ReachableInv(s: State)
    requires Reachable(s)
    ensures Inv(s)
  {
    var start, schedule :| IsRun(start, schedule, s);
    InitialInv(start);
    RunInv(start, schedule);
  }

  /**
    The Join that performed the transition has returned: no callback is running, the parameters are
    wiped, and no adapter callback holds the session. The bridge is stopped, drained and joined, with
    nobody inside, exactly if it refused none of its operations, which a Join that returns Ok tells.
    All of it is still so after any further run.
   */
  lemma JoinQuiesces(s: State, t: nat, schedule: seq<Move>)
    requires Reachable(s) && t < |s.threads|
    requires s.threads[t].pc.Returned? && s.threads[t].pc.call == Join && s.threads[t].pc.transition
    requires forall m :: m in schedule ==> m.thread < |s.threads|
    ensures var later := Run(s, schedule);
            && later.shared.phase.Joined? && later.shared.wiped && CallbacksQuiet(later.shared)
            && (BridgeQuiet(later.shared.gate) <==> !s.shared.gate.refused)
            && (s.threads[t].pc.result == Ok ==> BridgeQuiet(later.shared.gate))
            && forall u :: 0 <= u < |later.threads| ==>
                 !InCallbackPc(later.threads[u].pc) && !later.threads[u].inAccess &&
                 (!s.shared.gate.refused ==> !later.threads[u].pc.InPcm?)
  {
    ReachableInv(s);
    assert ThreadOk(s.shared, t, s.threads[t]);
    RunInv(s, schedule);
    var later := Run(s, schedule);
    forall u | 0 <= u < |later.threads|
      ensures !InCallbackPc(later.threads[u].pc) && !later.threads[u].inAccess &&
              (!s.shared.gate.refused ==> !later.threads[u].pc.InPcm?)
    {
      Counted(later, u);
    }
  }

  /** Once the phase has left Starting and Started, no step of any later run admits a callback. */
  lemma NothingAdmittedAfterStop(s: State, schedule: seq<Move>, t: nat, choice: Choice)
    requires Reachable(s) && Rank(s.shared.phase) >= Rank(Stopping) && t < |s.threads|
    requires forall m :: m in schedule ==> m.thread < |s.threads|
    ensures var later := Run(s, schedule); Step(later, t, choice).shared.inFlight <= later.shared.inFlight
  {
    ReachableInv(s);
    RunInv(s, schedule);
    var later := Run(s, schedule);
    StepRely(later.shared, t, later.threads[t], choice);
  }

  /** The counters are exactly the numbers of threads inside. */
  lemma CountersCountThreads(s: State)
    requires Reachable(s)
    ensures s.shared.inFlight == |set t: nat | t < |s.threads| && InCallbackPc(s.threads[t].pc)|
    ensures s.shared.accessInFlight == |set t: nat | t < |s.threads| && s.threads[t].inAccess|
  {
    ReachableInv(s);
    assert Counter(s.shared, InCallback) == |Players(s.threads, InCallback)|;
    assert Counter(s.shared, InAccess) == |Players(s.threads, InAccess)|;
    assert Players(s.threads, InCallback) == set t: nat | t < |s.threads| && InCallbackPc(s.threads[t].pc);
    assert Players(s.threads, InAccess) == set t: nat | t < |s.threads| && s.threads[t].inAccess;
  }

  /** Start, Stop and Join never overlap: at most one thread is inside a transition. */
  lemma OneTransitionAtATime(s: State, t: nat, u: nat)
    requires Reachable(s) && t < |s.threads| && u < |s.threads|
    requires InTransition(s.threads[t].pc) && InTransition(s.threads[u].pc)
    ensures t == u && InSection(s.threads[t].pc, s.shared.phase)
  {
    ReachableInv(s);
    assert ThreadOk(s.shared, t, s.threads[t]) && ThreadOk(s.shared, u, s.threads[u]);
  }

  /**
    In a joined session the callbacks are quiet; the bridge is quiet exactly if it refused none of its
    operations; the parameters are wiped exactly if a failed Start wiped them or no Join is about to.
   */
  lemma JoinedIsQuiet(s: State)
    requires Reachable(s) && s.shared.phase.Joined?
    ensures CallbacksQuiet(s.shared)
    ensures BridgeQuiet(s.shared.gate) <==> !s.shared.gate.refused
    ensures s.shared.wiped <==>
              s.shared.startWiped || forall t :: 0 <= t < |s.threads| ==> !s.threads[t].pc.JoinWipe?
  {
    ReachableInv(s);
    if s.shared.owner.Some? {
      var t := s.shared.owner.value;
      assert ThreadOk(s.shared, t, s.threads[t]);
    } else {
      forall t | 0 <= t < |s.threads| ensures !s.threads[t].pc.JoinWipe? {
        assert ThreadOk(s.shared, t, s.threads[t]);
      }
    }
  }

  /** When a second Join has returned Ok, the parameters are wiped exactly if a failed Start wiped them or the first Join has. */
  lemma SecondJoinAndWipe(s: State, t: nat)
    requires Reachable(s) && t < |s.threads| && s.threads[t].pc == Returned(Join, Ok, false)
    ensures s.shared.phase.Joined?
    ensures s.shared.wiped <==>
              s.shared.startWiped || forall u :: 0 <= u < |s.threads| ==> !s.threads[u].pc.JoinWipe?
  {
    ReachableInv(s);
    assert ThreadOk(s.shared, t, s.threads[t]);
    JoinedIsQuiet(s);
  }

  /** A Start that has failed and returned has wiped the parameters. */
  lemma FailedStartWipes(s: State, t: nat)
    requires Reachable(s) && t < |s.threads| && s.threads[t].pc == Returned(Start, Failed, true)
    ensures s.shared.wiped && s.shared.startWiped
  {
    ReachableInv(s);
    assert ThreadOk(s.shared, t, s.threads[t]);
  }

  /**
    While a callback is running no Join gets past it or returns Ok, whatever the others do. In particular a Join
    called from inside the callback is refused or waits for ever.
   */
  lemma {:induction false} CallbackBlocksJoin(s: State, u: nat, schedule: seq<Move>)
    requires Inv(s) && u < |s.threads| && InCallbackPc(s.threads[u].pc)
    requires forall m :: m in schedule ==> m.thread < |s.threads| && m.thread != u
    ensures var later := Run(s, schedule);
            && !later.shared.phase.Joined?
            && forall t :: 0 <= t < |later.threads| ==>
                 !PastCallbacks(later.threads[t].pc) &&
                 !(later.threads[t].pc.Returned? && later.threads[t].pc.call.Join? && later.threads[t].pc.result.Ok?)
    decreases |schedule|
  {
    if schedule == [] {
      Counted(s, u);
      forall t | 0 <= t < |s.threads| ensures ThreadOk(s.shared, t, s.threads[t]) {
      }
    } else {
      StepInv(s, schedule[0].thread, schedule[0].choice);
      CallbackBlocksJoin(Step(s, schedule[0].thread, schedule[0].choice), u, schedule[1..]);
    }
  }

  // ------------------------------------------------------ an early second Join

  lemma {:induction false} RunThenStep(s: State, schedule: seq<Move>, m: Move)
    requires forall n :: n in schedule + [m] ==> n.thread < |s.threads|
    ensures forall n :: n in schedule ==> n.thread < |s.threads|
    ensures m.thread < |s.threads|
    ensures Run(s, schedule + [m]) == Step(Run(s, schedule), m.thread, m.choice)
    decreases |schedule|
  {
    assert (schedule + [m])[|schedule|] == m;
    forall n | n in schedule ensures n.thread < |s.threads| { assert n in schedule + [m]; }
    if schedule != [] {
      assert (schedule + [m])[0] == schedule[0] && (schedule + [m])[1..] == schedule[1..] + [m];
      RunThenStep(Step(s, schedule[0].thread, schedule[0].choice), schedule[1..], m);
    } else {
      assert [m][1..] == [];
    }
  }

  lemma ReachStep(s: State, t: nat, choice: Choice)
    requires Reachable(s) && t < |s.threads|
    ensures Reachable(Step(s, t, choice))
  {
    var start, schedule :| IsRun(start, schedule, s);
    var m := Move(t, choice);
    forall n | n in schedule + [m] ensures n.thread < |start.threads| { }
    RunThenStep(start, schedule, m);
    assert IsRun(start, schedule + [m], Step(s, t, choice));
  }

  /** Two threads, the second of them idle; the first moves. */
  function Pair(g: Shared, pc: Pc): State {
    State(g, [Thread(pc, false), Thread(Idle, false)])
  }

  lemma ReachBy(g: Shared, pc: Pc, choice: Choice, g': Shared, pc': Pc)
    requires Reachable(Pair(g, pc)) && ThreadStep(g, 0, Thread(pc, false), choice) == (g', Thread(pc', false))
    ensures Reachable(Pair(g', pc'))
  {
    hide Reachable, ThreadStep;
    ReachStep(Pair(g, pc), 0, choice);
    assert Step(Pair(g, pc), 0, choice) == Pair(g', pc');
  }

  lemma ReachCall(g: Shared, call: Call, g': Shared, pc': Pc)
    requires Reachable(Pair(g, Idle)) && FromOutside(call) && CallStep(g, 0, false, call) == (g', pc')
    ensures Reachable(Pair(g', pc'))
  {
    hide Reachable;
    ReachBy(g, Idle, Begin(call), g', pc');
  }

  lemma ReachStop(g: Shared, pc: Pc, g': Shared, pc': Pc)
    requires Reachable(Pair(g, pc)) && IsStopPc(pc) && StopStep(g, 0, pc, true) == (g', pc')
    ensures Reachable(Pair(g', pc'))
  {
    hide Reachable, StopStep;
    ReachBy(g, pc, Proceed(true), g', pc');
  }

  lemma ReachJoin(g: Shared, pc: Pc, g': Shared, pc': Pc)
    requires Reachable(Pair(g, pc)) && IsJoinPc(pc) && JoinStep(g, 0, pc, true) == (g', pc')
    ensures Reachable(Pair(g', pc'))
  {
    hide Reachable, JoinStep;
    ReachBy(g, pc, Proceed(true), g', pc');
  }

  /** Taking the adapter mutex, and the successful adapter call under it. */
  lemma ReachAdapter(g: Shared, use: Use, g': Shared, pc': Pc)
    requires Reachable(Pair(g, Lock(use))) && g.adapterMutex == None
    requires AdapterStep(g.(adapterMutex := Some(0)), 0, Holding(use), true) == (g', pc')
    ensures Reachable(Pair(g', pc'))
  {
    hide Reachable;
    ReachBy(g, Lock(use), Proceed(true), g.(adapterMutex := Some(0)), Holding(use));
    ReachBy(g.(adapterMutex := Some(0)), Holding(use), Proceed(true), g', pc');
  }

  lemma ReachStopping() returns (g: Shared)
    ensures g == Shared(Stopping, Some(0), None, Callbacks(true, true), 0, Gate(true, false, false, 0, false), true, 0, false, false)
    ensures Reachable(Pair(g, Lock(StopInstance(false, true))))
  {
    var g0 := Initial(2, Callbacks(true, true)).shared;
    assert Reachable(Pair(g0, Idle)) by {
      assert Initial(2, Callbacks(true, true)) == Pair(g0, Idle);
      assert IsRun(Pair(g0, Idle), [], Pair(g0, Idle));
    }
    hide Reachable;
    var g1 := g0.(phase := Stopping, owner := Some(0));
    g := g1.(gate := Gate(true, false, false, 0, false));
    ReachCall(g0, Stop, g0, StopEntry);
    ReachStop(g0, StopEntry, g1, PcmStop(false));
    ReachStop(g1, PcmStop(false), g, Lock(StopInstance(false, true)));
  }

  lemma ReachStopped() returns (g: Shared)
    ensures g == Shared(Stopped, None, None, Callbacks(true, true), 0, Gate(true, false, false, 0, false), true, 0, false, false)
    ensures Reachable(Pair(g, Idle))
  {
    hide Reachable;
    var g2 := ReachStopping();
    g := g2.(phase := Stopped, owner := None);
    ReachAdapter(g2, StopInstance(false, true), g2, ToStopped(false, true));
    ReachStop(g2, ToStopped(false, true), g, Returned(Stop, Ok, true));
    ReachBy(g, Returned(Stop, Ok, true), Proceed(true), g, Idle);
  }

  lemma ReachDrained() returns (g: Shared)
    ensures g == Shared(Joining, Some(0), None, Callbacks(true, true), 0, Gate(true, true, true, 0, false), true, 0, false, false)
    ensures Reachable(Pair(g, Lock(Unbind(true))))
  {
    hide Reachable;
    var g0 := ReachStopped();
    var g1 := g0.(phase := Joining, owner := Some(0));
    var g3 := g1.(gate := Gate(true, true, false, 0, false));
    g := g1.(gate := Gate(true, true, true, 0, false));
    ReachCall(g0, Join, g0, JoinEntry);
    ReachJoin(g0, JoinEntry, g1, Lock(JoinInstance));
    ReachAdapter(g1, JoinInstance, g1, AwaitCallbacks(true));
    ReachJoin(g1, AwaitCallbacks(true), g1, PcmDrain(true));
    ReachJoin(g1, PcmDrain(true), g3, PcmJoin(true));
    ReachJoin(g3, PcmJoin(true), g, Lock(Unbind(true)));
  }

  lemma ReachJoined() returns (g: Shared)
    ensures g.phase.Joined? && !g.wiped && Reachable(Pair(g, JoinWipe(true)))
  {
    hide Reachable;
    var g0 := ReachDrained();
    var g1 := g0.(bound := false, adapterMutex := Some(0));
    var g2 := g1.(adapterMutex := None);
    g := g2.(phase := Joined);
    ReachAdapter(g0, Unbind(true), g1, AwaitAccess(true));
    ReachBy(g1, AwaitAccess(true), Proceed(true), g2, ToJoined(true));
    ReachJoin(g2, ToJoined(true), g, JoinWipe(true));
  }

  /** A second Join can return Ok while the parameters are not wiped yet: the phase becomes Joined first. */
  lemma SecondJoinMayPrecedeWipe() returns (s: State)
    ensures Reachable(s) && |s.threads| == 2
    ensures s.threads[1].pc == Returned(Join, Ok, false) && !s.shared.wiped
  {
    hide Reachable;
    var g := ReachJoined();
    var s1 := Pair(g, JoinWipe(true));
    ReachStep(s1, 1, Begin(Join));
    var s2 := Step(s1, 1, Begin(Join));
    ReachStep(s2, 1, Proceed(true));
    s := Step(s2, 1, Proceed(true));
  }
}
