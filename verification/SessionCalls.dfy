/**
  The results of the calls of a session, as an observer sees them who knows the phase in which a call was
  decided and what the adapter and the bridge answered to it, under every interleaving; and the calls of a
  session that nobody disturbs, from every phase.
 */
module SessionCalls {
  import opened SessionLifecycle

  /**
    The call a thread is in: the phase when it was last at a point where the phase decides, and the answers
    it got since from the adapter and the bridge.
   */
  datatype Record = Record(call: Option<Call>, phase: Phase, answers: seq<bool>)

  /** `startAnswer`: what the adapter answered when it was started. */
  datatype Whole = Whole(session: State, records: seq<Record>, startAnswer: Option<bool>)

  const NOTHING: Record := Record(None, Created, [])

  function Beginning(threadCount: nat, callbacks: Callbacks): Whole {
    Whole(Initial(threadCount, callbacks), seq(threadCount, _ => NOTHING), None)
  }

  // ----------------------------------------------------------------- observing

  /** Where Stop, Join and ReceiveSignaling look at the phase; the other calls look at it as they begin. */
  predicate LooksAtPhase(pc: Pc) {
    pc.StopEntry? || pc.JoinEntry? || pc == Holding(ReceiveData)
  }

  predicate CallsAdapter(pc: Pc) {
    pc.Receiving? || (pc.Holding? && (pc.use.StartInstance? || pc.use.StopInstance? || pc.use.JoinInstance?))
  }

  /** What the adapter answers in a step, or the bridge: whether it is then stopped, drained, joined, or was entered. */
  function Answers(g: Shared, pc: Pc, succeeds: bool, g': Shared, pc': Pc): seq<bool> {
    if pc' == pc then []
    else if CallsAdapter(pc) then [succeeds]
    else if pc.PcmStop? then [g'.gate.stopped]
    else if pc.PcmDrain? then [g'.gate.drained]
    else if pc.PcmJoin? then [g'.gate.joined]
    else if pc.PcmEnter? then [g'.gate.inside > g.gate.inside]
    else []
  }

  function Observed(record: Record, g: Shared, thread: Thread, choice: Choice, g': Shared, thread': Thread): Record {
    if thread.pc.Idle? then if choice.Begin? then Record(Some(choice.call), g.phase, []) else NOTHING
    else
      Record(
        record.call, if LooksAtPhase(thread.pc) then g.phase else record.phase,
        record.answers + Answers(g, thread.pc, choice.Proceed? && choice.succeeds, g', thread'.pc))
  }

  function NextStep(s: Whole, t: nat, choice: Choice): (s': Whole)
    requires t < |s.session.threads| == |s.records|
    ensures |s'.session.threads| == |s'.records| == |s.records|
  {
    var session := Step(s.session, t, choice);
    var thread := s.session.threads[t];
    Whole(
      session,
      s.records[t := Observed(s.records[t], s.session.shared, thread, choice, session.shared, session.threads[t])],
      if thread.pc == Holding(StartInstance) then Some(choice.Proceed? && choice.succeeds) else s.startAnswer)
  }

  function RunAll(s: Whole, schedule: seq<Move>): (s': Whole)
    requires |s.session.threads| == |s.records|
    requires forall m :: m in schedule ==> m.thread < |s.records|
    ensures |s'.session.threads| == |s'.records| == |s.records|
    decreases |schedule|
  {
    if schedule == [] then s
    else RunAll(NextStep(s, schedule[0].thread, schedule[0].choice), schedule[1..])
  }

  // ------------------------------------------------------------------- results

  /** The result of a call, and whether it made the transition, by the phase it saw and the answers it got. */
  function Outcome(record: Record): Option<(Result, bool)>
    requires record.call.Some?
  {
    var phase, answers := record.phase, record.answers;
    match record.call.value
    case Start =>
      if phase.Started? then Some((Ok, false))
      else if !phase.Created? then Some((InvalidState, false))
      else if |answers| == 1 && answers[0] then Some((Ok, true))
      else if |answers| == 3 && !answers[0] then Some((Failed, true))
      else None
    case Stop =>
      if phase.Stopped? || phase.Joined? then Some((Ok, false))
      else if phase.Joining? then Some((InvalidState, false))
      else if |answers| == 2 then Some((if answers[0] && answers[1] then Ok else Failed, true))
      else None
    case Join =>
      if phase.Joined? then Some((Ok, false))
      else if !phase.Stopped? then Some((InvalidState, false))
      else if |answers| == 3 && answers[1] then Some((if answers[0] && answers[2] then Ok else Failed, true))
      else if |answers| == 2 && !answers[1] then Some((Failed, true))
      else None
    case Receive =>
      if !phase.Started? then Some((InvalidState, false))
      else if |answers| == 1 then Some((if answers[0] then Ok else Failed, false))
      else None
    case Pcm =>
      if |answers| == 1 then Some((if answers[0] then Ok else Failed, false))
      else if !phase.Started? then Some((InvalidState, false))
      else None
    case Outbound => None
    case AsyncError => None
    case EnterAccess => None
    case LeaveAccess => None
  }

  // ----------------------------------------------------------------- invariant

  predicate Is(record: Record, call: Call, phase: Phase, answers: seq<bool>) {
    record == Record(Some(call), phase, answers)
  }

  /** The record of a Stop that found a session to stop. */
  predicate Stops(record: Record, answers: seq<bool>) {
    record.call == Some(Stop) && (record.phase.Created? || record.phase.Started?) && record.answers == answers
  }

  /** The answers of a Join that is past the bridge, `ok` being whether all were good. */
  predicate Joins(answers: seq<bool>, ok: bool) {
    (|answers| == 2 && !answers[1] && !ok) || (|answers| == 3 && answers[1] && ok == (answers[0] && answers[2]))
  }

  predicate UseInStep(use: Use, record: Record) {
    match use
    case StartInstance => Is(record, Start, Created, [])
    case StopInstance(failedStart, ok) =>
      if failedStart then |record.answers| == 2 && Is(record, Start, Created, [false, record.answers[1]]) else Stops(record, [ok])
    case JoinInstance => Is(record, Join, Stopped, [])
    case Unbind(ok) => Is(record, Join, Stopped, record.answers) && Joins(record.answers, ok)
    case ReceiveData => record.call == Some(Receive) && record.answers == []
  }

  predicate OriginInStep(origin: Origin, record: Record) {
    match origin
    case FromStart => Is(record, Start, Created, [false])
    case FromReceive => Is(record, Receive, Started, [false])
    case FromCallback => record.call == Some(Outbound) || record.call == Some(AsyncError)
  }

  /** What the place of a thread says of the call it is in. */
  predicate InStep(pc: Pc, inAccess: bool, record: Record) {
    match pc
    case Idle => true
    case Lock(use) => UseInStep(use, record)
    case Holding(use) => UseInStep(use, record)
    case StartDone => Is(record, Start, Created, [true])
    case Report(origin) => OriginInStep(origin, record)
    case InError(origin) => OriginInStep(origin, record)
    case ToStopping => Is(record, Start, Created, [false])
    case PcmStop(failedStart) => if failedStart then Is(record, Start, Created, [false]) else Stops(record, [])
    case ToStopped(failedStart, ok) =>
      |record.answers| == (if failedStart then 3 else 2) &&
      if failedStart then Is(record, Start, Created, [false, record.answers[1], record.answers[2]])
      else Stops(record, record.answers) && ok == (record.answers[0] && record.answers[1])
    case WipeAfterFailedStart =>
      |record.answers| == 3 && Is(record, Start, Created, [false, record.answers[1], record.answers[2]])
    case StopEntry => record.call == Some(Stop) && record.answers == []
    case JoinEntry => record.call == Some(Join) && record.answers == []
    case AwaitCallbacks(ok) => Is(record, Join, Stopped, [ok])
    case PcmDrain(ok) => Is(record, Join, Stopped, [ok])
    case PcmJoin(ok) => Is(record, Join, Stopped, [ok, true])
    case AwaitAccess(ok) => Is(record, Join, Stopped, record.answers) && Joins(record.answers, ok)
    case ToJoined(ok) => Is(record, Join, Stopped, record.answers) && Joins(record.answers, ok)
    case JoinWipe(ok) => Is(record, Join, Stopped, record.answers) && Joins(record.answers, ok)
    case Receiving => Is(record, Receive, Started, [])
    case InOutbound => record.call == Some(Outbound)
    case PcmEnter => record.call == Some(Pcm) && record.answers == [] && (inAccess || record.phase.Started?)
    case InPcm => record.call == Some(Pcm) && record.answers == [true]
    case Returned(call, result, transition) => record.call == Some(call) && Outcome(record) == Some((result, transition))
  }

  /** The thread is in a Start whose adapter has not been asked, or has failed. */
  predicate BeforeStart(pc: Pc) {
    pc == Lock(StartInstance) || pc == Holding(StartInstance)
  }

  predicate AfterFailure(pc: Pc) {
    || ((pc.Report? || pc.InError?) && pc.origin.FromStart?)
    || pc.ToStopping? || (pc.PcmStop? && pc.failedStart)
    || ((pc.Lock? || pc.Holding?) && pc.use.StopInstance? && pc.use.failedStart)
    || (pc.ToStopped? && pc.failedStart) || pc.WipeAfterFailedStart? || pc == Returned(Start, Failed, true)
  }

  /** What the place of a thread says of the answer of the adapter to its start. */
  predicate StartInStep(pc: Pc, startAnswer: Option<bool>) {
    && (BeforeStart(pc) ==> startAnswer.None?)
    && (pc.StartDone? || pc == Returned(Start, Ok, true) ==> startAnswer == Some(true))
    && (AfterFailure(pc) ==> startAnswer == Some(false))
  }

  predicate PhaseInStep(g: Shared, startAnswer: Option<bool>) {
    && (g.phase.Created? ==> startAnswer.None?)
    && (g.phase.Started? ==> startAnswer == Some(true))
    && (g.startWiped ==> startAnswer == Some(false))
  }

  ghost predicate CallsInv(s: Whole) {
    && |s.records| == |s.session.threads| && SessionLifecycle.Inv(s.session)
    && PhaseInStep(s.session.shared, s.startAnswer)
    && forall t :: 0 <= t < |s.records| ==>
         && InStep(s.session.threads[t].pc, s.session.threads[t].inAccess, s.records[t])
         && StartInStep(s.session.threads[t].pc, s.startAnswer)
  }

  // --------------------------------------------------------------------- steps

  /** The record stays in step with the thread. */
  ghost predicate KeepsRecord(g: Shared, thread: Thread, choice: Choice, record: Record, g': Shared, thread': Thread) {
    InStep(thread'.pc, thread'.inAccess, Observed(record, g, thread, choice, g', thread'))
  }

  lemma BeginKeepsRecord(g: Shared, t: nat, inAccess: bool, call: Call, record: Record)
    ensures var (g', thread') := BeginStep(g, t, inAccess, call);
            KeepsRecord(g, Thread(Idle, inAccess), Begin(call), record, g', thread')
  {
  }

  lemma LockKeepsRecord(g: Shared, t: nat, thread: Thread, succeeds: bool, record: Record)
    requires InStep(thread.pc, thread.inAccess, record) && thread.pc.Lock?
    ensures var (g', pc) := AdapterStep(g, t, thread.pc, succeeds);
            KeepsRecord(g, thread, Proceed(succeeds), record, g', Thread(pc, thread.inAccess))
  {
  }

  lemma HoldingKeepsRecord(g: Shared, t: nat, thread: Thread, succeeds: bool, record: Record)
    requires InStep(thread.pc, thread.inAccess, record) && thread.pc.Holding?
    ensures var (g', pc) := AdapterStep(g, t, thread.pc, succeeds);
            KeepsRecord(g, thread, Proceed(succeeds), record, g', Thread(pc, thread.inAccess))
  {
    if thread.pc.use.StopInstance? {
      StoppingKeepsRecord(g, t, thread, succeeds, record);
    } else {
      assert [] + [succeeds] == [succeeds];
    }
  }

  lemma StoppingKeepsRecord(g: Shared, t: nat, thread: Thread, succeeds: bool, record: Record)
    requires InStep(thread.pc, thread.inAccess, record) && thread.pc.Holding? && thread.pc.use.StopInstance?
    ensures var (g', pc) := AdapterStep(g, t, thread.pc, succeeds);
            KeepsRecord(g, thread, Proceed(succeeds), record, g', Thread(pc, thread.inAccess))
  {
    if thread.pc.use.failedStart {
      assert record.answers + [succeeds] == [false, record.answers[1], succeeds];
    } else {
      assert record.answers + [succeeds] == [thread.pc.use.ok, succeeds];
    }
  }

  lemma WaitingKeepsRecord(g: Shared, t: nat, thread: Thread, succeeds: bool, record: Record)
    requires InStep(thread.pc, thread.inAccess, record) && (thread.pc.Receiving? || thread.pc.AwaitAccess?)
    ensures var (g', pc) := AdapterStep(g, t, thread.pc, succeeds);
            KeepsRecord(g, thread, Proceed(succeeds), record, g', Thread(pc, thread.inAccess))
  {
  }

  lemma CallbackKeepsRecord(g: Shared, t: nat, thread: Thread, succeeds: bool, record: Record)
    requires InStep(thread.pc, thread.inAccess, record) && IsCallbackPc(thread.pc)
    ensures var (g', pc) := CallbackStep(g, thread.pc, succeeds);
            KeepsRecord(g, thread, Proceed(succeeds), record, g', Thread(pc, thread.inAccess))
  {
  }

  lemma StopKeepsRecord(g: Shared, t: nat, thread: Thread, succeeds: bool, record: Record)
    requires !thread.pc.PcmStop? || BridgeOk(g.gate, thread.pc)
    requires InStep(thread.pc, thread.inAccess, record) && IsStopPc(thread.pc)
    ensures var (g', pc) := StopStep(g, t, thread.pc, succeeds);
            KeepsRecord(g, thread, Proceed(succeeds), record, g', Thread(pc, thread.inAccess))
  {
    if thread.pc.PcmStop? {
      BridgeStopKeepsRecord(g, t, thread, succeeds, record);
    } else if thread.pc.ToStopped? || thread.pc.WipeAfterFailedStart? {
      StoppedKeepsRecord(g, t, thread, succeeds, record);
    }
  }

  lemma BridgeStopKeepsRecord(g: Shared, t: nat, thread: Thread, succeeds: bool, record: Record)
    requires BridgeOk(g.gate, thread.pc) && InStep(thread.pc, thread.inAccess, record) && thread.pc.PcmStop?
    ensures var (g', pc) := StopStep(g, t, thread.pc, succeeds);
            KeepsRecord(g, thread, Proceed(succeeds), record, g', Thread(pc, thread.inAccess))
  {
    if thread.pc.failedStart {
      assert record.answers + [succeeds] == [false, succeeds];
    } else {
      assert record.answers + [succeeds] == [succeeds];
    }
  }

  lemma StoppedKeepsRecord(g: Shared, t: nat, thread: Thread, succeeds: bool, record: Record)
    requires InStep(thread.pc, thread.inAccess, record) && (thread.pc.ToStopped? || thread.pc.WipeAfterFailedStart?)
    ensures var (g', pc) := StopStep(g, t, thread.pc, succeeds);
            KeepsRecord(g, thread, Proceed(succeeds), record, g', Thread(pc, thread.inAccess))
  {
  }

  lemma JoinKeepsRecord(g: Shared, t: nat, thread: Thread, succeeds: bool, record: Record)
    requires InStep(thread.pc, thread.inAccess, record) && IsJoinPc(thread.pc)
    ensures var (g', pc) := JoinStep(g, t, thread.pc, succeeds);
            KeepsRecord(g, thread, Proceed(succeeds), record, g', Thread(pc, thread.inAccess))
  {
    if thread.pc.PcmDrain? {
      DrainKeepsRecord(g, t, thread, succeeds, record);
    } else if thread.pc.PcmJoin? {
      BridgeJoinKeepsRecord(g, t, thread, succeeds, record);
    } else if thread.pc.JoinEntry? {
      JoinEntryKeepsRecord(g, t, thread, succeeds, record);
    }
  }

  lemma JoinEntryKeepsRecord(g: Shared, t: nat, thread: Thread, succeeds: bool, record: Record)
    requires InStep(thread.pc, thread.inAccess, record) && thread.pc.JoinEntry?
    ensures var (g', pc) := JoinStep(g, t, thread.pc, succeeds);
            KeepsRecord(g, thread, Proceed(succeeds), record, g', Thread(pc, thread.inAccess))
  {
  }

  lemma DrainKeepsRecord(g: Shared, t: nat, thread: Thread, succeeds: bool, record: Record)
    requires InStep(thread.pc, thread.inAccess, record) && thread.pc.PcmDrain?
    ensures var (g', pc) := JoinStep(g, t, thread.pc, succeeds);
            KeepsRecord(g, thread, Proceed(succeeds), record, g', Thread(pc, thread.inAccess))
  {
    var drained := JoinStep(g, t, thread.pc, succeeds).0.gate.drained;
    assert record.answers + [drained] == [record.answers[0], drained];
  }

  lemma BridgeJoinKeepsRecord(g: Shared, t: nat, thread: Thread, succeeds: bool, record: Record)
    requires InStep(thread.pc, thread.inAccess, record) && thread.pc.PcmJoin?
    ensures var (g', pc) := JoinStep(g, t, thread.pc, succeeds);
            KeepsRecord(g, thread, Proceed(succeeds), record, g', Thread(pc, thread.inAccess))
  {
    var joined := JoinStep(g, t, thread.pc, succeeds).0.gate.joined;
    assert record.answers + [joined] == [record.answers[0], true, joined];
  }

  lemma PcmKeepsRecord(g: Shared, t: nat, thread: Thread, succeeds: bool, record: Record)
    requires InStep(thread.pc, thread.inAccess, record) && (thread.pc.PcmEnter? || thread.pc.InPcm?)
    ensures var (g', pc) := PcmStep(g, thread.pc, succeeds);
            KeepsRecord(g, thread, Proceed(succeeds), record, g', Thread(pc, thread.inAccess))
  {
  }

  lemma OwnRecordKeeps(g: Shared, t: nat, thread: Thread, choice: Choice, record: Record)
    requires ThreadOk(g, t, thread) && SharedOk(g) && InStep(thread.pc, thread.inAccess, record)
    ensures var (g', thread') := ThreadStep(g, t, thread, choice); KeepsRecord(g, thread, choice, record, g', thread')
  {
    hide BeginStep, AdapterStep, CallbackStep, StopStep, JoinStep, PcmStep;
    var pc, succeeds := thread.pc, choice.Proceed? && choice.succeeds;
    if pc.Idle? && choice.Begin? {
      BeginKeepsRecord(g, t, thread.inAccess, choice.call, record);
    } else if pc.Lock? {
      LockKeepsRecord(g, t, thread, succeeds, record);
    } else if pc.Holding? {
      HoldingKeepsRecord(g, t, thread, succeeds, record);
    } else if pc.Receiving? || pc.AwaitAccess? {
      WaitingKeepsRecord(g, t, thread, succeeds, record);
    } else if IsCallbackPc(pc) {
      CallbackKeepsRecord(g, t, thread, succeeds, record);
    } else if IsStopPc(pc) {
      StopKeepsRecord(g, t, thread, succeeds, record);
    } else if IsJoinPc(pc) {
      JoinKeepsRecord(g, t, thread, succeeds, record);
    } else if pc.PcmEnter? || pc.InPcm? {
      PcmKeepsRecord(g, t, thread, succeeds, record);
    }
  }

  /** Phase and place agree with the answer of the adapter after a step from `pc` as they did before. */
  ghost predicate AnswerKept(g: Shared, pc: Pc, succeeds: bool, answer: Option<bool>, g': Shared, pc': Pc) {
    var answer' := if pc == Holding(StartInstance) then Some(succeeds) else answer;
    PhaseInStep(g', answer') && StartInStep(pc', answer')
  }

  lemma AdapterKeepsAnswer(g: Shared, t: nat, pc: Pc, succeeds: bool, answer: Option<bool>)
    requires IsAdapterPc(pc) && PhaseInStep(g, answer) && StartInStep(pc, answer)
    requires pc == Holding(StartInstance) ==> g.phase.Starting? && !g.startWiped
    ensures var (g', pc') := AdapterStep(g, t, pc, succeeds); AnswerKept(g, pc, succeeds, answer, g', pc')
  {
  }

  lemma StopKeepsAnswer(g: Shared, t: nat, pc: Pc, succeeds: bool, answer: Option<bool>)
    requires IsStopPc(pc) && PhaseInStep(g, answer) && StartInStep(pc, answer)
    ensures var (g', pc') := StopStep(g, t, pc, succeeds); AnswerKept(g, pc, succeeds, answer, g', pc')
  {
  }

  lemma JoinKeepsAnswer(g: Shared, t: nat, pc: Pc, succeeds: bool, answer: Option<bool>)
    requires IsJoinPc(pc) && PhaseInStep(g, answer) && StartInStep(pc, answer)
    ensures var (g', pc') := JoinStep(g, t, pc, succeeds); AnswerKept(g, pc, succeeds, answer, g', pc')
  {
  }

  lemma BeginKeepsAnswer(g: Shared, t: nat, inAccess: bool, call: Call, answer: Option<bool>)
    requires PhaseInStep(g, answer)
    ensures var (g', thread') := BeginStep(g, t, inAccess, call); AnswerKept(g, Idle, false, answer, g', thread'.pc)
  {
  }

  lemma CallbackKeepsAnswer(g: Shared, pc: Pc, succeeds: bool, answer: Option<bool>)
    requires IsCallbackPc(pc) && PhaseInStep(g, answer) && StartInStep(pc, answer)
    ensures var (g', pc') := CallbackStep(g, pc, succeeds); AnswerKept(g, pc, succeeds, answer, g', pc')
  {
  }

  lemma PcmKeepsAnswer(g: Shared, pc: Pc, succeeds: bool, answer: Option<bool>)
    requires (pc.PcmEnter? || pc.InPcm?) && PhaseInStep(g, answer)
    ensures var (g', pc') := PcmStep(g, pc, succeeds); AnswerKept(g, pc, succeeds, answer, g', pc')
  {
  }

  lemma StartAnswerKeeps(g: Shared, t: nat, thread: Thread, choice: Choice, answer: Option<bool>)
    requires ThreadOk(g, t, thread) && SharedOk(g) && PhaseInStep(g, answer) && StartInStep(thread.pc, answer)
    ensures var (g', thread') := ThreadStep(g, t, thread, choice);
            AnswerKept(g, thread.pc, choice.Proceed? && choice.succeeds, answer, g', thread'.pc)
  {
    hide BeginStep, AdapterStep, CallbackStep, StopStep, JoinStep, PcmStep;
    var pc, succeeds := thread.pc, choice.Proceed? && choice.succeeds;
    if IsAdapterPc(pc) {
      AdapterKeepsAnswer(g, t, pc, succeeds, answer);
    } else if IsStopPc(pc) {
      StopKeepsAnswer(g, t, pc, succeeds, answer);
    } else if IsJoinPc(pc) {
      JoinKeepsAnswer(g, t, pc, succeeds, answer);
    } else if IsCallbackPc(pc) {
      CallbackKeepsAnswer(g, pc, succeeds, answer);
    } else if pc.PcmEnter? || pc.InPcm? {
      PcmKeepsAnswer(g, pc, succeeds, answer);
    } else if pc.Idle? && choice.Begin? {
      BeginKeepsAnswer(g, t, thread.inAccess, choice.call, answer);
    }
  }

  lemma NextKeeps(s: Whole, t: nat, choice: Choice)
    requires CallsInv(s) && t < |s.records|
    ensures CallsInv(NextStep(s, t, choice))
  {
    var s', g, thread := NextStep(s, t, choice), s.session.shared, s.session.threads[t];
    assert ThreadOk(g, t, thread) && SharedOk(g);
    OwnRecordKeeps(g, t, thread, choice, s.records[t]);
    StartAnswerKeeps(g, t, thread, choice, s.startAnswer);
    SessionLifecycle.StepInv(s.session, t, choice);
    StepRely(g, t, thread, choice);
    forall u | 0 <= u < |s.records| && u != t ensures StartInStep(s.session.threads[u].pc, s'.startAnswer) {
      assert ThreadOk(g, u, s.session.threads[u]) && StartInStep(s.session.threads[u].pc, s.startAnswer);
      if thread.pc == Holding(StartInstance) {
        AskedOnce(s, t, u);
      }
    }
    hide ThreadStep, SessionLifecycle.Inv, InStep, StartInStep, PhaseInStep, Observed;
  }

  /** While the adapter is being started for one thread, no other thread has been through a start. */
  lemma AskedOnce(s: Whole, t: nat, u: nat)
    requires CallsInv(s) && t < |s.records| && u < |s.records| && u != t
    requires s.session.threads[t].pc == Holding(StartInstance)
    ensures forall answer :: StartInStep(s.session.threads[u].pc, answer)
  {
    assert ThreadOk(s.session.shared, t, s.session.threads[t]) && ThreadOk(s.session.shared, u, s.session.threads[u]);
    assert StartInStep(s.session.threads[t].pc, s.startAnswer) && StartInStep(s.session.threads[u].pc, s.startAnswer);
  }

  lemma {:induction false} RunKeepsCalls(s: Whole, schedule: seq<Move>)
    requires CallsInv(s)
    requires forall m :: m in schedule ==> m.thread < |s.records|
    ensures CallsInv(RunAll(s, schedule)) && RunAll(s, schedule).session == SessionLifecycle.Run(s.session, schedule)
    decreases |schedule|
  {
    assert |s.records| == |s.session.threads|;
    hide CallsInv;
    if schedule != [] {
      NextKeeps(s, schedule[0].thread, schedule[0].choice);
      RunKeepsCalls(NextStep(s, schedule[0].thread, schedule[0].choice), schedule[1..]);
    }
  }

  // ------------------------------------------------------------------ theorems

  /** A state some schedule leads to, with its records. */
  ghost predicate ReachableCalls(s: Whole) {
    exists callbacks: Callbacks, schedule: seq<Move> :: IsRunOfCalls(callbacks, schedule, s)
  }

  ghost predicate IsRunOfCalls(callbacks: Callbacks, schedule: seq<Move>, s: Whole) {
    && (forall m :: m in schedule ==> m.thread < |s.records|)
    && s == RunAll(Beginning(|s.records|, callbacks), schedule)
  }

  lemma ReachableCallsInv(s: Whole)
    requires ReachableCalls(s)
    ensures CallsInv(s)
  {
    var callbacks, schedule :| IsRunOfCalls(callbacks, schedule, s);
    var beginning := Beginning(|s.records|, callbacks);
    SessionLifecycle.InitialInv(beginning.session);
    RunKeepsCalls(beginning, schedule);
  }

  /**
    In every run, a call that returns has the result that goes with the phase it saw and with what the adapter
    and the bridge answered, and makes the transition exactly when that phase allowed it.
   */
  lemma ResultsAreExplained(s: Whole, t: nat)
    requires ReachableCalls(s) && t < |s.records| && t < |s.session.threads| && s.session.threads[t].pc.Returned?
    ensures var pc := s.session.threads[t].pc;
            && s.records[t].call == Some(pc.call)
            && Outcome(s.records[t]) == Some((pc.result, pc.transition))
  {
    ReachableCallsInv(s);
    assert InStep(s.session.threads[t].pc, s.session.threads[t].inAccess, s.records[t]);
  }

  /** A session is Started, or a Start has made it so, only if its adapter has started; a Start fails only if it has not. */
  lemma StartedMeansStarted(s: Whole, t: nat)
    requires ReachableCalls(s) && t < |s.session.threads|
    ensures s.session.shared.phase.Started? ==> s.startAnswer == Some(true)
    ensures s.session.threads[t].pc == Returned(Start, Ok, true) ==> s.startAnswer == Some(true)
    ensures s.session.threads[t].pc == Returned(Start, Failed, true) ==> s.startAnswer == Some(false)
    ensures s.session.shared.startWiped ==> s.startAnswer == Some(false)
  {
    ReachableCallsInv(s);
    assert StartInStep(s.session.threads[t].pc, s.startAnswer);
  }

  // ----------------------------------------------------------- undisturbed calls

  /** A thread that makes steps alone, with these answers from adapter, callback and bridge. */
  function Solo(g: Shared, pc: Pc, answers: seq<bool>): (Shared, Pc)
    decreases |answers|
  {
    if answers == [] then (g, pc)
    else
      var (g', pc') := PcStep(g, 0, pc, answers[0]);
      Solo(g', pc', answers[1..])
  }

  /** An idle thread calls, and then makes steps alone. */
  function CallAlone(g: Shared, call: Call, answers: seq<bool>): (Shared, Pc)
    requires FromOutside(call)
  {
    var (g', pc) := CallStep(g, 0, false, call);
    Solo(g', pc, answers)
  }

  /** Nobody is in a call, a callback, the bridge or the adapter. */
  predicate AtRest(g: Shared) {
    g.owner.None? && g.adapterMutex.None? && g.inFlight == 0 && g.accessInFlight == 0 && g.gate.inside == 0
  }

  /** These answers lead from one place to another. */
  predicate Leads(g: Shared, pc: Pc, answers: seq<bool>, g': Shared, pc': Pc) {
    Solo(g, pc, answers) == (g', pc')
  }

  lemma OneStep(g: Shared, pc: Pc, answer: bool, g': Shared, pc': Pc)
    requires PcStep(g, 0, pc, answer) == (g', pc')
    ensures Leads(g, pc, [answer], g', pc')
  {
    assert [answer][1..] == [];
  }

  lemma {:induction false} Chain(g: Shared, pc: Pc, a: seq<bool>, g1: Shared, pc1: Pc, b: seq<bool>, g2: Shared, pc2: Pc)
    requires Leads(g, pc, a, g1, pc1) && Leads(g1, pc1, b, g2, pc2)
    ensures Leads(g, pc, a + b, g2, pc2)
    decreases |a|
  {
    if a == [] {
      assert a + b == b;
    } else {
      var (g', pc') := PcStep(g, 0, pc, a[0]);
      Chain(g', pc', a[1..], g1, pc1, b, g2, pc2);
      assert (a + b)[0] == a[0] && (a + b)[1..] == a[1..] + b;
    }
  }

  /** Taking the adapter mutex, and the call of the adapter under it. */
  lemma SoloAdapter(g: Shared, use: Use, answer: bool, g': Shared, pc': Pc)
    requires g.adapterMutex.None? && AdapterStep(g.(adapterMutex := Some(0)), 0, Holding(use), answer) == (g', pc')
    ensures Leads(g, Lock(use), [true, answer], g', pc')
  {
    var held := g.(adapterMutex := Some(0));
    OneStep(g, Lock(use), true, held, Holding(use));
    OneStep(held, Holding(use), answer, g', pc');
    hide Solo, PcStep, AdapterStep, Leads;
    Chain(g, Lock(use), [true], held, Holding(use), [answer], g', pc');
    assert [true] + [answer] == [true, answer];
  }

  function ReportAnswers(g: Shared, answer: bool): seq<bool> {
    if Admits(g.phase) && g.callbacks.error then [true, answer] else [true]
  }

  /** The error callback, where the session has one and admits it. */
  lemma SoloReport(g: Shared, origin: Origin, answer: bool)
    ensures Leads(g, Report(origin), ReportAnswers(g, answer), g, Reported(origin))
  {
    if Admits(g.phase) && g.callbacks.error {
      var inside := g.(inFlight := g.inFlight + 1);
      OneStep(g, Report(origin), true, inside, InError(origin));
      OneStep(inside, InError(origin), answer, g, Reported(origin));
      hide Solo, PcStep, Leads;
      Chain(g, Report(origin), [true], inside, InError(origin), [answer], g, Reported(origin));
      assert [true] + [answer] == [true, answer];
    } else {
      OneStep(g, Report(origin), true, g, Reported(origin));
    }
  }

  /** From the stopping of the bridge to that of the adapter. */
  lemma SoloStopping(g: Shared, failedStart: bool, bridge: bool, adapter: bool)
    requires g.adapterMutex.None?
    ensures Leads(g, PcmStop(failedStart), [bridge, true, adapter],
                  g.(gate := StopGate(g.gate, bridge)), ToStopped(failedStart, bridge && adapter))
  {
    var stopped := g.(gate := StopGate(g.gate, bridge));
    OneStep(g, PcmStop(failedStart), bridge, stopped, Lock(StopInstance(failedStart, bridge)));
    SoloAdapter(stopped, StopInstance(failedStart, bridge), adapter, stopped, ToStopped(failedStart, bridge && adapter));
    hide Solo, PcStep, Leads;
    Chain(g, PcmStop(failedStart), [bridge], stopped, Lock(StopInstance(failedStart, bridge)), [true, adapter],
          stopped, ToStopped(failedStart, bridge && adapter));
    assert [bridge] + [true, adapter] == [bridge, true, adapter];
  }

  /** Alone, a Start of a new session whose adapter starts makes it Started. */
  lemma SoloStart(g: Shared)
    requires AtRest(g) && g.phase.Created?
    ensures CallAlone(g, Start, [true, true] + [true]) == (g.(phase := Started), Returned(Start, Ok, true))
  {
    var g1 := g.(phase := Starting, owner := Some(0));
    SoloAdapter(g1, StartInstance, true, g1, StartDone);
    OneStep(g1, StartDone, true, g.(phase := Started), Returned(Start, Ok, true));
    Chain(g1, Lock(StartInstance), [true, true], g1, StartDone, [true], g.(phase := Started), Returned(Start, Ok, true));
  }

  /** A Start whose adapter has failed, up to the stopping. */
  lemma SoloFailure(g: Shared, callback: bool)
    requires g.adapterMutex.None?
    ensures Leads(g, Lock(StartInstance), [true, false] + ReportAnswers(g, callback), g, ToStopping)
  {
    SoloAdapter(g, StartInstance, false, g, Report(FromStart));
    SoloReport(g, FromStart, callback);
    hide Solo, PcStep, Leads, ReportAnswers;
    Chain(g, Lock(StartInstance), [true, false], g, Report(FromStart), ReportAnswers(g, callback), g, ToStopping);
  }

  /** From there to its end. */
  lemma SoloGivingUp(g: Shared, bridge: bool, adapter: bool)
    requires g.adapterMutex.None?
    ensures Leads(g, ToStopping, [true] + [bridge, true, adapter] + [true] + [true],
                  g.(phase := Stopped, owner := None, gate := StopGate(g.gate, bridge), wiped := true, startWiped := true),
                  Returned(Start, Failed, true))
  {
    var g2 := g.(phase := Stopping);
    var g3 := g2.(gate := StopGate(g.gate, bridge));
    var g4 := g3.(phase := Stopped, owner := None);
    var g5 := g4.(wiped := true, startWiped := true);
    OneStep(g, ToStopping, true, g2, PcmStop(true));
    SoloStopping(g2, true, bridge, adapter);
    OneStep(g3, ToStopped(true, bridge && adapter), true, g4, WipeAfterFailedStart);
    OneStep(g4, WipeAfterFailedStart, true, g5, Returned(Start, Failed, true));
    hide Solo, PcStep, Leads, StopGate;
    Chain(g, ToStopping, [true], g2, PcmStop(true), [bridge, true, adapter], g3, ToStopped(true, bridge && adapter));
    Chain(g, ToStopping, [true] + [bridge, true, adapter], g3, ToStopped(true, bridge && adapter), [true],
          g4, WipeAfterFailedStart);
    Chain(g, ToStopping, [true] + [bridge, true, adapter] + [true], g4, WipeAfterFailedStart, [true],
          g5, Returned(Start, Failed, true));
  }

  /** Alone, a Start of a new session whose adapter fails reports, stops bridge and adapter, and wipes. */
  lemma SoloFailingStart(g: Shared, callback: bool, bridge: bool, adapter: bool)
    requires AtRest(g) && g.phase.Created?
    ensures var report := ReportAnswers(g.(phase := Starting, owner := Some(0)), callback);
            CallAlone(g, Start, [true, false] + report + ([true] + [bridge, true, adapter] + [true] + [true])) ==
            (g.(phase := Stopped, gate := StopGate(g.gate, bridge), wiped := true, startWiped := true),
             Returned(Start, Failed, true))
  {
    var g1 := g.(phase := Starting, owner := Some(0));
    var g5 := g.(phase := Stopped, gate := StopGate(g.gate, bridge), wiped := true, startWiped := true);
    var a, b := [true, false] + ReportAnswers(g1, callback), [true] + [bridge, true, adapter] + [true] + [true];
    SoloFailure(g1, callback);
    SoloGivingUp(g1, bridge, adapter);
    hide Solo, PcStep, Leads, ReportAnswers, StopGate;
    Chain(g1, Lock(StartInstance), a, g1, ToStopping, b, g5, Returned(Start, Failed, true));
    SoloOfLeads(g1, Lock(StartInstance), a + b, g5, Returned(Start, Failed, true));
  }

  lemma SoloOfLeads(g: Shared, pc: Pc, answers: seq<bool>, g': Shared, pc': Pc)
    requires Leads(g, pc, answers, g', pc')
    ensures Solo(g, pc, answers) == (g', pc')
  {
  }

  /** In any other phase Start changes nothing: it is Ok in a started session and refused in the rest. */
  lemma SoloLaterStart(g: Shared)
    requires !g.phase.Created?
    ensures CallAlone(g, Start, []) == (g, Returned(Start, if g.phase.Started? then Ok else InvalidState, false))
  {
  }

  /** Alone, Stop takes a new or started session to Stopped, and is Ok if bridge and adapter are. */
  lemma SoloStop(g: Shared, bridge: bool, adapter: bool)
    requires AtRest(g) && (g.phase.Created? || g.phase.Started?)
    ensures CallAlone(g, Stop, [true] + [bridge, true, adapter] + [true]) ==
            (g.(phase := Stopped, gate := StopGate(g.gate, bridge)),
             Returned(Stop, if bridge && adapter then Ok else Failed, true))
  {
    var g1 := g.(phase := Stopping, owner := Some(0));
    var g2 := g1.(gate := StopGate(g.gate, bridge));
    var g3 := g2.(phase := Stopped, owner := None);
    var end := Returned(Stop, if bridge && adapter then Ok else Failed, true);
    OneStep(g, StopEntry, true, g1, PcmStop(false));
    SoloStopping(g1, false, bridge, adapter);
    OneStep(g2, ToStopped(false, bridge && adapter), true, g3, end);
    hide Solo, PcStep, Leads;
    Chain(g, StopEntry, [true], g1, PcmStop(false), [bridge, true, adapter], g2, ToStopped(false, bridge && adapter));
    Chain(g, StopEntry, [true] + [bridge, true, adapter], g2, ToStopped(false, bridge && adapter), [true], g3, end);
    SoloOfLeads(g, StopEntry, [true] + [bridge, true, adapter] + [true], g3, end);
  }

  /** A stopped or joined session needs no Stop; one that is being joined refuses it; otherwise Stop waits. */
  lemma SoloLaterStop(g: Shared)
    requires !g.phase.Created? && !g.phase.Started?
    ensures CallAlone(g, Stop, [true]) ==
            (g, if g.phase.Stopped? || g.phase.Joined? then Returned(Stop, Ok, false)
                else if g.phase.Joining? then Returned(Stop, InvalidState, false)
                else StopEntry)
  {
    assert [true][1..] == [];
  }

  /** From the draining of a stopped bridge to its joining, or past both where it refuses. */
  lemma SoloBridge(g: Shared, ok: bool, drains: bool, joins: bool)
    requires g.gate.stopped && !g.gate.drained && !g.gate.joined && g.gate.inside == 0
    ensures Leads(
              g, PcmDrain(ok), if drains then [true, joins] else [false],
              g.(gate := JoinedGate(g.gate, drains, joins)),
              Lock(Unbind(ok && drains && joins)))
  {
    if drains {
      var g1 := g.(gate := g.gate.(drained := true));
      var g2 := g.(gate := JoinedGate(g.gate, drains, joins));
      OneStep(g, PcmDrain(ok), true, g1, PcmJoin(ok));
      OneStep(g1, PcmJoin(ok), joins, g2, Lock(Unbind(ok && joins)));
      hide Solo, PcStep, Leads;
      Chain(g, PcmDrain(ok), [true], g1, PcmJoin(ok), [joins], g2, Lock(Unbind(ok && joins)));
      assert [true] + [joins] == [true, joins];
    } else {
      OneStep(g, PcmDrain(ok), false, g.(gate := g.gate.(refused := true)), Lock(Unbind(false)));
    }
  }

  /** From the unbinding of the adapter to the end. */
  lemma SoloUnbind(g: Shared, ok: bool)
    requires g.adapterMutex.None? && g.accessInFlight == 0
    ensures Leads(g, Lock(Unbind(ok)), [true, true] + [true] + [true] + [true],
                  g.(bound := false, phase := Joined, wiped := true, owner := None),
                  Returned(Join, if ok then Ok else Failed, true))
  {
    var g1 := g.(bound := false, adapterMutex := Some(0));
    var g2 := g.(bound := false);
    var g3 := g2.(phase := Joined);
    var g4 := g3.(wiped := true, owner := None);
    var lock, end := Lock(Unbind(ok)), Returned(Join, if ok then Ok else Failed, true);
    SoloAdapter(g, Unbind(ok), true, g1, AwaitAccess(ok));
    OneStep(g1, AwaitAccess(ok), true, g2, ToJoined(ok));
    OneStep(g2, ToJoined(ok), true, g3, JoinWipe(ok));
    OneStep(g3, JoinWipe(ok), true, g4, end);
    hide Solo, PcStep, Leads;
    Chain(g, lock, [true, true], g1, AwaitAccess(ok), [true], g2, ToJoined(ok));
    Chain(g, lock, [true, true] + [true], g2, ToJoined(ok), [true], g3, JoinWipe(ok));
    Chain(g, lock, [true, true] + [true] + [true], g3, JoinWipe(ok), [true], g4, end);
  }

  /** From the entry of a Join to the draining. */
  lemma SoloJoining(g: Shared, adapter: bool)
    requires AtRest(g) && g.phase.Stopped?
    ensures Leads(g, JoinEntry, [true] + [true, adapter] + [true], g.(phase := Joining, owner := Some(0)), PcmDrain(adapter))
  {
    var g1 := g.(phase := Joining, owner := Some(0));
    OneStep(g, JoinEntry, true, g1, Lock(JoinInstance));
    SoloAdapter(g1, JoinInstance, adapter, g1, AwaitCallbacks(adapter));
    OneStep(g1, AwaitCallbacks(adapter), true, g1, PcmDrain(adapter));
    hide Solo, PcStep, Leads;
    Chain(g, JoinEntry, [true], g1, Lock(JoinInstance), [true, adapter], g1, AwaitCallbacks(adapter));
    Chain(g, JoinEntry, [true] + [true, adapter], g1, AwaitCallbacks(adapter), [true], g1, PcmDrain(adapter));
  }

  /** The bridge after its drain and join were admitted or not. */
  function JoinedGate(gate: Gate, drains: bool, joins: bool): Gate {
    if !drains then gate.(refused := true)
    else if joins then gate.(drained := true, joined := true)
    else gate.(drained := true, refused := true)
  }

  /** Alone, Join takes a stopped session to Joined, whatever the answers; it is Ok if all of them are good. */
  lemma SoloJoin(g: Shared, adapter: bool, drains: bool, joins: bool)
    requires AtRest(g) && g.phase.Stopped? && g.gate.stopped && !g.gate.drained && !g.gate.joined
    ensures CallAlone(
              g, Join,
              [true] + [true, adapter] + [true] + (if drains then [true, joins] else [false]) +
              ([true, true] + [true] + [true] + [true])) ==
            (g.(gate := JoinedGate(g.gate, drains, joins), bound := false, phase := Joined, wiped := true),
             Returned(Join, if adapter && drains && joins then Ok else Failed, true))
  {
    var g1 := g.(phase := Joining, owner := Some(0));
    var g2 := g1.(gate := JoinedGate(g.gate, drains, joins));
    var g3 := g.(gate := JoinedGate(g.gate, drains, joins), bound := false, phase := Joined, wiped := true);
    var ok := adapter && drains && joins;
    var a, b, c :=
      [true] + [true, adapter] + [true], if drains then [true, joins] else [false], [true, true] + [true] + [true] + [true];
    var end := Returned(Join, if ok then Ok else Failed, true);
    SoloJoining(g, adapter);
    SoloBridge(g1, adapter, drains, joins);
    SoloUnbind(g2, ok);
    hide Solo, PcStep, Leads, JoinedGate;
    Chain(g, JoinEntry, a, g1, PcmDrain(adapter), b, g2, Lock(Unbind(ok)));
    Chain(g, JoinEntry, a + b, g2, Lock(Unbind(ok)), c, g3, end);
    SoloOfLeads(g, JoinEntry, a + b + c, g3, end);
  }

  /** A joined session needs no Join; one not stopped yet refuses it, or lets it wait while it starts or stops. */
  lemma SoloOtherJoin(g: Shared)
    requires !g.phase.Stopped?
    ensures CallAlone(g, Join, [true]) ==
            (g, if g.phase.Joined? then Returned(Join, Ok, false)
                else if g.phase.Starting? || g.phase.Stopping? then JoinEntry
                else Returned(Join, InvalidState, false))
  {
    assert [true][1..] == [];
  }

  /** Alone, signaling data is handed to the adapter of a started session, an error being reported, and refused in any other. */
  lemma SoloReceive(g: Shared, answer: bool, callback: bool)
    requires AtRest(g)
    ensures CallAlone(
              g, Receive,
              if !g.phase.Started? then [true, true]
              else [true, true] + [answer] + if answer then [] else ReportAnswers(g, callback)) ==
            (g, Returned(Receive, if !g.phase.Started? then InvalidState else if answer then Ok else Failed, false))
  {
    var held := g.(adapterMutex := Some(0));
    if g.phase.Started? {
      SoloAdapter(g, ReceiveData, true, held, Receiving);
      var next := if answer then Returned(Receive, Ok, false) else Report(FromReceive);
      OneStep(held, Receiving, answer, g, next);
      Chain(g, Lock(ReceiveData), [true, true], held, Receiving, [answer], g, next);
      if answer {
        assert [true, true] + [answer] + [] == [true, true] + [answer];
      } else {
        SoloReport(g, FromReceive, callback);
        hide Solo, PcStep, Leads;
        Chain(g, Lock(ReceiveData), [true, true] + [answer], g, next, ReportAnswers(g, callback), g, Reported(FromReceive));
        SoloOfLeads(g, Lock(ReceiveData), [true, true] + [answer] + ReportAnswers(g, callback), g, Reported(FromReceive));
      }
    } else {
      SoloAdapter(g, ReceiveData, true, g, Returned(Receive, InvalidState, false));
    }
  }

  /** Alone, a PCM call of a started session goes through the bridge while this is not stopped, and leaves nothing behind. */
  lemma SoloPcm(g: Shared, admitted: bool)
    ensures CallAlone(g, Pcm, if !g.phase.Started? then [] else if g.gate.stopped || !admitted then [admitted] else [true] + [true]) ==
            (g, Returned(Pcm, if !g.phase.Started? then InvalidState else if g.gate.stopped || !admitted then Failed else Ok, false))
  {
    if g.phase.Started? {
      if g.gate.stopped || !admitted {
        OneStep(g, PcmEnter, admitted, g, Returned(Pcm, Failed, false));
      } else {
        var inside := g.(gate := EnterGate(g.gate));
        OneStep(g, PcmEnter, true, inside, InPcm);
        OneStep(inside, InPcm, true, g, Returned(Pcm, Ok, false));
        Chain(g, PcmEnter, [true], inside, InPcm, [true], g, Returned(Pcm, Ok, false));
      }
    }
  }

  /** An adapter callback obtains the session exactly while it is bound, is counted until it gives it back, and reports errors. */
  lemma SoloAccess(g: Shared)
    ensures AccessStep(g, false, EnterAccess) ==
            if g.bound then (g.(accessInFlight := g.accessInFlight + 1), Thread(Idle, true)) else (g, Thread(Idle, false))
    ensures AccessStep(g.(accessInFlight := g.accessInFlight + 1), true, LeaveAccess) == (g, Thread(Idle, false))
    ensures AccessStep(g, true, AsyncError) == (g, Thread(Report(FromCallback), true))
    ensures CallStep(g, 0, true, Pcm) == (g, PcmEnter)
  {
  }

  /** An outbound callback runs exactly while the session is starting or started, and is counted while it runs. */
  lemma SoloOutbound(g: Shared, inAccess: bool)
    ensures AccessStep(g, inAccess, Outbound) ==
            if (g.phase.Starting? || g.phase.Started?) && g.callbacks.outbound
            then (g.(inFlight := g.inFlight + 1), Thread(InOutbound, inAccess)) else (g, Thread(Idle, inAccess))
    ensures Leads(g.(inFlight := g.inFlight + 1), InOutbound, [true], g, Idle)
    ensures Leads(g.(inFlight := g.inFlight + 1), InOutbound, [false], g, Report(FromCallback))
  {
    OneStep(g.(inFlight := g.inFlight + 1), InOutbound, true, g, Idle);
    OneStep(g.(inFlight := g.inFlight + 1), InOutbound, false, g, Report(FromCallback));
  }
}
