/**
 Cold-boot calibration against driver registration: who may post a REGISTER
 event when, and why the FIFO event queue makes calibration end first.

 Handlers run one at a time (EventQueueProofs.HandledInOrder); the threads that
 post events read the two calibration bits while a handler is changing them.
 Bits that only select an early return are resolved by `choice`.
 */
module ColdBootCal {
  datatype Ev = CalStart | CalDone | Register | Other

  /** The worker: idle, or inside the handler of one event. */
  datatype WorkerPc =
    | Idle
    | StartTestDone           // CAL_START: test COLD_BOOT_CAL_DONE
    | StartTestIn             //   test IN_COLD_BOOT_CAL, and others
    | StartProbe              //   wait for probe, check the device
    | StartMark               //   set IN_COLD_BOOT_CAL
    | StartPower              //   power the device up
    | FailClear               //   on failure: clear IN_COLD_BOOT_CAL
    | FailMark                //   and set COLD_BOOT_CAL_DONE
    | DoneTestIn              // CAL_DONE: test IN_COLD_BOOT_CAL
    | DoneTestDone            //   test COLD_BOOT_CAL_DONE
    | DoneClear               //   shut down; clear IN_COLD_BOOT_CAL
    | DoneMark                //   set COLD_BOOT_CAL_DONE
    | RegisterRun             // REGISTER
    | OtherRun

  /** A run of cnss_wlan_reg_driver_work (Work...) or a call of
      cnss_wlan_register_driver (User...). */
  datatype ThreadPc =
    | WorkTestDone
    | WorkTestIn
    | WorkAlloc
    | WorkPostDone
    | WorkPostRegister
    | UserTest
    | UserPost
    | Ended

  datatype State = State(
    cbcEnabled: bool,
    inCal: bool,
    calDone: bool,
    queue: seq<Ev>,
    worker: WorkerPc,
    threads: map<nat, ThreadPc>,
    registered: seq<bool>)      // per REGISTER handled: was COLD_BOOT_CAL_DONE set?

  datatype Step =
    | Post(ev: Ev)                        // firmware or file system: CAL_START, CAL_DONE or others
    | Begin(id: nat, work: bool)
    | Thread(id: nat, choice: bool)
    | Worker(choice: bool)

  predicate Enabled(s: State, step: Step) {
    match step
    case Post(ev) => ev != Register
    case Begin(id, _) => id !in s.threads
    case Thread(id, _) => id in s.threads && s.threads[id] != Ended
    case Worker(_) => s.worker == Idle ==> s.queue != []
  }

  function Goto(s: State, id: nat, pc: ThreadPc): State {
    s.(threads := s.threads[id := pc])
  }

  /** One step of a posting thread.  The work ignores whether its CAL_DONE post
      succeeds. */
  function ThreadNext(s: State, id: nat, choice: bool): (s': State)
    requires id in s.threads
    ensures id in s'.threads && s'.threads == s.threads[id := s'.threads[id]]
    ensures s'.worker == s.worker && s'.registered == s.registered
  {
    match s.threads[id]
    case WorkTestDone =>
      if !choice then Goto(s, id, Ended)
      else Goto(s, id, if s.calDone then WorkPostRegister else WorkTestIn)
    case WorkTestIn => Goto(s, id, if s.inCal then WorkAlloc else Ended)
    case WorkAlloc => Goto(s, id, if choice then WorkPostDone else Ended)
    case WorkPostDone => Goto(s, id, WorkPostRegister).(queue := if choice then s.queue + [CalDone] else s.queue)
    case WorkPostRegister => Goto(s, id, Ended).(queue := if choice then s.queue + [Register] else s.queue)
    case UserTest => Goto(s, id, if !s.cbcEnabled || s.calDone then UserPost else Ended)
    case UserPost => Goto(s, id, Ended).(queue := if choice then s.queue + [Register] else s.queue)
    case Ended => s
  }

  function Entry(ev: Ev): WorkerPc {
    match ev
    case CalStart => StartTestDone
    case CalDone => DoneTestIn
    case Register => RegisterRun
    case Other => OtherRun
  }

  /** One step of the worker. */
  function WorkerNext(s: State, choice: bool): (s': State)
    requires s.worker == Idle ==> s.queue != []
    ensures s'.threads == s.threads
  {
    match s.worker
    case Idle => s.(queue := s.queue[1..], worker := Entry(s.queue[0]))
    case StartTestDone => s.(worker := if s.calDone then Idle else StartTestIn)
    case StartTestIn => s.(worker := if s.inCal || !choice then Idle else StartProbe)
    case StartProbe => s.(worker := if choice then StartMark else FailClear)
    case StartMark => s.(inCal := true, worker := StartPower)
    case StartPower => s.(worker := if choice then Idle else FailClear)
    case FailClear => s.(inCal := false, worker := FailMark)
    case FailMark => s.(calDone := true, worker := Idle)
    case DoneTestIn => s.(worker := if s.inCal then DoneTestDone else Idle)
    case DoneTestDone => s.(worker := if s.calDone then Idle else DoneClear)
    case DoneClear => s.(inCal := false, worker := DoneMark)
    case DoneMark => s.(calDone := true, worker := Idle)
    case RegisterRun => s.(registered := s.registered + [s.calDone], worker := Idle)
    case OtherRun => s.(worker := Idle)
  }

  function Next(s: State, step: Step): State
    requires Enabled(s, step)
  {
    match step
    case Post(ev) => s.(queue := s.queue + [ev])
    case Begin(id, work) => Goto(s, id, if work then WorkTestDone else UserTest)
    case Thread(id, choice) => ThreadNext(s, id, choice)
    case Worker(choice) => WorkerNext(s, choice)
  }

  const INITIAL: State := State(true, false, false, [], Idle, map[], [])

  /** The registration work's CAL_DONE post fails in this step. */
  predicate LosesCalDone(s: State, step: Step) {
    step.Thread? && step.id in s.threads && s.threads[step.id] == WorkPostDone && !step.choice
  }

  /** A run with cold-boot calibration enabled; `lossy` allows the registration
      work's CAL_DONE post to fail. */
  ghost predicate IsRun(steps: seq<Step>, trace: seq<State>, lossy: bool) {
    && |trace| == |steps| + 1
    && trace[0] == INITIAL
    && forall i :: 0 <= i < |steps| ==>
         && Enabled(trace[i], steps[i])
         && trace[i + 1] == Next(trace[i], steps[i])
         && (LosesCalDone(trace[i], steps[i]) ==> lossy)
  }

  // ---------------------------------------------------------------- invariant

  /** Calibration has been started; this never becomes false again. */
  predicate Begun(s: State) {
    s.inCal || s.calDone || s.worker == FailMark || s.worker == DoneMark
  }

  /** COLD_BOOT_CAL_DONE is set, or will be before entry k of the queue is handled. */
  predicate Covered(s: State, k: nat)
    requires k <= |s.queue|
  {
    || s.calDone
    || s.worker in {FailClear, FailMark, DoneTestIn, DoneTestDone, DoneClear, DoneMark}
    || CalDone in s.queue[..k]
  }

  /** The calibration bits against what the worker is doing. */
  predicate BitsOk(s: State) {
    && !(s.inCal && s.calDone)
    && match s.worker
       case StartTestIn => !s.calDone
       case StartProbe => !s.inCal && !s.calDone
       case StartMark => !s.inCal && !s.calDone
       case StartPower => s.inCal && !s.calDone
       case FailClear => !s.calDone
       case FailMark => !s.inCal && !s.calDone
       case DoneTestDone => s.inCal
       case DoneClear => s.inCal && !s.calDone
       case DoneMark => !s.inCal && !s.calDone
       case _ => true
  }

  predicate ThreadOk(s: State, pc: ThreadPc) {
    match pc
    case WorkAlloc => Begun(s)
    case WorkPostDone => Begun(s)
    case WorkPostRegister => Begun(s) && Covered(s, |s.queue|)
    case UserPost => s.calDone
    case _ => true
  }

  ghost predicate Inv(s: State) {
    && s.cbcEnabled
    && BitsOk(s)
    && (s.worker == RegisterRun ==> s.calDone)
    && (forall id :: id in s.threads ==> ThreadOk(s, s.threads[id]))
    && (forall k :: 0 <= k < |s.queue| && s.queue[k] == Register ==> Begun(s) && Covered(s, k))
    && (forall k :: 0 <= k < |s.registered| ==> s.registered[k])
  }

  /** The worker takes the next event. */
  lemma {:induction false} TakePreserves(s: State, choice: bool)
    requires Inv(s) && s.worker == Idle && s.queue != []
    ensures Inv(WorkerNext(s, choice)) && (Begun(s) ==> Begun(WorkerNext(s, choice)))
  {
    var s' := WorkerNext(s, choice);
    forall k | 0 <= k <= |s'.queue| && Begun(s) && Covered(s, k + 1) ensures Covered(s', k) {
      assert s.queue[..k + 1] == [s.queue[0]] + s'.queue[..k];
    }
  }

  /** What a step inside a handler leaves alone, and what it keeps. */
  lemma {:induction false} HandlerFrame(s: State, choice: bool)
    requires BitsOk(s) && s.worker != Idle
    ensures var s' := WorkerNext(s, choice);
            && s'.queue == s.queue && s'.threads == s.threads && s'.cbcEnabled == s.cbcEnabled
            && BitsOk(s') && s'.worker != RegisterRun
            && (Begun(s) ==> Begun(s') && forall k: nat :: k <= |s.queue| && Covered(s, k) ==> Covered(s', k))
            && (s.calDone ==> s'.calDone)
  {
  }

  lemma {:induction false} HandlerPreserves(s: State, choice: bool)
    requires Inv(s) && s.worker != Idle
    ensures Inv(WorkerNext(s, choice)) && (Begun(s) ==> Begun(WorkerNext(s, choice)))
  {
    HandlerFrame(s, choice);
    assert s.worker == RegisterRun ==> WorkerNext(s, choice).registered == s.registered + [true];
    assert s.worker != RegisterRun ==> WorkerNext(s, choice).registered == s.registered;
  }

  lemma {:induction false} AppendKeepsCover(s: State, s': State, ev: Ev)
    requires s'.queue == s.queue + [ev] && s'.calDone == s.calDone && s'.worker == s.worker
    ensures forall k :: 0 <= k <= |s.queue| && Covered(s, k) ==> Covered(s', k) && Covered(s', k + 1)
  {
    forall k | 0 <= k <= |s.queue| && Covered(s, k) ensures Covered(s', k) && Covered(s', k + 1) {
      assert s'.queue[..k] == s.queue[..k];
      assert s'.queue[..k + 1][..k] == s.queue[..k];
    }
  }

  /** A post: a REGISTER needs its calibration ahead of it. */
  lemma {:induction false} PostPreserves(s: State, ev: Ev)
    requires Inv(s) && (ev == Register ==> Begun(s) && Covered(s, |s.queue|))
    ensures var s' := s.(queue := s.queue + [ev]);
            Inv(s') && (ev == CalDone ==> Covered(s', |s'.queue|)) && (Begun(s) ==> Begun(s'))
  {
    var s' := s.(queue := s.queue + [ev]);
    AppendKeepsCover(s, s', ev);
    assert s'.queue[..|s'.queue|] == s'.queue && s'.queue[|s.queue|] == ev;
  }

  lemma {:induction false} GotoPreserves(s: State, id: nat, pc: ThreadPc)
    requires Inv(s) && ThreadOk(s, pc)
    ensures Inv(Goto(s, id, pc))
  {
  }

  lemma {:induction false} ThreadPreserves(s: State, id: nat, choice: bool)
    requires Inv(s) && id in s.threads && !LosesCalDone(s, Thread(id, choice))
    ensures Inv(ThreadNext(s, id, choice))
  {
    var pc, s' := s.threads[id], ThreadNext(s, id, choice);
    assert ThreadOk(s, pc);
    if s'.queue != s.queue {
      var ev := if pc == WorkPostDone then CalDone else Register;
      PostPreserves(s, ev);
      GotoPreserves(s.(queue := s.queue + [ev]), id, s'.threads[id]);
    } else {
      GotoPreserves(s, id, s'.threads[id]);
    }
  }

  lemma {:induction false} StepPreserves(s: State, step: Step)
    requires Inv(s) && Enabled(s, step) && !LosesCalDone(s, step)
    ensures Inv(Next(s, step)) && (Begun(s) ==> Begun(Next(s, step)))
  {
    match step
    case Post(ev) => PostPreserves(s, ev);
    case Begin(_, _) =>
    case Thread(id, choice) => ThreadPreserves(s, id, choice);
    case Worker(choice) => if s.worker == Idle { TakePreserves(s, choice); } else { HandlerPreserves(s, choice); }
  }

  lemma {:induction false} RunKeepsInv(steps: seq<Step>, trace: seq<State>, i: nat)
    requires IsRun(steps, trace, false) && i <= |steps|
    ensures Inv(trace[i])
  {
    if i == 0 {
    } else {
      RunKeepsInv(steps, trace, i - 1);
      StepPreserves(trace[i - 1], steps[i - 1]);
    }
  }

  lemma {:induction false} StepKeepsBits(s: State, step: Step)
    requires BitsOk(s) && Enabled(s, step)
    ensures BitsOk(Next(s, step)) && (Begun(s) ==> Begun(Next(s, step)))
  {
  }

  /** Calibration is never both running and finished, whatever posts fail. */
  lemma {:induction false} NeverBoth(steps: seq<Step>, trace: seq<State>, lossy: bool, i: nat)
    requires IsRun(steps, trace, lossy) && i <= |steps|
    ensures BitsOk(trace[i]) && !(trace[i].inCal && trace[i].calDone)
  {
    if i == 0 {
    } else {
      NeverBoth(steps, trace, lossy, i - 1);
      StepKeepsBits(trace[i - 1], steps[i - 1]);
    }
  }

  /** Once begun, calibration ends only by being marked done: whenever the worker
      is idle after that, it is still running or marked done. */
  lemma {:induction false} BegunStaysBegun(steps: seq<Step>, trace: seq<State>, lossy: bool, i: nat, j: nat)
    requires IsRun(steps, trace, lossy) && i <= j <= |steps| && Begun(trace[i])
    ensures Begun(trace[j]) && (trace[j].worker == Idle ==> trace[j].inCal || trace[j].calDone)
  {
    if i < j {
      BegunStaysBegun(steps, trace, lossy, i, j - 1);
      NeverBoth(steps, trace, lossy, j - 1);
      StepKeepsBits(trace[j - 1], steps[j - 1]);
    }
  }

  lemma {:induction false} LongerRun(steps: seq<Step>, trace: seq<State>, lossy: bool, step: Step)
    requires IsRun(steps, trace, lossy) && Enabled(trace[|steps|], step)
    requires LosesCalDone(trace[|steps|], step) ==> lossy
    ensures IsRun(steps + [step], trace + [Next(trace[|steps|], step)], lossy)
  {
    hide Next, Enabled, LosesCalDone;
    var steps', trace' := steps + [step], trace + [Next(trace[|steps|], step)];
    assert forall i :: 0 <= i < |steps| ==> steps'[i] == steps[i] && trace'[i] == trace[i];
  }

  // ------------------------------------------------------- what a handler ends with

  function WorkerRank(w: WorkerPc): nat {
    match w
    case Idle => 0
    case StartTestDone => 7
    case StartTestIn => 6
    case StartProbe => 5
    case StartMark => 4
    case StartPower => 3
    case FailClear => 2
    case FailMark => 1
    case DoneTestIn => 4
    case DoneTestDone => 3
    case DoneClear => 2
    case DoneMark => 1
    case RegisterRun => 1
    case OtherRun => 1
  }

  lemma {:induction false} WorkerProgress(s: State, choice: bool)
    requires s.worker == Idle ==> s.queue != []
    ensures var e := WorkerNext(s, choice); 8 * |e.queue| + WorkerRank(e.worker) < 8 * |s.queue| + WorkerRank(s.worker)
    ensures s.worker != Idle ==> WorkerNext(s, choice).queue == s.queue
  {
  }

  /** The handler at hand runs to its end; choices(k) is the outcome of its k-th step. */
  function ToIdle(s: State, choices: nat -> bool, k: nat): State
    decreases WorkerRank(s.worker)
  {
    if s.worker == Idle then s
    else
      WorkerProgress(s, choices(k));
      ToIdle(WorkerNext(s, choices(k)), choices, k + 1)
  }

  /** Handling CAL_START: nothing if calibration has run or runs, or cannot begin now;
      else it is running, if the probe has come (step 2) and power comes up (step 4), or
      is marked done without having run. */
  lemma {:induction false} CalStartHandled(s: State, choices: nat -> bool)
    requires s.worker == StartTestDone && BitsOk(s)
    ensures ToIdle(s, choices, 0) ==
              if s.calDone || s.inCal || !choices(1) then s.(worker := Idle)
              else if choices(2) && choices(4) then s.(worker := Idle, inCal := true)
              else s.(worker := Idle, calDone := true)
  {
    hide ToIdle, BitsOk;
    var s1 := s.(worker := StartTestIn);
    HandlerStep(s, choices, 0);
    if !s.calDone {
      HandlerStep(s1, choices, 1);
      if !s.inCal && choices(1) { ProbeHandled(s.(worker := StartProbe), choices); }
    }
  }

  lemma {:induction false} ProbeHandled(s: State, choices: nat -> bool)
    requires s.worker == StartProbe && !s.inCal && !s.calDone
    ensures ToIdle(s, choices, 2) ==
              if choices(2) && choices(4) then s.(worker := Idle, inCal := true)
              else s.(worker := Idle, calDone := true)
  {
    hide ToIdle;
    HandlerStep(s, choices, 2);
    if choices(2) {
      var on := s.(worker := StartPower, inCal := true);
      HandlerStep(s.(worker := StartMark), choices, 3);
      HandlerStep(on, choices, 4);
      if !choices(4) { FailedHandled(on.(worker := FailClear), choices, 5); }
    } else {
      FailedHandled(s.(worker := FailClear), choices, 3);
    }
  }

  lemma {:induction false} HandlerStep(s: State, choices: nat -> bool, k: nat)
    requires s.worker != Idle
    ensures ToIdle(s, choices, k) == ToIdle(WorkerNext(s, choices(k)), choices, k + 1)
    ensures WorkerNext(s, choices(k)).worker == Idle ==> ToIdle(s, choices, k) == WorkerNext(s, choices(k))
  {
  }

  lemma {:induction false} FailedHandled(s: State, choices: nat -> bool, k: nat)
    requires s.worker == FailClear
    ensures ToIdle(s, choices, k) == s.(worker := Idle, inCal := false, calDone := true)
  {
    HandlerStep(s, choices, k);
    HandlerStep(s.(inCal := false, worker := FailMark), choices, k + 1);
    hide ToIdle;
  }

  /** Handling CAL_DONE: calibration, if it runs, is over and marked done. */
  lemma {:induction false} CalDoneHandled(s: State, choices: nat -> bool)
    requires s.worker == DoneTestIn && BitsOk(s)
    ensures ToIdle(s, choices, 0) ==
              if s.inCal then s.(worker := Idle, inCal := false, calDone := true) else s.(worker := Idle)
  {
    hide ToIdle;
    HandlerStep(s, choices, 0);
    if s.inCal {
      HandlerStep(s.(worker := DoneTestDone), choices, 1);
      HandlerStep(s.(worker := DoneClear), choices, 2);
      HandlerStep(s.(worker := DoneMark, inCal := false), choices, 3);
    }
  }

  /** Handling the others: a registration is carried out, once, and nothing else changes. */
  lemma {:induction false} OthersHandled(s: State, choices: nat -> bool)
    requires s.worker == RegisterRun || s.worker == OtherRun
    ensures ToIdle(s, choices, 0) ==
              s.(worker := Idle,
                 registered := if s.worker == RegisterRun then s.registered + [s.calDone] else s.registered)
  {
    HandlerStep(s, choices, 0);
    hide ToIdle;
  }

  /** From every state, and whatever the handlers' outcomes, the worker comes to handle
      all that is queued. */
  lemma {:induction false} WorkerDrains(steps: seq<Step>, trace: seq<State>, lossy: bool, choices: nat -> bool)
    returns (steps': seq<Step>, trace': seq<State>)
    requires IsRun(steps, trace, lossy)
    ensures IsRun(steps', trace', lossy) && steps <= steps' && trace <= trace'
    ensures trace'[|steps'|].worker == Idle && trace'[|steps'|].queue == []
    ensures forall k :: |steps| <= k < |steps'| ==> steps'[k] == Worker(choices(k))
    decreases 8 * |trace[|steps|].queue| + WorkerRank(trace[|steps|].worker)
  {
    hide ThreadNext, WorkerNext;
    var s, step := trace[|steps|], Worker(choices(|steps|));
    if s.worker == Idle && s.queue == [] {
      steps', trace' := steps, trace;
    } else {
      WorkerProgress(s, step.choice);
      LongerRun(steps, trace, lossy, step);
      steps', trace' := WorkerDrains(steps + [step], trace + [Next(s, step)], lossy, choices);
    }
  }

  // --------------------------------------------------- who registers, and how often

  /** The steps in which a REGISTER event is put on the queue. */
  function RegisterPosts(steps: seq<Step>, trace: seq<State>, i: nat): nat
    requires i <= |steps| && i <= |trace|
  {
    if i == 0 then 0
    else
      RegisterPosts(steps, trace, i - 1) +
      if AsksToRegister(trace[i - 1], steps[i - 1]) && steps[i - 1].choice then 1 else 0
  }

  /** A thread tries to post a REGISTER event in this step. */
  predicate AsksToRegister(s: State, step: Step) {
    step.Thread? && step.id in s.threads && s.threads[step.id] in {WorkPostRegister, UserPost}
  }

  function CountIn(queue: seq<Ev>, ev: Ev): nat {
    if queue == [] then 0 else CountIn(queue[..|queue| - 1], ev) + if queue[|queue| - 1] == ev then 1 else 0
  }

  lemma {:induction false} CountTail(queue: seq<Ev>, ev: Ev)
    requires queue != []
    ensures CountIn(queue, ev) == CountIn(queue[1..], ev) + if queue[0] == ev then 1 else 0
  {
    if |queue| > 1 {
      CountTail(queue[..|queue| - 1], ev);
      assert queue[..|queue| - 1][1..] == queue[1..][..|queue| - 2];
    }
  }

  lemma {:induction false} CountAppend(queue: seq<Ev>, ev: Ev, e: Ev)
    ensures CountIn(queue + [e], ev) == CountIn(queue, ev) + if e == ev then 1 else 0
  {
    assert (queue + [e])[..|queue|] == queue;
  }

  /** The registrations handled, being handled and queued. */
  function Registrations(s: State): nat {
    |s.registered| + (if s.worker == RegisterRun then 1 else 0) + CountIn(s.queue, Register)
  }

  lemma {:induction false} ThreadCounts(s: State, id: nat, choice: bool)
    requires id in s.threads
    ensures Registrations(ThreadNext(s, id, choice))
         == Registrations(s) + if AsksToRegister(s, Thread(id, choice)) && choice then 1 else 0
  {
    hide CountIn;
    match s.threads[id]
    case WorkPostDone => CountAppend(s.queue, Register, CalDone);
    case WorkPostRegister => CountAppend(s.queue, Register, Register);
    case UserPost => CountAppend(s.queue, Register, Register);
    case _ => assert ThreadNext(s, id, choice).queue == s.queue;
  }

  lemma {:induction false} WorkerCounts(s: State, choice: bool)
    requires s.worker == Idle ==> s.queue != []
    ensures Registrations(WorkerNext(s, choice)) == Registrations(s)
  {
    hide CountIn;
    if s.worker == Idle { CountTail(s.queue, Register); }
  }

  lemma {:induction false} StepCounts(s: State, step: Step)
    requires Enabled(s, step)
    ensures Registrations(Next(s, step)) == Registrations(s) + if AsksToRegister(s, step) && step.choice then 1 else 0
  {
    hide CountIn, ThreadNext, WorkerNext;
    match step
    case Post(ev) => CountAppend(s.queue, Register, ev);
    case Begin(_, _) =>
    case Thread(id, choice) => ThreadCounts(s, id, choice);
    case Worker(choice) => WorkerCounts(s, choice);
  }

  /** Every REGISTER event posted is handled once: the handled ones, the one being
      handled and the queued ones are as many as were posted. */
  lemma {:induction false} RegistrationsConserved(steps: seq<Step>, trace: seq<State>, lossy: bool, i: nat)
    requires IsRun(steps, trace, lossy) && i <= |steps|
    ensures Registrations(trace[i]) == RegisterPosts(steps, trace, i)
  {
    if i == 0 {
    } else {
      RegistrationsConserved(steps, trace, lossy, i - 1);
      StepCounts(trace[i - 1], steps[i - 1]);
    }
  }

  /** A thread has passed its last test in this step: a caller found calibration done;
      the work, still wanted, found it done, or found it running and could allocate. */
  predicate Passes(s: State, step: Step, id: nat) {
    step.Thread? && step.id == id && id in s.threads &&
    match s.threads[id]
    case UserTest => s.calDone || !s.cbcEnabled
    case WorkTestDone => step.choice && s.calDone
    case WorkAlloc => step.choice
    case _ => false
  }

  predicate HasPassed(steps: seq<Step>, trace: seq<State>, i: nat, id: nat)
    requires i <= |steps| && i <= |trace|
  {
    exists j :: 0 <= j < i && PassesAt(steps, trace, j, id)
  }

  predicate PassesAt(steps: seq<Step>, trace: seq<State>, j: nat, id: nat)
    requires j < |steps| && j < |trace|
  {
    Passes(trace[j], steps[j], id)
  }

  predicate HasAsked(steps: seq<Step>, trace: seq<State>, i: nat, id: nat)
    requires i <= |steps| && i <= |trace|
  {
    exists j :: 0 <= j < i && AsksAt(steps, trace, j, id)
  }

  predicate AsksAt(steps: seq<Step>, trace: seq<State>, j: nat, id: nat)
    requires j < |steps| && j < |trace|
  {
    AsksToRegister(trace[j], steps[j]) && steps[j].id == id
  }

  /** Where a thread that has passed, or has asked, stands. */
  predicate ThreadFate(s: State, id: nat, passed: bool, asked: bool) {
    && (passed <==> asked || (id in s.threads && s.threads[id] in {WorkPostDone, WorkPostRegister, UserPost}))
    && (asked ==> id in s.threads && s.threads[id] == Ended)
  }

  lemma {:induction false} ThreadKeepsFate(s: State, id: nat, choice: bool, passed: bool, asked: bool)
    requires id in s.threads && s.threads[id] != Ended && ThreadFate(s, id, passed, asked)
    ensures ThreadFate(ThreadNext(s, id, choice), id, passed || Passes(s, Thread(id, choice), id),
                       asked || AsksToRegister(s, Thread(id, choice)))
  {
  }

  lemma {:induction false} StepKeepsFate(s: State, step: Step, id: nat, passed: bool, asked: bool)
    requires Enabled(s, step) && ThreadFate(s, id, passed, asked)
    ensures ThreadFate(Next(s, step), id, passed || Passes(s, step, id),
                       asked || (AsksToRegister(s, step) && step.id == id))
  {
    hide ThreadNext, WorkerNext;
    if step.Thread? && step.id == id { ThreadKeepsFate(s, id, step.choice, passed, asked); }
  }

  lemma {:induction false} HasPassedNext(steps: seq<Step>, trace: seq<State>, i: nat, id: nat)
    requires i < |steps| && i < |trace|
    ensures HasPassed(steps, trace, i + 1, id) <==> HasPassed(steps, trace, i, id) || PassesAt(steps, trace, i, id)
  {
    hide PassesAt;
    if PassesAt(steps, trace, i, id) { assert HasPassed(steps, trace, i + 1, id); }
  }

  lemma {:induction false} HasAskedNext(steps: seq<Step>, trace: seq<State>, i: nat, id: nat)
    requires i < |steps| && i < |trace|
    ensures HasAsked(steps, trace, i + 1, id) <==> HasAsked(steps, trace, i, id) || AsksAt(steps, trace, i, id)
  {
    hide AsksAt;
    if AsksAt(steps, trace, i, id) { assert HasAsked(steps, trace, i + 1, id); }
  }

  lemma {:induction false} FateHolds(steps: seq<Step>, trace: seq<State>, lossy: bool, i: nat, id: nat)
    requires IsRun(steps, trace, lossy) && i <= |steps|
    ensures ThreadFate(trace[i], id, HasPassed(steps, trace, i, id), HasAsked(steps, trace, i, id))
  {
    if i == 0 {
    } else {
      FateHolds(steps, trace, lossy, i - 1, id);
      HasPassedNext(steps, trace, i - 1, id);
      HasAskedNext(steps, trace, i - 1, id);
      StepKeepsFate(trace[i - 1], steps[i - 1], id, HasPassed(steps, trace, i - 1, id),
                    HasAsked(steps, trace, i - 1, id));
    }
  }

  /** A thread that has ended has asked for a registration exactly if it passed its
      tests. */
  lemma {:induction false} AskedIffPassed(steps: seq<Step>, trace: seq<State>, lossy: bool, i: nat, id: nat)
    requires IsRun(steps, trace, lossy) && i <= |steps| && id in trace[i].threads && trace[i].threads[id] == Ended
    ensures HasAsked(steps, trace, i, id) <==> HasPassed(steps, trace, i, id)
  {
    FateHolds(steps, trace, lossy, i, id);
  }

  lemma {:induction false} Extend(steps: seq<Step>, trace: seq<State>, lossy: bool, step: Step)
    returns (steps': seq<Step>, trace': seq<State>)
    requires IsRun(steps, trace, lossy) && Enabled(trace[|steps|], step)
    requires LosesCalDone(trace[|steps|], step) ==> lossy
    ensures IsRun(steps', trace', lossy) && trace'[|steps'|] == Next(trace[|steps|], step)
    ensures steps' == steps + [step]
  {
    steps', trace' := steps + [step], trace + [Next(trace[|steps|], step)];
    LongerRun(steps, trace, lossy, step);
  }

  /** Calibration is started and runs. */
  lemma {:induction false} CalibratingRun() returns (steps: seq<Step>, trace: seq<State>)
    ensures IsRun(steps, trace, true) && trace[|steps|] == INITIAL.(inCal := true)
  {
    steps, trace := Extend([], [INITIAL], true, Post(CalStart));
    steps, trace := Extend(steps, trace, true, Worker(true));
    steps, trace := Extend(steps, trace, true, Worker(true));
    steps, trace := Extend(steps, trace, true, Worker(true));
    steps, trace := Extend(steps, trace, true, Worker(true));
    steps, trace := Extend(steps, trace, true, Worker(true));
    steps, trace := Extend(steps, trace, true, Worker(true));
  }

  /** Calibration has run. */
  lemma {:induction false} CalibratedRun() returns (steps: seq<Step>, trace: seq<State>)
    ensures IsRun(steps, trace, true) && trace[|steps|] == INITIAL.(calDone := true)
  {
    steps, trace := CalibratingRun();
    steps, trace := Extend(steps, trace, true, Post(CalDone));
    steps, trace := Extend(steps, trace, true, Worker(true));
    steps, trace := Extend(steps, trace, true, Worker(true));
    steps, trace := Extend(steps, trace, true, Worker(true));
    steps, trace := Extend(steps, trace, true, Worker(true));
    steps, trace := Extend(steps, trace, true, Worker(true));
  }

  /** A driver that registers after calibration is registered. */
  lemma {:induction false} RegisteredRun() returns (steps: seq<Step>, trace: seq<State>)
    ensures IsRun(steps, trace, true) && trace[|steps|].registered == [true]
    ensures Begin(0, false) in steps && trace[|steps|].threads.Keys == {0}
  {
    steps, trace := CalibratedRun();
    steps, trace := Extend(steps, trace, true, Begin(0, false));
    assert steps[|steps| - 1] == Begin(0, false);
    steps, trace := Extend(steps, trace, true, Thread(0, true));
    steps, trace := Extend(steps, trace, true, Thread(0, true));
    steps, trace := Extend(steps, trace, true, Worker(true));
    steps, trace := Extend(steps, trace, true, Worker(true));
  }

  /** The work's CAL_DONE post fails, and registration overtakes calibration. */
  lemma {:induction false} LostCalDoneRun() returns (steps: seq<Step>, trace: seq<State>)
    ensures IsRun(steps, trace, true) && trace[|steps|].registered == [false]
  {
    steps, trace := CalibratingRun();
    steps, trace := Extend(steps, trace, true, Begin(0, true));
    steps, trace := Extend(steps, trace, true, Thread(0, true));
    steps, trace := Extend(steps, trace, true, Thread(0, true));
    steps, trace := Extend(steps, trace, true, Thread(0, true));
    steps, trace := Extend(steps, trace, true, Thread(0, false));
    steps, trace := Extend(steps, trace, true, Thread(0, true));
    steps, trace := Extend(steps, trace, true, Worker(true));
    steps, trace := Extend(steps, trace, true, Worker(true));
  }

  /** With cold-boot calibration enabled, every REGISTER event of every run is
      handled with COLD_BOOT_CAL_DONE set, exactly if the registration work's
      CAL_DONE posts do not fail.  Other posts may fail freely. */
  lemma {:induction false} RegisterAfterCalIff(lossy: bool)
    ensures !lossy <==>
            forall steps: seq<Step>, trace: seq<State> :: IsRun(steps, trace, lossy) ==>
              forall k :: 0 <= k < |trace[|steps|].registered| ==> trace[|steps|].registered[k]
  {
    if lossy {
      var steps, trace := LostCalDoneRun();
      assert !trace[|steps|].registered[0];
    } else {
      forall steps: seq<Step>, trace: seq<State> | IsRun(steps, trace, lossy)
        ensures forall k :: 0 <= k < |trace[|steps|].registered| ==> trace[|steps|].registered[k]
      {
        RunKeepsInv(steps, trace, |steps|);
      }
    }
  }
}
