/**
 The WLFW service: QMI callbacks announce a server or its end; the worker
 handles the resulting ARRIVE and EXIT events.  While an EXIT is pending,
 QMI_DEL_SERVER makes the callbacks ignore everything, and handling it replaces
 the QMI handle, whose lookup then reports the server anew.

 The callbacks of one handle run one after another and alternate: a server is
 reported gone only after it was reported, and vice versa.  Releasing a handle
 reports the server it knows as gone and waits for its callbacks.  Callbacks and
 worker interleave at every access to the state bits and to the queue.
 */
module WlfwServer {
  datatype Ev = Arrive | Exit

  datatype WorkerPc =
    | Idle
    | ArriveTest          // ARRIVE: test QMI_WLFW_CONNECTED
    | ArriveConnect       //   connect the socket, set QMI_WLFW_CONNECTED
    | ExitClear           // EXIT: clear QMI_WLFW_CONNECTED
    | ExitRelease         //   release the handle
    | ExitEnable          //   clear QMI_DEL_SERVER
    | ExitInit            //   a new handle and lookup

  /** The callback that is running, past its test of QMI_DEL_SERVER. */
  datatype Callback =
    | NoCallback
    | NewTested           // new server: allocate the event data, post ARRIVE
    | DelTested           // server gone: set QMI_DEL_SERVER
    | DelMarked           //   post EXIT

  /** `live`: the current handle delivers callbacks; `known`: it has reported a
      server that it has not reported gone.  `posted` records every event put on
      the queue, `unexpected` counts ARRIVEs that found the service connected. */
  datatype State = State(
    live: bool,
    known: bool,
    callback: Callback,
    delServer: bool,
    connected: bool,
    queue: seq<Ev>,
    worker: WorkerPc,
    posted: seq<Ev>,
    unexpected: nat)

  const INITIAL: State := State(true, false, NoCallback, false, false, [], Idle, [], 0)

  /** `alloc` and `post` tell whether a callback's allocation and post succeed. */
  datatype Step = NewServer | DelServer | InCallback(alloc: bool, post: bool) | Worker(choice: bool)

  predicate Enabled(s: State, step: Step) {
    match step
    case NewServer => s.live && !s.known && s.callback == NoCallback
    case DelServer => s.live && s.known && s.callback == NoCallback
    case InCallback(_, _) => s.callback != NoCallback
    case Worker(_) =>
      && (s.worker == Idle ==> s.queue != [])
      && (s.worker == ExitRelease ==> s.callback == NoCallback)
  }

  function Post(s: State, ev: Ev, ok: bool): State {
    if ok then s.(queue := s.queue + [ev], posted := s.posted + [ev]) else s
  }

  function OnNew(s: State): State {
    s.(known := true, callback := if s.delServer then NoCallback else NewTested)
  }

  function OnDel(s: State): State {
    s.(known := false, callback := if s.delServer then NoCallback else DelTested)
  }

  /** A callback that cannot allocate its event data returns an error, and the QMI
      core does not count the server as reported. */
  function CallbackNext(s: State, alloc: bool, post: bool): State {
    match s.callback
    case NoCallback => s
    case NewTested =>
      if !alloc then s.(known := false, callback := NoCallback) else Post(s.(callback := NoCallback), Arrive, post)
    case DelTested => s.(delServer := true, callback := DelMarked)
    case DelMarked => Post(s.(callback := NoCallback), Exit, post)
  }

  function WorkerNext(s: State, choice: bool): State
    requires s.worker == Idle ==> s.queue != []
  {
    match s.worker
    case Idle => s.(queue := s.queue[1..], worker := if s.queue[0] == Arrive then ArriveTest else ExitClear)
    case ArriveTest =>
      if s.connected then s.(unexpected := s.unexpected + 1, worker := Idle) else s.(worker := ArriveConnect)
    case ArriveConnect => s.(connected := s.connected || choice, worker := Idle)
    case ExitClear => s.(connected := false, worker := ExitRelease)
    case ExitRelease => if s.live && s.known then OnDel(s) else s.(live := false, worker := ExitEnable)
    case ExitEnable => s.(delServer := false, worker := ExitInit)
    case ExitInit => s.(live := choice, known := false, worker := Idle)
  }

  function Next(s: State, step: Step): State
    requires Enabled(s, step)
  {
    match step
    case NewServer => OnNew(s)
    case DelServer => OnDel(s)
    case InCallback(alloc, post) => CallbackNext(s, alloc, post)
    case Worker(choice) => WorkerNext(s, choice)
  }

  /** The post of an ARRIVE fails. */
  predicate LosesArrive(s: State, step: Step) {
    step.InCallback? && s.callback == NewTested && step.alloc && !step.post
  }

  ghost predicate IsRun(steps: seq<Step>, trace: seq<State>, lossy: bool) {
    && |trace| == |steps| + 1
    && trace[0] == INITIAL
    && forall i :: 0 <= i < |steps| ==>
         && Enabled(trace[i], steps[i])
         && trace[i + 1] == Next(trace[i], steps[i])
         && (LosesArrive(trace[i], steps[i]) ==> lossy)
  }

  /** ARRIVE, EXIT, ARRIVE, ... */
  ghost predicate Alternates(evs: seq<Ev>) {
    forall i :: 0 <= i < |evs| ==> evs[i] == if i % 2 == 0 then Arrive else Exit
  }

  /** No two ARRIVEs without an EXIT between them. */
  ghost predicate NoDoubleArrive(evs: seq<Ev>) {
    forall i :: 0 < i < |evs| ==> !(evs[i - 1] == Arrive && evs[i] == Arrive)
  }

  predicate LastIsArrive(evs: seq<Ev>) {
    evs != [] && evs[|evs| - 1] == Arrive
  }

  /** The handled events: everything posted that is no longer queued. */
  function Taken(s: State): seq<Ev>
    requires |s.queue| <= |s.posted|
  {
    s.posted[..|s.posted| - |s.queue|]
  }

  predicate Exiting(w: WorkerPc) {
    w == ExitClear || w == ExitRelease || w == ExitEnable
  }

  /** What a running callback relies on. */
  predicate CallbackOk(s: State) {
    match s.callback
    case NoCallback => true
    case NewTested => s.live && s.known && !s.delServer && !LastIsArrive(s.posted)
    case DelTested => s.live && !s.known && !s.delServer
    case DelMarked =>
      s.live && !s.known && s.delServer && Exit !in s.queue && !Exiting(s.worker) && s.worker != ExitInit
  }

  ghost predicate QueueOk(s: State) {
    && |s.queue| <= |s.posted| && s.queue == s.posted[|s.posted| - |s.queue|..]
    && NoDoubleArrive(s.posted)
    // An EXIT is the last thing queued.
    && (forall i :: 0 <= i < |s.queue| - 1 ==> s.queue[i] == Arrive)
  }

  predicate BitsOk(s: State) {
    && (s.known ==> s.live)
    // An open ARRIVE belongs to the server the live handle knows, unless its end is being announced.
    && (LastIsArrive(s.posted) ==> s.delServer || (s.live && s.known) || s.callback == DelTested)
    // An EXIT keeps QMI_DEL_SERVER set until it is handled.
    && (Exit in s.queue || Exiting(s.worker) ==> s.delServer)
    && (Exiting(s.worker) || s.worker == ExitInit ==> s.queue == [] && !LastIsArrive(s.posted))
    && (s.worker == ExitInit || s.worker == ExitEnable ==> !s.live && !s.known)
    && (s.worker == ExitInit ==> !s.delServer)
    && CallbackOk(s)
  }

  /** The connection belongs to the ARRIVE handled last. */
  predicate ConnectionOk(s: State)
    requires |s.queue| <= |s.posted|
  {
    && s.unexpected == 0
    && (s.connected && s.worker != ExitClear ==> LastIsArrive(Taken(s)))
    && (s.worker == ArriveTest || s.worker == ArriveConnect ==> LastIsArrive(Taken(s)) && !s.connected)
  }

  ghost predicate Inv(s: State) {
    QueueOk(s) && BitsOk(s) && ConnectionOk(s)
  }

  lemma {:induction false} PostKeepsTaken(s: State, s': State, ev: Ev)
    requires |s.queue| <= |s.posted| && s'.queue == s.queue + [ev] && s'.posted == s.posted + [ev]
    ensures Taken(s') == Taken(s)
    ensures s.queue == s.posted[|s.posted| - |s.queue|..] ==> s'.queue == s'.posted[|s'.posted| - |s'.queue|..]
  {
  }

  lemma {:induction false} PostKeepsOrder(s: State, s': State, ev: Ev)
    requires |s.queue| <= |s.posted| && s'.queue == s.queue + [ev] && s'.posted == s.posted + [ev]
    requires NoDoubleArrive(s.posted) && (ev == Arrive ==> !LastIsArrive(s.posted))
    requires forall i :: 0 <= i < |s.queue| ==> s.queue[i] == Arrive
    ensures NoDoubleArrive(s'.posted) && (LastIsArrive(s'.posted) <==> ev == Arrive)
    ensures forall i :: 0 <= i < |s'.queue| - 1 ==> s'.queue[i] == Arrive
    ensures Exit in s'.queue <==> ev == Exit
  {
    assert s'.queue[|s.queue|] == ev;
  }

  lemma {:induction false} NoExitMeansArrives(s: State)
    requires QueueOk(s) && Exit !in s.queue
    ensures forall i :: 0 <= i < |s.queue| ==> s.queue[i] == Arrive
  {
  }

  /** A post keeps the invariant if it is in order and the bits fit. */
  lemma {:induction false} PostPreserves(s: State, ev: Ev, ok: bool)
    requires QueueOk(s) && ConnectionOk(s) && Exit !in s.queue && (ev == Arrive ==> !LastIsArrive(s.posted))
    ensures var s' := Post(s, ev, ok);
            && QueueOk(s') && ConnectionOk(s')
            && (ok ==> (LastIsArrive(s'.posted) <==> ev == Arrive) && (Exit in s'.queue <==> ev == Exit))
  {
    if ok {
      NoExitMeansArrives(s);
      PostKeepsTaken(s, Post(s, ev, ok), ev);
      PostKeepsOrder(s, Post(s, ev, ok), ev);
    }
  }

  lemma {:induction false} BeginPreserves(s: State)
    requires Inv(s) && s.live && s.callback == NoCallback
    ensures !s.known ==> Inv(OnNew(s))
    ensures s.known ==> Inv(OnDel(s))
  {
  }

  lemma {:induction false} NewTestedPreserves(s: State, alloc: bool, post: bool)
    requires Inv(s) && s.callback == NewTested
    ensures Inv(CallbackNext(s, alloc, post))
  {
    var t := s.(callback := NoCallback);
    if alloc { PostPreserves(t, Arrive, post); }
  }

  lemma {:induction false} DelMarkedPreserves(s: State, alloc: bool, post: bool)
    requires Inv(s) && s.callback == DelMarked
    ensures Inv(CallbackNext(s, alloc, post))
  {
    PostPreserves(s.(callback := NoCallback), Exit, post);
  }

  lemma {:induction false} CallbackPreserves(s: State, alloc: bool, post: bool)
    requires Inv(s) && s.callback != NoCallback
    ensures Inv(CallbackNext(s, alloc, post))
  {
    match s.callback
    case NoCallback =>
    case NewTested => NewTestedPreserves(s, alloc, post);
    case DelTested => assert Taken(CallbackNext(s, alloc, post)) == Taken(s);
    case DelMarked => DelMarkedPreserves(s, alloc, post);
  }

  lemma {:induction false} TakePreserves(s: State, choice: bool)
    requires Inv(s) && s.worker == Idle && s.queue != []
    ensures Inv(WorkerNext(s, choice))
  {
    hide OnDel;
    var s' := WorkerNext(s, choice);
    assert s.posted[|Taken(s)|] == s.queue[0] == Taken(s')[|Taken(s)|];
    assert Taken(s') == Taken(s) + [s.queue[0]];
    if s.queue[0] == Exit {
      assert s.queue == [Exit] && s.posted[|s.posted| - 1] == Exit;
    }
  }

  lemma {:induction false} ArrivePreserves(s: State, choice: bool)
    requires Inv(s) && (s.worker == ArriveTest || s.worker == ArriveConnect)
    ensures Inv(WorkerNext(s, choice))
  {
    assert Taken(WorkerNext(s, choice)) == Taken(s);
  }

  lemma {:induction false} ExitPreserves(s: State, choice: bool)
    requires Inv(s) && (Exiting(s.worker) || s.worker == ExitInit)
    requires s.worker == ExitRelease ==> s.callback == NoCallback
    ensures Inv(WorkerNext(s, choice))
  {
    assert Taken(WorkerNext(s, choice)) == Taken(s);
  }

  lemma {:induction false} StepPreserves(s: State, step: Step)
    requires Inv(s) && Enabled(s, step)
    ensures Inv(Next(s, step))
  {
    match step
    case NewServer => BeginPreserves(s);
    case DelServer => BeginPreserves(s);
    case InCallback(alloc, post) => CallbackPreserves(s, alloc, post);
    case Worker(choice) =>
      if s.worker == Idle {
        TakePreserves(s, choice);
      } else if s.worker == ArriveTest || s.worker == ArriveConnect {
        ArrivePreserves(s, choice);
      } else {
        ExitPreserves(s, choice);
      }
  }

  lemma {:induction false} RunKeepsInv(steps: seq<Step>, trace: seq<State>, lossy: bool, i: nat)
    requires IsRun(steps, trace, lossy) && i <= |steps|
    ensures Inv(trace[i])
  {
    if i == 0 {
    } else {
      RunKeepsInv(steps, trace, lossy, i - 1);
      StepPreserves(trace[i - 1], steps[i - 1]);
    }
  }

  /** In every run, whatever posts and connections fail: no ARRIVE finds the
      service connected, and two ARRIVEs have an EXIT between them. */
  lemma {:induction false} ArriveNeverUnexpected(steps: seq<Step>, trace: seq<State>, lossy: bool, i: nat)
    requires IsRun(steps, trace, lossy) && i <= |steps|
    ensures trace[i].unexpected == 0 && NoDoubleArrive(trace[i].posted)
    ensures trace[i].worker == ArriveTest ==> !trace[i].connected
  {
    RunKeepsInv(steps, trace, lossy, i);
  }

  /** Without lost ARRIVEs the number of events tells whether a server is up. */
  predicate ParityOk(s: State) {
    var odd := |s.posted| % 2 == 1;
    && (Exit in s.queue || Exiting(s.worker) || s.worker == ExitInit ==> !odd)
    && match s.callback
       case NoCallback => !s.delServer && s.live ==> (s.known <==> odd)
       case NewTested => !odd
       case DelTested => odd
       case DelMarked => odd
  }

  ghost predicate InStep(s: State) {
    Alternates(s.posted) && ParityOk(s)
  }

  lemma {:induction false} CallbackInStep(s: State, step: Step)
    requires Inv(s) && InStep(s) && Enabled(s, step) && !LosesArrive(s, step) && !step.Worker?
    ensures InStep(Next(s, step))
  {
  }

  lemma {:induction false} WorkerInStep(s: State, choice: bool)
    requires Inv(s) && InStep(s) && Enabled(s, Worker(choice))
    ensures InStep(WorkerNext(s, choice))
  {
    hide QueueOk, CallbackOk, ConnectionOk;
    var s' := WorkerNext(s, choice);
    assert s'.posted == s.posted;
    if s.worker == Idle {
      assert forall ev :: ev in s'.queue ==> ev in s.queue;
      assert s.queue[0] == Exit ==> Exit in s.queue;
    }
  }

  lemma {:induction false} RunInStep(steps: seq<Step>, trace: seq<State>, i: nat)
    requires IsRun(steps, trace, false) && i <= |steps|
    ensures InStep(trace[i])
  {
    if i == 0 {
    } else {
      RunInStep(steps, trace, i - 1);
      RunKeepsInv(steps, trace, false, i - 1);
      if steps[i - 1].Worker? {
        WorkerInStep(trace[i - 1], steps[i - 1].choice);
      } else {
        CallbackInStep(trace[i - 1], steps[i - 1]);
      }
    }
  }

  lemma {:induction false} LongerRun(steps: seq<Step>, trace: seq<State>, lossy: bool, step: Step)
    requires IsRun(steps, trace, lossy) && Enabled(trace[|steps|], step)
    requires LosesArrive(trace[|steps|], step) ==> lossy
    ensures IsRun(steps + [step], trace + [Next(trace[|steps|], step)], lossy)
  {
    hide Next, Enabled, LosesArrive;
    var steps', trace' := steps + [step], trace + [Next(trace[|steps|], step)];
    assert forall i :: 0 <= i < |steps| ==> steps'[i] == steps[i] && trace'[i] == trace[i];
  }

  lemma {:induction false} Extend(steps: seq<Step>, trace: seq<State>, lossy: bool, step: Step)
    returns (steps': seq<Step>, trace': seq<State>)
    requires IsRun(steps, trace, lossy) && Enabled(trace[|steps|], step)
    requires LosesArrive(trace[|steps|], step) ==> lossy
    ensures IsRun(steps', trace', lossy) && trace'[|steps'|] == Next(trace[|steps|], step)
  {
    steps', trace' := steps + [step], trace + [Next(trace[|steps|], step)];
    LongerRun(steps, trace, lossy, step);
  }

  /** The ARRIVE of a server is lost, the EXIT that follows is not. */
  lemma {:induction false} LostArriveRun() returns (steps: seq<Step>, trace: seq<State>)
    ensures IsRun(steps, trace, true) && trace[|steps|].posted == [Exit]
  {
    steps, trace := Extend([], [INITIAL], true, NewServer);
    steps, trace := Extend(steps, trace, true, InCallback(true, false));
    steps, trace := Extend(steps, trace, true, DelServer);
    steps, trace := Extend(steps, trace, true, InCallback(true, true));
    steps, trace := Extend(steps, trace, true, InCallback(true, true));
  }

  /** ARRIVE and EXIT events strictly alternate in every run exactly if no post of an
      ARRIVE fails; those of EXITs may, and so may allocations. */
  lemma {:induction false} AlternatesIff(lossy: bool)
    ensures !lossy <==>
            forall steps: seq<Step>, trace: seq<State> :: IsRun(steps, trace, lossy) ==>
              Alternates(trace[|steps|].posted)
  {
    if lossy {
      var steps, trace := LostArriveRun();
      assert trace[|steps|].posted[0] == Exit;
    } else {
      forall steps: seq<Step>, trace: seq<State> | IsRun(steps, trace, lossy)
        ensures Alternates(trace[|steps|].posted)
      {
        RunInStep(steps, trace, |steps|);
      }
    }
  }

  // ------------------------------------------------------------ coming back

  /** The driver will never connect again: no EXIT is on its way, and the handle is
      gone or QMI_DEL_SERVER, set for an EXIT that could not be posted, hides every
      server. */
  predicate Hopeless(s: State) {
    && (!s.live || s.delServer) && s.callback == NoCallback
    && Exit !in s.queue && !Exiting(s.worker) && s.worker != ExitInit
  }

  lemma {:induction false} StaysHopeless(s: State, step: Step)
    requires Hopeless(s) && Inv(s) && Enabled(s, step)
    ensures Hopeless(Next(s, step)) && Next(s, step).posted == s.posted
  {
  }

  lemma {:induction false} HopelessRun(steps: seq<Step>, trace: seq<State>, lossy: bool, i: nat, j: nat)
    requires IsRun(steps, trace, lossy) && i <= j <= |steps| && Hopeless(trace[i])
    ensures Hopeless(trace[j]) && trace[j].posted == trace[i].posted
  {
    hide Next, Inv, Hopeless;
    if i < j {
      HopelessRun(steps, trace, lossy, i, j - 1);
      RunKeepsInv(steps, trace, lossy, j - 1);
      StaysHopeless(trace[j - 1], steps[j - 1]);
    }
  }

  predicate AtRest(s: State) {
    s.callback == NoCallback && s.worker == Idle && s.queue == []
  }

  /** The next step when nothing fails and no callback begins. */
  function DrainStep(s: State): Step {
    if s.callback != NoCallback then InCallback(true, true) else Worker(true)
  }

  /** What is left to do before the driver is at rest. */
  function Left(s: State): nat {
    (match s.callback case NoCallback => 0 case NewTested => 10 case DelTested => 20 case DelMarked => 10) +
    8 * |s.queue| + (if s.known then 1 else 0) +
    match s.worker
    case Idle => 0
    case ArriveTest => 2
    case ArriveConnect => 1
    case ExitClear => 5
    case ExitRelease => 4
    case ExitEnable => 3
    case ExitInit => 2
  }

  lemma {:induction false} DrainStepIs(s: State)
    requires Inv(s) && !Hopeless(s) && !AtRest(s)
    ensures var e := Next(s, DrainStep(s));
            && Enabled(s, DrainStep(s)) && !LosesArrive(s, DrainStep(s)) && !Hopeless(e) && Left(e) < Left(s)
            && s.posted <= e.posted && (e.known ==> s.known)
  {
    if s.callback == DelMarked {
      assert (s.queue + [Exit])[|s.queue|] == Exit;
    } else if s.callback == NoCallback && s.worker == Idle {
      assert s.queue == [s.queue[0]] + s.queue[1..];
    }
  }

  lemma {:induction false} Drain(steps: seq<Step>, trace: seq<State>, lossy: bool)
    returns (steps': seq<Step>, trace': seq<State>)
    requires IsRun(steps, trace, lossy) && !Hopeless(trace[|steps|])
    ensures IsRun(steps', trace', lossy) && steps <= steps' && trace <= trace'
    ensures var s, e := trace[|steps|], trace'[|steps'|];
            AtRest(e) && e.live && !e.delServer && s.posted <= e.posted && (e.known ==> s.known)
    decreases Left(trace[|steps|])
  {
    hide Next, Inv, Left, DrainStep;
    var s := trace[|steps|];
    RunKeepsInv(steps, trace, lossy, |steps|);
    if AtRest(s) {
      steps', trace' := steps, trace;
    } else {
      DrainStepIs(s);
      LongerRun(steps, trace, lossy, DrainStep(s));
      steps', trace' := Drain(steps + [DrainStep(s)], trace + [Next(s, DrainStep(s))], lossy);
    }
  }

  /** A server reports itself. */
  lemma {:induction false} ReportRun(steps: seq<Step>, trace: seq<State>, lossy: bool)
    returns (steps': seq<Step>, trace': seq<State>)
    requires IsRun(steps, trace, lossy)
    requires var s := trace[|steps|]; AtRest(s) && s.live && !s.delServer && !s.known
    ensures IsRun(steps', trace', lossy) && steps <= steps' && trace <= trace'
    ensures var s := trace[|steps|];
            trace'[|steps'|] == s.(known := true, queue := [Arrive], posted := s.posted + [Arrive])
  {
    var s := trace[|steps|];
    var s1 := s.(known := true, callback := NewTested);
    LongerRun(steps, trace, lossy, NewServer);
    LongerRun(steps + [NewServer], trace + [s1], lossy, InCallback(true, true));
    steps', trace' := steps + [NewServer] + [InCallback(true, true)], trace + [s1] + [Next(s1, InCallback(true, true))];
  }

  /** The ARRIVE is handled. */
  lemma {:induction false} HandleRun(steps: seq<Step>, trace: seq<State>, lossy: bool)
    returns (steps': seq<Step>, trace': seq<State>)
    requires IsRun(steps, trace, lossy)
    requires var s := trace[|steps|]; s.callback == NoCallback && s.worker == Idle && s.queue == [Arrive]
    ensures IsRun(steps', trace', lossy) && steps <= steps' && trace <= trace'
    ensures trace'[|steps'|] == trace[|steps|].(queue := [], connected := true)
  {
    var s, w := trace[|steps|], Worker(true);
    var s1, s2 := s.(queue := [], worker := ArriveTest), s.(queue := [], worker := ArriveConnect);
    LongerRun(steps, trace, lossy, w);
    ArriveNeverUnexpected(steps + [w], trace + [s1], lossy, |steps| + 1);
    LongerRun(steps + [w], trace + [s1], lossy, w);
    LongerRun(steps + [w] + [w], trace + [s1] + [s2], lossy, w);
    steps', trace' := steps + [w] + [w] + [w], trace + [s1] + [s2] + [Next(s2, w)];
  }

  /** The service has been connected by an ARRIVE posted since. */
  predicate Reconnected(s: State, e: State) {
    |s.posted| < |e.posted| && LastIsArrive(e.posted) && e.connected && e.queue == []
  }

  ghost predicate CanReconnect(steps: seq<Step>, trace: seq<State>, lossy: bool)
    requires |trace| == |steps| + 1
  {
    exists steps': seq<Step>, trace': seq<State> ::
      && IsRun(steps', trace', lossy) && steps <= steps' && trace <= trace'
      && Reconnected(trace[|steps|], trace'[|steps'|])
  }

  lemma {:induction false} ReconnectRun(steps: seq<Step>, trace: seq<State>, lossy: bool)
    returns (steps': seq<Step>, trace': seq<State>)
    requires IsRun(steps, trace, lossy) && !Hopeless(trace[|steps|])
    ensures IsRun(steps', trace', lossy) && steps <= steps' && trace <= trace'
    ensures Reconnected(trace[|steps|], trace'[|steps'|])
  {
    hide Inv, Left, DrainStep;
    steps', trace' := Drain(steps, trace, lossy);
    var s := trace'[|steps'|];
    if s.known {
      LongerRun(steps', trace', lossy, DelServer);
      steps', trace' := Drain(steps' + [DelServer], trace' + [Next(s, DelServer)], lossy);
    }
    steps', trace' := ReportRun(steps', trace', lossy);
    steps', trace' := HandleRun(steps', trace', lossy);
  }

  /** In every state of every run: the service can still be connected anew exactly if
      an EXIT is on its way or the handle is alive and its servers are not hidden.  An
      EXIT that could not be posted hides them for good. */
  lemma {:induction false} CanReconnectIff(steps: seq<Step>, trace: seq<State>, lossy: bool)
    requires IsRun(steps, trace, lossy)
    ensures CanReconnect(steps, trace, lossy) <==> !Hopeless(trace[|steps|])
  {
    if Hopeless(trace[|steps|]) {
      forall steps': seq<Step>, trace': seq<State>
        | IsRun(steps', trace', lossy) && steps <= steps' && trace <= trace'
        ensures !Reconnected(trace[|steps|], trace'[|steps'|])
      {
        HopelessRun(steps', trace', lossy, |steps|, |steps'|);
      }
    } else {
      var steps', trace' := ReconnectRun(steps, trace, lossy);
      assert IsRun(steps', trace', lossy) && Reconnected(trace[|steps|], trace'[|steps'|]);
    }
  }

  /** One failed post of an EXIT is enough. */
  lemma {:induction false} LostExitRun() returns (steps: seq<Step>, trace: seq<State>)
    ensures IsRun(steps, trace, false) && Hopeless(trace[|steps|]) && trace[|steps|].live
  {
    steps, trace := Extend([], [INITIAL], false, NewServer);
    steps, trace := Extend(steps, trace, false, InCallback(true, true));
    steps, trace := Extend(steps, trace, false, Worker(true));
    steps, trace := Extend(steps, trace, false, Worker(true));
    steps, trace := Extend(steps, trace, false, Worker(true));
    steps, trace := Extend(steps, trace, false, DelServer);
    steps, trace := Extend(steps, trace, false, InCallback(true, true));
    steps, trace := Extend(steps, trace, false, InCallback(true, false));
  }
}
