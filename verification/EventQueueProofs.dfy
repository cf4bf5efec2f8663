/** The invariant of the driver event queue, and what it says about whole runs. */
module EventQueueProofs {
  import opened Common
  import opened EventQueue

  /** How far the worker is with one event. */
  datatype Stage = Out | Listed | Held(w: WorkerPc)

  /** All there is to know about one call and its event. */
  datatype View = View(call: Option<Call>, ev: Option<Event>, stage: Stage,
                       enqueued: bool, freed: bool, result: Option<int>)

  ghost function ViewOf(s: State, id: nat): View {
    View(if id in s.calls then Some(s.calls[id]) else None,
         if id in s.heap then Some(s.heap[id]) else None,
         if id in Current(s.worker) then Held(s.worker) else if id in s.queue then Listed else Out,
         id in s.enqueued,
         id in s.freed,
         if id in s.results then Some(s.results[id]) else None)
  }

  /** A wait that a signal can cut short. */
  predicate Breakable(w: Wait) {
    w.Killable? || w.Interruptible?
  }

  /** Nobody refers to the event any more: its caller took the handler's result for
      "still pending" and gave it up after the worker was through with it. */
  predicate Leaked(v: View) {
    && v.ev.Some? && v.stage == Out && v.result == Some(EVENT_PENDING)
    && v.call.Some? && Breakable(v.call.value.wait)
  }

  /** The poster no longer refers to the event: the worker must free it, or has, or
      the event is leaked. */
  predicate Abandoned(v: View) {
    if v.ev.Some? then
      && !v.ev.value.sync && !v.freed && !(v.stage.Held? && v.stage.w.WComplete?)
      && (v.stage == Out ==> Leaked(v))
    else v.freed && v.stage == Out
  }

  /** The poster still refers to the event and frees it, unless a signal gets it
      out of the wait before the worker has stored the result. */
  predicate Owned(v: View) {
    && v.ev.Some? && !v.freed && v.ev.value.sync
    && match v.stage
       case Out => v.ev.value.done && v.result == Some(v.ev.value.ret)
       case Listed => !v.ev.value.done && v.ev.value.ret == EVENT_PENDING
       case Held(w) =>
         && !v.ev.value.done && !w.WFree?
         && (if w.WComplete? then v.result == Some(v.ev.value.ret) else v.ev.value.ret == EVENT_PENDING)
  }

  /** What an accepted call has returned, or is about to return. */
  predicate ReturnOk(v: View, ret: int)
    requires v.call.Some?
  {
    if v.call.value.wait == Async then ret == 0 && Abandoned(v)
    else || (ret == -EINTR && Breakable(v.call.value.wait) && Abandoned(v))
         || (v.result == Some(ret) && v.ev == None && v.freed && v.stage == Out)
  }

  /** The worker's side of an event. */
  predicate StageOk(v: View) {
    && (v.stage != Out ==> v.ev.Some? && v.enqueued)
    && (v.result.Some? ==> v.enqueued)
    && match v.stage
       case Out => v.enqueued ==> v.result.Some?
       case Listed => v.result == None
       case Held(w) =>
         match w
         case WFinish(_, r) => v.result == Some(r)
         case WComplete(_) => v.result.Some? && v.ev.value.sync
         case WFree(_) => v.result.Some? && !v.ev.value.sync
         case _ => v.result == None
  }

  /** A caller that is out of its wait. */
  predicate WokenOk(v: View, signal: bool)
    requires v.call.Some?
  {
    var wait := v.call.value.wait;
    v.enqueued && wait != Async && Owned(v) && if signal then Breakable(wait) else v.ev.value.done
  }

  /** The caller's side of an event. */
  predicate PosterOk(v: View)
    requires v.call.Some?
  {
    var c := v.call.value;
    match c.pc
    case PEntry => v.ev == None && !v.enqueued && !v.freed
    case PPrepared => v.ev == Some(Event(c.kind, c.wait != Async, EVENT_PENDING, false)) && !v.enqueued && !v.freed
    case PKick => v.enqueued && if c.wait == Async then Abandoned(v) else Owned(v)
    case PWaiting => v.enqueued && c.wait != Async && Owned(v)
    case PWoken(signal) => WokenOk(v, signal)
    case PCheck(signal) => WokenOk(v, signal)
    case PCollect => v.enqueued && c.wait != Async && Owned(v) && v.stage == Out
    case PRelax(ret) => v.enqueued && ReturnOk(v, ret)
    case PDone(ret) =>
      if v.enqueued then ReturnOk(v, ret)
      else v.ev == None && !v.freed && ret == if c.kind >= EVENT_MAX then -EINVAL else -ENOMEM
  }

  predicate ViewOk(v: View) {
    && StageOk(v)
    && match v.call
       case None => v.ev == None && !v.enqueued && !v.freed
       case Some(c) =>
         && PosterOk(v)
         && (v.ev.Some? ==> v.ev.value.kind == c.kind < EVENT_MAX)
         && (v.enqueued ==> c.kind < EVENT_MAX)
  }

  ghost predicate ViewsOk(s: State) {
    forall id :: ViewOk(ViewOf(s, id))
  }

  ghost predicate HistoryOk(s: State) {
    && s.enqueued == s.handled + Unhandled(s.worker) + s.queue
    && NoDup(s.enqueued) && NoDup(s.freed) && NoDup(Current(s.worker) + s.queue)
    && (forall id :: id in s.results <==> id in s.handled)
  }

  ghost predicate CountOk(s: State) {
    s.pmCount == |Awake(s.calls)| + (if WorkerAwake(s.worker) then 1 else 0)
  }

  /** No lost wake-up: an event stays on the list only while somebody is going
      to run the worker for it. */
  ghost predicate WakeupOk(s: State) {
    s.pending || (!s.worker.WIdle? && !s.worker.WRelax?) ||
    forall id :: id in s.queue ==> id in s.calls && s.calls[id].pc.PKick?
  }

  ghost predicate RestOk(s: State) {
    !s.fault && CountOk(s) && HistoryOk(s) && WakeupOk(s)
  }

  ghost predicate Inv(s: State) {
    RestOk(s) && ViewsOk(s)
  }

  // ------------------------------------------------------------ preservation

  lemma {:induction false} SizeWithout(a: set<nat>, id: nat)
    ensures |a - {id}| == |a| - if id in a then 1 else 0
  {
    if id !in a { assert a - {id} == a; }
  }

  lemma {:induction false} AwakeUpdate(calls: map<nat, Call>, id: nat, c: Call)
    ensures |Awake(calls[id := c])|
         == |Awake(calls)| + (if PosterAwake(c.pc) then 1 else 0)
            - (if id in calls && PosterAwake(calls[id].pc) then 1 else 0)
  {
    var a, b := Awake(calls), Awake(calls[id := c]);
    assert a - {id} == b - {id};
    SizeWithout(a, id);
    SizeWithout(b, id);
  }

  /** A step that touches one call and its event leaves the other views as they are. */
  ghost predicate Touches(s: State, s': State, id: nat) {
    forall x :: x != id ==> ViewOf(s', x) == ViewOf(s, x)
  }

  lemma {:induction false} SameElse(s: State, s': State, id: nat)
    requires ViewsOk(s) && Touches(s, s', id) && ViewOk(ViewOf(s', id))
    ensures ViewsOk(s')
  {
    hide ViewOk;
    forall x ensures ViewOk(ViewOf(s', x)) {
      assert ViewOk(ViewOf(s, x));
    }
  }

  lemma {:induction false} EntryKeepsRest(s: State, id: nat, choice: bool)
    requires Inv(s) && id in s.calls && s.calls[id].pc.PEntry?
    ensures RestOk(EntryStep(s, id, choice))
  {
    var s' := EntryStep(s, id, choice);
    AwakeUpdate(s.calls, id, s'.calls[id]);
    assert ViewOk(ViewOf(s, id));
  }

  lemma {:induction false} EntryKeepsViews(s: State, id: nat, choice: bool)
    requires ViewsOk(s) && id in s.calls && s.calls[id].pc.PEntry?
    ensures ViewsOk(EntryStep(s, id, choice))
  {
    hide Abandoned, Owned, ReturnOk, Current;
    var s' := EntryStep(s, id, choice);
    assert Touches(s, s', id) by { hide ViewOk; }
    assert ViewOk(ViewOf(s', id)) by { assert ViewOk(ViewOf(s, id)); }
    SameElse(s, s', id);
  }

  lemma {:induction false} EnqueueKeepsRest(s: State, id: nat)
    requires Inv(s) && id in s.calls && s.calls[id].pc.PPrepared? && !Locked(s)
    ensures RestOk(EnqueueStep(s, id))
  {
    var s' := EnqueueStep(s, id);
    AwakeUpdate(s.calls, id, s'.calls[id]);
    assert ViewOk(ViewOf(s, id));
    assert s.queue != [] ==> ViewOk(ViewOf(s, s.queue[|s.queue| - 1]));
    assert Current(s'.worker) + s'.queue == Current(s.worker) + s.queue + [id];
  }

  lemma {:induction false} EnqueueKeepsViews(s: State, id: nat)
    requires ViewsOk(s) && id in s.calls && s.calls[id].pc.PPrepared? && !Locked(s)
    ensures ViewsOk(EnqueueStep(s, id))
  {
    var s' := EnqueueStep(s, id);
    assert Touches(s, s', id) by { hide ViewOk; }
    assert ViewOk(ViewOf(s', id)) by { assert ViewOk(ViewOf(s, id)); }
    SameElse(s, s', id);
  }

  lemma {:induction false} KickKeepsRest(s: State, id: nat)
    requires Inv(s) && id in s.calls && s.calls[id].pc.PKick?
    ensures RestOk(KickStep(s, id))
  {
    var s' := KickStep(s, id);
    AwakeUpdate(s.calls, id, s'.calls[id]);
    assert ViewOk(ViewOf(s, id));
  }

  lemma {:induction false} KickKeepsViews(s: State, id: nat)
    requires ViewsOk(s) && id in s.calls && s.calls[id].pc.PKick?
    ensures ViewsOk(KickStep(s, id))
  {
    var s' := KickStep(s, id);
    assert Touches(s, s', id) by { hide ViewOk; }
    assert ViewOk(ViewOf(s', id)) by { assert ViewOk(ViewOf(s, id)); }
    SameElse(s, s', id);
  }

  lemma {:induction false} WaitKeepsRest(s: State, id: nat, choice: bool)
    requires Inv(s) && PosterEnabled(s, id, choice) && (s.calls[id].pc.PWaiting? || s.calls[id].pc.PWoken?)
    ensures RestOk(PosterNext(s, id, choice))
  {
    var s' := PosterNext(s, id, choice);
    AwakeUpdate(s.calls, id, s'.calls[id]);
    assert ViewOk(ViewOf(s, id));
  }

  lemma {:induction false} WaitKeepsViews(s: State, id: nat, choice: bool)
    requires ViewsOk(s) && PosterEnabled(s, id, choice) && (s.calls[id].pc.PWaiting? || s.calls[id].pc.PWoken?)
    ensures ViewsOk(PosterNext(s, id, choice))
  {
    var s' := PosterNext(s, id, choice);
    assert Touches(s, s', id) by { hide ViewOk; }
    assert ViewOk(ViewOf(s', id)) by { assert ViewOk(ViewOf(s, id)); }
    SameElse(s, s', id);
  }

  lemma {:induction false} DecideKeepsRest(s: State, id: nat, signal: bool)
    requires Inv(s) && id in s.calls && s.calls[id].pc == PCheck(signal) && !Locked(s)
    ensures RestOk(DecideStep(s, id, signal))
  {
    var s' := DecideStep(s, id, signal);
    AwakeUpdate(s.calls, id, s'.calls[id]);
    assert ViewOk(ViewOf(s, id));
  }

  lemma {:induction false} DecideKeepsViews(s: State, id: nat, signal: bool)
    requires ViewsOk(s) && id in s.calls && s.calls[id].pc == PCheck(signal) && !Locked(s)
    ensures ViewsOk(DecideStep(s, id, signal))
  {
    var s' := DecideStep(s, id, signal);
    assert Touches(s, s', id) by { hide ViewOk; }
    assert ViewOk(ViewOf(s', id)) by { assert ViewOk(ViewOf(s, id)); }
    SameElse(s, s', id);
  }

  lemma {:induction false} LeaveKeepsRest(s: State, id: nat, choice: bool)
    requires Inv(s) && PosterEnabled(s, id, choice) && (s.calls[id].pc.PCollect? || s.calls[id].pc.PRelax?)
    ensures RestOk(PosterNext(s, id, choice))
  {
    var s' := PosterNext(s, id, choice);
    AwakeUpdate(s.calls, id, s'.calls[id]);
    assert ViewOk(ViewOf(s, id));
  }

  lemma {:induction false} LeaveKeepsViews(s: State, id: nat, choice: bool)
    requires ViewsOk(s) && PosterEnabled(s, id, choice) && (s.calls[id].pc.PCollect? || s.calls[id].pc.PRelax?)
    ensures ViewsOk(PosterNext(s, id, choice))
  {
    var s' := PosterNext(s, id, choice);
    assert Touches(s, s', id) by { hide ViewOk; }
    assert ViewOk(ViewOf(s', id)) by { assert ViewOk(ViewOf(s, id)); }
    SameElse(s, s', id);
  }

  lemma {:induction false} IdleKeepsRest(s: State, r: int)
    requires Inv(s) && WorkerEnabled(s) && (s.worker.WIdle? || s.worker.WBegin? || s.worker.WLock? || s.worker.WRelax?)
    ensures RestOk(WorkerNext(s, r))
  {
  }

  lemma {:induction false} IdleKeepsViews(s: State, r: int)
    requires ViewsOk(s) && WorkerEnabled(s)
             && (s.worker.WIdle? || s.worker.WBegin? || s.worker.WLock? || s.worker.WRelax?)
    ensures ViewsOk(WorkerNext(s, r))
  {
    var s' := WorkerNext(s, r);
    forall x ensures ViewOk(ViewOf(s', x)) {
      assert ViewOf(s', x) == ViewOf(s, x);
    }
  }

  lemma {:induction false} EmptyKeepsViews(s: State)
    requires ViewsOk(s) && s.worker.WHead? && s.queue == []
    ensures ViewsOk(TakeStep(s))
  {
    var s' := TakeStep(s);
    forall x ensures ViewOk(ViewOf(s', x)) {
      assert ViewOf(s', x) == ViewOf(s, x);
    }
  }

  lemma {:induction false} TakeKeepsHistory(s: State)
    requires HistoryOk(s) && s.worker.WHead?
    ensures HistoryOk(TakeStep(s))
  {
    if s.queue != [] { assert [s.queue[0]] + s.queue[1..] == [] + s.queue; }
  }

  lemma {:induction false} ListedIsAllocated(s: State, id: nat)
    requires ViewOk(ViewOf(s, id)) && id in s.queue
    ensures id in s.heap
  {
  }

  lemma {:induction false} TakeKeepsCount(s: State)
    requires !s.fault && CountOk(s) && s.worker.WHead? && forall id :: id in s.queue ==> id in s.heap
    ensures !TakeStep(s).fault && CountOk(TakeStep(s))
  {
  }

  lemma {:induction false} TakeKeepsRest(s: State)
    requires Inv(s) && s.worker.WHead?
    ensures RestOk(TakeStep(s))
  {
    forall id | id in s.queue ensures id in s.heap { ListedIsAllocated(s, id); }
    TakeKeepsHistory(s);
    TakeKeepsCount(s);
    hide HistoryOk, ViewsOk, CountOk;
  }

  lemma {:induction false} TakeView(s: State, x: nat)
    requires s.worker.WHead? && s.queue != [] && NoDup(s.queue)
    ensures ViewOf(TakeStep(s), x)
         == ViewOf(s, x).(stage := if x == s.queue[0] then Held(WLog(x)) else if x in s.queue then Listed else Out)
  {
    assert s.queue == [s.queue[0]] + s.queue[1..];
  }

  lemma {:induction false} TakenOk(v: View, e: nat)
    requires ViewOk(v) && v.stage == Listed
    ensures ViewOk(v.(stage := Held(WLog(e))))
  {
  }

  lemma {:induction false} TakeKeepsView(s: State, x: nat)
    requires s.worker.WHead? && s.queue != [] && NoDup(s.queue) && ViewOk(ViewOf(s, x))
    ensures ViewOk(ViewOf(TakeStep(s), x))
  {
    TakeView(s, x);
    if x == s.queue[0] { TakenOk(ViewOf(s, x), x); } else { assert ViewOf(TakeStep(s), x) == ViewOf(s, x); }
  }

  lemma {:induction false} TakeKeepsViews(s: State)
    requires ViewsOk(s) && s.worker.WHead? && s.queue != [] && NoDup(s.queue)
    ensures ViewsOk(TakeStep(s))
  {
    forall x ensures ViewOk(ViewOf(TakeStep(s), x)) {
      TakeKeepsView(s, x);
    }
  }

  lemma {:induction false} QueueNoDup(s: State)
    requires HistoryOk(s)
    ensures NoDup(s.queue)
  {
    var whole := Current(s.worker) + s.queue;
    assert forall i :: 0 <= i < |s.queue| ==> s.queue[i] == whole[i + |Current(s.worker)|];
  }

  lemma {:induction false} NotListed(e: nat, q: seq<nat>)
    requires NoDup([e] + q)
    ensures e !in q && NoDup([] + q)
  {
    assert ([e] + q)[0] == e && [] + q == q;
    assert forall i :: 0 <= i < |q| ==> q[i] == ([e] + q)[i + 1];
  }

  lemma {:induction false} LogKeepsRest(s: State, e: nat, r: int)
    requires Inv(s) && s.worker == WLog(e)
    ensures RestOk(WorkerNext(s, r))
  {
    assert ViewOk(ViewOf(s, e));
  }

  lemma {:induction false} LogKeepsViews(s: State, e: nat, r: int)
    requires ViewsOk(s) && NoDup(Current(s.worker) + s.queue) && s.worker == WLog(e)
    ensures ViewsOk(WorkerNext(s, r))
  {
    var s' := WorkerNext(s, r);
    NotListed(e, s.queue);
    assert ViewOk(ViewOf(s, e));
    SameElse(s, s', e);
  }

  /** The event at hand is of a known type, so the handler runs. */
  lemma {:induction false} HandleKeepsRest(s: State, e: nat, r: int)
    requires Inv(s) && s.worker == WRun(e)
    ensures RestOk(HandleStep(s, e, r))
  {
    assert ViewOk(ViewOf(s, e));
    assert s.handled + [e] + [] == s.handled + [e];
  }

  lemma {:induction false} HandleKeepsViews(s: State, e: nat, r: int)
    requires ViewsOk(s) && NoDup(Current(s.worker) + s.queue) && s.worker == WRun(e)
    ensures ViewsOk(HandleStep(s, e, r))
  {
    var s' := HandleStep(s, e, r);
    NotListed(e, s.queue);
    assert ViewOk(ViewOf(s, e));
    SameElse(s, s', e);
  }

  lemma {:induction false} FinishKeepsRest(s: State, e: nat, ret: int)
    requires Inv(s) && s.worker == WFinish(e, ret)
    ensures RestOk(FinishStep(s, e, ret))
  {
    assert ViewOk(ViewOf(s, e));
    NotListed(e, s.queue);
  }

  lemma {:induction false} FinishKeepsViews(s: State, e: nat, ret: int)
    requires ViewsOk(s) && NoDup(Current(s.worker) + s.queue) && s.worker == WFinish(e, ret)
    ensures ViewsOk(FinishStep(s, e, ret))
  {
    var s' := FinishStep(s, e, ret);
    NotListed(e, s.queue);
    assert ViewOk(ViewOf(s, e));
    SameElse(s, s', e);
  }

  lemma {:induction false} ReleaseKeepsRest(s: State, e: nat, r: int)
    requires Inv(s) && (s.worker == WComplete(e) || s.worker == WFree(e))
    ensures RestOk(WorkerNext(s, r))
  {
    assert ViewOk(ViewOf(s, e));
    NotListed(e, s.queue);
  }

  lemma {:induction false} CompleteKeepsViews(s: State, e: nat, r: int)
    requires ViewsOk(s) && NoDup(Current(s.worker) + s.queue) && s.worker == WComplete(e)
    ensures ViewsOk(WorkerNext(s, r))
  {
    var s' := WorkerNext(s, r);
    NotListed(e, s.queue);
    assert ViewOk(ViewOf(s, e));
    SameElse(s, s', e);
  }

  lemma {:induction false} FreeKeepsViews(s: State, e: nat, r: int)
    requires ViewsOk(s) && NoDup(Current(s.worker) + s.queue) && s.worker == WFree(e)
    ensures ViewsOk(WorkerNext(s, r))
  {
    var s' := WorkerNext(s, r);
    NotListed(e, s.queue);
    assert ViewOk(ViewOf(s, e));
    SameElse(s, s', e);
  }

  lemma {:induction false} PosterPreserves(s: State, id: nat, choice: bool)
    requires Inv(s) && PosterEnabled(s, id, choice)
    ensures Inv(PosterNext(s, id, choice))
  {
    match s.calls[id].pc {
      case PEntry => EntryKeepsRest(s, id, choice); EntryKeepsViews(s, id, choice);
      case PPrepared => EnqueueKeepsRest(s, id); EnqueueKeepsViews(s, id);
      case PKick => KickKeepsRest(s, id); KickKeepsViews(s, id);
      case PWaiting => WaitKeepsRest(s, id, choice); WaitKeepsViews(s, id, choice);
      case PWoken(_) => WaitKeepsRest(s, id, choice); WaitKeepsViews(s, id, choice);
      case PCheck(signal) => DecideKeepsRest(s, id, signal); DecideKeepsViews(s, id, signal);
      case PCollect => LeaveKeepsRest(s, id, choice); LeaveKeepsViews(s, id, choice);
      case PRelax(_) => LeaveKeepsRest(s, id, choice); LeaveKeepsViews(s, id, choice);
    }
  }

  lemma {:induction false} TakePreserves(s: State)
    requires Inv(s) && s.worker.WHead?
    ensures Inv(TakeStep(s))
  {
    TakeKeepsRest(s);
    if s.queue == [] {
      EmptyKeepsViews(s);
    } else {
      QueueNoDup(s);
      TakeKeepsViews(s);
    }
  }

  lemma {:induction false} WorkerPreserves(s: State, r: int)
    requires Inv(s) && WorkerEnabled(s)
    ensures Inv(WorkerNext(s, r))
  {
    match s.worker {
      case WHead => TakePreserves(s);
      case WLog(e) => LogKeepsRest(s, e, r); LogKeepsViews(s, e, r);
      case WRun(e) => HandleKeepsRest(s, e, r); HandleKeepsViews(s, e, r);
      case WFinish(e, ret) => FinishKeepsRest(s, e, ret); FinishKeepsViews(s, e, ret);
      case WComplete(e) => ReleaseKeepsRest(s, e, r); CompleteKeepsViews(s, e, r);
      case WFree(e) => ReleaseKeepsRest(s, e, r); FreeKeepsViews(s, e, r);
      case _ => IdleKeepsRest(s, r); IdleKeepsViews(s, r);
    }
  }

  lemma {:induction false} NewCallPreserves(s: State, id: nat, kind: nat, wait: Wait)
    requires Inv(s) && id !in s.calls
    ensures Inv(s.(calls := s.calls[id := Call(kind, wait, PEntry)]))
  {
    var s' := s.(calls := s.calls[id := Call(kind, wait, PEntry)]);
    AwakeUpdate(s.calls, id, Call(kind, wait, PEntry));
    assert Touches(s, s', id) by { hide ViewOk; }
    assert ViewOk(ViewOf(s', id)) by { assert ViewOk(ViewOf(s, id)); }
    SameElse(s, s', id);
  }

  lemma {:induction false} StepPreserves(s: State, step: Step)
    requires Inv(s) && Enabled(s, step)
    ensures Inv(Next(s, step))
  {
    match step
    case NewCall(id, kind, wait) => NewCallPreserves(s, id, kind, wait);
    case Poster(id, choice) => PosterPreserves(s, id, choice);
    case Worker(r) => WorkerPreserves(s, r);
  }

  lemma {:induction false} RunKeepsInv(steps: seq<Step>, trace: seq<State>, results: iset<int>, i: nat)
    requires IsRun(steps, trace, results) && i <= |steps|
    ensures Inv(trace[i])
  {
    if i == 0 {
    } else {
      RunKeepsInv(steps, trace, results, i - 1);
      StepPreserves(trace[i - 1], steps[i - 1]);
    }
  }

  // --------------------------------------------------------- what runs satisfy

  /** No state of any run has used or freed an event that was not allocated, or
      freed one twice. */
  lemma {:induction false} MemorySafe(steps: seq<Step>, trace: seq<State>, results: iset<int>, i: nat)
    requires IsRun(steps, trace, results) && i <= |steps|
    ensures !trace[i].fault && NoDup(trace[i].freed)
    ensures forall id :: id in trace[i].heap ==> id !in trace[i].freed
  {
    RunKeepsInv(steps, trace, results, i);
    forall id | id in trace[i].heap ensures id !in trace[i].freed {
      assert ViewOk(ViewOf(trace[i], id));
    }
  }

  /** The events that a step reads, writes or frees: its own, and when a node is linked or
      unlinked its neighbour on the list. */
  function Accessed(s: State, step: Step): set<nat>
    requires Enabled(s, step)
  {
    match step
    case NewCall(_, _, _) => {}
    case Poster(id, _) =>
      (match s.calls[id].pc
       case PPrepared => if s.queue == [] then {id} else {id, s.queue[|s.queue| - 1]}
       case PWaiting => {id}
       case PWoken(_) => {id}
       case PCheck(_) => {id}
       case PCollect => {id}
       case _ => {})
    case Worker(_) =>
      if s.worker.WHead? then
        (if s.queue == [] then {} else if |s.queue| == 1 then {s.queue[0]} else {s.queue[0], s.queue[1]})
      else if s.worker.WLog? || s.worker.WRun? || s.worker.WFinish? || s.worker.WComplete? || s.worker.WFree? then
        {s.worker.e}
      else {}
  }

  lemma {:induction false} PosterFaults(s: State, id: nat, choice: bool, x: nat)
    requires PosterEnabled(s, id, choice) && x in Accessed(s, Poster(id, choice)) && x !in s.heap
    ensures PosterNext(s, id, choice).fault
  {
  }

  lemma {:induction false} WorkerFaults(s: State, r: int, x: nat)
    requires WorkerEnabled(s) && x in Accessed(s, Worker(r)) && x !in s.heap
    ensures WorkerNext(s, r).fault
  {
  }

  /** No step of any run accesses an event that is not allocated. */
  lemma {:induction false} OnlyAllocatedAccessed(steps: seq<Step>, trace: seq<State>, results: iset<int>, i: nat)
    requires IsRun(steps, trace, results) && i < |steps|
    ensures forall x :: x in Accessed(trace[i], steps[i]) ==> x in trace[i].heap
  {
    MemorySafe(steps, trace, results, i + 1);
    hide PosterNext, WorkerNext, PosterEnabled;
    forall x | x in Accessed(trace[i], steps[i]) ensures x in trace[i].heap {
      if x !in trace[i].heap {
        match steps[i]
        case Poster(id, choice) => PosterFaults(trace[i], id, choice, x);
        case Worker(r) => WorkerFaults(trace[i], r, x);
        case _ =>
      }
    }
  }

  /** Events are handled in the order they were put on the list, each at most
      once, and only events of known types get there. */
  lemma {:induction false} HandledInOrder(steps: seq<Step>, trace: seq<State>, results: iset<int>, i: nat)
    requires IsRun(steps, trace, results) && i <= |steps|
    ensures trace[i].handled <= trace[i].enqueued && NoDup(trace[i].enqueued)
    ensures forall id :: id in trace[i].enqueued ==> id in trace[i].calls && trace[i].calls[id].kind < EVENT_MAX
  {
    RunKeepsInv(steps, trace, results, i);
    forall id | id in trace[i].enqueued ensures id in trace[i].calls && trace[i].calls[id].kind < EVENT_MAX {
      assert ViewOk(ViewOf(trace[i], id));
    }
  }

  /** What a returned call has returned. */
  lemma {:induction false} ReturnValue(steps: seq<Step>, trace: seq<State>, results: iset<int>, i: nat, id: nat)
    requires IsRun(steps, trace, results) && i <= |steps|
    requires id in trace[i].calls && trace[i].calls[id].pc.PDone?
    ensures var c := trace[i].calls[id]; var ret := c.pc.ret;
            if c.kind >= EVENT_MAX then ret == -EINVAL
            else if id !in trace[i].enqueued then ret == -ENOMEM
            else if c.wait == Async then ret == 0
            else || (ret == -EINTR && Breakable(c.wait))
                 || (id in trace[i].results && ret == trace[i].results[id])
  {
    RunKeepsInv(steps, trace, results, i);
    assert ViewOk(ViewOf(trace[i], id));
  }

  // ------------------------------------------------------ what gets on the list

  /** Step j of a run is where the call was refused or accepted. */
  predicate EntersAt(steps: seq<Step>, trace: seq<State>, j: nat, id: nat) {
    && j < |steps| && j < |trace| && steps[j].Poster? && steps[j].id == id
    && id in trace[j].calls && trace[j].calls[id].pc.PEntry?
  }

  /** A call that was accepted: its event is about to be put on the list, or has been;
      one that was refused never is. */
  predicate Decided(s: State, id: nat, kind: nat, accepted: bool) {
    && id in s.calls && s.calls[id].kind == kind && !s.calls[id].pc.PEntry?
    && if accepted then s.calls[id].pc.PPrepared? || id in s.enqueued
       else s.calls[id].pc == PDone(if kind >= EVENT_MAX then -EINVAL else -ENOMEM) && id !in s.enqueued
  }

  lemma {:induction false} EntryDecides(s: State, id: nat, choice: bool)
    requires PosterEnabled(s, id, choice) && s.calls[id].pc.PEntry? && id !in s.enqueued
    ensures var kind := s.calls[id].kind; Decided(PosterNext(s, id, choice), id, kind, choice && kind < EVENT_MAX)
  {
  }

  lemma {:induction false} PosterKeepsDecided(s: State, x: nat, choice: bool, id: nat, kind: nat, accepted: bool)
    requires Decided(s, id, kind, accepted) && PosterEnabled(s, x, choice)
    ensures Decided(PosterNext(s, x, choice), id, kind, accepted)
  {
    hide PosterNext;
  }

  lemma {:induction false} WorkerKeepsDecided(s: State, r: int, id: nat, kind: nat, accepted: bool)
    requires Decided(s, id, kind, accepted) && WorkerEnabled(s)
    ensures Decided(WorkerNext(s, r), id, kind, accepted)
  {
  }

  lemma {:induction false} StaysDecided(steps: seq<Step>, trace: seq<State>, results: iset<int>, j: nat, i: nat,
                                        id: nat)
    requires IsRun(steps, trace, results) && j < i <= |steps| && EntersAt(steps, trace, j, id)
    ensures var kind := trace[j].calls[id].kind; Decided(trace[i], id, kind, steps[j].choice && kind < EVENT_MAX)
  {
    var kind := trace[j].calls[id].kind;
    if i == j + 1 {
      RunKeepsInv(steps, trace, results, j);
      assert ViewOk(ViewOf(trace[j], id));
      EntryDecides(trace[j], id, steps[j].choice);
    } else {
      StaysDecided(steps, trace, results, j, i - 1, id);
      var accepted := steps[j].choice && kind < EVENT_MAX;
      match steps[i - 1]
      case NewCall(_, _, _) =>
      case Poster(x, choice) => PosterKeepsDecided(trace[i - 1], x, choice, id, kind, accepted);
      case Worker(r) => WorkerKeepsDecided(trace[i - 1], r, id, kind, accepted);
    }
  }

  lemma {:induction false} OthersStay(s: State, step: Step, id: nat)
    requires Enabled(s, step) && id in Next(s, step).calls && !Next(s, step).calls[id].pc.PEntry?
    ensures id in s.calls && ((step.Poster? && step.id == id) || s.calls[id] == Next(s, step).calls[id])
  {
  }

  /** Every call past its entry has made one. */
  lemma {:induction false} EntryOf(steps: seq<Step>, trace: seq<State>, results: iset<int>, i: nat, id: nat)
    returns (j: nat)
    requires IsRun(steps, trace, results) && i <= |steps| && id in trace[i].calls && !trace[i].calls[id].pc.PEntry?
    ensures j < i && EntersAt(steps, trace, j, id)
  {
    OthersStay(trace[i - 1], steps[i - 1], id);
    if trace[i - 1].calls[id].pc.PEntry? {
      j := i - 1;
    } else {
      j := EntryOf(steps, trace, results, i - 1, id);
    }
  }

  /** A call that has returned has put its event on the list exactly if its event is of
      a known type and could be allocated; one that has not has returned the error. */
  lemma {:induction false} ListedIff(steps: seq<Step>, trace: seq<State>, results: iset<int>, i: nat, id: nat)
    returns (j: nat)
    requires IsRun(steps, trace, results) && i <= |steps| && id in trace[i].calls && trace[i].calls[id].pc.PDone?
    ensures j < i && EntersAt(steps, trace, j, id) && trace[j].calls[id].kind == trace[i].calls[id].kind
    ensures var c := trace[i].calls[id];
            && (id in trace[i].enqueued <==> steps[j].choice && c.kind < EVENT_MAX)
            && (id !in trace[i].enqueued ==> c.pc.ret == if c.kind >= EVENT_MAX then -EINVAL else -ENOMEM)
  {
    j := EntryOf(steps, trace, results, i, id);
    StaysDecided(steps, trace, results, j, i, id);
  }

  /** The stay-awake count is the number of calls between stay-awake and relax,
      plus one while the worker is active; a relax never takes it below zero. */
  lemma {:induction false} StayAwakeCount(steps: seq<Step>, trace: seq<State>, results: iset<int>, i: nat)
    requires IsRun(steps, trace, results) && i <= |steps|
    ensures trace[i].pmCount == |Awake(trace[i].calls)| + (if WorkerAwake(trace[i].worker) then 1 else 0)
    ensures forall id :: id in trace[i].calls && trace[i].calls[id].pc.PRelax? ==> trace[i].pmCount >= 1
    ensures trace[i].worker.WRelax? ==> trace[i].pmCount >= 1
  {
    RunKeepsInv(steps, trace, results, i);
    forall id | id in trace[i].calls && trace[i].calls[id].pc.PRelax? ensures trace[i].pmCount >= 1 {
      assert id in Awake(trace[i].calls);
      assert |Awake(trace[i].calls)| >= |{id}|;
    }
  }

  lemma {:induction false} HeadIsMember(q: seq<nat>)
    ensures q == [] || exists id :: id in q
  {
    if q != [] { assert q[0] in q; }
  }

  /** What is left of an event when its call has returned and no worker holds it. */
  predicate QuietView(v: View) {
    && v.stage != Listed
    && (v.enqueued <==> v.freed || v.ev.Some?)
    && (v.ev.Some? ==>
          && !v.freed && v.result == Some(EVENT_PENDING)
          && v.call.Some? && Breakable(v.call.value.wait) && v.call.value.pc == PDone(-EINTR))
  }

  lemma {:induction false} QuietViewOk(v: View)
    requires ViewOk(v) && !v.stage.Held? && (v.call.Some? ==> v.call.value.pc.PDone?)
    requires v.stage != Listed
    ensures QuietView(v)
  {
  }

  /** Once every call has returned and the worker sleeps: every event put on the
      list has been handled, the device may sleep, and each event has been freed
      exactly once, except those leaked: the handler returned the value that stands
      for "still pending" to a call that a signal had interrupted. */
  lemma {:induction false} QuietMeansDone(steps: seq<Step>, trace: seq<State>, results: iset<int>, i: nat)
    requires IsRun(steps, trace, results) && i <= |steps| && Quiet(trace[i])
    ensures var s := trace[i];
            && s.handled == s.enqueued && s.queue == [] && s.pmCount == 0 && NoDup(s.freed)
            && (forall id :: id in s.enqueued <==> id in s.freed || id in s.heap)
            && (forall id :: id in s.heap ==>
                  && id !in s.freed && id in s.results && s.results[id] == EVENT_PENDING
                  && id in s.calls && Breakable(s.calls[id].wait) && s.calls[id].pc == PDone(-EINTR))
  {
    var s := trace[i];
    RunKeepsInv(steps, trace, results, i);
    HeadIsMember(s.queue);
    forall id ensures QuietView(ViewOf(s, id)) { QuietViewOk(ViewOf(s, id)); }
    forall id
      ensures id !in s.queue && (id in s.enqueued <==> id in s.freed || id in s.heap)
      ensures id in s.heap ==>
                && id !in s.freed && id in s.results && s.results[id] == EVENT_PENDING
                && id in s.calls && Breakable(s.calls[id].wait) && s.calls[id].pc == PDone(-EINTR)
    {
      assert QuietView(ViewOf(s, id));
    }
    assert Awake(s.calls) == {};
  }

  ghost predicate ResultsIn(m: map<nat, int>, results: iset<int>) {
    forall id :: id in m ==> m[id] in results
  }

  lemma {:induction false} StepKeepsResults(s: State, step: Step, results: iset<int>)
    requires Enabled(s, step) && (step.Worker? ==> step.r in results) && ResultsIn(s.results, results)
    ensures ResultsIn(Next(s, step).results, results)
  {
    hide PosterNext, EntryStep, EnqueueStep, DecideStep, TakeStep, FinishStep;
  }

  lemma {:induction false} ResultsAreAnswers(steps: seq<Step>, trace: seq<State>, results: iset<int>, i: nat)
    requires IsRun(steps, trace, results) && i <= |steps|
    ensures ResultsIn(trace[i].results, results)
  {
    if i > 0 {
      ResultsAreAnswers(steps, trace, results, i - 1);
      StepKeepsResults(trace[i - 1], steps[i - 1], results);
    }
  }

  /** Once the queue is at rest, a call's event has been handled exactly if it was of a
      known type and could be allocated. */
  lemma {:induction false} HandledIff(steps: seq<Step>, trace: seq<State>, results: iset<int>, i: nat, j: nat, id: nat)
    requires IsRun(steps, trace, results) && j < i <= |steps| && EntersAt(steps, trace, j, id) && Quiet(trace[i])
    ensures id in trace[i].handled <==> steps[j].choice && trace[j].calls[id].kind < EVENT_MAX
  {
    StaysDecided(steps, trace, results, j, i, id);
    QuietMeansDone(steps, trace, results, i);
  }

  // ------------------------------------------------------------ every run ends

  function WorkerRank(w: WorkerPc): nat {
    match w
    case WIdle => 0
    case WRelax => 1
    case WHead => 2
    case WLock => 3
    case WBegin => 4
    case WFree(_) => 4
    case WComplete(_) => 5
    case WFinish(_, _) => 6
    case WRun(_) => 7
    case WLog(_) => 8
  }

  /** The calls with at least k steps left. */
  function Behind(calls: map<nat, Call>, k: nat): set<nat> {
    set id | id in calls && Rank(calls[id].pc) >= k
  }

  /** The steps all calls have left, counted up to n for each. */
  function CallsLeft(calls: map<nat, Call>, n: nat): nat {
    if n == 0 then 0 else CallsLeft(calls, n - 1) + |Behind(calls, n)|
  }

  function WorkerLeft(s: State): nat {
    8 * |s.queue| + (if s.pending then 5 else 0) + WorkerRank(s.worker)
  }

  /** What is left to do once no more calls begin. */
  function Left(s: State): nat {
    16 * CallsLeft(s.calls, 8) + WorkerLeft(s)
  }

  lemma {:induction false} BehindUpdate(calls: map<nat, Call>, id: nat, c: Call, k: nat)
    ensures |Behind(calls[id := c], k)|
         == |Behind(calls, k)| + (if Rank(c.pc) >= k then 1 else 0)
            - (if id in calls && Rank(calls[id].pc) >= k then 1 else 0)
  {
    var a, b := Behind(calls, k), Behind(calls[id := c], k);
    assert a - {id} == b - {id};
    SizeWithout(a, id);
    SizeWithout(b, id);
  }

  lemma {:induction false} CallsLeftUpdate(calls: map<nat, Call>, id: nat, c: Call, n: nat)
    ensures CallsLeft(calls[id := c], n)
         == CallsLeft(calls, n) + Min(Rank(c.pc), n) - (if id in calls then Min(Rank(calls[id].pc), n) else 0)
  {
    if n > 0 {
      CallsLeftUpdate(calls, id, c, n - 1);
      BehindUpdate(calls, id, c, n);
    }
  }

  lemma {:induction false} PosterProgress(s: State, id: nat, choice: bool)
    requires PosterEnabled(s, id, choice)
    ensures Left(PosterNext(s, id, choice)) < Left(s)
  {
    hide PosterNext;
    CallsLeftUpdate(s.calls, id, PosterNext(s, id, choice).calls[id], 8);
  }

  lemma {:induction false} TakeProgress(s: State)
    requires s.worker.WHead?
    ensures WorkerLeft(TakeStep(s)) < WorkerLeft(s)
  {
  }

  lemma {:induction false} HandleProgress(s: State, e: nat, r: int)
    requires s.worker == WRun(e)
    ensures WorkerLeft(HandleStep(s, e, r)) < WorkerLeft(s)
  {
  }

  lemma {:induction false} FinishProgress(s: State, e: nat, ret: int)
    requires s.worker == WFinish(e, ret)
    ensures WorkerLeft(FinishStep(s, e, ret)) < WorkerLeft(s)
  {
  }

  lemma {:induction false} WorkerProgress(s: State, r: int)
    requires WorkerEnabled(s)
    ensures WorkerLeft(WorkerNext(s, r)) < WorkerLeft(s)
  {
    hide TakeStep, HandleStep, FinishStep;
    match s.worker
    case WHead => TakeProgress(s);
    case WRun(e) => HandleProgress(s, e, r);
    case WFinish(e, ret) => FinishProgress(s, e, ret);
    case _ =>
  }

  /** Every step of a call or of the worker leaves less to do. */
  lemma {:induction false} StepProgress(s: State, step: Step)
    requires Enabled(s, step)
    ensures Left(Next(s, step)) < Left(s) + if step.NewCall? then 129 else 0
  {
    hide PosterNext, WorkerNext;
    match step
    case NewCall(id, kind, wait) => CallsLeftUpdate(s.calls, id, Call(kind, wait, PEntry), 8);
    case Poster(id, choice) => PosterProgress(s, id, choice);
    case Worker(r) => WorkerProgress(s, r);
  }

  function NewCalls(steps: seq<Step>): nat {
    if steps == [] then 0
    else NewCalls(steps[..|steps| - 1]) + if steps[|steps| - 1].NewCall? then 1 else 0
  }

  lemma {:induction false} LeftBounded(steps: seq<Step>, trace: seq<State>, results: iset<int>, i: nat)
    requires IsRun(steps, trace, results) && i <= |steps|
    ensures Left(trace[i]) + i <= 129 * NewCalls(steps[..i])
  {
    hide Next, Left;
    if i == 0 {
      assert Left(INITIAL) == 0 by { StartLeft(); }
    } else {
      LeftBounded(steps, trace, results, i - 1);
      StepProgress(trace[i - 1], steps[i - 1]);
      assert steps[..i][..i - 1] == steps[..i - 1];
    }
  }

  lemma {:induction false} StartLeft()
    ensures Left(INITIAL) == 0
  {
    assert forall k :: Behind(map[], k) == {};
    assert CallsLeft(map[], 1) == 0 && CallsLeft(map[], 3) == 0 && CallsLeft(map[], 5) == 0;
    assert CallsLeft(map[], 7) == 0;
  }

  /** No schedule keeps the queue busy: a run in which n calls begin has at most
      129 n steps. */
  lemma {:induction false} RunIsBounded(steps: seq<Step>, trace: seq<State>, results: iset<int>)
    requires IsRun(steps, trace, results)
    ensures |steps| <= 129 * NewCalls(steps)
  {
    LeftBounded(steps, trace, results, |steps|);
    assert steps[..|steps|] == steps;
  }

  /** While the worker sleeps, a call can take its next step. */
  lemma {:induction false} CallCanStep(s: State, id: nat)
    requires Inv(s) && s.worker == WIdle && !s.pending && id in s.calls && !s.calls[id].pc.PDone?
    ensures PosterEnabled(s, id, false)
  {
    assert ViewOk(ViewOf(s, id));
  }

  /** Nothing gets stuck: until all is done some call or the worker can take a step. */
  lemma {:induction false} NotStuck(s: State, r: int) returns (step: Step)
    requires Inv(s) && !Quiet(s)
    ensures Enabled(s, step) && !step.NewCall? && (step.Worker? ==> step.r == r)
  {
    if WorkerEnabled(s) {
      step := Worker(r);
    } else {
      var id :| id in s.calls && !s.calls[id].pc.PDone?;
      CallCanStep(s, id);
      step := Poster(id, false);
    }
  }

  lemma {:induction false} LongerRun(steps: seq<Step>, trace: seq<State>, results: iset<int>, step: Step)
    requires IsRun(steps, trace, results) && Enabled(trace[|steps|], step)
    requires step.Worker? ==> step.r in results
    ensures IsRun(steps + [step], trace + [Next(trace[|steps|], step)], results)
  {
    hide Next, Enabled;
    var steps', trace' := steps + [step], trace + [Next(trace[|steps|], step)];
    assert forall i :: 0 <= i < |steps| ==> steps'[i] == steps[i] && trace'[i] == trace[i];
  }

  /** From every state of every run, without further calls, the queue comes to rest:
      all calls return and the worker sleeps. */
  lemma {:induction false} RunsOn(steps: seq<Step>, trace: seq<State>, results: iset<int>, r: int)
    returns (steps': seq<Step>, trace': seq<State>)
    requires IsRun(steps, trace, results) && r in results
    ensures IsRun(steps', trace', results) && steps <= steps' && trace <= trace' && Quiet(trace'[|steps'|])
    ensures NewCalls(steps') == NewCalls(steps)
    decreases Left(trace[|steps|])
  {
    hide Next, Left, Inv;
    RunKeepsInv(steps, trace, results, |steps|);
    if Quiet(trace[|steps|]) {
      steps', trace' := steps, trace;
    } else {
      var step := NotStuck(trace[|steps|], r);
      StepProgress(trace[|steps|], step);
      LongerRun(steps, trace, results, step);
      assert (steps + [step])[..|steps|] == steps;
      steps', trace' := RunsOn(steps + [step], trace + [Next(trace[|steps|], step)], results, r);
    }
  }

  // A run that loses an event: the caller is interrupted while the handler runs,
  // and the handler returns the value that stands for "still pending".

  lemma {:induction false} Extend(steps: seq<Step>, trace: seq<State>, results: iset<int>, step: Step)
    returns (steps': seq<Step>, trace': seq<State>)
    requires IsRun(steps, trace, results) && Enabled(trace[|steps|], step)
    requires step.Worker? ==> step.r in results
    ensures IsRun(steps', trace', results) && trace'[|steps'|] == Next(trace[|steps|], step)
  {
    steps', trace' := steps + [step], trace + [Next(trace[|steps|], step)];
    LongerRun(steps, trace, results, step);
  }

  function LossState(pc: PosterPc, ev: Event, worker: WorkerPc, pmCount: int, queue: seq<nat>): State {
    State(map[0 := Call(0, Interruptible, pc)], map[0 := ev], queue, false, worker, pmCount, [0],
          if queue == [] then [0] else [], if queue == [] then map[0 := EVENT_PENDING] else map[], [], false)
  }

  lemma {:induction false} PostedRun(results: iset<int>) returns (steps: seq<Step>, trace: seq<State>)
    ensures IsRun(steps, trace, results)
    ensures trace[|steps|] == LossState(PWaiting, Event(0, true, EVENT_PENDING, false), WIdle, 1, [0]).(pending := true)
  {
    steps, trace := [], [INITIAL];
    steps, trace := Extend(steps, trace, results, NewCall(0, 0, Interruptible));
    steps, trace := Extend(steps, trace, results, Poster(0, true));
    steps, trace := Extend(steps, trace, results, Poster(0, true));
    steps, trace := Extend(steps, trace, results, Poster(0, true));
  }

  lemma {:induction false} HandledRun(results: iset<int>) returns (steps: seq<Step>, trace: seq<State>)
    requires EVENT_PENDING in results
    ensures IsRun(steps, trace, results)
    ensures trace[|steps|] == LossState(PWaiting, Event(0, true, EVENT_PENDING, false), WComplete(0), 2, [])
  {
    steps, trace := PostedRun(results);
    steps, trace := Extend(steps, trace, results, Worker(EVENT_PENDING));
    steps, trace := Extend(steps, trace, results, Worker(EVENT_PENDING));
    steps, trace := Extend(steps, trace, results, Worker(EVENT_PENDING));
    steps, trace := Extend(steps, trace, results, Worker(EVENT_PENDING));
    steps, trace := Extend(steps, trace, results, Worker(EVENT_PENDING));
    steps, trace := Extend(steps, trace, results, Worker(EVENT_PENDING));
    steps, trace := Extend(steps, trace, results, Worker(EVENT_PENDING));
  }

  lemma {:induction false} BrokenRun(results: iset<int>) returns (steps: seq<Step>, trace: seq<State>)
    requires EVENT_PENDING in results
    ensures IsRun(steps, trace, results)
    ensures trace[|steps|] == LossState(PWoken(true), Event(0, true, EVENT_PENDING, true), WHead, 2, [])
  {
    steps, trace := HandledRun(results);
    steps, trace := Extend(steps, trace, results, Poster(0, true));
    steps, trace := Extend(steps, trace, results, Worker(EVENT_PENDING));
  }

  lemma {:induction false} LossRun(results: iset<int>) returns (steps: seq<Step>, trace: seq<State>)
    requires EVENT_PENDING in results
    ensures IsRun(steps, trace, results) && Quiet(trace[|steps|]) && 0 in trace[|steps|].heap
  {
    steps, trace := BrokenRun(results);
    steps, trace := Extend(steps, trace, results, Poster(0, true));
    steps, trace := Extend(steps, trace, results, Worker(EVENT_PENDING));
    steps, trace := Extend(steps, trace, results, Worker(EVENT_PENDING));
    steps, trace := Extend(steps, trace, results, Poster(0, true));
    steps, trace := Extend(steps, trace, results, Poster(0, true));
  }

  /** The queue loses no event, in any run over a set of handler results, exactly
      if that set does not contain the value that stands for "still pending". */
  lemma {:induction false} NothingLostIff(results: iset<int>)
    ensures EVENT_PENDING !in results <==>
            forall steps: seq<Step>, trace: seq<State> ::
              IsRun(steps, trace, results) && Quiet(trace[|steps|]) ==> trace[|steps|].heap == map[]
  {
    if EVENT_PENDING !in results {
      forall steps: seq<Step>, trace: seq<State> | IsRun(steps, trace, results) && Quiet(trace[|steps|])
        ensures trace[|steps|].heap == map[]
      {
        QuietMeansDone(steps, trace, results, |steps|);
        ResultsAreAnswers(steps, trace, results, |steps|);
      }
    } else {
      var steps, trace := LossRun(results);
      assert 0 in trace[|steps|].heap;
    }
  }
}
