/**
 The driver event queue: any number of calls of cnss_driver_event_post and the
 single work item cnss_driver_event_work, interleaved at every lock section,
 every unlocked access to an event and every counter update.

 A call of the post function allocates at most one event, so a call and its
 event share one identity.  An access to an event that is not allocated, or a
 second free, does not get stuck: it raises `fault`, and the theorems of
 EventQueueProofs show that no run ever raises it.
 */
module EventQueue {
  import opened Common

  const EVENT_PENDING: int := 2989
  const EVENT_MAX: nat := 21

  /** How the caller waits, as selected by the flags. */
  datatype Wait = Async | Unkillable | Killable | Interruptible

  datatype Event = Event(kind: nat, sync: bool, ret: int, done: bool)

  /** Where a call of the post function is.  `signal` tells whether its wait was
      cut short by a signal. */
  datatype PosterPc =
    | PEntry                  // nothing done
    | PPrepared               // stay-awake taken, event allocated and initialised
    | PKick                   // event on the list; the work item is queued next
    | PWaiting
    | PWoken(signal: bool)    // out of the wait; logs the event's result
    | PCheck(signal: bool)    // enters the lock section that decides who frees
    | PCollect                // takes the result and frees the event
    | PRelax(ret: int)        // releases stay-awake
    | PDone(ret: int)

  /** Where the worker is.  It holds the event lock in WHead and WComplete. */
  datatype WorkerPc =
    | WIdle
    | WBegin
    | WLock
    | WHead
    | WLog(e: nat)
    | WRun(e: nat)
    | WFinish(e: nat, r: int)
    | WComplete(e: nat)
    | WFree(e: nat)
    | WRelax

  datatype Call = Call(kind: nat, wait: Wait, pc: PosterPc)

  /** `enqueued`, `handled`, `results` and `freed` record history; the code has
      `calls` (the callers' stacks), `heap`, `queue`, `pending`, `worker` and
      `pmCount`. */
  datatype State = State(
    calls: map<nat, Call>,
    heap: map<nat, Event>,
    queue: seq<nat>,
    pending: bool,
    worker: WorkerPc,
    pmCount: int,
    enqueued: seq<nat>,
    handled: seq<nat>,
    results: map<nat, int>,
    freed: seq<nat>,
    fault: bool)

  /** `choice` resolves what the caller does not control: whether the allocation
      succeeds, or whether a signal ends the wait.  `r` is what the handler of
      the event being run returns. */
  datatype Step = NewCall(id: nat, kind: nat, wait: Wait) | Poster(id: nat, choice: bool) | Worker(r: int)

  const INITIAL: State := State(map[], map[], [], false, WIdle, 0, [], [], map[], [], false)

  predicate Locked(s: State) {
    s.worker.WHead? || s.worker.WComplete?
  }

  function Ev(s: State, id: nat): Event {
    if id in s.heap then s.heap[id] else Event(0, false, 0, false)
  }

  function Touch(s: State, id: nat): State {
    s.(fault := s.fault || id !in s.heap)
  }

  function Put(s: State, id: nat, ev: Event): State {
    Touch(s, id).(heap := s.heap[id := ev])
  }

  function Free(s: State, id: nat): State {
    Touch(s, id).(heap := s.heap - {id}, freed := s.freed + [id])
  }

  function SetPc(s: State, id: nat, pc: PosterPc): State
    requires id in s.calls
  {
    s.(calls := s.calls[id := s.calls[id].(pc := pc)])
  }

  predicate PosterEnabled(s: State, id: nat, choice: bool) {
    id in s.calls &&
    match s.calls[id].pc
    case PPrepared => !Locked(s)
    case PCheck(_) => !Locked(s)
    case PWaiting => if choice then s.calls[id].wait.Killable? || s.calls[id].wait.Interruptible?
                     else id in s.heap ==> s.heap[id].done
    case PDone(_) => false
    case _ => true
  }

  /** How many steps a call has left at most. */
  function Rank(pc: PosterPc): nat {
    match pc
    case PEntry => 8
    case PPrepared => 7
    case PKick => 6
    case PWaiting => 5
    case PWoken(_) => 4
    case PCheck(_) => 3
    case PCollect => 2
    case PRelax(_) => 1
    case PDone(_) => 0
  }

  /** A step of a call writes its own record, moving on, and lists its own event when
      that is due. */
  predicate OwnStep(s: State, s': State, id: nat)
    requires id in s.calls
  {
    && id in s'.calls && s'.calls == s.calls[id := s'.calls[id]]
    && s'.calls[id].kind == s.calls[id].kind && s'.calls[id].wait == s.calls[id].wait
    && Rank(s'.calls[id].pc) < Rank(s.calls[id].pc)
    && s'.results == s.results && s'.worker == s.worker
    && (if s.calls[id].pc.PPrepared? then s'.enqueued == s.enqueued + [id] && s'.queue == s.queue + [id]
        else s'.enqueued == s.enqueued && s'.queue == s.queue)
  }

  function EntryStep(s: State, id: nat, choice: bool): (s': State)
    requires id in s.calls && s.calls[id].pc.PEntry?
    ensures OwnStep(s, s', id)
  {
    var c := s.calls[id];
    if c.kind >= EVENT_MAX then SetPc(s, id, PDone(-EINVAL))
    else if !choice then SetPc(s, id, PDone(-ENOMEM))
    else SetPc(s, id, PPrepared).(heap := s.heap[id := Event(c.kind, c.wait != Async, EVENT_PENDING, false)],
                                  pmCount := s.pmCount + 1)
  }

  /** Linking a node into the list also writes the node before it. */
  function EnqueueStep(s: State, id: nat): (s': State)
    requires id in s.calls && s.calls[id].pc.PPrepared?
    ensures OwnStep(s, s', id)
  {
    SetPc(Touch(Touch(s, id), if s.queue == [] then id else s.queue[|s.queue| - 1]), id, PKick)
      .(queue := s.queue + [id], enqueued := s.enqueued + [id])
  }

  function KickStep(s: State, id: nat): (s': State)
    requires id in s.calls && s.calls[id].pc.PKick?
    ensures OwnStep(s, s', id)
  {
    SetPc(s, id, if s.calls[id].wait == Async then PRelax(0) else PWaiting).(pending := true)
  }

  function DecideStep(s: State, id: nat, signal: bool): (s': State)
    requires id in s.calls && s.calls[id].pc.PCheck?
    ensures OwnStep(s, s', id)
  {
    if signal && Ev(s, id).ret == EVENT_PENDING then
      SetPc(Put(s, id, Ev(s, id).(sync := false)), id, PRelax(-EINTR))
    else
      SetPc(Touch(s, id), id, PCollect)
  }

  /** One step of cnss_driver_event_post. */
  function PosterNext(s: State, id: nat, choice: bool): (s': State)
    requires PosterEnabled(s, id, choice)
    ensures OwnStep(s, s', id)
  {
    match s.calls[id].pc
    case PEntry => EntryStep(s, id, choice)
    case PPrepared => EnqueueStep(s, id)
    case PKick => KickStep(s, id)
    case PWaiting => SetPc(Touch(s, id), id, PWoken(choice))
    case PWoken(signal) => SetPc(Touch(s, id), id, PCheck(signal))
    case PCheck(signal) => DecideStep(s, id, signal)
    case PCollect => SetPc(Free(s, id), id, PRelax(Ev(s, id).ret))
    case PRelax(ret) => SetPc(s, id, PDone(ret)).(pmCount := s.pmCount - 1)
    case PDone(_) => s
  }

  predicate WorkerEnabled(s: State) {
    s.worker.WIdle? ==> s.pending
  }

  /** Taking the first node off the list also writes the node after it. */
  function TakeStep(s: State): (s': State)
    ensures s'.results == s.results && s'.calls == s.calls && s'.enqueued == s.enqueued
  {
    if s.queue == [] then s.(worker := WRelax)
    else Touch(Touch(s, s.queue[0]), if |s.queue| < 2 then s.queue[0] else s.queue[1])
           .(queue := s.queue[1..], worker := WLog(s.queue[0]))
  }

  /** An event of unknown type is freed on the spot, whoever waits for it. */
  function HandleStep(s: State, e: nat, r: int): (s': State)
    ensures s'.calls == s.calls && s'.enqueued == s.enqueued
  {
    if Ev(s, e).kind >= EVENT_MAX then Free(s, e).(worker := WLock)
    else Touch(s, e).(handled := s.handled + [e], results := s.results[e := r], worker := WFinish(e, r))
  }

  function FinishStep(s: State, e: nat, ret: int): (s': State)
    ensures s'.results == s.results && s'.calls == s.calls && s'.enqueued == s.enqueued
  {
    if Ev(s, e).sync then Put(s, e, Ev(s, e).(ret := ret)).(worker := WComplete(e))
    else Touch(s, e).(worker := WFree(e))
  }

  /** One step of cnss_driver_event_work. */
  function WorkerNext(s: State, r: int): (s': State)
    requires WorkerEnabled(s)
    ensures s.worker.WRun? || s'.results == s.results
    ensures s'.calls == s.calls && s'.enqueued == s.enqueued
  {
    match s.worker
    case WIdle => s.(pending := false, worker := WBegin)
    case WBegin => s.(pmCount := s.pmCount + 1, worker := WLock)
    case WLock => s.(worker := WHead)
    case WHead => TakeStep(s)
    case WLog(e) => Touch(s, e).(worker := WRun(e))
    case WRun(e) => HandleStep(s, e, r)
    case WFinish(e, ret) => FinishStep(s, e, ret)
    case WComplete(e) => Put(s, e, Ev(s, e).(done := true)).(worker := WHead)
    case WFree(e) => Free(s, e).(worker := WLock)
    case WRelax => s.(pmCount := s.pmCount - 1, worker := WIdle)
  }

  predicate Enabled(s: State, step: Step) {
    match step
    case NewCall(id, _, _) => id !in s.calls
    case Poster(id, choice) => PosterEnabled(s, id, choice)
    case Worker(_) => WorkerEnabled(s)
  }

  function Next(s: State, step: Step): State
    requires Enabled(s, step)
  {
    match step
    case NewCall(id, kind, wait) => s.(calls := s.calls[id := Call(kind, wait, PEntry)])
    case Poster(id, choice) => PosterNext(s, id, choice)
    case Worker(r) => WorkerNext(s, r)
  }

  /** A run: the states visited from the initial one, one step apart, with every
      handler result taken from `results`. */
  ghost predicate IsRun(steps: seq<Step>, trace: seq<State>, results: iset<int>) {
    && |trace| == |steps| + 1
    && trace[0] == INITIAL
    && forall i :: 0 <= i < |steps| ==>
         && Enabled(trace[i], steps[i])
         && trace[i + 1] == Next(trace[i], steps[i])
         && (steps[i].Worker? ==> steps[i].r in results)
  }

  /** Every call has returned and the worker has nothing to do. */
  ghost predicate Quiet(s: State) {
    s.worker == WIdle && !s.pending && forall id :: id in s.calls ==> s.calls[id].pc.PDone?
  }

  ghost predicate NoDup(q: seq<nat>) {
    forall i, j :: 0 <= i < j < |q| ==> q[i] != q[j]
  }

  /** The event the worker holds between taking it off the list and letting go. */
  function Current(w: WorkerPc): seq<nat> {
    if w.WLog? || w.WRun? || w.WFinish? || w.WComplete? || w.WFree? then [w.e] else []
  }

  /** Current, as long as its handler has not run. */
  function Unhandled(w: WorkerPc): seq<nat> {
    if w.WLog? || w.WRun? then [w.e] else []
  }

  predicate PosterAwake(pc: PosterPc) {
    !pc.PEntry? && !pc.PDone?
  }

  predicate WorkerAwake(w: WorkerPc) {
    !w.WIdle? && !w.WBegin?
  }

  function Awake(calls: map<nat, Call>): set<nat> {
    set id | id in calls && PosterAwake(calls[id].pc)
  }
}
