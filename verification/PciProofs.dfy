/** What every run of the PCIe device keeps. */
module PciProofs {
  import opened Common
  import opened PciSpec

  // ------------------------------------------------------------ MHI state bits

  predicate BitsOk(bits: set<MhiBit>) {
    && (POWER_ON in bits ==> INIT in bits)
    && (SUSPEND in bits || POWERING_OFF in bits || TRIGGER_RDDM in bits ==> POWER_ON in bits)
  }

  datatype MhiOp =
    | MStart(prepare: int, boot: int, rddmHope: bool)
    | MSuspend(hw: nat -> int)
    | MResume(hw: nat -> int)
    | MTriggerRddm(hw: nat -> int)
    | MRddmDone
    | MPowerOff(linkDownInd: bool)
    | MDeinit

  function MhiStep(cfg: Config, bits: set<MhiBit>, op: MhiOp): set<MhiBit> {
    match op
    case MStart(prepare, boot, rddmHope) => StartMhi(cfg, bits, prepare, boot, rddmHope).0
    case MSuspend(hw) => SetMhi(cfg, bits, Suspend, hw).0
    case MResume(hw) => SetMhi(cfg, bits, Resume, hw).0
    case MTriggerRddm(hw) => SetMhi(cfg, bits, TriggerRddm, hw).0
    case MRddmDone => SetMhi(cfg, bits, RddmDone, Once(0)).0
    case MPowerOff(linkDownInd) => PowerOffMhi(cfg, bits, linkDownInd)
    case MDeinit => DeinitMhi(cfg, bits)
  }

  function MhiRun(cfg: Config, ops: seq<MhiOp>): set<MhiBit> {
    if ops == [] then {} else MhiStep(cfg, MhiRun(cfg, ops[..|ops| - 1]), ops[|ops| - 1])
  }

  predicate BitsInv(cfg: Config, bits: set<MhiBit>) {
    BitsOk(bits) && POWERING_OFF !in bits && (cfg.noMhi ==> bits == {})
  }

  lemma {:induction false} MhiStepOk(cfg: Config, bits: set<MhiBit>, op: MhiOp)
    requires BitsInv(cfg, bits)
    ensures BitsInv(cfg, MhiStep(cfg, bits, op))
  {
    match op
    case MStart(_, _, _) =>
    case MPowerOff(_) =>
    case MDeinit =>
    case _ =>
  }

  /** Any sequence of MHI operations, with any answers, keeps the bits in order;
      POWERING_OFF is only ever set inside one power-off, and a device without MHI
      has none of them. */
  lemma {:induction false} MhiRunOk(cfg: Config, ops: seq<MhiOp>)
    ensures BitsInv(cfg, MhiRun(cfg, ops))
  {
    if ops == [] {
    } else {
      MhiRunOk(cfg, ops[..|ops| - 1]);
      MhiStepOk(cfg, MhiRun(cfg, ops[..|ops| - 1]), ops[|ops| - 1]);
    }
  }

  /** Powering MHI off and deinitialising it is never refused, and leaves at most
      RDDM_DONE: exactly when that bit was set while MHI was not powered on. */
  lemma {:induction false} PowerOffThenDeinit(cfg: Config, bits: set<MhiBit>, linkDownInd: bool)
    requires BitsOk(bits) && !cfg.fbcBypass && !cfg.noMhi
    ensures var off := PowerOffMhi(cfg, bits, linkDownInd);
            && (POWER_ON in bits ==>
                  Allowed(bits - {SUSPEND} + {POWERING_OFF}, if linkDownInd then ForcePowerOff else PowerOff))
            && (INIT in off ==> Allowed(off, Deinit))
            && DeinitMhi(cfg, off) == if RDDM_DONE in bits && POWER_ON !in bits then {RDDM_DONE} else {}
  {
    var off := PowerOffMhi(cfg, bits, linkDownInd);
    forall b ensures b in DeinitMhi(cfg, off) <==> b == RDDM_DONE && b in bits && POWER_ON !in bits {
    }
  }

  /** A request is permitted exactly if it changes the bits and keeps them in order; a
      power-off exactly if MHI is powered on, and not suspended unless it is forced; the
      end of a RAM dump always, and what the driver never asks for never. */
  lemma {:induction false} AllowedIff(bits: set<MhiBit>, req: Request)
    requires BitsOk(bits)
    ensures req.Init? || req.Deinit? || req.PowerOn? || req.Suspend? || req.Resume? || req.TriggerRddm? ==>
              (Allowed(bits, req) <==> Effect(bits, req) != bits && BitsOk(Effect(bits, req)))
    ensures Allowed(bits, ForcePowerOff) <==> POWER_ON in bits
    ensures Allowed(bits, PowerOff) <==> POWER_ON in bits && BitsOk(Effect(bits, PowerOff))
    ensures Allowed(bits, RddmDone) && !Allowed(bits, PoweringOff) && !Allowed(bits, Rddm)
  {
  }

  /** The MHI core accepts the request: a suspend after being busy at most three times, a
      RAM dump at the first or the second try, anything else at once. */
  ghost predicate Accepts(req: Request, hw: nat -> int) {
    match req
    case Init => hw(0) == 0
    case PowerOn => hw(0) == 0
    case Resume => hw(0) == 0
    case Suspend => exists m: nat :: SettlesAt(hw, m) && hw(m) == 0
    case TriggerRddm => hw(0) == 0 || hw(1) == 0
    case _ => true
  }

  /** The m-th answer is the first other than busy, no later than the third retry. */
  ghost predicate SettlesAt(hw: nat -> int, m: nat) {
    m <= 3 && hw(m) != -EBUSY && forall j: nat :: j < m ==> hw(j) == -EBUSY
  }

  lemma {:induction false} SuspendAnswerFrom(hw: nat -> int, k: nat)
    requires k <= SUSPEND_RETRIES && forall j: nat :: j < k ==> hw(j) == -EBUSY
    ensures forall m: nat :: SettlesAt(hw, m) ==> SuspendAnswer(hw, k) == hw(m)
    ensures (exists m: nat :: SettlesAt(hw, m)) || SuspendAnswer(hw, k) == -EBUSY
    decreases SUSPEND_RETRIES - k
  {
    if hw(k) != -EBUSY {
      assert SettlesAt(hw, k);
    } else if k < SUSPEND_RETRIES {
      SuspendAnswerFrom(hw, k + 1);
    }
  }

  /** A request succeeds, and has its effect, exactly if it is permitted and accepted;
      otherwise it changes nothing.  Without MHI every request succeeds so. */
  lemma {:induction false} RequestIff(cfg: Config, bits: set<MhiBit>, req: Request, hw: nat -> int)
    ensures var (b, r) := SetMhi(cfg, bits, req, hw);
            && (r == 0 <==> cfg.noMhi || (Allowed(bits, req) && Accepts(req, hw)))
            && b == (if r == 0 && !cfg.noMhi then Effect(bits, req) else bits)
            && (!cfg.noMhi && !Allowed(bits, req) ==> r == -EINVAL)
  {
    hide Allowed, Effect;
    if req.Suspend? { SuspendAnswerFrom(hw, 0); }
    hide SuspendAnswer;
  }

  // ----------------------------------------------------------- bus and QMI use

  datatype BusOp =
    | BAutoSuspend(hw: BusHw)
    | BAutoResume(hw: BusHw)
    | BSendGet(hw: BusHw)
    | BSendPut(hw: BusHw)
    | BDeviceError
    | BLinkLoss

  function BusStep(cfg: Config, d: Dev, op: BusOp): Dev {
    match op
    case BAutoSuspend(hw) => AutoSuspend(cfg, d, hw).0
    case BAutoResume(hw) => AutoResume(cfg, d, hw).0
    case BSendGet(hw) => SendGet(cfg, d, hw).0
    case BSendPut(hw) => SendPut(cfg, d, hw).0
    case BDeviceError => d.(devErr := true)
    case BLinkLoss => d.(linkDownInd := true)
  }

  function BusRun(cfg: Config, d: Dev, ops: seq<BusOp>): Dev {
    if ops == [] then d else BusStep(cfg, BusRun(cfg, d, ops[..|ops| - 1]), ops[|ops| - 1])
  }

  predicate DownOk(cfg: Config, d: Dev) {
    !d.linkUp ==> d.autoSuspended && (cfg.noMhi || SUSPEND in d.mhi)
  }

  /** A suspend that fails leaves the link up; one that succeeds suspends MHI. */
  lemma {:induction false} SuspendBusEnds(cfg: Config, d: Dev, hw: BusHw)
    requires DownOk(cfg, d)
    ensures var (e, r) := SuspendBus(cfg, d, hw);
            && (r != 0 ==> e.linkUp) && (!e.linkUp ==> cfg.noMhi || SUSPEND in e.mhi)
            && e.autoSuspended == d.autoSuspended
  {
  }

  lemma {:induction false} StepKeepsDownOk(cfg: Config, d: Dev, op: BusOp)
    requires DownOk(cfg, d)
    ensures DownOk(cfg, BusStep(cfg, d, op))
  {
    match op
    case BAutoSuspend(hw) => SuspendBusEnds(cfg, d, hw);
    case BSendPut(hw) => SuspendBusEnds(cfg, d.(usage := if d.usage > 0 then d.usage - 1 else 0), hw);
    case _ =>
  }

  /** Whatever fails, a link that is down belongs to an auto-suspended device
      whose MHI, if it has one, is suspended. */
  lemma {:induction false} LinkDownMeansSuspended(cfg: Config, d: Dev, ops: seq<BusOp>)
    requires DownOk(cfg, d)
    ensures DownOk(cfg, BusRun(cfg, d, ops))
  {
    if ops == [] {
    } else {
      LinkDownMeansSuspended(cfg, d, ops[..|ops| - 1]);
      StepKeepsDownOk(cfg, BusRun(cfg, d, ops[..|ops| - 1]), ops[|ops| - 1]);
    }
  }

  /** The link is up exactly while somebody needs it. */
  predicate InUse(d: Dev) {
    d.linkUp <==> !d.autoSuspended || d.usage > 0
  }

  /** MHI is powered on, and suspended exactly while the link is down. */
  predicate Ready(cfg: Config, d: Dev) {
    d.usage < U32 && (cfg.noMhi || (POWER_ON in d.mhi && (SUSPEND in d.mhi <==> !d.linkUp)))
  }

  predicate InStep(cfg: Config, d: Dev) {
    Ready(cfg, d) && InUse(d)
  }

  predicate DeviceEnables(hw: BusHw) {
    hw.drv || hw.enable == 0
  }

  predicate MhiResumes(cfg: Config, hw: BusHw) {
    cfg.noMhi || hw.mhi(0) == 0
  }

  ghost predicate MhiSuspends(cfg: Config, hw: BusHw) {
    cfg.noMhi || Accepts(Suspend, hw.mhi)
  }

  lemma {:induction false} MhiSuspendsIff(cfg: Config, hw: BusHw)
    ensures MhiSuspends(cfg, hw) <==> cfg.noMhi || SuspendAnswer(hw.mhi, 0) == 0
  {
    SuspendAnswerFrom(hw.mhi, 0);
  }

  /** The operations that keep the link in step with its use: a first get completes
      its resume, and none wraps the count; a last put may suspend and does; a resume
      that finds the link down completes or does not begin; and a suspend that is
      undone is undone completely. */
  ghost predicate KeepsStep(cfg: Config, d: Dev, op: BusOp) {
    match op
    case BAutoSuspend(hw) =>
      d.usage == 0 && !d.autoSuspended && MhiSuspends(cfg, hw) && hw.train != 0 ==> cfg.noMhi || hw.undo == 0
    case BAutoResume(hw) =>
      d.autoSuspended && d.usage == 0 ==> hw.train != 0 || (DeviceEnables(hw) && MhiResumes(cfg, hw))
    case BSendGet(hw) =>
      && (d.autoSuspended && d.usage == 0 ==>
            hw.train == 0 && (cfg.noMhi || (DeviceEnables(hw) && MhiResumes(cfg, hw))))
      && (d.autoSuspended ==> d.usage != U32 - 1)
    case BSendPut(hw) =>
      d.autoSuspended && d.usage == 1 ==> !d.devErr && !d.linkDownInd && MhiSuspends(cfg, hw) && hw.train == 0
    case _ => true
  }

  /** A suspend that finds the link up and MHI running. */
  lemma {:induction false} SuspendBusIs(cfg: Config, d: Dev, hw: BusHw)
    requires Ready(cfg, d) && d.linkUp
    ensures var e := SuspendBus(cfg, d, hw).0;
            && e == d.(linkUp := e.linkUp, mhi := e.mhi)
            && (e.linkUp <==> !MhiSuspends(cfg, hw) || hw.train != 0)
            && (Ready(cfg, e) <==> (MhiSuspends(cfg, hw) && hw.train != 0 ==> cfg.noMhi || hw.undo == 0))
            && (SuspendBus(cfg, d, hw).1 == 0 <==> !e.linkUp)
  {
    MhiSuspendsIff(cfg, hw);
    hide SuspendAnswer, MhiSuspends;
    if MhiSuspends(cfg, hw) {
      assert SetMhi(cfg, d.mhi, Suspend, hw.mhi) == (if cfg.noMhi then d.mhi else d.mhi + {SUSPEND}, 0);
    }
  }

  /** A resume that finds the link down and MHI suspended. */
  lemma {:induction false} ResumeBusIs(cfg: Config, d: Dev, hw: BusHw)
    requires Ready(cfg, d) && !d.linkUp
    ensures var e := ResumeBus(cfg, d, hw).0;
            && e == d.(linkUp := e.linkUp, mhi := e.mhi, linkDownInd := e.linkDownInd)
            && (e.linkUp <==> hw.train == 0)
            && (e.linkDownInd <==> d.linkDownInd || (hw.train != 0 && hw.perst != 0))
            && (Ready(cfg, e) <==> (hw.train == 0 ==> cfg.noMhi || (DeviceEnables(hw) && MhiResumes(cfg, hw))))
            && (ResumeBus(cfg, d, hw).1 == 0 <==> hw.train == 0 && DeviceEnables(hw))
  {
  }

  lemma {:induction false} SuspendKeptIff(cfg: Config, d: Dev, hw: BusHw)
    requires InStep(cfg, d)
    ensures InStep(cfg, AutoSuspend(cfg, d, hw).0) <==> KeepsStep(cfg, d, BAutoSuspend(hw))
  {
    if d.usage == 0 && d.linkUp { SuspendBusIs(cfg, d, hw); }
  }

  lemma {:induction false} ResumeKeptIff(cfg: Config, d: Dev, hw: BusHw)
    requires InStep(cfg, d)
    ensures InStep(cfg, AutoResume(cfg, d, hw).0) <==> KeepsStep(cfg, d, BAutoResume(hw))
  {
    if !d.linkUp { ResumeBusIs(cfg, d, hw); }
  }

  lemma {:induction false} GetKeptIff(cfg: Config, d: Dev, hw: BusHw)
    requires InStep(cfg, d)
    ensures InStep(cfg, SendGet(cfg, d, hw).0) <==> KeepsStep(cfg, d, BSendGet(hw))
  {
    if !d.linkUp { ResumeBusIs(cfg, d, hw); }
  }

  lemma {:induction false} PutKeptIff(cfg: Config, d: Dev, hw: BusHw)
    requires InStep(cfg, d)
    ensures InStep(cfg, SendPut(cfg, d, hw).0) <==> KeepsStep(cfg, d, BSendPut(hw))
  {
    if d.linkUp && d.usage > 0 { SuspendBusIs(cfg, d.(usage := d.usage - 1), hw); }
  }

  /** One operation keeps the link in step exactly under that condition. */
  lemma {:induction false} StepKeptIff(cfg: Config, d: Dev, op: BusOp)
    requires InStep(cfg, d)
    ensures InStep(cfg, BusStep(cfg, d, op)) <==> KeepsStep(cfg, d, op)
  {
    match op
    case BAutoSuspend(hw) => SuspendKeptIff(cfg, d, hw);
    case BAutoResume(hw) => ResumeKeptIff(cfg, d, hw);
    case BSendGet(hw) => GetKeptIff(cfg, d, hw);
    case BSendPut(hw) => PutKeptIff(cfg, d, hw);
    case _ =>
  }

  /** What the operations return: a suspend that returns 0 has marked the device, a
      resume that does has unmarked it and the link is up, a get that does has the link
      up, and a put's error leaves it up; gets and puts are counted in any case. */
  lemma {:induction false} BusReturns(cfg: Config, d: Dev, hw: BusHw)
    requires InStep(cfg, d)
    ensures var (e, r) := AutoSuspend(cfg, d, hw);
            if r == 0 then e.autoSuspended else r == -EAGAIN && e.linkUp && e.autoSuspended == d.autoSuspended
    ensures var (e, r) := AutoResume(cfg, d, hw);
            && (r == 0 <==> d.linkUp || (hw.train == 0 && DeviceEnables(hw)))
            && (if r == 0 then !e.autoSuspended && e.linkUp else e.autoSuspended == d.autoSuspended)
            && (r != 0 ==> r == if hw.train != 0 then -EAGAIN else hw.enable)
    ensures var (e, r) := SendGet(cfg, d, hw);
            && (r == 0 <==> d.linkUp || (hw.train == 0 && DeviceEnables(hw)))
            && (r == 0 ==> e.linkUp) && e.usage == (d.usage + 1) % U32 && e.autoSuspended == d.autoSuspended
            && (r != 0 ==> r == if hw.train != 0 then -EAGAIN else hw.enable)
    ensures var (e, r) := SendPut(cfg, d, hw);
            && (if r == 0 then true else r == -EAGAIN && e.linkUp && d.usage == 1)
            && e.usage == (if d.usage > 0 then d.usage - 1 else 0) && e.autoSuspended == d.autoSuspended
  {
    if d.linkUp {
      SuspendBusIs(cfg, d, hw);
      if d.usage > 0 { SuspendBusIs(cfg, d.(usage := d.usage - 1), hw); }
    } else {
      ResumeBusIs(cfg, d, hw);
    }
    hide SuspendBus, MhiSuspends;
  }

  /** A get that finds the device in use leaves the link alone.  So after a first get
      that failed, with the link down, the next one reports success all the same. */
  lemma {:induction false} GetAfterFailedGet(cfg: Config, d: Dev, hw: BusHw, hw': BusHw)
    requires d.autoSuspended && d.usage == 0 && !d.linkUp && hw.train != 0
    ensures var (e, r) := SendGet(cfg, d, hw);
            var (f, r') := SendGet(cfg, e, hw');
            r == -EAGAIN && r' == 0 && !f.linkUp && f == e.(usage := 2)
  {
  }

  /** The state that the i-th operation of a run finds. */
  function Before(cfg: Config, d: Dev, ops: seq<BusOp>, i: nat): Dev
    requires i <= |ops|
  {
    BusRun(cfg, d, ops[..i])
  }

  lemma {:induction false} BeforeNext(cfg: Config, d: Dev, ops: seq<BusOp>, i: nat)
    requires i < |ops|
    ensures Before(cfg, d, ops, i + 1) == BusStep(cfg, Before(cfg, d, ops, i), ops[i])
  {
    assert ops[..i + 1][..i] == ops[..i];
  }

  ghost predicate AllKeepStep(cfg: Config, d: Dev, ops: seq<BusOp>) {
    forall i: nat :: i < |ops| ==> KeepsStep(cfg, Before(cfg, d, ops, i), ops[i])
  }

  lemma {:induction false} KeptUpTo(cfg: Config, d: Dev, ops: seq<BusOp>, i: nat)
    requires InStep(cfg, d) && i <= |ops| && AllKeepStep(cfg, d, ops)
    ensures InStep(cfg, Before(cfg, d, ops, i))
  {
    if i > 0 {
      KeptUpTo(cfg, d, ops, i - 1);
      BeforeNext(cfg, d, ops, i - 1);
      StepKeptIff(cfg, Before(cfg, d, ops, i - 1), ops[i - 1]);
    }
  }

  /** Over whole runs: the link is in step with its use in every state, exactly if
      every operation meets the condition in the state it finds. */
  lemma {:induction false} LinkFollowsUseIff(cfg: Config, d: Dev, ops: seq<BusOp>)
    requires InStep(cfg, d)
    ensures (forall i: nat :: i <= |ops| ==> InStep(cfg, Before(cfg, d, ops, i))) <==> AllKeepStep(cfg, d, ops)
  {
    if AllKeepStep(cfg, d, ops) {
      forall i: nat | i <= |ops| ensures InStep(cfg, Before(cfg, d, ops, i)) { KeptUpTo(cfg, d, ops, i); }
    } else {
      var i: nat :| i < |ops| && !KeepsStep(cfg, Before(cfg, d, ops, i), ops[i]);
      BeforeNext(cfg, d, ops, i);
      if InStep(cfg, Before(cfg, d, ops, i)) { StepKeptIff(cfg, Before(cfg, d, ops, i), ops[i]); }
    }
  }

  /** Nothing goes wrong in this operation, and the device is not reported down. */
  ghost predicate Flawless(op: BusOp) {
    !op.BDeviceError? && !op.BLinkLoss? &&
    (forall k :: op.hw.mhi(k) == 0) && op.hw.train == 0 && op.hw.enable == 0
  }

  lemma {:induction false} FlawlessKeeps(cfg: Config, d: Dev, op: BusOp)
    requires InStep(cfg, d) && !d.devErr && !d.linkDownInd && Flawless(op) && d.usage < U32 - 1
    ensures var e := BusStep(cfg, d, op);
            InStep(cfg, e) && !e.devErr && !e.linkDownInd && e.usage <= d.usage + 1
  {
    StepKeptIff(cfg, d, op);
  }

  /** When nothing fails and the device is not reported down, the link is up exactly
      while it is needed. */
  lemma {:induction false} LinkFollowsUse(cfg: Config, d: Dev, ops: seq<BusOp>)
    requires InStep(cfg, d) && !d.devErr && !d.linkDownInd && d.usage + |ops| < U32
    requires forall i :: 0 <= i < |ops| ==> Flawless(ops[i])
    ensures var e := BusRun(cfg, d, ops);
            InStep(cfg, e) && !e.devErr && !e.linkDownInd && e.usage <= d.usage + |ops|
  {
    if ops == [] {
    } else {
      LinkFollowsUse(cfg, d, ops[..|ops| - 1]);
      FlawlessKeeps(cfg, BusRun(cfg, d, ops[..|ops| - 1]), ops[|ops| - 1]);
    }
  }

  const GOOD: BusHw := BusHw(_ => 0, 0, false, 0, 0, 0)

  lemma {:induction false} RunOne(cfg: Config, d: Dev, op: BusOp)
    ensures BusRun(cfg, d, [op]) == BusStep(cfg, d, op)
  {
    assert [op][..0] == [];
  }

  lemma {:induction false} PutsBreakUse(cfg: Config, d: Dev) returns (ops: seq<BusOp>)
    requires !cfg.noMhi && d.linkUp && SUSPEND in d.mhi && d.autoSuspended && d.usage > 0
    ensures (forall i :: 0 <= i < |ops| ==> Flawless(ops[i])) && !InUse(BusRun(cfg, d, ops))
    decreases d.usage
  {
    var put := BSendPut(GOOD);
    if d.usage == 1 {
      ops := [put];
      RunOne(cfg, d, put);
    } else {
      var rest := PutsBreakUse(cfg, BusStep(cfg, d, put));
      ops := [put] + rest;
      RunOne(cfg, d, put);
      RunAppend(cfg, d, [put], rest);
    }
  }

  lemma {:induction false} RunAppend(cfg: Config, d: Dev, a: seq<BusOp>, b: seq<BusOp>)
    ensures BusRun(cfg, d, a + b) == BusRun(cfg, BusRun(cfg, d, a), b)
  {
    if b == [] {
      assert a + b == a;
    } else {
      assert (a + b)[..|a + b| - 1] == a + b[..|b| - 1];
      RunAppend(cfg, d, a, b[..|b| - 1]);
    }
  }

  /** Keeping MHI suspended exactly while the link is down is not only sufficient: a
      link that is up with MHI left suspended falls out of step with its use in some
      run on which nothing fails any more. */
  lemma {:induction false} LeftSuspendedBreaksUse(cfg: Config, d: Dev) returns (ops: seq<BusOp>)
    requires !cfg.noMhi && InUse(d) && d.linkUp && SUSPEND in d.mhi
    ensures (forall i :: 0 <= i < |ops| ==> Flawless(ops[i])) && !InUse(BusRun(cfg, d, ops))
  {
    var get, suspend := BSendGet(GOOD), BAutoSuspend(GOOD);
    if d.autoSuspended {
      ops := PutsBreakUse(cfg, d);
    } else if d.usage > 0 {
      var rest := PutsBreakUse(cfg, BusStep(cfg, d, suspend));
      RunOne(cfg, d, suspend);
      RunAppend(cfg, d, [suspend], rest);
      ops := [suspend] + rest;
    } else {
      var rest := PutsBreakUse(cfg, BusStep(cfg, BusStep(cfg, d, get), suspend));
      RunOne(cfg, d, get);
      RunOne(cfg, BusStep(cfg, d, get), suspend);
      RunAppend(cfg, d, [get], [suspend]);
      RunAppend(cfg, d, [get] + [suspend], rest);
      ops := [get] + [suspend] + rest;
    }
  }

  // ------------------------------------------------------------------ lifecycle

  datatype LifeOp =
    | LPowerup(hw: PowerupHw)
    | LShutdown(down: ShutdownHw)
    | LRamdump(train: int)
    | LCollect(dump: CollectHw)
    | LBus(bus: BusOp)
    | LTriggerRddm(answers: nat -> int)

  /** `armed`: a power-up may follow, because there was none since the start or
      since a shutdown that did not return -EAGAIN. */
  datatype Life = Life(dev: Dev, armed: bool)

  function LifeStep(cfg: Config, l: Life, op: LifeOp): Life {
    var d := l.dev;
    match op
    case LPowerup(hw) => Life(Powerup(cfg, d, hw).0, false)
    case LShutdown(hw) => Life(Shutdown(cfg, d, hw).0, l.armed || Shutdown(cfg, d, hw).1 != -EAGAIN)
    case LRamdump(train) => Life(Ramdump(cfg, d, train), l.armed)
    case LCollect(hw) => Life(Collect(cfg, d, hw), l.armed)
    case LBus(bus) => Life(BusStep(cfg, d, bus), l.armed)
    case LTriggerRddm(answers) => Life(d.(mhi := SetMhi(cfg, d.mhi, TriggerRddm, answers).0), l.armed)
  }

  /** Nothing is powered, initialised or collected. */
  predicate Fresh(d: Dev) {
    d.mhi == {} && !d.poweredOn && !d.dumpValid
  }

  function LifeRun(cfg: Config, d: Dev, ops: seq<LifeOp>): Life {
    if ops == [] then Life(d, true) else LifeStep(cfg, LifeRun(cfg, d, ops[..|ops| - 1]), ops[|ops| - 1])
  }

  /** Every power-up of the run comes when the device is armed. */
  ghost predicate Disciplined(cfg: Config, d: Dev, ops: seq<LifeOp>) {
    forall i :: 0 <= i < |ops| && ops[i].LPowerup? ==> LifeRun(cfg, d, ops[..i]).armed
  }

  predicate LifeOk(cfg: Config, d: Dev) {
    && BitsOk(d.mhi)
    && (INIT in d.mhi ==> d.poweredOn)
    && (d.dumpValid ==> d.poweredOn && cfg.dumpSetUp)
    && (cfg.fbcBypass ==> INIT !in d.mhi)
    && (cfg.noMhi ==> d.mhi == {})
  }

  predicate LifeInv(cfg: Config, l: Life) {
    LifeOk(cfg, l.dev) && (l.armed && INIT in l.dev.mhi ==> l.dev.dumpValid)
  }

  lemma {:induction false} TearDownClears(cfg: Config, d: Dev, train: int)
    requires LifeOk(cfg, d)
    ensures var e := TearDown(cfg, d, train).0;
            && INIT !in e.mhi && BitsOk(e.mhi) && (cfg.noMhi ==> e.mhi == {})
            && !e.poweredOn && e == d.(mhi := e.mhi, linkUp := e.linkUp, poweredOn := false)
            && (e.linkUp <==> d.linkUp && train != 0) && TearDown(cfg, d, train).1 == if d.linkUp then train else 0
  {
    if !cfg.fbcBypass && !cfg.noMhi { PowerOffThenDeinit(cfg, d.mhi, d.linkDownInd); }
  }

  lemma {:induction false} BringUpFrame(cfg: Config, d: Dev, hw: PowerupHw, k: nat)
    requires k <= POWER_ON_RETRIES
    ensures var b := BringUp(cfg, d, hw, k);
            b.dev.mhi == d.mhi && b.dev.dumpValid == d.dumpValid && (b.Up? ==> b.dev.poweredOn)
    decreases POWER_ON_RETRIES - k
  {
    hide ResumeLink;
    if k < POWER_ON_RETRIES {
      BringUpFrame(cfg, ResumeLink(d.(poweredOn := true), hw.link(k)).0.(poweredOn := false), hw, k + 1);
    }
  }

  // ------------------------------------------------------------------- power-up

  /** The device has power at attempt j. */
  predicate PowerOk(d: Dev, hw: PowerupHw, j: nat) {
    hw.power(j) == 0 || (j == 0 && d.poweredOn)
  }

  /** The attempts before the m-th all had power and failed to train the link. */
  ghost predicate FailedBefore(d: Dev, hw: PowerupHw, m: nat) {
    forall j: nat :: j < m ==> PowerOk(d, hw, j) && hw.link(j).train != 0
  }

  /** The error of a link that has trained. */
  function LinkError(l: LinkHw): int { if l.d0 != 0 then l.d0 else l.enable }

  /** The link comes up at attempt m: it trains, and answers, or says "again" and is
      found up by the next attempt. */
  predicate LinkAnswersAt(hw: PowerupHw, m: nat) {
    hw.link(m).train == 0 &&
    (LinkError(hw.link(m)) == 0 || (LinkError(hw.link(m)) == -EAGAIN && m < 4 && hw.power(m + 1) == 0))
  }

  ghost predicate UpAt(d: Dev, hw: PowerupHw, m: nat) {
    m <= 4 && FailedBefore(d, hw, m) && PowerOk(d, hw, m) && LinkAnswersAt(hw, m)
  }

  /** The state at attempt m, if the ones before failed to train the link. */
  function AtAttempt(d: Dev, m: nat): Dev { if m == 0 then d else d.(poweredOn := false) }

  lemma {:induction false} BringUpReaches(cfg: Config, d: Dev, hw: PowerupHw, m: nat)
    requires m <= POWER_ON_RETRIES && !cfg.ignoreLinkFailure && !d.linkUp && FailedBefore(d, hw, m)
    ensures BringUp(cfg, d, hw, 0) == BringUp(cfg, AtAttempt(d, m), hw, m)
  {
    if m > 0 {
      BringUpReaches(cfg, d, hw, m - 1);
      assert PowerOk(d, hw, m - 1) && hw.link(m - 1).train != 0;
    }
  }

  /** An attempt that finds the link up needs power only. */
  lemma {:induction false} LinkUpAttempt(cfg: Config, d: Dev, hw: PowerupHw, k: nat)
    requires k <= POWER_ON_RETRIES && d.linkUp
    ensures BringUp(cfg, d, hw, k)
         == if d.poweredOn || hw.power(k) == 0 then Up(d.(poweredOn := true)) else Ended(d, hw.power(k))
  {
  }

  /** An attempt whose link trains. */
  lemma {:induction false} TrainedAttempt(cfg: Config, d: Dev, hw: PowerupHw, k: nat)
    requires k <= POWER_ON_RETRIES && !cfg.ignoreLinkFailure && !d.linkUp
    requires (d.poweredOn || hw.power(k) == 0) && hw.link(k).train == 0
    ensures var b, err := BringUp(cfg, d, hw, k), LinkError(hw.link(k));
            && (b.Up? <==> err == 0 || (err == -EAGAIN && k < 4 && hw.power(k + 1) == 0))
            && (b.Up? ==> b.dev.linkUp && b.dev.poweredOn) && (err == 0 ==> !b.dev.linkDownInd)
            && (b.Ended? ==> !b.dev.poweredOn && b.ret == if err == -EAGAIN && k < 4 then hw.power(k + 1) else err)
  {
    if LinkError(hw.link(k)) == -EAGAIN && k < 4 {
      LinkUpAttempt(cfg, d.(linkUp := true, poweredOn := false), hw, k + 1);
    }
  }

  lemma {:induction false} UnpoweredAttempt(cfg: Config, d: Dev, hw: PowerupHw, k: nat)
    requires k <= POWER_ON_RETRIES && !d.poweredOn && hw.power(k) != 0
    ensures BringUp(cfg, d, hw, k) == Ended(d, hw.power(k))
  {
  }

  /** The fifth attempt, if training fails. */
  lemma {:induction false} LastAttempt(cfg: Config, d: Dev, hw: PowerupHw)
    requires !cfg.ignoreLinkFailure && !d.linkUp && (d.poweredOn || hw.power(4) == 0) && hw.link(4).train != 0
    ensures BringUp(cfg, d, hw, 4) == Ended(d.(poweredOn := false), -EAGAIN)
  {
  }

  /** What the first attempt that does not fail in training makes of a bring-up: it
      comes up, or ends, powered off, with the error of the power or of the link; if
      all five fail in training, with -EAGAIN. */
  lemma {:induction false} BringUpEnds(cfg: Config, d: Dev, hw: PowerupHw, m: nat)
    requires m <= 5 && !cfg.ignoreLinkFailure && !d.linkUp && FailedBefore(d, hw, m)
    requires m < 5 ==> !PowerOk(d, hw, m) || hw.link(m).train == 0
    ensures var b, err := BringUp(cfg, d, hw, 0), LinkError(hw.link(m));
            && (b.Up? <==> m < 5 && UpAt(d, hw, m))
            && (b.Up? ==> b.dev.linkUp && b.dev.poweredOn && (err == 0 ==> !b.dev.linkDownInd))
            && (b.Ended? && m == 5 ==> b.ret == -EAGAIN)
            && (b.Ended? && m < 5 && !PowerOk(d, hw, m) ==> b.ret == hw.power(m))
            && (b.Ended? && m < 5 && PowerOk(d, hw, m) ==>
                  b.ret == if err == -EAGAIN && m < 4 then hw.power(m + 1) else err)
            && (b.Ended? ==> !b.dev.poweredOn)
  {
    hide BringUp;
    var k := if m == 5 then 4 else m;
    BringUpReaches(cfg, d, hw, k);
    if m == 5 {
      assert PowerOk(d, hw, 4) && hw.link(4).train != 0;
      LastAttempt(cfg, AtAttempt(d, 4), hw);
    } else if PowerOk(d, hw, m) {
      TrainedAttempt(cfg, AtAttempt(d, m), hw, m);
    } else {
      UnpoweredAttempt(cfg, AtAttempt(d, m), hw, m);
    }
  }

  lemma {:induction false} FirstOther(d: Dev, hw: PowerupHw, k: nat) returns (m: nat)
    requires k <= 5 && FailedBefore(d, hw, k)
    ensures m <= 5 && FailedBefore(d, hw, m) && (m < 5 ==> !PowerOk(d, hw, m) || hw.link(m).train == 0)
    decreases 5 - k
  {
    if k < 5 && PowerOk(d, hw, k) && hw.link(k).train != 0 { m := FirstOther(d, hw, k + 1); } else { m := k; }
  }

  /** Power and link come up exactly if one of five attempts has power and a link that
      answers, after attempts that had power and failed in training only. */
  ghost predicate ComesUp(d: Dev, hw: PowerupHw) {
    if d.linkUp then PowerOk(d, hw, 0) else exists m: nat :: UpAt(d, hw, m)
  }

  lemma {:induction false} BringUpIff(cfg: Config, d: Dev, hw: PowerupHw)
    requires !cfg.ignoreLinkFailure
    ensures BringUp(cfg, d, hw, 0).Up? <==> ComesUp(d, hw)
    ensures BringUp(cfg, d, hw, 0).Up? ==> BringUp(cfg, d, hw, 0).dev.linkUp
  {
    if !d.linkUp {
      var n := FirstOther(d, hw, 0);
      hide BringUp;
      BringUpEnds(cfg, d, hw, n);
      forall m: nat | UpAt(d, hw, m) ensures m == n {
      }
    }
  }

  /** With the quirk that ignores link failures there is one attempt: power decides the
      result, and a failed link leaves the device powered. */
  lemma {:induction false} IgnoredLinkFailure(cfg: Config, d: Dev, hw: PowerupHw)
    requires cfg.ignoreLinkFailure && !d.linkUp
    ensures var b := BringUp(cfg, d, hw, 0);
            && (b.Up? <==> PowerOk(d, hw, 0) && hw.link(0) == LinkHw(0, 0, 0))
            && (b.Ended? ==> b.ret == (if PowerOk(d, hw, 0) then 0 else hw.power(0)))
            && (b.Ended? ==> (b.dev.poweredOn <==> PowerOk(d, hw, 0)))
  {
  }

  lemma {:induction false} StartKeepsBits(cfg: Config, bits: set<MhiBit>, prepare: int, boot: int, hope: bool)
    requires BitsOk(bits)
    ensures var b := StartMhi(cfg, bits, prepare, boot, hope).0;
            BitsOk(b) && (cfg.fbcBypass || cfg.noMhi ==> b == bits)
    ensures cfg.fbcBypass || cfg.noMhi ==> StartMhi(cfg, bits, prepare, boot, hope).1 == 0
  {
  }

  /** Starting MHI from clean bits: it is initialised exactly if it could be prepared,
      and powered on exactly if it then booted or ran into the time-out. */
  lemma {:induction false} StartIff(cfg: Config, bits: set<MhiBit>, prepare: int, boot: int, hope: bool)
    requires !cfg.fbcBypass && !cfg.noMhi && BitsOk(bits) && INIT !in bits
    ensures var (b, r) := StartMhi(cfg, bits, prepare, boot, hope);
            && (INIT in b <==> prepare == 0)
            && (POWER_ON in b <==> prepare == 0 && (boot == 0 || boot == -ETIMEDOUT))
            && r == if prepare != 0 then prepare
                    else if boot == -ETIMEDOUT && hope then 0 else boot
  {
  }

  /** The probe is called and fails. */
  predicate ProbeFails(cfg: Config, hw: PowerupHw) {
    && !cfg.coreOnlyFw && cfg.qmiBypass && hw.probe != 0
    && hw.prepare == 0 && (hw.boot == 0 || (hw.boot == -ETIMEDOUT && hw.rddmHope))
  }

  /** The device is powered, its link up and MHI powered on. */
  predicate Running(d: Dev) {
    d.poweredOn && d.linkUp && POWER_ON in d.mhi
  }

  /** A power-up brings the device into operation exactly if power and link come up, MHI
      is prepared and boots or times out, and no probe fails; and it returns the error
      of power, link or probe, but not that of MHI. */
  lemma {:induction false} PowerupIff(cfg: Config, d: Dev, hw: PowerupHw)
    requires LifeOk(cfg, d) && (INIT in d.mhi ==> d.dumpValid)
    requires !cfg.ignoreLinkFailure && !cfg.fbcBypass && !cfg.noMhi
    ensures var p, (e, r) := Prepare(cfg, d, hw), Powerup(cfg, d, hw);
            && (Running(e) <==> ComesUp(p, hw) && hw.prepare == 0 && (hw.boot == 0 || hw.boot == -ETIMEDOUT)
                                && !ProbeFails(cfg, hw))
            && (ComesUp(p, hw) ==> r == if ProbeFails(cfg, hw) then hw.probe else 0)
            && (!ComesUp(p, hw) ==> BringUp(cfg, p, hw, 0) == Ended(e, r))
  {
    var p := Prepare(cfg, d, hw);
    if d.dumpValid { TearDownClears(cfg, ClearDump(cfg, d), hw.before); }
    assert INIT !in p.mhi && BitsOk(p.mhi);
    BringUpIff(cfg, p, hw);
    BringUpFrame(cfg, p, hw, 0);
    hide BringUp, ComesUp, Prepare;
    var b := BringUp(cfg, p, hw, 0);
    if b.Up? {
      StartIff(cfg, b.dev.mhi, hw.prepare, hw.boot, hw.rddmHope);
      StartKeepsBits(cfg, b.dev.mhi, hw.prepare, hw.boot, hw.rddmHope);
      TearDownClears(cfg, b.dev.(mhi := StartMhi(cfg, b.dev.mhi, hw.prepare, hw.boot, hw.rddmHope).0), hw.after);
      hide StartMhi, TearDown;
    }
  }

  /** What a power-up starts from: unused, and if a dump was left, torn down and without
      it. */
  lemma {:induction false} PreparedIs(cfg: Config, d: Dev, hw: PowerupHw)
    requires LifeOk(cfg, d)
    ensures var p := Prepare(cfg, d, hw);
            && p.usage == 0 && !p.dumpValid
            && (!d.dumpValid ==> p == d.(usage := 0))
            && (d.dumpValid ==>
                  p.nentries == 0 && !p.poweredOn && INIT !in p.mhi && (p.linkUp <==> d.linkUp && hw.before != 0))
  {
    if d.dumpValid { TearDownClears(cfg, ClearDump(cfg, d), hw.before); }
  }

  /** A power-up is refused INIT exactly if it gets as far as asking, finds the
      bit set, and no dump made it clean up first. */
  lemma {:induction false} InitRefusedIff(cfg: Config, d: Dev, hw: PowerupHw)
    requires LifeOk(cfg, d)
    ensures InitRefused(cfg, d, hw) <==>
            && INIT in d.mhi && !d.dumpValid && !cfg.fbcBypass && !cfg.noMhi
            && BringUp(cfg, Prepare(cfg, d, hw), hw, 0).Up?
  {
    BringUpFrame(cfg, Prepare(cfg, d, hw), hw, 0);
    if d.dumpValid { TearDownClears(cfg, ClearDump(cfg, d), hw.before); }
  }

  lemma {:induction false} PowerupPreserves(cfg: Config, d: Dev, hw: PowerupHw)
    requires LifeOk(cfg, d) && (INIT in d.mhi ==> d.dumpValid)
    ensures LifeOk(cfg, Powerup(cfg, d, hw).0)
  {
    var p := Prepare(cfg, d, hw);
    if d.dumpValid { TearDownClears(cfg, ClearDump(cfg, d), hw.before); }
    assert INIT !in p.mhi && !p.dumpValid && BitsOk(p.mhi);
    BringUpFrame(cfg, p, hw, 0);
    var b := BringUp(cfg, p, hw, 0);
    if b.Up? {
      StartKeepsBits(cfg, b.dev.mhi, hw.prepare, hw.boot, hw.rddmHope);
      TearDownClears(cfg, b.dev.(mhi := StartMhi(cfg, b.dev.mhi, hw.prepare, hw.boot, hw.rddmHope).0), hw.after);
    }
  }

  /** What the lifecycle needs of a bus operation. */
  predicate SameLife(cfg: Config, d: Dev, e: Dev) {
    LifeOk(cfg, e) && (INIT in e.mhi <==> INIT in d.mhi) && e.dumpValid == d.dumpValid && e.poweredOn == d.poweredOn
  }

  lemma {:induction false} SuspendBusPreserves(cfg: Config, d: Dev, hw: BusHw)
    requires LifeOk(cfg, d)
    ensures SameLife(cfg, d, SuspendBus(cfg, d, hw).0)
  {
  }

  lemma {:induction false} ResumeBusPreserves(cfg: Config, d: Dev, hw: BusHw)
    requires LifeOk(cfg, d)
    ensures SameLife(cfg, d, ResumeBus(cfg, d, hw).0)
  {
  }

  lemma {:induction false} CollectPreserves(cfg: Config, d: Dev, hw: CollectHw)
    requires LifeOk(cfg, d)
    ensures var e := Collect(cfg, d, hw);
            LifeOk(cfg, e) && (INIT in e.mhi <==> INIT in d.mhi) && (d.dumpValid ==> e.dumpValid)
                 && e.poweredOn == d.poweredOn
  {
    ResumeBusPreserves(cfg, d, hw.bus);
  }

  /** The device can be reached for a dump. */
  predicate Reachable(d: Dev, hw: CollectHw) {
    if d.linkUp then !d.linkDownInd && hw.idMatch
    else !hw.inPanic && hw.bus.train == 0 && (hw.bus.drv || hw.bus.enable == 0)
  }

  /** The collection gets as far as having the dump. */
  predicate Collects(d: Dev, hw: CollectHw) {
    RDDM_DONE !in d.mhi && d.poweredOn && Reachable(d, hw) && hw.download == 0
  }

  /** A dump is collected exactly if there is none since the last power-on, the device
      is powered and can be reached, and the download succeeds; with a dump table it is
      valid if it has entries, and their number is recorded. */
  lemma {:induction false} CollectIff(cfg: Config, d: Dev, hw: CollectHw)
    requires LifeOk(cfg, d) && !cfg.noMhi
    ensures var e := Collect(cfg, d, hw);
            && (RDDM_DONE in e.mhi <==> RDDM_DONE in d.mhi || (Collects(d, hw) && cfg.dumpSetUp))
            && (e.dumpValid <==> d.dumpValid || (Collects(d, hw) && cfg.dumpSetUp && hw.entries > 0))
            && e.nentries == (if !Collects(d, hw) then d.nentries else if cfg.dumpSetUp then hw.entries else 0)
  {
  }

  /** What has been collected is not collected again. */
  lemma {:induction false} CollectOnce(cfg: Config, d: Dev, hw: CollectHw, again: CollectHw)
    requires LifeOk(cfg, d) && !cfg.noMhi && cfg.dumpSetUp && Collects(d, hw)
    ensures var e := Collect(cfg, d, hw); Collect(cfg, e, again) == e
  {
    CollectIff(cfg, d, hw);
  }

  lemma {:induction false} ShutdownPreserves(cfg: Config, d: Dev, hw: ShutdownHw)
    requires LifeOk(cfg, d)
    ensures var (e, r) := Shutdown(cfg, d, hw);
            LifeOk(cfg, e) && (r != -EAGAIN && INIT in e.mhi ==> e.dumpValid)
            && ((INIT in d.mhi ==> d.dumpValid) ==> (INIT in e.mhi ==> e.dumpValid))
  {
    if hw.remove != -EAGAIN {
      var d1 := d.(autoSuspended := false);
      var d2 := if hw.collect && d.devErr then Collect(cfg, d1, hw.dump) else d1;
      CollectPreserves(cfg, d1, hw.dump);
      TearDownClears(cfg, d2, hw.train);
    }
  }

  /** What a shutdown leaves: nothing changed if the driver says "again"; otherwise not
      auto-suspended, and powered off unless a dump is kept; the device's errors are
      forgotten if the driver is being unloaded. */
  lemma {:induction false} ShutdownEnds(cfg: Config, d: Dev, hw: ShutdownHw)
    requires LifeOk(cfg, d)
    ensures var (e, r) := Shutdown(cfg, d, hw);
            && (hw.remove == -EAGAIN ==> e == d && r == -EAGAIN)
            && (hw.remove != -EAGAIN ==>
                  && !e.autoSuspended && (e.poweredOn <==> e.dumpValid)
                  && (!cfg.noMhi ==>
                        (e.dumpValid <==> d.dumpValid || (hw.collect && d.devErr && Collects(d, hw.dump) &&
                                                          cfg.dumpSetUp && hw.dump.entries > 0)))
                  && (hw.unloading ==> !e.devErr && !e.linkDownInd)
                  && (!(hw.collect && d.devErr) ==>
                        && (hw.unloading || (e.devErr == d.devErr && e.linkDownInd == d.linkDownInd))
                        && e.dumpValid == d.dumpValid
                        && (e.linkUp <==> d.linkUp && (d.dumpValid || !d.poweredOn || hw.train != 0))
                        && r == if d.dumpValid || !d.poweredOn then hw.remove else if d.linkUp then hw.train else 0))
  {
    if hw.remove != -EAGAIN {
      var d1 := d.(autoSuspended := false);
      var d2 := if hw.collect && d.devErr then Collect(cfg, d1, hw.dump) else d1;
      CollectPreserves(cfg, d1, hw.dump);
      if !cfg.noMhi { CollectIff(cfg, d1, hw.dump); }
      TearDownClears(cfg, d2, hw.train);
      hide TearDown;
    }
  }

  /** A dump that has been written out is gone and the device is off. */
  lemma {:induction false} RamdumpEnds(cfg: Config, d: Dev, train: int)
    requires LifeOk(cfg, d)
    ensures var e := Ramdump(cfg, d, train);
            if d.dumpValid && d.nentries != 0 then
              !e.dumpValid && e.nentries == 0 && !e.poweredOn && (e.linkUp <==> d.linkUp && train != 0)
            else e == d
  {
    if cfg.dumpSetUp { TearDownClears(cfg, ClearDump(cfg, d), train); }
  }

  lemma {:induction false} BusPreserves(cfg: Config, d: Dev, op: BusOp)
    requires LifeOk(cfg, d)
    ensures var e := BusStep(cfg, d, op);
            LifeOk(cfg, e) && (INIT in e.mhi <==> INIT in d.mhi) && e.dumpValid == d.dumpValid
  {
    hide ResumeBus, SuspendBus, SetMhi, BitsOk;
    match op
    case BAutoSuspend(hw) => SuspendBusPreserves(cfg, d, hw);
    case BAutoResume(hw) => ResumeBusPreserves(cfg, d, hw);
    case BSendGet(hw) => ResumeBusPreserves(cfg, d, hw);
    case BSendPut(hw) => SuspendBusPreserves(cfg, d.(usage := if d.usage > 0 then d.usage - 1 else 0), hw);
    case _ =>
  }

  lemma {:induction false} LifeStepPreserves(cfg: Config, l: Life, op: LifeOp)
    requires LifeInv(cfg, l) && (op.LPowerup? ==> l.armed)
    ensures LifeInv(cfg, LifeStep(cfg, l, op))
  {
    match op
    case LPowerup(hw) => PowerupPreserves(cfg, l.dev, hw);
    case LShutdown(hw) => ShutdownPreserves(cfg, l.dev, hw);
    case LRamdump(train) => TearDownClears(cfg, ClearDump(cfg, l.dev), train);
    case LCollect(hw) => CollectPreserves(cfg, l.dev, hw);
    case LBus(bus) => BusPreserves(cfg, l.dev, bus);
    case LTriggerRddm(_) =>
  }

  lemma {:induction false} LifeRunOk(cfg: Config, d: Dev, ops: seq<LifeOp>)
    requires Fresh(d) && Disciplined(cfg, d, ops)
    ensures LifeInv(cfg, LifeRun(cfg, d, ops))
  {
    if ops == [] {
    } else {
      var before := ops[..|ops| - 1];
      forall i | 0 <= i < |before| && before[i].LPowerup? ensures LifeRun(cfg, d, before[..i]).armed {
        assert before[..i] == ops[..i];
      }
      LifeRunOk(cfg, d, before);
      LifeStepPreserves(cfg, LifeRun(cfg, d, before), ops[|ops| - 1]);
    }
  }

  /** In every disciplined run, whatever the hardware answers: INIT and a valid
      dump imply power, and no power-up is ever refused INIT. */
  lemma {:induction false} NeverRefused(cfg: Config, d: Dev, ops: seq<LifeOp>, hw: PowerupHw)
    requires Fresh(d) && Disciplined(cfg, d, ops)
    ensures var e := LifeRun(cfg, d, ops).dev;
            && (INIT in e.mhi ==> e.poweredOn) && (e.dumpValid ==> e.poweredOn)
            && (LifeRun(cfg, d, ops).armed ==> !InitRefused(cfg, e, hw))
  {
    LifeRunOk(cfg, d, ops);
    InitRefusedIff(cfg, LifeRun(cfg, d, ops).dev, hw);
  }

  /** Without the discipline it fails: after a power-up on good hardware a second
      one is refused, also when the shutdown in between said to try again. */
  lemma {:induction false} SecondPowerupRefused(d: Dev, retry: ShutdownHw)
    requires Fresh(d) && retry.remove == -EAGAIN
    ensures var cfg := Config(false, false, false, false, false, true);
            var hw := PowerupHw(Once(0), _ => LinkHw(0, 0, 0), 0, 0, false, 0, 0, 0);
            && InitRefused(cfg, LifeRun(cfg, d, [LPowerup(hw)]).dev, hw)
            && InitRefused(cfg, LifeRun(cfg, d, [LPowerup(hw), LShutdown(retry)]).dev, hw)
  {
    var cfg := Config(false, false, false, false, false, true);
    var hw := PowerupHw(Once(0), _ => LinkHw(0, 0, 0), 0, 0, false, 0, 0, 0);
    var one, two := [LPowerup(hw)], [LPowerup(hw), LShutdown(retry)];
    assert one[..0] == [] && two[..1] == one;
    var e := LifeRun(cfg, d, one).dev;
    assert LifeRun(cfg, d, two).dev == e;
    BringUpFrame(cfg, Prepare(cfg, d, hw), hw, 0);
    BringUpFrame(cfg, Prepare(cfg, e, hw), hw, 0);
  }
}
