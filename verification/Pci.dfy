/**
 The PCIe device of the platform driver: MHI state bits, link, bus suspend and
 the power lifecycle.  Dev is the state, the functions say what each operation
 makes of it given what the hardware answers, and class PciDevice is the code.
 */
module PciSpec {
  import opened Common

  const SUSPEND_RETRIES: nat := 3
  const POWER_ON_RETRIES: nat := 4

  datatype MhiBit = INIT | POWER_ON | POWERING_OFF | SUSPEND | TRIGGER_RDDM | RDDM_DONE

  datatype Request =
    | Init | Deinit | PowerOn | PoweringOff | PowerOff | ForcePowerOff
    | Suspend | Resume | TriggerRddm | Rddm | RddmDone

  /** `usage` is the QMI send usage count, `dumpValid` and `nentries` describe
      the collected RAM dump. */
  datatype Dev = Dev(
    mhi: set<MhiBit>,
    linkUp: bool,
    linkDownInd: bool,
    devErr: bool,
    autoSuspended: bool,
    usage: nat,
    poweredOn: bool,
    dumpValid: bool,
    nentries: int)

  /** Quirks and set-up, fixed during a run.  `noMhi`: a QCA6174, which has no MHI;
      every MHI request to it succeeds and does nothing. */
  datatype Config = Config(
    noMhi: bool, fbcBypass: bool, ignoreLinkFailure: bool, coreOnlyFw: bool, qmiBypass: bool, dumpSetUp: bool)

  // ------------------------------------------------------------ MHI state bits

  /** The requests the current bits permit. */
  predicate Allowed(bits: set<MhiBit>, req: Request) {
    match req
    case Init => INIT !in bits
    case Deinit => INIT in bits && POWER_ON !in bits
    case PowerOn => INIT in bits && POWER_ON !in bits
    case ForcePowerOff => POWER_ON in bits
    case PowerOff => POWER_ON in bits && SUSPEND !in bits
    case Suspend => POWER_ON in bits && SUSPEND !in bits
    case Resume => SUSPEND in bits
    case TriggerRddm => POWER_ON in bits && TRIGGER_RDDM !in bits
    case RddmDone => true
    case PoweringOff => false
    case Rddm => false
  }

  function Effect(bits: set<MhiBit>, req: Request): set<MhiBit> {
    match req
    case Init => bits + {INIT}
    case Deinit => bits - {INIT}
    case PowerOn => bits + {POWER_ON}
    case PoweringOff => bits + {POWERING_OFF}
    case PowerOff => bits - {POWER_ON, POWERING_OFF, TRIGGER_RDDM, RDDM_DONE}
    case ForcePowerOff => bits - {POWER_ON, POWERING_OFF, TRIGGER_RDDM, RDDM_DONE}
    case Suspend => bits + {SUSPEND}
    case Resume => bits - {SUSPEND}
    case TriggerRddm => bits + {TRIGGER_RDDM}
    case RddmDone => bits + {RDDM_DONE}
    case Rddm => bits
  }

  /** The first answer other than -EBUSY, or the one after the last retry. */
  function SuspendAnswer(hw: nat -> int, k: nat): int
    requires k <= SUSPEND_RETRIES
    decreases SUSPEND_RETRIES - k
  {
    if hw(k) == -EBUSY && k < SUSPEND_RETRIES then SuspendAnswer(hw, k + 1) else hw(k)
  }

  /** What the MHI core answers in the end; hw(k) is its k-th answer. */
  function Answer(req: Request, hw: nat -> int): int {
    match req
    case Init => hw(0)
    case PowerOn => hw(0)
    case Resume => hw(0)
    case Suspend => SuspendAnswer(hw, 0)
    case TriggerRddm => if hw(0) != 0 then hw(1) else 0
    case _ => 0
  }

  function SetMhi(cfg: Config, bits: set<MhiBit>, req: Request, hw: nat -> int): (set<MhiBit>, int) {
    if cfg.noMhi then (bits, 0)
    else if !Allowed(bits, req) then (bits, -EINVAL)
    else if Answer(req, hw) != 0 then (bits, Answer(req, hw))
    else (Effect(bits, req), 0)
  }

  function Once(ret: int): nat -> int {
    (_: nat) => ret
  }

  /** A power-on time-out leaves the POWER_ON bit forced; `rddmHope` tells whether
      the device may still report its RAM dump. */
  function StartMhi(cfg: Config, bits: set<MhiBit>, prepare: int, boot: int, rddmHope: bool): (set<MhiBit>, int) {
    if cfg.fbcBypass then (bits, 0)
    else
      var (b1, r1) := SetMhi(cfg, bits, Init, Once(prepare));
      if r1 != 0 then (b1, r1)
      else
        var (b2, r2) := SetMhi(cfg, b1, PowerOn, Once(boot));
        if r2 == -ETIMEDOUT then (b2 + {POWER_ON}, if rddmHope then 0 else -ETIMEDOUT) else (b2, r2)
  }

  function PowerOffMhi(cfg: Config, bits: set<MhiBit>, linkDownInd: bool): set<MhiBit> {
    if cfg.fbcBypass || POWER_ON !in bits then bits
    else SetMhi(cfg, bits - {SUSPEND} + {POWERING_OFF}, if linkDownInd then ForcePowerOff else PowerOff, Once(0)).0
  }

  function DeinitMhi(cfg: Config, bits: set<MhiBit>): set<MhiBit> {
    if cfg.fbcBypass || INIT !in bits then bits else SetMhi(cfg, bits, Deinit, Once(0)).0
  }

  // -------------------------------------------------------------- link and bus

  /** Answers to a link resume: link training, D0, enable. */
  datatype LinkHw = LinkHw(train: int, d0: int, enable: int)

  function SuspendLink(d: Dev, train: int): (Dev, int) {
    if !d.linkUp then (d, 0) else if train != 0 then (d, train) else (d.(linkUp := false), 0)
  }

  function ResumeLink(d: Dev, hw: LinkHw): (r: (Dev, int))
    ensures r.0.mhi == d.mhi && r.0.dumpValid == d.dumpValid && r.0.poweredOn == d.poweredOn
  {
    if d.linkUp then (d, 0)
    else if hw.train != 0 then (d, -EAGAIN)
    else if hw.d0 != 0 then (d.(linkUp := true), hw.d0)
    else if hw.enable != 0 then (d.(linkUp := true), hw.enable)
    else (d.(linkUp := true, linkDownInd := false), 0)
  }

  /** Answers to a bus suspend or resume: MHI, link training, device enable (skipped
      with a DRV connection) and the reset line used when the link stays down. */
  datatype BusHw = BusHw(mhi: nat -> int, train: int, drv: bool, enable: int, undo: int, perst: int)

  function SuspendBus(cfg: Config, d: Dev, hw: BusHw): (Dev, int) {
    if !d.linkUp then (d, 0)
    else
      var (b, r) := SetMhi(cfg, d.mhi, Suspend, hw.mhi);
      if r != 0 then (d.(mhi := b), -EAGAIN)
      else if hw.train != 0 then (d.(mhi := SetMhi(cfg, b, Resume, Once(hw.undo)).0), -EAGAIN)
      else (d.(mhi := b, linkUp := false), 0)
  }

  function ResumeBus(cfg: Config, d: Dev, hw: BusHw): (Dev, int) {
    if d.linkUp then (d, 0)
    else if hw.train != 0 then (d.(linkDownInd := d.linkDownInd || hw.perst != 0), -EAGAIN)
    else if !hw.drv && hw.enable != 0 then (d.(linkUp := true), hw.enable)
    else (d.(linkUp := true, mhi := SetMhi(cfg, d.mhi, Resume, hw.mhi).0), 0)
  }

  function AutoSuspend(cfg: Config, d: Dev, hw: BusHw): (Dev, int) {
    var (d1, r) := if d.usage == 0 then SuspendBus(cfg, d, hw) else (d, 0);
    if r != 0 then (d1, r) else (d1.(autoSuspended := true), 0)
  }

  function AutoResume(cfg: Config, d: Dev, hw: BusHw): (Dev, int) {
    var (d1, r) := ResumeBus(cfg, d, hw);
    if r != 0 then (d1, r) else (d1.(autoSuspended := false), 0)
  }

  function SendGet(cfg: Config, d: Dev, hw: BusHw): (Dev, int) {
    var (d1, r) := if d.autoSuspended && d.usage == 0 then ResumeBus(cfg, d, hw) else (d, 0);
    (d1.(usage := (d.usage + 1) % U32), r)
  }

  function SendPut(cfg: Config, d: Dev, hw: BusHw): (Dev, int) {
    var d1 := d.(usage := if d.usage > 0 then d.usage - 1 else 0);
    if d.autoSuspended && d1.usage == 0 && !(d.devErr || d.linkDownInd) then SuspendBus(cfg, d1, hw) else (d1, 0)
  }

  // ----------------------------------------------------------------- lifecycle

  function ClearDump(cfg: Config, d: Dev): Dev {
    if cfg.dumpSetUp then d.(nentries := 0, dumpValid := false) else d
  }

  /** Power MHI off, suspend the link, deinitialise MHI, power the device off. */
  function TearDown(cfg: Config, d: Dev, train: int): (Dev, int) {
    var d1 := d.(mhi := PowerOffMhi(cfg, d.mhi, d.linkDownInd));
    var (d2, r) := SuspendLink(d1, train);
    (d2.(mhi := DeinitMhi(cfg, d2.mhi), poweredOn := false), r)
  }

  /** Answers during a power-up, the first two per attempt. */
  datatype PowerupHw = PowerupHw(
    power: nat -> int, link: nat -> LinkHw,
    prepare: int, boot: int, rddmHope: bool, probe: int, before: int, after: int)

  /** Power and link come up, or the power-up ends with this result. */
  datatype Bringup = Up(dev: Dev) | Ended(dev: Dev, ret: int)

  function BringUp(cfg: Config, d: Dev, hw: PowerupHw, k: nat): Bringup
    requires k <= POWER_ON_RETRIES
    decreases POWER_ON_RETRIES - k
  {
    if !d.poweredOn && hw.power(k) != 0 then Ended(d, hw.power(k))
    else
      var (d1, r) := ResumeLink(d.(poweredOn := true), hw.link(k));
      if r == 0 then Up(d1)
      else if cfg.ignoreLinkFailure then Ended(d1, 0)
      else if r == -EAGAIN && k < POWER_ON_RETRIES then BringUp(cfg, d1.(poweredOn := false), hw, k + 1)
      else Ended(d1.(poweredOn := false), r)
  }

  /** What a power-up first makes of left-overs of an earlier one. */
  function Prepare(cfg: Config, d: Dev, hw: PowerupHw): Dev {
    (if d.dumpValid then TearDown(cfg, ClearDump(cfg, d), hw.before).0 else d).(usage := 0)
  }

  function Powerup(cfg: Config, d: Dev, hw: PowerupHw): (Dev, int) {
    match BringUp(cfg, Prepare(cfg, d, hw), hw, 0)
    case Ended(d1, r) => (d1, r)
    case Up(d1) =>
      var (b, r) := StartMhi(cfg, d1.mhi, hw.prepare, hw.boot, hw.rddmHope);
      var d2 := d1.(mhi := b);
      if r != 0 || cfg.coreOnlyFw || !cfg.qmiBypass || hw.probe == 0 then (d2, 0)
      else (TearDown(cfg, d2, hw.after).0, hw.probe)
  }

  /** The power-up asks for INIT although the INIT bit is set. */
  predicate InitRefused(cfg: Config, d: Dev, hw: PowerupHw) {
    var up := BringUp(cfg, Prepare(cfg, d, hw), hw, 0);
    up.Up? && !cfg.fbcBypass && !cfg.noMhi && !Allowed(up.dev.mhi, Init)
  }

  /** Answers during a dump collection. */
  datatype CollectHw = CollectHw(inPanic: bool, idMatch: bool, bus: BusHw, download: int, entries: nat)

  function Collect(cfg: Config, d: Dev, hw: CollectHw): Dev {
    if RDDM_DONE in d.mhi || !d.poweredOn then d
    else if !d.linkUp && hw.inPanic then d
    else if d.linkUp && (d.linkDownInd || !hw.idMatch) then d
    else
      var (d1, r) := ResumeBus(cfg, d, hw.bus);
      if r != 0 || hw.download != 0 then d1
      else if !cfg.dumpSetUp then d1.(nentries := 0)
      else d1.(nentries := hw.entries, dumpValid := d1.dumpValid || hw.entries > 0,
               mhi := SetMhi(cfg, d1.mhi, RddmDone, Once(0)).0)
  }

  /** `remove` is the driver's answer; `collect` and `unloading` are conditions on
      the driver state that select optional parts. */
  datatype ShutdownHw = ShutdownHw(remove: int, collect: bool, dump: CollectHw, unloading: bool, train: int)

  function Shutdown(cfg: Config, d: Dev, hw: ShutdownHw): (Dev, int) {
    if hw.remove == -EAGAIN then (d, -EAGAIN)
    else
      var d1 := d.(autoSuspended := false);
      var d2 := if hw.collect && d.devErr then Collect(cfg, d1, hw.dump) else d1;
      var (d3, r) := if !d2.poweredOn || d2.dumpValid then (d2, hw.remove) else TearDown(cfg, d2, hw.train);
      (if hw.unloading then d3.(devErr := false, linkDownInd := false) else d3, r)
  }

  function Ramdump(cfg: Config, d: Dev, train: int): Dev {
    if !d.dumpValid || !cfg.dumpSetUp || d.nentries == 0 then d
    else TearDown(cfg, ClearDump(cfg, d), train).0
  }
}

/** The code, updating one device in place. */
module PciDriver {
  import opened Common
  import opened PciSpec

  class PciDevice {
    const cfg: Config
    var mhiState: set<MhiBit>
    var linkUp: bool
    var linkDownInd: bool
    var devErr: bool
    var autoSuspended: bool
    var usage: nat
    var poweredOn: bool
    var dumpValid: bool
    var nentries: int

    function Abs(): Dev
      reads this
    {
      Dev(mhiState, linkUp, linkDownInd, devErr, autoSuspended, usage, poweredOn, dumpValid, nentries)
    }

    constructor (config: Config)
      ensures cfg == config && Abs() == Dev({}, true, false, false, false, 0, false, false, 0)
    {
      cfg := config;
      mhiState := {};
      linkUp, linkDownInd, devErr, autoSuspended, usage := true, false, false, false, 0;
      poweredOn, dumpValid, nentries := false, false, 0;
    }

    method CheckMhiStateBit(req: Request) returns (ret: int)
      ensures ret == if Allowed(mhiState, req) then 0 else -EINVAL
    {
      match req {
        case Init => if INIT !in mhiState { return 0; }
        case Deinit => if INIT in mhiState && POWER_ON !in mhiState { return 0; }
        case PowerOn => if INIT in mhiState && POWER_ON !in mhiState { return 0; }
        case ForcePowerOff => if POWER_ON in mhiState { return 0; }
        case PowerOff => if POWER_ON in mhiState && SUSPEND !in mhiState { return 0; }
        case Suspend => if POWER_ON in mhiState && SUSPEND !in mhiState { return 0; }
        case Resume => if SUSPEND in mhiState { return 0; }
        case TriggerRddm => if POWER_ON in mhiState && TRIGGER_RDDM !in mhiState { return 0; }
        case RddmDone => return 0;
        case _ =>
      }
      return -EINVAL;
    }

    method SetMhiStateBit(req: Request)
      modifies this`mhiState
      ensures mhiState == Effect(old(mhiState), req)
    {
      match req {
        case Init => mhiState := mhiState + {INIT};
        case Deinit => mhiState := mhiState - {INIT};
        case PowerOn => mhiState := mhiState + {POWER_ON};
        case PoweringOff => mhiState := mhiState + {POWERING_OFF};
        case PowerOff => mhiState := mhiState - {POWER_ON}; mhiState := mhiState - {POWERING_OFF};
                         mhiState := mhiState - {TRIGGER_RDDM}; mhiState := mhiState - {RDDM_DONE};
        case ForcePowerOff => mhiState := mhiState - {POWER_ON}; mhiState := mhiState - {POWERING_OFF};
                              mhiState := mhiState - {TRIGGER_RDDM}; mhiState := mhiState - {RDDM_DONE};
        case Suspend => mhiState := mhiState + {SUSPEND};
        case Resume => mhiState := mhiState - {SUSPEND};
        case TriggerRddm => mhiState := mhiState + {TRIGGER_RDDM};
        case RddmDone => mhiState := mhiState + {RDDM_DONE};
        case Rddm =>
      }
    }

    method SetMhiState(req: Request, hw: nat -> int) returns (ret: int)
      modifies this`mhiState
      ensures (mhiState, ret) == SetMhi(cfg, old(mhiState), req, hw)
    {
      if cfg.noMhi { return 0; }
      ret := CheckMhiStateBit(req);
      if ret != 0 { return; }
      match req {
        case Init => ret := hw(0);
        case PowerOn => ret := hw(0);
        case Suspend =>
          var retry := 0;
          ret := hw(retry);
          while ret == -EBUSY && retry < SUSPEND_RETRIES
            invariant retry <= SUSPEND_RETRIES && ret == hw(retry)
            invariant SuspendAnswer(hw, retry) == SuspendAnswer(hw, 0)
          {
            retry := retry + 1;
            ret := hw(retry);
          }
        case Resume => ret := hw(0);
        case TriggerRddm =>
          ret := hw(0);
          if ret != 0 { ret := hw(1); }
        case _ => ret := 0;
      }
      if ret != 0 { return; }
      SetMhiStateBit(req);
    }

    method Start(prepare: int, boot: int, rddmHope: bool) returns (ret: int)
      modifies this`mhiState
      ensures (mhiState, ret) == StartMhi(cfg, old(mhiState), prepare, boot, rddmHope)
    {
      if cfg.fbcBypass { return 0; }
      ret := SetMhiState(Init, Once(prepare));
      if ret != 0 { return; }
      ret := SetMhiState(PowerOn, Once(boot));
      if ret == -ETIMEDOUT {
        mhiState := mhiState + {POWER_ON};
        ret := if rddmHope then 0 else -ETIMEDOUT;
      }
    }

    method PowerOffMhiCore()
      modifies this`mhiState
      ensures mhiState == PowerOffMhi(cfg, old(mhiState), linkDownInd)
    {
      if cfg.fbcBypass || POWER_ON !in mhiState { return; }
      SetMhiStateBit(Resume);
      SetMhiStateBit(PoweringOff);
      var ret := SetMhiState(if !linkDownInd then PowerOff else ForcePowerOff, Once(0));
    }

    method DeinitMhiCore()
      modifies this`mhiState
      ensures mhiState == DeinitMhi(cfg, old(mhiState))
    {
      if cfg.fbcBypass || INIT !in mhiState { return; }
      var ret := SetMhiState(Deinit, Once(0));
    }

    method SuspendPciLink(train: int) returns (ret: int)
      modifies this`linkUp
      ensures (Abs(), ret) == SuspendLink(old(Abs()), train)
    {
      if !linkUp { return 0; }
      ret := train;
      if ret != 0 { return; }
      linkUp := false;
    }

    method ResumePciLink(hw: LinkHw) returns (ret: int)
      modifies this`linkUp, this`linkDownInd
      ensures (Abs(), ret) == ResumeLink(old(Abs()), hw)
    {
      if linkUp { return 0; }
      if hw.train != 0 { return -EAGAIN; }
      linkUp := true;
      ret := hw.d0;
      if ret != 0 { return; }
      ret := hw.enable;
      if ret != 0 { return; }
      if linkDownInd { linkDownInd := false; }
    }

    method SuspendBusCore(hw: BusHw) returns (ret: int)
      modifies this`mhiState, this`linkUp
      ensures (Abs(), ret) == SuspendBus(cfg, old(Abs()), hw)
    {
      if !linkUp { return 0; }
      ret := SetMhiState(Suspend, hw.mhi);
      if ret != 0 { return -EAGAIN; }
      if hw.train != 0 {
        ret := SetMhiState(Resume, Once(hw.undo));
        return -EAGAIN;
      }
      linkUp := false;
    }

    method ResumeBusCore(hw: BusHw) returns (ret: int)
      modifies this`mhiState, this`linkUp, this`linkDownInd
      ensures (Abs(), ret) == ResumeBus(cfg, old(Abs()), hw)
    {
      if linkUp { return 0; }
      if hw.train != 0 {
        if !linkDownInd && hw.perst != 0 { linkDownInd := true; }
        return -EAGAIN;
      }
      linkUp := true;
      if !hw.drv {
        ret := hw.enable;
        if ret != 0 { return; }
      }
      ret := SetMhiState(Resume, hw.mhi);
      ret := 0;
    }

    method AutoSuspendBus(hw: BusHw) returns (ret: int)
      modifies this`mhiState, this`linkUp, this`autoSuspended
      ensures (Abs(), ret) == AutoSuspend(cfg, old(Abs()), hw)
    {
      if usage == 0 {
        ret := SuspendBusCore(hw);
        if ret != 0 { return; }
      }
      autoSuspended := true;
      ret := 0;
    }

    method AutoResumeBus(hw: BusHw) returns (ret: int)
      modifies this`mhiState, this`linkUp, this`linkDownInd, this`autoSuspended
      ensures (Abs(), ret) == AutoResume(cfg, old(Abs()), hw)
    {
      ret := ResumeBusCore(hw);
      if ret != 0 { return; }
      autoSuspended := false;
    }

    method QmiSendGet(hw: BusHw) returns (ret: int)
      modifies this`mhiState, this`linkUp, this`linkDownInd, this`usage
      ensures (Abs(), ret) == SendGet(cfg, old(Abs()), hw)
    {
      ret := 0;
      if autoSuspended && usage == 0 { ret := ResumeBusCore(hw); }
      usage := (usage + 1) % U32;
    }

    method QmiSendPut(hw: BusHw) returns (ret: int)
      modifies this`mhiState, this`linkUp, this`usage
      ensures (Abs(), ret) == SendPut(cfg, old(Abs()), hw)
    {
      ret := 0;
      if usage > 0 { usage := usage - 1; }
      if autoSuspended && usage == 0 && !(devErr || linkDownInd) { ret := SuspendBusCore(hw); }
    }

    method ClearDumpInfo()
      modifies this`nentries, this`dumpValid
      ensures Abs() == ClearDump(cfg, old(Abs()))
    {
      if !cfg.dumpSetUp { return; }
      nentries := 0;
      dumpValid := false;
    }

    method TearDownDevice(train: int) returns (ret: int)
      modifies this`mhiState, this`linkUp, this`poweredOn
      ensures (Abs(), ret) == TearDown(cfg, old(Abs()), train)
    {
      PowerOffMhiCore();
      ret := SuspendPciLink(train);
      DeinitMhiCore();
      poweredOn := false;
    }

    /** The retry loop of the power-up. */
    method BringUpDevice(hw: PowerupHw) returns (up: bool, ret: int)
      modifies this`poweredOn, this`linkUp, this`linkDownInd
      ensures BringUp(cfg, old(Abs()), hw, 0) == if up then Up(Abs()) else Ended(Abs(), ret)
    {
      hide ResumeLink;
      var retry := 0;
      up := false;
      while true
        invariant retry <= POWER_ON_RETRIES
        invariant BringUp(cfg, Abs(), hw, retry) == BringUp(cfg, old(Abs()), hw, 0)
        decreases POWER_ON_RETRIES - retry
      {
        if !poweredOn {
          ret := hw.power(retry);
          if ret != 0 { return false, ret; }
          poweredOn := true;
        }
        ret := ResumePciLink(hw.link(retry));
        if ret == 0 { return true, 0; }
        if cfg.ignoreLinkFailure { return false, 0; }
        poweredOn := false;
        if ret != -EAGAIN || retry >= POWER_ON_RETRIES { return false, ret; }
        retry := retry + 1;
      }
    }

    method PowerupDevice(hw: PowerupHw) returns (ret: int)
      modifies this
      ensures (Abs(), ret) == Powerup(cfg, old(Abs()), hw)
    {
      if dumpValid {
        ClearDumpInfo();
        var _ := TearDownDevice(hw.before);
      }
      usage := 0;
      assert Abs() == Prepare(cfg, old(Abs()), hw);
      var up;
      up, ret := BringUpDevice(hw);
      if !up { return; }
      ret := Start(hw.prepare, hw.boot, hw.rddmHope);
      if ret != 0 { return 0; }
      if cfg.coreOnlyFw { return 0; }
      if cfg.qmiBypass {
        ret := hw.probe;
        if ret != 0 { var _ := TearDownDevice(hw.after); }
      }
    }

    method CollectDumpInfo(hw: CollectHw)
      modifies this
      ensures Abs() == Collect(cfg, old(Abs()), hw)
    {
      if RDDM_DONE in mhiState { return; }
      if !poweredOn { return; }
      if !hw.inPanic {
        if !linkUp {
          var ret := ResumeBusCore(hw.bus);
          if ret != 0 { return; }
        } else if linkDownInd || !hw.idMatch {
          return;
        }
      } else if !linkUp || linkDownInd || !hw.idMatch {
        return;
      }
      if hw.download != 0 { return; }
      nentries := 0;
      if !cfg.dumpSetUp { return; }
      nentries := hw.entries;
      if nentries > 0 { dumpValid := true; }
      var _ := SetMhiState(RddmDone, Once(0));
    }

    method ShutdownDevice(hw: ShutdownHw) returns (ret: int)
      modifies this
      ensures (Abs(), ret) == Shutdown(cfg, old(Abs()), hw)
    {
      ret := hw.remove;
      if ret == -EAGAIN { return; }
      autoSuspended := false;
      if hw.collect && devErr { CollectDumpInfo(hw.dump); }
      if poweredOn && !dumpValid {
        ret := TearDownDevice(hw.train);
      }
      if hw.unloading {
        devErr := false;
        linkDownInd := false;
      }
    }

    method RamdumpDevice(train: int)
      modifies this
      ensures Abs() == Ramdump(cfg, old(Abs()), train)
    {
      if !dumpValid || !cfg.dumpSetUp || nentries == 0 { return; }
      ClearDumpInfo();
      var _ := TearDownDevice(train);
    }
  }
}
