/**
 Windowed register access: the BAR shows the first 512 KiB of the device's
 register file directly and one further 512 KiB window, which the remap register
 selects.  The driver's read and write functions hide the window.  The shifts and
 masks of the code are written as division and remainder.
 */
module RegWindowSpec {
  import opened Common

  const REMAP_BAR_CTRL: nat := 0x310C
  const MAX_UNWINDOWED: nat := 0x80000
  const WINDOW_START: nat := 0x80000
  const WINDOW_SIZE: nat := 0x80000
  const WINDOW_ENABLE_BIT: nat := 0x40000000
  const WINDOWS: nat := 64
  const WINDOW_LIMIT: nat := 0x2000000
  const DEAD: nat := 0xFFFFFFFF

  /** `file` is the device's register file, the remap register included; `alive`
      tells whether the device answers on the bus.  The other fields are the
      driver's: its link state and its copy of the window last selected. */
  datatype Dev = Dev(windowed: bool, file: map<nat, nat>, alive: bool, linkUp: bool, downInd: bool, remapWindow: nat)

  function Get(file: map<nat, nat>, offset: nat): nat {
    if offset in file then file[offset] else 0
  }

  function WindowOf(offset: nat): nat { offset / WINDOW_SIZE % WINDOWS }

  /** The register that answers at a BAR address, if any. */
  function Decode(d: Dev, addr: nat): Option<nat> {
    var remap := Get(d.file, REMAP_BAR_CTRL);
    if !d.windowed || addr < MAX_UNWINDOWED then Some(addr)
    else if addr < WINDOW_START + WINDOW_SIZE && remap / WINDOW_ENABLE_BIT % 2 == 1 then
      Some(remap % WINDOWS * WINDOW_SIZE + addr % WINDOW_SIZE)
    else None
  }

  function BusRead(d: Dev, addr: nat): nat {
    if d.alive && Decode(d, addr).Some? then Get(d.file, Decode(d, addr).value) else DEAD
  }

  function BusWrite(d: Dev, addr: nat, val: nat): Dev {
    if d.alive && Decode(d, addr).Some? then d.(file := d.file[Decode(d, addr).value := val]) else d
  }

  function LinkStatus(d: Dev): int {
    if !d.linkUp then -EACCES else if d.downInd then -EIO else if !d.alive then -EIO else 0
  }

  function Select(d: Dev, offset: nat): Dev {
    BusWrite(d, REMAP_BAR_CTRL, WINDOW_ENABLE_BIT + WindowOf(offset)).(remapWindow := WindowOf(offset))
  }

  /** `irq`: called with interrupts off, where the link is not checked first. */
  function RegRead(d: Dev, offset: nat, irq: bool): (Dev, int, nat) {
    if !irq && LinkStatus(d) != 0 then (d, LinkStatus(d), 0)
    else if !d.windowed || offset < MAX_UNWINDOWED then (d, 0, BusRead(d, offset))
    else
      var d' := Select(d, offset);
      (d', 0, BusRead(d', WINDOW_START + offset % WINDOW_SIZE))
  }

  function RegWrite(d: Dev, offset: nat, val: nat, irq: bool): (Dev, int) {
    if !irq && LinkStatus(d) != 0 then (d, LinkStatus(d))
    else if !d.windowed || offset < MAX_UNWINDOWED then (BusWrite(d, offset, val), 0)
    else (BusWrite(Select(d, offset), WINDOW_START + offset % WINDOW_SIZE, val), 0)
  }
}

module RegWindowDriver {
  import opened Common
  import opened RegWindowSpec

  class RegisterAccess {
    const windowed: bool
    var file: map<nat, nat>
    var alive: bool
    var linkUp: bool
    var downInd: bool
    var remapWindow: nat

    function Abs(): Dev
      reads this
    {
      Dev(windowed, file, alive, linkUp, downInd, remapWindow)
    }

    method Readl(addr: nat) returns (val: nat)
      ensures val == BusRead(Abs(), addr)
    {
      if !alive { return DEAD; }
      match Decode(Abs(), addr)
      case None => val := DEAD;
      case Some(reg) => val := Get(file, reg);
    }

    method Writel(addr: nat, val: nat)
      modifies this`file
      ensures Abs() == BusWrite(old(Abs()), addr, val)
    {
      var target := Decode(Abs(), addr);
      if alive && target.Some? { file := file[target.value := val]; }
    }

    method CheckLinkStatus() returns (ret: int)
      ensures ret == LinkStatus(Abs())
    {
      if !linkUp { return -EACCES; }
      if downInd { return -EIO; }
      if !alive { return -EIO; }
      return 0;
    }

    method SelectWindow(offset: nat)
      modifies this`file, this`remapWindow
      ensures Abs() == Select(old(Abs()), offset)
    {
      var window := offset / WINDOW_SIZE % WINDOWS;
      Writel(REMAP_BAR_CTRL, WINDOW_ENABLE_BIT + window);
      if window != remapWindow { remapWindow := window; }
    }

    method Read(offset: nat, irq: bool) returns (ret: int, val: nat)
      modifies this`file, this`remapWindow
      ensures (Abs(), ret, val) == RegRead(old(Abs()), offset, irq)
    {
      ret, val := 0, 0;
      if !irq {
        ret := CheckLinkStatus();
        if ret != 0 { return; }
      }
      if !windowed || offset < MAX_UNWINDOWED {
        val := Readl(offset);
        return;
      }
      SelectWindow(offset);
      val := Readl(WINDOW_START + offset % WINDOW_SIZE);
    }

    method Write(offset: nat, val: nat, irq: bool) returns (ret: int)
      modifies this`file, this`remapWindow
      ensures (Abs(), ret) == RegWrite(old(Abs()), offset, val, irq)
    {
      ret := 0;
      if !irq {
        ret := CheckLinkStatus();
        if ret != 0 { return; }
      }
      if !windowed || offset < MAX_UNWINDOWED {
        Writel(offset, val);
        return;
      }
      SelectWindow(offset);
      Writel(WINDOW_START + offset % WINDOW_SIZE, val);
    }
  }
}

module RegWindowProofs {
  import opened Common
  import opened RegWindowSpec

  predicate Healthy(d: Dev) {
    d.alive && d.linkUp && !d.downInd
  }

  /** The register file as clients see it: the remap register is the driver's own. */
  function Flat(file: map<nat, nat>): map<nat, nat> {
    file - {REMAP_BAR_CTRL}
  }

  /** Decode takes 25 bits of an offset. */
  function Reached(d: Dev, offset: nat): nat {
    if d.windowed && offset >= MAX_UNWINDOWED then offset % WINDOW_LIMIT else offset
  }

  predicate Addressable(windowed: bool, offset: nat) {
    offset != REMAP_BAR_CTRL && (windowed ==> offset < WINDOW_LIMIT)
  }

  lemma {:induction false} SplitOffset(offset: nat)
    ensures WindowOf(offset) * WINDOW_SIZE + offset % WINDOW_SIZE == offset % WINDOW_LIMIT
  {
  }

  /** Once the window of an offset is selected, its BAR address decodes to the
      register reached, whatever was selected before. */
  lemma {:induction false} SelectDecodes(d: Dev, offset: nat)
    requires d.alive && d.windowed && offset >= MAX_UNWINDOWED
    ensures Decode(Select(d, offset), WINDOW_START + offset % WINDOW_SIZE) == Some(Reached(d, offset))
    ensures Select(d, offset).file == d.file[REMAP_BAR_CTRL := WINDOW_ENABLE_BIT + WindowOf(offset)]
  {
    var win := WindowOf(offset);
    var d' := Select(d, offset);
    assert Get(d'.file, REMAP_BAR_CTRL) == WINDOW_ENABLE_BIT + win;
    assert (WINDOW_ENABLE_BIT + win) / WINDOW_ENABLE_BIT % 2 == 1;
    assert (WINDOW_ENABLE_BIT + win) % WINDOWS == win;
    assert (WINDOW_START + offset % WINDOW_SIZE) % WINDOW_SIZE == offset % WINDOW_SIZE;
    SplitOffset(offset);
  }

  /** What the driver knows of the link, and whether the device answers. */
  datatype Link = Link(alive: bool, up: bool, downInd: bool)

  function LinkOf(d: Dev): Link { Link(d.alive, d.linkUp, d.downInd) }

  /** Why an access is refused, 0 if it is not; with interrupts off none is. */
  function Refusal(l: Link, irq: bool): int {
    if irq then 0 else if !l.up then -EACCES else if l.downInd || !l.alive then -EIO else 0
  }

  /** What a read of a flat register file returns. */
  function FlatRead(file: map<nat, nat>, l: Link, offset: nat, irq: bool): (int, nat) {
    if Refusal(l, irq) != 0 then (Refusal(l, irq), 0) else (0, if l.alive then Get(file, offset) else DEAD)
  }

  function FlatWrite(file: map<nat, nat>, l: Link, offset: nat, val: nat, irq: bool): map<nat, nat> {
    if Refusal(l, irq) == 0 && l.alive then file[offset := val] else file
  }

  lemma {:induction false} FlatUpdated(file: map<nat, nat>, remap: nat, offset: nat, val: nat)
    requires offset != REMAP_BAR_CTRL
    ensures Flat(file[offset := val]) == Flat(file)[offset := val]
    ensures Flat(file[REMAP_BAR_CTRL := remap]) == Flat(file)
    ensures Flat(file[REMAP_BAR_CTRL := remap][offset := val]) == Flat(file)[offset := val]
  {
  }

  /** One write changes the register named and nothing else clients see; it is refused
      without effect on a link known to be down, and lost on a dead one. */
  lemma {:induction false} WriteRefines(d: Dev, offset: nat, val: nat, irq: bool)
    requires Addressable(d.windowed, offset)
    ensures var (d', ret) := RegWrite(d, offset, val, irq);
            && ret == Refusal(LinkOf(d), irq) && Flat(d'.file) == FlatWrite(Flat(d.file), LinkOf(d), offset, val, irq)
            && LinkOf(d') == LinkOf(d) && d'.windowed == d.windowed
  {
    FlatUpdated(d.file, WINDOW_ENABLE_BIT + WindowOf(offset), offset, val);
    hide Flat;
    if d.alive && d.windowed && offset >= MAX_UNWINDOWED { SelectDecodes(d, offset); }
  }

  /** One read returns the register named and changes nothing clients see. */
  lemma {:induction false} ReadRefines(d: Dev, offset: nat, irq: bool)
    requires Addressable(d.windowed, offset)
    ensures var (d', ret, val) := RegRead(d, offset, irq);
            && (ret, val) == FlatRead(Flat(d.file), LinkOf(d), offset, irq) && Flat(d'.file) == Flat(d.file)
            && LinkOf(d') == LinkOf(d) && d'.windowed == d.windowed
  {
    if d.alive && d.windowed && offset >= MAX_UNWINDOWED { SelectDecodes(d, offset); }
  }

  /** Accesses, and changes of the link between them. */
  datatype Op = ReadOp(offset: nat, irq: bool) | WriteOp(offset: nat, val: nat, irq: bool) | LinkOp(link: Link)

  /** What a client learns from each operation: the value read, or 0. */
  function Outcomes(d: Dev, ops: seq<Op>): seq<(int, nat)>
    decreases |ops|
  {
    if ops == [] then []
    else match ops[0]
         case ReadOp(o, irq) => var (d', ret, val) := RegRead(d, o, irq); [(ret, val)] + Outcomes(d', ops[1..])
         case WriteOp(o, v, irq) => var (d', ret) := RegWrite(d, o, v, irq); [(ret, 0)] + Outcomes(d', ops[1..])
         case LinkOp(l) =>
           [(0, 0)] + Outcomes(d.(alive := l.alive, linkUp := l.up, downInd := l.downInd), ops[1..])
  }

  function FlatOutcomes(file: map<nat, nat>, l: Link, ops: seq<Op>): seq<(int, nat)>
    decreases |ops|
  {
    if ops == [] then []
    else match ops[0]
         case ReadOp(o, irq) => [FlatRead(file, l, o, irq)] + FlatOutcomes(file, l, ops[1..])
         case WriteOp(o, v, irq) => [(Refusal(l, irq), 0)] + FlatOutcomes(FlatWrite(file, l, o, v, irq), l, ops[1..])
         case LinkOp(l') => [(0, 0)] + FlatOutcomes(file, l', ops[1..])
  }

  /** Every sequence of accesses behaves as on one flat register file, whatever the
      remap register held at the start and however the link changes in between. */
  lemma {:induction false} RefinesFlatFile(d: Dev, ops: seq<Op>)
    requires forall i :: 0 <= i < |ops| && !ops[i].LinkOp? ==> Addressable(d.windowed, ops[i].offset)
    ensures Outcomes(d, ops) == FlatOutcomes(Flat(d.file), LinkOf(d), ops)
    decreases |ops|
  {
    if ops == [] {
    } else {
      match ops[0]
      case ReadOp(o, irq) =>
        ReadRefines(d, o, irq);
        RefinesFlatFile(RegRead(d, o, irq).0, ops[1..]);
      case WriteOp(o, v, irq) =>
        WriteRefines(d, o, v, irq);
        RefinesFlatFile(RegWrite(d, o, v, irq).0, ops[1..]);
      case LinkOp(l) =>
        RefinesFlatFile(d.(alive := l.alive, linkUp := l.up, downInd := l.downInd), ops[1..]);
    }
  }

  /** On a windowed device a write reaches its own register exactly if the offset
      fits in the 25 bits decoded.  0x1F807040, named WLAON_INTR_ENABLE, does not. */
  lemma {:induction false} ReachesIff(offset: nat)
    requires offset != REMAP_BAR_CTRL
    ensures offset < WINDOW_LIMIT <==>
            forall d: Dev, val: nat :: Healthy(d) && d.windowed ==>
              Flat(RegWrite(d, offset, val, false).0.file) == Flat(d.file)[offset := val]
    ensures 0x1F807040 >= WINDOW_LIMIT
  {
    if offset < WINDOW_LIMIT {
      forall d: Dev, val: nat | Healthy(d) && d.windowed
        ensures Flat(RegWrite(d, offset, val, false).0.file) == Flat(d.file)[offset := val]
      {
        WriteRefines(d, offset, val, false);
      }
    } else {
      var d := Dev(true, map[], true, true, false, 0);
      SelectDecodes(d, offset);
      var file := RegWrite(d, offset, 1, false).0.file;
      assert offset !in Flat(file);
      assert Flat(file) != Flat(d.file)[offset := 1];
    }
  }

  /** The remap register itself is no such register: an access elsewhere
      overwrites it. */
  lemma {:induction false} RemapOverwritten(d: Dev, offset: nat)
    requires Healthy(d) && d.windowed && MAX_UNWINDOWED <= offset < WINDOW_LIMIT
    ensures var e := RegRead(d, offset, false).0;
            && RegRead(e, REMAP_BAR_CTRL, false).2 == WINDOW_ENABLE_BIT + WindowOf(offset)
            && e.remapWindow == WindowOf(offset)
  {
    SelectDecodes(d, offset);
  }
}
