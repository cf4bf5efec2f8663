/**
 Open-loop CPR setup: the firmware's PMU pins are mapped to platform regulators,
 the voltages asked of each regulator are aggregated in a table of 16 slots, and
 one wake and one sleep message per slot go to the always-on processor.
 */
module OlCprSpec {
  import opened Common

  const MAX_PARAMS: nat := 16
  const NAME_SIZE: nat := 32
  const VOLTAGE_STEP: nat := 4
  const AUTO_HEADROOM: nat := 16
  const IR_DROP_WAKE: nat := 30
  const IR_DROP_SLEEP: nat := 10

  datatype Param = Param(pin: string, wakeValid: bool, wake: nat, sleepValid: bool, sleep: nat)

  datatype Slot = Slot(vreg: string, wake: nat, sleep: nat)

  /** The slots and the highest index used. */
  datatype Table = Table(slots: seq<Slot>, top: nat)

  datatype TcsSeq = Up | Down

  datatype Msg = Msg(vreg: string, sequence: TcsSeq, val: nat)

  /** What one parameter asks of the regulator its pin is mapped to. */
  datatype Request = Request(vreg: string, wake: nat, sleep: nat)

  predicate OccursAt(text: string, part: string, k: nat) {
    k + |part| <= |text| && text[k..k + |part|] == part
  }

  predicate Contains(text: string, part: string) {
    exists k: nat | k <= |text| :: OccursAt(text, part, k)
  }

  /** 32-bit unsigned arithmetic throughout. */
  function RoundUp4(x: nat): nat { (x + (VOLTAGE_STEP - 1)) % U32 / VOLTAGE_STEP * VOLTAGE_STEP }

  function WakeLevel(volt: nat): nat {
    ((RoundUp4(volt) - AUTO_HEADROOM) % U32 + IR_DROP_WAKE) % U32
  }

  function SleepLevel(volt: nat): nat {
    ((RoundUp4(volt) - AUTO_HEADROOM) % U32 + IR_DROP_SLEEP) % U32
  }

  /** The first map entry, from the j-th on, whose pin name contains `pin`. */
  function Mapped(vregMap: seq<(string, string)>, pin: string, j: nat): Option<string>
    requires j <= |vregMap|
    decreases |vregMap| - j
  {
    if j == |vregMap| then None
    else if Contains(vregMap[j].0, pin) then Some(vregMap[j].1)
    else Mapped(vregMap, pin, j + 1)
  }

  function RequestOf(vregMap: seq<(string, string)>, p: Param): Option<Request> {
    if !p.wakeValid && !p.sleepValid then None
    else match Mapped(vregMap, p.pin, 0)
         case None => None
         case Some(vreg) => Some(Request(vreg, if p.wakeValid then WakeLevel(p.wake) else 0,
                                         if p.sleepValid then SleepLevel(p.sleep) else 0))
  }

  function Requests(vregMap: seq<(string, string)>, params: seq<Param>): seq<Request> {
    if params == [] then []
    else
      var m := |params| - 1;
      var r := RequestOf(vregMap, params[m]);
      Requests(vregMap, params[..m]) + if r.Some? then [r.value] else []
  }

  predicate Takes(slot: Slot, vreg: string) {
    slot.vreg == "" || Contains(slot.vreg, vreg)
  }

  /** The first slot, from the j-th on, that is free or whose name contains `vreg`. */
  function Find(slots: seq<Slot>, vreg: string, j: nat): (k: nat)
    requires j <= |slots|
    ensures j <= k <= |slots| && (k < |slots| ==> Takes(slots[k], vreg))
    ensures forall i :: j <= i < k ==> !Takes(slots[i], vreg)
    decreases |slots| - j
  {
    if j == |slots| || Takes(slots[j], vreg) then j else Find(slots, vreg, j + 1)
  }

  function Cut(name: string): string { if |name| < NAME_SIZE then name else name[..NAME_SIZE - 1] }

  function Merge(slot: Slot, r: Request): Slot {
    Slot(if slot.vreg == "" then Cut(r.vreg) else slot.vreg, Max(r.wake, slot.wake), Max(r.sleep, slot.sleep))
  }

  /** A request that finds no slot is dropped. */
  function Place(t: Table, r: Request): Table {
    var j := Find(t.slots, r.vreg, 0);
    if j == |t.slots| then t
    else Table(t.slots[j := Merge(t.slots[j], r)], if t.top > j then t.top else j)
  }

  function EmptySlots(): seq<Slot> { seq(MAX_PARAMS, _ => Slot("", 0, 0)) }

  function PlaceAll(rs: seq<Request>): (t: Table)
    ensures |t.slots| == MAX_PARAMS && t.top < MAX_PARAMS
  {
    if rs == [] then Table(EmptySlots(), 0)
    else Place(PlaceAll(rs[..|rs| - 1]), rs[|rs| - 1])
  }

  /** The table after the first i parameters. */
  function TableAfter(vregMap: seq<(string, string)>, params: seq<Param>, i: nat): Table
    requires i <= |params|
  {
    PlaceAll(Requests(vregMap, params[..i]))
  }

  function PlaceParam(vregMap: seq<(string, string)>, t: Table, p: Param): Table {
    var r := RequestOf(vregMap, p);
    if r.None? then t else Place(t, r.value)
  }

  lemma {:induction false} TableNext(vregMap: seq<(string, string)>, params: seq<Param>, i: nat)
    requires i < |params|
    ensures TableAfter(vregMap, params, i + 1) == PlaceParam(vregMap, TableAfter(vregMap, params, i), params[i])
  {
    assert params[..i + 1][..i] == params[..i];
    var rs, r := Requests(vregMap, params[..i]), RequestOf(vregMap, params[i]);
    if r.Some? {
      assert (rs + [r.value])[..|rs|] == rs;
    } else {
      assert rs + [] == rs;
    }
  }

  /** The messages of one slot, and the answer to the last one: `ret` if none. */
  function SendSlot(slot: Slot, sent: seq<Msg>, ret: int, answer: nat -> int): (seq<Msg>, int) {
    var (s1, r1) := if slot.wake > 0 then (sent + [Msg(slot.vreg, Up, slot.wake)], answer(|sent|)) else (sent, ret);
    if slot.sleep > 0 then (s1 + [Msg(slot.vreg, Down, slot.sleep)], answer(|s1|)) else (s1, r1)
  }

  /** Sends the slots from the i-th to the top one; stops after a slot whose last
      answer is an error. */
  function SendFrom(t: Table, i: nat, sent: seq<Msg>, ret: int, answer: nat -> int): (seq<Msg>, int)
    requires t.top < |t.slots|
    decreases t.top + 1 - i
  {
    if i > t.top then (sent, ret)
    else
      var (s, r) := SendSlot(t.slots[i], sent, ret, answer);
      if r < 0 then (s, r) else SendFrom(t, i + 1, s, r, answer)
  }

  datatype SetupState = SetupState(done: bool, sent: seq<Msg>)

  function RunSetup(vregMap: seq<(string, string)>, mbox: bool, s: SetupState, cfg: Option<seq<Param>>,
                    answer: nat -> int): (SetupState, int)
  {
    if s.done then (s, 0)
    else if vregMap == [] || !mbox then (s.(done := true), 0)
    else match cfg
         case None => (s, -EINVAL)
         case Some(params) =>
           var (sent, ret) := SendFrom(PlaceAll(Requests(vregMap, params)), 0, s.sent, 0, answer);
           (SetupState(true, sent), ret)
  }
}

module OlCprDriver {
  import opened Common
  import opened OlCprSpec

  class PlatVregs {
    const vregMap: seq<(string, string)>
    const mboxChan: bool
    var configDone: bool
    var sent: seq<Msg>

    /** The mailbox: takes the message and answers. */
    method SetVregParam(vreg: string, sequence: TcsSeq, val: nat, answer: nat -> int) returns (ret: int)
      modifies this`sent
      ensures sent == old(sent) + [Msg(vreg, sequence, val)] && ret == answer(|old(sent)|)
    {
      ret := answer(|sent|);
      sent := sent + [Msg(vreg, sequence, val)];
    }

    method FindVreg(pin: string) returns (vreg: Option<string>)
      ensures vreg == Mapped(vregMap, pin, 0)
    {
      var j := 0;
      while j < |vregMap|
        invariant j <= |vregMap| && Mapped(vregMap, pin, 0) == Mapped(vregMap, pin, j)
      {
        if Contains(vregMap[j].0, pin) { return Some(vregMap[j].1); }
        j := j + 1;
      }
      return None;
    }

    /** The inner loop over the slots. */
    method Aggregate(slots: array<Slot>, top: nat, vreg: string, p: Param) returns (top': nat)
      modifies slots
      ensures Table(slots[..], top') == Place(Table(old(slots[..]), top),
                Request(vreg, if p.wakeValid then WakeLevel(p.wake) else 0,
                        if p.sleepValid then SleepLevel(p.sleep) else 0))
    {
      top' := top;
      var j := 0;
      while j < slots.Length
        invariant j <= slots.Length && slots[..] == old(slots[..])
        invariant Find(slots[..], vreg, 0) == Find(slots[..], vreg, j)
      {
        var wake, sleep := 0, 0;
        var name := slots[j].vreg;
        if name == "" {
          name := Cut(vreg);
        } else if !Contains(name, vreg) {
          j := j + 1;
          continue;
        }
        if p.wakeValid { wake := WakeLevel(p.wake); }
        if p.sleepValid { sleep := SleepLevel(p.sleep); }
        slots[j] := Slot(name, if wake > slots[j].wake then wake else slots[j].wake,
                         if sleep > slots[j].sleep then sleep else slots[j].sleep);
        top' := if top > j then top else j;
        return;
      }
    }

    /** The loop over the parameters. */
    method Collect(params: seq<Param>) returns (slots: array<Slot>, top: nat)
      ensures fresh(slots) && slots.Length == MAX_PARAMS
      ensures Table(slots[..], top) == PlaceAll(Requests(vregMap, params))
    {
      slots := new Slot[MAX_PARAMS](_ => Slot("", 0, 0));
      top := 0;
      var i := 0;
      assert slots[..] == EmptySlots();
      while i < |params|
        invariant i <= |params| && fresh(slots) && slots.Length == MAX_PARAMS
        invariant Table(slots[..], top) == TableAfter(vregMap, params, i)
      {
        TableNext(vregMap, params, i);
        if params[i].wakeValid || params[i].sleepValid {
          var vreg := FindVreg(params[i].pin);
          if vreg.Some? { top := Aggregate(slots, top, vreg.value, params[i]); }
        }
        i := i + 1;
      }
      assert params[..i] == params;
    }

    /** The loop over the slots. */
    method Send(slots: array<Slot>, top: nat, answer: nat -> int) returns (ret: int)
      requires top < slots.Length
      modifies this`sent
      ensures (sent, ret) == SendFrom(Table(slots[..], top), 0, old(sent), 0, answer)
    {
      ghost var t := Table(slots[..], top);
      var i := 0;
      ret := 0;
      while i <= top
        invariant slots[..] == t.slots && i <= top + 1
        invariant SendFrom(t, i, sent, ret, answer) == SendFrom(t, 0, old(sent), 0, answer)
      {
        assert slots[i] == t.slots[i];
        if slots[i].wake > 0 { ret := SetVregParam(slots[i].vreg, Up, slots[i].wake, answer); }
        if slots[i].sleep > 0 { ret := SetVregParam(slots[i].vreg, Down, slots[i].sleep, answer); }
        if ret < 0 { return; }
        i := i + 1;
      }
    }

    method Setup(cfg: Option<seq<Param>>, answer: nat -> int) returns (ret: int)
      modifies this
      ensures (SetupState(configDone, sent), ret)
           == RunSetup(vregMap, mboxChan, old(SetupState(configDone, sent)), cfg, answer)
    {
      if configDone { return 0; }
      if |vregMap| == 0 || !mboxChan {
        configDone := true;
        return 0;
      }
      if cfg.None? { return -EINVAL; }
      var slots, top := Collect(cfg.value);
      ret := Send(slots, top, answer);
      configDone := true;
    }
  }
}

module OlCprProofs {
  import opened Common
  import opened OlCprSpec
  import opened Slices

  function Ceil4(volt: nat): nat { (volt + 3) / 4 * 4 }

  lemma {:induction false} RoundUp4Is(volt: nat)
    requires volt < U32
    ensures RoundUp4(volt) == if volt <= U32 - 4 then Ceil4(volt) else 0
  {
  }

  /** The wake level is the voltage rounded up to 4 plus 14, exactly up to the last
      voltage for which that fits in 32 bits. */
  lemma {:induction false} WakeLevelIff(volt: nat)
    requires volt < U32
    ensures WakeLevel(volt) == Ceil4(volt) + 14 <==> volt <= U32 - 16
  {
    RoundUp4Is(volt);
    var q := (volt + 3) / 4;
    assert volt <= U32 - 16 <==> q <= U32 / 4 - 4;
  }

  /** The sleep level is the voltage rounded up to 4 minus 6, exactly from 5 on:
      below, it wraps to about four billion and wins every maximum. */
  lemma {:induction false} SleepLevelIff(volt: nat)
    requires volt < U32
    ensures SleepLevel(volt) == Ceil4(volt) - 6 <==> 5 <= volt
    ensures volt < 5 ==> SleepLevel(volt) >= U32 - 6
  {
    RoundUp4Is(volt);
    var q := (volt + 3) / 4;
    assert volt >= 5 <==> q >= 2;
  }

  // ---------------------------------------------------------- aggregation

  function MaxWake(rs: seq<Request>, vreg: string): nat {
    if rs == [] then 0
    else
      var m := |rs| - 1;
      Max(if rs[m].vreg == vreg then rs[m].wake else 0, MaxWake(rs[..m], vreg))
  }

  function MaxSleep(rs: seq<Request>, vreg: string): nat {
    if rs == [] then 0
    else
      var m := |rs| - 1;
      Max(if rs[m].vreg == vreg then rs[m].sleep else 0, MaxSleep(rs[..m], vreg))
  }

  predicate NamesFit(rs: seq<Request>) {
    |rs| <= MAX_PARAMS && forall i :: 0 <= i < |rs| ==> 0 < |rs[i].vreg| < NAME_SIZE
  }

  predicate Names(rs: seq<Request>, vreg: string) {
    exists i :: 0 <= i < |rs| && rs[i].vreg == vreg
  }

  /** The j-th request is the first for its regulator, and the name of a regulator
      asked for earlier contains its name. */
  predicate Shadowed(rs: seq<Request>, i: nat, j: nat) {
    i < j < |rs| && rs[i].vreg != rs[j].vreg && Contains(rs[i].vreg, rs[j].vreg) && !Names(rs[..j], rs[j].vreg)
  }

  ghost predicate NoShadow(rs: seq<Request>) {
    forall i: nat, j: nat :: !Shadowed(rs, i, j)
  }

  /** n slots are in use, from the first on; none contains the name of a later one. */
  predicate Filled(t: Table, n: nat) {
    && n <= |t.slots| == MAX_PARAMS && t.top == (if n == 0 then 0 else n - 1)
    && (forall i :: 0 <= i < n ==> t.slots[i].vreg != "")
    && (forall i :: n <= i < MAX_PARAMS ==> t.slots[i] == Slot("", 0, 0))
    && (forall i, k :: 0 <= i < k < n ==> !Contains(t.slots[i].vreg, t.slots[k].vreg))
  }

  predicate HasSlot(t: Table, vreg: string) {
    exists i :: 0 <= i < |t.slots| && t.slots[i].vreg == vreg
  }

  predicate Covers(t: Table, vreg: string) {
    exists i :: 0 <= i < |t.slots| && Contains(t.slots[i].vreg, vreg)
  }

  lemma {:induction false} ContainsSelf(s: string)
    ensures Contains(s, s)
  {
    assert OccursAt(s, s, 0);
  }

  lemma {:induction false} ContainsTransitive(a: string, b: string, c: string)
    requires Contains(a, b) && Contains(b, c)
    ensures Contains(a, c)
  {
    var k: nat :| k <= |a| && OccursAt(a, b, k);
    var l: nat :| l <= |b| && OccursAt(b, c, l);
    SliceOfSlice(a, k, |b|, l, |c|);
    assert OccursAt(a, c, k + l);
  }

  lemma {:induction false} EmptyContainsNothing(s: string)
    requires s != ""
    ensures !Contains("", s)
  {
  }

  lemma {:induction false} PlaceFilled(t: Table, n: nat, r: Request)
    requires Filled(t, n) && n < MAX_PARAMS && 0 < |r.vreg| < NAME_SIZE
    ensures var j := Find(t.slots, r.vreg, 0);
            && j <= n && Filled(Place(t, r), if j == n then n + 1 else n)
            && (forall i :: 0 <= i < MAX_PARAMS && i != j ==> Place(t, r).slots[i] == t.slots[i])
            && Place(t, r).slots[j].vreg == (if j == n then r.vreg else t.slots[j].vreg)
  {
    var j := Find(t.slots, r.vreg, 0);
    assert Takes(t.slots[n], r.vreg);
  }

  lemma {:induction false} TableFilled(rs: seq<Request>) returns (n: nat)
    requires NamesFit(rs)
    ensures n <= |rs| && Filled(PlaceAll(rs), n)
  {
    if rs == [] {
      n := 0;
    } else {
      var m := |rs| - 1;
      n := TableFilled(rs[..m]);
      PlaceFilled(PlaceAll(rs[..m]), n, rs[m]);
      n := if Find(PlaceAll(rs[..m]).slots, rs[m].vreg, 0) == n then n + 1 else n;
    }
  }

  lemma {:induction false} MaxOfAbsent(rs: seq<Request>, vreg: string)
    requires !Names(rs, vreg)
    ensures MaxWake(rs, vreg) == 0 && MaxSleep(rs, vreg) == 0
  {
    if rs == [] {
    } else {
      var m := |rs| - 1;
      assert rs[m].vreg != vreg;
      forall i | 0 <= i < m ensures rs[..m][i].vreg != vreg { assert rs[i].vreg != vreg; }
      MaxOfAbsent(rs[..m], vreg);
    }
  }

  /** The table holds the maxima of the requests. */
  predicate Holds(t: Table, rs: seq<Request>) {
    && (forall i :: 0 <= i < |rs| ==> HasSlot(t, rs[i].vreg))
    && (forall i :: 0 <= i < |t.slots| && t.slots[i].vreg != "" ==>
          && Names(rs, t.slots[i].vreg)
          && t.slots[i].wake == MaxWake(rs, t.slots[i].vreg) && t.slots[i].sleep == MaxSleep(rs, t.slots[i].vreg))
  }

  lemma {:induction false} NamesNext(rs: seq<Request>, vreg: string)
    requires rs != []
    ensures Names(rs, vreg) <==> Names(rs[..|rs| - 1], vreg) || rs[|rs| - 1].vreg == vreg
  {
    var m := |rs| - 1;
    if Names(rs[..m], vreg) {
      var i :| 0 <= i < m && rs[..m][i].vreg == vreg;
      assert rs[i].vreg == vreg;
    }
    if Names(rs, vreg) && rs[m].vreg != vreg {
      var i :| 0 <= i < |rs| && rs[i].vreg == vreg;
      assert rs[..m][i].vreg == vreg;
    }
  }

  lemma {:induction false} NoShadowNext(rs: seq<Request>)
    requires rs != [] && NoShadow(rs)
    ensures NoShadow(rs[..|rs| - 1])
  {
    var p := rs[..|rs| - 1];
    forall i: nat, j: nat ensures !Shadowed(p, i, j) {
      if j < |p| { assert p[..j] == rs[..j]; }
      assert !Shadowed(rs, i, j);
    }
  }

  /** Where a request goes: to the slot of its regulator, or to the first free one. */
  lemma {:induction false} PlaceTarget(t: Table, n: nat, rs: seq<Request>)
    requires rs != [] && NamesFit(rs) && NoShadow(rs) && Filled(t, n) && n < MAX_PARAMS && Holds(t, rs[..|rs| - 1])
    ensures var m := |rs| - 1;
            var j := Find(t.slots, rs[m].vreg, 0);
            && j <= n
            && (j < n ==> t.slots[j].vreg == rs[m].vreg)
            && (j == n ==> !Names(rs[..m], rs[m].vreg))
  {
    var m := |rs| - 1;
    var v := rs[m].vreg;
    var j := Find(t.slots, v, 0);
    assert Takes(t.slots[n], v);
    if Names(rs[..m], v) {
      var i :| 0 <= i < m && rs[..m][i].vreg == v;
      var k :| 0 <= k < |t.slots| && t.slots[k].vreg == v;
      ContainsSelf(v);
      assert Takes(t.slots[k], v);
      assert k < n;
    } else if j < n {
      var i :| 0 <= i < m && rs[..m][i].vreg == t.slots[j].vreg;
      assert rs[i] == rs[..m][i];
      if rs[i].vreg != v { assert Shadowed(rs, i, m); }
    }
  }

  lemma {:induction false} PlaceHolds(t: Table, n: nat, rs: seq<Request>)
    requires rs != [] && NamesFit(rs) && NoShadow(rs) && Filled(t, n) && n < MAX_PARAMS && Holds(t, rs[..|rs| - 1])
    ensures Holds(Place(t, rs[|rs| - 1]), rs)
  {
    hide Find, Names, Contains, Cut, Shadowed;
    var m := |rs| - 1;
    var p, r := rs[..m], rs[m];
    var j, t' := Find(t.slots, r.vreg, 0), Place(t, r);
    PlaceTarget(t, n, rs);
    PlaceFilled(t, n, r);
    assert t'.slots[j].vreg == r.vreg;
    if j == n { MaxOfAbsent(p, r.vreg); }
    forall i | 0 <= i < |rs| ensures HasSlot(t', rs[i].vreg) {
      if i < m {
        assert p[i] == rs[i];
        var k :| 0 <= k < |t.slots| && t.slots[k].vreg == p[i].vreg;
        assert t'.slots[k].vreg == rs[i].vreg;
      }
    }
    forall i | 0 <= i < |t'.slots| && t'.slots[i].vreg != ""
      ensures Names(rs, t'.slots[i].vreg)
      ensures t'.slots[i].wake == MaxWake(rs, t'.slots[i].vreg) && t'.slots[i].sleep == MaxSleep(rs, t'.slots[i].vreg)
    {
      NamesNext(rs, t'.slots[i].vreg);
      if i != j {
        assert t'.slots[i] == t.slots[i];
        ContainsSelf(r.vreg);
      }
    }
  }

  /** Each regulator asked for has one slot, holding its maxima; the slots are
      filled from the first on. */
  lemma {:induction false} TableHolds(rs: seq<Request>)
    requires NamesFit(rs) && NoShadow(rs)
    ensures Holds(PlaceAll(rs), rs)
  {
    if rs == [] {
    } else {
      var m := |rs| - 1;
      NoShadowNext(rs);
      TableHolds(rs[..m]);
      var n := TableFilled(rs[..m]);
      PlaceHolds(PlaceAll(rs[..m]), n, rs);
    }
  }

  // ------------------------------------ when a regulator gets no slot of its own

  /** No slot bears the name, but one contains it. */
  predicate Lost(t: Table, vreg: string) {
    Covers(t, vreg) && !HasSlot(t, vreg)
  }

  lemma {:induction false} PlaceCovers(t: Table, n: nat, r: Request, vreg: string)
    requires Filled(t, n) && n < MAX_PARAMS && 0 < |r.vreg| < NAME_SIZE
    requires vreg != "" && (Covers(t, vreg) || Contains(r.vreg, vreg))
    ensures Covers(Place(t, r), vreg)
  {
    var j, t' := Find(t.slots, r.vreg, 0), Place(t, r);
    PlaceFilled(t, n, r);
    if Covers(t, vreg) {
      var i :| 0 <= i < |t.slots| && Contains(t.slots[i].vreg, vreg);
      EmptyContainsNothing(vreg);
      assert Contains(t'.slots[i].vreg, vreg);
    } else {
      if j == n { ContainsSelf(r.vreg); }
      ContainsTransitive(t'.slots[j].vreg, r.vreg, vreg);
    }
  }

  lemma {:induction false} PlaceKeepsLost(t: Table, n: nat, r: Request, vreg: string)
    requires Filled(t, n) && n < MAX_PARAMS && 0 < |r.vreg| < NAME_SIZE && vreg != "" && Lost(t, vreg)
    ensures Lost(Place(t, r), vreg)
  {
    var j := Find(t.slots, r.vreg, 0);
    PlaceFilled(t, n, r);
    PlaceCovers(t, n, r, vreg);
    var i :| 0 <= i < |t.slots| && Contains(t.slots[i].vreg, vreg);
    EmptyContainsNothing(vreg);
    assert i < n;
    assert Takes(t.slots[i], vreg);
    if r.vreg == vreg { assert j <= i; }
  }

  lemma {:induction false} AllCovered(rs: seq<Request>, k: nat)
    requires NamesFit(rs) && k < |rs|
    ensures Covers(PlaceAll(rs), rs[k].vreg)
  {
    var m := |rs| - 1;
    var n := TableFilled(rs[..m]);
    if k < m { AllCovered(rs[..m], k); } else { ContainsSelf(rs[k].vreg); }
    PlaceCovers(PlaceAll(rs[..m]), n, rs[m], rs[k].vreg);
  }

  /** Slots bear the names of requests. */
  lemma {:induction false} SlotsAreNamed(rs: seq<Request>, vreg: string)
    requires NamesFit(rs) && vreg != "" && HasSlot(PlaceAll(rs), vreg)
    ensures Names(rs, vreg)
  {
    if rs == [] {
    } else {
      var m := |rs| - 1;
      var n := TableFilled(rs[..m]);
      var t := PlaceAll(rs[..m]);
      PlaceFilled(t, n, rs[m]);
      NamesNext(rs, vreg);
      var i :| 0 <= i < MAX_PARAMS && Place(t, rs[m]).slots[i].vreg == vreg;
      if vreg != rs[m].vreg {
        assert t.slots[i].vreg == vreg;
        SlotsAreNamed(rs[..m], vreg);
      }
    }
  }

  lemma {:induction false} LostOnceShadowed(p: seq<Request>, i: nat, vreg: string)
    requires NamesFit(p) && i < |p| && vreg != "" && Contains(p[i].vreg, vreg) && !Names(p, vreg)
    ensures Lost(PlaceAll(p), vreg)
  {
    var t := PlaceAll(p);
    AllCovered(p, i);
    var k :| 0 <= k < |t.slots| && Contains(t.slots[k].vreg, p[i].vreg);
    ContainsTransitive(t.slots[k].vreg, p[i].vreg, vreg);
    if HasSlot(t, vreg) { SlotsAreNamed(p, vreg); }
  }

  lemma {:induction false} StaysLost(rs: seq<Request>, vreg: string)
    requires NamesFit(rs) && rs != [] && vreg != "" && Lost(PlaceAll(rs[..|rs| - 1]), vreg)
    ensures Lost(PlaceAll(rs), vreg)
  {
    var p := rs[..|rs| - 1];
    var n := TableFilled(p);
    PlaceKeepsLost(PlaceAll(p), n, rs[|rs| - 1], vreg);
  }

  lemma {:induction false} ShadowedIsLost(rs: seq<Request>, i: nat, j: nat)
    requires NamesFit(rs) && Shadowed(rs, i, j)
    ensures Lost(PlaceAll(rs), rs[j].vreg)
    decreases |rs|
  {
    var m, v := |rs| - 1, rs[j].vreg;
    var p := rs[..m];
    if j < m {
      assert p[..j] == rs[..j];
      ShadowedIsLost(p, i, j);
    } else {
      LostOnceShadowed(p, i, v);
    }
    StaysLost(rs, v);
  }

  /** Every regulator asked for gets a slot of its own exactly if no name contains
      the name of a regulator first asked for later. */
  lemma {:induction false} OwnSlotsIff(rs: seq<Request>)
    requires NamesFit(rs)
    ensures NoShadow(rs) <==> forall k :: 0 <= k < |rs| ==> HasSlot(PlaceAll(rs), rs[k].vreg)
  {
    if NoShadow(rs) {
      TableHolds(rs);
    } else {
      var i: nat, j: nat :| Shadowed(rs, i, j);
      ShadowedIsLost(rs, i, j);
    }
  }

  // ------------------------------------------------------------- messages

  function SlotMsgs(slot: Slot): seq<Msg> {
    (if slot.wake > 0 then [Msg(slot.vreg, Up, slot.wake)] else []) +
    (if slot.sleep > 0 then [Msg(slot.vreg, Down, slot.sleep)] else [])
  }

  function MsgsFrom(slots: seq<Slot>, i: nat): seq<Msg>
    decreases |slots| - i
  {
    if i >= |slots| then [] else SlotMsgs(slots[i]) + MsgsFrom(slots, i + 1)
  }

  /** The values asked of a regulator. */
  function Values(msgs: seq<Msg>, vreg: string, sequence: TcsSeq): seq<nat> {
    if msgs == [] then []
    else (if msgs[0].vreg == vreg && msgs[0].sequence == sequence then [msgs[0].val] else []) +
         Values(msgs[1..], vreg, sequence)
  }

  function Once(val: nat): seq<nat> { if val > 0 then [val] else [] }

  lemma {:induction false} ValuesAppend(a: seq<Msg>, b: seq<Msg>, vreg: string, q: TcsSeq)
    ensures Values(a + b, vreg, q) == Values(a, vreg, q) + Values(b, vreg, q)
  {
    if a == [] {
      assert a + b == b;
    } else {
      assert (a + b)[1..] == a[1..] + b;
      ValuesAppend(a[1..], b, vreg, q);
    }
  }

  /** The maximum asked of a regulator, for either sequence. */
  function Best(rs: seq<Request>, vreg: string, q: TcsSeq): nat {
    if q.Up? then MaxWake(rs, vreg) else MaxSleep(rs, vreg)
  }

  lemma {:induction false} SlotValues(slot: Slot, vreg: string, q: TcsSeq)
    ensures Values(SlotMsgs(slot), vreg, q)
         == if slot.vreg == vreg then Once(if q.Up? then slot.wake else slot.sleep) else []
  {
    var up: seq<Msg> := if slot.wake > 0 then [Msg(slot.vreg, Up, slot.wake)] else [];
    var down: seq<Msg> := if slot.sleep > 0 then [Msg(slot.vreg, Down, slot.sleep)] else [];
    ValuesAppend(up, down, vreg, q);
  }

  predicate AnyFrom(slots: seq<Slot>, i: nat, vreg: string) {
    exists k :: i <= k < |slots| && slots[k].vreg == vreg
  }

  lemma {:induction false} OnlySlot(t: Table, n: nat, i: nat, vreg: string)
    requires Filled(t, n) && i < |t.slots| && vreg != "" && t.slots[i].vreg == vreg
    ensures !AnyFrom(t.slots, i + 1, vreg)
  {
    ContainsSelf(vreg);
  }

  lemma {:induction false} TableValues(rs: seq<Request>, t: Table, n: nat, i: nat, vreg: string, q: TcsSeq)
    requires vreg != "" && Filled(t, n) && Holds(t, rs)
    ensures Values(MsgsFrom(t.slots, i), vreg, q) == if AnyFrom(t.slots, i, vreg) then Once(Best(rs, vreg, q)) else []
    decreases MAX_PARAMS - i
  {
    if i < |t.slots| {
      TableValues(rs, t, n, i + 1, vreg, q);
      ValuesAppend(SlotMsgs(t.slots[i]), MsgsFrom(t.slots, i + 1), vreg, q);
      SlotValues(t.slots[i], vreg, q);
      if t.slots[i].vreg == vreg { OnlySlot(t, n, i, vreg); }
    }
  }

  lemma {:induction false} NoMsgsBeyond(t: Table, n: nat, i: nat)
    requires Filled(t, n) && i > t.top
    ensures MsgsFrom(t.slots, i) == []
    decreases MAX_PARAMS - i
  {
    if i < |t.slots| { NoMsgsBeyond(t, n, i + 1); }
  }

  /** How many messages the first i slots make. */
  function Count(slots: seq<Slot>, i: nat): nat
    requires i <= |slots|
  {
    if i == 0 then 0 else Count(slots, i - 1) + |SlotMsgs(slots[i - 1])|
  }

  /** The last message of slot k is accepted. */
  predicate LastAccepted(slots: seq<Slot>, k: nat, base: nat, answer: nat -> int)
    requires k < |slots|
  {
    |SlotMsgs(slots[k])| > 0 ==> answer(base + Count(slots, k + 1) - 1) >= 0
  }

  lemma {:induction false} SendSlotMsgs(slot: Slot, sent: seq<Msg>, ret: int, answer: nat -> int)
    ensures SendSlot(slot, sent, ret, answer).0 == sent + SlotMsgs(slot)
    ensures SendSlot(slot, sent, ret, answer).1
         == if |SlotMsgs(slot)| == 0 then ret else answer(|sent| + |SlotMsgs(slot)| - 1)
  {
  }

  /** What a sent slot adds. */
  lemma {:induction false} SendNext(t: Table, i: nat, sent: seq<Msg>, ret: int, base: nat, answer: nat -> int)
    requires i < |t.slots| && ret >= 0 && |sent| == base + Count(t.slots, i)
    ensures var (s, r) := SendSlot(t.slots[i], sent, ret, answer);
            && |s| == base + Count(t.slots, i + 1)
            && (r >= 0 <==> LastAccepted(t.slots, i, base, answer))
            && s + MsgsFrom(t.slots, i + 1) == sent + MsgsFrom(t.slots, i)
  {
    SendSlotMsgs(t.slots[i], sent, ret, answer);
    var (s, r) := SendSlot(t.slots[i], sent, ret, answer);
    assert s + MsgsFrom(t.slots, i + 1) == sent + MsgsFrom(t.slots, i);
  }

  /** The messages sent are a prefix of those due; all of them, with success,
      exactly if the last message of every slot is accepted.  A refused wake
      message followed by an accepted sleep message goes unnoticed. */
  lemma {:induction false} SendIff(t: Table, n: nat, i: nat, sent: seq<Msg>, ret: int, base: nat, answer: nat -> int)
    requires Filled(t, n) && i <= t.top + 1 && ret >= 0 && |sent| == base + Count(t.slots, i)
    ensures var (s, r) := SendFrom(t, i, sent, ret, answer);
            && s <= sent + MsgsFrom(t.slots, i)
            && (r >= 0 <==> forall k :: i <= k <= t.top ==> LastAccepted(t.slots, k, base, answer))
            && (r >= 0 ==> s == sent + MsgsFrom(t.slots, i))
    decreases t.top + 1 - i
  {
    if i > t.top {
      NoMsgsBeyond(t, n, i);
    } else {
      SendNext(t, i, sent, ret, base, answer);
      var (s, r) := SendSlot(t.slots[i], sent, ret, answer);
      if r >= 0 { SendIff(t, n, i + 1, s, r, base, answer); }
    }
  }

  /** The messages due to a regulator. */
  lemma {:induction false} ValuesDue(rs: seq<Request>, t: Table, n: nat, vreg: string, q: TcsSeq)
    requires vreg != "" && Filled(t, n) && Holds(t, rs)
    ensures Values(MsgsFrom(t.slots, 0), vreg, q) == Once(Best(rs, vreg, q))
  {
    TableValues(rs, t, n, 0, vreg, q);
    if !Names(rs, vreg) {
      MaxOfAbsent(rs, vreg);
    } else {
      var i :| 0 <= i < |rs| && rs[i].vreg == vreg;
      assert HasSlot(t, rs[i].vreg);
    }
  }

  /** The messages due for the requests, and what a setup makes of them. */
  lemma {:induction false} RequestsServed(vregMap: seq<(string, string)>, sent: seq<Msg>, params: seq<Param>,
                                          answer: nat -> int)
    returns (msgs: seq<Msg>)
    requires vregMap != [] && NamesFit(Requests(vregMap, params)) && NoShadow(Requests(vregMap, params))
    ensures var rs := Requests(vregMap, params);
            && (forall v, q :: v != "" ==> Values(msgs, v, q) == Once(Best(rs, v, q)))
            && var (s, ret) := RunSetup(vregMap, true, SetupState(false, sent), Some(params), answer);
               s.done && s.sent <= sent + msgs && (ret >= 0 ==> s.sent == sent + msgs)
    ensures (forall k :: answer(k) >= 0) ==>
              RunSetup(vregMap, true, SetupState(false, sent), Some(params), answer).1 >= 0
  {
    var rs := Requests(vregMap, params);
    var t := PlaceAll(rs);
    var n := TableFilled(rs);
    TableHolds(rs);
    msgs := MsgsFrom(t.slots, 0);
    SendIff(t, n, 0, sent, 0, |sent|, answer);
    forall v, q | v != "" ensures Values(msgs, v, q) == Once(Best(rs, v, q)) {
      ValuesDue(rs, t, n, v, q);
    }
  }

  lemma {:induction false} RequestsAtMost(vregMap: seq<(string, string)>, params: seq<Param>)
    ensures |Requests(vregMap, params)| <= |params|
  {
    if params == [] {
    } else {
      RequestsAtMost(vregMap, params[..|params| - 1]);
    }
  }

  // ------------------------------------------------ from pins to regulators

  /** Entry j is the first of the map whose pin name contains `pin`. */
  ghost predicate FirstMatch(vregMap: seq<(string, string)>, pin: string, j: nat) {
    && j < |vregMap| && Contains(vregMap[j].0, pin)
    && forall i :: 0 <= i < j ==> !Contains(vregMap[i].0, pin)
  }

  /** The pin belongs to this regulator. */
  ghost predicate LeadsTo(vregMap: seq<(string, string)>, pin: string, vreg: string) {
    exists j: nat :: FirstMatch(vregMap, pin, j) && vregMap[j].1 == vreg
  }

  lemma {:induction false} MappedFrom(vregMap: seq<(string, string)>, pin: string, j: nat)
    requires j <= |vregMap| && forall i :: 0 <= i < j ==> !Contains(vregMap[i].0, pin)
    ensures match Mapped(vregMap, pin, j)
            case None => forall i :: 0 <= i < |vregMap| ==> !Contains(vregMap[i].0, pin)
            case Some(vreg) => LeadsTo(vregMap, pin, vreg)
    decreases |vregMap| - j
  {
    if j < |vregMap| {
      if Contains(vregMap[j].0, pin) {
        assert FirstMatch(vregMap, pin, j);
      } else {
        MappedFrom(vregMap, pin, j + 1);
      }
    }
  }

  /** A pin is mapped to the regulator of the first entry whose pin name contains it,
      and to none exactly if no entry's does. */
  lemma {:induction false} MappedIff(vregMap: seq<(string, string)>, pin: string)
    ensures forall vreg :: Mapped(vregMap, pin, 0) == Some(vreg) <==> LeadsTo(vregMap, pin, vreg)
    ensures Mapped(vregMap, pin, 0) == None <==> forall i :: 0 <= i < |vregMap| ==> !Contains(vregMap[i].0, pin)
  {
    hide Contains;
    MappedFrom(vregMap, pin, 0);
    forall v, w | LeadsTo(vregMap, pin, v) && LeadsTo(vregMap, pin, w) ensures v == w {
      var j: nat :| FirstMatch(vregMap, pin, j) && vregMap[j].1 == v;
      var k: nat :| FirstMatch(vregMap, pin, k) && vregMap[k].1 == w;
      assert j == k;
    }
  }

  /** The parameter has a voltage for the sequence, and its pin belongs to the regulator. */
  ghost predicate Asks(vregMap: seq<(string, string)>, p: Param, vreg: string, q: TcsSeq) {
    (if q.Up? then p.wakeValid else p.sleepValid) && LeadsTo(vregMap, p.pin, vreg)
  }

  function LevelOf(p: Param, q: TcsSeq): nat {
    if q.Up? then WakeLevel(p.wake) else SleepLevel(p.sleep)
  }

  ghost predicate Uses(vregMap: seq<(string, string)>, p: Param, vreg: string) {
    (p.wakeValid || p.sleepValid) && LeadsTo(vregMap, p.pin, vreg)
  }

  lemma {:induction false} RequestOfIs(vregMap: seq<(string, string)>, p: Param)
    ensures forall vreg :: Uses(vregMap, p, vreg) <==>
              RequestOf(vregMap, p).Some? && RequestOf(vregMap, p).value.vreg == vreg
    ensures RequestOf(vregMap, p).Some? ==>
              var r := RequestOf(vregMap, p).value;
              && (Asks(vregMap, p, r.vreg, Up) ==> r.wake == LevelOf(p, Up))
              && (!Asks(vregMap, p, r.vreg, Up) ==> r.wake == 0)
              && (Asks(vregMap, p, r.vreg, Down) ==> r.sleep == LevelOf(p, Down))
              && (!Asks(vregMap, p, r.vreg, Down) ==> r.sleep == 0)
  {
    hide LeadsTo, Mapped, WakeLevel, SleepLevel;
    MappedIff(vregMap, p.pin);
  }

  /** The most that any parameter asks of a regulator, 0 if none does. */
  ghost predicate IsMaximum(vregMap: seq<(string, string)>, params: seq<Param>, vreg: string, q: TcsSeq, max: nat) {
    && (forall k :: 0 <= k < |params| && Asks(vregMap, params[k], vreg, q) ==> LevelOf(params[k], q) <= max)
    && (max == 0 || exists k :: 0 <= k < |params| && Asks(vregMap, params[k], vreg, q) && LevelOf(params[k], q) == max)
  }

  lemma {:induction false} MaximumNext(vregMap: seq<(string, string)>, params: seq<Param>, vreg: string, q: TcsSeq,
                                       max: nat)
    requires params != [] && IsMaximum(vregMap, params[..|params| - 1], vreg, q, max)
    ensures var p := params[|params| - 1];
            IsMaximum(vregMap, params, vreg, q, Max(if Asks(vregMap, p, vreg, q) then LevelOf(p, q) else 0, max))
  {
    hide Asks, LevelOf;
    var m := |params| - 1;
    var front, p := params[..m], params[m];
    assert forall k :: 0 <= k < m ==> front[k] == params[k];
    if max > 0 {
      var k :| 0 <= k < m && Asks(vregMap, front[k], vreg, q) && LevelOf(front[k], q) == max;
      assert params[k] == front[k];
    }
  }

  lemma {:induction false} BestNext(rs: seq<Request>, r: Request, vreg: string, q: TcsSeq)
    ensures Best(rs + [r], vreg, q)
         == Max(if r.vreg != vreg then 0 else if q.Up? then r.wake else r.sleep, Best(rs, vreg, q))
  {
    assert (rs + [r])[..|rs|] == rs;
  }

  function RequestsOf(vregMap: seq<(string, string)>, p: Param): seq<Request> {
    var r := RequestOf(vregMap, p); if r.Some? then [r.value] else []
  }

  lemma {:induction false} BestNextParam(vregMap: seq<(string, string)>, rs: seq<Request>, p: Param, vreg: string,
                                         q: TcsSeq)
    ensures Best(rs + RequestsOf(vregMap, p), vreg, q)
         == Max(if Asks(vregMap, p, vreg, q) then LevelOf(p, q) else 0, Best(rs, vreg, q))
  {
    RequestOfIs(vregMap, p);
    hide RequestOf, LevelOf, LeadsTo, Best;
    var r := RequestOf(vregMap, p);
    assert Asks(vregMap, p, vreg, q) ==> Uses(vregMap, p, vreg);
    if r.Some? { BestNext(rs, r.value, vreg, q); } else { assert rs + [] == rs; }
  }

  lemma {:induction false} BestIsMaximum(vregMap: seq<(string, string)>, params: seq<Param>, vreg: string, q: TcsSeq)
    ensures IsMaximum(vregMap, params, vreg, q, Best(Requests(vregMap, params), vreg, q))
  {
    hide Asks, LevelOf, RequestOf;
    if params == [] {
    } else {
      hide IsMaximum, Best;
      var front, p := params[..|params| - 1], params[|params| - 1];
      BestIsMaximum(vregMap, front, vreg, q);
      MaximumNext(vregMap, params, vreg, q, Best(Requests(vregMap, front), vreg, q));
      BestNextParam(vregMap, Requests(vregMap, front), p, vreg, q);
      assert Requests(vregMap, params) == Requests(vregMap, front) + RequestsOf(vregMap, p);
    }
  }

  lemma {:induction false} NamesNextParam(vregMap: seq<(string, string)>, rs: seq<Request>, p: Param, vreg: string)
    ensures Names(rs + RequestsOf(vregMap, p), vreg) <==> Names(rs, vreg) || Uses(vregMap, p, vreg)
  {
    RequestOfIs(vregMap, p);
    hide RequestOf, Uses, Names;
    var r := RequestOf(vregMap, p);
    if r.Some? {
      NamesNext(rs + [r.value], vreg);
      assert (rs + [r.value])[..|rs|] == rs;
    } else {
      assert rs + [] == rs;
    }
  }

  ghost predicate SomeUses(vregMap: seq<(string, string)>, params: seq<Param>, vreg: string) {
    exists k :: 0 <= k < |params| && Uses(vregMap, params[k], vreg)
  }

  lemma {:induction false} SomeUsesNext(vregMap: seq<(string, string)>, params: seq<Param>, vreg: string)
    requires params != []
    ensures SomeUses(vregMap, params, vreg) <==>
            SomeUses(vregMap, params[..|params| - 1], vreg) || Uses(vregMap, params[|params| - 1], vreg)
  {
    hide Uses;
    var m := |params| - 1;
    assert forall k :: 0 <= k < m ==> params[..m][k] == params[k];
  }

  lemma {:induction false} NamesIff(vregMap: seq<(string, string)>, params: seq<Param>, vreg: string)
    ensures Names(Requests(vregMap, params), vreg) <==> SomeUses(vregMap, params, vreg)
  {
    hide Uses, RequestOf;
    if params == [] {
    } else {
      hide Names, SomeUses;
      var front, p := params[..|params| - 1], params[|params| - 1];
      NamesIff(vregMap, front, vreg);
      NamesNextParam(vregMap, Requests(vregMap, front), p, vreg);
      SomeUsesNext(vregMap, params, vreg);
    }
  }

  /** The regulators that parameters use have names that fit a slot. */
  ghost predicate NamesShort(vregMap: seq<(string, string)>, params: seq<Param>) {
    forall k, vreg :: 0 <= k < |params| && Uses(vregMap, params[k], vreg) ==> 0 < |vreg| < 32
  }

  /** Parameter j is the first to use a regulator, and an earlier one uses another whose
      name contains its name. */
  ghost predicate Hides(vregMap: seq<(string, string)>, params: seq<Param>, i: nat, j: nat, u: string, v: string) {
    && i < j < |params| && Uses(vregMap, params[i], u) && Uses(vregMap, params[j], v) && u != v && Contains(u, v)
    && forall k :: 0 <= k < j ==> !Uses(vregMap, params[k], v)
  }

  ghost predicate NoneHidden(vregMap: seq<(string, string)>, params: seq<Param>) {
    forall i: nat, j: nat, u, v :: !Hides(vregMap, params, i, j, u, v)
  }

  lemma {:induction false} FrontConditions(vregMap: seq<(string, string)>, params: seq<Param>)
    requires params != [] && NamesShort(vregMap, params) && NoneHidden(vregMap, params)
    ensures NamesShort(vregMap, params[..|params| - 1]) && NoneHidden(vregMap, params[..|params| - 1])
  {
    hide Uses, Contains;
    var front := params[..|params| - 1];
    assert forall k :: 0 <= k < |front| ==> front[k] == params[k];
    forall i: nat, j: nat, u, v ensures !Hides(vregMap, front, i, j, u, v) {
      assert !Hides(vregMap, params, i, j, u, v);
    }
  }

  lemma {:induction false} NewRequestNotShadowed(vregMap: seq<(string, string)>, params: seq<Param>, i: nat)
    requires params != [] && NoneHidden(vregMap, params)
    requires var rs := Requests(vregMap, params[..|params| - 1]);
             i < |rs| && RequestOf(vregMap, params[|params| - 1]).Some?
    ensures var rs, r := Requests(vregMap, params[..|params| - 1]), RequestOf(vregMap, params[|params| - 1]).value;
            rs[i].vreg == r.vreg || !Contains(rs[i].vreg, r.vreg) || Names(rs, r.vreg)
  {
    hide Uses, Contains, RequestOf;
    var m := |params| - 1;
    var front := params[..m];
    var rs, r := Requests(vregMap, front), RequestOf(vregMap, params[m]).value;
    RequestOfIs(vregMap, params[m]);
    assert Names(rs, rs[i].vreg);
    NamesIff(vregMap, front, rs[i].vreg);
    NamesIff(vregMap, front, r.vreg);
    var k :| 0 <= k < |front| && Uses(vregMap, front[k], rs[i].vreg);
    assert !Hides(vregMap, params, k, m, rs[i].vreg, r.vreg);
    assert forall l :: 0 <= l < m ==> front[l] == params[l];
  }

  lemma {:induction false} NoShadowAppend(rs: seq<Request>, r: Request)
    requires NoShadow(rs)
    requires forall i :: 0 <= i < |rs| ==> rs[i].vreg == r.vreg || !Contains(rs[i].vreg, r.vreg) || Names(rs, r.vreg)
    ensures NoShadow(rs + [r])
  {
    hide Contains;
    var all := rs + [r];
    forall i: nat, j: nat ensures !Shadowed(all, i, j) {
      if i < j < |rs| {
        assert all[..j] == rs[..j];
        assert !Shadowed(rs, i, j);
      } else if i < j == |rs| {
        assert all[..j] == rs;
      }
    }
  }

  lemma {:induction false} RequestConditions(vregMap: seq<(string, string)>, params: seq<Param>)
    requires |params| <= 16 && NamesShort(vregMap, params) && NoneHidden(vregMap, params)
    ensures NamesFit(Requests(vregMap, params)) && NoShadow(Requests(vregMap, params))
  {
    hide Uses, Contains, RequestOf;
    RequestsAtMost(vregMap, params);
    if params == [] {
    } else {
      hide NoneHidden, NoShadow;
      var m := |params| - 1;
      var front, rs := params[..m], Requests(vregMap, params[..m]);
      FrontConditions(vregMap, params);
      RequestConditions(vregMap, front);
      RequestOfIs(vregMap, params[m]);
      if RequestOf(vregMap, params[m]).Some? {
        var r := RequestOf(vregMap, params[m]).value;
        forall i | 0 <= i < |rs|
          ensures rs[i].vreg == r.vreg || !Contains(rs[i].vreg, r.vreg) || Names(rs, r.vreg)
        {
          NewRequestNotShadowed(vregMap, params, i);
        }
        NoShadowAppend(rs, r);
      } else {
        assert Requests(vregMap, params) == rs;
      }
    }
  }

  /** The one message of a regulator for a sequence carries the maximum, and there is
      none if that is 0. */
  ghost predicate SentMaximum(vregMap: seq<(string, string)>, params: seq<Param>, msgs: seq<Msg>, vreg: string,
                              q: TcsSeq)
  {
    exists max: nat :: IsMaximum(vregMap, params, vreg, q, max) && Values(msgs, vreg, q) == Once(max)
  }

  /** Each regulator is sent the maximum of the levels asked by exactly the parameters
      whose voltage is valid and whose pin belongs to it, once for each sequence, and
      no other regulator is sent anything; all of it, with success, unless a message is
      refused. */
  lemma {:induction false} EachRegulatorOnce(vregMap: seq<(string, string)>, sent: seq<Msg>, params: seq<Param>,
                                             answer: nat -> int)
    returns (msgs: seq<Msg>)
    requires vregMap != [] && |params| <= 16 && NamesShort(vregMap, params) && NoneHidden(vregMap, params)
    ensures forall v, q :: v != "" ==> SentMaximum(vregMap, params, msgs, v, q)
    ensures var (s, ret) := RunSetup(vregMap, true, SetupState(false, sent), Some(params), answer);
            && s.done && s.sent <= sent + msgs && (ret >= 0 ==> s.sent == sent + msgs)
            && ((forall k :: answer(k) >= 0) ==> ret >= 0)
  {
    RequestConditions(vregMap, params);
    msgs := RequestsServed(vregMap, sent, params, answer);
    forall v, q | v != "" ensures SentMaximum(vregMap, params, msgs, v, q) {
      BestIsMaximum(vregMap, params, v, q);
    }
  }

  /** A regulator finds the slot made for it again exactly if its name fits: a longer name
      is cut to 31 characters, and each of its pins takes a new slot. */
  lemma {:induction false} SlotFoundIff(vreg: string)
    requires vreg != ""
    ensures Takes(Merge(Slot("", 0, 0), Request(vreg, 0, 0)), vreg) <==> |vreg| < 32
    ensures |vreg| >= 32 ==> Merge(Slot("", 0, 0), Request(vreg, 0, 0)).vreg == vreg[..31]
  {
    ContainsSelf(vreg);
  }

  // --------------------------------------------------------- repeated calls

  datatype SetupCall = SetupCall(cfg: Option<seq<Param>>, answer: nat -> int)

  function Setups(vregMap: seq<(string, string)>, mbox: bool, s: SetupState, calls: seq<SetupCall>): SetupState {
    if calls == [] then s
    else
      var c := calls[|calls| - 1];
      RunSetup(vregMap, mbox, Setups(vregMap, mbox, s, calls[..|calls| - 1]), c.cfg, c.answer).0
  }

  predicate FirstConfigured(calls: seq<SetupCall>, k: nat)
    requires k < |calls|
  {
    calls[k].cfg != None && forall i :: 0 <= i < k ==> calls[i].cfg == None
  }

  /** The first call that has the firmware's configuration does it all; calls before it
      and after it send nothing, and on a board without a map or a mailbox none does. */
  lemma {:induction false} OneSetupSends(vregMap: seq<(string, string)>, mbox: bool, sent: seq<Msg>,
                                         calls: seq<SetupCall>)
    ensures var e := Setups(vregMap, mbox, SetupState(false, sent), calls);
            forall c: SetupCall ::
              RunSetup(vregMap, mbox, e, c.cfg, c.answer).1 ==
                if e.done || vregMap == [] || !mbox then 0 else if c.cfg.None? then -EINVAL
                else RunSetup(vregMap, mbox, e, c.cfg, c.answer).1
    ensures var e := Setups(vregMap, mbox, SetupState(false, sent), calls);
            if vregMap == [] || !mbox then e.sent == sent && (e.done <==> calls != [])
            else
              && ((forall k :: 0 <= k < |calls| ==> calls[k].cfg == None) ==> e == SetupState(false, sent))
              && (forall k :: 0 <= k < |calls| && FirstConfigured(calls, k) ==>
                    e == RunSetup(vregMap, true, SetupState(false, sent), calls[k].cfg, calls[k].answer).0)
  {
    hide SendFrom, PlaceAll, Requests;
    if calls == [] {
    } else {
      var front := calls[..|calls| - 1];
      OneSetupSends(vregMap, mbox, sent, front);
      assert forall k :: 0 <= k < |front| ==> front[k] == calls[k];
    }
  }
}
