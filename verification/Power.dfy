/**
 Power sequencing: regulators and clocks are enabled in list order, with reverse
 rollback when one fails, and disabled in reverse order.  `log` records the calls
 that enable or disable a rail.
 */
module PowerSpec {
  import opened Common

  datatype Kind = Vreg | Clk

  /** `valid`: the rail was obtained from the framework. */
  datatype Rail = Rail(valid: bool, enabled: bool)

  datatype RailId = RailId(kind: Kind, index: nat)

  datatype Act = Enable(id: RailId) | Disable(id: RailId)

  /** Enables the rails from i on; hw(k) is the framework's answer for rail k. */
  function RailsOn(kind: Kind, rails: seq<Rail>, hw: nat -> int, i: nat): (r: (seq<Rail>, seq<Act>, int))
    requires i <= |rails|
    decreases |rails| - i
  {
    if i == |rails| then (rails, [], 0)
    else if !rails[i].valid || rails[i].enabled then RailsOn(kind, rails, hw, i + 1)
    else if hw(i) != 0 then
      var (off, log) := RailsOff(kind, rails, i);
      (off, log, hw(i))
    else
      var (on, log, ret) := RailsOn(kind, rails[i := rails[i].(enabled := true)], hw, i + 1);
      (on, [Enable(RailId(kind, i))] + log, ret)
  }

  /** Disables the rails below n, last first. */
  function RailsOff(kind: Kind, rails: seq<Rail>, n: nat): (seq<Rail>, seq<Act>)
    requires n <= |rails|
    decreases n
  {
    if n == 0 then (rails, [])
    else if !rails[n - 1].valid || !rails[n - 1].enabled then RailsOff(kind, rails, n - 1)
    else
      var (off, log) := RailsOff(kind, rails[n - 1 := rails[n - 1].(enabled := false)], n - 1);
      (off, [Disable(RailId(kind, n - 1))] + log)
  }

  datatype Supply = Supply(vregs: seq<Rail>, clks: seq<Rail>, poweredOn: bool, log: seq<Act>)

  /** The answers during a power-on; `disabled` is the hardware-disable switch. */
  datatype PowerHw = PowerHw(disabled: bool, vreg: nat -> int, clk: nat -> int, pinctrl: int)

  function PowerOff(s: Supply): Supply {
    if !s.poweredOn then s
    else
      var (clks, log1) := RailsOff(Clk, s.clks, |s.clks|);
      var (vregs, log2) := RailsOff(Vreg, s.vregs, |s.vregs|);
      Supply(vregs, clks, false, s.log + log1 + log2)
  }

  function PowerOn(s: Supply, hw: PowerHw): (Supply, int) {
    if s.poweredOn then (s, 0)
    else if hw.disabled then (s, -EINVAL)
    else
      var (vregs, log1, ret1) := RailsOn(Vreg, s.vregs, hw.vreg, 0);
      if ret1 != 0 then (Supply(vregs, s.clks, false, s.log + log1), ret1)
      else
        var (clks, log2, ret2) := RailsOn(Clk, s.clks, hw.clk, 0);
        if ret2 != 0 then
          var (off, log3) := RailsOff(Vreg, vregs, |vregs|);
          (Supply(off, clks, false, s.log + log1 + log2 + log3), ret2)
        else if hw.pinctrl != 0 then
          (PowerOff(Supply(vregs, clks, true, s.log + log1 + log2)), hw.pinctrl)
        else
          (Supply(vregs, clks, true, s.log + log1 + log2), 0)
  }
}

/** The code, toggling the rails' flags in place. */
module PowerDriver {
  import opened Common
  import opened PowerSpec

  class PlatPower {
    const vregs: array<Rail>
    const clks: array<Rail>
    var poweredOn: bool
    var log: seq<Act>

    predicate Valid() {
      vregs != clks
    }

    function Rails(kind: Kind): array<Rail> {
      if kind == Vreg then vregs else clks
    }

    function Abs(): Supply
      reads this, vregs, clks
    {
      Supply(vregs[..], clks[..], poweredOn, log)
    }

    constructor (vregs: array<Rail>, clks: array<Rail>)
      requires vregs != clks
      ensures Valid() && Abs() == Supply(vregs[..], clks[..], false, [])
      ensures this.vregs == vregs && this.clks == clks
    {
      this.vregs, this.clks := vregs, clks;
      poweredOn := false;
      log := [];
    }

    /** cnss_vreg_on_single and cnss_clk_on_single. */
    method OnSingle(kind: Kind, i: nat, answer: int) returns (ret: int)
      requires i < Rails(kind).Length
      modifies Rails(kind), this`log
      ensures var was := old(Rails(kind)[i]);
              if was.enabled then ret == 0 && Rails(kind)[..] == old(Rails(kind)[..]) && log == old(log)
              else if answer != 0 then ret == answer && Rails(kind)[..] == old(Rails(kind)[..]) && log == old(log)
              else ret == 0 && Rails(kind)[..] == old(Rails(kind)[..])[i := was.(enabled := true)]
                   && log == old(log) + [Enable(RailId(kind, i))]
    {
      var rails := Rails(kind);
      if rails[i].enabled { return 0; }
      ret := answer;
      if ret != 0 { return; }
      rails[i] := rails[i].(enabled := true);
      log := log + [Enable(RailId(kind, i))];
    }

    /** cnss_vreg_off_single and cnss_clk_off_single: the flag is cleared whatever
        the framework answers. */
    method OffSingle(kind: Kind, i: nat)
      requires i < Rails(kind).Length
      modifies Rails(kind), this`log
      ensures var was := old(Rails(kind)[i]);
              if !was.enabled then Rails(kind)[..] == old(Rails(kind)[..]) && log == old(log)
              else Rails(kind)[..] == old(Rails(kind)[..])[i := was.(enabled := false)]
                   && log == old(log) + [Disable(RailId(kind, i))]
    {
      var rails := Rails(kind);
      if !rails[i].enabled { return; }
      log := log + [Disable(RailId(kind, i))];
      rails[i] := rails[i].(enabled := false);
    }

    /** The reverse loops of cnss_vreg_off, cnss_clk_off and the two rollbacks. */
    method OffBelow(kind: Kind, n: nat)
      requires n <= Rails(kind).Length
      modifies Rails(kind), this`log
      ensures var (off, acts) := RailsOff(kind, old(Rails(kind)[..]), n);
              Rails(kind)[..] == off && log == old(log) + acts
    {
      var i := n;
      while i > 0
        invariant 0 <= i <= n
        invariant var (off, acts) := RailsOff(kind, old(Rails(kind)[..]), n);
                  var (off', acts') := RailsOff(kind, Rails(kind)[..], i);
                  off == off' && old(log) + acts == log + acts'
      {
        i := i - 1;
        if Rails(kind)[i].valid { OffSingle(kind, i); }
      }
    }

    /** cnss_vreg_on and cnss_clk_on. */
    method On(kind: Kind, hw: nat -> int) returns (ret: int)
      modifies Rails(kind), this`log
      ensures var (on, acts, r) := RailsOn(kind, old(Rails(kind)[..]), hw, 0);
              Rails(kind)[..] == on && log == old(log) + acts && ret == r
    {
      var i := 0;
      ret := 0;
      while i < Rails(kind).Length
        invariant 0 <= i <= Rails(kind).Length && ret == 0
        invariant var (on, acts, r) := RailsOn(kind, old(Rails(kind)[..]), hw, 0);
                  var (on', acts', r') := RailsOn(kind, Rails(kind)[..], hw, i);
                  on == on' && old(log) + acts == log + acts' && r == r'
      {
        if Rails(kind)[i].valid {
          ret := OnSingle(kind, i, hw(i));
          if ret != 0 { break; }
        }
        i := i + 1;
      }
      if ret == 0 { return; }
      OffBelow(kind, i);
    }

    method PowerOnDevice(hw: PowerHw) returns (ret: int)
      requires Valid()
      modifies this`poweredOn, this`log, vregs, clks
      ensures (Abs(), ret) == PowerOn(old(Abs()), hw)
    {
      if poweredOn { return 0; }
      if hw.disabled { return -EINVAL; }
      ret := On(Vreg, hw.vreg);
      if ret != 0 { return; }
      ret := On(Clk, hw.clk);
      if ret == 0 {
        ret := hw.pinctrl;
        if ret == 0 {
          poweredOn := true;
          return;
        }
        OffBelow(Clk, clks.Length);
      }
      OffBelow(Vreg, vregs.Length);
    }

    method PowerOffDevice()
      requires Valid()
      modifies this`poweredOn, this`log, vregs, clks
      ensures Abs() == PowerOff(old(Abs()))
    {
      if !poweredOn { return; }
      OffBelow(Clk, clks.Length);
      OffBelow(Vreg, vregs.Length);
      poweredOn := false;
    }
  }
}

/** What every run of power-ons and power-offs keeps. */
module PowerProofs {
  import opened Common
  import opened PowerSpec

  /** Plays a log on a stack of rails: only the rail enabled last may be disabled. */
  function Play(stack: seq<RailId>, log: seq<Act>): Option<seq<RailId>>
    decreases log
  {
    if log == [] then Some(stack)
    else match log[0]
      case Enable(id) => Play(stack + [id], log[1..])
      case Disable(id) =>
        if stack != [] && stack[|stack| - 1] == id then Play(stack[..|stack| - 1], log[1..]) else None
  }

  lemma {:induction false} PlayAppend(stack: seq<RailId>, log1: seq<Act>, log2: seq<Act>)
    ensures Play(stack, log1 + log2)
         == match Play(stack, log1) case None => None case Some(s) => Play(s, log2)
    decreases log1
  {
    if log1 == [] {
      assert log1 + log2 == log2;
    } else {
      assert (log1 + log2)[1..] == log1[1..] + log2;
      match log1[0]
      case Enable(id) => PlayAppend(stack + [id], log1[1..], log2);
      case Disable(id) =>
        if stack != [] && stack[|stack| - 1] == id { PlayAppend(stack[..|stack| - 1], log1[1..], log2); }
    }
  }

  /** The valid rails below n, in list order. */
  function Ids(kind: Kind, rails: seq<Rail>, n: nat): seq<RailId>
    requires n <= |rails|
  {
    if n == 0 then [] else Ids(kind, rails, n - 1) + (if rails[n - 1].valid then [RailId(kind, n - 1)] else [])
  }

  predicate SameRails(a: seq<Rail>, b: seq<Rail>) {
    |a| == |b| && forall i :: 0 <= i < |a| ==> a[i].valid == b[i].valid
  }

  /** Exactly the valid rails below n are enabled. */
  predicate OnBelow(rails: seq<Rail>, n: int) {
    forall i :: 0 <= i < |rails| ==> (rails[i].enabled <==> rails[i].valid && i < n)
  }

  lemma {:induction false} IdsSame(kind: Kind, a: seq<Rail>, b: seq<Rail>, n: nat)
    requires SameRails(a, b) && n <= |a|
    ensures Ids(kind, a, n) == Ids(kind, b, n)
  {
    if n > 0 { IdsSame(kind, a, b, n - 1); }
  }

  lemma {:induction false} PlayDisable(base: seq<RailId>, id: RailId, log: seq<Act>)
    ensures Play(base + [id], [Disable(id)] + log) == Play(base, log)
  {
    var stack := base + [id];
    assert stack[..|stack| - 1] == base && ([Disable(id)] + log)[1..] == log;
  }

  /** Switching off takes the rails off the stack one by one. */
  lemma {:induction false} OffPlays(kind: Kind, rails: seq<Rail>, n: nat, base: seq<RailId>)
    requires n <= |rails| && OnBelow(rails, n)
    ensures var (off, log) := RailsOff(kind, rails, n);
            && SameRails(off, rails) && OnBelow(off, 0)
            && Play(base + Ids(kind, rails, n), log) == Some(base)
    decreases n
  {
    if n == 0 {
      assert base + [] == base;
    } else if !rails[n - 1].valid {
      OffPlays(kind, rails, n - 1, base);
      assert Ids(kind, rails, n) == Ids(kind, rails, n - 1);
    } else {
      var next := rails[n - 1 := rails[n - 1].(enabled := false)];
      OffPlays(kind, next, n - 1, base);
      IdsSame(kind, next, rails, n - 1);
      assert base + Ids(kind, rails, n) == base + Ids(kind, next, n - 1) + [RailId(kind, n - 1)];
      PlayDisable(base + Ids(kind, next, n - 1), RailId(kind, n - 1), RailsOff(kind, next, n - 1).1);
    }
  }

  /** Switching on pushes all valid rails, or pushes some and pops them again. */
  lemma {:induction false} OnPlays(kind: Kind, rails: seq<Rail>, hw: nat -> int, i: nat, base: seq<RailId>)
    requires i <= |rails| && OnBelow(rails, i)
    ensures var (on, log, ret) := RailsOn(kind, rails, hw, i);
            && SameRails(on, rails) && OnBelow(on, if ret == 0 then |rails| else 0)
            && Play(base + Ids(kind, rails, i), log)
            == Some(base + if ret == 0 then Ids(kind, rails, |rails|) else [])
    decreases |rails| - i
  {
    if i == |rails| {
    } else if !rails[i].valid {
      OnPlays(kind, rails, hw, i + 1, base);
      assert Ids(kind, rails, i + 1) == Ids(kind, rails, i);
    } else if hw(i) != 0 {
      OffPlays(kind, rails, i, base);
      assert base + [] == base;
    } else {
      var next := rails[i := rails[i].(enabled := true)];
      OnPlays(kind, next, hw, i + 1, base);
      IdsSame(kind, next, rails, i);
      IdsSame(kind, next, rails, |rails|);
      assert base + Ids(kind, next, i + 1) == base + Ids(kind, rails, i) + [RailId(kind, i)];
      var (on, log, ret) := RailsOn(kind, next, hw, i + 1);
      assert ([Enable(RailId(kind, i))] + log)[1..] == log;
    }
  }

  function AllIds(s: Supply): seq<RailId> {
    Ids(Vreg, s.vregs, |s.vregs|) + Ids(Clk, s.clks, |s.clks|)
  }

  /** powered_on agrees with every rail's flag, and the log has enabled exactly
      these rails, last in first out. */
  predicate Agrees(s: Supply) {
    && OnBelow(s.vregs, if s.poweredOn then |s.vregs| else 0)
    && OnBelow(s.clks, if s.poweredOn then |s.clks| else 0)
    && Play([], s.log) == Some(if s.poweredOn then AllIds(s) else [])
  }

  predicate SameSupply(a: Supply, b: Supply) {
    SameRails(a.vregs, b.vregs) && SameRails(a.clks, b.clks)
  }

  /** A power-off disables exactly the enabled rails, in the reverse order of
      their enabling. */
  lemma {:induction false} PowerOffAgrees(s: Supply)
    requires Agrees(s)
    ensures var s' := PowerOff(s);
            && Agrees(s') && !s'.poweredOn && SameSupply(s', s)
            && s.log <= s'.log && (s.poweredOn ==> Play(AllIds(s), s'.log[|s.log|..]) == Some([]))
  {
    hide Play, RailsOff, Ids, OnBelow;
    if s.poweredOn {
      var (clks, log1) := RailsOff(Clk, s.clks, |s.clks|);
      var (vregs, log2) := RailsOff(Vreg, s.vregs, |s.vregs|);
      var v := Ids(Vreg, s.vregs, |s.vregs|);
      OffPlays(Clk, s.clks, |s.clks|, v);
      OffPlays(Vreg, s.vregs, |s.vregs|, []);
      assert [] + v == v;
      PlayAppend(AllIds(s), log1, log2);
      PlayAppend([], s.log, log1 + log2);
      assert s.log + log1 + log2 == s.log + (log1 + log2);
      assert PowerOff(s).log[|s.log|..] == log1 + log2;
    }
  }

  /** A power-on from a state with everything disabled either enables every valid
      rail or leaves every rail disabled, whatever fails. */
  lemma {:induction false} PowerOnAgrees(s: Supply, hw: PowerHw)
    requires Agrees(s)
    ensures var (s', ret) := PowerOn(s, hw);
            Agrees(s') && (s'.poweredOn <==> ret == 0) && (s.poweredOn ==> s' == s) && SameSupply(s', s)
  {
    if !s.poweredOn && !hw.disabled {
      var (vregs, log1, ret1) := RailsOn(Vreg, s.vregs, hw.vreg, 0);
      OnPlays(Vreg, s.vregs, hw.vreg, 0, []);
      PlayAppend([], s.log, log1);
      assert [] + Ids(Vreg, s.vregs, 0) == [];
      IdsSame(Vreg, s.vregs, vregs, |vregs|);
      if ret1 == 0 {
        var v := Ids(Vreg, vregs, |vregs|);
        assert [] + v == v;
        var (clks, log2, ret2) := RailsOn(Clk, s.clks, hw.clk, 0);
        OnPlays(Clk, s.clks, hw.clk, 0, v);
        assert v + Ids(Clk, s.clks, 0) == v;
        IdsSame(Clk, s.clks, clks, |clks|);
        PlayAppend([], s.log + log1, log2);
        if ret2 != 0 {
          assert v + [] == v;
          var (off, log3) := RailsOff(Vreg, vregs, |vregs|);
          OffPlays(Vreg, vregs, |vregs|, []);
          PlayAppend([], s.log + log1 + log2, log3);
        } else if hw.pinctrl != 0 {
          PowerOffAgrees(Supply(vregs, clks, true, s.log + log1 + log2));
        }
      }
    }
  }

  /** Every valid rail from the i-th on comes up. */
  ghost predicate AllAnswer(rails: seq<Rail>, hw: nat -> int, i: nat) {
    forall k: nat :: i <= k < |rails| && rails[k].valid ==> hw(k) == 0
  }

  /** Rail k is the first valid one, from the i-th on, that does not. */
  ghost predicate FirstFailure(rails: seq<Rail>, hw: nat -> int, i: nat, k: nat) {
    && i <= k < |rails| && rails[k].valid && hw(k) != 0
    && forall j: nat :: i <= j < k && rails[j].valid ==> hw(j) == 0
  }

  lemma {:induction false} RailsOnReturns(kind: Kind, rails: seq<Rail>, hw: nat -> int, i: nat)
    requires i <= |rails| && OnBelow(rails, i)
    ensures var ret := RailsOn(kind, rails, hw, i).2;
            && (ret == 0 <==> AllAnswer(rails, hw, i))
            && forall k: nat :: FirstFailure(rails, hw, i, k) ==> ret == hw(k)
    decreases |rails| - i
  {
    hide RailsOff;
    if i < |rails| {
      if !rails[i].valid {
        RailsOnReturns(kind, rails, hw, i + 1);
      } else if hw(i) == 0 {
        RailsOnReturns(kind, rails[i := rails[i].(enabled := true)], hw, i + 1);
      }
    }
  }

  /** A power-on succeeds exactly if power is already on, or the board is not disabled
      and every valid regulator, every valid clock and the pins answer; otherwise it
      returns the first error, regulators before clocks before pins. */
  lemma {:induction false} PowerOnIff(s: Supply, hw: PowerHw)
    requires Agrees(s)
    ensures var ret := PowerOn(s, hw).1;
            && (ret == 0 <==> s.poweredOn || (!hw.disabled && AllAnswer(s.vregs, hw.vreg, 0) &&
                                              AllAnswer(s.clks, hw.clk, 0) && hw.pinctrl == 0))
            && (!s.poweredOn ==>
                  && (hw.disabled ==> ret == -EINVAL)
                  && (!hw.disabled ==>
                        && (forall k: nat :: FirstFailure(s.vregs, hw.vreg, 0, k) ==> ret == hw.vreg(k))
                        && (AllAnswer(s.vregs, hw.vreg, 0) ==>
                              && (forall k: nat :: FirstFailure(s.clks, hw.clk, 0, k) ==> ret == hw.clk(k))
                              && (AllAnswer(s.clks, hw.clk, 0) ==> ret == hw.pinctrl))))
  {
    hide RailsOff, RailsOn, Play;
    if !s.poweredOn {
      RailsOnReturns(Vreg, s.vregs, hw.vreg, 0);
      RailsOnReturns(Clk, s.clks, hw.clk, 0);
    }
  }

  datatype Op = On(hw: PowerHw) | Off

  function PowerRun(s: Supply, ops: seq<Op>): Supply {
    if ops == [] then s
    else
      var before := PowerRun(s, ops[..|ops| - 1]);
      match ops[|ops| - 1]
      case On(hw) => PowerOn(before, hw).0
      case Off => PowerOff(before)
  }

  /** From powered off with everything disabled, powered_on agrees with all
      flags in every reachable state, and every disable undoes the last enable. */
  lemma {:induction false} PowerRunAgrees(s: Supply, ops: seq<Op>)
    requires !s.poweredOn && s.log == [] && OnBelow(s.vregs, 0) && OnBelow(s.clks, 0)
    ensures Agrees(PowerRun(s, ops)) && SameSupply(PowerRun(s, ops), s)
  {
    if ops == [] {
    } else {
      var before := ops[..|ops| - 1];
      PowerRunAgrees(s, before);
      match ops[|ops| - 1]
      case On(hw) => PowerOnAgrees(PowerRun(s, before), hw);
      case Off => PowerOffAgrees(PowerRun(s, before));
    }
  }
}
