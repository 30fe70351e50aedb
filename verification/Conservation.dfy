/** Power is conserved through both levels of distribution, site to module and
    module to rack: what the racks are told adds up to the site target, as far
    as the modules' headroom goes, short by at most `EPSILON` per split. */
module Conservation {
  import opened Numbers
  import opened Allocation
  import opened Distribution

  function WattsOf(shares: seq<Share>): (r: seq<real>)
    ensures |r| == |shares|
  {
    seq(|shares|, i requires 0 <= i < |shares| => shares[i].watts)
  }

  /** `x` in the direction of `target`. */
  function Along(target: real, x: real): real {
    if target < 0.0 then -x else x
  }

  /** At most `goal`, and short of it by at most `slack`. */
  ghost predicate Delivers(x: real, goal: real, slack: real) {
    goal - slack <= x <= goal
  }

  lemma {:induction false} SumNegated(xs: seq<real>, ys: seq<real>)
    requires |xs| == |ys| && forall i :: 0 <= i < |xs| ==> ys[i] == -xs[i]
    ensures Sum(ys) == -Sum(xs)
  {
    if xs != [] { SumNegated(xs[..|xs| - 1], ys[..|ys| - 1]); }
  }

  lemma SignedWatts(target: real, eligible: seq<ChildCapacity>, magnitudes: seq<real>)
    requires |eligible| == |magnitudes|
    ensures var watts := WattsOf(Signed(eligible, Sign(target), magnitudes));
            && (forall i :: 0 <= i < |watts| ==> Along(target, watts[i]) == magnitudes[i])
            && Along(target, Sum(watts)) == Sum(magnitudes)
  {
    var watts := WattsOf(Signed(eligible, Sign(target), magnitudes));
    if target < 0.0 {
      SumNegated(magnitudes, watts);
    } else {
      assert watts == magnitudes;
    }
  }

  lemma WeighableEligible(policy: Policy, children: seq<ChildCapacity>)
    requires Weighable(policy, children)
    ensures Weighable(policy, EligibleOf(children))
  {
  }

  /** A split delivers the target as far as the eligible children's headroom
      goes, in the target's direction, and takes no child past its headroom. */
  lemma AllocationDelivers(target: real, children: seq<ChildCapacity>, policy: Policy)
    requires Weighable(policy, children)
    ensures var eligible, shares := EligibleOf(children), Allocated(target, children, policy);
            && Delivers(Along(target, Sum(WattsOf(shares))), Min(Abs(target), Sum(CapsOf(eligible))), EPSILON)
            && forall i :: 0 <= i < |shares| ==> 0.0 <= Along(target, shares[i].watts) <= CapsOf(eligible)[i]
  {
    var eligible := EligibleOf(children);
    WeighableEligible(policy, children);
    AllocationIsNearFill(target, eligible, policy);
    SignedWatts(target, eligible, Magnitudes(target, eligible, policy));
    var shares := Allocated(target, children, policy);
    forall i | 0 <= i < |shares| ensures 0.0 <= Along(target, shares[i].watts) <= CapsOf(eligible)[i] {
      assert WattsOf(shares)[i] == shares[i].watts;
    }
  }

  lemma {:induction false} ZerosAddNothing(shares: seq<Share>, children: seq<ChildCapacity>)
    ensures Sum(WattsOf(WithZeros(shares, children))) == Sum(WattsOf(shares))
  {
    if children != [] {
      var rest := WithZeros(shares, children[..|children| - 1]);
      ZerosAddNothing(shares, children[..|children| - 1]);
      var id := children[|children| - 1].deviceId;
      assert WattsOf(rest + [Share(id, 0.0)]) == WattsOf(rest) + [0.0];
      SumSnoc(WattsOf(rest), 0.0);
    }
  }

  lemma {:induction false} AllEligible(children: seq<ChildCapacity>)
    requires forall c :: c in children ==> c.state.Eligible()
    ensures EligibleOf(children) == children
  {
    if children != [] {
      assert children[|children| - 1] in children;
      AllEligible(children[..|children| - 1]);
    }
  }

  // ----- one module

  /** Reporting, in service, and above the reserve floor unless charging, with a
      percentage for a state of charge if the policy reads it. */
  ghost predicate Usable(c: Rack, policy: Policy, floor: Option<real>, charging: bool) {
    var t := c.telemetry;
    && t.state.Some? && t.state.value.age <= STALE_AFTER
    && t.state.value.state.Some? && t.state.value.state.value.Eligible()
    && t.soc.Some? && t.soc.value.age <= STALE_AFTER
    && t.soc.value.value.Some?
    && (policy == SocWeighted ==> 0.0 <= t.soc.value.value.value <= 100.0)
    && (!charging && floor.Some? ==> t.soc.value.value.value > floor.value)
  }

  ghost predicate AllUsable(racks: seq<Rack>, policy: Policy, floor: Option<real>, charging: bool) {
    forall c :: c in racks ==> Usable(c, policy, floor, charging)
  }

  lemma {:induction false} UsableCapacities(racks: seq<Rack>, policy: Policy, floor: Option<real>, target: real)
    requires AllUsable(racks, policy, floor, target < 0.0)
    ensures var r := Capacities(racks, floor, target);
            && r.Ok? && Weighable(policy, r.value)
            && (forall c :: c in r.value ==> c.state.Eligible())
            && forall i :: 0 <= i < |racks| ==> r.value[i].headroom == RackHeadroom(racks[i], target)
  {
    if racks != [] {
      assert racks[|racks| - 1] in racks;
      UsableCapacities(racks[..|racks| - 1], policy, floor, target);
    }
  }

  function RackRoom(racks: seq<Rack>, target: real): (r: seq<real>)
    ensures |r| == |racks| && forall i :: 0 <= i < |r| ==> r[i] == Max(RackHeadroom(racks[i], target), 0.0)
  {
    seq(|racks|, i requires 0 <= i < |racks| => Max(RackHeadroom(racks[i], target), 0.0))
  }

  /** Usable racks deliver their module's target up to their joint room. */
  lemma ModuleDelivers(m: Module, target: real, locked: set<string>)
    requires AllUsable(Unlocked(m.racks, locked), m.policy, m.floor, target < 0.0)
    ensures SharesFor(m, target, locked).Ok?
    ensures var racks := Unlocked(m.racks, locked);
            var room := Sum(RackRoom(racks, target));
            Delivers(Along(target, Sum(WattsOf(SharesFor(m, target, locked).value))), Min(Abs(target), room), EPSILON)
  {
    var racks := Unlocked(m.racks, locked);
    UsableCapacities(racks, m.policy, m.floor, target);
    var children := Capacities(racks, m.floor, target).value;
    SplitDelivers(children, RackRoom(racks, target), target, m.policy);
  }

  lemma SplitDelivers(children: seq<ChildCapacity>, room: seq<real>, target: real, policy: Policy)
    requires Weighable(policy, children) && forall c :: c in children ==> c.state.Eligible()
    requires |room| == |children| && forall i :: 0 <= i < |room| ==> room[i] == Max(children[i].headroom, 0.0)
    ensures var shares := WithZeros(Allocated(target, children, policy), children);
            Delivers(Along(target, Sum(WattsOf(shares))), Min(Abs(target), Sum(room)), EPSILON)
  {
    AllEligible(children);
    AllocationDelivers(target, children, policy);
    ZerosAddNothing(Allocated(target, children, policy), children);
    assert CapsOf(children) == room;
  }

  /** A share that fits its module's headroom is delivered by its racks. */
  lemma ModuleDeliversShare(m: Module, site: real, share: real, locked: set<string>)
    requires AllUsable(Unlocked(m.racks, locked), m.policy, m.floor, site < 0.0)
    requires m.racks != [] && m.powerMin.Some? && m.powerMax.Some?
    requires 0.0 <= Along(site, share) <= Max(ModuleHeadroom(m, site, locked), 0.0)
    ensures SharesFor(m, share, locked).Ok?
    ensures Delivers(Along(site, Sum(WattsOf(SharesFor(m, share, locked).value))), Along(site, share), EPSILON)
  {
    var racks := Unlocked(m.racks, locked);
    if share == 0.0 && site < 0.0 {
      ZeroShare(m, locked);
    } else {
      ModuleDelivers(m, share, locked);
      SumOrder(RackHeadrooms(racks, site), RackRoom(racks, share));
      SumZero(seq(|racks|, _ => 0.0));
      SumOrder(seq(|racks|, _ => 0.0), RackRoom(racks, share));
    }
  }

  /** A module told 0 W tells every rack 0 W, whatever its racks report. */
  lemma {:induction false} ZeroTargetZeroShares(m: Module, locked: set<string>)
    requires SharesFor(m, 0.0, locked).Ok?
    ensures forall s :: s in SharesFor(m, 0.0, locked).value ==> s.watts == 0.0
  {
    var children := Capacities(Unlocked(m.racks, locked), m.floor, 0.0).value;
    var split := Allocated(0.0, children, m.policy);
    ZerosMention(split, children);
    forall s | s in split ensures s.watts == 0.0 {
      var i :| 0 <= i < |split| && split[i] == s;
      assert Magnitudes(0.0, EligibleOf(children), m.policy) == Zeros(|EligibleOf(children)|);
    }
  }

  lemma {:induction false} ChargingOrNot(racks: seq<Rack>, policy: Policy, floor: Option<real>, target: real)
    requires AllUsable(racks, policy, floor, true) && target <= 0.0
    ensures Capacities(racks, floor, target).Ok?
  {
    if racks != [] {
      assert racks[|racks| - 1] in racks;
      ChargingOrNot(racks[..|racks| - 1], policy, floor, target);
    }
  }

  lemma ZeroShare(m: Module, locked: set<string>)
    requires AllUsable(Unlocked(m.racks, locked), m.policy, m.floor, true)
    ensures SharesFor(m, 0.0, locked).Ok? && Sum(WattsOf(SharesFor(m, 0.0, locked).value)) == 0.0
  {
    ChargingOrNot(Unlocked(m.racks, locked), m.policy, m.floor, 0.0);
    ZeroTargetZeroShares(m, locked);
    var shares := SharesFor(m, 0.0, locked).value;
    forall i | 0 <= i < |shares| ensures WattsOf(shares)[i] == 0.0 { assert shares[i] in shares; }
    SumZero(WattsOf(shares));
  }

  // ----- the site

  /** A module whose whole capacity is in play. */
  ghost predicate InPlay(m: Module, charging: bool, locked: set<string>) {
    && Dispatchable(m, locked) && m.racks != []
    && m.soc.Some? && m.soc.value.value.Some? && 0.0 <= m.soc.value.value.value <= 100.0
    && AllUsable(Unlocked(m.racks, locked), m.policy, m.floor, charging)
  }

  ghost predicate AllInPlay(modules: seq<Module>, charging: bool, locked: set<string>) {
    forall k :: 0 <= k < |modules| ==> InPlay(modules[k], charging, locked)
  }

  /** Not locked out, with bounds and a state of charge. */
  ghost predicate Reported(m: Module, locked: set<string>) {
    Dispatchable(m, locked) && m.soc.Some? && m.soc.value.value.Some?
  }

  ghost function CapacityReported(m: Module, headroom: real, locked: set<string>): ChildCapacity
    requires Reported(m, locked)
  {
    ChildCapacity(m.deviceId, Standby, headroom, m.soc.value.value.value)
  }

  ghost predicate CapacitiesReported(modules: seq<Module>, target: real, locked: set<string>,
          capacities: seq<ChildCapacity>)
    requires forall k :: 0 <= k < |modules| ==> Reported(modules[k], locked)
  {
    && |capacities| == |modules|
    && forall i :: 0 <= i < |modules| ==>
         && Reported(modules[i], locked)
         && capacities[i] == CapacityReported(modules[i], ModuleHeadroom(modules[i], target, locked), locked)
  }

  lemma {:induction false} ReportedCapacities(modules: seq<Module>, target: real, locked: set<string>)
    requires forall k :: 0 <= k < |modules| ==> Reported(modules[k], locked)
    ensures ModuleCapacities(modules, target, locked).Some?
    ensures CapacitiesReported(modules, target, locked, ModuleCapacities(modules, target, locked).value)
  {
    if modules != [] {
      var last := |modules| - 1;
      ReportedCapacities(modules[..last], target, locked);
      assert Reported(modules[last], locked);
    }
  }

  lemma InPlayEligible(modules: seq<Module>, target: real, locked: set<string>, capacities: seq<ChildCapacity>)
    requires AllInPlay(modules, target < 0.0, locked) && CapacitiesReported(modules, target, locked, capacities)
    ensures Percentages(capacities) && forall c :: c in capacities ==> c.state.Eligible()
  {
    forall c | c in capacities ensures 0.0 <= c.stateOfCharge <= 100.0 && c.state.Eligible() {
      var i :| 0 <= i < |capacities| && capacities[i] == c;
      assert InPlay(modules[i], target < 0.0, locked);
    }
  }

  /** What each module's racks are told in all, given the modules' targets. */
  function RackTotals(modules: seq<Module>, targets: seq<real>, locked: set<string>): (r: seq<real>)
    requires |modules| == |targets|
    ensures |r| == |modules|
  {
    seq(|modules|, i requires 0 <= i < |modules| =>
      var shares := SharesFor(modules[i], targets[i], locked);
      if shares.Ok? then Sum(WattsOf(shares.value)) else 0.0)
  }

  function AlongAll(target: real, xs: seq<real>): (r: seq<real>)
    ensures |r| == |xs|
  {
    seq(|xs|, i requires 0 <= i < |xs| => Along(target, xs[i]))
  }

  lemma SumAlong(target: real, xs: seq<real>)
    ensures Sum(AlongAll(target, xs)) == Along(target, Sum(xs))
  {
    if target < 0.0 {
      SumNegated(xs, AlongAll(target, xs));
    } else {
      assert AlongAll(target, xs) == xs;
    }
  }

  /** `n` splits may each fall short by the threshold. */
  function Slack(n: nat): real {
    if n == 0 then 0.0 else Slack(n - 1) + EPSILON
  }

  lemma {:induction false} SumDelivers(xs: seq<real>, goals: seq<real>)
    requires |xs| == |goals| && forall i :: 0 <= i < |xs| ==> Delivers(xs[i], goals[i], EPSILON)
    ensures Delivers(Sum(xs), Sum(goals), Slack(|xs|))
  {
    if xs != [] { SumDelivers(xs[..|xs| - 1], goals[..|goals| - 1]); }
  }

  /** The modules a site target is split over: a locked-out module and one
      without bounds are passed over. */
  function DispatchableOf(modules: seq<Module>, locked: set<string>): (r: seq<Module>)
    ensures forall m :: m in r <==> m in modules && Dispatchable(m, locked)
  {
    if modules == [] then []
    else
      var front, m := DispatchableOf(modules[..|modules| - 1], locked), modules[|modules| - 1];
      if Dispatchable(m, locked) then front + [m] else front
  }

  lemma {:induction false} OthersPassedOver(modules: seq<Module>, target: real, locked: set<string>)
    ensures ModuleCapacities(modules, target, locked) ==
            ModuleCapacities(DispatchableOf(modules, locked), target, locked)
  {
    if modules != [] {
      var front, m := modules[..|modules| - 1], modules[|modules| - 1];
      OthersPassedOver(front, target, locked);
      var kept := DispatchableOf(front, locked);
      if Dispatchable(m, locked) { assert (kept + [m])[..|kept|] == kept; }
    }
  }

  /** Site target to racks: with every module that takes part in play, the rack
      shares over those modules add up to the site target, or to their whole
      headroom when that is less, in the target's direction; modules locked out
      or without bounds may be there too, and take none of it. */
  lemma TwoLevelConservation(modules: seq<Module>, target: real, locked: set<string>)
    requires AllInPlay(DispatchableOf(modules, locked), target < 0.0, locked)
    ensures ModuleCapacities(modules, target, locked).Some?
    ensures var capacities := ModuleCapacities(modules, target, locked).value;
            var targets, taking := WattsOf(Allocated(target, capacities, SocWeighted)), DispatchableOf(modules, locked);
            && |targets| == |taking|
            && (forall k :: 0 <= k < |taking| ==> SharesFor(taking[k], targets[k], locked).Ok?)
            && Delivers(Along(target, Sum(RackTotals(taking, targets, locked))),
                        Min(Abs(target), Sum(CapsOf(capacities))),
                        Slack(|taking| + 1))
  {
    OthersPassedOver(modules, target, locked);
    InPlayConserves(DispatchableOf(modules, locked), target, locked);
  }

  lemma InPlayConserves(modules: seq<Module>, target: real, locked: set<string>)
    requires AllInPlay(modules, target < 0.0, locked)
    ensures ModuleCapacities(modules, target, locked).Some?
    ensures var capacities := ModuleCapacities(modules, target, locked).value;
            var targets := WattsOf(Allocated(target, capacities, SocWeighted));
            && |targets| == |modules|
            && (forall k :: 0 <= k < |modules| ==> SharesFor(modules[k], targets[k], locked).Ok?)
            && Delivers(Along(target, Sum(RackTotals(modules, targets, locked))),
                        Min(Abs(target), Sum(CapsOf(capacities))),
                        Slack(|modules| + 1))
  {
    ReportedCapacities(modules, target, locked);
    var capacities := ModuleCapacities(modules, target, locked).value;
    InPlayEligible(modules, target, locked, capacities);
    AllEligible(capacities);
    AllocationDelivers(target, capacities, SocWeighted);
    var shares := Allocated(target, capacities, SocWeighted);
    var targets := WattsOf(shares);
    var totals := RackTotals(modules, targets, locked);
    forall k | 0 <= k < |modules|
      ensures SharesFor(modules[k], targets[k], locked).Ok?
      ensures Delivers(AlongAll(target, totals)[k], AlongAll(target, targets)[k], EPSILON)
    {
      assert targets[k] == shares[k].watts;
      ModuleDeliversShare(modules[k], target, targets[k], locked);
    }
    SumDelivers(AlongAll(target, totals), AlongAll(target, targets));
    SumAlong(target, totals);
    SumAlong(target, targets);
  }
}
