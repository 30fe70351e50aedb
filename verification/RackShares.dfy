/** What one rack may be told, from its own readings and bounds alone. */
module RackShares {
  import opened Numbers
  import opened Allocation
  import opened Distribution
  import opened Conservation
  import opened Rebalance

  /** States of charge the policy reads are percentages. */
  ghost predicate PercentRacks(m: Module) {
    m.policy == SocWeighted ==>
      forall c :: c in m.racks && c.telemetry.soc.Some? && c.telemetry.soc.value.value.Some? ==>
        0.0 <= c.telemetry.soc.value.value.value <= 100.0
  }

  lemma ChildOf(racks: seq<Rack>, floor: Option<real>, target: real, i: nat)
    requires Capacities(racks, floor, target).Ok? && i < |racks|
    ensures ResolveChild(racks[i], target).Ok?
    ensures Capacities(racks, floor, target).value[i] ==
            ApplyReserveFloor(floor, ResolveChild(racks[i], target).value, target)
  {
    CapacityOf(racks, floor, target);
  }

  lemma ChildCharge(c: Rack, floor: Option<real>, target: real)
    requires ResolveChild(c, target).Ok?
    ensures var soc := c.telemetry.soc;
            soc.Some? && soc.value.value == Some(ApplyReserveFloor(floor, ResolveChild(c, target).value,
                                                                   target).stateOfCharge)
  {
  }

  lemma PercentChildren(m: Module, target: real, locked: set<string>)
    requires PercentRacks(m) && Capacities(Unlocked(m.racks, locked), m.floor, target).Ok?
    ensures Weighable(m.policy, Capacities(Unlocked(m.racks, locked), m.floor, target).value)
  {
    var racks := Unlocked(m.racks, locked);
    var children := Capacities(racks, m.floor, target).value;
    if m.policy == SocWeighted {
      forall c | c in children ensures 0.0 <= c.stateOfCharge <= 100.0 {
        var i :| 0 <= i < |children| && children[i] == c;
        ChildOf(racks, m.floor, target, i);
        ChildCharge(racks[i], m.floor, target);
        assert racks[i] in racks;
      }
    }
  }

  /** A child's share is the one the split gave it, or 0 W. */
  lemma ShareOfChild(target: real, children: seq<ChildCapacity>, policy: Policy, c: ChildCapacity, s: Share)
    requires DistinctChildren(children) && c in children && s.deviceId == c.deviceId
    requires s in WithZeros(Allocated(target, children, policy), children)
    ensures s.watts == 0.0 ||
            exists j :: 0 <= j < |EligibleOf(children)| && EligibleOf(children)[j] == c &&
              Allocated(target, children, policy)[j] == s
  {
    var split, eligible := Allocated(target, children, policy), EligibleOf(children);
    ZerosMention(split, children);
    if s in split {
      var j :| 0 <= j < |split| && split[j] == s;
      assert eligible[j] in eligible && eligible[j].deviceId == s.deviceId;
    }
  }

  /** A child out of service is told 0 W, any other no more than its headroom. */
  lemma ShareWithinHeadroom(target: real, children: seq<ChildCapacity>, policy: Policy, c: ChildCapacity, s: Share)
    requires DistinctChildren(children) && c in children && s.deviceId == c.deviceId
    requires s in WithZeros(Allocated(target, children, policy), children)
    ensures !c.state.Eligible() ==> s.watts == 0.0
    ensures Weighable(policy, children) ==> 0.0 <= Along(target, s.watts) <= Max(c.headroom, 0.0)
  {
    var split, eligible := Allocated(target, children, policy), EligibleOf(children);
    ShareOfChild(target, children, policy, c, s);
    if s.watts != 0.0 {
      var j :| 0 <= j < |eligible| && eligible[j] == c && split[j] == s;
      assert eligible[j] in eligible;
      if Weighable(policy, children) { AllocationDelivers(target, children, policy); }
    }
  }

  /** The rack's state or state of charge is more than five seconds old, or its
      state is a fault or offline. */
  predicate OutOfService(c: Rack) {
    var t := c.telemetry;
    || (t.state.Some? && (t.state.value.age > 5.0 || t.state.value.state == Some(Fault) ||
                          t.state.value.state == Some(Offline)))
    || (t.soc.Some? && t.soc.value.age > 5.0)
  }

  /** A limit read from the rack in the last five seconds. */
  predicate Recent(limit: Option<Reading>) {
    limit.Some? && limit.value.age <= 5.0 && limit.value.value.Some?
  }

  /** A rack can take `watts` of discharge if its configured bound allows them and
      no recent limit of its own forbids them; likewise charge. */
  predicate MayDischarge(c: Rack, watts: real) {
    && watts <= c.powerMax
    && (Recent(c.telemetry.maxDischarge) ==> watts <= Max(c.telemetry.maxDischarge.value.value.value, 0.0))
  }

  predicate MayCharge(c: Rack, watts: real) {
    && watts <= Abs(c.powerMin)
    && (Recent(c.telemetry.maxCharge) ==> watts <= Max(c.telemetry.maxCharge.value.value.value, 0.0))
  }

  /** A rack's headroom is the most it can take. */
  lemma HeadroomIsMost(c: Rack, target: real, watts: real)
    ensures watts <= RackHeadroom(c, target) <==> if target < 0.0 then MayCharge(c, watts) else MayDischarge(c, watts)
  {
  }

  /** At or below the reserve floor. */
  predicate AtFloor(c: Rack, floor: Option<real>) {
    floor.Some? && c.telemetry.soc.Some? && c.telemetry.soc.value.value.Some? &&
      c.telemetry.soc.value.value.value <= floor.value
  }

  lemma ResolvedChild(c: Rack, floor: Option<real>, target: real)
    requires ResolveChild(c, target).Ok?
    ensures var child := ApplyReserveFloor(floor, ResolveChild(c, target).value, target);
            && child.deviceId == c.deviceId
            && (child.state.Eligible() <==> !OutOfService(c))
            && (child.headroom == RackHeadroom(c, target) || child.headroom == 0.0)
            && (target > 0.0 && AtFloor(c, floor) ==> child.headroom == 0.0)
  {
  }

  /** For any target, what an unlocked rack is told: 0 W if it is out of service,
      or to discharge at or below the reserve floor; else, in the target's
      direction, no more than its configured bound and its own recent limit. */
  lemma RackShareBounds(m: Module, target: real, locked: set<string>, c: Rack, s: Share)
    requires DistinctRacks(m.racks) && c in m.racks && c.deviceId !in locked
    requires SharesFor(m, target, locked).Ok? && s in SharesFor(m, target, locked).value && s.deviceId == c.deviceId
    ensures OutOfService(c) ==> s.watts == 0.0
    ensures PercentRacks(m) && target > 0.0 && AtFloor(c, m.floor) ==> s.watts == 0.0
    ensures PercentRacks(m) ==>
            if target < 0.0 then s.watts == 0.0 || (s.watts < 0.0 && MayCharge(c, -s.watts))
            else s.watts == 0.0 || (s.watts > 0.0 && MayDischarge(c, s.watts))
  {
    var racks := Unlocked(m.racks, locked);
    var children := Capacities(racks, m.floor, target).value;
    var i :| 0 <= i < |racks| && racks[i] == c;
    UnlockedDistinct(m.racks, locked);
    CapacitiesDistinct(racks, m.floor, target);
    ChildOf(racks, m.floor, target, i);
    ResolvedChild(c, m.floor, target);
    ShareWithinHeadroom(target, children, m.policy, children[i], s);
    if PercentRacks(m) { PercentChildren(m, target, locked); }
    HeadroomIsMost(c, target, Abs(s.watts));
  }

  // ----- modules

  lemma {:induction false} HeadroomsSum(racks: seq<Rack>, target: real, rooms: seq<real>)
    requires |rooms| == |racks| && forall i :: 0 <= i < |racks| ==> rooms[i] == RackHeadroom(racks[i], target)
    ensures Sum(RackHeadrooms(racks, target)) == Sum(rooms)
  {
    assert RackHeadrooms(racks, target) == rooms;
  }

  /** A module's headroom is the most its own configured bound allows and its
      unlocked racks can take together. */
  lemma ModuleHeadroomIsMost(m: Module, target: real, locked: set<string>, watts: real, rooms: seq<real>)
    requires m.powerMin.Some? && m.powerMax.Some? && |rooms| == |Unlocked(m.racks, locked)|
    requires forall i, x: real :: 0 <= i < |rooms| ==>
               (x <= rooms[i] <==> if target < 0.0 then MayCharge(Unlocked(m.racks, locked)[i], x)
                                   else MayDischarge(Unlocked(m.racks, locked)[i], x))
    ensures watts <= ModuleHeadroom(m, target, locked) <==>
            && watts <= (if target < 0.0 then Abs(m.powerMin.value) else m.powerMax.value)
            && (m.racks != [] ==> watts <= Sum(rooms))
  {
    var racks := Unlocked(m.racks, locked);
    forall i | 0 <= i < |racks| ensures rooms[i] == RackHeadroom(racks[i], target) {
      HeadroomIsMost(racks[i], target, rooms[i]);
      HeadroomIsMost(racks[i], target, RackHeadroom(racks[i], target));
    }
    HeadroomsSum(racks, target, rooms);
  }
}
