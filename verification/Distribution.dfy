/** From a module's target to a share for each of its racks, and from a site
    target to its modules. The cache is a value: for each rack the readings it
    holds, with their ages. */
module Distribution {
  import opened Numbers
  import opened Allocation

  /** A reading older than this counts as missing. */
  const STALE_AFTER: Seconds := 5.0

  /** A cached value; `None` when it is not a number. */
  datatype Reading = Reading(value: Option<real>, age: Seconds)

  /** A cached operating state; `None` when it names no known state. */
  datatype StateReading = StateReading(state: Option<OperatingState>, age: Seconds)

  /** What the cache holds for one rack. */
  datatype Telemetry = Telemetry(
    state: Option<StateReading>,
    soc: Option<Reading>,
    maxCharge: Option<Reading>,
    maxDischarge: Option<Reading>
  )

  datatype Rack = Rack(deviceId: string, powerMin: real, powerMax: real, telemetry: Telemetry)

  /** A module's distribute binding, its effective reserve floor and its own
      cached state of charge. */
  datatype Module = Module(
    deviceId: string,
    racks: seq<Rack>,
    policy: Policy,
    floor: Option<real>,
    powerMin: Option<real>,
    powerMax: Option<real>,
    soc: Option<Reading>
  )

  // ----- one rack

  /** The live limit, if it is fresh and a number. */
  function LiveLimit(limit: Option<Reading>): Option<real> {
    if limit.Some? && limit.value.age <= STALE_AFTER then limit.value.value else None
  }

  /** What the rack can take in the direction asked for. A fresh limit from the
      rack itself can only lower its configured bound. */
  function RackHeadroom(c: Rack, target: real): real {
    var staticBound := if target < 0.0 then Abs(c.powerMin) else c.powerMax;
    match LiveLimit(if target < 0.0 then c.telemetry.maxCharge else c.telemetry.maxDischarge)
    case None => staticBound
    case Some(limit) => Min(staticBound, Max(limit, 0.0))
  }

  function ResolveChild(c: Rack, target: real): Result<ChildCapacity> {
    var t := c.telemetry;
    if t.state.None? then Err("no cached operating_state")
    else if t.soc.None? then Err("no cached state_of_charge")
    else if t.soc.value.value.None? then Err("state_of_charge")
    else
      var quiet := t.state.value.age > STALE_AFTER || t.soc.value.age > STALE_AFTER;
      if !quiet && t.state.value.state.None? then Err("unknown operating_state")
      else
        var state := if quiet then Offline else t.state.value.state.value;
        Ok(ChildCapacity(c.deviceId, state, RackHeadroom(c, target), t.soc.value.value.value))
  }

  /** The reserve floor takes a rack out of discharging, and never out of charging. */
  function ApplyReserveFloor(floor: Option<real>, child: ChildCapacity, target: real): ChildCapacity {
    if floor.Some? && target > 0.0 && child.stateOfCharge <= floor.value then child.(headroom := 0.0) else child
  }

  // ----- one module

  function Unlocked(racks: seq<Rack>, locked: set<string>): (r: seq<Rack>)
    ensures forall c :: c in r <==> c in racks && c.deviceId !in locked
  {
    if racks == [] then []
    else
      var front, c := Unlocked(racks[..|racks| - 1], locked), racks[|racks| - 1];
      if c.deviceId in locked then front else front + [c]
  }

  /** The racks' capacities, or the first rack's error. */
  function Capacities(racks: seq<Rack>, floor: Option<real>, target: real): (r: Result<seq<ChildCapacity>>)
    ensures r.Ok? ==> |r.value| == |racks|
  {
    if racks == [] then Ok([])
    else
      var front := Capacities(racks[..|racks| - 1], floor, target);
      if front.Err? then front
      else
        var child := ResolveChild(racks[|racks| - 1], target);
        if child.Err? then Err(child.reason)
        else Ok(front.value + [ApplyReserveFloor(floor, child.value, target)])
  }

  predicate Mentions(shares: seq<Share>, id: string) {
    exists s :: s in shares && s.deviceId == id
  }

  /** 0 W for every child the split left out. */
  function WithZeros(shares: seq<Share>, children: seq<ChildCapacity>): seq<Share> {
    if children == [] then shares
    else
      var rest, id := WithZeros(shares, children[..|children| - 1]), children[|children| - 1].deviceId;
      if Mentions(rest, id) then rest else rest + [Share(id, 0.0)]
  }

  function SharesFor(m: Module, target: real, locked: set<string>): Result<seq<Share>> {
    var children := Capacities(Unlocked(m.racks, locked), m.floor, target);
    if children.Err? then Err(children.reason)
    else Ok(WithZeros(Allocated(target, children.value, m.policy), children.value))
  }

  method ComputeShares(m: Module, target: real, locked: set<string>) returns (r: Result<seq<Share>>)
    ensures r == SharesFor(m, target, locked)
  {
    var children := Capacities(Unlocked(m.racks, locked), m.floor, target);
    if children.Err? { return Err(children.reason); }
    var shares := Allocate(target, children.value, m.policy);
    ghost var split := shares;
    for k := 0 to |children.value|
      invariant shares == WithZeros(split, children.value[..k])
    {
      assert children.value[..k + 1][..k] == children.value[..k];
      var id := children.value[k].deviceId;
      if !exists s :: s in shares && s.deviceId == id {
        shares := shares + [Share(id, 0.0)];
      }
    }
    assert children.value[..|children.value|] == children.value;
    return Ok(shares);
  }

  // ----- the site's modules

  /** Module headroom: its own bound, and no more than its unlocked racks have. */
  function ModuleHeadroom(m: Module, target: real, locked: set<string>): real
    requires m.powerMin.Some? && m.powerMax.Some?
  {
    var staticBound := if target < 0.0 then Abs(m.powerMin.value) else m.powerMax.value;
    if m.racks == [] then staticBound else Min(staticBound, Sum(RackHeadrooms(Unlocked(m.racks, locked), target)))
  }

  function RackHeadrooms(racks: seq<Rack>, target: real): (r: seq<real>)
    ensures |r| == |racks|
  {
    seq(|racks|, i requires 0 <= i < |racks| => RackHeadroom(racks[i], target))
  }

  predicate Dispatchable(m: Module, locked: set<string>) {
    m.deviceId !in locked && m.powerMin.Some? && m.powerMax.Some?
  }

  /** Capacity of every module not locked out and with resolvable bounds; `None`
      as soon as one of them has no state of charge. */
  function ModuleCapacities(modules: seq<Module>, target: real, locked: set<string>): Option<seq<ChildCapacity>> {
    if modules == [] then Some([])
    else
      var front, m := ModuleCapacities(modules[..|modules| - 1], target, locked), modules[|modules| - 1];
      if front.None? || !Dispatchable(m, locked) then front
      else if m.soc.None? || m.soc.value.value.None? then None
      else
        var child := ChildCapacity(m.deviceId, Standby, ModuleHeadroom(m, target, locked), m.soc.value.value.value);
        Some(front.value + [child])
  }

  method ModulesWithBounds(modules: seq<Module>, target: real,
          locked: set<string>) returns (r: Option<seq<ChildCapacity>>)
    ensures r == ModuleCapacities(modules, target, locked)
  {
    var found: seq<ChildCapacity> := [];
    for k := 0 to |modules|
      invariant ModuleCapacities(modules[..k], target, locked) == Some(found)
    {
      assert modules[..k + 1][..k] == modules[..k];
      var m := modules[k];
      if m.deviceId in locked || m.powerMin.None? || m.powerMax.None? { continue; }
      if m.soc.None? || m.soc.value.value.None? {
        NoneIsFinal(modules, target, locked, k + 1);
        return None;
      }
      found := found + [ChildCapacity(m.deviceId, Standby, ModuleHeadroom(m, target, locked), m.soc.value.value.value)];
    }
    assert modules[..|modules|] == modules;
    return Some(found);
  }

  /** The site's split waits exactly for the modules that take part to report a
      state of charge. */
  lemma {:induction false} ModulesWhenReported(modules: seq<Module>, target: real, locked: set<string>)
    ensures ModuleCapacities(modules, target, locked).Some? <==>
            forall m :: m in modules && m.deviceId !in locked && m.powerMin.Some? && m.powerMax.Some? ==>
              m.soc.Some? && m.soc.value.value.Some?
  {
    if modules != [] {
      var front, m := modules[..|modules| - 1], modules[|modules| - 1];
      ModulesWhenReported(front, target, locked);
      assert modules == front + [m];
    }
  }

  /** A site target is split over exactly the modules that are not locked out and
      have both bounds. */
  lemma {:induction false} ModulesTakingPart(modules: seq<Module>, target: real, locked: set<string>, id: string)
    requires ModuleCapacities(modules, target, locked).Some?
    ensures (exists c :: c in ModuleCapacities(modules, target, locked).value && c.deviceId == id) <==>
            exists m :: m in modules && m.deviceId == id && id !in locked && m.powerMin.Some? && m.powerMax.Some?
  {
    if modules != [] {
      var front, m := modules[..|modules| - 1], modules[|modules| - 1];
      ModulesTakingPart(front, target, locked, id);
      assert modules == front + [m];
      var before, all := ModuleCapacities(front, target, locked).value, ModuleCapacities(modules, target, locked).value;
      if m.deviceId !in locked && m.powerMin.Some? && m.powerMax.Some? {
        assert all == before + [all[|all| - 1]];
      } else {
        assert all == before;
      }
    }
  }

  lemma {:induction false} NoneIsFinal(modules: seq<Module>, target: real, locked: set<string>, k: nat)
    requires k <= |modules| && ModuleCapacities(modules[..k], target, locked) == None
    ensures ModuleCapacities(modules, target, locked) == None
  {
    if k == |modules| {
      assert modules[..k] == modules;
    } else {
      assert modules[..|modules| - 1][..k] == modules[..k];
      NoneIsFinal(modules[..|modules| - 1], target, locked, k);
    }
  }

  // ----- who gets a share

  lemma {:induction false} CapacityOf(racks: seq<Rack>, floor: Option<real>, target: real)
    requires Capacities(racks, floor, target).Ok?
    ensures var children := Capacities(racks, floor, target).value;
            forall i :: 0 <= i < |racks| ==>
              && ResolveChild(racks[i], target).Ok?
              && children[i] == ApplyReserveFloor(floor, ResolveChild(racks[i], target).value, target)
              && children[i].deviceId == racks[i].deviceId
  {
    if racks != [] { CapacityOf(racks[..|racks| - 1], floor, target); }
  }

  lemma {:induction false} ZerosMention(shares: seq<Share>, children: seq<ChildCapacity>)
    ensures forall c :: c in children ==> Mentions(WithZeros(shares, children), c.deviceId)
    ensures forall s :: s in shares ==> s in WithZeros(shares, children)
    ensures forall s :: s in WithZeros(shares, children) ==>
            s in shares || (s.watts == 0.0 && exists c :: c in children && c.deviceId == s.deviceId)
  {
    if children != [] {
      var front, c := children[..|children| - 1], children[|children| - 1];
      ZerosMention(shares, front);
      var r := WithZeros(shares, children);
      assert Mentions(r, c.deviceId) by {
        if !Mentions(WithZeros(shares, front), c.deviceId) { assert Share(c.deviceId, 0.0) in r; }
      }
      forall x | x in children ensures Mentions(r, x.deviceId) {
        if x in front {
          var s :| s in WithZeros(shares, front) && s.deviceId == x.deviceId;
          assert s in r;
        }
      }
    }
  }

  /** A share goes only to a child, and the split names only its children. */
  lemma ShareHasChild(target: real, children: seq<ChildCapacity>, policy: Policy, s: Share)
    requires s in WithZeros(Allocated(target, children, policy), children)
    ensures exists c :: c in children && c.deviceId == s.deviceId
  {
    var split := Allocated(target, children, policy);
    ZerosMention(split, children);
    if s in split {
      var i :| 0 <= i < |split| && split[i] == s;
      assert EligibleOf(children)[i] in EligibleOf(children);
    }
  }

  /** Children and racks stand for the same devices. */
  lemma ChildrenAreRacks(racks: seq<Rack>, floor: Option<real>, target: real, id: string)
    requires Capacities(racks, floor, target).Ok?
    ensures (exists c :: c in Capacities(racks, floor, target).value && c.deviceId == id) <==>
            exists c :: c in racks && c.deviceId == id
  {
    var children := Capacities(racks, floor, target).value;
    CapacityOf(racks, floor, target);
    if c :| c in children && c.deviceId == id {
      var k :| 0 <= k < |children| && children[k] == c;
      assert racks[k] in racks && racks[k].deviceId == id;
    }
    if c :| c in racks && c.deviceId == id {
      var k :| 0 <= k < |racks| && racks[k] == c;
      assert children[k] in children && children[k].deviceId == id;
    }
  }

  /** Exactly the unlocked racks get a share: a locked one is left out entirely,
      and an unlocked one is told something, 0 W if it can take nothing. */
  lemma SharesCoverUnlocked(m: Module, target: real, locked: set<string>, id: string)
    requires SharesFor(m, target, locked).Ok?
    ensures Mentions(SharesFor(m, target, locked).value, id) <==>
            id !in locked && exists c :: c in m.racks && c.deviceId == id
  {
    var racks, shares := Unlocked(m.racks, locked), SharesFor(m, target, locked).value;
    var children := Capacities(racks, m.floor, target).value;
    ChildrenAreRacks(racks, m.floor, target, id);
    if s :| s in shares && s.deviceId == id {
      ShareHasChild(target, children, m.policy, s);
    }
    if c :| c in children && c.deviceId == id {
      ZerosMention(Allocated(target, children, m.policy), children);
      assert Mentions(shares, c.deviceId);
    }
  }

  // ----- which modules can be split at all

  /** A rack a split can place: both readings are there, its state of charge is a
      number, and its state is a known one or too old to matter. */
  predicate Heard(c: Rack) {
    var t := c.telemetry;
    && t.state.Some? && t.soc.Some? && t.soc.value.value.Some?
    && (t.state.value.age > STALE_AFTER || t.soc.value.age > STALE_AFTER || t.state.value.state.Some?)
  }

  ghost predicate AllHeard(racks: seq<Rack>) {
    forall c :: c in racks ==> Heard(c)
  }

  lemma {:induction false} CapacitiesWhenHeard(racks: seq<Rack>, floor: Option<real>, target: real)
    ensures Capacities(racks, floor, target).Ok? <==> AllHeard(racks)
  {
    if racks != [] {
      var front, c := racks[..|racks| - 1], racks[|racks| - 1];
      CapacitiesWhenHeard(front, floor, target);
      assert racks == front + [c];
      assert ResolveChild(c, target).Ok? <==> Heard(c);
    }
  }

  /** Whatever the target, a module is split exactly if every unlocked rack is heard. */
  lemma SharesWhenHeard(m: Module, target: real, locked: set<string>)
    ensures SharesFor(m, target, locked).Ok? <==> forall c :: c in m.racks && c.deviceId !in locked ==> Heard(c)
  {
    CapacitiesWhenHeard(Unlocked(m.racks, locked), m.floor, target);
  }
}
