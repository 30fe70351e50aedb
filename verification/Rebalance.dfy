/** One rebalance tick of a module: steer the target with the envelope
    controller, make it 0 W if an energize control forbids power, split it over the
    racks, pull the controller back to what the split delivers, and write the
    planned shares. */
module Rebalance {
  import opened Numbers
  import opened Allocation
  import opened Distribution
  import opened Conservation
  import opened ControlLaw
  import opened WriteOrder
  import opened Writes
  import G = PoiGate

  /** A command may differ from what is delivered by this much, W. */
  const DELIVERY_TOLERANCE: real := 1.0

  /** The envelope guard of a module; without one the request is the target. */
  datatype Guard = Guard(control: Config, powerMin: real, powerMax: real, hasPoiMeter: bool)

  datatype PoiReading = PoiReading(power: real, receivedAt: real, age: Seconds)

  /** What one tick reads. `requested` is the setpoint to steer toward, and
      `failsAt` the planned write that fails, if one does. */
  datatype Inputs = Inputs(
    requested: real,
    activePower: Option<real>,
    poi: Option<PoiReading>,
    importLimit: Option<real>,
    exportLimit: Option<real>,
    dt: Seconds,
    energize: Option<real>,
    rackModule: Module,
    locked: set<string>,
    failsAt: Option<nat>,
    now: real
  )

  /** The task's state, and what each rack holds. */
  datatype Task = Task(ctrl: Option<State>, memory: Memory, devices: map<string, real>)

  /** Whether the controller can be ticked at all. */
  predicate Ready(guard: Guard, x: Inputs) {
    x.activePower.Some? && (guard.hasPoiMeter ==> x.poi.Some?)
  }

  /** The POI reading this tick uses; a meter that is not configured has none. */
  function Seen(guard: Guard, x: Inputs): Option<PoiReading> {
    if guard.hasPoiMeter then x.poi else None
  }

  function Taken(guard: Guard, gate: G.Gate, x: Inputs): G.Gate {
    if Seen(guard, x).None? then gate else gate.Took(Seen(guard, x).value.receivedAt)
  }

  function TickFor(guard: Guard, gate: G.Gate, x: Inputs): Tick
    requires Ready(guard, x)
  {
    var poi := Seen(guard, x);
    Tick(x.importLimit, x.exportLimit, x.activePower.value, x.requested,
         if poi.None? then None else Some(poi.value.power),
         poi.None? || gate.IsFresh(poi.value.receivedAt),
         poi.Some? && Taken(guard, gate, x).Holds(),
         guard.powerMin, guard.powerMax, x.dt)
  }

  /** The controller after its tick; built on its first one, from the reading. */
  function Steered(guard: Guard, ctrl: Option<State>, gate: G.Gate, x: Inputs): State
    requires Ready(guard, x)
  {
    var s := if ctrl.Some? then ctrl.value else Initial(x.activePower.value);
    var poi := Seen(guard, x);
    if poi.Some? && poi.value.age > STALE_AFTER then
      RampedToZero(guard.control, s, guard.powerMin, guard.powerMax, x.dt)
    else Next(guard.control, s, TickFor(guard, gate, x))
  }

  /** 0 W while an energize control in force says false; absent is permissive. */
  function Energized(target: real, energize: Option<real>): real {
    if energize.Some? && energize.value < 0.5 then 0.0 else target
  }

  function Delivered(shares: seq<Share>): real {
    Sum(WattsOf(shares))
  }

  /** The second half of a tick, from the steered target on. */
  function Distributed(t: Task, target: real, x: Inputs): Task {
    var shares := SharesFor(x.rackModule, target, x.locked);
    if shares.Err? then t
    else
      var delivered := Delivered(shares.value);
      var synced := if t.ctrl.Some? && Abs(delivered - target) > DELIVERY_TOLERANCE
                    then t.(ctrl := Some(t.ctrl.value.(output := delivered))) else t;
      WrittenOut(synced, shares.value, x)
  }

  /** How many of `count` writes land. */
  function Landing(count: nat, failsAt: Option<nat>): (r: nat)
    ensures r <= count
  {
    if failsAt.Some? && failsAt.value < count then failsAt.value else count
  }

  function WrittenOut(t: Task, shares: seq<Share>, x: Inputs): Task {
    var writes, memory := PlannedWrites(t.memory, shares), Planned(t.memory, shares);
    var landing := Landing(|writes|, x.failsAt);
    t.(devices := Apply(t.devices, writes[..landing]),
       memory := if landing == |writes| && writes != [] then Landed(memory, PlanFor(t.memory, shares), x.now)
         else memory)
  }

  function Ticked(guard: Option<Guard>, t: Task, x: Inputs): Task {
    match guard
    case None => Distributed(t, Energized(x.requested, x.energize), x)
    case Some(g) =>
      if !Ready(g, x) then t
      else
        var s := Steered(g, t.ctrl, t.memory.gate, x);
        Distributed(t.(ctrl := Some(s), memory := t.memory.(gate := Taken(g, t.memory.gate, x))),
          Energized(s.output, x.energize), x)
  }

  class RebalanceTask {
    const guard: Option<Guard>
    var controller: EnvelopeController?
    const writes: WriteState
    var devices: map<string, real>

    ghost function View(): Task
      reads this, controller, writes, writes.gate
    {
      Task(if controller == null then None else Some(controller.View()), writes.View(), devices)
    }

    ghost predicate Valid()
      reads this, controller
    {
      controller != null ==> guard.Some? && controller.config == guard.value.control
    }

    constructor (guard: Option<Guard>, devices: map<string, real>)
      ensures Valid() && this.guard == guard
      ensures View() == Task(None, Memory(map[], false, G.Gate(None, G.Idle)), devices)
      ensures fresh(writes) && fresh(writes.gate) && controller == null
    {
      this.guard := guard;
      this.devices := devices;
      controller := null;
      writes := new WriteState();
    }

    method TickOnce(x: Inputs)
      requires Valid()
      modifies this, controller, writes, writes.gate
      ensures Valid()
      ensures View() == Ticked(guard, old(View()), x)
    {
      var target := x.requested;
      if guard.Some? {
        var g := guard.value;
        if !Ready(g, x) { return; }
        target := Steer(g, x);
      }
      target := Energized(target, x.energize);
      Distribute(target, x);
    }

    /** Tick the controller; its output is the target whether or not it changed. */
    method Steer(g: Guard, x: Inputs) returns (target: real)
      requires Valid() && guard == Some(g) && Ready(g, x)
      modifies this`controller, controller, writes.gate
      ensures Valid() && controller != null
      ensures if old(controller) == null then fresh(controller) else controller == old(controller)
      ensures View() == old(View()).(ctrl := Some(Steered(g, old(View()).ctrl, old(View()).memory.gate, x)),
                                     memory := old(View()).memory.(gate := Taken(g, old(View()).memory.gate, x)))
      ensures target == controller.currentOutput
    {
      ghost var before := View();
      var poi := Seen(g, x);
      var isFresh, hold := true, false;
      if poi.Some? {
        isFresh, hold := writes.gate.Take(poi.value.receivedAt);
      }
      if controller == null {
        controller := new EnvelopeController(g.control, x.activePower.value);
      }
      if poi.Some? && poi.value.age > STALE_AFTER {
        controller.RampToZero(g.powerMin, g.powerMax, x.dt);
      } else {
        var t := Tick(x.importLimit, x.exportLimit, x.activePower.value, x.requested,
                      if poi.None? then None else Some(poi.value.power), isFresh, hold, g.powerMin, g.powerMax, x.dt);
        assert t == TickFor(g, before.memory.gate, x);
        var _ := controller.Advance(t);
      }
      target := controller.currentOutput;
    }

    /** Split the target, keep the controller to what is delivered, and write. */
    method Distribute(target: real, x: Inputs)
      requires Valid()
      modifies this`devices, controller, writes, writes.gate
      ensures Valid()
      ensures View() == Distributed(old(View()), target, x)
    {
      var shares := ComputeShares(x.rackModule, target, x.locked);
      if shares.Err? { return; }
      var delivered := Delivered(shares.value);
      if controller != null && Abs(delivered - target) > DELIVERY_TOLERANCE {
        controller.SyncToDelivered(delivered);
      }
      WriteOut(shares.value, x);
    }

    /** Plan the writes, send them, and record them if they all landed. */
    method WriteOut(shares: seq<Share>, x: Inputs)
      modifies this`devices, writes, writes.gate
      ensures View() == WrittenOut(old(View()), shares, x)
    {
      WrittenOutIs(View(), shares, x);
      var plan := writes.MakePlan(shares);
      if plan.None? { return; }
      var landed := WriteShares(plan.value.writes, x.failsAt);
      if landed {
        writes.RecordLanded(plan.value, x.now);
      }
    }

    /** Writes land in order up to the one that fails, and are not undone. */
    method WriteShares(planned: seq<Share>, failsAt: Option<nat>) returns (landed: bool)
      modifies this`devices
      ensures devices == Apply(old(devices), planned[..Landing(|planned|, failsAt)])
      ensures landed <==> Landing(|planned|, failsAt) == |planned|
    {
      for k := 0 to |planned|
        invariant devices == Apply(old(devices), planned[..k])
        invariant failsAt.Some? ==> k <= failsAt.value
      {
        if failsAt == Some(k) { return false; }
        assert planned[..k + 1][..k] == planned[..k];
        devices := devices[planned[k].deviceId := planned[k].watts];
      }
      return true;
    }
  }

  lemma WrittenOutIs(t: Task, shares: seq<Share>, x: Inputs)
    ensures var writes, planned := PlannedWrites(t.memory, shares), Planned(t.memory, shares);
            var landing := Landing(|writes|, x.failsAt);
            && (writes == [] ==> WrittenOut(t, shares, x) == t.(memory := planned))
            && (writes != [] && landing == |writes| ==>
                  WrittenOut(t, shares, x) == t.(devices := Apply(t.devices, writes[..landing]),
                                                 memory := Landed(planned, PlanFor(t.memory, shares), x.now)))
            && (writes != [] && landing < |writes| ==>
                  WrittenOut(t, shares, x) == t.(devices := Apply(t.devices, writes[..landing]), memory := planned))
  {
  }

  // ----- anti-windup over whole runs

  /** The children a tick can split over. */
  function Children(x: Inputs, target: real): Result<seq<ChildCapacity>> {
    Capacities(Unlocked(x.rackModule.racks, x.locked), x.rackModule.floor, target)
  }

  /** Whatever the target, the eligible children of a tick whose racks are heard
      can deliver at most `capacity`, and have a percentage for a state of charge
      if the policy reads it. */
  ghost predicate Deliverable(x: Inputs, capacity: real) {
    forall target: real ::
      var children := Children(x, target);
      children.Ok? ==>
        && Weighable(x.rackModule.policy, children.value)
        && Sum(CapsOf(EligibleOf(children.value))) <= capacity
  }

  ghost predicate NotDeenergized(x: Inputs) {
    x.energize.Some? ==> x.energize.value >= 0.5
  }

  lemma DeliveredWithinCapacity(x: Inputs, target: real, capacity: real)
    requires Deliverable(x, capacity) && SharesFor(x.rackModule, target, x.locked).Ok?
    ensures Abs(Delivered(SharesFor(x.rackModule, target, x.locked).value)) <= capacity
  {
    var children := Children(x, target).value;
    AllocationDelivers(target, children, x.rackModule.policy);
    var split := Allocated(target, children, x.rackModule.policy);
    ZerosAddNothing(split, children);
    forall i | 0 <= i < |split| ensures 0.0 <= AlongAll(target, WattsOf(split))[i] {
      assert WattsOf(split)[i] == split[i].watts;
    }
    SumZero(Zeros(|split|));
    SumOrder(Zeros(|split|), AlongAll(target, WattsOf(split)));
    SumAlong(target, WattsOf(split));
  }

  /** The output a ready tick steers to, before it looks at what is delivered. */
  function SteeredOutput(guard: Guard, t: Task, x: Inputs): real
    requires Ready(guard, x)
  {
    Steered(guard, t.ctrl, t.memory.gate, x).output
  }

  /** The shares a ready tick tells the racks, or their error. */
  function Told(guard: Guard, t: Task, x: Inputs): Result<seq<Share>>
    requires Ready(guard, x)
  {
    SharesFor(x.rackModule, Energized(SteeredOutput(guard, t, x), x.energize), x.locked)
  }

  lemma {:induction false} ZeroDelivers(x: Inputs)
    requires SharesFor(x.rackModule, 0.0, x.locked).Ok?
    ensures Delivered(SharesFor(x.rackModule, 0.0, x.locked).value) == 0.0
  {
    var shares := SharesFor(x.rackModule, 0.0, x.locked).value;
    ZeroTargetZeroShares(x.rackModule, x.locked);
    forall i | 0 <= i < |shares| ensures WattsOf(shares)[i] == 0.0 { assert shares[i] in shares; }
    SumZero(WattsOf(shares));
  }

  /** What a ready tick leaves as the controller's output. */
  lemma OutputAfterTick(guard: Guard, t: Task, x: Inputs)
    requires Ready(guard, x)
    ensures var t', steered := Ticked(Some(guard), t, x), SteeredOutput(guard, t, x);
            && t'.ctrl.Some?
            && (Told(guard, t, x).Err? ==> t'.ctrl.value.output == steered)
            && (Told(guard, t, x).Ok? ==>
                  var delivered := Delivered(Told(guard, t, x).value);
                  t'.ctrl.value.output ==
                    if Abs(delivered - Energized(steered, x.energize)) > DELIVERY_TOLERANCE then delivered else steered)
  {
  }

  /** After a tick whose racks have all reported, the controller commands what
      they were told, to within the tolerance, exactly if the tick was not
      de-energized or it was steering to within the tolerance of 0 W anyway: the
      comparison is with the target after the energize gate, not before. */
  lemma SyncedAfterTick(guard: Guard, t: Task, x: Inputs)
    requires Ready(guard, x) && Told(guard, t, x).Ok?
    ensures var t' := Ticked(Some(guard), t, x);
            && t'.ctrl.Some?
            && (Abs(t'.ctrl.value.output - Delivered(Told(guard, t, x).value)) <= 1.0 <==>
                  NotDeenergized(x) || Abs(SteeredOutput(guard, t, x)) <= 1.0)
  {
    OutputAfterTick(guard, t, x);
    if !NotDeenergized(x) { ZeroDelivers(x); }
  }

  /** Where it fails: any request inside the rating, while de-energized, with no
      limits and racks that can deliver nothing, stands as the output. */
  lemma WindsUpDeenergized(guard: Guard, x: Inputs, devices: map<string, real>)
    requires !guard.hasPoiMeter && x.importLimit.None? && x.exportLimit.None? && x.activePower.Some?
    requires guard.powerMin <= x.requested <= guard.powerMax && Abs(x.requested - x.activePower.value) >= EPSILON
    requires !NotDeenergized(x) && SharesFor(x.rackModule, 0.0, x.locked).Ok?
    ensures var start := Task(None, Memory(map[], false, G.Gate(None, G.Idle)), devices);
            && Ticked(Some(guard), start, x).ctrl.value.output == x.requested
            && Delivered(SharesFor(x.rackModule, 0.0, x.locked).value) == 0.0
  {
    var start := Task(None, Memory(map[], false, G.Gate(None, G.Idle)), devices);
    OutputAfterTick(guard, start, x);
    ZeroDelivers(x);
    FreeRequest(guard.control, Initial(x.activePower.value), TickFor(guard, start.memory.gate, x));
  }

  lemma FreeRequest(cfg: Config, s: State, t: Tick)
    requires t.poi.None? && t.importLimit.None? && t.exportLimit.None? && s.mode == Normal
    requires t.powerMin <= t.requested <= t.powerMax && Abs(t.requested - s.output) >= EPSILON
    ensures Next(cfg, s, t).output == t.requested
  {
  }

  // ----- whole runs

  /** The tick gets as far as a split: no reading it waits for is missing, and
      every unlocked rack is heard. */
  ghost predicate Distributes(guard: Option<Guard>, x: Inputs) {
    && (guard.Some? ==> Ready(guard.value, x))
    && forall c :: c in x.rackModule.racks && c.deviceId !in x.locked ==> Heard(c)
  }

  ghost function RunTask(guard: Option<Guard>, t: Task, xs: seq<Inputs>): Task {
    if xs == [] then t else Ticked(guard, RunTask(guard, t, xs[..|xs| - 1]), xs[|xs| - 1])
  }

  ghost function LastReady(guard: Guard, xs: seq<Inputs>): Option<Inputs> {
    if xs == [] then None
    else if Ready(guard, xs[|xs| - 1]) then Some(xs[|xs| - 1])
    else LastReady(guard, xs[..|xs| - 1])
  }

  /** The run's last ready tick was not de-energized, its racks were heard, and
      they could deliver at most `capacity`. */
  ghost predicate SyncedLast(guard: Guard, xs: seq<Inputs>, capacity: real) {
    var last := LastReady(guard, xs);
    last.Some? && NotDeenergized(last.value) && Distributes(Some(guard), last.value) &&
      Deliverable(last.value, capacity)
  }

  ghost predicate AllDeliverable(xs: seq<Inputs>, capacity: real) {
    forall k :: 0 <= k < |xs| ==> Deliverable(xs[k], capacity)
  }

  /** A rating that spans 0 W and a ramp rate that is not negative. */
  ghost predicate RatedGuard(guard: Guard) {
    guard.control.rampRate >= 0.0 && guard.powerMin <= 0.0 <= guard.powerMax
  }

  lemma RampedNoFarther(cfg: Config, s: State, powerMin: real, powerMax: real, dt: Seconds)
    requires cfg.rampRate >= 0.0 && powerMin <= 0.0 <= powerMax
    ensures var u, u' := s.output, RampedToZero(cfg, s, powerMin, powerMax, dt).output;
            0.0 <= u' <= u || u <= u' <= 0.0
  {
    var rated := if s.output > 0.0 then powerMax else Abs(powerMin);
    assert cfg.rampRate * rated >= 0.0;
    assert cfg.rampRate * rated * dt >= 0.0;
  }

  /** What a limit's ceiling drags the output down to, if it is below the rating. */
  ghost predicate CeilingBelowRating(guard: Guard, t: Task, x: Inputs)
    requires Ready(guard, x)
  {
    var s := if t.ctrl.Some? then t.ctrl.value else Initial(x.activePower.value);
    var ceiling := BoundsFor(s, TickFor(guard, t.memory.gate, x)).ceiling;
    ceiling.Some? && ceiling.value < guard.powerMin
  }

  /** Steering never takes the output above the larger of where it was and the
      rating; nor below, unless a limit's ceiling is below the rating. */
  lemma SteeringStaysWithin(guard: Guard, t: Task, x: Inputs, top: real, bottom: real)
    requires Ready(guard, x) && RatedGuard(guard)
    requires bottom <= guard.powerMin && guard.powerMax <= top
    requires var u := if t.ctrl.Some? then t.ctrl.value.output else x.activePower.value; bottom <= u <= top
    ensures SteeredOutput(guard, t, x) <= top
    ensures CeilingBelowRating(guard, t, x) || bottom <= SteeredOutput(guard, t, x)
  {
    var s := if t.ctrl.Some? then t.ctrl.value else Initial(x.activePower.value);
    var tick := TickFor(guard, t.memory.gate, x);
    RampedNoFarther(guard.control, s, guard.powerMin, guard.powerMax, x.dt);
    OutputMovesTowardTarget(guard.control, s, tick);
    WindowWithinRating(s, tick);
  }

  /** No ready tick of the run has a ceiling below the rating. */
  ghost predicate CeilingsInRating(guard: Guard, t: Task, xs: seq<Inputs>) {
    xs == [] ||
    (var front, x := xs[..|xs| - 1], xs[|xs| - 1];
     && CeilingsInRating(guard, t, front)
     && (Ready(guard, x) ==> !CeilingBelowRating(guard, RunTask(Some(guard), t, front), x)))
  }

  /** Over every run, whatever it did before and however long a violation lasts:
      if the last ready tick was not de-energized and its racks were heard, then
      after it, and through the ticks that were not ready since, the output is at
      most the tolerance past what those racks can deliver. */
  lemma {:induction false} NeverWindsUp(guard: Guard, t: Task, xs: seq<Inputs>, capacity: real)
    requires SyncedLast(guard, xs, capacity)
    ensures var end := RunTask(Some(guard), t, xs);
            end.ctrl.Some? && Abs(end.ctrl.value.output) <= capacity + 1.0
  {
    var front, x := xs[..|xs| - 1], xs[|xs| - 1];
    var before := RunTask(Some(guard), t, front);
    if Ready(guard, x) {
      SharesWhenHeard(x.rackModule, SteeredOutput(guard, before, x), x.locked);
      DeliveredWithinCapacity(x, SteeredOutput(guard, before, x), capacity);
      SyncedAfterTick(guard, before, x);
    } else {
      NeverWindsUp(guard, t, front, capacity);
    }
  }

  ghost predicate Between(bottom: real, u: real, top: real) { bottom <= u <= top }

  /** Readings a controller may be built from. */
  ghost predicate ReadingsWithin(xs: seq<Inputs>, bottom: real, top: real) {
    forall k :: 0 <= k < |xs| && xs[k].activePower.Some? ==> Between(bottom, xs[k].activePower.value, top)
  }

  /** While de-energized, or with a rack not heard, the output can wind up as far
      as the rating, and no farther: over every run it stays between
      any bounds that hold the rating, the deliverable capacity and its
      starting point, as long as no ceiling is below the rating. */
  lemma {:induction false} WindsUpToRatingAtMost(guard: Guard, t: Task, xs: seq<Inputs>, capacity: real,
          bottom: real, top: real)
    requires RatedGuard(guard) && AllDeliverable(xs, capacity) && CeilingsInRating(guard, t, xs)
    requires bottom <= Min(guard.powerMin, -capacity) && Max(guard.powerMax, capacity) <= top
    requires ReadingsWithin(xs, bottom, top) && (t.ctrl.Some? ==> Between(bottom, t.ctrl.value.output, top))
    ensures var end := RunTask(Some(guard), t, xs);
            end.ctrl.Some? ==> Between(bottom, end.ctrl.value.output, top)
  {
    if xs != [] {
      var front, x := xs[..|xs| - 1], xs[|xs| - 1];
      assert forall k :: 0 <= k < |front| ==> front[k] == xs[k];
      WindsUpToRatingAtMost(guard, t, front, capacity, bottom, top);
      var before := RunTask(Some(guard), t, front);
      if Ready(guard, x) {
        assert Between(bottom, x.activePower.value, top);
        SteeringStaysWithin(guard, before, x, top, bottom);
        if Told(guard, before, x).Ok? {
          DeliveredWithinCapacity(x, Energized(SteeredOutput(guard, before, x), x.energize), capacity);
        }
        OutputAfterTick(guard, before, x);
      }
    }
  }

  // ----- the devices and the memory of them

  /** Every child the task remembers holds what it remembers. */
  ghost predicate Agrees(last: map<string, real>, devices: map<string, real>) {
    forall id :: id in last ==> id in devices && devices[id] == last[id]
  }

  /** Whether every write of the tick's plan lands. */
  ghost predicate PlanLands(t: Task, target: real, x: Inputs) {
    var shares := SharesFor(x.rackModule, target, x.locked);
    shares.Ok? ==>
      var count := |PlannedWrites(t.memory, shares.value)|;
      Landing(count, x.failsAt) == count
  }

  ghost predicate TickLands(guard: Option<Guard>, t: Task, x: Inputs) {
    match guard
    case None => PlanLands(t, Energized(x.requested, x.energize), x)
    case Some(g) =>
      Ready(g, x) ==>
        PlanLands(t.(memory := t.memory.(gate := Taken(g, t.memory.gate, x))),
          Energized(SteeredOutput(g, t, x), x.energize), x)
  }

  ghost predicate AllLanded(guard: Option<Guard>, t: Task, xs: seq<Inputs>) {
    xs == [] ||
    (var front := xs[..|xs| - 1];
     AllLanded(guard, t, front) && TickLands(guard, RunTask(guard, t, front), xs[|xs| - 1]))
  }

  /** Devices that agree with the memory go on agreeing with it as writes land. */
  lemma {:induction false} DevicesFollow(last: map<string, real>, devices: map<string, real>, writes: seq<Share>,
          id: string)
    requires id in last ==> id in devices && devices[id] == last[id]
    ensures id in Apply(last, writes) ==>
            id in Apply(devices, writes) && Apply(devices, writes)[id] == Apply(last, writes)[id]
  {
    if writes != [] { DevicesFollow(last, devices, writes[..|writes| - 1], id); }
  }

  /** Writing the same things to both keeps them agreeing. */
  lemma AgreesAfterApply(last: map<string, real>, devices: map<string, real>, writes: seq<Share>)
    requires Agrees(last, devices)
    ensures Agrees(Apply(last, writes), Apply(devices, writes))
  {
    forall id | id in Apply(last, writes)
      ensures id in Apply(devices, writes) && Apply(devices, writes)[id] == Apply(last, writes)[id]
    {
      DevicesFollow(last, devices, writes, id);
    }
  }

  /** A plan leaves devices and memory agreeing exactly if it landed in full, or
      the part that landed told no remembered child anything new. */
  lemma AgreesAfterPlan(t: Task, shares: seq<Share>, x: Inputs)
    requires DistinctDevices(shares) && Agrees(t.memory.last, t.devices)
    ensures var writes := PlannedWrites(t.memory, shares);
            var landed := writes[..Landing(|writes|, x.failsAt)];
            Agrees(WrittenOut(t, shares, x).memory.last, WrittenOut(t, shares, x).devices) <==>
              || |landed| == |writes|
              || forall w :: w in landed && w.deviceId in t.memory.last ==> w.watts == t.memory.last[w.deviceId]
  {
    var writes, last := PlannedWrites(t.memory, shares), t.memory.last;
    var landed := writes[..Landing(|writes|, x.failsAt)];
    PlanDistinct(t.memory, shares);
    if |landed| == |writes| {
      assert landed == writes;
      AgreesAfterApply(last, t.devices, writes);
    } else {
      AgreesAfterCut(last, t.devices, landed);
    }
  }

  lemma AgreesAfterCut(last: map<string, real>, devices: map<string, real>, landed: seq<Share>)
    requires DistinctDevices(landed) && Agrees(last, devices)
    ensures Agrees(last, Apply(devices, landed)) <==>
            forall w :: w in landed && w.deviceId in last ==> w.watts == last[w.deviceId]
  {
    var after := Apply(devices, landed);
    forall w | w in landed ensures w.deviceId in after && after[w.deviceId] == w.watts {
      ApplyLast(devices, landed, w);
    }
    forall id | id in last && !Writes.Writes(landed, id) ensures id in after && after[id] == last[id] {
      ApplyUntouched(devices, landed, id);
    }
  }

  lemma PlanKeepsAgreement(t: Task, target: real, x: Inputs)
    requires DistinctRacks(x.rackModule.racks) && Agrees(t.memory.last, t.devices) && PlanLands(t, target, x)
    ensures Agrees(Distributed(t, target, x).memory.last, Distributed(t, target, x).devices)
  {
    var shares := SharesFor(x.rackModule, target, x.locked);
    if shares.Ok? {
      SharesDistinct(x.rackModule, target, x.locked);
      var delivered := Delivered(shares.value);
      var synced := if t.ctrl.Some? && Abs(delivered - target) > DELIVERY_TOLERANCE
                    then t.(ctrl := Some(t.ctrl.value.(output := delivered))) else t;
      AgreesAfterPlan(synced, shares.value, x);
    }
  }

  /** From any start (a task that remembers nothing agrees with any devices), as
      long as every plan has landed the devices hold what the memory says. */
  lemma {:induction false} RunAgrees(guard: Option<Guard>, t: Task, xs: seq<Inputs>)
    requires Agrees(t.memory.last, t.devices) && AllLanded(guard, t, xs)
    requires forall k :: 0 <= k < |xs| ==> DistinctRacks(xs[k].rackModule.racks)
    ensures Agrees(RunTask(guard, t, xs).memory.last, RunTask(guard, t, xs).devices)
  {
    if xs != [] {
      var front, x := xs[..|xs| - 1], xs[|xs| - 1];
      RunAgrees(guard, t, front);
      var before := RunTask(guard, t, front);
      match guard
      case None => PlanKeepsAgreement(before, Energized(x.requested, x.energize), x);
      case Some(g) =>
        if Ready(g, x) {
          var s := Steered(g, before.ctrl, before.memory.gate, x);
          var read := before.memory.(gate := Taken(g, before.memory.gate, x));
          PlanKeepsAgreement(before.(ctrl := Some(s), memory := read), Energized(s.output, x.energize), x);
        }
    }
  }

  /** Bus safety along runs: while every plan has landed, whatever part of the
      next one lands, the bus carries no more than before or after all of it,
      once every child of it has been written, and until then no more than that
      and what the children not yet written already carry. */
  lemma RunPrefixIsSafe(guard: Option<Guard>, t: Task, xs: seq<Inputs>, shares: seq<Share>, ids: seq<string>, k: nat)
    requires Agrees(t.memory.last, t.devices) && AllLanded(guard, t, xs)
    requires forall j :: 0 <= j < |xs| ==> DistinctRacks(xs[j].rackModule.racks)
    requires DistinctDevices(shares) && DistinctIds(ids) && forall w :: w in shares ==> w.deviceId in ids
    requires k <= |PlannedWrites(RunTask(guard, t, xs).memory, shares)|
    ensures var m, devices := RunTask(guard, t, xs).memory, RunTask(guard, t, xs).devices;
            var writes := PlannedWrites(m, shares);
            var top := Max(Bus(ids, devices), Bus(ids, Apply(devices, writes)));
            && Bus(ids, Apply(devices, writes[..k])) <= top + Mismatch(writes, devices, m.last)
            && ((forall w :: w in shares ==> w.deviceId in m.last) ==> Bus(ids, Apply(devices, writes[..k])) <= top)
  {
    var m, devices := RunTask(guard, t, xs).memory, RunTask(guard, t, xs).devices;
    RunAgrees(guard, t, xs);
    PlanPrefixIsSafe(m, shares, ids, devices, k);
    PlannedFromShares(m, shares);
  }

  // ----- ceasing to energize

  ghost predicate DistinctChildren(children: seq<ChildCapacity>) {
    forall i, j :: 0 <= i < j < |children| ==> children[i].deviceId != children[j].deviceId
  }

  lemma {:induction false} EligibleDistinct(children: seq<ChildCapacity>)
    requires DistinctChildren(children)
    ensures DistinctChildren(EligibleOf(children))
  {
    if children != [] {
      var front, last := children[..|children| - 1], children[|children| - 1];
      var e := EligibleOf(front);
      EligibleDistinct(front);
      forall i | 0 <= i < |e| ensures e[i].deviceId != last.deviceId {
        assert e[i] in front;
      }
      assert DistinctChildren(e + [last]);
    }
  }

  lemma AppendDistinct(shares: seq<Share>, s: Share)
    requires DistinctDevices(shares) && !Mentions(shares, s.deviceId)
    ensures DistinctDevices(shares + [s])
  {
    forall i | 0 <= i < |shares| ensures shares[i].deviceId != s.deviceId { assert shares[i] in shares; }
  }

  lemma {:induction false} ZerosDistinct(shares: seq<Share>, children: seq<ChildCapacity>)
    requires DistinctDevices(shares)
    ensures DistinctDevices(WithZeros(shares, children))
  {
    if children != [] {
      var rest, id := WithZeros(shares, children[..|children| - 1]), children[|children| - 1].deviceId;
      ZerosDistinct(shares, children[..|children| - 1]);
      if !Mentions(rest, id) { AppendDistinct(rest, Share(id, 0.0)); }
    }
  }

  ghost predicate DistinctRacks(racks: seq<Rack>) {
    forall i, j :: 0 <= i < j < |racks| ==> racks[i].deviceId != racks[j].deviceId
  }

  lemma {:induction false} UnlockedDistinct(racks: seq<Rack>, locked: set<string>)
    requires DistinctRacks(racks)
    ensures DistinctRacks(Unlocked(racks, locked))
  {
    if racks != [] {
      var front := racks[..|racks| - 1];
      UnlockedDistinct(front, locked);
      forall c | c in Unlocked(front, locked) ensures c.deviceId != racks[|racks| - 1].deviceId { assert c in front; }
    }
  }

  lemma CapacitiesDistinct(racks: seq<Rack>, floor: Option<real>, target: real)
    requires DistinctRacks(racks) && Capacities(racks, floor, target).Ok?
    ensures DistinctChildren(Capacities(racks, floor, target).value)
  {
    CapacityOf(racks, floor, target);
  }

  lemma SplitDistinct(target: real, children: seq<ChildCapacity>, policy: Policy)
    requires DistinctChildren(children)
    ensures DistinctDevices(WithZeros(Allocated(target, children, policy), children))
  {
    var split := Allocated(target, children, policy);
    EligibleDistinct(children);
    forall i, j | 0 <= i < j < |split| ensures split[i].deviceId != split[j].deviceId {
      assert split[i].deviceId == EligibleOf(children)[i].deviceId;
    }
    ZerosDistinct(split, children);
  }

  /** Each rack is told at most one thing. */
  lemma SharesDistinct(m: Module, target: real, locked: set<string>)
    requires DistinctRacks(m.racks) && SharesFor(m, target, locked).Ok?
    ensures DistinctDevices(SharesFor(m, target, locked).value)
  {
    UnlockedDistinct(m.racks, locked);
    CapacitiesDistinct(Unlocked(m.racks, locked), m.floor, target);
    SplitDistinct(target, Capacities(Unlocked(m.racks, locked), m.floor, target).value, m.policy);
  }

  /** Zero shares that all land leave their devices at zero, whatever they held,
      and touch no other. */
  lemma ZeroSharesReachDevices(m: Memory, devices: map<string, real>, shares: seq<Share>, id: string)
    requires DistinctDevices(shares) && forall s :: s in shares ==> s.watts == 0.0
    ensures var after := Apply(devices, PlannedWrites(m, shares));
            && (Mentions(shares, id) ==> id in after && Abs(after[id]) < EPSILON)
            && (!Mentions(shares, id) ==>
               (id in after <==> id in devices) && (id in devices ==> after[id] == devices[id]))
  {
    if Mentions(shares, id) {
      ZeroSharesLandAtOnce(m, shares, devices);
    } else {
      PlannedFromShares(m, shares);
      assert !Writes.Writes(PlannedWrites(m, shares), id);
      ApplyUntouched(devices, PlannedWrites(m, shares), id);
    }
  }

  lemma AllLand(t: Task, shares: seq<Share>, x: Inputs)
    requires x.failsAt.None?
    ensures WrittenOut(t, shares, x).devices == Apply(t.devices, PlannedWrites(t.memory, shares))
  {
    var writes := PlannedWrites(t.memory, shares);
    assert writes[..|writes|] == writes;
  }

  /** With no write failing, the whole plan reaches the devices, whatever the controller does. */
  lemma PlanReachesDevices(t: Task, target: real, x: Inputs, shares: seq<Share>)
    requires SharesFor(x.rackModule, target, x.locked) == Ok(shares) && x.failsAt.None?
    ensures Distributed(t, target, x).devices == Apply(t.devices, PlannedWrites(t.memory, shares))
  {
    var delivered := Delivered(shares);
    if t.ctrl.Some? && Abs(delivered - target) > DELIVERY_TOLERANCE {
      AllLand(t.(ctrl := Some(t.ctrl.value.(output := delivered))), shares, x);
    } else {
      AllLand(t, shares, x);
    }
  }

  /** A de-energized tick sends the racks the plan for 0 W. */
  lemma DeenergizedTick(guard: Option<Guard>, t: Task, x: Inputs, memory: Memory)
    requires SharesFor(x.rackModule, 0.0, x.locked).Ok? && x.energize.Some? && x.energize.value < 0.5 && x.failsAt.None?
    requires guard.Some? ==> Ready(guard.value, x)
    requires memory == if guard.None? then t.memory else t.memory.(gate := Taken(guard.value, t.memory.gate, x))
    ensures Ticked(guard, t, x).devices ==
            Apply(t.devices, PlannedWrites(memory, SharesFor(x.rackModule, 0.0, x.locked).value))
  {
    var shares := SharesFor(x.rackModule, 0.0, x.locked).value;
    match guard
    case None =>
      PlanReachesDevices(t, 0.0, x, shares);
    case Some(g) =>
      PlanReachesDevices(t.(ctrl := Some(Steered(g, t.ctrl, t.memory.gate, x)), memory := memory), 0.0, x, shares);
  }

  /** A tick that does not get that far tells no rack anything. */
  lemma HeldTickTellsNothing(guard: Option<Guard>, t: Task, x: Inputs)
    requires !Distributes(guard, x)
    ensures Ticked(guard, t, x).devices == t.devices
  {
    match guard
    case None => SharesWhenHeard(x.rackModule, Energized(x.requested, x.energize), x.locked);
    case Some(g) =>
      if Ready(g, x) { SharesWhenHeard(x.rackModule, Energized(SteeredOutput(g, t, x), x.energize), x.locked); }
  }

  /** One landed tick of cease-to-energize, of any task in any state: if it
      distributes, it stops every unlocked rack, whatever it held and whatever
      handoff was under way, and leaves a locked one alone; if it does not, it
      leaves every rack at what it held. */
  lemma CeaseToEnergize(guard: Option<Guard>, t: Task, x: Inputs, id: string)
    requires DistinctRacks(x.rackModule.racks) && !NotDeenergized(x) && x.failsAt.None?
    requires exists c :: c in x.rackModule.racks && c.deviceId == id
    ensures var t' := Ticked(guard, t, x);
            if Distributes(guard, x) && id !in x.locked then id in t'.devices && Abs(t'.devices[id]) < EPSILON
            else (id in t'.devices <==> id in t.devices) && (id in t.devices ==> t'.devices[id] == t.devices[id])
  {
    if Distributes(guard, x) {
      SharesWhenHeard(x.rackModule, 0.0, x.locked);
      var shares := SharesFor(x.rackModule, 0.0, x.locked).value;
      var memory := if guard.None? then t.memory else t.memory.(gate := Taken(guard.value, t.memory.gate, x));
      SharesDistinct(x.rackModule, 0.0, x.locked);
      ZeroTargetZeroShares(x.rackModule, x.locked);
      SharesCoverUnlocked(x.rackModule, 0.0, x.locked, id);
      ZeroSharesReachDevices(memory, t.devices, shares, id);
      DeenergizedTick(guard, t, x, memory);
    } else {
      HeldTickTellsNothing(guard, t, x);
    }
  }

  ghost predicate Stopped(devices: map<string, real>, id: string) {
    id in devices && Abs(devices[id]) < EPSILON
  }

  /** So a landed tick of cease-to-energize is sure to stop an unlocked rack
      exactly if no reading it waits for is missing and every unlocked rack of the
      module, not this one alone, is heard. */
  lemma CeaseToEnergizeExactly(guard: Option<Guard>, t: Task, x: Inputs, id: string)
    requires DistinctRacks(x.rackModule.racks) && !NotDeenergized(x) && x.failsAt.None?
    requires id !in x.locked && exists c :: c in x.rackModule.racks && c.deviceId == id
    ensures (forall devices :: Stopped(Ticked(guard, t.(devices := devices), x).devices, id)) <==> Distributes(guard, x)
  {
    if Distributes(guard, x) {
      forall devices ensures Stopped(Ticked(guard, t.(devices := devices), x).devices, id) {
        CeaseToEnergize(guard, t.(devices := devices), x, id);
      }
    } else {
      var running: map<string, real> := map[id := 1.0];
      HeldTickTellsNothing(guard, t.(devices := running), x);
      assert !Stopped(Ticked(guard, t.(devices := running), x).devices, id);
    }
  }

  /** Where it fails: one rack of the module has never reported its state, and
      every other keeps running. */
  lemma SilentRackStopsNothing(guard: Option<Guard>, t: Task, x: Inputs, silent: Rack)
    requires silent in x.rackModule.racks && silent.deviceId !in x.locked && silent.telemetry.state.None?
    ensures Ticked(guard, t, x).devices == t.devices
  {
    assert !Heard(silent);
    HeldTickTellsNothing(guard, t, x);
  }
}
