/** What a tick of the task steers to, in terms of what it reads: without a meter
    the limits bound the battery itself, behind one they bound the grid power. */
module Steering {
  import opened Numbers
  import opened PoiServo
  import opened ControlLaw
  import opened Conservation
  import opened Rebalance
  import opened RackShares
  import H = HeldRuns
  import L = ClosedLoop
  import R = Recovery
  import G = PoiGate

  /** The controller a tick starts from: the one there is, or one built from the reading. */
  function Start(t: Task, x: Inputs): State
    requires x.activePower.Some?
  {
    if t.ctrl.Some? then t.ctrl.value else Initial(x.activePower.value)
  }

  // ----- without a meter

  /** Most the battery may discharge, and the least it must, by rating and limits. */
  function Highest(guard: Guard, x: Inputs): real {
    if x.exportLimit.None? then guard.powerMax else Min(guard.powerMax, x.exportLimit.value)
  }

  function Lowest(guard: Guard, x: Inputs): real {
    if x.importLimit.None? then guard.powerMin else Max(guard.powerMin, -x.importLimit.value)
  }

  /** The reading is at or past a limit. */
  predicate AtLimit(x: Inputs)
    requires x.activePower.Some?
  {
    || (x.exportLimit.Some? && x.activePower.value >= x.exportLimit.value)
    || (x.importLimit.Some? && x.activePower.value <= -x.importLimit.value)
  }

  /** The request, held in the rating and the limits; with none of the rating
      inside the export limit, that limit. */
  function Wanted(guard: Guard, x: Inputs): real {
    Clamp(x.requested, Min(Lowest(guard, x), Highest(guard, x)), Highest(guard, x))
  }

  lemma UnmeteredTarget(s: State, t: Tick)
    requires t.poi.None?
    ensures var high := if t.exportLimit.None? then t.powerMax else Min(t.powerMax, t.exportLimit.value);
            var low := if t.importLimit.None? then t.powerMin else Max(t.powerMin, -t.importLimit.value);
            Target(s, t) == Clamp(t.requested, Min(low, high), high)
    ensures Violating(s, t) <==> (t.exportLimit.Some? && t.activePower >= t.exportLimit.value) ||
                                 (t.importLimit.Some? && t.activePower <= -t.importLimit.value)
  {
  }

  /** Without a meter a tick moves from where it was toward the request held in
      rating and limits, never past it, and goes all the way in Normal mode or
      when the battery is at a limit. */
  lemma UnmeteredTick(guard: Guard, t: Task, x: Inputs)
    requires !guard.hasPoiMeter && Ready(guard, x) && RatedGuard(guard)
    ensures var u, steered, wanted := Start(t, x).output, SteeredOutput(guard, t, x), Wanted(guard, x);
            && (u <= steered <= wanted || wanted <= steered <= u)
            && (Start(t, x).mode == Normal || AtLimit(x) ==> Abs(steered - wanted) < EPSILON)
  {
    UnmeteredTarget(Start(t, x), TickFor(guard, t.memory.gate, x));
    OutputMovesTowardTarget(guard.control, Start(t, x), TickFor(guard, t.memory.gate, x));
  }

  /** Within the limits, to the write threshold, were the battery all there is. */
  ghost predicate WithinLimits(u: real, importLimit: Option<real>, exportLimit: Option<real>) {
    && (exportLimit.Some? ==> u < exportLimit.value + EPSILON)
    && (importLimit.Some? ==> u > -importLimit.value - EPSILON)
  }

  ghost predicate NonNegativeLimits(x: Inputs) {
    (x.importLimit.Some? ==> x.importLimit.value >= 0.0) && (x.exportLimit.Some? ==> x.exportLimit.value >= 0.0)
  }

  /** After a tick from within the limits, from Normal mode or at a limit, the
      output, pulled back to what is delivered or not, is within the limits. */
  lemma UnmeteredTickWithin(guard: Guard, t: Task, x: Inputs)
    requires !guard.hasPoiMeter && Ready(guard, x) && RatedGuard(guard) && PercentRacks(x.rackModule)
    requires NonNegativeLimits(x)
    requires || Start(t, x).mode == Normal || AtLimit(x)
             || WithinLimits(Start(t, x).output, x.importLimit, x.exportLimit)
    ensures var end := Ticked(Some(guard), t, x).ctrl;
            end.Some? && WithinLimits(end.value.output, x.importLimit, x.exportLimit)
  {
    UnmeteredTick(guard, t, x);
    H.SyncTowardZero(guard, t, x);
  }

  ghost predicate Unmoved(x: Inputs, importLimit: Option<real>, exportLimit: Option<real>) {
    x.importLimit == importLimit && x.exportLimit == exportLimit && NonNegativeLimits(x)
  }

  /** Without a meter, under limits that stand, every run from a fresh controller
      or from within them keeps the output within them, whatever is requested and
      read, in every mode, de-energized or not. */
  lemma {:induction false} UnmeteredRunWithin(guard: Guard, t: Task, xs: seq<Inputs>, importLimit: Option<real>,
          exportLimit: Option<real>)
    requires !guard.hasPoiMeter && RatedGuard(guard) && H.AllPercent(xs)
    requires forall k :: 0 <= k < |xs| ==> Unmoved(xs[k], importLimit, exportLimit)
    requires t.ctrl.Some? ==> WithinLimits(t.ctrl.value.output, importLimit, exportLimit)
    ensures var end := RunTask(Some(guard), t, xs).ctrl;
            end.Some? ==> WithinLimits(end.value.output, importLimit, exportLimit)
  {
    if xs != [] {
      var front, x := xs[..|xs| - 1], xs[|xs| - 1];
      forall k | 0 <= k < |front|
        ensures Unmoved(front[k], importLimit, exportLimit) && PercentRacks(front[k].rackModule)
      {
        assert front[k] == xs[k];
      }
      UnmeteredRunWithin(guard, t, front, importLimit, exportLimit);
      assert Unmoved(x, importLimit, exportLimit) && PercentRacks(x.rackModule);
      if Ready(guard, x) { UnmeteredTickWithin(guard, RunTask(Some(guard), t, front), x); }
    }
  }

  // ----- behind a meter

  /** A metered reading that is not stale, with a controller to give it to. */
  ghost predicate Metered(guard: Guard, t: Task, x: Inputs) {
    guard.hasPoiMeter && Ready(guard, x) && RatedGuard(guard) && t.ctrl.Some? && x.poi.value.age <= 5.0
  }

  ghost predicate InRating(guard: Guard, u: real) { guard.powerMin <= u <= guard.powerMax }

  /** The limits have not changed since the last tick. */
  ghost predicate LimitsStand(t: Task, x: Inputs)
    requires t.ctrl.Some?
  {
    t.ctrl.value.prevImport == x.importLimit && t.ctrl.value.prevExport == x.exportLimit
  }

  lemma ZeroTime(room: real)
    ensures L.Approach(room, 0.0) == 0.0
  {
  }

  /** A reading used before moves the output toward neither limit that stands:
      with both limits in force it moves it not at all. */
  lemma ReusedReading(guard: Guard, t: Task, x: Inputs)
    requires Metered(guard, t, x) && InRating(guard, t.ctrl.value.output) && LimitsStand(t, x)
    requires t.memory.gate.lastUsed == Some(x.poi.value.receivedAt)
    ensures var u, steered := t.ctrl.value.output, SteeredOutput(guard, t, x);
            && (x.exportLimit.Some? ==> steered <= u)
            && (x.importLimit.Some? ==> steered >= u)
  {
    var s, tick := t.ctrl.value, TickFor(guard, t.memory.gate, x);
    StandingLimits(s, tick);
    L.UndisturbedTick(guard.control, s, tick);
    ZeroTime(x.poi.value.power + (if x.exportLimit.Some? then x.exportLimit.value else 0.0));
    ZeroTime((if x.importLimit.Some? then x.importLimit.value else 0.0) - x.poi.value.power);
  }

  /** Limits that stand do not jump. */
  lemma StandingLimits(s: State, t: Tick)
    requires t.poi.Some? && s.prevImport == t.importLimit && s.prevExport == t.exportLimit
    requires || CountedTime(s, t) == 0.0
             || ((t.exportLimit.Some? ==> t.poi.value + t.exportLimit.value >= 0.0) &&
                 (t.importLimit.Some? ==> t.importLimit.value - t.poi.value >= 0.0))
    ensures L.Undisturbed(s, t)
  {
    JumpIsTightening(t.poi.value, Limit(t.exportLimit, s.prevExport));
    JumpIsTightening(-t.poi.value, Limit(t.importLimit, s.prevImport));
  }

  /** A new reading, taken with no handoff and no jump to wait for. */
  ghost predicate Counts(t: Task, x: Inputs)
    requires t.ctrl.Some? && x.poi.Some?
  {
    t.memory.gate.lastUsed != Some(x.poi.value.receivedAt) && t.memory.gate.handoff.Idle? && t.ctrl.value.jumpHold == 0
  }

  /** How far a new reading inside the limits lets the output go: a tenth of each
      headroom per second. */
  function NearestFloor(guard: Guard, u: real, x: Inputs): real
    requires x.poi.Some?
  {
    if x.importLimit.None? then guard.powerMin
    else Max(guard.powerMin, u - 0.1 * (x.importLimit.value - x.poi.value.power) * x.dt)
  }

  function NearestCeiling(guard: Guard, u: real, x: Inputs): real
    requires x.poi.Some?
  {
    if x.exportLimit.None? then guard.powerMax
    else Min(guard.powerMax, u + 0.1 * (x.poi.value.power + x.exportLimit.value) * x.dt)
  }

  lemma UndisturbedTarget(s: State, t: Tick)
    requires !t.holdApproach && t.powerMin <= s.output <= t.powerMax && L.Undisturbed(s, t)
    ensures var dt := CountedTime(s, t);
            var low := if t.importLimit.None? then t.powerMin
                       else Max(t.powerMin, s.output - L.Approach(t.importLimit.value - t.poi.value, dt));
            var high := if t.exportLimit.None? then t.powerMax
                        else Min(t.powerMax, s.output + L.Approach(t.poi.value + t.exportLimit.value, dt));
            low <= s.output <= high && Target(s, t) == Clamp(t.requested, low, high)
  {
    L.UndisturbedCeiling(s, t);
    L.UndisturbedFloor(s, t);
  }

  /** A counted reading inside the limits, in Normal mode: the output lands on the
      request, held in the rating and within a tenth of each headroom per second. */
  lemma CountedTick(guard: Guard, t: Task, x: Inputs)
    requires Metered(guard, t, x) && InRating(guard, t.ctrl.value.output) && LimitsStand(t, x) && Counts(t, x)
    requires t.ctrl.value.mode == Normal
    requires x.exportLimit.Some? ==> x.poi.value.power + x.exportLimit.value >= 0.0
    requires x.importLimit.Some? ==> x.importLimit.value - x.poi.value.power >= 0.0
    ensures var u := t.ctrl.value.output;
            var low, high := NearestFloor(guard, u, x), NearestCeiling(guard, u, x);
            low <= u <= high && Abs(SteeredOutput(guard, t, x) - Clamp(x.requested, low, high)) < EPSILON
  {
    CountedTarget(guard, t, x);
    LandsOnTarget(guard, t, x);
  }

  lemma NearestAre(guard: Guard, u: real, x: Inputs)
    requires x.poi.Some?
    ensures NearestFloor(guard, u, x) ==
            if x.importLimit.None? then guard.powerMin
            else Max(guard.powerMin, u - L.Approach(x.importLimit.value - x.poi.value.power, x.dt))
    ensures NearestCeiling(guard, u, x) ==
            if x.exportLimit.None? then guard.powerMax
            else Min(guard.powerMax, u + L.Approach(x.poi.value.power + x.exportLimit.value, x.dt))
  {
    if x.importLimit.Some? { TenthPerSecond(x.importLimit.value - x.poi.value.power, x.dt); }
    if x.exportLimit.Some? { TenthPerSecond(x.poi.value.power + x.exportLimit.value, x.dt); }
  }

  lemma CountedTarget(guard: Guard, t: Task, x: Inputs)
    requires Metered(guard, t, x) && InRating(guard, t.ctrl.value.output) && LimitsStand(t, x) && Counts(t, x)
    requires x.exportLimit.Some? ==> x.poi.value.power + x.exportLimit.value >= 0.0
    requires x.importLimit.Some? ==> x.importLimit.value - x.poi.value.power >= 0.0
    ensures var u := t.ctrl.value.output;
            var low, high := NearestFloor(guard, u, x), NearestCeiling(guard, u, x);
            low <= u <= high &&
              Target(t.ctrl.value, TickFor(guard, t.memory.gate, x)) == Clamp(x.requested, low, high)
  {
    NearestAre(guard, t.ctrl.value.output, x);
    StandingLimits(t.ctrl.value, TickFor(guard, t.memory.gate, x));
    UndisturbedTarget(t.ctrl.value, TickFor(guard, t.memory.gate, x));
  }

  lemma TenthPerSecond(room: real, dt: Seconds)
    ensures L.Approach(room, dt) == 0.1 * room * dt
  {
  }

  lemma LandsOnTarget(guard: Guard, t: Task, x: Inputs)
    requires Metered(guard, t, x) && t.ctrl.value.mode == Normal
    ensures Abs(SteeredOutput(guard, t, x) - Target(t.ctrl.value, TickFor(guard, t.memory.gate, x))) < EPSILON
  {
    OutputMovesTowardTarget(guard.control, t.ctrl.value, TickFor(guard, t.memory.gate, x));
  }

  /** Three tenths of an excess per second. */
  function PushBack(excess: real, dt: Seconds): real { 0.3 * excess * dt }

  lemma BackOff(headroom: real, dt: Seconds)
    requires headroom < 0.0
    ensures Travel(Rate(headroom, None), dt) == -PushBack(-headroom, dt)
  {
  }

  lemma BackOffStep(signedPoi: real, limit: Limit, dt: Seconds)
    requires limit.now.Some? && limit.prev == limit.now && signedPoi + limit.now.value < 0.0
    ensures Step(signedPoi, limit, None, dt) == Some(-PushBack(-(signedPoi + limit.now.value), dt))
  {
    JumpIsTightening(signedPoi, limit);
    assert signedPoi + limit.now.value + Jump(signedPoi, limit) == signedPoi + limit.now.value;
    BackOff(signedPoi + limit.now.value, dt);
  }

  lemma PastExportBounds(s: State, t: Tick)
    requires t.poi.Some? && !t.holdApproach && t.importLimit.None? && t.exportLimit.Some?
    requires t.poi.value + t.exportLimit.value < 0.0 && s.prevExport == t.exportLimit
    ensures BoundsFor(s, t).floor.None?
    ensures BoundsFor(s, t).ceiling ==
            Some(s.output - PushBack(-(t.poi.value + t.exportLimit.value), CountedTime(s, t)))
    ensures Violating(s, t)
  {
    BackOffStep(t.poi.value, Limit(t.exportLimit, s.prevExport), CountedTime(s, t));
  }

  lemma PastImportBounds(s: State, t: Tick)
    requires t.poi.Some? && !t.holdApproach && t.exportLimit.None? && t.importLimit.Some?
    requires -t.poi.value + t.importLimit.value < 0.0 && s.prevImport == t.importLimit
    ensures BoundsFor(s, t).ceiling.None?
    ensures BoundsFor(s, t).floor ==
            Some(s.output + PushBack(-(-t.poi.value + t.importLimit.value), CountedTime(s, t)))
    ensures Violating(s, t)
  {
    BackOffStep(-t.poi.value, Limit(t.importLimit, s.prevImport), CountedTime(s, t));
  }

  lemma LandsNear(guard: Guard, t: Task, x: Inputs)
    requires Metered(guard, t, x) && Violating(t.ctrl.value, TickFor(guard, t.memory.gate, x))
    ensures Abs(SteeredOutput(guard, t, x) - Target(t.ctrl.value, TickFor(guard, t.memory.gate, x))) < EPSILON
  {
    OutputMovesTowardTarget(guard.control, t.ctrl.value, TickFor(guard, t.memory.gate, x));
  }

  /** Past the export limit, with no import limit in the way: the output is held
      0.3 of the excess per second below where it was, in every mode. */
  lemma PastExportTick(guard: Guard, t: Task, x: Inputs)
    requires Metered(guard, t, x) && LimitsStand(t, x) && Counts(t, x)
    requires x.importLimit.None? && x.exportLimit.Some? && x.poi.value.power + x.exportLimit.value < 0.0
    ensures var back := PushBack(-(x.poi.value.power + x.exportLimit.value), x.dt);
            var high := Min(guard.powerMax, t.ctrl.value.output - back);
            Abs(SteeredOutput(guard, t, x) - Clamp(x.requested, Min(guard.powerMin, high), high)) < EPSILON
  {
    PastExportBounds(t.ctrl.value, TickFor(guard, t.memory.gate, x));
    LandsNear(guard, t, x);
  }

  /** The same on the import side. */
  lemma PastImportTick(guard: Guard, t: Task, x: Inputs)
    requires Metered(guard, t, x) && LimitsStand(t, x) && Counts(t, x)
    requires x.exportLimit.None? && x.importLimit.Some? && -x.poi.value.power + x.importLimit.value < 0.0
    ensures var back := PushBack(-(-x.poi.value.power + x.importLimit.value), x.dt);
            var low := Max(guard.powerMin, t.ctrl.value.output + back);
            Abs(SteeredOutput(guard, t, x) - Clamp(x.requested, Min(low, guard.powerMax), guard.powerMax)) < EPSILON
  {
    PastImportBounds(t.ctrl.value, TickFor(guard, t.memory.gate, x));
    LandsNear(guard, t, x);
  }

  // ----- ramps

  /** One tick of the ramp, at the rating for discharge or for charge. */
  function OneStep(guard: Guard, discharge: bool, dt: Seconds): real {
    guard.control.rampRate * (if discharge then guard.powerMax else Abs(guard.powerMin)) * dt
  }

  /** A meter quiet for more than five seconds: one step of the ramp toward 0 W, at
      the rating of the side the output is on. */
  lemma StaleTick(guard: Guard, t: Task, x: Inputs)
    requires guard.hasPoiMeter && Ready(guard, x) && RatedGuard(guard) && x.poi.value.age > 5.0
    ensures var u, steered := Start(t, x).output, SteeredOutput(guard, t, x);
            && Abs(steered) == Max(Abs(u) - OneStep(guard, u > 0.0, x.dt), 0.0)
            && (0.0 <= steered <= u || u <= steered <= 0.0)
  {
    RampedNoFarther(guard.control, Start(t, x), guard.powerMin, guard.powerMax, x.dt);
  }

  lemma StepIsRampLimit(guard: Guard, t: Tick, u: real, target: real)
    requires t.powerMin == guard.powerMin && t.powerMax == guard.powerMax
    ensures RampLimit(guard.control, t, u, target) == OneStep(guard, target >= u, t.dt)
  {
  }

  /** Recovering without a meter: one step of the ramp toward the request held in
      rating and limits, at the rating of the side it moves to. */
  lemma RampingTick(guard: Guard, t: Task, x: Inputs)
    requires !guard.hasPoiMeter && Ready(guard, x) && RatedGuard(guard)
    requires Start(t, x).mode == Ramping && !AtLimit(x)
    ensures var u, steered, wanted := Start(t, x).output, SteeredOutput(guard, t, x), Wanted(guard, x);
            var step := OneStep(guard, wanted >= u, x.dt);
            && (Abs(wanted - u) <= step ==> Abs(steered - wanted) < EPSILON)
            && (Abs(wanted - u) > step >= EPSILON ==> Abs(wanted - steered) == Abs(wanted - u) - step)
  {
    var tick := TickFor(guard, t.memory.gate, x);
    UnmeteredTarget(Start(t, x), tick);
    StepIsRampLimit(guard, tick, Start(t, x).output, Wanted(guard, x));
    R.RampTick(guard.control, Start(t, x), tick);
  }

  // ----- when a limit counts as violated or clear

  /** Exactly when a tick takes a limit for violated. */
  lemma ViolatingMeans(s: State, t: Tick)
    ensures var poi := if t.poi.Some? then t.poi.value else -t.activePower;
            Violating(s, t) <==>
              || (t.exportLimit.Some? && poi + t.exportLimit.value <= 0.0)
              || (t.importLimit.Some? && t.importLimit.value - poi <= 0.0)
  {
  }

  lemma HeadroomsAre(s: State, t: Tick)
    ensures var poi := if t.poi.Some? then t.poi.value else -t.activePower;
            && BoundsFor(s, t).headroomExport == (if t.exportLimit.None? then None else Some(poi + t.exportLimit.value))
            && BoundsFor(s, t).headroomImport == (if t.importLimit.None? then None else Some(t.importLimit.value - poi))
  {
  }

  lemma MarginMeans(cfg: Config, b: Bounds, t: Tick, u: real, target: real)
    ensures MarginClear(cfg, b, t, u, target) <==>
              if target < u
              then b.headroomImport.Some? ==> b.headroomImport.value >= cfg.margin * Abs(t.powerMin)
              else b.headroomExport.Some? ==> b.headroomExport.value >= cfg.margin * t.powerMax
  {
  }

  /** Exactly when the dwell counts: the limit on the side the output would ramp
      to has the margin, a share of the rating on that side. */
  lemma ClearMeans(cfg: Config, s: State, t: Tick)
    ensures var poi := if t.poi.Some? then t.poi.value else -t.activePower;
            Clear(cfg, s, t) <==>
              if Target(s, t) < s.output
              then t.importLimit.Some? ==> t.importLimit.value - poi >= cfg.margin * Abs(t.powerMin)
              else t.exportLimit.Some? ==> poi + t.exportLimit.value >= cfg.margin * t.powerMax
  {
    HeadroomsAre(s, t);
    MarginMeans(cfg, BoundsFor(s, t), t, s.output, Target(s, t));
  }
}
