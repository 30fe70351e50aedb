/** The servo law: how far the commanded output may move this tick, from one
    POI reading and the two limits, and the bounds a controller tick works in.

    Sign: POI power is positive for import, battery output for discharge. The
    headroom of a limit is the power left before it; a missing limit leaves
    infinite headroom (`None`), and bounds it does not set are infinite too. */
module PoiServo {
  import opened Numbers

  const APPROACH_GAIN: real := 0.1
  const VIOLATION_GAIN: real := 0.3

  /** One side's limit, together with what the tick before saw. */
  datatype Limit = Limit(now: Option<real>, prev: Option<real>)

  datatype Bounds = Bounds(
    ceiling: Option<real>,
    floor: Option<real>,
    headroomExport: Option<real>,
    headroomImport: Option<real>,
    jumped: bool
  )

  function Headroom(signedPoi: real, limit: Option<real>): Option<real> {
    if limit.None? then None else Some(signedPoi + limit.value)
  }

  /** The violation in a headroom: its negative part, never positive. */
  function Deficit(headroom: Option<real>): (r: real)
    ensures r <= 0.0
  {
    CapAt(0.0, headroom)
  }

  /** How much of the present violation is the limit's doing, not the flow's. */
  function Jump(signedPoi: real, limit: Limit): (r: real)
    ensures r >= 0.0
  {
    Max(Deficit(Headroom(signedPoi, limit.prev)) - Deficit(Headroom(signedPoi, limit.now)), 0.0)
  }

  /** Rate toward (positive) or away from one limit, per second. */
  function Rate(measured: real, opposite: Option<real>): real {
    if measured >= 0.0 then APPROACH_GAIN * measured
    else
      var excess := -measured;
      var fast := if opposite.None? then VIOLATION_GAIN * excess
        else Min(VIOLATION_GAIN * excess, APPROACH_GAIN * opposite.value);
      -Max(fast, APPROACH_GAIN * excess)
  }

  function Travel(rate: real, dt: Seconds): real { rate * dt }

  /** The output's allowance toward one side, negative to back off; `None` with no limit. */
  function Step(signedPoi: real, limit: Limit, opposite: Option<real>, dt: Seconds): Option<real> {
    if limit.now.None? then None
    else
      var jump := Jump(signedPoi, limit);
      var measured := signedPoi + limit.now.value + jump;
      Some(Travel(Rate(measured, opposite), dt) - jump)
  }

  /** The bounds before their crossing is resolved. */
  function RawCeiling(u: real, poi: real, imports: Limit, exports: Limit, dt: Seconds): Option<real> {
    var up := Step(poi, exports, Headroom(-poi, imports.now), dt);
    if up.None? then None else Some(u + up.value)
  }

  function RawFloor(u: real, poi: real, imports: Limit, exports: Limit, dt: Seconds): Option<real> {
    var down := Step(-poi, imports, Headroom(poi, exports.now), dt);
    if down.None? then None else Some(u - down.value)
  }

  predicate Crossed(floor: Option<real>, ceiling: Option<real>) {
    floor.Some? && ceiling.Some? && floor.value > ceiling.value
  }

  function ServoBounds(u: real, poi: real, imports: Limit, exports: Limit, dt: Seconds): Bounds {
    var ceiling, floor := RawCeiling(u, poi, imports, exports, dt), RawFloor(u, poi, imports, exports, dt);
    var exportJumped, importJumped := Jump(poi, exports) > 0.0, Jump(-poi, imports) > 0.0;
    var (ceiling', floor') :=
      if !Crossed(floor, ceiling) then (ceiling, floor)
      else if importJumped && !exportJumped then (floor, floor)
      else (ceiling, ceiling);
    Bounds(ceiling', floor', Headroom(poi, exports.now), Headroom(-poi, imports.now), exportJumped || importJumped)
  }

  /** Hold movement toward the side output is already on; cuts still apply. */
  function HoldApproach(u: real, b: Bounds): Bounds {
    var ceiling := if u >= 0.0 then Some(CapAt(u, b.ceiling)) else b.ceiling;
    var raised := if u >= 0.0 then b.floor else Some(RaiseTo(u, b.floor));
    var floor := if raised.None? then None else Some(CapAt(raised.value, ceiling));
    b.(ceiling := ceiling, floor := floor)
  }

  /** The bounds with no meter: the limits themselves, as if the battery were all
      there is behind the connection. */
  function BatteryBounds(activePower: real, importLimit: Option<real>, exportLimit: Option<real>): Bounds {
    Bounds(
      exportLimit,
      if importLimit.None? then None else Some(-importLimit.value),
      if exportLimit.None? then None else Some(exportLimit.value - activePower),
      if importLimit.None? then None else Some(activePower + importLimit.value),
      false)
  }

  // ----- what the law guarantees

  ghost predicate NonNegativeBand(importLimit: Option<real>, exportLimit: Option<real>) {
    importLimit.Some? && exportLimit.Some? ==> importLimit.value + exportLimit.value >= 0.0
  }

  /** A limit that is new, or below its last value. */
  ghost predicate Tightened(limit: Limit) {
    limit.now.Some? && (limit.prev.None? || limit.now.value < limit.prev.value)
  }

  /** A jump is exactly the part of a tightening that the reading violates. */
  lemma JumpIsTightening(signedPoi: real, limit: Limit)
    ensures Jump(signedPoi, limit) > 0.0 <==> Tightened(limit) && signedPoi + limit.now.value < 0.0
    ensures limit.prev.Some? && limit.now.Some? && signedPoi + limit.prev.value >= 0.0 ==>
              Jump(signedPoi, limit) == Max(-(signedPoi + limit.now.value), 0.0)
    ensures limit.prev.Some? && limit.now.Some? && signedPoi + limit.prev.value < 0.0 ==>
              Jump(signedPoi, limit) ==
                Max(Min(limit.prev.value - limit.now.value, -(signedPoi + limit.now.value)), 0.0)
  {
  }

  /** The two sides never jump together. */
  lemma OneSideJumps(poi: real, imports: Limit, exports: Limit)
    requires NonNegativeBand(imports.now, exports.now)
    ensures Jump(poi, exports) == 0.0 || Jump(-poi, imports) == 0.0
  {
    JumpIsTightening(poi, exports);
    JumpIsTightening(-poi, imports);
  }

  lemma TravelSum(a: real, b: real, dt: Seconds)
    requires a + b >= 0.0
    ensures Travel(a, dt) + Travel(b, dt) >= 0.0
  {
    assert a * dt + b * dt == (a + b) * dt;
  }

  /** Without a tightening the raw bounds never cross. */
  lemma {:induction false} CrossedOnlyByJump(u: real, poi: real, imports: Limit, exports: Limit, dt: Seconds)
    requires NonNegativeBand(imports.now, exports.now)
    requires Crossed(RawFloor(u, poi, imports, exports, dt), RawCeiling(u, poi, imports, exports, dt))
    ensures Tightened(imports) || Tightened(exports)
    ensures Jump(poi, exports) > 0.0 <==> Jump(-poi, imports) == 0.0
  {
    OneSideJumps(poi, imports, exports);
    JumpIsTightening(poi, exports);
    JumpIsTightening(-poi, imports);
    if Jump(poi, exports) == 0.0 && Jump(-poi, imports) == 0.0 {
      InOrderWithoutJump(u, poi, imports, exports, dt);
    }
  }

  lemma InOrderWithoutJump(u: real, poi: real, imports: Limit, exports: Limit, dt: Seconds)
    requires NonNegativeBand(imports.now, exports.now)
    requires Jump(poi, exports) == 0.0 && Jump(-poi, imports) == 0.0
    ensures !Crossed(RawFloor(u, poi, imports, exports, dt), RawCeiling(u, poi, imports, exports, dt))
  {
    if imports.now.Some? && exports.now.Some? {
      StepsLeaveRoom(poi, imports, exports, dt);
    }
  }

  lemma StepsLeaveRoom(poi: real, imports: Limit, exports: Limit, dt: Seconds)
    requires imports.now.Some? && exports.now.Some? && NonNegativeBand(imports.now, exports.now)
    requires Jump(poi, exports) == 0.0 && Jump(-poi, imports) == 0.0
    ensures Step(poi, exports, Headroom(-poi, imports.now), dt).value
          + Step(-poi, imports, Headroom(poi, exports.now), dt).value >= 0.0
  {
    var hx, hi := poi + exports.now.value, -poi + imports.now.value;
    StepWithoutJump(poi, exports, Some(hi), dt);
    StepWithoutJump(-poi, imports, Some(hx), dt);
    RatesOpen(hx, hi);
    TravelSum(Rate(hx, Some(hi)), Rate(hi, Some(hx)), dt);
  }

  lemma StepWithoutJump(signedPoi: real, limit: Limit, opposite: Option<real>, dt: Seconds)
    requires limit.now.Some? && Jump(signedPoi, limit) == 0.0
    ensures Step(signedPoi, limit, opposite, dt) == Some(Travel(Rate(signedPoi + limit.now.value, opposite), dt))
  {
    assert signedPoi + limit.now.value + Jump(signedPoi, limit) == signedPoi + limit.now.value;
  }

  /** Two headrooms that leave a band: the rates toward the limits do not close it. */
  lemma RatesOpen(a: real, b: real)
    requires a + b >= 0.0
    ensures Rate(a, Some(b)) + Rate(b, Some(a)) >= 0.0
  {
  }

  lemma TravelOdd(rate: real, dt: Seconds)
    ensures Travel(-rate, dt) == -Travel(rate, dt)
  {
  }

  lemma TravelBetween(low: real, rate: real, high: real, dt: Seconds)
    requires low <= rate <= high && dt <= 1.0 && low <= 0.0
    ensures low <= Travel(rate, dt) <= Travel(high, dt)
  {
    assert (rate - low) * dt >= 0.0 && (high - rate) * dt >= 0.0;
    assert low * (1.0 - dt) <= 0.0;
  }

  lemma BackOffRate(measured: real, opposite: Option<real>)
    requires measured <= 0.0
    ensures VIOLATION_GAIN * measured <= Rate(measured, opposite) <= APPROACH_GAIN * measured
  {
  }

  /** A violated side backs off at once: a tick of up to a second takes the whole
      jump and at least a tenth per second of what the meter already showed, and
      never more than the violation, whatever the other side's headroom. */
  lemma BackOffNeverOvershoots(signedPoi: real, limit: Limit, opposite: Option<real>, dt: Seconds)
    requires limit.now.Some? && signedPoi + limit.now.value < 0.0 && dt <= 1.0
    ensures var excess, jump := -(signedPoi + limit.now.value), Jump(signedPoi, limit);
            var backed := -Step(signedPoi, limit, opposite, dt).value;
            && 0.0 <= jump <= excess
            && jump + Travel(APPROACH_GAIN * (excess - jump), dt) <= backed <= excess
  {
    var measured := signedPoi + limit.now.value + Jump(signedPoi, limit);
    JumpIsTightening(signedPoi, limit);
    BackOffRate(measured, opposite);
    TravelBetween(measured, Rate(measured, opposite), APPROACH_GAIN * measured, dt);
    TravelOdd(APPROACH_GAIN * -measured, dt);
    assert APPROACH_GAIN * measured == -(APPROACH_GAIN * -measured);
  }
}
