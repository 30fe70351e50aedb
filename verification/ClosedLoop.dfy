/** The controller in closed loop: the load is fixed, the battery delivers the
    commanded output, and the meter shows the true POI of this tick or of one
    of the three before it.

    Each limit's headroom loses at most a quarter of itself per tick: the
    reading is at most three ticks old, so it overstates the headroom by at most
    (4/3)^3, and a tenth of that is less than a quarter. */
module ClosedLoop {
  import opened Numbers
  import opened PoiServo
  import opened ControlLaw

  const MAX_LAG: nat := 3

  datatype Site = Site(load: real, importLimit: Option<real>, exportLimit: Option<real>, powerMin: real, powerMax: real)

  /** What one tick is fed, apart from the limits: `lag` says how many ticks old
      the POI reading is. */
  datatype Sample = Sample(
    requested: real,
    activePower: real,
    dt: Seconds,
    poiFresh: bool,
    holdApproach: bool,
    lag: nat
  )

  /** Controller state, and the true POI now and at the three ticks before. */
  datatype Loop = Loop(ctrl: State, poi: seq<real>)

  ghost predicate Timely(x: Sample) {
    x.lag <= MAX_LAG && x.dt <= 1.0
  }

  ghost predicate AllTimely(xs: seq<Sample>) {
    forall k :: 0 <= k < |xs| ==> Timely(xs[k])
  }

  function TickOf(site: Site, loop: Loop, x: Sample): Tick
    requires |loop.poi| == MAX_LAG + 1 && x.lag <= MAX_LAG
  {
    Tick(site.importLimit, site.exportLimit, x.activePower, x.requested,
         Some(loop.poi[x.lag]), x.poiFresh, x.holdApproach,
         site.powerMin, site.powerMax, x.dt)
  }

  function After(cfg: Config, site: Site, loop: Loop, x: Sample): (r: Loop)
    requires |loop.poi| == MAX_LAG + 1 && x.lag <= MAX_LAG
    ensures |r.poi| == MAX_LAG + 1
  {
    var ctrl := Next(cfg, loop.ctrl, TickOf(site, loop, x));
    Loop(ctrl, [site.load - ctrl.output] + loop.poi[..MAX_LAG])
  }

  ghost function Run(cfg: Config, site: Site, loop: Loop, xs: seq<Sample>): (r: Loop)
    requires |loop.poi| == MAX_LAG + 1 && AllTimely(xs)
    ensures |r.poi| == MAX_LAG + 1
  {
    if xs == [] then loop
    else After(cfg, site, Run(cfg, site, loop, xs[..|xs| - 1]), xs[|xs| - 1])
  }

  ghost predicate Inside(site: Site, poi: real) {
    && (site.importLimit.Some? ==> poi <= site.importLimit.value)
    && (site.exportLimit.Some? ==> -poi <= site.exportLimit.value)
  }

  ghost predicate RatedSite(cfg: Config, site: Site) {
    cfg.rampRate >= 0.0 && site.powerMin <= 0.0 <= site.powerMax
  }

  // ----- one tick on a reading inside the limits, or on one that is not counted

  ghost predicate Undisturbed(s: State, t: Tick) {
    && t.poi.Some?
    && Jump(t.poi.value, Limit(t.exportLimit, s.prevExport)) == 0.0
    && Jump(-t.poi.value, Limit(t.importLimit, s.prevImport)) == 0.0
    && (CountedTime(s, t) == 0.0 ||
        ((t.exportLimit.Some? ==> t.poi.value + t.exportLimit.value >= 0.0) &&
         (t.importLimit.Some? ==> t.importLimit.value - t.poi.value >= 0.0)))
  }

  /** How far the output may move for a headroom of `room` at the reading. */
  function Approach(room: real, dt: Seconds): real {
    Travel(APPROACH_GAIN * room, dt)
  }

  lemma ApproachSign(room: real, dt: Seconds)
    ensures room >= 0.0 ==> Approach(room, dt) >= 0.0
    ensures dt == 0.0 ==> Approach(room, dt) == 0.0
    ensures room >= 0.0 && dt <= 1.0 ==> Approach(room, dt) <= APPROACH_GAIN * room
  {
    if room >= 0.0 && dt <= 1.0 {
      assert (APPROACH_GAIN * room) * dt <= (APPROACH_GAIN * room) * 1.0;
    }
  }

  lemma UndisturbedStep(signedPoi: real, limit: Limit, opposite: Option<real>, dt: Seconds)
    requires limit.now.Some? && Jump(signedPoi, limit) == 0.0
    requires dt == 0.0 || signedPoi + limit.now.value >= 0.0
    ensures Step(signedPoi, limit, opposite, dt) == Some(Approach(signedPoi + limit.now.value, dt))
    ensures Approach(signedPoi + limit.now.value, dt) >= 0.0
  {
    var room := signedPoi + limit.now.value;
    ApproachSign(room, dt);
    assert room + Jump(signedPoi, limit) == room;
  }

  lemma UndisturbedCeiling(s: State, t: Tick)
    requires Undisturbed(s, t)
    ensures var poi, dt := t.poi.value, CountedTime(s, t);
            var imports, exports := Limit(t.importLimit, s.prevImport), Limit(t.exportLimit, s.prevExport);
            var ceiling := RawCeiling(s.output, poi, imports, exports, dt);
            if t.exportLimit.None? then ceiling.None?
            else ceiling == Some(s.output + Approach(poi + t.exportLimit.value, dt)) && ceiling.value >= s.output
  {
    var poi, dt := t.poi.value, CountedTime(s, t);
    if t.exportLimit.Some? {
      UndisturbedStep(poi, Limit(t.exportLimit, s.prevExport), Headroom(-poi, t.importLimit), dt);
    }
  }

  lemma UndisturbedFloor(s: State, t: Tick)
    requires Undisturbed(s, t)
    ensures var poi, dt := t.poi.value, CountedTime(s, t);
            var imports, exports := Limit(t.importLimit, s.prevImport), Limit(t.exportLimit, s.prevExport);
            var floor := RawFloor(s.output, poi, imports, exports, dt);
            if t.importLimit.None? then floor.None?
            else floor == Some(s.output - Approach(t.importLimit.value - poi, dt)) && floor.value <= s.output
  {
    var poi, dt := t.poi.value, CountedTime(s, t);
    if t.importLimit.Some? {
      UndisturbedStep(-poi, Limit(t.importLimit, s.prevImport), Headroom(poi, t.exportLimit), dt);
      assert -poi + t.importLimit.value == t.importLimit.value - poi;
    }
  }

  /** An undisturbed tick's window holds the present output, and reaches toward
      neither limit by more than the approach gain allows. */
  lemma UndisturbedWindow(s: State, t: Tick)
    requires t.powerMin <= s.output <= t.powerMax && Undisturbed(s, t)
    ensures var poi, dt := t.poi.value, CountedTime(s, t);
            && t.powerMin <= Floor(s, t) <= s.output <= Ceiling(s, t) <= t.powerMax
            && (t.exportLimit.Some? ==> Ceiling(s, t) <= s.output + Approach(poi + t.exportLimit.value, dt))
            && (t.importLimit.Some? ==> Floor(s, t) >= s.output - Approach(t.importLimit.value - poi, dt))
            && !BoundsFor(s, t).jumped
  {
    UndisturbedCeiling(s, t);
    UndisturbedFloor(s, t);
  }

  /** An undisturbed tick stays in the rating and moves toward neither limit by
      more than the approach gain allows. */
  lemma UndisturbedTick(cfg: Config, s: State, t: Tick)
    requires Rated(cfg, t) && t.powerMin <= s.output <= t.powerMax && Undisturbed(s, t)
    ensures var u', poi, dt := Next(cfg, s, t).output, t.poi.value, CountedTime(s, t);
            && t.powerMin <= u' <= t.powerMax
            && (t.exportLimit.Some? ==> u' <= s.output + Approach(poi + t.exportLimit.value, dt))
            && (t.importLimit.Some? ==> u' >= s.output - Approach(t.importLimit.value - poi, dt))
    ensures Next(cfg, s, t).jumpHold == if s.jumpHold > 0 && t.poiFresh then s.jumpHold - 1 else s.jumpHold
    ensures Next(cfg, s, t).prevImport == t.importLimit && Next(cfg, s, t).prevExport == t.exportLimit
  {
    UndisturbedWindow(s, t);
    OutputMovesTowardTarget(cfg, s, t);
    NextNotes(cfg, s, t);
  }

  // ----- headroom along a run

  /** The latest `n` headrooms are non-negative and none lost more than a
      quarter in a tick. */
  ghost predicate Keeps(room: seq<real>, n: nat) {
    && |room| == MAX_LAG + 1
    && (forall j :: 0 <= j < n <= |room| ==> room[j] >= 0.0)
    && (forall j :: 0 <= j && j + 1 < n <= |room| ==> room[j] >= 0.75 * room[j + 1])
  }

  ghost function ExportRoom(poi: seq<real>, limit: real): (r: seq<real>)
    ensures |r| == |poi|
  {
    seq(|poi|, j requires 0 <= j < |poi| => poi[j] + limit)
  }

  ghost function ImportRoom(poi: seq<real>, limit: real): (r: seq<real>)
    ensures |r| == |poi|
  {
    seq(|poi|, j requires 0 <= j < |poi| => limit - poi[j])
  }

  /** The heart of the argument: one counted tick on a reading up to three ticks
      old keeps three quarters of the headroom. */
  lemma KeepsThreeQuarters(room: seq<real>, lag: nat, dt: Seconds, next: real)
    requires Keeps(room, 4) && lag <= MAX_LAG && dt <= 1.0
    requires next >= room[0] - Approach(room[lag], dt)
    ensures next >= 0.75 * room[0] && Keeps([next] + room[..MAX_LAG], 4)
  {
    ApproachSign(room[lag], dt);
    KeepsMoved(room, lag, Approach(room[lag], dt), next);
  }

  lemma KeepsMoved(room: seq<real>, lag: nat, move: real, next: real)
    requires Keeps(room, 4) && lag <= MAX_LAG && 0.0 <= move <= APPROACH_GAIN * room[lag]
    requires next >= room[0] - move
    ensures next >= 0.75 * room[0] && Keeps([next] + room[..MAX_LAG], 4)
  {
    assert room[0] >= 0.75 * room[1];
    assert room[1] >= 0.75 * room[2];
    assert room[2] >= 0.75 * room[3];
  }

  /** An uncounted tick that does not move toward the limit keeps the invariant
      one tick longer. */
  lemma KeepsUncounted(room: seq<real>, n: nat, next: real)
    requires 1 <= n <= 4 && Keeps(room, n) && next >= room[0]
    ensures Keeps([next] + room[..MAX_LAG], if n < 4 then n + 1 else 4)
  {
  }

  /** What a run keeps: output inside the rating, and every reading the
      controller may still count inside the limits. */
  ghost predicate Ready(site: Site, loop: Loop) {
    && |loop.poi| == MAX_LAG + 1
    && loop.poi[0] == site.load - loop.ctrl.output
    && site.powerMin <= loop.ctrl.output <= site.powerMax
    && loop.ctrl.jumpHold <= JUMP_HOLD_READINGS
    && (loop.ctrl.jumpHold > 0 ==> loop.ctrl.prevImport == site.importLimit && loop.ctrl.prevExport == site.exportLimit)
    && (site.exportLimit.Some? ==> Keeps(ExportRoom(loop.poi, site.exportLimit.value), 4 - loop.ctrl.jumpHold))
    && (site.importLimit.Some? ==> Keeps(ImportRoom(loop.poi, site.importLimit.value), 4 - loop.ctrl.jumpHold))
  }

  lemma ReadyIsUndisturbed(site: Site, loop: Loop, x: Sample)
    requires Ready(site, loop) && Timely(x)
    ensures Undisturbed(loop.ctrl, TickOf(site, loop, x))
  {
    var poi := loop.poi[x.lag];
    if loop.ctrl.jumpHold == 0 {
      if site.exportLimit.Some? { assert ExportRoom(loop.poi, site.exportLimit.value)[x.lag] >= 0.0; }
      if site.importLimit.Some? { assert ImportRoom(loop.poi, site.importLimit.value)[x.lag] >= 0.0; }
    }
    JumpIsTightening(poi, Limit(site.exportLimit, loop.ctrl.prevExport));
    JumpIsTightening(-poi, Limit(site.importLimit, loop.ctrl.prevImport));
  }

  /** One side of `Ready` across a tick: `room` is that side's headroom history. */
  lemma RoomKept(room: seq<real>, hold: nat, x: Sample, next: real)
    requires Timely(x) && hold <= JUMP_HOLD_READINGS && Keeps(room, 4 - hold)
    requires next >= room[0] - Approach(room[x.lag], if x.poiFresh && hold == 0 then x.dt else 0.0)
    ensures Keeps([next] + room[..MAX_LAG], 4 - (if hold > 0 && x.poiFresh then hold - 1 else hold))
  {
    if x.poiFresh && hold == 0 {
      KeepsThreeQuarters(room, x.lag, x.dt, next);
    } else {
      ApproachSign(room[x.lag], 0.0);
      KeepsUncounted(room, 4 - hold, next);
    }
  }

  lemma ExportKept(poi: seq<real>, limit: real, hold: nat, x: Sample, next: real)
    requires |poi| == MAX_LAG + 1 && Timely(x) && hold <= JUMP_HOLD_READINGS
    requires Keeps(ExportRoom(poi, limit), 4 - hold)
    requires next >= poi[0] - Approach(poi[x.lag] + limit, if x.poiFresh && hold == 0 then x.dt else 0.0)
    ensures Keeps(ExportRoom([next] + poi[..MAX_LAG], limit), 4 - (if hold > 0 && x.poiFresh then hold - 1 else hold))
  {
    RoomKept(ExportRoom(poi, limit), hold, x, next + limit);
    assert ExportRoom([next] + poi[..MAX_LAG], limit) == [next + limit] + ExportRoom(poi, limit)[..MAX_LAG];
  }

  lemma ImportKept(poi: seq<real>, limit: real, hold: nat, x: Sample, next: real)
    requires |poi| == MAX_LAG + 1 && Timely(x) && hold <= JUMP_HOLD_READINGS
    requires Keeps(ImportRoom(poi, limit), 4 - hold)
    requires next <= poi[0] + Approach(limit - poi[x.lag], if x.poiFresh && hold == 0 then x.dt else 0.0)
    ensures Keeps(ImportRoom([next] + poi[..MAX_LAG], limit), 4 - (if hold > 0 && x.poiFresh then hold - 1 else hold))
  {
    RoomKept(ImportRoom(poi, limit), hold, x, limit - next);
    assert ImportRoom([next] + poi[..MAX_LAG], limit) == [limit - next] + ImportRoom(poi, limit)[..MAX_LAG];
  }

  lemma ReadyKept(cfg: Config, site: Site, loop: Loop, x: Sample)
    requires RatedSite(cfg, site) && Ready(site, loop) && Timely(x)
    ensures Ready(site, After(cfg, site, loop, x))
  {
    var next := After(cfg, site, loop, x).poi[0];
    ReadyIsUndisturbed(site, loop, x);
    UndisturbedTick(cfg, loop.ctrl, TickOf(site, loop, x));
    if site.exportLimit.Some? {
      ExportKept(loop.poi, site.exportLimit.value, loop.ctrl.jumpHold, x, next);
    }
    if site.importLimit.Some? {
      ImportKept(loop.poi, site.importLimit.value, loop.ctrl.jumpHold, x, next);
    }
  }

  /** Safety over whole runs: whatever is requested, however old each reading
      (up to three ticks), fresh, reused or held, in every mode, the true POI
      never leaves the limits. */
  lemma {:induction false} RunStaysInside(cfg: Config, site: Site, loop: Loop, xs: seq<Sample>)
    requires RatedSite(cfg, site) && Ready(site, loop) && AllTimely(xs)
    ensures Ready(site, Run(cfg, site, loop, xs))
    ensures Inside(site, Run(cfg, site, loop, xs).poi[0])
  {
    var end := Run(cfg, site, loop, xs);
    if xs != [] {
      RunStaysInside(cfg, site, loop, xs[..|xs| - 1]);
      ReadyKept(cfg, site, Run(cfg, site, loop, xs[..|xs| - 1]), xs[|xs| - 1]);
    }
    if site.exportLimit.Some? { assert ExportRoom(end.poi, site.exportLimit.value)[0] >= 0.0; }
    if site.importLimit.Some? { assert ImportRoom(end.poi, site.importLimit.value)[0] >= 0.0; }
  }

  /** A settled start: the POI has stood still, and any controller state will do
      as long as it is not skipping readings. */
  ghost predicate SettledStart(site: Site, loop: Loop) {
    && loop.poi == seq(MAX_LAG + 1, _ => site.load - loop.ctrl.output)
    && site.powerMin <= loop.ctrl.output <= site.powerMax
    && loop.ctrl.jumpHold == 0
    && Inside(site, site.load - loop.ctrl.output)
  }

  /** A settled start inside the limits stays inside them forever. */
  lemma ClosedLoopSafety(cfg: Config, site: Site, loop: Loop, xs: seq<Sample>)
    requires RatedSite(cfg, site) && SettledStart(site, loop) && AllTimely(xs)
    ensures Inside(site, Run(cfg, site, loop, xs).poi[0])
    ensures site.powerMin <= Run(cfg, site, loop, xs).ctrl.output <= site.powerMax
  {
    RunStaysInside(cfg, site, loop, xs);
  }
}
