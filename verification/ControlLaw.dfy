/** The envelope controller: clamp at once on a violation, hold until the limit
    has been clear for the dwell, then ramp back to the request.

    `Next` is one tick on values; the class updates its fields in place and is
    proved to compute it. */
module ControlLaw {
  import opened Numbers
  import opened PoiServo

  /** How many new readings go uncounted once a jump has been made. */
  const JUMP_HOLD_READINGS: nat := 3

  datatype Mode = Normal | Constrained | Ramping

  datatype Config = Config(rampRate: real, margin: real, dwell: Seconds)

  datatype Tick = Tick(
    importLimit: Option<real>,
    exportLimit: Option<real>,
    activePower: real,
    requested: real,
    poi: Option<real>,
    poiFresh: bool,
    holdApproach: bool,
    powerMin: real,
    powerMax: real,
    dt: Seconds
  )

  datatype State = State(
    mode: Mode,
    dwellElapsed: Seconds,
    output: real,
    prevImport: Option<real>,
    prevExport: Option<real>,
    jumpHold: nat
  )

  /** Time this tick integrates a POI reading for: none for a reused reading,
      nor while readings are skipped after a jump. */
  function CountedTime(s: State, t: Tick): Seconds {
    if t.poiFresh && s.jumpHold == 0 then t.dt else 0.0
  }

  function BoundsFor(s: State, t: Tick): Bounds {
    match t.poi
    case Some(poi) =>
      var b := ServoBounds(s.output, poi, Limit(t.importLimit, s.prevImport), Limit(t.exportLimit, s.prevExport),
        CountedTime(s, t));
      if t.holdApproach then HoldApproach(s.output, b) else b
    case None => BatteryBounds(t.activePower, t.importLimit, t.exportLimit)
  }

  function Ceiling(s: State, t: Tick): real {
    CapAt(t.powerMax, BoundsFor(s, t).ceiling)
  }

  function Floor(s: State, t: Tick): (r: real)
    ensures r <= Ceiling(s, t)
  {
    Min(RaiseTo(t.powerMin, BoundsFor(s, t).floor), Ceiling(s, t))
  }

  /** The request, clamped into this tick's window. */
  function Target(s: State, t: Tick): (r: real)
    ensures Floor(s, t) <= r <= Ceiling(s, t)
  {
    Clamp(t.requested, Floor(s, t), Ceiling(s, t))
  }

  predicate Exhausted(headroom: Option<real>) {
    headroom.Some? && headroom.value <= 0.0
  }

  predicate Violating(s: State, t: Tick) {
    Exhausted(BoundsFor(s, t).headroomExport) || Exhausted(BoundsFor(s, t).headroomImport)
  }

  predicate HasMargin(headroom: Option<real>, margin: real) {
    headroom.None? || headroom.value >= margin
  }

  /** Whether the side the ramp would move toward has its recovery margin; the
      other side needs none. */
  predicate MarginClear(cfg: Config, b: Bounds, t: Tick, output: real, target: real) {
    if target < output then HasMargin(b.headroomImport, cfg.margin * Abs(t.powerMin))
    else HasMargin(b.headroomExport, cfg.margin * t.powerMax)
  }

  predicate Clear(cfg: Config, s: State, t: Tick) {
    MarginClear(cfg, BoundsFor(s, t), t, s.output, Target(s, t))
  }

  function Written(s: State, value: real): State {
    if Abs(value - s.output) < EPSILON then s else s.(output := value)
  }

  /** Farthest a ramping tick moves from `output` toward `target`. */
  function RampLimit(cfg: Config, t: Tick, output: real, target: real): real {
    cfg.rampRate * (if target >= output then t.powerMax else Abs(t.powerMin)) * t.dt
  }

  function Ramped(cfg: Config, s: State, t: Tick, target: real): State {
    var delta, limit := target - s.output, RampLimit(cfg, t, s.output, target);
    if Abs(delta) <= limit then Written(s.(mode := Normal), target)
    else Written(s, s.output + (if delta >= 0.0 then limit else -limit))
  }

  /** What a tick records before it picks an output: readings still to skip and
      the limits the next tick compares with. */
  function Noted(s: State, t: Tick): State {
    s.(prevImport := t.importLimit,
       prevExport := t.exportLimit,
       jumpHold :=
         if BoundsFor(s, t).jumped then JUMP_HOLD_READINGS
         else if s.jumpHold > 0 && t.poiFresh then s.jumpHold - 1
         else s.jumpHold)
  }

  /** The mode machine, once the window is known. */
  function Settled(cfg: Config, s: State, t: Tick, target: real, violating: bool, clear: bool): State {
    if violating then Written(s.(mode := Constrained, dwellElapsed := 0.0), target)
    else match s.mode
      case Normal => Written(s, target)
      case Ramping => Ramped(cfg, s, t, target)
      case Constrained =>
        if !clear then s.(dwellElapsed := 0.0)
        else
          var waited := s.(dwellElapsed := s.dwellElapsed + t.dt);
          if waited.dwellElapsed < cfg.dwell then waited
          else Ramped(cfg, waited.(mode := Ramping), t, target)
  }

  function Next(cfg: Config, s: State, t: Tick): State {
    Settled(cfg, Noted(s, t), t, Target(s, t), Violating(s, t), Clear(cfg, s, t))
  }

  function Initial(output: real): State {
    State(Normal, 0.0, output, None, None, 0)
  }

  /** One tick of ramp toward 0 W, for a POI meter that has gone quiet. */
  function RampedToZero(cfg: Config, s: State, powerMin: real, powerMax: real, dt: Seconds): State {
    var rated := if s.output > 0.0 then powerMax else Abs(powerMin);
    var step := cfg.rampRate * rated * dt;
    s.(output := if Abs(s.output) <= step then 0.0 else if s.output >= 0.0 then s.output - step else s.output + step)
  }

  // ----- the controller object

  class EnvelopeController {
    var mode: Mode
    var dwellElapsed: Seconds
    var currentOutput: real
    const config: Config
    var prevImport: Option<real>
    var prevExport: Option<real>
    var jumpHold: nat

    ghost function View(): State
      reads this
    {
      State(mode, dwellElapsed, currentOutput, prevImport, prevExport, jumpHold)
    }

    constructor (config: Config, initialOutput: real)
      ensures View() == Initial(initialOutput) && this.config == config
    {
      mode, dwellElapsed, currentOutput := Normal, 0.0, initialOutput;
      this.config := config;
      prevImport, prevExport, jumpHold := None, None, 0;
    }

    /** The tick itself, with what it changed the output to, if it did. */
    method Advance(input: Tick) returns (changed: Option<real>)
      modifies this
      ensures View() == Next(config, old(View()), input)
      ensures changed == if currentOutput == old(currentOutput) then None else Some(currentOutput)
    {
      ghost var before := View();
      var held := input;
      if jumpHold > 0 && input.poiFresh {
        jumpHold := jumpHold - 1;
        held := held.(poiFresh := false);
      }
      var counted := if held.poiFresh then input.dt else 0.0;
      var bounds := BatteryBounds(input.activePower, input.importLimit, input.exportLimit);
      if input.poi.Some? {
        bounds := ServoBounds(currentOutput, input.poi.value, Limit(input.importLimit, prevImport),
          Limit(input.exportLimit, prevExport), counted);
        if input.holdApproach {
          bounds := HoldApproach(currentOutput, bounds);
        }
      }
      assert bounds == BoundsFor(before, input);
      if bounds.jumped {
        jumpHold := JUMP_HOLD_READINGS;
      }
      var ceiling := CapAt(input.powerMax, bounds.ceiling);
      var floor := Min(RaiseTo(input.powerMin, bounds.floor), ceiling);
      prevImport, prevExport := input.importLimit, input.exportLimit;
      assert View() == Noted(before, input);
      var target := Clamp(input.requested, floor, ceiling);
      var violating := Exhausted(bounds.headroomExport) || Exhausted(bounds.headroomImport);
      var clear := MarginClear(config, bounds, input, currentOutput, target);
      assert target == Target(before, input) && clear == Clear(config, before, input);
      changed := Settle(input, target, violating, clear);
    }

    /** Run the mode machine on this tick's target. */
    method Settle(input: Tick, target: real, violating: bool, clear: bool) returns (changed: Option<real>)
      modifies this`currentOutput, this`mode, this`dwellElapsed
      ensures View() == Settled(config, old(View()), input, target, violating, clear)
      ensures changed == if currentOutput == old(currentOutput) then None else Some(currentOutput)
    {
      if violating {
        mode, dwellElapsed := Constrained, 0.0;
        changed := WriteOutput(target);
        return;
      }
      if mode == Constrained {
        if clear {
          dwellElapsed := dwellElapsed + input.dt;
          if dwellElapsed >= config.dwell {
            mode := Ramping;
          }
        } else {
          dwellElapsed := 0.0;
        }
        if mode == Constrained {
          return None;
        }
      }
      if mode == Normal {
        changed := WriteOutput(target);
      } else {
        changed := RampStep(input, target);
      }
    }

    /** Ramp one tick toward `target`; reaching it ends the recovery. */
    method RampStep(input: Tick, target: real) returns (changed: Option<real>)
      modifies this`currentOutput, this`mode
      ensures View() == Ramped(config, old(View()), input, target)
      ensures changed == if currentOutput == old(currentOutput) then None else Some(currentOutput)
    {
      var delta := target - currentOutput;
      var rated := if delta >= 0.0 then input.powerMax else Abs(input.powerMin);
      var maxStep := config.rampRate * rated * input.dt;
      var next := currentOutput + (if delta >= 0.0 then maxStep else -maxStep);
      if Abs(delta) <= maxStep {
        mode := Normal;
        next := target;
      }
      changed := WriteOutput(next);
    }

    method WriteOutput(value: real) returns (changed: Option<real>)
      modifies this`currentOutput
      ensures View() == Written(old(View()), value)
      ensures changed == if currentOutput == old(currentOutput) then None else Some(currentOutput)
    {
      if Abs(value - currentOutput) < EPSILON { return None; }
      currentOutput := value;
      return Some(value);
    }

    /** Take the delivered power for the output. */
    method SyncToDelivered(delivered: real)
      modifies this`currentOutput
      ensures View() == old(View()).(output := delivered)
    {
      currentOutput := delivered;
    }

    /** One ramp step nearer to standing still. */
    method RampToZero(powerMin: real, powerMax: real, dt: Seconds)
      modifies this`currentOutput
      ensures View() == RampedToZero(config, old(View()), powerMin, powerMax, dt)
    {
      var u := currentOutput;
      var rated := if u > 0.0 then powerMax else Abs(powerMin);
      var step := config.rampRate * rated * dt;
      currentOutput := if Abs(u) <= step then 0.0 else if u >= 0.0 then u - step else u + step;
    }
  }

  // ----- one tick, whatever the mode

  /** A rating that spans 0 W and a ramp rate that is not negative. */
  ghost predicate Rated(cfg: Config, t: Tick) {
    cfg.rampRate >= 0.0 && t.powerMin <= 0.0 <= t.powerMax
  }

  lemma RampLimitNonNegative(cfg: Config, t: Tick, output: real, target: real)
    requires Rated(cfg, t)
    ensures RampLimit(cfg, t, output, target) >= 0.0
  {
    var rated := if target >= output then t.powerMax else Abs(t.powerMin);
    assert cfg.rampRate * rated >= 0.0;
    assert cfg.rampRate * rated * t.dt >= 0.0;
  }

  /** In every mode a tick leaves the output where it was or moves it toward
      the clamped request, never past it; a violation or Normal mode lands on it. */
  lemma OutputMovesTowardTarget(cfg: Config, s: State, t: Tick)
    requires Rated(cfg, t)
    ensures var u, u', target := s.output, Next(cfg, s, t).output, Target(s, t);
            && (u <= u' <= target || target <= u' <= u)
            && (Violating(s, t) || s.mode == Normal ==> u' == target || (u' == u && Abs(target - u) < EPSILON))
  {
    RampLimitNonNegative(cfg, t, s.output, Target(s, t));
  }

  /** The recorded limits and skipped readings do not depend on the mode. */
  lemma NextNotes(cfg: Config, s: State, t: Tick)
    ensures var s', noted := Next(cfg, s, t), Noted(s, t);
            s'.jumpHold == noted.jumpHold && s'.prevImport == t.importLimit && s'.prevExport == t.exportLimit
  {
  }

  /** The clamp's window is never empty and never above the rating; it reaches
      below the rating only when a limit's ceiling already does. */
  lemma WindowWithinRating(s: State, t: Tick)
    requires t.powerMin <= t.powerMax
    ensures Floor(s, t) <= Target(s, t) <= Ceiling(s, t) <= t.powerMax
    ensures Target(s, t) < t.powerMin ==> BoundsFor(s, t).ceiling.Some? && BoundsFor(s, t).ceiling.value < t.powerMin
    ensures Floor(s, t) < t.powerMin <==> BoundsFor(s, t).ceiling.Some? && BoundsFor(s, t).ceiling.value < t.powerMin
  {
  }

  /** Such a ceiling exists: a battery of 10 W either way, 100 W over a zero export
      limit that has not changed, is sent to -30 W in one 1 s tick. */
  lemma OutputBelowRating(cfg: Config)
    ensures var s := Initial(0.0).(prevExport := Some(0.0));
            var t := Tick(None, Some(0.0), 0.0, 0.0, Some(-100.0), true, false, -10.0, 10.0, 1.0);
            Next(cfg, s, t).output == -30.0 && Next(cfg, s, t).output < t.powerMin
  {
    var exports := Limit(Some(0.0), Some(0.0));
    assert Jump(-100.0, exports) == 0.0 && Rate(-100.0, None) == -30.0;
    assert Step(-100.0, exports, None, 1.0) == Some(-30.0);
  }

  /** Whatever the limits, the servo hands the controller bounds in order, and an
      approach hold keeps them so. */
  lemma ServoBoundsOrdered(u: real, poi: real, imports: Limit, exports: Limit, dt: Seconds)
    ensures var b := ServoBounds(u, poi, imports, exports, dt);
            && !Crossed(b.floor, b.ceiling)
            && !Crossed(HoldApproach(u, b).floor, HoldApproach(u, b).ceiling)
  {
  }
}
