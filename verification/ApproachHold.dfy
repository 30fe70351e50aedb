/** What a held approach does to the output: one held tick, and whole runs of the
    task from the tick that holds growth back. */
module ApproachHold {
  import opened Numbers
  import opened PoiServo
  import opened ControlLaw
  import opened ClosedLoop

  function Unheld(t: Tick): Tick { t.(holdApproach := false) }

  /** The reading is past the export limit. */
  predicate PastExport(t: Tick) {
    t.poi.Some? && t.exportLimit.Some? && t.poi.value + t.exportLimit.value < 0.0
  }

  /** The floor and ceiling a controller clamps into, given some bounds. */
  function Aimed(b: Bounds, powerMin: real, powerMax: real, requested: real): real {
    var ceiling := CapAt(powerMax, b.ceiling);
    Clamp(requested, Min(RaiseTo(powerMin, b.floor), ceiling), ceiling)
  }

  lemma AimedIsTarget(s: State, t: Tick)
    ensures Target(s, t) == Aimed(BoundsFor(s, t), t.powerMin, t.powerMax, t.requested)
  {
  }

  lemma AimedUnderHold(u: real, b: Bounds, powerMin: real, powerMax: real, requested: real)
    requires powerMin <= u <= powerMax && !Crossed(b.floor, b.ceiling)
    ensures Aimed(HoldApproach(u, b), powerMin, powerMax, requested) ==
            if u >= 0.0 then Min(Aimed(b, powerMin, powerMax, requested), u)
            else Max(Aimed(b, powerMin, powerMax, requested), CapAt(u, b.ceiling))
  {
  }

  lemma TravelSign(rate: real, dt: Seconds)
    ensures rate >= 0.0 ==> Travel(rate, dt) >= 0.0
    ensures rate <= 0.0 ==> Travel(rate, dt) <= 0.0
  {
  }

  /** A side backs off only while its limit is violated, and then never approaches it. */
  lemma StepSign(signedPoi: real, limit: Limit, opposite: Option<real>, dt: Seconds)
    requires limit.now.Some?
    ensures var step := Step(signedPoi, limit, opposite, dt).value;
            if signedPoi + limit.now.value >= 0.0 then step >= 0.0 else step <= 0.0
  {
    JumpIsTightening(signedPoi, limit);
    var measured := signedPoi + limit.now.value + Jump(signedPoi, limit);
    TravelSign(Rate(measured, opposite), dt);
  }

  /** Only a reading past the export limit puts the ceiling below the output. */
  lemma CeilingBelowOutput(u: real, poi: real, imports: Limit, exports: Limit, dt: Seconds)
    requires exports.now.Some? ==> poi + exports.now.value >= 0.0
    ensures CapAt(u, ServoBounds(u, poi, imports, exports, dt).ceiling) == u
  {
    JumpIsTightening(-poi, imports);
    if exports.now.Some? { StepSign(poi, exports, Headroom(-poi, imports.now), dt); }
    if imports.now.Some? { StepSign(-poi, imports, Headroom(poi, exports.now), dt); }
  }

  lemma HeldTarget(s: State, t: Tick)
    requires t.poi.Some? && t.holdApproach && t.powerMin <= 0.0 <= t.powerMax
    ensures s.output >= 0.0 ==> Target(s, t) <= s.output
    ensures s.output < 0.0 && CapAt(s.output, BoundsFor(s, Unheld(t)).ceiling) == s.output ==> Target(s, t) >= s.output
  {
  }

  /** A held tick keeps the output from growing on the side it is on. Discharge
      never rises; charging rises only if the reading is past the export limit,
      that is, if the ceiling without the hold lies below the output. */
  lemma HeldTick(cfg: Config, s: State, t: Tick)
    requires t.poi.Some? && t.holdApproach && Rated(cfg, t)
    ensures var u, u' := s.output, Next(cfg, s, t).output;
            && (u >= 0.0 ==> u' <= u)
            && (u < 0.0 && CapAt(u, BoundsFor(s, Unheld(t)).ceiling) == u ==> u' >= u)
            && (u < 0.0 && !PastExport(t) ==> u' >= u)
  {
    OutputMovesTowardTarget(cfg, s, t);
    HeldTarget(s, t);
    if !PastExport(t) {
      CeilingBelowOutput(s.output, t.poi.value, Limit(t.importLimit, s.prevImport), Limit(t.exportLimit, s.prevExport),
        CountedTime(s, t));
    }
  }

  // ----- cuts pass

  lemma PulledBackRamp(cfg: Config, s: State, t: Tick, free: real, target: real)
    requires Rated(cfg, t) && Ramped(cfg, s, t, free).output == s.output
    requires s.output <= target <= free || free <= target <= s.output
    ensures Ramped(cfg, s, t, target).output == s.output
  {
    RampLimitNonNegative(cfg, t, s.output, target);
    if target != s.output { SameRampLimit(cfg, t, s.output, free, target); }
  }

  lemma SameRampLimit(cfg: Config, t: Tick, u: real, free: real, target: real)
    requires u < target <= free || free <= target < u
    ensures RampLimit(cfg, t, u, target) == RampLimit(cfg, t, u, free)
  {
  }

  /** A target pulled back toward an output that a tick keeps is kept as well. */
  lemma PulledBackStays(cfg: Config, s: State, t: Tick, free: real, target: real, violating: bool, clear: bool,
          clear': bool)
    requires Rated(cfg, t) && Settled(cfg, s, t, free, violating, clear).output == s.output
    requires s.output <= target <= free || free <= target <= s.output
    requires target != s.output ==> clear' == clear
    ensures Settled(cfg, s, t, target, violating, clear').output == s.output
  {
    if violating {
    } else if s.mode == Ramping {
      PulledBackRamp(cfg, s, t, free, target);
    } else if s.mode == Constrained && clear' {
      var ramping := s.(dwellElapsed := s.dwellElapsed + t.dt, mode := Ramping);
      if target == s.output {
        RampToHere(cfg, ramping, t);
      } else if ramping.dwellElapsed >= cfg.dwell {
        PulledBackRamp(cfg, ramping, t, free, target);
      }
    }
  }

  lemma RampToHere(cfg: Config, s: State, t: Tick)
    requires Rated(cfg, t)
    ensures Ramped(cfg, s, t, s.output).output == s.output
  {
    RampLimitNonNegative(cfg, t, s.output, s.output);
  }

  lemma HoldKeepsTheRest(s: State, t: Tick)
    requires t.poi.Some? && t.holdApproach
    ensures Violating(s, t) == Violating(s, Unheld(t)) && Noted(s, t) == Noted(s, Unheld(t))
    ensures BoundsFor(s, t).headroomImport == BoundsFor(s, Unheld(t)).headroomImport
    ensures BoundsFor(s, t).headroomExport == BoundsFor(s, Unheld(t)).headroomExport
  {
  }

  lemma TargetUnderHold(s: State, t: Tick)
    requires t.poi.Some? && t.holdApproach && t.powerMin <= s.output <= t.powerMax
    ensures var free := Target(s, Unheld(t));
            Target(s, t) == if s.output >= 0.0 then Min(free, s.output)
                            else Max(free, CapAt(s.output, BoundsFor(s, Unheld(t)).ceiling))
    ensures BoundsFor(s, Unheld(t)).ceiling.Some? ==> Target(s, Unheld(t)) <= BoundsFor(s, Unheld(t)).ceiling.value
  {
    var b := BoundsFor(s, Unheld(t));
    AimedIsTarget(s, t);
    AimedIsTarget(s, Unheld(t));
    AimedUnderHold(s.output, b, t.powerMin, t.powerMax, t.requested);
  }

  lemma RampIgnoresHold(cfg: Config, s: State, t: Tick, target: real)
    ensures Ramped(cfg, s, Unheld(t), target) == Ramped(cfg, s, t, target)
  {
  }

  lemma SettledIgnoresHold(cfg: Config, s: State, t: Tick, target: real, violating: bool, clear: bool)
    ensures Settled(cfg, s, Unheld(t), target, violating, clear) == Settled(cfg, s, t, target, violating, clear)
  {
    RampIgnoresHold(cfg, s, t, target);
    RampIgnoresHold(cfg, s.(dwellElapsed := s.dwellElapsed + t.dt, mode := Ramping), t, target);
  }

  /** Where a tick ends on a given target. */
  function EndsOn(cfg: Config, s: State, t: Tick, target: real, clear: bool): real {
    Settled(cfg, Noted(s, t), t, target, Violating(s, t), clear).output
  }

  lemma TickEndsOn(cfg: Config, s: State, t: Tick)
    requires t.poi.Some? && t.holdApproach
    ensures Next(cfg, s, t).output == EndsOn(cfg, s, t, Target(s, t), Clear(cfg, s, t))
    ensures Next(cfg, s, Unheld(t)).output == EndsOn(cfg, s, t, Target(s, Unheld(t)), Clear(cfg, s, Unheld(t)))
  {
    HoldKeepsTheRest(s, t);
    SettledIgnoresHold(cfg, Noted(s, t), t, Target(s, Unheld(t)), Violating(s, t), Clear(cfg, s, Unheld(t)));
  }

  /** Whether the recovery margin is clear depends on the hold only through the target's side. */
  lemma ClearUnderHold(cfg: Config, s: State, t: Tick)
    requires t.poi.Some? && t.holdApproach
    requires Target(s, t) < s.output <==> Target(s, Unheld(t)) < s.output
    ensures Clear(cfg, s, t) == Clear(cfg, s, Unheld(t))
  {
    HoldKeepsTheRest(s, t);
    SameMargin(cfg, BoundsFor(s, t), BoundsFor(s, Unheld(t)), t, s.output, Target(s, t), Target(s, Unheld(t)));
  }

  lemma SameMargin(cfg: Config, b: Bounds, b': Bounds, t: Tick, u: real, target: real, target': real)
    requires b.headroomImport == b'.headroomImport && b.headroomExport == b'.headroomExport
    requires target < u <==> target' < u
    ensures MarginClear(cfg, b, t, u, target) == MarginClear(cfg, b', Unheld(t), u, target')
  {
  }

  /** Cuts pass a held approach: a tick that without the hold would not have
      moved toward the held side ends on the same output with it. */
  lemma CutsPass(cfg: Config, s: State, t: Tick)
    requires t.poi.Some? && t.holdApproach && Rated(cfg, t) && t.powerMin <= s.output <= t.powerMax
    ensures var u, free := s.output, Next(cfg, s, t.(holdApproach := false)).output;
            (if u >= 0.0 then free <= u else free >= u) ==> Next(cfg, s, t).output == free
  {
    var u, free, target := s.output, Target(s, Unheld(t)), Target(s, t);
    TickEndsOn(cfg, s, t);
    TargetUnderHold(s, t);
    OutputMovesTowardTarget(cfg, s, Unheld(t));
    if target == free {
      ClearUnderHold(cfg, s, t);
    } else if EndsOn(cfg, s, t, free, Clear(cfg, s, Unheld(t))) == u {
      if target != u { ClearUnderHold(cfg, s, t); }
      PulledBackStays(cfg, Noted(s, t), t, free, target, Violating(s, t), Clear(cfg, s, Unheld(t)), Clear(cfg, s, t));
    }
  }

  // ----- what the hold leaves open: the other side of 0 W

  /** How far a held tick in Normal mode may go toward the other side. */
  function OtherSide(s: State, t: Tick): real
    requires t.poi.Some?
  {
    var u, poi, dt := s.output, t.poi.value, CountedTime(s, t);
    if u >= 0.0 then
      RaiseTo(Max(t.requested, t.powerMin),
        if t.importLimit.None? then None else Some(u - Approach(t.importLimit.value - poi, dt)))
    else
      CapAt(Min(t.requested, t.powerMax),
        if t.exportLimit.None? then None else Some(u + Approach(poi + t.exportLimit.value, dt)))
  }

  lemma UndisturbedTarget(s: State, t: Tick)
    requires t.holdApproach && t.powerMin <= s.output <= t.powerMax && Undisturbed(s, t)
    ensures Target(s, t) == if s.output >= 0.0 then Min(OtherSide(s, t), s.output) else Max(OtherSide(s, t), s.output)
  {
    UndisturbedCeiling(s, t);
    UndisturbedFloor(s, t);
  }

  /** The hold bounds the output on its own side only. On a reading inside the
      limits a held tick in Normal mode ends farther from 0 W than it began
      exactly if the request, the rating and the other limit let it cross 0 W
      and go on past the mirror image of where it was. */
  lemma HeldTickGrowsExactly(cfg: Config, s: State, t: Tick)
    requires t.poi.Some? && t.holdApproach && Rated(cfg, t) && t.powerMin <= s.output <= t.powerMax
    requires s.mode == Normal && Undisturbed(s, t)
    ensures var u, other := s.output, OtherSide(s, t);
            Abs(Next(cfg, s, t).output) > Abs(u) <==>
              (if u >= 0.0 then other < -u else other > -u) && Abs(other - u) >= EPSILON
  {
    UndisturbedTarget(s, t);
    OutputMovesTowardTarget(cfg, s, t);
  }

  /** Such a tick: from 100 W of discharge straight to 500 W of charge. */
  lemma HeldReversal(cfg: Config, s: State)
    requires cfg.rampRate >= 0.0 && s == Initial(100.0)
    ensures var t := Tick(None, None, 0.0, -500.0, Some(0.0), true, true, -1000.0, 1000.0, 1.0);
            Next(cfg, s, t).output == -500.0
  {
    var t := Tick(None, None, 0.0, -500.0, Some(0.0), true, true, -1000.0, 1000.0, 1.0);
    UndisturbedTarget(s, t);
    OutputMovesTowardTarget(cfg, s, t);
  }
}
