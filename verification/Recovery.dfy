/** Recovery from a violation, along any trace: the output is held until the
    limit has been clear for the whole dwell, then ramps to the request in a
    bounded number of ticks. */
module Recovery {
  import opened Numbers
  import opened PoiServo
  import opened ControlLaw

  ghost function Trace(cfg: Config, s: State, ts: seq<Tick>): State {
    if ts == [] then s else Next(cfg, Trace(cfg, s, ts[..|ts| - 1]), ts[|ts| - 1])
  }

  ghost predicate NoViolation(cfg: Config, s: State, ts: seq<Tick>) {
    ts == [] ||
    (NoViolation(cfg, s, ts[..|ts| - 1]) && !Violating(Trace(cfg, s, ts[..|ts| - 1]), ts[|ts| - 1]))
  }

  /** Whether the last tick of the trace found the margin clear. */
  ghost predicate EndsClear(cfg: Config, s: State, ts: seq<Tick>) {
    ts != [] && Clear(cfg, Trace(cfg, s, ts[..|ts| - 1]), ts[|ts| - 1])
  }

  /** Total time of the unbroken run of clear ticks the trace ends with. */
  ghost function ClearTime(cfg: Config, s: State, ts: seq<Tick>): Seconds {
    if !EndsClear(cfg, s, ts) then 0.0 else ClearTime(cfg, s, ts[..|ts| - 1]) + ts[|ts| - 1].dt
  }

  /** The dwell has been served: the trace ends with clear ticks totalling it. */
  ghost predicate Served(cfg: Config, s: State, ts: seq<Tick>) {
    EndsClear(cfg, s, ts) && ClearTime(cfg, s, ts) >= cfg.dwell
  }

  /** From the clamp of a violating tick, with no new violation, the output
      stands still exactly until the dwell has been served. */
  lemma {:induction false} HeldUntilServed(cfg: Config, s: State, ts: seq<Tick>)
    requires s.mode == Constrained && s.dwellElapsed == 0.0
    requires NoViolation(cfg, s, ts)
    requires forall n :: 0 <= n < |ts| ==> !Served(cfg, s, ts[..n])
    ensures var s' := Trace(cfg, s, ts);
            && (s'.mode == Constrained <==> !Served(cfg, s, ts))
            && (!Served(cfg, s, ts) ==> s'.output == s.output && s'.dwellElapsed == ClearTime(cfg, s, ts))
  {
    if ts != [] {
      var front := ts[..|ts| - 1];
      forall n | 0 <= n < |front| ensures !Served(cfg, s, front[..n]) {
        assert front[..n] == ts[..n];
      }
      HeldUntilServed(cfg, s, front);
      HoldTick(cfg, Trace(cfg, s, front), ts[|ts| - 1]);
    }
  }

  lemma HoldTick(cfg: Config, s: State, t: Tick)
    requires s.mode == Constrained && !Violating(s, t)
    ensures var s', waited := Next(cfg, s, t), s.dwellElapsed + t.dt;
            && (s'.mode == Constrained <==> !(Clear(cfg, s, t) && waited >= cfg.dwell))
            && (s'.mode == Constrained ==>
               s'.output == s.output && s'.dwellElapsed == if Clear(cfg, s, t) then waited else 0.0)
  {
  }

  /** A violation re-clamps at once, in any mode, and starts the dwell over. */
  lemma ViolationReclamps(cfg: Config, s: State, t: Tick)
    requires Violating(s, t)
    ensures var s' := Next(cfg, s, t);
            && s'.mode == Constrained && s'.dwellElapsed == 0.0
            && (s'.output == Target(s, t) || (s'.output == s.output && Abs(Target(s, t) - s.output) < EPSILON))
  {
  }

  /** A ramping tick moves at most the ramp limit, toward the target and never
      past it, and is Normal exactly when the target was within reach. */
  lemma RampTick(cfg: Config, s: State, t: Tick)
    requires Rated(cfg, t) && s.mode == Ramping && !Violating(s, t)
    ensures var s', target := Next(cfg, s, t), Target(s, t);
            var limit := RampLimit(cfg, t, s.output, target);
            && Abs(s'.output - s.output) <= limit
            && (s.output <= s'.output <= target || target <= s'.output <= s.output)
            && (Abs(target - s.output) <= limit ==> s'.mode == Normal && Abs(target - s'.output) < EPSILON)
            && (Abs(target - s.output) > limit ==> s'.mode == Ramping)
            && (Abs(target - s.output) > limit >= EPSILON ==> Abs(target - s'.output) == Abs(target - s.output) - limit)
  {
    RampLimitNonNegative(cfg, t, s.output, Target(s, t));
  }

  /** Every tick of the trace is clear of violations, aims at `target`, and may
      ramp by at least `step`. */
  ghost predicate Steady(cfg: Config, s: State, ts: seq<Tick>, target: real, step: real) {
    ts == [] ||
    (var s', t := Trace(cfg, s, ts[..|ts| - 1]), ts[|ts| - 1];
     && Steady(cfg, s, ts[..|ts| - 1], target, step)
     && Rated(cfg, t) && !Violating(s', t)
     && Target(s', t) == target
     && RampLimit(cfg, t, s'.output, target) >= step)
  }

  /** `n` ticks of `step` each. */
  function Reach(n: nat, step: real): real {
    if n == 0 then 0.0 else Reach(n - 1, step) + step
  }

  ghost predicate Arrived(s: State, target: real) {
    s.mode == Normal && Abs(target - s.output) < EPSILON
  }

  lemma ArrivedStays(cfg: Config, s: State, t: Tick)
    requires Arrived(s, Target(s, t)) && !Violating(s, t)
    ensures Arrived(Next(cfg, s, t), Target(s, t))
  {
  }

  /** Arrived, or still ramping with at most `left` to go. */
  ghost predicate Nearing(s: State, target: real, left: real) {
    Arrived(s, target) || (s.mode == Ramping && Abs(target - s.output) <= left)
  }

  lemma NearingStep(cfg: Config, s: State, t: Tick, left: real, step: real)
    requires step >= EPSILON && Rated(cfg, t) && !Violating(s, t)
    requires Nearing(s, Target(s, t), left) && RampLimit(cfg, t, s.output, Target(s, t)) >= step
    ensures Nearing(Next(cfg, s, t), Target(s, t), left - step)
    ensures left <= step ==> Arrived(Next(cfg, s, t), Target(s, t))
  {
    if Arrived(s, Target(s, t)) { ArrivedStays(cfg, s, t); } else { RampTick(cfg, s, t); }
  }

  /** A steady ramp arrives, and stays, once its ticks can cover the distance. */
  lemma {:induction false} RampArrives(cfg: Config, s: State, ts: seq<Tick>, target: real, step: real)
    requires s.mode == Ramping && step >= EPSILON && Steady(cfg, s, ts, target, step)
    ensures Nearing(Trace(cfg, s, ts), target, Abs(target - s.output) - Reach(|ts|, step))
    ensures ts != [] && Abs(target - s.output) <= Reach(|ts|, step) ==> Arrived(Trace(cfg, s, ts), target)
  {
    if ts != [] {
      var front, t := ts[..|ts| - 1], ts[|ts| - 1];
      RampArrives(cfg, s, front, target, step);
      NearingStep(cfg, Trace(cfg, s, front), t, Abs(target - s.output) - Reach(|front|, step), step);
    }
  }
}
