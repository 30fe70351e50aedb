/** The closed loop of whole ticks of the task: a fixed load, racks that follow the
    command, and a meter whose readings are one of the last four true POIs. */
module TaskLoop {
  import opened Numbers
  import opened ControlLaw
  import opened Rebalance
  import opened Steering
  import G = PoiGate
  import L = ClosedLoop

  /** The true POI after a run and after the ticks before, latest first. */
  ghost function Pois(guard: Guard, load: real, t: Task, poi: seq<real>, xs: seq<Inputs>): (r: seq<real>)
    requires |poi| == 4
    ensures |r| == 4
  {
    if xs == [] then poi
    else
      var ctrl := RunTask(Some(guard), t, xs).ctrl;
      [load - (if ctrl.Some? then ctrl.value.output else 0.0)] + Pois(guard, load, t, poi, xs[..|xs| - 1])[..3]
  }

  /** The racks are told the output, to within a watt, if they are told anything. */
  ghost predicate Followed(guard: Guard, t: Task, x: Inputs)
    requires Ready(guard, x)
  {
    && NotDeenergized(x)
    && (Told(guard, t, x).Ok? ==> Abs(Delivered(Told(guard, t, x).value) - SteeredOutput(guard, t, x)) <= 1.0)
  }

  /** A run in the loop: every reading is there, no more than five seconds old
      and one of the last four true POIs, ticks take up to a second, the limits
      are the site's, and the racks follow. */
  ghost predicate InLoop(guard: Guard, site: L.Site, t: Task, poi: seq<real>, xs: seq<Inputs>)
    requires |poi| == 4
  {
    xs == [] ||
    (var front, x := xs[..|xs| - 1], xs[|xs| - 1];
     && InLoop(guard, site, t, poi, front)
     && Ready(guard, x) && x.poi.Some? && x.poi.value.age <= 5.0 && x.dt <= 1.0
     && x.importLimit == site.importLimit && x.exportLimit == site.exportLimit
     && x.poi.value.power in Pois(guard, site.load, t, poi, front)
     && Followed(guard, RunTask(Some(guard), t, front), x))
  }

  ghost function SampleFor(t: Task, x: Inputs, held: bool, lag: nat): L.Sample
    requires x.activePower.Some? && x.poi.Some?
  {
    L.Sample(x.requested, x.activePower.value, x.dt, t.memory.gate.lastUsed != Some(x.poi.value.receivedAt), held, lag)
  }

  /** One tick of the task in the loop is one tick of the loop. */
  lemma TickInLoop(guard: Guard, site: L.Site, t: Task, poi: seq<real>, x: Inputs, lag: nat) returns (sample: L.Sample)
    requires guard.hasPoiMeter && guard.powerMin == site.powerMin && guard.powerMax == site.powerMax
    requires Ready(guard, x) && x.poi.value.age <= 5.0 && x.dt <= 1.0 && Followed(guard, t, x) && t.ctrl.Some?
    requires x.importLimit == site.importLimit && x.exportLimit == site.exportLimit
    requires |poi| == 4 && lag < 4 && x.poi.value.power == poi[lag]
    ensures L.Timely(sample)
    ensures var ctrl := Ticked(Some(guard), t, x).ctrl;
            && ctrl.Some?
            && L.After(guard.control, site, L.Loop(t.ctrl.value, poi), sample) ==
               L.Loop(ctrl.value, [site.load - ctrl.value.output] + poi[..3])
  {
    sample := SampleFor(t, x, Taken(guard, t.memory.gate, x).Holds(), lag);
    assert TickFor(guard, t.memory.gate, x) == L.TickOf(site, L.Loop(t.ctrl.value, poi), sample);
    FollowedOutput(guard, t, x);
  }

  lemma FollowedOutput(guard: Guard, t: Task, x: Inputs)
    requires Ready(guard, x) && Followed(guard, t, x)
    ensures Ticked(Some(guard), t, x).ctrl == Some(Steered(guard, t.ctrl, t.memory.gate, x))
  {
  }

  lemma {:induction false} RunSnoc(cfg: Config, site: L.Site, loop: L.Loop, before: seq<L.Sample>, sample: L.Sample)
    requires |loop.poi| == 4 && L.AllTimely(before) && L.Timely(sample)
    ensures L.AllTimely(before + [sample])
    ensures L.Run(cfg, site, loop, before + [sample]) ==
            L.After(cfg, site, L.Run(cfg, site, loop, before), sample)
  {
    assert (before + [sample])[..|before|] == before;
  }

  /** The last tick of a run in the loop. */
  lemma {:induction false} LastInLoop(guard: Guard, site: L.Site, t: Task, poi: seq<real>, xs: seq<Inputs>)
    returns (lag: nat)
    requires |poi| == 4 && xs != [] && InLoop(guard, site, t, poi, xs)
    ensures var front, x := xs[..|xs| - 1], xs[|xs| - 1];
            && InLoop(guard, site, t, poi, front)
            && Ready(guard, x) && x.poi.Some? && x.poi.value.age <= 5.0 && x.dt <= 1.0
            && x.importLimit == site.importLimit && x.exportLimit == site.exportLimit
            && Followed(guard, RunTask(Some(guard), t, front), x)
            && lag < 4 && x.poi.value.power == Pois(guard, site.load, t, poi, front)[lag]
  {
    var seen := Pois(guard, site.load, t, poi, xs[..|xs| - 1]);
    lag :| 0 <= lag < |seen| && seen[lag] == xs[|xs| - 1].poi.value.power;
  }

  /** The loop's state after a run of the task. */
  ghost function LoopAfter(guard: Guard, load: real, t: Task, poi: seq<real>, xs: seq<Inputs>): (r: L.Loop)
    requires |poi| == 4 && RunTask(Some(guard), t, xs).ctrl.Some?
    ensures |r.poi| == 4
  {
    L.Loop(RunTask(Some(guard), t, xs).ctrl.value, Pois(guard, load, t, poi, xs))
  }

  lemma {:induction false} LoopExtends(guard: Guard, load: real, t: Task, poi: seq<real>, front: seq<Inputs>, x: Inputs)
    requires |poi| == 4
    ensures RunTask(Some(guard), t, front + [x]) == Ticked(Some(guard), RunTask(Some(guard), t, front), x)
    ensures var ctrl := RunTask(Some(guard), t, front + [x]).ctrl;
            ctrl.Some? ==>
              LoopAfter(guard, load, t, poi, front + [x]) ==
              L.Loop(ctrl.value, [load - ctrl.value.output] + Pois(guard, load, t, poi, front)[..3])
  {
    assert (front + [x])[..|front|] == front;
  }

  lemma {:induction false} LoopAfterTick(guard: Guard, site: L.Site, t: Task, poi: seq<real>, front: seq<Inputs>,
          x: Inputs, lag: nat)
    returns (sample: L.Sample)
    requires guard.hasPoiMeter && guard.powerMin == site.powerMin && guard.powerMax == site.powerMax
    requires |poi| == 4 && RunTask(Some(guard), t, front).ctrl.Some?
    requires Ready(guard, x) && x.poi.value.age <= 5.0 && x.dt <= 1.0
    requires x.importLimit == site.importLimit && x.exportLimit == site.exportLimit
    requires Followed(guard, RunTask(Some(guard), t, front), x)
    requires lag < 4 && x.poi.value.power == Pois(guard, site.load, t, poi, front)[lag]
    ensures L.Timely(sample) && RunTask(Some(guard), t, front + [x]).ctrl.Some?
    ensures LoopAfter(guard, site.load, t, poi, front + [x]) ==
            L.After(guard.control, site, LoopAfter(guard, site.load, t, poi, front), sample)
  {
    sample := TickInLoop(guard, site, RunTask(Some(guard), t, front), Pois(guard, site.load, t, poi, front), x, lag);
    LoopExtends(guard, site.load, t, poi, front, x);
  }

  lemma {:induction false} RunInLoop(guard: Guard, site: L.Site, t: Task, poi: seq<real>, xs: seq<Inputs>)
    returns (samples: seq<L.Sample>)
    requires guard.hasPoiMeter && guard.powerMin == site.powerMin && guard.powerMax == site.powerMax
    requires |poi| == 4 && t.ctrl.Some? && InLoop(guard, site, t, poi, xs)
    ensures L.AllTimely(samples) && RunTask(Some(guard), t, xs).ctrl.Some?
    ensures L.Run(guard.control, site, L.Loop(t.ctrl.value, poi), samples) == LoopAfter(guard, site.load, t, poi, xs)
  {
    samples := [];
    if xs != [] {
      var front, x := xs[..|xs| - 1], xs[|xs| - 1];
      assert front + [x] == xs;
      var lag := LastInLoop(guard, site, t, poi, xs);
      var before := RunInLoop(guard, site, t, poi, front);
      var sample := LoopAfterTick(guard, site, t, poi, front, x, lag);
      samples := before + [sample];
      RunSnoc(guard.control, site, L.Loop(t.ctrl.value, poi), before, sample);
    }
  }

  lemma {:induction false} StartSettled(site: L.Site, ctrl: State, at: real)
    requires at == site.load - ctrl.output && site.powerMin <= ctrl.output <= site.powerMax && ctrl.jumpHold == 0
    requires L.Inside(site, at)
    ensures L.SettledStart(site, L.Loop(ctrl, [at, at, at, at]))
  {
  }

  lemma {:induction false} FirstControllerRuns(guard: Guard, t: Task, xs: seq<Inputs>)
    requires t.ctrl.None? && xs != [] && Ready(guard, xs[0])
    ensures RunTask(Some(guard), t, xs) ==
            RunTask(Some(guard), t.(ctrl := Some(Initial(xs[0].activePower.value))), xs)
  {
    var started := t.(ctrl := Some(Initial(xs[0].activePower.value)));
    if |xs| == 1 {
      assert xs[..0] == [];
      assert Ticked(Some(guard), t, xs[0]) == Ticked(Some(guard), started, xs[0]);
    } else {
      FirstControllerRuns(guard, t, xs[..|xs| - 1]);
    }
  }

  lemma {:induction false} BegunStaysInside(guard: Guard, site: L.Site, t: Task, at: real, xs: seq<Inputs>)
    requires guard.hasPoiMeter && RatedGuard(guard)
    requires guard.powerMin == site.powerMin && guard.powerMax == site.powerMax
    requires t.ctrl.Some? && t.ctrl.value.jumpHold == 0 && InRating(guard, t.ctrl.value.output)
    requires at == site.load - t.ctrl.value.output && L.Inside(site, at)
    requires InLoop(guard, site, t, [at, at, at, at], xs)
    ensures var ctrl := RunTask(Some(guard), t, xs).ctrl;
            ctrl.Some? && InRating(guard, ctrl.value.output) && L.Inside(site, site.load - ctrl.value.output)
  {
    var samples := RunInLoop(guard, site, t, [at, at, at, at], xs);
    StartSettled(site, t.ctrl.value, at);
    L.ClosedLoopSafety(guard.control, site, L.Loop(t.ctrl.value, [at, at, at, at]), samples);
  }

  /** The task keeps the site's limits: in every run in the loop from a settled
      start, its controller running or yet to be built, the true POI after each
      tick is inside the limits that tick was given, whatever is requested,
      whichever readings are reused, late or held back, and whichever writes fail
      on the way. */
  lemma {:induction false} TaskStaysInside(guard: Guard, site: L.Site, t: Task, at: real, xs: seq<Inputs>)
    requires guard.hasPoiMeter && RatedGuard(guard)
    requires guard.powerMin == site.powerMin && guard.powerMax == site.powerMax
    requires xs != [] && Ready(guard, xs[0])
    requires var begun := Start(t, xs[0]);
             && begun.jumpHold == 0 && InRating(guard, begun.output)
             && at == site.load - begun.output && L.Inside(site, at)
             && InLoop(guard, site, t.(ctrl := Some(begun)), [at, at, at, at], xs)
    ensures var x, ctrl := xs[|xs| - 1], RunTask(Some(guard), t, xs).ctrl;
            && ctrl.Some? && InRating(guard, ctrl.value.output)
            && (x.importLimit.Some? ==> site.load - ctrl.value.output <= x.importLimit.value)
            && (x.exportLimit.Some? ==> -(site.load - ctrl.value.output) <= x.exportLimit.value)
  {
    var begun := t.(ctrl := Some(Start(t, xs[0])));
    BegunStaysInside(guard, site, begun, at, xs);
    var lag := LastInLoop(guard, site, begun, [at, at, at, at], xs);
    if t.ctrl.None? { FirstControllerRuns(guard, t, xs); }
  }
}
