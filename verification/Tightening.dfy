/** A tightening is counted exactly once. While the meter goes on showing the
    settled reading, successive tightenings telescope: the output ends exactly
    where the last limit asks, and the skipped readings keep the servo from
    integrating the violation it has already taken off. */
module Tightening {
  import opened Numbers
  import opened PoiServo
  import opened ControlLaw
  import opened ClosedLoop

  datatype Side = Import | Export

  /** POI flow in the direction `side` limits. */
  function Toward(side: Side, poi: real): real {
    if side == Import then -poi else poi
  }

  /** The move of the output that relieves `side` by `watts`. */
  function Relief(side: Side, watts: real): real {
    if side == Import then watts else -watts
  }

  function LimitsOf(side: Side, s: State, t: Tick): Limit {
    if side == Import then Limit(t.importLimit, s.prevImport) else Limit(t.exportLimit, s.prevExport)
  }

  function Other(side: Side): Side {
    if side == Import then Export else Import
  }

  /** The request asks for no more relief of `side` than `output` already gives. */
  predicate AsksNoMore(side: Side, requested: real, output: real) {
    if side == Import then requested <= output else requested >= output
  }

  /** The reading uses up `side`'s limit, and any violation is either new this
      tick or on a reading that is not counted. */
  ghost predicate OnlyTheTightening(side: Side, s: State, t: Tick) {
    && t.poi.Some? && !t.holdApproach
    && LimitsOf(side, s, t).now.Some?
    && Toward(side, t.poi.value) + LimitsOf(side, s, t).now.value <= 0.0
    && (CountedTime(s, t) == 0.0 || Deficit(Headroom(Toward(side, t.poi.value), LimitsOf(side, s, t).prev)) == 0.0)
  }

  ghost predicate OtherSideQuiet(side: Side, s: State, t: Tick)
    requires t.poi.Some?
  {
    var other := LimitsOf(Other(side), s, t);
    Jump(Toward(Other(side), t.poi.value), other) == 0.0 &&
      (other.now.Some? ==> Toward(Other(side), t.poi.value) + other.now.value >= 0.0)
  }

  lemma UncountedRate(measured: real, opposite: Option<real>, dt: Seconds)
    requires measured == 0.0 || dt == 0.0
    ensures Travel(Rate(measured, opposite), dt) == 0.0
  {
  }

  /** The violated side's step is the jump and nothing else. */
  lemma StepIsJump(signedPoi: real, limit: Limit, opposite: Option<real>, dt: Seconds)
    requires limit.now.Some? && signedPoi + limit.now.value <= 0.0
    requires dt == 0.0 || Deficit(Headroom(signedPoi, limit.prev)) == 0.0
    ensures Step(signedPoi, limit, opposite, dt) == Some(-Jump(signedPoi, limit))
  {
    UncountedRate(signedPoi + limit.now.value + Jump(signedPoi, limit), opposite, dt);
  }

  lemma TighteningWindow(side: Side, s: State, t: Tick)
    requires OnlyTheTightening(side, s, t) && OtherSideQuiet(side, s, t)
    requires t.powerMin <= s.output + Relief(side, Jump(Toward(side, t.poi.value), LimitsOf(side, s, t))) <= t.powerMax
    requires t.powerMin <= s.output <= t.powerMax
    ensures var target := s.output + Relief(side, Jump(Toward(side, t.poi.value), LimitsOf(side, s, t)));
            && (side == Import ==> Floor(s, t) == target)
            && (side == Export ==> Ceiling(s, t) == target)
            && Floor(s, t) <= target <= Ceiling(s, t)
  {
    if side == Import { ImportWindow(s, t); } else { ExportWindow(s, t); }
  }

  lemma ImportWindow(s: State, t: Tick)
    requires OnlyTheTightening(Import, s, t) && OtherSideQuiet(Import, s, t)
    requires t.powerMin <= s.output + Jump(-t.poi.value, Limit(t.importLimit, s.prevImport)) <= t.powerMax
    requires t.powerMin <= s.output <= t.powerMax
    ensures Floor(s, t) == s.output + Jump(-t.poi.value, Limit(t.importLimit, s.prevImport)) <= Ceiling(s, t)
  {
    var poi, dt := t.poi.value, CountedTime(s, t);
    StepIsJump(-poi, Limit(t.importLimit, s.prevImport), Headroom(poi, t.exportLimit), dt);
    if t.exportLimit.Some? {
      UndisturbedStep(poi, Limit(t.exportLimit, s.prevExport), Headroom(-poi, t.importLimit), dt);
    }
  }

  lemma ExportWindow(s: State, t: Tick)
    requires OnlyTheTightening(Export, s, t) && OtherSideQuiet(Export, s, t)
    requires t.powerMin <= s.output - Jump(t.poi.value, Limit(t.exportLimit, s.prevExport)) <= t.powerMax
    requires t.powerMin <= s.output <= t.powerMax
    ensures Floor(s, t) <= s.output - Jump(t.poi.value, Limit(t.exportLimit, s.prevExport)) == Ceiling(s, t)
  {
    var poi, dt := t.poi.value, CountedTime(s, t);
    StepIsJump(poi, Limit(t.exportLimit, s.prevExport), Headroom(-poi, t.importLimit), dt);
    if t.importLimit.Some? {
      UndisturbedStep(-poi, Limit(t.importLimit, s.prevImport), Headroom(poi, t.exportLimit), dt);
    }
  }

  lemma TighteningViolates(side: Side, s: State, t: Tick)
    requires OnlyTheTightening(side, s, t) && OtherSideQuiet(side, s, t)
    ensures Violating(s, t)
    ensures BoundsFor(s, t).jumped <==> Jump(Toward(side, t.poi.value), LimitsOf(side, s, t)) > 0.0
  {
  }

  /** One tick on a violated reading moves the output by exactly its jump. */
  lemma TighteningTick(cfg: Config, side: Side, s: State, t: Tick)
    requires OnlyTheTightening(side, s, t) && OtherSideQuiet(side, s, t) && t.powerMin <= s.output <= t.powerMax
    requires var jump := Jump(Toward(side, t.poi.value), LimitsOf(side, s, t));
             && (jump == 0.0 || jump >= EPSILON)
             && t.powerMin <= s.output + Relief(side, jump) <= t.powerMax
             && AsksNoMore(side, t.requested, s.output + Relief(side, jump))
    ensures var jump, s' := Jump(Toward(side, t.poi.value), LimitsOf(side, s, t)), Next(cfg, s, t);
            && s'.output == s.output + Relief(side, jump)
            && s'.prevImport == t.importLimit && s'.prevExport == t.exportLimit
            && s'.jumpHold == if jump > 0.0 then JUMP_HOLD_READINGS
               else if s.jumpHold > 0 && t.poiFresh then s.jumpHold - 1 else s.jumpHold
  {
    TighteningWindow(side, s, t);
    TighteningViolates(side, s, t);
    NextNotes(cfg, s, t);
  }

  // ----- a sequence of tightenings under one reading

  /** What stays the same along the sequence: the settled reading, the other
      side's limit and the rating. */
  datatype Scene = Scene(poi: real, other: Option<real>, powerMin: real, powerMax: real)

  datatype Change = Change(limit: real, requested: real, activePower: real, dt: Seconds, poiFresh: bool)

  function TickOn(side: Side, scene: Scene, x: Change): Tick {
    var limit := Some(x.limit);
    Tick(if side == Import then limit else scene.other, if side == Import then scene.other else limit,
         x.activePower, x.requested, Some(scene.poi), x.poiFresh, false, scene.powerMin, scene.powerMax, x.dt)
  }

  ghost function Follow(cfg: Config, side: Side, scene: Scene, s: State, xs: seq<Change>): State {
    if xs == [] then s
    else Next(cfg, Follow(cfg, side, scene, s, xs[..|xs| - 1]), TickOn(side, scene, xs[|xs| - 1]))
  }

  /** Fresh readings seen since the last tightening. */
  ghost function SinceTightening(xs: seq<Change>): nat {
    if |xs| <= 1 || xs[|xs| - 1].limit < xs[|xs| - 2].limit then 0
    else SinceTightening(xs[..|xs| - 1]) + (if xs[|xs| - 1].poiFresh then 1 else 0)
  }

  /** The settled reading is shown at most three fresh times after each tightening. */
  ghost predicate ShownWithinLag(xs: seq<Change>) {
    |xs| <= 1 ||
    (ShownWithinLag(xs[..|xs| - 1]) && (xs[|xs| - 1].poiFresh ==> SinceTightening(xs[..|xs| - 1]) < MAX_LAG))
  }

  /** How far the settled reading violates a limit. */
  function Excess(side: Side, scene: Scene, limit: real): real {
    -(Toward(side, scene.poi) + limit)
  }

  /** The limit is violated by at least the write threshold, the relief it
      needs is within the rating, and the request asks for no more than that. */
  ghost predicate Binding(side: Side, scene: Scene, start: real, x: Change) {
    var target := start + Relief(side, Excess(side, scene, x.limit));
    && Excess(side, scene, x.limit) >= EPSILON
    && scene.powerMin <= target <= scene.powerMax
    && AsksNoMore(side, x.requested, target)
  }

  /** Unchanged, or tightened by at least the write threshold. */
  ghost predicate NotLooser(prev: Change, x: Change) {
    x.limit == prev.limit || x.limit + EPSILON <= prev.limit
  }

  ghost predicate Tightening(side: Side, scene: Scene, start: real, xs: seq<Change>) {
    && (forall k :: 0 <= k < |xs| ==> Binding(side, scene, start, xs[k]))
    && (forall k :: 0 < k < |xs| ==> NotLooser(xs[k - 1], xs[k]))
  }

  /** The controller was settled: the reading kept within the limits it last saw. */
  ghost predicate SettledOn(side: Side, scene: Scene, s: State) {
    && scene.powerMin <= s.output <= scene.powerMax
    && Deficit(Headroom(Toward(side, scene.poi), if side == Import then s.prevImport else s.prevExport)) == 0.0
    && (scene.other.Some? ==> Toward(Other(side), scene.poi) + scene.other.value >= 0.0)
  }

  lemma OtherSideStaysQuiet(side: Side, scene: Scene, s: State, x: Change)
    requires scene.other.Some? ==> Toward(Other(side), scene.poi) + scene.other.value >= 0.0
    ensures OtherSideQuiet(side, s, TickOn(side, scene, x))
  {
  }

  lemma FirstTightening(cfg: Config, side: Side, scene: Scene, s: State, x: Change)
    requires SettledOn(side, scene, s) && Binding(side, scene, s.output, x)
    ensures var s', t := Next(cfg, s, TickOn(side, scene, x)), TickOn(side, scene, x);
            && s'.output == s.output + Relief(side, Excess(side, scene, x.limit))
            && s'.prevImport == t.importLimit && s'.prevExport == t.exportLimit
            && s'.jumpHold == JUMP_HOLD_READINGS
  {
    var t := TickOn(side, scene, x);
    OtherSideStaysQuiet(side, scene, s, x);
    JumpIsTightening(Toward(side, scene.poi), LimitsOf(side, s, t));
    TighteningTick(cfg, side, s, t);
  }

  lemma LaterTightening(cfg: Config, side: Side, scene: Scene, start: real, s: State, prev: Change, x: Change)
    requires Binding(side, scene, start, prev) && Binding(side, scene, start, x) && NotLooser(prev, x)
    requires s.output == start + Relief(side, Excess(side, scene, prev.limit))
    requires s.prevImport == TickOn(side, scene, prev).importLimit &&
             s.prevExport == TickOn(side, scene, prev).exportLimit
    requires scene.other.Some? ==> Toward(Other(side), scene.poi) + scene.other.value >= 0.0
    requires x.poiFresh ==> s.jumpHold > 0
    ensures var s', t := Next(cfg, s, TickOn(side, scene, x)), TickOn(side, scene, x);
            && s'.output == start + Relief(side, Excess(side, scene, x.limit))
            && s'.prevImport == t.importLimit && s'.prevExport == t.exportLimit
            && s'.jumpHold == if x.limit < prev.limit then JUMP_HOLD_READINGS
                              else if x.poiFresh then s.jumpHold - 1 else s.jumpHold
  {
    var t := TickOn(side, scene, x);
    OtherSideStaysQuiet(side, scene, s, x);
    assert LimitsOf(side, s, t) == Limit(Some(x.limit), Some(prev.limit));
    JumpIsTightening(Toward(side, scene.poi), LimitsOf(side, s, t));
    TighteningTick(cfg, side, s, t);
  }

  /** The tightenings telescope: the output moves by exactly the violation of
      the last limit, however many steps the limit took and however many of the
      skipped readings came by. */
  lemma {:induction false} TighteningsTelescope(cfg: Config, side: Side, scene: Scene, s: State, xs: seq<Change>)
    requires xs != [] && SettledOn(side, scene, s) && Tightening(side, scene, s.output, xs) && ShownWithinLag(xs)
    ensures var s', t := Follow(cfg, side, scene, s, xs), TickOn(side, scene, xs[|xs| - 1]);
            && s'.output == s.output + Relief(side, Excess(side, scene, xs[|xs| - 1].limit))
            && s'.prevImport == t.importLimit && s'.prevExport == t.exportLimit
            && SinceTightening(xs) <= MAX_LAG
            && s'.jumpHold == JUMP_HOLD_READINGS - SinceTightening(xs)
  {
    var front, last := xs[..|xs| - 1], xs[|xs| - 1];
    if |xs| == 1 {
      assert xs == [last] && front == [];
      FirstTightening(cfg, side, scene, s, last);
    } else {
      var prev := xs[|xs| - 2];
      assert front[|front| - 1] == prev && Binding(side, scene, s.output, prev) && NotLooser(prev, last);
      TighteningsTelescope(cfg, side, scene, s, front);
      LaterTightening(cfg, side, scene, s.output, Follow(cfg, side, scene, s, front), prev, last);
    }
  }

  // ----- in closed loop

  function SiteOf(side: Side, scene: Scene, load: real, limit: real): Site {
    Site(load, if side == Import then Some(limit) else scene.other, if side == Import then scene.other else Some(limit),
         scene.powerMin, scene.powerMax)
  }

  /** One tick of the loop under a limit of its own. */
  datatype LoopChange = LoopChange(limit: real, sample: Sample)

  ghost predicate WithinLag(xs: seq<LoopChange>) {
    forall k :: 0 <= k < |xs| ==> xs[k].sample.lag <= MAX_LAG
  }

  ghost function FollowLoop(cfg: Config, side: Side, scene: Scene, load: real, loop: Loop,
          xs: seq<LoopChange>): (r: Loop)
    requires |loop.poi| == MAX_LAG + 1 && WithinLag(xs)
    ensures |r.poi| == MAX_LAG + 1
  {
    if xs == [] then loop
    else
      var x := xs[|xs| - 1];
      After(cfg, SiteOf(side, scene, load, x.limit), FollowLoop(cfg, side, scene, load, loop, xs[..|xs| - 1]), x.sample)
  }

  /** The request and limit of a tick in the loop. */
  function ChangeOf(x: LoopChange): Change {
    Change(x.limit, x.sample.requested, x.sample.activePower, x.sample.dt, x.sample.poiFresh)
  }

  /** Tightenings, some of 0 W, none held back, that leave a band to the other
      limit; each tick reads the true POI of any of the last four. */
  ghost predicate LoopTightening(side: Side, scene: Scene, start: real, xs: seq<LoopChange>) {
    && WithinLag(xs)
    && (forall k :: 0 <= k < |xs| ==> BindingInLoop(side, scene, start, xs[k]))
    && (forall k :: 0 < k < |xs| ==> NotLooser(ChangeOf(xs[k - 1]), ChangeOf(xs[k])))
  }

  ghost predicate BindingInLoop(side: Side, scene: Scene, start: real, x: LoopChange) {
    && Binding(side, scene, start, ChangeOf(x)) && !x.sample.holdApproach
    && (scene.other.Some? ==> x.limit + scene.other.value >= 0.0)
  }

  /** The loop has stood still inside the limits the controller last saw. */
  ghost predicate SettledLoop(side: Side, scene: Scene, load: real, loop: Loop) {
    && loop.poi == seq(MAX_LAG + 1, _ => load - loop.ctrl.output)
    && scene.poi == load - loop.ctrl.output
    && SettledOn(side, scene, loop.ctrl)
  }

  /** A reading uses up the limit and leaves room on the other side. */
  ghost predicate Shows(side: Side, scene: Scene, limit: real, poi: real) {
    && Toward(side, poi) + limit <= 0.0
    && (scene.other.Some? ==> Toward(Other(side), poi) + scene.other.value >= 0.0)
  }

  /** What the tightenings keep: the output is exactly where the latest limit
      asks, every reading the meter may still show uses that limit up, and those
      the controller may still count show the present POI. */
  ghost predicate Descended(side: Side, scene: Scene, load: real, start: real, limit: real, loop: Loop) {
    && |loop.poi| == MAX_LAG + 1 && loop.ctrl.jumpHold <= JUMP_HOLD_READINGS
    && loop.ctrl.output == start + Relief(side, Excess(side, scene, limit))
    && loop.ctrl.prevImport == SiteOf(side, scene, load, limit).importLimit
    && loop.ctrl.prevExport == SiteOf(side, scene, load, limit).exportLimit
    && (forall j :: 0 <= j <= MAX_LAG ==> Shows(side, scene, limit, loop.poi[j]))
    && (forall j :: 0 <= j <= MAX_LAG - loop.ctrl.jumpHold ==> loop.poi[j] == load - loop.ctrl.output)
  }

  /** The POI stands on the limit once the output is where the limit asks. */
  lemma OnTheLimit(side: Side, scene: Scene, load: real, start: real, limit: real, output: real)
    requires scene.poi == load - start && output == start + Relief(side, Excess(side, scene, limit))
    requires scene.other.Some? ==> limit + scene.other.value >= 0.0
    ensures Toward(side, load - output) + limit == 0.0
    ensures Shows(side, scene, limit, load - output)
  {
  }

  lemma TightenedShows(side: Side, scene: Scene, limit: real, limit': real, poi: real)
    requires Shows(side, scene, limit, poi) && limit' <= limit
    ensures Shows(side, scene, limit', poi)
  {
  }

  lemma FirstTickInLoop(cfg: Config, side: Side, scene: Scene, load: real, loop: Loop, x: LoopChange)
    requires SettledLoop(side, scene, load, loop) && BindingInLoop(side, scene, loop.ctrl.output, x)
    requires x.sample.lag <= MAX_LAG
    ensures var s, s' := loop.ctrl, Next(cfg, loop.ctrl, TickOf(SiteOf(side, scene, load, x.limit), loop, x.sample));
            && s'.output == s.output + Relief(side, Excess(side, scene, x.limit))
            && s'.prevImport == SiteOf(side, scene, load, x.limit).importLimit
            && s'.prevExport == SiteOf(side, scene, load, x.limit).exportLimit
            && s'.jumpHold == JUMP_HOLD_READINGS
  {
    FirstTightening(cfg, side, scene, loop.ctrl, ChangeOf(x));
    assert TickOf(SiteOf(side, scene, load, x.limit), loop, x.sample) == TickOn(side, scene, ChangeOf(x));
  }

  lemma FirstInLoop(cfg: Config, side: Side, scene: Scene, load: real, loop: Loop, x: LoopChange)
    requires SettledLoop(side, scene, load, loop) && BindingInLoop(side, scene, loop.ctrl.output, x)
    requires x.sample.lag <= MAX_LAG
    ensures Descended(side, scene, load, loop.ctrl.output, x.limit,
            After(cfg, SiteOf(side, scene, load, x.limit), loop, x.sample))
  {
    var loop' := After(cfg, SiteOf(side, scene, load, x.limit), loop, x.sample);
    FirstTickInLoop(cfg, side, scene, load, loop, x);
    OnTheLimit(side, scene, load, loop.ctrl.output, x.limit, loop'.ctrl.output);
    SettledShows(side, scene, loop.ctrl, loop.ctrl.output, x);
    forall j | 1 <= j <= MAX_LAG ensures Shows(side, scene, x.limit, loop'.poi[j]) {
      assert loop'.poi[j] == loop.poi[j - 1] == scene.poi;
    }
  }

  lemma SettledShows(side: Side, scene: Scene, s: State, start: real, x: LoopChange)
    requires SettledOn(side, scene, s) && BindingInLoop(side, scene, start, x)
    ensures Shows(side, scene, x.limit, scene.poi)
  {
  }

  /** On a reading that uses up the last limit a tightening's jump is exactly the
      tightening, however old the reading. */
  lemma JumpIsStep(signedPoi: real, prev: real, now: real)
    requires signedPoi + prev <= 0.0 && now <= prev
    ensures Jump(signedPoi, Limit(Some(now), Some(prev))) == prev - now
  {
    JumpIsTightening(signedPoi, Limit(Some(now), Some(prev)));
  }

  lemma LaterTickInLoop(cfg: Config, side: Side, scene: Scene, load: real, start: real, prev: LoopChange,
          loop: Loop, x: LoopChange)
    requires Descended(side, scene, load, start, prev.limit, loop) && scene.poi == load - start
    requires x.sample.lag <= MAX_LAG
    requires BindingInLoop(side, scene, start, prev) && BindingInLoop(side, scene, start, x)
    requires NotLooser(ChangeOf(prev), ChangeOf(x))
    ensures var s, s' := loop.ctrl, Next(cfg, loop.ctrl, TickOf(SiteOf(side, scene, load, x.limit), loop, x.sample));
            && s'.output == s.output + Relief(side, prev.limit - x.limit)
            && s'.prevImport == SiteOf(side, scene, load, x.limit).importLimit
            && s'.prevExport == SiteOf(side, scene, load, x.limit).exportLimit
            && s'.jumpHold == if x.limit < prev.limit then JUMP_HOLD_READINGS
                              else if s.jumpHold > 0 && x.sample.poiFresh then s.jumpHold - 1 else s.jumpHold
  {
    var s, t := loop.ctrl, TickOf(SiteOf(side, scene, load, x.limit), loop, x.sample);
    var poi := loop.poi[x.sample.lag];
    assert Shows(side, scene, prev.limit, poi);
    JumpIsStep(Toward(side, poi), prev.limit, x.limit);
    assert LimitsOf(side, s, t) == Limit(Some(x.limit), Some(prev.limit));
    OnTheLimit(side, scene, load, start, prev.limit, s.output);
    if CountedTime(s, t) != 0.0 { assert poi == load - s.output; }
    TighteningTick(cfg, side, s, t);
  }

  /** The history, one tick on. */
  lemma DescendedNext(side: Side, scene: Scene, load: real, start: real, prev: real, limit: real, loop: Loop,
          ctrl: State)
    requires Descended(side, scene, load, start, prev, loop) && scene.poi == load - start && limit <= prev
    requires scene.other.Some? ==> limit + scene.other.value >= 0.0
    requires ctrl.output == start + Relief(side, Excess(side, scene, limit)) && ctrl.jumpHold <= JUMP_HOLD_READINGS
    requires ctrl.prevImport == SiteOf(side, scene, load, limit).importLimit
    requires ctrl.prevExport == SiteOf(side, scene, load, limit).exportLimit
    requires ctrl.jumpHold == JUMP_HOLD_READINGS ||
             (ctrl.output == loop.ctrl.output && loop.ctrl.jumpHold <= ctrl.jumpHold + 1)
    ensures Descended(side, scene, load, start, limit, Loop(ctrl, [load - ctrl.output] + loop.poi[..MAX_LAG]))
  {
    var poi := [load - ctrl.output] + loop.poi[..MAX_LAG];
    OnTheLimit(side, scene, load, start, limit, ctrl.output);
    forall j | 1 <= j <= MAX_LAG ensures Shows(side, scene, limit, poi[j]) {
      assert poi[j] == loop.poi[j - 1];
      TightenedShows(side, scene, prev, limit, loop.poi[j - 1]);
    }
  }

  lemma LaterCtrl(cfg: Config, side: Side, scene: Scene, load: real, start: real, prev: LoopChange, loop: Loop,
          x: LoopChange)
    returns (ctrl: State)
    requires Descended(side, scene, load, start, prev.limit, loop) && scene.poi == load - start
    requires x.sample.lag <= MAX_LAG
    requires BindingInLoop(side, scene, start, prev) && BindingInLoop(side, scene, start, x)
    requires NotLooser(ChangeOf(prev), ChangeOf(x))
    ensures After(cfg, SiteOf(side, scene, load, x.limit), loop, x.sample)
         == Loop(ctrl, [load - ctrl.output] + loop.poi[..MAX_LAG])
    ensures ctrl.output == start + Relief(side, Excess(side, scene, x.limit)) && ctrl.jumpHold <= JUMP_HOLD_READINGS
    ensures ctrl.prevImport == SiteOf(side, scene, load, x.limit).importLimit
    ensures ctrl.prevExport == SiteOf(side, scene, load, x.limit).exportLimit
    ensures ctrl.jumpHold == JUMP_HOLD_READINGS ||
            (ctrl.output == loop.ctrl.output && loop.ctrl.jumpHold <= ctrl.jumpHold + 1)
  {
    ctrl := Next(cfg, loop.ctrl, TickOf(SiteOf(side, scene, load, x.limit), loop, x.sample));
    LaterTickInLoop(cfg, side, scene, load, start, prev, loop, x);
  }

  lemma LaterInLoop(cfg: Config, side: Side, scene: Scene, load: real, start: real, prev: LoopChange, loop: Loop,
          x: LoopChange)
    requires Descended(side, scene, load, start, prev.limit, loop) && scene.poi == load - start
    requires x.sample.lag <= MAX_LAG
    requires BindingInLoop(side, scene, start, prev) && BindingInLoop(side, scene, start, x)
    requires NotLooser(ChangeOf(prev), ChangeOf(x))
    ensures Descended(side, scene, load, start, x.limit, After(cfg, SiteOf(side, scene, load, x.limit), loop, x.sample))
  {
    var ctrl := LaterCtrl(cfg, side, scene, load, start, prev, loop, x);
    DescendedNext(side, scene, load, start, prev.limit, x.limit, loop, ctrl);
  }

  /** Tightenings run in the loop itself: whichever of the last four true POIs
      each tick reads, from before or from after earlier tightenings, and
      whichever readings are fresh, the output ends exactly where the last limit
      asks, and the true POI on that limit. */
  lemma {:induction false} TighteningsInLoop(cfg: Config, side: Side, scene: Scene, load: real, loop: Loop,
          xs: seq<LoopChange>)
    requires xs != [] && SettledLoop(side, scene, load, loop) && LoopTightening(side, scene, loop.ctrl.output, xs)
    ensures Descended(side, scene, load, loop.ctrl.output, xs[|xs| - 1].limit,
            FollowLoop(cfg, side, scene, load, loop, xs))
  {
    var front, last := xs[..|xs| - 1], xs[|xs| - 1];
    if |xs| == 1 {
      assert front == [];
      FirstInLoop(cfg, side, scene, load, loop, last);
    } else {
      var prev := xs[|xs| - 2];
      assert BindingInLoop(side, scene, loop.ctrl.output, last) && NotLooser(ChangeOf(prev), ChangeOf(last));
      FrontTightening(side, scene, loop.ctrl.output, xs);
      TighteningsInLoop(cfg, side, scene, load, loop, front);
      LaterInLoop(cfg, side, scene, load, loop.ctrl.output, prev, FollowLoop(cfg, side, scene, load, loop, front),
        last);
    }
  }

  lemma FrontTightening(side: Side, scene: Scene, start: real, xs: seq<LoopChange>)
    requires |xs| > 1 && LoopTightening(side, scene, start, xs)
    ensures var front := xs[..|xs| - 1];
            && LoopTightening(side, scene, start, front)
            && front[|front| - 1] == xs[|xs| - 2] && BindingInLoop(side, scene, start, xs[|xs| - 2])
  {
    var front := xs[..|xs| - 1];
    assert forall k :: 0 <= k < |front| ==> front[k] == xs[k];
  }

  lemma DescendedIsReady(side: Side, scene: Scene, load: real, start: real, limit: real, loop: Loop)
    requires Descended(side, scene, load, start, limit, loop) && scene.poi == load - start
    requires scene.powerMin <= loop.ctrl.output <= scene.powerMax
    requires scene.other.Some? ==> limit + scene.other.value >= 0.0
    ensures Ready(SiteOf(side, scene, load, limit), loop)
  {
    OnTheLimit(side, scene, load, start, limit, loop.ctrl.output);
  }

  /** Once the sequence ends, whatever follows, with readings up to three ticks
      old, stays inside both limits: the skipped readings cover the lag. */
  lemma TightenedLoopStaysInside(cfg: Config, side: Side, scene: Scene, load: real, loop: Loop, xs: seq<LoopChange>,
          samples: seq<Sample>)
    requires xs != [] && SettledLoop(side, scene, load, loop) && LoopTightening(side, scene, loop.ctrl.output, xs)
    requires cfg.rampRate >= 0.0 && scene.powerMin <= 0.0 <= scene.powerMax && AllTimely(samples)
    ensures var end := FollowLoop(cfg, side, scene, load, loop, xs);
            var site := SiteOf(side, scene, load, xs[|xs| - 1].limit);
            && end.ctrl.output == loop.ctrl.output + Relief(side, Excess(side, scene, xs[|xs| - 1].limit))
            && Toward(side, end.poi[0]) + xs[|xs| - 1].limit == 0.0
            && Inside(site, Run(cfg, site, end, samples).poi[0])
  {
    var end, last := FollowLoop(cfg, side, scene, load, loop, xs), xs[|xs| - 1];
    TighteningsInLoop(cfg, side, scene, load, loop, xs);
    assert BindingInLoop(side, scene, loop.ctrl.output, last);
    OnTheLimit(side, scene, load, loop.ctrl.output, last.limit, end.ctrl.output);
    DescendedIsReady(side, scene, load, loop.ctrl.output, last.limit, end);
    RunStaysInside(cfg, SiteOf(side, scene, load, last.limit), end, samples);
  }
}
