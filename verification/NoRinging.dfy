/** Zero import and zero export: the floor is the ceiling, so the servo tracks
    the load. After a load step seen up to three ticks late the true POI decays
    to zero from one side: it never rings through it. */
module NoRinging {
  import opened Numbers
  import opened PoiServo
  import opened ControlLaw
  import opened ClosedLoop

  const ZERO_LIMIT: Option<real> := Some(0.0)

  ghost predicate ZeroBand(s: State, t: Tick) {
    && t.poi.Some?
    && t.importLimit == t.exportLimit == s.prevImport == s.prevExport == ZERO_LIMIT
  }

  lemma ApproachOdd(room: real, dt: Seconds)
    ensures Approach(-room, dt) == -Approach(room, dt)
  {
    TravelOdd(APPROACH_GAIN * room, dt);
    assert APPROACH_GAIN * -room == -(APPROACH_GAIN * room);
  }

  /** The one output the zero band allows, before any hold. */
  function Tracked(s: State, t: Tick): real
    requires t.poi.Some?
  {
    s.output + Approach(t.poi.value, CountedTime(s, t))
  }

  const ZERO_BAND: Limit := Limit(ZERO_LIMIT, ZERO_LIMIT)

  lemma ZeroBandStep(signedPoi: real, dt: Seconds)
    ensures Jump(signedPoi, ZERO_BAND) == 0.0
    ensures Step(signedPoi, ZERO_BAND, Headroom(-signedPoi, ZERO_LIMIT), dt) == Some(Approach(signedPoi, dt))
  {
    assert Rate(signedPoi, Headroom(-signedPoi, ZERO_LIMIT)) == APPROACH_GAIN * signedPoi;
    assert signedPoi + 0.0 + Jump(signedPoi, ZERO_BAND) == signedPoi;
  }

  lemma ZeroBandBounds(u: real, poi: real, dt: Seconds)
    ensures var b := ServoBounds(u, poi, ZERO_BAND, ZERO_BAND, dt);
            && b.ceiling == b.floor == Some(u + Approach(poi, dt))
            && !b.jumped && (Exhausted(b.headroomExport) || Exhausted(b.headroomImport))
  {
    ZeroBandStep(poi, dt);
    ZeroBandStep(-poi, dt);
    assert -(-poi) == poi;
    ApproachOdd(poi, dt);
  }

  /** Floor and ceiling coincide, so the tick goes exactly where the servo says,
      or stays put when the approach is held or the move is below the write threshold. */
  lemma ZeroBandTick(cfg: Config, s: State, t: Tick)
    requires ZeroBand(s, t)
    requires t.powerMin <= s.output <= t.powerMax && t.powerMin <= Tracked(s, t) <= t.powerMax
    ensures var s' := Next(cfg, s, t);
            && (s'.output == s.output || s'.output == Tracked(s, t))
            && (!t.holdApproach ==>
               s'.output == Tracked(s, t) || (s'.output == s.output && Abs(Tracked(s, t) - s.output) < EPSILON))
            && s'.prevImport == s'.prevExport == ZERO_LIMIT
            && s'.jumpHold == if s.jumpHold > 0 && t.poiFresh then s.jumpHold - 1 else s.jumpHold
  {
    ZeroBandBounds(s.output, t.poi.value, CountedTime(s, t));
    NextNotes(cfg, s, t);
  }

  // ----- along a run

  /** The POI seen from the side it started on. */
  function Magnitude(importing: bool, poi: real): real {
    if importing then poi else -poi
  }

  ghost function Flipped(importing: bool, poi: seq<real>): (r: seq<real>)
    ensures |r| == |poi| && forall j :: 0 <= j < |poi| ==> r[j] == Magnitude(importing, poi[j])
  {
    seq(|poi|, j requires 0 <= j < |poi| => Magnitude(importing, poi[j]))
  }

  /** What a run in the zero band keeps, `age` ticks after the load step: the
      POI is on one side of zero, and has only shrunk since the step. */
  ghost predicate Decaying(site: Site, loop: Loop, importing: bool, age: nat) {
    && |loop.poi| == MAX_LAG + 1
    && site.importLimit == site.exportLimit == loop.ctrl.prevImport == loop.ctrl.prevExport == ZERO_LIMIT
    && loop.poi[0] == site.load - loop.ctrl.output
    && site.powerMin <= loop.ctrl.output <= site.powerMax
    && site.powerMin <= site.load <= site.powerMax
    && Keeps(Flipped(importing, loop.poi), MAX_LAG + 1)
    && forall j :: 0 <= j < age && j < MAX_LAG ==>
       Magnitude(importing, loop.poi[j]) <= Magnitude(importing, loop.poi[j + 1])
  }

  /** A tick that counts: a fresh 1 s tick, approach not held, on a reading
      taken since the step. */
  ghost predicate Counts(x: Sample, age: nat) {
    x.poiFresh && x.dt == 1.0 && !x.holdApproach && x.lag <= age
  }

  lemma SignedApproach(importing: bool, room: real, dt: Seconds)
    ensures Magnitude(importing, Approach(room, dt)) == Approach(Magnitude(importing, room), dt)
  {
    ApproachOdd(room, dt);
  }

  /** A reading since the step is no smaller than the present POI. */
  lemma ReadingNotSmaller(site: Site, loop: Loop, importing: bool, age: nat, lag: nat)
    requires Decaying(site, loop, importing, age) && lag <= age && lag <= MAX_LAG
    ensures Magnitude(importing, loop.poi[0]) <= Magnitude(importing, loop.poi[lag])
  {
    if lag >= 1 { assert Magnitude(importing, loop.poi[0]) <= Magnitude(importing, loop.poi[1]); }
    if lag >= 2 { assert Magnitude(importing, loop.poi[1]) <= Magnitude(importing, loop.poi[2]); }
    if lag >= 3 { assert Magnitude(importing, loop.poi[2]) <= Magnitude(importing, loop.poi[3]); }
  }

  lemma FullSecond(room: real)
    ensures Approach(room, 1.0) == APPROACH_GAIN * room
  {
  }

  lemma MoveStaysRated(site: Site, loop: Loop, importing: bool, age: nat, lag: nat, move: real)
    requires Decaying(site, loop, importing, age) && lag <= MAX_LAG
    requires 0.0 <= Magnitude(importing, move) <= APPROACH_GAIN * Magnitude(importing, loop.poi[lag])
    ensures site.powerMin <= loop.ctrl.output + move <= site.powerMax
  {
    var room := Flipped(importing, loop.poi);
    KeepsMoved(room, lag, Magnitude(importing, move), room[0] - Magnitude(importing, move));
  }

  /** A reading's move is toward zero, by at most a tenth of it, and over a full
      second by exactly that. */
  lemma MoveSigned(importing: bool, seen: real, dt: Seconds)
    requires Magnitude(importing, seen) >= 0.0 && dt <= 1.0
    ensures 0.0 <= Magnitude(importing, Approach(seen, dt)) <= APPROACH_GAIN * Magnitude(importing, seen)
    ensures dt == 1.0 ==> Magnitude(importing, Approach(seen, dt)) == APPROACH_GAIN * Magnitude(importing, seen)
  {
    SignedApproach(importing, seen, dt);
    ApproachSign(Magnitude(importing, seen), dt);
    if dt == 1.0 { FullSecond(Magnitude(importing, seen)); }
  }

  /** The output the zero band allows is between the present one and the load. */
  lemma TrackedStaysRated(site: Site, loop: Loop, importing: bool, age: nat, x: Sample)
    requires Decaying(site, loop, importing, age) && Timely(x)
    ensures site.powerMin <= Tracked(loop.ctrl, TickOf(site, loop, x)) <= site.powerMax
  {
    var dt := CountedTime(loop.ctrl, TickOf(site, loop, x));
    var room := Flipped(importing, loop.poi);
    assert room[x.lag] >= 0.0;
    MoveSigned(importing, loop.poi[x.lag], dt);
    MoveStaysRated(site, loop, importing, age, x.lag, Approach(loop.poi[x.lag], dt));
  }

  /** The controller's part of a tick: the output stays, or makes the reading's
      move; it makes it unless the approach is held or the move is too small. */
  lemma DecayCtrl(cfg: Config, site: Site, loop: Loop, importing: bool, age: nat, x: Sample)
    returns (ctrl: State, move: real)
    requires Decaying(site, loop, importing, age) && Timely(x)
    ensures After(cfg, site, loop, x) == Loop(ctrl, [site.load - ctrl.output] + loop.poi[..MAX_LAG])
    ensures ctrl.prevImport == ctrl.prevExport == ZERO_LIMIT && ctrl.jumpHold <= loop.ctrl.jumpHold
    ensures ctrl.output == loop.ctrl.output || ctrl.output == loop.ctrl.output + move
    ensures !x.holdApproach && ctrl.output != loop.ctrl.output + move ==> Abs(move) < EPSILON
    ensures 0.0 <= Magnitude(importing, move) <= APPROACH_GAIN * Magnitude(importing, loop.poi[x.lag])
    ensures Counts(x, age) && loop.ctrl.jumpHold == 0 ==>
              Magnitude(importing, move) == APPROACH_GAIN * Magnitude(importing, loop.poi[x.lag])
  {
    var t := TickOf(site, loop, x);
    assert Flipped(importing, loop.poi)[x.lag] >= 0.0;
    move := Approach(loop.poi[x.lag], CountedTime(loop.ctrl, t));
    MoveSigned(importing, loop.poi[x.lag], CountedTime(loop.ctrl, t));
    ctrl := Next(cfg, loop.ctrl, t);
    TrackedStaysRated(site, loop, importing, age, x);
    ZeroBandTick(cfg, loop.ctrl, t);
  }

  /** The history's part of it. */
  lemma DecayHistory(site: Site, loop: Loop, importing: bool, age: nat, lag: nat, ctrl: State, move: real)
    requires Decaying(site, loop, importing, age) && lag <= MAX_LAG
    requires ctrl.prevImport == ctrl.prevExport == ZERO_LIMIT
    requires 0.0 <= Magnitude(importing, move) <= APPROACH_GAIN * Magnitude(importing, loop.poi[lag])
    requires ctrl.output == loop.ctrl.output || ctrl.output == loop.ctrl.output + move
    ensures 0.0 <= Magnitude(importing, site.load - ctrl.output) <= Magnitude(importing, loop.poi[0])
    ensures Decaying(site, Loop(ctrl, [site.load - ctrl.output] + loop.poi[..MAX_LAG]), importing, age + 1)
  {
    var room, poi := Flipped(importing, loop.poi), [site.load - ctrl.output] + loop.poi[..MAX_LAG];
    MoveStaysRated(site, loop, importing, age, lag, move);
    KeepsMoved(room, lag, Magnitude(importing, move), Magnitude(importing, site.load - ctrl.output));
    assert Flipped(importing, poi) == [Magnitude(importing, site.load - ctrl.output)] + room[..MAX_LAG];
  }

  /** A counted tick on a reading no smaller than the present POI takes a tenth off it. */
  lemma DecayTenth(now: real, seen: real, move: real, next: real)
    requires 0.0 <= now <= seen && move == APPROACH_GAIN * seen
    requires next == now - move || (next == now && move < EPSILON)
    ensures next <= 0.9 * now || next < 10.0 * EPSILON
  {
  }

  lemma DecayStep(cfg: Config, site: Site, loop: Loop, importing: bool, age: nat, x: Sample)
    requires Decaying(site, loop, importing, age) && Timely(x)
    ensures var loop' := After(cfg, site, loop, x);
            var now, next := Magnitude(importing, loop.poi[0]), Magnitude(importing, loop'.poi[0]);
            && Decaying(site, loop', importing, age + 1)
            && 0.0 <= next <= now
            && loop'.ctrl.jumpHold <= loop.ctrl.jumpHold
            && (Counts(x, age) && loop.ctrl.jumpHold == 0 ==> next <= 0.9 * now || next < 10.0 * EPSILON)
  {
    var ctrl, move := DecayCtrl(cfg, site, loop, importing, age, x);
    DecayHistory(site, loop, importing, age, x.lag, ctrl, move);
    if Counts(x, age) && loop.ctrl.jumpHold == 0 {
      ReadingNotSmaller(site, loop, importing, age, x.lag);
      DecayTenth(Magnitude(importing, loop.poi[0]), Magnitude(importing, loop.poi[x.lag]), Magnitude(importing, move),
                 Magnitude(importing, site.load - ctrl.output));
    }
  }

  ghost function CountedTicks(xs: seq<Sample>): nat {
    if xs == [] then 0
    else CountedTicks(xs[..|xs| - 1]) + if Counts(xs[|xs| - 1], |xs| - 1) then 1 else 0
  }

  function NineTenths(n: nat): (r: real)
    ensures 0.0 <= r <= 1.0
  {
    if n == 0 then 1.0 else 0.9 * NineTenths(n - 1)
  }

  /** `now` is at most 0.9^n of `start`, or below the write threshold. */
  ghost predicate Decayed(n: nat, start: real, now: real) {
    now <= NineTenths(n) * start || now < 10.0 * EPSILON
  }

  lemma DecayedStep(n: nat, start: real, now: real, next: real)
    requires Decayed(n, start, now) && next <= now
    ensures Decayed(n, start, next)
    ensures next <= 0.9 * now || next < 10.0 * EPSILON ==> Decayed(n + 1, start, next)
  {
    assert 0.9 * (NineTenths(n) * start) == NineTenths(n + 1) * start;
  }

  /** The battery covered the old load exactly and the load has just stepped. */
  ghost predicate LoadStep(site: Site, loop: Loop) {
    && site.importLimit == site.exportLimit == loop.ctrl.prevImport == loop.ctrl.prevExport == ZERO_LIMIT
    && loop.poi == [site.load - loop.ctrl.output, 0.0, 0.0, 0.0]
    && site.powerMin <= loop.ctrl.output <= site.powerMax
    && site.powerMin <= site.load <= site.powerMax
    && loop.ctrl.jumpHold == 0
  }

  /** Where `age` ticks, `n` of them counted, may have taken the loop. */
  ghost predicate Settling(site: Site, start: Loop, loop: Loop, importing: bool, age: nat, n: nat)
    requires |start.poi| == MAX_LAG + 1
  {
    && Decaying(site, loop, importing, age) && loop.ctrl.jumpHold == 0
    && 0.0 <= Magnitude(importing, loop.poi[0]) <= Magnitude(importing, start.poi[0])
    && Decayed(n, Magnitude(importing, start.poi[0]), Magnitude(importing, loop.poi[0]))
  }

  lemma SettlingStart(site: Site, loop: Loop, importing: bool)
    requires Decaying(site, loop, importing, 0) && loop.ctrl.jumpHold == 0
    ensures Settling(site, loop, loop, importing, 0, 0)
  {
    assert Flipped(importing, loop.poi)[0] >= 0.0;
  }

  lemma SettlingStep(cfg: Config, site: Site, start: Loop, loop: Loop, importing: bool, age: nat, n: nat, x: Sample)
    requires |start.poi| == MAX_LAG + 1 && Settling(site, start, loop, importing, age, n) && Timely(x)
    ensures Settling(site, start, After(cfg, site, loop, x), importing, age + 1, n + if Counts(x, age) then 1 else 0)
  {
    var loop' := After(cfg, site, loop, x);
    DecayStep(cfg, site, loop, importing, age, x);
    DecayedStep(n, Magnitude(importing, start.poi[0]), Magnitude(importing, loop.poi[0]),
      Magnitude(importing, loop'.poi[0]));
  }

  lemma {:induction false} DecayAlongRun(cfg: Config, site: Site, loop: Loop, importing: bool, xs: seq<Sample>)
    requires Decaying(site, loop, importing, 0) && loop.ctrl.jumpHold == 0 && AllTimely(xs)
    ensures Settling(site, loop, Run(cfg, site, loop, xs), importing, |xs|, CountedTicks(xs))
  {
    if xs == [] {
      SettlingStart(site, loop, importing);
    } else {
      var front, last := xs[..|xs| - 1], xs[|xs| - 1];
      DecayAlongRun(cfg, site, loop, importing, front);
      SettlingStep(cfg, site, loop, Run(cfg, site, loop, front), importing, |front|, CountedTicks(front), last);
    }
  }

  /** After a load step the true POI never changes sign and never grows, and
      each counted tick takes off at least a tenth, down to the write threshold. */
  lemma LoadStepNeverRings(cfg: Config, site: Site, loop: Loop, xs: seq<Sample>)
    requires LoadStep(site, loop) && AllTimely(xs)
    ensures var start, end := loop.poi[0], Run(cfg, site, loop, xs).poi[0];
            && (start >= 0.0 ==> 0.0 <= end <= start)
            && (start <= 0.0 ==> start <= end <= 0.0)
            && Decayed(CountedTicks(xs), Abs(start), Abs(end))
  {
    var importing := loop.poi[0] >= 0.0;
    DecayAlongRun(cfg, site, loop, importing, xs);
  }
}
