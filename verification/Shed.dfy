/** Compute shed: a fleet power cap, in percent, that keeps the POI inside its
    limits when storage cannot. A tick proposes a cap; the devices hold it only
    once it is confirmed.

    One controller drives every module behind a POI, restores to 100%, and is
    told the fleet's fixed range. */
module Shed {
  import opened Numbers
  import opened ControlLaw

  /** Import counts as falling only by more than this share of the fleet's maximum. */
  const SHRINK_DEADBAND: real := 0.001

  /** Cap resolution. */
  const STEP_PERCENT: real := 0.1

  /** The fleet's allowable range, W. */
  datatype Fleet = Fleet(minW: real, maxW: real)

  datatype ShedTick = ShedTick(
    poi: real,
    importLimit: real,
    exportLimit: real,
    requested: real,
    fleet: Fleet,
    storageSpare: real,
    dt: Seconds
  )

  datatype ShedState = ShedState(percent: Option<real>, overFor: Seconds, clearFor: Seconds, lastOver: Option<real>)

  function Ceil(x: real): int { -((-x).Floor) }

  /** Whole steps from `current` to the first at or above `target`, put on the 0.1% grid. */
  function Quantize(current: real, target: real): real {
    var steps := Ceil((target - current) / STEP_PERCENT);
    Round((current + steps as real * STEP_PERCENT) * 10.0) as real / 10.0
  }

  predicate Valid(t: ShedTick) {
    0.0 <= t.fleet.minW <= t.fleet.maxW && 0.0 < t.fleet.maxW && FloorPercent(t.fleet) <= t.requested
  }

  function Percent(watts: real, fleet: Fleet): real
    requires fleet.maxW > 0.0
  {
    watts * (100.0 / fleet.maxW)
  }

  function FloorPercent(fleet: Fleet): real {
    if fleet.maxW > 0.0 then Percent(fleet.minW, fleet) else 0.0
  }

  /** The cap held now, never above the one requested. */
  function Current(s: ShedState, t: ShedTick): real {
    Min(if s.percent.Some? then s.percent.value else t.requested, t.requested)
  }

  function Over(t: ShedTick): real { t.poi - t.importLimit }

  function Exported(t: ShedTick): real { -t.poi - t.exportLimit }

  function Headroom(cfg: Config, t: ShedTick): real {
    t.importLimit - t.poi - cfg.margin * t.fleet.maxW
  }

  function RampPercent(cfg: Config, t: ShedTick): real {
    cfg.rampRate * 100.0 * t.dt
  }

  /** Storage still has discharge to answer with. */
  predicate HasSpare(cfg: Config, t: ShedTick) {
    t.storageSpare >= cfg.margin * t.fleet.maxW
  }

  /** Import over the limit has fallen since the last over-limit tick. */
  predicate Falling(s: ShedState, t: ShedTick) {
    s.lastOver.Some? && s.lastOver.value - Over(t) > SHRINK_DEADBAND * t.fleet.maxW
  }

  function Reset(s: ShedState): ShedState {
    s.(overFor := 0.0, clearFor := 0.0, lastOver := None)
  }

  /** Timers after the tick, and the cap aimed at; `None` while a dwell runs. */
  function Aim(cfg: Config, s: ShedState, t: ShedTick): (ShedState, Option<real>)
    requires t.fleet.maxW > 0.0
  {
    var current, step := Current(s, t), RampPercent(cfg, t);
    if Exported(t) > 0.0 then (Reset(s), Some(current + Min(Percent(Exported(t), t.fleet), step)))
    else if Over(t) > 0.0 then
      var waited := s.(clearFor := 0.0, lastOver := Some(Over(t)), overFor := s.overFor + t.dt);
      if HasSpare(cfg, t) && waited.overFor < cfg.dwell then
        (if Falling(s, t) then waited.(overFor := 0.0) else waited, None)
      else (waited, Some(current - Min(Percent(Over(t), t.fleet), step)))
    else if Headroom(cfg, t) > 0.0 && current < t.requested then
      var waited := s.(overFor := 0.0, clearFor := s.clearFor + t.dt);
      if waited.clearFor < cfg.dwell then (waited, None)
      else (waited, Some(current + Min(Percent(Headroom(cfg, t), t.fleet), step)))
    else (Reset(s), Some(current))
  }

  /** The cap to write for an aim, if it differs from the current one by half a step. */
  function Snap(current: real, aim: real, t: ShedTick): Option<real>
    requires Valid(t)
  {
    var next := Clamp(Quantize(current, aim), FloorPercent(t.fleet), t.requested);
    if Abs(next - current) >= STEP_PERCENT / 2.0 then Some(next) else None
  }

  function Proposal(cfg: Config, s: ShedState, t: ShedTick): Option<real>
    requires Valid(t)
  {
    var aim := Aim(cfg, s, t).1;
    if aim.None? then None else Snap(Current(s, t), aim.value, t)
  }

  class ShedController {
    const config: Config
    var percent: Option<real>
    var overFor: Seconds
    var clearFor: Seconds
    var lastOver: Option<real>

    ghost function View(): ShedState
      reads this
    {
      ShedState(percent, overFor, clearFor, lastOver)
    }

    constructor (config: Config)
      ensures View() == ShedState(None, 0.0, 0.0, None) && this.config == config
    {
      this.config := config;
      percent, overFor, clearFor, lastOver := None, 0.0, 0.0, None;
    }

    /** Run the timers and propose a cap; the controller does not hold it yet. */
    method Propose(t: ShedTick) returns (proposal: Option<real>)
      requires Valid(t)
      modifies this`overFor, this`clearFor, this`lastOver
      ensures View() == Aim(config, old(View()), t).0
      ensures proposal == Proposal(config, old(View()), t)
    {
      var current := Min(if percent.Some? then percent.value else t.requested, t.requested);
      var step := RampPercent(config, t);
      var over, exported, headroom := Over(t), Exported(t), Headroom(config, t);
      var target := current;
      if exported > 0.0 {
        ResetTimers();
        target := current + Min(Percent(exported, t.fleet), step);
      } else if over > 0.0 {
        clearFor := 0.0;
        var storageClosing := lastOver.Some? && lastOver.value - over > SHRINK_DEADBAND * t.fleet.maxW;
        lastOver := Some(over);
        overFor := overFor + t.dt;
        if HasSpare(config, t) {
          if storageClosing && overFor < config.dwell {
            overFor := 0.0;
            return None;
          }
          if overFor < config.dwell {
            return None;
          }
        }
        target := current - Min(Percent(over, t.fleet), step);
      } else if headroom > 0.0 && current < t.requested {
        overFor := 0.0;
        clearFor := clearFor + t.dt;
        if clearFor < config.dwell {
          return None;
        }
        target := current + Min(Percent(headroom, t.fleet), step);
      } else {
        ResetTimers();
      }
      proposal := Snap(current, target, t);
    }

    /** The devices hold `cap` now. */
    method Confirm(cap: real)
      modifies this`percent
      ensures View() == old(View()).(percent := Some(cap))
    {
      percent := Some(cap);
    }

    method ResetTimers()
      modifies this`overFor, this`clearFor, this`lastOver
      ensures View() == Reset(old(View()))
    {
      overFor, clearFor, lastOver := 0.0, 0.0, None;
    }
  }

  // ----- every reachable cap

  ghost predicate OnGrid(p: real) {
    (p * 10.0).Floor as real == p * 10.0
  }

  /** A cap the devices can come to hold: on the grid or at the GPU floor, and
      between the floor and 100%. */
  ghost predicate Holdable(p: real, fleet: Fleet) {
    (OnGrid(p) || p == FloorPercent(fleet)) && FloorPercent(fleet) <= p <= 100.0
  }

  /** The shed task's tick: it restores to 100%. */
  ghost predicate TaskTick(t: ShedTick, fleet: Fleet) {
    t.fleet == fleet && t.requested == 100.0 && 0.0 <= fleet.minW <= fleet.maxW && 0.0 < fleet.maxW
  }

  lemma FloorWithin(fleet: Fleet)
    requires 0.0 <= fleet.minW <= fleet.maxW && 0.0 < fleet.maxW
    ensures 0.0 <= FloorPercent(fleet) <= 100.0
  {
    assert fleet.maxW * (100.0 / fleet.maxW) == 100.0;
    assert (fleet.maxW - fleet.minW) * (100.0 / fleet.maxW) >= 0.0;
  }

  /** A tick, and whether its write, if it proposes one, reached every device. */
  datatype Event = Event(tick: ShedTick, landed: bool)

  function After(cfg: Config, s: ShedState, e: Event): ShedState
    requires Valid(e.tick)
  {
    var timed, proposal := Aim(cfg, s, e.tick).0, Proposal(cfg, s, e.tick);
    if proposal.Some? && e.landed then timed.(percent := proposal) else timed
  }

  ghost predicate TaskEvents(es: seq<Event>, fleet: Fleet) {
    forall k :: 0 <= k < |es| ==> TaskTick(es[k].tick, fleet) && Valid(es[k].tick)
  }

  ghost function Run(cfg: Config, s: ShedState, es: seq<Event>): ShedState
    requires forall k :: 0 <= k < |es| ==> Valid(es[k].tick)
  {
    if es == [] then s else After(cfg, Run(cfg, s, es[..|es| - 1]), es[|es| - 1])
  }

  ghost predicate HoldsHoldable(s: ShedState, fleet: Fleet) {
    s.percent.Some? ==> Holdable(s.percent.value, fleet)
  }

  lemma SnapHoldable(current: real, aim: real, t: ShedTick)
    requires Valid(t) && TaskTick(t, t.fleet)
    ensures Snap(current, aim, t).Some? ==> Holdable(Snap(current, aim, t).value, t.fleet)
  {
    assert OnGrid(100.0) && OnGrid(Quantize(current, aim));
  }

  /** Whatever the readings and whichever writes fail, the confirmed cap is one
      the devices can hold. */
  lemma {:induction false} CapStaysHoldable(cfg: Config, s: ShedState, es: seq<Event>, fleet: Fleet)
    requires HoldsHoldable(s, fleet) && TaskEvents(es, fleet)
    ensures HoldsHoldable(Run(cfg, s, es), fleet)
  {
    if es != [] {
      var front, e := es[..|es| - 1], es[|es| - 1];
      CapStaysHoldable(cfg, s, front, fleet);
      var before := Run(cfg, s, front);
      var aim := Aim(cfg, before, e.tick).1;
      if aim.Some? { SnapHoldable(Current(before, e.tick), aim.value, e.tick); }
    }
  }

  // ----- cuts

  lemma CurrentHoldable(s: ShedState, t: ShedTick)
    requires HoldsHoldable(s, t.fleet) && TaskTick(t, t.fleet)
    ensures Holdable(Current(s, t), t.fleet)
  {
    FloorWithin(t.fleet);
    assert OnGrid(100.0);
  }

  /** Whole steps in a cut. */
  function CutSteps(cut: real): int { (cut / STEP_PERCENT).Floor }

  lemma QuantizedCut(current: real, cut: real)
    requires cut >= 0.0
    ensures CutSteps(cut) >= 0 &&
            CutSteps(cut) as real * STEP_PERCENT <= cut < (CutSteps(cut) + 1) as real * STEP_PERCENT
    ensures Quantize(current, current - cut) ==
            Round((current - CutSteps(cut) as real * STEP_PERCENT) * 10.0) as real / 10.0
  {
    assert (current - cut - current) / STEP_PERCENT == -(cut / STEP_PERCENT);
  }

  lemma RoundWhole(n: int)
    ensures Round(n as real) == n
  {
    if n >= 0 { assert (n as real + 0.5).Floor == n; } else { assert (-(n as real) + 0.5).Floor == -n; }
  }

  lemma RoundGrid(p: real, steps: int)
    requires OnGrid(p)
    ensures Round((p - steps as real * STEP_PERCENT) * 10.0) as real / 10.0 == p - steps as real * STEP_PERCENT
  {
    var k := (p * 10.0).Floor - steps;
    assert (p - steps as real * STEP_PERCENT) * 10.0 == k as real;
    RoundWhole(k);
  }

  /** A cut takes off at most what was aimed at. */
  lemma SnapCuts(current: real, cut: real, t: ShedTick)
    requires Valid(t) && TaskTick(t, t.fleet) && Holdable(current, t.fleet) && cut >= 0.0
    ensures var next := Snap(current, current - cut, t);
            next.Some? && next.value < current ==> current - next.value <= cut
  {
    QuantizedCut(current, cut);
    if OnGrid(current) { RoundGrid(current, CutSteps(cut)); }
  }

  /** Half-way between two grid points, where rounding goes up. */
  ghost predicate HalfStep(p: real) {
    ((p * 10.0).Floor as real) + 0.5 == p * 10.0
  }

  lemma RoundOffGrid(current: real)
    requires current >= 0.0 && !OnGrid(current)
    ensures var up := Round(current * 10.0) as real / 10.0;
            && (up - current >= STEP_PERCENT / 2.0 <==> HalfStep(current))
            && up - current <= STEP_PERCENT / 2.0
            && (up > current || current - up < STEP_PERCENT / 2.0)
  {
    var tenths := current * 10.0;
    var below := tenths.Floor;
    assert below as real < tenths < below as real + 1.0;
    if tenths < below as real + 0.5 {
      assert (tenths + 0.5).Floor == below;
    } else {
      assert (tenths + 0.5).Floor == below + 1;
    }
  }

  /** Snapping a cut raises the cap exactly when the cap sits half-way between
      grid points and the cut wanted is less than a step. */
  lemma SnapRaisesExactly(current: real, cut: real, t: ShedTick)
    requires Valid(t) && TaskTick(t, t.fleet) && Holdable(current, t.fleet) && cut >= 0.0
    ensures var next := Snap(current, current - cut, t);
            next.Some? && next.value > current <==> HalfStep(current) && cut < STEP_PERCENT
  {
    FloorWithin(t.fleet);
    QuantizedCut(current, cut);
    if OnGrid(current) {
      RoundGrid(current, CutSteps(cut));
    } else {
      if cut < STEP_PERCENT {
        assert CutSteps(cut) == 0;
        RoundOffGrid(current);
      } else {
        assert CutSteps(cut) >= 1;
      }
    }
  }

  /** Storage can still answer and has not had the whole dwell to do so. */
  predicate Waiting(cfg: Config, s: ShedState, t: ShedTick) {
    HasSpare(cfg, t) && s.overFor + t.dt < cfg.dwell
  }

  /** The cut an over-limit tick wants, in percent. */
  function WantedCut(cfg: Config, t: ShedTick): real
    requires t.fleet.maxW > 0.0
  {
    Min(Percent(Over(t), t.fleet), RampPercent(cfg, t))
  }

  /** An over-limit tick should never raise the cap. It does in exactly one
      case: storage is not being waited for, the cap sits half-way between grid
      points (only the GPU floor can), and the cut wanted is less than a step. */
  lemma OverLimitRaise(cfg: Config, s: ShedState, t: ShedTick)
    requires Valid(t) && TaskTick(t, t.fleet) && HoldsHoldable(s, t.fleet) && cfg.rampRate >= 0.0
    requires Over(t) > 0.0 && Exported(t) <= 0.0
    ensures var current, proposal := Current(s, t), Proposal(cfg, s, t);
            proposal.Some? && proposal.value > current <==>
              !Waiting(cfg, s, t) && HalfStep(current) && WantedCut(cfg, t) < STEP_PERCENT
  {
    CurrentHoldable(s, t);
    if !Waiting(cfg, s, t) {
      PercentSign(Over(t), t.fleet);
      RampSign(cfg, t);
      SnapRaisesExactly(Current(s, t), WantedCut(cfg, t), t);
    }
  }

  lemma RampSign(cfg: Config, t: ShedTick)
    requires cfg.rampRate >= 0.0
    ensures RampPercent(cfg, t) >= 0.0
  {
    assert cfg.rampRate * 100.0 >= 0.0;
  }

  /** A fleet whose floor is 33.35%: 0.1 W over the limit, it proposes a raise. */
  lemma RaiseWhileOver()
    ensures var t := ShedTick(0.1, 0.0, 100.0, 100.0, Fleet(333.5, 1000.0), 0.0, 1.0);
            var s := ShedState(Some(33.35), 0.0, 0.0, None);
            Valid(t) && HoldsHoldable(s, t.fleet) && Over(t) > 0.0
            && Proposal(Config(0.1, 0.05, 30.0), s, t) == Some(33.4)
  {
    var t := ShedTick(0.1, 0.0, 100.0, 100.0, Fleet(333.5, 1000.0), 0.0, 1.0);
    assert FloorPercent(t.fleet) == 33.35;
    assert Percent(Over(t), t.fleet) == 0.01;
    OverLimitRaise(Config(0.1, 0.05, 30.0), ShedState(Some(33.35), 0.0, 0.0, None), t);
  }

  /** What `percent` of the fleet's maximum is worth, W. */
  function FleetWatts(percent: real, fleet: Fleet): real {
    percent * fleet.maxW / 100.0
  }

  lemma PercentOfWatts(watts: real, percent: real, fleet: Fleet)
    requires fleet.maxW > 0.0 && percent <= Percent(watts, fleet)
    ensures FleetWatts(percent, fleet) <= watts
  {
    assert Percent(watts, fleet) * fleet.maxW == watts * 100.0;
    assert percent * fleet.maxW <= Percent(watts, fleet) * fleet.maxW;
  }

  /** In every reachable state a proposed cut is at most the ramp step and the
      measured import gap, so the fleet power it takes off never brings the POI
      below the import limit; and nothing but an import gap makes one. */
  lemma CutsNeverOverCut(cfg: Config, s: ShedState, t: ShedTick)
    requires HoldsHoldable(s, t.fleet) && TaskTick(t, t.fleet) && Valid(t) && cfg.rampRate >= 0.0
    ensures var current, proposal := Current(s, t), Proposal(cfg, s, t);
            proposal.Some? && proposal.value < current ==>
              && Over(t) > 0.0 && Exported(t) <= 0.0
              && current - proposal.value <= RampPercent(cfg, t)
              && t.poi - FleetWatts(current - proposal.value, t.fleet) >= t.importLimit
  {
    CurrentHoldable(s, t);
    AimCutsOnlyOver(cfg, s, t);
    var current, aim := Current(s, t), Aim(cfg, s, t).1;
    if aim.Some? {
      if aim.value >= current {
        SnapRaises(current, aim.value, t);
      } else {
        SnapCuts(current, current - aim.value, t);
        assert current - (current - aim.value) == aim.value;
        var proposal := Snap(current, aim.value, t);
        if proposal.Some? && proposal.value < current { PercentOfWatts(Over(t), current - proposal.value, t.fleet); }
      }
    }
  }

  lemma PercentSign(watts: real, fleet: Fleet)
    requires fleet.maxW > 0.0 && watts >= 0.0
    ensures Percent(watts, fleet) >= 0.0
  {
  }

  /** Only an import gap makes a tick aim lower, and the gap and the ramp bound how much. */
  lemma AimCutsOnlyOver(cfg: Config, s: ShedState, t: ShedTick)
    requires t.fleet.maxW > 0.0 && cfg.rampRate >= 0.0
    ensures var current, aim := Current(s, t), Aim(cfg, s, t).1;
            aim.Some? && aim.value < current ==>
              && Over(t) > 0.0 && Exported(t) <= 0.0
              && current - aim.value <= RampPercent(cfg, t)
              && current - aim.value <= Percent(Over(t), t.fleet)
  {
    RampSign(cfg, t);
    if Exported(t) > 0.0 {
      PercentSign(Exported(t), t.fleet);
    } else if Over(t) > 0.0 {
      PercentSign(Over(t), t.fleet);
    } else if Headroom(cfg, t) > 0.0 {
      PercentSign(Headroom(cfg, t), t.fleet);
    }
  }

  /** Aiming no lower than the current cap never proposes a cut. */
  lemma SnapRaises(current: real, aim: real, t: ShedTick)
    requires Valid(t) && TaskTick(t, t.fleet) && Holdable(current, t.fleet) && aim >= current
    ensures Snap(current, aim, t).Some? ==> Snap(current, aim, t).value >= current
  {
    var steps := Ceil((aim - current) / STEP_PERCENT);
    assert steps >= 0;
    if OnGrid(current) {
      RoundGrid(current, -steps);
    }
  }

  // ----- lever order: storage first

  /** Total time of events `from` to the end. */
  ghost function Elapsed(es: seq<Event>, from: nat): Seconds
    requires from <= |es|
  {
    if from == |es| then 0.0 else Elapsed(es[..|es| - 1], from) + es[|es| - 1].tick.dt
  }

  /** From event `from` on import was over the limit without a break, and every
      tick on which storage had spare and import was still falling came only
      after the full dwell. */
  ghost predicate Patient(cfg: Config, s: ShedState, es: seq<Event>, from: nat)
    requires forall k :: 0 <= k < |es| ==> Valid(es[k].tick)
  {
    from <= |es| &&
    forall k :: from <= k < |es| ==>
      && Over(es[k].tick) > 0.0 && Exported(es[k].tick) <= 0.0
      && (HasSpare(cfg, es[k].tick) && Falling(Run(cfg, s, es[..k]), es[k].tick) ==>
         Elapsed(es[..k + 1], from) >= cfg.dwell)
  }

  lemma OverForStep(cfg: Config, s: ShedState, e: Event)
    requires Valid(e.tick)
    ensures var t := e.tick;
            var waited := s.overFor + t.dt;
            After(cfg, s, e).overFor ==
            if Exported(t) > 0.0 || Over(t) <= 0.0 then 0.0
            else if HasSpare(cfg, t) && Falling(s, t) && waited < cfg.dwell then 0.0 else waited
  {
  }

  lemma PatientExtends(cfg: Config, s: ShedState, es: seq<Event>, from: nat)
    requires es != [] && forall k :: 0 <= k < |es| ==> Valid(es[k].tick)
    requires Patient(cfg, s, es[..|es| - 1], from)
    requires var e, before := es[|es| - 1], Run(cfg, s, es[..|es| - 1]);
             && Over(e.tick) > 0.0 && Exported(e.tick) <= 0.0
             && (HasSpare(cfg, e.tick) && Falling(before, e.tick) ==> Elapsed(es, from) >= cfg.dwell)
    ensures Patient(cfg, s, es, from)
  {
    var front := es[..|es| - 1];
    forall k | from <= k < |es|
      ensures Over(es[k].tick) > 0.0 && Exported(es[k].tick) <= 0.0
      ensures HasSpare(cfg, es[k].tick) && Falling(Run(cfg, s, es[..k]), es[k].tick) ==>
              Elapsed(es[..k + 1], from) >= cfg.dwell
    {
      if k < |front| {
        assert front[k] == es[k] && front[..k] == es[..k] && front[..k + 1] == es[..k + 1];
      } else {
        assert es[..k] == front && es[..k + 1] == es;
      }
    }
  }

  /** The over-limit timer is the time import has patiently been over. */
  lemma {:induction false} OverForIsPatience(cfg: Config, s: ShedState, es: seq<Event>) returns (from: nat)
    requires s.overFor == 0.0 && forall k :: 0 <= k < |es| ==> Valid(es[k].tick)
    ensures from <= |es| && Run(cfg, s, es).overFor == Elapsed(es, from) && Patient(cfg, s, es, from)
  {
    from := |es|;
    if es != [] {
      var front, e := es[..|es| - 1], es[|es| - 1];
      var start := OverForIsPatience(cfg, s, front);
      OverForStep(cfg, Run(cfg, s, front), e);
      if Run(cfg, s, es).overFor == Elapsed(front, start) + e.tick.dt && Over(e.tick) > 0.0 && Exported(e.tick) <= 0.0
         && !(HasSpare(cfg, e.tick) && Falling(Run(cfg, s, front), e.tick) &&
            Elapsed(front, start) + e.tick.dt < cfg.dwell)
      {
        from := start;
        PatientExtends(cfg, s, es, from);
      }
    }
  }

  /** While storage has spare, a cut needs a full dwell of import over the
      limit, uninterrupted by storage still closing the gap. */
  lemma DwellBeforeCut(cfg: Config, s: ShedState, es: seq<Event>, t: ShedTick) returns (from: nat)
    requires s.overFor == 0.0 && forall k :: 0 <= k < |es| ==> Valid(es[k].tick)
    requires Valid(t) && TaskTick(t, t.fleet) && HoldsHoldable(Run(cfg, s, es), t.fleet) && cfg.rampRate >= 0.0
    requires HasSpare(cfg, t)
    requires Proposal(cfg, Run(cfg, s, es), t).Some? &&
             Proposal(cfg, Run(cfg, s, es), t).value < Current(Run(cfg, s, es), t)
    ensures from <= |es| && Elapsed(es, from) + t.dt >= cfg.dwell
    ensures Patient(cfg, s, es, from)
  {
    from := OverForIsPatience(cfg, s, es);
    CutsNeverOverCut(cfg, Run(cfg, s, es), t);
  }

  // ----- how far a tick goes, and how soon

  /** Import counts as falling by more than a thousandth of the fleet's maximum,
      and a cap is proposed for a change of at least half a tenth of a percent. */
  lemma Thresholds(cfg: Config, s: ShedState, t: ShedTick)
    requires Valid(t)
    ensures Falling(s, t) <==> s.lastOver.Some? && s.lastOver.value - (t.poi - t.importLimit) > 0.001 * t.fleet.maxW
    ensures Proposal(cfg, s, t).Some? ==> Abs(Proposal(cfg, s, t).value - Current(s, t)) >= 0.05
    ensures Proposal(cfg, s, t).None? && Aim(cfg, s, t).1.Some? ==>
              Abs(Clamp(Quantize(Current(s, t), Aim(cfg, s, t).1.value), FloorPercent(t.fleet), t.requested)
                  - Current(s, t)) < 0.05
  {
  }

  /** The cap the devices hold after a tick whose write lands. */
  function Landed(cfg: Config, s: ShedState, t: ShedTick): real
    requires Valid(t)
  {
    var proposal := Proposal(cfg, s, t);
    if proposal.Some? then proposal.value else Current(s, t)
  }

  /** Watts as a percentage of the fleet's maximum, and no more than one tick of the ramp. */
  function Reach(cfg: Config, t: ShedTick, watts: real): real
    requires t.fleet.maxW > 0.0
  {
    Min(100.0 * watts / t.fleet.maxW, 100.0 * cfg.rampRate * t.dt)
  }

  lemma ReachIs(cfg: Config, t: ShedTick, watts: real)
    requires t.fleet.maxW > 0.0
    ensures Reach(cfg, t, watts) == Min(Percent(watts, t.fleet), RampPercent(cfg, t))
  {
    PercentIs(watts, t.fleet);
  }

  lemma PercentIs(watts: real, fleet: Fleet)
    requires fleet.maxW > 0.0
    ensures Percent(watts, fleet) == 100.0 * watts / fleet.maxW
  {
  }

  lemma QuantizeNear(current: real, aim: real)
    ensures aim - 0.05 <= Quantize(current, aim) < aim + 0.15
  {
    var steps := Ceil((aim - current) / STEP_PERCENT);
    StepsReach(aim - current, steps);
    var x := (current + steps as real * STEP_PERCENT) * 10.0;
    assert x - 0.5 <= Round(x) as real <= x + 0.5;
  }

  lemma StepsReach(gap: real, steps: int)
    requires steps == Ceil(gap / STEP_PERCENT)
    ensures gap <= steps as real * STEP_PERCENT < gap + STEP_PERCENT
  {
  }

  /** Snapped to the grid, a tick lands where it aimed, held between the floor and
      100%, to a tenth of a percent below and two above. */
  lemma SnapNear(current: real, aim: real, t: ShedTick)
    requires Valid(t) && t.requested == 100.0
    ensures var snapped, held := Snap(current, aim, t), Clamp(aim, FloorPercent(t.fleet), 100.0);
            var landed := if snapped.Some? then snapped.value else current;
            held - 0.1 <= landed <= held + 0.2
  {
    QuantizeNear(current, aim);
  }

  lemma LandsAt(cfg: Config, s: ShedState, t: ShedTick, aim: real)
    requires Valid(t) && TaskTick(t, t.fleet) && Aim(cfg, s, t).1 == Some(aim)
    ensures FloorPercent(t.fleet) <= 100.0
    ensures var held := Clamp(aim, FloorPercent(t.fleet), 100.0);
            held - 0.1 <= Landed(cfg, s, t) <= held + 0.2
  {
    FloorWithin(t.fleet);
    SnapNear(Current(s, t), aim, t);
  }

  /** Exporting past the limit raises the cap on that very tick, whatever the
      timers: by the excess or one tick of the ramp, up to 100%. */
  lemma ExportRaisesAtOnce(cfg: Config, s: ShedState, t: ShedTick)
    requires Valid(t) && TaskTick(t, t.fleet) && -t.poi > t.exportLimit
    ensures var aim := Current(s, t) + Reach(cfg, t, -t.poi - t.exportLimit);
            var held := Clamp(aim, FloorPercent(t.fleet), 100.0);
            held - 0.1 <= Landed(cfg, s, t) <= held + 0.2
  {
    ReachIs(cfg, t, Exported(t));
    LandsAt(cfg, s, t, Current(s, t) + Reach(cfg, t, Exported(t)));
  }

  lemma CutAim(cfg: Config, s: ShedState, t: ShedTick)
    requires t.fleet.maxW > 0.0 && Over(t) > 0.0 && Exported(t) <= 0.0
    requires t.storageSpare < cfg.margin * t.fleet.maxW || s.overFor + t.dt >= cfg.dwell
    ensures Aim(cfg, s, t).1 == Some(Current(s, t) - Min(Percent(Over(t), t.fleet), RampPercent(cfg, t)))
  {
  }

  /** Over the import limit, once storage has no spare left or has had the dwell,
      the cap is cut by the excess or one tick of the ramp, down to the floor. */
  lemma CutsOnceDue(cfg: Config, s: ShedState, t: ShedTick)
    requires Valid(t) && TaskTick(t, t.fleet) && t.poi > t.importLimit && -t.poi <= t.exportLimit
    requires t.storageSpare < cfg.margin * t.fleet.maxW || s.overFor + t.dt >= cfg.dwell
    ensures var aim := Current(s, t) - Reach(cfg, t, t.poi - t.importLimit);
            var held := Clamp(aim, FloorPercent(t.fleet), 100.0);
            held - 0.1 <= Landed(cfg, s, t) <= held + 0.2
  {
    ReachIs(cfg, t, Over(t));
    CutAim(cfg, s, t);
    LandsAt(cfg, s, t, Current(s, t) - Reach(cfg, t, Over(t)));
  }

  /** Import has room to restore: more than the margin below the limit, and the
      cap is below 100%. */
  ghost predicate Roomy(cfg: Config, s: ShedState, t: ShedTick) {
    && -t.poi <= t.exportLimit && t.poi <= t.importLimit
    && t.poi + cfg.margin * t.fleet.maxW < t.importLimit && Current(s, t) < 100.0
  }

  lemma RestoreAim(cfg: Config, s: ShedState, t: ShedTick)
    requires t.fleet.maxW > 0.0 && t.requested == 100.0 && Roomy(cfg, s, t) && s.clearFor + t.dt >= cfg.dwell
    ensures Aim(cfg, s, t).1 == Some(Current(s, t) + Min(Percent(Headroom(cfg, t), t.fleet), RampPercent(cfg, t)))
  {
  }

  /** Once the dwell is served, a restore goes up by the room or one tick of the ramp. */
  lemma RestoresOnceServed(cfg: Config, s: ShedState, t: ShedTick, room: real)
    requires Valid(t) && TaskTick(t, t.fleet) && Roomy(cfg, s, t) && s.clearFor + t.dt >= cfg.dwell
    requires room == t.importLimit - t.poi - cfg.margin * t.fleet.maxW
    ensures var aim := Current(s, t) + Reach(cfg, t, room);
            var held := Clamp(aim, FloorPercent(t.fleet), 100.0);
            held - 0.1 <= Landed(cfg, s, t) <= held + 0.2
  {
    assert room == Headroom(cfg, t);
    ReachIs(cfg, t, room);
    RestoreAim(cfg, s, t);
    LandsAt(cfg, s, t, Current(s, t) + Reach(cfg, t, room));
  }

  /** From event `from` on every tick had room to restore. */
  ghost predicate RoomySince(cfg: Config, s: ShedState, es: seq<Event>, from: nat)
    requires forall k :: 0 <= k < |es| ==> Valid(es[k].tick)
  {
    from <= |es| && forall k :: from <= k < |es| ==> Roomy(cfg, Run(cfg, s, es[..k]), es[k].tick)
  }

  lemma RoomyExtends(cfg: Config, s: ShedState, es: seq<Event>, from: nat)
    requires es != [] && forall k :: 0 <= k < |es| ==> Valid(es[k].tick)
    requires RoomySince(cfg, s, es[..|es| - 1], from) && Roomy(cfg, Run(cfg, s, es[..|es| - 1]), es[|es| - 1].tick)
    ensures RoomySince(cfg, s, es, from)
  {
    var front := es[..|es| - 1];
    forall k | from <= k < |es| ensures Roomy(cfg, Run(cfg, s, es[..k]), es[k].tick) {
      if k < |front| { assert front[k] == es[k] && front[..k] == es[..k]; } else { assert es[..k] == front; }
    }
  }

  lemma ClearForStep(cfg: Config, s: ShedState, e: Event)
    requires Valid(e.tick) && e.tick.requested == 100.0
    ensures After(cfg, s, e).clearFor == if Roomy(cfg, s, e.tick) then s.clearFor + e.tick.dt else 0.0
  {
  }

  /** The restore timer is the time there has been room without a break. */
  lemma {:induction false} ClearForIsRoom(cfg: Config, s: ShedState, es: seq<Event>) returns (from: nat)
    requires s.clearFor == 0.0 && forall k :: 0 <= k < |es| ==> Valid(es[k].tick) && es[k].tick.requested == 100.0
    ensures from <= |es| && Run(cfg, s, es).clearFor == Elapsed(es, from) && RoomySince(cfg, s, es, from)
  {
    from := |es|;
    if es != [] {
      var front, e := es[..|es| - 1], es[|es| - 1];
      var start := ClearForIsRoom(cfg, s, front);
      ClearForStep(cfg, Run(cfg, s, front), e);
      if Roomy(cfg, Run(cfg, s, front), e.tick) {
        from := start;
        RoomyExtends(cfg, s, es, from);
      }
    }
  }

  /** Without an export to stop, a raise that takes the cap up needs a full dwell
      of room to restore, uninterrupted, unless it is the half-step one. */
  lemma {:induction false} DwellBeforeRestore(cfg: Config, s: ShedState, es: seq<Event>, t: ShedTick)
    returns (from: nat)
    requires s.clearFor == 0.0 && forall k :: 0 <= k < |es| ==> Valid(es[k].tick) && es[k].tick.requested == 100.0
    requires Valid(t) && TaskTick(t, t.fleet) && HoldsHoldable(Run(cfg, s, es), t.fleet) && cfg.rampRate >= 0.0
    requires -t.poi <= t.exportLimit && !HalfStep(Current(Run(cfg, s, es), t))
    requires Landed(cfg, Run(cfg, s, es), t) > Current(Run(cfg, s, es), t)
    ensures from <= |es| && Elapsed(es, from) + t.dt >= cfg.dwell
    ensures RoomySince(cfg, s, es, from) && Roomy(cfg, Run(cfg, s, es), t)
  {
    from := ClearForIsRoom(cfg, s, es);
    var before := Run(cfg, s, es);
    if Over(t) > 0.0 {
      OverLimitRaise(cfg, before, t);
    } else if !Roomy(cfg, before, t) {
      SnapStays(Current(before, t), t);
    }
  }

  /** Aiming at the present cap leaves it, unless it sits half-way between steps. */
  lemma SnapStays(current: real, t: ShedTick)
    requires Valid(t) && TaskTick(t, t.fleet) && Holdable(current, t.fleet) && !HalfStep(current)
    ensures Snap(current, current, t).Some? ==> Snap(current, current, t).value <= current
  {
    assert current - 0.0 == current;
    SnapRaisesExactly(current, 0.0, t);
  }
}
