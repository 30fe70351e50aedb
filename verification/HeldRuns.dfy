/** The approach hold over runs of the task: from the tick that holds growth back
    until the second later reading, the output does not grow on the side it is on. */
module HeldRuns {
  import opened Numbers
  import opened Allocation
  import opened Distribution
  import opened Conservation
  import opened ControlLaw
  import opened Writes
  import opened RackShares
  import opened Rebalance
  import G = PoiGate
  import A = ApproachHold

  // ----- the hold, seen from the memory

  /** The approach is held at every tick of the run, its own reading taken. */
  ghost predicate AllHeld(m: Memory, ts: seq<Turn>) {
    ts == [] ||
    (AllHeld(m, ts[..|ts| - 1]) && WithReading(Turns(m, ts[..|ts| - 1]), ts[|ts| - 1]).gate.Holds())
  }

  lemma {:induction false} TurnsConcat(m: Memory, a: seq<Turn>, b: seq<Turn>)
    ensures Turns(m, a + b) == Turns(Turns(m, a), b)
    ensures AllHeld(m, a) && AllHeld(Turns(m, a), b) ==> AllHeld(m, a + b)
  {
    if b == [] {
      assert a + b == a;
    } else {
      TurnsConcat(m, a, b[..|b| - 1]);
      assert (a + b)[..|a + b| - 1] == a + b[..|b| - 1];
    }
  }

  lemma {:induction false} WaitingIsHeld(m: Memory, ts: seq<Turn>)
    requires m.deferred && m.gate.handoff == G.Deferred && NoChange(m, ts)
    ensures AllHeld(m, ts)
  {
    if ts != [] {
      WaitingIsHeld(m, ts[..|ts| - 1]);
      WaitingTurns(m, ts[..|ts| - 1]);
    }
  }

  lemma LaterOfFront(ts: seq<Turn>, at: real)
    requires ts != []
    ensures |G.Later(Times(ts[..|ts| - 1]), at)| <= |G.Later(Times(ts), at)|
    ensures Times(ts)[..|ts| - 1] == Times(ts[..|ts| - 1])
  {
    var front := ts[..|ts| - 1];
    assert Times(ts)[..|ts| - 1] == Times(front);
    assert G.Later(Times(front), at) <= G.Later(Times(ts), at);
    SubsetSize(G.Later(Times(front), at), G.Later(Times(ts), at));
  }

  lemma {:induction false} SubsetSize(a: set<real>, b: set<real>)
    requires a <= b
    ensures |a| <= |b|
  {
    assert b == a + (b - a);
  }

  lemma {:induction false} LaterIsHeld(m: Memory, at: real, ts: seq<Turn>)
    requires !m.deferred && m.gate.handoff == G.GrowthWritten(at, 0)
    requires (m.gate.lastUsed.Some? ==> m.gate.lastUsed.value <= at) && NoNewDeferral(m, ts)
    requires G.InOrder(Times(ts)) && |G.Later(Times(ts), at)| < 2
    ensures AllHeld(m, ts)
  {
    if ts != [] {
      LaterOfFront(ts, at);
      LaterIsHeld(m, at, ts[..|ts| - 1]);
      QuietTurns(m, ts[..|ts| - 1]);
      G.HoldIsExact(m.gate, at, Times(ts));
    }
  }

  /** The ticks before the second later reading: nothing has changed yet, or one
      tick with a change has landed, nothing was held back since, and fewer than
      two distinct readings came later than its write. */
  ghost predicate BeforeSecondReading(m: Memory, ts: seq<Turn>, completing: nat)
    requires completing <= |ts|
  {
    && NoChange(m, ts[..completing])
    && (completing < |ts| ==>
          var waited, c, later := Turns(m, ts[..completing]), ts[completing], ts[completing + 1..];
          && Changed(c.shares, waited.last) != [] && c.landed && c.receivedAt <= c.now
          && NoNewDeferral(AfterTurn(waited, c), later)
          && G.InOrder(Times(later)) && |G.Later(Times(later), c.now)| < 2)
  }

  lemma OneTurn(m: Memory, t: Turn)
    ensures Turns(m, [t]) == AfterTurn(m, t)
    ensures AllHeld(m, [t]) <==> WithReading(m, t).gate.Holds()
  {
    assert [t][..0] == [];
  }

  lemma CompletingIsHeld(m: Memory, c: Turn, later: seq<Turn>)
    requires m.deferred && m.gate.handoff == G.Deferred
    requires Changed(c.shares, m.last) != [] && c.landed && c.receivedAt <= c.now
    requires NoNewDeferral(AfterTurn(m, c), later)
    requires G.InOrder(Times(later)) && |G.Later(Times(later), c.now)| < 2
    ensures AllHeld(m, [c] + later)
  {
    OneTurn(m, c);
    CompletingTurn(m, c);
    LaterIsHeld(AfterTurn(m, c), c.now, later);
    TurnsConcat(m, [c], later);
  }

  lemma ThroughCompletionHeld(m: Memory, waiting: seq<Turn>, c: Turn, later: seq<Turn>)
    requires m.deferred && m.gate.handoff == G.Deferred && NoChange(m, waiting)
    requires Changed(c.shares, Turns(m, waiting).last) != [] && c.landed && c.receivedAt <= c.now
    requires NoNewDeferral(AfterTurn(Turns(m, waiting), c), later)
    requires G.InOrder(Times(later)) && |G.Later(Times(later), c.now)| < 2
    ensures AllHeld(m, waiting + ([c] + later))
  {
    WaitingIsHeld(m, waiting);
    WaitingTurns(m, waiting);
    var waited := Turns(m, waiting);
    CompletingIsHeld(waited, c, later);
    TurnsConcat(m, waiting, [c] + later);
  }

  lemma SplitAt(ts: seq<Turn>, k: nat)
    requires k < |ts|
    ensures ts[..k] + ([ts[k]] + ts[k + 1..]) == ts
  {
  }

  lemma HeldSinceDeferral(m: Memory, ts: seq<Turn>, completing: nat)
    requires m.deferred && m.gate.handoff == G.Deferred
    requires completing <= |ts| && BeforeSecondReading(m, ts, completing)
    ensures AllHeld(m, ts)
  {
    if completing == |ts| {
      assert ts[..completing] == ts;
      WaitingIsHeld(m, ts);
    } else {
      SplitAt(ts, completing);
      ThroughCompletionHeld(m, ts[..completing], ts[completing], ts[completing + 1..]);
    }
  }

  // ----- the memory along a run of the task

  /** A ready tick of a metered task as the memory sees it. */
  ghost function TurnFor(guard: Guard, t: Task, x: Inputs): Turn
    requires guard.hasPoiMeter && Rebalance.Ready(guard, x)
  {
    var told := Told(guard, t, x);
    var shares := if told.Ok? then told.value else [];
    var count := |PlannedWrites(t.memory, shares)|;
    Turn(x.poi.value.receivedAt, shares, Landing(count, x.failsAt) == count, x.now)
  }

  ghost function TurnsOf(guard: Guard, t: Task, xs: seq<Inputs>): seq<Turn>
    requires guard.hasPoiMeter
  {
    if xs == [] then []
    else
      var front, x := xs[..|xs| - 1], xs[|xs| - 1];
      var turns := TurnsOf(guard, t, front);
      if Ready(guard, x) then turns + [TurnFor(guard, RunTask(Some(guard), t, front), x)] else turns
  }

  lemma GateLeavesPlan(m: Memory, gate: G.Gate, shares: seq<Share>)
    ensures PlannedWrites(m.(gate := gate), shares) == PlannedWrites(m, shares)
  {
  }

  lemma WrittenOutTurn(t: Task, shares: seq<Share>, x: Inputs)
    ensures var count := |PlannedWrites(t.memory, shares)|;
            WrittenOut(t, shares, x).memory ==
            if Landing(count, x.failsAt) == count then AfterLanding(t.memory, shares, x.now)
            else Planned(t.memory, shares)
  {
  }

  lemma NothingPlanned(m: Memory)
    ensures PlannedWrites(m, []) == [] && Planned(m, []) == m
  {
  }

  lemma TickIsTurn(guard: Guard, t: Task, x: Inputs)
    requires guard.hasPoiMeter && Ready(guard, x)
    ensures Ticked(Some(guard), t, x).memory == AfterTurn(t.memory, TurnFor(guard, t, x))
  {
    var turn := TurnFor(guard, t, x);
    var read := WithReading(t.memory, turn);
    var target := Energized(SteeredOutput(guard, t, x), x.energize);
    var steered := t.(ctrl := Some(Steered(guard, t.ctrl, t.memory.gate, x)), memory := read);
    assert Ticked(Some(guard), t, x) == Distributed(steered, target, x);
    GateLeavesPlan(t.memory, read.gate, turn.shares);
    if Told(guard, t, x).Ok? {
      DistributedTurn(steered, target, x);
    } else {
      NothingPlanned(read);
    }
  }

  lemma DistributedTurn(t: Task, target: real, x: Inputs)
    requires SharesFor(x.rackModule, target, x.locked).Ok?
    ensures var shares := SharesFor(x.rackModule, target, x.locked).value;
            var count := |PlannedWrites(t.memory, shares)|;
            Distributed(t, target, x).memory ==
            if Landing(count, x.failsAt) == count then AfterLanding(t.memory, shares, x.now)
            else Planned(t.memory, shares)
  {
    var shares := SharesFor(x.rackModule, target, x.locked).value;
    WrittenOutTurn(t, shares, x);
    if t.ctrl.Some? { WrittenOutTurn(t.(ctrl := Some(t.ctrl.value.(output := Delivered(shares)))), shares, x); }
  }

  /** Over every run the task's memory goes through the turns of its ready ticks. */
  lemma {:induction false} MemoryTakesTurns(guard: Guard, t: Task, xs: seq<Inputs>)
    requires guard.hasPoiMeter
    ensures RunTask(Some(guard), t, xs).memory == Turns(t.memory, TurnsOf(guard, t, xs))
  {
    if xs != [] {
      var front, x := xs[..|xs| - 1], xs[|xs| - 1];
      MemoryTakesTurns(guard, t, front);
      if Ready(guard, x) {
        var turns, turn := TurnsOf(guard, t, front), TurnFor(guard, RunTask(Some(guard), t, front), x);
        TickIsTurn(guard, RunTask(Some(guard), t, front), x);
        assert (turns + [turn])[..|turns|] == turns;
      }
    }
  }

  // ----- what a tick delivers

  /** What the racks are told lies between 0 W and the target. */
  lemma DeliveredTowardZero(x: Inputs, target: real)
    requires PercentRacks(x.rackModule) && SharesFor(x.rackModule, target, x.locked).Ok?
    ensures var delivered := Delivered(SharesFor(x.rackModule, target, x.locked).value);
            0.0 <= delivered <= target || target <= delivered <= 0.0
  {
    var children := Children(x, target).value;
    var split := Allocated(target, children, x.rackModule.policy);
    PercentChildren(x.rackModule, target, x.locked);
    AllocationDelivers(target, children, x.rackModule.policy);
    ZerosAddNothing(split, children);
    forall i | 0 <= i < |split| ensures 0.0 <= AlongAll(target, WattsOf(split))[i] {
      assert WattsOf(split)[i] == split[i].watts;
    }
    SumZero(Zeros(|split|));
    SumOrder(Zeros(|split|), AlongAll(target, WattsOf(split)));
    SumAlong(target, WattsOf(split));
  }

  /** The pull-back to what is delivered only moves the output toward 0 W. */
  lemma SyncTowardZero(guard: Guard, t: Task, x: Inputs)
    requires Ready(guard, x) && PercentRacks(x.rackModule)
    ensures var steered, end := SteeredOutput(guard, t, x), Ticked(Some(guard), t, x).ctrl;
            end.Some? && (0.0 <= end.value.output <= steered || steered <= end.value.output <= 0.0)
  {
    OutputAfterTick(guard, t, x);
    if Told(guard, t, x).Ok? {
      DeliveredTowardZero(x, Energized(SteeredOutput(guard, t, x), x.energize));
    }
  }

  /** The meter shows no more export than the limit allows. */
  predicate ExportKept(x: Inputs) {
    x.poi.Some? && x.exportLimit.Some? ==> x.poi.value.power + x.exportLimit.value >= 0.0
  }

  /** A held ready tick, whatever it steers by, does not grow on its side. */
  lemma HeldSteering(guard: Guard, t: Task, x: Inputs)
    requires guard.hasPoiMeter && Ready(guard, x) && RatedGuard(guard) && t.ctrl.Some?
    requires WithReading(t.memory, TurnFor(guard, t, x)).gate.Holds()
    ensures var u, steered := t.ctrl.value.output, SteeredOutput(guard, t, x);
            && (u >= 0.0 ==> steered <= u)
            && (u < 0.0 && ExportKept(x) ==> steered >= u)
  {
    var s := t.ctrl.value;
    RampedNoFarther(guard.control, s, guard.powerMin, guard.powerMax, x.dt);
    A.HeldTick(guard.control, s, TickFor(guard, t.memory.gate, x));
  }

  // ----- the output until the second later reading

  ghost predicate AllPercent(xs: seq<Inputs>) {
    forall k :: 0 <= k < |xs| ==> PercentRacks(xs[k].rackModule)
  }

  /** The output is on one side of 0 W before every tick of the run; charging,
      the meter also keeps to the export limit. */
  ghost predicate OneSided(guard: Guard, t: Task, xs: seq<Inputs>, discharging: bool) {
    xs == [] ||
    (var front := xs[..|xs| - 1];
     var before := RunTask(Some(guard), t, front).ctrl;
     && OneSided(guard, t, front, discharging) && before.Some?
     && if discharging then before.value.output >= 0.0 else before.value.output < 0.0 && ExportKept(xs[|xs| - 1]))
  }

  /** No more discharge, or no more charge, than `u`. */
  ghost predicate NoFarther(ctrl: Option<State>, u: real, discharging: bool) {
    ctrl.Some? && if discharging then ctrl.value.output <= Max(u, 0.0) else ctrl.value.output >= Min(u, 0.0)
  }

  lemma HeldTurnNoFarther(guard: Guard, t: Task, x: Inputs, u: real, discharging: bool)
    requires guard.hasPoiMeter && Ready(guard, x) && RatedGuard(guard) && PercentRacks(x.rackModule)
    requires NoFarther(t.ctrl, u, discharging)
    requires if discharging then t.ctrl.value.output >= 0.0 else t.ctrl.value.output < 0.0 && ExportKept(x)
    requires WithReading(t.memory, TurnFor(guard, t, x)).gate.Holds()
    ensures NoFarther(Ticked(Some(guard), t, x).ctrl, u, discharging)
  {
    HeldSteering(guard, t, x);
    SyncTowardZero(guard, t, x);
  }

  lemma {:induction false} HeldRunNoFarther(guard: Guard, t: Task, xs: seq<Inputs>, discharging: bool)
    requires guard.hasPoiMeter && RatedGuard(guard) && AllPercent(xs) && t.ctrl.Some?
    requires AllHeld(t.memory, TurnsOf(guard, t, xs)) && OneSided(guard, t, xs, discharging)
    ensures NoFarther(RunTask(Some(guard), t, xs).ctrl, t.ctrl.value.output, discharging)
  {
    if xs != [] {
      var front, x := xs[..|xs| - 1], xs[|xs| - 1];
      var before := RunTask(Some(guard), t, front);
      HeldFront(guard, t, xs);
      HeldRunNoFarther(guard, t, front, discharging);
      if Ready(guard, x) { HeldTurnNoFarther(guard, before, x, t.ctrl.value.output, discharging); }
    }
  }

  lemma HeldFront(guard: Guard, t: Task, xs: seq<Inputs>)
    requires guard.hasPoiMeter && xs != [] && AllHeld(t.memory, TurnsOf(guard, t, xs)) && AllPercent(xs)
    ensures var front, x := xs[..|xs| - 1], xs[|xs| - 1];
            && AllHeld(t.memory, TurnsOf(guard, t, front)) && AllPercent(front) && PercentRacks(x.rackModule)
            && (Ready(guard, x) ==>
                  var before := RunTask(Some(guard), t, front);
                  WithReading(before.memory, TurnFor(guard, before, x)).gate.Holds())
  {
    var front, x := xs[..|xs| - 1], xs[|xs| - 1];
    MemoryTakesTurns(guard, t, front);
    forall k | 0 <= k < |front| ensures PercentRacks(front[k].rackModule) { assert front[k] == xs[k]; }
    if Ready(guard, x) {
      var turns, turn := TurnsOf(guard, t, front), TurnFor(guard, RunTask(Some(guard), t, front), x);
      assert (turns + [turn])[..|turns|] == turns;
    }
  }

  /** The handoff as the output sees it. From a tick that holds growth back
      until the second distinct reading received after the write that completes
      the handoff, through ticks with missing, stale or fresh readings and
      whichever writes land, the output never goes farther on the side it is on. */
  lemma HandoffHoldsOutput(guard: Guard, t: Task, x: Inputs, xs: seq<Inputs>, completing: nat, discharging: bool)
    requires guard.hasPoiMeter && RatedGuard(guard) && Ready(guard, x) && AllPercent(xs)
    requires DefersNow(t.memory, TurnFor(guard, t, x).shares)
    requires var deferred := Ticked(Some(guard), t, x);
             var turns := TurnsOf(guard, deferred, xs);
             && completing <= |turns| && BeforeSecondReading(deferred.memory, turns, completing)
             && OneSided(guard, deferred, xs, discharging)
    ensures var deferred := Ticked(Some(guard), t, x);
            deferred.ctrl.Some? &&
              NoFarther(RunTask(Some(guard), deferred, xs).ctrl, deferred.ctrl.value.output, discharging)
  {
    var deferred := Ticked(Some(guard), t, x);
    OutputAfterTick(guard, t, x);
    TickIsTurn(guard, t, x);
    DeferringTurn(t.memory, TurnFor(guard, t, x));
    HeldSinceDeferral(deferred.memory, TurnsOf(guard, deferred, xs), completing);
    HeldRunNoFarther(guard, deferred, xs, discharging);
  }
}
