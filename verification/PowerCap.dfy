/** One fleet percentage becomes a whole-watt cap on every GPU. */
module PowerCap {
  import opened Numbers
  import opened ControlLaw
  import opened Shed

  /** A GPU's power limit and its allowable range, W. */
  datatype Gpu = Gpu(deviceId: string, minW: real, maxW: real) {
    ghost predicate Valid() { 0.0 <= minW <= maxW }

    ghost predicate WholeRange() { minW.Floor as real == minW && maxW.Floor as real == maxW }
  }

  datatype Cap = Cap(deviceId: string, watts: int)

  ghost predicate AllValid(gpus: seq<Gpu>) {
    forall k :: 0 <= k < |gpus| ==> gpus[k].Valid()
  }

  /** The cap before it is put on whole watts. */
  function Exact(g: Gpu, percent: real): real
    requires g.minW <= g.maxW
  {
    Clamp(FleetWatts(percent, Fleet(g.minW, g.maxW)), g.minW, g.maxW)
  }

  /** Whole watts: rounded to the microwatt, then up. */
  function WholeWatts(exact: real): int {
    Ceil(Round(exact * 1000000.0) as real / 1000000.0)
  }

  /** The cap a GPU holds once `percent` has been written to it. */
  function Held(g: Gpu, percent: real): int
    requires g.minW <= g.maxW
  {
    WholeWatts(Exact(g, percent))
  }

  function ChildCaps(gpus: seq<Gpu>, percent: real): (r: seq<Cap>)
    requires forall k :: 0 <= k < |gpus| ==> gpus[k].minW <= gpus[k].maxW
    ensures |r| == |gpus|
  {
    seq(|gpus|, i requires 0 <= i < |gpus| => Cap(gpus[i].deviceId, Held(gpus[i], percent)))
  }

  /** Half of the microwatt the rounding works in. */
  const ROUNDING_W: real := 0.0000005

  lemma WholeWattsBounds(exact: real)
    ensures exact - ROUNDING_W <= WholeWatts(exact) as real < exact + ROUNDING_W + 1.0
  {
    var micro := Round(exact * 1000000.0) as real;
    assert exact * 1000000.0 - 0.5 <= micro <= exact * 1000000.0 + 0.5;
    assert exact - ROUNDING_W <= micro / 1000000.0 <= exact + ROUNDING_W;
  }

  lemma WholeWattsMonotone(x: real, y: real)
    requires x <= y
    ensures WholeWatts(x) <= WholeWatts(y)
  {
    assert Round(x * 1000000.0) <= Round(y * 1000000.0);
    var a, b := Round(x * 1000000.0) as real / 1000000.0, Round(y * 1000000.0) as real / 1000000.0;
    assert (-b).Floor <= (-a).Floor;
  }

  lemma WholeWattsOfWhole(n: int)
    ensures WholeWatts(n as real) == n
  {
    assert (n as real) * 1000000.0 == (n * 1000000) as real;
    assert Round((n * 1000000) as real) == n * 1000000;
    assert (n * 1000000) as real / 1000000.0 == n as real;
  }

  /** Every percentage's cap stays inside the range when the range is whole watts. */
  lemma CapWithinRange(g: Gpu, percent: real)
    requires g.Valid() && g.WholeRange()
    ensures g.minW <= Held(g, percent) as real <= g.maxW
  {
    WholeWattsOfWhole(g.minW.Floor);
    WholeWattsOfWhole(g.maxW.Floor);
    WholeWattsMonotone(g.minW, Exact(g, percent));
    WholeWattsMonotone(Exact(g, percent), g.maxW);
  }

  /** `watts` is `exact` on whole watts, never below it but for half a microwatt. */
  predicate RoundedUp(watts: int, exact: real) {
    exact - 0.0000005 <= watts as real < exact + 1.0 + 0.0000005
  }

  /** The percentage of a GPU's maximum, held in its range. */
  function ShareOf(g: Gpu, percent: real): real
    requires g.minW <= g.maxW
  {
    Clamp(g.maxW * percent / 100.0, g.minW, g.maxW)
  }

  lemma ShareOfMaximum(g: Gpu, percent: real)
    requires g.minW <= g.maxW
    ensures Exact(g, percent) == ShareOf(g, percent)
  {
    Commute(g.maxW, percent);
  }

  lemma HeldIsItsShare(g: Gpu, percent: real)
    requires g.minW <= g.maxW
    ensures RoundedUp(Held(g, percent), ShareOf(g, percent))
  {
    ShareOfMaximum(g, percent);
    WholeWattsRoundUp(Exact(g, percent));
  }

  lemma WholeWattsRoundUp(exact: real)
    ensures RoundedUp(WholeWatts(exact), exact)
  {
    WholeWattsBounds(exact);
  }

  lemma Commute(x: real, y: real)
    ensures x * y == y * x
  {
  }

  /** Every child is written its own cap, its share rounded up. */
  lemma ChildCapIsItsShare(gpus: seq<Gpu>, percent: real, i: nat)
    requires AllValid(gpus) && i < |gpus|
    ensures var g, cap := gpus[i], ChildCaps(gpus, percent)[i];
            cap.deviceId == g.deviceId && RoundedUp(cap.watts, ShareOf(g, percent))
  {
    HeldIsItsShare(gpus[i], percent);
  }

  /** Every child keeps its place, and its cap stays in its own range. */
  lemma ChildCapsWithinRange(gpus: seq<Gpu>, percent: real, i: nat)
    requires AllValid(gpus) && i < |gpus| && forall k :: 0 <= k < |gpus| ==> gpus[k].WholeRange()
    ensures var cap := ChildCaps(gpus, percent)[i];
            cap.deviceId == gpus[i].deviceId && gpus[i].minW <= cap.watts as real <= gpus[i].maxW
  {
    CapWithinRange(gpus[i], percent);
  }

  /** No percentage's cap passes the maximum, exactly when the maximum itself,
      to the microwatt, is no more than its whole watts. */
  lemma CapOverrunsExactly(g: Gpu)
    requires g.Valid()
    ensures (forall percent :: Held(g, percent) as real <= g.maxW) <==>
            Round(g.maxW * 1000000.0) <= g.maxW.Floor * 1000000
  {
    var whole := g.maxW.Floor;
    var micro := Round(g.maxW * 1000000.0);
    assert WholeWatts(g.maxW) as real <= g.maxW <==> WholeWatts(g.maxW) <= whole;
    assert WholeWatts(g.maxW) <= whole <==> micro as real / 1000000.0 <= whole as real;
    assert micro as real / 1000000.0 <= whole as real <==> micro as real <= whole as real * 1000000.0;
    assert whole as real * 1000000.0 == (whole * 1000000) as real;
    assert Exact(g, 100.0) == g.maxW && Held(g, 100.0) == WholeWatts(g.maxW);
    forall percent ensures Held(g, percent) <= WholeWatts(g.maxW) {
      WholeWattsMonotone(Exact(g, percent), g.maxW);
    }
  }

  // ----- the fleet

  function FleetOf(gpus: seq<Gpu>): Fleet {
    if gpus == [] then Fleet(0.0, 0.0)
    else
      var front, g := FleetOf(gpus[..|gpus| - 1]), gpus[|gpus| - 1];
      Fleet(front.minW + g.minW, front.maxW + g.maxW)
  }

  function SumWatts(caps: seq<Cap>): int {
    if caps == [] then 0 else SumWatts(caps[..|caps| - 1]) + caps[|caps| - 1].watts
  }

  /** Sum of the caps written to the GPUs for `percent`, W. */
  function CapWatts(gpus: seq<Gpu>, percent: real): int
    requires forall k :: 0 <= k < |gpus| ==> gpus[k].minW <= gpus[k].maxW
  {
    SumWatts(ChildCaps(gpus, percent))
  }

  lemma CapWattsSnoc(gpus: seq<Gpu>, percent: real)
    requires gpus != [] && forall k :: 0 <= k < |gpus| ==> gpus[k].minW <= gpus[k].maxW
    ensures CapWatts(gpus, percent) == CapWatts(gpus[..|gpus| - 1], percent) + Held(gpus[|gpus| - 1], percent)
  {
    assert ChildCaps(gpus, percent)[..|gpus| - 1] == ChildCaps(gpus[..|gpus| - 1], percent);
  }

  /** What writing `next` takes off GPUs that hold the caps for `percent`. */
  function TakenOff(gpus: seq<Gpu>, percent: real, next: real): real
    requires forall k :: 0 <= k < |gpus| ==> gpus[k].minW <= gpus[k].maxW
  {
    (CapWatts(gpus, percent) - CapWatts(gpus, next)) as real
  }

  /** `n` times `each`. */
  function Times(n: nat, each: real): real {
    if n == 0 then 0.0 else Times(n - 1, each) + each
  }

  /** The percentage's own share of one GPU's maximum, before its range. */
  function Asked(g: Gpu, percent: real): real {
    FleetWatts(percent, Fleet(g.minW, g.maxW))
  }

  lemma FleetWattsGap(percent: real, next: real, fleet: Fleet)
    requires next <= percent && fleet.maxW >= 0.0
    ensures FleetWatts(percent, fleet) - FleetWatts(next, fleet) == FleetWatts(percent - next, fleet) >= 0.0
  {
    assert (percent - next) * fleet.maxW >= 0.0;
    assert percent * fleet.maxW - next * fleet.maxW == (percent - next) * fleet.maxW;
  }

  lemma AskedGap(g: Gpu, percent: real, next: real)
    requires g.Valid() && next <= percent
    ensures Asked(g, percent) - Asked(g, next) == Asked(g, percent - next) >= 0.0
  {
    FleetWattsGap(percent, next, Fleet(g.minW, g.maxW));
  }

  lemma ClampNarrows(p: real, q: real, low: real, high: real)
    requires q <= p && low <= high
    ensures Clamp(p, low, high) - Clamp(q, low, high) <= p - q
  {
  }

  /** A held cap may have been rounded up by almost a watt, so the next one can
      take off that much more than the percentage asks. */
  lemma GpuTakesAtMost(g: Gpu, percent: real, next: real)
    requires g.Valid() && next <= percent
    ensures (Held(g, percent) - Held(g, next)) as real < Asked(g, percent - next) + 1.0 + 2.0 * ROUNDING_W
  {
    WholeWattsBounds(Exact(g, percent));
    WholeWattsBounds(Exact(g, next));
    AskedGap(g, percent, next);
    ClampNarrows(Asked(g, percent), Asked(g, next), g.minW, g.maxW);
  }

  /** For every fleet and every pair of percentages: a cut takes off less than
      what it asks, a watt of rounding up and a microwatt per GPU. */
  lemma {:induction false} FleetTakesAtMost(gpus: seq<Gpu>, percent: real, next: real)
    requires AllValid(gpus) && next <= percent
    ensures TakenOff(gpus, percent, next)
         <= FleetWatts(percent - next, FleetOf(gpus)) + Times(|gpus|, 1.0 + 2.0 * ROUNDING_W)
  {
    if gpus != [] {
      var front, g := gpus[..|gpus| - 1], gpus[|gpus| - 1];
      FleetTakesAtMost(front, percent, next);
      CapWattsSnoc(gpus, percent);
      CapWattsSnoc(gpus, next);
      GpuTakesAtMost(g, percent, next);
      SplitFleetWatts(percent - next, FleetOf(front), Fleet(g.minW, g.maxW));
    }
  }

  lemma SplitFleetWatts(percent: real, a: Fleet, b: Fleet)
    ensures FleetWatts(percent, Fleet(a.minW + b.minW, a.maxW + b.maxW)) ==
            FleetWatts(percent, a) + FleetWatts(percent, b)
  {
  }

  // ----- when a cut takes off no more than asked

  /** The held cap is no more than the percentage's own watts, or is the minimum. */
  predicate Unrounded(g: Gpu, percent: real)
    requires g.minW <= g.maxW
  {
    Held(g, percent) as real <= Asked(g, percent) || Held(g, percent) as real == g.minW
  }

  lemma WholeWattsNear(n: int, x: real)
    requires 0 <= n && n as real <= x < n as real + ROUNDING_W
    ensures WholeWatts(x) == n
  {
    var micro := (n * 1000000) as real;
    assert micro <= x * 1000000.0 < micro + 0.5;
    assert (x * 1000000.0 + 0.5).Floor == n * 1000000;
    assert micro / 1000000.0 == n as real;
  }

  lemma UnroundedTakesNoMore(g: Gpu, percent: real, next: real)
    requires g.Valid() && g.WholeRange() && Unrounded(g, percent) && next <= percent
    ensures (Held(g, percent) - Held(g, next)) as real <= Asked(g, percent - next) + ROUNDING_W
  {
    CapWithinRange(g, next);
    CapWithinRange(g, percent);
    WholeWattsBounds(Exact(g, next));
    AskedGap(g, percent, next);
    if Asked(g, next) > g.maxW { assert Exact(g, next) == Exact(g, percent) == g.maxW; }
  }

  lemma QuotientOrder(n: real, p: real, width: real)
    requires width > 0.0 && n * width <= p * width
    ensures n <= p
  {
    assert n == (n * width) / width;
  }

  /** A percentage whose cap is the minimum, though it asks for almost half a
      microwatt more. */
  lemma JustAboveMinimum(g: Gpu, percent: real, above: real) returns (next: real)
    requires g.Valid() && g.WholeRange() && 0.0 <= above < ROUNDING_W && g.minW + 1.0 <= g.maxW
    requires g.minW + above <= Asked(g, percent)
    ensures next <= percent && Asked(g, next) == g.minW + above && Held(g, next) as real == g.minW
  {
    next := (g.minW + above) * 100.0 / g.maxW;
    assert next * g.maxW == (g.minW + above) * 100.0;
    WholeWattsNear(g.minW.Floor, g.minW + above);
    QuotientOrder(next, percent, g.maxW);
  }

  lemma BarelyMinimum(g: Gpu, percent: real)
    requires g.Valid() && g.WholeRange() && Exact(g, percent) < g.minW + ROUNDING_W
    ensures Held(g, percent) as real == g.minW
  {
    WholeWattsNear(g.minW.Floor, Exact(g, percent));
  }

  lemma ClampedAbove(x: real, low: real, high: real)
    requires low <= high && Clamp(x, low, high) > low
    ensures Clamp(x, low, high) <= x
  {
  }

  lemma AboveMinimum(g: Gpu, percent: real)
    requires g.Valid() && g.WholeRange() && Held(g, percent) as real > g.minW
    ensures g.minW + ROUNDING_W <= Exact(g, percent) <= Asked(g, percent)
    ensures g.minW + 1.0 <= Held(g, percent) as real <= g.maxW
  {
    CapWithinRange(g, percent);
    assert Held(g, percent) >= g.minW.Floor + 1;
    if Exact(g, percent) < g.minW + ROUNDING_W {
      BarelyMinimum(g, percent);
      assert false;
    }
    ClampedAbove(Asked(g, percent), g.minW, g.maxW);
  }

  /** No cut from `percent` takes a GPU more than the rounding past what it
      asks, exactly when the cap held there was not rounded up. */
  lemma CutTakesNoMoreExactly(g: Gpu, percent: real)
    requires g.Valid() && g.WholeRange()
    ensures (forall next :: next <= percent ==>
               (Held(g, percent) - Held(g, next)) as real <= Asked(g, percent - next) + ROUNDING_W)
            <==> Unrounded(g, percent)
  {
    if Unrounded(g, percent) {
      forall next | next <= percent
        ensures (Held(g, percent) - Held(g, next)) as real <= Asked(g, percent - next) + ROUNDING_W
      {
        UnroundedTakesNoMore(g, percent, next);
      }
    } else {
      CapWithinRange(g, percent);
      AboveMinimum(g, percent);
      var excess := Held(g, percent) as real - Asked(g, percent);
      var above := ROUNDING_W - Min(excess, ROUNDING_W) / 2.0;
      var next := JustAboveMinimum(g, percent, above);
      AskedGap(g, percent, next);
      assert (Held(g, percent) - Held(g, next)) as real > Asked(g, percent - next) + ROUNDING_W;
    }
  }

  /** At 100% of a whole-watt range nothing was rounded up. */
  lemma FullIsUnrounded(g: Gpu)
    requires g.Valid() && g.WholeRange()
    ensures Unrounded(g, 100.0)
  {
    WholeWattsOfWhole(g.maxW.Floor);
    assert Asked(g, 100.0) == g.maxW;
  }

  ghost predicate AllUnrounded(gpus: seq<Gpu>, percent: real) {
    AllValid(gpus) && forall k :: 0 <= k < |gpus| ==> gpus[k].WholeRange() && Unrounded(gpus[k], percent)
  }

  /** From caps that were not rounded up, a fleet gives up no more than asked. */
  lemma {:induction false} FleetTakesNoMore(gpus: seq<Gpu>, percent: real, next: real)
    requires AllUnrounded(gpus, percent) && next <= percent
    ensures TakenOff(gpus, percent, next) <= FleetWatts(percent - next, FleetOf(gpus)) + Times(|gpus|, ROUNDING_W)
  {
    if gpus != [] {
      var front, g := gpus[..|gpus| - 1], gpus[|gpus| - 1];
      FleetTakesNoMore(front, percent, next);
      CapWattsSnoc(gpus, percent);
      CapWattsSnoc(gpus, next);
      UnroundedTakesNoMore(g, percent, next);
      SplitFleetWatts(percent - next, FleetOf(front), Fleet(g.minW, g.maxW));
    }
  }

  // ----- a shed cut, as the GPUs see it

  /** Written as whole-watt caps, a shed cut brings the POI below the import
      limit by at most the watt each GPU's held cap had been rounded up, and by
      no more than the rounding from caps that were not. */
  lemma ShedCutKeepsImport(cfg: Config, s: ShedState, t: ShedTick, gpus: seq<Gpu>)
    requires AllValid(gpus) && t.fleet == FleetOf(gpus)
    requires HoldsHoldable(s, t.fleet) && TaskTick(t, t.fleet) && Shed.Valid(t) && cfg.rampRate >= 0.0
    requires Proposal(cfg, s, t).Some? && Proposal(cfg, s, t).value < Current(s, t)
    ensures var current, next := Current(s, t), Proposal(cfg, s, t).value;
            && t.poi - TakenOff(gpus, current, next) >= t.importLimit - Times(|gpus|, 1.0 + 2.0 * ROUNDING_W)
            && (AllUnrounded(gpus, current) ==>
                  t.poi - TakenOff(gpus, current, next) >= t.importLimit - Times(|gpus|, ROUNDING_W))
  {
    CutsNeverOverCut(cfg, s, t);
    CutBelowLimit(gpus, Current(s, t), Proposal(cfg, s, t).value, t.poi, t.importLimit);
  }

  /** A cut that would bring the POI to the limit or above, if it took exactly
      what it asks, brings it as far below as the caps are off. */
  lemma CutBelowLimit(gpus: seq<Gpu>, percent: real, next: real, poi: real, limit: real)
    requires AllValid(gpus) && next <= percent && poi - FleetWatts(percent - next, FleetOf(gpus)) >= limit
    ensures poi - TakenOff(gpus, percent, next) >= limit - Times(|gpus|, 1.0 + 2.0 * ROUNDING_W)
    ensures AllUnrounded(gpus, percent) ==> poi - TakenOff(gpus, percent, next) >= limit - Times(|gpus|, ROUNDING_W)
  {
    FleetTakesAtMost(gpus, percent, next);
    if AllUnrounded(gpus, percent) { FleetTakesNoMore(gpus, percent, next); }
  }

  /** The first cut of a fleet of whole-watt ranges, from full power, is such a one. */
  lemma FirstCutKeepsImport(cfg: Config, s: ShedState, t: ShedTick, gpus: seq<Gpu>)
    requires AllValid(gpus) && t.fleet == FleetOf(gpus) && forall k :: 0 <= k < |gpus| ==> gpus[k].WholeRange()
    requires HoldsHoldable(s, t.fleet) && TaskTick(t, t.fleet) && Shed.Valid(t) && cfg.rampRate >= 0.0
    requires s.percent.None? && Proposal(cfg, s, t).Some? && Proposal(cfg, s, t).value < 100.0
    ensures t.poi - TakenOff(gpus, 100.0, Proposal(cfg, s, t).value) >= t.importLimit - Times(|gpus|, ROUNDING_W)
  {
    forall k | 0 <= k < |gpus| ensures Unrounded(gpus[k], 100.0) { FullIsUnrounded(gpus[k]); }
    ShedCutKeepsImport(cfg, s, t, gpus);
  }

  /** A GPU of up to 1000.5 W is capped at 1001 W. */
  lemma CapPastMaximum()
    ensures var g := Gpu("g", 100.0, 1000.5); g.Valid() && Held(g, 100.0) == 1001
  {
    var g := Gpu("g", 100.0, 1000.5);
    assert Exact(g, 100.0) == 1000.5;
    WholeWattsUp(1000, 1000.5);
  }

  lemma WholeWattsUp(n: int, x: real)
    requires 0 <= n && n as real < x - ROUNDING_W && x + ROUNDING_W <= n as real + 1.0
    ensures WholeWatts(x) == n + 1
  {
    WholeWattsBounds(x);
    var micro := Round(x * 1000000.0);
    assert micro <= (n + 1) * 1000000;
    assert micro as real / 1000000.0 <= (n + 1) as real;
  }

  /** The watt is real: a GPU of 100 to 1005 W holding 60.1% is 1.005 W over the
      limit; the cut goes from 605 W to 603 W, 0.995 W below the limit. */
  lemma CutPastTheLimit()
    ensures var g, cfg, s := Gpu("g", 100.0, 1005.0), Config(0.1, 0.05, 30.0), ShedState(Some(60.1), 0.0, 0.0, None);
            var t := ShedTick(1.005, 0.0, 100.0, 100.0, FleetOf([g]), 0.0, 1.0);
            && g.Valid() && g.WholeRange() && HoldsHoldable(s, t.fleet) && Shed.Valid(t)
            && Proposal(cfg, s, t) == Some(60.0)
            && t.poi - TakenOff([g], 60.1, 60.0) == t.importLimit - 0.995
  {
    assert [Gpu("g", 100.0, 1005.0)][..0] == [];
    assert FleetOf([Gpu("g", 100.0, 1005.0)]) == Fleet(100.0, 1005.0);
    ExampleProposes();
    ExampleHolds();
  }

  lemma ExampleProposes()
    ensures var t := ShedTick(1.005, 0.0, 100.0, 100.0, Fleet(100.0, 1005.0), 0.0, 1.0);
            var s := ShedState(Some(60.1), 0.0, 0.0, None);
            && Shed.Valid(t) && HoldsHoldable(s, t.fleet) && Proposal(Config(0.1, 0.05, 30.0), s, t) == Some(60.0)
  {
    var t := ShedTick(1.005, 0.0, 100.0, 100.0, Fleet(100.0, 1005.0), 0.0, 1.0);
    assert FloorPercent(t.fleet) <= 60.0;
    assert OnGrid(60.1);
    assert Percent(Over(t), t.fleet) == 0.1;
    assert Quantize(60.1, 60.0) == 60.0;
  }

  lemma ExampleHolds()
    ensures var g := Gpu("g", 100.0, 1005.0);
            g.WholeRange() && CapWatts([g], 60.1) == 605 && CapWatts([g], 60.0) == 603
  {
    var g := Gpu("g", 100.0, 1005.0);
    WholeWattsUp(604, 604.005);
    WholeWattsOfWhole(603);
    assert Exact(g, 60.1) == 604.005 && Exact(g, 60.0) == 603.0;
    assert [g][..0] == [];
    CapWattsSnoc([g], 60.1);
    CapWattsSnoc([g], 60.0);
  }
}
