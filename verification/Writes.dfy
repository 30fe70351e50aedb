/** What a task remembers of its writes, and how a tick's shares become a plan.
    A plan starts with the shares that changed, or with those that shrink if
    growth waits; the rest of it repeats what the other known children already
    have. */
module Writes {
  import opened Numbers
  import opened Allocation
  import opened WriteOrder
  import opened PoiGate

  datatype Memory = Memory(last: map<string, real>, deferred: bool, gate: Gate)

  datatype Plan = Plan(writes: seq<Share>, completesHandoff: bool)

  predicate IsChange(w: Share, last: map<string, real>) {
    w.deviceId !in last || Abs(w.watts - last[w.deviceId]) >= EPSILON
  }

  function Changed(shares: seq<Share>, last: map<string, real>): (r: seq<Share>)
    ensures forall w :: w in r <==> w in shares && IsChange(w, last)
  {
    if shares == [] then []
    else
      var front, w := Changed(shares[..|shares| - 1], last), shares[|shares| - 1];
      if IsChange(w, last) then front + [w] else front
  }

  predicate Writes(writes: seq<Share>, id: string) {
    exists w :: w in writes && w.deviceId == id
  }

  /** Every known child of `shares` that `writes` leaves out, at its last share. */
  function Reasserts(shares: seq<Share>, writes: seq<Share>, last: map<string, real>): (r: seq<Share>)
    ensures forall w :: w in r ==>
            w.deviceId in last && w.watts == last[w.deviceId] && !Writes(writes, w.deviceId) &&
              Writes(shares, w.deviceId)
    ensures forall w :: w in shares && w.deviceId in last && !Writes(writes, w.deviceId) ==> Writes(r, w.deviceId)
  {
    if shares == [] then []
    else
      var rest, id := Reasserts(shares[..|shares| - 1], writes, last), shares[|shares| - 1].deviceId;
      assert forall x :: Writes(shares[..|shares| - 1], x) ==> Writes(shares, x);
      if id in last && !Writes(writes, id) then
        var r := rest + [Share(id, last[id])];
        assert r[|rest|] in r && forall x :: Writes(rest, x) ==> Writes(r, x);
        r
      else rest
  }

  /** This tick's changes, in handoff order, less any growth held back. */
  function Batch(m: Memory, shares: seq<Share>): seq<Share> {
    HandoffBatch(ReductionsFirst(Changed(shares, m.last), m.last), m.last, m.deferred)
  }

  predicate DefersNow(m: Memory, shares: seq<Share>) {
    Defers(ReductionsFirst(Changed(shares, m.last), m.last), m.last, m.deferred)
  }

  function PlannedWrites(m: Memory, shares: seq<Share>): seq<Share> {
    Batch(m, shares) + Reasserts(shares, Batch(m, shares), m.last)
  }

  /** Memory after planning: only a tick with a change updates the deferral. */
  function Planned(m: Memory, shares: seq<Share>): Memory {
    if Changed(shares, m.last) == [] then m
    else if DefersNow(m, shares) then m.(deferred := true, gate := m.gate.(handoff := Deferred))
    else m.(deferred := false)
  }

  function PlanFor(m: Memory, shares: seq<Share>): Plan {
    Plan(PlannedWrites(m, shares), m.deferred && !Planned(m, shares).deferred)
  }

  /** Memory once every write of `plan` has landed. */
  function Landed(m: Memory, plan: Plan, now: real): Memory {
    m.(last := Apply(m.last, plan.writes), gate := if plan.completesHandoff then m.gate.Wrote(now) else m.gate)
  }

  class WriteState {
    var lastWritten: map<string, real>
    var deferredGrowth: bool
    const gate: PoiGate

    ghost function View(): Memory
      reads this, gate
    {
      Memory(lastWritten, deferredGrowth, gate.View())
    }

    constructor ()
      ensures View() == Memory(map[], false, Gate(None, Idle)) && fresh(gate)
    {
      lastWritten, deferredGrowth := map[], false;
      gate := new PoiGate();
    }

    /** Plan a tick; there is no plan while nothing has been written or changes. */
    method MakePlan(shares: seq<Share>) returns (plan: Option<Plan>)
      modifies this`deferredGrowth, gate
      ensures View() == Planned(old(View()), shares)
      ensures plan == if PlannedWrites(old(View()), shares) == [] then None else Some(PlanFor(old(View()), shares))
    {
      var changed, held := Changed(shares, lastWritten), deferredGrowth;
      var writes := [];
      if changed != [] {
        var ordered := ReductionsFirst(changed, lastWritten);
        writes := HandoffBatch(ordered, lastWritten, held);
        deferredGrowth := Defers(ordered, lastWritten, held);
        if deferredGrowth {
          gate.GrowthDeferred();
        }
      }
      writes := writes + Reasserts(shares, writes, lastWritten);
      if writes == [] { return None; }
      return Some(Plan(writes, held && !deferredGrowth));
    }

    /** Record that every write of `plan` landed at `now`. */
    method RecordLanded(plan: Plan, now: real)
      modifies this`lastWritten, gate
      ensures View() == Landed(old(View()), plan, now)
    {
      if plan.completesHandoff {
        gate.GrowthLanded(now);
      }
      lastWritten := Apply(lastWritten, plan.writes);
    }
  }

  // ----- what the plan contains

  lemma BatchMembers(m: Memory, shares: seq<Share>)
    ensures forall w :: w in Batch(m, shares) ==> w in Changed(shares, m.last)
    ensures !DefersNow(m, shares) ==> forall w :: w in Changed(shares, m.last) ==> w in Batch(m, shares)
  {
    var changed := Changed(shares, m.last);
    var ordered := ReductionsFirst(changed, m.last);
    forall w ensures w in ordered <==> w in changed {
      assert w in multiset(ordered) <==> w in multiset(changed);
    }
  }

  lemma {:induction false} ChangedDistinct(shares: seq<Share>, last: map<string, real>)
    requires DistinctDevices(shares)
    ensures DistinctDevices(Changed(shares, last))
  {
    if shares != [] {
      var front := shares[..|shares| - 1];
      ChangedDistinct(front, last);
      forall w | w in Changed(front, last) ensures w.deviceId != shares[|shares| - 1].deviceId {
        assert w in front;
      }
    }
  }

  lemma {:induction false} ReassertsDistinct(shares: seq<Share>, writes: seq<Share>, last: map<string, real>)
    requires DistinctDevices(shares)
    ensures DistinctDevices(Reasserts(shares, writes, last))
  {
    if shares != [] {
      var front, id := shares[..|shares| - 1], shares[|shares| - 1].deviceId;
      ReassertsDistinct(front, writes, last);
      forall w | w in Reasserts(front, writes, last) ensures w.deviceId != id {
        var x :| x in front && x.deviceId == w.deviceId;
      }
    }
  }

  lemma PlanDistinct(m: Memory, shares: seq<Share>)
    requires DistinctDevices(shares)
    ensures ByGrowth(Batch(m, shares), m.last) && DistinctDevices(PlannedWrites(m, shares))
  {
    var changed := Changed(shares, m.last);
    var ordered, batch := ReductionsFirst(changed, m.last), Batch(m, shares);
    ChangedDistinct(shares, m.last);
    SortedByGrowth(changed, m.last);
    SortKeepsDistinct(changed, m.last);
    ShrinkingKeepsOrder(ordered, m.last);
    ShrinkingKeepsDistinct(ordered, m.last);
    ReassertsDistinct(shares, batch, m.last);
    forall x, y | x in batch && y in Reasserts(shares, batch, m.last) ensures x.deviceId != y.deviceId {}
  }

  // ----- when growth is held back

  /** The share is new to the memory, or off what it says by the write threshold. */
  predicate New(w: Share, last: map<string, real>) {
    w.deviceId in last ==> Abs(w.watts - last[w.deviceId]) >= EPSILON
  }

  /** Output given up: more than a hundredth of what the child was last told. */
  predicate GivesUp(w: Share, last: map<string, real>) {
    w.deviceId in last && Abs(w.watts) < 0.99 * Abs(last[w.deviceId])
  }

  predicate TakesOn(w: Share, last: map<string, real>) {
    if w.deviceId in last then Abs(w.watts) > Abs(last[w.deviceId]) else w.watts != 0.0
  }

  lemma MaterialMeans(w: Share, last: map<string, real>)
    ensures MaterialShrink(w, last) <==> GivesUp(w, last)
    ensures Growth(w, last) > 0.0 <==> TakesOn(w, last)
  {
  }

  lemma OrderedMembers(changed: seq<Share>, last: map<string, real>)
    ensures forall w :: w in ReductionsFirst(changed, last) <==> w in changed
  {
    forall w ensures w in ReductionsFirst(changed, last) <==> w in changed {
      assert w in multiset(ReductionsFirst(changed, last)) <==> w in multiset(changed);
    }
  }

  /** Growth is held back exactly when, none having been held on the last tick
      with a change, some changed child gives up more than a hundredth of its
      output while another changed one takes more on. Then the plan raises no
      child; otherwise it holds every changed share. */
  lemma HeldBackExactly(m: Memory, shares: seq<Share>)
    ensures DefersNow(m, shares) <==>
            && !m.deferred
            && (exists w :: w in shares && New(w, m.last) && GivesUp(w, m.last))
            && (exists w :: w in shares && New(w, m.last) && TakesOn(w, m.last))
    ensures if DefersNow(m, shares) then forall w :: w in PlannedWrites(m, shares) ==> !TakesOn(w, m.last)
            else forall w :: w in shares && New(w, m.last) ==> w in PlannedWrites(m, shares)
  {
    var ordered := ReductionsFirst(Changed(shares, m.last), m.last);
    OrderedMembers(Changed(shares, m.last), m.last);
    BatchMembers(m, shares);
    forall w ensures MaterialShrink(w, m.last) <==> GivesUp(w, m.last) { MaterialMeans(w, m.last); }
    forall w ensures Growth(w, m.last) > 0.0 <==> TakesOn(w, m.last) { MaterialMeans(w, m.last); }
    assert forall w :: w in ordered <==> w in shares && New(w, m.last);
  }

  // ----- what part of a plan can do to the bus

  /** How far a write's device is from what the memory says it holds. */
  function Gap(w: Share, devices: map<string, real>, last: map<string, real>): real {
    Abs(Level(devices, w.deviceId)) - Abs(Level(last, w.deviceId))
  }

  function Gaps(writes: seq<Share>, devices: map<string, real>, last: map<string, real>): (r: seq<real>)
    ensures |r| == |writes|
  {
    seq(|writes|, i requires 0 <= i < |writes| => Gap(writes[i], devices, last))
  }

  /** Total disagreement between the written devices and the memory, W. */
  function Mismatch(writes: seq<Share>, devices: map<string, real>, last: map<string, real>): (r: real)
    ensures r >= 0.0
  {
    if writes == [] then 0.0
    else
      Mismatch(writes[..|writes| - 1], devices, last) + Abs(Gap(writes[|writes| - 1], devices, last))
  }

  lemma {:induction false} SumGaps(writes: seq<Share>, devices: map<string, real>, last: map<string, real>)
    ensures Sum(Growths(writes, devices)) == Sum(Growths(writes, last)) - Sum(Gaps(writes, devices, last))
  {
    if writes != [] {
      var front, end := writes[..|writes| - 1], |writes| - 1;
      SumGaps(front, devices, last);
      GrowthsSnoc(writes, devices);
      GrowthsSnoc(writes, last);
      assert Gaps(writes, devices, last)[..end] == Gaps(front, devices, last);
    }
  }

  lemma GrowthsSnoc(writes: seq<Share>, last: map<string, real>)
    requires writes != []
    ensures var end := |writes| - 1;
            Sum(Growths(writes, last)) == Sum(Growths(writes[..end], last)) + Growth(writes[end], last)
  {
    var end := |writes| - 1;
    assert Growths(writes, last)[..end] == Growths(writes[..end], last);
  }

  /** The gaps of a plan's first writes, and of the rest, are within its mismatch. */
  lemma {:induction false} GapsWithinMismatch(writes: seq<Share>, devices: map<string, real>,
          last: map<string, real>, k: nat)
    requires k <= |writes|
    ensures -Sum(Gaps(writes[..k], devices, last)) <= Mismatch(writes, devices, last)
    ensures Sum(Gaps(writes, devices, last)) - Sum(Gaps(writes[..k], devices, last)) <= Mismatch(writes, devices, last)
  {
    if writes != [] {
      var front := writes[..|writes| - 1];
      assert Gaps(writes, devices, last)[..|front|] == Gaps(front, devices, last);
      if k <= |front| {
        GapsWithinMismatch(front, devices, last, k);
        assert front[..k] == writes[..k];
      } else {
        GapsWithinMismatch(front, devices, last, |front|);
        assert front[..|front|] == front && writes[..k] == writes;
      }
    }
  }

  lemma {:induction false} NoMismatch(writes: seq<Share>, devices: map<string, real>, last: map<string, real>)
    requires forall w :: w in writes ==> Abs(Level(devices, w.deviceId)) == Abs(Level(last, w.deviceId))
    ensures Mismatch(writes, devices, last) == 0.0
  {
    if writes != [] {
      assert writes[|writes| - 1] in writes;
      NoMismatch(writes[..|writes| - 1], devices, last);
    }
  }

  lemma PlannedFromShares(m: Memory, shares: seq<Share>)
    ensures forall w :: w in PlannedWrites(m, shares) ==> Writes(shares, w.deviceId)
  {
    BatchMembers(m, shares);
    var reasserts := Reasserts(shares, Batch(m, shares), m.last);
    forall w | w in PlannedWrites(m, shares) ensures Writes(shares, w.deviceId) {
      if w in Batch(m, shares) { assert w in shares; } else { assert w in reasserts; }
    }
  }

  /** Against the memory, no part of a plan adds more than nothing, or than all of it. */
  lemma BelievedPrefix(m: Memory, shares: seq<Share>, k: nat)
    requires DistinctDevices(shares) && k <= |PlannedWrites(m, shares)|
    ensures var writes := PlannedWrites(m, shares);
            Sum(Growths(writes[..k], m.last)) <= Max(0.0, Sum(Growths(writes, m.last)))
  {
    var batch := Batch(m, shares);
    var still := Reasserts(shares, batch, m.last);
    PlanDistinct(m, shares);
    GrowthsConcat(batch, still, m.last, k);
    forall i | 0 <= i < |still| ensures Growths(still, m.last)[i] == 0.0 { assert still[i] in still; }
    PrefixOfSortedThenStill(Growths(batch, m.last), Growths(still, m.last), k);
  }

  lemma PrefixBus(ids: seq<string>, devices: map<string, real>, writes: seq<Share>, k: nat)
    requires DistinctIds(ids) && DistinctDevices(writes) && k <= |writes|
    requires forall w :: w in writes ==> w.deviceId in ids
    ensures Bus(ids, Apply(devices, writes[..k])) == Bus(ids, devices) + Sum(Growths(writes[..k], devices))
    ensures Bus(ids, Apply(devices, writes)) == Bus(ids, devices) + Sum(Growths(writes, devices))
  {
    BusAfter(ids, devices, devices, writes[..k]);
    BusAfter(ids, devices, devices, writes);
  }

  /** If no part of the writes adds more than nothing, or than all of them, the
      bus stays between its ends. */
  lemma PrefixWithinEnds(ids: seq<string>, devices: map<string, real>, writes: seq<Share>, k: nat)
    requires DistinctIds(ids) && DistinctDevices(writes) && k <= |writes|
    requires forall w :: w in writes ==> w.deviceId in ids
    requires Sum(Growths(writes, devices)[..k]) <= Max(0.0, Sum(Growths(writes, devices)))
    ensures Bus(ids, Apply(devices, writes[..k])) <= Max(Bus(ids, devices), Bus(ids, Apply(devices, writes)))
  {
    PrefixBus(ids, devices, writes, k);
    assert Growths(writes, devices)[..k] == Growths(writes[..k], devices);
  }

  /** Whatever the devices hold and whatever part of a plan lands before a write
      fails, the bus carries no more than before the plan or after all of it,
      whichever is larger, and the devices' disagreement with the memory; with
      none, no more than the larger of the two. `ids` is any list of devices
      that includes the planned ones. */
  lemma PlanPrefixIsSafe(m: Memory, shares: seq<Share>, ids: seq<string>, devices: map<string, real>, k: nat)
    requires DistinctDevices(shares) && DistinctIds(ids)
    requires forall w :: w in shares ==> w.deviceId in ids
    requires k <= |PlannedWrites(m, shares)|
    ensures var writes := PlannedWrites(m, shares);
            var top := Max(Bus(ids, devices), Bus(ids, Apply(devices, writes)));
            && Bus(ids, Apply(devices, writes[..k])) <= top + Mismatch(writes, devices, m.last)
            && ((forall w :: w in writes ==> Abs(Level(devices, w.deviceId)) == Abs(Level(m.last, w.deviceId))) ==>
                  Bus(ids, Apply(devices, writes[..k])) <= top)
  {
    var writes := PlannedWrites(m, shares);
    PlanDistinct(m, shares);
    PlannedFromShares(m, shares);
    PrefixBus(ids, devices, writes, k);
    BelievedPrefix(m, shares, k);
    SumGaps(writes, devices, m.last);
    SumGaps(writes[..k], devices, m.last);
    GapsWithinMismatch(writes, devices, m.last, k);
    if forall w :: w in writes ==> Abs(Level(devices, w.deviceId)) == Abs(Level(m.last, w.deviceId)) {
      NoMismatch(writes, devices, m.last);
    }
  }

  /** A plan whose writes are in order of what they add to what the devices
      really hold is safe, whatever the memory says. */
  lemma PlanInOrderIsSafe(m: Memory, shares: seq<Share>, ids: seq<string>, devices: map<string, real>, k: nat)
    requires DistinctDevices(shares) && DistinctIds(ids)
    requires forall w :: w in shares ==> w.deviceId in ids
    requires k <= |PlannedWrites(m, shares)| && ByGrowth(PlannedWrites(m, shares), devices)
    ensures var writes := PlannedWrites(m, shares);
            Bus(ids, Apply(devices, writes[..k])) <= Max(Bus(ids, devices), Bus(ids, Apply(devices, writes)))
  {
    var writes := PlannedWrites(m, shares);
    PlanDistinct(m, shares);
    PlannedFromShares(m, shares);
    PrefixOfSorted(Growths(writes, devices), k);
    PrefixWithinEnds(ids, devices, writes, k);
  }

  lemma ChangedPair(a: Share, b: Share, last: map<string, real>)
    requires IsChange(a, last)
    ensures Changed([a, b], last) == if IsChange(b, last) then [a, b] else [a]
  {
    assert [a, b][..1] == [a] && [a][..0] == [];
    assert Changed([a], last) == [a];
  }

  lemma OrderedPair(a: Share, b: Share, last: map<string, real>)
    requires Growth(a, last) <= Growth(b, last)
    ensures ReductionsFirst([a], last) == [a] && ReductionsFirst([a, b], last) == [a, b]
  {
    assert [a, b][..1] == [a] && [a][..0] == [];
    assert InsertByGrowth([], a, last) == [a];
    assert ReductionsFirst([a], last) == [a];
    assert InsertByGrowth([a], b, last) == [a, b];
  }

  /** Nothing is re-asserted when every share's child is written. */
  lemma ReassertNone(shares: seq<Share>, writes: seq<Share>, last: map<string, real>)
    requires forall w :: w in shares ==> Writes(writes, w.deviceId)
    ensures Reasserts(shares, writes, last) == []
  {
    var r := Reasserts(shares, writes, last);
    assert forall k :: 0 <= k < |r| ==> r[k] in r;
  }

  /** Of a pair, re-assert the second if only the first is written. */
  lemma ReassertSecond(a: Share, b: Share, last: map<string, real>)
    requires a.deviceId != b.deviceId && b.deviceId in last
    ensures Reasserts([a, b], [a], last) == [Share(b.deviceId, last[b.deviceId])]
  {
    assert [a, b][..1] == [a];
    assert a in [a] && Writes([a], a.deviceId) && !Writes([a], b.deviceId);
    ReassertNone([a], [a], last);
  }

  /** One child shrinks and the other keeps its share. */
  lemma ShrinkAndKeep(m: Memory, a: Share, b: Share)
    requires a.deviceId != b.deviceId && IsChange(a, m.last) && Growth(a, m.last) < 0.0
    requires b.deviceId in m.last && b.watts == m.last[b.deviceId]
    ensures PlannedWrites(m, [a, b]) == [a, b] && Planned(m, [a, b]) == m.(deferred := false)
  {
    ShrinkAndKeepBatch(m, a, b);
    ReassertSecond(a, b, m.last);
  }

  lemma ShrinkAndKeepBatch(m: Memory, a: Share, b: Share)
    requires a.deviceId != b.deviceId && IsChange(a, m.last) && Growth(a, m.last) < 0.0
    requires b.deviceId in m.last && b.watts == m.last[b.deviceId]
    ensures Batch(m, [a, b]) == [a] && Planned(m, [a, b]) == m.(deferred := false)
  {
    ChangedPair(a, b, m.last);
    OrderedPair(a, a, m.last);
    NothingGrows(m, [a, b], [a]);
  }

  lemma NothingGrows(m: Memory, shares: seq<Share>, ordered: seq<Share>)
    requires ReductionsFirst(Changed(shares, m.last), m.last) == ordered
    requires forall w :: w in ordered ==> Growth(w, m.last) <= 0.0
    ensures Batch(m, shares) == ordered && !DefersNow(m, shares)
  {
  }

  /** Both children shrink, the first by more. */
  lemma ShrinkBoth(m: Memory, a: Share, b: Share)
    requires a.deviceId != b.deviceId && IsChange(a, m.last) && IsChange(b, m.last) && b.deviceId in m.last
    requires Growth(a, m.last) <= Growth(b, m.last) < 0.0
    ensures PlannedWrites(m, [a, b]) == [a, b]
  {
    ChangedPair(a, b, m.last);
    OrderedPair(a, b, m.last);
    NothingGrows(m, [a, b], [a, b]);
    assert a in [a, b] && b in [a, b];
    ReassertNone([a, b], [a, b], m.last);
  }

  lemma BusOfPair(ids: seq<string>, devices: map<string, real>)
    requires |ids| == 2
    ensures Bus(ids, devices) == Abs(Level(devices, ids[0])) + Abs(Level(devices, ids[1]))
  {
    assert ids[..1] == [ids[0]] && [ids[0]][..0] == [];
    assert Bus([ids[0]], devices) == Abs(Level(devices, ids[0]));
  }

  /** What A and C hold before the cut, after it, and what the memory says then. */
  const HELD: map<string, real> := map["A" := 100.0, "C" := 60.0]
  const CUT: map<string, real> := map["A" := 0.0, "C" := 60.0]
  const FIRST: seq<Share> := [Share("A", 0.0), Share("C", 60.0)]
  const SECOND: seq<Share> := [Share("A", 40.0), Share("C", 10.0)]

  /** After a plan cut short the next one need not be safe. A and C hold 100 W
      and 60 W; A's cut to 0 W lands and C's write fails. The memory still says
      100 W, so a plan for 40 W and 10 W raises A before it lowers C: the bus
      carries 60 W before, 100 W on the way and 50 W after. */
  lemma UnsafeAfterCut(gate: Gate)
    ensures var m := Memory(HELD, false, gate);
            && PlannedWrites(m, FIRST) == FIRST && Apply(HELD, FIRST[..1]) == CUT
            && PlannedWrites(Planned(m, FIRST), SECOND) == SECOND
    ensures Bus(["A", "C"], CUT) == 60.0
    ensures Bus(["A", "C"], Apply(CUT, SECOND[..1])) == 100.0
    ensures Bus(["A", "C"], Apply(CUT, SECOND)) == 50.0
  {
    CutPlans(Memory(HELD, false, gate));
    CutBus();
  }

  lemma CutPlans(m: Memory)
    requires m.last == HELD && !m.deferred
    ensures PlannedWrites(m, FIRST) == FIRST && PlannedWrites(Planned(m, FIRST), SECOND) == SECOND
  {
    assert "A" != "C";
    ShrinkAndKeep(m, Share("A", 0.0), Share("C", 60.0));
    SecondPlan(m.(deferred := false));
  }

  lemma SecondPlan(m: Memory)
    requires m.last == HELD
    ensures PlannedWrites(m, SECOND) == SECOND
  {
    assert "A" != "C";
    ShrinkBoth(m, Share("A", 40.0), Share("C", 10.0));
  }

  lemma CutBus()
    ensures Apply(HELD, FIRST[..1]) == CUT && Bus(["A", "C"], CUT) == 60.0
    ensures Bus(["A", "C"], Apply(CUT, SECOND[..1])) == 100.0
    ensures Bus(["A", "C"], Apply(CUT, SECOND)) == 50.0
  {
    ApplyPair(HELD, Share("A", 0.0), Share("C", 60.0));
    ApplyPair(CUT, Share("A", 40.0), Share("C", 10.0));
    assert HELD["A" := 0.0] == CUT;
    BusOfPair(["A", "C"], CUT);
    BusOfPair(["A", "C"], CUT["A" := 40.0]);
    BusOfPair(["A", "C"], CUT["A" := 40.0]["C" := 10.0]);
  }

  lemma ApplyPair(devices: map<string, real>, a: Share, b: Share)
    ensures Apply(devices, [a, b][..1]) == devices[a.deviceId := a.watts]
    ensures Apply(devices, [a, b]) == devices[a.deviceId := a.watts][b.deviceId := b.watts]
  {
    assert [a, b][..1] == [a] && [a][..0] == [];
  }

  // ----- what landed plans leave behind

  lemma {:induction false} ApplyLast(devices: map<string, real>, writes: seq<Share>, w: Share)
    requires DistinctDevices(writes) && w in writes
    ensures w.deviceId in Apply(devices, writes) && Apply(devices, writes)[w.deviceId] == w.watts
  {
    var front := writes[..|writes| - 1];
    if w != writes[|writes| - 1] {
      assert w in front;
      ApplyLast(devices, front, w);
    }
  }

  lemma {:induction false} ApplyUntouched(devices: map<string, real>, writes: seq<Share>, id: string)
    requires !Writes(writes, id)
    ensures id in Apply(devices, writes) <==> id in devices
    ensures id in devices ==> Apply(devices, writes)[id] == devices[id]
  {
    if writes != [] {
      assert writes[|writes| - 1] in writes;
      ApplyUntouched(devices, writes[..|writes| - 1], id);
    }
  }

  /** Memory after a tick whose plan landed in full. */
  function AfterLanding(m: Memory, shares: seq<Share>, now: real): Memory {
    if PlannedWrites(m, shares) == [] then Planned(m, shares)
    else Landed(Planned(m, shares), PlanFor(m, shares), now)
  }

  /** What a landed plan leaves on each child's device, whatever it held before
      (it may have rebooted, been overridden, or missed a write): its fresh share
      if that was in the batch; if it was held back or has not changed, its last
      landed share again; and one never written is left alone. With the memory
      as the devices it is what the memory then says. */
  lemma LandedShare(m: Memory, shares: seq<Share>, devices: map<string, real>, w: Share)
    requires DistinctDevices(shares) && w in shares
    ensures var id, after := w.deviceId, Apply(devices, PlannedWrites(m, shares));
            && (w in Batch(m, shares) ==> id in after && after[id] == w.watts)
            && (w !in Batch(m, shares) && id in m.last ==> id in after && after[id] == m.last[id])
            && (w !in Batch(m, shares) && id !in m.last ==>
                  (id in after <==> id in devices) && (id in devices ==> after[id] == devices[id]))
  {
    var batch, writes := Batch(m, shares), PlannedWrites(m, shares);
    var reasserts := Reasserts(shares, batch, m.last);
    PlanDistinct(m, shares);
    BatchMembers(m, shares);
    if w in batch {
      ApplyLast(devices, writes, w);
    } else {
      SameDevice(m, shares, w);
      if w.deviceId in m.last {
        assert Writes(reasserts, w.deviceId);
        var r :| r in reasserts && r.deviceId == w.deviceId;
        ApplyLast(devices, writes, r);
      } else {
        assert !Writes(writes, w.deviceId);
        ApplyUntouched(devices, writes, w.deviceId);
      }
    }
  }

  /** Devices being distinct, a share left out of the batch has no write there. */
  lemma SameDevice(m: Memory, shares: seq<Share>, w: Share)
    requires DistinctDevices(shares) && w in shares && w !in Batch(m, shares)
    ensures !Writes(Batch(m, shares), w.deviceId)
  {
    BatchMembers(m, shares);
  }

  /** Within the write threshold of its share. */
  ghost predicate Holds(last: map<string, real>, w: Share) {
    w.deviceId in last && Abs(w.watts - last[w.deviceId]) < EPSILON
  }

  /** A landed plan that held nothing back leaves every child's device at its
      share, whatever the devices held before. */
  lemma UndeferredLandsAll(m: Memory, shares: seq<Share>, devices: map<string, real>)
    requires DistinctDevices(shares) && !DefersNow(m, shares)
    ensures forall w :: w in shares ==> Holds(Apply(devices, PlannedWrites(m, shares)), w)
  {
    BatchMembers(m, shares);
    forall w | w in shares ensures Holds(Apply(devices, PlannedWrites(m, shares)), w) {
      LandedShare(m, shares, devices, w);
    }
  }

  lemma DeferralNeedsChange(m: Memory, shares: seq<Share>)
    requires DefersNow(m, shares)
    ensures Changed(shares, m.last) != [] && !m.deferred && Planned(m, shares).deferred
    ensures exists w :: w in shares && IsChange(w, m.last)
  {
    assert Changed(shares, m.last)[0] in Changed(shares, m.last);
  }

  /** Growth held back on one tick is not held back on the next one with a
      change, whatever its shares; and that tick completes the handoff. */
  lemma GrowthHeldOnce(m: Memory, shares: seq<Share>, now: real, next: seq<Share>)
    requires DefersNow(m, shares)
    ensures var m' := AfterLanding(m, shares, now);
            && m'.deferred && m'.gate.handoff == Deferred
            && !DefersNow(m', next)
            && (Changed(next, m'.last) != [] ==>
                  PlanFor(m', next).completesHandoff &&
                    AfterLanding(m', next, now).gate.handoff == GrowthWritten(now, 0))
  {
    var m' := AfterLanding(m, shares, now);
    DeferralNeedsChange(m, shares);
    BatchMembers(m', next);
    if Changed(next, m'.last) != [] {
      assert Changed(next, m'.last)[0] in Batch(m', next);
      assert PlannedWrites(m', next)[..|Batch(m', next)|] == Batch(m', next);
    }
  }

  /** Shares already in place change nothing, so nothing is held back. */
  lemma SettledDefersNothing(m: Memory, shares: seq<Share>)
    requires forall w :: w in shares ==> Holds(m.last, w)
    ensures !DefersNow(m, shares)
  {
    forall x | x in shares ensures !IsChange(x, m.last) { assert Holds(m.last, x); }
    if DefersNow(m, shares) { DeferralNeedsChange(m, shares); }
  }

  /** Constant shares are on every device after the second landed tick, whatever
      the devices did to themselves in between. */
  lemma TwoTicksLandAll(m: Memory, shares: seq<Share>, now: real, devices: map<string, real>)
    requires DistinctDevices(shares)
    ensures var m1 := AfterLanding(m, shares, now);
            && !DefersNow(m1, shares)
            && forall w :: w in shares ==> Holds(Apply(devices, PlannedWrites(m1, shares)), w)
  {
    var m1 := AfterLanding(m, shares, now);
    if DefersNow(m, shares) {
      GrowthHeldOnce(m, shares, now, shares);
    } else {
      UndeferredLandsAll(m, shares, m.last);
      SettledDefersNothing(m1, shares);
    }
    UndeferredLandsAll(m1, shares, devices);
  }

  /** Shares of 0 W are never held back: one landed tick stops every child,
      whatever its device held. */
  lemma ZeroSharesLandAtOnce(m: Memory, shares: seq<Share>, devices: map<string, real>)
    requires DistinctDevices(shares) && forall w :: w in shares ==> w.watts == 0.0
    ensures !DefersNow(m, shares)
    ensures var after := Apply(devices, PlannedWrites(m, shares));
            forall w :: w in shares ==> w.deviceId in after && Abs(after[w.deviceId]) < EPSILON
  {
    ZeroSharesNeverDefer(m, shares);
    UndeferredLandsAll(m, shares, devices);
    forall w | w in shares ensures Holds(Apply(devices, PlannedWrites(m, shares)), w) {}
  }

  lemma ZeroSharesNeverDefer(m: Memory, shares: seq<Share>)
    requires forall w :: w in shares ==> w.watts == 0.0
    ensures !DefersNow(m, shares)
  {
    var ordered := ReductionsFirst(Changed(shares, m.last), m.last);
    forall w | w in ordered ensures Growth(w, m.last) <= 0.0 {
      assert w in multiset(Changed(shares, m.last));
    }
  }

  // ----- when the write that completes a handoff fails

  /** One tick seen from the memory: a reading, the tick's shares, and whether
      its writes all landed. */
  datatype Turn = Turn(receivedAt: real, shares: seq<Share>, landed: bool, now: real)

  function WithReading(m: Memory, t: Turn): Memory {
    m.(gate := m.gate.Took(t.receivedAt))
  }

  function AfterTurn(m: Memory, t: Turn): Memory {
    if t.landed then AfterLanding(WithReading(m, t), t.shares, t.now) else Planned(WithReading(m, t), t.shares)
  }

  /** A tick moves a waiting handoff on exactly if growth was held on the last
      tick with a change, this one has a change too, and its writes land. */
  lemma HandoffMovesOn(m: Memory, t: Turn)
    requires m.gate.handoff == Deferred
    ensures AfterTurn(m, t).gate.handoff.GrowthWritten? <==> m.deferred && Changed(t.shares, m.last) != [] && t.landed
    ensures !AfterTurn(m, t).gate.handoff.GrowthWritten? ==> AfterTurn(m, t).gate.handoff == Deferred
  {
    BatchMembers(m, t.shares);
    if Changed(t.shares, m.last) != [] && !DefersNow(m, t.shares) {
      assert Changed(t.shares, m.last)[0] in Batch(m, t.shares);
    }
  }

  ghost function Turns(m: Memory, ts: seq<Turn>): Memory {
    if ts == [] then m else AfterTurn(Turns(m, ts[..|ts| - 1]), ts[|ts| - 1])
  }

  /** No tick of the run holds growth back. */
  ghost predicate NoNewDeferral(m: Memory, ts: seq<Turn>) {
    ts == [] ||
    (NoNewDeferral(m, ts[..|ts| - 1]) && !DefersNow(Turns(m, ts[..|ts| - 1]), ts[|ts| - 1].shares))
  }

  /** If the write that completes a handoff fails, the handoff is lost: the
      approach is held from then on, whatever lands, until growth happens to be
      held back again. */
  lemma {:induction false} LostHandoffHolds(m: Memory, failed: Turn, ts: seq<Turn>)
    requires m.deferred && m.gate.handoff == Deferred
    requires Changed(failed.shares, m.last) != [] && !failed.landed
    requires NoNewDeferral(AfterTurn(m, failed), ts)
    ensures var end := Turns(AfterTurn(m, failed), ts);
            !end.deferred && end.gate.handoff == Deferred && end.gate.Holds()
  {
    if ts != [] {
      var front, t := ts[..|ts| - 1], ts[|ts| - 1];
      LostHandoffHolds(m, failed, front);
      HandoffMovesOn(Turns(AfterTurn(m, failed), front), t);
    }
  }

  // ----- the whole hold, seen from the ticks

  function Times(ts: seq<Turn>): (r: seq<real>)
    ensures |r| == |ts| && forall i :: 0 <= i < |r| ==> r[i] == ts[i].receivedAt
  {
    seq(|ts|, i requires 0 <= i < |ts| => ts[i].receivedAt)
  }

  /** Ticks that complete no handoff and hold nothing back only take readings. */
  lemma {:induction false} QuietTurns(m: Memory, ts: seq<Turn>)
    requires !m.deferred && NoNewDeferral(m, ts)
    ensures !Turns(m, ts).deferred && Turns(m, ts).gate == TakeAll(m.gate, Times(ts))
  {
    if ts != [] {
      QuietTurns(m, ts[..|ts| - 1]);
      assert Times(ts)[..|ts| - 1] == Times(ts[..|ts| - 1]);
    }
  }

  /** No tick of the run has a change to write. */
  ghost predicate NoChange(m: Memory, ts: seq<Turn>) {
    ts == [] ||
    (NoChange(m, ts[..|ts| - 1]) && Changed(ts[|ts| - 1].shares, Turns(m, ts[..|ts| - 1]).last) == [])
  }

  /** A waiting handoff waits through ticks with nothing to change. */
  lemma {:induction false} WaitingTurns(m: Memory, ts: seq<Turn>)
    requires m.deferred && m.gate.handoff == Deferred && NoChange(m, ts)
    ensures Turns(m, ts).deferred && Turns(m, ts).gate.handoff == Deferred
    ensures Turns(m, ts).gate.lastUsed == if ts == [] then m.gate.lastUsed else Some(ts[|ts| - 1].receivedAt)
  {
    if ts != [] {
      WaitingTurns(m, ts[..|ts| - 1]);
      if DefersNow(Turns(m, ts[..|ts| - 1]), ts[|ts| - 1].shares) {
        DeferralNeedsChange(Turns(m, ts[..|ts| - 1]), ts[|ts| - 1].shares);
      }
    }
  }

  /** From a tick that holds growth back, whether or not its own writes land: the approach is held through every tick
      until the next one with a change; if that one lands, and none after it
      holds growth back, until precisely the second distinct reading received
      after it, whichever later writes land. */
  lemma HoldFromDeferral(m: Memory, held: Turn, waiting: seq<Turn>, completing: Turn, later: seq<Turn>)
    requires completing.landed && DefersNow(m, held.shares)
    requires var m1 := AfterTurn(m, held);
             var m2 := Turns(m1, waiting);
             && NoChange(m1, waiting) && Changed(completing.shares, m2.last) != []
             && NoNewDeferral(AfterTurn(m2, completing), later)
    requires completing.receivedAt <= completing.now && InOrder(Times(later))
    ensures var m2 := Turns(AfterTurn(m, held), waiting);
            var end := Turns(AfterTurn(m2, completing), later);
            && m2.gate.Holds()
            && (end.gate.Holds() <==> |Later(Times(later), completing.now)| < 2)
  {
    var m1 := AfterTurn(m, held);
    var m2 := Turns(m1, waiting);
    var m3 := AfterTurn(m2, completing);
    DeferringTurn(m, held);
    WaitingTurns(m1, waiting);
    CompletingTurn(m2, completing);
    QuietTurns(m3, later);
    HoldIsExact(m3.gate, completing.now, Times(later));
  }

  lemma DeferringTurn(m: Memory, t: Turn)
    requires DefersNow(m, t.shares)
    ensures AfterTurn(m, t).deferred && AfterTurn(m, t).gate.handoff == Deferred
  {
    DeferralNeedsChange(m, t.shares);
  }

  lemma CompletingTurn(m: Memory, t: Turn)
    requires m.deferred && m.gate.handoff == Deferred && t.landed && Changed(t.shares, m.last) != []
    ensures !AfterTurn(m, t).deferred
    ensures AfterTurn(m, t).gate == Gate(Some(t.receivedAt), GrowthWritten(t.now, 0))
  {
    HandoffMovesOn(m, t);
  }
}
