/** Which disagreements between the memory and the devices a plan can stumble
    over. With `off` for how much more a device holds than the memory says, no
    plan for a set of devices can be unsafe if none of them is off upward, unless
    it was never written, and any that is off by more than another holds nothing.
    Outside that, up to the write threshold, some plan is unsafe. */
module Disagreement {
  import opened Numbers
  import opened Allocation
  import opened WriteOrder
  import opened Writes

  /** How much more a device holds than the memory says, in magnitude. */
  function Off(id: string, devices: map<string, real>, last: map<string, real>): real {
    Abs(Level(devices, id)) - Abs(Level(last, id))
  }

  /** `y`, written after `x`, cannot take back anything that `x` has just added. */
  ghost predicate HarmlessPair(x: string, y: string, devices: map<string, real>, last: map<string, real>) {
    && (y in last ==> Off(y, devices, last) <= 0.0)
    && (Off(x, devices, last) < Off(y, devices, last) ==> Level(devices, y) == 0.0)
  }

  ghost predicate Harmless(ids: seq<string>, devices: map<string, real>, last: map<string, real>) {
    forall x, y :: x in ids && y in ids && x != y ==> HarmlessPair(x, y, devices, last)
  }

  // ----- harmless disagreements

  /** Changes of which none rises before another falls. */
  ghost predicate FallsFirst(g: seq<real>) {
    forall i, j :: 0 <= i < j < |g| ==> !(g[i] > 0.0 && g[j] < 0.0)
  }

  lemma {:induction false} PrefixOfFallsFirst(g: seq<real>, k: nat)
    requires FallsFirst(g) && k <= |g|
    ensures Sum(g[..k]) <= Max(0.0, Sum(g))
  {
    if k == |g| {
      assert g[..k] == g;
    } else {
      var front, end := g[..|g| - 1], g[|g| - 1];
      assert front[..k] == g[..k];
      PrefixOfFallsFirst(front, k);
      if end < 0.0 {
        assert end == g[|g| - 1] && forall i :: 0 <= i < k ==> g[..k][i] == g[i];
        SumZero(Zeros(k));
        SumOrder(g[..k], Zeros(k));
      }
    }
  }

  lemma TrueGrowth(w: Share, devices: map<string, real>, last: map<string, real>)
    ensures Growth(w, devices) == Growth(w, last) - Off(w.deviceId, devices, last)
  {
  }

  /** Two writes of a batch, in its order. */
  lemma BatchPairFallsFirst(a: Share, b: Share, devices: map<string, real>, last: map<string, real>)
    requires Growth(a, last) <= Growth(b, last) && HarmlessPair(a.deviceId, b.deviceId, devices, last)
    ensures !(Growth(a, devices) > 0.0 && Growth(b, devices) < 0.0)
  {
    TrueGrowth(a, devices, last);
    TrueGrowth(b, devices, last);
  }

  /** Any write, and one that re-asserts what the memory says. */
  lemma ReassertNeverFalls(b: Share, x: string, devices: map<string, real>, last: map<string, real>)
    requires b.deviceId in last && b.watts == last[b.deviceId] && HarmlessPair(x, b.deviceId, devices, last)
    ensures Growth(b, devices) >= 0.0
  {
    TrueGrowth(b, devices, last);
  }

  lemma PlanFallsFirst(m: Memory, shares: seq<Share>, ids: seq<string>, devices: map<string, real>)
    requires DistinctDevices(shares) && Harmless(ids, devices, m.last)
    requires forall w :: w in shares ==> w.deviceId in ids
    ensures FallsFirst(Growths(PlannedWrites(m, shares), devices))
  {
    var batch, writes := Batch(m, shares), PlannedWrites(m, shares);
    var still := Reasserts(shares, batch, m.last);
    PlanDistinct(m, shares);
    PlannedFromShares(m, shares);
    forall i, j | 0 <= i < j < |writes|
      ensures !(Growth(writes[i], devices) > 0.0 && Growth(writes[j], devices) < 0.0)
    {
      var a, b := writes[i], writes[j];
      assert a in writes && b in writes;
      assert HarmlessPair(a.deviceId, b.deviceId, devices, m.last);
      if j < |batch| {
        assert a == batch[i] && b == batch[j];
        BatchPairFallsFirst(a, b, devices, m.last);
      } else {
        assert b == still[j - |batch|] && b in still;
        ReassertNeverFalls(b, a.deviceId, devices, m.last);
      }
    }
  }

  /** A harmless disagreement makes no plan unsafe, whatever the shares and
      whatever part of the plan lands. */
  lemma HarmlessIsSafe(m: Memory, shares: seq<Share>, ids: seq<string>, devices: map<string, real>, k: nat)
    requires DistinctDevices(shares) && DistinctIds(ids) && Harmless(ids, devices, m.last)
    requires forall w :: w in shares ==> w.deviceId in ids
    requires k <= |PlannedWrites(m, shares)|
    ensures var writes := PlannedWrites(m, shares);
            Bus(ids, Apply(devices, writes[..k])) <= Max(Bus(ids, devices), Bus(ids, Apply(devices, writes)))
  {
    var writes := PlannedWrites(m, shares);
    PlanDistinct(m, shares);
    PlannedFromShares(m, shares);
    PlanFallsFirst(m, shares, ids, devices);
    PrefixOfFallsFirst(Growths(writes, devices), k);
    PrefixWithinEnds(ids, devices, writes, k);
  }

  // ----- the others

  /** The first part of a plan puts more on the bus than there is before or after. */
  ghost predicate Unsafe(m: Memory, shares: seq<Share>, ids: seq<string>, devices: map<string, real>) {
    var writes := PlannedWrites(m, shares);
    && writes != []
    && Bus(ids, Apply(devices, writes[..1])) > Max(Bus(ids, devices), Bus(ids, Apply(devices, writes)))
  }

  lemma RiseThenFall(m: Memory, a: Share, b: Share, ids: seq<string>, devices: map<string, real>)
    requires DistinctIds(ids) && a.deviceId in ids && b.deviceId in ids && a.deviceId != b.deviceId
    requires PlannedWrites(m, [a, b]) == [a, b]
    requires Growth(a, devices) > 0.0 > Growth(b, devices)
    ensures Unsafe(m, [a, b], ids, devices)
  {
    var writes := [a, b];
    assert writes[..1] == [a];
    PrefixBus(ids, devices, writes, 1);
    SumGrowthPair(a, b, devices);
  }

  lemma SumGrowthPair(a: Share, b: Share, devices: map<string, real>)
    ensures Sum(Growths([a], devices)) == Growth(a, devices)
    ensures Sum(Growths([a, b], devices)) == Growth(a, devices) + Growth(b, devices)
  {
    SumPair(Growths([a, b], devices));
    assert Growths([a], devices)[..0] == [];
  }

  lemma SumPair(g: seq<real>)
    requires |g| == 2
    ensures Sum(g) == g[0] + g[1]
  {
    assert g[..1] == [g[0]] && [g[0]][..0] == [];
    assert Sum([g[0]]) == g[0];
  }

  lemma GrowthNeverDefers(m: Memory, shares: seq<Share>, ordered: seq<Share>)
    requires ReductionsFirst(Changed(shares, m.last), m.last) == ordered
    requires forall w :: w in ordered ==> Growth(w, m.last) >= 0.0
    ensures Batch(m, shares) == ordered
  {
    forall w | w in ordered ensures !MaterialShrink(w, m.last) {
      assert 0.01 * Abs(Level(m.last, w.deviceId)) >= 0.0;
    }
  }

  /** `a` grows and `b` keeps its share: the plan raises `a` and re-asserts `b`. */
  lemma GrowAndKeep(m: Memory, a: Share, b: Share)
    requires a.deviceId != b.deviceId && IsChange(a, m.last) && Growth(a, m.last) > 0.0
    requires b.deviceId in m.last && b.watts == m.last[b.deviceId]
    ensures PlannedWrites(m, [a, b]) == [a, b]
  {
    GrowAndKeepBatch(m, a, b);
    ReassertSecond(a, b, m.last);
  }

  lemma GrowAndKeepBatch(m: Memory, a: Share, b: Share)
    requires a.deviceId != b.deviceId && IsChange(a, m.last) && Growth(a, m.last) > 0.0
    requires b.deviceId in m.last && b.watts == m.last[b.deviceId]
    ensures Batch(m, [a, b]) == [a]
  {
    ChangedPair(a, b, m.last);
    OrderedPair(a, a, m.last);
    GrowthNeverDefers(m, [a, b], [a]);
  }

  /** Both grow, or both shrink, by the same amount: the plan keeps their order. */
  lemma MoveTogether(m: Memory, a: Share, b: Share)
    requires a.deviceId != b.deviceId && IsChange(a, m.last) && IsChange(b, m.last)
    requires Growth(a, m.last) == Growth(b, m.last)
    ensures PlannedWrites(m, [a, b]) == [a, b]
  {
    ChangedPair(a, b, m.last);
    OrderedPair(a, b, m.last);
    if Growth(a, m.last) >= 0.0 { GrowthNeverDefers(m, [a, b], [a, b]); } else { NothingGrows(m, [a, b], [a, b]); }
    assert a in [a, b] && b in [a, b];
    ReassertNone([a, b], [a, b], m.last);
  }

  /** `id` moved by `move` in magnitude from what the memory says. */
  function Moved(id: string, last: map<string, real>, move: real): Share {
    Share(id, Abs(Level(last, id)) + move)
  }

  lemma MovedGrowth(id: string, devices: map<string, real>, last: map<string, real>, move: real)
    requires Abs(Level(last, id)) + move >= 0.0
    ensures Growth(Moved(id, last, move), last) == move
    ensures Growth(Moved(id, last, move), devices) == move - Off(id, devices, last)
    ensures Abs(move) >= EPSILON ==> IsChange(Moved(id, last, move), last)
  {
  }

  /** A known device off upward: raise any other, and its re-assertion comes too late. */
  lemma OffUpward(m: Memory, ids: seq<string>, devices: map<string, real>, x: string, y: string)
    returns (shares: seq<Share>)
    requires DistinctIds(ids) && x in ids && y in ids && x != y
    requires y in m.last && Off(y, devices, m.last) > 0.0
    ensures Unsafe(m, shares, ids, devices) && DistinctDevices(shares)
    ensures forall w :: w in shares ==> w.deviceId in ids
  {
    var a := RiseOf(x, devices, m.last);
    var b := FallOf(y, devices, m.last);
    GrowAndKeep(m, a, b);
    RiseThenFall(m, a, b, ids, devices);
    shares := [a, b];
  }

  lemma FallOf(id: string, devices: map<string, real>, last: map<string, real>) returns (b: Share)
    requires id in last && Off(id, devices, last) > 0.0
    ensures b == Share(id, last[id]) && Growth(b, devices) < 0.0
  {
    b := Share(id, last[id]);
    TrueGrowth(b, devices, last);
  }

  lemma RiseOf(id: string, devices: map<string, real>, last: map<string, real>) returns (a: Share)
    ensures a.deviceId == id && IsChange(a, last) && Growth(a, last) > 0.0 && Growth(a, devices) > 0.0
  {
    var move := Abs(Level(devices, id)) + 1.0;
    a := Moved(id, last, move);
    MovedGrowth(id, devices, last, move);
  }

  /** A number strictly between two that are far enough apart, and not near 0. */
  lemma NotNearZero(low: real, high: real) returns (c: real)
    requires low + 2.0 * EPSILON < high
    ensures low < c < high && Abs(c) >= EPSILON
  {
    if high > EPSILON {
      c := (Max(low, EPSILON) + high) / 2.0;
    } else {
      c := (low + Min(high, -EPSILON)) / 2.0;
    }
  }

  /** Two devices off by different amounts, the one off by more not empty: move
      both by an amount between the two, and the first rises as the second falls. */
  lemma OffApart(m: Memory, ids: seq<string>, devices: map<string, real>, x: string, y: string)
    returns (shares: seq<Share>)
    requires DistinctIds(ids) && x in ids && y in ids && x != y
    requires Off(x, devices, m.last) + 2.0 * EPSILON < Off(y, devices, m.last)
    requires Abs(Level(devices, y)) > 2.0 * EPSILON
    ensures Unsafe(m, shares, ids, devices) && DistinctDevices(shares)
    ensures forall w :: w in shares ==> w.deviceId in ids
  {
    var move := NotNearZero(Max(Off(x, devices, m.last), -Abs(Level(m.last, y))), Off(y, devices, m.last));
    var a, b := Moved(x, m.last, move), Moved(y, m.last, move);
    MovedGrowth(x, devices, m.last, move);
    MovedGrowth(y, devices, m.last, move);
    MoveTogether(m, a, b);
    RiseThenFall(m, a, b, ids, devices);
    shares := [a, b];
  }

  /** A disagreement that is harmful by more than the write threshold. */
  ghost predicate HarmfulPair(x: string, y: string, devices: map<string, real>, last: map<string, real>) {
    || (y in last && Off(y, devices, last) > 0.0)
    || (Off(x, devices, last) + 2.0 * EPSILON < Off(y, devices, last) && Abs(Level(devices, y)) > 2.0 * EPSILON)
  }

  /** And a harmful one makes some plan unsafe. */
  lemma HarmfulIsUnsafe(m: Memory, ids: seq<string>, devices: map<string, real>, x: string, y: string)
    returns (shares: seq<Share>)
    requires DistinctIds(ids) && x in ids && y in ids && x != y && HarmfulPair(x, y, devices, m.last)
    ensures Unsafe(m, shares, ids, devices) && DistinctDevices(shares)
    ensures forall w :: w in shares ==> w.deviceId in ids
  {
    if y in m.last && Off(y, devices, m.last) > 0.0 {
      shares := OffUpward(m, ids, devices, x, y);
    } else {
      shares := OffApart(m, ids, devices, x, y);
    }
  }
}
