/** What monotone water filling means for the shares the program hands out. Its
    loop stops once at most `EPSILON` is left to give, so each of its shares is
    within `EPSILON` of the filling, and so is each comparison. */
module FairShares {
  import opened Numbers
  import opened Allocation
  import opened WaterFilling

  /** One entry's gap is at most the whole gap. */
  lemma OneGap(exact: seq<real>, given: seq<real>, i: nat)
    requires |exact| == |given| && i < |exact|
    requires forall k :: 0 <= k < |exact| ==> given[k] <= exact[k]
    ensures exact[i] - given[i] <= Sum(exact) - Sum(given)
  {
    SumUpdate(given, i, exact[i]);
    SumOrder(given[i := exact[i]], exact);
  }

  function Exact(total: real, eligible: seq<ChildCapacity>, policy: Policy): seq<real> {
    Fill(CapsOf(eligible), PolicyWeights(policy, eligible, Sign(total)), Abs(total))
  }

  /** Every share is within `EPSILON` below its exact filling. */
  lemma NearExact(total: real, eligible: seq<ChildCapacity>, policy: Policy, i: nat)
    requires Weighable(policy, eligible) && i < |eligible|
    ensures |Exact(total, eligible, policy)| == |eligible|
    ensures var exact, given := Exact(total, eligible, policy)[i], Magnitudes(total, eligible, policy)[i];
            exact - EPSILON <= given <= exact
  {
    AllocationIsNearFill(total, eligible, policy);
    OneGap(Exact(total, eligible, policy), Magnitudes(total, eligible, policy), i);
  }

  lemma ExactIsFill(total: real, eligible: seq<ChildCapacity>, policy: Policy)
    requires Weighable(policy, eligible)
    ensures IsFill(Exact(total, eligible, policy), CapsOf(eligible), PolicyWeights(policy, eligible, Sign(total)),
            Abs(total))
    ensures WaterFilling.Inputs(CapsOf(eligible), PolicyWeights(policy, eligible, Sign(total)))
  {
    AllocationIsNearFill(total, eligible, policy);
    WeightsNonNegative(policy, eligible, Sign(total));
  }

  /** Asking for more in the same direction lowers nobody's share. */
  lemma RaisingTotal(total: real, total': real, eligible: seq<ChildCapacity>, policy: Policy, i: nat)
    requires Weighable(policy, eligible) && i < |eligible|
    requires Sign(total) == Sign(total') && Abs(total) <= Abs(total')
    ensures Magnitudes(total, eligible, policy)[i] <= Magnitudes(total', eligible, policy)[i] + EPSILON
  {
    ExactIsFill(total, eligible, policy);
    ExactIsFill(total', eligible, policy);
    TotalMonotone(CapsOf(eligible), PolicyWeights(policy, eligible, Sign(total)), Abs(total), Abs(total'),
                  Exact(total, eligible, policy), Exact(total', eligible, policy));
    NearExact(total, eligible, policy, i);
    NearExact(total', eligible, policy, i);
  }

  lemma WeightsIgnoreHeadroom(eligible: seq<ChildCapacity>, eligible': seq<ChildCapacity>, policy: Policy, sign: real)
    requires |eligible| == |eligible'|
    requires forall i :: 0 <= i < |eligible| ==> eligible'[i].stateOfCharge == eligible[i].stateOfCharge
    ensures PolicyWeights(policy, eligible', sign) == PolicyWeights(policy, eligible, sign)
  {
    assert RawWeights(eligible', sign > 0.0) == RawWeights(eligible, sign > 0.0);
  }

  /** Giving child `k` more headroom raises nobody else's share, nor lowers its own. */
  lemma RaisingHeadroom(total: real, eligible: seq<ChildCapacity>, policy: Policy, k: nat, headroom: real, i: nat)
    requires Weighable(policy, eligible) && k < |eligible| && i < |eligible|
    requires eligible[k].headroom <= headroom
    ensures var raised := eligible[k := eligible[k].(headroom := headroom)];
            var share, share' := Magnitudes(total, eligible, policy)[i], Magnitudes(total, raised, policy)[i];
            if i == k then share <= share' + EPSILON else share' <= share + EPSILON
  {
    var raised := eligible[k := eligible[k].(headroom := headroom)];
    var caps, weights := CapsOf(eligible), PolicyWeights(policy, eligible, Sign(total));
    WeightsIgnoreHeadroom(eligible, raised, policy, Sign(total));
    assert CapsOf(raised) == caps[k := Max(headroom, 0.0)];
    assert Weighable(policy, raised);
    ExactIsFill(total, eligible, policy);
    ExactIsFill(total, raised, policy);
    HeadroomMonotone(caps, weights, Abs(total), k, Max(headroom, 0.0), Exact(total, eligible, policy),
      Exact(total, raised, policy));
    NearExact(total, eligible, policy, i);
    NearExact(total, raised, policy, i);
  }

  lemma ReorderedWeights(eligible: seq<ChildCapacity>, policy: Policy, sign: real, order: seq<nat>)
    requires IsReordering(order, |eligible|) && Within(order, |eligible|)
    ensures PolicyWeights(policy, Gather(eligible, order), sign) == Gather(PolicyWeights(policy, eligible, sign), order)
  {
    var raw := RawWeights(eligible, sign > 0.0);
    ReorderingWithin(order, |eligible|);
    ReorderedSum(raw, order);
    assert RawWeights(Gather(eligible, order), sign > 0.0) == Gather(raw, order);
  }

  /** The order the children are listed in does not matter. */
  lemma OrderDoesNotMatter(total: real, eligible: seq<ChildCapacity>, policy: Policy, order: seq<nat>, i: nat)
    requires Weighable(policy, eligible) && IsReordering(order, |eligible|) && Within(order, |eligible|) && i < |order|
    ensures |order| == |eligible|
    ensures var moved, share := Magnitudes(total, Gather(eligible, order), policy), Magnitudes(total, eligible, policy);
            Abs(moved[i] - share[order[i]]) <= EPSILON
  {
    var moved := Gather(eligible, order);
    var caps, weights := CapsOf(eligible), PolicyWeights(policy, eligible, Sign(total));
    ReorderingWithin(order, |eligible|);
    ReorderedWeights(eligible, policy, Sign(total), order);
    assert CapsOf(moved) == Gather(caps, order);
    if policy == SocWeighted {
      forall c | c in moved ensures 0.0 <= c.stateOfCharge <= 100.0 { assert c in eligible; }
    }
    ExactIsFill(total, eligible, policy);
    ExactIsFill(total, moved, policy);
    ReorderingInvariant(caps, weights, Abs(total), order, Exact(total, eligible, policy), Exact(total, moved, policy));
    NearExact(total, eligible, policy, order[i]);
    NearExact(total, moved, policy, i);
  }
}
