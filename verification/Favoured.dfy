/** Whom a policy favours, on the watts handed out: the state-of-charge policy
    drains the fuller children harder and charges the emptier ones harder, in
    exact proportion as long as no headroom is in the way; an equal split
    favours nobody. */
module Favoured {
  import opened Numbers
  import opened Allocation
  import opened WaterFilling
  import opened FairShares

  /** What a child has to give, discharging, or room to take, charging, in percent. */
  function Stake(c: ChildCapacity, total: real): real {
    if total >= 0.0 then c.stateOfCharge else 100.0 - c.stateOfCharge
  }

  function Stakes(eligible: seq<ChildCapacity>, total: real): (r: seq<real>)
    ensures |r| == |eligible|
  {
    seq(|eligible|, i requires 0 <= i < |eligible| => Stake(eligible[i], total))
  }

  /** The policy weighs its children: there is something to weigh them by. */
  predicate Weighs(eligible: seq<ChildCapacity>, total: real, policy: Policy) {
    policy == SocWeighted && Sum(Stakes(eligible, total)) > EPSILON
  }

  /** Power given to the `i`-th eligible child, in either direction. */
  function Given(total: real, children: seq<ChildCapacity>, policy: Policy, i: nat): real
    requires i < |EligibleOf(children)|
  {
    Abs(Allocated(total, children, policy)[i].watts)
  }

  // ----- fillings and weights

  lemma WeightedLine(weights: seq<real>, line: seq<real>, i: nat, j: nat)
    requires NonNegative(weights) && IsLine(line, weights) && i < |weights| && j < |weights|
    ensures weights[i] > 0.0 && weights[j] > 0.0 ==> line[i] * weights[j] == line[j] * weights[i]
    ensures weights[i] >= weights[j] > 0.0 ==> line[i] >= line[j]
    ensures weights[i] == weights[j] ==> line[i] == line[j]
    ensures line[i] >= 0.0
  {
    var level, spill :| LineAt(line, weights, level, spill);
    LineNonNegative(weights, line);
    Proportional(weights[i], weights[j], level);
    if weights[i] >= weights[j] { MulMono(level, weights[j], weights[i]); }
  }

  lemma Proportional(a: real, b: real, level: real)
    ensures (a * level) * b == (b * level) * a
    ensures level * a == a * level && level * b == b * level
  {
  }

  /** More weight and no less room: no smaller share. */
  lemma MoreWeight(shares: seq<real>, caps: seq<real>, weights: seq<real>, total: real, i: nat, j: nat)
    requires WaterFilling.Inputs(caps, weights) && IsFill(shares, caps, weights, total)
    requires i < |caps| && j < |caps| && weights[i] >= weights[j] && caps[i] >= caps[j]
    ensures shares[i] >= shares[j]
  {
    var line :| IsLine(line, weights) && FillsTo(shares, caps, weights, total, line);
    WeightedLine(weights, line, i, j);
    WeightedLine(weights, line, j, i);
  }

  lemma OnLine(shares: seq<real>, caps: seq<real>, weights: seq<real>, total: real, line: seq<real>, i: nat)
    requires FillsTo(shares, caps, weights, total, line) && i < |caps| && shares[i] < caps[i]
    ensures shares[i] == line[i]
  {
  }

  lemma LevelOf(line: seq<real>, weights: seq<real>, i: nat, j: nat) returns (level: real)
    requires IsLine(line, weights) && i < |weights| && j < |weights| && weights[i] > 0.0 && weights[j] > 0.0
    ensures |line| == |weights| && line[i] == weights[i] * level && line[j] == weights[j] * level
  {
    var l, spill :| LineAt(line, weights, l, spill);
    level := l;
  }

  /** Below its cap, a weighted child leaves nothing for a weightless one. */
  lemma UncappedWeightless(shares: seq<real>, caps: seq<real>, weights: seq<real>, total: real, i: nat, j: nat)
    requires WaterFilling.Inputs(caps, weights) && IsFill(shares, caps, weights, total)
    requires i < |caps| && j < |caps| && shares[j] < caps[j] && weights[i] == 0.0 && weights[j] > 0.0
    ensures shares[i] <= 0.0
  {
    var line :| IsLine(line, weights) && FillsTo(shares, caps, weights, total, line);
  }

  lemma UncappedEqual(shares: seq<real>, caps: seq<real>, weights: seq<real>, total: real, i: nat, j: nat)
    requires WaterFilling.Inputs(caps, weights) && IsFill(shares, caps, weights, total)
    requires i < |caps| && j < |caps| && shares[i] < caps[i] && shares[j] < caps[j] && weights[i] == weights[j]
    ensures shares[i] == shares[j]
  {
    var line :| IsLine(line, weights) && FillsTo(shares, caps, weights, total, line);
    WeightedLine(weights, line, i, j);
  }

  /** A weightless child gets something only once every weighted one is at its cap. */
  lemma WeightlessLast(shares: seq<real>, caps: seq<real>, weights: seq<real>, total: real, i: nat, j: nat)
    requires WaterFilling.Inputs(caps, weights) && IsFill(shares, caps, weights, total)
    requires i < |caps| && j < |caps| && weights[i] == 0.0 && weights[j] > 0.0 && shares[i] > 0.0
    ensures shares[j] == caps[j]
  {
    var line :| IsLine(line, weights) && FillsTo(shares, caps, weights, total, line);
    assert line[i] > 0.0;
  }

  // ----- the program's shares

  lemma StakesAreWeights(eligible: seq<ChildCapacity>, total: real, policy: Policy)
    ensures PolicyWeights(policy, eligible, Sign(total)) ==
            if Weighs(eligible, total, policy) then Stakes(eligible, total) else seq(|eligible|, _ => 1.0)
  {
    assert RawWeights(eligible, Sign(total) > 0.0) == Stakes(eligible, total);
  }

  lemma GivenIsMagnitude(total: real, children: seq<ChildCapacity>, policy: Policy, i: nat)
    requires i < |EligibleOf(children)| && Magnitudes(total, EligibleOf(children), policy)[i] >= 0.0
    ensures Given(total, children, policy, i) == Magnitudes(total, EligibleOf(children), policy)[i]
  {
  }

  lemma GivenNearExact(total: real, children: seq<ChildCapacity>, policy: Policy, i: nat)
    requires Weighable(policy, EligibleOf(children)) && i < |EligibleOf(children)|
    ensures |Exact(total, EligibleOf(children), policy)| == |EligibleOf(children)|
    ensures Near(Exact(total, EligibleOf(children), policy)[i], Given(total, children, policy, i))
  {
    var eligible := EligibleOf(children);
    NearExact(total, eligible, policy, i);
    AllocationIsNearFill(total, eligible, policy);
    GivenIsMagnitude(total, children, policy, i);
  }

  ghost predicate Near(exact: real, given: real) {
    0.0 <= given && exact - EPSILON <= given <= exact
  }

  /** The weight the policy gives a child. */
  function Weight(eligible: seq<ChildCapacity>, total: real, policy: Policy, i: nat): real
    requires i < |eligible|
  {
    if Weighs(eligible, total, policy) then Stake(eligible[i], total) else 1.0
  }

  /** The filling behind the watts given. */
  lemma Behind(total: real, children: seq<ChildCapacity>, policy: Policy, i: nat, j: nat)
    returns (exact: seq<real>, caps: seq<real>, weights: seq<real>)
    requires Weighable(policy, children) && i < |EligibleOf(children)| && j < |EligibleOf(children)|
    ensures WaterFilling.Inputs(caps, weights) && |exact| == |caps| == |EligibleOf(children)|
    ensures IsFill(exact, caps, weights, Abs(total))
    ensures Near(exact[i], Given(total, children, policy, i)) && Near(exact[j], Given(total, children, policy, j))
    ensures caps[i] == Max(EligibleOf(children)[i].headroom, 0.0)
    ensures caps[j] == Max(EligibleOf(children)[j].headroom, 0.0)
    ensures weights[i] == Weight(EligibleOf(children), total, policy, i)
    ensures weights[j] == Weight(EligibleOf(children), total, policy, j)
  {
    var eligible := EligibleOf(children);
    forall c | c in eligible ensures c in children {}
    exact, caps, weights := Exact(total, eligible, policy), CapsOf(eligible), PolicyWeights(policy, eligible,
      Sign(total));
    GivenNearExact(total, children, policy, i);
    GivenNearExact(total, children, policy, j);
    ExactIsFill(total, eligible, policy);
    StakesAreWeights(eligible, total, policy);
  }

  /** Of two children, the one with more at stake and no less headroom is given
      no less: the fuller one discharging, the emptier one charging. */
  lemma FavoursStake(total: real, children: seq<ChildCapacity>, policy: Policy, i: nat, j: nat)
    requires Weighable(policy, children) && i < |EligibleOf(children)| && j < |EligibleOf(children)|
    requires var eligible := EligibleOf(children);
             && eligible[i].headroom >= eligible[j].headroom
             && (policy == SocWeighted ==> if total >= 0.0 then eligible[i].stateOfCharge >= eligible[j].stateOfCharge
                                           else eligible[i].stateOfCharge <= eligible[j].stateOfCharge)
    ensures Given(total, children, policy, i) >= Given(total, children, policy, j) - EPSILON
  {
    var exact, caps, weights := Behind(total, children, policy, i, j);
    MoreWeight(exact, caps, weights, Abs(total), i, j);
  }

  /** More than the threshold below its headroom. */
  predicate Uncapped(total: real, children: seq<ChildCapacity>, policy: Policy, i: nat)
    requires i < |EligibleOf(children)|
  {
    Given(total, children, policy, i) < Max(EligibleOf(children)[i].headroom, 0.0) - EPSILON
  }

  lemma Gap(d: real, slack: real, a: real, most: real)
    requires 0.0 <= d <= slack && 0.0 <= a <= most
    ensures 0.0 <= d * a <= most * slack
  {
    assert 0.0 <= (slack - d) * a && 0.0 <= slack * (most - a);
  }

  /** `x` and `y` stand as `a` to `b`, to a hundred thresholds. */
  ghost predicate InProportion(x: real, y: real, a: real, b: real) {
    Abs(x * b - y * a) <= 100.0 * EPSILON
  }

  lemma AtLevelInProportion(level: real, a: real, b: real, exact: real, exact': real, x: real, y: real)
    requires 0.0 <= a <= 100.0 && 0.0 <= b <= 100.0 && exact == a * level && exact' == b * level
    requires Near(exact, x) && Near(exact', y)
    ensures InProportion(x, y, a, b)
  {
    var dx, dy := exact - x, exact' - y;
    Gap(dx, EPSILON, b, 100.0);
    Gap(dy, EPSILON, a, 100.0);
    Shortfall(level, a, b, x, y, dx, dy);
  }

  lemma LineInProportion(line: seq<real>, weights: seq<real>, i: nat, j: nat, x: real, y: real)
    requires IsLine(line, weights) && |line| == |weights| && i < |weights| && j < |weights|
    requires 0.0 < weights[i] <= 100.0 && 0.0 < weights[j] <= 100.0 && Near(line[i], x) && Near(line[j], y)
    ensures InProportion(x, y, weights[i], weights[j])
  {
    var level := LevelOf(line, weights, i, j);
    AtLevelInProportion(level, weights[i], weights[j], line[i], line[j], x, y);
  }

  lemma Shortfall(level: real, a: real, b: real, x: real, y: real, dx: real, dy: real)
    requires x == a * level - dx && y == b * level - dy
    ensures x * b - y * a == dy * a - dx * b
  {
    calc {
      x * b - y * a;
    ==
      (a * level) * b - dx * b - ((b * level) * a - dy * a);
    ==  { Proportional(a, b, level); }
      dy * a - dx * b;
    }
  }

  lemma NothingInProportion(x: real, y: real, a: real, b: real)
    requires (a == 0.0 && (b == 0.0 || x == 0.0)) || (b == 0.0 && (a == 0.0 || y == 0.0))
    ensures InProportion(x, y, a, b)
  {
  }

  lemma UncappedNear(exact: seq<real>, caps: seq<real>, weights: seq<real>, total: real, i: nat, j: nat, x: real,
          y: real)
    requires WaterFilling.Inputs(caps, weights) && IsFill(exact, caps, weights, total)
    requires i < |caps| && j < |caps| && Near(exact[i], x) && Near(exact[j], y)
    requires x < caps[i] - EPSILON && y < caps[j] - EPSILON && weights[i] <= 100.0 && weights[j] <= 100.0
    ensures InProportion(x, y, weights[i], weights[j])
  {
    if weights[i] > 0.0 && weights[j] > 0.0 {
      var line :| IsLine(line, weights) && FillsTo(exact, caps, weights, total, line);
      OnLine(exact, caps, weights, total, line, i);
      OnLine(exact, caps, weights, total, line, j);
      LineInProportion(line, weights, i, j, x, y);
    } else {
      if weights[j] > 0.0 { UncappedWeightless(exact, caps, weights, total, i, j); }
      if weights[i] > 0.0 { UncappedWeightless(exact, caps, weights, total, j, i); }
      NothingInProportion(x, y, weights[i], weights[j]);
    }
  }

  /** Two shares that headroom does not limit stand in the ratio of the stakes,
      or are equal if the policy does not weigh. */
  lemma UncappedInProportion(total: real, children: seq<ChildCapacity>, policy: Policy, i: nat, j: nat)
    requires Weighable(policy, children) && i < |EligibleOf(children)| && j < |EligibleOf(children)|
    requires Uncapped(total, children, policy, i) && Uncapped(total, children, policy, j)
    ensures var eligible := EligibleOf(children);
            var x, y := Given(total, children, policy, i), Given(total, children, policy, j);
            if Weighs(eligible, total, policy)
            then InProportion(x, y, Stake(eligible[i], total), Stake(eligible[j], total))
            else Abs(x - y) <= EPSILON
  {
    var exact, caps, weights := Behind(total, children, policy, i, j);
    if Weighs(EligibleOf(children), total, policy) {
      assert EligibleOf(children)[i] in children && EligibleOf(children)[j] in children;
      UncappedNear(exact, caps, weights, Abs(total), i, j, Given(total, children, policy, i),
        Given(total, children, policy, j));
    } else {
      UncappedEqual(exact, caps, weights, Abs(total), i, j);
    }
  }

  /** A child with nothing at stake, empty or full, is given something only once
      every child with a stake is at its headroom. */
  lemma NothingAtStakeLast(total: real, children: seq<ChildCapacity>, policy: Policy, i: nat, j: nat)
    requires Weighable(policy, children) && i < |EligibleOf(children)| && j < |EligibleOf(children)|
    requires var eligible := EligibleOf(children);
             && Weighs(eligible, total, policy)
             && Stake(eligible[i], total) == 0.0 && Stake(eligible[j], total) > 0.0
    requires Given(total, children, policy, i) > 0.0
    ensures !Uncapped(total, children, policy, j)
  {
    var exact, caps, weights := Behind(total, children, policy, i, j);
    WeightlessLast(exact, caps, weights, Abs(total), i, j);
  }
}
