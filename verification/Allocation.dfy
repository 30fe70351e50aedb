/** Splitting a total fairly over children with caps: the progressive filling of
    section 6.5.2 of Bertsekas and Gallager, *Data Networks*.

    `FillFrom` is the exact filling; the method `Allocate` is the program's
    loop, which stops once the undistributed demand is at most `EPSILON`.
    What a filling means is `IsFill`: one water level for the children that
    carry weight, and a second level, used only once all of those are at
    their caps, for the children that carry none. */
module Allocation {
  import opened Numbers

  datatype OperatingState = Standby | Charging | Discharging | Fault | Offline {
    predicate Eligible() { !Fault? && !Offline? }
  }

  datatype ChildCapacity = ChildCapacity(
    deviceId: string,
    state: OperatingState,
    headroom: real,
    stateOfCharge: real
  )

  datatype Policy = EqualSplit | SocWeighted

  datatype Share = Share(deviceId: string, watts: real)

  function EligibleOf(children: seq<ChildCapacity>): (r: seq<ChildCapacity>)
    ensures |r| <= |children|
    ensures forall c :: c in r <==> c in children && c.state.Eligible()
  {
    if children == [] then []
    else
      var last := children[|children| - 1];
      var front := EligibleOf(children[..|children| - 1]);
      if last.state.Eligible() then front + [last] else front
  }

  function CapsOf(eligible: seq<ChildCapacity>): (r: seq<real>)
    ensures |r| == |eligible|
    ensures forall i :: 0 <= i < |r| ==> r[i] >= 0.0
  {
    seq(|eligible|, i requires 0 <= i < |eligible| => Max(eligible[i].headroom, 0.0))
  }

  function Sign(total: real): real { if total < 0.0 then -1.0 else 1.0 }

  function RawWeights(eligible: seq<ChildCapacity>, discharging: bool): (r: seq<real>)
    ensures |r| == |eligible|
  {
    seq(|eligible|, i requires 0 <= i < |eligible| =>
      if discharging then eligible[i].stateOfCharge else 100.0 - eligible[i].stateOfCharge)
  }

  function PolicyWeights(policy: Policy, eligible: seq<ChildCapacity>, sign: real): (r: seq<real>)
    ensures |r| == |eligible|
  {
    var raw := RawWeights(eligible, sign > 0.0);
    if policy == EqualSplit || Sum(raw) <= EPSILON then seq(|eligible|, _ => 1.0) else raw
  }

  /** State of charge is a percentage; outside it a weight would be negative. */
  ghost predicate Percentages(children: seq<ChildCapacity>) {
    forall c :: c in children ==> 0.0 <= c.stateOfCharge <= 100.0
  }

  /** Whether the policy's weights are non-negative: an equal split reads no state of charge. */
  ghost predicate Weighable(policy: Policy, children: seq<ChildCapacity>) {
    policy == SocWeighted ==> Percentages(children)
  }

  // ----- one round

  ghost predicate Within(open: seq<nat>, n: nat) {
    forall k :: 0 <= k < |open| ==> open[k] < n
  }

  function SumAt(v: seq<real>, open: seq<nat>): real
    requires Within(open, |v|)
  {
    if open == [] then 0.0
    else SumAt(v, open[..|open| - 1]) + v[open[|open| - 1]]
  }

  /** What each open child is offered this round, by child index. */
  function Proposed(weights: seq<real>, demand: real, open: seq<nat>): (r: seq<real>)
    requires open != [] && Within(open, |weights|)
    ensures |r| == |weights|
  {
    var weightSum := SumAt(weights, open);
    seq(|weights|, i requires 0 <= i < |weights| =>
      if weightSum > 0.0 then demand * (weights[i] / weightSum)
      else demand * (1.0 / |open| as real))
  }

  function CappedOf(open: seq<nat>, proposed: seq<real>, caps: seq<real>): (r: seq<nat>)
    requires |proposed| == |caps| && Within(open, |caps|)
    ensures Within(r, |caps|)
  {
    if open == [] then []
    else
      var last := open[|open| - 1];
      var front := CappedOf(open[..|open| - 1], proposed, caps);
      if proposed[last] >= caps[last] then front + [last] else front
  }

  function StillOpen(open: seq<nat>, proposed: seq<real>, caps: seq<real>): (r: seq<nat>)
    requires |proposed| == |caps| && Within(open, |caps|)
    ensures Within(r, |caps|)
    ensures |r| + |CappedOf(open, proposed, caps)| == |open|
  {
    if open == [] then []
    else
      var last := open[|open| - 1];
      var front := StillOpen(open[..|open| - 1], proposed, caps);
      if proposed[last] < caps[last] then front + [last] else front
  }

  /** `shares` with every entry listed in `at` taken from `v`. */
  function Assign(shares: seq<real>, at: seq<nat>, v: seq<real>): (r: seq<real>)
    requires |shares| == |v| && Within(at, |v|)
    ensures |r| == |v|
  {
    if at == [] then shares
    else Assign(shares, at[..|at| - 1], v)[at[|at| - 1] := v[at[|at| - 1]]]
  }

  /** The loop's variables: demand not yet given out, children still open, and
      the shares so far. */
  datatype Round = Round(demand: real, open: seq<nat>, shares: seq<real>)

  ghost predicate Fits(caps: seq<real>, weights: seq<real>, round: Round) {
    |caps| == |weights| == |round.shares| && Within(round.open, |caps|)
  }

  /** One pass of the loop: children offered at least their cap get their cap
      and leave; if there are none, the offers are the answer. */
  function NextRound(caps: seq<real>, weights: seq<real>, round: Round): (r: Round)
    requires Fits(caps, weights, round) && round.open != []
    ensures Fits(caps, weights, r)
    ensures r.demand == 0.0 || |r.open| < |round.open|
  {
    var proposed := Proposed(weights, round.demand, round.open);
    var capped := CappedOf(round.open, proposed, caps);
    if capped == [] then Round(0.0, round.open, Assign(round.shares, round.open, proposed))
    else
      Round(round.demand - SumAt(caps, capped),
            StillOpen(round.open, proposed, caps),
            Assign(round.shares, capped, caps))
  }

  /** The shares once no demand above `threshold` is left, or no child is open. */
  function FillFrom(caps: seq<real>, weights: seq<real>, round: Round, threshold: real): (r: seq<real>)
    requires Fits(caps, weights, round) && threshold >= 0.0
    ensures |r| == |caps|
    decreases |round.open|, if round.demand > threshold then 1 else 0
  {
    if round.demand <= threshold || round.open == [] then round.shares
    else FillFrom(caps, weights, NextRound(caps, weights, round), threshold)
  }

  function Indices(n: nat): (r: seq<nat>)
    ensures |r| == n && forall i :: 0 <= i < n ==> r[i] == i
  {
    seq(n, i => i)
  }

  function Zeros(n: nat): (r: seq<real>)
    ensures |r| == n && forall i :: 0 <= i < n ==> r[i] == 0.0
  {
    seq(n, _ => 0.0)
  }

  function FirstRound(n: nat, total: real): Round {
    Round(total, Indices(n), Zeros(n))
  }

  /** Exact progressive filling. */
  function Fill(caps: seq<real>, weights: seq<real>, total: real): seq<real>
    requires |caps| == |weights|
  {
    FillFrom(caps, weights, FirstRound(|caps|, total), 0.0)
  }

  // ----- what a filling means

  /** The water line: each weighted child's line stands at its weight times
      `level`, each weightless child's at `spill`. */
  ghost predicate LineAt(line: seq<real>, weights: seq<real>, level: real, spill: real) {
    && |line| == |weights| && level >= 0.0 && spill >= 0.0
    && forall i :: 0 <= i < |line| ==> line[i] == if weights[i] > 0.0 then weights[i] * level else spill
  }

  ghost predicate IsLine(line: seq<real>, weights: seq<real>) {
    exists level, spill :: LineAt(line, weights, level, spill)
  }

  /** Every child is filled to the line or to its cap, and weightless children
      get something only once every weighted one is at its cap. */
  ghost predicate FillsTo(shares: seq<real>, caps: seq<real>, weights: seq<real>, total: real, line: seq<real>) {
    && |shares| == |caps| == |weights| == |line|
    && (forall i :: 0 <= i < |shares| ==> shares[i] == Min(caps[i], line[i]))
    && ((exists j :: 0 <= j < |line| && weights[j] == 0.0 && line[j] > 0.0) ==>
          forall i :: 0 <= i < |shares| && weights[i] > 0.0 ==> shares[i] == caps[i])
    && Sum(shares) == Min(total, Sum(caps))
  }

  /** `shares` is the filling of `total`: see `LineAt` and `FillsTo`. */
  ghost predicate IsFill(shares: seq<real>, caps: seq<real>, weights: seq<real>, total: real) {
    exists line :: IsLine(line, weights) && FillsTo(shares, caps, weights, total, line)
  }

  ghost predicate NonNegative(v: seq<real>) {
    forall i :: 0 <= i < |v| ==> v[i] >= 0.0
  }

  ghost predicate NoLess(v: seq<real>, u: seq<real>) {
    |v| == |u| && forall i :: 0 <= i < |v| ==> v[i] <= u[i]
  }

  ghost predicate Distinct(open: seq<nat>) {
    forall i, j :: 0 <= i < j < |open| ==> open[i] != open[j]
  }

  // ----- index lists

  lemma {:induction false} FilterMembers(open: seq<nat>, proposed: seq<real>, caps: seq<real>)
    requires |proposed| == |caps| && Within(open, |caps|)
    ensures forall i :: i in CappedOf(open, proposed, caps) <==> i in open && proposed[i] >= caps[i]
    ensures forall i :: i in StillOpen(open, proposed, caps) <==> i in open && proposed[i] < caps[i]
  {
    if open != [] {
      FilterMembers(open[..|open| - 1], proposed, caps);
      assert open == open[..|open| - 1] + [open[|open| - 1]];
    }
  }

  lemma {:induction false} AssignAt(shares: seq<real>, at: seq<nat>, v: seq<real>)
    requires |shares| == |v| && Within(at, |v|)
    ensures forall i :: 0 <= i < |v| ==> Assign(shares, at, v)[i] == if i in at then v[i] else shares[i]
  {
    if at != [] {
      AssignAt(shares, at[..|at| - 1], v);
      assert at == at[..|at| - 1] + [at[|at| - 1]];
    }
  }


  lemma SumAtSnoc(v: seq<real>, open: seq<nat>, i: nat)
    requires i < |v| && Within(open, |v|)
    ensures SumAt(v, open + [i]) == SumAt(v, open) + v[i]
  {
    assert (open + [i])[..|open|] == open;
  }

  lemma {:induction false} SumAtSplit(v: seq<real>, open: seq<nat>, proposed: seq<real>, caps: seq<real>)
    requires |v| == |proposed| == |caps| && Within(open, |caps|)
    ensures SumAt(v, open) == SumAt(v, CappedOf(open, proposed, caps)) + SumAt(v, StillOpen(open, proposed, caps))
  {
    if open != [] {
      var front, last := open[..|open| - 1], open[|open| - 1];
      SumAtSplit(v, front, proposed, caps);
      SumAtSnoc(v, CappedOf(front, proposed, caps), last);
      SumAtSnoc(v, StillOpen(front, proposed, caps), last);
    }
  }

  lemma {:induction false} SumAtOrder(v: seq<real>, u: seq<real>, open: seq<nat>)
    requires |v| == |u| && Within(open, |v|)
    requires forall i :: i in open ==> v[i] <= u[i]
    ensures SumAt(v, open) <= SumAt(u, open)
  {
    if open != [] { SumAtOrder(v, u, open[..|open| - 1]); }
  }

  lemma {:induction false} SumAtScaled(v: seq<real>, u: seq<real>, k: real, open: seq<nat>)
    requires |v| == |u| && Within(open, |v|)
    requires forall i :: i in open ==> v[i] == k * u[i]
    ensures SumAt(v, open) == k * SumAt(u, open)
  {
    if open != [] {
      SumAtScaled(v, u, k, open[..|open| - 1]);
      assert k * SumAt(u, open) == k * SumAt(u, open[..|open| - 1]) + k * u[open[|open| - 1]];
    }
  }

  lemma {:induction false} SumAtConstant(v: seq<real>, c: real, open: seq<nat>)
    requires Within(open, |v|) && forall i :: i in open ==> v[i] == c
    ensures SumAt(v, open) == |open| as real * c
  {
    if open != [] { SumAtConstant(v, c, open[..|open| - 1]); }
  }

  lemma {:induction false} SumAtNonNegative(v: seq<real>, open: seq<nat>)
    requires NonNegative(v) && Within(open, |v|)
    ensures SumAt(v, open) >= 0.0
    ensures (exists i :: i in open && v[i] > 0.0) ==> SumAt(v, open) > 0.0
  {
    if open != [] { SumAtNonNegative(v, open[..|open| - 1]); }
  }

  lemma {:induction false} SumAssign(shares: seq<real>, at: seq<nat>, v: seq<real>)
    requires |shares| == |v| && Distinct(at)
    requires Within(at, |v|) && forall i :: i in at ==> shares[i] == 0.0
    ensures Sum(Assign(shares, at, v)) == Sum(shares) + SumAt(v, at)
  {
    if at != [] {
      var front, last := at[..|at| - 1], at[|at| - 1];
      SumAssign(shares, front, v);
      AssignAt(shares, front, v);
      SumUpdate(Assign(shares, front, v), last, v[last]);
    }
  }

  lemma {:induction false} FiltersDistinct(open: seq<nat>, proposed: seq<real>, caps: seq<real>)
    requires |proposed| == |caps| && Distinct(open) && Within(open, |caps|)
    ensures Distinct(CappedOf(open, proposed, caps))
    ensures Distinct(StillOpen(open, proposed, caps))
  {
    if open != [] {
      FiltersDistinct(open[..|open| - 1], proposed, caps);
      FilterMembers(open[..|open| - 1], proposed, caps);
    }
  }

  // ----- the filling invariant: the line never falls between rounds

  ghost predicate Filling(caps: seq<real>, weights: seq<real>, total: real, round: Round, line: seq<real>) {
    var Round(demand, open, shares) := round;
    && |caps| == |weights| == |shares| == |line|
    && NonNegative(caps) && NonNegative(weights) && NonNegative(line)
    && Distinct(open) && Within(open, |caps|)
    && demand >= 0.0
    && (forall i :: 0 <= i < |shares| ==> shares[i] == if i in open then 0.0 else caps[i])
    && Sum(shares) + demand == total
    && (forall i :: 0 <= i < |caps| && i !in open ==> caps[i] <= line[i])
    && SumAt(line, open) <= demand
    && ((exists i :: i in open && weights[i] > 0.0) ==> Dry(weights, line))
  }

  /** Nothing has spilled over to the weightless children. */
  ghost predicate Dry(weights: seq<real>, line: seq<real>)
    requires |weights| == |line|
  {
    forall j :: 0 <= j < |line| && weights[j] == 0.0 ==> line[j] == 0.0
  }

  lemma MulMono(w: real, a: real, b: real)
    requires w >= 0.0 && a <= b
    ensures w * a <= w * b
  {
  }

  /** A level that fits the demand is at most the level that uses all of it. */
  lemma LevelRises(width: real, level: real, offer: real, demand: real)
    requires width > 0.0 && level * width <= demand && offer * width == demand
    ensures level <= offer
  {
    assert level == (level * width) / width;
  }

  lemma ShareOfTotal(demand: real, w: real, weightSum: real)
    requires weightSum > 0.0
    ensures demand * (w / weightSum) == (demand / weightSum) * w
    ensures (demand / weightSum) * weightSum == demand
  {
  }

  /** Some open child carries weight exactly when the open weights do not sum to zero. */
  lemma OpenWeight(weights: seq<real>, open: seq<nat>)
    requires NonNegative(weights) && Within(open, |weights|)
    ensures SumAt(weights, open) > 0.0 <==> exists i :: i in open && weights[i] > 0.0
  {
    SumAtNonNegative(weights, open);
    if forall i :: i in open ==> weights[i] <= 0.0 {
      SumAtConstant(weights, 0.0, open);
      assert SumAt(weights, open) == 0.0;
    }
  }

  /** The offers of a round are a water line nowhere below the last one, on
      which the open children take exactly the demand. */
  ghost predicate Raised(weights: seq<real>, demand: real, open: seq<nat>, proposed: seq<real>, line: seq<real>,
          line': seq<real>)
    requires Within(open, |weights|) && |line| == |weights| == |proposed|
  {
    && |line'| == |line|
    && (forall i :: 0 <= i < |line| ==> line[i] <= line'[i])
    && (forall i :: i in open ==> line'[i] == proposed[i])
    && SumAt(line', open) == demand
    && ((exists i :: i in open && weights[i] > 0.0) ==> Dry(weights, line'))
  }

  lemma WeightedOffer(weights: seq<real>, demand: real, open: seq<nat>) returns (offer: real, width: real)
    requires open != [] && Within(open, |weights|) && SumAt(weights, open) > 0.0
    ensures width == SumAt(weights, open) && offer * width == demand
    ensures forall i :: 0 <= i < |weights| ==> Proposed(weights, demand, open)[i] == offer * weights[i]
  {
    width := SumAt(weights, open);
    offer := demand / width;
    ShareOfTotal(demand, 1.0, width);
    forall i | 0 <= i < |weights| ensures Proposed(weights, demand, open)[i] == offer * weights[i] {
      ShareOfTotal(demand, weights[i], width);
    }
  }

  lemma DryLine(line: seq<real>, weights: seq<real>, level: real, spill: real)
    requires LineAt(line, weights, level, spill) && Dry(weights, line) && NonNegative(weights)
    ensures forall i :: 0 <= i < |line| ==> line[i] == level * weights[i]
  {
  }

  /** Two levels of one weighting order their lines the same way. */
  lemma LinesOrdered(weights: seq<real>, level: real, level': real, line: seq<real>, line': seq<real>)
    requires |line| == |line'| == |weights| && NonNegative(weights) && level <= level'
    requires forall i :: 0 <= i < |line| ==> line[i] == level * weights[i]
    requires forall i :: 0 <= i < |line| ==> line'[i] == level' * weights[i]
    ensures forall i :: 0 <= i < |line| ==> line[i] <= line'[i]
  {
    forall i | 0 <= i < |line| ensures line[i] <= line'[i] {
      MulMono(weights[i], level, level');
    }
  }

  /** What the open children take at a level is that level times their weights. */
  lemma LevelUse(v: seq<real>, weights: seq<real>, level: real, open: seq<nat>, width: real, used: real)
    requires |v| == |weights| && Within(open, |weights|)
    requires forall i :: 0 <= i < |v| ==> v[i] == level * weights[i]
    requires width == SumAt(weights, open) && used == SumAt(v, open)
    ensures used == level * width
  {
    SumAtScaled(v, weights, level, open);
  }

  lemma OfferAboveLevel(weights: seq<real>, demand: real, open: seq<nat>, proposed: seq<real>, level: real,
          offer: real, width: real, line: seq<real>)
    requires Within(open, |weights|) && |proposed| == |line| == |weights|
    requires SumAt(weights, open) == width > 0.0 && offer * width == demand
    requires forall i :: 0 <= i < |weights| ==> proposed[i] == offer * weights[i]
    requires forall i :: 0 <= i < |weights| ==> line[i] == level * weights[i]
    requires SumAt(line, open) <= demand
    ensures level <= offer && SumAt(proposed, open) == demand
  {
    LevelUse(line, weights, level, open, width, SumAt(line, open));
    LevelUse(proposed, weights, offer, open, width, SumAt(proposed, open));
    LevelRises(width, level, offer, demand);
  }

  lemma RaiseWeightless(weights: seq<real>, demand: real, open: seq<nat>, line: seq<real>) returns (line': seq<real>)
    requires NonNegative(weights) && open != [] && Within(open, |weights|) && demand > 0.0
    requires SumAt(weights, open) <= 0.0
    requires IsLine(line, weights) && SumAt(line, open) <= demand
    ensures Raised(weights, demand, open, Proposed(weights, demand, open), line, line') && IsLine(line', weights)
  {
    var level, spill :| LineAt(line, weights, level, spill);
    var offer := demand * (1.0 / |open| as real);
    OpenWeight(weights, open);
    ShareOfTotal(demand, 1.0, |open| as real);
    SpillRises(weights, demand, open, line, level, spill, offer);
    line' := Spilled(weights, line, offer);
    SumAtConstant(line', offer, open);
    assert LineAt(line', weights, level, offer);
  }

  /** The line with every weightless child at `offer`. */
  function Spilled(weights: seq<real>, line: seq<real>, offer: real): (r: seq<real>)
    requires |weights| == |line|
    ensures |r| == |line| && forall i :: 0 <= i < |r| ==> r[i] == if weights[i] > 0.0 then line[i] else offer
  {
    seq(|line|, i requires 0 <= i < |line| => if weights[i] > 0.0 then line[i] else offer)
  }

  lemma SpillRises(weights: seq<real>, demand: real, open: seq<nat>, line: seq<real>,
          level: real, spill: real, offer: real)
    requires open != [] && Within(open, |weights|) && LineAt(line, weights, level, spill)
    requires forall i :: i in open ==> weights[i] <= 0.0
    requires SumAt(line, open) <= demand && offer * |open| as real == demand
    ensures spill <= offer
  {
    SumAtConstant(line, spill, open);
    LevelRises(|open| as real, spill, offer, demand);
  }

  lemma Raise(weights: seq<real>, demand: real, open: seq<nat>, line: seq<real>) returns (line': seq<real>)
    requires NonNegative(weights) && open != [] && Within(open, |weights|) && demand > 0.0
    requires IsLine(line, weights) && SumAt(line, open) <= demand
    requires (exists i :: i in open && weights[i] > 0.0) ==> Dry(weights, line)
    ensures Raised(weights, demand, open, Proposed(weights, demand, open), line, line') && IsLine(line', weights)
  {
    OpenWeight(weights, open);
    if SumAt(weights, open) > 0.0 {
      var offer, width := WeightedOffer(weights, demand, open);
      line' := Proposed(weights, demand, open);
      var level, spill :| LineAt(line, weights, level, spill);
      DryLine(line, weights, level, spill);
      OfferAboveLevel(weights, demand, open, line', level, offer, width, line);
      LinesOrdered(weights, level, offer, line, line');
      assert LineAt(line', weights, offer, 0.0);
    } else {
      line' := RaiseWeightless(weights, demand, open, line);
    }
  }

  /** A round that caps someone keeps the invariant at the raised line. */
  lemma CappingRound(caps: seq<real>, weights: seq<real>, total: real, demand: real, open: seq<nat>,
          shares: seq<real>, proposed: seq<real>, line: seq<real>, line': seq<real>)
    requires Filling(caps, weights, total, Round(demand, open, shares), line)
    requires |proposed| == |caps| && Raised(weights, demand, open, proposed, line, line')
    ensures var capped := CappedOf(open, proposed, caps);
            var rest := StillOpen(open, proposed, caps);
            var next := Round(demand - SumAt(caps, capped), rest, Assign(shares, capped, caps));
            && Filling(caps, weights, total, next, line')
            && NoLess(shares, Assign(shares, capped, caps))
  {
    var capped, rest := CappedOf(open, proposed, caps), StillOpen(open, proposed, caps);
    var shares' := Assign(shares, capped, caps);
    FiltersDistinct(open, proposed, caps);
    FilterMembers(open, proposed, caps);
    AssignAt(shares, capped, caps);
    SumAssign(shares, capped, caps);
    SumAtSplit(line', open, proposed, caps);
    forall i | i in capped ensures caps[i] <= line'[i] { assert i in open; }
    SumAtOrder(caps, line', capped);
    SumAtNonNegative(line', rest);
    forall i | 0 <= i < |caps| && i !in rest ensures caps[i] <= line'[i] && shares'[i] == caps[i] {
      if i in open { assert i in capped; }
    }
    forall i | i in rest ensures shares'[i] == 0.0 {
      assert i in open && i !in capped;
    }
  }

  /** A round that caps no one hands out the rest of the demand exactly. */
  lemma FinalRound(caps: seq<real>, weights: seq<real>, total: real, demand: real, open: seq<nat>,
          shares: seq<real>, proposed: seq<real>, line: seq<real>, line': seq<real>)
    requires Filling(caps, weights, total, Round(demand, open, shares), line)
    requires |proposed| == |caps| && Raised(weights, demand, open, proposed, line, line')
    requires CappedOf(open, proposed, caps) == []
    ensures FillsTo(Assign(shares, open, proposed), caps, weights, total, line')
    ensures NoLess(shares, Assign(shares, open, proposed))
  {
    var result := Assign(shares, open, proposed);
    FilterMembers(open, proposed, caps);
    AssignAt(shares, open, proposed);
    SumAssign(shares, open, proposed);
    forall i | i in open ensures proposed[i] < caps[i] {
      assert i !in CappedOf(open, proposed, caps);
    }
    SumAtOrder(proposed, line', open);
    SumAtOrder(line', proposed, open);
    SumOrder(result, caps);
  }

  /** Filling ends with nothing left to give, or nobody left to give to. */
  lemma Finished(caps: seq<real>, weights: seq<real>, total: real, round: Round, line: seq<real>)
    requires Filling(caps, weights, total, round, line)
    requires round.demand <= 0.0 || round.open == []
    ensures FillsTo(round.shares, caps, weights, total, line)
  {
    SumOrder(round.shares, caps);
    SumAtNonNegative(line, round.open);
    if round.open == [] { assert round.shares == caps; }
  }

  lemma Filled(shares: seq<real>, caps: seq<real>, weights: seq<real>, total: real, line: seq<real>)
    requires IsLine(line, weights) && FillsTo(shares, caps, weights, total, line)
    ensures IsFill(shares, caps, weights, total)
  {
  }

  lemma {:induction false} FillFromIsFill(caps: seq<real>, weights: seq<real>, total: real, round: Round,
          line: seq<real>)
    requires Fits(caps, weights, round) && Filling(caps, weights, total, round, line) && IsLine(line, weights)
    ensures IsFill(FillFrom(caps, weights, round, 0.0), caps, weights, total)
    ensures NoLess(round.shares, FillFrom(caps, weights, round, 0.0))
    decreases |round.open|
  {
    var Round(demand, open, shares) := round;
    if demand <= 0.0 || open == [] {
      Finished(caps, weights, total, round, line);
      Filled(shares, caps, weights, total, line);
    } else {
      var next := NextRound(caps, weights, round);
      var proposed := Proposed(weights, demand, open);
      var line' := Raise(weights, demand, open, line);
      if CappedOf(open, proposed, caps) == [] {
        FinalRound(caps, weights, total, demand, open, shares, proposed, line, line');
        Filled(next.shares, caps, weights, total, line');
      } else {
        CappingRound(caps, weights, total, demand, open, shares, proposed, line, line');
        FillFromIsFill(caps, weights, total, next, line');
      }
    }
  }

  /** What a round still owes the exact filling is at most its demand. */
  lemma Owed(caps: seq<real>, weights: seq<real>, total: real, round: Round, line: seq<real>, exact: seq<real>)
    requires Filling(caps, weights, total, round, line) && IsFill(exact, caps, weights, total)
    ensures NonNegative(round.shares) && Sum(exact) - Sum(round.shares) <= round.demand
  {
  }

  /** Stopping at a threshold keeps every share and loses at most the threshold in all. */
  lemma {:induction false} ThresholdLoss(caps: seq<real>, weights: seq<real>, total: real, round: Round,
          line: seq<real>, threshold: real)
    requires Fits(caps, weights, round) && Filling(caps, weights, total, round, line) && IsLine(line, weights)
    requires threshold >= 0.0
    ensures var exact, given := FillFrom(caps, weights, round, 0.0), FillFrom(caps, weights, round, threshold);
            && NonNegative(given) && NoLess(given, exact)
            && Sum(exact) - Sum(given) <= threshold
    decreases |round.open|
  {
    var Round(demand, open, shares) := round;
    FillFromIsFill(caps, weights, total, round, line);
    Owed(caps, weights, total, round, line, FillFrom(caps, weights, round, 0.0));
    if demand > threshold && open != [] {
      var next := NextRound(caps, weights, round);
      var proposed := Proposed(weights, demand, open);
      var line' := Raise(weights, demand, open, line);
      if CappedOf(open, proposed, caps) != [] {
        CappingRound(caps, weights, total, demand, open, shares, proposed, line, line');
        ThresholdLoss(caps, weights, total, next, line', threshold);
      }
    }
  }

  // ----- the program's allocation

  /** Share magnitudes of the eligible children, as the program's loop leaves them. */
  function Magnitudes(total: real, eligible: seq<ChildCapacity>, policy: Policy): (r: seq<real>)
    ensures |r| == |eligible|
  {
    var weights := PolicyWeights(policy, eligible, Sign(total));
    FillFrom(CapsOf(eligible), weights, FirstRound(|eligible|, Abs(total)), EPSILON)
  }

  function Signed(eligible: seq<ChildCapacity>, sign: real, magnitudes: seq<real>): (r: seq<Share>)
    requires |eligible| == |magnitudes|
    ensures |r| == |eligible|
    ensures forall i :: 0 <= i < |r| ==> r[i] == Share(eligible[i].deviceId, sign * magnitudes[i])
  {
    seq(|eligible|, i requires 0 <= i < |eligible| => Share(eligible[i].deviceId, sign * magnitudes[i]))
  }

  function Allocated(total: real, children: seq<ChildCapacity>, policy: Policy): (r: seq<Share>) {
    var eligible := EligibleOf(children);
    Signed(eligible, Sign(total), Magnitudes(total, eligible, policy))
  }

  /** Weights are non-negative whenever states of charge are percentages. */
  lemma WeightsNonNegative(policy: Policy, eligible: seq<ChildCapacity>, sign: real)
    requires Weighable(policy, eligible)
    ensures NonNegative(PolicyWeights(policy, eligible, sign))
  {
    forall i | 0 <= i < |eligible| ensures PolicyWeights(policy, eligible, sign)[i] >= 0.0 {
      if policy == SocWeighted { assert eligible[i] in eligible; }
    }
  }

  lemma FirstRoundFilling(caps: seq<real>, weights: seq<real>, total: real)
    requires |caps| == |weights| && NonNegative(caps) && NonNegative(weights) && total >= 0.0
    ensures Filling(caps, weights, total, FirstRound(|caps|, total), Zeros(|caps|)) && IsLine(Zeros(|caps|), weights)
  {
    var n := |caps|;
    SumZero(Zeros(n));
    forall i | 0 <= i < n ensures i in Indices(n) { assert Indices(n)[i] == i; }
    SumAtConstant(Zeros(n), 0.0, Indices(n));
    assert LineAt(Zeros(n), weights, 0.0, 0.0);
  }

  /** Every filling has the water-level form, whatever the caps, weights and total. */
  lemma FillIsFill(caps: seq<real>, weights: seq<real>, total: real)
    requires |caps| == |weights| && NonNegative(caps) && NonNegative(weights) && total >= 0.0
    ensures IsFill(Fill(caps, weights, total), caps, weights, total)
  {
    FirstRoundFilling(caps, weights, total);
    FillFromIsFill(caps, weights, total, FirstRound(|caps|, total), Zeros(|caps|));
  }

  /** What the program hands out is the filling of the request, short by at
      most `EPSILON` in all and never past it for any child. */
  lemma AllocationIsNearFill(total: real, eligible: seq<ChildCapacity>, policy: Policy)
    requires Weighable(policy, eligible)
    ensures var caps, weights := CapsOf(eligible), PolicyWeights(policy, eligible, Sign(total));
            var exact, given := Fill(caps, weights, Abs(total)), Magnitudes(total, eligible, policy);
            && IsFill(exact, caps, weights, Abs(total))
            && (forall i :: 0 <= i < |given| ==> 0.0 <= given[i] <= exact[i] <= caps[i])
            && Sum(exact) == Min(Abs(total), Sum(caps))
            && Sum(exact) - EPSILON <= Sum(given) <= Sum(exact)
  {
    var caps, weights := CapsOf(eligible), PolicyWeights(policy, eligible, Sign(total));
    var exact, given := Fill(caps, weights, Abs(total)), Magnitudes(total, eligible, policy);
    WeightsNonNegative(policy, eligible, Sign(total));
    FirstRoundFilling(caps, weights, Abs(total));
    FillIsFill(caps, weights, Abs(total));
    ThresholdLoss(caps, weights, Abs(total), FirstRound(|caps|, Abs(total)), Zeros(|caps|), EPSILON);
    SumOrder(given, exact);
  }

  /** One more child in the capping pass. */
  lemma CapOne(caps: seq<real>, proposed: seq<real>, open: seq<nat>, before: seq<real>)
    requires |caps| == |proposed| == |before| && Within(open, |caps|) && open != []
    ensures var last, front := open[|open| - 1], open[..|open| - 1];
            var capped := CappedOf(front, proposed, caps);
            if proposed[last] >= caps[last] then
              && StillOpen(open, proposed, caps) == StillOpen(front, proposed, caps)
              && CappedOf(open, proposed, caps) != []
              && SumAt(caps, CappedOf(open, proposed, caps)) == SumAt(caps, capped) + caps[last]
              && Assign(before, CappedOf(open, proposed, caps), caps) ==
                 Assign(before, capped, caps)[last := caps[last]]
            else
              && StillOpen(open, proposed, caps) == StillOpen(front, proposed, caps) + [last]
              && CappedOf(open, proposed, caps) == capped
  {
    var last, front := open[|open| - 1], open[..|open| - 1];
    var capped := CappedOf(front, proposed, caps);
    SumAtSnoc(caps, capped, last);
    assert (capped + [last])[..|capped|] == capped;
  }

  /** The capping pass over one round's offers. */
  method CapRound(caps: seq<real>, proposed: seq<real>, open: seq<nat>, before: seq<real>)
    returns (stillOpen: seq<nat>, consumed: real, anyCapped: bool, shares: seq<real>)
    requires |caps| == |proposed| == |before| && Within(open, |caps|)
    ensures stillOpen == StillOpen(open, proposed, caps)
    ensures consumed == SumAt(caps, CappedOf(open, proposed, caps))
    ensures anyCapped <==> CappedOf(open, proposed, caps) != []
    ensures shares == Assign(before, CappedOf(open, proposed, caps), caps)
  {
    stillOpen, consumed, anyCapped, shares := [], 0.0, false, before;
    for k := 0 to |open|
      invariant |shares| == |caps|
      invariant stillOpen == StillOpen(open[..k], proposed, caps)
      invariant consumed == SumAt(caps, CappedOf(open[..k], proposed, caps))
      invariant shares == Assign(before, CappedOf(open[..k], proposed, caps), caps)
      invariant anyCapped <==> CappedOf(open[..k], proposed, caps) != []
    {
      CapOne(caps, proposed, open[..k + 1], before);
      assert open[..k + 1][..k] == open[..k];
      if proposed[open[k]] >= caps[open[k]] {
        shares := shares[open[k] := caps[open[k]]];
        consumed := consumed + caps[open[k]];
        anyCapped := true;
      } else {
        stillOpen := stillOpen + [open[k]];
      }
    }
    assert open[..|open|] == open;
  }

  /** The pass that hands every open child its offer. */
  method TakeOffers(proposed: seq<real>, open: seq<nat>, before: seq<real>) returns (shares: seq<real>)
    requires |proposed| == |before| && Within(open, |before|)
    ensures shares == Assign(before, open, proposed)
  {
    shares := before;
    for k := 0 to |open|
      invariant |shares| == |before|
      invariant shares == Assign(before, open[..k], proposed)
    {
      assert open[..k + 1][..k] == open[..k];
      shares := shares[open[k] := proposed[open[k]]];
    }
    assert open[..|open|] == open;
  }

  /** The program's loop. */
  method Allocate(total: real, children: seq<ChildCapacity>, policy: Policy) returns (r: seq<Share>)
    ensures r == Allocated(total, children, policy)
  {
    var eligible := EligibleOf(children);
    if eligible == [] { return []; }
    var sign := Sign(total);
    var caps, weights := CapsOf(eligible), PolicyWeights(policy, eligible, sign);
    var round := FirstRound(|eligible|, Abs(total));
    while round.demand > EPSILON && round.open != []
      invariant Fits(caps, weights, round)
      invariant FillFrom(caps, weights, round, EPSILON) == Magnitudes(total, eligible, policy)
      decreases |round.open|, if round.demand > EPSILON then 1 else 0
    {
      ghost var before := round;
      var proposed := Proposed(weights, round.demand, round.open);
      var stillOpen, consumed, anyCapped, shares := CapRound(caps, proposed, round.open, round.shares);
      if anyCapped {
        round := Round(round.demand - consumed, stillOpen, shares);
      } else {
        shares := TakeOffers(proposed, round.open, round.shares);
        round := Round(0.0, round.open, shares);
      }
      assert round == NextRound(caps, weights, before);
    }
    r := Signed(eligible, sign, round.shares);
  }
}
