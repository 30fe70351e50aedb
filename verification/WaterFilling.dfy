/** The filling is the only one of its kind, so what it does to a child follows
    from the water line alone: it is monotone in the total, shields every child
    from its neighbours' headroom, and does not depend on the children's order. */
module WaterFilling {
  import opened Numbers
  import opened Allocation

  ghost predicate Inputs(caps: seq<real>, weights: seq<real>) {
    |caps| == |weights| && NonNegative(caps) && NonNegative(weights)
  }

  lemma LevelsCompare(w: real, level: real, level': real)
    requires w > 0.0
    ensures w * level < w * level' ==> level < level'
  {
    if level' <= level { MulMono(w, level', level); }
  }

  lemma LineNonNegative(weights: seq<real>, line: seq<real>)
    requires NonNegative(weights) && IsLine(line, weights)
    ensures NonNegative(line)
  {
    var level, spill :| LineAt(line, weights, level, spill);
    forall i | 0 <= i < |weights| ensures 0.0 <= line[i] {
      MulMono(weights[i], 0.0, level);
    }
  }

  lemma LinesCompare(weights: seq<real>, line: seq<real>, line': seq<real>, j: nat)
    requires NonNegative(weights) && IsLine(line, weights) && IsLine(line', weights)
    requires j < |weights| && line[j] < line'[j]
    ensures forall i :: 0 <= i < |weights| && (weights[i] > 0.0 <==> weights[j] > 0.0) ==> line[i] <= line'[i]
    ensures NonNegative(line) && NonNegative(line')
  {
    var level, spill :| LineAt(line, weights, level, spill);
    var level', spill' :| LineAt(line', weights, level', spill');
    LineNonNegative(weights, line);
    LineNonNegative(weights, line');
    if weights[j] > 0.0 {
      LevelsCompare(weights[j], level, level');
      forall i | 0 <= i < |weights| && weights[i] > 0.0 ensures line[i] <= line'[i] {
        MulMono(weights[i], level, level');
      }
    }
  }

  /** Fillings cannot cross: when no cap shrinks and one child of unchanged cap
      gets strictly more, no child gets less. */
  lemma FillsDoNotCross(caps: seq<real>, caps': seq<real>, weights: seq<real>, total: real, total': real,
          shares: seq<real>, shares': seq<real>, j: nat)
    requires Inputs(caps, weights) && Inputs(caps', weights)
    requires forall i :: 0 <= i < |caps| ==> caps[i] <= caps'[i]
    requires IsFill(shares, caps, weights, total) && IsFill(shares', caps', weights, total')
    requires j < |caps| && caps[j] == caps'[j] && shares[j] < shares'[j]
    ensures forall i :: 0 <= i < |caps| ==> shares[i] <= shares'[i]
  {
    var line :| IsLine(line, weights) && FillsTo(shares, caps, weights, total, line);
    var line' :| IsLine(line', weights) && FillsTo(shares', caps', weights, total', line');
    LinesCompare(weights, line, line', j);
    forall i | 0 <= i < |caps| ensures shares[i] <= shares'[i] {
      if weights[j] > 0.0 && weights[i] == 0.0 {
        assert line[i] <= 0.0;
      } else if weights[j] == 0.0 && weights[i] > 0.0 {
        assert line'[j] > 0.0;
        assert shares'[i] == caps'[i];
      }
    }
  }

  lemma SharesWithinCaps(caps: seq<real>, weights: seq<real>, total: real, shares: seq<real>)
    requires IsFill(shares, caps, weights, total)
    ensures |shares| == |caps| && Sum(shares) == Min(total, Sum(caps))
    ensures forall i :: 0 <= i < |caps| ==> shares[i] <= caps[i]
    ensures total >= Sum(caps) ==> shares == caps
  {
    SumOrder(shares, caps);
  }

  /** Raising the total lowers nobody's share. */
  lemma TotalMonotone(caps: seq<real>, weights: seq<real>, total: real, total': real, shares: seq<real>,
          shares': seq<real>)
    requires Inputs(caps, weights) && total <= total'
    requires IsFill(shares, caps, weights, total) && IsFill(shares', caps, weights, total')
    ensures forall i :: 0 <= i < |caps| ==> shares[i] <= shares'[i]
  {
    forall j | 0 <= j < |caps| ensures shares[j] <= shares'[j] {
      if shares'[j] < shares[j] {
        FillsDoNotCross(caps, caps, weights, total', total, shares', shares, j);
        SumOrder(shares', shares);
      }
    }
  }

  /** There is only one filling of given caps, weights and total. */
  lemma FillIsUnique(caps: seq<real>, weights: seq<real>, total: real, shares: seq<real>, shares': seq<real>)
    requires Inputs(caps, weights)
    requires IsFill(shares, caps, weights, total) && IsFill(shares', caps, weights, total)
    ensures shares == shares'
  {
    TotalMonotone(caps, weights, total, total, shares, shares');
    TotalMonotone(caps, weights, total, total, shares', shares);
  }

  /** Raising one child's headroom raises no other child's share, and does not
      lower its own. */
  lemma HeadroomMonotone(caps: seq<real>, weights: seq<real>, total: real, k: nat, cap: real, shares: seq<real>,
          shares': seq<real>)
    requires Inputs(caps, weights) && k < |caps| && caps[k] <= cap
    requires IsFill(shares, caps, weights, total) && IsFill(shares', caps[k := cap], weights, total)
    ensures forall i :: 0 <= i < |caps| && i != k ==> shares'[i] <= shares[i]
    ensures shares[k] <= shares'[k]
  {
    var caps' := caps[k := cap];
    SumUpdate(caps, k, cap);
    SharesWithinCaps(caps, weights, total, shares);
    SharesWithinCaps(caps', weights, total, shares');
    forall j | 0 <= j < |caps| && j != k ensures shares'[j] <= shares[j] {
      if shares[j] < shares'[j] {
        FillsDoNotCross(caps, caps', weights, total, total, shares, shares', j);
        SumOrder(shares, shares');
      }
    }
    if shares'[k] < shares[k] { SumOrder(shares', shares); }
  }

  // ----- reordering the children

  /** `v` read in the order `order`. */
  function Gather<T>(v: seq<T>, order: seq<nat>): (r: seq<T>)
    requires Within(order, |v|)
    ensures |r| == |order| && forall i :: 0 <= i < |order| ==> r[i] == v[order[i]]
  {
    seq(|order|, i requires 0 <= i < |order| => v[order[i]])
  }

  ghost predicate IsReordering(order: seq<nat>, n: nat) {
    multiset(order) == multiset(Indices(n))
  }

  function Without(q: seq<nat>, k: nat): (r: seq<nat>)
    requires k < |q|
    ensures |r| == |q| - 1
  {
    q[..k] + q[k + 1..]
  }

  lemma GatherSnoc(v: seq<real>, q: seq<nat>, x: nat)
    requires Within(q, |v|) && x < |v|
    ensures Within(q + [x], |v|) && Sum(Gather(v, q + [x])) == Sum(Gather(v, q)) + v[x]
  {
    assert Gather(v, q + [x]) == Gather(v, q) + [v[x]];
    SumSnoc(Gather(v, q), v[x]);
  }

  lemma {:induction false} GatherWithout(v: seq<real>, q: seq<nat>, k: nat)
    requires Within(q, |v|) && k < |q|
    ensures Within(Without(q, k), |v|)
    ensures Sum(Gather(v, q)) == Sum(Gather(v, Without(q, k))) + v[q[k]]
  {
    var front, last := q[..|q| - 1], q[|q| - 1];
    assert q == front + [last];
    GatherSnoc(v, front, last);
    if k < |front| {
      GatherWithout(v, front, k);
      GatherSnoc(v, Without(front, k), last);
      assert Without(q, k) == Without(front, k) + [last];
    } else {
      assert Without(q, k) == front;
    }
  }

  lemma WithoutOne(q: seq<nat>, k: nat)
    requires k < |q|
    ensures multiset(Without(q, k)) == multiset(q) - multiset{q[k]}
  {
    assert q == q[..k] + [q[k]] + q[k + 1..];
  }

  lemma {:induction false} GatherSum(v: seq<real>, p: seq<nat>, q: seq<nat>)
    requires Within(p, |v|) && Within(q, |v|) && multiset(p) == multiset(q)
    ensures Sum(Gather(v, p)) == Sum(Gather(v, q))
    decreases |p|
  {
    if p == [] {
      assert |multiset(q)| == 0;
    } else {
      assert p[0] in multiset(q);
      var k :| 0 <= k < |q| && q[k] == p[0];
      GatherWithout(v, p, 0);
      WithoutOne(p, 0);
      WithoutOne(q, k);
      GatherWithout(v, q, k);
      GatherSum(v, Without(p, 0), Without(q, k));
    }
  }

  lemma ReorderedSum(v: seq<real>, order: seq<nat>)
    requires IsReordering(order, |v|) && Within(order, |v|)
    ensures Sum(Gather(v, order)) == Sum(v)
  {
    GatherSum(v, order, Indices(|v|));
    assert Gather(v, Indices(|v|)) == v;
  }

  lemma ReorderingWithin(order: seq<nat>, n: nat)
    requires IsReordering(order, n)
    ensures Within(order, n) && |order| == n
  {
    assert |multiset(order)| == |multiset(Indices(n))|;
    forall k | 0 <= k < |order| ensures order[k] < n {
      assert order[k] in multiset(Indices(n));
      assert order[k] in Indices(n);
    }
  }

  lemma GatherLine(line: seq<real>, weights: seq<real>, level: real, spill: real, order: seq<nat>)
    requires LineAt(line, weights, level, spill) && Within(order, |line|)
    ensures LineAt(Gather(line, order), Gather(weights, order), level, spill)
  {
  }

  lemma GatherFills(shares: seq<real>, caps: seq<real>, weights: seq<real>, total: real, line: seq<real>,
          order: seq<nat>)
    requires FillsTo(shares, caps, weights, total, line) && IsReordering(order, |caps|) && Within(order, |caps|)
    ensures FillsTo(Gather(shares, order), Gather(caps, order), Gather(weights, order), total, Gather(line, order))
  {
    ReorderedSum(caps, order);
    ReorderedSum(shares, order);
    if i :| 0 <= i < |order| && weights[order[i]] == 0.0 && line[order[i]] > 0.0 {
      assert weights[order[i]] == 0.0;
    }
  }

  /** Reordering the children reorders their shares with them. */
  lemma ReorderingInvariant(caps: seq<real>, weights: seq<real>, total: real, order: seq<nat>, shares: seq<real>,
          shares': seq<real>)
    requires Inputs(caps, weights) && IsReordering(order, |caps|) && Within(order, |caps|)
    requires IsFill(shares, caps, weights, total)
    requires IsFill(shares', Gather(caps, order), Gather(weights, order), total)
    ensures |shares| == |caps| && shares' == Gather(shares, order)
  {
    ReorderingWithin(order, |caps|);
    var caps', weights' := Gather(caps, order), Gather(weights, order);
    var line :| IsLine(line, weights) && FillsTo(shares, caps, weights, total, line);
    var level, spill :| LineAt(line, weights, level, spill);
    var moved, line' := Gather(shares, order), Gather(line, order);
    GatherLine(line, weights, level, spill, order);
    GatherFills(shares, caps, weights, total, line, order);
    Filled(moved, caps', weights', total, line');
    FillIsUnique(caps', weights', total, shares', moved);
  }
}
