/** The order of child writes, so that shares moving between children never put
    more power on the bus than before or after the move. */
module WriteOrder {
  import opened Numbers
  import opened Allocation

  /** A child that gives up more than this share of its output is handing it over. */
  const HANDOFF_MIN_FRACTION: real := 0.01

  /** What a child holds; one never written counts as 0. */
  function Level(held: map<string, real>, id: string): real {
    if id in held then held[id] else 0.0
  }

  /** How much a write grows its child's output magnitude. */
  function Growth(w: Share, last: map<string, real>): real {
    Abs(w.watts) - Abs(Level(last, w.deviceId))
  }

  predicate MaterialShrink(w: Share, last: map<string, real>) {
    -Growth(w, last) > HANDOFF_MIN_FRACTION * Abs(Level(last, w.deviceId))
  }

  /** Stable insertion: `w` goes after every write that grows no more than it. */
  function InsertByGrowth(ordered: seq<Share>, w: Share, last: map<string, real>): (r: seq<Share>)
    ensures multiset(r) == multiset(ordered) + multiset{w}
  {
    if ordered == [] || Growth(ordered[|ordered| - 1], last) <= Growth(w, last) then ordered + [w]
    else
      assert ordered == ordered[..|ordered| - 1] + [ordered[|ordered| - 1]];
      InsertByGrowth(ordered[..|ordered| - 1], w, last) + [ordered[|ordered| - 1]]
  }

  /** The library's stable sort by growth. */
  function ReductionsFirst(changed: seq<Share>, last: map<string, real>): (r: seq<Share>)
    ensures multiset(r) == multiset(changed)
  {
    if changed == [] then []
    else
      assert changed == changed[..|changed| - 1] + [changed[|changed| - 1]];
      InsertByGrowth(ReductionsFirst(changed[..|changed| - 1], last), changed[|changed| - 1], last)
  }

  function Shrinking(writes: seq<Share>, last: map<string, real>): (r: seq<Share>)
    ensures forall w :: w in r <==> w in writes && Growth(w, last) < 0.0
  {
    if writes == [] then []
    else
      var front, w := Shrinking(writes[..|writes| - 1], last), writes[|writes| - 1];
      if Growth(w, last) < 0.0 then front + [w] else front
  }

  predicate Defers(changed: seq<Share>, last: map<string, real>, deferredLastTick: bool) {
    && (exists w :: w in changed && MaterialShrink(w, last))
    && (exists w :: w in changed && Growth(w, last) > 0.0)
    && !deferredLastTick
  }

  /** The writes to send now; when growth is held back, only those that shrink. */
  function HandoffBatch(changed: seq<Share>, last: map<string, real>, deferredLastTick: bool): seq<Share> {
    if Defers(changed, last, deferredLastTick) then Shrinking(changed, last) else changed
  }

  // ----- order

  ghost predicate ByGrowth(writes: seq<Share>, last: map<string, real>) {
    forall i, j :: 0 <= i < j < |writes| ==> Growth(writes[i], last) <= Growth(writes[j], last)
  }

  lemma InsertMembers(ordered: seq<Share>, w: Share, last: map<string, real>)
    ensures forall i :: 0 <= i < |InsertByGrowth(ordered, w, last)| ==>
              InsertByGrowth(ordered, w, last)[i] in ordered || InsertByGrowth(ordered, w, last)[i] == w
  {
    var r := InsertByGrowth(ordered, w, last);
    forall i | 0 <= i < |r| ensures r[i] in ordered || r[i] == w {
      assert r[i] in multiset(ordered) + multiset{w};
    }
  }

  lemma {:induction false} InsertKeepsOrder(ordered: seq<Share>, w: Share, last: map<string, real>)
    requires ByGrowth(ordered, last)
    ensures ByGrowth(InsertByGrowth(ordered, w, last), last)
  {
    if ordered != [] && Growth(ordered[|ordered| - 1], last) > Growth(w, last) {
      var front, end := ordered[..|ordered| - 1], ordered[|ordered| - 1];
      InsertKeepsOrder(front, w, last);
      InsertMembers(front, w, last);
      var r := InsertByGrowth(front, w, last);
      forall i | 0 <= i < |r| ensures Growth(r[i], last) <= Growth(end, last) {
        if r[i] in front { assert Growth(r[i], last) <= Growth(end, last); }
      }
    }
  }

  lemma {:induction false} SortedByGrowth(changed: seq<Share>, last: map<string, real>)
    ensures ByGrowth(ReductionsFirst(changed, last), last)
  {
    if changed != [] {
      SortedByGrowth(changed[..|changed| - 1], last);
      InsertKeepsOrder(ReductionsFirst(changed[..|changed| - 1], last), changed[|changed| - 1], last);
    }
  }

  lemma {:induction false} ShrinkingKeepsOrder(writes: seq<Share>, last: map<string, real>)
    requires ByGrowth(writes, last)
    ensures ByGrowth(Shrinking(writes, last), last)
  {
    if writes != [] {
      var front := writes[..|writes| - 1];
      ShrinkingKeepsOrder(front, last);
      forall w | w in Shrinking(front, last) ensures Growth(w, last) <= Growth(writes[|writes| - 1], last) {
        assert w in front;
      }
    }
  }

  // ----- distinct devices

  ghost predicate DistinctDevices(writes: seq<Share>) {
    forall i, j :: 0 <= i < j < |writes| ==> writes[i].deviceId != writes[j].deviceId
  }

  lemma {:induction false} InsertKeepsDistinct(ordered: seq<Share>, w: Share, last: map<string, real>)
    requires DistinctDevices(ordered) && forall x :: x in ordered ==> x.deviceId != w.deviceId
    ensures DistinctDevices(InsertByGrowth(ordered, w, last))
  {
    if ordered != [] && Growth(ordered[|ordered| - 1], last) > Growth(w, last) {
      var front, end := ordered[..|ordered| - 1], ordered[|ordered| - 1];
      InsertKeepsDistinct(front, w, last);
      var r := InsertByGrowth(front, w, last);
      forall i | 0 <= i < |r| ensures r[i].deviceId != end.deviceId {
        assert r[i] in multiset(front) + multiset{w};
        if r[i] in front { assert end in ordered; }
      }
    }
  }

  lemma {:induction false} SortKeepsDistinct(changed: seq<Share>, last: map<string, real>)
    requires DistinctDevices(changed)
    ensures DistinctDevices(ReductionsFirst(changed, last))
  {
    if changed != [] {
      var front, end := changed[..|changed| - 1], changed[|changed| - 1];
      SortKeepsDistinct(front, last);
      forall x | x in ReductionsFirst(front, last) ensures x.deviceId != end.deviceId {
        assert x in multiset(front);
      }
      InsertKeepsDistinct(ReductionsFirst(front, last), end, last);
    }
  }

  lemma {:induction false} ShrinkingKeepsDistinct(writes: seq<Share>, last: map<string, real>)
    requires DistinctDevices(writes)
    ensures DistinctDevices(Shrinking(writes, last))
  {
    if writes != [] {
      var front := writes[..|writes| - 1];
      ShrinkingKeepsDistinct(front, last);
      forall w | w in Shrinking(front, last) ensures w.deviceId != writes[|writes| - 1].deviceId {
        assert w in front;
      }
    }
  }

  // ----- the bus

  /** What the devices hold after `writes` land one by one. */
  function Apply(devices: map<string, real>, writes: seq<Share>): map<string, real> {
    if writes == [] then devices
    else Apply(devices, writes[..|writes| - 1])[writes[|writes| - 1].deviceId := writes[|writes| - 1].watts]
  }

  /** Total output magnitude on the bus, over the devices `ids`. */
  function Bus(ids: seq<string>, devices: map<string, real>): real {
    if ids == [] then 0.0 else Bus(ids[..|ids| - 1], devices) + Abs(Level(devices, ids[|ids| - 1]))
  }

  ghost predicate DistinctIds(ids: seq<string>) {
    forall i, j :: 0 <= i < j < |ids| ==> ids[i] != ids[j]
  }

  lemma {:induction false} BusWrite(ids: seq<string>, devices: map<string, real>, id: string, watts: real)
    requires DistinctIds(ids)
    ensures Bus(ids, devices[id := watts]) ==
            Bus(ids, devices) + if id in ids then Abs(watts) - Abs(Level(devices, id)) else 0.0
  {
    if ids != [] {
      BusWrite(ids[..|ids| - 1], devices, id, watts);
      if id == ids[|ids| - 1] {
        assert id !in ids[..|ids| - 1];
      } else if id in ids {
        assert id in ids[..|ids| - 1];
      }
    }
  }

  /** Growths of the writes, in order. */
  function Growths(writes: seq<Share>, last: map<string, real>): (r: seq<real>)
    ensures |r| == |writes| && forall i :: 0 <= i < |r| ==> r[i] == Growth(writes[i], last)
  {
    seq(|writes|, i requires 0 <= i < |writes| => Growth(writes[i], last))
  }

  lemma {:induction false} ApplyOthers(devices: map<string, real>, writes: seq<Share>, id: string)
    requires forall w :: w in writes ==> w.deviceId != id
    ensures Level(Apply(devices, writes), id) == Level(devices, id)
  {
    if writes != [] {
      assert writes[|writes| - 1] in writes;
      ApplyOthers(devices, writes[..|writes| - 1], id);
    }
  }

  lemma GrowthsSnoc(writes: seq<Share>, last: map<string, real>)
    requires writes != []
    ensures Sum(Growths(writes, last)) ==
            Sum(Growths(writes[..|writes| - 1], last)) + Growth(writes[|writes| - 1], last)
  {
    assert Growths(writes, last)[..|writes| - 1] == Growths(writes[..|writes| - 1], last);
  }

  /** Landed writes change the bus by the sum of their growths. */
  lemma {:induction false} BusAfter(ids: seq<string>, devices: map<string, real>, last: map<string, real>,
          writes: seq<Share>)
    requires DistinctIds(ids) && DistinctDevices(writes)
    requires forall w :: w in writes ==> w.deviceId in ids && Level(devices, w.deviceId) == Level(last, w.deviceId)
    ensures Bus(ids, Apply(devices, writes)) == Bus(ids, devices) + Sum(Growths(writes, last))
  {
    if writes != [] {
      var front, w := writes[..|writes| - 1], writes[|writes| - 1];
      assert w in writes;
      BusAfter(ids, devices, last, front);
      ApplyOthers(devices, front, w.deviceId);
      BusWrite(ids, Apply(devices, front), w.deviceId, w.watts);
      GrowthsSnoc(writes, last);
    }
  }

  /** A prefix of a non-decreasing sequence sums to no more than nothing, or
      than the whole. */
  lemma {:induction false} PrefixOfSorted(g: seq<real>, k: nat)
    requires k <= |g| && forall i, j :: 0 <= i < j < |g| ==> g[i] <= g[j]
    ensures Sum(g[..k]) <= Max(0.0, Sum(g))
  {
    if k == |g| {
      assert g[..k] == g;
    } else {
      var front, end := g[..|g| - 1], g[|g| - 1];
      PrefixOfSorted(front, k);
      assert front[..k] == g[..k];
      if end < 0.0 {
        SumZero(seq(k, _ => 0.0));
        SumOrder(g[..k], seq(k, _ => 0.0));
      }
    }
  }

  lemma PrefixOfSortedThenStill(head: seq<real>, zeros: seq<real>, k: nat)
    requires k <= |head + zeros| && forall i, j :: 0 <= i < j < |head| ==> head[i] <= head[j]
    requires forall i :: 0 <= i < |zeros| ==> zeros[i] == 0.0
    ensures Sum((head + zeros)[..k]) <= Max(0.0, Sum(head + zeros))
  {
    StillSum(head, zeros);
    if k <= |head| {
      PrefixOfSorted(head, k);
      assert (head + zeros)[..k] == head[..k];
    } else {
      StillSum(head, zeros[..k - |head|]);
      assert (head + zeros)[..k] == head + zeros[..k - |head|];
    }
  }

  lemma GrowthsConcat(a: seq<Share>, b: seq<Share>, last: map<string, real>, k: nat)
    requires k <= |a + b|
    ensures Growths(a + b, last) == Growths(a, last) + Growths(b, last)
    ensures Growths((a + b)[..k], last) == Growths(a + b, last)[..k]
  {
  }

  /** A batch that reduces first, followed by writes that change no magnitude,
      never puts more on the bus than there is before it or after it. */
  lemma OrderedBatchIsSafe(ids: seq<string>, devices: map<string, real>, last: map<string, real>, batch: seq<Share>,
          still: seq<Share>, k: nat)
    requires DistinctIds(ids) && DistinctDevices(batch + still) && ByGrowth(batch, last) && k <= |batch + still|
    requires forall w :: w in batch + still ==>
             w.deviceId in ids && Level(devices, w.deviceId) == Level(last, w.deviceId)
    requires forall w :: w in still ==> Growth(w, last) == 0.0
    ensures Bus(ids, Apply(devices, (batch + still)[..k])) <=
            Max(Bus(ids, devices), Bus(ids, Apply(devices, batch + still)))
  {
    BusAfter(ids, devices, last, batch + still);
    BusAfter(ids, devices, last, (batch + still)[..k]);
    GrowthsConcat(batch, still, last, k);
    forall i | 0 <= i < |still| ensures Growths(still, last)[i] == 0.0 { assert still[i] in still; }
    PrefixOfSortedThenStill(Growths(batch, last), Growths(still, last), k);
  }

  lemma {:induction false} StillSum(head: seq<real>, zeros: seq<real>)
    requires forall i :: 0 <= i < |zeros| ==> zeros[i] == 0.0
    ensures Sum(head + zeros) == Sum(head)
  {
    if zeros == [] {
      assert head + zeros == head;
    } else {
      StillSum(head, zeros[..|zeros| - 1]);
      assert (head + zeros)[..|head + zeros| - 1] == head + zeros[..|zeros| - 1];
    }
  }
}
