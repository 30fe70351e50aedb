/** What stands between the POI meter and the servo. A gate remembers the last
    reading it passed on and how far a handoff has come; from these it says
    whether a reading counts and whether the servo may approach a limit. Instants
    are reals. */
module PoiGate {
  import opened Numbers

  /** A handoff is over at this many later readings. */
  const READINGS_AFTER_GROWTH: nat := 2

  datatype Handoff = Idle | Deferred | GrowthWritten(at: real, seen: nat)

  datatype Gate = Gate(lastUsed: Option<real>, handoff: Handoff) {
    predicate Holds() { !handoff.Idle? }

    predicate IsFresh(receivedAt: real) { lastUsed != Some(receivedAt) }

    function Took(receivedAt: real): Gate {
      var counts := handoff.GrowthWritten? && IsFresh(receivedAt) && receivedAt > handoff.at;
      Gate(Some(receivedAt),
           if !counts then handoff
           else if handoff.seen + 1 >= READINGS_AFTER_GROWTH then Idle
           else handoff.(seen := handoff.seen + 1))
    }

    function Wrote(at: real): Gate {
      if handoff.Deferred? then this.(handoff := GrowthWritten(at, 0)) else this
    }
  }

  class PoiGate {
    var lastUsed: Option<real>
    var handoff: Handoff

    ghost function View(): Gate
      reads this
    {
      Gate(lastUsed, handoff)
    }

    constructor ()
      ensures View() == Gate(None, Idle)
    {
      lastUsed, handoff := None, Idle;
    }

    /** Take this tick's reading: whether it is new, and whether to hold. */
    method Take(receivedAt: real) returns (isFresh: bool, hold: bool)
      modifies this
      ensures View() == old(View()).Took(receivedAt)
      ensures isFresh == old(View()).IsFresh(receivedAt) && hold == View().Holds()
    {
      isFresh := lastUsed != Some(receivedAt);
      lastUsed := Some(receivedAt);
      if handoff.GrowthWritten? && isFresh && receivedAt > handoff.at {
        var seen := handoff.seen + 1;
        handoff := if seen >= READINGS_AFTER_GROWTH then Idle else GrowthWritten(handoff.at, seen);
      }
      hold := !handoff.Idle?;
    }

    method GrowthDeferred()
      modifies this`handoff
      ensures View() == old(View()).(handoff := Deferred)
    {
      handoff := Deferred;
    }

    method GrowthLanded(at: real)
      modifies this`handoff
      ensures View() == old(View()).Wrote(at)
    {
      if handoff.Deferred? {
        handoff := GrowthWritten(at, 0);
      }
    }
  }

  // ----- along a run of readings

  ghost function TakeAll(gate: Gate, times: seq<real>): Gate {
    if times == [] then gate else TakeAll(gate, times[..|times| - 1]).Took(times[|times| - 1])
  }

  ghost predicate InOrder(times: seq<real>) {
    forall i, j :: 0 <= i < j < |times| ==> times[i] <= times[j]
  }

  /** Distinct readings received after `at`. */
  ghost function Later(times: seq<real>, at: real): set<real> {
    set t | t in times && t > at
  }

  lemma LaterSnoc(times: seq<real>, t: real, at: real)
    requires InOrder(times + [t])
    ensures Later(times + [t], at) == Later(times, at) + if t > at then {t} else {}
    ensures times != [] && times[|times| - 1] != t ==> t !in times
  {
    var all := times + [t];
    assert all[|times|] == t;
    assert forall i :: 0 <= i < |times| ==> all[i] == times[i];
    forall x | x in Later(times, at) + if t > at then {t} else {} ensures x in Later(all, at) {}
    if times != [] && t in times {
      var i :| 0 <= i < |times| && times[i] == t;
      assert all[i] <= all[|times| - 1] <= all[|times|];
    }
  }

  lemma {:induction false} TakeAllLastUsed(gate: Gate, times: seq<real>)
    ensures TakeAll(gate, times).lastUsed == if times == [] then gate.lastUsed else Some(times[|times| - 1])
  {
  }

  /** Where the handoff stands after `seen` later readings. */
  ghost predicate Counting(gate: Gate, at: real, seen: nat) {
    if seen < READINGS_AFTER_GROWTH then gate.handoff == GrowthWritten(at, seen) else gate.handoff == Idle
  }

  lemma CountingStep(gate: Gate, at: real, seen: nat, t: real)
    requires Counting(gate, at, seen)
    ensures Counting(gate.Took(t), at, if t > at && gate.IsFresh(t) then seen + 1 else seen)
  {
  }

  /** A reading is new to the count exactly if it is later and fresh. */
  lemma LaterCount(front: seq<real>, t: real, at: real, lastUsed: Option<real>)
    requires InOrder(front + [t])
    requires if front == [] then lastUsed.Some? ==> lastUsed.value <= at else lastUsed == Some(front[|front| - 1])
    ensures |Later(front + [t], at)| == |Later(front, at)| + if t > at && lastUsed != Some(t) then 1 else 0
  {
    LaterSnoc(front, t, at);
    if t > at && lastUsed == Some(t) {
      assert t in Later(front, at);
      assert Later(front, at) + {t} == Later(front, at);
    }
  }

  lemma CountsOneMore(gate: Gate, at: real, front: seq<real>, t: real)
    requires Counting(gate, at, |Later(front, at)|) && InOrder(front + [t])
    requires if front == [] then gate.lastUsed.Some? ==> gate.lastUsed.value <= at
             else gate.lastUsed == Some(front[|front| - 1])
    ensures Counting(gate.Took(t), at, |Later(front + [t], at)|)
  {
    LaterCount(front, t, at, gate.lastUsed);
    CountingStep(gate, at, |Later(front, at)|, t);
  }

  /** Once the growth is written the hold stays up exactly until the second
      distinct reading received after the write. */
  lemma HoldIsExact(gate: Gate, at: real, times: seq<real>)
    requires gate.handoff == GrowthWritten(at, 0) && (gate.lastUsed.Some? ==> gate.lastUsed.value <= at)
    requires InOrder(times)
    ensures Counting(TakeAll(gate, times), at, |Later(times, at)|)
    ensures TakeAll(gate, times).Holds() <==> |Later(times, at)| < READINGS_AFTER_GROWTH
  {
    CountsLater(gate, at, times);
  }

  /** The gate counts exactly the distinct later readings. */
  lemma {:induction false} CountsLater(gate: Gate, at: real, times: seq<real>)
    requires gate.handoff == GrowthWritten(at, 0) && (gate.lastUsed.Some? ==> gate.lastUsed.value <= at)
    requires InOrder(times)
    ensures Counting(TakeAll(gate, times), at, |Later(times, at)|)
  {
    if times == [] {
      assert Later(times, at) == {};
    } else {
      var front, t := times[..|times| - 1], times[|times| - 1];
      assert times == front + [t];
      CountsLater(gate, at, front);
      TakeAllLastUsed(gate, front);
      CountsOneMore(TakeAll(gate, front), at, front, t);
    }
  }

  /** A held-back growth keeps the hold up for as long as it is not written. */
  lemma {:induction false} DeferralHolds(gate: Gate, times: seq<real>)
    requires gate.handoff == Deferred
    ensures TakeAll(gate, times).handoff == Deferred
  {
    if times != [] { DeferralHolds(gate, times[..|times| - 1]); }
  }

  /** The whole hold, from the deferral on: up through every reading before the
      write, and then until precisely the second distinct reading after it. */
  lemma HandoffHold(gate: Gate, before: seq<real>, at: real, after: seq<real>)
    requires InOrder(before) && InOrder(after)
    requires gate.lastUsed.Some? ==> gate.lastUsed.value <= at
    requires forall t :: t in before ==> t <= at
    ensures var waiting := TakeAll(gate.(handoff := Deferred), before);
            && waiting.Holds()
            && (TakeAll(waiting.Wrote(at), after).Holds() <==> |Later(after, at)| < READINGS_AFTER_GROWTH)
  {
    var deferred := gate.(handoff := Deferred);
    DeferralHolds(deferred, before);
    TakeAllLastUsed(deferred, before);
    if before != [] { assert before[|before| - 1] in before; }
    HoldIsExact(TakeAll(deferred, before).Wrote(at), at, after);
  }

  /** Whether the gate passes the `k`-th reading of a run as fresh. */
  ghost predicate FreshAt(gate: Gate, times: seq<real>, k: nat)
    requires k < |times|
  {
    TakeAll(gate, times[..k]).IsFresh(times[k])
  }

  /** A reading is passed as fresh at most once, when it is first seen. */
  lemma FreshOnce(gate: Gate, times: seq<real>, i: nat, j: nat)
    requires InOrder(times) && i < j < |times|
    requires FreshAt(gate, times, j)
    ensures times[i] != times[j]
  {
    TakeAllLastUsed(gate, times[..j]);
    assert times[j - 1] != times[j];
    assert times[i] <= times[j - 1] <= times[j];
  }
}
