/** The last requested setpoint per device, on the one channel distribution uses:
    recorded before a command's write, put back if the write fails. */
module Requested {
  import opened Numbers

  type Record = map<string, real>

  function Lookup(r: Record, id: string): Option<real> {
    if id in r then Some(r[id]) else None
  }

  /** Put `previous` back, unless something newer has replaced `value`. */
  function Restored(r: Record, id: string, value: real, previous: Option<real>): Record {
    if Lookup(r, id) != Some(value) then r
    else if previous.Some? then r[id := previous.value]
    else r - {id}
  }

  /** What a command does to the record: nothing unless it is accepted and its
      write lands. Commands do not overlap. */
  function Commanded(r: Record, id: string, value: real, accepted: bool, lands: bool): Record {
    if accepted && lands then r[id := value] else r
  }

  class LastRequested {
    var values: Record

    method Note(id: string, value: real) returns (previous: Option<real>)
      modifies this
      ensures values == old(values)[id := value] && previous == Lookup(old(values), id)
    {
      previous := Lookup(values, id);
      values := values[id := value];
    }

    method Restore(id: string, value: real, previous: Option<real>)
      modifies this
      ensures values == Restored(old(values), id, value, previous)
    {
      if Lookup(values, id) != Some(value) { return; }
      if previous.Some? {
        values := values[id := previous.value];
      } else {
        values := values - {id};
      }
    }

    /** Record, write, and put the old request back if the write failed; a
        refused command (locked out, or unknown) records nothing. */
    method HandleCommand(id: string, value: real, accepted: bool, lands: bool)
      modifies this
      ensures values == Commanded(old(values), id, value, accepted, lands)
    {
      if !accepted { return; }
      var previous := Note(id, value);
      if !lands {
        RestoreUndoes(old(values), id, value);
        Restore(id, value, previous);
      }
    }
  }

  /** Restoring straight after recording leaves no trace. */
  lemma RestoreUndoes(r: Record, id: string, value: real)
    ensures Restored(r[id := value], id, value, Lookup(r, id)) == r
  {
  }

  /** A failed command keeps its hands off whatever replaced it, exactly if the
      replacement has another value or is what it would put back; and off every
      other device always. */
  lemma RestoreKeepsNewer(r: Record, id: string, value: real, newer: real, previous: Option<real>, other: string)
    ensures Restored(r[id := newer], id, value, previous) == r[id := newer] <==>
            newer != value || previous == Some(newer)
    ensures other != id ==> Lookup(Restored(r, id, value, previous), other) == Lookup(r, other)
  {
    if newer == value && previous.Some? && previous.value != newer {
      assert Restored(r[id := newer], id, value, previous)[id] != newer;
    }
  }

  /** Two overlapping commands that both fail. If the first to start fails first,
      the record comes back exactly when its value is the second one's or was
      there before; otherwise the first one's refused value stays behind. If the
      second fails first, the record always comes back. */
  lemma OverlappingFailures(r: Record, id: string, a: real, b: real)
    ensures var both := r[id := a][id := b];
            && (Restored(Restored(both, id, a, Lookup(r, id)), id, b, Some(a)) == r <==>
               a == b || Lookup(r, id) == Some(a))
            && Restored(Restored(both, id, b, Some(a)), id, a, Lookup(r, id)) == r
  {
    var both := r[id := a][id := b];
    var end := Restored(Restored(both, id, a, Lookup(r, id)), id, b, Some(a));
    assert Restored(both, id, b, Some(a)) == r[id := a];
    RestoreUndoes(r, id, a);
    if a != b {
      assert end == r[id := a];
      assert Lookup(end, id) == Some(a);
    } else {
      assert both == r[id := a];
    }
  }
}
