/** Curtailment events. While one is in force each module is commanded the
    event's share; when it ends, each module still holding that share goes back
    to its operator's setpoint. Ticks and operator commands are atomic steps. */
module SiteDistribution {
  import opened Numbers
  import opened Allocation
  import opened Requested

  /** Closer than this, W, two setpoints cannot be told apart. */
  const SAME_SETPOINT_W: real := 0.000001

  predicate Same(a: real, b: real) {
    Abs(a - b) < SAME_SETPOINT_W
  }

  /** A record from before the event, if there is an event, and what the event
      has told each module since. */
  datatype Memory = Memory(snapshot: Option<Record>, dispatched: map<string, real>)

  const EMPTY_MEMORY := Memory(None, map[])

  function Begun(m: Memory, operators: Record): Memory {
    if m.snapshot.None? then m.(snapshot := Some(operators)) else m
  }

  predicate IsChange(m: Memory, share: Share) {
    share.deviceId !in m.dispatched || !Same(share.watts, m.dispatched[share.deviceId])
  }

  /** Whether `id` was last asked for what the event remembers having told it.
      The event remembers a command only if it was handled, landed or not. */
  predicate HoldsEvent(m: Memory, current: Record, id: string) {
    id in m.dispatched && id in current && Same(current[id], m.dispatched[id])
  }

  /** What `id` was asked for on a record, 0 W if nothing. */
  function AskedAt(r: Record, id: string): real {
    if id in r then r[id] else 0.0
  }

  function BeforeEvent(m: Memory, id: string): real {
    if m.snapshot.Some? then AskedAt(m.snapshot.value, id) else 0.0
  }

  /** The modules to put back, each to its setpoint from before the event. */
  function Restores(m: Memory, current: Record): map<string, real> {
    if m.snapshot.None? then map[]
    else map id | id in m.dispatched && HoldsEvent(m, current, id) :: BeforeEvent(m, id)
  }

  class EventMemory {
    var snapshot: Option<Record>
    var dispatched: map<string, real>

    ghost function View(): Memory
      reads this
    {
      Memory(snapshot, dispatched)
    }

    constructor ()
      ensures View() == EMPTY_MEMORY
    {
      snapshot, dispatched := None, map[];
    }

    method Begin(operators: Record)
      modifies this`snapshot
      ensures View() == Begun(old(View()), operators)
    {
      if snapshot.None? {
        snapshot := Some(operators);
      }
    }

    method Note(id: string, share: real)
      modifies this`dispatched
      ensures View() == old(View()).(dispatched := old(dispatched)[id := share])
    {
      dispatched := dispatched[id := share];
    }

    method Clear()
      modifies this
      ensures View() == EMPTY_MEMORY
    {
      snapshot, dispatched := None, map[];
    }
  }

  // ----- steps

  /** How a command went: whether it was handled (its acknowledgements got
      out), and whether its write landed. One does not imply the other. */
  datatype Outcome = Outcome(handled: bool, lands: bool)

  type Outcomes = map<string, Outcome>

  function OutcomeOf(outcomes: Outcomes, id: string): Outcome {
    if id in outcomes then outcomes[id] else Outcome(false, false)
  }

  /** A command to one module, on the record. */
  function Told(requested: Record, id: string, value: real, outcome: Outcome): Record {
    Commanded(requested, id, value, true, outcome.lands)
  }

  datatype Site = Site(requested: Record, memory: Memory)

  /** `shares` is `None` when the modules are not all known yet. */
  datatype Step =
    | Operator(id: string, value: real, lands: bool)
    | Hold
    | Dispatch(shares: Option<seq<Share>>, outcomes: Outcomes)
    | Release(outcomes: Outcomes)

  function DispatchedOne(s: Site, share: Share, outcome: Outcome): Site {
    Site(Told(s.requested, share.deviceId, share.watts, outcome),
         if !outcome.handled then s.memory
         else s.memory.(dispatched := s.memory.dispatched[share.deviceId := share.watts]))
  }

  function Changed(m: Memory, shares: seq<Share>): (r: seq<Share>)
    ensures forall x :: x in r <==> x in shares && IsChange(m, x)
  {
    if shares == [] then []
    else
      var front, x := Changed(m, shares[..|shares| - 1]), shares[|shares| - 1];
      if IsChange(m, x) then front + [x] else front
  }

  function DispatchedAll(s: Site, shares: seq<Share>, outcomes: Outcomes): Site {
    if shares == [] then s
    else
      var x := shares[|shares| - 1];
      DispatchedOne(DispatchedAll(s, shares[..|shares| - 1], outcomes), x, OutcomeOf(outcomes, x.deviceId))
  }

  function Dispatched(s: Site, shares: Option<seq<Share>>, outcomes: Outcomes): Site {
    var begun := s.(memory := Begun(s.memory, s.requested));
    if shares.None? then begun else DispatchedAll(begun, Changed(begun.memory, shares.value), outcomes)
  }

  predicate AllHandled(restores: map<string, real>, outcomes: Outcomes) {
    forall id :: id in restores ==> OutcomeOf(outcomes, id).handled
  }

  /** The record once every restore has been commanded. */
  function AfterRestores(requested: Record, restores: map<string, real>, outcomes: Outcomes): Record {
    map id | id in requested.Keys + restores.Keys && (id in requested || OutcomeOf(outcomes, id).lands) ::
      if id in restores && OutcomeOf(outcomes, id).lands then restores[id] else requested[id]
  }

  /** Command every restore; forget the event only once all were handled. */
  function Released(s: Site, outcomes: Outcomes): Site {
    var restores := Restores(s.memory, s.requested);
    Site(AfterRestores(s.requested, restores, outcomes),
         if AllHandled(restores, outcomes) then EMPTY_MEMORY else s.memory)
  }

  function After(s: Site, step: Step): Site {
    match step
    case Operator(id, value, lands) => s.(requested := Commanded(s.requested, id, value, true, lands))
    case Hold => s
    case Dispatch(shares, outcomes) => Dispatched(s, shares, outcomes)
    case Release(outcomes) => Released(s, outcomes)
  }

  // ----- the task

  class SiteTask {
    const memory: EventMemory
    const requested: LastRequested

    ghost function View(): Site
      reads this, memory, requested
    {
      Site(requested.values, memory.View())
    }

    constructor (memory: EventMemory, requested: LastRequested)
      ensures this.memory == memory && this.requested == requested
    {
      this.memory := memory;
      this.requested := requested;
    }

    /** Hand one command to the handler; whether it was handled. */
    method DispatchOne(id: string, value: real, outcome: Outcome) returns (handled: bool)
      modifies requested
      ensures requested.values == Told(old(requested.values), id, value, outcome) && handled == outcome.handled
    {
      requested.HandleCommand(id, value, true, outcome.lands);
      handled := outcome.handled;
    }

    /** A tick with an event in force. */
    method DispatchTick(shares: Option<seq<Share>>, outcomes: Outcomes)
      modifies memory, requested
      ensures View() == Dispatched(old(View()), shares, outcomes)
    {
      memory.Begin(requested.values);
      if shares.None? { return; }
      ghost var begun := View();
      var changed := Changed(Memory(memory.snapshot, memory.dispatched), shares.value);
      for k := 0 to |changed|
        invariant View() == DispatchedAll(begun, changed[..k], outcomes)
      {
        assert changed[..k + 1][..k] == changed[..k];
        var handled := DispatchOne(changed[k].deviceId, changed[k].watts, OutcomeOf(outcomes, changed[k].deviceId));
        if handled {
          memory.Note(changed[k].deviceId, changed[k].watts);
        }
      }
      assert changed[..|changed|] == changed;
    }

    /** Command every restore, in any order; whether all were handled. */
    method CommandRestores(restores: map<string, real>, outcomes: Outcomes) returns (allHandled: bool)
      modifies requested
      ensures requested.values == AfterRestores(old(requested.values), restores, outcomes)
      ensures allHandled <==> AllHandled(restores, outcomes)
    {
      ghost var before := requested.values;
      var todo := restores.Keys;
      allHandled := true;
      RestoreNone(before, restores, outcomes);
      while todo != {}
        invariant todo <= restores.Keys
        invariant requested.values == AfterRestores(before, restores - todo, outcomes)
        invariant allHandled == AllHandled(restores - todo, outcomes)
        decreases |todo|
      {
        var id :| id in todo;
        RestoreOne(before, restores, todo, id, outcomes);
        var handled := DispatchOne(id, restores[id], OutcomeOf(outcomes, id));
        allHandled := allHandled && handled;
        todo := todo - {id};
      }
      assert restores - {} == restores;
    }

    /** The event is over: put back each module it still holds, and forget it
        once every restore was handled. */
    method ReleaseTick(outcomes: Outcomes)
      modifies memory, requested
      ensures View() == Released(old(View()), outcomes)
    {
      var restores := Restores(Memory(memory.snapshot, memory.dispatched), requested.values);
      var allHandled := CommandRestores(restores, outcomes);
      if allHandled {
        memory.Clear();
      }
    }
  }

  lemma RestoreNone(before: Record, restores: map<string, real>, outcomes: Outcomes)
    ensures AfterRestores(before, restores - restores.Keys, outcomes) == before
    ensures AllHandled(restores - restores.Keys, outcomes)
  {
    assert (restores - restores.Keys).Keys == {};
  }

  /** Commanding one more of the restores still to do, in whatever order. */
  lemma RestoreOne(before: Record, restores: map<string, real>, todo: set<string>, id: string, outcomes: Outcomes)
    requires id in todo && todo <= restores.Keys
    ensures AfterRestores(before, restores - (todo - {id}), outcomes)
         == Told(AfterRestores(before, restores - todo, outcomes), id, restores[id], OutcomeOf(outcomes, id))
    ensures AllHandled(restores - (todo - {id}), outcomes) ==
            (AllHandled(restores - todo, outcomes) && OutcomeOf(outcomes, id).handled)
  {
    var done, more := restores - todo, restores - (todo - {id});
    assert id in more && forall k :: k in done ==> k in more;
    assert forall k :: k in more ==> k == id || k in done;
  }

  // ----- runs

  ghost function Run(s: Site, steps: seq<Step>): Site {
    if steps == [] then s else After(Run(s, steps[..|steps| - 1]), steps[|steps| - 1])
  }

  lemma {:induction false} DispatchKeepsSnapshot(s: Site, shares: seq<Share>, outcomes: Outcomes)
    ensures DispatchedAll(s, shares, outcomes).memory.snapshot == s.memory.snapshot
  {
    if shares != [] { DispatchKeepsSnapshot(s, shares[..|shares| - 1], outcomes); }
  }

  /** The snapshot is the record as it stood at the event's first Dispatch tick:
      there was no event before that tick, and there has been one ever since. */
  lemma {:induction false} SnapshotIsEventStart(s: Site, steps: seq<Step>) returns (first: nat)
    requires s.memory == EMPTY_MEMORY && Run(s, steps).memory.snapshot.Some?
    ensures first < |steps| && steps[first].Dispatch?
    ensures Run(s, steps[..first]).memory.snapshot.None?
    ensures Run(s, steps).memory.snapshot == Some(Run(s, steps[..first]).requested)
    ensures forall k :: first < k <= |steps| ==> Run(s, steps[..k]).memory.snapshot.Some?
  {
    var front, step := steps[..|steps| - 1], steps[|steps| - 1];
    var before := Run(s, front);
    assert steps[..|steps|] == steps;
    if step.Dispatch? {
      var begun := before.(memory := Begun(before.memory, before.requested));
      if step.shares.Some? { DispatchKeepsSnapshot(begun, Changed(begun.memory, step.shares.value), step.outcomes); }
    }
    if before.memory.snapshot.None? {
      first := |front|;
    } else {
      first := SnapshotIsEventStart(s, front);
      assert front[..first] == steps[..first];
      forall k | first < k <= |steps| ensures Run(s, steps[..k]).memory.snapshot.Some? {
        if k <= |front| { assert front[..k] == steps[..k]; }
      }
    }
  }

  /** The handler dealt with the restore of every module still holding its share. */
  ghost predicate AllHeldHandled(s: Site, outcomes: Outcomes) {
    forall id :: HoldsEvent(s.memory, s.requested, id) ==> OutcomeOf(outcomes, id).handled
  }

  /** What a release does to each module, whatever the outcomes: one that still
      holds the event's share goes back to its setpoint from before the event if
      its restore lands and keeps the share if not; every other keeps what it
      has. The event is forgotten exactly when all restores were handled. */
  lemma ReleaseOutcome(s: Site, outcomes: Outcomes, id: string)
    requires s.memory.snapshot.Some?
    ensures var s' := Released(s, outcomes);
            && (HoldsEvent(s.memory, s.requested, id) ==>
                  Lookup(s'.requested, id) ==
                    Some(if OutcomeOf(outcomes, id).lands then BeforeEvent(s.memory, id) else s.requested[id]))
            && (!HoldsEvent(s.memory, s.requested, id) ==> Lookup(s'.requested, id) == Lookup(s.requested, id))
            && s'.memory == (if AllHeldHandled(s, outcomes) then EMPTY_MEMORY else s.memory)
            && (s'.memory == EMPTY_MEMORY <==> AllHeldHandled(s, outcomes))
  {
  }

  /** The module holds the share it was told, to a microwatt. */
  predicate AtEventShare(s: Site, id: string) {
    id in s.memory.dispatched && id in s.requested && Abs(s.requested[id] - s.memory.dispatched[id]) < 0.000001
  }

  /** A release whose restore lands puts a module at the event's share back to
      what the snapshot says, or to 0 W if it says nothing, and no other module
      anywhere. */
  lemma ReleasePutsBack(s: Site, outcomes: Outcomes, id: string)
    requires s.memory.snapshot.Some?
    ensures var snapshot, after := s.memory.snapshot.value, Released(s, outcomes).requested;
            if AtEventShare(s, id) && OutcomeOf(outcomes, id).lands
            then id in after && after[id] == if id in snapshot then snapshot[id] else 0.0
            else Lookup(after, id) == Lookup(s.requested, id)
  {
    ReleaseOutcome(s, outcomes, id);
  }

  /** Over any interleaving of ticks and operator commands: a release whose
      restores land puts every module still holding the share the event remembers
      back to what its operator had asked for at the event's first Dispatch tick,
      0 W if nothing, and leaves every other module alone. A module can hold
      another of the event's shares; see `EventShareReturns`. */
  lemma ReleaseRestoresOperator(s: Site, steps: seq<Step>, outcomes: Outcomes) returns (first: nat)
    requires s.memory == EMPTY_MEMORY && Run(s, steps).memory.snapshot.Some?
    requires var before := Run(s, steps);
             forall id :: HoldsEvent(before.memory, before.requested, id) ==>
               OutcomeOf(outcomes, id) == Outcome(true, true)
    ensures first < |steps| && steps[first].Dispatch? && Run(s, steps[..first]).memory.snapshot.None?
    ensures var before, after := Run(s, steps), Run(s, steps + [Release(outcomes)]);
            && after.memory == EMPTY_MEMORY
            && forall id ::
                 if HoldsEvent(before.memory, before.requested, id)
                 then Lookup(after.requested, id) == Some(AskedAt(Run(s, steps[..first]).requested, id))
                 else Lookup(after.requested, id) == Lookup(before.requested, id)
  {
    first := SnapshotIsEventStart(s, steps);
    var before := Run(s, steps);
    assert (steps + [Release(outcomes)])[..|steps|] == steps;
    forall id
      ensures if HoldsEvent(before.memory, before.requested, id)
              then
                Lookup(Released(before, outcomes).requested, id) == Some(AskedAt(Run(s, steps[..first]).requested, id))
              else Lookup(Released(before, outcomes).requested, id) == Lookup(before.requested, id)
    {
      ReleaseOutcome(before, outcomes, id);
    }
  }

  // ----- modules that hold a share the event does not remember

  function LastFor(shares: seq<Share>, id: string): Option<real> {
    if shares == [] then None
    else if shares[|shares| - 1].deviceId == id then Some(shares[|shares| - 1].watts)
    else LastFor(shares[..|shares| - 1], id)
  }

  /** What the event tells `id` on this step, if anything. */
  function EventTells(s: Site, step: Step, id: string): Option<real> {
    if step.Dispatch? && step.shares.Some? then LastFor(Changed(Begun(s.memory, s.requested), step.shares.value), id)
    else None
  }

  /** Who last landed a command on a module. */
  datatype Origin = Nobody | AnOperator | TheEvent(share: real) | ARestore

  ghost function OriginOf(s: Site, steps: seq<Step>, id: string): Origin {
    if steps == [] then Nobody
    else
      var front, step := steps[..|steps| - 1], steps[|steps| - 1];
      var before := Run(s, front);
      match step
      case Operator(to, _, lands) => if to == id && lands then AnOperator else OriginOf(s, front, id)
      case Hold => OriginOf(s, front, id)
      case Dispatch(_, outcomes) =>
        var told := EventTells(before, step, id);
        if told.Some? && OutcomeOf(outcomes, id).lands then TheEvent(told.value) else OriginOf(s, front, id)
      case Release(outcomes) =>
        if id in Restores(before.memory, before.requested) && OutcomeOf(outcomes, id).lands then ARestore
        else OriginOf(s, front, id)
  }

  /** The share of the event's last handled command to `id`, if there was one. */
  ghost function LastHandled(s: Site, steps: seq<Step>, id: string): Option<real> {
    if steps == [] then None
    else
      var front, step := steps[..|steps| - 1], steps[|steps| - 1];
      var before := Run(s, front);
      match step
      case Operator(_, _, _) => LastHandled(s, front, id)
      case Hold => LastHandled(s, front, id)
      case Dispatch(_, outcomes) =>
        var told := EventTells(before, step, id);
        if told.Some? && OutcomeOf(outcomes, id).handled then told else LastHandled(s, front, id)
      case Release(outcomes) =>
        if AllHandled(Restores(before.memory, before.requested), outcomes) then None else LastHandled(s, front, id)
  }

  lemma {:induction false} DispatchTells(s: Site, shares: seq<Share>, outcomes: Outcomes, id: string)
    ensures var s', told, outcome := DispatchedAll(s, shares, outcomes), LastFor(shares, id), OutcomeOf(outcomes, id);
            && Lookup(s'.requested, id) == (if told.Some? && outcome.lands then told else Lookup(s.requested, id))
            && Lookup(s'.memory.dispatched, id) ==
                 (if told.Some? && outcome.handled then told else Lookup(s.memory.dispatched, id))
  {
    if shares != [] {
      DispatchTells(s, shares[..|shares| - 1], outcomes, id);
    }
  }

  ghost predicate DistinctModules(shares: seq<Share>) {
    forall i, j :: 0 <= i < j < |shares| ==> shares[i].deviceId != shares[j].deviceId
  }

  lemma {:induction false} NobodyElse(m: Memory, shares: seq<Share>, id: string)
    requires forall x :: x in shares ==> x.deviceId != id
    ensures LastFor(Changed(m, shares), id) == None
  {
    if shares != [] { NobodyElse(m, shares[..|shares| - 1], id); }
  }

  lemma {:induction false} OneTelling(m: Memory, shares: seq<Share>, i: nat)
    requires DistinctModules(shares) && i < |shares|
    ensures LastFor(Changed(m, shares), shares[i].deviceId) ==
            if IsChange(m, shares[i]) then Some(shares[i].watts) else None
  {
    var front := shares[..|shares| - 1];
    if i == |front| {
      forall x | x in front ensures x.deviceId != shares[i].deviceId {}
      NobodyElse(m, front, shares[i].deviceId);
    } else {
      OneTelling(m, front, i);
    }
  }

  /** A tick of an event commands a module exactly if its share is off what it was
      last told by a microwatt or more, or it was told nothing; and with that share. */
  lemma DispatchOnlyChanges(s: Site, shares: seq<Share>, outcomes: Outcomes, i: nat)
    requires DistinctModules(shares) && i < |shares|
    ensures var id, watts, s' := shares[i].deviceId, shares[i].watts, After(s, Dispatch(Some(shares), outcomes));
            var told, outcome := s.memory.dispatched, OutcomeOf(outcomes, id);
            if id in told && Abs(watts - told[id]) < 0.000001
            then
              && Lookup(s'.requested, id) == Lookup(s.requested, id)
              && Lookup(s'.memory.dispatched, id) == Some(told[id])
            else
              && Lookup(s'.requested, id) == (if outcome.lands then Some(watts) else Lookup(s.requested, id))
              && Lookup(s'.memory.dispatched, id) == if outcome.handled then Some(watts) else Lookup(told, id)
  {
    TickTells(s, Dispatch(Some(shares), outcomes), shares[i].deviceId);
    OneTelling(Begun(s.memory, s.requested), shares, i);
  }

  /** What the histories say of the state. */
  ghost predicate Tells(s: Site, steps: seq<Step>, id: string) {
    var end, origin := Run(s, steps), OriginOf(s, steps, id);
    && Lookup(end.memory.dispatched, id) == LastHandled(s, steps, id)
    && (origin.TheEvent? ==> Lookup(end.requested, id) == Some(origin.share))
  }

  lemma TickTells(s: Site, step: Step, id: string)
    requires step.Dispatch?
    ensures var s', told, outcome := After(s, step), EventTells(s, step, id), OutcomeOf(step.outcomes, id);
            && Lookup(s'.requested, id) == (if told.Some? && outcome.lands then told else Lookup(s.requested, id))
            && Lookup(s'.memory.dispatched, id) ==
                 (if told.Some? && outcome.handled then told else Lookup(s.memory.dispatched, id))
  {
    var begun := s.(memory := Begun(s.memory, s.requested));
    if step.shares.Some? { DispatchTells(begun, Changed(begun.memory, step.shares.value), step.outcomes, id); }
  }

  lemma DispatchKeepsTelling(s: Site, front: seq<Step>, step: Step, id: string)
    requires step.Dispatch? && Tells(s, front, id)
    ensures Tells(s, front + [step], id)
  {
    var all := front + [step];
    assert all[..|all| - 1] == front;
    TickTells(Run(s, front), step, id);
  }

  /** What one release does to a module's setpoint and to what it was last told. */
  lemma ReleaseTells(s: Site, outcomes: Outcomes, id: string)
    ensures var s', restores := Released(s, outcomes), Restores(s.memory, s.requested);
            && (!(id in restores && OutcomeOf(outcomes, id).lands) ==>
                  Lookup(s'.requested, id) == Lookup(s.requested, id))
            && Lookup(s'.memory.dispatched, id) ==
                 if AllHandled(restores, outcomes) then None else Lookup(s.memory.dispatched, id)
  {
  }

  lemma {:induction false} ReleaseKeepsTelling(s: Site, front: seq<Step>, step: Step, id: string)
    requires step.Release? && Tells(s, front, id)
    ensures Tells(s, front + [step], id)
  {
    var all := front + [step];
    assert all[..|all| - 1] == front;
    ReleaseTells(Run(s, front), step.outcomes, id);
  }

  lemma {:induction false} HistoriesTell(s: Site, steps: seq<Step>, id: string)
    requires s.memory == EMPTY_MEMORY
    ensures Tells(s, steps, id)
  {
    if steps != [] {
      var front, step := steps[..|steps| - 1], steps[|steps| - 1];
      assert front + [step] == steps;
      HistoriesTell(s, front, id);
      match step
      case Operator(_, _, _) =>
      case Hold =>
      case Dispatch(_, _) => DispatchKeepsTelling(s, front, step, id);
      case Release(_) => ReleaseKeepsTelling(s, front, step, id);
    }
  }

  /** Over any interleaving: a module whose setpoint is the event's doing, and
      differs from what it was asked for before, goes back when its restore lands
      exactly if the event's last handled command to it asked for the same share.
      Otherwise it keeps the ended event's share. */
  lemma EventShareReturns(s: Site, steps: seq<Step>, outcomes: Outcomes, id: string) returns (first: nat)
    requires s.memory == EMPTY_MEMORY && Run(s, steps).memory.snapshot.Some?
    requires OriginOf(s, steps, id).TheEvent? && OutcomeOf(outcomes, id).lands
    ensures first < |steps| && steps[first].Dispatch? && Run(s, steps[..first]).memory.snapshot.None?
    ensures var after, share := Run(s, steps + [Release(outcomes)]), OriginOf(s, steps, id).share;
            var before, last := AskedAt(Run(s, steps[..first]).requested, id), LastHandled(s, steps, id);
            && Lookup(after.requested, id) == Some(if last.Some? && Same(share, last.value) then before else share)
            && (share != before ==>
               (Lookup(after.requested, id) == Some(before) <==> last.Some? && Same(share, last.value)))
  {
    first := SnapshotIsEventStart(s, steps);
    HistoriesTell(s, steps, id);
    assert (steps + [Release(outcomes)])[..|steps|] == steps;
    ReleaseOutcome(Run(s, steps), outcomes, id);
  }

  /** One command at a time: with an event in force, a share that lands on a
      module and differs from its setpoint before the event is taken back by a
      release that lands exactly if the command was handled too. */
  lemma LandedShareReturns(s: Site, share: Share, outcome: Outcome, restore: Outcome)
    requires s.memory.snapshot.Some? && outcome.lands && restore.lands
    requires share.watts != BeforeEvent(s.memory, share.deviceId)
    ensures var id, told := share.deviceId, DispatchedOne(s, share, outcome);
            Lookup(Released(told, map[id := restore]).requested, id) == Some(BeforeEvent(s.memory, id)) <==>
              outcome.handled || (id in s.memory.dispatched && Same(share.watts, s.memory.dispatched[id]))
  {
    ReleaseOutcome(DispatchedOne(s, share, outcome), map[share.deviceId := restore], share.deviceId);
  }

  lemma TellOne(s: Site, share: Share, outcome: Outcome)
    requires IsChange(Begun(s.memory, s.requested), share)
    ensures Dispatched(s, Some([share]), map[share.deviceId := outcome]) ==
            DispatchedOne(s.(memory := Begun(s.memory, s.requested)), share, outcome)
  {
    var begun := s.(memory := Begun(s.memory, s.requested));
    var outcomes := map[share.deviceId := outcome];
    assert [share][..0] == [];
    assert Changed(begun.memory, []) == [];
    assert Changed(begun.memory, [share]) == [share];
    assert DispatchedAll(begun, [share], outcomes) == DispatchedOne(begun, share, OutcomeOf(outcomes, share.deviceId));
  }

  lemma NothingToRestore(s: Site, outcomes: Outcomes)
    requires forall id :: !HoldsEvent(s.memory, s.requested, id)
    ensures Released(s, outcomes) == Site(s.requested, EMPTY_MEMORY)
  {
    assert Restores(s.memory, s.requested) == map[];
    RestoreNone(s.requested, map[], outcomes);
  }

  /** Where it fails: the share lands but its acknowledgement is lost. The release
      forgets the event and commands nothing, and the next event takes the share
      for the operator's own setpoint. */
  lemma LostAcknowledgement(r: Record, share: Share, outcomes: Outcomes)
    ensures var told := Dispatched(Site(r, EMPTY_MEMORY), Some([share]), map[share.deviceId := Outcome(false, true)]);
            && told.memory.snapshot == Some(r)
            && Released(told, outcomes) == Site(r[share.deviceId := share.watts], EMPTY_MEMORY)
            && Begun(Released(told, outcomes).memory, Released(told, outcomes).requested).snapshot ==
                 Some(r[share.deviceId := share.watts])
  {
    TellOne(Site(r, EMPTY_MEMORY), share, Outcome(false, true));
    NothingToRestore(Dispatched(Site(r, EMPTY_MEMORY), Some([share]), map[share.deviceId := Outcome(false, true)]),
      outcomes);
  }

  /** And where a later share is handled but its write fails: the event then
      remembers the one that did not land. */
  lemma FailedRedispatch(r: Record, id: string, first: real, second: real, outcomes: Outcomes)
    requires !Same(first, second)
    ensures var told := Dispatched(Site(r, EMPTY_MEMORY), Some([Share(id, first)]), map[id := Outcome(true, true)]);
            var again := Dispatched(told, Some([Share(id, second)]), map[id := Outcome(true, false)]);
            && again.memory.snapshot == Some(r)
            && Released(again, outcomes) == Site(r[id := first], EMPTY_MEMORY)
  {
    TellOne(Site(r, EMPTY_MEMORY), Share(id, first), Outcome(true, true));
    var told := Dispatched(Site(r, EMPTY_MEMORY), Some([Share(id, first)]), map[id := Outcome(true, true)]);
    TellOne(told, Share(id, second), Outcome(true, false));
    NothingToRestore(Dispatched(told, Some([Share(id, second)]), map[id := Outcome(true, false)]), outcomes);
  }

  /** A restore that is handled but whose write fails is not retried: once all
      are handled the event is forgotten, and the module keeps the event's share
      exactly when its restore did not land or would have changed nothing. */
  lemma HandledFailureIsForgotten(s: Site, outcomes: Outcomes, id: string)
    requires s.memory.snapshot.Some? && HoldsEvent(s.memory, s.requested, id)
    requires AllHandled(Restores(s.memory, s.requested), outcomes)
    ensures Released(s, outcomes).memory == EMPTY_MEMORY
    ensures Lookup(Released(s, outcomes).requested, id) == Lookup(s.requested, id) <==>
            !OutcomeOf(outcomes, id).lands || BeforeEvent(s.memory, id) == s.requested[id]
  {
    ReleaseOutcome(s, outcomes, id);
  }

  // ----- what is left alone

  /** No step of the run commands `id` by itself: no operator command that
      lands, and no Dispatch whose share for it has changed. */
  ghost predicate LeavesAlone(s: Site, steps: seq<Step>, id: string) {
    steps == [] ||
    (var front, step := steps[..|steps| - 1], steps[|steps| - 1];
     var memory := Begun(Run(s, front).memory, Run(s, front).requested);
     && LeavesAlone(s, front, id)
     && (step.Operator? ==> step.id != id || !step.lands)
     && (step.Dispatch? && step.shares.Some? ==>
           forall x :: x in step.shares.value && x.deviceId == id ==> !IsChange(memory, x)))
  }

  lemma {:induction false} DispatchLeaves(s: Site, shares: seq<Share>, outcomes: Outcomes, id: string)
    requires forall x :: x in shares ==> x.deviceId != id
    ensures var s' := DispatchedAll(s, shares, outcomes);
            && Lookup(s'.requested, id) == Lookup(s.requested, id)
            && Lookup(s'.memory.dispatched, id) == Lookup(s.memory.dispatched, id)
  {
    if shares != [] {
      assert shares[|shares| - 1] in shares;
      DispatchLeaves(s, shares[..|shares| - 1], outcomes, id);
    }
  }

  /** A module not holding the event's share keeps its setpoint through
      anything that does not command it, releases included. */
  lemma {:induction false} StandsUnlessCommanded(s: Site, steps: seq<Step>, id: string)
    requires id in s.requested && LeavesAlone(s, steps, id)
    requires id in s.memory.dispatched ==> !Same(s.requested[id], s.memory.dispatched[id])
    ensures var s' := Run(s, steps);
            && Lookup(s'.requested, id) == Lookup(s.requested, id)
            && !HoldsEvent(s'.memory, s'.requested, id)
            && (id in s'.memory.dispatched ==> Lookup(s'.memory.dispatched, id) == Lookup(s.memory.dispatched, id))
  {
    if steps != [] {
      var front, step := steps[..|steps| - 1], steps[|steps| - 1];
      StandsUnlessCommanded(s, front, id);
      var before := Run(s, front);
      match step
      case Operator(_, _, _) =>
      case Hold =>
      case Dispatch(shares, outcomes) =>
        var begun := before.(memory := Begun(before.memory, before.requested));
        if shares.Some? { DispatchLeaves(begun, Changed(begun.memory, shares.value), outcomes, id); }
      case Release(outcomes) =>
    }
  }

  ghost predicate NoRelease(steps: seq<Step>) {
    forall k :: 0 <= k < |steps| ==> !steps[k].Release?
  }

  /** Until a release, a module that nothing commands keeps its setpoint and the
      event's memory of it, even where the two are the same. */
  lemma {:induction false} KeptUntilRelease(s: Site, steps: seq<Step>, id: string)
    requires id in s.requested && LeavesAlone(s, steps, id) && NoRelease(steps)
    ensures Lookup(Run(s, steps).requested, id) == Lookup(s.requested, id)
    ensures Lookup(Run(s, steps).memory.dispatched, id) == Lookup(s.memory.dispatched, id)
  {
    if steps != [] {
      var front, step := steps[..|steps| - 1], steps[|steps| - 1];
      assert forall k :: 0 <= k < |front| ==> front[k] == steps[k];
      KeptUntilRelease(s, front, id);
      var before := Run(s, front);
      if step.Dispatch? {
        var begun := before.(memory := Begun(before.memory, before.requested));
        if step.shares.Some? { DispatchLeaves(begun, Changed(begun.memory, step.shares.value), step.outcomes, id); }
      } else {
        assert !steps[|steps| - 1].Release?;
      }
    }
  }

  /** An operator's mid-event value, with nothing commanding the module after it,
      survives the event's release exactly if the release cannot take it for the
      event's own (there is no event, or the module's share differs), or its
      restore does not land, or restores that very value. */
  lemma OperatorValueStands(s: Site, id: string, value: real, steps: seq<Step>, outcomes: Outcomes)
    requires LeavesAlone(After(s, Operator(id, value, true)), steps, id) && NoRelease(steps)
    ensures var later := Run(After(s, Operator(id, value, true)), steps);
            Lookup(Released(later, outcomes).requested, id) == Some(value) <==>
              || later.memory.snapshot.None?
              || id !in s.memory.dispatched || !Same(value, s.memory.dispatched[id])
              || !OutcomeOf(outcomes, id).lands
              || BeforeEvent(later.memory, id) == value
  {
    var later := Run(After(s, Operator(id, value, true)), steps);
    KeptUntilRelease(After(s, Operator(id, value, true)), steps, id);
    assert HoldsEvent(later.memory, later.requested, id) <==>
      id in s.memory.dispatched && Same(value, s.memory.dispatched[id]);
    if later.memory.snapshot.Some? { ReleaseOutcome(later, outcomes, id); }
  }

  /** A value that differs from the event's share outlasts any number of
      releases, retried or not. */
  lemma OperatorValueOutlasts(s: Site, id: string, value: real, steps: seq<Step>, outcomes: Outcomes)
    requires var told := After(s, Operator(id, value, true));
             && LeavesAlone(told, steps, id)
             && (id in s.memory.dispatched ==> !Same(value, s.memory.dispatched[id]))
    ensures Lookup(Released(Run(After(s, Operator(id, value, true)), steps), outcomes).requested, id) == Some(value)
  {
    var told := After(s, Operator(id, value, true));
    StandsUnlessCommanded(told, steps, id);
  }

  /** A release that is retried never re-commands a module it already put back
      to a different value. */
  lemma RetryLeavesRestored(s: Site, outcomes: Outcomes, steps: seq<Step>, retry: Outcomes, id: string)
    requires s.memory.snapshot.Some? && HoldsEvent(s.memory, s.requested, id)
    requires OutcomeOf(outcomes, id).lands && !Same(BeforeEvent(s.memory, id), s.memory.dispatched[id])
    requires LeavesAlone(Released(s, outcomes), steps, id)
    ensures var later := Run(Released(s, outcomes), steps);
            && id !in Restores(later.memory, later.requested)
            && Lookup(Released(later, retry).requested, id) == Some(BeforeEvent(s.memory, id))
  {
    ReleaseOutcome(s, outcomes, id);
    StandsUnlessCommanded(Released(s, outcomes), steps, id);
  }
}
