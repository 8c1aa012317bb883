/** Runs of the master: entries executed from the log, interleaved with the check-only forms of the writes
    that sessions run before they propose. A follower's run is the same thing without the checks. */
module MasterRun {
  import opened Proto
  import opened TreeModel
  import opened TreeInvariant
  import opened ReplicatedLog

  datatype Event =
    | Exec(entry: Entry)
    | TryCreate(create: CreateRequest)
    | TryDelete(delete: DeleteRequest)
    | TryWrite(write: SetDataRequest)

  /** What an event does on the master. The checks of Delete and SetData change nothing. */
  function MasterStep(db: Db, event: Event): Db {
    match event
    case Exec(e) => Execute(db, e).db
    case TryCreate(request) => db.(tree := CheckCreate(db.tree, request).tree)
    case TryDelete(_) => db
    case TryWrite(_) => db
  }

  function Master(db: Db, events: seq<Event>): Db {
    if events == [] then db else MasterStep(Master(db, events[..|events| - 1]), events[|events| - 1])
  }

  lemma {:induction false} MasterTwo(db: Db, a: Event, b: Event)
    ensures Master(db, [a, b]) == MasterStep(MasterStep(db, a), b)
  {
    assert [a, b][..1] == [a] && [a][..0] == [];
    assert Master(db, [a]) == MasterStep(db, a);
  }

  /** The master's database when the first k events have happened. */
  function MasterAt(group: nat, events: seq<Event>, k: nat): Db
    requires k <= |events|
  {
    Master(InitialDb(group), events[..k])
  }

  lemma {:induction false} MasterAtStep(group: nat, events: seq<Event>, k: nat)
    requires k < |events|
    ensures MasterAt(group, events, k + 1) == MasterStep(MasterAt(group, events, k), events[k])
  {
    assert events[..k + 1][..k] == events[..k];
  }

  predicate OwnedEvents(events: seq<Event>) {
    forall i :: 0 <= i < |events| && events[i].Exec? ==> OwnedEntry(events[i].entry)
  }

  /** The invariant survives every interleaving of executed entries and checks. */
  lemma {:induction false} MasterInv(db: Db, events: seq<Event>)
    requires Inv(db.tree) && OwnedEvents(events)
    ensures Inv(Master(db, events).tree)
    ensures Master(db, events).group == db.group
  {
    if events != [] {
      var before := Master(db, events[..|events| - 1]);
      MasterInv(db, events[..|events| - 1]);
      match events[|events| - 1]
      case Exec(e) => ExecuteInv(before, e);
      case TryCreate(request) => CheckCreateInv(before.tree, request);
      case _ =>
    }
  }

  lemma {:induction false} MasterAtInv(group: nat, events: seq<Event>, k: nat)
    requires OwnedEvents(events) && k <= |events|
    ensures Inv(MasterAt(group, events, k).tree)
  {
    FreshInv();
    MasterInv(InitialDb(group), events[..k]);
  }
}
