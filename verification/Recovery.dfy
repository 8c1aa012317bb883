/** Recovery from a checkpoint commutes with execution. */
module Recovery {
  import opened Proto
  import opened TreeModel
  import opened TreeInvariant
  import opened Checkpoint
  import opened ReplicatedLog

  /** What `MakeCheckpoint` writes for a database: both lists, each in some order. */
  ghost predicate IsCheckpoint(nodes: seq<NodeRecord>, sessions: seq<SessionRecord>, db: Db) {
    IsNodeList(nodes, db.tree) && IsSessionList(sessions, db.sessions)
  }

  /** `SaberDB::Recover` into a newly constructed database. */
  function Restored(group: nat, nodes: seq<NodeRecord>, sessions: seq<SessionRecord>): Db {
    Db(group, Recover(Fresh, nodes), RecoverSessions(map[], sessions))
  }

  lemma {:induction false} RestoreExact(db: Db, nodes: seq<NodeRecord>, sessions: seq<SessionRecord>)
    requires Inv(db.tree) && IsCheckpoint(nodes, sessions, db)
    ensures Restored(db.group, nodes, sessions) == db.(tree := Strip(db.tree))
  {
    RecoverExact(db.tree, nodes);
    SessionsExact(db.sessions, sessions, |sessions|);
  }

  /** A replica that runs no checks is restored exactly. */
  lemma {:induction false} RestoredState(group: nat, log: seq<Entry>, k: nat, nodes: seq<NodeRecord>,
                                         sessions: seq<SessionRecord>)
    requires OwnedLog(log) && k <= |log|
    requires IsCheckpoint(nodes, sessions, StateAt(group, log, k))
    ensures Restored(group, nodes, sessions) == StateAt(group, log, k)
  {
    StateInv(group, log, k);
    RestoreExact(StateAt(group, log, k), nodes, sessions);
    StripKids(StateAt(group, log, k).tree);
  }

  /** Snapshot plus suffix equals full replay: for every log, every split and every checkpoint of the state
      at the split, a fresh database restored from it and fed the rest ends in the same state, and answers
      what a replica that executed the whole log answers. */
  lemma {:induction false} SnapshotPlusSuffix(group: nat, log: seq<Entry>, k: nat, nodes: seq<NodeRecord>,
                                              sessions: seq<SessionRecord>)
    requires OwnedLog(log) && k <= |log|
    requires IsCheckpoint(nodes, sessions, StateAt(group, log, k))
    ensures var restored := Restored(group, nodes, sessions);
            && restored == StateAt(group, log, k)
            && After(restored, log[k..]) == After(InitialDb(group), log)
            && Replies(InitialDb(group), log) == Replies(InitialDb(group), log[..k]) + Replies(restored, log[k..])
  {
    RestoredState(group, log, k, nodes, sessions);
    RunAppend(InitialDb(group), log[..k], log[k..]);
    assert log[..k] + log[k..] == log;
  }
}
