/** Session versions fence stale closes, and ephemeral nodes do not outlive their owner's session. */
module Fencing {
  import opened Proto
  import opened Paths
  import opened TreeModel
  import opened TreeInvariant
  import opened KillSession
  import opened ReplicatedLog
  import opened Outcomes

  /** Instance ids are positive and strictly increasing, as consensus assigns them. */
  ghost predicate Increasing(log: seq<Entry>) {
    && (forall i :: 0 <= i < |log| ==> log[i].instanceId > 0)
    && (forall i, j :: 0 <= i < j < |log| ==> log[i].instanceId < log[j].instanceId)
  }

  /** The entry is a CONNECT of session s that the database accepts. */
  predicate Reconnects(db: Db, e: Entry, s: nat) {
    && e.command.Connect? && e.command.sessionId == s
    && CreateSession(db.sessions, s, e.instanceId, e.command.version).accepted
  }

  lemma {:induction false} CloseOnlyForgets(db: Db, closings: seq<Closing>, id: nat, s: nat)
    ensures var after := CloseEach(db, closings, id).sessions;
            s in after ==> s in db.sessions && after[s] == db.sessions[s]
  {
    if closings != [] {
      CloseOnlyForgets(db, closings[..|closings| - 1], id, s);
    }
  }

  /** A stored version is the instance id of the CONNECT that wrote it. */
  lemma {:induction false} SessionStep(db: Db, e: Entry, s: nat)
    ensures var after := Execute(db, e).db.sessions;
            s in after ==>
              if Reconnects(db, e, s) then after[s] == e.instanceId
              else s in db.sessions && after[s] == db.sessions[s]
  {
    if e.command.CloseSessions? {
      CloseOnlyForgets(db, e.command.closings, e.instanceId, s);
    }
  }

  lemma {:induction false} VersionsArePast(group: nat, log: seq<Entry>, k: nat, s: nat)
    requires Increasing(log) && k <= |log| && s in StateAt(group, log, k).sessions
    ensures forall i :: k <= i < |log| ==> StateAt(group, log, k).sessions[s] < log[i].instanceId
    ensures StateAt(group, log, k).sessions[s] > 0
    decreases k
  {
    if k > 0 {
      StateStep(group, log, k - 1);
      SessionStep(StateAt(group, log, k - 1), log[k - 1], s);
      if !Reconnects(StateAt(group, log, k - 1), log[k - 1], s) {
        VersionsArePast(group, log, k - 1, s);
      }
    }
  }

  /** After an accepted CONNECT the session, as long as it lives, carries that version or a later one. */
  lemma {:induction false} VersionsNeverReturn(group: nat, log: seq<Entry>, i: nat, j: nat, s: nat)
    requires Increasing(log) && i < j <= |log| && Reconnects(StateAt(group, log, i), log[i], s)
    ensures s in StateAt(group, log, j).sessions ==> StateAt(group, log, j).sessions[s] >= log[i].instanceId
    decreases j
  {
    StateStep(group, log, j - 1);
    SessionStep(StateAt(group, log, j - 1), log[j - 1], s);
    if i < j - 1 {
      VersionsNeverReturn(group, log, i, j - 1, s);
    }
  }

  /** The nodes a session owns, as they are. */
  ghost predicate KeepsNodesOf(t: Tree, u: Tree, s: nat) {
    forall p :: p in t.nodes && t.nodes[p].stat.ephemeralId == s ==> p in u.nodes && u.nodes[p] == t.nodes[p]
  }

  lemma {:induction false} KillSparesOthers(t: Tree, victim: nat, s: nat, id: nat)
    requires Inv(t) && victim != s && s != 0
    ensures KeepsNodesOf(t, Kill(t, victim, id), s)
  {
    var u := Kill(t, victim, id);
    OwnedAreLeaves(t, victim);
    if victim in t.ephemerals {
      KillEffect(t, victim, id);
      forall p | p in t.nodes && t.nodes[p].stat.ephemeralId == s
        ensures p in u.nodes && u.nodes[p] == t.nodes[p]
      {
        PurgeKids(Disown(t, victim), OwnedBy(t, victim), id, p);
        assert Kids(t, p) == {};
      }
    } else {
      assert Disown(t, victim) == t;
      PurgeNothing(t, id);
    }
  }

  lemma {:induction false} StaleCloseIsHarmless(db: Db, closings: seq<Closing>, id: nat, s: nat)
    requires Inv(db.tree) && s != 0 && s in db.sessions
    requires forall i :: 0 <= i < |closings| && closings[i].sessionId == s ==> closings[i].version != db.sessions[s]
    ensures var after := CloseEach(db, closings, id);
            && s in after.sessions && after.sessions[s] == db.sessions[s]
            && KeepsNodesOf(db.tree, after.tree, s)
  {
    if closings != [] {
      var n := |closings| - 1;
      var mid := CloseEach(db, closings[..n], id);
      StaleCloseIsHarmless(db, closings[..n], id, s);
      CloseInv(db, closings[..n], id);
      if closings[n].sessionId != s {
        KillSparesOthers(mid.tree, closings[n].sessionId, s, id);
      }
    }
  }

  /** Fencing: a CLOSE built from the version that the table held at position k does nothing to a session that
      was reconnected in between: the session stays, with its version, and so do all the nodes it owns. */
  lemma {:induction false} CloseIsFenced(group: nat, log: seq<Entry>, s: nat, k: nat, i: nat, j: nat)
    requires OwnedLog(log) && Increasing(log) && s != 0 && k <= i < j < |log|
    requires s in StateAt(group, log, k).sessions
    requires Reconnects(StateAt(group, log, i), log[i], s)
    requires log[j].command.CloseSessions?
    requires forall c :: c in log[j].command.closings && c.sessionId == s ==>
               c.version == StateAt(group, log, k).sessions[s]
    ensures var before, after := StateAt(group, log, j), StateAt(group, log, j + 1);
            s in before.sessions ==>
              && s in after.sessions && after.sessions[s] == before.sessions[s]
              && KeepsNodesOf(before.tree, after.tree, s)
  {
    var before := StateAt(group, log, j);
    StateStep(group, log, j);
    if s in before.sessions {
      VersionsArePast(group, log, k, s);
      VersionsNeverReturn(group, log, i, j, s);
      StateInv(group, log, j);
      StaleCloseIsHarmless(before, log[j].command.closings, log[j].instanceId, s);
    }
  }

  lemma {:induction false} OneReconnects(group: nat, log: seq<Entry>, s: nat, i: nat, j: nat)
    requires Increasing(log) && i < j < |log|
    requires Reconnects(StateAt(group, log, i), log[i], s) && log[i].command.version != 0
    requires log[j].command.Connect? && log[j].command.sessionId == s
    requires log[j].command.version == log[i].command.version
    ensures !Reconnects(StateAt(group, log, j), log[j], s)
  {
    VersionsArePast(group, log, i, s);
    VersionsNeverReturn(group, log, i, j, s);
  }

  /** Of the CONNECTs of one session that carry the same nonzero old version, at most one answers RC_OK: once one
      has, every later one answers RC_UNKNOWN and leaves the database as it was. */
  lemma {:induction false} OneConnectWins(group: nat, log: seq<Entry>, s: nat, i: nat, j: nat)
    requires Increasing(log) && i < j < |log|
    requires log[i].command.Connect? && log[i].command.sessionId == s && log[i].command.version != 0
    requires log[j].command.Connect? && log[j].command.sessionId == s
    requires log[j].command.version == log[i].command.version
    requires Replies(InitialDb(group), log)[i] == ConnectReply(Ok)
    ensures Replies(InitialDb(group), log)[j] == ConnectReply(Unknown)
    ensures StateAt(group, log, j + 1) == StateAt(group, log, j)
  {
    ReplyAt(group, log, i);
    ReplyAt(group, log, j);
    StateStep(group, log, j);
    ConnectEntry(StateAt(group, log, i), log[i]);
    ConnectEntry(StateAt(group, log, j), log[j]);
    OneReconnects(group, log, s, i, j);
  }

  /** And the one that carries the version just given, with no other CONNECT or CLOSE of the session in between,
      does answer RC_OK. */
  lemma {:induction false} FreshConnectWins(group: nat, log: seq<Entry>, s: nat, i: nat, j: nat)
    requires Increasing(log) && i < j < |log|
    requires log[i].command.Connect? && log[i].command.sessionId == s
    requires Replies(InitialDb(group), log)[i] == ConnectReply(Ok)
    requires log[j].command == Connect(s, log[i].instanceId)
    requires forall k :: i < k < j ==> !Touches(log[k], s)
    ensures Replies(InitialDb(group), log)[j] == ConnectReply(Ok)
  {
    ReplyAt(group, log, i);
    ReplyAt(group, log, j);
    StateStep(group, log, i);
    ConnectEntry(StateAt(group, log, i), log[i]);
    UntouchedStays(group, log, s, i + 1, j);
    ConnectEntry(StateAt(group, log, j), log[j]);
  }

  /** The entry is a CONNECT of the session or a CLOSE that names it. */
  ghost predicate Touches(e: Entry, s: nat) {
    || (e.command.Connect? && e.command.sessionId == s)
    || (e.command.CloseSessions? && exists c :: c in e.command.closings && c.sessionId == s)
  }

  lemma {:induction false} UntouchedByClose(db: Db, closings: seq<Closing>, id: nat, s: nat)
    requires s in db.sessions && forall c :: c in closings ==> c.sessionId != s
    ensures var after := CloseEach(db, closings, id).sessions; s in after && after[s] == db.sessions[s]
  {
    if closings != [] {
      UntouchedByClose(db, closings[..|closings| - 1], id, s);
      assert closings[|closings| - 1] in closings;
    }
  }

  lemma {:induction false} UntouchedStays(group: nat, log: seq<Entry>, s: nat, i: nat, j: nat)
    requires i <= j <= |log| && s in StateAt(group, log, i).sessions
    requires forall k :: i <= k < j ==> !Touches(log[k], s)
    ensures s in StateAt(group, log, j).sessions
    ensures StateAt(group, log, j).sessions[s] == StateAt(group, log, i).sessions[s]
    decreases j
  {
    if i < j {
      UntouchedStays(group, log, s, i, j - 1);
      StateStep(group, log, j - 1);
      var db, e := StateAt(group, log, j - 1), log[j - 1];
      assert !Touches(e, s);
      if e.command.CloseSessions? {
        UntouchedByClose(db, e.command.closings, e.instanceId, s);
      }
    }
  }

  // -------- Ephemeral ownership --------

  /** An ephemeral CREATE that succeeds carries a session that is live where it executes; `Execute` does not
      test this. */
  predicate LiveCreator(db: Db, e: Entry) {
    && e.command.CreateNode? && e.command.create.nodeType.IsEphemeral()
    && CreateCode(db.tree, e.command.create, false) == Ok ==>
      e.sessionId in db.sessions
  }

  ghost predicate OwnersLive(db: Db) {
    forall p :: p in db.tree.nodes && db.tree.nodes[p].stat.ephemeralId != 0 ==>
      db.tree.nodes[p].stat.ephemeralId in db.sessions
  }

  /** No node is owned by the session. */
  ghost predicate Orphaned(t: Tree, s: nat) {
    forall p :: p in t.nodes ==> t.nodes[p].stat.ephemeralId != s
  }

  lemma {:induction false} KillOrphans(t: Tree, s: nat, id: nat)
    requires Inv(t)
    ensures s != 0 ==> Orphaned(Kill(t, s, id), s)
    ensures forall p :: p in Kill(t, s, id).nodes ==>
              p in t.nodes && Kill(t, s, id).nodes[p].stat.ephemeralId == t.nodes[p].stat.ephemeralId
  {
    if s != 0 {
      KillEffect(t, s, id);
    }
  }

  lemma {:induction false} CloseKeepsOwnersLive(db: Db, closings: seq<Closing>, id: nat)
    requires Inv(db.tree) && OwnersLive(db)
    ensures OwnersLive(CloseEach(db, closings, id))
  {
    if closings != [] {
      var n := |closings| - 1;
      CloseKeepsOwnersLive(db, closings[..n], id);
      CloseInv(db, closings[..n], id);
      KillOrphans(CloseEach(db, closings[..n], id).tree, closings[n].sessionId, id);
    }
  }

  lemma {:induction false} CreateKeepsOwnersLive(db: Db, e: Entry)
    requires OwnersLive(db) && LiveCreator(db, e) && e.command.CreateNode?
    ensures OwnersLive(Execute(db, e).db)
  {
    CreatedOwner(db, e);
  }

  lemma {:induction false} DeleteKeepsOwnersLive(db: Db, e: Entry)
    requires OwnersLive(db) && e.command.DeleteNode?
    ensures OwnersLive(Execute(db, e).db)
  {
    DeleteKeepsOwners(db.tree, e.command.delete, e.instanceId);
  }

  lemma {:induction false} WriteKeepsOwnersLive(db: Db, e: Entry)
    requires OwnersLive(db) && e.command.WriteNode?
    ensures OwnersLive(Execute(db, e).db)
  {
    WriteKeepsOwners(db.tree, e.command.write, TxnOf(db, e));
  }

  lemma {:induction false} ExecuteKeepsOwnersLive(db: Db, e: Entry)
    requires Inv(db.tree) && OwnersLive(db) && LiveCreator(db, e)
    ensures OwnersLive(Execute(db, e).db)
  {
    match e.command
    case CloseSessions(closings) => CloseKeepsOwnersLive(db, closings, e.instanceId);
    case CreateNode(_) => CreateKeepsOwnersLive(db, e);
    case DeleteNode(_) => DeleteKeepsOwnersLive(db, e);
    case WriteNode(_) => WriteKeepsOwnersLive(db, e);
    case _ =>
  }

  ghost predicate KeepsOwners(t: Tree, u: Tree) {
    forall p :: p in u.nodes ==> p in t.nodes && u.nodes[p].stat.ephemeralId == t.nodes[p].stat.ephemeralId
  }

  lemma {:induction false} DeleteKeepsOwners(t: Tree, request: DeleteRequest, id: nat)
    ensures KeepsOwners(t, Delete(t, request, id).tree)
  {
  }

  lemma {:induction false} WriteKeepsOwners(t: Tree, request: SetDataRequest, txn: Transaction)
    ensures KeepsOwners(t, SetData(t, request, txn).tree)
  {
  }

  lemma {:induction false} CreatedOwner(db: Db, e: Entry)
    requires e.command.CreateNode?
    ensures var u := Execute(db, e).db.tree;
            forall p :: p in u.nodes ==>
              || (p in db.tree.nodes && u.nodes[p].stat.ephemeralId == db.tree.nodes[p].stat.ephemeralId)
              || (&& e.command.create.nodeType.IsEphemeral() && CreateCode(db.tree, e.command.create, false) == Ok
                  && u.nodes[p].stat.ephemeralId == e.sessionId)
              || u.nodes[p].stat.ephemeralId == 0
  {
  }

  /** A create for a session that is not live leaves a node whose owner is not live. */
  lemma {:induction false} DeadCreator(db: Db, e: Entry)
    requires OwnedEntry(e) && !LiveCreator(db, e)
    ensures !OwnersLive(Execute(db, e).db)
  {
    var after := Execute(db, e).db;
    var path := Create(db.tree, e.command.create, TxnOf(db, e)).response.path;
    assert path in after.tree.nodes && after.tree.nodes[path].stat.ephemeralId == e.sessionId;
  }

  lemma {:induction false} OwnersAreLive(group: nat, log: seq<Entry>, k: nat)
    requires OwnedLog(log) && k <= |log|
    requires forall i :: 0 <= i < k ==> LiveCreator(StateAt(group, log, i), log[i])
    ensures OwnersLive(StateAt(group, log, k))
  {
    if k > 0 {
      OwnersAreLive(group, log, k - 1);
      StateStep(group, log, k - 1);
      StateInv(group, log, k - 1);
      ExecuteKeepsOwnersLive(StateAt(group, log, k - 1), log[k - 1]);
    }
  }

  /** Along a log every ephemeral node's owner is live after every entry if and only if each ephemeral create
      that succeeds comes from a live session. */
  lemma {:induction false} OwnersAreLiveIff(group: nat, log: seq<Entry>)
    requires OwnedLog(log)
    ensures (forall k :: 0 <= k <= |log| ==> OwnersLive(StateAt(group, log, k))) <==>
            (forall i :: 0 <= i < |log| ==> LiveCreator(StateAt(group, log, i), log[i]))
  {
    if forall i :: 0 <= i < |log| ==> LiveCreator(StateAt(group, log, i), log[i]) {
      forall k | 0 <= k <= |log|
        ensures OwnersLive(StateAt(group, log, k))
      {
        OwnersAreLive(group, log, k);
      }
    } else {
      var i :| 0 <= i < |log| && !LiveCreator(StateAt(group, log, i), log[i]);
      StateStep(group, log, i);
      DeadCreator(StateAt(group, log, i), log[i]);
      assert !OwnersLive(StateAt(group, log, i + 1));
    }
  }

  /** Session s connects and is closed; a create of the node /name that it proposed meanwhile executes last. */
  function LateCreate(s: nat, name: string): seq<Entry> {
    [Entry(1, 0, s, Connect(s, 0)),
     Entry(2, 0, 0, CloseSessions([Closing(s, 1)])),
     Entry(3, 0, s, CreateNode(CreateRequest(Ephemeral, Join("", name), [])))]
  }

  lemma {:induction false} LateCreateIsLog(log: seq<Entry>, s: nat, name: string)
    requires s != 0 && log == LateCreate(s, name)
    ensures |log| == 3 && OwnedLog(log) && Increasing(log)
  {
  }

  lemma {:induction false} LateCreateClosed(group: nat, log: seq<Entry>, s: nat, name: string)
    requires log == LateCreate(s, name)
    ensures StateAt(group, log, 2) == InitialDb(group)
  {
    assert log[..0] == [];
    StateStep(group, log, 0);
    StateStep(group, log, 1);
    var db, c := StateAt(group, log, 1), Closing(s, 1);
    assert [c][..0] == [] && CloseEach(db, [c], 2) == CloseOne(db, c, 2);
    assert Disown(Fresh, s) == Fresh;
    PurgeNothing(Fresh, 2);
  }

  lemma {:induction false} FirstCreate(group: nat, e: Entry, name: string)
    requires IsName(name) && e.command == CreateNode(CreateRequest(Ephemeral, Join("", name), []))
    ensures !LiveCreator(InitialDb(group), e)
  {
    ParseExact(Join("", name), "", name);
  }

  lemma {:induction false} LateCreateOrphans(group: nat, log: seq<Entry>, name: string)
    requires |log| == 3 && StateAt(group, log, 2) == InitialDb(group) && OwnedEntry(log[2]) && IsName(name)
    requires log[2].command == CreateNode(CreateRequest(Ephemeral, Join("", name), []))
    ensures !OwnersLive(StateAt(group, log, 3))
  {
    StateStep(group, log, 2);
    FirstCreate(group, log[2], name);
    DeadCreator(InitialDb(group), log[2]);
  }

  /** Whatever the session and the name, this log leaves a node whose owner is not live. */
  lemma {:induction false} DeadOwnerReachable(group: nat, log: seq<Entry>, s: nat, name: string)
    requires s != 0 && IsName(name) && log == LateCreate(s, name)
    ensures OwnedLog(log) && Increasing(log) && !OwnersLive(StateAt(group, log, 3))
  {
    LateCreateIsLog(log, s, name);
    LateCreateClosed(group, log, s, name);
    LateCreateOrphans(group, log, name);
  }

  lemma {:induction false} CloseOneOrphans(db: Db, c: Closing, id: nat, s: nat)
    requires Inv(db.tree) && s != 0
    ensures Orphaned(db.tree, s) ==> Orphaned(CloseOne(db, c, id).tree, s)
    ensures c.sessionId == s && CloseSession(db.sessions, s, c.version).accepted ==>
              Orphaned(CloseOne(db, c, id).tree, s)
  {
    KillOrphans(db.tree, c.sessionId, id);
  }

  /** Unconditionally, once a CLOSE entry has been processed, no session whose close it accepted owns a node. */
  lemma {:induction false} ClosedOwnsNothing(db: Db, closings: seq<Closing>, id: nat, m: nat)
    requires Inv(db.tree) && m < |closings| && closings[m].sessionId != 0
    requires var before := CloseEach(db, closings[..m], id).sessions;
             CloseSession(before, closings[m].sessionId, closings[m].version).accepted
    ensures Orphaned(CloseEach(db, closings, id).tree, closings[m].sessionId)
    decreases |closings|
  {
    var n := |closings| - 1;
    var mid := CloseEach(db, closings[..n], id);
    assert CloseEach(db, closings, id) == CloseOne(mid, closings[n], id);
    CloseInv(db, closings[..n], id);
    if m < n {
      assert closings[..n][..m] == closings[..m];
      ClosedOwnsNothing(db, closings[..n], id, m);
    }
    CloseOneOrphans(mid, closings[n], id, closings[m].sessionId);
  }
}
