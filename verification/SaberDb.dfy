/** `SessionManager` and `SaberDB` as objects: per group a tree and a session table, updated in place by the
    entries of that group's log. */
module SaberDbObject {
  import opened Proto
  import T = TreeModel
  import opened TreeInvariant
  import opened Checkpoint
  import opened ReplicatedLog
  import opened MasterRun
  import opened Recovery
  import opened Notification
  import opened Announcements
  import opened DataTreeObject

  class SessionManager {
    var sessions: map<nat, nat>

    constructor ()
      ensures sessions == map[]
    {
      sessions := map[];
    }

    method Recover(list: seq<SessionRecord>)
      modifies this
      ensures sessions == RecoverSessions(old(sessions), list)
    {
      var i := 0;
      while i < |list|
        invariant 0 <= i <= |list|
        invariant sessions == RecoverSessions(old(sessions), list[..i])
      {
        assert list[..i + 1][..i] == list[..i];
        sessions := sessions[list[i].sessionId := list[i].version];
        i := i + 1;
      }
      assert list[..i] == list;
    }

    method GetSessionList() returns (list: seq<SessionRecord>)
      ensures IsSessionList(list, sessions)
    {
      list := [];
      var todo := sessions.Keys;
      while todo != {}
        invariant todo <= sessions.Keys
        invariant forall i :: 0 <= i < |list| ==>
                    list[i].sessionId in sessions && sessions[list[i].sessionId] == list[i].version
        invariant forall s :: s in sessions && s !in todo ==> exists i :: 0 <= i < |list| && list[i].sessionId == s
      {
        var s :| s in todo;
        ghost var before := list;
        list := list + [SessionRecord(s, sessions[s])];
        assert list[|before|].sessionId == s;
        assert forall i :: 0 <= i < |before| ==> list[i] == before[i];
        todo := todo - {s};
      }
    }

    /** The version stored for a session, if it is there. */
    method FindSession(s: nat) returns (version: Option<nat>)
      ensures version.Some? <==> s in sessions
      ensures version.Some? ==> version.value == sessions[s]
    {
      version := if s in sessions then Some(sessions[s]) else None;
    }

    method CreateSession(s: nat, newVersion: nat, oldVersion: nat) returns (accepted: bool)
      modifies this
      ensures Verdict(sessions, accepted) == ReplicatedLog.CreateSession(old(sessions), s, newVersion, oldVersion)
    {
      if oldVersion != 0 {
        if s in sessions && sessions[s] == oldVersion {
          sessions := sessions[s := newVersion];
          return true;
        } else {
          return false;
        }
      } else {
        sessions := sessions[s := newVersion];
        return true;
      }
    }

    method CloseSession(s: nat, version: nat) returns (accepted: bool)
      modifies this
      ensures Verdict(sessions, accepted) == ReplicatedLog.CloseSession(old(sessions), s, version)
    {
      if s in sessions {
        if sessions[s] == version {
          sessions := sessions - {s};
          return true;
        }
        return false;
      }
      assert sessions - {s} == sessions;
      return true;
    }
  }

  /** The event that the data watches hear of when a command changes a node. */
  function EventOf(command: Command): EventType {
    match command
    case CreateNode(_) => NodeCreated
    case WriteNode(_) => NodeDataChanged
    case _ => NodeDeleted
  }

  lemma {:induction false} ToldByCreate(a: Audience, b: Audience, db: Db, e: Entry)
    requires e.command.CreateNode? && Linked(db.tree)
    requires InformedBy(a, b, FiringsOf(db.tree, DoCreate(e.command.create, TxnOf(db, e))), NodeCreated)
    ensures ToldOfChanges(a, b, db.tree, ReplicatedLog.Execute(db, e).db.tree, NodeCreated)
  {
    ToldOfWrite(a, b, db.tree, DoCreate(e.command.create, TxnOf(db, e)), NodeCreated);
  }

  lemma {:induction false} ToldByDelete(a: Audience, b: Audience, db: Db, e: Entry)
    requires e.command.DeleteNode? && Linked(db.tree)
    requires InformedBy(a, b, FiringsOf(db.tree, DoDelete(e.command.delete, e.instanceId)), NodeDeleted)
    ensures ToldOfChanges(a, b, db.tree, ReplicatedLog.Execute(db, e).db.tree, NodeDeleted)
  {
    ToldOfWrite(a, b, db.tree, DoDelete(e.command.delete, e.instanceId), NodeDeleted);
  }

  lemma {:induction false} ToldByWrite(a: Audience, b: Audience, db: Db, e: Entry)
    requires e.command.WriteNode? && Linked(db.tree)
    requires InformedBy(a, b, FiringsOf(db.tree, DoSetData(e.command.write, TxnOf(db, e))), NodeDataChanged)
    ensures ToldOfChanges(a, b, db.tree, ReplicatedLog.Execute(db, e).db.tree, NodeDataChanged)
  {
    ToldOfWrite(a, b, db.tree, DoSetData(e.command.write, TxnOf(db, e)), NodeDataChanged);
  }

  class SaberDB {
    const trees: seq<DataTree>
    const managers: seq<SessionManager>

    ghost function Footprint(g: nat): set<object>
      requires g < |trees| == |managers|
    {
      PartsOf(trees[g], managers[g])
    }

    /** Groups share nothing. */
    ghost predicate Separate() {
      && |trees| == |managers|
      && (forall g, h {:trigger Footprint(g), Footprint(h)} :: 0 <= g < |trees| && 0 <= h < |trees| && g != h ==>
            Footprint(g) !! Footprint(h))
      && (forall g {:trigger Footprint(g)} :: 0 <= g < |trees| ==> this !in Footprint(g))
    }

    ghost predicate GroupValid(g: nat)
      requires g < |trees| == |managers|
      reads Footprint(g)
    {
      trees[g].Valid()
    }

    function View(g: nat): Db
      requires g < |trees| == |managers|
      reads trees[g], managers[g]
    {
      Db(g, trees[g].View(), managers[g].sessions)
    }

    lemma {:induction false} OthersApart(g: nat)
      requires Separate() && g < |trees|
      ensures forall h :: 0 <= h < |trees| && h != g ==> trees[h] !in Footprint(g) && managers[h] !in Footprint(g)
    {
      assert forall h :: 0 <= h < |trees| && h != g ==> Footprint(h) !! Footprint(g);
      assert forall h :: 0 <= h < |trees| ==> trees[h] in Footprint(h) && managers[h] in Footprint(h);
    }

    /** `Execute` for one group: the step function of the replicated log; for a close, from every tree that the log
        can reach. From such a tree each watcher of a node that appeared, disappeared or was rewritten, and each
        of a changed child set, is told once, and no other is told anything. The other groups do not notice. */
    method Execute(g: nat, e: Entry) returns (valid: bool, reply: Reply)
      requires Separate() && g < |trees| && GroupValid(g)
      modifies Footprint(g)
      ensures GroupValid(g)
      ensures !e.command.CloseSessions? || Inv(old(View(g)).tree) ==>
                Stepped(View(g), reply) == ReplicatedLog.Execute(old(View(g)), e)
      ensures Inv(old(View(g)).tree) ==>
                ToldOfChanges(old(trees[g].Ears()), trees[g].Ears(), old(View(g)).tree, View(g).tree,
                              EventOf(e.command))
      ensures valid <==> !e.command.InvalidCommand?
      ensures forall h :: 0 <= h < |trees| && h != g ==> View(h) == old(View(h))
    {
      OthersApart(g);
      ToldOfNothing(trees[g].Ears(), View(g).tree, View(g).tree, EventOf(e.command));
      var txn := Transaction(g, e.instanceId, e.time, e.sessionId);
      valid, reply := true, NoReply;
      match e.command
      case Connect(s, version) =>
        var accepted := managers[g].CreateSession(s, e.instanceId, version);
        reply := ConnectReply(if accepted then Ok else Unknown);
      case CloseSessions(closings) =>
        Close(g, closings, txn);
      case CreateNode(_) =>
        reply := ExecuteCreate(g, e, txn);
      case DeleteNode(_) =>
        reply := ExecuteDelete(g, e, txn);
      case WriteNode(_) =>
        reply := ExecuteWrite(g, e, txn);
      case InvalidCommand =>
        valid, reply := false, Refused;
    }

    method ExecuteCreate(g: nat, e: Entry, txn: Transaction) returns (reply: Reply)
      requires Separate() && g < |trees| && GroupValid(g) && e.command.CreateNode? && txn == TxnOf(View(g), e)
      modifies Footprint(g)
      ensures GroupValid(g) && Stepped(View(g), reply) == ReplicatedLog.Execute(old(View(g)), e)
      ensures Inv(old(View(g)).tree) ==>
                ToldOfChanges(old(trees[g].Ears()), trees[g].Ears(), old(View(g)).tree, View(g).tree, NodeCreated)
    {
      ghost var db, ears := View(g), trees[g].Ears();
      var r := trees[g].Create(e.command.create, txn, false);
      if Inv(db.tree) {
        ToldByCreate(ears, trees[g].Ears(), db, e);
      }
      reply := CreateReply(r);
    }

    method ExecuteDelete(g: nat, e: Entry, txn: Transaction) returns (reply: Reply)
      requires Separate() && g < |trees| && GroupValid(g) && e.command.DeleteNode? && txn == TxnOf(View(g), e)
      modifies Footprint(g)
      ensures GroupValid(g) && Stepped(View(g), reply) == ReplicatedLog.Execute(old(View(g)), e)
      ensures Inv(old(View(g)).tree) ==>
                ToldOfChanges(old(trees[g].Ears()), trees[g].Ears(), old(View(g)).tree, View(g).tree, NodeDeleted)
    {
      ghost var db, ears := View(g), trees[g].Ears();
      var r := trees[g].Delete(e.command.delete, txn, false);
      if Inv(db.tree) {
        ToldByDelete(ears, trees[g].Ears(), db, e);
      }
      reply := DeleteReply(r);
    }

    method ExecuteWrite(g: nat, e: Entry, txn: Transaction) returns (reply: Reply)
      requires Separate() && g < |trees| && GroupValid(g) && e.command.WriteNode? && txn == TxnOf(View(g), e)
      modifies Footprint(g)
      ensures GroupValid(g) && Stepped(View(g), reply) == ReplicatedLog.Execute(old(View(g)), e)
      ensures Inv(old(View(g)).tree) ==>
                ToldOfChanges(old(trees[g].Ears()), trees[g].Ears(), old(View(g)).tree, View(g).tree, NodeDataChanged)
    {
      ghost var db, ears := View(g), trees[g].Ears();
      var r := trees[g].SetData(e.command.write, txn, false);
      if Inv(db.tree) {
        ToldByWrite(ears, trees[g].Ears(), db, e);
      }
      reply := WriteReply(r);
    }

    /** The group once these closings were processed: the state, and who was told. */
    ghost predicate ClosedUpTo(g: nat, before: Db, ears: Audience, closings: seq<Closing>, id: nat)
      requires g < |trees| == |managers|
      reads Footprint(g)
    {
      && GroupValid(g)
      && (Inv(before.tree) ==>
            && View(g) == CloseEach(before, closings, id) && Inv(View(g).tree)
            && Shrinks(before.tree, View(g).tree)
            && ToldOfChanges(ears, trees[g].Ears(), before.tree, View(g).tree, NodeDeleted))
    }

    lemma {:induction false} ClosedNone(g: nat, id: nat)
      requires g < |trees| == |managers| && GroupValid(g)
      ensures ClosedUpTo(g, View(g), trees[g].Ears(), [], id)
    {
      ToldOfNothing(trees[g].Ears(), View(g).tree, View(g).tree, NodeDeleted);
    }

    method CloseNext(g: nat, c: Closing, txn: Transaction, ghost before: Db, ghost ears: Audience,
                     ghost done: seq<Closing>)
      requires Separate() && g < |trees| && ClosedUpTo(g, before, ears, done, txn.instanceId)
      modifies Footprint(g)
      ensures ClosedUpTo(g, before, ears, done + [c], txn.instanceId)
    {
      ghost var tree, heard := View(g).tree, trees[g].Ears();
      assert (done + [c])[..|done|] == done;
      var accepted := managers[g].CloseSession(c.sessionId, c.version);
      if accepted {
        trees[g].KillSession(c.sessionId, txn);
        if Inv(before.tree) {
          ToldOfKill(ears, heard, trees[g].Ears(), before.tree, tree, c.sessionId, txn.instanceId);
        }
      }
      if Inv(before.tree) {
        CloseInv(before, done + [c], txn.instanceId);
      }
    }

    method Close(g: nat, closings: seq<Closing>, txn: Transaction)
      requires Separate() && g < |trees| && GroupValid(g)
      modifies Footprint(g)
      ensures GroupValid(g)
      ensures Inv(old(View(g)).tree) ==>
                && View(g) == CloseEach(old(View(g)), closings, txn.instanceId)
                && ToldOfChanges(old(trees[g].Ears()), trees[g].Ears(), old(View(g)).tree, View(g).tree, NodeDeleted)
    {
      ghost var before, ears := View(g), trees[g].Ears();
      var i := 0;
      assert closings[..0] == [];
      ClosedNone(g, txn.instanceId);
      while i < |closings|
        invariant 0 <= i <= |closings| && ClosedUpTo(g, before, ears, closings[..i], txn.instanceId)
      {
        assert closings[..i + 1] == closings[..i] + [closings[i]];
        CloseNext(g, closings[i], txn, before, ears, closings[..i]);
        i := i + 1;
      }
      assert closings[..i] == closings;
    }

    /** The check-only calls: what they leave behind is the master's step of the same name. */
    method CheckCreate(g: nat, request: CreateRequest) returns (response: CreateResponse)
      requires Separate() && g < |trees| && GroupValid(g)
      modifies Footprint(g)
      ensures GroupValid(g)
      ensures View(g) == MasterStep(old(View(g)), TryCreate(request))
      ensures response.code == T.CreateCode(old(View(g)).tree, request, true)
    {
      response := trees[g].Create(request, Transaction(0, 0, 0, 0), true);
    }

    method CheckDelete(g: nat, request: DeleteRequest) returns (code: ResponseCode)
      requires Separate() && g < |trees| && GroupValid(g)
      modifies Footprint(g)
      ensures GroupValid(g)
      ensures View(g) == MasterStep(old(View(g)), TryDelete(request))
      ensures code == T.DeleteCode(old(View(g)).tree, request, true)
    {
      code := trees[g].Delete(request, Transaction(0, 0, 0, 0), true);
    }

    method CheckSetData(g: nat, request: SetDataRequest) returns (response: SetDataResponse)
      requires Separate() && g < |trees| && GroupValid(g)
      modifies Footprint(g)
      ensures GroupValid(g)
      ensures View(g) == MasterStep(old(View(g)), TryWrite(request))
      ensures response.code == T.SetDataCode(old(View(g)).tree, request)
    {
      response := trees[g].SetData(request, Transaction(0, 0, 0, 0), true);
    }

    method MakeCheckpoint(g: nat) returns (nodes: seq<NodeRecord>, sessions: seq<SessionRecord>)
      requires Separate() && g < |trees|
      ensures IsCheckpoint(nodes, sessions, View(g))
    {
      nodes := trees[g].GetDataNodeList();
      sessions := managers[g].GetSessionList();
    }

    /** Recovery merges both lists; into a newly constructed group it gives `Restored`. */
    method RecoverGroup(g: nat, nodes: seq<NodeRecord>, sessions: seq<SessionRecord>)
      requires Separate() && g < |trees| && GroupValid(g)
      modifies Footprint(g)
      ensures GroupValid(g)
      ensures View(g) == Db(g, Checkpoint.Recover(old(View(g)).tree, nodes),
                            RecoverSessions(old(View(g)).sessions, sessions))
      ensures old(View(g)) == InitialDb(g) ==> View(g) == Restored(g, nodes, sessions)
    {
      trees[g].Recover(nodes);
      managers[g].Recover(sessions);
    }

    /** One more entry of a log. */
    method ReplayNext(g: nat, e: Entry, ghost before: Db, ghost done: seq<Entry>, ghost replies: seq<Reply>)
      returns (reply: Reply)
      requires Separate() && g < |trees| && GroupValid(g) && Inv(View(g).tree) && OwnedEntry(e)
      requires View(g) == ReplicatedLog.After(before, done) && replies == Replies(before, done)
      modifies Footprint(g)
      ensures GroupValid(g) && Inv(View(g).tree)
      ensures View(g) == ReplicatedLog.After(before, done + [e]) && replies + [reply] == Replies(before, done + [e])
      ensures forall h :: 0 <= h < |trees| && h != g ==> View(h) == old(View(h))
    {
      assert (done + [e])[..|done|] == done;
      ExecuteInv(View(g), e);
      var valid;
      valid, reply := Execute(g, e);
    }

    /** Executes a log. */
    method Replay(g: nat, log: seq<Entry>) returns (replies: seq<Reply>)
      requires Separate() && g < |trees| && GroupValid(g) && Inv(View(g).tree) && OwnedLog(log)
      modifies Footprint(g)
      ensures GroupValid(g) && Inv(View(g).tree)
      ensures View(g) == ReplicatedLog.After(old(View(g)), log) && replies == Replies(old(View(g)), log)
      ensures forall h :: 0 <= h < |trees| && h != g ==> View(h) == old(View(h))
    {
      ghost var before := View(g);
      replies := [];
      var i := 0;
      assert log[..0] == [];
      while i < |log|
        invariant 0 <= i <= |log| && GroupValid(g) && Inv(View(g).tree)
        invariant View(g) == ReplicatedLog.After(before, log[..i]) && replies == Replies(before, log[..i])
        invariant forall h :: 0 <= h < |trees| && h != g ==> View(h) == old(View(h))
      {
        assert log[..i + 1] == log[..i] + [log[i]];
        var reply := ReplayNext(g, log[i], before, log[..i], replies);
        replies := replies + [reply];
        i := i + 1;
      }
      assert log[..i] == log;
    }

    constructor (groups: nat)
      ensures Separate() && |trees| == groups
      ensures forall g {:trigger Footprint(g)} :: 0 <= g < groups ==> fresh(Footprint(g))
      ensures forall g :: 0 <= g < groups ==> GroupValid(g) && View(g) == InitialDb(g)
    {
      var ts: seq<DataTree>, ms: seq<SessionManager> := [], [];
      ghost var used: set<object> := {};
      var i := 0;
      while i < groups
        invariant 0 <= i <= groups && |ts| == |ms| == i
        invariant fresh(used) && Apart(ts, ms, used)
        invariant forall g :: 0 <= g < i ==> ts[g].Valid() && ts[g].View() == T.Fresh && ms[g].sessions == map[]
      {
        var t := new DataTree();
        var m := new SessionManager();
        ApartNext(ts, ms, used, t, m);
        ts, ms := ts + [t], ms + [m];
        used := used + PartsOf(t, m);
        i := i + 1;
      }
      trees, managers := ts, ms;
    }
  }

  /** A new server that executes a log. */
  method Serve(groups: nat, g: nat, log: seq<Entry>) returns (server: SaberDB, replies: seq<Reply>)
    requires g < groups && OwnedLog(log)
    ensures server.Separate() && |server.trees| == groups && server.GroupValid(g) && fresh(server.Footprint(g))
    ensures server.View(g) == ReplicatedLog.After(InitialDb(g), log) && Inv(server.View(g).tree)
    ensures replies == Replies(InitialDb(g), log)
  {
    FreshInv();
    server := new SaberDB(groups);
    assert server.View(g) == InitialDb(g);
    replies := server.Replay(g, log);
  }

  /** A new server that recovers from a checkpoint of a replica that executed k entries of the log. */
  method Rejoin(groups: nat, g: nat, nodes: seq<NodeRecord>, sessions: seq<SessionRecord>,
                ghost log: seq<Entry>, ghost k: nat) returns (server: SaberDB)
    requires g < groups && OwnedLog(log) && k <= |log| && IsCheckpoint(nodes, sessions, StateAt(g, log, k))
    ensures server.Separate() && |server.trees| == groups && server.GroupValid(g) && fresh(server.Footprint(g))
    ensures server.View(g) == StateAt(g, log, k)
  {
    server := new SaberDB(groups);
    assert server.View(g) == InitialDb(g);
    server.RecoverGroup(g, nodes, sessions);
    RestoredState(g, log, k, nodes, sessions);
  }

  lemma {:induction false} WholeLog(g: nat, log: seq<Entry>, k: nat)
    requires k <= |log|
    ensures ReplicatedLog.After(StateAt(g, log, k), log[k..]) == ReplicatedLog.After(InitialDb(g), log)
    ensures Replies(InitialDb(g), log[..k]) + Replies(StateAt(g, log, k), log[k..]) == Replies(InitialDb(g), log)
  {
    RunAppend(InitialDb(g), log[..k], log[k..]);
    assert log[..k] + log[k..] == log;
  }

  /** Two servers that share nothing and have the same state execute the same log. */
  method ReplayBoth(a: SaberDB, b: SaberDB, g: nat, log: seq<Entry>) returns (ra: seq<Reply>, rb: seq<Reply>)
    requires a.Separate() && g < |a.trees| && a.GroupValid(g) && b.Separate() && g < |b.trees| && b.GroupValid(g)
    requires a.Footprint(g) !! b.Footprint(g)
    requires a.View(g) == b.View(g) && Inv(a.View(g).tree) && OwnedLog(log)
    modifies a.Footprint(g), b.Footprint(g)
    ensures a.View(g) == b.View(g) == ReplicatedLog.After(old(a.View(g)), log)
    ensures ra == rb == Replies(old(a.View(g)), log)
  {
    ra := a.Replay(g, log);
    label Done:
    rb := b.Replay(g, log);
    assert a.trees[g] in a.Footprint(g) && a.managers[g] in a.Footprint(g);
    assert a.View(g) == old@Done(a.View(g));
  }

  /** A server writes a checkpoint, and a new one recovers from it. */
  method Transfer(server: SaberDB, groups: nat, g: nat, ghost log: seq<Entry>, ghost k: nat) returns (late: SaberDB)
    requires server.Separate() && g < |server.trees| && g < groups && OwnedLog(log) && k <= |log|
    requires server.View(g) == StateAt(g, log, k)
    ensures late.Separate() && |late.trees| == groups && late.GroupValid(g) && fresh(late.Footprint(g))
    ensures late.View(g) == StateAt(g, log, k)
  {
    var nodes, sessions := server.MakeCheckpoint(g);
    late := Rejoin(groups, g, nodes, sessions, log, k);
  }

  /** A server executes a prefix of the log; another, newly made, recovers from its checkpoint. */
  method Snapshot(groups: nat, g: nat, log: seq<Entry>, k: nat)
    returns (server: SaberDB, late: SaberDB, replies: seq<Reply>)
    requires g < groups && OwnedLog(log) && k <= |log|
    ensures server.Separate() && |server.trees| == groups && server.GroupValid(g) && fresh(server.Footprint(g))
    ensures late.Separate() && |late.trees| == groups && late.GroupValid(g) && fresh(late.Footprint(g))
    ensures server.Footprint(g) !! late.Footprint(g)
    ensures server.View(g) == late.View(g) == StateAt(g, log, k) && Inv(server.View(g).tree)
    ensures replies == Replies(InitialDb(g), log[..k])
  {
    server, replies := Serve(groups, g, log[..k]);
    late := Transfer(server, groups, g, log, k);
  }

  /** Snapshot plus suffix on the objects: when both execute the rest, they end in the same state and answer the
      same, and it is the state and the answers of the whole log. */
  method CatchUp(groups: nat, g: nat, log: seq<Entry>, k: nat)
    returns (server: SaberDB, late: SaberDB, first: seq<Reply>, rest: seq<Reply>, restLate: seq<Reply>)
    requires g < groups && OwnedLog(log) && k <= |log|
    ensures |server.trees| == |server.managers| == groups == |late.trees| == |late.managers|
    ensures server.View(g) == late.View(g) == ReplicatedLog.After(InitialDb(g), log)
    ensures rest == restLate && first + rest == Replies(InitialDb(g), log)
  {
    server, late, first := Snapshot(groups, g, log, k);
    rest, restLate := ReplayBoth(server, late, g, log[k..]);
    WholeLog(g, log, k);
  }

  /** The objects of one group. */
  function PartsOf(t: DataTree, m: SessionManager): set<object> {
    {t, t.dataWatches, t.childWatches, m}
  }

  /** The groups share nothing, and `used` holds all their objects. */
  ghost predicate Apart(ts: seq<DataTree>, ms: seq<SessionManager>, used: set<object>) {
    && |ts| == |ms|
    && (forall g :: 0 <= g < |ts| ==> PartsOf(ts[g], ms[g]) <= used)
    && (forall g, h :: 0 <= g < h < |ts| ==> PartsOf(ts[g], ms[g]) !! PartsOf(ts[h], ms[h]))
  }

  lemma {:induction false} ApartNext(ts: seq<DataTree>, ms: seq<SessionManager>, used: set<object>, t: DataTree,
                                     m: SessionManager)
    requires Apart(ts, ms, used) && PartsOf(t, m) !! used
    ensures Apart(ts + [t], ms + [m], used + PartsOf(t, m))
  {
  }
}
