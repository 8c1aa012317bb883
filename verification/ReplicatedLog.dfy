/** The session table, one group's database, and the log that drives it: `SaberDB::Execute` as a step
    function. Consensus is taken as given: every replica executes the same sequence of entries. */
module ReplicatedLog {
  import opened Proto
  import opened TreeModel
  import opened TreeInvariant
  import opened KillSession

  // -------- SessionManager --------

  datatype Verdict = Verdict(sessions: map<nat, nat>, accepted: bool)

  /** A nonzero old version must be the one stored; zero creates or overwrites unconditionally. */
  function CreateSession(sessions: map<nat, nat>, s: nat, newVersion: nat, oldVersion: nat): Verdict {
    if oldVersion == 0 || (s in sessions && sessions[s] == oldVersion)
    then Verdict(sessions[s := newVersion], true)
    else Verdict(sessions, false)
  }

  /** Refused only when the session is there with another version. */
  function CloseSession(sessions: map<nat, nat>, s: nat, version: nat): Verdict {
    if s in sessions && sessions[s] != version then Verdict(sessions, false)
    else Verdict(sessions - {s}, true)
  }

  // -------- SaberDB --------

  datatype Db = Db(group: nat, tree: Tree, sessions: map<nat, nat>)

  function InitialDb(group: nat): Db {
    Db(group, Fresh, map[])
  }

  datatype Closing = Closing(sessionId: nat, version: nat)

  datatype Command =
    | Connect(sessionId: nat, version: nat)
    | CloseSessions(closings: seq<Closing>)
    | CreateNode(create: CreateRequest)
    | DeleteNode(delete: DeleteRequest)
    | WriteNode(write: SetDataRequest)
    | InvalidCommand

  datatype Entry = Entry(instanceId: nat, time: nat, sessionId: nat, command: Command)

  datatype Reply =
    | ConnectReply(connected: ResponseCode)
    | NoReply
    | CreateReply(created: CreateResponse)
    | DeleteReply(deleted: ResponseCode)
    | WriteReply(written: SetDataResponse)
    | Refused

  datatype Stepped = Stepped(db: Db, reply: Reply)

  function TxnOf(db: Db, e: Entry): Transaction {
    Transaction(db.group, e.instanceId, e.time, e.sessionId)
  }

  /** One session of a CLOSE entry: an accepted close also kills the session's nodes. */
  function CloseOne(db: Db, c: Closing, id: nat): Db {
    var v := CloseSession(db.sessions, c.sessionId, c.version);
    if v.accepted then Db(db.group, Kill(db.tree, c.sessionId, id), v.sessions) else db
  }

  function CloseEach(db: Db, closings: seq<Closing>, id: nat): Db {
    if closings == [] then db
    else CloseOne(CloseEach(db, closings[..|closings| - 1], id), closings[|closings| - 1], id)
  }

  function Execute(db: Db, e: Entry): Stepped {
    match e.command
    case Connect(s, version) =>
      var v := CreateSession(db.sessions, s, e.instanceId, version);
      Stepped(db.(sessions := v.sessions), ConnectReply(if v.accepted then Ok else Unknown))
    case CloseSessions(closings) =>
      Stepped(CloseEach(db, closings, e.instanceId), NoReply)
    case CreateNode(request) =>
      var r := Create(db.tree, request, TxnOf(db, e));
      Stepped(db.(tree := r.tree), CreateReply(r.response))
    case DeleteNode(request) =>
      var r := Delete(db.tree, request, e.instanceId);
      Stepped(db.(tree := r.tree), DeleteReply(r.response))
    case WriteNode(request) =>
      var r := SetData(db.tree, request, TxnOf(db, e));
      Stepped(db.(tree := r.tree), WriteReply(r.response))
    case InvalidCommand =>
      Stepped(db, Refused)
  }

  // -------- Logs --------

  /** The database after a whole log. */
  function After(db: Db, log: seq<Entry>): Db {
    if log == [] then db else Execute(After(db, log[..|log| - 1]), log[|log| - 1]).db
  }

  /** What the entries of a log answered. */
  function Replies(db: Db, log: seq<Entry>): (r: seq<Reply>)
    ensures |r| == |log|
  {
    if log == [] then []
    else Replies(db, log[..|log| - 1]) + [Execute(After(db, log[..|log| - 1]), log[|log| - 1]).reply]
  }

  /** The database of a group when the first k entries have been executed. */
  function StateAt(group: nat, log: seq<Entry>, k: nat): Db
    requires k <= |log|
  {
    After(InitialDb(group), log[..k])
  }

  lemma {:induction false} StateStep(group: nat, log: seq<Entry>, k: nat)
    requires k < |log|
    ensures StateAt(group, log, k + 1) == Execute(StateAt(group, log, k), log[k]).db
  {
    assert log[..k + 1][..k] == log[..k];
  }

  /** The k-th reply is what the k-th entry answers in the state that it finds. */
  lemma {:induction false} ReplyAt(group: nat, log: seq<Entry>, k: nat)
    requires k < |log|
    ensures Replies(InitialDb(group), log)[k] == Execute(StateAt(group, log, k), log[k]).reply
    decreases |log|
  {
    var n := |log| - 1;
    if k < n {
      ReplyAt(group, log[..n], k);
      assert log[..n][..k] == log[..k];
    }
  }

  /** An ephemeral CREATE carries the session that proposed it, and 0 is no session. */
  predicate OwnedEntry(e: Entry) {
    e.command.CreateNode? && e.command.create.nodeType.IsEphemeral() ==> e.sessionId != 0
  }

  predicate OwnedLog(log: seq<Entry>) {
    forall i :: 0 <= i < |log| ==> OwnedEntry(log[i])
  }

  lemma {:induction false} CloseInv(db: Db, closings: seq<Closing>, id: nat)
    requires Inv(db.tree)
    ensures Inv(CloseEach(db, closings, id).tree)
    ensures NoEmpty(db.tree) ==> NoEmpty(CloseEach(db, closings, id).tree)
    ensures CloseEach(db, closings, id).group == db.group
  {
    if closings != [] {
      var n := |closings| - 1;
      CloseInv(db, closings[..n], id);
      KillInv(CloseEach(db, closings[..n], id).tree, closings[n].sessionId, id);
    }
  }

  ghost predicate Preserves(db: Db, e: Entry) {
    var after := Execute(db, e).db;
    Inv(after.tree) && (NoEmpty(db.tree) ==> NoEmpty(after.tree)) && after.group == db.group
  }

  lemma {:induction false} ExecuteCreateInv(db: Db, e: Entry)
    requires Inv(db.tree) && OwnedEntry(e) && e.command.CreateNode?
    ensures Preserves(db, e)
  {
    CreateInv(db.tree, e.command.create, TxnOf(db, e));
  }

  lemma {:induction false} ExecuteDeleteInv(db: Db, e: Entry)
    requires Inv(db.tree) && e.command.DeleteNode?
    ensures Preserves(db, e)
  {
    DeleteInv(db.tree, e.command.delete, e.instanceId);
  }

  lemma {:induction false} ExecuteWriteInv(db: Db, e: Entry)
    requires Inv(db.tree) && e.command.WriteNode?
    ensures Preserves(db, e)
  {
    SetDataInv(db.tree, e.command.write, TxnOf(db, e));
  }

  lemma {:induction false} ExecuteInv(db: Db, e: Entry)
    requires Inv(db.tree) && OwnedEntry(e)
    ensures Preserves(db, e)
  {
    match e.command
    case CloseSessions(closings) => CloseInv(db, closings, e.instanceId);
    case CreateNode(_) => ExecuteCreateInv(db, e);
    case DeleteNode(_) => ExecuteDeleteInv(db, e);
    case WriteNode(_) => ExecuteWriteInv(db, e);
    case _ =>
  }

  /** The cross-map invariant holds after every log, and without checks no entry of `childrens_` is empty. */
  lemma {:induction false} LogInv(db: Db, log: seq<Entry>)
    requires Inv(db.tree) && OwnedLog(log)
    ensures Inv(After(db, log).tree)
    ensures NoEmpty(db.tree) ==> NoEmpty(After(db, log).tree)
    ensures After(db, log).group == db.group
  {
    if log != [] {
      LogInv(db, log[..|log| - 1]);
      ExecuteInv(After(db, log[..|log| - 1]), log[|log| - 1]);
    }
  }

  lemma {:induction false} RunAppend(db: Db, a: seq<Entry>, b: seq<Entry>)
    ensures After(db, a + b) == After(After(db, a), b)
    ensures Replies(db, a + b) == Replies(db, a) + Replies(After(db, a), b)
  {
    if b == [] {
      assert a + b == a;
    } else {
      var n := |b| - 1;
      RunAppend(db, a, b[..n]);
      assert (a + b)[..|a + b| - 1] == a + b[..n];
    }
  }

  lemma {:induction false} StateInv(group: nat, log: seq<Entry>, k: nat)
    requires OwnedLog(log) && k <= |log|
    ensures Inv(StateAt(group, log, k).tree) && NoEmpty(StateAt(group, log, k).tree)
    ensures StateAt(group, log, k).group == group
  {
    FreshInv();
    LogInv(InitialDb(group), log[..k]);
  }
}
