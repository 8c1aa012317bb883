/** What each command answers and what it stores, said of the nodes and of the requests: the exact condition of
    every code, the fields of the node that is created or rewritten, and that all else stays. */
module Outcomes {
  import opened Proto
  import opened Paths
  import opened TreeModel
  import opened TreeInvariant
  import opened KillSession
  import opened ReplicatedLog

  /** A node that lost or gained one child: counted, and otherwise the same. */
  ghost predicate Recounted(a: DataNode, b: DataNode, kids: nat, id: nat) {
    && SameButChildren(a, b)
    && b.stat.childrenVersion == a.stat.childrenVersion + 1
    && b.stat.childrenNum == U32(kids)
    && b.stat.childrenId == id
  }

  // -------- Create --------

  /** What a Create appends to the path: a persistent-sequential parent gives the next value of its counter. */
  function Appended(t: Tree, parent: string): string
    requires parent in t.nodes
  {
    if t.nodes[parent].nodeType == PersistentSequential then Suffix(t.nodes[parent].stat.childrenVersion + 1) else ""
  }

  /** The path splits, and there is a parent that may have children. */
  ghost predicate FitParent(t: Tree, path: string) {
    var r := ParsePath(path);
    && r.Parts? && r.parent in t.nodes
    && (t.nodes[r.parent].nodeType == Persistent || t.nodes[r.parent].nodeType == PersistentSequential)
  }

  /** The code of a Create, or of its check, which looks for the bare path. */
  ghost predicate CreateAnswer(t: Tree, request: CreateRequest, onlyCheck: bool, code: ResponseCode) {
    var r := ParsePath(request.path);
    && (code == ErrPath <==> r.BadPath?)
    && (code == NoParent <==> r.Parts? && r.parent !in t.nodes)
    && (code == ParentEphemeral <==>
          && r.Parts? && r.parent in t.nodes
          && (t.nodes[r.parent].nodeType == Ephemeral || t.nodes[r.parent].nodeType == EphemeralSequential))
    && (code == NodeExists <==>
          && FitParent(t, request.path)
          && request.path + (if onlyCheck then "" else Appended(t, r.parent)) in t.nodes)
    && (code == Ok <==>
          && FitParent(t, request.path)
          && request.path + (if onlyCheck then "" else Appended(t, r.parent)) !in t.nodes)
  }

  /** The node that a Create made, field by field. */
  ghost predicate IsNew(node: DataNode, request: CreateRequest, txn: Transaction) {
    && node.nodeType == request.nodeType
    && node.data == request.data
    && node.stat.groupId == txn.groupId
    && node.stat.createdId == node.stat.modifiedId == node.stat.childrenId == txn.instanceId
    && node.stat.createdTime == node.stat.modifiedTime == txn.time
    && node.stat.version == node.stat.childrenVersion == node.stat.childrenNum == 0
    && node.stat.dataLen == U32(|request.data|)
    && node.stat.ephemeralId ==
       (if request.nodeType == Ephemeral || request.nodeType == EphemeralSequential then txn.sessionId else 0)
  }

  ghost predicate Created(t: Tree, u: Tree, request: CreateRequest, txn: Transaction, path: string) {
    && FitParent(t, request.path)
    && var parent := ParsePath(request.path).parent;
    && path == request.path + Appended(t, parent)
    && path !in t.nodes && u.nodes.Keys == t.nodes.Keys + {path}
    && IsNew(u.nodes[path], request, txn)
    && Recounted(t.nodes[parent], u.nodes[parent], |Kids(u, parent)|, txn.instanceId)
    && (forall p :: p in t.nodes && p != parent ==> u.nodes[p] == t.nodes[p])
    && (forall q :: Kids(u, q) == Kids(t, q) + (if q == parent then {path[|parent| + 1..]} else {}))
  }

  lemma {:induction false} NamedPath(t: Tree, path: string)
    requires FitParent(t, path)
    ensures var Parts(parent, child) := ParsePath(path);
            && path + Appended(t, parent) == Join(parent, NameUnder(t.nodes[parent], child))
            && IsName(NameUnder(t.nodes[parent], child))
            && (path + Appended(t, parent))[|parent| + 1..] == NameUnder(t.nodes[parent], child)
  {
    var Parts(parent, child) := ParsePath(path);
    NameUnderIsName(t.nodes[parent], child);
    assert path + Appended(t, parent) == Join(parent, child + Appended(t, parent));
  }

  /** A name is listed under its parent exactly if there is a node of that path. */
  lemma {:induction false} ListedIffThere(t: Tree, parent: string, name: string)
    requires Linked(t) && Listed(t) && IsName(name)
    ensures name in Kids(t, parent) <==> Join(parent, name) in t.nodes
  {
    assert ListsNode(t, parent, name);
    if name !in Kids(t, parent) {
      UnlistedIsAbsent(t, parent, name);
    }
  }

  lemma {:induction false} CreateAnswers(t: Tree, request: CreateRequest, onlyCheck: bool)
    requires Inv(t)
    ensures CreateAnswer(t, request, onlyCheck, CreateCode(t, request, onlyCheck))
  {
    if FitParent(t, request.path) {
      var Parts(parent, child) := ParsePath(request.path);
      NamedPath(t, request.path);
      ListedIffThere(t, parent, if onlyCheck then child else NameUnder(t.nodes[parent], child));
      assert request.path + "" == request.path;
    }
  }

  lemma {:induction false} LinkCreates(t: Tree, parent: string, name: string, request: CreateRequest, txn: Transaction)
    requires parent in t.nodes && Join(parent, name) !in t.nodes
    ensures var u, path := Link(t, parent, name, request, txn), Join(parent, name);
            && u.nodes.Keys == t.nodes.Keys + {path}
            && IsNew(u.nodes[path], request, txn)
            && Recounted(t.nodes[parent], u.nodes[parent], |Kids(u, parent)|, txn.instanceId)
            && (forall p :: p in t.nodes && p != parent ==> u.nodes[p] == t.nodes[p])
            && (forall q :: Kids(u, q) == Kids(t, q) + (if q == parent then {name} else {}))
  {
  }

  lemma {:induction false} CreateStores(t: Tree, request: CreateRequest, txn: Transaction)
    requires Inv(t) && CreateCode(t, request, false) == Ok
    ensures var r := Create(t, request, txn); Created(t, r.tree, request, txn, r.response.path)
  {
    var Parts(parent, child) := ParsePath(request.path);
    var name := NameUnder(t.nodes[parent], child);
    NamedPath(t, request.path);
    ListedIffThere(t, parent, name);
    LinkCreates(t, parent, name, request, txn);
  }

  // -------- Delete --------

  ghost predicate VersionFits(t: Tree, path: string, version: int)
    requires path in t.nodes
  {
    version == -1 || version == t.nodes[path].stat.version
  }

  ghost predicate DeleteAnswer(t: Tree, request: DeleteRequest, code: ResponseCode) {
    var r, there := ParsePath(request.path), request.path in t.nodes;
    && (code == ErrPath <==> r.BadPath?)
    && (code == NoNode <==> r.Parts? && !there)
    && (code == BadVersion <==> r.Parts? && there && !VersionFits(t, request.path, request.version))
    && (code == ChildrenExists <==>
          r.Parts? && there && VersionFits(t, request.path, request.version) && request.path in t.childrens)
    && (code == Ok <==>
          r.Parts? && there && VersionFits(t, request.path, request.version) && request.path !in t.childrens)
  }

  ghost predicate Deleted(t: Tree, u: Tree, path: string, id: nat) {
    var r := ParsePath(path);
    && r.Parts? && path in t.nodes && u.nodes.Keys == t.nodes.Keys - {path}
    && r.parent in u.nodes && Recounted(t.nodes[r.parent], u.nodes[r.parent], |Kids(u, r.parent)|, id)
    && (forall p :: p in u.nodes && p != r.parent ==> u.nodes[p] == t.nodes[p])
    && (forall q :: Kids(u, q) == Kids(t, q) - (if q == r.parent then {r.child} else {}))
  }

  lemma {:induction false} DeleteAnswers(t: Tree, request: DeleteRequest, onlyCheck: bool)
    requires Linked(t)
    ensures DeleteAnswer(t, request, DeleteCode(t, request, onlyCheck))
  {
    DeleteFindsParent(t, request);
  }

  lemma {:induction false} DeleteRemoves(t: Tree, request: DeleteRequest, id: nat)
    requires Linked(t) && DeleteCode(t, request, false) == Ok
    ensures Deleted(t, Delete(t, request, id).tree, request.path, id)
  {
    assert HasParent(t, request.path);
    var Parts(parent, child) := ParsePath(request.path);
    var u := Unlink(t, request.path, parent, child, id);
    forall q
      ensures Kids(u, q) == Kids(t, q) - (if q == parent then {child} else {})
    {
      UnlinkKids(t, request.path, parent, child, id, q);
    }
  }

  /** On a replica that runs no checks, a node is refused for its children exactly if it has some. */
  lemma {:induction false} EntryMeansChildren(t: Tree, path: string)
    requires Inv(t) && NoEmpty(t)
    ensures path in t.childrens <==> exists p :: p in t.nodes && ParsePath(p).Parts? && ParsePath(p).parent == path
  {
    if path in t.childrens {
      var c :| c in t.childrens[path];
      assert ListsNode(t, path, c);
      ParseExact(Join(path, c), path, c);
    }
    if p :| p in t.nodes && ParsePath(p).Parts? && ParsePath(p).parent == path {
      BadPathExact("");
      assert HasParent(t, p);
    }
  }

  // -------- SetData --------

  ghost predicate SetDataAnswer(t: Tree, request: SetDataRequest, code: ResponseCode) {
    var r, there := ParsePath(request.path), request.path in t.nodes;
    && (code == ErrPath <==> r.BadPath?)
    && (code == NoNode <==> r.Parts? && !there)
    && (code == BadVersion <==> r.Parts? && there && !VersionFits(t, request.path, request.version))
    && (code == Ok <==> r.Parts? && there && VersionFits(t, request.path, request.version))
  }

  /** The node that a SetData rewrote, field by field. */
  ghost predicate IsRewritten(a: DataNode, b: DataNode, data: Bytes, txn: Transaction) {
    && b.data == data
    && b.stat.dataLen == U32(|data|)
    && b.stat.version == a.stat.version + 1
    && b.stat.modifiedId == txn.instanceId
    && b.stat.modifiedTime == txn.time
    && b.nodeType == a.nodeType
    && b.stat.groupId == a.stat.groupId
    && b.stat.createdId == a.stat.createdId
    && b.stat.createdTime == a.stat.createdTime
    && b.stat.childrenVersion == a.stat.childrenVersion
    && b.stat.childrenNum == a.stat.childrenNum
    && b.stat.childrenId == a.stat.childrenId
    && b.stat.ephemeralId == a.stat.ephemeralId
  }

  ghost predicate Rewrote(t: Tree, u: Tree, request: SetDataRequest, txn: Transaction, stat: Stat) {
    && request.path in t.nodes && u.nodes.Keys == t.nodes.Keys
    && IsRewritten(t.nodes[request.path], u.nodes[request.path], request.data, txn)
    && stat == u.nodes[request.path].stat
    && (forall p :: p in t.nodes && p != request.path ==> u.nodes[p] == t.nodes[p])
    && u.childrens == t.childrens && u.ephemerals == t.ephemerals
  }

  lemma {:induction false} SetDataAnswers(t: Tree, request: SetDataRequest)
    ensures SetDataAnswer(t, request, SetDataCode(t, request))
  {
  }

  lemma {:induction false} SetDataStores(t: Tree, request: SetDataRequest, txn: Transaction)
    requires SetDataCode(t, request) == Ok
    ensures var r := SetData(t, request, txn); Rewrote(t, r.tree, request, txn, r.response.stat)
  {
  }

  // -------- The commands --------

  function Txn(db: Db, e: Entry): Transaction {
    Transaction(db.group, e.instanceId, e.time, e.sessionId)
  }

  /** A Create answers by its condition; a success stores the node, a refusal changes nothing. */
  ghost predicate CreateOutcome(t: Tree, request: CreateRequest, txn: Transaction, u: Tree, response: CreateResponse) {
    && CreateAnswer(t, request, false, response.code)
    && (response.code == Ok ==> Created(t, u, request, txn, response.path))
    && (response.code != Ok ==> u == t && response.path == "")
  }

  ghost predicate DeleteOutcome(t: Tree, request: DeleteRequest, id: nat, u: Tree, code: ResponseCode) {
    && DeleteAnswer(t, request, code)
    && (code == Ok ==> Deleted(t, u, request.path, id))
    && (code != Ok ==> u == t)
  }

  ghost predicate SetDataOutcome(t: Tree, request: SetDataRequest, txn: Transaction, u: Tree,
                                 response: SetDataResponse)
  {
    && SetDataAnswer(t, request, response.code)
    && (response.code == Ok ==> Rewrote(t, u, request, txn, response.stat))
    && (response.code != Ok ==> u == t && response.stat == DefaultStat)
  }

  lemma {:induction false} CreateMeets(t: Tree, request: CreateRequest, txn: Transaction)
    requires Inv(t)
    ensures var r := Create(t, request, txn); CreateOutcome(t, request, txn, r.tree, r.response)
  {
    CreateAnswers(t, request, false);
    if CreateCode(t, request, false) == Ok {
      CreateStores(t, request, txn);
    }
  }

  lemma {:induction false} DeleteMeets(t: Tree, request: DeleteRequest, id: nat)
    requires Linked(t)
    ensures var r := Delete(t, request, id); DeleteOutcome(t, request, id, r.tree, r.response)
  {
    DeleteAnswers(t, request, false);
    DeleteFindsParent(t, request);
    if DeleteCode(t, request, false) == Ok {
      DeleteRemoves(t, request, id);
    }
  }

  lemma {:induction false} SetDataMeets(t: Tree, request: SetDataRequest, txn: Transaction)
    ensures var r := SetData(t, request, txn); SetDataOutcome(t, request, txn, r.tree, r.response)
  {
    SetDataAnswers(t, request);
    if SetDataCode(t, request) == Ok {
      SetDataStores(t, request, txn);
    }
  }

  /** CREATE: the answer by its exact condition; a success stores the node, a refusal changes nothing. */
  lemma {:induction false} CreateEntry(db: Db, e: Entry)
    requires Inv(db.tree) && e.command.CreateNode?
    ensures var r := Execute(db, e);
            && r.reply.CreateReply? && r.db == db.(tree := r.db.tree)
            && CreateOutcome(db.tree, e.command.create, Txn(db, e), r.db.tree, r.reply.created)
  {
    CreateMeets(db.tree, e.command.create, Txn(db, e));
  }

  /** DELETE likewise. */
  lemma {:induction false} DeleteEntry(db: Db, e: Entry)
    requires Linked(db.tree) && e.command.DeleteNode?
    ensures var r := Execute(db, e);
            && r.reply.DeleteReply? && r.db == db.(tree := r.db.tree)
            && DeleteOutcome(db.tree, e.command.delete, e.instanceId, r.db.tree, r.reply.deleted)
  {
    DeleteMeets(db.tree, e.command.delete, e.instanceId);
  }

  /** SETDATA likewise; the stat that is sent back is the stored one. */
  lemma {:induction false} WriteEntry(db: Db, e: Entry)
    requires e.command.WriteNode?
    ensures var r := Execute(db, e);
            && r.reply.WriteReply? && r.db == db.(tree := r.db.tree)
            && SetDataOutcome(db.tree, e.command.write, Txn(db, e), r.db.tree, r.reply.written)
  {
    SetDataMeets(db.tree, e.command.write, Txn(db, e));
  }

  /** The version that a CONNECT carries is 0 or the one stored for its session. */
  predicate MayConnect(db: Db, s: nat, version: nat) {
    version == 0 || (s in db.sessions && db.sessions[s] == version)
  }

  /** CONNECT: it answers RC_OK exactly if it may, and then the session has the entry's instance id as its version;
      otherwise it answers RC_UNKNOWN and changes nothing. */
  lemma {:induction false} ConnectEntry(db: Db, e: Entry)
    requires e.command.Connect?
    ensures var r, s, version := Execute(db, e), e.command.sessionId, e.command.version;
            && (r.reply == ConnectReply(Ok) <==> MayConnect(db, s, version))
            && (MayConnect(db, s, version) ==> r.db == db.(sessions := db.sessions[s := e.instanceId]))
            && (!MayConnect(db, s, version) ==> r.reply == ConnectReply(Unknown) && r.db == db)
  {
  }

  /** An invalid entry is refused and changes nothing. */
  lemma {:induction false} InvalidEntry(db: Db, e: Entry)
    requires e.command.InvalidCommand?
    ensures Execute(db, e) == Stepped(db, Refused)
  {
  }

  // -------- CLOSE --------

  /** Some closing names the session with its stored version, or names a session that is not there. */
  ghost predicate Closes(db: Db, closings: seq<Closing>, s: nat) {
    exists c :: c in closings && c.sessionId == s && (s in db.sessions ==> c.version == db.sessions[s])
  }

  /** The node belongs to such a session. */
  ghost predicate Goes(db: Db, closings: seq<Closing>, p: string)
    requires p in db.tree.nodes
  {
    var owner := db.tree.nodes[p].stat.ephemeralId;
    owner != 0 && Closes(db, closings, owner)
  }

  /** The database lost exactly what these sessions had: themselves and their nodes. */
  ghost predicate ClosedExactly(db: Db, after: Db, closings: seq<Closing>) {
    && after.group == db.group
    && (forall s :: s in after.sessions <==> s in db.sessions && !Closes(db, closings, s))
    && (forall s :: s in after.sessions ==> after.sessions[s] == db.sessions[s])
    && (forall p :: p in after.tree.nodes <==> p in db.tree.nodes && !Goes(db, closings, p))
    && (forall p :: p in after.tree.nodes ==> SameButChildren(db.tree.nodes[p], after.tree.nodes[p]))
  }

  lemma {:induction false} ClosesNext(db: Db, closings: seq<Closing>, c: Closing, s: nat)
    ensures Closes(db, closings + [c], s) <==>
              Closes(db, closings, s) || (c.sessionId == s && (s in db.sessions ==> c.version == db.sessions[s]))
  {
    assert c in closings + [c];
    assert forall x :: x in closings + [c] <==> x in closings || x == c;
  }

  /** Whether the next closing is accepted. */
  lemma {:induction false} NextAccepted(db: Db, mid: Db, closings: seq<Closing>, c: Closing)
    requires ClosedExactly(db, mid, closings)
    ensures var s := c.sessionId;
            CloseSession(mid.sessions, s, c.version).accepted <==> Closes(db, closings + [c], s)
  {
    ClosesNext(db, closings, c, c.sessionId);
  }

  lemma {:induction false} ClosedSessions(db: Db, mid: Db, after: Db, closings: seq<Closing>, c: Closing)
    requires ClosedExactly(db, mid, closings)
    requires after.sessions == CloseSession(mid.sessions, c.sessionId, c.version).sessions
    ensures forall s :: s in after.sessions <==> s in db.sessions && !Closes(db, closings + [c], s)
    ensures forall s :: s in after.sessions ==> after.sessions[s] == db.sessions[s]
  {
    forall s
      ensures s in after.sessions <==> s in db.sessions && !Closes(db, closings + [c], s)
    {
      if s >= 0 {
        ClosesNext(db, closings, c, s);
      }
    }
  }

  lemma {:induction false} KillAt(t: Tree, s: nat, id: nat, p: string)
    requires Inv(t)
    ensures p in Kill(t, s, id).nodes <==> p in t.nodes && (s == 0 || t.nodes[p].stat.ephemeralId != s)
    ensures p in Kill(t, s, id).nodes ==> SameButChildren(t.nodes[p], Kill(t, s, id).nodes[p])
  {
    assert OwnedExactly(t, s, p);
  }

  lemma {:induction false} ClosedNode(db: Db, mid: Db, closings: seq<Closing>, c: Closing, id: nat, p: string)
    requires ClosedExactly(db, mid, closings) && Inv(mid.tree)
    ensures var after := CloseOne(mid, c, id);
            && (p in after.tree.nodes <==> p in db.tree.nodes && !Goes(db, closings + [c], p))
            && (p in after.tree.nodes ==> SameButChildren(db.tree.nodes[p], after.tree.nodes[p]))
  {
    NextAccepted(db, mid, closings, c);
    KillAt(mid.tree, c.sessionId, id, p);
    if p in db.tree.nodes {
      ClosesNext(db, closings, c, db.tree.nodes[p].stat.ephemeralId);
    }
  }

  lemma {:induction false} ClosedNext(db: Db, mid: Db, closings: seq<Closing>, c: Closing, id: nat)
    requires ClosedExactly(db, mid, closings) && Inv(mid.tree)
    ensures ClosedExactly(db, CloseOne(mid, c, id), closings + [c])
  {
    var after := CloseOne(mid, c, id);
    ClosedSessions(db, mid, after, closings, c);
    forall p
      ensures p in after.tree.nodes <==> p in db.tree.nodes && !Goes(db, closings + [c], p)
      ensures p in after.tree.nodes ==> SameButChildren(db.tree.nodes[p], after.tree.nodes[p])
    {
      ClosedNode(db, mid, closings, c, id, p);
    }
  }

  /** CLOSE: precisely the sessions that some closing names with their stored version leave the table; precisely
      their nodes, and those of sessions named that were not there, leave the tree. */
  lemma {:induction false} CloseExactly(db: Db, closings: seq<Closing>, id: nat)
    requires Inv(db.tree)
    ensures ClosedExactly(db, CloseEach(db, closings, id), closings)
  {
    if closings == [] {
      ClosedNone(db);
    } else {
      var n := |closings| - 1;
      assert closings == closings[..n] + [closings[n]];
      CloseExactly(db, closings[..n], id);
      ClosedSnoc(db, closings[..n], closings[n], id);
    }
  }

  lemma {:induction false} ClosedNone(db: Db)
    ensures ClosedExactly(db, db, [])
  {
  }

  lemma {:induction false} ClosedSnoc(db: Db, closings: seq<Closing>, c: Closing, id: nat)
    requires Inv(db.tree) && ClosedExactly(db, CloseEach(db, closings, id), closings)
    ensures ClosedExactly(db, CloseEach(db, closings + [c], id), closings + [c])
  {
    assert (closings + [c])[..|closings|] == closings;
    CloseInv(db, closings, id);
    ClosedNext(db, CloseEach(db, closings, id), closings, c, id);
  }

  lemma {:induction false} CloseEntry(db: Db, e: Entry)
    requires Inv(db.tree) && e.command.CloseSessions?
    ensures Execute(db, e).reply == NoReply && ClosedExactly(db, Execute(db, e).db, e.command.closings)
  {
    CloseExactly(db, e.command.closings, e.instanceId);
  }
}
