/** What every node holds, over every run of the master: with the counters of NodeHistory, its whole value. */
module NodeContents {
  import opened Proto
  import opened Paths
  import opened TreeModel
  import opened TreeInvariant
  import opened KillSession
  import opened ReplicatedLog
  import opened MasterRun
  import opened NodeHistory
  import opened Outcomes

  // -------- One node across one event --------

  /** The node survived without being written: it is the same up to its child fields, and those carry the id of the
      event if the child set changed. */
  ghost predicate Survives(t: Tree, u: Tree, p: string, id: nat) {
    p in t.nodes && p in u.nodes ==>
      && SameButChildren(t.nodes[p], u.nodes[p])
      && u.nodes[p].stat.childrenId == if Kids(u, p) == Kids(t, p) then t.nodes[p].stat.childrenId else id
  }

  lemma {:induction false} CreateSpares(t: Tree, u: Tree, request: CreateRequest, txn: Transaction, path: string,
                                        p: string)
    requires Inv(t) && Created(t, u, request, txn, path)
    ensures Survives(t, u, p, txn.instanceId)
  {
    var parent := ParsePath(request.path).parent;
    NamedPath(t, request.path);
    if p == parent {
      ListedIffThere(t, parent, path[|parent| + 1..]);
    }
  }

  lemma {:induction false} DeleteSpares(t: Tree, u: Tree, path: string, id: nat, p: string)
    requires Linked(t) && Deleted(t, u, path, id)
    ensures Survives(t, u, p, id)
  {
    var Parts(parent, child) := ParsePath(path);
    ParentLists(t, path);
    if p in t.nodes && p in u.nodes {
      if p == parent {
        assert Kids(u, p) == Kids(t, p) - {child} && child in Kids(t, p);
      } else {
        assert u.nodes[p] == t.nodes[p] && Kids(u, p) == Kids(t, p) - {};
      }
    }
  }

  lemma {:induction false} ParentLists(t: Tree, path: string)
    requires Linked(t) && path in t.nodes && ParsePath(path).Parts?
    ensures ParsePath(path).child in Kids(t, ParsePath(path).parent)
  {
    BadPathExact("");
    assert HasParent(t, path);
  }

  lemma {:induction false} KillSpares(t: Tree, s: nat, id: nat, p: string)
    requires Inv(t)
    ensures Survives(t, Kill(t, s, id), p, id)
    ensures Kids(Kill(t, s, id), p) <= Kids(t, p)
  {
    KillAt(t, s, id, p);
    PurgeKids(Disown(t, s), OwnedBy(t, s), id, p);
  }

  lemma {:induction false} SurvivesTwice(t: Tree, u: Tree, v: Tree, p: string, id: nat)
    requires Survives(t, u, p, id) && Survives(u, v, p, id) && Kids(v, p) <= Kids(u, p) <= Kids(t, p)
    requires p in v.nodes ==> p in u.nodes
    ensures Survives(t, v, p, id)
  {
  }

  lemma {:induction false} CloseSpares(db: Db, closings: seq<Closing>, id: nat, p: string)
    requires Inv(db.tree)
    ensures Survives(db.tree, CloseEach(db, closings, id).tree, p, id)
    ensures Kids(CloseEach(db, closings, id).tree, p) <= Kids(db.tree, p)
  {
    if closings != [] {
      var n := |closings| - 1;
      var mid := CloseEach(db, closings[..n], id);
      CloseSpares(db, closings[..n], id, p);
      CloseInv(db, closings[..n], id);
      KillSpares(mid.tree, closings[n].sessionId, id, p);
      KillAt(mid.tree, closings[n].sessionId, id, p);
      SurvivesTwice(db.tree, mid.tree, Kill(mid.tree, closings[n].sessionId, id), p, id);
    }
  }

  /** Whatever is executed, short of a successful write of the node itself. */
  lemma {:induction false} EntrySpares(db: Db, e: Entry, p: string)
    requires Inv(db.tree) && !Writes(db, Exec(e), p)
    ensures Survives(db.tree, Execute(db, e).db.tree, p, e.instanceId)
  {
    match e.command
    case CreateNode(request) =>
      CreateEntry(db, e);
      var r := Execute(db, e);
      if r.reply.created.code == Ok {
        CreateSpares(db.tree, r.db.tree, request, Txn(db, e), r.reply.created.path, p);
      }
    case DeleteNode(request) =>
      DeleteEntry(db, e);
      if Execute(db, e).reply.deleted == Ok {
        DeleteSpares(db.tree, Execute(db, e).db.tree, request.path, e.instanceId, p);
      }
    case WriteNode(request) => WriteSpares(db, e, p);
    case CloseSessions(closings) => CloseSpares(db, closings, e.instanceId, p);
    case _ =>
  }

  lemma {:induction false} WriteSpares(db: Db, e: Entry, p: string)
    requires e.command.WriteNode? && !Writes(db, Exec(e), p)
    ensures Survives(db.tree, Execute(db, e).db.tree, p, e.instanceId)
  {
    WriteEntry(db, e);
    SetDataAnswers(db.tree, e.command.write);
  }

  // -------- Over a whole run --------

  /** What the requests say of a node: its type, owner and first data by its Create, its data by the last write. */
  datatype Content = Content(
    nodeType: NodeType,
    data: Bytes,
    groupId: nat,
    createdId: nat,
    createdTime: nat,
    modifiedId: nat,
    modifiedTime: nat,
    childrenId: nat,
    owner: nat)

  const RootContent := Content(Persistent, [], 0, 0, 0, 0, 0, 0, 0)

  /** By a Create that was executed. */
  function ByCreate(group: nat, e: Entry): Content
    requires e.command.CreateNode?
  {
    var request := e.command.create;
    Content(request.nodeType, request.data, group, e.instanceId, e.time, e.instanceId, e.time, e.instanceId,
            if request.nodeType == Ephemeral || request.nodeType == EphemeralSequential then e.sessionId else 0)
  }

  /** By one more event, given which nodes were there before it and are there after it. */
  function NextContent(db: Db, event: Event, p: string, c: Content): Content {
    var t, u := db.tree, MasterStep(db, event).tree;
    if !event.Exec? || p !in u.nodes then c
    else if p !in t.nodes then if event.entry.command.CreateNode? then ByCreate(db.group, event.entry) else c
    else
      var d :=
        if !Writes(db, event, p) then c
        else c.(data := event.entry.command.write.data, modifiedId := event.entry.instanceId,
                modifiedTime := event.entry.time);
      if ChildPaths(t, p) == ChildPaths(u, p) then d else d.(childrenId := event.entry.instanceId)
  }

  function ContentOf(db: Db, events: seq<Event>, p: string): Content {
    if events == [] then RootContent
    else
      var n := |events| - 1;
      NextContent(Master(db, events[..n]), events[n], p, ContentOf(db, events[..n], p))
  }

  ghost predicate Holds(node: DataNode, c: Content) {
    && node.nodeType == c.nodeType && node.data == c.data
    && node.stat.groupId == c.groupId
    && node.stat.createdId == c.createdId && node.stat.createdTime == c.createdTime
    && node.stat.modifiedId == c.modifiedId && node.stat.modifiedTime == c.modifiedTime
    && node.stat.childrenId == c.childrenId && node.stat.ephemeralId == c.owner
  }

  lemma {:induction false} SameChildren(t: Tree, u: Tree, p: string)
    requires Inv(t) && Inv(u)
    ensures Kids(t, p) == Kids(u, p) <==> ChildPaths(t, p) == ChildPaths(u, p)
  {
    ChildPathsDiffer(t, u, p);
    ChildPathsDiffer(u, t, p);
    SameIffNoDifference(Kids(t, p), Kids(u, p));
    SameIffNoDifference(ChildPaths(t, p), ChildPaths(u, p));
  }

  lemma {:induction false} SameIffNoDifference(a: set<string>, b: set<string>)
    ensures a == b <==> |a - b| == 0 && |b - a| == 0
  {
    if |a - b| == 0 && |b - a| == 0 {
      assert a - b == {} && b - a == {};
      assert forall x :: x in a <==> x in b;
    }
  }

  lemma {:induction false} BornHolds(db: Db, event: Event, p: string, c: Content)
    requires Inv(db.tree) && p !in db.tree.nodes && p in MasterStep(db, event).tree.nodes
    ensures Holds(MasterStep(db, event).tree.nodes[p], NextContent(db, event, p, c))
  {
    OnlyCreateBears(db, event, p);
    CreateEntry(db, event.entry);
  }

  lemma {:induction false} WrittenHolds(db: Db, event: Event, p: string, c: Content)
    requires Writes(db, event, p) && p in db.tree.nodes && Holds(db.tree.nodes[p], c)
    requires Kids(MasterStep(db, event).tree, p) == Kids(db.tree, p) ==>
               ChildPaths(db.tree, p) == ChildPaths(MasterStep(db, event).tree, p)
    ensures p in MasterStep(db, event).tree.nodes
    ensures Holds(MasterStep(db, event).tree.nodes[p], NextContent(db, event, p, c))
  {
    WriteEntry(db, event.entry);
    SetDataAnswers(db.tree, event.entry.command.write);
  }

  lemma {:induction false} SparedHolds(db: Db, event: Event, p: string, c: Content)
    requires Inv(db.tree) && event.Exec? && !Writes(db, event, p)
    requires p in db.tree.nodes && p in MasterStep(db, event).tree.nodes && Holds(db.tree.nodes[p], c)
    requires Kids(db.tree, p) == Kids(MasterStep(db, event).tree, p) <==>
               ChildPaths(db.tree, p) == ChildPaths(MasterStep(db, event).tree, p)
    ensures Holds(MasterStep(db, event).tree.nodes[p], NextContent(db, event, p, c))
  {
    EntrySpares(db, event.entry, p);
  }

  lemma {:induction false} EventHolds(db: Db, event: Event, p: string, c: Content)
    requires Inv(db.tree) && Inv(MasterStep(db, event).tree) && p in MasterStep(db, event).tree.nodes
    requires p in db.tree.nodes ==> Holds(db.tree.nodes[p], c)
    ensures Holds(MasterStep(db, event).tree.nodes[p], NextContent(db, event, p, c))
  {
    if p !in db.tree.nodes {
      BornHolds(db, event, p, c);
    } else if !event.Exec? {
      TryKeeps(db, event, p);
    } else {
      SameChildren(db.tree, MasterStep(db, event).tree, p);
      if Writes(db, event, p) {
        WrittenHolds(db, event, p, c);
      } else {
        SparedHolds(db, event, p, c);
      }
    }
  }

  /** In every run every node holds what the requests say: type, owner and creation by its Create, data and
      modification by the last successful SetData since, or by the Create if there was none, and children_id by
      the last entry that changed its children. */
  lemma {:induction false} NodesHoldRequests(group: nat, events: seq<Event>, p: string)
    requires OwnedEvents(events) && p in Master(InitialDb(group), events).tree.nodes
    ensures Holds(Master(InitialDb(group), events).tree.nodes[p], ContentOf(InitialDb(group), events, p))
  {
    var db := InitialDb(group);
    FreshInv();
    if events != [] {
      var n := |events| - 1;
      MasterInv(db, events[..n]);
      MasterInv(db, events);
      if p in Master(db, events[..n]).tree.nodes {
        NodesHoldRequests(group, events[..n], p);
      }
      EventHolds(Master(db, events[..n]), events[n], p, ContentOf(db, events[..n], p));
    }
  }

  /** The node that a content and a tally make. */
  function NodeOf(c: Content, h: Tally): DataNode
    requires h.departed <= h.arrived
  {
    DataNode(c.nodeType,
             Stat(c.groupId, c.createdId, c.modifiedId, c.createdTime, c.modifiedTime, h.writes, h.arrived + h.departed,
                  U32(|c.data|), U32(h.arrived - h.departed), c.childrenId, c.owner),
             c.data)
  }

  lemma {:induction false} NodeFromParts(node: DataNode, c: Content, h: Tally, kids: nat)
    requires Holds(node, c) && kids == h.arrived - h.departed
    requires node.stat.version == h.writes && node.stat.childrenVersion == h.arrived + h.departed
    requires node.stat.childrenNum == U32(kids) && node.stat.dataLen == U32(|node.data|)
    ensures h.departed <= h.arrived && node == NodeOf(c, h)
  {
  }

  /** So the whole node is a function of the events: nothing else is in it. */
  lemma {:induction false} NodeIsItsHistory(group: nat, events: seq<Event>, p: string)
    requires OwnedEvents(events) && p in Master(InitialDb(group), events).tree.nodes
    ensures var c, h := ContentOf(InitialDb(group), events, p), History(InitialDb(group), events, p);
            h.departed <= h.arrived && Master(InitialDb(group), events).tree.nodes[p] == NodeOf(c, h)
  {
    var t := Master(InitialDb(group), events).tree;
    NodesHoldRequests(group, events, p);
    CountersCount(group, events, p);
    NodeFromParts(t.nodes[p], ContentOf(InitialDb(group), events, p), History(InitialDb(group), events, p),
                  |ChildPaths(t, p)|);
  }

  // -------- The last write --------

  ghost predicate Unwritten(group: nat, events: seq<Event>, p: string, i: nat, j: nat)
    requires i <= j <= |events|
  {
    forall k :: i <= k < j ==> !Writes(MasterAt(group, events, k), events[k], p)
  }

  ghost predicate SameData(a: DataNode, b: DataNode) {
    a.data == b.data && a.stat.modifiedId == b.stat.modifiedId && a.stat.modifiedTime == b.stat.modifiedTime
  }

  /** A node that is not written keeps its data. */
  lemma {:induction false} DataStays(group: nat, events: seq<Event>, p: string, i: nat, j: nat)
    requires OwnedEvents(events) && i <= j <= |events| && Lives(group, events, p, i, j)
    requires Unwritten(group, events, p, i, j)
    ensures SameData(MasterAt(group, events, i).tree.nodes[p], MasterAt(group, events, j).tree.nodes[p])
    decreases j
  {
    if i < j {
      DataStays(group, events, p, i, j - 1);
      var db, event := MasterAt(group, events, j - 1), events[j - 1];
      MasterAtStep(group, events, j - 1);
      MasterAtInv(group, events, j - 1);
      assert !Writes(db, event, p);
      if event.Exec? {
        EntrySpares(db, event.entry, p);
      } else {
        TryKeeps(db, event, p);
      }
    }
  }

  /** The data of a node is that of the last SetData on it that succeeded. */
  lemma {:induction false} LastWriteWins(group: nat, events: seq<Event>, p: string, k: nat, j: nat)
    requires OwnedEvents(events) && k < j <= |events| && Lives(group, events, p, k, j)
    requires Writes(MasterAt(group, events, k), events[k], p) && Unwritten(group, events, p, k + 1, j)
    ensures var node, e := MasterAt(group, events, j).tree.nodes[p], events[k].entry;
            && node.data == e.command.write.data
            && node.stat.modifiedId == e.instanceId && node.stat.modifiedTime == e.time
  {
    MasterAtStep(group, events, k);
    WriteEntry(MasterAt(group, events, k), events[k].entry);
    SetDataAnswers(MasterAt(group, events, k).tree, events[k].entry.command.write);
    DataStays(group, events, p, k + 1, j);
  }

  /** Without one it is that of the Create. */
  lemma {:induction false} FirstDataStays(group: nat, events: seq<Event>, p: string, k: nat, j: nat)
    requires OwnedEvents(events) && k < j <= |events|
    requires p !in MasterAt(group, events, k).tree.nodes && Lives(group, events, p, k + 1, j)
    requires Unwritten(group, events, p, k + 1, j)
    ensures events[k].Exec? && events[k].entry.command.CreateNode?
    ensures var node, e := MasterAt(group, events, j).tree.nodes[p], events[k].entry;
            && node.data == e.command.create.data
            && node.stat.modifiedId == e.instanceId && node.stat.modifiedTime == e.time
  {
    var db := MasterAt(group, events, k);
    MasterAtStep(group, events, k);
    MasterAtInv(group, events, k);
    assert p in MasterAt(group, events, k + 1).tree.nodes;
    OnlyCreateBears(db, events[k], p);
    CreateEntry(db, events[k].entry);
    DataStays(group, events, p, k + 1, j);
  }
}
