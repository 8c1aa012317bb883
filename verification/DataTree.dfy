/** `DataTree` as the server runs it: three maps updated in place and two watch managers. Each method is
    proved against the value-level operation of the same name. */
module DataTreeObject {
  import opened Proto
  import opened Paths
  import opened Watches
  import M = TreeModel
  import opened TreeInvariant
  import opened Checkpoint
  import opened Notification
  import opened Announcements
  import K = KillSession

  class DataTree {
    var nodes: map<string, DataNode>
    var childrens: map<string, set<string>>
    var ephemerals: map<nat, set<string>>
    const dataWatches: ServerWatchManager
    const childWatches: ServerWatchManager

    ghost predicate Valid()
      reads this, dataWatches, childWatches
    {
      dataWatches != childWatches && dataWatches.Valid() && childWatches.Valid()
    }

    function View(): M.Tree
      reads this
    {
      M.Tree(nodes, childrens, ephemerals)
    }

    ghost function Ears(): Audience
      reads dataWatches, childWatches
    {
      Audience(dataWatches.Registered(), dataWatches.processed, childWatches.Registered(), childWatches.processed)
    }

    constructor ()
      ensures Valid() && fresh(dataWatches) && fresh(childWatches)
      ensures View() == M.Fresh
      ensures dataWatches.Registered() == {} && childWatches.Registered() == {}
    {
      nodes, childrens, ephemerals := map["" := DefaultNode], map[], map[];
      dataWatches := new ServerWatchManager();
      childWatches := new ServerWatchManager();
    }

    method TriggerBoth(path: string, event: EventType, parent: string)
      requires Valid()
      modifies dataWatches, childWatches
      ensures Valid()
      ensures InformedBy(old(Ears()), Ears(), [Firing(OnData, path)] + ParentFiring(parent), event)
    {
      FiredAtBoth(path, parent);
      AnnouncedNone(childWatches.Registered(), childWatches.processed, NodeChildrenChanged);
      dataWatches.TriggerWatcher(path, event);
      if parent != "" {
        childWatches.TriggerWatcher(parent, NodeChildrenChanged);
      }
    }

    method TriggerData(path: string, event: EventType)
      requires Valid()
      modifies dataWatches
      ensures Valid()
      ensures InformedBy(old(Ears()), Ears(), [Firing(OnData, path)], event)
    {
      FiredAtOne(path);
      AnnouncedNone(childWatches.Registered(), childWatches.processed, NodeChildrenChanged);
      dataWatches.TriggerWatcher(path, event);
    }

    /** Both Create and Delete account for a changed child set in the parent's stat. */
    method Relist(parent: string, id: nat)
      requires parent in nodes && parent in childrens
      modifies this`nodes
      ensures nodes == old(nodes)[parent := M.Relisted(old(nodes)[parent], childrens[parent], id)]
    {
      var stat := nodes[parent].stat;
      stat := stat.(childrenVersion := stat.childrenVersion + 1);
      stat := stat.(childrenNum := U32(|childrens[parent]|));
      stat := stat.(childrenId := id);
      nodes := nodes[parent := nodes[parent].(stat := stat)];
    }

    /** The stat of a created node, field by field, over what is there. */
    method NewStat(node: DataNode, request: CreateRequest, txn: Transaction) returns (stat: Stat)
      ensures stat == M.NewNode(request, txn, node.stat.ephemeralId).stat
    {
      stat := node.stat;
      stat := stat.(groupId := txn.groupId, createdId := txn.instanceId, modifiedId := txn.instanceId);
      stat := stat.(createdTime := txn.time, modifiedTime := txn.time, version := 0, childrenVersion := 0);
      stat := stat.(dataLen := U32(|request.data|), childrenNum := 0, childrenId := txn.instanceId);
    }

    /** The last part of Create under the lock. The entry of `parent` in `childrens` exists by now. */
    method Insert(ghost t: M.Tree, parent: string, child: string, path: string, request: CreateRequest,
                  txn: Transaction)
      requires parent in nodes && parent in childrens && path == Join(parent, child)
      requires nodes == t.nodes && ephemerals == t.ephemerals && childrens == t.childrens[parent := M.Kids(t, parent)]
      modifies this`nodes, this`childrens, this`ephemerals
      ensures View() == M.Link(t, parent, child, request, txn)
    {
      childrens := childrens[parent := childrens[parent] + {child}];
      assert childrens == t.childrens[parent := M.Kids(t, parent) + {child}];
      Relist(parent, txn.instanceId);
      var stat := NewStat(if path in nodes then nodes[path] else DefaultNode, request, txn);
      if request.nodeType.IsEphemeral() {
        stat := stat.(ephemeralId := txn.sessionId);
        ephemerals := M.AddOwned(ephemerals, stat.ephemeralId, path);
      }
      assert DataNode(request.nodeType, stat, request.data) == M.NewNode(request, txn, stat.ephemeralId);
      nodes := nodes[path := DataNode(request.nodeType, stat, request.data)];
    }

    /** What Create does once the parent is found fit: it looks up the child set, which makes an entry for it. */
    method AddChild(parent: string, child: string, path: string, request: CreateRequest, txn: Transaction,
                    onlyCheck: bool) returns (response: CreateResponse)
      requires parent in nodes && path == Join(parent, child)
      modifies this`nodes, this`childrens, this`ephemerals
      ensures var t := old(View());
              if child in M.Kids(t, parent) then response == CreateResponse(NodeExists, "") && View() == t
              else if onlyCheck then
                && response == CreateResponse(Ok, "")
                && View() == (if parent in t.childrens then t else t.(childrens := t.childrens[parent := {}]))
              else response == CreateResponse(Ok, path) && View() == M.Link(t, parent, child, request, txn)
    {
      ghost var t := View();
      if parent !in childrens {
        childrens := childrens[parent := {}];
      }
      if child in childrens[parent] {
        return CreateResponse(NodeExists, "");
      }
      if onlyCheck {
        return CreateResponse(Ok, "");
      }
      Insert(t, parent, child, path, request, txn);
      return CreateResponse(Ok, path);
    }

    /** The tests of the path and of the parent. */
    method Vet(path: string) returns (code: ResponseCode)
      ensures code == RefusalOf(View(), path)
    {
      var parsed := ParsePath(path);
      if parsed.BadPath? {
        return ErrPath;
      }
      if parsed.parent !in nodes {
        return NoParent;
      }
      if nodes[parsed.parent].nodeType.IsEphemeral() {
        return ParentEphemeral;
      }
      return Ok;
    }

    /** Create up to the release of the lock. */
    method LockedCreate(request: CreateRequest, txn: Transaction, onlyCheck: bool) returns (response: CreateResponse)
      modifies this`nodes, this`childrens, this`ephemerals
      ensures M.Outcome(View(), response) ==
                if onlyCheck then M.CheckCreate(old(View()), request) else M.Create(old(View()), request, txn)
    {
      var code := Vet(request.path);
      if code != Ok {
        CreateRefused(View(), request, txn);
        return CreateResponse(code, "");
      }
      var path, parts := request.path, ParsePath(request.path);
      var parent, child := parts.parent, parts.child;
      if nodes[parent].nodeType.IsSequential() && !onlyCheck {
        var suffix := Suffix(nodes[parent].stat.childrenVersion + 1);
        child := child + suffix;
        path := path + suffix;
      }
      assert path == Join(parent, child);
      CreateByParts(View(), request, txn);
      response := AddChild(parent, child, path, request, txn, onlyCheck);
    }

    method Create(request: CreateRequest, txn: Transaction, onlyCheck: bool) returns (response: CreateResponse)
      requires Valid()
      modifies this, dataWatches, childWatches
      ensures Valid()
      ensures M.Outcome(View(), response) ==
                if onlyCheck then M.CheckCreate(old(View()), request) else M.Create(old(View()), request, txn)
      ensures var firings := if onlyCheck then [] else FiringsOf(old(View()), DoCreate(request, txn));
              InformedBy(old(Ears()), Ears(), firings, NodeCreated)
    {
      response := LockedCreate(request, txn, onlyCheck);
      if !onlyCheck && response.code == Ok {
        TriggerBoth(response.path, NodeCreated, ParsePath(request.path).parent);
      } else {
        InformedOfNothing(Ears(), NodeCreated);
      }
    }

    /** Take the node off its owner's set, and a set that became empty off the index. */
    method Release(path: string)
      requires path in nodes
      modifies this`ephemerals
      ensures ephemerals == M.DropOwned(old(ephemerals), nodes[path].stat.ephemeralId, path)
    {
      var owner := nodes[path].stat.ephemeralId;
      if owner != 0 && owner in ephemerals {
        ephemerals := ephemerals[owner := ephemerals[owner] - {path}];
        if ephemerals[owner] == {} {
          ephemerals := ephemerals - {owner};
        }
      }
    }

    /** The last part of Delete under the lock. */
    method Remove(path: string, parent: string, child: string, id: nat) returns (code: ResponseCode)
      requires path in nodes && parent != path
      modifies this`nodes, this`childrens, this`ephemerals
      ensures View() == M.Unlink(old(View()), path, parent, child, id)
      ensures code == if parent in old(nodes) then Ok else NoParent
    {
      Release(path);
      nodes := nodes - {path};
      if parent !in nodes {
        return NoParent;
      }
      if parent in childrens {
        var erased := child in childrens[parent];
        childrens := childrens[parent := childrens[parent] - {child}];
        if erased {
          Relist(parent, id);
        }
        if childrens[parent] == {} {
          childrens := childrens - {parent};
        }
      }
      return Ok;
    }

    /** Delete up to the release of the lock; it goes on to the triggers unless it returned early. */
    method LockedDelete(request: DeleteRequest, id: nat, onlyCheck: bool) returns (code: ResponseCode, removed: bool)
      modifies this`nodes, this`childrens, this`ephemerals
      ensures onlyCheck ==> View() == old(View()) && code == M.DeleteCode(old(View()), request, true)
      ensures !onlyCheck ==> M.Outcome(View(), code) == M.Delete(old(View()), request, id)
      ensures removed ==> ParsePath(request.path).Parts?
      ensures (if onlyCheck then [] else FiringsOf(old(View()), DoDelete(request, id))) ==
                if removed then [Firing(OnData, request.path)] + ParentFiring(ParsePath(request.path).parent) else []
    {
      var path := request.path;
      var parsed := ParsePath(path);
      if parsed.BadPath? {
        return ErrPath, false;
      }
      var parent, child := parsed.parent, parsed.child;
      if path !in nodes {
        return NoNode, false;
      }
      if request.version != -1 && request.version != nodes[path].stat.version {
        return BadVersion, false;
      }
      if path in childrens {
        return ChildrenExists, false;
      }
      if onlyCheck {
        return Ok, false;
      }
      code := Remove(path, parent, child, id);
      removed := true;
    }

    method Delete(request: DeleteRequest, txn: Transaction, onlyCheck: bool) returns (code: ResponseCode)
      requires Valid()
      modifies this, dataWatches, childWatches
      ensures Valid()
      ensures onlyCheck ==> View() == old(View()) && code == M.DeleteCode(old(View()), request, true)
      ensures !onlyCheck ==> M.Outcome(View(), code) == M.Delete(old(View()), request, txn.instanceId)
      ensures var firings := if onlyCheck then [] else FiringsOf(old(View()), DoDelete(request, txn.instanceId));
              InformedBy(old(Ears()), Ears(), firings, NodeDeleted)
    {
      var removed;
      code, removed := LockedDelete(request, txn.instanceId, onlyCheck);
      if removed {
        TriggerBoth(request.path, NodeDeleted, ParsePath(request.path).parent);
      } else {
        InformedOfNothing(Ears(), NodeDeleted);
      }
    }

    /** SetData up to the release of the lock. */
    method LockedSetData(request: SetDataRequest, txn: Transaction, onlyCheck: bool) returns (response: SetDataResponse)
      modifies this`nodes
      ensures onlyCheck ==> View() == old(View()) && response.code == M.SetDataCode(old(View()), request)
      ensures !onlyCheck ==> M.Outcome(View(), response) == M.SetData(old(View()), request, txn)
    {
      var path := request.path;
      if ParsePath(path).BadPath? {
        return SetDataResponse(ErrPath, DefaultStat);
      }
      if path !in nodes {
        return SetDataResponse(NoNode, DefaultStat);
      }
      var version := nodes[path].stat.version;
      if request.version != -1 && request.version != version {
        return SetDataResponse(BadVersion, DefaultStat);
      }
      if onlyCheck {
        return SetDataResponse(Ok, DefaultStat);
      }
      var stat := nodes[path].stat;
      stat := stat.(modifiedId := txn.instanceId, modifiedTime := txn.time);
      stat := stat.(version := version + 1, dataLen := U32(|request.data|));
      nodes := nodes[path := nodes[path].(stat := stat, data := request.data)];
      return SetDataResponse(Ok, stat);
    }

    method SetData(request: SetDataRequest, txn: Transaction, onlyCheck: bool) returns (response: SetDataResponse)
      requires Valid()
      modifies this, dataWatches, childWatches
      ensures Valid()
      ensures onlyCheck ==> View() == old(View()) && response.code == M.SetDataCode(old(View()), request)
      ensures !onlyCheck ==> M.Outcome(View(), response) == M.SetData(old(View()), request, txn)
      ensures var firings := if onlyCheck then [] else FiringsOf(old(View()), DoSetData(request, txn));
              InformedBy(old(Ears()), Ears(), firings, NodeDataChanged)
    {
      response := LockedSetData(request, txn, onlyCheck);
      if !onlyCheck && response.code == Ok {
        TriggerData(request.path, NodeDataChanged);
      } else {
        InformedOfNothing(Ears(), NodeDataChanged);
      }
    }

    // -------- Reads --------

    method Exists(path: string, watcher: Option<Watcher>) returns (response: ExistsResponse)
      requires Valid()
      modifies dataWatches
      ensures Valid() && View() == old(View())
      ensures response.code == if ParsePath(path).BadPath? then ErrPath else if path in nodes then Ok else NoNode
      ensures response.code == Ok ==> response.nodeType == nodes[path].nodeType && response.stat == nodes[path].stat
      ensures dataWatches.Registered() == old(dataWatches.Registered()) +
                (if response.code != ErrPath && watcher.Some? then {(path, watcher.value)} else {})
      ensures dataWatches.processed == old(dataWatches.processed)
    {
      if ParsePath(path).BadPath? {
        return ExistsResponse(ErrPath, Persistent, DefaultStat);
      }
      if watcher.Some? {
        dataWatches.AddWatcher(path, watcher.value);
      }
      if path in nodes {
        return ExistsResponse(Ok, nodes[path].nodeType, nodes[path].stat);
      }
      return ExistsResponse(NoNode, Persistent, DefaultStat);
    }

    method GetData(path: string, watcher: Option<Watcher>) returns (response: GetDataResponse)
      requires Valid()
      modifies dataWatches
      ensures Valid() && View() == old(View())
      ensures response.code == if ParsePath(path).BadPath? then ErrPath else if path in nodes then Ok else NoNode
      ensures response.code == Ok ==>
                DataNode(response.nodeType, response.stat, response.data) == nodes[path]
      ensures dataWatches.Registered() == old(dataWatches.Registered()) +
                (if response.code == Ok && watcher.Some? then {(path, watcher.value)} else {})
      ensures dataWatches.processed == old(dataWatches.processed)
    {
      if ParsePath(path).BadPath? {
        return GetDataResponse(ErrPath, Persistent, DefaultStat, []);
      }
      if path !in nodes {
        return GetDataResponse(NoNode, Persistent, DefaultStat, []);
      }
      response := GetDataResponse(Ok, nodes[path].nodeType, nodes[path].stat, nodes[path].data);
      if watcher.Some? {
        dataWatches.AddWatcher(path, watcher.value);
      }
    }

    method GetChildren(path: string, watcher: Option<Watcher>) returns (response: GetChildrenResponse)
      requires Valid()
      modifies childWatches
      ensures Valid() && View() == old(View())
      ensures response.code == if ParsePath(path).BadPath? then ErrPath else if path in nodes then Ok else NoNode
      ensures response.code == Ok ==> response.stat == nodes[path].stat
      ensures response.code == Ok ==> K.Enumerates(response.children, M.Kids(View(), path))
      ensures childWatches.Registered() == old(childWatches.Registered()) +
                (if response.code == Ok && watcher.Some? && ChildrenWatchable(View(), path)
                 then {(path, watcher.value)} else {})
      ensures childWatches.processed == old(childWatches.processed)
    {
      if ParsePath(path).BadPath? {
        return GetChildrenResponse(ErrPath, DefaultStat, []);
      }
      if path !in nodes {
        return GetChildrenResponse(NoNode, DefaultStat, []);
      }
      var names := ListOf(M.Kids(View(), path));
      response := GetChildrenResponse(Ok, nodes[path].stat, names);
      if watcher.Some? && !nodes[path].nodeType.IsEphemeral() {
        childWatches.AddWatcher(path, watcher.value);
      }
    }

    method RemoveWatcher(watcher: Watcher)
      requires Valid()
      modifies dataWatches, childWatches
      ensures Valid() && View() == old(View())
      ensures dataWatches.Registered() == WithoutWatcher(old(dataWatches.Registered()), watcher)
      ensures childWatches.Registered() == WithoutWatcher(old(childWatches.Registered()), watcher)
      ensures dataWatches.processed == old(dataWatches.processed)
      ensures childWatches.processed == old(childWatches.processed)
    {
      dataWatches.RemoveWatcher(watcher);
      childWatches.RemoveWatcher(watcher);
    }

    // -------- Sessions and checkpoints --------

    /** The state once the paths in `order` were deleted, each with its triggers. */
    ghost predicate DeletedEach(t: M.Tree, ears: Audience, order: seq<string>, id: nat)
      reads this, dataWatches, childWatches
    {
      && Valid()
      && View() == M.DeleteEach(t, order, id).tree
      && InformedBy(ears, Ears(), FiringsOfEach(t, order, id), NodeDeleted)
    }

    method DeleteNext(ghost t: M.Tree, ghost ears: Audience, ghost order: seq<string>, p: string, txn: Transaction)
      requires DeletedEach(t, ears, order, txn.instanceId)
      modifies this, dataWatches, childWatches
      ensures DeletedEach(t, ears, order + [p], txn.instanceId)
    {
      ghost var before := Ears();
      ghost var firings := FiringsOf(View(), DoDelete(DeleteRequest(p, -1), txn.instanceId));
      DeleteEachNext(t, order, p, txn.instanceId);
      var code := Delete(DeleteRequest(p, -1), txn, false);
      InformedThen(ears, before, Ears(), FiringsOfEach(t, order, txn.instanceId), firings, NodeDeleted);
    }

    /** The loop, in the order in which the hash set yields its paths. */
    method DeleteAll(ghost t: M.Tree, ghost ears: Audience, owned: set<string>, txn: Transaction)
      returns (ghost order: seq<string>)
      requires DeletedEach(t, ears, [], txn.instanceId)
      modifies this, dataWatches, childWatches
      ensures K.Enumerates(order, owned) && DeletedEach(t, ears, order, txn.instanceId)
    {
      order := [];
      var paths := owned;
      while paths != {}
        invariant paths <= owned && K.Enumerates(order, owned - paths)
        invariant DeletedEach(t, ears, order, txn.instanceId)
      {
        var p :| p in paths;
        DeleteNext(t, ears, order, p, txn);
        EnumerateNext(order, owned, paths, p);
        order := order + [p];
        paths := paths - {p};
      }
      assert owned - paths == owned;
    }

    /** From a tree that satisfies the invariant the order leaves no trace, and whoever watches one of the nodes
        or a parent is told once. */
    method KillSession(session: nat, txn: Transaction)
      requires Valid()
      modifies this, dataWatches, childWatches
      ensures Valid()
      ensures exists order :: K.Enumerates(order, M.OwnedBy(old(View()), session))
                && DeletedEach(M.Disown(old(View()), session), old(Ears()), order, txn.instanceId)
      ensures Inv(old(View())) ==>
                && View() == M.Kill(old(View()), session, txn.instanceId)
                && var gone := M.OwnedBy(old(View()), session);
                   Informed(old(Ears()), Ears(), gone, ParentsOf(gone), NodeDeleted)
    {
      ghost var t, ears, order: seq<string> := View(), Ears(), [];
      ghost var start := M.Disown(t, session);
      InformedOfNothing(ears, NodeDeleted);
      assert session !in ephemerals ==> t == start;
      if session in ephemerals {
        var paths := ephemerals[session];
        ephemerals := ephemerals - {session};
        order := DeleteAll(start, ears, paths, txn);
      }
      assert K.Enumerates(order, M.OwnedBy(t, session));
      if Inv(t) {
        OrderLeavesNoTrace(t, session, order, txn.instanceId);
      }
    }

    /** Merges a node list into the tree. */
    method Recover(list: seq<NodeRecord>)
      modifies this
      ensures View() == Checkpoint.Recover(old(View()), list)
    {
      var i := 0;
      assert list[..0] == [];
      while i < |list|
        invariant 0 <= i <= |list|
        invariant View() == Checkpoint.Recover(old(View()), list[..i])
      {
        RecoverOne(list[i]);
        assert list[..i + 1][..i] == list[..i];
        i := i + 1;
      }
      assert list[..i] == list;
    }

    method RecoverOne(r: NodeRecord)
      modifies this
      ensures View() == RecoverNode(old(View()), r)
    {
      nodes := nodes[r.path := r.node];
      ghost var had := M.Kids(View(), r.path);
      var i := 0;
      while i < |r.children|
        invariant 0 <= i <= |r.children|
        invariant nodes == old(nodes)[r.path := r.node] && ephemerals == old(ephemerals)
        invariant i == 0 ==> childrens == old(childrens)
        invariant i > 0 ==> childrens == old(childrens)[r.path := had + SetOf(r.children[..i])]
      {
        var kids := if r.path in childrens then childrens[r.path] else {};
        assert kids == had + SetOf(r.children[..i]);
        assert r.children[..i + 1] == r.children[..i] + [r.children[i]];
        assert SetOf(r.children[..i + 1]) == SetOf(r.children[..i]) + {r.children[i]};
        assert kids + {r.children[i]} == had + SetOf(r.children[..i + 1]);
        childrens := childrens[r.path := kids + {r.children[i]}];
        i := i + 1;
      }
      assert r.children[..i] == r.children;
      if r.node.stat.ephemeralId > 0 {
        ephemerals := M.AddOwned(ephemerals, r.node.stat.ephemeralId, r.path);
      }
    }

    /** The checkpoint's node list, in the order of the hash map. */
    method GetDataNodeList() returns (list: seq<NodeRecord>)
      ensures IsNodeList(list, View())
    {
      list := [];
      var todo := nodes.Keys;
      while todo != {}
        invariant todo <= nodes.Keys && ListsNodes(list, View(), nodes.Keys - todo)
      {
        var path :| path in todo;
        var r := RecordAt(path);
        ListNext(list, View(), nodes.Keys - todo, r);
        assert nodes.Keys - (todo - {path}) == (nodes.Keys - todo) + {path};
        list := list + [r];
        todo := todo - {path};
      }
      assert nodes.Keys - todo == nodes.Keys;
    }

    method RecordAt(path: string) returns (r: NodeRecord)
      requires path in nodes
      ensures r.path == path && IsRecordOf(r, View())
    {
      var names := ListOf(M.Kids(View(), path));
      r := NodeRecord(path, nodes[path], names);
    }
  }

  /** The tests that Create makes before it looks at the child set. */
  function RefusalOf(t: M.Tree, path: string): ResponseCode {
    match ParsePath(path)
    case BadPath => ErrPath
    case Parts(parent, _) =>
      if parent !in t.nodes then NoParent
      else if t.nodes[parent].nodeType.IsEphemeral() then ParentEphemeral
      else Ok
  }

  lemma {:induction false} CreateRefused(t: M.Tree, request: CreateRequest, txn: Transaction)
    requires RefusalOf(t, request.path) != Ok
    ensures M.Create(t, request, txn) == M.Outcome(t, CreateResponse(RefusalOf(t, request.path), ""))
    ensures M.CheckCreate(t, request) == M.Outcome(t, CreateResponse(RefusalOf(t, request.path), ""))
  {
  }

  /** Create, in either form, once the parent is found fit. */
  lemma {:induction false} CreateByParts(t: M.Tree, request: CreateRequest, txn: Transaction)
    requires RefusalOf(t, request.path) == Ok
    ensures var Parts(parent, child) := ParsePath(request.path);
            var name := M.NameUnder(t.nodes[parent], child);
            M.Create(t, request, txn) ==
              if name in M.Kids(t, parent) then M.Outcome(t, CreateResponse(NodeExists, ""))
              else M.Outcome(M.Link(t, parent, name, request, txn), CreateResponse(Ok, Join(parent, name)))
    ensures var Parts(parent, child) := ParsePath(request.path);
            M.CheckCreate(t, request) ==
              M.Outcome(if parent in t.childrens then t else t.(childrens := t.childrens[parent := {}]),
                        CreateResponse(if child in M.Kids(t, parent) then NodeExists else Ok, ""))
  {
  }

  lemma {:induction false} ListNext(list: seq<NodeRecord>, t: M.Tree, paths: set<string>, r: NodeRecord)
    requires ListsNodes(list, t, paths) && r.path !in paths && IsRecordOf(r, t)
    ensures ListsNodes(list + [r], t, paths + {r.path})
  {
    assert (list + [r])[..|list|] == list;
  }

  lemma {:induction false} EnumerateNext(order: seq<string>, all: set<string>, todo: set<string>, p: string)
    requires K.Enumerates(order, all - todo) && p in todo && todo <= all
    ensures K.Enumerates(order + [p], all - (todo - {p}))
  {
    assert all - (todo - {p}) == all - todo + {p};
  }

  /** The elements of a set in some order, each once. */
  method ListOf(names: set<string>) returns (list: seq<string>)
    ensures K.Enumerates(list, names)
  {
    list := [];
    var todo := names;
    while todo != {}
      invariant todo <= names && K.Enumerates(list, names - todo)
    {
      var name :| name in todo;
      EnumerateNext(list, names, todo, name);
      list := list + [name];
      todo := todo - {name};
    }
    assert names - todo == names;
  }
}
