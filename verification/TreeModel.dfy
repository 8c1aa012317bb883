/** What each operation of DataTree does to the three maps `nodes_`, `childrens_` and `ephemerals_`,
    as total functions on values: every branch of the code, on any contents of the maps. */
module TreeModel {
  import opened Proto
  import opened Paths

  datatype Tree = Tree(
    nodes: map<string, DataNode>,
    childrens: map<string, set<string>>,
    ephemerals: map<nat, set<string>>)

  // A request's effect: the new maps and what is sent back.
  datatype Outcome<R> = Outcome(tree: Tree, response: R)

  /** The tree that the constructor makes. */
  const Fresh := Tree(map["" := DefaultNode], map[], map[])

  /** The child names of a node; an absent entry and an empty one mean the same here. */
  function Kids(t: Tree, q: string): set<string> {
    if q in t.childrens then t.childrens[q] else {}
  }

  /** The paths a session owns in an ephemeral index. */
  function OwnedIn(owned: map<nat, set<string>>, s: nat): set<string> {
    if s in owned then owned[s] else {}
  }

  function OwnedBy(t: Tree, s: nat): set<string> {
    OwnedIn(t.ephemerals, s)
  }

  /** The parent's node after its child set became `kids`. */
  function Relisted(node: DataNode, kids: set<string>, id: nat): DataNode {
    node.(stat := node.stat.(
      childrenVersion := node.stat.childrenVersion + 1,
      childrenNum := U32(|kids|),
      childrenId := id))
  }

  /** The nodes are the same up to the three fields of the stat that describe the child set. */
  predicate SameButChildren(a: DataNode, b: DataNode) {
    b == a.(stat := a.stat.(
      childrenVersion := b.stat.childrenVersion,
      childrenNum := b.stat.childrenNum,
      childrenId := b.stat.childrenId))
  }

  /** The name a created child gets: a sequential parent appends its next counter value. */
  function NameUnder(parent: DataNode, child: string): string {
    if parent.nodeType.IsSequential() then child + Suffix(parent.stat.childrenVersion + 1) else child
  }

  // -------- Create --------

  function CreateCode(t: Tree, request: CreateRequest, onlyCheck: bool): ResponseCode {
    match ParsePath(request.path)
    case BadPath => ErrPath
    case Parts(parent, child) =>
      if parent !in t.nodes then NoParent
      else if t.nodes[parent].nodeType.IsEphemeral() then ParentEphemeral
      else if (if onlyCheck then child else NameUnder(t.nodes[parent], child)) in Kids(t, parent) then NodeExists
      else Ok
  }

  function NewNode(request: CreateRequest, txn: Transaction, ephemeralId: nat): DataNode {
    DataNode(
      request.nodeType,
      Stat(txn.groupId, txn.instanceId, txn.instanceId, txn.time, txn.time, 0, 0,
           U32(|request.data|), 0, txn.instanceId, ephemeralId),
      request.data)
  }

  function AddOwned(owned: map<nat, set<string>>, s: nat, path: string): map<nat, set<string>> {
    owned[s := OwnedIn(owned, s) + {path}]
  }

  /** List `name` under `parent` and store the new node. */
  function Link(t: Tree, parent: string, name: string, request: CreateRequest, txn: Transaction): Tree
    requires parent in t.nodes
  {
    var path := Join(parent, name);
    var kids := Kids(t, parent) + {name};
    var nodes := t.nodes[parent := Relisted(t.nodes[parent], kids, txn.instanceId)];
    var owner :=
      if request.nodeType.IsEphemeral() then txn.sessionId
      else if path in nodes then nodes[path].stat.ephemeralId else 0;
    Tree(
      nodes[path := NewNode(request, txn, owner)],
      t.childrens[parent := kids],
      if request.nodeType.IsEphemeral() then AddOwned(t.ephemerals, txn.sessionId, path) else t.ephemerals)
  }

  function Create(t: Tree, request: CreateRequest, txn: Transaction): Outcome<CreateResponse> {
    var code := CreateCode(t, request, false);
    if code != Ok then Outcome(t, CreateResponse(code, ""))
    else
      var Parts(parent, child) := ParsePath(request.path);
      var name := NameUnder(t.nodes[parent], child);
      Outcome(Link(t, parent, name, request, txn), CreateResponse(Ok, Join(parent, name)))
  }

  /** The check-only form: it evaluates `childrens_[parent]`, which leaves an empty entry behind
      whenever both tests of the parent pass and the parent had no entry. */
  function CheckCreate(t: Tree, request: CreateRequest): Outcome<CreateResponse> {
    var code := CreateCode(t, request, true);
    var p := ParsePath(request.path);
    var touched :=
      if (code == Ok || code == NodeExists) && p.parent !in t.childrens
      then t.(childrens := t.childrens[p.parent := {}])
      else t;
    Outcome(touched, CreateResponse(code, ""))
  }

  // -------- Delete --------

  function DeleteCode(t: Tree, request: DeleteRequest, onlyCheck: bool): ResponseCode {
    match ParsePath(request.path)
    case BadPath => ErrPath
    case Parts(parent, child) =>
      if request.path !in t.nodes then NoNode
      else if request.version != -1 && request.version != t.nodes[request.path].stat.version then BadVersion
      else if request.path in t.childrens then ChildrenExists
      else if !onlyCheck && parent !in t.nodes then NoParent
      else Ok
  }

  function DropOwned(owned: map<nat, set<string>>, s: nat, path: string): map<nat, set<string>> {
    if s == 0 || s !in owned then owned
    else if owned[s] - {path} == {} then owned - {s}
    else owned[s := owned[s] - {path}]
  }

  /** Forget the node at `path` and take `child` off its parent's list, dropping a list that became empty. */
  function Unlink(t: Tree, path: string, parent: string, child: string, id: nat): Tree
    requires path in t.nodes
  {
    var nodes := t.nodes - {path};
    var owned := DropOwned(t.ephemerals, t.nodes[path].stat.ephemeralId, path);
    if parent !in nodes || parent !in t.childrens then Tree(nodes, t.childrens, owned)
    else
      var kids := t.childrens[parent] - {child};
      Tree(
        if child in t.childrens[parent] then nodes[parent := Relisted(nodes[parent], kids, id)] else nodes,
        if kids == {} then t.childrens - {parent} else t.childrens[parent := kids],
        owned)
  }

  function Delete(t: Tree, request: DeleteRequest, id: nat): Outcome<ResponseCode> {
    var code := DeleteCode(t, request, false);
    if code != Ok && code != NoParent then Outcome(t, code)
    else
      var Parts(parent, child) := ParsePath(request.path);
      Outcome(Unlink(t, request.path, parent, child, id), code)
  }

  // -------- SetData --------

  function SetDataCode(t: Tree, request: SetDataRequest): ResponseCode {
    if ParsePath(request.path).BadPath? then ErrPath
    else if request.path !in t.nodes then NoNode
    else if request.version != -1 && request.version != t.nodes[request.path].stat.version then BadVersion
    else Ok
  }

  function Rewritten(node: DataNode, data: Bytes, txn: Transaction): DataNode {
    node.(data := data,
          stat := node.stat.(
            modifiedId := txn.instanceId,
            modifiedTime := txn.time,
            version := node.stat.version + 1,
            dataLen := U32(|data|)))
  }

  function SetData(t: Tree, request: SetDataRequest, txn: Transaction): Outcome<SetDataResponse> {
    var code := SetDataCode(t, request);
    if code != Ok then Outcome(t, SetDataResponse(code, DefaultStat))
    else
      var node := Rewritten(t.nodes[request.path], request.data, txn);
      Outcome(t.(nodes := t.nodes[request.path := node]), SetDataResponse(Ok, node.stat))
  }

  // -------- KillSession --------

  /** The loop of `KillSession`: an unconditional Delete of each path, in the order given. */
  function DeleteEach(t: Tree, order: seq<string>, id: nat): Outcome<seq<ResponseCode>> {
    if order == [] then Outcome(t, [])
    else
      var before := DeleteEach(t, order[..|order| - 1], id);
      var last := Delete(before.tree, DeleteRequest(order[|order| - 1], -1), id);
      Outcome(last.tree, before.response + [last.response])
  }

  predicate AllOk(codes: seq<ResponseCode>) {
    forall i :: 0 <= i < |codes| ==> codes[i] == Ok
  }

  /** The children of q whose node is in `gone`. */
  function Lost(t: Tree, q: string, gone: set<string>): set<string> {
    set c | c in Kids(t, q) && Join(q, c) in gone
  }

  /** A node whose children in `lost` went away, one removal each. */
  function Bereft(node: DataNode, kids: set<string>, lost: set<string>, id: nat): DataNode {
    if lost == {} then node
    else node.(stat := node.stat.(
        childrenVersion := node.stat.childrenVersion + |lost|,
        childrenNum := U32(|kids - lost|),
        childrenId := id))
  }

  /** The tree without the nodes in `gone`, in one step: no iteration order appears in it. */
  function Purge(t: Tree, gone: set<string>, id: nat): Tree {
    Tree(
      map p | p in t.nodes && p !in gone :: Bereft(t.nodes[p], Kids(t, p), Lost(t, p, gone), id),
      map q | q in t.childrens && (Lost(t, q, gone) == {} || t.childrens[q] - Lost(t, q, gone) != {})
        :: t.childrens[q] - Lost(t, q, gone),
      t.ephemerals)
  }

  function Disown(t: Tree, s: nat): Tree {
    t.(ephemerals := t.ephemerals - {s})
  }

  /** `KillSession` as one step; KillIsExact shows that the loop computes this in every order. */
  function Kill(t: Tree, s: nat, id: nat): Tree {
    Purge(Disown(t, s), OwnedBy(t, s), id)
  }
}
