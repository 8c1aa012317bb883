/** Watches under interleaving. Registering a watch, reading a node, changing the maps and triggering are
    separate steps of concurrent threads, merged only where the code holds one lock over them. */
module Notification {
  import opened Proto
  import opened Paths
  import opened TreeModel
  import opened TreeInvariant
  import opened Watches

  datatype Kind = OnData | OnChildren

  // A call of TriggerWatcher that a writer still has to make.
  datatype Firing = Firing(kind: Kind, path: string)

  datatype Task =
    | Idle
    | ExistsRegistered(path: string, watcher: Watcher)
    | DataRead(path: string, watcher: Watcher)
    | Triggering(firings: seq<Firing>)

  // What runs under the tree's lock: the writes, the check-only Create, and taking a session off the index.
  datatype Write =
    | DoCreate(create: CreateRequest, txn: Transaction)
    | DoDelete(delete: DeleteRequest, id: nat)
    | DoSetData(write: SetDataRequest, txn: Transaction)
    | DoCheckCreate(create: CreateRequest)
    | DoDisown(session: nat)

  function Written(t: Tree, w: Write): Tree {
    match w
    case DoCreate(request, txn) => Create(t, request, txn).tree
    case DoDelete(request, id) => Delete(t, request, id).tree
    case DoSetData(request, txn) => SetData(t, request, txn).tree
    case DoCheckCreate(request) => CheckCreate(t, request).tree
    case DoDisown(session) => Disown(t, session)
  }

  function ParentFiring(parent: string): seq<Firing> {
    if parent == "" then [] else [Firing(OnChildren, parent)]
  }

  /** The triggers that follow a write once the lock is released, in the code's order. */
  function FiringsOf(t: Tree, w: Write): seq<Firing> {
    match w
    case DoCreate(request, txn) =>
      var r := Create(t, request, txn).response;
      if r.code != Ok then []
      else [Firing(OnData, r.path)] + ParentFiring(ParsePath(request.path).parent)
    case DoDelete(request, id) =>
      var code := DeleteCode(t, request, false);
      if code != Ok && code != NoParent then []
      else [Firing(OnData, request.path)] + ParentFiring(ParsePath(request.path).parent)
    case DoSetData(request, txn) =>
      if SetDataCode(t, request) == Ok then [Firing(OnData, request.path)] else []
    case DoCheckCreate(_) => []
    case DoDisown(_) => []
  }

  // -------- The system --------

  datatype Sys = Sys(tree: Tree, data: Registry, children: Registry, tasks: map<nat, Task>)

  function TaskOf(sys: Sys, thread: nat): Task {
    if thread in sys.tasks then sys.tasks[thread] else Idle
  }

  function RegistryOf(sys: Sys, kind: Kind): Registry {
    if kind == OnData then sys.data else sys.children
  }

  datatype Step =
    | RegisterExists(thread: nat, path: string, watcher: Watcher)
    | ReadExists(thread: nat)
    | ReadData(thread: nat, path: string, watcher: Watcher)
    | RegisterData(thread: nat)
    | ReadChildren(thread: nat, path: string, watcher: Watcher)
    | Modify(thread: nat, write: Write)
    | Fire(thread: nat)
    | Unwatch(kind: Kind, watcher: Watcher)

  /** GetChildren registers under the lock under which it reads, for a node that may have children. */
  predicate ChildrenWatchable(t: Tree, path: string) {
    path in t.nodes && !t.nodes[path].nodeType.IsEphemeral()
  }

  predicate Enabled(sys: Sys, step: Step) {
    match step
    case RegisterExists(thread, path, _) => TaskOf(sys, thread).Idle? && ParsePath(path).Parts?
    case ReadExists(thread) => TaskOf(sys, thread).ExistsRegistered?
    case ReadData(thread, path, _) => TaskOf(sys, thread).Idle? && ParsePath(path).Parts?
    case RegisterData(thread) => TaskOf(sys, thread).DataRead?
    case ReadChildren(thread, path, _) => TaskOf(sys, thread).Idle? && ParsePath(path).Parts?
    case Modify(thread, _) => TaskOf(sys, thread).Idle?
    case Fire(thread) => TaskOf(sys, thread).Triggering? && TaskOf(sys, thread).firings != []
    case Unwatch(_, _) => true
  }

  function After(sys: Sys, step: Step): Sys
    requires Enabled(sys, step)
  {
    match step
    case RegisterExists(thread, path, watcher) =>
      sys.(data := sys.data + {(path, watcher)}, tasks := sys.tasks[thread := ExistsRegistered(path, watcher)])
    case ReadExists(thread) =>
      sys.(tasks := sys.tasks[thread := Idle])
    case ReadData(thread, path, watcher) =>
      sys.(tasks := sys.tasks[thread := if path in sys.tree.nodes then DataRead(path, watcher) else Idle])
    case RegisterData(thread) =>
      var task := TaskOf(sys, thread);
      sys.(data := sys.data + {(task.path, task.watcher)}, tasks := sys.tasks[thread := Idle])
    case ReadChildren(thread, path, watcher) =>
      if ChildrenWatchable(sys.tree, path) then sys.(children := sys.children + {(path, watcher)}) else sys
    case Modify(thread, write) =>
      var firings := FiringsOf(sys.tree, write);
      sys.(tree := Written(sys.tree, write),
           tasks := sys.tasks[thread := if firings == [] then Idle else Triggering(firings)])
    case Fire(thread) =>
      var firings := TaskOf(sys, thread).firings;
      var left := sys.tasks[thread := if |firings| == 1 then Idle else Triggering(firings[1..])];
      if firings[0].kind == OnData
      then sys.(data := WithoutPath(sys.data, firings[0].path), tasks := left)
      else sys.(children := WithoutPath(sys.children, firings[0].path), tasks := left)
    case Unwatch(kind, watcher) =>
      if kind == OnData then sys.(data := WithoutWatcher(sys.data, watcher))
      else sys.(children := WithoutWatcher(sys.children, watcher))
  }

  /** A run: the states before each step and after the last one. */
  ghost predicate IsRun(states: seq<Sys>, steps: seq<Step>) {
    && |states| == |steps| + 1
    && forall k {:trigger IsStep(states, steps, k)} :: 0 <= k < |steps| ==> IsStep(states, steps, k)
  }

  ghost predicate IsStep(states: seq<Sys>, steps: seq<Step>, k: nat)
    requires |states| == |steps| + 1 && k < |steps|
  {
    Enabled(states[k], steps[k]) && states[k + 1] == After(states[k], steps[k])
  }

  /** The step calls TriggerWatcher(path) on the registry of that kind. */
  predicate Fires(sys: Sys, step: Step, kind: Kind, path: string) {
    step.Fire? && Enabled(sys, step) && TaskOf(sys, step.thread).firings[0] == Firing(kind, path)
  }

  /** The step hands the watcher an event for the path. */
  predicate Delivers(sys: Sys, step: Step, kind: Kind, path: string, watcher: Watcher) {
    Fires(sys, step, kind, path) && (path, watcher) in RegistryOf(sys, kind)
  }

  ghost predicate DeliveredIn(states: seq<Sys>, steps: seq<Step>, lo: nat, hi: nat,
                              kind: Kind, path: string, watcher: Watcher)
    requires IsRun(states, steps) && hi <= |steps|
  {
    exists g :: lo <= g < hi && Delivers(states[g], steps[g], kind, path, watcher)
  }

  ghost predicate FiredIn(states: seq<Sys>, steps: seq<Step>, lo: nat, hi: nat, kind: Kind, path: string)
    requires IsRun(states, steps) && hi <= |steps|
  {
    exists g :: lo <= g < hi && Fires(states[g], steps[g], kind, path)
  }

  ghost predicate KeptIn(steps: seq<Step>, lo: nat, hi: nat, kind: Kind, watcher: Watcher)
    requires hi <= |steps|
  {
    forall k :: lo <= k < hi ==> steps[k] != Unwatch(kind, watcher)
  }

  // -------- What a write changes, it announces --------

  /** The node appeared, disappeared, or changed its data, its version or its type. */
  ghost predicate DataChanged(t: Tree, u: Tree, p: string) {
    || (p in t.nodes) != (p in u.nodes)
    || (p in t.nodes && p in u.nodes &&
        (t.nodes[p].data != u.nodes[p].data || t.nodes[p].stat.version != u.nodes[p].stat.version
         || t.nodes[p].nodeType != u.nodes[p].nodeType))
  }

  lemma {:induction false} DataChangeAnnounced(t: Tree, w: Write, p: string)
    requires DataChanged(t, Written(t, w), p)
    ensures Firing(OnData, p) in FiringsOf(t, w)
  {
    match w
    case DoCreate(request, txn) => CreateTellsData(t, request, txn, p);
    case DoDelete(request, id) => DeleteTellsData(t, request, id, p);
    case DoSetData(request, txn) => WriteTellsData(t, request, txn, p);
    case _ =>
  }

  lemma {:induction false} CreateTellsData(t: Tree, request: CreateRequest, txn: Transaction, p: string)
    requires DataChanged(t, Create(t, request, txn).tree, p)
    ensures Firing(OnData, p) in FiringsOf(t, DoCreate(request, txn))
  {
    assert p == Create(t, request, txn).response.path;
    assert FiringsOf(t, DoCreate(request, txn))[0] == Firing(OnData, p);
  }

  lemma {:induction false} DeleteTellsData(t: Tree, request: DeleteRequest, id: nat, p: string)
    requires DataChanged(t, Delete(t, request, id).tree, p)
    ensures Firing(OnData, p) in FiringsOf(t, DoDelete(request, id))
  {
    assert p == request.path;
    assert FiringsOf(t, DoDelete(request, id))[0] == Firing(OnData, p);
  }

  lemma {:induction false} WriteTellsData(t: Tree, request: SetDataRequest, txn: Transaction, p: string)
    requires DataChanged(t, SetData(t, request, txn).tree, p)
    ensures Firing(OnData, p) in FiringsOf(t, DoSetData(request, txn))
  {
    assert p == request.path;
    assert FiringsOf(t, DoSetData(request, txn))[0] == Firing(OnData, p);
  }

  lemma {:induction false} ChildChangeAnnounced(t: Tree, w: Write, p: string)
    requires Kids(t, p) != Kids(Written(t, w), p) && p != ""
    ensures Firing(OnChildren, p) in FiringsOf(t, w)
  {
    match w
    case DoCreate(request, txn) => CreateAnnounced(t, request, txn, p);
    case DoDelete(request, id) => DeleteAnnounced(t, request, id, p);
    case _ =>
  }

  lemma {:induction false} CreateAnnounced(t: Tree, request: CreateRequest, txn: Transaction, p: string)
    requires Kids(t, p) != Kids(Create(t, request, txn).tree, p) && p != ""
    ensures Firing(OnChildren, p) in FiringsOf(t, DoCreate(request, txn))
  {
    assert FiringsOf(t, DoCreate(request, txn))[1] == Firing(OnChildren, p);
  }

  lemma {:induction false} DeleteAnnounced(t: Tree, request: DeleteRequest, id: nat, p: string)
    requires Kids(t, p) != Kids(Delete(t, request, id).tree, p) && p != ""
    ensures Firing(OnChildren, p) in FiringsOf(t, DoDelete(request, id))
  {
    assert FiringsOf(t, DoDelete(request, id))[1] == Firing(OnChildren, p);
  }

  /** In a linked tree data watches are triggered for exactly the nodes that a write creates, deletes or rewrites. */
  lemma {:induction false} DataAnnouncedIff(t: Tree, w: Write, p: string)
    requires Linked(t)
    ensures Firing(OnData, p) in FiringsOf(t, w) <==> DataChanged(t, Written(t, w), p)
  {
    if Firing(OnData, p) in FiringsOf(t, w) {
      AnnouncedIsChanged(t, w, p);
    } else if DataChanged(t, Written(t, w), p) {
      DataChangeAnnounced(t, w, p);
    }
  }

  lemma {:induction false} AnnouncedIsChanged(t: Tree, w: Write, p: string)
    requires Linked(t) && Firing(OnData, p) in FiringsOf(t, w)
    ensures DataChanged(t, Written(t, w), p)
  {
    match w
    case DoCreate(request, txn) => CreatedIsNew(t, request);
    case DoDelete(request, id) => DeletedIsGone(t, request, id);
    case DoSetData(request, txn) => assert Written(t, w).nodes[p].stat.version == t.nodes[p].stat.version + 1;
  }

  lemma {:induction false} DeletedIsGone(t: Tree, request: DeleteRequest, id: nat)
    requires DeleteCode(t, request, false) == Ok || DeleteCode(t, request, false) == NoParent
    ensures request.path in t.nodes && request.path !in Delete(t, request, id).tree.nodes
  {
  }

  lemma {:induction false} CreatedIsNew(t: Tree, request: CreateRequest)
    requires Linked(t) && CreateCode(t, request, false) == Ok
    ensures var Parts(parent, child) := ParsePath(request.path);
            Join(parent, NameUnder(t.nodes[parent], child)) !in t.nodes
  {
    var Parts(parent, child) := ParsePath(request.path);
    NameUnderIsName(t.nodes[parent], child);
    UnlistedIsAbsent(t, parent, NameUnder(t.nodes[parent], child));
  }

  /** And child watches for exactly the nodes other than the root whose child set it changes. */
  lemma {:induction false} ChildrenAnnouncedIff(t: Tree, w: Write, p: string)
    requires Linked(t) && p != ""
    ensures Firing(OnChildren, p) in FiringsOf(t, w) <==> Kids(t, p) != Kids(Written(t, w), p)
  {
    if Firing(OnChildren, p) in FiringsOf(t, w) {
      AnnouncedIsRegrouped(t, w, p);
    } else if Kids(t, p) != Kids(Written(t, w), p) {
      ChildChangeAnnounced(t, w, p);
    }
  }

  lemma {:induction false} AnnouncedIsRegrouped(t: Tree, w: Write, p: string)
    requires Linked(t) && Firing(OnChildren, p) in FiringsOf(t, w)
    ensures Kids(t, p) != Kids(Written(t, w), p)
  {
    match w
    case DoCreate(request, txn) => CreateRegroups(t, request, txn, p);
    case DoDelete(request, id) => DeleteRegroups(t, request, id, p);
  }

  lemma {:induction false} CreateRegroups(t: Tree, request: CreateRequest, txn: Transaction, p: string)
    requires Firing(OnChildren, p) in FiringsOf(t, DoCreate(request, txn))
    ensures Kids(t, p) != Kids(Create(t, request, txn).tree, p)
  {
    var Parts(parent, child) := ParsePath(request.path);
    var name := NameUnder(t.nodes[parent], child);
    assert p == parent && name !in Kids(t, p);
    assert name in Kids(Create(t, request, txn).tree, p);
  }

  lemma {:induction false} DeleteRegroups(t: Tree, request: DeleteRequest, id: nat, p: string)
    requires Linked(t) && Firing(OnChildren, p) in FiringsOf(t, DoDelete(request, id))
    ensures Kids(t, p) != Kids(Delete(t, request, id).tree, p)
  {
    DeletedIsListed(t, request, id);
    assert p == ParsePath(request.path).parent && ParsePath(request.path).child in Kids(t, p);
  }

  lemma {:induction false} DeletedIsListed(t: Tree, request: DeleteRequest, id: nat)
    requires Linked(t) && ParsePath(request.path).Parts?
    requires DeleteCode(t, request, false) == Ok || DeleteCode(t, request, false) == NoParent
    ensures var Parts(parent, child) := ParsePath(request.path);
            && parent in t.nodes && child in Kids(t, parent)
            && forall q :: Kids(Delete(t, request, id).tree, q) == Kids(t, q) - (if q == parent then {child} else {})
  {
    var Parts(parent, child) := ParsePath(request.path);
    assert HasParent(t, request.path);
    forall q
      ensures Kids(Delete(t, request, id).tree, q) == Kids(t, q) - (if q == parent then {child} else {})
    {
      UnlinkKids(t, request.path, parent, child, id, q);
    }
  }

  /** A node that is in both trees changed without a trigger of its data watches exactly if its child set changed,
      and then in nothing but the fields that describe the child set. */
  ghost predicate OnlyChildrenUnannounced(t: Tree, u: Tree, firings: seq<Firing>, p: string) {
    p in t.nodes && p in u.nodes ==>
      && (t.nodes[p] != u.nodes[p] && Firing(OnData, p) !in firings <==> Kids(t, p) != Kids(u, p))
      && (Firing(OnData, p) !in firings ==> SameButChildren(t.nodes[p], u.nodes[p]))
  }

  /** Exists and GetData return the child fields too, and no data watch is triggered when they change; nothing else
      changes unannounced. */
  lemma {:induction false} UnannouncedChange(t: Tree, w: Write, p: string)
    requires Linked(t)
    ensures OnlyChildrenUnannounced(t, Written(t, w), FiringsOf(t, w), p)
  {
    match w
    case DoCreate(request, txn) => UnannouncedByCreate(t, request, txn, p);
    case DoDelete(request, id) => UnannouncedByDelete(t, request, id, p);
    case DoSetData(request, txn) => UnannouncedByWrite(t, request, txn, p);
    case DoCheckCreate(request) => UnannouncedByCheck(t, request, p);
    case DoDisown(_) =>
  }

  lemma {:induction false} UnannouncedByWrite(t: Tree, request: SetDataRequest, txn: Transaction, p: string)
    ensures var w := DoSetData(request, txn); OnlyChildrenUnannounced(t, Written(t, w), FiringsOf(t, w), p)
  {
    if SetDataCode(t, request) == Ok {
      assert FiringsOf(t, DoSetData(request, txn))[0] == Firing(OnData, request.path);
    }
  }

  lemma {:induction false} UnannouncedByCheck(t: Tree, request: CreateRequest, p: string)
    ensures var w := DoCheckCreate(request); OnlyChildrenUnannounced(t, Written(t, w), FiringsOf(t, w), p)
  {
  }

  lemma {:induction false} UnannouncedByCreate(t: Tree, request: CreateRequest, txn: Transaction, p: string)
    requires Linked(t)
    ensures var w := DoCreate(request, txn); OnlyChildrenUnannounced(t, Written(t, w), FiringsOf(t, w), p)
  {
    if CreateCode(t, request, false) == Ok {
      CreatedIsNew(t, request);
      var Parts(parent, child) := ParsePath(request.path);
      UnannouncedByLink(t, parent, NameUnder(t.nodes[parent], child), request, txn, p);
    }
  }

  lemma {:induction false} UnannouncedByLink(t: Tree, parent: string, name: string, request: CreateRequest,
                                             txn: Transaction, p: string)
    requires parent in t.nodes && name !in Kids(t, parent) && Join(parent, name) !in t.nodes
    ensures OnlyChildrenUnannounced(t, Link(t, parent, name, request, txn),
                                    [Firing(OnData, Join(parent, name))] + ParentFiring(parent), p)
  {
    assert name in Kids(Link(t, parent, name, request, txn), parent);
  }

  lemma {:induction false} UnannouncedByDelete(t: Tree, request: DeleteRequest, id: nat, p: string)
    requires Linked(t)
    ensures var w := DoDelete(request, id); OnlyChildrenUnannounced(t, Written(t, w), FiringsOf(t, w), p)
  {
    var code := DeleteCode(t, request, false);
    if code == Ok || code == NoParent {
      DeletedIsListed(t, request, id);
    }
  }

  /** It happens with every second level: creating /a/b changes the stat of /a, tells the child watches of /a, and
      tells no data watch of /a. */
  lemma {:induction false} UnannouncedReachable(a: string, b: string, first: Transaction, second: Transaction)
    requires IsName(a) && IsName(b)
    ensures var q := Join("", a);
            var t := Create(Fresh, CreateRequest(Persistent, q, []), first).tree;
            var w := DoCreate(CreateRequest(Persistent, Join(q, b), []), second);
            && q in t.nodes && q in Written(t, w).nodes
            && t.nodes[q].stat.childrenVersion == 0 && Written(t, w).nodes[q].stat.childrenVersion == 1
            && Firing(OnData, q) !in FiringsOf(t, w) && Firing(OnChildren, q) in FiringsOf(t, w)
  {
    var q := Join("", a);
    var t := Create(Fresh, CreateRequest(Persistent, q, []), first).tree;
    ParseExact(q, "", a);
    assert q in t.nodes && t.nodes[q].nodeType.Persistent? && t.nodes[q].stat.childrenVersion == 0;
    SecondLevel(t, q, b, CreateRequest(Persistent, Join(q, b), []), second);
  }

  lemma {:induction false} SecondLevel(t: Tree, q: string, b: string, request: CreateRequest, txn: Transaction)
    requires q in t.nodes && q != "" && t.nodes[q].nodeType.Persistent? && Kids(t, q) == {}
    requires request.path == Join(q, b) && IsName(b)
    ensures var w := DoCreate(request, txn);
            && q in Written(t, w).nodes
            && Written(t, w).nodes[q].stat.childrenVersion == t.nodes[q].stat.childrenVersion + 1
            && FiringsOf(t, w) == [Firing(OnData, Join(q, b)), Firing(OnChildren, q)]
            && Firing(OnData, q) !in FiringsOf(t, w) && Firing(OnChildren, q) in FiringsOf(t, w)
  {
    ParseExact(request.path, q, b);
    assert |Join(q, b)| != |q|;
    assert FiringsOf(t, DoCreate(request, txn))[1] == Firing(OnChildren, q);
  }

  // -------- One step of a run --------

  ghost predicate Owes(sys: Sys, thread: nat, f: Firing) {
    TaskOf(sys, thread).Triggering? && f in TaskOf(sys, thread).firings
  }

  /** Some writer still has to make this trigger. */
  ghost predicate Pending(sys: Sys, f: Firing) {
    exists x: nat :: Owes(sys, x, f)
  }

  /** The step is a write that calls for this trigger. */
  ghost predicate CallsFor(sys: Sys, step: Step, f: Firing) {
    step.Modify? && f in FiringsOf(sys.tree, step.write)
  }

  lemma {:induction false} RegistrationStep(states: seq<Sys>, steps: seq<Step>, k: nat, kind: Kind, path: string,
                                            watcher: Watcher)
    requires IsRun(states, steps) && k < |steps| && steps[k] != Unwatch(kind, watcher)
    requires (path, watcher) in RegistryOf(states[k], kind)
    ensures (path, watcher) in RegistryOf(states[k + 1], kind) || Delivers(states[k], steps[k], kind, path, watcher)
  {
    assert IsStep(states, steps, k);
  }

  lemma {:induction false} Registers(states: seq<Sys>, steps: seq<Step>, k: nat)
    requires IsRun(states, steps) && k < |steps|
    ensures steps[k].RegisterExists? ==> (steps[k].path, steps[k].watcher) in states[k + 1].data
    ensures steps[k].ReadChildren? && ChildrenWatchable(states[k].tree, steps[k].path) ==>
              (steps[k].path, steps[k].watcher) in states[k + 1].children
    ensures steps[k].ReadChildren? ==> steps[k].path != ""
    ensures steps[k].RegisterData? ==>
              var task := TaskOf(states[k], steps[k].thread);
              task.DataRead? && (task.path, task.watcher) in states[k + 1].data
  {
    assert IsStep(states, steps, k);
    BadPathExact("");
  }

  lemma {:induction false} CalledForIsOwed(states: seq<Sys>, steps: seq<Step>, k: nat, f: Firing)
    requires IsRun(states, steps) && k < |steps| && CallsFor(states[k], steps[k], f)
    ensures Owes(states[k + 1], steps[k].thread, f)
  {
    assert IsStep(states, steps, k);
  }

  lemma {:induction false} ChangeIsOwed(states: seq<Sys>, steps: seq<Step>, k: nat, path: string)
    requires IsRun(states, steps) && k < |steps| && steps[k].Modify?
    ensures DataChanged(states[k].tree, states[k + 1].tree, path) ==>
              Owes(states[k + 1], steps[k].thread, Firing(OnData, path))
    ensures Kids(states[k].tree, path) != Kids(states[k + 1].tree, path) && path != "" ==>
              Owes(states[k + 1], steps[k].thread, Firing(OnChildren, path))
  {
    WritesTree(states, steps, k);
    if DataChanged(states[k].tree, states[k + 1].tree, path) {
      DataChangeAnnounced(states[k].tree, steps[k].write, path);
      CalledForIsOwed(states, steps, k, Firing(OnData, path));
    }
    if Kids(states[k].tree, path) != Kids(states[k + 1].tree, path) && path != "" {
      ChildChangeAnnounced(states[k].tree, steps[k].write, path);
      CalledForIsOwed(states, steps, k, Firing(OnChildren, path));
    }
  }

  lemma {:induction false} WritesTree(states: seq<Sys>, steps: seq<Step>, k: nat)
    requires IsRun(states, steps) && k < |steps| && steps[k].Modify?
    ensures states[k + 1].tree == Written(states[k].tree, steps[k].write)
  {
    assert IsStep(states, steps, k);
  }

  lemma {:induction false} OwingStep(states: seq<Sys>, steps: seq<Step>, k: nat, thread: nat, f: Firing)
    requires IsRun(states, steps) && k < |steps| && Owes(states[k], thread, f) && !Owes(states[k + 1], thread, f)
    ensures Fires(states[k], steps[k], f.kind, f.path)
  {
    assert IsStep(states, steps, k);
    var firings := TaskOf(states[k], thread).firings;
    assert firings == [firings[0]] + firings[1..];
  }

  lemma {:induction false} UnowedStep(states: seq<Sys>, steps: seq<Step>, k: nat, f: Firing)
    requires IsRun(states, steps) && k < |steps| && !Pending(states[k], f) && !CallsFor(states[k], steps[k], f)
    ensures !Pending(states[k + 1], f) && !Fires(states[k], steps[k], f.kind, f.path)
  {
    assert IsStep(states, steps, k);
    assert steps[k].Fire? ==> !Owes(states[k], steps[k].thread, f);
    assert forall x: nat {:trigger Owes(states[k + 1], x, f)} :: Owes(states[k + 1], x, f) ==> Owes(states[k], x, f);
  }

  // -------- Along a run --------

  /** A registration stays until it is used or withdrawn. */
  lemma {:induction false} RegistrationLasts(states: seq<Sys>, steps: seq<Step>, lo: nat, hi: nat,
                                             kind: Kind, path: string, watcher: Watcher)
    requires IsRun(states, steps) && lo <= hi <= |steps| && KeptIn(steps, lo, hi, kind, watcher)
    requires (path, watcher) in RegistryOf(states[lo], kind)
    ensures (path, watcher) in RegistryOf(states[hi], kind) || DeliveredIn(states, steps, lo, hi, kind, path, watcher)
    decreases hi
  {
    if lo < hi {
      RegistrationLasts(states, steps, lo, hi - 1, kind, path, watcher);
      if (path, watcher) in RegistryOf(states[hi - 1], kind) {
        RegistrationStep(states, steps, hi - 1, kind, path, watcher);
      }
    }
  }

  /** A writer makes every trigger it owes before it is done. */
  lemma {:induction false} OwedIsFired(states: seq<Sys>, steps: seq<Step>, lo: nat, hi: nat, thread: nat, f: Firing)
    requires IsRun(states, steps) && lo <= hi <= |steps|
    requires Owes(states[lo], thread, f) && !Owes(states[hi], thread, f)
    ensures FiredIn(states, steps, lo, hi, f.kind, f.path)
    decreases hi
  {
    if Owes(states[hi - 1], thread, f) {
      OwingStep(states, steps, hi - 1, thread, f);
    } else {
      OwedIsFired(states, steps, lo, hi - 1, thread, f);
    }
  }

  /** While a watch is kept, its watcher hears of the path exactly when some trigger for it fires. */
  lemma {:induction false} HeardIffFired(states: seq<Sys>, steps: seq<Step>, lo: nat, hi: nat,
                                         kind: Kind, path: string, watcher: Watcher)
    requires IsRun(states, steps) && lo <= hi <= |steps| && KeptIn(steps, lo, hi, kind, watcher)
    requires (path, watcher) in RegistryOf(states[lo], kind)
    ensures DeliveredIn(states, steps, lo, hi, kind, path, watcher) <==> FiredIn(states, steps, lo, hi, kind, path)
  {
    if FiredIn(states, steps, lo, hi, kind, path) {
      var g :| lo <= g < hi && Fires(states[g], steps[g], kind, path);
      RegistrationLasts(states, steps, lo, g, kind, path, watcher);
    }
  }

  /** The writer x changed something at step m and is done by step n. */
  ghost predicate WroteAndFinished(states: seq<Sys>, steps: seq<Step>, x: nat, m: nat, n: nat)
    requires IsRun(states, steps)
  {
    m < n <= |steps| && steps[m].Modify? && steps[m].thread == x && TaskOf(states[n], x).Idle?
  }

  /** Exists: a creation, deletion or rewriting of the node after the read is announced to the watcher, at the
      latest by the time the writer is done, unless the watcher was removed. */
  lemma {:induction false} ExistsMissesNothing(states: seq<Sys>, steps: seq<Step>, thread: nat, path: string,
                                               watcher: Watcher,
                                               r: nat, read: nat, x: nat, m: nat, n: nat)
    requires IsRun(states, steps) && r < read < m && WroteAndFinished(states, steps, x, m, n)
    requires steps[r] == RegisterExists(thread, path, watcher) && steps[read] == ReadExists(thread)
    requires DataChanged(states[m].tree, states[m + 1].tree, path)
    requires KeptIn(steps, r + 1, n, OnData, watcher)
    ensures DeliveredIn(states, steps, r + 1, n, OnData, path, watcher)
  {
    Registers(states, steps, r);
    ChangeIsOwed(states, steps, m, path);
    OwedIsFired(states, steps, m + 1, n, x, Firing(OnData, path));
    HeardIffFired(states, steps, r + 1, n, OnData, path, watcher);
  }

  /** GetChildren: any change of the child set made after the read is announced likewise. */
  lemma {:induction false} GetChildrenMissesNothing(states: seq<Sys>, steps: seq<Step>, thread: nat, path: string,
                                                    watcher: Watcher, r: nat, x: nat, m: nat, n: nat)
    requires IsRun(states, steps) && r < m && WroteAndFinished(states, steps, x, m, n)
    requires steps[r] == ReadChildren(thread, path, watcher) && ChildrenWatchable(states[r].tree, path)
    requires Kids(states[m].tree, path) != Kids(states[m + 1].tree, path)
    requires KeptIn(steps, r + 1, n, OnChildren, watcher)
    ensures DeliveredIn(states, steps, r + 1, n, OnChildren, path, watcher)
  {
    Registers(states, steps, r);
    ChangeIsOwed(states, steps, m, path);
    OwedIsFired(states, steps, m + 1, n, x, Firing(OnChildren, path));
    HeardIffFired(states, steps, r + 1, n, OnChildren, path, watcher);
  }

  // -------- GetData --------

  /** Some write between lo and hi calls for this trigger. */
  ghost predicate CalledForIn(states: seq<Sys>, steps: seq<Step>, lo: nat, hi: nat, f: Firing)
    requires IsRun(states, steps) && hi <= |steps|
  {
    exists k :: lo <= k < hi && CallsFor(states[k], steps[k], f)
  }

  /** A trigger that nobody owes and no write calls for does not fire. */
  lemma {:induction false} UnowedIsNotFired(states: seq<Sys>, steps: seq<Step>, lo: nat, hi: nat, f: Firing)
    requires IsRun(states, steps) && lo <= hi <= |steps|
    requires !Pending(states[lo], f) && !CalledForIn(states, steps, lo, hi, f)
    ensures !Pending(states[hi], f) && !FiredIn(states, steps, lo, hi, f.kind, f.path)
    decreases hi
  {
    if lo < hi {
      UnowedIsNotFired(states, steps, lo, hi - 1, f);
      UnowedStep(states, steps, hi - 1, f);
    }
  }

  lemma {:induction false} PendingIsFired(states: seq<Sys>, steps: seq<Step>, lo: nat, hi: nat, f: Firing)
    requires IsRun(states, steps) && lo <= hi <= |steps| && Pending(states[lo], f) && !Pending(states[hi], f)
    ensures FiredIn(states, steps, lo, hi, f.kind, f.path)
  {
    var x: nat :| Owes(states[lo], x, f);
    OwedIsFired(states, steps, lo, hi, x, f);
  }

  /** A trigger that was owed or called for, and that nobody owes in the end, has fired. */
  lemma {:induction false} SettledIsFired(states: seq<Sys>, steps: seq<Step>, lo: nat, hi: nat, f: Firing)
    requires IsRun(states, steps) && lo <= hi <= |steps| && !Pending(states[hi], f)
    requires Pending(states[lo], f) || CalledForIn(states, steps, lo, hi, f)
    ensures FiredIn(states, steps, lo, hi, f.kind, f.path)
  {
    if Pending(states[lo], f) {
      PendingIsFired(states, steps, lo, hi, f);
    } else {
      var k :| lo <= k < hi && CallsFor(states[k], steps[k], f);
      CalledForIsOwed(states, steps, k, f);
      PendingIsFired(states, steps, k + 1, hi, f);
      assert FiredIn(states, steps, k + 1, hi, f.kind, f.path);
    }
  }

  lemma {:induction false} HeardOnlyIfOwed(states: seq<Sys>, steps: seq<Step>, r: nat, n: nat,
                                           path: string, watcher: Watcher)
    requires IsRun(states, steps) && r < n <= |steps|
    requires DeliveredIn(states, steps, r + 1, n, OnData, path, watcher)
    ensures Pending(states[r], Firing(OnData, path)) || CalledForIn(states, steps, r, n, Firing(OnData, path))
  {
    var f := Firing(OnData, path);
    if !Pending(states[r], f) && !CalledForIn(states, steps, r, n, f) {
      UnowedIsNotFired(states, steps, r, n, f);
    }
  }

  lemma {:induction false} HeardIfOwed(states: seq<Sys>, steps: seq<Step>, r: nat, n: nat,
                                       path: string, watcher: Watcher)
    requires IsRun(states, steps) && r < n <= |steps| && steps[r].RegisterData?
    requires (path, watcher) in states[r + 1].data && KeptIn(steps, r + 1, n, OnData, watcher)
    requires !Pending(states[n], Firing(OnData, path))
    requires Pending(states[r], Firing(OnData, path)) || CalledForIn(states, steps, r, n, Firing(OnData, path))
    ensures DeliveredIn(states, steps, r + 1, n, OnData, path, watcher)
  {
    HeardIffFired(states, steps, r + 1, n, OnData, path, watcher);
    SettledIsFired(states, steps, r, n, Firing(OnData, path));
  }

  /** GetData registers after it has released the lock. What its watcher hears is decided by the state at the
      registration: by a time when nobody owes a trigger for the path any more, the watcher has heard of the
      path if and only if such a trigger was still owed at the registration, or a later write called for one. */
  lemma {:induction false} GetDataHearsIff(states: seq<Sys>, steps: seq<Step>, thread: nat, path: string,
                                           watcher: Watcher, r: nat, n: nat)
    requires IsRun(states, steps) && r < n <= |steps|
    requires steps[r] == RegisterData(thread) && TaskOf(states[r], thread) == DataRead(path, watcher)
    requires KeptIn(steps, r + 1, n, OnData, watcher)
    ensures var f := Firing(OnData, path);
            DeliveredIn(states, steps, r + 1, n, OnData, path, watcher) ==>
              Pending(states[r], f) || CalledForIn(states, steps, r, n, f)
    ensures var f := Firing(OnData, path);
            !Pending(states[n], f) ==>
              (DeliveredIn(states, steps, r + 1, n, OnData, path, watcher) <==>
                 Pending(states[r], f) || CalledForIn(states, steps, r, n, f))
  {
    var f := Firing(OnData, path);
    if DeliveredIn(states, steps, r + 1, n, OnData, path, watcher) {
      HeardOnlyIfOwed(states, steps, r, n, path, watcher);
    } else if !Pending(states[n], f) && (Pending(states[r], f) || CalledForIn(states, steps, r, n, f)) {
      Registers(states, steps, r);
      HeardIfOwed(states, steps, r, n, path, watcher);
    }
  }

  /** For one change made after the read: it is announced if it comes after the registration, and also if it
      comes before and its writer has not made its trigger by then. */
  lemma {:induction false} GetDataHearsLateTriggers(states: seq<Sys>, steps: seq<Step>, thread: nat, path: string,
                                                    watcher: Watcher, read: nat, r: nat, x: nat, m: nat, n: nat)
    requires IsRun(states, steps) && read < r < n && read < m && WroteAndFinished(states, steps, x, m, n)
    requires steps[read] == ReadData(thread, path, watcher)
    requires steps[r] == RegisterData(thread) && TaskOf(states[r], thread) == DataRead(path, watcher)
    requires DataChanged(states[m].tree, states[m + 1].tree, path)
    requires KeptIn(steps, r + 1, n, OnData, watcher)
    ensures r < m || Owes(states[r], x, Firing(OnData, path)) ==>
              DeliveredIn(states, steps, r + 1, n, OnData, path, watcher)
  {
    var f := Firing(OnData, path);
    Registers(states, steps, r);
    HeardIffFired(states, steps, r + 1, n, OnData, path, watcher);
    if r < m {
      ChangeIsOwed(states, steps, m, path);
      OwedIsFired(states, steps, m + 1, n, x, f);
    } else if Owes(states[r], x, f) {
      OwedIsFired(states, steps, r, n, x, f);
    }
  }

  /** The second step changes the node, nobody is told, and in the end the watch is left waiting. */
  ghost predicate Misses(states: seq<Sys>, steps: seq<Step>, path: string, watcher: Watcher)
    requires IsRun(states, steps) && |steps| == 4
  {
    && DataChanged(states[1].tree, states[2].tree, path)
    && !DeliveredIn(states, steps, 0, 4, OnData, path, watcher)
    && (path, watcher) in states[4].data
  }

  /** The window is real: a write that starts after GetData's read and ends before its registration goes by
      unannounced, and the watch is left waiting. */
  lemma {:induction false} GetDataCanMiss(t: Tree, path: string, watcher: Watcher, request: SetDataRequest,
                                          txn: Transaction)
    requires path in t.nodes && request.path == path && SetDataCode(t, request) == Ok
    ensures var start := Sys(t, {}, {}, map[]);
            var steps := MissSteps(DoSetData(request, txn), path, watcher);
            exists states: seq<Sys> ::
              IsRun(states, steps) && states[0] == start && Misses(states, steps, path, watcher)
  {
    var write := DoSetData(request, txn);
    var u := Written(t, write);
    var states, steps := MissStates(t, u, path, watcher), MissSteps(write, path, watcher);
    ReaderMisses(t, u, write, path, watcher);
    WriterModifies(t, write, path, watcher);
    WriterFires(t, u, write, path, watcher);
    FourSteps(states, steps);
    NobodyTold(states, steps, path, watcher);
    AnnouncedIsWritten(t, request, txn);
  }

  /** Thread 1 reads and registers; in between thread 2 changes t to u and makes its trigger. */
  function MissStates(t: Tree, u: Tree, path: string, watcher: Watcher): seq<Sys> {
    var reading := DataRead(path, watcher);
    [Sys(t, {}, {}, map[]),
     Sys(t, {}, {}, map[1 := reading]),
     Sys(u, {}, {}, map[1 := reading, 2 := Triggering([Firing(OnData, path)])]),
     Sys(u, {}, {}, map[1 := reading, 2 := Idle]),
     Sys(u, {(path, watcher)}, {}, map[1 := Idle, 2 := Idle])]
  }

  function MissSteps(write: Write, path: string, watcher: Watcher): seq<Step> {
    [ReadData(1, path, watcher), Modify(2, write), Fire(2), RegisterData(1)]
  }

  lemma {:induction false} ReaderMisses(t: Tree, u: Tree, write: Write, path: string, watcher: Watcher)
    requires ParsePath(path).Parts? && path in t.nodes
    ensures var states, steps := MissStates(t, u, path, watcher), MissSteps(write, path, watcher);
            IsStep(states, steps, 0) && IsStep(states, steps, 3)
  {
    StepsOfReader(t, u, path, watcher);
  }

  lemma {:induction false} WriterModifies(t: Tree, write: Write, path: string, watcher: Watcher)
    requires FiringsOf(t, write) == [Firing(OnData, path)]
    ensures IsStep(MissStates(t, Written(t, write), path, watcher), MissSteps(write, path, watcher), 1)
  {
    var tasks := map[1 := DataRead(path, watcher)];
    var states, steps := MissStates(t, Written(t, write), path, watcher), MissSteps(write, path, watcher);
    StepOfModify(t, write, tasks, Firing(OnData, path));
    assert states[1] == Sys(t, {}, {}, tasks) && steps[1] == Modify(2, write);
    assert states[2] == Sys(Written(t, write), {}, {}, tasks[2 := Triggering([Firing(OnData, path)])]);
  }

  lemma {:induction false} WriterFires(t: Tree, u: Tree, write: Write, path: string, watcher: Watcher)
    ensures IsStep(MissStates(t, u, path, watcher), MissSteps(write, path, watcher), 2)
  {
    StepOfFire(u, map[1 := DataRead(path, watcher)], Firing(OnData, path));
  }

  lemma {:induction false} FourSteps(states: seq<Sys>, steps: seq<Step>)
    requires |states| == 5 && |steps| == 4
    requires IsStep(states, steps, 0) && IsStep(states, steps, 1)
    requires IsStep(states, steps, 2) && IsStep(states, steps, 3)
    ensures IsRun(states, steps)
  {
    forall k | 0 <= k < 4
      ensures IsStep(states, steps, k)
    {
      if k == 0 {
      } else if k == 1 {
      } else if k == 2 {
      } else {
        assert k == 3;
      }
    }
  }

  /** No watcher is registered before the last step, and the last step tells nobody. */
  lemma {:induction false} NobodyTold(states: seq<Sys>, steps: seq<Step>, path: string, watcher: Watcher)
    requires IsRun(states, steps) && |steps| == 4 && !steps[3].Fire?
    requires states[0].data == states[1].data == states[2].data == {}
    ensures !DeliveredIn(states, steps, 0, 4, OnData, path, watcher)
  {
  }

  lemma {:induction false} AnnouncedIsWritten(t: Tree, request: SetDataRequest, txn: Transaction)
    requires SetDataCode(t, request) == Ok
    ensures DataChanged(t, SetData(t, request, txn).tree, request.path)
  {
    assert SetData(t, request, txn).tree.nodes[request.path].stat.version == t.nodes[request.path].stat.version + 1;
  }

  /** Thread 1 reads before, and registers after, what another thread does. */
  lemma {:induction false} StepsOfReader(t: Tree, u: Tree, path: string, watcher: Watcher)
    requires ParsePath(path).Parts? && path in t.nodes
    ensures var start, reading := Sys(t, {}, {}, map[]), DataRead(path, watcher);
            && Enabled(start, ReadData(1, path, watcher))
            && After(start, ReadData(1, path, watcher)) == Sys(t, {}, {}, map[1 := reading])
    ensures var late := Sys(u, {}, {}, map[1 := DataRead(path, watcher), 2 := Idle]);
            && Enabled(late, RegisterData(1))
            && After(late, RegisterData(1)) == Sys(u, {(path, watcher)}, {}, map[1 := Idle, 2 := Idle])
  {
  }

  /** Thread 2 writes. */
  lemma {:induction false} StepOfModify(t: Tree, write: Write, tasks: map<nat, Task>, f: Firing)
    requires 2 !in tasks && FiringsOf(t, write) == [f]
    ensures Enabled(Sys(t, {}, {}, tasks), Modify(2, write))
    ensures After(Sys(t, {}, {}, tasks), Modify(2, write)) ==
            Sys(Written(t, write), {}, {}, tasks[2 := Triggering([f])])
  {
  }

  /** Thread 2 makes its only trigger. */
  lemma {:induction false} StepOfFire(u: Tree, tasks: map<nat, Task>, f: Firing)
    ensures var owing := Sys(u, {}, {}, tasks[2 := Triggering([f])]);
            Enabled(owing, Fire(2)) && After(owing, Fire(2)) == Sys(u, {}, {}, tasks[2 := Idle])
  {
    assert tasks[2 := Triggering([f])][2 := Idle] == tasks[2 := Idle];
    assert forall path :: WithoutPath({}, path) == {};
  }
}
