/** What the counters in a node's stat count, over every run of the master. */
module NodeHistory {
  import opened Proto
  import opened Paths
  import opened TreeModel
  import opened TreeInvariant
  import opened KillSession
  import opened ReplicatedLog
  import opened MasterRun

  /** The event is a SetData on p that succeeds. */
  predicate Writes(db: Db, event: Event, p: string) {
    && event.Exec? && event.entry.command.WriteNode?
    && event.entry.command.write.path == p
    && SetDataCode(db.tree, event.entry.command.write) == Ok
  }

  // -------- One node across one event --------

  function Moved(a: set<string>, b: set<string>): nat {
    |b - a| + |a - b|
  }

  /** A node that is there before and after an event: its kind stays, its version counts the write and its
      children_version counts every child that came or went. */
  ghost predicate Evolves(db: Db, event: Event, p: string)
    requires p in db.tree.nodes && p in MasterStep(db, event).tree.nodes
  {
    var t, u := db.tree, MasterStep(db, event).tree;
    var a, b := t.nodes[p], u.nodes[p];
    && b.nodeType == a.nodeType
    && b.stat.createdId == a.stat.createdId
    && b.stat.version == a.stat.version + (if Writes(db, event, p) then 1 else 0)
    && b.stat.childrenVersion == a.stat.childrenVersion + Moved(Kids(t, p), Kids(u, p))
    && (Sized(t, p) ==> Sized(u, p))
  }

  /** The two sizes in the stat are right. */
  ghost predicate Sized(t: Tree, p: string)
    requires p in t.nodes
  {
    && t.nodes[p].stat.childrenNum == U32(|Kids(t, p)|)
    && t.nodes[p].stat.dataLen == U32(|t.nodes[p].data|)
  }

  ghost predicate Grows(t: Tree, u: Tree, p: string) {
    p in t.nodes && p in u.nodes ==>
      && u.nodes[p].nodeType == t.nodes[p].nodeType
      && u.nodes[p].stat.createdId == t.nodes[p].stat.createdId
      && u.nodes[p].stat.version == t.nodes[p].stat.version
      && u.nodes[p].stat.childrenVersion == t.nodes[p].stat.childrenVersion + Moved(Kids(t, p), Kids(u, p))
      && (Sized(t, p) ==> Sized(u, p))
  }

  lemma {:induction false} MovedNothing(a: set<string>)
    ensures Moved(a, a) == 0
  {
    assert a - a == {};
  }

  lemma {:induction false} MovedOne(a: set<string>, c: string)
    ensures c !in a ==> Moved(a, a + {c}) == 1
    ensures c in a ==> Moved(a, a - {c}) == 1
  {
    if c !in a {
      assert (a + {c}) - a == {c} && a - (a + {c}) == {};
    } else {
      assert (a - {c}) - a == {} && a - (a - {c}) == {c};
    }
  }

  lemma {:induction false} CreateGrows(t: Tree, request: CreateRequest, txn: Transaction, p: string)
    requires Inv(t)
    ensures Grows(t, Create(t, request, txn).tree, p)
  {
    MovedNothing(Kids(t, p));
    if CreateCode(t, request, false) == Ok {
      var Parts(parent, child) := ParsePath(request.path);
      NameUnderIsName(t.nodes[parent], child);
      LinkGrows(t, parent, NameUnder(t.nodes[parent], child), request, txn, p);
    }
  }

  lemma {:induction false} LinkGrows(t: Tree, parent: string, name: string, request: CreateRequest, txn: Transaction,
                                     p: string)
    requires Linked(t) && parent in t.nodes && IsName(name) && name !in Kids(t, parent)
    ensures Grows(t, Link(t, parent, name, request, txn), p)
  {
    UnlistedIsAbsent(t, parent, name);
    MovedNothing(Kids(t, p));
    MovedOne(Kids(t, parent), name);
  }

  lemma {:induction false} DeleteGrows(t: Tree, request: DeleteRequest, id: nat, p: string)
    requires Inv(t)
    ensures Grows(t, Delete(t, request, id).tree, p)
  {
    MovedNothing(Kids(t, p));
    DeleteFindsParent(t, request);
    if DeleteCode(t, request, false) == Ok {
      assert HasParent(t, request.path);
      var Parts(parent, child) := ParsePath(request.path);
      UnlinkKids(t, request.path, parent, child, id, p);
      MovedOne(Kids(t, parent), child);
    }
  }

  lemma {:induction false} KillGrows(t: Tree, s: nat, id: nat, p: string)
    requires Inv(t)
    ensures Grows(t, Kill(t, s, id), p)
    ensures Kids(Kill(t, s, id), p) <= Kids(t, p)
  {
    var gone := OwnedBy(t, s);
    PurgeKids(Disown(t, s), gone, id, p);
    MovedSome(Kids(t, p), Lost(Disown(t, s), p, gone));
  }

  lemma {:induction false} MovedSome(a: set<string>, lost: set<string>)
    requires lost <= a
    ensures Moved(a, a - lost) == |lost|
  {
    assert (a - lost) - a == {} && a - (a - lost) == lost;
  }

  lemma {:induction false} CloseGrows(db: Db, closings: seq<Closing>, id: nat, p: string)
    requires Inv(db.tree)
    ensures Grows(db.tree, CloseEach(db, closings, id).tree, p)
    ensures Kids(CloseEach(db, closings, id).tree, p) <= Kids(db.tree, p)
    ensures p in CloseEach(db, closings, id).tree.nodes ==> p in db.tree.nodes
  {
    if closings == [] {
      MovedNothing(Kids(db.tree, p));
    } else {
      var n := |closings| - 1;
      var mid := CloseEach(db, closings[..n], id);
      CloseGrows(db, closings[..n], id, p);
      CloseInv(db, closings[..n], id);
      KillGrows(mid.tree, closings[n].sessionId, id, p);
      MovedTwice(Kids(db.tree, p), Kids(mid.tree, p), Kids(Kill(mid.tree, closings[n].sessionId, id), p));
    }
  }

  lemma {:induction false} MovedTwice(a: set<string>, b: set<string>, c: set<string>)
    requires c <= b <= a
    ensures Moved(a, c) == Moved(a, b) + Moved(b, c)
  {
    assert b - a == {} && c - b == {} && c - a == {};
    assert a - c == (a - b) + (b - c);
  }

  lemma {:induction false} WriteEvolves(db: Db, e: Entry, p: string)
    requires e.command.WriteNode? && p in db.tree.nodes && p in Execute(db, e).db.tree.nodes
    ensures Evolves(db, Exec(e), p)
  {
    MovedNothing(Kids(db.tree, p));
    SetDataEvolves(db.tree, e.command.write, TxnOf(db, e), p);
  }

  lemma {:induction false} SetDataEvolves(t: Tree, request: SetDataRequest, txn: Transaction, p: string)
    requires p in t.nodes
    ensures var u := SetData(t, request, txn).tree;
            && p in u.nodes && Kids(u, p) == Kids(t, p)
            && u.nodes[p] ==
               if SetDataCode(t, request) == Ok && request.path == p then Rewritten(t.nodes[p], request.data, txn)
               else t.nodes[p]
  {
  }

  /** Any command but a write: it is enough that the tree grows in this sense. */
  lemma {:induction false} GrowthEvolves(db: Db, e: Entry, p: string)
    requires !e.command.WriteNode? && p in db.tree.nodes && p in Execute(db, e).db.tree.nodes
    requires Grows(db.tree, Execute(db, e).db.tree, p)
    ensures Evolves(db, Exec(e), p)
  {
  }

  lemma {:induction false} CreateEntryGrows(db: Db, e: Entry, p: string)
    requires Inv(db.tree) && e.command.CreateNode?
    ensures Grows(db.tree, Execute(db, e).db.tree, p)
  {
    CreateGrows(db.tree, e.command.create, TxnOf(db, e), p);
  }

  lemma {:induction false} DeleteEntryGrows(db: Db, e: Entry, p: string)
    requires Inv(db.tree) && e.command.DeleteNode?
    ensures Grows(db.tree, Execute(db, e).db.tree, p)
  {
    DeleteGrows(db.tree, e.command.delete, e.instanceId, p);
  }

  lemma {:induction false} CloseEntryGrows(db: Db, e: Entry, p: string)
    requires Inv(db.tree) && e.command.CloseSessions?
    ensures Grows(db.tree, Execute(db, e).db.tree, p)
  {
    CloseGrows(db, e.command.closings, e.instanceId, p);
  }

  lemma {:induction false} QuietEntryGrows(db: Db, e: Entry, p: string)
    requires e.command.Connect? || e.command.InvalidCommand?
    ensures Grows(db.tree, Execute(db, e).db.tree, p)
  {
    MovedNothing(Kids(db.tree, p));
  }

  lemma {:induction false} EntryGrows(db: Db, e: Entry, p: string)
    requires Inv(db.tree) && !e.command.WriteNode?
    ensures Grows(db.tree, Execute(db, e).db.tree, p)
  {
    match e.command
    case CreateNode(_) => CreateEntryGrows(db, e, p);
    case DeleteNode(_) => DeleteEntryGrows(db, e, p);
    case CloseSessions(_) => CloseEntryGrows(db, e, p);
    case _ => QuietEntryGrows(db, e, p);
  }

  lemma {:induction false} EntryEvolves(db: Db, e: Entry, p: string)
    requires Inv(db.tree) && p in db.tree.nodes && p in Execute(db, e).db.tree.nodes
    ensures Evolves(db, Exec(e), p)
  {
    if e.command.WriteNode? {
      WriteEvolves(db, e, p);
    } else {
      EntryGrows(db, e, p);
      GrowthEvolves(db, e, p);
    }
  }

  lemma {:induction false} EventEvolves(db: Db, event: Event, p: string)
    requires Inv(db.tree) && p in db.tree.nodes && p in MasterStep(db, event).tree.nodes
    ensures Evolves(db, event, p)
  {
    if event.Exec? {
      EntryEvolves(db, event.entry, p);
    } else {
      TryEvolves(db, event, p);
    }
  }

  lemma {:induction false} TryEvolves(db: Db, event: Event, p: string)
    requires !event.Exec? && p in db.tree.nodes && p in MasterStep(db, event).tree.nodes
    ensures Evolves(db, event, p)
  {
    MovedNothing(Kids(db.tree, p));
    TryKeeps(db, event, p);
  }

  lemma {:induction false} TouchKeeps(t: Tree, q: string, p: string)
    requires q !in t.childrens
    ensures Kids(t.(childrens := t.childrens[q := {}]), p) == Kids(t, p)
  {
  }

  /** A check leaves the tree alone, or gives a node without an entry an empty one. */
  ghost predicate Touched(t: Tree, u: Tree, q: string) {
    u == t || (q !in t.childrens && u == t.(childrens := t.childrens[q := {}]))
  }

  lemma {:induction false} CheckTouches(t: Tree, request: CreateRequest)
    ensures ParsePath(request.path).BadPath? ==> CheckCreate(t, request).tree == t
    ensures ParsePath(request.path).Parts? ==> Touched(t, CheckCreate(t, request).tree, ParsePath(request.path).parent)
  {
  }

  lemma {:induction false} CheckKeeps(t: Tree, u: Tree, q: string, p: string)
    requires Touched(t, u, q)
    ensures u.nodes == t.nodes && Kids(u, p) == Kids(t, p)
  {
    if u != t {
      TouchKeeps(t, q, p);
    }
  }

  /** A check leaves all nodes and all child sets alone, up to an entry that is empty. */
  lemma {:induction false} TryKeeps(db: Db, event: Event, p: string)
    requires !event.Exec?
    ensures MasterStep(db, event).tree.nodes == db.tree.nodes && Kids(MasterStep(db, event).tree, p) == Kids(db.tree, p)
  {
    if event.TryCreate? {
      CheckTouches(db.tree, event.create);
      var r := ParsePath(event.create.path);
      if r.Parts? {
        CheckKeeps(db.tree, MasterStep(db, event).tree, r.parent, p);
      }
    }
  }

  /** A node that an event brings into being starts with all counters at zero and no children. */
  ghost predicate Newborn(u: Tree, p: string)
    requires p in u.nodes
  {
    u.nodes[p].stat.version == 0 && u.nodes[p].stat.childrenVersion == 0 && Kids(u, p) == {} && Sized(u, p)
  }

  lemma {:induction false} CreateBears(t: Tree, request: CreateRequest, txn: Transaction, p: string)
    requires Inv(t) && p !in t.nodes && p in Create(t, request, txn).tree.nodes
    ensures Newborn(Create(t, request, txn).tree, p)
  {
    var Parts(parent, child) := ParsePath(request.path);
    assert p == Join(parent, NameUnder(t.nodes[parent], child));
    assert Kids(t, p) == {};
  }

  lemma {:induction false} EventBears(db: Db, event: Event, p: string)
    requires Inv(db.tree) && p !in db.tree.nodes && p in MasterStep(db, event).tree.nodes
    ensures Newborn(MasterStep(db, event).tree, p)
  {
    OnlyCreateBears(db, event, p);
    CreateBears(db.tree, event.entry.command.create, TxnOf(db, event.entry), p);
  }

  lemma {:induction false} OnlyCreateBears(db: Db, event: Event, p: string)
    requires p !in db.tree.nodes && p in MasterStep(db, event).tree.nodes
    ensures event.Exec? && event.entry.command.CreateNode?
  {
    if event.Exec? {
      var e := event.entry;
      match e.command
      case CloseSessions(closings) => CloseBearsNothing(db, closings, e.instanceId, p);
      case DeleteNode(request) => DeleteBearsNothing(db.tree, request, e.instanceId, p);
      case WriteNode(request) => WriteBearsNothing(db.tree, request, TxnOf(db, e), p);
      case _ =>
    }
  }

  lemma {:induction false} CloseBearsNothing(db: Db, closings: seq<Closing>, id: nat, p: string)
    ensures p in CloseEach(db, closings, id).tree.nodes ==> p in db.tree.nodes
  {
    if closings != [] {
      CloseBearsNothing(db, closings[..|closings| - 1], id, p);
    }
  }

  lemma {:induction false} DeleteBearsNothing(t: Tree, request: DeleteRequest, id: nat, p: string)
    ensures p in Delete(t, request, id).tree.nodes ==> p in t.nodes
  {
  }

  lemma {:induction false} WriteBearsNothing(t: Tree, request: SetDataRequest, txn: Transaction, p: string)
    ensures p in SetData(t, request, txn).tree.nodes ==> p in t.nodes
  {
  }

  // -------- Over a whole run --------

  predicate IsChildOf(p: string, q: string) {
    ParsePath(p).Parts? && ParsePath(p).parent == q
  }

  /** The children of q, read off the nodes rather than off the index. */
  function ChildPaths(t: Tree, q: string): set<string> {
    set p | p in t.nodes && IsChildOf(p, q)
  }

  function Under(q: string, names: set<string>): set<string> {
    set c | c in names :: Join(q, c)
  }

  lemma {:induction false} UnderSize(q: string, names: set<string>)
    requires forall c :: c in names ==> IsName(c)
    ensures |Under(q, names)| == |names|
    decreases |names|
  {
    if names != {} {
      var c :| c in names;
      UnderSize(q, names - {c});
      assert names == (names - {c}) + {c};
      assert Under(q, names) == Under(q, names - {c}) + {Join(q, c)};
      ParseJoin();
      assert Join(q, c) !in Under(q, names - {c});
    }
  }

  lemma {:induction false} ChildPathsAreKids(t: Tree, q: string)
    requires Inv(t)
    ensures ChildPaths(t, q) == Under(q, Kids(t, q))
    ensures forall c :: c in Kids(t, q) ==> IsName(c)
  {
    forall p | p in t.nodes && IsChildOf(p, q)
      ensures p in Under(q, Kids(t, q))
    {
      assert p != "" && HasParent(t, p);
    }
    forall c | c in Kids(t, q)
      ensures IsName(c) && Join(q, c) in t.nodes && IsChildOf(Join(q, c), q)
    {
      assert ListsNode(t, q, c);
      ParseExact(Join(q, c), q, c);
    }
  }

  lemma {:induction false} ChildPathsDiffer(t: Tree, u: Tree, q: string)
    requires Inv(t) && Inv(u)
    ensures |ChildPaths(u, q) - ChildPaths(t, q)| == |Kids(u, q) - Kids(t, q)|
  {
    ChildPathsAreKids(t, q);
    ChildPathsAreKids(u, q);
    ParseJoin();
    assert Under(q, Kids(u, q)) - Under(q, Kids(t, q)) == Under(q, Kids(u, q) - Kids(t, q));
    UnderSize(q, Kids(u, q) - Kids(t, q));
  }

  datatype Tally = Tally(writes: nat, arrived: nat, departed: nat)

  /** The tally of p after one more event: it starts over when p is created. */
  function Next(db: Db, event: Event, p: string, h: Tally): Tally {
    var t, u := db.tree, MasterStep(db, event).tree;
    if p !in t.nodes || p !in u.nodes then Tally(0, 0, 0)
    else
      Tally(h.writes + (if Writes(db, event, p) then 1 else 0),
            h.arrived + |ChildPaths(u, p) - ChildPaths(t, p)|,
            h.departed + |ChildPaths(t, p) - ChildPaths(u, p)|)
  }

  /** Counted from the events alone: the successful writes of p, and the children of p that came and went,
      since p was last created. */
  function History(db: Db, events: seq<Event>, p: string): Tally {
    if events == [] then Tally(0, 0, 0)
    else
      var n := |events| - 1;
      Next(Master(db, events[..n]), events[n], p, History(db, events[..n], p))
  }

  /** The counters of a node agree with the history of its current incarnation. */
  ghost predicate Agrees(t: Tree, p: string, h: Tally)
    requires p in t.nodes
  {
    && t.nodes[p].stat.version == h.writes
    && t.nodes[p].stat.childrenVersion == h.arrived + h.departed
    && |ChildPaths(t, p)| == h.arrived - h.departed
    && t.nodes[p].stat.childrenNum == U32(|ChildPaths(t, p)|)
    && t.nodes[p].stat.dataLen == U32(|t.nodes[p].data|)
  }

  lemma {:induction false} SizesAgree(a: set<string>, b: set<string>)
    ensures |b| == |a| + |b - a| - |a - b|
  {
    assert a == (a * b) + (a - b) && b == (a * b) + (b - a);
  }

  lemma {:induction false} KidsCounted(t: Tree, p: string)
    requires Inv(t)
    ensures |ChildPaths(t, p)| == |Kids(t, p)|
  {
    ChildPathsAreKids(t, p);
    UnderSize(p, Kids(t, p));
  }

  lemma {:induction false} AgreesBorn(db: Db, event: Event, p: string)
    requires Inv(db.tree) && Inv(MasterStep(db, event).tree)
    requires p !in db.tree.nodes && p in MasterStep(db, event).tree.nodes
    ensures Agrees(MasterStep(db, event).tree, p, Tally(0, 0, 0))
  {
    EventBears(db, event, p);
    KidsCounted(MasterStep(db, event).tree, p);
  }

  lemma {:induction false} ChildrenMoved(t: Tree, u: Tree, p: string)
    requires Inv(t) && Inv(u)
    ensures Moved(Kids(t, p), Kids(u, p)) ==
              |ChildPaths(u, p) - ChildPaths(t, p)| + |ChildPaths(t, p) - ChildPaths(u, p)|
    ensures |ChildPaths(u, p)| ==
            |ChildPaths(t, p)| + |ChildPaths(u, p) - ChildPaths(t, p)| - |ChildPaths(t, p) - ChildPaths(u, p)|
  {
    ChildPathsDiffer(t, u, p);
    ChildPathsDiffer(u, t, p);
    SizesAgree(ChildPaths(t, p), ChildPaths(u, p));
  }

  lemma {:induction false} AgreesNext(db: Db, event: Event, p: string, h: Tally)
    requires Inv(db.tree) && Inv(MasterStep(db, event).tree)
    requires p in db.tree.nodes && p in MasterStep(db, event).tree.nodes && Agrees(db.tree, p, h)
    ensures Agrees(MasterStep(db, event).tree, p, Next(db, event, p, h))
  {
    EventEvolves(db, event, p);
    ChildrenMoved(db.tree, MasterStep(db, event).tree, p);
    KidsCounted(db.tree, p);
    KidsCounted(MasterStep(db, event).tree, p);
  }

  /** In every run, of every node present: version is the number of successful writes since its creation,
      children_version the number of children that came or went, children_num the number that came less
      the number that went, and data_len the length of its data. */
  lemma {:induction false} CountersCount(group: nat, events: seq<Event>, p: string)
    requires OwnedEvents(events) && p in Master(InitialDb(group), events).tree.nodes
    ensures Agrees(Master(InitialDb(group), events).tree, p, History(InitialDb(group), events, p))
  {
    var db := InitialDb(group);
    FreshInv();
    if events == [] {
      KidsCounted(Fresh, p);
    } else {
      var n := |events| - 1;
      MasterInv(db, events[..n]);
      MasterInv(db, events);
      if p in Master(db, events[..n]).tree.nodes {
        CountersCount(group, events[..n], p);
        AgreesNext(Master(db, events[..n]), events[n], p, History(db, events[..n], p));
      } else {
        AgreesBorn(Master(db, events[..n]), events[n], p);
      }
    }
  }

  // -------- Versions as tickets --------

  /** The node at p is never absent from event i to event j: one incarnation. */
  ghost predicate Lives(group: nat, events: seq<Event>, p: string, i: nat, j: nat)
    requires i <= j <= |events|
  {
    forall k :: i <= k <= j ==> p in MasterAt(group, events, k).tree.nodes
  }

  /** Within one incarnation a node keeps its type, and its two version counters never go back. */
  lemma {:induction false} CountersGrow(group: nat, events: seq<Event>, p: string, i: nat, j: nat)
    requires OwnedEvents(events) && i <= j <= |events| && Lives(group, events, p, i, j)
    ensures var a, b := MasterAt(group, events, i).tree.nodes[p], MasterAt(group, events, j).tree.nodes[p];
            && a.nodeType == b.nodeType
            && a.stat.version <= b.stat.version
            && a.stat.childrenVersion <= b.stat.childrenVersion
    decreases j
  {
    if i < j {
      CountersGrow(group, events, p, i, j - 1);
      MasterAtInv(group, events, j - 1);
      MasterAtStep(group, events, j - 1);
      EventEvolves(MasterAt(group, events, j - 1), events[j - 1], p);
    }
  }

  /** Of the writes that name the same explicit version, at most one succeeds per incarnation. */
  lemma {:induction false} VersionIsTicket(group: nat, events: seq<Event>, p: string, i: nat, j: nat)
    requires OwnedEvents(events) && i < j < |events| && Lives(group, events, p, i, j)
    requires Writes(MasterAt(group, events, i), events[i], p)
    requires Writes(MasterAt(group, events, j), events[j], p)
    requires events[i].entry.command.write.version != -1
    ensures events[i].entry.command.write.version != events[j].entry.command.write.version
  {
    MasterAtInv(group, events, i);
    MasterAtStep(group, events, i);
    EventEvolves(MasterAt(group, events, i), events[i], p);
    CountersGrow(group, events, p, i + 1, j);
  }
}
