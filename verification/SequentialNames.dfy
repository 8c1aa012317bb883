/** Names generated under a persistent-sequential node: fresh, never reissued, sorted by creation; and what
    the check-only form of Create makes of such a parent. */
module SequentialNames {
  import opened Proto
  import opened Paths
  import opened TreeModel
  import opened TreeInvariant
  import opened ReplicatedLog
  import opened MasterRun
  import opened NodeHistory

  function SuffixOf(name: string): string
    requires |name| >= SUFFIX_WIDTH
  {
    name[|name| - SUFFIX_WIDTH..]
  }

  /** The name ends in the suffix of a counter value up to `bound`. */
  ghost predicate Issued(name: string, bound: nat) {
    |name| > SUFFIX_WIDTH && exists k: nat :: 1 <= k <= bound && SuffixOf(name) == Suffix(k)
  }

  ghost predicate IssuedChild(t: Tree, q: string, c: string) {
    q in t.nodes && t.nodes[q].nodeType.PersistentSequential? && c in Kids(t, q) ==>
      Issued(c, t.nodes[q].stat.childrenVersion)
  }

  /** Under a sequential node every child carries a suffix that was issued. */
  ghost predicate Numbered(t: Tree) {
    forall q, c {:trigger IssuedChild(t, q, c)} :: IssuedChild(t, q, c)
  }

  /** The event is a Create under q that succeeds. */
  predicate CreatesUnder(db: Db, event: Event, q: string) {
    && event.Exec? && event.entry.command.CreateNode?
    && CreateCode(db.tree, event.entry.command.create, false) == Ok
    && ParsePath(event.entry.command.create.path).parent == q
  }

  /** The name that such a Create generates. */
  function NameIssued(db: Db, event: Event): string
    requires event.Exec? && event.entry.command.CreateNode?
    requires CreateCode(db.tree, event.entry.command.create, false) == Ok
  {
    var Parts(parent, child) := ParsePath(event.entry.command.create.path);
    NameUnder(db.tree.nodes[parent], child)
  }

  lemma {:induction false} DeleteAddsNoChild(t: Tree, request: DeleteRequest, id: nat, q: string)
    requires Linked(t)
    ensures Kids(Delete(t, request, id).tree, q) <= Kids(t, q)
  {
    DeleteFindsParent(t, request);
    if DeleteCode(t, request, false) == Ok {
      assert HasParent(t, request.path);
      var Parts(parent, child) := ParsePath(request.path);
      UnlinkKids(t, request.path, parent, child, id, q);
    }
  }

  lemma {:induction false} CreateAddsOneChild(t: Tree, request: CreateRequest, txn: Transaction, q: string, c: string)
    requires c in Kids(Create(t, request, txn).tree, q) && c !in Kids(t, q)
    ensures CreateCode(t, request, false) == Ok
    ensures var Parts(parent, child) := ParsePath(request.path); q == parent && c == NameUnder(t.nodes[parent], child)
  {
  }

  /** No other command adds a child, and neither does a check. */
  lemma {:induction false} OnlyCreateAdds(db: Db, event: Event, q: string)
    requires Inv(db.tree) && !(event.Exec? && event.entry.command.CreateNode?)
    ensures Kids(MasterStep(db, event).tree, q) <= Kids(db.tree, q)
  {
    if event.Exec? {
      var e := event.entry;
      match e.command
      case CloseSessions(closings) => CloseGrows(db, closings, e.instanceId, q);
      case DeleteNode(request) => DeleteAddsNoChild(db.tree, request, e.instanceId, q);
      case _ =>
    } else {
      TryKeeps(db, event, q);
    }
  }

  /** A child that was not there before is the one a Create under that parent just named. */
  lemma {:induction false} NewChild(db: Db, event: Event, q: string, c: string)
    requires Inv(db.tree)
    requires c in Kids(MasterStep(db, event).tree, q) && c !in Kids(db.tree, q)
    ensures CreatesUnder(db, event, q) && c == NameIssued(db, event)
  {
    if event.Exec? && event.entry.command.CreateNode? {
      CreateAddsOneChild(db.tree, event.entry.command.create, TxnOf(db, event.entry), q, c);
    } else {
      OnlyCreateAdds(db, event, q);
    }
  }

  lemma {:induction false} NameCarries(parent: DataNode, child: string)
    requires parent.nodeType.IsSequential() && IsName(child)
    ensures var name := NameUnder(parent, child);
            |name| > SUFFIX_WIDTH && SuffixOf(name) == Suffix(parent.stat.childrenVersion + 1)
  {
    var k := parent.stat.childrenVersion + 1;
    assert (child + Suffix(k))[|child|..] == Suffix(k);
  }

  lemma {:induction false} NameIsIssued(parent: DataNode, child: string)
    requires parent.nodeType.IsSequential() && IsName(child)
    ensures var name := NameUnder(parent, child);
            && |name| > SUFFIX_WIDTH
            && SuffixOf(name) == Suffix(parent.stat.childrenVersion + 1)
            && Issued(name, parent.stat.childrenVersion + 1)
  {
    NameCarries(parent, child);
  }

  lemma {:induction false} EventNumbered(db: Db, event: Event)
    requires Inv(db.tree) && Numbered(db.tree)
    ensures Numbered(MasterStep(db, event).tree)
  {
    var t, u := db.tree, MasterStep(db, event).tree;
    forall q, c
      ensures IssuedChild(u, q, c)
    {
      if q in u.nodes && u.nodes[q].nodeType.PersistentSequential? && c in Kids(u, q) {
        ChildIssued(db, event, q, c);
      }
    }
  }

  lemma {:induction false} ChildIssued(db: Db, event: Event, q: string, c: string)
    requires Inv(db.tree) && Numbered(db.tree)
    requires var u := MasterStep(db, event).tree;
             q in u.nodes && u.nodes[q].nodeType.PersistentSequential? && c in Kids(u, q)
    ensures Issued(c, MasterStep(db, event).tree.nodes[q].stat.childrenVersion)
  {
    var t, u := db.tree, MasterStep(db, event).tree;
    if q !in t.nodes {
      EventBears(db, event, q);
    } else {
      EventEvolves(db, event, q);
      if c in Kids(t, q) {
        assert IssuedChild(t, q, c);
      } else {
        NewChild(db, event, q, c);
        NameIsIssued(t.nodes[q], ParsePath(event.entry.command.create.path).child);
        assert c in Kids(u, q) - Kids(t, q);
      }
    }
  }

  lemma {:induction false} RunNumbered(group: nat, events: seq<Event>)
    requires OwnedEvents(events)
    ensures Numbered(Master(InitialDb(group), events).tree)
  {
    FreshInv();
    if events != [] {
      RunNumbered(group, events[..|events| - 1]);
      MasterInv(InitialDb(group), events[..|events| - 1]);
      EventNumbered(Master(InitialDb(group), events[..|events| - 1]), events[|events| - 1]);
    }
  }

  /** A well-formed Create under a present persistent-sequential node succeeds: RC_NODE_EXISTS is impossible. */
  lemma {:induction false} SequentialCreateSucceeds(t: Tree, request: CreateRequest)
    requires Inv(t) && Numbered(t)
    requires var r := ParsePath(request.path);
             && r.Parts? && r.parent in t.nodes
             && t.nodes[r.parent].nodeType.PersistentSequential?
             && t.nodes[r.parent].stat.childrenVersion < INT32_MAX
    ensures CreateCode(t, request, false) == Ok
  {
    var Parts(parent, child) := ParsePath(request.path);
    var next := t.nodes[parent].stat.childrenVersion + 1;
    var name := NameUnder(t.nodes[parent], child);
    NameIsIssued(t.nodes[parent], child);
    assert IssuedChild(t, parent, name);
    forall k: nat | k < next
      ensures Suffix(k) != Suffix(next)
    {
      SuffixOrder(k, next);
    }
  }

  /** Under one incarnation of a sequential parent, names issued later sort later, so none is issued twice,
      whatever was deleted in between. */
  lemma {:induction false} NamesAreOrdered(group: nat, events: seq<Event>, q: string, i: nat, j: nat)
    requires OwnedEvents(events) && i < j < |events| && Lives(group, events, q, i, j)
    requires MasterAt(group, events, i).tree.nodes[q].nodeType.PersistentSequential?
    requires MasterAt(group, events, j).tree.nodes[q].stat.childrenVersion < INT32_MAX
    requires CreatesUnder(MasterAt(group, events, i), events[i], q)
    requires CreatesUnder(MasterAt(group, events, j), events[j], q)
    ensures var a := NameIssued(MasterAt(group, events, i), events[i]);
            var b := NameIssued(MasterAt(group, events, j), events[j]);
            SortsBefore(q, a, b)
  {
    CounterRises(group, events, q, i, j);
    var x := ParsePath(events[i].entry.command.create.path).child;
    var y := ParsePath(events[j].entry.command.create.path).child;
    NamesCompare(q, MasterAt(group, events, i).tree.nodes[q], x, MasterAt(group, events, j).tree.nodes[q], y);
  }

  /** Two names under q carry suffixes of which the first sorts before the second, so names and paths differ. */
  ghost predicate SortsBefore(q: string, a: string, b: string) {
    && |a| > SUFFIX_WIDTH && |b| > SUFFIX_WIDTH
    && LexLess(SuffixOf(a), SuffixOf(b))
    && a != b && Join(q, a) != Join(q, b)
  }

  lemma {:induction false} NamesCompare(q: string, before: DataNode, x: string, later: DataNode, y: string)
    requires before.nodeType.PersistentSequential? && later.nodeType.PersistentSequential? && IsName(x) && IsName(y)
    requires before.stat.childrenVersion < later.stat.childrenVersion < INT32_MAX
    ensures SortsBefore(q, NameUnder(before, x), NameUnder(later, y))
  {
    var a, b := NameUnder(before, x), NameUnder(later, y);
    var j, k := before.stat.childrenVersion + 1, later.stat.childrenVersion + 1;
    NameCarries(before, x);
    NameCarries(later, y);
    SuffixesCompare(q, a, j, b, k);
  }

  lemma {:induction false} SuffixesCompare(q: string, a: string, j: nat, b: string, k: nat)
    requires |a| > SUFFIX_WIDTH && |b| > SUFFIX_WIDTH && SuffixOf(a) == Suffix(j) && SuffixOf(b) == Suffix(k)
    requires j < k <= INT32_MAX
    ensures SortsBefore(q, a, b)
  {
    SuffixOrder(j, k);
    JoinInjective(q, a, b);
  }

  lemma {:induction false} JoinInjective(q: string, a: string, b: string)
    requires a != b
    ensures Join(q, a) != Join(q, b)
  {
    assert Join(q, a)[|q| + 1..] == a && Join(q, b)[|q| + 1..] == b;
  }

  lemma {:induction false} CounterRises(group: nat, events: seq<Event>, q: string, i: nat, j: nat)
    requires OwnedEvents(events) && i < j < |events| && Lives(group, events, q, i, j)
    requires CreatesUnder(MasterAt(group, events, i), events[i], q)
    ensures var a, b := MasterAt(group, events, i).tree.nodes[q], MasterAt(group, events, j).tree.nodes[q];
            a.nodeType == b.nodeType && a.stat.childrenVersion < b.stat.childrenVersion
  {
    MasterAtInv(group, events, i);
    MasterAtStep(group, events, i);
    CreateCounts(MasterAt(group, events, i), events[i], q);
    CountersGrow(group, events, q, i, j);
    CountersGrow(group, events, q, i + 1, j);
  }

  lemma {:induction false} CreateCounts(db: Db, event: Event, q: string)
    requires Inv(db.tree) && CreatesUnder(db, event, q)
    ensures q in db.tree.nodes && q in MasterStep(db, event).tree.nodes
    ensures MasterStep(db, event).tree.nodes[q].stat.childrenVersion == db.tree.nodes[q].stat.childrenVersion + 1
  {
    var Parts(parent, child) := ParsePath(event.entry.command.create.path);
    NameUnderIsName(db.tree.nodes[parent], child);
    UnlistedIsAbsent(db.tree, parent, NameUnder(db.tree.nodes[parent], child));
  }

  // -------- The check-only form of Create --------

  /** The check looks for the bare name, which a sequential parent would not use. */
  predicate RefusedInVain(t: Tree, request: CreateRequest) {
    var r := ParsePath(request.path);
    && r.Parts? && r.parent in t.nodes
    && t.nodes[r.parent].nodeType.PersistentSequential?
    && r.child in Kids(t, r.parent)
  }

  /** A check that passes is sound, and its code is that of the real Create except exactly when the bare name
      is taken under a sequential parent: then the check refuses a Create that would succeed. */
  lemma {:induction false} CheckCreateExact(t: Tree, request: CreateRequest)
    requires Inv(t) && Numbered(t)
    requires forall q :: q in t.nodes ==> t.nodes[q].stat.childrenVersion < INT32_MAX
    ensures CreateCode(t, request, true) == Ok ==> CreateCode(t, request, false) == Ok
    ensures CreateCode(t, request, true) != CreateCode(t, request, false) <==> RefusedInVain(t, request)
    ensures RefusedInVain(t, request) ==>
              CreateCode(t, request, true) == NodeExists && CreateCode(t, request, false) == Ok
  {
    var r := ParsePath(request.path);
    if r.Parts? && r.parent in t.nodes && t.nodes[r.parent].nodeType.PersistentSequential? {
      SequentialCreateSucceeds(t, request);
    }
  }

  function MakeParent(p: string): Event {
    Exec(Entry(1, 0, 7, CreateNode(CreateRequest(PersistentSequential, Join("", p), []))))
  }

  function MakeChild(q: string, x: string): Event {
    Exec(Entry(2, 0, 7, CreateNode(CreateRequest(Persistent, Join(q, x), []))))
  }

  lemma {:induction false} AfterMakeParent(group: nat, p: string)
    requires IsName(p)
    ensures var t := MasterStep(InitialDb(group), MakeParent(p)).tree;
            && Join("", p) in t.nodes && t.nodes[Join("", p)].nodeType.PersistentSequential?
            && t.nodes[Join("", p)].stat.childrenVersion == 0 && Kids(t, Join("", p)) == {}
  {
    ParseExact(Join("", p), "", p);
  }

  /** A child created under a sequential node without children is listed with its suffix. */
  lemma {:induction false} FirstChild(t: Tree, q: string, x: string, request: CreateRequest, txn: Transaction, k: nat)
    requires ParsePath(request.path) == Parts(q, x)
    requires q in t.nodes && t.nodes[q].nodeType.PersistentSequential?
    requires t.nodes[q].stat.childrenVersion + 1 == k && Kids(t, q) == {}
    ensures var u := Create(t, request, txn).tree;
            && q in u.nodes && u.nodes[q].nodeType.PersistentSequential? && u.nodes[q].stat.childrenVersion == k
            && x + Suffix(k) in Kids(u, q)
  {
    assert |Join(q, x + Suffix(k))| != |q|;
  }

  lemma {:induction false} AfterMakeChild(db: Db, q: string, x: string)
    requires IsName(x) && q in db.tree.nodes && db.tree.nodes[q].nodeType.PersistentSequential?
    requires db.tree.nodes[q].stat.childrenVersion == 0 && Kids(db.tree, q) == {}
    ensures var t := MasterStep(db, MakeChild(q, x)).tree;
            && q in t.nodes && t.nodes[q].nodeType.PersistentSequential? && t.nodes[q].stat.childrenVersion == 1
            && x + Suffix(1) in Kids(t, q)
  {
    var entry := MakeChild(q, x).entry;
    ParseExact(Join(q, x), q, x);
    FirstChild(db.tree, q, x, entry.command.create, TxnOf(db, entry), 1);
  }

  lemma {:induction false} TakenNameIsRefused(t: Tree, q: string, x: string, k: nat)
    requires Inv(t) && Numbered(t) && q in t.nodes && t.nodes[q].nodeType.PersistentSequential?
    requires t.nodes[q].stat.childrenVersion < INT32_MAX && IsName(x) && x + Suffix(k) in Kids(t, q)
    ensures var request := CreateRequest(Persistent, Join(q, x + Suffix(k)), []);
            && RefusedInVain(t, request)
            && CreateCode(t, request, true) == NodeExists && CreateCode(t, request, false) == Ok
  {
    ParseExact(Join(q, x + Suffix(k)), q, x + Suffix(k));
    SequentialCreateSucceeds(t, CreateRequest(Persistent, Join(q, x + Suffix(k)), []));
  }

  /** A check that refuses in vain is reachable: under a sequential parent /p that has the child x_0000000001, the
      check of a create of /p/x_0000000001 answers RC_NODE_EXISTS, and the create itself would answer RC_OK. */
  lemma {:induction false} RefusedInVainReachable(group: nat, p: string, x: string)
    requires IsName(p) && IsName(x)
    ensures var t := Master(InitialDb(group), [MakeParent(p), MakeChild(Join("", p), x)]).tree;
            var request := CreateRequest(Persistent, Join(Join("", p), x + Suffix(1)), []);
            && RefusedInVain(t, request)
            && CreateCode(t, request, true) == NodeExists && CreateCode(t, request, false) == Ok
  {
    var q := Join("", p);
    var db, events := MasterStep(InitialDb(group), MakeParent(p)), [MakeParent(p), MakeChild(q, x)];
    AfterMakeParent(group, p);
    AfterMakeChild(db, q, x);
    RunNumbered(group, events);
    FreshInv();
    MasterInv(InitialDb(group), events);
    MasterTwo(InitialDb(group), MakeParent(p), MakeChild(q, x));
    TakenNameIsRefused(MasterStep(db, MakeChild(q, x)).tree, q, x, 1);
  }
}
