/** Who is told of what: the triggers of a write, of a kill and of a whole close, against what they changed. */
module Announcements {
  import opened Proto
  import opened Paths
  import opened Watches
  import opened TreeModel
  import opened TreeInvariant
  import opened KillSession
  import opened Checkpoint
  import opened Notification

  /** The paths whose watches of one kind are triggered. */
  function FiredAt(kind: Kind, firings: seq<Firing>): set<string> {
    set f | f in firings && f.kind == kind :: f.path
  }

  lemma {:induction false} FiredAtBoth(path: string, parent: string)
    ensures var firings := [Firing(OnData, path)] + ParentFiring(parent);
            && FiredAt(OnData, firings) == {path}
            && FiredAt(OnChildren, firings) == if parent == "" then {} else {parent}
  {
    var firings := [Firing(OnData, path)] + ParentFiring(parent);
    assert firings[0] == Firing(OnData, path);
    assert parent != "" ==> firings[1] == Firing(OnChildren, parent);
  }

  lemma {:induction false} FiredAtOne(path: string)
    ensures FiredAt(OnData, [Firing(OnData, path)]) == {path} && FiredAt(OnChildren, [Firing(OnData, path)]) == {}
  {
    FiredAtBoth(path, "");
    assert [Firing(OnData, path)] + ParentFiring("") == [Firing(OnData, path)];
  }

  lemma {:induction false} FiredAtSum(kind: Kind, a: seq<Firing>, b: seq<Firing>)
    ensures FiredAt(kind, a + b) == FiredAt(kind, a) + FiredAt(kind, b)
  {
  }

  // The two registries, and what was handed to their watchers.
  datatype Audience = Audience(data: Registry, dataTold: seq<Delivery>, children: Registry, childrenTold: seq<Delivery>)

  /** The watchers of these paths were told: of `event` on data watches, of changed children on child watches. */
  ghost predicate Informed(a: Audience, b: Audience, paths: set<string>, parents: set<string>, event: EventType) {
    && Announced(a.data, a.dataTold, b.data, b.dataTold, paths, event)
    && Announced(a.children, a.childrenTold, b.children, b.childrenTold, parents, NodeChildrenChanged)
  }

  ghost predicate InformedBy(a: Audience, b: Audience, firings: seq<Firing>, event: EventType) {
    Informed(a, b, FiredAt(OnData, firings), FiredAt(OnChildren, firings), event)
  }

  /** No trigger, so no change. */
  lemma {:induction false} InformedOfNothing(a: Audience, event: EventType)
    ensures InformedBy(a, a, [], event)
  {
    AnnouncedNone(a.data, a.dataTold, event);
    AnnouncedNone(a.children, a.childrenTold, NodeChildrenChanged);
  }

  lemma {:induction false} InformedThen(a: Audience, b: Audience, c: Audience, first: seq<Firing>,
                                        second: seq<Firing>, event: EventType)
    requires InformedBy(a, b, first, event) && InformedBy(b, c, second, event)
    ensures InformedBy(a, c, first + second, event)
  {
    FiredAtSum(OnData, first, second);
    FiredAtSum(OnChildren, first, second);
    AnnouncedThen(a.data, a.dataTold, b.data, b.dataTold, c.data, c.dataTold,
                  FiredAt(OnData, first), FiredAt(OnData, second), event);
    AnnouncedThen(a.children, a.childrenTold, b.children, b.childrenTold, c.children, c.childrenTold,
                  FiredAt(OnChildren, first), FiredAt(OnChildren, second), NodeChildrenChanged);
  }

  /** The triggers of the Deletes that a kill consists of. */
  function FiringsOfEach(t: Tree, order: seq<string>, id: nat): seq<Firing> {
    if order == [] then []
    else
      var before := order[..|order| - 1];
      FiringsOfEach(t, before, id) +
      FiringsOf(DeleteEach(t, before, id).tree, DoDelete(DeleteRequest(order[|order| - 1], -1), id))
  }

  /** The parents of the given nodes, less the root, which has no child watches. */
  function ParentsOf(paths: set<string>): set<string> {
    set p | p in paths && ParsePath(p).Parts? && ParsePath(p).parent != "" :: ParsePath(p).parent
  }

  lemma {:induction false} FiredByDelete(t: Tree, p: string, id: nat)
    requires DeleteCode(t, DeleteRequest(p, -1), false) == Ok
    ensures var firings := FiringsOf(t, DoDelete(DeleteRequest(p, -1), id));
            FiresFor(firings, {p})
  {
    FiredAtBoth(p, ParsePath(p).parent);
  }

  lemma {:induction false} CodesBefore(t: Tree, order: seq<string>, p: string, id: nat)
    requires AllOk(DeleteEach(t, order + [p], id).response)
    ensures AllOk(DeleteEach(t, order, id).response)
    ensures DeleteCode(DeleteEach(t, order, id).tree, DeleteRequest(p, -1), false) == Ok
  {
    assert (order + [p])[..|order|] == order;
    var u := DeleteEach(t, order, id);
    var codes := u.response + [Delete(u.tree, DeleteRequest(p, -1), id).response];
    assert DeleteEach(t, order + [p], id).response == codes;
    assert codes[|u.response|] == Delete(u.tree, DeleteRequest(p, -1), id).response;
    assert forall i :: 0 <= i < |u.response| ==> codes[i] == u.response[i];
  }

  /** These triggers are for the paths of the order and for their parents. */
  ghost predicate FiresFor(firings: seq<Firing>, paths: set<string>) {
    FiredAt(OnData, firings) == paths && FiredAt(OnChildren, firings) == ParentsOf(paths)
  }

  lemma {:induction false} FiresForSum(a: seq<Firing>, b: seq<Firing>, order: seq<string>, p: string)
    requires FiresFor(a, SetOf(order)) && FiresFor(b, {p})
    ensures FiresFor(a + b, SetOf(order + [p]))
  {
    FiredAtSum(OnData, a, b);
    FiredAtSum(OnChildren, a, b);
    SetOfLast(order, p);
  }

  /** Deletes that all succeed trigger the watches of every path and of every parent. */
  lemma {:induction false} FiredByEach(t: Tree, order: seq<string>, id: nat)
    requires AllOk(DeleteEach(t, order, id).response)
    ensures FiresFor(FiringsOfEach(t, order, id), SetOf(order))
  {
    if order != [] {
      var before, p := order[..|order| - 1], order[|order| - 1];
      assert order == before + [p];
      CodesBefore(t, before, p, id);
      FiredByEach(t, before, id);
      FiredByDelete(DeleteEach(t, before, id).tree, p, id);
      FiresForSum(FiringsOfEach(t, before, id),
                  FiringsOf(DeleteEach(t, before, id).tree, DoDelete(DeleteRequest(p, -1), id)), before, p);
    }
  }

  /** Whatever the order, a kill comes to the closed form and triggers the watches of the nodes that go and of
      their parents. */
  lemma {:induction false} OrderLeavesNoTrace(t: Tree, s: nat, order: seq<string>, id: nat)
    requires Inv(t) && Enumerates(order, OwnedBy(t, s))
    ensures DeleteEach(Disown(t, s), order, id).tree == Kill(t, s, id)
    ensures FiresFor(FiringsOfEach(Disown(t, s), order, id), OwnedBy(t, s))
  {
    KillIsExact(t, s, order, id);
    FiredByEach(Disown(t, s), order, id);
    assert SetOf(order) == OwnedBy(t, s);
  }

  lemma {:induction false} SetOfLast(order: seq<string>, p: string)
    ensures SetOf(order + [p]) == SetOf(order) + {p}
    ensures ParentsOf(SetOf(order + [p])) == ParentsOf(SetOf(order)) + ParentsOf({p})
  {
  }

  lemma {:induction false} DeleteEachNext(t: Tree, order: seq<string>, p: string, id: nat)
    ensures DeleteEach(t, order + [p], id).tree ==
            Delete(DeleteEach(t, order, id).tree, DeleteRequest(p, -1), id).tree
    ensures FiringsOfEach(t, order + [p], id) ==
            FiringsOfEach(t, order, id) + FiringsOf(DeleteEach(t, order, id).tree, DoDelete(DeleteRequest(p, -1), id))
  {
    assert (order + [p])[..|order|] == order;
  }

  // -------- What changed is what is announced --------

  /** The nodes that appeared, disappeared or were rewritten from one tree to the other. */
  ghost function Rewrites(t: Tree, u: Tree): set<string> {
    set p | p in t.nodes.Keys + u.nodes.Keys && DataChanged(t, u, p)
  }

  /** The nodes, other than the root, whose child sets differ. */
  ghost function Regroups(t: Tree, u: Tree): set<string> {
    set q | q in t.childrens.Keys + u.childrens.Keys && q != "" && Kids(t, q) != Kids(u, q)
  }

  /** Exactly the watchers of what changed between the trees were told. */
  ghost predicate ToldOfChanges(a: Audience, b: Audience, t: Tree, u: Tree, event: EventType) {
    Informed(a, b, Rewrites(t, u), Regroups(t, u), event)
  }

  lemma {:induction false} FiredAtOf(kind: Kind, firings: seq<Firing>, p: string)
    ensures p in FiredAt(kind, firings) <==> Firing(kind, p) in firings
  {
    if Firing(kind, p) in firings {
      var f := Firing(kind, p);
      assert f.path in FiredAt(kind, firings);
    }
  }

  lemma {:induction false} RewriteFires(t: Tree, w: Write, p: string)
    requires Linked(t)
    ensures p in FiredAt(OnData, FiringsOf(t, w)) <==> p in Rewrites(t, Written(t, w))
  {
    FiredAtOf(OnData, FiringsOf(t, w), p);
    DataAnnouncedIff(t, w, p);
  }

  lemma {:induction false} RegroupsOf(t: Tree, u: Tree, p: string)
    ensures p in Regroups(t, u) <==> p != "" && Kids(t, p) != Kids(u, p)
  {
  }

  /** The root has no child watches. */
  lemma {:induction false} RootIsNotFired(t: Tree, w: Write)
    ensures Firing(OnChildren, "") !in FiringsOf(t, w)
  {
  }

  lemma {:induction false} RegroupFires(t: Tree, w: Write, p: string)
    requires Linked(t)
    ensures p in FiredAt(OnChildren, FiringsOf(t, w)) <==> p in Regroups(t, Written(t, w))
  {
    FiredAtOf(OnChildren, FiringsOf(t, w), p);
    RegroupsOf(t, Written(t, w), p);
    RootIsNotFired(t, w);
    if p != "" {
      ChildrenAnnouncedIff(t, w, p);
    }
  }

  /** A write triggers the watches of exactly what it changes. */
  lemma {:induction false} WriteAnnounces(t: Tree, w: Write)
    requires Linked(t)
    ensures FiredAt(OnData, FiringsOf(t, w)) == Rewrites(t, Written(t, w))
    ensures FiredAt(OnChildren, FiringsOf(t, w)) == Regroups(t, Written(t, w))
  {
    forall p
      ensures p in FiredAt(OnData, FiringsOf(t, w)) <==> p in Rewrites(t, Written(t, w))
      ensures p in FiredAt(OnChildren, FiringsOf(t, w)) <==> p in Regroups(t, Written(t, w))
    {
      RewriteFires(t, w, p);
      RegroupFires(t, w, p);
    }
  }

  lemma {:induction false} ToldOfWrite(a: Audience, b: Audience, t: Tree, w: Write, event: EventType)
    requires Linked(t) && InformedBy(a, b, FiringsOf(t, w), event)
    ensures ToldOfChanges(a, b, t, Written(t, w), event)
  {
    WriteAnnounces(t, w);
  }

  lemma {:induction false} KillRewrites(t: Tree, s: nat, id: nat)
    requires Inv(t)
    ensures Rewrites(t, Kill(t, s, id)) == OwnedBy(t, s)
  {
    forall p
      ensures p in Rewrites(t, Kill(t, s, id)) <==> p in OwnedBy(t, s)
    {
      assert OwnedExactly(t, s, p);
    }
  }

  lemma {:induction false} KillRegroups(t: Tree, s: nat, id: nat)
    requires Inv(t)
    ensures Regroups(t, Kill(t, s, id)) == ParentsOf(OwnedBy(t, s))
    ensures forall q :: Kids(Kill(t, s, id), q) <= Kids(t, q)
  {
    var gone, u := OwnedBy(t, s), Kill(t, s, id);
    forall q
      ensures q in Regroups(t, u) <==> q in ParentsOf(gone)
      ensures Kids(u, q) <= Kids(t, q)
    {
      PurgeKids(Disown(t, s), gone, id, q);
      assert Kids(u, q) == Kids(t, q) - Lost(Disown(t, s), q, gone);
      LostIffParent(t, s, q);
    }
  }

  lemma {:induction false} LostIffParent(t: Tree, s: nat, q: string)
    requires Inv(t)
    ensures Lost(Disown(t, s), q, OwnedBy(t, s)) <= Kids(t, q)
    ensures q != "" ==> (Lost(Disown(t, s), q, OwnedBy(t, s)) != {} <==> q in ParentsOf(OwnedBy(t, s)))
  {
    var gone, lost := OwnedBy(t, s), Lost(Disown(t, s), q, OwnedBy(t, s));
    if c :| c in lost {
      assert ListsNode(t, q, c);
      ParseExact(Join(q, c), q, c);
      assert Join(q, c) in gone;
    }
    if q in ParentsOf(gone) {
      var p :| p in gone && ParsePath(p).Parts? && ParsePath(p).parent == q;
      assert OwnedExactly(t, s, p) && (p != "" ==> HasParent(t, p));
      BadPathExact("");
      assert ParsePath(p).child in lost;
    }
  }

  /** From one tree to the other nodes and children only go away. */
  ghost predicate Shrinks(t: Tree, u: Tree) {
    && (forall p :: p in u.nodes ==> p in t.nodes && !DataChanged(t, u, p))
    && (forall q :: Kids(u, q) <= Kids(t, q))
  }

  lemma {:induction false} KillShrinks(t: Tree, s: nat, id: nat)
    requires Inv(t)
    ensures Shrinks(t, Kill(t, s, id))
  {
    KillRegroups(t, s, id);
  }

  lemma {:induction false} ShrinksTwice(t: Tree, u: Tree, v: Tree)
    requires Shrinks(t, u) && Shrinks(u, v)
    ensures Shrinks(t, v)
    ensures Rewrites(t, v) == Rewrites(t, u) + Rewrites(u, v)
    ensures Regroups(t, v) == Regroups(t, u) + Regroups(u, v)
  {
    forall p
      ensures p in Rewrites(t, v) <==> p in Rewrites(t, u) + Rewrites(u, v)
      ensures p in Regroups(t, v) <==> p in Regroups(t, u) + Regroups(u, v)
    {
      assert Kids(v, p) <= Kids(u, p) <= Kids(t, p);
    }
  }

  /** A kill that follows other kills: the watchers of everything that went are told, and each once. */
  lemma {:induction false} ToldOfKill(a: Audience, b: Audience, c: Audience, t: Tree, u: Tree, s: nat, id: nat)
    requires Inv(u) && Shrinks(t, u) && ToldOfChanges(a, b, t, u, NodeDeleted)
    requires Informed(b, c, OwnedBy(u, s), ParentsOf(OwnedBy(u, s)), NodeDeleted)
    ensures Shrinks(t, Kill(u, s, id)) && ToldOfChanges(a, c, t, Kill(u, s, id), NodeDeleted)
  {
    var v := Kill(u, s, id);
    KillRewrites(u, s, id);
    KillRegroups(u, s, id);
    KillShrinks(u, s, id);
    ShrinksTwice(t, u, v);
    AnnouncedThen(a.data, a.dataTold, b.data, b.dataTold, c.data, c.dataTold,
                  Rewrites(t, u), Rewrites(u, v), NodeDeleted);
    AnnouncedThen(a.children, a.childrenTold, b.children, b.childrenTold, c.children, c.childrenTold,
                  Regroups(t, u), Regroups(u, v), NodeChildrenChanged);
  }

  lemma {:induction false} ToldOfNothing(a: Audience, t: Tree, u: Tree, event: EventType)
    requires t.nodes == u.nodes && t.childrens == u.childrens
    ensures ToldOfChanges(a, a, t, u, event)
  {
    InformedOfNothing(a, event);
    assert Rewrites(t, u) == {} && Regroups(t, u) == {};
    assert FiredAt(OnData, []) == {} && FiredAt(OnChildren, []) == {};
  }
}
