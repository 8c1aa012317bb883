/** KillSession deletes a session's nodes one by one in hash-set order, after taking the session out of
    the ephemeral index. Every order gives the same tree, and the same one step: `Kill`. */
module KillSession {
  import opened Proto
  import opened Paths
  import opened TreeModel
  import opened TreeInvariant

  /** The part of the invariant that holds in the middle of the loop: the index has already lost the
      session whose nodes are still there. */
  ghost predicate MidKill(t: Tree, s: nat, left: set<string>) {
    && Rooted(t) && Linked(t) && Listed(t)
    && s != 0 && s !in t.ephemerals
    && forall p :: p in left ==> p in t.nodes && t.nodes[p].nodeType.IsEphemeral() && t.nodes[p].stat.ephemeralId == s
  }

  /** An order in which the elements of a set can be visited. */
  ghost predicate Enumerates(order: seq<string>, all: set<string>) {
    && (forall i, j :: 0 <= i < j < |order| ==> order[i] != order[j])
    && (forall p :: p in order <==> p in all)
  }

  lemma {:induction false} LostStep(t: Tree, p: string, parent: string, child: string, gone: set<string>, q: string)
    requires Linked(t) && Listed(t) && p in t.nodes && p !in gone && ParsePath(p) == Parts(parent, child)
    ensures child in Kids(t, parent) && child !in Lost(t, parent, gone)
    ensures Lost(t, q, gone + {p}) == Lost(t, q, gone) + (if q == parent then {child} else {})
  {
    assert HasParent(t, p);
    forall c | c in Kids(t, q)
      ensures Join(q, c) == p <==> q == parent && c == child
    {
      assert ListsNode(t, q, c);
      ParseExact(p, q, c);
    }
  }

  /** Losing one more child is one more relisting of the parent. */
  lemma {:induction false} BereftStep(node: DataNode, kids: set<string>, lost: set<string>, child: string, id: nat)
    requires child !in lost
    ensures Bereft(node, kids, lost + {child}, id) ==
            Relisted(Bereft(node, kids, lost, id), (kids - lost) - {child}, id)
  {
    assert kids - (lost + {child}) == (kids - lost) - {child};
  }

  lemma {:induction false} PurgeOther(t: Tree, p: string, parent: string, child: string, gone: set<string>, id: nat,
                                      q: string)
    requires Linked(t) && Listed(t) && p in t.nodes && p !in gone && ParsePath(p) == Parts(parent, child)
    requires q in Purge(t, gone + {p}, id).nodes && q != parent
    ensures q in Purge(t, gone, id).nodes
    ensures Purge(t, gone + {p}, id).nodes[q] == Purge(t, gone, id).nodes[q]
  {
    LostStep(t, p, parent, child, gone, q);
  }

  lemma {:induction false} PurgeParent(t: Tree, p: string, parent: string, child: string, gone: set<string>, id: nat)
    requires Linked(t) && Listed(t) && p in t.nodes && p !in gone && ParsePath(p) == Parts(parent, child)
    requires parent in t.nodes && parent !in gone
    ensures parent in Purge(t, gone, id).nodes && parent in Purge(t, gone + {p}, id).nodes
    ensures Purge(t, gone + {p}, id).nodes[parent] ==
              Relisted(Purge(t, gone, id).nodes[parent], (Kids(t, parent) - Lost(t, parent, gone)) - {child}, id)
  {
    LostStep(t, p, parent, child, gone, parent);
    BereftStep(t.nodes[parent], Kids(t, parent), Lost(t, parent, gone), child, id);
  }

  lemma {:induction false} UpdatedMap<V>(v: map<string, V>, w: map<string, V>, p: string, q: string, x: V)
    requires w.Keys == v.Keys - {p} && q in w && w[q] == x
    requires forall k :: k in w && k != q ==> w[k] == v[k]
    ensures w == (v - {p})[q := x]
  {
  }

  lemma {:induction false} PurgeNodes(t: Tree, p: string, parent: string, child: string, gone: set<string>, id: nat)
    requires Linked(t) && Listed(t) && p in t.nodes && p !in gone && ParsePath(p) == Parts(parent, child)
    requires parent in t.nodes && parent !in gone
    ensures parent in Purge(t, gone, id).nodes && p in Purge(t, gone, id).nodes
    ensures Purge(t, gone + {p}, id).nodes ==
            (Purge(t, gone, id).nodes - {p})[parent :=
              Relisted(Purge(t, gone, id).nodes[parent], (Kids(t, parent) - Lost(t, parent, gone)) - {child}, id)]
  {
    var v, w := Purge(t, gone, id).nodes, Purge(t, gone + {p}, id).nodes;
    PurgeParent(t, p, parent, child, gone, id);
    forall q | q in w && q != parent
      ensures q in v && w[q] == v[q]
    {
      PurgeOther(t, p, parent, child, gone, id, q);
    }
    assert w.Keys == v.Keys - {p};
    UpdatedMap(v, w, p, parent, w[parent]);
  }

  lemma {:induction false} PurgeChildrens(t: Tree, p: string, parent: string, child: string, gone: set<string>, id: nat)
    requires Linked(t) && Listed(t) && p in t.nodes && p !in gone && ParsePath(p) == Parts(parent, child)
    ensures var v := Purge(t, gone, id).childrens;
            var kids := (Kids(t, parent) - Lost(t, parent, gone)) - {child};
            && parent in v && child in v[parent] && v[parent] - {child} == kids
            && Purge(t, gone + {p}, id).childrens == if kids == {} then v - {parent} else v[parent := kids]
  {
    var v, w := Purge(t, gone, id).childrens, Purge(t, gone + {p}, id).childrens;
    LostStep(t, p, parent, child, gone, parent);
    var lost := Lost(t, parent, gone);
    assert child in t.childrens[parent] - lost;
    assert t.childrens[parent] - (lost + {child}) == (t.childrens[parent] - lost) - {child};
    forall q | q != parent
      ensures (q in w <==> q in v) && (q in w ==> w[q] == v[q])
    {
      PurgeOtherKids(t, p, parent, child, gone, id, q);
    }
  }

  lemma {:induction false} PurgeOtherKids(t: Tree, p: string, parent: string, child: string, gone: set<string>,
                                          id: nat, q: string)
    requires Linked(t) && Listed(t) && p in t.nodes && p !in gone && ParsePath(p) == Parts(parent, child) && q != parent
    ensures var v, w := Purge(t, gone, id).childrens, Purge(t, gone + {p}, id).childrens;
            (q in w <==> q in v) && (q in w ==> w[q] == v[q])
  {
    LostStep(t, p, parent, child, gone, q);
  }

  /** A node of the session has a parent that stays. */
  lemma {:induction false} ParentStays(t: Tree, s: nat, gone: set<string>, p: string)
    requires MidKill(t, s, gone + {p})
    ensures ParsePath(p).Parts? && HasParent(t, p) && ParsePath(p).parent in t.nodes && ParsePath(p).parent !in gone
    ensures p !in t.childrens && p != ParsePath(p).parent
  {
    assert p in gone + {p};
    assert p != "" && HasParent(t, p);
    assert ParsePath(p).parent in t.childrens;
  }

  lemma {:induction false} KillCode(t: Tree, s: nat, gone: set<string>, p: string, id: nat)
    requires MidKill(t, s, gone + {p}) && p !in gone
    ensures DeleteCode(Purge(t, gone, id), DeleteRequest(p, -1), false) == Ok
  {
    ParentStays(t, s, gone, p);
    assert p in gone + {p};
    var u := Purge(t, gone, id);
    assert p in u.nodes && ParsePath(p).parent in u.nodes && p !in u.childrens;
  }

  lemma {:induction false} KillUnlink(t: Tree, s: nat, gone: set<string>, p: string, id: nat)
    requires MidKill(t, s, gone + {p}) && p !in gone
    ensures ParsePath(p).Parts? && p in Purge(t, gone, id).nodes
    ensures var Parts(parent, child) := ParsePath(p);
            Unlink(Purge(t, gone, id), p, parent, child, id) == Purge(t, gone + {p}, id)
  {
    ParentStays(t, s, gone, p);
    assert p in gone + {p};
    var Parts(parent, child) := ParsePath(p);
    PurgeNodes(t, p, parent, child, gone, id);
    PurgeChildrens(t, p, parent, child, gone, id);
    assert DropOwned(t.ephemerals, t.nodes[p].stat.ephemeralId, p) == t.ephemerals;
    PurgedOwner(t, gone, p, id);
  }

  lemma {:induction false} PurgedOwner(t: Tree, gone: set<string>, p: string, id: nat)
    requires p in t.nodes && p !in gone
    ensures p in Purge(t, gone, id).nodes
    ensures Purge(t, gone, id).nodes[p].stat.ephemeralId == t.nodes[p].stat.ephemeralId
    ensures Purge(t, gone, id).ephemerals == t.ephemerals
  {
  }

  /** One more Delete in the loop takes one more node out of the tree, and succeeds. */
  lemma {:induction false} KillStep(t: Tree, s: nat, gone: set<string>, p: string, id: nat)
    requires MidKill(t, s, gone + {p}) && p !in gone
    ensures Delete(Purge(t, gone, id), DeleteRequest(p, -1), id) == Outcome(Purge(t, gone + {p}, id), Ok)
  {
    KillCode(t, s, gone, p, id);
    KillUnlink(t, s, gone, p, id);
  }

  /** What the loop has done: it has come to this tree, with nothing but RC_OK. */
  ghost predicate DeletedTo(t: Tree, order: seq<string>, id: nat, u: Tree) {
    var r := DeleteEach(t, order, id);
    r.tree == u && |r.response| == |order| && AllOk(r.response)
  }

  lemma {:induction false} DeletedNext(t: Tree, order: seq<string>, p: string, id: nat, u: Tree, v: Tree)
    requires DeletedTo(t, order, id, u) && Delete(u, DeleteRequest(p, -1), id) == Outcome(v, Ok)
    ensures DeletedTo(t, order + [p], id, v)
  {
    assert (order + [p])[..|order|] == order;
    assert DeleteEach(t, order + [p], id).response == DeleteEach(t, order, id).response + [Ok];
  }

  lemma {:induction false} EnumeratesInit(order: seq<string>, all: set<string>, n: nat)
    requires Enumerates(order, all) && n + 1 == |order|
    ensures order[n] in all && Enumerates(order[..n], all - {order[n]}) && order == order[..n] + [order[n]]
    ensures all == all - {order[n]} + {order[n]}
  {
    assert order[n] in order;
    assert forall q :: q in order[..n] <==> q in all - {order[n]};
  }

  /** The loop over any order of any part of the session's nodes. */
  lemma {:induction false} KillLoop(t: Tree, s: nat, all: set<string>, order: seq<string>, id: nat)
    requires MidKill(t, s, all) && Enumerates(order, all)
    ensures DeletedTo(t, order, id, Purge(t, all, id))
  {
    if order == [] {
      assert all == {};
      PurgeNothing(t, id);
    } else {
      var n := |order| - 1;
      EnumeratesInit(order, all, n);
      var p, before := order[n], all - {order[n]};
      KillLoop(t, s, before, order[..n], id);
      KillStep(t, s, before, p, id);
      DeletedNext(t, order[..n], p, id, Purge(t, before, id), Purge(t, before + {p}, id));
    }
  }

  lemma {:induction false} PurgeNothing(t: Tree, id: nat)
    ensures Purge(t, {}, id) == t
  {
    var v := Purge(t, {}, id);
    assert forall q :: Lost(t, q, {}) == {};
    assert forall q :: q in t.childrens ==> t.childrens[q] - {} == t.childrens[q];
    assert v.nodes == t.nodes;
    assert v.childrens == t.childrens;
  }

  lemma {:induction false} OwnedAreLeaves(t: Tree, s: nat)
    requires Inv(t)
    ensures s in t.ephemerals ==> MidKill(Disown(t, s), s, OwnedBy(t, s))
    ensures s !in t.ephemerals ==> OwnedBy(t, s) == {}
  {
    if s in t.ephemerals {
      var u := Disown(t, s);
      forall p | p in OwnedBy(t, s)
        ensures s != 0 && p in u.nodes && u.nodes[p].nodeType.IsEphemeral() && u.nodes[p].stat.ephemeralId == s
      {
        assert OwnedExactly(t, s, p);
      }
      assert Linked(u) by {
        forall p | p in u.nodes && p != ""
          ensures HasParent(u, p)
        {
          assert HasParent(t, p);
        }
      }
      assert Listed(u) by {
        forall q, c
          ensures ListsNode(u, q, c)
        {
          assert ListsNode(t, q, c);
        }
      }
    }
  }

  /** KillSession is exact and independent of the iteration order: whatever order the hash set gives,
      every inner Delete answers RC_OK and the final tree is the closed form `Kill`. */
  lemma {:induction false} KillIsExact(t: Tree, s: nat, order: seq<string>, id: nat)
    requires Inv(t) && Enumerates(order, OwnedBy(t, s))
    ensures DeleteEach(Disown(t, s), order, id).tree == Kill(t, s, id)
    ensures var codes := DeleteEach(Disown(t, s), order, id).response; |codes| == |order| && AllOk(codes)
  {
    OwnedAreLeaves(t, s);
    if s in t.ephemerals {
      KillLoop(Disown(t, s), s, OwnedBy(t, s), order, id);
    } else {
      assert forall i :: 0 <= i < |order| ==> order[i] in OwnedBy(t, s);
      PurgeNothing(Disown(t, s), id);
    }
  }

  /** What a kill leaves: precisely the nodes of other owners, with all but their child counters as before,
      and with those too when they lost no child. */
  lemma {:induction false} KillEffect(t: Tree, s: nat, id: nat)
    requires Inv(t) && s != 0
    ensures var u := Kill(t, s, id);
            && (forall p :: p in u.nodes <==> p in t.nodes && t.nodes[p].stat.ephemeralId != s)
            && (forall p :: p in u.nodes ==> SameButChildren(t.nodes[p], u.nodes[p]))
            && (forall p :: p in u.nodes && Kids(u, p) == Kids(t, p) ==> u.nodes[p] == t.nodes[p])
            && u.ephemerals == t.ephemerals - {s}
  {
    var u := Kill(t, s, id);
    forall p
      ensures p in u.nodes <==> p in t.nodes && t.nodes[p].stat.ephemeralId != s
    {
      assert OwnedExactly(t, s, p);
    }
    forall p | p in u.nodes && Kids(u, p) == Kids(t, p)
      ensures u.nodes[p] == t.nodes[p]
    {
      PurgeKids(Disown(t, s), OwnedBy(t, s), id, p);
    }
  }

  /** The index lists afterwards what it listed before, minus what is gone. */
  lemma {:induction false} PurgeKids(t: Tree, gone: set<string>, id: nat, q: string)
    ensures Kids(Purge(t, gone, id), q) == Kids(t, q) - Lost(t, q, gone)
    ensures NoEmpty(t) ==> NoEmpty(Purge(t, gone, id))
  {
  }

  lemma {:induction false} PurgeLinked(t: Tree, gone: set<string>, id: nat)
    requires Rooted(t) && Linked(t) && Listed(t)
    requires forall p :: p in gone ==> p in t.nodes && t.nodes[p].nodeType.IsEphemeral()
    ensures Rooted(Purge(t, gone, id)) && Linked(Purge(t, gone, id))
  {
    var u := Purge(t, gone, id);
    forall p | p in u.nodes && p != ""
      ensures HasParent(u, p)
    {
      assert HasParent(t, p);
      PurgeKids(t, gone, id, ParsePath(p).parent);
    }
  }

  lemma {:induction false} PurgeListed(t: Tree, gone: set<string>, id: nat)
    requires Listed(t)
    requires forall p :: p in gone ==> p in t.nodes && t.nodes[p].nodeType.IsEphemeral()
    ensures Listed(Purge(t, gone, id))
  {
    var u := Purge(t, gone, id);
    forall q, c
      ensures ListsNode(u, q, c)
    {
      assert ListsNode(t, q, c);
      PurgeKids(t, gone, id, q);
    }
  }

  lemma {:induction false} KillOwned(t: Tree, s: nat, id: nat, r: nat, p: string)
    requires Indexed(t) && s != 0
    ensures OwnedExactly(Kill(t, s, id), r, p)
  {
    assert OwnedExactly(t, r, p) && OwnedExactly(t, s, p);
  }

  lemma {:induction false} KillIndexed(t: Tree, s: nat, id: nat)
    requires Indexed(t) && s != 0
    ensures Indexed(Kill(t, s, id))
  {
    forall r, p
      ensures OwnedExactly(Kill(t, s, id), r, p)
    {
      KillOwned(t, s, id, r, p);
    }
  }

  lemma {:induction false} KillInv(t: Tree, s: nat, id: nat)
    requires Inv(t)
    ensures Inv(Kill(t, s, id))
    ensures NoEmpty(t) ==> NoEmpty(Kill(t, s, id))
  {
    OwnedAreLeaves(t, s);
    if s in t.ephemerals {
      PurgeLinked(Disown(t, s), OwnedBy(t, s), id);
      PurgeListed(Disown(t, s), OwnedBy(t, s), id);
      PurgeKids(Disown(t, s), OwnedBy(t, s), id, "");
      KillIndexed(t, s, id);
    } else {
      assert Disown(t, s) == t;
      PurgeNothing(t, id);
    }
  }
}
