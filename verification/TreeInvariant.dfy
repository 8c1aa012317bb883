/** The invariant that ties the three maps together, and its preservation by every operation. */
module TreeInvariant {
  import opened Proto
  import opened Paths
  import opened TreeModel

  ghost predicate Rooted(t: Tree) {
    "" in t.nodes && t.nodes[""].nodeType.Persistent?
  }

  ghost predicate HasParent(t: Tree, p: string) {
    var r := ParsePath(p);
    r.Parts? && r.parent in t.nodes && r.child in Kids(t, r.parent)
  }

  /** Every node but the root has a parent that lists it. */
  ghost predicate Linked(t: Tree) {
    forall p {:trigger HasParent(t, p)} :: p in t.nodes && p != "" ==> HasParent(t, p)
  }

  ghost predicate ListsNode(t: Tree, q: string, c: string) {
    c in Kids(t, q) ==> IsName(c) && Join(q, c) in t.nodes
  }

  /** Only present, non-ephemeral nodes have an entry in `childrens_`, and what they list is present. */
  ghost predicate Listed(t: Tree) {
    && (forall q :: q in t.childrens ==> q in t.nodes && !t.nodes[q].nodeType.IsEphemeral())
    && (forall q, c {:trigger ListsNode(t, q, c)} :: ListsNode(t, q, c))
  }

  ghost predicate OwnedExactly(t: Tree, s: nat, p: string) {
    p in OwnedBy(t, s) <==> s != 0 && p in t.nodes && t.nodes[p].stat.ephemeralId == s
  }

  /** A node is ephemeral iff it has an owner, exactly its owner's set holds it, and no set is empty. */
  ghost predicate Indexed(t: Tree) {
    && (forall p :: p in t.nodes ==> (t.nodes[p].nodeType.IsEphemeral() <==> t.nodes[p].stat.ephemeralId != 0))
    && (forall s, p {:trigger OwnedExactly(t, s, p)} :: OwnedExactly(t, s, p))
    && (forall s :: s in t.ephemerals ==> t.ephemerals[s] != {})
  }

  ghost predicate Inv(t: Tree) {
    Rooted(t) && Linked(t) && Listed(t) && Indexed(t)
  }

  /** No entry of `childrens_` is empty: what replicas that run no checks enjoy. */
  ghost predicate NoEmpty(t: Tree) {
    forall q :: q in t.childrens ==> t.childrens[q] != {}
  }

  lemma {:induction false} FreshInv()
    ensures Inv(Fresh) && NoEmpty(Fresh)
  {
  }

  /** A change that keeps the nodes' kinds, their owners and all child sets keeps the invariant. */
  lemma {:induction false} FrameInv(t: Tree, u: Tree)
    requires Inv(t)
    requires u.nodes.Keys == t.nodes.Keys && u.ephemerals == t.ephemerals
    requires forall p :: p in u.nodes ==>
        u.nodes[p].nodeType == t.nodes[p].nodeType && u.nodes[p].stat.ephemeralId == t.nodes[p].stat.ephemeralId
    requires forall q :: Kids(u, q) == Kids(t, q)
    requires forall q :: q in u.childrens ==> q in u.nodes && !u.nodes[q].nodeType.IsEphemeral()
    ensures Inv(u)
  {
    forall p | p in u.nodes && p != ""
      ensures HasParent(u, p)
    {
      assert HasParent(t, p);
    }
    forall s, p
      ensures OwnedExactly(u, s, p)
    {
      assert OwnedExactly(t, s, p);
    }
    forall q, c
      ensures ListsNode(u, q, c)
    {
      assert ListsNode(t, q, c);
    }
  }

  /** What the code relies on: an ephemeral node is created by a session, and 0 is no session. */
  predicate HasOwner(request: CreateRequest, txn: Transaction) {
    request.nodeType.IsEphemeral() ==> txn.sessionId != 0
  }

  /** A name that is not listed under its parent is not the name of a node. */
  lemma {:induction false} UnlistedIsAbsent(t: Tree, parent: string, name: string)
    requires Linked(t) && IsName(name) && name !in Kids(t, parent)
    ensures Join(parent, name) !in t.nodes
  {
    var path := Join(parent, name);
    ParseExact(path, parent, name);
    assert path in t.nodes ==> HasParent(t, path);
  }

  lemma {:induction false} NameUnderIsName(parent: DataNode, child: string)
    requires IsName(child)
    ensures IsName(NameUnder(parent, child))
  {
  }

  lemma {:induction false} LinkShape(t: Tree, parent: string, name: string, request: CreateRequest, txn: Transaction)
    requires Rooted(t) && Linked(t) && Listed(t)
    requires parent in t.nodes && !t.nodes[parent].nodeType.IsEphemeral()
    requires IsName(name) && name !in Kids(t, parent)
    ensures var u := Link(t, parent, name, request, txn); Rooted(u) && Linked(u) && Listed(u)
  {
    var path := Join(parent, name);
    UnlistedIsAbsent(t, parent, name);
    ParseExact(path, parent, name);
    var u := Link(t, parent, name, request, txn);
    forall p | p in u.nodes && p != ""
      ensures HasParent(u, p)
    {
      assert p == path || HasParent(t, p);
    }
    forall q, c
      ensures ListsNode(u, q, c)
    {
      assert ListsNode(t, q, c);
    }
  }

  lemma {:induction false} OwnedAfter(owned: map<nat, set<string>>, owner: nat, path: string, s: nat)
    ensures OwnedIn(AddOwned(owned, owner, path), s) == OwnedIn(owned, s) + (if s == owner then {path} else {})
    ensures owner != 0 ==>
              OwnedIn(DropOwned(owned, owner, path), s) == OwnedIn(owned, s) - (if s == owner then {path} else {})
  {
  }

  lemma {:induction false} LinkOwned(t: Tree, parent: string, name: string, request: CreateRequest, txn: Transaction,
                                     s: nat, p: string)
    requires OwnedExactly(t, s, p) && HasOwner(request, txn)
    requires parent in t.nodes && Join(parent, name) !in t.nodes
    ensures OwnedExactly(Link(t, parent, name, request, txn), s, p)
  {
    OwnedAfter(t.ephemerals, txn.sessionId, Join(parent, name), s);
  }

  lemma {:induction false} LinkOwners(t: Tree, parent: string, name: string, request: CreateRequest, txn: Transaction)
    requires Indexed(t) && HasOwner(request, txn)
    requires parent in t.nodes && Join(parent, name) !in t.nodes
    ensures var u := Link(t, parent, name, request, txn);
            && (forall p :: p in u.nodes ==> (u.nodes[p].nodeType.IsEphemeral() <==> u.nodes[p].stat.ephemeralId != 0))
            && (forall s :: s in u.ephemerals ==> u.ephemerals[s] != {})
  {
  }

  lemma {:induction false} LinkIndexed(t: Tree, parent: string, name: string, request: CreateRequest, txn: Transaction)
    requires Indexed(t) && HasOwner(request, txn)
    requires parent in t.nodes && Join(parent, name) !in t.nodes
    ensures Indexed(Link(t, parent, name, request, txn))
  {
    LinkOwners(t, parent, name, request, txn);
    forall s, p
      ensures OwnedExactly(Link(t, parent, name, request, txn), s, p)
    {
      assert OwnedExactly(t, s, p);
      LinkOwned(t, parent, name, request, txn, s, p);
    }
  }

  lemma {:induction false} CreateInv(t: Tree, request: CreateRequest, txn: Transaction)
    requires Inv(t) && HasOwner(request, txn)
    ensures Inv(Create(t, request, txn).tree)
    ensures NoEmpty(t) ==> NoEmpty(Create(t, request, txn).tree)
  {
    if CreateCode(t, request, false) == Ok {
      var Parts(parent, child) := ParsePath(request.path);
      NameUnderIsName(t.nodes[parent], child);
      LinkShape(t, parent, NameUnder(t.nodes[parent], child), request, txn);
      UnlistedIsAbsent(t, parent, NameUnder(t.nodes[parent], child));
      LinkIndexed(t, parent, NameUnder(t.nodes[parent], child), request, txn);
    }
  }

  /** The assumption on owners is exactly what is needed: a Create breaks the invariant if and only if it succeeds
      in making an ephemeral node for session 0. */
  lemma {:induction false} CreateInvIff(t: Tree, request: CreateRequest, txn: Transaction)
    requires Inv(t)
    ensures Inv(Create(t, request, txn).tree) <==> HasOwner(request, txn) || CreateCode(t, request, false) != Ok
  {
    if HasOwner(request, txn) {
      CreateInv(t, request, txn);
    } else if CreateCode(t, request, false) == Ok {
      var Parts(parent, child) := ParsePath(request.path);
      UnownedBreaks(t, parent, NameUnder(t.nodes[parent], child), request, txn);
    }
  }

  lemma {:induction false} UnownedBreaks(t: Tree, parent: string, name: string, request: CreateRequest,
                                         txn: Transaction)
    requires parent in t.nodes && !HasOwner(request, txn)
    ensures !Indexed(Link(t, parent, name, request, txn))
  {
    var u, path := Link(t, parent, name, request, txn), Join(parent, name);
    assert u.nodes[path].nodeType.IsEphemeral() && u.nodes[path].stat.ephemeralId == 0;
  }

  lemma {:induction false} TouchInv(t: Tree, q: string)
    requires Inv(t) && q in t.nodes && !t.nodes[q].nodeType.IsEphemeral() && q !in t.childrens
    ensures Inv(t.(childrens := t.childrens[q := {}]))
  {
    FrameInv(t, t.(childrens := t.childrens[q := {}]));
  }

  lemma {:induction false} CheckCreateInv(t: Tree, request: CreateRequest)
    requires Inv(t)
    ensures Inv(CheckCreate(t, request).tree)
  {
    var u := CheckCreate(t, request).tree;
    if u != t {
      TouchInv(t, ParsePath(request.path).parent);
    }
  }

  /** A leaf's parent is present and lists it: in every reachable tree RC_NO_PARENT is unreachable. */
  lemma {:induction false} DeleteFindsParent(t: Tree, request: DeleteRequest)
    requires Linked(t)
    ensures DeleteCode(t, request, false) != NoParent
    ensures DeleteCode(t, request, false) == DeleteCode(t, request, true)
  {
    var path := request.path;
    assert path in t.nodes && path != "" ==> HasParent(t, path);
  }

  lemma {:induction false} UnlinkKids(t: Tree, path: string, parent: string, child: string, id: nat, q: string)
    requires path in t.nodes && parent in t.nodes && parent != path
    ensures Kids(Unlink(t, path, parent, child, id), q) == Kids(t, q) - (if q == parent then {child} else {})
    ensures NoEmpty(t) ==> NoEmpty(Unlink(t, path, parent, child, id))
  {
  }

  lemma {:induction false} UnlinkLinked(t: Tree, path: string, parent: string, child: string, id: nat)
    requires Rooted(t) && Linked(t) && Listed(t)
    requires path in t.nodes && path !in t.childrens && ParsePath(path) == Parts(parent, child)
    ensures var u := Unlink(t, path, parent, child, id); Rooted(u) && Linked(u)
  {
    assert HasParent(t, path);
    var u := Unlink(t, path, parent, child, id);
    forall p | p in u.nodes && p != ""
      ensures HasParent(u, p)
    {
      assert HasParent(t, p);
      UnlinkKids(t, path, parent, child, id, ParsePath(p).parent);
    }
  }

  lemma {:induction false} UnlinkListed(t: Tree, path: string, parent: string, child: string, id: nat)
    requires Listed(t) && path in t.nodes && path !in t.childrens && ParsePath(path) == Parts(parent, child)
    requires parent in t.nodes && parent != path
    ensures Listed(Unlink(t, path, parent, child, id))
  {
    var u := Unlink(t, path, parent, child, id);
    forall q, c
      ensures ListsNode(u, q, c)
    {
      assert ListsNode(t, q, c);
      UnlinkKids(t, path, parent, child, id, q);
      ParseExact(path, q, c);
    }
  }

  lemma {:induction false} UnlinkIndexed(t: Tree, path: string, parent: string, child: string, id: nat)
    requires Indexed(t) && path in t.nodes
    ensures Indexed(Unlink(t, path, parent, child, id))
  {
    var u := Unlink(t, path, parent, child, id);
    assert forall p :: p in u.nodes <==> p in t.nodes && p != path;
    assert forall p :: p in u.nodes ==>
      u.nodes[p].nodeType == t.nodes[p].nodeType && u.nodes[p].stat.ephemeralId == t.nodes[p].stat.ephemeralId;
    forall s, p
      ensures OwnedExactly(u, s, p)
    {
      OwnedAfter(t.ephemerals, t.nodes[path].stat.ephemeralId, path, s);
      assert OwnedExactly(t, s, p);
    }
  }

  lemma {:induction false} DeleteInv(t: Tree, request: DeleteRequest, id: nat)
    requires Inv(t)
    ensures Inv(Delete(t, request, id).tree)
    ensures NoEmpty(t) ==> NoEmpty(Delete(t, request, id).tree)
  {
    DeleteFindsParent(t, request);
    if DeleteCode(t, request, false) == Ok {
      var Parts(parent, child) := ParsePath(request.path);
      assert HasParent(t, request.path);
      UnlinkKids(t, request.path, parent, child, id, parent);
      UnlinkLinked(t, request.path, parent, child, id);
      UnlinkListed(t, request.path, parent, child, id);
      UnlinkIndexed(t, request.path, parent, child, id);
    }
  }

  lemma {:induction false} SetDataInv(t: Tree, request: SetDataRequest, txn: Transaction)
    requires Inv(t)
    ensures Inv(SetData(t, request, txn).tree)
    ensures NoEmpty(t) ==> NoEmpty(SetData(t, request, txn).tree)
  {
    FrameInv(t, SetData(t, request, txn).tree);
  }
}
