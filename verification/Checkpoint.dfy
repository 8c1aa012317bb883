/** Checkpoints: the node list and the session list, and what recovering from them rebuilds. */
module Checkpoint {
  import opened Proto
  import opened TreeModel
  import opened TreeInvariant

  /** The paths of a node list, and that none occurs twice. */
  function PathsOf(list: seq<NodeRecord>): set<string> {
    if list == [] then {} else PathsOf(list[..|list| - 1]) + {list[|list| - 1].path}
  }

  predicate Distinct(list: seq<NodeRecord>) {
    list == [] || (Distinct(list[..|list| - 1]) && list[|list| - 1].path !in PathsOf(list[..|list| - 1]))
  }

  /** The list holds every node of the tree once, with its children, in whatever order the hash maps gave. */
  ghost predicate IsNodeList(list: seq<NodeRecord>, t: Tree) {
    ListsNodes(list, t, t.nodes.Keys)
  }

  ghost predicate ListsNodes(list: seq<NodeRecord>, t: Tree, paths: set<string>) {
    && Distinct(list)
    && (forall i :: 0 <= i < |list| ==> IsRecordOf(list[i], t))
    && PathsOf(list) == paths
  }

  ghost predicate IsRecordOf(r: NodeRecord, t: Tree) {
    && r.path in t.nodes
    && r.node == t.nodes[r.path]
    && forall c :: c in r.children <==> c in Kids(t, r.path)
  }

  function SetOf(names: seq<string>): set<string> {
    set c | c in names
  }

  /** One round of the loop of `DataTree::Recover`. */
  function RecoverNode(t: Tree, r: NodeRecord): Tree {
    Tree(
      t.nodes[r.path := r.node],
      if r.children == [] then t.childrens
      else t.childrens[r.path := Kids(t, r.path) + SetOf(r.children)],
      if r.node.stat.ephemeralId > 0 then AddOwned(t.ephemerals, r.node.stat.ephemeralId, r.path)
      else t.ephemerals)
  }

  /** `DataTree::Recover`: merges the list into the tree, without clearing it first. */
  function Recover(t: Tree, list: seq<NodeRecord>): Tree {
    if list == [] then t else RecoverNode(Recover(t, list[..|list| - 1]), list[|list| - 1])
  }

  /** The tree without the empty entries that checks leave in `childrens_`. */
  function Strip(t: Tree): Tree {
    t.(childrens := map q | q in t.childrens && t.childrens[q] != {} :: t.childrens[q])
  }

  lemma {:induction false} StripKids(t: Tree)
    ensures NoEmpty(Strip(t))
    ensures forall q :: Kids(Strip(t), q) == Kids(t, q)
    ensures NoEmpty(t) ==> Strip(t) == t
  {
    assert NoEmpty(t) ==> Strip(t).childrens == t.childrens;
  }

  // -------- Recovery into any tree --------

  ghost predicate InList(list: seq<NodeRecord>, p: string) {
    exists i :: 0 <= i < |list| && list[i].path == p
  }

  ghost predicate ListsChild(list: seq<NodeRecord>, p: string, c: string) {
    exists i :: 0 <= i < |list| && list[i].path == p && c in list[i].children
  }

  ghost predicate ListsOwner(list: seq<NodeRecord>, p: string, s: nat) {
    exists i :: 0 <= i < |list| && list[i].path == p && list[i].node.stat.ephemeralId == s
  }

  /** The i-th record is the last one for its path. */
  ghost predicate IsLast(list: seq<NodeRecord>, i: nat) {
    i < |list| && forall j :: i < j < |list| ==> list[j].path != list[i].path
  }

  lemma {:induction false} InListNext(list: seq<NodeRecord>, r: NodeRecord, p: string, c: string, s: nat)
    ensures InList(list + [r], p) <==> InList(list, p) || r.path == p
    ensures ListsChild(list + [r], p, c) <==> ListsChild(list, p, c) || (r.path == p && c in r.children)
    ensures ListsOwner(list + [r], p, s) <==> ListsOwner(list, p, s) || (r.path == p && r.node.stat.ephemeralId == s)
  {
    var next := list + [r];
    assert next[|list|] == r;
    assert forall i :: 0 <= i < |list| ==> next[i] == list[i];
  }

  /** Recovery keeps what it finds: a node that the list does not name stays as it was; a node that it names takes the
      value of the last record for it; child sets and ephemeral sets only grow, by what the list says. */
  ghost predicate Merged(t: Tree, list: seq<NodeRecord>, u: Tree, p: string, c: string, s: nat) {
    && (p in u.nodes <==> p in t.nodes || InList(list, p))
    && (p in t.nodes && !InList(list, p) ==> u.nodes[p] == t.nodes[p])
    && (c in Kids(u, p) <==> c in Kids(t, p) || ListsChild(list, p, c))
    && (p in OwnedBy(u, s) <==> p in OwnedBy(t, s) || (s > 0 && ListsOwner(list, p, s)))
  }

  lemma {:induction false} MergedOne(t: Tree, list: seq<NodeRecord>, u: Tree, r: NodeRecord, p: string,
                                     c: string, s: nat)
    requires Merged(t, list, u, p, c, s)
    ensures Merged(t, list + [r], RecoverNode(u, r), p, c, s)
  {
    InListNext(list, r, p, c, s);
  }

  lemma {:induction false} RecoverMerges(t: Tree, list: seq<NodeRecord>, p: string, c: string, s: nat)
    ensures Merged(t, list, Recover(t, list), p, c, s)
  {
    if list != [] {
      var n := |list| - 1;
      RecoverMerges(t, list[..n], p, c, s);
      MergedOne(t, list[..n], Recover(t, list[..n]), list[n], p, c, s);
      assert list[..n] + [list[n]] == list;
    }
  }

  lemma {:induction false} LastRecordWins(t: Tree, list: seq<NodeRecord>, i: nat)
    requires IsLast(list, i)
    ensures var u := Recover(t, list); list[i].path in u.nodes && u.nodes[list[i].path] == list[i].node
    decreases |list|
  {
    var n := |list| - 1;
    if i < n {
      assert IsLast(list[..n], i);
      LastRecordWins(t, list[..n], i);
      assert list[n].path != list[i].path;
    }
  }

  /** What a fresh tree holds once the nodes in `done` have been recovered. */
  ghost function Part(t: Tree, done: set<string>): Tree {
    Tree(
      Fresh.nodes + (map p | p in done && p in t.nodes :: t.nodes[p]),
      map q | q in t.childrens && q in done && t.childrens[q] != {} :: t.childrens[q],
      map s | s in t.ephemerals && t.ephemerals[s] * done != {} :: t.ephemerals[s] * done)
  }

  lemma {:induction false} PartChildrens(t: Tree, done: set<string>, r: NodeRecord)
    requires IsRecordOf(r, t) && r.path !in done
    ensures RecoverNode(Part(t, done), r).childrens == Part(t, done + {r.path}).childrens
  {
    if r.children == [] {
      assert Kids(t, r.path) == {};
    } else {
      assert r.children[0] in Kids(t, r.path);
      assert SetOf(r.children) == t.childrens[r.path];
      assert Kids(Part(t, done), r.path) == {};
      var a, b := RecoverNode(Part(t, done), r).childrens, Part(t, done + {r.path}).childrens;
      assert a.Keys == b.Keys;
      assert a[r.path] == b[r.path];
    }
  }

  lemma {:induction false} PartOwned(t: Tree, done: set<string>, path: string, s: nat)
    requires Indexed(t) && path in t.nodes
    ensures var owner := t.nodes[path].stat.ephemeralId;
            OwnedBy(t, s) * (done + {path}) == OwnedBy(t, s) * done + (if owner > 0 && s == owner then {path} else {})
  {
    assert OwnedExactly(t, s, path);
  }

  lemma {:induction false} PartEphemeralAt(t: Tree, done: set<string>, r: NodeRecord, s: nat)
    requires Indexed(t) && IsRecordOf(r, t)
    ensures var a, b := RecoverNode(Part(t, done), r).ephemerals, Part(t, done + {r.path}).ephemerals;
            (s in a <==> s in b) && (s in a ==> a[s] == b[s])
  {
    assert OwnedExactly(t, r.node.stat.ephemeralId, r.path);
    PartOwned(t, done, r.path, s);
  }

  lemma {:induction false} PartEphemerals(t: Tree, done: set<string>, r: NodeRecord)
    requires Indexed(t) && IsRecordOf(r, t)
    ensures RecoverNode(Part(t, done), r).ephemerals == Part(t, done + {r.path}).ephemerals
  {
    var a, b := RecoverNode(Part(t, done), r).ephemerals, Part(t, done + {r.path}).ephemerals;
    forall s: nat
      ensures (s in a <==> s in b) && (s in a ==> a[s] == b[s])
    {
      PartEphemeralAt(t, done, r, s);
    }
  }

  lemma {:induction false} PartStep(t: Tree, done: set<string>, r: NodeRecord)
    requires Indexed(t) && IsRecordOf(r, t) && r.path !in done
    ensures RecoverNode(Part(t, done), r) == Part(t, done + {r.path})
  {
    PartChildrens(t, done, r);
    PartEphemerals(t, done, r);
    assert RecoverNode(Part(t, done), r).nodes == Part(t, done + {r.path}).nodes;
  }

  lemma {:induction false} RecoverPart(t: Tree, list: seq<NodeRecord>)
    requires Indexed(t) && Distinct(list)
    requires forall i :: 0 <= i < |list| ==> IsRecordOf(list[i], t)
    ensures Recover(Fresh, list) == Part(t, PathsOf(list))
  {
    if list == [] {
      assert Part(t, {}) == Fresh;
    } else {
      RecoverPart(t, list[..|list| - 1]);
      PartStep(t, PathsOf(list[..|list| - 1]), list[|list| - 1]);
    }
  }

  lemma {:induction false} PartAll(t: Tree)
    requires Inv(t)
    ensures Part(t, t.nodes.Keys) == Strip(t)
  {
    var u := Part(t, t.nodes.Keys);
    assert u.nodes == t.nodes;
    assert u.childrens == Strip(t).childrens;
    forall s | s in t.ephemerals
      ensures t.ephemerals[s] * t.nodes.Keys == t.ephemerals[s]
    {
      forall p | p in t.ephemerals[s]
        ensures p in t.nodes.Keys
      {
        assert OwnedExactly(t, s, p);
      }
    }
    assert u.ephemerals == t.ephemerals;
  }

  /** Recovering a fresh tree from a tree's node list, in any order, gives back the tree itself, less the
      empty entries of `childrens_`. */
  lemma {:induction false} RecoverExact(t: Tree, list: seq<NodeRecord>)
    requires Inv(t) && IsNodeList(list, t)
    ensures Recover(Fresh, list) == Strip(t)
    ensures NoEmpty(t) ==> Recover(Fresh, list) == t
  {
    RecoverPart(t, list);
    PartAll(t);
    StripKids(t);
  }

  // -------- Sessions --------

  ghost predicate IsSessionList(list: seq<SessionRecord>, sessions: map<nat, nat>) {
    && (forall i :: 0 <= i < |list| ==>
        list[i].sessionId in sessions && sessions[list[i].sessionId] == list[i].version)
    && (forall s :: s in sessions ==> exists i :: 0 <= i < |list| && list[i].sessionId == s)
  }

  /** `SessionManager::Recover`. */
  function RecoverSessions(sessions: map<nat, nat>, list: seq<SessionRecord>): map<nat, nat> {
    if list == [] then sessions
    else
      var r := list[|list| - 1];
      RecoverSessions(sessions, list[..|list| - 1])[r.sessionId := r.version]
  }

  /** Recovery of sessions keeps those that the list does not name, and the last record for a session wins. */
  lemma {:induction false} SessionsMerge(sessions: map<nat, nat>, list: seq<SessionRecord>, s: nat)
    ensures s in RecoverSessions(sessions, list) <==>
              s in sessions || exists i :: 0 <= i < |list| && list[i].sessionId == s
    ensures s in sessions && (forall i :: 0 <= i < |list| ==> list[i].sessionId != s) ==>
              RecoverSessions(sessions, list)[s] == sessions[s]
  {
    if list != [] {
      var n := |list| - 1;
      SessionsMerge(sessions, list[..n], s);
      assert forall i :: 0 <= i < n ==> list[..n][i] == list[i];
    }
  }

  lemma {:induction false} LastSessionWins(sessions: map<nat, nat>, list: seq<SessionRecord>, i: nat)
    requires i < |list| && forall j :: i < j < |list| ==> list[j].sessionId != list[i].sessionId
    ensures var m := RecoverSessions(sessions, list);
            list[i].sessionId in m && m[list[i].sessionId] == list[i].version
    decreases |list|
  {
    var n := |list| - 1;
    if i < n {
      LastSessionWins(sessions, list[..n], i);
      assert list[n].sessionId != list[i].sessionId;
    }
  }

  lemma {:induction false} SessionsExact(sessions: map<nat, nat>, list: seq<SessionRecord>, k: nat)
    requires IsSessionList(list, sessions) && k <= |list|
    ensures var m := RecoverSessions(map[], list[..k]);
            && (forall s :: s in m ==> s in sessions && m[s] == sessions[s])
            && (forall i :: 0 <= i < k ==> list[i].sessionId in m)
    ensures k == |list| ==> RecoverSessions(map[], list) == sessions
  {
    if k > 0 {
      SessionsExact(sessions, list, k - 1);
      assert list[..k][..k - 1] == list[..k - 1];
    }
    if k == |list| {
      assert list[..k] == list;
      assert RecoverSessions(map[], list).Keys == sessions.Keys;
    }
  }
}
