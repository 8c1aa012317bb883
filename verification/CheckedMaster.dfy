/** The master runs check-only forms of the writes before it proposes them; followers do not. A check of
    Create leaves an empty entry in `childrens_`, and Delete refuses a node that has an entry. Here is
    exactly when that makes the master answer differently from its followers. */
module CheckedMaster {
  import opened Proto
  import opened Paths
  import opened TreeModel
  import opened TreeInvariant
  import opened Checkpoint
  import opened ReplicatedLog
  import opened MasterRun
  import opened Recovery

  /** The entries a follower executes meanwhile. */
  function Entries(events: seq<Event>): seq<Entry> {
    if events == [] then []
    else Entries(events[..|events| - 1]) + (match events[|events| - 1] case Exec(e) => [e] case _ => [])
  }

  /** What the executed entries answered on the master. */
  function MasterReplies(db: Db, events: seq<Event>): (r: seq<Reply>)
    ensures |r| == |Entries(events)|
  {
    if events == [] then []
    else
      MasterReplies(db, events[..|events| - 1]) +
      (match events[|events| - 1]
       case Exec(e) => [Execute(Master(db, events[..|events| - 1]), e).reply]
       case _ => [])
  }

  function StripDb(db: Db): Db {
    db.(tree := Strip(db.tree))
  }

  /** The entry deletes a node that would go but for an empty entry in `childrens_`. */
  predicate MeetsResidue(db: Db, e: Entry) {
    && e.command.DeleteNode?
    && var DeleteRequest(path, version) := e.command.delete;
    && ParsePath(path).Parts? && path in db.tree.nodes
    && (version == -1 || version == db.tree.nodes[path].stat.version)
    && path in db.tree.childrens && db.tree.childrens[path] == {}
  }

  ghost predicate NeverMeetsResidue(db: Db, events: seq<Event>) {
    forall k :: 0 <= k < |events| && events[k].Exec? ==> !MeetsResidue(Master(db, events[..k]), events[k].entry)
  }

  // -------- Stripping commutes with the operations --------

  /** Dropping empty entries leaves a nonempty one that is put in. */
  lemma {:induction false} StripWith(t: Tree, q: string, kids: set<string>)
    requires kids != {}
    ensures Strip(t.(childrens := t.childrens[q := kids])).childrens == Strip(t).childrens[q := kids]
  {
  }

  lemma {:induction false} StripLink(t: Tree, parent: string, name: string, request: CreateRequest, txn: Transaction)
    requires parent in t.nodes
    ensures Link(Strip(t), parent, name, request, txn) == Strip(Link(t, parent, name, request, txn))
  {
    var kids := Kids(t, parent) + {name};
    assert name in kids;
    StripKids(t);
    StripWith(t, parent, kids);
    assert Link(Strip(t), parent, name, request, txn).childrens == Strip(t).childrens[parent := kids];
    assert Link(t, parent, name, request, txn).childrens == t.childrens[parent := kids];
  }

  lemma {:induction false} StripCreate(t: Tree, request: CreateRequest, txn: Transaction)
    ensures var r := Create(t, request, txn); Create(Strip(t), request, txn) == Outcome(Strip(r.tree), r.response)
  {
    StripKids(t);
    if CreateCode(t, request, false) == Ok {
      var Parts(parent, child) := ParsePath(request.path);
      StripLink(t, parent, NameUnder(t.nodes[parent], child), request, txn);
    }
  }

  lemma {:induction false} StripUnlink(t: Tree, path: string, parent: string, child: string, id: nat)
    requires path in t.nodes && child in Kids(t, parent)
    ensures Unlink(Strip(t), path, parent, child, id) == Strip(Unlink(t, path, parent, child, id))
  {
    var u, v := Unlink(Strip(t), path, parent, child, id), Strip(Unlink(t, path, parent, child, id));
    assert u.childrens == v.childrens;
  }

  lemma {:induction false} StripDelete(t: Tree, request: DeleteRequest, id: nat)
    requires Inv(t)
    requires !(DeleteCode(t, request, false) == ChildrenExists && Kids(t, request.path) == {})
    ensures var r := Delete(t, request, id); Delete(Strip(t), request, id) == Outcome(Strip(r.tree), r.response)
  {
    StripKids(t);
    DeleteFindsParent(t, request);
    if DeleteCode(t, request, false) == Ok {
      assert HasParent(t, request.path);
      var Parts(parent, child) := ParsePath(request.path);
      StripUnlink(t, request.path, parent, child, id);
    }
  }

  lemma {:induction false} StripLost(t: Tree, gone: set<string>)
    ensures forall q :: Kids(Strip(t), q) == Kids(t, q) && Lost(Strip(t), q, gone) == Lost(t, q, gone)
  {
    StripKids(t);
  }

  lemma {:induction false} StripPurgeChildrens(t: Tree, gone: set<string>, id: nat)
    ensures Purge(Strip(t), gone, id).childrens == Strip(Purge(t, gone, id)).childrens
  {
    StripLost(t, gone);
    var u, v := Purge(Strip(t), gone, id).childrens, Strip(Purge(t, gone, id)).childrens;
    forall q
      ensures (q in u <==> q in v) && (q in u ==> u[q] == v[q])
    {
      assert Lost(Strip(t), q, gone) == Lost(t, q, gone);
    }
  }

  lemma {:induction false} StripPurge(t: Tree, gone: set<string>, id: nat)
    ensures Purge(Strip(t), gone, id) == Strip(Purge(t, gone, id))
  {
    StripLost(t, gone);
    StripPurgeChildrens(t, gone, id);
    assert Purge(Strip(t), gone, id).nodes == Purge(t, gone, id).nodes;
  }

  lemma {:induction false} StripClose(db: Db, closings: seq<Closing>, id: nat)
    ensures CloseEach(StripDb(db), closings, id) == StripDb(CloseEach(db, closings, id))
  {
    if closings != [] {
      var n := |closings| - 1;
      StripClose(db, closings[..n], id);
      var t, s := CloseEach(db, closings[..n], id).tree, closings[n].sessionId;
      StripPurge(Disown(t, s), OwnedBy(t, s), id);
    }
  }

  lemma {:induction false} StripWrite(t: Tree, request: SetDataRequest, txn: Transaction)
    ensures var r := SetData(t, request, txn); SetData(Strip(t), request, txn) == Outcome(Strip(r.tree), r.response)
  {
  }

  ghost predicate Commutes(db: Db, e: Entry) {
    var r := Execute(db, e);
    Execute(StripDb(db), e) == Stepped(StripDb(r.db), r.reply)
  }

  lemma {:induction false} CreateCommutes(db: Db, e: Entry)
    requires e.command.CreateNode?
    ensures Commutes(db, e)
  {
    StripCreate(db.tree, e.command.create, TxnOf(db, e));
  }

  lemma {:induction false} DeleteCommutes(db: Db, e: Entry)
    requires e.command.DeleteNode?
    requires var r := Delete(db.tree, e.command.delete, e.instanceId);
             Delete(Strip(db.tree), e.command.delete, e.instanceId) == Outcome(Strip(r.tree), r.response)
    ensures Commutes(db, e)
  {
  }

  lemma {:induction false} WriteCommutes(db: Db, e: Entry)
    requires e.command.WriteNode?
    ensures Commutes(db, e)
  {
    StripWrite(db.tree, e.command.write, TxnOf(db, e));
  }

  lemma {:induction false} SessionsCommute(db: Db, e: Entry)
    requires e.command.Connect? || e.command.CloseSessions? || e.command.InvalidCommand?
    ensures Commutes(db, e)
  {
    if e.command.CloseSessions? {
      StripClose(db, e.command.closings, e.instanceId);
    }
  }

  lemma {:induction false} StripExecute(db: Db, e: Entry)
    requires Inv(db.tree) && !MeetsResidue(db, e)
    ensures Commutes(db, e)
  {
    match e.command
    case CreateNode(_) => CreateCommutes(db, e);
    case DeleteNode(request) =>
      StripDelete(db.tree, request, e.instanceId);
      DeleteCommutes(db, e);
    case WriteNode(_) => WriteCommutes(db, e);
    case _ => SessionsCommute(db, e);
  }

  /** Where residue is met, the master refuses what a follower does. */
  lemma {:induction false} ResidueDiverges(db: Db, e: Entry)
    requires Inv(db.tree) && MeetsResidue(db, e)
    ensures Execute(db, e).reply == DeleteReply(ChildrenExists)
    ensures Execute(StripDb(db), e).reply == DeleteReply(Ok)
  {
    StripKids(db.tree);
    var path := e.command.delete.path;
    assert path in db.tree.nodes && path != "" ==> HasParent(db.tree, path);
  }

  // -------- Whole runs --------

  lemma {:induction false} CheckIsStripped(t: Tree, request: CreateRequest)
    ensures Strip(CheckCreate(t, request).tree) == Strip(t)
  {
    assert Strip(CheckCreate(t, request).tree).childrens == Strip(t).childrens;
  }

  ghost predicate Agree(db: Db, events: seq<Event>) {
    MasterReplies(db, events) == Replies(db, Entries(events))
  }

  lemma {:induction false} SimulateExec(db: Db, before: seq<Event>, e: Entry)
    requires Inv(db.tree) && OwnedEvents(before) && OwnedEntry(e)
    requires After(db, Entries(before)) == StripDb(Master(db, before)) && Agree(db, before)
    ensures Agree(db, before + [Exec(e)]) <==> !MeetsResidue(Master(db, before), e)
    ensures !MeetsResidue(Master(db, before), e) ==>
              After(db, Entries(before + [Exec(e)])) == StripDb(Master(db, before + [Exec(e)]))
  {
    var events, master := before + [Exec(e)], Master(db, before);
    assert events[..|before|] == before;
    assert Entries(events)[..|Entries(before)|] == Entries(before);
    MasterInv(db, before);
    if MeetsResidue(master, e) {
      ResidueDiverges(master, e);
      assert MasterReplies(db, events)[|Entries(before)|] != Replies(db, Entries(events))[|Entries(before)|];
    } else {
      StripExecute(master, e);
    }
  }

  lemma {:induction false} DisagreeForever(db: Db, before: seq<Event>, event: Event)
    requires !Agree(db, before)
    ensures !Agree(db, before + [event])
  {
    var events, n := before + [event], |Entries(before)|;
    assert events[..|before|] == before;
    assert Entries(events)[..n] == Entries(before);
    assert MasterReplies(db, events)[..n] == MasterReplies(db, before);
    RunAppend(db, Entries(before), Entries(events)[n..]);
    assert Entries(before) + Entries(events)[n..] == Entries(events);
    assert Replies(db, Entries(events))[..n] == Replies(db, Entries(before));
  }

  lemma {:induction false} NeverMeetsNext(db: Db, before: seq<Event>, event: Event)
    ensures NeverMeetsResidue(db, before + [event]) <==>
              NeverMeetsResidue(db, before) && (event.Exec? ==> !MeetsResidue(Master(db, before), event.entry))
  {
    var events, n := before + [event], |before|;
    assert forall k :: 0 <= k <= n ==> before[..k] == events[..k];
    assert forall k :: 0 <= k < n ==> before[k] == events[k];
    assert events[n] == event && before[..n] == before;
  }

  /** The checked master simulates an unchecked follower, and answers as the follower does for exactly those
      runs in which no executed Delete meets an empty entry. Until then the two states differ by empty
      entries only. */
  lemma {:induction false} MasterSimulatesFollower(db: Db, events: seq<Event>)
    requires Inv(db.tree) && NoEmpty(db.tree) && OwnedEvents(events)
    ensures NeverMeetsResidue(db, events) ==> After(db, Entries(events)) == StripDb(Master(db, events))
    ensures Agree(db, events) <==> NeverMeetsResidue(db, events)
  {
    if events == [] {
      StripKids(db.tree);
    } else {
      var n := |events| - 1;
      var before, event := events[..n], events[n];
      assert before + [event] == events;
      MasterSimulatesFollower(db, before);
      NeverMeetsNext(db, before, event);
      if !NeverMeetsResidue(db, before) {
        DisagreeForever(db, before, event);
      } else if event.Exec? {
        SimulateExec(db, before, event.entry);
      } else {
        assert Entries(events) == Entries(before);
        assert MasterReplies(db, events) == MasterReplies(db, before);
        if event.TryCreate? {
          CheckIsStripped(Master(db, before).tree, event.create);
        }
      }
    }
  }

  /** A checkpoint taken on a checked master restores the state of the unchecked follower. */
  lemma {:induction false} CheckedSnapshot(group: nat, events: seq<Event>, nodes: seq<NodeRecord>,
                                           sessions: seq<SessionRecord>)
    requires OwnedEvents(events) && NeverMeetsResidue(InitialDb(group), events)
    requires IsCheckpoint(nodes, sessions, Master(InitialDb(group), events))
    ensures Restored(group, nodes, sessions) == After(InitialDb(group), Entries(events))
  {
    FreshInv();
    MasterInv(InitialDb(group), events);
    MasterSimulatesFollower(InitialDb(group), events);
    RestoreExact(Master(InitialDb(group), events), nodes, sessions);
  }

  function CreateA(a: string): Entry {
    Entry(1, 0, 7, CreateNode(CreateRequest(Persistent, Join("", a), [])))
  }

  function CheckB(a: string, b: string): Event {
    TryCreate(CreateRequest(Persistent, Join(Join("", a), b), []))
  }

  function DeleteA(a: string): Entry {
    Entry(2, 0, 7, DeleteNode(DeleteRequest(Join("", a), -1)))
  }

  lemma {:induction false} AfterCreateA(group: nat, a: string)
    requires IsName(a)
    ensures var r := Execute(InitialDb(group), CreateA(a));
            && r.reply == CreateReply(CreateResponse(Ok, Join("", a)))
            && HasLeaf(r.db.tree, Join("", a))
  {
    ParseExact(Join("", a), "", a);
  }

  /** The check of a create under a node without children leaves an empty entry. */
  lemma {:induction false} CheckLeavesEntry(t: Tree, q: string, b: string, request: CreateRequest)
    requires q in t.nodes && t.nodes[q].nodeType == Persistent && q !in t.childrens
    requires IsName(b) && request.path == Join(q, b)
    ensures CheckCreate(t, request).tree == t.(childrens := t.childrens[q := {}])
  {
    ParseExact(request.path, q, b);
  }

  lemma {:induction false} EntryDecides(t: Tree, a: string)
    requires IsName(a) && "" in t.nodes && Join("", a) in t.nodes
    ensures var code := DeleteCode(t, DeleteRequest(Join("", a), -1), false);
            code == if Join("", a) in t.childrens then ChildrenExists else Ok
  {
    ParseExact(Join("", a), "", a);
  }

  /** The node /a is there, without an entry for its children. */
  ghost predicate HasLeaf(t: Tree, q: string) {
    "" in t.nodes && q in t.nodes && t.nodes[q].nodeType == Persistent && q !in t.childrens
  }

  lemma {:induction false} FollowerDeletes(db: Db, a: string)
    requires IsName(a) && HasLeaf(db.tree, Join("", a))
    ensures Execute(db, DeleteA(a)).reply == DeleteReply(Ok)
  {
    EntryDecides(db.tree, a);
  }

  lemma {:induction false} MasterRefuses(db: Db, a: string)
    requires IsName(a) && "" in db.tree.nodes && Join("", a) in db.tree.nodes && Join("", a) in db.tree.childrens
    ensures Execute(db, DeleteA(a)).reply == DeleteReply(ChildrenExists)
  {
    EntryDecides(db.tree, a);
  }

  lemma {:induction false} CheckTouches(db: Db, a: string, b: string)
    requires IsName(b) && HasLeaf(db.tree, Join("", a))
    ensures var t := MasterStep(db, CheckB(a, b)).tree;
            t.nodes == db.tree.nodes && Join("", a) in t.childrens
  {
    CheckLeavesEntry(db.tree, Join("", a), b, CheckB(a, b).create);
  }

  lemma {:induction false} ResidueOfB(db: Db, a: string, b: string)
    requires IsName(a) && IsName(b) && HasLeaf(db.tree, Join("", a))
    ensures Execute(MasterStep(db, CheckB(a, b)), DeleteA(a)).reply == DeleteReply(ChildrenExists)
    ensures Execute(db, DeleteA(a)).reply == DeleteReply(Ok)
  {
    CheckTouches(db, a, b);
    MasterRefuses(MasterStep(db, CheckB(a, b)), a);
    FollowerDeletes(db, a);
  }

  /** A run that has executed these entries, has answered this and has come to this state. */
  ghost predicate Ran(db: Db, events: seq<Event>, now: Db, log: seq<Entry>, replies: seq<Reply>) {
    Master(db, events) == now && Entries(events) == log && MasterReplies(db, events) == replies
  }

  lemma {:induction false} RanExec(db: Db, events: seq<Event>, now: Db, log: seq<Entry>, replies: seq<Reply>, e: Entry)
    requires Ran(db, events, now, log, replies)
    ensures Ran(db, events + [Exec(e)], Execute(now, e).db, log + [e], replies + [Execute(now, e).reply])
  {
    MasterSnoc(db, events, Exec(e));
  }

  lemma {:induction false} RanCheck(db: Db, events: seq<Event>, now: Db, log: seq<Entry>, replies: seq<Reply>,
                                    check: Event)
    requires Ran(db, events, now, log, replies) && !check.Exec?
    ensures Ran(db, events + [check], MasterStep(now, check), log, replies)
  {
    MasterSnoc(db, events, check);
  }

  lemma {:induction false} ThreeOnMaster(db: Db, first: Entry, check: Event, second: Entry)
    requires !check.Exec?
    ensures var events := [Exec(first), check, Exec(second)];
            var after := Execute(db, first);
            && Entries(events) == [first, second]
            && MasterReplies(db, events) == [after.reply, Execute(MasterStep(after.db, check), second).reply]
  {
    var after := Execute(db, first);
    var checked := MasterStep(after.db, check);
    RanExec(db, [], db, [], [], first);
    assert [] + [Exec(first)] == [Exec(first)] && [] + [first] == [first] && [] + [after.reply] == [after.reply];
    RanCheck(db, [Exec(first)], after.db, [first], [after.reply], check);
    assert [Exec(first)] + [check] == [Exec(first), check];
    RanExec(db, [Exec(first), check], checked, [first], [after.reply], second);
    assert [Exec(first), check] + [Exec(second)] == [Exec(first), check, Exec(second)];
  }

  lemma {:induction false} TwoOnFollower(db: Db, first: Entry, second: Entry)
    ensures Replies(db, [first, second]) == [Execute(db, first).reply, Execute(Execute(db, first).db, second).reply]
  {
    RunAppend(db, [first], [second]);
    RunOne(db, first);
    RunOne(Execute(db, first).db, second);
  }

  lemma {:induction false} RunOne(db: Db, e: Entry)
    ensures After(db, [e]) == Execute(db, e).db && Replies(db, [e]) == [Execute(db, e).reply]
  {
    assert [e][..0] == [];
  }

  lemma {:induction false} MasterSnoc(db: Db, before: seq<Event>, event: Event)
    ensures var events := before + [event];
            && Master(db, events) == MasterStep(Master(db, before), event)
            && Entries(events) == (if event.Exec? then Entries(before) + [event.entry] else Entries(before))
            && MasterReplies(db, events) ==
               if event.Exec? then MasterReplies(db, before) + [Execute(Master(db, before), event.entry).reply]
               else MasterReplies(db, before)
  {
    assert (before + [event])[..|before|] == before;
  }

  /** The exception is reachable with any names: create /a, check a create of /a/b that is never proposed,
      delete /a. */
  lemma {:induction false} ResidueIsReachable(group: nat, a: string, b: string)
    requires IsName(a) && IsName(b)
    ensures var events := [Exec(CreateA(a)), CheckB(a, b), Exec(DeleteA(a))];
            var created := CreateReply(CreateResponse(Ok, Join("", a)));
            && MasterReplies(InitialDb(group), events) == [created, DeleteReply(ChildrenExists)]
            && Replies(InitialDb(group), Entries(events)) == [created, DeleteReply(Ok)]
  {
    AfterCreateA(group, a);
    ResidueOfB(Execute(InitialDb(group), CreateA(a)).db, a, b);
    ThreeOnMaster(InitialDb(group), CreateA(a), CheckB(a, b), DeleteA(a));
    TwoOnFollower(InitialDb(group), CreateA(a), DeleteA(a));
  }
}
