/** `SaberClient` keeps every outstanding request twice: in the queue of its kind, for the callback, and in
    `outgoing_queue_`, for sending it again on the next connection. Together they behave as one FIFO. */
module ClientQueues {
  import opened Proto

  datatype Kind = Creating | Deleting | Testing | Reading | Writing | Listing

  datatype Out = Out(kind: Kind, id: nat)

  // `answered` is false for the callbacks made with RC_UNKNOWN.
  datatype Callback = Callback(request: Out, answered: bool)

  /** `up` is an established connection, `sent` the requests written to it, `called` all callbacks made. */
  datatype Client = Client(
    messageId: nat,
    up: bool,
    canSend: bool,
    queues: map<Kind, seq<nat>>,
    outgoing: seq<Out>,
    sent: seq<Out>,
    called: seq<Callback>)

  /** The deque of a kind; an absent entry is an empty deque. */
  function QueueOf(queues: map<Kind, seq<nat>>, kind: Kind): seq<nat> {
    if kind in queues then queues[kind] else []
  }

  const UINT32 := 0x1_0000_0000

  const NewClient := Client(0, false, false, map[], [], [], [])

  function Bump(id: nat): nat {
    (id + 1) % UINT32
  }

  // -------- A reply, without relying on the asserts of the code --------

  datatype Answer = Answer(rest: seq<nat>, called: seq<Callback>)

  /** `OnCreate` and its five siblings: older requests are called with RC_UNKNOWN; a front that is newer than the
      reply is popped and lost. */
  function Answered(kind: Kind, queue: seq<nat>, id: nat): Answer {
    if queue == [] then Answer([], [])
    else if queue[0] < id then
      var a := Answered(kind, queue[1..], id);
      Answer(a.rest, [Callback(Out(kind, queue[0]), false)] + a.called)
    else
      Answer(queue[1..], if queue[0] == id then [Callback(Out(kind, id), true)] else [])
  }

  /** The loop at the end of OnMessage. */
  function Popped(outgoing: seq<Out>, id: nat): seq<Out> {
    if outgoing == [] || id < outgoing[0].id then outgoing else Popped(outgoing[1..], id)
  }

  datatype Event =
    | Request(kind: Kind)
    | Connected
    | Refused
    | Accepted
    | Disconnected
    | Reply(kind: Kind, id: nat)
    | Clear

  function After(c: Client, event: Event): Client
  {
    match event
    case Request(kind) =>
      var id := Bump(c.messageId);
      c.(messageId := id,
         queues := c.queues[kind := QueueOf(c.queues, kind) + [id]],
         outgoing := c.outgoing + [Out(kind, id)],
         sent := if c.canSend then c.sent + [Out(kind, id)] else c.sent)
    case Connected =>
      // The CONNECT message takes the current id and moves the counter on.
      c.(up := true, sent := [], messageId := Bump(c.messageId))
    case Refused =>
      c.(messageId := Bump(c.messageId))
    case Accepted =>
      c.(canSend := true, sent := c.sent + c.outgoing)
    case Disconnected =>
      c.(up := false, canSend := false)
    case Reply(kind, id) =>
      var a := Answered(kind, QueueOf(c.queues, kind), id);
      c.(queues := c.queues[kind := a.rest], called := c.called + a.called, outgoing := Popped(c.outgoing, id))
    case Clear =>
      c.(queues := map[], outgoing := [])
  }

  /** The environment: a connection is accepted once, and a reply answers the oldest outstanding request, as the
      code asserts. */
  predicate Enabled(c: Client, event: Event) {
    match event
    case Connected => !c.up
    case Refused => c.up && !c.canSend
    case Accepted => c.up && !c.canSend
    case Reply(kind, id) => c.canSend && c.outgoing != [] && c.outgoing[0] == Out(kind, id)
    case _ => true
  }

  // -------- The object --------

  /** The loop of a reply handler has `request` in its hand and has made these calls. */
  ghost predicate Popping(kind: Kind, queue: seq<nat>, id: nat, request: nat, rest: seq<nat>, calls: seq<Callback>) {
    var a := Answered(kind, [request] + rest, id);
    Answer(a.rest, calls + a.called) == Answered(kind, queue, id)
  }

  lemma {:induction false} PopOlder(kind: Kind, queue: seq<nat>, id: nat, request: nat, rest: seq<nat>,
                                    calls: seq<Callback>)
    requires Popping(kind, queue, id, request, rest, calls) && request < id
    ensures var made := calls + [Callback(Out(kind, request), false)];
            var a := Answered(kind, rest, id);
            Answer(a.rest, made + a.called) == Answered(kind, queue, id)
    ensures rest == [] ==>
              Answered(kind, queue, id) == Answer([], calls + [Callback(Out(kind, request), false)])
  {
    var a, call := Answered(kind, rest, id), [Callback(Out(kind, request), false)];
    assert ([request] + rest)[1..] == rest;
    assert calls + (call + a.called) == (calls + call) + a.called;
  }

  lemma {:induction false} PopLast(kind: Kind, queue: seq<nat>, id: nat, request: nat, rest: seq<nat>,
                                   calls: seq<Callback>)
    requires Popping(kind, queue, id, request, rest, calls) && request >= id
    ensures Answered(kind, queue, id) ==
            Answer(rest, if id == request then calls + [Callback(Out(kind, id), true)] else calls)
  {
    assert ([request] + rest)[1..] == rest;
  }

  class SaberClient {
    var messageId: nat
    var up: bool
    var canSend: bool
    var queues: map<Kind, seq<nat>>
    var outgoing: seq<Out>
    var sent: seq<Out>
    var called: seq<Callback>

    function View(): Client
      reads this
    {
      Client(messageId, up, canSend, queues, outgoing, sent, called)
    }

    constructor ()
      ensures View() == NewClient
    {
      messageId, up, canSend := 0, false, false;
      queues := map[];
      outgoing, sent, called := [], [], [];
    }

    /** Create, Delete, Exists, GetData, SetData and GetChildren in the loop thread. */
    method Issue(kind: Kind)
      modifies this
      ensures View() == After(old(View()), Request(kind))
      ensures messageId == (old(messageId) + 1) % UINT32 && outgoing == old(outgoing) + [Out(kind, messageId)]
      ensures QueueOf(queues, kind) == QueueOf(old(queues), kind) + [messageId]
      ensures sent == old(sent) + (if canSend then [Out(kind, messageId)] else [])
    {
      messageId := (messageId + 1) % UINT32;
      queues := queues[kind := QueueOf(queues, kind) + [messageId]];
      outgoing := outgoing + [Out(kind, messageId)];
      if canSend {
        sent := sent + [outgoing[|outgoing| - 1]];
      }
    }

    method OnConnect(accepted: bool)
      modifies this
      ensures View() == After(old(View()), if accepted then Accepted else Refused)
      ensures accepted ==> canSend && sent == old(sent) + outgoing && messageId == old(messageId)
      ensures !accepted ==> messageId == (old(messageId) + 1) % UINT32 && sent == old(sent) && canSend == old(canSend)
      ensures queues == old(queues) && outgoing == old(outgoing) && called == old(called)
    {
      if accepted {
        var i := 0;
        assert outgoing[..0] == [];
        while i < |outgoing|
          invariant 0 <= i <= |outgoing|
          invariant sent == old(sent) + outgoing[..i]
          invariant messageId == old(messageId) && up == old(up) && canSend == old(canSend)
          invariant queues == old(queues) && outgoing == old(outgoing) && called == old(called)
        {
          assert outgoing[..i + 1] == outgoing[..i] + [outgoing[i]];
          sent := sent + [outgoing[i]];
          i := i + 1;
        }
        assert outgoing[..i] == outgoing;
        canSend := true;
      } else {
        messageId := (messageId + 1) % UINT32;
      }
    }

    method OnMessage(kind: Kind, id: nat)
      modifies this
      ensures View() == After(old(View()), Reply(kind, id))
    {
      OnReply(kind, id);
      while outgoing != [] && id >= outgoing[0].id
        invariant Popped(outgoing, id) == Popped(old(outgoing), id)
        invariant View() == After(old(View()), Reply(kind, id)).(outgoing := outgoing)
        decreases |outgoing|
      {
        outgoing := outgoing[1..];
      }
    }

    method OnReply(kind: Kind, id: nat)
      modifies this`queues, this`called
      ensures var a := Answered(kind, QueueOf(old(queues), kind), id);
              queues == old(queues)[kind := a.rest] && called == old(called) + a.called
    {
      var queue := QueueOf(queues, kind);
      var made := Pop(kind, queue, id);
      queues := queues[kind := made.rest];
      called := called + made.called;
    }

    /** The loop of a reply handler over the deque of its kind. */
    method Pop(kind: Kind, queue: seq<nat>, id: nat) returns (made: Answer)
      ensures made == Answered(kind, queue, id)
    {
      if queue == [] {
        return Answer([], []);
      }
      var request, rest, calls := queue[0], queue[1..], [];
      assert [request] + rest == queue;
      while id > request
        invariant Popping(kind, queue, id, request, rest, calls)
        decreases |rest|
      {
        PopOlder(kind, queue, id, request, rest, calls);
        calls := calls + [Callback(Out(kind, request), false)];
        if rest == [] {
          return Answer([], calls);
        }
        assert rest == [rest[0]] + rest[1..];
        request, rest := rest[0], rest[1..];
      }
      PopLast(kind, queue, id, request, rest, calls);
      return Answer(rest, if id == request then calls + [Callback(Out(kind, id), true)] else calls);
    }

    method ClearMessage()
      modifies this
      ensures View() == After(old(View()), Clear)
      ensures outgoing == [] && (forall kind :: QueueOf(queues, kind) == []) && called == old(called)
    {
      queues := map[];
      outgoing := [];
    }
  }

  // -------- Runs --------

  /** The client with all it ever issued and all that ClearMessage threw away. */
  datatype Traced = Traced(client: Client, issued: seq<Out>, cleared: seq<Out>)

  function TracedAfter(t: Traced, event: Event): Traced {
    var c := After(t.client, event);
    match event
    case Request(kind) => Traced(c, t.issued + [Out(kind, c.messageId)], t.cleared)
    case Clear => Traced(c, t.issued, t.cleared + t.client.outgoing)
    case _ => t.(client := c)
  }

  function Run(events: seq<Event>): Option<Traced> {
    if events == [] then Some(Traced(NewClient, [], []))
    else
      var t := Run(events[..|events| - 1]);
      if t.Some? && Enabled(t.value.client, events[|events| - 1])
      then Some(TracedAfter(t.value, events[|events| - 1])) else None
  }

  // -------- One FIFO --------

  ghost predicate Sorted(s: seq<Out>) {
    forall i, j :: 0 <= i < j < |s| ==> s[i].id < s[j].id
  }

  /** The ids of one kind, in order. */
  function Project(s: seq<Out>, kind: Kind): seq<nat> {
    if s == [] then []
    else (if s[0].kind == kind then [s[0].id] else []) + Project(s[1..], kind)
  }

  /** Each typed queue is the part of `outgoing_queue_` of its kind, and that one is sorted by id. */
  ghost predicate InStep(c: Client) {
    && Sorted(c.outgoing)
    && (forall kind :: QueueOf(c.queues, kind) == Project(c.outgoing, kind))
    && (forall i :: 0 <= i < |c.outgoing| ==> c.outgoing[i].id <= c.messageId)
  }

  lemma {:induction false} ProjectSnoc(s: seq<Out>, o: Out, kind: Kind)
    ensures Project(s + [o], kind) == Project(s, kind) + (if o.kind == kind then [o.id] else [])
  {
    var last := if o.kind == kind then [o.id] else [];
    if s == [] {
      assert s + [o] == [o] && [o][1..] == [];
    } else {
      var t, rest := s + [o], Project(s[1..], kind);
      var head := if s[0].kind == kind then [s[0].id] else [];
      assert t[0] == s[0] && t[1..] == s[1..] + [o];
      ProjectSnoc(s[1..], o, kind);
      assert head + (rest + last) == (head + rest) + last;
    }
  }

  lemma {:induction false} ProjectIn(s: seq<Out>, kind: Kind, id: nat)
    ensures id in Project(s, kind) <==> Out(kind, id) in s
  {
    if s != [] {
      ProjectIn(s[1..], kind, id);
      assert s == [s[0]] + s[1..];
    }
  }

  /** The typed queues merged by id are `outgoing_queue_`: no other sorted sequence has these parts. */
  lemma {:induction false} MergeIsUnique(a: seq<Out>, b: seq<Out>)
    requires Sorted(a) && Sorted(b) && forall kind :: Project(a, kind) == Project(b, kind)
    ensures a == b
  {
    forall o
      ensures o in a <==> o in b
    {
      ProjectIn(a, o.kind, o.id);
      ProjectIn(b, o.kind, o.id);
    }
    SortedUnique(a, b);
  }

  lemma {:induction false} HasMember<T>(s: seq<T>) returns (o: T)
    requires s != []
    ensures o in s
  {
    o := s[0];
  }

  lemma {:induction false} SortedUnique(a: seq<Out>, b: seq<Out>)
    requires Sorted(a) && Sorted(b) && forall o :: o in a <==> o in b
    ensures a == b
  {
    if a == [] && b != [] {
      var o := HasMember(b);
    } else if b == [] && a != [] {
      var o := HasMember(a);
    } else if a != [] {
      assert a[0] in b && b[0] in a;
      assert a[0] == b[0];
      assert a == [a[0]] + a[1..] && b == [b[0]] + b[1..];
      forall o
        ensures o in a[1..] <==> o in b[1..]
      {
        assert o in a <==> o in b;
      }
      SortedUnique(a[1..], b[1..]);
    }
  }

  /** A reply that answers the front takes just it off both queues and makes its callback. */
  lemma {:induction false} ReplyToFront(c: Client, kind: Kind, id: nat)
    requires InStep(c) && c.outgoing != [] && c.outgoing[0] == Out(kind, id)
    ensures var d := After(c, Reply(kind, id));
            && d.outgoing == c.outgoing[1..]
            && d.called == c.called + [Callback(Out(kind, id), true)]
            && InStep(d)
  {
    var d := After(c, Reply(kind, id));
    assert QueueOf(c.queues, kind) == [id] + Project(c.outgoing[1..], kind);
    assert Popped(c.outgoing, id) == c.outgoing[1..];
    forall k
      ensures QueueOf(d.queues, k) == Project(d.outgoing, k)
    {
      assert QueueOf(c.queues, k) == Project(c.outgoing, k);
    }
  }

  // -------- Any reply at all --------

  ghost predicate Rising(s: seq<nat>) {
    forall i, j :: 0 <= i < j < |s| ==> s[i] < s[j]
  }

  lemma {:induction false} RisingUnique(a: seq<nat>, b: seq<nat>)
    requires Rising(a) && Rising(b) && forall x :: x in a <==> x in b
    ensures a == b
  {
    if a == [] && b != [] {
      var x := HasMember(b);
    } else if b == [] && a != [] {
      var x := HasMember(a);
    } else if a != [] {
      assert a[0] in b && b[0] in a;
      assert a == [a[0]] + a[1..] && b == [b[0]] + b[1..];
      forall x
        ensures x in a[1..] <==> x in b[1..]
      {
        assert x in a <==> x in b;
      }
      RisingUnique(a[1..], b[1..]);
    }
  }

  lemma {:induction false} RisingCons(x: nat, s: seq<nat>)
    requires Rising(s) && forall y :: y in s ==> x < y
    ensures Rising([x] + s)
  {
    assert forall j :: 0 <= j < |s| ==> s[j] in s;
  }

  lemma {:induction false} ProjectRises(s: seq<Out>, kind: Kind)
    requires Sorted(s)
    ensures Rising(Project(s, kind))
  {
    if s != [] {
      ProjectRises(s[1..], kind);
      forall x | x in Project(s[1..], kind)
        ensures s[0].id < x
      {
        ProjectIn(s[1..], kind, x);
      }
      RisingCons(s[0].id, Project(s[1..], kind));
    }
  }

  /** The loop at the end of OnMessage leaves exactly the newer requests. */
  lemma {:induction false} PoppedLeavesNewer(s: seq<Out>, id: nat)
    requires Sorted(s)
    ensures Sorted(Popped(s, id))
    ensures forall o :: o in Popped(s, id) <==> o in s && o.id > id
  {
    if s != [] && s[0].id <= id {
      PoppedLeavesNewer(s[1..], id);
      assert s == [s[0]] + s[1..];
    }
  }

  /** A request stays in the queue of the reply's kind exactly if another one, not older than the reply, was in
      front of it. */
  ghost predicate Spared(queue: seq<nat>, id: nat, x: nat) {
    x in queue && exists y :: y in queue && id <= y < x
  }

  /** A front older than the reply spares nobody. */
  lemma {:induction false} SparedWithoutFront(queue: seq<nat>, id: nat, x: nat)
    requires Rising(queue) && queue != [] && queue[0] < id
    ensures Spared(queue, id, x) <==> Spared(queue[1..], id, x)
  {
    assert forall y :: y in queue <==> y == queue[0] || y in queue[1..] by {
      assert queue == [queue[0]] + queue[1..];
    }
    if Spared(queue, id, x) {
      var y :| y in queue && id <= y < x;
      assert y in queue[1..];
    }
    if Spared(queue[1..], id, x) {
      var y :| y in queue[1..] && id <= y < x;
      assert y in queue;
    }
  }

  /** Any other front spares all behind it. */
  lemma {:induction false} SparedBehindFront(queue: seq<nat>, id: nat, x: nat)
    requires Rising(queue) && queue != [] && queue[0] >= id
    ensures Spared(queue, id, x) <==> x in queue[1..]
  {
    assert forall y :: y in queue <==> y == queue[0] || y in queue[1..] by {
      assert queue == [queue[0]] + queue[1..];
    }
    if x in queue[1..] {
      assert queue[0] in queue && id <= queue[0] < x;
    }
  }

  lemma {:induction false} AnsweredSpares(kind: Kind, queue: seq<nat>, id: nat)
    requires Rising(queue)
    ensures Rising(Answered(kind, queue, id).rest)
    ensures forall x: nat :: x in Answered(kind, queue, id).rest <==> Spared(queue, id, x)
  {
    if queue != [] {
      if queue[0] < id {
        AnsweredSpares(kind, queue[1..], id);
      }
      forall x: nat
        ensures x in Answered(kind, queue, id).rest <==> Spared(queue, id, x)
      {
        if queue[0] < id {
          SparedWithoutFront(queue, id, x);
        } else {
          SparedBehindFront(queue, id, x);
        }
      }
    }
  }

  /** The callbacks that a reply makes: of all requests in its queue up to its id, in order, each once; with the
      answer for the one it names and with RC_UNKNOWN for the others. */
  ghost predicate CallsUpTo(called: seq<Callback>, kind: Kind, queue: seq<nat>, id: nat) {
    && Sorted(Requests(called))
    && (forall b :: b in called ==> b.request.kind == kind && b.request.id in queue && b.request.id <= id)
    && (forall b :: b in called ==> (b.answered <==> b.request.id == id))
    && (forall x: nat :: x in queue && x <= id ==> Callback(Out(kind, x), x == id) in called)
  }

  lemma {:induction false} SortedCons(o: Out, s: seq<Out>)
    requires Sorted(s) && forall x :: x in s ==> o.id < x.id
    ensures Sorted([o] + s)
  {
    assert forall j :: 0 <= j < |s| ==> s[j] in s;
  }

  lemma {:induction false} CallsConsSorted(first: Callback, called: seq<Callback>)
    requires Sorted(Requests(called)) && forall b :: b in called ==> first.request.id < b.request.id
    ensures Sorted(Requests([first] + called))
  {
    assert forall i :: 0 <= i < |called| ==> called[i] in called;
    SortedCons(first.request, Requests(called));
    assert Requests([first] + called) == [first.request] + Requests(called);
  }

  lemma {:induction false} CallsCons(kind: Kind, queue: seq<nat>, id: nat, called: seq<Callback>)
    requires Rising(queue) && queue != [] && queue[0] < id && CallsUpTo(called, kind, queue[1..], id)
    ensures CallsUpTo([Callback(Out(kind, queue[0]), false)] + called, kind, queue, id)
  {
    var first := Callback(Out(kind, queue[0]), false);
    var all := [first] + called;
    assert forall x :: x in queue <==> x == queue[0] || x in queue[1..] by {
      assert queue == [queue[0]] + queue[1..];
    }
    assert forall b :: b in all <==> b == first || b in called;
    CallsConsSorted(first, called);
  }

  lemma {:induction false} AnsweredExact(kind: Kind, queue: seq<nat>, id: nat)
    requires Rising(queue)
    ensures CallsUpTo(Answered(kind, queue, id).called, kind, queue, id)
  {
    if queue != [] {
      if queue[0] < id {
        AnsweredExact(kind, queue[1..], id);
        CallsCons(kind, queue, id, Answered(kind, queue[1..], id).called);
      } else {
        assert forall x :: x in queue ==> queue[0] <= x by {
          assert queue == [queue[0]] + queue[1..];
        }
      }
    }
  }

  /** The first of a queue that is newer than the reply. */
  lemma {:induction false} FirstNewer(queue: seq<nat>, id: nat, x: nat) returns (first: nat)
    requires Rising(queue) && x in queue && x > id
    ensures first in queue && first > id && forall y :: y in queue && y > id ==> first <= y
  {
    if queue[0] > id {
      first := queue[0];
    } else {
      assert queue == [queue[0]] + queue[1..];
      first := FirstNewer(queue[1..], id, x);
    }
  }

  ghost predicate SparesNewer(queue: seq<nat>, id: nat) {
    forall x: nat :: x in queue && x > id ==> Spared(queue, id, x)
  }

  ghost predicate AllBelow(queue: seq<nat>, id: nat) {
    forall x :: x in queue ==> x < id
  }

  /** All that is newer stays exactly if the reply's id is in the queue or nothing newer is. */
  lemma {:induction false} SparesNewerIff(queue: seq<nat>, id: nat)
    requires Rising(queue)
    ensures SparesNewer(queue, id) <==> id in queue || AllBelow(queue, id)
  {
    if id !in queue && !AllBelow(queue, id) {
      var x :| x in queue && x >= id;
      var first := FirstNewer(queue, id, x);
      assert !Spared(queue, id, first);
    }
  }

  lemma {:induction false} ProjectBelow(s: seq<Out>, kind: Kind, id: nat)
    ensures AllBelow(Project(s, kind), id) <==> forall o :: o in s && o.kind == kind ==> o.id < id
  {
    if !AllBelow(Project(s, kind), id) {
      var x :| x in Project(s, kind) && x >= id;
      ProjectIn(s, kind, x);
    }
    if o :| o in s && o.kind == kind && o.id >= id {
      ProjectIn(s, kind, o.id);
    }
  }

  lemma {:induction false} ProjectOfPopped(s: seq<Out>, kind: Kind, id: nat)
    requires Sorted(s)
    ensures Rising(Project(Popped(s, id), kind))
    ensures forall x: nat :: x in Project(Popped(s, id), kind) <==> x in Project(s, kind) && x > id
  {
    PoppedLeavesNewer(s, id);
    ProjectRises(Popped(s, id), kind);
    forall x: nat
      ensures x in Project(Popped(s, id), kind) <==> x in Project(s, kind) && x > id
    {
      ProjectIn(Popped(s, id), kind, x);
      ProjectIn(s, kind, x);
    }
  }

  lemma {:induction false} RestIff(queue: seq<nat>, rest: seq<nat>, left: seq<nat>, id: nat)
    requires Rising(rest) && Rising(left)
    requires forall x: nat :: x in rest <==> Spared(queue, id, x)
    requires forall x: nat :: x in left <==> x in queue && x > id
    ensures rest == left <==> SparesNewer(queue, id)
  {
    if SparesNewer(queue, id) {
      RisingUnique(rest, left);
    }
  }

  /** The queue of the reply's kind stays in step. */
  lemma {:induction false} OwnQueueIff(s: seq<Out>, kind: Kind, id: nat)
    requires Sorted(s)
    ensures Answered(kind, Project(s, kind), id).rest == Project(Popped(s, id), kind) <==>
              Out(kind, id) in s || forall o :: o in s && o.kind == kind ==> o.id < id
  {
    var queue := Project(s, kind);
    ProjectRises(s, kind);
    AnsweredSpares(kind, queue, id);
    ProjectOfPopped(s, kind, id);
    RestIff(queue, Answered(kind, queue, id).rest, Project(Popped(s, id), kind), id);
    SparesNewerIff(queue, id);
    ProjectIn(s, kind, id);
    ProjectBelow(s, kind, id);
  }

  /** The queue of another kind stays in step. */
  lemma {:induction false} OtherQueueIff(s: seq<Out>, kind: Kind, id: nat)
    requires Sorted(s)
    ensures Project(s, kind) == Project(Popped(s, id), kind) <==> forall o :: o in s && o.id <= id ==> o.kind != kind
  {
    ProjectOfPopped(s, kind, id);
    if forall o :: o in s && o.id <= id ==> o.kind != kind {
      forall x: nat
        ensures x in Project(s, kind) <==> x in Project(Popped(s, id), kind)
      {
        ProjectIn(s, kind, x);
      }
      ProjectRises(s, kind);
      RisingUnique(Project(s, kind), Project(Popped(s, id), kind));
    } else {
      var o :| o in s && o.id <= id && o.kind == kind;
      ProjectIn(s, kind, o.id);
    }
  }

  /** The reply takes nothing of another kind off `outgoing_queue_`, and no newer request off the queue of its own
      kind. */
  ghost predicate Fits(s: seq<Out>, kind: Kind, id: nat) {
    && (forall o :: o in s && o.id <= id ==> o.kind == kind)
    && (Out(kind, id) in s || forall o :: o in s && o.kind == kind ==> o.id < id)
  }

  /** The asserts compare ids only, and a release build does without them. Whatever reply comes, the queues stay in
      step if and only if it fits the outstanding requests. */
  lemma {:induction false} ReplyFitsIff(c: Client, kind: Kind, id: nat)
    requires InStep(c)
    ensures InStep(After(c, Reply(kind, id))) <==> Fits(c.outgoing, kind, id)
  {
    var s, d := c.outgoing, After(c, Reply(kind, id));
    PoppedLeavesNewer(s, id);
    forall i | 0 <= i < |d.outgoing|
      ensures d.outgoing[i].id <= d.messageId
    {
      assert d.outgoing[i] in s;
    }
    forall k
      ensures InStepFor(d, k) <==> FitsFor(s, kind, id, k)
    {
      ReplyFitsFor(c, kind, id, k);
    }
    FitsByKind(s, kind, id);
    if forall k :: InStepFor(d, k) {
      forall k
        ensures QueueOf(d.queues, k) == Project(d.outgoing, k)
      {
        assert InStepFor(d, k);
      }
    } else {
      var k :| !InStepFor(d, k);
      assert QueueOf(d.queues, k) != Project(d.outgoing, k);
    }
  }

  ghost predicate InStepFor(c: Client, kind: Kind) {
    QueueOf(c.queues, kind) == Project(c.outgoing, kind)
  }

  /** What one queue needs of the reply. */
  ghost predicate FitsFor(s: seq<Out>, kind: Kind, id: nat, k: Kind) {
    if k == kind then Out(kind, id) in s || forall o :: o in s && o.kind == kind ==> o.id < id
    else forall o :: o in s && o.id <= id ==> o.kind != k
  }

  lemma {:induction false} FitsByKind(s: seq<Out>, kind: Kind, id: nat)
    ensures Fits(s, kind, id) <==> forall k :: FitsFor(s, kind, id, k)
  {
    if forall k :: FitsFor(s, kind, id, k) {
      assert FitsFor(s, kind, id, kind);
      forall o | o in s && o.id <= id
        ensures o.kind == kind
      {
        assert FitsFor(s, kind, id, o.kind);
      }
    }
  }

  lemma {:induction false} ReplyFitsFor(c: Client, kind: Kind, id: nat, k: Kind)
    requires InStep(c)
    ensures InStepFor(After(c, Reply(kind, id)), k) <==> FitsFor(c.outgoing, kind, id, k)
  {
    assert QueueOf(c.queues, k) == Project(c.outgoing, k);
    if k == kind {
      assert QueueOf(After(c, Reply(kind, id)).queues, k) == Answered(k, Project(c.outgoing, k), id).rest;
      FitsOwn(c.outgoing, kind, id);
    } else {
      assert QueueOf(After(c, Reply(kind, id)).queues, k) == Project(c.outgoing, k);
      FitsOther(c.outgoing, kind, id, k);
    }
  }

  lemma {:induction false} FitsOwn(s: seq<Out>, kind: Kind, id: nat)
    requires Sorted(s)
    ensures Answered(kind, Project(s, kind), id).rest == Project(Popped(s, id), kind) <==> FitsFor(s, kind, id, kind)
  {
    OwnQueueIff(s, kind, id);
  }

  lemma {:induction false} FitsOther(s: seq<Out>, kind: Kind, id: nat, k: Kind)
    requires Sorted(s) && k != kind
    ensures Project(s, k) == Project(Popped(s, id), k) <==> FitsFor(s, kind, id, k)
  {
    OtherQueueIff(s, k, id);
  }

  /** In particular, among replies with the front's id exactly those of the front's kind. */
  lemma {:induction false} ReplyKindMatters(c: Client, kind: Kind, id: nat)
    requires InStep(c) && c.outgoing != [] && c.outgoing[0].id == id
    ensures InStep(After(c, Reply(kind, id))) <==> c.outgoing[0].kind == kind
  {
    ReplyFitsIff(c, kind, id);
    assert c.outgoing[0] in c.outgoing;
  }

  // -------- A second answer --------

  function AfterAll(c: Client, events: seq<Event>): Client {
    if events == [] then c else After(AfterAll(c, events[..|events| - 1]), events[|events| - 1])
  }

  /** The request is in no queue, has had no callback, and its id will not be given out again. */
  ghost predicate Forgotten(c: Client, o: Out) {
    && o.id !in QueueOf(c.queues, o.kind)
    && o !in Requests(c.called)
    && o.id <= c.messageId
  }

  /** Only what is in the queue of the reply's kind gets a callback. */
  lemma {:induction false} AnsweredFromQueue(kind: Kind, queue: seq<nat>, id: nat)
    ensures forall x :: x in Answered(kind, queue, id).rest ==> x in queue
    ensures forall b :: b in Answered(kind, queue, id).called ==> b.request.kind == kind && b.request.id in queue
  {
    if queue != [] {
      assert queue == [queue[0]] + queue[1..];
      AnsweredFromQueue(kind, queue[1..], id);
    }
  }

  lemma {:induction false} IdsGoUp(c: Client, event: Event)
    requires c.messageId + 1 < UINT32
    ensures c.messageId <= After(c, event).messageId <= c.messageId + 1
  {
  }

  lemma {:induction false} ForgottenByReply(c: Client, kind: Kind, id: nat, o: Out)
    requires Forgotten(c, o)
    ensures Forgotten(After(c, Reply(kind, id)), o)
  {
    var queue := QueueOf(c.queues, kind);
    var a := Answered(kind, queue, id);
    AnsweredFromQueue(kind, queue, id);
    assert Requests(c.called + a.called) == Requests(c.called) + Requests(a.called);
    assert forall i :: 0 <= i < |a.called| ==> a.called[i] in a.called && a.called[i].request != o;
  }

  lemma {:induction false} ForgottenStep(c: Client, event: Event, o: Out)
    requires Forgotten(c, o) && c.messageId + 1 < UINT32
    ensures Forgotten(After(c, event), o)
  {
    IdsGoUp(c, event);
    if event.Reply? {
      ForgottenByReply(c, event.kind, event.id, o);
    }
  }

  lemma {:induction false} ForgottenForGood(c: Client, events: seq<Event>, o: Out)
    requires Forgotten(c, o) && c.messageId + |events| < UINT32
    ensures Forgotten(AfterAll(c, events), o)
    ensures AfterAll(c, events).messageId <= c.messageId + |events|
  {
    if events != [] {
      var before := AfterAll(c, events[..|events| - 1]);
      ForgottenForGood(c, events[..|events| - 1], o);
      IdsGoUp(before, events[|events| - 1]);
      ForgottenStep(before, events[|events| - 1], o);
    }
  }

  /** A reply to a request that is not outstanding, such as a second answer, costs the oldest newer request of its
      kind the callback: the request stays in `outgoing_queue_`, and whatever happens then, it is never called. */
  lemma {:induction false} SecondAnswerForgets(c: Client, kind: Kind, id: nat, o: Out, events: seq<Event>)
    requires InStep(c) && Out(kind, id) !in c.outgoing
    requires o in c.outgoing && o.kind == kind && o.id > id && o !in Requests(c.called)
    requires forall x :: x in c.outgoing && x.kind == kind && x.id > id ==> o.id <= x.id
    requires c.messageId + |events| < UINT32
    ensures o in After(c, Reply(kind, id)).outgoing
    ensures o !in Requests(AfterAll(After(c, Reply(kind, id)), events).called)
  {
    PoppedLeavesNewer(c.outgoing, id);
    ReplyForgets(c, kind, id, o);
    ForgottenForGood(After(c, Reply(kind, id)), events, o);
  }

  lemma {:induction false} ReplyForgets(c: Client, kind: Kind, id: nat, o: Out)
    requires InStep(c) && Out(kind, id) !in c.outgoing
    requires o in c.outgoing && o.kind == kind && o.id > id && o !in Requests(c.called)
    requires forall x :: x in c.outgoing && x.kind == kind && x.id > id ==> o.id <= x.id
    ensures Forgotten(After(c, Reply(kind, id)), o)
  {
    var queue := QueueOf(c.queues, kind);
    assert queue == Project(c.outgoing, kind);
    NotSpared(c.outgoing, kind, id, o);
    AnsweredUpTo(kind, queue, id);
    RequestsSum(c.called, Answered(kind, queue, id).called, o, id);
  }

  lemma {:induction false} NotSpared(s: seq<Out>, kind: Kind, id: nat, o: Out)
    requires Sorted(s) && Out(kind, id) !in s && forall x :: x in s && x.kind == kind && x.id > id ==> o.id <= x.id
    ensures o.id !in Answered(kind, Project(s, kind), id).rest
  {
    ProjectRises(s, kind);
    AnsweredSpares(kind, Project(s, kind), id);
    forall y | y in Project(s, kind) && id <= y
      ensures o.id <= y
    {
      ProjectIn(s, kind, y);
    }
  }

  lemma {:induction false} AnsweredUpTo(kind: Kind, queue: seq<nat>, id: nat)
    ensures forall b :: b in Answered(kind, queue, id).called ==> b.request.id <= id
  {
    if queue != [] && queue[0] < id {
      AnsweredUpTo(kind, queue[1..], id);
    }
  }

  lemma {:induction false} RequestsSum(before: seq<Callback>, more: seq<Callback>, o: Out, id: nat)
    requires o !in Requests(before) && o.id > id && forall b :: b in more ==> b.request.id <= id
    ensures o !in Requests(before + more)
  {
    assert Requests(before + more) == Requests(before) + Requests(more);
    assert forall i :: 0 <= i < |more| ==> more[i] in more && more[i].request != o;
  }

  /** The client issues a request, loses the connection and sends the request again on the next one, where the copy
      in flight is answered. Then it issues another request of that kind; the copy just sent is yet to be
      answered. */
  function Resent(kind: Kind): seq<Event> {
    [Connected, Accepted, Request(kind), Disconnected, Connected, Accepted, Reply(kind, 2), Request(kind)]
  }

  lemma {:induction false} RunSnoc(events: seq<Event>, event: Event)
    requires Run(events).Some? && Enabled(Run(events).value.client, event)
    ensures Run(events + [event]) == Some(TracedAfter(Run(events).value, event))
  {
    assert (events + [event])[..|events|] == events;
  }

  ghost predicate Reaches(events: seq<Event>, c: Client, issued: seq<Out>) {
    Run(events) == Some(Traced(c, issued, []))
  }

  lemma {:induction false} ReachesNext(events: seq<Event>, c: Client, issued: seq<Out>, event: Event)
    requires Reaches(events, c, issued) && Enabled(c, event) && !event.Clear?
    ensures Reaches(events + [event], After(c, event),
                    if event.Request? then issued + [Out(event.kind, Bump(c.messageId))] else issued)
  {
    RunSnoc(events, event);
  }

  /** The first connection. */
  lemma {:induction false} FirstSent(kind: Kind)
    ensures var o := Out(kind, 2);
            Reaches([Connected, Accepted, Request(kind), Disconnected],
                    Client(2, false, false, map[kind := [2]], [o], [o], []), [o])
  {
    var e1, e2, e3 := [Connected], [Connected, Accepted], [Connected, Accepted, Request(kind)];
    assert [] + [Connected] == e1 && e1 + [Accepted] == e2 && e2 + [Request(kind)] == e3;
    assert e3 + [Disconnected] == [Connected, Accepted, Request(kind), Disconnected];
    var c0, o := NewClient, Out(kind, 2);
    var c1 := Client(1, true, false, map[], [], [], []);
    var c2 := Client(1, true, true, map[], [], [], []);
    var c3 := Client(2, true, true, map[kind := [2]], [o], [o], []);
    assert After(c0, Connected) == c1 && After(c1, Accepted) == c2;
    IssueAlone(kind, c2);
    ReachesNext([], c0, [], Connected);
    ReachesNext(e1, c1, [], Accepted);
    ReachesNext(e2, c2, [], Request(kind));
    ReachesNext(e3, c3, [o], Disconnected);
  }

  /** The second connection, up to the first answer. */
  lemma {:induction false} FirstAnswered(kind: Kind)
    ensures var o := Out(kind, 2);
            Reaches(Resent(kind)[..7], Client(3, true, true, map[kind := []], [], [o], [Callback(o, true)]), [o])
  {
    var e4 := [Connected, Accepted, Request(kind), Disconnected];
    var e5, e6 := e4 + [Connected], e4 + [Connected, Accepted];
    assert e5 + [Accepted] == e6 && e6 + [Reply(kind, 2)] == Resent(kind)[..7];
    var o := Out(kind, 2);
    var c4 := Client(2, false, false, map[kind := [2]], [o], [o], []);
    var c5 := Client(3, true, false, map[kind := [2]], [o], [], []);
    var c6 := Client(3, true, true, map[kind := [2]], [o], [o], []);
    FirstSent(kind);
    assert After(c4, Connected) == c5 && After(c5, Accepted) == c6;
    AnswerOne(kind, c6, Client(3, true, true, map[kind := []], [], [o], [Callback(o, true)]));
    ReachesNext(e4, c4, [o], Connected);
    ReachesNext(e5, c5, [o], Accepted);
    ReachesNext(e6, c6, [o], Reply(kind, 2));
  }

  /** And the other request. */
  lemma {:induction false} SentAgain(kind: Kind)
    ensures var o, next := Out(kind, 2), Out(kind, 4);
            Reaches(Resent(kind), Client(4, true, true, map[kind := [4]], [next], [o, next], [Callback(o, true)]),
                    [o, next])
  {
    var o, next := Out(kind, 2), Out(kind, 4);
    var c := Client(3, true, true, map[kind := []], [], [o], [Callback(o, true)]);
    FirstAnswered(kind);
    IssueAlone(kind, c);
    ReachesNext(Resent(kind)[..7], c, [o], Request(kind));
    assert Resent(kind)[..7] + [Request(kind)] == Resent(kind) && [o] + [next] == [o, next];
  }

  lemma {:induction false} AnswerOne(kind: Kind, c: Client, d: Client)
    requires c == Client(3, true, true, map[kind := [2]], [Out(kind, 2)], [Out(kind, 2)], [])
    requires d == Client(3, true, true, map[kind := []], [], [Out(kind, 2)], [Callback(Out(kind, 2), true)])
    ensures After(c, Reply(kind, 2)) == d
  {
    assert Answered(kind, [2], 2) == Answer([], [Callback(Out(kind, 2), true)]);
    assert Popped([Out(kind, 2)], 2) == [];
    assert After(c, Reply(kind, 2)).queues == d.queues;
  }

  /** A request issued while none is outstanding. */
  lemma {:induction false} IssueAlone(kind: Kind, c: Client)
    requires c.canSend && c.outgoing == [] && (c.queues == map[] || c.queues == map[kind := []])
    ensures var id := Bump(c.messageId);
            After(c, Request(kind)) ==
            c.(messageId := id, queues := map[kind := [id]], outgoing := [Out(kind, id)],
               sent := c.sent + [Out(kind, id)])
  {
    var id, queue: seq<nat> := Bump(c.messageId), [];
    assert QueueOf(c.queues, kind) == queue && queue + [id] == [id];
    assert c.outgoing + [Out(kind, id)] == [Out(kind, id)];
    assert c.queues[kind := [id]] == map[kind := [id]];
  }

  /** A run in which every reply answers the front. It leaves the first request answered and the other outstanding;
      the second answer then takes the callback of the other request away for good, although it is still sent
      again on every connection. */
  lemma {:induction false} SecondAnswerReachable(kind: Kind, events: seq<Event>)
    requires |events| < 0x8000_0000
    ensures Run(Resent(kind)).Some?
    ensures var c := Run(Resent(kind)).value.client;
            var d := After(c, Reply(kind, 2));
            && c.called == [Callback(Out(kind, 2), true)] && c.outgoing == [Out(kind, 4)]
            && d.outgoing == [Out(kind, 4)] && !InStep(d)
            && Out(kind, 4) !in Requests(AfterAll(d, events).called)
  {
    SentAgain(kind);
    ClientIsOneFifo(Resent(kind));
    LastIsForgotten(Run(Resent(kind)).value.client, kind, events);
  }

  lemma {:induction false} LastIsForgotten(c: Client, kind: Kind, events: seq<Event>)
    requires InStep(c) && c.outgoing == [Out(kind, 4)] && c.called == [Callback(Out(kind, 2), true)]
    requires c.messageId + |events| < UINT32
    ensures var d := After(c, Reply(kind, 2));
            && d.outgoing == [Out(kind, 4)] && !InStep(d)
            && Out(kind, 4) !in Requests(AfterAll(d, events).called)
  {
    assert Out(kind, 4) in c.outgoing;
    SecondAnswerForgets(c, kind, 2, Out(kind, 4), events);
    ReplyFitsIff(c, kind, 2);
  }

  // -------- What every run keeps --------

  ghost predicate Before(a: seq<Out>, b: seq<Out>) {
    forall i, j :: 0 <= i < |a| && 0 <= j < |b| ==> a[i].id < b[j].id
  }

  ghost predicate UpTo(s: seq<Out>, id: nat) {
    forall i :: 0 <= i < |s| ==> s[i].id <= id
  }

  function Requests(called: seq<Callback>): (r: seq<Out>)
    ensures |r| == |called|
    ensures forall i :: 0 <= i < |r| ==> r[i] == called[i].request
  {
    seq(|called|, i requires 0 <= i < |called| => called[i].request)
  }

  /** Callbacks come in issue order, each request at most once, all with the server's answer; whatever is still
      outstanding was issued after all of them. */
  ghost predicate CalledInOrder(c: Client) {
    && (forall i :: 0 <= i < |c.called| ==> c.called[i].answered)
    && Sorted(Requests(c.called))
    && Before(Requests(c.called), c.outgoing)
    && UpTo(Requests(c.called), c.messageId)
  }

  /** Ids of issued requests strictly increase, and each request has exactly one fate: called, outstanding, or
      thrown away by ClearMessage. */
  ghost predicate OneFate(t: Traced) {
    && Sorted(t.issued) && UpTo(t.issued, t.client.messageId)
    && (forall o :: o in t.issued <==> o in Requests(t.client.called) || o in t.client.outgoing || o in t.cleared)
    && Before(t.cleared, t.client.outgoing) && UpTo(t.cleared, t.client.messageId)
    && (forall o :: o in t.cleared ==> o !in Requests(t.client.called))
  }

  /** What the current connection carried: requests in issue order, each once, ending in all those still
      outstanding. */
  ghost predicate Carried(t: Traced) {
    var c := t.client;
    && (c.canSend ==> c.up)
    && (c.up && !c.canSend ==> c.sent == [])
    && (c.canSend ==>
          && Sorted(c.sent) && UpTo(c.sent, c.messageId)
          && |c.outgoing| <= |c.sent| && c.sent[|c.sent| - |c.outgoing|..] == c.outgoing
          && (forall o :: o in c.sent ==> o in t.issued))
  }

  ghost predicate Good(t: Traced) {
    InStep(t.client) && CalledInOrder(t.client) && OneFate(t) && Carried(t)
  }

  lemma {:induction false} RequestInStep(c: Client, kind: Kind)
    requires InStep(c) && c.messageId + 1 < UINT32
    ensures InStep(After(c, Request(kind)))
  {
    var d, o := After(c, Request(kind)), Out(kind, c.messageId + 1);
    assert d.outgoing == c.outgoing + [o];
    forall k
      ensures QueueOf(d.queues, k) == Project(d.outgoing, k)
    {
      assert QueueOf(c.queues, k) == Project(c.outgoing, k);
      ProjectSnoc(c.outgoing, o, k);
    }
  }

  lemma {:induction false} GoodRequest(t: Traced, kind: Kind)
    requires Good(t) && t.client.messageId + 1 < UINT32
    ensures Good(TracedAfter(t, Request(kind)))
  {
    RequestInStep(t.client, kind);
    RequestFate(t, kind);
    RequestCarried(t, kind);
  }

  lemma {:induction false} RequestFate(t: Traced, kind: Kind)
    requires CalledInOrder(t.client) && OneFate(t) && t.client.messageId + 1 < UINT32
    ensures CalledInOrder(TracedAfter(t, Request(kind)).client) && OneFate(TracedAfter(t, Request(kind)))
  {
    var u, o := TracedAfter(t, Request(kind)), Out(kind, t.client.messageId + 1);
    assert u.client.outgoing == t.client.outgoing + [o] && u.issued == t.issued + [o];
    forall x
      ensures x in u.issued <==> x in Requests(u.client.called) || x in u.client.outgoing || x in u.cleared
    {
      assert x in u.issued <==> x in t.issued || x == o;
      assert x in u.client.outgoing <==> x in t.client.outgoing || x == o;
    }
  }

  lemma {:induction false} RequestCarried(t: Traced, kind: Kind)
    requires Carried(t) && t.client.messageId + 1 < UINT32
    ensures Carried(TracedAfter(t, Request(kind)))
  {
    var u, c := TracedAfter(t, Request(kind)), t.client;
    if c.canSend {
      var k := |c.sent| - |c.outgoing|;
      assert u.client.sent[k..] == c.sent[k..] + [Out(kind, c.messageId + 1)];
    }
  }

  lemma {:induction false} GoodReply(t: Traced, kind: Kind, id: nat)
    requires Good(t) && Enabled(t.client, Reply(kind, id))
    ensures Good(TracedAfter(t, Reply(kind, id)))
  {
    var c, d := t.client, After(t.client, Reply(kind, id));
    ReplyToFront(c, kind, id);
    assert c.outgoing == [c.outgoing[0]] + c.outgoing[1..];
    assert Requests(d.called) == Requests(c.called) + [c.outgoing[0]];
    ReplyCalled(c, d);
    ReplyFate(t, d);
    ReplyCarried(t, d);
  }

  /** The front went from the outstanding requests to the callbacks. */
  ghost predicate FrontCalled(c: Client, d: Client) {
    && c.outgoing != [] && c.outgoing == [c.outgoing[0]] + d.outgoing
    && Requests(d.called) == Requests(c.called) + [c.outgoing[0]]
    && d.messageId == c.messageId && d.up == c.up && d.canSend == c.canSend && d.sent == c.sent
  }

  lemma {:induction false} BeforeFront(done: seq<Out>, s: seq<Out>, rest: seq<Out>)
    requires Sorted(s) && Sorted(done) && Before(done, s) && s != [] && s == [s[0]] + rest
    ensures Sorted(done + [s[0]]) && Before(done + [s[0]], rest)
  {
    assert forall j :: 0 <= j < |rest| ==> rest[j] == s[j + 1];
  }

  lemma {:induction false} ReplyCalled(c: Client, d: Client)
    requires CalledInOrder(c) && InStep(c) && FrontCalled(c, d)
    requires forall i :: 0 <= i < |d.called| ==> d.called[i].answered
    ensures CalledInOrder(d)
  {
    BeforeFront(Requests(c.called), c.outgoing, d.outgoing);
    assert UpTo(Requests(c.called) + [c.outgoing[0]], c.messageId);
  }

  lemma {:induction false} ReplyFate(t: Traced, d: Client)
    requires InStep(t.client) && CalledInOrder(t.client) && OneFate(t) && FrontCalled(t.client, d)
    ensures OneFate(t.(client := d))
  {
    assert forall j :: 0 <= j < |d.outgoing| ==> d.outgoing[j] == t.client.outgoing[j + 1];
    forall o
      ensures o in Requests(d.called) || o in d.outgoing <==> o in Requests(t.client.called) || o in t.client.outgoing
    {
    }
  }

  lemma {:induction false} ReplyCarried(t: Traced, d: Client)
    requires Carried(t) && FrontCalled(t.client, d)
    ensures Carried(t.(client := d))
  {
    var c := t.client;
    if c.canSend {
      var k := |c.sent| - |c.outgoing|;
      assert c.sent[k + 1..] == c.sent[k..][1..];
    }
  }

  lemma {:induction false} GoodClear(t: Traced)
    requires Good(t)
    ensures Good(TracedAfter(t, Clear))
  {
    var u, c := TracedAfter(t, Clear), t.client;
    forall o | o in u.cleared
      ensures o !in Requests(c.called)
    {
      assert o in c.outgoing ==> forall i :: 0 <= i < |c.called| ==> Requests(c.called)[i].id < o.id;
    }
    assert c.sent[|c.sent|..] == [];
  }

  lemma {:induction false} GoodStep(t: Traced, event: Event)
    requires Good(t) && Enabled(t.client, event) && t.client.messageId + 1 < UINT32
    ensures Good(TracedAfter(t, event))
  {
    match event
    case Request(kind) => GoodRequest(t, kind);
    case Reply(kind, id) => GoodReply(t, kind, id);
    case Clear => GoodClear(t);
    case Accepted =>
      var u := TracedAfter(t, event);
      assert u.client.sent == t.client.outgoing;
    case _ =>
  }

  /** Client queues refine one FIFO: in every run of requests, connects, disconnects, matching replies and clears,
      short of a wrap of the 32-bit id. */
  lemma {:induction false} ClientIsOneFifo(events: seq<Event>)
    requires Run(events).Some? && |events| < UINT32
    ensures Good(Run(events).value) && Run(events).value.client.messageId <= |events|
  {
    if events != [] {
      var before, last := events[..|events| - 1], events[|events| - 1];
      ClientIsOneFifo(before);
      GoodStep(Run(before).value, last);
      IdsGoUp(Run(before).value.client, last);
    }
  }
}
