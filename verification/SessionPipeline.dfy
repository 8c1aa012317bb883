/** `SaberSession`: messages of one client session are handled one at a time, in the order in which they were
    accepted. Arrivals, completions and reconnects come from different threads; a step here is what runs
    under the session's lock, or between two such sections. */
module SessionPipeline {
  import opened Proto

  datatype MessageType =
    | MtCreate | MtDelete | MtExists | MtGetData | MtSetData | MtGetChildren | MtMaster | MtPing | MtClose

  // `tag` tells messages apart.
  datatype Message = Message(kind: MessageType, tag: nat)

  // `conn` is what `conn_wp_.lock()` yields: None once the connection is gone.
  datatype Core = Core(closed: bool, lastFinished: bool, conn: Option<nat>, pending: seq<Message>)

  datatype Handed = Handed(core: Core, next: Option<Message>)

  /** The test that OnMessage makes before it takes the lock: false refuses the message. */
  predicate Admits(c: Core) {
    !c.closed
  }

  predicate Ignores(c: Core, kind: MessageType) {
    kind == MtPing && c.pending != []
  }

  /** OnMessage under the lock: the message starts at once or waits; MT_MASTER first empties the queue. */
  function Enqueue(c: Core, m: Message): Handed {
    if c.lastFinished then Handed(c.(lastFinished := false), Some(m))
    else Handed(c.(pending := (if m.kind == MtMaster then [] else c.pending) + [m]), None)
  }

  predicate Continues(kind: MessageType, conn: Option<nat>) {
    conn.Some? && kind != MtMaster && kind != MtClose
  }

  /** Done under the lock, with the reply's type and the connection taken just before. */
  function Finish(c: Core, kind: MessageType, conn: Option<nat>): Handed {
    if Continues(kind, conn) then
      if c.pending != [] then Handed(c.(pending := c.pending[1..]), Some(c.pending[0]))
      else Handed(c.(lastFinished := true), None)
    else Handed(c.(closed := true, pending := [], lastFinished := true), None)
  }

  function Reattach(c: Core, conn: nat): Core {
    c.(closed := false, conn := Some(conn), pending := [])
  }

  /** The object; `HandleMessage` is what the caller does with the message handed back. */
  class SaberSession {
    var closed: bool
    var lastFinished: bool
    var conn: Option<nat>
    var pending: seq<Message>

    function View(): Core
      reads this
    {
      Core(closed, lastFinished, conn, pending)
    }

    constructor (p: nat)
      ensures View() == Core(false, true, Some(p), [])
    {
      closed, lastFinished, conn, pending := false, true, Some(p), [];
    }

    method OnConnect(p: nat)
      modifies this
      ensures View() == Reattach(old(View()), p)
      ensures !closed && conn == Some(p) && pending == [] && lastFinished == old(lastFinished)
    {
      closed := false;
      conn := Some(p);
      pending := [];
    }

    method OnMessage(m: Message) returns (result: bool, next: Option<Message>)
      modifies this
      ensures result <==> Admits(old(View()))
      ensures !result || Ignores(old(View()), m.kind) ==> View() == old(View()) && next == None
      ensures result && !Ignores(old(View()), m.kind) ==> Handed(View(), next) == Enqueue(old(View()), m)
      ensures result == !old(closed) && closed == old(closed) && conn == old(conn)
      ensures old(closed) || (m.kind == MtPing && old(pending) != []) ==>
                next == None && pending == old(pending) && lastFinished == old(lastFinished)
      ensures !old(closed) && (m.kind != MtPing || old(pending) == []) ==>
                && !lastFinished
                && (old(lastFinished) ==> next == Some(m) && pending == old(pending))
                && (!old(lastFinished) ==>
                      next == None && pending == (if m.kind == MtMaster then [m] else old(pending) + [m]))
    {
      if closed {
        return false, None;
      }
      if m.kind == MtPing && pending != [] {
        return true, None;
      }
      if lastFinished {
        lastFinished := false;
        return true, Some(m);
      } else {
        if m.kind == MtMaster {
          pending := [];
        }
        pending := pending + [m];
        return true, None;
      }
    }

    method Done(kind: MessageType) returns (next: Option<Message>)
      modifies this
      ensures Handed(View(), next) == Finish(old(View()), kind, old(conn))
      ensures closed == (old(closed) || old(conn).None? || kind == MtMaster || kind == MtClose) && conn == old(conn)
      ensures old(conn).Some? && kind != MtMaster && kind != MtClose && old(pending) != [] ==>
                next == Some(old(pending)[0]) && pending == old(pending)[1..] && lastFinished == old(lastFinished)
      ensures old(conn).None? || kind == MtMaster || kind == MtClose || old(pending) == [] ==>
                next == None && pending == [] && lastFinished
    {
      var p := conn;
      next := None;
      if p.Some? && kind != MtMaster && kind != MtClose {
        if pending != [] {
          next := Some(pending[0]);
          pending := pending[1..];
        }
      } else {
        closed := true;
        pending := [];
      }
      if next.None? {
        lastFinished := true;
      }
    }
  }

  // -------- Interleaved runs --------

  // A message between the call of HandleMessage and the end of Done.
  datatype Flight = Handling(m: Message) | Finishing(m: Message, reply: MessageType, conn: Option<nat>)

  datatype Reason = MasterArrived | SessionClosed | Reconnected

  /** Every message that came, by number: those on their way, in the order of `arriving`; those accepted, in the order
      of `accepted`; those refused and those ignored, with the state that they met. */
  datatype Book = Book(
    arrived: seq<MessageType>,
    onTheWay: seq<nat>,
    taken: seq<nat>,
    refused: map<nat, Core>,
    ignored: map<nat, Core>)

  /** The session with its history. The tag of an accepted message is its place in `accepted`; `arriving` are
      messages past the unlocked test and not yet under the lock. */
  datatype Pipe = Pipe(
    core: Core,
    arriving: seq<MessageType>,
    flights: seq<Flight>,
    accepted: seq<MessageType>,
    started: seq<nat>,
    dropped: map<nat, Reason>,
    book: Book)

  function Start(conn: nat): Pipe {
    Pipe(Core(false, true, Some(conn), []), [], [], [], [], map[], Book([], [], [], map[], map[]))
  }

  datatype Step =
    | Arrive(kind: MessageType)
    | Accept(i: nat)
    | BeginDone(i: nat, notMaster: bool)
    | CommitDone(i: nat)
    | NewConnection(conn: nat)
    | ConnectionLost

  function Without<T>(s: seq<T>, i: nat): seq<T>
    requires i < |s|
  {
    s[..i] + s[i + 1..]
  }

  function Dropping(p: Pipe, why: Reason): map<nat, Reason> {
    p.dropped + (map m | m in p.core.pending :: m.tag := why)
  }

  function Launch(p: Pipe, next: Option<Message>): Pipe {
    if next.None? then p
    else p.(flights := p.flights + [Handling(next.value)], started := p.started + [next.value.tag])
  }

  /** A message comes and meets the session in this state. */
  function Enter(b: Book, core: Core, kind: MessageType): Book {
    var n, book := |b.arrived|, b.(arrived := b.arrived + [kind]);
    if !Admits(core) then book.(refused := b.refused[n := core])
    else if Ignores(core, kind) then book.(ignored := b.ignored[n := core])
    else book.(onTheWay := b.onTheWay + [n])
  }

  /** The i-th message on its way is accepted. */
  function Take(b: Book, i: nat): Book {
    if i < |b.onTheWay| then b.(onTheWay := Without(b.onTheWay, i), taken := b.taken + [b.onTheWay[i]]) else b
  }

  predicate Enabled(p: Pipe, step: Step) {
    match step
    case Accept(i) => i < |p.arriving|
    case BeginDone(i, _) => i < |p.flights| && p.flights[i].Handling?
    case CommitDone(i) => i < |p.flights| && p.flights[i].Finishing?
    case _ => true
  }

  function After(p: Pipe, step: Step): Pipe
    requires Enabled(p, step)
  {
    match step
    case Arrive(kind) =>
      var admitted := Admits(p.core) && !Ignores(p.core, kind);
      p.(arriving := if admitted then p.arriving + [kind] else p.arriving, book := Enter(p.book, p.core, kind))
    case Accept(i) =>
      var m := Message(p.arriving[i], |p.accepted|);
      var h := Enqueue(p.core, m);
      var purged := if h.next.None? && m.kind == MtMaster then Dropping(p, MasterArrived) else p.dropped;
      Launch(p.(core := h.core, arriving := Without(p.arriving, i), accepted := p.accepted + [m.kind],
                dropped := purged, book := Take(p.book, i)),
             h.next)
    case BeginDone(i, notMaster) =>
      // A server that is not the master answers any message with MT_MASTER.
      var m := p.flights[i].m;
      p.(flights := p.flights[i := Finishing(m, if notMaster then MtMaster else m.kind, p.core.conn)])
    case CommitDone(i) =>
      var f := p.flights[i];
      var h := Finish(p.core, f.reply, f.conn);
      Launch(p.(core := h.core, flights := Without(p.flights, i),
                dropped := if Continues(f.reply, f.conn) then p.dropped else Dropping(p, SessionClosed)),
             h.next)
    case NewConnection(conn) =>
      p.(core := Reattach(p.core, conn), dropped := Dropping(p, Reconnected))
    case ConnectionLost =>
      p.(core := p.core.(conn := None))
  }

  function Run(p: Pipe, steps: seq<Step>): Option<Pipe> {
    if steps == [] then Some(p)
    else
      var before := Run(p, steps[..|steps| - 1]);
      if before.Some? && Enabled(before.value, steps[|steps| - 1])
      then Some(After(before.value, steps[|steps| - 1])) else None
  }

  // -------- What every run keeps --------

  ghost predicate Sorted(s: seq<nat>) {
    forall i, j :: 0 <= i < j < |s| ==> s[i] < s[j]
  }

  /** One message at a time, and none waiting while none is handled. */
  ghost predicate OneInFlight(p: Pipe) {
    && |p.flights| <= 1
    && (p.core.lastFinished <==> p.flights == [])
    && (p.core.lastFinished ==> p.core.pending == [])
  }

  /** Started messages come in acceptance order, and before all that wait; those wait in acceptance order. */
  ghost predicate InOrder(p: Pipe) {
    && Sorted(p.started)
    && (forall i, j :: 0 <= i < j < |p.core.pending| ==> p.core.pending[i].tag < p.core.pending[j].tag)
    && (forall i, j :: 0 <= i < |p.started| && 0 <= j < |p.core.pending| ==> p.started[i] < p.core.pending[j].tag)
    && (forall i :: 0 <= i < |p.started| ==> p.started[i] < |p.accepted|)
    && (forall j :: 0 <= j < |p.core.pending| ==> p.core.pending[j].tag < |p.accepted|)
  }

  ghost predicate Waits(p: Pipe, n: nat) {
    exists j :: 0 <= j < |p.core.pending| && p.core.pending[j].tag == n
  }

  /** Every accepted message has exactly one fate: it was started, it waits, or it was dropped for a reason. */
  ghost predicate Accounted(p: Pipe) {
    && (forall n :: 0 <= n < |p.accepted| ==> n in p.started || Waits(p, n) || n in p.dropped)
    && (forall n :: n in p.dropped ==> n < |p.accepted| && n !in p.started && !Waits(p, n))
  }

  /** The numbers on the way and the numbers taken name messages of the right kinds. */
  ghost predicate Numbered(b: Book, numbers: seq<nat>, kinds: seq<MessageType>) {
    && |numbers| == |kinds|
    && forall i :: 0 <= i < |numbers| ==> numbers[i] < |b.arrived| && b.arrived[numbers[i]] == kinds[i]
  }

  /** How often a number occurs. */
  function Times(s: seq<nat>, n: nat): nat {
    multiset(s)[n]
  }

  /** Each message that came has one fate: it is on its way, it was accepted, it was refused, or it was ignored. */
  ghost predicate OneFate(b: Book, n: nat) {
    Times(b.onTheWay, n) + Times(b.taken, n) + (if n in b.refused then 1 else 0) + (if n in b.ignored then 1 else 0) ==
      if n < |b.arrived| then 1 else 0
  }

  ghost predicate OneFateEach(b: Book) {
    forall n: nat {:trigger OneFate(b, n)} :: OneFate(b, n)
  }

  /** No message is refused but by a closed session, and none ignored but a ping while another message waited. */
  ghost predicate TurnedAwayRightly(b: Book) {
    && (forall n :: n in b.refused ==> b.refused[n].closed)
    && (forall n :: n in b.ignored ==>
          n < |b.arrived| && b.arrived[n] == MtPing && b.ignored[n].pending != [] && !b.ignored[n].closed)
  }

  ghost predicate Booked(p: Pipe) {
    && Numbered(p.book, p.book.onTheWay, p.arriving) && Numbered(p.book, p.book.taken, p.accepted)
    && OneFateEach(p.book) && TurnedAwayRightly(p.book)
  }

  ghost predicate Good(p: Pipe) {
    OneInFlight(p) && InOrder(p) && Accounted(p) && Booked(p)
  }

  lemma {:induction false} TimesSnoc(s: seq<nat>, x: nat, n: nat)
    ensures Times(s + [x], n) == Times(s, n) + (if n == x then 1 else 0)
  {
    assert multiset(s + [x]) == multiset(s) + multiset{x};
  }

  lemma {:induction false} TimesWithout(s: seq<nat>, i: nat, n: nat)
    requires i < |s|
    ensures Times(Without(s, i), n) == Times(s, n) - (if n == s[i] then 1 else 0)
  {
    assert s == s[..i] + [s[i]] + s[i + 1..];
    assert multiset(s) == multiset(s[..i]) + multiset{s[i]} + multiset(s[i + 1..]);
  }

  lemma {:induction false} EnterFate(b: Book, core: Core, kind: MessageType, n: nat)
    requires OneFate(b, n)
    ensures OneFate(Enter(b, core, kind), n)
  {
    TimesSnoc(b.onTheWay, |b.arrived|, n);
  }

  lemma {:induction false} EnterNumbered(b: Book, core: Core, kind: MessageType, numbers: seq<nat>,
                                         kinds: seq<MessageType>)
    requires Numbered(b, numbers, kinds)
    ensures Numbered(Enter(b, core, kind), numbers, kinds)
    ensures Numbered(Enter(b, core, kind), numbers + [|b.arrived|], kinds + [kind])
  {
  }

  lemma {:induction false} EnterRightly(b: Book, core: Core, kind: MessageType)
    requires TurnedAwayRightly(b)
    ensures TurnedAwayRightly(Enter(b, core, kind))
  {
  }

  lemma {:induction false} BookedArrive(p: Pipe, kind: MessageType)
    requires Booked(p)
    ensures Booked(After(p, Arrive(kind)))
  {
    var b := Enter(p.book, p.core, kind);
    EnterNumbered(p.book, p.core, kind, p.book.onTheWay, p.arriving);
    EnterNumbered(p.book, p.core, kind, p.book.taken, p.accepted);
    EnterRightly(p.book, p.core, kind);
    forall n: nat
      ensures OneFate(b, n)
    {
      assert OneFate(p.book, n);
      EnterFate(p.book, p.core, kind, n);
    }
  }

  lemma {:induction false} TakeFate(b: Book, i: nat, n: nat)
    requires OneFate(b, n) && i < |b.onTheWay|
    ensures OneFate(Take(b, i), n)
  {
    TimesWithout(b.onTheWay, i, n);
    TimesSnoc(b.taken, b.onTheWay[i], n);
  }

  lemma {:induction false} TakeNumbered(b: Book, i: nat, arriving: seq<MessageType>, accepted: seq<MessageType>)
    requires Numbered(b, b.onTheWay, arriving) && Numbered(b, b.taken, accepted) && i < |arriving|
    ensures Numbered(Take(b, i), Take(b, i).onTheWay, Without(arriving, i))
    ensures Numbered(Take(b, i), Take(b, i).taken, accepted + [arriving[i]])
  {
  }

  lemma {:induction false} BookedTake(b: Book, i: nat)
    requires OneFateEach(b) && i < |b.onTheWay|
    ensures OneFateEach(Take(b, i))
  {
    forall n: nat
      ensures OneFate(Take(b, i), n)
    {
      assert OneFate(b, n);
      TakeFate(b, i, n);
    }
  }

  lemma {:induction false} BookedAccept(p: Pipe, i: nat)
    requires Booked(p) && i < |p.arriving|
    ensures Booked(After(p, Accept(i)))
  {
    TakeNumbered(p.book, i, p.arriving, p.accepted);
    BookedTake(p.book, i);
    assert After(p, Accept(i)).book == Take(p.book, i);
  }

  lemma {:induction false} BookedStep(p: Pipe, step: Step)
    requires Booked(p) && Enabled(p, step)
    ensures Booked(After(p, step))
  {
    match step
    case Arrive(kind) => BookedArrive(p, kind);
    case Accept(i) => BookedAccept(p, i);
    case _ =>
      assert After(p, step).book == p.book;
  }

  lemma {:induction false} OneInFlightStep(p: Pipe, step: Step)
    requires OneInFlight(p) && Enabled(p, step)
    ensures OneInFlight(After(p, step))
  {
  }

  lemma {:induction false} InOrderStart(p: Pipe, q: Pipe, tag: nat)
    requires InOrder(p) && |p.accepted| <= |q.accepted| && tag < |q.accepted|
    requires q.started == p.started + [tag] && forall i :: 0 <= i < |p.started| ==> p.started[i] < tag
    requires forall j :: 0 <= j < |q.core.pending| ==> tag < q.core.pending[j].tag < |q.accepted|
    requires forall i, j :: 0 <= i < j < |q.core.pending| ==> q.core.pending[i].tag < q.core.pending[j].tag
    ensures InOrder(q)
  {
  }

  lemma {:induction false} InOrderWait(p: Pipe, q: Pipe, m: Message)
    requires InOrder(p) && m.tag == |p.accepted| && |q.accepted| == |p.accepted| + 1 && q.started == p.started
    requires q.core.pending == p.core.pending + [m] || q.core.pending == [m]
    ensures InOrder(q)
  {
  }

  /** The message that was accepted last goes to the end, of what started or of what waits. */
  lemma {:induction false} InOrderAccept(p: Pipe, i: nat)
    requires OneInFlight(p) && InOrder(p) && i < |p.arriving|
    ensures InOrder(After(p, Accept(i)))
  {
    var q, m := After(p, Accept(i)), Message(p.arriving[i], |p.accepted|);
    if p.core.lastFinished {
      InOrderStart(p, q, m.tag);
    } else {
      InOrderWait(p, q, m);
    }
  }

  /** The message that waited longest goes to the end of what started, or all that wait are dropped. */
  lemma {:induction false} InOrderCommit(p: Pipe, i: nat)
    requires InOrder(p) && Enabled(p, CommitDone(i))
    ensures InOrder(After(p, CommitDone(i)))
  {
    var q, f := After(p, CommitDone(i)), p.flights[i];
    if Continues(f.reply, f.conn) && p.core.pending != [] {
      assert q.core.pending == p.core.pending[1..];
      InOrderStart(p, q, p.core.pending[0].tag);
    } else {
      assert q.started == p.started && q.core.pending == [];
    }
  }

  lemma {:induction false} InOrderStep(p: Pipe, step: Step)
    requires OneInFlight(p) && InOrder(p) && Enabled(p, step)
    ensures InOrder(After(p, step))
  {
    match step
    case Accept(i) => InOrderAccept(p, i);
    case CommitDone(i) => InOrderCommit(p, i);
    case _ =>
  }

  lemma {:induction false} DroppingAll(p: Pipe, why: Reason, n: nat)
    ensures n in Dropping(p, why) <==> n in p.dropped || Waits(p, n)
    ensures n in Dropping(p, why) ==> Dropping(p, why)[n] == if Waits(p, n) then why else p.dropped[n]
  {
    var added := map m | m in p.core.pending :: m.tag := why;
    if Waits(p, n) {
      var j :| 0 <= j < |p.core.pending| && p.core.pending[j].tag == n;
      assert p.core.pending[j] in p.core.pending;
      assert n in added;
    }
    if n in added {
      var m :| m in p.core.pending && m.tag == n;
    }
  }

  /** Dropping the queue moves every waiting message to the dropped ones. */
  lemma {:induction false} AccountedDrop(p: Pipe, q: Pipe, why: Reason)
    requires Accounted(p) && InOrder(p)
    requires q.core.pending == [] && q.dropped == Dropping(p, why) && q.started == p.started && q.accepted == p.accepted
    ensures Accounted(q)
  {
    forall n: nat
      ensures (n < |q.accepted| ==> n in q.started || n in q.dropped)
      ensures n in q.dropped ==> n < |q.accepted| && n !in q.started
    {
      DroppingAll(p, why, n);
    }
  }

  /** The next acceptance number goes to the end of the queue. */
  lemma {:induction false} AccountedWait(p: Pipe, q: Pipe, m: Message)
    requires Accounted(p) && InOrder(p) && m.tag == |p.accepted|
    requires q.core.pending == p.core.pending + [m] && q.dropped == p.dropped && q.started == p.started
    requires q.accepted == p.accepted + [m.kind]
    ensures Accounted(q)
  {
    var k := |p.core.pending|;
    assert q.core.pending[k] == m;
    forall n: nat
      ensures Waits(q, n) <==> Waits(p, n) || n == m.tag
    {
      if Waits(p, n) {
        var j :| 0 <= j < k && p.core.pending[j].tag == n;
        assert q.core.pending[j].tag == n;
      }
    }
  }

  /** The oldest waiting message starts. */
  lemma {:induction false} AccountedStart(p: Pipe, q: Pipe)
    requires Accounted(p) && InOrder(p) && p.core.pending != []
    requires q.core.pending == p.core.pending[1..] && q.dropped == p.dropped && q.accepted == p.accepted
    requires q.started == p.started + [p.core.pending[0].tag]
    ensures Accounted(q)
  {
    forall n: nat
      ensures Waits(p, n) <==> Waits(q, n) || n == p.core.pending[0].tag
      ensures Waits(q, n) ==> n != p.core.pending[0].tag
    {
      if Waits(q, n) {
        var j :| 0 <= j < |q.core.pending| && q.core.pending[j].tag == n;
        assert p.core.pending[j + 1].tag == n;
      }
      if Waits(p, n) && n != p.core.pending[0].tag {
        var j :| 0 <= j < |p.core.pending| && p.core.pending[j].tag == n;
        assert q.core.pending[j - 1].tag == n;
      }
    }
  }

  lemma {:induction false} AccountedAccept(p: Pipe, i: nat)
    requires Good(p) && i < |p.arriving|
    ensures Accounted(After(p, Accept(i)))
  {
    var q := After(p, Accept(i));
    var m := Message(p.arriving[i], |p.accepted|);
    if p.core.lastFinished {
      assert q.started == p.started + [m.tag];
      assert q.started[|p.started|] == m.tag;
    } else if m.kind == MtMaster {
      var mid := p.(core := p.core.(pending := []), dropped := Dropping(p, MasterArrived));
      AccountedDrop(p, mid, MasterArrived);
      AccountedWait(mid, q, m);
    } else {
      AccountedWait(p, q, m);
    }
  }

  lemma {:induction false} AccountedStep(p: Pipe, step: Step)
    requires Good(p) && Enabled(p, step)
    ensures Accounted(After(p, step))
  {
    var q := After(p, step);
    match step
    case Accept(i) => AccountedAccept(p, i);
    case CommitDone(i) =>
      if !Continues(p.flights[i].reply, p.flights[i].conn) {
        AccountedDrop(p, q, SessionClosed);
      } else if p.core.pending != [] {
        AccountedStart(p, q);
      }
    case NewConnection(conn) => AccountedDrop(p, q, Reconnected);
    case _ =>
      assert q.core.pending == p.core.pending;
  }

  /** In every interleaving: at most one message is in flight, `last_finished_` means that none is and that none
      waits, messages start in acceptance order, and every accepted message is started, waiting, or dropped. Every
      message that came is on its way, accepted, refused by a closed session, or a ping that came while another
      message waited. */
  lemma {:induction false} PipelineSafe(conn: nat, steps: seq<Step>)
    requires Run(Start(conn), steps).Some?
    ensures Good(Run(Start(conn), steps).value)
  {
    if steps != [] {
      var p := Run(Start(conn), steps[..|steps| - 1]).value;
      PipelineSafe(conn, steps[..|steps| - 1]);
      OneInFlightStep(p, steps[|steps| - 1]);
      InOrderStep(p, steps[|steps| - 1]);
      AccountedStep(p, steps[|steps| - 1]);
      BookedStep(p, steps[|steps| - 1]);
    }
  }

  /** What makes a step drop waiting messages: MT_MASTER arriving, a close, or a reconnect. */
  predicate Drops(p: Pipe, step: Step)
    requires Enabled(p, step)
  {
    match step
    case Accept(i) => !p.core.lastFinished && p.arriving[i] == MtMaster
    case CommitDone(i) => !Continues(p.flights[i].reply, p.flights[i].conn)
    case NewConnection(_) => true
    case _ => false
  }

  lemma {:induction false} DroppedAtAccept(p: Pipe, i: nat, n: nat)
    requires Accounted(p) && i < |p.arriving| && Waits(p, n)
    ensures n in After(p, Accept(i)).dropped <==> Drops(p, Accept(i))
  {
    DroppingAll(p, MasterArrived, n);
  }

  lemma {:induction false} DroppedAtCommit(p: Pipe, i: nat, n: nat)
    requires Accounted(p) && Enabled(p, CommitDone(i)) && Waits(p, n)
    ensures n in After(p, CommitDone(i)).dropped <==> Drops(p, CommitDone(i))
  {
    DroppingAll(p, SessionClosed, n);
  }

  lemma {:induction false} DroppedIff(p: Pipe, step: Step, n: nat)
    requires Good(p) && Enabled(p, step) && Waits(p, n)
    ensures n in After(p, step).dropped <==> Drops(p, step)
  {
    match step
    case Accept(i) => DroppedAtAccept(p, i, n);
    case CommitDone(i) => DroppedAtCommit(p, i, n);
    case NewConnection(_) => DroppingAll(p, Reconnected, n);
    case _ =>
  }

  lemma {:induction false} StaysAtAccept(p: Pipe, i: nat, j: nat)
    requires OneInFlight(p) && i < |p.arriving| && j < |p.core.pending| && !Drops(p, Accept(i))
    ensures j < |After(p, Accept(i)).core.pending| && After(p, Accept(i)).core.pending[j] == p.core.pending[j]
  {
  }

  lemma {:induction false} StaysOrStarts(p: Pipe, step: Step, n: nat)
    requires Good(p) && Enabled(p, step) && Waits(p, n) && !Drops(p, step)
    ensures || Waits(After(p, step), n)
            || (step.CommitDone? && n in After(p, step).started && n == p.core.pending[0].tag)
  {
    var q := After(p, step);
    var j :| 0 <= j < |p.core.pending| && p.core.pending[j].tag == n;
    match step
    case CommitDone(i) =>
      if j == 0 {
        assert q.started[|p.started|] == n;
      } else {
        assert q.core.pending[j - 1].tag == n;
      }
    case Accept(i) => StaysAtAccept(p, i, j);
    case NewConnection(_) =>
    case _ => assert q.core.pending == p.core.pending;
  }

  /** A waiting message is dropped by those steps, and by no other; any other step leaves it waiting or starts it,
      and only the oldest one is started. */
  lemma {:induction false} DroppedExactly(p: Pipe, step: Step, n: nat)
    requires Good(p) && Enabled(p, step) && Waits(p, n)
    ensures n in After(p, step).dropped <==> Drops(p, step)
    ensures !Drops(p, step) ==>
              || Waits(After(p, step), n)
              || (step.CommitDone? && n in After(p, step).started && n == p.core.pending[0].tag)
  {
    DroppedIff(p, step, n);
    if !Drops(p, step) {
      StaysOrStarts(p, step, n);
    }
  }

  // -------- A reply that straddles a reconnect --------

  /** Done took its connection and its reply before, and either of them closes the session. */
  predicate ClosingDone(p: Pipe) {
    |p.flights| == 1 && p.flights[0].Finishing? && !Continues(p.flights[0].reply, p.flights[0].conn)
  }

  /** From here on nothing closes the session of itself: each Done that begins finds a connection and answers with
      an ordinary reply. There is no further reconnect. */
  predicate Undisturbed(p: Pipe, step: Step)
    requires Enabled(p, step)
  {
    match step
    case BeginDone(i, notMaster) => Continues(if notMaster then MtMaster else p.flights[i].m.kind, p.core.conn)
    case NewConnection(_) => false
    case _ => true
  }

  predicate UndisturbedRun(p: Pipe, steps: seq<Step>) {
    steps == [] ||
    var before, last := steps[..|steps| - 1], steps[|steps| - 1];
    && UndisturbedRun(p, before) && Run(p, before).Some?
    && Enabled(Run(p, before).value, last) && Undisturbed(Run(p, before).value, last)
  }

  /** Some Done ended. */
  predicate Committed(steps: seq<Step>) {
    steps != [] && (Committed(steps[..|steps| - 1]) || steps[|steps| - 1].CommitDone?)
  }

  /** After a reconnect of p: `done` says whether some Done has ended since. */
  ghost predicate Straddles(p: Pipe, q: Pipe, done: bool) {
    && OneInFlight(q)
    && (q.core.closed <==> ClosingDone(p) && done)
    && if ClosingDone(p) && !done then q.flights == p.flights
       else
         forall i :: 0 <= i < |q.flights| && q.flights[i].Finishing? ==>
           Continues(q.flights[i].reply, q.flights[i].conn)
  }

  lemma {:induction false} StraddleStep(p: Pipe, q: Pipe, done: bool, step: Step)
    requires Straddles(p, q, done) && Enabled(q, step) && Undisturbed(q, step)
    ensures Straddles(p, After(q, step), done || step.CommitDone?)
  {
    OneInFlightStep(q, step);
  }

  lemma {:induction false} StraddleRun(p: Pipe, q: Pipe, steps: seq<Step>)
    requires Straddles(p, q, false) && UndisturbedRun(q, steps)
    ensures Run(q, steps).Some? && Straddles(p, Run(q, steps).value, Committed(steps))
  {
    if steps != [] {
      var before := steps[..|steps| - 1];
      StraddleRun(p, q, before);
      StraddleStep(p, Run(q, before).value, Committed(before), steps[|steps| - 1]);
    }
  }

  /** A reconnect reopens the session, yet a Done that began before it can close it again. In every run after a
      reconnect in which nothing else would close it, the session is closed if and only if such a Done, with no
      connection or with a reply of type MT_MASTER or MT_CLOSE, was on its way at the reconnect, and has ended. */
  lemma {:induction false} StaleDoneCloses(p: Pipe, conn: nat, steps: seq<Step>)
    requires Good(p) && UndisturbedRun(After(p, NewConnection(conn)), steps)
    ensures var run := Run(After(p, NewConnection(conn)), steps);
            run.Some? && (run.value.core.closed <==> ClosingDone(p) && Committed(steps))
  {
    StraddleRun(p, After(p, NewConnection(conn)), steps);
  }

  lemma {:induction false} RunSnoc(p: Pipe, steps: seq<Step>, step: Step)
    requires Run(p, steps).Some? && Enabled(Run(p, steps).value, step)
    ensures Run(p, steps + [step]) == Some(After(Run(p, steps).value, step))
  {
    assert (steps + [step])[..|steps|] == steps;
  }

  /** It happens: the connection is lost while a message is handled, its Done begins, the client reconnects, and
      the Done ends. */
  lemma {:induction false} StaleDoneReachable(first: nat, second: nat, kind: MessageType)
    ensures var before := [Arrive(kind), Accept(0), ConnectionLost, BeginDone(0, false), NewConnection(second)];
            var reopened, ended := Run(Start(first), before), Run(Start(first), before + [CommitDone(0)]);
            && reopened.Some? && !reopened.value.core.closed && reopened.value.core.conn == Some(second)
            && ended.Some? && ended.value.core.closed
  {
    DoneWithoutConnection(first, kind);
    var s4 := [Arrive(kind), Accept(0), ConnectionLost, BeginDone(0, false)];
    var s5 := [Arrive(kind), Accept(0), ConnectionLost, BeginDone(0, false), NewConnection(second)];
    assert s4 + [NewConnection(second)] == s5;
    RunSnoc(Start(first), s4, NewConnection(second));
    RunSnoc(Start(first), s5, CommitDone(0));
  }

  /** The connection is lost while a message is handled, and its Done begins. */
  lemma {:induction false} DoneWithoutConnection(first: nat, kind: MessageType)
    ensures var p := Run(Start(first), [Arrive(kind), Accept(0), ConnectionLost, BeginDone(0, false)]);
            p.Some? && p.value.flights == [Finishing(Message(kind, 0), kind, None)]
  {
    var p := Start(first);
    var s1, s2, s3 := [Arrive(kind)], [Arrive(kind), Accept(0)], [Arrive(kind), Accept(0), ConnectionLost];
    assert [] + [Arrive(kind)] == s1 && s1 + [Accept(0)] == s2 && s2 + [ConnectionLost] == s3;
    assert s3 + [BeginDone(0, false)] == [Arrive(kind), Accept(0), ConnectionLost, BeginDone(0, false)];
    AcceptOne(p, kind);
    assert p.flights + [Handling(Message(kind, 0))] == [Handling(Message(kind, 0))];
    RunSnoc(p, [], Arrive(kind));
    RunSnoc(p, s1, Accept(0));
    RunSnoc(p, s2, ConnectionLost);
    RunSnoc(p, s3, BeginDone(0, false));
  }

  // -------- A request that is sent twice --------

  /** The only flight is at its reply: this message, answered with its own type on this connection. */
  predicate Answering(p: Option<Pipe>, m: Message, conn: nat) {
    p.Some? && p.value.flights == [Finishing(m, m.kind, Some(conn))]
  }

  function SentTwice(kind: MessageType, second: nat): seq<Step> {
    [Arrive(kind), Accept(0), ConnectionLost, NewConnection(second), Arrive(kind), Accept(0), BeginDone(0, false)]
  }

  /** A request in flight when its client reconnects is answered on the new connection, and so is the copy that the
      client sends again there: the session handles both, one after the other. */
  lemma {:induction false} AnsweredTwice(first: nat, second: nat, kind: MessageType)
    requires kind != MtPing && kind != MtMaster && kind != MtClose
    ensures var once := SentTwice(kind, second);
            var twice := once + [CommitDone(0), BeginDone(0, false)];
            && Answering(Run(Start(first), once), Message(kind, 0), second)
            && Answering(Run(Start(first), twice), Message(kind, 1), second)
            && Run(Start(first), twice).value.started == [0, 1]
  {
    CopyWaits(first, second, kind);
    var p, once := Start(first), SentTwice(kind, second);
    var twice := once + [CommitDone(0), BeginDone(0, false)];
    var s6, s8 := once[..6], once + [CommitDone(0)];
    assert s6 + [BeginDone(0, false)] == once && s8 + [BeginDone(0, false)] == twice;
    RunSnoc(p, s6, BeginDone(0, false));
    RunSnoc(p, once, CommitDone(0));
    RunSnoc(p, s8, BeginDone(0, false));
  }

  /** One message arrives and is accepted. */
  lemma {:induction false} AcceptOne(p: Pipe, kind: MessageType)
    requires p.arriving == [] && Admits(p.core) && !Ignores(p.core, kind)
    ensures After(p, Arrive(kind)) == p.(arriving := [kind], book := After(p, Arrive(kind)).book)
    ensures var m := Message(kind, |p.accepted|);
            var arrived := After(p, Arrive(kind));
            var q := p.(accepted := p.accepted + [kind], book := After(arrived, Accept(0)).book);
            After(arrived, Accept(0)) ==
              if p.core.lastFinished then
                q.(core := p.core.(lastFinished := false), flights := p.flights + [Handling(m)],
                   started := p.started + [m.tag])
              else if kind == MtMaster then
                q.(core := p.core.(pending := [m]), dropped := Dropping(p, MasterArrived))
              else q.(core := p.core.(pending := p.core.pending + [m]))
  {
    assert p.arriving + [kind] == [kind] && Without([kind], 0) == [];
    assert [] + [Message(kind, |p.accepted|)] == [Message(kind, |p.accepted|)];
  }

  /** The pipe is there, with nothing on its way and nothing dropped. */
  ghost predicate Reached(p: Option<Pipe>, core: Core, flights: seq<Flight>, accepted: seq<MessageType>,
                          started: seq<nat>)
  {
    p.Some? && p.value == Pipe(core, [], flights, accepted, started, map[], p.value.book)
  }

  lemma {:induction false} InFlightAtReconnect(first: nat, second: nat, kind: MessageType)
    ensures Reached(Run(Start(first), SentTwice(kind, second)[..4]),
                    Core(false, false, Some(second), []), [Handling(Message(kind, 0))], [kind], [0])
  {
    var p := Start(first);
    var s1, s2, s3 := [Arrive(kind)], [Arrive(kind), Accept(0)], [Arrive(kind), Accept(0), ConnectionLost];
    assert [] + [Arrive(kind)] == s1 && s1 + [Accept(0)] == s2 && s2 + [ConnectionLost] == s3;
    assert s3 + [NewConnection(second)] == SentTwice(kind, second)[..4];
    AcceptOne(p, kind);
    var q := After(After(p, Arrive(kind)), Accept(0));
    RunSnoc(p, [], Arrive(kind));
    RunSnoc(p, s1, Accept(0));
    RunSnoc(p, s2, ConnectionLost);
    RunSnoc(p, s3, NewConnection(second));
    assert p.accepted + [kind] == [kind] && p.started + [0] == [0];
    assert p.flights + [Handling(Message(kind, 0))] == [Handling(Message(kind, 0))];
    assert Dropping(q, Reconnected) == map[];
  }

  lemma {:induction false} CopyWaits(first: nat, second: nat, kind: MessageType)
    requires kind != MtPing && kind != MtMaster && kind != MtClose
    ensures var m, copy := Message(kind, 0), Message(kind, 1);
            Reached(Run(Start(first), SentTwice(kind, second)[..6]),
                    Core(false, false, Some(second), [copy]), [Handling(m)], [kind, kind], [0])
  {
    var p, steps := Start(first), SentTwice(kind, second);
    assert steps[..4] + [Arrive(kind)] == steps[..5] && steps[..5] + [Accept(0)] == steps[..6];
    var copy, none: seq<Message> := Message(kind, 1), [];
    assert none + [copy] == [copy] && [kind] + [kind] == [kind, kind];
    InFlightAtReconnect(first, second, kind);
    AcceptOne(Run(p, steps[..4]).value, kind);
    RunSnoc(p, steps[..4], Arrive(kind));
    RunSnoc(p, steps[..5], Accept(0));
  }
}
