/** The wheel of buckets with which `SaberServer` times out connections: it refines an idle clock. An entry
    lives as long as some bucket holds it. */
module BucketWheel {

  // A connection's entry; numbers tell entries apart.
  type EntryId = int

  datatype Wheel = Wheel(buckets: seq<seq<EntryId>>, current: nat, index: map<EntryId, int>)

  predicate Shaped(w: Wheel) {
    w.current < |w.buckets|
  }

  function NewWheel(ticks: nat): Wheel {
    Wheel(seq(ticks, _ => []), 0, map[])
  }

  /** `entry->index`, which is -1 in a new entry. */
  function IndexOf(w: Wheel, e: EntryId): int {
    if e in w.index then w.index[e] else -1
  }

  function NextSlot(w: Wheel): nat {
    if w.current + 1 == |w.buckets| then 0 else w.current + 1
  }

  function OnTimer(w: Wheel): Wheel
    requires Shaped(w)
  {
    w.(current := NextSlot(w), buckets := w.buckets[NextSlot(w) := []])
  }

  function UpdateBuckets(w: Wheel, e: EntryId): Wheel
    requires Shaped(w)
  {
    if IndexOf(w, e) == w.current then w
    else
      w.(buckets := w.buckets[w.current := w.buckets[w.current] + [e]],
         index := w.index[e := w.current])
  }

  ghost predicate Alive(w: Wheel, e: EntryId) {
    exists b :: 0 <= b < |w.buckets| && e in w.buckets[b]
  }

  /** The bucket list of one event loop and the `index` fields of its entries. */
  class Buckets {
    var buckets: seq<seq<EntryId>>
    var current: nat
    var index: map<EntryId, int>

    function View(): Wheel
      reads this
    {
      Wheel(buckets, current, index)
    }

    constructor (ticks: nat)
      ensures View() == NewWheel(ticks)
    {
      buckets, current, index := seq(ticks, _ => []), 0, map[];
    }

    method Tick()
      requires Shaped(View())
      modifies this
      ensures View() == OnTimer(old(View()))
    {
      current := current + 1;
      if current == |buckets| {
        current := 0;
      }
      buckets := buckets[current := []];
    }

    method Update(e: EntryId)
      requires Shaped(View())
      modifies this
      ensures View() == UpdateBuckets(old(View()), e)
    {
      if IndexOf(View(), e) != current {
        buckets := buckets[current := buckets[current] + [e]];
        index := index[e := current];
      }
    }
  }

  // -------- Runs --------

  datatype Event = Tick | Join(e: EntryId) | Touch(e: EntryId)

  /** The wheel next to the clock it refines: how many ticks have passed, and which entry was refreshed when. */
  datatype Clocked = Clocked(wheel: Wheel, now: nat, refreshed: set<(EntryId, nat)>)

  function After(c: Clocked, event: Event): Clocked
    requires Shaped(c.wheel)
  {
    match event
    case Tick => c.(wheel := OnTimer(c.wheel), now := c.now + 1)
    case Join(e) => Clocked(UpdateBuckets(c.wheel, e), c.now, c.refreshed + {(e, c.now)})
    case Touch(e) => Clocked(UpdateBuckets(c.wheel, e), c.now, c.refreshed + {(e, c.now)})
  }

  /** A connection makes a new entry; a message can refresh an entry only while some bucket keeps it. */
  ghost predicate Enabled(c: Clocked, event: Event) {
    match event
    case Tick => true
    case Join(e) => e !in c.wheel.index
    case Touch(e) => Alive(c.wheel, e)
  }

  ghost function Run(ticks: nat, events: seq<Event>): Clocked
    requires ticks > 0
    ensures Shaped(Run(ticks, events).wheel) && |Run(ticks, events).wheel.buckets| == ticks
  {
    if events == [] then Clocked(NewWheel(ticks), 0, {})
    else After(Run(ticks, events[..|events| - 1]), events[|events| - 1])
  }

  ghost predicate IsRun(ticks: nat, events: seq<Event>)
    requires ticks > 0
  {
    forall k :: 0 <= k < |events| ==> Enabled(Run(ticks, events[..k]), events[k])
  }

  // -------- The idle clock --------

  /** The bucket that was current d ticks ago. */
  function Slot(w: Wheel, d: nat): nat
    requires Shaped(w) && d < |w.buckets|
  {
    if d <= w.current then w.current - d else w.current - d + |w.buckets|
  }

  ghost predicate RefreshedAt(c: Clocked, e: EntryId, d: nat) {
    d <= c.now && (e, c.now - d) in c.refreshed
  }

  /** A bucket holds an entry exactly when the entry was refreshed in that bucket's tick. */
  ghost predicate Exact(c: Clocked, e: EntryId, d: nat)
    requires Shaped(c.wheel)
  {
    d < |c.wheel.buckets| ==> (e in c.wheel.buckets[Slot(c.wheel, d)] <==> RefreshedAt(c, e, d))
  }

  /** The index of an entry is the bucket of its latest refresh. */
  ghost predicate Latest(c: Clocked, e: EntryId, d: nat)
    requires Shaped(c.wheel)
  {
    d < |c.wheel.buckets| && RefreshedAt(c, e, d) && (forall n :: 0 <= n < d ==> !RefreshedAt(c, e, n)) ==>
      IndexOf(c.wheel, e) == Slot(c.wheel, d)
  }

  ghost predicate Distinct(s: seq<EntryId>) {
    forall i, j :: 0 <= i < j < |s| ==> s[i] != s[j]
  }

  ghost predicate Refines(c: Clocked) {
    && Shaped(c.wheel)
    && (forall e, d: nat {:trigger Exact(c, e, d)} :: Exact(c, e, d))
    && (forall e, d: nat {:trigger Latest(c, e, d)} :: Latest(c, e, d))
    && (forall b :: 0 <= b < |c.wheel.buckets| ==> Distinct(c.wheel.buckets[b]))
    && (forall r :: r in c.refreshed ==> r.1 <= c.now && r.0 in c.wheel.index)
    && (forall e :: e in c.wheel.index ==> c.wheel.index[e] >= 0)
  }

  function Age(w: Wheel, b: nat): (d: nat)
    requires Shaped(w) && b < |w.buckets|
    ensures d < |w.buckets| && Slot(w, d) == b
  {
    if b <= w.current then w.current - b else w.current - b + |w.buckets|
  }

  /** Alive means refreshed less than a full turn of the wheel ago. */
  lemma {:induction false} AliveIffRecent(c: Clocked, e: EntryId)
    requires Refines(c)
    ensures Alive(c.wheel, e) <==> exists d: nat :: d < |c.wheel.buckets| && RefreshedAt(c, e, d)
  {
    if Alive(c.wheel, e) {
      var b :| 0 <= b < |c.wheel.buckets| && e in c.wheel.buckets[b];
      assert Exact(c, e, Age(c.wheel, b));
    }
    if d: nat :| d < |c.wheel.buckets| && RefreshedAt(c, e, d) {
      assert Exact(c, e, d);
      assert e in c.wheel.buckets[Slot(c.wheel, d)];
    }
  }

  lemma {:induction false} LeastAge(c: Clocked, e: EntryId, d: nat) returns (m: nat)
    requires RefreshedAt(c, e, d)
    ensures m <= d && RefreshedAt(c, e, m) && forall n :: 0 <= n < m ==> !RefreshedAt(c, e, n)
  {
    if n :| 0 <= n < d && RefreshedAt(c, e, n) {
      m := LeastAge(c, e, n);
    } else {
      m := d;
    }
  }

  /** An entry's index is current exactly when it was refreshed in this very tick. */
  lemma {:induction false} IndexIsCurrent(c: Clocked, e: EntryId)
    requires Refines(c) && (e !in c.wheel.index || Alive(c.wheel, e))
    ensures IndexOf(c.wheel, e) == c.wheel.current <==> RefreshedAt(c, e, 0)
  {
    if e !in c.wheel.index {
      assert forall d: nat :: !RefreshedAt(c, e, d);
    } else {
      AliveIffRecent(c, e);
      var d: nat :| d < |c.wheel.buckets| && RefreshedAt(c, e, d);
      var m := LeastAge(c, e, d);
      assert Latest(c, e, m);
    }
  }

  lemma {:induction false} TickShifts(c: Clocked, e: EntryId, d: nat)
    requires Refines(c)
    ensures Exact(After(c, Tick), e, d) && Latest(After(c, Tick), e, d)
  {
    var u := After(c, Tick);
    if 0 < d < |c.wheel.buckets| {
      assert Exact(c, e, d - 1) && Latest(c, e, d - 1);
      assert Slot(u.wheel, d) == Slot(c.wheel, d - 1);
      assert forall n: nat :: n < d ==> (RefreshedAt(u, e, n + 1) <==> RefreshedAt(c, e, n));
      assert !RefreshedAt(u, e, 0);
    }
  }

  lemma {:induction false} RefreshShifts(c: Clocked, e: EntryId, x: EntryId, d: nat)
    requires Refines(c) && (e !in c.wheel.index || Alive(c.wheel, e))
    ensures Exact(After(c, Touch(e)), x, d) && Latest(After(c, Touch(e)), x, d)
  {
    var u := After(c, Touch(e));
    IndexIsCurrent(c, e);
    assert Exact(c, x, d) && Latest(c, x, d);
    assert forall n: nat :: RefreshedAt(u, x, n) <==> RefreshedAt(c, x, n) || (x == e && n == 0);
  }

  lemma {:induction false} RefreshRefines(c: Clocked, e: EntryId)
    requires Refines(c) && (e !in c.wheel.index || Alive(c.wheel, e))
    ensures Refines(After(c, Touch(e)))
  {
    var u := After(c, Touch(e));
    forall x, d: nat
      ensures Exact(u, x, d) && Latest(u, x, d)
    {
      RefreshShifts(c, e, x, d);
    }
    IndexIsCurrent(c, e);
    assert Exact(c, e, 0);
    if RefreshedAt(c, e, 0) {
      assert u.wheel == c.wheel;
    }
  }

  lemma {:induction false} EventRefines(c: Clocked, event: Event)
    requires Refines(c) && Enabled(c, event)
    ensures Refines(After(c, event))
  {
    match event
    case Tick =>
      var u := After(c, event);
      forall e, d: nat
        ensures Exact(u, e, d) && Latest(u, e, d)
      {
        TickShifts(c, e, d);
      }
    case Join(e) => RefreshRefines(c, e);
    case Touch(e) => RefreshRefines(c, e);
  }

  lemma {:induction false} RunRefines(ticks: nat, events: seq<Event>)
    requires ticks > 0 && IsRun(ticks, events)
    ensures Refines(Run(ticks, events))
  {
    if events != [] {
      var n := |events| - 1;
      assert forall k :: 0 <= k < n ==> events[..n][..k] == events[..k];
      RunRefines(ticks, events[..n]);
      EventRefines(Run(ticks, events[..n]), events[n]);
    }
  }

  /** The wheel refines the idle clock in every run: an entry is alive iff fewer than `ticks` ticks have passed
      since one of its refreshes, each bucket holds exactly the entries refreshed in its tick, and none twice. */
  lemma {:induction false} WheelIsIdleClock(ticks: nat, events: seq<Event>)
    requires ticks > 0 && IsRun(ticks, events)
    ensures var c := Run(ticks, events);
            && Refines(c)
            && |c.wheel.buckets| == ticks
            && forall e :: Alive(c.wheel, e) <==> Recent(c, e)
  {
    var c := Run(ticks, events);
    RunRefines(ticks, events);
    forall e
      ensures Alive(c.wheel, e) <==> Recent(c, e)
    {
      AliveIffFresh(c, e);
    }
  }

  /** Fewer ticks than there are buckets have passed since a refresh of the entry. */
  ghost predicate Recent(c: Clocked, e: EntryId) {
    exists t :: (e, t) in c.refreshed && c.now - t < |c.wheel.buckets|
  }

  lemma {:induction false} AliveIffFresh(c: Clocked, e: EntryId)
    requires Refines(c)
    ensures Alive(c.wheel, e) <==> Recent(c, e)
  {
    AliveIffRecent(c, e);
    if t :| (e, t) in c.refreshed && c.now - t < |c.wheel.buckets| {
      assert RefreshedAt(c, e, c.now - t);
    }
  }

  // -------- An entry that something else holds --------

  predicate Refreshes(event: Event, e: EntryId) {
    event == Join(e) || event == Touch(e)
  }

  /** How many ticks go by. */
  function Ticks(events: seq<Event>): nat {
    if events == [] then 0 else Ticks(events[..|events| - 1]) + (if events[|events| - 1].Tick? then 1 else 0)
  }

  ghost predicate IdleFor(events: seq<Event>, e: EntryId) {
    forall k :: 0 <= k < |events| ==> !Refreshes(events[k], e)
  }

  /** The current bucket is the tick count modulo the number of buckets. */
  lemma {:induction false} CurrentIsTick(ticks: nat, events: seq<Event>)
    requires ticks > 0
    ensures Run(ticks, events).wheel.current == Run(ticks, events).now % ticks
  {
    if events != [] {
      var c := Run(ticks, events[..|events| - 1]);
      CurrentIsTick(ticks, events[..|events| - 1]);
      NextModulo(c.now, ticks);
    }
  }

  lemma {:induction false} Distribute(a: nat, b: nat, n: nat)
    ensures (a + b) * n == a * n + b * n
  {
  }

  lemma {:induction false} LessTimes(a: nat, b: nat, n: nat)
    requires n > 0
    ensures a < b <==> a * n + n <= b * n
  {
    if a < b {
      Distribute(a + 1, b - a - 1, n);
    } else {
      Distribute(b, a - b, n);
    }
  }

  lemma {:induction false} Remainder(q: nat, n: nat, r: nat)
    requires r < n
    ensures (q * n + r) % n == r
  {
    var x := q * n + r;
    assert x == (x / n) * n + x % n;
    LessTimes(x / n, q, n);
    LessTimes(q, x / n, n);
  }

  lemma {:induction false} SumModulo(t: nat, k: nat, n: nat)
    requires n > 0
    ensures (t + k) % n == if t % n + k % n < n then t % n + k % n else t % n + k % n - n
  {
    var r := t % n + k % n;
    var q := SumQuotient(t, k, n);
    if r < n {
      Remainder(q, n, r);
    } else {
      Distribute(q, 1, n);
      Remainder(q + 1, n, r - n);
    }
  }

  lemma {:induction false} SumQuotient(t: nat, k: nat, n: nat) returns (q: nat)
    requires n > 0
    ensures t + k == q * n + (t % n + k % n)
  {
    assert t == (t / n) * n + t % n && k == (k / n) * n + k % n;
    Distribute(t / n, k / n, n);
    q := t / n + k / n;
  }

  lemma {:induction false} NextModulo(n: nat, ticks: nat)
    requires ticks > 0
    ensures (n + 1) % ticks == if n % ticks + 1 == ticks then 0 else n % ticks + 1
  {
    if ticks > 1 {
      Remainder(0, ticks, 1);
      SumModulo(n, 1, ticks);
    }
  }

  /** Ticks and refreshes of others leave the entry's index and its refresh times alone. */
  lemma {:induction false} IdleKeeps(ticks: nat, events: seq<Event>, idle: seq<Event>, e: EntryId)
    requires ticks > 0 && IdleFor(idle, e)
    ensures var c, d := Run(ticks, events), Run(ticks, events + idle);
            && IndexOf(d.wheel, e) == IndexOf(c.wheel, e)
            && d.now == c.now + Ticks(idle)
            && forall t :: (e, t) in d.refreshed <==> (e, t) in c.refreshed
    decreases |idle|
  {
    if idle == [] {
      assert events + idle == events;
    } else {
      var before := idle[..|idle| - 1];
      assert (events + idle)[..|events + idle| - 1] == events + before;
      IdleKeeps(ticks, events, before, e);
    }
  }

  /** The bucket of the last refresh is current again exactly after whole turns of the wheel. */
  lemma {:induction false} StaleIndex(ticks: nat, events: seq<Event>, idle: seq<Event>, e: EntryId)
    requires ticks > 0 && events != [] && Refreshes(events[|events| - 1], e) && IdleFor(idle, e)
    ensures var w := Run(ticks, events + idle).wheel;
            IndexOf(w, e) == w.current <==> Ticks(idle) % ticks == 0
  {
    var c := Run(ticks, events);
    IdleKeeps(ticks, events, idle, e);
    CurrentIsTick(ticks, events);
    CurrentIsTick(ticks, events + idle);
    SumModulo(c.now, Ticks(idle), ticks);
    assert IndexOf(c.wheel, e) == c.wheel.current;
  }

  /** A full turn without a refresh, and no bucket holds the entry. */
  lemma {:induction false} IdleIsGone(ticks: nat, events: seq<Event>, idle: seq<Event>, e: EntryId)
    requires ticks > 0 && IsRun(ticks, events + idle) && IdleFor(idle, e) && Ticks(idle) >= ticks
    ensures !Alive(Run(ticks, events + idle).wheel, e)
  {
    IdleKeeps(ticks, events, idle, e);
    RefreshedByNow(ticks, events);
    RunRefines(ticks, events + idle);
    AliveIffFresh(Run(ticks, events + idle), e);
  }

  /** The clock needs the buckets to be the only holders. Let an entry go unrefreshed for k ticks, at least a full
      turn, so that no bucket holds it; something else keeps it, and a message comes. The entry is put back if
      and only if k is not a multiple of the number of buckets; otherwise nothing changes at all. */
  lemma {:induction false} HeldEntryIsPutBackIff(ticks: nat, events: seq<Event>, idle: seq<Event>, e: EntryId)
    requires ticks > 0 && IsRun(ticks, events + idle)
    requires events != [] && Refreshes(events[|events| - 1], e)
    requires IdleFor(idle, e) && Ticks(idle) >= ticks
    ensures var w := Run(ticks, events + idle).wheel;
            && !Alive(w, e)
            && (Alive(UpdateBuckets(w, e), e) <==> Ticks(idle) % ticks != 0)
            && (Ticks(idle) % ticks == 0 ==> UpdateBuckets(w, e) == w)
  {
    IdleIsGone(ticks, events, idle, e);
    StaleIndex(ticks, events, idle, e);
    PutBackIff(Run(ticks, events + idle).wheel, e);
  }

  lemma {:induction false} RefreshedByNow(ticks: nat, events: seq<Event>)
    requires ticks > 0
    ensures forall r :: r in Run(ticks, events).refreshed ==> r.1 <= Run(ticks, events).now
  {
    if events != [] {
      RefreshedByNow(ticks, events[..|events| - 1]);
    }
  }

  lemma {:induction false} PutBackIff(w: Wheel, e: EntryId)
    requires Shaped(w) && !Alive(w, e)
    ensures Alive(UpdateBuckets(w, e), e) <==> IndexOf(w, e) != w.current
    ensures IndexOf(w, e) == w.current ==> UpdateBuckets(w, e) == w
  {
    var u := UpdateBuckets(w, e);
    if IndexOf(w, e) != w.current {
      assert u.buckets[w.current][|w.buckets[w.current]|] == e;
      assert e in u.buckets[w.current];
    }
  }

  /** Such a run exists for every wheel: a connection, and then nothing but a full turn of ticks. */
  lemma {:induction false} HeldEntryIsLost(ticks: nat, e: EntryId)
    requires ticks > 0
    ensures var idle := seq(ticks, _ => Tick);
            && IsRun(ticks, [Join(e)] + idle)
            && !Alive(Run(ticks, [Join(e)] + idle).wheel, e)
            && UpdateBuckets(Run(ticks, [Join(e)] + idle).wheel, e) == Run(ticks, [Join(e)] + idle).wheel
  {
    var idle := seq(ticks, _ => Tick);
    var events := [Join(e)] + idle;
    assert events[..0] == [];
    assert IsRun(ticks, events);
    OnlyTicks(ticks);
    HeldEntryIsPutBackIff(ticks, [Join(e)], idle, e);
  }

  lemma {:induction false} OnlyTicks(n: nat)
    ensures Ticks(seq(n, _ => Tick)) == n
  {
    if n > 0 {
      assert seq(n, _ => Tick)[..n - 1] == seq(n - 1, _ => Tick);
      OnlyTicks(n - 1);
    }
  }
}
