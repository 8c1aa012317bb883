/** One-shot watches. Abstractly a registry is a set of (path, watcher) pairs; the server keeps it as two
    maps that must stay inverse, because two of its loops look up one map from the other unchecked. */
module Watches {
  import opened Proto

  // Watchers are the server's sessions; a number identifies one.
  datatype Watcher = Watcher(session: nat)

  type Registry = set<(string, Watcher)>

  datatype Delivery = Delivery(watcher: Watcher, path: string, event: EventType)

  function WatchersOf(r: Registry, path: string): set<Watcher> {
    set e | e in r && e.0 == path :: e.1
  }

  function WithoutWatcher(r: Registry, watcher: Watcher): Registry {
    set e | e in r && e.1 != watcher
  }

  function WithoutPath(r: Registry, path: string): Registry {
    set e | e in r && e.0 != path
  }

  function WithoutPaths(r: Registry, paths: set<string>): Registry {
    set e | e in r && e.0 !in paths
  }

  // -------- Announcements --------

  /** What is due to the watchers of the given paths. */
  function Due(r: Registry, paths: set<string>, event: EventType): set<Delivery> {
    set e | e in r && e.0 in paths :: Delivery(e.1, e.0, event)
  }

  ghost predicate OnceEach(batch: seq<Delivery>, due: set<Delivery>) {
    && (forall i, j :: 0 <= i < j < |batch| ==> batch[i] != batch[j])
    && (forall d :: d in batch <==> d in due)
  }

  /** Between two states the given paths were triggered: whoever was registered for one of them was told once,
      in some order, and is not registered for it any more; nothing else changed. */
  ghost predicate Announced(r: Registry, told: seq<Delivery>, left: Registry, toldNow: seq<Delivery>,
                            paths: set<string>, event: EventType) {
    && left == WithoutPaths(r, paths)
    && told <= toldNow && OnceEach(toldNow[|told|..], Due(r, paths, event))
  }

  lemma {:induction false} AnnouncedNone(r: Registry, told: seq<Delivery>, event: EventType)
    ensures Announced(r, told, r, told, {}, event)
  {
    assert told[|told|..] == [];
  }

  lemma {:induction false} DueOf(r: Registry, paths: set<string>, event: EventType, d: Delivery)
    ensures d in Due(r, paths, event) <==> d.event == event && d.path in paths && (d.path, d.watcher) in r
  {
    if d.event == event && d.path in paths && (d.path, d.watcher) in r {
      var e := (d.path, d.watcher);
      assert d == Delivery(e.1, e.0, event);
    }
  }

  lemma {:induction false} OnceEachSum(a: seq<Delivery>, b: seq<Delivery>, x: set<Delivery>, y: set<Delivery>)
    requires OnceEach(a, x) && OnceEach(b, y) && x !! y
    ensures OnceEach(a + b, x + y)
  {
    assert forall i :: 0 <= i < |a| ==> a[i] in x;
    assert forall j :: 0 <= j < |b| ==> b[j] in y;
  }

  /** Who was told of a path the first time is not due for it the second. */
  lemma {:induction false} DueThen(r: Registry, first: set<string>, second: set<string>, event: EventType)
    ensures var x, y := Due(r, first, event), Due(WithoutPaths(r, first), second, event);
            x !! y && x + y == Due(r, first + second, event)
    ensures WithoutPaths(WithoutPaths(r, first), second) == WithoutPaths(r, first + second)
  {
    var x, y := Due(r, first, event), Due(WithoutPaths(r, first), second, event);
    forall d
      ensures d in Due(r, first + second, event) <==> d in x || d in y
      ensures !(d in x && d in y)
    {
      DueOf(r, first, event, d);
      DueOf(WithoutPaths(r, first), second, event, d);
      DueOf(r, first + second, event, d);
    }
  }

  /** Announcements compose: a watcher who was told of a path the first time is not told of it the second. */
  lemma {:induction false} AnnouncedThen(r0: Registry, t0: seq<Delivery>, r1: Registry, t1: seq<Delivery>,
                                         r2: Registry, t2: seq<Delivery>,
                                         first: set<string>, second: set<string>, event: EventType)
    requires Announced(r0, t0, r1, t1, first, event) && Announced(r1, t1, r2, t2, second, event)
    ensures Announced(r0, t0, r2, t2, first + second, event)
  {
    var a, b := t1[|t0|..], t2[|t1|..];
    assert t2[|t0|..] == a + b;
    DueThen(r0, first, second, event);
    OnceEachSum(a, b, Due(r0, first, event), Due(r1, second, event));
  }

  // -------- Runs --------

  datatype Op = Add(path: string, watcher: Watcher) | Remove(watcher: Watcher) | Trigger(path: string, event: EventType)

  function RegistryAfter(ops: seq<Op>): Registry {
    if ops == [] then {}
    else
      var r := RegistryAfter(ops[..|ops| - 1]);
      match ops[|ops| - 1]
      case Add(path, watcher) => r + {(path, watcher)}
      case Remove(watcher) => WithoutWatcher(r, watcher)
      case Trigger(path, _) => WithoutPath(r, path)
  }

  /** How often the pair was registered, and how often an event went out to it. */
  function Registrations(ops: seq<Op>, path: string, watcher: Watcher): nat {
    if ops == [] then 0
    else Registrations(ops[..|ops| - 1], path, watcher) + (if ops[|ops| - 1] == Add(path, watcher) then 1 else 0)
  }

  function Deliveries(ops: seq<Op>, path: string, watcher: Watcher): nat {
    if ops == [] then 0
    else
      var before, last := ops[..|ops| - 1], ops[|ops| - 1];
      Deliveries(before, path, watcher) +
      (if last.Trigger? && last.path == path && (path, watcher) in RegistryAfter(before) then 1 else 0)
  }

  /** A registration yields at most one event: deliveries, plus a registration still pending, never exceed
      registrations. */
  lemma {:induction false} OneShot(ops: seq<Op>, path: string, watcher: Watcher)
    ensures Deliveries(ops, path, watcher) + (if (path, watcher) in RegistryAfter(ops) then 1 else 0)
            <= Registrations(ops, path, watcher)
  {
    if ops != [] {
      OneShot(ops[..|ops| - 1], path, watcher);
    }
  }

  /** The pair was added, and since then neither was the watcher removed nor the path triggered. */
  ghost predicate StillWaits(ops: seq<Op>, path: string, watcher: Watcher) {
    exists k :: 0 <= k < |ops| && ops[k] == Add(path, watcher) && LeftAlone(ops, k + 1, path, watcher)
  }

  ghost predicate LeftAlone(ops: seq<Op>, lo: nat, path: string, watcher: Watcher) {
    forall l :: lo <= l < |ops| ==> ops[l] != Remove(watcher) && !(ops[l].Trigger? && ops[l].path == path)
  }

  lemma {:induction false} WaitsNext(ops: seq<Op>, op: Op, path: string, watcher: Watcher)
    ensures StillWaits(ops + [op], path, watcher) <==>
              || op == Add(path, watcher)
              || (StillWaits(ops, path, watcher) && op != Remove(watcher) && !(op.Trigger? && op.path == path))
  {
    var next := ops + [op];
    assert next[|ops|] == op;
    if op == Add(path, watcher) {
      assert LeftAlone(next, |ops| + 1, path, watcher);
    }
    if StillWaits(ops, path, watcher) && op != Remove(watcher) && !(op.Trigger? && op.path == path) {
      var k :| 0 <= k < |ops| && ops[k] == Add(path, watcher) && LeftAlone(ops, k + 1, path, watcher);
      assert next[k] == ops[k] && LeftAlone(next, k + 1, path, watcher);
    }
    if StillWaits(next, path, watcher) && op != Add(path, watcher) {
      var k :| 0 <= k < |next| && next[k] == Add(path, watcher) && LeftAlone(next, k + 1, path, watcher);
      assert k < |ops| && ops[k] == next[k];
      assert forall l :: k + 1 <= l < |ops| ==> ops[l] == next[l];
      assert LeftAlone(ops, k + 1, path, watcher);
    }
  }

  /** A pair is registered exactly if it still waits. */
  lemma {:induction false} RegisteredIff(ops: seq<Op>, path: string, watcher: Watcher)
    ensures (path, watcher) in RegistryAfter(ops) <==> StillWaits(ops, path, watcher)
  {
    if ops != [] {
      var n := |ops| - 1;
      RegisteredIff(ops[..n], path, watcher);
      WaitsNext(ops[..n], ops[n], path, watcher);
      assert ops[..n] + [ops[n]] == ops;
    }
  }

  // -------- What the watchers saw --------

  /** How often the watcher was told of the path. */
  function TimesTold(told: seq<Delivery>, path: string, watcher: Watcher): nat {
    if told == [] then 0
    else
      var last := told[|told| - 1];
      TimesTold(told[..|told| - 1], path, watcher) + (if last.path == path && last.watcher == watcher then 1 else 0)
  }

  ghost predicate ToldAsOften(history: seq<Op>, told: seq<Delivery>, path: string, watcher: Watcher) {
    TimesTold(told, path, watcher) == Deliveries(history, path, watcher)
  }

  /** The registry and the deliveries are those of the calls made so far. */
  ghost predicate Recorded(history: seq<Op>, r: Registry, told: seq<Delivery>) {
    && r == RegistryAfter(history)
    && forall path, watcher {:trigger ToldAsOften(history, told, path, watcher)} ::
         ToldAsOften(history, told, path, watcher)
  }

  lemma {:induction false} TimesToldSum(a: seq<Delivery>, b: seq<Delivery>, path: string, watcher: Watcher)
    ensures TimesTold(a + b, path, watcher) == TimesTold(a, path, watcher) + TimesTold(b, path, watcher)
    decreases |b|
  {
    if b == [] {
      assert a + b == a;
    } else {
      assert (a + b)[..|a + b| - 1] == a + b[..|b| - 1];
      TimesToldSum(a, b[..|b| - 1], path, watcher);
    }
  }

  lemma {:induction false} RecordedQuietly(history: seq<Op>, r: Registry, told: seq<Delivery>, op: Op)
    requires Recorded(history, r, told) && !op.Trigger?
    ensures Recorded(history + [op], RegistryAfter(history + [op]), told)
  {
    assert (history + [op])[..|history|] == history;
    forall path, watcher
      ensures ToldAsOften(history + [op], told, path, watcher)
    {
      assert ToldAsOften(history, told, path, watcher);
    }
  }

  /** A batch that tells each watcher once tells one watcher of one path at most once. */
  lemma {:induction false} ToldOnce(batch: seq<Delivery>, watchers: set<Watcher>, path: string, event: EventType,
                                    p: string, w: Watcher)
    requires DeliversOnce(batch, watchers, path, event)
    ensures TimesTold(batch, p, w) == if p == path && w in watchers then 1 else 0
    decreases |batch|
  {
    if batch != [] {
      var n := |batch| - 1;
      var before, last := batch[..n], batch[n].watcher;
      assert last in watchers;
      forall v
        ensures v in watchers - {last} <==> exists i :: 0 <= i < n && before[i].watcher == v
      {
        if v in watchers - {last} {
          var i :| 0 <= i < |batch| && batch[i].watcher == v;
          assert before[i].watcher == v;
        }
        if i :| 0 <= i < n && before[i].watcher == v {
          assert batch[i].watcher == v;
        }
      }
      ToldOnce(before, watchers - {last}, path, event, p, w);
    } else {
      assert w !in watchers;
    }
  }

  lemma {:induction false} RecordedTrigger(history: seq<Op>, r: Registry, told: seq<Delivery>, batch: seq<Delivery>,
                                           path: string, event: EventType)
    requires Recorded(history, r, told) && DeliversOnce(batch, WatchersOf(r, path), path, event)
    ensures Recorded(history + [Trigger(path, event)], WithoutPath(r, path), told + batch)
  {
    var next := history + [Trigger(path, event)];
    assert next[..|history|] == history;
    forall p, w
      ensures ToldAsOften(next, told + batch, p, w)
    {
      assert ToldAsOften(history, told, p, w);
      TimesToldSum(told, batch, p, w);
      ToldOnce(batch, WatchersOf(r, path), path, event, p, w);
      WatcherOf(r, path, w);
    }
  }

  lemma {:induction false} WatcherOf(r: Registry, path: string, w: Watcher)
    ensures w in WatchersOf(r, path) <==> (path, w) in r
  {
    if (path, w) in r {
      var e := (path, w);
      assert e.1 in WatchersOf(r, path);
    }
  }

  // -------- The two maps --------

  function Entry<K(==), V>(m: map<K, set<V>>, k: K): set<V> {
    if k in m then m[k] else {}
  }

  ghost predicate Mirrored(byPath: map<string, set<Watcher>>, byWatcher: map<Watcher, set<string>>,
                           p: string, w: Watcher)
  {
    w in Entry(byPath, p) <==> p in Entry(byWatcher, w)
  }

  ghost predicate NoneEmpty<K, V>(m: map<K, set<V>>) {
    forall k :: k in m ==> m[k] != {}
  }

  /** The maps are inverse to each other, and neither keeps an empty set. */
  ghost predicate Inverse(byPath: map<string, set<Watcher>>, byWatcher: map<Watcher, set<string>>) {
    && (forall p, w {:trigger Mirrored(byPath, byWatcher, p, w)} :: Mirrored(byPath, byWatcher, p, w))
    && NoneEmpty(byPath) && NoneEmpty(byWatcher)
  }

  ghost function Pairs(byPath: map<string, set<Watcher>>): Registry {
    set p, w | p in byPath && w in byPath[p] :: (p, w)
  }

  lemma {:induction false} PairIn(byPath: map<string, set<Watcher>>, p: string, w: Watcher)
    ensures (p, w) in Pairs(byPath) <==> w in Entry(byPath, p)
  {
  }

  /** `m[k].erase(v)`, and the whole entry once it is empty. */
  function Erase<K, V>(m: map<K, set<V>>, k: K, v: V): map<K, set<V>>
    requires k in m
  {
    if m[k] - {v} == {} then m - {k} else m[k := m[k] - {v}]
  }

  /** `now` is `before` with v erased from every entry but those still to do. */
  ghost predicate Erased<K(!new), V>(before: map<K, set<V>>, now: map<K, set<V>>, todo: set<K>, v: V) {
    && (forall k {:trigger Entry(now, k)} :: Entry(now, k) == Entry(before, k) - (if k in todo then {} else {v}))
    && NoneEmpty(now)
  }

  lemma {:induction false} EraseNext<K(!new), V>(before: map<K, set<V>>, now: map<K, set<V>>, todo: set<K>, v: V, k: K)
    requires Erased(before, now, todo, v) && k in todo && k in now
    ensures Erased(before, Erase(now, k, v), todo - {k}, v)
  {
    var next := Erase(now, k, v);
    forall j
      ensures Entry(next, j) == Entry(before, j) - (if j in todo - {k} then {} else {v})
    {
      assert Entry(next, j) == if j == k then Entry(now, j) - {v} else Entry(now, j);
    }
  }

  lemma {:induction false} EraseStart<K(!new), V>(m: map<K, set<V>>, todo: set<K>, v: V)
    requires NoneEmpty(m) && forall k :: k !in todo ==> v !in Entry(m, k)
    ensures Erased(m, m, todo, v)
  {
  }

  lemma {:induction false} AddKeeps(byPath: map<string, set<Watcher>>, byWatcher: map<Watcher, set<string>>,
                                    path: string, watcher: Watcher)
    requires Inverse(byPath, byWatcher)
    ensures var a := byPath[path := Entry(byPath, path) + {watcher}];
            var b := byWatcher[watcher := Entry(byWatcher, watcher) + {path}];
            Inverse(a, b) && Pairs(a) == Pairs(byPath) + {(path, watcher)}
  {
    var a := byPath[path := Entry(byPath, path) + {watcher}];
    var b := byWatcher[watcher := Entry(byWatcher, watcher) + {path}];
    forall p, w
      ensures Mirrored(a, b, p, w) && ((p, w) in Pairs(a) <==> (p, w) in Pairs(byPath) + {(path, watcher)})
    {
      assert Mirrored(byPath, byWatcher, p, w);
      PairIn(a, p, w);
      PairIn(byPath, p, w);
    }
  }

  lemma {:induction false} RemoveKeeps(byPath: map<string, set<Watcher>>, byWatcher: map<Watcher, set<string>>,
                    a: map<string, set<Watcher>>, watcher: Watcher)
    requires Inverse(byPath, byWatcher) && Erased(byPath, a, {}, watcher)
    ensures Inverse(a, byWatcher - {watcher}) && Pairs(a) == WithoutWatcher(Pairs(byPath), watcher)
  {
    var b := byWatcher - {watcher};
    forall p, w
      ensures Mirrored(a, b, p, w) && ((p, w) in Pairs(a) <==> (p, w) in WithoutWatcher(Pairs(byPath), watcher))
    {
      assert Mirrored(byPath, byWatcher, p, w);
      PairIn(a, p, w);
      PairIn(byPath, p, w);
    }
  }

  lemma {:induction false} TriggerKeeps(byPath: map<string, set<Watcher>>, byWatcher: map<Watcher, set<string>>,
                     b: map<Watcher, set<string>>, path: string)
    requires Inverse(byPath, byWatcher) && Erased(byWatcher, b, {}, path)
    ensures Inverse(byPath - {path}, b) && Pairs(byPath - {path}) == WithoutPath(Pairs(byPath), path)
  {
    var a := byPath - {path};
    forall p, w
      ensures Mirrored(a, b, p, w) && ((p, w) in Pairs(a) <==> (p, w) in WithoutPath(Pairs(byPath), path))
    {
      assert Mirrored(byPath, byWatcher, p, w);
      PairIn(a, p, w);
      PairIn(byPath, p, w);
    }
  }

  lemma {:induction false} WatchersAt(byPath: map<string, set<Watcher>>, path: string)
    ensures WatchersOf(Pairs(byPath), path) == Entry(byPath, path)
  {
    forall w
      ensures w in WatchersOf(Pairs(byPath), path) <==> w in Entry(byPath, path)
    {
      PairIn(byPath, path, w);
      assert w in Entry(byPath, path) ==> (path, w) in Pairs(byPath);
    }
  }

  /** The deliveries of one trigger: each watcher once, in some order. */
  ghost predicate DeliversOnce(batch: seq<Delivery>, watchers: set<Watcher>, path: string, event: EventType) {
    && (forall i :: 0 <= i < |batch| ==> batch[i] == Delivery(batch[i].watcher, path, event))
    && (forall i, j :: 0 <= i < j < |batch| ==> batch[i].watcher != batch[j].watcher)
    && (forall w :: w in watchers <==> exists i :: 0 <= i < |batch| && batch[i].watcher == w)
  }

  class ServerWatchManager {
    var pathToWatches: map<string, set<Watcher>>
    var watchToPaths: map<Watcher, set<string>>
    // What was handed to `Watcher::Process`, in order.
    var processed: seq<Delivery>
    // The calls made so far.
    ghost var history: seq<Op>

    ghost predicate Valid()
      reads this
    {
      Inverse(pathToWatches, watchToPaths) && Recorded(history, Registered(), processed)
    }

    ghost function Registered(): Registry
      reads this
    {
      Pairs(pathToWatches)
    }

    constructor ()
      ensures Valid() && Registered() == {} && processed == [] && history == []
    {
      pathToWatches, watchToPaths, processed, history := map[], map[], [], [];
    }

    /** Whatever was called so far, a registration yielded at most one event. */
    lemma {:induction false} ToldAtMostRegistered(path: string, watcher: Watcher)
      requires Valid()
      ensures TimesTold(processed, path, watcher) + (if (path, watcher) in Registered() then 1 else 0)
              <= Registrations(history, path, watcher)
    {
      assert ToldAsOften(history, processed, path, watcher);
      OneShot(history, path, watcher);
    }

    /** Who is registered is decided by the calls made so far. */
    lemma {:induction false} RegisteredByCalls(path: string, watcher: Watcher)
      requires Valid()
      ensures (path, watcher) in Registered() <==> StillWaits(history, path, watcher)
    {
      RegisteredIff(history, path, watcher);
    }

    method AddWatcher(path: string, watcher: Watcher)
      requires Valid()
      modifies this
      ensures Valid()
      ensures Registered() == old(Registered()) + {(path, watcher)}
      ensures processed == old(processed) && history == old(history) + [Add(path, watcher)]
    {
      RecordedQuietly(history, Registered(), processed, Add(path, watcher));
      history := history + [Add(path, watcher)];
      assert history[..|history| - 1] == old(history);
      AddKeeps(pathToWatches, watchToPaths, path, watcher);
      pathToWatches := pathToWatches[path := Entry(pathToWatches, path) + {watcher}];
      watchToPaths := watchToPaths[watcher := Entry(watchToPaths, watcher) + {path}];
    }

    method RemoveWatcher(watcher: Watcher)
      requires Valid()
      modifies this
      ensures Valid()
      ensures Registered() == WithoutWatcher(old(Registered()), watcher)
      ensures processed == old(processed) && history == old(history) + [Remove(watcher)]
    {
      RecordedQuietly(history, Registered(), processed, Remove(watcher));
      history := history + [Remove(watcher)];
      assert history[..|history| - 1] == old(history);
      ghost var byPath, byWatcher := pathToWatches, watchToPaths;
      forall p | p !in Entry(byWatcher, watcher)
        ensures watcher !in Entry(byPath, p)
      {
        assert Mirrored(byPath, byWatcher, p, watcher);
      }
      EraseStart(byPath, Entry(byWatcher, watcher), watcher);
      if watcher in watchToPaths {
        var todo := watchToPaths[watcher];
        while todo != {}
          invariant todo <= Entry(byWatcher, watcher) && watchToPaths == byWatcher
          invariant Erased(byPath, pathToWatches, todo, watcher)
          invariant processed == old(processed) && history == old(history) + [Remove(watcher)]
        {
          var path :| path in todo;
          assert Mirrored(byPath, byWatcher, path, watcher);
          assert watcher in Entry(pathToWatches, path);
          EraseNext(byPath, pathToWatches, todo, watcher, path);
          pathToWatches := Erase(pathToWatches, path, watcher);
          todo := todo - {path};
        }
        watchToPaths := watchToPaths - {watcher};
      }
      assert watchToPaths == byWatcher - {watcher};
      RemoveKeeps(byPath, byWatcher, pathToWatches, watcher);
    }

    /** The loop of TriggerWatcher: the path's watchers are told and struck off the other map. */
    method TellAll(path: string, event: EventType) returns (ghost batch: seq<Delivery>)
      requires Inverse(pathToWatches, watchToPaths) && path in pathToWatches
      modifies this`watchToPaths, this`processed
      ensures Erased(old(watchToPaths), watchToPaths, {}, path)
      ensures DeliversOnce(batch, pathToWatches[path], path, event) && processed == old(processed) + batch
    {
      ghost var byWatcher := watchToPaths;
      var watchers := pathToWatches[path];
      forall w | w !in watchers
        ensures path !in Entry(byWatcher, w)
      {
        assert Mirrored(pathToWatches, byWatcher, path, w);
      }
      EraseStart(byWatcher, watchers, path);
      batch := [];
      var todo := watchers;
      while todo != {}
        invariant todo <= watchers
        invariant Erased(byWatcher, watchToPaths, todo, path)
        invariant processed == old(processed) + batch
        invariant DeliversOnce(batch, watchers - todo, path, event)
      {
        var watcher :| watcher in todo;
        assert Mirrored(pathToWatches, byWatcher, path, watcher);
        assert path in Entry(watchToPaths, watcher);
        EraseNext(byWatcher, watchToPaths, todo, path, watcher);
        watchToPaths := Erase(watchToPaths, watcher, path);
        DeliverNext(batch, watchers - todo, path, event, watcher);
        assert watchers - (todo - {watcher}) == (watchers - todo) + {watcher};
        batch := batch + [Delivery(watcher, path, event)];
        processed := processed + [Delivery(watcher, path, event)];
        todo := todo - {watcher};
      }
      assert watchers - todo == watchers;
    }

    method TriggerWatcher(path: string, event: EventType)
      requires Valid()
      modifies this
      ensures Valid()
      ensures Announced(old(Registered()), old(processed), Registered(), processed, {path}, event)
      ensures history == old(history) + [Trigger(path, event)]
    {
      ghost var byPath, byWatcher, batch: seq<Delivery> := pathToWatches, watchToPaths, [];
      WatchersAt(byPath, path);
      if path in pathToWatches {
        batch := TellAll(path, event);
        pathToWatches := pathToWatches - {path};
      } else {
        NobodyWatches(byPath, byWatcher, path);
        assert byPath - {path} == byPath;
      }
      assert processed == old(processed) + batch;
      assert processed[|old(processed)|..] == batch;
      TriggerKeeps(byPath, byWatcher, watchToPaths, path);
      DeliversAll(batch, Pairs(byPath), path, event);
      RecordedTrigger(history, Pairs(byPath), old(processed), batch, path, event);
      history := history + [Trigger(path, event)];
    }
  }

  lemma {:induction false} NobodyWatches(byPath: map<string, set<Watcher>>, byWatcher: map<Watcher, set<string>>,
                                         path: string)
    requires Inverse(byPath, byWatcher) && path !in byPath
    ensures Erased(byWatcher, byWatcher, {}, path)
  {
    forall w
      ensures path !in Entry(byWatcher, w)
    {
      assert Mirrored(byPath, byWatcher, path, w);
    }
    EraseStart(byWatcher, {}, path);
  }

  lemma {:induction false} DeliverNext(batch: seq<Delivery>, watchers: set<Watcher>, path: string, event: EventType,
                                       watcher: Watcher)
    requires DeliversOnce(batch, watchers, path, event) && watcher !in watchers
    ensures DeliversOnce(batch + [Delivery(watcher, path, event)], watchers + {watcher}, path, event)
  {
    var next := batch + [Delivery(watcher, path, event)];
    forall w
      ensures w in watchers + {watcher} <==> exists i :: 0 <= i < |next| && next[i].watcher == w
    {
      if w in watchers {
        var i :| 0 <= i < |batch| && batch[i].watcher == w;
        assert next[i].watcher == w;
      }
      assert next[|batch|].watcher == watcher;
    }
  }

  lemma {:induction false} DeliversAll(batch: seq<Delivery>, r: Registry, path: string, event: EventType)
    requires DeliversOnce(batch, WatchersOf(r, path), path, event)
    ensures OnceEach(batch, Due(r, {path}, event))
    ensures WithoutPaths(r, {path}) == WithoutPath(r, path)
  {
    forall d
      ensures d in batch <==> d in Due(r, {path}, event)
    {
      DueOf(r, {path}, event, d);
      WatcherOf(r, path, d.watcher);
      if d in Due(r, {path}, event) {
        var i :| 0 <= i < |batch| && batch[i].watcher == d.watcher;
        assert batch[i] == d;
      }
    }
  }
}
