/** `TimerList`: an ordered set of timers that survives a clock that goes back. Callbacks are finite scripts of
    the operations they may make on the list. */
module TimerQueue {

  // The address of a Timer object. A freed address may be handed out again.
  type TimerId = int

  datatype Timer = Timer(value: nat, interval: nat)

  // What `std::set` orders: the due time, then the address.
  datatype Key = Key(due: nat, id: TimerId)

  datatype Op = Insert(value: nat, interval: nat) | Remove(id: TimerId)

  /** `timers_` and `timer_ptrs_` hold the same timers, each once, under its current `ms_value`. */
  ghost predicate Consistent(timers: set<Key>, ptrs: set<TimerId>, objects: map<TimerId, Timer>) {
    && ptrs == objects.Keys
    && forall e :: e in timers <==> e.id in objects && objects[e.id].value == e.due
  }

  // -------- Clock rollback --------

  function Shift(value: nat, diff: nat): nat {
    if value > diff then value - diff else 0
  }

  /** The value a timer has once the list knows that it is `now`, having last looked at `last`. */
  function Adjusted(value: nat, last: nat, now: nat): nat {
    if now < last then Shift(value, last - now) else value
  }

  /** A rollback preserves the time that remained when the list last looked; a value clamped to 0 belonged to a timer
      that was overdue then. This is the right thing for timers set before the clock went back. */
  lemma {:induction false} RollbackPreserves(value: nat, last: nat, now: nat)
    requires now < last
    ensures value > last - now ==> Adjusted(value, last, now) - now == value - last
    ensures value <= last - now ==> Adjusted(value, last, now) == 0 && value <= last
    ensures Adjusted(value, last, now) <= now <==> value <= last
  {
  }

  /** A timer set after the clock went back is shifted as well. It fires at `now`, before its value, if and only if
      the value lies between `now` and the time at which the list last looked; one that lies beyond comes early by
      the whole of the jump. */
  lemma {:induction false} EarlyIff(value: nat, last: nat, now: nat)
    ensures now < value && Adjusted(value, last, now) <= now <==> now < value <= last
    ensures now < last < value ==> value - Adjusted(value, last, now) == last - now
  {
  }

  /** Order of due times survives, so no timer overtakes another. */
  lemma {:induction false} RollbackKeepsOrder(a: nat, b: nat, last: nat, now: nat)
    requires a <= b
    ensures Adjusted(a, last, now) <= Adjusted(b, last, now)
  {
  }

  function Readjusted(objects: map<TimerId, Timer>, last: nat, now: nat): map<TimerId, Timer> {
    map i | i in objects :: objects[i].(value := Adjusted(objects[i].value, last, now))
  }

  /** A rollback loses no timer and changes nothing of one but its value. */
  lemma {:induction false} RollbackKeepsTimers(objects: map<TimerId, Timer>, last: nat, now: nat, id: TimerId)
    ensures id in Readjusted(objects, last, now) <==> id in objects
    ensures id in objects ==>
              && Readjusted(objects, last, now)[id].interval == objects[id].interval
              && (now >= last ==> Readjusted(objects, last, now)[id].value == objects[id].value)
              && (now < last && objects[id].value > last - now ==>
                    Readjusted(objects, last, now)[id].value == objects[id].value - (last - now))
              && (now < last && objects[id].value <= last - now ==> Readjusted(objects, last, now)[id].value == 0)
  {
  }

  /** The rebuild has dealt with all but the timers still to do. */
  ghost predicate HalfRewound(before: map<TimerId, Timer>, objects: map<TimerId, Timer>, rebuilt: set<Key>,
                              todo: set<Key>, diff: nat)
  {
    && objects.Keys == before.Keys
    && (forall i :: i in before ==>
          objects[i] == before[i].(value := if Key(before[i].value, i) in todo then before[i].value
                                            else Shift(before[i].value, diff)))
    && (forall e :: e in rebuilt <==>
          e.id in before && Key(before[e.id].value, e.id) !in todo && e.due == Shift(before[e.id].value, diff))
  }

  lemma {:induction false} RewindNext(before: map<TimerId, Timer>, objects: map<TimerId, Timer>, rebuilt: set<Key>,
                   todo: set<Key>, diff: nat, it: Key)
    requires HalfRewound(before, objects, rebuilt, todo, diff)
    requires it in todo && it.id in before && before[it.id].value == it.due
    ensures var value := Shift(it.due, diff);
            HalfRewound(before, objects[it.id := objects[it.id].(value := value)], rebuilt + {Key(value, it.id)},
                        todo - {it}, diff)
  {
  }

  lemma {:induction false} RewindDone(before: map<TimerId, Timer>, objects: map<TimerId, Timer>, rebuilt: set<Key>,
                                      last: nat, now: nat)
    requires now < last && HalfRewound(before, objects, rebuilt, {}, last - now)
    ensures objects == Readjusted(before, last, now) && Consistent(rebuilt, before.Keys, objects)
  {
    assert forall i :: i in before ==> objects[i] == Readjusted(before, last, now)[i];
  }

  // -------- The ordered set --------

  predicate AtMost(a: Key, b: Key) {
    a.due < b.due || (a.due == b.due && a.id <= b.id)
  }

  /** `timers_.begin()`. */
  method Begin(timers: set<Key>) returns (first: Key)
    requires timers != {}
    ensures first in timers && forall e :: e in timers ==> AtMost(first, e)
  {
    first :| first in timers;
    var rest := timers - {first};
    while rest != {}
      invariant first in timers && rest <= timers
      invariant forall e :: e in timers && e !in rest ==> AtMost(first, e)
    {
      var e :| e in rest;
      rest := rest - {e};
      if !AtMost(first, e) {
        first := e;
      }
    }
  }

  // -------- Firing --------

  ghost function Due(objects: map<TimerId, Timer>, now: nat): set<TimerId> {
    set i | i in objects && objects[i].value <= now
  }

  function ScriptOf(scripts: map<TimerId, seq<Op>>, id: TimerId): seq<Op> {
    if id in scripts then scripts[id] else []
  }

  /** Callbacks insert only timers that lie in the future. */
  ghost predicate FutureOnly(ops: seq<Op>, now: nat) {
    forall k :: 0 <= k < |ops| && ops[k].Insert? ==> ops[k].value > now
  }

  /** Strictly earlier in the order of the set. */
  predicate Before(a: Key, b: Key) {
    AtMost(a, b) && a != b
  }

  /** What has been fired came in the order of the set, each timer once, at its value at the start. */
  ghost predicate FiredWell(fired: seq<Key>, start: map<TimerId, Timer>, now: nat) {
    && (forall i, j :: 0 <= i < j < |fired| ==> Before(fired[i], fired[j]) && fired[i].id != fired[j].id)
    && (forall i :: 0 <= i < |fired| ==>
          fired[i].due <= now && fired[i].id in start && start[fired[i].id].value == fired[i].due)
  }

  ghost predicate HasFired(fired: seq<Key>, id: TimerId) {
    exists i :: 0 <= i < |fired| && fired[i].id == id
  }

  /** The callback of a fired timer removes the id. */
  ghost predicate RemovedBy(fired: seq<Key>, scripts: map<TimerId, seq<Op>>, id: TimerId) {
    exists i :: 0 <= i < |fired| && Remove(id) in ScriptOf(scripts, fired[i].id)
  }

  /** The callback of a timer that fired and comes before `e` removes e. */
  ghost predicate RemovedBefore(fired: seq<Key>, scripts: map<TimerId, seq<Op>>, e: Key) {
    exists i :: 0 <= i < |fired| && Before(fired[i], e) && Remove(e.id) in ScriptOf(scripts, fired[i].id)
  }

  ghost predicate InsertedBy(fired: seq<Key>, scripts: map<TimerId, seq<Op>>, t: Timer) {
    exists i :: 0 <= i < |fired| && Insert(t.value, t.interval) in ScriptOf(scripts, fired[i].id)
  }

  /** No timer fires once a callback has removed it. */
  ghost predicate NeverAfterRemoval(fired: seq<Key>, scripts: map<TimerId, seq<Op>>) {
    forall i, j :: 0 <= i < j < |fired| ==> Remove(fired[j].id) !in ScriptOf(scripts, fired[i].id)
  }

  /** A timer that was due at the start fires exactly if no timer before it removed it. */
  ghost predicate FiresUnlessRemoved(fired: seq<Key>, start: map<TimerId, Timer>, scripts: map<TimerId, seq<Op>>,
                                     now: nat, id: TimerId)
  {
    id in start && start[id].value <= now ==>
      (HasFired(fired, id) <==> !RemovedBefore(fired, scripts, Key(start[id].value, id)))
  }

  /** Where a timer of the start that no callback removes is now: as it was, if it did not fire; set again one
      interval from now, if it fired and is periodic. */
  ghost predicate Tracked(objects: map<TimerId, Timer>, start: map<TimerId, Timer>, fired: seq<Key>,
                          scripts: map<TimerId, seq<Op>>, now: nat, id: TimerId)
  {
    id in start && !RemovedBy(fired, scripts, id) ==>
      if HasFired(fired, id) then
        start[id].interval > 0 ==> id in objects && objects[id] == Timer(now + start[id].interval, start[id].interval)
      else
        id in objects && objects[id] == start[id]
  }

  /** Every timer in the list is such a timer of the start, or was inserted by a callback. */
  ghost predicate Explained(objects: map<TimerId, Timer>, start: map<TimerId, Timer>, fired: seq<Key>,
                            scripts: map<TimerId, seq<Op>>, now: nat, id: TimerId)
  {
    id in objects ==>
      || (&& id in start && !RemovedBy(fired, scripts, id)
          && objects[id] ==
             if HasFired(fired, id) then Timer(now + start[id].interval, start[id].interval) else start[id])
      || (objects[id].value > now && InsertedBy(fired, scripts, objects[id]))
  }

  /** What one pass of the loop has done: which timers it fired, and what became of all others. */
  ghost predicate FiredExactly(objects: map<TimerId, Timer>, start: map<TimerId, Timer>, fired: seq<Key>,
                               scripts: map<TimerId, seq<Op>>, now: nat)
  {
    && FiredWell(fired, start, now)
    && NeverAfterRemoval(fired, scripts)
    && (forall id {:trigger FiresUnlessRemoved(fired, start, scripts, now, id)} ::
          FiresUnlessRemoved(fired, start, scripts, now, id))
    && (forall id {:trigger Tracked(objects, start, fired, scripts, now, id)} ::
          Tracked(objects, start, fired, scripts, now, id))
    && (forall id {:trigger Explained(objects, start, fired, scripts, now, id)} ::
          Explained(objects, start, fired, scripts, now, id))
  }

  /** A timer that was due, did not fire and is gone was removed by one that comes before it. */
  ghost predicate Excused(start: map<TimerId, Timer>, fired: seq<Key>, scripts: map<TimerId, seq<Op>>, now: nat,
                          id: TimerId)
  {
    id in start && start[id].value <= now && !HasFired(fired, id) && RemovedBy(fired, scripts, id) ==>
      RemovedBefore(fired, scripts, Key(start[id].value, id))
  }

  /** What is due at `now` was there at the start, has not fired and was not removed. */
  ghost predicate Untouched(objects: map<TimerId, Timer>, start: map<TimerId, Timer>, fired: seq<Key>,
                            scripts: map<TimerId, seq<Op>>, now: nat, id: TimerId)
  {
    id in objects && objects[id].value <= now ==>
      id in start && objects[id] == start[id] && !HasFired(fired, id) && !RemovedBy(fired, scripts, id)
  }

  /** The state of one timer between two rounds of the firing loop. */
  ghost predicate Settled(objects: map<TimerId, Timer>, start: map<TimerId, Timer>, fired: seq<Key>,
                          scripts: map<TimerId, seq<Op>>, now: nat, id: TimerId)
  {
    && Tracked(objects, start, fired, scripts, now, id)
    && Explained(objects, start, fired, scripts, now, id)
    && Excused(start, fired, scripts, now, id)
    && Untouched(objects, start, fired, scripts, now, id)
  }

  ghost predicate Midway(objects: map<TimerId, Timer>, start: map<TimerId, Timer>, fired: seq<Key>,
                         scripts: map<TimerId, seq<Op>>, now: nat)
  {
    && FiredWell(fired, start, now)
    && NeverAfterRemoval(fired, scripts)
    && (forall id {:trigger Settled(objects, start, fired, scripts, now, id)} ::
          Settled(objects, start, fired, scripts, now, id))
    && (forall i, id :: 0 <= i < |fired| && id in objects ==> AtMost(fired[i], Key(objects[id].value, id)))
  }

  /** The first timer is taken out, or set again if it is periodic. */
  function Rearmed(objects: map<TimerId, Timer>, id: TimerId, now: nat): map<TimerId, Timer>
    requires id in objects
  {
    if objects[id].interval > 0 then objects[id := Timer(now + objects[id].interval, objects[id].interval)]
    else objects - {id}
  }

  /** One operation; `id` is the address that an insertion gets. */
  function Applied(objects: map<TimerId, Timer>, op: Op, id: TimerId): map<TimerId, Timer> {
    match op
    case Insert(value, interval) => objects[id := Timer(value, interval)]
    case Remove(gone) => objects - {gone}
  }

  function AppliedAll(objects: map<TimerId, Timer>, ops: seq<Op>, ids: seq<TimerId>): map<TimerId, Timer>
    requires |ids| == |ops|
  {
    if ops == [] then objects
    else
      var n := |ops| - 1;
      Applied(AppliedAll(objects, ops[..n], ids[..n]), ops[n], ids[n])
  }

  /** Every insertion got an address that was not in use. */
  predicate Unused(objects: map<TimerId, Timer>, ops: seq<Op>, ids: seq<TimerId>)
    requires |ids| == |ops|
  {
    ops == [] ||
    var n := |ops| - 1;
    && Unused(objects, ops[..n], ids[..n])
    && (ops[n].Insert? ==> ids[n] !in AppliedAll(objects, ops[..n], ids[..n]))
  }

  /** The k-th operation is an insertion, and none of the later ones removes its timer. */
  ghost predicate Stands(ops: seq<Op>, ids: seq<TimerId>, k: nat)
    requires |ids| == |ops|
  {
    k < |ops| && ops[k].Insert? && forall l :: k < l < |ops| ==> ops[l] != Remove(ids[k])
  }

  /** Each insertion whose timer no later operation removed has its timer in the list, each a timer of its own. */
  ghost predicate InsertionsStand(objects: map<TimerId, Timer>, ops: seq<Op>, ids: seq<TimerId>)
    requires |ids| == |ops|
  {
    && (forall k: nat {:trigger Stands(ops, ids, k)} :: Stands(ops, ids, k) ==>
          ids[k] in objects && objects[ids[k]] == Timer(ops[k].value, ops[k].interval))
    && (forall k: nat, l: nat {:trigger Stands(ops, ids, k), Stands(ops, ids, l)} ::
          Stands(ops, ids, k) && Stands(ops, ids, l) && k != l ==> ids[k] != ids[l])
  }

  lemma {:induction false} StandsNext(ops: seq<Op>, ids: seq<TimerId>, op: Op, id: TimerId, k: nat)
    requires |ids| == |ops|
    ensures Stands(ops + [op], ids + [id], k) <==>
              if k == |ops| then op.Insert? else Stands(ops, ids, k) && op != Remove(ids[k])
  {
    var next := ops + [op];
    assert forall l :: 0 <= l < |ops| ==> next[l] == ops[l];
    assert next[|ops|] == op;
  }

  lemma {:induction false} InsertionsStandNext(objects: map<TimerId, Timer>, ops: seq<Op>, ids: seq<TimerId>,
                                               op: Op, id: TimerId)
    requires |ids| == |ops| && InsertionsStand(objects, ops, ids) && (op.Insert? ==> id !in objects)
    ensures InsertionsStand(Applied(objects, op, id), ops + [op], ids + [id])
  {
    forall k: nat
      ensures Stands(ops + [op], ids + [id], k) <==>
                if k == |ops| then op.Insert? else Stands(ops, ids, k) && op != Remove(ids[k])
    {
      StandsNext(ops, ids, op, id, k);
    }
  }

  lemma {:induction false} InsertionsStandAll(objects: map<TimerId, Timer>, ops: seq<Op>, ids: seq<TimerId>,
                                              more: seq<Op>, given: seq<TimerId>)
    requires |ids| == |ops| && |given| == |more| && InsertionsStand(objects, ops, ids) && Unused(objects, more, given)
    ensures InsertionsStand(AppliedAll(objects, more, given), ops + more, ids + given)
  {
    if more == [] {
      assert ops + more == ops && ids + given == ids;
    } else {
      var n := |more| - 1;
      InsertionsStandAll(objects, ops, ids, more[..n], given[..n]);
      var mid := AppliedAll(objects, more[..n], given[..n]);
      InsertionsStandNext(mid, ops + more[..n], ids + given[..n], more[n], given[n]);
      assert ops + more[..n] + [more[n]] == ops + more && ids + given[..n] + [given[n]] == ids + given;
    }
  }

  /** Firing a timer leaves alone what lies in the future. */
  lemma {:induction false} InsertionsStandFire(objects: map<TimerId, Timer>, ops: seq<Op>, ids: seq<TimerId>,
                                               id: TimerId, now: nat)
    requires |ids| == |ops| && InsertionsStand(objects, ops, ids) && FutureOnly(ops, now)
    requires id in objects && objects[id].value <= now
    ensures InsertionsStand(Rearmed(objects, id, now), ops, ids)
  {
  }

  /** All operations of the callbacks of the fired timers, in order. */
  function OpsOf(fired: seq<Key>, scripts: map<TimerId, seq<Op>>): seq<Op> {
    if fired == [] then [] else OpsOf(fired[..|fired| - 1], scripts) + ScriptOf(scripts, fired[|fired| - 1].id)
  }

  lemma {:induction false} OpsOfNext(fired: seq<Key>, scripts: map<TimerId, seq<Op>>, e: Key, now: nat)
    requires FutureOnly(OpsOf(fired, scripts), now) && FutureOnly(ScriptOf(scripts, e.id), now)
    ensures OpsOf(fired + [e], scripts) == OpsOf(fired, scripts) + ScriptOf(scripts, e.id)
    ensures FutureOnly(OpsOf(fired + [e], scripts), now)
  {
    assert (fired + [e])[..|fired|] == fired;
  }

  /** What every insertion of a callback left behind; `ids` are the addresses that they got. */
  ghost predicate InsertionsOf(objects: map<TimerId, Timer>, fired: seq<Key>, scripts: map<TimerId, seq<Op>>,
                               ids: seq<TimerId>, now: nat)
  {
    var ops := OpsOf(fired, scripts);
    |ids| == |ops| && FutureOnly(ops, now) && InsertionsStand(objects, ops, ids)
  }

  lemma {:induction false} InsertionsNext(objects: map<TimerId, Timer>, fired: seq<Key>, scripts: map<TimerId, seq<Op>>,
                                          ids: seq<TimerId>, now: nat, e: Key, given: seq<TimerId>)
    requires InsertionsOf(objects, fired, scripts, ids, now)
    requires e.id in objects && objects[e.id].value <= now && FutureOnly(ScriptOf(scripts, e.id), now)
    requires |given| == |ScriptOf(scripts, e.id)| && Unused(Rearmed(objects, e.id, now), ScriptOf(scripts, e.id), given)
    ensures var after := AppliedAll(Rearmed(objects, e.id, now), ScriptOf(scripts, e.id), given);
            InsertionsOf(after, fired + [e], scripts, ids + given, now)
  {
    OpsOfNext(fired, scripts, e, now);
    InsertionsStandFire(objects, OpsOf(fired, scripts), ids, e.id, now);
    InsertionsStandAll(Rearmed(objects, e.id, now), OpsOf(fired, scripts), ids, ScriptOf(scripts, e.id), given);
  }

  /** What a callback does to the timers that were there, and what else it leaves. */
  ghost predicate ScriptEffect(before: map<TimerId, Timer>, after: map<TimerId, Timer>, ops: seq<Op>, now: nat) {
    && (forall id :: id in before && Remove(id) !in ops ==> id in after && after[id] == before[id])
    && (forall id :: id in after ==>
          || (Remove(id) !in ops && id in before && after[id] == before[id])
          || (after[id].value > now && Insert(after[id].value, after[id].interval) in ops))
  }

  lemma {:induction false} AppliedNext(objects: map<TimerId, Timer>, ops: seq<Op>, ids: seq<TimerId>, op: Op,
                                       id: TimerId)
    requires |ids| == |ops|
    ensures AppliedAll(objects, ops + [op], ids + [id]) == Applied(AppliedAll(objects, ops, ids), op, id)
    ensures Unused(objects, ops + [op], ids + [id]) <==>
              Unused(objects, ops, ids) && (op.Insert? ==> id !in AppliedAll(objects, ops, ids))
  {
    assert (ops + [op])[..|ops|] == ops && (ids + [id])[..|ids|] == ids;
  }

  lemma {:induction false} EffectNext(before: map<TimerId, Timer>, mid: map<TimerId, Timer>, ops: seq<Op>, now: nat,
                                      op: Op, id: TimerId)
    requires ScriptEffect(before, mid, ops, now)
    requires op.Insert? ==> id !in mid && op.value > now
    ensures ScriptEffect(before, Applied(mid, op, id), ops + [op], now)
  {
  }

  lemma {:induction false} EffectOf(objects: map<TimerId, Timer>, ops: seq<Op>, ids: seq<TimerId>, now: nat)
    requires |ids| == |ops| && Unused(objects, ops, ids) && FutureOnly(ops, now)
    ensures ScriptEffect(objects, AppliedAll(objects, ops, ids), ops, now)
  {
    if ops != [] {
      var n := |ops| - 1;
      EffectOf(objects, ops[..n], ids[..n], now);
      EffectNext(objects, AppliedAll(objects, ops[..n], ids[..n]), ops[..n], now, ops[n], ids[n]);
      assert ops[..n] + [ops[n]] == ops;
    }
  }

  lemma {:induction false} FiredNext(fired: seq<Key>, scripts: map<TimerId, seq<Op>>, e: Key, id: TimerId)
    ensures HasFired(fired + [e], id) <==> HasFired(fired, id) || id == e.id
    ensures RemovedBy(fired + [e], scripts, id) <==>
              RemovedBy(fired, scripts, id) || Remove(id) in ScriptOf(scripts, e.id)
  {
    var next := fired + [e];
    assert next[|fired|] == e;
    assert forall i :: 0 <= i < |fired| ==> next[i] == fired[i];
  }

  lemma {:induction false} InsertedNext(fired: seq<Key>, scripts: map<TimerId, seq<Op>>, e: Key, t: Timer)
    ensures InsertedBy(fired + [e], scripts, t) <==>
              InsertedBy(fired, scripts, t) || Insert(t.value, t.interval) in ScriptOf(scripts, e.id)
  {
    var next := fired + [e];
    assert next[|fired|] == e;
    assert forall i :: 0 <= i < |fired| ==> next[i] == fired[i];
  }

  lemma {:induction false} RemovedBeforeNext(fired: seq<Key>, scripts: map<TimerId, seq<Op>>, e: Key, f: Key)
    ensures RemovedBefore(fired + [e], scripts, f) <==>
              RemovedBefore(fired, scripts, f) || (Before(e, f) && Remove(f.id) in ScriptOf(scripts, e.id))
  {
    var next := fired + [e];
    assert next[|fired|] == e;
    assert forall i :: 0 <= i < |fired| ==> next[i] == fired[i];
  }

  /** One round: the first timer e fires and its callback runs. */
  ghost predicate Round(objects: map<TimerId, Timer>, after: map<TimerId, Timer>, scripts: map<TimerId, seq<Op>>,
                        now: nat, e: Key)
  {
    && e.id in objects && objects[e.id].value == e.due <= now
    && (forall id :: id in objects ==> AtMost(e, Key(objects[id].value, id)))
    && ScriptEffect(Rearmed(objects, e.id, now), after, ScriptOf(scripts, e.id), now)
  }

  lemma {:induction false} RoundSettles(objects: map<TimerId, Timer>, after: map<TimerId, Timer>,
                                        start: map<TimerId, Timer>, fired: seq<Key>, scripts: map<TimerId, seq<Op>>,
                                        now: nat, e: Key, id: TimerId)
    requires Settled(objects, start, fired, scripts, now, id) && Settled(objects, start, fired, scripts, now, e.id)
    requires Round(objects, after, scripts, now, e)
    ensures Settled(after, start, fired + [e], scripts, now, id)
  {
    FiredNext(fired, scripts, e, id);
    if id in after {
      InsertedNext(fired, scripts, e, after[id]);
    }
    if id in start {
      RemovedBeforeNext(fired, scripts, e, Key(start[id].value, id));
    }
  }

  lemma {:induction false} RoundNext(objects: map<TimerId, Timer>, after: map<TimerId, Timer>,
                                     start: map<TimerId, Timer>, fired: seq<Key>, scripts: map<TimerId, seq<Op>>,
                                     now: nat, e: Key)
    requires Midway(objects, start, fired, scripts, now) && Round(objects, after, scripts, now, e)
    ensures Midway(after, start, fired + [e], scripts, now)
  {
    assert Settled(objects, start, fired, scripts, now, e.id);
    assert FiredWell(fired + [e], start, now);
    assert NeverAfterRemoval(fired + [e], scripts);
    forall id
      ensures Settled(after, start, fired + [e], scripts, now, id)
    {
      assert Settled(objects, start, fired, scripts, now, id);
      RoundSettles(objects, after, start, fired, scripts, now, e, id);
    }
  }

  lemma {:induction false} RoundShrinks(objects: map<TimerId, Timer>, after: map<TimerId, Timer>,
                                        scripts: map<TimerId, seq<Op>>, now: nat, e: Key)
    requires Round(objects, after, scripts, now, e)
    ensures |Due(after, now)| < |Due(objects, now)|
  {
    forall id | id in Due(after, now)
      ensures id in Due(objects, now) && id != e.id
    {
      assert after[id].value <= now;
      assert id in Rearmed(objects, e.id, now) && after[id] == Rearmed(objects, e.id, now)[id];
    }
    ProperSubset(Due(after, now), Due(objects, now), e.id);
  }

  class TimerList {
    var lastTimeOut: nat
    var timerPtrs: set<TimerId>
    var timers: set<Key>
    // The Timer objects behind the pointers.
    var objects: map<TimerId, Timer>

    ghost predicate Valid()
      reads this
    {
      Consistent(timers, timerPtrs, objects)
    }

    constructor (now: nat)
      ensures Valid() && lastTimeOut == now && objects == map[]
    {
      lastTimeOut, timerPtrs, timers, objects := now, {}, {}, map[];
    }

    /** RunAt, RunAfter and RunEvery in the loop thread; the allocator picks an address that is not in use. */
    method InsertInLoop(value: nat, interval: nat) returns (id: TimerId)
      requires Valid()
      modifies this`timerPtrs, this`timers, this`objects
      ensures Valid() && id !in old(objects) && objects == old(objects)[id := Timer(value, interval)]
    {
      id := FreshId(timerPtrs);
      objects := objects[id := Timer(value, interval)];
      timers := timers + {Key(value, id)};
      timerPtrs := timerPtrs + {id};
    }

    method Remove(id: TimerId)
      requires Valid()
      modifies this`timerPtrs, this`timers, this`objects
      ensures Valid() && objects == old(objects) - {id}
    {
      if id in timerPtrs {
        timerPtrs := timerPtrs - {id};
        var value := objects[id].value;
        objects := objects - {id};
        timers := timers - {Key(value, id)};
      }
    }

    /** The rebuild of the set when the clock was found to have gone back. */
    method Rewind(now: nat)
      requires Valid() && now < lastTimeOut
      modifies this`timers, this`objects
      ensures Valid() && objects == Readjusted(old(objects), lastTimeOut, now)
    {
      ghost var before := objects;
      var diff := lastTimeOut - now;
      var rebuilt: set<Key> := {};
      var todo := timers;
      while todo != {}
        invariant todo <= old(timers) && timers == old(timers)
        invariant HalfRewound(before, objects, rebuilt, todo, diff)
      {
        var it :| it in todo;
        var value := if it.due > diff then it.due - diff else 0;
        RewindNext(before, objects, rebuilt, todo, diff, it);
        objects := objects[it.id := objects[it.id].(value := value)];
        rebuilt := rebuilt + {Key(value, it.id)};
        todo := todo - {it};
      }
      RewindDone(before, objects, rebuilt, lastTimeOut, now);
      timers := rebuilt;
    }

    /** A callback: a finite script of insertions and removals. */
    method RunScript(ops: seq<Op>, now: nat) returns (ghost ids: seq<TimerId>)
      requires Valid() && FutureOnly(ops, now)
      modifies this`timerPtrs, this`timers, this`objects
      ensures Valid() && ScriptEffect(old(objects), objects, ops, now)
      ensures |ids| == |ops| && Unused(old(objects), ops, ids) && objects == AppliedAll(old(objects), ops, ids)
    {
      ids := [];
      var k := 0;
      assert ops[..0] == [];
      while k < |ops|
        invariant 0 <= k <= |ops| && Valid() && |ids| == k
        invariant Unused(old(objects), ops[..k], ids) && objects == AppliedAll(old(objects), ops[..k], ids)
      {
        assert ops[..k + 1] == ops[..k] + [ops[k]];
        ghost var given := RunOp(ops[k]);
        AppliedNext(old(objects), ops[..k], ids, ops[k], given);
        ids := ids + [given];
        k := k + 1;
      }
      assert ops[..k] == ops;
      EffectOf(old(objects), ops, ids, now);
    }

    method RunOp(op: Op) returns (ghost given: TimerId)
      requires Valid()
      modifies this`timerPtrs, this`timers, this`objects
      ensures Valid() && objects == Applied(old(objects), op, given) && (op.Insert? ==> given !in old(objects))
    {
      match op {
        case Insert(value, interval) =>
          var id := InsertInLoop(value, interval);
          given := id;
        case Remove(id) =>
          Remove(id);
          given := id;
      }
    }

    /** Fires what is due at `now`, each timer once and in the order of the set: a timer fires if and only if no
        timer before it removed it. Only later timers are left; `ids` are the addresses that callbacks were given. */
    method RunTimerProcs(now: nat, scripts: map<TimerId, seq<Op>>) returns (fired: seq<Key>, ghost ids: seq<TimerId>)
      requires Valid() && forall id :: FutureOnly(ScriptOf(scripts, id), now)
      modifies this
      ensures Valid() && lastTimeOut == if old(objects) == map[] then old(lastTimeOut) else now
      ensures FiredExactly(objects, Readjusted(old(objects), old(lastTimeOut), now), fired, scripts, now)
      ensures InsertionsOf(objects, fired, scripts, ids, now)
      ensures forall e :: e in timers ==> e.due > now
    {
      if timers == {} {
        NoTimers(timers, timerPtrs, objects);
        return [], [];
      }
      assert objects != map[];
      if now < lastTimeOut {
        Rewind(now);
      } else {
        NoRollback(objects, lastTimeOut, now);
      }
      lastTimeOut := now;
      fired, ids := FireDue(now, scripts);
    }

    /** The `while (true)` loop. */
    method FireDue(now: nat, scripts: map<TimerId, seq<Op>>) returns (fired: seq<Key>, ghost ids: seq<TimerId>)
      requires Valid() && forall id :: FutureOnly(ScriptOf(scripts, id), now)
      modifies this`timerPtrs, this`timers, this`objects
      ensures Valid()
      ensures FiredExactly(objects, old(objects), fired, scripts, now)
      ensures InsertionsOf(objects, fired, scripts, ids, now)
      ensures forall e :: e in timers ==> e.due > now
    {
      fired, ids := [], [];
      ghost var start := objects;
      MidwayStart(start, scripts, now);
      while true
        invariant Valid()
        invariant Midway(objects, start, fired, scripts, now)
        invariant InsertionsOf(objects, fired, scripts, ids, now)
        decreases |Due(objects, now)|
      {
        if timers == {} {
          break;
        }
        var e := Begin(timers);
        if e.due > now {
          break;
        }
        ghost var before := objects;
        FirstIsLeast(timers, timerPtrs, objects, e);
        Fire(e, now);
        ghost var given := RunScript(ScriptOf(scripts, e.id), now);
        InsertionsNext(before, fired, scripts, ids, now, e, given);
        RoundNext(before, objects, start, fired, scripts, now, e);
        RoundShrinks(before, objects, scripts, now, e);
        fired, ids := fired + [e], ids + given;
      }
      NothingDue(timers, timerPtrs, objects, start, fired, scripts, now);
    }

    /** One round of the loop up to the callback. */
    method Fire(e: Key, now: nat)
      requires Valid() && e in timers
      modifies this`timerPtrs, this`timers, this`objects
      ensures Valid() && objects == Rearmed(old(objects), e.id, now)
    {
      var t := e.id;
      timers := timers - {e};
      if objects[t].interval > 0 {
        objects := objects[t := objects[t].(value := now + objects[t].interval)];
        timers := timers + {Key(objects[t].value, t)};
      } else {
        objects := objects - {t};
        timerPtrs := timerPtrs - {t};
      }
    }
  }

  /** A list that last looked at `last` is given one timer, and looks again at `now`: the timer fires early, that is,
      before its value, if and only if the value lies between `now` and `last`. */
  method SetAfterRollback(last: nat, value: nat, now: nat) returns (fired: seq<Key>)
    ensures fired != [] && value > now <==> now < value <= last
    ensures fired == [] <==> value > now && value > last
  {
    var list := new TimerList(last);
    var id := list.InsertInLoop(value, 0);
    ghost var start := Readjusted(list.objects, last, now);
    ghost var ids;
    fired, ids := list.RunTimerProcs(now, map[]);
    OneTimer(list.objects, start, id, fired, now);
    EarlyIff(value, last, now);
  }

  lemma {:induction false} OneTimer(objects: map<TimerId, Timer>, start: map<TimerId, Timer>, id: TimerId,
                                    fired: seq<Key>, now: nat)
    requires start.Keys == {id} && FiredExactly(objects, start, fired, map[], now)
    ensures fired != [] <==> start[id].value <= now
  {
    assert FiresUnlessRemoved(fired, start, map[], now, id);
    if fired != [] {
      assert fired[0].id in start && fired[0].due <= now;
    }
  }

  lemma {:induction false} NoTimers(timers: set<Key>, ptrs: set<TimerId>, objects: map<TimerId, Timer>)
    requires Consistent(timers, ptrs, objects) && timers == {}
    ensures objects == map[]
  {
    assert forall i :: i in objects ==> Key(objects[i].value, i) in timers;
  }

  lemma {:induction false} NoRollback(objects: map<TimerId, Timer>, last: nat, now: nat)
    requires last <= now
    ensures Readjusted(objects, last, now) == objects
  {
    assert forall i :: i in objects ==> Readjusted(objects, last, now)[i] == objects[i];
  }

  lemma {:induction false} FirstIsLeast(timers: set<Key>, ptrs: set<TimerId>, objects: map<TimerId, Timer>, first: Key)
    requires Consistent(timers, ptrs, objects) && first in timers
    requires forall e :: e in timers ==> AtMost(first, e)
    ensures first.id in objects && objects[first.id].value == first.due
    ensures forall id :: id in objects ==> AtMost(first, Key(objects[id].value, id))
  {
    assert forall id :: id in objects ==> Key(objects[id].value, id) in timers;
  }

  lemma {:induction false} MidwayStart(start: map<TimerId, Timer>, scripts: map<TimerId, seq<Op>>, now: nat)
    ensures Midway(start, start, [], scripts, now)
  {
  }

  lemma {:induction false} FiredIffNotRemoved(objects: map<TimerId, Timer>, start: map<TimerId, Timer>, fired: seq<Key>,
                                              scripts: map<TimerId, seq<Op>>, now: nat, id: TimerId)
    requires FiredWell(fired, start, now) && NeverAfterRemoval(fired, scripts)
    requires Settled(objects, start, fired, scripts, now, id) && (id in objects ==> objects[id].value > now)
    ensures FiresUnlessRemoved(fired, start, scripts, now, id)
  {
    if id in start && start[id].value <= now && HasFired(fired, id) {
      var j :| 0 <= j < |fired| && fired[j].id == id;
      assert fired[j] == Key(start[id].value, id);
    }
  }

  lemma {:induction false} NothingDue(timers: set<Key>, ptrs: set<TimerId>, objects: map<TimerId, Timer>,
                                      start: map<TimerId, Timer>, fired: seq<Key>, scripts: map<TimerId, seq<Op>>,
                                      now: nat)
    requires Consistent(timers, ptrs, objects) && Midway(objects, start, fired, scripts, now)
    requires forall e :: e in timers ==> e.due > now
    ensures FiredExactly(objects, start, fired, scripts, now)
  {
    forall id
      ensures FiresUnlessRemoved(fired, start, scripts, now, id)
      ensures Tracked(objects, start, fired, scripts, now, id)
      ensures Explained(objects, start, fired, scripts, now, id)
    {
      assert Settled(objects, start, fired, scripts, now, id);
      assert id in objects ==> Key(objects[id].value, id) in timers;
      FiredIffNotRemoved(objects, start, fired, scripts, now, id);
    }
  }

  /** An address not in use. */
  method FreshId(used: set<TimerId>) returns (id: TimerId)
    ensures id !in used
  {
    id := 0;
    var below: set<TimerId> := {};
    while id in used
      invariant below <= used && forall i :: i in below ==> i < id
      decreases |used - below|
    {
      assert id !in below && used - (below + {id}) < used - below;
      ProperSubset(used - (below + {id}), used - below, id);
      below := below + {id};
      id := id + 1;
    }
  }

  lemma {:induction false} ProperSubset(a: set<TimerId>, b: set<TimerId>, x: TimerId)
    requires a <= b && x in b && x !in a
    ensures |a| < |b|
  {
    assert b == a + (b - a) && x in b - a;
  }
}
