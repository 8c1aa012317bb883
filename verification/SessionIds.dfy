/** Session ids: 42 bits of milliseconds, 12 bits of server id, 10 bits of a cyclic sequence number. */
module SessionIds {

  const MAX_SEQUENCE: nat := 1024
  const MAX_SERVER: nat := 4096
  const MAX_MILLIS: nat := 0x400_0000_0000
  const UINT64: nat := 0x1_0000_0000_0000_0000

  /** `SequenceNumber::GetNext`: what it returns and the counter it leaves. */
  function Wrapped(max: nat, num: nat): nat {
    if num >= max then 0 else num
  }

  class SequenceNumber {
    const max: nat
    var num: nat

    constructor (max: nat)
      ensures this.max == max && num == 0
    {
      this.max := max;
      num := 0;
    }

    method GetNext() returns (result: nat)
      modifies this
      ensures result == Wrapped(max, old(num)) && num == result + 1
    {
      if num >= max {
        num := 0;
      }
      result := num;
      num := num + 1;
    }
  }

  /** The counter after k calls, from 0. */
  function CounterAfter(k: nat): nat {
    if k == 0 then 0 else Wrapped(MAX_SEQUENCE, CounterAfter(k - 1)) + 1
  }

  /** What the call after k others returns. */
  function SequenceOf(k: nat): nat {
    Wrapped(MAX_SEQUENCE, CounterAfter(k))
  }

  lemma {:induction false} SequenceIsCyclic(k: nat)
    ensures SequenceOf(k) == k % MAX_SEQUENCE
  {
    if k > 0 {
      SequenceIsCyclic(k - 1);
    }
  }

  /** The packing as 64-bit arithmetic. */
  function Pack(ms: nat, server: nat, sequence: nat): nat {
    (ms * 0x40_0000 + server * 0x400 + sequence) % UINT64
  }

  /** On the ranges of the three fields, shifting and or-ing is that sum, and shifting back finds the fields. */
  lemma {:induction false} PackedBits(ms: bv64, server: bv64, sequence: bv64)
    requires ms < 0x400_0000_0000 && server < 4096 && sequence < 1024
    ensures var id := (ms << 22) | (server << 10) | sequence;
            && id == ms * 0x40_0000 + server * 0x400 + sequence
            && id >> 22 == ms && (id >> 10) & 0xfff == server && id & 0x3ff == sequence
  {
  }

  /** The fields can be read back from an id. */
  lemma {:induction false} Unpack(ms: nat, server: nat, sequence: nat)
    requires ms < MAX_MILLIS && server < MAX_SERVER && sequence < MAX_SEQUENCE
    ensures var id := Pack(ms, server, sequence);
            && id / 0x40_0000 == ms && id / 0x400 % MAX_SERVER == server && id % MAX_SEQUENCE == sequence
  {
    var low := server * 0x400 + sequence;
    assert ms * 0x40_0000 + low < UINT64;
    assert (ms * 0x40_0000 + low) / 0x40_0000 == ms;
    assert (ms * 0x40_0000 + low) / 0x400 == ms * MAX_SERVER + server;
  }

  /** The id that the k-th call on a server gives out, when the calls happen at the given times. */
  function IdOf(server: nat, clock: seq<nat>, k: nat): nat
    requires k < |clock|
  {
    Pack(clock[k], server, SequenceOf(k))
  }

  /** The times fit the 42 bits that an id has for them. */
  ghost predicate InRange(clock: seq<nat>) {
    forall i :: 0 <= i < |clock| ==> clock[i] < MAX_MILLIS
  }

  /** And they do not go back. */
  ghost predicate Ticking(clock: seq<nat>) {
    InRange(clock) && forall i, j :: 0 <= i < j < |clock| ==> clock[i] <= clock[j]
  }

  function CallsAt(clock: seq<nat>, ms: nat): set<nat> {
    set i: nat | i < |clock| && clock[i] == ms
  }

  ghost predicate AllDistinct(server: nat, clock: seq<nat>) {
    forall i, j :: 0 <= i < j < |clock| ==> IdOf(server, clock, i) != IdOf(server, clock, j)
  }

  ghost function Interval(lo: nat, hi: nat): (r: set<nat>)
    requires lo <= hi
    ensures forall i :: i in r <==> lo <= i < hi
    ensures |r| == hi - lo
    decreases hi
  {
    if lo == hi then {} else Interval(lo, hi - 1) + {hi - 1}
  }

  lemma {:induction false} SubsetSize(a: set<nat>, b: set<nat>)
    requires a <= b
    ensures |a| <= |b|
  {
    assert b == a + (b - a);
  }

  lemma {:induction false} PackInjective(a: nat, b: nat, server: nat, x: nat, y: nat)
    requires a < MAX_MILLIS && b < MAX_MILLIS && server < MAX_SERVER && x < MAX_SEQUENCE && y < MAX_SEQUENCE
    ensures Pack(a, server, x) == Pack(b, server, y) <==> a == b && x == y
  {
    Unpack(a, server, x);
    Unpack(b, server, y);
  }

  lemma {:induction false} RemainderOf(q: nat, r: nat)
    requires r < MAX_SEQUENCE
    ensures (q * MAX_SEQUENCE + r) % MAX_SEQUENCE == r
  {
  }

  lemma {:induction false} DifferenceModulo(i: nat, j: nat)
    requires i < j
    ensures i % MAX_SEQUENCE == j % MAX_SEQUENCE <==> (j - i) % MAX_SEQUENCE == 0
  {
    var a, r := i / MAX_SEQUENCE, i % MAX_SEQUENCE;
    var b, s := j / MAX_SEQUENCE, j % MAX_SEQUENCE;
    assert i == a * MAX_SEQUENCE + r && j == b * MAX_SEQUENCE + s;
    if r <= s {
      assert j - i == (b - a) * MAX_SEQUENCE + (s - r);
      RemainderOf(b - a, s - r);
    } else {
      assert j - i == (b - a - 1) * MAX_SEQUENCE + (MAX_SEQUENCE + s - r);
      RemainderOf(b - a - 1, MAX_SEQUENCE + s - r);
    }
  }

  lemma {:induction false} SameSequence(i: nat, j: nat)
    requires i < j
    ensures SequenceOf(i) == SequenceOf(j) <==> (j - i) % MAX_SEQUENCE == 0
    ensures SequenceOf(i) < MAX_SEQUENCE && SequenceOf(j) < MAX_SEQUENCE
  {
    var x, y := SequenceOf(i), SequenceOf(j);
    assert x == i % MAX_SEQUENCE && y == j % MAX_SEQUENCE by {
      SequenceIsCyclic(i);
      SequenceIsCyclic(j);
    }
    DifferenceModulo(i, j);
  }

  /** On any clock, ids of different calls collide exactly when the calls share the millisecond and lie a multiple
      of 1024 apart. */
  lemma {:induction false} CollisionExact(server: nat, clock: seq<nat>, i: nat, j: nat)
    requires server < MAX_SERVER && InRange(clock) && i < j < |clock|
    ensures IdOf(server, clock, i) == IdOf(server, clock, j) <==>
              clock[i] == clock[j] && (j - i) % MAX_SEQUENCE == 0
  {
    SameSequence(i, j);
    PackInjective(clock[i], clock[j], server, SequenceOf(i), SequenceOf(j));
  }

  lemma {:induction false} BusyMillisecond(clock: seq<nat>, i: nat, ms: nat)
    requires Ticking(clock) && i + MAX_SEQUENCE < |clock| && clock[i] == clock[i + MAX_SEQUENCE] == ms
    ensures |CallsAt(clock, ms)| > MAX_SEQUENCE
  {
    SubsetSize(Interval(i, i + MAX_SEQUENCE + 1), CallsAt(clock, ms));
  }

  lemma {:induction false} BusyMeansFarApart(clock: seq<nat>, ms: nat) returns (i: nat)
    requires Ticking(clock) && |CallsAt(clock, ms)| > MAX_SEQUENCE
    ensures i + MAX_SEQUENCE < |clock| && clock[i] == clock[i + MAX_SEQUENCE]
  {
    i := FirstAt(clock, ms);
    if i + MAX_SEQUENCE >= |clock| || clock[i + MAX_SEQUENCE] != ms {
      SubsetSize(CallsAt(clock, ms), Interval(i, i + MAX_SEQUENCE));
    }
  }

  lemma {:induction false} FirstAt(clock: seq<nat>, ms: nat) returns (i: nat)
    requires CallsAt(clock, ms) != {}
    ensures i < |clock| && clock[i] == ms && forall k :: 0 <= k < i ==> clock[k] != ms
  {
    i := 0;
    var some :| some in CallsAt(clock, ms);
    while clock[i] != ms
      invariant i <= some && forall k :: 0 <= k < i ==> clock[k] != ms
      decreases some - i
    {
      i := i + 1;
    }
  }

  /** On a clock that does not go back, the ids of one server are all distinct if and only if no millisecond sees
      more than 1024 calls. */
  lemma {:induction false} IdsDistinctIff(server: nat, clock: seq<nat>)
    requires server < MAX_SERVER && Ticking(clock)
    ensures AllDistinct(server, clock) <==> forall ms :: |CallsAt(clock, ms)| <= MAX_SEQUENCE
  {
    if !AllDistinct(server, clock) {
      var i, j :| 0 <= i < j < |clock| && IdOf(server, clock, i) == IdOf(server, clock, j);
      CollisionExact(server, clock, i, j);
      assert clock[i] <= clock[i + MAX_SEQUENCE] <= clock[j];
      BusyMillisecond(clock, i, clock[i]);
    }
    if ms: nat :| |CallsAt(clock, ms)| > MAX_SEQUENCE {
      var i := BusyMeansFarApart(clock, ms);
      CollisionExact(server, clock, i, i + MAX_SEQUENCE);
    }
  }

  /** Servers with different ids never give out the same session id. */
  lemma {:induction false} ServersDisjoint(a: nat, b: nat, x: seq<nat>, y: seq<nat>, i: nat, j: nat)
    requires a < MAX_SERVER && b < MAX_SERVER && a != b && InRange(x) && InRange(y) && i < |x| && j < |y|
    ensures IdOf(a, x, i) != IdOf(b, y, j)
  {
    SequenceIsCyclic(i);
    SequenceIsCyclic(j);
    Unpack(x[i], a, SequenceOf(i));
    Unpack(y[j], b, SequenceOf(j));
  }
}
