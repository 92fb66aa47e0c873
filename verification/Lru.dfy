/** The bounded map under the credential tiers (auth/cache.go). */
module Lru {
  import opened Octets
  import opened Ordering

  /**
   `remove` forgets the value and leaves the key in the queue, so the queue may repeat keys. `born`
   says when each live key was inserted, counting insertions; no code reads it.
   */
  class Cache<K(==), V> {
    const cap: nat
    var data: map<K, V>
    var keys: seq<K>
    ghost var born: map<K, nat>
    ghost var clock: nat

    ghost predicate Valid()
      reads this
    {
      cap > 0 && |keys| <= cap && data.Keys <= Elements(keys) && Stamped(data, keys, born, clock)
    }

    constructor (capacity: nat)
      requires capacity > 0
      ensures Valid() && data == map[] && cap == capacity
    {
      cap := capacity;
      data, keys := map[], [];
      born, clock := map[], 0;
      NothingIsStamped<K, V>();
    }

    method Peek(k: K) returns (v: Option<V>)
      ensures v == if k in data then Some(data[k]) else None
    {
      v := if k in data then Some(data[k]) else None;
    }

    method Put(k: K, v: V)
      requires Valid()
      modifies this
      ensures Valid() && data == Stored(old(data), old(keys), cap, k, v) && keys == Queued(old(data), old(keys), cap, k)
      ensures born == Births(old(data), old(keys), cap, old(born), old(clock), k)
    {
      StoredStaysBounded(data, keys, cap, k, v);
      PutStaysStamped(data, keys, cap, born, clock, k, v);
      born, clock := Births(data, keys, cap, born, clock, k), if k in data then clock else clock + 1;
      if k !in data {
        if |keys| >= cap {
          data := data - {keys[0]};
          keys := keys[1..];
        }
        keys := keys + [k];
      }
      data := data[k := v];
    }

    method Remove(k: K)
      requires Valid()
      modifies this
      ensures Valid() && data == old(data) - {k} && keys == old(keys) && born == old(born) - {k}
    {
      RemoveStaysStamped(data, keys, born, clock, k);
      data, born := data - {k}, born - {k};
    }
  }

  // ---- When keys were inserted.

  /** The position of a key's last insertion in the queue. */
  ghost predicate InsertedAt<K>(keys: seq<K>, k: K, i: nat) {
    i < |keys| && keys[i] == k && forall j :: i < j < |keys| ==> keys[j] != k
  }

  /** `times` are the queue's insertion times, in order. */
  ghost predicate Timed<K>(keys: seq<K>, times: seq<nat>) {
    |times| == |keys| && forall i, j :: 0 <= i < j < |times| ==> times[i] < times[j]
  }

  ghost predicate BornAt<K>(keys: seq<K>, times: seq<nat>, k: K, when: nat) {
    |times| == |keys| && exists i: nat :: InsertedAt(keys, k, i) && times[i] == when
  }

  /** Every live key was inserted when its last place in the queue was taken. */
  ghost predicate StampedBy<K, V>(data: map<K, V>, keys: seq<K>, born: map<K, nat>, clock: nat, times: seq<nat>) {
    && Timed(keys, times) && (forall t :: t in times ==> t < clock)
    && born.Keys == data.Keys && forall k :: k in data ==> BornAt(keys, times, k, born[k])
  }

  ghost predicate Stamped<K, V>(data: map<K, V>, keys: seq<K>, born: map<K, nat>, clock: nat) {
    exists times :: StampedBy(data, keys, born, clock, times)
  }

  /** The insertion times after a put: a new key is born, the evicted one forgotten. */
  function Births<K, V>(data: map<K, V>, keys: seq<K>, cap: nat, born: map<K, nat>, clock: nat, k: K): map<K, nat> {
    if k in data then born
    else (if |keys| >= cap && keys != [] then born - {keys[0]} else born)[k := clock]
  }

  lemma NothingIsStamped<K, V>()
    ensures var none: map<K, V> := map[]; Stamped(none, [], map[], 0)
  {
    var none: map<K, V> := map[];
    assert StampedBy(none, [], map[], 0, []);
  }

  lemma TailKeepsBirth<K>(keys: seq<K>, times: seq<nat>, k: K, when: nat)
    requires keys != [] && BornAt(keys, times, k, when) && k != keys[0]
    ensures BornAt(keys[1..], times[1..], k, when)
  {
    var i: nat :| InsertedAt(keys, k, i) && times[i] == when;
    assert InsertedAt(keys[1..], k, i - 1) && times[1..][i - 1] == when;
  }

  lemma SnocKeepsBirth<K>(keys: seq<K>, times: seq<nat>, k: K, when: nat, other: K, now: nat)
    requires BornAt(keys, times, k, when) && k != other
    ensures BornAt(keys + [other], times + [now], k, when)
  {
    var i: nat :| InsertedAt(keys, k, i) && times[i] == when;
    assert InsertedAt(keys + [other], k, i) && (times + [now])[i] == when;
  }

  lemma SnocIsBorn<K>(keys: seq<K>, times: seq<nat>, k: K, now: nat)
    requires |times| == |keys|
    ensures BornAt(keys + [k], times + [now], k, now)
  {
    assert InsertedAt(keys + [k], k, |keys|) && (times + [now])[|keys|] == now;
  }

  lemma EvictStaysStamped<K, V>(data: map<K, V>, keys: seq<K>, born: map<K, nat>, clock: nat, times: seq<nat>)
    requires keys != [] && StampedBy(data, keys, born, clock, times)
    ensures StampedBy(data - {keys[0]}, keys[1..], born - {keys[0]}, clock, times[1..])
  {
    forall t | t in times[1..] ensures t < clock {
      assert t in times;
    }
    forall k | k in data - {keys[0]} ensures BornAt(keys[1..], times[1..], k, born[k]) {
      TailKeepsBirth(keys, times, k, born[k]);
    }
  }

  lemma InsertStaysStamped<K, V>(
      data: map<K, V>, keys: seq<K>, born: map<K, nat>, clock: nat, times: seq<nat>, k: K, v: V)
    requires StampedBy(data, keys, born, clock, times) && k !in data
    ensures StampedBy(data[k := v], keys + [k], born[k := clock], clock + 1, times + [clock])
  {
    SnocIsBorn(keys, times, k, clock);
    forall x | x in data ensures BornAt(keys + [k], times + [clock], x, born[x]) {
      SnocKeepsBirth(keys, times, x, born[x], k, clock);
    }
    forall i, j | 0 <= i < j < |times + [clock]| ensures (times + [clock])[i] < (times + [clock])[j] {
      assert times[i] in times;
    }
  }

  lemma PutStaysStamped<K, V>(data: map<K, V>, keys: seq<K>, cap: nat, born: map<K, nat>, clock: nat, k: K, v: V)
    requires Stamped(data, keys, born, clock)
    ensures Stamped(Stored(data, keys, cap, k, v), Queued(data, keys, cap, k), Births(data, keys, cap, born, clock, k),
                    if k in data then clock else clock + 1)
  {
    var times :| StampedBy(data, keys, born, clock, times);
    if k in data {
      assert StampedBy(data[k := v], keys, born, clock, times);
    } else {
      var full := |keys| >= cap && keys != [];
      var d, q := if full then data - {keys[0]} else data, if full then keys[1..] else keys;
      var b, ts := if full then born - {keys[0]} else born, if full then times[1..] else times;
      if full {
        EvictStaysStamped(data, keys, born, clock, times);
      }
      InsertStaysStamped(d, q, b, clock, ts, k, v);
    }
  }

  lemma RemoveStaysStamped<K, V>(data: map<K, V>, keys: seq<K>, born: map<K, nat>, clock: nat, k: K)
    requires Stamped(data, keys, born, clock)
    ensures Stamped(data - {k}, keys, born - {k}, clock)
  {
    var times :| StampedBy(data, keys, born, clock, times);
    assert StampedBy(data - {k}, keys, born - {k}, clock, times);
  }

  function Stored<K, V>(data: map<K, V>, keys: seq<K>, cap: nat, k: K, v: V): map<K, V> {
    (if k !in data && |keys| >= cap && keys != [] then data - {keys[0]} else data)[k := v]
  }

  function Queued<K, V>(data: map<K, V>, keys: seq<K>, cap: nat, k: K): seq<K> {
    if k in data then keys
    else (if |keys| >= cap && keys != [] then keys[1..] else keys) + [k]
  }

  lemma StoredStaysBounded<K, V>(data: map<K, V>, keys: seq<K>, cap: nat, k: K, v: V)
    requires cap > 0 && |keys| <= cap && data.Keys <= Elements(keys)
    ensures |Queued(data, keys, cap, k)| <= cap
    ensures Stored(data, keys, cap, k, v).Keys <= Elements(Queued(data, keys, cap, k))
  {
    var data', keys' := Stored(data, keys, cap, k, v), Queued(data, keys, cap, k);
    forall x | x in data' ensures x in keys' {
      if x == k {
        assert k in data || keys'[|keys'| - 1] == k;
        assert k in data ==> k in Elements(keys);
      } else {
        assert x in Elements(keys);
        var i :| 0 <= i < |keys| && keys[i] == x;
        if k !in data && |keys| >= cap {
          assert keys[i] != keys[0];
          assert keys'[i - 1] == x;
        } else if k !in data {
          assert keys'[i] == x;
        }
      }
    }
  }

  /** However often keys are removed and come back, the map never outgrows its capacity. */
  lemma BoundedByCapacity<K, V>(data: map<K, V>, keys: seq<K>, cap: nat)
    requires |keys| <= cap && data.Keys <= Elements(keys)
    ensures |data| <= cap
  {
    ElementsBound(keys);
    SubsetSize(data.Keys, Elements(keys));
    assert |data| == |data.Keys|;
  }

  lemma {:induction false} ElementsBound<K>(keys: seq<K>)
    ensures |Elements(keys)| <= |keys|
  {
    if keys != [] {
      ElementsBound(keys[1..]);
      assert Elements(keys) == {keys[0]} + Elements(keys[1..]);
    }
  }

  // ---- Eviction order.

  /** The documented policy: what goes is the live key that was inserted first. */
  ghost predicate EvictsOldest<K>(keys: seq<K>, born: map<K, nat>)
    requires keys != []
  {
    keys[0] in born && forall k :: k in born && k != keys[0] ==> born[keys[0]] < born[k]
  }

  lemma {:induction false} LastInsertion<K>(keys: seq<K>, k: K) returns (i: nat)
    requires k in keys
    ensures InsertedAt(keys, k, i)
  {
    var n := |keys| - 1;
    if keys[n] == k {
      i := n;
    } else {
      assert k in keys[..n];
      i := LastInsertion(keys[..n], k);
      assert forall j :: i < j < n ==> keys[..n][j] != k;
    }
  }

  /**
   The policy is met exactly when the key at the head is live and every other live key was inserted
   again after it; with no repeats in the queue that is just the head being live.
   */
  lemma EvictsOldestExactlyWhen<K, V>(data: map<K, V>, keys: seq<K>, born: map<K, nat>, clock: nat, h: nat)
    requires keys != [] && Stamped(data, keys, born, clock) && InsertedAt(keys, keys[0], h)
    ensures EvictsOldest(keys, born) <==> keys[0] in data && data.Keys <= Elements(keys[h..])
  {
    var times :| StampedBy(data, keys, born, clock, times);
    if keys[0] in data {
      BornOnce(keys, times, keys[0], born[keys[0]], h);
      forall k | k in data && k != keys[0] ensures born[keys[0]] < born[k] <==> k in Elements(keys[h..]) {
        var i: nat :| InsertedAt(keys, k, i) && times[i] == born[k];
        if i > h {
          assert keys[h..][i - h] == k;
        } else {
          assert forall j :: 0 <= j < |keys[h..]| ==> keys[h..][j] == keys[h + j];
          assert i < h;
        }
      }
      assert keys[h..][0] == keys[0];
    }
  }

  lemma BornOnce<K>(keys: seq<K>, times: seq<nat>, k: K, when: nat, h: nat)
    requires BornAt(keys, times, k, when) && InsertedAt(keys, k, h)
    ensures times[h] == when
  {
    var i: nat :| InsertedAt(keys, k, i) && times[i] == when;
    assert i == h by {
      assert keys[i] == k && keys[h] == k;
    }
  }

  /** What a cache holds, as its methods leave it. */
  datatype Tier = Tier(data: map<int, char>, keys: seq<int>, born: map<int, nat>, clock: nat)

  function PutIn(t: Tier, cap: nat, k: int): Tier {
    Tier(Stored(t.data, t.keys, cap, k, 'v'), Queued(t.data, t.keys, cap, k),
         Births(t.data, t.keys, cap, t.born, t.clock, k), if k in t.data then t.clock else t.clock + 1)
  }

  function RemoveFrom(t: Tier, k: int): Tier {
    t.(data := t.data - {k}, born := t.born - {k})
  }

  /** Two keys, the first removed and inserted again. */
  function Reinserted(cap: nat): Tier {
    PutIn(RemoveFrom(PutIn(PutIn(Tier(map[], [], map[], 0), cap, 1), cap, 2), 1), cap, 1)
  }

  /** And then the keys up to `n`, each once. */
  function Filled(cap: nat, n: nat): Tier {
    if n <= 2 then Reinserted(cap) else PutIn(Filled(cap, n - 1), cap, n)
  }

  lemma ReinsertedIs(cap: nat)
    requires cap >= 3
    ensures Reinserted(cap) == Tier(map[1 := 'v', 2 := 'v'], [1, 2, 1], map[1 := 2, 2 := 1], 3)
  {
    var one := PutIn(Tier(map[], [], map[], 0), cap, 1);
    assert one == Tier(map[1 := 'v'], [1], map[1 := 0], 1);
    var two := PutIn(one, cap, 2);
    assert two == Tier(map[1 := 'v', 2 := 'v'], [1, 2], map[1 := 0, 2 := 1], 2);
    assert RemoveFrom(two, 1) == Tier(map[2 := 'v'], [1, 2], map[2 := 1], 2);
  }

  lemma {:induction false} FilledIs(cap: nat, n: nat)
    requires cap >= 3 && 2 <= n < cap
    ensures var t := Filled(cap, n);
            && |t.keys| == n + 1 && t.keys[0] == 1 && (forall k :: k in t.data <==> 1 <= k <= n)
            && 1 in t.born && 2 in t.born && t.born[2] < t.born[1]
  {
    if n == 2 {
      ReinsertedIs(cap);
    } else {
      FilledIs(cap, n - 1);
    }
  }

  /**
   A key removed and inserted again keeps its first place in the queue: at every capacity past two,
   once the queue is full the next insertion drops that key, though another was inserted before it.
   */
  lemma RemovalBreaksInsertionOrder(cap: nat)
    requires cap >= 3
    ensures var t := Filled(cap, cap - 1);
            var next := PutIn(t, cap, cap);
            && |t.keys| == cap && t.keys[0] == 1 && (forall k :: k in t.data <==> 1 <= k < cap)
            && 1 in t.born && 2 in t.born && t.born[2] < t.born[1] && !EvictsOldest(t.keys, t.born)
            && (forall k :: k in next.data <==> 2 <= k <= cap)
  {
    FilledIs(cap, cap - 1);
  }
}
