/** The login limiter: fixed windows per client, a bounded number of clients (auth/auth.go). */
module Limiter {
  import opened Ordering

  datatype Bucket = Bucket(count: int, reset: int)

  const LIMITER_KEYS := 65536

  // ---- Counting admissions.

  /** How many of the times fall in the half-open interval from `a` to `b`. */
  function Count(times: seq<int>, a: int, b: int): nat {
    if times == [] then 0
    else Count(times[..|times| - 1], a, b) + if a <= times[|times| - 1] < b then 1 else 0
  }

  lemma CountSnoc(times: seq<int>, t: int, a: int, b: int)
    ensures Count(times + [t], a, b) == Count(times, a, b) + if a <= t < b then 1 else 0
  {
    assert (times + [t])[..|times|] == times;
  }

  lemma {:induction false} CountSplits(times: seq<int>, a: int, b: int, c: int)
    requires a <= b <= c
    ensures Count(times, a, c) == Count(times, a, b) + Count(times, b, c)
  {
    if times != [] {
      CountSplits(times[..|times| - 1], a, b, c);
    }
  }

  lemma {:induction false} CountGrows(times: seq<int>, a: int, b: int, a': int, b': int)
    requires a' <= a && b <= b'
    ensures Count(times, a, b) <= Count(times, a', b')
  {
    if times != [] {
      CountGrows(times[..|times| - 1], a, b, a', b');
    }
  }

  lemma {:induction false} CountNone(times: seq<int>, a: int, b: int, last: int)
    requires forall k :: 0 <= k < |times| ==> times[k] <= last
    requires last < a
    ensures Count(times, a, b) == 0
  {
    if times != [] {
      CountNone(times[..|times| - 1], a, b, last);
    }
  }

  /** The admissions in the half-open interval of a window's length from `a`. */
  function From(times: seq<int>, a: int, window: int): nat {
    Count(times, a, a + window)
  }

  /** No interval of a window's length holds more than `most` admissions. */
  ghost predicate Bounded(times: seq<int>, window: int, most: int) {
    forall a :: From(times, a, window) <= most
  }

  /**
   What a bucket says about the admissions behind it: its window opened with one of them and holds
   `count`, fewer than `max` of those just before came within a window of its opening, and nowhere
   does a window's length hold more than `2 * max - 1`.
   */
  ghost predicate Tells(b: Bucket, times: seq<int>, window: int, max: int, last: int) {
    var start := b.reset - window;
    && 1 <= b.count <= max && start <= last
    && (forall k :: 0 <= k < |times| ==> times[k] <= last && times[k] < b.reset)
    && Count(times, start, last + 1) == b.count && Count(times, start, start + 1) >= 1
    && Count(times, start - window + 1, start) <= max - 1
    && Bounded(times, window, 2 * max - 1)
  }

  lemma CountOne(t: int, a: int, b: int)
    ensures Count([t], a, b) == if a <= t < b then 1 else 0
  {
    CountSnoc([], t, a, b);
    assert [] + [t] == [t];
  }

  lemma Opens(window: int, max: int, now: int)
    requires window > 0 && max >= 1
    ensures Tells(Bucket(1, now + window), [now], window, max, now)
  {
    CountOne(now, now, now + 1);
    CountOne(now, now - window + 1, now);
    forall a ensures From([now], a, window) <= 2 * max - 1 {
      CountOne(now, a, a + window);
    }
  }

  /** Time passing changes nothing. */
  lemma StillTells(b: Bucket, times: seq<int>, window: int, max: int, last: int, now: int)
    requires Tells(b, times, window, max, last) && last <= now
    ensures Tells(b, times, window, max, now)
  {
    var start := b.reset - window;
    CountSplits(times, start, last + 1, now + 1);
    CountNone(times, last + 1, now + 1, last);
  }

  /** An interval that reaches `now` cannot reach back to the opening of the window before. */
  lemma NewestInterval(times: seq<int>, a: int, window: int, start: int, now: int)
    requires a <= now < a + window && start <= now
    requires forall k :: 0 <= k < |times| ==> times[k] <= now
    ensures From(times, a, window) <= Count(times, start - window + 1, start) + Count(times, start, now + 1)
      || now >= start + window
  {
    if now < start + window {
      var low := start - window + 1;
      CountGrows(times, a, a + window, low, now + 1 + window);
      CountSplits(times, low, start, now + 1 + window);
      CountSplits(times, start, now + 1, now + 1 + window);
      CountNone(times, now + 1, now + 1 + window, now);
    }
  }

  /** A new window opens only when the old one is over. */
  lemma Reopens(b: Bucket, times: seq<int>, window: int, max: int, now: int)
    requires window > 0 && Tells(b, times, window, max, now) && now >= b.reset
    ensures Tells(Bucket(1, now + window), times + [now], window, max, now)
  {
    var start := b.reset - window;
    CountSnoc(times, now, now, now + 1);
    CountSnoc(times, now, now - window + 1, now);
    CountGrows(times, now - window + 1, now, start + 1, now + 1);
    CountSplits(times, start, start + 1, now + 1);
    CountNone(times, now, now + 1, now - 1);
    assert Count(times, now - window + 1, now) <= max - 1;
    forall a ensures From(times + [now], a, window) <= 2 * max - 1 {
      CountSnoc(times, now, a, a + window);
      assert From(times, a, window) <= 2 * max - 1;
      if a <= now < a + window {
        NewestInterval(times, a, window, now, now);
      }
    }
  }

  /** Another admission in an open window that is not full. */
  lemma Admits(b: Bucket, times: seq<int>, window: int, max: int, now: int)
    requires window > 0 && Tells(b, times, window, max, now) && now < b.reset && b.count < max
    ensures Tells(b.(count := b.count + 1), times + [now], window, max, now)
  {
    var start := b.reset - window;
    CountSnoc(times, now, start, now + 1);
    CountSnoc(times, now, start, start + 1);
    CountSnoc(times, now, start - window + 1, start);
    forall a ensures From(times + [now], a, window) <= 2 * max - 1 {
      CountSnoc(times, now, a, a + window);
      assert From(times, a, window) <= 2 * max - 1;
      if a <= now < a + window {
        NewestInterval(times, a, window, start, now);
      }
    }
  }

  // ---- The limiter.

  /** The name an attempt is counted under. */
  function KeyOf(key: string): string {
    if key == "" then "unknown" else key
  }

  /** The buckets, the order they were taken in, and the admissions behind them. */
  ghost predicate Consistent(k: map<string, Bucket>, ord: seq<string>, log: map<string, seq<int>>, window: int,
          max: int, last: int)
  {
    && Distinct(ord) && Elements(ord) == k.Keys == log.Keys && |ord| <= LIMITER_KEYS
    && forall key :: key in k ==> Tells(k[key], log[key], window, max, last)
  }

  lemma LaterConsistent(k: map<string, Bucket>, ord: seq<string>, log: map<string, seq<int>>, window: int, max: int,
          last: int, now: int)
    requires Consistent(k, ord, log, window, max, last) && (ord != [] ==> last <= now)
    ensures Consistent(k, ord, log, window, max, now)
  {
    forall x | x in k ensures Tells(k[x], log[x], window, max, now) {
      assert x in Elements(ord);
      StillTells(k[x], log[x], window, max, last, now);
    }
  }

  lemma DropConsistent(k: map<string, Bucket>, ord: seq<string>, log: map<string, seq<int>>, window: int, max: int,
          now: int)
    requires Consistent(k, ord, log, window, max, now) && ord != []
    ensures Consistent(k - {ord[0]}, ord[1..], log - {ord[0]}, window, max, now)
  {
    DropsFirst(ord);
    assert (k - {ord[0]}).Keys == k.Keys - {ord[0]} && (log - {ord[0]}).Keys == log.Keys - {ord[0]};
  }

  lemma DropsFirst(ord: seq<string>)
    requires ord != [] && Distinct(ord)
    ensures Distinct(ord[1..]) && Elements(ord[1..]) == Elements(ord) - {ord[0]}
  {
    var rest := ord[1..];
    forall x | x in rest ensures x in Elements(ord) - {ord[0]} {
      var i :| 0 <= i < |rest| && rest[i] == x;
      assert ord[i + 1] == x;
    }
    forall x | x in Elements(ord) - {ord[0]} ensures x in rest {
      var i :| 0 <= i < |ord| && ord[i] == x;
      assert rest[i - 1] == x;
    }
  }

  lemma TakeInConsistent(k: map<string, Bucket>, ord: seq<string>, log: map<string, seq<int>>, window: int, max: int,
          now: int, key: string)
    requires Consistent(k, ord, log, window, max, now) && |ord| < LIMITER_KEYS && key !in k && window > 0 && max >= 1
    ensures Consistent(k[key := Bucket(1, now + window)], ord + [key], log[key := [now]], window, max, now)
  {
    Opens(window, max, now);
    assert key !in Elements(ord);
    assert Elements(ord + [key]) == Elements(ord) + {key};
  }

  lemma ReplaceConsistent(k: map<string, Bucket>, ord: seq<string>, log: map<string, seq<int>>, window: int, max: int,
          now: int, key: string, b: Bucket, times: seq<int>)
    requires Consistent(k, ord, log, window, max, now) && key in k && Tells(b, times, window, max, now)
    ensures Consistent(k[key := b], ord, log[key := times], window, max, now)
  {
  }

  /** What one call does to a key's bucket. */
  function Try(b: Bucket, now: int, window: int, max: int): (bool, Bucket) {
    if now >= b.reset then (true, Bucket(1, now + window))
    else if b.count >= max then (false, b)
    else (true, b.(count := b.count + 1))
  }

  /** The limiter's state, with the admissions of every key since it was last taken in. */
  datatype Table = Table(k: map<string, Bucket>, ord: seq<string>, log: map<string, seq<int>>)

  /** A key with a bucket is tried. */
  function Tried(t: Table, key: string, now: int, window: int, max: int): Table
    requires key in t.k
  {
    var times := if key in t.log then t.log[key] else [];
    var (ok, b) := Try(t.k[key], now, window, max);
    Table(t.k[key := b], t.ord, t.log[key := if ok then times + [now] else times])
  }

  /** A full limiter forgets the key it took in first. */
  function Dropped(t: Table): Table {
    if |t.ord| >= LIMITER_KEYS then Table(t.k - {t.ord[0]}, t.ord[1..], t.log - {t.ord[0]}) else t
  }

  /** A key without a bucket is taken in. */
  function Added(t: Table, key: string, now: int, window: int): Table {
    Table(t.k[key := Bucket(1, now + window)], t.ord + [key], t.log[key := [now]])
  }

  /** The table after an attempt under `key`. */
  function After(t: Table, key: string, now: int, window: int, max: int): Table {
    if key in t.k then Tried(t, key, now, window, max) else Added(Dropped(t), key, now, window)
  }

  ghost predicate Holds(t: Table, window: int, max: int, last: int) {
    Consistent(t.k, t.ord, t.log, window, max, last)
  }

  lemma TriedTells(b: Bucket, times: seq<int>, window: int, max: int, now: int)
    requires window > 0 && Tells(b, times, window, max, now)
    ensures var (ok, b') := Try(b, now, window, max);
            Tells(b', if ok then times + [now] else times, window, max, now)
  {
    if now >= b.reset {
      Reopens(b, times, window, max, now);
    } else if b.count < max {
      Admits(b, times, window, max, now);
    }
  }

  lemma {:induction false} TriedHolds(t: Table, key: string, now: int, window: int, max: int)
    requires window > 0 && Holds(t, window, max, now) && key in t.k
    ensures key in t.log && Holds(Tried(t, key, now, window, max), window, max, now)
  {
    var (ok, b) := Try(t.k[key], now, window, max);
    TriedTells(t.k[key], t.log[key], window, max, now);
    ReplaceConsistent(
      t.k, t.ord, t.log, window, max, now, key, b, if ok then t.log[key] + [now] else t.log[key]);
  }

  lemma RefusedStays(t: Table, key: string, now: int, window: int, max: int)
    requires Holds(t, window, max, now) && Refuses(t, key, now, max)
    ensures Tried(t, key, now, window, max) == t
  {
    assert t.k[key := t.k[key]] == t.k && t.log[key := t.log[key]] == t.log;
  }

  lemma DroppedHolds(t: Table, now: int, window: int, max: int)
    requires Holds(t, window, max, now)
    ensures Holds(Dropped(t), window, max, now) && |Dropped(t).ord| < LIMITER_KEYS && Dropped(t).k.Keys <= t.k.Keys
  {
    if |t.ord| >= LIMITER_KEYS {
      DropConsistent(t.k, t.ord, t.log, window, max, now);
    }
  }

  lemma AddedHolds(t: Table, key: string, now: int, window: int, max: int)
    requires window > 0 && max >= 1 && Holds(t, window, max, now) && key !in t.k && |t.ord| < LIMITER_KEYS
    ensures Holds(Added(t, key, now, window), window, max, now)
  {
    TakeInConsistent(t.k, t.ord, t.log, window, max, now, key);
  }

  lemma AfterHolds(t: Table, key: string, now: int, window: int, max: int)
    requires window > 0 && max >= 1 && Holds(t, window, max, now)
    ensures Holds(After(t, key, now, window, max), window, max, now)
  {
    if key in t.k {
      TriedHolds(t, key, now, window, max);
    } else {
      DroppedHolds(t, now, window, max);
      AddedHolds(Dropped(t), key, now, window, max);
    }
  }

  predicate Refuses(t: Table, key: string, now: int, max: int) {
    key in t.k && now < t.k[key].reset && t.k[key].count >= max
  }

  lemma AfterBound(t: Table, key: string, now: int, window: int, max: int)
    requires window > 0 && max >= 1 && Holds(t, window, max, now)
    ensures var u := After(t, key, now, window, max); KeptBound(u, key, window, max)
  {
    AfterHolds(t, key, now, window, max);
    HoldsBound(After(t, key, now, window, max), key, now, window, max);
  }

  /** The key has a bucket, and its admissions are within the bound. */
  ghost predicate KeptBound(t: Table, key: string, window: int, max: int) {
    key in t.k && key in t.log && Bounded(t.log[key], window, 2 * max - 1)
  }

  lemma HoldsBound(t: Table, key: string, last: int, window: int, max: int)
    requires Holds(t, window, max, last) && key in t.k
    ensures KeptBound(t, key, window, max)
  {
    BoundStays(t.k, t.ord, t.log, window, max, last, key);
  }

  /** A refusal changes nothing, and means the whole budget was used in the open window. */
  lemma RefusalMeans(t: Table, key: string, now: int, window: int, max: int)
    requires Holds(t, window, max, now) && Refuses(t, key, now, max)
    ensures After(t, key, now, window, max) == t
    ensures key in t.log && From(t.log[key], t.k[key].reset - window, window) == max
  {
    RefusedStays(t, key, now, window, max);
    FullWindow(t.k[key], t.log[key], window, max, now);
  }

  class Limiter {
    const window: int
    const max: int
    var k: map<string, Bucket>
    var ord: seq<string>
    /** The admissions of every key since it was last taken in, and the latest call. */
    ghost var log: map<string, seq<int>>
    ghost var last: int

    ghost predicate Valid()
      reads this
    {
      window > 0 && max >= 1 && Consistent(k, ord, log, window, max, last)
    }

    ghost function Contents(): Table
      reads this
    {
      Table(k, ord, log)
    }

    constructor (window: int, max: int)
      requires window > 0 && max >= 1
      ensures Valid() && Contents() == EMPTY && this.window == window && this.max == max
    {
      this.window, this.max := window, max;
      k, ord, log, last := map[], [], map[], 0;
    }

    /**
     Refused exactly when the key's current window is open and full, and then the key's admissions in
     it are `max`. Whatever was admitted before, no interval of a window's length holds more than
     `2 * max - 1` admissions of a key that stays.
     */
    method Allow(attempt: string, now: int) returns (ok: bool)
      requires Valid() && (ord != [] ==> last <= now)
      modifies this
      ensures Valid() && last == now && Contents() == After(old(Contents()), KeyOf(attempt), now, window, max)
      ensures ok == !Refuses(old(Contents()), KeyOf(attempt), now, max)
      ensures KeptBound(Contents(), KeyOf(attempt), window, max)
      ensures var key := KeyOf(attempt);
              !ok ==> Contents() == old(Contents()) && From(log[key], k[key].reset - window, window) == max
    {
      var key := if attempt == "" then "unknown" else attempt;
      Advance(now);
      ghost var t := Contents();
      AfterBound(t, key, now, window, max);
      if Refuses(t, key, now, max) {
        RefusalMeans(t, key, now, window, max);
      }
      if key !in k {
        TakeIn(key, now);
        ok := true;
      } else {
        ok := Retry(key, now);
      }
    }

    /** Reading the clock changes no bucket. */
    ghost method Advance(now: int)
      requires Valid() && (ord != [] ==> last <= now)
      modifies `last
      ensures Valid() && last == now
    {
      LaterConsistent(k, ord, log, window, max, last, now);
      last := now;
    }

    /** A key with a bucket: reopened, refused, or counted. */
    method Retry(key: string, now: int) returns (ok: bool)
      requires Valid() && key in k && last == now
      modifies `k, `log
      ensures Valid() && ok == !Refuses(old(Contents()), key, now, max)
      ensures Contents() == Tried(old(Contents()), key, now, window, max)
    {
      var b := k[key];
      if now >= b.reset {
        Keep(key, now, Bucket(1, now + window));
        return true;
      }
      if b.count >= max {
        RefusedStays(Contents(), key, now, window, max);
        return false;
      }
      Keep(key, now, b.(count := b.count + 1));
      return true;
    }

    /** The bucket of an admitted attempt. */
    method Keep(key: string, now: int, b: Bucket)
      requires Valid() && key in k && last == now && Try(k[key], now, window, max) == (true, b)
      modifies `k, `log
      ensures Valid() && Contents() == Tried(old(Contents()), key, now, window, max)
    {
      ghost var before := Contents();
      CountUp(key, now, b);
      TriedHolds(before, key, now, window, max);
      assert Holds(Contents(), window, max, last);
    }

    method CountUp(key: string, now: int, b: Bucket)
      requires key in k && key in log && Try(k[key], now, window, max) == (true, b)
      modifies `k, `log
      ensures Contents() == Tried(old(Contents()), key, now, window, max)
    {
      k, log := k[key := b], log[key := log[key] + [now]];
    }

    /** A key not seen, or no longer remembered: the oldest makes room when the limiter is full. */
    method TakeIn(key: string, now: int)
      requires Valid() && key !in k && last == now
      modifies `k, `ord, `log
      ensures Valid() && Contents() == Added(Dropped(old(Contents())), key, now, window)
    {
      EvictOldest();
      Insert(key, now);
    }

    method EvictOldest()
      requires Valid()
      modifies `k, `ord, `log
      ensures Valid() && Contents() == Dropped(old(Contents())) && |ord| < LIMITER_KEYS && k.Keys <= old(k.Keys)
    {
      if |ord| < LIMITER_KEYS {
        return;
      }
      ghost var before := Contents();
      DropFirst();
      DroppedHolds(before, last, window, max);
      assert Holds(Contents(), window, max, last);
    }

    method DropFirst()
      requires |ord| >= LIMITER_KEYS
      modifies `k, `ord, `log
      ensures Contents() == Dropped(old(Contents()))
    {
      k, ord, log := k - {ord[0]}, ord[1..], log - {ord[0]};
    }

    method Insert(key: string, now: int)
      requires Valid() && key !in k && last == now && |ord| < LIMITER_KEYS
      modifies `k, `ord, `log
      ensures Valid() && Contents() == Added(old(Contents()), key, now, window)
    {
      ghost var before := Contents();
      AddLast(key, now);
      AddedHolds(before, key, now, window, max);
      assert Holds(Contents(), window, max, last);
    }

    method AddLast(key: string, now: int)
      modifies `k, `ord, `log
      ensures Contents() == Added(old(Contents()), key, now, window)
    {
      k, ord, log := k[key := Bucket(1, now + window)], ord + [key], log[key := [now]];
    }
  }

  lemma BoundStays(k: map<string, Bucket>, ord: seq<string>, log: map<string, seq<int>>, window: int, max: int,
          last: int, key: string)
    requires Consistent(k, ord, log, window, max, last) && key in k
    ensures key in log && Bounded(log[key], window, 2 * max - 1)
  {
    assert Tells(k[key], log[key], window, max, last);
  }

  /** A refusal means the open window has used its whole budget. */
  lemma FullWindow(b: Bucket, times: seq<int>, window: int, max: int, now: int)
    requires Tells(b, times, window, max, now) && now < b.reset && b.count >= max
    ensures From(times, b.reset - window, window) == max
  {
    CountSplits(times, b.reset - window, now + 1, b.reset);
    CountNone(times, now + 1, b.reset, now);
  }

  // ---- Runs of the limiter: the window is fixed, not sliding.

  const EMPTY := Table(map[], [], map[])

  /** The table after a sequence of attempts, each a key and its time. */
  function Final(calls: seq<(string, int)>, window: int, max: int): Table {
    if calls == [] then EMPTY
    else
      var (key, now) := calls[|calls| - 1];
      After(Final(calls[..|calls| - 1], window, max), key, now, window, max)
  }

  predicate InOrder(calls: seq<(string, int)>) {
    forall i, j :: 0 <= i < j < |calls| ==> calls[i].1 <= calls[j].1
  }

  /** Every key's admissions, after every run, stay within `most` a window's length. */
  ghost predicate Slides(window: int, max: int, most: int) {
    forall calls, key :: InOrder(calls) && key in Final(calls, window, max).log ==>
      Bounded(Final(calls, window, max).log[key], window, most)
  }

  lemma FinalSnoc(calls: seq<(string, int)>, key: string, now: int, window: int, max: int)
    ensures Final(calls + [(key, now)], window, max) == After(Final(calls, window, max), key, now, window, max)
  {
    assert (calls + [(key, now)])[..|calls|] == calls;
  }

  lemma {:induction false} FinalConsistent(calls: seq<(string, int)>, window: int, max: int)
    requires window > 0 && max >= 1 && calls != [] && InOrder(calls)
    ensures var t := Final(calls, window, max); Consistent(t.k, t.ord, t.log, window, max, calls[|calls| - 1].1)
  {
    var front, call := calls[..|calls| - 1], calls[|calls| - 1];
    var t := Final(front, window, max);
    if front != [] {
      FinalConsistent(front, window, max);
      LaterConsistent(t.k, t.ord, t.log, window, max, front[|front| - 1].1, call.1);
    }
    AfterHolds(t, call.0, call.1, window, max);
  }

  /** In every run no window's length holds more than `2 * max - 1` admissions of a key. */
  lemma BoundHolds(window: int, max: int)
    requires window > 0 && max >= 1
    ensures Slides(window, max, 2 * max - 1)
  {
    forall calls: seq<(string, int)>, key | InOrder(calls) && key in Final(calls, window, max).log
      ensures Bounded(Final(calls, window, max).log[key], window, 2 * max - 1)
    {
      FinalConsistent(calls, window, max);
      var t := Final(calls, window, max);
      BoundStays(t.k, t.ord, t.log, window, max, calls[|calls| - 1].1, key);
    }
  }

  /** The bucket and the admissions after `n` calls at one time. */
  function Calls(b: Bucket, times: seq<int>, now: int, window: int, max: int, n: nat): (Bucket, seq<int>) {
    if n == 0 then (b, times)
    else
      var (b1, t1) := Calls(b, times, now, window, max, n - 1);
      var (ok, b2) := Try(b1, now, window, max);
      (b2, if ok then t1 + [now] else t1)
  }

  lemma {:induction false} AllAdmitted(b: Bucket, times: seq<int>, now: int, window: int, max: int, n: nat, a: int)
    requires now < b.reset && b.count + n <= max
    ensures Calls(b, times, now, window, max, n).0 == b.(count := b.count + n)
    ensures Count(Calls(b, times, now, window, max, n).1, a, a + window) == Count(times, a, a + window)
        + if a <= now < a + window then n else 0
  {
    if n > 0 {
      AllAdmitted(b, times, now, window, max, n - 1, a);
      CountSnoc(Calls(b, times, now, window, max, n - 1).1, now, a, a + window);
    }
  }

  function Repeat(key: string, now: int, n: nat): seq<(string, int)> {
    seq(n, _ => (key, now))
  }

  /** Attempts under one key at one time, in a run. */
  lemma {:induction false} RunsOn(calls: seq<(string, int)>, key: string, now: int, n: nat, window: int, max: int)
    requires key in Final(calls, window, max).k && key in Final(calls, window, max).log
    ensures var t, t' := Final(calls, window, max), Final(calls + Repeat(key, now, n), window, max);
            && key in t'.k && key in t'.log
            && (t'.k[key], t'.log[key]) == Calls(t.k[key], t.log[key], now, window, max, n)
  {
    if n == 0 {
      assert calls + Repeat(key, now, 0) == calls;
    } else {
      RunsOn(calls, key, now, n - 1, window, max);
      assert calls + Repeat(key, now, n) == calls + Repeat(key, now, n - 1) + [(key, now)];
      FinalSnoc(calls + Repeat(key, now, n - 1), key, now, window, max);
    }
  }

  /** An attempt, `max - 1` just before its window ends and `max` just after. */
  function Burst(window: int, max: int, key: string): seq<(string, int)>
    requires max >= 1
  {
    [(key, 0)] + Repeat(key, window - 1, max - 1) + Repeat(key, window, max)
  }

  lemma FirstCall(key: string, window: int, max: int)
    ensures var t := Final([(key, 0)], window, max);
            key in t.k && key in t.log && t.k[key] == Bucket(1, window) && t.log[key] == [0]
  {
    FinalSnoc([], key, 0, window, max);
    assert [] + [(key, 0)] == [(key, 0)];
  }

  /** The run of a burst is its three groups of calls on one bucket. */
  lemma {:induction false} BurstRuns(window: int, max: int, key: string)
    requires max >= 1
    ensures var (b, times) := Calls(Bucket(1, window), [0], window - 1, window, max, max - 1);
            var t := Final(Burst(window, max, key), window, max);
            key in t.log && t.log[key] == Calls(b, times, window, window, max, max).1
  {
    FirstCall(key, window, max);
    RunsOn([(key, 0)], key, window - 1, max - 1, window, max);
    RunsOn([(key, 0)] + Repeat(key, window - 1, max - 1), key, window, max, window, max);
  }

  lemma BurstFills(window: int, max: int)
    requires window >= 2 && max >= 1
    ensures var (b, times) := Calls(Bucket(1, window), [0], window - 1, window, max, max - 1);
            From(Calls(b, times, window, window, max, max).1, window - 1, window) == 2 * max - 1
  {
    var a := window - 1;
    AllAdmitted(Bucket(1, window), [0], a, window, max, max - 1, a);
    var (b, times) := Calls(Bucket(1, window), [0], a, window, max, max - 1);
    CountOne(0, a, a + window);
    ReopensThenAll(b, times, window, window, max, max, a);
  }

  lemma BurstInOrder(window: int, max: int, key: string)
    requires window >= 2 && max >= 1
    ensures InOrder(Burst(window, max, key))
  {
    var calls := Burst(window, max, key);
    forall i | 0 <= i < |calls| ensures calls[i].1 == if i == 0 then 0 else if i < max then window - 1 else window {
      assert i >= max ==> calls[i] == Repeat(key, window, max)[i - max];
    }
  }

  /** One attempt, the rest of the budget as the window closes, and the next budget as it reopens. */
  lemma BoundIsMet(window: int, max: int, key: string)
    requires window >= 2 && max >= 1
    ensures var calls := Burst(window, max, key);
            && InOrder(calls) && key in Final(calls, window, max).log
            && From(Final(calls, window, max).log[key], window - 1, window) == 2 * max - 1
  {
    BurstInOrder(window, max, key);
    BurstRuns(window, max, key);
    BurstFills(window, max);
    var (b, times) := Calls(Bucket(1, window), [0], window - 1, window, max, max - 1);
    assert Final(Burst(window, max, key), window, max).log[key] == Calls(b, times, window, window, max, max).1;
  }

  /**
   The limiter keeps a budget of `max` in every sliding window, over all runs, exactly when `max` is
   one; what it keeps for every other budget is `2 * max - 1`, and no less.
   */
  lemma SlidesExactlyWhenOne(window: int, max: int)
    requires window >= 2 && max >= 1
    ensures Slides(window, max, max) <==> max == 1
    ensures forall most :: Slides(window, max, most) <==> most >= 2 * max - 1
  {
    BoundHolds(window, max);
    BoundIsMet(window, max, "");
    var calls := Burst(window, max, "");
    forall most ensures Slides(window, max, most) <==> most >= 2 * max - 1 {
      if Slides(window, max, most) {
        assert Bounded(Final(calls, window, max).log[""], window, most);
        assert From(Final(calls, window, max).log[""], window - 1, window) <= most;
      }
      if most >= 2 * max - 1 {
        forall c, key | InOrder(c) && key in Final(c, window, max).log
          ensures Bounded(Final(c, window, max).log[key], window, most)
        {
          assert Bounded(Final(c, window, max).log[key], window, 2 * max - 1);
        }
      }
    }
  }

  lemma {:induction false} ReopensThenAll(b: Bucket, times: seq<int>, now: int, window: int, max: int, n: nat, a: int)
    requires window > 0 && 1 <= n <= max && now >= b.reset && a <= now < a + window
    ensures var r := Calls(b, times, now, window, max, n);
            r.0 == Bucket(n, now + window) && Count(r.1, a, a + window) == Count(times, a, a + window) + n
    decreases n
  {
    if n > 1 {
      ReopensThenAll(b, times, now, window, max, n - 1, a);
    }
    OneMoreCall(b, times, now, window, max, n, a);
  }

  /** The last of `n` calls, admitted. */
  lemma OneMoreCall(b: Bucket, times: seq<int>, now: int, window: int, max: int, n: nat, a: int)
    requires n > 0 && a <= now < a + window && Try(Calls(b, times, now, window, max, n - 1).0, now, window, max).0
    ensures var r, q := Calls(b, times, now, window, max, n), Calls(b, times, now, window, max, n - 1);
            r.0 == Try(q.0, now, window, max).1 && Count(r.1, a, a + window) == Count(q.1, a, a + window) + 1
  {
    CountSnoc(Calls(b, times, now, window, max, n - 1).1, now, a, a + window);
  }
}
