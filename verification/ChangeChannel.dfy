/** One change-channel connection: subscriptions, debounce and pins, step by locked step (files/changes.go). */
module ChangeChannel {
  import opened Ordering

  datatype Target = Target(share: nat, dir: string, pin: nat)

  /** A change of one directory, or word that a share lost events. */
  datatype Event = Event(share: nat, dir: string, all: bool)

  const EVENT_DEBOUNCE := 200_000_000

  const MAX_SUBSCRIPTIONS := 1024

  predicate Matches(t: Target, ev: Event) {
    t.share == ev.share && (ev.all || t.dir == ev.dir)
  }

  /** `record`: every matching path starts a window, unless it is inside one. */
  function Recorded(subs: map<string, Target>, pending: map<string, int>, ev: Event, now: int): map<string, int> {
    map raw | raw in pending.Keys + subs.Keys && (raw in pending || Matches(subs[raw], ev)) ::
      if raw in pending then pending[raw] else now
  }

  /** The path's target is the directory that changed, or anywhere in a share that lost events. */
  ghost predicate Concerns(ev: Event, t: Target) {
    ev.share == t.share && (ev.dir == t.dir || ev.all)
  }

  /** An event leaves pending what was, at its time, and every held path it concerns, from now; nothing else. */
  lemma RecordedExactlyWhen(subs: map<string, Target>, pending: map<string, int>, ev: Event, now: int, raw: string)
    ensures raw in Recorded(subs, pending, ev, now) <==> raw in pending || (raw in subs && Concerns(ev, subs[raw]))
    ensures raw in Recorded(subs, pending, ev, now) ==>
              Recorded(subs, pending, ev, now)[raw] == if raw in pending then pending[raw] else now
  {
  }

  /** `due`: the paths whose window has elapsed. */
  function Ready(pending: map<string, int>, now: int): set<string> {
    set raw | raw in pending && now - pending[raw] >= EVENT_DEBOUNCE
  }

  /** A pin, by the path it was taken for. */
  type Pin = (string, Target)

  function PinSet(subs: map<string, Target>): set<Pin> {
    set raw | raw in subs :: (raw, subs[raw])
  }

  function Pins(subs: map<string, Target>): multiset<Pin> {
    multiset(PinSet(subs))
  }

  /**
   The connection between two lock regions: pins decided on but not yet taken, releases decided on
   but not yet made, and everything taken and released so far. `lastTake` remembers deliveries.
   */
  datatype Conn = Conn(subs: map<string, Target>, pending: map<string, int>, clock: int, lastTake: map<string, int>,
                       toTake: multiset<Pin>, toRelease: multiset<Pin>, taken: multiset<Pin>, released: multiset<Pin>)

  datatype Step =
    | Subscribe(raw: string, target: Target)
    | TakePin(pin: Pin)
    | Unsubscribe(raw: string)
    | ReturnPin(pin: Pin)
    | ReleaseAll
    | Record(ev: Event, now: int)
    | Take(now: int)

  predicate Enabled(c: Conn, s: Step) {
    match s
    case TakePin(pin) => pin in c.toTake
    case ReturnPin(pin) => pin in c.toRelease
    case Record(_, now) => c.clock <= now
    case Take(now) => c.clock <= now
    case _ => true
  }

  function Next(c: Conn, s: Step): Conn
    requires Enabled(c, s)
  {
    match s
    case Subscribe(raw, target) =>
      if raw !in c.subs && |c.subs| >= MAX_SUBSCRIPTIONS then c
      else c.(subs := c.subs[raw := target], toTake := if raw in c.subs then c.toTake
          else c.toTake + multiset{(raw, target)})
    case TakePin(pin) => c.(toTake := c.toTake - multiset{pin}, taken := c.taken + multiset{pin})
    case Unsubscribe(raw) =>
      c.(subs := c.subs - {raw}, pending := c.pending - {raw},
         toRelease := if raw in c.subs then c.toRelease + multiset{(raw, c.subs[raw])} else c.toRelease)
    case ReturnPin(pin) => c.(toRelease := c.toRelease - multiset{pin}, released := c.released + multiset{pin})
    case ReleaseAll => c.(subs := map[], pending := map[], toRelease := c.toRelease + Pins(c.subs))
    case Record(ev, now) => c.(pending := Recorded(c.subs, c.pending, ev, now), clock := now)
    case Take(now) =>
      var ready := Ready(c.pending, now);
      c.(pending := c.pending - ready, clock := now,
         lastTake := map raw | raw in c.lastTake.Keys + ready :: if raw in ready then now else c.lastTake[raw])
  }

  // ---- What every step keeps.

  ghost predicate Inv(c: Conn) {
    && c.pending.Keys <= c.subs.Keys
    && |c.subs| <= MAX_SUBSCRIPTIONS
    && (forall raw :: raw in c.pending ==> c.pending[raw] <= c.clock)
    && (forall raw :: raw in c.lastTake ==> c.lastTake[raw] <= c.clock)
    && (forall raw :: raw in c.pending && raw in c.lastTake ==> c.lastTake[raw] <= c.pending[raw])
  }

  /** Every pin taken or about to be is released, about to be, or recorded against a held path. */
  ghost predicate Balanced(c: Conn) {
    c.taken + c.toTake == c.released + c.toRelease + Pins(c.subs)
  }

  lemma StepKeeps(c: Conn, s: Step)
    requires Inv(c) && Enabled(c, s)
    ensures Inv(Next(c, s))
  {
    match s
    case Subscribe(raw, target) => SubscribeKeeps(c, raw, target);
    case Unsubscribe(raw) => UnsubscribeKeeps(c, raw);
    case Record(ev, now) => RecordKeeps(c, ev, now);
    case Take(now) => TakeKeeps(c, now);
    case _ =>
  }

  lemma SubscribeKeeps(c: Conn, raw: string, target: Target)
    requires Inv(c)
    ensures Inv(Next(c, Subscribe(raw, target)))
  {
    var subs := c.subs[raw := target];
    assert subs.Keys == c.subs.Keys + {raw};
    assert |subs.Keys| == |subs| && |c.subs.Keys| == |c.subs|;
  }

  lemma UnsubscribeKeeps(c: Conn, raw: string)
    requires Inv(c)
    ensures Inv(Next(c, Unsubscribe(raw)))
  {
    SubsetSize((c.subs - {raw}).Keys, c.subs.Keys);
    assert |(c.subs - {raw}).Keys| == |c.subs - {raw}| && |c.subs.Keys| == |c.subs|;
  }

  lemma RecordKeeps(c: Conn, ev: Event, now: int)
    requires Inv(c) && c.clock <= now
    ensures Inv(Next(c, Record(ev, now)))
  {
  }

  lemma TakeKeeps(c: Conn, now: int)
    requires Inv(c) && c.clock <= now
    ensures Inv(Next(c, Take(now)))
  {
  }

  lemma NoPins()
    ensures Pins(map[]) == multiset{}
  {
    var none: map<string, Target> := map[];
  }

  lemma PinsAdded(subs: map<string, Target>, raw: string, t: Target)
    requires raw !in subs
    ensures Pins(subs[raw := t]) == Pins(subs) + multiset{(raw, t)}
  {
    var more := subs[raw := t];
    forall x | x in subs ensures (x, subs[x]) in PinSet(more) {
      assert x in more && more[x] == subs[x];
    }
    assert raw in more;
    assert PinSet(more) == PinSet(subs) + {(raw, t)};
  }

  lemma PinsRemoved(subs: map<string, Target>, raw: string)
    requires raw in subs
    ensures Pins(subs) == Pins(subs - {raw}) + multiset{(raw, subs[raw])}
  {
    PinsAdded(subs - {raw}, raw, subs[raw]);
    assert (subs - {raw})[raw := subs[raw]] == subs;
  }

  /** A path already held is resolved again to what it resolved to before. */
  predicate Stable(c: Conn, s: Step) {
    s.Subscribe? && s.raw in c.subs ==> c.subs[s.raw] == s.target
  }

  /** No step loses or doubles a pin, except a re-subscription that resolves elsewhere; that one always does. */
  lemma LedgerBalancesExactlyWhenStable(c: Conn, s: Step)
    requires Balanced(c) && Enabled(c, s)
    ensures Balanced(Next(c, s)) <==> Stable(c, s)
  {
    match s
    case Subscribe(raw, target) => SubscribeBalances(c, raw, target);
    case Unsubscribe(raw) => UnsubscribeBalances(c, raw);
    case TakePin(pin) => Moved(c.taken, c.toTake, pin);
    case ReturnPin(pin) => Moved(c.released, c.toRelease, pin);
    case ReleaseAll => NoPins();
    case _ =>
  }

  lemma Moved(a: multiset<Pin>, b: multiset<Pin>, pin: Pin)
    requires pin in b
    ensures (a + multiset{pin}) + (b - multiset{pin}) == a + b
  {
  }

  lemma UnsubscribeBalances(c: Conn, raw: string)
    requires Balanced(c)
    ensures Balanced(Next(c, Unsubscribe(raw)))
  {
    if raw in c.subs {
      PinsRemoved(c.subs, raw);
    } else {
      assert c.subs - {raw} == c.subs;
    }
  }

  lemma SubscribeBalances(c: Conn, raw: string, target: Target)
    requires Balanced(c)
    ensures Balanced(Next(c, Subscribe(raw, target))) <==> (raw in c.subs ==> c.subs[raw] == target)
  {
    var pin := multiset{(raw, target)};
    if raw !in c.subs {
      PinsAdded(c.subs, raw, target);
      assert c.taken + (c.toTake + pin) == (c.taken + c.toTake) + pin;
    } else if c.subs[raw] == target {
      assert c.subs[raw := target] == c.subs;
    } else {
      Unbalanced(c, c.subs[raw := target], raw);
    }
  }

  lemma Unbalanced(c: Conn, subs: map<string, Target>, raw: string)
    requires Balanced(c) && raw in c.subs && raw in subs && subs[raw] != c.subs[raw]
    ensures c.taken + c.toTake != c.released + c.toRelease + Pins(subs)
  {
    var pin := (raw, c.subs[raw]);
    assert (c.taken + c.toTake)[pin] == (c.released + c.toRelease)[pin] + Pins(c.subs)[pin];
    assert Pins(c.subs)[pin] == 1 && Pins(subs)[pin] == 0;
  }

  // ---- Runs.

  function Start(now: int): Conn {
    Conn(map[], map[], now, map[], multiset{}, multiset{}, multiset{}, multiset{})
  }

  ghost predicate Legal(now: int, run: seq<Step>)
    decreases |run|, 0
  {
    run == [] || (Legal(now, run[..|run| - 1]) && Enabled(After(now, run[..|run| - 1]), run[|run| - 1]))
  }

  ghost function After(now: int, run: seq<Step>): Conn
    requires Legal(now, run)
    decreases |run|, 1
  {
    if run == [] then Start(now) else Next(After(now, run[..|run| - 1]), run[|run| - 1])
  }

  lemma {:induction false} RunKeeps(now: int, run: seq<Step>)
    requires Legal(now, run)
    ensures Inv(After(now, run))
    decreases |run|
  {
    if run != [] {
      RunKeeps(now, run[..|run| - 1]);
      StepKeeps(After(now, run[..|run| - 1]), run[|run| - 1]);
    }
  }

  /** Every re-subscription in the run resolves as it did before. */
  ghost predicate AllStable(now: int, run: seq<Step>)
    requires Legal(now, run)
    decreases |run|
  {
    run == [] || (AllStable(now, run[..|run| - 1]) && Stable(After(now, run[..|run| - 1]), run[|run| - 1]))
  }

  lemma {:induction false} RunBalances(now: int, run: seq<Step>)
    requires Legal(now, run) && AllStable(now, run)
    ensures Balanced(After(now, run))
    decreases |run|
  {
    if run != [] {
      RunBalances(now, run[..|run| - 1]);
      LedgerBalancesExactlyWhenStable(After(now, run[..|run| - 1]), run[|run| - 1]);
    } else {
      NoPins();
    }
  }

  /**
   Once the decided calls are made, the pins out are exactly the recorded targets, never more than
   the subscription bound; after a final release there are none, however often it is repeated.
   */
  lemma {:induction false} PinsAreConserved(now: int, run: seq<Step>)
    requires Legal(now, run) && AllStable(now, run)
    requires After(now, run).toTake == multiset{} && After(now, run).toRelease == multiset{}
    ensures var c := After(now, run);
            && c.taken == c.released + Pins(c.subs) && |c.taken| <= |c.released| + MAX_SUBSCRIPTIONS
            && (c.subs == map[] ==> c.taken == c.released)
  {
    RunBalances(now, run);
    RunKeeps(now, run);
    SettledLedger(After(now, run));
  }

  // ---- Runs in which a path subscribed again resolves elsewhere.

  /** The pins a step decides to take: a path held for the first time. */
  function Begins(c: Conn, s: Step): multiset<Pin> {
    if s.Subscribe? && s.raw !in c.subs && |c.subs| < MAX_SUBSCRIPTIONS then multiset{(s.raw, s.target)} else multiset{}
  }

  /** The pins a step decides to release: what each path given up resolves to by then. */
  function Ends(c: Conn, s: Step): multiset<Pin> {
    match s
    case Unsubscribe(raw) => if raw in c.subs then multiset{(raw, c.subs[raw])} else multiset{}
    case ReleaseAll => Pins(c.subs)
    case _ => multiset{}
  }

  ghost function Began(now: int, run: seq<Step>): multiset<Pin>
    requires Legal(now, run)
    decreases |run|
  {
    if run == [] then multiset{}
    else Began(now, run[..|run| - 1]) + Begins(After(now, run[..|run| - 1]), run[|run| - 1])
  }

  ghost function Ended(now: int, run: seq<Step>): multiset<Pin>
    requires Legal(now, run)
    decreases |run|
  {
    if run == [] then multiset{}
    else Ended(now, run[..|run| - 1]) + Ends(After(now, run[..|run| - 1]), run[|run| - 1])
  }

  lemma StepCounts(c: Conn, s: Step)
    requires Enabled(c, s)
    ensures var d := Next(c, s);
            && d.taken + d.toTake == c.taken + c.toTake + Begins(c, s)
            && d.released + d.toRelease == c.released + c.toRelease + Ends(c, s)
  {
    match s
    case TakePin(pin) => Moved(c.taken, c.toTake, pin);
    case ReturnPin(pin) => Moved(c.released, c.toRelease, pin);
    case Subscribe(_, _) => Regrouped(c.taken, c.toTake, Begins(c, s));
    case Unsubscribe(_) => Regrouped(c.released, c.toRelease, Ends(c, s));
    case ReleaseAll => Regrouped(c.released, c.toRelease, Ends(c, s));
    case _ =>
  }

  lemma Regrouped(a: multiset<Pin>, b: multiset<Pin>, c: multiset<Pin>)
    ensures a + (b + c) == a + b + c && b + multiset{} == b && a + multiset{} == a
  {
  }

  lemma {:induction false} RunCounts(now: int, run: seq<Step>)
    requires Legal(now, run)
    ensures var c := After(now, run);
            c.taken + c.toTake == Began(now, run) && c.released + c.toRelease == Ended(now, run)
    decreases |run|
  {
    if run != [] {
      RunCounts(now, run[..|run| - 1]);
      StepCounts(After(now, run[..|run| - 1]), run[|run| - 1]);
    }
  }

  /**
   Once the decided calls are made, the pins out are the recorded targets exactly when every path was
   given up with a target, or is held with it, as often as it was first subscribed with it.
   */
  lemma PinsBalanceExactlyWhen(now: int, run: seq<Step>)
    requires Legal(now, run)
    requires After(now, run).toTake == multiset{} && After(now, run).toRelease == multiset{}
    ensures var c := After(now, run);
            c.taken == c.released + Pins(c.subs) <==>
              forall pin :: Began(now, run)[pin] == Ended(now, run)[pin] + Pins(c.subs)[pin]
  {
    RunCounts(now, run);
    var c := After(now, run);
    assert c.taken == c.taken + c.toTake && c.released == c.released + c.toRelease;
  }

  /** The targets the paths held after a step were first subscribed with. */
  function FirstAfter(f: map<string, Target>, c: Conn, s: Step): map<string, Target> {
    match s
    case Subscribe(raw, target) => if raw !in c.subs && |c.subs| < MAX_SUBSCRIPTIONS then f[raw := target] else f
    case Unsubscribe(raw) => f - {raw}
    case ReleaseAll => map[]
    case _ => f
  }

  ghost function First(now: int, run: seq<Step>): map<string, Target>
    requires Legal(now, run)
    decreases |run|
  {
    if run == [] then map[]
    else FirstAfter(First(now, run[..|run| - 1]), After(now, run[..|run| - 1]), run[|run| - 1])
  }

  /** Whatever a path resolved to in between, it was given up with the target it was first subscribed with. */
  ghost predicate Returns(now: int, run: seq<Step>)
    requires Legal(now, run)
    decreases |run|
  {
    run == []
    || (Returns(now, run[..|run| - 1])
        && GivenUpAsFirst(First(now, run[..|run| - 1]), After(now, run[..|run| - 1]), run[|run| - 1]))
  }

  predicate GivenUpAsFirst(f: map<string, Target>, c: Conn, s: Step) {
    match s
    case Unsubscribe(raw) => raw in c.subs ==> raw in f && f[raw] == c.subs[raw]
    case ReleaseAll => f == c.subs
    case _ => true
  }

  lemma FirstKeys(f: map<string, Target>, c: Conn, s: Step)
    requires f.Keys == c.subs.Keys && Enabled(c, s)
    ensures FirstAfter(f, c, s).Keys == Next(c, s).subs.Keys
  {
  }

  lemma FirstStep(f: map<string, Target>, c: Conn, s: Step)
    requires f.Keys == c.subs.Keys && GivenUpAsFirst(f, c, s)
    ensures Pins(f) + Begins(c, s) == Ends(c, s) + Pins(FirstAfter(f, c, s))
  {
    match s
    case Subscribe(raw, target) =>
      if raw !in c.subs {
        PinsAdded(f, raw, target);
      }
    case Unsubscribe(raw) =>
      if raw in c.subs {
        PinsRemoved(f, raw);
      } else {
        assert f - {raw} == f;
      }
    case ReleaseAll => NoPins();
    case _ =>
  }

  lemma Chained(began: multiset<Pin>, ended: multiset<Pin>, f: multiset<Pin>, g: multiset<Pin>,
                more: multiset<Pin>, less: multiset<Pin>)
    requires began == ended + f && f + more == less + g
    ensures began + more == (ended + less) + g
  {
    assert began + more == ended + (f + more);
  }

  lemma {:induction false} FirstCounts(now: int, run: seq<Step>)
    requires Legal(now, run) && Returns(now, run)
    ensures First(now, run).Keys == After(now, run).subs.Keys
    ensures Began(now, run) == Ended(now, run) + Pins(First(now, run))
    decreases |run|
  {
    if run == [] {
      NoPins();
    } else {
      var front, s := run[..|run| - 1], run[|run| - 1];
      FirstCounts(now, front);
      var f, c := First(now, front), After(now, front);
      FirstKeys(f, c, s);
      FirstStep(f, c, s);
      Chained(Began(now, front), Ended(now, front), Pins(f), Pins(FirstAfter(f, c, s)), Begins(c, s), Ends(c, s));
    }
  }

  /** So a path may resolve elsewhere, if it resolves back before it is given up: nothing is lost. */
  lemma ReturningRunBalances(now: int, run: seq<Step>)
    requires Legal(now, run) && Returns(now, run) && First(now, run) == After(now, run).subs
    ensures Balanced(After(now, run))
  {
    FirstCounts(now, run);
    RunCounts(now, run);
  }

  /** The run is one the connection can take, and ends there. */
  ghost predicate Comes(now: int, run: seq<Step>, c: Conn) {
    Legal(now, run) && After(now, run) == c
  }

  lemma Came(now: int, run: seq<Step>, c: Conn, s: Step, d: Conn) returns (more: seq<Step>)
    requires Comes(now, run, c) && Enabled(c, s) && Next(c, s) == d
    ensures more == run + [s] && Comes(now, more, d)
  {
    more := run + [s];
    assert more[..|run|] == run;
  }

  /** And if it does not, a pin stays taken for good and another is released that was never taken. */
  lemma ResolvedElsewhereLeaks(now: int, raw: string, a: Target, b: Target) returns (run: seq<Step>)
    requires a != b
    ensures run == [Subscribe(raw, a), TakePin((raw, a)), Subscribe(raw, b), ReleaseAll, ReturnPin((raw, b))]
    ensures Legal(now, run)
    ensures var c := After(now, run);
            && c.subs == map[] && c.toTake == multiset{} && c.toRelease == multiset{}
            && c.taken == multiset{(raw, a)} && c.released == multiset{(raw, b)} && c.taken != c.released
  {
    var held := Held(now, raw, a, multiset{}, multiset{(raw, a)});
    run := SubscribedOnce(now, raw, a);
    SubscribedAgain(now, raw, a, b);
    run := Came(now, run, held, Subscribe(raw, b), held.(subs := map[raw := b]));
    ReleasedAll(now, raw, a, b);
    var left := held.(subs := map[], toRelease := multiset{(raw, b)});
    run := Came(now, run, held.(subs := map[raw := b]), ReleaseAll, left);
    var last := left.(toRelease := multiset{}, released := multiset{(raw, b)});
    assert Next(left, ReturnPin((raw, b))) == last;
    run := Came(now, run, left, ReturnPin((raw, b)), last);
    assert last.taken[(raw, b)] == 0;
  }

  /** One path held, with what is to be taken and what was taken so far. */
  function Held(now: int, raw: string, t: Target, toTake: multiset<Pin>, taken: multiset<Pin>): Conn {
    Conn(map[raw := t], map[], now, map[], toTake, multiset{}, taken, multiset{})
  }

  lemma SubscribedOnce(now: int, raw: string, a: Target) returns (run: seq<Step>)
    ensures run == [Subscribe(raw, a), TakePin((raw, a))]
    ensures Comes(now, run, Held(now, raw, a, multiset{}, multiset{(raw, a)}))
  {
    var pin: multiset<Pin> := multiset{(raw, a)};
    var asked := Held(now, raw, a, pin, multiset{});
    var none: map<string, Target> := map[];
    assert none[raw := a] == map[raw := a];
    assert Next(Start(now), Subscribe(raw, a)) == asked;
    run := Came(now, [], Start(now), Subscribe(raw, a), asked);
    assert Next(asked, TakePin((raw, a))) == Held(now, raw, a, multiset{}, pin);
    run := Came(now, run, asked, TakePin((raw, a)), Held(now, raw, a, multiset{}, pin));
  }

  lemma SubscribedAgain(now: int, raw: string, a: Target, b: Target)
    ensures var held := Held(now, raw, a, multiset{}, multiset{(raw, a)});
            Next(held, Subscribe(raw, b)) == held.(subs := map[raw := b])
  {
    var held := Held(now, raw, a, multiset{}, multiset{(raw, a)});
    assert held.subs[raw := b] == map[raw := b];
  }

  lemma ReleasedAll(now: int, raw: string, a: Target, b: Target)
    ensures var held := Held(now, raw, a, multiset{}, multiset{(raw, a)}).(subs := map[raw := b]);
            Next(held, ReleaseAll) == held.(subs := map[], toRelease := multiset{(raw, b)})
  {
    var none: map<string, Target> := map[];
    PinsAdded(none, raw, b);
    NoPins();
    assert none[raw := b] == map[raw := b];
  }

  lemma SettledLedger(c: Conn)
    requires Balanced(c) && |c.subs| <= MAX_SUBSCRIPTIONS && c.toTake == multiset{} && c.toRelease == multiset{}
    ensures c.taken == c.released + Pins(c.subs) && |c.taken| <= |c.released| + MAX_SUBSCRIPTIONS
    ensures c.subs == map[] ==> c.taken == c.released
  {
    assert c.taken + multiset{} == c.taken && c.released + multiset{} == c.released;
    PinsCount(c.subs);
    NoPins();
  }

  lemma PinsCount(subs: map<string, Target>)
    ensures |Pins(subs)| == |subs|
    decreases |subs|
  {
    if subs == map[] {
    } else {
      var raw :| raw in subs;
      PinsRemoved(subs, raw);
      var rest := subs - {raw};
      assert subs.Keys == rest.Keys + {raw};
      assert |subs.Keys| == |subs| && |rest.Keys| == |rest|;
      PinsCount(rest);
    }
  }

  // ---- Delivery.

  /** The path is taken, or given up, by this step. */
  ghost predicate Settles(c: Conn, s: Step, raw: string) {
    || (s.Take? && raw in Ready(c.pending, s.now))
    || (s.Unsubscribe? && s.raw == raw)
    || s.ReleaseAll?
  }

  lemma {:induction false} LegalPrefix(now: int, run: seq<Step>, n: nat)
    requires Legal(now, run) && n <= |run|
    ensures Legal(now, run[..n])
    decreases |run|
  {
    if n < |run| {
      LegalPrefix(now, run[..|run| - 1], n);
      assert run[..|run| - 1][..n] == run[..n];
    } else {
      assert run[..n] == run;
    }
  }

  /** The state before the k-th step. */
  ghost function Before(now: int, run: seq<Step>, k: nat): Conn
    requires Legal(now, run) && k <= |run|
  {
    LegalPrefix(now, run, k);
    After(now, run[..k])
  }

  lemma {:induction false} BeforeNext(now: int, run: seq<Step>, k: nat)
    requires Legal(now, run) && k < |run|
    ensures Enabled(Before(now, run, k), run[k]) && Before(now, run, k + 1) == Next(Before(now, run, k), run[k])
  {
    LegalPrefix(now, run, k + 1);
    assert run[..k + 1][..k] == run[..k];
  }

  /** A pending path stays pending until a step takes it or gives it up. */
  lemma {:induction false} PendingUntilSettled(now: int, run: seq<Step>, i: nat, n: nat, raw: string)
    requires Legal(now, run) && i <= n <= |run| && raw in Before(now, run, i).pending
    ensures raw in Before(now, run, n).pending
      || exists j :: i <= j < n && Settles(Before(now, run, j), run[j], raw)
    decreases n - i
  {
    if i < n {
      BeforeNext(now, run, i);
      if !Settles(Before(now, run, i), run[i], raw) {
        PendingUntilSettled(now, run, i + 1, n, raw);
      }
    }
  }

  /**
   An event that matches a held path leaves it pending, or a later step takes it, or the path is
   given up: no event is lost between two windows.
   */
  lemma {:induction false} EventsAreDelivered(now: int, run: seq<Step>, i: nat, n: nat, raw: string)
    requires Legal(now, run) && i < n <= |run| && run[i].Record?
    requires raw in Before(now, run, i).subs && Concerns(run[i].ev, Before(now, run, i).subs[raw])
    ensures raw in Before(now, run, n).pending
      || exists j :: i < j < n && Settles(Before(now, run, j), run[j], raw)
  {
    BeforeNext(now, run, i);
    PendingUntilSettled(now, run, i + 1, n, raw);
  }

  /** The time of a path's last take never goes back. */
  lemma LastTakeGrows(c: Conn, s: Step, raw: string, since: int)
    requires Inv(c) && Enabled(c, s)
    requires (raw in c.lastTake && since <= c.lastTake[raw])
        || (s.Take? && raw in Ready(c.pending, s.now) && since == s.now)
    ensures raw in Next(c, s).lastTake && since <= Next(c, s).lastTake[raw]
  {
  }

  lemma {:induction false} LastTakeStays(now: int, run: seq<Step>, i: nat, n: nat, raw: string, since: int)
    requires Legal(now, run) && i <= n <= |run|
    requires raw in Before(now, run, i).lastTake && since <= Before(now, run, i).lastTake[raw]
    ensures raw in Before(now, run, n).lastTake && since <= Before(now, run, n).lastTake[raw]
    decreases n - i
  {
    if i < n {
      BeforeNext(now, run, i);
      LegalPrefix(now, run, i);
      RunKeeps(now, run[..i]);
      LastTakeGrows(Before(now, run, i), run[i], raw, since);
      LastTakeStays(now, run, i + 1, n, raw, since);
    }
  }

  /** Two takes of one path are at least a debounce window apart. */
  lemma {:induction false} TakesAreApart(now: int, run: seq<Step>, i: nat, j: nat, raw: string)
    requires Legal(now, run) && i < j < |run| && run[i].Take? && run[j].Take?
    requires raw in Ready(Before(now, run, i).pending, run[i].now)
        && raw in Ready(Before(now, run, j).pending, run[j].now)
    ensures run[j].now - run[i].now >= EVENT_DEBOUNCE
  {
    BeforeNext(now, run, i);
    LastTakeStays(now, run, i + 1, j, raw, run[i].now);
    LegalPrefix(now, run, j);
    RunKeeps(now, run[..j]);
  }
}
