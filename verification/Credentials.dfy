/**
 The credential tiers under concurrent verifiers and mutators (auth/login.go, apppw.go, cache.go):
 verifiers read the generation, then the store, then cache under that generation; mutators commit,
 then bump.
 */
module Credentials {
  import opened Octets

  datatype Principal = Principal(id: int, login: string, display: string, disabled: bool)

  datatype Account = Account(id: int, name: string, display: string, pwHash: string, disabled: bool)

  datatype AppPassword = AppPassword(id: int, user: int, perms: nat, shares: seq<nat>, expires: Option<int>,
      wipeWanted: bool)

  /** One committed state of the store, as far as verification reads it. */
  datatype Facts = Facts(byName: map<string, int>, accounts: map<int, Account>, issuers: map<int, string>,
                         tokens: map<string, AppPassword>)

  datatype Request = ByPassword(name: string, password: string) | ByToken(digest: string)

  /** `Outcome`, and what a verified app password resolves to. */
  datatype Decision =
    | Rejected
    | Accepted(principal: Principal)
    | Granted(principal: Principal, perms: nat, shares: seq<nat>, id: int, expires: Option<int>)

  datatype Key = CredKey(mac: string) | TokenKey(digest: string)

  const NUL := 0 as char

  /** `credKey`; the keyed digest stands for its input. */
  function KeyOf(r: Request): Key {
    match r
    case ByPassword(name, password) => CredKey("cred" + [NUL] + name + [NUL] + password)
    case ByToken(digest) => TokenKey(digest)
  }

  /** The names accounts have hold no NUL; the name a client presents may. */
  predicate NulFree(r: Request) {
    r.ByPassword? ==> NUL !in r.name
  }

  lemma KeyNamesOneRequest(a: Request, b: Request)
    requires NulFree(a) && NulFree(b) && KeyOf(a) == KeyOf(b)
    ensures a == b
  {
    if a.ByPassword? {
      KeysJoin(a.name, a.password, b.name, b.password);
      SplitAtNul(a.name, a.password, b.name, b.password);
    }
  }

  predicate FirstNul(s: string, i: nat) {
    i < |s| && s[i] == NUL && forall j :: 0 <= j < i ==> s[j] != NUL
  }

  /** What `credKey` digests after its label. */
  function Joined(name: string, password: string): string {
    name + [NUL] + password
  }

  lemma KeysJoin(n: string, s: string, m: string, t: string)
    ensures KeyOf(ByPassword(n, s)) == KeyOf(ByPassword(m, t)) <==> Joined(n, s) == Joined(m, t)
  {
    var p := "cred" + [NUL];
    var a, b := p + n + [NUL] + s, p + m + [NUL] + t;
    assert a == p + Joined(n, s) && b == p + Joined(m, t);
    assert a[|p|..] == Joined(n, s) && b[|p|..] == Joined(m, t);
  }

  lemma SplitAtNul(n: string, s: string, m: string, t: string)
    requires NUL !in n && NUL !in m && Joined(n, s) == Joined(m, t)
    ensures n == m && s == t
  {
    var x, y := Joined(n, s), Joined(m, t);
    assert FirstNul(x, |n|) && FirstNul(y, |m|);
    assert x[..|n|] == n && y[..|m|] == m && x[|n| + 1..] == s && y[|m| + 1..] == t;
  }

  /** The request is by token, or holds no NUL at all. */
  predicate Alone(r: Request) {
    r.ByPassword? ==> NUL !in r.name && NUL !in r.password
  }

  /** The length of the string before its first NUL. */
  function Cut(s: string): (i: nat)
    ensures i <= |s| && NUL !in s[..i] && (i < |s| ==> s[i] == NUL)
  {
    if s == [] || s[0] == NUL then 0 else
      var i := 1 + Cut(s[1..]);
      assert s[..i] == [s[0]] + s[1..][..i - 1];
      i
  }

  /** The one pair under the same key whose name an account can have: the NUL moves into the password. */
  function AsRead(r: Request): Request {
    if r.ByToken? || NUL !in r.name then r
    else ByPassword(r.name[..Cut(r.name)], Joined(r.name[Cut(r.name) + 1..], r.password))
  }

  lemma NulMoves(name: string, mid: string, rest: string)
    ensures KeyOf(ByPassword(Joined(name, mid), rest)) == KeyOf(ByPassword(name, Joined(mid, rest)))
  {
    KeysJoin(Joined(name, mid), rest, name, Joined(mid, rest));
    assert Joined(Joined(name, mid), rest) == Joined(name, Joined(mid, rest));
  }

  lemma AsReadShares(r: Request)
    ensures KeyOf(AsRead(r)) == KeyOf(r) && NulFree(AsRead(r)) && (AsRead(r) == r <==> NulFree(r))
  {
    if !NulFree(r) {
      var i := Cut(r.name);
      assert r.name == Joined(r.name[..i], r.name[i + 1..]);
      NulMoves(r.name[..i], r.name[i + 1..], r.password);
    }
  }

  /** Of all requests that share its key, a request is the only one exactly when it holds no NUL. */
  lemma AloneExactlyWhen(r: Request)
    ensures (forall other :: KeyOf(other) == KeyOf(r) ==> other == r) <==> Alone(r)
  {
    if Alone(r) {
      forall other | KeyOf(other) == KeyOf(r) ensures other == r {
        AloneIsAlone(r, other);
      }
    } else {
      var other := Another(r);
      assert KeyOf(other) == KeyOf(r) && other != r;
    }
  }

  lemma OneNul(n: string, s: string, m: string, t: string)
    requires NUL !in n && NUL !in s && Joined(n, s) == Joined(m, t)
    ensures NUL !in m
  {
    var x := Joined(n, s);
    forall j | 0 <= j < |x| && j != |n| ensures x[j] != NUL {
      assert x[j] == if j < |n| then n[j] else s[j - |n| - 1];
    }
    assert Joined(m, t)[|m|] == NUL;
    forall i | 0 <= i < |m| ensures m[i] != NUL {
      assert Joined(m, t)[i] == m[i];
    }
  }

  lemma AloneIsAlone(r: Request, other: Request)
    requires Alone(r) && KeyOf(other) == KeyOf(r)
    ensures other == r
  {
    if r.ByPassword? {
      KeysJoin(r.name, r.password, other.name, other.password);
      OneNul(r.name, r.password, other.name, other.password);
      KeyNamesOneRequest(r, other);
    }
  }

  /** Another request under the key of one that holds a NUL. */
  lemma Another(r: Request) returns (other: Request)
    requires !Alone(r)
    ensures KeyOf(other) == KeyOf(r) && other != r && other.ByPassword?
    ensures NulFree(r) ==> !NulFree(other)
    ensures !NulFree(r) ==> other == AsRead(r)
  {
    if NUL in r.name {
      AsReadShares(r);
      other := AsRead(r);
    } else {
      var i := Cut(r.password);
      assert r.password == Joined(r.password[..i], r.password[i + 1..]);
      NulMoves(r.name, r.password[..i], r.password[i + 1..]);
      other := ByPassword(Joined(r.name, r.password[..i]), r.password[i + 1..]);
      assert other.name[|r.name|] == NUL;
    }
  }

  function PrincipalOf(a: Account): Principal {
    Principal(a.id, a.name, a.display, a.disabled)
  }

  function AccountByName(f: Facts, name: string): Option<Account> {
    if name in f.byName && f.byName[name] in f.accounts then Some(f.accounts[f.byName[name]]) else None
  }

  /** What the first store read of a verification leads to. */
  datatype FirstRead = Settled(d: Decision) | Refused | NeedsLink(acct: Account) | NeedsOwner(row: AppPassword)

  function First(r: Request, f: Facts): FirstRead {
    match r
    case ByPassword(name, _) =>
      (match AccountByName(f, name)
       case None => Settled(Rejected)
       case Some(a) => if a.pwHash == "" then Settled(Rejected) else NeedsLink(a))
    case ByToken(digest) =>
      if digest !in f.tokens || f.tokens[digest].wipeWanted then Refused else NeedsOwner(f.tokens[digest])
  }

  /** The second read, and for a password the memory-hard check; None is a refusal that is never cached. */
  function Second(check: (string, string) -> bool, r: Request, seen: FirstRead, f: Facts): Option<Decision> {
    match seen
    case Settled(d) => Some(d)
    case Refused => None
    case NeedsLink(a) =>
      if a.id in f.issuers && f.issuers[a.id] != "" then Some(Rejected)
      else if r.ByPassword? && check(a.pwHash, r.password) then Some(Accepted(PrincipalOf(a)))
      else Some(Rejected)
    case NeedsOwner(row) =>
      if row.user in f.accounts && !f.accounts[row.user].disabled then
        Some(Granted(PrincipalOf(f.accounts[row.user]), row.perms, row.shares, row.id, row.expires))
      else None
  }

  const SECOND := 1_000_000_000

  const POSITIVE_TTL := 15 * 60 * SECOND

  const POSITIVE_IDLE := 5 * 60 * SECOND

  const NEGATIVE_TTL := 30 * SECOND

  const TOKEN_TTL := 60 * SECOND

  datatype Entry = Entry(d: Decision, gen: nat, inserted: int, lastHit: int)

  predicate Expired(expires: Option<int>, now: int) {
    expires.Some? && now >= expires.value
  }

  /** Whether an entry of this decision's tier still answers. */
  predicate Fresh(e: Entry, gen: nat, now: int) {
    && e.gen == gen
    && match e.d
       case Accepted(_) => now - e.inserted <= POSITIVE_TTL && now - e.lastHit <= POSITIVE_IDLE
       case Rejected => now - e.inserted <= NEGATIVE_TTL
       case Granted(_, _, _, _, expires) => now - e.inserted < TOKEN_TTL && !Expired(expires, now)
  }

  /** Only a positive password decision is kept warm by being used. */
  function Touched(e: Entry, now: int): Entry {
    if e.d.Accepted? then e.(lastHit := now) else e
  }

  // ---- The protocol.

  datatype Thread =
    | Captured(req: Request, gen: nat)
    | Missed(req: Request, gen: nat)
    | Reading(req: Request, gen: nat, seen: FirstRead)
    | Decided(req: Request, gen: nat, d: Decision)
    | Answered(req: Request, gen: nat, d: Decision)
    | Denied

  /** Every committed store state; the version current at each bump; the threads; the tiers and the memo. */
  datatype State = State(history: seq<Facts>, floor: seq<nat>, threads: map<nat, Thread>, cache: map<Key, Entry>,
                         memo: map<string, (Decision, nat)>)
  {
    function Gen(): int { |floor| - 1 }

    function Now(): Facts
      requires history != []
    {
      history[|history| - 1]
    }
  }

  datatype Action =
    | Commit(f: Facts)
    | Bump
    | Capture(t: nat, req: Request)
    | Lookup(t: nat, now: int)
    | ReadFirst(t: nat, now: int)
    | ReadSecond(t: nat)
    | Store(t: nat, now: int)
    | Fail(t: nat)
    | Evict(k: Key)
    | Remember(t: nat, digest: string)

  ghost predicate Enabled(s: State, a: Action) {
    && s.history != [] && s.floor != []
    && match a
       case Lookup(t, _) => t in s.threads && s.threads[t].Captured?
       case ReadFirst(t, _) => t in s.threads && s.threads[t].Missed?
       case ReadSecond(t) => t in s.threads && s.threads[t].Reading?
       case Store(t, _) => t in s.threads && s.threads[t].Decided?
       case Remember(t, _) => t in s.threads && s.threads[t].Answered? && !s.threads[t].d.Rejected?
       case _ => true
  }

  /** Whether the lookup of a captured thread is answered from the cache. */
  predicate Hits(s: State, th: Thread, now: int)
    requires th.Captured?
  {
    KeyOf(th.req) in s.cache && Fresh(s.cache[KeyOf(th.req)], th.gen, now)
  }

  function LookupStep(s: State, t: nat, th: Thread, now: int): State
    requires th.Captured?
  {
    var k := KeyOf(th.req);
    if Hits(s, th, now) then
      s.(threads := s.threads[t := Answered(th.req, th.gen, s.cache[k].d)],
          cache := s.cache[k := Touched(s.cache[k], now)])
    else
      s.(threads := s.threads[t := Missed(th.req, th.gen)], cache := s.cache - {k})
  }

  function AfterFirst(th: Thread, f: Facts, now: int): Thread
    requires th.Missed?
  {
    match First(th.req, f)
    case Settled(d) => Decided(th.req, th.gen, d)
    case Refused => Denied
    case NeedsLink(a) => Reading(th.req, th.gen, NeedsLink(a))
    case NeedsOwner(row) => if Expired(row.expires, now) then Denied else Reading(th.req, th.gen, NeedsOwner(row))
  }

  function AfterSecond(check: (string, string) -> bool, th: Thread, f: Facts): Thread
    requires th.Reading?
  {
    match Second(check, th.req, th.seen, f)
    case None => Denied
    case Some(d) => Decided(th.req, th.gen, d)
  }

  function Next(check: (string, string) -> bool, s: State, a: Action): State
    requires Enabled(s, a)
  {
    match a
    case Commit(f) => s.(history := s.history + [f])
    case Bump => s.(floor := s.floor + [|s.history| - 1])
    case Capture(t, req) => s.(threads := s.threads[t := Captured(req, s.Gen())])
    case Lookup(t, now) => LookupStep(s, t, s.threads[t], now)
    case ReadFirst(t, now) => s.(threads := s.threads[t := AfterFirst(s.threads[t], s.Now(), now)])
    case ReadSecond(t) => s.(threads := s.threads[t := AfterSecond(check, s.threads[t], s.Now())])
    case Store(t, now) =>
      var th := s.threads[t];
      s.(threads := s.threads[t := Answered(th.req, th.gen, th.d)],
         cache := s.cache[KeyOf(th.req) := Entry(th.d, th.gen, now, now)])
    case Fail(t) => s.(threads := s.threads[t := Denied])
    case Evict(k) => s.(cache := s.cache - {k})
    case Remember(t, digest) => s.(memo := s.memo[digest := (s.threads[t].d, s.Gen())])
  }

  // ---- What a cached decision rests on.

  /** The decision follows from the store as it was at two of its versions. */
  ghost predicate Derived(check: (string, string) -> bool, h: seq<Facts>, req: Request, d: Decision, v1: nat, v2: nat) {
    v1 <= v2 < |h| && First(req, h[v1]) != Refused && Second(check, req, First(req, h[v1]), h[v2]) == Some(d)
  }

  /** Neither read is older than the version current when the generation began. */
  ghost predicate Honest(check: (string, string) -> bool, h: seq<Facts>, floor: seq<nat>, req: Request, gen: nat,
          d: Decision)
  {
    gen < |floor| && exists v1, v2 :: floor[gen] <= v1 && Derived(check, h, req, d, v1, v2)
  }

  /** The decision is one some request under the key is owed. */
  ghost predicate HonestUnder(check: (string, string) -> bool, h: seq<Facts>, floor: seq<nat>, k: Key, gen: nat,
          d: Decision)
  {
    exists asked :: KeyOf(asked) == k && Honest(check, h, floor, asked, gen, d)
  }

  ghost predicate Saw(h: seq<Facts>, floor: seq<nat>, req: Request, gen: nat, seen: FirstRead) {
    gen < |floor| && exists v1 :: floor[gen] <= v1 < |h| && First(req, h[v1]) == seen
  }

  ghost predicate ThreadOk(check: (string, string) -> bool, h: seq<Facts>, floor: seq<nat>, th: Thread) {
    match th
    case Captured(req, gen) => gen < |floor|
    case Missed(req, gen) => gen < |floor|
    case Reading(req, gen, seen) => seen != Refused && Saw(h, floor, req, gen, seen)
    case Decided(req, gen, d) => Honest(check, h, floor, req, gen, d)
    case Answered(req, gen, d) => HonestUnder(check, h, floor, KeyOf(req), gen, d)
    case Denied => true
  }

  ghost predicate Inv(check: (string, string) -> bool, s: State) {
    && s.history != [] && s.floor != []
    && (forall g :: 0 <= g < |s.floor| ==> s.floor[g] < |s.history|)
    && (forall g, g' :: 0 <= g <= g' < |s.floor| ==> s.floor[g] <= s.floor[g'])
    && (forall t :: t in s.threads ==> ThreadOk(check, s.history, s.floor, s.threads[t]))
    && (forall k :: k in s.cache ==> HonestUnder(check, s.history, s.floor, k, s.cache[k].gen, s.cache[k].d))
  }

  lemma HonestLasts(check: (string, string) -> bool, h: seq<Facts>, floor: seq<nat>, h': seq<Facts>, floor': seq<nat>,
                    req: Request, gen: nat, d: Decision)
    requires h <= h' && floor <= floor' && Honest(check, h, floor, req, gen, d)
    ensures Honest(check, h', floor', req, gen, d)
  {
    var v1, v2 :| floor[gen] <= v1 && Derived(check, h, req, d, v1, v2);
    assert Derived(check, h', req, d, v1, v2);
  }

  lemma UnderLasts(check: (string, string) -> bool, h: seq<Facts>, floor: seq<nat>, h': seq<Facts>, floor': seq<nat>,
                   k: Key, gen: nat, d: Decision)
    requires h <= h' && floor <= floor' && HonestUnder(check, h, floor, k, gen, d)
    ensures HonestUnder(check, h', floor', k, gen, d)
  {
    var asked :| KeyOf(asked) == k && Honest(check, h, floor, asked, gen, d);
    HonestLasts(check, h, floor, h', floor', asked, gen, d);
  }

  lemma ThreadLasts(check: (string, string) -> bool, h: seq<Facts>, floor: seq<nat>, h': seq<Facts>, floor': seq<nat>,
          th: Thread)
    requires h <= h' && floor <= floor' && ThreadOk(check, h, floor, th)
    ensures ThreadOk(check, h', floor', th)
  {
    match th
    case Reading(req, gen, seen) =>
      var v1 :| floor[gen] <= v1 < |h| && First(req, h[v1]) == seen;
      assert First(req, h'[v1]) == seen;
    case Decided(req, gen, d) => HonestLasts(check, h, floor, h', floor', req, gen, d);
    case Answered(req, gen, d) => UnderLasts(check, h, floor, h', floor', KeyOf(req), gen, d);
    case _ =>
  }

  /** Other threads' commits and bumps never spoil what a thread or an entry rests on. */
  lemma GrowKeeps(check: (string, string) -> bool, s: State, s': State)
    requires Inv(check, s) && s.history <= s'.history && s.floor <= s'.floor
    requires s'.threads == s.threads && s'.cache == s.cache
    requires forall g :: |s.floor| <= g < |s'.floor| ==> s'.floor[g] == |s.history| - 1
    ensures Inv(check, s')
  {
    forall t | t in s'.threads ensures ThreadOk(check, s'.history, s'.floor, s'.threads[t]) {
      ThreadLasts(check, s.history, s.floor, s'.history, s'.floor, s.threads[t]);
    }
    forall k | k in s'.cache ensures HonestUnder(check, s'.history, s'.floor, k, s'.cache[k].gen, s'.cache[k].d) {
      UnderLasts(check, s.history, s.floor, s'.history, s'.floor, k, s.cache[k].gen, s.cache[k].d);
    }
  }

  lemma FirstReadKeeps(check: (string, string) -> bool, h: seq<Facts>, floor: seq<nat>, th: Thread, now: int)
    requires th.Missed? && h != [] && ThreadOk(check, h, floor, th) && floor[th.gen] < |h|
    ensures ThreadOk(check, h, floor, AfterFirst(th, h[|h| - 1], now))
  {
    var v := |h| - 1;
    var seen := First(th.req, h[v]);
    assert floor[th.gen] <= v < |h| && First(th.req, h[v]) == seen;
    if seen.Settled? {
      assert Derived(check, h, th.req, seen.d, v, v);
    }
  }

  lemma SecondReadKeeps(check: (string, string) -> bool, h: seq<Facts>, floor: seq<nat>, th: Thread)
    requires th.Reading? && h != [] && ThreadOk(check, h, floor, th)
    ensures ThreadOk(check, h, floor, AfterSecond(check, th, h[|h| - 1]))
  {
    var v1 :| floor[th.gen] <= v1 < |h| && First(th.req, h[v1]) == th.seen;
    var r := Second(check, th.req, th.seen, h[|h| - 1]);
    if r.Some? {
      assert Derived(check, h, th.req, r.value, v1, |h| - 1);
    }
  }

  /** A thread that is fine may take another's place. */
  lemma ThreadKeeps(check: (string, string) -> bool, s: State, t: nat, th: Thread)
    requires Inv(check, s) && ThreadOk(check, s.history, s.floor, th)
    ensures Inv(check, s.(threads := s.threads[t := th]))
  {
  }

  /** An entry some request under its key is owed may replace another. */
  lemma EntryKeeps(check: (string, string) -> bool, s: State, k: Key, e: Entry)
    requires Inv(check, s) && HonestUnder(check, s.history, s.floor, k, e.gen, e.d)
    ensures Inv(check, s.(cache := s.cache[k := e]))
  {
  }

  lemma StoreKeeps(check: (string, string) -> bool, s: State, t: nat, now: int)
    requires Inv(check, s) && Enabled(s, Store(t, now))
    ensures Inv(check, Next(check, s, Store(t, now)))
  {
    var th, s' := s.threads[t], Next(check, s, Store(t, now));
    assert ThreadOk(check, s.history, s.floor, th);
    assert HonestUnder(check, s.history, s.floor, KeyOf(th.req), th.gen, th.d);
    ThreadKeeps(check, s, t, Answered(th.req, th.gen, th.d));
    EntryKeeps(check, s.(threads := s'.threads), KeyOf(th.req), Entry(th.d, th.gen, now, now));
  }

  lemma LookupKeeps(check: (string, string) -> bool, s: State, t: nat, now: int)
    requires Inv(check, s) && Enabled(s, Lookup(t, now))
    ensures Inv(check, Next(check, s, Lookup(t, now)))
  {
  }

  lemma StepKeeps(check: (string, string) -> bool, s: State, a: Action)
    requires Inv(check, s) && Enabled(s, a)
    ensures Inv(check, Next(check, s, a))
  {
    match a
    case Commit(f) => GrowKeeps(check, s, Next(check, s, a));
    case Bump => GrowKeeps(check, s, Next(check, s, a));
    case Lookup(t, now) => LookupKeeps(check, s, t, now);
    case Capture(t, req) => ThreadKeeps(check, s, t, Captured(req, s.Gen()));
    case ReadFirst(t, now) =>
      FirstReadKeeps(check, s.history, s.floor, s.threads[t], now);
      ThreadKeeps(check, s, t, AfterFirst(s.threads[t], s.Now(), now));
    case ReadSecond(t) =>
      SecondReadKeeps(check, s.history, s.floor, s.threads[t]);
      ThreadKeeps(check, s, t, AfterSecond(check, s.threads[t], s.Now()));
    case Store(t, now) => StoreKeeps(check, s, t, now);
    case Fail(t) => ThreadKeeps(check, s, t, Denied);
    case _ =>
  }

  // ---- Runs.

  /** A process just started: nothing captured, nothing cached. */
  function Boot(f: Facts): State {
    State([f], [0], map[], map[], map[])
  }

  ghost predicate Legal(check: (string, string) -> bool, f: Facts, run: seq<Action>)
    decreases |run|, 0
  {
    run == [] || (Legal(check, f, run[..|run| - 1]) && Enabled(After(check, f, run[..|run| - 1]), run[|run| - 1]))
  }

  ghost function After(check: (string, string) -> bool, f: Facts, run: seq<Action>): State
    requires Legal(check, f, run)
    decreases |run|, 1
  {
    if run == [] then Boot(f) else Next(check, After(check, f, run[..|run| - 1]), run[|run| - 1])
  }

  lemma {:induction false} RunKeeps(check: (string, string) -> bool, f: Facts, run: seq<Action>)
    requires Legal(check, f, run)
    ensures Inv(check, After(check, f, run))
    decreases |run|
  {
    if run != [] {
      RunKeeps(check, f, run[..|run| - 1]);
      StepKeeps(check, After(check, f, run[..|run| - 1]), run[|run| - 1]);
    }
  }

  /** Some store version since `v`, read first, and some version since, read second, yield the decision. */
  ghost predicate DerivableSince(check: (string, string) -> bool, h: seq<Facts>, req: Request, d: Decision, v: nat) {
    exists v1, v2 :: v <= v1 && Derived(check, h, req, d, v1, v2)
  }

  /** Some request under the key is owed the decision. */
  ghost predicate DerivableUnder(check: (string, string) -> bool, h: seq<Facts>, k: Key, d: Decision, v: nat) {
    exists asked :: KeyOf(asked) == k && DerivableSince(check, h, asked, d, v)
  }

  lemma AloneDerives(check: (string, string) -> bool, h: seq<Facts>, req: Request, d: Decision, v: nat)
    requires Alone(req)
    ensures DerivableUnder(check, h, KeyOf(req), d, v) <==> DerivableSince(check, h, req, d, v)
  {
    AloneExactlyWhen(req);
  }

  lemma HonestIsDerivable(check: (string, string) -> bool, s: State, k: Key, gen: nat, d: Decision, bump: nat)
    requires Inv(check, s) && HonestUnder(check, s.history, s.floor, k, gen, d) && bump <= gen
    ensures bump < |s.floor| && DerivableUnder(check, s.history, k, d, s.floor[bump])
  {
    var asked :| KeyOf(asked) == k && Honest(check, s.history, s.floor, asked, gen, d);
    var v1, v2 :| s.floor[gen] <= v1 && Derived(check, s.history, asked, d, v1, v2);
    assert s.floor[bump] <= v1;
    assert DerivableSince(check, s.history, asked, d, s.floor[bump]);
  }

  /**
   Whatever the interleaving, a decision served from the cache follows, for a request under the key,
   from the store at versions no older than any change whose bump the lookup could see. A request
   that holds no NUL is the only one under its key.
   */
  lemma ServedIsCurrent(check: (string, string) -> bool, f: Facts, run: seq<Action>, t: nat, now: int, bump: nat)
    requires Legal(check, f, run)
    requires var s := After(check, f, run);
             Enabled(s, Lookup(t, now)) && Hits(s, s.threads[t], now) && bump <= s.threads[t].gen
    ensures var s := After(check, f, run);
            var req, d := s.threads[t].req, s.cache[KeyOf(s.threads[t].req)].d;
            && bump < |s.floor|
            && DerivableUnder(check, s.history, KeyOf(req), d, s.floor[bump])
            && (Alone(req) ==> DerivableSince(check, s.history, req, d, s.floor[bump]))
  {
    RunKeeps(check, f, run);
    var s := After(check, f, run);
    var req := s.threads[t].req;
    var d := s.cache[KeyOf(req)].d;
    HonestIsDerivable(check, s, KeyOf(req), s.threads[t].gen, d, bump);
    if Alone(req) {
      AloneDerives(check, s.history, req, d, s.floor[bump]);
    }
  }

  /** With a change committed at version `v` and then bumped, what is served derives from the versions since. */
  lemma ServedIsDerivable(check: (string, string) -> bool, f: Facts, run: seq<Action>, t: nat, now: int, v: nat,
          bump: nat)
    requires Legal(check, f, run)
    requires var s := After(check, f, run);
             && Enabled(s, Lookup(t, now)) && Hits(s, s.threads[t], now)
             && bump <= s.threads[t].gen && bump < |s.floor| && v <= s.floor[bump]
    ensures var s := After(check, f, run);
            DerivableUnder(check, s.history, KeyOf(s.threads[t].req), s.cache[KeyOf(s.threads[t].req)].d, v)
  {
    ServedIsCurrent(check, f, run, t, now, bump);
    var s := After(check, f, run);
    var k := KeyOf(s.threads[t].req);
    var asked :| KeyOf(asked) == k && DerivableSince(check, s.history, asked, s.cache[k].d, s.floor[bump]);
    var v1, v2 :| s.floor[bump] <= v1 && Derived(check, s.history, asked, s.cache[k].d, v1, v2);
    assert DerivableSince(check, s.history, asked, s.cache[k].d, v);
  }

  /** An app password revoked, or wanted wiped, at every version since `v`. */
  ghost predicate RevokedSince(h: seq<Facts>, digest: string, v: nat) {
    forall i :: v <= i < |h| ==> digest !in h[i].tokens || h[i].tokens[digest].wipeWanted
  }

  /** A password that, since `v`, is not the account's, or whose account is gone or signs in elsewhere. */
  ghost predicate WrongSince(check: (string, string) -> bool, h: seq<Facts>, name: string, password: string, v: nat) {
    forall i, j :: v <= i <= j < |h| ==> Wrong(check, h[i], h[j], name, password)
  }

  ghost predicate Wrong(check: (string, string) -> bool, f: Facts, g: Facts, name: string, password: string) {
    var a := AccountByName(f, name);
    a.None? || a.value.pwHash == "" || !check(a.value.pwHash, password)
        || (a.value.id in g.issuers && g.issuers[a.value.id] != "")
  }

  lemma RevokedIsUnderivable(check: (string, string) -> bool, h: seq<Facts>, digest: string, d: Decision, v: nat)
    requires RevokedSince(h, digest, v)
    ensures !DerivableSince(check, h, ByToken(digest), d, v)
  {
    forall v1: nat, v2: nat | v <= v1 <= v2 < |h| ensures !Derived(check, h, ByToken(digest), d, v1, v2) {
      assert First(ByToken(digest), h[v1]) == Refused;
    }
  }

  lemma WrongIsRejected(check: (string, string) -> bool, h: seq<Facts>, name: string, password: string, d: Decision,
          v: nat)
    requires WrongSince(check, h, name, password, v) && DerivableSince(check, h, ByPassword(name, password), d, v)
    ensures d == Rejected
  {
    var v1: nat, v2: nat :| v <= v1 && Derived(check, h, ByPassword(name, password), d, v1, v2);
    assert Wrong(check, h[v1], h[v2], name, password);
  }

  /** Once an app password's revocation is committed and bumped, no lookup that sees the bump is a hit. */
  lemma RevokedIsNeverServed(check: (string, string) -> bool, f: Facts, run: seq<Action>, t: nat, now: int, v: nat,
          bump: nat)
    requires Legal(check, f, run)
    requires var s := After(check, f, run);
             && Enabled(s, Lookup(t, now)) && s.threads[t].req.ByToken?
                 && RevokedSince(s.history, s.threads[t].req.digest, v)
             && bump <= s.threads[t].gen && bump < |s.floor| && v <= s.floor[bump]
    ensures var s := After(check, f, run); !Hits(s, s.threads[t], now)
  {
    var s := After(check, f, run);
    if Hits(s, s.threads[t], now) {
      ServedIsDerivable(check, f, run, t, now, v, bump);
      var req := s.threads[t].req;
      AloneDerives(check, s.history, req, s.cache[KeyOf(req)].d, v);
      RevokedIsUnderivable(check, s.history, req.digest, s.cache[KeyOf(req)].d, v);
    }
  }

  /** Account names hold no NUL: creation admits none. */
  ghost predicate Named(h: seq<Facts>) {
    forall i, name :: 0 <= i < |h| && name in h[i].byName ==> NUL !in name
  }

  /** So only one of the requests under a key can be accepted. */
  lemma AcceptedAsRead(check: (string, string) -> bool, h: seq<Facts>, req: Request, d: Decision, v: nat)
    requires Named(h) && req.ByPassword? && DerivableUnder(check, h, KeyOf(req), d, v) && d != Rejected
    ensures DerivableSince(check, h, AsRead(req), d, v)
  {
    var asked :| KeyOf(asked) == KeyOf(req) && DerivableSince(check, h, asked, d, v);
    var v1, v2 :| v <= v1 && Derived(check, h, asked, d, v1, v2);
    assert asked.name in h[v1].byName;
    AsReadShares(req);
    KeyNamesOneRequest(asked, AsRead(req));
  }

  /**
   Nor is a password accepted from the cache once the change that made it wrong is committed and
   bumped. A presented name that holds a NUL counts as its first part, with the rest as password.
   */
  lemma OldPasswordIsNeverAccepted(check: (string, string) -> bool, f: Facts, run: seq<Action>, t: nat, now: int,
          v: nat, bump: nat)
    requires Legal(check, f, run) && Named(After(check, f, run).history)
    requires var s := After(check, f, run);
             && Enabled(s, Lookup(t, now)) && s.threads[t].req.ByPassword?
             && WrongSince(check, s.history, AsRead(s.threads[t].req).name, AsRead(s.threads[t].req).password, v)
             && bump <= s.threads[t].gen && bump < |s.floor| && v <= s.floor[bump]
    ensures NulFree(After(check, f, run).threads[t].req) ==>
              AsRead(After(check, f, run).threads[t].req) == After(check, f, run).threads[t].req
    ensures var s := After(check, f, run);
            Hits(s, s.threads[t], now) ==> s.cache[KeyOf(s.threads[t].req)].d == Rejected
  {
    var s := After(check, f, run);
    var req := s.threads[t].req;
    if Hits(s, s.threads[t], now) && s.cache[KeyOf(req)].d != Rejected {
      ServedIsDerivable(check, f, run, t, now, v, bump);
      AcceptedAsRead(check, s.history, req, s.cache[KeyOf(req)].d, v);
      WrongIsRejected(check, s.history, AsRead(req).name, AsRead(req).password, s.cache[KeyOf(req)].d, v);
    }
  }

  // ---- The windows, over runs.

  /** Some store step of the run cached this decision under this key and generation, at this time. */
  ghost predicate StoredIn(check: (string, string) -> bool, f: Facts, run: seq<Action>, k: Key, d: Decision, gen: nat,
          time: int)
    requires Legal(check, f, run)
    decreases |run|
  {
    run != []
    && var before, a := After(check, f, run[..|run| - 1]), run[|run| - 1];
       || StoredIn(check, f, run[..|run| - 1], k, d, gen, time)
       || (a.Store? && a.now == time && before.threads[a.t].d == d && before.threads[a.t].gen == gen
           && KeyOf(before.threads[a.t].req) == k)
  }

  /** Some step of the run stored this key or was served from it, at this time. */
  ghost predicate UsedIn(check: (string, string) -> bool, f: Facts, run: seq<Action>, k: Key, time: int)
    requires Legal(check, f, run)
    decreases |run|
  {
    run != []
    && var before, a := After(check, f, run[..|run| - 1]), run[|run| - 1];
       || UsedIn(check, f, run[..|run| - 1], k, time)
       || (a.Store? && a.now == time && KeyOf(before.threads[a.t].req) == k)
       || (a.Lookup? && a.now == time && KeyOf(before.threads[a.t].req) == k && Hits(before, before.threads[a.t], time))
  }

  /** Every entry is what a store step cached, and was last hit when it was last stored or served. */
  lemma {:induction false} EntriesComeFromStores(check: (string, string) -> bool, f: Facts, run: seq<Action>, k: Key)
    requires Legal(check, f, run) && k in After(check, f, run).cache
    ensures var e := After(check, f, run).cache[k];
            StoredIn(check, f, run, k, e.d, e.gen, e.inserted) && UsedIn(check, f, run, k, e.lastHit)
    decreases |run|
  {
    if run != [] {
      var before, a := After(check, f, run[..|run| - 1]), run[|run| - 1];
      if k in before.cache {
        EntriesComeFromStores(check, f, run[..|run| - 1], k);
      }
      EntryAfter(check, before, a, k);
    }
  }

  /** Where an entry comes from in one step. */
  lemma EntryAfter(check: (string, string) -> bool, s: State, a: Action, k: Key)
    requires Enabled(s, a) && k in Next(check, s, a).cache
    ensures var e := Next(check, s, a).cache[k];
            || (k in s.cache && e == s.cache[k])
            || (a.Store? && KeyOf(s.threads[a.t].req) == k
                && e == Entry(s.threads[a.t].d, s.threads[a.t].gen, a.now, a.now))
            || (a.Lookup? && KeyOf(s.threads[a.t].req) == k && Hits(s, s.threads[a.t], a.now)
                && e == Touched(s.cache[k], a.now))
  {
    match a
    case Lookup(t, now) =>
    case Store(t, now) =>
    case _ =>
  }

  /**
   What is served was stored within its tier's lifetime: fifteen minutes and five since its last
   use for an accepted password, thirty seconds for a rejected one, a minute and its own expiry
   for an app password.
   */
  lemma ServedWithinWindows(check: (string, string) -> bool, f: Facts, run: seq<Action>, t: nat, now: int)
    requires Legal(check, f, run)
    requires var s := After(check, f, run); Enabled(s, Lookup(t, now)) && Hits(s, s.threads[t], now)
    ensures var s := After(check, f, run);
            var th, k := s.threads[t], KeyOf(s.threads[t].req);
            var d := s.cache[k].d;
            && (exists stored: int :: StoredIn(check, f, run, k, d, th.gen, stored)
                 && now - stored <= if d.Accepted? then 900 * SECOND else if d.Rejected? then 30 * SECOND
                     else 60 * SECOND - 1)
            && (d.Accepted? ==> exists used: int :: UsedIn(check, f, run, k, used) && now - used <= 300 * SECOND)
            && (d.Granted? && d.expires.Some? ==> now < d.expires.value)
  {
    var s := After(check, f, run);
    var k := KeyOf(s.threads[t].req);
    var e := s.cache[k];
    EntriesComeFromStores(check, f, run, k);
    assert StoredIn(check, f, run, k, e.d, e.gen, e.inserted) && UsedIn(check, f, run, k, e.lastHit);
    assert e.gen == s.threads[t].gen;
  }

  // ---- The connection memo, which reads the generation when it stores.

  /** `RecallConnection`. */
  function Recall(s: State, digest: string): Option<Decision> {
    if digest in s.memo && s.memo[digest].1 == s.Gen() then Some(s.memo[digest].0) else None
  }

  /** Steps after which a memo is as it was and still recalled: no bump, and no other memo under its digest. */
  predicate Leaves(a: Action, digest: string) {
    !a.Bump? && !(a.Remember? && a.digest == digest)
  }

  lemma LeavesMemo(check: (string, string) -> bool, s: State, a: Action, digest: string)
    requires Enabled(s, a) && Leaves(a, digest)
    ensures var s' := Next(check, s, a);
            && s.history <= s'.history && s'.floor == s.floor
            && (digest in s.memo ==> digest in s'.memo && s'.memo[digest] == s.memo[digest])
  {
  }

  lemma {:induction false} MemoStays(
      check: (string, string) -> bool, f: Facts, run: seq<Action>, rest: seq<Action>, digest: string)
    requires Legal(check, f, run + rest) && forall a :: a in rest ==> Leaves(a, digest)
    ensures Legal(check, f, run)
    ensures var s, s' := After(check, f, run), After(check, f, run + rest);
            && s.history <= s'.history && s'.floor == s.floor
            && (digest in s.memo ==> digest in s'.memo && s'.memo[digest] == s.memo[digest])
    decreases |rest|
  {
    if rest == [] {
      assert run + rest == run;
    } else {
      var front := rest[..|rest| - 1];
      assert (run + rest)[..|run + rest| - 1] == run + front;
      MemoStays(check, f, run, front, digest);
      LeavesMemo(check, After(check, f, run + front), rest[|rest| - 1], digest);
    }
  }

  /** Since version `v` the request would be refused, or at best rejected. */
  ghost predicate UndoneSince(check: (string, string) -> bool, h: seq<Facts>, req: Request, v: nat) {
    match req
    case ByToken(digest) => RevokedSince(h, digest, v)
    case ByPassword(name, password) => WrongSince(check, h, name, password, v)
  }

  /** So would every request under the key. */
  ghost predicate UndoneUnder(check: (string, string) -> bool, h: seq<Facts>, k: Key, v: nat) {
    forall asked :: KeyOf(asked) == k ==> UndoneSince(check, h, asked, v)
  }

  lemma AloneUndone(check: (string, string) -> bool, h: seq<Facts>, req: Request, v: nat)
    requires Alone(req)
    ensures UndoneUnder(check, h, KeyOf(req), v) <==> UndoneSince(check, h, req, v)
  {
    AloneExactlyWhen(req);
  }

  lemma UndoneIsUnderivable(check: (string, string) -> bool, h: seq<Facts>, req: Request, d: Decision, v: nat)
    requires UndoneSince(check, h, req, v) && d != Rejected
    ensures !DerivableSince(check, h, req, d, v)
  {
    if req.ByToken? {
      RevokedIsUnderivable(check, h, req.digest, d, v);
    } else if DerivableSince(check, h, req, d, v) {
      WrongIsRejected(check, h, req.name, req.password, d, v);
    }
  }

  lemma DerivableLasts(check: (string, string) -> bool, h: seq<Facts>, h': seq<Facts>, k: Key, d: Decision, v: nat)
    requires h <= h' && DerivableUnder(check, h, k, d, v)
    ensures DerivableUnder(check, h', k, d, v)
  {
    var asked :| KeyOf(asked) == k && DerivableSince(check, h, asked, d, v);
    var v1, v2 :| v <= v1 && Derived(check, h, asked, d, v1, v2);
    assert Derived(check, h', asked, d, v1, v2);
    assert DerivableSince(check, h', asked, d, v);
  }

  /**
   A memo is recalled until the next bump. What is recalled then follows from the store since the
   last bump exactly when no bump came between the verification's start and the memo's writing,
   the bumps that did come having undone the credential. All that is said of the requests under one
   key, and so of the request itself when it is the only one.
   */
  lemma MemoIsCurrentExactlyWhen(
      check: (string, string) -> bool, f: Facts, run: seq<Action>, t: nat, digest: string, rest: seq<Action>)
    requires Legal(check, f, run + [Remember(t, digest)] + rest) && forall a :: a in rest ==> Leaves(a, digest)
    ensures Legal(check, f, run) && Enabled(After(check, f, run), Remember(t, digest))
    ensures var s, s' := After(check, f, run), After(check, f, run + [Remember(t, digest)] + rest);
            var th := s.threads[t];
            && Recall(s', digest) == Some(th.d)
            && ((th.gen < s.Gen() ==> UndoneUnder(check, s'.history, KeyOf(th.req), s'.floor[s'.Gen()])) ==>
                  (DerivableUnder(check, s'.history, KeyOf(th.req), th.d, s'.floor[s'.Gen()]) <==> th.gen == s.Gen()))
            && (Alone(th.req) && (th.gen < s.Gen() ==> UndoneSince(check, s'.history, th.req, s'.floor[s'.Gen()])) ==>
                  (DerivableSince(check, s'.history, th.req, th.d, s'.floor[s'.Gen()]) <==> th.gen == s.Gen()))
  {
    var written := run + [Remember(t, digest)];
    assert written[..|written| - 1] == run && written[|written| - 1] == Remember(t, digest);
    MemoStays(check, f, written, rest, digest);
    RunKeeps(check, f, run);
    var s, s' := After(check, f, run), After(check, f, written + rest);
    var th := s.threads[t];
    var k, last := KeyOf(th.req), s'.floor[s'.Gen()];
    assert ThreadOk(check, s.history, s.floor, th);
    assert th.gen <= s.Gen() && last == s.floor[s.Gen()];
    if Alone(th.req) {
      AloneUndone(check, s'.history, th.req, last);
      AloneDerives(check, s'.history, th.req, th.d, last);
    }
    if th.gen == s.Gen() {
      HonestIsDerivable(check, s, k, th.gen, th.d, th.gen);
      DerivableLasts(check, s.history, s'.history, k, th.d, last);
    } else if UndoneUnder(check, s'.history, k, last) && DerivableUnder(check, s'.history, k, th.d, last) {
      var asked :| KeyOf(asked) == k && DerivableSince(check, s'.history, asked, th.d, last);
      UndoneIsUnderivable(check, s'.history, asked, th.d, last);
    }
  }

  function OneToken(): Facts {
    Facts(map[], map[7 := Account(7, "a", "", "", false)], map[], map["tok" := AppPassword(1, 7, 0, [], None, false)])
  }

  function NoToken(): Facts {
    OneToken().(tokens := map[])
  }

  ghost predicate Reaches(check: (string, string) -> bool, f: Facts, s: State) {
    exists run :: Legal(check, f, run) && After(check, f, run) == s
  }

  lemma ReachesBoot(check: (string, string) -> bool, f: Facts)
    ensures Reaches(check, f, Boot(f))
  {
    assert Legal(check, f, []) && After(check, f, []) == Boot(f);
  }

  lemma ReachesNext(check: (string, string) -> bool, f: Facts, s: State, a: Action, s': State)
    requires Reaches(check, f, s) && Enabled(s, a) && Next(check, s, a) == s'
    ensures Reaches(check, f, s')
  {
    var run :| Legal(check, f, run) && After(check, f, run) == s;
    assert (run + [a])[..|run|] == run;
    assert Legal(check, f, run + [a]) && After(check, f, run + [a]) == s';
  }

  /** A process in which one verification has come this far, and nothing else happened. */
  function At(f: Facts, th: Thread): State {
    Boot(f).(threads := map[0 := th])
  }

  lemma ReachesMissed(check: (string, string) -> bool, f: Facts, req: Request)
    ensures Reaches(check, f, At(f, Missed(req, 0)))
  {
    ReachesBoot(check, f);
    ReachesNext(check, f, Boot(f), Capture(0, req), At(f, Captured(req, 0)));
    ReachesNext(check, f, At(f, Captured(req, 0)), Lookup(0, 0), At(f, Missed(req, 0)));
  }

  lemma ReachesRead(check: (string, string) -> bool, f: Facts, req: Request)
    ensures Reaches(check, f, At(f, AfterFirst(Missed(req, 0), f, 0)))
  {
    ReachesMissed(check, f, req);
    ReachesNext(check, f, At(f, Missed(req, 0)), ReadFirst(0, 0), At(f, AfterFirst(Missed(req, 0), f, 0)));
  }

  /** One uncontended verification, from a cold cache to its decision. */
  lemma ReachesDecided(check: (string, string) -> bool, f: Facts, req: Request, d: Decision)
    requires Derived(check, [f], req, d, 0, 0) && (req.ByToken? ==> !Expired(f.tokens[req.digest].expires, 0))
    ensures Reaches(check, f, At(f, Decided(req, 0, d)))
  {
    ReachesRead(check, f, req);
    var seen := First(req, f);
    if !seen.Settled? {
      ReachesNext(check, f, At(f, Reading(req, 0, seen)), ReadSecond(0), At(f, Decided(req, 0, d)));
    }
  }

  /** That verification answered and cached. */
  function Cached(f: Facts, req: Request, d: Decision): State {
    State([f], [0], map[0 := Answered(req, 0, d)], map[KeyOf(req) := Entry(d, 0, 0, 0)], map[])
  }

  lemma ReachesCached(check: (string, string) -> bool, f: Facts, req: Request, d: Decision)
    requires Derived(check, [f], req, d, 0, 0) && (req.ByToken? ==> !Expired(f.tokens[req.digest].expires, 0))
    ensures Reaches(check, f, Cached(f, req, d))
  {
    ReachesDecided(check, f, req, d);
    ReachesNext(check, f, At(f, Decided(req, 0, d)), Store(0, 0), Cached(f, req, d));
  }

  /** And that happens: a verification answers, the token is revoked and bumped, then the memo is written. */
  lemma MemoOutlivesRevocation(check: (string, string) -> bool)
    ensures exists s ::
              && Reaches(check, OneToken(), s) && Recall(s, "hdr").Some?
              && RevokedSince(s.history, "tok", s.floor[s.Gen()])
  {
    var f, g, req := OneToken(), NoToken(), ByToken("tok");
    var d := Granted(PrincipalOf(f.accounts[7]), 0, [], 1, None);
    assert Second(check, req, First(req, f), f) == Some(d);
    ReachesCached(check, f, req, d);
    var s5 := Cached(f, req, d);
    var s6 := s5.(history := [f, g]);
    ReachesNext(check, f, s5, Commit(g), s6);
    var s7 := s6.(floor := [0, 1]);
    ReachesNext(check, f, s6, Bump, s7);
    var s8 := s7.(memo := map["hdr" := (d, 1)]);
    ReachesNext(check, f, s7, Remember(0, "hdr"), s8);
    assert Recall(s8, "hdr") == Some(d) && RevokedSince(s8.history, "tok", 1);
  }

  // ---- Two requests under one key.

  /** The request's lookup is answered from the cache. */
  ghost predicate ServedTo(s: State, t: nat, now: int, req: Request) {
    Enabled(s, Lookup(t, now)) && s.threads[t].req == req && Hits(s, s.threads[t], now)
  }

  /** Whenever the request is served, in whatever run, the decision is one it is owed itself. */
  ghost predicate ServedItsOwn(check: (string, string) -> bool, f: Facts, req: Request) {
    forall s, t, now :: Reaches(check, f, s) && Named(s.history) && ServedTo(s, t, now, req) ==>
        OwnDecision(check, s, t)
  }

  ghost predicate OwnDecision(check: (string, string) -> bool, s: State, t: nat)
    requires t in s.threads && s.threads[t].Captured? && KeyOf(s.threads[t].req) in s.cache
  {
    && s.threads[t].gen < |s.floor|
    && DerivableSince(check, s.history, s.threads[t].req, s.cache[KeyOf(s.threads[t].req)].d,
                      s.floor[s.threads[t].gen])
  }

  /** A request is always served a decision it is owed exactly when it holds no NUL. */
  lemma ServedItsOwnExactlyWhen(req: Request)
    ensures (forall check: (string, string) -> bool, f: Facts :: ServedItsOwn(check, f, req)) <==> Alone(req)
  {
    if Alone(req) {
      forall check: (string, string) -> bool, f: Facts ensures ServedItsOwn(check, f, req) {
        AloneIsServedItsOwn(check, f, req);
      }
    } else {
      var check, f := ServedAnothers(req);
      assert !ServedItsOwn(check, f, req);
    }
  }

  lemma AloneIsServedItsOwn(check: (string, string) -> bool, f: Facts, req: Request)
    requires Alone(req)
    ensures ServedItsOwn(check, f, req)
  {
    forall s, t, now | Reaches(check, f, s) && Named(s.history) && ServedTo(s, t, now, req)
      ensures OwnDecision(check, s, t)
    {
      var run :| Legal(check, f, run) && After(check, f, run) == s;
      ServedIsCurrent(check, f, run, t, now, s.threads[t].gen);
    }
  }

  /** The account of that name, with a password of its own. */
  function OneAccount(name: string): Facts {
    Facts(map[name := 7], map[7 := Account(7, name, "", "hash", false)], map[], map[])
  }

  /** One request's verification is cached, and the other's lookup finds it. */
  lemma FindsAnothers(check: (string, string) -> bool, f: Facts, asked: Request, d: Decision, req: Request)
    requires asked.ByPassword? && KeyOf(req) == KeyOf(asked) && Derived(check, [f], asked, d, 0, 0) && Named([f])
    requires !Derived(check, [f], req, d, 0, 0)
    ensures !ServedItsOwn(check, f, req)
  {
    ReachesCached(check, f, asked, d);
    var c := Cached(f, asked, d);
    var s := c.(threads := c.threads[1 := Captured(req, 0)]);
    ReachesNext(check, f, c, Capture(1, req), s);
    assert ServedTo(s, 1, 0, req);
    assert !DerivableSince(check, s.history, req, d, 0);
    assert !OwnDecision(check, s, 1);
  }

  /** A store in which a request that holds a NUL is answered as the other request under its key. */
  lemma ServedAnothers(req: Request) returns (check: (string, string) -> bool, f: Facts)
    requires !Alone(req)
    ensures !ServedItsOwn(check, f, req)
  {
    var other := Another(req);
    check := (_: string, _: string) => true;
    if NulFree(req) {
      f := OneAccount(req.name);
      assert other.name !in f.byName;
      FindsAnothers(check, f, other, Rejected, req);
    } else {
      AsReadShares(req);
      f := OneAccount(other.name);
      var d := Accepted(PrincipalOf(f.accounts[7]));
      assert Second(check, other, First(other, f), f) == Some(d);
      FindsAnothers(check, f, other, d, req);
    }
  }
}
