/**
 What the store said when a decision of the credential tiers was made (auth/login.go, apppw.go): the
 decisions of `Credentials` in terms of accounts, token rows and reads.
 */
module CredentialFacts {
  import opened Octets
  import opened Credentials

  /** The row of the token as one version has it, and its owner as another has it, grant it with these terms. */
  predicate Grants(f: Facts, g: Facts, digest: string, d: Decision) {
    && digest in f.tokens
    && var row := f.tokens[digest];
       && !row.wipeWanted
       && row.user in g.accounts
       && var owner := g.accounts[row.user];
          && !owner.disabled
          && d == Granted(Principal(owner.id, owner.name, owner.display, false), row.perms, row.shares, row.id,
                          row.expires)
  }

  /** The account of that name has a password of its own, it is this one, and no provider replaced it. */
  predicate Acceptable(check: (string, string) -> bool, f: Facts, g: Facts, name: string, password: string) {
    && name in f.byName && f.byName[name] in f.accounts
    && var a := f.accounts[f.byName[name]];
       && a.pwHash != ""
       && (a.id in g.issuers ==> g.issuers[a.id] == "")
       && check(a.pwHash, password)
  }

  /** The account's own fields. */
  function Owner(f: Facts, name: string): Principal
    requires name in f.byName && f.byName[name] in f.accounts
  {
    var a := f.accounts[f.byName[name]];
    Principal(a.id, a.name, a.display, a.disabled)
  }

  /** An app password is granted exactly as its row and its owner say. */
  lemma TokenDecisionExactlyWhen(check: (string, string) -> bool, h: seq<Facts>, digest: string, d: Decision, v: nat,
          w: nat)
    ensures Derived(check, h, ByToken(digest), d, v, w) <==> v <= w < |h| && Grants(h[v], h[w], digest, d)
  {
  }

  /** A password is accepted, as the account it names, exactly when it is acceptable, and otherwise rejected. */
  lemma PasswordDecisionExactlyWhen(check: (string, string) -> bool, h: seq<Facts>, name: string, password: string,
          d: Decision, v: nat, w: nat)
    ensures Derived(check, h, ByPassword(name, password), d, v, w) <==>
              && v <= w < |h|
              && d == if Acceptable(check, h[v], h[w], name, password) then Accepted(Owner(h[v], name)) else Rejected
  {
  }

  // ---- Over runs.

  /** Some step of the run is the first read of this app password, at that version and time. */
  ghost predicate FirstReadIn(check: (string, string) -> bool, f: Facts, run: seq<Action>, digest: string, v: nat,
          now: int)
    requires Legal(check, f, run)
    decreases |run|
  {
    run != []
    && var before, a := After(check, f, run[..|run| - 1]), run[|run| - 1];
       || FirstReadIn(check, f, run[..|run| - 1], digest, v, now)
       || (a.ReadFirst? && a.now == now && before.threads[a.t].req == ByToken(digest) && v == |before.history| - 1)
  }

  /** Some step of the run is the read of its owner, at that version. */
  ghost predicate SecondReadIn(check: (string, string) -> bool, f: Facts, run: seq<Action>, digest: string, w: nat)
    requires Legal(check, f, run)
    decreases |run|
  {
    run != []
    && var before, a := After(check, f, run[..|run| - 1]), run[|run| - 1];
       || SecondReadIn(check, f, run[..|run| - 1], digest, w)
       || (a.ReadSecond? && before.threads[a.t].req == ByToken(digest) && w == |before.history| - 1)
  }

  /** The row was read from that version, not wanted wiped and not yet expired. */
  ghost predicate RowRead(check: (string, string) -> bool, f: Facts, run: seq<Action>, h: seq<Facts>, digest: string,
          row: AppPassword, v: nat, now: int)
    requires Legal(check, f, run)
  {
    && FirstReadIn(check, f, run, digest, v, now) && v < |h|
    && digest in h[v].tokens && h[v].tokens[digest] == row
    && !row.wipeWanted && (row.expires.Some? ==> now < row.expires.value)
  }

  /** Both reads were made in the run, and what they found grants the app password. */
  ghost predicate GrantedBy(check: (string, string) -> bool, f: Facts, run: seq<Action>, h: seq<Facts>, digest: string,
          d: Decision, v: nat, w: nat, now: int)
    requires Legal(check, f, run)
  {
    && v <= w < |h| && FirstReadIn(check, f, run, digest, v, now) && SecondReadIn(check, f, run, digest, w)
    && Grants(h[v], h[w], digest, d)
    && (h[v].tokens[digest].expires.Some? ==> now < h[v].tokens[digest].expires.value)
  }

  ghost predicate GrantedIn(check: (string, string) -> bool, f: Facts, run: seq<Action>, h: seq<Facts>, digest: string,
          d: Decision)
    requires Legal(check, f, run)
  {
    exists v, w, now :: GrantedBy(check, f, run, h, digest, d, v, w, now)
  }

  /** What a thread of an app password rests on. */
  ghost predicate ThreadRead(check: (string, string) -> bool, f: Facts, run: seq<Action>, h: seq<Facts>, th: Thread)
    requires Legal(check, f, run)
  {
    match th
    case Reading(req, _, seen) =>
      req.ByToken? ==>
        seen.NeedsOwner? && exists v, now :: RowRead(check, f, run, h, req.digest, seen.row, v, now)
    case Decided(req, _, d) => req.ByToken? ==> GrantedIn(check, f, run, h, req.digest, d)
    case Answered(req, _, d) => req.ByToken? ==> GrantedIn(check, f, run, h, req.digest, d)
    case _ => true
  }

  ghost predicate AllRead(check: (string, string) -> bool, f: Facts, run: seq<Action>, s: State)
    requires Legal(check, f, run)
  {
    && (forall t :: t in s.threads ==> ThreadRead(check, f, run, s.history, s.threads[t]))
    && (forall k :: k in s.cache && k.TokenKey? ==> GrantedIn(check, f, run, s.history, k.digest, s.cache[k].d))
  }

  lemma GrantedLasts(check: (string, string) -> bool, f: Facts, run: seq<Action>, h: seq<Facts>, h': seq<Facts>,
          digest: string, d: Decision)
    requires run != [] && Legal(check, f, run) && GrantedIn(check, f, run[..|run| - 1], h, digest, d) && h <= h'
    ensures GrantedIn(check, f, run, h', digest, d)
  {
    var v, w, now :| GrantedBy(check, f, run[..|run| - 1], h, digest, d, v, w, now);
    assert GrantedBy(check, f, run, h', digest, d, v, w, now);
  }

  lemma ThreadReadLasts(check: (string, string) -> bool, f: Facts, run: seq<Action>, h: seq<Facts>, h': seq<Facts>,
          th: Thread)
    requires run != [] && Legal(check, f, run) && ThreadRead(check, f, run[..|run| - 1], h, th) && h <= h'
    ensures ThreadRead(check, f, run, h', th)
  {
    match th
    case Reading(req, _, seen) =>
      if req.ByToken? {
        var v, now :| RowRead(check, f, run[..|run| - 1], h, req.digest, seen.row, v, now);
        assert RowRead(check, f, run, h', req.digest, seen.row, v, now);
      }
    case Decided(req, _, d) =>
      if req.ByToken? {
        GrantedLasts(check, f, run, h, h', req.digest, d);
      }
    case Answered(req, _, d) =>
      if req.ByToken? {
        GrantedLasts(check, f, run, h, h', req.digest, d);
      }
    case _ =>
  }

  lemma FirstReadFinds(check: (string, string) -> bool, f: Facts, run: seq<Action>, t: nat, now: int)
    requires run != [] && Legal(check, f, run) && run[|run| - 1] == ReadFirst(t, now)
    ensures var s := After(check, f, run); t in s.threads && ThreadRead(check, f, run, s.history, s.threads[t])
  {
    var before, s := After(check, f, run[..|run| - 1]), After(check, f, run);
    var th, v := before.threads[t], |before.history| - 1;
    if th.req.ByToken? && s.threads[t].Reading? {
      assert RowRead(check, f, run, s.history, th.req.digest, s.threads[t].seen.row, v, now);
    }
  }

  lemma SecondReadFinds(check: (string, string) -> bool, f: Facts, run: seq<Action>, t: nat)
    requires run != [] && Legal(check, f, run) && run[|run| - 1] == ReadSecond(t)
    requires var before := After(check, f, run[..|run| - 1]);
             ThreadRead(check, f, run[..|run| - 1], before.history, before.threads[t])
    ensures var s := After(check, f, run); t in s.threads && ThreadRead(check, f, run, s.history, s.threads[t])
  {
    var before, s := After(check, f, run[..|run| - 1]), After(check, f, run);
    var th, w := before.threads[t], |before.history| - 1;
    if th.req.ByToken? && s.threads[t].Decided? {
      var v, now :| RowRead(check, f, run[..|run| - 1], before.history, th.req.digest, th.seen.row, v, now);
      assert GrantedBy(check, f, run, s.history, th.req.digest, s.threads[t].d, v, w, now);
    }
  }

  lemma StepReads(check: (string, string) -> bool, f: Facts, run: seq<Action>)
    requires run != [] && Legal(check, f, run)
    requires AllRead(check, f, run[..|run| - 1], After(check, f, run[..|run| - 1]))
    ensures AllRead(check, f, run, After(check, f, run))
  {
    var before, s, a := After(check, f, run[..|run| - 1]), After(check, f, run), run[|run| - 1];
    assert before.history <= s.history;
    forall t | t in s.threads ensures ThreadRead(check, f, run, s.history, s.threads[t]) {
      if t in before.threads {
        ThreadReadLasts(check, f, run, before.history, s.history, before.threads[t]);
      }
      ThreadStepReads(check, f, run, t);
    }
    forall k | k in s.cache && k.TokenKey? ensures GrantedIn(check, f, run, s.history, k.digest, s.cache[k].d) {
      EntryStepReads(check, f, run, k);
    }
  }

  lemma ThreadStepReads(check: (string, string) -> bool, f: Facts, run: seq<Action>, t: nat)
    requires run != [] && Legal(check, f, run) && t in After(check, f, run).threads
    requires AllRead(check, f, run[..|run| - 1], After(check, f, run[..|run| - 1]))
    requires var before := After(check, f, run[..|run| - 1]);
             t in before.threads ==> ThreadRead(check, f, run, After(check, f, run).history, before.threads[t])
    ensures var s := After(check, f, run); ThreadRead(check, f, run, s.history, s.threads[t])
  {
    var before, s, a := After(check, f, run[..|run| - 1]), After(check, f, run), run[|run| - 1];
    match a
    case ReadFirst(u, now) =>
      if u == t {
        FirstReadFinds(check, f, run, t, now);
      }
    case ReadSecond(u) =>
      if u == t {
        SecondReadFinds(check, f, run, t);
      }
    case Lookup(u, now) =>
      if u == t && s.threads[t].Answered? && s.threads[t].req.ByToken? {
        var k := KeyOf(before.threads[t].req);
        GrantedLasts(check, f, run, before.history, s.history, k.digest, before.cache[k].d);
      }
    case _ =>
  }

  lemma EntryStepReads(check: (string, string) -> bool, f: Facts, run: seq<Action>, k: Key)
    requires run != [] && Legal(check, f, run) && k in After(check, f, run).cache && k.TokenKey?
    requires AllRead(check, f, run[..|run| - 1], After(check, f, run[..|run| - 1]))
    ensures var s := After(check, f, run); GrantedIn(check, f, run, s.history, k.digest, s.cache[k].d)
  {
    var before, s, a := After(check, f, run[..|run| - 1]), After(check, f, run), run[|run| - 1];
    EntryAfter(check, before, a, k);
    if a.Store? && KeyOf(before.threads[a.t].req) == k && s.cache[k].d == before.threads[a.t].d {
      assert ThreadRead(check, f, run[..|run| - 1], before.history, before.threads[a.t]);
      GrantedLasts(check, f, run, before.history, s.history, k.digest, before.threads[a.t].d);
    } else {
      assert k in before.cache && s.cache[k].d == before.cache[k].d;
      GrantedLasts(check, f, run, before.history, s.history, k.digest, before.cache[k].d);
    }
  }

  lemma {:induction false} RunReads(check: (string, string) -> bool, f: Facts, run: seq<Action>)
    requires Legal(check, f, run)
    ensures AllRead(check, f, run, After(check, f, run))
    decreases |run|
  {
    if run != [] {
      RunReads(check, f, run[..|run| - 1]);
      StepReads(check, f, run);
    }
  }

  /**
   In every run an app password that was decided on, answered or is served was granted: its row was
   read while it was neither wanted wiped nor expired, and its owner was read after that, there and not
   disabled. The decision carries the owner's identity and the row's terms.
   */
  lemma DecidedWasGranted(check: (string, string) -> bool, f: Facts, run: seq<Action>, t: nat)
    requires Legal(check, f, run)
    requires var s := After(check, f, run);
             t in s.threads && (s.threads[t].Decided? || s.threads[t].Answered?) && s.threads[t].req.ByToken?
    ensures var s := After(check, f, run);
            GrantedIn(check, f, run, s.history, s.threads[t].req.digest, s.threads[t].d)
  {
    RunReads(check, f, run);
    var s := After(check, f, run);
    assert ThreadRead(check, f, run, s.history, s.threads[t]);
  }

  lemma ServedWasGranted(check: (string, string) -> bool, f: Facts, run: seq<Action>, t: nat, now: int)
    requires Legal(check, f, run)
    requires var s := After(check, f, run);
             Enabled(s, Lookup(t, now)) && s.threads[t].req.ByToken? && Hits(s, s.threads[t], now)
    ensures var s := After(check, f, run);
            GrantedIn(check, f, run, s.history, s.threads[t].req.digest, s.cache[KeyOf(s.threads[t].req)].d)
  {
    RunReads(check, f, run);
  }

  // ---- Owners that went away.

  /** The owner of the token's row, whichever version of it since `v`, is gone or disabled in every later one. */
  ghost predicate OwnerlessSince(h: seq<Facts>, digest: string, v: nat) {
    forall i, j :: v <= i <= j < |h| && digest in h[i].tokens ==> NoOwner(h[j], h[i].tokens[digest].user)
  }

  predicate NoOwner(f: Facts, user: int) {
    user in f.accounts ==> f.accounts[user].disabled
  }

  /** Once the owner's going is committed and bumped, no lookup that sees the bump is a hit. */
  lemma DisabledOwnerIsNeverServed(check: (string, string) -> bool, f: Facts, run: seq<Action>, t: nat, now: int,
          v: nat, bump: nat)
    requires Legal(check, f, run)
    requires var s := After(check, f, run);
             && Enabled(s, Lookup(t, now)) && s.threads[t].req.ByToken?
             && OwnerlessSince(s.history, s.threads[t].req.digest, v)
             && bump <= s.threads[t].gen && bump < |s.floor| && v <= s.floor[bump]
    ensures var s := After(check, f, run); !Hits(s, s.threads[t], now)
  {
    var s := After(check, f, run);
    var req := s.threads[t].req;
    if Hits(s, s.threads[t], now) {
      ServedIsDerivable(check, f, run, t, now, v, bump);
      AloneDerives(check, s.history, req, s.cache[KeyOf(req)].d, v);
      OwnerlessIsUnderivable(check, s.history, req.digest, s.cache[KeyOf(req)].d, v);
    }
  }

  lemma OwnerlessIsUnderivable(check: (string, string) -> bool, h: seq<Facts>, digest: string, d: Decision, v: nat)
    requires OwnerlessSince(h, digest, v)
    ensures !DerivableSince(check, h, ByToken(digest), d, v)
  {
    forall v1: nat, v2: nat | v <= v1 <= v2 < |h| ensures !Derived(check, h, ByToken(digest), d, v1, v2) {
      TokenDecisionExactlyWhen(check, h, digest, d, v1, v2);
      assert digest in h[v1].tokens ==> NoOwner(h[v2], h[v1].tokens[digest].user);
    }
  }

  // ---- What the caller is told.

  datatype Reply = BadCredentials | AccountDisabled | Verified(principal: Principal)

  /** The end of `VerifyPassword` and of `VerifyAppPasswordID`. */
  function ReplyTo(d: Decision): Reply {
    match d
    case Rejected => BadCredentials
    case Accepted(p) => if p.disabled then AccountDisabled else Verified(p)
    case Granted(p, _, _, _, _) => Verified(p)
  }

  ghost predicate DisabledSince(h: seq<Facts>, name: string, v: nat) {
    forall i :: v <= i < |h| && name in h[i].byName && h[i].byName[name] in h[i].accounts ==>
      h[i].accounts[h[i].byName[name]].disabled
  }

  /** A disabled account's password is not verified from the cache once that is committed and bumped. */
  lemma DisabledIsNeverVerified(check: (string, string) -> bool, f: Facts, run: seq<Action>, t: nat, now: int,
          v: nat, bump: nat)
    requires Legal(check, f, run) && Named(After(check, f, run).history)
    requires var s := After(check, f, run);
             && Enabled(s, Lookup(t, now)) && s.threads[t].req.ByPassword?
             && DisabledSince(s.history, AsRead(s.threads[t].req).name, v)
             && bump <= s.threads[t].gen && bump < |s.floor| && v <= s.floor[bump]
    ensures var s := After(check, f, run);
            Hits(s, s.threads[t], now) ==> !ReplyTo(s.cache[KeyOf(s.threads[t].req)].d).Verified?
  {
    var s := After(check, f, run);
    var req := s.threads[t].req;
    if Hits(s, s.threads[t], now) && s.cache[KeyOf(req)].d != Rejected {
      var d := s.cache[KeyOf(req)].d;
      ServedIsDerivable(check, f, run, t, now, v, bump);
      AcceptedAsRead(check, s.history, req, d, v);
      var v1, v2 :| v <= v1 && Derived(check, s.history, AsRead(req), d, v1, v2);
      PasswordDecisionExactlyWhen(check, s.history, AsRead(req).name, AsRead(req).password, d, v1, v2);
    }
  }
}
