/** First-administrator setup: one token, one mutex, and an open check outside it (admin/setupgate.go). */
module SetupGate {
  import opened Octets

  type Token = string

  const SETUP_TOKEN_LIFETIME := 15 * 60 * 1_000_000_000

  datatype GateError = SetupNotIssued | SetupToken | SetupClosed | CallFailed

  /** The fields under the mutex; the digest stands for the token it was made from. */
  datatype Fields = Fields(digest: Option<Token>, expires: int, used: bool)

  /** `check`. */
  function Check(f: Fields, presented: Token, now: int): Option<GateError> {
    if f.digest.None? then Some(SetupNotIssued)
    else if now >= f.expires || f.used || f.digest != Some(presented) then Some(SetupToken)
    else None
  }

  /** The gate called by one request at a time; `users` is what counting the accounts answers. */
  class Gate {
    var fields: Fields

    constructor ()
      ensures fields == Fields(None, 0, false)
    {
      fields := Fields(None, 0, false);
    }

    /** A count that cannot be read closes the gate. */
    method Open(users: Option<nat>) returns (r: Result<bool, GateError>)
      ensures r == if users.None? then Err(SetupClosed) else Ok(users.value == 0)
    {
      return if users.None? then Err(SetupClosed) else Ok(users.value == 0);
    }

    method Issue(users: Option<nat>, minted: Token, now: int) returns (r: Result<Token, GateError>)
      modifies this
      ensures r.Ok? <==> users == Some(0)
      ensures r.Ok? ==> r.value == minted && fields == Fields(Some(minted), now + 900_000_000_000, false)
      ensures r.Err? ==> r.error == SetupClosed && fields == old(fields)
    {
      var open := Open(users);
      if open.Err? || !open.value {
        return Err(SetupClosed);
      }
      fields := Fields(Some(minted), now + SETUP_TOKEN_LIFETIME, false);
      return Ok(minted);
    }

    /** `fnOk` is whether the guarded call succeeds; only then is the token spent. */
    method Use(users: Option<nat>, presented: Token, now: int, fnOk: bool)
      returns (called: bool, err: Option<GateError>)
      modifies this
      ensures called <==>
                && users == Some(0) && old(fields).digest == Some(presented) && now < old(fields).expires
                && !old(fields).used
      ensures err.None? <==> called && fnOk
      ensures fields == if err.None? then old(fields).(used := true) else old(fields)
      ensures !called ==>
                err == Some(if users != Some(0) then SetupClosed
                            else if old(fields).digest.None? then SetupNotIssued else SetupToken)
      ensures called && !fnOk ==> err == Some(CallFailed)
    {
      var open := Open(users);
      if open.Err? || !open.value {
        return false, Some(SetupClosed);
      }
      var refused := Check(fields, presented, now);
      if refused.Some? {
        return false, refused;
      }
      if !fnOk {
        return true, Some(CallFailed);
      }
      fields := fields.(used := true);
      return true, None;
    }
  }

  // ---- All interleavings.

  /** A call past its open check; a call holding the mutex, before and after its guarded call succeeded. */
  datatype Phase = Issuing | Asking(presented: Token) | Inside(presented: Token) | Succeeded

  /** The accounts, the fields, the tokens presented or minted so far, the mutex, the calls, and the successes. */
  datatype State = State(users: nat, f: Fields, seen: set<Token>, holder: Option<nat>, calls: map<nat, Phase>,
      successes: nat)

  datatype Action =
    | BeginIssue(t: nat)
    | Publish(t: nat, minted: Token, now: int)
    | BeginUse(t: nat, presented: Token)
    | Enter(t: nat, now: int)
    | Succeed(t: nat)
    | Fail(t: nat)
    | Leave(t: nat)
    | SetUsers(n: nat)

  /** A mint is a value nobody has presented; accounts once there never all go away. */
  ghost predicate Enabled(s: State, a: Action) {
    match a
    case BeginIssue(t) => t !in s.calls
    case Publish(t, minted, _) => t in s.calls && s.calls[t].Issuing? && s.holder.None? && minted !in s.seen
    case BeginUse(t, _) => t !in s.calls
    case Enter(t, _) => t in s.calls && s.calls[t].Asking? && s.holder.None?
    case Succeed(t) => t in s.calls && s.calls[t].Inside?
    case Fail(t) => t in s.calls && s.calls[t].Inside?
    case Leave(t) => t in s.calls && s.calls[t].Succeeded?
    case SetUsers(n) => s.users == 0 || n > 0
  }

  function Next(s: State, a: Action): State
    requires Enabled(s, a)
  {
    match a
    case BeginIssue(t) => if s.users > 0 then s else s.(calls := s.calls[t := Issuing])
    case Publish(t, minted, now) =>
      s.(f := Fields(Some(minted), now + SETUP_TOKEN_LIFETIME, false), seen := s.seen + {minted},
          calls := s.calls - {t})
    case BeginUse(t, presented) =>
      if s.users > 0 then s.(seen := s.seen + {presented})
      else s.(calls := s.calls[t := Asking(presented)], seen := s.seen + {presented})
    case Enter(t, now) =>
      if Check(s.f, s.calls[t].presented, now).Some? then s.(calls := s.calls - {t})
      else s.(holder := Some(t), calls := s.calls[t := Inside(s.calls[t].presented)])
    case Succeed(t) => s.(users := s.users + 1, successes := s.successes + 1, calls := s.calls[t := Succeeded])
    case Fail(t) => s.(holder := None, calls := s.calls - {t})
    case Leave(t) => s.(f := s.f.(used := true), holder := None, calls := s.calls - {t})
    case SetUsers(n) => s.(users := n)
  }

  /**
   After the first success no call already past its open check can match an unspent token: the one
   that was used is spent, and one minted since was never presented by it.
   */
  ghost predicate Inv(s: State) {
    && s.successes <= 1 && (s.successes == 1 ==> s.users > 0)
    && (s.f.digest.Some? ==> s.f.digest.value in s.seen)
    && (forall t :: t in s.calls && (s.calls[t].Asking? || s.calls[t].Inside?) ==> s.calls[t].presented in s.seen)
    && (forall t :: t in s.calls && (s.calls[t].Inside? || s.calls[t].Succeeded?) ==> s.holder == Some(t))
    && (s.holder.Some? ==>
          && s.holder.value in s.calls
          && (s.calls[s.holder.value].Inside? || s.calls[s.holder.value].Succeeded?))
    && (forall t :: t in s.calls && s.calls[t].Inside? ==> s.successes == 0)
    && (s.successes == 1 && s.holder.None? ==>
          forall t :: t in s.calls && s.calls[t].Asking? ==> s.f.used || s.f.digest != Some(s.calls[t].presented))
  }

  lemma StepKeeps(s: State, a: Action)
    requires Inv(s) && Enabled(s, a)
    ensures Inv(Next(s, a))
  {
  }

  function Fresh(): State {
    State(0, Fields(None, 0, false), {}, None, map[], 0)
  }

  ghost predicate Legal(run: seq<Action>)
    decreases |run|, 0
  {
    run == [] || (Legal(run[..|run| - 1]) && Enabled(After(run[..|run| - 1]), run[|run| - 1]))
  }

  ghost function After(run: seq<Action>): State
    requires Legal(run)
    decreases |run|, 1
  {
    if run == [] then Fresh() else Next(After(run[..|run| - 1]), run[|run| - 1])
  }

  /** However issuing and using interleave, at most one guarded call ever succeeds. */
  lemma {:induction false} AtMostOneAdministrator(run: seq<Action>)
    requires Legal(run)
    ensures Inv(After(run)) && After(run).successes <= 1
    decreases |run|
  {
    if run != [] {
      AtMostOneAdministrator(run[..|run| - 1]);
      StepKeeps(After(run[..|run| - 1]), run[|run| - 1]);
    }
  }

  // ---- A call on its own.

  /** An issue nobody interrupts mints while there is no account, for fifteen minutes, and otherwise does nothing. */
  lemma IssueAlone(s: State, t: nat, minted: Token, now: int)
    requires s.holder.None? && t !in s.calls && minted !in s.seen
    ensures Enabled(s, BeginIssue(t))
    ensures var begun := Next(s, BeginIssue(t));
            if s.users > 0 then begun == s
            else
              && Enabled(begun, Publish(t, minted, now))
              && Next(begun, Publish(t, minted, now))
                 == s.(f := Fields(Some(minted), now + 900_000_000_000, false), seen := s.seen + {minted})
  {
    if s.users == 0 {
      assert s.calls[t := Issuing] - {t} == s.calls;
    }
  }

  /** The token fits: it is the one issued, not expired and not spent. */
  predicate Fits(f: Fields, presented: Token, now: int) {
    f.digest == Some(presented) && now < f.expires && !f.used
  }

  /** A use nobody else interrupts enters exactly when its token fits, and spends it exactly when it succeeds. */
  lemma UseAlone(s: State, t: nat, presented: Token, now: int)
    requires s.holder.None? && t !in s.calls
    ensures Enabled(s, BeginUse(t, presented))
    ensures var asked, after := Next(s, BeginUse(t, presented)), s.(seen := s.seen + {presented});
            if s.users > 0 then asked == after
            else
              && Enabled(asked, Enter(t, now))
              && var entered := Next(asked, Enter(t, now));
                 if !Fits(s.f, presented, now) then entered == after
                 else
                   && Enabled(entered, Fail(t)) && Next(entered, Fail(t)) == after
                   && Enabled(entered, Succeed(t))
                   && var done := Next(entered, Succeed(t));
                      && Enabled(done, Leave(t))
                      && Next(done, Leave(t))
                         == after.(f := s.f.(used := true), users := 1, successes := s.successes + 1)
  {
    if s.users == 0 {
      assert s.calls[t := Asking(presented)] - {t} == s.calls;
      assert s.calls[t := Asking(presented)][t := Inside(presented)] - {t} == s.calls;
      assert s.calls[t := Asking(presented)][t := Inside(presented)][t := Succeeded] - {t} == s.calls;
    }
  }

  // ---- Why the mint has to be fresh.

  /** The steps of a run without the freshness of mints. */
  ghost predicate Loosely(s: State, a: Action, s': State) {
    if a.Publish? then
      a.t in s.calls && s.calls[a.t].Issuing? && s.holder.None?
      && s' == s.(f := Fields(Some(a.minted), a.now + SETUP_TOKEN_LIFETIME, false), seen := s.seen + {a.minted},
          calls := s.calls - {a.t})
    else Enabled(s, a) && s' == Next(s, a)
  }

  ghost predicate Chain(states: seq<State>, actions: seq<Action>) {
    |states| == |actions| + 1 && forall k :: 0 <= k < |actions| ==> Loosely(states[k], actions[k], states[k + 1])
  }

  ghost predicate LooselyReached(s: State) {
    exists states: seq<State>, actions: seq<Action> :: Chain(states, actions) && states[0] == Fresh()
        && states[|actions|] == s
  }

  lemma LooselyNext(s: State, a: Action, s': State)
    requires LooselyReached(s) && Loosely(s, a, s')
    ensures LooselyReached(s')
  {
    var states: seq<State>, actions: seq<Action> :| Chain(states, actions) && states[0] == Fresh()
        && states[|actions|] == s;
    var states', actions' := states + [s'], actions + [a];
    forall k | 0 <= k < |actions'| ensures Loosely(states'[k], actions'[k], states'[k + 1]) {
      assert k < |actions| ==> Loosely(states[k], actions[k], states[k + 1]);
    }
    assert Chain(states', actions') && states'[|actions'|] == s';
  }

  /**
   The open checks run outside the mutex: an issue that passed its check before the first success
   can reopen the gate after it, and only a token nobody waits with keeps a second call out.
   */
  lemma RepeatedMintBreaksIt()
    ensures exists s :: LooselyReached(s) && s.successes == 2
  {
    var f1 := Fields(Some("k"), SETUP_TOKEN_LIFETIME, false);
    FirstAdministrator();
    var s7 := State(1, f1.(used := true), {"k"}, None, map[1 := Issuing, 3 := Asking("k")], 1);
    var s8 := State(1, f1, {"k"}, None, map[3 := Asking("k")], 1);
    LooselyNext(s7, Publish(1, "k", 0), s8);
    var s9 := s8.(holder := Some(3), calls := map[3 := Inside("k")]);
    LooselyNext(s8, Enter(3, 0), s9);
    var s10 := s9.(users := 2, successes := 2, calls := map[3 := Succeeded]);
    LooselyNext(s9, Succeed(3), s10);
  }

  /** A token is out, another issue and two uses are past their open checks. */
  lemma TwoAreWaiting()
    ensures LooselyReached(State(0, Fields(Some("k"), SETUP_TOKEN_LIFETIME, false), {"k"}, None,
        map[1 := Issuing, 2 := Asking("k"), 3 := Asking("k")], 0))
  {
    var s0 := Fresh();
    assert Chain([s0], []) && [s0][0] == s0;
    var s1 := s0.(calls := map[0 := Issuing]);
    LooselyNext(s0, BeginIssue(0), s1);
    var s2 := s1.(calls := map[0 := Issuing, 1 := Issuing]);
    LooselyNext(s1, BeginIssue(1), s2);
    var s3 := State(0, Fields(Some("k"), SETUP_TOKEN_LIFETIME, false), {"k"}, None, map[1 := Issuing], 0);
    LooselyNext(s2, Publish(0, "k", 0), s3);
    var s4 := s3.(calls := map[1 := Issuing, 2 := Asking("k")]);
    LooselyNext(s3, BeginUse(2, "k"), s4);
    LooselyNext(s4, BeginUse(3, "k"), s4.(calls := map[1 := Issuing, 2 := Asking("k"), 3 := Asking("k")]));
  }

  /** The ordinary way in, with another issue and another use already past their open checks. */
  lemma FirstAdministrator()
    ensures LooselyReached(State(1, Fields(Some("k"), SETUP_TOKEN_LIFETIME, true), {"k"}, None,
        map[1 := Issuing, 3 := Asking("k")], 1))
  {
    var f1 := Fields(Some("k"), SETUP_TOKEN_LIFETIME, false);
    TwoAreWaiting();
    var s5 := State(0, f1, {"k"}, None, map[1 := Issuing, 2 := Asking("k"), 3 := Asking("k")], 0);
    var s6 := s5.(holder := Some(2), calls := map[1 := Issuing, 2 := Inside("k"), 3 := Asking("k")]);
    LooselyNext(s5, Enter(2, 0), s6);
    var s7 := s6.(users := 1, successes := 1, calls := map[1 := Issuing, 2 := Succeeded, 3 := Asking("k")]);
    LooselyNext(s6, Succeed(2), s7);
    LooselyNext(s7, Leave(2), State(1, f1.(used := true), {"k"}, None, map[1 := Issuing, 3 := Asking("k")], 1));
  }
}
