/** Whether an If header holds, and which lock tokens it submitted (dav/ifheader.go). */
module IfEvaluation {
  import opened Text
  import opened IfHeader

  datatype ResourceState = ResourceState(etag: ETag, exists_: bool, tokens: seq<Text>)

  type StateOf = seq<Text> -> ResourceState

  /** The term, before its negation, is true of the resource: its token is held, or two strong tags are one. */
  predicate Held(t: Term, res: ResourceState) {
    match t
    case Token(token) => token in res.tokens
    case Tag(ETag(value, weak)) => res.exists_ && !weak && res.etag == ETag(value, false)
  }

  function Target(l: ConditionList, defaultTarget: seq<Text>): seq<Text> {
    match l.resource
    case Some(segs) => segs
    case None => defaultTarget
  }

  /** Every condition of the list, of the list's own target. */
  ghost predicate ListHolds(l: ConditionList, defaultTarget: seq<Text>, state: StateOf) {
    forall k :: 0 <= k < |l.conditions| ==>
      (Held(l.conditions[k].term, state(Target(l, defaultTarget))) <==> !l.conditions[k].not)
  }

  /** The tokens a list names positively, in order. */
  function Positive(cs: seq<Condition>): seq<Text> {
    if cs == [] then []
    else
      var before, c := Positive(cs[..|cs| - 1]), cs[|cs| - 1];
      if c.term.Token? && !c.not then before + [c.term.token] else before
  }

  /** Those of every list that holds. */
  ghost function Submitted(ls: seq<ConditionList>, defaultTarget: seq<Text>, state: StateOf): seq<Text> {
    if ls == [] then []
    else
      var before, l := Submitted(ls[..|ls| - 1], defaultTarget, state), ls[|ls| - 1];
      if ListHolds(l, defaultTarget, state) then before + Positive(l.conditions) else before
  }

  method ConditionHolds(c: Condition, res: ResourceState) returns (holds: bool)
    ensures holds <==> (Held(c.term, res) <==> !c.not)
    ensures c.term.Tag? && (c.term.etag.weak || res.etag.weak || !res.exists_) ==> holds == c.not
  {
    var held := false;
    match c.term {
      case Token(token) =>
        for i := 0 to |res.tokens|
          invariant !held && token !in res.tokens[..i]
        {
          if res.tokens[i] == token {
            held := true;
            break;
          }
          assert res.tokens[..i + 1] == res.tokens[..i] + [res.tokens[i]];
        }
        assert res.tokens[..|res.tokens|] == res.tokens;
      case Tag(etag) =>
        held := res.exists_ && StrongEquals(etag, res.etag);
    }
    holds := if c.not then !held else held;
  }

  /** OR across lists, AND within one; no header is satisfied and submits nothing. */
  method EvaluateIf(ls: seq<ConditionList>, defaultTarget: seq<Text>, state: StateOf)
    returns (satisfied: bool, submitted: seq<Text>)
    ensures satisfied <==> ls == [] || exists i :: 0 <= i < |ls| && ListHolds(ls[i], defaultTarget, state)
    ensures submitted == Submitted(ls, defaultTarget, state)
  {
    if ls == [] {
      return true, [];
    }
    satisfied, submitted := false, [];
    for i := 0 to |ls|
      invariant satisfied <==> exists j :: 0 <= j < i && ListHolds(ls[j], defaultTarget, state)
      invariant submitted == Submitted(ls[..i], defaultTarget, state)
    {
      assert ls[..i + 1][..i] == ls[..i];
      var target := defaultTarget;
      if ls[i].resource.Some? {
        target := ls[i].resource.value;
      }
      var holds := AllHold(ls[i].conditions, state(target));
      if holds {
        satisfied := true;
        submitted := Submit(submitted, ls[i].conditions);
      }
    }
    assert ls[..|ls|] == ls;
  }

  method AllHold(cs: seq<Condition>, res: ResourceState) returns (holds: bool)
    ensures holds <==> forall k :: 0 <= k < |cs| ==> (Held(cs[k].term, res) <==> !cs[k].not)
  {
    holds := true;
    for i := 0 to |cs|
      invariant holds && forall k :: 0 <= k < i ==> (Held(cs[k].term, res) <==> !cs[k].not)
    {
      var c := ConditionHolds(cs[i], res);
      if !c {
        return false;
      }
    }
  }

  method Submit(before: seq<Text>, cs: seq<Condition>) returns (submitted: seq<Text>)
    ensures submitted == before + Positive(cs)
  {
    submitted := before;
    for i := 0 to |cs|
      invariant submitted == before + Positive(cs[..i])
    {
      assert cs[..i + 1][..i] == cs[..i];
      if cs[i].term.Token? && !cs[i].not {
        submitted := submitted + [cs[i].term.token];
      }
    }
    assert cs[..|cs|] == cs;
  }

  lemma {:induction false} PositiveNames(cs: seq<Condition>, token: Text)
    ensures token in Positive(cs) <==> exists k :: 0 <= k < |cs| && cs[k] == Condition(false, Token(token))
  {
    if cs != [] {
      var n := |cs| - 1;
      PositiveNames(cs[..n], token);
      assert cs[n] == Condition(false, Token(token)) <==> cs[n].term.Token? && !cs[n].not && cs[n].term.token == token;
      if k :| 0 <= k < |cs| && cs[k] == Condition(false, Token(token)) {
        assert k < n ==> cs[..n][k] == cs[k];
      }
    }
  }

  /**
   A token is submitted exactly when some list that holds names it without a Not, and then that
   list's target really holds the lock.
   */
  lemma {:induction false} SubmittedIsHeld(ls: seq<ConditionList>, defaultTarget: seq<Text>, state: StateOf,
          token: Text)
    ensures token in Submitted(ls, defaultTarget, state)
            <==> exists i, k :: 0 <= i < |ls| && ListHolds(ls[i], defaultTarget, state) && 0 <= k < |ls[i].conditions|
                   && ls[i].conditions[k] == Condition(false, Token(token))
    ensures token in Submitted(ls, defaultTarget, state) ==>
              exists i :: 0 <= i < |ls| && ListHolds(ls[i], defaultTarget, state)
                && token in state(Target(ls[i], defaultTarget)).tokens
  {
    if ls != [] {
      var n := |ls| - 1;
      SubmittedIsHeld(ls[..n], defaultTarget, state, token);
      PositiveNames(ls[n].conditions, token);
      assert forall i :: 0 <= i < n ==> ls[..n][i] == ls[i];
    }
  }
}
