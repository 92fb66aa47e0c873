/** What a PROPPATCH request gets: everything written, or nothing (dav/proppatch.go, proppatch_method.go). */
module PropPlan {
  import opened Octets
  import opened PropPatch

  const OK := 200

  const FORBIDDEN := 403

  const FAILED_DEPENDENCY := 424

  datatype Outcome = Outcome(name: Name, status: int)

  datatype Plan = Plan(outcomes: seq<Outcome>, commit: bool)

  /** `PropWrite`, one store operation. */
  datatype Write = Write(ns: string, name: string, value: string, remove: bool)

  datatype Group = Group(status: int, props: seq<Name>)

  datatype Refusal = BadPropertyName | NoPropertyStore | StoreFailed | BadHref

  datatype Response = Multistatus(groups: seq<Group>) | Refused(why: Refusal)

  predicate IsLive(n: Name) {
    n.space == DAV
  }

  ghost predicate SomeLive(patch: seq<Instruction>) {
    exists k :: 0 <= k < |patch| && IsLive(patch[k].name)
  }

  /** `PlanPropPatch`: one live name refuses everything. */
  method PlanPropPatch(patch: seq<Instruction>) returns (plan: Plan)
    ensures plan.commit <==> patch != [] && !SomeLive(patch)
    ensures |plan.outcomes| == |patch|
    ensures forall k :: 0 <= k < |patch| ==>
              plan.outcomes[k] == Outcome(patch[k].name, if !SomeLive(patch) then OK else if IsLive(patch[k].name)
                  then FORBIDDEN else FAILED_DEPENDENCY)
  {
    var refused := false;
    for i := 0 to |patch|
      invariant !refused && forall k :: 0 <= k < i ==> !IsLive(patch[k].name)
    {
      if patch[i].name.space == "DAV:" {
        refused := true;
        break;
      }
    }
    var outcomes: seq<Outcome> := [];
    for i := 0 to |patch|
      invariant |outcomes| == i
      invariant forall k :: 0 <= k < i ==>
                  outcomes[k] == Outcome(patch[k].name, if !refused then OK else if IsLive(patch[k].name)
                      then FORBIDDEN else FAILED_DEPENDENCY)
    {
      var status := if !refused then 200 else if patch[i].name.space == "DAV:" then 403 else 424;
      outcomes := outcomes + [Outcome(patch[i].name, status)];
    }
    plan := Plan(outcomes, !refused && |patch| > 0);
  }

  /** The store operations of a patch, one an instruction in order. */
  ghost predicate WritesAll(writes: seq<Write>, patch: seq<Instruction>) {
    && |writes| == |patch|
    && forall k :: 0 <= k < |patch| ==>
         writes[k] == Write(patch[k].name.space, patch[k].name.local, patch[k].value, patch[k].op.Remove?)
  }

  /** `writesOf`. */
  method WritesOf(patch: seq<Instruction>) returns (writes: seq<Write>)
    ensures WritesAll(writes, patch)
  {
    writes := [];
    for i := 0 to |patch|
      invariant WritesAll(writes, patch[..i])
    {
      writes := writes + [Write(patch[i].name.space, patch[i].name.local, patch[i].value, patch[i].op.Remove?)];
    }
    assert patch[..|patch|] == patch;
  }

  /** The names that got a status, in the request's order. */
  function WithStatus(outcomes: seq<Outcome>, status: int): seq<Name> {
    if outcomes == [] then []
    else
      var o := outcomes[|outcomes| - 1];
      WithStatus(outcomes[..|outcomes| - 1], status) + if o.status == status then [o.name] else []
  }

  /** One group a status, holding exactly the names that got it. */
  ghost predicate Grouped(groups: seq<Group>, outcomes: seq<Outcome>) {
    && (forall i, j :: 0 <= i < j < |groups| ==> groups[i].status != groups[j].status)
    && (forall i :: 0 <= i < |groups| ==>
        groups[i].props != [] && groups[i].props == WithStatus(outcomes, groups[i].status))
    && (forall k :: 0 <= k < |outcomes| ==> exists i :: 0 <= i < |groups| && groups[i].status == outcomes[k].status)
  }

  /** `writePlan`'s grouping, in first-seen order. */
  method GroupByStatus(outcomes: seq<Outcome>) returns (groups: seq<Group>)
    ensures Grouped(groups, outcomes)
  {
    groups := [];
    for i := 0 to |outcomes|
      invariant Grouped(groups, outcomes[..i])
    {
      var o := outcomes[i];
      assert outcomes[..i + 1] == outcomes[..i] + [o];
      var at := 0;
      while at < |groups| && groups[at].status != o.status
        invariant 0 <= at <= |groups| && forall g :: 0 <= g < at ==> groups[g].status != o.status
      {
        at := at + 1;
      }
      if at == |groups| {
        NewStatus(groups, outcomes[..i], o);
        groups := groups + [Group(o.status, [o.name])];
      } else {
        SeenStatus(groups, outcomes[..i], o, at);
        groups := groups[at := Group(o.status, groups[at].props + [o.name])];
      }
    }
    assert outcomes[..|outcomes|] == outcomes;
  }

  lemma WithStatusSnoc(outcomes: seq<Outcome>, o: Outcome, status: int)
    ensures WithStatus(outcomes + [o], status) == WithStatus(outcomes, status) + if o.status == status then [o.name]
        else []
  {
    assert (outcomes + [o])[..|outcomes|] == outcomes;
  }

  lemma {:induction false} WithStatusNone(outcomes: seq<Outcome>, status: int)
    requires forall k :: 0 <= k < |outcomes| ==> outcomes[k].status != status
    ensures WithStatus(outcomes, status) == []
  {
    if outcomes != [] {
      WithStatusNone(outcomes[..|outcomes| - 1], status);
    }
  }

  lemma NewStatus(groups: seq<Group>, outcomes: seq<Outcome>, o: Outcome)
    requires Grouped(groups, outcomes) && forall g :: 0 <= g < |groups| ==> groups[g].status != o.status
    ensures Grouped(groups + [Group(o.status, [o.name])], outcomes + [o])
  {
    var more, all := groups + [Group(o.status, [o.name])], outcomes + [o];
    WithStatusNone(outcomes, o.status);
    forall i | 0 <= i < |more| ensures more[i].props != [] && more[i].props == WithStatus(all, more[i].status) {
      WithStatusSnoc(outcomes, o, more[i].status);
    }
    forall k | 0 <= k < |all| ensures exists i :: 0 <= i < |more| && more[i].status == all[k].status {
      if k < |outcomes| {
        var i :| 0 <= i < |groups| && groups[i].status == outcomes[k].status;
        assert more[i].status == all[k].status;
      } else {
        assert more[|groups|].status == all[k].status;
      }
    }
  }

  lemma SeenStatus(groups: seq<Group>, outcomes: seq<Outcome>, o: Outcome, at: nat)
    requires Grouped(groups, outcomes) && at < |groups| && groups[at].status == o.status
    ensures Grouped(groups[at := Group(o.status, groups[at].props + [o.name])], outcomes + [o])
  {
    var more, all := groups[at := Group(o.status, groups[at].props + [o.name])], outcomes + [o];
    forall i | 0 <= i < |more| ensures more[i].props != [] && more[i].props == WithStatus(all, more[i].status) {
      WithStatusSnoc(outcomes, o, more[i].status);
    }
    forall k | 0 <= k < |all| ensures exists i :: 0 <= i < |more| && more[i].status == all[k].status {
      if k < |outcomes| {
        var i :| 0 <= i < |groups| && groups[i].status == outcomes[k].status;
        assert more[i].status == all[k].status;
      } else {
        assert more[at].status == all[k].status;
      }
    }
  }

  /** A patch that is carried out whole when there is a store for it. */
  ghost predicate Commits(patch: seq<Instruction>) {
    patch != [] && !SomeLive(patch)
  }

  predicate AllNameable(patch: seq<Instruction>, nameable: Name -> bool) {
    forall k :: 0 <= k < |patch| ==> nameable(patch[k].name)
  }

  /** The status of one instruction, given whether the list was written. */
  function StatusOf(name: Name, written: bool): int {
    if written then OK else if IsLive(name) then FORBIDDEN else FAILED_DEPENDENCY
  }

  /** Some list of outcomes, one an instruction in order, is what the groups report. */
  ghost predicate Reports(groups: seq<Group>, patch: seq<Instruction>, written: bool) {
    exists outcomes :: Told(outcomes, patch, written) && Grouped(groups, outcomes)
  }

  ghost predicate Told(outcomes: seq<Outcome>, patch: seq<Instruction>, written: bool) {
    && |outcomes| == |patch|
    && forall k :: 0 <= k < |patch| ==> outcomes[k] == Outcome(patch[k].name, StatusOf(patch[k].name, written))
  }

  /**
   `Proppatch` past the guards. `nameable` says which names can be written back as a tag, `store`
   whether a property store is there, `storeOk` whether its one transaction succeeds, `hrefOk`
   whether the request's own path can be split for the response. The list is written whole exactly
   when nothing stands against it, and a 200 is reported exactly when it was.
   */
  method Proppatch(patch: seq<Instruction>, nameable: Name -> bool, store: bool, storeOk: bool, hrefOk: bool)
    returns (response: Response, written: Option<seq<Write>>)
    ensures written.Some? <==> AllNameable(patch, nameable) && Commits(patch) && store && storeOk
    ensures written.Some? ==> WritesAll(written.value, patch)
    ensures response == Refused(BadPropertyName) <==> !AllNameable(patch, nameable)
    ensures response == Refused(NoPropertyStore) <==> AllNameable(patch, nameable) && Commits(patch) && !store
    ensures response == Refused(StoreFailed) <==> AllNameable(patch, nameable) && Commits(patch) && store && !storeOk
    ensures response.Multistatus? <==>
              AllNameable(patch, nameable) && (Commits(patch) ==> store && storeOk) && hrefOk
    ensures response.Multistatus? ==> Reports(response.groups, patch, written.Some?)
    ensures response.Multistatus? ==>
              && ((exists i :: 0 <= i < |response.groups| && response.groups[i].status == OK) <==> written.Some?)
              && (written.Some? ==> forall i :: 0 <= i < |response.groups| ==> response.groups[i].status == OK)
  {
    written := None;
    for i := 0 to |patch|
      invariant forall k :: 0 <= k < i ==> nameable(patch[k].name)
    {
      if !nameable(patch[i].name) {
        return Refused(BadPropertyName), None;
      }
    }
    var plan := PlanPropPatch(patch);
    if plan.commit {
      if !store {
        return Refused(NoPropertyStore), None;
      }
      if !storeOk {
        return Refused(StoreFailed), None;
      }
      var writes := WritesOf(patch);
      written := Some(writes);
    }
    if !hrefOk {
      return Refused(BadHref), written;
    }
    var groups := GroupByStatus(plan.outcomes);
    response := Multistatus(groups);
    assert Told(plan.outcomes, patch, plan.commit);
    TwoHundredMeansWritten(patch, plan.outcomes, groups, plan.commit);
  }

  /** In a multistatus a 200 stands for the whole list written, and without it only 403s and 424s. */
  lemma TwoHundredMeansWritten(patch: seq<Instruction>, outcomes: seq<Outcome>, groups: seq<Group>, written: bool)
    requires Told(outcomes, patch, written) && Grouped(groups, outcomes) && (written ==> patch != [])
    ensures (exists i :: 0 <= i < |groups| && groups[i].status == OK) <==> written
    ensures written ==> forall i :: 0 <= i < |groups| ==> groups[i].status == OK
  {
    forall i | 0 <= i < |groups| ensures GotBySome(outcomes, groups[i].status) {
      if !GotBySome(outcomes, groups[i].status) {
        WithStatusNone(outcomes, groups[i].status);
      }
    }
    if written {
      assert outcomes[0].status == OK;
    }
  }

  ghost predicate GotBySome(outcomes: seq<Outcome>, status: int) {
    exists k :: 0 <= k < |outcomes| && outcomes[k].status == status
  }
}
