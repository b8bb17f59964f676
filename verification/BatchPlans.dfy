/** Batch plans: their shape, and the validation that every plan passes before any call runs. */
module BatchPlans {
  import opened Wrappers

  /** One child call. Its tool input is opaque to the executor and is not modelled. */
  datatype Call = Call(id: string, tool: string, deps: seq<string>, parallelSafe: bool)

  datatype Group = Group(id: string, parallel: bool, calls: seq<Call>)

  datatype Plan = Plan(parallel: bool, calls: seq<Call>, groups: seq<Group>)

  /** The four errors validation can throw. */
  datatype PlanError =
    | DuplicateCall(id: string)
    | UnknownDependency(id: string)
    | DuplicateGroup(id: string)
    | LaterGroupDependency(id: string)

  function Ids(calls: seq<Call>): (r: set<string>)
    ensures forall c :: c in calls ==> c.id in r
  {
    set c | c in calls :: c.id
  }

  function GroupCalls(groups: seq<Group>): seq<Call> {
    if groups == [] then [] else groups[0].calls + GroupCalls(groups[1..])
  }

  /** All calls in plan order: the ungrouped ones first, then group by group. */
  function Flatten(plan: Plan): seq<Call> {
    plan.calls + GroupCalls(plan.groups)
  }

  ghost predicate UniqueIds(calls: seq<Call>) {
    forall i, j :: 0 <= i < j < |calls| ==> calls[i].id != calls[j].id
  }

  ghost predicate KnownDependencies(calls: seq<Call>) {
    forall c, d :: c in calls && d in c.deps ==> d in Ids(calls)
  }

  ghost predicate UniqueGroups(groups: seq<Group>) {
    forall i, j :: 0 <= i < j < |groups| ==> groups[i].id != groups[j].id
  }

  /** Call c of group i names a dependency that lives in a later group. */
  ghost predicate PointsLater(groups: seq<Group>, i: int, c: Call, d: string) {
    0 <= i < |groups| && c in groups[i].calls && d in c.deps
    && exists j :: i < j < |groups| && d in Ids(groups[j].calls)
  }

  ghost predicate NoLaterDependency(groups: seq<Group>) {
    forall i, c, d :: !PointsLater(groups, i, c, d)
  }

  ghost predicate ValidPlan(plan: Plan) {
    && UniqueIds(Flatten(plan))
    && KnownDependencies(Flatten(plan))
    && UniqueGroups(plan.groups)
    && NoLaterDependency(plan.groups)
  }

  /** The error reports something that is really wrong with the plan. */
  ghost predicate Culprit(plan: Plan, e: PlanError) {
    match e
    case DuplicateCall(id) =>
      exists i, j :: 0 <= i < j < |Flatten(plan)| && Flatten(plan)[i].id == Flatten(plan)[j].id == id
    case UnknownDependency(id) =>
      id !in Ids(Flatten(plan)) && exists c :: c in Flatten(plan) && id in c.deps
    case DuplicateGroup(id) =>
      exists i, j :: 0 <= i < j < |plan.groups| && plan.groups[i].id == plan.groups[j].id == id
    case LaterGroupDependency(id) =>
      exists i, c :: PointsLater(plan.groups, i, c, id)
  }

  lemma UniqueIdsInject(calls: seq<Call>, c: Call, c': Call)
    requires UniqueIds(calls) && c in calls && c' in calls && c.id == c'.id
    ensures c == c'
  {
  }

  lemma UniqueIdsConcat(a: seq<Call>, b: seq<Call>)
    ensures UniqueIds(a + b) <==> UniqueIds(a) && UniqueIds(b) && Ids(a) !! Ids(b)
    ensures Ids(a + b) == Ids(a) + Ids(b)
  {
    var s := a + b;
    if UniqueIds(s) {
      forall i, j | 0 <= i < j < |a|
        ensures a[i].id != a[j].id
      {
        assert s[i] == a[i] && s[j] == a[j];
      }
      forall i, j | 0 <= i < j < |b|
        ensures b[i].id != b[j].id
      {
        assert s[|a| + i] == b[i] && s[|a| + j] == b[j];
      }
      forall i, j | 0 <= i < |a| && 0 <= j < |b|
        ensures a[i].id != b[j].id
      {
        assert s[i] == a[i] && s[|a| + j] == b[j];
      }
    }
  }

  /** A call sits in the flattened groups exactly when some group lists it. */
  lemma {:induction false} GroupCallsMember(groups: seq<Group>, c: Call)
    ensures c in GroupCalls(groups) <==> exists i :: 0 <= i < |groups| && c in groups[i].calls
  {
    if groups != [] {
      GroupCallsMember(groups[1..], c);
      if c in GroupCalls(groups[1..]) {
        var i :| 0 <= i < |groups[1..]| && c in groups[1..][i].calls;
        assert c in groups[i + 1].calls;
      }
      if i :| 0 <= i < |groups| && c in groups[i].calls {
        if i > 0 {
          assert groups[1..][i - 1] == groups[i];
        }
      }
    }
  }

  /** Ids are not shared between two groups, or between a group and the ungrouped calls. */
  lemma {:induction false} GroupIdsDisjoint(groups: seq<Group>, i: int, j: int)
    requires UniqueIds(GroupCalls(groups)) && 0 <= i < j < |groups|
    ensures Ids(groups[i].calls) !! Ids(groups[j].calls)
  {
    UniqueIdsConcat(groups[0].calls, GroupCalls(groups[1..]));
    if i == 0 {
      forall c | c in groups[j].calls
        ensures c.id in Ids(GroupCalls(groups[1..]))
      {
        assert groups[1..][j - 1] == groups[j];
        GroupCallsMember(groups[1..], c);
      }
    } else {
      GroupIdsDisjoint(groups[1..], i - 1, j - 1);
    }
  }

  /** First the duplicate-id pass, collecting the ids seen. */
  method CollectIds(calls: seq<Call>) returns (r: Result<set<string>, PlanError>)
    ensures r.Ok? <==> UniqueIds(calls)
    ensures r.Ok? ==> r.value == Ids(calls)
    ensures r.Err? ==> r.error.DuplicateCall?
    ensures r.Err? ==> exists i, j :: 0 <= i < j < |calls| && calls[i].id == calls[j].id == r.error.id
  {
    var ids: set<string> := {};
    for i := 0 to |calls|
      invariant UniqueIds(calls[..i]) && ids == Ids(calls[..i])
    {
      if calls[i].id in ids {
        var k :| 0 <= k < i && calls[..i][k].id == calls[i].id;
        return Err(DuplicateCall(calls[i].id));
      }
      ids := ids + {calls[i].id};
      assert calls[..i + 1] == calls[..i] + [calls[i]];
    }
    assert calls[..|calls|] == calls;
    return Ok(ids);
  }

  method CheckDependencies(calls: seq<Call>, ids: set<string>) returns (r: Option<PlanError>)
    requires ids == Ids(calls)
    ensures r.None? <==> KnownDependencies(calls)
    ensures r.Some? ==> r.value.UnknownDependency? && r.value.id !in ids
    ensures r.Some? ==> exists c :: c in calls && r.value.id in c.deps
  {
    for i := 0 to |calls|
      invariant forall k, d :: 0 <= k < i && d in calls[k].deps ==> d in ids
    {
      var deps := calls[i].deps;
      for j := 0 to |deps|
        invariant forall k :: 0 <= k < j ==> deps[k] in ids
      {
        if deps[j] !in ids {
          assert calls[i] in calls && deps[j] in calls[i].deps;
          return Some(UnknownDependency(deps[j]));
        }
      }
    }
    return None;
  }

  method CheckGroupIds(groups: seq<Group>) returns (r: Option<PlanError>)
    ensures r.None? <==> UniqueGroups(groups)
    ensures r.Some? ==> r.value.DuplicateGroup?
    ensures r.Some? ==> exists i, j :: 0 <= i < j < |groups| && groups[i].id == groups[j].id == r.value.id
  {
    var groupIndex: map<string, int> := map[];
    for i := 0 to |groups|
      invariant UniqueGroups(groups[..i])
      invariant forall x :: x in groupIndex <==> exists k :: 0 <= k < i && groups[k].id == x
    {
      if groups[i].id in groupIndex {
        return Some(DuplicateGroup(groups[i].id));
      }
      groupIndex := groupIndex[groups[i].id := i];
    }
    return None;
  }

  /** Maps every grouped call id to the index of its group. */
  method IndexGroups(groups: seq<Group>) returns (callGroup: map<string, int>)
    requires UniqueIds(GroupCalls(groups))
    ensures forall x :: x in callGroup ==> 0 <= callGroup[x] < |groups| && x in Ids(groups[callGroup[x]].calls)
    ensures forall i, c :: 0 <= i < |groups| && c in groups[i].calls ==> c.id in callGroup && callGroup[c.id] == i
  {
    callGroup := map[];
    for i := 0 to |groups|
      invariant forall x :: x in callGroup ==> 0 <= callGroup[x] < i && x in Ids(groups[callGroup[x]].calls)
      invariant forall k, c :: 0 <= k < i && c in groups[k].calls ==> c.id in callGroup && callGroup[c.id] == k
    {
      var calls := groups[i].calls;
      ghost var before := callGroup;
      for j := 0 to |calls|
        invariant callGroup.Keys == before.Keys + Ids(calls[..j])
        invariant forall x :: x in callGroup ==>
                    callGroup[x] == if x in Ids(calls[..j]) then i else if x in before then before[x] else i
      {
        assert calls[..j + 1] == calls[..j] + [calls[j]];
        callGroup := callGroup[calls[j].id := i];
      }
      assert calls[..|calls|] == calls;
      forall k, c | 0 <= k < i && c in groups[k].calls
        ensures c.id !in Ids(calls)
      {
        GroupIdsDisjoint(groups, k, i);
      }
    }
  }

  ghost predicate MapsGroups(groups: seq<Group>, callGroup: map<string, int>) {
    && (forall x :: x in callGroup ==> 0 <= callGroup[x] < |groups| && x in Ids(groups[callGroup[x]].calls))
    && (forall i, c :: 0 <= i < |groups| && c in groups[i].calls ==> c.id in callGroup && callGroup[c.id] == i)
  }

  lemma FoundLater(calls: seq<Call>, groups: seq<Group>, callGroup: map<string, int>, c: Call, d: string)
    requires UniqueIds(calls) && c in calls && (forall x :: x in GroupCalls(groups) ==> x in calls)
    requires MapsGroups(groups, callGroup) && c.id in callGroup && d in callGroup
    requires d in c.deps && callGroup[d] > callGroup[c.id]
    ensures exists i, x :: PointsLater(groups, i, x, d)
  {
    var g := callGroup[c.id];
    var x :| x in groups[g].calls && x.id == c.id;
    GroupCallsMember(groups, x);
    UniqueIdsInject(calls, c, x);
    assert PointsLater(groups, g, c, d);
  }

  lemma NoneLater(calls: seq<Call>, groups: seq<Group>, callGroup: map<string, int>)
    requires (forall x :: x in GroupCalls(groups) ==> x in calls) && MapsGroups(groups, callGroup)
    requires forall k, d :: 0 <= k < |calls| && d in calls[k].deps && calls[k].id in callGroup && d in callGroup ==>
               callGroup[d] <= callGroup[calls[k].id]
    ensures NoLaterDependency(groups)
  {
    forall i, c, d
      ensures !PointsLater(groups, i, c, d)
    {
      GroupCallsMember(groups, c);
    }
  }

  method CheckGroupOrder(calls: seq<Call>, groups: seq<Group>) returns (r: Option<PlanError>)
    requires UniqueIds(calls) && UniqueIds(GroupCalls(groups))
    requires forall c :: c in GroupCalls(groups) ==> c in calls
    ensures r.None? <==> NoLaterDependency(groups)
    ensures r.Some? ==> r.value.LaterGroupDependency?
    ensures r.Some? ==> exists i, c :: PointsLater(groups, i, c, r.value.id)
  {
    var callGroup := IndexGroups(groups);
    assert MapsGroups(groups, callGroup);
    hide MapsGroups, PointsLater;
    for i := 0 to |calls|
      invariant forall k, d :: 0 <= k < i && d in calls[k].deps && calls[k].id in callGroup && d in callGroup ==>
                  callGroup[d] <= callGroup[calls[k].id]
    {
      var c := calls[i];
      if c.id in callGroup {
        for j := 0 to |c.deps|
          invariant forall k :: 0 <= k < j && c.deps[k] in callGroup ==> callGroup[c.deps[k]] <= callGroup[c.id]
        {
          var d := c.deps[j];
          if d in callGroup && callGroup[d] > callGroup[c.id] {
            FoundLater(calls, groups, callGroup, c, d);
            return Some(LaterGroupDependency(d));
          }
        }
      }
    }
    NoneLater(calls, groups, callGroup);
    return None;
  }

  /** The four checks in order; a plan passes exactly when it is valid, and the error names a real culprit. */
  method ValidatePlan(plan: Plan) returns (r: Option<PlanError>)
    ensures r.None? <==> ValidPlan(plan)
    ensures r.Some? ==> Culprit(plan, r.value)
    ensures r.Some? && r.value.DuplicateCall? <==> !UniqueIds(Flatten(plan))
    ensures r.Some? && r.value.UnknownDependency? <==> UniqueIds(Flatten(plan)) && !KnownDependencies(Flatten(plan))
    ensures r.Some? && r.value.DuplicateGroup? <==>
            UniqueIds(Flatten(plan)) && KnownDependencies(Flatten(plan)) && !UniqueGroups(plan.groups)
  {
    var calls := Flatten(plan);
    var ids := CollectIds(calls);
    if ids.Err? {
      return Some(ids.error);
    }
    r := CheckDependencies(calls, ids.value);
    if r.Some? {
      return;
    }
    r := CheckGroupIds(plan.groups);
    if r.Some? {
      return;
    }
    UniqueIdsConcat(plan.calls, GroupCalls(plan.groups));
    r := CheckGroupOrder(calls, plan.groups);
  }
}
