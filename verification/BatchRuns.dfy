/** The whole batch: sets in order, one result per call in plan order, and what every run guarantees. */
module BatchRuns {
  import opened Wrappers
  import opened Sequences
  import opened BatchPlans
  import opened BatchMeaning
  import opened BatchExecutor

  datatype Summary =
    Summary(total: nat, succeeded: nat, failed: nat, skipped: nat, timedOut: nat, cancelled: nat)

  datatype Report = Report(results: seq<CallResult>, summary: Summary)

  /** Everything a run leaves behind: the results by id, the waves in start order, and the last tick. */
  datatype Trace = Trace(results: map<string, CallResult>, log: seq<Wave>, tick: nat)

  function NotExecuted(c: Call): CallResult {
    CallResult(c.id, c.tool, Skip, None, Some(NOT_EXECUTED))
  }

  function StableResults(calls: seq<Call>, results: map<string, CallResult>): (r: seq<CallResult>)
    ensures |r| == |calls|
    ensures forall i :: 0 <= i < |calls| ==>
              r[i] == if calls[i].id in results then results[calls[i].id] else NotExecuted(calls[i])
  {
    seq(|calls|, i requires 0 <= i < |calls| =>
      if calls[i].id in results then results[calls[i].id] else NotExecuted(calls[i]))
  }

  function Count(results: seq<CallResult>, s: Status): nat {
    if results == [] then 0 else (if results[0].status == s then 1 else 0) + Count(results[1..], s)
  }

  function Summarize(results: seq<CallResult>): Summary {
    Summary(|results|, Count(results, Succeeded), Count(results, Failed), Count(results, Skip),
            Count(results, TimedOut), Count(results, Cancelled))
  }

  function Finalize(calls: seq<Call>, results: map<string, CallResult>): Report {
    var stable := StableResults(calls, results);
    Report(stable, Summarize(stable))
  }

  /** The five counts split the results: nothing is counted twice and nothing is left out. */
  lemma {:induction false} SummaryAddsUp(results: seq<CallResult>)
    ensures var s := Summarize(results);
            s.total == s.succeeded + s.failed + s.skipped + s.timedOut + s.cancelled
  {
    if results != [] {
      SummaryAddsUp(results[1..]);
    }
  }

  lemma {:induction false} CountSnoc(results: seq<CallResult>, r: CallResult, s: Status)
    ensures Count(results + [r], s) == Count(results, s) + if r.status == s then 1 else 0
  {
    if results != [] {
      assert (results + [r])[1..] == results[1..] + [r];
      CountSnoc(results[1..], r, s);
    }
  }

  lemma {:induction false} CountIsNumber(results: seq<CallResult>, s: Status)
    ensures Count(results, s) == |set i | 0 <= i < |results| && results[i].status == s|
  {
    var own := (r: CallResult) => r.status == s;
    if results != [] {
      var k := |results| - 1;
      var front := results[..k];
      CountIsNumber(front, s);
      CountSnoc(front, results[k], s);
      WhereSnoc(own, front, results[k]);
      assert results == front + [results[k]];
      assert (set i | 0 <= i < |front| && front[i].status == s) == Where(own, front);
      assert (set i | 0 <= i < |results| && results[i].status == s) == Where(own, results);
    }
  }

  /** The summary counts the results by their statuses. */
  ghost predicate Sums(s: Summary, results: seq<CallResult>) {
    && s.total == |results|
    && s.succeeded == |set i | 0 <= i < |results| && results[i].status == Succeeded|
    && s.failed == |set i | 0 <= i < |results| && results[i].status == Failed|
    && s.skipped == |set i | 0 <= i < |results| && results[i].status == Skip|
    && s.timedOut == |set i | 0 <= i < |results| && results[i].status == TimedOut|
    && s.cancelled == |set i | 0 <= i < |results| && results[i].status == Cancelled|
  }

  /** Each field of the summary is the number of results with its own status. */
  lemma SummaryCounts(results: seq<CallResult>)
    ensures Sums(Summarize(results), results)
    ensures var s := Summarize(results);
            && s.total == |results|
            && s.succeeded == |set i | 0 <= i < |results| && results[i].status == Succeeded|
            && s.failed == |set i | 0 <= i < |results| && results[i].status == Failed|
            && s.skipped == |set i | 0 <= i < |results| && results[i].status == Skip|
            && s.timedOut == |set i | 0 <= i < |results| && results[i].status == TimedOut|
            && s.cancelled == |set i | 0 <= i < |results| && results[i].status == Cancelled|
  {
    CountIsNumber(results, Succeeded);
    CountIsNumber(results, Failed);
    CountIsNumber(results, Skip);
    CountIsNumber(results, TimedOut);
    CountIsNumber(results, Cancelled);
  }

  /** The plan as one list of sets: the ungrouped calls count as a group of their own. */
  function AllSets(plan: Plan): seq<Group> {
    [Group("", plan.parallel, plan.calls)] + plan.groups
  }

  /** The waves come set by set, and within a set that is not parallel one call at a time. */
  ghost predicate InSetOrder(log: seq<Wave>, sets: seq<Group>)
    decreases |sets|
  {
    if sets == [] then log == []
    else
      var last := sets[|sets| - 1];
      exists k :: 0 <= k <= |log| && InSetOrder(log[..k], sets[..|sets| - 1])
        && forall i :: k <= i < |log| ==> WaveOf(log[i], last.calls, last.parallel)
  }

  lemma InSetOrderSnoc(log: seq<Wave>, sets: seq<Group>, next: Group, log': seq<Wave>)
    requires InSetOrder(log, sets) && log <= log'
    requires forall i :: |log| <= i < |log'| ==> WaveOf(log'[i], next.calls, next.parallel)
    ensures InSetOrder(log', sets + [next])
  {
    var sets' := sets + [next];
    assert sets'[..|sets'| - 1] == sets && log'[..|log|] == log;
  }

  lemma {:induction false} EmptyInSetOrder(sets: seq<Group>)
    ensures InSetOrder([], sets)
  {
    if sets != [] {
      EmptyInSetOrder(sets[..|sets| - 1]);
      var none: seq<Wave> := [];
      assert none[..0] == none;
    }
  }

  /** What a run guarantees whatever the abort timing, the race winners and the outcomes are. */
  ghost predicate RunGuarantee(plan: Plan, env: Environment, report: Report, t: Trace)
    requires UniqueIds(Flatten(plan))
  {
    var calls := Flatten(plan);
    var meaning := PlanMeaning(plan, env.outcome);
    && report.results == StableResults(calls, t.results)
    && report.summary == Summarize(report.results)
    && t.results.Keys == Ids(calls)
    // an abort only ever cancels: every other verdict is the one of the undisturbed plan
    && Reported(t.results, calls, meaning)
    && (forall k :: k in t.results && t.results[k].status == Cancelled ==> env.aborted(t.tick))
    // waves: own calls only, each call at most once, dependencies first, none after the abort is seen
    && RunOk(t.results, t.log, env, t.tick)
    && InSetOrder(t.log, AllSets(plan))
    && (env.aborted(0) ==> t.log == [])
  }

  /** The state between two sets: the calls of the finished sets have their results, and m is what they mean. */
  ghost predicate BetweenSets(done: seq<Group>, t: Trace, m: map<string, Verdict>, env: Environment) {
    && t.results.Keys == Ids(GroupCalls(done))
    && RunOk(t.results, t.log, env, t.tick)
    && Faithful(t.results, m, env, t.tick)
    && Reported(t.results, GroupCalls(done), m)
    && InSetOrder(t.log, done)
  }

  lemma {:induction false} GroupCallsSnoc(groups: seq<Group>, g: Group)
    ensures GroupCalls(groups + [g]) == GroupCalls(groups) + g.calls
  {
    if groups == [] {
      assert groups + [g] == [g];
      assert [g][1..] == [];
      assert GroupCalls([g]) == g.calls + [];
    } else {
      GroupCallsSnoc(groups[1..], g);
      assert (groups + [g])[1..] == groups[1..] + [g];
    }
  }

  /** Finishing one more set on top of the state between sets. */
  lemma NextSet(done: seq<Group>, t: Trace, fr: Frame, g: Group, t': Trace)
    requires BetweenSets(done, t, fr.before, fr.env)
    requires fr.prior == t.results && fr.calls == g.calls && FrameExtends(fr)
    requires RunOk(t'.results, t'.log, fr.env, t'.tick) && fr.Finished(t'.results, t'.tick)
    requires InSetOrder(t'.log, done + [g])
    ensures BetweenSets(done + [g], t', fr.m, fr.env)
  {
    hide RunOk, InSetOrder, Faithful, Reported;
    GroupCallsSnoc(done, g);
    UniqueIdsConcat(GroupCalls(done), g.calls);
    FaithfulKeys(t'.results, fr.m, fr.env, t'.tick);
    StillReported(t.results, GroupCalls(done), fr.before, t'.results, fr.m);
    BothReported(t'.results, GroupCalls(done), g.calls, fr.m);
  }

  lemma FaithfulKeys(results: map<string, CallResult>, m: map<string, Verdict>, env: Environment, tick: nat)
    requires Faithful(results, m, env, tick)
    ensures results.Keys == m.Keys
  {
  }

  lemma BothReported(results: map<string, CallResult>, a: seq<Call>, b: seq<Call>, m: map<string, Verdict>)
    requires Reported(results, a, m) && Reported(results, b, m)
    ensures Reported(results, a + b, m)
  {
  }

  lemma StillReported(results: map<string, CallResult>, calls: seq<Call>, m: map<string, Verdict>,
                      results': map<string, CallResult>, m': map<string, Verdict>)
    requires Reported(results, calls, m)
    requires forall k :: k in results ==> k in results' && results'[k] == results[k]
    requires forall k :: k in m ==> k in m' && m'[k] == m[k]
    ensures Reported(results', calls, m')
  {
  }

  ghost predicate FrameExtends(fr: Frame) {
    && fr.m.Keys == fr.prior.Keys + Ids(fr.calls)
    && (forall k :: k in fr.before ==> k in fr.m && fr.m[k] == fr.before[k])
  }

  lemma GoodFrameExtends(fr: Frame)
    requires fr.Good()
    ensures FrameExtends(fr)
  {
  }

  /** The frame of the next set, built from the meaning so far. */
  ghost function NextFrame(calls: seq<Call>, results: map<string, CallResult>, m: map<string, Verdict>,
                           env: Environment): (fr: Frame)
    requires UniqueIds(calls) && Ids(calls) !! results.Keys && results.Keys == m.Keys && AbortSticks(env)
    requires forall k :: k in results ==> results[k].status == Cancelled || Agrees(results[k], m[k])
    ensures fr.Good()
    ensures fr.calls == calls && fr.graph == GraphOf(calls) && fr.prior == results && fr.before == m && fr.env == env
    ensures fr.m == SetMeaning(fr.graph, m, env.outcome)
  {
    var g := GraphOf(calls);
    SetMeaningSolves(g, m, env.outcome);
    Frame(calls, g, results, m, SetMeaning(g, m, env.outcome), env)
  }

  /** A group reached after the abort: whatever has no result yet is cancelled. */
  method CancelMissing(calls: seq<Call>, results: map<string, CallResult>) returns (r: map<string, CallResult>)
    requires UniqueIds(calls) && Ids(calls) !! results.Keys
    ensures Extends(results, calls, r)
    ensures forall c :: c in calls ==> r[c.id] == CancelledResult(c)
  {
    r := results;
    for i := 0 to |calls|
      invariant Extends(results, calls[..i], r)
      invariant forall c :: c in calls[..i] ==> r[c.id] == CancelledResult(c)
    {
      assert calls[..i + 1] == calls[..i] + [calls[i]];
      if calls[i].id !in r {
        r := r[calls[i].id := CancelledResult(calls[i])];
      } else {
        assert false;
      }
    }
    assert calls[..|calls|] == calls;
  }

  method CancelSet(g: Group, env: Environment, t: Trace, ghost fr: Frame) returns (t': Trace)
    requires fr.Good() && fr.calls == g.calls && fr.prior == t.results && fr.env == env
    requires RunOk(t.results, t.log, env, t.tick) && Faithful(t.results, fr.before, env, t.tick) && env.aborted(t.tick)
    ensures RunOk(t'.results, t'.log, env, t'.tick) && fr.Finished(t'.results, t'.tick)
    ensures t'.log == t.log
  {
    var results := CancelMissing(g.calls, t.results);
    RunOkLater(t.results, t.log, env, t.tick, results, t.tick);
    hide RunOk;
    fr.FinishedAfter(g.calls, t.results, results, t.tick);
    t' := t.(results := results);
  }

  /** One set of the batch loop: cancelled as a whole when the abort is up, executed otherwise. */
  method RunSet(g: Group, env: Environment, t: Trace, ghost done: seq<Group>, ghost fr: Frame) returns (t': Trace)
    requires fr.Good() && fr.calls == g.calls && fr.prior == t.results && fr.env == env
    requires BetweenSets(done, t, fr.before, env)
    ensures BetweenSets(done + [g], t', fr.m, env)
  {
    hide RunOk, InSetOrder, Faithful, Reported, FrameExtends;
    if env.aborted(t.tick) {
      t' := CancelSet(g, env, t, fr);
    } else {
      var results, log, tick := ExecuteSet(g.calls, g.parallel, t.results, env, t.log, t.tick, fr);
      // awaiting the set takes the run past its last tick
      OneTickLater(results, log, env, tick, fr);
      t' := Trace(results, log, tick + 1);
    }
    InSetOrderSnoc(t.log, done, g, t'.log);
    GoodFrameExtends(fr);
    NextSet(done, t, fr, g, t');
  }

  lemma OneTickLater(results: map<string, CallResult>, log: seq<Wave>, env: Environment, tick: nat, fr: Frame)
    requires RunOk(results, log, env, tick) && fr.Finished(results, tick) && AbortSticks(env) && fr.env == env
    ensures RunOk(results, log, env, tick + 1) && fr.Finished(results, tick + 1)
  {
    RunOkLater(results, log, env, tick, results, tick + 1);
    hide RunOk;
  }

  /** Taking the next group off the remaining calls. */
  lemma SplitNext(done: seq<Group>, groups: seq<Group>, i: nat)
    requires i < |groups| && UniqueIds(GroupCalls(done) + GroupCalls(groups[i..]))
    ensures UniqueIds(GroupCalls(done + [groups[i]]) + GroupCalls(groups[i + 1..]))
    ensures UniqueIds(groups[i].calls) && Ids(groups[i].calls) !! Ids(GroupCalls(done))
  {
    var first, own, rest := GroupCalls(done), groups[i].calls, GroupCalls(groups[i + 1..]);
    assert groups[i..][1..] == groups[i + 1..];
    GroupCallsSnoc(done, groups[i]);
    assert first + (own + rest) == (first + own) + rest;
    UniqueIdsConcat(first, own + rest);
    UniqueIdsConcat(own, rest);
  }

  /** One group of the batch loop. */
  method RunGroup(g: Group, env: Environment, t0: Trace, ghost done: seq<Group>, ghost m0: map<string, Verdict>)
    returns (t: Trace, ghost m: map<string, Verdict>)
    requires AbortSticks(env) && UniqueIds(g.calls) && Ids(g.calls) !! Ids(GroupCalls(done))
    requires BetweenSets(done, t0, m0, env)
    ensures BetweenSets(done + [g], t, m, env)
    ensures m == SetMeaning(GraphOf(g.calls), m0, env.outcome)
  {
    ghost var fr := NextFrame(g.calls, t0.results, m0, env);
    t := RunSet(g, env, t0, done, fr);
    m := fr.m;
  }

  /** The groups of the batch loop, one after the other. */
  method RunGroups(groups: seq<Group>, env: Environment, t0: Trace, ghost first: seq<Group>, ghost m0: map<string,
                   Verdict>)
    returns (t: Trace, ghost m: map<string, Verdict>)
    requires AbortSticks(env) && UniqueIds(GroupCalls(first) + GroupCalls(groups))
    requires BetweenSets(first, t0, m0, env)
    ensures BetweenSets(first + groups, t, m, env)
    ensures forall i :: 0 <= i < |groups| ==> UniqueIds(groups[i].calls)
    ensures m == SetsMeaning(GroupGraphs(groups), m0, env.outcome)
  {
    UniqueIdsConcat(GroupCalls(first), GroupCalls(groups));
    GroupsHaveUniqueIds(groups);
    ghost var graphs := GroupGraphs(groups);
    ghost var done := first;
    t, m := t0, m0;
    assert groups[0..] == groups && graphs[0..] == graphs;
    for i := 0 to |groups|
      invariant done == first + groups[..i] && UniqueIds(GroupCalls(done) + GroupCalls(groups[i..]))
      invariant BetweenSets(done, t, m, env)
      invariant SetsMeaning(graphs[i..], m, env.outcome) == SetsMeaning(graphs, m0, env.outcome)
    {
      SplitNext(done, groups, i);
      assert graphs[i..][0] == graphs[i] && graphs[i..][1..] == graphs[i + 1..];
      t, m := RunGroup(groups[i], env, t, done, m);
      done := done + [groups[i]];
    }
    assert done == first + groups;
  }

  /** Runs a plan. The report lists every call once, in plan order, under the guarantees above. */
  method ExecuteBatch(plan: Plan, env: Environment) returns (r: Result<Report, PlanError>, t: Trace)
    requires AbortSticks(env)
    ensures r.Ok? <==> ValidPlan(plan)
    ensures r.Err? ==> Culprit(plan, r.error) && t.log == []
    ensures r.Ok? ==> RunGuarantee(plan, env, r.value, t)
    ensures r.Ok? ==> |r.value.results| == |Flatten(plan)|
    ensures r.Ok? ==>
              forall i :: 0 <= i < |Flatten(plan)| ==>
                var c, result := Flatten(plan)[i], r.value.results[i];
                (TellsCancelled(result, c) && env.aborted(t.tick))
                || (c.id in PlanMeaning(plan, env.outcome) && Tells(result, c, PlanMeaning(plan, env.outcome)[c.id]))
    ensures r.Ok? ==> Sums(r.value.summary, r.value.results)
  {
    t := Trace(map[], [], 0);
    var invalid := ValidatePlan(plan);
    if invalid.Some? {
      return Err(invalid.value), t;
    }
    hide RunGuarantee, BetweenSets, Flatten, PlanMeaning, Finalize;
    if env.aborted(0) {
      var results := RecordAll(Flatten(plan), c => CancelledResult(c), map[]);
      t := Trace(results, [], 0);
      CancelledFromStart(plan, env, t);
    } else {
      t := RunPlan(plan, env);
      AllSetsDone(plan, env, t);
    }
    r := Ok(Finalize(Flatten(plan), t.results));
    WhatResultsTell(plan, env, r.value, t);
  }

  /** Read in its own fields, each result of a report is a cancellation owed to an abort or tells its verdict. */
  lemma WhatResultsTell(plan: Plan, env: Environment, report: Report, t: Trace)
    requires UniqueIds(Flatten(plan)) && RunGuarantee(plan, env, report, t)
    ensures |report.results| == |Flatten(plan)| && Sums(report.summary, report.results)
    ensures forall i :: 0 <= i < |Flatten(plan)| ==>
              var c, result := Flatten(plan)[i], report.results[i];
              (TellsCancelled(result, c) && env.aborted(t.tick))
              || (c.id in PlanMeaning(plan, env.outcome) && Tells(result, c, PlanMeaning(plan, env.outcome)[c.id]))
  {
    hide PlanMeaning, Summarize, RunOk, InSetOrder, Flatten, Tells, TellsCancelled, Sums;
    var m := PlanMeaning(plan, env.outcome);
    SummaryCounts(report.results);
    hide IsReport;
    forall i | 0 <= i < |Flatten(plan)|
      ensures var c, result := Flatten(plan)[i], report.results[i];
              (TellsCancelled(result, c) && env.aborted(t.tick)) || (c.id in m && Tells(result, c, m[c.id]))
    {
      var c := Flatten(plan)[i];
      ReportTells(c, m[c.id], t.results[c.id]);
    }
  }

  /** A signal that is up before the batch starts cancels everything and starts nothing. */
  lemma CancelledFromStart(plan: Plan, env: Environment, t: Trace)
    requires UniqueIds(Flatten(plan)) && env.aborted(0)
    requires t.results.Keys == Ids(Flatten(plan)) && t.log == [] && t.tick == 0
    requires forall c :: c in Flatten(plan) ==> t.results[c.id] == CancelledResult(c)
    ensures RunGuarantee(plan, env, Finalize(Flatten(plan), t.results), t)
  {
    PlanMeaningKeys(plan, env.outcome);
    EmptyInSetOrder(AllSets(plan));
    AllCancelled(Flatten(plan), env, t.results, PlanMeaning(plan, env.outcome));
    hide PlanMeaning, InSetOrder, RunOk, Reported, Flatten;
  }

  lemma AllCancelled(calls: seq<Call>, env: Environment, results: map<string, CallResult>, m: map<string, Verdict>)
    requires results.Keys == Ids(calls) && forall c :: c in calls ==> results[c.id] == CancelledResult(c)
    requires forall c :: c in calls ==> c.id in m
    ensures RunOk(results, [], env, 0) && Reported(results, calls, m)
  {
    forall k | k in results
      ensures results[k].status == Cancelled
    {
      var c :| c in calls && c.id == k;
    }
  }

  /** After the last set, everything a run guarantees is in place. */
  lemma AllSetsDone(plan: Plan, env: Environment, t: Trace)
    requires UniqueIds(Flatten(plan)) && !env.aborted(0)
    requires BetweenSets(AllSets(plan), t, PlanMeaning(plan, env.outcome), env)
    ensures RunGuarantee(plan, env, Finalize(Flatten(plan), t.results), t)
  {
    assert AllSets(plan)[1..] == plan.groups;
    assert GroupCalls(AllSets(plan)) == Flatten(plan);
  }

  /** The ungrouped calls; without any, the set is not even entered. */
  method RunUngrouped(g: Group, env: Environment) returns (t: Trace, ghost m: map<string, Verdict>)
    requires AbortSticks(env) && UniqueIds(g.calls)
    ensures BetweenSets([g], t, m, env)
    ensures m == SetMeaning(GraphOf(g.calls), map[], env.outcome)
  {
    t := Trace(map[], [], 0);
    BeforeFirstSet(env);
    ghost var fr := NextFrame(g.calls, map[], map[], env);
    hide BetweenSets, SetMeaning, NextFrame, GraphOf, RunOk;
    assert [] + [g] == [g];
    if |g.calls| > 0 {
      t := RunSet(g, env, t, [], fr);
    } else {
      NoCallsNoSet(g, env, t, fr);
    }
    m := fr.m;
  }

  lemma NoCallsNoSet(g: Group, env: Environment, t: Trace, fr: Frame)
    requires g.calls == [] && BetweenSets([], t, fr.before, env) && t.log == []
    requires fr.Good() && fr.calls == g.calls && fr.prior == t.results && fr.env == env
    ensures BetweenSets([g], t, fr.m, env)
  {
    GoodFrameExtends(fr);
    InSetOrderSnoc([], [], g, []);
    NextSet([], t, fr, g, t);
    assert [] + [g] == [g];
  }

  /** A valid plan that is not aborted from the start: the ungrouped calls, then the groups. */
  method RunPlan(plan: Plan, env: Environment) returns (t: Trace)
    requires AbortSticks(env) && UniqueIds(Flatten(plan)) && !env.aborted(0)
    ensures BetweenSets(AllSets(plan), t, PlanMeaning(plan, env.outcome), env)
  {
    var ungrouped := Group("", plan.parallel, plan.calls);
    UniqueIdsConcat(plan.calls, GroupCalls(plan.groups));
    OneGroup(ungrouped);
    hide BetweenSets, SetMeaning, SetsMeaning, GroupGraphs, GraphOf, PlanMeaning, GroupCalls;
    ghost var m0, m;
    t, m0 := RunUngrouped(ungrouped, env);
    t, m := RunGroups(plan.groups, env, t, [ungrouped], m0);
    MeaningInSteps(plan, env.outcome, m0);
  }

  lemma OneGroup(g: Group)
    ensures GroupCalls([g]) == g.calls
  {
    assert [g][1..] == [];
    assert g.calls + [] == g.calls;
  }

  lemma BeforeFirstSet(env: Environment)
    ensures BetweenSets([], Trace(map[], [], 0), map[], env)
  {
  }

  lemma MeaningInSteps(plan: Plan, oc: Outcomes, m0: map<string, Verdict>)
    requires UniqueIds(Flatten(plan)) && UniqueIds(plan.calls)
    requires forall i :: 0 <= i < |plan.groups| ==> UniqueIds(plan.groups[i].calls)
    requires m0 == SetMeaning(GraphOf(plan.calls), map[], oc)
    ensures SetsMeaning(GroupGraphs(plan.groups), m0, oc) == PlanMeaning(plan, oc)
  {
    hide SetMeaning;
    assert PlanSets(plan)[0] == GraphOf(plan.calls) && PlanSets(plan)[1..] == GroupGraphs(plan.groups);
  }

  lemma {:induction false} SetsMeaningKeys(sets: seq<Graph>, prior: map<string, Verdict>, oc: Outcomes, id: string)
    ensures id in SetsMeaning(sets, prior, oc) <==> id in prior || exists i :: 0 <= i < |sets| && id in sets[i]
  {
    if sets != [] {
      SetsMeaningKeys(sets[1..], SetMeaning(sets[0], prior, oc), oc, id);
      forall i | 0 < i < |sets|
        ensures sets[i] == sets[1..][i - 1]
      {
      }
    }
  }

  /** A verdict that a call ran carries that call's own outcome. */
  lemma {:induction false} RanIsOutcome(sets: seq<Graph>, prior: map<string, Verdict>, oc: Outcomes, id: string)
    requires id in prior && prior[id].Ran? ==> prior[id].outcome == oc(id)
    ensures var m := SetsMeaning(sets, prior, oc);
            id in m && m[id].Ran? ==> m[id].outcome == oc(id)
  {
    hide Resolved, DependenciesSucceed;
    if sets != [] {
      RanIsOutcome(sets[1..], SetMeaning(sets[0], prior, oc), oc, id);
    }
  }

  /** A valid plan gives every call a meaning. */
  lemma PlanMeaningKeys(plan: Plan, oc: Outcomes)
    requires UniqueIds(Flatten(plan))
    ensures forall c :: c in Flatten(plan) ==> c.id in PlanMeaning(plan, oc)
  {
    forall c | c in Flatten(plan)
      ensures c.id in PlanMeaning(plan, oc)
    {
      PlanMeaningKey(plan, oc, c);
    }
  }

  lemma PlanMeaningKey(plan: Plan, oc: Outcomes, c: Call)
    requires UniqueIds(Flatten(plan)) && c in Flatten(plan)
    ensures c.id in PlanMeaning(plan, oc)
  {
    UniqueIdsConcat(plan.calls, GroupCalls(plan.groups));
    GroupsHaveUniqueIds(plan.groups);
    hide SetsMeaning, UniqueIds;
    SetsMeaningKeys(PlanSets(plan), map[], oc, c.id);
    if c in plan.calls {
      assert c.id in PlanSets(plan)[0];
    } else {
      GroupCallsMember(plan.groups, c);
      var i :| 0 <= i < |plan.groups| && c in plan.groups[i].calls;
      assert c.id in PlanSets(plan)[i + 1];
    }
  }

  /**
   Without an abort, every call's result tells its verdict, and its outcome when it was invoked: the report is the
   same for all flags, orders and races.
   */
  lemma UndisturbedRun(plan: Plan, env: Environment, report: Report, t: Trace, i: nat)
    requires UniqueIds(Flatten(plan)) && RunGuarantee(plan, env, report, t)
    requires forall u: nat :: !env.aborted(u)
    requires i < |Flatten(plan)|
    ensures Flatten(plan)[i].id in PlanMeaning(plan, env.outcome) && i < |report.results|
    ensures var c, r := Flatten(plan)[i], report.results[i];
            var v, outcome := PlanMeaning(plan, env.outcome)[c.id], env.outcome(c.id);
            && r.id == c.id && r.tool == c.tool
            && (v.Ran? && outcome.Value? ==>
                  r.status == Succeeded && r.value == Some(outcome.value) && r.errorCode == None)
            && (v.Ran? && outcome.Error? ==>
                  r.status == Failed && r.value == None && r.errorCode == Some(ChildCode(outcome.code)))
            && (v.Ran? && outcome.Timeout? ==>
                  r.status == TimedOut && r.value == None && r.errorCode == Some(TIMEOUT))
            && (v == Skipped(DependencyFailed) ==>
                  r.status == Skip && r.value == None && r.errorCode == Some(DEPENDENCY_FAILED))
            && (v == Skipped(DependencyUnresolved) ==>
                  r.status == Skip && r.value == None && r.errorCode == Some(DEPENDENCY_UNRESOLVED))
  {
    var c, m := Flatten(plan)[i], PlanMeaning(plan, env.outcome);
    RanIsOutcome(PlanSets(plan), map[], env.outcome, c.id);
    hide SetsMeaning, RunOk, InSetOrder, Flatten, Summarize, PlanSets;
    assert c.id in m && IsReport(c, m[c.id], t.results[c.id]);
  }

  /** Without an abort, exactly the calls whose dependencies all succeed are invoked. */
  lemma InvokedInUndisturbedRun(plan: Plan, env: Environment, report: Report, t: Trace, c: Call)
    requires UniqueIds(Flatten(plan)) && RunGuarantee(plan, env, report, t)
    requires forall u: nat :: !env.aborted(u)
    requires c in Flatten(plan) && c.id in PlanMeaning(plan, env.outcome)
    ensures InvokedBefore(t.log, |t.log|, c.id) <==> PlanMeaning(plan, env.outcome)[c.id].Ran?
  {
    hide PlanMeaning, Summarize, StableResults, InSetOrder, Flatten;
    var m := PlanMeaning(plan, env.outcome);
    assert IsReport(c, m[c.id], t.results[c.id]);
    hide Reported, IsReport;
    if InvokedBefore(t.log, |t.log|, c.id) {
      LoggedIsRan(t, env, c.id);
    }
  }

  lemma LoggedIsRan(t: Trace, env: Environment, id: string)
    requires RunOk(t.results, t.log, env, t.tick) && InvokedBefore(t.log, |t.log|, id)
    requires forall u: nat :: !env.aborted(u)
    ensures id in t.results && t.results[id].status in {Succeeded, Failed, TimedOut}
  {
    var j :| 0 <= j < |t.log| && id in Ids(t.log[j].calls);
    var e :| e in t.log[j].calls && e.id == id;
    assert t.results[e.id] == ExecuteOne(e, env, t.log[j].tick);
  }
}
