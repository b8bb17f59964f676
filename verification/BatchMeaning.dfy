/**
 The meaning of a batch, with no waves, no order and no parallelism in it: set by set, a call runs
 exactly when all its dependencies succeed, in the least sense that a cycle never supports itself.
 */
module BatchMeaning {
  import opened BatchPlans

  /** What invoking a call gives when nobody aborts the batch. */
  datatype Outcome = Value(value: string) | Error(code: string) | Timeout

  datatype SkipReason = DependencyFailed | DependencyUnresolved

  datatype Verdict = Ran(outcome: Outcome) | Skipped(reason: SkipReason)

  /** The calls of one set, as call id to dependency ids. */
  type Graph = map<string, set<string>>

  type Outcomes = string -> Outcome

  predicate Success(v: Verdict) {
    v.Ran? && v.outcome.Value?
  }

  ghost function Successes(prior: map<string, Verdict>): set<string> {
    set id | id in prior && Success(prior[id])
  }

  /** X contains every call whose dependencies have a result already or lie in X. */
  ghost predicate ResolutionClosed(g: Graph, prior: set<string>, X: set<string>) {
    forall id :: id in g && g[id] <= prior + X ==> id in X
  }

  /** id is in the least set closed under resolution: no cycle and no later set lies upstream of it. */
  ghost predicate Resolved(g: Graph, prior: set<string>, id: string) {
    forall X :: ResolutionClosed(g, prior, X) ==> id in X
  }

  ghost predicate SuccessClosed(g: Graph, prior: set<string>, oc: Outcomes, X: set<string>) {
    forall id :: id in g && oc(id).Value? && g[id] <= prior + X ==> id in X
  }

  /** id is in the least set of calls that return a value and have only succeeding dependencies. */
  ghost predicate Succeeds(g: Graph, prior: set<string>, oc: Outcomes, id: string) {
    forall X :: SuccessClosed(g, prior, oc, X) ==> id in X
  }

  ghost predicate DependenciesSucceed(g: Graph, prior: map<string, Verdict>, oc: Outcomes, id: string)
    requires id in g
  {
    forall d :: d in g[id] ==> d in Successes(prior) || Succeeds(g, Successes(prior), oc, d)
  }

  /** The verdict on call id of set g, after the sets whose verdicts are prior. */
  ghost function Meaning(g: Graph, prior: map<string, Verdict>, oc: Outcomes, id: string): Verdict
    requires id in g
  {
    if !Resolved(g, prior.Keys, id) then Skipped(DependencyUnresolved)
    else if DependenciesSucceed(g, prior, oc, id) then Ran(oc(id))
    else Skipped(DependencyFailed)
  }

  ghost function SetMeaning(g: Graph, prior: map<string, Verdict>, oc: Outcomes): map<string, Verdict> {
    prior + map id | id in g :: Meaning(g, prior, oc, id)
  }

  ghost function SetsMeaning(sets: seq<Graph>, prior: map<string, Verdict>, oc: Outcomes): map<string, Verdict> {
    if sets == [] then prior else SetsMeaning(sets[1..], SetMeaning(sets[0], prior, oc), oc)
  }

  function DependencySet(c: Call): set<string> {
    set d | d in c.deps
  }

  ghost predicate IsGraphOf(g: Graph, calls: seq<Call>) {
    && (forall c :: c in calls ==> c.id in g && g[c.id] == DependencySet(c))
    && (forall id :: id in g ==> id in Ids(calls))
  }

  ghost function GraphOf(calls: seq<Call>): (g: Graph)
    requires UniqueIds(calls)
    ensures IsGraphOf(g, calls)
  {
    map c | c in calls :: c.id := DependencySet(c)
  }

  ghost function GroupGraphs(groups: seq<Group>): (r: seq<Graph>)
    requires forall i :: 0 <= i < |groups| ==> UniqueIds(groups[i].calls)
    ensures |r| == |groups|
    ensures forall i :: 0 <= i < |groups| ==> r[i] == GraphOf(groups[i].calls)
  {
    seq(|groups|, i requires 0 <= i < |groups| => GraphOf(groups[i].calls))
  }

  lemma {:induction false} GroupsHaveUniqueIds(groups: seq<Group>)
    requires UniqueIds(GroupCalls(groups))
    ensures forall i :: 0 <= i < |groups| ==> UniqueIds(groups[i].calls)
  {
    if groups != [] {
      UniqueIdsConcat(groups[0].calls, GroupCalls(groups[1..]));
      GroupsHaveUniqueIds(groups[1..]);
      forall i | 0 < i < |groups|
        ensures UniqueIds(groups[i].calls)
      {
        assert groups[i] == groups[1..][i - 1];
      }
    }
  }

  /** The sets of a plan in execution order: the ungrouped calls, then each group. */
  ghost function PlanSets(plan: Plan): seq<Graph>
    requires UniqueIds(Flatten(plan))
  {
    UniqueIdsConcat(plan.calls, GroupCalls(plan.groups));
    GroupsHaveUniqueIds(plan.groups);
    [GraphOf(plan.calls)] + GroupGraphs(plan.groups)
  }

  ghost function PlanMeaning(plan: Plan, oc: Outcomes): map<string, Verdict>
    requires UniqueIds(Flatten(plan))
  {
    SetsMeaning(PlanSets(plan), map[], oc)
  }

  /** Supporting facts about the two least sets. */

  lemma ResolvedStep(g: Graph, prior: set<string>, id: string)
    requires id in g
    requires forall d :: d in g[id] ==> d in prior || Resolved(g, prior, d)
    ensures Resolved(g, prior, id)
  {
    forall X | ResolutionClosed(g, prior, X)
      ensures id in X
    {
      assert g[id] <= prior + X;
    }
  }

  lemma SucceedsStep(g: Graph, prior: set<string>, oc: Outcomes, id: string)
    requires id in g && oc(id).Value?
    requires forall d :: d in g[id] ==> d in prior || Succeeds(g, prior, oc, d)
    ensures Succeeds(g, prior, oc, id)
  {
    forall X | SuccessClosed(g, prior, oc, X)
      ensures id in X
    {
      assert g[id] <= prior + X;
    }
  }

  /** Both least sets stay inside the call set. */
  lemma LeastSetsAreCalls(g: Graph, prior: set<string>, oc: Outcomes, id: string)
    ensures Resolved(g, prior, id) ==> id in g
    ensures Succeeds(g, prior, oc, id) ==> id in g
  {
    assert ResolutionClosed(g, prior, g.Keys);
    assert SuccessClosed(g, prior, oc, g.Keys);
  }

  /** Whatever succeeds is resolved. */
  lemma SucceedsIsResolved(g: Graph, prior: set<string>, all: set<string>, oc: Outcomes, id: string)
    requires prior <= all && Succeeds(g, prior, oc, id)
    ensures Resolved(g, all, id)
  {
    forall X | ResolutionClosed(g, all, X)
      ensures id in X
    {
      var Y := X * g.Keys;
      forall k | k in g && oc(k).Value? && g[k] <= prior + Y
        ensures k in Y
      {
        assert g[k] <= all + X;
      }
      assert SuccessClosed(g, prior, oc, Y);
    }
  }

  /**
   The least set is a fixpoint: a call succeeds exactly when it returns a value and each of its
   dependencies succeeds, in an earlier set or in its own.
   */
  lemma SucceedsIff(g: Graph, prior: map<string, Verdict>, oc: Outcomes, id: string)
    requires id in g
    ensures Succeeds(g, Successes(prior), oc, id) <==> oc(id).Value? && DependenciesSucceed(g, prior, oc, id)
    ensures Succeeds(g, Successes(prior), oc, id) <==> Success(Meaning(g, prior, oc, id))
  {
    var P := Successes(prior);
    if Succeeds(g, P, oc, id) {
      // The succeeding calls whose dependencies all succeed are already closed.
      var X := set k | k in g && oc(k).Value? && DependenciesSucceed(g, prior, oc, k);
      forall k | k in g && oc(k).Value? && g[k] <= P + X
        ensures k in X
      {
        forall d | d in g[k]
          ensures d in P || Succeeds(g, P, oc, d)
        {
          if d !in P {
            SucceedsStep(g, P, oc, d);
          }
        }
      }
      assert SuccessClosed(g, P, oc, X);
      SucceedsIsResolved(g, P, prior.Keys, oc, id);
    } else if oc(id).Value? && DependenciesSucceed(g, prior, oc, id) {
      SucceedsStep(g, P, oc, id);
    }
  }

  /** A call on a cycle, or downstream of one, is never resolved: it cannot be in a set it must itself support. */
  lemma UnfoundedIsUnresolved(g: Graph, prior: map<string, Verdict>, oc: Outcomes, loop: set<string>, id: string)
    requires id in loop && loop <= g.Keys
    requires forall k :: k in loop ==> exists d :: d in g[k] && d !in prior && d in loop
    ensures Meaning(g, prior, oc, id) == Skipped(DependencyUnresolved)
  {
    var X := g.Keys - loop;
    forall k | k in g && g[k] <= prior.Keys + X
      ensures k in X
    {
    }
    assert ResolutionClosed(g, prior.Keys, X);
  }

  /** The verdict that a call invoked by the executor must carry: it is invoked iff every dependency succeeds. */
  lemma InvokedIff(g: Graph, prior: map<string, Verdict>, oc: Outcomes, id: string)
    requires id in g
    ensures Meaning(g, prior, oc, id).Ran? <==> DependenciesSucceed(g, prior, oc, id)
  {
    if DependenciesSucceed(g, prior, oc, id) {
      forall d | d in g[id]
        ensures d in prior.Keys || Resolved(g, prior.Keys, d)
      {
        if d !in Successes(prior) {
          SucceedsIsResolved(g, Successes(prior), prior.Keys, oc, d);
        }
      }
      ResolvedStep(g, prior.Keys, id);
    }
  }

  ghost predicate SameNode(c: Call, c': Call) {
    c.id == c'.id && DependencySet(c) == DependencySet(c')
  }

  /** The verdict on a call, read off the verdicts m on its dependencies. */
  ghost function LocalVerdict(deps: set<string>, m: map<string, Verdict>, o: Outcome): Verdict {
    if forall d :: d in deps ==> d in m && Success(m[d]) then Ran(o) else Skipped(DependencyFailed)
  }

  ghost predicate Grounded(deps: set<string>, m: map<string, Verdict>, prior: map<string, Verdict>) {
    forall d :: d in deps ==> d in prior || (d in m && m[d] != Skipped(DependencyUnresolved))
  }

  /** m is the set's meaning, said one call at a time: the local rule, and nothing outside a closed set is resolved. */
  ghost predicate Solves(m: map<string, Verdict>, g: Graph, prior: map<string, Verdict>, oc: Outcomes) {
    && m.Keys == prior.Keys + g.Keys
    && (forall k :: k in prior ==> m[k] == prior[k])
    && (forall id {:trigger Grounded(g[id], m, prior)} :: id in g && Grounded(g[id], m, prior) ==>
        m[id] == LocalVerdict(g[id], m, oc(id)))
    && (forall X, id :: ResolutionClosed(g, prior.Keys, X) && id in g && id !in X ==>
        m[id] == Skipped(DependencyUnresolved))
  }

  lemma SetMeaningSolves(g: Graph, prior: map<string, Verdict>, oc: Outcomes)
    requires g.Keys !! prior.Keys
    ensures Solves(SetMeaning(g, prior, oc), g, prior, oc)
  {
    var m := SetMeaning(g, prior, oc);
    forall id | id in g && Grounded(g[id], m, prior)
      ensures m[id] == LocalVerdict(g[id], m, oc(id))
    {
      forall d | d in g[id]
        ensures d in prior || Resolved(g, prior.Keys, d)
        ensures d in m && (Success(m[d]) <==> d in Successes(prior) || Succeeds(g, Successes(prior), oc, d))
      {
        LeastSetsAreCalls(g, Successes(prior), oc, d);
        if d in g {
          SucceedsIff(g, prior, oc, d);
        }
      }
      ResolvedStep(g, prior.Keys, id);
    }
  }

  /** Two solutions agree on every call that either of them resolves. */
  lemma SolutionsAgree(m: map<string, Verdict>, s: map<string, Verdict>, g: Graph, prior: map<string, Verdict>,
                       oc: Outcomes)
    requires g.Keys !! prior.Keys && Solves(m, g, prior, oc) && Solves(s, g, prior, oc)
    ensures m == s
  {
    // On the calls where both agree and are resolved, closure propagates the agreement.
    var X := set id | id in g && s[id] == m[id] && m[id] != Skipped(DependencyUnresolved);
    forall id | id in g && g[id] <= prior.Keys + X
      ensures id in X
    {
      AgreementSpreads(m, s, g, prior, oc, X, id);
    }
    assert ResolutionClosed(g, prior.Keys, X);
  }

  lemma AgreementSpreads(m: map<string, Verdict>, s: map<string, Verdict>, g: Graph, prior: map<string, Verdict>,
                         oc: Outcomes,
                         X: set<string>, id: string)
    requires Solves(m, g, prior, oc) && Solves(s, g, prior, oc)
    requires forall x :: x in X ==> x in m && x in s && m[x] == s[x] && m[x] != Skipped(DependencyUnresolved)
    requires id in g && g[id] <= prior.Keys + X
    ensures s[id] == m[id] && m[id] != Skipped(DependencyUnresolved)
  {
    GroundedIn(g[id], m, prior, X);
    GroundedIn(g[id], s, prior, X);
    SameLocalVerdict(g[id], m, s, oc(id));
    hide ResolutionClosed, LocalVerdict, Grounded;
    assert m[id] == LocalVerdict(g[id], m, oc(id)) && s[id] == LocalVerdict(g[id], s, oc(id));
    NeverUnresolved(g[id], m, oc(id));
  }

  lemma GroundedIn(deps: set<string>, m: map<string, Verdict>, prior: map<string, Verdict>, X: set<string>)
    requires deps <= prior.Keys + X
    requires forall x :: x in X ==> x in m && m[x] != Skipped(DependencyUnresolved)
    ensures Grounded(deps, m, prior)
  {
  }

  lemma SameLocalVerdict(deps: set<string>, m: map<string, Verdict>, s: map<string, Verdict>, o: Outcome)
    requires forall d :: d in deps ==> d in m && d in s && m[d] == s[d]
    ensures LocalVerdict(deps, m, o) == LocalVerdict(deps, s, o)
  {
  }

  lemma NeverUnresolved(deps: set<string>, m: map<string, Verdict>, o: Outcome)
    ensures LocalVerdict(deps, m, o) != Skipped(DependencyUnresolved)
  {
  }

  /** The two rules leave no choice: whatever solves a set is its meaning. */
  lemma SolutionIsMeaning(m: map<string, Verdict>, g: Graph, prior: map<string, Verdict>, oc: Outcomes)
    requires g.Keys !! prior.Keys && Solves(m, g, prior, oc)
    ensures m == SetMeaning(g, prior, oc)
  {
    SetMeaningSolves(g, prior, oc);
    SolutionsAgree(m, SetMeaning(g, prior, oc), g, prior, oc);
  }

  /** Same ids with the same dependencies, in any order and with any tool and safety flags. */
  ghost predicate Relisted(a: seq<Call>, b: seq<Call>) {
    Covers(a, b) && Covers(b, a)
  }

  ghost predicate Covers(a: seq<Call>, b: seq<Call>) {
    forall c :: c in a ==> exists c' :: c' in b && SameNode(c, c')
  }

  lemma CoveredGraph(a: seq<Call>, b: seq<Call>, g: Graph, h: Graph)
    requires Covers(a, b)
    requires IsGraphOf(g, a) && IsGraphOf(h, b)
    ensures forall id :: id in g ==> id in h && h[id] == g[id]
  {
    forall id | id in g
      ensures id in h && h[id] == g[id]
    {
      var c :| c in a && c.id == id;
      var c' :| c' in b && SameNode(c, c');
    }
  }

  lemma RelistedGraph(a: seq<Call>, b: seq<Call>, g: Graph, h: Graph)
    requires Relisted(a, b) && IsGraphOf(g, a) && IsGraphOf(h, b)
    ensures g == h
  {
    hide Covers, IsGraphOf;
    CoveredGraph(a, b, g, h);
    CoveredGraph(b, a, h, g);
  }

  /**
   The meaning of a plan ignores every parallel and safety flag, every group name and the listing order inside each
   set.
   */
  lemma FlagsAndOrderIrrelevant(p: Plan, q: Plan, oc: Outcomes)
    requires UniqueIds(Flatten(p)) && UniqueIds(Flatten(q))
    requires Relisted(p.calls, q.calls) && |p.groups| == |q.groups|
    requires forall i :: 0 <= i < |p.groups| ==> Relisted(p.groups[i].calls, q.groups[i].calls)
    ensures PlanMeaning(p, oc) == PlanMeaning(q, oc)
  {
    UniqueIdsConcat(p.calls, GroupCalls(p.groups));
    UniqueIdsConcat(q.calls, GroupCalls(q.groups));
    GroupsHaveUniqueIds(p.groups);
    GroupsHaveUniqueIds(q.groups);
    RelistedGraph(p.calls, q.calls, GraphOf(p.calls), GraphOf(q.calls));
    forall i | 0 <= i < |p.groups|
      ensures GroupGraphs(p.groups)[i] == GroupGraphs(q.groups)[i]
    {
      RelistedGraph(p.groups[i].calls, q.groups[i].calls, GroupGraphs(p.groups)[i], GroupGraphs(q.groups)[i]);
    }
    assert PlanSets(p) == PlanSets(q);
  }
}
