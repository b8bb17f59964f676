/** Running a batch in waves: the executor's loops, proved against the wave-free meaning of the plan. */
module BatchExecutor {
  import opened Wrappers
  import opened Sequences
  import opened BatchPlans
  import opened BatchMeaning

  datatype Status = Succeeded | Failed | Skip | TimedOut | Cancelled

  /** The code of a result's error: the child's own code, or one of the executor's. */
  datatype ErrorCode =
    | ChildCode(code: string)
    | TIMEOUT
    | CANCELLED
    | DEPENDENCY_FAILED
    | DEPENDENCY_UNRESOLVED
    | NOT_EXECUTED

  datatype CallResult =
    CallResult(id: string, tool: string, status: Status, value: Option<string>, errorCode: Option<ErrorCode>)

  /**
   What a run cannot control. Each call is invoked at most once, so its outcome is fixed by its id.
   A tick is a stretch of code without an await; aborted(t) says whether the signal is up during it.
   When the abort arrives while a call is awaited, cancelWins says who wins the race.
   */
  datatype Environment = Environment(outcome: Outcomes, cancelWins: string -> bool, aborted: nat -> bool)

  /** One wave: the calls started together, and the tick they were started in. */
  datatype Wave = Wave(tick: nat, calls: seq<Call>)

  /** An abort signal never goes down again. */
  ghost predicate AbortSticks(env: Environment) {
    forall t, u :: 0 <= t <= u && env.aborted(t) ==> env.aborted(u)
  }

  function CancelledResult(c: Call): CallResult {
    CallResult(c.id, c.tool, Cancelled, None, Some(CANCELLED))
  }

  function StatusOf(v: Verdict): (s: Status)
    ensures s != Cancelled
    ensures s == Succeeded <==> Success(v)
  {
    match v
    case Ran(Value(_)) => Succeeded
    case Ran(Error(_)) => Failed
    case Ran(Timeout) => TimedOut
    case Skipped(_) => Skip
  }

  function ErrorCodeOf(v: Verdict): Option<ErrorCode> {
    match v
    case Ran(Value(_)) => None
    case Ran(Error(code)) => Some(ChildCode(code))
    case Ran(Timeout) => Some(TIMEOUT)
    case Skipped(DependencyFailed) => Some(DEPENDENCY_FAILED)
    case Skipped(DependencyUnresolved) => Some(DEPENDENCY_UNRESOLVED)
  }

  function ValueOf(v: Verdict): Option<string> {
    if v.Ran? && v.outcome.Value? then Some(v.outcome.value) else None
  }

  function VerdictResult(c: Call, v: Verdict): CallResult {
    CallResult(c.id, c.tool, StatusOf(v), ValueOf(v), ErrorCodeOf(v))
  }

  /**
   What a reader of the report sees of a call that was not cancelled: a value succeeds, an error fails under the
   child's own code, a timeout and each reason to skip have a status and a code of their own.
   */
  ghost predicate Tells(r: CallResult, c: Call, v: Verdict) {
    && r.id == c.id && r.tool == c.tool
    && (v.Ran? && v.outcome.Value? ==>
          r.status == Succeeded && r.value == Some(v.outcome.value) && r.errorCode == None)
    && (v.Ran? && v.outcome.Error? ==>
          r.status == Failed && r.value == None && r.errorCode == Some(ChildCode(v.outcome.code)))
    && (v.Ran? && v.outcome.Timeout? ==> r.status == TimedOut && r.value == None && r.errorCode == Some(TIMEOUT))
    && (v == Skipped(DependencyFailed) ==>
          r.status == Skip && r.value == None && r.errorCode == Some(DEPENDENCY_FAILED))
    && (v == Skipped(DependencyUnresolved) ==>
          r.status == Skip && r.value == None && r.errorCode == Some(DEPENDENCY_UNRESOLVED))
  }

  /** The result of a call the abort took: it carries neither a value nor a code of the call. */
  ghost predicate TellsCancelled(r: CallResult, c: Call) {
    r.id == c.id && r.tool == c.tool && r.status == Cancelled && r.value == None && r.errorCode == Some(CANCELLED)
  }

  /** The race between the invocation, its timeout and the abort signal, for a call started at tick. */
  function ExecuteOne(c: Call, env: Environment, tick: nat): (r: CallResult)
    ensures IsReport(c, Ran(env.outcome(c.id)), r)
    ensures TellsCancelled(r, c) || Tells(r, c, Ran(env.outcome(c.id)))
    ensures r.status == Cancelled ==> env.aborted(tick) || env.aborted(tick + 1)
    ensures !env.aborted(tick) && !env.aborted(tick + 1) ==> r.status != Cancelled
  {
    if env.aborted(tick) then CancelledResult(c)
    else if env.aborted(tick + 1) && env.cancelWins(c.id) then CancelledResult(c)
    else VerdictResult(c, Ran(env.outcome(c.id)))
  }

  predicate IsReady(c: Call, done: set<string>) {
    forall d :: d in c.deps ==> d in done
  }

  predicate IsBlocked(c: Call, results: map<string, CallResult>) {
    exists d :: d in c.deps && !(d in results && results[d].status == Succeeded)
  }

  predicate IsFirstUnsafe(calls: seq<Call>, i: nat)
    requires i < |calls|
  {
    !calls[i].parallelSafe && forall k :: 0 <= k < i ==> calls[k].parallelSafe
  }

  function FirstUnsafe(calls: seq<Call>): (i: nat)
    ensures i <= |calls|
    ensures i < |calls| ==> !calls[i].parallelSafe
    ensures forall k :: 0 <= k < i ==> calls[k].parallelSafe
  {
    if calls == [] || !calls[0].parallelSafe then 0 else 1 + FirstUnsafe(calls[1..])
  }

  function SelectWave(calls: seq<Call>, parallel: bool): (wave: seq<Call>)
    requires calls != []
    ensures wave != [] && forall c :: c in wave ==> c in calls
    ensures !parallel ==> wave == [calls[0]]
    ensures |wave| == 1 || (wave == calls && forall c :: c in wave ==> c.parallelSafe)
    ensures parallel && (forall c :: c in calls ==> c.parallelSafe) ==> wave == calls
    ensures forall i :: 0 <= i < |calls| && parallel && IsFirstUnsafe(calls, i) ==> wave == [calls[i]]
  {
    if !parallel then calls[..1]
    else
      var i := FirstUnsafe(calls);
      if i == |calls| then calls else [calls[i]]
  }

  lemma {:induction false} FilterUnique(p: Call -> bool, s: seq<Call>)
    requires UniqueIds(s)
    ensures UniqueIds(Filter(p, s))
  {
    if s != [] {
      assert s == [s[0]] + s[1..];
      UniqueIdsConcat([s[0]], s[1..]);
      FilterUnique(p, s[1..]);
      if p(s[0]) {
        UniqueIdsConcat([s[0]], Filter(p, s[1..]));
      }
    }
  }

  /** What holds of the results and the log of waves at every moment of every run. */
  ghost predicate RunOk(results: map<string, CallResult>, log: seq<Wave>, env: Environment, tick: nat) {
    && (forall i :: 0 <= i < |log| ==> WaveOk(log[i], env) && log[i].tick < tick)
    && (forall i, j :: 0 <= i < j < |log| ==> log[i].tick < log[j].tick && Ids(log[i].calls) !! Ids(log[j].calls))
    && (forall i, c :: 0 <= i < |log| && c in log[i].calls ==>
          c.id in results && results[c.id] == ExecuteOne(c, env, log[i].tick))
    && (forall i, c, d :: 0 <= i < |log| && c in log[i].calls && d in c.deps ==> SucceededBefore(results, log, i, d))
    && (forall k :: k in results && results[k].status in {Succeeded, Failed, TimedOut} ==>
          InvokedBefore(log, |log|, k))
  }

  /** A wave is one call, or calls that are all parallel safe, and it never starts once the abort is seen. */
  ghost predicate WaveOk(w: Wave, env: Environment) {
    && !env.aborted(w.tick)
    && w.calls != [] && UniqueIds(w.calls)
    && (|w.calls| == 1 || forall c :: c in w.calls ==> c.parallelSafe)
  }

  /** A wave of one call set: calls of that set, one alone unless the set is parallel. */
  ghost predicate WaveOf(w: Wave, calls: seq<Call>, parallel: bool) {
    (forall c :: c in w.calls ==> c in calls) && (parallel || |w.calls| == 1)
  }

  ghost predicate InvokedBefore(log: seq<Wave>, i: nat, id: string)
    requires i <= |log|
  {
    exists j :: 0 <= j < i && id in Ids(log[j].calls)
  }

  ghost predicate SucceededBefore(results: map<string, CallResult>, log: seq<Wave>, i: nat, d: string)
    requires i <= |log|
  {
    d in results && results[d].status == Succeeded && InvokedBefore(log, i, d)
  }

  ghost predicate Agrees(r: CallResult, v: Verdict) {
    r.status == StatusOf(v) && r.value == ValueOf(v) && r.errorCode == ErrorCodeOf(v)
  }

  /** Each result is either a cancellation or exactly the verdict, and a cancellation is owed to a visible abort. */
  ghost predicate Faithful(results: map<string, CallResult>, meaning: map<string, Verdict>, env: Environment,
                           tick: nat) {
    && results.Keys == meaning.Keys
    && (forall k :: k in results ==> results[k].status == Cancelled || Agrees(results[k], meaning[k]))
    && (forall k :: k in results && results[k].status == Cancelled ==> env.aborted(tick))
  }

  /** Each of these calls ended with its cancellation or with its verdict. */
  ghost predicate Reported(results: map<string, CallResult>, calls: seq<Call>, m: map<string, Verdict>) {
    forall c :: c in calls ==> c.id in results && c.id in m && IsReport(c, m[c.id], results[c.id])
  }

  ghost predicate IsReport(c: Call, v: Verdict, r: CallResult) {
    r == CancelledResult(c) || r == VerdictResult(c, v)
  }

  /** Read in its fields, a report is the cancellation or tells the verdict. */
  lemma ReportTells(c: Call, v: Verdict, r: CallResult)
    requires IsReport(c, v, r)
    ensures TellsCancelled(r, c) || Tells(r, c, v)
    ensures r.status == Cancelled <==> TellsCancelled(r, c)
  {
  }

  /** r is results with f's result recorded for each of these calls. */
  ghost predicate Recorded(calls: seq<Call>, f: Call -> CallResult, results: map<string, CallResult>,
                           r: map<string, CallResult>) {
    && r.Keys == results.Keys + Ids(calls)
    && (forall c :: c in calls ==> r[c.id] == f(c))
    && (forall k :: k in results && k !in Ids(calls) ==> r[k] == results[k])
  }

  lemma RecordedOneMore(calls: seq<Call>, c: Call, f: Call -> CallResult, results: map<string, CallResult>,
                        r: map<string, CallResult>)
    requires Recorded(calls, f, results, r) && UniqueIds(calls + [c])
    ensures Recorded(calls + [c], f, results, r[c.id := f(c)])
  {
    UniqueIdsConcat(calls, [c]);
    hide UniqueIds;
  }

  method RecordAll(calls: seq<Call>, f: Call -> CallResult, results: map<string, CallResult>)
    returns (r: map<string, CallResult>)
    requires UniqueIds(calls)
    ensures r.Keys == results.Keys + Ids(calls)
    ensures forall c :: c in calls ==> r[c.id] == f(c)
    ensures forall k :: k in results && k !in Ids(calls) ==> r[k] == results[k]
  {
    r := results;
    for i := 0 to |calls|
      invariant Recorded(calls[..i], f, results, r)
    {
      assert calls[..i + 1] == calls[..i] + [calls[i]];
      RecordedOneMore(calls[..i], calls[i], f, results, r);
      r := r[calls[i].id := f(calls[i])];
    }
    assert calls[..|calls|] == calls;
  }

  lemma RunOkLater(results: map<string, CallResult>, log: seq<Wave>, env: Environment, tick: nat,
                   results': map<string, CallResult>, tick': nat)
    requires RunOk(results, log, env, tick) && tick <= tick'
    requires results.Keys <= results'.Keys
    requires forall k :: k in results ==> results'[k] == results[k]
    requires forall k :: k in results' && k !in results ==> results'[k].status in {Skip, Cancelled}
    ensures RunOk(results', log, env, tick')
  {
    hide WaveOk, InvokedBefore, ExecuteOne;
    forall i, c, d | 0 <= i < |log| && c in log[i].calls && d in c.deps
      ensures SucceededBefore(results', log, i, d)
    {
      assert SucceededBefore(results, log, i, d);
    }
  }

  /** Starting a wave of runnable calls and recording how they settle keeps the log in order. */
  lemma RunOkWave(results: map<string, CallResult>, log: seq<Wave>, env: Environment, w: Wave,
                  results': map<string, CallResult>)
    requires RunOk(results, log, env, w.tick) && WaveOk(w, env)
    requires Ids(w.calls) !! results.Keys
    requires forall c :: c in w.calls ==> IsReady(c, results.Keys) && !IsBlocked(c, results)
    requires results'.Keys == results.Keys + Ids(w.calls)
    requires forall k :: k in results ==> results'[k] == results[k]
    requires forall c :: c in w.calls ==> results'[c.id] == ExecuteOne(c, env, w.tick)
    ensures RunOk(results', log + [w], env, w.tick + 1)
  {
    var log' := log + [w];
    forall i, c, d | 0 <= i < |log'| && c in log'[i].calls && d in c.deps
      ensures SucceededBefore(results', log', i, d)
    {
      if i < |log| {
        assert SucceededBefore(results, log, i, d);
        var j :| 0 <= j < i && d in Ids(log[j].calls);
        assert log'[j] == log[j];
      } else {
        assert InvokedBefore(log, |log|, d);
        var j :| 0 <= j < |log| && d in Ids(log[j].calls);
        assert log'[j] == log[j];
      }
    }
    forall k | k in results' && results'[k].status in {Succeeded, Failed, TimedOut}
      ensures InvokedBefore(log', |log'|, k)
    {
      if k in results {
        assert InvokedBefore(log, |log|, k);
        var j :| 0 <= j < |log| && k in Ids(log[j].calls);
        assert log'[j] == log[j];
      } else {
        assert k in Ids(log'[|log|].calls);
      }
    }
    forall i, j | 0 <= i < j < |log'|
      ensures log'[i].tick < log'[j].tick && Ids(log'[i].calls) !! Ids(log'[j].calls)
    {
      if j == |log| {
        forall c | c in log[i].calls
          ensures c.id in results
        {
        }
      }
    }
  }

  function Without(calls: seq<Call>, gone: seq<Call>): (r: seq<Call>)
    ensures forall c :: c in r <==> c in calls && c !in gone
  {
    Filter(c => c !in gone, calls)
  }

  lemma WithoutFacts(calls: seq<Call>, gone: seq<Call>)
    requires UniqueIds(calls) && forall c :: c in gone ==> c in calls
    ensures UniqueIds(Without(calls, gone))
    ensures gone != [] ==> |Without(calls, gone)| < |calls|
  {
    FilterUnique(c => c !in gone, calls);
    if gone != [] {
      FilterShrinks(c => c !in gone, calls, gone[0]);
    }
  }

  /** What stays fixed while one call set runs: its calls, the results before it, and what all of them mean. */
  datatype Frame =
    Frame(calls: seq<Call>, graph: Graph, prior: map<string, CallResult>, before: map<string, Verdict>,
          m: map<string, Verdict>, env: Environment)
  {
    ghost predicate Good() {
      && UniqueIds(calls) && IsGraphOf(graph, calls) && graph.Keys !! prior.Keys
      && prior.Keys == before.Keys
      && (forall k :: k in prior ==> prior[k].status == Cancelled || Agrees(prior[k], before[k]))
      && Solves(m, graph, before, env.outcome)
      && AbortSticks(env)
    }

    /** A done call is resolved, and its result is its verdict unless the abort took it. */
    ghost predicate Settled(c: Call, results: map<string, CallResult>) {
      && c.id in m && c.id in results
      && m[c.id] != Skipped(DependencyUnresolved)
      && IsReport(c, m[c.id], results[c.id])
    }

    /** Done calls are settled for good, the others are pending. */
    ghost predicate Progress(pending: seq<Call>, results: map<string, CallResult>) {
      && UniqueIds(pending)
      && (forall c :: c in pending ==> c in calls && c.id !in results)
      && (forall k :: k in prior ==> k in results && results[k] == prior[k])
      && (forall k :: k in results ==> k in prior || k in Ids(calls))
      && (forall c :: c in calls && c !in pending ==> Settled(c, results))
    }

    ghost predicate Finished(results: map<string, CallResult>, tick: nat) {
      && Faithful(results, m, env, tick) && Reported(results, calls, m)
      && (forall k :: k in prior ==> k in results && results[k] == prior[k])
    }

    /** On uncancelled results, a dependency with a result succeeded exactly when its verdict says so. */
    lemma DependencyVerdict(pending: seq<Call>, results: map<string, CallResult>, d: string)
      requires Good() && Progress(pending, results) && Untouched(results)
      requires d in results
      ensures d in m && (results[d].status == Succeeded <==> Success(m[d]))
      ensures d in before || m[d] != Skipped(DependencyUnresolved)
    {
      if d in prior {
        assert Agrees(prior[d], before[d]);
      } else {
        var e :| e in calls && e.id == d;
        assert e !in pending;
        assert Settled(e, results);
      }
    }

    /** On uncancelled results, a ready call is blocked exactly when its verdict is to be skipped. */
    lemma ReadyVerdict(pending: seq<Call>, results: map<string, CallResult>, c: Call)
      requires Good() && Progress(pending, results) && Untouched(results)
      requires c in calls && IsReady(c, results.Keys)
      ensures m[c.id] == if IsBlocked(c, results) then Skipped(DependencyFailed) else Ran(env.outcome(c.id))
    {
      forall d | d in graph[c.id]
        ensures d in m && (results[d].status == Succeeded <==> Success(m[d]))
        ensures d in before || m[d] != Skipped(DependencyUnresolved)
      {
        DependencyVerdict(pending, results, d);
      }
      assert Grounded(graph[c.id], m, before);
    }

    /** When nothing is ready, no pending call is resolved: the calls with a result are closed. */
    lemma StuckVerdict(pending: seq<Call>, results: map<string, CallResult>, c: Call)
      requires Good() && Progress(pending, results)
      requires forall e :: e in pending ==> !IsReady(e, results.Keys)
      requires c in pending
      ensures m[c.id] == Skipped(DependencyUnresolved)
    {
      forall id | id in graph && graph[id] <= before.Keys + results.Keys
        ensures id in results.Keys
      {
        var e :| e in calls && e.id == id;
        assert forall d :: d in e.deps ==> d in graph[id];
        assert e !in pending;
        assert Settled(e, results);
      }
      assert ResolutionClosed(graph, before.Keys, results.Keys);
    }

    /** Settling some pending calls for good keeps the picture of the set right. */
    lemma ProgressAfter(pending: seq<Call>, results: map<string, CallResult>, gone: seq<Call>, results': map<string,
                        CallResult>)
      requires Progress(pending, results)
      requires forall c :: c in gone ==> c in pending && Settled(c, results')
      requires Extends(results, gone, results')
      ensures Progress(Without(pending, gone), results')
    {
      WithoutFacts(pending, gone);
      forall c | c in calls && c !in Without(pending, gone)
        ensures Settled(c, results')
      {
        if c !in pending {
          assert Settled(c, results);
        }
      }
      forall c, e | c in Without(pending, gone) && e in gone
        ensures e.id != c.id
      {
        if e.id == c.id {
          UniqueIdsInject(pending, c, e);
        }
      }
    }

    /** Once every pending call got a cancellation or its own verdict, the whole set is done. */
    lemma FinishedAfter(pending: seq<Call>, results: map<string, CallResult>, results': map<string, CallResult>,
                        tick: nat)
      requires Good() && Progress(pending, results)
      requires Extends(results, pending, results')
      requires forall c :: c in pending ==> c.id in m && IsReport(c, m[c.id], results'[c.id])
      requires forall k :: k in results' && results'[k].status == Cancelled ==> env.aborted(tick)
      ensures Finished(results', tick)
    {
      AllReported(pending, results, results');
      hide Progress, Settled;
      AllFaithful(results', tick);
    }

    lemma AllReported(pending: seq<Call>, results: map<string, CallResult>, results': map<string, CallResult>)
      requires Progress(pending, results) && Extends(results, pending, results')
      requires forall c :: c in pending ==> c.id in m && IsReport(c, m[c.id], results'[c.id])
      ensures Reported(results', calls, m) && results'.Keys == prior.Keys + Ids(calls)
      ensures forall k :: k in prior ==> k in results' && results'[k] == prior[k]
    {
      forall c | c in calls
        ensures c.id in results' && c.id in m && IsReport(c, m[c.id], results'[c.id])
      {
        if c !in pending {
          assert Settled(c, results);
        }
      }
    }

    lemma AllFaithful(results': map<string, CallResult>, tick: nat)
      requires Good() && Reported(results', calls, m) && results'.Keys == prior.Keys + Ids(calls)
      requires forall k :: k in prior ==> k in results' && results'[k] == prior[k]
      requires forall k :: k in results' && results'[k].status == Cancelled ==> env.aborted(tick)
      ensures Faithful(results', m, env, tick)
    {
      forall k | k in results'
        ensures k in m && (results'[k].status == Cancelled || Agrees(results'[k], m[k]))
      {
        if k in Ids(calls) {
          var c :| c in calls && c.id == k;
        }
      }
    }
  }

  ghost predicate Untouched(results: map<string, CallResult>) {
    forall k :: k in results ==> results[k].status != Cancelled
  }

  /** results' adds results for exactly these calls. */
  ghost predicate Extends(results: map<string, CallResult>, calls: seq<Call>, results': map<string, CallResult>) {
    && results'.Keys == results.Keys + Ids(calls)
    && (forall k :: k in results ==> results'[k] == results[k])
  }

  /** The calls of pending whose dependencies all have results, split into the blocked and the runnable ones. */
  method SplitReady(pending: seq<Call>, results: map<string, CallResult>)
    returns (ready: seq<Call>, blocked: seq<Call>, runnable: seq<Call>)
    requires UniqueIds(pending)
    ensures UniqueIds(blocked) && UniqueIds(runnable)
    ensures forall c :: c in ready <==> c in pending && IsReady(c, results.Keys)
    ensures forall c :: c in blocked <==> c in ready && IsBlocked(c, results)
    ensures forall c :: c in runnable <==> c in ready && !IsBlocked(c, results)
    ensures Sublist(ready, pending) && Sublist(blocked, ready) && Sublist(runnable, ready)
  {
    ready := Filter(c => IsReady(c, results.Keys), pending);
    FilterUnique(c => IsReady(c, results.Keys), pending);
    FilterKeepsOrder(c => IsReady(c, results.Keys), pending);
    blocked := Filter(c => IsBlocked(c, results), ready);
    FilterUnique(c => IsBlocked(c, results), ready);
    FilterKeepsOrder(c => IsBlocked(c, results), ready);
    runnable := Without(ready, blocked);
    WithoutFacts(ready, blocked);
    FilterKeepsOrder(c => c !in blocked, ready);
  }

  /** The abort was seen at the head of the loop: everything pending is cancelled. */
  method CancelPending(pending: seq<Call>, results: map<string, CallResult>, ghost log: seq<Wave>, ghost tick: nat,
                       ghost fr: Frame)
    returns (results': map<string, CallResult>)
    requires fr.Good() && fr.Progress(pending, results) && RunOk(results, log, fr.env, tick)
    requires fr.env.aborted(tick)
    ensures RunOk(results', log, fr.env, tick) && fr.Finished(results', tick)
  {
    results' := RecordAll(pending, c => CancelledResult(c), results);
    RunOkLater(results, log, fr.env, tick, results', tick);
    fr.FinishedAfter(pending, results, results', tick);
  }

  /** Nothing is ready: everything pending is skipped as unresolved. */
  method SkipUnresolved(pending: seq<Call>, results: map<string, CallResult>, ghost log: seq<Wave>, ghost tick: nat,
                        ghost fr: Frame)
    returns (results': map<string, CallResult>)
    requires fr.Good() && fr.Progress(pending, results) && RunOk(results, log, fr.env, tick)
    requires Untouched(results)
    requires forall c :: c in pending ==> !IsReady(c, results.Keys)
    ensures RunOk(results', log, fr.env, tick) && fr.Finished(results', tick)
  {
    forall c | c in pending
      ensures fr.m[c.id] == Skipped(DependencyUnresolved)
    {
      fr.StuckVerdict(pending, results, c);
    }
    results' := RecordAll(pending, c => VerdictResult(c, Skipped(DependencyUnresolved)), results);
    RunOkLater(results, log, fr.env, tick, results', tick);
    fr.FinishedAfter(pending, results, results', tick);
  }

  /** Ready calls with a dependency that did not succeed are skipped. */
  method SkipBlocked(pending: seq<Call>, blocked: seq<Call>, results: map<string, CallResult>,
                     ghost log: seq<Wave>, ghost tick: nat, ghost fr: Frame)
    returns (results': map<string, CallResult>)
    requires fr.Good() && fr.Progress(pending, results) && RunOk(results, log, fr.env, tick)
    requires Untouched(results) && UniqueIds(blocked)
    requires forall c :: c in blocked ==> c in pending && fr.m[c.id] == Skipped(DependencyFailed)
    ensures Extends(results, blocked, results') && Untouched(results')
    ensures RunOk(results', log, fr.env, tick) && fr.Progress(Without(pending, blocked), results')
  {
    results' := RecordAll(blocked, c => VerdictResult(c, Skipped(DependencyFailed)), results);
    RunOkLater(results, log, fr.env, tick, results', tick);
    fr.ProgressAfter(pending, results, blocked, results');
  }

  /** Starts all calls of a wave in one tick and records how each of them settled. */
  method RunWave(pending: seq<Call>, wave: seq<Call>, results: map<string, CallResult>, log: seq<Wave>, tick: nat,
                 env: Environment, ghost fr: Frame)
    returns (results': map<string, CallResult>, log': seq<Wave>)
    requires fr.Good() && fr.env == env && fr.Progress(pending, results) && RunOk(results, log, env, tick)
    requires Untouched(results) && WaveOk(Wave(tick, wave), env)
    requires forall c :: c in wave ==> c in pending && IsReady(c, results.Keys) && !IsBlocked(c, results)
    requires forall c :: c in wave ==> fr.m[c.id] == Ran(env.outcome(c.id))
    ensures log' == log + [Wave(tick, wave)]
    ensures RunOk(results', log', env, tick + 1) && fr.Progress(Without(pending, wave), results')
    ensures forall k :: k in results' && results'[k].status == Cancelled ==> env.aborted(tick + 1)
  {
    results' := RecordAll(wave, c => ExecuteOne(c, env, tick), results);
    log' := log + [Wave(tick, wave)];
    RunOkWave(results, log, env, Wave(tick, wave), results');
    fr.ProgressAfter(pending, results, wave, results');
  }

  /** What holds each time the loop of a call set is entered. */
  ghost predicate AtLoopHead(fr: Frame, pending: seq<Call>, results: map<string, CallResult>, log: seq<Wave>,
                             tick: nat) {
    && fr.Good() && fr.Progress(pending, results) && RunOk(results, log, fr.env, tick)
    && (forall k :: k in results && results[k].status == Cancelled ==> fr.env.aborted(tick))
  }

  /** One pass of the loop while the abort is not seen and something is ready: skip the blocked calls, run one wave. */
  method Round(ready: seq<Call>, blocked: seq<Call>, runnable: seq<Call>, parallel: bool, env: Environment,
               pending: seq<Call>, results: map<string, CallResult>, log: seq<Wave>, tick: nat, ghost fr: Frame)
    returns (pending': seq<Call>, results': map<string, CallResult>, log': seq<Wave>, tick': nat)
    requires AtLoopHead(fr, pending, results, log, tick) && fr.env == env && !env.aborted(tick)
    requires UniqueIds(blocked) && UniqueIds(runnable) && |ready| > 0
    requires forall c :: c in ready <==> c in pending && IsReady(c, results.Keys)
    requires forall c :: c in blocked <==> c in ready && IsBlocked(c, results)
    requires forall c :: c in runnable <==> c in ready && !IsBlocked(c, results)
    ensures AtLoopHead(fr, pending', results', log', tick') && |pending'| < |pending|
    ensures if |runnable| == 0 then log' == log && tick' == tick
            else tick' == tick + 1 && log' == log + [Wave(tick, SelectWave(runnable, parallel))]
  {
    forall c | c in ready
      ensures fr.m[c.id] == if c in blocked then Skipped(DependencyFailed) else Ran(env.outcome(c.id))
    {
      fr.ReadyVerdict(pending, results, c);
    }
    results' := SkipBlocked(pending, blocked, results, log, tick, fr);
    WithoutFacts(pending, blocked);
    pending' := Without(pending, blocked);
    log', tick' := log, tick;
    if |runnable| == 0 {
      assert ready[0] in blocked;
      return;
    }

    var wave := SelectWave(runnable, parallel);
    StillRunnable(results, blocked, results', runnable);
    var rest := pending';
    results', log' := RunWave(rest, wave, results', log, tick, env, fr);
    WithoutFacts(rest, wave);
    pending' := Without(rest, wave);
    tick' := tick + 1;
  }

  /** One call set, wave by wave, until nothing is pending, nothing can become ready, or the abort is seen. */
  method ExecuteSet(calls: seq<Call>, parallel: bool, prior: map<string, CallResult>, env: Environment,
                    log0: seq<Wave>, tick0: nat, ghost fr: Frame)
    returns (results: map<string, CallResult>, log: seq<Wave>, tick: nat)
    requires fr.Good() && fr.calls == calls && fr.prior == prior && fr.env == env
    requires RunOk(prior, log0, env, tick0) && Faithful(prior, fr.before, env, tick0)
    ensures tick0 <= tick && log0 <= log
    ensures RunOk(results, log, env, tick) && fr.Finished(results, tick)
    ensures forall i :: |log0| <= i < |log| ==> WaveOf(log[i], calls, parallel)
  {
    var pending := calls;
    results, log, tick := prior, log0, tick0;
    while |pending| > 0
      invariant tick0 <= tick && log0 <= log
      invariant AtLoopHead(fr, pending, results, log, tick)
      invariant forall i :: |log0| <= i < |log| ==> WaveOf(log[i], calls, parallel)
      decreases |pending|
    {
      if env.aborted(tick) {
        results := CancelPending(pending, results, log, tick, fr);
        return;
      }
      var ready, blocked, runnable := SplitReady(pending, results);
      if |ready| == 0 {
        assert forall c :: c in pending ==> c !in ready;
        results := SkipUnresolved(pending, results, log, tick, fr);
        return;
      }
      pending, results, log, tick := Round(ready, blocked, runnable, parallel, env, pending, results, log, tick, fr);
    }
    fr.FinishedAfter(pending, results, results, tick);
  }

  /** Skipping the blocked calls takes nothing away from the runnable ones. */
  lemma StillRunnable(start: map<string, CallResult>, blocked: seq<Call>, results: map<string, CallResult>,
                      runnable: seq<Call>)
    requires Extends(start, blocked, results)
    requires forall c :: c in runnable ==> IsReady(c, start.Keys) && !IsBlocked(c, start)
    ensures forall c :: c in runnable ==> IsReady(c, results.Keys) && !IsBlocked(c, results)
  {
  }
}
