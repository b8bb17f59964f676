/** What the answers from outside decide: how each start and stop ends, read off the actions of the run. */
module McpLifecycleHistory {
  import opened Wrappers
  import opened TextLines
  import opened McpLifecycle
  import opened McpLifecycleRuns

  /** What has been heard of a start when it is in this phase. */
  ghost predicate StartHeard(run: seq<Action>, op: nat, phase: StartPhase) {
    var found, missing := WorkspaceChecked(op, true) in run, WorkspaceChecked(op, false) in run;
    var served, failed := ServerStarted(op) in run, StarterFailed(op) in run;
    match phase
    case CheckingWorkspace => !found && !missing && !served && !failed
    case AwaitingServer => found && !missing && !served && !failed
    case ServerReady(_) => found && !missing && served && !failed
    case StartSettled(outcome) => StartEnded(found, missing, served, failed, outcome)
    case StartReported(outcome) => StartEnded(found, missing, served, failed, outcome)
  }

  /** A start ends well with its workspace found and its server there, and badly at the first of them missing. */
  predicate StartEnded(found: bool, missing: bool, served: bool, failed: bool, outcome: Outcome) {
    if outcome.Resolved? then found && !missing && served && !failed
    else !served && found == failed && missing == !found
  }

  /** What has been heard of a stop. */
  ghost predicate StopHeard(run: seq<Action>, op: nat, phase: StopOperation) {
    var closed := CloseSucceeded(op) in run;
    var refused := CloseFailed(op, true) in run || CloseFailed(op, false) in run;
    match phase
    case AwaitingStart(_) => !closed && !refused
    case Closing(_) => !closed && !refused
    case Closed(_) => closed && !refused
    case StopSettled(outcome) => outcome.Rejected? == refused && !(closed && refused)
    case StopReported(outcome) => outcome.Rejected? == refused && !(closed && refused)
  }

  /** An answer from outside is for an operation that was begun. */
  predicate ForBegun(s: State, a: Action) {
    match a
    case WorkspaceChecked(op, _) => op < |s.starts|
    case ServerStarted(op) => op < |s.starts|
    case StarterFailed(op) => op < |s.starts|
    case CloseSucceeded(op) => op < |s.stops|
    case CloseFailed(op, _) => op < |s.stops|
    case _ => true
  }

  ghost predicate StartsHeard(run: seq<Action>, s: State) {
    forall op :: 0 <= op < |s.starts| ==> StartHeard(run, op, s.starts[op].phase)
  }

  ghost predicate StopsHeard(run: seq<Action>, s: State) {
    forall op :: 0 <= op < |s.stops| ==> StopHeard(run, op, s.stops[op])
  }

  ghost predicate AllBegun(run: seq<Action>, s: State) {
    forall a :: a in run ==> ForBegun(s, a)
  }

  lemma BegunGrows(run: seq<Action>, s: State, a: Action)
    requires AllBegun(run, s) && Enabled(s, a)
    ensures AllBegun(run + [a], After(s, a))
  {
    StepGrows(s, a);
    assert ForBegun(s, a);
    hide Enabled, After;
  }

  /** The phases of the starts after one action: a step of the one it names, and perhaps a new one. */
  lemma StartSteps(s: State, a: Action, op: nat)
    requires Enabled(s, a) && op < |After(s, a).starts|
    ensures op >= |s.starts| ==> op == |s.starts| && After(s, a).starts[op].phase.CheckingWorkspace?
    ensures op >= |s.starts| ==> a.CallStart? || a.WakeWaiting?
    ensures op < |s.starts| ==>
              var before, after := s.starts[op].phase, After(s, a).starts[op].phase;
              match a
              case WorkspaceChecked(o, found) =>
                if o != op then after == before
                else before.CheckingWorkspace? && after == if found then AwaitingServer else StartSettled(Rejected)
              case ServerStarted(o) =>
                if o != op then after == before else before.AwaitingServer? && after.ServerReady?
              case StarterFailed(o) =>
                if o != op then after == before else before.AwaitingServer? && after == StartSettled(Rejected)
              case InstallHandle(o) =>
                if o != op then after == before
                else before.ServerReady? && after.StartSettled? && after.outcome.Resolved?
              case ReportStart(o) =>
                if o != op then after == before
                else before.StartSettled? && after == StartReported(before.outcome)
              case _ => after == before
  {
    hide StopIn, StopIsReported, CloseOrSettle, SetAnswer, AnswerTo;
  }

  lemma StartHeardStep(run: seq<Action>, s: State, a: Action, op: nat)
    requires op < |s.starts| && StartHeard(run, op, s.starts[op].phase) && Enabled(s, a) && op < |After(s, a).starts|
    ensures StartHeard(run + [a], op, After(s, a).starts[op].phase)
  {
    StartSteps(s, a, op);
    hide After, Enabled;
    HeardMore(run, a, op);
  }

  lemma NewStartHeard(run: seq<Action>, s: State, a: Action)
    requires AllBegun(run, s) && Enabled(s, a) && |s.starts| < |After(s, a).starts|
    ensures StartHeard(run + [a], |s.starts|, After(s, a).starts[|s.starts|].phase)
  {
    StartSteps(s, a, |s.starts|);
    hide After, Enabled;
    HeardMore(run, a, |s.starts|);
    NothingHeardYet(run, s, |s.starts|);
  }

  lemma StartsHeardStep(run: seq<Action>, s: State, a: Action)
    requires StartsHeard(run, s) && AllBegun(run, s) && Enabled(s, a)
    ensures StartsHeard(run + [a], After(s, a))
  {
    hide StartHeard, Enabled, AllBegun;
    forall op | 0 <= op < |After(s, a).starts|
      ensures StartHeard(run + [a], op, After(s, a).starts[op].phase)
    {
      StartSteps(s, a, op);
      hide After;
      if op < |s.starts| {
        StartHeardStep(run, s, a, op);
      } else {
        NewStartHeard(run, s, a);
      }
    }
  }

  lemma HeardMore(run: seq<Action>, a: Action, op: nat)
    ensures forall b :: b in run + [a] <==> b in run || b == a
  {
  }

  lemma NothingHeardYet(run: seq<Action>, s: State, op: nat)
    requires AllBegun(run, s) && op >= |s.starts|
    ensures forall found :: WorkspaceChecked(op, found) !in run
    ensures ServerStarted(op) !in run && StarterFailed(op) !in run
  {
    assert forall found :: !ForBegun(s, WorkspaceChecked(op, found));
    assert !ForBegun(s, ServerStarted(op)) && !ForBegun(s, StarterFailed(op));
  }

  lemma StopSteps(s: State, a: Action, op: nat)
    requires Enabled(s, a) && op < |After(s, a).stops|
    ensures op >= |s.stops| ==> op == |s.stops| && (a.CallStop? || a.CallRestart?)
    ensures op >= |s.stops| ==>
              var first := After(s, a).stops[op];
              first.AwaitingStart? || first.Closing? || (first.StopSettled? && first.outcome.Resolved?)
    ensures op < |s.stops| ==>
              var before, after := s.stops[op], After(s, a).stops[op];
              match a
              case ResumeStop(o) =>
                if o != op then after == before
                else before.AwaitingStart? && (after.Closing? || (after.StopSettled? && after.outcome.Resolved?))
              case CloseSucceeded(o) =>
                if o != op then after == before else before.Closing? && after.Closed?
              case CloseFailed(o, _) =>
                if o != op then after == before else before.Closing? && after == StopSettled(Rejected)
              case ClearHandle(o) =>
                if o != op then after == before
                else before.Closed? && after.StopSettled? && after.outcome.Resolved?
              case ReportStop(o) =>
                if o != op then after == before
                else before.StopSettled? && after == StopReported(before.outcome)
              case _ => after == before
  {
    hide StartIn, SetAnswer, AnswerTo;
  }

  lemma StopHeardStep(run: seq<Action>, s: State, a: Action, op: nat)
    requires op < |s.stops| && StopHeard(run, op, s.stops[op]) && Enabled(s, a) && op < |After(s, a).stops|
    ensures StopHeard(run + [a], op, After(s, a).stops[op])
  {
    StopSteps(s, a, op);
    hide After, Enabled;
    HeardMore(run, a, op);
  }

  lemma NewStopHeard(run: seq<Action>, s: State, a: Action)
    requires AllBegun(run, s) && Enabled(s, a) && |s.stops| < |After(s, a).stops|
    ensures StopHeard(run + [a], |s.stops|, After(s, a).stops[|s.stops|])
  {
    var op := |s.stops|;
    StopSteps(s, a, op);
    hide After, Enabled;
    HeardMore(run, a, op);
    assert forall open :: !ForBegun(s, CloseFailed(op, open));
    assert !ForBegun(s, CloseSucceeded(op));
  }

  lemma StopsHeardStep(run: seq<Action>, s: State, a: Action)
    requires StopsHeard(run, s) && AllBegun(run, s) && Enabled(s, a)
    ensures StopsHeard(run + [a], After(s, a))
  {
    hide StopHeard, Enabled, AllBegun;
    forall op | 0 <= op < |After(s, a).stops|
      ensures StopHeard(run + [a], op, After(s, a).stops[op])
    {
      StopSteps(s, a, op);
      hide After;
      if op < |s.stops| {
        StopHeardStep(run, s, a, op);
      } else {
        NewStopHeard(run, s, a);
      }
    }
  }

  lemma {:induction false} HeardAlong(before: seq<Action>, s: State, actions: seq<Action>)
    requires StartsHeard(before, s) && StopsHeard(before, s) && AllBegun(before, s) && Possible(s, actions)
    ensures var t := Replay(s, actions);
            StartsHeard(before + actions, t) && StopsHeard(before + actions, t) && AllBegun(before + actions, t)
    decreases |actions|
  {
    hide StartsHeard, StopsHeard, AllBegun, Enabled, After;
    if actions == [] {
      assert before + actions == before;
    } else {
      StartsHeardStep(before, s, actions[0]);
      StopsHeardStep(before, s, actions[0]);
      BegunGrows(before, s, actions[0]);
      HeardAlong(before + [actions[0]], After(s, actions[0]), actions[1..]);
      assert before + actions == before + [actions[0]] + actions[1..];
    }
  }

  lemma HeardFromStart(actions: seq<Action>)
    requires Possible(NEW, actions)
    ensures var t := Replay(NEW, actions);
            StartsHeard(actions, t) && StopsHeard(actions, t) && AllBegun(actions, t)
  {
    assert StartsHeard([], NEW) && StopsHeard([], NEW) && AllBegun([], NEW);
    hide *;
    HeardAlong([], NEW, actions);
    assert [] + actions == actions;
  }

  lemma {:induction false} PossibleUpTo(s: State, actions: seq<Action>, k: nat)
    requires Possible(s, actions) && k < |actions|
    ensures Possible(s, actions[..k]) && Enabled(Replay(s, actions[..k]), actions[k])
    decreases k
  {
    hide Enabled, After;
    if k > 0 {
      PossibleUpTo(After(s, actions[0]), actions[1..], k - 1);
      assert actions[..k][1..] == actions[1..][..k - 1];
    }
  }

  /** A server is only ever built for a start whose own workspace was found to exist, earlier in the run. */
  lemma ServerOnlyAfterCheck(actions: seq<Action>, j: nat)
    requires Possible(NEW, actions) && j < |actions| && actions[j].ServerStarted?
    ensures exists k :: 0 <= k < j && actions[k] == WorkspaceChecked(actions[j].start, true)
  {
    var op := actions[j].start;
    PossibleUpTo(NEW, actions, j);
    HeardFromStart(actions[..j]);
    var t := Replay(NEW, actions[..j]);
    assert StartHeard(actions[..j], op, t.starts[op].phase);
    assert WorkspaceChecked(op, true) in actions[..j];
  }

  /** A start whose workspace does not exist ends rejected and never has a server. */
  lemma MissingWorkspaceRejects(actions: seq<Action>, op: nat)
    requires Possible(NEW, actions) && WorkspaceChecked(op, false) in actions
    ensures var t := Replay(NEW, actions);
            && op < |t.starts|
            && (t.starts[op].phase == StartSettled(Rejected) || t.starts[op].phase == StartReported(Rejected))
    ensures ServerStarted(op) !in actions && WorkspaceChecked(op, true) !in actions
  {
    HeardFromStart(actions);
    var t := Replay(NEW, actions);
    assert ForBegun(t, WorkspaceChecked(op, false));
    assert StartHeard(actions, op, t.starts[op].phase);
  }

  /** A start whose workspace exists and whose starter answers resolves with that server, running. */
  lemma FoundAndServedRuns(actions: seq<Action>, op: nat)
    requires Possible(NEW, actions) && ServerStarted(op) in actions
    ensures WorkspaceChecked(op, true) in actions
    ensures var t := Replay(NEW, actions);
            && op < |t.starts|
            && match t.starts[op].phase
               case ServerReady(server) => BuiltFor(t, server, t.starts[op].workspace)
               case StartSettled(Resolved(Running(server, workspace))) =>
                 workspace == t.starts[op].workspace && BuiltFor(t, server, workspace)
               case StartReported(Resolved(Running(server, workspace))) =>
                 workspace == t.starts[op].workspace && BuiltFor(t, server, workspace)
               case _ => false
  {
    HeardFromStart(actions);
    var t := Replay(NEW, actions);
    assert ForBegun(t, ServerStarted(op));
    assert StartHeard(actions, op, t.starts[op].phase);
    hide StartsHeard, StopsHeard, AllBegun, Possible, Replay;
    assert Reachable(t);
    AlwaysInvariant(t);
    assert StartAgrees(t, t.starts[op]);
  }

  /** How a start ends: it resolves exactly when its workspace was found and its server was started. */
  lemma StartResolvesIff(actions: seq<Action>, op: nat)
    requires Possible(NEW, actions) && StartIsReported(Replay(NEW, actions), op)
    ensures var outcome := Replay(NEW, actions).starts[op].phase.outcome;
            && (outcome.Resolved? <==> WorkspaceChecked(op, true) in actions && ServerStarted(op) in actions)
            && (outcome.Rejected? <==> WorkspaceChecked(op, false) in actions || StarterFailed(op) in actions)
  {
    HeardFromStart(actions);
    var t := Replay(NEW, actions);
    hide Possible, Replay, StopsHeard, AllBegun;
    assert StartHeard(actions, op, t.starts[op].phase);
  }

  /** How a stop ends: it rejects exactly when the server refused to close. */
  lemma StopRejectsIff(actions: seq<Action>, op: nat)
    requires Possible(NEW, actions) && StopIsReported(Replay(NEW, actions), op)
    ensures Replay(NEW, actions).stops[op].outcome.Rejected?
            <==> CloseFailed(op, true) in actions || CloseFailed(op, false) in actions
  {
    HeardFromStart(actions);
    var t := Replay(NEW, actions);
    hide Possible, Replay, StartsHeard, AllBegun;
    assert StopHeard(actions, op, t.stops[op]);
  }

  /** A start for a blank workspace is refused on the spot: nothing is begun, and nothing waits. */
  lemma BlankIsRefused(s: State, workspace: string)
    requires Blank(workspace)
    ensures var t := After(s, CallStart(workspace));
            && t.calls == s.calls + [StartFor(workspace, Settled(Rejected))]
            && t == s.(calls := t.calls)
  {
  }

  /** Until its stop has been reported, a call that was put off has got nothing, whatever happens. */
  lemma PutOffUntilStopped(s: State, a: Action, c: nat)
    requires Reachable(s) && Enabled(s, a) && c < |s.calls| && s.calls[c].answer.PutOff?
    requires !StopIsReported(s, s.calls[c].answer.stop)
    ensures OutcomeOf(s, c) == None
    ensures c < |After(s, a).calls| && After(s, a).calls[c] == s.calls[c]
  {
    AlwaysInvariant(s);
    CallStays(s, a, c);
    if a.WakeWaiting? {
      assert WaiterAgrees(s, s.waiting[a.entry]);
      assert s.waiting[a.entry].call != c;
    } else {
      OnlyWakingAnswers(s, a, c);
    }
  }

  lemma OnlyWakingAnswers(s: State, a: Action, c: nat)
    requires Enabled(s, a) && !a.WakeWaiting? && c < |s.calls|
    ensures c < |After(s, a).calls| && After(s, a).calls[c] == s.calls[c]
  {
    if Internal(a) {
      StepGrows(s, a);
    }
  }

  /** A start that is asked for while a stop is under way waits for it, even if a server is still stored. */
  lemma StartDuringStopWaits(s: State, workspace: string)
    requires !Blank(workspace) && s.stopOperation.Some?
    ensures var t := After(s, CallStart(workspace));
            && t.calls == s.calls + [StartFor(workspace, PutOff(s.stopOperation.value))]
            && t == s.(calls := t.calls, waiting := t.waiting)
  {
  }

  /** Whoever waits for a stop that rejects is rejected with it, and nothing is begun. */
  lemma RejectedStopRejectsWaiting(s: State, k: nat)
    requires Enabled(s, WakeWaiting(k)) && s.stops[s.waiting[k].stop].outcome.Rejected?
    ensures var t, call := After(s, WakeWaiting(k)), s.waiting[k].call;
            && |t.calls| == |s.calls| && OutcomeOf(t, call) == Some(Rejected)
            && (forall c :: 0 <= c < |s.calls| && c != call ==> t.calls[c] == s.calls[c])
            && t == s.(waiting := s.waiting[..k] + s.waiting[k + 1..], calls := t.calls)
  {
  }
}
