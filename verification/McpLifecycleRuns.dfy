/** Every interleaving of the lifecycle: one owner for the one open server, and every call comes to an end. */
module McpLifecycleRuns {
  import opened Wrappers
  import opened TextLines
  import opened McpLifecycle

  /** The actions can happen one after the other, from this state on. */
  predicate Possible(s: State, actions: seq<Action>)
    decreases |actions|
  {
    actions == [] || (Enabled(s, actions[0]) && Possible(After(s, actions[0]), actions[1..]))
  }

  function Replay(s: State, actions: seq<Action>): State
    requires Possible(s, actions)
    decreases |actions|
  {
    if actions == [] then s else Replay(After(s, actions[0]), actions[1..])
  }

  ghost predicate Reachable(s: State) {
    exists actions :: Possible(NEW, actions) && Replay(NEW, actions) == s
  }

  /** A start that has not been reported is the one in the field. */
  ghost predicate OneStart(s: State) {
    && (s.startOperation.Some? ==> s.startOperation.value < |s.starts|)
    && (forall op :: 0 <= op < |s.starts| ==> (s.starts[op].phase.StartReported? <==> s.startOperation != Some(op)))
  }

  ghost predicate OneStop(s: State) {
    && (s.stopOperation.Some? ==> s.stopOperation.value < |s.stops|)
    && (forall op :: 0 <= op < |s.stops| ==> (s.stops[op].StopReported? <==> s.stopOperation != Some(op)))
  }

  /** The server was built for this workspace. */
  predicate BuiltFor(s: State, server: nat, workspace: string) {
    server < |s.built| && s.built[server] == workspace
  }

  ghost predicate HandleIsBuilt(s: State) {
    && (s.handle.None? <==> s.workspaceId.None?)
    && (s.handle.Some? && s.workspaceId.Some? ==> BuiltFor(s, s.handle.value, s.workspaceId.value))
  }

  /**
   Until the start under way has stored its handle there is none; a start that resolved has stored one for its
   workspace.
   */
  ghost predicate StartAgrees(s: State, op: StartOperation) {
    match op.phase
    case CheckingWorkspace => s.handle.None?
    case AwaitingServer => s.handle.None?
    case ServerReady(server) => s.handle.None? && BuiltFor(s, server, op.workspace)
    case StartSettled(outcome) => (outcome.Resolved? <==> s.handle.Some?) && OwnServer(s, op.workspace, outcome)
    case StartReported(outcome) => OwnServer(s, op.workspace, outcome)
  }

  predicate OwnServer(s: State, workspace: string, outcome: Outcome) {
    outcome.Resolved? ==>
      outcome.status.Running? && outcome.status.workspace == workspace && BuiltFor(s, outcome.status.server, workspace)
  }

  /** While a stop is under way no start is, except the one it waits for; once it has resolved there is no handle. */
  ghost predicate StopAgrees(s: State, op: StopOperation) {
    match op
    case AwaitingStart(start) =>
      && start < |s.starts|
      && (s.starts[start].phase.StartReported? ==>
            s.startOperation.None? && (s.starts[start].phase.outcome.Resolved? <==> s.handle.Some?))
    case Closing(server) => s.handle == Some(server) && s.startOperation.None?
    case Closed(server) => s.handle == Some(server) && server !in s.open && s.startOperation.None?
    case StopSettled(outcome) =>
      s.startOperation.None? && (outcome.Resolved? ==> outcome.status == Stopped && s.handle.None?)
    case StopReported(outcome) => outcome.Resolved? ==> outcome.status == Stopped
  }

  /** Everything except a new call: answers from outside, and the code running on after them. */
  predicate Internal(a: Action) {
    !a.CallStart? && !a.CallStop? && !a.CallRestart?
  }

  /** Who answers for an open server: the handle, or the start that has just been given it. */
  function Owner(s: State): Option<nat> {
    if s.handle.Some? then s.handle
    else if s.startOperation.Some? && StartIn(s, s.startOperation.value, (p: StartPhase) => p.ServerReady?)
    then Some(s.starts[s.startOperation.value].phase.server)
    else None
  }

  ghost predicate OpenIsOwned(s: State) {
    forall server :: server in s.open ==> Owner(s) == Some(server)
  }

  ghost predicate StartsAgree(s: State) {
    forall op :: 0 <= op < |s.starts| ==> StartAgrees(s, s.starts[op])
  }

  ghost predicate StopsAgree(s: State) {
    forall op :: 0 <= op < |s.stops| ==> StopAgrees(s, s.stops[op])
  }

  /** What is true of the operations and the servers. */
  ghost predicate Operations(s: State) {
    && OneStart(s)
    && OneStop(s)
    && HandleIsBuilt(s)
    && StartsAgree(s)
    && StopsAgree(s)
    && OpenIsOwned(s)
  }

  /** A running status names a server and the workspace it was built for. */
  predicate TrueStatus(s: State, outcome: Outcome) {
    outcome.Resolved? ==> outcome.status.Running? && BuiltFor(s, outcome.status.server, outcome.status.workspace)
  }

  /** A call's promise is one that exists, and a start is put off only as long as it waits. */
  ghost predicate CallAgrees(s: State, c: nat)
    requires c < |s.calls|
  {
    match s.calls[c]
    case StopAsked(answer) => answer.SharesStop? && answer.stop < |s.stops|
    case StartFor(workspace, answer) =>
      match answer
      case Settled(outcome) => TrueStatus(s, outcome)
      case SharesStart(op) => op < |s.starts|
      case SharesStop(_) => false
      case PutOff(stop) => Waiting(workspace, stop, c) in s.waiting
  }

  ghost predicate CallsAgree(s: State) {
    forall c :: 0 <= c < |s.calls| ==> CallAgrees(s, c)
  }

  predicate WaiterAgrees(s: State, entry: Waiting) {
    entry.stop < |s.stops| && entry.call < |s.calls|
      && s.calls[entry.call] == StartFor(entry.workspace, PutOff(entry.stop))
  }

  /** What waits is put off, once for each call. */
  ghost predicate WaitersAgree(s: State) {
    && (forall entry :: entry in s.waiting ==> WaiterAgrees(s, entry))
    && (forall i, j :: 0 <= i < j < |s.waiting| ==> s.waiting[i].call != s.waiting[j].call)
  }

  ghost predicate Invariant(s: State) {
    && Operations(s)
    && CallsAgree(s)
    && WaitersAgree(s)
  }

  lemma StartKeeps(s: State, workspace: string, call: nat)
    requires Operations(s)
    ensures Operations(AfterStart(s, workspace, call))
  {
  }

  lemma StopKeeps(s: State)
    requires Operations(s)
    ensures Operations(AfterStop(s)) && AfterStop(s).stopOperation.Some?
  {
  }

  /** Who waits and who has called does not matter to the operations. */
  lemma OnlyOperations(s: State, t: State)
    requires Operations(s) && t.(waiting := s.waiting, calls := s.calls) == s
    ensures Operations(t)
  {
  }

  lemma WakeKeeps(s: State, k: nat)
    requires Operations(s) && Enabled(s, WakeWaiting(k))
    ensures Operations(Wake(s, k))
  {
    hide Operations;
    var entry := s.waiting[k];
    var rest := s.(waiting := s.waiting[..k] + s.waiting[k + 1..]);
    OnlyOperations(s, rest);
    StartKeeps(rest, entry.workspace, entry.call);
    if s.stops[entry.stop].outcome.Rejected? {
      OnlyOperations(rest, Wake(s, k));
    } else {
      OnlyOperations(AfterStart(rest, entry.workspace, entry.call), Wake(s, k));
    }
  }

  lemma CallKeeps(s: State, a: Action)
    requires Operations(s) && !Internal(a)
    ensures Operations(After(s, a))
  {
    hide Operations;
    match a
    case CallStart(workspace) =>
      StartKeeps(s, workspace, |s.calls|);
      OnlyOperations(AfterStart(s, workspace, |s.calls|), After(s, a));
    case CallStop =>
      StopKeeps(s);
      OnlyOperations(AfterStop(s), After(s, a));
    case CallRestart(workspace) =>
      StopKeeps(s);
      OnlyOperations(AfterStop(s), After(s, a));
  }

  lemma WorkspaceCheckedKeeps(s: State, op: nat, ok: bool)
    requires Operations(s) && Enabled(s, WorkspaceChecked(op, ok))
    ensures Operations(After(s, WorkspaceChecked(op, ok)))
  {
  }

  lemma ServerStartedKeeps(s: State, op: nat)
    requires Operations(s) && Enabled(s, ServerStarted(op))
    ensures Operations(After(s, ServerStarted(op)))
  {
  }

  lemma StarterFailedKeeps(s: State, op: nat)
    requires Operations(s) && Enabled(s, StarterFailed(op))
    ensures Operations(After(s, StarterFailed(op)))
  {
  }

  lemma InstallHandleKeeps(s: State, op: nat)
    requires Operations(s) && Enabled(s, InstallHandle(op))
    ensures Operations(After(s, InstallHandle(op)))
  {
  }

  lemma ReportStartKeeps(s: State, op: nat)
    requires Operations(s) && Enabled(s, ReportStart(op))
    ensures Operations(After(s, ReportStart(op)))
  {
  }

  lemma ResumeStopKeeps(s: State, op: nat)
    requires Operations(s) && Enabled(s, ResumeStop(op))
    ensures Operations(After(s, ResumeStop(op)))
  {
  }

  lemma CloseSucceededKeeps(s: State, op: nat)
    requires Operations(s) && Enabled(s, CloseSucceeded(op))
    ensures Operations(After(s, CloseSucceeded(op)))
  {
  }

  lemma CloseFailedKeeps(s: State, op: nat, ok: bool)
    requires Operations(s) && Enabled(s, CloseFailed(op, ok))
    ensures Operations(After(s, CloseFailed(op, ok)))
  {
  }

  lemma ClearHandleKeeps(s: State, op: nat)
    requires Operations(s) && Enabled(s, ClearHandle(op))
    ensures Operations(After(s, ClearHandle(op)))
  {
  }

  lemma ReportStopKeeps(s: State, op: nat)
    requires Operations(s) && Enabled(s, ReportStop(op))
    ensures Operations(After(s, ReportStop(op)))
  {
  }

  lemma OperationsKeep(s: State, a: Action)
    requires Operations(s) && Enabled(s, a)
    ensures Operations(After(s, a))
  {
    hide Operations;
    match a
    case WorkspaceChecked(op, ok) => WorkspaceCheckedKeeps(s, op, ok);
    case ServerStarted(op) => ServerStartedKeeps(s, op);
    case StarterFailed(op) => StarterFailedKeeps(s, op);
    case InstallHandle(op) => InstallHandleKeeps(s, op);
    case ReportStart(op) => ReportStartKeeps(s, op);
    case ResumeStop(op) => ResumeStopKeeps(s, op);
    case CloseSucceeded(op) => CloseSucceededKeeps(s, op);
    case CloseFailed(op, ok) => CloseFailedKeeps(s, op, ok);
    case ClearHandle(op) => ClearHandleKeeps(s, op);
    case ReportStop(op) => ReportStopKeeps(s, op);
    case WakeWaiting(k) => WakeKeeps(s, k);
    case _ => CallKeeps(s, a);
  }

  /** Nothing that is built, begun, asked or answered disappears. */
  ghost predicate Grows(s: State, t: State) {
    && |s.starts| <= |t.starts|
    && |s.stops| <= |t.stops|
    && s.built <= t.built
    && |s.calls| <= |t.calls|
  }

  lemma StepGrows(s: State, a: Action)
    requires Enabled(s, a)
    ensures Grows(s, After(s, a))
    ensures Internal(a) && !a.WakeWaiting? ==> After(s, a).calls == s.calls && After(s, a).waiting == s.waiting
  {
  }

  lemma CallsUntouched(s: State, t: State)
    requires CallsAgree(s) && WaitersAgree(s) && Grows(s, t) && t.calls == s.calls && t.waiting == s.waiting
    ensures CallsAgree(t) && WaitersAgree(t)
  {
    forall c | 0 <= c < |t.calls|
      ensures CallAgrees(t, c)
    {
      assert CallAgrees(s, c);
    }
  }

  /** A new call that need not wait. */
  lemma CallAnswered(s: State, t: State, call: Call)
    requires CallsAgree(s) && WaitersAgree(s) && Grows(s, t) && t.calls == s.calls + [call] && t.waiting == s.waiting
    requires CallAgrees(t, |s.calls|)
    ensures CallsAgree(t) && WaitersAgree(t)
  {
    forall c | 0 <= c < |t.calls|
      ensures CallAgrees(t, c)
    {
      if c < |s.calls| {
        assert CallAgrees(s, c);
      }
    }
    assert forall entry :: entry in t.waiting ==> WaiterAgrees(s, entry);
  }

  /** A new call that has to wait. */
  lemma CallPutOff(s: State, t: State, workspace: string, stop: nat)
    requires CallsAgree(s) && WaitersAgree(s) && Grows(s, t) && stop < |t.stops|
    requires t.calls == s.calls + [StartFor(workspace, PutOff(stop))]
    requires t.waiting == s.waiting + [Waiting(workspace, stop, |s.calls|)]
    ensures CallsAgree(t) && WaitersAgree(t)
  {
    forall c | 0 <= c < |t.calls|
      ensures CallAgrees(t, c)
    {
      if c < |s.calls| {
        assert CallAgrees(s, c);
      } else {
        assert t.waiting[|s.waiting|] == Waiting(workspace, stop, c);
      }
    }
    assert forall entry :: entry in s.waiting ==> WaiterAgrees(s, entry);
    assert forall i :: 0 <= i < |s.waiting| ==> s.waiting[i] in s.waiting;
  }

  lemma CallsKeepOnCall(s: State, a: Action)
    requires OneStart(s) && OneStop(s) && HandleIsBuilt(s) && CallsAgree(s) && WaitersAgree(s) && !Internal(a)
    ensures CallsAgree(After(s, a)) && WaitersAgree(After(s, a))
  {
    hide CallsAgree, WaitersAgree;
    var t := After(s, a);
    StepGrows(s, a);
    match a
    case CallStart(workspace) =>
      if !Blank(workspace) && s.stopOperation.Some? {
        CallPutOff(s, t, workspace, s.stopOperation.value);
      } else {
        CallAnswered(s, t, StartFor(workspace, AnswerTo(s, workspace)));
      }
    case CallStop => CallAnswered(s, t, t.calls[|s.calls|]);
    case CallRestart(workspace) => CallPutOff(s, t, workspace, AfterStop(s).stopOperation.value);
  }

  /** One of those who wait is taken out, and its call is answered in another way, or put off again. */
  lemma CallWoken(s: State, t: State, k: nat, answer: Answer)
    requires CallsAgree(s) && WaitersAgree(s) && Grows(s, t) && k < |s.waiting| && s.waiting[k].call < |s.calls|
    requires t.calls == SetAnswer(s.calls, s.waiting[k].call, answer)
    requires var rest := s.waiting[..k] + s.waiting[k + 1..];
             t.waiting == if answer.PutOff?
                          then rest + [Waiting(s.waiting[k].workspace, answer.stop, s.waiting[k].call)] else rest
    requires answer.PutOff? ==> answer.stop < |t.stops|
    requires !answer.PutOff? ==> CallAgrees(t, s.waiting[k].call)
    ensures CallsAgree(t) && WaitersAgree(t)
  {
    var entry := s.waiting[k];
    assert WaiterAgrees(s, entry);
    StillWaiting(s.waiting, k);
    var rest := s.waiting[..k] + s.waiting[k + 1..];
    var again := Waiting(entry.workspace, if answer.PutOff? then answer.stop else 0, entry.call);
    forall c | 0 <= c < |t.calls|
      ensures CallAgrees(t, c)
    {
      assert CallAgrees(s, c);
      if c == entry.call {
        if answer.PutOff? {
          assert t.waiting[|rest|] == again;
        }
      } else if s.calls[c].answer.PutOff? {
        assert Waiting(s.calls[c].workspace, s.calls[c].answer.stop, c) in rest;
      }
    }
    forall other | other in t.waiting
      ensures WaiterAgrees(t, other)
    {
      if other in rest {
        assert WaiterAgrees(s, other);
      }
    }
  }

  lemma StillWaiting(waiting: seq<Waiting>, k: nat)
    requires k < |waiting|
    requires forall i, j :: 0 <= i < j < |waiting| ==> waiting[i].call != waiting[j].call
    ensures var rest := waiting[..k] + waiting[k + 1..];
            && (forall entry :: entry in waiting && entry != waiting[k] ==> entry in rest)
            && (forall entry :: entry in rest ==> entry in waiting && entry.call != waiting[k].call)
            && (forall i, j :: 0 <= i < j < |rest| ==> rest[i].call != rest[j].call)
  {
    var rest := waiting[..k] + waiting[k + 1..];
    assert forall i :: 0 <= i < |rest| ==> rest[i] == waiting[if i < k then i else i + 1];
    forall entry | entry in waiting && entry != waiting[k]
      ensures entry in rest
    {
      var i :| 0 <= i < |waiting| && waiting[i] == entry;
      assert rest[if i < k then i else i - 1] == entry;
    }
  }

  lemma CallsKeepOnWake(s: State, k: nat)
    requires OneStart(s) && OneStop(s) && HandleIsBuilt(s) && CallsAgree(s) && WaitersAgree(s)
    requires Enabled(s, WakeWaiting(k))
    ensures CallsAgree(Wake(s, k)) && WaitersAgree(Wake(s, k))
  {
    var entry := s.waiting[k];
    assert WaiterAgrees(s, entry);
    hide CallsAgree, WaitersAgree;
    var rest := s.(waiting := s.waiting[..k] + s.waiting[k + 1..]);
    StepGrows(s, WakeWaiting(k));
    var answer := if s.stops[entry.stop].outcome.Rejected? then Settled(Rejected) else AnswerTo(rest, entry.workspace);
    CallWoken(s, Wake(s, k), k, answer);
  }

  /** Whatever happens next keeps the invariant. */
  lemma StepKeeps(s: State, a: Action)
    requires Invariant(s) && Enabled(s, a)
    ensures Invariant(After(s, a))
  {
    hide OneStart, OneStop, HandleIsBuilt, StartsAgree, StopsAgree, OpenIsOwned, CallsAgree, WaitersAgree, After;
    hide Enabled;
    OperationsKeep(s, a);
    if !Internal(a) {
      CallsKeepOnCall(s, a);
    } else if a.WakeWaiting? {
      CallsKeepOnWake(s, a.entry);
      AfterWake(s, a.entry);
    } else {
      StepGrows(s, a);
      CallsUntouched(s, After(s, a));
    }
  }

  lemma AfterWake(s: State, k: nat)
    requires Enabled(s, WakeWaiting(k))
    ensures After(s, WakeWaiting(k)) == Wake(s, k)
  {
  }

  lemma {:induction false} RunKeeps(s: State, actions: seq<Action>)
    requires Invariant(s) && Possible(s, actions)
    ensures Invariant(Replay(s, actions))
    decreases |actions|
  {
    hide Invariant;
    if actions != [] {
      StepKeeps(s, actions[0]);
      RunKeeps(After(s, actions[0]), actions[1..]);
    }
  }

  /** The invariant holds in every state that any interleaving can reach. */
  lemma AlwaysInvariant(s: State)
    requires Reachable(s)
    ensures Invariant(s)
  {
    var actions :| Possible(NEW, actions) && Replay(NEW, actions) == s;
    RunKeeps(NEW, actions);
  }

  /** At most one server is open, and somebody answers for it. */
  lemma AtMostOneServer(s: State)
    requires Reachable(s)
    ensures |s.open| <= 1
    ensures s.open != {} ==> Owner(s).Some? && s.open == {Owner(s).value}
  {
    AlwaysInvariant(s);
    if server :| server in s.open {
      assert s.open == {server};
    }
  }

  /** The close of this server has been answered: it is closed, or it refused and is gone all the same. */
  predicate Closes(s: State, a: Action, server: nat)
    requires Enabled(s, a)
  {
    || (a.CloseSucceeded? && s.stops[a.stop] == Closing(server))
    || (a.CloseFailed? && !a.stillOpen && s.stops[a.stop] == Closing(server))
  }

  /**
   A stored handle is never replaced by another: it is only dropped, with its server closed. A new one is only
   stored by the start that was given it.
   */
  lemma HandleNeverOverwritten(s: State, a: Action)
    requires Reachable(s) && Enabled(s, a)
    ensures s.handle.Some? ==>
              After(s, a).handle == s.handle || (After(s, a).handle.None? && s.handle.value !in s.open)
    ensures s.handle.None? && After(s, a).handle.Some? ==>
              a.InstallHandle? && s.starts[a.start].phase == ServerReady(After(s, a).handle.value)
  {
    AlwaysInvariant(s);
    StepsOnHandle(s, a);
  }

  lemma StepsOnHandle(s: State, a: Action)
    requires OneStart(s) && StartsAgree(s) && StopsAgree(s) && Enabled(s, a)
    ensures After(s, a).handle == s.handle
            || (a.InstallHandle? && s.handle.None? && After(s, a).handle == Some(s.starts[a.start].phase.server))
            || (a.ClearHandle? && s.handle.Some? && After(s, a).handle.None? && s.handle.value !in s.open)
  {
    hide OneStart, StartIsReported, StopIsReported;
    if a.InstallHandle? {
      assert StartAgrees(s, s.starts[a.start]);
    } else if a.ClearHandle? {
      assert StopAgrees(s, s.stops[a.stop]);
    }
  }

  /** No server is lost: one that is open stays open, and stays owned, until its own close is answered. */
  lemma NoServerLost(s: State, a: Action, server: nat)
    requires Reachable(s) && Enabled(s, a) && server in s.open
    ensures Owner(s) == Some(server)
    ensures server in After(s, a).open ==> Owner(After(s, a)) == Some(server)
    ensures server !in After(s, a).open <==> Closes(s, a, server)
  {
    AlwaysInvariant(s);
    StepKeeps(s, a);
    StepsOnOpen(s, a, server);
  }

  lemma StepsOnOpen(s: State, a: Action, server: nat)
    requires Enabled(s, a) && server in s.open
    ensures server !in After(s, a).open <==> Closes(s, a, server)
  {
  }

  /**
   A start that resolves does so with a server built for the very workspace it was asked for; a stop, with the
   stopped status.
   */
  lemma WhatPromisesCarry(s: State)
    requires Reachable(s)
    ensures forall op :: 0 <= op < |s.starts| && s.starts[op].phase.StartReported? ==>
              OwnServer(s, s.starts[op].workspace, s.starts[op].phase.outcome)
    ensures forall op :: 0 <= op < |s.stops| && s.stops[op].StopReported? && s.stops[op].outcome.Resolved? ==>
              s.stops[op].outcome.status == Stopped
  {
    AlwaysInvariant(s);
    forall op | 0 <= op < |s.starts| && s.starts[op].phase.StartReported?
      ensures OwnServer(s, s.starts[op].workspace, s.starts[op].phase.outcome)
    {
      assert StartAgrees(s, s.starts[op]);
    }
    forall op | 0 <= op < |s.stops| && s.stops[op].StopReported? && s.stops[op].outcome.Resolved?
      ensures s.stops[op].outcome.status == Stopped
    {
      assert StopAgrees(s, s.stops[op]);
    }
  }

  /** What a call has got: nothing yet, or the outcome its promise has settled with. */
  function OutcomeOf(s: State, c: nat): Option<Outcome>
    requires c < |s.calls|
  {
    match s.calls[c].answer
    case Settled(outcome) => Some(outcome)
    case SharesStart(op) => if StartIsReported(s, op) then Some(s.starts[op].phase.outcome) else None
    case SharesStop(op) => if StopIsReported(s, op) then Some(s.stops[op].outcome) else None
    case PutOff(_) => None
  }

  /** The workspace a promise is about. */
  function PromisedWorkspace(s: State, answer: Answer): Option<string> {
    match answer
    case Settled(Resolved(Running(_, workspace))) => Some(workspace)
    case SharesStart(op) => if op < |s.starts| then Some(s.starts[op].workspace) else None
    case _ => None
  }

  /** A promise that a caller holds stays the one it is, and what it has settled with stays. */
  lemma PromiseStays(s: State, a: Action, c: nat)
    requires Invariant(s) && Enabled(s, a) && c < |s.calls|
    ensures c < |After(s, a).calls|
    ensures After(s, a).calls[c] == s.calls[c].(answer := After(s, a).calls[c].answer)
    ensures OutcomeOf(s, c).Some? ==> OutcomeOf(After(s, a), c) == OutcomeOf(s, c)
    ensures !s.calls[c].answer.PutOff? ==>
              After(s, a).calls[c] == s.calls[c]
              && PromisedWorkspace(After(s, a), s.calls[c].answer) == PromisedWorkspace(s, s.calls[c].answer)
  {
    assert CallAgrees(s, c);
    OperationsStay(s, a);
    CallStays(s, a, c);
    hide Invariant, CallAgrees, Enabled, After, OutcomeOf, PromisedWorkspace;
    if s.calls[c].answer.PutOff? {
      NothingYet(s, c);
    } else {
      SamePromise(s, After(s, a), c);
    }
  }

  lemma NothingYet(s: State, c: nat)
    requires c < |s.calls| && s.calls[c].answer.PutOff?
    ensures OutcomeOf(s, c) == None
  {
  }

  /** A promise depends on the operation behind it only. */
  lemma SamePromise(s: State, t: State, c: nat)
    requires c < |s.calls| && c < |t.calls| && t.calls[c] == s.calls[c]
    requires |s.starts| <= |t.starts| && |s.stops| <= |t.stops|
    requires forall op :: 0 <= op < |s.starts| ==>
               && t.starts[op].workspace == s.starts[op].workspace
               && (s.starts[op].phase.StartReported? ==> t.starts[op] == s.starts[op])
    requires forall op :: 0 <= op < |s.stops| && s.stops[op].StopReported? ==> t.stops[op] == s.stops[op]
    requires s.calls[c].answer.SharesStart? ==> s.calls[c].answer.start < |s.starts|
    requires s.calls[c].answer.SharesStop? ==> s.calls[c].answer.stop < |s.stops|
    ensures OutcomeOf(s, c).Some? ==> OutcomeOf(t, c) == OutcomeOf(s, c)
    ensures PromisedWorkspace(t, s.calls[c].answer) == PromisedWorkspace(s, s.calls[c].answer)
  {
  }

  /** Operations keep their workspaces, and what they have reported. */
  lemma OperationsStay(s: State, a: Action)
    requires Enabled(s, a)
    ensures |s.starts| <= |After(s, a).starts| && |s.stops| <= |After(s, a).stops|
    ensures forall op :: 0 <= op < |s.starts| ==>
              && After(s, a).starts[op].workspace == s.starts[op].workspace
              && (s.starts[op].phase.StartReported? ==> After(s, a).starts[op] == s.starts[op])
    ensures forall op :: 0 <= op < |s.stops| && s.stops[op].StopReported? ==> After(s, a).stops[op] == s.stops[op]
  {
    StartsStay(s, a);
    StopsStay(s, a);
    hide After, Enabled;
  }

  lemma StartsStay(s: State, a: Action)
    requires Enabled(s, a)
    ensures |s.starts| <= |After(s, a).starts|
    ensures forall op :: 0 <= op < |s.starts| ==>
              && After(s, a).starts[op].workspace == s.starts[op].workspace
              && (s.starts[op].phase.StartReported? ==> After(s, a).starts[op] == s.starts[op])
  {
    hide StopIn, StopIsReported, CloseOrSettle, SetAnswer, AnswerTo;
  }

  lemma StopsStay(s: State, a: Action)
    requires Enabled(s, a)
    ensures |s.stops| <= |After(s, a).stops|
    ensures forall op :: 0 <= op < |s.stops| && s.stops[op].StopReported? ==> After(s, a).stops[op] == s.stops[op]
  {
    hide StartIn, CloseOrSettle, SetAnswer, AnswerTo;
  }

  lemma CallStays(s: State, a: Action, c: nat)
    requires WaitersAgree(s) && Enabled(s, a) && c < |s.calls|
    ensures c < |After(s, a).calls|
    ensures After(s, a).calls[c] == s.calls[c].(answer := After(s, a).calls[c].answer)
    ensures !s.calls[c].answer.PutOff? ==> After(s, a).calls[c] == s.calls[c]
  {
    if a.WakeWaiting? {
      assert WaiterAgrees(s, s.waiting[a.entry]);
      hide WaitersAgree, AfterStart, AnswerTo, StopIsReported;
    } else {
      StepGrows(s, a);
      hide WaitersAgree, AfterStop, AfterStart, AnswerTo, Resume, StartIn, StopIn;
    }
  }

  /**
   A start call that has resolved has got a running server, built for the workspace its promise was about; a stop
   call, the stopped status.
   */
  lemma WhatCallsCarry(s: State, c: nat)
    requires Reachable(s) && c < |s.calls| && OutcomeOf(s, c).Some? && OutcomeOf(s, c).value.Resolved?
    ensures var status := OutcomeOf(s, c).value.status;
            if s.calls[c].StopAsked? then status == Stopped
            else
              && status.Running? && BuiltFor(s, status.server, status.workspace)
              && PromisedWorkspace(s, s.calls[c].answer) == Some(status.workspace)
  {
    AlwaysInvariant(s);
    assert CallAgrees(s, c);
    WhatPromisesCarry(s);
  }

  /**
   A call for a start that is answered by this action: a new one, or one that was put off until a stop that has
   resolved.
   */
  datatype Asked = Asked(workspace: string, call: nat)

  function Asks(s: State, a: Action): Option<Asked>
    requires Enabled(s, a)
  {
    match a
    case CallStart(workspace) => Some(Asked(workspace, |s.calls|))
    case WakeWaiting(k) =>
      if s.stops[s.waiting[k].stop].outcome.Resolved?
      then Some(Asked(s.waiting[k].workspace, s.waiting[k].call))
      else None
    case _ => None
  }

  /** The workspace of the stored server or, before it is stored, of the start under way. */
  function WorkspaceThere(s: State): Option<string> {
    if s.handle.Some? then s.workspaceId
    else if s.startOperation.Some? && s.startOperation.value < |s.starts|
    then Some(s.starts[s.startOperation.value].workspace)
    else None
  }

  lemma AnsweredWith(s: State, a: Action)
    requires Invariant(s) && Enabled(s, a) && Asks(s, a).Some? && s.stopOperation.None?
    requires !Blank(Asks(s, a).value.workspace)
    ensures var asked := Asks(s, a).value;
            var t := After(s, a);
            && asked.call < |t.calls| && t.calls[asked.call].StartFor?
              && t.calls[asked.call].workspace == asked.workspace
            && !t.calls[asked.call].answer.PutOff?
            && PromisedWorkspace(t, t.calls[asked.call].answer)
               == if WorkspaceThere(s).Some? then WorkspaceThere(s) else Some(asked.workspace)
  {
    if a.WakeWaiting? {
      assert WaiterAgrees(s, s.waiting[a.entry]);
    }
  }

  lemma {:induction false} PromisesStay(s: State, actions: seq<Action>, c: nat)
    requires Invariant(s) && Possible(s, actions) && c < |s.calls| && !s.calls[c].answer.PutOff?
    ensures c < |Replay(s, actions).calls| && Replay(s, actions).calls[c] == s.calls[c]
    ensures PromisedWorkspace(Replay(s, actions), s.calls[c].answer) == PromisedWorkspace(s, s.calls[c].answer)
    decreases |actions|
  {
    hide Invariant, Enabled, PromisedWorkspace, OutcomeOf;
    if actions != [] {
      PromiseStays(s, actions[0], c);
      StepKeeps(s, actions[0]);
      PromisesStay(After(s, actions[0]), actions[1..], c);
    }
  }

  lemma {:induction false} ReplayAppend(s: State, first: seq<Action>, more: seq<Action>)
    requires Possible(s, first) && Possible(Replay(s, first), more)
    ensures Possible(s, first + more) && Replay(s, first + more) == Replay(Replay(s, first), more)
    decreases |first|
  {
    hide Enabled, After;
    if first == [] {
      assert first + more == more;
    } else {
      ReplayAppend(After(s, first[0]), first[1..], more);
      assert (first + more)[1..] == first[1..] + more;
    }
  }

  lemma ReachableOn(s: State, actions: seq<Action>)
    requires Reachable(s) && Possible(s, actions)
    ensures Reachable(Replay(s, actions))
  {
    var before :| Possible(NEW, before) && Replay(NEW, before) == s;
    ReplayAppend(NEW, before, actions);
  }

  /**
   A call for a start answered while no stop is under way: if it ever resolves, it does so with its own workspace
   exactly when nothing was stored or under way at that moment, or that was for the same workspace.
   */
  lemma OwnWorkspaceIff(s: State, a: Action, actions: seq<Action>)
    requires Reachable(s) && Enabled(s, a) && Asks(s, a).Some? && s.stopOperation.None?
    requires !Blank(Asks(s, a).value.workspace)
    requires Possible(After(s, a), actions)
    ensures var asked := Asks(s, a).value;
            var t := Replay(After(s, a), actions);
            && asked.call < |t.calls|
            && (OutcomeOf(t, asked.call).Some? && OutcomeOf(t, asked.call).value.Resolved? ==>
                  && OutcomeOf(t, asked.call).value.status.Running?
                  && (OutcomeOf(t, asked.call).value.status.workspace == asked.workspace <==>
                      WorkspaceThere(s) == None || WorkspaceThere(s) == Some(asked.workspace)))
  {
    hide Invariant, Enabled, After, PromisedWorkspace, OutcomeOf, Reachable, Asks, WorkspaceThere, Blank, BuiltFor;
    hide Replay;
    AlwaysInvariant(s);
    StepKeeps(s, a);
    AnsweredWith(s, a);
    var call := Asks(s, a).value.call;
    PromisesStay(After(s, a), actions, call);
    var t := Replay(After(s, a), actions);
    OneStepOn(s, a, actions);
    if OutcomeOf(t, call).Some? && OutcomeOf(t, call).value.Resolved? {
      WhatCallsCarry(t, call);
    }
  }

  lemma OneStepOn(s: State, a: Action, actions: seq<Action>)
    requires Reachable(s) && Enabled(s, a) && Possible(After(s, a), actions)
    ensures Reachable(Replay(After(s, a), actions))
  {
    hide Reachable, Enabled, After;
    assert ([a] + actions)[1..] == actions;
    ReachableOn(s, [a] + actions);
  }

  /** Nothing runs and nothing is on its way to run. */
  ghost predicate Down(s: State) {
    s.handle.None? && s.startOperation.None? && s.open == {}
  }

  /** Without a new start operation, what is down stays down. */
  lemma {:induction false} DownStaysDown(s: State, actions: seq<Action>)
    requires Invariant(s) && Down(s) && Possible(s, actions)
    ensures |s.starts| <= |Replay(s, actions).starts|
    ensures |Replay(s, actions).starts| == |s.starts| ==> Down(Replay(s, actions))
    decreases |actions|
  {
    hide Invariant, Enabled;
    if actions != [] {
      var next := After(s, actions[0]);
      StepKeeps(s, actions[0]);
      StepWhileDown(s, actions[0]);
      if Down(next) {
        DownStaysDown(next, actions[1..]);
      } else {
        StartsOnlyGrow(next, actions[1..]);
      }
    }
  }

  lemma StepWhileDown(s: State, a: Action)
    requires Invariant(s) && Down(s) && Enabled(s, a)
    ensures (Down(After(s, a)) && |After(s, a).starts| == |s.starts|) || |After(s, a).starts| == |s.starts| + 1
  {
  }

  lemma {:induction false} StartsOnlyGrow(s: State, actions: seq<Action>)
    requires Possible(s, actions)
    ensures |s.starts| <= |Replay(s, actions).starts|
    decreases |actions|
  {
    if actions != [] {
      StartsOnlyGrow(After(s, actions[0]), actions[1..]);
    }
  }

  /** A stop that resolves leaves no server open, and none opens until a later start begins. */
  lemma ResolvedStopMeansClosed(s: State, op: nat, actions: seq<Action>)
    requires Reachable(s) && op < |s.stops| && s.stops[op].StopSettled? && s.stops[op].outcome.Resolved?
    requires Possible(s, actions)
    ensures Down(s) && s.stops[op].outcome.status == Stopped
    ensures |Replay(s, actions).starts| == |s.starts| ==> Down(Replay(s, actions))
  {
    AlwaysInvariant(s);
    assert StopAgrees(s, s.stops[op]);
    DownStaysDown(s, actions);
  }

  predicate Idle(s: State) {
    s.startOperation.None? && s.stopOperation.None? && s.waiting == []
  }

  function StartRank(s: State): nat {
    if s.startOperation.None? || s.startOperation.value >= |s.starts| then 0
    else
      match s.starts[s.startOperation.value].phase
      case CheckingWorkspace => 4
      case AwaitingServer => 3
      case ServerReady(_) => 2
      case StartSettled(_) => 1
      case StartReported(_) => 0
  }

  function StopRank(s: State): nat {
    if s.stopOperation.None? || s.stopOperation.value >= |s.stops| then 0
    else
      match s.stops[s.stopOperation.value]
      case AwaitingStart(_) => 4
      case Closing(_) => 3
      case Closed(_) => 2
      case StopSettled(_) => 1
      case StopReported(_) => 0
  }

  /** How many put-off starts wait for a stop other than the current one. */
  function Ripe(waiting: seq<Waiting>, current: Option<nat>): nat {
    if waiting == [] then 0
    else (if current == Some(waiting[0].stop) then 0 else 1) + Ripe(waiting[1..], current)
  }

  function StartWork(s: State): nat {
    StartRank(s) + 5 * |s.waiting|
  }

  ghost predicate Shrinks(s: State, t: State) {
    || StopRank(t) < StopRank(s)
    || (StopRank(t) == StopRank(s) && StartWork(t) < StartWork(s))
    || (StopRank(t) == StopRank(s) && StartWork(t) == StartWork(s)
        && Ripe(t.waiting, t.stopOperation) < Ripe(s.waiting, s.stopOperation))
  }

  lemma {:induction false} RipeAppend(a: seq<Waiting>, b: seq<Waiting>, current: Option<nat>)
    ensures Ripe(a + b, current) == Ripe(a, current) + Ripe(b, current)
  {
    if a == [] {
      assert a + b == b;
    } else {
      RipeAppend(a[1..], b, current);
      assert (a + b)[1..] == a[1..] + b;
    }
  }

  /** Waking a put-off start uses it up, or puts it off until the stop that is now under way. */
  lemma WakeShrinks(s: State, k: nat)
    requires OneStart(s) && OneStop(s) && Enabled(s, WakeWaiting(k))
    ensures Shrinks(s, Wake(s, k))
  {
    var entry := s.waiting[k];
    var rest := s.waiting[..k] + s.waiting[k + 1..];
    hide Ripe, StopIsReported, SetAnswer, AnswerTo;
    if s.stopOperation.Some? && s.stops[entry.stop].outcome.Resolved? && !Blank(entry.workspace) {
      var again := Waiting(entry.workspace, s.stopOperation.value, entry.call);
      RipeWithout(s.waiting, k, s.stopOperation);
      RipeAppend(rest, [again], s.stopOperation);
      RipeOne(again, s.stopOperation);
      assert Wake(s, k).waiting == rest + [again];
    }
  }

  lemma RipeOne(entry: Waiting, current: Option<nat>)
    ensures Ripe([entry], current) == if current == Some(entry.stop) then 0 else 1
  {
  }

  lemma RipeWithout(waiting: seq<Waiting>, k: nat, current: Option<nat>)
    requires k < |waiting|
    ensures Ripe(waiting[..k] + waiting[k + 1..], current) + Ripe([waiting[k]], current) == Ripe(waiting, current)
    ensures Ripe([waiting[k]], current) == if current == Some(waiting[k].stop) then 0 else 1
  {
    assert waiting == waiting[..k] + ([waiting[k]] + waiting[k + 1..]);
    RipeOne(waiting[k], current);
    hide Ripe;
    RipeAppend(waiting[..k], [waiting[k]] + waiting[k + 1..], current);
    RipeAppend([waiting[k]], waiting[k + 1..], current);
    RipeAppend(waiting[..k], waiting[k + 1..], current);
  }

  /** Without new calls, every step brings the end nearer. */
  lemma InternalStepShrinks(s: State, a: Action)
    requires Invariant(s) && Enabled(s, a) && Internal(a)
    ensures Shrinks(s, After(s, a))
  {
    hide Shrinks, Wake;
    match a
    case WakeWaiting(k) => WakeShrinks(s, k);
    case WorkspaceChecked(_, _) => StartStepShrinks(s, a);
    case ServerStarted(_) => StartStepShrinks(s, a);
    case StarterFailed(_) => StartStepShrinks(s, a);
    case InstallHandle(_) => StartStepShrinks(s, a);
    case ReportStart(_) => StartStepShrinks(s, a);
    case _ => StopStepShrinks(s, a);
  }

  lemma StartStepShrinks(s: State, a: Action)
    requires OneStart(s) && Enabled(s, a)
    requires a.WorkspaceChecked? || a.ServerStarted? || a.StarterFailed? || a.InstallHandle? || a.ReportStart?
    ensures Shrinks(s, After(s, a))
  {
  }

  lemma StopStepShrinks(s: State, a: Action)
    requires OneStop(s) && Enabled(s, a)
    requires a.ResumeStop? || a.CloseSucceeded? || a.CloseFailed? || a.ClearHandle? || a.ReportStop?
    ensures Shrinks(s, After(s, a))
  {
  }

  /** As long as a call is outstanding something can happen without a new call: no deadlock. */
  lemma NeverStuck(s: State) returns (a: Action)
    requires Invariant(s) && !Idle(s)
    ensures Internal(a) && Enabled(s, a)
  {
    if s.startOperation.Some? {
      var op := s.startOperation.value;
      a := match s.starts[op].phase
        case CheckingWorkspace => WorkspaceChecked(op, true)
        case AwaitingServer => ServerStarted(op)
        case ServerReady(_) => InstallHandle(op)
        case StartSettled(_) => ReportStart(op)
        case StartReported(_) => CallStop;
    } else if s.stopOperation.Some? {
      var op := s.stopOperation.value;
      assert StopAgrees(s, s.stops[op]);
      a := match s.stops[op]
        case AwaitingStart(_) => ResumeStop(op)
        case Closing(_) => CloseSucceeded(op)
        case Closed(_) => ClearHandle(op)
        case StopSettled(_) => ReportStop(op)
        case StopReported(_) => CallStop;
    } else {
      assert WaiterAgrees(s, s.waiting[0]);
      a := WakeWaiting(0);
    }
  }

  lemma AllAnswered(s: State)
    requires Invariant(s) && Idle(s)
    ensures forall c :: 0 <= c < |s.calls| ==> OutcomeOf(s, c).Some?
  {
    forall c | 0 <= c < |s.calls|
      ensures OutcomeOf(s, c).Some?
    {
      assert CallAgrees(s, c);
    }
  }

  /** From every reachable state the outstanding calls can all come to an end, with no further call. */
  lemma EveryCallSettles(s: State) returns (actions: seq<Action>)
    requires Invariant(s)
    ensures Possible(s, actions) && Idle(Replay(s, actions))
    ensures forall a :: a in actions ==> Internal(a)
    ensures forall op :: 0 <= op < |Replay(s, actions).starts| ==> Replay(s, actions).starts[op].phase.StartReported?
    ensures forall op :: 0 <= op < |Replay(s, actions).stops| ==> Replay(s, actions).stops[op].StopReported?
    ensures forall c :: 0 <= c < |Replay(s, actions).calls| ==> OutcomeOf(Replay(s, actions), c).Some?
    decreases StopRank(s), StartWork(s), Ripe(s.waiting, s.stopOperation)
  {
    if Idle(s) {
      actions := [];
      AllAnswered(s);
    } else {
      hide Invariant, Enabled, Internal;
      var a := NeverStuck(s);
      StepKeeps(s, a);
      InternalStepShrinks(s, a);
      var rest := EveryCallSettles(After(s, a));
      actions := [a] + rest;
      assert actions[1..] == rest;
    }
  }

  lemma OneMore(s: State, a: Action, rest: seq<Action>)
    requires Enabled(s, a) && Possible(After(s, a), rest)
    ensures Possible(s, [a] + rest) && Replay(s, [a] + rest) == Replay(After(s, a), rest)
  {
    assert ([a] + rest)[1..] == rest;
  }

  /** The start under way, operation 0 for workspace "a", goes through. */
  lemma StartGoesThrough(s: State) returns (actions: seq<Action>)
    requires s.starts == [StartOperation("a", CheckingWorkspace)] && s.startOperation == Some(0) && s.built == []
    ensures Possible(s, actions) && (forall a :: a in actions ==> Internal(a))
    ensures Replay(s, actions).calls == s.calls
    ensures Replay(s, actions).starts == [StartOperation("a", StartReported(Resolved(Running(0, "a"))))]
  {
    var checked := After(s, WorkspaceChecked(0, true));
    assert checked.starts == [StartOperation("a", AwaitingServer)];
    var ready := After(checked, ServerStarted(0));
    assert ready.starts == [StartOperation("a", ServerReady(0))];
    var stored := After(ready, InstallHandle(0));
    assert stored.starts == [StartOperation("a", StartSettled(Resolved(Running(0, "a"))))];
    var done := After(stored, ReportStart(0));
    assert done.starts == [StartOperation("a", StartReported(Resolved(Running(0, "a"))))];
    OneMore(stored, ReportStart(0), []);
    OneMore(ready, InstallHandle(0), [ReportStart(0)] + []);
    OneMore(checked, ServerStarted(0), [InstallHandle(0)] + ([ReportStart(0)] + []));
    actions := [ServerStarted(0)] + ([InstallHandle(0)] + ([ReportStart(0)] + []));
    OneMore(s, WorkspaceChecked(0, true), actions);
    actions := [WorkspaceChecked(0, true)] + actions;
  }

  lemma Names()
    ensures !Blank("a") && !Blank("b")
  {
    assert 'a' in "a" && 'b' in "b";
  }

  /** Two starts, the second while the first is under way: the second resolves with the workspace of the first. */
  lemma SecondStartSharesTheFirst() returns (actions: seq<Action>)
    ensures Possible(NEW, actions)
    ensures var t := Replay(NEW, actions);
            && t.calls == [StartFor("a", SharesStart(0)), StartFor("b", SharesStart(0))]
            && OutcomeOf(t, 1) == Some(Resolved(Running(0, "a")))
  {
    Names();
    var one := After(NEW, CallStart("a"));
    assert one.calls == [StartFor("a", SharesStart(0))];
    var two := After(one, CallStart("b"));
    assert two.calls == [StartFor("a", SharesStart(0)), StartFor("b", SharesStart(0))];
    actions := StartGoesThrough(two);
    hide After;
    OneMore(one, CallStart("b"), actions);
    OneMore(NEW, CallStart("a"), [CallStart("b")] + actions);
    actions := [CallStart("a")] + ([CallStart("b")] + actions);
  }

  /** A stop is about to be reported; a start and then a restart wait for it. */
  const BOTH_WAIT := State(
    None, None, None, Some(0), [], [StopSettled(Resolved(Stopped))],
    [Waiting("a", 0, 1), Waiting("b", 0, 2)],
    [StopAsked(SharesStop(0)), StartFor("a", PutOff(0)), StartFor("b", PutOff(0))],
    [], {})

  lemma BothCanWait(rest: seq<Action>)
    requires Possible(BOTH_WAIT, rest)
    ensures var actions := [CallStop] + ([CallStart("a")] + ([CallRestart("b")] + rest));
            Possible(NEW, actions) && Replay(NEW, actions) == Replay(BOTH_WAIT, rest)
  {
    Names();
    var stopping := After(NEW, CallStop);
    var first := After(stopping, CallStart("a"));
    assert After(first, CallRestart("b")) == BOTH_WAIT;
    hide After;
    OneMore(first, CallRestart("b"), rest);
    OneMore(stopping, CallStart("a"), [CallRestart("b")] + rest);
    OneMore(NEW, CallStop, [CallStart("a")] + ([CallRestart("b")] + rest));
  }

  /** A stop, a start and a restart waiting for it: the start wakes first, and the restart gets its workspace. */
  lemma RestartIsOvertaken() returns (actions: seq<Action>)
    ensures Possible(NEW, actions)
    ensures var t := Replay(NEW, actions);
            && |t.calls| == 3 && t.calls[2] == StartFor("b", SharesStart(0))
            && OutcomeOf(t, 2) == Some(Resolved(Running(0, "a")))
  {
    Names();
    var stopped := After(BOTH_WAIT, ReportStop(0));
    assert stopped.stops == [StopReported(Resolved(Stopped))];
    var woken := After(stopped, WakeWaiting(0));
    assert woken.waiting == [Waiting("b", 0, 2)];
    assert woken.starts == [StartOperation("a", CheckingWorkspace)];
    var shared := After(woken, WakeWaiting(0));
    assert shared.starts == woken.starts && shared.calls[2] == StartFor("b", SharesStart(0));
    actions := StartGoesThrough(shared);
    hide After;
    OneMore(woken, WakeWaiting(0), actions);
    actions := [WakeWaiting(0)] + actions;
    OneMore(stopped, WakeWaiting(0), actions);
    actions := [WakeWaiting(0)] + actions;
    OneMore(BOTH_WAIT, ReportStop(0), actions);
    actions := [ReportStop(0)] + actions;
    BothCanWait(actions);
    actions := [CallStop] + ([CallStart("a")] + ([CallRestart("b")] + actions));
  }
}
