/** The desktop lifecycle of the MCP server: overlapping start, stop and restart calls, cut at every await. */
module McpLifecycle {
  import opened Wrappers
  import opened TextLines

  /** What a settled start or stop promise carries: the status at that moment, or an error. */
  datatype Status = Stopped | Running(server: nat, workspace: string)

  datatype Outcome = Resolved(status: Status) | Rejected

  /** Where a start operation is: between two awaits, settled, or settled and cleared from its field. */
  datatype StartPhase =
    | CheckingWorkspace
    | AwaitingServer
    | ServerReady(server: nat)
    | StartSettled(outcome: Outcome)
    | StartReported(outcome: Outcome)

  datatype StartOperation = StartOperation(workspace: string, phase: StartPhase)

  datatype StopOperation =
    | AwaitingStart(start: nat)
    | Closing(server: nat)
    | Closed(server: nat)
    | StopSettled(outcome: Outcome)
    | StopReported(outcome: Outcome)

  /** A start that was put off until a stop has been reported, and the call it answers. */
  datatype Waiting = Waiting(workspace: string, stop: nat, call: nat)

  /** The promise a caller holds: settled, that of an operation it may share with other calls, or not begun yet. */
  datatype Answer =
    | Settled(outcome: Outcome)
    | SharesStart(start: nat)
    | SharesStop(stop: nat)
    | PutOff(stop: nat)

  /** A call and its promise; a restart asks for a start, too. */
  datatype Call = StartFor(workspace: string, answer: Answer) | StopAsked(answer: Answer)

  /**
   The four fields of the lifecycle, the operations it has begun and the calls it has answered (named by their
   positions), and what is true of the outside: every server ever built, with its workspace, and the servers
   that are open.
   */
  datatype State = State(
    handle: Option<nat>,
    workspaceId: Option<string>,
    startOperation: Option<nat>,
    stopOperation: Option<nat>,
    starts: seq<StartOperation>,
    stops: seq<StopOperation>,
    waiting: seq<Waiting>,
    calls: seq<Call>,
    built: seq<string>,
    open: set<nat>)

  const NEW := State(None, None, None, None, [], [], [], [], [], {})

  function StatusOf(handle: Option<nat>, workspaceId: Option<string>): Status {
    if handle.None? || workspaceId.None? then Stopped else Running(handle.value, workspaceId.value)
  }

  datatype Action =
    | CallStart(workspace: string)
    | CallStop
    | CallRestart(workspace: string)
    | WorkspaceChecked(start: nat, found: bool)
    | ServerStarted(start: nat)
    | StarterFailed(start: nat)
    | InstallHandle(start: nat)
    | ReportStart(start: nat)
    | ResumeStop(stop: nat)
    | CloseSucceeded(stop: nat)
    | CloseFailed(stop: nat, stillOpen: bool)
    | ClearHandle(stop: nat)
    | ReportStop(stop: nat)
    | WakeWaiting(entry: nat)

  predicate StartIn(s: State, op: nat, phase: StartPhase -> bool) {
    op < |s.starts| && phase(s.starts[op].phase)
  }

  predicate StopIn(s: State, op: nat, phase: StopOperation -> bool) {
    op < |s.stops| && phase(s.stops[op])
  }

  predicate StartIsReported(s: State, op: nat) {
    StartIn(s, op, (p: StartPhase) => p.StartReported?)
  }

  predicate StopIsReported(s: State, op: nat) {
    StopIn(s, op, (p: StopOperation) => p.StopReported?)
  }

  /** The action can be the next thing to happen. */
  predicate Enabled(s: State, a: Action) {
    match a
    case CallStart(_) => true
    case CallStop => true
    case CallRestart(_) => true
    case WorkspaceChecked(op, _) => StartIn(s, op, (p: StartPhase) => p.CheckingWorkspace?)
    case ServerStarted(op) => StartIn(s, op, (p: StartPhase) => p.AwaitingServer?)
    case StarterFailed(op) => StartIn(s, op, (p: StartPhase) => p.AwaitingServer?)
    case InstallHandle(op) => StartIn(s, op, (p: StartPhase) => p.ServerReady?)
    case ReportStart(op) => StartIn(s, op, (p: StartPhase) => p.StartSettled?)
    case ResumeStop(op) => StopIn(s, op, (p: StopOperation) => p.AwaitingStart? && StartIsReported(s, p.start))
    case CloseSucceeded(op) => StopIn(s, op, (p: StopOperation) => p.Closing?)
    case CloseFailed(op, _) => StopIn(s, op, (p: StopOperation) => p.Closing?)
    case ClearHandle(op) => StopIn(s, op, (p: StopOperation) => p.Closed?)
    case ReportStop(op) => StopIn(s, op, (p: StopOperation) => p.StopSettled?)
    case WakeWaiting(k) => k < |s.waiting| && StopIsReported(s, s.waiting[k].stop) && s.waiting[k].call < |s.calls|
  }

  /** The promise `start` returns. */
  function AnswerTo(s: State, workspace: string): Answer {
    if Blank(workspace) then Settled(Rejected)
    else if s.stopOperation.Some? then PutOff(s.stopOperation.value)
    else if s.handle.Some? then Settled(Resolved(StatusOf(s.handle, s.workspaceId)))
    else if s.startOperation.Some? then SharesStart(s.startOperation.value)
    else SharesStart(|s.starts|)
  }

  /** `start` for a call: refuse a blank workspace, wait for a stop, or share what is there, or else begin. */
  function AfterStart(s: State, workspace: string, call: nat): State {
    if Blank(workspace) then s
    else if s.stopOperation.Some? then s.(waiting := s.waiting + [Waiting(workspace, s.stopOperation.value, call)])
    else if s.handle.Some? || s.startOperation.Some? then s
    else s.(starts := s.starts + [StartOperation(workspace, CheckingWorkspace)], startOperation := Some(|s.starts|))
  }

  /** The stop operation once no start is in its way: nothing to do, or the server to close. */
  function CloseOrSettle(s: State): StopOperation {
    if s.handle.None? then StopSettled(Resolved(StatusOf(s.handle, s.workspaceId))) else Closing(s.handle.value)
  }

  /** `stop`: share the stop that is under way, or begin one. */
  function AfterStop(s: State): State {
    if s.stopOperation.Some? then s
    else
      var first := if s.startOperation.Some? then AwaitingStart(s.startOperation.value) else CloseOrSettle(s);
      s.(stops := s.stops + [first], stopOperation := Some(|s.stops|))
  }

  /** `restart` stops first, and puts the start off until then. */
  function AfterRestart(s: State, workspace: string): State {
    var stopped := AfterStop(s);
    if stopped.stopOperation.None? then stopped
    else
      var stop := stopped.stopOperation.value;
      stopped.(waiting := stopped.waiting + [Waiting(workspace, stop, |s.calls|)],
      calls := s.calls + [StartFor(workspace, PutOff(stop))])
  }

  function SetStart(s: State, op: nat, phase: StartPhase): State
    requires op < |s.starts|
  {
    s.(starts := s.starts[op := s.starts[op].(phase := phase)])
  }

  function SetStop(s: State, op: nat, phase: StopOperation): State
    requires op < |s.stops|
  {
    s.(stops := s.stops[op := phase])
  }

  /** A start was refused before any handle was stored: the promise rejects. */
  function FailStart(s: State, op: nat): State
    requires op < |s.starts|
  {
    SetStart(s, op, StartSettled(Rejected))
  }

  /** A stop resumes after its start: a failed start leaves nothing to close. */
  function Resume(s: State, op: nat): State
    requires StopIn(s, op, (p: StopOperation) => p.AwaitingStart? && StartIsReported(s, p.start))
  {
    if s.starts[s.stops[op].start].phase.outcome.Rejected?
    then SetStop(s, op, StopSettled(Resolved(StatusOf(s.handle, s.workspaceId))))
    else SetStop(s, op, CloseOrSettle(s))
  }

  function SetAnswer(calls: seq<Call>, call: nat, answer: Answer): seq<Call>
    requires call < |calls|
  {
    calls[call := calls[call].(answer := answer)]
  }

  function Wake(s: State, k: nat): State
    requires k < |s.waiting| && StopIsReported(s, s.waiting[k].stop) && s.waiting[k].call < |s.calls|
  {
    var entry := s.waiting[k];
    var rest := s.(waiting := s.waiting[..k] + s.waiting[k + 1..]);
    if s.stops[entry.stop].outcome.Rejected? then rest.(calls := SetAnswer(s.calls, entry.call, Settled(Rejected)))
    else
      AfterStart(rest, entry.workspace, entry.call)
      .(calls := SetAnswer(s.calls, entry.call, AnswerTo(rest, entry.workspace)))
  }

  function Cleared(field: Option<nat>, op: nat): Option<nat> {
    if field == Some(op) then None else field
  }

  function After(s: State, a: Action): State
    requires Enabled(s, a)
  {
    match a
    case CallStart(workspace) =>
      AfterStart(s, workspace, |s.calls|).(calls := s.calls + [StartFor(workspace, AnswerTo(s, workspace))])
    case CallStop =>
      var stop := if s.stopOperation.Some? then s.stopOperation.value else |s.stops|;
      AfterStop(s).(calls := s.calls + [StopAsked(SharesStop(stop))])
    case CallRestart(workspace) => AfterRestart(s, workspace)
    case WorkspaceChecked(op, found) =>
      if found then SetStart(s, op, AwaitingServer) else FailStart(s, op)
    case ServerStarted(op) =>
      SetStart(s, op, ServerReady(|s.built|))
      .(built := s.built + [s.starts[op].workspace], open := s.open + {|s.built|})
    case StarterFailed(op) => FailStart(s, op)
    case InstallHandle(op) =>
      var server := s.starts[op].phase.server;
      SetStart(s, op, StartSettled(Resolved(Running(server, s.starts[op].workspace))))
      .(handle := Some(server), workspaceId := Some(s.starts[op].workspace))
    case ReportStart(op) =>
      SetStart(s, op, StartReported(s.starts[op].phase.outcome)).(startOperation := Cleared(s.startOperation, op))
    case ResumeStop(op) => Resume(s, op)
    case CloseSucceeded(op) => SetStop(s, op, Closed(s.stops[op].server)).(open := s.open - {s.stops[op].server})
    case CloseFailed(op, stillOpen) =>
      SetStop(s, op, StopSettled(Rejected)).(open := if stillOpen then s.open else s.open - {s.stops[op].server})
    case ClearHandle(op) => SetStop(s, op, StopSettled(Resolved(Stopped))).(handle := None, workspaceId := None)
    case ReportStop(op) =>
      SetStop(s, op, StopReported(s.stops[op].outcome)).(stopOperation := Cleared(s.stopOperation, op))
    case WakeWaiting(k) => Wake(s, k)
  }

  /** The lifecycle object: its four fields, and the operations and calls behind the promises it has handed out. */
  class DesktopMcpLifecycle {
    var handle: Option<nat>
    var workspaceId: Option<string>
    var startOperation: Option<nat>
    var stopOperation: Option<nat>
    var starts: seq<StartOperation>
    var stops: seq<StopOperation>
    var waiting: seq<Waiting>
    var calls: seq<Call>
    ghost var built: seq<string>
    ghost var open: set<nat>

    ghost function Now(): State
      reads this
    {
      State(handle, workspaceId, startOperation, stopOperation, starts, stops, waiting, calls, built, open)
    }

    constructor ()
      ensures Now() == NEW
    {
      handle, workspaceId, startOperation, stopOperation := None, None, None, None;
      starts, stops, waiting, calls := [], [], [], [];
      built, open := [], {};
    }

    method Status() returns (status: Status)
      ensures status.Running? <==> handle.Some? && workspaceId.Some?
      ensures status.Running? ==> handle == Some(status.server) && workspaceId == Some(status.workspace)
    {
      if handle.None? || workspaceId.None? {
        return Stopped;
      }
      return Running(handle.value, workspaceId.value);
    }

    /** A call of `start`, which gets the promise that `Begin` answers with. */
    method Start(workspace: string) returns (call: nat)
      modifies this
      ensures Now() == After(old(Now()), CallStart(workspace))
      ensures call == |old(calls)| && calls[call].answer == AnswerTo(old(Now()), workspace)
      // a stop under way comes first, then what is stored, then the start under way
      ensures Blank(workspace) ==> calls[call].answer == Settled(Rejected) && starts == old(starts)
      ensures !Blank(workspace) && old(stopOperation).Some? ==>
                && calls[call].answer == PutOff(old(stopOperation).value) && starts == old(starts)
                && waiting == old(waiting) + [Waiting(workspace, old(stopOperation).value, call)]
      ensures !Blank(workspace) && old(stopOperation).None? && old(handle).Some? && old(workspaceId).Some? ==>
                && calls[call].answer == Settled(Resolved(Running(old(handle).value, old(workspaceId).value)))
                && starts == old(starts)
      ensures !Blank(workspace) && old(stopOperation).None? && old(handle).None? && old(startOperation).Some? ==>
                calls[call].answer == SharesStart(old(startOperation).value) && starts == old(starts)
      ensures !Blank(workspace) && old(stopOperation).None? && old(handle).None? && old(startOperation).None? ==>
                && calls[call].answer == SharesStart(|old(starts)|)
                && starts == old(starts) + [StartOperation(workspace, CheckingWorkspace)]
    {
      call := |calls|;
      var answer := Begin(workspace, call);
      calls := calls + [StartFor(workspace, answer)];
    }

    /** The body of `start`, for a new call or for one that was put off. */
    method Begin(workspace: string, call: nat) returns (answer: Answer)
      modifies this
      ensures Now() == AfterStart(old(Now()), workspace, call)
      ensures answer == AnswerTo(old(Now()), workspace)
    {
      if Blank(workspace) {
        return Settled(Rejected);
      }
      if stopOperation.Some? {
        waiting := waiting + [Waiting(workspace, stopOperation.value, call)];
        return PutOff(stopOperation.value);
      }
      if handle.Some? {
        var status := Status();
        return Settled(Resolved(status));
      }
      if startOperation.Some? {
        return SharesStart(startOperation.value);
      }
      startOperation := Some(|starts|);
      starts := starts + [StartOperation(workspace, CheckingWorkspace)];
      return SharesStart(startOperation.value);
    }

    /** A call of `stop`, which shares the stop that is under way when it returns. */
    method Stop() returns (call: nat)
      modifies this
      ensures Now() == After(old(Now()), CallStop)
      ensures call == |old(calls)| && stopOperation.Some? && calls[call] == StopAsked(SharesStop(stopOperation.value))
    {
      call := |calls|;
      BeginStop();
      calls := calls + [StopAsked(SharesStop(stopOperation.value))];
    }

    /** The body of `stop`. */
    method BeginStop()
      modifies this
      ensures Now() == AfterStop(old(Now()))
      ensures stopOperation == if old(stopOperation).Some? then old(stopOperation) else Some(|old(stops)|)
    {
      if stopOperation.Some? {
        return;
      }
      stopOperation := Some(|stops|);
      if startOperation.Some? {
        stops := stops + [AwaitingStart(startOperation.value)];
      } else {
        var status := Status();
        stops := stops + [if handle.None? then StopSettled(Resolved(status)) else Closing(handle.value)];
      }
    }

    method Restart(workspace: string) returns (call: nat)
      modifies this
      ensures Now() == After(old(Now()), CallRestart(workspace))
      ensures call == |old(calls)| && stopOperation.Some?
      ensures calls[call] == StartFor(workspace, PutOff(stopOperation.value))
    {
      call := |calls|;
      BeginStop();
      waiting := waiting + [Waiting(workspace, stopOperation.value, call)];
      calls := calls + [StartFor(workspace, PutOff(stopOperation.value))];
    }

    /** `startInternal` after its first await. */
    method AfterWorkspaceCheck(op: nat, found: bool)
      requires Enabled(Now(), WorkspaceChecked(op, found))
      modifies this
      ensures Now() == After(old(Now()), WorkspaceChecked(op, found))
      ensures op < |starts| && starts[op].workspace == old(starts)[op].workspace
      ensures starts[op].phase == if found then AwaitingServer else StartSettled(Rejected)
    {
      var next := if found then AwaitingServer else StartSettled(Rejected);
      starts := starts[op := starts[op].(phase := next)];
    }

    /**
     `startInternal` after its second await: the starter has answered, with a server never seen before or with an
     error.
     */
    method AfterStarter(op: nat, server: Option<nat>)
      requires Enabled(Now(), ServerStarted(op))
      requires server.Some? ==> server.value == |built|
      modifies this
      ensures Now() == After(old(Now()), if server.Some? then ServerStarted(op) else StarterFailed(op))
    {
      var next := if server.Some? then ServerReady(server.value) else StartSettled(Rejected);
      starts := starts[op := starts[op].(phase := next)];
      if server.Some? {
        built, open := built + [starts[op].workspace], open + {server.value};
      }
    }

    /** The rest of `startInternal`: the only place that stores a handle. */
    method FinishStart(op: nat)
      requires Enabled(Now(), InstallHandle(op))
      modifies this
      ensures Now() == After(old(Now()), InstallHandle(op))
    {
      handle := Some(starts[op].phase.server);
      workspaceId := Some(starts[op].workspace);
      var status := Status();
      starts := starts[op := starts[op].(phase := StartSettled(Resolved(status)))];
    }

    method StartDone(op: nat)
      requires Enabled(Now(), ReportStart(op))
      modifies this
      ensures Now() == After(old(Now()), ReportStart(op))
    {
      if startOperation == Some(op) {
        startOperation := None;
      }
      starts := starts[op := starts[op].(phase := StartReported(starts[op].phase.outcome))];
    }

    /** `stopInternal` after it has waited for a start. */
    method AfterAwaitedStart(op: nat)
      requires Enabled(Now(), ResumeStop(op))
      modifies this
      ensures Now() == After(old(Now()), ResumeStop(op))
    {
      var status := Status();
      if starts[stops[op].start].phase.outcome.Rejected? {
        stops := stops[op := StopSettled(Resolved(status))];
      } else if handle.None? {
        stops := stops[op := StopSettled(Resolved(status))];
      } else {
        stops := stops[op := Closing(handle.value)];
      }
    }

    /** The server answers its close; a server that refuses to close may or may not still be open. */
    method AfterClose(op: nat, closed: bool, stillOpen: bool)
      requires Enabled(Now(), CloseSucceeded(op))
      modifies this
      ensures Now() == After(old(Now()), if closed then CloseSucceeded(op) else CloseFailed(op, stillOpen))
    {
      if closed || !stillOpen {
        open := open - {stops[op].server};
      }
      stops := stops[op := if closed then Closed(stops[op].server) else StopSettled(Rejected)];
    }

    /** The rest of `stopInternal`: the only place that drops a handle. */
    method FinishStop(op: nat)
      requires Enabled(Now(), ClearHandle(op))
      modifies this
      ensures Now() == After(old(Now()), ClearHandle(op))
    {
      handle := None;
      workspaceId := None;
      var status := Status();
      stops := stops[op := StopSettled(Resolved(status))];
    }

    method StopDone(op: nat)
      requires Enabled(Now(), ReportStop(op))
      modifies this
      ensures Now() == After(old(Now()), ReportStop(op))
    {
      if stopOperation == Some(op) {
        stopOperation := None;
      }
      stops := stops[op := StopReported(stops[op].outcome)];
    }

    /** A put-off start runs when the stop it waits for has resolved, and fails with it otherwise. */
    method WakeUp(k: nat)
      requires Enabled(Now(), WakeWaiting(k))
      modifies this
      ensures Now() == After(old(Now()), WakeWaiting(k))
      ensures old(stops)[old(waiting)[k].stop].outcome.Rejected? ==>
                starts == old(starts) && calls == SetAnswer(old(calls), old(waiting)[k].call, Settled(Rejected))
    {
      var entry := waiting[k];
      waiting := waiting[..k] + waiting[k + 1..];
      var answer := Settled(Rejected);
      if stops[entry.stop].outcome.Resolved? {
        answer := Begin(entry.workspace, entry.call);
      }
      calls := SetAnswer(calls, entry.call, answer);
    }
  }
}
