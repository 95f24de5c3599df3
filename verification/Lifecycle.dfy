/**
 The bare-metal lifecycle as a step machine: the goroutine that runs `Create` and then `Wait`
 (pkg/cluster/baremetal/create.go), one waiter goroutine per process (pkg/components/run.go), the
 processes themselves, signals and the caller's timeout, interleaved in any order.
 Timers, health answers, exit statuses and file system failures are actions of the environment.
 */
module Lifecycle {
  import opened Text

  // ---- State ----

  datatype Kind = Etcd | MetaSrv | Datanode | Frontend

  datatype Proc = Proc(kind: Kind, index: nat)

  /** How a process ended. */
  datatype Ending = Zero | KillOrInterrupt | Other

  /** What `cmd.Wait` told the waiter; an output copy or context error can turn success into failure. */
  datatype Report = Success | Ignored | Failure

  datatype Status = Running | Exited(ending: Ending)

  /** `NoWaiter`: the process was started but `runBinary` failed before spawning its goroutine. */
  datatype Waiter = NoWaiter | Spawned | Added | Saw(report: Report) | Stopped | Finished(report: Report)

  datatype ProcState = ProcState(status: Status, waiter: Waiter)

  datatype Config = Config(metaSrvs: nat, datanodes: nat, frontends: nat) {
    function Replicas(k: Kind): nat {
      match k
      case Etcd => 1
      case MetaSrv => metaSrvs
      case Datanode => datanodes
      case Frontend => frontends
    }
  }

  datatype Phase =
    | AcquireEtcd
    | Launch(kind: Kind, index: nat)
    | Probe(retry: nat)
    | AcquireGreptime
    | Idle(kind: Kind)                 // the checker's select
    | Polling(kind: Kind, index: nat)  // inside one IsRunning pass
    | Created
    | Failed
    | Waiting                          // in wg.Wait
    | Drained                          // wg.Wait returned, waiting for the context
    | Returned

  /** What the `Create` goroutine did, in program order. */
  datatype Event =
    | Launched(proc: Proc)
    | NoLeader
    | Ready
    | PassStart(kind: Kind)
    | Polled(kind: Kind, index: nat, healthy: bool)

  /** `late`: the processes whose waiter had not called `Add` yet when `wg.Wait` saw zero. */
  datatype State = State(
    phase: Phase,
    log: seq<Event>,
    procs: map<Proc, ProcState>,
    wg: int,
    ctxDone: bool,
    signalled: bool,
    callerDone: bool,
    late: set<Proc>)

  const INIT := State(AcquireEtcd, [], map[], 0, false, false, false, {})

  const MAX_PROBES := 10

  // ---- Actions ----

  /** How a binary is come by: only a download depends on the caller's context. */
  datatype Acquisition = Downloaded | LocalOrCached | NotAcquired

  datatype Action =
    | Acquire(how: Acquisition)
    | LaunchOk
    | LaunchFail(started: bool)
    | LaunchesDone
    | ProbeSkip
    | ProbeAnswer(leader: bool)
    | ProbeError
    | ProbesSpent
    | Tick
    | Poll(healthy: bool)
    | PassDone
    | CheckerCancelled
    | BeginWait
    | WgZero
    | CtxSeen
    | Exit(proc: Proc, ending: Ending)
    | WaiterAdd(proc: Proc)
    | WaiterSaw(proc: Proc, report: Report)
    | WaiterStop(proc: Proc)
    | WaiterDone(proc: Proc)
    | Signal
    | CallerTimeout  // the context given to `Create` ends, by its timeout or a signal

  predicate Reports(e: Ending, r: Report) {
    match e
    case Zero => r != Ignored
    case KillOrInterrupt => r == Ignored
    case Other => r == Failure
  }

  predicate WaiterIs(s: State, p: Proc, w: Waiter) {
    p in s.procs && s.procs[p].waiter == w
  }

  predicate Enabled(c: Config, s: State, a: Action) {
    match a
    case Acquire(how) =>
      (s.phase == AcquireEtcd || s.phase == AcquireGreptime) && (how == Downloaded ==> !s.callerDone)
    case LaunchOk => s.phase.Launch? && s.phase.index < c.Replicas(s.phase.kind) && !s.ctxDone
    case LaunchFail(started) => s.phase.Launch? && s.phase.index < c.Replicas(s.phase.kind) && (started ==> !s.ctxDone)
    case LaunchesDone => s.phase.Launch? && s.phase.index == c.Replicas(s.phase.kind)
    case ProbeSkip => s.phase == Probe(0)
    case ProbeAnswer(_) => s.phase.Probe? && s.phase.retry < MAX_PROBES
    case ProbeError => s.phase.Probe? && s.phase.retry < MAX_PROBES
    case ProbesSpent => s.phase == Probe(MAX_PROBES)
    case Tick => s.phase.Idle?
    case Poll(_) => s.phase.Polling? && s.phase.index < c.Replicas(s.phase.kind)
    case PassDone => s.phase.Polling? && s.phase.index == c.Replicas(s.phase.kind)
    case CheckerCancelled => s.phase.Idle? && s.ctxDone
    case BeginWait => s.phase == Created
    case WgZero => s.phase == Waiting && s.wg == 0
    case CtxSeen => s.phase == Drained && s.ctxDone
    case Exit(p, _) => p in s.procs && s.procs[p].status == Running
    case WaiterAdd(p) => WaiterIs(s, p, Spawned)
    case WaiterSaw(p, r) => WaiterIs(s, p, Added) && s.procs[p].status.Exited? && Reports(s.procs[p].status.ending, r)
    case WaiterStop(p) => WaiterIs(s, p, Saw(Failure))
    case WaiterDone(p) => WaiterIs(s, p, Saw(Success)) || WaiterIs(s, p, Saw(Ignored)) || WaiterIs(s, p, Stopped)
    case Signal => true
    case CallerTimeout => true
  }

  function AfterLaunches(k: Kind): Phase {
    match k
    case Etcd => Probe(0)
    case MetaSrv => Idle(MetaSrv)
    case Datanode => Idle(Datanode)
    case Frontend => Created
  }

  /** Only metasrv and datanodes are checked before `Create` goes on. */
  function AfterPass(k: Kind): Phase {
    if k == MetaSrv then Launch(Datanode, 0) else Launch(Frontend, 0)
  }

  function SetWaiter(s: State, p: Proc, w: Waiter): State
    requires p in s.procs
  {
    s.(procs := s.procs[p := s.procs[p].(waiter := w)])
  }

  function Unadded(procs: map<Proc, ProcState>): set<Proc> {
    set p | p in procs && procs[p].waiter == Spawned
  }

  function Do(c: Config, s: State, a: Action): State
    requires Enabled(c, s, a)
  {
    match a
    case Acquire(how) =>
      s.(phase := if how == NotAcquired then Failed else if s.phase == AcquireEtcd then Launch(Etcd, 0) else Launch(MetaSrv, 0))
    case LaunchOk =>
      var p := Proc(s.phase.kind, s.phase.index);
      s.(phase := Launch(p.kind, p.index + 1), log := s.log + [Launched(p)],
         procs := s.procs[p := ProcState(Running, Spawned)])
    case LaunchFail(started) =>
      var p := Proc(s.phase.kind, s.phase.index);
      s.(phase := Failed, procs := if started then s.procs[p := ProcState(Running, NoWaiter)] else s.procs)
    case LaunchesDone => s.(phase := AfterLaunches(s.phase.kind))
    case ProbeSkip => s.(phase := AcquireGreptime, log := s.log + [Ready])
    case ProbeAnswer(leader) =>
      if leader then s.(phase := AcquireGreptime, log := s.log + [Ready])
      else s.(phase := Probe(s.phase.retry + 1), log := s.log + [NoLeader])
    case ProbeError => s.(phase := Failed)
    case ProbesSpent => s.(phase := Failed)
    case Tick => s.(phase := Polling(s.phase.kind, 0), log := s.log + [PassStart(s.phase.kind)])
    case Poll(healthy) =>
      s.(phase := if healthy then Polling(s.phase.kind, s.phase.index + 1) else Idle(s.phase.kind),
         log := s.log + [Polled(s.phase.kind, s.phase.index, healthy)])
    case PassDone => s.(phase := AfterPass(s.phase.kind))
    case CheckerCancelled => s.(phase := Failed)
    case BeginWait => s.(phase := Waiting)
    case WgZero => s.(phase := Drained, late := Unadded(s.procs))
    case CtxSeen => s.(phase := Returned)
    case Exit(p, e) => s.(procs := s.procs[p := s.procs[p].(status := Exited(e))])
    case WaiterAdd(p) => SetWaiter(s, p, Added).(wg := s.wg + 1)
    case WaiterSaw(p, r) => SetWaiter(s, p, Saw(r))
    case WaiterStop(p) => SetWaiter(s, p, Stopped).(ctxDone := true)
    case WaiterDone(p) =>
      var r := if s.procs[p].waiter == Stopped then Failure else s.procs[p].waiter.report;
      SetWaiter(s, p, Finished(r)).(wg := s.wg - 1)
    case Signal => s.(ctxDone := true, signalled := true)
    case CallerTimeout => s.(callerDone := true)
  }

  /** Where a list of actions leads, if each is enabled in its turn. */
  function Exec(c: Config, s: State, acts: seq<Action>): Option<State>
    decreases |acts|
  {
    if acts == [] then Some(s)
    else if Enabled(c, s, acts[0]) then Exec(c, Do(c, s, acts[0]), acts[1..])
    else None
  }

  ghost predicate Reachable(c: Config, s: State) {
    exists acts :: Exec(c, INIT, acts) == Some(s)
  }
}
