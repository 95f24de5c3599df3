/**
 Waiters, the wait group, the shared context and the drain at the end of `Wait`; then the theorems
 about every reachable state.
 */
module LifecycleDrain {
  import opened Text
  import opened Lifecycle
  import opened LifecycleSafety

  /** The waiter is past `wg.Add(1)` and before `wg.Done()`. */
  predicate Counted(w: Waiter) {
    w == Added || w.Saw? || w == Stopped
  }

  function InFlight(procs: map<Proc, ProcState>): set<Proc> {
    set p | p in procs && Counted(procs[p].waiter)
  }

  /** The waiter saw a failure and has called `stop`. */
  predicate HasStopped(w: Waiter) {
    w == Stopped || w == Finished(Failure)
  }

  ghost predicate SomeStopped(procs: map<Proc, ProcState>) {
    exists p :: p in procs && HasStopped(procs[p].waiter)
  }

  ghost predicate ProcsInv(s: State) {
    && (forall p :: p in Launches(s.log) <==> p in s.procs && s.procs[p].waiter != NoWaiter)
    && (s.phase != Failed ==> forall p | p in s.procs :: s.procs[p].waiter != NoWaiter)
  }

  /** A waiter that has seen its process's end saw a real one. */
  predicate WaiterOk(ps: ProcState) {
    match ps.waiter
    case Saw(r) => ps.status.Exited? && Reports(ps.status.ending, r)
    case Stopped => ps.status.Exited? && Reports(ps.status.ending, Failure)
    case Finished(r) => ps.status.Exited? && Reports(ps.status.ending, r)
    case _ => true
  }

  ghost predicate WaitersInv(s: State) {
    && s.wg == |InFlight(s.procs)|
    && (forall p | p in s.procs :: WaiterOk(s.procs[p]))
    && (s.ctxDone <==> s.signalled || SomeStopped(s.procs))
  }

  ghost predicate DrainInv(s: State) {
    && (s.phase == Drained || s.phase == Returned ==>
          forall p | p in s.procs :: p in s.late || s.procs[p].waiter.Finished?)
    && (s.phase == Returned ==> s.ctxDone)
  }

  ghost predicate Inv(c: Config, s: State) {
    OrderInv(c, s) && ProcsInv(s) && WaitersInv(s) && DrainInv(s)
  }

  // ---- One action keeps the invariant ----

  function StageOf(k: Kind): nat {
    match k
    case Etcd => 0
    case MetaSrv => 1
    case Datanode => 2
    case Frontend => 3
  }

  lemma {:induction false} ThroughKinds(c: Config, k: Kind, p: Proc)
    requires p in Through(c, k)
    ensures StageOf(p.kind) <= StageOf(k)
    decreases StageOf(k)
  {
    if k != Etcd && p in Before(c, k) {
      ThroughKinds(c, if k == MetaSrv then Etcd else if k == Datanode then MetaSrv else Datanode, p);
    }
  }

  lemma NotLaunchedTwice(c: Config, k: Kind, i: nat)
    ensures Proc(k, i) !in Before(c, k) + Reps(k, i)
  {
    if k != Etcd && Proc(k, i) in Before(c, k) {
      ThroughKinds(c, if k == MetaSrv then Etcd else if k == Datanode then MetaSrv else Datanode, Proc(k, i));
    }
  }

  lemma NextIsNew(c: Config, s: State)
    requires OrderInv(c, s) && ProcsInv(s) && s.phase.Launch?
    ensures Proc(s.phase.kind, s.phase.index) !in s.procs
  {
    NotLaunchedTwice(c, s.phase.kind, s.phase.index);
  }

  /** The event an action logs, if it logs one. */
  function Logged(s: State, a: Action): Option<Event> {
    match a
    case LaunchOk => if s.phase.Launch? then Some(Launched(Proc(s.phase.kind, s.phase.index))) else None
    case ProbeSkip => Some(Ready)
    case ProbeAnswer(leader) => Some(if leader then Ready else NoLeader)
    case Tick => if s.phase.Idle? then Some(PassStart(s.phase.kind)) else None
    case Poll(healthy) => if s.phase.Polling? then Some(Polled(s.phase.kind, s.phase.index, healthy)) else None
    case _ => None
  }

  lemma LogAfter(c: Config, s: State, a: Action)
    requires Enabled(c, s, a)
    ensures Do(c, s, a).log == match Logged(s, a) case None => s.log case Some(e) => s.log + [e]
    ensures a == LaunchOk ==> s.phase.Launch?
  {
  }

  lemma LogUntouched(c: Config, s: State, a: Action)
    requires Enabled(c, s, a)
    ensures a == LaunchOk ==> s.phase.Launch?
    ensures Launches(Do(c, s, a).log) == Launches(s.log) + if a == LaunchOk then [Proc(s.phase.kind, s.phase.index)] else []
  {
    hide Enabled, Do;
    LogAfter(c, s, a);
    if Logged(s, a).Some? {
      LogGrows(s.log, Logged(s, a).value);
    }
  }

  lemma LaunchKeepsProcs(c: Config, s: State)
    requires OrderInv(c, s) && ProcsInv(s) && Enabled(c, s, LaunchOk)
    ensures ProcsInv(Do(c, s, LaunchOk))
  {
    var p := Proc(s.phase.kind, s.phase.index);
    LogUntouched(c, s, LaunchOk);
    NextIsNew(c, s);
    var t := Do(c, s, LaunchOk);
    forall q ensures q in Launches(t.log) <==> q in t.procs && t.procs[q].waiter != NoWaiter {
      assert q in Launches(t.log) <==> q in Launches(s.log) || q == p;
    }
  }

  /** The process an action writes to, if it writes to one. */
  function Touched(s: State, a: Action): Option<Proc> {
    match a
    case LaunchOk => if s.phase.Launch? then Some(Proc(s.phase.kind, s.phase.index)) else None
    case LaunchFail(started) => if started && s.phase.Launch? then Some(Proc(s.phase.kind, s.phase.index)) else None
    case Exit(p, _) => Some(p)
    case WaiterAdd(p) => Some(p)
    case WaiterSaw(p, _) => Some(p)
    case WaiterStop(p) => Some(p)
    case WaiterDone(p) => Some(p)
    case _ => None
  }

  lemma TouchedProcs(c: Config, s: State, a: Action)
    requires Enabled(c, s, a)
    ensures var t := Do(c, s, a);
            match Touched(s, a)
            case None => t.procs == s.procs
            case Some(p) => p in t.procs && t.procs == s.procs[p := t.procs[p]]
  {
  }

  /** What an action does to the waiter it touches. */
  lemma TouchedWaiter(c: Config, s: State, a: Action, p: Proc)
    requires Enabled(c, s, a) && a != LaunchOk && !a.LaunchFail? && Touched(s, a) == Some(p)
    ensures p in s.procs && p in Do(c, s, a).procs
    ensures s.procs[p].waiter != NoWaiter || a.Exit?
    ensures a.Exit? ==> Do(c, s, a).procs[p].waiter == s.procs[p].waiter
    ensures !a.Exit? ==> !s.procs[p].waiter.Finished? && Do(c, s, a).procs[p].waiter != NoWaiter
  {
  }

  /** Apart from launching, an action adds no process and revives no finished waiter. */
  lemma WaitersKept(c: Config, s: State, a: Action, p: Proc)
    requires Enabled(c, s, a) && a != LaunchOk && !a.LaunchFail?
    ensures p in Do(c, s, a).procs <==> p in s.procs
    ensures p in s.procs ==> (Do(c, s, a).procs[p].waiter == NoWaiter <==> s.procs[p].waiter == NoWaiter)
    ensures p in s.procs && s.procs[p].waiter.Finished? ==> Do(c, s, a).procs[p].waiter.Finished?
  {
    hide Enabled, Do;
    TouchedProcs(c, s, a);
    if Touched(s, a).Some? {
      TouchedWaiter(c, s, a, Touched(s, a).value);
    }
  }

  lemma FailedLaunchKeepsProcs(c: Config, s: State, started: bool)
    requires OrderInv(c, s) && ProcsInv(s) && Enabled(c, s, LaunchFail(started))
    ensures ProcsInv(Do(c, s, LaunchFail(started)))
  {
    NextIsNew(c, s);
  }

  lemma ProcsStep(c: Config, s: State, a: Action)
    requires OrderInv(c, s) && ProcsInv(s) && Enabled(c, s, a)
    ensures ProcsInv(Do(c, s, a))
  {
    hide Enabled, Do;
    if a == LaunchOk {
      LaunchKeepsProcs(c, s);
    } else if a.LaunchFail? {
      FailedLaunchKeepsProcs(c, s, a.started);
    } else {
      LogUntouched(c, s, a);
      FailureStays(c, s, a);
      forall p {
        WaitersKept(c, s, a, p);
      }
    }
  }

  lemma FailureStays(c: Config, s: State, a: Action)
    requires Enabled(c, s, a)
    ensures s.phase == Failed ==> Do(c, s, a).phase == Failed
  {
  }

  lemma InFlightElsewhere(procs: map<Proc, ProcState>, p: Proc, ps: ProcState)
    ensures InFlight(procs[p := ps]) - {p} == InFlight(procs) - {p}
  {
    forall q | q != p ensures q in InFlight(procs[p := ps]) <==> q in InFlight(procs) {
      assert q in procs[p := ps] <==> q in procs;
    }
  }

  lemma InFlightUpdate(procs: map<Proc, ProcState>, p: Proc, ps: ProcState)
    ensures |InFlight(procs[p := ps])| == |InFlight(procs)|
              + (if Counted(ps.waiter) then 1 else 0)
              - (if p in procs && Counted(procs[p].waiter) then 1 else 0)
  {
    InFlightElsewhere(procs, p, ps);
    CardinalityAt(InFlight(procs), p);
    CardinalityAt(InFlight(procs[p := ps]), p);
  }

  lemma CardinalityAt<T>(x: set<T>, e: T)
    ensures |x| == |x - {e}| + if e in x then 1 else 0
  {
    if e in x {
      assert x == (x - {e}) + {e};
    } else {
      assert x == x - {e};
    }
  }

  lemma StoppedUpdate(procs: map<Proc, ProcState>, p: Proc, ps: ProcState)
    requires p in procs && HasStopped(procs[p].waiter) ==> HasStopped(ps.waiter)
    ensures SomeStopped(procs[p := ps]) <==> HasStopped(ps.waiter) || SomeStopped(procs)
  {
    var more := procs[p := ps];
    if q :| q in procs && HasStopped(procs[q].waiter) {
      assert q in more && HasStopped(more[q].waiter);
    }
    if HasStopped(ps.waiter) {
      assert p in more && HasStopped(more[p].waiter);
    }
    if q :| q in more && HasStopped(more[q].waiter) {
      assert q != p ==> q in procs && HasStopped(procs[q].waiter);
    }
  }

  lemma TouchedContext(c: Config, s: State, a: Action)
    requires Enabled(c, s, a)
    ensures var t := Do(c, s, a);
            t.ctxDone == (s.ctxDone || a == Signal || a.WaiterStop?) && t.signalled == (s.signalled || a == Signal)
  {
  }

  lemma TouchedCount(c: Config, s: State, a: Action)
    requires OrderInv(c, s) && ProcsInv(s) && Enabled(c, s, a) && (a != LaunchOk && !a.LaunchFail?)
    ensures var t := Do(c, s, a);
            match Touched(s, a)
            case None => t.wg == s.wg
            case Some(p) =>
              p in s.procs && p in t.procs &&
              t.wg == s.wg + (if Counted(t.procs[p].waiter) then 1 else 0) - (if Counted(s.procs[p].waiter) then 1 else 0)
  {
  }

  lemma LaunchCount(c: Config, s: State, a: Action)
    requires OrderInv(c, s) && ProcsInv(s) && Enabled(c, s, a) && (a == LaunchOk || a.LaunchFail?)
    ensures var t := Do(c, s, a);
            t.wg == s.wg && (Touched(s, a).Some? ==>
              var p := Touched(s, a).value; p !in s.procs && p in t.procs && !Counted(t.procs[p].waiter))
  {
    NextIsNew(c, s);
  }

  lemma TouchedOnly(c: Config, s: State, a: Action)
    requires OrderInv(c, s) && ProcsInv(s) && Enabled(c, s, a)
    ensures var t := Do(c, s, a);
            match Touched(s, a)
            case None => t.procs == s.procs && t.wg == s.wg
            case Some(p) =>
              && p in t.procs && t.procs == s.procs[p := t.procs[p]]
              && t.wg == s.wg + (if Counted(t.procs[p].waiter) then 1 else 0)
                              - (if p in s.procs && Counted(s.procs[p].waiter) then 1 else 0)
  {
    hide Enabled, Do;
    TouchedProcs(c, s, a);
    if a == LaunchOk || a.LaunchFail? {
      LaunchCount(c, s, a);
    } else {
      TouchedCount(c, s, a);
    }
  }

  lemma TouchedOk(c: Config, s: State, a: Action, p: Proc)
    requires OrderInv(c, s) && ProcsInv(s) && Enabled(c, s, a) && Touched(s, a) == Some(p)
    requires p in s.procs ==> WaiterOk(s.procs[p])
    ensures p in Do(c, s, a).procs && WaiterOk(Do(c, s, a).procs[p])
    ensures HasStopped(Do(c, s, a).procs[p].waiter) <==>
              a == WaiterStop(p) || (p in s.procs && HasStopped(s.procs[p].waiter))
  {
    if a == LaunchOk || a.LaunchFail? {
      NextIsNew(c, s);
    }
  }

  lemma WaitersStep(c: Config, s: State, a: Action)
    requires OrderInv(c, s) && ProcsInv(s) && WaitersInv(s) && Enabled(c, s, a)
    ensures WaitersInv(Do(c, s, a))
  {
    hide Enabled, Do;
    var t := Do(c, s, a);
    TouchedOnly(c, s, a);
    TouchedContext(c, s, a);
    if Touched(s, a).Some? {
      var p := Touched(s, a).value;
      TouchedOk(c, s, a, p);
      InFlightUpdate(s.procs, p, t.procs[p]);
      StoppedUpdate(s.procs, p, t.procs[p]);
    }
  }

  lemma ZeroDrains(c: Config, s: State)
    requires ProcsInv(s) && WaitersInv(s) && Enabled(c, s, WgZero)
    ensures DrainInv(Do(c, s, WgZero))
  {
    assert InFlight(s.procs) == {};
    forall p | p in s.procs ensures p in Unadded(s.procs) || s.procs[p].waiter.Finished? {
      assert p !in InFlight(s.procs);
    }
  }

  lemma LateKept(c: Config, s: State, a: Action)
    requires Enabled(c, s, a) && a != WgZero
    ensures Do(c, s, a).late == s.late
  {
  }

  lemma DrainPhases(c: Config, s: State, a: Action)
    requires Enabled(c, s, a) && a != WgZero
    ensures var t := Do(c, s, a);
            && (t.phase == Drained || t.phase == Returned ==> s.phase == Drained || s.phase == Returned)
            && (t.phase == Returned ==> s.phase == Returned || s.ctxDone)
            && (a == LaunchOk || a.LaunchFail? ==> t.phase != Drained && t.phase != Returned)
  {
  }

  /** How an action bears on the drain. */
  lemma DrainFacts(c: Config, s: State, a: Action)
    requires Enabled(c, s, a) && a != WgZero
    ensures var t := Do(c, s, a);
            && t.late == s.late && (s.ctxDone ==> t.ctxDone)
            && (t.phase == Drained || t.phase == Returned ==> s.phase == Drained || s.phase == Returned)
            && (t.phase == Returned ==> s.phase == Returned || s.ctxDone)
            && (a == LaunchOk || a.LaunchFail? ==> t.phase != Drained && t.phase != Returned)
  {
    hide Enabled, Do;
    LateKept(c, s, a);
    TouchedContext(c, s, a);
    DrainPhases(c, s, a);
  }

  lemma DrainStep(c: Config, s: State, a: Action)
    requires ProcsInv(s) && WaitersInv(s) && DrainInv(s) && Enabled(c, s, a)
    ensures DrainInv(Do(c, s, a))
  {
    if a == WgZero {
      ZeroDrains(c, s);
    } else {
      DrainKept(c, s, a);
    }
  }

  lemma DrainKept(c: Config, s: State, a: Action)
    requires DrainInv(s) && Enabled(c, s, a) && a != WgZero
    ensures DrainInv(Do(c, s, a))
  {
    hide Enabled, Do;
    DrainFacts(c, s, a);
    if a != LaunchOk && !a.LaunchFail? {
      forall p {
        WaitersKept(c, s, a, p);
      }
    }
  }

  lemma InvStep(c: Config, s: State, a: Action)
    requires Inv(c, s) && Enabled(c, s, a)
    ensures Inv(c, Do(c, s, a))
  {
    hide Enabled, Do;
    OrderStep(c, s, a);
    ProcsStep(c, s, a);
    WaitersStep(c, s, a);
    DrainStep(c, s, a);
  }

  lemma {:induction false} InvExec(c: Config, s: State, acts: seq<Action>)
    requires Inv(c, s) && Exec(c, s, acts).Some?
    ensures Inv(c, Exec(c, s, acts).value)
    decreases |acts|
  {
    hide Enabled, Do;
    if acts != [] {
      InvStep(c, s, acts[0]);
      InvExec(c, Do(c, s, acts[0]), acts[1..]);
    }
  }

  /** The invariant holds in every reachable state. */
  lemma Safety(c: Config, s: State)
    requires Reachable(c, s)
    ensures Inv(c, s)
  {
    var acts :| Exec(c, INIT, acts) == Some(s);
    assert InFlight(INIT.procs) == {};
    InvExec(c, INIT, acts);
  }

  // ---- What it says about every reachable state ----

  /**
   No datanode before one single checker pass found every launched metasrv healthy, no frontend before
   the same of the datanodes, nothing but etcd before etcd was ready; at most ten probes went by, and what
   has been launched is a beginning of the plan.
   */
  lemma StageGating(c: Config, s: State, j: nat)
    requires Reachable(c, s) && j < |s.log| && s.log[j].Launched?
    ensures Allowed(c, s.log[..j], s.log[j].proc.kind)
    ensures NoLeaders(s.log) <= MAX_PROBES && Launches(s.log) <= Plan(c)
  {
    Safety(c, s);
  }

  /** The counter is exactly the number of waiters between Add and Done, so Done never takes it below zero. */
  lemma WaitGroupCounts(c: Config, s: State)
    requires Reachable(c, s)
    ensures s.wg == |InFlight(s.procs)|
    ensures forall p | p in s.procs && Counted(s.procs[p].waiter) :: s.wg > 0
  {
    Safety(c, s);
    forall p | p in s.procs && Counted(s.procs[p].waiter) ensures s.wg > 0 {
      assert p in InFlight(s.procs);
    }
  }

  /** The context is done because of a signal, or because a process really failed and its waiter stopped the cluster. */
  lemma StopCauses(c: Config, s: State)
    requires Reachable(c, s)
    ensures s.ctxDone <==> s.signalled || SomeStopped(s.procs)
    ensures forall p | p in s.procs && HasStopped(s.procs[p].waiter) ::
              s.procs[p].status.Exited? && s.procs[p].status.ending != KillOrInterrupt
    ensures forall p | p in s.procs && s.procs[p].waiter.Finished? && s.procs[p].status == Exited(Other) :: s.ctxDone
  {
    Safety(c, s);
    forall p | p in s.procs
      ensures WaiterOk(s.procs[p])
      ensures s.procs[p].waiter.Finished? && s.procs[p].status == Exited(Other) ==> HasStopped(s.procs[p].waiter)
    {
    }
  }

  lemma NoStartOnceDone(c: Config, s: State, a: Action)
    requires s.ctxDone && Enabled(c, s, a)
    ensures a != LaunchOk && (a.LaunchFail? ==> !a.started)
  {
  }

  lemma FailedStartKeys(c: Config, s: State, a: Action)
    requires Enabled(c, s, a) && a == LaunchFail(false)
    ensures Do(c, s, a).procs == s.procs
  {
  }

  lemma StopStep(c: Config, s: State, a: Action)
    requires s.ctxDone && Enabled(c, s, a)
    ensures Do(c, s, a).ctxDone && a != LaunchOk && Do(c, s, a).procs.Keys == s.procs.Keys
  {
    hide Enabled, Do;
    TouchedContext(c, s, a);
    NoStartOnceDone(c, s, a);
    if a.LaunchFail? {
      FailedStartKeys(c, s, a);
    } else {
      forall p {
        WaitersKept(c, s, a, p);
      }
    }
  }

  /** Once the context is done it stays done, and no further process is started. */
  lemma {:induction false} StopIsFinal(c: Config, s: State, acts: seq<Action>)
    requires s.ctxDone && Exec(c, s, acts).Some?
    ensures Exec(c, s, acts).value.ctxDone
    ensures Exec(c, s, acts).value.procs.Keys == s.procs.Keys
    ensures Launches(Exec(c, s, acts).value.log) == Launches(s.log)
    decreases |acts|
  {
    hide Enabled, Do;
    if acts != [] {
      StopStep(c, s, acts[0]);
      LogUntouched(c, s, acts[0]);
      StopIsFinal(c, Do(c, s, acts[0]), acts[1..]);
    }
  }

  /** After a nil `Create` each planned replica was launched once, in order, and nothing else was. */
  lemma CreatedExactly(c: Config, s: State)
    requires Reachable(c, s)
    requires s.phase in {Created, Waiting, Drained, Returned}
    ensures Launches(s.log) == Plan(c)
    ensures s.procs.Keys == set p | p in Plan(c)
  {
    Safety(c, s);
  }

  /** When `wg.Wait` sees zero, every waiter has finished exactly if none is yet to call Add. */
  lemma ZeroMeansFinished(c: Config, s: State)
    requires Reachable(c, s) && s.phase == Waiting && s.wg == 0
    ensures (forall p | p in s.procs :: s.procs[p].waiter.Finished?) <==> Unadded(s.procs) == {}
  {
    Safety(c, s);
    assert InFlight(s.procs) == {};
    forall p | p in s.procs ensures s.procs[p].waiter.Finished? <==> p !in Unadded(s.procs) {
      assert p !in InFlight(s.procs);
    }
  }

  /** `Wait` returns only with the context done, and after every planned process ended whose waiter was not late. */
  lemma DrainedUnlessLate(c: Config, s: State)
    requires Reachable(c, s) && s.phase == Returned
    ensures s.ctxDone
    ensures forall p | p in Plan(c) ::
              p in s.procs && (p in s.late || (s.procs[p].status.Exited? && s.procs[p].waiter.Finished?))
  {
    Safety(c, s);
    CreatedExactly(c, s);
    forall p | p in Plan(c)
      ensures p in s.procs && (p in s.late || (s.procs[p].status.Exited? && s.procs[p].waiter.Finished?))
    {
      assert p in s.procs.Keys && WaiterOk(s.procs[p]);
    }
  }

  /** Only the outside world can do something. */
  ghost predicate Stuck(c: Config, s: State) {
    forall a | Enabled(c, s, a) :: a == Signal || a == CallerTimeout
  }

  /**
   When every process has ended and every waiter has finished, `Wait` goes on without a signal exactly
   if some process failed: after a clean end of all of them it blocks.
   */
  lemma CleanEndBlocks(c: Config, s: State)
    requires Reachable(c, s) && s.phase == Drained && forall p | p in s.procs :: s.procs[p].waiter.Finished?
    ensures Stuck(c, s) <==> !s.signalled && !SomeStopped(s.procs)
  {
    Safety(c, s);
    if s.ctxDone {
      assert Enabled(c, s, CtxSeen);
    } else {
      forall a | Enabled(c, s, a) ensures a == Signal || a == CallerTimeout {
        FinishedIdle(c, s, a);
      }
    }
  }

  lemma FinishedIdle(c: Config, s: State, a: Action)
    requires s.phase == Drained && !s.ctxDone && Enabled(c, s, a)
    requires forall p | p in s.procs :: s.procs[p].waiter.Finished? && WaiterOk(s.procs[p])
    ensures a == Signal || a == CallerTimeout
  {
  }

  ghost predicate CanMove(c: Config, s: State) {
    exists a :: Enabled(c, s, a) && a != Signal && a != CallerTimeout
  }

  /** A process whose waiter has not finished can end, or its waiter can go on. */
  lemma ProcMoves(c: Config, s: State, p: Proc)
    requires p in s.procs && WaiterOk(s.procs[p]) && s.procs[p].waiter != NoWaiter && !s.procs[p].waiter.Finished?
    ensures CanMove(c, s)
  {
    match s.procs[p].waiter {
      case Spawned => assert Enabled(c, s, WaiterAdd(p));
      case Added =>
        if s.procs[p].status == Running {
          assert Enabled(c, s, Exit(p, Zero));
        } else {
          var r := if s.procs[p].status.ending == KillOrInterrupt then Ignored else Failure;
          assert Enabled(c, s, WaiterSaw(p, r));
        }
      case Saw(r) =>
        if r == Failure {
          assert Enabled(c, s, WaiterStop(p));
        } else {
          assert Enabled(c, s, WaiterDone(p));
        }
      case Stopped => assert Enabled(c, s, WaiterDone(p));
      case _ =>
    }
  }

  /** `Create` itself is never stuck. */
  lemma CreateMoves(c: Config, s: State)
    requires OrderInv(c, s) && s.phase !in {Failed, Returned, Waiting, Drained}
    ensures CanMove(c, s)
  {
    match s.phase {
      case AcquireEtcd => assert Enabled(c, s, Acquire(NotAcquired));
      case AcquireGreptime => assert Enabled(c, s, Acquire(NotAcquired));
      case Launch(k, i) => assert Enabled(c, s, if i < c.Replicas(k) then LaunchFail(false) else LaunchesDone);
      case Probe(r) => assert Enabled(c, s, if r < MAX_PROBES then ProbeError else ProbesSpent);
      case Idle(_) => assert Enabled(c, s, Tick);
      case Polling(k, n) => assert Enabled(c, s, if n < c.Replicas(k) then Poll(true) else PassDone);
      case Created => assert Enabled(c, s, BeginWait);
      case _ =>
    }
  }

  /** `wg.Wait` returns at zero; above zero some waiter is under way. */
  lemma WaitMoves(c: Config, s: State)
    requires ProcsInv(s) && WaitersInv(s) && s.phase == Waiting
    ensures CanMove(c, s)
  {
    if s.wg == 0 {
      assert Enabled(c, s, WgZero);
    } else {
      assert InFlight(s.procs) != {};
      var p :| p in InFlight(s.procs);
      ProcMoves(c, s, p);
    }
  }

  /**
   Up to the return of `Wait` or the failure of `Create`, the only state in which nothing can happen without the
   outside world is the clean end: `wg.Wait` is over, every process and waiter has finished and no one has stopped.
   */
  lemma StuckExactly(c: Config, s: State)
    requires Reachable(c, s) && s.phase != Failed && s.phase != Returned
    ensures Stuck(c, s) <==> s.phase == Drained && !s.ctxDone && forall p | p in s.procs :: s.procs[p].waiter.Finished?
  {
    Safety(c, s);
    hide Enabled, OrderInv;
    if s.phase == Waiting {
      WaitMoves(c, s);
    } else if s.phase != Drained {
      CreateMoves(c, s);
    } else if p :| p in s.procs && !s.procs[p].waiter.Finished? {
      ProcMoves(c, s, p);
    } else {
      CleanEndBlocks(c, s);
    }
  }

  // ---- When Create fails ----

  /** The steps on which `Create` returns an error. */
  predicate Failing(a: Action) {
    a == Acquire(NotAcquired) || a.LaunchFail? || a == ProbeError || a == ProbesSpent || a == CheckerCancelled
  }

  lemma FailingFails(c: Config, s: State, a: Action)
    requires Enabled(c, s, a) && Failing(a)
    ensures Do(c, s, a).phase == Failed
  {
  }

  lemma OthersGoOn(c: Config, s: State, a: Action)
    requires Enabled(c, s, a) && !Failing(a) && s.phase != Failed
    ensures Do(c, s, a).phase != Failed
  {
  }

  lemma FailedStep(c: Config, s: State, a: Action)
    requires Enabled(c, s, a)
    ensures Do(c, s, a).phase == Failed <==> s.phase == Failed || Failing(a)
  {
    hide Enabled, Do, Failing;
    FailureStays(c, s, a);
    if Failing(a) {
      FailingFails(c, s, a);
    } else if s.phase != Failed {
      OthersGoOn(c, s, a);
    }
  }

  /** A run of `Create` ends failed exactly if one of the steps on it was a failing one. */
  lemma {:induction false} FailedExactly(c: Config, s: State, acts: seq<Action>)
    requires Exec(c, s, acts).Some?
    ensures Exec(c, s, acts).value.phase == Failed <==> s.phase == Failed || exists a :: a in acts && Failing(a)
    decreases |acts|
  {
    hide Enabled, Do, Failing;
    if acts != [] {
      FailedStep(c, s, acts[0]);
      FailedExactly(c, Do(c, s, acts[0]), acts[1..]);
      assert acts == [acts[0]] + acts[1..];
    }
  }

  predicate Fragile(c: Config, s: State) {
    match s.phase
    case AcquireEtcd => true
    case AcquireGreptime => true
    case Launch(k, i) => i < c.Replicas(k)
    case Probe(_) => true
    case Idle(_) => s.ctxDone
    case _ => false
  }

  lemma FailingWhere(c: Config, s: State, a: Action)
    requires Enabled(c, s, a) && Failing(a)
    ensures Fragile(c, s)
  {
  }

  lemma FragileFails(c: Config, s: State) returns (a: Action)
    requires Fragile(c, s) && (s.phase.Probe? ==> s.phase.retry <= MAX_PROBES)
    ensures Enabled(c, s, a) && Failing(a)
  {
    a := match s.phase
      case Launch(_, _) => LaunchFail(false)
      case Probe(r) => if r < MAX_PROBES then ProbeError else ProbesSpent
      case Idle(_) => CheckerCancelled
      case _ => Acquire(NotAcquired);
  }

  /** Where `Create` can fail in its next step: at every download, launch and probe, and at a check once the context is done. */
  lemma FailableExactly(c: Config, s: State)
    requires Reachable(c, s) && s.phase != Failed
    ensures (exists a :: Enabled(c, s, a) && Do(c, s, a).phase == Failed) <==> Fragile(c, s)
  {
    Safety(c, s);
    assert s.phase.Probe? ==> s.phase.retry <= MAX_PROBES;
    hide Enabled, Do, Failing, Fragile, Inv, Reachable;
    if Fragile(c, s) {
      var a := FragileFails(c, s);
      FailedStep(c, s, a);
    }
    if a :| Enabled(c, s, a) && Do(c, s, a).phase == Failed {
      FailedStep(c, s, a);
      FailingWhere(c, s, a);
    }
  }

  /** The actions of others than the `Create` goroutine. */
  predicate OfOthers(a: Action) {
    a.Exit? || a.WaiterAdd? || a.WaiterSaw? || a.WaiterStop? || a.WaiterDone? || a == Signal || a == CallerTimeout
  }

  /** Others never move `Create`, and only the caller ends the caller's context. */
  lemma OthersKeepCreate(c: Config, s: State, a: Action)
    requires Enabled(c, s, a)
    ensures OfOthers(a) ==> Do(c, s, a).phase == s.phase && Do(c, s, a).log == s.log && Do(c, s, a).late == s.late
    ensures Do(c, s, a).callerDone == (s.callerDone || a == CallerTimeout)
  {
  }

  /** A process that was started before its launch failed runs on without a waiter. */
  lemma FailedLaunchLeaves(c: Config, s: State, started: bool)
    requires Reachable(c, s) && Enabled(c, s, LaunchFail(started))
    ensures var p, t := Proc(s.phase.kind, s.phase.index), Do(c, s, LaunchFail(started));
            && p !in s.procs && t.ctxDone == s.ctxDone && t.log == s.log
            && t.procs == if started then s.procs[p := ProcState(Running, NoWaiter)] else s.procs
  {
    Safety(c, s);
    NextIsNew(c, s);
  }

  // ---- One process from its end to its waiter's ----

  /** What a waiter that saw `r` does after that. */
  function Rest(p: Proc, r: Report): seq<Action> {
    if r == Failure then [WaiterStop(p), WaiterDone(p)] else [WaiterDone(p)]
  }

  lemma OneStep(c: Config, s: State, a: Action, rest: seq<Action>)
    requires Enabled(c, s, a)
    ensures Exec(c, s, [a] + rest) == Exec(c, Do(c, s, a), rest)
  {
    hide Enabled, Do;
    assert ([a] + rest)[0] == a && ([a] + rest)[1..] == rest;
  }

  lemma EndOfWaiter(c: Config, s: State, p: Proc, e: Ending, r: Report)
    requires p in s.procs && s.procs[p] == ProcState(Exited(e), Saw(r))
    ensures Exec(c, s, Rest(p, r)) == Some(s.(
              procs := s.procs[p := ProcState(Exited(e), Finished(r))], wg := s.wg - 1, ctxDone := s.ctxDone || r == Failure))
  {
    if r == Failure {
      var stopped := Do(c, s, WaiterStop(p));
      OneStep(c, s, WaiterStop(p), [WaiterDone(p)]);
      assert [WaiterStop(p)] + [WaiterDone(p)] == Rest(p, r);
      OneStep(c, stopped, WaiterDone(p), []);
      assert [WaiterDone(p)] + [] == [WaiterDone(p)];
      assert s.procs[p := ProcState(Exited(e), Stopped)][p := ProcState(Exited(e), Finished(r))]
          == s.procs[p := ProcState(Exited(e), Finished(r))];
    } else {
      OneStep(c, s, WaiterDone(p), []);
      assert [WaiterDone(p)] + [] == [WaiterDone(p)];
    }
  }

  lemma ExitStep(c: Config, s: State, p: Proc, e: Ending, w: Waiter)
    requires p in s.procs && s.procs[p] == ProcState(Running, w)
    ensures Enabled(c, s, Exit(p, e)) && Do(c, s, Exit(p, e)) == s.(procs := s.procs[p := ProcState(Exited(e), w)])
  {
  }

  lemma AddStep(c: Config, s: State, p: Proc, status: Status)
    requires p in s.procs && s.procs[p] == ProcState(status, Spawned)
    ensures Enabled(c, s, WaiterAdd(p))
    ensures Do(c, s, WaiterAdd(p)) == s.(procs := s.procs[p := ProcState(status, Added)], wg := s.wg + 1)
  {
  }

  lemma SawStep(c: Config, s: State, p: Proc, e: Ending, r: Report)
    requires p in s.procs && s.procs[p] == ProcState(Exited(e), Added) && Reports(e, r)
    ensures Enabled(c, s, WaiterSaw(p, r))
    ensures Do(c, s, WaiterSaw(p, r)) == s.(procs := s.procs[p := ProcState(Exited(e), Saw(r))])
  {
  }

  lemma StartOfWaiter(c: Config, s: State, p: Proc, e: Ending, r: Report)
    requires p in s.procs && s.procs[p] == ProcState(Running, Spawned) && Reports(e, r)
    ensures Exec(c, s, [Exit(p, e)] + ([WaiterAdd(p)] + ([WaiterSaw(p, r)] + Rest(p, r))))
         == Exec(c, s.(procs := s.procs[p := ProcState(Exited(e), Saw(r))], wg := s.wg + 1), Rest(p, r))
  {
    hide Enabled, Do, Rest, Exec;
    var exited := s.(procs := s.procs[p := ProcState(Exited(e), Spawned)]);
    var added := exited.(procs := exited.procs[p := ProcState(Exited(e), Added)], wg := s.wg + 1);
    var saw := added.(procs := added.procs[p := ProcState(Exited(e), Saw(r))]);
    ExitStep(c, s, p, e, Spawned);
    OneStep(c, s, Exit(p, e), [WaiterAdd(p)] + ([WaiterSaw(p, r)] + Rest(p, r)));
    AddStep(c, exited, p, Exited(e));
    OneStep(c, exited, WaiterAdd(p), [WaiterSaw(p, r)] + Rest(p, r));
    SawStep(c, added, p, e, r);
    OneStep(c, added, WaiterSaw(p, r), Rest(p, r));
    assert saw.procs == s.procs[p := ProcState(Exited(e), Saw(r))];
  }

  /** Everything from the end of a process to the end of its waiter. */
  function WholeEnd(p: Proc, e: Ending, r: Report): seq<Action> {
    [Exit(p, e)] + ([WaiterAdd(p)] + ([WaiterSaw(p, r)] + Rest(p, r)))
  }

  /** A process that ends and its waiter take each other out of the state; only a failure also stops the cluster. */
  lemma ProcessEnds(c: Config, s: State, p: Proc, e: Ending, r: Report)
    requires p in s.procs && s.procs[p] == ProcState(Running, Spawned) && Reports(e, r)
    ensures Exec(c, s, WholeEnd(p, e, r))
         == Some(s.(procs := s.procs[p := ProcState(Exited(e), Finished(r))], ctxDone := s.ctxDone || r == Failure))
  {
    var saw := s.(procs := s.procs[p := ProcState(Exited(e), Saw(r))], wg := s.wg + 1);
    StartOfWaiter(c, s, p, e, r);
    EndOfWaiter(c, saw, p, e, r);
    assert saw.procs[p := ProcState(Exited(e), Finished(r))] == s.procs[p := ProcState(Exited(e), Finished(r))];
  }

  /** What a waiter may be told: a failure always of a process that failed, never of one killed or interrupted. */
  lemma ReportsExactly(c: Config, s: State, p: Proc, r: Report)
    requires WaiterIs(s, p, Added) && s.procs[p].status.Exited?
    ensures Enabled(c, s, WaiterSaw(p, r)) <==>
              match s.procs[p].status.ending
              case Other => r == Failure
              case KillOrInterrupt => r == Ignored
              case Zero => r == Success || r == Failure
  {
  }
}
