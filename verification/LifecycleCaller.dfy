/**
 What the context given to `Create` is good for (pkg/cluster/baremetal/create.go). It carries the timeout
 of the command line and reaches the downloads only: `Start`, the health checks and `Wait` use the context of
 the cluster instead.
 */
module LifecycleCaller {
  import opened Text
  import opened Lifecycle
  import opened LifecycleSafety
  import opened LifecycleDrain

  /** No download lies ahead. */
  predicate PastDownloads(phase: Phase) {
    match phase
    case AcquireEtcd => false
    case Launch(k, _) => k != Etcd
    case Probe(_) => false
    case AcquireGreptime => false
    case _ => true
  }

  function WithoutCaller(acts: seq<Action>): seq<Action> {
    if acts == [] then []
    else (if acts[0] == CallerTimeout then [] else [acts[0]]) + WithoutCaller(acts[1..])
  }

  predicate SameButCaller(s: Option<State>, t: Option<State>) {
    s.Some? == t.Some? && (s.Some? ==> s.value.(callerDone := false) == t.value.(callerDone := false))
  }

  lemma PhaseStep(c: Config, s: State, a: Action)
    requires PastDownloads(s.phase) && Enabled(c, s, a)
    ensures PastDownloads(Do(c, s, a).phase)
  {
  }

  lemma EnabledAlike(c: Config, s: State, t: State, a: Action)
    requires PastDownloads(s.phase) && s.(callerDone := false) == t.(callerDone := false)
    ensures Enabled(c, s, a) == Enabled(c, t, a)
  {
    assert s == t.(callerDone := s.callerDone);
  }

  /** Actions that launch, that probe, and those that begin and end a waiter; the others check, wait or come from outside. */
  predicate FromLaunch(a: Action) {
    a.Acquire? || a.LaunchOk? || a.LaunchFail? || a.LaunchesDone?
  }

  predicate FromProbe(a: Action) {
    a.ProbeSkip? || a.ProbeAnswer? || a.ProbeError? || a.ProbesSpent?
  }

  predicate WaiterBegins(a: Action) {
    a.WaiterAdd? || a.WaiterSaw?
  }

  predicate WaiterEnds(a: Action) {
    a.WaiterStop? || a.WaiterDone?
  }

  lemma LaunchAlike(c: Config, s: State, b: bool, a: Action)
    requires FromLaunch(a) && Enabled(c, s, a) && Enabled(c, s.(callerDone := b), a)
    ensures Do(c, s.(callerDone := b), a) == Do(c, s, a).(callerDone := b)
  {
  }

  lemma ProbeAlike(c: Config, s: State, b: bool, a: Action)
    requires FromProbe(a) && Enabled(c, s, a) && Enabled(c, s.(callerDone := b), a)
    ensures Do(c, s.(callerDone := b), a) == Do(c, s, a).(callerDone := b)
  {
  }

  lemma WaiterBeginsAlike(c: Config, s: State, b: bool, a: Action)
    requires WaiterBegins(a) && Enabled(c, s, a) && Enabled(c, s.(callerDone := b), a)
    ensures Do(c, s.(callerDone := b), a) == Do(c, s, a).(callerDone := b)
  {
  }

  lemma WaiterEndsAlike(c: Config, s: State, b: bool, a: Action)
    requires WaiterEnds(a) && Enabled(c, s, a) && Enabled(c, s.(callerDone := b), a)
    ensures Do(c, s.(callerDone := b), a) == Do(c, s, a).(callerDone := b)
  {
  }

  lemma OthersAlike(c: Config, s: State, b: bool, a: Action)
    requires !FromLaunch(a) && !FromProbe(a) && !WaiterBegins(a) && !WaiterEnds(a) && a != CallerTimeout
    requires Enabled(c, s, a) && Enabled(c, s.(callerDone := b), a)
    ensures Do(c, s.(callerDone := b), a) == Do(c, s, a).(callerDone := b)
  {
  }

  lemma DoAlike(c: Config, s: State, t: State, a: Action)
    requires s.(callerDone := false) == t.(callerDone := false) && a != CallerTimeout
    requires Enabled(c, s, a) && Enabled(c, t, a)
    ensures Do(c, s, a).(callerDone := false) == Do(c, t, a).(callerDone := false)
  {
    hide Enabled, Do;
    assert t == s.(callerDone := t.callerDone);
    if FromLaunch(a) {
      LaunchAlike(c, s, t.callerDone, a);
    } else if FromProbe(a) {
      ProbeAlike(c, s, t.callerDone, a);
    } else if WaiterBegins(a) {
      WaiterBeginsAlike(c, s, t.callerDone, a);
    } else if WaiterEnds(a) {
      WaiterEndsAlike(c, s, t.callerDone, a);
    } else {
      OthersAlike(c, s, t.callerDone, a);
    }
  }

  lemma TimeoutAlone(c: Config, s: State)
    ensures Enabled(c, s, CallerTimeout) && Do(c, s, CallerTimeout) == s.(callerDone := true)
  {
  }

  lemma {:induction false} AlikeRuns(c: Config, s: State, t: State, acts: seq<Action>)
    requires PastDownloads(s.phase) && s.(callerDone := false) == t.(callerDone := false)
    ensures SameButCaller(Exec(c, s, acts), Exec(c, t, WithoutCaller(acts)))
    decreases |acts|
  {
    hide Enabled, Do;
    if acts != [] {
      var a, rest := acts[0], acts[1..];
      if a == CallerTimeout {
        TimeoutAlone(c, s);
        assert WithoutCaller(acts) == WithoutCaller(rest);
        AlikeRuns(c, s.(callerDone := true), t, rest);
      } else {
        assert WithoutCaller(acts)[0] == a && WithoutCaller(acts)[1..] == WithoutCaller(rest);
        EnabledAlike(c, s, t, a);
        if Enabled(c, s, a) {
          PhaseStep(c, s, a);
          DoAlike(c, s, t, a);
          AlikeRuns(c, Do(c, s, a), Do(c, t, a), rest);
        }
      }
    }
  }

  /**
   From the first metasrv on, the caller's context is irrelevant: wherever it ends in a sequence of actions,
   the sequence is a run exactly if it is one without that, and leads to the same state.
   */
  lemma CallerIrrelevant(c: Config, s: State, acts: seq<Action>)
    requires PastDownloads(s.phase)
    ensures SameButCaller(Exec(c, s, acts), Exec(c, s, WithoutCaller(acts)))
  {
    AlikeRuns(c, s, s, acts);
  }

  /** No binary is at hand, so each must be downloaded. */
  predicate OnlyDownloads(acts: seq<Action>) {
    forall a | a in acts && a.Acquire? :: a.how != LocalOrCached
  }

  lemma TimedOutStep(c: Config, s: State, a: Action)
    requires s.callerDone && (s.phase == AcquireEtcd || s.phase == Failed) && s.procs == map[] && Enabled(c, s, a)
    requires a.Acquire? ==> a.how != LocalOrCached
    ensures var t := Do(c, s, a);
            t.callerDone && (t.phase == AcquireEtcd || t.phase == Failed) && t.procs == map[]
  {
  }

  /** Before that it matters: if it ends before the first download does, nothing is ever launched. */
  lemma {:induction false} TimedOutLaunchesNothing(c: Config, s: State, acts: seq<Action>)
    requires s.callerDone && (s.phase == AcquireEtcd || s.phase == Failed) && s.procs == map[]
    requires OnlyDownloads(acts) && Exec(c, s, acts).Some?
    ensures Exec(c, s, acts).value.procs == map[]
    decreases |acts|
  {
    hide Enabled, Do;
    if acts != [] {
      assert acts[0] in acts && forall a | a in acts[1..] :: a in acts;
      TimedOutStep(c, s, acts[0]);
      TimedOutLaunchesNothing(c, Do(c, s, acts[0]), acts[1..]);
    }
  }

  /** The phases with etcd acquired and greptime not, and the failed one. */
  predicate BeforeGreptime(phase: Phase) {
    match phase
    case Launch(k, _) => k == Etcd
    case Probe(_) => true
    case AcquireGreptime => true
    case Failed => true
    case _ => false
  }

  ghost predicate OnlyEtcd(s: State) {
    forall p | p in s.procs :: p.kind == Etcd
  }

  lemma SecondTimeoutStep(c: Config, s: State, a: Action)
    requires s.callerDone && BeforeGreptime(s.phase) && OnlyEtcd(s) && Enabled(c, s, a)
    requires a.Acquire? ==> a.how != LocalOrCached
    ensures var t := Do(c, s, a); t.callerDone && BeforeGreptime(t.phase) && OnlyEtcd(t)
  {
  }

  /** The same for the second download: if it ends before that one does, nothing but etcd is ever started. */
  lemma {:induction false} TimedOutLaunchesOnlyEtcd(c: Config, s: State, acts: seq<Action>)
    requires s.callerDone && BeforeGreptime(s.phase) && OnlyEtcd(s) && OnlyDownloads(acts) && Exec(c, s, acts).Some?
    ensures OnlyEtcd(Exec(c, s, acts).value)
    decreases |acts|
  {
    hide Enabled, Do, OnlyEtcd;
    if acts != [] {
      assert acts[0] in acts && forall a | a in acts[1..] :: a in acts;
      SecondTimeoutStep(c, s, acts[0]);
      TimedOutLaunchesOnlyEtcd(c, Do(c, s, acts[0]), acts[1..]);
    }
  }

  /** The same two actions with and without the timeout before them. */
  lemma CallerMatters(c: Config)
    ensures Exec(c, INIT, [Acquire(Downloaded), LaunchOk]).Some?
    ensures Exec(c, INIT, [CallerTimeout, Acquire(Downloaded), LaunchOk]) == None
  {
    var run := [Acquire(Downloaded), LaunchOk];
    assert run[1..] == [LaunchOk] && [LaunchOk][1..] == [];
    assert ([CallerTimeout] + run)[1..] == run && [CallerTimeout] + run == [CallerTimeout, Acquire(Downloaded), LaunchOk];
    var acquired := Do(c, INIT, Acquire(Downloaded));
    assert Exec(c, Do(c, acquired, LaunchOk), []).Some?;
    assert Exec(c, acquired, [LaunchOk]).Some?;
    TimeoutAlone(c, INIT);
  }
}
