/**
 What holds in every reachable state of the bare-metal lifecycle, whatever the interleaving.
 The invariant has four parts: the order of `Create`'s own steps, the set of processes, the
 bookkeeping of the waiters, and what `wg.Wait` has established.
 */
module LifecycleSafety {
  import opened Text
  import opened Lifecycle

  // ---- The order of Create's steps ----

  function Launches(log: seq<Event>): seq<Proc> {
    if log == [] then []
    else
      var n := |log| - 1;
      Launches(log[..n]) + if log[n].Launched? then [log[n].proc] else []
  }

  function Reps(k: Kind, n: nat): seq<Proc> {
    seq(n, i requires 0 <= i < n => Proc(k, i))
  }

  /** Everything launched before the first replica of `k`. */
  function Before(c: Config, k: Kind): seq<Proc> {
    match k
    case Etcd => []
    case MetaSrv => Through(c, Etcd)
    case Datanode => Through(c, MetaSrv)
    case Frontend => Through(c, Datanode)
  }

  /** Everything launched once all replicas of `k` are. */
  function Through(c: Config, k: Kind): seq<Proc>
    decreases match k case Etcd => 0 case MetaSrv => 1 case Datanode => 2 case Frontend => 3
  {
    match k
    case Etcd => Reps(Etcd, 1)
    case MetaSrv => Through(c, Etcd) + Reps(MetaSrv, c.metaSrvs)
    case Datanode => Through(c, MetaSrv) + Reps(Datanode, c.datanodes)
    case Frontend => Through(c, Datanode) + Reps(Frontend, c.frontends)
  }

  function Plan(c: Config): seq<Proc> {
    Through(c, Frontend)
  }

  /** `checkEtcdHealth` had returned nil, at a moment when exactly etcd had been launched. */
  ghost predicate EtcdReady(c: Config, log: seq<Event>) {
    exists h :: 0 <= h < |log| && log[h] == Ready && Launches(log[..h]) == Through(c, Etcd)
  }

  /** One checker pass, started at `at`, that found the first `n` replicas of `k` healthy. */
  ghost predicate PassAt(log: seq<Event>, at: nat, k: Kind, n: nat) {
    && at + n < |log|
    && log[at] == PassStart(k)
    && forall r | 0 <= r < n :: log[at + 1 + r] == Polled(k, r, true)
  }

  /** One single pass saw every replica of `k` healthy, and it started when all of them were launched and nothing later was. */
  ghost predicate AllHealthy(c: Config, log: seq<Event>, k: Kind) {
    exists at: nat :: PassAt(log, at, k, c.Replicas(k)) && Launches(log[..at]) == Through(c, k)
  }

  /** What must have happened before a replica of `k` may be launched. */
  ghost predicate Allowed(c: Config, log: seq<Event>, k: Kind) {
    && (k != Etcd ==> EtcdReady(c, log))
    && (k == Datanode || k == Frontend ==> AllHealthy(c, log, MetaSrv))
    && (k == Frontend ==> AllHealthy(c, log, Datanode))
  }

  ghost predicate Gated(c: Config, log: seq<Event>) {
    forall j | 0 <= j < |log| && log[j].Launched? :: Allowed(c, log[..j], log[j].proc.kind)
  }

  ghost predicate InPass(c: Config, log: seq<Event>, k: Kind, n: nat) {
    && n < |log|
    && PassAt(log, |log| - 1 - n, k, n)
    && Launches(log[..|log| - 1 - n]) == Through(c, k)
  }

  function NoLeaders(log: seq<Event>): nat {
    if log == [] then 0
    else NoLeaders(log[..|log| - 1]) + if log[|log| - 1] == NoLeader then 1 else 0
  }

  ghost predicate PhaseOk(c: Config, phase: Phase, log: seq<Event>) {
    match phase
    case AcquireEtcd => Launches(log) == [] && NoLeaders(log) == 0
    case Launch(k, i) =>
      && i <= c.Replicas(k) && Launches(log) == Before(c, k) + Reps(k, i)
      && Allowed(c, log, k) && (k == Etcd ==> NoLeaders(log) == 0)
    case Probe(r) => r <= MAX_PROBES && NoLeaders(log) == r && Launches(log) == Through(c, Etcd)
    case AcquireGreptime => Launches(log) == Through(c, Etcd) && Allowed(c, log, MetaSrv)
    case Idle(k) => (k == MetaSrv || k == Datanode) && Launches(log) == Through(c, k) && Allowed(c, log, k)
    case Polling(k, n) =>
      && (k == MetaSrv || k == Datanode) && Launches(log) == Through(c, k) && Allowed(c, log, k)
      && n <= c.Replicas(k) && InPass(c, log, k, n)
    case Failed => true
    case _ => Launches(log) == Plan(c) && Allowed(c, log, Frontend)
  }

  ghost predicate Ordered(c: Config, phase: Phase, log: seq<Event>) {
    && PhaseOk(c, phase, log)
    && Gated(c, log)
    && NoLeaders(log) <= MAX_PROBES
    && Launches(log) <= Plan(c)
  }

  ghost predicate OrderInv(c: Config, s: State) {
    Ordered(c, s.phase, s.log)
  }

  lemma AllowedGrows(c: Config, log: seq<Event>, e: Event, k: Kind)
    requires Allowed(c, log, k)
    ensures Allowed(c, log + [e], k)
  {
    var more := log + [e];
    if k != Etcd {
      var h :| 0 <= h < |log| && log[h] == Ready && Launches(log[..h]) == Through(c, Etcd);
      assert more[h] == Ready && more[..h] == log[..h];
    }
    if k == Datanode || k == Frontend {
      AllHealthyGrows(c, log, e, MetaSrv);
    }
    if k == Frontend {
      AllHealthyGrows(c, log, e, Datanode);
    }
  }

  lemma AllHealthyGrows(c: Config, log: seq<Event>, e: Event, k: Kind)
    requires AllHealthy(c, log, k)
    ensures AllHealthy(c, log + [e], k)
  {
    var at: nat :| PassAt(log, at, k, c.Replicas(k)) && Launches(log[..at]) == Through(c, k);
    assert (log + [e])[..at] == log[..at];
    assert PassAt(log + [e], at, k, c.Replicas(k));
  }

  lemma GatedGrows(c: Config, log: seq<Event>, e: Event)
    requires Gated(c, log) && (e.Launched? ==> Allowed(c, log, e.proc.kind))
    ensures Gated(c, log + [e])
  {
    var more := log + [e];
    forall j | 0 <= j < |more| && more[j].Launched? ensures Allowed(c, more[..j], more[j].proc.kind) {
      assert more[..j] == log[..j];
      assert log[..|log|] == log;
    }
  }

  /** What one more event adds to the two projections of the log. */
  lemma LogGrows(log: seq<Event>, e: Event)
    ensures Launches(log + [e]) == Launches(log) + if e.Launched? then [e.proc] else []
    ensures NoLeaders(log + [e]) == NoLeaders(log) + if e == NoLeader then 1 else 0
  {
    assert (log + [e])[..|log|] == log;
  }

  lemma ThroughGrows(c: Config)
    ensures Through(c, Etcd) <= Through(c, MetaSrv)
    ensures Through(c, MetaSrv) <= Through(c, Datanode)
    ensures Through(c, Datanode) <= Through(c, Frontend)
  {
  }

  lemma ThroughOfPlan(c: Config, k: Kind)
    ensures Through(c, k) <= Plan(c)
  {
    ThroughGrows(c);
  }

  lemma RepsPrefix(c: Config, k: Kind, i: nat)
    requires i <= c.Replicas(k)
    ensures Before(c, k) + Reps(k, i) <= Before(c, k) + Reps(k, c.Replicas(k)) == Through(c, k)
  {
    assert Reps(k, i) <= Reps(k, c.Replicas(k));
    assert k == Etcd ==> [] + Reps(k, 1) == Reps(k, 1);
  }

  lemma PrefixOfPlan(c: Config, k: Kind, i: nat)
    requires i <= c.Replicas(k)
    ensures Before(c, k) + Reps(k, i) <= Plan(c)
    ensures i == c.Replicas(k) ==> Before(c, k) + Reps(k, i) == Through(c, k)
  {
    hide Before, Through, Plan;
    RepsPrefix(c, k, i);
    ThroughOfPlan(c, k);
  }

  lemma LaunchKeepsOrder(c: Config, log: seq<Event>, k: Kind, i: nat)
    requires Ordered(c, Launch(k, i), log) && i < c.Replicas(k)
    ensures Ordered(c, Launch(k, i + 1), log + [Launched(Proc(k, i))])
  {
    var e := Launched(Proc(k, i));
    LogGrows(log, e);
    GatedGrows(c, log, e);
    AllowedGrows(c, log, e, k);
    RepsSnoc(c, k, i);
    PrefixOfPlan(c, k, i + 1);
  }

  lemma RepsSnoc(c: Config, k: Kind, i: nat)
    ensures Before(c, k) + Reps(k, i + 1) == Before(c, k) + Reps(k, i) + [Proc(k, i)]
  {
  }

  lemma InPassGrows(c: Config, log: seq<Event>, k: Kind, n: nat)
    requires InPass(c, log, k, n)
    ensures InPass(c, log + [Polled(k, n, true)], k, n + 1)
  {
    var at := |log| - 1 - n;
    assert (log + [Polled(k, n, true)])[..at] == log[..at];
  }

  lemma EventKeepsGates(c: Config, log: seq<Event>, e: Event, k: Kind)
    requires Gated(c, log) && Allowed(c, log, k) && !e.Launched? && e != NoLeader
    ensures var more := log + [e];
            Gated(c, more) && Allowed(c, more, k) && Launches(more) == Launches(log) && NoLeaders(more) == NoLeaders(log)
  {
    LogGrows(log, e);
    GatedGrows(c, log, e);
    AllowedGrows(c, log, e, k);
  }

  lemma TickKeepsOrder(c: Config, log: seq<Event>, k: Kind)
    requires Ordered(c, Idle(k), log)
    ensures Ordered(c, Polling(k, 0), log + [PassStart(k)])
  {
    var e := PassStart(k);
    EventKeepsGates(c, log, e, k);
    assert (log + [e])[..|log|] == log;
  }

  lemma PollKeepsOrder(c: Config, log: seq<Event>, k: Kind, n: nat, healthy: bool)
    requires Ordered(c, Polling(k, n), log) && n < c.Replicas(k)
    ensures Ordered(c, if healthy then Polling(k, n + 1) else Idle(k), log + [Polled(k, n, healthy)])
  {
    hide Gated, Allowed, Launches, NoLeaders, InPass, Plan;
    EventKeepsGates(c, log, Polled(k, n, healthy), k);
    if healthy {
      InPassGrows(c, log, k, n);
    }
  }

  lemma ProbeKeepsOrder(c: Config, s: State, a: Action)
    requires OrderInv(c, s) && Enabled(c, s, a) && (a.ProbeSkip? || a.ProbeAnswer?)
    ensures OrderInv(c, Do(c, s, a))
  {
    var e := if a.ProbeAnswer? && !a.leader then NoLeader else Ready;
    LogGrows(s.log, e);
    GatedGrows(c, s.log, e);
    if e == Ready {
      assert (s.log + [e])[|s.log|] == Ready && (s.log + [e])[..|s.log|] == s.log;
    }
  }

  lemma LaunchesDoneKeepsOrder(c: Config, log: seq<Event>, k: Kind)
    requires Ordered(c, Launch(k, c.Replicas(k)), log)
    ensures Ordered(c, AfterLaunches(k), log)
  {
    PrefixOfPlan(c, k, c.Replicas(k));
  }

  lemma PassFound(c: Config, log: seq<Event>, k: Kind)
    requires InPass(c, log, k, c.Replicas(k))
    ensures AllHealthy(c, log, k)
  {
    assert PassAt(log, |log| - 1 - c.Replicas(k), k, c.Replicas(k));
  }

  lemma PassDoneKeepsOrder(c: Config, log: seq<Event>, k: Kind)
    requires Ordered(c, Polling(k, c.Replicas(k)), log)
    ensures Ordered(c, AfterPass(k), log)
  {
    hide Launches, InPass, AllHealthy;
    PassFound(c, log, k);
    assert Reps(Datanode, 0) == [] && Reps(Frontend, 0) == [];
  }

  lemma AcquireKeepsOrder(c: Config, s: State, a: Action)
    requires OrderInv(c, s) && Enabled(c, s, a) && a.Acquire?
    ensures OrderInv(c, Do(c, s, a))
  {
    assert Reps(Etcd, 0) == [] && Reps(MetaSrv, 0) == [];
  }

  /** Actions that write to the log or enter a new stage. */
  predicate Advances(a: Action) {
    a == LaunchOk || a == LaunchesDone || a.ProbeAnswer? || a == ProbeSkip || a == Tick || a.Poll? || a == PassDone || a.Acquire?
  }

  lemma OthersKeepOrder(c: Config, s: State, a: Action)
    requires Enabled(c, s, a) && !Advances(a)
    ensures var t := Do(c, s, a);
            t.log == s.log && (t.phase == s.phase || t.phase == Failed || (s.phase == Created && t.phase == Waiting)
              || (s.phase == Waiting && t.phase == Drained) || (s.phase == Drained && t.phase == Returned))
  {
  }

  lemma AdvanceKeepsOrder(c: Config, s: State, a: Action)
    requires OrderInv(c, s) && Enabled(c, s, a) && Advances(a)
    ensures OrderInv(c, Do(c, s, a))
  {
    hide Ordered;
    match a {
      case LaunchOk => LaunchKeepsOrder(c, s.log, s.phase.kind, s.phase.index);
      case Tick => TickKeepsOrder(c, s.log, s.phase.kind);
      case Poll(healthy) => PollKeepsOrder(c, s.log, s.phase.kind, s.phase.index, healthy);
      case ProbeSkip => ProbeKeepsOrder(c, s, a);
      case ProbeAnswer(_) => ProbeKeepsOrder(c, s, a);
      case LaunchesDone => LaunchesDoneKeepsOrder(c, s.log, s.phase.kind);
      case PassDone => PassDoneKeepsOrder(c, s.log, s.phase.kind);
      case Acquire(_) => AcquireKeepsOrder(c, s, a);
      case _ =>
    }
  }

  lemma OrderStep(c: Config, s: State, a: Action)
    requires OrderInv(c, s) && Enabled(c, s, a)
    ensures OrderInv(c, Do(c, s, a))
  {
    hide Enabled, Do;
    if Advances(a) {
      AdvanceKeepsOrder(c, s, a);
    } else {
      OthersKeepOrder(c, s, a);
    }
  }
}
