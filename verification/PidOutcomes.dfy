/**
 What a `Create` leaves in the pids directory, however it ends (pkg/cluster/baremetal/create.go, pkg/components/run.go):
 entry by entry, from how far it came and what each single launch did.
 */
module PidOutcomes {
  import opened Text
  import opened Lifecycle
  import opened LifecycleSafety
  import LifecycleDrain
  import opened PidFiles

  lemma LeavesAfter(pids: Pids, name: string, fate: Fate)
    ensures Leaves(pids, AfterLaunch(pids, name, fate), name, fate)
  {
  }

  lemma LeavesKept(a: Pids, b: Pids, c: Pids, d: Pids, name: string, fate: Fate)
    requires SameEntry(a, b, name) && Leaves(b, c, name, fate) && SameEntry(c, d, name)
    ensures Leaves(a, d, name, fate)
  {
  }

  /** One process among others that have other directories. */
  lemma OneAmong(pids: Pids, xs: seq<Proc>, p: Proc, ys: seq<Proc>, fate: Proc -> Fate)
    requires forall q | q in xs || q in ys :: NameOf(q) != NameOf(p)
    ensures var after := LaunchAll(pids, xs + ([p] + ys), fate).pids;
            if forall q | q in xs :: fate(q).Runs? then Leaves(pids, after, NameOf(p), fate(p)) else SameEntry(pids, after, NameOf(p))
  {
    LaunchConcat(pids, xs, [p] + ys, fate);
    AllRun(pids, xs, fate);
    OtherPids(pids, xs, fate, NameOf(p));
    var mid := LaunchAll(pids, xs, fate);
    var next := AfterLaunch(mid.pids, NameOf(p), fate(p));
    assert ([p] + ys)[1..] == ys && ([p] + ys)[0] == p;
    assert LaunchAll(mid.pids, [p] + ys, fate) == if fate(p).Runs? then LaunchAll(next, ys, fate) else Launching(next, false);
    OtherPids(next, ys, fate, NameOf(p));
    LeavesAfter(mid.pids, NameOf(p), fate(p));
    hide NameOf, AfterLaunch, LaunchAll, Leaves;
    if mid.ok {
      LeavesKept(pids, mid.pids, next, LaunchAll(mid.pids, [p] + ys, fate).pids, NameOf(p), fate(p));
    }
  }

  lemma RepsNames(k: Kind, i: nat, n: nat)
    requires i < n && (k == Etcd ==> n == 1)
    ensures forall q | q in Reps(k, i) || q in Reps(k, n)[i + 1..] :: NameOf(q) != NameOf(Proc(k, i))
  {
    forall q | q in Reps(k, i) || q in Reps(k, n)[i + 1..] ensures NameOf(q) != NameOf(Proc(k, i)) {
      assert q.kind == k && q.index != i && q.index < n;
      if NameOf(q) == NameOf(Proc(k, i)) {
        NamesDiffer(q, Proc(k, i));
      }
    }
  }

  /** Every replica before this one of its component runs. */
  ghost predicate EarlierRun(p: Proc, fate: Proc -> Fate) {
    forall j | 0 <= j < p.index :: fate(Proc(p.kind, j)).Runs?
  }

  lemma EarlierReps(k: Kind, i: nat, fate: Proc -> Fate)
    ensures (forall q | q in Reps(k, i) :: fate(q).Runs?) <==> EarlierRun(Proc(k, i), fate)
  {
    forall j | 0 <= j < i ensures Proc(k, j) in Reps(k, i) {
      assert Reps(k, i)[j] == Proc(k, j);
    }
  }

  lemma RepsCut(k: Kind, i: nat, n: nat)
    requires i < n
    ensures Reps(k, n) == Reps(k, i) + ([Proc(k, i)] + Reps(k, n)[i + 1..])
  {
  }

  /** A replica is launched if all before it run, and then leaves what its fate says; otherwise nothing changes for it. */
  lemma RepsLeave(pids: Pids, k: Kind, n: nat, fate: Proc -> Fate, i: nat)
    requires i < n && (k == Etcd ==> n == 1)
    ensures var after, p := LaunchAll(pids, Reps(k, n), fate).pids, Proc(k, i);
            if EarlierRun(p, fate) then Leaves(pids, after, NameOf(p), fate(p)) else SameEntry(pids, after, NameOf(p))
  {
    RepsCut(k, i, n);
    RepsNames(k, i, n);
    EarlierReps(k, i, fate);
    hide NameOf, Reps, LaunchAll, Leaves, EarlierRun;
    OneAmong(pids, Reps(k, i), Proc(k, i), Reps(k, n)[i + 1..], fate);
  }

  ghost predicate StageRuns(c: Config, fate: Proc -> Fate, k: Kind) {
    forall i | 0 <= i < c.Replicas(k) :: fate(Proc(k, i)).Runs?
  }

  /** `Create` comes as far as launching `k`: all earlier processes run and all checks before `k` went well. */
  ghost predicate Entered(c: Config, fate: Proc -> Fate, checks: Checks, k: Kind)
    decreases LifecycleDrain.StageOf(k)
  {
    match k
    case Etcd => checks.etcdAcquired
    case MetaSrv => Entered(c, fate, checks, Etcd) && StageRuns(c, fate, Etcd) && checks.etcdReady && checks.clusterAcquired
    case Datanode => Entered(c, fate, checks, MetaSrv) && StageRuns(c, fate, MetaSrv) && checks.metaHealthy
    case Frontend => Entered(c, fate, checks, Datanode) && StageRuns(c, fate, Datanode) && checks.dataHealthy
  }

  ghost function StageAfter(pids: Pids, c: Config, k: Kind, fate: Proc -> Fate, checks: Checks): Pids {
    if Entered(c, fate, checks, k) then LaunchAll(pids, Reps(k, c.Replicas(k)), fate).pids else pids
  }

  lemma StageOk(pids: Pids, c: Config, k: Kind, fate: Proc -> Fate)
    ensures LaunchAll(pids, Reps(k, c.Replicas(k)), fate).ok <==> StageRuns(c, fate, k)
  {
    AllRun(pids, Reps(k, c.Replicas(k)), fate);
    forall i | 0 <= i < c.Replicas(k) ensures Proc(k, i) in Reps(k, c.Replicas(k)) {
      assert Reps(k, c.Replicas(k))[i] == Proc(k, i);
    }
  }

  lemma StagedPids(c: Config, pids: Pids, fate: Proc -> Fate, checks: Checks)
    ensures Staged(c, pids, fate, checks).pids
         == StageAfter(StageAfter(StageAfter(StageAfter(pids, c, Etcd, fate, checks), c, MetaSrv, fate, checks),
                                  c, Datanode, fate, checks), c, Frontend, fate, checks)
  {
    hide LaunchAll, Reps, StageRuns;
    var e := StageAfter(pids, c, Etcd, fate, checks);
    var m := StageAfter(e, c, MetaSrv, fate, checks);
    StageOk(pids, c, Etcd, fate);
    StageOk(e, c, MetaSrv, fate);
    StageOk(m, c, Datanode, fate);
  }

  lemma StageOther(pids: Pids, c: Config, j: Kind, fate: Proc -> Fate, checks: Checks, n: string)
    requires forall p: Proc | p.kind == j && p.index < c.Replicas(j) :: NameOf(p) != n
    ensures SameEntry(pids, StageAfter(pids, c, j, fate, checks), n)
  {
    hide NameOf, LaunchAll;
    OtherPids(pids, Reps(j, c.Replicas(j)), fate, n);
  }

  lemma OtherKinds(p: Proc)
    ensures forall q: Proc | q.kind != p.kind :: NameOf(q) != NameOf(p)
  {
    forall q: Proc | q.kind != p.kind ensures NameOf(q) != NameOf(p) {
      if NameOf(q) == NameOf(p) {
        NamesDiffer(q, p);
      }
    }
  }

  lemma SameAlong(a: Pids, b: Pids, c: Pids, n: string)
    requires SameEntry(a, b, n) && SameEntry(b, c, n)
    ensures SameEntry(a, c, n)
  {
  }

  lemma LeavesAlong(a: Pids, b: Pids, c: Pids, d: Pids, n: string, fate: Fate, launched: bool)
    requires SameEntry(a, b, n) && SameEntry(c, d, n) && if launched then Leaves(b, c, n, fate) else SameEntry(b, c, n)
    ensures if launched then Leaves(a, d, n, fate) else SameEntry(a, d, n)
  {
  }

  lemma OwnStage(pids: Pids, c: Config, p: Proc, fate: Proc -> Fate, checks: Checks)
    requires p.index < c.Replicas(p.kind)
    ensures var after := StageAfter(pids, c, p.kind, fate, checks);
            if Entered(c, fate, checks, p.kind) && EarlierRun(p, fate) then Leaves(pids, after, NameOf(p), fate(p))
            else SameEntry(pids, after, NameOf(p))
  {
    hide NameOf, LaunchAll, Leaves, EarlierRun, Reps;
    RepsLeave(pids, p.kind, c.Replicas(p.kind), fate, p.index);
  }

  /**
   However a `Create` ends: a process it launched leaves what its fate says, a failed start the older pid file
   included, and nothing is written for a process behind a failed launch or a failed check.
   */
  lemma CreateLeaves(c: Config, pids: Pids, fate: Proc -> Fate, checks: Checks, p: Proc)
    requires p.index < c.Replicas(p.kind)
    ensures var after := Staged(c, pids, fate, checks).pids;
            if Entered(c, fate, checks, p.kind) && EarlierRun(p, fate) then Leaves(pids, after, NameOf(p), fate(p))
            else SameEntry(pids, after, NameOf(p))
  {
    OtherKinds(p);
    StagedPids(c, pids, fate, checks);
    hide Staged, StageAfter, Entered, EarlierRun, NameOf, Leaves, SameEntry;
    var n := NameOf(p);
    var e := StageAfter(pids, c, Etcd, fate, checks);
    var m := StageAfter(e, c, MetaSrv, fate, checks);
    var d := StageAfter(m, c, Datanode, fate, checks);
    var f := StageAfter(d, c, Frontend, fate, checks);
    var launched := Entered(c, fate, checks, p.kind) && EarlierRun(p, fate);
    StagesAround(pids, e, m, d, f, c, p, fate, checks, launched);
  }

  lemma StagesAround(pids: Pids, e: Pids, m: Pids, d: Pids, f: Pids, c: Config, p: Proc, fate: Proc -> Fate, checks: Checks, launched: bool)
    requires p.index < c.Replicas(p.kind) && forall q: Proc | q.kind != p.kind :: NameOf(q) != NameOf(p)
    requires e == StageAfter(pids, c, Etcd, fate, checks) && m == StageAfter(e, c, MetaSrv, fate, checks)
    requires d == StageAfter(m, c, Datanode, fate, checks) && f == StageAfter(d, c, Frontend, fate, checks)
    requires launched == (Entered(c, fate, checks, p.kind) && EarlierRun(p, fate))
    ensures if launched then Leaves(pids, f, NameOf(p), fate(p)) else SameEntry(pids, f, NameOf(p))
  {
    hide StageAfter, Entered, EarlierRun, NameOf, Leaves, SameEntry;
    var n := NameOf(p);
    SameSelf(pids, n);
    SameSelf(f, n);
    match p.kind
    case Etcd =>
      OwnStage(pids, c, p, fate, checks);
      StageOther(e, c, MetaSrv, fate, checks, n);
      StageOther(m, c, Datanode, fate, checks, n);
      StageOther(d, c, Frontend, fate, checks, n);
      SameAlong(e, m, d, n);
      SameAlong(e, d, f, n);
      LeavesAlong(pids, pids, e, f, n, fate(p), launched);
    case MetaSrv =>
      StageOther(pids, c, Etcd, fate, checks, n);
      OwnStage(e, c, p, fate, checks);
      StageOther(m, c, Datanode, fate, checks, n);
      StageOther(d, c, Frontend, fate, checks, n);
      SameAlong(m, d, f, n);
      LeavesAlong(pids, e, m, f, n, fate(p), launched);
    case Datanode =>
      StageOther(pids, c, Etcd, fate, checks, n);
      StageOther(e, c, MetaSrv, fate, checks, n);
      OwnStage(m, c, p, fate, checks);
      StageOther(d, c, Frontend, fate, checks, n);
      SameAlong(pids, e, m, n);
      LeavesAlong(pids, m, d, f, n, fate(p), launched);
    case Frontend =>
      StageOther(pids, c, Etcd, fate, checks, n);
      StageOther(e, c, MetaSrv, fate, checks, n);
      StageOther(m, c, Datanode, fate, checks, n);
      OwnStage(d, c, p, fate, checks);
      SameAlong(pids, e, m, n);
      SameAlong(pids, m, d, n);
      LeavesAlong(pids, d, f, f, n, fate(p), launched);
  }

  lemma SameSelf(pids: Pids, n: string)
    ensures SameEntry(pids, pids, n)
  {
  }

  /** No other entry of the directory is touched. */
  lemma CreateSpares(c: Config, pids: Pids, fate: Proc -> Fate, checks: Checks, n: string)
    requires forall p: Proc | p.index < c.Replicas(p.kind) :: NameOf(p) != n
    ensures SameEntry(pids, Staged(c, pids, fate, checks).pids, n)
  {
    StagedPids(c, pids, fate, checks);
    hide Staged, StageAfter, NameOf, SameEntry;
    var e := StageAfter(pids, c, Etcd, fate, checks);
    var m := StageAfter(e, c, MetaSrv, fate, checks);
    var d := StageAfter(m, c, Datanode, fate, checks);
    var f := StageAfter(d, c, Frontend, fate, checks);
    StageOther(pids, c, Etcd, fate, checks, n);
    StageOther(e, c, MetaSrv, fate, checks, n);
    StageOther(m, c, Datanode, fate, checks, n);
    StageOther(d, c, Frontend, fate, checks, n);
    SameAlong(pids, e, m, n);
    SameAlong(pids, m, d, n);
    SameAlong(pids, d, f, n);
  }
}
