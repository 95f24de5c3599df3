/**
 Pid bookkeeping: what each component's `Start` and `runBinary` leave under the cluster's pids
 directory (pkg/components), and what `gtctl cluster get` reads back (pkg/cluster/baremetal/get.go).
 The pids directory holds one directory per process; `pids` maps its name to the content of the
 `pid` file inside, if there is one.
 */
module PidFiles {
  import opened Text
  import opened Decimal
  import opened Lifecycle
  import opened LifecycleSafety
  import LifecycleDrain

  const PIDS_DIR := "pids"

  /** What happens when one process is launched. */
  datatype Fate =
    | LogDirFails
    | PidDirFails
    | StartFails                      // a later directory, the log file, exec or creation of the pid file
    | PidWriteFails(written: string)  // what reached the created pid file
    | Runs(pid: nat)

  type Pids = map<string, Option<string>>

  class Host {
    var pids: Pids

    constructor ()
      ensures pids == map[]
    {
      pids := map[];
    }
  }

  function ComponentName(k: Kind): string {
    match k
    case Etcd => "etcd"
    case MetaSrv => "metasrv"
    case Datanode => "datanode"
    case Frontend => "frontend"
  }

  function ReplicaName(name: string, i: nat): string {
    name + ['.'] + Itoa(i)
  }

  function NameOf(p: Proc): string {
    if p.kind == Etcd then ComponentName(Etcd) else ReplicaName(ComponentName(p.kind), p.index)
  }

  // ---- Writing ----

  function EnsureDir(pids: Pids, name: string): Pids {
    if name in pids then pids else pids[name := None]
  }

  lemma EnsureThenLaunch(pids: Pids, name: string, fate: Fate)
    requires fate != LogDirFails && fate != PidDirFails
    ensures AfterLaunch(EnsureDir(pids, name), name, fate) == AfterLaunch(pids, name, fate)
    ensures name in EnsureDir(pids, name)
  {
  }

  /** The pids directory after launching one process. A directory that exists already keeps its file. */
  function AfterLaunch(pids: Pids, name: string, fate: Fate): Pids {
    match fate
    case LogDirFails => pids
    case PidDirFails => pids
    case StartFails => EnsureDir(pids, name)
    case PidWriteFails(written) => pids[name := Some(written)]
    case Runs(pid) => pids[name := Some(Itoa(pid))]
  }

  predicate SameEntry(before: Pids, after: Pids, name: string) {
    (name in after <==> name in before) && (name in after ==> after[name] == before[name])
  }

  /**
   What one launch leaves of the directory `name`: the pid, the part of it that was written, or what was there
   before, an older pid file included.
   */
  predicate Leaves(before: Pids, after: Pids, name: string, fate: Fate) {
    match fate
    case LogDirFails => SameEntry(before, after, name)
    case PidDirFails => SameEntry(before, after, name)
    case StartFails => name in after && after[name] == if name in before then before[name] else None
    case PidWriteFails(written) => name in after && after[name] == Some(written)
    case Runs(pid) => name in after && after[name] == Some(Itoa(pid))
  }

  datatype Launching = Launching(pids: Pids, ok: bool)

  /** Launches one process after the other and stops at the first failure. */
  function LaunchAll(pids: Pids, procs: seq<Proc>, fate: Proc -> Fate): Launching
    decreases |procs|
  {
    if procs == [] then Launching(pids, true)
    else
      var next := AfterLaunch(pids, NameOf(procs[0]), fate(procs[0]));
      if fate(procs[0]).Runs? then LaunchAll(next, procs[1..], fate) else Launching(next, false)
  }

  lemma {:induction false} LaunchConcat(pids: Pids, xs: seq<Proc>, ys: seq<Proc>, fate: Proc -> Fate)
    ensures var first := LaunchAll(pids, xs, fate);
            LaunchAll(pids, xs + ys, fate) == if first.ok then LaunchAll(first.pids, ys, fate) else first
    decreases |xs|
  {
    if xs == [] {
      assert xs + ys == ys;
    } else {
      assert (xs + ys)[1..] == xs[1..] + ys;
      LaunchConcat(AfterLaunch(pids, NameOf(xs[0]), fate(xs[0])), xs[1..], ys, fate);
    }
  }

  lemma LaunchOneMore(before: Pids, pids: Pids, xs: seq<Proc>, p: Proc, ys: seq<Proc>, fate: Proc -> Fate)
    requires LaunchAll(before, xs, fate) == Launching(pids, true)
    ensures var next := AfterLaunch(pids, NameOf(p), fate(p));
            && LaunchAll(before, xs + [p], fate) == Launching(next, fate(p).Runs?)
            && (!fate(p).Runs? ==> LaunchAll(before, xs + [p] + ys, fate) == Launching(next, false))
  {
    LaunchConcat(before, xs, [p], fate);
    assert [p][1..] == [];
    LaunchConcat(before, xs + [p], ys, fate);
  }

  lemma RepsAround(k: Kind, i: nat, n: nat)
    requires i < n
    ensures Reps(k, i + 1) == Reps(k, i) + [Proc(k, i)]
    ensures Reps(k, n) == Reps(k, i) + [Proc(k, i)] + Reps(k, n)[i + 1..]
  {
  }

  /** One more replica after `i` successful ones; a failure settles the outcome for all `n`. */
  lemma LaunchNext(before: Pids, pids: Pids, k: Kind, i: nat, n: nat, fate: Proc -> Fate)
    requires LaunchAll(before, Reps(k, i), fate) == Launching(pids, true) && i < n
    ensures var next := AfterLaunch(pids, NameOf(Proc(k, i)), fate(Proc(k, i)));
            && (fate(Proc(k, i)).Runs? ==> LaunchAll(before, Reps(k, i + 1), fate) == Launching(next, true))
            && (!fate(Proc(k, i)).Runs? ==> LaunchAll(before, Reps(k, n), fate) == Launching(next, false))
  {
    RepsAround(k, i, n);
    LaunchOneMore(before, pids, Reps(k, i), Proc(k, i), Reps(k, n)[i + 1..], fate);
  }

  function JoinPath(dir: string, name: string): string {
    dir + ['/'] + name
  }

  function ReplicaDirs(base: string, k: Kind, n: nat): seq<string> {
    seq(n, i requires 0 <= i < n => JoinPath(base, NameOf(Proc(k, i))))
  }

  lemma DirsGrow(dirs: seq<string>, before: seq<string>, base: string, k: Kind, i: nat, n: nat)
    requires i < n && dirs == before + ReplicaDirs(base, k, i)
    ensures dirs + [JoinPath(base, NameOf(Proc(k, i)))] == before + ReplicaDirs(base, k, i + 1)
    ensures before <= dirs <= before + ReplicaDirs(base, k, n)
    ensures before <= dirs + [JoinPath(base, NameOf(Proc(k, i)))] <= before + ReplicaDirs(base, k, n)
  {
    assert ReplicaDirs(base, k, i + 1) == ReplicaDirs(base, k, i) + [JoinPath(base, NameOf(Proc(k, i)))];
    assert ReplicaDirs(base, k, i + 1) <= ReplicaDirs(base, k, n);
  }

  method RunBinary(host: Host, name: string, fate: Fate) returns (ok: bool)
    requires name in host.pids && fate != LogDirFails && fate != PidDirFails
    modifies host
    ensures host.pids == AfterLaunch(old(host.pids), name, fate) && ok == fate.Runs?
    ensures Leaves(old(host.pids), host.pids, name, fate)
  {
    if fate == StartFails {
      return false;
    }
    host.pids := host.pids[name := Some("")];
    if fate.PidWriteFails? {
      host.pids := host.pids[name := Some(fate.written)];
      return false;
    }
    host.pids := host.pids[name := Some(Itoa(fate.pid))];
    return true;
  }

  class Component {
    const kind: Kind
    const replicas: nat
    const logs: string
    const pidsHome: string
    var logsDirs: seq<string>
    var pidsDirs: seq<string>

    constructor (kind: Kind, replicas: nat, logs: string, pidsHome: string)
      requires kind == Etcd ==> replicas == 1
      ensures this.kind == kind && this.replicas == replicas && this.logs == logs && this.pidsHome == pidsHome
      ensures logsDirs == [] && pidsDirs == []
    {
      this.kind, this.replicas, this.logs, this.pidsHome := kind, replicas, logs, pidsHome;
      logsDirs, pidsDirs := [], [];
    }

    /** The body of the replica loop. */
    method StartReplica(host: Host, dirName: string, fate: Fate) returns (ok: bool)
      modifies this, host
      ensures host.pids == AfterLaunch(old(host.pids), dirName, fate) && ok == fate.Runs?
      ensures logsDirs == old(logsDirs) + if fate == LogDirFails then [] else [JoinPath(logs, dirName)]
      ensures pidsDirs == old(pidsDirs) + if fate == LogDirFails || fate == PidDirFails then [] else [JoinPath(pidsHome, dirName)]
    {
      if fate == LogDirFails {
        return false;
      }
      logsDirs := logsDirs + [JoinPath(logs, dirName)];
      if fate == PidDirFails {
        return false;
      }
      EnsureThenLaunch(host.pids, dirName, fate);
      host.pids := EnsureDir(host.pids, dirName);
      pidsDirs := pidsDirs + [JoinPath(pidsHome, dirName)];
      ok := RunBinary(host, dirName, fate);
    }

    /** Launches every replica; `healthy` says whether the status checker ends well or is cancelled. */
    method Start(host: Host, fate: Proc -> Fate, healthy: bool) returns (ok: bool)
      modifies this, host
      ensures var launched := LaunchAll(old(host.pids), Reps(kind, replicas), fate);
              host.pids == launched.pids && ok == (launched.ok && (kind == MetaSrv || kind == Datanode ==> healthy))
      ensures ok ==> logsDirs == old(logsDirs) + ReplicaDirs(logs, kind, replicas)
      ensures ok ==> pidsDirs == old(pidsDirs) + ReplicaDirs(pidsHome, kind, replicas)
      ensures old(logsDirs) <= logsDirs <= old(logsDirs) + ReplicaDirs(logs, kind, replicas)
      ensures old(pidsDirs) <= pidsDirs <= old(pidsDirs) + ReplicaDirs(pidsHome, kind, replicas)
    {
      NothingYet(old(host.pids), kind, fate, logs, pidsHome);
      hide LaunchAll, AfterLaunch, EnsureDir, Reps, ReplicaDirs;
      for i := 0 to replicas
        invariant LaunchAll(old(host.pids), Reps(kind, i), fate) == Launching(host.pids, true)
        invariant logsDirs == old(logsDirs) + ReplicaDirs(logs, kind, i)
        invariant pidsDirs == old(pidsDirs) + ReplicaDirs(pidsHome, kind, i)
      {
        var p := Proc(kind, i);
        var dirName := NameOf(p);
        LaunchNext(old(host.pids), host.pids, kind, i, replicas, fate);
        DirsGrow(logsDirs, old(logsDirs), logs, kind, i, replicas);
        DirsGrow(pidsDirs, old(pidsDirs), pidsHome, kind, i, replicas);
        var started := StartReplica(host, dirName, fate(p));
        if !started {
          return false;
        }
      }
      return kind == MetaSrv || kind == Datanode ==> healthy;
    }
  }

  lemma NothingYet(pids: Pids, k: Kind, fate: Proc -> Fate, logs: string, pidsHome: string)
    ensures LaunchAll(pids, Reps(k, 0), fate) == Launching(pids, true)
    ensures ReplicaDirs(logs, k, 0) == [] && ReplicaDirs(pidsHome, k, 0) == []
  {
    assert Reps(k, 0) == [];
  }

  /** What else can end a `Create`: getting the two binaries, and the health checks. */
  datatype Checks = Checks(etcdAcquired: bool, etcdReady: bool, clusterAcquired: bool, metaHealthy: bool, dataHealthy: bool) {
    predicate All() {
      etcdAcquired && etcdReady && clusterAcquired && metaHealthy && dataHealthy
    }
  }

  /** The stages of a bare-metal `Create`, each entered only if the one before returned nil. */
  function Staged(c: Config, pids: Pids, fate: Proc -> Fate, checks: Checks): Launching {
    var e := if checks.etcdAcquired then LaunchAll(pids, Reps(Etcd, 1), fate) else Launching(pids, false);
    if !e.ok || !checks.etcdReady || !checks.clusterAcquired then Launching(e.pids, false)
    else
      var m := LaunchAll(e.pids, Reps(MetaSrv, c.metaSrvs), fate);
      if !m.ok || !checks.metaHealthy then Launching(m.pids, false)
      else
        var d := LaunchAll(m.pids, Reps(Datanode, c.datanodes), fate);
        if !d.ok || !checks.dataHealthy then Launching(d.pids, false)
        else LaunchAll(d.pids, Reps(Frontend, c.frontends), fate)
  }

  method Create(c: Config, host: Host, logs: string, pidsHome: string, fate: Proc -> Fate, checks: Checks) returns (ok: bool)
    modifies host
    ensures Launching(host.pids, ok) == Staged(c, old(host.pids), fate, checks)
    ensures ok <==> checks.All() && forall p | p in Plan(c) :: fate(p).Runs?
    ensures ok ==> forall p | p in Plan(c) :: NameOf(p) in host.pids && host.pids[NameOf(p)] == Some(Itoa(fate(p).pid))
  {
    StagedMeans(c, host.pids, fate, checks);
    hide LaunchAll, Reps, Plan, NameOf;
    var etcd := new Component(Etcd, 1, logs, pidsHome);
    var metaSrv := new Component(MetaSrv, c.metaSrvs, logs, pidsHome);
    var datanode := new Component(Datanode, c.datanodes, logs, pidsHome);
    var frontend := new Component(Frontend, c.frontends, logs, pidsHome);
    if !checks.etcdAcquired {
      return false;
    }
    ok := etcd.Start(host, fate, false);
    if !ok || !checks.etcdReady || !checks.clusterAcquired {
      return false;
    }
    ok := metaSrv.Start(host, fate, checks.metaHealthy);
    if !ok {
      return;
    }
    ok := datanode.Start(host, fate, checks.dataHealthy);
    if !ok {
      return;
    }
    ok := frontend.Start(host, fate, false);
  }

  /** `Create` returns nil exactly when every check went well and the whole plan was launched, one process after the other. */
  lemma CreateLaunchesPlan(c: Config, pids: Pids, fate: Proc -> Fate, checks: Checks)
    ensures var staged, planned := Staged(c, pids, fate, checks), LaunchAll(pids, Plan(c), fate);
            && (staged.ok <==> checks.All() && planned.ok)
            && (staged.ok ==> staged == planned)
  {
    LaunchConcat(pids, Through(c, Etcd), Reps(MetaSrv, c.metaSrvs), fate);
    LaunchConcat(pids, Through(c, MetaSrv), Reps(Datanode, c.datanodes), fate);
    LaunchConcat(pids, Through(c, Datanode), Reps(Frontend, c.frontends), fate);
  }

  // ---- Names ----

  lemma ComponentNames(j: Kind, k: Kind)
    ensures '.' !in ComponentName(k)
    ensures ComponentName(j) == ComponentName(k) ==> j == k
  {
    assert ComponentName(Etcd)[0] == 'e' && ComponentName(MetaSrv)[0] == 'm';
    assert ComponentName(Datanode)[0] == 'd' && ComponentName(Frontend)[0] == 'f';
  }

  lemma ReplicaNamesDiffer(a: string, i: nat, b: string, j: nat)
    requires '.' !in a && '.' !in b && ReplicaName(a, i) == ReplicaName(b, j)
    ensures a == b && i == j
  {
    IndexOfAt(a, '.', Itoa(i));
    IndexOfAt(b, '.', Itoa(j));
    assert ReplicaName(a, i)[..|a|] == a && ReplicaName(b, j)[..|b|] == b;
    assert ReplicaName(a, i)[|a| + 1..] == Itoa(i) && ReplicaName(b, j)[|b| + 1..] == Itoa(j);
    DigitsInjective(i, j);
  }

  lemma NoDotNoReplica(a: string, b: string, j: nat)
    requires '.' !in a
    ensures a != ReplicaName(b, j)
  {
    assert ReplicaName(b, j)[|b|] == '.';
  }

  /** No two processes of a plan share a directory. */
  lemma NamesDiffer(p: Proc, q: Proc)
    requires NameOf(p) == NameOf(q)
    ensures p == q || (p.kind == Etcd && q.kind == Etcd)
  {
    ComponentNames(p.kind, q.kind);
    ComponentNames(q.kind, p.kind);
    if p.kind != Etcd && q.kind != Etcd {
      ReplicaNamesDiffer(ComponentName(p.kind), p.index, ComponentName(q.kind), q.index);
    } else if p.kind == Etcd && q.kind != Etcd {
      NoDotNoReplica(ComponentName(Etcd), ComponentName(q.kind), q.index);
    } else if q.kind == Etcd && p.kind != Etcd {
      NoDotNoReplica(ComponentName(Etcd), ComponentName(p.kind), p.index);
    }
  }

  predicate OneEtcd(procs: seq<Proc>) {
    forall p | p in procs :: p.kind == Etcd ==> p.index == 0
  }

  lemma OtherEntry(pids: Pids, name: string, fate: Fate, n: string)
    requires name != n
    ensures SameEntry(pids, AfterLaunch(pids, name, fate), n)
  {
  }

  lemma {:induction false} OtherPids(pids: Pids, procs: seq<Proc>, fate: Proc -> Fate, n: string)
    requires forall p | p in procs :: NameOf(p) != n
    ensures SameEntry(pids, LaunchAll(pids, procs, fate).pids, n)
    decreases |procs|
  {
    hide NameOf, AfterLaunch;
    if procs != [] {
      OtherEntry(pids, NameOf(procs[0]), fate(procs[0]), n);
      assert procs[0] in procs && forall q | q in procs[1..] :: q in procs;
      OtherPids(AfterLaunch(pids, NameOf(procs[0]), fate(procs[0])), procs[1..], fate, n);
    }
  }

  lemma {:induction false} OwnPid(pids: Pids, procs: seq<Proc>, fate: Proc -> Fate, p: Proc)
    requires LaunchAll(pids, procs, fate).ok && OneEtcd(procs) && p in procs
    ensures var m := LaunchAll(pids, procs, fate).pids;
            fate(p).Runs? && NameOf(p) in m && m[NameOf(p)] == Some(Itoa(fate(p).pid))
    decreases |procs|
  {
    var next := AfterLaunch(pids, NameOf(procs[0]), fate(procs[0]));
    assert procs == [procs[0]] + procs[1..];
    if p in procs[1..] {
      OwnPid(next, procs[1..], fate, p);
    } else {
      forall q | q in procs[1..] ensures NameOf(q) != NameOf(p) {
        assert q in procs;
        if NameOf(q) == NameOf(p) {
          NamesDiffer(p, q);
        }
      }
      OtherPids(next, procs[1..], fate, NameOf(p));
    }
  }

  /** A run of successful launches leaves exactly one pid file per process, with the pid it got. */
  lemma LaunchedPids(pids: Pids, procs: seq<Proc>, fate: Proc -> Fate)
    requires LaunchAll(pids, procs, fate).ok && OneEtcd(procs)
    ensures var m := LaunchAll(pids, procs, fate).pids;
            && (forall p | p in procs :: fate(p).Runs? && NameOf(p) in m && m[NameOf(p)] == Some(Itoa(fate(p).pid)))
            && (forall n | n in m && !(exists p :: p in procs && NameOf(p) == n) :: n in pids && m[n] == pids[n])
  {
    var m := LaunchAll(pids, procs, fate).pids;
    forall p | p in procs ensures fate(p).Runs? && NameOf(p) in m && m[NameOf(p)] == Some(Itoa(fate(p).pid)) {
      OwnPid(pids, procs, fate, p);
    }
    forall n | n in m && !(exists p :: p in procs && NameOf(p) == n) ensures n in pids && m[n] == pids[n] {
      assert forall p | p in procs :: NameOf(p) != n;
      OtherPids(pids, procs, fate, n);
    }
  }

  lemma {:induction false} AllRun(pids: Pids, procs: seq<Proc>, fate: Proc -> Fate)
    ensures LaunchAll(pids, procs, fate).ok <==> forall p | p in procs :: fate(p).Runs?
    decreases |procs|
  {
    if procs != [] {
      AllRun(AfterLaunch(pids, NameOf(procs[0]), fate(procs[0])), procs[1..], fate);
      assert procs == [procs[0]] + procs[1..];
    }
  }

  /** What the stages of `Create` come to. */
  lemma StagedMeans(c: Config, pids: Pids, fate: Proc -> Fate, checks: Checks)
    ensures var r := Staged(c, pids, fate, checks);
            && (r.ok <==> checks.All() && forall p | p in Plan(c) :: fate(p).Runs?)
            && (r.ok ==> forall p | p in Plan(c) :: NameOf(p) in r.pids && r.pids[NameOf(p)] == Some(Itoa(fate(p).pid)))
  {
    hide LaunchAll, Plan, NameOf, Staged;
    CreateLaunchesPlan(c, pids, fate, checks);
    AllRun(pids, Plan(c), fate);
    if Staged(c, pids, fate, checks).ok {
      PlanOneEtcd(c);
      LaunchedPids(pids, Plan(c), fate);
    }
  }

  lemma PlanOneEtcd(c: Config)
    ensures OneEtcd(Plan(c))
  {
    ThroughOneEtcd(c, Frontend);
  }

  // ---- Reading back ----

  /** What the walk collects from directories listed in this order: it ends at the first one without a pid file. */
  function Collected(listing: seq<string>, pids: Pids): map<string, string>
    requires forall n | n in listing :: n in pids
  {
    if listing == [] then map[]
    else
      var last := |listing| - 1;
      var n := listing[last];
      var sofar := Collected(listing[..last], pids);
      if n == PIDS_DIR || !Readable(listing[..last], pids) || pids[n] == None then sofar else sofar[n := pids[n].value]
  }

  /** Every directory in the list that the walk reads has a pid file. */
  predicate Readable(listing: seq<string>, pids: Pids)
    requires forall n | n in listing :: n in pids
  {
    forall n | n in listing && n != PIDS_DIR :: pids[n].Some?
  }

  /** `listing`: the directory entries in the order `filepath.WalkDir` visits them. */
  method CollectPids(host: Host, listing: seq<string>) returns (ret: map<string, string>)
    requires forall n | n in listing :: n in host.pids
    ensures ret == Collected(listing, host.pids)
  {
    ret := map[];
    for i := 0 to |listing|
      invariant ret == Collected(listing[..i], host.pids)
      invariant Readable(listing[..i], host.pids)
    {
      var n := listing[i];
      CollectedSnoc(listing, i, host.pids);
      if n != PIDS_DIR {
        if host.pids[n] == None {
          CollectedStops(listing, i + 1, host.pids);
          return;
        }
        ret := ret[n := host.pids[n].value];
      }
    }
    assert listing[..|listing|] == listing;
  }

  lemma CollectedSnoc(listing: seq<string>, i: nat, pids: Pids)
    requires i < |listing| && forall n | n in listing :: n in pids
    ensures forall n | n in listing[..i + 1] :: n in pids
    ensures Collected(listing[..i + 1], pids)
         == if listing[i] == PIDS_DIR || !Readable(listing[..i], pids) || pids[listing[i]] == None then Collected(listing[..i], pids)
            else Collected(listing[..i], pids)[listing[i] := pids[listing[i]].value]
  {
    assert listing[..i + 1][..i] == listing[..i];
  }

  lemma {:induction false} CollectedStops(listing: seq<string>, i: nat, pids: Pids)
    requires i <= |listing| && forall n | n in listing :: n in pids
    requires !Readable(listing[..i], pids)
    ensures Collected(listing, pids) == Collected(listing[..i], pids)
    decreases |listing|
  {
    if i == |listing| {
      assert listing[..i] == listing;
    } else {
      var last := |listing| - 1;
      assert listing[..last][..i] == listing[..i];
      assert forall n | n in listing[..i] :: n in listing[..last];
      CollectedStops(listing[..last], i, pids);
    }
  }

  /** The pid shown for a name: present exactly when every directory up to its own has a pid file. */
  lemma {:induction false} CollectedExactly(listing: seq<string>, pids: Pids, i: nat)
    requires forall n | n in listing :: n in pids
    requires forall j, k | 0 <= j < k < |listing| :: listing[j] != listing[k]
    requires i < |listing| && listing[i] != PIDS_DIR
    ensures listing[i] in Collected(listing, pids) <==> Readable(listing[..i + 1], pids)
    ensures listing[i] in Collected(listing, pids) ==> pids[listing[i]] == Some(Collected(listing, pids)[listing[i]])
    decreases |listing|
  {
    var last := |listing| - 1;
    assert listing[..|listing|] == listing;
    CollectedSnoc(listing, last, pids);
    if i < last {
      assert listing[..last][..i + 1] == listing[..i + 1];
      CollectedExactly(listing[..last], pids, i);
    } else {
      CollectedKeys(listing[..last], pids);
      assert listing[..last + 1] == listing[..last] + [listing[last]];
    }
  }

  lemma {:induction false} CollectedKeys(listing: seq<string>, pids: Pids)
    requires forall n | n in listing :: n in pids
    ensures forall n | n in Collected(listing, pids) :: n in listing
    decreases |listing|
  {
    if listing != [] {
      CollectedKeys(listing[..|listing| - 1], pids);
    }
  }

  // ---- What `cluster get` shows ----

  const NOT_AVAILABLE := "N/A"

  /** The name `cluster get` uses for metasrv rows; the directories are called `metasrv.i`. */
  const META_KIND := "meta"

  function Cell(found: map<string, string>, name: string, i: nat): string {
    var key := ReplicaName(name, i);
    if key in found then ['.'] + Itoa(i) + ": " + found[key] else NOT_AVAILABLE
  }

  method Rows(found: map<string, string>, name: string, replicas: nat) returns (bulk: seq<seq<string>>)
    ensures |bulk| == replicas && forall i | 0 <= i < replicas :: bulk[i] == [name, Cell(found, name, i)]
  {
    bulk := [];
    for i := 0 to replicas
      invariant |bulk| == i && forall j | 0 <= j < i :: bulk[j] == [name, Cell(found, name, j)]
    {
      var key := ReplicaName(name, i);
      var pid := NOT_AVAILABLE;
      if key in found {
        pid := ['.'] + Itoa(i) + ": " + found[key];
      }
      bulk := bulk + [[name, pid]];
    }
  }

  lemma {:induction false} ThroughOneEtcd(c: Config, k: Kind)
    ensures OneEtcd(Through(c, k))
    decreases LifecycleDrain.StageOf(k)
  {
    if k != Etcd {
      ThroughOneEtcd(c, if k == MetaSrv then Etcd else if k == Datanode then MetaSrv else Datanode);
    }
  }

  ghost predicate Lists(listing: seq<string>, pids: Pids) {
    && (forall n :: n in listing <==> n in pids)
    && (forall j, k | 0 <= j < k < |listing| :: listing[j] != listing[k])
  }

  lemma NeverPidsDir(p: Proc)
    ensures NameOf(p) != PIDS_DIR
  {
    assert '.' !in PIDS_DIR;
    if p.kind == Etcd {
      assert ComponentName(Etcd)[0] == 'e' && PIDS_DIR[0] == 'p';
    } else {
      NoDotNoReplica(PIDS_DIR, ComponentName(p.kind), p.index);
    }
  }

  /** `n` was there before and belongs to no process of the plan. */
  ghost predicate LeftFromBefore(c: Config, n: string) {
    forall p | p in Plan(c) :: NameOf(p) != n
  }

  /**
   On a directory that has been used before, a launched process is found exactly when every older entry
   listed before it has a pid file; what is found is its new pid.
   */
  lemma ReadBackFrom(c: Config, pids: Pids, fate: Proc -> Fate, listing: seq<string>, i: nat, p: Proc)
    requires LaunchAll(pids, Plan(c), fate).ok && Lists(listing, LaunchAll(pids, Plan(c), fate).pids)
    requires i < |listing| && p in Plan(c) && listing[i] == NameOf(p)
    ensures var found := Collected(listing, LaunchAll(pids, Plan(c), fate).pids);
            && (NameOf(p) in found <==>
                  forall j | 0 <= j < i && listing[j] != PIDS_DIR && LeftFromBefore(c, listing[j]) ::
                    listing[j] in pids && pids[listing[j]].Some?)
            && (NameOf(p) in found ==> fate(p).Runs? && found[NameOf(p)] == Itoa(fate(p).pid))
  {
    var m := LaunchAll(pids, Plan(c), fate).pids;
    ThroughOneEtcd(c, Frontend);
    LaunchedPids(pids, Plan(c), fate);
    NeverPidsDir(p);
    CollectedExactly(listing, m, i);
    forall j | 0 <= j < i && listing[j] != PIDS_DIR
      ensures m[listing[j]].Some? <==> !LeftFromBefore(c, listing[j]) || (listing[j] in pids && pids[listing[j]].Some?)
    {
      assert listing[j] in m;
    }
    ReadableUpTo(listing, m, i);
  }

  lemma ReadableUpTo(listing: seq<string>, pids: Pids, i: nat)
    requires i < |listing| && (forall n | n in listing :: n in pids) && pids[listing[i]].Some?
    ensures Readable(listing[..i + 1], pids) <==> forall j | 0 <= j < i && listing[j] != PIDS_DIR :: pids[listing[j]].Some?
  {
    var upTo := listing[..i + 1];
    if forall j | 0 <= j < i && listing[j] != PIDS_DIR :: pids[listing[j]].Some? {
      forall n | n in upTo && n != PIDS_DIR ensures pids[n].Some? {
        var j :| 0 <= j < |upTo| && upTo[j] == n;
        assert listing[j] == n;
      }
    }
    if Readable(upTo, pids) {
      forall j | 0 <= j < i && listing[j] != PIDS_DIR ensures pids[listing[j]].Some? {
        assert upTo[j] == listing[j] && upTo[j] in upTo;
      }
    }
  }

  /** `found` maps the name of every launched process to its pid, and nothing else. */
  ghost predicate Faithful(c: Config, fate: Proc -> Fate, found: map<string, string>) {
    && (forall p | p in Plan(c) :: fate(p).Runs? && NameOf(p) in found && found[NameOf(p)] == Itoa(fate(p).pid))
    && (forall n | n in found :: exists p :: p in Plan(c) && NameOf(p) == n)
  }

  /**
   After a nil `Create` on a fresh directory the walk finds exactly the launched processes, each with
   the pid it was started with, in whatever order the entries are listed.
   */
  lemma ReadBack(c: Config, fate: Proc -> Fate, listing: seq<string>)
    requires LaunchAll(map[], Plan(c), fate).ok && Lists(listing, LaunchAll(map[], Plan(c), fate).pids)
    ensures Faithful(c, fate, Collected(listing, LaunchAll(map[], Plan(c), fate).pids))
  {
    var pids := LaunchAll(map[], Plan(c), fate).pids;
    ThroughOneEtcd(c, Frontend);
    LaunchedPids(map[], Plan(c), fate);
    CollectedKeys(listing, pids);
    assert forall n | n in pids :: pids[n].Some?;
    forall p | p in Plan(c)
      ensures fate(p).Runs? && NameOf(p) in Collected(listing, pids) && Collected(listing, pids)[NameOf(p)] == Itoa(fate(p).pid)
    {
      assert NameOf(p) in pids && NameOf(p) in listing;
      var i :| 0 <= i < |listing| && listing[i] == NameOf(p);
      NeverPidsDir(p);
      CollectedExactly(listing, pids, i);
    }
  }

  lemma Planned(c: Config, k: Kind, i: nat)
    requires i < c.Replicas(k)
    ensures Proc(k, i) in Plan(c)
  {
    assert Reps(k, c.Replicas(k))[i] == Proc(k, i);
    assert Proc(k, i) in Through(c, k);
  }

  /** Frontend, datanode and etcd rows show the right pid; metasrv rows never show one. */
  lemma ShownPids(c: Config, fate: Proc -> Fate, found: map<string, string>, k: Kind, i: nat)
    requires Faithful(c, fate, found) && i < c.Replicas(k)
    ensures var p := Proc(k, i);
            && fate(p).Runs?
            && (k == Frontend || k == Datanode ==> Cell(found, ComponentName(k), i) == ['.'] + Itoa(i) + ": " + Itoa(fate(p).pid))
            && (k == Etcd ==> ComponentName(k) in found && found[ComponentName(k)] == Itoa(fate(p).pid))
            && (k == MetaSrv ==> Cell(found, META_KIND, i) == NOT_AVAILABLE)
  {
    Planned(c, k, i);
    if k == MetaSrv && ReplicaName(META_KIND, i) in found {
      var p :| p in Plan(c) && NameOf(p) == ReplicaName(META_KIND, i);
      MetaNotLaunched(p, i);
    }
  }

  lemma MetaNotLaunched(p: Proc, i: nat)
    ensures NameOf(p) != ReplicaName(META_KIND, i)
  {
    assert '.' !in META_KIND && |META_KIND| == 4 && META_KIND[0] == 'm';
    assert ComponentName(Datanode)[0] == 'd' && ComponentName(Frontend)[0] == 'f' && |ComponentName(MetaSrv)| == 7;
    ComponentNames(p.kind, p.kind);
    if p.kind == Etcd {
      NoDotNoReplica(ComponentName(Etcd), META_KIND, i);
    } else if NameOf(p) == ReplicaName(META_KIND, i) {
      ReplicaNamesDiffer(ComponentName(p.kind), p.index, META_KIND, i);
    }
  }
}
