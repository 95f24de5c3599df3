/**
 Why the drain theorem needs its hypothesis: `wg.Add(1)` runs inside the waiter goroutine, so for
 every configuration there is a run in which `wg.Wait` sees zero before any waiter has started and
 `Wait` returns while the whole cluster is still running.
 */
module LifecycleEarlyReturn {
  import opened Text
  import opened Lifecycle
  import opened LifecycleSafety
  import opened LifecycleDrain

  /** Every process runs and no waiter goroutine has been scheduled yet. */
  ghost predicate Quiet(s: State) {
    && !s.ctxDone && s.wg == 0
    && forall p | p in s.procs :: s.procs[p] == ProcState(Running, Spawned)
  }

  lemma {:induction false} ExecConcat(c: Config, s: State, xs: seq<Action>, ys: seq<Action>)
    requires Exec(c, s, xs).Some?
    ensures Exec(c, s, xs + ys) == Exec(c, Exec(c, s, xs).value, ys)
    decreases |xs|
  {
    if xs == [] {
      assert xs + ys == ys;
    } else {
      assert (xs + ys)[1..] == xs[1..] + ys;
      ExecConcat(c, Do(c, s, xs[0]), xs[1..], ys);
    }
  }

  /** A run with one more action at its end. */
  lemma Extend(c: Config, s: State, acts: seq<Action>, t: State, a: Action)
    returns (more: seq<Action>, u: State)
    requires Exec(c, s, acts) == Some(t) && Enabled(c, t, a)
    ensures u == Do(c, t, a) && Exec(c, s, more) == Some(u)
  {
    u := Do(c, t, a);
    more := acts + [a];
    ExecConcat(c, s, acts, [a]);
    assert [a][1..] == [] && Exec(c, t, [a]) == Exec(c, u, []);
  }

  lemma LaunchRemaining(c: Config, s: State, acts: seq<Action>, t: State) returns (more: seq<Action>, u: State)
    requires Exec(c, s, acts) == Some(t) && t.phase.Launch? && t.phase.index <= c.Replicas(t.phase.kind) && Quiet(t)
    ensures Exec(c, s, more) == Some(u) && u.phase == AfterLaunches(t.phase.kind) && Quiet(u)
    decreases c.Replicas(t.phase.kind) - t.phase.index
  {
    if t.phase.index == c.Replicas(t.phase.kind) {
      more, u := Extend(c, s, acts, t, LaunchesDone);
    } else {
      more, u := Extend(c, s, acts, t, LaunchOk);
      more, u := LaunchRemaining(c, s, more, u);
    }
  }

  lemma PollRemaining(c: Config, s: State, acts: seq<Action>, t: State) returns (more: seq<Action>, u: State)
    requires Exec(c, s, acts) == Some(t) && t.phase.Polling? && t.phase.index <= c.Replicas(t.phase.kind) && Quiet(t)
    ensures Exec(c, s, more) == Some(u) && u.phase == AfterPass(t.phase.kind) && Quiet(u)
    decreases c.Replicas(t.phase.kind) - t.phase.index
  {
    if t.phase.index == c.Replicas(t.phase.kind) {
      more, u := Extend(c, s, acts, t, PassDone);
    } else {
      more, u := Extend(c, s, acts, t, Poll(true));
      more, u := PollRemaining(c, s, more, u);
    }
  }

  /** All replicas of a component launched and found healthy in one pass. */
  lemma QuietStage(c: Config, acts: seq<Action>, t: State) returns (more: seq<Action>, u: State)
    requires Exec(c, INIT, acts) == Some(t) && Quiet(t)
    requires t.phase == Launch(MetaSrv, 0) || t.phase == Launch(Datanode, 0)
    ensures Exec(c, INIT, more) == Some(u) && Quiet(u) && u.phase == AfterPass(t.phase.kind)
  {
    more, u := LaunchRemaining(c, INIT, acts, t);
    more, u := Extend(c, INIT, more, u, Tick);
    more, u := PollRemaining(c, INIT, more, u);
  }

  lemma QuietEtcd(c: Config) returns (acts: seq<Action>, s: State)
    ensures Exec(c, INIT, acts) == Some(s) && Quiet(s) && s.phase == Launch(MetaSrv, 0)
  {
    acts, s := Extend(c, INIT, [], INIT, Acquire(LocalOrCached));
    acts, s := LaunchRemaining(c, INIT, acts, s);
    acts, s := Extend(c, INIT, acts, s, ProbeSkip);
    acts, s := Extend(c, INIT, acts, s, Acquire(LocalOrCached));
  }

  lemma QuietCreate(c: Config) returns (acts: seq<Action>, s: State)
    ensures Exec(c, INIT, acts) == Some(s) && s.phase == Created && Quiet(s)
  {
    acts, s := QuietEtcd(c);
    acts, s := QuietStage(c, acts, s);
    acts, s := QuietStage(c, acts, s);
    acts, s := LaunchRemaining(c, INIT, acts, s);
  }

  /** With the counter at zero `Wait` can return, whatever the waiters have come to. */
  lemma WaitOver(c: Config, acts: seq<Action>, s: State) returns (more: seq<Action>, t: State)
    requires Exec(c, INIT, acts) == Some(s) && s.phase == Created && s.wg == 0
    ensures Exec(c, INIT, more) == Some(t) && t.phase == Returned && t.procs == s.procs && t.late == Unadded(s.procs)
  {
    more, t := Extend(c, INIT, acts, s, BeginWait);
    more, t := Extend(c, INIT, more, t, WgZero);
    more, t := Extend(c, INIT, more, t, Signal);
    more, t := Extend(c, INIT, more, t, CtxSeen);
  }

  lemma EarlyReturn(c: Config)
    ensures exists s ::
              && Reachable(c, s) && s.phase == Returned && s.late != {}
              && forall p | p in Plan(c) :: p in s.procs && s.procs[p].status == Running
  {
    var acts, s := QuietCreate(c);
    var t;
    acts, t := WaitOver(c, acts, s);
    assert Reachable(c, t);
    hide Plan;
    CreatedExactly(c, t);
    assert forall p | p in Plan(c) :: p in t.procs.Keys;
    EtcdPlanned(c);
    assert Proc(Etcd, 0) in t.late;
  }

  lemma EtcdPlanned(c: Config)
    ensures Proc(Etcd, 0) in Plan(c)
  {
    assert Through(c, Etcd)[0] == Proc(Etcd, 0);
    assert Through(c, MetaSrv)[0] == Through(c, Datanode)[0] == Plan(c)[0] == Proc(Etcd, 0);
  }

  // ---- After a failed Create ----

  /** `Create` has failed, nothing has stopped the cluster, and the processes launched so far are running. */
  ghost predicate Abandoned(c: Config, s: State, launched: seq<Proc>) {
    && Reachable(c, s) && s.phase == Failed && !s.ctxDone
    && forall p | p in launched :: p in s.procs && s.procs[p].status == Running
  }

  lemma QuietLaunched(c: Config, acts: seq<Action>, s: State)
    requires Exec(c, INIT, acts) == Some(s) && Quiet(s)
    ensures forall p | p in Launches(s.log) :: p in s.procs && s.procs[p].status == Running
  {
    assert Reachable(c, s);
    Safety(c, s);
  }

  lemma FailsQuietly(c: Config, acts: seq<Action>, s: State, a: Action) returns (t: State)
    requires Exec(c, INIT, acts) == Some(s) && Quiet(s) && Enabled(c, s, a) && (a == LaunchFail(false) || a == Acquire(NotAcquired))
    ensures Abandoned(c, t, Launches(s.log))
  {
    var more;
    QuietLaunched(c, acts, s);
    more, t := Extend(c, INIT, acts, s, a);
    assert Reachable(c, t);
  }

  lemma QuietUpTo(c: Config, acts: seq<Action>, s: State)
    requires Exec(c, INIT, acts) == Some(s)
    ensures s.phase == AcquireGreptime ==> Launches(s.log) == Through(c, Etcd)
    ensures s.phase == Launch(Frontend, 0) ==> Launches(s.log) == Through(c, Datanode)
  {
    assert Reachable(c, s);
    Safety(c, s);
    assert Reps(Frontend, 0) == [];
  }

  /** In every configuration a `Create` can fail and leave etcd running. */
  lemma FailureLeavesEtcd(c: Config)
    ensures exists s :: Abandoned(c, s, Through(c, Etcd))
  {
    var acts, s := Extend(c, INIT, [], INIT, Acquire(LocalOrCached));
    acts, s := LaunchRemaining(c, INIT, acts, s);
    acts, s := Extend(c, INIT, acts, s, ProbeSkip);
    QuietUpTo(c, acts, s);
    var t := FailsQuietly(c, acts, s, Acquire(NotAcquired));
  }

  /** With a frontend to launch, it can fail and leave etcd, all metasrvs and all datanodes running. */
  lemma FailureLeavesCluster(c: Config)
    requires c.frontends > 0
    ensures exists s :: Abandoned(c, s, Through(c, Datanode))
  {
    var acts, s := QuietEtcd(c);
    acts, s := QuietStage(c, acts, s);
    acts, s := QuietStage(c, acts, s);
    QuietUpTo(c, acts, s);
    var t := FailsQuietly(c, acts, s, LaunchFail(false));
  }

  // ---- A run that ends well ----

  /** As in `Quiet`, except that the processes in `ended` have ended well and their waiters have finished. */
  ghost predicate QuietBut(s: State, ended: set<Proc>) {
    && !s.ctxDone && s.wg == 0 && s.phase == Created
    && forall p | p in s.procs :: s.procs[p] == if p in ended then ProcState(Exited(Zero), Finished(Success)) else ProcState(Running, Spawned)
  }

  lemma EndOne(c: Config, acts: seq<Action>, s: State, ended: set<Proc>, p: Proc) returns (more: seq<Action>, t: State)
    requires Exec(c, INIT, acts) == Some(s) && QuietBut(s, ended) && p in s.procs && p !in ended
    ensures Exec(c, INIT, more) == Some(t) && QuietBut(t, ended + {p}) && t.procs.Keys == s.procs.Keys
  {
    ProcessEnds(c, s, p, Zero, Success);
    more := acts + WholeEnd(p, Zero, Success);
    ExecConcat(c, INIT, acts, WholeEnd(p, Zero, Success));
    t := s.(procs := s.procs[p := ProcState(Exited(Zero), Finished(Success))]);
    hide WholeEnd, Exec;
  }

  lemma SameSet<T>(all: set<T>, some: set<T>)
    requires some <= all && forall x | x in all :: x in some
    ensures some == all
  {
  }

  lemma SomeMissing<T>(all: set<T>, some: set<T>)
    requires some <= all && some != all
    ensures exists x :: x in all && x !in some
  {
    if forall x | x in all :: x in some {
      SameSet(all, some);
    }
  }

  lemma EndAll(c: Config, acts: seq<Action>, s: State, ended: set<Proc>) returns (more: seq<Action>, t: State)
    requires Exec(c, INIT, acts) == Some(s) && QuietBut(s, ended) && ended <= s.procs.Keys
    ensures Exec(c, INIT, more) == Some(t) && QuietBut(t, s.procs.Keys) && t.procs.Keys == s.procs.Keys
    decreases s.procs.Keys - ended
  {
    hide Exec;
    if ended == s.procs.Keys {
      more, t := acts, s;
    } else {
      SomeMissing(s.procs.Keys, ended);
      var p :| p in s.procs.Keys && p !in ended;
      more, t := EndOne(c, acts, s, ended, p);
      more, t := EndAll(c, more, t, ended + {p});
    }
  }

  /** In every configuration the cluster can also be waited for as meant: no waiter late, every process ended. */
  lemma OrderlyReturn(c: Config)
    ensures exists s ::
              && Reachable(c, s) && s.phase == Returned && s.late == {}
              && forall p | p in Plan(c) :: p in s.procs && s.procs[p].status == Exited(Zero)
  {
    var acts, s := QuietCreate(c);
    var t;
    acts, s := EndAll(c, acts, s, {});
    acts, t := WaitOver(c, acts, s);
    assert Reachable(c, t);
    hide Plan;
    CreatedExactly(c, t);
    assert forall p | p in Plan(c) :: p in t.procs.Keys;
  }
}
