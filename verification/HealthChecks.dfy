/**
 The two health checks as loops: the probes of etcd (pkg/cluster/baremetal/create.go) and one pass over
 the replicas of a component (pkg/components/metasrv.go, datanode.go). What they return is stated outright,
 and the step machine of `Lifecycle`, which takes them apart into single steps, arrives where they say.
 */
module HealthChecks {
  import opened Text
  import opened Lifecycle

  /** What one run of etcdctl answers. */
  datatype Answer = Leader | NoLeaderYet | Fails

  /** Some probe finds a leader before the retries are used up, and none before it fails. */
  ghost predicate LeaderInTime(answers: nat -> Answer, n: nat) {
    n < MAX_PROBES && answers(n) == Leader && forall m: nat | m < n :: answers(m) == NoLeaderYet
  }

  /** `etcdctl`: whether the tool was found next to etcd, or the error of looking for it. */
  method CheckEtcdHealth(etcdctl: Result<bool>, answers: nat -> Answer) returns (ok: bool, ghost probes: nat)
    ensures ok <==> etcdctl == Ok(false) || (etcdctl == Ok(true) && exists n :: LeaderInTime(answers, n))
    ensures probes <= MAX_PROBES
  {
    probes := 0;
    if etcdctl.Err? {
      return false, 0;
    }
    if !etcdctl.value {
      return true, 0;
    }
    for retry := 0 to MAX_PROBES
      invariant probes == retry
      invariant forall m: nat | m < retry :: answers(m) == NoLeaderYet
    {
      probes := retry + 1;
      if answers(retry) == Fails {
        return false, probes;
      }
      if answers(retry) == Leader {
        assert LeaderInTime(answers, retry);
        return true, probes;
      }
    }
    return false, probes;
  }

  /** One pass: stops at the first replica that does not answer well. */
  method IsRunning(replicas: nat, healthy: nat -> bool) returns (ok: bool)
    ensures ok <==> forall i: nat | i < replicas :: healthy(i)
  {
    for i := 0 to replicas
      invariant forall j: nat | j < i :: healthy(j)
    {
      if !healthy(i) {
        return false;
      }
    }
    return true;
  }

  // ---- The step machine takes the same decisions ----

  /** The machine's steps for the probes from `retry` on. */
  function ProbeSteps(answers: nat -> Answer, retry: nat): (acts: seq<Action>)
    decreases MAX_PROBES - retry
  {
    if retry >= MAX_PROBES then [ProbesSpent]
    else match answers(retry)
      case Fails => [ProbeError]
      case Leader => [ProbeAnswer(true)]
      case NoLeaderYet => [ProbeAnswer(false)] + ProbeSteps(answers, retry + 1)
  }

  lemma {:induction false} ProbesAgreeFrom(c: Config, s: State, answers: nat -> Answer, retry: nat)
    requires s.phase == Probe(retry) && retry <= MAX_PROBES && forall m: nat | m < retry :: answers(m) == NoLeaderYet
    ensures var t := Exec(c, s, ProbeSteps(answers, retry));
            && t.Some? && t.value.phase == (if exists n :: LeaderInTime(answers, n) then AcquireGreptime else Failed)
            && t.value.procs == s.procs
    decreases MAX_PROBES - retry
  {
    var acts := ProbeSteps(answers, retry);
    if retry < MAX_PROBES && answers(retry) == NoLeaderYet {
      assert acts[1..] == ProbeSteps(answers, retry + 1);
      ProbesAgreeFrom(c, Do(c, s, acts[0]), answers, retry + 1);
    } else {
      assert acts[1..] == [] && Exec(c, s, acts) == Some(Do(c, s, acts[0]));
      if retry < MAX_PROBES && answers(retry) == Leader {
        assert LeaderInTime(answers, retry);
      }
    }
  }

  /** From the first probe the machine goes on to the cluster exactly when `CheckEtcdHealth` would return nil. */
  lemma ProbesAgree(c: Config, s: State, answers: nat -> Answer)
    requires s.phase == Probe(0)
    ensures var t := Exec(c, s, ProbeSteps(answers, 0));
            t.Some? && t.value.phase == if exists n :: LeaderInTime(answers, n) then AcquireGreptime else Failed
  {
    ProbesAgreeFrom(c, s, answers, 0);
  }

  /** The machine's steps for the rest of a pass. */
  function PassSteps(healthy: nat -> bool, i: nat, replicas: nat): seq<Action>
    decreases replicas - i
  {
    if i >= replicas then [PassDone]
    else if healthy(i) then [Poll(true)] + PassSteps(healthy, i + 1, replicas)
    else [Poll(false)]
  }

  /** A pass ends the stage exactly when `IsRunning` would be true, and goes back to waiting for a tick otherwise. */
  lemma {:induction false} PassAgrees(c: Config, s: State, healthy: nat -> bool, i: nat)
    requires s.phase.Polling? && s.phase.index == i <= c.Replicas(s.phase.kind) && forall j: nat | j < i :: healthy(j)
    ensures var k := s.phase.kind;
            var t := Exec(c, s, PassSteps(healthy, i, c.Replicas(k)));
            && t.Some? && t.value.procs == s.procs && t.value.ctxDone == s.ctxDone
            && t.value.phase == if forall j: nat | j < c.Replicas(k) :: healthy(j) then AfterPass(k) else Idle(k)
    decreases c.Replicas(s.phase.kind) - i
  {
    var n := c.Replicas(s.phase.kind);
    var acts := PassSteps(healthy, i, n);
    LastStep(c, s, acts[0]);
    if i < n && healthy(i) {
      assert acts[1..] == PassSteps(healthy, i + 1, n);
      PollStep(c, s, true);
      hide Enabled, Do;
      PassAgrees(c, Do(c, s, acts[0]), healthy, i + 1);
    } else {
      assert acts == [acts[0]];
      if i < n {
        PollStep(c, s, false);
      }
    }
  }

  lemma LastStep(c: Config, s: State, a: Action)
    ensures Exec(c, s, [a]) == if Enabled(c, s, a) then Some(Do(c, s, a)) else None
  {
    hide Enabled, Do;
    assert [a][1..] == [];
  }

  lemma PollStep(c: Config, s: State, healthy: bool)
    requires s.phase.Polling? && s.phase.index < c.Replicas(s.phase.kind)
    ensures Enabled(c, s, Poll(healthy))
    ensures var t := Do(c, s, Poll(healthy));
            && t.procs == s.procs && t.ctxDone == s.ctxDone
            && t.phase == if healthy then Polling(s.phase.kind, s.phase.index + 1) else Idle(s.phase.kind)
  {
  }

  // ---- The checker's select loop ----

  /** What one turn of the select takes: a tick, with the replicas' health then, or the end of the context. */
  datatype Choice = OnTick(healthy: nat -> bool) | OnDone

  ghost predicate AllHealthy(replicas: nat, healthy: nat -> bool) {
    forall i: nat | i < replicas :: healthy(i)
  }

  /** The first `n` turns were ticks on which some replica was not healthy. */
  ghost predicate StillWaiting(replicas: nat, choices: seq<Choice>, n: nat) {
    n <= |choices| && forall m | 0 <= m < n :: choices[m].OnTick? && !AllHealthy(replicas, choices[m].healthy)
  }

  ghost predicate PassesAt(replicas: nat, choices: seq<Choice>, n: nat) {
    n < |choices| && StillWaiting(replicas, choices, n) && choices[n].OnTick? && AllHealthy(replicas, choices[n].healthy)
  }

  ghost predicate CancelledAt(replicas: nat, choices: seq<Choice>, n: nat) {
    n < |choices| && StillWaiting(replicas, choices, n) && choices[n].OnDone?
  }

  datatype Verdict = Passed | StatusCheckFailed | Undecided

  /** Passed exactly if a healthy pass comes before any cancellation, failed exactly if a cancellation comes first. */
  method CheckStatus(replicas: nat, choices: seq<Choice>) returns (v: Verdict)
    ensures v == Passed <==> exists n :: PassesAt(replicas, choices, n)
    ensures v == StatusCheckFailed <==> exists n :: CancelledAt(replicas, choices, n)
    ensures v == Undecided <==> StillWaiting(replicas, choices, |choices|)
  {
    for n := 0 to |choices|
      invariant StillWaiting(replicas, choices, n)
    {
      if choices[n].OnDone? {
        assert CancelledAt(replicas, choices, n);
        return StatusCheckFailed;
      }
      var running := IsRunning(replicas, choices[n].healthy);
      if running {
        assert PassesAt(replicas, choices, n);
        return Passed;
      }
    }
    return Undecided;
  }

  /** The machine's steps for the same turns. */
  ghost function CheckSteps(choices: seq<Choice>, replicas: nat): seq<Action> {
    if choices == [] then []
    else match choices[0]
      case OnDone => [CheckerCancelled]
      case OnTick(healthy) =>
        [Tick] + PassSteps(healthy, 0, replicas) + if AllHealthy(replicas, healthy) then [] else CheckSteps(choices[1..], replicas)
  }

  lemma {:induction false} RunConcat(c: Config, s: State, xs: seq<Action>, ys: seq<Action>)
    requires Exec(c, s, xs).Some?
    ensures Exec(c, s, xs + ys) == Exec(c, Exec(c, s, xs).value, ys)
    decreases |xs|
  {
    hide Enabled, Do;
    if xs == [] {
      assert xs + ys == ys;
    } else {
      assert (xs + ys)[0] == xs[0] && (xs + ys)[1..] == xs[1..] + ys;
      RunConcat(c, Do(c, s, xs[0]), xs[1..], ys);
    }
  }

  /** One tick and its pass. */
  lemma TickAgrees(c: Config, s: State, healthy: nat -> bool)
    requires s.phase.Idle?
    ensures var k := s.phase.kind;
            var t := Exec(c, s, [Tick] + PassSteps(healthy, 0, c.Replicas(k)));
            && t.Some? && t.value.procs == s.procs && t.value.ctxDone == s.ctxDone
            && t.value.phase == if AllHealthy(c.Replicas(k), healthy) then AfterPass(k) else Idle(k)
  {
    var n := c.Replicas(s.phase.kind);
    var acts := [Tick] + PassSteps(healthy, 0, n);
    assert acts[0] == Tick && acts[1..] == PassSteps(healthy, 0, n);
    PassAgrees(c, Do(c, s, Tick), healthy, 0);
  }

  lemma Shift(replicas: nat, choices: seq<Choice>, n: nat)
    requires StillWaiting(replicas, choices, 1)
    ensures StillWaiting(replicas, choices, n + 1) <==> StillWaiting(replicas, choices[1..], n)
    ensures PassesAt(replicas, choices, n + 1) <==> PassesAt(replicas, choices[1..], n)
    ensures CancelledAt(replicas, choices, n + 1) <==> CancelledAt(replicas, choices[1..], n)
  {
    assert forall m: nat | m < n && m < |choices| - 1 :: choices[m + 1] == choices[1..][m];
    if StillWaiting(replicas, choices[1..], n) {
      forall m | 0 <= m < n + 1 ensures choices[m].OnTick? && !AllHealthy(replicas, choices[m].healthy) {
        assert m > 0 ==> choices[m] == choices[1..][m - 1];
      }
    }
  }

  ghost function VerdictOf(replicas: nat, choices: seq<Choice>): Verdict {
    if exists n :: PassesAt(replicas, choices, n) then Passed
    else if exists n :: CancelledAt(replicas, choices, n) then StatusCheckFailed
    else Undecided
  }

  lemma VerdictFirst(replicas: nat, choices: seq<Choice>)
    requires choices != []
    ensures choices[0].OnDone? ==> VerdictOf(replicas, choices) == StatusCheckFailed
    ensures choices[0].OnTick? && AllHealthy(replicas, choices[0].healthy) ==> VerdictOf(replicas, choices) == Passed
    ensures StillWaiting(replicas, choices, 1) ==> VerdictOf(replicas, choices) == VerdictOf(replicas, choices[1..])
  {
    hide AllHealthy;
    if choices[0].OnDone? {
      assert CancelledAt(replicas, choices, 0);
    } else if AllHealthy(replicas, choices[0].healthy) {
      assert PassesAt(replicas, choices, 0);
    } else {
      VerdictTail(replicas, choices);
    }
  }

  lemma VerdictTail(replicas: nat, choices: seq<Choice>)
    requires choices != [] && StillWaiting(replicas, choices, 1)
    ensures VerdictOf(replicas, choices) == VerdictOf(replicas, choices[1..])
  {
    forall n: nat {
      Shift(replicas, choices, n);
    }
    hide StillWaiting;
    NotFirst(replicas, choices);
    if n: nat :| PassesAt(replicas, choices, n) {
      assert PassesAt(replicas, choices[1..], n - 1);
    }
    if n: nat :| CancelledAt(replicas, choices, n) {
      assert CancelledAt(replicas, choices[1..], n - 1);
    }
    if n: nat :| PassesAt(replicas, choices[1..], n) {
      assert PassesAt(replicas, choices, n + 1);
    }
    if n: nat :| CancelledAt(replicas, choices[1..], n) {
      assert CancelledAt(replicas, choices, n + 1);
    }
  }

  lemma NotFirst(replicas: nat, choices: seq<Choice>)
    requires StillWaiting(replicas, choices, 1)
    ensures !PassesAt(replicas, choices, 0) && !CancelledAt(replicas, choices, 0)
  {
  }

  function PhaseOf(v: Verdict, k: Kind): Phase {
    match v
    case Passed => AfterPass(k)
    case StatusCheckFailed => Failed
    case Undecided => Idle(k)
  }

  /**
   For any turns of the select, cancellations among them only if the context is done: the machine's steps go on to the
   next stage, fail or stay as `CheckStatus` says, and leave every process as it was.
   */
  lemma {:induction false} ChecksAgree(c: Config, s: State, choices: seq<Choice>)
    requires s.phase.Idle? && (s.ctxDone || forall x | x in choices :: x.OnTick?)
    ensures var t := Exec(c, s, CheckSteps(choices, c.Replicas(s.phase.kind)));
            && t.Some? && t.value.procs == s.procs && t.value.ctxDone == s.ctxDone
            && t.value.phase == PhaseOf(VerdictOf(c.Replicas(s.phase.kind), choices), s.phase.kind)
    decreases |choices|
  {
    var k := s.phase.kind;
    var n := c.Replicas(k);
    if choices == [] {
    } else if choices[0].OnDone? {
      VerdictFirst(n, choices);
      assert choices[0] in choices;
      CancelledStep(c, s);
    } else {
      var h, rest := choices[0].healthy, choices[1..];
      VerdictFirst(n, choices);
      TickAgrees(c, s, h);
      hide Enabled, Do, PassSteps, AllHealthy, VerdictOf;
      var first := [Tick] + PassSteps(h, 0, n);
      var t := Exec(c, s, first).value;
      if AllHealthy(n, h) {
        assert CheckSteps(choices, n) == first + [] == first;
      } else {
        assert forall x | x in rest :: x in choices;
        ChecksAgree(c, t, rest);
        RunConcat(c, s, first, CheckSteps(rest, n));
        assert CheckSteps(choices, n) == first + CheckSteps(rest, n);
      }
    }
  }

  lemma CancelledStep(c: Config, s: State)
    requires s.phase.Idle? && s.ctxDone
    ensures Exec(c, s, [CheckerCancelled]) == Some(s.(phase := Failed))
  {
    assert [CheckerCancelled][1..] == [];
  }

  /** A waiting checker can fail exactly when the context is done; it then fails in one step and leaves all else as it is. */
  lemma CancelledExactly(c: Config, s: State)
    requires s.phase.Idle?
    ensures (exists a :: Enabled(c, s, a) && Do(c, s, a).phase == Failed) <==> s.ctxDone
    ensures s.ctxDone ==> Exec(c, s, [CheckerCancelled]) == Some(s.(phase := Failed))
  {
    if s.ctxDone {
      CancelledStep(c, s);
      assert Enabled(c, s, CheckerCancelled) && Do(c, s, CheckerCancelled).phase == Failed;
    }
  }
}
