/**
 Exactly which writes of ASYNC_REPLICATION are safe. Any job can be run to its end by healthy steps, so
 one that is in flight when a write is applied can be run last, and undo what the write replicated.
 */
module AsyncDivergence {
  import opened Types
  import opened Sequences
  import Broadcast
  import BroadcastProgress
  import opened AsyncReplication
  import opened AsyncConvergence

  /** A background step in which no backend operation fails. */
  predicate IsHealthyStep(a: Action) {
    Healthy(a) && !IsClient(a)
  }

  ghost predicate HealthyRun(s: State, trace: seq<Action>) {
    Runs(s, trace) && forall a :: a in trace ==> IsHealthyStep(a)
  }

  predicate Applied(job: Job, b: nat) {
    job.Copying? && b < |job.run.tasks| && job.run.tasks[b].status.Stored?
  }

  /** From s to t only job i and the secondaries changed. */
  ghost predicate OnlyJob(s: State, t: State, i: nat)
    requires i < |s.jobs|
  {
    && t.primary == s.primary && t.log == s.log
    && |t.secondaries| == |s.secondaries|
    && |t.jobs| == |s.jobs|
    && t.jobs == s.jobs[i := t.jobs[i]]
  }

  ghost predicate Ends(s: State, t: State, i: nat)
    requires i < |s.jobs|
  {
    OnlyJob(s, t, i) && Done(t.jobs[i])
  }

  lemma Then(s: State, a: Action, rest: seq<Action>) returns (trace: seq<Action>)
    requires Enabled(s, a) && IsHealthyStep(a)
    requires HealthyRun(Next(s, a), rest)
    ensures HealthyRun(s, trace)
    ensures After(s, trace) == After(Next(s, a), rest)
  {
    trace := [a] + rest;
    assert trace[1..] == rest;
  }

  lemma Append(s: State, trace: seq<Action>, more: seq<Action>)
    requires HealthyRun(s, trace) && HealthyRun(After(s, trace), more)
    ensures HealthyRun(s, trace + more)
    ensures After(s, trace + more) == After(After(s, trace), more)
  {
    RunsAppend(s, trace, more);
  }

  lemma LiftStep(s: State, i: nat, act: Broadcast.Action)
    requires Inv(s) && i < |s.jobs| && s.jobs[i].Copying? && Broadcast.Enabled(s.jobs[i].run, act)
    ensures Enabled(s, Step(i, act)) && Inv(Next(s, Step(i, act))) && OnlyJob(s, Next(s, Step(i, act)), i)
    ensures var t, run := Next(s, Step(i, act)), s.jobs[i].run;
            && t.jobs[i] == Copying(s.jobs[i].version, Broadcast.Next(run, act))
            && (forall b :: 0 <= b < |s.secondaries| ==>
                  if act == Broadcast.Finish(b) then
                    Lookup(t.secondaries[b], s.log[i].key) == Some(Concat(run.source.chunks))
                  else t.secondaries[b] == s.secondaries[b])
  {
    assert JobInv(s, i);
    if act.Finish? {
      Broadcast.FinishKeepsTask(s.jobs[i].run, act.task);
    }
    NextInv(s, Step(i, act));
  }

  /** What a run of job i's broadcast from state s leaves in state t. */
  ghost predicate Lifted(s: State, t: State, i: nat)
    requires i < |s.jobs| == |s.log| && s.jobs[i].Copying?
  {
    var run := s.jobs[i].run;
    && OnlyJob(s, t, i) && t.jobs[i].Copying?
    && t.jobs[i].run.source == run.source && |t.jobs[i].run.tasks| == |run.tasks|
    && forall b :: 0 <= b < |s.secondaries| ==>
         if Broadcast.IsOpen(run, b) then
           Applied(t.jobs[i], b) ==> Lookup(t.secondaries[b], s.log[i].key) == Some(Concat(run.source.chunks))
         else
           Applied(t.jobs[i], b) == Applied(s.jobs[i], b) && t.secondaries[b] == s.secondaries[b]
  }

  lemma LiftedCompose(s: State, i: nat, act: Broadcast.Action, t: State)
    requires Inv(s) && i < |s.jobs| && |s.log| == |s.jobs| && s.jobs[i].Copying?
    requires Broadcast.Enabled(s.jobs[i].run, act) && Enabled(s, Step(i, act)) && !act.Abort?
    requires Next(s, Step(i, act)).jobs[i].Copying? && Lifted(Next(s, Step(i, act)), t, i)
    ensures Lifted(s, t, i)
  {
    LiftStep(s, i, act);
    var run := s.jobs[i].run;
    var m := Next(s, Step(i, act));
    assert JobInv(s, i);
    if act.Receive? {
      BroadcastProgress.ReceivedItem(run, act.task);
    }
    forall b | 0 <= b < |s.secondaries|
      ensures Broadcast.IsOpen(run, b) && Applied(t.jobs[i], b) ==>
                Lookup(t.secondaries[b], s.log[i].key) == Some(Concat(run.source.chunks))
      ensures !Broadcast.IsOpen(run, b) ==>
                Applied(t.jobs[i], b) == Applied(s.jobs[i], b) && t.secondaries[b] == s.secondaries[b]
    {
      if act == Broadcast.Finish(b) {
        assert !Broadcast.IsOpen(m.jobs[i].run, b);
      } else if act != Broadcast.Receive(b) {
        assert Broadcast.IsOpen(m.jobs[i].run, b) == Broadcast.IsOpen(run, b);
      }
    }
  }

  /** A run of a job's broadcast is a run of the system; a task that stores writes its secondary. */
  lemma {:induction false} LiftRun(s: State, i: nat, steps: seq<Broadcast.Action>) returns (trace: seq<Action>)
    requires Inv(s) && i < |s.jobs| && s.jobs[i].Copying?
    requires Broadcast.Runs(s.jobs[i].run, steps) && forall a :: a in steps ==> !a.Abort?
    ensures HealthyRun(s, trace) && Lifted(s, After(s, trace), i)
    ensures After(s, trace).jobs[i].run == Broadcast.After(s.jobs[i].run, steps)
    decreases |steps|
  {
    if steps == [] {
      trace := [];
    } else {
      var a := Step(i, steps[0]);
      LiftStep(s, i, steps[0]);
      assert forall x :: x in steps[1..] ==> x in steps;
      var rest := LiftRun(Next(s, a), i, steps[1..]);
      LiftedCompose(s, i, steps[0], After(Next(s, a), rest));
      trace := Then(s, a, rest);
    }
  }

  lemma CompleteCopying(s: State, i: nat) returns (trace: seq<Action>)
    requires Inv(s) && i < |s.jobs| && s.jobs[i].Copying?
    ensures HealthyRun(s, trace) && Ends(s, After(s, trace), i)
    ensures forall b :: 0 <= b < |s.secondaries| && StillDue(s, i, b) ==>
              Lookup(After(s, trace).secondaries[b], s.log[i].key)
              == Some(Concat(s.jobs[i].run.source.chunks))
  {
    var run := s.jobs[i].run;
    assert JobInv(s, i);
    var steps := BroadcastProgress.CanFinish(run);
    trace := LiftRun(s, i, steps);
    Broadcast.ReachableInv(run, steps);
    var end := Broadcast.After(run, steps);
    forall b | 0 <= b < |end.tasks| && StillDue(s, i, b) ensures end.tasks[b].status.Stored? {
      BroadcastProgress.CleanFinish(run, steps, b);
    }
  }

  lemma {:induction false} CompleteDeleting(s: State, i: nat) returns (trace: seq<Action>)
    requires Inv(s) && i < |s.jobs| && s.jobs[i].Deleting?
    ensures HealthyRun(s, trace) && Ends(s, After(s, trace), i)
    ensures forall b :: 0 <= b < |s.secondaries| ==>
              Lookup(After(s, trace).secondaries[b], s.log[i].key)
              == if b in s.jobs[i].waiting then None else Lookup(s.secondaries[b], s.log[i].key)
    decreases |s.jobs[i].waiting|
  {
    var waiting := s.jobs[i].waiting;
    if waiting == {} {
      trace := [];
    } else {
      var b :| b in waiting;
      assert JobInv(s, i);
      var a := DeleteAt(i, b, None);
      NextInv(s, a);
      var rest := CompleteDeleting(Next(s, a), i);
      trace := [a] + rest;
      assert trace[1..] == rest;
    }
  }

  lemma CompleteSpawned(s: State, i: nat) returns (trace: seq<Action>)
    requires Inv(s) && i < |s.jobs| && s.jobs[i].Spawned?
    ensures HealthyRun(s, trace) && Ends(s, After(s, trace), i)
  {
    var k := s.log[i].key;
    if k in s.primary {
      var source := Source([s.primary[k]], None);
      ConcatOne(s.primary[k]);
      ReplayLast(s.log, k);
      var a := Fetch(i, source);
      NextInv(s, a);
      var rest := CompleteCopying(Next(s, a), i);
      trace := Then(s, a, rest);
    } else {
      trace := Then(s, FetchMissing(i), []);
    }
  }

  lemma CompleteWritten(s: State, i: nat) returns (trace: seq<Action>)
    requires Inv(s) && i < |s.jobs| && s.jobs[i].Written?
    ensures HealthyRun(s, trace) && Ends(s, After(s, trace), i)
    ensures s.log[i].Delete? ==> forall b :: 0 <= b < |s.secondaries| ==>
              Lookup(After(s, trace).secondaries[b], s.log[i].key) == None
  {
    var a := Spawn(i);
    NextInv(s, a);
    var t := Next(s, a);
    var rest: seq<Action> := [];
    if t.jobs[i].Spawned? {
      rest := CompleteSpawned(t, i);
    } else if t.jobs[i].Deleting? {
      rest := CompleteDeleting(t, i);
      forall b | 0 <= b < |s.secondaries| ensures b in t.jobs[i].waiting {
        assert Range(|s.secondaries|)[b] == b;
      }
    }
    trace := Then(s, a, rest);
  }

  lemma CompleteJob(s: State, i: nat) returns (trace: seq<Action>)
    requires Inv(s) && i < |s.jobs|
    ensures HealthyRun(s, trace) && Ends(s, After(s, trace), i)
    ensures forall b :: 0 <= b < |s.secondaries| && StillDue(s, i, b) ==>
              Lookup(After(s, trace).secondaries[b], s.log[i].key) == Leaves(s.jobs[i])
  {
    match s.jobs[i]
    case Written => trace := CompleteWritten(s, i);
    case Spawned => trace := CompleteSpawned(s, i);
    case Copying(_, _) => trace := CompleteCopying(s, i);
    case Deleting(_, _) => trace := CompleteDeleting(s, i);
    case Ended => trace := [];
    case GaveUp => trace := [];
  }

  /** All jobs on the key from index i on, but for job j, run to their ends. */
  lemma {:induction false} CompleteOthers(s: State, k: string, j: nat, i: nat) returns (trace: seq<Action>)
    requires Inv(s) && i <= |s.jobs| && j < |s.jobs|
    ensures HealthyRun(s, trace)
    ensures var t := After(s, trace);
            && Inv(t)
            && t.primary == s.primary && t.log == s.log && |t.secondaries| == |s.secondaries|
            && t.jobs[j] == s.jobs[j]
            && (forall p :: 0 <= p < i ==> t.jobs[p] == s.jobs[p])
            && (forall p :: i <= p < |s.jobs| && p != j && s.log[p].key == k ==> Done(t.jobs[p]))
    decreases |s.jobs| - i
  {
    if i == |s.jobs| {
      trace := [];
    } else {
      var first: seq<Action> := [];
      if i != j && s.log[i].key == k {
        first := CompleteJob(s, i);
      }
      ReachableInv(s, first);
      var rest := CompleteOthers(After(s, first), k, j, i + 1);
      Append(s, first, rest);
      trace := first + rest;
    }
  }

  /** All jobs on the key end, job j the last of them. */
  lemma LastToEnd(s: State, k: string, j: nat, b: nat) returns (trace: seq<Action>)
    requires Inv(s) && j < |s.jobs| && s.log[j].key == k
    requires b < |s.secondaries| && StillDue(s, j, b)
    ensures HealthyRun(s, trace)
    ensures var t := After(s, trace);
            && Settled(t, k) && t.primary == s.primary && |t.secondaries| == |s.secondaries|
            && Lookup(t.secondaries[b], k) == Leaves(s.jobs[j])
  {
    var others := CompleteOthers(s, k, j, 0);
    var s' := After(s, others);
    var last := CompleteJob(s', j);
    Append(s, others, last);
    trace := others + last;
  }

  /**
   After any run: a write that leaves something else than a job in flight for its key can be followed by
   background steps alone, without a failure, until the jobs on the key are over and a secondary disagrees.
   */
  lemma UnsafeWriteCanDiverge(s: State, w: Action, j: nat, b: nat) returns (trace: seq<Action>)
    requires Inv(s) && Commits(w) && j < |s.jobs| && s.log[j].key == w.key
    requires b < |s.secondaries| && StillDue(s, j, b) && Leaves(s.jobs[j]) != EffectOf(w)
    ensures HealthyRun(Next(s, w), trace)
    ensures var t := After(Next(s, w), trace);
            Settled(t, w.key) && !AgreeOn(t, w.key)
  {
    NextInv(s, w);
    var s' := Next(s, w);
    assert s'.jobs[j] == s.jobs[j] && s'.log[j] == s.log[j];
    trace := LastToEnd(s', w.key, j, b);
    assert Lookup(After(s', trace).primary, w.key) == EffectOf(w);
  }

  // ---------------------------------------------------------------- exactly the safe writes

  ghost predicate EndsAgreeing(s: State, trace: seq<Action>, k: string) {
    Runs(s, trace) && (Settled(After(s, trace), k) ==> AgreeOn(After(s, trace), k))
  }

  /** However the key is carried on, the replicas agree on it once its jobs are over. */
  ghost predicate WriteIsSafe(s: State, w: Action)
    requires Commits(w)
  {
    forall trace :: Continues(Next(s, w), trace, w.key) ==> EndsAgreeing(Next(s, w), trace, w.key)
  }

  lemma {:induction false} HealthyContinues(s: State, trace: seq<Action>, k: string)
    requires Inv(s) && HealthyRun(s, trace)
    ensures Continues(s, trace, k)
    decreases |trace|
  {
    if trace != [] {
      assert trace[0] in trace && forall a :: a in trace[1..] ==> a in trace;
      NextInv(s, trace[0]);
      HealthyContinues(Next(s, trace[0]), trace[1..], k);
    }
  }

  /**
   Exactly when a write is safe: after any run whatever, it is safe if and only if everything in flight
   for its key leaves what it leaves.
   */
  lemma SafeWriteExactly(s: State, w: Action)
    requires Inv(s) && Commits(w)
    ensures WriteIsSafe(s, w) <==> AllLeave(s, w.key, EffectOf(w))
  {
    var s', k := Next(s, w), w.key;
    NextInv(s, w);
    if AllLeave(s, k, EffectOf(w)) {
      forall trace | Continues(s', trace, k) ensures EndsAgreeing(s', trace, k) {
        LastWriteDecides(s, w, trace);
      }
    } else {
      var j, b :| 0 <= j < |s.log| && s.log[j].key == k && 0 <= b < |s.secondaries| && StillDue(s, j, b)
                  && Leaves(s.jobs[j]) != EffectOf(w);
      var trace := UnsafeWriteCanDiverge(s, w, j, b);
      HealthyContinues(s', trace, k);
      assert !EndsAgreeing(s', trace, k);
    }
  }

  /**
   In every reachable state, whatever happened before on this key and on others, all puts and deletes of
   the key are safe if and only if nothing is in flight for it.
   */
  lemma SafeExactlyWhenNothingInFlight(n: nat, trace: seq<Action>, k: string)
    requires Runs(Init(n), trace)
    ensures var s := After(Init(n), trace);
            && |s.jobs| == |s.log|
            && (NoneInFlight(s, k) <==> forall w :: Commits(w) && w.key == k ==> WriteIsSafe(s, w))
  {
    ReachableInv(Init(n), trace);
    var s := After(Init(n), trace);
    if NoneInFlight(s, k) {
      forall w | Commits(w) && w.key == k ensures WriteIsSafe(s, w) {
        assert AllLeave(s, k, EffectOf(w));
        SafeWriteExactly(s, w);
      }
    } else {
      var j :| 0 <= j < |s.log| && s.log[j].key == k && InFlight(s, j);
      var b :| 0 <= b < |s.secondaries| && StillDue(s, j, b);
      var w := if Leaves(s.jobs[j]).None? then ClientPut(k, Source([], None), None) else ClientDelete(k, None);
      SafeWriteExactly(s, w);
      assert !WriteIsSafe(s, w);
    }
  }
}
