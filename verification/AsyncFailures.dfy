/**
 What ASYNC_REPLICATION leaves behind when background operations fail, which are logged and never tried
 again. A secondary holds what the last write to the key left if some task brought it there, which can
 also be the task of an earlier put that read the primary late; otherwise it holds what it held before.
 */
module AsyncFailures {
  import opened Types
  import opened Sequences
  import Broadcast
  import opened AsyncReplication
  import opened AsyncConvergence

  /** A job on the key has brought the write at index l to secondary b. */
  predicate Serves(s: State, j: nat, l: nat, b: nat)
    requires j < |s.jobs|
  {
    match s.jobs[j]
    case Copying(v, run) => v == l && b < |run.tasks| && run.tasks[b].status.Stored?
    case Deleting(waiting, failed) => j == l && b !in waiting && b !in failed
    case _ => false
  }

  ghost predicate Served(s: State, k: string, l: nat, b: nat)
    requires |s.jobs| == |s.log|
  {
    exists j :: 0 <= j < |s.log| && s.log[j].key == k && Serves(s, j, l, b)
  }

  /** What went wrong in a job for secondary b. */
  predicate FailedAt(job: Job, b: nat) {
    match job
    case Copying(_, run) => run.source.fault.Some? || (b < |run.tasks| && run.tasks[b].status.Failed?)
    case Deleting(_, failed) => b in failed
    case GaveUp => true
    case _ => false
  }

  /** A job in flight brings the last write. */
  predicate Brings(s: State, j: nat, l: nat)
    requires j < |s.jobs|
  {
    if s.jobs[j].Copying? then s.jobs[j].version == l else j == l
  }

  /** l: the last write to the key; before: the secondaries when it was applied to the primary. */
  ghost predicate Tracked(s: State, k: string, l: nat, before: seq<map<string, Bytes>>) {
    && Inv(s) && |before| == |s.secondaries| && LastWrite(s.log, k) == l
    && (forall j, b :: 0 <= j < |s.log| && s.log[j].key == k && 0 <= b < |s.secondaries| && StillDue(s, j, b) ==>
                         Brings(s, j, l))
    && (s.jobs[l].Ended? ==> |s.secondaries| == 0)
    && forall b :: 0 <= b < |s.secondaries| ==>
         Lookup(s.secondaries[b], k) == if Served(s, k, l, b) then Lookup(s.primary, k) else Lookup(before[b], k)
  }

  lemma CommitTracked(s: State, w: Action)
    requires Inv(s) && Commits(w) && NoneInFlight(s, w.key)
    ensures Tracked(Next(s, w), w.key, |s.log|, s.secondaries)
  {
    var s', k, l := Next(s, w), w.key, |s.log|;
    NextInv(s, w);
    forall j, b | 0 <= j < |s'.log| && s'.log[j].key == k && 0 <= b < |s.secondaries| && StillDue(s', j, b)
      ensures j == l
    {
      if j < l {
        assert StillDue(s, j, b);
        assert InFlight(s, j);
      }
    }
    forall b | 0 <= b < |s.secondaries| ensures !Served(s', k, l, b) {
      forall j | 0 <= j < |s'.log| && s'.log[j].key == k ensures !Serves(s', j, l, b) {
        if j < l {
          assert JobInv(s, j);
        }
      }
    }
  }

  lemma OtherTracked(s: State, a: Action, k: string, l: nat, before: seq<map<string, Bytes>>)
    requires Tracked(s, k, l, before) && Enabled(s, a) && KeyOf(s, a) != k
    ensures Tracked(Next(s, a), k, l, before)
  {
    var s' := Next(s, a);
    NextInv(s, a);
    OtherKeysApart(s, a, k);
    assert s'.log != s.log ==> s'.log[..|s'.log| - 1] == s.log;
    forall b | 0 <= b < |s.secondaries| ensures Served(s', k, l, b) == Served(s, k, l, b) {
      forall j | 0 <= j < |s.log| && s.log[j].key == k ensures Serves(s', j, l, b) == Serves(s, j, l, b) {
      }
    }
    forall j, b | 0 <= j < |s'.log| && s'.log[j].key == k && 0 <= b < |s.secondaries| && StillDue(s', j, b)
      ensures Brings(s', j, l)
    {
      assert StillDue(s, j, b);
    }
  }

  /** A step of job j that serves nobody and starts nothing that brings an older write. */
  lemma StillTracked(s: State, s': State, k: string, l: nat, before: seq<map<string, Bytes>>, j: nat)
    requires Tracked(s, k, l, before) && Inv(s') && j < |s.jobs| && s.log[j].key == k
    requires s'.log == s.log && s'.primary == s.primary && s'.secondaries == s.secondaries
    requires s'.jobs == s.jobs[j := s'.jobs[j]]
    requires forall b :: 0 <= b < |s.secondaries| ==> Serves(s', j, l, b) == Serves(s, j, l, b)
    requires forall b :: 0 <= b < |s.secondaries| && StillDue(s', j, b) ==> Brings(s', j, l)
    requires j == l && s'.jobs[l].Ended? ==> |s.secondaries| == 0
    ensures Tracked(s', k, l, before)
  {
    forall b | 0 <= b < |s.secondaries| ensures Served(s', k, l, b) == Served(s, k, l, b) {
      forall i | 0 <= i < |s.log| && s.log[i].key == k ensures Serves(s', i, l, b) == Serves(s, i, l, b) {
      }
    }
    forall i, b | 0 <= i < |s.log| && s.log[i].key == k && 0 <= b < |s.secondaries| && StillDue(s', i, b)
      ensures Brings(s', i, l)
    {
      assert i != j ==> StillDue(s, i, b);
    }
  }

  /** Job j brings the last write to secondary b. */
  lemma ServeTracked(s: State, s': State, k: string, l: nat, before: seq<map<string, Bytes>>, j: nat, b: nat)
    requires Tracked(s, k, l, before) && Inv(s') && j < |s.jobs| && s.log[j].key == k && b < |s.secondaries|
    requires s'.log == s.log && s'.primary == s.primary && |s'.secondaries| == |s.secondaries|
    requires s'.jobs == s.jobs[j := s'.jobs[j]] && !s'.jobs[j].Ended?
    requires forall c :: 0 <= c < |s.secondaries| && c != b ==>
               s'.secondaries[c] == s.secondaries[c] && Serves(s', j, l, c) == Serves(s, j, l, c)
    requires Serves(s', j, l, b) && Lookup(s'.secondaries[b], k) == Lookup(s.primary, k)
    requires forall c :: 0 <= c < |s.secondaries| && StillDue(s', j, c) ==> Brings(s', j, l)
    ensures Tracked(s', k, l, before)
  {
    forall c | 0 <= c < |s.secondaries| && c != b ensures Served(s', k, l, c) == Served(s, k, l, c) {
      forall i | 0 <= i < |s.log| && s.log[i].key == k ensures Serves(s', i, l, c) == Serves(s, i, l, c) {
      }
    }
    assert Served(s', k, l, b);
    forall i, c | 0 <= i < |s.log| && s.log[i].key == k && 0 <= c < |s.secondaries| && StillDue(s', i, c)
      ensures Brings(s', i, l)
    {
      assert i != j ==> StillDue(s, i, c);
    }
  }

  lemma StepTracked(s: State, a: Action, k: string, l: nat, before: seq<map<string, Bytes>>)
    requires Tracked(s, k, l, before) && Enabled(s, a) && KeyOf(s, a) == k && a.Step?
    ensures Tracked(Next(s, a), k, l, before)
  {
    var s', run := Next(s, a), s.jobs[a.job].run;
    NextInv(s, a);
    assert JobInv(s, a.job);
    if a.step.Finish? {
      Broadcast.FinishKeepsTask(run, a.step.task);
      assert StillDue(s, a.job, a.step.task);
      ReplayLast(s.log, k);
      ServeTracked(s, s', k, l, before, a.job, a.step.task);
    } else {
      OpenBefore(run, a.step);
      StoredBefore(run, a.step);
      forall b | 0 <= b < |s.secondaries| && StillDue(s', a.job, b) ensures Brings(s', a.job, l) {
        assert StillDue(s, a.job, b);
      }
      StillTracked(s, s', k, l, before, a.job);
    }
  }

  /** No step opens a task, and only its own last step stores. */
  lemma OpenBefore(run: Broadcast.State, act: Broadcast.Action)
    requires Broadcast.Enabled(run, act)
    ensures forall b: nat :: Broadcast.IsOpen(Broadcast.Next(run, act), b) ==> Broadcast.IsOpen(run, b)
  {
  }

  lemma StoredBefore(run: Broadcast.State, act: Broadcast.Action)
    requires Broadcast.Enabled(run, act) && !act.Finish?
    ensures |Broadcast.Next(run, act).tasks| == |run.tasks|
    ensures forall b :: 0 <= b < |run.tasks| ==>
              Broadcast.Next(run, act).tasks[b].status.Stored? == run.tasks[b].status.Stored?
  {
  }

  lemma DeleteTracked(s: State, a: Action, k: string, l: nat, before: seq<map<string, Bytes>>)
    requires Tracked(s, k, l, before) && Enabled(s, a) && KeyOf(s, a) == k && a.DeleteAt?
    ensures Tracked(Next(s, a), k, l, before)
  {
    var s', j := Next(s, a), a.job;
    NextInv(s, a);
    assert JobInv(s, j);
    assert StillDue(s, j, a.backend);
    ReplayLast(s.log, k);
    if a.failure.None? {
      ServeTracked(s, s', k, l, before, j, a.backend);
    } else {
      StillTracked(s, s', k, l, before, j);
    }
  }

  lemma QuietTracked(s: State, a: Action, k: string, l: nat, before: seq<map<string, Bytes>>)
    requires Tracked(s, k, l, before) && Enabled(s, a) && KeyOf(s, a) == k
    requires !Commits(a) && !a.Step? && !a.DeleteAt?
    ensures Tracked(Next(s, a), k, l, before)
  {
    var s' := Next(s, a);
    NextInv(s, a);
    ReplayLast(s.log, k);
    if s' != s {
      assert JobInv(s, a.job) && JobInv(s', a.job);
      forall b | 0 <= b < |s.secondaries|
        ensures Serves(s', a.job, l, b) == Serves(s, a.job, l, b)
        ensures StillDue(s', a.job, b) ==> Brings(s', a.job, l)
      {
        assert Range(|s.secondaries|)[b] == b;
        assert a.Spawn? && s.log[a.job].Delete? ==> StillDue(s, a.job, b);
      }
      StillTracked(s, s', k, l, before, a.job);
    }
  }

  lemma NextTracked(s: State, a: Action, k: string, l: nat, before: seq<map<string, Bytes>>)
    requires Tracked(s, k, l, before) && Enabled(s, a) && (KeyOf(s, a) == k ==> !Commits(a))
    ensures Tracked(Next(s, a), k, l, before)
  {
    if KeyOf(s, a) != k {
      OtherTracked(s, a, k, l, before);
    } else if a.Step? {
      StepTracked(s, a, k, l, before);
    } else if a.DeleteAt? {
      DeleteTracked(s, a, k, l, before);
    } else {
      QuietTracked(s, a, k, l, before);
    }
  }

  /** No further write to the key is applied; anything may fail. */
  ghost predicate NoWrite(s: State, trace: seq<Action>, k: string)
    decreases |trace|
  {
    trace == [] ||
    (|s.jobs| == |s.log| && Enabled(s, trace[0]) && (KeyOf(s, trace[0]) == k ==> !Commits(trace[0]))
     && NoWrite(Next(s, trace[0]), trace[1..], k))
  }

  lemma {:induction false} TrackedAfter(s: State, trace: seq<Action>, k: string, l: nat, before: seq<map<string, Bytes>>)
    requires Tracked(s, k, l, before) && NoWrite(s, trace, k)
    ensures Runs(s, trace) && Tracked(After(s, trace), k, l, before)
    ensures Lookup(After(s, trace).primary, k) == Lookup(s.primary, k)
    decreases |trace|
  {
    if trace != [] {
      NextTracked(s, trace[0], k, l, before);
      TrackedAfter(Next(s, trace[0]), trace[1..], k, l, before);
    }
  }

  /** Once the jobs are over, a secondary is not served only if the last write's own job failed there. */
  lemma SettledServed(s: State, k: string, l: nat, before: seq<map<string, Bytes>>, b: nat)
    requires Tracked(s, k, l, before) && Settled(s, k) && b < |s.secondaries| && !FailedAt(s.jobs[l], b)
    ensures Served(s, k, l, b)
  {
    assert Done(s.jobs[l]) && JobInv(s, l);
    assert Serves(s, l, l, b);
  }

  /**
   A write that finds nothing in flight for its key, after any run and with any failures before and after
   it: as long as no other write to the key is applied, a secondary holds what the write left if it has
   been served, and otherwise exactly what it held when the write was applied. So it agrees with the
   primary if and only if it has been served or held the same before; once the jobs on the key are over,
   only a secondary where the write's own job failed can be left behind.
   */
  lemma FailedReplication(s: State, w: Action, trace: seq<Action>, b: nat)
    requires Inv(s) && Commits(w) && NoneInFlight(s, w.key) && NoWrite(Next(s, w), trace, w.key)
    requires b < |s.secondaries|
    ensures Runs(Next(s, w), trace)
    ensures var t, k, l := After(Next(s, w), trace), w.key, |s.log|;
            && |t.secondaries| == |s.secondaries| && |t.jobs| == |t.log| && l < |t.jobs|
            && Lookup(t.primary, k) == EffectOf(w)
            && Lookup(t.secondaries[b], k) == (if Served(t, k, l, b) then EffectOf(w) else Lookup(s.secondaries[b], k))
            && (Lookup(t.secondaries[b], k) == Lookup(t.primary, k) <==>
                  Served(t, k, l, b) || Lookup(s.secondaries[b], k) == EffectOf(w))
            && (Settled(t, k)
                && (t.jobs[l].Copying? ==>
                      && t.jobs[l].run.source.fault.None?
                      && (b < |t.jobs[l].run.tasks| ==> !t.jobs[l].run.tasks[b].status.Failed?))
                && (t.jobs[l].Deleting? ==> b !in t.jobs[l].failed)
                && !t.jobs[l].GaveUp? ==>
                  Served(t, k, l, b))
  {
    CommitTracked(s, w);
    TrackedAfter(Next(s, w), trace, w.key, |s.log|, s.secondaries);
    var t := After(Next(s, w), trace);
    if Settled(t, w.key) && !FailedAt(t.jobs[|s.log|], b) {
      SettledServed(t, w.key, |s.log|, s.secondaries, b);
    }
  }
}
