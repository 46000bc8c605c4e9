/**
 When ASYNC_REPLICATION converges on a key. A job is in flight while it can still change a secondary
 whatever the primary holds by then: a task that has read the primary and is copying, or a delete that
 still has a backend to reach. A put whose task has not read the primary yet is harmless. A write is
 safe when everything in flight for its key leaves what the write leaves.
 */
module AsyncConvergence {
  import opened Types
  import opened Sequences
  import Broadcast
  import BroadcastProgress
  import opened AsyncReplication

  /** The job is over: nothing of it runs any more. */
  predicate Done(job: Job) {
    match job
    case Written => false
    case Spawned => false
    case Copying(_, run) => Broadcast.Finished(run)
    case Deleting(waiting, _) => waiting == {}
    case Ended => true
    case GaveUp => true
  }

  /** The job in flight can still change secondary b. */
  predicate StillDue(s: State, j: nat, b: nat)
    requires j < |s.jobs| == |s.log|
  {
    match s.jobs[j]
    case Written => s.log[j].Delete?
    case Spawned => false
    case Copying(_, run) => run.source.fault.None? && Broadcast.IsOpen(run, b)
    case Deleting(waiting, _) => b in waiting
    case Ended => false
    case GaveUp => false
  }

  ghost predicate InFlight(s: State, j: nat)
    requires j < |s.jobs| == |s.log|
  {
    exists b :: 0 <= b < |s.secondaries| && StillDue(s, j, b)
  }

  /** What a job in flight leaves under its key. */
  function Leaves(job: Job): Option<Bytes> {
    if job.Copying? then Some(Concat(job.run.source.chunks)) else None
  }

  ghost predicate NoneInFlight(s: State, k: string)
    requires |s.jobs| == |s.log|
  {
    forall j :: 0 <= j < |s.log| && s.log[j].key == k ==> !InFlight(s, j)
  }

  ghost predicate AllLeave(s: State, k: string, e: Option<Bytes>)
    requires |s.jobs| == |s.log|
  {
    forall j, b :: 0 <= j < |s.log| && s.log[j].key == k && 0 <= b < |s.secondaries| && StillDue(s, j, b) ==>
                     Leaves(s.jobs[j]) == e
  }

  /** A client write that the primary applies. */
  predicate Commits(a: Action) {
    match a
    case ClientPut(_, source, failure) => failure.None? && source.fault.None?
    case ClientDelete(_, failure) => failure.None?
    case _ => false
  }

  function EffectOf(w: Action): Option<Bytes>
    requires Commits(w)
  {
    if w.ClientPut? then Some(Concat(w.source.chunks)) else None
  }

  /** The key of the request or of the job. */
  function KeyOf(s: State, a: Action): string
    requires Enabled(s, a) && |s.jobs| == |s.log|
  {
    if IsClient(a) then a.key else s.log[a.job].key
  }

  /** No backend operation of a background step fails; NoSuchKey is an answer, not a failure. */
  predicate Healthy(a: Action) {
    match a
    case Fetch(_, source) => source.fault.None?
    case FetchFailed(_) => false
    case Step(_, act) => !act.Abort?
    case DeleteAt(_, _, failure) => failure.None?
    case _ => true
  }

  /** On the key: healthy background steps, and writes that leave what everything in flight leaves. */
  ghost predicate SafeStep(s: State, a: Action, k: string)
    requires Enabled(s, a)
  {
    && |s.jobs| == |s.log|
    && (KeyOf(s, a) == k ==> Healthy(a) && (Commits(a) ==> AllLeave(s, k, EffectOf(a))))
  }

  ghost predicate SafeRun(s: State, trace: seq<Action>, k: string)
    decreases |trace|
  {
    trace == [] || (Enabled(s, trace[0]) && SafeStep(s, trace[0], k) && SafeRun(Next(s, trace[0]), trace[1..], k))
  }

  // ---------------------------------------------------------------- the invariant

  /** The job will bring what the primary holds to secondary b, or delete there, if nothing fails. */
  predicate Reaches(s: State, j: nat, b: nat)
    requires j < |s.jobs| == |s.log|
  {
    || StillDue(s, j, b)
    || ((s.jobs[j].Written? || s.jobs[j].Spawned?) && s.log[j].key in s.primary)
  }

  ghost predicate Due(s: State, k: string, b: nat)
    requires |s.jobs| == |s.log|
  {
    exists j :: 0 <= j < |s.log| && s.log[j].key == k && Reaches(s, j, b)
  }

  /** The primary holds e under the key, and every secondary holds it or has a job due that leaves it. */
  ghost predicate Carried(s: State, k: string, e: Option<Bytes>) {
    && Inv(s) && Lookup(s.primary, k) == e && AllLeave(s, k, e)
    && forall b :: 0 <= b < |s.secondaries| ==> Lookup(s.secondaries[b], k) == e || Due(s, k, b)
  }

  /** Whatever the secondaries held before: a safe write is carried to all of them. */
  lemma CommitCarries(s: State, w: Action)
    requires Inv(s) && Commits(w) && AllLeave(s, w.key, EffectOf(w))
    ensures Carried(Next(s, w), w.key, EffectOf(w))
  {
    var s', k := Next(s, w), w.key;
    NextInv(s, w);
    forall j, b | 0 <= j < |s'.log| && s'.log[j].key == k && 0 <= b < |s.secondaries| && StillDue(s', j, b)
      ensures Leaves(s'.jobs[j]) == EffectOf(w)
    {
      if j < |s.log| {
        assert StillDue(s, j, b);
      }
    }
    forall b | 0 <= b < |s'.secondaries| ensures Due(s', k, b) {
      assert Reaches(s', |s.log|, b);
    }
  }

  /** From s to s' nothing changed for the key. */
  ghost predicate SameOn(s: State, s': State, k: string) {
    && |s'.secondaries| == |s.secondaries| && |s.jobs| == |s.log| <= |s'.log| == |s'.jobs|
    && Lookup(s'.primary, k) == Lookup(s.primary, k)
    && (forall b :: 0 <= b < |s.secondaries| ==> Lookup(s'.secondaries[b], k) == Lookup(s.secondaries[b], k))
    && (forall j :: 0 <= j < |s.log| ==> s'.log[j] == s.log[j])
    && (forall j :: 0 <= j < |s.log| && s.log[j].key == k ==> s'.jobs[j] == s.jobs[j])
    && (forall j :: |s.log| <= j < |s'.log| ==> s'.log[j].key != k)
  }

  lemma OtherKeysApart(s: State, a: Action, k: string)
    requires Inv(s) && Enabled(s, a) && KeyOf(s, a) != k
    ensures SameOn(s, Next(s, a), k)
  {
    NextInv(s, a);
  }

  lemma StayDue(s: State, s': State, k: string)
    requires |s.jobs| == |s.log| <= |s'.log| == |s'.jobs| && |s'.secondaries| == |s.secondaries|
    requires forall j :: 0 <= j < |s.log| ==> s'.log[j] == s.log[j]
    requires forall j, b :: 0 <= j < |s.log| && s.log[j].key == k && 0 <= b < |s.secondaries| && Reaches(s, j, b) ==>
               Reaches(s', j, b)
    ensures forall b :: 0 <= b < |s.secondaries| && Due(s, k, b) ==> Due(s', k, b)
  {
    forall b | 0 <= b < |s.secondaries| && Due(s, k, b) ensures Due(s', k, b) {
      var j :| 0 <= j < |s.log| && s.log[j].key == k && Reaches(s, j, b);
      assert Reaches(s', j, b);
    }
  }

  lemma OtherCarried(s: State, s': State, k: string, e: Option<Bytes>)
    requires Carried(s, k, e) && SameOn(s, s', k) && Inv(s')
    ensures Carried(s', k, e)
  {
    StayDue(s, s', k);
    forall j, b | 0 <= j < |s'.log| && s'.log[j].key == k && 0 <= b < |s.secondaries| && StillDue(s', j, b)
      ensures Leaves(s'.jobs[j]) == e
    {
      assert StillDue(s, j, b);
    }
  }

  /** Neither a write nor a step that changes a secondary. */
  predicate IsQuiet(a: Action) {
    Healthy(a) && !Commits(a) && !a.Step? && !a.DeleteAt?
  }

  lemma QuietCarried(s: State, a: Action, k: string, e: Option<Bytes>)
    requires Carried(s, k, e) && Enabled(s, a) && KeyOf(s, a) == k && IsQuiet(a)
    ensures Carried(Next(s, a), k, e)
  {
    var s' := Next(s, a);
    NextInv(s, a);
    forall j, b | 0 <= j < |s.log| && s.log[j].key == k && 0 <= b < |s.secondaries| && Reaches(s, j, b)
      ensures Reaches(s', j, b)
    {
      assert Range(|s.secondaries|)[b] == b;
      assert JobInv(s, j);
    }
    StayDue(s, s', k);
    forall j, b | 0 <= j < |s.log| && s.log[j].key == k && 0 <= b < |s.secondaries| && StillDue(s', j, b)
      ensures Leaves(s'.jobs[j]) == e
    {
      assert JobInv(s, j);
      if !StillDue(s, j, b) {
        assert a.Fetch? && a.job == j;
      }
    }
  }

  /** A step of a copying task that stores nothing. */
  lemma CopyCarried(s: State, a: Action, k: string, e: Option<Bytes>)
    requires Carried(s, k, e) && Enabled(s, a) && KeyOf(s, a) == k && Healthy(a) && a.Step? && !a.step.Finish?
    ensures Carried(Next(s, a), k, e)
  {
    var s', run := Next(s, a), s.jobs[a.job].run;
    NextInv(s, a);
    assert JobInv(s, a.job);
    if a.step.Receive? {
      BroadcastProgress.ReceivedItem(run, a.step.task);
    }
    forall j, b | 0 <= j < |s.log| && s.log[j].key == k && 0 <= b < |s.secondaries|
      ensures StillDue(s', j, b) == StillDue(s, j, b) && Leaves(s'.jobs[j]) == Leaves(s.jobs[j])
    {
    }
    StayDue(s, s', k);
  }

  /** Job j is applied at secondary b and leaves e there. */
  lemma AppliedCarried(s: State, s': State, k: string, e: Option<Bytes>, j: nat, b: nat)
    requires Carried(s, k, e) && Inv(s') && j < |s.log| && b < |s.secondaries|
    requires s'.log == s.log && s'.primary == s.primary && |s'.secondaries| == |s.secondaries|
    requires s'.jobs == s.jobs[j := s'.jobs[j]] && Leaves(s'.jobs[j]) == Leaves(s.jobs[j])
    requires !s.jobs[j].Written? && !s.jobs[j].Spawned? && !s'.jobs[j].Written? && !s'.jobs[j].Spawned?
    requires forall c :: 0 <= c < |s.secondaries| && c != b ==>
               s'.secondaries[c] == s.secondaries[c] && StillDue(s', j, c) == StillDue(s, j, c)
    requires !StillDue(s', j, b) && Lookup(s'.secondaries[b], k) == e
    ensures Carried(s', k, e)
  {
    forall c | 0 <= c < |s.secondaries| && c != b && Due(s, k, c) ensures Due(s', k, c) {
      var i :| 0 <= i < |s.log| && s.log[i].key == k && Reaches(s, i, c);
      assert Reaches(s', i, c);
    }
    forall i, c | 0 <= i < |s.log| && s.log[i].key == k && 0 <= c < |s.secondaries| && StillDue(s', i, c)
      ensures Leaves(s'.jobs[i]) == e
    {
      assert StillDue(s, i, c);
    }
  }

  lemma FinishCarried(s: State, a: Action, k: string, e: Option<Bytes>)
    requires Carried(s, k, e) && Enabled(s, a) && KeyOf(s, a) == k && a.Step? && a.step.Finish?
    ensures Carried(Next(s, a), k, e)
  {
    var run := s.jobs[a.job].run;
    NextInv(s, a);
    assert JobInv(s, a.job);
    Broadcast.FinishKeepsTask(run, a.step.task);
    assert StillDue(s, a.job, a.step.task);
    AppliedCarried(s, Next(s, a), k, e, a.job, a.step.task);
  }

  lemma DeleteCarried(s: State, a: Action, k: string, e: Option<Bytes>)
    requires Carried(s, k, e) && Enabled(s, a) && KeyOf(s, a) == k && a.DeleteAt? && Healthy(a)
    ensures Carried(Next(s, a), k, e)
  {
    NextInv(s, a);
    assert StillDue(s, a.job, a.backend);
    AppliedCarried(s, Next(s, a), k, e, a.job, a.backend);
  }

  /** What is carried to the secondaries after the step. */
  function CarriedBy(s: State, a: Action, k: string, e: Option<Bytes>): Option<Bytes>
    requires Enabled(s, a) && |s.jobs| == |s.log|
  {
    if KeyOf(s, a) == k && Commits(a) then EffectOf(a) else e
  }

  lemma NextCarried(s: State, a: Action, k: string, e: Option<Bytes>)
    requires Carried(s, k, e) && Enabled(s, a) && SafeStep(s, a, k)
    ensures Carried(Next(s, a), k, CarriedBy(s, a, k, e))
  {
    NextInv(s, a);
    if KeyOf(s, a) != k {
      OtherKeysApart(s, a, k);
      OtherCarried(s, Next(s, a), k, e);
    } else if Commits(a) {
      CommitCarries(s, a);
    } else if a.Step? {
      if a.step.Finish? {
        FinishCarried(s, a, k, e);
      } else {
        CopyCarried(s, a, k, e);
      }
    } else if a.DeleteAt? {
      DeleteCarried(s, a, k, e);
    } else {
      QuietCarried(s, a, k, e);
    }
  }

  lemma {:induction false} CarriedAfter(s: State, trace: seq<Action>, k: string, e: Option<Bytes>)
    returns (e': Option<Bytes>)
    requires Carried(s, k, e) && SafeRun(s, trace, k)
    ensures Runs(s, trace) && Carried(After(s, trace), k, e')
    ensures |After(s, trace).secondaries| == |s.secondaries|
    decreases |trace|
  {
    e' := e;
    if trace != [] {
      NextInv(s, trace[0]);
      NextCarried(s, trace[0], k, e);
      e' := CarriedAfter(Next(s, trace[0]), trace[1..], k, CarriedBy(s, trace[0], k, e));
    }
  }

  // ---------------------------------------------------------------- convergence

  /** All jobs on the key are over. */
  ghost predicate Settled(s: State, k: string) {
    forall j :: 0 <= j < |s.jobs| && j < |s.log| && s.log[j].key == k ==> Done(s.jobs[j])
  }

  ghost predicate AgreeOn(s: State, k: string) {
    forall b :: 0 <= b < |s.secondaries| ==> Lookup(s.secondaries[b], k) == Lookup(s.primary, k)
  }

  lemma SettledAgrees(s: State, k: string, e: Option<Bytes>)
    requires Carried(s, k, e) && Settled(s, k)
    ensures AgreeOn(s, k)
  {
    forall b | 0 <= b < |s.secondaries| ensures !Due(s, k, b) {
      forall j | 0 <= j < |s.log| && s.log[j].key == k ensures !Reaches(s, j, b) {
        assert Done(s.jobs[j]) && JobInv(s, j);
      }
    }
  }

  /**
   Convergence, key by key: if on this key no backend operation fails and each write leaves what
   everything in flight for it leaves, then in every reachable state, whatever happens on other keys, all
   backends agree on the key once its jobs are over.
   */
  lemma SafeRunsConverge(n: nat, trace: seq<Action>, k: string)
    requires SafeRun(Init(n), trace, k)
    ensures Runs(Init(n), trace) && |After(Init(n), trace).secondaries| == n
    ensures Settled(After(Init(n), trace), k) ==> AgreeOn(After(Init(n), trace), k)
  {
    var e := CarriedAfter(Init(n), trace, k, None);
    if Settled(After(Init(n), trace), k) {
      SettledAgrees(After(Init(n), trace), k, e);
    }
  }

  /** The key is only carried on: no backend fails on it and no further write to it is applied. */
  ghost predicate Continues(s: State, trace: seq<Action>, k: string)
    decreases |trace|
  {
    trace == [] ||
    (|s.jobs| == |s.log| && Enabled(s, trace[0])
     && (KeyOf(s, trace[0]) == k ==> Healthy(trace[0]) && !Commits(trace[0]))
     && Continues(Next(s, trace[0]), trace[1..], k))
  }

  lemma {:induction false} ContinuesCarried(s: State, trace: seq<Action>, k: string, e: Option<Bytes>)
    requires Carried(s, k, e) && Continues(s, trace, k)
    ensures Runs(s, trace) && Carried(After(s, trace), k, e)
    ensures |After(s, trace).secondaries| == |s.secondaries|
    decreases |trace|
  {
    if trace != [] {
      NextInv(s, trace[0]);
      NextCarried(s, trace[0], k, e);
      ContinuesCarried(Next(s, trace[0]), trace[1..], k, e);
    }
  }

  /**
   The past does not matter: after any run, with any failures and unsafe writes, a write that leaves what
   everything in flight for its key leaves ends, if no backend fails on the key from then on, with every
   backend holding its effect once the jobs on the key are over.
   */
  lemma LastWriteDecides(s: State, w: Action, trace: seq<Action>)
    requires Inv(s) && Commits(w) && AllLeave(s, w.key, EffectOf(w)) && Continues(Next(s, w), trace, w.key)
    ensures Runs(Next(s, w), trace)
    ensures var t := After(Next(s, w), trace);
            && |t.secondaries| == |s.secondaries| && Lookup(t.primary, w.key) == EffectOf(w)
            && (Settled(t, w.key) ==> AgreeOn(t, w.key))
  {
    CommitCarries(s, w);
    ContinuesCarried(Next(s, w), trace, w.key, EffectOf(w));
    if Settled(After(Next(s, w), trace), w.key) {
      SettledAgrees(After(Next(s, w), trace), w.key, EffectOf(w));
    }
  }
}
