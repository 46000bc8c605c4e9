/**
 ASYNC_REPLICATION as a concurrent system. A client write changes the primary and starts a job; the
 job's background task reads the primary later and broadcasts what it read to the other backends,
 or deletes there. Clients and all tasks interleave freely. Stores map keys to data, as replicas
 are compared without their time stamps.
 */
module AsyncReplication {
  import opened Types
  import opened Sequences
  import Broadcast

  datatype Write = Put(key: string, data: Bytes) | Delete(key: string)

  /**
   Written: the primary has the write, the background task is not spawned yet. Spawned: a put's task
   has not read the primary yet. Copying: it read the primary when log[version] was the last write
   to the key, and broadcasts that. Deleting: backends in waiting have not deleted yet, and those in
   failed reported an error. Ended: there was nothing to replicate. GaveUp: the GET failed.
   */
  datatype Job =
    | Written
    | Spawned
    | Copying(version: nat, run: Broadcast.State)
    | Deleting(waiting: set<nat>, failed: set<nat>)
    | Ended
    | GaveUp

  /** log: the writes to the primary so far; jobs[j] is the job of the write log[j]. */
  datatype State = State(
    primary: map<string, Bytes>,
    secondaries: seq<map<string, Bytes>>,
    log: seq<Write>,
    jobs: seq<Job>)

  datatype Action =
    | ClientPut(key: string, source: Source, failure: Option<S3Error>)
    | ClientDelete(key: string, failure: Option<S3Error>)
    | ClientGet(key: string, failure: Option<S3Error>)
    | Spawn(job: nat)
    | Fetch(job: nat, source: Source)
    | FetchMissing(job: nat)
    | FetchFailed(job: nat)
    | Step(job: nat, step: Broadcast.Action)
    | DeleteAt(job: nat, backend: nat, failure: Option<S3Error>)

  function Init(n: nat): State {
    State(map[], seq(n, i => map[]), [], [])
  }

  /** The index of the last write to the key, or -1. */
  function LastWrite(log: seq<Write>, k: string): (r: int)
    ensures -1 <= r < |log|
    ensures r >= 0 ==> log[r].key == k
    ensures forall i :: r < i < |log| ==> log[i].key != k
  {
    if log == [] then -1
    else if log[|log| - 1].key == k then |log| - 1
    else LastWrite(log[..|log| - 1], k)
  }

  predicate Enabled(s: State, a: Action) {
    match a
    case ClientPut(_, _, _) => true
    case ClientDelete(_, _) => true
    case ClientGet(_, _) => true
    case Spawn(j) => j < |s.jobs| == |s.log| && s.jobs[j].Written?
    case Fetch(j, source) =>
      && j < |s.jobs| == |s.log| && s.jobs[j].Spawned? && s.log[j].key in s.primary
      && LastWrite(s.log, s.log[j].key) >= 0
      && (source.fault.None? ==> Concat(source.chunks) == s.primary[s.log[j].key])
    case FetchMissing(j) => j < |s.jobs| == |s.log| && s.jobs[j].Spawned? && s.log[j].key !in s.primary
    case FetchFailed(j) => j < |s.jobs| && s.jobs[j].Spawned?
    case Step(j, act) =>
      && j < |s.jobs| == |s.log| && s.jobs[j].Copying? && Broadcast.Enabled(s.jobs[j].run, act)
      && (act.Finish? ==> act.task < |s.secondaries|)
    case DeleteAt(j, b, _) =>
      j < |s.jobs| == |s.log| && s.jobs[j].Deleting? && b in s.jobs[j].waiting && b < |s.secondaries|
  }

  function Commit(s: State, w: Write): State {
    State(if w.Put? then s.primary[w.key := w.data] else s.primary - {w.key},
          s.secondaries, s.log + [w], s.jobs + [Written])
  }

  function Next(s: State, a: Action): State
    requires Enabled(s, a)
  {
    match a
    case ClientPut(k, source, failure) =>
      if failure.Some? || source.fault.Some? then s else Commit(s, Put(k, Concat(source.chunks)))
    case ClientDelete(k, failure) =>
      if failure.Some? then s else Commit(s, Delete(k))
    case ClientGet(_, _) => s
    case Spawn(j) =>
      var n := |s.secondaries|;
      s.(jobs := s.jobs[j := if n == 0 then Ended
                             else if s.log[j].Put? then Spawned
                             else Deleting(Elements(Range(n)), {})])
    case Fetch(j, source) =>
      s.(jobs := s.jobs[j := Copying(LastWrite(s.log, s.log[j].key), Broadcast.Init(source, |s.secondaries|))])
    case FetchMissing(j) => s.(jobs := s.jobs[j := Ended])
    case FetchFailed(j) => s.(jobs := s.jobs[j := GaveUp])
    case Step(j, act) =>
      var job, k := s.jobs[j], s.log[j].key;
      var secondaries :=
        if act.Finish? then
          s.secondaries[act.task := s.secondaries[act.task][k := Concat(job.run.tasks[act.task].consumed)]]
        else s.secondaries;
      s.(secondaries := secondaries, jobs := s.jobs[j := job.(run := Broadcast.Next(job.run, act))])
    case DeleteAt(j, b, failure) =>
      var secondaries :=
        if failure.None? then s.secondaries[b := s.secondaries[b] - {s.log[j].key}] else s.secondaries;
      var failed := s.jobs[j].failed + if failure.Some? then {b} else {};
      s.(secondaries := secondaries, jobs := s.jobs[j := Deleting(s.jobs[j].waiting - {b}, failed)])
  }

  ghost predicate Runs(s: State, trace: seq<Action>)
    decreases |trace|
  {
    trace == [] || (Enabled(s, trace[0]) && Runs(Next(s, trace[0]), trace[1..]))
  }

  ghost function After(s: State, trace: seq<Action>): State
    requires Runs(s, trace)
    decreases |trace|
  {
    if trace == [] then s else After(Next(s, trace[0]), trace[1..])
  }

  lemma {:induction false} RunsAppend(s: State, trace: seq<Action>, more: seq<Action>)
    requires Runs(s, trace) && Runs(After(s, trace), more)
    ensures Runs(s, trace + more) && After(s, trace + more) == After(After(s, trace), more)
    decreases |trace|
  {
    if trace == [] {
      assert trace + more == more;
    } else {
      RunsAppend(Next(s, trace[0]), trace[1..], more);
      assert (trace + more)[1..] == trace[1..] + more;
    }
  }

  lemma {:induction false} RunsSplit(s: State, trace: seq<Action>, i: nat)
    requires Runs(s, trace) && i <= |trace|
    ensures Runs(s, trace[..i]) && Runs(After(s, trace[..i]), trace[i..])
    ensures After(s, trace) == After(After(s, trace[..i]), trace[i..])
    decreases |trace|
  {
    if i == 0 {
      assert trace[..0] == [] && trace[0..] == trace;
    } else {
      RunsSplit(Next(s, trace[0]), trace[1..], i - 1);
      assert trace[..i][1..] == trace[1..][..i - 1];
      assert trace[i..] == trace[1..][i - 1..];
    }
  }

  // ---------------------------------------------------------------- the invariant

  /** The single map that the writes make of an empty one. */
  function Replay(log: seq<Write>): map<string, Bytes> {
    if log == [] then map[]
    else
      var m, w := Replay(log[..|log| - 1]), log[|log| - 1];
      if w.Put? then m[w.key := w.data] else m - {w.key}
  }

  lemma {:induction false} ReplayLast(log: seq<Write>, k: string)
    ensures var i := LastWrite(log, k);
            Lookup(Replay(log), k) == if i >= 0 && log[i].Put? then Some(log[i].data) else None
  {
    if log != [] && log[|log| - 1].key != k {
      ReplayLast(log[..|log| - 1], k);
    }
  }

  ghost predicate JobInv(s: State, j: nat)
    requires j < |s.jobs| == |s.log|
  {
    match s.jobs[j]
    case Written => true
    case Spawned => s.log[j].Put?
    case Copying(v, run) =>
      && s.log[j].Put? && j <= v < |s.log|
      && s.log[v].Put? && s.log[v].key == s.log[j].key
      && Broadcast.Inv(run) && |run.tasks| == |s.secondaries|
      && (run.source.fault.None? ==> Concat(run.source.chunks) == s.log[v].data)
    case Deleting(waiting, failed) =>
      s.log[j].Delete? && waiting !! failed && forall b :: b in waiting ==> b < |s.secondaries|
    case Ended => true
    case GaveUp => s.log[j].Put?
  }

  /** Every object of a secondary was put on the primary by some write. */
  ghost predicate Sourced(s: State) {
    forall b, k :: 0 <= b < |s.secondaries| && k in s.secondaries[b] ==> Put(k, s.secondaries[b][k]) in s.log
  }

  ghost predicate Inv(s: State) {
    && |s.jobs| == |s.log|
    && s.primary == Replay(s.log)
    && (forall j :: 0 <= j < |s.jobs| ==> JobInv(s, j))
    && Sourced(s)
  }

  lemma CommitInv(s: State, w: Write)
    requires Inv(s)
    ensures Inv(Commit(s, w))
  {
    var s' := Commit(s, w);
    assert s'.log[..|s'.log| - 1] == s.log;
    forall j | 0 <= j < |s'.jobs| ensures JobInv(s', j) {
      assert j < |s.jobs| ==> JobInv(s, j);
    }
  }

  lemma FetchInv(s: State, a: Action)
    requires Inv(s) && a.Fetch? && Enabled(s, a)
    ensures Inv(Next(s, a))
  {
    var s', k := Next(s, a), s.log[a.job].key;
    ReplayLast(s.log, k);
    Broadcast.InitInv(a.source, |s.secondaries|);
    assert JobInv(s, a.job);
    forall j | 0 <= j < |s'.jobs| ensures JobInv(s', j) {
      assert JobInv(s, j);
    }
  }

  lemma StepInv(s: State, a: Action)
    requires Inv(s) && a.Step? && Enabled(s, a)
    ensures Inv(Next(s, a))
    ensures a.step.Finish? ==>
              && s.jobs[a.job].run.source.fault.None?
              && s.jobs[a.job].version < |s.log|
              && s.log[s.jobs[a.job].version] ==
                 Put(s.log[a.job].key, Concat(s.jobs[a.job].run.tasks[a.step.task].consumed))
  {
    var s', run := Next(s, a), s.jobs[a.job].run;
    assert JobInv(s, a.job);
    Broadcast.NextInv(run, a.step);
    if a.step.Finish? {
      Broadcast.FinishKeepsTask(run, a.step.task);
      assert s.log[s.jobs[a.job].version] in s.log;
    }
    forall j | 0 <= j < |s'.jobs| ensures JobInv(s', j) {
      assert JobInv(s, j);
    }
  }

  lemma NextInv(s: State, a: Action)
    requires Inv(s) && Enabled(s, a)
    ensures Inv(Next(s, a)) && s.log <= Next(s, a).log && |Next(s, a).log| <= |s.log| + 1
    ensures |Next(s, a).secondaries| == |s.secondaries|
  {
    var s' := Next(s, a);
    if a.Fetch? {
      FetchInv(s, a);
    } else if a.Step? {
      StepInv(s, a);
    } else if |s'.log| != |s.log| {
      CommitInv(s, s'.log[|s.log|]);
    } else {
      forall j | 0 <= j < |s'.jobs| ensures JobInv(s', j) {
        assert JobInv(s, j);
      }
    }
  }

  lemma {:induction false} ReachableInv(s: State, trace: seq<Action>)
    requires Inv(s) && Runs(s, trace)
    ensures Inv(After(s, trace)) && |After(s, trace).secondaries| == |s.secondaries|
    decreases |trace|
  {
    if trace != [] {
      NextInv(s, trace[0]);
      ReachableInv(Next(s, trace[0]), trace[1..]);
    }
  }

  // ---------------------------------------------------------------- provenance and freshness

  lemma {:induction false} LogGrows(s: State, trace: seq<Action>)
    requires Inv(s) && Runs(s, trace)
    ensures s.log <= After(s, trace).log
    decreases |trace|
  {
    if trace != [] {
      NextInv(s, trace[0]);
      LogGrows(Next(s, trace[0]), trace[1..]);
    }
  }

  /** Every prefix of the log was the whole log at some point of the run. */
  lemma {:induction false} LogHistory(s: State, trace: seq<Action>, v: nat) returns (i: nat)
    requires Inv(s) && Runs(s, trace) && |s.log| <= v <= |After(s, trace).log|
    ensures i <= |trace| && Runs(s, trace[..i])
    ensures v <= |After(s, trace).log| && After(s, trace[..i]).log == After(s, trace).log[..v]
    decreases |trace|
  {
    LogGrows(s, trace);
    if trace == [] {
      i := 0;
    } else {
      NextInv(s, trace[0]);
      var s1 := Next(s, trace[0]);
      if v < |s1.log| {
        i := 0;
      } else {
        var i1 := LogHistory(s1, trace[1..], v);
        i := i1 + 1;
        assert trace[..i][1..] == trace[1..][..i1];
      }
    }
  }

  /**
   Provenance: whatever a secondary holds under a key, in any reachable state of any schedule, was
   the primary's object under that key at some earlier point of the run.
   */
  lemma Provenance(n: nat, trace: seq<Action>, b: nat, k: string) returns (i: nat)
    requires Runs(Init(n), trace) && b < |After(Init(n), trace).secondaries|
    requires k in After(Init(n), trace).secondaries[b]
    ensures i <= |trace| && Runs(Init(n), trace[..i])
    ensures Lookup(After(Init(n), trace[..i]).primary, k) == Some(After(Init(n), trace).secondaries[b][k])
  {
    var s0, s := Init(n), After(Init(n), trace);
    ReachableInv(s0, trace);
    var v :| 0 <= v < |s.log| && s.log[v] == Put(k, s.secondaries[b][k]);
    i := LogHistory(s0, trace, v + 1);
    RunsSplit(s0, trace, i);
    ReachableInv(s0, trace[..i]);
    ReplayLast(s.log[..v + 1], k);
  }

  /**
   Freshness: a secondary's key changes only by a background step. A delete job removes it; the task
   of put j writes the data of a write to that key that is not older than put j.
   */
  lemma BackgroundWritesAreFresh(n: nat, trace: seq<Action>, a: Action, b: nat, k: string)
    requires Runs(Init(n), trace) && Enabled(After(Init(n), trace), a) && b < n
    ensures var s := After(Init(n), trace);
            var s' := Next(s, a);
            && |s.secondaries| == |s'.secondaries| == n
            && (Lookup(s'.secondaries[b], k) != Lookup(s.secondaries[b], k) ==>
                  || (a.DeleteAt? && a.backend == b && s.log[a.job] == Delete(k) && k !in s'.secondaries[b])
                  || (&& a == Step(a.job, Broadcast.Finish(b))
                      && s.log[a.job].Put? && s.log[a.job].key == k
                      && exists v :: a.job <= v < |s.log| && k in s'.secondaries[b]
                                     && s.log[v] == Put(k, s'.secondaries[b][k])))
  {
    ReachableInv(Init(n), trace);
    var s := After(Init(n), trace);
    NextInv(s, a);
    if a.Step? {
      StepInv(s, a);
      assert JobInv(s, a.job);
    } else if a.DeleteAt? {
      assert JobInv(s, a.job);
    }
  }

  // ---------------------------------------------------------------- one sequential store

  datatype Reply = PutReply(etag: Result<string>) | DeleteReply(done: Result<()>) | GetReply(data: Result<Bytes>)

  predicate IsClient(a: Action) {
    a.ClientPut? || a.ClientDelete? || a.ClientGet?
  }

  /** What the client is told: a put answers with the primary's ETag, a get reads the primary. */
  function ReplyOf(etagOf: EtagFunction, s: State, a: Action): Reply
    requires IsClient(a)
  {
    match a
    case ClientPut(_, source, failure) =>
      PutReply(if source.fault.Some? then Err(source.fault.value)
               else if failure.Some? then Err(failure.value)
               else Ok(etagOf(Concat(source.chunks))))
    case ClientDelete(_, failure) => DeleteReply(if failure.Some? then Err(failure.value) else Ok(()))
    case ClientGet(k, failure) =>
      GetReply(if failure.Some? then Err(failure.value)
               else if k in s.primary then Ok(s.primary[k])
               else Err(NoSuchKey))
  }

  /**
   What each client request is answered and does: a put or delete that fails, or whose source fails, is
   answered with that error and writes nothing; a get reads what the last write to its key left.
   */
  lemma ClientSees(etagOf: EtagFunction, s: State, a: Action)
    requires Inv(s) && IsClient(a)
    ensures a.ClientPut? && a.source.fault.Some? ==>
              ReplyOf(etagOf, s, a) == PutReply(Err(a.source.fault.value)) && Next(s, a) == s
    ensures a.ClientPut? && a.source.fault.None? && a.failure.Some? ==>
              ReplyOf(etagOf, s, a) == PutReply(Err(a.failure.value)) && Next(s, a) == s
    ensures a.ClientPut? && a.source.fault.None? && a.failure.None? ==>
              && ReplyOf(etagOf, s, a) == PutReply(Ok(etagOf(Concat(a.source.chunks))))
              && Next(s, a).log == s.log + [Put(a.key, Concat(a.source.chunks))]
    ensures a.ClientDelete? && a.failure.Some? ==>
              ReplyOf(etagOf, s, a) == DeleteReply(Err(a.failure.value)) && Next(s, a) == s
    ensures a.ClientDelete? && a.failure.None? ==>
              ReplyOf(etagOf, s, a) == DeleteReply(Ok(())) && Next(s, a).log == s.log + [Delete(a.key)]
    ensures a.ClientGet? ==> Next(s, a) == s
    ensures a.ClientGet? && a.failure.Some? ==> ReplyOf(etagOf, s, a) == GetReply(Err(a.failure.value))
    ensures a.ClientGet? && a.failure.None? ==>
              var l := LastWrite(s.log, a.key);
              ReplyOf(etagOf, s, a) ==
              GetReply(if l >= 0 && s.log[l].Put? then Ok(s.log[l].data) else Err(NoSuchKey))
  {
    if a.ClientGet? {
      ReplayLast(s.log, a.key);
      assert Lookup(s.primary, a.key).Some? <==> a.key in s.primary;
    }
  }

  ghost function Replies(etagOf: EtagFunction, s: State, trace: seq<Action>): seq<Reply>
    requires Runs(s, trace)
    decreases |trace|
  {
    if trace == [] then []
    else
      (if IsClient(trace[0]) then [ReplyOf(etagOf, s, trace[0])] else [])
      + Replies(etagOf, Next(s, trace[0]), trace[1..])
  }

  function ClientActions(trace: seq<Action>): seq<Action> {
    if trace == [] then []
    else (if IsClient(trace[0]) then [trace[0]] else []) + ClientActions(trace[1..])
  }

  /** A sequential store, a single map, answering the same requests one after the other. */
  function Sequential(etagOf: EtagFunction, m: map<string, Bytes>, requests: seq<Action>): seq<Reply>
    decreases |requests|
  {
    if requests == [] then []
    else
      var rest := requests[1..];
      match requests[0]
      case ClientPut(k, Source(chunks, None), None) =>
        [PutReply(Ok(etagOf(Concat(chunks))))] + Sequential(etagOf, m[k := Concat(chunks)], rest)
      case ClientPut(_, Source(_, Some(e)), _) => [PutReply(Err(e))] + Sequential(etagOf, m, rest)
      case ClientPut(_, _, Some(e)) => [PutReply(Err(e))] + Sequential(etagOf, m, rest)
      case ClientDelete(k, None) => [DeleteReply(Ok(()))] + Sequential(etagOf, m - {k}, rest)
      case ClientDelete(_, Some(e)) => [DeleteReply(Err(e))] + Sequential(etagOf, m, rest)
      case ClientGet(k, None) =>
        [GetReply(if k in m then Ok(m[k]) else Err(NoSuchKey))] + Sequential(etagOf, m, rest)
      case ClientGet(_, Some(e)) => [GetReply(Err(e))] + Sequential(etagOf, m, rest)
      case _ => Sequential(etagOf, m, rest)
  }

  /** Background steps do not touch the primary, so every interleaving refines a single store. */
  lemma {:induction false} RefinesSequentialStore(etagOf: EtagFunction, s: State, trace: seq<Action>)
    requires Runs(s, trace)
    ensures Replies(etagOf, s, trace) == Sequential(etagOf, s.primary, ClientActions(trace))
    decreases |trace|
  {
    if trace != [] {
      var a, rest := trace[0], trace[1..];
      RefinesSequentialStore(etagOf, Next(s, a), rest);
      assert ClientActions(trace) == (if IsClient(a) then [a] else []) + ClientActions(rest);
      if IsClient(a) {
        assert ClientActions(trace)[0] == a && ClientActions(trace)[1..] == ClientActions(rest);
      } else {
        assert [] + ClientActions(rest) == ClientActions(rest);
      }
    }
  }
}
