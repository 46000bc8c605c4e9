/**
 The put in its own imperative form: the producer loops of the broadcast over channels and tasks
 that are updated in place, and the loop that collects the backends' ETags.
 Every atomic step is a step of the protocol in module Broadcast.
 */
module PutObject {
  import opened Types
  import opened Sequences
  import opened Broadcast
  import opened BroadcastProgress
  import opened InMemoryStorage

  /** What put_object returned on the backend of a task that ended. */
  function TaskResult(etagOf: EtagFunction, t: Task): Result<string>
    requires !t.status.Open?
  {
    match t.status
    case Stored => Ok(etagOf(Concat(t.consumed)))
    case Failed(e) => Err(e)
  }

  /**
   A task that does not give up is a run of the in-memory put_object on the source's stream:
   whatever the schedule, it ends with the result that draining the stream gives.
   */
  lemma TaskRunsPutObject(etagOf: EtagFunction, source: Source, n: nat, trace: seq<Action>, i: nat)
    requires Runs(Init(source, n), trace) && Finished(After(Init(source, n), trace)) && i < n
    requires !GaveUp(trace, i)
    ensures |After(Init(source, n), trace).tasks| == n
    ensures var r := TaskResult(etagOf, After(Init(source, n), trace).tasks[i]);
            match Drain(BodyOf(source))
            case Ok(data) => r == Ok(etagOf(data))
            case Err(e) => r == Err(e)
  {
    FinishedOutcome(source, n, trace, i);
    DrainSource(source);
  }

  /** The environment: which task steps happen at each await of the producer, and the clock. */
  datatype Environment = Environment(schedule: nat -> seq<Action>, clock: nat -> int)

  /** The environment has the step happen at some await: for an Abort, the backend raised this error. */
  ghost predicate Raised(env: Environment, a: Action) {
    exists t: nat, k: nat :: k < |env.schedule(t)| && env.schedule(t)[k] == a
  }

  /** The object carries a time that the environment's clock has shown. */
  ghost predicate Stamped(env: Environment, store: Store, key: string) {
    key in store && exists t: nat :: store[key].metadata.lastModified == env.clock(t)
  }

  ghost function StoresOf(backends: seq<InMemoryStorage>): (r: seq<Store>)
    reads backends
    ensures |r| == |backends| && forall i :: 0 <= i < |r| ==> r[i] == backends[i].objects
  {
    if backends == [] then []
    else StoresOf(backends[..|backends| - 1]) + [backends[|backends| - 1].objects]
  }

  class BroadcastRun {
    const key: string
    const source: Source
    const backends: seq<InMemoryStorage>
    const tasks: array<Task>
    const env: Environment
    var taken: nat
    var phase: Phase
    var turn: nat
    ghost var trace: seq<Action>
    ghost const before: seq<Store>

    function Snapshot(): State
      reads this, tasks
    {
      State(source, taken, phase, tasks[..])
    }

    /** A backend changes only when its task has stored, and then it holds the whole source. */
    ghost predicate Holds(i: nat)
      requires i < |backends| == |before| == tasks.Length
      reads this, tasks, backends[i]
    {
      && backends[i].Valid()
      && (!tasks[i].status.Stored? ==> backends[i].objects == before[i])
      && (tasks[i].status.Stored? ==>
            && Stamped(env, backends[i].objects, key)
            && forall k :: DataAt(backends[i].objects, k) ==
                           if k == key then Some(Concat(source.chunks)) else DataAt(before[i], k))
    }

    ghost predicate Valid()
      reads this, tasks, backends
    {
      && Distinct(backends)
      && |backends| == |before| == tasks.Length
      && Runs(Init(source, |backends|), trace)
      && Snapshot() == After(Init(source, |backends|), trace)
      && (forall i :: 0 <= i < |backends| ==> Holds(i))
      && (forall a :: a in trace && a.Abort? ==> Raised(env, a))
    }

    constructor (key: string, source: Source, backends: seq<InMemoryStorage>, env: Environment)
      requires Distinct(backends)
      requires forall i :: 0 <= i < |backends| ==> backends[i].Valid()
      ensures Valid() && fresh(tasks)
      ensures Snapshot() == Init(source, |backends|)
      ensures this.key == key && this.source == source && this.backends == backends && this.env == env
      ensures before == StoresOf(backends)
    {
      this.key := key;
      this.source := source;
      this.backends := backends;
      this.env := env;
      tasks := new Task[|backends|](_ => Task([], [], Open));
      taken, phase, turn := 0, Sending(|backends|), 0;
      trace := [];
      before := StoresOf(backends);
      new;
      assert tasks[..] == seq(|backends|, i => Task([], [], Open));
    }

    lemma ValidInv()
      requires Valid()
      ensures Inv(Snapshot())
    {
      InitInv(source, |backends|);
      ReachableInv(Init(source, |backends|), trace);
    }

    lemma TraceStep(a: Action)
      requires Valid() && Enabled(Snapshot(), a)
      ensures Runs(Init(source, |backends|), trace + [a])
      ensures After(Init(source, |backends|), trace + [a]) == Next(Snapshot(), a)
    {
      RunsAppend(Init(source, |backends|), trace, [a]);
    }

    /** What the backends hold, and the tasks returned, when the broadcast has returned. */
    lemma AtReturn(i: nat)
      requires Valid() && Returned(Snapshot()) && i < |backends|
      ensures backends[i].Valid()
      ensures source.fault.Some? ==> backends[i].objects == before[i]
      ensures source.fault.None? ==>
                && !tasks[i].status.Open?
                && (tasks[i].status.Stored? ==>
                      TaskResult(backends[i].etagOf, tasks[i]) == Ok(backends[i].etagOf(Concat(source.chunks))))
                && (tasks[i].status.Stored? ==> Stamped(env, backends[i].objects, key))
                && (tasks[i].status.Failed? ==>
                      && TaskResult(backends[i].etagOf, tasks[i]) == Err(tasks[i].status.error)
                      && Raised(env, Abort(i, tasks[i].status.error)))
      ensures if tasks[i].status.Stored? then
                forall k :: DataAt(backends[i].objects, k) ==
                            if k == key then Some(Concat(source.chunks)) else DataAt(before[i], k)
              else backends[i].objects == before[i]
    {
      ValidInv();
      InitInv(source, |backends|);
      FailureCause(Init(source, |backends|), trace, i);
      assert TaskInv(Snapshot(), i);
      assert Holds(i);
    }

    /** The producer's steps: reading the stream, sending one item, awaiting one task. */
    method Produce(a: Action)
      requires Valid() && Enabled(Snapshot(), a) && (a.Pull? || a.Send? || a.Join?)
      modifies this, tasks
      ensures Valid() && Snapshot() == Next(old(Snapshot()), a) && trace == old(trace) + [a]
    {
      ValidInv();
      TraceStep(a);
      match a {
        case Pull =>
          if taken < |source.chunks| {
            taken, phase := taken + 1, Sending(0);
          } else if source.fault.Some? {
            phase := Forwarding(0);
          } else {
            phase := Joining(0);
          }
        case Send =>
          var i := phase.next;
          if tasks[i].status.Open? {
            var item := if phase.Sending? then Chunk(source.chunks[taken - 1]) else Fault(source.fault.value);
            tasks[i] := tasks[i].(queue := tasks[i].queue + [item]);
          }
          phase := if phase.Sending? then Sending(i + 1) else Forwarding(i + 1);
        case Join =>
          phase := Joining(phase.next + 1);
      }
      trace := trace + [a];
      forall j | 0 <= j < |backends| ensures Holds(j) {
        assert old(Holds(j));
      }
    }

    /** A task's step that leaves its backend alone. */
    method Consume(a: Action)
      requires Valid() && Enabled(Snapshot(), a) && (a.Receive? || (a.Abort? && Raised(env, a)))
      modifies this`trace, tasks
      ensures Valid() && Snapshot() == Next(old(Snapshot()), a) && trace == old(trace) + [a]
    {
      TraceStep(a);
      var i := a.task;
      tasks[i] := if a.Receive? then Receiving(tasks[i])
                  else tasks[i].(queue := [], status := Failed(a.error));
      trace := trace + [a];
      forall j | 0 <= j < |backends| ensures Holds(j) {
        assert old(Holds(j));
      }
    }

    /** End of stream: put_object inserts the object it has drained. */
    method Store(i: nat)
      requires Valid() && Enabled(Snapshot(), Finish(i))
      modifies this`trace, tasks, backends[i]
      ensures Valid() && Snapshot() == Next(old(Snapshot()), Finish(i)) && trace == old(trace) + [Finish(i)]
    {
      ValidInv();
      TraceStep(Finish(i));
      FinishKeepsTask(Snapshot(), i);
      assert Holds(i);
      tasks[i] := tasks[i].(status := Stored);
      var _ := backends[i].Insert(key, Concat(tasks[i].consumed), env.clock(turn));
      trace := trace + [Finish(i)];
      forall j | 0 <= j < |backends| ensures Holds(j) {
        assert old(Holds(j));
        assert j == i || backends[j] != backends[i];
      }
    }

    method Take(a: Action)
      requires Valid() && Enabled(Snapshot(), a) && (a.Abort? ==> Raised(env, a))
      modifies this, tasks, backends
      ensures Valid() && Snapshot() == Next(old(Snapshot()), a) && trace == old(trace) + [a]
    {
      if a.Finish? {
        Store(a.task);
      } else if a.Receive? || a.Abort? {
        Consume(a);
      } else {
        Produce(a);
      }
    }

    /** A task's step, if the task can take it now. */
    method TakeIfReady(a: Action)
      requires Valid() && Raised(env, a)
      modifies this, tasks, backends
      ensures Valid() && taken == old(taken) && phase == old(phase)
      ensures forall i :: 0 <= i < tasks.Length && !old(tasks[i].status.Open?) ==> tasks[i] == old(tasks[i])
    {
      if (a.Receive? || a.Finish? || a.Abort?) && Enabled(Snapshot(), a) {
        Take(a);
      }
    }

    /** Tasks run while the producer awaits: any of their steps, as the schedule has it. */
    method Yield()
      requires Valid()
      modifies this, tasks, backends
      ensures Valid() && taken == old(taken) && phase == old(phase)
      ensures forall i :: 0 <= i < tasks.Length && !old(tasks[i].status.Open?) ==> tasks[i] == old(tasks[i])
    {
      var steps := env.schedule(turn);
      for k := 0 to |steps|
        invariant Valid() && taken == old(taken) && phase == old(phase)
        invariant forall i :: 0 <= i < tasks.Length && !old(tasks[i].status.Open?) ==> tasks[i] == old(tasks[i])
      {
        TakeIfReady(steps[k]);
      }
      Tick();
    }

    method Tick()
      requires Valid()
      modifies this`turn
      ensures Valid()
    {
      turn := turn + 1;
      forall i | 0 <= i < |backends| ensures Holds(i) {
        assert old(Holds(i));
      }
    }

    /** sender.send(item).await: it waits for room in the channel, or for its receiver to go away. */
    method Transmit()
      requires Valid() && !phase.Joining? && phase.next < tasks.Length
      modifies this, tasks, backends
      ensures Valid() && taken == old(taken)
      ensures phase == if old(phase).Sending? then Sending(old(phase).next + 1) else Forwarding(old(phase).next + 1)
    {
      Yield();
      var i := phase.next;
      while tasks[i].status.Open? && |tasks[i].queue| >= CAPACITY
        invariant Valid() && taken == old(taken) && phase == old(phase)
        decreases |tasks[i].queue|
      {
        Take(Receive(i));
      }
      ValidInv();
      Take(Send);
    }

    /** task.await */
    method Await() returns (result: Result<string>)
      requires Valid() && phase.Joining? && phase.next < tasks.Length
      modifies this, tasks, backends
      ensures Valid() && phase == Joining(old(phase).next + 1)
      ensures !tasks[old(phase).next].status.Open?
      ensures result == TaskResult(backends[old(phase).next].etagOf, tasks[old(phase).next])
      ensures forall i :: 0 <= i < tasks.Length && !old(tasks[i].status.Open?) ==> tasks[i] == old(tasks[i])
    {
      Yield();
      var i := phase.next;
      while tasks[i].status.Open?
        invariant Valid() && phase == old(phase)
        invariant forall j :: 0 <= j < tasks.Length && !old(tasks[j].status.Open?) ==> tasks[j] == old(tasks[j])
        decreases tasks[i].status.Open?, |tasks[i].queue|
      {
        if tasks[i].queue != [] {
          Take(Receive(i));
        } else {
          Take(Finish(i));
        }
      }
      result := TaskResult(backends[i].etagOf, tasks[i]);
      Take(Join);
    }

    /**
     The broadcast: it returns the source's error if there is one, and otherwise what each
     backend's put_object returned, in the order of the backends: the ETag of the whole source, or an
     error that this very backend raised.
     */
    method BroadcastStream() returns (r: Result<seq<Result<string>>>)
      requires Valid() && Snapshot() == Init(source, |backends|)
      modifies this, tasks, backends
      ensures Valid() && Returned(Snapshot())
      ensures source.fault.Some? ==> r == Err(source.fault.value)
      ensures source.fault.None? ==>
                && r.Ok? && |r.value| == tasks.Length && Finished(Snapshot())
                && (forall i :: 0 <= i < tasks.Length ==> r.value[i] == TaskResult(backends[i].etagOf, tasks[i]))
                && forall i :: 0 <= i < tasks.Length ==>
                     && (r.value[i].Ok? ==> r.value[i].value == backends[i].etagOf(Concat(source.chunks)))
                     && (r.value[i].Err? ==> Raised(env, Abort(i, r.value[i].error)))
    {
      while taken < |source.chunks|
        invariant Valid() && phase == Sending(tasks.Length) && taken <= |source.chunks|
      {
        Take(Pull);
        var chunk := taken;
        for i := 0 to tasks.Length
          invariant Valid() && phase == Sending(i) && taken == chunk
        {
          Transmit();
        }
      }
      Take(Pull);
      if source.fault.Some? {
        for i := 0 to tasks.Length
          invariant Valid() && phase == Forwarding(i)
        {
          Transmit();
        }
        return Err(source.fault.value);
      }
      var results: seq<Result<string>> := [];
      for i := 0 to tasks.Length
        invariant Valid() && phase == Joining(i) && |results| == i
        invariant forall j :: 0 <= j < i ==>
                    !tasks[j].status.Open? && results[j] == TaskResult(backends[j].etagOf, tasks[j])
      {
        var result := Await();
        results := results + [result];
      }
      forall i | 0 <= i < tasks.Length
        ensures results[i].Ok? ==> results[i].value == backends[i].etagOf(Concat(source.chunks))
        ensures results[i].Err? ==> Raised(env, Abort(i, results[i].error))
      {
        AtReturn(i);
      }
      r := Ok(results);
    }
  }

  /** The first failing result at or after i. */
  function FirstErr(results: seq<Result<string>>, i: nat): (r: nat)
    requires i <= |results|
    ensures i <= r <= |results|
    ensures forall j :: i <= j < r ==> results[j].Ok?
    ensures r < |results| ==> results[r].Err?
    decreases |results| - i
  {
    if i == |results| || results[i].Err? then i else FirstErr(results, i + 1)
  }

  function Collected(results: seq<Result<string>>, primary: nat): Result<string>
    requires primary < |results|
  {
    var i := FirstErr(results, 0);
    if i < |results| then Err(InternalError(PutFailedAt(i, results[i].error))) else results[primary]
  }

  /** The loop over the results of a multi-sync put: every backend's ETag, or the first failure. */
  method CollectEtags(results: seq<Result<string>>, primary: nat) returns (r: Result<string>)
    requires primary < |results|
    ensures r == Collected(results, primary)
    ensures r.Ok? <==> forall i :: 0 <= i < |results| ==> results[i].Ok?
    ensures r.Ok? ==> r.value == results[primary].value
    ensures r.Err? ==>
              exists i :: 0 <= i < |results| && results[i].Err?
                          && (forall j :: 0 <= j < i ==> results[j].Ok?)
                          && r.error == InternalError(PutFailedAt(i, results[i].error))
  {
    var etags := new string[|results|](_ => "");
    for i := 0 to |results|
      invariant forall j :: 0 <= j < i ==> results[j].Ok? && etags[j] == results[j].value
    {
      match results[i] {
        case Ok(etag) => etags[i] := etag;
        case Err(e) => return Err(InternalError(PutFailedAt(i, e)));
      }
    }
    r := Ok(etags[primary]);
  }

  /** The broadcast of one stream to in-memory backends, and what it leaves on each of them. */
  method BroadcastStreamToBackends(key: string, source: Source, backends: seq<InMemoryStorage>, env: Environment)
    returns (r: Result<seq<Result<string>>>)
    requires Distinct(backends)
    requires forall i :: 0 <= i < |backends| ==> backends[i].Valid()
    modifies backends
    ensures forall i :: 0 <= i < |backends| ==> backends[i].Valid()
    ensures source.fault.Some? ==>
              && r == Err(source.fault.value)
              && forall i :: 0 <= i < |backends| ==> backends[i].objects == old(backends[i].objects)
    ensures source.fault.None? ==> r.Ok? && |r.value| == |backends|
    ensures r.Ok? ==> forall i :: 0 <= i < |backends| && i < |r.value| && r.value[i].Ok? ==>
              && r.value[i].value == backends[i].etagOf(Concat(source.chunks))
              && Stamped(env, backends[i].objects, key)
              && forall k :: DataAt(backends[i].objects, k) ==
                   if k == key then Some(Concat(source.chunks)) else old(DataAt(backends[i].objects, k))
    ensures r.Ok? ==> forall i :: 0 <= i < |backends| && i < |r.value| && r.value[i].Err? ==>
              && backends[i].objects == old(backends[i].objects)
              && Raised(env, Abort(i, r.value[i].error))
  {
    var run := new BroadcastRun(key, source, backends, env);
    r := run.BroadcastStream();
    forall i | 0 <= i < |backends|
      ensures backends[i].Valid()
      ensures source.fault.Some? ==> backends[i].objects == old(backends[i].objects)
      ensures r.Ok? && r.value[i].Ok? ==>
                && Stamped(env, backends[i].objects, key)
                && forall k :: DataAt(backends[i].objects, k) ==
                     if k == key then Some(Concat(source.chunks)) else old(DataAt(backends[i].objects, k))
      ensures r.Ok? && r.value[i].Err? ==> backends[i].objects == old(backends[i].objects)
    {
      run.AtReturn(i);
    }
  }

  /**
   A multi-sync put on in-memory backends. Ok: every backend holds the concatenated chunks and
   the ETag is theirs. A source error leaves every backend as it was. A backend that fails is named with
   the error it raised and is not undone on the others: each backend holds the new object or nothing of it.
   */
  method PutObjectMultiSync(key: string, source: Source, backends: seq<InMemoryStorage>, primary: nat,
                            env: Environment)
    returns (r: Result<string>)
    requires Distinct(backends) && primary < |backends|
    requires forall i :: 0 <= i < |backends| ==> backends[i].Valid()
    requires forall i :: 0 <= i < |backends| ==> backends[i].etagOf == backends[primary].etagOf
    modifies backends
    ensures forall i :: 0 <= i < |backends| ==> backends[i].Valid()
    ensures r.Ok? ==>
              && source.fault.None?
              && r.value == backends[primary].etagOf(Concat(source.chunks))
              && (forall i :: 0 <= i < |backends| ==>
                    && key in backends[i].objects
                    && exists t: nat :: backends[i].objects[key].metadata.lastModified == env.clock(t))
              && forall i, k :: 0 <= i < |backends| ==>
                   DataAt(backends[i].objects, k) ==
                   if k == key then Some(Concat(source.chunks)) else old(DataAt(backends[i].objects, k))
    ensures source.fault.Some? ==>
              && r == Err(source.fault.value)
              && forall i :: 0 <= i < |backends| ==> backends[i].objects == old(backends[i].objects)
    ensures source.fault.None? && r.Err? ==>
              && r.error.InternalError? && r.error.cause.PutFailedAt? && r.error.cause.backend < |backends|
              && backends[r.error.cause.backend].objects == old(backends[r.error.cause.backend].objects)
              && exists t: nat, k: nat :: k < |env.schedule(t)|
                                          && env.schedule(t)[k] == Abort(r.error.cause.backend, r.error.cause.reason)
    ensures forall i, k :: 0 <= i < |backends| ==>
              || DataAt(backends[i].objects, k) == old(DataAt(backends[i].objects, k))
              || (k == key && DataAt(backends[i].objects, k) == Some(Concat(source.chunks)))
  {
    var outcome := BroadcastStreamToBackends(key, source, backends, env);
    match outcome {
      case Err(e) => r := Err(e);
      case Ok(results) => r := CollectEtags(results, primary);
    }
  }
}
