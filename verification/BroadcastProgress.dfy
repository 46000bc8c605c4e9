/**
 What the broadcast protocol guarantees over whole runs: it never deadlocks, it always ends,
 its buffers and the gap between backends stay bounded, and its tasks end as they should.
 */
module BroadcastProgress {
  import opened Types
  import opened Broadcast

  // ---------------------------------------------------------------- bounds

  function Queued(tasks: seq<Task>): nat {
    if tasks == [] then 0 else |tasks[0].queue| + Queued(tasks[1..])
  }

  lemma {:induction false} QueuedBound(tasks: seq<Task>)
    requires forall i :: 0 <= i < |tasks| ==> |tasks[i].queue| <= CAPACITY
    ensures Queued(tasks) <= CAPACITY * |tasks|
  {
    if tasks != [] {
      QueuedBound(tasks[1..]);
    }
  }

  lemma MemoryBound(source: Source, n: nat, trace: seq<Action>)
    requires Runs(Init(source, n), trace)
    ensures Queued(After(Init(source, n), trace).tasks) <= 256 * n
  {
    InitInv(source, n);
    ReachableInv(Init(source, n), trace);
    var s := After(Init(source, n), trace);
    forall i | 0 <= i < |s.tasks| ensures |s.tasks[i].queue| <= CAPACITY {
      assert TaskInv(s, i);
    }
    QueuedBound(s.tasks);
  }

  /** An open task has consumed what was sent to it, less what its channel holds. */
  lemma OpenConsumed(s: State, i: nat)
    requires Inv(s) && IsOpen(s, i)
    ensures |s.tasks[i].consumed| + |s.tasks[i].queue| == SentCount(s, i)
    ensures |s.tasks[i].queue| <= CAPACITY
  {
    assert TaskInv(s, i);
    assert |AsItems(s.tasks[i].consumed) + s.tasks[i].queue| == SentCount(s, i);
  }

  /** While the source still delivers, one open backend is never more than 257 chunks ahead. */
  lemma SkewBound(source: Source, n: nat, trace: seq<Action>, i: nat, j: nat)
    requires Runs(Init(source, n), trace)
    requires IsOpen(After(Init(source, n), trace), i) && IsOpen(After(Init(source, n), trace), j)
    ensures var tasks := After(Init(source, n), trace).tasks;
            |tasks[i].consumed| <= |tasks[j].consumed| + 257
  {
    InitInv(source, n);
    ReachableInv(Init(source, n), trace);
    OpenConsumed(After(Init(source, n), trace), i);
    OpenConsumed(After(Init(source, n), trace), j);
  }

  // ---------------------------------------------------------------- the bounds are reached

  /** No backend has received anything; chunk m goes to sender i next. */
  function Filled(source: Source, n: nat, m: nat, i: nat): (r: State)
    requires 0 < m <= |source.chunks|
    ensures |r.tasks| == n
    ensures forall j :: 0 <= j < n ==>
              r.tasks[j] == Task(AsItems(source.chunks[..if j < i then m else m - 1]), [], Open)
  {
    State(source, m, Sending(i), seq(n, j => Task(AsItems(source.chunks[..if j < i then m else m - 1]), [], Open)))
  }

  lemma FillOne(source: Source, n: nat, m: nat, i: nat)
    requires 0 < m <= |source.chunks| && m <= CAPACITY && i < n
    ensures Enabled(Filled(source, n, m, i), Send) && Next(Filled(source, n, m, i), Send) == Filled(source, n, m, i + 1)
  {
    var chunks := source.chunks;
    assert AsItems(chunks[..m - 1]) + [Chunk(chunks[m - 1])] == AsItems(chunks[..m]);
  }

  lemma {:induction false} FillRound(source: Source, n: nat, m: nat, i: nat) returns (trace: seq<Action>)
    requires 0 < m <= |source.chunks| && m <= CAPACITY && i <= n
    ensures Runs(Filled(source, n, m, i), trace) && After(Filled(source, n, m, i), trace) == Filled(source, n, m, n)
    decreases n - i
  {
    trace := [];
    if i < n {
      FillOne(source, n, m, i);
      var rest := FillRound(source, n, m, i + 1);
      trace := [Send] + rest;
      assert trace[1..] == rest;
    }
  }

  lemma {:induction false} Fill(source: Source, n: nat, m: nat) returns (trace: seq<Action>)
    requires 0 < m <= |source.chunks| && m <= CAPACITY
    ensures Runs(Init(source, n), trace) && After(Init(source, n), trace) == Filled(source, n, m, n)
    decreases m
  {
    var before: seq<Action> := [];
    var s := Init(source, n);
    if m > 1 {
      before := Fill(source, n, m - 1);
      s := Filled(source, n, m - 1, n);
    }
    assert Next(s, Pull).tasks == Filled(source, n, m, 0).tasks;
    var round := FillRound(source, n, m, 0);
    assert ([Pull] + round)[1..] == round;
    RunsAppend(Init(source, n), before, [Pull] + round);
    trace := before + ([Pull] + round);
  }

  lemma {:induction false} QueuedAll(tasks: seq<Task>, m: nat)
    requires forall i :: 0 <= i < |tasks| ==> |tasks[i].queue| == m
    ensures Queued(tasks) == m * |tasks|
  {
    if tasks != [] {
      QueuedAll(tasks[1..], m);
    }
  }

  /** With enough chunks some schedule has all channels hold 256 of them. */
  lemma MemoryReached(source: Source, n: nat) returns (trace: seq<Action>)
    requires |source.chunks| >= 256
    ensures Runs(Init(source, n), trace) && Queued(After(Init(source, n), trace).tasks) == 256 * n
  {
    trace := Fill(source, n, 256);
    QueuedAll(Filled(source, n, 256, n).tasks, 256);
  }

  /** A task whose channel holds only chunks can receive them all. */
  lemma {:induction false} ReceiveAll(s: State, i: nat) returns (trace: seq<Action>)
    requires IsOpen(s, i) && forall k :: 0 <= k < |s.tasks[i].queue| ==> s.tasks[i].queue[k].Chunk?
    ensures Runs(s, trace)
    ensures var t := After(s, trace);
            && |t.tasks| == |s.tasks| && t.tasks[i].status.Open? && t.tasks[i].queue == []
            && |t.tasks[i].consumed| == |s.tasks[i].consumed| + |s.tasks[i].queue|
            && t.tasks == s.tasks[i := t.tasks[i]]
            && t.source == s.source && t.taken == s.taken && t.phase == s.phase
    decreases |s.tasks[i].queue|
  {
    trace := [];
    if s.tasks[i].queue != [] {
      var rest := ReceiveAll(Next(s, Receive(i)), i);
      trace := [Receive(i)] + rest;
      assert trace[1..] == rest;
    }
  }

  /** With enough chunks and two backends some schedule has one of them 257 chunks ahead. */
  lemma SkewReached(source: Source, n: nat) returns (trace: seq<Action>)
    requires |source.chunks| >= 257 && n >= 2
    ensures Runs(Init(source, n), trace)
    ensures var s := After(Init(source, n), trace);
            && IsOpen(s, 0) && IsOpen(s, 1)
            && |s.tasks[0].consumed| == |s.tasks[1].consumed| + 257
  {
    var fill := Fill(source, n, 256);
    var s1 := Filled(source, n, 256, n);
    var drain := ReceiveAll(s1, 0);
    var s2 := After(s1, drain);
    var s3 := Next(s2, Pull);
    var s4 := Next(s3, Send);
    var last := [Pull, Send, Receive(0)];
    assert last[1..] == [Send, Receive(0)] && last[1..][1..] == [Receive(0)] && [Receive(0)][1..] == [];
    assert s4.tasks[0].queue == [Chunk(source.chunks[256])];
    assert Runs(s4, [Receive(0)]) && Runs(s3, last[1..]) && Runs(s2, last);
    assert After(s2, last) == After(s3, last[1..]) == After(s4, [Receive(0)]) == Next(s4, Receive(0));
    RunsAppend(s1, drain, last);
    RunsAppend(Init(source, n), fill, drain + last);
    trace := fill + (drain + last);
  }

  // ---------------------------------------------------------------- progress

  /** A step that some schedule can take now, without any backend giving up. */
  function Runnable(s: State): Option<Action> {
    if s.phase.Sending? && s.phase.next == |s.tasks| then Some(Pull)
    else if Enabled(s, Send) then Some(Send)
    else if s.phase.next < |s.tasks| && IsOpen(s, s.phase.next) then RunnableTask(s, s.phase.next)
    else if Enabled(s, Join) then Some(Join)
    else FirstOpenTask(s, 0)
  }

  function RunnableTask(s: State, i: nat): Option<Action>
    requires IsOpen(s, i)
  {
    if s.tasks[i].queue != [] then Some(Receive(i)) else Some(Finish(i))
  }

  function FirstOpenTask(s: State, i: nat): (r: Option<Action>)
    requires i <= |s.tasks|
    ensures r.None? ==> forall j :: i <= j < |s.tasks| ==> !s.tasks[j].status.Open?
    ensures r.Some? && Closed(s) ==> Enabled(s, r.value) && !r.value.Abort?
    decreases |s.tasks| - i
  {
    if i == |s.tasks| then None
    else if IsOpen(s, i) then RunnableTask(s, i)
    else FirstOpenTask(s, i + 1)
  }

  /** No reachable state is stuck: until everything has finished, some step is enabled. */
  lemma NeverStuck(s: State)
    requires Inv(s)
    ensures Runnable(s).None? <==> Finished(s)
    ensures Runnable(s).Some? ==> Enabled(s, Runnable(s).value) && !Runnable(s).value.Abort?
  {
    if s.phase.next < |s.tasks| {
      assert TaskInv(s, s.phase.next);
    }
  }

  // ---------------------------------------------------------------- termination

  function TaskWork(tasks: seq<Task>): nat {
    if tasks == [] then 0
    else (if tasks[0].status.Open? then 1 + |tasks[0].queue| else 0) + TaskWork(tasks[1..])
  }

  lemma {:induction false} TaskWorkUpdate(tasks: seq<Task>, i: nat, t: Task)
    requires i < |tasks|
    ensures TaskWork(tasks[i := t]) ==
            TaskWork(tasks)
            - (if tasks[i].status.Open? then 1 + |tasks[i].queue| else 0)
            + (if t.status.Open? then 1 + |t.queue| else 0)
  {
    if i == 0 {
      assert tasks[0 := t][1..] == tasks[1..];
    } else {
      assert tasks[i := t][1..] == tasks[1..][i - 1 := t];
      TaskWorkUpdate(tasks[1..], i - 1, t);
    }
  }

  /** Steps left to the producer, a send counted twice because it gives its receiver one more. */
  function ProducerWork(s: State): nat
    requires ProducerInv(s)
  {
    var n := |s.tasks|;
    match s.phase
    case Sending(i) => (|s.source.chunks| - s.taken + 1) * (2 * n + 1) + 2 * (n - i)
    case Forwarding(i) => 2 * (n - i)
    case Joining(i) => n - i
  }

  function Measure(s: State): nat
    requires ProducerInv(s)
  {
    ProducerWork(s) + TaskWork(s.tasks)
  }

  lemma PullWork(s: State)
    requires Inv(s) && Enabled(s, Pull)
    ensures ProducerWork(Next(s, Pull)) < ProducerWork(s)
  {
    var n, left := |s.tasks|, |s.source.chunks| - s.taken;
    assert (left + 1) * (2 * n + 1) == left * (2 * n + 1) + (2 * n + 1);
  }

  /** Every step of every schedule brings the end nearer. */
  lemma MeasureFalls(s: State, a: Action)
    requires Inv(s) && Enabled(s, a)
    ensures Inv(Next(s, a)) && Measure(Next(s, a)) < Measure(s)
  {
    NextInv(s, a);
    match a
    case Pull => PullWork(s);
    case Send =>
      var i := s.phase.next;
      TaskWorkUpdate(s.tasks, i, s.tasks[i].(queue := s.tasks[i].queue + [InHand(s)]));
    case Join =>
    case Receive(i) => TaskWorkUpdate(s.tasks, i, Receiving(s.tasks[i]));
    case Finish(i) => TaskWorkUpdate(s.tasks, i, s.tasks[i].(status := Stored));
    case Abort(i, e) => TaskWorkUpdate(s.tasks, i, s.tasks[i].(queue := [], status := Failed(e)));
  }

  lemma {:induction false} RunLength(s: State, trace: seq<Action>)
    requires Inv(s) && Runs(s, trace)
    ensures Inv(After(s, trace)) && |trace| + Measure(After(s, trace)) <= Measure(s)
    decreases |trace|
  {
    if trace != [] {
      MeasureFalls(s, trace[0]);
      RunLength(Next(s, trace[0]), trace[1..]);
    }
  }

  lemma {:induction false} TaskWorkOfNew(n: nat)
    ensures TaskWork(seq(n, i => Task([], [], Open))) == n
  {
    if n > 0 {
      TaskWorkOfNew(n - 1);
      assert seq(n, i => Task([], [], Open))[1..] == seq(n - 1, i => Task([], [], Open));
    }
  }

  /** No schedule runs longer than this many steps. */
  lemma EveryRunEnds(source: Source, n: nat, trace: seq<Action>)
    requires Runs(Init(source, n), trace)
    ensures |trace| <= (|source.chunks| + 1) * (2 * n + 1) + n
  {
    InitInv(source, n);
    TaskWorkOfNew(n);
    RunLength(Init(source, n), trace);
  }

  /** Whatever happened so far, the broadcast can finish with no further backend giving up. */
  lemma {:induction false} CanFinish(s: State) returns (trace: seq<Action>)
    requires Inv(s)
    ensures Runs(s, trace) && Finished(After(s, trace))
    ensures forall a :: a in trace ==> !a.Abort?
    decreases Measure(s)
  {
    NeverStuck(s);
    if Runnable(s).None? {
      trace := [];
    } else {
      var a := Runnable(s).value;
      MeasureFalls(s, a);
      var rest := CanFinish(Next(s, a));
      trace := [a] + rest;
      assert trace[1..] == rest;
    }
  }

  // ---------------------------------------------------------------- outcomes

  ghost predicate GaveUp(trace: seq<Action>, i: nat) {
    exists k :: 0 <= k < |trace| && trace[k].Abort? && trace[k].task == i
  }

  lemma GaveUpTail(trace: seq<Action>, i: nat)
    requires trace != []
    ensures GaveUp(trace, i) <==> (trace[0].Abort? && trace[0].task == i) || GaveUp(trace[1..], i)
  {
    if GaveUp(trace, i) && !(trace[0].Abort? && trace[0].task == i) {
      var k :| 0 <= k < |trace| && trace[k].Abort? && trace[k].task == i;
      assert trace[1..][k - 1] == trace[k];
    }
    if GaveUp(trace[1..], i) {
      var k :| 0 <= k < |trace[1..]| && trace[1..][k].Abort? && trace[1..][k].task == i;
      assert trace[k + 1] == trace[1..][k];
    }
  }

  /** A task that has ended stays as it is. */
  lemma {:induction false} EndedStays(s: State, trace: seq<Action>, i: nat)
    requires Runs(s, trace) && i < |s.tasks| && !s.tasks[i].status.Open?
    ensures |After(s, trace).tasks| == |s.tasks| && After(s, trace).tasks[i] == s.tasks[i]
    ensures !GaveUp(trace, i)
    decreases |trace|
  {
    if trace != [] {
      EndedStays(Next(s, trace[0]), trace[1..], i);
      GaveUpTail(trace, i);
    }
  }

  /** An open task fails exactly with the error it gives up with, or with the source's own that reaches it. */
  lemma {:induction false} FailureCause(s: State, trace: seq<Action>, i: nat)
    requires Inv(s) && Runs(s, trace) && i < |s.tasks| && s.tasks[i].status.Open?
    ensures |After(s, trace).tasks| == |s.tasks|
    ensures var t := After(s, trace).tasks[i];
            && (forall k :: 0 <= k < |trace| && trace[k].Abort? && trace[k].task == i ==>
                              t.status == Failed(trace[k].error))
            && (t.status.Failed? ==>
                  || (exists k :: 0 <= k < |trace| && trace[k] == Abort(i, t.status.error))
                  || s.source.fault == Some(t.status.error))
    decreases |trace|
  {
    if trace != [] {
      var a, rest := trace[0], trace[1..];
      NextInv(s, a);
      GaveUpTail(trace, i);
      if a == Receive(i) {
        ReceivedItem(s, i);
      }
      if Next(s, a).tasks[i].status.Open? {
        FailureCause(Next(s, a), rest, i);
        var t := After(s, trace).tasks[i];
        if k :| 0 <= k < |rest| && t.status.Failed? && rest[k] == Abort(i, t.status.error) {
          assert trace[k + 1] == rest[k];
        }
        forall k | 0 <= k < |trace| && trace[k].Abort? && trace[k].task == i ensures t.status == Failed(trace[k].error) {
          assert k > 0 ==> rest[k - 1] == trace[k];
        }
      } else {
        EndedStays(Next(s, a), rest, i);
        forall k | 0 < k < |trace| ensures !(trace[k].Abort? && trace[k].task == i) {
          assert rest[k - 1] == trace[k];
        }
      }
    }
  }

  /** The only error item a channel ever carries is the source's. */
  lemma ReceivedItem(s: State, i: nat)
    requires Inv(s) && Enabled(s, Receive(i))
    ensures s.tasks[i].queue[0].Fault? ==> s.source.fault == Some(s.tasks[i].queue[0].error)
  {
    assert TaskInv(s, i);
    var t, items := s.tasks[i], Items(s.source);
    assert (AsItems(t.consumed) + t.queue)[|t.consumed|] == t.queue[0];
    assert items[..SentCount(s, i)][|t.consumed|] == items[|t.consumed|];
  }

  /** When nothing fails, every task of a finished broadcast has stored. */
  lemma CleanFinish(s: State, trace: seq<Action>, i: nat)
    requires Inv(s) && Runs(s, trace) && Finished(After(s, trace)) && i < |s.tasks|
    requires s.source.fault.None? && !s.tasks[i].status.Failed? && forall a :: a in trace ==> !a.Abort?
    ensures |After(s, trace).tasks| == |s.tasks| && After(s, trace).tasks[i].status.Stored?
  {
    forall k | 0 <= k < |trace| ensures !trace[k].Abort? {
      assert trace[k] in trace;
    }
    if s.tasks[i].status.Open? {
      FailureCause(s, trace, i);
    } else {
      EndedStays(s, trace, i);
    }
  }

  /**
   How a finished broadcast ends: without a source error a backend has stored the whole source,
   in order, exactly when it did not give up, even if others did, and has failed with an error exactly
   when it gave up with that error.
   */
  lemma FinishedOutcome(source: Source, n: nat, trace: seq<Action>, i: nat)
    requires Runs(Init(source, n), trace) && Finished(After(Init(source, n), trace)) && i < n
    ensures var s := After(Init(source, n), trace);
            && |s.tasks| == n
            && (source.fault.None? ==>
                  && s.phase == Joining(n)
                  && (s.tasks[i].status.Stored? <==> !GaveUp(trace, i))
                  && (s.tasks[i].status.Stored? ==> s.tasks[i].consumed == source.chunks)
                  && (forall e :: s.tasks[i].status == Failed(e) <==> Abort(i, e) in trace))
            && (source.fault.Some? ==>
                  && s.phase == Forwarding(n)
                  && s.tasks[i].status.Failed?
                  && (!GaveUp(trace, i) ==> s.tasks[i].status.error == source.fault.value)
                  && (forall e :: Abort(i, e) in trace ==> s.tasks[i].status.error == e))
  {
    var s0 := Init(source, n);
    InitInv(source, n);
    ReachableInv(s0, trace);
    FailureCause(s0, trace, i);
    assert TaskInv(After(s0, trace), i);
  }

  // ---------------------------------------------------------------- one backend ahead of the others

  ghost predicate SameStatuses(s: State, t: State) {
    |t.tasks| == |s.tasks| && forall i :: 0 <= i < |s.tasks| ==> t.tasks[i].status == s.tasks[i].status
  }

  /** The producer can send the whole source before any task ends. */
  lemma {:induction false} SendAll(s: State) returns (trace: seq<Action>)
    requires Inv(s) && s.source.fault.None? && s.phase.Sending?
    ensures Runs(s, trace) && forall a :: a in trace ==> !a.Abort?
    ensures var t := After(s, trace); Inv(t) && t.source == s.source && t.phase == Joining(0) && SameStatuses(s, t)
    decreases Measure(s)
  {
    var a := Pull;
    if s.phase.next < |s.tasks| {
      a := if Enabled(s, Send) then Send else Receive(s.phase.next);
    }
    if a.Receive? {
      ReceivedItem(s, a.task);
    }
    MeasureFalls(s, a);
    var s' := Next(s, a);
    var rest: seq<Action> := [];
    if s'.phase.Sending? {
      rest := SendAll(s');
    }
    trace := [a] + rest;
    assert trace[1..] == rest;
  }

  /** Once everything is sent a task can take it and store, whatever the others do. */
  lemma {:induction false} StoreAt(s: State, i: nat) returns (trace: seq<Action>)
    requires Inv(s) && s.source.fault.None? && s.phase.Joining? && IsOpen(s, i)
    ensures Runs(s, trace) && forall a :: a in trace ==> !a.Abort?
    ensures var t := After(s, trace);
            && t.source == s.source && |t.tasks| == |s.tasks| && t.tasks[i].status.Stored?
            && forall j :: 0 <= j < |s.tasks| && j != i ==> t.tasks[j] == s.tasks[j]
    decreases |s.tasks[i].queue|
  {
    if s.tasks[i].queue == [] {
      trace := [Finish(i)];
      assert After(s, trace) == Next(s, Finish(i));
    } else {
      ReceivedItem(s, i);
      NextInv(s, Receive(i));
      var rest := StoreAt(Next(s, Receive(i)), i);
      trace := [Receive(i)] + rest;
      assert trace[1..] == rest;
    }
  }

  /** A broadcast can have one backend store while all the others are still at work. */
  lemma StoreFirst(source: Source, n: nat, i: nat) returns (trace: seq<Action>)
    requires source.fault.None? && i < n
    ensures Runs(Init(source, n), trace) && forall a :: a in trace ==> !a.Abort?
    ensures var t := After(Init(source, n), trace);
            && |t.tasks| == n && t.tasks[i].status.Stored?
            && forall j :: 0 <= j < n && j != i ==> t.tasks[j].status.Open?
  {
    InitInv(source, n);
    var first := SendAll(Init(source, n));
    var rest := StoreAt(After(Init(source, n), first), i);
    RunsAppend(Init(source, n), first, rest);
    trace := first + rest;
  }

  /** With a failing source no task can ever reach the end of its stream, in any later step. */
  lemma FaultNeverStores(s: State, i: nat)
    requires Inv(s) && s.source.fault.Some? && i < |s.tasks|
    ensures !Enabled(s, Finish(i)) && !s.tasks[i].status.Stored?
  {
    assert TaskInv(s, i);
    if Enabled(s, Finish(i)) {
      FinishKeepsTask(s, i);
    }
  }
}
