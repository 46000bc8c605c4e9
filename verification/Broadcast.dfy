/**
 The broadcast of one source stream to N backends: a producer that sends every chunk to N
 bounded channels in turn, and N tasks that each run put_object on the receiving end.

 The protocol is a state machine. A state is shared by all the schedules of the runtime; an
 action is one atomic step of the producer or of a task; a run is any sequence of enabled steps.
 */
module Broadcast {
  import opened Types

  const CAPACITY: nat := 256

  datatype Item = Chunk(data: Bytes) | Fault(error: S3Error)

  /** Stored: put_object saw the end of its stream, stored the object and returned Ok. */
  datatype Status = Open | Stored | Failed(error: S3Error)

  datatype Task = Task(queue: seq<Item>, consumed: seq<Bytes>, status: Status)

  /**
   Where the producer stands.
   Sending(i): the chunk taken last goes to sender i next; at i == N the loop is back at its head.
   Forwarding(i): the source error goes to sender i next; at i == N the broadcast has returned it.
   Joining(i): the senders are dropped and task i is awaited; at i == N the broadcast has returned.
   */
  datatype Phase = Sending(next: nat) | Forwarding(next: nat) | Joining(next: nat)

  datatype State = State(source: Source, taken: nat, phase: Phase, tasks: seq<Task>)

  datatype Action =
    | Pull
    | Send
    | Join
    | Receive(task: nat)
    | Finish(task: nat)
    | Abort(task: nat, error: S3Error)

  function Init(source: Source, n: nat): State {
    State(source, 0, Sending(n), seq(n, i => Task([], [], Open)))
  }

  /** The senders are dropped once the source has ended, or the broadcast returned its error. */
  predicate Closed(s: State) {
    s.phase.Joining? || (s.phase.Forwarding? && s.phase.next == |s.tasks|)
  }

  predicate Returned(s: State) {
    !s.phase.Sending? && s.phase.next == |s.tasks|
  }

  predicate IsOpen(s: State, i: nat) {
    i < |s.tasks| && s.tasks[i].status.Open?
  }

  /** The broadcast has returned and no task runs any more. */
  predicate Finished(s: State) {
    Returned(s) && forall i :: 0 <= i < |s.tasks| ==> !s.tasks[i].status.Open?
  }

  predicate Enabled(s: State, a: Action) {
    match a
    case Pull => s.phase.Sending? && s.phase.next == |s.tasks|
    case Send =>
      && !s.phase.Joining?
      && s.phase.next < |s.tasks|
      && (s.phase.Sending? ==> 0 < s.taken <= |s.source.chunks|)
      && (s.phase.Forwarding? ==> s.source.fault.Some?)
      && (IsOpen(s, s.phase.next) ==> |s.tasks[s.phase.next].queue| < CAPACITY)
    case Join => s.phase.Joining? && s.phase.next < |s.tasks| && !IsOpen(s, s.phase.next)
    case Receive(i) => IsOpen(s, i) && s.tasks[i].queue != []
    case Finish(i) => IsOpen(s, i) && s.tasks[i].queue == [] && Closed(s)
    case Abort(i, _) => IsOpen(s, i)
  }

  /** What the producer is sending. */
  function InHand(s: State): Item
    requires s.phase.Sending? ==> 0 < s.taken <= |s.source.chunks|
    requires s.phase.Forwarding? ==> s.source.fault.Some?
    requires !s.phase.Joining?
  {
    if s.phase.Sending? then Chunk(s.source.chunks[s.taken - 1]) else Fault(s.source.fault.value)
  }

  /** A task takes the head of its channel; an error item makes put_object return that error. */
  function Receiving(t: Task): Task
    requires t.queue != []
  {
    match t.queue[0]
    case Chunk(d) => Task(t.queue[1..], t.consumed + [d], t.status)
    case Fault(e) => Task([], t.consumed, Failed(e))
  }

  function Next(s: State, a: Action): State
    requires Enabled(s, a)
  {
    match a
    case Pull =>
      if s.taken < |s.source.chunks| then s.(taken := s.taken + 1, phase := Sending(0))
      else if s.source.fault.Some? then s.(phase := Forwarding(0))
      else s.(phase := Joining(0))
    case Send =>
      var i := s.phase.next;
      var tasks :=
        if IsOpen(s, i) then s.tasks[i := s.tasks[i].(queue := s.tasks[i].queue + [InHand(s)])]
        else s.tasks;
      var phase := if s.phase.Sending? then Sending(i + 1) else Forwarding(i + 1);
      s.(phase := phase, tasks := tasks)
    case Join => s.(phase := Joining(s.phase.next + 1))
    case Receive(i) => s.(tasks := s.tasks[i := Receiving(s.tasks[i])])
    case Finish(i) => s.(tasks := s.tasks[i := s.tasks[i].(status := Stored)])
    case Abort(i, e) => s.(tasks := s.tasks[i := s.tasks[i].(queue := [], status := Failed(e))])
  }

  /** Every step of the trace is enabled when it is taken. */
  ghost predicate Runs(s: State, trace: seq<Action>)
    decreases |trace|
  {
    trace == [] || (Enabled(s, trace[0]) && Runs(Next(s, trace[0]), trace[1..]))
  }

  ghost function After(s: State, trace: seq<Action>): State
    requires Runs(s, trace)
    decreases |trace|
  {
    if trace == [] then s else After(Next(s, trace[0]), trace[1..])
  }

  lemma {:induction false} RunsAppend(s: State, trace: seq<Action>, more: seq<Action>)
    requires Runs(s, trace) && Runs(After(s, trace), more)
    ensures Runs(s, trace + more) && After(s, trace + more) == After(After(s, trace), more)
    decreases |trace|
  {
    if trace == [] {
      assert trace + more == more;
    } else {
      RunsAppend(Next(s, trace[0]), trace[1..], more);
      assert (trace + more)[1..] == trace[1..] + more;
    }
  }

  // ---------------------------------------------------------------- the invariant

  function AsItems(chunks: seq<Bytes>): (r: seq<Item>)
    ensures |r| == |chunks| && forall i :: 0 <= i < |r| ==> r[i] == Chunk(chunks[i])
  {
    seq(|chunks|, i requires 0 <= i < |chunks| => Chunk(chunks[i]))
  }

  /** Everything the stream yields, an error last if it fails. */
  function Items(source: Source): seq<Item> {
    AsItems(source.chunks) + if source.fault.Some? then [Fault(source.fault.value)] else []
  }

  /** How many items of the source the producer has passed to sender i. */
  function SentCount(s: State, i: nat): nat {
    match s.phase
    case Sending(next) => if i < next || s.taken == 0 then s.taken else s.taken - 1
    case Forwarding(next) => if i < next then s.taken + 1 else s.taken
    case Joining(_) => s.taken
  }

  ghost predicate ProducerInv(s: State) {
    && s.taken <= |s.source.chunks|
    && s.phase.next <= |s.tasks|
    && (s.phase.Sending? && s.phase.next < |s.tasks| ==> 0 < s.taken)
    && (!s.phase.Sending? ==> s.taken == |s.source.chunks|)
    && (s.phase.Forwarding? ==> s.source.fault.Some?)
    && (s.phase.Joining? ==> s.source.fault.None?)
  }

  ghost predicate TaskInv(s: State, i: nat)
    requires ProducerInv(s) && i < |s.tasks|
  {
    var t := s.tasks[i];
    && |t.queue| <= CAPACITY
    && (s.phase.Joining? && i < s.phase.next ==> !t.status.Open?)
    && match t.status
       case Open =>
         && SentCount(s, i) <= |Items(s.source)|
         && AsItems(t.consumed) + t.queue == Items(s.source)[..SentCount(s, i)]
       case Stored => t.queue == [] && s.phase.Joining? && t.consumed == s.source.chunks
       case Failed(_) => t.queue == []
  }

  ghost predicate Inv(s: State) {
    ProducerInv(s) && forall i :: 0 <= i < |s.tasks| ==> TaskInv(s, i)
  }

  lemma InitInv(source: Source, n: nat)
    ensures Inv(Init(source, n))
  {
  }

  lemma SendKeepsTask(s: State, i: nat)
    requires Inv(s) && Enabled(s, Send) && i < |s.tasks|
    ensures ProducerInv(Next(s, Send)) && TaskInv(Next(s, Send), i)
  {
    var s' := Next(s, Send);
    assert TaskInv(s, i);
    if IsOpen(s, i) && i == s.phase.next {
      var items, n := Items(s.source), SentCount(s, i);
      assert SentCount(s', i) == n + 1;
      assert items[n] == InHand(s);
      assert items[..n + 1] == items[..n] + [items[n]];
      var t := s.tasks[i];
      assert AsItems(t.consumed) + (t.queue + [items[n]]) == AsItems(t.consumed) + t.queue + [items[n]];
    }
  }

  lemma ReceiveKeepsTask(s: State, i: nat)
    requires Inv(s) && Enabled(s, Receive(i))
    ensures ProducerInv(Next(s, Receive(i))) && TaskInv(Next(s, Receive(i)), i)
  {
    var t, t' := s.tasks[i], Receiving(s.tasks[i]);
    assert TaskInv(s, i);
    if t.queue[0].Chunk? {
      assert t.queue == [t.queue[0]] + t'.queue;
      assert AsItems(t'.consumed) == AsItems(t.consumed) + [t.queue[0]];
      assert AsItems(t'.consumed) + t'.queue == AsItems(t.consumed) + t.queue;
    }
  }

  lemma FinishKeepsTask(s: State, i: nat)
    requires Inv(s) && Enabled(s, Finish(i))
    ensures s.source.fault.None? && s.tasks[i].consumed == s.source.chunks
    ensures ProducerInv(Next(s, Finish(i))) && TaskInv(Next(s, Finish(i)), i)
  {
    assert TaskInv(s, i);
    var c, items := s.tasks[i].consumed, Items(s.source);
    assert AsItems(c) == AsItems(c) + s.tasks[i].queue == items[..SentCount(s, i)];
    forall k | 0 <= k < |c| ensures k < |s.source.chunks| && c[k] == s.source.chunks[k] {
      assert AsItems(c)[k] == items[k];
    }
    if c != [] {
      assert AsItems(c)[|c| - 1] == items[|c| - 1];
      assert |c| <= |s.source.chunks|;
    }
  }

  lemma NextInv(s: State, a: Action)
    requires Inv(s) && Enabled(s, a)
    ensures Inv(Next(s, a))
  {
    var s' := Next(s, a);
    forall i | 0 <= i < |s'.tasks| ensures ProducerInv(s') && TaskInv(s', i) {
      assert TaskInv(s, i);
      match a
      case Send => SendKeepsTask(s, i);
      case Receive(j) => ReceiveKeepsTask(s, j);
      case Finish(j) => FinishKeepsTask(s, j);
      case Pull =>
      case Join =>
      case Abort(j, _) =>
    }
  }

  lemma {:induction false} ReachableInv(s: State, trace: seq<Action>)
    requires Inv(s) && Runs(s, trace)
    ensures Inv(After(s, trace))
    ensures After(s, trace).source == s.source && |After(s, trace).tasks| == |s.tasks|
    decreases |trace|
  {
    if trace != [] {
      NextInv(s, trace[0]);
      ReachableInv(Next(s, trace[0]), trace[1..]);
    }
  }

  /**
   Exact delivery, in every reachable state of every schedule: what an open backend has consumed,
   followed by what its channel holds, is the prefix of the source sent to it so far; a backend that
   stored has consumed the whole source in order, whatever became of the others.
   */
  lemma ExactDelivery(source: Source, n: nat, trace: seq<Action>, i: nat)
    requires Runs(Init(source, n), trace) && i < n
    ensures var s := After(Init(source, n), trace);
            && |s.tasks| == n && s.source == source
            && (IsOpen(s, i) ==>
                  && SentCount(s, i) <= |Items(source)|
                  && AsItems(s.tasks[i].consumed) + s.tasks[i].queue == Items(source)[..SentCount(s, i)])
            && (s.tasks[i].status.Stored? ==> source.fault.None? && s.tasks[i].consumed == source.chunks)
  {
    InitInv(source, n);
    ReachableInv(Init(source, n), trace);
    assert TaskInv(After(Init(source, n), trace), i);
  }
}
