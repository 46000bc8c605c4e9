/**
 A broadcast some of whose backends are remote. The channel of a remote backend is read by the pump of a
 StreamBody, which goes on reading until it is told the end or finds its own reader gone; put_object
 runs beside it, and it is the HTTP client inside put_object that reads the frames.
 */
module RemoteBackend {
  import opened Types
  import Broadcast
  import opened Stage = StreamBody

  /**
   run: the broadcast; remote: its remote backends. The channel of a remote backend is the first stage of
   its pipe, so its queue in run stays empty; the pipes of the other backends are not used.
   */
  datatype State = State(run: Broadcast.State, remote: set<nat>, pipes: seq<Pipe>)

  /**
   Elsewhere: a step of the broadcast that touches no remote backend. SendRemote: the producer sends to
   a remote backend. InPipe: a step of a pump or a client. Answer: put_object of a remote backend returns.
   */
  datatype Action =
    | Elsewhere(step: Broadcast.Action)
    | SendRemote
    | InPipe(backend: nat, move: Stage.Action)
    | Answer(backend: nat, failure: Option<S3Error>)

  function Init(source: Source, n: nat, remote: set<nat>): State {
    State(Broadcast.Init(source, n), remote, seq(n, i => EMPTY))
  }

  /** No error frame was read, so the client took the body for complete once it was told the end. */
  predicate Intact(p: Pipe) {
    forall f :: f in p.frames ==> f.Data?
  }

  predicate IsRemote(s: State, i: nat) {
    i in s.remote && i < |s.run.tasks| && i < |s.pipes|
  }

  /**
   A client stops reading at the end of the body. put_object answers Ok only if its client was told the
   end and read no error; it can answer an error at any time.
   */
  predicate Enabled(s: State, a: Action) {
    match a
    case Elsewhere(act) =>
      && Broadcast.Enabled(s.run, act)
      && (act.Send? ==> s.run.phase.next !in s.remote)
      && (act.Receive? || act.Finish? || act.Abort? ==> act.task !in s.remote)
    case SendRemote =>
      && !s.run.phase.Joining? && IsRemote(s, s.run.phase.next)
      && (s.run.phase.Sending? ==> 0 < s.run.taken <= |s.run.source.chunks|)
      && (s.run.phase.Forwarding? ==> s.run.source.fault.Some?)
      && (s.pipes[s.run.phase.next].pump.Stopped?
          || Stage.Enabled(s.pipes[s.run.phase.next], Offer(Broadcast.InHand(s.run))))
    case InPipe(i, move) =>
      && IsRemote(s, i) && Stage.Enabled(s.pipes[i], move)
      && (move.PumpRead? || move.PumpWrite? || (move.Poll? && !s.pipes[i].ended) || move.DropReader?)
    case Answer(i, failure) =>
      && IsRemote(s, i) && Broadcast.IsOpen(s.run, i)
      && (failure.None? ==> s.pipes[i].ended && Intact(s.pipes[i]))
  }

  /** The producer goes on to the next sender. */
  function Passed(run: Broadcast.State): Broadcast.State {
    run.(phase := if run.phase.Sending? then Broadcast.Sending(run.phase.next + 1)
                  else Broadcast.Forwarding(run.phase.next + 1))
  }

  /** The first channels are closed when the broadcast drops its senders. */
  function Closing(s: State): (r: State)
    ensures |r.pipes| == |s.pipes| && r.run == s.run && r.remote == s.remote
  {
    if Broadcast.Closed(s.run) then
      s.(pipes := seq(|s.pipes|, i requires 0 <= i < |s.pipes| => s.pipes[i].(closed := true)))
    else s
  }

  function Next(s: State, a: Action): State
    requires Enabled(s, a)
  {
    match a
    case Elsewhere(act) => Closing(s.(run := Broadcast.Next(s.run, act)))
    case SendRemote =>
      var i := s.run.phase.next;
      var p := if s.pipes[i].pump.Stopped? then s.pipes[i]
               else Stage.Next(s.pipes[i], Offer(Broadcast.InHand(s.run)));
      Closing(s.(run := Passed(s.run), pipes := s.pipes[i := p]))
    case InPipe(i, move) => s.(pipes := s.pipes[i := Stage.Next(s.pipes[i], move)])
    case Answer(i, failure) =>
      var status := if failure.None? then Broadcast.Stored else Broadcast.Failed(failure.value);
      var p := if s.pipes[i].readerGone then s.pipes[i] else Stage.Next(s.pipes[i], DropReader);
      s.(run := s.run.(tasks := s.run.tasks[i := s.run.tasks[i].(status := status)]), pipes := s.pipes[i := p])
  }

  ghost predicate Runs(s: State, trace: seq<Action>)
    decreases |trace|
  {
    trace == [] || (Enabled(s, trace[0]) && Runs(Next(s, trace[0]), trace[1..]))
  }

  ghost function After(s: State, trace: seq<Action>): State
    requires Runs(s, trace)
    decreases |trace|
  {
    if trace == [] then s else After(Next(s, trace[0]), trace[1..])
  }

  // ---------------------------------------------------------------- the coupling

  /** Nothing sent was lost at the pump: it stops early only when its reader has gone. */
  predicate Lossless(p: Pipe) {
    p.ended || !p.readerGone || !p.pump.Stopped?
  }

  /** What was put into the pipe is what the producer has passed to the backend. */
  ghost predicate PipeCoupled(run: Broadcast.State, i: nat, p: Pipe)
    requires Broadcast.ProducerInv(run) && i < |run.tasks|
  {
    && Fifo(p) && p.closed == Broadcast.Closed(run)
    && Broadcast.SentCount(run, i) <= |Broadcast.Items(run.source)|
    && p.sent <= Broadcast.Items(run.source)[..Broadcast.SentCount(run, i)]
    && (Lossless(p) ==> p.sent == Broadcast.Items(run.source)[..Broadcast.SentCount(run, i)])
    && run.tasks[i].queue == []
    && (run.tasks[i].status.Stored? ==> p.ended && Intact(p))
  }

  ghost predicate Coupled(s: State) {
    && Broadcast.ProducerInv(s.run) && |s.pipes| == |s.run.tasks|
    && forall i :: 0 <= i < |s.pipes| && i in s.remote ==> PipeCoupled(s.run, i, s.pipes[i])
  }

  lemma PassedOn(run: Broadcast.State)
    requires Broadcast.ProducerInv(run) && !run.phase.Joining? && run.phase.next < |run.tasks|
    ensures Broadcast.ProducerInv(Passed(run))
    ensures var items, i := Broadcast.Items(run.source), run.phase.next;
            var n := Broadcast.SentCount(run, i);
            && Broadcast.SentCount(Passed(run), i) == n + 1 <= |items|
            && items[..n + 1] == items[..n] + [Broadcast.InHand(run)]
  {
    var items, n := Broadcast.Items(run.source), Broadcast.SentCount(run, run.phase.next);
    assert items[n] == Broadcast.InHand(run);
    assert items[..n + 1] == items[..n] + [items[n]];
  }

  /** The pipe of the backend the producer sends to. */
  lemma SendCoupled(run: Broadcast.State, p: Pipe)
    requires Broadcast.ProducerInv(run) && !run.phase.Joining? && run.phase.next < |run.tasks|
    requires PipeCoupled(run, run.phase.next, p)
    requires p.pump.Stopped? || Stage.Enabled(p, Offer(Broadcast.InHand(run)))
    ensures Broadcast.ProducerInv(Passed(run))
    ensures var p' := if p.pump.Stopped? then p else Stage.Next(p, Offer(Broadcast.InHand(run)));
            PipeCoupled(Passed(run), run.phase.next, if Broadcast.Closed(Passed(run)) then p'.(closed := true) else p')
  {
    PassedOn(run);
    if p.pump.Stopped? {
      assert !Lossless(p);
    } else {
      NextFifo(p, Offer(Broadcast.InHand(run)));
    }
  }

  /** The pipe of a backend that the step of the broadcast passes by. */
  lemma ByCoupled(run: Broadcast.State, run': Broadcast.State, i: nat, p: Pipe)
    requires Broadcast.ProducerInv(run) && Broadcast.ProducerInv(run') && i < |run.tasks| == |run'.tasks|
    requires PipeCoupled(run, i, p) && run'.source == run.source && run'.tasks[i] == run.tasks[i]
    requires Broadcast.SentCount(run', i) == Broadcast.SentCount(run, i)
    requires Broadcast.Closed(run) ==> Broadcast.Closed(run')
    ensures PipeCoupled(run', i, if Broadcast.Closed(run') then p.(closed := true) else p)
  {
  }

  lemma ElsewhereCoupled(s: State, act: Broadcast.Action)
    requires Coupled(s) && Enabled(s, Elsewhere(act))
    ensures Coupled(Next(s, Elsewhere(act)))
  {
    var s' := Next(s, Elsewhere(act));
    assert Broadcast.ProducerInv(s'.run);
    forall i | 0 <= i < |s.pipes| && i in s.remote ensures PipeCoupled(s'.run, i, s'.pipes[i]) {
      ByCoupled(s.run, s'.run, i, s.pipes[i]);
    }
  }

  lemma SendRemoteCoupled(s: State)
    requires Coupled(s) && Enabled(s, SendRemote)
    ensures Coupled(Next(s, SendRemote))
  {
    var s', next := Next(s, SendRemote), s.run.phase.next;
    SendCoupled(s.run, s.pipes[next]);
    forall i | 0 <= i < |s.pipes| && i in s.remote ensures PipeCoupled(s'.run, i, s'.pipes[i]) {
      if i != next {
        ByCoupled(s.run, s'.run, i, s.pipes[i]);
      }
    }
  }

  /** A step of the pipe of backend i alone. */
  lemma OnePipeCoupled(s: State, i: nat, p: Pipe)
    requires Coupled(s) && i < |s.pipes| && PipeCoupled(s.run, i, p)
    ensures Coupled(s.(pipes := s.pipes[i := p]))
  {
  }

  /** The pipe of the backend that answers. */
  lemma DroppedCoupled(run: Broadcast.State, run': Broadcast.State, i: nat, p: Pipe)
    requires Broadcast.ProducerInv(run) && i < |run.tasks| && PipeCoupled(run, i, p)
    requires run'.phase == run.phase && run'.taken == run.taken && run'.source == run.source
    requires |run'.tasks| == |run.tasks| && run'.tasks[i].queue == []
    requires run'.tasks[i].status.Stored? ==> p.ended && Intact(p)
    ensures Broadcast.ProducerInv(run') && PipeCoupled(run', i, if p.readerGone then p else Stage.Next(p, DropReader))
  {
    if !p.readerGone {
      NextFifo(p, DropReader);
    }
  }

  lemma AnswerCoupled(s: State, i: nat, failure: Option<S3Error>)
    requires Coupled(s) && Enabled(s, Answer(i, failure))
    ensures Coupled(Next(s, Answer(i, failure)))
  {
    var s' := Next(s, Answer(i, failure));
    DroppedCoupled(s.run, s'.run, i, s.pipes[i]);
    forall j | 0 <= j < |s.pipes| && j in s.remote ensures PipeCoupled(s'.run, j, s'.pipes[j]) {
      if j != i {
        ByCoupled(s.run, s'.run, j, s.pipes[j]);
      }
    }
  }

  lemma NextCoupled(s: State, a: Action)
    requires Coupled(s) && Enabled(s, a)
    ensures Coupled(Next(s, a)) && Next(s, a).run.source == s.run.source
    ensures Next(s, a).remote == s.remote && |Next(s, a).pipes| == |s.pipes|
  {
    match a
    case Elsewhere(act) => ElsewhereCoupled(s, act);
    case SendRemote => SendRemoteCoupled(s);
    case InPipe(i, move) =>
      assert PipeCoupled(s.run, i, s.pipes[i]);
      NextFifo(s.pipes[i], move);
      OnePipeCoupled(s, i, Stage.Next(s.pipes[i], move));
    case Answer(i, failure) => AnswerCoupled(s, i, failure);
  }

  lemma InitCoupled(source: Source, n: nat, remote: set<nat>)
    ensures Coupled(Init(source, n, remote))
  {
  }

  lemma {:induction false} RunCoupled(s: State, trace: seq<Action>)
    requires Coupled(s) && Runs(s, trace)
    ensures Coupled(After(s, trace)) && After(s, trace).run.source == s.run.source
    ensures After(s, trace).remote == s.remote && |After(s, trace).pipes| == |s.pipes|
    decreases |trace|
  {
    if trace != [] {
      NextCoupled(s, trace[0]);
      RunCoupled(Next(s, trace[0]), trace[1..]);
    }
  }

  // ---------------------------------------------------------------- delivery

  /**
   In every reachable state of a broadcast with any set of remote backends, the frames that the client of
   one of them has read are a prefix of the source: the bytes of its chunks, and after them the error of a
   failing source. While the client is there, frames, second channel, the pump's hand and first channel are
   exactly what the producer has passed on; told the end, it has read all of the source. put_object answers
   Ok only if the source did not fail and all its chunks were read in order.
   */
  lemma RemoteDelivery(source: Source, n: nat, remote: set<nat>, trace: seq<Action>, i: nat)
    requires i in remote && i < n && Runs(Init(source, n, remote), trace)
    ensures var s, items := After(Init(source, n, remote), trace), Broadcast.Items(source);
            && |s.run.tasks| == |s.pipes| == n
            && Broadcast.SentCount(s.run, i) <= |items|
            && var p := s.pipes[i];
               && InFlight(p) <= 513
               && (forall k :: 0 <= k < |p.frames| ==>
                     if k < |source.chunks| then p.frames[k] == Data(source.chunks[k])
                     else k == |source.chunks| && source.fault.Some? && p.frames[k] == StreamError(source.fault.value))
               && (!p.readerGone ==>
                     p.frames + p.second + InHand(p) + WrapAll(p.first)
                     == WrapAll(items[..Broadcast.SentCount(s.run, i)]))
               && (p.ended ==> |p.frames| == |source.chunks| + if source.fault.Some? then 1 else 0)
               && (s.run.tasks[i].status.Stored? ==> source.fault.None? && |p.frames| == |source.chunks|)
  {
    InitCoupled(source, n, remote);
    RunCoupled(Init(source, n, remote), trace);
    var s, items := After(Init(source, n, remote), trace), Broadcast.Items(source);
    var p := s.pipes[i];
    assert PipeCoupled(s.run, i, p);
    FramesOfSource(source, p.frames);
    if p.ended {
      assert Broadcast.SentCount(s.run, i) == |items|;
      assert items[..|items|] == items;
      EndTellsFault(source, p.frames);
    }
  }

  /** Frames read from a source: its chunks, then the error it ends with. */
  lemma FramesOfSource(source: Source, frames: seq<Frame>)
    requires frames <= WrapAll(Broadcast.Items(source))
    ensures forall k :: 0 <= k < |frames| ==>
              if k < |source.chunks| then frames[k] == Data(source.chunks[k])
              else k == |source.chunks| && source.fault.Some? && frames[k] == StreamError(source.fault.value)
  {
    var items := Broadcast.Items(source);
    forall k | 0 <= k < |frames|
      ensures if k < |source.chunks| then frames[k] == Data(source.chunks[k])
              else k == |source.chunks| && source.fault.Some? && frames[k] == StreamError(source.fault.value)
    {
      assert frames[k] == WrapAll(items)[k] == Wrap(items[k]);
    }
  }

  /** All frames of a source: it failed if and only if there is an error frame, which is the last. */
  lemma EndTellsFault(source: Source, frames: seq<Frame>)
    requires frames == WrapAll(Broadcast.Items(source))
    ensures |frames| == |source.chunks| + if source.fault.Some? then 1 else 0
    ensures source.fault.None? <==> forall f :: f in frames ==> f.Data?
    ensures source.fault.Some? ==> frames != [] && frames[|frames| - 1] == StreamError(source.fault.value)
  {
    if source.fault.Some? {
      assert frames[|source.chunks|] in frames;
    } else {
      assert Broadcast.Items(source) == Broadcast.AsItems(source.chunks);
    }
  }

  /** A failing source never looks like a normal end: the client told the end has read the error last. */
  lemma RemoteSeesFault(source: Source, n: nat, remote: set<nat>, trace: seq<Action>, i: nat)
    requires i in remote && i < n && Runs(Init(source, n, remote), trace)
    ensures var s := After(Init(source, n, remote), trace);
            && |s.pipes| == n
            && var frames := s.pipes[i].frames;
               s.pipes[i].ended ==>
                 && (source.fault.None? <==> forall f :: f in frames ==> f.Data?)
                 && |frames| == |source.chunks| + (if source.fault.Some? then 1 else 0)
                 && (forall k :: 0 <= k < |source.chunks| ==> frames[k] == Data(source.chunks[k]))
                 && (source.fault.Some? ==> frames != [] && frames[|frames| - 1] == StreamError(source.fault.value))
  {
    InitCoupled(source, n, remote);
    RunCoupled(Init(source, n, remote), trace);
    var s := After(Init(source, n, remote), trace);
    assert PipeCoupled(s.run, i, s.pipes[i]);
    if s.pipes[i].ended {
      assert Broadcast.SentCount(s.run, i) == |Broadcast.Items(source)|;
      EndTellsFault(source, s.pipes[i].frames);
      FramesOfSource(source, s.pipes[i].frames);
    }
  }

  /** A remote backend fails only with the error that its own put_object answered. */
  lemma {:induction false} RemoteFailureCause(s: State, trace: seq<Action>, i: nat)
    requires Runs(s, trace) && IsRemote(s, i) && !s.run.tasks[i].status.Failed?
    ensures i < |After(s, trace).run.tasks|
    ensures var status := After(s, trace).run.tasks[i].status;
            status.Failed? ==> Answer(i, Some(status.error)) in trace
    decreases |trace|
  {
    if trace != [] {
      var s' := Next(s, trace[0]);
      if s'.run.tasks[i].status.Failed? {
        AnsweredStays(s', trace[1..], i);
      } else {
        RemoteFailureCause(s', trace[1..], i);
      }
    }
  }

  lemma {:induction false} AnsweredStays(s: State, trace: seq<Action>, i: nat)
    requires Runs(s, trace) && IsRemote(s, i) && !s.run.tasks[i].status.Open?
    ensures |After(s, trace).run.tasks| == |s.run.tasks|
    ensures After(s, trace).run.tasks[i].status == s.run.tasks[i].status
    decreases |trace|
  {
    if trace != [] {
      AnsweredStays(Next(s, trace[0]), trace[1..], i);
    }
  }

  // ---------------------------------------------------------------- the other backends

  /** The broadcast as the others see it: the remote backends might as well have given up at once. */
  function Without(s: State): Broadcast.State {
    s.run.(tasks := seq(|s.run.tasks|, i requires 0 <= i < |s.run.tasks| =>
      if i in s.remote then Broadcast.Task([], [], Broadcast.Failed(NoSuchKey)) else s.run.tasks[i]))
  }

  /** Every step is a step of the broadcast without the remote backends, or changes nothing there. */
  lemma StepWithout(s: State, a: Action)
    requires Enabled(s, a)
    ensures var s' := Next(s, a);
            match a
            case Elsewhere(act) =>
              Broadcast.Enabled(Without(s), act) && Without(s') == Broadcast.Next(Without(s), act)
            case SendRemote =>
              Broadcast.Enabled(Without(s), Broadcast.Send)
              && Without(s') == Broadcast.Next(Without(s), Broadcast.Send)
            case _ => Without(s') == Without(s)
  {
    var t, t' := Without(s), Without(Next(s, a));
    match a
    case Elsewhere(act) => assert t'.tasks == Broadcast.Next(t, act).tasks;
    case _ => assert t'.tasks == t.tasks;
  }

  lemma {:induction false} RunWithout(s: State, trace: seq<Action>)
    requires Broadcast.Inv(Without(s)) && Runs(s, trace)
    ensures |After(s, trace).run.tasks| == |s.run.tasks| && Broadcast.Inv(Without(After(s, trace)))
    ensures After(s, trace).run.source == s.run.source && After(s, trace).remote == s.remote
    decreases |trace|
  {
    if trace != [] {
      var a := trace[0];
      StepWithout(s, a);
      if a.Elsewhere? {
        Broadcast.NextInv(Without(s), a.step);
      } else if a.SendRemote? {
        Broadcast.NextInv(Without(s), Broadcast.Send);
      }
      RunWithout(Next(s, a), trace[1..]);
    }
  }

  /** Whatever the remote backends, their pumps and clients do, every other backend has exact delivery. */
  lemma OthersUnaffected(source: Source, n: nat, remote: set<nat>, trace: seq<Action>, j: nat)
    requires j < n && j !in remote && Runs(Init(source, n, remote), trace)
    ensures var run := After(Init(source, n, remote), trace).run;
            && |run.tasks| == n && |run.tasks[j].queue| <= Broadcast.CAPACITY
            && (Broadcast.IsOpen(run, j) ==>
                  && Broadcast.SentCount(run, j) <= |Broadcast.Items(source)|
                  && Broadcast.AsItems(run.tasks[j].consumed) + run.tasks[j].queue
                     == Broadcast.Items(source)[..Broadcast.SentCount(run, j)])
            && (run.tasks[j].status.Stored? ==> source.fault.None? && run.tasks[j].consumed == source.chunks)
  {
    var s0 := Init(source, n, remote);
    assert Broadcast.Inv(Without(s0));
    RunWithout(s0, trace);
    assert Broadcast.TaskInv(Without(After(s0, trace)), j);
  }
}
