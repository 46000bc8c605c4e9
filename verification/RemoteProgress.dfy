/** Progress of a broadcast with remote backends: it is never stuck, and every schedule of it ends. */
module RemoteProgress {
  import opened Types
  import Broadcast
  import BroadcastProgress
  import Stage = StreamBody
  import opened RemoteBackend

  // ---------------------------------------------------------------- progress

  /** The broadcast has returned and no put_object runs any more. */
  predicate Finished(s: State) {
    Broadcast.Finished(s.run)
  }

  /**
   A step that is no failure of its own: no backend gives up, and no client goes away. A put_object answers
   an error only when its client is gone already or has read the source's error.
   */
  predicate Gentle(s: State, a: Action) {
    match a
    case Elsewhere(act) => !act.Abort?
    case SendRemote => true
    case InPipe(_, move) => !move.DropReader?
    case Answer(i, failure) =>
      failure.Some? ==> i < |s.pipes| && (s.pipes[i].readerGone || (s.pipes[i].ended && !Intact(s.pipes[i])))
  }

  /** A step of a remote backend that is still at work, once the broadcast has dropped its senders. */
  function RemoteMove(s: State, i: nat): Action
    requires i < |s.pipes|
  {
    var p := s.pipes[i];
    if p.readerGone then Answer(i, Some(NoSuchKey))
    else if p.ended then Answer(i, if Intact(p) then None else Some(NoSuchKey))
    else if p.second != [] || p.pump.Stopped? then InPipe(i, Stage.Poll)
    else if p.pump.Holding? then InPipe(i, Stage.PumpWrite)
    else InPipe(i, Stage.PumpRead)
  }

  /** A step that makes room in the channel of a remote backend. */
  function RoomMove(s: State, i: nat): Action
    requires i < |s.pipes|
  {
    var p := s.pipes[i];
    if p.pump.Reading? then InPipe(i, Stage.PumpRead)
    else if p.readerGone || |p.second| < Stage.CAPACITY then InPipe(i, Stage.PumpWrite)
    else InPipe(i, Stage.Poll)
  }

  function FirstOpen(tasks: seq<Broadcast.Task>, i: nat): (r: nat)
    requires i <= |tasks|
    ensures i <= r <= |tasks| && (r < |tasks| ==> tasks[r].status.Open?)
    ensures forall j :: i <= j < r ==> !tasks[j].status.Open?
    decreases |tasks| - i
  {
    if i == |tasks| || tasks[i].status.Open? then i else FirstOpen(tasks, i + 1)
  }

  /** A step of task i once its channel is closed. */
  function ClosedMove(s: State, i: nat): Action
    requires i < |s.pipes| && i < |s.run.tasks|
  {
    if i in s.remote then RemoteMove(s, i)
    else if s.run.tasks[i].queue != [] then Elsewhere(Broadcast.Receive(i))
    else Elsewhere(Broadcast.Finish(i))
  }

  function SendMove(s: State, i: nat): Action
    requires i < |s.pipes| && i < |s.run.tasks|
  {
    if i in s.remote then
      if Enabled(s, SendRemote) then SendRemote else RoomMove(s, i)
    else if Broadcast.Enabled(s.run, Broadcast.Send) then Elsewhere(Broadcast.Send)
    else Elsewhere(Broadcast.Receive(i))
  }

  /** A step that some schedule can take. */
  function Move(s: State): Action
    requires |s.pipes| == |s.run.tasks| && s.run.phase.next <= |s.run.tasks| && !Finished(s)
  {
    var i := s.run.phase.next;
    if i < |s.run.tasks| then
      if !s.run.phase.Joining? then SendMove(s, i)
      else if s.run.tasks[i].status.Open? then ClosedMove(s, i)
      else Elsewhere(Broadcast.Join)
    else if s.run.phase.Sending? then Elsewhere(Broadcast.Pull)
    else
      var j := FirstOpen(s.run.tasks, 0);
      if j < |s.run.tasks| then ClosedMove(s, j) else Elsewhere(Broadcast.Pull)
  }

  lemma ClosedMoveEnabled(s: State, i: nat)
    requires Coupled(s) && i < |s.pipes| && Broadcast.Closed(s.run) && s.run.tasks[i].status.Open?
    ensures Enabled(s, ClosedMove(s, i)) && Gentle(s, ClosedMove(s, i))
  {
    if i in s.remote {
      assert PipeCoupled(s.run, i, s.pipes[i]);
    }
  }

  lemma SendMoveEnabled(s: State)
    requires Coupled(s) && !s.run.phase.Joining? && s.run.phase.next < |s.run.tasks|
    ensures Enabled(s, SendMove(s, s.run.phase.next)) && Gentle(s, SendMove(s, s.run.phase.next))
  {
    var i := s.run.phase.next;
    if i in s.remote {
      assert PipeCoupled(s.run, i, s.pipes[i]);
    }
  }

  /** No reachable state is stuck: it is finished, or a step can be taken that is no failure of its own. */
  lemma NeverStuck(s: State)
    requires Coupled(s) && !Finished(s)
    ensures Enabled(s, Move(s)) && Gentle(s, Move(s))
  {
    var i := s.run.phase.next;
    if i < |s.run.tasks| {
      if !s.run.phase.Joining? {
        SendMoveEnabled(s);
      } else if s.run.tasks[i].status.Open? {
        ClosedMoveEnabled(s, i);
      }
    } else if !s.run.phase.Sending? {
      ClosedMoveEnabled(s, FirstOpen(s.run.tasks, 0));
    }
  }

  // ---------------------------------------------------------------- termination

  /** What is left for the pump and the client of one pipe to do. */
  function PipeWork(p: Stage.Pipe): nat {
    3 * |p.first| + 2 * |Stage.InHand(p)| + |p.second|
    + (if p.pump.Stopped? then 0 else 1) + (if p.ended then 0 else 1) + (if p.readerGone then 0 else 1)
  }

  function PipesWork(pipes: seq<Stage.Pipe>): nat {
    if pipes == [] then 0 else PipeWork(pipes[0]) + PipesWork(pipes[1..])
  }

  lemma {:induction false} PipesWorkUpdate(pipes: seq<Stage.Pipe>, i: nat, p: Stage.Pipe)
    requires i < |pipes|
    ensures PipesWork(pipes[i := p]) + PipeWork(pipes[i]) == PipesWork(pipes) + PipeWork(p)
  {
    if i == 0 {
      assert pipes[i := p][1..] == pipes[1..];
    } else {
      PipesWorkUpdate(pipes[1..], i - 1, p);
      assert pipes[i := p][1..] == pipes[1..][i - 1 := p];
    }
  }

  lemma {:induction false} PipesWorkSame(pipes: seq<Stage.Pipe>, pipes': seq<Stage.Pipe>)
    requires |pipes| == |pipes'| && forall i :: 0 <= i < |pipes| ==> PipeWork(pipes'[i]) == PipeWork(pipes[i])
    ensures PipesWork(pipes') == PipesWork(pipes)
  {
    if pipes != [] {
      PipesWorkSame(pipes[1..], pipes'[1..]);
    }
  }

  /** Steps left for the producer; a send counts for the work that it puts into a pipe. */
  function ProducerWork(run: Broadcast.State): nat
    requires Broadcast.ProducerInv(run)
  {
    var n := |run.tasks|;
    match run.phase
    case Sending(i) => (|run.source.chunks| - run.taken) * (5 * n + 1) + 5 * (n - i) + 5 * n + 1
    case Forwarding(i) => 5 * (n - i)
    case Joining(i) => n - i
  }

  function Measure(s: State): nat
    requires Broadcast.ProducerInv(s.run)
  {
    ProducerWork(s.run) + BroadcastProgress.TaskWork(s.run.tasks) + PipesWork(s.pipes)
  }

  lemma ClosingWork(s: State)
    ensures PipesWork(Closing(s).pipes) == PipesWork(s.pipes)
  {
    PipesWorkSame(s.pipes, Closing(s).pipes);
  }

  lemma PullWork(run: Broadcast.State)
    requires Broadcast.ProducerInv(run) && Broadcast.Enabled(run, Broadcast.Pull)
    ensures Broadcast.ProducerInv(Broadcast.Next(run, Broadcast.Pull))
    ensures ProducerWork(Broadcast.Next(run, Broadcast.Pull)) < ProducerWork(run)
  {
    var n, left := |run.tasks|, |run.source.chunks| - run.taken;
    assert left * (5 * n + 1) == (left - 1) * (5 * n + 1) + (5 * n + 1);
  }

  lemma ElsewhereFalls(s: State, act: Broadcast.Action)
    requires Coupled(s) && Enabled(s, Elsewhere(act)) && Coupled(Next(s, Elsewhere(act)))
    ensures Measure(Next(s, Elsewhere(act))) < Measure(s)
  {
    var run := s.run;
    ClosingWork(s.(run := Broadcast.Next(run, act)));
    match act
    case Pull => PullWork(run);
    case Send =>
      var i := run.phase.next;
      BroadcastProgress.TaskWorkUpdate(run.tasks, i,
        run.tasks[i].(queue := run.tasks[i].queue + [Broadcast.InHand(run)]));
    case Join =>
    case Receive(i) => BroadcastProgress.TaskWorkUpdate(run.tasks, i, Broadcast.Receiving(run.tasks[i]));
    case Finish(i) => BroadcastProgress.TaskWorkUpdate(run.tasks, i, run.tasks[i].(status := Broadcast.Stored));
    case Abort(i, e) =>
      BroadcastProgress.TaskWorkUpdate(run.tasks, i, run.tasks[i].(queue := [], status := Broadcast.Failed(e)));
  }

  lemma SendFalls(s: State)
    requires Coupled(s) && Enabled(s, SendRemote) && Coupled(Next(s, SendRemote))
    ensures Measure(Next(s, SendRemote)) < Measure(s)
  {
    var i := s.run.phase.next;
    var p := if s.pipes[i].pump.Stopped? then s.pipes[i]
             else Stage.Next(s.pipes[i], Stage.Offer(Broadcast.InHand(s.run)));
    ClosingWork(s.(run := Passed(s.run), pipes := s.pipes[i := p]));
    PipesWorkUpdate(s.pipes, i, p);
  }

  lemma MoveFalls(p: Stage.Pipe, move: Stage.Action)
    requires Stage.Enabled(p, move)
    requires move.PumpRead? || move.PumpWrite? || (move.Poll? && !p.ended) || move.DropReader?
    ensures PipeWork(Stage.Next(p, move)) < PipeWork(p)
  {
  }

  /** Every step of every schedule brings the end nearer. */
  lemma MeasureFalls(s: State, a: Action)
    requires Coupled(s) && Enabled(s, a)
    ensures Coupled(Next(s, a)) && Measure(Next(s, a)) < Measure(s)
  {
    NextCoupled(s, a);
    match a
    case Elsewhere(act) => ElsewhereFalls(s, act);
    case SendRemote => SendFalls(s);
    case InPipe(i, move) =>
      MoveFalls(s.pipes[i], move);
      PipesWorkUpdate(s.pipes, i, Stage.Next(s.pipes[i], move));
    case Answer(i, failure) =>
      var s' := Next(s, a);
      BroadcastProgress.TaskWorkUpdate(s.run.tasks, i, s'.run.tasks[i]);
      PipesWorkUpdate(s.pipes, i, s'.pipes[i]);
      if !s.pipes[i].readerGone {
        MoveFalls(s.pipes[i], Stage.DropReader);
      }
  }

  lemma {:induction false} RunLength(s: State, trace: seq<Action>)
    requires Coupled(s) && Runs(s, trace)
    ensures Coupled(After(s, trace)) && |trace| + Measure(After(s, trace)) <= Measure(s)
    decreases |trace|
  {
    if trace != [] {
      MeasureFalls(s, trace[0]);
      RunLength(Next(s, trace[0]), trace[1..]);
    }
  }

  lemma {:induction false} PipesWorkOfNew(n: nat)
    ensures PipesWork(seq(n, i => Stage.EMPTY)) == 3 * n
  {
    if n > 0 {
      PipesWorkOfNew(n - 1);
      assert seq(n, i => Stage.EMPTY)[1..] == seq(n - 1, i => Stage.EMPTY);
    }
  }

  lemma InitMeasure(source: Source, n: nat, remote: set<nat>)
    ensures var s := Init(source, n, remote);
            Broadcast.ProducerInv(s.run) && Measure(s) == |source.chunks| * (5 * n + 1) + 5 * n + 1 + 4 * n
  {
    BroadcastProgress.TaskWorkOfNew(n);
    PipesWorkOfNew(n);
    var s := Init(source, n, remote);
    assert ProducerWork(s.run) == |source.chunks| * (5 * n + 1) + 5 * n + 1;
  }

  /** No schedule of a broadcast with any set of remote backends runs longer than this many steps. */
  lemma EveryRunEnds(source: Source, n: nat, remote: set<nat>, trace: seq<Action>)
    requires Runs(Init(source, n, remote), trace)
    ensures |trace| <= |source.chunks| * (5 * n + 1) + 9 * n + 1
  {
    InitCoupled(source, n, remote);
    InitMeasure(source, n, remote);
    RunLength(Init(source, n, remote), trace);
  }

  ghost predicate GentleRun(s: State, trace: seq<Action>)
    decreases |trace|
  {
    trace == [] || (Enabled(s, trace[0]) && Gentle(s, trace[0]) && GentleRun(Next(s, trace[0]), trace[1..]))
  }

  /** Whatever happened so far, the broadcast can finish with no further failure of any backend. */
  lemma {:induction false} CanFinish(s: State) returns (trace: seq<Action>)
    requires Coupled(s)
    ensures GentleRun(s, trace) && Runs(s, trace) && Finished(After(s, trace))
    decreases Measure(s)
  {
    if Finished(s) {
      trace := [];
    } else {
      NeverStuck(s);
      var a := Move(s);
      MeasureFalls(s, a);
      var rest := CanFinish(Next(s, a));
      trace := [a] + rest;
      assert trace[1..] == rest;
    }
  }

  // ---------------------------------------------------------------- outcome

  /** Nothing has gone wrong with a remote backend but the source's own failure. */
  ghost predicate Sound(s: State) {
    && |s.pipes| == |s.run.tasks|
    && forall i :: 0 <= i < |s.pipes| && i in s.remote ==>
         && (s.run.tasks[i].status.Open? ==> !s.pipes[i].readerGone)
         && (s.run.tasks[i].status.Failed? ==> s.run.source.fault.Some?)
  }

  lemma GentleSound(s: State, a: Action)
    requires Coupled(s) && Sound(s) && Enabled(s, a) && Gentle(s, a)
    ensures Sound(Next(s, a))
  {
    if a.Answer? && a.failure.Some? {
      var p := s.pipes[a.backend];
      assert PipeCoupled(s.run, a.backend, p);
      if s.run.source.fault.None? {
        assert Broadcast.SentCount(s.run, a.backend) == |Broadcast.Items(s.run.source)|;
        assert p.sent == Broadcast.Items(s.run.source);
        EndTellsFault(s.run.source, p.frames);
      }
    }
  }

  lemma {:induction false} GentleRunSound(s: State, trace: seq<Action>)
    requires Coupled(s) && Sound(s) && GentleRun(s, trace)
    ensures Runs(s, trace) && Coupled(After(s, trace)) && Sound(After(s, trace))
    ensures After(s, trace).run.source == s.run.source && After(s, trace).remote == s.remote
    ensures |After(s, trace).pipes| == |s.pipes|
    decreases |trace|
  {
    if trace != [] {
      NextCoupled(s, trace[0]);
      GentleSound(s, trace[0]);
      GentleRunSound(Next(s, trace[0]), trace[1..]);
    }
  }

  /**
   How a finished broadcast without failures of its own ends: if the source did not fail every remote
   backend has stored all of it, and otherwise every one has failed.
   */
  lemma GentleOutcome(source: Source, n: nat, remote: set<nat>, trace: seq<Action>, i: nat)
    requires i in remote && i < n && GentleRun(Init(source, n, remote), trace)
    ensures Runs(Init(source, n, remote), trace)
    ensures var s := After(Init(source, n, remote), trace);
            && |s.run.tasks| == |s.pipes| == n
            && (Finished(s) ==>
                  && (s.run.tasks[i].status.Stored? <==> source.fault.None?)
                  && (s.run.tasks[i].status.Failed? <==> source.fault.Some?)
                  && (source.fault.None? ==>
                        && |s.pipes[i].frames| == |source.chunks|
                        && forall k :: 0 <= k < |source.chunks| ==> s.pipes[i].frames[k] == Stage.Data(source.chunks[k])))
  {
    InitCoupled(source, n, remote);
    GentleRunSound(Init(source, n, remote), trace);
    RemoteDelivery(source, n, remote, trace, i);
  }
}
