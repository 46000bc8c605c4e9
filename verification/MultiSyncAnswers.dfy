/**
 What the operations of MULTI_SYNC report when backends fail, and what a backend stores when it does not:
 the first failing backend, by index, with an error that this backend raised for this operation.
 */
module MultiSyncAnswers {
  import opened Types
  import opened Sequences
  import Broadcast
  import BroadcastProgress
  import opened PutObject
  import opened MultiSync

  /** The backend raised the error in a step of the operation. */
  ghost predicate Raised(trace: seq<Action>, o: nat, b: nat, e: S3Error) {
    exists j :: 0 <= j < |trace| &&
      ((trace[j].Step? && trace[j].op == o && trace[j].step == Broadcast.Abort(b, e)) || trace[j] == DeleteAt(o, b, Some(e)))
  }

  /** The error with which the backend failed the operation, apart from the source's own. */
  function FailureAt(s: State, o: nat, b: nat): Option<S3Error> {
    if o >= |s.ops| then None
    else
      match s.ops[o]
      case Put(_, run, _) =>
        if run.source.fault.None? && b < |run.tasks| && run.tasks[b].status.Failed? then Some(run.tasks[b].status.error)
        else None
      case Delete(_, at, _) => if b < |at| && at[b].DeleteFailed? then Some(at[b].error) else None
  }

  /** A step raises the error, or leaves it as it is. */
  lemma StepFailure(etagOf: EtagFunction, s: State, a: Action, o: nat, b: nat)
    requires Shape(etagOf, s, |s.stores|) && Enabled(s, a)
    ensures var before, after := FailureAt(s, o, b), FailureAt(Next(etagOf, s, a), o, b);
            || after == before
            || (before.None? && after.Some? && Raised([a], o, b, after.value))
  {
    if a.Step? && a.op == o {
      var run := s.ops[o].run;
      assert OpInv(s.ops[o], |s.stores|);
      if a.step.Receive? {
        BroadcastProgress.ReceivedItem(run, a.step.task);
      }
      assert [a][0] == a;
    }
    if a.DeleteAt? && a.op == o {
      assert [a][0] == a;
    }
  }

  lemma {:induction false} FailureRaised(etagOf: EtagFunction, s: State, trace: seq<Action>, o: nat, b: nat)
    requires Shape(etagOf, s, |s.stores|) && Runs(etagOf, s, trace)
    ensures var before, after := FailureAt(s, o, b), FailureAt(After(etagOf, s, trace), o, b);
            || after == before
            || (before.None? && after.Some? && Raised(trace, o, b, after.value))
    decreases |trace|
  {
    if trace != [] {
      var s' := Next(etagOf, s, trace[0]);
      StepFailure(etagOf, s, trace[0], o, b);
      ShapeKept(etagOf, s, |s.stores|, trace[0]);
      FailureRaised(etagOf, s', trace[1..], o, b);
      var after := FailureAt(After(etagOf, s', trace[1..]), o, b);
      if after.Some? && FailureAt(s', o, b).Some? && FailureAt(s, o, b).None? {
        assert Raised([trace[0]], o, b, after.value);
        assert trace[0] == [trace[0]][0];
      } else if after.Some? && Raised(trace[1..], o, b, after.value) {
        var j :| 0 <= j < |trace[1..]| &&
          ((trace[1..][j].Step? && trace[1..][j].op == o && trace[1..][j].step == Broadcast.Abort(b, after.value))
           || trace[1..][j] == DeleteAt(o, b, Some(after.value)));
        assert trace[j + 1] == trace[1..][j];
      }
    }
  }

  /**
   The error of a put whose source does not fail names the first backend that failed, with an error which
   that backend raised for this put; all backends before it have stored.
   */
  lemma PutError(etagOf: EtagFunction, s0: State, trace: seq<Action>, o: nat, primary: nat, k: string)
    requires Fresh(etagOf, s0, k) && primary < |s0.stores| && Runs(etagOf, s0, trace)
    requires var s := After(etagOf, s0, trace);
             Enabled(s, Return(o)) && s.ops[o].Put? && s.ops[o].key == k && s.ops[o].run.source.fault.None?
    ensures var s := After(etagOf, s0, trace);
            var run := s.ops[o].run;
            && |run.tasks| == |s0.stores| && !run.phase.Forwarding?
            && (forall i :: 0 <= i < |run.tasks| ==> !run.tasks[i].status.Open?)
            && var r := PutResult(etagOf, run, primary);
               r.Err? ==>
                 exists i :: 0 <= i < |run.tasks| && run.tasks[i].status.Failed?
                             && r.error == InternalError(PutFailedAt(i, run.tasks[i].status.error))
                             && (forall j :: 0 <= j < i ==> run.tasks[j].status.Stored?)
                             && exists t :: 0 <= t < |trace| &&
                                  ((trace[t].Step? && trace[t].op == o
                                    && trace[t].step == Broadcast.Abort(i, run.tasks[i].status.error))
                                   || trace[t] == DeleteAt(o, i, Some(run.tasks[i].status.error)))
  {
    PutAnswer(etagOf, s0, trace, o, primary, k);
    var s := After(etagOf, s0, trace);
    var run := s.ops[o].run;
    var results := TaskResults(etagOf, run.tasks);
    var i := FirstErr(results, 0);
    if i < |results| {
      FailureRaised(etagOf, s0, trace, o, i);
      assert FailureAt(s, o, i) == Some(run.tasks[i].status.error);
      forall j | 0 <= j < i ensures run.tasks[j].status.Stored? {
        assert results[j].Ok?;
      }
    }
  }

  /** What a delete returns once all backends have answered. */
  function DeleteResult(at: seq<DeleteStatus>, i: nat): Result<()>
    requires i <= |at|
    decreases |at| - i
  {
    if i == |at| then Ok(())
    else if at[i].DeleteFailed? then Err(InternalError(DeleteFailedAt(i, at[i].error)))
    else DeleteResult(at, i + 1)
  }

  lemma {:induction false} FirstDeleteError(at: seq<DeleteStatus>, i: nat)
    requires i <= |at|
    ensures var r := DeleteResult(at, i);
            && (r.Ok? <==> forall j :: i <= j < |at| ==> !at[j].DeleteFailed?)
            && (r.Err? ==> exists f :: i <= f < |at| && at[f].DeleteFailed?
                                       && r.error == InternalError(DeleteFailedAt(f, at[f].error))
                                       && forall j :: i <= j < f ==> !at[j].DeleteFailed?)
    decreases |at| - i
  {
    if i < |at| && !at[i].DeleteFailed? {
      FirstDeleteError(at, i + 1);
    }
  }

  /**
   The answer of a delete is Ok if and only if every backend has deleted. Otherwise it names the first one
   that failed, with an error which that backend raised for this delete.
   */
  lemma DeleteAnswer(etagOf: EtagFunction, s0: State, trace: seq<Action>, o: nat, k: string)
    requires Fresh(etagOf, s0, k) && Runs(etagOf, s0, trace)
    requires var s := After(etagOf, s0, trace); Enabled(s, Return(o)) && s.ops[o].Delete?
    ensures var s := After(etagOf, s0, trace);
            var at := s.ops[o].at;
            var r := DeleteResult(at, 0);
            && |at| == |s0.stores|
            && (r.Ok? <==> forall b :: 0 <= b < |at| ==> at[b].Deleted?)
            && (r.Err? ==>
                  exists f :: 0 <= f < |at| && at[f].DeleteFailed?
                              && r.error == InternalError(DeleteFailedAt(f, at[f].error))
                              && (forall j :: 0 <= j < f ==> at[j].Deleted?)
                              && exists t :: 0 <= t < |trace| &&
                                   ((trace[t].Step? && trace[t].op == o && trace[t].step == Broadcast.Abort(f, at[f].error))
                                    || trace[t] == DeleteAt(o, f, Some(at[f].error))))
  {
    ShapeAfter(etagOf, s0, |s0.stores|, trace);
    var s := After(etagOf, s0, trace);
    var at := s.ops[o].at;
    assert OpInv(s.ops[o], |s0.stores|);
    FirstDeleteError(at, 0);
    forall b | 0 <= b < |at| ensures !at[b].Waiting? {
      assert at[b] in at;
    }
    forall f | 0 <= f < |at| && at[f].DeleteFailed? ensures Raised(trace, o, f, at[f].error) {
      FailureRaised(etagOf, s0, trace, o, f);
    }
  }

  /**
   When a backend ends a put it holds the whole source under the key, with its size, ETag and this
   backend's time, and nothing else has changed anywhere.
   */
  lemma FinishStores(etagOf: EtagFunction, s0: State, trace: seq<Action>, o: nat, b: nat, now: int)
    requires Shape(etagOf, s0, |s0.stores|) && Runs(etagOf, s0, trace)
    requires Enabled(After(etagOf, s0, trace), Step(o, Broadcast.Finish(b), now))
    ensures var s := After(etagOf, s0, trace);
            var data := Concat(s.ops[o].run.source.chunks);
            Next(etagOf, s, Step(o, Broadcast.Finish(b), now)).stores ==
            s.stores[b := s.stores[b][s.ops[o].key := StoredObject(data,
              ObjectMetadata(s.ops[o].key, |data|, etagOf(data), now, "binary/octet-stream"))]]
  {
    ShapeAfter(etagOf, s0, |s0.stores|, trace);
    var s := After(etagOf, s0, trace);
    assert OpInv(s.ops[o], |s.stores|);
    Broadcast.FinishKeepsTask(s.ops[o].run, b);
  }
}
