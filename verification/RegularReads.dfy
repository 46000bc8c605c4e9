/**
 Reads of MULTI_SYNC that overlap with writes of their own key. A read asks the backends one after the
 other or at once, so each may answer in another state of the run. Whatever they answer is what the
 reference map held when the read began, or what an operation leaves that was not over by then.
 */
module RegularReads {
  import opened Types
  import opened Sequences
  import Broadcast
  import opened MultiSync
  import opened ReadModes

  /** From s to t the operation was in progress at some time. */
  predicate Overlaps(s: State, t: State, o: nat, k: string) {
    o < |t.ops| && t.ops[o].key == k && (o < |s.ops| ==> !s.ops[o].returned)
  }

  /** What a backend may hold in t for a read that began in s. */
  ghost predicate Current(s: State, t: State, k: string, data: Option<Bytes>) {
    data == Lookup(s.reference, k) || exists o: nat :: Overlaps(s, t, o, k) && Effect(t.ops[o]) == data
  }

  /** Operations stay, with their keys and effects, and stay returned. */
  ghost predicate OpsPersist(s: State, t: State) {
    && |t.stores| == |s.stores| && |s.ops| <= |t.ops|
    && forall o :: 0 <= o < |s.ops| ==>
         && t.ops[o].key == s.ops[o].key && Effect(t.ops[o]) == Effect(s.ops[o])
         && (s.ops[o].returned ==> t.ops[o].returned)
  }

  /** Data under a key changes only to the effect of an operation on it that has not returned. */
  lemma StepChanges(etagOf: EtagFunction, s: State, a: Action, k: string, b: nat)
    requires Shape(etagOf, s, |s.stores|) && Enabled(s, a) && b < |s.stores|
    ensures OpsPersist(s, Next(etagOf, s, a))
    ensures var s' := Next(etagOf, s, a);
            DataAt(s'.stores[b], k) != DataAt(s.stores[b], k) ==>
              exists o: nat :: Active(s, o, k) && DataAt(s'.stores[b], k) == Effect(s.ops[o])
  {
    var s' := Next(etagOf, s, a);
    if a.Step? || a.DeleteAt? {
      var op := s.ops[a.op];
      assert OpInv(op, |s.stores|);
      if a.Step? && a.step.Finish? {
        Broadcast.FinishKeepsTask(op.run, a.step.task);
        assert Broadcast.TaskInv(op.run, a.step.task);
      }
      if DataAt(s'.stores[b], k) != DataAt(s.stores[b], k) {
        assert Active(s, a.op, k) && DataAt(s'.stores[b], k) == Effect(op);
      }
    }
  }

  lemma {:induction false} RunChanges(etagOf: EtagFunction, s: State, trace: seq<Action>, k: string, b: nat)
    requires Shape(etagOf, s, |s.stores|) && Runs(etagOf, s, trace) && b < |s.stores|
    ensures OpsPersist(s, After(etagOf, s, trace))
    ensures var t := After(etagOf, s, trace);
            || DataAt(t.stores[b], k) == DataAt(s.stores[b], k)
            || exists o: nat :: Overlaps(s, t, o, k) && Effect(t.ops[o]) == DataAt(t.stores[b], k)
    decreases |trace|
  {
    if trace != [] {
      var s' := Next(etagOf, s, trace[0]);
      StepChanges(etagOf, s, trace[0], k, b);
      ShapeKept(etagOf, s, |s.stores|, trace[0]);
      RunChanges(etagOf, s', trace[1..], k, b);
      var t := After(etagOf, s', trace[1..]);
      if DataAt(t.stores[b], k) != DataAt(s.stores[b], k) {
        if DataAt(t.stores[b], k) != DataAt(s'.stores[b], k) {
          var o: nat :| Overlaps(s', t, o, k) && Effect(t.ops[o]) == DataAt(t.stores[b], k);
          assert Overlaps(s, t, o, k);
        } else {
          var o: nat :| Active(s, o, k) && DataAt(s'.stores[b], k) == Effect(s.ops[o]);
          assert Overlaps(s, t, o, k);
        }
      }
    }
  }

  /** In a state of disciplined runs a backend holds the reference or the effect of what is in progress. */
  lemma HoldsCurrent(etagOf: EtagFunction, s: State, k: string, b: nat)
    requires Agreement(etagOf, s, k) && k !in s.dirty && b < |s.stores|
    ensures Current(s, s, k, DataAt(s.stores[b], k))
  {
    if !Untouched(s, k, b) {
      var o: nat :| Active(s, o, k) && Applied(s.ops[o], b);
      assert Overlaps(s, s, o, k);
    }
  }

  lemma LaterCurrent(etagOf: EtagFunction, s: State, trace: seq<Action>, k: string, b: nat)
    requires Agreement(etagOf, s, k) && k !in s.dirty && Runs(etagOf, s, trace) && b < |s.stores|
    ensures OpsPersist(s, After(etagOf, s, trace))
    ensures Current(s, After(etagOf, s, trace), k, DataAt(After(etagOf, s, trace).stores[b], k))
  {
    HoldsCurrent(etagOf, s, k, b);
    RunChanges(etagOf, s, trace, k, b);
    var t := After(etagOf, s, trace);
    if DataAt(t.stores[b], k) == DataAt(s.stores[b], k) != Lookup(s.reference, k) {
      var o: nat :| Overlaps(s, s, o, k) && Effect(s.ops[o]) == DataAt(s.stores[b], k);
      assert Overlaps(s, t, o, k);
    }
  }

  lemma CurrentStays(s: State, t: State, u: State, k: string, data: Option<Bytes>)
    requires Current(s, t, k, data) && OpsPersist(t, u)
    ensures Current(s, u, k, data)
  {
    if data != Lookup(s.reference, k) {
      var o: nat :| Overlaps(s, t, o, k) && Effect(t.ops[o]) == data;
      assert Overlaps(s, u, o, k);
    }
  }

  /** Backend b answers in the state after the first at[b] steps, or fails with a real error. */
  ghost predicate Answers(etagOf: EtagFunction, s: State, trace: seq<Action>, at: seq<nat>, k: string,
                          results: seq<Result<StoredObject>>)
  {
    && |at| == |results| == |s.stores|
    && forall b :: 0 <= b < |at| ==>
         && at[b] <= |trace| && Runs(etagOf, s, trace[..at[b]])
         && b < |After(etagOf, s, trace[..at[b]]).stores|
         && (results[b] == GetFrom(After(etagOf, s, trace[..at[b]]).stores[b], k)
             || (results[b].Err? && results[b].error != NoSuchKey))
  }

  lemma {:induction false} RunsSplit(etagOf: EtagFunction, s: State, trace: seq<Action>, i: nat)
    requires Runs(etagOf, s, trace) && i <= |trace|
    ensures Runs(etagOf, s, trace[..i]) && Runs(etagOf, After(etagOf, s, trace[..i]), trace[i..])
    ensures After(etagOf, After(etagOf, s, trace[..i]), trace[i..]) == After(etagOf, s, trace)
    decreases |trace|
  {
    if i > 0 {
      RunsSplit(etagOf, Next(etagOf, s, trace[0]), trace[1..], i - 1);
      assert trace[..i][1..] == trace[1..][..i - 1] && trace[1..][i - 1..] == trace[i..];
    } else {
      assert trace[0..] == trace;
    }
  }

  /** What one backend's answer says is current at the end of the read. */
  lemma AnswerCurrent(etagOf: EtagFunction, s: State, trace: seq<Action>, at: seq<nat>, k: string,
                      results: seq<Result<StoredObject>>, b: nat)
    requires Agreement(etagOf, s, k) && k !in s.dirty && Runs(etagOf, s, trace)
    requires Answers(etagOf, s, trace, at, k, results) && b < |results|
    ensures var t := After(etagOf, s, trace);
            && (results[b].Ok? ==> Current(s, t, k, Some(results[b].value.data)))
            && (results[b] == Err(NoSuchKey) ==> Current(s, t, k, None))
  {
    var m := After(etagOf, s, trace[..at[b]]);
    RunsSplit(etagOf, s, trace, at[b]);
    LaterCurrent(etagOf, s, trace[..at[b]], k, b);
    ShapeAfter(etagOf, s, |s.stores|, trace[..at[b]]);
    RunChanges(etagOf, m, trace[at[b]..], k, b);
    CurrentStays(s, m, After(etagOf, s, trace), k, DataAt(m.stores[b], k));
  }

  /** An answer comes from a backend; a denial may also stand for the failure of all. */
  lemma AnswerIsOneOf(mode: ReadMode, results: seq<Result<StoredObject>>, primary: nat, order: seq<nat>)
    requires primary < |results| && IsOrder(order, |results|)
    ensures var get := ReadAnswer(mode, results, primary, order, ETAG_OF_OBJECT);
            && (get.Ok? ==> exists b :: 0 <= b < |results| && results[b] == get)
            && (get == Err(NoSuchKey) ==>
                  || (exists b :: 0 <= b < |results| && results[b] == get)
                  || forall b :: 0 <= b < |results| ==> results[b].Err?)
  {
    AnswerOutcome(mode, results, primary, order, ETAG_OF_OBJECT);
  }

  lemma CurrentObject(s: State, t: State, k: string, data: Bytes)
    requires Current(s, t, k, Some(data))
    ensures || Lookup(s.reference, k) == Some(data)
            || exists o :: 0 <= o < |t.ops| && t.ops[o].key == k && (o < |s.ops| ==> !s.ops[o].returned)
                           && t.ops[o].Put? && Concat(t.ops[o].run.source.chunks) == data
  {
  }

  lemma CurrentDenial(s: State, t: State, k: string)
    requires Current(s, t, k, None)
    ensures || k !in s.reference
            || exists o :: 0 <= o < |t.ops| && t.ops[o].key == k && (o < |s.ops| ==> !s.ops[o].returned)
                           && t.ops[o].Delete?
  {
  }

  /**
   GET is a regular read. It begins in a state that runs disciplined on the key reach, with the key not
   dirty; from then on anything may happen, overlaps and failures on the key included, and each backend
   answers in its own state. In every mode and completion order the object read is the one the reference
   map held when the read began, or one put by an operation that was in progress during the read; and a
   key is denied only if the reference had none or a delete was in progress, or if no backend answered.
   */
  lemma GetIsRegular(etagOf: EtagFunction, s0: State, run: seq<Action>, trace: seq<Action>, at: seq<nat>, k: string,
                     results: seq<Result<StoredObject>>, mode: ReadMode, primary: nat, order: seq<nat>)
    requires Fresh(etagOf, s0, k) && primary < |s0.stores| == |results| && IsOrder(order, |results|)
    requires Runs(etagOf, s0, run) && DisciplinedRun(etagOf, s0, run, k)
    requires var s := After(etagOf, s0, run);
             k !in s.dirty && Runs(etagOf, s, trace) && Answers(etagOf, s, trace, at, k, results)
    ensures var s := After(etagOf, s0, run);
            var t, get := After(etagOf, s, trace), ReadAnswer(mode, results, primary, order, ETAG_OF_OBJECT);
            && (get.Ok? ==>
                  || Lookup(s.reference, k) == Some(get.value.data)
                  || exists o :: 0 <= o < |t.ops| && t.ops[o].key == k && (o < |s.ops| ==> !s.ops[o].returned)
                                 && t.ops[o].Put? && Concat(t.ops[o].run.source.chunks) == get.value.data)
            && (get == Err(NoSuchKey) ==>
                  || k !in s.reference
                  || (exists o :: 0 <= o < |t.ops| && t.ops[o].key == k && (o < |s.ops| ==> !s.ops[o].returned)
                                  && t.ops[o].Delete?)
                  || forall b :: 0 <= b < |results| ==> results[b].Err?)
  {
    assert Agreement(etagOf, s0, k);
    AgreementAfter(etagOf, s0, run, k);
    var s := After(etagOf, s0, run);
    var t, get := After(etagOf, s, trace), ReadAnswer(mode, results, primary, order, ETAG_OF_OBJECT);
    AnswerIsOneOf(mode, results, primary, order);
    if b :| 0 <= b < |results| && results[b] == get {
      AnswerCurrent(etagOf, s, trace, at, k, results, b);
      if get.Ok? {
        CurrentObject(s, t, k, get.value.data);
      } else if get == Err(NoSuchKey) {
        CurrentDenial(s, t, k);
      }
    }
  }
}
