/**
 MULTI_SYNC as a concurrent system: any number of puts and deletes in progress at once, each put a
 broadcast of its own whose steps, and each delete's steps, interleave freely on shared stores.
 */
module MultiSync {
  import opened Types
  import opened Sequences
  import opened InMemoryStorage
  import Broadcast
  import BroadcastProgress
  import opened PutObject

  datatype DeleteStatus = Waiting | Deleted | DeleteFailed(error: S3Error)

  datatype Op =
    | Put(key: string, run: Broadcast.State, returned: bool)
    | Delete(key: string, at: seq<DeleteStatus>, returned: bool)

  /**
   reference: what a single store would hold after the operations that succeeded, in the order in
   which they returned; dirty: keys on which the last operation to return reported a backend failure.
   */
  datatype State = State(stores: seq<Store>, ops: seq<Op>, reference: map<string, Bytes>, dirty: set<string>)

  datatype Action =
    | StartPut(key: string, source: Source)
    | StartDelete(key: string)
    | Step(op: nat, step: Broadcast.Action, now: int)
    | DeleteAt(op: nat, backend: nat, failure: Option<S3Error>)
    | Return(op: nat)

  predicate Succeeded(op: Op) {
    match op
    case Put(_, run, _) => run.source.fault.None? && forall t :: t in run.tasks ==> t.status.Stored?
    case Delete(_, at, _) => forall d :: d in at ==> d.Deleted?
  }

  /** All backends have answered, or the put has returned its source's error. */
  predicate Answered(op: Op) {
    match op
    case Put(_, run, _) => Broadcast.Returned(run)
    case Delete(_, at, _) => forall d :: d in at ==> !d.Waiting?
  }

  predicate Enabled(s: State, a: Action) {
    match a
    case StartPut(_, _) => true
    case StartDelete(_) => true
    case Step(o, act, _) =>
      && o < |s.ops| && s.ops[o].Put? && Broadcast.Enabled(s.ops[o].run, act)
      && (act.Finish? ==> act.task < |s.stores|)
    case DeleteAt(o, b, _) =>
      && o < |s.ops| && s.ops[o].Delete? && b < |s.ops[o].at| && b < |s.stores| && s.ops[o].at[b].Waiting?
    case Return(o) => o < |s.ops| && !s.ops[o].returned && Answered(s.ops[o])
  }

  function Next(etagOf: EtagFunction, s: State, a: Action): State
    requires Enabled(s, a)
  {
    match a
    case StartPut(k, source) =>
      s.(ops := s.ops + [Put(k, Broadcast.Init(source, |s.stores|), false)])
    case StartDelete(k) =>
      s.(ops := s.ops + [Delete(k, seq(|s.stores|, i => Waiting), false)])
    case Step(o, act, now) =>
      var op := s.ops[o];
      var stores :=
        if act.Finish? then
          var data := Concat(op.run.tasks[act.task].consumed);
          s.stores[act.task := s.stores[act.task][op.key := MakeObject(etagOf, op.key, data, now)]]
        else s.stores;
      s.(stores := stores, ops := s.ops[o := op.(run := Broadcast.Next(op.run, act))])
    case DeleteAt(o, b, failure) =>
      var op := s.ops[o];
      if failure.Some? then
        s.(ops := s.ops[o := op.(at := op.at[b := DeleteFailed(failure.value)])])
      else
        s.(stores := s.stores[b := s.stores[b] - {op.key}], ops := s.ops[o := op.(at := op.at[b := Deleted])])
    case Return(o) =>
      var op := s.ops[o];
      var t := s.(ops := s.ops[o := op.(returned := true)]);
      if Succeeded(op) then
        t.(reference := if op.Put? then s.reference[op.key := Concat(op.run.source.chunks)]
                        else s.reference - {op.key},
           dirty := s.dirty - {op.key})
      else if op.Put? && op.run.source.fault.Some? then t
      else t.(dirty := s.dirty + {op.key})
  }

  ghost predicate Runs(etagOf: EtagFunction, s: State, trace: seq<Action>)
    decreases |trace|
  {
    trace == [] || (Enabled(s, trace[0]) && Runs(etagOf, Next(etagOf, s, trace[0]), trace[1..]))
  }

  ghost function After(etagOf: EtagFunction, s: State, trace: seq<Action>): State
    requires Runs(etagOf, s, trace)
    decreases |trace|
  {
    if trace == [] then s else After(etagOf, Next(etagOf, s, trace[0]), trace[1..])
  }

  // ---------------------------------------------------------------- without any discipline

  ghost predicate OpInv(op: Op, n: nat) {
    match op
    case Put(_, run, returned) =>
      Broadcast.Inv(run) && |run.tasks| == n && (returned ==> Broadcast.Returned(run))
    case Delete(_, at, returned) =>
      |at| == n && (returned ==> forall b :: 0 <= b < n ==> !at[b].Waiting?)
  }

  ghost predicate Shape(etagOf: EtagFunction, s: State, n: nat) {
    && |s.stores| == n
    && (forall b :: 0 <= b < n ==> WellFormed(etagOf, s.stores[b]))
    && (forall o :: 0 <= o < |s.ops| ==> OpInv(s.ops[o], n))
  }

  lemma ShapeKept(etagOf: EtagFunction, s: State, n: nat, a: Action)
    requires Shape(etagOf, s, n) && Enabled(s, a)
    ensures Shape(etagOf, Next(etagOf, s, a), n)
  {
    var s' := Next(etagOf, s, a);
    match a
    case StartPut(_, source) => Broadcast.InitInv(source, n);
    case Step(o, act, _) =>
      assert OpInv(s.ops[o], n);
      Broadcast.NextInv(s.ops[o].run, act);
    case StartDelete(_) =>
    case DeleteAt(o, _, _) => assert OpInv(s.ops[o], n);
    case Return(o) => assert OpInv(s.ops[o], n);
  }

  lemma {:induction false} ShapeAfter(etagOf: EtagFunction, s: State, n: nat, trace: seq<Action>)
    requires Shape(etagOf, s, n) && Runs(etagOf, s, trace)
    ensures Shape(etagOf, After(etagOf, s, trace), n)
    decreases |trace|
  {
    if trace != [] {
      ShapeKept(etagOf, s, n, trace[0]);
      ShapeAfter(etagOf, Next(etagOf, s, trace[0]), n, trace[1..]);
    }
  }

  /**
   Source-error atomicity, over every schedule and with no discipline on the clients: no step of a
   put whose source fails ever changes a store, before or after the put has returned the error.
   */
  lemma FailingSourceWritesNothing(etagOf: EtagFunction, s0: State, trace: seq<Action>, a: Action)
    requires Shape(etagOf, s0, |s0.stores|) && Runs(etagOf, s0, trace)
    requires Enabled(After(etagOf, s0, trace), a) && a.Step?
    requires After(etagOf, s0, trace).ops[a.op].run.source.fault.Some?
    ensures Next(etagOf, After(etagOf, s0, trace), a).stores == After(etagOf, s0, trace).stores
  {
    ShapeAfter(etagOf, s0, |s0.stores|, trace);
    var s := After(etagOf, s0, trace);
    assert OpInv(s.ops[a.op], |s.stores|);
    if a.step.Finish? {
      BroadcastProgress.FaultNeverStores(s.ops[a.op].run, a.step.task);
    }
  }

  // ---------------------------------------------------------------- non-overlapping operations

  ghost predicate Active(s: State, o: nat, k: string) {
    o < |s.ops| && s.ops[o].key == k && !s.ops[o].returned
  }

  predicate IsStart(a: Action) {
    a.StartPut? || a.StartDelete?
  }

  /** The key of the operation that the action starts or carries on. */
  function KeyOf(s: State, a: Action): string
    requires Enabled(s, a)
  {
    if IsStart(a) then a.key else s.ops[a.op].key
  }

  /** An operation on k starts only when no other one on k is in progress; other keys are free. */
  ghost predicate Disciplined(s: State, a: Action, k: string) {
    IsStart(a) && a.key == k ==> forall o: nat :: !Active(s, o, k)
  }

  ghost predicate DisciplinedRun(etagOf: EtagFunction, s: State, trace: seq<Action>, k: string)
    requires Runs(etagOf, s, trace)
    decreases |trace|
  {
    trace == [] || (Disciplined(s, trace[0], k) && DisciplinedRun(etagOf, Next(etagOf, s, trace[0]), trace[1..], k))
  }

  lemma {:induction false} PrefixRuns(etagOf: EtagFunction, s: State, trace: seq<Action>, i: nat)
    requires Runs(etagOf, s, trace) && i <= |trace|
    ensures Runs(etagOf, s, trace[..i])
    decreases |trace|
  {
    if i > 0 {
      PrefixRuns(etagOf, Next(etagOf, s, trace[0]), trace[1..], i - 1);
      assert trace[..i][1..] == trace[1..][..i - 1];
    }
  }

  /** Discipline, step by step: when an operation on k starts, every earlier one on k has returned. */
  ghost predicate StartsAlone(etagOf: EtagFunction, s: State, trace: seq<Action>, k: string, i: nat)
    requires i < |trace| && Runs(etagOf, s, trace[..i])
  {
    IsStart(trace[i]) && trace[i].key == k ==>
      forall o :: 0 <= o < |After(etagOf, s, trace[..i]).ops| && After(etagOf, s, trace[..i]).ops[o].key == k ==>
                    After(etagOf, s, trace[..i]).ops[o].returned
  }

  lemma StartsAloneTail(etagOf: EtagFunction, s: State, trace: seq<Action>, k: string, i: nat)
    requires Runs(etagOf, s, trace) && 0 < i < |trace|
    ensures Runs(etagOf, s, trace[..i]) && Runs(etagOf, Next(etagOf, s, trace[0]), trace[1..][..i - 1])
    ensures StartsAlone(etagOf, s, trace, k, i) <==>
            StartsAlone(etagOf, Next(etagOf, s, trace[0]), trace[1..], k, i - 1)
  {
    PrefixRuns(etagOf, s, trace, i);
    PrefixRuns(etagOf, Next(etagOf, s, trace[0]), trace[1..], i - 1);
    assert trace[..i][1..] == trace[1..][..i - 1] && trace[..i][0] == trace[0];
    assert After(etagOf, s, trace[..i]) == After(etagOf, Next(etagOf, s, trace[0]), trace[1..][..i - 1]);
    assert trace[1..][i - 1] == trace[i];
  }

  lemma {:induction false} DisciplinedExactly(etagOf: EtagFunction, s: State, trace: seq<Action>, k: string)
    requires Runs(etagOf, s, trace)
    ensures forall i: nat :: i <= |trace| ==> Runs(etagOf, s, trace[..i])
    ensures DisciplinedRun(etagOf, s, trace, k) <==>
            forall i: nat :: i < |trace| ==> StartsAlone(etagOf, s, trace, k, i)
    decreases |trace|
  {
    forall i: nat | i <= |trace| ensures Runs(etagOf, s, trace[..i]) {
      PrefixRuns(etagOf, s, trace, i);
    }
    if trace != [] {
      var s', rest := Next(etagOf, s, trace[0]), trace[1..];
      DisciplinedExactly(etagOf, s', rest, k);
      assert Disciplined(s, trace[0], k) <==> StartsAlone(etagOf, s, trace, k, 0) by {
        assert trace[..0] == [] && After(etagOf, s, trace[..0]) == s;
        if StartsAlone(etagOf, s, trace, k, 0) && IsStart(trace[0]) && trace[0].key == k {
          forall o: nat ensures !Active(s, o, k) {
            if o < |s.ops| && s.ops[o].key == k {
              assert After(etagOf, s, trace[..0]).ops[o].returned;
            }
          }
        }
        if Disciplined(s, trace[0], k) && IsStart(trace[0]) && trace[0].key == k {
          forall o | 0 <= o < |s.ops| && s.ops[o].key == k ensures s.ops[o].returned {
            assert !Active(s, o, k);
          }
        }
      }
      forall i: nat | 0 < i < |trace|
        ensures StartsAlone(etagOf, s, trace, k, i) <==> StartsAlone(etagOf, s', rest, k, i - 1)
      {
        StartsAloneTail(etagOf, s, trace, k, i);
      }
      if forall i: nat :: i < |trace| ==> StartsAlone(etagOf, s, trace, k, i) {
        forall i: nat | i < |rest| ensures StartsAlone(etagOf, s', rest, k, i) {
          assert StartsAlone(etagOf, s, trace, k, i + 1);
        }
      }
    }
  }

  predicate Applied(op: Op, b: nat) {
    match op
    case Put(_, run, _) => b < |run.tasks| && run.tasks[b].status.Stored?
    case Delete(_, at, _) => b < |at| && at[b].Deleted?
  }

  /** What the operation leaves under its key on a backend that applied it. */
  function Effect(op: Op): Option<Bytes> {
    match op
    case Put(_, run, _) => Some(Concat(run.source.chunks))
    case Delete(_, _, _) => None
  }

  ghost predicate AtMostOneActive(s: State, k: string) {
    forall o, p :: 0 <= o < p < |s.ops| && s.ops[o].key == k && s.ops[p].key == k ==>
                     s.ops[o].returned || s.ops[p].returned
  }

  ghost predicate ActiveApplied(s: State, k: string) {
    forall o, b :: 0 <= o < |s.ops| && s.ops[o].key == k && 0 <= b < |s.stores|
                   && !s.ops[o].returned && Applied(s.ops[o], b) ==>
                     DataAt(s.stores[b], k) == Effect(s.ops[o])
  }

  /** No operation in progress on the key has reached the backend yet. */
  ghost predicate Untouched(s: State, k: string, b: nat) {
    forall o: nat :: Active(s, o, k) ==> !Applied(s.ops[o], b)
  }

  ghost predicate FollowsReference(s: State, k: string) {
    forall b :: 0 <= b < |s.stores| && k !in s.dirty && Untouched(s, k, b) ==>
                  DataAt(s.stores[b], k) == Lookup(s.reference, k)
  }

  ghost predicate Agreement(etagOf: EtagFunction, s: State, k: string) {
    && Shape(etagOf, s, |s.stores|)
    && AtMostOneActive(s, k) && ActiveApplied(s, k) && FollowsReference(s, k)
  }

  /** Nothing that concerns the key differs: data, reference and operations on it. */
  ghost predicate SameOn(s: State, s': State, k: string) {
    && |s'.stores| == |s.stores| && |s.ops| <= |s'.ops|
    && (forall b :: 0 <= b < |s.stores| ==> DataAt(s'.stores[b], k) == DataAt(s.stores[b], k))
    && Lookup(s'.reference, k) == Lookup(s.reference, k) && (k in s'.dirty <==> k in s.dirty)
    && (forall o :: 0 <= o < |s.ops| && s.ops[o].key == k ==> s'.ops[o] == s.ops[o])
    && (forall o :: 0 <= o < |s'.ops| && s'.ops[o].key == k ==> o < |s.ops| && s'.ops[o] == s.ops[o])
  }

  lemma OtherKeysApart(etagOf: EtagFunction, s: State, a: Action, k: string)
    requires Enabled(s, a) && KeyOf(s, a) != k
    ensures SameOn(s, Next(etagOf, s, a), k)
  {
  }

  lemma OtherKeeps(etagOf: EtagFunction, s: State, s': State, k: string)
    requires Agreement(etagOf, s, k) && SameOn(s, s', k) && Shape(etagOf, s', |s.stores|)
    ensures Agreement(etagOf, s', k)
  {
    forall b | 0 <= b < |s.stores| && k !in s.dirty && Untouched(s', k, b)
      ensures DataAt(s'.stores[b], k) == Lookup(s.reference, k)
    {
      forall o: nat | Active(s, o, k) ensures !Applied(s.ops[o], b) {
        assert Active(s', o, k);
      }
    }
  }

  lemma StartKeeps(etagOf: EtagFunction, s: State, a: Action)
    requires IsStart(a) && Agreement(etagOf, s, a.key) && Disciplined(s, a, a.key)
    ensures Agreement(etagOf, Next(etagOf, s, a), a.key)
  {
    var s', k := Next(etagOf, s, a), a.key;
    ShapeKept(etagOf, s, |s.stores|, a);
    forall o, p | 0 <= o < p < |s'.ops| && s'.ops[o].key == k && s'.ops[p].key == k
      ensures s'.ops[o].returned || s'.ops[p].returned
    {
      assert !Active(s, o, k);
    }
    forall b | 0 <= b < |s.stores| && k !in s.dirty && Untouched(s', k, b)
      ensures DataAt(s.stores[b], k) == Lookup(s.reference, k)
    {
      assert Untouched(s, k, b);
    }
  }

  /** One backend of one operation in progress changes from waiting to applied, or does not change. */
  lemma BackendStepKeeps(etagOf: EtagFunction, s: State, s': State, o: nat, b: nat)
    requires o < |s.ops| && !s.ops[o].returned && b < |s.stores|
    requires Agreement(etagOf, s, s.ops[o].key) && Shape(etagOf, s', |s.stores|)
    requires s'.reference == s.reference && s'.dirty == s.dirty
    requires |s'.ops| == |s.ops| && forall p :: 0 <= p < |s.ops| && p != o ==> s'.ops[p] == s.ops[p]
    requires s'.ops[o].key == s.ops[o].key && !s'.ops[o].returned && Effect(s'.ops[o]) == Effect(s.ops[o])
    requires forall c :: 0 <= c < |s.stores| && c != b ==>
               s'.stores[c] == s.stores[c] && Applied(s'.ops[o], c) == Applied(s.ops[o], c)
    requires Applied(s'.ops[o], b) && DataAt(s'.stores[b], s.ops[o].key) == Effect(s.ops[o])
    ensures Agreement(etagOf, s', s.ops[o].key)
  {
    var k := s.ops[o].key;
    forall c | 0 <= c < |s.stores| && k !in s.dirty && Untouched(s', k, c)
      ensures DataAt(s'.stores[c], k) == Lookup(s.reference, k)
    {
      assert Active(s', o, k);
      assert c != b;
      forall p: nat | Active(s, p, k) ensures !Applied(s.ops[p], c) {
        assert Active(s', p, k);
      }
    }
    forall p, c | 0 <= p < |s.ops| && s'.ops[p].key == k && 0 <= c < |s.stores|
                  && !s'.ops[p].returned && Applied(s'.ops[p], c)
      ensures DataAt(s'.stores[c], k) == Effect(s'.ops[p])
    {
    }
  }

  /** A step that changes no store and applies nothing anywhere. */
  lemma QuietStepKeeps(etagOf: EtagFunction, s: State, s': State, k: string)
    requires Agreement(etagOf, s, k) && Shape(etagOf, s', |s.stores|)
    requires s'.stores == s.stores && s'.reference == s.reference && s'.dirty == s.dirty
    requires |s'.ops| == |s.ops|
    requires forall p :: 0 <= p < |s.ops| ==>
               && s'.ops[p].key == s.ops[p].key
               && s'.ops[p].returned == s.ops[p].returned
               && Effect(s'.ops[p]) == Effect(s.ops[p])
    requires forall p, c :: 0 <= p < |s.ops| && 0 <= c < |s.stores| ==> Applied(s'.ops[p], c) == Applied(s.ops[p], c)
    ensures Agreement(etagOf, s', k)
  {
    forall c | 0 <= c < |s.stores| && k !in s.dirty && Untouched(s', k, c)
      ensures DataAt(s.stores[c], k) == Lookup(s.reference, k)
    {
      forall p: nat | Active(s, p, k) ensures !Applied(s.ops[p], c) {
        assert Active(s', p, k);
      }
    }
  }

  lemma StepKeeps(etagOf: EtagFunction, s: State, a: Action)
    requires a.Step? && Enabled(s, a) && Agreement(etagOf, s, KeyOf(s, a))
    ensures Agreement(etagOf, Next(etagOf, s, a), KeyOf(s, a))
  {
    var n, s', op := |s.stores|, Next(etagOf, s, a), s.ops[a.op];
    ShapeKept(etagOf, s, n, a);
    assert OpInv(op, n);
    if a.step.Finish? {
      Broadcast.FinishKeepsTask(op.run, a.step.task);
      assert Broadcast.TaskInv(op.run, a.step.task);
      BackendStepKeeps(etagOf, s, s', a.op, a.step.task);
    } else {
      QuietStepKeeps(etagOf, s, s', op.key);
    }
  }

  lemma DeleteKeeps(etagOf: EtagFunction, s: State, a: Action)
    requires a.DeleteAt? && Enabled(s, a) && Agreement(etagOf, s, KeyOf(s, a))
    ensures Agreement(etagOf, Next(etagOf, s, a), KeyOf(s, a))
  {
    var n, s' := |s.stores|, Next(etagOf, s, a);
    ShapeKept(etagOf, s, n, a);
    assert OpInv(s.ops[a.op], n);
    if a.failure.Some? {
      QuietStepKeeps(etagOf, s, s', s.ops[a.op].key);
    } else {
      BackendStepKeeps(etagOf, s, s', a.op, a.backend);
    }
  }

  lemma AnsweredApplied(s: State, o: nat, n: nat, b: nat)
    requires o < |s.ops| && OpInv(s.ops[o], n) && Answered(s.ops[o]) && b < n
    ensures Succeeded(s.ops[o]) ==> Applied(s.ops[o], b)
    ensures s.ops[o].Put? && s.ops[o].run.source.fault.Some? ==> !Applied(s.ops[o], b)
  {
    match s.ops[o]
    case Put(_, run, _) =>
      assert Broadcast.TaskInv(run, b);
      assert run.tasks[b] in run.tasks;
    case Delete(_, at, _) => assert at[b] in at;
  }

  lemma ReturnKeeps(etagOf: EtagFunction, s: State, a: Action)
    requires a.Return? && Enabled(s, a) && Agreement(etagOf, s, KeyOf(s, a))
    ensures Agreement(etagOf, Next(etagOf, s, a), KeyOf(s, a))
  {
    var n, s', op := |s.stores|, Next(etagOf, s, a), s.ops[a.op];
    ShapeKept(etagOf, s, n, a);
    assert OpInv(op, n);
    forall b | 0 <= b < n && op.key !in s'.dirty && Untouched(s', op.key, b)
      ensures DataAt(s'.stores[b], op.key) == Lookup(s'.reference, op.key)
    {
      AnsweredApplied(s, a.op, n, b);
      if Succeeded(op) {
        assert Lookup(s'.reference, op.key) == Effect(op);
      } else {
        forall p: nat | Active(s, p, op.key) ensures !Applied(s.ops[p], b) {
          assert p == a.op || Active(s', p, op.key);
        }
      }
    }
  }

  lemma {:induction false} AgreementAfter(etagOf: EtagFunction, s: State, trace: seq<Action>, k: string)
    requires Agreement(etagOf, s, k) && Runs(etagOf, s, trace) && DisciplinedRun(etagOf, s, trace, k)
    ensures Agreement(etagOf, After(etagOf, s, trace), k)
    ensures |After(etagOf, s, trace).stores| == |s.stores|
    decreases |trace|
  {
    if trace != [] {
      var a := trace[0];
      if KeyOf(s, a) != k {
        ShapeKept(etagOf, s, |s.stores|, a);
        OtherKeysApart(etagOf, s, a, k);
        OtherKeeps(etagOf, s, Next(etagOf, s, a), k);
      } else {
        match a
        case StartPut(_, _) => StartKeeps(etagOf, s, a);
        case StartDelete(_) => StartKeeps(etagOf, s, a);
        case Step(_, _, _) => StepKeeps(etagOf, s, a);
        case DeleteAt(_, _, _) => DeleteKeeps(etagOf, s, a);
        case Return(_) => ReturnKeeps(etagOf, s, a);
      }
      AgreementAfter(etagOf, Next(etagOf, s, a), trace[1..], k);
    }
  }

  // ---------------------------------------------------------------- the guarantees

  /** Replicas that start with the reference map's data under the key, with no operation in progress. */
  ghost predicate Fresh(etagOf: EtagFunction, s: State, k: string) {
    && s.ops == [] && k !in s.dirty
    && forall b :: 0 <= b < |s.stores| ==> WellFormed(etagOf, s.stores[b]) && DataAt(s.stores[b], k) == Lookup(s.reference, k)
  }

  /**
   In every reachable state all replicas agree with the reference map on a key that has no operation in
   progress and whose last operation did not report a backend failure. Operations on this key must not
   have overlapped; what happened on other keys does not matter.
   */
  lemma ReplicasFollowReference(etagOf: EtagFunction, s0: State, trace: seq<Action>, k: string, b: nat)
    requires Fresh(etagOf, s0, k) && b < |s0.stores|
    requires Runs(etagOf, s0, trace) && DisciplinedRun(etagOf, s0, trace, k)
    ensures var s := After(etagOf, s0, trace);
            && |s.stores| == |s0.stores|
            && ((forall o: nat :: !Active(s, o, k)) && k !in s.dirty ==>
                  DataAt(s.stores[b], k) == Lookup(s.reference, k))
  {
    assert Agreement(etagOf, s0, k);
    AgreementAfter(etagOf, s0, trace, k);
    var s := After(etagOf, s0, trace);
    assert (forall o: nat :: !Active(s, o, k)) ==> Untouched(s, k, b);
  }

  predicate FailureFree(a: Action) {
    && !(a.Step? && a.step.Abort?)
    && !(a.DeleteAt? && a.failure.Some?)
  }

  /** No backend fails an operation on the key. */
  ghost predicate FailureFreeRun(etagOf: EtagFunction, s: State, trace: seq<Action>, k: string)
    requires Runs(etagOf, s, trace)
    decreases |trace|
  {
    trace == [] ||
    ((KeyOf(s, trace[0]) == k ==> FailureFree(trace[0]))
     && FailureFreeRun(etagOf, Next(etagOf, s, trace[0]), trace[1..], k))
  }

  /** Nothing has failed in the operation but its own source. */
  predicate Unfailed(op: Op) {
    match op
    case Put(_, run, _) =>
      run.source.fault.None? ==> forall i :: 0 <= i < |run.tasks| ==> !run.tasks[i].status.Failed?
    case Delete(_, at, _) => forall d :: d in at ==> !d.DeleteFailed?
  }

  ghost predicate Clean(s: State, k: string) {
    k !in s.dirty && forall o :: 0 <= o < |s.ops| && s.ops[o].key == k ==> Unfailed(s.ops[o])
  }

  lemma UnfailedSucceeds(op: Op, n: nat)
    requires OpInv(op, n) && Answered(op) && Unfailed(op)
    ensures Succeeded(op) || (op.Put? && op.run.source.fault.Some?)
  {
    if op.Put? && op.run.source.fault.None? {
      forall t | t in op.run.tasks ensures t.status.Stored? {
        var i :| 0 <= i < |op.run.tasks| && op.run.tasks[i] == t;
        assert Broadcast.TaskInv(op.run, i);
      }
    }
  }

  lemma CleanKept(etagOf: EtagFunction, s: State, n: nat, a: Action, k: string)
    requires Shape(etagOf, s, n) && Clean(s, k) && Enabled(s, a)
    requires KeyOf(s, a) == k ==> FailureFree(a)
    ensures Clean(Next(etagOf, s, a), k)
  {
    if KeyOf(s, a) != k {
      OtherKeysApart(etagOf, s, a, k);
    } else {
      match a
      case Step(o, act, _) =>
        assert OpInv(s.ops[o], n);
        if act.Receive? {
          BroadcastProgress.ReceivedItem(s.ops[o].run, act.task);
        }
      case Return(o) => UnfailedSucceeds(s.ops[o], n);
      case StartPut(_, _) =>
      case StartDelete(_) =>
      case DeleteAt(o, _, _) =>
    }
  }

  lemma {:induction false} CleanAfter(etagOf: EtagFunction, s: State, n: nat, trace: seq<Action>, k: string)
    requires Shape(etagOf, s, n) && Clean(s, k) && Runs(etagOf, s, trace) && FailureFreeRun(etagOf, s, trace, k)
    ensures Clean(After(etagOf, s, trace), k)
    decreases |trace|
  {
    if trace != [] {
      ShapeKept(etagOf, s, n, trace[0]);
      CleanKept(etagOf, s, n, trace[0], k);
      CleanAfter(etagOf, Next(etagOf, s, trace[0]), n, trace[1..], k);
    }
  }

  /**
   In every reachable state, whatever goes on on other keys, the replicas hold the reference map's data
   under a key that has no operation in progress and is not dirty, with metadata that is equal up to the
   time stamp. In-memory backends never fail, and then the key is never dirty.
   */
  lemma InMemoryReplicasEqual(etagOf: EtagFunction, s0: State, trace: seq<Action>, k: string, b: nat, c: nat)
    requires Fresh(etagOf, s0, k) && b < |s0.stores| && c < |s0.stores|
    requires Runs(etagOf, s0, trace) && DisciplinedRun(etagOf, s0, trace, k)
    ensures var s := After(etagOf, s0, trace);
            && |s.stores| == |s0.stores|
            && (FailureFreeRun(etagOf, s0, trace, k) ==> k !in s.dirty)
            && ((forall o: nat :: !Active(s, o, k)) && k !in s.dirty ==>
                  && DataAt(s.stores[b], k) == Lookup(s.reference, k)
                  && (k in s.stores[b] <==> k in s.stores[c])
                  && (k in s.stores[b] ==> Timeless(s.stores[b][k].metadata) == Timeless(s.stores[c][k].metadata)))
  {
    ShapeAfter(etagOf, s0, |s0.stores|, trace);
    if FailureFreeRun(etagOf, s0, trace, k) {
      CleanAfter(etagOf, s0, |s0.stores|, trace, k);
    }
    ReplicasFollowReference(etagOf, s0, trace, k, b);
    ReplicasFollowReference(etagOf, s0, trace, k, c);
    var s := After(etagOf, s0, trace);
    if DataAt(s.stores[b], k) == DataAt(s.stores[c], k) {
      SameUpToTime(etagOf, s.stores[b], s.stores[c], k);
    }
  }

  /** What the backends' tasks returned, in the order of the backends. */
  function TaskResults(etagOf: EtagFunction, tasks: seq<Broadcast.Task>): seq<Result<string>>
    requires forall i :: 0 <= i < |tasks| ==> !tasks[i].status.Open?
  {
    seq(|tasks|, i requires 0 <= i < |tasks| => TaskResult(etagOf, tasks[i]))
  }

  /** What a put returns to the client once its broadcast has returned. */
  function PutResult(etagOf: EtagFunction, run: Broadcast.State, primary: nat): Result<string>
    requires run.phase.Forwarding? ==> run.source.fault.Some?
    requires !run.phase.Forwarding? ==> forall i :: 0 <= i < |run.tasks| ==> !run.tasks[i].status.Open?
    requires primary < |run.tasks|
  {
    if run.phase.Forwarding? then Err(run.source.fault.value)
    else Collected(TaskResults(etagOf, run.tasks), primary)
  }

  /**
   The answer of a put tells exactly what happened, whatever else goes on: it is Ok if and only if every
   backend stored the object, and it is then the ETag of the concatenated chunks. If operations on its
   key did not overlap, every replica then holds them.
   */
  lemma PutAnswer(etagOf: EtagFunction, s0: State, trace: seq<Action>, o: nat, primary: nat, k: string)
    requires Fresh(etagOf, s0, k) && primary < |s0.stores| && Runs(etagOf, s0, trace)
    requires var s := After(etagOf, s0, trace); Enabled(s, Return(o)) && s.ops[o].Put? && s.ops[o].key == k
    ensures var s := After(etagOf, s0, trace);
            var run := s.ops[o].run;
            && |run.tasks| == |s.stores| == |s0.stores|
            && (run.phase.Forwarding? ==> run.source.fault.Some?)
            && (!run.phase.Forwarding? ==> forall i :: 0 <= i < |run.tasks| ==> !run.tasks[i].status.Open?)
            && var r := PutResult(etagOf, run, primary);
               && (r.Ok? <==> Succeeded(s.ops[o]))
               && (run.source.fault.Some? ==> r == Err(run.source.fault.value))
               && (r.Ok? ==> r.value == etagOf(Concat(run.source.chunks)))
               && (r.Ok? && DisciplinedRun(etagOf, s0, trace, k) ==>
                     forall b :: 0 <= b < |s.stores| ==>
                       DataAt(s.stores[b], k) == Some(Concat(run.source.chunks)))
  {
    ShapeAfter(etagOf, s0, |s0.stores|, trace);
    var s := After(etagOf, s0, trace);
    var run, n := s.ops[o].run, |s.stores|;
    assert OpInv(s.ops[o], n);
    forall i | 0 <= i < n
      ensures run.phase.Joining? ==> !run.tasks[i].status.Open?
      ensures run.tasks[i].status.Stored? ==> run.tasks[i].consumed == run.source.chunks
      ensures run.source.fault.Some? ==> !run.tasks[i].status.Stored?
    {
      assert Broadcast.TaskInv(run, i);
    }
    if run.phase.Joining? {
      PutResultOfTasks(etagOf, run, primary);
    } else {
      assert run.tasks[primary] in run.tasks;
    }
    if Succeeded(s.ops[o]) && DisciplinedRun(etagOf, s0, trace, k) {
      AgreementAfter(etagOf, s0, trace, k);
      forall b | 0 <= b < n ensures Applied(s.ops[o], b) {
        assert run.tasks[b] in run.tasks;
      }
    }
  }

  lemma PutResultOfTasks(etagOf: EtagFunction, run: Broadcast.State, primary: nat)
    requires run.phase.Joining? && run.source.fault.None? && primary < |run.tasks|
    requires forall i :: 0 <= i < |run.tasks| ==>
               && !run.tasks[i].status.Open?
               && (run.tasks[i].status.Stored? ==> run.tasks[i].consumed == run.source.chunks)
    ensures var r := PutResult(etagOf, run, primary);
            && (r.Ok? <==> forall t :: t in run.tasks ==> t.status.Stored?)
            && (r.Ok? ==> r.value == etagOf(Concat(run.source.chunks)))
  {
    var results := TaskResults(etagOf, run.tasks);
    var i := FirstErr(results, 0);
    if i < |results| {
      assert run.tasks[i] in run.tasks;
    } else {
      forall t | t in run.tasks ensures t.status.Stored? {
        var j :| 0 <= j < |run.tasks| && run.tasks[j] == t;
        assert results[j].Ok?;
      }
    }
  }

  /**
   A put or delete that some backend failed is not rolled back. On a key where the replicas agreed
   before, they still agree when it returns if and only if every backend applied it, or none did, or it
   leaves what they held already.
   */
  lemma PartialFailure(etagOf: EtagFunction, s0: State, trace: seq<Action>, o: nat, k: string)
    requires Fresh(etagOf, s0, k) && |s0.stores| > 0
    requires Runs(etagOf, s0, trace) && DisciplinedRun(etagOf, s0, trace, k)
    requires var s := After(etagOf, s0, trace); Enabled(s, Return(o)) && s.ops[o].key == k && k !in s.dirty
    ensures var s := After(etagOf, s0, trace);
            var op := s.ops[o];
            (forall b, c :: 0 <= b < |s.stores| && 0 <= c < |s.stores| ==>
               DataAt(s.stores[b], k) == DataAt(s.stores[c], k))
            <==>
            || (forall b :: 0 <= b < |s.stores| ==> Applied(op, b))
            || (forall b :: 0 <= b < |s.stores| ==> !Applied(op, b))
            || Lookup(s.reference, k) == Effect(op)
  {
    assert Agreement(etagOf, s0, k);
    AgreementAfter(etagOf, s0, trace, k);
    var s := After(etagOf, s0, trace);
    forall b | 0 <= b < |s.stores|
      ensures DataAt(s.stores[b], k) == if Applied(s.ops[o], b) then Effect(s.ops[o]) else Lookup(s.reference, k)
    {
      OneActiveData(etagOf, s, k, o, b);
    }
  }

  /** With one operation in progress a backend holds its effect if it applied it, else the reference. */
  lemma OneActiveData(etagOf: EtagFunction, s: State, k: string, o: nat, b: nat)
    requires Agreement(etagOf, s, k) && k !in s.dirty && Active(s, o, k) && b < |s.stores|
    ensures DataAt(s.stores[b], k) == if Applied(s.ops[o], b) then Effect(s.ops[o]) else Lookup(s.reference, k)
  {
    if !Applied(s.ops[o], b) {
      forall p: nat | Active(s, p, k) ensures !Applied(s.ops[p], b) {
        assert p == o;
      }
      assert Untouched(s, k, b);
    }
  }
}
