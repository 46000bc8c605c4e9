/**
 When the replicas of MULTI_SYNC agree on a key. An operation is in flight while a backend still has to
 apply it, which may end long before the operation returns and never begins for a put whose source
 fails. An operation is harmless to those in flight for its key if it leaves what they leave.
 */
module MultiSyncConvergence {
  import opened Types
  import opened Sequences
  import Broadcast
  import BroadcastProgress
  import opened MultiSync

  /** The operation will change backend b if nothing fails. */
  predicate Pending(op: Op, b: nat) {
    match op
    case Put(_, run, _) => run.source.fault.None? && Broadcast.IsOpen(run, b)
    case Delete(_, at, _) => b < |at| && at[b].Waiting?
  }

  ghost predicate NoneInFlight(s: State, k: string) {
    forall o, b :: 0 <= o < |s.ops| && s.ops[o].key == k && 0 <= b < |s.stores| ==> !Pending(s.ops[o], b)
  }

  /** Whatever is in flight for the key leaves e under it. */
  ghost predicate AllLeave(s: State, k: string, e: Option<Bytes>) {
    forall o, b :: 0 <= o < |s.ops| && s.ops[o].key == k && 0 <= b < |s.stores| && Pending(s.ops[o], b) ==>
                     Effect(s.ops[o]) == e
  }

  /** A start that changes the backends: a delete, or a put whose source does not fail. */
  predicate IsEffective(a: Action) {
    a.StartDelete? || (a.StartPut? && a.source.fault.None?)
  }

  function EffectOf(w: Action): Option<Bytes>
    requires IsEffective(w)
  {
    if w.StartPut? then Some(Concat(w.source.chunks)) else None
  }

  /** On the key no backend fails, and a start leaves what everything in flight for the key leaves. */
  ghost predicate SafeStep(s: State, a: Action, k: string)
    requires Enabled(s, a)
  {
    KeyOf(s, a) == k ==> FailureFree(a) && (IsEffective(a) ==> AllLeave(s, k, EffectOf(a)))
  }

  ghost predicate SafeRun(etagOf: EtagFunction, s: State, trace: seq<Action>, k: string)
    decreases |trace|
  {
    trace == [] ||
    (Enabled(s, trace[0]) && SafeStep(s, trace[0], k) && SafeRun(etagOf, Next(etagOf, s, trace[0]), trace[1..], k))
  }

  // ---------------------------------------------------------------- the invariant

  ghost predicate Due(s: State, k: string, b: nat) {
    exists o :: 0 <= o < |s.ops| && s.ops[o].key == k && Pending(s.ops[o], b)
  }

  /** Every backend holds e under the key or is due for an operation that leaves it. */
  ghost predicate Carried(s: State, k: string, e: Option<Bytes>) {
    AllLeave(s, k, e) && forall b :: 0 <= b < |s.stores| ==> DataAt(s.stores[b], k) == e || Due(s, k, b)
  }

  /** Whatever the backends held before: an effective start carries its effect to all of them. */
  lemma StartCarries(etagOf: EtagFunction, s: State, w: Action)
    requires IsEffective(w) && AllLeave(s, w.key, EffectOf(w))
    ensures Carried(Next(etagOf, s, w), w.key, EffectOf(w))
  {
    var s' := Next(etagOf, s, w);
    forall b | 0 <= b < |s'.stores| ensures Due(s', w.key, b) {
      assert Pending(s'.ops[|s.ops|], b);
    }
  }

  /** A step that neither changes the data under the key nor ends a pending application of it. */
  lemma StillCarried(s: State, s': State, k: string, e: Option<Bytes>)
    requires Carried(s, k, e) && |s'.stores| == |s.stores| && |s.ops| <= |s'.ops|
    requires forall b :: 0 <= b < |s.stores| ==> DataAt(s'.stores[b], k) == DataAt(s.stores[b], k)
    requires forall o :: 0 <= o < |s.ops| ==>
               s'.ops[o].key == s.ops[o].key && Effect(s'.ops[o]) == Effect(s.ops[o])
    requires forall o, b :: 0 <= o < |s'.ops| && s'.ops[o].key == k && 0 <= b < |s.stores| ==>
               Pending(s'.ops[o], b) == (o < |s.ops| && Pending(s.ops[o], b))
    ensures Carried(s', k, e)
  {
    forall b | 0 <= b < |s.stores| && Due(s, k, b) ensures Due(s', k, b) {
      var o :| 0 <= o < |s.ops| && s.ops[o].key == k && Pending(s.ops[o], b);
      assert Pending(s'.ops[o], b);
    }
  }

  /** Operation o on the key is applied at backend b. */
  lemma AppliedCarried(s: State, s': State, k: string, e: Option<Bytes>, o: nat, b: nat)
    requires Carried(s, k, e) && |s'.stores| == |s.stores| && |s'.ops| == |s.ops|
    requires o < |s.ops| && b < |s.stores| && s.ops[o].key == k && Pending(s.ops[o], b)
    requires forall p :: 0 <= p < |s.ops| && p != o ==> s'.ops[p] == s.ops[p]
    requires s'.ops[o].key == k && Effect(s'.ops[o]) == Effect(s.ops[o]) && !Pending(s'.ops[o], b)
    requires forall c :: 0 <= c < |s.stores| && c != b ==>
               s'.stores[c] == s.stores[c] && Pending(s'.ops[o], c) == Pending(s.ops[o], c)
    requires DataAt(s'.stores[b], k) == Effect(s.ops[o])
    ensures Carried(s', k, e)
  {
    forall c | 0 <= c < |s.stores| && c != b && Due(s, k, c) ensures Due(s', k, c) {
      var p :| 0 <= p < |s.ops| && s.ops[p].key == k && Pending(s.ops[p], c);
      assert Pending(s'.ops[p], c);
    }
  }

  lemma StepCarried(etagOf: EtagFunction, s: State, a: Action, k: string, e: Option<Bytes>)
    requires Shape(etagOf, s, |s.stores|) && Carried(s, k, e)
    requires a.Step? && Enabled(s, a) && FailureFree(a) && KeyOf(s, a) == k
    ensures Carried(Next(etagOf, s, a), k, e)
  {
    var s', op := Next(etagOf, s, a), s.ops[a.op];
    assert OpInv(op, |s.stores|);
    if a.step.Finish? {
      Broadcast.FinishKeepsTask(op.run, a.step.task);
      AppliedCarried(s, s', k, e, a.op, a.step.task);
    } else {
      if a.step.Receive? {
        BroadcastProgress.ReceivedItem(op.run, a.step.task);
      }
      StillCarried(s, s', k, e);
    }
  }

  lemma OtherCarried(etagOf: EtagFunction, s: State, a: Action, k: string, e: Option<Bytes>)
    requires Carried(s, k, e) && Enabled(s, a) && KeyOf(s, a) != k
    ensures Carried(Next(etagOf, s, a), k, e)
  {
    var s' := Next(etagOf, s, a);
    OtherKeysApart(etagOf, s, a, k);
    forall b | 0 <= b < |s.stores| && Due(s, k, b) ensures Due(s', k, b) {
      var o :| 0 <= o < |s.ops| && s.ops[o].key == k && Pending(s.ops[o], b);
      assert s'.ops[o] == s.ops[o];
    }
  }

  /** What is carried to the backends after the step. */
  function CarriedBy(s: State, a: Action, k: string, e: Option<Bytes>): Option<Bytes>
    requires Enabled(s, a)
  {
    if KeyOf(s, a) == k && IsEffective(a) then EffectOf(a) else e
  }

  lemma NextCarried(etagOf: EtagFunction, s: State, a: Action, k: string, e: Option<Bytes>)
    requires Shape(etagOf, s, |s.stores|) && Carried(s, k, e) && Enabled(s, a) && SafeStep(s, a, k)
    ensures Carried(Next(etagOf, s, a), k, CarriedBy(s, a, k, e))
  {
    var s' := Next(etagOf, s, a);
    if KeyOf(s, a) != k {
      OtherCarried(etagOf, s, a, k, e);
    } else if IsEffective(a) {
      StartCarries(etagOf, s, a);
    } else {
      match a
      case StartPut(_, _) => StillCarried(s, s', k, e);
      case Step(_, _, _) => StepCarried(etagOf, s, a, k, e);
      case DeleteAt(o, b, _) =>
        assert OpInv(s.ops[o], |s.stores|);
        AppliedCarried(s, s', k, e, o, b);
      case Return(_) => StillCarried(s, s', k, e);
    }
  }

  lemma {:induction false} CarriedAfter(etagOf: EtagFunction, s: State, trace: seq<Action>, k: string, e: Option<Bytes>)
    returns (e': Option<Bytes>)
    requires Shape(etagOf, s, |s.stores|) && Carried(s, k, e) && SafeRun(etagOf, s, trace, k)
    ensures Runs(etagOf, s, trace) && Carried(After(etagOf, s, trace), k, e')
    ensures Shape(etagOf, After(etagOf, s, trace), |s.stores|)
    decreases |trace|
  {
    e' := e;
    if trace != [] {
      ShapeKept(etagOf, s, |s.stores|, trace[0]);
      NextCarried(etagOf, s, trace[0], k, e);
      e' := CarriedAfter(etagOf, Next(etagOf, s, trace[0]), trace[1..], k, CarriedBy(s, trace[0], k, e));
    }
  }

  // ---------------------------------------------------------------- convergence

  ghost predicate AgreeOn(s: State, k: string) {
    forall b, c :: 0 <= b < |s.stores| && 0 <= c < |s.stores| ==>
                     DataAt(s.stores[b], k) == DataAt(s.stores[c], k)
  }

  /**
   In every state that runs safe for the key reach, whatever happens on other keys, the replicas agree
   on the key when nothing is in flight for it. A start may overlap with an operation that has been
   applied everywhere, with a put whose source fails, and with operations that leave the same.
   */
  lemma SafeRunsConverge(etagOf: EtagFunction, s0: State, trace: seq<Action>, k: string)
    requires Fresh(etagOf, s0, k) && SafeRun(etagOf, s0, trace, k)
    ensures Runs(etagOf, s0, trace)
    ensures NoneInFlight(After(etagOf, s0, trace), k) ==> AgreeOn(After(etagOf, s0, trace), k)
  {
    var _ := CarriedAfter(etagOf, s0, trace, k, Lookup(s0.reference, k));
  }

  /** The key is only carried on: no backend fails on it and no further effective start. */
  ghost predicate Continues(etagOf: EtagFunction, s: State, trace: seq<Action>, k: string)
    decreases |trace|
  {
    trace == [] ||
    (Enabled(s, trace[0]) && (KeyOf(s, trace[0]) == k ==> FailureFree(trace[0]) && !IsEffective(trace[0]))
     && Continues(etagOf, Next(etagOf, s, trace[0]), trace[1..], k))
  }

  lemma {:induction false} ContinuesCarried(etagOf: EtagFunction, s: State, trace: seq<Action>, k: string, e: Option<Bytes>)
    requires Shape(etagOf, s, |s.stores|) && Carried(s, k, e) && Continues(etagOf, s, trace, k)
    ensures Runs(etagOf, s, trace) && Carried(After(etagOf, s, trace), k, e)
    decreases |trace|
  {
    if trace != [] {
      ShapeKept(etagOf, s, |s.stores|, trace[0]);
      NextCarried(etagOf, s, trace[0], k, e);
      ContinuesCarried(etagOf, Next(etagOf, s, trace[0]), trace[1..], k, e);
    }
  }

  /**
   The past does not matter: after any run, with any failures and overlaps, an effective start that
   leaves what everything in flight for its key leaves ends, if no backend fails on the key from then
   on, with every replica holding its effect.
   */
  lemma LastStartDecides(etagOf: EtagFunction, s: State, w: Action, trace: seq<Action>, b: nat)
    requires Shape(etagOf, s, |s.stores|) && IsEffective(w) && AllLeave(s, w.key, EffectOf(w))
    requires Continues(etagOf, Next(etagOf, s, w), trace, w.key) && b < |s.stores|
    ensures Runs(etagOf, Next(etagOf, s, w), trace)
    ensures var t := After(etagOf, Next(etagOf, s, w), trace);
            && |t.stores| == |s.stores|
            && (NoneInFlight(t, w.key) ==> DataAt(t.stores[b], w.key) == EffectOf(w))
  {
    var s' := Next(etagOf, s, w);
    ShapeKept(etagOf, s, |s.stores|, w);
    StartCarries(etagOf, s, w);
    ContinuesCarried(etagOf, s', trace, w.key, EffectOf(w));
    ShapeAfter(etagOf, s', |s.stores|, trace);
  }

  /** An operation that has returned is nowhere pending. */
  lemma PendingNotReturned(op: Op, n: nat, b: nat)
    requires OpInv(op, n) && b < n && Pending(op, b)
    ensures !op.returned
  {
    if op.Put? {
      assert Broadcast.TaskInv(op.run, b);
    }
  }

  /** Operations that wait for the earlier ones on their key to return are safe: those are not in flight. */
  lemma {:induction false} DisciplinedIsSafe(etagOf: EtagFunction, s: State, trace: seq<Action>, k: string)
    requires Shape(etagOf, s, |s.stores|) && Runs(etagOf, s, trace)
    requires DisciplinedRun(etagOf, s, trace, k) && FailureFreeRun(etagOf, s, trace, k)
    ensures SafeRun(etagOf, s, trace, k)
    decreases |trace|
  {
    if trace != [] {
      var a := trace[0];
      if IsStart(a) && a.key == k {
        forall o, b | 0 <= o < |s.ops| && s.ops[o].key == k && 0 <= b < |s.stores|
          ensures !Pending(s.ops[o], b)
        {
          assert !Active(s, o, k) && OpInv(s.ops[o], |s.stores|);
          if Pending(s.ops[o], b) {
            PendingNotReturned(s.ops[o], |s.stores|, b);
          }
        }
      }
      ShapeKept(etagOf, s, |s.stores|, a);
      DisciplinedIsSafe(etagOf, Next(etagOf, s, a), trace[1..], k);
    }
  }
}
