/**
 Exactly when MULTI_SYNC may start an operation on a key: when everything in flight for the key leaves
 what the operation leaves. Otherwise the replicas can end up different for good, although no backend
 fails and both operations report success.
 */
module MultiSyncOverlap {
  import opened Types
  import Broadcast
  import BroadcastProgress
  import opened MultiSync
  import opened MultiSyncConvergence

  /** A step that is no new operation and no failure. */
  ghost predicate Quiet(a: Action) {
    FailureFree(a) && !a.StartPut? && !a.StartDelete?
  }

  ghost predicate QuietRun(etagOf: EtagFunction, s: State, trace: seq<Action>) {
    Runs(etagOf, s, trace) && forall a :: a in trace ==> Quiet(a)
  }

  lemma Then(etagOf: EtagFunction, s: State, a: Action, rest: seq<Action>) returns (trace: seq<Action>)
    requires Enabled(s, a) && Quiet(a) && QuietRun(etagOf, Next(etagOf, s, a), rest)
    ensures QuietRun(etagOf, s, trace)
    ensures After(etagOf, s, trace) == After(etagOf, Next(etagOf, s, a), rest)
  {
    trace := [a] + rest;
    assert trace[1..] == rest;
  }

  lemma {:induction false} Append(etagOf: EtagFunction, s: State, trace: seq<Action>, more: seq<Action>)
    requires QuietRun(etagOf, s, trace) && QuietRun(etagOf, After(etagOf, s, trace), more)
    ensures QuietRun(etagOf, s, trace + more)
    ensures After(etagOf, s, trace + more) == After(etagOf, After(etagOf, s, trace), more)
    decreases |trace|
  {
    if trace == [] {
      assert trace + more == more;
    } else {
      assert forall a :: a in trace[1..] ==> a in trace;
      Append(etagOf, Next(etagOf, s, trace[0]), trace[1..], more);
      assert (trace + more)[1..] == trace[1..] + more;
    }
  }

  /** From s to t only operation o and the stores changed, and the operation has not returned. */
  ghost predicate OnlyOp(s: State, t: State, o: nat)
    requires o < |s.ops|
  {
    && t.reference == s.reference && t.dirty == s.dirty && |t.stores| == |s.stores|
    && |t.ops| == |s.ops| && t.ops == s.ops[o := t.ops[o]]
    && t.ops[o].key == s.ops[o].key && t.ops[o].returned == s.ops[o].returned
    && Effect(t.ops[o]) == Effect(s.ops[o]) && (t.ops[o].Put? <==> s.ops[o].Put?)
  }

  /** Where the operation was pending it has been applied last; elsewhere nothing changed. */
  ghost predicate Reached(s: State, t: State, o: nat)
    requires o < |s.ops| && |t.stores| == |s.stores|
  {
    forall b :: 0 <= b < |s.stores| ==>
      if Pending(s.ops[o], b) then DataAt(t.stores[b], s.ops[o].key) == Effect(s.ops[o])
      else t.stores[b] == s.stores[b]
  }

  /** As Reached, for a broadcast that need not have ended. */
  ghost predicate Lifted(s: State, t: State, o: nat)
    requires o < |s.ops| && |t.ops| == |s.ops| && |t.stores| == |s.stores|
  {
    forall b :: 0 <= b < |s.stores| ==>
      if Pending(s.ops[o], b) then Applied(t.ops[o], b) ==> DataAt(t.stores[b], s.ops[o].key) == Effect(s.ops[o])
      else t.stores[b] == s.stores[b] && Applied(t.ops[o], b) == Applied(s.ops[o], b)
  }

  lemma LiftStep(etagOf: EtagFunction, s: State, o: nat, act: Broadcast.Action, t: State)
    requires Shape(etagOf, s, |s.stores|) && o < |s.ops| && s.ops[o].Put? && s.ops[o].run.source.fault.None?
    requires Broadcast.Enabled(s.ops[o].run, act) && !act.Abort?
    ensures Enabled(s, Step(o, act, 0)) && Shape(etagOf, Next(etagOf, s, Step(o, act, 0)), |s.stores|)
    ensures OnlyOp(s, Next(etagOf, s, Step(o, act, 0)), o)
    ensures var m := Next(etagOf, s, Step(o, act, 0));
            m.ops[o].run == Broadcast.Next(s.ops[o].run, act)
            && (OnlyOp(m, t, o) && Lifted(m, t, o) ==> Lifted(s, t, o))
  {
    var run := s.ops[o].run;
    assert OpInv(s.ops[o], |s.stores|);
    ShapeKept(etagOf, s, |s.stores|, Step(o, act, 0));
    if act.Receive? {
      BroadcastProgress.ReceivedItem(run, act.task);
    }
    if act.Finish? {
      Broadcast.FinishKeepsTask(run, act.task);
    }
    var m := Next(etagOf, s, Step(o, act, 0));
    forall b | 0 <= b < |s.stores| && act != Broadcast.Finish(b)
      ensures Pending(m.ops[o], b) == Pending(s.ops[o], b) && m.stores[b] == s.stores[b]
      ensures Applied(m.ops[o], b) == Applied(s.ops[o], b)
    {
    }
  }

  lemma {:induction false} LiftRun(etagOf: EtagFunction, s: State, o: nat, steps: seq<Broadcast.Action>)
    returns (trace: seq<Action>)
    requires Shape(etagOf, s, |s.stores|) && o < |s.ops| && s.ops[o].Put? && s.ops[o].run.source.fault.None?
    requires Broadcast.Runs(s.ops[o].run, steps) && forall a :: a in steps ==> !a.Abort?
    ensures QuietRun(etagOf, s, trace)
    ensures var t := After(etagOf, s, trace);
            && Shape(etagOf, t, |s.stores|) && OnlyOp(s, t, o) && Lifted(s, t, o)
            && t.ops[o].run == Broadcast.After(s.ops[o].run, steps)
    decreases |steps|
  {
    if steps == [] {
      trace := [];
    } else {
      var a := Step(o, steps[0], 0);
      LiftStep(etagOf, s, o, steps[0], s);
      var m := Next(etagOf, s, a);
      assert forall x :: x in steps[1..] ==> x in steps;
      var rest := LiftRun(etagOf, m, o, steps[1..]);
      LiftStep(etagOf, s, o, steps[0], After(etagOf, m, rest));
      trace := Then(etagOf, s, a, rest);
    }
  }

  lemma CompletePut(etagOf: EtagFunction, s: State, o: nat) returns (trace: seq<Action>)
    requires Shape(etagOf, s, |s.stores|) && o < |s.ops|
    requires s.ops[o].Put? && s.ops[o].run.source.fault.None?
    ensures QuietRun(etagOf, s, trace)
    ensures var t := After(etagOf, s, trace);
            && Shape(etagOf, t, |s.stores|) && OnlyOp(s, t, o) && Reached(s, t, o) && Answered(t.ops[o])
            && (Unfailed(s.ops[o]) ==> Unfailed(t.ops[o])) && t.ops[o].run.source.fault.None?
  {
    var run := s.ops[o].run;
    assert OpInv(s.ops[o], |s.stores|);
    var steps := BroadcastProgress.CanFinish(run);
    trace := LiftRun(etagOf, s, o, steps);
    forall b | 0 <= b < |run.tasks| && !run.tasks[b].status.Failed?
      ensures |Broadcast.After(run, steps).tasks| == |run.tasks|
      ensures Broadcast.After(run, steps).tasks[b].status.Stored?
    {
      BroadcastProgress.CleanFinish(run, steps, b);
    }
    Broadcast.ReachableInv(run, steps);
  }

  lemma {:induction false} CompleteDelete(etagOf: EtagFunction, s: State, o: nat, b: nat) returns (trace: seq<Action>)
    requires Shape(etagOf, s, |s.stores|) && o < |s.ops| && s.ops[o].Delete? && b <= |s.stores|
    requires forall c :: 0 <= c < b ==> !Pending(s.ops[o], c)
    ensures QuietRun(etagOf, s, trace)
    ensures var t := After(etagOf, s, trace);
            && Shape(etagOf, t, |s.stores|) && OnlyOp(s, t, o) && Reached(s, t, o) && Answered(t.ops[o])
            && (Unfailed(s.ops[o]) ==> Unfailed(t.ops[o]))
    decreases |s.stores| - b
  {
    assert OpInv(s.ops[o], |s.stores|);
    if b == |s.stores| {
      trace := [];
      forall d | d in s.ops[o].at ensures !d.Waiting? {
        var c :| 0 <= c < b && s.ops[o].at[c] == d;
        assert !Pending(s.ops[o], c);
      }
    } else if !Pending(s.ops[o], b) {
      trace := CompleteDelete(etagOf, s, o, b + 1);
    } else {
      var a := DeleteAt(o, b, None);
      ShapeKept(etagOf, s, |s.stores|, a);
      forall c | 0 <= c < b + 1 ensures !Pending(Next(etagOf, s, a).ops[o], c) {
        assert c < b ==> !Pending(s.ops[o], c);
      }
      var rest := CompleteDelete(etagOf, Next(etagOf, s, a), o, b + 1);
      trace := Then(etagOf, s, a, rest);
    }
  }

  lemma Complete(etagOf: EtagFunction, s: State, o: nat) returns (trace: seq<Action>)
    requires Shape(etagOf, s, |s.stores|) && o < |s.ops|
    requires s.ops[o].Put? ==> s.ops[o].run.source.fault.None?
    ensures QuietRun(etagOf, s, trace)
    ensures var t := After(etagOf, s, trace);
            && Shape(etagOf, t, |s.stores|) && OnlyOp(s, t, o) && Reached(s, t, o) && Answered(t.ops[o])
            && (Unfailed(s.ops[o]) ==> Succeeded(t.ops[o]))
  {
    if s.ops[o].Put? {
      trace := CompletePut(etagOf, s, o);
    } else {
      trace := CompleteDelete(etagOf, s, o, 0);
    }
    var t := After(etagOf, s, trace);
    assert OpInv(t.ops[o], |s.stores|) && OpInv(s.ops[o], |s.stores|);
    if Unfailed(s.ops[o]) {
      UnfailedSucceeds(t.ops[o], |s.stores|);
    }
  }

  /** What has been answered is pending nowhere. */
  lemma AnsweredNotPending(op: Op, n: nat, b: nat)
    requires OpInv(op, n) && Answered(op) && b < n
    ensures !Pending(op, b)
  {
    if op.Put? {
      assert Broadcast.TaskInv(op.run, b);
    }
  }

  ghost predicate PendingSomewhere(s: State, o: nat)
    requires o < |s.ops|
  {
    exists b :: 0 <= b < |s.stores| && Pending(s.ops[o], b)
  }

  /** All operations on the key from index i on, but for o and p, are carried to their ends. */
  lemma {:induction false} CompleteOthers(etagOf: EtagFunction, s: State, k: string, o: nat, p: nat, i: nat)
    returns (trace: seq<Action>)
    requires Shape(etagOf, s, |s.stores|) && o < |s.ops| && p < |s.ops| && i <= |s.ops|
    ensures QuietRun(etagOf, s, trace)
    ensures var t := After(etagOf, s, trace);
            && Shape(etagOf, t, |s.stores|) && |t.ops| == |s.ops| && t.ops[o] == s.ops[o] && t.ops[p] == s.ops[p]
            && (forall q :: 0 <= q < |s.ops| ==> t.ops[q].key == s.ops[q].key)
            && (forall q :: 0 <= q < i ==> t.ops[q] == s.ops[q])
            && (forall q :: i <= q < |s.ops| && q != o && q != p && s.ops[q].key == k ==> !PendingSomewhere(t, q))
    decreases |s.ops| - i
  {
    if i == |s.ops| {
      trace := [];
    } else {
      var first: seq<Action> := [];
      if i != o && i != p && PendingSomewhere(s, i) {
        first := Complete(etagOf, s, i);
        var t := After(etagOf, s, first);
        forall b | 0 <= b < |t.stores| ensures !Pending(t.ops[i], b) {
          AnsweredNotPending(t.ops[i], |s.stores|, b);
        }
      }
      var rest := CompleteOthers(etagOf, After(etagOf, s, first), k, o, p, i + 1);
      Append(etagOf, s, first, rest);
      trace := first + rest;
    }
  }

  /** Operation p has just been started: it waits for every backend. */
  ghost predicate JustStarted(s: State, p: nat)
    requires p < |s.ops|
  {
    match s.ops[p]
    case Put(_, run, _) => run.source.fault.None? && run == Broadcast.Init(run.source, |s.stores|)
    case Delete(_, at, _) => |at| == |s.stores| && forall b :: 0 <= b < |at| ==> at[b].Waiting?
  }

  /** It can be applied at one backend before all others. */
  lemma ApplyFirst(etagOf: EtagFunction, s: State, p: nat, b: nat) returns (trace: seq<Action>)
    requires Shape(etagOf, s, |s.stores|) && p < |s.ops| && JustStarted(s, p) && b < |s.stores|
    ensures QuietRun(etagOf, s, trace)
    ensures var t := After(etagOf, s, trace);
            && Shape(etagOf, t, |s.stores|) && OnlyOp(s, t, p) && Unfailed(t.ops[p])
            && (t.ops[p].Put? ==> t.ops[p].run.source.fault.None?)
            && forall c :: 0 <= c < |s.stores| ==> Pending(t.ops[p], c) == (c != b)
  {
    if s.ops[p].Delete? {
      ShapeKept(etagOf, s, |s.stores|, DeleteAt(p, b, None));
      trace := Then(etagOf, s, DeleteAt(p, b, None), []);
    } else {
      var run := s.ops[p].run;
      assert OpInv(s.ops[p], |s.stores|);
      var steps := BroadcastProgress.StoreFirst(run.source, |s.stores|, b);
      trace := LiftRun(etagOf, s, p, steps);
      Broadcast.ReachableInv(run, steps);
    }
  }

  /** Two answered operations return, one after the other. */
  lemma ReturnBoth(etagOf: EtagFunction, s: State, o: nat, p: nat) returns (trace: seq<Action>)
    requires o < |s.ops| && p < |s.ops| && o != p && s.ops[o].key == s.ops[p].key
    requires Answered(s.ops[o]) && Answered(s.ops[p]) && !s.ops[o].returned && !s.ops[p].returned
    ensures QuietRun(etagOf, s, trace)
    ensures var t := After(etagOf, s, trace);
            && t.stores == s.stores
            && t.ops == s.ops[o := s.ops[o].(returned := true)][p := s.ops[p].(returned := true)]
            && (Succeeded(s.ops[p]) ==> s.ops[p].key !in t.dirty)
  {
    var s1 := Next(etagOf, s, Return(o));
    var rest := Then(etagOf, s1, Return(p), []);
    trace := Then(etagOf, s, Return(o), rest);
  }

  // ---------------------------------------------------------------- an overlap that diverges

  /** Operation p, applied at b first, overtakes o there and is overtaken by o elsewhere. */
  lemma OverlapAt(etagOf: EtagFunction, s: State, o: nat, p: nat, b: nat, c: nat) returns (trace: seq<Action>)
    requires Shape(etagOf, s, |s.stores|) && o < |s.ops| && p < |s.ops| && o != p && s.ops[o].key == s.ops[p].key
    requires b < |s.stores| && c < |s.stores| && b != c
    requires Pending(s.ops[o], b) && JustStarted(s, p)
    ensures QuietRun(etagOf, s, trace)
    ensures var t, k := After(etagOf, s, trace), s.ops[o].key;
            && Shape(etagOf, t, |s.stores|) && |t.ops| == |s.ops|
            && (forall q :: 0 <= q < |s.ops| && q != o && q != p ==> t.ops[q] == s.ops[q])
            && t.ops[o].key == t.ops[p].key == k
            && t.ops[o].returned == s.ops[o].returned && t.ops[p].returned == s.ops[p].returned
            && Answered(t.ops[o]) && Answered(t.ops[p]) && Succeeded(t.ops[p])
            && (Unfailed(s.ops[o]) ==> Succeeded(t.ops[o]))
            && DataAt(t.stores[b], k) == Effect(s.ops[o]) && DataAt(t.stores[c], k) == Effect(s.ops[p])
  {
    var start := ApplyFirst(etagOf, s, p, b);
    var s1 := After(etagOf, s, start);
    assert s1.ops[o] == s.ops[o];
    var first := Complete(etagOf, s1, o);
    var s2 := After(etagOf, s1, first);
    assert s2.ops[p] == s1.ops[p];
    var second := Complete(etagOf, s2, p);
    var t := After(etagOf, s2, second);
    assert t.ops[o] == s2.ops[o];
    Append(etagOf, s1, first, second);
    Append(etagOf, s, start, first + second);
    trace := start + (first + second);
  }

  lemma NoneLeft(s: State, t: State, o: nat, p: nat, k: string)
    requires o < |s.ops| && p < |s.ops| && |t.ops| == |s.ops| && |t.stores| == |s.stores|
    requires forall q :: 0 <= q < |s.ops| && q != o && q != p ==>
               t.ops[q] == s.ops[q] && (s.ops[q].key == k ==> !PendingSomewhere(s, q))
    requires OpInv(t.ops[o], |t.stores|) && OpInv(t.ops[p], |t.stores|)
    requires Answered(t.ops[o]) && Answered(t.ops[p])
    ensures NoneInFlight(t, k)
  {
    forall q, c | 0 <= q < |t.ops| && t.ops[q].key == k && 0 <= c < |t.stores| ensures !Pending(t.ops[q], c) {
      if q == o || q == p {
        AnsweredNotPending(t.ops[q], |t.stores|, c);
      }
    }
  }

  /**
   After any run on several backends: a start that leaves something else than an operation o in flight
   for its key can end, with no further start and no failure, with nothing in flight for the key, both
   operations returned, both successfully if no backend had failed o before, and two replicas that differ.
   */
  lemma OverlapCanDiverge(etagOf: EtagFunction, s: State, w: Action, o: nat, b: nat)
    returns (trace: seq<Action>, c: nat)
    requires Shape(etagOf, s, |s.stores|) && |s.stores| > 1 && IsEffective(w)
    requires o < |s.ops| && s.ops[o].key == w.key && b < |s.stores| && Pending(s.ops[o], b)
    requires Effect(s.ops[o]) != EffectOf(w)
    ensures QuietRun(etagOf, Next(etagOf, s, w), trace) && c < |s.stores|
    ensures var t := After(etagOf, Next(etagOf, s, w), trace);
            && |t.stores| == |s.stores| && |t.ops| == |s.ops| + 1
            && t.ops[o].returned && t.ops[|s.ops|].returned && Succeeded(t.ops[|s.ops|])
            && (Unfailed(s.ops[o]) ==> Succeeded(t.ops[o])) && w.key !in t.dirty
            && NoneInFlight(t, w.key)
            && DataAt(t.stores[b], w.key) != DataAt(t.stores[c], w.key)
  {
    c := if b == 0 then 1 else 0;
    var s0, p := Next(etagOf, s, w), |s.ops|;
    ShapeKept(etagOf, s, |s.stores|, w);
    assert OpInv(s.ops[o], |s.stores|);
    PendingNotReturned(s.ops[o], |s.stores|, b);
    assert JustStarted(s0, p) && Effect(s0.ops[p]) == EffectOf(w);
    var others := CompleteOthers(etagOf, s0, w.key, o, p, 0);
    var s1 := After(etagOf, s0, others);
    var both := OverlapAt(etagOf, s1, o, p, b, c);
    var s2 := After(etagOf, s1, both);
    var last := ReturnBoth(etagOf, s2, o, p);
    Append(etagOf, s1, both, last);
    Append(etagOf, s0, others, both + last);
    trace := others + (both + last);
    assert OpInv(s2.ops[o], |s.stores|) && OpInv(s2.ops[p], |s.stores|);
    NoneLeft(s1, After(etagOf, s2, last), o, p, w.key);
  }

  // ---------------------------------------------------------------- exactly the safe starts

  /** However the key is carried on, the replicas agree on it once nothing is in flight for it. */
  ghost predicate StartIsSafe(etagOf: EtagFunction, s: State, w: Action)
    requires IsStart(w)
  {
    forall trace :: Continues(etagOf, Next(etagOf, s, w), trace, w.key) ==>
      EndsAgreeing(etagOf, Next(etagOf, s, w), trace, w.key)
  }

  ghost predicate EndsAgreeing(etagOf: EtagFunction, s: State, trace: seq<Action>, k: string) {
    Runs(etagOf, s, trace) && (NoneInFlight(After(etagOf, s, trace), k) ==> AgreeOn(After(etagOf, s, trace), k))
  }

  lemma {:induction false} QuietContinues(etagOf: EtagFunction, s: State, trace: seq<Action>, k: string)
    requires QuietRun(etagOf, s, trace)
    ensures Continues(etagOf, s, trace, k)
    decreases |trace|
  {
    if trace != [] {
      assert trace[0] in trace && forall a :: a in trace[1..] ==> a in trace;
      QuietContinues(etagOf, Next(etagOf, s, trace[0]), trace[1..], k);
    }
  }

  lemma LastStartAgrees(etagOf: EtagFunction, s: State, w: Action, trace: seq<Action>)
    requires Shape(etagOf, s, |s.stores|) && |s.stores| > 0 && IsEffective(w) && AllLeave(s, w.key, EffectOf(w))
    requires Continues(etagOf, Next(etagOf, s, w), trace, w.key)
    ensures EndsAgreeing(etagOf, Next(etagOf, s, w), trace, w.key)
  {
    LastStartDecides(etagOf, s, w, trace, 0);
    var t := After(etagOf, Next(etagOf, s, w), trace);
    if NoneInFlight(t, w.key) {
      forall b | 0 <= b < |t.stores| ensures DataAt(t.stores[b], w.key) == EffectOf(w) {
        LastStartDecides(etagOf, s, w, trace, b);
      }
    }
  }

  /**
   Exactly when a delete, or a put whose source does not fail, is safe to start: after any run whatever
   on several backends, it is safe if and only if everything in flight for its key leaves what it leaves.
   */
  lemma SafeStartExactly(etagOf: EtagFunction, s: State, w: Action)
    requires Shape(etagOf, s, |s.stores|) && |s.stores| > 1 && IsEffective(w)
    ensures StartIsSafe(etagOf, s, w) <==> AllLeave(s, w.key, EffectOf(w))
  {
    var s', k := Next(etagOf, s, w), w.key;
    if AllLeave(s, k, EffectOf(w)) {
      forall trace | Continues(etagOf, s', trace, k) ensures EndsAgreeing(etagOf, s', trace, k) {
        LastStartAgrees(etagOf, s, w, trace);
      }
    } else {
      var o, b :| 0 <= o < |s.ops| && s.ops[o].key == k && 0 <= b < |s.stores| && Pending(s.ops[o], b)
                  && Effect(s.ops[o]) != EffectOf(w);
      var trace, c := OverlapCanDiverge(etagOf, s, w, o, b);
      QuietContinues(etagOf, s', trace, k);
      assert !EndsAgreeing(etagOf, s', trace, k);
    }
  }

  /** A put whose source fails is always safe where the runs before were. */
  lemma FailingPutIsSafe(etagOf: EtagFunction, s0: State, run: seq<Action>, w: Action)
    requires IsStart(w) && !IsEffective(w) && Fresh(etagOf, s0, w.key) && SafeRun(etagOf, s0, run, w.key)
    ensures Runs(etagOf, s0, run) && StartIsSafe(etagOf, After(etagOf, s0, run), w)
  {
    var k := w.key;
    var e := CarriedAfter(etagOf, s0, run, k, Lookup(s0.reference, k));
    var s := After(etagOf, s0, run);
    var s' := Next(etagOf, s, w);
    NextCarried(etagOf, s, w, k, e);
    ShapeKept(etagOf, s, |s.stores|, w);
    forall trace | Continues(etagOf, s', trace, k) ensures EndsAgreeing(etagOf, s', trace, k) {
      ContinuesCarried(etagOf, s', trace, k, e);
    }
  }

  /**
   After any run whatever on several backends, all deletes and all puts whose source does not fail are
   safe to start on a key if and only if nothing is in flight for it.
   */
  lemma SafeExactlyWhenNothingInFlight(etagOf: EtagFunction, s: State, k: string)
    requires Shape(etagOf, s, |s.stores|) && |s.stores| > 1
    ensures NoneInFlight(s, k) <==> forall w :: IsEffective(w) && w.key == k ==> StartIsSafe(etagOf, s, w)
  {
    if NoneInFlight(s, k) {
      forall w | IsEffective(w) && w.key == k ensures StartIsSafe(etagOf, s, w) {
        SafeStartExactly(etagOf, s, w);
      }
    } else {
      var o, b :| 0 <= o < |s.ops| && s.ops[o].key == k && 0 <= b < |s.stores| && Pending(s.ops[o], b);
      var w := if Effect(s.ops[o]).None? then StartPut(k, Source([], None)) else StartDelete(k);
      SafeStartExactly(etagOf, s, w);
      assert !StartIsSafe(etagOf, s, w);
    }
  }
}
