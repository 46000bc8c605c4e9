/** The multi-sync delete in its imperative form: all backends, in any completion order. */
module DeleteObject {
  import opened Types
  import opened Sequences
  import opened InMemoryStorage

  /** The loop over the results: the first failing backend, by index, fails the delete. */
  method CheckDeletes(results: seq<Result<()>>) returns (r: Result<()>)
    ensures r.Ok? <==> forall i :: 0 <= i < |results| ==> results[i].Ok?
    ensures r.Err? ==>
              exists i :: 0 <= i < |results| && results[i].Err?
                          && (forall j :: 0 <= j < i ==> results[j].Ok?)
                          && r.error == InternalError(DeleteFailedAt(i, results[i].error))
  {
    for i := 0 to |results|
      invariant forall j :: 0 <= j < i ==> results[j].Ok?
    {
      if results[i].Err? {
        return Err(InternalError(DeleteFailedAt(i, results[i].error)));
      }
    }
    r := Ok(());
  }

  /** Whatever the order in which the backends complete, the key is gone from all, and nothing else. */
  method DeleteObjectMultiSync(key: string, backends: seq<InMemoryStorage>, order: seq<nat>) returns (r: Result<()>)
    requires Distinct(backends) && IsOrder(order, |backends|)
    requires forall i :: 0 <= i < |backends| ==> backends[i].Valid()
    modifies backends
    ensures r.Ok?
    ensures forall i :: 0 <= i < |backends| ==>
              backends[i].Valid() && backends[i].objects == old(backends[i].objects) - {key}
  {
    var results := new Result<()>[|backends|](_ => Ok(()));
    for k := 0 to |order|
      invariant forall i :: 0 <= i < |backends| ==> backends[i].Valid()
      invariant forall j :: 0 <= j < k ==> backends[order[j]].objects == old(backends[order[j]].objects) - {key}
      invariant forall j :: k <= j < |order| ==> backends[order[j]].objects == old(backends[order[j]].objects)
      invariant forall i :: 0 <= i < |backends| ==> results[i].Ok?
    {
      var i := order[k];
      results[i] := backends[i].DeleteObject(key);
    }
    forall i | 0 <= i < |backends| ensures backends[i].objects == old(backends[i].objects) - {key} {
      OrderIsOnto(order, |backends|, i);
      var j :| 0 <= j < |order| && order[j] == i;
    }
    r := CheckDeletes(results[..]);
  }
}
