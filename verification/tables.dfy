/** A database table as the sequence of its rows in primary-key order, with the two
    queries the views use: `objects.get(...)` and the truthiness of `objects.filter(...)`. */
module Tables {

  /** The outcome of `Model.objects.get(condition)`. */
  datatype Lookup<R> = Found(row: R) | DoesNotExist | MultipleObjectsReturned

  /** `objects.get(condition)`: the one row meeting the condition, or one of the two exceptions. */
  function Get<R>(rows: seq<R>, p: R -> bool): (r: Lookup<R>)
    ensures r.DoesNotExist? <==> forall i | 0 <= i < |rows| :: !p(rows[i])
    ensures r.MultipleObjectsReturned? <==>
              exists i, j | 0 <= i < j < |rows| :: p(rows[i]) && p(rows[j])
    ensures r.Found? ==> r.row in rows && p(r.row)
  {
    if |rows| == 0 then DoesNotExist
    else
      var rest := Get(rows[1..], p);
      assert forall i | 1 <= i < |rows| :: rows[i] == rows[1..][i - 1];
      if !p(rows[0]) then
        rest
      else if rest.DoesNotExist? then
        Found(rows[0])
      else
        assert exists j | 0 <= j < |rows[1..]| :: p(rows[1..][j]);
        MultipleObjectsReturned
  }

  /** When no two rows meet the condition, `get` returns the row that does. */
  lemma GetUnique<R>(rows: seq<R>, p: R -> bool, k: nat)
    requires k < |rows| && p(rows[k])
    requires forall i, j | 0 <= i < j < |rows| :: !(p(rows[i]) && p(rows[j]))
    ensures Get(rows, p) == Found(rows[k])
  {
  }

  /** `if Model.objects.filter(condition):` — the query set is non-empty. */
  predicate Any<R>(rows: seq<R>, p: R -> bool) {
    exists i | 0 <= i < |rows| :: p(rows[i])
  }
}
