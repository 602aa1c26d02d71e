/**
 * The filter views and the completed count, which both task lists compute
 * with the same code over their own task records. A record type enters
 * through its completion flag, `completed`.
 */
module Views {

  import opened JsArray

  /** The callback `t => !t.completed`. */
  function Not<T>(completed: T -> bool): T -> bool {
    (t: T) => !completed(t)
  }

  /**
   * The tasks `renderTasks` shows for a filter: the unfinished ones for
   * "active", the finished ones for "completed", all of them otherwise.
   */
  function View<T(!new)>(ts: seq<T>, filter: string, completed: T -> bool): (r: seq<T>)
    ensures |r| <= |ts|
    ensures filter == "active" ==> forall t :: t in r <==> t in ts && !completed(t)
    ensures filter == "completed" ==> forall t :: t in r <==> t in ts && completed(t)
    ensures filter != "active" && filter != "completed" ==> r == ts
  {
    var r := if filter == "active" then Filter(ts, Not(completed))
             else if filter == "completed" then Filter(ts, completed)
             else ts;
    assert forall t :: t in r ==> exists k :: 0 <= k < |r| && r[k] == t;
    assert forall t :: t in ts ==> exists k :: 0 <= k < |ts| && ts[k] == t;
    r
  }

  /** Every view keeps the order of the list. */
  lemma ViewConcat<T(!new)>(a: seq<T>, b: seq<T>, filter: string, completed: T -> bool)
    ensures View(a + b, filter, completed) == View(a, filter, completed) + View(b, filter, completed)
  {
    FilterConcat(a, b, Not(completed));
    FilterConcat(a, b, completed);
  }

  /** The "active" and "completed" views split the list: nothing lost, nothing shown twice. */
  lemma ViewsPartition<T(!new)>(ts: seq<T>, completed: T -> bool)
    ensures |View(ts, "active", completed)| + |View(ts, "completed", completed)| == |ts|
    ensures multiset(View(ts, "active", completed)) + multiset(View(ts, "completed", completed)) == multiset(ts)
    ensures forall t :: !(t in View(ts, "active", completed) && t in View(ts, "completed", completed))
  {
    FilterPartition(ts, Not(completed), completed);
  }

  /** The completed count `updateStats` shows. */
  function CompletedCount<T(!new)>(ts: seq<T>, completed: T -> bool): (n: nat)
    ensures n <= |ts|
    ensures n == |ts| - |View(ts, "active", completed)|
  {
    FilterPartition(ts, Not(completed), completed);
    |Filter(ts, completed)|
  }

}
