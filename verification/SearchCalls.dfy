/** Search calls from outside: when they start at all, and that their replies do not give
    the layout away. */
module SearchCalls {
  import opened DistanceKernel
  import opened Delivery
  import opened Engine
  import opened EngineInvariant
  import opened SearchReply
  import opened SearchRadii
  import opened SearchLoop
  import SearchLayouts

  /** On a built index a search starts exactly when k is between one and the number of
      points, there is a table and a quantum, the threshold is between one and the number
      of tables, and a float32 holds the window of the initial radius. */
  lemma StartsExactly(q: Query)
    requires IndexOk(q)
    ensures Startable(q) <==>
              1 <= q.start.k <= q.start.numPoints && 1 <= q.start.tableCount && 1 <= q.quantum &&
              1 <= (if q.rules.threshold == 0 then q.start.threshold else q.rules.threshold) <= q.start.tableCount &&
              exists bound :: HasWindow(q, q.radius, bound)
  {
    WindowIs(q, q.radius);
    assert WindowBound(q, q.radius).Some? <==> exists bound :: HasWindow(q, q.radius, bound) by {
      if WindowBound(q, q.radius).Some? {
        assert HasWindow(q, q.radius, WindowBound(q, q.radius).value);
      }
    }
    hide WindowBound, HasWindow, Laws, TableOk;
  }

  /** A reply does not tell how the tables are laid out, nor, where no distance
      overflows, whether distances were pruned. */
  lemma RepliesAgree(q: Query, r: Query, maxSteps: nat)
    requires SearchLayouts.Restored(q, r)
    ensures Startable(q) <==> Startable(r)
    ensures Startable(q) ==>
              ReplyOf(q, SearchAfter(q, StepBudget(q, maxSteps))) == ReplyOf(r, SearchAfter(r, StepBudget(r, maxSteps)))
  {
    assert QueryOk(q) && QueryOk(r) && r.start == q.start && r.radius == q.radius && r.width == q.width;
    hide QueryOk, SearchAfter;
    if Startable(q) {
      SearchLayouts.SearchSame(q, r, StepBudget(q, maxSteps));
    }
  }
}
