/** What a search call gives back, and what that says about the search. */
module SearchReply {
  import opened Tables
  import opened FlatCursor
  import opened Schedule
  import opened TopK
  import opened DistanceKernel
  import opened Delivery
  import opened Engine
  import opened EngineInvariant
  import opened SearchExhaustion

  datatype TerminationReason = StoppedByStrategy | TablesExhausted | StepLimit

  datatype SearchResult = SearchResult(neighbors: seq<Neighbor>, reason: TerminationReason, evaluated: nat, hits: nat,
                                       complete: bool)

  /** What a search call gives back: a result, or an error. */
  datatype Reply = Answered(result: SearchResult) | Failed

  /** The result a state of the run stands for. */
  function ReplyOf(q: Query, s: State): Reply {
    var rt := s.work.rt;
    match s.outcome
    case Threw => Failed
    case Running => Answered(SearchResult(rt.neighbors, StepLimit, rt.evaluated, rt.hits, false))
    case Finished(reason) =>
      Answered(SearchResult(rt.neighbors, if reason.ScanExhausted? then TablesExhausted else StoppedByStrategy,
                            rt.evaluated, rt.hits, |rt.neighbors| == q.start.k))
  }

  /** max_steps, or 32 steps per point and table but at least ten thousand. */
  function StepBudget(q: Query, maxSteps: nat): nat {
    if maxSteps != 0 then maxSteps
    else if 32 * q.start.numPoints * q.start.tableCount > 10000 then 32 * q.start.numPoints * q.start.tableCount
    else 10000
  }

  // ---- the k nearest of a set of points --------------------------------

  /** An evaluated point with its distance. */
  ghost predicate Measured(q: Query, n: Neighbor, seen: set<nat>)
    requires PointsOk(q)
  {
    n.id in seen && n.id < |q.points| && FullDistance(q.arith, q.norm, q.points[n.id], q.target) == Some(n.distance)
  }

  /** By distance, and by id among equals. */
  ghost predicate InOrder(a: Neighbor, b: Neighbor) {
    a.distance < b.distance || (a.distance == b.distance && a.id < b.id)
  }

  ghost predicate Named(ns: seq<Neighbor>, p: nat) {
    exists i :: 0 <= i < |ns| && ns[i].id == p
  }

  /** Point p is behind the last neighbour, or too far for a float32. */
  ghost predicate Behind(q: Query, ns: seq<Neighbor>, p: nat)
    requires PointsOk(q)
  {
    p < |q.points| && ns != [] &&
    match FullDistance(q.arith, q.norm, q.points[p], q.target)
    case None => true
    case Some(d) => InOrder(ns[|ns| - 1], Neighbor(d, p))
  }

  /** ns lists k of these points, or all if there are fewer, each with its distance, by
      distance and id, and no point left out comes before one listed. */
  ghost predicate NearestOf(q: Query, ns: seq<Neighbor>, seen: set<nat>)
    requires PointsOk(q)
  {
    |ns| == (if q.start.k <= |seen| then q.start.k else |seen|) &&
    (forall i :: 0 <= i < |ns| ==> Measured(q, ns[i], seen)) &&
    (forall i, j {:trigger InOrder(ns[i], ns[j])} :: 0 <= i < j < |ns| ==> InOrder(ns[i], ns[j])) &&
    forall p :: p in seen ==> Named(ns, p) || Behind(q, ns, p)
  }

  lemma BehindIs(q: Query, ns: seq<Neighbor>, p: nat)
    requires PointsOk(q) && p < q.start.numPoints && Beaten(ns, q.start.k, Distances(q), p)
    ensures Behind(q, ns, p)
  {
    assert Distances(q)[p] == FullDistance(q.arith, q.norm, q.points[p], q.target);
    hide FullDistance, Laws, Distances;
  }

  lemma MeasuredIs(q: Query, n: Neighbor, seen: set<nat>)
    requires PointsOk(q) && n.id in seen && n.id < q.start.numPoints && Distances(q)[n.id] == Some(n.distance)
    ensures Measured(q, n, seen)
  {
    hide FullDistance, Laws;
  }

  lemma NearestIs(q: Query, ns: seq<Neighbor>, seen: set<nat>)
    requires PointsOk(q) && Known(seen, Distances(q)) && IsTopK(ns, q.start.k, seen, Distances(q))
    ensures NearestOf(q, ns, seen)
  {
    TopKSize(ns, q.start.k, seen, Distances(q));
    hide Distances, PointsOk, Measured, Beaten, Behind;
    forall i | 0 <= i < |ns|
      ensures Measured(q, ns[i], seen)
    {
      MeasuredIs(q, ns[i], seen);
    }
    forall i, j | 0 <= i < j < |ns|
      ensures InOrder(ns[i], ns[j])
    {
      assert Better(ns[i], ns[j]);
    }
    forall p | p in seen
      ensures Named(ns, p) || Behind(q, ns, p)
    {
      if !Listed(ns, p) {
        BehindIs(q, ns, p);
      }
    }
  }

  // ---- what a reply says -----------------------------------------------

  /** Both positions of every cursor have left the table. */
  ghost predicate AllDry(q: Query, s: State) {
    |s.cursors| == |q.views| &&
    forall t :: 0 <= t < |q.views| ==> s.cursors[t].left == -1 && s.cursors[t].right == |q.views[t].entries|
  }

  /** The entries between the positions of the first cursors. */
  ghost function Passed(s: State, top: nat): int
    requires top <= |s.cursors|
  {
    if top == 0 then 0 else Passed(s, top - 1) + (s.cursors[top - 1].right - s.cursors[top - 1].left - 1)
  }

  /** A reply that is true of a search in this state. */
  ghost predicate Tells(q: Query, s: State, reply: Reply)
    requires PointsOk(q)
  {
    if s.outcome.Threw? then reply == Failed
    else
      reply.Answered? && |s.cursors| == |q.views| &&
      var r := reply.result;
      NearestOf(q, r.neighbors, s.work.rt.seen) &&
      r.evaluated == |s.work.rt.seen| && r.hits == Passed(s, |q.views|) &&
      (r.reason == StepLimit <==> s.outcome.Running?) &&
      (r.reason == TablesExhausted <==> s.outcome.Finished? && AllDry(q, s)) &&
      (r.complete <==> s.outcome.Finished? && |r.neighbors| == q.start.k)
  }

  lemma TableDry(q: Query, s: State, t: nat)
    requires Core(q, s) && t < |q.views|
    ensures |s.work.rt.exhausted| == |s.cursors| == |q.views|
    ensures s.work.rt.exhausted[t] <==> s.cursors[t].left == -1 && s.cursors[t].right == |q.views[t].entries|
  {
    assert MarkOk(q.views[t], s.cursors[t], s.work.rt.bound, s.work.rt.exhausted[t], s.work.rt.completed[t]);
    hide WorkInv, CursorsOk, QueryOk, WorkOk, WindowOk, CountTrue;
  }

  lemma LedgerCounts(q: Query, s: State)
    requires Core(q, s)
    ensures |s.work.rt.exhausted| == |s.cursors| == |q.views|
    ensures s.work.rt.exhaustedTables == CountTrue(s.work.rt.exhausted)
  {
    assert Lockstep(q, s.work);
    hide WorkInv, MarksOk, QueryOk, WorkOk, WindowOk, CountTrue;
  }

  lemma DryIs(q: Query, s: State)
    requires Core(q, s)
    ensures s.work.rt.exhaustedTables == |s.work.rt.exhausted| <==> AllDry(q, s)
  {
    hide Core, CountTrue;
    LedgerCounts(q, s);
    CountAll(s.work.rt.exhausted);
    forall t | 0 <= t < |q.views|
      ensures s.work.rt.exhausted[t] <==> s.cursors[t].left == -1 && s.cursors[t].right == |q.views[t].entries|
    {
      TableDry(q, s, t);
    }
  }

  lemma TablePassed(q: Query, s: State, t: nat)
    requires QueryOk(q) && CursorsOk(q, s) && t < |q.views|
    ensures |s.cursors| == |q.views|
    ensures |Taken(q.views[t], s.cursors[t])| == s.cursors[t].right - s.cursors[t].left - 1
  {
    assert TableOk(q, q.views[t]) && CursorOk(q.views[t], s.cursors[t], s.work.rt.bound);
    SoundBounds(q.views[t], s.cursors[t]);
    hide QueryOk, CursorsOk, Sound;
  }

  lemma {:induction false} PassedIs(q: Query, s: State, top: nat)
    requires QueryOk(q) && CursorsOk(q, s) && top <= |q.views| == |s.cursors|
    ensures Passed(s, top) == Consumed(q.views, s.cursors, top)
  {
    hide QueryOk, CursorsOk, Taken;
    if top == 0 {
    } else {
      PassedIs(q, s, top - 1);
      TablePassed(q, s, top - 1);
    }
  }

  lemma StateTells(q: Query, s: State)
    requires RunOk(q, s) && PointsOk(q)
    ensures Tells(q, s, ReplyOf(q, s))
  {
    if !s.outcome.Threw? {
      assert Core(q, s) && QueryOk(q) && CursorsOk(q, s);
      var rt := s.work.rt;
      assert Known(rt.seen, Distances(q)) && IsTopK(rt.neighbors, q.start.k, rt.seen, Distances(q));
      assert rt.evaluated == |rt.seen| && rt.hits == Consumed(q.views, s.cursors, |q.views|);
      assert s.outcome.Finished? ==>
               (s.outcome.reason.ScanExhausted? <==> rt.exhaustedTables == |rt.exhausted|);
      hide RunOk, Core, Known, IsTopK, Distances, NearestOf, Passed, Consumed, AllDry, PointsOk;
      NearestIs(q, rt.neighbors, rt.seen);
      DryIs(q, s);
      PassedIs(q, s, |q.views|);
    }
  }

  /** Whatever the limit: the reply holds the k nearest of the points evaluated, how many
      they are, how many entries the cursors passed, why the search stopped, and whether it
      finished with k neighbours. */
  lemma ReplyTells(q: Query, turns: nat)
    requires Startable(q)
    ensures PointsOk(q) && Tells(q, SearchAfter(q, turns), ReplyOf(q, SearchAfter(q, turns)))
  {
    hide Tells, ReplyOf, RunOk;
    StateTells(q, SearchAfter(q, turns));
  }

  /** With a rule that never fires, a reply that says the tables are exhausted holds the
      k nearest of all points. */
  lemma ExactReply(q: Query, turns: nat)
    requires Startable(q) && NeverFires(q.rules)
    requires ReplyOf(q, SearchAfter(q, turns)).Answered?
    requires ReplyOf(q, SearchAfter(q, turns)).result.reason == TablesExhausted
    ensures var r := ReplyOf(q, SearchAfter(q, turns)).result;
            PointsOk(q) && NearestOf(q, r.neighbors, AllPoints(q.start.numPoints)) && r.complete &&
            r.evaluated == q.start.numPoints
  {
    var s := SearchAfter(q, turns);
    assert PointsOk(q) && s.outcome.Finished?;
    ExhaustionIsExact(q, turns);
    hide SearchAfter, Startable, NearestOf, IsTopK, Distances, Known, PointsOk;
    NearestIs(q, s.work.rt.neighbors, AllPoints(q.start.numPoints));
  }
}
