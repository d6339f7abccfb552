/** Searches that run their tables dry: everything has been evaluated and the
    answer is the exact nearest neighbours. */
module SearchExhaustion {
  import opened Tables
  import opened FlatCursor
  import opened Schedule
  import opened TopK
  import opened DistanceKernel
  import opened Strategy
  import opened Delivery
  import opened Engine
  import opened EngineInvariant
  import opened SearchSemantics

  ghost function AllPoints(n: nat): (all: set<nat>)
    ensures |all| == n
    ensures forall p: nat :: p in all <==> p < n
  {
    if n == 0 then {} else AllPoints(n - 1) + {n - 1}
  }

  ghost predicate UsedUp(rt: Runtime) {
    rt.exhaustedTables == |rt.exhausted|
  }

  // ---- a used-up table has delivered everything ------------------------

  lemma ExhaustedDelivers(v: View, c: Cursor, n: nat, p: nat)
    requires v.Valid() && Sound(v, c) && TableExhausted(v, c) && ValidTable(v.entries, n) && p < n
    ensures Occurrences(Taken(v, c), p) == 1
  {
    TakenOnce(v, c, p);
    EveryIdOccurs(v.entries, n);
    assert p in Ids(v.entries);
    assert Among(v.entries, 0, |v.entries|, p);
  }

  ghost predicate AllExhausted(q: Query, s: State) {
    |s.work.rt.exhausted| == |q.views| && forall t :: 0 <= t < |q.views| ==> s.work.rt.exhausted[t]
  }

  lemma TableDelivers(q: Query, s: State, p: nat, t: nat)
    requires QueryOk(q) && CursorsOk(q, s) && |s.work.rt.exhausted| == |s.work.rt.completed| == |q.views| &&
             MarksOk(q, s)
    requires AllExhausted(q, s) && t < |q.views| && p < q.start.numPoints
    ensures Occurrences(Taken(q.views[t], s.cursors[t]), p) == 1
  {
    var v, c := q.views[t], s.cursors[t];
    assert TableOk(q, v) && CursorOk(v, c, s.work.rt.bound);
    assert MarkOk(v, c, s.work.rt.bound, true, s.work.rt.completed[t]);
    hide CursorsOk, MarksOk, QueryOk, Occurrences, Taken, Sound;
    ExhaustedDelivers(v, c, q.start.numPoints, p);
  }

  lemma {:induction false} AllTablesCollide(q: Query, s: State, p: nat, top: nat)
    requires QueryOk(q) && CursorsOk(q, s) && |s.work.rt.exhausted| == |s.work.rt.completed| == |q.views| &&
             MarksOk(q, s)
    requires AllExhausted(q, s) && top <= |q.views| && p < q.start.numPoints
    ensures Collisions(q.views, s.cursors, p, top) == top
  {
    hide CursorOk, MarksOk, QueryOk, Occurrences, Taken, AllExhausted;
    if top == 0 {
    } else {
      AllTablesCollide(q, s, p, top - 1);
      TableDelivers(q, s, p, top - 1);
    }
  }

  /** With every table used up and hits never ignored, every point is evaluated. */
  lemma UsedUpSeesAll(q: Query, s: State, p: nat)
    requires Core(q, s) && UsedUp(s.work.rt) && !s.work.st.finishRequested && p < q.start.numPoints
    ensures p in s.work.rt.seen
  {
    CountAll(s.work.rt.exhausted);
    assert CountedAt(q, s.work, p, CountsOf(q, s.cursors)(p));
    assert AllExhausted(q, s);
    hide CursorsOk, MarksOk, WorkInv, Collisions, Consumed, CountTrue;
    AllTablesCollide(q, s, p, |q.views|);
  }

  // ---- a rule that never fires -----------------------------------------

  lemma EvaluateNeverAsks(q: Query, w: Work, p: nat)
    requires WorkOk(q, w) && p < q.start.numPoints && NeverFires(q.rules) && !w.st.finishRequested
    ensures !Evaluate(q, w, p).st.finishRequested
  {
    forall rt
      ensures !ShouldTerminate(q.rules, q.start, Snap(q, rt))
    {
      NeverTerminates(q.rules, q.start, Snap(q, rt));
    }
    hide ShouldTerminate, Distances, InsertBest, Answer, UpperBound;
  }

  lemma {:induction false} DeliverNeverAsks(q: Query, w: Work, ids: seq<nat>)
    requires WorkOk(q, w) && HitsOk(q, ids) && NeverFires(q.rules) && !w.st.finishRequested
    ensures !Deliver(q, w, ids).st.finishRequested
  {
    if ids == [] {
    } else {
      DeliverNeverAsks(q, w, ids[..|ids| - 1]);
      var before := Deliver(q, w, ids[..|ids| - 1]);
      hide HitStep, NeverFires, PointsOk;
      HitNeverAsks(q, before, ids[|ids| - 1]);
    }
  }

  lemma HitNeverAsks(q: Query, w: Work, p: nat)
    requires WorkOk(q, w) && p < q.start.numPoints && NeverFires(q.rules) && !w.st.finishRequested
    ensures !HitStep(q, w, p).st.finishRequested
  {
    EvaluateNeverAsks(q, w.(rt := w.rt.(hits := w.rt.hits + 1), st := AcceptId(w.st, p).0), p);
    hide Evaluate, NeverFires;
  }

  lemma ScanNeverAsks(q: Query, s: State, table: nat)
    requires CanScan(q, s, table) && NeverFires(q.rules) && !s.work.st.finishRequested
    ensures ScanStep(q, s, table).outcome.Running? ==> !ScanStep(q, s, table).work.st.finishRequested
  {
    HitsInTable(q, s, table);
    var scan := FlatCursor.Scan(q.views[table], s.cursors[table], CallOf(q, s));
    var ids := IdSeq(scan.hits);
    DeliverNeverAsks(q, s.work, ids);
    DeliverFrame(q, s.work, ids);
    var w := Deliver(q, s.work, ids);
    NeverTerminates(q.rules, q.start, Snap(q, MarkReport(w.rt, table, scan.report)));
    hide ShouldTerminate, Deliver, FlatCursor.Scan, IdSeq, MarkReport;
  }

  lemma TurnNeverAsks(q: Query, s: State)
    requires s.outcome.Running? && Ready(q, s) && NeverFires(q.rules) && !s.work.st.finishRequested
    ensures Turn(q, s).outcome.Running? ==> !Turn(q, s).work.st.finishRequested
  {
    ActionFits(q, s);
    NeverTerminates(q.rules, q.start, Snap(q, s.work.rt));
    var (st, action) := NextAction(q.rules, q.start, s.work.st, Snap(q, s.work.rt));
    assert action.ScanTable? || action.AdvanceRadius? ==> !st.finishRequested;
    hide Ready, Core, CanScan, ScanStep, ShouldTerminate, AdvanceSched, NextAction, Sized, NextRadius, WindowBound;
    if action.ScanTable? {
      ScanNeverAsks(q, s.(work := s.work.(st := st)), action.table);
    }
  }

  lemma {:induction false} NeverAsks(q: Query, turns: nat)
    requires Startable(q) && NeverFires(q.rules) && SearchAfter(q, turns).outcome.Running?
    ensures !SearchAfter(q, turns).work.st.finishRequested
  {
    hide *;
    if turns == 0 {
      SearchBegins(q);
    } else {
      SearchNext(q, turns - 1);
      var s := SearchAfter(q, turns - 1);
      NeverAsks(q, turns - 1);
      TurnNeverAsks(q, s);
    }
  }

  // ---- the exact answer ------------------------------------------------

  lemma FinishTurn(q: Query, s: State)
    requires s.outcome.Running? && Ready(q, s) && Turn(q, s).outcome.Finished?
    ensures Turn(q, s).work.rt == s.work.rt
    ensures !s.work.st.finishRequested && NeverFires(q.rules) ==> UsedUp(s.work.rt)
  {
    ActionFits(q, s);
    if NeverFires(q.rules) {
      NeverTerminates(q.rules, q.start, Snap(q, s.work.rt));
    }
    assert Lockstep(q, s.work);
    hide Core, CanScan, ShouldTerminate, AdvanceSched, Deliver, SchedOk;
  }

  lemma {:induction false} FinishedSeesAll(q: Query, turns: nat, p: nat)
    requires Startable(q) && NeverFires(q.rules) && SearchAfter(q, turns).outcome.Finished? && p < q.start.numPoints
    ensures p in SearchAfter(q, turns).work.rt.seen
  {
    hide *;
    if turns == 0 {
      SearchBegins(q);
    } else {
      SearchNext(q, turns - 1);
      var s := SearchAfter(q, turns - 1);
      if s.outcome.Running? {
        NeverAsks(q, turns - 1);
        FinishTurn(q, s);
        UsedUpSeesAll(q, s, p);
      } else {
        FinishedSeesAll(q, turns - 1, p);
      }
    }
  }

  /** With a termination rule that never fires, a finished search has evaluated all
      n points and returns the exact k nearest by (distance, id). */
  lemma ExhaustionIsExact(q: Query, turns: nat)
    requires Startable(q) && NeverFires(q.rules) && SearchAfter(q, turns).outcome.Finished?
    ensures SearchAfter(q, turns).outcome.reason == ScanExhausted
    ensures var rt, all := SearchAfter(q, turns).work.rt, AllPoints(q.start.numPoints);
            rt.seen == all && rt.evaluated == q.start.numPoints && |rt.neighbors| == q.start.k &&
            Known(all, Distances(q)) && IsTopK(rt.neighbors, q.start.k, all, Distances(q))
  {
    NeverStopsEarly(q, turns);
    ResultsAreTopK(q, turns);
    var rt := SearchAfter(q, turns).work.rt;
    assert q.start.k <= q.start.numPoints;
    hide Core, Ready, RunOk, IsTopK, SearchAfter, Distances;
    forall p: nat | p < q.start.numPoints
      ensures p in rt.seen
    {
      FinishedSeesAll(q, turns, p);
    }
    assert rt.seen == AllPoints(q.start.numPoints);
  }
}
