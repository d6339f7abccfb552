/** Neither the storage layout nor pruning leaves a trace in a search: tables cut into
    other regions, or into none, and bounded_distance set otherwise give the same run
    turn by turn. */
module SearchLayouts {
  import opened Tables
  import opened FlatCursor
  import opened TopK
  import opened Strategy
  import opened Delivery
  import opened Engine
  import opened EngineInvariant
  import opened LayoutEquivalence
  import Submissions

  /** The same query against the same tables stored another way, pruning or not. Without
      pruning an unrepresentable distance is an error, so pruning may only differ where
      there is none. */
  ghost predicate Restored(q: Query, r: Query) {
    QueryOk(q) && QueryOk(r) && |r.views| == |q.views| && r == q.(views := r.views, bounded := r.bounded) &&
    (r.bounded != q.bounded ==> Representable(q)) &&
    forall t :: 0 <= t < |q.views| ==> SameTable(q.views[t], r.views[t])
  }

  ghost predicate SameTable(v: View, w: View) {
    w == v.(starts := w.starts)
  }

  /** Evaluation does not look at the tables. */
  lemma EvaluateElsewhere(q: Query, r: Query, w: Work, p: nat)
    requires r == q.(views := r.views) && WorkOk(q, w) && p < q.start.numPoints
    ensures WorkOk(r, w) && Distances(q) == Distances(r) && Evaluate(q, w, p) == Evaluate(r, w, p)
    ensures ResultsOk(q, w.rt) <==> ResultsOk(r, w.rt)
    ensures Representable(q) <==> Representable(r)
  {
    assert Distances(q) == Distances(r);
    assert PointsOk(q) && PointsOk(r) && r.start == q.start && r.rules == q.rules && r.bounded == q.bounded;
    hide Distances, InsertBest, ShouldTerminate, PointsOk, IsTopK, Known;
  }

  lemma EvaluateSame(q: Query, r: Query, w: Work, p: nat)
    requires Restored(q, r) && WorkOk(q, w) && ResultsOk(q, w.rt) && p < q.start.numPoints
    ensures WorkOk(r, w) && Evaluate(q, w, p) == Evaluate(r, w, p)
  {
    var m := q.(views := r.views);
    assert r == m.(bounded := r.bounded);
    hide Evaluate, QueryOk, PointsOk;
    EvaluateElsewhere(q, m, w, p);
    if r.bounded == q.bounded {
      assert r == m;
    } else {
      Submissions.EvaluateSame(m, r, w, p);
    }
  }

  lemma HitSame(q: Query, r: Query, w: Work, p: nat)
    requires Restored(q, r) && WorkOk(q, w) && ResultsOk(q, w.rt) && p < q.start.numPoints
    ensures r.start == q.start && WorkOk(r, w) && HitStep(q, w, p) == HitStep(r, w, p)
    ensures !w.thrown && !HitStep(q, w, p).thrown ==> ResultsOk(q, HitStep(q, w, p).rt)
  {
    assert r.start == q.start;
    var (st, _) := AcceptId(w.st, p);
    Submissions.EvaluateKeeps(q, w.(rt := w.rt.(hits := w.rt.hits + 1), st := st, thrown := false), p);
    EvaluateSame(q, r, w.(rt := w.rt.(hits := w.rt.hits + 1), st := st), p);
    assert PointsOk(r);
    hide Evaluate, QueryOk, Restored, PointsOk;
  }

  lemma ThrownHit(q: Query, r: Query, w: Work, p: nat)
    requires WorkOk(q, w) && WorkOk(r, w) && w.thrown && p < q.start.numPoints && r.start == q.start
    ensures HitStep(q, w, p) == w && HitStep(r, w, p) == w
  {}

  lemma {:induction false} DeliverSame(q: Query, r: Query, w: Work, ids: seq<nat>)
    requires Restored(q, r) && WorkOk(q, w) && ResultsOk(q, w.rt) && !w.thrown && HitsOk(q, ids)
    ensures WorkOk(r, w) && HitsOk(r, ids) && Deliver(q, w, ids) == Deliver(r, w, ids)
    ensures !Deliver(q, w, ids).thrown ==> ResultsOk(q, Deliver(q, w, ids).rt)
  {
    assert PointsOk(r) && r.start == q.start;
    hide HitStep, QueryOk, Restored, PointsOk;
    if ids == [] {
    } else {
      DeliverSame(q, r, w, ids[..|ids| - 1]);
      var before := Deliver(q, w, ids[..|ids| - 1]);
      if before.thrown {
        ThrownHit(q, r, before, ids[|ids| - 1]);
      } else {
        HitSame(q, r, before, ids[|ids| - 1]);
      }
    }
  }

  lemma ScanSame(q: Query, r: Query, s: State, table: nat)
    requires Restored(q, r) && CanScan(q, s, table) && CanScan(r, s, table) && ResultsOk(q, s.work.rt) && !s.work.thrown
    ensures ScanStep(q, s, table) == ScanStep(r, s, table)
  {
    assert SameTable(q.views[table], r.views[table]) && r.start == q.start && r.rules == q.rules &&
           r.quantum == q.quantum;
    assert CallOf(q, s) == CallOf(r, s);
    HitsInTable(q, s, table);
    QuantumIgnoresRegions(q.views[table], r.views[table], s.cursors[table], CallOf(q, s));
    var scan := FlatCursor.Scan(q.views[table], s.cursors[table], CallOf(q, s));
    var ids := IdSeq(scan.hits);
    DeliverSame(q, r, s.work, ids);
    DeliverFrame(q, s.work, ids);
    hide FlatCursor.Scan, Deliver, IdSeq, QueryOk, Restored, Sound, OnScanBoundary, MarkReport, HitsOk;
  }

  lemma SameArithmetic(q: Query, r: Query, x: real)
    requires Restored(q, r)
    ensures NextRadius(q, x) == NextRadius(r, x) && WindowBound(q, x) == WindowBound(r, x)
  {
    assert r.start == q.start && r.arith == q.arith && r.growth == q.growth && r.width == q.width;
    assert Grown(q, x) == Grown(r, x) && HalfWidth(q, x) == HalfWidth(r, x);
    hide QueryOk, Grown, HalfWidth;
  }

  lemma TurnSame(q: Query, r: Query, s: State)
    requires Restored(q, r) && s.outcome.Running? && Ready(q, s) && Ready(r, s)
    ensures Turn(q, s) == Turn(r, s)
  {
    ActionFits(q, s);
    ActionFits(r, s);
    assert r.start == q.start && r.rules == q.rules && ResultsOk(q, s.work.rt) && !s.work.thrown;
    var (st, action) := NextAction(q.rules, q.start, s.work.st, Snap(q, s.work.rt));
    assert Snap(r, s.work.rt) == Snap(q, s.work.rt);
    hide Ready, CanScan, ScanStep, NextAction, Widened, Restored, NextRadius, WindowBound, Snap;
    SameArithmetic(q, r, s.work.rt.radius);
    if NextRadius(q, s.work.rt.radius).Some? {
      SameArithmetic(q, r, NextRadius(q, s.work.rt.radius).value);
    }
    if action.ScanTable? {
      ScanSame(q, r, s.(work := s.work.(st := st)), action.table);
    }
  }

  lemma BeginSame(q: Query, r: Query)
    requires Restored(q, r) && Startable(q)
    ensures Startable(r) && Begin(q) == Begin(r)
  {
    forall t | 0 <= t < |q.views|
      ensures Begin(q).cursors[t] == Begin(r).cursors[t]
    {
      assert SameTable(q.views[t], r.views[t]) && TableOk(q, q.views[t]) && TableOk(r, r.views[t]);
      assert LowerBound(q.views[t].entries, q.views[t].query) == LowerBound(r.views[t].entries, r.views[t].query);
    }
    assert Begin(q).cursors == Begin(r).cursors;
  }

  /** Equivalence of whole searches: the in-memory tables, the sorted array and the built
      B+ tree differ only in where their regions start, and pruned distances only in what
      is not computed to the end. */
  lemma {:induction false} SearchSame(q: Query, r: Query, turns: nat)
    requires Restored(q, r) && Startable(q)
    ensures Startable(r) && SearchAfter(q, turns) == SearchAfter(r, turns)
  {
    hide *;
    BeginSame(q, r);
    if turns == 0 {
      SearchBegins(q);
      SearchBegins(r);
    } else {
      SearchSame(q, r, turns - 1);
      SearchNext(q, turns - 1);
      SearchNext(r, turns - 1);
      if SearchAfter(q, turns - 1).outcome.Running? {
        TurnSame(q, r, SearchAfter(q, turns - 1));
      }
    }
  }
}
