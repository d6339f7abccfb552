/** When a point is evaluated: at the very hit that names it, in the order of the hits,
    and with an error exactly when nothing bounds a distance no float32 holds. */
module DeliveryOrder {
  import opened FlatCursor
  import opened ScanShares
  import opened Schedule
  import opened TopK
  import opened DistanceKernel
  import opened Strategy
  import opened Delivery
  import opened Engine
  import opened EngineInvariant

  /** Evaluating fails exactly for a new point whose distance no float32 holds, while
      fewer than k neighbours are known or distances are not bounded. */
  lemma FailsExactly(q: Query, w: Work, p: nat)
    requires WorkOk(q, w) && p < q.start.numPoints && !w.thrown
    ensures Evaluate(q, w, p).thrown <==>
              p !in w.rt.seen && FullDistance(q.arith, q.norm, q.points[p], q.target).None? &&
              !(q.bounded && |w.rt.neighbors| == q.start.k)
  {
    assert Distances(q)[p] == FullDistance(q.arith, q.norm, q.points[p], q.target);
    hide Distances, FullDistance, InsertBest, ShouldTerminate, Laws;
  }

  /** The evaluations of w come first, and each later one is of the point hit by the
      hit whose number it records. */
  ghost predicate LogFits(w: Work, ids: seq<nat>, w': Work) {
    w'.rt.hits == w.rt.hits + |ids| && w.rt.log <= w'.rt.log &&
    (forall k :: |w.rt.log| <= k < |w'.rt.log| ==> AtItsHit(w, ids, w'.rt.log[k])) &&
    forall j, k :: |w.rt.log| <= j < k < |w'.rt.log| ==> w'.rt.log[j].hits < w'.rt.log[k].hits
  }

  ghost predicate AtItsHit(w: Work, ids: seq<nat>, e: Evaluation) {
    w.rt.hits < e.hits <= w.rt.hits + |ids| && ids[e.hits - w.rt.hits - 1] == e.point
  }

  lemma HitLogs(q: Query, w: Work, p: nat)
    requires WorkOk(q, w) && p < q.start.numPoints
    ensures var w' := HitStep(q, w, p);
            !w'.thrown ==> !w.thrown && w'.rt.hits == w.rt.hits + 1 &&
                           (w'.rt.log == w.rt.log || w'.rt.log == w.rt.log + [Evaluation(p, w.rt.hits + 1)])
  {
    hide Distances, Answer, InsertBest, UpperBound, OnEvaluation;
  }

  lemma LogSnoc(w: Work, ids: seq<nat>, p: nat, before: Work, after: Work)
    requires LogFits(w, ids, before) && after.rt.hits == before.rt.hits + 1
    requires after.rt.log == before.rt.log || after.rt.log == before.rt.log + [Evaluation(p, before.rt.hits + 1)]
    ensures LogFits(w, ids + [p], after)
  {
    forall k | |w.rt.log| <= k < |after.rt.log|
      ensures AtItsHit(w, ids + [p], after.rt.log[k])
    {
      assert k < |before.rt.log| ==> AtItsHit(w, ids, before.rt.log[k]) && after.rt.log[k] == before.rt.log[k];
    }
    forall j, k | |w.rt.log| <= j < k < |after.rt.log|
      ensures after.rt.log[j].hits < after.rt.log[k].hits
    {
      assert AtItsHit(w, ids, before.rt.log[j]);
    }
  }

  /** A run of hits is worked off in order. */
  lemma {:induction false} DeliverLogs(q: Query, w: Work, ids: seq<nat>)
    requires WorkOk(q, w) && HitsOk(q, ids) && !Deliver(q, w, ids).thrown
    ensures LogFits(w, ids, Deliver(q, w, ids))
  {
    if ids == [] {
    } else {
      var front, last := ids[..|ids| - 1], ids[|ids| - 1];
      HitLogs(q, Deliver(q, w, front), last);
      DeliverLogs(q, w, front);
      assert ids == front + [last];
      hide HitStep, LogFits, PointsOk;
      LogSnoc(w, front, last, Deliver(q, w, front), Deliver(q, w, ids));
    }
  }

  /** So a scan evaluates in the order in which the cursor yields the entries, left side
      first and outward. */
  lemma ScanLogs(q: Query, s: State, table: nat)
    requires CanScan(q, s, table) && ScanStep(q, s, table).outcome.Running?
    ensures InBounds(q.views[table], s.cursors[table])
    ensures var hits := FlatCursor.Scan(q.views[table], s.cursors[table], CallOf(q, s)).hits;
            LogFits(s.work, seq(|hits|, i requires 0 <= i < |hits| => hits[i].id), ScanStep(q, s, table).work)
  {
    HitsInTable(q, s, table);
    var scan := FlatCursor.Scan(q.views[table], s.cursors[table], CallOf(q, s));
    var ids := IdSeq(scan.hits);
    assert ids == seq(|scan.hits|, i requires 0 <= i < |scan.hits| => scan.hits[i].id);
    DeliverFrame(q, s.work, ids);
    var w := Deliver(q, s.work, ids);
    hide Deliver, FlatCursor.Scan, HitsOk, IdSeq, OnScanBoundary, PointsOk, LogFits;
    assert !w.thrown;
    DeliverLogs(q, s.work, ids);
    SameLog(s.work, ids, w, Boundary(q, w, table, scan.report));
  }

  lemma SameLog(w: Work, ids: seq<nat>, w': Work, w'': Work)
    requires LogFits(w, ids, w') && w''.rt.log == w'.rt.log && w''.rt.hits == w'.rt.hits
    ensures LogFits(w, ids, w'')
  {
    forall k | |w.rt.log| <= k < |w''.rt.log|
      ensures AtItsHit(w, ids, w''.rt.log[k])
    {
      assert AtItsHit(w, ids, w'.rt.log[k]);
    }
  }

  /** One scan turn moves one cursor over no more entries than the quantum: at most half of
      them, rounded up, to the left. */
  lemma ScanVisits(q: Query, s: State, table: nat)
    requires CanScan(q, s, table) && ScanStep(q, s, table).outcome.Running?
    ensures var s' := ScanStep(q, s, table);
            |s'.cursors| == |s.cursors| &&
            (forall t :: 0 <= t < |s.cursors| && t != table ==> s'.cursors[t] == s.cursors[t]) &&
            s'.work.rt.hits <= s.work.rt.hits + q.quantum &&
            s.cursors[table].left - (q.quantum + 1) / 2 <= s'.cursors[table].left <= s.cursors[table].left &&
            s.cursors[table].right <= s'.cursors[table].right <= s.cursors[table].right + (q.quantum + 1) / 2
  {
    HitsInTable(q, s, table);
    ScanLogs(q, s, table);
    var v, c := q.views[table], s.cursors[table];
    QuantumShares(v, c, CallOf(q, s));
    hide Deliver, FlatCursor.Scan, HitsOk, OnScanBoundary, PointsOk;
  }

  /** So no turn of a search visits more entries than the quantum. */
  lemma TurnVisits(q: Query, turns: nat)
    requires Startable(q) && SearchAfter(q, turns).outcome.Running? && SearchAfter(q, turns + 1).outcome.Running?
    ensures SearchAfter(q, turns + 1).work.rt.hits <= SearchAfter(q, turns).work.rt.hits + q.quantum
  {
    hide *;
    SearchNext(q, turns);
    StepVisits(q, SearchAfter(q, turns));
  }

  lemma StepVisits(q: Query, s: State)
    requires s.outcome.Running? && Ready(q, s) && Turn(q, s).outcome.Running?
    ensures Turn(q, s).work.rt.hits <= s.work.rt.hits + q.quantum
  {
    TurnCases(q, s);
    var (st, action) := NextAction(q.rules, q.start, s.work.st, Snap(q, s.work.rt));
    var s1 := s.(work := s.work.(st := st));
    hide Core, Ready, Turn, NextAction, CanScan, ScanStep, NextRadius, WindowBound, AdvanceSched, Sized;
    if action.ScanTable? {
      ScanVisits(q, s1, action.table);
    }
  }
}
