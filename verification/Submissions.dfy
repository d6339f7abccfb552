/** Candidates submitted in any order and any number of times: the result list only
    depends on which points they were, and pruning leaves no trace in it. */
module Submissions {
  import opened TopK
  import opened DistanceKernel
  import opened Strategy
  import opened Delivery

  /** EvaluateCandidate for one candidate after another, until one overflows. */
  ghost function Submit(q: Query, w: Work, ids: seq<nat>): (w': Work)
    requires WorkOk(q, w) && HitsOk(q, ids)
    ensures WorkOk(q, w')
  {
    if ids == [] then w
    else
      var before := Submit(q, w, ids[..|ids| - 1]);
      if before.thrown then before else Evaluate(q, before, ids[|ids| - 1])
  }

  ghost function PointsOf(ids: seq<nat>): (points: set<nat>)
    ensures forall p :: p in points <==> p in ids
  {
    set i | 0 <= i < |ids| :: ids[i]
  }

  /** A submission, new or duplicate, keeps the list the k best of the evaluated points. */
  lemma EvaluateKeeps(q: Query, w: Work, p: nat)
    requires WorkOk(q, w) && ResultsOk(q, w.rt) && !w.thrown && p < q.start.numPoints
    ensures var w' := Evaluate(q, w, p);
            !w'.thrown ==> ResultsOk(q, w'.rt) && w'.rt.seen == w.rt.seen + {p}
  {
    if p !in w.rt.seen {
      EvaluateResults(q, w.rt, p);
    } else {
      assert w.rt.seen + {p} == w.rt.seen;
    }
    hide Distances, IsTopK, InsertBest, Answer, UpperBound, Known, ShouldTerminate;
  }

  /** After any sequence of submissions the evaluated points are the submitted ones and
      the list is the k best of them by (distance, id). */
  lemma {:induction false} SubmitKeeps(q: Query, w: Work, ids: seq<nat>)
    requires WorkOk(q, w) && ResultsOk(q, w.rt) && !w.thrown && HitsOk(q, ids)
    ensures var w' := Submit(q, w, ids);
            !w'.thrown ==> ResultsOk(q, w'.rt) && w'.rt.seen == w.rt.seen + PointsOf(ids)
  {
    if ids == [] {
      assert w.rt.seen + PointsOf(ids) == w.rt.seen;
    } else {
      var front, p := ids[..|ids| - 1], ids[|ids| - 1];
      SubmitKeeps(q, w, front);
      PointsSnoc(w.rt.seen, ids);
      var before := Submit(q, w, front);
      hide ResultsOk, Evaluate, PointsOk, PointsOf;
      if !before.thrown {
        EvaluateKeeps(q, before, p);
      }
    }
  }

  lemma PointsSnoc(seen: set<nat>, ids: seq<nat>)
    requires ids != []
    ensures seen + PointsOf(ids) == (seen + PointsOf(ids[..|ids| - 1])) + {ids[|ids| - 1]}
  {
    var front, last := ids[..|ids| - 1], ids[|ids| - 1];
    assert ids == front + [last];
    assert forall p: nat :: p in ids <==> p in front || p == last;
  }

  // ---- pruning ---------------------------------------------------------

  /** The same search with bounded_distance set otherwise. */
  ghost predicate OtherBounds(q: Query, r: Query) {
    r == q.(bounded := r.bounded)
  }

  /** What a full evaluation does. */
  function FullMeasure(q: Query, w: Work, p: nat, d: real): Work
    requires q.start.k > 0 && |w.rt.neighbors| <= q.start.k
  {
    var neighbors := InsertBest(w.rt.neighbors, Neighbor(d, p), q.start.k);
    Told(q, w.(rt := w.rt.(seen := w.rt.seen + {p}, evaluated := w.rt.evaluated + 1, neighbors := neighbors)))
  }

  /** A representable distance, pruned or not, leaves the state of a full evaluation. */
  lemma MeasureIsFull(q: Query, w: Work, p: nat)
    requires WorkOk(q, w) && ResultsOk(q, w.rt) && p < q.start.numPoints && Distances(q)[p].Some?
    ensures Measure(q, w, p) == FullMeasure(q, w, p, Distances(q)[p].value)
  {
    var ns, k, c := w.rt.neighbors, q.start.k, Neighbor(Distances(q)[p].value, p);
    SortedList(q, w.rt);
    hide Distances, InsertBest, IsTopK, BestFirst, PointsOk, OnEvaluation, ResultsOk;
    if |ns| == k && c.distance > ns[k - 1].distance {
      InsertBeaten(ns, c, k);
    }
  }

  /** When every distance is representable, a pruned evaluation and a full one end in the
      same state. */
  lemma MeasureSame(q: Query, r: Query, w: Work, p: nat)
    requires OtherBounds(q, r) && WorkOk(q, w) && ResultsOk(q, w.rt) && Representable(q)
    requires p < q.start.numPoints && p !in w.rt.seen
    ensures WorkOk(r, w) && Measure(q, w, p) == Measure(r, w, p)
  {
    assert Distances(r) == Distances(q);
    assert Distances(q)[p].Some?;
    MeasureIsFull(q, w, p);
    MeasureIsFull(r, w, p);
    hide Distances, InsertBest, IsTopK, Measure;
  }

  lemma SortedList(q: Query, rt: Runtime)
    requires PointsOk(q) && ResultsOk(q, rt)
    ensures BestFirst(rt.neighbors) && |rt.neighbors| <= q.start.k
  {}

  lemma EvaluateSame(q: Query, r: Query, w: Work, p: nat)
    requires OtherBounds(q, r) && WorkOk(q, w) && ResultsOk(q, w.rt) && Representable(q) && p < q.start.numPoints
    ensures WorkOk(r, w) && Evaluate(q, w, p) == Evaluate(r, w, p)
  {
    assert PointsOk(r);
    hide Measure, ShouldTerminate, Distances, Representable, PointsOk;
    if p !in w.rt.seen {
      LoggedResults(q, w.rt, p);
      MeasureSame(q, r, w.(rt := Logged(w.rt, p)), p);
    }
  }

  lemma LoggedResults(q: Query, rt: Runtime, p: nat)
    requires PointsOk(q) && ResultsOk(q, rt)
    ensures ResultsOk(q, Logged(rt, p))
  {}

  lemma EvaluateSucceeds(q: Query, w: Work, p: nat)
    requires WorkOk(q, w) && p < q.start.numPoints && Representable(q) && !w.thrown
    ensures !Evaluate(q, w, p).thrown
  {
    assert Distances(q)[p].Some?;
    hide Distances, InsertBest, ShouldTerminate;
  }

  /** Which points were submitted decides the list: order, repetition and pruning do not. */
  lemma SubmissionsDecide(q: Query, r: Query, w: Work, a: seq<nat>, b: seq<nat>)
    requires OtherBounds(q, r) && WorkOk(q, w) && WorkOk(r, w) && ResultsOk(q, w.rt) && !w.thrown
    requires HitsOk(q, a) && HitsOk(r, b) && PointsOf(a) == PointsOf(b)
    requires !Submit(q, w, a).thrown && !Submit(r, w, b).thrown
    ensures var x, y := Submit(q, w, a).rt, Submit(r, w, b).rt;
            x.neighbors == y.neighbors && x.seen == y.seen && x.evaluated == y.evaluated
  {
    assert Distances(r) == Distances(q);
    SubmitKeeps(q, w, a);
    SubmitKeeps(r, w, b);
    var x, y := Submit(q, w, a).rt, Submit(r, w, b).rt;
    hide Submit, Distances, IsTopK, Known;
    TopKUnique(x.neighbors, y.neighbors, q.start.k, x.seen, Distances(q));
  }
}
