/** From projection hits to evaluated points: collision counting, deduplication and
    bounded evaluation, one hit at a time and in bulk. */
module Delivery {
  import opened Tables
  import opened FlatCursor
  import opened TopK
  import opened DistanceKernel
  import opened Strategy

  /** One search: the index tables as this query sees them, and the parameters. */
  datatype Query = Query(views: seq<View>, start: QueryStart, rules: Rules, quantum: nat, bounded: bool,
                         arith: Arithmetic, norm: Norm, target: seq<real>, points: seq<seq<real>>,
                         radius: real, growth: real, width: real)

  /** A call of EvaluateCandidate: the point, and projection_hits when it was made. */
  datatype Evaluation = Evaluation(point: nat, hits: nat)

  /** SearchRuntime as a value; seen holds the points whose stamp is current, log the
      evaluations asked for so far, in order. */
  datatype Runtime = Runtime(radius: real, bound: real, evaluated: nat, hits: nat, roundComplete: bool, seen: set<nat>,
                             exhausted: seq<bool>, exhaustedTables: nat, completed: seq<bool>, completedTables: nat,
                             neighbors: seq<Neighbor>, log: seq<Evaluation>)

  /** What delivery works on. thrown: a distance was not representable. */
  datatype Work = Work(rt: Runtime, st: StrategyState, thrown: bool)

  ghost predicate PointsOk(q: Query) {
    |q.points| == q.start.numPoints && q.start.k > 0 && Laws(q.arith) &&
    forall p :: 0 <= p < |q.points| ==> |q.points[p]| == |q.target|
  }

  ghost function Distances(q: Query): (d: seq<Option<real>>)
    requires PointsOk(q)
    ensures |d| == q.start.numPoints
  {
    seq(|q.points|, p requires 0 <= p < |q.points| => FullDistance(q.arith, q.norm, q.points[p], q.target))
  }

  /** Every distance fits a float32. */
  ghost predicate Representable(q: Query)
    requires PointsOk(q)
  {
    forall p :: 0 <= p < |Distances(q)| ==> Distances(q)[p].Some?
  }

  function Snap(q: Query, rt: Runtime): Snapshot {
    Snapshot(rt.radius, rt.bound, q.start.k, rt.evaluated, rt.hits, rt.roundComplete,
             rt.exhaustedTables == |rt.exhausted|, rt.neighbors)
  }

  function Told(q: Query, w: Work): Work
    requires q.start.k > 0
  {
    w.(st := OnEvaluation(q.rules, q.start, w.st, Snap(q, w.rt)))
  }

  /** The bound a candidate has to meet: the k-th best so far, once there are k. */
  function UpperBound(q: Query, neighbors: seq<Neighbor>): Option<real>
    requires q.start.k > 0
  {
    if q.bounded && |neighbors| == q.start.k then Some(neighbors[|neighbors| - 1].distance) else None
  }

  function Logged(rt: Runtime, p: nat): Runtime {
    rt.(log := rt.log + [Evaluation(p, rt.hits)])
  }

  /** Measuring a point not seen before. */
  ghost function Measure(q: Query, w: Work, p: nat): Work
    requires PointsOk(q) && p < q.start.numPoints && |w.rt.neighbors| <= q.start.k
  {
    var rt := w.rt.(seen := w.rt.seen + {p});
    match Answer(Distances(q)[p], UpperBound(q, rt.neighbors))
    case Unrepresentable => w.(rt := rt, thrown := true)
    case Missed => Told(q, w.(rt := rt.(evaluated := rt.evaluated + 1)))
    case Exact(d) =>
      var neighbors := InsertBest(rt.neighbors, Neighbor(d, p), q.start.k);
      Told(q, w.(rt := rt.(evaluated := rt.evaluated + 1, neighbors := neighbors)))
  }

  /** EvaluateCandidate. */
  ghost function Evaluate(q: Query, w: Work, p: nat): Work
    requires PointsOk(q) && p < q.start.numPoints && |w.rt.neighbors| <= q.start.k
  {
    var logged := w.(rt := Logged(w.rt, p));
    if p in w.rt.seen then Told(q, logged) else Measure(q, logged, p)
  }

  ghost predicate WorkOk(q: Query, w: Work) {
    PointsOk(q) && |w.st.remaining| == q.start.numPoints && |w.rt.neighbors| <= q.start.k
  }

  /** One projection hit, as on_projection_hit decides it. */
  ghost function HitStep(q: Query, w: Work, p: nat): (w': Work)
    requires WorkOk(q, w) && p < q.start.numPoints
    ensures WorkOk(q, w')
  {
    if w.thrown then w
    else
      var counted := w.(rt := w.rt.(hits := w.rt.hits + 1));
      if w.st.finishRequested then counted
      else
        var (st, candidate) := AcceptId(w.st, p);
        if candidate then Evaluate(q, counted.(st := st), p) else counted.(st := st)
  }

  ghost predicate HitsOk(q: Query, ids: seq<nat>) {
    forall i :: 0 <= i < |ids| ==> ids[i] < q.start.numPoints
  }

  /** Hits one after another. */
  ghost function Deliver(q: Query, w: Work, ids: seq<nat>): (w': Work)
    requires WorkOk(q, w) && HitsOk(q, ids)
    ensures WorkOk(q, w')
  {
    if ids == [] then w else HitStep(q, Deliver(q, w, ids[..|ids| - 1]), ids[|ids| - 1])
  }

  /** Cutting a range into consecutive chunks changes nothing. */
  lemma {:induction false} DeliverChunks(q: Query, w: Work, a: seq<nat>, b: seq<nat>)
    requires WorkOk(q, w) && HitsOk(q, a) && HitsOk(q, b)
    ensures HitsOk(q, a + b) && Deliver(q, w, a + b) == Deliver(q, Deliver(q, w, a), b)
  {
    if b == [] {
      assert a + b == a;
    } else {
      var front := b[..|b| - 1];
      DeliverChunks(q, w, a, front);
      assert (a + b)[..|a + b| - 1] == a + front;
    }
  }

  // ---- what delivery keeps ---------------------------------------------

  /** How many of these hits are on point p. */
  ghost function Occurrences(ids: seq<nat>, p: nat): nat {
    if ids == [] then 0 else Occurrences(ids[..|ids| - 1], p) + (if ids[|ids| - 1] == p then 1 else 0)
  }

  function Left(threshold: nat, count: nat): nat {
    if count >= threshold then 0 else threshold - count
  }

  /** Point p has been hit count times: exactly what its counter says, or, once the
      strategy has decided to finish and ignores hits, at least that often. */
  ghost predicate CountedAt(q: Query, w: Work, p: nat, count: nat)
    requires WorkOk(q, w) && p < q.start.numPoints
  {
    var due := Left(ActiveThreshold(q.rules, q.start), count);
    w.st.remaining[p] >= due && (!w.st.finishRequested ==> w.st.remaining[p] == due) &&
    (p in w.rt.seen <==> w.st.remaining[p] == 0)
  }

  /** The evaluated points: how many, and the best k of them. */
  ghost predicate ResultsOk(q: Query, rt: Runtime)
    requires PointsOk(q)
  {
    Known(rt.seen, Distances(q)) && rt.evaluated == |rt.seen| &&
    IsTopK(rt.neighbors, q.start.k, rt.seen, Distances(q))
  }

  /** A standard strategy asks to finish only when its rule is met, or when every
      table is used up. */
  ghost predicate Justified(q: Query, rt: Runtime, st: StrategyState)
    requires q.start.k > 0
  {
    (q.rules.rule.None? && st.finishRequested ==>
       Met(q.rules, q.start, rt.evaluated, rt.neighbors, rt.radius) || rt.exhaustedTables == |rt.exhausted|) &&
    (NeverFires(q.rules) && st.finishRequested ==> rt.exhaustedTables == |rt.exhausted|)
  }

  ghost predicate Silent(f: Snapshot -> bool, s: Snapshot) {
    !f(s)
  }

  ghost predicate NeverFires(rules: Rules) {
    rules.rule.Some? && forall s :: Silent(rules.rule.value, s)
  }

  lemma NeverTerminates(rules: Rules, start: QueryStart, state: Snapshot)
    requires NeverFires(rules) && start.k > 0
    ensures !ShouldTerminate(rules, start, state)
  {
    assert Silent(rules.rule.value, state);
  }

  lemma ToldKeeps(q: Query, w: Work)
    requires PointsOk(q) && ResultsOk(q, w.rt) && Justified(q, w.rt, w.st)
    ensures var w' := Told(q, w); ResultsOk(q, w'.rt) && Justified(q, w'.rt, w'.st)
    ensures Told(q, w).rt == w.rt && Told(q, w).st.remaining == w.st.remaining && Told(q, w).thrown == w.thrown
    ensures w.st.finishRequested ==> Told(q, w).st.finishRequested
    ensures Told(q, w).st.schedule == w.st.schedule && Told(q, w).st.radiusAdvanced == w.st.radiusAdvanced
  {
    if NeverFires(q.rules) {
      NeverTerminates(q.rules, q.start, Snap(q, w.rt));
    }
  }

  /** Evaluating a fresh point: the list stays the best k of what has been seen. */
  lemma EvaluateResults(q: Query, rt: Runtime, p: nat)
    requires PointsOk(q) && ResultsOk(q, rt) && p < q.start.numPoints && p !in rt.seen
    ensures var seen, bound := rt.seen + {p}, UpperBound(q, rt.neighbors);
            Known(seen, Distances(q)) && |seen| == rt.evaluated + 1 &&
            match Answer(Distances(q)[p], bound)
            case Exact(d) => Distances(q)[p] == Some(d) &&
                             IsTopK(InsertBest(rt.neighbors, Neighbor(d, p), q.start.k), q.start.k, seen, Distances(q))
            case Missed => IsTopK(rt.neighbors, q.start.k, seen, Distances(q))
            case Unrepresentable => true
  {
    var distances, k := Distances(q), q.start.k;
    SeenGrows(rt.seen, distances, p);
    if distances[p].Some? {
      InsertKeeps(rt.neighbors, k, rt.seen, distances, p);
    }
    hide Distances, IsTopK, InsertBest, Known;
    if Answer(distances[p], UpperBound(q, rt.neighbors)) == Missed {
      MissedIsBeaten(q, rt.neighbors, distances[p]);
      PruneKeeps(rt.neighbors, k, rt.seen, distances, p);
    }
  }

  lemma SeenGrows(seen: set<nat>, distances: seq<Option<real>>, p: nat)
    requires Known(seen, distances) && p < |distances| && p !in seen
    ensures Known(seen + {p}, distances) && |seen + {p}| == |seen| + 1
  {}

  lemma MissedIsBeaten(q: Query, neighbors: seq<Neighbor>, distance: Option<real>)
    requires q.start.k > 0 && Answer(distance, UpperBound(q, neighbors)) == Missed
    ensures |neighbors| == q.start.k && (distance.None? || distance.value > neighbors[q.start.k - 1].distance)
  {}

  /** Everything but the counters that evaluation leaves alone. */
  ghost predicate SameFrame(w: Work, w': Work) {
    w'.rt.radius == w.rt.radius && w'.rt.bound == w.rt.bound && w'.rt.roundComplete == w.rt.roundComplete &&
    w'.rt.exhausted == w.rt.exhausted && w'.rt.exhaustedTables == w.rt.exhaustedTables &&
    w'.rt.completed == w.rt.completed && w'.rt.completedTables == w.rt.completedTables &&
    w'.st.schedule == w.st.schedule && w'.st.radiusAdvanced == w.st.radiusAdvanced &&
    (w.st.finishRequested ==> w'.st.finishRequested)
  }

  lemma EvaluateFresh(q: Query, w: Work, p: nat)
    requires WorkOk(q, w) && ResultsOk(q, w.rt) && !w.st.finishRequested && !w.thrown
    requires p < q.start.numPoints && p !in w.rt.seen
    ensures var w' := Evaluate(q, w, p);
            SameFrame(w, w') && w'.st.remaining == w.st.remaining && w'.rt.seen == w.rt.seen + {p} &&
            (!w'.thrown ==> ResultsOk(q, w'.rt) && Justified(q, w'.rt, w'.st) &&
                            w'.rt.log == w.rt.log + [Evaluation(p, w.rt.hits)] && w'.rt.evaluated == w.rt.evaluated + 1)
  {
    EvaluateResults(q, w.rt, p);
    hide Distances, IsTopK, InsertBest, Answer, UpperBound, Known;
    var rt := Logged(w.rt, p).(seen := w.rt.seen + {p}, evaluated := w.rt.evaluated + 1);
    match Answer(Distances(q)[p], UpperBound(q, w.rt.neighbors)) {
      case Unrepresentable =>
      case Missed => ToldKeeps(q, w.(rt := rt));
      case Exact(d) =>
        ToldKeeps(q, w.(rt := rt.(neighbors := InsertBest(rt.neighbors, Neighbor(d, p), q.start.k))));
    }
  }

  /** Each point counted against the number of its hits so far. */
  ghost predicate Counted(q: Query, w: Work, counts: nat -> nat)
    requires WorkOk(q, w)
  {
    forall p :: 0 <= p < q.start.numPoints ==> CountedAt(q, w, p, counts(p))
  }

  /** As many submissions as evaluations: none was a duplicate. */
  ghost predicate OncePerPoint(rt: Runtime) {
    |rt.log| == rt.evaluated
  }

  ghost predicate WorkInv(q: Query, w: Work, counts: nat -> nat)
    requires WorkOk(q, w)
  {
    Counted(q, w, counts) && ResultsOk(q, w.rt) && Justified(q, w.rt, w.st) && OncePerPoint(w.rt)
  }

  function OneMore(counts: nat -> nat, p: nat): nat -> nat {
    x => if x == p then counts(x) + 1 else counts(x)
  }

  /** What a hit does to the counters and the marks. */
  ghost predicate HitMoves(w: Work, w': Work, p: nat)
    requires p < |w.st.remaining|
  {
    var due := w.st.remaining[p];
    (if w.st.finishRequested || due == 0 then w'.st.remaining == w.st.remaining
     else w'.st.remaining == w.st.remaining[p := due - 1]) &&
    w'.rt.seen == (if !w.st.finishRequested && due == 1 then w.rt.seen + {p} else w.rt.seen) &&
    (w.st.finishRequested ==> w'.st.finishRequested)
  }

  lemma HitCounts(q: Query, w: Work, w': Work, p: nat, counts: nat -> nat)
    requires WorkOk(q, w) && WorkOk(q, w') && Counted(q, w, counts) && p < q.start.numPoints && HitMoves(w, w', p)
    ensures Counted(q, w', OneMore(counts, p))
  {
    hide PointsOk, ActiveThreshold;
    forall s | 0 <= s < q.start.numPoints
      ensures CountedAt(q, w', s, OneMore(counts, p)(s))
    {
      assert CountedAt(q, w, s, counts(s));
    }
  }

  /** The point a hit names is evaluated at its threshold-th hit and never again. */
  lemma HitKeeps(q: Query, w: Work, p: nat, counts: nat -> nat)
    requires WorkOk(q, w) && WorkInv(q, w, counts) && p < q.start.numPoints && !w.thrown
    ensures var w' := HitStep(q, w, p);
            SameFrame(w, w') && (!w'.thrown ==> WorkInv(q, w', OneMore(counts, p)) && w'.rt.hits == w.rt.hits + 1)
  {
    var w' := HitStep(q, w, p);
    var counted := w.(rt := w.rt.(hits := w.rt.hits + 1));
    assert CountedAt(q, w, p, counts(p));
    assert ResultsOk(q, counted.rt) && Justified(q, counted.rt, counted.st);
    hide ResultsOk, Evaluate, Justified, Counted, CountedAt, PointsOk;
    if !w.st.finishRequested && w.st.remaining[p] == 1 {
      NamedHit(q, counted, p);
    }
    if !w'.thrown {
      assert HitMoves(w, w', p);
      HitCounts(q, w, w', p, counts);
      if w.st.finishRequested || w.st.remaining[p] != 1 {
        UnnamedHit(q, counted, w');
      }
    }
  }

  /** The hit that takes a counter to zero. */
  lemma NamedHit(q: Query, counted: Work, p: nat)
    requires WorkOk(q, counted) && ResultsOk(q, counted.rt) && OncePerPoint(counted.rt)
    requires p < q.start.numPoints && !counted.thrown
    requires !counted.st.finishRequested && counted.st.remaining[p] == 1 && p !in counted.rt.seen
    ensures var named := counted.(st := counted.st.(remaining := counted.st.remaining[p := 0]));
            var w' := Evaluate(q, named, p);
            SameFrame(counted, w') && w'.st.remaining == named.st.remaining && w'.rt.seen == counted.rt.seen + {p} &&
            w'.rt.hits == counted.rt.hits &&
            (!w'.thrown ==> ResultsOk(q, w'.rt) && Justified(q, w'.rt, w'.st) && OncePerPoint(w'.rt))
  {
    var named := counted.(st := counted.st.(remaining := counted.st.remaining[p := 0]));
    hide PointsOk, Distances, IsTopK, InsertBest, Answer, UpperBound, Met;
    EvaluateFresh(q, named, p);
  }

  /** Any other hit. */
  lemma UnnamedHit(q: Query, counted: Work, w': Work)
    requires PointsOk(q) && ResultsOk(q, counted.rt) && Justified(q, counted.rt, counted.st)
    requires w'.rt == counted.rt && w'.st.finishRequested == counted.st.finishRequested
    ensures ResultsOk(q, w'.rt) && Justified(q, w'.rt, w'.st)
  {}

  /** A run of hits adds its occurrences to every count. */
  lemma {:induction false} DeliverKeeps(q: Query, w: Work, ids: seq<nat>, counts: nat -> nat, after: nat -> nat)
    requires WorkOk(q, w) && WorkInv(q, w, counts) && HitsOk(q, ids) && !w.thrown
    requires forall p: nat :: p < q.start.numPoints ==> after(p) == counts(p) + Occurrences(ids, p)
    ensures var w' := Deliver(q, w, ids);
            SameFrame(w, w') && (!w'.thrown ==> WorkInv(q, w', after) && w'.rt.hits == w.rt.hits + |ids|)
  {
    if ids == [] {
      assert forall p: nat :: p < q.start.numPoints ==> after(p) == counts(p);
      assert forall p: nat :: p < q.start.numPoints ==> CountedAt(q, w, p, counts(p));
    } else {
      var front, last := ids[..|ids| - 1], ids[|ids| - 1];
      var middle := (x: nat) => counts(x) + Occurrences(front, x);
      DeliverKeeps(q, w, front, counts, middle);
      var before := Deliver(q, w, front);
      hide CountedAt, HitStep, ResultsOk, Justified;
      if !before.thrown {
        HitKeeps(q, before, last, middle);
        assert forall p: nat :: p < q.start.numPoints ==> OneMore(middle, last)(p) == after(p);
      }
    }
  }
}
