/** The engine's working state as an object, EvaluateCandidate, and the two ways a
    range of hits is driven through the default strategy. */
module RangeDriver {
  import opened TopK
  import opened DistanceKernel
  import opened Strategy
  import opened Delivery

  /** The points whose stamp carries the epoch of this query. */
  ghost function Marked(stamps: seq<nat>, epoch: nat, n: nat): (seen: set<nat>)
    requires n <= |stamps|
    ensures forall p: nat :: p in seen <==> p < n && stamps[p] == epoch
  {
    set p: nat | p < n && stamps[p] == epoch
  }

  class SearchRuntime {
    const numPoints: nat
    const seen: array<nat>
    const seenEpoch: nat
    var radius: real
    var bound: real
    var evaluated: nat
    var hits: nat
    var roundComplete: bool
    var tableExhausted: seq<bool>
    var exhaustedTables: nat
    var completedTables: nat
    var tableRoundComplete: seq<bool>
    var neighbors: seq<Neighbor>
    ghost var log: seq<Evaluation>

    constructor (numPoints: nat, seen: array<nat>, seenEpoch: nat, tableCount: nat, radius: real, bound: real)
      requires numPoints <= seen.Length && forall p :: 0 <= p < seen.Length ==> seen[p] <= seenEpoch
      ensures Valid() && this.numPoints == numPoints && this.seen == seen && this.seenEpoch == seenEpoch
      ensures Value() == Runtime(radius, bound, 0, 0, false, Marked(seen[..], seenEpoch, numPoints),
                                 seq(tableCount, _ => false), 0, seq(tableCount, _ => false), 0, [], [])
    {
      this.numPoints, this.seen, this.seenEpoch, this.radius, this.bound := numPoints, seen, seenEpoch, radius, bound;
      evaluated, hits, roundComplete, exhaustedTables, completedTables := 0, 0, false, 0, 0;
      tableExhausted, tableRoundComplete := seq(tableCount, _ => false), seq(tableCount, _ => false);
      neighbors, log := [], [];
    }

    /** No stamp is ahead of this query's epoch. */
    ghost predicate Valid()
      reads this, seen
    {
      numPoints <= seen.Length && forall p :: 0 <= p < seen.Length ==> seen[p] <= seenEpoch
    }

    ghost function Value(): Runtime
      requires Valid()
      reads this, seen
    {
      Runtime(radius, bound, evaluated, hits, roundComplete, Marked(seen[..], seenEpoch, numPoints),
              tableExhausted, exhaustedTables, tableRoundComplete, completedTables, neighbors, log)
    }

    function Snapshot(k: nat): Strategy.Snapshot
      reads this
    {
      Strategy.Snapshot(radius, bound, k, evaluated, hits, roundComplete, exhaustedTables == |tableExhausted|,
                        neighbors)
    }

    method Mark(p: nat)
      requires Valid() && p < numPoints
      modifies seen
      ensures Valid() && Value() == old(Value()).(seen := old(Value()).seen + {p})
    {
      seen[p] := seenEpoch;
      assert Marked(seen[..], seenEpoch, numPoints) == old(Marked(seen[..], seenEpoch, numPoints)) + {p};
    }
  }

  /** The work in progress as the engine's two objects hold it. */
  ghost function WorkOf(rt: SearchRuntime, strategy: DefaultQalshStrategy): Work
    requires rt.Valid()
    reads rt, rt.seen, strategy, strategy.tableSchedule
  {
    Work(rt.Value(), strategy.Value(), false)
  }

  ghost predicate Engaged(q: Query, rt: SearchRuntime, strategy: DefaultQalshStrategy)
    reads rt, rt.seen, strategy, strategy.tableSchedule
  {
    rt.Valid() && rt.numPoints == q.start.numPoints && strategy.rules == q.rules && strategy.Configured(q.start) &&
    WorkOk(q, WorkOf(rt, strategy)) && BestFirst(rt.neighbors)
  }

  lemma InsertStaysSorted(ns: seq<Neighbor>, c: Neighbor, k: nat)
    requires BestFirst(ns) && |ns| <= k && k > 0 && !Listed(ns, c.id)
    ensures BestFirst(InsertBest(ns, c, k))
  {
    InsertMembers(ns, c, k);
  }

  /** The neighbour list names evaluated points only. */
  ghost predicate ListedSeen(rt: SearchRuntime)
    reads rt`neighbors, rt.seen
  {
    rt.numPoints <= rt.seen.Length &&
    forall p: nat :: Listed(rt.neighbors, p) ==> p in Marked(rt.seen[..], rt.seenEpoch, rt.numPoints)
  }

  lemma InsertLists(ns: seq<Neighbor>, c: Neighbor, k: nat, p: nat)
    requires |ns| <= k && Listed(InsertBest(ns, c, k), p)
    ensures Listed(ns, p) || p == c.id
  {
    var at, r := Place(ns, c), InsertBest(ns, c, k);
    if at < k {
      var longer := ns[..at] + [c] + ns[at..];
      var i :| 0 <= i < |r| && r[i].id == p;
      assert r[i] == longer[i] == (if i < at then ns[i] else if i == at then c else ns[i - 1]);
    }
  }

  /** The accepted candidate joins the list. */
  method Record(rt: SearchRuntime, c: Neighbor, k: nat)
    requires rt.Valid() && BestFirst(rt.neighbors) && |rt.neighbors| <= k && k > 0
    requires !Listed(rt.neighbors, c.id)
    modifies rt`neighbors
    ensures rt.neighbors == InsertBest(old(rt.neighbors), c, k) && BestFirst(rt.neighbors)
    ensures forall p :: Listed(rt.neighbors, p) ==> p == c.id || Listed(old(rt.neighbors), p)
  {
    InsertStaysSorted(rt.neighbors, c, k);
    forall p | Listed(InsertBest(rt.neighbors, c, k), p)
      ensures p == c.id || Listed(rt.neighbors, p)
    {
      InsertLists(rt.neighbors, c, k, p);
    }
    rt.neighbors := InsertNeighbor(rt.neighbors, c, k);
  }

  /** The part of EvaluateCandidate for a point not seen before. */
  method MeasurePoint(q: Query, rt: SearchRuntime, strategy: DefaultQalshStrategy, p: nat) returns (thrown: bool)
    requires Engaged(q, rt, strategy) && ListedSeen(rt) && p < q.start.numPoints && p !in rt.Value().seen
    modifies rt`evaluated, rt`neighbors, rt.seen, strategy`finishRequested
    ensures rt.Valid() && thrown == Measure(q, old(WorkOf(rt, strategy)), p).thrown
    ensures !thrown ==> Engaged(q, rt, strategy) && ListedSeen(rt)
    ensures !thrown ==> WorkOf(rt, strategy) == Measure(q, old(WorkOf(rt, strategy)), p)
  {
    hide FullDistance, Laws, Answer, UpperBound, InsertBest, BestFirst, Listed, Marked, OnEvaluation, Place,
         ActiveBudget;
    rt.Mark(p);
    var upperBound := UpperBound(q, rt.neighbors);
    var distance := Kernel(q.arith, q.norm, q.points[p], q.target, upperBound);
    assert distance == Answer(Distances(q)[p], upperBound);
    hide Distances;
    if distance == Unrepresentable {
      return true;
    }
    rt.evaluated := rt.evaluated + 1;
    if distance.Exact? {
      Record(rt, Neighbor(distance.distance, p), q.start.k);
    }
    strategy.Evaluated(rt.Snapshot(q.start.k), q.start);
    return false;
  }

  /** EvaluateCandidate on the objects. */
  method EvaluateCandidate(q: Query, rt: SearchRuntime, strategy: DefaultQalshStrategy, p: nat) returns (thrown: bool)
    requires Engaged(q, rt, strategy) && ListedSeen(rt) && p < q.start.numPoints
    modifies rt`evaluated, rt`neighbors, rt`log, rt.seen, strategy`finishRequested
    ensures rt.Valid() && thrown == Evaluate(q, old(WorkOf(rt, strategy)), p).thrown
    ensures !thrown ==> Engaged(q, rt, strategy) && ListedSeen(rt)
    ensures !thrown ==> WorkOf(rt, strategy) == Evaluate(q, old(WorkOf(rt, strategy)), p)
  {
    hide Measure, Laws, BestFirst, Listed, OnEvaluation, ActiveBudget;
    rt.log := rt.log + [Evaluation(p, rt.hits)];
    if rt.seen[p] == rt.seenEpoch {
      assert p in rt.Value().seen;
      strategy.Evaluated(rt.Snapshot(q.start.k), q.start);
      return false;
    }
    thrown := MeasurePoint(q, rt, strategy, p);
  }

  /** Delivery so far: the objects hold the fold of the hits up to position, except
      that the hit counter is only brought up to date at an evaluation. */
  ghost predicate Driven(q: Query, w0: Work, ids: seq<nat>, position: nat, state: nat, rt: SearchRuntime,
                         strategy: DefaultQalshStrategy)
    requires WorkOk(q, w0) && HitsOk(q, ids) && position <= |ids|
    reads rt, rt.seen, strategy, strategy.tableSchedule
  {
    Engaged(q, rt, strategy) && ListedSeen(rt) &&
    var w := Deliver(q, w0, ids[..position]);
    !w.thrown && w == Work(rt.Value().(hits := state + position), strategy.Value(), false)
  }

  lemma DeliverNext(q: Query, w0: Work, ids: seq<nat>, position: nat)
    requires WorkOk(q, w0) && HitsOk(q, ids) && position < |ids|
    ensures Deliver(q, w0, ids[..position + 1]) == HitStep(q, Deliver(q, w0, ids[..position]), ids[position])
  {
    assert ids[..position + 1][..position] == ids[..position];
  }

  lemma {:induction false} ThrownStays(q: Query, w0: Work, ids: seq<nat>, position: nat)
    requires WorkOk(q, w0) && HitsOk(q, ids) && position <= |ids| && Deliver(q, w0, ids[..position]).thrown
    ensures Deliver(q, w0, ids).thrown
    decreases |ids| - position
  {
    if position < |ids| {
      DeliverNext(q, w0, ids, position);
      ThrownStays(q, w0, ids, position + 1);
    } else {
      assert ids[..position] == ids;
    }
  }

  /** One counted hit, the strategy still accepting: the runtime's own hit counter is
      set only when the hit leads to an evaluation. */
  method CountHit(q: Query, rt: SearchRuntime, strategy: DefaultQalshStrategy, p: nat, hits: nat) returns (thrown: bool)
    requires Engaged(q, rt, strategy) && ListedSeen(rt) && p < q.start.numPoints && hits > 0 &&
             !strategy.finishRequested
    modifies rt`hits, rt`evaluated, rt`neighbors, rt`log, rt.seen, strategy`finishRequested, strategy`collisionState
    ensures rt.Valid() && (rt.hits == old(rt.hits) || rt.hits == hits)
    ensures thrown == HitStep(q, Work(old(rt.Value()).(hits := hits - 1), old(strategy.Value()), false), p).thrown
    ensures !thrown ==> Engaged(q, rt, strategy) && ListedSeen(rt)
    ensures !thrown ==>
              Work(rt.Value().(hits := hits), strategy.Value(), false) ==
              HitStep(q, Work(old(rt.Value()).(hits := hits - 1), old(strategy.Value()), false), p)
  {
    hide Evaluate, BestFirst, Listed, Marked, ActiveBudget;
    var candidate := strategy.AcceptBuiltinId(p);
    if candidate {
      rt.hits := hits;
      assert ListedSeen(rt);
      hide ListedSeen;
      thrown := EvaluateCandidate(q, rt, strategy, p);
      return;
    }
    return false;
  }

  /** Hits after the decision to finish are only counted. */
  lemma SkipHit(q: Query, w0: Work, ids: seq<nat>, position: nat, state: nat, rt: SearchRuntime,
                strategy: DefaultQalshStrategy)
    requires WorkOk(q, w0) && HitsOk(q, ids) && position < |ids| && strategy.finishRequested
    requires Driven(q, w0, ids, position, state, rt, strategy)
    ensures Driven(q, w0, ids, position + 1, state, rt, strategy)
  {
    DeliverNext(q, w0, ids, position);
    hide Deliver, Engaged, ListedSeen, Evaluate, AcceptId;
  }

  method DriveHit(q: Query, rt: SearchRuntime, strategy: DefaultQalshStrategy, ids: seq<nat>, position: nat, state: nat,
                  ghost w0: Work)
    returns (thrown: bool)
    requires WorkOk(q, w0) && HitsOk(q, ids) && position < |ids| && !strategy.finishRequested
    requires Driven(q, w0, ids, position, state, rt, strategy)
    modifies rt`hits, rt`evaluated, rt`neighbors, rt`log, rt.seen, strategy`finishRequested, strategy`collisionState
    ensures rt.Valid() && (rt.hits == old(rt.hits) || rt.hits == state + position + 1)
    ensures thrown ==> Deliver(q, w0, ids).thrown
    ensures !thrown ==> Driven(q, w0, ids, position + 1, state, rt, strategy)
  {
    hide Deliver, ListedSeen, Evaluate, AcceptId, HitStep, PointsOk, BestFirst, Marked;
    thrown := CountHit(q, rt, strategy, ids[position], state + position + 1);
    DeliverNext(q, w0, ids, position);
    if thrown {
      ThrownStays(q, w0, ids, position + 1);
    }
  }

  lemma DriveBegins(q: Query, ids: seq<nat>, rt: SearchRuntime, strategy: DefaultQalshStrategy)
    requires Engaged(q, rt, strategy) && ListedSeen(rt) && HitsOk(q, ids)
    ensures Driven(q, WorkOf(rt, strategy), ids, 0, rt.hits, rt, strategy)
  {
    assert ids[..0] == [];
  }

  lemma DriveEnds(q: Query, w0: Work, ids: seq<nat>, rt: SearchRuntime, strategy: DefaultQalshStrategy, state: nat)
    requires WorkOk(q, w0) && HitsOk(q, ids) && Driven(q, w0, ids, |ids|, state, rt, strategy)
    ensures Deliver(q, w0, ids) == Work(rt.Value().(hits := state + |ids|), strategy.Value(), false)
    ensures Engaged(q, rt, strategy) && ListedSeen(rt)
  {
    assert ids[..|ids|] == ids;
  }

  /** The bulk path: the finish flag is read again only after an evaluation, and the
      hit count is advanced once for the whole range. It evaluates the same points,
      in the same order and with the same hit counts, as one hit at a time. */
  method DeliverRange(q: Query, rt: SearchRuntime, strategy: DefaultQalshStrategy, ids: seq<nat>) returns (thrown: bool)
    requires Engaged(q, rt, strategy) && ListedSeen(rt) && HitsOk(q, ids)
    modifies rt`hits, rt`evaluated, rt`neighbors, rt`log, rt.seen, strategy`finishRequested, strategy`collisionState
    ensures rt.Valid() && thrown == Deliver(q, old(WorkOf(rt, strategy)), ids).thrown
    ensures !thrown ==> Engaged(q, rt, strategy) && ListedSeen(rt)
    ensures !thrown ==> WorkOf(rt, strategy) == Deliver(q, old(WorkOf(rt, strategy)), ids)
  {
    ghost var w0 := WorkOf(rt, strategy);
    var state := rt.hits;
    var accepting := !strategy.finishRequested;
    DriveBegins(q, ids, rt, strategy);
    hide Driven, Deliver;
    for position := 0 to |ids|
      invariant Driven(q, w0, ids, position, state, rt, strategy) && accepting == !strategy.finishRequested
    {
      hide *;
      if accepting {
        thrown := DriveHit(q, rt, strategy, ids, position, state, w0);
        if thrown {
          return;
        }
        accepting := !strategy.finishRequested;
      } else {
        SkipHit(q, w0, ids, position, state, rt, strategy);
      }
    }
    DriveEnds(q, w0, ids, rt, strategy, state);
    rt.hits := state + |ids|;
    return false;
  }

  /** The generic path for one hit: counted, put to the strategy's own test of whether
      it still accepts, and evaluated if it names a candidate. */
  method HandleHit(q: Query, rt: SearchRuntime, strategy: DefaultQalshStrategy, p: nat) returns (thrown: bool)
    requires Engaged(q, rt, strategy) && ListedSeen(rt) && p < q.start.numPoints
    modifies rt`hits, rt`evaluated, rt`neighbors, rt`log, rt.seen, strategy`finishRequested, strategy`collisionState
    ensures rt.Valid() && rt.hits == old(rt.hits) + 1
    ensures thrown == HitStep(q, old(WorkOf(rt, strategy)), p).thrown
    ensures !thrown ==> Engaged(q, rt, strategy) && ListedSeen(rt)
    ensures !thrown ==> WorkOf(rt, strategy) == HitStep(q, old(WorkOf(rt, strategy)), p)
  {
    hide Evaluate, BestFirst, Listed, Marked, ActiveBudget;
    rt.hits := rt.hits + 1;
    var valid, candidate := strategy.AcceptHit(p);
    assert valid;
    if candidate {
      assert ListedSeen(rt);
      hide ListedSeen;
      thrown := EvaluateCandidate(q, rt, strategy, p);
      return;
    }
    return false;
  }

  /** The generic path: every hit is counted and goes through on_projection_hit. Both
      paths are the same fold. */
  method DeliverEach(q: Query, rt: SearchRuntime, strategy: DefaultQalshStrategy, ids: seq<nat>) returns (thrown: bool)
    requires Engaged(q, rt, strategy) && ListedSeen(rt) && HitsOk(q, ids)
    modifies rt`hits, rt`evaluated, rt`neighbors, rt`log, rt.seen, strategy`finishRequested, strategy`collisionState
    ensures rt.Valid() && thrown == Deliver(q, old(WorkOf(rt, strategy)), ids).thrown
    ensures !thrown ==> Engaged(q, rt, strategy) && ListedSeen(rt)
    ensures !thrown ==> WorkOf(rt, strategy) == Deliver(q, old(WorkOf(rt, strategy)), ids)
  {
    ghost var w0 := WorkOf(rt, strategy);
    assert ids[..0] == [];
    hide ListedSeen, HitStep, Marked, BestFirst, PointsOk;
    for position := 0 to |ids|
      invariant Engaged(q, rt, strategy) && ListedSeen(rt)
      invariant WorkOf(rt, strategy) == Deliver(q, w0, ids[..position])
    {
      hide ListedSeen, HitStep, Marked, BestFirst, PointsOk, Engaged, Deliver;
      DeliverNext(q, w0, ids, position);
      thrown := HandleHit(q, rt, strategy, ids[position]);
      if thrown {
        ThrownStays(q, w0, ids, position + 1);
        return;
      }
    }
    assert ids[..|ids|] == ids;
    return false;
  }
}
