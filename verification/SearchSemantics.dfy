/** What a search evaluates and returns, for every run of the loop. */
module SearchSemantics {
  import opened Tables
  import opened FlatCursor
  import opened Schedule
  import opened TopK
  import opened Strategy
  import opened Delivery
  import opened Engine
  import opened EngineInvariant

  // ---- collisions are window memberships -------------------------------

  /** Entry i lies no farther from the query than the bound. */
  ghost predicate Within(v: View, i: nat, bound: real)
    requires i < |v.entries|
  {
    var d := v.fl(v.query - v.entries[i].value);
    -bound <= d && d <= bound
  }

  /** Point p projects within the bound of the query in this table. */
  ghost predicate Near(v: View, p: nat, bound: real) {
    exists i :: 0 <= i < |v.entries| && v.entries[i].id == p && Within(v, i, bound)
  }

  /** In how many of the first top tables p is near the query. */
  ghost function Matches(q: Query, p: nat, bound: real, top: nat): nat
    requires top <= |q.views|
  {
    if top == 0 then 0 else Matches(q, p, bound, top - 1) + if Near(q.views[top - 1], p, bound) then 1 else 0
  }

  ghost predicate Among(t: seq<Entry>, a: nat, b: nat, p: nat)
    requires a <= b <= |t|
  {
    exists i :: a <= i < b && t[i].id == p
  }

  lemma {:induction false} SliceOnce(t: seq<Entry>, a: nat, b: nat, p: nat)
    requires a <= b <= |t| && DistinctIds(t)
    ensures Occurrences(IdSeq(t[a..b]), p) == if Among(t, a, b, p) then 1 else 0
  {
    if a == b {
    } else {
      SliceOnce(t, a, b - 1, p);
      assert t[a..b] == t[a..b - 1] + [t[b - 1]];
      IdSeqConcat(t[a..b - 1], [t[b - 1]]);
      OccurrencesConcat(IdSeq(t[a..b - 1]), IdSeq([t[b - 1]]), p);
      assert Occurrences(IdSeq([t[b - 1]]), p) == if t[b - 1].id == p then 1 else 0;
      assert Among(t, a, b, p) <==> Among(t, a, b - 1, p) || t[b - 1].id == p;
      assert Among(t, a, b - 1, p) ==> t[b - 1].id != p;
    }
  }

  lemma TakenOnce(v: View, c: Cursor, p: nat)
    requires v.Valid() && Sound(v, c) && DistinctIds(v.entries)
    ensures 0 <= c.left + 1 <= c.right <= |v.entries|
    ensures Occurrences(Taken(v, c), p) == if Among(v.entries, c.left + 1, c.right, p) then 1 else 0
  {
    TakenIs(v, c);
    SliceOnce(v.entries, c.left + 1, c.right, p);
  }

  /** A delivered point is near the query in that table. */
  lemma TakenIsNear(v: View, c: Cursor, bound: real, p: nat)
    requires v.Valid() && CursorOk(v, c, bound) && DistinctIds(v.entries)
    ensures Occurrences(Taken(v, c), p) <= if Near(v, p, bound) then 1 else 0
  {
    TakenOnce(v, c, p);
    if Among(v.entries, c.left + 1, c.right, p) {
      var i :| c.left + 1 <= i < c.right && v.entries[i].id == p;
      assert c.last.Some? && InWindow(v, i, c.last.value);
      assert InWindow(v, i, bound);
    }
  }

  /** For a complete table, delivered and near are the same. */
  lemma CompleteIsNear(v: View, c: Cursor, bound: real, exhausted: bool, p: nat)
    requires v.Valid() && CursorOk(v, c, bound) && DistinctIds(v.entries) && MarkOk(v, c, bound, exhausted, true)
    ensures Occurrences(Taken(v, c), p) == if Near(v, p, bound) then 1 else 0
  {
    TakenIsNear(v, c, bound, p);
    TakenOnce(v, c, p);
    if Near(v, p, bound) {
      var i :| 0 <= i < |v.entries| && v.entries[i].id == p && InWindow(v, i, bound);
      if !TableExhausted(v, c) {
        WindowIsDelivered(v, c, i);
      }
      assert Among(v.entries, c.left + 1, c.right, p);
    }
  }

  lemma TableBelowNear(q: Query, s: State, p: nat, t: nat)
    requires QueryOk(q) && CursorsOk(q, s) && t < |q.views|
    ensures Occurrences(Taken(q.views[t], s.cursors[t]), p) <= if Near(q.views[t], p, s.work.rt.bound) then 1 else 0
  {
    assert TableOk(q, q.views[t]);
    assert CursorOk(q.views[t], s.cursors[t], s.work.rt.bound);
    hide CursorOk, Taken, Near, Occurrences;
    TakenIsNear(q.views[t], s.cursors[t], s.work.rt.bound, p);
  }

  lemma {:induction false} CollisionsBelowMatches(q: Query, s: State, p: nat, top: nat)
    requires QueryOk(q) && CursorsOk(q, s) && top <= |q.views|
    ensures Collisions(q.views, s.cursors, p, top) <= Matches(q, p, s.work.rt.bound, top)
  {
    hide CursorOk, QueryOk, Occurrences, Taken, Near;
    if top == 0 {
    } else {
      CollisionsBelowMatches(q, s, p, top - 1);
      TableBelowNear(q, s, p, top - 1);
    }
  }

  ghost predicate AllComplete(q: Query, s: State) {
    |s.work.rt.completed| == |q.views| && forall t :: 0 <= t < |q.views| ==> s.work.rt.completed[t]
  }

  lemma TableIsNear(q: Query, s: State, p: nat, t: nat)
    requires QueryOk(q) && CursorsOk(q, s) && |s.work.rt.exhausted| == |s.work.rt.completed| == |q.views| &&
             MarksOk(q, s)
    requires AllComplete(q, s) && t < |q.views|
    ensures Occurrences(Taken(q.views[t], s.cursors[t]), p) == if Near(q.views[t], p, s.work.rt.bound) then 1 else 0
  {
    var v, c := q.views[t], s.cursors[t];
    assert TableOk(q, v) && CursorOk(v, c, s.work.rt.bound);
    assert MarkOk(v, c, s.work.rt.bound, s.work.rt.exhausted[t], true);
    hide CursorOk, MarkOk, Taken, Near, Occurrences;
    CompleteIsNear(v, c, s.work.rt.bound, s.work.rt.exhausted[t], p);
  }

  lemma {:induction false} CollisionsAreMatches(q: Query, s: State, p: nat, top: nat)
    requires QueryOk(q) && CursorsOk(q, s) && |s.work.rt.exhausted| == |s.work.rt.completed| == |q.views| &&
             MarksOk(q, s)
    requires AllComplete(q, s) && top <= |q.views|
    ensures Collisions(q.views, s.cursors, p, top) == Matches(q, p, s.work.rt.bound, top)
  {
    hide CursorOk, QueryOk, MarksOk, Occurrences, Taken, Near, AllComplete;
    if top == 0 {
    } else {
      CollisionsAreMatches(q, s, p, top - 1);
      TableIsNear(q, s, p, top - 1);
    }
  }

  lemma RoundIsComplete(q: Query, s: State)
    requires Lockstep(q, s.work)
    ensures s.work.rt.roundComplete <==> AllComplete(q, s)
  {
    CountAll(s.work.rt.completed);
  }

  // ---- which points are evaluated --------------------------------------

  lemma CoreSemantics(q: Query, s: State, p: nat)
    requires Core(q, s) && p < q.start.numPoints
    ensures var threshold := if q.rules.threshold == 0 then q.start.threshold else q.rules.threshold;
            var near := Matches(q, p, s.work.rt.bound, |q.views|);
            (p in s.work.rt.seen ==> near >= threshold) &&
            (s.work.rt.roundComplete && !s.work.st.finishRequested ==> (p in s.work.rt.seen <==> near >= threshold))
  {
    CollisionsBelowMatches(q, s, p, |q.views|);
    assert CountedAt(q, s.work, p, CountsOf(q, s.cursors)(p));
    RoundIsComplete(q, s);
    hide CursorsOk, MarksOk, WorkInv, Lockstep, QueryOk, Collisions, Matches, Consumed;
    if s.work.rt.roundComplete {
      CollisionsAreMatches(q, s, p, |q.views|);
    }
  }

  /** QALSH semantics: in every run, whenever a round is complete and the strategy
      has not asked to finish, the evaluated points are exactly those within the
      bound in at least as many tables as the index's own threshold, or the strategy's
      where it sets one. */
  lemma RoundSemantics(q: Query, turns: nat, p: nat)
    requires Startable(q) && p < q.start.numPoints
    requires var s := SearchAfter(q, turns);
             s.outcome.Running? && s.work.rt.roundComplete && !s.work.st.finishRequested
    ensures var rt := SearchAfter(q, turns).work.rt;
            var threshold := if q.rules.threshold == 0 then q.start.threshold else q.rules.threshold;
            p in rt.seen <==> Matches(q, p, rt.bound, |q.views|) >= threshold
  {
    CoreSemantics(q, SearchAfter(q, turns), p);
  }

  /** At any time, finished or not, nothing else has been evaluated. */
  lemma EvaluatedAreNear(q: Query, turns: nat, p: nat)
    requires Startable(q)
    requires !SearchAfter(q, turns).outcome.Threw? && p in SearchAfter(q, turns).work.rt.seen
    ensures p < q.start.numPoints
    ensures var rt := SearchAfter(q, turns).work.rt;
            var threshold := if q.rules.threshold == 0 then q.start.threshold else q.rules.threshold;
            Matches(q, p, rt.bound, |q.views|) >= threshold
  {
    var s := SearchAfter(q, turns);
    assert Known(s.work.rt.seen, Distances(q));
    CoreSemantics(q, s, p);
  }

  /** The neighbours are at every turn the k best evaluated points, each evaluated
      once, and every entry the cursors passed was counted as a hit. */
  lemma ResultsAreTopK(q: Query, turns: nat)
    requires Startable(q) && !SearchAfter(q, turns).outcome.Threw?
    ensures var rt := SearchAfter(q, turns).work.rt;
            Known(rt.seen, Distances(q)) && IsTopK(rt.neighbors, q.start.k, rt.seen, Distances(q)) &&
            rt.evaluated == |rt.seen| == |rt.log| && |rt.neighbors| == Min(q.start.k, rt.evaluated) &&
            |SearchAfter(q, turns).cursors| == |q.views| &&
            rt.hits == Consumed(q.views, SearchAfter(q, turns).cursors, |q.views|)
  {
    var rt := SearchAfter(q, turns).work.rt;
    TopKSize(rt.neighbors, q.start.k, rt.seen, Distances(q));
  }

  // ---- the ledgers -----------------------------------------------------

  /** At every call of next the two ledgers agree and each incomplete table waits
      exactly once. */
  lemma LedgersAgree(q: Query, turns: nat)
    requires Startable(q) && SearchAfter(q, turns).outcome.Running?
    ensures var w := SearchAfter(q, turns).work;
            Lockstep(q, w) && Waiting(w.st.schedule, None) &&
            (w.st.schedule.pending == [] <==> w.rt.roundComplete)
  {
    EmptyQueue(SearchAfter(q, turns).work.st.schedule);
  }

  /** The radius only advances on a complete round that is not the end of the tables:
      the branch that advances an incomplete round is never taken. */
  lemma AdvanceOnlyWhenComplete(q: Query, turns: nat)
    requires Startable(q) && SearchAfter(q, turns).outcome.Running?
    requires var s := SearchAfter(q, turns);
             NextAction(q.rules, q.start, s.work.st, Snap(q, s.work.rt)).1.AdvanceRadius?
    ensures SearchAfter(q, turns).work.rt.roundComplete
    ensures SearchAfter(q, turns).work.rt.exhaustedTables < |q.views|
  {
    LedgersAgree(q, turns);
    var s := SearchAfter(q, turns);
    assert Lockstep(q, s.work);
    assert s.work.rt.exhaustedTables == CountTrue(s.work.rt.exhausted);
  }

  // ---- at the finish ---------------------------------------------------

  /** The budget is spent: as many points as there are, or candidate_budget and k - 1
      more, or what the override says; an override of none is never spent. */
  ghost predicate BudgetSpent(q: Query, evaluated: nat) {
    match q.rules.budgetOverride
    case None =>
      evaluated >= q.start.numPoints || evaluated + 1 >= q.start.candidateBudget + q.start.k ||
      evaluated >= 0xFFFF_FFFF_FFFF_FFFF
    case Some(None) => false
    case Some(Some(budget)) => evaluated >= budget
  }

  /** The ratio times the radius, rounded, reaches as far as this distance. */
  ghost predicate InReach(start: QueryStart, distance: real, radius: real) {
    var reach := start.ratio * radius;
    distance <= start.fl(reach)
  }

  /** There are k neighbours, the last within the approximation ratio of the radius. */
  ghost predicate NearEnough(q: Query, rt: Runtime) {
    0 < q.start.k == |rt.neighbors| && InReach(q.start, rt.neighbors[q.start.k - 1].distance, rt.radius)
  }

  /** The search ought to stop: the rule supplied says so of what it can see, or, without
      one, the budget is spent or the neighbours are near enough. */
  ghost predicate Due(q: Query, rt: Runtime) {
    match q.rules.rule
    case Some(rule) =>
      rule(Snapshot(rt.radius, rt.bound, q.start.k, rt.evaluated, rt.hits, rt.roundComplete,
                    rt.exhaustedTables == |rt.exhausted|, rt.neighbors))
    case None => BudgetSpent(q, rt.evaluated) || NearEnough(q, rt)
  }

  lemma BudgetIs(q: Query, evaluated: nat)
    requires q.start.k > 0 && q.rules.rule.None?
    ensures BudgetSpent(q, evaluated) <==>
              ActiveBudget(q.rules, q.start).Some? && evaluated >= ActiveBudget(q.rules, q.start).value
  {}

  lemma NearEnoughIs(q: Query, rt: Runtime)
    requires q.start.k > 0 && |rt.neighbors| <= q.start.k
    ensures NearEnough(q, rt) <==>
              |rt.neighbors| >= q.start.k && WithinRatio(q.start, rt.neighbors[|rt.neighbors| - 1].distance, rt.radius)
  {
    if |rt.neighbors| == q.start.k {
      ReachIs(q.start, rt.neighbors[|rt.neighbors| - 1].distance, rt.radius);
    }
    hide WithinRatio, InReach;
  }

  lemma ReachIs(start: QueryStart, distance: real, radius: real)
    ensures WithinRatio(start, distance, radius) <==> InReach(start, distance, radius)
  {
    assert Reach(start, radius) == start.ratio * radius;
  }

  lemma DueIs(q: Query, rt: Runtime)
    requires q.start.k > 0 && |rt.neighbors| <= q.start.k
    ensures Due(q, rt) <==> ShouldTerminate(q.rules, q.start, Snap(q, rt))
  {
    if q.rules.rule.None? {
      BudgetIs(q, rt.evaluated);
      NearEnoughIs(q, rt);
    }
    hide ActiveBudget, BudgetSpent, WithinRatio, NearEnough;
  }

  /** A run of the standard rule that stops by strategy has spent its budget or has
      its k-th neighbour within the approximation ratio of the radius. */
  lemma FinishGuarantee(q: Query, turns: nat)
    requires Startable(q) && q.rules.rule.None?
    requires SearchAfter(q, turns).outcome == Finished(ByStrategy)
    ensures var rt := SearchAfter(q, turns).work.rt; BudgetSpent(q, rt.evaluated) || NearEnough(q, rt)
  {
    var s := SearchAfter(q, turns);
    FinishedFacts(q, s);
    hide *;
    MetFromJustified(q, s.work.rt, s.work.st);
  }

  lemma FinishedFacts(q: Query, s: State)
    requires RunOk(q, s) && s.outcome.Finished?
    ensures q.start.k > 0 && Justified(q, s.work.rt, s.work.st) && |s.work.rt.neighbors| <= q.start.k
    ensures s.work.st.finishRequested
    ensures s.outcome.reason.ScanExhausted? <==> s.work.rt.exhaustedTables == |s.work.rt.exhausted|
  {}

  lemma MetFromJustified(q: Query, rt: Runtime, st: StrategyState)
    requires q.start.k > 0 && Justified(q, rt, st) && |rt.neighbors| <= q.start.k && q.rules.rule.None?
    requires st.finishRequested && rt.exhaustedTables != |rt.exhausted|
    ensures BudgetSpent(q, rt.evaluated) || NearEnough(q, rt)
  {
    BudgetIs(q, rt.evaluated);
    NearEnoughIs(q, rt);
    hide ActiveBudget, WithinRatio, BudgetSpent, NearEnough;
  }

  /** A rule that never fires leaves only exhaustion as a reason to finish. */
  lemma NeverStopsEarly(q: Query, turns: nat)
    requires Startable(q) && NeverFires(q.rules) && SearchAfter(q, turns).outcome.Finished?
    ensures SearchAfter(q, turns).outcome.reason == ScanExhausted
  {
    FinishedFacts(q, SearchAfter(q, turns));
  }
}
