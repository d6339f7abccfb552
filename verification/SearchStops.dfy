/** Searches stop when their rule is met: at the checks the strategy is told to make, at
    no others, and one evaluation is all that can come too late. */
module SearchStops {
  import opened Tables
  import opened FlatCursor
  import opened Schedule
  import opened TopK
  import opened DistanceKernel
  import opened Strategy
  import opened Delivery
  import opened Engine
  import opened EngineInvariant
  import opened SearchSemantics
  import opened SearchRounds
  import opened SearchRadii

  // ---- after an evaluation ---------------------------------------------

  /** With the check after evaluations on, every evaluation, a duplicate's too, requests
      a finish when one is due. */
  lemma EvaluateStops(q: Query, w: Work, p: nat)
    requires WorkOk(q, w) && p < q.start.numPoints && q.rules.checkAfterEvaluation && !w.thrown
    ensures var w' := Evaluate(q, w, p);
            !w'.thrown && Due(q, w'.rt) ==> w'.st.finishRequested
    ensures w.st.finishRequested ==> Evaluate(q, w, p).st.finishRequested
  {
    var w' := Evaluate(q, w, p);
    hide Distances, Answer, InsertBest, UpperBound, ShouldTerminate;
    DueIs(q, w'.rt);
    hide Due;
  }

  lemma EvaluateCounts(q: Query, w: Work, p: nat)
    requires WorkOk(q, w) && p < q.start.numPoints && !w.thrown
    ensures var w' := Evaluate(q, w, p);
            !w'.thrown ==> w.rt.evaluated <= w'.rt.evaluated <= w.rt.evaluated + 1 &&
                           (w'.rt.evaluated == w.rt.evaluated ==> w'.rt.neighbors == w.rt.neighbors) &&
                           w'.rt.radius == w.rt.radius
  {
    hide Distances, Answer, InsertBest, UpperBound, ShouldTerminate;
  }

  /** The standard rule, checked after every evaluation. */
  ghost predicate Vigilant(q: Query) {
    q.rules.rule.None? && q.rules.checkAfterEvaluation
  }

  /** A spent budget has been noticed, and one evaluation fewer had not spent it. */
  ghost predicate Frugal(q: Query, w: Work) {
    (w.rt.evaluated > 0 && BudgetSpent(q, w.rt.evaluated) ==> w.st.finishRequested) &&
    (w.rt.evaluated > 1 ==> !BudgetSpent(q, w.rt.evaluated - 1))
  }

  /** Since w0 nothing was evaluated, or near neighbours have been noticed. */
  ghost predicate Noticed(q: Query, w0: Work, w: Work) {
    w.rt.evaluated >= w0.rt.evaluated && (w.rt.evaluated > w0.rt.evaluated && Due(q, w.rt) ==> w.st.finishRequested)
  }

  lemma EvaluateKeepsFrugal(q: Query, w0: Work, w: Work, p: nat)
    requires WorkOk(q, w) && p < q.start.numPoints && !w.thrown && Vigilant(q) && Frugal(q, w) && Noticed(q, w0, w)
    requires !w.st.finishRequested
    ensures var w' := Evaluate(q, w, p);
            !w'.thrown ==> Frugal(q, w') && Noticed(q, w0, w')
  {
    EvaluateStops(q, w, p);
    EvaluateCounts(q, w, p);
    hide Evaluate, BudgetSpent, NearEnough, PointsOk;
  }

  /** The standard rule does not look at the number of hits. */
  lemma DueSame(q: Query, rt: Runtime, rt': Runtime)
    requires q.rules.rule.None?
    requires rt'.evaluated == rt.evaluated && rt'.neighbors == rt.neighbors && rt'.radius == rt.radius
    ensures Due(q, rt') <==> Due(q, rt)
  {}

  /** A hit is counted; if it names a point and no finish is requested, that is evaluated. */
  lemma HitCases(q: Query, w: Work, p: nat)
    requires WorkOk(q, w) && p < q.start.numPoints && !w.thrown
    ensures var counted := w.(rt := w.rt.(hits := w.rt.hits + 1));
            var taken := counted.(st := AcceptId(w.st, p).0);
            WorkOk(q, taken) && taken.st.finishRequested == w.st.finishRequested &&
            (HitStep(q, w, p) == counted || HitStep(q, w, p) == taken ||
             (!w.st.finishRequested && HitStep(q, w, p) == Evaluate(q, taken, p)))
  {
    hide Evaluate;
  }

  /** A hit without an evaluation. */
  lemma QuietHit(q: Query, w0: Work, w: Work, w': Work)
    requires Vigilant(q) && Frugal(q, w) && Noticed(q, w0, w)
    requires w'.rt == w.rt.(hits := w.rt.hits + 1) && w'.st.finishRequested == w.st.finishRequested
    ensures Frugal(q, w') && Noticed(q, w0, w')
  {
    DueSame(q, w.rt, w'.rt);
    hide BudgetSpent, Due;
  }

  lemma HitFrugal(q: Query, w0: Work, w: Work, p: nat)
    requires WorkOk(q, w) && p < q.start.numPoints && Vigilant(q) && Frugal(q, w) && Noticed(q, w0, w)
    ensures var w' := HitStep(q, w, p);
            !w'.thrown ==> Frugal(q, w') && Noticed(q, w0, w')
  {
    ThrownStaysThrown(q, w, p);
    if !w.thrown {
      HitCases(q, w, p);
      var counted := w.(rt := w.rt.(hits := w.rt.hits + 1));
      var taken := counted.(st := AcceptId(w.st, p).0);
      hide *;
      QuietHit(q, w0, w, counted);
      QuietHit(q, w0, w, taken);
      if !w.st.finishRequested {
        EvaluateKeepsFrugal(q, w0, taken, p);
      }
    }
  }

  lemma {:induction false} DeliverFrugal(q: Query, w: Work, ids: seq<nat>)
    requires WorkOk(q, w) && HitsOk(q, ids) && Vigilant(q) && Frugal(q, w)
    ensures var w' := Deliver(q, w, ids);
            !w'.thrown ==> Frugal(q, w') && Noticed(q, w, w')
  {
    hide HitStep, Frugal, PointsOk, Vigilant, Due;
    if ids == [] {
    } else {
      var front := ids[..|ids| - 1];
      DeliverFrugal(q, w, front);
      var before := Deliver(q, w, front);
      ThrownStaysThrown(q, before, ids[|ids| - 1]);
      hide Noticed;
      if !before.thrown {
        HitFrugal(q, w, before, ids[|ids| - 1]);
      }
    }
  }

  lemma ThrownStaysThrown(q: Query, w: Work, p: nat)
    requires WorkOk(q, w) && p < q.start.numPoints
    ensures w.thrown ==> HitStep(q, w, p).thrown
  {}

  // ---- every run -------------------------------------------------------

  /** What reading a report leaves alone. */
  lemma BoundaryFrame(q: Query, w: Work, table: nat, report: Report)
    requires q.start.k > 0 && table < |w.rt.exhausted| == |w.rt.completed|
    requires Sized(w.st.schedule) && table < w.st.schedule.tableCount
    ensures var w' := Boundary(q, w, table, report);
            w'.rt.evaluated == w.rt.evaluated && w'.rt.neighbors == w.rt.neighbors && w'.rt.radius == w.rt.radius &&
            w'.rt.hits == w.rt.hits && (w.st.finishRequested ==> w'.st.finishRequested)
  {
    hide ShouldTerminate;
  }

  lemma ScanFrugal(q: Query, s: State, table: nat)
    requires CanScan(q, s, table) && Vigilant(q) && Frugal(q, s.work)
    ensures var s' := ScanStep(q, s, table);
            s'.outcome.Running? ==> Frugal(q, s'.work) && Noticed(q, s.work, s'.work)
  {
    HitsInTable(q, s, table);
    var scan := FlatCursor.Scan(q.views[table], s.cursors[table], CallOf(q, s));
    var ids := IdSeq(scan.hits);
    DeliverFrame(q, s.work, ids);
    DeliverFrugal(q, s.work, ids);
    var w := Deliver(q, s.work, ids);
    hide Deliver, FlatCursor.Scan, IdSeq, HitsOk, BudgetSpent, NearEnough, PointsOk;
    if !w.thrown {
      BoundaryFrame(q, w, table, scan.report);
      DueSame(q, w.rt, Boundary(q, w, table, scan.report).rt);
      hide Boundary, Due;
    }
  }

  /** The strategy's choice only ever adds a request to finish. */
  lemma ChoiceAdds(q: Query, s: State)
    requires Ready(q, s)
    ensures var st := NextAction(q.rules, q.start, s.work.st, Snap(q, s.work.rt)).0;
            s.work.st.finishRequested ==> st.finishRequested
  {
    hide ShouldTerminate, Core;
  }

  lemma ChoiceFrugal(q: Query, w: Work, st: StrategyState)
    requires Frugal(q, w) && (w.st.finishRequested ==> st.finishRequested)
    ensures Frugal(q, w.(st := st))
  {
    hide BudgetSpent;
  }

  lemma AdvanceFrugal(q: Query, s: State)
    requires Frugal(q, s.work) && Sized(s.work.st.schedule)
    ensures Frugal(q, Act(q, s, AdvanceRadius, false).work)
  {
    hide BudgetSpent, NextRadius, WindowBound, AdvanceSched;
  }

  lemma TurnFrugal(q: Query, s: State)
    requires s.outcome.Running? && Ready(q, s) && Vigilant(q) && Frugal(q, s.work)
    ensures !Turn(q, s).outcome.Threw? ==> Frugal(q, Turn(q, s).work)
  {
    assert q.start.k > 0;
    hide *;
    TurnCases(q, s);
    ChoiceAdds(q, s);
    var (st, action) := NextAction(q.rules, q.start, s.work.st, Snap(q, s.work.rt));
    var s1 := s.(work := s.work.(st := st));
    ChoiceFrugal(q, s.work, st);
    if action.ScanTable? {
      ScanFrugal(q, s1, action.table);
      ScanEnds(q, s1, action.table);
    } else if action.AdvanceRadius? {
      AdvanceFrugal(q, s1);
    }
  }

  lemma ScanEnds(q: Query, s: State, table: nat)
    requires CanScan(q, s, table)
    ensures ScanStep(q, s, table).outcome.Threw? || ScanStep(q, s, table).outcome.Running?
  {
    hide FlatCursor.Scan, Deliver;
  }

  lemma BeginFrugal(q: Query)
    requires Startable(q)
    ensures Frugal(q, SearchAfter(q, 0).work)
  {
    SearchBegins(q);
    hide SearchAfter, Ready;
  }

  lemma {:induction false} RunFrugal(q: Query, turns: nat)
    requires Startable(q) && Vigilant(q) && !SearchAfter(q, turns).outcome.Threw?
    ensures Frugal(q, SearchAfter(q, turns).work)
  {
    hide *;
    if turns == 0 {
      BeginFrugal(q);
    } else {
      SearchNext(q, turns - 1);
      var s := SearchAfter(q, turns - 1);
      NotThrownBefore(q, s);
      RunFrugal(q, turns - 1);
      if s.outcome.Running? {
        TurnFrugal(q, s);
      }
    }
  }

  lemma NotThrownBefore(q: Query, s: State)
    requires s.outcome.Running? ==> Ready(q, s)
    ensures s.outcome.Threw? ==> Turn(q, s) == s
  {
    hide Ready;
  }

  /** With the check after evaluations on, no search of the standard rule evaluates more
      points than its budget, and at least one: candidate_budget and k - 1 more but no
      more than there are points, or the override. Once the budget is spent a finish is
      requested. */
  lemma BudgetHolds(q: Query, turns: nat)
    requires Startable(q) && q.rules.rule.None? && q.rules.checkAfterEvaluation
    requires !SearchAfter(q, turns).outcome.Threw?
    ensures var w := SearchAfter(q, turns).work;
            (w.rt.evaluated > 0 && BudgetSpent(q, w.rt.evaluated) ==> w.st.finishRequested) &&
            match q.rules.budgetOverride
            case None =>
              w.rt.evaluated <= Max(q.start.candidateBudget + q.start.k - 1, 1) && w.rt.evaluated <= q.start.numPoints
            case Some(None) => true
            case Some(Some(budget)) => w.rt.evaluated <= Max(budget, 1)
  {
    RunFrugal(q, turns);
    EvaluatedBelowPoints(q, turns);
    hide SearchAfter, Startable;
  }

  function Max(a: nat, b: nat): nat {
    if a > b then a else b
  }

  lemma EvaluatedBelowPoints(q: Query, turns: nat)
    requires Startable(q) && !SearchAfter(q, turns).outcome.Threw?
    ensures q.start.k > 0 && SearchAfter(q, turns).work.rt.evaluated <= q.start.numPoints
  {
    ResultsAreTopK(q, turns);
    var seen := SearchAfter(q, turns).work.rt.seen;
    assert |Distances(q)| == q.start.numPoints;
    hide SearchAfter, Startable, IsTopK, Distances;
    KnownSize(seen, Distances(q));
  }

  lemma {:induction false} KnownSize(seen: set<nat>, distances: seq<Option<real>>)
    requires Known(seen, distances)
    ensures |seen| <= |distances|
  {
    if distances == [] {
      assert forall p :: p !in seen;
      assert seen == {};
    } else {
      var last := |distances| - 1;
      KnownSize(seen - {last}, distances[..last]);
    }
  }

  // ---- a request is honoured -------------------------------------------

  lemma RequestedTurn(q: Query, s: State)
    requires s.outcome.Running? && Ready(q, s) && s.work.st.finishRequested
    ensures Turn(q, s).outcome.Finished? && Turn(q, s).work.rt == s.work.rt
  {
    TurnCases(q, s);
    hide Turn, Core, Ready, ShouldTerminate, Act;
  }

  /** Once a finish is requested the search is over at its next turn, with what it has. */
  lemma RequestEnds(q: Query, turns: nat)
    requires Startable(q)
    requires SearchAfter(q, turns).outcome.Running? && SearchAfter(q, turns).work.st.finishRequested
    ensures SearchAfter(q, turns + 1).outcome.Finished?
    ensures SearchAfter(q, turns + 1).work.rt == SearchAfter(q, turns).work.rt
  {
    hide *;
    SearchNext(q, turns);
    RequestedTurn(q, SearchAfter(q, turns));
  }

  /** A turn that evaluates a point and leaves the search due requests a finish: the
      budget, or the ratio of the k-th neighbour to the radius. */
  lemma NoticedAtOnce(q: Query, turns: nat)
    requires Startable(q) && q.rules.rule.None? && q.rules.checkAfterEvaluation
    requires SearchAfter(q, turns + 1).outcome.Running?
    requires SearchAfter(q, turns + 1).work.rt.evaluated > SearchAfter(q, turns).work.rt.evaluated
    requires var rt := SearchAfter(q, turns + 1).work.rt; BudgetSpent(q, rt.evaluated) || NearEnough(q, rt)
    ensures SearchAfter(q, turns + 1).work.st.finishRequested
  {
    var s, s' := SearchAfter(q, turns), SearchAfter(q, turns + 1);
    assert Vigilant(q) && Due(q, s'.work.rt);
    hide *;
    SearchNext(q, turns);
    if s.outcome.Running? {
      RunFrugal(q, turns);
      TurnNotices(q, s);
      NoticedIs(q, s.work, s'.work);
    }
  }

  lemma NoticedIs(q: Query, w0: Work, w: Work)
    requires Noticed(q, w0, w)
    ensures w.rt.evaluated > w0.rt.evaluated && Due(q, w.rt) ==> w.st.finishRequested
  {
    hide Due;
  }

  lemma TurnNotices(q: Query, s: State)
    requires s.outcome.Running? && Ready(q, s) && Vigilant(q) && Frugal(q, s.work)
    ensures Turn(q, s).outcome.Running? ==> Noticed(q, s.work, Turn(q, s).work)
  {
    assert q.start.k > 0;
    TurnCases(q, s);
    ChoiceAdds(q, s);
    var (st, action) := NextAction(q.rules, q.start, s.work.st, Snap(q, s.work.rt));
    var s1 := s.(work := s.work.(st := st));
    hide Core, Ready, Turn, NextAction, CanScan, ScanStep, Due, BudgetSpent, NearEnough, NextRadius, WindowBound,
         AdvanceSched, Sized;
    if action.ScanTable? {
      ScanFrugal(q, s1, action.table);
    }
  }

  // ---- at the end of a round -------------------------------------------

  lemma BoundaryStops(q: Query, w: Work, table: nat, report: Report)
    requires q.start.k > 0 && table < |w.rt.exhausted| == |w.rt.completed| && |w.rt.neighbors| <= q.start.k
    requires Sized(w.st.schedule) && table < w.st.schedule.tableCount && q.rules.checkAtRoundBoundary
    ensures var w' := Boundary(q, w, table, report);
            w'.rt.roundComplete && Due(q, w'.rt) ==> w'.st.finishRequested
  {
    DueIs(q, MarkReport(w.rt, table, report));
    hide Due, ShouldTerminate, MarkReport, BoundarySched;
  }

  lemma ScanStops(q: Query, s: State, table: nat)
    requires CanScan(q, s, table) && q.rules.checkAtRoundBoundary
    ensures var w := ScanStep(q, s, table).work;
            ScanStep(q, s, table).outcome.Running? && w.rt.roundComplete && Due(q, w.rt) ==> w.st.finishRequested
  {
    HitsInTable(q, s, table);
    var scan := FlatCursor.Scan(q.views[table], s.cursors[table], CallOf(q, s));
    var ids := IdSeq(scan.hits);
    DeliverFrame(q, s.work, ids);
    var w := Deliver(q, s.work, ids);
    hide Deliver, FlatCursor.Scan, IdSeq, HitsOk, PointsOk, Due;
    if !w.thrown {
      BoundaryStops(q, w, table, scan.report);
      hide Boundary;
    }
  }

  /** An advance opens a new round. */
  lemma AdvanceOpens(q: Query, s: State, st: StrategyState)
    requires Sized(st.schedule) && !UsedUpTables(s.work.rt)
    ensures var s' := Act(q, s.(work := s.work.(st := st)), AdvanceRadius, false);
            s'.outcome.Threw? || (!s'.work.rt.roundComplete && s'.work.st.radiusAdvanced &&
                                  s'.work.st.finishRequested == st.finishRequested &&
                                  s'.outcome == s.outcome)
  {
    hide NextRadius, WindowBound, Sized, AdvanceSched;
  }

  ghost predicate UsedUpTables(rt: Runtime) {
    rt.exhaustedTables == |rt.exhausted|
  }

  lemma TurnStops(q: Query, s: State)
    requires s.outcome.Running? && Ready(q, s) && q.rules.checkAtRoundBoundary
    ensures var s' := Turn(q, s);
            s'.outcome.Running? && s'.work.rt.roundComplete && Due(q, s'.work.rt) ==> s'.work.st.finishRequested
  {
    assert q.start.k > 0;
    var (st, action) := NextAction(q.rules, q.start, s.work.st, Snap(q, s.work.rt));
    if action.AdvanceRadius? {
      AdvanceHasReason(q, s);
      assert !UsedUpTables(s.work.rt);
    }
    hide *;
    TurnCases(q, s);
    var s1 := s.(work := s.work.(st := st));
    if action.ScanTable? {
      ScanStops(q, s1, action.table);
    } else if action.AdvanceRadius? {
      AdvanceOpens(q, s, st);
    }
  }

  lemma BeginsOpen(q: Query)
    requires Startable(q)
    ensures !SearchAfter(q, 0).work.rt.roundComplete
  {
    SearchBegins(q);
    hide SearchAfter, Ready;
  }

  /** With the check at round boundaries on, whatever the rule: a complete round at which
      the search is due has requested a finish. */
  lemma RoundStops(q: Query, turns: nat)
    requires Startable(q) && q.rules.checkAtRoundBoundary
    requires SearchAfter(q, turns).outcome.Running? && SearchAfter(q, turns).work.rt.roundComplete
    requires Due(q, SearchAfter(q, turns).work.rt)
    ensures SearchAfter(q, turns).work.st.finishRequested
  {
    hide *;
    if turns == 0 {
      BeginsOpen(q);
    } else {
      SearchNext(q, turns - 1);
      TurnStops(q, SearchAfter(q, turns - 1));
    }
  }

  // ---- after an advance ------------------------------------------------

  lemma AdvancedTurn(q: Query, s: State)
    requires s.outcome.Running? && Ready(q, s) && q.rules.checkAtRoundBoundary
    requires s.work.st.radiusAdvanced && Due(q, s.work.rt)
    ensures Turn(q, s).outcome.Finished?
  {
    TurnCases(q, s);
    assert q.start.k > 0 && |s.work.rt.neighbors| <= q.start.k;
    DueIs(q, s.work.rt);
    hide Turn, Core, Ready, ShouldTerminate, Act, Due;
  }

  lemma RadiusMoves(q: Query, s: State)
    requires s.outcome.Running? && Ready(q, s) && Turn(q, s).outcome.Running?
    requires Turn(q, s).work.rt.radius != s.work.rt.radius
    ensures Turn(q, s).work.st.radiusAdvanced
  {
    var (st, action) := NextAction(q.rules, q.start, s.work.st, Snap(q, s.work.rt));
    if action.AdvanceRadius? {
      AdvanceHasReason(q, s);
      assert !UsedUpTables(s.work.rt);
    }
    hide *;
    TurnCases(q, s);
    var s1 := s.(work := s.work.(st := st));
    if action.ScanTable? {
      ScanStays(q, s1, action.table);
    } else if action.AdvanceRadius? {
      AdvanceOpens(q, s, st);
    }
  }

  /** The first thing after a new radius is to look again: a search that is due then ends
      without scanning a table. */
  lemma AdvanceStops(q: Query, turns: nat)
    requires Startable(q) && q.rules.checkAtRoundBoundary
    requires SearchAfter(q, turns).outcome.Running? && SearchAfter(q, turns + 1).outcome.Running?
    requires SearchAfter(q, turns + 1).work.rt.radius != SearchAfter(q, turns).work.rt.radius
    requires Due(q, SearchAfter(q, turns + 1).work.rt)
    ensures SearchAfter(q, turns + 2).outcome.Finished?
  {
    hide *;
    SearchNext(q, turns);
    SearchNext(q, turns + 1);
    RadiusMoves(q, SearchAfter(q, turns));
    AdvancedTurn(q, SearchAfter(q, turns + 1));
  }

  // ---- no other checks -------------------------------------------------

  lemma EvaluatePatient(q: Query, w: Work, p: nat)
    requires WorkOk(q, w) && p < q.start.numPoints && !q.rules.checkAfterEvaluation
    ensures Evaluate(q, w, p).st.finishRequested == w.st.finishRequested
  {
    hide Distances, Answer, InsertBest, UpperBound, ShouldTerminate;
  }

  lemma {:induction false} DeliverPatient(q: Query, w: Work, ids: seq<nat>)
    requires WorkOk(q, w) && HitsOk(q, ids) && !q.rules.checkAfterEvaluation
    ensures Deliver(q, w, ids).st.finishRequested == w.st.finishRequested
  {
    hide HitStep, PointsOk;
    if ids == [] {
    } else {
      DeliverPatient(q, w, ids[..|ids| - 1]);
      HitPatient(q, Deliver(q, w, ids[..|ids| - 1]), ids[|ids| - 1]);
    }
  }

  lemma HitPatient(q: Query, w: Work, p: nat)
    requires WorkOk(q, w) && p < q.start.numPoints && !q.rules.checkAfterEvaluation
    ensures HitStep(q, w, p).st.finishRequested == w.st.finishRequested
  {
    EvaluatePatient(q, w.(rt := w.rt.(hits := w.rt.hits + 1), st := AcceptId(w.st, p).0), p);
    hide Evaluate, PointsOk;
  }

  lemma BoundaryPatient(q: Query, w: Work, table: nat, report: Report)
    requires q.start.k > 0 && table < |w.rt.exhausted| == |w.rt.completed| && !w.st.finishRequested
    requires Sized(w.st.schedule) && table < w.st.schedule.tableCount && |w.rt.neighbors| <= q.start.k
    ensures var w' := Boundary(q, w, table, report);
            w'.st.finishRequested ==> q.rules.checkAtRoundBoundary && w'.rt.roundComplete && Due(q, w'.rt)
  {
    DueIs(q, MarkReport(w.rt, table, report));
    hide ShouldTerminate, MarkReport, BoundarySched, Due;
  }

  lemma ScanPatient(q: Query, s: State, table: nat)
    requires CanScan(q, s, table) && !q.rules.checkAfterEvaluation && !s.work.st.finishRequested
    ensures var s' := ScanStep(q, s, table);
            s'.outcome.Running? && s'.work.st.finishRequested ==>
              q.rules.checkAtRoundBoundary && s'.work.rt.roundComplete && Due(q, s'.work.rt)
  {
    HitsInTable(q, s, table);
    var scan := FlatCursor.Scan(q.views[table], s.cursors[table], CallOf(q, s));
    var ids := IdSeq(scan.hits);
    DeliverFrame(q, s.work, ids);
    DeliverPatient(q, s.work, ids);
    var w := Deliver(q, s.work, ids);
    hide Deliver, FlatCursor.Scan, IdSeq, HitsOk, PointsOk, Due;
    if !w.thrown {
      BoundaryPatient(q, w, table, scan.report);
      hide Boundary;
    }
  }

  lemma TurnPatient(q: Query, s: State)
    requires s.outcome.Running? && Ready(q, s) && !q.rules.checkAfterEvaluation
    ensures var s' := Turn(q, s);
            s'.outcome.Running? && s'.work.st.finishRequested ==>
              q.rules.checkAtRoundBoundary && s'.work.rt.roundComplete && Due(q, s'.work.rt)
  {
    assert q.start.k > 0;
    var (st, action) := NextAction(q.rules, q.start, s.work.st, Snap(q, s.work.rt));
    if action.AdvanceRadius? {
      AdvanceHasReason(q, s);
      assert !UsedUpTables(s.work.rt);
    }
    hide *;
    TurnCases(q, s);
    ChoiceKeeps(q, s);
    var s1 := s.(work := s.work.(st := st));
    if action.ScanTable? {
      ScanPatient(q, s1, action.table);
    } else if action.AdvanceRadius? {
      AdvanceOpens(q, s, st);
    }
  }

  /** Without the check after evaluations a running search has asked to finish only on a
      complete round, with the check at round boundaries on, and when due. */
  lemma OnlyAtBoundaries(q: Query, turns: nat)
    requires Startable(q) && !q.rules.checkAfterEvaluation
    requires SearchAfter(q, turns).outcome.Running? && SearchAfter(q, turns).work.st.finishRequested
    ensures var rt := SearchAfter(q, turns).work.rt;
            q.rules.checkAtRoundBoundary && rt.roundComplete && Due(q, rt)
  {
    hide *;
    if turns == 0 {
      SearchBegins(q);
    } else {
      SearchNext(q, turns - 1);
      TurnPatient(q, SearchAfter(q, turns - 1));
    }
  }

  lemma UncheckedTurn(q: Query, s: State)
    requires s.outcome.Running? && Ready(q, s) && !s.work.st.finishRequested && !q.rules.checkAtRoundBoundary
    ensures Turn(q, s).outcome.Finished? ==> Turn(q, s).outcome.reason == ScanExhausted
  {
    TurnCases(q, s);
    assert Lockstep(q, s.work);
    hide Turn, Core, Ready, ShouldTerminate, Act, SchedOk;
  }

  /** With neither check only the end of the tables ends a search. */
  lemma {:induction false} UncheckedExhausts(q: Query, turns: nat)
    requires Startable(q) && !q.rules.checkAfterEvaluation && !q.rules.checkAtRoundBoundary
    requires SearchAfter(q, turns).outcome.Finished?
    ensures SearchAfter(q, turns).outcome.reason == ScanExhausted
  {
    hide *;
    if turns == 0 {
      SearchBegins(q);
    } else {
      SearchNext(q, turns - 1);
      var s := SearchAfter(q, turns - 1);
      if s.outcome.Running? {
        if s.work.st.finishRequested {
          OnlyAtBoundaries(q, turns - 1);
        }
        UncheckedTurn(q, s);
      } else {
        UncheckedExhausts(q, turns - 1);
      }
    }
  }
}
