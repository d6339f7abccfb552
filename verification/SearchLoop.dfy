/** SearchEngine::search over any layout with the default strategy: the loop on real
    cursors, a leased scratch and mutable ledgers computes the run of the transition
    system. */
module SearchLoop {
  import opened FlatCursor
  import opened Schedule
  import opened TopK
  import opened DistanceKernel
  import opened Strategy
  import opened Delivery
  import opened Engine
  import opened EngineInvariant
  import opened RangeDriver
  import opened Scratch
  import opened SearchPlaces
  import opened SearchReply

  // ---- the objects as a state ------------------------------------------

  /** The objects hold state s. */
  ghost predicate Holds(q: Query, layout: Layout, places: seq<Place>, rt: SearchRuntime, strategy: DefaultQalshStrategy,
                        s: State)
    reads rt, rt.seen, strategy, strategy.tableSchedule
  {
    Engaged(q, rt, strategy) && ListedSeen(rt) && AllPlaced(q, layout, places) && s.outcome.Running? &&
    s.cursors == Flats(q, layout, places) && s.work == WorkOf(rt, strategy)
  }

  // ---- one turn --------------------------------------------------------

  method TakeReport(rt: SearchRuntime, table: nat, report: Report)
    requires rt.Valid() && table < |rt.tableExhausted| == |rt.tableRoundComplete|
    modifies rt`tableExhausted, rt`exhaustedTables, rt`completedTables, rt`tableRoundComplete, rt`roundComplete
    ensures rt.Valid() && rt.Value() == MarkReport(old(rt.Value()), table, report)
  {
    hide Marked;
    if report.tableExhausted && !rt.tableExhausted[table] {
      rt.tableExhausted := rt.tableExhausted[table := true];
      rt.exhaustedTables := rt.exhaustedTables + 1;
    }
    if (report.windowExhausted || report.tableExhausted) && !rt.tableRoundComplete[table] {
      rt.tableRoundComplete := rt.tableRoundComplete[table := true];
      rt.completedTables := rt.completedTables + 1;
    }
    rt.roundComplete := rt.completedTables == |rt.tableRoundComplete|;
  }

  method Widen(rt: SearchRuntime, radius: real, bound: real)
    requires rt.Valid() && |rt.tableExhausted| == |rt.tableRoundComplete|
    modifies rt`radius, rt`bound, rt`completedTables, rt`tableRoundComplete, rt`roundComplete
    ensures rt.Valid() && rt.tableExhausted == old(rt.tableExhausted)
    ensures rt.Value() == old(rt.Value()).(radius := radius, bound := bound, completed := rt.tableExhausted,
                            completedTables := rt.exhaustedTables,
                            roundComplete := rt.exhaustedTables == |rt.tableExhausted|)
  {
    hide Marked;
    rt.radius, rt.bound := radius, bound;
    rt.completedTables := rt.exhaustedTables;
    rt.roundComplete := rt.completedTables == |rt.tableExhausted|;
    ghost var before := rt.Value();
    for table := 0 to |rt.tableExhausted|
      invariant rt.Valid() && |rt.tableExhausted| == |rt.tableRoundComplete|
      invariant rt.tableRoundComplete[..table] == rt.tableExhausted[..table]
      invariant rt.Value() == before.(completed := rt.tableRoundComplete)
      modifies rt`tableRoundComplete
    {
      rt.tableRoundComplete := rt.tableRoundComplete[table := rt.tableExhausted[table]];
    }
    assert rt.tableRoundComplete[..|rt.tableExhausted|] == rt.tableRoundComplete;
    assert rt.tableExhausted[..|rt.tableExhausted|] == rt.tableExhausted;
  }

  /** Advancing the radius, or the error of a progression or window out of range. */
  method AdvanceTurn(q: Query, layout: Layout, places: seq<Place>, rt: SearchRuntime, strategy: DefaultQalshStrategy,
                     ghost s: State)
    returns (ok: bool)
    requires Holds(q, layout, places, rt, strategy, s) && Sized(s.work.st.schedule)
    requires |s.work.rt.exhausted| == |s.work.rt.completed|
    modifies rt`radius, rt`bound, rt`completedTables, rt`tableRoundComplete, rt`roundComplete,
             strategy`radiusAdvanced, strategy.tableSchedule
    ensures rt.Valid() && (!ok ==> Act(q, s, AdvanceRadius, false).outcome.Threw?)
    ensures ok ==> Holds(q, layout, places, rt, strategy, Act(q, s, AdvanceRadius, false))
  {
    hide Marked, AllPlaced, Flats, PointsOk, BestFirst;
    var radius := NextRadius(q, rt.radius);
    if radius.None? {
      return false;
    }
    var bound := WindowBound(q, radius.value);
    if bound.None? {
      return false;
    }
    Widen(rt, radius.value, bound.value);
    strategy.RadiusAdvanced();
    return true;
  }

  /** The ledgers' part of a scan turn. */
  method Settle(q: Query, rt: SearchRuntime, strategy: DefaultQalshStrategy, table: nat, report: Report)
    requires Engaged(q, rt, strategy) && ListedSeen(rt)
    requires table < |rt.tableExhausted| == |rt.tableRoundComplete|
    requires Sized(strategy.Value().schedule) && table < strategy.Value().schedule.tableCount
    modifies rt`tableExhausted, rt`exhaustedTables, rt`completedTables, rt`tableRoundComplete, rt`roundComplete,
             strategy`finishRequested, strategy.tableSchedule
    ensures Engaged(q, rt, strategy) && ListedSeen(rt)
    ensures WorkOf(rt, strategy) == Boundary(q, old(WorkOf(rt, strategy)), table, report)
  {
    hide Marked, PointsOk, BestFirst, ListedSeen, Listed, MarkReport;
    TakeReport(rt, table, report);
    strategy.ScanBoundary(table, report, rt.Snapshot(q.start.k), q.start);
  }

  /** A scan turn in its parts. */
  lemma ScanParts(q: Query, s: State, table: nat, scan: Scanned)
    requires CanScan(q, s, table) && InBounds(q.views[table], s.cursors[table])
    requires scan == FlatCursor.Scan(q.views[table], s.cursors[table], CallOf(q, s))
    ensures HitsOk(q, IdSeq(scan.hits))
    ensures var w, cursors := Deliver(q, s.work, IdSeq(scan.hits)), s.cursors[table := scan.cursor];
            table < |w.rt.exhausted| == |w.rt.completed| && Sized(w.st.schedule) && table < w.st.schedule.tableCount &&
            ScanStep(q, s, table) ==
              if w.thrown then State(cursors, w, Threw) else State(cursors, Boundary(q, w, table, scan.report), Running)
  {
    HitsInTable(q, s, table);
    DeliverFrame(q, s.work, IdSeq(scan.hits));
    hide Deliver, FlatCursor.Scan, Boundary, HitsOk, IdSeq;
  }

  /** Delivery and ledgers, in that order. */
  method DeliverAndSettle(q: Query, rt: SearchRuntime, strategy: DefaultQalshStrategy, table: nat, ids: seq<nat>,
                          report: Report)
    returns (thrown: bool)
    requires Engaged(q, rt, strategy) && ListedSeen(rt) && HitsOk(q, ids)
    requires var w := Deliver(q, WorkOf(rt, strategy), ids);
             table < |w.rt.exhausted| == |w.rt.completed| && Sized(w.st.schedule) && table < w.st.schedule.tableCount
    modifies rt, rt.seen, strategy`finishRequested, strategy`collisionState, strategy.tableSchedule
    ensures rt.Valid() && thrown == Deliver(q, old(WorkOf(rt, strategy)), ids).thrown
    ensures !thrown ==> Engaged(q, rt, strategy) && ListedSeen(rt)
    ensures !thrown ==> WorkOf(rt, strategy) == Boundary(q, Deliver(q, old(WorkOf(rt, strategy)), ids), table, report)
  {
    hide Deliver, Boundary, Marked, PointsOk, BestFirst, ListedSeen, Listed, MarkReport;
    thrown := DeliverRange(q, rt, strategy, ids);
    if !thrown {
      Settle(q, rt, strategy, table, report);
    }
  }

  method ScanTurn(q: Query, layout: Layout, places0: seq<Place>, rt: SearchRuntime, strategy: DefaultQalshStrategy,
                  table: nat, ghost s: State)
    returns (thrown: bool, places: seq<Place>)
    requires LayoutOk(q, layout) && Holds(q, layout, places0, rt, strategy, s) && CanScan(q, s, table)
    modifies rt, rt.seen, strategy`finishRequested, strategy`collisionState, strategy.tableSchedule
    ensures rt.Valid()
    ensures thrown <==> ScanStep(q, s, table).outcome.Threw?
    ensures !thrown ==> Holds(q, layout, places, rt, strategy, ScanStep(q, s, table))
  {
    HitsInTable(q, s, table);
    assert s.cursors[table] == Flats(q, layout, places0)[table];
    assert CallOf(q, s) == Call(rt.bound, q.quantum, Quantum);
    hide FlatCursor.Scan, AllPlaced, Flats, LayoutOk, Deliver, Boundary, IdSeq, HitsOk, ListedSeen, Engaged,
         Admissible, Sound, Marked, BestFirst, ScanStep;
    var hits, report;
    places, hits, report := MoveCursor(q, layout, places0, table, Call(rt.bound, q.quantum, Quantum));
    ghost var scan := FlatCursor.Scan(q.views[table], s.cursors[table], CallOf(q, s));
    ScanParts(q, s, table, scan);
    thrown := DeliverAndSettle(q, rt, strategy, table, IdSeq(hits), report);
  }

  // ---- the loop --------------------------------------------------------

  lemma HeldRuns(q: Query, layout: Layout, places: seq<Place>, rt: SearchRuntime, strategy: DefaultQalshStrategy,
                 s: State)
    requires Holds(q, layout, places, rt, strategy, s)
    ensures s.outcome.Running? && rt.Valid() && s.work.rt == rt.Value()
  {}

  /** Asking the strategy leaves everything else as it is. */
  method Ask(q: Query, layout: Layout, places: seq<Place>, rt: SearchRuntime, strategy: DefaultQalshStrategy,
             ghost s: State)
    returns (before: Snapshot, action: Action)
    requires Holds(q, layout, places, rt, strategy, s) && q.start.k > 0
    modifies strategy, strategy.tableSchedule
    ensures before == Snap(q, s.work.rt)
    ensures var (st, chosen) := NextAction(q.rules, q.start, s.work.st, before);
            action == chosen && Holds(q, layout, places, rt, strategy, s.(work := s.work.(st := st)))
  {
    before := rt.Snapshot(q.start.k);
    assert before == Snap(q, s.work.rt);
    hide NextAction, AllPlaced, Flats, Marked, PointsOk, BestFirst, ListedSeen, ActiveBudget;
    action := strategy.Next(before, q.start);
  }

  /** One iteration: ask the strategy, act, report back. */
  method TakeTurn(q: Query, layout: Layout, places0: seq<Place>, rt: SearchRuntime, strategy: DefaultQalshStrategy,
                  ghost s: State)
    returns (outcome: Outcome, places: seq<Place>)
    requires LayoutOk(q, layout) && Holds(q, layout, places0, rt, strategy, s) && Ready(q, s)
    modifies rt, rt.seen, strategy, strategy.tableSchedule
    ensures rt.Valid() && outcome == Turn(q, s).outcome
    ensures outcome.Running? ==> Holds(q, layout, places, rt, strategy, Turn(q, s))
    ensures outcome.Finished? ==> rt.Value() == Turn(q, s).work.rt
  {
    hide *;
    HeldRuns(q, layout, places0, rt, strategy, s);
    TurnCases(q, s);
    places := places0;
    var before, action := Ask(q, layout, places, rt, strategy, s);
    ghost var s1 := s.(work := s.work.(st := NextAction(q.rules, q.start, s.work.st, before).0));
    HeldRuns(q, layout, places, rt, strategy, s1);
    match action {
      case Finish =>
        outcome := Finished(if before.allExhausted then ScanExhausted else ByStrategy);
      case ScanTable(table) =>
        var thrown;
        thrown, places := ScanTurn(q, layout, places0, rt, strategy, table, s1);
        outcome := if thrown then Threw else Running;
        ScanOutcome(q, s1, table);
      case AdvanceRadius =>
        var ok := AdvanceTurn(q, layout, places, rt, strategy, s1);
        outcome := if ok then Running else Threw;
        if ok {
          HeldRuns(q, layout, places, rt, strategy, Act(q, s1, AdvanceRadius, false));
        }
    }
  }

  lemma ScanOutcome(q: Query, s: State, table: nat)
    requires CanScan(q, s, table)
    ensures ScanStep(q, s, table).outcome.Threw? || ScanStep(q, s, table).outcome.Running?
  {
    hide FlatCursor.Scan, Deliver;
  }

  lemma {:induction false} SearchStays(q: Query, turns: nat, limit: nat)
    requires Startable(q) && turns <= limit && !SearchAfter(q, turns).outcome.Running?
    ensures SearchAfter(q, limit) == SearchAfter(q, turns)
    decreases limit - turns
  {
    hide *;
    if turns == limit {
    } else {
      SearchNext(q, turns);
      SearchStays(q, turns + 1, limit);
    }
  }

  method RunLoop(q: Query, layout: Layout, places0: seq<Place>, rt: SearchRuntime, strategy: DefaultQalshStrategy,
                 limit: nat)
    returns (reply: Reply)
    requires Startable(q) && LayoutOk(q, layout) && Holds(q, layout, places0, rt, strategy, Begin(q))
    modifies rt, rt.seen, strategy, strategy.tableSchedule
    ensures rt.Valid() && reply == ReplyOf(q, SearchAfter(q, limit))
    ensures PointsOk(q) && Tells(q, SearchAfter(q, limit), reply)
  {
    ReplyTells(q, limit);
    hide Tells;
    var places := places0;
    SearchBegins(q);
    assert rt.Valid();
    hide SearchAfter, Turn, Holds, Begin, LayoutOk, Ready, Core, Startable;
    for step := 0 to limit
      invariant rt.Valid() && Holds(q, layout, places, rt, strategy, SearchAfter(q, step))
    {
      hide SearchAfter, Turn, Holds, Begin, LayoutOk, Ready, Core, Startable, Marked;
      SearchNext(q, step);
      HeldRuns(q, layout, places, rt, strategy, SearchAfter(q, step));
      var outcome;
      outcome, places := TakeTurn(q, layout, places, rt, strategy, SearchAfter(q, step));
      if !outcome.Running? {
        SearchStays(q, step + 1, limit);
        if outcome.Threw? {
          return Failed;
        }
        return Answered(SearchResult(rt.neighbors,
                                     if outcome.reason.ScanExhausted? then TablesExhausted else StoppedByStrategy,
                                     rt.evaluated, rt.hits, |rt.neighbors| == q.start.k));
      }
    }
    HeldRuns(q, layout, places, rt, strategy, SearchAfter(q, limit));
    return Answered(SearchResult(rt.neighbors, StepLimit, rt.evaluated, rt.hits, false));
  }

  // ---- the whole call --------------------------------------------------

  /** What a built index guarantees; the caller's numbers are not part of it. */
  ghost predicate IndexOk(q: Query) {
    |q.points| == q.start.numPoints && Laws(q.arith) &&
    (forall p :: 0 <= p < |q.points| ==> |q.points[p]| == |q.target|) &&
    |q.views| == q.start.tableCount && q.width > 0.0 && q.radius > 0.0 && q.growth > 1.0 &&
    forall t :: 0 <= t < |q.views| ==> TableOk(q, q.views[t])
  }

  lemma BeginHolds(q: Query, layout: Layout, places: seq<Place>, rt: SearchRuntime, strategy: DefaultQalshStrategy)
    requires Startable(q) && AllPlaced(q, layout, places) && Flats(q, layout, places) == Begin(q).cursors
    requires rt.Valid() && rt.numPoints == q.start.numPoints && strategy.rules == q.rules &&
             strategy.Configured(q.start)
    requires Work(rt.Value(), strategy.Value(), false) == Begin(q).work
    ensures Holds(q, layout, places, rt, strategy, Begin(q))
  {
    assert |q.views| == q.start.tableCount;
    hide AllPlaced, Flats, Marked;
  }

  /** The search proper, on a scratch in which no point is marked. */
  method SearchOn(scratch: QueryScratch, strategy: DefaultQalshStrategy, q: Query, layout: Layout, maxSteps: nat)
    returns (reply: Reply)
    requires IndexOk(q) && LayoutOk(q, layout) && strategy.rules == q.rules
    requires 0 < q.start.k <= q.start.numPoints && q.start.tableCount > 0 && q.quantum > 0
    requires scratch.Valid() && q.start.numPoints <= scratch.seenEpochs.Length && scratch.Seen(q.start.numPoints) == {}
    modifies scratch.seenEpochs, strategy, strategy.tableSchedule
    ensures scratch.Valid()
    ensures Startable(q) ==> reply == ReplyOf(q, SearchAfter(q, StepBudget(q, maxSteps)))
    ensures !Startable(q) ==> reply == Failed
  {
    var bound := WindowBound(q, q.radius);
    if bound.None? {
      return Failed;
    }
    var ok := strategy.Start(q.start);
    if !ok {
      return Failed;
    }
    assert QueryOk(q) && Startable(q);
    var places := PlaceAll(q, layout);
    assert |q.views| == q.start.tableCount && Begin(q).work.st == strategy.Value();
    var rt := new SearchRuntime(q.start.numPoints, scratch.seenEpochs, scratch.epoch, q.start.tableCount, q.radius,
                                bound.value);
    assert Begin(q).work.rt == rt.Value();
    hide QueryOk, IndexOk, LayoutOk, AllPlaced, Flats, Holds, WindowBound, ReplyOf, StepBudget, Marked, Startable,
         Begin, SearchAfter;
    BeginHolds(q, layout, places, rt, strategy);
    reply := RunLoop(q, layout, places, rt, strategy, StepBudget(q, maxSteps));
    StillBehind(rt, scratch);
  }

  lemma StillBehind(rt: SearchRuntime, scratch: QueryScratch)
    requires rt.Valid() && rt.seen == scratch.seenEpochs && rt.seenEpoch == scratch.epoch < EPOCHS
    ensures scratch.Valid()
  {}

  /** The step limit in numbers, and what the reply under it tells. */
  lemma LimitIs(q: Query, maxSteps: nat, reply: Reply)
    requires Startable(q) ==> reply == ReplyOf(q, SearchAfter(q, StepBudget(q, maxSteps)))
    ensures Startable(q) ==>
              var steps := 32 * (q.start.numPoints * q.start.tableCount);
              var limit := if maxSteps != 0 then maxSteps else if steps > 10000 then steps else 10000;
              reply == ReplyOf(q, SearchAfter(q, limit)) && PointsOk(q) && Tells(q, SearchAfter(q, limit), reply)
  {
    var steps := 32 * (q.start.numPoints * q.start.tableCount);
    assert StepBudget(q, maxSteps) == if maxSteps != 0 then maxSteps else if steps > 10000 then steps else 10000;
    hide Startable, SearchAfter, ReplyOf, Tells, StepBudget, PointsOk;
    if Startable(q) {
      ReplyTells(q, StepBudget(q, maxSteps));
    }
  }

  /** The search on a leased scratch and its release, as the pool sees them. */
  method SearchLeased(pool: ScratchPool, scratch: QueryScratch, strategy: DefaultQalshStrategy, q: Query,
                      layout: Layout, maxSteps: nat)
    returns (reply: Reply)
    requires IndexOk(q) && LayoutOk(q, layout) && strategy.rules == q.rules
    requires 0 < q.start.k <= q.start.numPoints && q.start.tableCount > 0 && q.quantum > 0
    requires pool.Valid() && scratch in pool.entries
    requires q.start.numPoints <= scratch.seenEpochs.Length && scratch.Seen(q.start.numPoints) == {}
    modifies scratch`inUse, scratch.seenEpochs, strategy, strategy.tableSchedule
    ensures pool.Valid() && scratch.seenEpochs == old(scratch.seenEpochs) && !scratch.inUse
    ensures forall s :: s in pool.entries && s != scratch ==> s.Kept()
    ensures Startable(q) ==>
              var steps := 32 * (q.start.numPoints * q.start.tableCount);
              var limit := if maxSteps != 0 then maxSteps else if steps > 10000 then steps else 10000;
              reply == ReplyOf(q, SearchAfter(q, limit)) && PointsOk(q) && Tells(q, SearchAfter(q, limit), reply)
    ensures !Startable(q) ==> reply == Failed
  {
    hide IndexOk, LayoutOk, Startable, ReplyOf, StepBudget, SearchAfter, Marked, Tells, PointsOk;
    reply := SearchOn(scratch, strategy, q, layout, maxSteps);
    LimitIs(q, maxSteps, reply);
    pool.Release(scratch);
  }

  /** The leases out are those that were out before, with the marks they had. */
  twostate predicate Returned(pool: ScratchPool)
    reads pool, pool.entries, pool.Arrays()
  {
    (forall s :: s in old(pool.entries) && old(s.inUse) ==> s in pool.entries && s.Kept()) &&
    forall s :: s in pool.entries && s.inUse ==> s in old(pool.entries) && old(s.inUse)
  }

  /** SearchEngine::search with the default strategy: lease a scratch, run, give it
      back, on errors as well. */
  method Search(pool: ScratchPool, strategy: DefaultQalshStrategy, q: Query, layout: Layout, maxSteps: nat)
    returns (reply: Reply)
    requires IndexOk(q) && LayoutOk(q, layout) && strategy.rules == q.rules && pool.Valid()
    modifies pool, pool.entries, pool.Arrays(), strategy, strategy.tableSchedule
    ensures pool.Valid() && pool.Grows() && Returned(pool)
    ensures Startable(q) ==>
              var steps := 32 * (q.start.numPoints * q.start.tableCount);
              var limit := if maxSteps != 0 then maxSteps else if steps > 10000 then steps else 10000;
              reply == ReplyOf(q, SearchAfter(q, limit)) && PointsOk(q) && Tells(q, SearchAfter(q, limit), reply)
    ensures !Startable(q) ==> reply == Failed
  {
    if q.start.k == 0 || q.start.k > q.start.numPoints || q.start.tableCount == 0 || q.quantum == 0 {
      return Failed;
    }
    hide IndexOk, LayoutOk, Startable, ReplyOf, StepBudget, SearchAfter, Marked, Tells, PointsOk;
    var scratch := pool.Acquire(q.start.numPoints);
    reply := SearchLeased(pool, scratch, strategy, q, layout, maxSteps);
  }
}
