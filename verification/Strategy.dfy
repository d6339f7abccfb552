/** The default QALSH strategy: what to do next, when to stop, and the collision
    counters it keeps. */
module Strategy {
  import opened Tables
  import opened FlatCursor
  import opened Schedule
  import opened TopK

  datatype Snapshot = Snapshot(radius: real, bound: real, k: nat, evaluated: nat, hits: nat,
                               roundComplete: bool, allExhausted: bool, neighbors: seq<Neighbor>)

  /** What the setters configure. A threshold of zero means the index's own; a
      budget override of Some(None) means no budget. */
  datatype Rules = Rules(threshold: nat, rule: Option<Snapshot -> bool>, budgetOverride: Option<Option<nat>>,
                         checkAfterEvaluation: bool, checkAtRoundBoundary: bool)

  datatype QueryStart = QueryStart(numPoints: nat, tableCount: nat, k: nat, ratio: real, fl: Rounding,
                                   threshold: nat, candidateBudget: nat)

  datatype StrategyState = StrategyState(remaining: seq<nat>, schedule: Sched, radiusAdvanced: bool,
                                         finishRequested: bool)

  datatype Action = ScanTable(table: nat) | AdvanceRadius | Finish

  const SIZE_MAX: nat := 0xFFFF_FFFF_FFFF_FFFF

  function ActiveThreshold(rules: Rules, start: QueryStart): nat {
    if rules.threshold == 0 then start.threshold else rules.threshold
  }

  /** beta*n + k - 1, capped by the number of points, unless overridden; a supplied
      termination rule replaces it. */
  function ActiveBudget(rules: Rules, start: QueryStart): Option<nat>
    requires start.k > 0
  {
    if rules.rule.Some? then None
    else if rules.budgetOverride.Some? then rules.budgetOverride.value
    else
      var additional := start.k - 1;
      var uncapped := if start.candidateBudget + additional > SIZE_MAX then SIZE_MAX
        else start.candidateBudget + additional;
      Some(Min(start.numPoints, uncapped))
  }

  function Reach(start: QueryStart, radius: real): real {
    start.ratio * radius
  }

  predicate WithinRatio(start: QueryStart, distance: real, radius: real) {
    distance <= start.fl(Reach(start, radius))
  }

  /** The standard rule: budget spent, or the k-th neighbour near enough. */
  predicate Met(rules: Rules, start: QueryStart, evaluated: nat, neighbors: seq<Neighbor>, radius: real)
    requires start.k > 0
  {
    (ActiveBudget(rules, start).Some? && evaluated >= ActiveBudget(rules, start).value) ||
    (|neighbors| >= start.k && WithinRatio(start, neighbors[|neighbors| - 1].distance, radius))
  }

  predicate Fires(rule: Snapshot -> bool, state: Snapshot) {
    rule(state)
  }

  predicate ShouldTerminate(rules: Rules, start: QueryStart, state: Snapshot)
    requires start.k > 0
  {
    match rules.rule
    case Some(rule) => Fires(rule, state)
    case None => Met(rules, start, state.evaluated, state.neighbors, state.radius)
  }

  function StartStrategy(rules: Rules, start: QueryStart): StrategyState {
    StrategyState(seq(start.numPoints, _ => ActiveThreshold(rules, start)), StartSched(start.tableCount), false, false)
  }

  function NextAction(rules: Rules, start: QueryStart, st: StrategyState, state: Snapshot): (StrategyState, Action)
    requires start.k > 0
  {
    if st.finishRequested then (st, Finish)
    else
      var st1 := st.(radiusAdvanced := false);
      if st.radiusAdvanced && rules.checkAtRoundBoundary && ShouldTerminate(rules, start, state) then
        (st1.(finishRequested := true), Finish)
      else if st.schedule.pending != [] then
        (st1.(schedule := st.schedule.(pending := st.schedule.pending[1..])), ScanTable(st.schedule.pending[0]))
      else if st.schedule.exhaustedTables == st.schedule.tableCount || state.allExhausted then
        (st1.(finishRequested := true), Finish)
      else if !state.roundComplete then (st1, AdvanceRadius)
      else if rules.checkAtRoundBoundary && ShouldTerminate(rules, start, state) then
        (st1.(finishRequested := true), Finish)
      else (st1, AdvanceRadius)
  }

  function OnEvaluation(rules: Rules, start: QueryStart, st: StrategyState, state: Snapshot): StrategyState
    requires start.k > 0
  {
    if rules.checkAfterEvaluation && ShouldTerminate(rules, start, state) then st.(finishRequested := true) else st
  }

  function OnScanBoundary(rules: Rules, start: QueryStart, st: StrategyState, table: nat, report: Report,
                          state: Snapshot): StrategyState
    requires start.k > 0 && Sized(st.schedule) && table < st.schedule.tableCount
  {
    var st1 := st.(schedule := BoundarySched(st.schedule, table, report));
    if !st.finishRequested && rules.checkAtRoundBoundary && state.roundComplete &&
       ShouldTerminate(rules, start, state) then
      st1.(finishRequested := true)
    else st1
  }

  function OnRadiusAdvanced(st: StrategyState): StrategyState
    requires Sized(st.schedule)
  {
    st.(radiusAdvanced := true, schedule := AdvanceSched(st.schedule))
  }

  /** accept_builtin_id: count down; the hit that reaches zero names a candidate. */
  function AcceptId(st: StrategyState, p: nat): (r: (StrategyState, bool))
    requires p < |st.remaining|
    ensures |r.0.remaining| == |st.remaining| && r.0.schedule == st.schedule &&
            r.0.finishRequested == st.finishRequested
  {
    var count := st.remaining[p];
    if count == 0 then (st, false)
    else (st.(remaining := st.remaining[p := count - 1]), count == 1)
  }

  /** A choice that keeps the ledgers true: a table that is out is incomplete and the
      only one out; the radius moves on only from a complete round of tables not all
      used up. */
  ghost predicate GoodChoice(s: Sched, action: Action) {
    SchedOk(s) &&
    match action
    case ScanTable(table) => table < s.tableCount && !s.completed[table] && Waiting(s, Some(table))
    case AdvanceRadius => Waiting(s, None) && s.completedTables == s.tableCount && s.exhaustedTables < s.tableCount
    case Finish => Waiting(s, None)
  }

  lemma ChoiceIsGood(rules: Rules, start: QueryStart, st: StrategyState, state: Snapshot)
    requires start.k > 0 && SchedOk(st.schedule) && Waiting(st.schedule, None)
    ensures var (st', action) := NextAction(rules, start, st, state);
            GoodChoice(st'.schedule, action) && (action.Finish? <==> st'.finishRequested)
  {
    EmptyQueue(st.schedule);
    if st.schedule.pending != [] {
      TakeKeeps(st.schedule);
    }
    hide ShouldTerminate;
  }

  // ---- the object ------------------------------------------------------

  class DefaultQalshStrategy {
    const rules: Rules
    const tableSchedule: TableScanSchedule
    var query: QueryStart
    var collisionState: seq<nat>
    var activeBudget: Option<nat>
    var radiusAdvanced: bool
    var finishRequested: bool

    constructor (rules: Rules, query: QueryStart)
      requires query.k > 0
      ensures this.rules == rules && fresh(tableSchedule) && Configured(query)
    {
      this.rules, this.query := rules, query;
      tableSchedule := new TableScanSchedule();
      collisionState, activeBudget := [], ActiveBudget(rules, query);
      radiusAdvanced, finishRequested := false, false;
    }

    ghost function Value(): StrategyState
      reads this, tableSchedule
    {
      StrategyState(collisionState, tableSchedule.Value(), radiusAdvanced, finishRequested)
    }

    ghost predicate Configured(query: QueryStart)
      reads this
    {
      query.k > 0 && this.query == query && activeBudget == ActiveBudget(rules, query)
    }

    /** start, or its refusal of the collision threshold. */
    method Start(query: QueryStart) returns (ok: bool)
      requires query.k > 0
      modifies this, tableSchedule
      ensures ok <==> 0 < (if rules.threshold == 0 then query.threshold else rules.threshold) <= query.tableCount
      ensures ok ==> |collisionState| == query.numPoints &&
                     forall p :: 0 <= p < query.numPoints ==>
                       collisionState[p] == if rules.threshold == 0 then query.threshold else rules.threshold
      ensures ok ==> Configured(query) && Value() == StartStrategy(rules, query)
      ensures ok ==> SchedOk(Value().schedule) && Waiting(Value().schedule, None)
    {
      this.query := query;
      var threshold := if rules.threshold == 0 then query.threshold else rules.threshold;
      if threshold == 0 || threshold > query.tableCount {
        return false;
      }
      collisionState := seq(query.numPoints, _ => threshold);
      tableSchedule.Start(query.tableCount);
      if rules.budgetOverride.Some? {
        activeBudget := rules.budgetOverride.value;
      } else {
        var additional := query.k - 1;
        var uncapped := if query.candidateBudget > SIZE_MAX - additional then SIZE_MAX
          else query.candidateBudget + additional;
        activeBudget := Some(Min(query.numPoints, uncapped));
      }
      if rules.rule.Some? {
        activeBudget := None;
      }
      radiusAdvanced, finishRequested := false, false;
      return true;
    }

    predicate Terminates(state: Snapshot)
      reads this
    {
      match rules.rule
      case Some(rule) => Fires(rule, state)
      case None =>
        (activeBudget.Some? && state.evaluated >= activeBudget.value) ||
        (|state.neighbors| >= query.k && |state.neighbors| > 0 &&
         WithinRatio(query, state.neighbors[|state.neighbors| - 1].distance, state.radius))
    }

    /** With each incomplete table waiting once, a table asked for is an incomplete one,
        and the radius only advances once every table is complete and one has entries
        left. */
    method Next(state: Snapshot, ghost start: QueryStart) returns (action: Action)
      requires Configured(start)
      modifies this, tableSchedule
      ensures Configured(start)
      ensures (Value(), action) == NextAction(rules, start, old(Value()), state)
      ensures old(SchedOk(Value().schedule) && Waiting(Value().schedule, None)) ==>
                GoodChoice(Value().schedule, action) && (action.Finish? <==> Value().finishRequested)
    {
      if SchedOk(Value().schedule) && Waiting(Value().schedule, None) {
        ChoiceIsGood(rules, start, Value(), state);
      }
      hide SchedOk, Waiting, GoodChoice;
      if finishRequested {
        return Finish;
      }
      if radiusAdvanced {
        radiusAdvanced := false;
        if rules.checkAtRoundBoundary && Terminates(state) {
          finishRequested := true;
          return Finish;
        }
      }
      var table := tableSchedule.NextTable();
      if table.Some? {
        return ScanTable(table.value);
      }
      var exhausted := tableSchedule.AllTablesExhausted();
      if exhausted || state.allExhausted {
        finishRequested := true;
        return Finish;
      }
      if !state.roundComplete {
        return AdvanceRadius;
      }
      if rules.checkAtRoundBoundary && Terminates(state) {
        finishRequested := true;
        return Finish;
      }
      return AdvanceRadius;
    }

    method Evaluated(state: Snapshot, ghost start: QueryStart)
      requires Configured(start)
      modifies `finishRequested
      ensures Value() == OnEvaluation(rules, start, old(Value()), state)
    {
      if rules.checkAfterEvaluation && Terminates(state) {
        finishRequested := true;
      }
    }

    method ScanBoundary(table: nat, report: Report, state: Snapshot, ghost start: QueryStart)
      requires Configured(start) && Sized(Value().schedule) && table < Value().schedule.tableCount
      modifies `finishRequested, tableSchedule
      ensures Value() == OnScanBoundary(rules, start, old(Value()), table, report, state)
      ensures old(GoodChoice(Value().schedule, ScanTable(table))) ==>
                SchedOk(Value().schedule) && Waiting(Value().schedule, None)
    {
      tableSchedule.OnScanBoundary(table, report);
      if !finishRequested && rules.checkAtRoundBoundary && state.roundComplete && Terminates(state) {
        finishRequested := true;
      }
    }

    method RadiusAdvanced()
      requires Sized(Value().schedule)
      modifies `radiusAdvanced, tableSchedule
      ensures Value() == OnRadiusAdvanced(old(Value()))
      ensures old(GoodChoice(Value().schedule, AdvanceRadius)) ==>
                SchedOk(Value().schedule) && Waiting(Value().schedule, None)
    {
      radiusAdvanced := true;
      tableSchedule.OnRadiusAdvanced();
    }

    /** Names a point at the hit that brings its counter to zero, and at no later one. */
    method AcceptBuiltinId(p: nat) returns (candidate: bool)
      requires p < |collisionState|
      modifies `collisionState
      ensures (Value(), candidate) == AcceptId(old(Value()), p)
      ensures candidate <==> old(collisionState)[p] == 1
      ensures |collisionState| == |old(collisionState)| && collisionState[p] <= old(collisionState)[p]
      ensures collisionState[p] == 0 <==> old(collisionState)[p] <= 1
      ensures forall other: nat :: other < |collisionState| && other != p ==>
                collisionState[other] == old(collisionState)[other]
    {
      var count := collisionState[p];
      if count == 0 {
        return false;
      }
      count := count - 1;
      collisionState := collisionState[p := count];
      return count == 0;
    }

    /** accept_hit without a candidate rule: nothing once a finish is asked for, an error
        on a point number out of range, and otherwise the count-down. */
    method AcceptHit(p: nat) returns (valid: bool, candidate: bool)
      modifies `collisionState
      ensures valid <==> finishRequested || p < |old(collisionState)|
      ensures finishRequested || !valid ==> !candidate && Value() == old(Value())
      ensures !finishRequested && valid ==> (Value(), candidate) == AcceptId(old(Value()), p)
    {
      if finishRequested {
        return true, false;
      }
      if p >= |collisionState| {
        return false, false;
      }
      var count := collisionState[p];
      if count == 0 {
        return true, false;
      }
      count := count - 1;
      collisionState := collisionState[p := count];
      return true, count == 0;
    }
  }
}
