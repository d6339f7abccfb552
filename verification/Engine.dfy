/** The search loop as a transition system: the engine's ledger and cursors, the
    default strategy, and one step of the two together. */
module Engine {
  import opened Tables
  import opened FlatCursor
  import opened Schedule
  import opened TopK
  import opened DistanceKernel
  import opened Strategy
  import opened Delivery

  datatype Reason = ByStrategy | ScanExhausted

  /** Threw: a refused radius, window or distance ends the search with an error. */
  datatype Outcome = Running | Finished(reason: Reason) | Threw

  datatype State = State(cursors: seq<Cursor>, work: Work, outcome: Outcome)

  ghost predicate QueryOk(q: Query) {
    PointsOk(q) && |q.views| == q.start.tableCount > 0 && q.quantum > 0 && q.width > 0.0 && q.radius > 0.0 &&
    q.growth > 1.0 &&
    q.start.k <= q.start.numPoints && 0 < ActiveThreshold(q.rules, q.start) <= q.start.tableCount &&
    forall t :: 0 <= t < |q.views| ==> TableOk(q, q.views[t])
  }

  ghost predicate TableOk(q: Query, v: View) {
    v.Valid() && ValidTable(v.entries, q.start.numPoints)
  }

  // ---- arithmetic of windows -------------------------------------------

  function HalfWidth(q: Query, radius: real): real {
    q.width * radius / 2.0
  }

  /** WindowBound: half the bucket width times the radius, if a float32 holds it. */
  function WindowBound(q: Query, radius: real): Option<real> {
    var value := HalfWidth(q, radius);
    if 0.0 <= value <= q.arith.maxFloat then Some(q.start.fl(value)) else None
  }

  /** The start of a search refuses nothing of this. */
  ghost predicate Startable(q: Query) {
    QueryOk(q) && WindowBound(q, q.radius).Some?
  }

  function Grown(q: Query, radius: real): real {
    radius * q.growth
  }

  function NextRadius(q: Query, radius: real): Option<real> {
    var next := q.start.fl(Grown(q, radius));
    if next <= q.arith.maxFloat && next > radius then Some(next) else None
  }

  // ---- one step --------------------------------------------------------

  function IdSeq(entries: seq<Entry>): (ids: seq<nat>)
    ensures |ids| == |entries|
  {
    seq(|entries|, i requires 0 <= i < |entries| => entries[i].id)
  }

  /** The engine's own record of a scan report. */
  function MarkReport(rt: Runtime, table: nat, report: Report): (rt': Runtime)
    requires table < |rt.exhausted| == |rt.completed|
    ensures |rt'.exhausted| == |rt.exhausted| && |rt'.completed| == |rt.completed|
  {
    var newlyExhausted := report.tableExhausted && !rt.exhausted[table];
    var newlyComplete := (report.windowExhausted || report.tableExhausted) && !rt.completed[table];
    var exhausted := if newlyExhausted then rt.exhausted[table := true] else rt.exhausted;
    var completed := if newlyComplete then rt.completed[table := true] else rt.completed;
    var completedTables := rt.completedTables + if newlyComplete then 1 else 0;
    rt.(exhausted := exhausted, exhaustedTables := rt.exhaustedTables + (if newlyExhausted then 1 else 0),
        completed := completed, completedTables := completedTables, roundComplete := completedTables == |rt.completed|)
  }

  /** After a scan: the engine's ledger, then the strategy's. */
  function Boundary(q: Query, w: Work, table: nat, report: Report): Work
    requires q.start.k > 0 && table < |w.rt.exhausted| == |w.rt.completed|
    requires Sized(w.st.schedule) && table < w.st.schedule.tableCount
  {
    var rt := MarkReport(w.rt, table, report);
    w.(rt := rt, st := OnScanBoundary(q.rules, q.start, w.st, table, report, Snap(q, rt)))
  }

  /** Moving to the next radius: exhausted tables stay complete. */
  function Widened(w: Work, radius: real, bound: real): Work
    requires Sized(w.st.schedule)
  {
    var rt := w.rt.(radius := radius, bound := bound, completed := w.rt.exhausted,
                    completedTables := w.rt.exhaustedTables,
                    roundComplete := w.rt.exhaustedTables == |w.rt.exhausted|);
    Work(rt, OnRadiusAdvanced(w.st), w.thrown)
  }

  ghost function CallOf(q: Query, s: State): Call {
    Call(s.work.rt.bound, q.quantum, Quantum)
  }

  ghost predicate CanScan(q: Query, s: State, table: nat) {
    QueryOk(q) && WorkOk(q, s.work) && table < |q.views| == |s.cursors| && Sized(s.work.st.schedule) &&
    |s.work.rt.exhausted| == |s.work.rt.completed| == s.work.st.schedule.tableCount == |q.views| &&
    Sound(q.views[table], s.cursors[table]) && Admissible(s.cursors[table], CallOf(q, s))
  }

  /** Scanning one table and delivering what it yields. */
  ghost function ScanStep(q: Query, s: State, table: nat): State
    requires CanScan(q, s, table)
  {
    var scan := FlatCursor.Scan(q.views[table], s.cursors[table], CallOf(q, s));
    HitsInTable(q, s, table);
    var w := Deliver(q, s.work, IdSeq(scan.hits));
    DeliverFrame(q, s.work, IdSeq(scan.hits));
    var cursors := s.cursors[table := scan.cursor];
    if w.thrown then State(cursors, w, Threw) else State(cursors, Boundary(q, w, table, scan.report), Running)
  }

  lemma BackwardFrom(t: seq<Entry>, lo: nat, hi: nat, n: nat)
    requires lo <= hi <= |t| && IdsBelow(t, n)
    ensures IdsBelow(Backward(t, lo, hi), n)
  {
    var b := Backward(t, lo, hi);
    assert forall k :: 0 <= k < |b| ==> b[k] == t[hi - 1 - k];
  }

  lemma HitsInTable(q: Query, s: State, table: nat)
    requires CanScan(q, s, table)
    ensures InBounds(q.views[table], s.cursors[table])
    ensures HitsOk(q, IdSeq(FlatCursor.Scan(q.views[table], s.cursors[table], CallOf(q, s)).hits))
  {
    var v, c := q.views[table], s.cursors[table];
    SoundBounds(v, c);
    ScanSound(v, c, CallOf(q, s));
    hide FlatCursor.Scan, Backward;
    var d := FlatCursor.Scan(v, c, CallOf(q, s)).cursor;
    SoundBounds(v, d);
    BackwardFrom(v.entries, d.left + 1, c.left + 1, q.start.numPoints);
  }

  lemma HitFrame(q: Query, w: Work, p: nat)
    requires WorkOk(q, w) && p < q.start.numPoints
    ensures SameFrame(w, HitStep(q, w, p))
  {
    hide Distances, Answer, InsertBest, UpperBound;
  }

  lemma {:induction false} DeliverFrame(q: Query, w: Work, ids: seq<nat>)
    requires WorkOk(q, w) && HitsOk(q, ids)
    ensures SameFrame(w, Deliver(q, w, ids))
  {
    if ids == [] {
    } else {
      DeliverFrame(q, w, ids[..|ids| - 1]);
      HitFrame(q, Deliver(q, w, ids[..|ids| - 1]), ids[|ids| - 1]);
      hide HitStep;
    }
  }

  // ---- the invariant ---------------------------------------------------

  ghost predicate CursorOk(v: View, c: Cursor, bound: real)
    requires v.Valid()
  {
    Sound(v, c) && (c.last.Some? ==> c.last.value <= bound)
  }

  ghost predicate CursorsOk(q: Query, s: State)
    requires QueryOk(q)
  {
    |s.cursors| == |q.views| && s.work.rt.bound >= 0.0 &&
    forall t :: 0 <= t < |q.views| ==> CursorOk(q.views[t], s.cursors[t], s.work.rt.bound)
  }

  /** The engine's ledger and the strategy's say the same. */
  ghost predicate Lockstep(q: Query, w: Work) {
    w.st.schedule.tableCount == |q.views| && SchedOk(w.st.schedule) &&
    w.rt.exhausted == w.st.schedule.exhausted && w.rt.exhaustedTables == w.st.schedule.exhaustedTables &&
    w.rt.completed == w.st.schedule.completed && w.rt.completedTables == w.st.schedule.completedTables &&
    w.rt.roundComplete == (w.rt.completedTables == |q.views|)
  }

  /** What a mark means for the cursor it is about. */
  ghost predicate MarkOk(v: View, c: Cursor, bound: real, exhausted: bool, completed: bool) {
    (exhausted <==> TableExhausted(v, c)) &&
    (completed ==> TableExhausted(v, c) || (c.last == Some(bound) && WindowExhausted(v, c)))
  }

  ghost predicate MarksOk(q: Query, s: State)
    requires |s.cursors| == |q.views| == |s.work.rt.exhausted| == |s.work.rt.completed|
  {
    forall t :: 0 <= t < |q.views| ==>
      MarkOk(q.views[t], s.cursors[t], s.work.rt.bound, s.work.rt.exhausted[t], s.work.rt.completed[t])
  }

  /** The ids a cursor has delivered so far. */
  ghost function Taken(v: View, c: Cursor): seq<nat> {
    if 0 <= c.left + 1 <= c.right <= |v.entries| then IdSeq(v.entries[c.left + 1..c.right]) else []
  }

  /** In how many of the first top tables point p has been delivered. */
  ghost function Collisions(views: seq<View>, cursors: seq<Cursor>, p: nat, top: nat): nat
    requires top <= |views| == |cursors|
  {
    if top == 0 then 0
    else Collisions(views, cursors, p, top - 1) + Occurrences(Taken(views[top - 1], cursors[top - 1]), p)
  }

  /** All entries delivered so far. */
  ghost function Consumed(views: seq<View>, cursors: seq<Cursor>, top: nat): nat
    requires top <= |views| == |cursors|
  {
    if top == 0 then 0 else Consumed(views, cursors, top - 1) + |Taken(views[top - 1], cursors[top - 1])|
  }

  ghost function CountsOf(q: Query, cursors: seq<Cursor>): nat -> nat
    requires |q.views| == |cursors|
  {
    p => Collisions(q.views, cursors, p, |q.views|)
  }

  ghost predicate WindowOk(q: Query, rt: Runtime) {
    WindowBound(q, rt.radius) == Some(rt.bound)
  }

  /** What holds at every turn of the loop, whoever is waiting. */
  ghost predicate Core(q: Query, s: State) {
    QueryOk(q) && WorkOk(q, s.work) && !s.work.thrown && WindowOk(q, s.work.rt) && CursorsOk(q, s) &&
    Lockstep(q, s.work) && MarksOk(q, s) &&
    WorkInv(q, s.work, CountsOf(q, s.cursors)) && s.work.rt.hits == Consumed(q.views, s.cursors, |q.views|)
  }

  ghost predicate Ready(q: Query, s: State) {
    Core(q, s) && Waiting(s.work.st.schedule, None)
  }

  /** Acting on what the strategy asked for. */
  ghost function Act(q: Query, s: State, action: Action, allExhausted: bool): State
    requires action.ScanTable? ==> CanScan(q, s, action.table)
    requires Sized(s.work.st.schedule)
  {
    match action
    case Finish => s.(outcome := Finished(if allExhausted then ScanExhausted else ByStrategy))
    case ScanTable(table) => ScanStep(q, s, table)
    case AdvanceRadius =>
      match NextRadius(q, s.work.rt.radius)
      case None => s.(outcome := Threw)
      case Some(radius) =>
        match WindowBound(q, radius)
        case None => s.(outcome := Threw)
        case Some(bound) => s.(work := Widened(s.work, radius, bound))
  }

  /** One turn of the engine loop. */
  ghost function Turn(q: Query, s: State): State
    requires s.outcome.Running? ==> Ready(q, s)
  {
    if !s.outcome.Running? then s
    else
      var before := Snap(q, s.work.rt);
      var (st, action) := NextAction(q.rules, q.start, s.work.st, before);
      ActionFits(q, s);
      Act(q, s.(work := s.work.(st := st)), action, before.allExhausted)
  }

  /** The strategy only asks for what the engine can do: its table number is valid. */
  lemma ActionFits(q: Query, s: State)
    requires Ready(q, s)
    ensures var (st, action) := NextAction(q.rules, q.start, s.work.st, Snap(q, s.work.rt));
            var s1 := s.(work := s.work.(st := st));
            Sized(st.schedule) && (action.ScanTable? ==> CanScan(q, s1, action.table))
  {
    var (st, action) := NextAction(q.rules, q.start, s.work.st, Snap(q, s.work.rt));
    if action.ScanTable? {
      var table := action.table;
      assert table == s.work.st.schedule.pending[0] && table in s.work.st.schedule.pending;
      assert TableOk(q, q.views[table]);
      assert CursorOk(q.views[table], s.cursors[table], s.work.rt.bound);
      hide Sound, WorkInv, MarksOk, ShouldTerminate;
    }
  }

  /** A turn by what the strategy chose. */
  lemma TurnCases(q: Query, s: State)
    requires s.outcome.Running? && Ready(q, s)
    ensures !s.work.thrown && q.start.k > 0 && |s.work.rt.exhausted| == |s.work.rt.completed|
    ensures var (st, action) := NextAction(q.rules, q.start, s.work.st, Snap(q, s.work.rt));
            var s1 := s.(work := s.work.(st := st));
            Sized(st.schedule) &&
            match action
            case Finish =>
              var reason := if Snap(q, s.work.rt).allExhausted then ScanExhausted else ByStrategy;
              Turn(q, s) == s1.(outcome := Finished(reason))
            case ScanTable(table) => CanScan(q, s1, table) && Turn(q, s) == ScanStep(q, s1, table)
            case AdvanceRadius => Turn(q, s) == Act(q, s1, AdvanceRadius, false)
  {
    ActionFits(q, s);
    hide CanScan, ScanStep, NextAction, Sized, NextRadius, WindowBound;
  }
}
