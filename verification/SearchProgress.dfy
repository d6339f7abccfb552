/** Scans use a round up: what is left to do in it falls with every turn. */
module SearchProgress {
  import opened Tables
  import opened FlatCursor
  import opened Schedule
  import opened Strategy
  import opened Delivery
  import opened Engine
  import opened EngineInvariant

  // ---- work left in a round --------------------------------------------

  /** Entries to deliver, sides still open, and the report that completes the table. */
  ghost function TableWork(v: View, c: Cursor, bound: real, completed: bool): nat {
    if completed || !InBounds(v, c) then 0 else Remaining(v, Reopen(c, bound)) + 1
  }

  ghost function RoundWork(views: seq<View>, cursors: seq<Cursor>, completed: seq<bool>, bound: real, top: nat): nat
    requires top <= |views| == |cursors| == |completed|
  {
    if top == 0 then 0
    else
      RoundWork(views, cursors, completed, bound, top - 1) +
      TableWork(views[top - 1], cursors[top - 1], bound, completed[top - 1])
  }

  lemma {:induction false} RoundWorkUpdate(views: seq<View>, cursors: seq<Cursor>, completed: seq<bool>, bound: real,
                                           t: nat, c: Cursor, done: bool, top: nat)
    requires top <= |views| == |cursors| == |completed| && t < |views|
    requires TableWork(views[t], c, bound, done) < TableWork(views[t], cursors[t], bound, completed[t])
    ensures RoundWork(views, cursors[t := c], completed[t := done], bound, top)
         <= RoundWork(views, cursors, completed, bound, top) - if t < top then 1 else 0
  {
    hide TableWork;
    if top == 0 {
    } else {
      RoundWorkUpdate(views, cursors, completed, bound, t, c, done, top - 1);
    }
  }

  /** A cursor with nothing to offer stays put and reports its window exhausted. */
  lemma NothingOpen(v: View, c: Cursor, call: Call)
    requires v.Valid() && InBounds(v, c) && Admissible(c, call) && WindowExhausted(v, Reopen(c, call.bound))
    ensures FlatCursor.Scan(v, c, call).report.windowExhausted
  {
    hide RegionOf, LowerBound;
    var c0 := Reopen(c, call.bound);
    assert LeftOffer(v, c0, LeftLimit(call.limit, call.scope), call.scope) == 0;
    assert ScanLeft(v, c0, call.bound, LeftLimit(call.limit, call.scope), call.scope) == (c0, []);
    assert RightOffer(v, c0, RightLimit(call.limit, call.scope, 0), call.scope) == 0;
  }

  /** One scan of an incomplete table uses up some of its work. */
  lemma ScanUsesWork(v: View, c: Cursor, call: Call)
    requires v.Valid() && Sound(v, c) && Admissible(c, call)
    ensures InBounds(v, c)
    ensures var scan := FlatCursor.Scan(v, c, call);
            TableWork(v, scan.cursor, call.bound, scan.report.windowExhausted || scan.report.tableExhausted)
              < TableWork(v, c, call.bound, false)
  {
    SoundBounds(v, c);
    ScanSound(v, c, call);
    if WindowExhausted(v, Reopen(c, call.bound)) {
      NothingOpen(v, c, call);
    } else {
      ScanProgress(v, c, call);
    }
    hide FlatCursor.Scan, Remaining, Sound, Swept;
    assert Reopen(FlatCursor.Scan(v, c, call).cursor, call.bound) == FlatCursor.Scan(v, c, call).cursor;
  }

  ghost function WorkLeft(q: Query, s: State): nat
    requires |q.views| == |s.cursors| == |s.work.rt.completed|
  {
    RoundWork(q.views, s.cursors, s.work.rt.completed, s.work.rt.bound, |q.views|)
  }

  lemma ScanStepUsesWork(q: Query, s: State, table: nat)
    requires Core(q, s) && table < |q.views| && !s.work.rt.completed[table] && Waiting(s.work.st.schedule, Some(table))
    requires CanScan(q, s, table) && ScanStep(q, s, table).outcome.Running?
    ensures var s' := ScanStep(q, s, table);
            |q.views| == |s'.cursors| == |s'.work.rt.completed| && WorkLeft(q, s') < WorkLeft(q, s) &&
            s'.work.rt.radius == s.work.rt.radius
  {
    var v, c := q.views[table], s.cursors[table];
    HitsInTable(q, s, table);
    var scan := FlatCursor.Scan(v, c, CallOf(q, s));
    var ids := IdSeq(scan.hits);
    DeliverFrame(q, s.work, ids);
    var w := Deliver(q, s.work, ids);
    ScanUsesWork(v, c, CallOf(q, s));
    hide FlatCursor.Scan, Sound, WorkInv, MarksOk, CursorsOk, QueryOk, Deliver, IdSeq, Waiting, TableWork, RoundWork,
         Lockstep, WorkOk, CountsOf, Consumed, BoundarySched, OnScanBoundary, HitsOk;
    FrameLockstep(q, s.work, w);
    BoundaryLockstep(q, w, table, scan.report);
    RoundWorkUpdate(q.views, s.cursors, s.work.rt.completed, s.work.rt.bound, table, scan.cursor,
                    scan.report.windowExhausted || scan.report.tableExhausted, |q.views|);
  }
}
