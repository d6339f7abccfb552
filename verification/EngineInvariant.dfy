/** Every turn of the search loop keeps the engine and the strategy in lockstep and
    every collision counter true to the entries delivered. */
module EngineInvariant {
  import opened Tables
  import opened FlatCursor
  import opened Schedule
  import opened Strategy
  import opened Delivery
  import opened Engine

  // ---- counting occurrences --------------------------------------------

  lemma {:induction false} OccurrencesConcat(a: seq<nat>, b: seq<nat>, p: nat)
    ensures Occurrences(a + b, p) == Occurrences(a, p) + Occurrences(b, p)
  {
    if b == [] {
      assert a + b == a;
    } else {
      OccurrencesConcat(a, b[..|b| - 1], p);
      assert (a + b)[..|a + b| - 1] == a + b[..|b| - 1];
    }
  }

  lemma IdSeqConcat(a: seq<Entry>, b: seq<Entry>)
    ensures IdSeq(a + b) == IdSeq(a) + IdSeq(b)
  {}

  lemma {:induction false} BackwardOccurrences(t: seq<Entry>, lo: nat, hi: nat, p: nat)
    requires lo <= hi <= |t|
    ensures Occurrences(IdSeq(Backward(t, lo, hi)), p) == Occurrences(IdSeq(t[lo..hi]), p)
  {
    if lo == hi {
    } else {
      BackwardOccurrences(t, lo, hi - 1, p);
      assert t[lo..hi] == t[lo..hi - 1] + [t[hi - 1]];
      assert Backward(t, lo, hi) == [t[hi - 1]] + Backward(t, lo, hi - 1);
      IdSeqConcat(t[lo..hi - 1], [t[hi - 1]]);
      IdSeqConcat([t[hi - 1]], Backward(t, lo, hi - 1));
      OccurrencesConcat(IdSeq(t[lo..hi - 1]), IdSeq([t[hi - 1]]), p);
      OccurrencesConcat(IdSeq([t[hi - 1]]), IdSeq(Backward(t, lo, hi - 1)), p);
    }
  }

  lemma SliceOccurrences(t: seq<Entry>, a: nat, b: nat, c: nat, p: nat)
    requires a <= b <= c <= |t|
    ensures Occurrences(IdSeq(t[a..c]), p) == Occurrences(IdSeq(t[a..b]), p) + Occurrences(IdSeq(t[b..c]), p)
  {
    assert t[a..c] == t[a..b] + t[b..c];
    IdSeqConcat(t[a..b], t[b..c]);
    OccurrencesConcat(IdSeq(t[a..b]), IdSeq(t[b..c]), p);
  }

  /** What a scan sweeps is what it adds to the delivered ids. */
  lemma TakenGrows(v: View, c: Cursor, d: Cursor, p: nat)
    requires v.Valid() && Sound(v, c) && Sound(v, d) && d.left <= c.left && c.right <= d.right
    ensures InBounds(v, c) && InBounds(v, d)
    ensures Occurrences(Taken(v, d), p) == Occurrences(Taken(v, c), p) + Occurrences(IdSeq(Swept(v, c, d)), p)
    ensures |Taken(v, d)| == |Taken(v, c)| + |Swept(v, c, d)|
  {
    TakenIs(v, c);
    TakenIs(v, d);
    assert |Swept(v, c, d)| == (c.left - d.left) + (d.right - c.right);
    var t, a, b := v.entries, d.left + 1, c.left + 1;
    hide Sound, Occurrences, Backward, IdSeq, Taken;
    SweepOccurrences(t, a, b, c.right, d.right, p);
    assert Swept(v, c, d) == Backward(t, a, b) + t[c.right..d.right];
  }

  lemma TakenIs(v: View, c: Cursor)
    requires v.Valid() && Sound(v, c)
    ensures 0 <= c.left + 1 <= c.right <= |v.entries| && InBounds(v, c)
    ensures Taken(v, c) == IdSeq(v.entries[c.left + 1..c.right]) && |Taken(v, c)| == c.right - c.left - 1
  {
    SoundBounds(v, c);
  }

  lemma SweepOccurrences(t: seq<Entry>, a: nat, b: nat, c: nat, d: nat, p: nat)
    requires a <= b <= c <= d <= |t|
    ensures Occurrences(IdSeq(t[a..d]), p)
         == Occurrences(IdSeq(t[b..c]), p) + Occurrences(IdSeq(Backward(t, a, b) + t[c..d]), p)
  {
    SliceOccurrences(t, a, b, d, p);
    SliceOccurrences(t, b, c, d, p);
    BackwardOccurrences(t, a, b, p);
    IdSeqConcat(Backward(t, a, b), t[c..d]);
    OccurrencesConcat(IdSeq(Backward(t, a, b)), IdSeq(t[c..d]), p);
  }

  lemma {:induction false} CollisionsUpdate(views: seq<View>, cursors: seq<Cursor>, t: nat, d: Cursor, p: nat,
                                            more: nat, top: nat)
    requires top <= |views| == |cursors| && t < |views|
    requires Occurrences(Taken(views[t], d), p) == Occurrences(Taken(views[t], cursors[t]), p) + more
    ensures Collisions(views, cursors[t := d], p, top) ==
            Collisions(views, cursors, p, top) + if t < top then more else 0
  {
    hide Taken, Occurrences;
    if top == 0 {
    } else {
      CollisionsUpdate(views, cursors, t, d, p, more, top - 1);
    }
  }

  lemma {:induction false} ConsumedUpdate(views: seq<View>, cursors: seq<Cursor>, t: nat, d: Cursor, more: nat,
                                          top: nat)
    requires top <= |views| == |cursors| && t < |views|
    requires |Taken(views[t], d)| == |Taken(views[t], cursors[t])| + more
    ensures Consumed(views, cursors[t := d], top) == Consumed(views, cursors, top) + if t < top then more else 0
  {
    hide Taken;
    if top == 0 {
    } else {
      ConsumedUpdate(views, cursors, t, d, more, top - 1);
    }
  }

  // ---- the beginning ---------------------------------------------------

  ghost function Begin(q: Query): State
    requires Startable(q)
  {
    var count := |q.views|;
    State(seq(count, t requires 0 <= t < count => assert TableOk(q, q.views[t]); Reset(q.views[t])),
          Work(Runtime(q.radius, WindowBound(q, q.radius).value, 0, 0, false, {}, seq(count, _ => false), 0,
                       seq(count, _ => false), 0, [], []),
               StartStrategy(q.rules, q.start), false), Running)
  }

  lemma BoundNonNegative(q: Query, radius: real)
    ensures WindowBound(q, radius).Some? ==> WindowBound(q, radius).value >= 0.0
  {
    assert KeepsOrder(q.start.fl, 0.0, HalfWidth(q, radius));
  }

  lemma ResetTakesNothing(v: View)
    requires v.Valid()
    ensures Taken(v, Reset(v)) == [] && !TableExhausted(v, Reset(v))
  {}

  lemma {:induction false} BeginCounts(q: Query, p: nat, top: nat)
    requires Startable(q) && top <= |q.views|
    ensures Collisions(q.views, Begin(q).cursors, p, top) == 0 && Consumed(q.views, Begin(q).cursors, top) == 0
  {
    if top == 0 {
    } else {
      BeginCounts(q, p, top - 1);
      assert TableOk(q, q.views[top - 1]);
      ResetTakesNothing(q.views[top - 1]);
      assert Begin(q).cursors[top - 1] == Reset(q.views[top - 1]);
      hide Begin, Taken, TableOk, QueryOk, WindowBound, LowerBound;
    }
  }

  lemma BeginWork(q: Query)
    requires Startable(q)
    ensures var s := Begin(q); WorkOk(q, s.work) && WorkInv(q, s.work, CountsOf(q, s.cursors)) &&
                               s.work.rt.hits == Consumed(q.views, s.cursors, |q.views|)
  {
    var s := Begin(q);
    BeginCounts(q, 0, |q.views|);
    assert ResultsOk(q, s.work.rt);
    assert Justified(q, s.work.rt, s.work.st);
    hide Distances, Collisions, Consumed, Begin;
    forall p | 0 <= p < q.start.numPoints
      ensures CountedAt(q, s.work, p, CountsOf(q, s.cursors)(p))
    {
      BeginCounts(q, p, |q.views|);
    }
  }

  lemma BeginReady(q: Query)
    requires Startable(q)
    ensures Ready(q, Begin(q))
  {
    var s := Begin(q);
    BeginWork(q);
    BoundNonNegative(q, q.radius);
    StartSchedOk(|q.views|);
    forall t | 0 <= t < |q.views|
      ensures CursorOk(q.views[t], s.cursors[t], s.work.rt.bound)
      ensures MarkOk(q.views[t], s.cursors[t], s.work.rt.bound, false, false)
    {
      assert TableOk(q, q.views[t]);
      BeginSound(q.views[t]);
      ResetTakesNothing(q.views[t]);
    }
  }

  // ---- scanning --------------------------------------------------------

  /** The strategy's choice leaves the invariant alone, and a decision to finish is
      justified. */
  lemma ChoiceKeeps(q: Query, s: State)
    requires Ready(q, s)
    ensures var (st, action) := NextAction(q.rules, q.start, s.work.st, Snap(q, s.work.rt));
            var s1 := s.(work := s.work.(st := st));
            Core(q, s1) && (st.finishRequested <==> action.Finish?) &&
            (action.ScanTable? ==> action.table < |q.views| && Waiting(st.schedule, Some(action.table)) &&
                                   !s.work.rt.completed[action.table])
  {
    var (st, action) := NextAction(q.rules, q.start, s.work.st, Snap(q, s.work.rt));
    var s1 := s.(work := s.work.(st := st));
    if action.ScanTable? {
      TakeKeeps(s.work.st.schedule);
    }
    ChoiceJustified(q, s);
    CountedSame(q, s.work, s1.work, CountsOf(q, s.cursors));
    hide CursorsOk, Waiting, CountsOf, Collisions, Consumed, Counted, ResultsOk, ShouldTerminate, MarkOk, PointsOk,
         LedgerOk, WindowOk, Justified;
    assert Lockstep(q, s1.work);
    assert MarksOk(q, s1) by { assert MarksOk(q, s); }
    assert CursorsOk(q, s1) by { SameCursors(q, s, s1); }
  }

  lemma ChoiceJustified(q: Query, s: State)
    requires Ready(q, s)
    ensures Justified(q, s.work.rt, NextAction(q.rules, q.start, s.work.st, Snap(q, s.work.rt)).0)
  {
    hide WorkOk, CursorsOk, MarksOk, Consumed, CountsOf, Counted, ResultsOk, WindowOk, LedgerOk;
    if NeverFires(q.rules) {
      NeverTerminates(q.rules, q.start, Snap(q, s.work.rt));
    }
  }

  lemma SameCursors(q: Query, s: State, s1: State)
    requires QueryOk(q) && CursorsOk(q, s) && s1.cursors == s.cursors && s1.work.rt.bound == s.work.rt.bound
    ensures CursorsOk(q, s1)
  {}

  lemma CountedSame(q: Query, w: Work, w1: Work, counts: nat -> nat)
    requires WorkOk(q, w) && WorkInv(q, w, counts) && w1.rt == w.rt && w1.st.remaining == w.st.remaining
    requires (w.st.finishRequested ==> w1.st.finishRequested) && Justified(q, w1.rt, w1.st)
    ensures WorkOk(q, w1) && WorkInv(q, w1, counts)
  {
    forall p | 0 <= p < q.start.numPoints
      ensures CountedAt(q, w1, p, counts(p))
    {
      assert CountedAt(q, w, p, counts(p));
    }
  }

  /** Delivering a scan's hits counts exactly the entries the cursor moved over. */
  lemma ScanCounts(q: Query, s: State, table: nat)
    requires CanScan(q, s, table) && Core(q, s)
    ensures var scan := FlatCursor.Scan(q.views[table], s.cursors[table], CallOf(q, s));
            HitsOk(q, IdSeq(scan.hits)) &&
            var w, cursors := Deliver(q, s.work, IdSeq(scan.hits)), s.cursors[table := scan.cursor];
            !w.thrown ==> WorkInv(q, w, CountsOf(q, cursors)) && w.rt.hits == Consumed(q.views, cursors, |q.views|)
  {
    var v, c := q.views[table], s.cursors[table];
    assert TableOk(q, v);
    HitsInTable(q, s, table);
    ScanSound(v, c, CallOf(q, s));
    hide FlatCursor.Scan, Sound, WorkInv, MarksOk, Lockstep, CursorsOk, QueryOk, Taken, Occurrences, Deliver, Backward,
         HitsOk, IdSeq;
    var scan := FlatCursor.Scan(v, c, CallOf(q, s));
    var ids := IdSeq(scan.hits);
    var cursors := s.cursors[table := scan.cursor];
    forall p: nat | p < q.start.numPoints
      ensures CountsOf(q, cursors)(p) == CountsOf(q, s.cursors)(p) + Occurrences(ids, p)
    {
      TakenGrows(v, c, scan.cursor, p);
      CollisionsUpdate(q.views, s.cursors, table, scan.cursor, p, Occurrences(ids, p), |q.views|);
    }
    TakenGrows(v, c, scan.cursor, 0);
    ConsumedUpdate(q.views, s.cursors, table, scan.cursor, |ids|, |q.views|);
    DeliverKeeps(q, s.work, ids, CountsOf(q, s.cursors), CountsOf(q, cursors));
  }

  /** Both ledgers take the same report the same way, and the table either waits
      again or is complete. */
  lemma BoundaryLockstep(q: Query, w: Work, table: nat, report: Report)
    requires q.start.k > 0 && Lockstep(q, w) && table < |q.views| && !w.rt.completed[table]
    requires Waiting(w.st.schedule, Some(table))
    ensures !w.rt.exhausted[table]
    ensures var w' := Boundary(q, w, table, report);
            Lockstep(q, w') && Waiting(w'.st.schedule, None) &&
            w'.rt.exhausted == w.rt.exhausted[table := report.tableExhausted] &&
            w'.rt.completed == w.rt.completed[table := report.windowExhausted || report.tableExhausted]
  {
    BoundaryKeeps(w.st.schedule, table, report);
    assert w.rt.exhausted[table] == w.st.schedule.exhausted[table];
    hide Waiting, CountTrue, ShouldTerminate;
    var w' := Boundary(q, w, table, report);
    assert w.rt.exhausted[table := false] == w.rt.exhausted;
    assert w.rt.completed[table := false] == w.rt.completed;
    assert w'.st.schedule == BoundarySched(w.st.schedule, table, report);
  }

  /** The ledger update does not touch the counters or the results. */
  lemma BoundaryWork(q: Query, w: Work, table: nat, report: Report, counts: nat -> nat)
    requires WorkOk(q, w) && WorkInv(q, w, counts) && Lockstep(q, w) && table < |q.views|
    ensures var w' := Boundary(q, w, table, report);
            WorkOk(q, w') && WorkInv(q, w', counts) && w'.rt.hits == w.rt.hits && w'.rt.bound == w.rt.bound &&
            w'.thrown == w.thrown && w'.rt.radius == w.rt.radius
  {
    var w' := Boundary(q, w, table, report);
    assert WorkOk(q, w') && ResultsOk(q, w'.rt);
    forall p | 0 <= p < q.start.numPoints
      ensures CountedAt(q, w', p, counts(p))
    {
      assert CountedAt(q, w, p, counts(p));
    }
    BoundaryJustified(q, w, table, report);
  }

  lemma BoundaryJustified(q: Query, w: Work, table: nat, report: Report)
    requires q.start.k > 0 && Justified(q, w.rt, w.st) && Lockstep(q, w) && table < |q.views|
    ensures var w' := Boundary(q, w, table, report); Justified(q, w'.rt, w'.st)
  {
    var rt := MarkReport(w.rt, table, report);
    CountUpdate(w.rt.exhausted, table);
    assert rt.exhaustedTables == CountTrue(rt.exhausted) <= |rt.exhausted|;
    if NeverFires(q.rules) {
      NeverTerminates(q.rules, q.start, Snap(q, rt));
    }
  }

  lemma ScanMarks(q: Query, s: State, table: nat, c: Cursor, w: Work, report: Report)
    requires QueryOk(q) && CursorsOk(q, s) && table < |q.views|
    requires |s.work.rt.exhausted| == |s.work.rt.completed| == |q.views| && MarksOk(q, s)
    requires Sound(q.views[table], c) && c.last == Some(s.work.rt.bound) && w.rt.bound == s.work.rt.bound
    requires report.windowExhausted == WindowExhausted(q.views[table], c)
    requires report.tableExhausted == TableExhausted(q.views[table], c)
    requires w.rt.exhausted == s.work.rt.exhausted[table := report.tableExhausted]
    requires w.rt.completed == s.work.rt.completed[table := report.windowExhausted || report.tableExhausted]
    ensures var s' := State(s.cursors[table := c], w, Running); CursorsOk(q, s') && MarksOk(q, s')
  {
    var s' := State(s.cursors[table := c], w, Running);
    forall t | 0 <= t < |q.views|
      ensures CursorOk(q.views[t], s'.cursors[t], w.rt.bound)
      ensures MarkOk(q.views[t], s'.cursors[t], w.rt.bound, w.rt.exhausted[t], w.rt.completed[t])
    {
      assert CursorOk(q.views[t], s.cursors[t], s.work.rt.bound);
      assert MarkOk(q.views[t], s.cursors[t], s.work.rt.bound, s.work.rt.exhausted[t], s.work.rt.completed[t]);
    }
  }

  lemma ScanReports(v: View, c: Cursor, call: Call)
    requires v.Valid() && InBounds(v, c) && Admissible(c, call)
    ensures var scan := FlatCursor.Scan(v, c, call);
            scan.report.windowExhausted == WindowExhausted(v, scan.cursor) &&
            scan.report.tableExhausted == TableExhausted(v, scan.cursor)
  {}

  /** Delivery leaves the ledgers as they were. */
  lemma FrameLockstep(q: Query, w: Work, w': Work)
    requires SameFrame(w, w') && Lockstep(q, w)
    ensures Lockstep(q, w')
  {}

  lemma ScanKeeps(q: Query, s: State, table: nat)
    requires Core(q, s) && table < |q.views| && !s.work.rt.completed[table] && Waiting(s.work.st.schedule, Some(table))
    ensures CanScan(q, s, table)
    ensures var s' := ScanStep(q, s, table); s'.outcome.Threw? || (s'.outcome.Running? && Ready(q, s'))
  {
    CoreScans(q, s, table);
    ScanCounts(q, s, table);
    var v, c := q.views[table], s.cursors[table];
    HitsInTable(q, s, table);
    ScanSound(v, c, CallOf(q, s));
    ScanReports(v, c, CallOf(q, s));
    var scan := FlatCursor.Scan(v, c, CallOf(q, s));
    var ids := IdSeq(scan.hits);
    DeliverFrame(q, s.work, ids);
    var w := Deliver(q, s.work, ids);
    var cursors := s.cursors[table := scan.cursor];
    hide FlatCursor.Scan, Sound, WorkInv, MarksOk, Lockstep, CursorsOk, QueryOk, Deliver, IdSeq, Waiting, MarkReport,
         WorkOk, CanScan, CountsOf, Consumed, Swept, TableExhausted, WindowExhausted, Boundary, HitsOk;
    if !w.thrown {
      FrameLockstep(q, s.work, w);
      BoundaryLockstep(q, w, table, scan.report);
      BoundaryWork(q, w, table, scan.report, CountsOf(q, cursors));
      ScanMarks(q, s, table, scan.cursor, Boundary(q, w, table, scan.report), scan.report);
      var s' := State(cursors, Boundary(q, w, table, scan.report), Running);
      assert Core(q, s');
    }
  }

  lemma CoreScans(q: Query, s: State, table: nat)
    requires Core(q, s) && table < |q.views|
    ensures CanScan(q, s, table)
  {
    assert TableOk(q, q.views[table]);
    assert CursorOk(q.views[table], s.cursors[table], s.work.rt.bound);
    hide Sound, WorkInv, MarksOk;
  }

  // ---- the other turns -------------------------------------------------

  /** A larger radius never means a smaller window, rounding included. */
  lemma WindowGrows(q: Query, radius: real, next: real)
    requires q.width > 0.0 && q.growth > 1.0 && NextRadius(q, radius) == Some(next)
    ensures WindowBound(q, radius).Some? && WindowBound(q, next).Some? ==>
              WindowBound(q, radius).value <= WindowBound(q, next).value
  {
    HalfWidthGrows(q, radius, next);
    assert KeepsOrder(q.start.fl, HalfWidth(q, radius), HalfWidth(q, next));
  }

  lemma HalfWidthGrows(q: Query, radius: real, next: real)
    requires q.width > 0.0 && radius < next
    ensures HalfWidth(q, radius) < HalfWidth(q, next)
  {
    assert q.width * (next - radius) > 0.0;
    assert q.width * (next - radius) == q.width * next - q.width * radius;
  }

  lemma AdvanceCursors(q: Query, s: State, w: Work)
    requires QueryOk(q) && CursorsOk(q, s) && s.work.rt.bound <= w.rt.bound
    requires |s.work.rt.exhausted| == |s.work.rt.completed| == |q.views| && MarksOk(q, s)
    requires w.rt.exhausted == w.rt.completed == s.work.rt.exhausted
    ensures CursorsOk(q, s.(work := w)) && MarksOk(q, s.(work := w))
  {
    forall t | 0 <= t < |q.views|
      ensures CursorOk(q.views[t], s.cursors[t], w.rt.bound)
      ensures MarkOk(q.views[t], s.cursors[t], w.rt.bound, w.rt.exhausted[t], w.rt.completed[t])
    {
      assert CursorOk(q.views[t], s.cursors[t], s.work.rt.bound);
      assert MarkOk(q.views[t], s.cursors[t], s.work.rt.bound, s.work.rt.exhausted[t], s.work.rt.completed[t]);
    }
  }

  lemma WidenedKeeps(q: Query, s: State, radius: real, bound: real)
    requires Core(q, s) && !s.work.st.finishRequested
    requires NextRadius(q, s.work.rt.radius) == Some(radius) && WindowBound(q, radius) == Some(bound)
    ensures Ready(q, s.(work := Widened(s.work, radius, bound)))
  {
    var w := Widened(s.work, radius, bound);
    WindowGrows(q, s.work.rt.radius, radius);
    AdvanceCursors(q, s, w);
    Schedule.AdvanceKeeps(s.work.st.schedule);
    assert Lockstep(q, w);
    WidenedWork(q, s.work, w, CountsOf(q, s.cursors));
    hide CursorsOk, MarksOk, CountsOf, Consumed, Lockstep, Waiting, PointsOk, WorkInv, QueryOk;
  }

  /** What has been counted and found does not depend on the radius. */
  lemma WidenedWork(q: Query, w0: Work, w: Work, counts: nat -> nat)
    requires WorkOk(q, w0) && WorkInv(q, w0, counts) && !w0.st.finishRequested && !w.st.finishRequested
    requires w.st.remaining == w0.st.remaining && w.rt.seen == w0.rt.seen && w.rt.evaluated == w0.rt.evaluated
    requires w.rt.neighbors == w0.rt.neighbors && w.rt.log == w0.rt.log
    ensures WorkOk(q, w) && WorkInv(q, w, counts)
  {
    forall p | 0 <= p < q.start.numPoints
      ensures CountedAt(q, w, p, counts(p))
    {
      assert CountedAt(q, w0, p, counts(p));
    }
  }

  /** The state after a turn: the invariant, unless an error ended the search; a
      finished search says truthfully whether its tables were used up. */
  ghost predicate RunOk(q: Query, s: State) {
    (!s.outcome.Threw? ==> Core(q, s)) && (s.outcome.Running? ==> Ready(q, s)) &&
    (s.outcome.Finished? ==>
       s.work.st.finishRequested &&
       (s.outcome.reason.ScanExhausted? <==> s.work.rt.exhaustedTables == |s.work.rt.exhausted|))
  }

  lemma FinishKeeps(q: Query, s: State, reason: Reason)
    requires Core(q, s) && s.work.st.finishRequested
    requires reason.ScanExhausted? <==> Snap(q, s.work.rt).allExhausted
    ensures RunOk(q, s.(outcome := Finished(reason)))
  {
    var s' := s.(outcome := Finished(reason));
    hide WorkInv, MarkOk, CursorOk, CountTrue;
    assert CursorsOk(q, s') && MarksOk(q, s');
  }

  lemma ScanTurnKeeps(q: Query, s: State, table: nat)
    requires Core(q, s) && table < |q.views| && !s.work.rt.completed[table] &&
             Waiting(s.work.st.schedule, Some(table))
    ensures CanScan(q, s, table) && RunOk(q, ScanStep(q, s, table))
  {
    ScanKeeps(q, s, table);
    assert ScanStep(q, s, table).outcome.Running? ==> Core(q, ScanStep(q, s, table));
    hide Core, Ready, ScanStep, CanScan, Waiting;
  }

  lemma AdvanceTurnKeeps(q: Query, s: State)
    requires Core(q, s) && !s.work.st.finishRequested && s.outcome.Running? && Sized(s.work.st.schedule)
    ensures RunOk(q, Act(q, s, AdvanceRadius, false))
  {
    var radius := NextRadius(q, s.work.rt.radius);
    if radius.Some? && WindowBound(q, radius.value).Some? {
      WidenedKeeps(q, s, radius.value, WindowBound(q, radius.value).value);
    }
    hide WorkOk, WorkInv, CursorsOk, MarksOk, Lockstep, Waiting, Widened, NextRadius, WindowBound, QueryOk, WindowOk,
         Consumed, CountsOf;
  }

  lemma StepKeeps(q: Query, s: State)
    requires RunOk(q, s)
    ensures RunOk(q, Turn(q, s))
  {
    assert s.outcome.Running? ==> Ready(q, s);
    assert !s.outcome.Running? ==> Turn(q, s) == s;
    hide *;
    if s.outcome.Running? {
      ChoiceKeeps(q, s);
      TurnCases(q, s);
      var (st, action) := NextAction(q.rules, q.start, s.work.st, Snap(q, s.work.rt));
      var s1 := s.(work := s.work.(st := st));
      match action {
        case Finish =>
          FinishKeeps(q, s1, if Snap(q, s.work.rt).allExhausted then ScanExhausted else ByStrategy);
        case ScanTable(table) =>
          ScanTurnKeeps(q, s1, table);
        case AdvanceRadius =>
          AdvanceTurnKeeps(q, s1);
      }
    }
  }

  /** A search after some number of turns. */
  ghost function SearchAfter(q: Query, turns: nat): (s: State)
    requires Startable(q)
    ensures RunOk(q, s)
  {
    if turns == 0 then
      BeginReady(q);
      Begin(q)
    else
      var s := SearchAfter(q, turns - 1);
      StepKeeps(q, s);
      Turn(q, s)
  }

  lemma SearchNext(q: Query, turns: nat)
    requires Startable(q)
    ensures var s := SearchAfter(q, turns);
            RunOk(q, s) && (s.outcome.Running? ==> Ready(q, s) && Core(q, s)) &&
            SearchAfter(q, turns + 1) == Turn(q, s) &&
            (!s.outcome.Running? ==> Turn(q, s) == s)
  {
    hide Core;
  }

  lemma SearchBegins(q: Query)
    requires Startable(q)
    ensures SearchAfter(q, 0) == Begin(q) && Ready(q, Begin(q))
    ensures Begin(q).outcome.Running? && !Begin(q).work.st.finishRequested && Begin(q).work.rt.radius == q.radius
  {
    BeginReady(q);
    hide Ready;
  }
}
