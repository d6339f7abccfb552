/** How a search of representable points ends: with an answer exactly when one of its
    rounds covers every projection, and with an error exactly when a round is refused
    before that. */
module SearchFinishes {
  import opened FlatCursor
  import opened Schedule
  import opened TopK
  import opened Strategy
  import opened Delivery
  import opened Engine
  import opened EngineInvariant
  import opened SearchSemantics
  import opened SearchExhaustion
  import opened SearchRounds
  import Submissions

  // ---- scans never fail ------------------------------------------------

  lemma {:induction false} DeliverSucceeds(q: Query, w: Work, ids: seq<nat>)
    requires WorkOk(q, w) && HitsOk(q, ids) && Representable(q) && !w.thrown
    ensures !Deliver(q, w, ids).thrown
  {
    if ids == [] {
    } else {
      DeliverSucceeds(q, w, ids[..|ids| - 1]);
      var before := Deliver(q, w, ids[..|ids| - 1]);
      hide HitStep, Representable, PointsOk;
      HitSucceeds(q, before, ids[|ids| - 1]);
    }
  }

  lemma HitSucceeds(q: Query, w: Work, p: nat)
    requires WorkOk(q, w) && p < q.start.numPoints && Representable(q) && !w.thrown
    ensures !HitStep(q, w, p).thrown
  {
    Submissions.EvaluateSucceeds(q, w.(rt := w.rt.(hits := w.rt.hits + 1), st := AcceptId(w.st, p).0), p);
    hide Evaluate, Representable;
  }

  lemma ScanSucceeds(q: Query, s: State, table: nat)
    requires CanScan(q, s, table) && Representable(q) && !s.work.thrown
    ensures var s' := ScanStep(q, s, table);
            s'.outcome.Running? && s'.work.rt.radius == s.work.rt.radius && s'.work.rt.bound == s.work.rt.bound
  {
    HitsInTable(q, s, table);
    var scan := FlatCursor.Scan(q.views[table], s.cursors[table], CallOf(q, s));
    var ids := IdSeq(scan.hits);
    DeliverSucceeds(q, s.work, ids);
    DeliverFrame(q, s.work, ids);
    hide Deliver, FlatCursor.Scan, IdSeq, OnScanBoundary, HitsOk;
  }

  // ---- the round a search is in ----------------------------------------

  /** After i advances: still at round i, or thrown out of it. */
  ghost predicate Tracked(q: Query, s: State, i: nat) {
    Short(q, i) && if s.outcome.Threw? then Refused(q, i) else AtRound(q, s, i)
  }

  lemma TrackScan(q: Query, s: State, table: nat, i: nat)
    requires Tracked(q, s, i) && s.outcome.Running? && CanScan(q, s, table) && Representable(q) && !s.work.thrown
    ensures Tracked(q, ScanStep(q, s, table), i)
  {
    ScanSucceeds(q, s, table);
    hide Short, Radii, CanScan, ScanStep, Representable;
  }

  lemma TrackAdvance(q: Query, s: State, i: nat)
    requires Tracked(q, s, i) && s.outcome.Running? && !Covers(q, i) && Sized(s.work.st.schedule)
    ensures Tracked(q, Act(q, s, AdvanceRadius, false), i + 1)
  {
    hide Covers, NextRadius, WindowBound, Sized, AdvanceSched;
  }

  /** A decision alone changes neither round nor outcome. */
  lemma TrackChoice(q: Query, s: State, st: StrategyState, reason: Reason, i: nat)
    requires Tracked(q, s, i) && s.outcome.Running?
    ensures Tracked(q, s.(work := s.work.(st := st)), i)
    ensures Tracked(q, s.(work := s.work.(st := st), outcome := Finished(reason)), i)
    ensures AtRound(q, s, i)
  {
    hide Short, Radii;
  }

  lemma TrackTurn(q: Query, s: State, i: nat) returns (j: nat)
    requires s.outcome.Running? && Ready(q, s) && Tracked(q, s, i) && PointsOk(q) && Representable(q)
    ensures Tracked(q, Turn(q, s), j)
  {
    hide *;
    TurnCases(q, s);
    var (st, action) := NextAction(q.rules, q.start, s.work.st, Snap(q, s.work.rt));
    var s1 := s.(work := s.work.(st := st));
    TrackChoice(q, s, st, if Snap(q, s.work.rt).allExhausted then ScanExhausted else ByStrategy, i);
    j := i;
    if action.ScanTable? {
      TrackScan(q, s1, action.table, i);
    } else if action.AdvanceRadius? {
      AdvanceIsShort(q, s, i);
      TrackAdvance(q, s1, i);
      j := i + 1;
    }
  }

  lemma TracksStart(q: Query)
    requires Startable(q)
    ensures Tracked(q, SearchAfter(q, 0), 0)
  {
    SearchBegins(q);
    hide SearchAfter, Ready;
  }

  lemma {:induction false} Tracks(q: Query, turns: nat) returns (i: nat)
    requires Startable(q) && PointsOk(q) && Representable(q)
    ensures Tracked(q, SearchAfter(q, turns), i)
  {
    hide *;
    if turns == 0 {
      TracksStart(q);
      i := 0;
    } else {
      SearchNext(q, turns - 1);
      i := Tracks(q, turns - 1);
      if SearchAfter(q, turns - 1).outcome.Running? {
        i := TrackTurn(q, SearchAfter(q, turns - 1), i);
      }
    }
  }

  // ---- how it ends -----------------------------------------------------

  ghost predicate FinishedAfter(q: Query, turns: nat)
    requires Startable(q)
  {
    SearchAfter(q, turns).outcome.Finished?
  }

  ghost predicate ThrewAfter(q: Query, turns: nat)
    requires Startable(q)
  {
    SearchAfter(q, turns).outcome.Threw?
  }

  /** The round that ended the search: it covers everything, or was refused first. */
  ghost predicate FailsAt(q: Query, i: nat) {
    Refused(q, i) && Short(q, i)
  }

  lemma EndedHow(q: Query, turns: nat)
    requires Startable(q) && Ended(q, turns)
    ensures FinishedAfter(q, turns) || ThrewAfter(q, turns)
  {
    hide SearchAfter;
  }

  lemma ThrewWhere(q: Query, turns: nat) returns (i: nat)
    requires Startable(q) && Representable(q) && ThrewAfter(q, turns)
    ensures FailsAt(q, i)
  {
    assert PointsOk(q);
    hide SearchAfter, Startable, Representable, Short, Refused;
    i := Tracks(q, turns);
  }

  /** With a rule that never fires, a search finishes at a round that covers everything. */
  lemma FinishedWhere(q: Query, turns: nat) returns (i: nat)
    requires Startable(q) && Representable(q) && NeverFires(q.rules) && FinishedAfter(q, turns)
    ensures Covers(q, i)
  {
    var s := SearchAfter(q, turns);
    FinishedFacts(q, s);
    assert Core(q, s) && UsedUp(s.work.rt);
    i := Tracks(q, turns);
    hide Core, SearchAfter, Startable, Representable, UsedUp, Radii;
    UsedUpCovers(q, s);
  }

  /** A search cannot both cover everything and be refused first. */
  lemma NotBoth(q: Query, i: nat, j: nat)
    requires Covers(q, i)
    ensures !FailsAt(q, j)
  {
    hide Radii, Spread;
    if Refused(q, j) && j <= i {
      RefusedStays(q, j, i);
    }
  }

  /** Whatever the rules: with a round that covers everything the search finishes. */
  lemma SearchFinishes(q: Query, i: nat)
    requires Startable(q) && Representable(q) && Covers(q, i)
    ensures exists n :: FinishedAfter(q, n)
  {
    assert Stops(q, i);
    hide *;
    EverySearchEnds(q, i);
    var n :| Ended(q, n);
    EndedHow(q, n);
    if ThrewAfter(q, n) {
      var j := ThrewWhere(q, n);
      NotBoth(q, i, j);
    }
  }

  /** And with a rule that never fires only then: exactly when some radius the search
      reaches has a window over every projection. */
  lemma FinishesExactly(q: Query)
    requires Startable(q) && Representable(q) && NeverFires(q.rules)
    ensures (exists n :: FinishedAfter(q, n)) <==> exists i :: Covers(q, i)
  {
    hide *;
    if n :| FinishedAfter(q, n) {
      var i := FinishedWhere(q, n);
    }
    if i :| Covers(q, i) {
      SearchFinishes(q, i);
    }
  }

  /** It throws exactly when a radius or its window is refused before that. */
  lemma ThrowsExactly(q: Query)
    requires Startable(q) && Representable(q) && NeverFires(q.rules)
    ensures (exists n :: ThrewAfter(q, n)) <==> exists i :: FailsAt(q, i)
  {
    hide *;
    if n :| ThrewAfter(q, n) {
      var i := ThrewWhere(q, n);
    }
    if i :| FailsAt(q, i) {
      FailingSearchThrows(q, i);
    }
  }

  lemma FailingSearchThrows(q: Query, i: nat)
    requires Startable(q) && Representable(q) && NeverFires(q.rules) && FailsAt(q, i)
    ensures exists n :: ThrewAfter(q, n)
  {
    assert Stops(q, i);
    hide *;
    EverySearchEnds(q, i);
    var n :| Ended(q, n);
    EndedHow(q, n);
    if FinishedAfter(q, n) {
      var j := FinishedWhere(q, n);
      NotBoth(q, j, i);
    }
  }

  /** Where radii cannot grow for ever, float32 included, it does one or the other. */
  lemma FinishesOrThrows(q: Query, limit: nat)
    requires Startable(q) && Representable(q) && NeverFires(q.rules) && Stops(q, limit)
    ensures (exists n :: FinishedAfter(q, n)) <==> !exists n :: ThrewAfter(q, n)
  {
    hide *;
    EverySearchEnds(q, limit);
    var n :| Ended(q, n);
    EndedHow(q, n);
    if m, w :| FinishedAfter(q, m) && ThrewAfter(q, w) {
      var i := FinishedWhere(q, m);
      var j := ThrewWhere(q, w);
      NotBoth(q, i, j);
    }
  }

  /** The exact k nearest of all points, whatever the data, the threshold and the
      quantum, once nothing stops the search before its windows cover everything. */
  lemma UnhurriedSearchIsExact(q: Query, i: nat)
    requires Startable(q) && Representable(q) && NeverFires(q.rules) && Covers(q, i)
    ensures exists n :: FinishedAfter(q, n) &&
              var all := AllPoints(q.start.numPoints);
              Known(all, Distances(q)) && IsTopK(SearchAfter(q, n).work.rt.neighbors, q.start.k, all, Distances(q))
  {
    SearchFinishes(q, i);
    var n :| FinishedAfter(q, n);
    assert SearchAfter(q, n).outcome.Finished?;
    hide SearchAfter, IsTopK, Distances;
    ExhaustionIsExact(q, n);
  }
}
