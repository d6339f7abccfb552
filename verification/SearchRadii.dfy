/** The radii and windows of a search as numbers: a geometric progression in rounded
    arithmetic, and windows of half the width times the radius. */
module SearchRadii {
  import opened Tables
  import opened FlatCursor
  import opened Schedule
  import opened Strategy
  import opened Delivery
  import opened Engine
  import opened EngineInvariant
  import opened SearchRounds
  import opened SearchFinishes

  /** The window of this radius: half the width times it, if a float32 holds that. */
  ghost predicate HasWindow(q: Query, radius: real, bound: real) {
    var half := q.width * radius / 2.0;
    0.0 <= half && half <= q.arith.maxFloat && bound == q.start.fl(half)
  }

  /** One advance: the radius times the growth, larger and still in range. */
  ghost predicate GrowsTo(q: Query, radius: real, next: real) {
    var product := radius * q.growth;
    next == q.start.fl(product) && radius < next && next <= q.arith.maxFloat
  }

  /** Radii from the initial one, each grown from the one before, each with a window. */
  ghost predicate Progression(q: Query, rounds: seq<Round>) {
    rounds != [] && rounds[0].radius == q.radius &&
    (forall i :: 0 <= i < |rounds| ==> HasWindow(q, rounds[i].radius, rounds[i].bound)) &&
    forall i :: 0 < i < |rounds| ==> GrowsTo(q, rounds[i - 1].radius, rounds[i].radius)
  }

  lemma WindowIs(q: Query, radius: real)
    ensures forall bound :: WindowBound(q, radius) == Some(bound) <==> HasWindow(q, radius, bound)
  {
    assert HalfWidth(q, radius) == q.width * radius / 2.0;
  }

  lemma NextIs(q: Query, radius: real)
    ensures forall next :: NextRadius(q, radius) == Some(next) <==> GrowsTo(q, radius, next)
  {
    assert Grown(q, radius) == radius * q.growth;
  }

  lemma ProgressionSnoc(q: Query, rounds: seq<Round>, next: Round)
    requires Progression(q, rounds) && GrowsTo(q, rounds[|rounds| - 1].radius, next.radius)
    requires HasWindow(q, next.radius, next.bound)
    ensures Progression(q, rounds + [next])
  {
    hide HasWindow, GrowsTo;
  }

  /** Round i of a search is reached exactly when there is a progression of i advances,
      and then it is its last member. */
  lemma {:induction false} ReachedBy(q: Query, i: nat) returns (rounds: seq<Round>)
    requires Radii(q, i).Some?
    ensures Progression(q, rounds) && |rounds| == i + 1 && rounds[i] == Radii(q, i).value
  {
    hide HasWindow, GrowsTo, WindowBound, NextRadius;
    var round := Radii(q, i).value;
    WindowIs(q, round.radius);
    if i == 0 {
      rounds := [round];
    } else {
      var before := ReachedBy(q, i - 1);
      NextIs(q, before[i - 1].radius);
      ProgressionSnoc(q, before, round);
      rounds := before + [round];
    }
  }

  lemma {:induction false} ReachesAll(q: Query, rounds: seq<Round>, i: nat)
    requires Progression(q, rounds) && i < |rounds|
    ensures Radii(q, i) == Some(rounds[i])
  {
    assert HasWindow(q, rounds[i].radius, rounds[i].bound);
    assert i > 0 ==> GrowsTo(q, rounds[i - 1].radius, rounds[i].radius);
    WindowIs(q, rounds[i].radius);
    if i == 0 {
      hide HasWindow, GrowsTo, WindowBound, NextRadius;
    } else {
      NextIs(q, rounds[i - 1].radius);
      hide HasWindow, GrowsTo, WindowBound, NextRadius;
      ReachesAll(q, rounds, i - 1);
    }
  }

  // ---- every run -------------------------------------------------------

  lemma ScanStays(q: Query, s: State, table: nat)
    requires CanScan(q, s, table) && ScanStep(q, s, table).outcome.Running?
    ensures var rt := ScanStep(q, s, table).work.rt; rt.radius == s.work.rt.radius && rt.bound == s.work.rt.bound
  {
    HitsInTable(q, s, table);
    var scan := FlatCursor.Scan(q.views[table], s.cursors[table], CallOf(q, s));
    DeliverFrame(q, s.work, IdSeq(scan.hits));
    hide Deliver, FlatCursor.Scan, IdSeq, OnScanBoundary, HitsOk;
  }

  lemma AdvanceMoves(q: Query, s: State, i: nat)
    requires AtRound(q, s, i) && Sized(s.work.st.schedule) && s.outcome.Running?
    requires !Act(q, s, AdvanceRadius, false).outcome.Threw?
    ensures AtRound(q, Act(q, s, AdvanceRadius, false), i + 1)
  {
    hide NextRadius, WindowBound, Sized, AdvanceSched;
  }

  lemma TurnRound(q: Query, s: State, i: nat) returns (j: nat)
    requires s.outcome.Running? && Ready(q, s) && AtRound(q, s, i)
    ensures !Turn(q, s).outcome.Threw? ==> AtRound(q, Turn(q, s), j)
  {
    assert forall st, outcome :: AtRound(q, s.(work := s.work.(st := st), outcome := outcome), i);
    hide *;
    TurnCases(q, s);
    var (st, action) := NextAction(q.rules, q.start, s.work.st, Snap(q, s.work.rt));
    var s1 := s.(work := s.work.(st := st));
    assert AtRound(q, s.(work := s.work.(st := st), outcome := s.outcome), i);
    j := i;
    if Turn(q, s).outcome.Threw? {
    } else if action.ScanTable? {
      StaysAt(q, s1, action.table, i);
    } else if action.AdvanceRadius? {
      AdvanceMoves(q, s1, i);
      j := i + 1;
    }
  }

  lemma StaysAt(q: Query, s: State, table: nat, i: nat)
    requires CanScan(q, s, table) && AtRound(q, s, i)
    ensures !ScanStep(q, s, table).outcome.Threw? ==> AtRound(q, ScanStep(q, s, table), i)
  {
    assert ScanStep(q, s, table).outcome.Threw? || ScanStep(q, s, table).outcome.Running?;
    if ScanStep(q, s, table).outcome.Running? {
      ScanStays(q, s, table);
    }
    hide CanScan, ScanStep, Radii;
  }

  lemma {:induction false} RoundOf(q: Query, turns: nat) returns (i: nat)
    requires Startable(q)
    ensures !SearchAfter(q, turns).outcome.Threw? ==> AtRound(q, SearchAfter(q, turns), i)
  {
    hide *;
    if turns == 0 {
      BeginsAtRound(q);
      i := 0;
    } else {
      SearchNext(q, turns - 1);
      i := RoundOf(q, turns - 1);
      if SearchAfter(q, turns - 1).outcome.Running? {
        i := TurnRound(q, SearchAfter(q, turns - 1), i);
      }
    }
  }

  lemma BeginsAtRound(q: Query)
    requires Startable(q)
    ensures AtRound(q, SearchAfter(q, 0), 0)
  {
    SearchBegins(q);
    hide SearchAfter, Ready;
  }

  /** At every turn of every search that has not failed, the radius is the last of such a
      progression and the bound is its window. */
  lemma RadiusAt(q: Query, turns: nat) returns (rounds: seq<Round>)
    requires Startable(q) && !SearchAfter(q, turns).outcome.Threw?
    ensures var rt := SearchAfter(q, turns).work.rt;
            Progression(q, rounds) && rounds[|rounds| - 1] == Round(rt.radius, rt.bound)
  {
    hide SearchAfter, Startable, Progression, Radii;
    var i := RoundOf(q, turns);
    rounds := ReachedBy(q, i);
  }

  // ---- the ending in numbers -------------------------------------------

  ghost predicate HoldsTable(v: View, bound: real) {
    forall i :: 0 <= i < |v.entries| ==> HoldsEntry(v, i, bound)
  }

  ghost predicate HoldsEntry(v: View, i: nat, bound: real)
    requires i < |v.entries|
  {
    var d := v.fl(v.query - v.entries[i].value);
    -bound <= d && d <= bound
  }

  /** No projection of any table is farther from the query than the bound. */
  ghost predicate HoldsEverything(q: Query, bound: real) {
    forall t :: 0 <= t < |q.views| ==> HoldsTable(q.views[t], bound)
  }

  /** The last window of these radii holds every projection. */
  ghost predicate EndsCovered(q: Query, rounds: seq<Round>) {
    Progression(q, rounds) && HoldsEverything(q, rounds[|rounds| - 1].bound)
  }

  lemma SpreadIs(q: Query, bound: real)
    requires bound >= 0.0
    ensures bound >= Spread(q, |q.views|) <==> HoldsEverything(q, bound)
  {
    if bound >= Spread(q, |q.views|) {
      forall t, i | 0 <= t < |q.views| && 0 <= i < |q.views[t].entries|
        ensures HoldsEntry(q.views[t], i, bound)
      {
        SpreadCovers(q, t, i, bound);
      }
    }
    hide Spread;
    if HoldsEverything(q, bound) {
      forall t | 0 <= t < |q.views|
        ensures WholeTable(q.views[t], bound)
      {
        assert HoldsTable(q.views[t], bound);
        forall i | 0 <= i < |q.views[t].entries|
          ensures InWindow(q.views[t], i, bound)
        {
          assert HoldsEntry(q.views[t], i, bound);
        }
      }
      SpreadWithin(q, |q.views|, bound);
    }
  }

  lemma BoundNotNegative(q: Query, radius: real, bound: real)
    requires HasWindow(q, radius, bound)
    ensures bound >= 0.0
  {
    var half := q.width * radius / 2.0;
    assert KeepsOrder(q.start.fl, 0.0, half);
  }

  lemma CoversIs(q: Query)
    ensures (exists i :: Covers(q, i)) <==> exists rounds :: EndsCovered(q, rounds)
  {
    hide HasWindow, GrowsTo, Spread, Radii, HoldsEverything;
    if i: nat :| Covers(q, i) {
      var rounds := ReachedBy(q, i);
      BoundNotNegative(q, rounds[i].radius, rounds[i].bound);
      SpreadIs(q, rounds[i].bound);
      assert EndsCovered(q, rounds);
    }
    if rounds: seq<Round> :| EndsCovered(q, rounds) {
      var i := |rounds| - 1;
      ReachesAll(q, rounds, i);
      BoundNotNegative(q, rounds[i].radius, rounds[i].bound);
      SpreadIs(q, rounds[i].bound);
      assert Covers(q, i);
    }
  }

  /** With representable distances and a rule that never fires, a search finishes if and
      only if the radius can be grown, in float32 and within its range, until half the
      width times it reaches the farthest projection. */
  lemma FinishesByNumbers(q: Query)
    requires Startable(q) && Representable(q) && NeverFires(q.rules)
    ensures (exists n :: FinishedAfter(q, n)) <==> exists rounds :: EndsCovered(q, rounds)
  {
    hide *;
    FinishesExactly(q);
    CoversIs(q);
  }
}
