/** The rounds of a search: which radii it can reach, and when a window holds every
    projection. */
module SearchRounds {
  import opened Tables
  import opened FlatCursor
  import opened Schedule
  import opened Strategy
  import opened Delivery
  import opened Engine
  import opened EngineInvariant
  import opened SearchSemantics
  import opened SearchExhaustion
  import opened SearchProgress

  // ---- a window over everything ----------------------------------------

  function Gap(v: View, i: nat): real
    requires i < |v.entries|
  {
    var d := v.fl(v.query - v.entries[i].value);
    if d < 0.0 then -d else d
  }

  function Farthest(v: View, top: nat): (far: real)
    requires top <= |v.entries|
    ensures forall i :: 0 <= i < top ==> Gap(v, i) <= far
  {
    if top == 0 then 0.0
    else
      var far := Farthest(v, top - 1);
      if Gap(v, top - 1) > far then Gap(v, top - 1) else far
  }

  /** The farthest any projection lies from the query. */
  function Spread(q: Query, top: nat): (far: real)
    requires top <= |q.views|
    ensures forall t :: 0 <= t < top ==> Farthest(q.views[t], |q.views[t].entries|) <= far
  {
    if top == 0 then 0.0
    else
      var far, here := Spread(q, top - 1), Farthest(q.views[top - 1], |q.views[top - 1].entries|);
      if here > far then here else far
  }

  lemma SpreadCovers(q: Query, t: nat, i: nat, bound: real)
    requires t < |q.views| && i < |q.views[t].entries| && bound >= Spread(q, |q.views|)
    ensures InWindow(q.views[t], i, bound)
  {
    assert Gap(q.views[t], i) <= Farthest(q.views[t], |q.views[t].entries|);
    hide Farthest, Spread;
  }

  lemma {:induction false} FarthestWithin(v: View, top: nat, bound: real)
    requires top <= |v.entries| && bound >= 0.0 && forall i :: 0 <= i < top ==> InWindow(v, i, bound)
    ensures Farthest(v, top) <= bound
  {
    if top == 0 {
    } else {
      FarthestWithin(v, top - 1, bound);
      assert InWindow(v, top - 1, bound);
    }
  }

  ghost predicate WholeTable(v: View, bound: real) {
    forall i :: 0 <= i < |v.entries| ==> InWindow(v, i, bound)
  }

  /** No smaller bound holds every projection. */
  lemma {:induction false} SpreadWithin(q: Query, top: nat, bound: real)
    requires top <= |q.views| && bound >= 0.0 && forall t :: 0 <= t < top ==> WholeTable(q.views[t], bound)
    ensures Spread(q, top) <= bound
  {
    if top == 0 {
    } else {
      SpreadWithin(q, top - 1, bound);
      FarthestWithin(q.views[top - 1], |q.views[top - 1].entries|, bound);
    }
  }

  /** A complete table under a window over everything is used up. */
  lemma CoveredTable(q: Query, s: State, t: nat)
    requires Core(q, s) && t < |q.views| && s.work.rt.completed[t] && s.work.rt.bound >= Spread(q, |q.views|)
    ensures s.work.rt.exhausted[t]
  {
    var v, c := q.views[t], s.cursors[t];
    assert TableOk(q, v) && CursorOk(v, c, s.work.rt.bound);
    assert MarkOk(v, c, s.work.rt.bound, s.work.rt.exhausted[t], true);
    hide WorkInv, CursorsOk, MarksOk, Lockstep, QueryOk, Spread, InWindow;
    if c.leftBlocked {
      SpreadCovers(q, t, c.left, s.work.rt.bound);
    }
    if c.rightBlocked {
      SpreadCovers(q, t, c.right, s.work.rt.bound);
    }
  }

  lemma CoveredRound(q: Query, s: State)
    requires Core(q, s) && s.work.rt.roundComplete && s.work.rt.bound >= Spread(q, |q.views|)
    ensures UsedUp(s.work.rt)
  {
    RoundIsComplete(q, s);
    CountAll(s.work.rt.exhausted);
    assert s.work.rt.exhaustedTables == CountTrue(s.work.rt.exhausted);
    forall t | 0 <= t < |q.views|
      ensures s.work.rt.exhausted[t]
    {
      CoveredTable(q, s, t);
    }
  }

  /** A used-up table lies within the bound as a whole. */
  lemma UsedUpTable(q: Query, s: State, t: nat)
    requires Core(q, s) && t < |q.views| && s.work.rt.exhausted[t]
    ensures WholeTable(q.views[t], s.work.rt.bound)
  {
    var v, c := q.views[t], s.cursors[t];
    assert TableOk(q, v) && CursorOk(v, c, s.work.rt.bound);
    assert MarkOk(v, c, s.work.rt.bound, true, s.work.rt.completed[t]);
    hide WorkInv, CursorsOk, MarksOk, Lockstep, QueryOk;
    assert c.last.Some?;
    forall i | 0 <= i < |v.entries|
      ensures InWindow(v, i, s.work.rt.bound)
    {
      assert InWindow(v, i, c.last.value);
    }
  }

  /** Tables are only used up by a window over everything. */
  lemma UsedUpCovers(q: Query, s: State)
    requires Core(q, s) && UsedUp(s.work.rt)
    ensures s.work.rt.bound >= Spread(q, |q.views|)
  {
    CountAll(s.work.rt.exhausted);
    assert s.work.rt.exhaustedTables == CountTrue(s.work.rt.exhausted);
    assert s.work.rt.bound >= 0.0;
    forall t | 0 <= t < |q.views|
      ensures WholeTable(q.views[t], s.work.rt.bound)
    {
      UsedUpTable(q, s, t);
    }
    hide Core, Spread, WholeTable;
    SpreadWithin(q, |q.views|, s.work.rt.bound);
  }

  // ---- the radii of a search -------------------------------------------

  datatype Round = Round(radius: real, bound: real)

  function RoundAt(q: Query, radius: real): Option<Round> {
    var bound := WindowBound(q, radius);
    if bound.None? then None else Some(Round(radius, bound.value))
  }

  /** Radius and window after i advances; None once one of them has been refused. */
  function Radii(q: Query, i: nat): Option<Round> {
    if i == 0 then RoundAt(q, q.radius)
    else
      var before := Radii(q, i - 1);
      if before.None? then None
      else
        var next := NextRadius(q, before.value.radius);
        if next.None? then None else RoundAt(q, next.value)
  }

  /** Round i is reached without a refusal and its window holds every projection. */
  ghost predicate Covers(q: Query, i: nat) {
    Radii(q, i).Some? && Radii(q, i).value.bound >= Spread(q, |q.views|)
  }

  ghost predicate Refused(q: Query, i: nat) {
    Radii(q, i).None?
  }

  /** No round before i covers everything. */
  ghost predicate Short(q: Query, i: nat) {
    forall j :: 0 <= j < i ==> !Covers(q, j)
  }

  lemma {:induction false} RefusedStays(q: Query, i: nat, j: nat)
    requires Refused(q, i) && i <= j
    ensures Refused(q, j)
    decreases j
  {
    if i == j {
    } else {
      RefusedStays(q, i, j - 1);
    }
  }

  ghost predicate AtRound(q: Query, s: State, i: nat) {
    Radii(q, i) == Some(Round(s.work.rt.radius, s.work.rt.bound))
  }

  /** Only a complete round with entries left asks for a larger radius. */
  lemma AdvanceHasReason(q: Query, s: State)
    requires Ready(q, s) && NextAction(q.rules, q.start, s.work.st, Snap(q, s.work.rt)).1.AdvanceRadius?
    ensures s.work.rt.roundComplete && !UsedUp(s.work.rt)
  {
    EmptyQueue(s.work.st.schedule);
    assert Lockstep(q, s.work);
  }

  /** Asking for a larger radius: the round at hand does not cover everything. */
  lemma AdvanceIsShort(q: Query, s: State, i: nat)
    requires Ready(q, s) && NextAction(q.rules, q.start, s.work.st, Snap(q, s.work.rt)).1.AdvanceRadius?
    requires AtRound(q, s, i)
    ensures !Covers(q, i)
  {
    AdvanceHasReason(q, s);
    assert Core(q, s);
    hide Core, Ready, Spread, NextAction;
    if Covers(q, i) {
      CoveredRound(q, s);
    }
  }

  /** What one turn uses up: work in the round, or the round. */
  lemma TurnUses(q: Query, s: State, i: nat)
    requires s.outcome.Running? && Ready(q, s) && AtRound(q, s, i)
    requires Turn(q, s).outcome.Running? && Ready(q, Turn(q, s))
    ensures var s' := Turn(q, s);
            |q.views| == |s.cursors| == |s.work.rt.completed| == |s'.cursors| == |s'.work.rt.completed| &&
            ((AtRound(q, s', i) && WorkLeft(q, s') < WorkLeft(q, s)) || (AtRound(q, s', i + 1) && !Covers(q, i)))
  {
    ActionFits(q, s);
    ChoiceKeeps(q, s);
    var (st, action) := NextAction(q.rules, q.start, s.work.st, Snap(q, s.work.rt));
    var s1 := s.(work := s.work.(st := st));
    assert |q.views| == |s.cursors| == |s.work.rt.completed|;
    assert |q.views| == |Turn(q, s).cursors| == |Turn(q, s).work.rt.completed|;
    if action.AdvanceRadius? {
      AdvanceIsShort(q, s, i);
    }
    hide Core, Ready, NextAction, ScanStep, CanScan, Waiting, WorkLeft, WindowBound, AdvanceSched, Spread, NextRadius;
    if action.ScanTable? {
      ScanStepUsesWork(q, s1, action.table);
      SameWorkLeft(q, s, s1);
    }
  }

  lemma SameWorkLeft(q: Query, s: State, s1: State)
    requires |q.views| == |s.cursors| == |s.work.rt.completed| && s1.cursors == s.cursors && s1.work.rt == s.work.rt
    ensures WorkLeft(q, s1) == WorkLeft(q, s)
  {}

  ghost predicate Ended(q: Query, turns: nat)
    requires Startable(q)
  {
    !SearchAfter(q, turns).outcome.Running?
  }

  /** Some round is refused, or covers everything. */
  ghost predicate Stops(q: Query, i: nat) {
    Refused(q, i) || Covers(q, i)
  }

  /** Lexicographic descent: rounds left, then work left. */
  lemma {:induction false} EndsFrom(q: Query, turns: nat, i: nat, limit: nat, work: nat)
    requires Startable(q) && Stops(q, limit)
    requires SearchAfter(q, turns).outcome.Running? ==>
               var s := SearchAfter(q, turns);
               Ready(q, s) && AtRound(q, s, i) && i <= limit &&
               |q.views| == |s.cursors| == |s.work.rt.completed| && WorkLeft(q, s) <= work
    ensures exists n :: Ended(q, n)
    decreases limit - i, work
  {
    hide *;
    var s := SearchAfter(q, turns);
    SearchNext(q, turns);
    SearchNext(q, turns + 1);
    EndedIs(q, turns);
    EndedIs(q, turns + 1);
    if s.outcome.Running? && Turn(q, s).outcome.Running? {
      var s' := Turn(q, s);
      TurnUses(q, s, i);
      if AtRound(q, s', i) && WorkLeft(q, s') < WorkLeft(q, s) {
        EndsFrom(q, turns + 1, i, limit, work - 1);
      } else {
        NotTheLimit(q, s, i, limit);
        EndsFrom(q, turns + 1, i + 1, limit, WorkLeft(q, s'));
      }
    }
  }

  lemma NotTheLimit(q: Query, s: State, i: nat, limit: nat)
    requires AtRound(q, s, i) && !Covers(q, i) && Stops(q, limit) && i <= limit
    ensures i < limit
  {
    hide Radii, Spread;
  }

  lemma EndedIs(q: Query, turns: nat)
    requires Startable(q)
    ensures Ended(q, turns) <==> !SearchAfter(q, turns).outcome.Running?
  {
    hide SearchAfter;
  }

  /** Every search with a round that is refused or covers everything ends, whatever its
      rules, quantum and data. */
  lemma EverySearchEnds(q: Query, limit: nat)
    requires Startable(q) && Stops(q, limit)
    ensures exists n :: Ended(q, n)
  {
    SearchBegins(q);
    var s := Begin(q);
    assert |q.views| == |s.cursors| == |s.work.rt.completed| && AtRound(q, s, 0);
    hide Ready, SearchAfter, Stops, QueryOk, WorkLeft, AtRound;
    EndsFrom(q, 0, 0, limit, WorkLeft(q, s));
  }

  // ---- there is such a round -------------------------------------------

  /** Float32 has finitely many numbers: every positive one in range is among values. */
  ghost predicate FiniteRange(q: Query, values: set<real>) {
    forall x :: InRange(q, x, values)
  }

  ghost predicate InRange(q: Query, x: real, values: set<real>) {
    0.0 < q.start.fl(x) <= q.arith.maxFloat ==> q.start.fl(x) in values
  }

  /** The radii after the first, up to round i. */
  ghost function Later(q: Query, i: nat): (radii: set<real>)
    requires Radii(q, i).Some?
  {
    if i == 0 then {} else Later(q, i - 1) + {Radii(q, i).value.radius}
  }

  lemma {:induction false} LaterRadii(q: Query, i: nat, values: set<real>)
    requires Radii(q, i).Some? && FiniteRange(q, values) && q.radius > 0.0
    ensures Radii(q, i).value.radius >= q.radius && Later(q, i) <= values && |Later(q, i)| == i
    ensures forall r :: r in Later(q, i) ==> r <= Radii(q, i).value.radius
  {
    if i == 0 {
    } else {
      LaterRadii(q, i - 1, values);
      var before := Radii(q, i - 1).value.radius;
      assert InRange(q, Grown(q, before), values);
      assert Radii(q, i).value.radius > before;
    }
  }

  /** In float32, a round after all numbers have been used is refused. */
  lemma FiniteStops(q: Query, values: set<real>)
    requires FiniteRange(q, values) && q.radius > 0.0
    ensures Stops(q, |values| + 1)
  {
    if Radii(q, |values| + 1).Some? {
      LaterRadii(q, |values| + 1, values);
      SubsetSize(Later(q, |values| + 1), values);
    }
  }

  ghost predicate ExactArithmetic(q: Query) {
    forall x :: Unrounded(q.start.fl, x)
  }

  ghost predicate Unrounded(f: real -> real, x: real) {
    f(x) == x
  }

  lemma ProductNonNegative(a: real, b: real)
    requires a >= 0.0 && b >= 0.0
    ensures a * b >= 0.0
  {}

  /** What the first advance adds to the radius, without rounding. */
  function FirstStep(q: Query): real {
    q.radius * (q.growth - 1.0)
  }

  function Climb(q: Query, i: nat): real {
    if i == 0 then 0.0 else Climb(q, i - 1) + FirstStep(q)
  }

  lemma {:induction false} ClimbIs(q: Query, i: nat)
    ensures Climb(q, i) == i as real * FirstStep(q)
  {
    if i == 0 {
      assert i as real == 0.0;
    } else {
      ClimbIs(q, i - 1);
      MoreSteps(i - 1, FirstStep(q));
    }
  }

  lemma GrowthAtLeast(q: Query, r: real)
    requires r >= q.radius && q.growth > 1.0
    ensures Grown(q, r) >= r + FirstStep(q)
  {
    ProductNonNegative(r - q.radius, q.growth - 1.0);
    assert (r - q.radius) * (q.growth - 1.0) == r * (q.growth - 1.0) - q.radius * (q.growth - 1.0);
    assert r * q.growth == r + r * (q.growth - 1.0);
  }

  lemma MoreSteps(i: nat, delta: real)
    ensures (i + 1) as real * delta == i as real * delta + delta
  {
    assert (i + 1) as real == i as real + 1.0;
  }

  /** Without rounding, each advance adds at least what the first would. */
  lemma {:induction false} ExactRadii(q: Query, i: nat)
    requires Radii(q, i).Some? && ExactArithmetic(q) && FirstStep(q) > 0.0 && q.growth > 1.0
    ensures Radii(q, i).value.radius >= q.radius
    ensures Radii(q, i).value.radius >= q.radius + Climb(q, i)
    ensures i > 0 ==> Radii(q, i).value.radius <= q.arith.maxFloat
  {
    if i == 0 {
    } else {
      ExactRadii(q, i - 1);
      var before := Radii(q, i - 1).value.radius;
      assert Unrounded(q.start.fl, Grown(q, before));
      GrowthAtLeast(q, before);
      hide FirstStep, Grown, WindowBound;
    }
  }

  lemma ProductPositive(a: real, b: real)
    requires a > 0.0 && b > 0.0
    ensures a * b > 0.0
  {}

  lemma StepsPass(steps: nat, x: real, delta: real)
    requires delta > 0.0 && steps as real > x
    ensures steps as real * delta > x * delta
  {
    ProductPositive(steps as real - x, delta);
    assert (steps as real - x) * delta == steps as real * delta - x * delta;
  }

  /** Enough steps of delta pass any span. */
  lemma EnoughSteps(span: real, delta: real) returns (steps: nat)
    requires delta > 0.0
    ensures steps as real * delta > span && steps > 0
  {
    var x := span / delta;
    assert x * delta == span;
    steps := if x < 0.0 then 1 else x.Floor + 1;
    StepsPass(steps, x, delta);
  }

  /** And without rounding some round is refused as well, if none covers before. */
  lemma ExactStops(q: Query)
    requires ExactArithmetic(q) && q.radius > 0.0 && q.growth > 1.0
    ensures exists i :: Stops(q, i)
  {
    ProductPositive(q.radius, q.growth - 1.0);
    var i := EnoughSteps(q.arith.maxFloat - q.radius, FirstStep(q));
    ClimbIs(q, i);
    hide FirstStep;
    if Radii(q, i).Some? {
      ExactRadii(q, i);
    }
    assert Stops(q, i);
  }
}
