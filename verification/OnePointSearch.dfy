/** The smallest search there is, in an arithmetic that keeps whole numbers: one point on
    a line, its projection itself, and a query at zero. Radii are 1e37 and 1e38; the next
    one is beyond the largest float32. */
module OnePointSearch {
  import opened Tables
  import opened FlatCursor
  import opened DistanceKernel
  import opened Strategy
  import opened Delivery
  import opened Engine
  import opened SearchRounds
  import opened SearchFinishes

  /** The largest float32, 2^128 - 2^104. */
  const FLOAT_MAX: real := 340282346638528859811704183484516925440.0

  const FIRST: real := 10000000000000000000000000000000000000.0
  const SECOND: real := 100000000000000000000000000000000000000.0

  // ---- whole-number arithmetic -----------------------------------------

  function Whole(x: real): real {
    x.Floor as real
  }

  /** The integer square root. */
  function RootBelow(n: nat): (r: nat)
    ensures r * r <= n < (r + 1) * (r + 1)
  {
    if n == 0 then 0
    else
      var r := RootBelow(n - 1);
      if (r + 1) * (r + 1) <= n then r + 1 else r
  }

  lemma SquaresGrow(a: nat, b: nat)
    requires a <= b
    ensures a * a <= b * b
  {}

  lemma RootGrows(m: nat, n: nat)
    requires m <= n
    ensures RootBelow(m) <= RootBelow(n)
  {
    var a, b := RootBelow(m), RootBelow(n);
    if a > b {
      SquaresGrow(b + 1, a);
    }
  }

  lemma RootExact(e: nat)
    ensures RootBelow(e * e) == e
  {
    var r := RootBelow(e * e);
    if r < e {
      SquaresGrow(r + 1, e);
    } else if e < r {
      SquaresGrow(e + 1, r);
    }
  }

  function WholeRoot(x: real): real {
    if x < 0.0 then 0.0 else RootBelow(x.Floor) as real
  }

  function WholeArithmetic(): Arithmetic {
    Arithmetic(Whole, x => x, WholeRoot, x => Some(Whole(x) + 1.0), FLOAT_MAX)
  }

  lemma FloorGrows(x: real, y: real)
    requires x <= y
    ensures x.Floor <= y.Floor
  {
    assert (y.Floor + 1) as real == y.Floor as real + 1.0;
  }

  lemma WholeGrows(x: real, y: real)
    ensures KeepsOrder(Whole, x, y)
  {
    if x <= y {
      FloorGrows(x, y);
    }
  }

  lemma WholeIsRounding()
    ensures IsRounding(Whole)
  {
    forall x, y
      ensures KeepsOrder(Whole, x, y)
    {
      WholeGrows(x, y);
    }
    hide Whole, KeepsOrder;
    assert Whole(0.0) == 0.0 by {
      ZeroIsWhole();
    }
  }

  lemma ZeroIsWhole()
    ensures Whole(0.0) == 0.0
  {}

  lemma WholeSquare(e: real)
    requires e >= 0.0 && Whole(e) == e
    ensures WholeRoot(Square(e)) == e
  {
    var n: nat := e.Floor;
    assert Square(e) == (n * n) as real by {
      assert e == n as real;
    }
    RootExact(n);
  }

  lemma WholeRootGrows(x: real, y: real)
    ensures KeepsOrder(WholeRoot, x, y)
  {
    if 0.0 <= x <= y {
      FloorGrows(x, y);
      RootGrows(x.Floor, y.Floor);
    }
    hide RootBelow;
  }

  lemma WholeRootOfSquare(e: real)
    ensures RootOfSquare(WholeArithmetic(), e)
  {
    if e >= 0.0 && Whole(e) == e {
      WholeSquare(e);
    }
    hide RootBelow, Square;
  }

  lemma WholeStepsUp(x: real)
    ensures StepsUp(WholeArithmetic(), x)
  {
    assert (Whole(x) + 1.0).Floor == x.Floor + 1;
  }

  lemma WholeDouble(x: real, y: real)
    ensures KeepsOrder(WholeArithmetic().fl64, x, y) && Settled(WholeArithmetic().fl64, x)
  {}

  lemma WholeHeld(x: real)
    ensures HeldByDouble(WholeArithmetic(), x)
  {}

  /** The laws asked of the machine arithmetic can be met. */
  lemma WholeLaws()
    ensures Laws(WholeArithmetic())
  {
    var a := WholeArithmetic();
    WholeIsRounding();
    assert a.fl32 == Whole && a.root == WholeRoot && a.fl64(0.0) == 0.0;
    hide WholeArithmetic, KeepsOrder, StepsUp, Settled, RootOfSquare, HeldByDouble;
    forall x, y
      ensures KeepsOrder(a.root, x, y) && KeepsOrder(a.fl64, x, y) && Settled(a.fl64, x)
    {
      WholeRootGrows(x, y);
      WholeDouble(x, y);
    }
    forall x
      ensures StepsUp(a, x) && RootOfSquare(a, x) && HeldByDouble(a, x)
    {
      WholeStepsUp(x);
      WholeRootOfSquare(x);
      WholeHeld(x);
    }
  }

  // ---- the search ------------------------------------------------------

  function WholeRounding(): (f: Rounding)
    ensures forall x :: f(x) == Whole(x)
  {
    WholeIsRounding();
    Whole
  }

  /** The point far to the right of the query, with a rule that never fires. */
  function Example(far: real): Query {
    var fl := WholeRounding();
    Query([View(fl, [Entry(far, 0)], 0.0, [0])], QueryStart(1, 1, 1, 2.0, fl, 1, 1),
          Rules(0, Some(_ => false), None, true, true), 1, true,
          WholeArithmetic(), L1, [0.0], [[far]], FIRST, 10.0, 2.0)
  }

  lemma ExampleMeasures(far: real)
    requires 0.0 <= far <= FLOAT_MAX
    ensures PointsOk(Example(far)) && Representable(Example(far))
  {
    var q := Example(far);
    WholeLaws();
    hide Laws;
    assert PointsOk(q);
    var a, p, z := q.arith, [far], [0.0];
    assert Start(1) == 0;
    assert BlockSum(a, L1, p, z, 0, 0) == 0.0;
    assert BlockSum(a, L1, p, z, 0, 1) == far;
    assert Sum(a, L1, p, z, 1) == far;
    assert FullDistance(a, L1, p, z).Some?;
  }

  lemma ExampleTable(far: real)
    ensures TableOk(Example(far), Example(far).views[0])
  {}

  lemma ExampleWindow(far: real, radius: real)
    requires radius == FIRST || radius == SECOND
    ensures WindowBound(Example(far), radius) == Some(radius)
  {
    var q := Example(far);
    assert HalfWidth(q, radius) == radius;
    assert Whole(radius) == radius;
  }

  lemma ExampleRule(far: real)
    ensures NeverFires(Example(far).rules)
  {
    assert forall s :: Silent(Example(far).rules.rule.value, s);
  }

  lemma ExampleSizes(far: real)
    ensures var q := Example(far);
            |q.views| == q.start.tableCount == q.quantum == q.start.k == q.start.numPoints == 1 &&
            ActiveThreshold(q.rules, q.start) == 1
  {}

  lemma ExampleParameters(far: real)
    ensures var q := Example(far); q.radius == FIRST && q.width == 2.0 && q.growth == 10.0
  {}

  lemma ExampleStarts(far: real)
    requires 0.0 <= far <= FLOAT_MAX
    ensures Startable(Example(far))
  {
    hide *;
    ExampleMeasures(far);
    ExampleTable(far);
    ExampleWindow(far, FIRST);
    ExampleSizes(far);
    ExampleParameters(far);
    StartsFrom(Example(far));
  }

  lemma StartsFrom(q: Query)
    requires PointsOk(q) && |q.views| == q.start.tableCount == q.quantum == q.start.k == q.start.numPoints == 1
    requires ActiveThreshold(q.rules, q.start) == 1 && q.radius == FIRST && q.width == 2.0 && q.growth == 10.0
    requires TableOk(q, q.views[0]) && WindowBound(q, FIRST).Some?
    ensures Startable(q)
  {
    hide PointsOk, ActiveThreshold, TableOk, WindowBound;
  }

  lemma ExampleGap(far: real)
    requires 0.0 <= far <= FLOAT_MAX
    ensures Gap(Example(far).views[0], 0) <= SECOND <==> far <= SECOND
    ensures Gap(Example(far).views[0], 0) >= 0.0
  {
    assert Gap(Example(far).views[0], 0) == -Whole(-far);
  }

  lemma ExampleSpread(far: real)
    requires 0.0 <= far <= FLOAT_MAX
    ensures Spread(Example(far), 1) <= SECOND <==> far <= SECOND
  {
    var q := Example(far);
    var v := q.views[0];
    assert |q.views| == |v.entries| == 1;
    ExampleGap(far);
    hide Example, Gap;
    assert Farthest(v, 0) == 0.0 && Spread(q, 0) == 0.0;
    assert Farthest(v, 1) == Gap(v, 0) == Spread(q, 1);
  }

  lemma ExampleSteps(far: real)
    ensures NextRadius(Example(far), FIRST) == Some(SECOND) && NextRadius(Example(far), SECOND).None?
  {
    var q := Example(far);
    assert Grown(q, FIRST) == SECOND && Grown(q, SECOND) > FLOAT_MAX + 1.0;
  }

  lemma ExampleRadii(far: real)
    ensures var q := Example(far);
            Radii(q, 0) == Some(Round(FIRST, FIRST)) && Radii(q, 1) == Some(Round(SECOND, SECOND)) && Radii(q, 2).None?
  {
    var q := Example(far);
    ExampleWindow(far, FIRST);
    ExampleWindow(far, SECOND);
    ExampleSteps(far);
    assert q.radius == FIRST;
    hide Example, WindowBound, NextRadius;
    assert Radii(q, 0) == Some(Round(FIRST, FIRST));
    assert Radii(q, 1) == Some(Round(SECOND, SECOND));
  }

  lemma ShortOfIt(q: Query)
    requires |q.views| == 1 && Radii(q, 0) == Some(Round(FIRST, FIRST)) && Radii(q, 1) == Some(Round(SECOND, SECOND))
    requires Refused(q, 2) && Spread(q, 1) > SECOND
    ensures FailsAt(q, 2)
  {
    hide Spread, Radii;
    assert !Covers(q, 0) && !Covers(q, 1);
  }

  /** A point beyond 1e38 is never found: the search fails on the third radius. A nearer
      one is, although the radius after the one that finds it would be refused. */
  lemma ExampleFinishes(far: real)
    requires 0.0 <= far <= FLOAT_MAX
    ensures var q := Example(far);
            Startable(q) && Representable(q) && NeverFires(q.rules) &&
            ((exists n :: FinishedAfter(q, n)) <==> far <= SECOND) &&
            ((exists n :: ThrewAfter(q, n)) <==> far > SECOND)
  {
    var q := Example(far);
    ExampleMeasures(far);
    ExampleStarts(far);
    ExampleRule(far);
    ExampleSpread(far);
    ExampleRadii(far);
    assert |q.views| == 1;
    hide Startable, Representable, NeverFires, Spread, Radii, Example, PointsOk, FailsAt;
    FinishesExactly(q);
    ThrowsExactly(q);
    if far <= SECOND {
      assert Covers(q, 1);
      forall i: nat
        ensures !FailsAt(q, i)
      {
        NotBoth(q, 1, i);
      }
    } else {
      ShortOfIt(q);
      forall i: nat
        ensures !Covers(q, i)
      {
        if Covers(q, i) {
          NotBoth(q, i, 2);
        }
      }
    }
  }
}
