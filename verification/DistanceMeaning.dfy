/** What the kernel computes: the L1 or L2 distance of two points, added up in blocks of
    64 coordinates, with one rounding per operation. */
module DistanceMeaning {
  import opened Tables
  import opened DistanceKernel

  function Magnitude(x: real): real {
    if x < 0.0 then -x else x
  }

  // ---- without rounding ------------------------------------------------

  /** The textbook sum over the first end coordinates. */
  function PlainSum(norm: Norm, x: seq<real>, y: seq<real>, end: nat): real
    requires end <= |x| == |y|
  {
    if end == 0 then 0.0
    else
      var d := x[end - 1] - y[end - 1];
      PlainSum(norm, x, y, end - 1) + if norm.L1? then Magnitude(d) else d * d
  }

  ghost predicate Exactly(f: real -> real, x: real) {
    f(x) == x
  }

  /** Doubles that never round. */
  ghost predicate ExactDoubles(a: Arithmetic) {
    forall x :: Exactly(a.fl64, x)
  }

  lemma PlainTerm(a: Arithmetic, norm: Norm, x: seq<real>, y: seq<real>, i: nat)
    requires ExactDoubles(a) && i < |x| == |y|
    ensures PlainSum(norm, x, y, i + 1) == PlainSum(norm, x, y, i) + Term(a, norm, x[i], y[i])
  {
    assert Exactly(a.fl64, x[i] - y[i]) && Exactly(a.fl64, Square(x[i] - y[i]));
  }

  lemma {:induction false} PlainBlock(a: Arithmetic, norm: Norm, x: seq<real>, y: seq<real>, begin: nat, end: nat)
    requires ExactDoubles(a) && begin <= end <= |x| == |y|
    ensures BlockSum(a, norm, x, y, begin, end) == PlainSum(norm, x, y, end) - PlainSum(norm, x, y, begin)
  {
    hide Term, PlainSum;
    if begin == end {
    } else {
      PlainBlock(a, norm, x, y, begin, end - 1);
      PlainTerm(a, norm, x, y, end - 1);
      assert Exactly(a.fl64, BlockSum(a, norm, x, y, begin, end - 1) + Term(a, norm, x[end - 1], y[end - 1]));
    }
  }

  lemma {:induction false} PlainBlocks(a: Arithmetic, norm: Norm, x: seq<real>, y: seq<real>, end: nat)
    requires ExactDoubles(a) && end <= |x| == |y|
    ensures Sum(a, norm, x, y, end) == PlainSum(norm, x, y, end)
  {
    if end == 0 {
    } else {
      PlainBlocks(a, norm, x, y, Start(end));
      PlainBlock(a, norm, x, y, Start(end), end);
      assert Exactly(a.fl64, Sum(a, norm, x, y, Start(end)) + BlockSum(a, norm, x, y, Start(end), end));
      hide BlockSum, PlainSum, Start;
    }
  }

  /** Where doubles do not round, the distance is that of the textbook, whatever the
      number of coordinates: the sum of the differences, or the root of the sum of their
      squares, rounded once to float32. */
  lemma ExactDistance(a: Arithmetic, norm: Norm, x: seq<real>, y: seq<real>)
    requires ExactDoubles(a) && |x| == |y|
    ensures var sum := PlainSum(norm, x, y, |x|);
            var value := if norm.L1? then sum else a.root(sum);
            FullDistance(a, norm, x, y) == if value > a.maxFloat then None else Some(a.fl32(value))
  {
    PlainBlocks(a, norm, x, y, |x|);
    hide Sum, PlainSum;
  }

  // ---- with rounding ---------------------------------------------------

  /** What one coordinate adds: the rounded difference, or its square rounded again. */
  function Part(a: Arithmetic, norm: Norm, x: real, y: real): real {
    var d := a.fl64(x - y);
    if norm.L1? then Magnitude(d) else a.fl64(Square(d))
  }

  /** Coordinates from..end added to acc, first to last, with a rounding after each. */
  function AddBlock(a: Arithmetic, norm: Norm, x: seq<real>, y: seq<real>, from: nat, end: nat, acc: real): real
    requires from <= end <= |x| == |y|
    decreases end - from
  {
    if from == end then acc
    else AddBlock(a, norm, x, y, from + 1, end, a.fl64(acc + Part(a, norm, x[from], y[from])))
  }

  /** Blocks of 64 coordinates, each added up from zero and then to acc. */
  function AddBlocks(a: Arithmetic, norm: Norm, x: seq<real>, y: seq<real>, from: nat, acc: real): real
    requires from <= |x| == |y|
    decreases |x| - from
  {
    if from == |x| then acc
    else
      var end := if from + 64 <= |x| then from + 64 else |x|;
      AddBlocks(a, norm, x, y, end, a.fl64(acc + AddBlock(a, norm, x, y, from, end, 0.0)))
  }

  lemma PartIs(a: Arithmetic, norm: Norm, x: real, y: real)
    ensures Part(a, norm, x, y) == Term(a, norm, x, y)
  {}

  lemma {:induction false} BlockAdds(a: Arithmetic, norm: Norm, x: seq<real>, y: seq<real>, begin: nat, from: nat,
                                     end: nat)
    requires begin <= from <= end <= |x| == |y|
    ensures AddBlock(a, norm, x, y, from, end, BlockSum(a, norm, x, y, begin, from)) ==
            BlockSum(a, norm, x, y, begin, end)
    decreases end - from
  {
    hide Part, Term;
    if from == end {
    } else {
      PartIs(a, norm, x[from], y[from]);
      BlockAdds(a, norm, x, y, begin, from + 1, end);
    }
  }

  lemma NextStart(from: nat, end: nat)
    requires from % BLOCK == 0 && from < end <= from + BLOCK
    ensures Start(end) == from && (end == from + BLOCK ==> end % BLOCK == 0)
  {
    StartAfter(from, end);
  }

  lemma NextBlock(a: Arithmetic, norm: Norm, x: seq<real>, y: seq<real>, from: nat, end: nat)
    requires from < end <= |x| == |y| && Start(end) == from
    ensures Sum(a, norm, x, y, end) == a.fl64(Sum(a, norm, x, y, from) + AddBlock(a, norm, x, y, from, end, 0.0))
  {
    hide Part, Term, Start;
    assert BlockSum(a, norm, x, y, from, from) == 0.0;
    assert Sum(a, norm, x, y, end) == a.fl64(Sum(a, norm, x, y, from) + BlockSum(a, norm, x, y, from, end));
    hide AddBlock, BlockSum, Sum;
    BlockAdds(a, norm, x, y, from, from, end);
  }

  lemma {:induction false} BlocksAdd(a: Arithmetic, norm: Norm, x: seq<real>, y: seq<real>, from: nat)
    requires from <= |x| == |y| && (from % BLOCK == 0 || from == |x|)
    ensures AddBlocks(a, norm, x, y, from, Sum(a, norm, x, y, from)) == Sum(a, norm, x, y, |x|)
    decreases |x| - from
  {
    hide Part, Term, Sum, AddBlock, Start;
    if from == |x| {
    } else {
      var end := if from + 64 <= |x| then from + 64 else |x|;
      NextStart(from, end);
      NextBlock(a, norm, x, y, from, end);
      BlocksAdd(a, norm, x, y, end);
    }
  }

  /** The distance in machine arithmetic, operation by operation. */
  lemma RoundedDistance(a: Arithmetic, norm: Norm, x: seq<real>, y: seq<real>)
    requires |x| == |y|
    ensures var sum := AddBlocks(a, norm, x, y, 0, 0.0);
            var value := if norm.L1? then sum else a.root(sum);
            FullDistance(a, norm, x, y) == if value > a.maxFloat then None else Some(a.fl32(value))
  {
    BlocksAdd(a, norm, x, y, 0);
    assert Sum(a, norm, x, y, 0) == 0.0;
    hide Sum, AddBlocks;
  }

  // ---- one coordinate --------------------------------------------------

  /** Both norms agree on one coordinate: a difference that is a float32 is its own
      distance, rounding included. */
  lemma OneCoordinate(a: Arithmetic, norm: Norm, x: real, y: real)
    requires Laws(a) && a.fl32(Magnitude(a.fl64(x - y))) == Magnitude(a.fl64(x - y))
    ensures var e := Magnitude(a.fl64(x - y));
            FullDistance(a, norm, [x], [y]) == if e > a.maxFloat then None else Some(e)
  {
    var d := a.fl64(x - y);
    var e := Magnitude(d);
    assert HeldByDouble(a, e) && RootOfSquare(a, e) && Settled(a.fl64, Square(e));
    SquareOfMagnitude(d);
    RoundedDistance(a, norm, [x], [y]);
    var part := Part(a, norm, x, y);
    hide Square;
    assert part == (if norm.L1? then e else a.fl64(Square(e))) && a.fl64(part) == part;
    assert (if norm.L1? then part else a.root(part)) == e && a.fl32(e) == e;
    hide Laws, FullDistance, Part, Magnitude;
    assert AddBlock(a, norm, [x], [y], 1, 1, part) == part;
    assert 0.0 + part == part;
    assert AddBlock(a, norm, [x], [y], 0, 1, 0.0) == part;
    assert AddBlocks(a, norm, [x], [y], 1, part) == part;
    assert AddBlocks(a, norm, [x], [y], 0, 0.0) == part;
  }

  lemma SquareOfMagnitude(d: real)
    ensures Square(d) == Square(Magnitude(d)) && Magnitude(d) >= 0.0
  {}
}
