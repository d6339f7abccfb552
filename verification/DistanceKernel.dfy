/** The distance kernel: blocks of 64 coordinates, stopped early once the partial
    sum proves that the bound is missed. */
module DistanceKernel {
  import opened Tables

  datatype Norm = L1 | L2

  /** Machine arithmetic as far as the kernel depends on it: rounding to float32 and
      to float64, the double square root, nextafter towards infinity (None is
      infinity), and the largest float32. */
  datatype Arithmetic = Arithmetic(fl32: real -> real, fl64: real -> real, root: real -> real,
                                   next: real -> Option<real>, maxFloat: real)

  const BLOCK: nat := 64

  ghost predicate Settled(f: real -> real, x: real) {
    f(f(x)) == f(x)
  }

  ghost predicate StepsUp(a: Arithmetic, x: real) {
    match a.next(x)
    case None => true
    case Some(e) => x < e && a.fl32(e) == e
  }

  ghost predicate RootOfSquare(a: Arithmetic, e: real) {
    e >= 0.0 && a.fl32(e) == e ==> a.root(a.fl64(Square(e))) == e
  }

  ghost predicate HeldByDouble(a: Arithmetic, e: real) {
    a.fl32(e) == e ==> a.fl64(e) == e
  }

  /** What IEEE 754-2019 gives (sections 4.3.1, 5.3.1 and 5.4.1): both roundings are
      monotone and leave rounded numbers alone, a double holds every float32, and the
      square root is monotone and inverts the square of a float32, which a double holds
      exactly. */
  ghost predicate Laws(a: Arithmetic) {
    IsRounding(a.fl32) && IsRounding(a.fl64) &&
    (forall x :: Settled(a.fl64, x)) &&
    (forall x, y :: KeepsOrder(a.root, x, y)) &&
    (forall x :: StepsUp(a, x)) &&
    (forall e :: RootOfSquare(a, e)) &&
    forall e :: HeldByDouble(a, e)
  }

  function Square(x: real): real {
    x * x
  }

  function Term(a: Arithmetic, norm: Norm, x: real, y: real): real {
    var difference := a.fl64(x - y);
    match norm
    case L1 => if difference < 0.0 then -difference else difference
    case L2 => a.fl64(Square(difference))
  }

  function BlockSum(a: Arithmetic, norm: Norm, lhs: seq<real>, rhs: seq<real>, begin: nat, end: nat): real
    requires begin <= end <= |lhs| == |rhs|
  {
    if begin == end then 0.0
    else a.fl64(BlockSum(a, norm, lhs, rhs, begin, end - 1) + Term(a, norm, lhs[end - 1], rhs[end - 1]))
  }

  function Start(end: nat): (begin: nat)
    requires end > 0
    ensures begin < end <= begin + BLOCK && begin % BLOCK == 0
  {
    (end - 1) / BLOCK * BLOCK
  }

  /** The sum over the first end coordinates, block by block. */
  function Sum(a: Arithmetic, norm: Norm, lhs: seq<real>, rhs: seq<real>, end: nat): real
    requires end <= |lhs| == |rhs|
  {
    if end == 0 then 0.0
    else a.fl64(Sum(a, norm, lhs, rhs, Start(end)) + BlockSum(a, norm, lhs, rhs, Start(end), end))
  }

  function Value(a: Arithmetic, norm: Norm, sum: real): real {
    match norm
    case L1 => sum
    case L2 => a.root(sum)
  }

  /** The whole distance, never stopped early; None when no float32 holds it. */
  function FullDistance(a: Arithmetic, norm: Norm, lhs: seq<real>, rhs: seq<real>): Option<real>
    requires |lhs| == |rhs|
  {
    var value := Value(a, norm, Sum(a, norm, lhs, rhs, |lhs|));
    if value > a.maxFloat then None else Some(a.fl32(value))
  }

  /** Exact distance, known to miss the bound, or the overflow error. */
  datatype Bounded = Exact(distance: real) | Missed | Unrepresentable

  /** The contract of a bounded distance: exact if and only if within the bound;
      the error only when no finite bound was given. */
  function Answer(distance: Option<real>, bound: Option<real>): Bounded {
    match distance
    case Some(d) => if bound.None? || d <= bound.value then Exact(d) else Missed
    case None => if bound.None? then Unrepresentable else Missed
  }

  lemma SquareNonNegative(d: real)
    ensures Square(d) >= 0.0
  {
    if d < 0.0 {
      assert d * d == (-d) * (-d);
    }
  }

  lemma TermNonNegative(a: Arithmetic, norm: Norm, x: real, y: real)
    requires Laws(a)
    ensures Term(a, norm, x, y) >= 0.0
  {
    var d := a.fl64(x - y);
    SquareNonNegative(d);
    hide Square;
    assert KeepsOrder(a.fl64, 0.0, Square(d));
  }

  lemma {:induction false} BlockNonNegative(a: Arithmetic, norm: Norm, lhs: seq<real>, rhs: seq<real>, begin: nat,
                                            end: nat)
    requires Laws(a) && begin <= end <= |lhs| == |rhs|
    ensures BlockSum(a, norm, lhs, rhs, begin, end) >= 0.0
  {
    if begin == end {
    } else {
      BlockNonNegative(a, norm, lhs, rhs, begin, end - 1);
      TermNonNegative(a, norm, lhs[end - 1], rhs[end - 1]);
      assert KeepsOrder(a.fl64, 0.0,
                        BlockSum(a, norm, lhs, rhs, begin, end - 1) + Term(a, norm, lhs[end - 1], rhs[end - 1]));
    }
  }

  lemma SumSettled(a: Arithmetic, norm: Norm, lhs: seq<real>, rhs: seq<real>, end: nat)
    requires Laws(a) && end <= |lhs| == |rhs|
    ensures a.fl64(Sum(a, norm, lhs, rhs, end)) == Sum(a, norm, lhs, rhs, end)
  {
    if end > 0 {
      assert Settled(a.fl64, Sum(a, norm, lhs, rhs, Start(end)) + BlockSum(a, norm, lhs, rhs, Start(end), end));
    }
  }

  lemma StartAfter(begin: nat, end: nat)
    requires begin % BLOCK == 0 && begin < end
    ensures begin <= Start(end)
    ensures end <= begin + BLOCK ==> Start(end) == begin
  {}

  /** One more block cannot lower the sum. */
  lemma SumStep(a: Arithmetic, norm: Norm, lhs: seq<real>, rhs: seq<real>, end: nat)
    requires Laws(a) && 0 < end <= |lhs| == |rhs|
    ensures Sum(a, norm, lhs, rhs, Start(end)) <= Sum(a, norm, lhs, rhs, end)
  {
    var from := Start(end);
    var before, block := Sum(a, norm, lhs, rhs, from), BlockSum(a, norm, lhs, rhs, from, end);
    assert Sum(a, norm, lhs, rhs, end) == a.fl64(before + block);
    hide Sum, BlockSum, Start;
    BlockNonNegative(a, norm, lhs, rhs, from, end);
    SumSettled(a, norm, lhs, rhs, from);
    NeverFalls(a, before, block);
  }

  lemma NeverFalls(a: Arithmetic, before: real, block: real)
    requires Laws(a) && a.fl64(before) == before && block >= 0.0
    ensures before <= a.fl64(before + block)
  {
    assert KeepsOrder(a.fl64, before, before + block);
  }

  /** Partial sums never fall, rounding included. */
  lemma {:induction false} SumGrows(a: Arithmetic, norm: Norm, lhs: seq<real>, rhs: seq<real>, begin: nat, end: nat)
    requires Laws(a) && begin <= end <= |lhs| == |rhs| && begin % BLOCK == 0
    ensures Sum(a, norm, lhs, rhs, begin) <= Sum(a, norm, lhs, rhs, end)
    decreases end
  {
    if begin == end {
    } else {
      StartAfter(begin, end);
      SumStep(a, norm, lhs, rhs, end);
      hide Sum, Laws;
      SumGrows(a, norm, lhs, rhs, begin, Start(end));
    }
  }

  /** What one step past the bound is, before and after squaring. */
  function Limit(a: Arithmetic, norm: Norm, expanded: real): real {
    match norm
    case L1 => expanded
    case L2 => a.fl64(Square(expanded))
  }

  lemma ValueNonNegative(a: Arithmetic, norm: Norm, sum: real)
    requires Laws(a) && sum >= 0.0
    ensures Value(a, norm, sum) >= 0.0 && a.fl32(Value(a, norm, sum)) >= 0.0
  {
    assert RootOfSquare(a, 0.0) && KeepsOrder(a.root, 0.0, sum);
    assert KeepsOrder(a.fl32, 0.0, Value(a, norm, sum));
  }

  /** A sum beyond the limit rounds to a distance beyond the bound: stopping is safe
      even where the exact distance and the bound round together. */
  lemma StopIsSafe(a: Arithmetic, norm: Norm, bound: real, expanded: real, sum: real)
    requires Laws(a) && a.next(bound) == Some(expanded) && sum > Limit(a, norm, expanded) && sum >= 0.0
    ensures a.fl32(Value(a, norm, sum)) > bound
  {
    ValueNonNegative(a, norm, sum);
    assert StepsUp(a, bound);
    assert RootOfSquare(a, expanded);
    assert KeepsOrder(a.root, a.fl64(Square(expanded)), sum);
    assert KeepsOrder(a.fl32, expanded, Value(a, norm, sum));
  }

  /** The inner loop over one block. */
  method SumBlock(a: Arithmetic, norm: Norm, lhs: seq<real>, rhs: seq<real>, begin: nat, end: nat) returns (block: real)
    requires begin <= end <= |lhs| == |rhs|
    ensures block == BlockSum(a, norm, lhs, rhs, begin, end)
  {
    block := 0.0;
    for i := begin to end
      invariant block == BlockSum(a, norm, lhs, rhs, begin, i)
    {
      hide Square;
      var difference := a.fl64(lhs[i] - rhs[i]);
      if norm.L2? {
        block := a.fl64(block + a.fl64(Square(difference)));
      } else {
        block := a.fl64(block + if difference < 0.0 then -difference else difference);
      }
    }
  }

  /** DistanceKernel: the early exit changes nothing but the time it takes. */
  method Kernel(a: Arithmetic, norm: Norm, lhs: seq<real>, rhs: seq<real>, bound: Option<real>) returns (r: Bounded)
    requires Laws(a) && |lhs| == |rhs|
    ensures r == Answer(FullDistance(a, norm, lhs, rhs), bound)
    ensures var full := FullDistance(a, norm, lhs, rhs);
            (r.Exact? <==> full.Some? && (bound.None? || full.value <= bound.value)) &&
            (r.Exact? ==> r.distance == full.value) && (r.Unrepresentable? <==> full.None? && bound.None?)
  {
    hide Laws, BlockSum, Limit;
    var expanded := if bound.None? then None else a.next(bound.value);
    var sum := 0.0;
    var begin := 0;
    while begin < |lhs|
      invariant begin <= |lhs| && (begin % BLOCK == 0 || begin == |lhs|)
      invariant sum == Sum(a, norm, lhs, rhs, begin)
    {
      hide Laws, BlockSum, Limit;
      var end := if begin + BLOCK <= |lhs| then begin + BLOCK else |lhs|;
      StartAfter(begin, end);
      hide Start;
      var block := SumBlock(a, norm, lhs, rhs, begin, end);
      sum := a.fl64(sum + block);
      if expanded.Some? && sum > Limit(a, norm, expanded.value) {
        Stopped(a, norm, lhs, rhs, end, bound.value, expanded.value);
        return Missed;
      }
      begin := end;
    }
    var value := Value(a, norm, sum);
    if value > a.maxFloat {
      return if bound.Some? then Missed else Unrepresentable;
    }
    var distance := a.fl32(value);
    return if bound.Some? && distance > bound.value then Missed else Exact(distance);
  }

  lemma Stopped(a: Arithmetic, norm: Norm, lhs: seq<real>, rhs: seq<real>, end: nat, bound: real, expanded: real)
    requires Laws(a) && end <= |lhs| == |rhs| && (end % BLOCK == 0 || end == |lhs|)
    requires a.next(bound) == Some(expanded)
    requires Sum(a, norm, lhs, rhs, end) > Limit(a, norm, expanded)
    ensures Answer(FullDistance(a, norm, lhs, rhs), Some(bound)) == Missed
  {
    if end < |lhs| {
      SumGrows(a, norm, lhs, rhs, end, |lhs|);
    }
    SumGrows(a, norm, lhs, rhs, 0, |lhs|);
    StopIsSafe(a, norm, bound, expanded, Sum(a, norm, lhs, rhs, |lhs|));
  }
}
