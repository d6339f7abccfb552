/** The window cut of src/window_clamp.h: how many leading entries of an outward
    range lie within the bound. */
module WindowClamp {
  import opened Tables

  /** A borrowed run of entries, read forwards from first or backwards from it. */
  datatype HitRange = HitRange(data: seq<Entry>, first: nat, count: nat, reverse: bool, query: real) {
    predicate Valid() {
      if reverse then first < |data| && count <= first + 1 else first + count <= |data|
    }

    function At(i: nat): Entry
      requires Valid() && i < count
    {
      if reverse then data[first - i] else data[first + i]
    }

    predicate In(fl: Rounding, bound: real, i: nat)
      requires Valid() && i < count
    {
      Inside(fl, query, At(i).value, bound)
    }

    /** The entries a visitor of this range sees, in order. */
    function Hits(): (hits: seq<Entry>)
      requires Valid()
      ensures |hits| == count
    {
      seq(count, i requires 0 <= i < count => At(i))
    }
  }

  /** The inside entries come first: what sorting outward from the query gives. */
  ghost predicate Outward(fl: Rounding, r: HitRange, bound: real)
    requires r.Valid()
  {
    forall i, j :: 0 <= i < j < r.count && r.In(fl, bound, j) ==> r.In(fl, bound, i)
  }

  /** The linear scan: inside entries from position i on, up to the first outside one. */
  function LinearPrefix(fl: Rounding, r: HitRange, bound: real, i: nat): (c: nat)
    requires r.Valid() && i <= r.count
    ensures i <= c <= r.count
    ensures forall j :: i <= j < c ==> r.In(fl, bound, j)
    ensures c < r.count ==> !r.In(fl, bound, c)
    decreases r.count - i
  {
    if i == r.count || !r.In(fl, bound, i) then i else LinearPrefix(fl, r, bound, i + 1)
  }

  function PrefixLength(fl: Rounding, r: HitRange, bound: real): (c: nat)
    requires r.Valid()
    ensures c <= r.count
  {
    LinearPrefix(fl, r, bound, 0)
  }

  /** The cut lies between lo and hi. */
  ghost predicate Bracket(fl: Rounding, r: HitRange, bound: real, lo: nat, hi: nat)
    requires r.Valid()
  {
    lo <= hi <= r.count &&
    (lo > 0 ==> r.In(fl, bound, lo - 1)) &&
    (hi < r.count ==> !r.In(fl, bound, hi))
  }

  /** One inside entry before the cut and one outside entry at it decide the cut. */
  lemma PrefixUnique(fl: Rounding, r: HitRange, bound: real, c: nat)
    requires r.Valid() && Outward(fl, r, bound) && Bracket(fl, r, bound, c, c)
    ensures c == PrefixLength(fl, r, bound)
  {
    assert forall j :: 0 <= j < c ==> j == c - 1 || r.In(fl, bound, j);
    assert forall j :: 0 <= j < r.count ==> (r.In(fl, bound, j) <==> j < c);
    var p := PrefixLength(fl, r, bound);
    assert forall j :: 0 <= j < r.count ==> (r.In(fl, bound, j) ==> p == r.count || j < p);
  }

  // ---- four-lane probe -------------------------------------------------

  /** One 32-bit lane of a loaded register: half of an entry. */
  datatype Word = ValueWord(value: real) | IdWord(id: nat)

  datatype Vector = Vector(w0: Word, w1: Word, w2: Word, w3: Word) {
    function Lane(i: nat): Word
      requires i < 4
    {
      if i == 0 then w0 else if i == 1 then w1 else if i == 2 then w2 else w3
    }
  }

  /** A 16-byte load: two adjacent whole entries. */
  function LoadPair(data: seq<Entry>, at: nat): Vector
    requires at + 2 <= |data|
  {
    Vector(ValueWord(data[at].value), IdWord(data[at].id),
           ValueWord(data[at + 1].value), IdWord(data[at + 1].id))
  }

  function Shuffle(v: Vector, a: nat, b: nat, c: nat, d: nat): Vector
    requires a < 4 && b < 4 && c < 4 && d < 4
  {
    Vector(v.Lane(a), v.Lane(b), v.Lane(c), v.Lane(d))
  }

  function UnpackLow(x: Vector, y: Vector): Vector {
    Vector(x.w0, x.w1, y.w0, y.w1)
  }

  function LoadFourForward(data: seq<Entry>, first: nat): Vector
    requires first + 4 <= |data|
  {
    UnpackLow(Shuffle(LoadPair(data, first), 0, 2, 0, 2),
              Shuffle(LoadPair(data, first + 2), 0, 2, 0, 2))
  }

  function LoadFourReverse(data: seq<Entry>, first: nat): Vector
    requires 3 <= first < |data|
  {
    var near := Shuffle(LoadPair(data, first - 1), 0, 2, 0, 2);
    var far := Shuffle(LoadPair(data, first - 3), 0, 2, 0, 2);
    UnpackLow(Shuffle(near, 1, 0, 1, 0), Shuffle(far, 1, 0, 1, 0))
  }

  /** The packed comparison; lane i answers for entry position + i in outward
      order, whichever way the bytes run. The precondition is the claim that a
      probe reads only entries of the range. */
  function InsideMask(fl: Rounding, r: HitRange, bound: real, position: nat): (mask: seq<bool>)
    requires r.Valid() && position + 4 <= r.count
    ensures |mask| == 4
    ensures forall lane: nat :: lane < 4 ==> mask[lane] == r.In(fl, bound, position + lane)
  {
    var v := if r.reverse then LoadFourReverse(r.data, r.first - position)
             else LoadFourForward(r.data, r.first + position);
    [Inside(fl, r.query, v.w0.value, bound), Inside(fl, r.query, v.w1.value, bound),
     Inside(fl, r.query, v.w2.value, bound), Inside(fl, r.query, v.w3.value, bound)]
  }

  method FirstZero(mask: seq<bool>) returns (lane: nat)
    requires |mask| == 4
    ensures lane <= 4
    ensures forall j :: 0 <= j < lane ==> mask[j]
    ensures lane < 4 ==> !mask[lane]
  {
    lane := 0;
    while lane != 4
      invariant lane <= 4
      invariant forall j :: 0 <= j < lane ==> mask[j]
    {
      if !mask[lane] {
        return;
      }
      lane := lane + 1;
    }
  }

  // ---- the searches ----------------------------------------------------

  method BinarySearch(fl: Rounding, r: HitRange, bound: real, from: nat, to: nat) returns (c: nat)
    requires r.Valid() && Outward(fl, r, bound) && Bracket(fl, r, bound, from, to)
    ensures c <= r.count && c == PrefixLength(fl, r, bound)
  {
    var lo, hi := from, to;
    while lo < hi
      invariant Bracket(fl, r, bound, lo, hi)
    {
      var middle := lo + (hi - lo) / 2;
      if r.In(fl, bound, middle) {
        lo := middle + 1;
      } else {
        hi := middle;
      }
    }
    PrefixUnique(fl, r, bound, lo);
    return lo;
  }

  /** A mask with both kinds of lane has its first zero after at least one one. */
  lemma MixedMask(fl: Rounding, r: HitRange, bound: real, start: nat, mask: seq<bool>, lane: nat)
    requires r.Valid() && Outward(fl, r, bound) && start + 4 <= r.count
    requires mask == InsideMask(fl, r, bound, start)
    requires mask != [true, true, true, true] && mask != [false, false, false, false]
    requires lane <= 4 && (forall j :: 0 <= j < lane ==> mask[j]) && (lane < 4 ==> !mask[lane])
    ensures 0 < lane < 4 && Bracket(fl, r, bound, start + lane, start + lane)
  {
    assert mask == [mask[0], mask[1], mask[2], mask[3]];
    assert mask[0] == r.In(fl, bound, start);
    assert mask[1] == r.In(fl, bound, start + 1);
    assert mask[2] == r.In(fl, bound, start + 2);
    assert mask[3] == r.In(fl, bound, start + 3);
    assert mask[0];
    assert 0 < lane < 4;
    assert mask[lane - 1] == r.In(fl, bound, start + (lane - 1));
  }

  /** The block search: probe four adjacent entries at a time. */
  method ProbeBlocks(fl: Rounding, r: HitRange, bound: real, from: nat, to: nat) returns (lo: nat, hi: nat)
    requires r.Valid() && Outward(fl, r, bound) && Bracket(fl, r, bound, from, to)
    ensures Bracket(fl, r, bound, lo, hi)
  {
    hide InsideMask, Inside, Outward;
    lo, hi := from, to;
    while hi - lo > 4
      invariant Bracket(fl, r, bound, lo, hi)
    {
      var middle := lo + (hi - lo) / 2;
      var start := if middle <= hi - 4 then middle else hi - 4;
      var mask := InsideMask(fl, r, bound, start);
      if mask == [true, true, true, true] {
        assert mask[3] == r.In(fl, bound, start + 3);
        lo := start + 4;
      } else if mask == [false, false, false, false] {
        assert mask[0] == r.In(fl, bound, start);
        hi := start;
      } else {
        var lane := FirstZero(mask);
        MixedMask(fl, r, bound, start, mask, lane);
        return start + lane, start + lane;
      }
    }
  }

  /** The SSE2 build: block search by fours, then a scalar tail. A block that
      straddles the cut leaves the tail nothing to do. */
  method ClampFourLane(fl: Rounding, r: HitRange, bound: real) returns (clamped: HitRange)
    requires r.Valid() && Outward(fl, r, bound)
    ensures clamped == r.(count := PrefixLength(fl, r, bound))
  {
    if r.count == 0 || r.In(fl, bound, r.count - 1) {
      PrefixUnique(fl, r, bound, r.count);
      return r;
    }
    if !r.In(fl, bound, 0) {
      return r.(count := 0);
    }
    var lo, hi := ProbeBlocks(fl, r, bound, 1, r.count);
    var c := BinarySearch(fl, r, bound, lo, hi);
    return r.(count := c);
  }

  /** The portable build: one binary search. */
  method ClampScalar(fl: Rounding, r: HitRange, bound: real) returns (clamped: HitRange)
    requires r.Valid() && Outward(fl, r, bound)
    ensures clamped == r.(count := PrefixLength(fl, r, bound))
  {
    if r.count == 0 || r.In(fl, bound, r.count - 1) {
      PrefixUnique(fl, r, bound, r.count);
      return r;
    }
    if !r.In(fl, bound, 0) {
      return r.(count := 0);
    }
    var c := BinarySearch(fl, r, bound, 1, r.count);
    return r.(count := c);
  }
}
