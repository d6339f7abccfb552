/** A projection table as the rest of the index sees it: a flat sequence of
    (value, id) pairs, strictly ordered by value and then by id, whose ids are
    a permutation of the point ids. */
module Tables {

  datatype Option<+T> = None | Some(value: T)

  /** Float32 rounding, seen through the two facts the code depends on: it is
      monotone and keeps zero (IEEE 754-2019, section 4.3.1). */
  ghost predicate IsRounding(f: real -> real) {
    f(0.0) == 0.0 && forall x, y :: KeepsOrder(f, x, y)
  }

  ghost predicate KeepsOrder(f: real -> real, x: real, y: real) {
    x <= y ==> f(x) <= f(y)
  }

  type Rounding = f: real -> real | IsRounding(f) witness (x: real) => x

  datatype Entry = Entry(value: real, id: nat)

  predicate KeyLess(a: Entry, b: Entry) {
    a.value < b.value || (a.value == b.value && a.id < b.id)
  }

  ghost predicate Ordered(t: seq<Entry>) {
    forall i, j {:trigger KeyLess(t[i], t[j])} :: 0 <= i < j < |t| ==> KeyLess(t[i], t[j])
  }

  ghost predicate DistinctIds(t: seq<Entry>) {
    forall i, j :: 0 <= i < j < |t| ==> t[i].id != t[j].id
  }

  ghost predicate IdsBelow(t: seq<Entry>, n: nat) {
    forall i :: 0 <= i < |t| ==> t[i].id < n
  }

  /** The table of n points: sorted, and holding every id below n once. */
  ghost predicate ValidTable(t: seq<Entry>, n: nat) {
    |t| == n && Ordered(t) && DistinctIds(t) && IdsBelow(t, n)
  }

  /** The partition point std::lower_bound finds. */
  ghost predicate IsLowerBound(t: seq<Entry>, q: real, p: nat) {
    p <= |t| &&
    (forall i :: 0 <= i < p ==> t[i].value < q) &&
    (forall i :: p <= i < |t| ==> q <= t[i].value)
  }

  ghost function LowerBound(t: seq<Entry>, q: real): (p: nat)
    requires Ordered(t)
    ensures IsLowerBound(t, q, p)
  {
    assert forall i :: 0 <= i < |t| - 1 ==> KeyLess(t[i], t[|t| - 1]);
    if |t| == 0 || t[|t| - 1].value < q then |t| else LowerBound(t[..|t| - 1], q)
  }

  lemma LowerBoundUnique(t: seq<Entry>, q: real, p: nat, r: nat)
    requires IsLowerBound(t, q, p) && IsLowerBound(t, q, r)
    ensures p == r
  {
    assert p < |t| ==> (p < r <==> t[p].value < q);
    assert r < |t| ==> (r < p <==> t[r].value < q);
  }

  predicate Inside(fl: Rounding, q: real, v: real, bound: real) {
    var d := fl(q - v);
    -bound <= d <= bound
  }

  /** A rounded difference cannot shrink while the value moves away from the
      query, so a window cuts a sorted run at one place. */
  lemma InsideTowardsQuery(fl: Rounding, q: real, near: real, far: real, bound: real)
    requires far <= near <= q || q <= near <= far
    requires Inside(fl, q, far, bound)
    ensures Inside(fl, q, near, bound)
  {
    if far <= near <= q {
      assert KeepsOrder(fl, 0.0, q - near) && KeepsOrder(fl, q - near, q - far);
    } else {
      assert KeepsOrder(fl, q - far, q - near) && KeepsOrder(fl, q - near, 0.0);
    }
  }

  ghost function Below(n: nat): (s: set<int>)
    ensures |s| == n
    ensures forall i :: i in s <==> 0 <= i < n
  {
    if n == 0 then {} else Below(n - 1) + {n - 1}
  }

  ghost function Ids(t: seq<Entry>): set<int> {
    set i | 0 <= i < |t| :: t[i].id as int
  }

  lemma {:induction false} IdsSize(t: seq<Entry>)
    requires DistinctIds(t)
    ensures |Ids(t)| == |t|
  {
    if |t| == 0 {
    } else {
      var front, last := t[..|t| - 1], t[|t| - 1];
      IdsSize(front);
      assert Ids(t) == Ids(front) + {last.id};
      assert last.id !in Ids(front);
    }
  }

  lemma SubsetOfSameSize<T>(a: set<T>, b: set<T>)
    requires a <= b && |a| == |b|
    ensures a == b
  {
    assert |b - a| == 0;
    assert b == a + (b - a);
  }

  /** Pigeonhole: n distinct ids below n are all the ids below n. */
  lemma EveryIdOccurs(t: seq<Entry>, n: nat)
    requires |t| == n && DistinctIds(t) && IdsBelow(t, n)
    ensures Ids(t) == Below(n)
  {
    IdsSize(t);
    SubsetOfSameSize(Ids(t), Below(n));
  }

  // ---- small facts about sequences of numbers --------------------------

  ghost predicate NoDuplicates(s: seq<int>) {
    forall i, j :: 0 <= i < j < |s| ==> s[i] != s[j]
  }

  ghost function Elements(s: seq<int>): (r: set<int>)
    ensures forall x :: x in r <==> x in s
  {
    if s == [] then {} else Elements(s[..|s| - 1]) + {s[|s| - 1]}
  }

  lemma {:induction false} DistinctSize(s: seq<int>)
    requires NoDuplicates(s)
    ensures |Elements(s)| == |s|
  {
    if s == [] {
    } else {
      DistinctSize(s[..|s| - 1]);
      assert s[|s| - 1] !in s[..|s| - 1];
    }
  }

  lemma {:induction false} SubsetSize<T>(a: set<T>, b: set<T>)
    requires a <= b
    ensures |a| <= |b|
    decreases |a|
  {
    if a == {} {
    } else {
      var x :| x in a;
      SubsetSize(a - {x}, b - {x});
    }
  }

  /** Distinct numbers strictly between 0 and n are fewer than n. */
  lemma DistinctBounded(s: seq<int>, n: nat)
    requires NoDuplicates(s) && n > 0 && forall x :: x in s ==> 0 < x < n
    ensures |s| < n
  {
    DistinctSize(s);
    SubsetSize(Elements(s), Below(n) - {0});
  }

  lemma {:induction false} MultipleMonotone(a: nat, b: nat, c: nat)
    requires a < b
    ensures a * c + c <= b * c
    decreases b
  {
    assert b * c == (b - 1) * c + c;
    if a + 1 == b {
    } else {
      MultipleMonotone(a, b - 1, c);
    }
  }

  lemma SliceOfSlice<T>(s: seq<T>, a: nat, b: nat, c: nat, d: nat)
    requires a <= b <= |s| && c <= d <= b - a
    ensures s[a..b][c..d] == s[a + c..a + d]
  {
    var l, r := s[a..b][c..d], s[a + c..a + d];
    forall i | 0 <= i < d - c
      ensures l[i] == r[i]
    {
      assert l[i] == s[a..b][c + i];
    }
  }

  /** Two sorted pieces join into one when the boundary is in order. */
  lemma OrderedConcat(s: seq<Entry>, t: seq<Entry>)
    requires Ordered(s) && Ordered(t)
    requires |s| > 0 && |t| > 0 ==> KeyLess(s[|s| - 1], t[0])
    ensures Ordered(s + t)
  {
    var st := s + t;
    forall i, j | 0 <= i < j < |st|
      ensures KeyLess(st[i], st[j])
    {
      if i < |s| <= j {
        assert i == |s| - 1 || KeyLess(s[i], s[|s| - 1]);
        assert j == |s| || KeyLess(t[0], t[j - |s|]);
      }
    }
  }
}
