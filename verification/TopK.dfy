/** The result list of a search: the k best evaluated points, kept in order while
    candidates arrive one at a time. */
module TopK {
  import opened Tables

  datatype Neighbor = Neighbor(distance: real, id: nat)

  predicate Better(a: Neighbor, b: Neighbor) {
    a.distance < b.distance || (a.distance == b.distance && a.id < b.id)
  }

  ghost predicate BestFirst(ns: seq<Neighbor>) {
    forall i, j {:trigger Better(ns[i], ns[j])} :: 0 <= i < j < |ns| ==> Better(ns[i], ns[j])
  }

  ghost predicate Listed(ns: seq<Neighbor>, p: nat) {
    exists i :: 0 <= i < |ns| && ns[i].id == p
  }

  /** Point p cannot improve a full list: it is behind the last neighbour, or its
      distance is too large to represent. */
  ghost predicate Beaten(ns: seq<Neighbor>, k: nat, distances: seq<Option<real>>, p: nat)
    requires p < |distances|
  {
    |ns| == k && k > 0 && (distances[p].None? || Better(ns[k - 1], Neighbor(distances[p].value, p)))
  }

  ghost predicate Known(seen: set<nat>, distances: seq<Option<real>>) {
    forall p :: p in seen ==> p < |distances|
  }

  /** ns is the evaluated set seen, sorted by (distance, id) and cut off after k. */
  ghost predicate IsTopK(ns: seq<Neighbor>, k: nat, seen: set<nat>, distances: seq<Option<real>>)
    requires Known(seen, distances)
  {
    |ns| <= k && BestFirst(ns) &&
    (forall i :: 0 <= i < |ns| ==> ns[i].id in seen && distances[ns[i].id] == Some(ns[i].distance)) &&
    forall p :: p in seen ==> Listed(ns, p) || Beaten(ns, k, distances, p)
  }

  // ---- insertion -------------------------------------------------------

  /** Where std::lower_bound puts a candidate. */
  function Place(ns: seq<Neighbor>, c: Neighbor): (at: nat)
    ensures at <= |ns|
    ensures forall i :: 0 <= i < at ==> Better(ns[i], c)
    ensures at < |ns| ==> !Better(ns[at], c)
  {
    if ns == [] then 0
    else
      var front := Place(ns[..|ns| - 1], c);
      if front < |ns| - 1 then front
      else if Better(ns[|ns| - 1], c) then |ns| else |ns| - 1
  }

  /** The list after InsertNeighbor. */
  function InsertBest(ns: seq<Neighbor>, c: Neighbor, k: nat): (r: seq<Neighbor>)
    requires |ns| <= k
    ensures |r| <= k && |r| <= |ns| + 1
  {
    var at := Place(ns, c);
    if at == k then ns
    else
      var longer := ns[..at] + [c] + ns[at..];
      if |longer| > k then longer[..k] else longer
  }

  /** InsertNeighbor: binary search, insert, and drop the last when over-full. */
  method InsertNeighbor(ns0: seq<Neighbor>, candidate: Neighbor, k: nat) returns (ns: seq<Neighbor>)
    requires |ns0| <= k && BestFirst(ns0)
    ensures ns == InsertBest(ns0, candidate, k)
  {
    var lo, hi := 0, |ns0|;
    while lo < hi
      invariant lo <= hi <= |ns0|
      invariant forall i :: 0 <= i < lo ==> Better(ns0[i], candidate)
      invariant forall i :: hi <= i < |ns0| ==> !Better(ns0[i], candidate)
    {
      var middle := lo + (hi - lo) / 2;
      assert forall i :: 0 <= i < middle ==> Better(ns0[i], ns0[middle]);
      assert forall i :: middle < i < |ns0| ==> Better(ns0[middle], ns0[i]);
      if Better(ns0[middle], candidate) {
        lo := middle + 1;
      } else {
        hi := middle;
      }
    }
    ghost var at := Place(ns0, candidate);
    assert lo < |ns0| ==> !Better(ns0[lo], candidate);
    assert at < |ns0| ==> !Better(ns0[at], candidate);
    if |ns0| == k && lo == |ns0| {
      return ns0;
    }
    ns := ns0[..lo] + [candidate] + ns0[lo..];
    if |ns| > k {
      ns := ns[..|ns| - 1];
    }
  }

  lemma InsertOrdered(ns: seq<Neighbor>, c: Neighbor)
    requires BestFirst(ns) && !Listed(ns, c.id)
    ensures BestFirst(ns[..Place(ns, c)] + [c] + ns[Place(ns, c)..])
  {
    var at := Place(ns, c);
    var r := ns[..at] + [c] + ns[at..];
    assert forall i :: 0 <= i < |ns| ==> ns[i].id != c.id;
    forall i | at <= i < |ns|
      ensures Better(c, ns[i])
    {
      assert Better(c, ns[at]);
      assert i == at || Better(ns[at], ns[i]);
    }
    forall i, j | 0 <= i < j < |r|
      ensures Better(r[i], r[j])
    {
      assert r[i] == (if i < at then ns[i] else if i == at then c else ns[i - 1]);
      assert r[j] == (if j < at then ns[j] else if j == at then c else ns[j - 1]);
    }
  }

  /** The uncut list: where each old member and the candidate went. */
  lemma InsertMembers(ns: seq<Neighbor>, c: Neighbor, k: nat)
    requires BestFirst(ns) && |ns| <= k && k > 0 && !Listed(ns, c.id)
    ensures var at, r := Place(ns, c), InsertBest(ns, c, k);
            BestFirst(r) && |r| == (if |ns| < k then |ns| + 1 else k) &&
            (forall i :: 0 <= i < |r| ==> r[i] == (if i < at then ns[i] else if i == at then c else ns[i - 1]))
  {
    InsertOrdered(ns, c);
    var at := Place(ns, c);
    var longer := ns[..at] + [c] + ns[at..];
    hide BestFirst, Place, Listed;
    if |longer| > k {
      FrontStaysBest(longer, k);
    }
  }

  lemma FrontStaysBest(ns: seq<Neighbor>, k: nat)
    requires BestFirst(ns) && k <= |ns|
    ensures BestFirst(ns[..k])
  {
    assert forall i, j :: 0 <= i < j < k ==> Better(ns[i], ns[j]);
  }

  lemma StillPlaced(ns: seq<Neighbor>, c: Neighbor, k: nat, distances: seq<Option<real>>, p: nat)
    requires BestFirst(ns) && |ns| <= k && k > 0 && !Listed(ns, c.id) && p < |distances| && p != c.id
    requires forall i :: 0 <= i < |ns| && ns[i].id == p ==> distances[p] == Some(ns[i].distance)
    requires Listed(ns, p) || Beaten(ns, k, distances, p)
    ensures var r := InsertBest(ns, c, k); Listed(r, p) || Beaten(r, k, distances, p)
  {
    InsertMembers(ns, c, k);
    var at, r := Place(ns, c), InsertBest(ns, c, k);
    hide InsertBest, Place;
    if Listed(ns, p) {
      var i :| 0 <= i < |ns| && ns[i].id == p;
      var moved := if i < at then i else i + 1;
      if moved < |r| {
        assert r[moved] == ns[i];
      } else {
        assert i == k - 1 && |r| == k;
        assert r[k - 1] == (if k - 1 == at then c else ns[k - 2]);
        assert k - 1 == at ==> !Better(ns[at], c);
        assert k - 1 != at ==> Better(ns[k - 2], ns[k - 1]);
      }
    } else {
      assert |r| == k;
      assert at < k ==> r[k - 1] == (if k - 1 == at then c else ns[k - 2]);
      assert at < k ==> !Better(ns[at], c) && (at == k - 1 || Better(ns[at], ns[k - 1]));
      assert at < k - 1 ==> Better(ns[k - 2], ns[k - 1]);
    }
  }

  /** Inserting an evaluated point keeps the list exact. */
  lemma InsertKeeps(ns: seq<Neighbor>, k: nat, seen: set<nat>, distances: seq<Option<real>>, p: nat)
    requires Known(seen, distances) && IsTopK(ns, k, seen, distances) && k > 0
    requires p !in seen && p < |distances| && distances[p].Some?
    ensures IsTopK(InsertBest(ns, Neighbor(distances[p].value, p), k), k, seen + {p}, distances)
  {
    var c := Neighbor(distances[p].value, p);
    InsertMembers(ns, c, k);
    var r, at := InsertBest(ns, c, k), Place(ns, c);
    forall s | s in seen + {p}
      ensures Listed(r, s) || Beaten(r, k, distances, s)
    {
      if s == p {
        if at < |r| {
          assert r[at] == c;
        } else {
          assert Better(ns[k - 1], c);
        }
      } else {
        StillPlaced(ns, c, k, distances, s);
      }
    }
  }

  /** Leaving out a point the full list already beats keeps the list exact. */
  lemma PruneKeeps(ns: seq<Neighbor>, k: nat, seen: set<nat>, distances: seq<Option<real>>, p: nat)
    requires Known(seen, distances) && IsTopK(ns, k, seen, distances) && p < |distances| && p !in seen
    requires |ns| == k && k > 0 && (distances[p].None? || distances[p].value > ns[k - 1].distance)
    ensures IsTopK(ns, k, seen + {p}, distances)
  {}

  /** Inserting such a point anyway would change nothing. */
  lemma InsertBeaten(ns: seq<Neighbor>, c: Neighbor, k: nat)
    requires BestFirst(ns) && |ns| == k && k > 0 && c.distance > ns[k - 1].distance
    ensures InsertBest(ns, c, k) == ns
  {
    assert forall i :: 0 <= i < k - 1 ==> Better(ns[i], ns[k - 1]);
    assert forall i :: 0 <= i < k ==> Better(ns[i], c);
  }

  // ---- what the list is ------------------------------------------------

  ghost function NeighborIds(ns: seq<Neighbor>): (ids: set<nat>)
    ensures forall p :: p in ids <==> Listed(ns, p)
  {
    set i | 0 <= i < |ns| :: ns[i].id
  }

  lemma {:induction false} NeighborIdsSize(ns: seq<Neighbor>)
    requires forall i, j :: 0 <= i < j < |ns| ==> ns[i].id != ns[j].id
    ensures |NeighborIds(ns)| == |ns|
  {
    if ns == [] {
    } else {
      var front, last := ns[..|ns| - 1], ns[|ns| - 1];
      NeighborIdsSize(front);
      assert NeighborIds(ns) == NeighborIds(front) + {last.id};
      assert last.id !in NeighborIds(front);
    }
  }

  /** It holds min(k, evaluated) neighbours, all of them different points. */
  lemma TopKSize(ns: seq<Neighbor>, k: nat, seen: set<nat>, distances: seq<Option<real>>)
    requires Known(seen, distances) && IsTopK(ns, k, seen, distances)
    ensures |ns| == if |seen| < k then |seen| else k
    ensures NeighborIds(ns) <= seen && |NeighborIds(ns)| == |ns|
  {
    forall i, j | 0 <= i < j < |ns|
      ensures ns[i].id != ns[j].id
    {
      assert Better(ns[i], ns[j]);
    }
    NeighborIdsSize(ns);
    SubsetSize(NeighborIds(ns), seen);
    if |ns| < k {
      assert NeighborIds(ns) == seen;
    }
  }

  lemma BestFirstDistinct(ns: seq<Neighbor>, i: nat, j: nat)
    requires BestFirst(ns) && i < j < |ns|
    ensures ns[i] != ns[j] && Better(ns[i], ns[j])
  {
    assert Better(ns[i], ns[j]);
  }

  lemma ListedElsewhere(a: seq<Neighbor>, b: seq<Neighbor>, i: nat, j: nat)
    requires BestFirst(a) && BestFirst(b) && i < |a| && i < |b| && j < |b|
    requires a[..i] == b[..i] && b[j] == a[i]
    ensures !Better(a[i], b[i])
  {
    hide BestFirst;
    if j < i {
      assert a[j] == a[..i][j] && b[j] == b[..i][j];
      BestFirstDistinct(a, j, i);
    } else if i < j {
      BestFirstDistinct(b, i, j);
    }
  }

  lemma SameUpTo(a: seq<Neighbor>, b: seq<Neighbor>, k: nat, seen: set<nat>, distances: seq<Option<real>>, i: nat)
    requires Known(seen, distances) && IsTopK(a, k, seen, distances) && IsTopK(b, k, seen, distances)
    requires |a| == |b| && i < |a| && a[..i] == b[..i]
    ensures !Better(a[i], b[i])
  {
    var p := a[i].id;
    assert p in seen && distances[p] == Some(a[i].distance);
    if Listed(b, p) {
      var j :| 0 <= j < |b| && b[j].id == p;
      assert b[j] == a[i];
      ListedElsewhere(a, b, i, j);
    } else {
      assert Better(b[k - 1], a[i]);
      assert i == k - 1 || Better(b[i], b[k - 1]);
    }
  }

  lemma {:induction false} SamePrefix(a: seq<Neighbor>, b: seq<Neighbor>, k: nat, seen: set<nat>,
                                      distances: seq<Option<real>>, i: nat)
    requires Known(seen, distances) && IsTopK(a, k, seen, distances) && IsTopK(b, k, seen, distances)
    requires |a| == |b| && i <= |a|
    ensures a[..i] == b[..i]
  {
    if i == 0 {
    } else {
      SamePrefix(a, b, k, seen, distances, i - 1);
      SameUpTo(a, b, k, seen, distances, i - 1);
      SameUpTo(b, a, k, seen, distances, i - 1);
      assert a[i - 1] == b[i - 1];
      assert a[..i] == a[..i - 1] + [a[i - 1]] && b[..i] == b[..i - 1] + [b[i - 1]];
    }
  }

  /** There is only one such list: the order points arrived in leaves no trace. */
  lemma TopKUnique(a: seq<Neighbor>, b: seq<Neighbor>, k: nat, seen: set<nat>, distances: seq<Option<real>>)
    requires Known(seen, distances) && IsTopK(a, k, seen, distances) && IsTopK(b, k, seen, distances)
    ensures a == b
  {
    TopKSize(a, k, seen, distances);
    TopKSize(b, k, seen, distances);
    SamePrefix(a, b, k, seen, distances, |a|);
    assert a[..|a|] == a && b[..|b|] == b;
  }
}
