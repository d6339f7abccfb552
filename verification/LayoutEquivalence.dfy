/** What is built can be opened, and the two persistent layouts cannot be told
    apart: over any sequence of scans the B+ tree and the sorted array deliver
    the same hits and the same reports. */
module LayoutEquivalence {
  import opened Tables
  import opened WindowClamp
  import opened FlatCursor
  import opened PageTree
  import opened ArrayIndexes
  import opened BPlusIndex
  import opened BPlusTree
  import opened HeaderCheck
  import opened OpenIndex
  import opened Builder
  import FileLayout

  // ---- a heap spells at most one tree per root -------------------------

  /** Pages determine the tree below a page. */
  lemma {:induction false} TreeUnique(pages: seq<Page>, t: Tree, s: Tree)
    requires Represents(pages, t) && Represents(pages, s) && t.page == s.page
    ensures t == s
  {
    assert (t.kids == []) == (s.kids == []);
    if t.kids == [] {
    } else {
      assert Roots(t.kids) == Roots(s.kids);
      assert |t.kids| == |Roots(t.kids)| == |Roots(s.kids)| == |s.kids|;
      forall i | 0 <= i < |t.kids|
        ensures t.kids[i] == s.kids[i]
      {
        assert Roots(t.kids)[i] == Roots(s.kids)[i];
        TreeUnique(pages, t.kids[i], s.kids[i]);
      }
      assert t.kids == s.kids;
    }
  }

  lemma ForestUnique(pages: seq<Page>, pageSize: nat, roots: seq<nat>, n: nat, a: seq<Tree>, b: seq<Tree>)
    requires AllowedPageSize(pageSize)
    requires ValidHeap(pages, pageSize, roots, n, a) && ValidHeap(pages, pageSize, roots, n, b)
    ensures a == b
  {
    forall u | 0 <= u < |roots|
      ensures a[u] == b[u]
    {
      assert ValidTableTree(pages, roots[u], n, a[u]) && ValidTableTree(pages, roots[u], n, b[u]);
      TreeUnique(pages, a[u], b[u]);
    }
  }

  // ---- leaf boundaries are region boundaries ---------------------------

  lemma {:induction false} FullOffsets(pages: seq<Page>, ls: seq<nat>, capacity: nat, k: nat)
    requires InHeap(pages, ls) && FullLeaves(pages, ls, capacity) && k < |ls|
    ensures Offset(pages, ls, k) == k * capacity
  {
    if k == 0 {
      OffsetEnds(pages, ls);
    } else {
      FullOffsets(pages, ls, capacity, k - 1);
      OffsetStep(pages, ls, k - 1);
      assert k * capacity == (k - 1) * capacity + capacity;
    }
  }

  lemma LastRegion(n: nat, capacity: nat, last: nat, size: nat)
    requires 0 < size <= capacity && n == last * capacity + size
    ensures (n - 1) / capacity == last
  {
    var q := (n - 1) / capacity;
    DivBounds(n - 1, capacity);
    if q < last {
      MultipleMonotone(q, last, capacity);
      assert false;
    }
    if last < q {
      MultipleMonotone(last, q, capacity);
      assert false;
    }
  }

  /** A chain of leaves that are full but for the last has the region starts that
      integer division by the leaf capacity gives. */
  lemma LeafStartsAreRegions(pages: seq<Page>, ls: seq<nat>, capacity: nat)
    requires LeafPages(pages, ls) && ls != [] && FullLeaves(pages, ls, capacity) && capacity > 0
    requires |pages[ls[|ls| - 1]].entries| <= capacity
    ensures var n := |Contents(pages, ls)|;
            n > 0 && LeafStarts(pages, ls) == RegionStarts(n, capacity)
  {
    var n, last := |Contents(pages, ls)|, |ls| - 1;
    OffsetEnds(pages, ls);
    OffsetStep(pages, ls, last);
    FullOffsets(pages, ls, capacity, last);
    LastRegion(n, capacity, last, |pages[ls[last]].entries|);
    forall k | 0 <= k < |ls|
      ensures LeafStarts(pages, ls)[k] == RegionStarts(n, capacity)[k]
    {
      FullOffsets(pages, ls, capacity, k);
    }
  }

  lemma LeafSize(pages: seq<Page>, pageSize: nat, ls: seq<nat>, k: nat)
    requires AllowedPageSize(pageSize) && LeafPages(pages, ls) && k < |ls|
    requires forall p :: 0 < p < |pages| ==> PageShape(pages[p], pageSize)
    ensures |pages[ls[k]].entries| <= LeafCapacity(pageSize)
  {
    assert PageShape(pages[ls[k]], pageSize);
  }

  /** A built table looks the same through the leaf chain and as one sorted. */
  lemma BuiltView(fl: Rounding, pages: seq<Page>, pageSize: nat, tables: seq<seq<Entry>>, n: nat, roots: seq<nat>,
                  trees: seq<Tree>, t: nat, q: real)
    requires AllowedPageSize(pageSize) && HeapBuilt(pages, pageSize, tables, n, roots, trees) && t < |tables|
    ensures Chain(pages, Leaves(trees[t])) && n > 0 && |tables[t]| == n
    ensures ChainView(fl, pages, Leaves(trees[t]), q) == View(fl, tables[t], q, RegionStarts(n, LeafCapacity(pageSize)))
  {
    var ls := Leaves(trees[t]);
    assert ValidTableTree(pages, roots[t], n, trees[t]);
    LeafSize(pages, pageSize, ls, |ls| - 1);
    LeafStartsAreRegions(pages, ls, LeafCapacity(pageSize));
  }

  // ---- opening what was built ------------------------------------------

  lemma BuiltOpens(pages: seq<Page>, pageSize: nat, tables: seq<seq<Entry>>, n: nat, roots: seq<nat>, trees: seq<Tree>)
    requires AllowedPageSize(pageSize) && HeapBuilt(pages, pageSize, tables, n, roots, trees)
    ensures Decoded(pages, pageSize) && Openable(pages, pageSize, roots, n)
  {
    forall p | 0 < p < |pages|
      ensures PageShape(pages[p], pageSize)
    {}
  }

  /** Open accepts every heap Build makes, and reads back the tables it was given. */
  method BuildThenOpen(fl: Rounding, tables: seq<seq<Entry>>, n: nat, pageSize: nat) returns (index: BPlusTreeIndex)
    requires AllowedPageSize(pageSize) && ValidTables(tables, n) && 0 < |tables| <= FileLayout.MAX_TABLES
    ensures fresh(index) && index.Valid() && index.fl == fl && index.numPoints == n && |index.roots| == |tables|
    ensures forall t, q :: 0 <= t < |tables| ==>
              index.TableView(t, q) == View(fl, tables[t], q, RegionStarts(n, LeafCapacity(pageSize)))
  {
    var pages, roots;
    ghost var trees;
    pages, roots, trees := Build(tables, n, pageSize);
    BuiltOpens(pages, pageSize, tables, n, roots, trees);
    FileLayout.HeapFits(|tables|, n, pageSize);
    var ok, validated := Open(fl, pages, pageSize, roots, n);
    index := validated;
    ForestUnique(pages, pageSize, roots, n, trees, index.trees);
    forall t, q | 0 <= t < |tables|
      ensures index.TableView(t, q) == View(fl, tables[t], q, RegionStarts(n, LeafCapacity(pageSize)))
    {
      BuiltView(fl, pages, pageSize, tables, n, roots, trees, t, q);
    }
  }

  // ---- running both ----------------------------------------------------

  /** What the flat cursor answers to a sequence of scan calls, and where it ends. */
  ghost function Answers(v: View, calls: seq<Call>): (r: (Cursor, seq<ScanResult>))
    requires v.Valid()
    ensures InBounds(v, r.0) && |r.1| == |calls|
  {
    if calls == [] then (Reset(v), [])
    else
      var (c, results) := Answers(v, calls[..|calls| - 1]);
      var call := calls[|calls| - 1];
      if Admissible(c, call) then
        var s := FlatCursor.Scan(v, c, call);
        (s.cursor, results + [Delivered(s.hits, s.report)])
      else
        (c, results + [Refused(Refusal(c.last, call).value)])
  }

  lemma AnswersStep(v: View, calls: seq<Call>, i: nat, after: Cursor, r: ScanResult)
    requires v.Valid() && i < |calls| && ScanMeets(v, Answers(v, calls[..i]).0, calls[i], after, r)
    ensures Answers(v, calls[..i + 1]) == (after, Answers(v, calls[..i]).1 + [r])
  {
    assert calls[..i + 1][..i] == calls[..i] && calls[..i + 1][i] == calls[i];
    hide FlatCursor.Scan;
  }

  /** The tree and the array over the same table answer any scan sequence alike,
      refusals included: as the flat cursor does. */
  method CompareLayouts(tree: BPlusTreeIndex, sorted: SortedArrayIndex, tableId: nat, query: real, calls: seq<Call>)
    returns (treeResults: seq<ScanResult>, arrayResults: seq<ScanResult>)
    requires tree.Valid() && sorted.Valid() && |tree.roots| == |sorted.tables| && tableId < |sorted.tables|
    requires tree.TableView(tableId, query) == sorted.TableView(tableId, query)
    ensures treeResults == arrayResults == Answers(sorted.TableView(tableId, query), calls).1
  {
    treeResults, arrayResults := [], [];
    ghost var v := sorted.TableView(tableId, query);
    var disk := new DiskCursor();
    var flat := new ArrayCursor();
    var diskOk := tree.ResetCursor(disk, tableId, query);
    var flatOk := sorted.ResetCursor(flat, tableId, query);
    for i := 0 to |calls|
      invariant tree.Owns(disk) && disk.tableId == tableId && disk.query == query
      invariant sorted.Owns(flat) && flat.tableId == tableId && flat.query == query
      invariant Answers(v, calls[..i]) == (flat.position.Flat(sorted.numPoints), arrayResults)
      invariant Answers(v, calls[..i]) == (tree.Position(disk), treeResults)
    {
      hide FlatCursor.Scan, ScanMeets, Answers;
      var treeResult := tree.Scan(disk, calls[i]);
      AnswersStep(v, calls, i, tree.Position(disk), treeResult);
      var arrayResult := sorted.Scan(flat, calls[i]);
      AnswersStep(v, calls, i, flat.position.Flat(sorted.numPoints), arrayResult);
      treeResults := treeResults + [treeResult];
      arrayResults := arrayResults + [arrayResult];
    }
    assert calls[..|calls|] == calls;
  }

  /** Layout equivalence: build the tree, open it, and scan it beside the sorted
      array of the same tables and page size. */
  method LayoutsAgree(fl: Rounding, tables: seq<seq<Entry>>, n: nat, pageSize: nat, tableId: nat, query: real,
                      calls: seq<Call>)
    returns (treeResults: seq<ScanResult>, arrayResults: seq<ScanResult>)
    requires AllowedPageSize(pageSize) && ValidTables(tables, n) && tableId < |tables| <= FileLayout.MAX_TABLES
    ensures var v := View(fl, tables[tableId], query, RegionStarts(n, LeafCapacity(pageSize)));
            v.Valid() && treeResults == arrayResults == Answers(v, calls).1
  {
    var tree := BuildThenOpen(fl, tables, n, pageSize);
    var sorted := new SortedArrayIndex(fl, tables, n, pageSize);
    assert sorted.TableView(tableId, query) ==
           View(fl, tables[tableId], query, RegionStarts(n, LeafCapacity(pageSize)));
    treeResults, arrayResults := CompareLayouts(tree, sorted, tableId, query, calls);
  }

  // ---- regions do not matter to quantum scans --------------------------

  lemma QuantumLeft(v: View, w: View, c: Cursor, bound: real, limit: nat)
    requires v.Valid() && w == v.(starts := w.starts) && w.Valid() && InBounds(v, c)
    ensures ScanLeft(v, c, bound, limit, Quantum) == ScanLeft(w, c, bound, limit, Quantum)
  {
    hide PrefixLength, RegionOf;
  }

  lemma QuantumRight(v: View, w: View, c: Cursor, bound: real, limit: nat)
    requires v.Valid() && w == v.(starts := w.starts) && w.Valid() && InBounds(v, c)
    ensures ScanRight(v, c, bound, limit, Quantum) == ScanRight(w, c, bound, limit, Quantum)
  {
    hide PrefixLength, RegionOf;
  }

  /** A quantum scan does not see regions, so the in-memory layout, one region
      wide, agrees as well. */
  lemma QuantumIgnoresRegions(v: View, w: View, c: Cursor, call: Call)
    requires v.Valid() && w == v.(starts := w.starts) && w.Valid() && InBounds(v, c) && Admissible(c, call)
    requires call.scope == Quantum
    ensures FlatCursor.Scan(v, c, call) == FlatCursor.Scan(w, c, call) && Reset(v) == Reset(w)
  {
    hide ScanLeft, ScanRight;
    var c0 := Reopen(c, call.bound);
    QuantumLeft(v, w, c0, call.bound, LeftLimit(call.limit, Quantum));
    var (c1, hits) := ScanLeft(v, c0, call.bound, LeftLimit(call.limit, Quantum), Quantum);
    assert InBounds(v, c1) && |hits| <= LeftLimit(call.limit, Quantum) by {
      LeftStays(v, c0, call.bound, LeftLimit(call.limit, Quantum));
    }
    QuantumRight(v, w, c1, call.bound, RightLimit(call.limit, Quantum, |hits|));
  }

  lemma LeftStays(v: View, c: Cursor, bound: real, limit: nat)
    requires v.Valid() && InBounds(v, c)
    ensures var (c1, hits) := ScanLeft(v, c, bound, limit, Quantum); InBounds(v, c1) && |hits| <= limit
  {}

  ghost predicate AllQuantum(calls: seq<Call>) {
    forall i :: 0 <= i < |calls| ==> calls[i].scope == Quantum
  }

  /** All three layouts answer quantum scan sequences alike. */
  lemma {:induction false} QuantumAnswers(v: View, w: View, calls: seq<Call>)
    requires v.Valid() && w == v.(starts := w.starts) && w.Valid() && AllQuantum(calls)
    ensures Answers(v, calls) == Answers(w, calls)
  {
    if calls != [] {
      QuantumAnswers(v, w, calls[..|calls| - 1]);
      var (c, results) := Answers(v, calls[..|calls| - 1]);
      hide FlatCursor.Scan;
      if Admissible(c, calls[|calls| - 1]) {
        QuantumIgnoresRegions(v, w, c, calls[|calls| - 1]);
      }
    } else {
      assert LowerBound(v.entries, v.query) == LowerBound(w.entries, w.query);
    }
  }
}
