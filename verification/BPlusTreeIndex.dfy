/** The opened B+ tree index: its cursor is placed by descent and advanced by the
    leaf walk, and behaves as the flat cursor over the table the leaves spell. */
module BPlusTree {
  import opened Tables
  import opened FlatCursor
  import opened ScanShares
  import opened PageTree
  import opened ArrayIndexes
  import opened BPlusIndex

  // ---- descent ---------------------------------------------------------

  lemma SplitAt<T>(ts: seq<T>, c: nat)
    requires c < |ts|
    ensures ts == ts[..c + 1] + ts[c + 1..] && ts[..c + 1] == ts[..c] + [ts[c]]
  {}

  lemma ForestSplit(ts: seq<Tree>, c: nat)
    requires c < |ts|
    ensures ForestPreorder(ts) == ForestPreorder(ts[..c + 1]) + ForestPreorder(ts[c + 1..])
    ensures ForestPreorder(ts[..c + 1]) == ForestPreorder(ts[..c]) + Preorder(ts[c])
  {
    SplitAt(ts, c);
    ForestPreorderSnoc(ts[..c], ts[c]);
    ForestPreorderConcat(ts[..c + 1], ts[c + 1..]);
  }

  lemma ForestLeavesSplit(ts: seq<Tree>, c: nat)
    requires c < |ts|
    ensures ForestLeaves(ts) == ForestLeaves(ts[..c + 1]) + ForestLeaves(ts[c + 1..])
    ensures ForestLeaves(ts[..c + 1]) == ForestLeaves(ts[..c]) + Leaves(ts[c])
  {
    SplitAt(ts, c);
    ForestLeavesSnoc(ts[..c], ts[c]);
    ForestLeavesConcat(ts[..c + 1], ts[c + 1..]);
  }

  lemma {:induction false} HeightBound(t: Tree)
    ensures Height(t) < |Preorder(t)|
  {
    if t.kids == [] {
    } else {
      HeightBound(t.kids[0]);
      ForestSplit(t.kids, 0);
    }
  }

  /** A tree of a valid heap is lower than the heap is long. */
  lemma HeightBelowPageCount(pages: seq<Page>, trees: seq<Tree>, u: nat)
    requires NoDuplicates(ForestPreorder(trees)) && u < |trees|
    requires forall p :: p in ForestPreorder(trees) <==> 0 < p < |pages|
    ensures Height(trees[u]) + 1 < |pages|
  {
    var all := ForestPreorder(trees);
    ForestSplit(trees, u);
    HeightBound(trees[u]);
    assert |all| > 0;
    assert all[0] in all;
    DistinctBounded(all, |pages|);
  }

  ghost predicate Run(ls: seq<nat>, k: nat, part: seq<nat>) {
    k + |part| <= |ls| && ls[k..k + |part|] == part
  }

  /** Subtree t holds the leaves from number k on, and the query's partition point
      is in it: everything before is below the query, everything after is not. */
  ghost predicate Covers(pages: seq<Page>, ls: seq<nat>, q: real, t: Tree, k: nat)
    requires LeafPages(pages, ls)
  {
    Represents(pages, t) && Run(ls, k, Leaves(t)) &&
    (k > 0 ==> FirstEntry(pages, t).value < q) &&
    (k + |Leaves(t)| < |ls| ==> q <= pages[ls[k + |Leaves(t)|]].entries[0].value)
  }

  /** Where the leaves of a child sit among the leaves of its parent. */
  lemma KidLeavesAt(ls: seq<nat>, t: Tree, k: nat, c: nat)
    requires Run(ls, k, Leaves(t)) && c < |t.kids|
    ensures var from, size := k + |ForestLeaves(t.kids[..c])|, |Leaves(t.kids[c])|;
            from + size <= k + |Leaves(t)| && Run(ls, from, Leaves(t.kids[c])) &&
            (c == 0 ==> from == k) &&
            (c + 1 == |t.kids| ==> from + size == k + |Leaves(t)|)
  {
    hide ForestLeaves;
    ForestLeavesSplit(t.kids, c);
    ForestLeavesEnds(t.kids);
    InnerSlice(ls, k, ForestLeaves(t.kids[..c]), Leaves(t.kids[c]), ForestLeaves(t.kids[c + 1..]));
  }

  lemma ForestLeavesEnds(ts: seq<Tree>)
    ensures ForestLeaves(ts[..0]) == [] && ForestLeaves(ts[|ts|..]) == []
  {}

  lemma InnerSlice(ls: seq<nat>, k: nat, a: seq<nat>, b: seq<nat>, c: seq<nat>)
    requires k + |a + b + c| <= |ls| && ls[k..k + |a + b + c|] == a + b + c
    ensures ls[k + |a|..k + |a| + |b|] == b
  {
    SliceOfSlice(ls, k, k + |a + b + c|, |a|, |a| + |b|);
    assert (a + b + c)[|a|..|a| + |b|] == b;
  }

  lemma NextKidLeaf(ls: seq<nat>, t: Tree, k: nat, c: nat)
    requires Run(ls, k, Leaves(t)) && c + 1 < |t.kids|
    ensures var at := k + |ForestLeaves(t.kids[..c])| + |Leaves(t.kids[c])|;
            at < k + |Leaves(t)| && ls[at] == Leaves(t.kids[c + 1])[0]
  {
    hide ForestLeaves;
    KidLeavesAt(ls, t, k, c + 1);
    ForestLeavesSplit(t.kids, c);
    var from, size := k + |ForestLeaves(t.kids[..c + 1])|, |Leaves(t.kids[c + 1])|;
    assert ls[from] == ls[from..from + size][0];
  }

  lemma FirstKidEntry(pages: seq<Page>, t: Tree)
    requires t.kids != []
    ensures FirstEntry(pages, t.kids[0]) == FirstEntry(pages, t)
  {
    ForestLeavesSplit(t.kids, 0);
  }

  lemma KidFacts(pages: seq<Page>, t: Tree, c: nat)
    requires Represents(pages, t) && c < |t.kids|
    ensures Represents(pages, t.kids[c]) && Height(t.kids[c]) + 1 == Height(t)
    ensures |pages[t.page].children| == |t.kids| && pages[t.page].children[c] == t.kids[c].page
    ensures |pages[t.page].separators| == |t.kids| - 1
    ensures c > 0 ==> pages[t.page].separators[c - 1] == FirstEntry(pages, t.kids[c]).value
  {}

  lemma BeforeKid(pages: seq<Page>, ls: seq<nat>, q: real, t: Tree, k: nat, c: nat)
    requires LeafPages(pages, ls) && Covers(pages, ls, q, t, k) && c < |t.kids|
    requires c > 0 ==> pages[t.page].separators[c - 1] < q
    ensures k + |ForestLeaves(t.kids[..c])| > 0 ==> FirstEntry(pages, t.kids[c]).value < q
  {
    KidFacts(pages, t, c);
    hide Represents, Height, Leaves, FirstEntry;
    if c == 0 {
      FirstKidEntry(pages, t);
      assert t.kids[..0] == [];
    }
  }

  lemma AfterKid(pages: seq<Page>, ls: seq<nat>, q: real, t: Tree, k: nat, c: nat)
    requires LeafPages(pages, ls) && Covers(pages, ls, q, t, k) && c < |t.kids|
    requires c + 1 < |t.kids| ==> q <= pages[t.page].separators[c]
    ensures var at := k + |ForestLeaves(t.kids[..c])| + |Leaves(t.kids[c])|;
            at < |ls| ==> q <= pages[ls[at]].entries[0].value
  {
    if c + 1 < |t.kids| {
      KidFacts(pages, t, c + 1);
      hide Represents, Height, Leaves, ForestLeaves;
      NextKidLeaf(ls, t, k, c);
    } else {
      hide Represents, Height, Leaves, ForestLeaves;
      KidLeavesAt(ls, t, k, c);
    }
  }

  /** Following the first child whose right separator is not below the query. */
  lemma DescendTo(pages: seq<Page>, ls: seq<nat>, q: real, t: Tree, k: nat, c: nat)
    requires LeafPages(pages, ls) && Covers(pages, ls, q, t, k) && c < |t.kids|
    requires c > 0 ==> pages[t.page].separators[c - 1] < q
    requires c + 1 < |t.kids| ==> q <= pages[t.page].separators[c]
    ensures Covers(pages, ls, q, t.kids[c], k + |ForestLeaves(t.kids[..c])|)
  {
    KidFacts(pages, t, c);
    hide ForestLeaves, Represents, Height, Leaves, FirstEntry, LeafPages, Run;
    KidLeavesAt(ls, t, k, c);
    BeforeKid(pages, ls, q, t, k, c);
    AfterKid(pages, ls, q, t, k, c);
  }

  /** The child to follow: the number of leading separators below the query, so
      that equal values stay with the leftmost child. */
  method ChooseChild(page: Page, query: real) returns (child: nat)
    requires page.count >= 2 && |page.separators| + 1 == page.count
    ensures child < page.count
    ensures child > 0 ==> page.separators[child - 1] < query
    ensures child + 1 < page.count ==> query <= page.separators[child]
  {
    child := 0;
    while child + 1 < page.count && query > page.separators[child]
      invariant child < page.count
      invariant child > 0 ==> page.separators[child - 1] < query
    {
      child := child + 1;
    }
  }

  /** From the root to the leaf holding the partition point. Neither the step
      guard nor a child check of the original can fail on a valid tree. */
  method DescendTree(pages: seq<Page>, root: nat, query: real, ghost ls: seq<nat>, ghost tree: Tree)
    returns (leaf: nat, ghost k: nat, ghost t: Tree)
    requires LeafPages(pages, ls) && Covers(pages, ls, query, tree, 0) && tree.page == root
    requires Height(tree) + 1 < |pages|
    requires forall p :: 0 < p < |pages| && pages[p].kind == INTERNAL_PAGE ==>
               pages[p].count == |pages[p].children| && |pages[p].separators| + 1 == pages[p].count
    ensures t.page == leaf && t.kids == [] && Covers(pages, ls, query, t, k)
  {
    leaf, k, t := root, 0, tree;
    var steps := 0;
    while pages[leaf].kind != LEAF_PAGE
      invariant t.page == leaf && Covers(pages, ls, query, t, k)
      invariant steps + Height(t) + 1 < |pages|
      decreases Height(t)
    {
      assert steps < |pages| - 1;
      steps := steps + 1;
      var child := ChooseChild(pages[leaf], query);
      KidFacts(pages, t, child);
      DescendTo(pages, ls, query, t, k, child);
      leaf := pages[leaf].children[child];
      assert 0 < leaf < |pages|;
      t, k := t.kids[child], k + |ForestLeaves(t.kids[..child])|;
    }
    assert steps < |pages| - 1;
  }

  /** Everything before a leaf is at most its first entry, everything after is at
      least the next leaf's. */
  lemma LeafNeighbours(pages: seq<Page>, ls: seq<nat>, k: nat)
    requires Chain(pages, ls) && k < |ls|
    ensures var all, from, page := Contents(pages, ls), Offset(pages, ls, k), pages[ls[k]];
            var to := from + |page.entries|;
            from < to <= |all| && all[from..to] == page.entries &&
            (k == 0 ==> from == 0) && (k + 1 == |ls| ==> to == |all|) &&
            (forall i :: 0 <= i < from ==> all[i].value <= page.entries[0].value) &&
            (k + 1 < |ls| ==> forall i :: to <= i < |all| ==> pages[ls[k + 1]].entries[0].value <= all[i].value)
  {
    hide Contents, Offset, Linked;
    var all, from, page := Contents(pages, ls), Offset(pages, ls, k), pages[ls[k]];
    var to := from + |page.entries|;
    ContentsAt(pages, ls, k);
    OffsetStep(pages, ls, k);
    OffsetEnds(pages, ls);
    assert all[from] == all[from..to][0];
    forall i | 0 <= i < from
      ensures all[i].value <= page.entries[0].value
    {
      assert KeyLess(all[i], all[from]);
    }
    if k + 1 < |ls| {
      ContentsAt(pages, ls, k + 1);
      var next := pages[ls[k + 1]].entries;
      assert all[to] == all[to..to + |next|][0];
      forall i | to <= i < |all|
        ensures next[0].value <= all[i].value
      {
        assert i == to || KeyLess(all[to], all[i]);
      }
    }
  }

  /** A partition of one leaf is a partition of the whole when what comes before
      is below the query and what comes after is not. */
  lemma PartitionInside(all: seq<Entry>, entries: seq<Entry>, from: nat, q: real, lo: nat)
    requires from + |entries| <= |all| && all[from..from + |entries|] == entries && IsLowerBound(entries, q, lo)
    requires forall i :: 0 <= i < from ==> all[i].value < q
    requires forall i :: from + |entries| <= i < |all| ==> q <= all[i].value
    ensures IsLowerBound(all, q, from + lo)
  {
    var mine := all[from..from + |entries|];
    assert forall i :: from <= i < from + |entries| ==> all[i] == mine[i - from];
  }

  /** In the leaf the descent reaches, the leaf's own partition is the table's. */
  lemma LeafReached(pages: seq<Page>, ls: seq<nat>, q: real, t: Tree, k: nat, lo: nat)
    requires Chain(pages, ls) && Covers(pages, ls, q, t, k) && t.kids == []
    requires IsLowerBound(pages[t.page].entries, q, lo)
    ensures k < |ls| && ls[k] == t.page && (lo == 0 ==> k == 0)
    ensures LowerBound(Contents(pages, ls), q) == Offset(pages, ls, k) + lo
  {
    hide LowerBound, Contents, Offset, Linked;
    var all, entries, from := Contents(pages, ls), pages[t.page].entries, Offset(pages, ls, k);
    assert ls[k] == ls[k..k + 1][0];
    LeafNeighbours(pages, ls, k);
    PartitionInside(all, entries, from, q, lo);
    LowerBoundUnique(all, q, from + lo, LowerBound(all, q));
  }

  // ---- the index -------------------------------------------------------

  class DiskCursor {
    var tableId: nat
    var query: real
    var left: DiskSide
    var right: DiskSide
    var lastBound: Option<real>

    constructor ()
    {
      tableId, query := 0, 0.0;
      left, right := DiskSide(0, 0, 0, false, false), DiskSide(0, 0, 0, false, false);
      lastBound := None;
    }
  }

  class BPlusTreeIndex {
    const fl: Rounding
    const pages: seq<Page>
    const pageSize: nat
    const roots: seq<nat>
    const numPoints: nat
    const leafRanks: seq<nat>
    ghost const trees: seq<Tree>

    ghost predicate Valid() {
      AllowedPageSize(pageSize) && 0 < numPoints <= MAX_POINTS &&
      ValidHeap(pages, pageSize, roots, numPoints, trees) &&
      forall u :: 0 <= u < |roots| ==> Ranked(Leaves(trees[u]), leafRanks)
    }

    constructor (fl: Rounding, pages: seq<Page>, pageSize: nat, roots: seq<nat>, numPoints: nat,
                 leafRanks: seq<nat>, ghost trees: seq<Tree>)
      requires AllowedPageSize(pageSize) && 0 < numPoints <= MAX_POINTS
      requires ValidHeap(pages, pageSize, roots, numPoints, trees)
      requires forall u :: 0 <= u < |roots| ==> Ranked(Leaves(trees[u]), leafRanks)
      ensures Valid() && this.fl == fl && this.pages == pages && this.roots == roots && this.pageSize == pageSize
      ensures this.numPoints == numPoints && this.trees == trees
    {
      this.fl, this.pages, this.pageSize := fl, pages, pageSize;
      this.roots, this.numPoints, this.leafRanks, this.trees := roots, numPoints, leafRanks, trees;
    }

    ghost function TableLeaves(t: nat): (ls: seq<nat>)
      requires Valid() && t < |roots|
      ensures Chain(pages, ls) && Ranked(ls, leafRanks)
    {
      Leaves(trees[t])
    }

    ghost function TableView(t: nat, q: real): (v: View)
      requires Valid() && t < |roots|
      ensures v.Valid()
    {
      ChainView(fl, pages, TableLeaves(t), q)
    }

    ghost predicate Owns(cursor: DiskCursor)
      requires Valid()
      reads cursor
    {
      cursor.tableId < |roots| &&
      SideOk(pages, TableLeaves(cursor.tableId), cursor.left) &&
      SideOk(pages, TableLeaves(cursor.tableId), cursor.right) &&
      Straddles(TableView(cursor.tableId, cursor.query), Position(cursor))
    }

    ghost function Position(cursor: DiskCursor): Cursor
      requires Valid() && cursor.tableId < |roots|
      requires SideOk(pages, TableLeaves(cursor.tableId), cursor.left)
      requires SideOk(pages, TableLeaves(cursor.tableId), cursor.right)
      reads cursor
    {
      DiskFlat(pages, TableLeaves(cursor.tableId), cursor.left, cursor.right, cursor.lastBound)
    }

    /** Placing a cursor. A leaf whose first entry is not below the query is the
        first leaf of the table, so looking into the previous leaf never happens. */
    method ResetCursor(cursor: DiskCursor, tableId: nat, query: real) returns (ok: bool)
      requires Valid()
      modifies cursor
      ensures ok <==> tableId < |roots|
      ensures ok ==> Owns(cursor) && cursor.tableId == tableId && cursor.query == query &&
                     Position(cursor) == Reset(TableView(tableId, query))
      ensures !ok ==> unchanged(cursor)
    {
      if tableId >= |roots| {
        return false;
      }
      var left, right := PlaceSides(tableId, query);
      cursor.tableId, cursor.query := tableId, query;
      cursor.left, cursor.right, cursor.lastBound := left, right, None;
      return true;
    }

    method PlaceSides(tableId: nat, query: real) returns (left: DiskSide, right: DiskSide)
      requires Valid() && tableId < |roots|
      ensures var ls := TableLeaves(tableId);
              SideOk(pages, ls, left) && SideOk(pages, ls, right) &&
              DiskFlat(pages, ls, left, right, None) == Reset(TableView(tableId, query))
    {
      ghost var ls := TableLeaves(tableId);
      HeightBelowPageCount(pages, trees, tableId);
      assert ls[0..0 + |ls|] == ls;
      assert Covers(pages, ls, query, trees[tableId], 0);
      ghost var k, t;
      var leaf;
      leaf, k, t := DescendTree(pages, roots[tableId], query, ls, trees[tableId]);
      left, right := PlaceInLeaf(pages, leafRanks, leaf, query, ls, k, t);
    }

    /** BPlusTreeIndex::scan: the flat scan of the table, or a refusal. */
    method Scan(cursor: DiskCursor, call: Call) returns (r: ScanResult)
      requires Valid() && Owns(cursor)
      modifies cursor
      ensures Owns(cursor) && cursor.tableId == old(cursor.tableId) && cursor.query == old(cursor.query)
      ensures ScanMeets(TableView(cursor.tableId, cursor.query), old(Position(cursor)), call, Position(cursor), r)
    {
      var refusal := Refusal(cursor.lastBound, call);
      if refusal.Some? {
        return Refused(refusal.value);
      }
      ghost var ls := TableLeaves(cursor.tableId);
      ghost var v := TableView(cursor.tableId, cursor.query);
      var left, right, hits, report := DiskScan(
        fl, pages, leafRanks, cursor.query, cursor.left, cursor.right, cursor.lastBound, call, v, ls);
      cursor.left, cursor.right, cursor.lastBound := left, right, Some(call.bound);
      return Delivered(hits, report);
    }
  }

  /** BPlusTreeIndex::scan_impl on the local copies of the two sides. */
  method DiskScan(fl: Rounding, pages: seq<Page>, leafRanks: seq<nat>, q: real,
                  left0: DiskSide, right0: DiskSide, last: Option<real>, call: Call,
                  ghost v: View, ghost ls: seq<nat>)
    returns (left: DiskSide, right: DiskSide, hits: seq<Entry>, report: Report)
    requires Chain(pages, ls) && Ranked(ls, leafRanks) && SideOk(pages, ls, left0) && SideOk(pages, ls, right0)
    requires v == ChainView(fl, pages, ls, q)
    requires Straddles(v, DiskFlat(pages, ls, left0, right0, last))
    requires Admissible(DiskFlat(pages, ls, left0, right0, last), call)
    ensures SideOk(pages, ls, left) && SideOk(pages, ls, right)
    ensures Straddles(v, DiskFlat(pages, ls, left, right, Some(call.bound)))
    ensures Scanned(DiskFlat(pages, ls, left, right, Some(call.bound)), hits, report)
         == FlatCursor.Scan(v, DiskFlat(pages, ls, left0, right0, last), call)
    ensures report.entriesVisited == |hits| <= if call.scope == Quantum then call.limit else 2 * call.limit
  {
    hide LowerBound, Contents, Offset, ScanLeft, ScanRight, FlatCursor.Scan, Ranked, Linked;
    left, right := left0, right0;
    if last.None? || call.bound > last.value {
      left, right := left.(blocked := false), right.(blocked := false);
    }
    ghost var c0 := DiskFlat(pages, ls, left, right, Some(call.bound));
    assert c0 == Reopen(DiskFlat(pages, ls, left0, right0, last), call.bound);
    var leftHits, rightHits;
    left, leftHits := WalkLeft(fl, pages, leafRanks, q, left, call.bound,
                               LeftLimit(call.limit, call.scope), call.scope, v, ls, c0);
    ghost var c1 := DiskFlat(pages, ls, left, right, Some(call.bound));
    ScanLeftStraddles(v, c0, call.bound, LeftLimit(call.limit, call.scope), call.scope);
    right, rightHits := WalkRight(fl, pages, leafRanks, q, right, call.bound,
                                  RightLimit(call.limit, call.scope, |leftHits|), call.scope, v, ls, c1);
    DiskScanParts(v, pages, ls, DiskFlat(pages, ls, left0, right0, last), call, c1, leftHits, left, right, rightHits);
    hits := leftHits + rightHits;
    report := DiskReport(left, right, |hits|);
    VisitsWithin(v, DiskFlat(pages, ls, left0, right0, last), call);
  }

  lemma ScanLeftStraddles(v: View, c: Cursor, bound: real, limit: nat, scope: Scope)
    requires v.Valid() && Straddles(v, c)
    ensures Straddles(v, ScanLeft(v, c, bound, limit, scope).0)
    ensures |ScanLeft(v, c, bound, limit, scope).1| <= limit
  {}

  function DiskReport(left: DiskSide, right: DiskSide, visited: nat): Report {
    Report(visited, (!left.active || left.blocked) && (!right.active || right.blocked),
           !left.active && !right.active)
  }

  lemma DiskScanParts(v: View, pages: seq<Page>, ls: seq<nat>, c: Cursor, call: Call,
                      c1: Cursor, leftHits: seq<Entry>, left: DiskSide, right: DiskSide, rightHits: seq<Entry>)
    requires Chain(pages, ls) && v == ChainView(v.fl, pages, ls, v.query)
    requires SideOk(pages, ls, left) && SideOk(pages, ls, right)
    requires Straddles(v, c) && Admissible(c, call)
    requires ScanLeft(v, Reopen(c, call.bound), call.bound, LeftLimit(call.limit, call.scope), call.scope)
          == (c1, leftHits)
    requires ScanRight(v, c1, call.bound, RightLimit(call.limit, call.scope, |leftHits|), call.scope)
          == (DiskFlat(pages, ls, left, right, Some(call.bound)), rightHits)
    ensures Straddles(v, DiskFlat(pages, ls, left, right, Some(call.bound)))
    ensures Scanned(DiskFlat(pages, ls, left, right, Some(call.bound)), leftHits + rightHits,
                    DiskReport(left, right, |leftHits + rightHits|))
         == FlatCursor.Scan(v, c, call)
  {
    var c2 := DiskFlat(pages, ls, left, right, Some(call.bound));
    ScanParts(v, c, call, c1, leftHits, c2, rightHits);
    SideEnds(v, pages, ls, left, right);
  }

  /** An active side is a position inside the table. */
  lemma SideEnds(v: View, pages: seq<Page>, ls: seq<nat>, left: DiskSide, right: DiskSide)
    requires Chain(pages, ls) && v == ChainView(v.fl, pages, ls, v.query)
    requires SideOk(pages, ls, left) && SideOk(pages, ls, right)
    ensures left.active <==> LeftAt(pages, ls, left) != -1
    ensures right.active <==> RightAt(pages, ls, right) != |v.entries|
  {
    if right.active {
      LeafIsRegion(v.fl, pages, ls, v.query, right.rank, right.index);
    }
  }

  /** The two positions around the partition point of the leaf. */
  method PlaceInLeaf(pages: seq<Page>, leafRanks: seq<nat>, leaf: nat, query: real,
                     ghost ls: seq<nat>, ghost k: nat, ghost t: Tree)
    returns (left: DiskSide, right: DiskSide)
    requires Chain(pages, ls) && Ranked(ls, leafRanks)
    requires Covers(pages, ls, query, t, k) && t.kids == [] && t.page == leaf
    requires pages[leaf].count == |pages[leaf].entries|
    ensures SideOk(pages, ls, left) && SideOk(pages, ls, right)
    ensures var p := LowerBound(Contents(pages, ls), query);
            DiskFlat(pages, ls, left, right, None) == Cursor(p - 1, p, false, false, None)
  {
    hide LowerBound, Contents;
    var page := pages[leaf];
    OrderedLeaf(pages, ls, t, k);
    var lo := FindLowerBound(page.entries, query);
    LeafReached(pages, ls, query, t, k, lo);
    OffsetEnds(pages, ls);
    OffsetStep(pages, ls, k);
    NeighbourLinks(pages, ls, k);
    left, right := DiskSide(0, 0, 0, false, false), DiskSide(0, 0, 0, false, false);
    if lo > 0 {
      left := DiskSide(leaf, leafRanks[leaf], lo - 1, true, false);
    } else if page.previous != 0 {
      assert false;
    }
    if lo < page.count {
      right := DiskSide(leaf, leafRanks[leaf], lo, true, false);
    } else if page.next != 0 {
      right := DiskSide(page.next, leafRanks[page.next], 0, true, false);
    }
  }

  lemma OrderedLeaf(pages: seq<Page>, ls: seq<nat>, t: Tree, k: nat)
    requires Chain(pages, ls) && k < |ls| && ls[k] == t.page
    ensures Ordered(pages[t.page].entries)
  {
    LeafNeighbours(pages, ls, k);
    var all, from, entries := Contents(pages, ls), Offset(pages, ls, k), pages[t.page].entries;
    var mine := all[from..from + |entries|];
    forall i, j | 0 <= i < j < |entries|
      ensures KeyLess(entries[i], entries[j])
    {
      assert KeyLess(all[from + i], all[from + j]);
      assert mine[i] == all[from + i] && mine[j] == all[from + j];
    }
  }
}
