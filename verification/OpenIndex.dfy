/** Opening a persisted B+ tree: load_header as a whole. */
module OpenIndex {
  import opened Tables
  import opened PageTree
  import opened ArrayIndexes
  import opened BPlusIndex
  import opened BPlusTree
  import opened DfsState
  import opened Validator
  import opened HeaderCheck

  /** Some forest makes this heap a valid index. */
  ghost predicate Openable(pages: seq<Page>, pageSize: nat, roots: seq<nat>, n: nat)
    requires AllowedPageSize(pageSize)
  {
    exists w :: ValidHeap(pages, pageSize, roots, n, w)
  }

  lemma HeapFromParts(pages: seq<Page>, pageSize: nat, roots: seq<nat>, n: nat, s: Dfs, firsts: seq<nat>,
                      counts: seq<nat>, forest: seq<Tree>, ranks: seq<nat>)
    requires AllowedPageSize(pageSize) && PageShapes(pages, pageSize) && Sized(pages, n, s)
    requires TableStart(pages, n, |roots|, s, forest) && ForestOk(pages, n, roots, forest, firsts, counts)
    requires LinksOk(pages, s.color, s.owner) && Walked(pages, forest, ranks, |forest|) && |forest| == |roots|
    ensures ValidHeap(pages, pageSize, roots, n, forest)
  {
    forall u | 0 <= u < |roots|
      ensures ValidTableTree(pages, roots[u], n, forest[u])
    {
      assert TreeOk(pages, n, roots[u], forest[u], firsts[u], counts[u]);
      assert Linked(pages, Leaves(forest[u]));
    }
    forall p | 0 < p < |pages|
      ensures p in ForestPreorder(forest)
    {
      assert s.color[p] == 2;
    }
  }

  lemma CountsBounded(pages: seq<Page>, n: nat, roots: seq<nat>, s: Dfs, firsts: seq<nat>, counts: seq<nat>,
                      forest: seq<Tree>)
    requires ForestOk(pages, n, roots, forest, firsts, counts) && |pages| < NO_RANK && |pages| > 0
    ensures forall u :: 0 <= u < |counts| ==> counts[u] < NO_RANK
  {
    forall u | 0 <= u < |counts|
      ensures counts[u] < NO_RANK
    {
      assert TreeOk(pages, n, roots[u], forest[u], firsts[u], counts[u]);
      var ls := Leaves(forest[u]);
      ContentsIncreasing(pages, ls);
      IncreasingDistinct(pages, ls);
      DistinctBounded(ls, |pages|);
    }
  }

  /** load_header on any heap, cyclic and shared pages included: it always ends, it
      accepts exactly the heaps that hold a valid index, and then the leaf ranks
      number every chain. */
  method LoadHeader(pages: seq<Page>, pageSize: nat, roots: seq<nat>, n: nat)
    returns (ok: bool, ranks: seq<nat>, ghost trees: seq<Tree>)
    requires AllowedPageSize(pageSize) && Decoded(pages, pageSize) && n > 0 && |roots| > 0 && |pages| < NO_RANK
    ensures ok <==> Openable(pages, pageSize, roots, n)
    ensures ok ==> ValidHeap(pages, pageSize, roots, n, trees) &&
                   forall u :: 0 <= u < |roots| ==> Ranked(Leaves(trees[u]), ranks)
  {
    ghost var w: seq<Tree> := [];
    if Openable(pages, pageSize, roots, n) {
      w :| ValidHeap(pages, pageSize, roots, n, w);
      HeapBegins(pages, pageSize, roots, n, w);
    }
    ranks, trees := [], [];
    if |pages| <= 1 {
      return false, ranks, trees;
    }
    var i := 0;
    while i < |roots|
      invariant i <= |roots| && forall u :: 0 <= u < i ==> 0 < roots[u] < |pages|
    {
      if roots[i] == 0 || roots[i] >= |pages| {
        return false, ranks, trees;
      }
      i := i + 1;
    }
    ok := CheckPages(pages, pageSize);
    if !ok {
      return false, ranks, trees;
    }
    ok, ranks, trees := LoadTrees(pages, pageSize, roots, n, w);
  }

  /** The search, the link pass and the chain walks. */
  method LoadTrees(pages: seq<Page>, pageSize: nat, roots: seq<nat>, n: nat, ghost w: seq<Tree>)
    returns (ok: bool, ranks: seq<nat>, ghost trees: seq<Tree>)
    requires AllowedPageSize(pageSize) && PageShapes(pages, pageSize) && LinksInRange(pages)
    requires n > 0 && 1 < |pages| < NO_RANK && forall u :: 0 <= u < |roots| ==> 0 < roots[u] < |pages|
    ensures ok ==> ValidHeap(pages, pageSize, roots, n, trees) &&
                   forall u :: 0 <= u < |roots| ==> Ranked(Leaves(trees[u]), ranks)
    ensures ValidHeap(pages, pageSize, roots, n, w) ==> ok
  {
    ghost var good := ValidHeap(pages, pageSize, roots, n, w);
    var s, firsts, counts;
    ok, s, firsts, counts, trees := SearchTables(pages, pageSize, n, roots, w);
    ranks := [];
    if !ok {
      return;
    }
    assert |trees| == |roots| == |firsts| == |counts| && Sized(pages, n, s);
    hide TableStart, ForestOk, PageShapes, ValidHeap, LinksInRange, LinksOk;
    if good {
      HeapLinks(pages, pageSize, roots, n, w, s);
    }
    ok := CheckLinks(pages, s.color, s.owner);
    if !ok {
      return;
    }
    CountsBounded(pages, n, roots, s, firsts, counts, trees);
    ok, ranks := WalkChains(pages, pageSize, n, roots, s, firsts, counts, trees);
    if ok {
      HeapFromParts(pages, pageSize, roots, n, s, firsts, counts, trees, ranks);
    }
  }

  /** Open: the validated index, or a refusal. */
  method Open(fl: Rounding, pages: seq<Page>, pageSize: nat, roots: seq<nat>, n: nat)
    returns (ok: bool, index: BPlusTreeIndex?)
    requires AllowedPageSize(pageSize) && Decoded(pages, pageSize) && 0 < n <= MAX_POINTS
    requires |roots| > 0 && |pages| < NO_RANK
    ensures ok <==> Openable(pages, pageSize, roots, n)
    ensures ok ==> index != null && fresh(index) && index.Valid() && index.pages == pages && index.roots == roots &&
                   index.numPoints == n && index.fl == fl && index.pageSize == pageSize
  {
    var ranks;
    ghost var trees;
    ok, ranks, trees := LoadHeader(pages, pageSize, roots, n);
    index := null;
    if ok {
      index := new BPlusTreeIndex(fl, pages, pageSize, roots, n, ranks, trees);
    }
  }
}
