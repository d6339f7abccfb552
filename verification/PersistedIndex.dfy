/** A built index written as bytes and opened again: the whole way from sorted
    tables through serialized pages to the tables a scan reads. */
module PersistedIndex {
  import opened Tables
  import opened FlatCursor
  import opened PageTree
  import opened ArrayIndexes
  import opened BPlusTree
  import opened HeaderCheck
  import opened OpenIndex
  import opened Builder
  import opened PageCodec
  import opened PageReader
  import LayoutEquivalence
  import FileLayout

  // ---- every page fits its words ---------------------------------------

  lemma {:induction false} LeafOfForest(ts: seq<Tree>, i: nat, l: nat)
    requires i < |ts| && l in Leaves(ts[i])
    ensures l in ForestLeaves(ts)
  {
    if i < |ts| - 1 {
      LeafOfForest(ts[..|ts| - 1], i, l);
    }
  }

  ghost predicate LeafFits(f: Floats, pages: seq<Page>, l: nat) {
    0 < l < |pages| && pages[l].previous < |pages| && pages[l].next < |pages| && pages[l].entries != [] &&
    forall i :: 0 <= i < |pages[l].entries| ==> EntryFits(f, pages[l].entries[i])
  }

  ghost predicate EntryFits(f: Floats, e: Entry) {
    Storable(f, e.value) && e.id < 0x1_0000_0000
  }

  ghost predicate LeavesFit(f: Floats, pages: seq<Page>, ls: seq<nat>) {
    forall l :: l in ls ==> LeafFits(f, pages, l)
  }

  ghost predicate Shaped(pages: seq<Page>, pageSize: nat)
    requires AllowedPageSize(pageSize)
  {
    forall p :: 0 < p < |pages| ==> PageShape(pages[p], pageSize) && Canonical(pages[p])
  }

  lemma LeafPageFits(f: Floats, pages: seq<Page>, pageSize: nat, p: nat)
    requires AllowedPageSize(pageSize) && |pages| < 0x1_0000_0000_0000_0000 && Shaped(pages, pageSize)
    requires LeafFits(f, pages, p) && pages[p].kind == LEAF_PAGE
    ensures Fits(f, pages[p])
  {
    var page := pages[p];
    assert PageShape(page, pageSize) && Canonical(page);
    forall i | 0 <= i < |page.entries|
      ensures Storable(f, page.entries[i].value) && page.entries[i].id < 0x1_0000_0000
    {
      assert EntryFits(f, page.entries[i]);
    }
  }

  lemma InternalPageFits(f: Floats, pages: seq<Page>, pageSize: nat, t: Tree)
    requires AllowedPageSize(pageSize) && |pages| < 0x1_0000_0000_0000_0000 && Shaped(pages, pageSize)
    requires Represents(pages, t) && t.kids != [] && LeavesFit(f, pages, Leaves(t))
    ensures Fits(f, pages[t.page])
  {
    var page := pages[t.page];
    assert PageShape(page, pageSize) && Canonical(page);
    forall i | 0 <= i < |page.children|
      ensures page.children[i] < 0x1_0000_0000_0000_0000
    {
      assert Represents(pages, t.kids[i]) && page.children[i] == Roots(t.kids)[i];
    }
    forall i | 0 <= i < |page.separators|
      ensures Storable(f, page.separators[i])
    {
      SeparatorFits(f, pages, t, i);
    }
  }

  lemma SeparatorFits(f: Floats, pages: seq<Page>, t: Tree, i: nat)
    requires Represents(pages, t) && i + 1 < |t.kids| && LeavesFit(f, pages, Leaves(t))
    ensures |pages[t.page].separators| == |t.kids| - 1 && Storable(f, pages[t.page].separators[i])
  {
    var kid := t.kids[i + 1];
    var l := Leaves(kid)[0];
    assert pages[t.page].separators[i + 1 - 1] == FirstEntry(pages, kid).value;
    LeafOfForest(t.kids, i + 1, l);
    assert LeafFits(f, pages, l) && EntryFits(f, pages[l].entries[0]);
  }

  lemma {:induction false} TreeFits(f: Floats, pages: seq<Page>, pageSize: nat, t: Tree, p: nat)
    requires AllowedPageSize(pageSize) && |pages| < 0x1_0000_0000_0000_0000 && Shaped(pages, pageSize)
    requires Represents(pages, t) && LeavesFit(f, pages, Leaves(t)) && p in Preorder(t)
    ensures p < |pages| && Fits(f, pages[p])
    decreases t
  {
    if t.kids == [] {
      assert Leaves(t) == [t.page] && Preorder(t) == [t.page];
      LeafPageFits(f, pages, pageSize, p);
    } else if p == t.page {
      InternalPageFits(f, pages, pageSize, t);
    } else {
      var i := InSomeTree(t.kids, p);
      KidLeavesFit(f, pages, t, i);
      assert Represents(pages, t.kids[i]);
      hide Fits, LeavesFit, Shaped;
      TreeFits(f, pages, pageSize, t.kids[i], p);
    }
  }

  lemma KidLeavesFit(f: Floats, pages: seq<Page>, t: Tree, i: nat)
    requires i < |t.kids| && LeavesFit(f, pages, Leaves(t))
    ensures LeavesFit(f, pages, Leaves(t.kids[i]))
  {
    forall l | l in Leaves(t.kids[i])
      ensures LeafFits(f, pages, l)
    {
      LeafOfForest(t.kids, i, l);
    }
  }

  /** The leaves of a stored table hold its entries and nothing else. */
  lemma StoredLeavesFit(f: Floats, pages: seq<Page>, table: seq<Entry>, n: nat, root: nat, tree: Tree)
    requires ValidTableTree(pages, root, n, tree) && Contents(pages, Leaves(tree)) == table
    requires forall i :: 0 <= i < |table| ==> EntryFits(f, table[i])
    ensures LeavesFit(f, pages, Leaves(tree))
  {
    var ls := Leaves(tree);
    forall l | l in ls
      ensures LeafFits(f, pages, l)
    {
      var k :| 0 <= k < |ls| && ls[k] == l;
      assert LinkedAt(pages, ls, k);
      assert k > 0 ==> ls[k - 1] < |pages|;
      assert k + 1 < |ls| ==> ls[k + 1] < |pages|;
      ContentsAt(pages, ls, k);
      var from, entries := Offset(pages, ls, k), pages[l].entries;
      hide Contents, Offset, ValidTable, Represents;
      forall i | 0 <= i < |entries|
        ensures EntryFits(f, entries[i])
      {
        assert entries[i] == table[from..from + |entries|][i] == table[from + i];
      }
    }
  }

  ghost predicate TableStorable(f: Floats, table: seq<Entry>) {
    forall i :: 0 <= i < |table| ==> Storable(f, table[i].value)
  }

  lemma HeapPageFits(f: Floats, pages: seq<Page>, pageSize: nat, tables: seq<seq<Entry>>, n: nat, roots: seq<nat>,
                     trees: seq<Tree>, p: nat)
    requires AllowedPageSize(pageSize) && HeapBuilt(pages, pageSize, tables, n, roots, trees)
    requires |pages| < 0x1_0000_0000_0000_0000 && 0 < p < |pages| && n <= MAX_POINTS
    requires forall u :: 0 <= u < |tables| ==> TableStorable(f, tables[u])
    ensures Fits(f, pages[p])
  {
    assert p in ForestPreorder(trees);
    assert Shaped(pages, pageSize);
    var u := InSomeTree(trees, p);
    assert ValidTableTree(pages, roots[u], n, trees[u]);
    assert TableStorable(f, tables[u]) && IdsBelow(tables[u], n);
    StoredLeavesFit(f, pages, tables[u], n, roots[u], trees[u]);
    hide Fits, LeavesFit, Shaped, Contents, Leaves, HeapBuilt, ValidTable;
    TreeFits(f, pages, pageSize, trees[u], p);
  }

  /** Build, write every page as bytes, read the bytes back, open, and find the tables
      one put in. */
  method SaveThenOpen(f: Floats, fl: Rounding, tables: seq<seq<Entry>>, n: nat, pageSize: nat)
    returns (index: BPlusTreeIndex)
    requires AllowedPageSize(pageSize) && ValidTables(tables, n) && 0 < |tables| <= FileLayout.MAX_TABLES
    requires forall u :: 0 <= u < |tables| ==> TableStorable(f, tables[u])
    ensures fresh(index) && index.Valid() && index.fl == fl && index.numPoints == n && |index.roots| == |tables|
    ensures forall t, q :: 0 <= t < |tables| ==>
              index.TableView(t, q) == View(fl, tables[t], q, RegionStarts(n, LeafCapacity(pageSize)))
  {
    var pages, roots;
    ghost var trees;
    pages, roots, trees := Build(tables, n, pageSize);
    FileLayout.HeapFits(|tables|, n, pageSize);
    forall p | 0 < p < |pages|
      ensures PageShape(pages[p], pageSize) && Canonical(pages[p]) && Fits(f, pages[p])
    {
      HeapPageFits(f, pages, pageSize, tables, n, roots, trees, p);
    }
    var back := WriteAndRead(f, pages, pageSize);
    LayoutEquivalence.BuiltOpens(pages, pageSize, tables, n, roots, trees);
    var ok, validated := Open(fl, back, pageSize, roots, n);
    index := validated;
    LayoutEquivalence.ForestUnique(pages, pageSize, roots, n, trees, index.trees);
    forall t, q | 0 <= t < |tables|
      ensures index.TableView(t, q) == View(fl, tables[t], q, RegionStarts(n, LeafCapacity(pageSize)))
    {
      LayoutEquivalence.BuiltView(fl, pages, pageSize, tables, n, roots, trees, t, q);
    }
  }
}
