/** The shapes and orders of the index in plain numbers. */
module HeapMeaning {
  import opened Tables
  import opened PageTree

  /** A leaf holds at least one entry and no more than fit behind 32 bytes of header at
      eight bytes each; an internal page at least two children, as many as fit at twelve
      bytes for a child and a separator, one separator fewer, and no links. */
  lemma ShapeIs(page: Page, pageSize: nat)
    requires AllowedPageSize(pageSize)
    ensures 512 <= pageSize <= 64 * 1024 * 1024 && pageSize % 8 == 0
    ensures PageShape(page, pageSize) <==>
              (page.kind == 1 && 1 <= page.count == |page.entries| && 32 + 8 * page.count <= pageSize) ||
              (page.kind == 2 && 2 <= page.count == |page.children| && 32 + 12 * page.count <= pageSize &&
               |page.separators| == page.count - 1 && page.previous == 0 && page.next == 0)
  {}

  /** By value, and by id among equal values. */
  ghost predicate Before(a: Entry, b: Entry) {
    a.value < b.value || (a.value == b.value && a.id < b.id)
  }

  /** Each entry comes before the next. */
  ghost predicate Rising(t: seq<Entry>) {
    forall i :: 0 < i < |t| ==> Before(t[i - 1], t[i])
  }

  lemma {:induction false} RisingFar(t: seq<Entry>, i: nat, j: nat)
    requires Rising(t) && i < j < |t|
    ensures Before(t[i], t[j])
  {
    assert Before(t[j - 1], t[j]);
    if i == j - 1 {
    } else {
      RisingFar(t, i, j - 1);
    }
  }

  /** A table is in order exactly when neighbours are. */
  lemma OrderIs(t: seq<Entry>)
    ensures Ordered(t) <==> Rising(t)
  {
    if Ordered(t) {
      forall i | 0 < i < |t|
        ensures Before(t[i - 1], t[i])
      {
        assert KeyLess(t[i - 1], t[i]);
      }
    }
    if Rising(t) {
      forall i, j | 0 <= i < j < |t|
        ensures KeyLess(t[i], t[j])
      {
        RisingFar(t, i, j);
      }
    }
  }

  ghost predicate Once(t: seq<Entry>, p: nat) {
    exists i :: 0 <= i < |t| && t[i].id == p && forall j :: 0 <= j < |t| && t[j].id == p ==> j == i
  }

  /** The table of n points: n entries, rising, and every point in exactly one of them. */
  lemma TableIs(t: seq<Entry>, n: nat)
    requires ValidTable(t, n)
    ensures |t| == n && Rising(t) && forall p: nat :: p < n ==> Once(t, p)
  {
    OrderIs(t);
    EveryIdOccurs(t, n);
    hide Ordered, Rising;
    forall p: nat | p < n
      ensures Once(t, p)
    {
      assert p in Ids(t);
      var i :| 0 <= i < |t| && t[i].id == p;
      assert forall j :: 0 <= j < |t| && t[j].id == p ==> j == i;
    }
  }

  /** Every leaf at the same depth. */
  ghost predicate Level(t: Tree, depth: nat) {
    if t.kids == [] then depth == 0
    else depth > 0 && forall i :: 0 <= i < |t.kids| ==> Level(t.kids[i], depth - 1)
  }

  lemma {:induction false} LevelUnique(t: Tree, depth: nat)
    requires Level(t, depth)
    ensures depth == Height(t)
  {
    if t.kids == [] {
    } else {
      LevelUnique(t.kids[0], depth - 1);
    }
  }

  /** Every path of a table's tree from the root to a leaf is equally long. */
  lemma {:induction false} TreeIsLevel(pages: seq<Page>, t: Tree) returns (depth: nat)
    requires Represents(pages, t)
    ensures Level(t, depth)
  {
    if t.kids == [] {
      depth := 0;
    } else {
      depth := Height(t.kids[0]) + 1;
      forall i | 0 <= i < |t.kids|
        ensures Level(t.kids[i], depth - 1)
      {
        var d := TreeIsLevel(pages, t.kids[i]);
        LevelUnique(t.kids[i], d);
      }
    }
  }

  // ---- every page in one place -----------------------------------------

  /** How often a page stands in a tree. */
  ghost function Places(t: Tree, p: nat): nat {
    (if t.page == p then 1 else 0) + ForestPlaces(t.kids, p)
  }

  ghost function ForestPlaces(ts: seq<Tree>, p: nat): nat {
    if ts == [] then 0 else ForestPlaces(ts[..|ts| - 1], p) + Places(ts[|ts| - 1], p)
  }

  lemma {:induction false} PlacesAre(t: Tree, p: nat)
    ensures multiset(Preorder(t))[p] == Places(t, p)
  {
    ForestPlacesAre(t.kids, p);
  }

  lemma {:induction false} ForestPlacesAre(ts: seq<Tree>, p: nat)
    ensures multiset(ForestPreorder(ts))[p] == ForestPlaces(ts, p)
  {
    if ts == [] {
    } else {
      ForestPlacesAre(ts[..|ts| - 1], p);
      PlacesAre(ts[|ts| - 1], p);
    }
  }

  lemma {:induction false} CountOnce(s: seq<nat>, p: nat)
    requires forall i, j :: 0 <= i < j < |s| ==> s[i] != s[j]
    ensures multiset(s)[p] == if p in s then 1 else 0
  {
    if s == [] {
    } else {
      var last := |s| - 1;
      CountOnce(s[..last], p);
      assert s == s[..last] + [s[last]];
    }
  }

  /** In a valid index every page but page zero stands in exactly one place of one
      table's tree. */
  lemma EveryPageOnce(pages: seq<Page>, pageSize: nat, roots: seq<nat>, n: nat, trees: seq<Tree>, p: nat)
    requires AllowedPageSize(pageSize) && ValidHeap(pages, pageSize, roots, n, trees)
    ensures ForestPlaces(trees, p) == if 0 < p < |pages| then 1 else 0
  {
    var order := ForestPreorder(trees);
    assert p in order <==> 0 < p < |pages|;
    assert forall i, j :: 0 <= i < j < |order| ==> order[i] != order[j];
    CountOnce(order, p);
    ForestPlacesAre(trees, p);
  }
}
