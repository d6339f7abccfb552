/** The paged B+ tree as data: pages as their bytes decode, the tree shape they
    spell out, and what it means for a heap of pages to be a valid index. */
module PageTree {
  import opened Tables

  const PAGE_HEADER_SIZE: nat := 32
  const ENTRY_SIZE: nat := 8
  const CHILD_SIZE: nat := 8
  const SEPARATOR_SIZE: nat := 4
  const LEAF_PAGE: nat := 1
  const INTERNAL_PAGE: nat := 2
  const MAX_PAGE_SIZE: nat := 0x400_0000

  predicate AllowedPageSize(pageSize: nat) {
    512 <= pageSize <= MAX_PAGE_SIZE && pageSize % 8 == 0
  }

  function LeafCapacity(pageSize: nat): (c: nat)
    requires AllowedPageSize(pageSize)
    ensures c >= 60
  {
    (pageSize - PAGE_HEADER_SIZE) / ENTRY_SIZE
  }

  function InternalCapacity(pageSize: nat): (c: nat)
    requires AllowedPageSize(pageSize)
    ensures c >= 40
  {
    (pageSize - PAGE_HEADER_SIZE) / (CHILD_SIZE + SEPARATOR_SIZE)
  }

  /** Page zero is the null link. A zero link means none. */
  datatype Page = Page(kind: nat, count: nat, previous: nat, next: nat,
                       entries: seq<Entry>, children: seq<nat>, separators: seq<real>)

  /** A page number and the subtrees below it; a leaf has none. */
  datatype Tree = Tree(page: nat, kids: seq<Tree>)

  // ---- traversals ------------------------------------------------------

  ghost function Preorder(t: Tree): seq<nat> {
    [t.page] + ForestPreorder(t.kids)
  }

  ghost function ForestPreorder(ts: seq<Tree>): seq<nat> {
    if ts == [] then [] else ForestPreorder(ts[..|ts| - 1]) + Preorder(ts[|ts| - 1])
  }

  ghost function Leaves(t: Tree): (ls: seq<nat>)
    ensures |ls| > 0
  {
    if t.kids == [] then [t.page] else ForestLeaves(t.kids)
  }

  ghost function ForestLeaves(ts: seq<Tree>): (ls: seq<nat>)
    ensures ts != [] ==> |ls| > 0
  {
    if ts == [] then [] else ForestLeaves(ts[..|ts| - 1]) + Leaves(ts[|ts| - 1])
  }

  ghost function Height(t: Tree): nat {
    if t.kids == [] then 0 else 1 + Height(t.kids[0])
  }

  ghost function Roots(ts: seq<Tree>): seq<nat> {
    seq(|ts|, i requires 0 <= i < |ts| => ts[i].page)
  }

  /** The entries of the listed pages, one after another. */
  ghost function Contents(pages: seq<Page>, ls: seq<nat>): seq<Entry>
    requires forall k :: 0 <= k < |ls| ==> ls[k] < |pages|
  {
    if ls == [] then [] else Contents(pages, ls[..|ls| - 1]) + pages[ls[|ls| - 1]].entries
  }

  ghost predicate InHeap(pages: seq<Page>, ls: seq<nat>) {
    forall k :: 0 <= k < |ls| ==> ls[k] < |pages|
  }

  ghost predicate LeafPages(pages: seq<Page>, ls: seq<nat>) {
    forall k :: 0 <= k < |ls| ==> 0 < ls[k] < |pages| && pages[ls[k]].kind == LEAF_PAGE && pages[ls[k]].entries != []
  }

  // ---- what a heap spells out ------------------------------------------

  /** The pages hold this tree: leaves hold entries, every internal node names
      its children, all at one height, and separates them by their first keys. */
  ghost predicate Represents(pages: seq<Page>, t: Tree) {
    0 < t.page < |pages| &&
    var page := pages[t.page];
    if t.kids == [] then
      page.kind == LEAF_PAGE && page.entries != []
    else
      page.kind == INTERNAL_PAGE && |t.kids| >= 2 && page.children == Roots(t.kids) &&
      (forall i :: 0 <= i < |t.kids| ==> Represents(pages, t.kids[i]) && Height(t.kids[i]) == Height(t.kids[0])) &&
      |page.separators| == |t.kids| - 1 &&
      forall i :: 0 < i < |t.kids| ==> page.separators[i - 1] == FirstEntry(pages, t.kids[i]).value
  }

  ghost function FirstEntry(pages: seq<Page>, t: Tree): Entry {
    var p := Leaves(t)[0];
    if p < |pages| && pages[p].entries != [] then pages[p].entries[0] else Entry(0.0, 0)
  }

  ghost function LastEntry(pages: seq<Page>, t: Tree): Entry {
    var p := Leaves(t)[|Leaves(t)| - 1];
    if p < |pages| && pages[p].entries != [] then pages[p].entries[|pages[p].entries| - 1] else Entry(0.0, 0)
  }

  /** Adjacent leaves name each other; the ends of the chain name page zero. */
  ghost predicate Linked(pages: seq<Page>, ls: seq<nat>)
    requires InHeap(pages, ls)
  {
    forall k :: 0 <= k < |ls| ==> LinkedAt(pages, ls, k)
  }

  ghost predicate LinkedAt(pages: seq<Page>, ls: seq<nat>, k: nat)
    requires InHeap(pages, ls) && k < |ls|
  {
    pages[ls[k]].previous == (if k == 0 then 0 else ls[k - 1]) &&
    pages[ls[k]].next == (if k + 1 == |ls| then 0 else ls[k + 1])
  }

  /** What one page must satisfy on its own. */
  predicate PageShape(page: Page, pageSize: nat)
    requires AllowedPageSize(pageSize)
  {
    (page.kind == LEAF_PAGE &&
     0 < page.count == |page.entries| && page.count <= LeafCapacity(pageSize)) ||
    (page.kind == INTERNAL_PAGE && page.previous == 0 && page.next == 0 &&
     2 <= page.count == |page.children| && page.count <= InternalCapacity(pageSize) &&
     |page.separators| == page.count - 1)
  }

  /** A page holds only what its kind calls for. */
  predicate Canonical(page: Page) {
    (page.kind == LEAF_PAGE ==> page.children == [] && page.separators == []) &&
    (page.kind == INTERNAL_PAGE ==> page.entries == [])
  }

  ghost predicate ValidTableTree(pages: seq<Page>, root: nat, numPoints: nat, t: Tree) {
    t.page == root && Represents(pages, t) && LeafPages(pages, Leaves(t)) &&
    Linked(pages, Leaves(t)) && ValidTable(Contents(pages, Leaves(t)), numPoints)
  }

  /** Every page but page zero is in exactly one tree of one table, and every
      table's leaf chain is its in-order traversal and spells a sorted
      permutation of the points. */
  ghost predicate ValidHeap(pages: seq<Page>, pageSize: nat, roots: seq<nat>, numPoints: nat, trees: seq<Tree>)
    requires AllowedPageSize(pageSize)
  {
    |trees| == |roots| &&
    (forall p :: 0 < p < |pages| ==> PageShape(pages[p], pageSize)) &&
    NoDuplicates(ForestPreorder(trees)) &&
    (forall p :: p in ForestPreorder(trees) <==> 0 < p < |pages|) &&
    forall u :: 0 <= u < |roots| ==> ValidTableTree(pages, roots[u], numPoints, trees[u])
  }

  // ---- facts about traversals ------------------------------------------

  lemma ForestPreorderSnoc(ts: seq<Tree>, t: Tree)
    ensures ForestPreorder(ts + [t]) == ForestPreorder(ts) + Preorder(t)
  {
    assert (ts + [t])[..|ts|] == ts;
  }

  lemma ForestLeavesSnoc(ts: seq<Tree>, t: Tree)
    ensures ForestLeaves(ts + [t]) == ForestLeaves(ts) + Leaves(t)
  {
    assert (ts + [t])[..|ts|] == ts;
  }

  lemma Associative<T>(a: seq<T>, b: seq<T>, c: seq<T>)
    ensures (a + b) + c == a + (b + c)
  {}

  lemma {:induction false} ForestPreorderConcat(s: seq<Tree>, t: seq<Tree>)
    ensures ForestPreorder(s + t) == ForestPreorder(s) + ForestPreorder(t)
  {
    if t == [] {
      assert s + t == s;
    } else {
      var front, last := t[..|t| - 1], t[|t| - 1];
      ForestPreorderConcat(s, front);
      Associative(s, front, [last]);
      assert t == front + [last];
      ForestPreorderSnoc(s + front, last);
      Associative(ForestPreorder(s), ForestPreorder(front), Preorder(last));
    }
  }

  lemma {:induction false} ForestLeavesConcat(s: seq<Tree>, t: seq<Tree>)
    ensures ForestLeaves(s + t) == ForestLeaves(s) + ForestLeaves(t)
  {
    if t == [] {
      assert s + t == s;
    } else {
      var front, last := t[..|t| - 1], t[|t| - 1];
      ForestLeavesConcat(s, front);
      Associative(s, front, [last]);
      assert t == front + [last];
      ForestLeavesSnoc(s + front, last);
      Associative(ForestLeaves(s), ForestLeaves(front), Leaves(last));
    }
  }

  lemma ContentsSnoc(pages: seq<Page>, s: seq<nat>, p: nat)
    requires InHeap(pages, s) && p < |pages|
    ensures InHeap(pages, s + [p]) && Contents(pages, s + [p]) == Contents(pages, s) + pages[p].entries
  {
    assert (s + [p])[..|s|] == s;
  }

  lemma {:induction false} ContentsConcat(pages: seq<Page>, s: seq<nat>, t: seq<nat>)
    requires InHeap(pages, s) && InHeap(pages, t)
    ensures InHeap(pages, s + t) && Contents(pages, s + t) == Contents(pages, s) + Contents(pages, t)
  {
    if t == [] {
      assert s + t == s;
    } else {
      var front, last := t[..|t| - 1], t[|t| - 1];
      ContentsConcat(pages, s, front);
      Associative(s, front, [last]);
      assert t == front + [last];
      ContentsSnoc(pages, s + front, last);
      Associative(Contents(pages, s), Contents(pages, front), pages[last].entries);
    }
  }

  lemma ContentsOne(pages: seq<Page>, p: nat)
    requires p < |pages|
    ensures Contents(pages, [p]) == pages[p].entries
  {
    assert [p][..0] == [];
  }

  /** The leaves of a represented tree are leaf pages. */
  lemma {:induction false} RepresentedLeaves(pages: seq<Page>, t: Tree)
    requires Represents(pages, t)
    ensures LeafPages(pages, Leaves(t))
  {
    if t.kids != [] {
      ForestRepresentedLeaves(pages, t.kids);
    }
  }

  lemma {:induction false} ForestRepresentedLeaves(pages: seq<Page>, ts: seq<Tree>)
    requires forall i :: 0 <= i < |ts| ==> Represents(pages, ts[i])
    ensures LeafPages(pages, ForestLeaves(ts))
  {
    if ts == [] {
    } else {
      ForestRepresentedLeaves(pages, ts[..|ts| - 1]);
      RepresentedLeaves(pages, ts[|ts| - 1]);
    }
  }

  /** Where leaf k begins in the concatenated contents. */
  ghost function Offset(pages: seq<Page>, ls: seq<nat>, k: nat): nat
    requires InHeap(pages, ls) && k <= |ls|
  {
    |Contents(pages, ls[..k])|
  }

  lemma OffsetStep(pages: seq<Page>, ls: seq<nat>, k: nat)
    requires InHeap(pages, ls) && k < |ls|
    ensures Offset(pages, ls, k + 1) == Offset(pages, ls, k) + |pages[ls[k]].entries|
  {
    assert ls[..k + 1][..k] == ls[..k];
  }

  lemma MiddleSlice<T>(a: seq<T>, b: seq<T>, c: seq<T>)
    ensures (a + (b + c))[|a|..|a| + |b|] == b
  {}

  /** The entries of leaf k sit at Offset(k) in the table. */
  lemma ContentsAt(pages: seq<Page>, ls: seq<nat>, k: nat)
    requires InHeap(pages, ls) && k < |ls|
    ensures Offset(pages, ls, k) + |pages[ls[k]].entries| <= |Contents(pages, ls)|
    ensures Contents(pages, ls)[Offset(pages, ls, k)..Offset(pages, ls, k) + |pages[ls[k]].entries|] ==
            pages[ls[k]].entries
  {
    hide Contents;
    var front, back := ls[..k], ls[k + 1..];
    assert ls == front + ([ls[k]] + back);
    ContentsConcat(pages, [ls[k]], back);
    ContentsConcat(pages, front, [ls[k]] + back);
    ContentsOne(pages, ls[k]);
    MiddleSlice(Contents(pages, front), pages[ls[k]].entries, Contents(pages, back));
  }
}
