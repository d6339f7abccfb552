/** The rest of load_header: the checks before the search, the loop over tables,
    the link reciprocity pass and the walk of every leaf chain. */
module HeaderCheck {
  import opened Tables
  import opened PageTree
  import opened TreeOrder
  import opened DfsState
  import opened DfsTrack
  import opened Validator
  import opened BPlusIndex

  /** Entries, children and separators are what a page's bytes decode to: as many
      as its count says, whenever that many fit the page. */
  ghost predicate Decoded(pages: seq<Page>, pageSize: nat)
    requires AllowedPageSize(pageSize)
  {
    forall p :: 0 < p < |pages| ==>
      (pages[p].kind == LEAF_PAGE && pages[p].count <= LeafCapacity(pageSize) ==>
         |pages[p].entries| == pages[p].count) &&
      (pages[p].kind == INTERNAL_PAGE && 2 <= pages[p].count <= InternalCapacity(pageSize) ==>
         |pages[p].children| == pages[p].count && |pages[p].separators| == pages[p].count - 1)
  }

  ghost predicate LinksInRange(pages: seq<Page>) {
    forall p :: 0 < p < |pages| ==> pages[p].previous < |pages| && pages[p].next < |pages|
  }

  /** The first pass over all pages. */
  method CheckPages(pages: seq<Page>, pageSize: nat) returns (ok: bool)
    requires AllowedPageSize(pageSize) && Decoded(pages, pageSize)
    ensures ok <==> PageShapes(pages, pageSize) && (|pages| > 0 ==> LinksInRange(pages))
  {
    var p := 1;
    while p < |pages|
      invariant p >= 1
      invariant forall q :: 0 < q < p && q < |pages| ==>
        PageShape(pages[q], pageSize) && pages[q].previous < |pages| && pages[q].next < |pages|
    {
      var page := pages[p];
      if page.kind != LEAF_PAGE && page.kind != INTERNAL_PAGE {
        return false;
      }
      if page.kind == LEAF_PAGE {
        if page.count == 0 || page.count > LeafCapacity(pageSize) {
          return false;
        }
      } else if page.count < 2 || page.count > InternalCapacity(pageSize) || page.previous != 0 || page.next != 0 {
        return false;
      }
      if page.previous != 0 && page.previous >= |pages| {
        return false;
      }
      if page.next != 0 && page.next >= |pages| {
        return false;
      }
      p := p + 1;
    }
    return true;
  }

  // ---- all tables ------------------------------------------------------

  /** What the search of a table leaves behind for the later passes. */
  ghost predicate TreeOk(pages: seq<Page>, n: nat, root: nat, tree: Tree, first: nat, count: nat) {
    tree.page == root && Represents(pages, tree) && LeafPages(pages, Leaves(tree)) &&
    ValidTable(TreeContents(pages, tree), n) &&
    FirstLeafOk(pages, Leaves(tree), first) && count == |Leaves(tree)|
  }

  ghost predicate ForestOk(pages: seq<Page>, n: nat, roots: seq<nat>, forest: seq<Tree>, firsts: seq<nat>,
                           counts: seq<nat>) {
    |forest| == |firsts| == |counts| <= |roots| &&
    forall u :: 0 <= u < |forest| ==> TreeOk(pages, n, roots[u], forest[u], firsts[u], counts[u])
  }

  ghost predicate ValidPrefix(pages: seq<Page>, pageSize: nat, roots: seq<nat>, n: nat, w: seq<Tree>, t: nat,
                              forest: seq<Tree>)
    requires AllowedPageSize(pageSize)
  {
    ValidHeap(pages, pageSize, roots, n, w) ==> t <= |w| && forest == w[..t]
  }

  lemma ForestOkSnoc(pages: seq<Page>, n: nat, roots: seq<nat>, forest: seq<Tree>, firsts: seq<nat>, counts: seq<nat>,
                     tree: Tree, first: nat, count: nat)
    requires ForestOk(pages, n, roots, forest, firsts, counts) && |forest| < |roots|
    requires TreeOk(pages, n, roots[|forest|], tree, first, count)
    ensures ForestOk(pages, n, roots, forest + [tree], firsts + [first], counts + [count])
  {
    hide TreeOk;
  }

  /** std::uint32_t max: no owner yet. */
  const NO_OWNER: nat := 0xFFFF_FFFF

  lemma StartState(pages: seq<Page>, n: nat, s: Dfs)
    requires Sized(pages, n, s)
    requires forall p :: 0 <= p < |pages| ==> s.color[p] == 0
    requires forall id :: 0 <= id < n ==> s.marks[id] == 0
    ensures TableStart(pages, n, 0, s, [])
  {}

  lemma ExpectedFromHeap(pages: seq<Page>, pageSize: nat, n: nat, roots: seq<nat>, w: seq<Tree>, t: nat,
                         forest: seq<Tree>)
    requires AllowedPageSize(pageSize) && t < |roots| && ValidPrefix(pages, pageSize, roots, n, w, t, forest)
    ensures ValidHeap(pages, pageSize, roots, n, w) ==> Expected(pages, n, roots[t], w, t, forest)
  {}

  /** The search of every table in turn. */
  method SearchTables(pages: seq<Page>, pageSize: nat, n: nat, roots: seq<nat>, ghost w: seq<Tree>)
    returns (ok: bool, s: Dfs, firsts: seq<nat>, counts: seq<nat>, ghost forest: seq<Tree>)
    requires AllowedPageSize(pageSize) && PageShapes(pages, pageSize) && n > 0
    requires forall u :: 0 <= u < |roots| ==> 0 < roots[u] < |pages|
    ensures ok ==> TableStart(pages, n, |roots|, s, forest) && ForestOk(pages, n, roots, forest, firsts, counts)
    ensures ValidHeap(pages, pageSize, roots, n, w) ==> ok && forest == w
  {
    var zeros, noOwner := seq(|pages|, i => 0), seq(|pages|, i => NO_OWNER);
    var entries := seq(|pages|, i => Entry(0.0, 0));
    s := Dfs(zeros, noOwner, zeros, entries, entries, seq(n, i => 0), 0, 0, 0, []);
    firsts, counts, forest := [], [], [];
    StartState(pages, n, s);
    var t := 0;
    while t < |roots|
      invariant t <= |roots| && |forest| == t
      invariant TableStart(pages, n, t, s, forest) && ForestOk(pages, n, roots, forest, firsts, counts)
      invariant ValidPrefix(pages, pageSize, roots, n, w, t, forest)
    {
      ExpectedFromHeap(pages, pageSize, n, roots, w, t, forest);
      hide TableStart, Expected, PageShapes, TableFound;
      var found;
      ghost var tree;
      found, s, tree := SearchTable(pages, pageSize, n, t, roots[t], s, forest, w);
      if !found {
        return false, s, firsts, counts, forest;
      }
      FoundTree(pages, n, t, roots[t], s, forest, tree);
      ForestOkSnoc(pages, n, roots, forest, firsts, counts, tree, s.firstLeaf, s.leafCount);
      firsts, counts := firsts + [s.firstLeaf], counts + [s.leafCount];
      PrefixSnoc(pages, pageSize, n, roots, w, t, forest, tree);
      forest := forest + [tree];
      t := t + 1;
    }
    return true, s, firsts, counts, forest;
  }

  lemma PrefixSnoc(pages: seq<Page>, pageSize: nat, n: nat, roots: seq<nat>, w: seq<Tree>, t: nat, forest: seq<Tree>,
                   tree: Tree)
    requires AllowedPageSize(pageSize) && t < |roots| && ValidPrefix(pages, pageSize, roots, n, w, t, forest)
    requires ValidHeap(pages, pageSize, roots, n, w) ==> t < |w| && tree == w[t]
    ensures ValidPrefix(pages, pageSize, roots, n, w, t + 1, forest + [tree])
  {
    assert t < |w| ==> w[..t + 1] == w[..t] + [w[t]];
  }

  lemma FoundTree(pages: seq<Page>, n: nat, t: nat, root: nat, s: Dfs, forest: seq<Tree>, tree: Tree)
    requires TableFound(pages, n, t, root, s, forest, tree) && s.entryCount == n
    ensures TableStart(pages, n, t + 1, s, forest + [tree])
    ensures TreeOk(pages, n, root, tree, s.firstLeaf, s.leafCount)
  {}

  // ---- link reciprocity ------------------------------------------------

  ghost predicate PreviousOk(pages: seq<Page>, owner: seq<nat>, p: nat)
    requires p < |pages| == |owner|
  {
    var q := pages[p].previous;
    q != 0 ==> q < |pages| && pages[q].kind == LEAF_PAGE && pages[q].next == p && owner[q] == owner[p]
  }

  ghost predicate NextOk(pages: seq<Page>, owner: seq<nat>, p: nat)
    requires p < |pages| == |owner|
  {
    var q := pages[p].next;
    q != 0 ==> q < |pages| && pages[q].kind == LEAF_PAGE && pages[q].previous == p && owner[q] == owner[p]
  }

  ghost predicate LinksOk(pages: seq<Page>, color: seq<nat>, owner: seq<nat>)
    requires |pages| == |owner| == |color|
  {
    forall p :: 0 < p < |pages| ==>
      color[p] == 2 && (pages[p].kind == LEAF_PAGE ==> PreviousOk(pages, owner, p) && NextOk(pages, owner, p))
  }

  /** Every page was reached, and leaf links answer each other within a table. */
  method CheckLinks(pages: seq<Page>, color: seq<nat>, owner: seq<nat>) returns (ok: bool)
    requires |pages| == |owner| == |color| && LinksInRange(pages)
    ensures ok <==> LinksOk(pages, color, owner)
  {
    var p := 1;
    while p < |pages|
      invariant p >= 1
      invariant forall q :: 0 < q < p && q < |pages| ==>
        color[q] == 2 && (pages[q].kind == LEAF_PAGE ==> PreviousOk(pages, owner, q) && NextOk(pages, owner, q))
    {
      var page := pages[p];
      if color[p] != 2 {
        return false;
      }
      if page.kind == LEAF_PAGE {
        if page.previous != 0 {
          var previous := pages[page.previous];
          if previous.kind != LEAF_PAGE || previous.next != p || owner[page.previous] != owner[p] {
            assert !PreviousOk(pages, owner, p);
            return false;
          }
        }
        if page.next != 0 {
          var next := pages[page.next];
          if next.kind != LEAF_PAGE || next.previous != p || owner[page.next] != owner[p] {
            assert !NextOk(pages, owner, p);
            return false;
          }
        }
      }
      p := p + 1;
    }
    return true;
  }

  // ---- the walk of one leaf chain --------------------------------------

  /** std::uint64_t max: no rank yet. */
  const NO_RANK: nat := 0xFFFF_FFFF_FFFF_FFFF

  /** The arrays the walk reads. */
  ghost predicate WalkInput(pages: seq<Page>, s: Dfs) {
    |s.owner| == |s.firsts| == |s.lasts| == |pages|
  }

  ghost predicate WalkStep(pages: seq<Page>, s: Dfs, u: nat, p: nat)
    requires WalkInput(pages, s)
  {
    0 < p < |pages| && pages[p].kind == LEAF_PAGE && s.owner[p] == u
  }

  ghost predicate InOrder(pages: seq<Page>, s: Dfs, p: nat, q: nat)
    requires WalkInput(pages, s)
  {
    p < |pages| && q < |pages| && KeyLess(s.lasts[p], s.firsts[q])
  }

  /** A chain followed from first along the next links. */
  ghost predicate Followed(pages: seq<Page>, s: Dfs, u: nat, first: nat, chain: seq<nat>)
    requires WalkInput(pages, s)
  {
    (forall k :: 0 <= k < |chain| ==> WalkStep(pages, s, u, chain[k])) &&
    (chain != [] ==> chain[0] == first) &&
    forall k :: 0 < k < |chain| ==> pages[chain[k - 1]].next == chain[k] && InOrder(pages, s, chain[k - 1], chain[k])
  }

  ghost function After(pages: seq<Page>, first: nat, chain: seq<nat>): nat
    requires InHeap(pages, chain)
  {
    if chain == [] then first else pages[chain[|chain| - 1]].next
  }

  ghost predicate RanksOf(ranks0: seq<nat>, ranks: seq<nat>, chain: seq<nat>) {
    |ranks| == |ranks0| && NoDuplicates(chain) &&
    (forall k :: 0 <= k < |chain| ==> chain[k] < |ranks| && ranks0[chain[k]] == NO_RANK && ranks[chain[k]] == k) &&
    forall p :: 0 <= p < |ranks| && p !in chain ==> ranks[p] == ranks0[p]
  }

  /** The chain the walk should follow, when the table is well linked. */
  ghost predicate GoodChain(pages: seq<Page>, s: Dfs, u: nat, first: nat, count: nat, ls: seq<nat>, ranks0: seq<nat>)
    requires WalkInput(pages, s) && |ranks0| == |pages|
  {
    ls != [] && LeafPages(pages, ls) && Linked(pages, ls) && first == ls[0] && count == |ls| && NoDuplicates(ls) &&
    (forall k :: 0 <= k < |ls| ==> s.owner[ls[k]] == u && ranks0[ls[k]] == NO_RANK) &&
    forall k :: 0 < k < |ls| ==> InOrder(pages, s, ls[k - 1], ls[k])
  }

  lemma FollowedSnoc(pages: seq<Page>, s: Dfs, u: nat, first: nat, chain: seq<nat>, p: nat)
    requires WalkInput(pages, s) && Followed(pages, s, u, first, chain) && WalkStep(pages, s, u, p)
    requires p == (if chain == [] then first else pages[chain[|chain| - 1]].next)
    requires chain != [] ==> InOrder(pages, s, chain[|chain| - 1], p)
    ensures Followed(pages, s, u, first, chain + [p])
  {}

  lemma RanksSnoc(ranks0: seq<nat>, ranks: seq<nat>, chain: seq<nat>, p: nat)
    requires RanksOf(ranks0, ranks, chain) && p < |ranks| && ranks[p] == NO_RANK && |chain| < NO_RANK
    ensures p !in chain && RanksOf(ranks0, ranks[p := |chain|], chain + [p])
  {
    assert p !in chain by {
      assert forall k :: 0 <= k < |chain| ==> ranks[chain[k]] == k != NO_RANK;
    }
  }

  /** The walk after visiting chain, about to look at current. */
  ghost predicate Walking(pages: seq<Page>, s: Dfs, u: nat, first: nat, ranks0: seq<nat>, ranks: seq<nat>,
                          chain: seq<nat>, current: nat)
    requires WalkInput(pages, s) && |ranks0| == |pages|
  {
    Followed(pages, s, u, first, chain) && RanksOf(ranks0, ranks, chain) && InHeap(pages, chain) &&
    current == After(pages, first, chain)
  }

  ghost predicate WalkingGood(pages: seq<Page>, ls: seq<nat>, chain: seq<nat>, current: nat) {
    |chain| <= |ls| && chain == ls[..|chain|] && current == if |chain| < |ls| then ls[|chain|] else 0
  }

  /** The checks made of one leaf of the chain. */
  method CheckChainLeaf(pages: seq<Page>, s: Dfs, u: nat, current: nat, visited: nat, last: nat, count: nat,
                        ranks: seq<nat>) returns (ok: bool)
    requires WalkInput(pages, s) && |ranks| == |pages| && (visited > 0 ==> last < |pages|) && current != 0
    ensures ok <==> WalkStep(pages, s, u, current) && (visited > 0 ==> InOrder(pages, s, last, current)) &&
                    visited < count && ranks[current] == NO_RANK
  {
    if current >= |pages| {
      return false;
    }
    if pages[current].kind != LEAF_PAGE || s.owner[current] != u {
      return false;
    }
    if visited > 0 && !KeyLess(s.lasts[last], s.firsts[current]) {
      return false;
    }
    return visited + 1 <= count && ranks[current] == NO_RANK;
  }

  lemma WalkExtend(pages: seq<Page>, s: Dfs, u: nat, first: nat, ranks0: seq<nat>, ranks: seq<nat>,
                   chain: seq<nat>, current: nat)
    requires WalkInput(pages, s) && |ranks0| == |pages| && Walking(pages, s, u, first, ranks0, ranks, chain, current)
    requires WalkStep(pages, s, u, current) && |chain| < NO_RANK
    requires chain != [] ==> InOrder(pages, s, chain[|chain| - 1], current)
    requires |ranks| == |pages| && ranks[current] == NO_RANK
    ensures Walking(pages, s, u, first, ranks0, ranks[current := |chain|], chain + [current], pages[current].next)
  {
    RanksSnoc(ranks0, ranks, chain, current);
    FollowedSnoc(pages, s, u, first, chain, current);
  }

  lemma GoodExtend(pages: seq<Page>, s: Dfs, u: nat, first: nat, count: nat, ls: seq<nat>, ranks0: seq<nat>,
                   ranks: seq<nat>, chain: seq<nat>, current: nat)
    requires WalkInput(pages, s) && |ranks0| == |pages| && GoodChain(pages, s, u, first, count, ls, ranks0)
    requires RanksOf(ranks0, ranks, chain) && WalkingGood(pages, ls, chain, current) && current != 0
    ensures WalkStep(pages, s, u, current) && |chain| < count && ranks[current] == NO_RANK
    ensures |chain| > 0 ==> InOrder(pages, s, chain[|chain| - 1], current)
    ensures WalkingGood(pages, ls, chain + [current], pages[current].next)
  {
    GoodNext(pages, s, u, first, count, ls, ranks0, ranks, chain);
    var k := |chain|;
    assert LinkedAt(pages, ls, k);
    assert ls[..k + 1] == chain + [current];
  }

  method WalkChain(pages: seq<Page>, s: Dfs, u: nat, first: nat, count: nat, ranks0: seq<nat>, ghost ls: seq<nat>)
    returns (ok: bool, ranks: seq<nat>, ghost chain: seq<nat>)
    requires WalkInput(pages, s) && |ranks0| == |pages| && count < NO_RANK
    ensures ok ==> Followed(pages, s, u, first, chain) && RanksOf(ranks0, ranks, chain) &&
                   first != 0 && |chain| == count && InHeap(pages, chain) && After(pages, first, chain) == 0
    ensures GoodChain(pages, s, u, first, count, ls, ranks0) ==> ok && chain == ls
  {
    ghost var good := GoodChain(pages, s, u, first, count, ls, ranks0);
    ranks, chain := ranks0, [];
    if first == 0 {
      return false, ranks, chain;
    }
    var current, visited, last := first, 0, 0;
    while current != 0
      invariant visited == |chain| <= count && |ranks| == |pages| && InHeap(pages, chain)
      invariant Walking(pages, s, u, first, ranks0, ranks, chain, current)
      invariant visited > 0 ==> last == chain[visited - 1]
      invariant good ==> WalkingGood(pages, ls, chain, current)
      decreases count - visited
    {
      if good {
        GoodExtend(pages, s, u, first, count, ls, ranks0, ranks, chain, current);
      }
      hide GoodChain, WalkingGood, InOrder, Followed;
      var fine := CheckChainLeaf(pages, s, u, current, visited, last, count, ranks);
      if !fine {
        return false, ranks, chain;
      }
      WalkExtend(pages, s, u, first, ranks0, ranks, chain, current);
      ranks := ranks[current := visited];
      visited := visited + 1;
      chain := chain + [current];
      last := current;
      current := pages[current].next;
    }
    ok := visited == count;
  }

  lemma GoodNext(pages: seq<Page>, s: Dfs, u: nat, first: nat, count: nat, ls: seq<nat>, ranks0: seq<nat>,
                 ranks: seq<nat>, chain: seq<nat>)
    requires WalkInput(pages, s) && |ranks0| == |pages| && GoodChain(pages, s, u, first, count, ls, ranks0)
    requires RanksOf(ranks0, ranks, chain) && |chain| < |ls| && chain == ls[..|chain|]
    ensures WalkStep(pages, s, u, ls[|chain|]) && ranks[ls[|chain|]] == NO_RANK
    ensures |chain| > 0 ==> InOrder(pages, s, chain[|chain| - 1], ls[|chain|])
  {
    assert ls[|chain|] !in chain;
  }

  // ---- a followed chain is the in-order traversal ----------------------

  lemma {:induction false} InSomeTree(forest: seq<Tree>, q: nat) returns (u: nat)
    requires q in ForestPreorder(forest)
    ensures u < |forest| && q in Preorder(forest[u])
  {
    if q in Preorder(forest[|forest| - 1]) {
      u := |forest| - 1;
    } else {
      u := InSomeTree(forest[..|forest| - 1], q);
    }
  }

  /** A leaf page inside a represented tree is one of its leaves. */
  lemma {:induction false} LeafInTree(pages: seq<Page>, t: Tree, q: nat)
    requires Represents(pages, t) && q in Preorder(t) && q < |pages| && pages[q].kind == LEAF_PAGE
    ensures q in Leaves(t)
  {
    if t.kids != [] {
      assert q != t.page;
      LeafInForest(pages, t.kids, q);
    }
  }

  lemma {:induction false} LeafInForest(pages: seq<Page>, ts: seq<Tree>, q: nat)
    requires AllRepresented(pages, ts) && q in ForestPreorder(ts) && q < |pages| && pages[q].kind == LEAF_PAGE
    ensures q in ForestLeaves(ts)
  {
    if q in Preorder(ts[|ts| - 1]) {
      LeafInTree(pages, ts[|ts| - 1], q);
    } else {
      LeafInForest(pages, ts[..|ts| - 1], q);
    }
  }

  /** And the leaves are among the pages of the tree. */
  lemma {:induction false} LeavesInTree(t: Tree)
    ensures forall q :: q in Leaves(t) ==> q in Preorder(t)
  {
    if t.kids != [] {
      LeavesInForest(t.kids);
    }
  }

  lemma {:induction false} LeavesInForest(ts: seq<Tree>)
    ensures forall q :: q in ForestLeaves(ts) ==> q in ForestPreorder(ts)
  {
    if ts == [] {
    } else {
      LeavesInForest(ts[..|ts| - 1]);
      LeavesInTree(ts[|ts| - 1]);
    }
  }

  ghost predicate Increasing(pages: seq<Page>, ls: seq<nat>)
    requires LeafPages(pages, ls)
  {
    forall i, j :: 0 <= i < j < |ls| ==> KeyLess(pages[ls[i]].entries[0], pages[ls[j]].entries[0])
  }

  lemma ContentsIncreasing(pages: seq<Page>, ls: seq<nat>)
    requires LeafPages(pages, ls) && Ordered(Contents(pages, ls))
    ensures Increasing(pages, ls)
  {
    var all := Contents(pages, ls);
    forall i, j | 0 <= i < j < |ls|
      ensures KeyLess(pages[ls[i]].entries[0], pages[ls[j]].entries[0])
    {
      OffsetMonotone(pages, ls, i, j);
      LeafFirst(pages, ls, i);
      LeafFirst(pages, ls, j);
      assert KeyLess(all[Offset(pages, ls, i)], all[Offset(pages, ls, j)]);
    }
  }

  lemma LeafFirst(pages: seq<Page>, ls: seq<nat>, k: nat)
    requires LeafPages(pages, ls) && k < |ls|
    ensures Offset(pages, ls, k) < |Contents(pages, ls)|
    ensures Contents(pages, ls)[Offset(pages, ls, k)] == pages[ls[k]].entries[0]
  {
    ContentsAt(pages, ls, k);
    var from, size := Offset(pages, ls, k), |pages[ls[k]].entries|;
    assert Contents(pages, ls)[from..from + size][0] == pages[ls[k]].entries[0];
  }

  /** A list of leaves in increasing key order has no duplicates. */
  lemma IncreasingDistinct(pages: seq<Page>, ls: seq<nat>)
    requires LeafPages(pages, ls) && Increasing(pages, ls)
    ensures NoDuplicates(ls)
  {
    forall i, j | 0 <= i < j < |ls|
      ensures ls[i] != ls[j]
    {
      assert KeyLess(pages[ls[i]].entries[0], pages[ls[j]].entries[0]);
    }
  }

  lemma ElementsFront(s: seq<nat>)
    requires s != [] && NoDuplicates(s)
    ensures Elements(s[..|s| - 1]) == Elements(s) - {s[|s| - 1]}
  {
    assert s[|s| - 1] !in s[..|s| - 1];
  }

  lemma IncreasingFront(pages: seq<Page>, ls: seq<nat>)
    requires LeafPages(pages, ls) && Increasing(pages, ls) && ls != []
    ensures LeafPages(pages, ls[..|ls| - 1]) && Increasing(pages, ls[..|ls| - 1])
  {}

  /** Two increasing lists of the same leaves are the same list. */
  lemma {:induction false} IncreasingSame(pages: seq<Page>, a: seq<nat>, b: seq<nat>)
    requires LeafPages(pages, a) && LeafPages(pages, b) && Increasing(pages, a) && Increasing(pages, b)
    requires Elements(a) == Elements(b)
    ensures a == b
    decreases |a|
  {
    hide Elements, Increasing, LeafPages, NoDuplicates;
    IncreasingDistinct(pages, a);
    IncreasingDistinct(pages, b);
    DistinctSize(a);
    DistinctSize(b);
    if a == [] {
    } else {
      IncreasingLast(pages, a, b);
      IncreasingFront(pages, a);
      IncreasingFront(pages, b);
      ElementsFront(a);
      ElementsFront(b);
      IncreasingSame(pages, a[..|a| - 1], b[..|b| - 1]);
      assert a == a[..|a| - 1] + [a[|a| - 1]] && b == b[..|b| - 1] + [b[|b| - 1]];
    }
  }

  lemma IncreasingLast(pages: seq<Page>, a: seq<nat>, b: seq<nat>)
    requires LeafPages(pages, a) && LeafPages(pages, b) && Increasing(pages, a) && Increasing(pages, b)
    requires Elements(a) == Elements(b) && a != [] && b != []
    ensures a[|a| - 1] == b[|b| - 1]
  {
    var x, y := a[|a| - 1], b[|b| - 1];
    assert x in Elements(b) && y in Elements(a);
    var i :| 0 <= i < |b| && b[i] == x;
    var j :| 0 <= j < |a| && a[j] == y;
    LastIsGreatest(pages, b, i);
    LastIsGreatest(pages, a, j);
  }

  lemma LastIsGreatest(pages: seq<Page>, ls: seq<nat>, i: nat)
    requires LeafPages(pages, ls) && Increasing(pages, ls) && i < |ls|
    ensures ls[i] == ls[|ls| - 1] || KeyLess(pages[ls[i]].entries[0], pages[ls[|ls| - 1]].entries[0])
  {}

  /** The recorded key ranges of leaves are the leaves' own. */
  ghost predicate KeysKnown(pages: seq<Page>, s: Dfs, chain: seq<nat>)
    requires WalkInput(pages, s) && LeafPages(pages, chain)
  {
    forall k :: 0 <= k < |chain| ==>
      s.firsts[chain[k]] == pages[chain[k]].entries[0] &&
      s.lasts[chain[k]] == pages[chain[k]].entries[|pages[chain[k]].entries| - 1] &&
      Ordered(pages[chain[k]].entries)
  }

  /** Adjacent leaves in order make a whole chain in order. */
  lemma {:induction false} FollowedIncreasing(pages: seq<Page>, s: Dfs, u: nat, first: nat, chain: seq<nat>, i: nat,
                                              j: nat)
    requires WalkInput(pages, s) && LeafPages(pages, chain) && Followed(pages, s, u, first, chain)
    requires KeysKnown(pages, s, chain) && i < j < |chain|
    ensures KeyLess(pages[chain[i]].entries[0], pages[chain[j]].entries[0])
    decreases j
  {
    var before := pages[chain[j - 1]].entries;
    assert InOrder(pages, s, chain[j - 1], chain[j]);
    assert |before| == 1 || KeyLess(before[0], before[|before| - 1]);
    assert KeyLess(before[0], pages[chain[j]].entries[0]);
    if i < j - 1 {
      FollowedIncreasing(pages, s, u, first, chain, i, j - 1);
    }
  }

  lemma SubsetOfSameSizeList(a: seq<nat>, b: seq<nat>)
    requires NoDuplicates(a) && NoDuplicates(b) && |a| == |b| && forall x :: x in a ==> x in b
    ensures Elements(a) == Elements(b)
  {
    DistinctSize(a);
    DistinctSize(b);
    SubsetOfSameSize(Elements(a), Elements(b));
  }

  /** A chain of as many distinct leaves of the table as it has, in order, is its
      list of leaves. */
  lemma ChainIsLeaves(pages: seq<Page>, s: Dfs, u: nat, first: nat, chain: seq<nat>, ls: seq<nat>)
    requires WalkInput(pages, s) && LeafPages(pages, ls) && Ordered(Contents(pages, ls)) && |chain| == |ls|
    requires Followed(pages, s, u, first, chain) && NoDuplicates(chain) && forall p :: p in chain ==> p in ls
    requires KeysKnown(pages, s, ls)
    ensures chain == ls
  {
    assert LeafPages(pages, chain) && KeysKnown(pages, s, chain) by {
      forall k | 0 <= k < |chain|
        ensures exists i :: 0 <= i < |ls| && ls[i] == chain[k]
      {
        assert chain[k] in ls;
      }
    }
    forall i, j | 0 <= i < j < |chain|
      ensures KeyLess(pages[chain[i]].entries[0], pages[chain[j]].entries[0])
    {
      FollowedIncreasing(pages, s, u, first, chain, i, j);
    }
    ContentsIncreasing(pages, ls);
    IncreasingDistinct(pages, ls);
    SubsetOfSameSizeList(chain, ls);
    IncreasingSame(pages, chain, ls);
  }

  /** Followed links that answer each other make a linked chain. */
  lemma FollowedIsLinked(pages: seq<Page>, color: seq<nat>, s: Dfs, u: nat, first: nat, chain: seq<nat>)
    requires WalkInput(pages, s) && LeafPages(pages, chain) && Followed(pages, s, u, first, chain) && chain != []
    requires |color| == |pages| && LinksOk(pages, color, s.owner)
    requires first < |pages| && pages[first].previous == 0 && After(pages, first, chain) == 0
    ensures Linked(pages, chain)
  {
    forall k | 0 <= k < |chain|
      ensures LinkedAt(pages, chain, k)
    {
      assert k > 0 ==> NextOk(pages, s.owner, chain[k - 1]) && chain[k] != 0;
      assert k + 1 < |chain| ==> pages[chain[k]].next == chain[k + 1];
    }
  }

  // ---- the whole check -------------------------------------------------

  lemma HeapLeaf(pages: seq<Page>, pageSize: nat, roots: seq<nat>, n: nat, w: seq<Tree>, p: nat)
    returns (u: nat, k: nat)
    requires AllowedPageSize(pageSize) && ValidHeap(pages, pageSize, roots, n, w)
    requires 0 < p < |pages| && pages[p].kind == LEAF_PAGE
    ensures u < |w| && k < |Leaves(w[u])| && Leaves(w[u])[k] == p
  {
    u := InSomeTree(w, p);
    assert ValidTableTree(pages, roots[u], n, w[u]);
    LeafInTree(pages, w[u], p);
    k :| 0 <= k < |Leaves(w[u])| && Leaves(w[u])[k] == p;
  }

  /** A valid heap passes the first checks. */
  lemma HeapBegins(pages: seq<Page>, pageSize: nat, roots: seq<nat>, n: nat, w: seq<Tree>)
    requires AllowedPageSize(pageSize) && ValidHeap(pages, pageSize, roots, n, w) && |roots| > 0
    ensures |pages| > 1 && PageShapes(pages, pageSize) && LinksInRange(pages)
    ensures forall u :: 0 <= u < |roots| ==> 0 < roots[u] < |pages|
  {
    forall u | 0 <= u < |roots|
      ensures 0 < roots[u] < |pages|
    {
      assert ValidTableTree(pages, roots[u], n, w[u]);
    }
    assert 0 < roots[0] < |pages|;
    forall p | 0 < p < |pages|
      ensures pages[p].previous < |pages| && pages[p].next < |pages|
    {
      assert PageShape(pages[p], pageSize);
      if pages[p].kind == LEAF_PAGE {
        var u, k := HeapLeaf(pages, pageSize, roots, n, w, p);
        LinkedInRange(pages, roots[u], n, w[u], k);
      }
    }
  }

  lemma LinkedInRange(pages: seq<Page>, root: nat, n: nat, tree: Tree, k: nat)
    requires ValidTableTree(pages, root, n, tree) && k < |Leaves(tree)|
    ensures var ls := Leaves(tree);
            ls[k] < |pages| && pages[ls[k]].previous < |pages| && pages[ls[k]].next < |pages| &&
            pages[ls[k]].previous == (if k == 0 then 0 else ls[k - 1]) &&
            pages[ls[k]].next == (if k + 1 == |ls| then 0 else ls[k + 1])
  {
    var ls := Leaves(tree);
    assert LinkedAt(pages, ls, k) && LeafPages(pages, ls);
    assert k > 0 ==> ls[k - 1] < |pages|;
    assert k + 1 < |ls| ==> ls[k + 1] < |pages|;
  }

  lemma LeafOwner(owner: seq<nat>, forest: seq<Tree>, u: nat, k: nat)
    requires ForestOwned(owner, forest) && u < |forest| && k < |Leaves(forest[u])|
    ensures Leaves(forest[u])[k] < |owner| && owner[Leaves(forest[u])[k]] == u
  {
    LeavesInTree(forest[u]);
    assert Owned(owner, Preorder(forest[u]), u);
    assert Leaves(forest[u])[k] in Leaves(forest[u]);
  }

  /** A valid heap passes the link pass. */
  lemma HeapLinks(pages: seq<Page>, pageSize: nat, roots: seq<nat>, n: nat, w: seq<Tree>, s: Dfs)
    requires AllowedPageSize(pageSize) && ValidHeap(pages, pageSize, roots, n, w)
    requires TableStart(pages, n, |roots|, s, w)
    ensures LinksOk(pages, s.color, s.owner)
  {
    forall p | 0 < p < |pages|
      ensures s.color[p] == 2 &&
              (pages[p].kind == LEAF_PAGE ==> PreviousOk(pages, s.owner, p) && NextOk(pages, s.owner, p))
    {
      assert p in ForestPreorder(w);
      if pages[p].kind == LEAF_PAGE {
        var u, k := HeapLeaf(pages, pageSize, roots, n, w, p);
        HeapLeafLinks(pages, roots[u], n, w, s.owner, u, k);
      }
    }
  }

  lemma HeapLeafLinks(pages: seq<Page>, root: nat, n: nat, w: seq<Tree>, owner: seq<nat>, u: nat, k: nat)
    requires ForestOwned(owner, w) && u < |w| && ValidTableTree(pages, root, n, w[u]) && k < |Leaves(w[u])|
    requires |owner| == |pages|
    ensures var p := Leaves(w[u])[k]; p < |pages| && PreviousOk(pages, owner, p) && NextOk(pages, owner, p)
  {
    var ls := Leaves(w[u]);
    LinkedInRange(pages, root, n, w[u], k);
    LeafOwner(owner, w, u, k);
    if k > 0 {
      LinkedInRange(pages, root, n, w[u], k - 1);
      LeafOwner(owner, w, u, k - 1);
      assert pages[ls[k - 1]].kind == LEAF_PAGE;
    }
    if k + 1 < |ls| {
      LinkedInRange(pages, root, n, w[u], k + 1);
      LeafOwner(owner, w, u, k + 1);
      assert pages[ls[k + 1]].kind == LEAF_PAGE;
    }
  }

  lemma LeafEntriesOrdered(pages: seq<Page>, ls: seq<nat>, k: nat)
    requires LeafPages(pages, ls) && Ordered(Contents(pages, ls)) && k < |ls|
    ensures Ordered(pages[ls[k]].entries)
    ensures k > 0 ==> KeyLess(pages[ls[k - 1]].entries[|pages[ls[k - 1]].entries| - 1], pages[ls[k]].entries[0])
  {
    var all, from, size := Contents(pages, ls), Offset(pages, ls, k), |pages[ls[k]].entries|;
    ContentsAt(pages, ls, k);
    assert all == all[..from] + (all[from..from + size] + all[from + size..]);
    OrderedMiddle(all[..from], all[from..from + size], all[from + size..]);
    if k > 0 {
      ContentsAt(pages, ls, k - 1);
      OffsetStep(pages, ls, k - 1);
      var before := pages[ls[k - 1]].entries;
      assert all[from - 1] == all[from - |before|..from][|before| - 1];
      assert all[from] == all[from..from + size][0];
      assert KeyLess(all[from - 1], all[from]);
    }
  }

  /** The state the search leaves knows the key range of every leaf of a table. */
  lemma TableKeys(pages: seq<Page>, n: nat, t: nat, s: Dfs, forest: seq<Tree>, root: nat, u: nat, first: nat,
                  count: nat)
    requires TableStart(pages, n, t, s, forest) && u < |forest| && TreeOk(pages, n, root, forest[u], first, count)
    ensures KeysKnown(pages, s, Leaves(forest[u]))
  {
    var ls := Leaves(forest[u]);
    forall k | 0 <= k < |ls|
      ensures s.firsts[ls[k]] == pages[ls[k]].entries[0] &&
              s.lasts[ls[k]] == pages[ls[k]].entries[|pages[ls[k]].entries| - 1] && Ordered(pages[ls[k]].entries)
    {
      LeavesInTree(forest[u]);
      ForestHas(forest, u);
      assert ls[k] in ls;
      assert s.color[ls[k]] == 2;
      LeafEntriesOrdered(pages, ls, k);
    }
  }

  /** Ranks given so far belong to leaves of the tables already walked. */
  ghost predicate RanksBefore(ranks: seq<nat>, owner: seq<nat>, u: nat) {
    |ranks| == |owner| && forall p :: 0 <= p < |ranks| && ranks[p] != NO_RANK ==> owner[p] < u
  }

  /** A table of a valid heap has the chain the walk should find. */
  lemma HeapChain(pages: seq<Page>, pageSize: nat, roots: seq<nat>, n: nat, w: seq<Tree>, s: Dfs, u: nat,
                  first: nat, count: nat, ranks: seq<nat>)
    requires AllowedPageSize(pageSize) && ValidHeap(pages, pageSize, roots, n, w) && u < |roots|
    requires TableStart(pages, n, |roots|, s, w) && TreeOk(pages, n, roots[u], w[u], first, count)
    requires RanksBefore(ranks, s.owner, u)
    ensures GoodChain(pages, s, u, first, count, Leaves(w[u]), ranks)
  {
    var ls := Leaves(w[u]);
    assert ValidTableTree(pages, roots[u], n, w[u]);
    TableKeys(pages, n, |roots|, s, w, roots[u], u, first, count);
    ContentsIncreasing(pages, ls);
    IncreasingDistinct(pages, ls);
    LinkedInRange(pages, roots[u], n, w[u], 0);
    hide Represents, Increasing, Contents, TableStart, Linked;
    forall k | 0 <= k < |ls|
      ensures s.owner[ls[k]] == u && ranks[ls[k]] == NO_RANK
    {
      assert ForestOwned(s.owner, w) by { TableOwners(pages, n, |roots|, s, w); }
      LeafOwner(s.owner, w, u, k);
    }
    forall k | 0 < k < |ls|
      ensures InOrder(pages, s, ls[k - 1], ls[k])
    {
      LeafEntriesOrdered(pages, ls, k);
    }
  }

  lemma TableOwners(pages: seq<Page>, n: nat, t: nat, s: Dfs, forest: seq<Tree>)
    requires TableStart(pages, n, t, s, forest)
    ensures ForestOwned(s.owner, forest) && Colored(s.color, ForestPreorder(forest), []) && WalkInput(pages, s)
  {}

  /** Whatever the walk followed is the table's list of leaves, linked both ways. */
  lemma WalkedTable(pages: seq<Page>, n: nat, s: Dfs, forest: seq<Tree>, root: nat, u: nat, first: nat, count: nat,
                    chain: seq<nat>)
    requires TableStart(pages, n, |forest|, s, forest) && u < |forest|
    requires TreeOk(pages, n, root, forest[u], first, count) && LinksOk(pages, s.color, s.owner)
    requires WalkInput(pages, s) && Followed(pages, s, u, first, chain) && NoDuplicates(chain)
    requires |chain| == count && first != 0 && InHeap(pages, chain) && After(pages, first, chain) == 0
    ensures chain == Leaves(forest[u]) && Linked(pages, Leaves(forest[u]))
  {
    var ls := Leaves(forest[u]);
    TableOwners(pages, n, |forest|, s, forest);
    forall p | p in chain
      ensures p in ls
    {
      var k :| 0 <= k < |chain| && chain[k] == p;
      assert WalkStep(pages, s, u, p) && s.color[p] == 2;
      var v := InSomeTree(forest, p);
      assert Owned(s.owner, Preorder(forest[v]), v);
      LeafInTree(pages, forest[u], p);
    }
    TableKeys(pages, n, |forest|, s, forest, root, u, first, count);
    ChainIsLeaves(pages, s, u, first, chain, ls);
    FollowedIsLinked(pages, s.color, s, u, first, ls);
  }

  /** Tables before u have a linked and ranked leaf chain. */
  ghost predicate Walked(pages: seq<Page>, forest: seq<Tree>, ranks: seq<nat>, u: nat) {
    u <= |forest| && forall v :: 0 <= v < u ==>
      InHeap(pages, Leaves(forest[v])) && Linked(pages, Leaves(forest[v])) && Ranked(Leaves(forest[v]), ranks)
  }

  lemma WalkedSnoc(pages: seq<Page>, forest: seq<Tree>, owner: seq<nat>, ranks0: seq<nat>, ranks: seq<nat>, u: nat)
    requires Walked(pages, forest, ranks0, u) && u < |forest| && ForestOwned(owner, forest)
    requires RanksBefore(ranks0, owner, u) && RanksOf(ranks0, ranks, Leaves(forest[u]))
    requires InHeap(pages, Leaves(forest[u])) && Linked(pages, Leaves(forest[u]))
    ensures Walked(pages, forest, ranks, u + 1) && RanksBefore(ranks, owner, u + 1)
  {
    var ls := Leaves(forest[u]);
    assert forall p :: p in ls ==> p < |owner| && owner[p] == u by {
      forall p | p in ls
        ensures p < |owner| && owner[p] == u
      {
        var k :| 0 <= k < |ls| && ls[k] == p;
        LeafOwner(owner, forest, u, k);
      }
    }
    forall v | 0 <= v < u
      ensures Ranked(Leaves(forest[v]), ranks)
    {
      forall k | 0 <= k < |Leaves(forest[v])|
        ensures Leaves(forest[v])[k] < |ranks| && ranks[Leaves(forest[v])[k]] == k
      {
        LeafOwner(owner, forest, v, k);
      }
    }
  }

  /** The walk of every table's chain. */
  method WalkChains(pages: seq<Page>, pageSize: nat, n: nat, roots: seq<nat>, s: Dfs, firsts: seq<nat>,
                    counts: seq<nat>, ghost forest: seq<Tree>)
    returns (ok: bool, ranks: seq<nat>)
    requires AllowedPageSize(pageSize) && WalkInput(pages, s) && |forest| == |firsts| == |counts| == |roots|
    requires TableStart(pages, n, |forest|, s, forest) && ForestOk(pages, n, roots, forest, firsts, counts)
    requires LinksOk(pages, s.color, s.owner) && forall u :: 0 <= u < |counts| ==> counts[u] < NO_RANK
    ensures ok ==> Walked(pages, forest, ranks, |forest|)
    ensures ValidHeap(pages, pageSize, roots, n, forest) ==> ok
  {
    TableOwners(pages, n, |forest|, s, forest);
    ranks := seq(|pages|, i => NO_RANK);
    var u := 0;
    while u < |roots|
      invariant u <= |roots| && |ranks| == |pages|
      invariant Walked(pages, forest, ranks, u) && RanksBefore(ranks, s.owner, u)
    {
      assert TreeOk(pages, n, roots[u], forest[u], firsts[u], counts[u]);
      ghost var good := ValidHeap(pages, pageSize, roots, n, forest);
      if good {
        HeapChain(pages, pageSize, roots, n, forest, s, u, firsts[u], counts[u], ranks);
      }
      hide ValidHeap, TreeOk, TableStart, LinksOk, GoodChain, Walked, RanksBefore, Followed, Linked;
      ghost var before := ranks;
      ghost var chain;
      ok, ranks, chain := WalkChain(pages, s, u, firsts[u], counts[u], ranks, Leaves(forest[u]));
      if !ok {
        return false, ranks;
      }
      WalkedTable(pages, n, s, forest, roots[u], u, firsts[u], counts[u], chain);
      WalkedSnoc(pages, forest, s.owner, before, ranks, u);
      u := u + 1;
    }
    return true, ranks;
  }
}
