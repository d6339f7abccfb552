/** BPlusTreeIndex::Build, from sorted tables to the page heap: leaves are packed
    and linked, then levels of balanced groups are stacked up to one root. */
module Builder {
  import opened Tables
  import opened PageTree
  import opened DfsSpec
  import opened DfsSteps

  // ---- arithmetic of grouping ------------------------------------------

  function CeilDiv(a: nat, b: nat): (c: nat)
    requires b > 0
  {
    (a + b - 1) / b
  }

  lemma DivBounds(a: nat, b: nat)
    requires b > 0
    ensures a / b * b <= a < a / b * b + b
    ensures a == a / b * b + a % b
  {}

  lemma MulOrder(a: nat, b: nat, c: nat)
    requires a <= b
    ensures a * c <= b * c
  {
    assert (b - a) * c >= 0;
  }

  lemma CeilBounds(a: nat, b: nat)
    requires b > 0
    ensures a <= CeilDiv(a, b) * b < a + b
    ensures a > 0 ==> CeilDiv(a, b) > 0
  {
    DivBounds(a + b - 1, b);
    if a > 0 && CeilDiv(a, b) == 0 {
      assert false;
    }
  }

  /** Splitting a level of size pages into the fewest groups, sizes as equal as can
      be: groups never exceed the capacity, and none is unary unless the capacity
      is two and the level odd. */
  lemma Grouping(size: nat, capacity: nat)
    requires size >= 2 && capacity >= 2
    ensures var groups := CeilDiv(size, capacity);
            0 < groups < size && size <= groups * capacity < size + capacity &&
            size == groups * (size / groups) + size % groups &&
            size / groups + (if size % groups > 0 then 1 else 0) <= capacity &&
            (size / groups >= 2 <==> capacity >= 3 || size % 2 == 0)
  {
    var groups := CeilDiv(size, capacity);
    CeilBounds(size, capacity);
    MulOrder(2, capacity, groups);
    assert groups * 2 <= groups * capacity;
    var base, extra := size / groups, size % groups;
    DivBounds(size, groups);
    assert size == groups * base + extra;
    GroupFits(size, capacity, groups, base, extra);
    GroupNotUnary(size, capacity, groups, base, extra);
  }

  lemma GroupFits(size: nat, capacity: nat, groups: nat, base: nat, extra: nat)
    requires groups > 0 && size == groups * base + extra && size <= groups * capacity
    ensures base + (if extra > 0 then 1 else 0) <= capacity
  {
    assert base > capacity ==> groups * base >= groups * capacity + groups by {
      if base > capacity {
        MulOrder(capacity + 1, base, groups);
      }
    }
    assert base == capacity ==> groups * base == groups * capacity;
  }

  lemma GroupNotUnary(size: nat, capacity: nat, groups: nat, base: nat, extra: nat)
    requires size >= 2 && capacity >= 2 && groups > 0 && extra < groups
    requires size == groups * base + extra && size <= groups * capacity < size + capacity
    ensures groups < size && (base >= 2 <==> capacity >= 3 || size % 2 == 0)
  {
    if capacity == 2 {
      assert 2 * groups == size || 2 * groups == size + 1;
      BaseByDouble(size, groups, base, extra);
    } else {
      FewGroups(size, capacity, groups);
      BaseByDouble(size, groups, base, extra);
    }
  }

  lemma BaseByDouble(size: nat, groups: nat, base: nat, extra: nat)
    requires groups > 0 && extra < groups && size == groups * base + extra
    ensures base >= 2 <==> 2 * groups <= size
  {
    if base >= 2 {
      MulOrder(2, base, groups);
    } else if base == 1 {
      assert groups * base == groups;
    } else {
      assert groups * base == 0;
    }
  }

  lemma FewGroups(size: nat, capacity: nat, groups: nat)
    requires size >= 2 && capacity >= 3 && groups > 0 && groups * capacity < size + capacity
    ensures 2 * groups <= size && groups < size
  {
    if groups > 1 {
      assert (groups - 1) * capacity == groups * capacity - capacity;
      MulOrder(3, capacity, groups - 1);
      assert (groups - 1) * 3 <= (groups - 1) * capacity;
    }
  }

  /** Pages of a table whose lowest level has count pages. */
  function LevelPages(count: nat, capacity: nat): (total: nat)
    requires capacity >= 2
    decreases count
  {
    if count <= 1 then count
    else
      assert 0 < CeilDiv(count, capacity) < count by { Grouping(count, capacity); }
      count + LevelPages(CeilDiv(count, capacity), capacity)
  }

  /** pages_per_table, computed before any page is made. */
  method PagesPerTable(numPoints: nat, leafCapacity: nat, internalCapacity: nat) returns (total: nat)
    requires numPoints > 0 && leafCapacity > 0 && internalCapacity >= 2
    ensures total == LevelPages(CeilDiv(numPoints, leafCapacity), internalCapacity)
  {
    CeilBounds(numPoints, leafCapacity);
    total := 0;
    var count := CeilDiv(numPoints, leafCapacity);
    while true
      invariant count > 0
      invariant total + LevelPages(count, internalCapacity)
             == LevelPages(CeilDiv(numPoints, leafCapacity), internalCapacity)
      decreases count
    {
      total := total + count;
      if count == 1 {
        return;
      }
      Grouping(count, internalCapacity);
      count := CeilDiv(count, internalCapacity);
    }
  }

  // ---- growing the heap ------------------------------------------------

  /** pages' keeps every page of pages. */
  ghost predicate Extends(pages: seq<Page>, pages': seq<Page>) {
    |pages| <= |pages'| && forall p :: 0 <= p < |pages| ==> pages'[p] == pages[p]
  }

  lemma {:induction false} RepresentsGrows(pages: seq<Page>, pages': seq<Page>, t: Tree)
    requires Extends(pages, pages') && Represents(pages, t)
    ensures Represents(pages', t) && FirstEntry(pages', t) == FirstEntry(pages, t)
  {
    RepresentedLeaves(pages, t);
    assert Leaves(t)[0] < |pages|;
    if t.kids == [] {
    } else {
      forall i | 0 <= i < |t.kids|
        ensures Represents(pages', t.kids[i]) && FirstEntry(pages', t.kids[i]) == FirstEntry(pages, t.kids[i])
      {
        RepresentsGrows(pages, pages', t.kids[i]);
      }
    }
  }

  lemma {:induction false} ContentsGrows(pages: seq<Page>, pages': seq<Page>, ls: seq<nat>)
    requires InHeap(pages, ls) && InHeap(pages', ls)
    requires forall k :: 0 <= k < |ls| ==> pages'[ls[k]].entries == pages[ls[k]].entries
    ensures Contents(pages', ls) == Contents(pages, ls)
  {
    if ls == [] {
    } else {
      ContentsGrows(pages, pages', ls[..|ls| - 1]);
    }
  }

  lemma TableTreeGrows(pages: seq<Page>, pages': seq<Page>, root: nat, n: nat, t: Tree)
    requires Extends(pages, pages') && ValidTableTree(pages, root, n, t)
    ensures ValidTableTree(pages', root, n, t)
  {
    var ls := Leaves(t);
    RepresentsGrows(pages, pages', t);
    ContentsGrows(pages, pages', ls);
    forall k | 0 <= k < |ls|
      ensures LinkedAt(pages', ls, k)
    {
      assert LinkedAt(pages, ls, k);
    }
  }

  lemma SetAddSize(a: set<int>, x: int)
    ensures |a + {x}| == |a| + (if x in a then 0 else 1)
  {
    if x in a {
      assert a + {x} == a;
    }
  }

  lemma NoDuplicatesSnoc(front: seq<int>, last: int)
    requires NoDuplicates(front) && last !in front
    ensures NoDuplicates(front + [last])
  {}

  lemma {:induction false} DistinctByCount(s: seq<nat>)
    requires |Elements(s)| == |s|
    ensures NoDuplicates(s)
  {
    if s == [] {
    } else {
      var front, last := s[..|s| - 1], s[|s| - 1];
      ElementsAtMost(front);
      SetAddSize(Elements(front), last);
      assert last !in front;
      assert s == front + [last];
      hide Elements, NoDuplicates;
      DistinctByCount(front);
      NoDuplicatesSnoc(front, last);
    }
  }

  lemma {:induction false} ElementsAtMost(s: seq<nat>)
    ensures |Elements(s)| <= |s|
  {
    if s == [] {
    } else {
      ElementsAtMost(s[..|s| - 1]);
    }
  }

  /** The pages numbered base and up to top. */
  ghost predicate Spans(s: seq<nat>, base: nat, top: nat) {
    base <= top && |s| == top - base && forall p :: p in s <==> base <= p < top
  }

  lemma SpansDistinct(s: seq<nat>, base: nat, top: nat)
    requires Spans(s, base, top)
    ensures NoDuplicates(s)
  {
    assert Elements(s) == Below(top) - Below(base);
    assert |Below(top)| == |Below(base)| + |Below(top) - Below(base)|;
    DistinctByCount(s);
  }

  // ---- leaves ----------------------------------------------------------

  ghost function Numbers(base: nat, count: nat): (s: seq<nat>)
    ensures |s| == count
  {
    seq(count, i => base + i)
  }

  /** Page p of a run of leaves base..top: full unless last, linked to its
      neighbours in the run. */
  ghost predicate PackedLeaf(page: Page, capacity: nat, base: nat, top: nat, p: nat) {
    page.kind == LEAF_PAGE && 0 < |page.entries| <= capacity && (p + 1 < top ==> |page.entries| == capacity) &&
    page.count == |page.entries| && page.children == [] && page.separators == [] &&
    page.previous == (if p == base then 0 else p - 1) && page.next == (if p + 1 == top then 0 else p + 1)
  }

  ghost predicate Packed(pages: seq<Page>, capacity: nat, base: nat) {
    base <= |pages| && forall p :: base <= p < |pages| ==> PackedLeaf(pages[p], capacity, base, |pages|, p)
  }

  function LeafPage(entries: seq<Entry>, previous: nat): Page {
    Page(LEAF_PAGE, |entries|, previous, 0, entries, [], [])
  }

  /** Appending a leaf: the last leaf is linked forward to it. */
  function AppendLeaf(pages: seq<Page>, base: nat, entries: seq<Entry>): seq<Page>
    requires 0 < base <= |pages|
  {
    if |pages| == base then pages + [LeafPage(entries, 0)]
    else
      var last := |pages| - 1;
      pages[last := pages[last].(next := |pages|)] + [LeafPage(entries, last)]
  }

  lemma NumbersSnoc(base: nat, count: nat)
    ensures Numbers(base, count + 1) == Numbers(base, count) + [base + count]
  {}

  lemma AppendLeafPacked(pages: seq<Page>, capacity: nat, base: nat, entries: seq<Entry>)
    requires 0 < base && Packed(pages, capacity, base) && 0 < |entries| <= capacity
    requires forall p :: base <= p < |pages| ==> |pages[p].entries| == capacity
    ensures Packed(AppendLeaf(pages, base, entries), capacity, base)
    ensures forall p :: 0 <= p < base ==> AppendLeaf(pages, base, entries)[p] == pages[p]
    ensures var pages', count := AppendLeaf(pages, base, entries), |pages| - base;
            InHeap(pages, Numbers(base, count)) && InHeap(pages', Numbers(base, count + 1)) &&
            Contents(pages', Numbers(base, count + 1)) == Contents(pages, Numbers(base, count)) + entries
  {
    var pages', count := AppendLeaf(pages, base, entries), |pages| - base;
    forall p | base <= p < |pages'|
      ensures PackedLeaf(pages'[p], capacity, base, |pages'|, p)
    {
      assert p < |pages| ==> PackedLeaf(pages[p], capacity, base, |pages|, p);
    }
    ContentsGrows(pages, pages', Numbers(base, count));
    NumbersSnoc(base, count);
    ContentsSnoc(pages', Numbers(base, count), base + count);
  }

  /** How far the packing of a table has come. */
  ghost predicate Packing(pages0: seq<Page>, pages: seq<Page>, table: seq<Entry>, capacity: nat, begin: nat,
                          levelPages: seq<nat>, levelKeys: seq<real>)
  {
    var base := |pages0|;
    begin <= |table| && Packed(pages, capacity, base) && Extends(pages0, pages) &&
    levelPages == Numbers(base, |pages| - base) && KeysMatch(pages, levelPages, levelKeys) &&
    Contents(pages, levelPages) == table[..begin] && PackedSize(pages, base, |table|, capacity, begin)
  }

  /** All leaves are full until the table runs out. */
  ghost predicate PackedSize(pages: seq<Page>, base: nat, size: nat, capacity: nat, begin: nat)
    requires base <= |pages|
  {
    var count := |pages| - base;
    if begin < size then
      begin == count * capacity && forall p :: base <= p < |pages| ==> |pages[p].entries| == capacity
    else
      count > 0 && (count - 1) * capacity < size <= count * capacity
  }

  lemma PackBegin(pages0: seq<Page>, table: seq<Entry>, capacity: nat)
    requires |pages0| > 0 && table != []
    ensures Packing(pages0, pages0, table, capacity, 0, [], [])
  {
    assert Numbers(|pages0|, 0) == [] && table[..0] == [];
  }

  function ChunkEnd(size: nat, capacity: nat, begin: nat): nat {
    if begin + capacity <= size then begin + capacity else size
  }

  lemma PackStepSize(pages: seq<Page>, base: nat, table: seq<Entry>, capacity: nat, begin: nat, entries: seq<Entry>)
    requires 0 < base <= |pages| && begin < |table| && capacity > 0
    requires PackedSize(pages, base, |table|, capacity, begin)
    requires entries == table[begin..ChunkEnd(|table|, capacity, begin)]
    ensures PackedSize(AppendLeaf(pages, base, entries), base, |table|, capacity, ChunkEnd(|table|, capacity, begin))
  {
    var count := |pages| - base;
    assert (count + 1) * capacity == count * capacity + capacity;
    assert count + 1 - 1 == count;
  }

  lemma AppendLeafEntries(pages: seq<Page>, base: nat, entries: seq<Entry>)
    requires 0 < base <= |pages|
    ensures var pages' := AppendLeaf(pages, base, entries);
            |pages'| == |pages| + 1 && pages'[|pages|].entries == entries &&
            forall p :: 0 <= p < |pages| ==> pages'[p].entries == pages[p].entries
  {}

  ghost predicate KeysMatch(pages: seq<Page>, levelPages: seq<nat>, levelKeys: seq<real>) {
    |levelKeys| == |levelPages| && InHeap(pages, levelPages) &&
    forall k :: 0 <= k < |levelPages| ==>
      pages[levelPages[k]].entries != [] && levelKeys[k] == pages[levelPages[k]].entries[0].value
  }

  lemma KeysStep(pages: seq<Page>, base: nat, levelPages: seq<nat>, levelKeys: seq<real>, entries: seq<Entry>)
    requires 0 < base <= |pages| && KeysMatch(pages, levelPages, levelKeys) && entries != []
    ensures KeysMatch(AppendLeaf(pages, base, entries), levelPages + [|pages|], levelKeys + [entries[0].value])
  {
    AppendLeafEntries(pages, base, entries);
    hide AppendLeaf;
    var pages' := AppendLeaf(pages, base, entries);
    var lp, lk := levelPages + [|pages|], levelKeys + [entries[0].value];
    forall k | 0 <= k < |lp|
      ensures pages'[lp[k]].entries != [] && lk[k] == pages'[lp[k]].entries[0].value
    {
      assert k < |levelPages| ==> pages'[lp[k]].entries == pages[levelPages[k]].entries;
    }
  }

  lemma NextChunk(table: seq<Entry>, capacity: nat, begin: nat)
    requires capacity > 0 && begin < |table|
    ensures begin < ChunkEnd(|table|, capacity, begin) <= |table|
    ensures var entries := table[begin..ChunkEnd(|table|, capacity, begin)];
            0 < |entries| <= capacity && table[..ChunkEnd(|table|, capacity, begin)] == table[..begin] + entries
  {}

  lemma AppendLeafExtends(pages0: seq<Page>, pages: seq<Page>, capacity: nat, entries: seq<Entry>)
    requires |pages0| > 0 && Extends(pages0, pages) && Packed(pages, capacity, |pages0|) && 0 < |entries| <= capacity
    requires forall p :: |pages0| <= p < |pages| ==> |pages[p].entries| == capacity
    ensures Extends(pages0, AppendLeaf(pages, |pages0|, entries))
  {
    AppendLeafPacked(pages, capacity, |pages0|, entries);
  }

  lemma PackStep(pages0: seq<Page>, pages: seq<Page>, table: seq<Entry>, capacity: nat, begin: nat,
                 levelPages: seq<nat>, levelKeys: seq<real>, entries: seq<Entry>)
    requires |pages0| > 0 && capacity > 0 && begin < |table|
    requires Packing(pages0, pages, table, capacity, begin, levelPages, levelKeys)
    requires entries == table[begin..ChunkEnd(|table|, capacity, begin)]
    ensures entries != [] && (levelPages != [] ==> levelPages[|levelPages| - 1] == |pages| - 1)
    ensures (levelPages == [] <==> |pages| == |pages0|) && |pages0| <= |pages|
    ensures Packing(pages0, AppendLeaf(pages, |pages0|, entries), table, capacity, ChunkEnd(|table|, capacity, begin),
                    levelPages + [|pages|], levelKeys + [entries[0].value])
  {
    var base, end := |pages0|, ChunkEnd(|table|, capacity, begin);
    NextChunk(table, capacity, begin);
    assert forall p :: base <= p < |pages| ==> |pages[p].entries| == capacity;
    NumbersSnoc(base, |pages| - base);
    AppendLeafEntries(pages, base, entries);
    assert levelPages != [] ==> levelPages[|levelPages| - 1] == |pages| - 1;
    hide Contents, PackedSize, Packed, AppendLeaf, KeysMatch, Extends, ChunkEnd, Numbers, InHeap;
    AppendLeafPacked(pages, capacity, base, entries);
    AppendLeafExtends(pages0, pages, capacity, entries);
    PackStepSize(pages, base, table, capacity, begin, entries);
    KeysStep(pages, base, levelPages, levelKeys, entries);
  }

  /** Packing one table: leaves of capacity entries, the last one maybe shorter. */
  method PackLeaves(pages0: seq<Page>, table: seq<Entry>, capacity: nat)
    returns (pages: seq<Page>, levelPages: seq<nat>, levelKeys: seq<real>)
    requires |pages0| > 0 && table != [] && capacity > 0
    ensures Packing(pages0, pages, table, capacity, |table|, levelPages, levelKeys)
  {
    pages, levelPages, levelKeys := pages0, [], [];
    var begin := 0;
    PackBegin(pages0, table, capacity);
    while begin < |table|
      invariant begin <= |table| && Packing(pages0, pages, table, capacity, begin, levelPages, levelKeys)
    {
      var end := ChunkEnd(|table|, capacity, begin);
      var entries := table[begin..end];
      PackStep(pages0, pages, table, capacity, begin, levelPages, levelKeys, entries);
      hide Packing;
      ghost var before := pages;
      var page := LeafPage(entries, 0);
      if levelPages != [] {
        var last := levelPages[|levelPages| - 1];
        pages := pages[last := pages[last].(next := |pages|)];
        page := page.(previous := last);
      }
      levelPages := levelPages + [|pages|];
      pages := pages + [page];
      assert pages == AppendLeaf(before, |pages0|, entries);
      levelKeys := levelKeys + [entries[0].value];
      begin := end;
    }
  }

  /** As many leaves as the page count formula says. */
  lemma PackedCount(pages: seq<Page>, base: nat, size: nat, capacity: nat)
    requires base <= |pages| && capacity > 0 && PackedSize(pages, base, size, capacity, size)
    ensures |pages| == base + CeilDiv(size, capacity)
  {
    CeilUnique(size, capacity, |pages| - base);
  }

  lemma CeilUnique(a: nat, b: nat, c: nat)
    requires b > 0 && c > 0 && (c - 1) * b < a <= c * b
    ensures CeilDiv(a, b) == c
  {
    var d := CeilDiv(a, b);
    CeilBounds(a, b);
    assert c < d ==> c * b <= (d - 1) * b by {
      if c < d {
        MulOrder(c, d - 1, b);
      }
    }
    assert d < c ==> d * b <= (c - 1) * b by {
      if d < c {
        MulOrder(d, c - 1, b);
      }
    }
    assert (d - 1) * b == d * b - b;
  }

  // ---- internal levels -------------------------------------------------

  /** A level of trees of height h with their pages and first keys. */
  ghost predicate LevelOk(pages: seq<Page>, ts: seq<Tree>, levelPages: seq<nat>, levelKeys: seq<real>, h: nat) {
    levelPages == Roots(ts) && |levelKeys| == |ts| &&
    forall i :: 0 <= i < |ts| ==> LevelTree(pages, ts[i], levelKeys[i], h)
  }

  ghost predicate LevelTree(pages: seq<Page>, t: Tree, key: real, h: nat) {
    Represents(pages, t) && Height(t) == h && FirstEntry(pages, t).value == key
  }

  lemma LevelGrows(pages: seq<Page>, pages': seq<Page>, ts: seq<Tree>, levelPages: seq<nat>, levelKeys: seq<real>,
                   h: nat)
    requires LevelOk(pages, ts, levelPages, levelKeys, h) && Extends(pages, pages')
    ensures LevelOk(pages', ts, levelPages, levelKeys, h)
  {
    forall i | 0 <= i < |ts|
      ensures LevelTree(pages', ts[i], levelKeys[i], h)
    {
      assert LevelTree(pages, ts[i], levelKeys[i], h);
      RepresentsGrows(pages, pages', ts[i]);
    }
  }

  /** The node over a run of a level. */
  function NodePage(children: seq<nat>, separators: seq<real>): Page {
    Page(INTERNAL_PAGE, |children|, 0, 0, [], children, separators)
  }

  lemma RootsSlice(ts: seq<Tree>, a: nat, b: nat)
    requires a <= b <= |ts|
    ensures Roots(ts)[a..b] == Roots(ts[a..b])
  {}

  /** Grouping children begin..end of a level into one node. */
  lemma NodeTree(pages: seq<Page>, ts: seq<Tree>, levelPages: seq<nat>, levelKeys: seq<real>, h: nat, begin: nat,
                 end: nat)
    requires LevelOk(pages, ts, levelPages, levelKeys, h) && begin + 2 <= end <= |ts| && |pages| > 0
    ensures |levelPages| == |ts| == |levelKeys|
    ensures var pages' := pages + [NodePage(levelPages[begin..end], levelKeys[begin + 1..end])];
            LevelTree(pages', Tree(|pages|, ts[begin..end]), levelKeys[begin], h + 1)
  {
    var pages' := pages + [NodePage(levelPages[begin..end], levelKeys[begin + 1..end])];
    var kids := ts[begin..end];
    RootsSlice(ts, begin, end);
    LevelGrows(pages, pages', ts, levelPages, levelKeys, h);
    forall i | 0 <= i < |kids|
      ensures LevelTree(pages', kids[i], levelKeys[begin + i], h)
    {
      assert LevelTree(pages', ts[begin + i], levelKeys[begin + i], h);
    }
    InternalEnds(pages', |pages|, kids);
    assert LevelTree(pages', kids[0], levelKeys[begin + 0], h);
  }

  /** The trees in hand hold exactly the pages of this table, and its leaves in order. */
  ghost predicate HoldsAll(pages: seq<Page>, base: nat, ts: seq<Tree>, ls: seq<nat>) {
    Spans(ForestPreorder(ts), base, |pages|) && ForestLeaves(ts) == ls
  }

  lemma NodeHoldsAll(pages: seq<Page>, page: Page, base: nat, next: seq<Tree>, kids: seq<Tree>, rest: seq<Tree>,
                     ls: seq<nat>)
    requires HoldsAll(pages, base, next + (kids + rest), ls) && kids != []
    ensures HoldsAll(pages + [page], base, (next + [Tree(|pages|, kids)]) + rest, ls)
  {
    var node := Tree(|pages|, kids);
    ForestPreorderConcat(next, kids + rest);
    ForestPreorderConcat(kids, rest);
    ForestPreorderSnoc(next, node);
    ForestPreorderConcat(next + [node], rest);
    ForestLeavesConcat(next, kids + rest);
    ForestLeavesConcat(kids, rest);
    ForestLeavesSnoc(next, node);
    ForestLeavesConcat(next + [node], rest);
    Associative(ForestLeaves(next), ForestLeaves(kids), ForestLeaves(rest));
    SpansInsert(ForestPreorder(next), ForestPreorder(kids), ForestPreorder(rest), base, |pages|);
  }

  lemma SpansInsert(a: seq<nat>, b: seq<nat>, c: seq<nat>, base: nat, top: nat)
    requires Spans(a + (b + c), base, top)
    ensures Spans((a + ([top] + b)) + c, base, top + 1)
  {
    var s, s' := a + (b + c), (a + ([top] + b)) + c;
    forall p
      ensures p in s' <==> p in s || p == top
    {
      assert p in s' <==> p in a || p == top || p in b || p in c;
    }
  }

  /** Where group number group begins: the first extra groups are one wider. */
  ghost function BeginOf(group: nat, base: nat, extra: nat): nat {
    group * base + if group < extra then group else extra
  }

  lemma GroupBegin(size: nat, groups: nat, base: nat, extra: nat, group: nat)
    requires size == groups * base + extra && extra < groups && group < groups
    ensures BeginOf(group, base, extra) + base + (if group < extra then 1 else 0) == BeginOf(group + 1, base, extra)
    ensures BeginOf(group + 1, base, extra) <= size
  {
    assert (group + 1) * base == group * base + base;
    MulOrder(group + 1, groups, base);
  }

  /** While a level is being grouped: the nodes made and the children left. */
  ghost predicate Stacking(pages0: seq<Page>, pages: seq<Page>, base: nat, ts: seq<Tree>, levelPages: seq<nat>,
                           levelKeys: seq<real>, h: nat, next: seq<Tree>, nextPages: seq<nat>, nextKeys: seq<real>,
                           begin: nat, ls: seq<nat>, capacity: nat)
  {
    begin <= |ts| && |pages| > 0 && Extends(pages0, pages) && LevelOk(pages, ts, levelPages, levelKeys, h) &&
    LevelOk(pages, next, nextPages, nextKeys, h + 1) && HoldsAll(pages, base, next + ts[begin..], ls) &&
    |pages| == |pages0| + |next| && NodeShapes(pages, |pages0|, capacity)
  }

  /** Pages from number from on are internal nodes within the capacity. */
  ghost predicate NodeShapes(pages: seq<Page>, from: nat, capacity: nat) {
    forall p :: from <= p < |pages| ==>
      pages[p].kind == INTERNAL_PAGE && pages[p].previous == 0 && pages[p].next == 0 &&
      2 <= pages[p].count == |pages[p].children| <= capacity && |pages[p].separators| == pages[p].count - 1 &&
      pages[p].entries == []
  }

  lemma LevelSnoc(pages: seq<Page>, ts: seq<Tree>, levelPages: seq<nat>, levelKeys: seq<real>, h: nat, t: Tree,
                  key: real)
    requires LevelOk(pages, ts, levelPages, levelKeys, h) && LevelTree(pages, t, key, h)
    ensures LevelOk(pages, ts + [t], levelPages + [t.page], levelKeys + [key], h)
  {
    assert Roots(ts + [t]) == Roots(ts) + [t.page];
    forall i | 0 <= i < |ts + [t]|
      ensures LevelTree(pages, (ts + [t])[i], (levelKeys + [key])[i], h)
    {
      assert i < |ts| ==> LevelTree(pages, ts[i], levelKeys[i], h);
    }
  }

  lemma StackStep(pages0: seq<Page>, pages: seq<Page>, base: nat, ts: seq<Tree>, levelPages: seq<nat>,
                  levelKeys: seq<real>, h: nat, next: seq<Tree>, nextPages: seq<nat>, nextKeys: seq<real>,
                  begin: nat, end: nat, ls: seq<nat>, capacity: nat)
    requires Stacking(pages0, pages, base, ts, levelPages, levelKeys, h, next, nextPages, nextKeys, begin, ls, capacity)
    requires begin + 2 <= end <= |ts| && end - begin <= capacity
    ensures |levelPages| == |ts| == |levelKeys|
    ensures Stacking(pages0, pages + [NodePage(levelPages[begin..end], levelKeys[begin + 1..end])], base, ts,
                     levelPages,
                     levelKeys, h, next + [Tree(|pages|, ts[begin..end])], nextPages + [|pages|],
                     nextKeys + [levelKeys[begin]], end, ls, capacity)
  {
    NodeTree(pages, ts, levelPages, levelKeys, h, begin, end);
    var page := NodePage(levelPages[begin..end], levelKeys[begin + 1..end]);
    var node := Tree(|pages|, ts[begin..end]);
    hide LevelTree, LevelOk, HoldsAll, NodeShapes;
    LevelGrows(pages, pages + [page], ts, levelPages, levelKeys, h);
    LevelGrows(pages, pages + [page], next, nextPages, nextKeys, h + 1);
    LevelSnoc(pages + [page], next, nextPages, nextKeys, h + 1, node, levelKeys[begin]);
    assert ts[begin..] == ts[begin..end] + ts[end..];
    NodeHoldsAll(pages, page, base, next, ts[begin..end], ts[end..], ls);
    ShapesGrow(pages, |pages0|, capacity, page);
  }

  lemma ShapesGrow(pages: seq<Page>, from: nat, capacity: nat, page: Page)
    requires NodeShapes(pages, from, capacity) && page == NodePage(page.children, page.separators)
    requires 2 <= |page.children| <= capacity && |page.separators| == |page.children| - 1
    ensures NodeShapes(pages + [page], from, capacity)
  {}

  // ---- one table, then all ---------------------------------------------

  lemma StackBegin(pages: seq<Page>, base: nat, ts: seq<Tree>, levelPages: seq<nat>, levelKeys: seq<real>, h: nat,
                   ls: seq<nat>, capacity: nat)
    requires |pages| > 0 && LevelOk(pages, ts, levelPages, levelKeys, h) && HoldsAll(pages, base, ts, ls)
    ensures Stacking(pages, pages, base, ts, levelPages, levelKeys, h, [], [], [], 0, ls, capacity)
    ensures |ts| == |levelPages| == |levelKeys|
  {
    assert [] + ts[0..] == ts && Roots([]) == [];
  }

  /** A way to split size children: none unary, none over the capacity. */
  ghost predicate GroupPlan(size: nat, groups: nat, base: nat, extra: nat, capacity: nat) {
    size == groups * base + extra && extra < groups && base >= 2 && base + (if extra > 0 then 1 else 0) <= capacity
  }

  lemma PlanStep(size: nat, groups: nat, base: nat, extra: nat, capacity: nat, group: nat)
    requires GroupPlan(size, groups, base, extra, capacity) && group < groups
    ensures var width := base + (if group < extra then 1 else 0);
            2 <= width <= capacity && BeginOf(group, base, extra) + width == BeginOf(group + 1, base, extra) <= size
  {
    GroupBegin(size, groups, base, extra, group);
  }

  lemma GroupEnds(size: nat, groups: nat, base: nat, extra: nat, capacity: nat)
    requires GroupPlan(size, groups, base, extra, capacity)
    ensures BeginOf(0, base, extra) == 0 && BeginOf(groups, base, extra) == size
  {}

  /** One group: a node over children begin..end. */
  method AddGroup(pages1: seq<Page>, levelPages: seq<nat>, levelKeys: seq<real>, nextPages1: seq<nat>,
                  nextKeys1: seq<real>, begin: nat, end: nat, ghost capacity: nat, ghost pages0: seq<Page>,
                  ghost base: nat, ghost ts: seq<Tree>, ghost h: nat, ghost ls: seq<nat>, ghost next1: seq<Tree>)
    returns (pages: seq<Page>, nextPages: seq<nat>, nextKeys: seq<real>, ghost next: seq<Tree>)
    requires Stacking(pages0, pages1, base, ts, levelPages, levelKeys, h, next1, nextPages1, nextKeys1, begin, ls,
                      capacity)
    requires |ts| == |levelPages| == |levelKeys| && begin + 2 <= end <= |ts| && end - begin <= capacity
    ensures Stacking(pages0, pages, base, ts, levelPages, levelKeys, h, next, nextPages, nextKeys, end, ls, capacity)
    ensures |nextPages| == |nextPages1| + 1
  {
    hide Stacking;
    StackStep(pages0, pages1, base, ts, levelPages, levelKeys, h, next1, nextPages1, nextKeys1, begin, end, ls,
              capacity);
    next := next1 + [Tree(|pages1|, ts[begin..end])];
    nextPages := nextPages1 + [|pages1|];
    nextKeys := nextKeys1 + [levelKeys[begin]];
    pages := pages1 + [NodePage(levelPages[begin..end], levelKeys[begin + 1..end])];
  }

  /** The loop over groups. */
  method StackGroups(pages0: seq<Page>, levelPages: seq<nat>, levelKeys: seq<real>, groupCount: nat, baseGroupSize: nat,
                     extraGroups: nat, ghost capacity: nat,
                     ghost base: nat, ghost ts: seq<Tree>, ghost h: nat, ghost ls: seq<nat>)
    returns (pages: seq<Page>, nextPages: seq<nat>, nextKeys: seq<real>, ghost next: seq<Tree>)
    requires GroupPlan(|levelPages|, groupCount, baseGroupSize, extraGroups, capacity) && |pages0| > 0
    requires LevelOk(pages0, ts, levelPages, levelKeys, h) && HoldsAll(pages0, base, ts, ls)
    ensures Stacking(pages0, pages, base, ts, levelPages, levelKeys, h, next, nextPages, nextKeys,
                     BeginOf(groupCount, baseGroupSize, extraGroups), ls, capacity)
    ensures |nextPages| == groupCount
  {
    hide GroupPlan, BeginOf, Stacking, LevelOk, HoldsAll;
    pages, nextPages, nextKeys, next := pages0, [], [], [];
    var begin, group := 0, 0;
    StackBegin(pages0, base, ts, levelPages, levelKeys, h, ls, capacity);
    GroupEnds(|levelPages|, groupCount, baseGroupSize, extraGroups, capacity);
    while group < groupCount
      invariant group <= groupCount && |nextPages| == group && |ts| == |levelPages| == |levelKeys|
      invariant begin == BeginOf(group, baseGroupSize, extraGroups)
      invariant Stacking(pages0, pages, base, ts, levelPages, levelKeys, h, next, nextPages, nextKeys, begin, ls,
                         capacity)
    {
      hide GroupPlan, BeginOf, Stacking, LevelOk, HoldsAll;
      PlanStep(|levelPages|, groupCount, baseGroupSize, extraGroups, capacity, group);
      var groupSize := baseGroupSize + (if group < extraGroups then 1 else 0);
      var end := begin + groupSize;
      pages, nextPages, nextKeys, next :=
        AddGroup(pages, levelPages, levelKeys, nextPages, nextKeys, begin, end, capacity, pages0, base, ts, h, ls,
                 next);
      begin := end;
      group := group + 1;
    }
  }

  /** Grouping one whole level into the next. The original's guard against a unary
      node never fires for a capacity of three or more. */
  method StackLevel(pages0: seq<Page>, levelPages: seq<nat>, levelKeys: seq<real>, capacity: nat,
                    ghost base: nat, ghost ts: seq<Tree>, ghost h: nat, ghost ls: seq<nat>)
    returns (pages: seq<Page>, nextPages: seq<nat>, nextKeys: seq<real>, ghost next: seq<Tree>)
    requires capacity >= 3 && |levelPages| >= 2 && |pages0| > 0
    requires LevelOk(pages0, ts, levelPages, levelKeys, h) && HoldsAll(pages0, base, ts, ls)
    ensures Stacking(pages0, pages, base, ts, levelPages, levelKeys, h, next, nextPages, nextKeys, |ts|, ls, capacity)
    ensures |nextPages| == CeilDiv(|levelPages|, capacity) < |levelPages| && |nextPages| > 0
  {
    Grouping(|levelPages|, capacity);
    var groupCount := CeilDiv(|levelPages|, capacity);
    var baseGroupSize := |levelPages| / groupCount;
    var extraGroups := |levelPages| % groupCount;
    assert baseGroupSize >= 2;
    assert GroupPlan(|levelPages|, groupCount, baseGroupSize, extraGroups, capacity);
    GroupEnds(|levelPages|, groupCount, baseGroupSize, extraGroups, capacity);
    assert |ts| == |levelPages|;
    hide Stacking, GroupPlan, BeginOf, LevelOk, HoldsAll;
    pages, nextPages, nextKeys, next :=
      StackGroups(pages0, levelPages, levelKeys, groupCount, baseGroupSize, extraGroups, capacity, base, ts, h, ls);
  }

  /** The levels above the leaves are in place and one level is left to group. */
  ghost predicate Climbing(pages0: seq<Page>, pages: seq<Page>, base: nat, ts: seq<Tree>, levelPages: seq<nat>,
                           levelKeys: seq<real>, h: nat, ls: seq<nat>, capacity: nat)
  {
    |pages| > 0 && Extends(pages0, pages) && LevelOk(pages, ts, levelPages, levelKeys, h) &&
    HoldsAll(pages, base, ts, ls) &&
    NodeShapes(pages, |pages0|, capacity)
  }

  lemma ClimbStep(pages0: seq<Page>, pages: seq<Page>, pages': seq<Page>, base: nat, ts: seq<Tree>,
                  levelPages: seq<nat>, levelKeys: seq<real>, h: nat, next: seq<Tree>, nextPages: seq<nat>,
                  nextKeys: seq<real>, ls: seq<nat>, capacity: nat)
    requires Climbing(pages0, pages, base, ts, levelPages, levelKeys, h, ls, capacity)
    requires Stacking(pages, pages', base, ts, levelPages, levelKeys, h, next, nextPages, nextKeys, |ts|, ls, capacity)
    ensures Climbing(pages0, pages', base, next, nextPages, nextKeys, h + 1, ls, capacity)
    ensures |pages'| == |pages| + |next| && |next| == |nextPages|
  {
    assert next + ts[|ts|..] == next;
    hide HoldsAll, LevelTree;
  }

  /** From a packed level of leaves to a single root. */
  method BuildLevels(pages0: seq<Page>, levelPages0: seq<nat>, levelKeys0: seq<real>, capacity: nat,
                     ghost base: nat, ghost leaves: seq<Tree>, ghost ls: seq<nat>)
    returns (pages: seq<Page>, root: nat, ghost tree: Tree)
    requires capacity >= 3 && |levelPages0| > 0
    requires Climbing(pages0, pages0, base, leaves, levelPages0, levelKeys0, 0, ls, capacity)
    ensures Extends(pages0, pages) && NodeShapes(pages, |pages0|, capacity) && |pages| > 0
    ensures Represents(pages, tree) && tree.page == root && HoldsAll(pages, base, [tree], ls)
    ensures |pages| - |pages0| + |levelPages0| == LevelPages(|levelPages0|, capacity)
  {
    pages := pages0;
    var levelPages, levelKeys := levelPages0, levelKeys0;
    ghost var ts, h := leaves, 0;
    while |levelPages| > 1
      invariant |levelPages| > 0 && |ts| == |levelPages|
      invariant Climbing(pages0, pages, base, ts, levelPages, levelKeys, h, ls, capacity)
      invariant |pages| - |levelPages| + LevelPages(|levelPages|, capacity)
             == |pages0| - |levelPages0| + LevelPages(|levelPages0|, capacity)
      decreases |levelPages|
    {
      ghost var before, next := pages, [];
      var nextPages, nextKeys;
      pages, nextPages, nextKeys, next := StackLevel(pages, levelPages, levelKeys, capacity, base, ts, h, ls);
      hide HoldsAll, LevelOk, NodeShapes;
      ClimbStep(pages0, before, pages, base, ts, levelPages, levelKeys, h, next, nextPages, nextKeys, ls, capacity);
      ts, h := next, h + 1;
      levelPages, levelKeys := nextPages, nextKeys;
    }
    root, tree := levelPages[0], ts[0];
    assert LevelTree(pages, ts[0], levelKeys[0], h);
    assert ts == [tree];
  }

  // ---- the leaf level as trees -----------------------------------------

  ghost function LeafTrees(base: nat, count: nat): (ts: seq<Tree>)
    ensures |ts| == count
  {
    seq(count, (i: nat) => Tree(base + i, []))
  }

  lemma {:induction false} LeafForest(base: nat, count: nat)
    ensures ForestPreorder(LeafTrees(base, count)) == Numbers(base, count)
    ensures ForestLeaves(LeafTrees(base, count)) == Numbers(base, count)
  {
    if count == 0 {
    } else {
      LeafForest(base, count - 1);
      NumbersSnoc(base, count - 1);
      var last := Tree(base + (count - 1), []);
      assert LeafTrees(base, count) == LeafTrees(base, count - 1) + [last];
      ForestPreorderSnoc(LeafTrees(base, count - 1), last);
      ForestLeavesSnoc(LeafTrees(base, count - 1), last);
    }
  }

  lemma NumbersSpan(base: nat, count: nat)
    ensures Spans(Numbers(base, count), base, base + count)
  {
    var s := Numbers(base, count);
    forall p | base <= p < base + count
      ensures p in s
    {
      assert s[p - base] == p;
    }
  }

  /** Leaves before the last of a chain are full. */
  ghost predicate FullLeaves(pages: seq<Page>, ls: seq<nat>, capacity: nat)
    requires InHeap(pages, ls)
  {
    forall k :: 0 <= k < |ls| - 1 ==> |pages[ls[k]].entries| == capacity
  }

  lemma PackedChain(pages: seq<Page>, capacity: nat, base: nat)
    requires base > 0 && Packed(pages, capacity, base)
    ensures var ls := Numbers(base, |pages| - base);
            LeafPages(pages, ls) && Linked(pages, ls) && FullLeaves(pages, ls, capacity)
  {
    var ls := Numbers(base, |pages| - base);
    assert forall k :: 0 <= k < |ls| ==>
             ls[k] == base + k && PackedLeaf(pages[base + k], capacity, base, |pages|, base + k);
    forall k | 0 <= k < |ls|
      ensures LinkedAt(pages, ls, k)
    {
      assert ls[k] == base + k;
      assert PackedLeaf(pages[base + k], capacity, base, |pages|, base + k);
    }
  }

  lemma LeafLevel(pages: seq<Page>, capacity: nat, base: nat, levelPages: seq<nat>, levelKeys: seq<real>)
    requires base > 0 && Packed(pages, capacity, base) && KeysMatch(pages, levelPages, levelKeys)
    requires levelPages == Numbers(base, |pages| - base)
    ensures LevelOk(pages, LeafTrees(base, |pages| - base), levelPages, levelKeys, 0)
    ensures HoldsAll(pages, base, LeafTrees(base, |pages| - base), levelPages)
  {
    var count := |pages| - base;
    var ts := LeafTrees(base, count);
    LeafForest(base, count);
    NumbersSpan(base, count);
    assert Roots(ts) == levelPages;
    forall i | 0 <= i < |ts|
      ensures LevelTree(pages, ts[i], levelKeys[i], 0)
    {
      assert levelPages[i] == base + i;
      assert PackedLeaf(pages[base + i], capacity, base, |pages|, base + i);
    }
  }

  // ---- one table -------------------------------------------------------

  /** What building one table adds to the heap. */
  ghost predicate TableBuilt(pages0: seq<Page>, pages: seq<Page>, pageSize: nat, table: seq<Entry>, root: nat,
                             tree: Tree)
    requires AllowedPageSize(pageSize)
  {
    Extends(pages0, pages) && ValidTableTree(pages, root, |table|, tree) &&
    Contents(pages, Leaves(tree)) == table && FullLeaves(pages, Leaves(tree), LeafCapacity(pageSize)) &&
    Spans(Preorder(tree), |pages0|, |pages|) &&
    forall p :: |pages0| <= p < |pages| ==> PageShape(pages[p], pageSize) && Canonical(pages[p])
  }

  lemma FinishLeaves(packed: seq<Page>, pages: seq<Page>, capacity: nat, base: nat)
    requires base > 0 && Packed(packed, capacity, base) && Extends(packed, pages)
    ensures var ls := Numbers(base, |packed| - base);
            LeafPages(pages, ls) && Linked(pages, ls) && FullLeaves(pages, ls, capacity) && InHeap(packed, ls) &&
            Contents(pages, ls) == Contents(packed, ls)
  {
    var ls := Numbers(base, |packed| - base);
    PackedChain(packed, capacity, base);
    ContentsGrows(packed, pages, ls);
    hide Contents, Packed, Numbers;
    forall k | 0 <= k < |ls|
      ensures LinkedAt(pages, ls, k)
    {
      assert LinkedAt(packed, ls, k);
    }
  }

  lemma FinishShapes(packed: seq<Page>, pages: seq<Page>, pageSize: nat, base: nat)
    requires AllowedPageSize(pageSize) && Packed(packed, LeafCapacity(pageSize), base) && Extends(packed, pages)
    requires NodeShapes(pages, |packed|, InternalCapacity(pageSize))
    ensures forall p :: base <= p < |pages| ==> PageShape(pages[p], pageSize) && Canonical(pages[p])
  {
    forall p | base <= p < |pages|
      ensures PageShape(pages[p], pageSize) && Canonical(pages[p])
    {
      assert p < |packed| ==> PackedLeaf(packed[p], LeafCapacity(pageSize), base, |packed|, p);
    }
  }

  lemma FinishTable(pages0: seq<Page>, packed: seq<Page>, pages: seq<Page>, pageSize: nat, table: seq<Entry>,
                    root: nat, tree: Tree)
    requires AllowedPageSize(pageSize) && |pages0| > 0 && ValidTable(table, |table|)
    requires Packed(packed, LeafCapacity(pageSize), |pages0|) && Extends(pages0, packed)
    requires var ls := Numbers(|pages0|, |packed| - |pages0|); InHeap(packed, ls) && Contents(packed, ls) == table
    requires Extends(packed, pages) && NodeShapes(pages, |packed|, InternalCapacity(pageSize))
    requires Represents(pages, tree) && tree.page == root
    requires HoldsAll(pages, |pages0|, [tree], Numbers(|pages0|, |packed| - |pages0|))
    ensures TableBuilt(pages0, pages, pageSize, table, root, tree)
  {
    ForestOne(tree);
    FinishLeaves(packed, pages, LeafCapacity(pageSize), |pages0|);
    FinishShapes(packed, pages, pageSize, |pages0|);
    assert Extends(pages0, pages);
    hide Contents, Packed, Numbers, NodeShapes, Represents, Spans, LeafPages, FullLeaves, PageShape, ValidTable, Linked;
  }

  method BuildTable(pages0: seq<Page>, pageSize: nat, table: seq<Entry>)
    returns (pages: seq<Page>, root: nat, ghost tree: Tree)
    requires AllowedPageSize(pageSize) && |pages0| > 0 && table != [] && ValidTable(table, |table|)
    ensures TableBuilt(pages0, pages, pageSize, table, root, tree)
    ensures |pages| == |pages0| + LevelPages(CeilDiv(|table|, LeafCapacity(pageSize)), InternalCapacity(pageSize))
  {
    ghost var base := |pages0|;
    var packed, levelPages, levelKeys := PackLeaves(pages0, table, LeafCapacity(pageSize));
    assert table[..|table|] == table;
    PackedCount(packed, base, |table|, LeafCapacity(pageSize));
    CeilBounds(|table|, LeafCapacity(pageSize));
    LeafLevel(packed, LeafCapacity(pageSize), base, levelPages, levelKeys);
    hide Packed, LevelOk, HoldsAll, Represents, KeysMatch, PackedSize, NodeShapes, ValidTable;
    BeginClimb(packed, base, LeafTrees(base, |packed| - base), levelPages, levelKeys, InternalCapacity(pageSize));
    pages, root, tree := BuildLevels(packed, levelPages, levelKeys, InternalCapacity(pageSize), base,
                                     LeafTrees(base, |packed| - base), levelPages);
    FinishTable(pages0, packed, pages, pageSize, table, root, tree);
  }

  lemma BeginClimb(pages: seq<Page>, base: nat, ts: seq<Tree>, levelPages: seq<nat>, levelKeys: seq<real>,
                   capacity: nat)
    requires |pages| > 0 && LevelOk(pages, ts, levelPages, levelKeys, 0) && HoldsAll(pages, base, ts, levelPages)
    ensures Climbing(pages, pages, base, ts, levelPages, levelKeys, 0, levelPages, capacity)
  {}

  // ---- all tables ------------------------------------------------------

  /** The heap of the tables built so far. */
  ghost predicate HeapBuilt(pages: seq<Page>, pageSize: nat, tables: seq<seq<Entry>>, n: nat, roots: seq<nat>,
                            trees: seq<Tree>)
    requires AllowedPageSize(pageSize)
  {
    ValidHeap(pages, pageSize, roots, n, trees) && |roots| == |tables| && |pages| > 0 &&
    Spans(ForestPreorder(trees), 1, |pages|) && (forall p :: 0 < p < |pages| ==> Canonical(pages[p])) &&
    forall u :: 0 <= u < |tables| ==>
      InHeap(pages, Leaves(trees[u])) && Contents(pages, Leaves(trees[u])) == tables[u] &&
      FullLeaves(pages, Leaves(trees[u]), LeafCapacity(pageSize))
  }

  lemma SpansJoin(a: seq<nat>, b: seq<nat>, base: nat, mid: nat, top: nat)
    requires Spans(a, base, mid) && Spans(b, mid, top)
    ensures Spans(a + b, base, top)
  {
    assert forall p :: p in a + b <==> p in a || p in b;
  }

  /** A table already in the heap, with its leaves spelling table. */
  ghost predicate TableStored(pages: seq<Page>, pageSize: nat, table: seq<Entry>, n: nat, root: nat, tree: Tree)
    requires AllowedPageSize(pageSize)
  {
    ValidTableTree(pages, root, n, tree) && Contents(pages, Leaves(tree)) == table &&
    FullLeaves(pages, Leaves(tree), LeafCapacity(pageSize))
  }

  lemma StoredGrows(pages: seq<Page>, pages': seq<Page>, pageSize: nat, table: seq<Entry>, n: nat, root: nat,
                    tree: Tree)
    requires AllowedPageSize(pageSize) && Extends(pages, pages') && TableStored(pages, pageSize, table, n, root, tree)
    ensures TableStored(pages', pageSize, table, n, root, tree)
  {
    TableTreeGrows(pages, pages', root, n, tree);
    ContentsGrows(pages, pages', Leaves(tree));
  }

  lemma HeapSnoc(pages: seq<Page>, pages': seq<Page>, pageSize: nat, tables: seq<seq<Entry>>, n: nat, roots: seq<nat>,
                 trees: seq<Tree>, table: seq<Entry>, root: nat, tree: Tree)
    requires AllowedPageSize(pageSize) && HeapBuilt(pages, pageSize, tables, n, roots, trees) && |table| == n
    requires TableBuilt(pages, pages', pageSize, table, root, tree)
    ensures HeapBuilt(pages', pageSize, tables + [table], n, roots + [root], trees + [tree])
  {
    var roots', trees', tables' := roots + [root], trees + [tree], tables + [table];
    assert Extends(pages, pages') && TableStored(pages', pageSize, table, n, root, tree);
    ForestPreorderSnoc(trees, tree);
    SpansJoin(ForestPreorder(trees), Preorder(tree), 1, |pages|, |pages'|);
    SpansDistinct(ForestPreorder(trees'), 1, |pages'|);
    assert forall p :: 0 < p < |pages'| ==> PageShape(pages'[p], pageSize) && Canonical(pages'[p]);
    hide ValidTableTree, Contents, FullLeaves, PageShape, Canonical, Preorder, ForestPreorder, Extends, NoDuplicates,
         TableBuilt;
    forall u | 0 <= u < |roots'|
      ensures TableStored(pages', pageSize, tables'[u], n, roots'[u], trees'[u])
    {
      if u < |roots| {
        assert TableStored(pages, pageSize, tables[u], n, roots[u], trees[u]);
        StoredGrows(pages, pages', pageSize, tables[u], n, roots[u], trees[u]);
      }
    }
  }

  lemma OneMorePage(u: nat, size: nat)
    ensures (u + 1) * size == u * size + size
  {}

  /** The heap size announced before any page is made. */
  ghost function HeapSize(tableCount: nat, n: nat, pageSize: nat): nat
    requires AllowedPageSize(pageSize)
  {
    1 + tableCount * LevelPages(CeilDiv(n, LeafCapacity(pageSize)), InternalCapacity(pageSize))
  }

  /** Build: the page heap of all tables, starting from the sentinel page. It is a
      valid index, as large as announced, and its leaves spell the given tables. */
  method Build(tables: seq<seq<Entry>>, n: nat, pageSize: nat)
    returns (pages: seq<Page>, roots: seq<nat>, ghost trees: seq<Tree>)
    requires AllowedPageSize(pageSize) && n > 0 && forall u :: 0 <= u < |tables| ==> ValidTable(tables[u], n)
    ensures HeapBuilt(pages, pageSize, tables, n, roots, trees)
    ensures |pages| == HeapSize(|tables|, n, pageSize)
  {
    var pagesPerTable := PagesPerTable(n, LeafCapacity(pageSize), InternalCapacity(pageSize));
    pages, roots, trees := [Page(0, 0, 0, 0, [], [], [])], [], [];
    var u := 0;
    assert HeapBuilt(pages, pageSize, tables[..0], n, roots, trees);
    assert forall t :: 0 <= t < |tables| ==> |tables[t]| == n;
    assert |pages| == HeapSize(0, n, pageSize);
    while u < |tables|
      invariant u <= |tables|
      invariant HeapBuilt(pages, pageSize, tables[..u], n, roots, trees)
      invariant |pages| == HeapSize(u, n, pageSize)
    {
      ghost var before := pages;
      assert |pages| > 0;
      hide HeapBuilt, TableBuilt, LevelPages, ValidTable, CeilDiv, LeafCapacity, InternalCapacity;
      var root;
      ghost var tree;
      pages, root, tree := BuildTable(pages, pageSize, tables[u]);
      HeapSnoc(before, pages, pageSize, tables[..u], n, roots, trees, tables[u], root, tree);
      assert tables[..u] + [tables[u]] == tables[..u + 1];
      OneMorePage(u, LevelPages(CeilDiv(n, LeafCapacity(pageSize)), InternalCapacity(pageSize)));
      roots := roots + [root];
      trees := trees + [tree];
      u := u + 1;
    }
    assert tables[..|tables|] == tables;
  }
}
