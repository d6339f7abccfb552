/** BPlusTreeIndex::load_header on an arbitrary heap of pages: it accepts exactly
    the heaps that hold a valid index. */
module Validator {
  import opened Tables
  import opened PageTree
  import opened TreeOrder
  import opened DfsSpec
  import opened DfsState
  import opened DfsSteps
  import opened DfsTrack

  // ---- reading one page ------------------------------------------------

  lemma OrderedExtend(t: seq<Entry>, e: Entry)
    requires Ordered(t) && (t != [] ==> KeyLess(t[|t| - 1], e))
    ensures Ordered(t + [e])
  {
    OrderedConcat(t, [e]);
  }

  /** The marking of a leaf's entries so far. */
  ghost predicate Marked(done: seq<Entry>, mark: nat, marks0: seq<nat>, marks: seq<nat>) {
    |marks| == |marks0| &&
    forall id :: 0 <= id < |marks| ==> marks[id] == if Has(done, id) then mark else marks0[id]
  }

  lemma MarkOne(done: seq<Entry>, e: Entry, mark: nat, marks0: seq<nat>, marks: seq<nat>)
    requires Marked(done, mark, marks0, marks) && e.id < |marks|
    ensures Marked(done + [e], mark, marks0, marks[e.id := mark])
  {
    var more := done + [e];
    forall id | 0 <= id < |marks|
      ensures Has(more, id) <==> Has(done, id) || id == e.id
    {
      if Has(done, id) {
        var i :| 0 <= i < |done| && done[i].id == id;
        assert more[i].id == id;
      }
      assert more[|done|].id == e.id;
    }
  }

  /** What is asked of the entries of one leaf. */
  ghost predicate EntriesAccepted(entries: seq<Entry>, n: nat, mark: nat, marks0: seq<nat>)
    requires |marks0| == n
  {
    Ordered(entries) && DistinctIds(entries) && IdsBelow(entries, n) &&
    forall i :: 0 <= i < |entries| ==> marks0[entries[i].id] != mark
  }

  lemma AcceptOne(entries: seq<Entry>, k: nat, n: nat, mark: nat, marks0: seq<nat>, marks: seq<nat>)
    requires |marks0| == n && k < |entries| && EntriesAccepted(entries[..k], n, mark, marks0)
    requires Marked(entries[..k], mark, marks0, marks)
    ensures EntriesAccepted(entries[..k + 1], n, mark, marks0) <==>
              (k > 0 ==> KeyLess(entries[k - 1], entries[k])) && entries[k].id < n && marks[entries[k].id] != mark
  {
    var front, e := entries[..k], entries[k];
    assert entries[..k + 1] == front + [e];
    if (k > 0 ==> KeyLess(entries[k - 1], e)) && e.id < n && marks[e.id] != mark {
      OrderedExtend(front, e);
      assert !Has(front, e.id);
    }
    if EntriesAccepted(front + [e], n, mark, marks0) {
      OrderedParts(front, [e]);
      assert (front + [e])[k].id < n;
      assert forall i :: 0 <= i < k ==> (front + [e])[i].id == front[i].id;
      assert !Has(front, e.id);
    }
  }

  lemma AcceptPrefix(entries: seq<Entry>, k: nat, n: nat, mark: nat, marks0: seq<nat>)
    requires |marks0| == n && k <= |entries| && EntriesAccepted(entries, n, mark, marks0)
    ensures EntriesAccepted(entries[..k], n, mark, marks0)
  {
    assert entries == entries[..k] + entries[k..];
    OrderedParts(entries[..k], entries[k..]);
  }

  /** The entry loop of a leaf: range, order and uniqueness, marking as it goes. */
  method VisitEntries(entries: seq<Entry>, n: nat, mark: nat, marks0: seq<nat>) returns (ok: bool, marks: seq<nat>)
    requires |marks0| == n && entries != []
    ensures ok <==> EntriesAccepted(entries, n, mark, marks0)
    ensures ok ==> Marked(entries, mark, marks0, marks)
  {
    marks := marks0;
    var i := 0;
    assert entries[..0] == [];
    while i < |entries|
      invariant i <= |entries| && EntriesAccepted(entries[..i], n, mark, marks0)
      invariant Marked(entries[..i], mark, marks0, marks)
    {
      AcceptOne(entries, i, n, mark, marks0, marks);
      ghost var whole := EntriesAccepted(entries, n, mark, marks0);
      assert whole ==> EntriesAccepted(entries[..i + 1], n, mark, marks0) by {
        if whole {
          AcceptPrefix(entries, i + 1, n, mark, marks0);
        }
      }
      var entry := entries[i];
      if entry.id >= n {
        return false, marks;
      }
      if i > 0 && !KeyLess(entries[i - 1], entry) {
        return false, marks;
      }
      if marks[entry.id] == mark {
        return false, marks;
      }
      MarkOne(entries[..i], entry, mark, marks0, marks);
      assert entries[..i + 1] == entries[..i] + [entry];
      marks := marks[entry.id := mark];
      i := i + 1;
    }
    assert entries[..|entries|] == entries;
    return true, marks;
  }

  /** Reading a fresh leaf on top of the stack. */
  method ReadLeaf(pages: seq<Page>, n: nat, t: nat, s: Dfs) returns (ok: bool, s': Dfs)
    requires Sized(pages, n, s) && s.stack != []
    requires var p := s.stack[|s.stack| - 1].page; 0 < p < |pages| && pages[p].entries != []
    ensures ok <==> LeafAccepted(pages, n, t, s, s.stack[|s.stack| - 1].page)
    ensures ok ==> |s'.marks| == n && Marked(pages[s.stack[|s.stack| - 1].page].entries, t + 1, s.marks, s'.marks) &&
                   s' == AfterLeaf(pages, s, t, s.stack[|s.stack| - 1].page, s'.marks)
  {
    var top := |s.stack| - 1;
    var p := s.stack[top].page;
    var page := pages[p];
    if page.previous == 0 && s.firstLeaf != 0 {
      return false, s;
    }
    var marks;
    ok, marks := VisitEntries(page.entries, n, t + 1, s.marks);
    s' := s.(color := s.color[p := 2], owner := s.owner[p := t], heights := s.heights[p := 0],
             firsts := s.firsts[p := page.entries[0]], lasts := s.lasts[p := page.entries[|page.entries| - 1]],
             marks := marks, entryCount := s.entryCount + |page.entries|, leafCount := s.leafCount + 1,
             firstLeaf := if page.previous == 0 then p else s.firstLeaf, stack := s.stack[..top]);
  }

  ghost predicate ChildrenInRange(pages: seq<Page>, page: Page) {
    forall i :: 0 <= i < |page.children| ==> 0 < page.children[i] < |pages|
  }

  ghost predicate Ranged(pages: seq<Page>, stack: seq<Frame>) {
    forall i, j :: 0 <= i < |stack| && 0 <= j < |stack[i].children| ==> 0 < stack[i].children[j] < |pages|
  }

  /** The key range recorded for a closed leaf is its own. */
  ghost predicate LeafKeys(pages: seq<Page>, s: Dfs) {
    |s.color| == |s.firsts| == |s.lasts| == |pages| &&
    forall p :: 0 <= p < |pages| && s.color[p] == 2 && pages[p].kind == LEAF_PAGE && pages[p].entries != [] ==>
      s.firsts[p] == pages[p].entries[0] && s.lasts[p] == pages[p].entries[|pages[p].entries| - 1]
  }

  ghost predicate Sane(pages: seq<Page>, s: Dfs) {
    Ranged(pages, s.stack) && LeafKeys(pages, s)
  }

  /** Opening a fresh internal page: its children and separators move into the frame. */
  method OpenPage(pages: seq<Page>, n: nat, t: nat, s: Dfs) returns (ok: bool, s': Dfs)
    requires Sized(pages, n, s) && s.stack != [] && 0 < s.stack[|s.stack| - 1].page < |pages|
    ensures ok <==> ChildrenInRange(pages, pages[s.stack[|s.stack| - 1].page]) &&
                    Nondecreasing(pages[s.stack[|s.stack| - 1].page].separators)
    ensures s' == AfterOpen(pages, s, t, s.stack[|s.stack| - 1].page)
  {
    var top := |s.stack| - 1;
    var p := s.stack[top].page;
    var page := pages[p];
    s' := s.(color := s.color[p := 1], owner := s.owner[p := t],
             stack := s.stack[..top] + [Frame(p, page.children, page.separators, 0)]);
    var i := 0;
    while i < |page.children|
      invariant i <= |page.children| && forall j :: 0 <= j < i ==> 0 < page.children[j] < |pages|
    {
      if page.children[i] == 0 || page.children[i] >= |pages| {
        return false, s';
      }
      i := i + 1;
    }
    i := 1;
    while i < |page.separators|
      invariant i >= 1 &&
                forall j :: 0 < j < i && j < |page.separators| ==> page.separators[j - 1] <= page.separators[j]
    {
      if page.separators[i - 1] > page.separators[i] {
        return false, s';
      }
      i := i + 1;
    }
    return true, s';
  }

  /** Closing the top page: equal heights, key ranges in order, separators equal to
      the first keys. Its children are always closed and of this table. */
  method ClosePage(pages: seq<Page>, n: nat, t: nat, s: Dfs) returns (ok: bool, s': Dfs)
    requires Sized(pages, n, s) && s.stack != [] && s.stack[|s.stack| - 1].page < |pages|
    requires var f := s.stack[|s.stack| - 1];
             f.children != [] && |f.separators| + 1 == |f.children| &&
             forall i :: 0 <= i < |f.children| ==>
               f.children[i] < |pages| && s.color[f.children[i]] == 2 && s.owner[f.children[i]] == t
    ensures ok <==> KidsAccepted(pages, s, s.stack[|s.stack| - 1].children, s.stack[|s.stack| - 1].separators)
    ensures s' == AfterClose(pages, s, s.stack[|s.stack| - 1].page, s.stack[|s.stack| - 1].children)
  {
    var top := |s.stack| - 1;
    var f := s.stack[top];
    var childHeight := s.heights[f.children[0]];
    s' := s.(color := s.color[f.page := 2], heights := s.heights[f.page := childHeight + 1],
             firsts := s.firsts[f.page := s.firsts[f.children[0]]],
             lasts := s.lasts[f.page := s.lasts[f.children[|f.children| - 1]]], stack := s.stack[..top]);
    var i := 0;
    while i < |f.children|
      invariant i <= |f.children|
      invariant forall j :: 0 < j < i ==>
        s.heights[f.children[j]] == childHeight && KeyLess(s.lasts[f.children[j - 1]], s.firsts[f.children[j]]) &&
        f.separators[j - 1] == s.firsts[f.children[j]].value
    {
      var child := f.children[i];
      assert s.color[child] == 2 && s.owner[child] == t;
      if i > 0 && (s.heights[child] != childHeight || !KeyLess(s.lasts[f.children[i - 1]], s.firsts[child])
                   || f.separators[i - 1] != s.firsts[child].value) {
        return false, s';
      }
      i := i + 1;
    }
    return true, s';
  }

  // ---- searching one table ---------------------------------------------

  /** Between tables every coloured page is closed and in one of the found trees. */
  ghost predicate TableStart(pages: seq<Page>, n: nat, t: nat, s: Dfs, forest: seq<Tree>) {
    Sized(pages, n, s) && |forest| == t && Colored(s.color, ForestPreorder(forest), []) &&
    ForestOwned(s.owner, forest) && LeafKeys(pages, s) && forall id :: 0 <= id < n ==> s.marks[id] <= t
  }

  ghost function StartOf(s: Dfs, root: nat): Dfs {
    s.(entryCount := 0, leafCount := 0, firstLeaf := 0, stack := [Frame(root, [], [], 0)])
  }

  lemma BeginEmpty(forest: seq<Tree>)
    ensures var begun: Closed := [[]];
            LeafSpine(begun) == [] && Seen(forest, [], begun) == ForestPreorder(forest) && Spine([], begun) == []
  {
    var begun: Closed := [[]];
    LeafSpineOpen([], []);
    assert [] + begun == begun && LeafSpine(begun) == [];
  }

  lemma BeginTable(pages: seq<Page>, n: nat, t: nat, s: Dfs, forest: seq<Tree>, root: nat)
    requires TableStart(pages, n, t, s, forest) && 0 < root < |pages| && s.color[root] == 0
    ensures Inv(pages, n, t, root, StartOf(s, root), forest, [], Some(root), [[]])
  {
    BeginEmpty(forest);
    assert StackOf([], Some(root)) == [Frame(root, [], [], 0)];
    assert Pages([]) == [];
    hide Colored, Seen, LeafSpine, Spine, Pages, ForestPreorder, ForestOwned;
    assert LeafData(pages, n, t, StartOf(s, root), []);
  }

  /** What a finished search of a table has found. */
  ghost predicate TableFound(pages: seq<Page>, n: nat, t: nat, root: nat, s: Dfs, forest: seq<Tree>, tree: Tree) {
    TableStart(pages, n, t + 1, s, forest + [tree]) && tree.page == root &&
    Represents(pages, tree) && Ordered(TreeContents(pages, tree)) && DistinctIds(TreeContents(pages, tree)) &&
    IdsBelow(TreeContents(pages, tree), n) && s.entryCount == |TreeContents(pages, tree)| &&
    LeafPages(pages, Leaves(tree)) && FirstLeafOk(pages, Leaves(tree), s.firstLeaf) && s.leafCount == |Leaves(tree)|
  }

  lemma OneTreeSpine(done: Closed, tree: Tree)
    requires done == [[tree]]
    ensures Spine([], done) == Preorder(tree)
  {
    ForestOne(tree);
  }

  lemma EndColors(color: seq<nat>, forest: seq<Tree>, done: Closed, tree: Tree)
    requires done == [[tree]] && Colored(color, Seen(forest, [], done), [])
    ensures Colored(color, ForestPreorder(forest + [tree]), [])
  {
    OneTreeSpine(done, tree);
    ForestPreorderSnoc(forest, tree);
    assert Seen(forest, [], done) == ForestPreorder(forest) + Spine([], done);
    hide Colored, Seen, Spine, ForestPreorder, Preorder;
  }

  lemma EndForest(pages: seq<Page>, n: nat, t: nat, s: Dfs, forest: seq<Tree>, done: Closed, tree: Tree)
    requires Sized(pages, n, s) && done == [[tree]] && |forest| == t
    requires Colored(s.color, Seen(forest, [], done), []) && OwnerInv(s.owner, t, forest, [], done)
    ensures Colored(s.color, ForestPreorder(forest + [tree]), []) && ForestOwned(s.owner, forest + [tree])
  {
    OneTreeSpine(done, tree);
    assert Owned(s.owner, Spine([], done), t) && ForestOwned(s.owner, forest);
    hide Colored, Seen, Spine, ForestPreorder, Preorder, Owned;
    EndColors(s.color, forest, done, tree);
    forall u | 0 <= u < |forest + [tree]|
      ensures Owned(s.owner, Preorder((forest + [tree])[u]), u)
    {
      assert u < t ==> (forest + [tree])[u] == forest[u] && Owned(s.owner, Preorder(forest[u]), u);
    }
  }

  lemma EndLeaves(pages: seq<Page>, n: nat, t: nat, s: Dfs, done: Closed, tree: Tree)
    requires Sized(pages, n, s) && done == [[tree]] && Represents(pages, tree)
    requires LeafData(pages, n, t, s, LeafSpine(done))
    ensures DistinctIds(TreeContents(pages, tree)) && IdsBelow(TreeContents(pages, tree), n)
    ensures s.entryCount == |TreeContents(pages, tree)| && forall id :: 0 <= id < n ==> s.marks[id] <= t + 1
    ensures LeafPages(pages, Leaves(tree)) && FirstLeafOk(pages, Leaves(tree), s.firstLeaf)
    ensures s.leafCount == |Leaves(tree)|
  {
    hide Represents;
    ForestOne(tree);
    LeafSpineOpen([], [tree]);
    assert [] + [[tree]] == [[tree]] && [] + Leaves(tree) == Leaves(tree);
    assert LeafSpine(done) == Leaves(tree);
  }

  lemma EndTable(pages: seq<Page>, n: nat, t: nat, root: nat, s: Dfs, forest: seq<Tree>, done: Closed)
    requires Inv(pages, n, t, root, s, forest, [], None, done) && |forest| == t && LeafKeys(pages, s)
    ensures |done| == 1 && |done[0]| == 1 && TableFound(pages, n, t, root, s, forest, done[0][0])
  {
    var tree := done[0][0];
    assert Pages([]) == [];
    assert done[0] == [tree];
    assert done == [done[0]];
    assert ClosedTree(pages, s, t, done[0][0]);
    assert Sized(pages, n, s) && tree.page == root;
    hide Represents, FirstEntry, LastEntry, Colored, LeafData, OwnerInv, Seen, LeafSpine, AllClosed, ShapeInv;
    EndForest(pages, n, t, s, forest, done, tree);
    EndLeaves(pages, n, t, s, done, tree);
  }

  // ---- progress of the search ------------------------------------------

  ghost function Unvisited(frames: seq<Frame>): int {
    if frames == [] then 0
    else Unvisited(frames[..|frames| - 1]) + (|frames[|frames| - 1].children| - frames[|frames| - 1].nextChild)
  }

  lemma UnvisitedSnoc(frames: seq<Frame>, f: Frame)
    ensures Unvisited(frames + [f]) == Unvisited(frames) + (|f.children| - f.nextChild)
  {
    assert (frames + [f])[..|frames|] == frames;
  }

  lemma {:induction false} UnvisitedNonnegative(frames: seq<Frame>)
    requires forall i :: 0 <= i < |frames| ==> frames[i].nextChild <= |frames[i].children|
    ensures Unvisited(frames) >= 0
  {
    if frames == [] {
    } else {
      UnvisitedNonnegative(frames[..|frames| - 1]);
    }
  }

  ghost function Unseen(pages: seq<Page>, s: Dfs, forest: seq<Tree>, frames: seq<Frame>, done: Closed): int
    requires |done| == |frames| + 1
  {
    |pages| - |Seen(forest, Pages(frames), done)|
  }

  lemma UnvisitedBounded(pages: seq<Page>, frames: seq<Frame>, next: Option<nat>, done: Closed)
    requires FramesOk(pages, frames, done, next)
    ensures Unvisited(frames) >= 0
  {
    forall i | 0 <= i < |frames|
      ensures frames[i].nextChild <= |frames[i].children|
    {
      assert FrameOk(pages, frames[i], done[i + 1]);
      assert i < |frames| - 1 ==> Entering(frames[i], done[i + 1], frames[i + 1].page);
    }
    UnvisitedNonnegative(frames);
  }

  lemma SeenBounded(color: seq<nat>, seen: seq<nat>, path: seq<nat>)
    requires Colored(color, seen, path) && |color| > 0
    ensures |seen| < |color|
  {
    DistinctBounded(seen, |color|);
  }

  lemma Bounded(pages: seq<Page>, n: nat, t: nat, root: nat, s: Dfs, forest: seq<Tree>, frames: seq<Frame>,
                next: Option<nat>, done: Closed)
    requires Inv(pages, n, t, root, s, forest, frames, next, done) && |pages| > 0
    ensures |done| == |frames| + 1 && Unseen(pages, s, forest, frames, done) >= 0 && Unvisited(frames) >= 0
  {
    UnvisitedBounded(pages, frames, next, done);
    hide FramesOk, Colored, AllClosed, LeafData, OwnerInv, Seen, Unvisited;
    SeenBounded(s.color, Seen(forest, Pages(frames), done), Pages(frames));
  }

  // ---- one turn of the search ------------------------------------------

  ghost predicate PageShapes(pages: seq<Page>, pageSize: nat)
    requires AllowedPageSize(pageSize)
  {
    forall p :: 0 < p < |pages| ==> PageShape(pages[p], pageSize)
  }

  /** w is a valid forest and the tables before t were searched to its trees. */
  ghost predicate Expected(pages: seq<Page>, n: nat, root: nat, w: seq<Tree>, t: nat, forest: seq<Tree>) {
    t < |w| && forest == w[..t] && NoDuplicates(ForestPreorder(w)) && ValidTableTree(pages, root, n, w[t])
  }

  /** The ghost half of the search state. */
  datatype Trail = Trail(frames: seq<Frame>, next: Option<nat>, done: Closed, goals: seq<Tree>)

  ghost predicate Searching(pages: seq<Page>, n: nat, t: nat, root: nat, s: Dfs, forest: seq<Tree>, trail: Trail) {
    Inv(pages, n, t, root, s, forest, trail.frames, trail.next, trail.done)
  }

  ghost predicate OnTrack(pages: seq<Page>, n: nat, root: nat, w: seq<Tree>, t: nat, forest: seq<Tree>, trail: Trail) {
    Expected(pages, n, root, w, t, forest) ==> Track(w[t], Pages(trail.frames), trail.next, trail.done, trail.goals)
  }

  /** A turn sees a new page, or enters a child, or closes a page. */
  ghost predicate Progress(pages: seq<Page>, s: Dfs, s': Dfs, forest: seq<Tree>, trail: Trail, trail': Trail) {
    |trail.done| == |trail.frames| + 1 && |trail'.done| == |trail'.frames| + 1 &&
    var unseen, unseen' := Unseen(pages, s, forest, trail.frames, trail.done),
                           Unseen(pages, s', forest, trail'.frames, trail'.done);
    unseen' < unseen ||
    (unseen' == unseen &&
     (Unvisited(trail'.frames) < Unvisited(trail.frames) ||
      (Unvisited(trail'.frames) == Unvisited(trail.frames) && |s'.stack| < |s.stack|)))
  }

  lemma LeafProgress(pages: seq<Page>, s: Dfs, s': Dfs, forest: seq<Tree>, trail: Trail, p: nat)
    requires |trail.done| == |trail.frames| + 1
    ensures Progress(pages, s, s', forest, trail, trail.(next := None, done := AddTree(trail.done, Tree(p, []))))
  {
    assert |Pages(trail.frames)| == |trail.frames|;
    SpineAdd(Pages(trail.frames), trail.done, Tree(p, []));
  }

  lemma OpenProgress(pages: seq<Page>, s: Dfs, s': Dfs, forest: seq<Tree>, trail: Trail, f: Frame, goals: seq<Tree>)
    requires |trail.done| == |trail.frames| + 1
    ensures Progress(pages, s, s', forest, trail, Trail(trail.frames + [f], None, trail.done + [[]], goals))
  {
    assert |Pages(trail.frames)| == |trail.frames|;
    PagesSnoc(trail.frames, f);
    SpineOpen(Pages(trail.frames), trail.done, f.page, []);
  }

  lemma PushProgress(pages: seq<Page>, s: Dfs, s': Dfs, forest: seq<Tree>, trail: Trail, child: nat)
    requires |trail.done| == |trail.frames| + 1 && trail.frames != []
    ensures Progress(pages, s, s', forest, trail, trail.(frames := Advance(trail.frames), next := Some(child)))
  {
    var front, top := trail.frames[..|trail.frames| - 1], trail.frames[|trail.frames| - 1];
    assert trail.frames == front + [top];
    UnvisitedSnoc(front, top);
    UnvisitedSnoc(front, top.(nextChild := top.nextChild + 1));
    assert Pages(Advance(trail.frames)) == Pages(trail.frames);
  }

  lemma CloseProgress(pages: seq<Page>, s: Dfs, s': Dfs, forest: seq<Tree>, frames: seq<Frame>, f: Frame,
                      done: Closed, kids: seq<Tree>, trail: Trail, goals: seq<Tree>)
    requires |done| == |frames| + 1 && trail.frames == frames + [f] && trail.done == done + [kids]
    requires f.nextChild == |f.children| && |s'.stack| < |s.stack|
    ensures Progress(pages, s, s', forest, trail, Trail(frames, None, AddTree(done, Tree(f.page, kids)), goals))
  {
    UnvisitedSnoc(frames, f);
    PagesSnoc(frames, f);
    assert |Pages(frames)| == |frames|;
    SpineClose(Pages(frames), done, f.page, kids);
  }

  lemma RangedFront(pages: seq<Page>, stack: seq<Frame>)
    requires Ranged(pages, stack) && stack != []
    ensures Ranged(pages, stack[..|stack| - 1])
  {}

  lemma RangedSnoc(pages: seq<Page>, stack: seq<Frame>, f: Frame)
    requires Ranged(pages, stack) && forall j :: 0 <= j < |f.children| ==> 0 < f.children[j] < |pages|
    ensures Ranged(pages, stack + [f])
  {}

  lemma LeafTrack(pages: seq<Page>, n: nat, t: nat, root: nat, s: Dfs, forest: seq<Tree>, trail: Trail, w: seq<Tree>)
    requires Searching(pages, n, t, root, s, forest, trail) && trail.next.Some?
    requires OnTrack(pages, n, root, w, t, forest, trail)
    requires Sized(pages, n, s) && trail.next.value < |pages| && pages[trail.next.value].kind == LEAF_PAGE
    ensures var p := trail.next.value;
            OnTrack(pages, n, root, w, t, forest, trail.(next := None, done := AddTree(trail.done, Tree(p, [])))) &&
            (Expected(pages, n, root, w, t, forest) ==> LeafAccepted(pages, n, t, s, p))
  {
    if Expected(pages, n, root, w, t, forest) {
      LeafPasses(pages, n, t, s, w[t], root, Pages(trail.frames), trail.next.value, trail.done, trail.goals);
      TrackAdd(w[t], Pages(trail.frames), trail.next, trail.done, trail.goals);
    }
  }

  /** The top of the stack is a leaf not seen before. */
  method TurnLeaf(pages: seq<Page>, n: nat, t: nat, root: nat, s: Dfs,
                  ghost forest: seq<Tree>, ghost trail: Trail, ghost w: seq<Tree>)
    returns (ok: bool, s': Dfs, ghost trail': Trail)
    requires Searching(pages, n, t, root, s, forest, trail) && trail.next.Some?
    requires OnTrack(pages, n, root, w, t, forest, trail)
    requires s.stack != [] && Sized(pages, n, s) && s.stack[|s.stack| - 1].page == trail.next.value
    requires var p := trail.next.value;
             0 < p < |pages| && pages[p].kind == LEAF_PAGE && pages[p].entries != []
    ensures Expected(pages, n, root, w, t, forest) ==> ok
    ensures ok ==> Searching(pages, n, t, root, s', forest, trail') && OnTrack(pages, n, root, w, t, forest, trail')
    ensures ok ==> Progress(pages, s, s', forest, trail, trail')
    ensures ok && Sane(pages, s) ==> Sane(pages, s')
  {
    ghost var p := trail.next.value;
    hide Searching, OnTrack, Expected, Sane;
    LeafTrack(pages, n, t, root, s, forest, trail, w);
    ok, s' := ReadLeaf(pages, n, t, s);
    trail' := trail.(next := None, done := AddTree(trail.done, Tree(p, [])));
    if ok {
      LeafSearched(pages, n, t, root, s, s', forest, trail);
      SaneLeaf(pages, n, t, s, s', p);
    }
  }

  lemma SaneLeaf(pages: seq<Page>, n: nat, t: nat, s: Dfs, s': Dfs, p: nat)
    requires Sized(pages, n, s) && s.stack != [] && p < |pages| && pages[p].entries != []
    requires s' == AfterLeaf(pages, s, t, p, s'.marks)
    ensures Sane(pages, s) ==> Sane(pages, s')
  {
    if Sane(pages, s) {
      RangedFront(pages, s.stack);
    }
  }

  lemma LeafSearched(pages: seq<Page>, n: nat, t: nat, root: nat, s: Dfs, s': Dfs, forest: seq<Tree>, trail: Trail)
    requires Searching(pages, n, t, root, s, forest, trail) && trail.next.Some?
    requires s.stack != [] && Sized(pages, n, s) && trail.next.value < |pages|
    requires var p := trail.next.value;
             pages[p].kind == LEAF_PAGE && pages[p].entries != [] && LeafAccepted(pages, n, t, s, p) &&
             Marked(pages[p].entries, t + 1, s.marks, s'.marks) && s' == AfterLeaf(pages, s, t, p, s'.marks)
    ensures var trail' := trail.(next := None, done := AddTree(trail.done, Tree(trail.next.value, [])));
            Searching(pages, n, t, root, s', forest, trail') && Progress(pages, s, s', forest, trail, trail')
  {
    LeafStep(pages, n, t, root, s, forest, trail.frames, trail.next.value, trail.done, s'.marks);
    LeafProgress(pages, s, s', forest, trail, trail.next.value);
  }

  lemma OpenTrack(pages: seq<Page>, n: nat, t: nat, root: nat, s: Dfs, forest: seq<Tree>, trail: Trail, w: seq<Tree>)
    returns (goals: seq<Tree>)
    requires Searching(pages, n, t, root, s, forest, trail) && trail.next.Some?
    requires OnTrack(pages, n, root, w, t, forest, trail)
    requires 0 < trail.next.value < |pages| && pages[trail.next.value].kind == INTERNAL_PAGE
    ensures var p := trail.next.value;
            OnTrack(pages, n, root, w, t, forest,
                    Trail(trail.frames + [FrameOf(pages, p)], None, trail.done + [[]], goals)) &&
            (Expected(pages, n, root, w, t, forest) ==>
               ChildrenInRange(pages, pages[p]) && Nondecreasing(pages[p].separators))
  {
    goals := [];
    if Expected(pages, n, root, w, t, forest) {
      var path, p := Pages(trail.frames), trail.next.value;
      OpenPasses(pages, n, w[t], root, path, p, trail.done, trail.goals);
      TrackOpen(w[t], path, trail.next, trail.done, trail.goals);
      PagesSnoc(trail.frames, FrameOf(pages, p));
      goals := trail.goals + [NextTree(w[t], path, trail.next, trail.done, trail.goals)];
    }
  }

  lemma OpenSearched(pages: seq<Page>, n: nat, t: nat, root: nat, s: Dfs, s': Dfs, forest: seq<Tree>, trail: Trail,
                     goals: seq<Tree>)
    requires Searching(pages, n, t, root, s, forest, trail) && trail.next.Some?
    requires s.stack != [] && Sized(pages, n, s) && InternalPage(pages, trail.next.value)
    requires s' == AfterOpen(pages, s, t, trail.next.value)
    ensures var trail' := Trail(trail.frames + [FrameOf(pages, trail.next.value)], None, trail.done + [[]], goals);
            Searching(pages, n, t, root, s', forest, trail') && Progress(pages, s, s', forest, trail, trail')
  {
    OpenStep(pages, n, t, root, s, forest, trail.frames, trail.next.value, trail.done);
    OpenProgress(pages, s, s', forest, trail, FrameOf(pages, trail.next.value), goals);
  }

  /** The top of the stack is an internal page not seen before; the next turn
      enters its first child. */
  method TurnOpen(pages: seq<Page>, n: nat, t: nat, root: nat, s: Dfs,
                  ghost forest: seq<Tree>, ghost trail: Trail, ghost w: seq<Tree>)
    returns (ok: bool, s': Dfs, ghost trail': Trail)
    requires Searching(pages, n, t, root, s, forest, trail) && trail.next.Some?
    requires OnTrack(pages, n, root, w, t, forest, trail)
    requires s.stack != [] && Sized(pages, n, s) && s.stack[|s.stack| - 1].page == trail.next.value
    requires InternalPage(pages, trail.next.value)
    ensures Expected(pages, n, root, w, t, forest) ==> ok
    ensures ok ==> Searching(pages, n, t, root, s', forest, trail') && OnTrack(pages, n, root, w, t, forest, trail')
    ensures ok ==> Progress(pages, s, s', forest, trail, trail')
    ensures ok && Sane(pages, s) ==> Sane(pages, s')
  {
    ghost var p := trail.next.value;
    hide Searching, OnTrack, Expected;
    ghost var goals := OpenTrack(pages, n, t, root, s, forest, trail, w);
    ok, s' := OpenPage(pages, n, t, s);
    trail' := Trail(trail.frames + [FrameOf(pages, p)], None, trail.done + [[]], goals);
    if ok {
      OpenSearched(pages, n, t, root, s, s', forest, trail, goals);
      if Sane(pages, s) {
        RangedFront(pages, s.stack);
        RangedSnoc(pages, s.stack[..|s.stack| - 1], FrameOf(pages, p));
      }
    }
  }

  /** The top of the stack is open and has a child left to search. */
  method TurnPush(pages: seq<Page>, n: nat, t: nat, root: nat, s: Dfs,
                  ghost forest: seq<Tree>, ghost trail: Trail, ghost w: seq<Tree>)
    returns (ok: bool, s': Dfs, ghost trail': Trail)
    requires Searching(pages, n, t, root, s, forest, trail) && trail.next.None? && trail.frames != []
    requires var f := s.stack[|s.stack| - 1];
             f.nextChild < |f.children| && 0 < f.children[f.nextChild] < |pages|
    requires OnTrack(pages, n, root, w, t, forest, trail)
    ensures Expected(pages, n, root, w, t, forest) ==> ok
    ensures ok ==> Searching(pages, n, t, root, s', forest, trail') && OnTrack(pages, n, root, w, t, forest, trail')
    ensures ok ==> Progress(pages, s, s', forest, trail, trail')
    ensures ok && Sane(pages, s) ==> Sane(pages, s')
  {
    var top := |s.stack| - 1;
    var f := s.stack[top];
    var child := f.children[f.nextChild];
    StackTop(pages, n, t, root, s, forest, trail);
    hide OnTrack, Expected;
    trail' := trail.(frames := Advance(trail.frames), next := Some(child));
    PushIsNew(pages, n, t, root, s, forest, trail, w, child);
    if s.color[child] != 0 {
      return false, s, trail;
    }
    s' := s.(stack := s.stack[..top] + [f.(nextChild := f.nextChild + 1)] + [Frame(child, [], [], 0)]);
    PushSearched(pages, n, t, root, s, s', forest, trail, child);
    if Sane(pages, s) {
      RangedFront(pages, s.stack);
      RangedSnoc(pages, s.stack[..top], f.(nextChild := f.nextChild + 1));
      RangedSnoc(pages, s.stack[..top] + [f.(nextChild := f.nextChild + 1)], Frame(child, [], [], 0));
    }
    return true, s', trail';
  }

  lemma PushSearched(pages: seq<Page>, n: nat, t: nat, root: nat, s: Dfs, s': Dfs, forest: seq<Tree>, trail: Trail,
                     child: nat)
    requires Searching(pages, n, t, root, s, forest, trail) && trail.next.None? && trail.frames != []
    requires s.stack != [] && 0 < child < |pages| == |s.color| && s.color[child] == 0
    requires var f := s.stack[|s.stack| - 1];
             f.nextChild < |f.children| && child == f.children[f.nextChild] &&
             s' == s.(stack := s.stack[..|s.stack| - 1] + [f.(nextChild := f.nextChild + 1)] +
                      [Frame(child, [], [], 0)])
    ensures var trail' := trail.(frames := Advance(trail.frames), next := Some(child));
            Searching(pages, n, t, root, s', forest, trail') && Progress(pages, s, s', forest, trail, trail')
  {
    PushStep(pages, n, t, root, s, forest, trail.frames, trail.done, child);
    assert s.stack == trail.frames && |trail.done| == |trail.frames| + 1;
    assert s'.stack == Advance(trail.frames) + [Frame(child, [], [], 0)];
    hide Inv, Advance, Progress;
    PushProgress(pages, s, s', forest, trail, child);
  }

  lemma PushIsNew(pages: seq<Page>, n: nat, t: nat, root: nat, s: Dfs, forest: seq<Tree>, trail: Trail,
                  w: seq<Tree>, child: nat)
    requires Searching(pages, n, t, root, s, forest, trail) && trail.next.None? && trail.frames != []
    requires var f := s.stack[|s.stack| - 1];
             f.nextChild < |f.children| && child == f.children[f.nextChild] && 0 < child < |pages|
    requires OnTrack(pages, n, root, w, t, forest, trail)
    ensures OnTrack(pages, n, root, w, t, forest, trail.(frames := Advance(trail.frames), next := Some(child)))
    ensures Expected(pages, n, root, w, t, forest) ==> s.color[child] == 0
  {
    var path, f := Pages(trail.frames), trail.frames[|trail.frames| - 1];
    assert FrameOk(pages, f, trail.done[|trail.done| - 1]) && path[|path| - 1] == f.page;
    assert Pages(Advance(trail.frames)) == path;
    assert Colored(s.color, Seen(forest, path, trail.done), path) && |s.color| == |pages| &&
           f == s.stack[|s.stack| - 1];
    assert f.nextChild == |trail.done[|trail.done| - 1]|;
    hide Searching, Inv, Pages, Advance, Seen, FramesOk, Track;
    if Expected(pages, n, root, w, t, forest) {
      TrackPush(pages, w[t], path, trail.done, trail.goals);
      NextIsNew(w, t, path, Some(child), trail.done, trail.goals);
    }
  }

  /** The children of a page about to be closed are the closed trees beside it. */
  lemma KidsOfTop(pages: seq<Page>, n: nat, t: nat, root: nat, s: Dfs, forest: seq<Tree>, trail: Trail)
    requires Searching(pages, n, t, root, s, forest, trail) && trail.next.None? && trail.frames != []
    requires var f := s.stack[|s.stack| - 1]; f.nextChild == |f.children|
    ensures |trail.done| == |trail.frames| + 1 && s.stack == trail.frames && Sized(pages, n, s)
    ensures var f, kids := s.stack[|s.stack| - 1], trail.done[|trail.done| - 1];
            InternalPage(pages, f.page) && f.children == pages[f.page].children == Roots(kids) &&
            f.separators == pages[f.page].separators && KidsClosed(pages, s, t, kids) &&
            (forall j :: 0 <= j < |kids| ==> kids[j].page < |pages|) &&
            forall i :: 0 <= i < |f.children| ==>
              f.children[i] < |pages| && s.color[f.children[i]] == 2 && s.owner[f.children[i]] == t
  {
    var f, kids := s.stack[|s.stack| - 1], trail.done[|trail.done| - 1];
    assert FrameOk(pages, f, kids) && |kids| == |f.children|;
    assert forall j :: 0 <= j < |kids| ==> ClosedTree(pages, s, t, kids[j]);
    assert forall j :: 0 <= j < |kids| ==> kids[j].page == f.children[j];
  }

  /** The top of the stack is open and all its children are searched. */
  method TurnClose(pages: seq<Page>, n: nat, t: nat, root: nat, s: Dfs,
                   ghost forest: seq<Tree>, ghost trail: Trail, ghost w: seq<Tree>)
    returns (ok: bool, s': Dfs, ghost trail': Trail)
    requires Searching(pages, n, t, root, s, forest, trail) && trail.next.None? && trail.frames != []
    requires var f := s.stack[|s.stack| - 1]; f.nextChild == |f.children|
    requires OnTrack(pages, n, root, w, t, forest, trail)
    ensures Expected(pages, n, root, w, t, forest) ==> ok
    ensures ok ==> Searching(pages, n, t, root, s', forest, trail') && OnTrack(pages, n, root, w, t, forest, trail')
    ensures ok ==> Progress(pages, s, s', forest, trail, trail')
    ensures ok && Sane(pages, s) ==> Sane(pages, s')
  {
    KidsOfTop(pages, n, t, root, s, forest, trail);
    ghost var frames, f := trail.frames[..|trail.frames| - 1], s.stack[|s.stack| - 1];
    ghost var done, kids := trail.done[..|trail.done| - 1], trail.done[|trail.done| - 1];
    assert trail.frames == frames + [f] && trail.done == done + [kids];
    hide OnTrack, Expected, Searching, Sane;
    CloseTrack(pages, n, t, root, s, forest, trail, w, frames, f, done, kids);
    ok, s' := ClosePage(pages, n, t, s);
    ghost var goals := if trail.goals == [] then [] else trail.goals[..|trail.goals| - 1];
    trail' := Trail(frames, None, AddTree(done, Tree(f.page, kids)), goals);
    if ok {
      CloseSearched(pages, n, t, root, s, s', forest, trail, frames, f, done, kids, goals);
      SaneClose(pages, n, s, s', f.page, Roots(kids));
    }
  }

  lemma SaneClose(pages: seq<Page>, n: nat, s: Dfs, s': Dfs, p: nat, kids: seq<nat>)
    requires Sized(pages, n, s) && s.stack != [] && InternalPage(pages, p) && kids != []
    requires forall j :: 0 <= j < |kids| ==> kids[j] < |pages|
    requires s' == AfterClose(pages, s, p, kids)
    ensures Sane(pages, s) ==> Sane(pages, s')
  {
    if Sane(pages, s) {
      RangedFront(pages, s.stack);
    }
  }

  lemma CloseSearched(pages: seq<Page>, n: nat, t: nat, root: nat, s: Dfs, s': Dfs, forest: seq<Tree>, trail: Trail,
                      frames: seq<Frame>, f: Frame, done: Closed, kids: seq<Tree>, goals: seq<Tree>)
    requires Searching(pages, n, t, root, s, forest, trail) && trail.next.None?
    requires trail.frames == frames + [f] && trail.done == done + [kids] && |done| == |frames| + 1
    requires Sized(pages, n, s) && s.stack != [] && InternalPage(pages, f.page) && f.nextChild == |f.children|
    requires pages[f.page].children == Roots(kids) && forall j :: 0 <= j < |kids| ==> kids[j].page < |pages|
    requires KidsAccepted(pages, s, Roots(kids), pages[f.page].separators)
    requires s' == AfterClose(pages, s, f.page, Roots(kids))
    ensures var trail' := Trail(frames, None, AddTree(done, Tree(f.page, kids)), goals);
            Searching(pages, n, t, root, s', forest, trail') && Progress(pages, s, s', forest, trail, trail')
  {
    CloseStep(pages, n, t, root, s, forest, frames, f, done, kids);
    CloseProgress(pages, s, s', forest, frames, f, done, kids, trail, goals);
  }

  lemma CloseTrack(pages: seq<Page>, n: nat, t: nat, root: nat, s: Dfs, forest: seq<Tree>, trail: Trail, w: seq<Tree>,
                   frames: seq<Frame>, f: Frame, done: Closed, kids: seq<Tree>)
    requires Sized(pages, n, s) && KidsClosed(pages, s, t, kids) && InternalPage(pages, f.page)
    requires trail.frames == frames + [f] && trail.done == done + [kids] && |done| == |frames| + 1
    requires trail.next.None? && pages[f.page].children == Roots(kids)
    requires OnTrack(pages, n, root, w, t, forest, trail)
    requires forall j :: 0 <= j < |kids| ==> kids[j].page < |pages|
    ensures var goals := if trail.goals == [] then [] else trail.goals[..|trail.goals| - 1];
            OnTrack(pages, n, root, w, t, forest, Trail(frames, None, AddTree(done, Tree(f.page, kids)), goals))
    ensures Expected(pages, n, root, w, t, forest) ==> KidsAccepted(pages, s, Roots(kids), pages[f.page].separators)
  {
    if Expected(pages, n, root, w, t, forest) {
      var path := Pages(frames);
      PagesSnoc(frames, f);
      assert |path| == |frames| && (path + [f.page])[|path|] == f.page;
      TrackPush(pages, w[t], path + [f.page], done + [kids], trail.goals);
      KidsPass(pages, n, t, s, w[t], root, path, f.page, done, kids, trail.goals);
      TrackClose(w[t], path, f.page, done, kids, trail.goals);
    }
  }

  /** One turn of the loop: which of the four cases the top of the stack asks for. */
  method Turn(pages: seq<Page>, pageSize: nat, n: nat, t: nat, root: nat, s: Dfs,
              ghost forest: seq<Tree>, ghost trail: Trail, ghost w: seq<Tree>)
    returns (ok: bool, s': Dfs, ghost trail': Trail)
    requires AllowedPageSize(pageSize) && PageShapes(pages, pageSize) && s.stack != [] && |pages| > 0
    requires Searching(pages, n, t, root, s, forest, trail) && Sane(pages, s)
    requires OnTrack(pages, n, root, w, t, forest, trail)
    ensures Expected(pages, n, root, w, t, forest) ==> ok
    ensures ok ==> Searching(pages, n, t, root, s', forest, trail') && OnTrack(pages, n, root, w, t, forest, trail')
    ensures ok ==> Sane(pages, s') && Progress(pages, s, s', forest, trail, trail')
  {
    StackTop(pages, n, t, root, s, forest, trail);
    var f := s.stack[|s.stack| - 1];
    assert PageShape(pages[f.page], pageSize);
    hide Searching, OnTrack, Expected, Progress, Nondecreasing;
    if s.color[f.page] == 0 {
      if pages[f.page].kind == LEAF_PAGE {
        ok, s', trail' := TurnLeaf(pages, n, t, root, s, forest, trail, w);
      } else {
        ok, s', trail' := TurnOpen(pages, n, t, root, s, forest, trail, w);
      }
    } else if f.nextChild < |f.children| {
      ok, s', trail' := TurnPush(pages, n, t, root, s, forest, trail, w);
    } else {
      ok, s', trail' := TurnClose(pages, n, t, root, s, forest, trail, w);
    }
  }

  ghost predicate InProgress(pages: seq<Page>, n: nat, t: nat, root: nat, s: Dfs, forest: seq<Tree>, trail: Trail,
                             w: seq<Tree>)
  {
    Searching(pages, n, t, root, s, forest, trail) && OnTrack(pages, n, root, w, t, forest, trail) &&
    Sane(pages, s)
  }

  ghost function UnseenOf(pages: seq<Page>, s: Dfs, forest: seq<Tree>, trail: Trail): nat {
    if |trail.done| == |trail.frames| + 1 && Unseen(pages, s, forest, trail.frames, trail.done) >= 0 then
      Unseen(pages, s, forest, trail.frames, trail.done)
    else 0
  }

  ghost function UnvisitedOf(trail: Trail): nat {
    if Unvisited(trail.frames) >= 0 then Unvisited(trail.frames) else 0
  }

  ghost predicate Smaller(pages: seq<Page>, s: Dfs, s': Dfs, forest: seq<Tree>, trail: Trail, trail': Trail) {
    var u, u', v, v' := UnseenOf(pages, s, forest, trail), UnseenOf(pages, s', forest, trail'),
                        UnvisitedOf(trail), UnvisitedOf(trail');
    u' < u || (u' == u && (v' < v || (v' == v && |s'.stack| < |s.stack|)))
  }

  lemma ProgressIsSmaller(pages: seq<Page>, n: nat, t: nat, root: nat, s: Dfs, s': Dfs, forest: seq<Tree>,
                          trail: Trail, trail': Trail)
    requires Searching(pages, n, t, root, s, forest, trail) && Searching(pages, n, t, root, s', forest, trail')
    requires |pages| > 0 && Progress(pages, s, s', forest, trail, trail')
    ensures Smaller(pages, s, s', forest, trail, trail')
  {
    hide Inv, Unseen, Unvisited;
    Bounded(pages, n, t, root, s, forest, trail.frames, trail.next, trail.done);
    Bounded(pages, n, t, root, s', forest, trail'.frames, trail'.next, trail'.done);
  }

  /** Turn after turn until the stack is empty. This ends on every heap, cyclic or
      shared pages included: each turn sees a page, enters a child or closes a page. */
  method SearchLoop(pages: seq<Page>, pageSize: nat, n: nat, t: nat, root: nat, s0: Dfs,
                    ghost forest: seq<Tree>, ghost trail0: Trail, ghost w: seq<Tree>)
    returns (ok: bool, s: Dfs, ghost trail: Trail)
    requires AllowedPageSize(pageSize) && PageShapes(pages, pageSize) && |pages| > 0
    requires InProgress(pages, n, t, root, s0, forest, trail0, w)
    ensures ok ==> InProgress(pages, n, t, root, s, forest, trail, w) && s.stack == []
    ensures Expected(pages, n, root, w, t, forest) ==> ok
  {
    s, trail := s0, trail0;
    while s.stack != []
      invariant InProgress(pages, n, t, root, s, forest, trail, w)
      decreases UnseenOf(pages, s, forest, trail), UnvisitedOf(trail), |s.stack|
    {
      hide Searching, OnTrack, Expected, Sane, Progress, UnseenOf, UnvisitedOf, PageShapes;
      ghost var before, trailBefore := s, trail;
      var turn;
      turn, s, trail := Turn(pages, pageSize, n, t, root, s, forest, trail, w);
      if !turn {
        return false, s, trail;
      }
      ProgressIsSmaller(pages, n, t, root, before, s, forest, trailBefore, trail);
    }
    return true, s, trail;
  }

  /** The search of one table, from its root to the point where its stack is empty.
      A root that another table already uses has no children to read in its frame:
      the frame closes at once and the entry count that follows rejects the table. */
  method SearchTable(pages: seq<Page>, pageSize: nat, n: nat, t: nat, root: nat, s0: Dfs,
                     ghost forest: seq<Tree>, ghost w: seq<Tree>)
    returns (ok: bool, s: Dfs, ghost tree: Tree)
    requires AllowedPageSize(pageSize) && PageShapes(pages, pageSize) && n > 0 && 0 < root < |pages|
    requires TableStart(pages, n, t, s0, forest)
    ensures ok ==> TableFound(pages, n, t, root, s, forest, tree) && s.entryCount == n
    ensures Expected(pages, n, root, w, t, forest) ==> ok && tree == w[t]
  {
    tree := Tree(root, []);
    if Expected(pages, n, root, w, t, forest) {
      RootIsNew(pages, n, t, root, s0, forest, w);
    }
    if s0.color[root] != 0 {
      return false, s0, tree;
    }
    BeginTable(pages, n, t, s0, forest, root);
    var begun := s0.(entryCount := 0, leafCount := 0, firstLeaf := 0, stack := [Frame(root, [], [], 0)]);
    ghost var trail := Trail([], Some(root), [[]], []);
    assert Pages([]) == [];
    assert Sane(pages, begun);
    hide Inv, PageShapes, TableStart;
    assert InProgress(pages, n, t, root, begun, forest, trail, w);
    ok, s, trail := SearchLoop(pages, pageSize, n, t, root, begun, forest, trail, w);
    if !ok {
      return false, s, tree;
    }
    StackEmpty(pages, n, t, root, s, forest, trail);
    tree := trail.done[0][0];
    ok := s.entryCount == n;
  }

  lemma RootIsNew(pages: seq<Page>, n: nat, t: nat, root: nat, s: Dfs, forest: seq<Tree>, w: seq<Tree>)
    requires TableStart(pages, n, t, s, forest) && 0 < root < |pages| && Expected(pages, n, root, w, t, forest)
    ensures s.color[root] == 0 && Track(w[t], [], Some(root), [[]], [])
  {
    NextIsNew(w, t, [], Some(root), [[]], []);
    BeginEmpty(forest);
  }

  /** Which turn the top of the stack asks for. */
  lemma StackTop(pages: seq<Page>, n: nat, t: nat, root: nat, s: Dfs, forest: seq<Tree>, trail: Trail)
    requires Searching(pages, n, t, root, s, forest, trail) && s.stack != []
    ensures var f := s.stack[|s.stack| - 1];
            0 < f.page < |s.color| == |pages| && Sized(pages, n, s) && (s.color[f.page] == 0 <==> trail.next.Some?) &&
            (trail.next.Some? ==> f.page == trail.next.value) &&
            (trail.next.None? ==> trail.frames != [] && f.nextChild <= |f.children|)
  {
    var f := s.stack[|s.stack| - 1];
    if trail.next.None? {
      assert FrameOk(pages, f, trail.done[|trail.done| - 1]);
      var path := Pages(trail.frames);
      assert path[|path| - 1] == f.page;
      assert s.color[f.page] == 1;
    }
  }

  lemma StackEmpty(pages: seq<Page>, n: nat, t: nat, root: nat, s: Dfs, forest: seq<Tree>, trail: Trail)
    requires Searching(pages, n, t, root, s, forest, trail) && s.stack == [] && |forest| == t && LeafKeys(pages, s)
    ensures |trail.done| == 1 && |trail.done[0]| == 1 && trail.next.None? && trail.frames == []
    ensures TableFound(pages, n, t, root, s, forest, trail.done[0][0])
  {
    assert trail.next.None? && trail.frames == [];
    EndTable(pages, n, t, root, s, forest, trail.done);
  }
}
