/** The state of the validator's search of one table, its invariant, and what each
    kind of step does to the invariant. */
module DfsState {
  import opened Tables
  import opened PageTree
  import opened TreeOrder
  import opened DfsSpec

  datatype Frame = Frame(page: nat, children: seq<nat>, separators: seq<real>, nextChild: nat)

  /** The per-page arrays, the per-point marks, the counters of the table being
      searched and the stack. color is 0 unseen, 1 open, 2 closed. */
  datatype Dfs = Dfs(color: seq<nat>, owner: seq<nat>, heights: seq<nat>, firsts: seq<Entry>, lasts: seq<Entry>,
                     marks: seq<nat>, entryCount: nat, leafCount: nat, firstLeaf: nat, stack: seq<Frame>)

  ghost predicate Sized(pages: seq<Page>, n: nat, s: Dfs) {
    |s.color| == |s.owner| == |s.heights| == |s.firsts| == |s.lasts| == |pages| && |s.marks| == n
  }

  /** order lists the coloured pages, each once; the open ones form the path. */
  ghost predicate Colored(color: seq<nat>, order: seq<nat>, path: seq<nat>) {
    NoDuplicates(order) && NoDuplicates(path) && (forall p :: p in order ==> 0 < p < |color|) &&
    forall p :: 0 <= p < |color| ==>
      color[p] <= 2 && (color[p] != 0 <==> p in order) && (color[p] == 1 <==> p in path)
  }

  /** A closed subtree is fully known: shape, order, height and key range. */
  ghost predicate ClosedTree(pages: seq<Page>, s: Dfs, t: nat, tree: Tree)
    requires |s.color| == |s.owner| == |s.heights| == |s.firsts| == |s.lasts| == |pages|
  {
    Represents(pages, tree) && Ordered(TreeContents(pages, tree)) &&
    s.color[tree.page] == 2 && s.owner[tree.page] == t && s.heights[tree.page] == Height(tree) &&
    s.firsts[tree.page] == FirstEntry(pages, tree) && s.lasts[tree.page] == LastEntry(pages, tree)
  }

  ghost predicate AllClosed(pages: seq<Page>, s: Dfs, t: nat, done: Closed)
    requires |s.color| == |s.owner| == |s.heights| == |s.firsts| == |s.lasts| == |pages|
  {
    forall i, j :: 0 <= i < |done| && 0 <= j < |done[i]| ==> ClosedTree(pages, s, t, done[i][j])
  }

  ghost predicate Owned(owner: seq<nat>, ps: seq<nat>, t: nat) {
    forall p :: p in ps ==> p < |owner| && owner[p] == t
  }

  ghost predicate ForestOwned(owner: seq<nat>, forest: seq<Tree>) {
    forall u :: 0 <= u < |forest| ==> Owned(owner, Preorder(forest[u]), u)
  }

  ghost predicate Has(e: seq<Entry>, id: nat) {
    exists i :: 0 <= i < |e| && e[i].id == id
  }

  /** first is the one listed leaf without a previous link, or 0 if there is none. */
  ghost predicate FirstLeafOk(pages: seq<Page>, ls: seq<nat>, first: nat)
    requires LeafPages(pages, ls)
  {
    (forall k :: 0 <= k < |ls| && pages[ls[k]].previous == 0 ==> ls[k] == first) &&
    (first != 0 ==> first in ls && pages[first].previous == 0)
  }

  /** The counters and marks describe the leaves visited so far. */
  ghost predicate LeafData(pages: seq<Page>, n: nat, t: nat, s: Dfs, ls: seq<nat>)
    requires |s.marks| == n
  {
    LeafPages(pages, ls) && FirstLeafOk(pages, ls, s.firstLeaf) && s.leafCount == |ls| &&
    EntryData(Contents(pages, ls), n, t, s.marks) && s.entryCount == |Contents(pages, ls)|
  }

  ghost predicate EntryData(e: seq<Entry>, n: nat, t: nat, marks: seq<nat>)
    requires |marks| == n
  {
    DistinctIds(e) && IdsBelow(e, n) &&
    forall id :: 0 <= id < n ==> marks[id] <= t + 1 && (marks[id] == t + 1 <==> Has(e, id))
  }

  /** The open frames hold their page's children and separators; slot i + 1 closes
      the children before the one being searched. */
  ghost predicate FramesOk(pages: seq<Page>, frames: seq<Frame>, done: Closed, next: Option<nat>) {
    |done| == |frames| + 1 &&
    (forall i :: 0 <= i < |frames| ==> FrameOk(pages, frames[i], done[i + 1])) &&
    (forall i :: 0 <= i < |frames| - 1 ==> Entering(frames[i], done[i + 1], frames[i + 1].page)) &&
    (frames != [] ==>
      var top, d := frames[|frames| - 1], done[|done| - 1];
      if next.Some? then Entering(top, d, next.value) else top.nextChild == |d|)
  }

  ghost predicate FrameOk(pages: seq<Page>, f: Frame, d: seq<Tree>) {
    0 < f.page < |pages| && pages[f.page].kind == INTERNAL_PAGE &&
    f.children == pages[f.page].children && f.separators == pages[f.page].separators &&
    |f.children| >= 2 && |f.separators| == |f.children| - 1 && |d| <= |f.children| &&
    forall j :: 0 <= j < |d| ==> d[j].page == f.children[j]
  }

  ghost predicate Entering(f: Frame, d: seq<Tree>, child: nat) {
    f.nextChild == |d| + 1 <= |f.children| && f.children[|d|] == child
  }

  /** Where the search of the root stands: not begun, under way, or done. */
  ghost predicate RootOk(root: nat, frames: seq<Frame>, done: Closed, next: Option<nat>) {
    done != [] &&
    if frames != [] then frames[0].page == root && done[0] == []
    else if next.Some? then next.value == root && done[0] == []
    else |done[0]| == 1 && done[0][0].page == root
  }

  ghost function Pages(frames: seq<Frame>): seq<nat> {
    seq(|frames|, i requires 0 <= i < |frames| => frames[i].page)
  }

  ghost function StackOf(frames: seq<Frame>, next: Option<nat>): seq<Frame> {
    match next
    case None => frames
    case Some(p) => frames + [Frame(p, [], [], 0)]
  }

  ghost predicate ShapeInv(pages: seq<Page>, n: nat, root: nat, s: Dfs, frames: seq<Frame>, next: Option<nat>,
                           done: Closed)
  {
    Sized(pages, n, s) && FramesOk(pages, frames, done, next) && RootOk(root, frames, done, next) &&
    s.stack == StackOf(frames, next) &&
    (next.Some? ==> 0 < next.value < |pages| && s.color[next.value] == 0)
  }

  ghost function Seen(forest: seq<Tree>, path: seq<nat>, done: Closed): seq<nat>
    requires |done| == |path| + 1
  {
    ForestPreorder(forest) + Spine(path, done)
  }

  ghost predicate OwnerInv(owner: seq<nat>, t: nat, forest: seq<Tree>, path: seq<nat>, done: Closed)
    requires |done| == |path| + 1
  {
    Owned(owner, Spine(path, done), t) && ForestOwned(owner, forest)
  }

  ghost predicate Inv(pages: seq<Page>, n: nat, t: nat, root: nat, s: Dfs, forest: seq<Tree>,
                      frames: seq<Frame>, next: Option<nat>, done: Closed)
  {
    ShapeInv(pages, n, root, s, frames, next, done) &&
    Colored(s.color, Seen(forest, Pages(frames), done), Pages(frames)) &&
    AllClosed(pages, s, t, done) && OwnerInv(s.owner, t, forest, Pages(frames), done) &&
    LeafData(pages, n, t, s, LeafSpine(done))
  }

  // ---- colours, owners, closed trees under an update -------------------

  lemma ColorLeaf(color: seq<nat>, order: seq<nat>, path: seq<nat>, p: nat)
    requires Colored(color, order, path) && 0 < p < |color| && color[p] == 0
    ensures Colored(color[p := 2], order + [p], path)
  {}

  lemma ColorOpen(color: seq<nat>, order: seq<nat>, path: seq<nat>, p: nat)
    requires Colored(color, order, path) && 0 < p < |color| && color[p] == 0
    ensures Colored(color[p := 1], order + [p], path + [p])
  {}

  lemma ColorClose(color: seq<nat>, order: seq<nat>, path: seq<nat>, p: nat)
    requires Colored(color, order, path + [p]) && p < |color|
    ensures Colored(color[p := 2], order, path) && color[p] == 1
  {
    assert (path + [p])[|path|] == p;
    forall i, j | 0 <= i < j < |path|
      ensures path[i] != path[j]
    {
      assert (path + [p])[i] != (path + [p])[j];
    }
    forall q | q in path
      ensures q != p
    {
      var i :| 0 <= i < |path| && path[i] == q;
      assert (path + [p])[i] != (path + [p])[|path|];
    }
  }

  /** Writing the arrays at a page that is not closed leaves closed trees alone. */
  lemma ClosedUnchanged(pages: seq<Page>, s: Dfs, s': Dfs, t: nat, done: Closed, p: nat)
    requires |s.color| == |s.owner| == |s.heights| == |s.firsts| == |s.lasts| == |pages|
    requires |s'.color| == |s'.owner| == |s'.heights| == |s'.firsts| == |s'.lasts| == |pages|
    requires AllClosed(pages, s, t, done) && p < |pages| && s.color[p] != 2
    requires forall q :: 0 <= q < |pages| && q != p ==>
               s'.color[q] == s.color[q] && s'.owner[q] == s.owner[q] && s'.heights[q] == s.heights[q] &&
               s'.firsts[q] == s.firsts[q] && s'.lasts[q] == s.lasts[q]
    ensures AllClosed(pages, s', t, done)
  {
    forall i, j | 0 <= i < |done| && 0 <= j < |done[i]|
      ensures ClosedTree(pages, s', t, done[i][j])
    {
      assert ClosedTree(pages, s, t, done[i][j]);
      assert done[i][j].page != p;
    }
  }

  lemma AllClosedAdd(pages: seq<Page>, s: Dfs, t: nat, done: Closed, tree: Tree)
    requires |s.color| == |s.owner| == |s.heights| == |s.firsts| == |s.lasts| == |pages|
    requires done != [] && AllClosed(pages, s, t, done) && ClosedTree(pages, s, t, tree)
    ensures AllClosed(pages, s, t, AddTree(done, tree))
  {
    var added := AddTree(done, tree);
    forall i, j | 0 <= i < |added| && 0 <= j < |added[i]|
      ensures ClosedTree(pages, s, t, added[i][j])
    {
      assert i < |done| - 1 || j == |done[i]| || added[i][j] == done[i][j];
      assert i == |done| - 1 || added[i] == done[i];
    }
  }

  lemma OwnedAdd(owner: seq<nat>, ps: seq<nat>, t: nat, p: nat)
    requires Owned(owner, ps, t) && p < |owner|
    ensures Owned(owner[p := t], ps + [p], t)
  {}

  lemma ForestOwnedUnchanged(owner: seq<nat>, forest: seq<Tree>, t: nat, p: nat)
    requires ForestOwned(owner, forest) && p < |owner| && p !in ForestPreorder(forest)
    ensures ForestOwned(owner[p := t], forest)
  {
    forall u | 0 <= u < |forest|
      ensures Owned(owner[p := t], Preorder(forest[u]), u)
    {
      ForestHas(forest, u);
      assert Owned(owner, Preorder(forest[u]), u);
    }
  }

  lemma {:induction false} ForestHas(forest: seq<Tree>, u: nat)
    requires u < |forest|
    ensures forall p :: p in Preorder(forest[u]) ==> p in ForestPreorder(forest)
  {
    if u < |forest| - 1 {
      ForestHas(forest[..|forest| - 1], u);
    }
  }
}
