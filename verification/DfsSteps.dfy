/** Each step of the search keeps the invariant: reading a leaf, opening an
    internal page, entering a child, closing a page. */
module DfsSteps {
  import opened Tables
  import opened PageTree
  import opened TreeOrder
  import opened DfsSpec
  import opened DfsState

  // ---- frames ----------------------------------------------------------

  lemma FramesAdd(pages: seq<Page>, frames: seq<Frame>, done: Closed, p: nat, tree: Tree)
    requires FramesOk(pages, frames, done, Some(p)) && tree.page == p
    ensures FramesOk(pages, frames, AddTree(done, tree), None)
  {
    var added := AddTree(done, tree);
    forall i | 0 <= i < |frames|
      ensures FrameOk(pages, frames[i], added[i + 1])
    {
      assert FrameOk(pages, frames[i], done[i + 1]);
    }
    forall i | 0 <= i < |frames| - 1
      ensures Entering(frames[i], added[i + 1], frames[i + 1].page)
    {
      assert Entering(frames[i], done[i + 1], frames[i + 1].page);
    }
  }

  lemma FramesOpen(pages: seq<Page>, frames: seq<Frame>, done: Closed, f: Frame)
    requires FramesOk(pages, frames, done, Some(f.page)) && FrameOk(pages, f, []) && f.nextChild == 0
    ensures FramesOk(pages, frames + [f], done + [[]], None)
  {
    var fs, d := frames + [f], done + [[]];
    forall i | 0 <= i < |fs|
      ensures FrameOk(pages, fs[i], d[i + 1])
    {
      assert i < |frames| ==> FrameOk(pages, frames[i], done[i + 1]);
    }
    forall i | 0 <= i < |fs| - 1
      ensures Entering(fs[i], d[i + 1], fs[i + 1].page)
    {
      assert i < |frames| - 1 ==> Entering(frames[i], done[i + 1], frames[i + 1].page);
    }
  }

  ghost function Advance(frames: seq<Frame>): seq<Frame>
    requires frames != []
  {
    var top := frames[|frames| - 1];
    frames[..|frames| - 1] + [top.(nextChild := top.nextChild + 1)]
  }

  lemma FramesPush(pages: seq<Page>, frames: seq<Frame>, done: Closed, child: nat)
    requires FramesOk(pages, frames, done, None) && frames != []
    requires var top := frames[|frames| - 1];
             top.nextChild < |top.children| && child == top.children[top.nextChild]
    ensures FramesOk(pages, Advance(frames), done, Some(child)) && Pages(Advance(frames)) == Pages(frames)
  {
    var fs := Advance(frames);
    forall i | 0 <= i < |fs|
      ensures FrameOk(pages, fs[i], done[i + 1])
    {
      assert FrameOk(pages, frames[i], done[i + 1]);
    }
    forall i | 0 <= i < |fs| - 1
      ensures Entering(fs[i], done[i + 1], fs[i + 1].page)
    {
      assert Entering(frames[i], done[i + 1], frames[i + 1].page);
    }
  }

  lemma FramesClose(pages: seq<Page>, frames: seq<Frame>, done: Closed, f: Frame, kids: seq<Tree>, tree: Tree)
    requires FramesOk(pages, frames + [f], done + [kids], None) && |done| == |frames| + 1 && tree.page == f.page
    ensures FramesOk(pages, frames, AddTree(done, tree), None)
  {
    var fs, d, added := frames + [f], done + [kids], AddTree(done, tree);
    assert frames != [] ==> Entering(fs[|frames| - 1], d[|frames|], fs[|frames|].page);
    forall i | 0 <= i < |frames|
      ensures FrameOk(pages, frames[i], added[i + 1])
    {
      assert FrameOk(pages, fs[i], d[i + 1]);
    }
    forall i | 0 <= i < |frames| - 1
      ensures Entering(frames[i], added[i + 1], frames[i + 1].page)
    {
      assert Entering(fs[i], d[i + 1], fs[i + 1].page);
    }
  }

  // ---- leaves ----------------------------------------------------------

  lemma EntryDataAdd(e: seq<Entry>, more: seq<Entry>, n: nat, t: nat, marks: seq<nat>, marks': seq<nat>)
    requires |marks| == |marks'| == n && EntryData(e, n, t, marks)
    requires DistinctIds(more) && IdsBelow(more, n)
    requires forall i :: 0 <= i < |more| ==> marks[more[i].id] != t + 1
    requires forall id :: 0 <= id < n ==> marks'[id] == if Has(more, id) then t + 1 else marks[id]
    ensures EntryData(e + more, n, t, marks')
  {
    var both := e + more;
    forall i, j | 0 <= i < j < |both|
      ensures both[i].id != both[j].id
    {
      if i < |e| <= j {
        assert Has(e, e[i].id) && marks[e[i].id] == t + 1;
        assert marks[more[j - |e|].id] != t + 1;
      }
    }
    forall id | 0 <= id < n
      ensures marks'[id] == t + 1 <==> Has(both, id)
    {
      if Has(e, id) {
        var i :| 0 <= i < |e| && e[i].id == id;
        assert both[i].id == id;
      }
      if Has(more, id) {
        var i :| 0 <= i < |more| && more[i].id == id;
        assert both[|e| + i].id == id;
      }
    }
  }

  lemma FirstLeafAdd(pages: seq<Page>, ls: seq<nat>, first: nat, p: nat)
    requires LeafPages(pages, ls) && FirstLeafOk(pages, ls, first)
    requires 0 < p < |pages| && pages[p].kind == LEAF_PAGE && pages[p].entries != []
    requires pages[p].previous == 0 ==> first == 0
    ensures LeafPages(pages, ls + [p])
    ensures FirstLeafOk(pages, ls + [p], if pages[p].previous == 0 then p else first)
  {
    var more := ls + [p];
    assert more[|ls|] == p;
  }

  /** The state after reading leaf p. */
  ghost function AfterLeaf(pages: seq<Page>, s: Dfs, t: nat, p: nat, marks: seq<nat>): Dfs
    requires p < |pages| && pages[p].entries != [] && s.stack != []
    requires |s.color| == |s.owner| == |s.heights| == |s.firsts| == |s.lasts| == |pages|
  {
    var entries := pages[p].entries;
    s.(color := s.color[p := 2], owner := s.owner[p := t], heights := s.heights[p := 0],
       firsts := s.firsts[p := entries[0]], lasts := s.lasts[p := entries[|entries| - 1]],
       marks := marks, entryCount := s.entryCount + |entries|, leafCount := s.leafCount + 1,
       firstLeaf := if pages[p].previous == 0 then p else s.firstLeaf, stack := s.stack[..|s.stack| - 1])
  }

  /** What reading a leaf checks. */
  ghost predicate LeafAccepted(pages: seq<Page>, n: nat, t: nat, s: Dfs, p: nat)
    requires p < |pages| && |s.marks| == n
  {
    var entries := pages[p].entries;
    Ordered(entries) && DistinctIds(entries) && IdsBelow(entries, n) &&
    (forall i :: 0 <= i < |entries| ==> s.marks[entries[i].id] != t + 1) &&
    (pages[p].previous == 0 ==> s.firstLeaf == 0)
  }

  lemma LeafTree(pages: seq<Page>, p: nat)
    requires 0 < p < |pages| && pages[p].kind == LEAF_PAGE && pages[p].entries != []
    ensures Represents(pages, Tree(p, [])) && TreeContents(pages, Tree(p, [])) == pages[p].entries
  {
    ContentsOne(pages, p);
  }

  lemma LeafStepColor(pages: seq<Page>, s: Dfs, t: nat, forest: seq<Tree>, path: seq<nat>, done: Closed, p: nat)
    requires |done| == |path| + 1 && |s.owner| == |s.color| && 0 < p < |s.color| && s.color[p] == 0
    requires Colored(s.color, Seen(forest, path, done), path) && OwnerInv(s.owner, t, forest, path, done)
    ensures var done' := AddTree(done, Tree(p, []));
            Colored(s.color[p := 2], Seen(forest, path, done'), path) &&
            OwnerInv(s.owner[p := t], t, forest, path, done')
  {
    SpineAdd(path, done, Tree(p, []));
    assert Preorder(Tree(p, [])) == [p];
    Associative(ForestPreorder(forest), Spine(path, done), [p]);
    ColorLeaf(s.color, Seen(forest, path, done), path, p);
    OwnedAdd(s.owner, Spine(path, done), t, p);
    ForestOwnedUnchanged(s.owner, forest, t, p);
  }

  lemma LeafStepTrees(pages: seq<Page>, n: nat, s: Dfs, t: nat, done: Closed, p: nat, marks: seq<nat>)
    requires Sized(pages, n, s) && s.stack != [] && done != [] && AllClosed(pages, s, t, done)
    requires 0 < p < |pages| && pages[p].kind == LEAF_PAGE && pages[p].entries != [] && Ordered(pages[p].entries)
    requires s.color[p] == 0
    ensures AllClosed(pages, AfterLeaf(pages, s, t, p, marks), t, AddTree(done, Tree(p, [])))
  {
    var s' := AfterLeaf(pages, s, t, p, marks);
    ClosedUnchanged(pages, s, s', t, done, p);
    LeafTree(pages, p);
    AllClosedAdd(pages, s', t, done, Tree(p, []));
  }

  lemma LeafStepData(pages: seq<Page>, n: nat, s: Dfs, t: nat, done: Closed, p: nat, marks: seq<nat>)
    requires Sized(pages, n, s) && s.stack != [] && done != [] && LeafData(pages, n, t, s, LeafSpine(done))
    requires 0 < p < |pages| && pages[p].kind == LEAF_PAGE && pages[p].entries != []
    requires LeafAccepted(pages, n, t, s, p)
    requires |marks| == n && forall id :: 0 <= id < n ==>
               marks[id] == if Has(pages[p].entries, id) then t + 1 else s.marks[id]
    ensures LeafData(pages, n, t, AfterLeaf(pages, s, t, p, marks), LeafSpine(AddTree(done, Tree(p, []))))
  {
    LeafSpineAdd(done, Tree(p, []));
    FirstLeafAdd(pages, LeafSpine(done), s.firstLeaf, p);
    ContentsSnoc(pages, LeafSpine(done), p);
    EntryDataAdd(Contents(pages, LeafSpine(done)), pages[p].entries, n, t, s.marks, marks);
  }

  lemma LeafStepShape(pages: seq<Page>, n: nat, root: nat, s: Dfs, t: nat, frames: seq<Frame>, p: nat, done: Closed,
                      marks: seq<nat>)
    requires ShapeInv(pages, n, root, s, frames, Some(p), done) && pages[p].entries != [] && |marks| == n
    ensures ShapeInv(pages, n, root, AfterLeaf(pages, s, t, p, marks), frames, None, AddTree(done, Tree(p, [])))
  {
    FramesAdd(pages, frames, done, p, Tree(p, []));
    assert s.stack[..|s.stack| - 1] == frames;
    hide FramesOk;
  }

  lemma LeafStep(pages: seq<Page>, n: nat, t: nat, root: nat, s: Dfs, forest: seq<Tree>, frames: seq<Frame>,
                 p: nat, done: Closed, marks: seq<nat>)
    requires Inv(pages, n, t, root, s, forest, frames, Some(p), done)
    requires pages[p].kind == LEAF_PAGE && pages[p].entries != [] && LeafAccepted(pages, n, t, s, p)
    requires |marks| == n && forall id :: 0 <= id < n ==>
               marks[id] == if Has(pages[p].entries, id) then t + 1 else s.marks[id]
    ensures Inv(pages, n, t, root, AfterLeaf(pages, s, t, p, marks), forest, frames, None, AddTree(done, Tree(p, [])))
  {
    assert |done| == |Pages(frames)| + 1 && Ordered(pages[p].entries);
    assert Sized(pages, n, s) && s.stack != [] && s.color[p] == 0;
    hide AllClosed, Colored, LeafData, ShapeInv, LeafAccepted, OwnerInv, Seen, LeafSpine, Spine, Pages, AddTree, Has;
    LeafStepShape(pages, n, root, s, t, frames, p, done, marks);
    LeafStepColor(pages, s, t, forest, Pages(frames), done, p);
    LeafStepTrees(pages, n, s, t, done, p, marks);
    LeafStepData(pages, n, s, t, done, p, marks);
  }

  // ---- internal pages --------------------------------------------------

  function FrameOf(pages: seq<Page>, p: nat): Frame
    requires p < |pages|
  {
    Frame(p, pages[p].children, pages[p].separators, 0)
  }

  /** The state after opening internal page p. */
  ghost function AfterOpen(pages: seq<Page>, s: Dfs, t: nat, p: nat): Dfs
    requires p < |pages| == |s.color| == |s.owner| && s.stack != []
  {
    s.(color := s.color[p := 1], owner := s.owner[p := t],
       stack := s.stack[..|s.stack| - 1] + [FrameOf(pages, p)])
  }

  ghost predicate InternalPage(pages: seq<Page>, p: nat) {
    0 < p < |pages| && pages[p].kind == INTERNAL_PAGE && |pages[p].children| >= 2 &&
    |pages[p].separators| == |pages[p].children| - 1
  }

  lemma OpenStepColor(s: Dfs, t: nat, forest: seq<Tree>, path: seq<nat>, done: Closed, p: nat)
    requires |done| == |path| + 1 && |s.owner| == |s.color| && 0 < p < |s.color| && s.color[p] == 0
    requires Colored(s.color, Seen(forest, path, done), path) && OwnerInv(s.owner, t, forest, path, done)
    ensures Colored(s.color[p := 1], Seen(forest, path + [p], done + [[]]), path + [p])
    ensures OwnerInv(s.owner[p := t], t, forest, path + [p], done + [[]])
  {
    SpineOpen(path, done, p, []);
    assert [p] + ForestPreorder([]) == [p];
    Associative(ForestPreorder(forest), Spine(path, done), [p]);
    ColorOpen(s.color, Seen(forest, path, done), path, p);
    OwnedAdd(s.owner, Spine(path, done), t, p);
    ForestOwnedUnchanged(s.owner, forest, t, p);
  }

  lemma OpenStepTrees(pages: seq<Page>, n: nat, s: Dfs, t: nat, done: Closed, p: nat)
    requires Sized(pages, n, s) && s.stack != [] && AllClosed(pages, s, t, done) && p < |pages| && s.color[p] == 0
    ensures AllClosed(pages, AfterOpen(pages, s, t, p), t, done + [[]])
  {
    var s', d := AfterOpen(pages, s, t, p), done + [[]];
    ClosedUnchanged(pages, s, s', t, done, p);
    forall i, j | 0 <= i < |d| && 0 <= j < |d[i]|
      ensures ClosedTree(pages, s', t, d[i][j])
    {
      assert i < |done| ==> d[i] == done[i];
    }
  }

  lemma OpenStepData(pages: seq<Page>, n: nat, s: Dfs, t: nat, done: Closed, p: nat)
    requires Sized(pages, n, s) && s.stack != [] && p < |pages| && LeafData(pages, n, t, s, LeafSpine(done))
    ensures LeafData(pages, n, t, AfterOpen(pages, s, t, p), LeafSpine(done + [[]]))
  {
    LeafSpineOpen(done, []);
    assert LeafSpine(done) + [] == LeafSpine(done);
  }

  lemma PagesSnoc(frames: seq<Frame>, f: Frame)
    ensures Pages(frames + [f]) == Pages(frames) + [f.page]
  {}

  lemma OpenStepShape(pages: seq<Page>, n: nat, root: nat, s: Dfs, t: nat, frames: seq<Frame>, p: nat, done: Closed)
    requires ShapeInv(pages, n, root, s, frames, Some(p), done) && InternalPage(pages, p)
    ensures ShapeInv(pages, n, root, AfterOpen(pages, s, t, p), frames + [FrameOf(pages, p)], None, done + [[]])
  {
    assert FrameOk(pages, FrameOf(pages, p), []);
    FramesOpen(pages, frames, done, FrameOf(pages, p));
    assert s.stack[..|s.stack| - 1] == frames;
    hide FramesOk;
  }

  lemma OpenStep(pages: seq<Page>, n: nat, t: nat, root: nat, s: Dfs, forest: seq<Tree>, frames: seq<Frame>,
                 p: nat, done: Closed)
    requires Inv(pages, n, t, root, s, forest, frames, Some(p), done) && InternalPage(pages, p)
    ensures Inv(pages, n, t, root, AfterOpen(pages, s, t, p), forest, frames + [FrameOf(pages, p)], None, done + [[]])
  {
    assert |done| == |Pages(frames)| + 1;
    assert Sized(pages, n, s) && s.stack != [] && s.color[p] == 0;
    hide AllClosed, Colored, LeafData, ShapeInv, OwnerInv, Seen, LeafSpine, Spine, Pages;
    PagesSnoc(frames, FrameOf(pages, p));
    OpenStepShape(pages, n, root, s, t, frames, p, done);
    OpenStepColor(s, t, forest, Pages(frames), done, p);
    OpenStepTrees(pages, n, s, t, done, p);
    OpenStepData(pages, n, s, t, done, p);
  }

  // ---- entering a child ------------------------------------------------

  lemma PushStep(pages: seq<Page>, n: nat, t: nat, root: nat, s: Dfs, forest: seq<Tree>, frames: seq<Frame>,
                 done: Closed, child: nat)
    requires Inv(pages, n, t, root, s, forest, frames, None, done) && frames != []
    requires var top := frames[|frames| - 1];
             top.nextChild < |top.children| && child == top.children[top.nextChild]
    requires 0 < child < |pages| && s.color[child] == 0
    ensures Inv(pages, n, t, root, s.(stack := Advance(frames) + [Frame(child, [], [], 0)]), forest,
                Advance(frames), Some(child), done)
  {
    FramesPush(pages, frames, done, child);
    hide Colored, FramesOk, OwnerInv, Seen, LeafSpine, Spine, Pages, Represents, FirstEntry, LastEntry, TreeContents;
  }

  // ---- closing a page --------------------------------------------------

  /** The state after closing page p over its children kids. */
  ghost function AfterClose(pages: seq<Page>, s: Dfs, p: nat, kids: seq<nat>): Dfs
    requires |s.color| == |s.owner| == |s.heights| == |s.firsts| == |s.lasts| == |pages|
    requires p < |pages| && s.stack != [] && kids != [] && forall i :: 0 <= i < |kids| ==> kids[i] < |pages|
  {
    s.(color := s.color[p := 2], heights := s.heights[p := s.heights[kids[0]] + 1],
       firsts := s.firsts[p := s.firsts[kids[0]]], lasts := s.lasts[p := s.lasts[kids[|kids| - 1]]],
       stack := s.stack[..|s.stack| - 1])
  }

  /** What closing a page checks of its children. */
  ghost predicate KidsAccepted(pages: seq<Page>, s: Dfs, kids: seq<nat>, separators: seq<real>)
    requires |s.color| == |s.owner| == |s.heights| == |s.firsts| == |s.lasts| == |pages|
    requires (forall i :: 0 <= i < |kids| ==> kids[i] < |pages|) && |separators| + 1 == |kids|
  {
    forall i :: 0 < i < |kids| ==>
      s.heights[kids[i]] == s.heights[kids[0]] && KeyLess(s.lasts[kids[i - 1]], s.firsts[kids[i]]) &&
      separators[i - 1] == s.firsts[kids[i]].value
  }

  ghost predicate KidsClosed(pages: seq<Page>, s: Dfs, t: nat, kids: seq<Tree>)
    requires |s.color| == |s.owner| == |s.heights| == |s.firsts| == |s.lasts| == |pages|
  {
    forall j :: 0 <= j < |kids| ==> ClosedTree(pages, s, t, kids[j])
  }

  lemma InternalEnds(pages: seq<Page>, p: nat, kids: seq<Tree>)
    requires kids != []
    ensures FirstEntry(pages, Tree(p, kids)) == FirstEntry(pages, kids[0])
    ensures LastEntry(pages, Tree(p, kids)) == LastEntry(pages, kids[|kids| - 1])
  {
    ForestOne(kids[0]);
    HeadSplit(kids);
    assert ForestLeaves(kids) == ForestLeaves(kids[..|kids| - 1]) + Leaves(kids[|kids| - 1]);
  }

  lemma KidFacts(pages: seq<Page>, s: Dfs, t: nat, kids: seq<Tree>, i: nat)
    requires |s.color| == |s.owner| == |s.heights| == |s.firsts| == |s.lasts| == |pages|
    requires KidsClosed(pages, s, t, kids) && i < |kids|
    ensures Represents(pages, kids[i]) && Ordered(TreeContents(pages, kids[i])) && kids[i].page < |pages|
    ensures s.heights[kids[i].page] == Height(kids[i])
    ensures s.firsts[kids[i].page] == FirstEntry(pages, kids[i]) && s.lasts[kids[i].page] == LastEntry(pages, kids[i])
  {
    assert ClosedTree(pages, s, t, kids[i]);
  }

  /** What accepting a child says about it and the one before. */
  lemma KidBeside(pages: seq<Page>, s: Dfs, t: nat, kids: seq<Tree>, separators: seq<real>, i: nat)
    requires |s.color| == |s.owner| == |s.heights| == |s.firsts| == |s.lasts| == |pages|
    requires KidsClosed(pages, s, t, kids) && 0 < i < |kids| && |separators| + 1 == |kids|
    requires (forall j :: 0 <= j < |kids| ==> kids[j].page < |pages|) && KidsAccepted(pages, s, Roots(kids), separators)
    ensures KeyLess(LastEntry(pages, kids[i - 1]), FirstEntry(pages, kids[i]))
    ensures Height(kids[i]) == Height(kids[0]) && separators[i - 1] == FirstEntry(pages, kids[i]).value
  {
    KidFacts(pages, s, t, kids, 0);
    KidFacts(pages, s, t, kids, i - 1);
    KidFacts(pages, s, t, kids, i);
    assert Roots(kids)[0] == kids[0].page && Roots(kids)[i - 1] == kids[i - 1].page && Roots(kids)[i] == kids[i].page;
    hide Represents, Ordered, FirstEntry, LastEntry, Height, ClosedTree, KidsClosed;
  }

  lemma ParentRepresents(pages: seq<Page>, p: nat, kids: seq<Tree>)
    requires InternalPage(pages, p) && pages[p].children == Roots(kids)
    requires forall i :: 0 <= i < |kids| ==> Represents(pages, kids[i]) && Height(kids[i]) == Height(kids[0])
    requires forall i :: 0 < i < |kids| ==> pages[p].separators[i - 1] == FirstEntry(pages, kids[i]).value
    ensures Represents(pages, Tree(p, kids)) && Height(Tree(p, kids)) == Height(kids[0]) + 1
  {
    hide FirstEntry;
  }

  lemma ParentContents(pages: seq<Page>, p: nat, kids: seq<Tree>)
    requires AllRepresented(pages, kids) && Represents(pages, Tree(p, kids)) && kids != []
    ensures TreeContents(pages, Tree(p, kids)) == ForestContents(pages, kids)
  {}

  /** Accepted children make a represented, sorted parent. */
  lemma CloseTree(pages: seq<Page>, s: Dfs, t: nat, p: nat, kids: seq<Tree>)
    requires |s.color| == |s.owner| == |s.heights| == |s.firsts| == |s.lasts| == |pages|
    requires InternalPage(pages, p) && pages[p].children == Roots(kids) && KidsClosed(pages, s, t, kids)
    requires (forall j :: 0 <= j < |kids| ==> kids[j].page < |pages|) &&
             KidsAccepted(pages, s, Roots(kids), pages[p].separators)
    ensures Represents(pages, Tree(p, kids)) && Ordered(TreeContents(pages, Tree(p, kids)))
    ensures Height(Tree(p, kids)) == s.heights[kids[0].page] + 1
    ensures FirstEntry(pages, Tree(p, kids)) == s.firsts[kids[0].page]
    ensures LastEntry(pages, Tree(p, kids)) == s.lasts[kids[|kids| - 1].page]
  {
    assert |kids| == |Roots(kids)| >= 2;
    hide Represents, FirstEntry, LastEntry, Height, Ordered, KidsClosed, KidsAccepted, Roots, TreeContents,
         ForestContents;
    forall i | 0 <= i < |kids|
      ensures Represents(pages, kids[i]) && Ordered(TreeContents(pages, kids[i])) && Height(kids[i]) == Height(kids[0])
    {
      KidFacts(pages, s, t, kids, i);
      if i > 0 {
        KidBeside(pages, s, t, kids, pages[p].separators, i);
      }
    }
    forall i | 0 < i < |kids|
      ensures KeyLess(LastEntry(pages, kids[i - 1]), FirstEntry(pages, kids[i]))
      ensures pages[p].separators[i - 1] == FirstEntry(pages, kids[i]).value
    {
      KidBeside(pages, s, t, kids, pages[p].separators, i);
    }
    ParentRepresents(pages, p, kids);
    ParentContents(pages, p, kids);
    OrderedForest(pages, kids);
    InternalEnds(pages, p, kids);
    KidFacts(pages, s, t, kids, 0);
    KidFacts(pages, s, t, kids, |kids| - 1);
  }

  lemma CloseStepColor(s: Dfs, t: nat, forest: seq<Tree>, path: seq<nat>, done: Closed, p: nat, kids: seq<Tree>)
    requires |done| == |path| + 1 && p < |s.color|
    requires Colored(s.color, Seen(forest, path + [p], done + [kids]), path + [p])
    requires OwnerInv(s.owner, t, forest, path + [p], done + [kids])
    ensures Colored(s.color[p := 2], Seen(forest, path, AddTree(done, Tree(p, kids))), path) && s.color[p] == 1
    ensures OwnerInv(s.owner, t, forest, path, AddTree(done, Tree(p, kids)))
    ensures p < |s.owner| && s.owner[p] == t
  {
    SpineClose(path, done, p, kids);
    SpineOpen(path, done, p, kids);
    assert p in Spine(path + [p], done + [kids]);
    ColorClose(s.color, Seen(forest, path + [p], done + [kids]), path, p);
  }

  lemma CloseStepTrees(pages: seq<Page>, n: nat, s: Dfs, t: nat, done: Closed, p: nat, kids: seq<Tree>)
    requires Sized(pages, n, s) && s.stack != [] && done != [] && AllClosed(pages, s, t, done + [kids])
    requires InternalPage(pages, p) && pages[p].children == Roots(kids) && s.color[p] == 1 && s.owner[p] == t
    requires (forall j :: 0 <= j < |kids| ==> kids[j].page < |pages|) &&
             KidsAccepted(pages, s, Roots(kids), pages[p].separators)
    ensures AllClosed(pages, AfterClose(pages, s, p, Roots(kids)), t, AddTree(done, Tree(p, kids)))
  {
    var s' := AfterClose(pages, s, p, Roots(kids));
    assert AllClosed(pages, s, t, done) && KidsClosed(pages, s, t, kids) by {
      var d := done + [kids];
      assert forall i :: 0 <= i < |done| ==> d[i] == done[i];
      assert d[|done|] == kids;
    }
    CloseTree(pages, s, t, p, kids);
    hide KidsAccepted, KidsClosed, Represents, TreeContents, FirstEntry, LastEntry, Height;
    ClosedUnchanged(pages, s, s', t, done, p);
    AllClosedAdd(pages, s', t, done, Tree(p, kids));
  }

  lemma CloseStepData(pages: seq<Page>, n: nat, s: Dfs, t: nat, done: Closed, p: nat, kids: seq<Tree>)
    requires Sized(pages, n, s) && s.stack != [] && done != [] && kids != []
    requires p < |pages| && forall j :: 0 <= j < |kids| ==> kids[j].page < |pages|
    requires LeafData(pages, n, t, s, LeafSpine(done + [kids]))
    ensures LeafData(pages, n, t, AfterClose(pages, s, p, Roots(kids)), LeafSpine(AddTree(done, Tree(p, kids))))
  {
    LeafSpineOpen(done, kids);
    LeafSpineAdd(done, Tree(p, kids));
  }

  lemma CloseStepShape(pages: seq<Page>, n: nat, root: nat, s: Dfs, frames: seq<Frame>, f: Frame, done: Closed,
                       kids: seq<Tree>)
    requires ShapeInv(pages, n, root, s, frames + [f], None, done + [kids]) && |done| == |frames| + 1
    requires kids != [] && (forall j :: 0 <= j < |kids| ==> kids[j].page < |pages|) && f.page < |pages|
    ensures ShapeInv(pages, n, root, AfterClose(pages, s, f.page, Roots(kids)), frames, None,
                     AddTree(done, Tree(f.page, kids)))
  {
    FramesClose(pages, frames, done, f, kids, Tree(f.page, kids));
    assert s.stack[..|s.stack| - 1] == frames;
    assert (frames + [f])[0] == (if frames == [] then f else frames[0]);
    assert (done + [kids])[0] == done[0];
    hide FramesOk;
  }

  lemma CloseStep(pages: seq<Page>, n: nat, t: nat, root: nat, s: Dfs, forest: seq<Tree>, frames: seq<Frame>,
                  f: Frame, done: Closed, kids: seq<Tree>)
    requires Inv(pages, n, t, root, s, forest, frames + [f], None, done + [kids]) && |done| == |frames| + 1
    requires InternalPage(pages, f.page) && pages[f.page].children == Roots(kids)
    requires (forall j :: 0 <= j < |kids| ==> kids[j].page < |pages|) && Sized(pages, n, s) && s.stack != []
    requires KidsAccepted(pages, s, Roots(kids), pages[f.page].separators)
    ensures Inv(pages, n, t, root, AfterClose(pages, s, f.page, Roots(kids)), forest, frames, None,
                AddTree(done, Tree(f.page, kids)))
  {
    hide AllClosed, Colored, LeafData, ShapeInv, OwnerInv, Seen, LeafSpine, Spine, Pages, KidsAccepted;
    PagesSnoc(frames, f);
    assert |Pages(frames)| == |frames| by { PagesSize(frames); }
    assert Roots(kids) != [];
    CloseStepColor(s, t, forest, Pages(frames), done, f.page, kids);
    CloseStepShape(pages, n, root, s, frames, f, done, kids);
    CloseStepTrees(pages, n, s, t, done, f.page, kids);
    CloseStepData(pages, n, s, t, done, f.page, kids);
  }

  lemma PagesSize(frames: seq<Frame>)
    ensures |Pages(frames)| == |frames|
  {}
}
