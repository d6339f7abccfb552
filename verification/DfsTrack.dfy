/** When the heap does hold a valid forest, the search follows it: every page it
    reaches is the top of the expected subtree, and every check it makes passes. */
module DfsTrack {
  import opened Tables
  import opened PageTree
  import opened TreeOrder
  import opened DfsSpec
  import opened DfsState
  import opened DfsSteps

  ghost predicate Track(tree: Tree, path: seq<nat>, next: Option<nat>, done: Closed, goals: seq<Tree>) {
    if path == [] then
      goals == [] && |done| == 1 &&
      if next.Some? then done[0] == [] && next.value == tree.page else done[0] == [tree]
    else
      OnPath(tree, path, done, goals) &&
      (next.Some? ==> Left(done, goals) != [] && Left(done, goals)[0].page == next.value)
  }

  ghost function NextTree(tree: Tree, path: seq<nat>, next: Option<nat>, done: Closed, goals: seq<Tree>): (t: Tree)
    requires Track(tree, path, next, done, goals) && next.Some?
    ensures t.page == next.value
  {
    if path == [] then tree else Left(done, goals)[0]
  }

  /** What was seen, then the next subtree, then the rest. */
  lemma NextInPreorder(tree: Tree, path: seq<nat>, next: Option<nat>, done: Closed, goals: seq<Tree>)
    returns (tail: seq<nat>)
    requires Track(tree, path, next, done, goals) && next.Some?
    ensures |done| == |path| + 1
    ensures Preorder(tree) == Spine(path, done) + (Preorder(NextTree(tree, path, next, done, goals)) + tail)
  {
    if path == [] {
      tail := [];
      assert Spine(path, done) == [];
      assert [] + (Preorder(tree) + []) == Preorder(tree);
    } else {
      var tail' := SpineIsPrefix(tree, path, done, goals);
      var left := Left(done, goals);
      HeadSplit(left);
      tail := ForestPreorder(left[1..]) + tail';
      Associative(Preorder(left[0]), ForestPreorder(left[1..]), tail');
    }
  }

  lemma NextInLeaves(tree: Tree, path: seq<nat>, next: Option<nat>, done: Closed, goals: seq<Tree>)
    returns (tail: seq<nat>)
    requires Track(tree, path, next, done, goals) && next.Some?
    ensures Leaves(tree) == LeafSpine(done) + (Leaves(NextTree(tree, path, next, done, goals)) + tail)
  {
    if path == [] {
      tail := [];
      LeafSpineOpen([], []);
      assert done == [] + [[]] && LeafSpine(done) == [];
      assert [] + (Leaves(tree) + []) == Leaves(tree);
    } else {
      var tail' := LeafSpineIsPrefix(tree, path, done, goals);
      var left := Left(done, goals);
      HeadSplit(left);
      tail := ForestLeaves(left[1..]) + tail';
      Associative(Leaves(left[0]), ForestLeaves(left[1..]), tail');
    }
  }

  lemma NoDuplicatesParts(a: seq<nat>, b: seq<nat>, x: nat, c: seq<nat>)
    requires NoDuplicates(a + (b + ([x] + c)))
    ensures x !in a + b
  {
    var all := a + (b + ([x] + c));
    assert all[|a| + |b|] == x;
    forall i | 0 <= i < |a + b|
      ensures (a + b)[i] != x
    {
      assert (a + b)[i] == all[i];
    }
  }

  /** The next page of a valid forest has not been seen. */
  lemma NextIsNew(w: seq<Tree>, t: nat, path: seq<nat>, next: Option<nat>, done: Closed, goals: seq<Tree>)
    requires NoDuplicates(ForestPreorder(w)) && t < |w|
    requires Track(w[t], path, next, done, goals) && next.Some?
    ensures |done| == |path| + 1 && next.value !in Seen(w[..t], path, done)
  {
    var tail := NextInPreorder(w[t], path, next, done, goals);
    var x := NextTree(w[t], path, next, done, goals);
    var after := ForestPreorder(w[t..][1..]);
    KidsSplit(w, t);
    HeadSplit(w[t..]);
    var seen, rest := Spine(path, done), ForestPreorder(x.kids) + tail;
    Associative([x.page], ForestPreorder(x.kids), tail);
    Associative(seen, [x.page] + rest, after);
    Associative([x.page], rest, after);
    NoDuplicatesParts(ForestPreorder(w[..t]), seen, x.page, rest + after);
  }

  lemma {:induction false} GoalRepresented(pages: seq<Page>, tree: Tree, path: seq<nat>, done: Closed, goals: seq<Tree>,
                                           i: nat)
    requires Represents(pages, tree) && OnPath(tree, path, done, goals) && i < |goals|
    ensures Represents(pages, goals[i])
  {
    if i == 0 {
    } else {
      GoalRepresented(pages, tree, path, done, goals, i - 1);
      assert Down(goals[i - 1], done[i], goals[i]);
    }
  }

  lemma NextRepresented(pages: seq<Page>, tree: Tree, path: seq<nat>, next: Option<nat>, done: Closed, goals: seq<Tree>)
    requires Represents(pages, tree) && Track(tree, path, next, done, goals) && next.Some?
    ensures Represents(pages, NextTree(tree, path, next, done, goals))
  {
    if path != [] {
      GoalRepresented(pages, tree, path, done, goals, |goals| - 1);
      assert Left(done, goals)[0] == goals[|goals| - 1].kids[|done[|done| - 1]|];
    }
  }

  // ---- the path moves with the search ----------------------------------

  lemma OnPathAdd(tree: Tree, path: seq<nat>, done: Closed, goals: seq<Tree>)
    requires OnPath(tree, path, done, goals) && Left(done, goals) != []
    ensures OnPath(tree, path, AddTree(done, Left(done, goals)[0]), goals)
  {
    var x := Left(done, goals)[0];
    var added, d, goal := AddTree(done, x), done[|done| - 1], goals[|goals| - 1];
    assert Level(goal, path[|path| - 1], d);
    assert d + [x] == goal.kids[..|d| + 1];
    forall i | 0 <= i < |path|
      ensures Level(goals[i], path[i], added[i + 1])
    {
      assert Level(goals[i], path[i], done[i + 1]);
    }
    forall i | 0 < i < |path|
      ensures Down(goals[i - 1], added[i], goals[i])
    {
      assert Down(goals[i - 1], done[i], goals[i]);
    }
  }

  lemma TrackAdd(tree: Tree, path: seq<nat>, next: Option<nat>, done: Closed, goals: seq<Tree>)
    requires Track(tree, path, next, done, goals) && next.Some?
    ensures Track(tree, path, None, AddTree(done, NextTree(tree, path, next, done, goals)), goals)
  {
    if path != [] {
      OnPathAdd(tree, path, done, goals);
    } else {
      assert [] + [tree] == [tree];
    }
  }

  lemma TrackOpen(tree: Tree, path: seq<nat>, next: Option<nat>, done: Closed, goals: seq<Tree>)
    requires Track(tree, path, next, done, goals) && next.Some?
    requires NextTree(tree, path, next, done, goals).kids != []
    ensures Track(tree, path + [next.value], None, done + [[]], goals + [NextTree(tree, path, next, done, goals)])
  {
    var x := NextTree(tree, path, next, done, goals);
    assert x.kids[..0] == [];
    assert Level(x, next.value, []);
    var path', done', goals' := path + [next.value], done + [[]], goals + [x];
    forall i | 0 <= i < |path'|
      ensures Level(goals'[i], path'[i], done'[i + 1])
    {
      assert i < |path| ==> Level(goals[i], path[i], done[i + 1]);
    }
    forall i | 0 < i < |path'|
      ensures Down(goals'[i - 1], done'[i], goals'[i])
    {
      assert i < |path| ==> Down(goals[i - 1], done[i], goals[i]);
    }
  }

  lemma TrackPush(pages: seq<Page>, tree: Tree, path: seq<nat>, done: Closed, goals: seq<Tree>)
    requires Represents(pages, tree) && Track(tree, path, None, done, goals) && path != []
    ensures var p, d := path[|path| - 1], done[|done| - 1];
            p < |pages| && |d| <= |pages[p].children| == |goals[|goals| - 1].kids| &&
            (|d| < |pages[p].children| ==> Track(tree, path, Some(pages[p].children[|d|]), done, goals)) &&
            (|d| == |pages[p].children| ==> d == goals[|goals| - 1].kids)
  {
    GoalRepresented(pages, tree, path, done, goals, |goals| - 1);
    var goal, d := goals[|goals| - 1], done[|done| - 1];
    assert |d| == |goal.kids| ==> goal.kids[..|d|] == goal.kids;
  }

  lemma TrackClose(tree: Tree, path: seq<nat>, p: nat, done: Closed, kids: seq<Tree>, goals: seq<Tree>)
    requires Track(tree, path + [p], None, done + [kids], goals) && |done| == |path| + 1
    requires goals != [] && kids == goals[|goals| - 1].kids
    ensures Track(tree, path, None, AddTree(done, Tree(p, kids)), goals[..|goals| - 1])
  {
    var goal, above := goals[|goals| - 1], goals[..|goals| - 1];
    assert Level(goal, (path + [p])[|path|], (done + [kids])[|path| + 1]);
    assert goal == Tree(p, kids);
    assert (done + [kids])[..|done|] == done;
    if path == [] {
      assert done[0] == (done + [kids])[0];
      assert [] + [tree] == [tree];
    } else {
      OnPathFront(tree, path + [p], done + [kids], goals);
      assert (path + [p])[..|path|] == path;
      OnPathAdd(tree, path, done, above);
    }
  }

  // ---- every check passes on a valid forest ----------------------------

  lemma DistinctParts(a: seq<Entry>, b: seq<Entry>, c: seq<Entry>, n: nat)
    requires DistinctIds(a + (b + c)) && IdsBelow(a + (b + c), n)
    ensures DistinctIds(b) && IdsBelow(b, n)
    ensures forall i :: 0 <= i < |b| ==> !Has(a, b[i].id)
  {
    var all := a + (b + c);
    forall i, j | 0 <= i < j < |b|
      ensures b[i].id != b[j].id
    {
      assert all[|a| + i] == b[i] && all[|a| + j] == b[j];
    }
    forall i | 0 <= i < |b|
      ensures !Has(a, b[i].id) && b[i].id < n
    {
      assert all[|a| + i] == b[i];
      assert forall j :: 0 <= j < |a| ==> all[j] == a[j];
    }
  }

  lemma LinkedMiddle(pages: seq<Page>, ls: seq<nat>, a: seq<nat>, p: nat, tail: seq<nat>)
    requires LeafPages(pages, ls) && Linked(pages, ls) && ls == a + ([p] + tail)
    ensures p < |pages| && (pages[p].previous == 0 ==> a == [])
  {
    assert ls[|a|] == p && LinkedAt(pages, ls, |a|);
    assert a != [] ==> 0 < ls[|a| - 1];
  }

  /** The contents of the table around the next leaf. */
  lemma ContentsAround(pages: seq<Page>, ls: seq<nat>, a: seq<nat>, b: seq<nat>, tail: seq<nat>)
    requires InHeap(pages, ls) && ls == a + (b + tail)
    ensures InHeap(pages, a) && InHeap(pages, b) && InHeap(pages, tail)
    ensures Contents(pages, ls) == Contents(pages, a) + (Contents(pages, b) + Contents(pages, tail))
  {
    forall k | 0 <= k < |a|
      ensures a[k] < |pages|
    {
      assert a[k] == ls[k];
    }
    forall k | 0 <= k < |b|
      ensures b[k] < |pages|
    {
      assert b[k] == ls[|a| + k];
    }
    forall k | 0 <= k < |tail|
      ensures tail[k] < |pages|
    {
      assert tail[k] == ls[|a| + |b| + k];
    }
    ContentsConcat(pages, b, tail);
    ContentsConcat(pages, a, b + tail);
  }

  lemma OrderedMiddle(a: seq<Entry>, b: seq<Entry>, c: seq<Entry>)
    requires Ordered(a + (b + c))
    ensures Ordered(b)
  {
    OrderedParts(a, b + c);
    OrderedParts(b, c);
  }

  /** A leaf the search reaches on a valid forest is accepted. */
  lemma LeafPasses(pages: seq<Page>, n: nat, t: nat, s: Dfs, tree: Tree, root: nat, path: seq<nat>, p: nat,
                   done: Closed, goals: seq<Tree>)
    requires |s.marks| == n && LeafData(pages, n, t, s, LeafSpine(done))
    requires ValidTableTree(pages, root, n, tree) && Track(tree, path, Some(p), done, goals)
    requires 0 < p < |pages| && pages[p].kind == LEAF_PAGE
    ensures LeafAccepted(pages, n, t, s, p) && NextTree(tree, path, Some(p), done, goals) == Tree(p, [])
  {
    var x := NextTree(tree, path, Some(p), done, goals);
    NextRepresented(pages, tree, path, Some(p), done, goals);
    assert x == Tree(p, []);
    var tail := NextInLeaves(tree, path, Some(p), done, goals);
    var ls, a := Leaves(tree), LeafSpine(done);
    LinkedMiddle(pages, ls, a, p, tail);
    ContentsAround(pages, ls, a, [p], tail);
    ContentsOne(pages, p);
    hide Represents, NextTree, LeafSpine, Leaves, Track, Linked, Contents;
    OrderedMiddle(Contents(pages, a), pages[p].entries, Contents(pages, tail));
    DistinctParts(Contents(pages, a), pages[p].entries, Contents(pages, tail), n);
  }

  lemma FirstBeforeLast(pages: seq<Page>, t: Tree)
    requires Represents(pages, t) && Ordered(TreeContents(pages, t))
    ensures FirstEntry(pages, t).value <= LastEntry(pages, t).value
  {
    TreeEnds(pages, t);
    var c := TreeContents(pages, t);
    assert |c| == 1 || KeyLess(c[0], c[|c| - 1]);
  }

  lemma {:induction false} OrderedKid(pages: seq<Page>, ts: seq<Tree>, i: nat)
    requires AllRepresented(pages, ts) && Ordered(ForestContents(pages, ts)) && i < |ts|
    ensures Ordered(TreeContents(pages, ts[i]))
  {
    var front, last := ts[..|ts| - 1], ts[|ts| - 1];
    ForestContentsSnoc(pages, front, last);
    assert ts == front + [last];
    OrderedParts(ForestContents(pages, front), TreeContents(pages, last));
    if i < |ts| - 1 {
      OrderedKid(pages, front, i);
    }
  }

  ghost predicate Nondecreasing(values: seq<real>) {
    forall i :: 0 < i < |values| ==> values[i - 1] <= values[i]
  }

  /** An internal page the search reaches on a valid forest is well formed, with
      children in range and separators in order. */
  lemma OpenPasses(pages: seq<Page>, n: nat, tree: Tree, root: nat, path: seq<nat>, p: nat, done: Closed,
                   goals: seq<Tree>)
    requires ValidTableTree(pages, root, n, tree) && Track(tree, path, Some(p), done, goals)
    requires 0 < p < |pages| && pages[p].kind == INTERNAL_PAGE
    ensures InternalPage(pages, p) && NextTree(tree, path, Some(p), done, goals).kids != []
    ensures forall i :: 0 <= i < |pages[p].children| ==> 0 < pages[p].children[i] < |pages|
    ensures Nondecreasing(pages[p].separators)
  {
    var x := NextTree(tree, path, Some(p), done, goals);
    NextRepresented(pages, tree, path, Some(p), done, goals);
    var kids := x.kids;
    assert kids != [];
    assert forall i :: 0 <= i < |kids| ==> Represents(pages, kids[i]) && pages[p].children[i] == kids[i].page;
    var tail := NextInLeaves(tree, path, Some(p), done, goals);
    ContentsAround(pages, Leaves(tree), LeafSpine(done), Leaves(x), tail);
    OrderedMiddle(Contents(pages, LeafSpine(done)), Contents(pages, Leaves(x)), Contents(pages, tail));
    assert Ordered(ForestContents(pages, kids));
    KidsNondecreasing(pages, kids);
    forall i | 0 < i < |pages[p].separators|
      ensures pages[p].separators[i - 1] <= pages[p].separators[i]
    {
      assert FirstEntry(pages, kids[i]).value <= FirstEntry(pages, kids[i + 1]).value;
    }
  }

  lemma KidsNondecreasing(pages: seq<Page>, kids: seq<Tree>)
    requires AllRepresented(pages, kids) && Ordered(ForestContents(pages, kids))
    ensures forall i :: 0 <= i < |kids| - 1 ==> FirstEntry(pages, kids[i]).value <= FirstEntry(pages, kids[i + 1]).value
  {
    AdjacentForest(pages, kids);
    forall i | 0 <= i < |kids| - 1
      ensures FirstEntry(pages, kids[i]).value <= FirstEntry(pages, kids[i + 1]).value
    {
      OrderedKid(pages, kids, i);
      FirstBeforeLast(pages, kids[i]);
      assert KeyLess(LastEntry(pages, kids[i + 1 - 1]), FirstEntry(pages, kids[i + 1]));
    }
  }

  /** A page the search closes on a valid forest has acceptable children. */
  lemma KidsPass(pages: seq<Page>, n: nat, t: nat, s: Dfs, tree: Tree, root: nat, path: seq<nat>, p: nat,
                 done: Closed, kids: seq<Tree>, goals: seq<Tree>)
    requires Sized(pages, n, s) && KidsClosed(pages, s, t, kids) && |done| == |path| + 1
    requires ValidTableTree(pages, root, n, tree) && Track(tree, path + [p], None, done + [kids], goals)
    requires goals != [] && kids == goals[|goals| - 1].kids && 0 < p < |pages|
    ensures goals[|goals| - 1].page == p && |pages[p].separators| + 1 == |kids|
    ensures forall j :: 0 <= j < |kids| ==> kids[j].page < |pages|
    ensures KidsAccepted(pages, s, Roots(kids), pages[p].separators)
  {
    GoalRepresented(pages, tree, path + [p], done + [kids], goals, |goals| - 1);
    var goal := goals[|goals| - 1];
    assert Level(goal, (path + [p])[|path|], (done + [kids])[|path| + 1]);
    var tail := LeafSpineIsPrefix(tree, path + [p], done + [kids], goals);
    LeafSpineOpen(done, kids);
    assert Left(done + [kids], goals) == [];
    ClosingLeaves(LeafSpine(done), ForestLeaves(kids), tail);
    ContentsAround(pages, Leaves(tree), LeafSpine(done), ForestLeaves(kids), tail);
    OrderedMiddle(Contents(pages, LeafSpine(done)), Contents(pages, ForestLeaves(kids)), Contents(pages, tail));
    KidsFacts(pages, n, t, s, goal);
  }

  lemma ClosingLeaves(a: seq<nat>, b: seq<nat>, tail: seq<nat>)
    ensures (a + b) + (ForestLeaves([]) + tail) == a + (b + tail)
  {}

  lemma KidsFacts(pages: seq<Page>, n: nat, t: nat, s: Dfs, goal: Tree)
    requires Sized(pages, n, s) && KidsClosed(pages, s, t, goal.kids)
    requires Represents(pages, goal) && goal.kids != [] && Ordered(ForestContents(pages, goal.kids))
    ensures |pages[goal.page].separators| + 1 == |goal.kids|
    ensures forall j :: 0 <= j < |goal.kids| ==> goal.kids[j].page < |pages|
    ensures KidsAccepted(pages, s, Roots(goal.kids), pages[goal.page].separators)
  {
    var kids := goal.kids;
    AdjacentForest(pages, kids);
    forall i | 0 < i < |kids|
      ensures s.heights[kids[i].page] == s.heights[kids[0].page] &&
              KeyLess(s.lasts[kids[i - 1].page], s.firsts[kids[i].page]) &&
              pages[goal.page].separators[i - 1] == s.firsts[kids[i].page].value
    {
      assert ClosedTree(pages, s, t, kids[0]) && ClosedTree(pages, s, t, kids[i - 1]) &&
             ClosedTree(pages, s, t, kids[i]);
    }
  }
}
