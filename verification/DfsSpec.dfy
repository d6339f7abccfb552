/** What the validator's depth-first search knows half way through a tree: the
    path of open pages, the subtrees already closed beside it, and how both sit in
    the preorder and the leaf order of the tree being discovered. */
module DfsSpec {
  import opened PageTree

  /** Slot 0 holds trees closed below no open page, slot i + 1 those closed below
      the i-th open page. */
  type Closed = seq<seq<Tree>>

  /** The pages seen so far, in the order they were seen. */
  ghost function Spine(path: seq<nat>, done: Closed): seq<nat>
    requires |done| == |path| + 1
    decreases |path|
  {
    if path == [] then ForestPreorder(done[0])
    else Spine(path[..|path| - 1], done[..|done| - 1]) + ([path[|path| - 1]] + ForestPreorder(done[|done| - 1]))
  }

  ghost function LeafSpine(done: Closed): seq<nat> {
    if done == [] then [] else LeafSpine(done[..|done| - 1]) + ForestLeaves(done[|done| - 1])
  }

  ghost function AddTree(done: Closed, t: Tree): (r: Closed)
    requires done != []
    ensures |r| == |done|
  {
    done[..|done| - 1] + [done[|done| - 1] + [t]]
  }

  lemma SpineAdd(path: seq<nat>, done: Closed, t: Tree)
    requires |done| == |path| + 1
    ensures Spine(path, AddTree(done, t)) == Spine(path, done) + Preorder(t)
  {
    var front, last := done[..|done| - 1], done[|done| - 1];
    var added := AddTree(done, t);
    assert added[..|added| - 1] == front && added[|added| - 1] == last + [t];
    ForestPreorderSnoc(last, t);
    if path == [] {
      assert added[0] == last + [t];
    } else {
      var before, p := Spine(path[..|path| - 1], front), [path[|path| - 1]];
      Associative(p, ForestPreorder(last), Preorder(t));
      Associative(before, p + ForestPreorder(last), Preorder(t));
    }
  }

  lemma SpineOpen(path: seq<nat>, done: Closed, p: nat, kids: seq<Tree>)
    requires |done| == |path| + 1
    ensures Spine(path + [p], done + [kids]) == Spine(path, done) + ([p] + ForestPreorder(kids))
  {
    assert (path + [p])[..|path|] == path && (done + [kids])[..|done|] == done;
  }

  lemma SpineClose(path: seq<nat>, done: Closed, p: nat, kids: seq<Tree>)
    requires |done| == |path| + 1
    ensures Spine(path + [p], done + [kids]) == Spine(path, AddTree(done, Tree(p, kids)))
  {
    SpineOpen(path, done, p, kids);
    SpineAdd(path, done, Tree(p, kids));
  }

  lemma LeafSpineAdd(done: Closed, t: Tree)
    requires done != []
    ensures LeafSpine(AddTree(done, t)) == LeafSpine(done) + Leaves(t)
  {
    var front, last := done[..|done| - 1], done[|done| - 1];
    var added := AddTree(done, t);
    assert added[..|added| - 1] == front && added[|added| - 1] == last + [t];
    ForestLeavesSnoc(last, t);
    Associative(LeafSpine(front), ForestLeaves(last), Leaves(t));
  }

  lemma LeafSpineOpen(done: Closed, kids: seq<Tree>)
    ensures LeafSpine(done + [kids]) == LeafSpine(done) + ForestLeaves(kids)
  {
    assert (done + [kids])[..|done|] == done;
  }

  // ---- the path inside a tree that is known to be there ----------------

  /** goals are the subtrees of root that the open pages are the tops of, and the
      closed subtrees are the leading children of those. */
  ghost predicate OnPath(root: Tree, path: seq<nat>, done: Closed, goals: seq<Tree>) {
    |done| == |path| + 1 == |goals| + 1 && path != [] && goals[0] == root && done[0] == [] &&
    (forall i :: 0 <= i < |path| ==> Level(goals[i], path[i], done[i + 1])) &&
    forall i :: 0 < i < |path| ==> Down(goals[i - 1], done[i], goals[i])
  }

  ghost predicate Level(goal: Tree, p: nat, d: seq<Tree>) {
    goal.page == p && goal.kids != [] && |d| <= |goal.kids| && d == goal.kids[..|d|]
  }

  ghost predicate Down(above: Tree, d: seq<Tree>, goal: Tree) {
    |d| < |above.kids| && goal == above.kids[|d|]
  }

  ghost function Left(done: Closed, goals: seq<Tree>): seq<Tree>
    requires done != [] && goals != [] && |done[|done| - 1]| <= |goals[|goals| - 1].kids|
  {
    goals[|goals| - 1].kids[|done[|done| - 1]|..]
  }

  lemma OnPathFront(root: Tree, path: seq<nat>, done: Closed, goals: seq<Tree>)
    requires OnPath(root, path, done, goals) && |path| > 1
    ensures OnPath(root, path[..|path| - 1], done[..|done| - 1], goals[..|goals| - 1])
    ensures Down(goals[|goals| - 2], done[|done| - 2], goals[|goals| - 1])
  {
    forall i | 0 <= i < |path| - 1
      ensures Level(goals[i], path[i], done[i + 1])
    {}
    forall i | 0 < i < |path| - 1
      ensures Down(goals[i - 1], done[i], goals[i])
    {}
  }

  lemma KidsSplit(kids: seq<Tree>, j: nat)
    requires j <= |kids|
    ensures ForestPreorder(kids) == ForestPreorder(kids[..j]) + ForestPreorder(kids[j..])
    ensures ForestLeaves(kids) == ForestLeaves(kids[..j]) + ForestLeaves(kids[j..])
  {
    assert kids == kids[..j] + kids[j..];
    ForestPreorderConcat(kids[..j], kids[j..]);
    ForestLeavesConcat(kids[..j], kids[j..]);
  }

  lemma HeadSplit(rest: seq<Tree>)
    requires rest != []
    ensures ForestPreorder(rest) == Preorder(rest[0]) + ForestPreorder(rest[1..])
    ensures ForestLeaves(rest) == Leaves(rest[0]) + ForestLeaves(rest[1..])
  {
    ForestOne(rest[0]);
    assert rest == [rest[0]] + rest[1..];
    ForestPreorderConcat([rest[0]], rest[1..]);
    ForestLeavesConcat([rest[0]], rest[1..]);
  }

  lemma ForestOne(t: Tree)
    ensures ForestPreorder([t]) == Preorder(t) && ForestLeaves([t]) == Leaves(t)
  {
    assert [t][..0] == [];
    assert [] + Preorder(t) == Preorder(t) && [] + Leaves(t) == Leaves(t);
  }

  /** The root's preorder is what was seen, then what is left below the last open
      page, then the rest. */
  lemma {:induction false} SpineIsPrefix(root: Tree, path: seq<nat>, done: Closed, goals: seq<Tree>)
    returns (tail: seq<nat>)
    requires OnPath(root, path, done, goals)
    ensures Preorder(root) == Spine(path, done) + (ForestPreorder(Left(done, goals)) + tail)
    decreases |path|
  {
    var goal, d := goals[|goals| - 1], done[|done| - 1];
    var p, left := [path[|path| - 1]], ForestPreorder(goal.kids[|d|..]);
    KidsSplit(goal.kids, |d|);
    Associative(p, ForestPreorder(d), left);
    if |path| == 1 {
      tail := [];
      assert path[..0] == [] && ForestPreorder(done[..1][0]) == [];
      assert Spine(path, done) == [] + (p + ForestPreorder(d)) == p + ForestPreorder(d);
      assert left + [] == left;
    } else {
      OnPathFront(root, path, done, goals);
      var front := Spine(path[..|path| - 1], done[..|done| - 1]);
      var tail' := SpineIsPrefix(root, path[..|path| - 1], done[..|done| - 1], goals[..|goals| - 1]);
      var rest := Left(done[..|done| - 1], goals[..|goals| - 1]);
      HeadSplit(rest);
      tail := ForestPreorder(rest[1..]) + tail';
      assert rest[0] == goal;
      Regroup(front, p + ForestPreorder(d), left, ForestPreorder(rest[1..]), tail');
    }
  }

  lemma Regroup(a: seq<nat>, b: seq<nat>, c: seq<nat>, d: seq<nat>, e: seq<nat>)
    ensures a + (((b + c) + d) + e) == (a + b) + (c + (d + e))
  {}

  lemma {:induction false} LeafSpineIsPrefix(root: Tree, path: seq<nat>, done: Closed, goals: seq<Tree>)
    returns (tail: seq<nat>)
    requires OnPath(root, path, done, goals)
    ensures Leaves(root) == LeafSpine(done) + (ForestLeaves(Left(done, goals)) + tail)
    decreases |path|
  {
    var goal, d := goals[|goals| - 1], done[|done| - 1];
    var left := ForestLeaves(goal.kids[|d|..]);
    KidsSplit(goal.kids, |d|);
    if |path| == 1 {
      tail := [];
      assert done[..1] == [[]] && LeafSpine([[]]) == [] by { LeafSpineOpen([], []); }
      assert LeafSpine(done) == [] + ForestLeaves(d) == ForestLeaves(d);
      assert left + [] == left;
    } else {
      OnPathFront(root, path, done, goals);
      var front := LeafSpine(done[..|done| - 1]);
      var tail' := LeafSpineIsPrefix(root, path[..|path| - 1], done[..|done| - 1], goals[..|goals| - 1]);
      var rest := Left(done[..|done| - 1], goals[..|goals| - 1]);
      HeadSplit(rest);
      tail := ForestLeaves(rest[1..]) + tail';
      assert rest[0] == goal;
      Regroup(front, ForestLeaves(d), left, ForestLeaves(rest[1..]), tail');
    }
  }
}
