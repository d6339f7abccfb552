/** Order inside represented trees: how sorted children make a sorted parent, and
    what a sorted whole says about its parts. */
module TreeOrder {
  import opened Tables
  import opened PageTree

  ghost function ForestContents(pages: seq<Page>, ts: seq<Tree>): seq<Entry>
    requires AllRepresented(pages, ts)
  {
    ForestRepresentedLeaves(pages, ts);
    Contents(pages, ForestLeaves(ts))
  }

  ghost function TreeContents(pages: seq<Page>, t: Tree): seq<Entry>
    requires Represents(pages, t)
  {
    RepresentedLeaves(pages, t);
    Contents(pages, Leaves(t))
  }

  ghost predicate AllRepresented(pages: seq<Page>, ts: seq<Tree>) {
    forall i :: 0 <= i < |ts| ==> Represents(pages, ts[i])
  }

  /** Consecutive trees do not overlap in key order. */
  ghost predicate Adjacent(pages: seq<Page>, ts: seq<Tree>) {
    forall i :: 0 < i < |ts| ==> KeyLess(LastEntry(pages, ts[i - 1]), FirstEntry(pages, ts[i]))
  }

  /** The first and last entries of a list of leaf pages. */
  lemma {:induction false} ContentsEnds(pages: seq<Page>, ls: seq<nat>)
    requires LeafPages(pages, ls) && ls != []
    ensures var c := Contents(pages, ls);
            c != [] && c[0] == pages[ls[0]].entries[0] &&
            c[|c| - 1] == pages[ls[|ls| - 1]].entries[|pages[ls[|ls| - 1]].entries| - 1]
  {
    if |ls| > 1 {
      ContentsEnds(pages, ls[..|ls| - 1]);
    } else {
      assert ls == [ls[0]];
      ContentsOne(pages, ls[0]);
    }
  }

  lemma TreeEnds(pages: seq<Page>, t: Tree)
    requires Represents(pages, t)
    ensures var c := TreeContents(pages, t);
            c != [] && c[0] == FirstEntry(pages, t) && c[|c| - 1] == LastEntry(pages, t)
  {
    RepresentedLeaves(pages, t);
    ContentsEnds(pages, Leaves(t));
  }

  lemma ForestContentsSnoc(pages: seq<Page>, ts: seq<Tree>, t: Tree)
    requires AllRepresented(pages, ts) && Represents(pages, t)
    ensures AllRepresented(pages, ts + [t])
    ensures ForestContents(pages, ts + [t]) == ForestContents(pages, ts) + TreeContents(pages, t)
  {
    hide Contents, ForestLeaves, Leaves, Represents;
    ForestRepresentedLeaves(pages, ts);
    RepresentedLeaves(pages, t);
    ForestLeavesSnoc(ts, t);
    ContentsConcat(pages, ForestLeaves(ts), Leaves(t));
  }

  lemma {:induction false} ForestLastEntry(pages: seq<Page>, ts: seq<Tree>)
    requires AllRepresented(pages, ts) && ts != []
    ensures var c := ForestContents(pages, ts); c != [] && c[|c| - 1] == LastEntry(pages, ts[|ts| - 1])
  {
    var front, last := ts[..|ts| - 1], ts[|ts| - 1];
    ForestContentsSnoc(pages, front, last);
    assert ts == front + [last];
    TreeEnds(pages, last);
  }

  /** Sorted, adjacent children spell a sorted parent. */
  lemma {:induction false} OrderedForest(pages: seq<Page>, ts: seq<Tree>)
    requires AllRepresented(pages, ts) && Adjacent(pages, ts)
    requires forall i :: 0 <= i < |ts| ==> Ordered(TreeContents(pages, ts[i]))
    ensures Ordered(ForestContents(pages, ts))
  {
    if ts == [] {
    } else {
      var front, last := ts[..|ts| - 1], ts[|ts| - 1];
      OrderedForest(pages, front);
      ForestContentsSnoc(pages, front, last);
      assert ts == front + [last];
      TreeEnds(pages, last);
      if front != [] {
        ForestLastEntry(pages, front);
      }
      OrderedConcat(ForestContents(pages, front), TreeContents(pages, last));
    }
  }

  lemma OrderedParts(s: seq<Entry>, t: seq<Entry>)
    requires Ordered(s + t)
    ensures Ordered(s) && Ordered(t)
    ensures s != [] && t != [] ==> KeyLess(s[|s| - 1], t[0])
  {
    var st := s + t;
    forall i, j | 0 <= i < j < |s|
      ensures KeyLess(s[i], s[j])
    {
      assert KeyLess(st[i], st[j]);
    }
    forall i, j | 0 <= i < j < |t|
      ensures KeyLess(t[i], t[j])
    {
      assert KeyLess(st[|s| + i], st[|s| + j]);
    }
    if s != [] && t != [] {
      assert KeyLess(st[|s| - 1], st[|s|]);
    }
  }

  /** A sorted forest has adjacent trees. */
  lemma {:induction false} AdjacentForest(pages: seq<Page>, ts: seq<Tree>)
    requires AllRepresented(pages, ts) && Ordered(ForestContents(pages, ts))
    ensures Adjacent(pages, ts)
  {
    if ts == [] {
    } else {
      var front, last := ts[..|ts| - 1], ts[|ts| - 1];
      ForestContentsSnoc(pages, front, last);
      assert ts == front + [last];
      OrderedParts(ForestContents(pages, front), TreeContents(pages, last));
      AdjacentForest(pages, front);
      TreeEnds(pages, last);
      if front != [] {
        ForestLastEntry(pages, front);
      }
      hide Represents, Ordered, ForestContents, TreeContents, FirstEntry, LastEntry;
    }
  }
}
