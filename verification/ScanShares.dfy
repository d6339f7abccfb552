/** How far one scan may go: the limit of a call, its split between the two sides, and
    the regions. */
module ScanShares {
  import opened Tables
  import opened FlatCursor

  /** Entries the left side passed. */
  function LeftMoved(c: Cursor, d: Cursor): int {
    c.left - d.left
  }

  function RightMoved(c: Cursor, d: Cursor): int {
    d.right - c.right
  }

  /** A side that could still go on. */
  predicate LeftOpen(c: Cursor) {
    c.left >= 0 && !c.leftBlocked
  }

  predicate RightOpen(v: View, c: Cursor) {
    c.right < |v.entries| && !c.rightBlocked
  }

  /** A quantum scan visits no more entries than its limit: the left side at most half of
      it, rounded up, the right side at most the other half, or, when the limit is one,
      what the left side has left over. A side that could go on has had its full share. */
  lemma QuantumShares(v: View, c: Cursor, call: Call)
    requires v.Valid() && InBounds(v, c) && Admissible(c, call) && call.scope == Quantum
    ensures var s := FlatCursor.Scan(v, c, call);
            var left, right := LeftMoved(c, s.cursor), RightMoved(c, s.cursor);
            var rest := if call.limit == 1 then 1 - left else call.limit / 2;
            s.report.entriesVisited == |s.hits| == left + right <= call.limit &&
            0 <= left <= (call.limit + 1) / 2 && 0 <= right <= rest &&
            (LeftOpen(s.cursor) ==> left == (call.limit + 1) / 2) &&
            (RightOpen(v, s.cursor) ==> right == rest)
  {
    hide LowerBound, RegionOf, LeftRange, RightRange;
  }

  /** A region scan: each side at most the limit, and never past the region it starts in.
      A side that could go on, and has not reached the end of its region, has passed as
      many entries as the limit. */
  lemma RegionShares(v: View, c: Cursor, call: Call, k: nat, m: nat)
    requires v.Valid() && InBounds(v, c) && Admissible(c, call) && call.scope == Region
    requires c.left >= 0 ==> InRegion(v.starts, |v.entries|, c.left, k)
    requires c.right < |v.entries| ==> InRegion(v.starts, |v.entries|, c.right, m)
    ensures var s := FlatCursor.Scan(v, c, call);
            var left, right := LeftMoved(c, s.cursor), RightMoved(c, s.cursor);
            s.report.entriesVisited == |s.hits| == left + right &&
            0 <= left <= call.limit && 0 <= right <= call.limit &&
            (c.left >= 0 ==> v.starts[k] <= s.cursor.left + 1) &&
            (c.right < |v.entries| ==> s.cursor.right <= NextStart(v.starts, |v.entries|, m)) &&
            (LeftOpen(s.cursor) && v.starts[k] < s.cursor.left + 1 ==> left == call.limit) &&
            (RightOpen(v, s.cursor) && s.cursor.right < NextStart(v.starts, |v.entries|, m) ==> right == call.limit)
  {
    if c.left >= 0 {
      RegionUnique(v.starts, |v.entries|, c.left, k);
    }
    if c.right < |v.entries| {
      RegionUnique(v.starts, |v.entries|, c.right, m);
    }
    hide LowerBound, RegionOf, LeftRange, RightRange;
  }

  /** The entries of one call: the limit in all, or the limit for each side. */
  lemma VisitsWithin(v: View, c: Cursor, call: Call)
    requires v.Valid() && InBounds(v, c) && Admissible(c, call)
    ensures var s := FlatCursor.Scan(v, c, call);
            s.report.entriesVisited == |s.hits| <= if call.scope == Quantum then call.limit else 2 * call.limit
  {
    if call.scope == Quantum {
      QuantumShares(v, c, call);
    } else {
      var k := if c.left >= 0 then RegionOf(v.starts, |v.entries|, c.left) else 0;
      var m := if c.right < |v.entries| then RegionOf(v.starts, |v.entries|, c.right) else 0;
      hide FlatCursor.Scan;
      RegionShares(v, c, call, k, m);
    }
  }
}
