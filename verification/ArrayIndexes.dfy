/** The two flat layouts: the ephemeral in-memory index and the persistent sorted
    array. Both keep a table as one sorted run; the sorted array also honours the
    logical regions a region scan stops at. */
module ArrayIndexes {
  import opened Tables
  import opened WindowClamp
  import opened FlatCursor
  import opened ScanShares

  /** std::size_t max, the "no position" mark of a cursor. */
  const NO_INDEX: nat := 0xFFFF_FFFF_FFFF_FFFF
  const MAX_POINTS: nat := 0x4000_0000

  datatype ScanError = DecreasingBound | EmptyQuantum | NegativeBound

  datatype ScanResult = Refused(error: ScanError) | Delivered(hits: seq<Entry>, report: Report)

  /** The local copy of the traversal state a scan works on and then commits. */
  datatype Position = Position(left: nat, right: nat, leftBlocked: bool, rightBlocked: bool,
                               lastBound: Option<real>) {
    ghost function Flat(n: nat): Cursor {
      Cursor(LeftOf(left), RightOf(right, n), leftBlocked, rightBlocked, lastBound)
    }
  }

  /** MemoryCursor and ArrayCursor: the same record in both layouts. */
  class ArrayCursor {
    var tableId: nat
    var query: real
    var position: Position

    constructor ()
      ensures position == Position(NO_INDEX, NO_INDEX, false, false, None)
    {
      tableId, query := 0, 0.0;
      position := Position(NO_INDEX, NO_INDEX, false, false, None);
    }
  }

  function LeftOf(left: nat): int {
    if left == NO_INDEX then -1 else left
  }

  function RightOf(right: nat, n: nat): nat {
    if right == NO_INDEX then n else right
  }

  /** The starts of the fixed-size regions of a table of n entries. */
  function RegionStarts(n: nat, capacity: nat): (starts: seq<nat>)
    requires n > 0 && capacity > 0
    ensures |starts| == (n - 1) / capacity + 1
  {
    seq((n - 1) / capacity + 1, (k: nat) => k * capacity)
  }

  lemma RegionStartsValid(n: nat, capacity: nat)
    requires n > 0 && capacity > 0
    ensures ValidStarts(RegionStarts(n, capacity), n)
  {
    var starts := RegionStarts(n, capacity);
    forall k: nat, m: nat | k < m < |starts|
      ensures starts[k] < starts[m]
    {
      MultipleMonotone(k, m, capacity);
    }
    forall k: nat | k < |starts|
      ensures starts[k] < n
    {
      assert starts[k] == k * capacity;
      if k < (n - 1) / capacity {
        MultipleMonotone(k, (n - 1) / capacity, capacity);
      }
    }
  }

  /** Integer division finds the region, and its end is the next multiple or n. */
  lemma RegionByDivision(n: nat, capacity: nat, i: nat)
    requires capacity > 0 && i < n
    ensures ValidStarts(RegionStarts(n, capacity), n)
    ensures var starts, k := RegionStarts(n, capacity), i / capacity;
            RegionOf(starts, n, i) == k && k < |starts| && starts[k] == k * capacity &&
            NextStart(starts, n, k) == Min(n, k * capacity + capacity)
  {
    RegionStartsValid(n, capacity);
    var starts, k, last := RegionStarts(n, capacity), i / capacity, (n - 1) / capacity;
    assert k <= last by {
      if last < k {
        MultipleMonotone(last, k, capacity);
        assert false;
      }
    }
    assert k * capacity <= i < k * capacity + capacity;
    if k < last {
      MultipleMonotone(k, last, capacity);
      assert starts[k + 1] == (k + 1) * capacity == k * capacity + capacity;
    } else {
      assert n - 1 < last * capacity + capacity;
    }
    RegionUnique(starts, n, i, k);
  }

  /** std::lower_bound, and the sorted array's own copy of it. */
  method FindLowerBound(t: seq<Entry>, q: real) returns (p: nat)
    requires Ordered(t)
    ensures p <= |t| && p == LowerBound(t, q)
  {
    var lo, hi := 0, |t|;
    while lo < hi
      invariant lo <= hi <= |t|
      invariant forall i :: 0 <= i < lo ==> t[i].value < q
      invariant forall i :: hi <= i < |t| ==> q <= t[i].value
    {
      var middle := lo + (hi - lo) / 2;
      assert forall i :: 0 <= i < middle ==> KeyLess(t[i], t[middle]);
      assert forall i :: middle < i < |t| ==> KeyLess(t[middle], t[i]);
      if t[middle].value < q {
        lo := middle + 1;
      } else {
        hi := middle;
      }
    }
    LowerBoundUnique(t, q, lo, LowerBound(t, q));
    return lo;
  }

  // ---- in-memory sides -------------------------------------------------

  ghost predicate LeftStart(v: View, c: Cursor, left: nat, blocked: bool) {
    v.Valid() && Straddles(v, c) && |v.entries| <= MAX_POINTS &&
    LeftOf(left) == c.left && blocked == c.leftBlocked
  }

  ghost predicate RightStart(v: View, c: Cursor, right: nat, blocked: bool) {
    v.Valid() && Straddles(v, c) && |v.entries| <= MAX_POINTS && right != |v.entries| &&
    RightOf(right, |v.entries|) == c.right && blocked == c.rightBlocked
  }

  /** One cut of the whole offer is the whole side scan. */
  lemma LeftCut(v: View, c: Cursor, bound: real, limit: nat, scope: Scope, available: nat, hits: seq<Entry>)
    requires v.Valid() && InBounds(v, c) && 0 < available == LeftOffer(v, c, limit, scope)
    requires var r := LeftRange(v, c.left, available);
             hits == [] + r.(count := PrefixLength(v.fl, r, bound)).Hits()
    ensures ScanLeft(v, c, bound, limit, scope)
         == (c.(left := c.left - |hits|, leftBlocked := |hits| < available), hits)
  {
    var r := LeftRange(v, c.left, available);
    var count := PrefixLength(v.fl, r, bound);
    assert r.(count := count) == LeftRange(v, c.left, count);
    assert LeftHits(v, c, count) == hits;
  }

  lemma RightCut(v: View, c: Cursor, bound: real, limit: nat, scope: Scope, available: nat, hits: seq<Entry>)
    requires v.Valid() && InBounds(v, c) && 0 < available == RightOffer(v, c, limit, scope)
    requires var r := RightRange(v, c.right, available);
             hits == [] + r.(count := PrefixLength(v.fl, r, bound)).Hits()
    ensures ScanRight(v, c, bound, limit, scope)
         == (c.(right := c.right + |hits|, rightBlocked := |hits| < available), hits)
  {
    var r := RightRange(v, c.right, available);
    var count := PrefixLength(v.fl, r, bound);
    assert r.(count := count) == RightRange(v, c.right, count);
    assert RightHits(v, c, count) == hits;
  }

  /** The left loop of InMemoryIndex::scan_impl; region scope does not cut it. */
  method MemoryScanLeft(v: View, left0: nat, blocked0: bool, bound: real, limit: nat,
                        ghost scope: Scope, ghost c: Cursor)
    returns (left: nat, blocked: bool, hits: seq<Entry>)
    requires LeftStart(v, c, left0, blocked0) && v.starts == [0]
    ensures ScanLeft(v, c, bound, limit, scope)
         == (c.(left := LeftOf(left), leftBlocked := blocked), hits)
  {
    left, blocked, hits := left0, blocked0, [];
    ghost var goal := ScanLeft(v, c, bound, limit, scope);
    var scanned := 0;
    if c.left >= 0 {
      RegionUnique(v.starts, |v.entries|, c.left, 0);
    }
    while scanned < limit && left != NO_INDEX && !blocked
      invariant scanned <= limit
      invariant (scanned == 0 && left == left0 && blocked == blocked0 && hits == [])
             || (goal == (c.(left := LeftOf(left), leftBlocked := blocked), hits)
                 && (scanned == limit || left == NO_INDEX || blocked))
      decreases limit - scanned, !blocked
    {
      var index := left;
      var available := Min(limit - scanned, index + 1);
      LeftOutward(v, index, available, bound);
      var range := ClampFourLane(v.fl, LeftRange(v, index, available), bound);
      blocked := range.count < available;
      hits := hits + range.Hits();
      LeftCut(v, c, bound, limit, scope, available, hits);
      scanned := scanned + range.count;
      left := if range.count == index + 1 then NO_INDEX else index - range.count;
    }
  }

  method MemoryScanRight(v: View, right0: nat, blocked0: bool, bound: real, limit: nat,
                         ghost scope: Scope, ghost c: Cursor)
    returns (right: nat, blocked: bool, hits: seq<Entry>)
    requires RightStart(v, c, right0, blocked0) && v.starts == [0]
    ensures right != |v.entries|
    ensures ScanRight(v, c, bound, limit, scope)
         == (c.(right := RightOf(right, |v.entries|), rightBlocked := blocked), hits)
  {
    right, blocked, hits := right0, blocked0, [];
    ghost var goal := ScanRight(v, c, bound, limit, scope);
    var scanned := 0;
    if c.right < |v.entries| {
      RegionUnique(v.starts, |v.entries|, c.right, 0);
    }
    while scanned < limit && right != NO_INDEX && !blocked
      invariant scanned <= limit && right != |v.entries|
      invariant (scanned == 0 && right == right0 && blocked == blocked0 && hits == [])
             || (goal == (c.(right := RightOf(right, |v.entries|), rightBlocked := blocked), hits)
                 && (scanned == limit || right == NO_INDEX || blocked))
      decreases limit - scanned, !blocked
    {
      var index := right;
      var available := Min(limit - scanned, |v.entries| - index);
      RightOutward(v, index, available, bound);
      var range := ClampFourLane(v.fl, RightRange(v, index, available), bound);
      blocked := range.count < available;
      hits := hits + range.Hits();
      RightCut(v, c, bound, limit, scope, available, hits);
      scanned := scanned + range.count;
      right := if index + range.count == |v.entries| then NO_INDEX else index + range.count;
    }
  }

  // ---- sorted-array sides ----------------------------------------------

  /** The logical region around a position, by integer division. */
  method RegionExtent(v: View, capacity: nat, index: nat) returns (regionStart: nat, regionEnd: nat)
    requires v.Valid() && capacity > 0 && v.starts == RegionStarts(|v.entries|, capacity) && index < |v.entries|
    ensures regionStart <= index < regionEnd <= |v.entries|
    ensures LeftRoom(v, index, Region) == index - regionStart + 1
    ensures RightRoom(v, index, Region) == regionEnd - index
  {
    RegionByDivision(|v.entries|, capacity, index);
    regionStart := index / capacity * capacity;
    regionEnd := Min(|v.entries|, regionStart + capacity);
  }

  /** The left loop of SortedArrayIndex::scan_impl. */
  method ArrayScanLeft(v: View, capacity: nat, left0: nat, blocked0: bool, bound: real, limit: nat,
                       scope: Scope, ghost c: Cursor)
    returns (left: nat, blocked: bool, hits: seq<Entry>)
    requires LeftStart(v, c, left0, blocked0)
    requires capacity > 0 && v.starts == RegionStarts(|v.entries|, capacity)
    ensures ScanLeft(v, c, bound, limit, scope)
         == (c.(left := LeftOf(left), leftBlocked := blocked), hits)
  {
    left, blocked, hits := left0, blocked0, [];
    ghost var goal := ScanLeft(v, c, bound, limit, scope);
    var scanned := 0;
    while scanned < limit && left != NO_INDEX && !blocked
      invariant scanned <= limit
      invariant (scanned == 0 && left == left0 && blocked == blocked0 && hits == [])
             || (goal == (c.(left := LeftOf(left), leftBlocked := blocked), hits)
                 && (scanned == limit || left == NO_INDEX || blocked))
      decreases limit - scanned, !blocked
    {
      var index := left;
      var regionStart, _ := RegionExtent(v, capacity, index);
      var regionAvailable := index - regionStart + 1;
      var available := Min(limit - scanned, if scope == Region then regionAvailable else index + 1);
      LeftOutward(v, index, available, bound);
      var range := ClampFourLane(v.fl, LeftRange(v, index, available), bound);
      blocked := range.count < available;
      hits := hits + range.Hits();
      LeftCut(v, c, bound, limit, scope, available, hits);
      scanned := scanned + range.count;
      var finishedRegion := scope == Region && range.count == available && available == regionAvailable;
      left := if range.count == index + 1 then NO_INDEX else index - range.count;
      if finishedRegion {
        break;
      }
    }
  }

  method ArrayScanRight(v: View, capacity: nat, right0: nat, blocked0: bool, bound: real, limit: nat,
                        scope: Scope, ghost c: Cursor)
    returns (right: nat, blocked: bool, hits: seq<Entry>)
    requires RightStart(v, c, right0, blocked0)
    requires capacity > 0 && v.starts == RegionStarts(|v.entries|, capacity)
    ensures right != |v.entries|
    ensures ScanRight(v, c, bound, limit, scope)
         == (c.(right := RightOf(right, |v.entries|), rightBlocked := blocked), hits)
  {
    right, blocked, hits := right0, blocked0, [];
    ghost var goal := ScanRight(v, c, bound, limit, scope);
    var scanned := 0;
    while scanned < limit && right != NO_INDEX && !blocked
      invariant scanned <= limit && right != |v.entries|
      invariant (scanned == 0 && right == right0 && blocked == blocked0 && hits == [])
             || (goal == (c.(right := RightOf(right, |v.entries|), rightBlocked := blocked), hits)
                 && (scanned == limit || right == NO_INDEX || blocked))
      decreases limit - scanned, !blocked
    {
      var index := right;
      var _, regionEnd := RegionExtent(v, capacity, index);
      var regionAvailable := regionEnd - index;
      var available := Min(limit - scanned, if scope == Region then regionAvailable else |v.entries| - index);
      RightOutward(v, index, available, bound);
      var range := ClampFourLane(v.fl, RightRange(v, index, available), bound);
      blocked := range.count < available;
      hits := hits + range.Hits();
      RightCut(v, c, bound, limit, scope, available, hits);
      scanned := scanned + range.count;
      var finishedRegion := scope == Region && range.count == available && available == regionAvailable;
      right := if index + range.count == |v.entries| then NO_INDEX else index + range.count;
      if finishedRegion {
        break;
      }
    }
  }

  // ---- scan_impl -------------------------------------------------------

  ghost predicate Placed(v: View, p: Position) {
    v.Valid() && |v.entries| <= MAX_POINTS && p.right != |v.entries| && Straddles(v, p.Flat(|v.entries|))
  }

  function ReopenPosition(p: Position, bound: real): Position {
    if p.lastBound.None? || bound > p.lastBound.value then
      p.(leftBlocked := false, rightBlocked := false, lastBound := Some(bound))
    else p
  }

  function ReportOf(p: Position, visited: nat): Report {
    Report(visited,
           (p.left == NO_INDEX || p.leftBlocked) && (p.right == NO_INDEX || p.rightBlocked),
           p.left == NO_INDEX && p.right == NO_INDEX)
  }

  lemma ScanParts(v: View, c: Cursor, call: Call, c1: Cursor, leftHits: seq<Entry>, c2: Cursor, rightHits: seq<Entry>)
    requires v.Valid() && InBounds(v, c) && Admissible(c, call)
    requires ScanLeft(v, Reopen(c, call.bound), call.bound, LeftLimit(call.limit, call.scope), call.scope)
          == (c1, leftHits)
    requires ScanRight(v, c1, call.bound, RightLimit(call.limit, call.scope, |leftHits|), call.scope)
          == (c2, rightHits)
    ensures FlatCursor.Scan(v, c, call)
         == Scanned(c2, leftHits + rightHits,
                    Report(|leftHits| + |rightHits|, WindowExhausted(v, c2), TableExhausted(v, c2)))
  {}

  /** InMemoryIndex::scan_impl on the local copy. */
  method MemoryScan(v: View, p0: Position, call: Call)
    returns (p: Position, hits: seq<Entry>, report: Report)
    requires Placed(v, p0) && v.starts == [0] && Admissible(p0.Flat(|v.entries|), call)
    ensures Placed(v, p)
    ensures Scanned(p.Flat(|v.entries|), hits, report) == FlatCursor.Scan(v, p0.Flat(|v.entries|), call)
    ensures report.entriesVisited == |hits| <= if call.scope == Quantum then call.limit else 2 * call.limit
  {
    p := ReopenPosition(p0, call.bound);
    ghost var c0 := p.Flat(|v.entries|);
    var left, leftBlocked, leftHits := MemoryScanLeft(
      v, p.left, p.leftBlocked, call.bound, LeftLimit(call.limit, call.scope), call.scope, c0);
    p := p.(left := left, leftBlocked := leftBlocked);
    ghost var c1 := p.Flat(|v.entries|);
    var right, rightBlocked, rightHits := MemoryScanRight(
      v, p.right, p.rightBlocked, call.bound, RightLimit(call.limit, call.scope, |leftHits|), call.scope, c1);
    p := p.(right := right, rightBlocked := rightBlocked);
    ScanParts(v, p0.Flat(|v.entries|), call, c1, leftHits, p.Flat(|v.entries|), rightHits);
    hits := leftHits + rightHits;
    report := ReportOf(p, |hits|);
    VisitsWithin(v, p0.Flat(|v.entries|), call);
  }

  /** SortedArrayIndex::scan_impl on the local copy. */
  method ArrayScan(v: View, capacity: nat, p0: Position, call: Call)
    returns (p: Position, hits: seq<Entry>, report: Report)
    requires Placed(v, p0) && Admissible(p0.Flat(|v.entries|), call)
    requires capacity > 0 && v.starts == RegionStarts(|v.entries|, capacity)
    ensures Placed(v, p)
    ensures Scanned(p.Flat(|v.entries|), hits, report) == FlatCursor.Scan(v, p0.Flat(|v.entries|), call)
    ensures report.entriesVisited == |hits| <= if call.scope == Quantum then call.limit else 2 * call.limit
  {
    p := ReopenPosition(p0, call.bound);
    ghost var c0 := p.Flat(|v.entries|);
    var left, leftBlocked, leftHits := ArrayScanLeft(
      v, capacity, p.left, p.leftBlocked, call.bound, LeftLimit(call.limit, call.scope), call.scope, c0);
    p := p.(left := left, leftBlocked := leftBlocked);
    ghost var c1 := p.Flat(|v.entries|);
    var right, rightBlocked, rightHits := ArrayScanRight(
      v, capacity, p.right, p.rightBlocked, call.bound, RightLimit(call.limit, call.scope, |leftHits|),
      call.scope, c1);
    p := p.(right := right, rightBlocked := rightBlocked);
    ScanParts(v, p0.Flat(|v.entries|), call, c1, leftHits, p.Flat(|v.entries|), rightHits);
    hits := leftHits + rightHits;
    report := ReportOf(p, |hits|);
    VisitsWithin(v, p0.Flat(|v.entries|), call);
  }

  // ---- the index objects -----------------------------------------------

  /** The public entry checks shared by every layout, and the bound check. */
  function Refusal(last: Option<real>, call: Call): Option<ScanError> {
    if call.limit == 0 then Some(EmptyQuantum)
    else if call.bound < 0.0 then Some(NegativeBound)
    else if last.Some? && call.bound < last.value then Some(DecreasingBound)
    else None
  }

  /** What a scan call owes its caller: the flat scan, or a refusal that leaves
      the cursor where it was. */
  ghost predicate ScanMeets(v: View, before: Cursor, call: Call, after: Cursor, r: ScanResult)
    requires v.Valid() && InBounds(v, before)
  {
    if call.limit == 0 then after == before && r == Refused(EmptyQuantum)
    else if call.bound < 0.0 then after == before && r == Refused(NegativeBound)
    else if before.last.Some? && call.bound < before.last.value then after == before && r == Refused(DecreasingBound)
    else
      var s := FlatCursor.Scan(v, before, call);
      after == s.cursor && r == Delivered(s.hits, s.report)
  }

  ghost predicate ValidTables(tables: seq<seq<Entry>>, n: nat) {
    0 < n <= MAX_POINTS && forall t :: 0 <= t < |tables| ==> ValidTable(tables[t], n)
  }

  class InMemoryIndex {
    const fl: Rounding
    const tables: seq<seq<Entry>>
    const numPoints: nat

    ghost predicate Valid() {
      ValidTables(tables, numPoints)
    }

    constructor (fl: Rounding, tables: seq<seq<Entry>>, numPoints: nat)
      requires ValidTables(tables, numPoints)
      ensures Valid() && this.fl == fl && this.tables == tables && this.numPoints == numPoints
    {
      this.fl, this.tables, this.numPoints := fl, tables, numPoints;
    }

    /** Memory tables are one region: region scope changes nothing but the limits. */
    function TableView(t: nat, q: real): (v: View)
      requires Valid() && t < |tables|
      ensures v.Valid()
    {
      View(fl, tables[t], q, [0])
    }

    ghost predicate Owns(cursor: ArrayCursor)
      requires Valid()
      reads cursor
    {
      cursor.tableId < |tables| && Placed(TableView(cursor.tableId, cursor.query), cursor.position)
    }

    method ResetCursor(cursor: ArrayCursor, tableId: nat, query: real) returns (ok: bool)
      requires Valid()
      modifies cursor
      ensures ok <==> tableId < |tables|
      ensures ok ==> Owns(cursor) && cursor.tableId == tableId && cursor.query == query &&
                     cursor.position.Flat(numPoints) == Reset(TableView(tableId, query))
      ensures !ok ==> unchanged(cursor)
    {
      if tableId >= |tables| {
        return false;
      }
      var t := tables[tableId];
      var p := FindLowerBound(t, query);
      cursor.tableId, cursor.query := tableId, query;
      cursor.position := Position(if p == 0 then NO_INDEX else p - 1,
                                  if p == |t| then NO_INDEX else p, false, false, None);
      return true;
    }

    method Scan(cursor: ArrayCursor, call: Call) returns (r: ScanResult)
      requires Valid() && Owns(cursor)
      modifies cursor
      ensures Owns(cursor) && cursor.tableId == old(cursor.tableId) && cursor.query == old(cursor.query)
      ensures ScanMeets(TableView(cursor.tableId, cursor.query), old(cursor.position.Flat(numPoints)),
                        call, cursor.position.Flat(numPoints), r)
    {
      var refusal := Refusal(cursor.position.lastBound, call);
      if refusal.Some? {
        return Refused(refusal.value);
      }
      var position, hits, report :=
        MemoryScan(TableView(cursor.tableId, cursor.query), cursor.position, call);
      cursor.position := position;
      return Delivered(hits, report);
    }
  }

  class SortedArrayIndex {
    const fl: Rounding
    const tables: seq<seq<Entry>>
    const numPoints: nat
    const regionCapacity: nat

    ghost predicate Valid() {
      ValidTables(tables, numPoints) && regionCapacity > 0
    }

    constructor (fl: Rounding, tables: seq<seq<Entry>>, numPoints: nat, pageSize: nat)
      requires ValidTables(tables, numPoints) && pageSize >= 512
      ensures Valid() && this.fl == fl && this.tables == tables && this.numPoints == numPoints
      ensures regionCapacity == (pageSize - 32) / 8
    {
      this.fl, this.tables, this.numPoints := fl, tables, numPoints;
      regionCapacity := (pageSize - 32) / 8;
    }

    function TableView(t: nat, q: real): (v: View)
      requires Valid() && t < |tables|
      ensures v.Valid()
    {
      RegionStartsValid(numPoints, regionCapacity);
      View(fl, tables[t], q, RegionStarts(numPoints, regionCapacity))
    }

    ghost predicate Owns(cursor: ArrayCursor)
      requires Valid()
      reads cursor
    {
      cursor.tableId < |tables| && Placed(TableView(cursor.tableId, cursor.query), cursor.position)
    }

    method ResetCursor(cursor: ArrayCursor, tableId: nat, query: real) returns (ok: bool)
      requires Valid()
      modifies cursor
      ensures ok <==> tableId < |tables|
      ensures ok ==> Owns(cursor) && cursor.tableId == tableId && cursor.query == query &&
                     cursor.position.Flat(numPoints) == Reset(TableView(tableId, query))
      ensures !ok ==> unchanged(cursor)
    {
      if tableId >= |tables| {
        return false;
      }
      var t := tables[tableId];
      var p := FindLowerBound(t, query);
      cursor.tableId, cursor.query := tableId, query;
      cursor.position := Position(if p == 0 then NO_INDEX else p - 1,
                                  if p == |t| then NO_INDEX else p, false, false, None);
      return true;
    }

    method Scan(cursor: ArrayCursor, call: Call) returns (r: ScanResult)
      requires Valid() && Owns(cursor)
      modifies cursor
      ensures Owns(cursor) && cursor.tableId == old(cursor.tableId) && cursor.query == old(cursor.query)
      ensures ScanMeets(TableView(cursor.tableId, cursor.query), old(cursor.position.Flat(numPoints)),
                        call, cursor.position.Flat(numPoints), r)
    {
      var refusal := Refusal(cursor.position.lastBound, call);
      if refusal.Some? {
        return Refused(refusal.value);
      }
      var position, hits, report :=
        ArrayScan(TableView(cursor.tableId, cursor.query), regionCapacity, cursor.position, call);
      cursor.position := position;
      return Delivered(hits, report);
    }
  }
}
