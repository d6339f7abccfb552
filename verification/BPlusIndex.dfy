/** Reading a valid B+ tree: the descent that places a cursor, and the outward
    walk over the leaf chain. Both agree with the flat table the leaves spell. */
module BPlusIndex {
  import opened Tables
  import opened WindowClamp
  import opened FlatCursor
  import opened PageTree

  // ---- the flat view of a leaf chain -----------------------------------

  ghost predicate Chain(pages: seq<Page>, ls: seq<nat>) {
    ls != [] && LeafPages(pages, ls) && Linked(pages, ls) && Ordered(Contents(pages, ls))
  }

  ghost function LeafStarts(pages: seq<Page>, ls: seq<nat>): (starts: seq<nat>)
    requires InHeap(pages, ls)
  {
    seq(|ls|, k requires 0 <= k < |ls| => Offset(pages, ls, k))
  }

  lemma {:induction false} OffsetMonotone(pages: seq<Page>, ls: seq<nat>, a: nat, b: nat)
    requires LeafPages(pages, ls) && a < b <= |ls|
    ensures Offset(pages, ls, a) + |pages[ls[a]].entries| <= Offset(pages, ls, b)
    decreases b
  {
    if a + 1 < b {
      OffsetMonotone(pages, ls, a, b - 1);
    }
    OffsetStep(pages, ls, b - 1);
  }

  lemma OffsetEnds(pages: seq<Page>, ls: seq<nat>)
    requires InHeap(pages, ls)
    ensures Offset(pages, ls, 0) == 0 && Offset(pages, ls, |ls|) == |Contents(pages, ls)|
  {
    assert ls[..|ls|] == ls;
  }

  lemma LeafStartsValid(pages: seq<Page>, ls: seq<nat>)
    requires LeafPages(pages, ls) && ls != []
    ensures ValidStarts(LeafStarts(pages, ls), |Contents(pages, ls)|)
  {
    var starts := LeafStarts(pages, ls);
    OffsetEnds(pages, ls);
    forall k, m | 0 <= k < m < |starts|
      ensures starts[k] < starts[m]
    {
      OffsetMonotone(pages, ls, k, m);
    }
    forall k | 0 <= k < |starts|
      ensures starts[k] < |Contents(pages, ls)|
    {
      OffsetMonotone(pages, ls, k, |ls|);
    }
  }

  ghost function ChainView(fl: Rounding, pages: seq<Page>, ls: seq<nat>, q: real): (v: View)
    requires Chain(pages, ls)
    ensures v.Valid()
  {
    LeafStartsValid(pages, ls);
    View(fl, Contents(pages, ls), q, LeafStarts(pages, ls))
  }

  /** A leaf is one region of the view. */
  lemma LeafIsRegion(fl: Rounding, pages: seq<Page>, ls: seq<nat>, q: real, k: nat, i: nat)
    requires Chain(pages, ls) && k < |ls| && i < |pages[ls[k]].entries|
    ensures var v, at := ChainView(fl, pages, ls, q), Offset(pages, ls, k) + i;
            at < |v.entries| && v.entries[at] == pages[ls[k]].entries[i] &&
            LeftRoom(v, at, Region) == i + 1 &&
            RightRoom(v, at, Region) == |pages[ls[k]].entries| - i &&
            Offset(pages, ls, k) + |pages[ls[k]].entries| <= |v.entries|
  {
    var v, at := ChainView(fl, pages, ls, q), Offset(pages, ls, k) + i;
    ContentsAt(pages, ls, k);
    OffsetStep(pages, ls, k);
    OffsetEnds(pages, ls);
    var whole := Contents(pages, ls)[Offset(pages, ls, k)..Offset(pages, ls, k) + |pages[ls[k]].entries|];
    assert whole[i] == v.entries[at];
    RegionUnique(v.starts, |v.entries|, at, k);
  }

  /** A link is zero exactly at the end of the chain it points past. */
  lemma NeighbourLinks(pages: seq<Page>, ls: seq<nat>, k: nat)
    requires Chain(pages, ls) && k < |ls|
    ensures pages[ls[k]].previous != 0 <==> k > 0
    ensures k > 0 ==> pages[ls[k]].previous == ls[k - 1]
    ensures pages[ls[k]].next != 0 <==> k + 1 < |ls|
    ensures k + 1 < |ls| ==> pages[ls[k]].next == ls[k + 1]
  {
    assert LinkedAt(pages, ls, k);
    assert k > 0 ==> 0 < ls[k - 1];
    assert k + 1 < |ls| ==> 0 < ls[k + 1];
  }

  // ---- cursor positions ------------------------------------------------

  /** One side of a disk cursor. */
  datatype DiskSide = DiskSide(page: nat, rank: nat, index: nat, active: bool, blocked: bool)

  ghost predicate SideOk(pages: seq<Page>, ls: seq<nat>, s: DiskSide)
    requires LeafPages(pages, ls)
  {
    s.active ==> s.rank < |ls| && s.page == ls[s.rank] && s.index < |pages[s.page].entries|
  }

  ghost function LeftAt(pages: seq<Page>, ls: seq<nat>, s: DiskSide): int
    requires LeafPages(pages, ls) && SideOk(pages, ls, s)
  {
    if s.active then Offset(pages, ls, s.rank) + s.index else -1
  }

  ghost function RightAt(pages: seq<Page>, ls: seq<nat>, s: DiskSide): nat
    requires LeafPages(pages, ls) && SideOk(pages, ls, s)
  {
    if s.active then Offset(pages, ls, s.rank) + s.index else |Contents(pages, ls)|
  }

  ghost function DiskFlat(pages: seq<Page>, ls: seq<nat>, left: DiskSide, right: DiskSide, last: Option<real>): Cursor
    requires LeafPages(pages, ls) && SideOk(pages, ls, left) && SideOk(pages, ls, right)
  {
    Cursor(LeftAt(pages, ls, left), RightAt(pages, ls, right), left.blocked, right.blocked, last)
  }

  // ---- cutting a side in chunks ----------------------------------------

  lemma {:induction false} SamePrefix(fl: Rounding, r: HitRange, s: HitRange, bound: real, i: nat)
    requires r.Valid() && s.Valid() && r.count == s.count && r.query == s.query && i <= r.count
    requires forall k :: 0 <= k < r.count ==> r.At(k) == s.At(k)
    ensures LinearPrefix(fl, r, bound, i) == LinearPrefix(fl, s, bound, i)
    decreases r.count - i
  {
    if i == r.count {
    } else {
      assert r.At(i) == s.At(i);
      if r.In(fl, bound, i) {
        SamePrefix(fl, r, s, bound, i + 1);
      }
    }
  }

  lemma LeftHitsJoin(v: View, c: Cursor, scanned: nat, k: nat)
    requires InBounds(v, c) && scanned + k <= c.left + 1 && scanned <= c.left
    ensures LeftHits(v, c, scanned + k) == LeftHits(v, c, scanned) + LeftRange(v, c.left - scanned, k).Hits()
  {}

  lemma LeftChunk(v: View, c: Cursor, bound: real, offer: nat, scanned: nat, available: nat)
    requires v.Valid() && InBounds(v, c) && 0 < available && scanned + available <= offer <= c.left + 1
    requires scanned <= LeftCount(v, c, bound, offer)
    ensures var k := PrefixLength(v.fl, LeftRange(v, c.left - scanned, available), bound);
            scanned + k <= LeftCount(v, c, bound, offer) &&
            (k < available ==> scanned + k == LeftCount(v, c, bound, offer)) &&
            LeftHits(v, c, scanned + k)
              == LeftHits(v, c, scanned) + LeftRange(v, c.left - scanned, k).Hits()
  {
    LeftHitsJoin(v, c, scanned, PrefixLength(v.fl, LeftRange(v, c.left - scanned, available), bound));
    hide LeftHits;
    var big, small := LeftRange(v, c.left, offer), LeftRange(v, c.left - scanned, available);
    var k, total := PrefixLength(v.fl, small, bound), LeftCount(v, c, bound, offer);
    assert forall i: nat :: i < available ==> small.At(i) == big.At(scanned + i);
    if total < offer && scanned <= total < scanned + available {
      assert small.In(v.fl, bound, total - scanned) == big.In(v.fl, bound, total);
    }
    if k < available {
      assert small.In(v.fl, bound, k) == big.In(v.fl, bound, scanned + k);
    }
  }

  lemma RightHitsJoin(v: View, c: Cursor, scanned: nat, k: nat)
    requires InBounds(v, c) && c.right + scanned + k <= |v.entries|
    ensures RightHits(v, c, scanned + k) == RightHits(v, c, scanned) + RightRange(v, c.right + scanned, k).Hits()
  {}

  lemma RightChunk(v: View, c: Cursor, bound: real, offer: nat, scanned: nat, available: nat)
    requires v.Valid() && InBounds(v, c) && 0 < available && scanned + available <= offer &&
             c.right + offer <= |v.entries|
    requires scanned <= RightCount(v, c, bound, offer)
    ensures var k := PrefixLength(v.fl, RightRange(v, c.right + scanned, available), bound);
            scanned + k <= RightCount(v, c, bound, offer) &&
            (k < available ==> scanned + k == RightCount(v, c, bound, offer)) &&
            RightHits(v, c, scanned + k)
              == RightHits(v, c, scanned) + RightRange(v, c.right + scanned, k).Hits()
  {
    RightHitsJoin(v, c, scanned, PrefixLength(v.fl, RightRange(v, c.right + scanned, available), bound));
    hide RightHits;
    var big, small := RightRange(v, c.right, offer), RightRange(v, c.right + scanned, available);
    var k, total := PrefixLength(v.fl, small, bound), RightCount(v, c, bound, offer);
    assert forall i: nat :: i < available ==> small.At(i) == big.At(scanned + i);
    if total < offer && scanned <= total < scanned + available {
      assert small.In(v.fl, bound, total - scanned) == big.In(v.fl, bound, total);
    }
    if k < available {
      assert small.In(v.fl, bound, k) == big.In(v.fl, bound, scanned + k);
    }
  }

  // ---- the leaf walk ---------------------------------------------------

  /** A page run and the flat run it stands for are cut at the same place. */
  lemma LeftPageRun(fl: Rounding, pages: seq<Page>, ls: seq<nat>, q: real, k: nat, index: nat, available: nat,
                    bound: real)
    requires Chain(pages, ls) && k < |ls| && index < |pages[ls[k]].entries| && 0 < available <= index + 1
    ensures var v, at := ChainView(fl, pages, ls, q), Offset(pages, ls, k) + index;
            var r := HitRange(pages[ls[k]].entries, index, available, true, q);
            at < |v.entries| && available <= at + 1 && r.Valid() &&
            PrefixLength(fl, r, bound) == PrefixLength(fl, LeftRange(v, at, available), bound) &&
            (forall c: nat :: c <= available ==> r.(count := c).Hits() == LeftRange(v, at, c).Hits()) &&
            (Outward(fl, LeftRange(v, at, available), bound) ==> Outward(fl, r, bound))
  {
    hide Contents, Offset, Inside, LinearPrefix, LeafStarts, LowerBound, LeftRoom, RightRoom;
    var v, at := ChainView(fl, pages, ls, q), Offset(pages, ls, k) + index;
    LeafIsRegion(fl, pages, ls, q, k, index);
    var r, s := HitRange(pages[ls[k]].entries, index, available, true, q), LeftRange(v, at, available);
    forall j: nat | j < available
      ensures r.At(j) == s.At(j)
    {
      LeafIsRegion(fl, pages, ls, q, k, index - j);
    }
    SamePrefix(fl, r, s, bound, 0);
    forall c: nat | c <= available
      ensures r.(count := c).Hits() == LeftRange(v, at, c).Hits()
    {
      assert forall j: nat :: j < c ==> r.(count := c).At(j) == r.At(j) == s.At(j) == LeftRange(v, at, c).At(j);
    }
    assert forall j: nat :: j < available ==> r.In(fl, bound, j) == s.In(fl, bound, j);
  }

  lemma RightPageRun(fl: Rounding, pages: seq<Page>, ls: seq<nat>, q: real, k: nat, index: nat, available: nat,
                     bound: real)
    requires Chain(pages, ls) && k < |ls| && 0 < available && index + available <= |pages[ls[k]].entries|
    ensures var v, at := ChainView(fl, pages, ls, q), Offset(pages, ls, k) + index;
            var r := HitRange(pages[ls[k]].entries, index, available, false, q);
            at + available <= |v.entries| && r.Valid() &&
            PrefixLength(fl, r, bound) == PrefixLength(fl, RightRange(v, at, available), bound) &&
            (forall c: nat :: c <= available ==> r.(count := c).Hits() == RightRange(v, at, c).Hits()) &&
            (Outward(fl, RightRange(v, at, available), bound) ==> Outward(fl, r, bound))
  {
    hide Contents, Offset, Inside, LinearPrefix, LeafStarts, LowerBound, RightRoom, LeftRoom;
    var v, at := ChainView(fl, pages, ls, q), Offset(pages, ls, k) + index;
    LeafIsRegion(fl, pages, ls, q, k, index);
    var r, s := HitRange(pages[ls[k]].entries, index, available, false, q), RightRange(v, at, available);
    forall j: nat | j < available
      ensures r.At(j) == s.At(j)
    {
      LeafIsRegion(fl, pages, ls, q, k, index + j);
    }
    SamePrefix(fl, r, s, bound, 0);
    forall c: nat | c <= available
      ensures r.(count := c).Hits() == RightRange(v, at, c).Hits()
    {
      assert forall j: nat :: j < c ==> r.(count := c).At(j) == r.At(j) == s.At(j) == RightRange(v, at, c).At(j);
    }
    assert forall j: nat :: j < available ==> r.In(fl, bound, j) == s.In(fl, bound, j);
  }

  ghost predicate LeftPending(v: View, pages: seq<Page>, ls: seq<nat>, s: DiskSide, c: Cursor, bound: real, offer: nat,
                              scanned: nat)
    requires Chain(pages, ls) && SideOk(pages, ls, s)
  {
    v == ChainView(v.fl, pages, ls, v.query) && s.active && Straddles(v, c) && offer <= c.left + 1 &&
    scanned <= offer && scanned <= LeftCount(v, c, bound, offer) && LeftAt(pages, ls, s) == c.left - scanned
  }

  lemma LeftCutCorrect(v: View, pages: seq<Page>, ls: seq<nat>, s: DiskSide, available: nat,
                     bound: real, c: Cursor, offer: nat, scanned: nat)
    requires Chain(pages, ls) && SideOk(pages, ls, s) && LeftPending(v, pages, ls, s, c, bound, offer, scanned)
    requires 0 < available <= s.index + 1 && scanned + available <= offer
    ensures var r := HitRange(pages[s.page].entries, s.index, available, true, v.query);
            r.Valid() && Outward(v.fl, r, bound) &&
            var k := PrefixLength(v.fl, r, bound);
            scanned + k <= LeftCount(v, c, bound, offer) &&
            (k < available ==> scanned + k == LeftCount(v, c, bound, offer)) &&
            LeftHits(v, c, scanned + k) == LeftHits(v, c, scanned) + r.(count := k).Hits()
  {
    hide LowerBound, Contents, Offset, Outward, LeftCount, LeftHits, LinearPrefix, PrefixLength;
    LeftPageRun(v.fl, pages, ls, v.query, s.rank, s.index, available, bound);
    LeftOutward(v, c.left - scanned, available, bound);
    LeftChunk(v, c, bound, offer, scanned, available);
  }

  /** One step of the left walk: cut the rest of the current leaf. */
  method CutLeft(fl: Rounding, page: Page, q: real, s: DiskSide, available: nat, bound: real,
                 ghost v: View, ghost pages: seq<Page>, ghost ls: seq<nat>,
                 ghost c: Cursor, ghost offer: nat, ghost scanned: nat)
    returns (count: nat, hits: seq<Entry>)
    requires Chain(pages, ls) && SideOk(pages, ls, s) && LeftPending(v, pages, ls, s, c, bound, offer, scanned)
    requires fl == v.fl && q == v.query && page == pages[s.page]
    requires 0 < available <= s.index + 1 && scanned + available <= offer
    ensures count <= available
    ensures scanned + count <= LeftCount(v, c, bound, offer)
    ensures count < available ==> scanned + count == LeftCount(v, c, bound, offer)
    ensures LeftHits(v, c, scanned + count) == LeftHits(v, c, scanned) + hits
  {
    LeftCutCorrect(v, pages, ls, s, available, bound, c, offer, scanned);
    var range := ClampFourLane(fl, HitRange(page.entries, s.index, available, true, q), bound);
    return range.count, range.Hits();
  }

  ghost predicate RightPending(v: View, pages: seq<Page>, ls: seq<nat>, s: DiskSide, c: Cursor, bound: real, offer: nat,
                               scanned: nat)
    requires Chain(pages, ls) && SideOk(pages, ls, s)
  {
    v == ChainView(v.fl, pages, ls, v.query) && s.active && Straddles(v, c) && c.right + offer <= |v.entries| &&
    scanned <= offer && scanned <= RightCount(v, c, bound, offer) && RightAt(pages, ls, s) == c.right + scanned
  }

  lemma RightCutCorrect(v: View, pages: seq<Page>, ls: seq<nat>, s: DiskSide, available: nat,
                     bound: real, c: Cursor, offer: nat, scanned: nat)
    requires Chain(pages, ls) && SideOk(pages, ls, s) && RightPending(v, pages, ls, s, c, bound, offer, scanned)
    requires 0 < available && s.index + available <= |pages[s.page].entries| && scanned + available <= offer
    ensures var r := HitRange(pages[s.page].entries, s.index, available, false, v.query);
            r.Valid() && Outward(v.fl, r, bound) &&
            var k := PrefixLength(v.fl, r, bound);
            scanned + k <= RightCount(v, c, bound, offer) &&
            (k < available ==> scanned + k == RightCount(v, c, bound, offer)) &&
            RightHits(v, c, scanned + k) == RightHits(v, c, scanned) + r.(count := k).Hits()
  {
    hide LowerBound, Contents, Offset, Outward, RightCount, RightHits, LinearPrefix, PrefixLength;
    RightPageRun(v.fl, pages, ls, v.query, s.rank, s.index, available, bound);
    RightOutward(v, c.right + scanned, available, bound);
    RightChunk(v, c, bound, offer, scanned, available);
  }

  /** One step of the right walk: cut the rest of the current leaf. */
  method CutRight(fl: Rounding, page: Page, q: real, s: DiskSide, available: nat, bound: real,
                 ghost v: View, ghost pages: seq<Page>, ghost ls: seq<nat>,
                 ghost c: Cursor, ghost offer: nat, ghost scanned: nat)
    returns (count: nat, hits: seq<Entry>)
    requires Chain(pages, ls) && SideOk(pages, ls, s) && RightPending(v, pages, ls, s, c, bound, offer, scanned)
    requires fl == v.fl && q == v.query && page == pages[s.page]
    requires 0 < available && s.index + available <= |pages[s.page].entries| && scanned + available <= offer
    ensures count <= available
    ensures scanned + count <= RightCount(v, c, bound, offer)
    ensures count < available ==> scanned + count == RightCount(v, c, bound, offer)
    ensures RightHits(v, c, scanned + count) == RightHits(v, c, scanned) + hits
  {
    RightCutCorrect(v, pages, ls, s, available, bound, c, offer, scanned);
    var range := ClampFourLane(fl, HitRange(page.entries, s.index, available, false, q), bound);
    return range.count, range.Hits();
  }

  /** leaf_ranks_ numbers the leaves of a chain in order. */
  ghost predicate Ranked(ls: seq<nat>, leafRanks: seq<nat>) {
    forall k :: 0 <= k < |ls| ==> ls[k] < |leafRanks| && leafRanks[ls[k]] == k
  }

  /** After taking count entries off the left side of a leaf: stay, follow the
      previous link, or run out. */
  method StepLeft(pages: seq<Page>, leafRanks: seq<nat>, ghost ls: seq<nat>, s: DiskSide, count: nat)
    returns (next: DiskSide, moved: bool)
    requires Chain(pages, ls) && Ranked(ls, leafRanks) && SideOk(pages, ls, s) && s.active && count <= s.index + 1
    ensures SideOk(pages, ls, next) && LeftAt(pages, ls, next) == LeftAt(pages, ls, s) - count
    ensures next.blocked == s.blocked
    ensures moved <==> count == s.index + 1 && next.active
  {
    ghost var k := s.rank;
    NeighbourLinks(pages, ls, k);
    if count <= s.index {
      return s.(index := s.index - count), false;
    }
    var previous := pages[s.page].previous;
    if previous != 0 {
      OffsetStep(pages, ls, k - 1);
      return DiskSide(previous, leafRanks[previous], |pages[previous].entries| - 1, true, s.blocked), true;
    }
    OffsetEnds(pages, ls);
    return s.(active := false), false;
  }

  method StepRight(pages: seq<Page>, leafRanks: seq<nat>, ghost ls: seq<nat>, s: DiskSide, count: nat)
    returns (next: DiskSide, moved: bool)
    requires Chain(pages, ls) && Ranked(ls, leafRanks) && SideOk(pages, ls, s) && s.active
    requires s.index + count <= |pages[s.page].entries|
    ensures SideOk(pages, ls, next) && RightAt(pages, ls, next) == RightAt(pages, ls, s) + count
    ensures next.blocked == s.blocked
    ensures moved <==> s.index + count == |pages[s.page].entries| && next.active
  {
    ghost var k := s.rank;
    OffsetStep(pages, ls, k);
    NeighbourLinks(pages, ls, k);
    if count < |pages[s.page].entries| - s.index {
      return s.(index := s.index + count), false;
    }
    var next' := pages[s.page].next;
    if next' != 0 {
      return DiskSide(next', leafRanks[next'], 0, true, s.blocked), true;
    }
    OffsetEnds(pages, ls);
    return s.(active := false), false;
  }

  /** Where a left walk stands after {scanned} entries of its offer. */
  ghost predicate LeftWalk(v: View, pages: seq<Page>, ls: seq<nat>, s: DiskSide, c: Cursor, bound: real,
                         offer: nat, scanned: nat, hits: seq<Entry>)
    requires Chain(pages, ls)
  {
    SideOk(pages, ls, s) && v == ChainView(v.fl, pages, ls, v.query) && Straddles(v, c) &&
    offer <= c.left + 1 && LeftAt(pages, ls, s) == c.left - scanned &&
    scanned <= offer && scanned <= LeftCount(v, c, bound, offer) && hits == LeftHits(v, c, scanned) &&
    (s.blocked ==> scanned == LeftCount(v, c, bound, offer) < offer)
  }

  /** One turn of the left loop. */
  method TakeLeft(fl: Rounding, pages: seq<Page>, leafRanks: seq<nat>, q: real, s: DiskSide, available: nat,
                  bound: real, ghost v: View, ghost ls: seq<nat>, ghost c: Cursor, ghost offer: nat, ghost scanned: nat,
                  ghost hits: seq<Entry>)
    returns (s': DiskSide, count: nat, more: seq<Entry>, moved: bool)
    requires Chain(pages, ls) && Ranked(ls, leafRanks) && LeftWalk(v, pages, ls, s, c, bound, offer, scanned, hits)
    requires fl == v.fl && q == v.query && s.active && !s.blocked
    requires 0 < available && available <= s.index + 1 && scanned + available <= offer
    ensures count <= available && s'.blocked == (count < available)
    ensures LeftWalk(v, pages, ls, s', c, bound, offer, scanned + count, hits + more)
    ensures moved <==> count == s.index + 1 && s'.active
  {
    count, more := CutLeft(fl, pages[s.page], q, s, available, bound, v, pages, ls, c, offer, scanned);
    s', moved := StepLeft(pages, leafRanks, ls, s.(blocked := count < available), count);
  }

  lemma LeftWalkDone(v: View, pages: seq<Page>, ls: seq<nat>, s: DiskSide, c: Cursor, bound: real,
                   limit: nat, scope: Scope, scanned: nat, hits: seq<Entry>)
    requires Chain(pages, ls) && v.Valid() && InBounds(v, c) && !c.leftBlocked
    requires var offer := LeftOffer(v, c, limit, scope);
             LeftWalk(v, pages, ls, s, c, bound, offer, scanned, hits) && (s.blocked || scanned == offer)
    ensures ScanLeft(v, c, bound, limit, scope)
         == (c.(left := LeftAt(pages, ls, s), leftBlocked := s.blocked), hits)
  {}

  /** The left loop of BPlusTreeIndex::scan_impl: cut leaf after leaf until the
      limit, the window edge or the end; a region scan stops at a leaf boundary. */
  method LoopLeft(fl: Rounding, pages: seq<Page>, leafRanks: seq<nat>, q: real, s0: DiskSide,
                  bound: real, limit: nat, scope: Scope,
                  ghost v: View, ghost ls: seq<nat>, ghost c: Cursor, ghost offer: nat)
    returns (s: DiskSide, hits: seq<Entry>)
    requires Chain(pages, ls) && Ranked(ls, leafRanks) && fl == v.fl && q == v.query
    requires LeftWalk(v, pages, ls, s0, c, bound, offer, 0, []) && s0.active && !s0.blocked
    requires offer == Min(limit, if scope == Region then s0.index + 1 else c.left + 1)
    ensures LeftWalk(v, pages, ls, s, c, bound, offer, |hits|, hits) && (s.blocked || |hits| == offer)
  {
    s, hits := s0, [];
    var scanned := 0;
    while scanned < limit && s.active && !s.blocked
      invariant LeftWalk(v, pages, ls, s, c, bound, offer, scanned, hits) && scanned == |hits|
      invariant scope == Region ==>
        (s == s0 && scanned == 0) || s.blocked || (scanned == offer && (scanned == limit || !s.active))
      decreases limit - scanned, !s.blocked
    {
      var available := Min(limit - scanned, s.index + 1);
      ghost var was := hits;
      var count, more, moved;
      s, count, more, moved := TakeLeft(fl, pages, leafRanks, q, s, available, bound, v, ls, c, offer, scanned, was);
      hits := hits + more;
      scanned := scanned + count;
      if moved && scope == Region {
        break;
      }
    }
  }

  method WalkLeft(fl: Rounding, pages: seq<Page>, leafRanks: seq<nat>, q: real, s0: DiskSide,
                  bound: real, limit: nat, scope: Scope, ghost v: View, ghost ls: seq<nat>, ghost c: Cursor)
    returns (s: DiskSide, hits: seq<Entry>)
    requires Chain(pages, ls) && Ranked(ls, leafRanks) && SideOk(pages, ls, s0)
    requires v == ChainView(fl, pages, ls, q) && Straddles(v, c)
    requires c.left == LeftAt(pages, ls, s0) && c.leftBlocked == s0.blocked
    ensures SideOk(pages, ls, s)
    ensures ScanLeft(v, c, bound, limit, scope)
         == (c.(left := LeftAt(pages, ls, s), leftBlocked := s.blocked), hits)
  {
    hide LowerBound, Contents, Offset, LeftCount, LeftHits, RegionOf, NextStart;
    if !s0.active || s0.blocked {
      return s0, [];
    }
    LeafIsRegion(fl, pages, ls, q, s0.rank, s0.index);
    ghost var offer := LeftOffer(v, c, limit, scope);
    s, hits := LoopLeft(fl, pages, leafRanks, q, s0, bound, limit, scope, v, ls, c, offer);
    LeftWalkDone(v, pages, ls, s, c, bound, limit, scope, |hits|, hits);
  }

  /** Where a right walk stands after {scanned} entries of its offer. */
  ghost predicate RightWalk(v: View, pages: seq<Page>, ls: seq<nat>, s: DiskSide, c: Cursor, bound: real,
                         offer: nat, scanned: nat, hits: seq<Entry>)
    requires Chain(pages, ls)
  {
    SideOk(pages, ls, s) && v == ChainView(v.fl, pages, ls, v.query) && Straddles(v, c) &&
    c.right + offer <= |v.entries| && RightAt(pages, ls, s) == c.right + scanned &&
    scanned <= offer && scanned <= RightCount(v, c, bound, offer) && hits == RightHits(v, c, scanned) &&
    (s.blocked ==> scanned == RightCount(v, c, bound, offer) < offer)
  }

  /** One turn of the right loop. */
  method TakeRight(fl: Rounding, pages: seq<Page>, leafRanks: seq<nat>, q: real, s: DiskSide, available: nat,
                   bound: real, ghost v: View, ghost ls: seq<nat>, ghost c: Cursor, ghost offer: nat,
                   ghost scanned: nat, ghost hits: seq<Entry>)
    returns (s': DiskSide, count: nat, more: seq<Entry>, moved: bool)
    requires Chain(pages, ls) && Ranked(ls, leafRanks) && RightWalk(v, pages, ls, s, c, bound, offer, scanned, hits)
    requires fl == v.fl && q == v.query && s.active && !s.blocked
    requires 0 < available && s.index + available <= |pages[s.page].entries| && scanned + available <= offer
    ensures count <= available && s'.blocked == (count < available)
    ensures RightWalk(v, pages, ls, s', c, bound, offer, scanned + count, hits + more)
    ensures moved <==> count == |pages[s.page].entries| - s.index && s'.active
  {
    count, more := CutRight(fl, pages[s.page], q, s, available, bound, v, pages, ls, c, offer, scanned);
    s', moved := StepRight(pages, leafRanks, ls, s.(blocked := count < available), count);
  }

  lemma RightWalkDone(v: View, pages: seq<Page>, ls: seq<nat>, s: DiskSide, c: Cursor, bound: real,
                   limit: nat, scope: Scope, scanned: nat, hits: seq<Entry>)
    requires Chain(pages, ls) && v.Valid() && InBounds(v, c) && !c.rightBlocked
    requires var offer := RightOffer(v, c, limit, scope);
             RightWalk(v, pages, ls, s, c, bound, offer, scanned, hits) && (s.blocked || scanned == offer)
    ensures ScanRight(v, c, bound, limit, scope)
         == (c.(right := RightAt(pages, ls, s), rightBlocked := s.blocked), hits)
  {}

  /** The rest of a leaf lies inside the table. */
  lemma RightRun(v: View, pages: seq<Page>, ls: seq<nat>, s: DiskSide)
    requires Chain(pages, ls) && v == ChainView(v.fl, pages, ls, v.query) && SideOk(pages, ls, s) && s.active
    ensures RightAt(pages, ls, s) + (|pages[s.page].entries| - s.index) <= |v.entries|
  {
    LeafIsRegion(v.fl, pages, ls, v.query, s.rank, s.index);
  }

  /** The right loop of BPlusTreeIndex::scan_impl. */
  method LoopRight(fl: Rounding, pages: seq<Page>, leafRanks: seq<nat>, q: real, s0: DiskSide,
                  bound: real, limit: nat, scope: Scope,
                  ghost v: View, ghost ls: seq<nat>, ghost c: Cursor, ghost offer: nat)
    returns (s: DiskSide, hits: seq<Entry>)
    requires Chain(pages, ls) && Ranked(ls, leafRanks) && fl == v.fl && q == v.query
    requires RightWalk(v, pages, ls, s0, c, bound, offer, 0, []) && s0.active && !s0.blocked
    requires offer == Min(limit, if scope == Region then |pages[s0.page].entries| - s0.index else |v.entries| - c.right)
    ensures RightWalk(v, pages, ls, s, c, bound, offer, |hits|, hits) && (s.blocked || |hits| == offer)
  {
    s, hits := s0, [];
    var scanned := 0;
    while scanned < limit && s.active && !s.blocked
      invariant RightWalk(v, pages, ls, s, c, bound, offer, scanned, hits) && scanned == |hits|
      invariant scope == Region ==>
        (s == s0 && scanned == 0) || s.blocked || (scanned == offer && (scanned == limit || !s.active))
      decreases limit - scanned, !s.blocked
    {
      RightRun(v, pages, ls, s);
      var available := Min(limit - scanned, |pages[s.page].entries| - s.index);
      ghost var was := hits;
      var count, more, moved;
      s, count, more, moved := TakeRight(fl, pages, leafRanks, q, s, available, bound, v, ls, c, offer, scanned, was);
      hits := hits + more;
      scanned := scanned + count;
      if moved && scope == Region {
        break;
      }
    }
  }

  method WalkRight(fl: Rounding, pages: seq<Page>, leafRanks: seq<nat>, q: real, s0: DiskSide,
                  bound: real, limit: nat, scope: Scope, ghost v: View, ghost ls: seq<nat>, ghost c: Cursor)
    returns (s: DiskSide, hits: seq<Entry>)
    requires Chain(pages, ls) && Ranked(ls, leafRanks) && SideOk(pages, ls, s0)
    requires v == ChainView(fl, pages, ls, q) && Straddles(v, c)
    requires c.right == RightAt(pages, ls, s0) && c.rightBlocked == s0.blocked
    ensures SideOk(pages, ls, s)
    ensures ScanRight(v, c, bound, limit, scope)
         == (c.(right := RightAt(pages, ls, s), rightBlocked := s.blocked), hits)
  {
    hide LowerBound, Contents, Offset, RightCount, RightHits, RegionOf, NextStart;
    if !s0.active || s0.blocked {
      return s0, [];
    }
    LeafIsRegion(fl, pages, ls, q, s0.rank, s0.index);
    ghost var offer := RightOffer(v, c, limit, scope);
    s, hits := LoopRight(fl, pages, leafRanks, q, s0, bound, limit, scope, v, ls, c, offer);
    RightWalkDone(v, pages, ls, s, c, bound, limit, scope, |hits|, hits);
  }

}
