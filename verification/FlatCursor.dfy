/** The resumable two-sided cursor over a flat table: the meaning every storage
    layout's scan has to agree with. */
module FlatCursor {
  import opened Tables
  import opened WindowClamp

  datatype Scope = Quantum | Region

  /** One table as one query sees it. Region scans stop at the next start. */
  datatype View = View(fl: Rounding, entries: seq<Entry>, query: real, starts: seq<nat>) {
    ghost predicate Valid() {
      Ordered(entries) && ValidStarts(starts, |entries|)
    }
  }

  /** left and right are the next positions outward; -1 and |entries| mean none.
      last is None for the initial bound of minus infinity. */
  datatype Cursor = Cursor(left: int, right: nat, leftBlocked: bool, rightBlocked: bool, last: Option<real>)

  datatype Call = Call(bound: real, limit: nat, scope: Scope)

  datatype Report = Report(entriesVisited: nat, windowExhausted: bool, tableExhausted: bool)

  datatype Scanned = Scanned(cursor: Cursor, hits: seq<Entry>, report: Report)

  // ---- regions ---------------------------------------------------------

  ghost predicate ValidStarts(starts: seq<nat>, n: nat) {
    n > 0 && |starts| > 0 && starts[0] == 0 &&
    (forall k :: 0 <= k < |starts| ==> starts[k] < n) &&
    forall k, m :: 0 <= k < m < |starts| ==> starts[k] < starts[m]
  }

  function NextStart(starts: seq<nat>, n: nat, k: nat): nat {
    if k + 1 < |starts| then starts[k + 1] else n
  }

  ghost predicate InRegion(starts: seq<nat>, n: nat, i: nat, k: nat) {
    k < |starts| && starts[k] <= i < NextStart(starts, n, k)
  }

  ghost function RegionOf(starts: seq<nat>, n: nat, i: nat): (k: nat)
    requires ValidStarts(starts, n) && i < n
    ensures InRegion(starts, n, i, k)
  {
    RegionBefore(starts, n, i, |starts|)
  }

  ghost function RegionBefore(starts: seq<nat>, n: nat, i: nat, top: nat): (k: nat)
    requires ValidStarts(starts, n) && i < n && 0 < top <= |starts| && i < NextStart(starts, n, top - 1)
    ensures InRegion(starts, n, i, k)
  {
    if starts[top - 1] <= i then top - 1 else RegionBefore(starts, n, i, top - 1)
  }

  lemma RegionUnique(starts: seq<nat>, n: nat, i: nat, k: nat)
    requires ValidStarts(starts, n) && i < n && InRegion(starts, n, i, k)
    ensures RegionOf(starts, n, i) == k
  {
    var r := RegionOf(starts, n, i);
    assert forall a: nat, b: nat :: a < b < |starts| ==> NextStart(starts, n, a) <= starts[b];
  }

  // ---- one scan --------------------------------------------------------

  function Min(a: nat, b: nat): nat {
    if a <= b then a else b
  }

  ghost function LeftRoom(v: View, left: nat, scope: Scope): (room: nat)
    requires v.Valid() && left < |v.entries|
    ensures 0 < room <= left + 1
  {
    if scope == Quantum then left + 1
    else left - v.starts[RegionOf(v.starts, |v.entries|, left)] + 1
  }

  ghost function RightRoom(v: View, right: nat, scope: Scope): (room: nat)
    requires v.Valid() && right < |v.entries|
    ensures 0 < room <= |v.entries| - right
  {
    if scope == Quantum then |v.entries| - right
    else NextStart(v.starts, |v.entries|, RegionOf(v.starts, |v.entries|, right)) - right
  }

  function LeftRange(v: View, left: nat, count: nat): (r: HitRange)
    requires left < |v.entries| && count <= left + 1
    ensures r.Valid()
  {
    HitRange(v.entries, left, count, true, v.query)
  }

  function RightRange(v: View, right: nat, count: nat): (r: HitRange)
    requires right + count <= |v.entries|
    ensures r.Valid()
  {
    HitRange(v.entries, right, count, false, v.query)
  }

  function LeftLimit(limit: nat, scope: Scope): nat {
    if scope == Region then limit else limit / 2 + limit % 2
  }

  function RightLimit(limit: nat, scope: Scope, visited: nat): nat
    requires visited <= limit
  {
    if scope == Region then limit
    else if limit / 2 == 0 then limit - visited else limit / 2
  }

  predicate InBounds(v: View, c: Cursor) {
    -1 <= c.left < |v.entries| && c.right <= |v.entries|
  }

  /** How many entries a side may offer in this call. */
  ghost function LeftOffer(v: View, c: Cursor, limit: nat, scope: Scope): nat
    requires v.Valid() && InBounds(v, c)
  {
    if c.left < 0 || c.leftBlocked then 0 else Min(limit, LeftRoom(v, c.left, scope))
  }

  ghost function RightOffer(v: View, c: Cursor, limit: nat, scope: Scope): nat
    requires v.Valid() && InBounds(v, c)
  {
    if c.right == |v.entries| || c.rightBlocked then 0 else Min(limit, RightRoom(v, c.right, scope))
  }

  /** The leading entries of the offer that lie in the window. */
  ghost function LeftCount(v: View, c: Cursor, bound: real, offer: nat): (count: nat)
    requires InBounds(v, c) && offer <= c.left + 1
    ensures count <= offer
  {
    if offer == 0 then 0 else PrefixLength(v.fl, LeftRange(v, c.left, offer), bound)
  }

  ghost function RightCount(v: View, c: Cursor, bound: real, offer: nat): (count: nat)
    requires InBounds(v, c) && c.right + offer <= |v.entries|
    ensures count <= offer
  {
    if offer == 0 then 0 else PrefixLength(v.fl, RightRange(v, c.right, offer), bound)
  }

  function LeftHits(v: View, c: Cursor, count: nat): (hits: seq<Entry>)
    requires InBounds(v, c) && count <= c.left + 1
    ensures |hits| == count
  {
    if count == 0 then [] else LeftRange(v, c.left, count).Hits()
  }

  function RightHits(v: View, c: Cursor, count: nat): (hits: seq<Entry>)
    requires InBounds(v, c) && c.right + count <= |v.entries|
    ensures |hits| == count
  {
    RightRange(v, c.right, count).Hits()
  }

  ghost function ScanLeft(v: View, c: Cursor, bound: real, limit: nat, scope: Scope): (r: (Cursor, seq<Entry>))
    requires v.Valid() && InBounds(v, c)
    ensures InBounds(v, r.0) && |r.1| <= limit && r.0.right == c.right && r.0.rightBlocked == c.rightBlocked
    ensures r.0.last == c.last
  {
    var offer := LeftOffer(v, c, limit, scope);
    var count := LeftCount(v, c, bound, offer);
    (c.(left := c.left - count, leftBlocked := c.leftBlocked || count < offer), LeftHits(v, c, count))
  }

  ghost function ScanRight(v: View, c: Cursor, bound: real, limit: nat, scope: Scope): (r: (Cursor, seq<Entry>))
    requires v.Valid() && InBounds(v, c)
    ensures InBounds(v, r.0) && |r.1| <= limit && r.0.left == c.left && r.0.leftBlocked == c.leftBlocked
    ensures r.0.last == c.last
  {
    var offer := RightOffer(v, c, limit, scope);
    var count := RightCount(v, c, bound, offer);
    (c.(right := c.right + count, rightBlocked := c.rightBlocked || count < offer), RightHits(v, c, count))
  }

  predicate Admissible(c: Cursor, call: Call) {
    call.limit > 0 && call.bound >= 0.0 && (c.last.None? || c.last.value <= call.bound)
  }

  /** A larger bound reopens both sides. */
  function Reopen(c: Cursor, bound: real): Cursor {
    if c.last.Some? && bound <= c.last.value then c
    else c.(leftBlocked := false, rightBlocked := false, last := Some(bound))
  }

  predicate TableExhausted(v: View, c: Cursor) {
    c.left == -1 && c.right == |v.entries|
  }

  predicate WindowExhausted(v: View, c: Cursor) {
    (c.left == -1 || c.leftBlocked) && (c.right == |v.entries| || c.rightBlocked)
  }

  /** One scan call: left side, then right side, then the report. */
  ghost function Scan(v: View, c: Cursor, call: Call): Scanned
    requires v.Valid() && InBounds(v, c) && Admissible(c, call)
  {
    var c0 := Reopen(c, call.bound);
    var (c1, leftHits) := ScanLeft(v, c0, call.bound, LeftLimit(call.limit, call.scope), call.scope);
    var (c2, rightHits) := ScanRight(v, c1, call.bound, RightLimit(call.limit, call.scope, |leftHits|), call.scope);
    Scanned(c2, leftHits + rightHits,
            Report(|leftHits| + |rightHits|, WindowExhausted(v, c2), TableExhausted(v, c2)))
  }

  ghost function Reset(v: View): (c: Cursor)
    requires v.Valid()
    ensures InBounds(v, c)
  {
    var p := LowerBound(v.entries, v.query);
    Cursor(p - 1, p, false, false, None)
  }

  // ---- what a cursor knows ---------------------------------------------

  ghost predicate InWindow(v: View, i: nat, bound: real)
    requires i < |v.entries|
  {
    Inside(v.fl, v.query, v.entries[i].value, bound)
  }

  ghost predicate Straddles(v: View, c: Cursor)
    requires v.Valid()
  {
    InBounds(v, c) && c.left < LowerBound(v.entries, v.query) <= c.right
  }

  ghost predicate AllInWindow(v: View, lo: int, hi: nat, bound: real)
    requires -1 <= lo && hi <= |v.entries|
  {
    forall i :: lo < i < hi ==> InWindow(v, i, bound)
  }

  /** The positions straddle the query, everything between them is inside the
      last bound, and a blocked side rests on an entry outside it. */
  ghost predicate Sound(v: View, c: Cursor)
    requires v.Valid()
  {
    Straddles(v, c) &&
    match c.last
    case None => c.left + 1 == c.right && !c.leftBlocked && !c.rightBlocked
    case Some(bound) =>
      AllInWindow(v, c.left, c.right, bound) &&
      (c.leftBlocked ==> c.left >= 0 && !InWindow(v, c.left, bound)) &&
      (c.rightBlocked ==> c.right < |v.entries| && !InWindow(v, c.right, bound))
  }

  lemma LeftOutward(v: View, left: nat, count: nat, bound: real)
    requires v.Valid() && left < LowerBound(v.entries, v.query) && count <= left + 1
    ensures Outward(v.fl, LeftRange(v, left, count), bound)
  {
    var r := LeftRange(v, left, count);
    forall i, j | 0 <= i < j < r.count && r.In(v.fl, bound, j)
      ensures r.In(v.fl, bound, i)
    {
      assert KeyLess(v.entries[left - j], v.entries[left - i]);
      InsideTowardsQuery(v.fl, v.query, r.At(i).value, r.At(j).value, bound);
    }
  }

  lemma RightOutward(v: View, right: nat, count: nat, bound: real)
    requires v.Valid() && LowerBound(v.entries, v.query) <= right && right + count <= |v.entries|
    ensures Outward(v.fl, RightRange(v, right, count), bound)
  {
    var r := RightRange(v, right, count);
    forall i, j | 0 <= i < j < r.count && r.In(v.fl, bound, j)
      ensures r.In(v.fl, bound, i)
    {
      assert KeyLess(v.entries[right + i], v.entries[right + j]);
      InsideTowardsQuery(v.fl, v.query, r.At(i).value, r.At(j).value, bound);
    }
  }

  /** The entries lo..hi read from the high end down. */
  function Backward(t: seq<Entry>, lo: nat, hi: nat): (r: seq<Entry>)
    requires lo <= hi <= |t|
    ensures |r| == hi - lo
    ensures forall k :: 0 <= k < hi - lo ==> r[k] == t[hi - 1 - k]
  {
    if lo == hi then [] else [t[hi - 1]] + Backward(t, lo, hi - 1)
  }

  lemma {:induction false} BackwardBag(t: seq<Entry>, lo: nat, hi: nat)
    requires lo <= hi <= |t|
    ensures multiset(Backward(t, lo, hi)) == multiset(t[lo..hi])
  {
    if lo == hi {
    } else {
      BackwardBag(t, lo, hi - 1);
      assert Backward(t, lo, hi) == [t[hi - 1]] + Backward(t, lo, hi - 1);
      assert t[lo..hi] == t[lo..hi - 1] + [t[hi - 1]];
      hide Backward;
      BagSwap([t[hi - 1]], Backward(t, lo, hi - 1), t[lo..hi - 1]);
    }
  }

  lemma BagSwap(x: seq<Entry>, s: seq<Entry>, r: seq<Entry>)
    requires multiset(s) == multiset(r)
    ensures multiset(x + s) == multiset(r + x)
  {}

  lemma ForwardHits(v: View, right: nat, count: nat)
    requires right + count <= |v.entries|
    ensures RightRange(v, right, count).Hits() == v.entries[right..right + count]
  {}

  lemma LeftSwept(v: View, c: Cursor, bound: real, offer: nat)
    requires v.Valid() && InBounds(v, c) && 0 < offer <= c.left + 1
    ensures var count := LeftCount(v, c, bound, offer);
            AllInWindow(v, c.left - count, c.left + 1, bound) &&
            (count < offer ==> !InWindow(v, c.left - count, bound))
  {
    var count := LeftCount(v, c, bound, offer);
    var range := LeftRange(v, c.left, offer);
    forall i | c.left - count < i < c.left + 1
      ensures InWindow(v, i, bound)
    {
      assert range.In(v.fl, bound, c.left - i);
    }
    assert count < offer ==> !range.In(v.fl, bound, count);
  }

  lemma RightSwept(v: View, c: Cursor, bound: real, offer: nat)
    requires v.Valid() && InBounds(v, c) && 0 < offer && c.right + offer <= |v.entries|
    ensures var count := RightCount(v, c, bound, offer);
            AllInWindow(v, c.right - 1, c.right + count, bound) &&
            (count < offer ==> !InWindow(v, c.right + count, bound))
  {
    var count := RightCount(v, c, bound, offer);
    var range := RightRange(v, c.right, offer);
    forall i | c.right - 1 < i < c.right + count
      ensures InWindow(v, i, bound)
    {
      assert range.In(v.fl, bound, i - c.right);
    }
    assert count < offer ==> !range.In(v.fl, bound, count);
  }

  lemma LeftHitsBackward(v: View, c: Cursor, count: nat)
    requires InBounds(v, c) && count <= c.left + 1
    ensures LeftHits(v, c, count) == Backward(v.entries, c.left + 1 - count, c.left + 1)
  {}

  /** What a left scan does to a sound cursor. */
  lemma ScanLeftSound(v: View, c: Cursor, bound: real, limit: nat, scope: Scope)
    requires v.Valid() && Sound(v, c) && c.last == Some(bound)
    ensures var r := ScanLeft(v, c, bound, limit, scope);
            Sound(v, r.0) && r.0.left <= c.left &&
            r.1 == Backward(v.entries, r.0.left + 1, c.left + 1)
  {
    hide LowerBound, PrefixLength, Backward, LeftHits, RegionOf;
    var offer := LeftOffer(v, c, limit, scope);
    var count := LeftCount(v, c, bound, offer);
    if offer > 0 {
      LeftSwept(v, c, bound, offer);
    }
    LeftHitsBackward(v, c, count);
  }

  lemma ScanRightSound(v: View, c: Cursor, bound: real, limit: nat, scope: Scope)
    requires v.Valid() && Sound(v, c) && c.last == Some(bound)
    ensures var r := ScanRight(v, c, bound, limit, scope);
            Sound(v, r.0) && c.right <= r.0.right && r.1 == v.entries[c.right..r.0.right]
  {
    var offer := RightOffer(v, c, limit, scope);
    var count := RightCount(v, c, bound, offer);
    ForwardHits(v, c.right, count);
    if offer > 0 {
      RightSwept(v, c, bound, offer);
    }
  }

  lemma ReopenSound(v: View, c: Cursor, bound: real)
    requires v.Valid() && Sound(v, c) && (c.last.None? || c.last.value <= bound)
    ensures Sound(v, Reopen(c, bound)) && Reopen(c, bound).last == Some(bound)
  {
    if c.last.Some? {
      forall i | c.left < i < c.right
        ensures InWindow(v, i, bound)
      {
        assert InWindow(v, i, c.last.value);
      }
    }
  }

  lemma SoundBounds(v: View, c: Cursor)
    requires v.Valid() && Sound(v, c)
    ensures 0 <= c.left + 1 <= c.right <= |v.entries|
  {}

  /** The entries a scan from c to d sweeps over, in delivery order. */
  function Swept(v: View, c: Cursor, d: Cursor): seq<Entry>
    requires InBounds(v, c) && InBounds(v, d) && d.left <= c.left && c.right <= d.right
  {
    Backward(v.entries, d.left + 1, c.left + 1) + v.entries[c.right..d.right]
  }

  /** One call delivers exactly the entries its positions sweep over, left side
      first and outward, and reports how many. */
  lemma ScanSound(v: View, c: Cursor, call: Call)
    requires v.Valid() && Sound(v, c) && Admissible(c, call)
    ensures var s := Scan(v, c, call);
            Sound(v, s.cursor) && s.cursor.last == Some(call.bound) &&
            s.cursor.left <= c.left && c.right <= s.cursor.right &&
            s.hits == Swept(v, c, s.cursor) && s.report.entriesVisited == |s.hits|
  {
    hide Sound, ScanLeft, ScanRight, LowerBound, Backward;
    ReopenSound(v, c, call.bound);
    var c0 := Reopen(c, call.bound);
    SoundBounds(v, c);
    SoundBounds(v, c0);
    ScanLeftSound(v, c0, call.bound, LeftLimit(call.limit, call.scope), call.scope);
    var (c1, leftHits) := ScanLeft(v, c0, call.bound, LeftLimit(call.limit, call.scope), call.scope);
    ScanRightSound(v, c1, call.bound, RightLimit(call.limit, call.scope, |leftHits|), call.scope);
  }

  /** When a sound cursor has exhausted its window, what lies between its
      positions is the whole window: nothing is missed and nothing is extra. */
  lemma WindowIsDelivered(v: View, c: Cursor, i: nat)
    requires v.Valid() && Sound(v, c) && c.last.Some? && i < |v.entries| && WindowExhausted(v, c)
    ensures c.left < i < c.right <==> InWindow(v, i, c.last.value)
  {
    var p := LowerBound(v.entries, v.query);
    var b := c.last.value;
    if i <= c.left {
      assert i == c.left || KeyLess(v.entries[i], v.entries[c.left]);
      if InWindow(v, i, b) {
        InsideTowardsQuery(v.fl, v.query, v.entries[c.left].value, v.entries[i].value, b);
        assert false;
      }
    } else if c.right <= i {
      assert i == c.right || KeyLess(v.entries[c.right], v.entries[i]);
      if InWindow(v, i, b) {
        InsideTowardsQuery(v.fl, v.query, v.entries[c.right].value, v.entries[i].value, b);
        assert false;
      }
    }
  }

  // ---- whole runs ------------------------------------------------------

  /** State of one cursor after some calls: where it is and all it delivered. */
  datatype Trace = Trace(cursor: Cursor, delivered: seq<Entry>, reports: seq<Option<Report>>)

  /** A call the index refuses leaves the cursor alone and delivers nothing. */
  ghost function Step(v: View, t: Trace, call: Call): Trace
    requires v.Valid() && InBounds(v, t.cursor)
  {
    if Admissible(t.cursor, call) then
      var s := Scan(v, t.cursor, call);
      Trace(s.cursor, t.delivered + s.hits, t.reports + [Some(s.report)])
    else
      t.(reports := t.reports + [None])
  }

  ghost function Run(v: View, calls: seq<Call>): (t: Trace)
    requires v.Valid()
    ensures InBounds(v, t.cursor)
  {
    if calls == [] then Trace(Reset(v), [], [])
    else Step(v, Run(v, calls[..|calls| - 1]), calls[|calls| - 1])
  }

  lemma JoinBags(d: seq<Entry>, d0: seq<Entry>, x: seq<Entry>, x0: seq<Entry>, z: seq<Entry>)
    requires multiset(d) == multiset(d0) && multiset(x) == multiset(x0)
    ensures multiset(d + (x + z)) == multiset(x0 + d0 + z)
  {}

  lemma SweepBag(t: seq<Entry>, delivered: seq<Entry>, a: nat, b: nat, c: nat, d: nat)
    requires a <= b <= c <= d <= |t| && multiset(delivered) == multiset(t[b..c])
    ensures multiset(delivered + (Backward(t, a, b) + t[c..d])) == multiset(t[a..d])
  {
    BackwardBag(t, a, b);
    assert t[a..b] + t[b..c] + t[c..d] == t[a..d];
    JoinBags(delivered, t[b..c], Backward(t, a, b), t[a..b], t[c..d]);
  }

  lemma SweepRun(v: View, delivered: seq<Entry>, c: Cursor, d: Cursor)
    requires v.Valid() && Sound(v, c) && Sound(v, d) && d.left <= c.left && c.right <= d.right
    requires multiset(delivered) == multiset(v.entries[c.left + 1..c.right])
    ensures multiset(delivered + Swept(v, c, d)) == multiset(v.entries[d.left + 1..d.right])
  {
    SoundBounds(v, c);
    SoundBounds(v, d);
    hide Sound, Backward, LowerBound;
    SweepBag(v.entries, delivered, d.left + 1, c.left + 1, c.right, d.right);
  }

  lemma BeginSound(v: View)
    requires v.Valid()
    ensures Sound(v, Reset(v)) && Reset(v).left + 1 == Reset(v).right
  {}

  /** After any sequence of calls whatever: the delivered entries are exactly the
      open interval between the two positions, each once. */
  lemma {:induction false} RunInvariant(v: View, calls: seq<Call>)
    requires v.Valid()
    ensures var t := Run(v, calls);
            Sound(v, t.cursor) &&
            multiset(t.delivered) == multiset(v.entries[t.cursor.left + 1..t.cursor.right])
  {
    hide Scan, Sound, Swept, Admissible;
    if calls == [] {
      BeginSound(v);
      var p := LowerBound(v.entries, v.query);
      assert v.entries[p..p] == [];
    } else {
      var before := Run(v, calls[..|calls| - 1]);
      RunInvariant(v, calls[..|calls| - 1]);
      var call := calls[|calls| - 1];
      if Admissible(before.cursor, call) {
        ScanSound(v, before.cursor, call);
        var after := Run(v, calls);
        assert after.delivered == before.delivered + Swept(v, before.cursor, after.cursor);
        SweepRun(v, before.delivered, before.cursor, after.cursor);
      }
    }
  }

  /** What one scan delivers lies within the bound of that scan. */
  lemma HitsInside(v: View, c: Cursor, call: Call, i: nat)
    requires v.Valid() && Sound(v, c) && Admissible(c, call)
    ensures InBounds(v, c)
    ensures i < |Scan(v, c, call).hits| ==> Inside(v.fl, v.query, Scan(v, c, call).hits[i].value, call.bound)
  {
    ScanSound(v, c, call);
    SoundBounds(v, c);
    var s := Scan(v, c, call);
    SoundBounds(v, s.cursor);
    hide Scan;
    if i < |s.hits| {
      SweptAt(v, c, s.cursor, i);
      var at := if i < c.left - s.cursor.left then c.left - i else c.right + (i - (c.left - s.cursor.left));
      assert InWindow(v, at, call.bound);
    }
  }

  lemma SweptAt(v: View, c: Cursor, d: Cursor, i: nat)
    requires 0 <= d.left + 1 <= c.left + 1 <= c.right <= d.right <= |v.entries| && i < |Swept(v, c, d)|
    ensures var left := c.left - d.left;
            if i < left then Swept(v, c, d)[i] == v.entries[c.left - i]
            else c.right + (i - left) < d.right && Swept(v, c, d)[i] == v.entries[c.right + (i - left)]
  {}

  lemma {:induction false} RunPrefix(v: View, calls: seq<Call>, k: nat)
    requires v.Valid() && k <= |calls|
    ensures Run(v, calls[..k]).delivered <= Run(v, calls).delivered
    decreases |calls|
  {
    if k == |calls| {
      assert calls[..k] == calls;
    } else {
      var front := calls[..|calls| - 1];
      RunPrefix(v, front, k);
      assert front[..k] == calls[..k];
      hide Scan;
    }
  }

  lemma StepHits(v: View, t: Trace, call: Call, i: nat)
    requires v.Valid() && Sound(v, t.cursor) && |t.delivered| <= i
    ensures InBounds(v, t.cursor)
    ensures i < |Step(v, t, call).delivered| ==>
              -call.bound <= v.fl(v.query - Step(v, t, call).delivered[i].value) <= call.bound
  {
    SoundBounds(v, t.cursor);
    if Admissible(t.cursor, call) {
      HitsInside(v, t.cursor, call, i - |t.delivered|);
    }
    hide Scan, Sound;
  }

  /** Every entry a run delivers lies within the bound of the call that delivered it:
      those of call k come after what was there before it. */
  lemma RunHitsInside(v: View, calls: seq<Call>, k: nat, i: nat)
    requires v.Valid() && k < |calls|
    requires |Run(v, calls[..k]).delivered| <= i < |Run(v, calls[..k + 1]).delivered|
    ensures i < |Run(v, calls).delivered|
    ensures -calls[k].bound <= v.fl(v.query - Run(v, calls).delivered[i].value) <= calls[k].bound
  {
    hide *;
    RunPrefix(v, calls, k + 1);
    RunInvariant(v, calls[..k]);
    assert calls[..k + 1] == calls[..k] + [calls[k]];
    RunExtends(v, calls[..k], calls[k]);
    StepHits(v, Run(v, calls[..k]), calls[k], i);
  }

  lemma WholeBag(t: seq<Entry>, delivered: seq<Entry>, a: nat, b: nat)
    requires a <= b <= |t| && multiset(delivered) == multiset(t[a..b])
    ensures multiset(delivered) == multiset(t) <==> a == 0 && b == |t|
  {
    if a == 0 && b == |t| {
      assert t[a..b] == t;
    } else {
      assert |multiset(delivered)| == |t[a..b]| < |multiset(t)|;
    }
  }

  lemma RunExtends(v: View, calls: seq<Call>, call: Call)
    requires v.Valid()
    ensures Run(v, calls + [call]) == Step(v, Run(v, calls), call)
  {
    assert (calls + [call])[..|calls|] == calls;
  }

  lemma ReportTable(v: View, c: Cursor, call: Call)
    requires v.Valid() && InBounds(v, c) && Admissible(c, call)
    ensures var s := Scan(v, c, call);
            s.report.tableExhausted <==> s.cursor.left == -1 && s.cursor.right == |v.entries|
  {}

  /** The table_exhausted flag of the latest report, after any run: everything
      has been delivered, and only then. */
  lemma RunTableExhausted(v: View, calls: seq<Call>, call: Call)
    requires v.Valid() && Admissible(Run(v, calls).cursor, call)
    ensures Scan(v, Run(v, calls).cursor, call).report.tableExhausted
       <==> multiset(Run(v, calls + [call]).delivered) == multiset(v.entries)
  {
    hide Scan, Sound, Run;
    RunExtends(v, calls, call);
    RunInvariant(v, calls + [call]);
    var t := Run(v, calls + [call]);
    ReportTable(v, Run(v, calls).cursor, call);
    SoundBounds(v, t.cursor);
    WholeBag(v.entries, t.delivered, t.cursor.left + 1, t.cursor.right);
  }

  /** The window_exhausted flag of the latest report, after any run: the interval
      delivered so far is exactly the window of the bound. */
  lemma RunWindowExhausted(v: View, calls: seq<Call>, call: Call, i: nat)
    requires v.Valid() && Admissible(Run(v, calls).cursor, call) && i < |v.entries|
    requires Scan(v, Run(v, calls).cursor, call).report.windowExhausted
    ensures var c := Run(v, calls + [call]).cursor;
            c.left < i < c.right <==> -call.bound <= v.fl(v.query - v.entries[i].value) <= call.bound
  {
    RunExtends(v, calls, call);
    RunInvariant(v, calls);
    assert Run(v, calls + [call]).cursor == Scan(v, Run(v, calls).cursor, call).cursor;
    hide Run, LowerBound;
    ScanWindow(v, Run(v, calls).cursor, call, i);
  }

  lemma ScanWindow(v: View, c: Cursor, call: Call, i: nat)
    requires v.Valid() && Sound(v, c) && InBounds(v, c) && Admissible(c, call) && i < |v.entries|
    requires Scan(v, c, call).report.windowExhausted
    ensures var d := Scan(v, c, call).cursor;
            d.left < i < d.right <==> -call.bound <= v.fl(v.query - v.entries[i].value) <= call.bound
  {
    ScanSound(v, c, call);
    var d := Scan(v, c, call).cursor;
    assert WindowExhausted(v, d);
    hide Scan, Swept, Sound, LowerBound, WindowExhausted;
    WindowIsDelivered(v, d, i);
  }

  // ---- progress --------------------------------------------------------

  ghost function OpenSides(v: View, c: Cursor): nat {
    (if c.left >= 0 && !c.leftBlocked then 1 else 0) +
    (if c.right < |v.entries| && !c.rightBlocked then 1 else 0)
  }

  /** Entries still to deliver plus sides still open. */
  ghost function Remaining(v: View, c: Cursor): nat
    requires InBounds(v, c)
  {
    (c.left + 1) + (|v.entries| - c.right) + OpenSides(v, c)
  }

  /** A scan of a table with an open side gets somewhere, even one entry at a
      time, when the right side lives on what the left side leaves over. */
  lemma ScanProgress(v: View, c: Cursor, call: Call)
    requires v.Valid() && InBounds(v, c) && Admissible(c, call)
    requires !WindowExhausted(v, Reopen(c, call.bound))
    ensures var s := Scan(v, c, call);
            InBounds(v, s.cursor) && Remaining(v, s.cursor) < Remaining(v, Reopen(c, call.bound))
  {
    var c0 := Reopen(c, call.bound);
    var (c1, leftHits) := ScanLeft(v, c0, call.bound, LeftLimit(call.limit, call.scope), call.scope);
    if c0.left >= 0 && !c0.leftBlocked {
      assert LeftOffer(v, c0, LeftLimit(call.limit, call.scope), call.scope) > 0;
      assert Remaining(v, c1) < Remaining(v, c0);
    } else {
      assert leftHits == [] && c1 == c0;
      assert RightLimit(call.limit, call.scope, 0) > 0;
    }
  }
}
