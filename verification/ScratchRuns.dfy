/** Whole histories of a scratch pool: leases taken and given back in any order, nested
    or not, for indexes of any sizes. */
module ScratchRuns {
  import opened RangeDriver
  import opened Scratch

  /** What the queries of one thread do: lease a scratch for an index of some size,
      submit a point to the query holding a lease, give a lease back. */
  datatype Move = Acquire(size: nat) | Submit(lease: nat, point: nat) | Release(lease: nat)

  /** A query in terms of sets: its size, whether it still runs, and its points. */
  datatype Lease = Lease(size: nat, live: bool, points: set<nat>)

  /** A move on a lease that is over, or of a point the index has not, is not made. */
  predicate Fits(leases: seq<Lease>, move: Move) {
    match move
    case Acquire(_) => true
    case Submit(i, p) => i < |leases| && leases[i].live && p < leases[i].size
    case Release(i) => i < |leases| && leases[i].live
  }

  function Moved(leases: seq<Lease>, move: Move): seq<Lease> {
    if !Fits(leases, move) then leases
    else
      match move
      case Acquire(n) => leases + [Lease(n, true, {})]
      case Submit(i, p) => leases[i := leases[i].(points := leases[i].points + {p})]
      case Release(i) => leases[i := leases[i].(live := false)]
  }

  function Leases(moves: seq<Move>): seq<Lease> {
    if moves == [] then [] else Moved(Leases(moves[..|moves| - 1]), moves[|moves| - 1])
  }

  /** The k-th move submits point p under lease i, while that lease is live. */
  ghost predicate SubmittedAt(moves: seq<Move>, i: nat, p: nat, k: nat) {
    k < |moves| && moves[k] == Submit(i, p) && Fits(Leases(moves[..k]), moves[k])
  }

  lemma {:induction false} LeasesGrow(moves: seq<Move>, k: nat)
    requires k <= |moves|
    ensures |Leases(moves[..k])| <= |Leases(moves)|
  {
    if k == |moves| {
      assert moves[..k] == moves;
    } else {
      var front := moves[..|moves| - 1];
      LeasesGrow(front, k);
      assert front[..k] == moves[..k];
    }
  }

  lemma SubmittedBefore(moves: seq<Move>, i: nat, p: nat, k: nat)
    requires k < |moves| - 1
    ensures SubmittedAt(moves, i, p, k) <==> SubmittedAt(moves[..|moves| - 1], i, p, k)
    ensures SubmittedAt(moves, i, p, k) ==> i < |Leases(moves[..|moves| - 1])|
  {
    var front := moves[..|moves| - 1];
    assert front[..k] == moves[..k];
    LeasesGrow(front, k);
  }

  /** The points of a lease are those submitted under it while it was live: nothing
      another lease did shows, and nothing is lost. */
  lemma {:induction false} LeasePoints(moves: seq<Move>, i: nat, p: nat)
    requires i < |Leases(moves)|
    ensures p in Leases(moves)[i].points <==> exists k :: SubmittedAt(moves, i, p, k)
  {
    if moves == [] {
    } else {
      var front, last := moves[..|moves| - 1], moves[|moves| - 1];
      var before := Leases(front);
      forall k: nat | k < |front|
        ensures SubmittedAt(moves, i, p, k) <==> SubmittedAt(front, i, p, k)
        ensures SubmittedAt(moves, i, p, k) ==> i < |before|
      {
        SubmittedBefore(moves, i, p, k);
      }
      assert SubmittedAt(moves, i, p, |front|) <==> last == Submit(i, p) && Fits(before, last);
      assert Leases(moves) == Moved(before, last);
      if i < |before| {
        LeasePoints(front, i, p);
      }
      hide Leases, SubmittedAt;
      LastMove(moves, i, p, before, last);
    }
  }

  lemma LastMove(moves: seq<Move>, i: nat, p: nat, before: seq<Lease>, last: Move)
    requires moves != [] && i < |Moved(before, last)|
    requires SubmittedAt(moves, i, p, |moves| - 1) <==> last == Submit(i, p) && Fits(before, last)
    requires forall k: nat :: k < |moves| - 1 && SubmittedAt(moves, i, p, k) ==> i < |before|
    requires i < |before| ==>
             (p in before[i].points <==> exists k: nat :: k < |moves| - 1 && SubmittedAt(moves, i, p, k))
    ensures p in Moved(before, last)[i].points <==> exists k: nat :: SubmittedAt(moves, i, p, k)
  {
    assert forall k: nat :: SubmittedAt(moves, i, p, k) ==> k < |moves|;
    hide Leases;
  }

  /** A lease and the scratch behind it: the marked points are the submitted ones. */
  ghost predicate Backed(pool: ScratchPool, s: QueryScratch, lease: Lease)
    reads pool, pool.entries, pool.Arrays()
  {
    lease.live ==>
      s in pool.entries && s.inUse && lease.size <= s.seenEpochs.Length && s.Seen(lease.size) == lease.points
  }

  /** Every live lease has a scratch of its own that marks exactly its points. */
  ghost predicate Faithful(pool: ScratchPool, held: seq<QueryScratch>, leases: seq<Lease>)
    reads pool, pool.entries, pool.Arrays()
  {
    |held| == |leases| &&
    (forall i :: 0 <= i < |held| ==> Backed(pool, held[i], leases[i])) &&
    forall i, j :: 0 <= i < j < |held| && leases[i].live && leases[j].live ==> held[i] != held[j]
  }

  /** None of these scratches backs a live lease. */
  ghost predicate Apart(held: seq<QueryScratch>, leases: seq<Lease>, others: set<QueryScratch>) {
    |held| == |leases| && forall i :: 0 <= i < |held| && leases[i].live ==> held[i] !in others
  }

  method PlayAcquire(pool: ScratchPool, n: nat, held: seq<QueryScratch>, ghost leases: seq<Lease>)
    returns (scratch: QueryScratch)
    requires pool.Valid() && Faithful(pool, held, leases)
    modifies pool, pool.entries, pool.Arrays()
    ensures pool.Valid() && pool.Grows()
    ensures Faithful(pool, held + [scratch], leases + [Lease(n, true, {})])
    ensures forall s :: s in old(pool.entries) && old(s.inUse) ==> s != scratch && s.Kept()
  {
    hide Marked;
    scratch := pool.Acquire(n);
  }

  method PlaySubmit(pool: ScratchPool, i: nat, p: nat, held: seq<QueryScratch>, ghost leases: seq<Lease>)
    requires pool.Valid() && Faithful(pool, held, leases) && Fits(leases, Submit(i, p))
    modifies pool.Arrays()
    ensures pool.Valid() && pool.Grows()
    ensures Faithful(pool, held, Moved(leases, Submit(i, p)))
    ensures forall s :: s in old(pool.entries) && s != held[i] ==> s.Kept()
  {
    hide Marked;
    assert Backed(pool, held[i], leases[i]);
    held[i].Mark(p, leases[i].size);
  }

  method PlayRelease(pool: ScratchPool, i: nat, held: seq<QueryScratch>, ghost leases: seq<Lease>)
    requires pool.Valid() && Faithful(pool, held, leases) && Fits(leases, Release(i))
    modifies pool.entries
    ensures pool.Valid() && pool.Grows()
    ensures Faithful(pool, held, Moved(leases, Release(i)))
    ensures forall s :: s in old(pool.entries) && s != held[i] ==> s.Kept()
  {
    hide Marked;
    assert Backed(pool, held[i], leases[i]);
    pool.Release(held[i]);
  }

  /** One move, made or not. */
  method PlayMove(pool: ScratchPool, move: Move, held0: seq<QueryScratch>, leases: seq<Lease>,
                  ghost others: set<QueryScratch>)
    returns (held: seq<QueryScratch>)
    requires pool.Valid() && Faithful(pool, held0, leases) && Apart(held0, leases, others)
    requires forall s :: s in others ==> s in pool.entries && s.inUse
    modifies pool, pool.entries, pool.Arrays()
    ensures pool.Valid() && pool.Grows()
    ensures Faithful(pool, held, Moved(leases, move)) && Apart(held, Moved(leases, move), others)
    ensures forall s :: s in others ==> s.Kept()
  {
    hide Marked, Faithful;
    held := held0;
    if Fits(leases, move) {
      match move {
        case Acquire(n) =>
          var scratch := PlayAcquire(pool, n, held, leases);
          held := held + [scratch];
        case Submit(i, p) =>
          PlaySubmit(pool, i, p, held, leases);
        case Release(i) =>
          PlayRelease(pool, i, held, leases);
      }
    }
  }

  /** Any history on any pool: at its end every live lease marks exactly the points
      submitted under it, and the leases others hold have kept theirs. */
  method Play(pool: ScratchPool, moves: seq<Move>) returns (held: seq<QueryScratch>)
    requires pool.Valid()
    modifies pool, pool.entries, pool.Arrays()
    ensures pool.Valid() && pool.Grows() && Faithful(pool, held, Leases(moves))
    ensures forall s :: s in old(pool.entries) && old(s.inUse) ==> s.Kept()
    ensures Apart(held, Leases(moves), set s | s in old(pool.entries) && old(s.inUse))
  {
    hide Marked, Moved;
    held := [];
    var leases := [];
    ghost var others := set s | s in pool.entries && s.inUse;
    for k := 0 to |moves|
      invariant pool.Valid() && pool.Grows() && leases == Leases(moves[..k])
      invariant Faithful(pool, held, leases) && Apart(held, leases, others)
      invariant forall s :: s in others ==> s in pool.entries && s.inUse && s.Kept()
    {
      hide Marked, Faithful, Apart, Moved;
      assert moves[..k + 1][..k] == moves[..k];
      assert forall a :: a in pool.Arrays() ==> a in old(pool.Arrays()) || fresh(a);
      assert forall i :: 0 <= i < |pool.entries| ==> pool.entries[i] in old(pool.entries) || fresh(pool.entries[i]);
      held := PlayMove(pool, moves[k], held, leases, others);
      leases := Moved(leases, moves[k]);
    }
    assert moves[..|moves|] == moves;
  }
}
