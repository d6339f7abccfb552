/** Per-thread query scratch: leases of epoch-stamped arrays that stand in for a
    fresh set of seen points per query. */
module Scratch {
  import opened RangeDriver

  /** Stamps and the epoch are 32-bit words. */
  const EPOCHS: nat := 0x1_0000_0000

  class QueryScratch {
    var inUse: bool
    var seenEpochs: array<nat>
    var epoch: nat

    constructor ()
      ensures !inUse && epoch == 0 && seenEpochs.Length == 0 && fresh(seenEpochs)
    {
      inUse, epoch := false, 0;
      seenEpochs := new nat[0];
    }

    /** No stamp is ahead of the epoch. */
    ghost predicate Valid()
      reads this, seenEpochs
    {
      epoch < EPOCHS && forall p :: 0 <= p < seenEpochs.Length ==> seenEpochs[p] <= epoch
    }

    /** The points marked in the current epoch. */
    ghost function Seen(n: nat): set<nat>
      requires n <= seenEpochs.Length
      reads this, seenEpochs
    {
      Marked(seenEpochs[..], epoch, n)
    }

    /** Nothing about this scratch has changed. */
    twostate predicate Kept()
      reads this, seenEpochs
    {
      inUse == old(inUse) && epoch == old(epoch) && seenEpochs == old(seenEpochs) &&
      seenEpochs[..] == old(seenEpochs[..])
    }

    /** A larger index needs more stamps; the old ones stay. */
    method Resize(n: nat)
      requires Valid()
      modifies this
      ensures Valid() && seenEpochs.Length >= n && epoch == old(epoch) && inUse == old(inUse)
      ensures seenEpochs == old(seenEpochs) || fresh(seenEpochs)
    {
      if seenEpochs.Length < n {
        var grown := new nat[n];
        for p := 0 to n
          invariant forall i :: 0 <= i < p ==> grown[i] == if i < seenEpochs.Length then seenEpochs[i] else 0
          modifies grown
        {
          grown[p] := if p < seenEpochs.Length then seenEpochs[p] else 0;
        }
        seenEpochs := grown;
      }
    }

    /** The next epoch: all stamps are behind it, also when the 32-bit epoch wraps. */
    method Advance()
      requires Valid()
      modifies this`epoch, seenEpochs
      ensures Valid() && epoch > 0 && forall n :: 0 <= n <= seenEpochs.Length ==> Seen(n) == {}
    {
      epoch := (epoch + 1) % EPOCHS;
      if epoch == 0 {
        for p := 0 to seenEpochs.Length
          invariant forall i :: 0 <= i < p ==> seenEpochs[i] == 0
          invariant epoch == 0
        {
          seenEpochs[p] := 0;
        }
        epoch := 1;
      }
    }

    /** Submitting a point. */
    method Mark(p: nat, ghost n: nat)
      requires Valid() && p < n <= seenEpochs.Length
      modifies seenEpochs
      ensures Valid() && Seen(n) == old(Seen(n)) + {p}
    {
      seenEpochs[p] := epoch;
      assert Seen(n) == old(Seen(n)) + {p};
    }
  }

  /** The thread's pool. */
  class ScratchPool {
    var entries: seq<QueryScratch>

    constructor ()
      ensures Valid() && entries == []
    {
      entries := [];
    }

    ghost function Arrays(): set<array<nat>>
      reads this, entries
    {
      set s | s in entries :: s.seenEpochs
    }

    ghost predicate Valid()
      reads this, entries, Arrays()
    {
      (forall i :: 0 <= i < |entries| ==> entries[i].Valid()) &&
      forall i, j :: 0 <= i < j < |entries| ==>
        entries[i] != entries[j] && entries[i].seenEpochs != entries[j].seenEpochs
    }

    /** The first scratch nobody holds, made if there is none. */
    method FindFree() returns (at: nat)
      requires Valid()
      modifies this
      ensures Valid() && at < |entries| && !entries[at].inUse
      ensures |old(entries)| <= |entries| && entries[..|old(entries)|] == old(entries)
      ensures if |old(entries)| < |entries|
              then at == |old(entries)| == |entries| - 1 && fresh(entries[at]) && fresh(entries[at].seenEpochs)
              else entries == old(entries)
    {
      at := 0;
      while at < |entries| && entries[at].inUse
        invariant at <= |entries|
      {
        at := at + 1;
      }
      if at == |entries| {
        var created := new QueryScratch();
        entries := entries + [created];
      }
    }

    /** The pool only grows: by new scratches, and into new arrays. */
    twostate predicate Grows()
      reads this, entries
    {
      (forall s :: s in old(entries) ==> s in entries) &&
      (forall s :: s in entries ==> s in old(entries) || fresh(s)) &&
      forall s :: s in entries ==> s.seenEpochs in old(Arrays()) || fresh(s.seenEpochs)
    }

    /** A lease: a scratch nobody holds, with no point of this query marked. Every other
        scratch, and so every lease already out, stays as it is. */
    method Acquire(n: nat) returns (scratch: QueryScratch)
      requires Valid()
      modifies this, entries, Arrays()
      ensures Valid() && Grows() && scratch in entries && scratch.inUse && n <= scratch.seenEpochs.Length
      ensures scratch.Seen(n) == {}
      ensures scratch in old(entries) ==> !old(scratch.inUse)
      ensures forall s :: s in entries ==> s in old(entries) || s == scratch
      ensures forall s :: s in old(entries) && s != scratch ==> s.Kept()
    {
      hide Marked;
      var at := FindFree();
      scratch := entries[at];
      assert forall s :: s in old(entries) ==> s in entries[..|old(entries)|];
      Renew(scratch, n);
    }

    method Renew(scratch: QueryScratch, n: nat)
      requires Valid() && scratch in entries && !scratch.inUse
      modifies scratch, scratch.seenEpochs
      ensures Valid() && scratch.inUse && n <= scratch.seenEpochs.Length && scratch.Seen(n) == {}
      ensures scratch.seenEpochs == old(scratch.seenEpochs) || fresh(scratch.seenEpochs)
    {
      hide Marked;
      scratch.inUse := true;
      scratch.Resize(n);
      assert Valid();
      scratch.Advance();
    }

    /** The end of a query. */
    method Release(scratch: QueryScratch)
      requires Valid() && scratch in entries
      modifies scratch`inUse
      ensures Valid() && !scratch.inUse
    {
      scratch.inUse := false;
    }
  }
}
