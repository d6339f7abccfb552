/** SortTables: workers claim table numbers from one atomic counter and sort what
    they claim. Any interleaving of their steps, sorting itself included, ends with
    what sorting the tables one by one would give. */
module SortTables {
  import opened Tables

  /** Where a worker is. Worker zero is the calling thread. */
  datatype Phase = NotStarted | Claiming | Sorting(id: nat) | Done

  /** next is the atomic counter; owner remembers who claimed a table. */
  datatype Pool = Pool(tables: seq<seq<Entry>>, next: nat, phases: seq<Phase>, owner: seq<Option<nat>>, aborted: bool)

  /** Atomic steps. A sort is any number of rearrangements of the claimed table that
      ends when the table is in order. Abort is a failed thread start. */
  datatype Move =
    | Start(worker: nat)
    | Claim(worker: nat)
    | Arrange(worker: nat, table: seq<Entry>)
    | Complete(worker: nat)
    | Abort

  ghost function Begin(tables: seq<seq<Entry>>, workers: nat): Pool {
    Pool(tables, 0, seq(workers, _ => NotStarted), seq(|tables|, _ => None), false)
  }

  ghost predicate Started(s: Pool) {
    forall w :: 0 < w < |s.phases| ==> !s.phases[w].NotStarted?
  }

  ghost predicate Enabled(s: Pool, m: Move) {
    match m
    case Start(w) => w < |s.phases| && s.phases[w].NotStarted? && !s.aborted && (w == 0 ==> Started(s))
    case Claim(w) => w < |s.phases| && s.phases[w].Claiming?
    case Arrange(w, table) =>
      w < |s.phases| && s.phases[w].Sorting? && s.phases[w].id < |s.tables| &&
      multiset(table) == multiset(s.tables[s.phases[w].id])
    case Complete(w) =>
      w < |s.phases| && s.phases[w].Sorting? && s.phases[w].id < |s.tables| && Ordered(s.tables[s.phases[w].id])
    case Abort => |s.phases| > 0 && s.phases[0].NotStarted? && !s.aborted && !Started(s)
  }

  ghost function Apply(s: Pool, m: Move): Pool
    requires Enabled(s, m)
  {
    match m
    case Start(w) => s.(phases := s.phases[w := Claiming])
    case Claim(w) =>
      var id := s.next;
      if id >= |s.tables| then s.(next := id + 1, phases := s.phases[w := Done])
      else s.(next := id + 1, phases := s.phases[w := Sorting(id)],
              owner := if id < |s.owner| then s.owner[id := Some(w)] else s.owner)
    case Arrange(w, table) => s.(tables := s.tables[s.phases[w].id := table])
    case Complete(w) => s.(phases := s.phases[w := Claiming])
    case Abort => s.(next := |s.tables|, aborted := true)
  }

  /** Any schedule: moves that cannot happen yet are passed over. */
  ghost function Run(s: Pool, moves: seq<Move>): Pool {
    if moves == [] then s
    else
      var before := Run(s, moves[..|moves| - 1]);
      var m := moves[|moves| - 1];
      if Enabled(before, m) then Apply(before, m) else before
  }

  // ---- what every schedule keeps ---------------------------------------

  /** Table id is untouched, being sorted by its owner, or sorted; after an abort the
      unclaimed ones stay behind. */
  ghost predicate TableOk(s: Pool, tables: seq<seq<Entry>>, id: nat)
    requires id < |s.tables| == |tables| == |s.owner|
  {
    multiset(s.tables[id]) == multiset(tables[id]) &&
    match s.owner[id]
    case None => s.tables[id] == tables[id] && (id < s.next ==> s.aborted)
    case Some(w) => id < s.next && w < |s.phases| && (s.phases[w] == Sorting(id) || Ordered(s.tables[id]))
  }

  /** A worker sorts only what it owns. */
  ghost predicate WorkerOk(s: Pool, w: nat)
    requires w < |s.phases|
  {
    s.phases[w].Sorting? ==> s.phases[w].id < |s.owner| && s.owner[s.phases[w].id] == Some(w)
  }

  ghost predicate DoneOk(s: Pool, w: nat)
    requires w < |s.phases|
  {
    s.phases[w].Done? ==> s.next >= |s.tables|
  }

  ghost predicate Inv(s: Pool, tables: seq<seq<Entry>>) {
    |s.tables| == |tables| == |s.owner| &&
    (forall id :: 0 <= id < |tables| ==> TableOk(s, tables, id)) &&
    (forall w :: 0 <= w < |s.phases| ==> WorkerOk(s, w) && DoneOk(s, w))
  }

  lemma BeginInv(tables: seq<seq<Entry>>, workers: nat)
    ensures Inv(Begin(tables, workers), tables)
  {}

  lemma ClaimKeeps(s: Pool, tables: seq<seq<Entry>>, w: nat)
    requires Inv(s, tables) && Enabled(s, Claim(w))
    ensures Inv(Apply(s, Claim(w)), tables)
    ensures s.next < |tables| ==> s.owner[s.next] == None
  {
    var s' := Apply(s, Claim(w));
    assert s.next < |tables| ==> TableOk(s, tables, s.next);
    hide Ordered;
    forall id | 0 <= id < |tables|
      ensures TableOk(s', tables, id)
    {
      assert TableOk(s, tables, id);
    }
    forall v | 0 <= v < |s.phases|
      ensures WorkerOk(s', v) && DoneOk(s', v)
    {
      assert WorkerOk(s, v) && DoneOk(s, v);
    }
  }

  lemma ArrangeKeeps(s: Pool, tables: seq<seq<Entry>>, w: nat, table: seq<Entry>)
    requires Inv(s, tables) && Enabled(s, Arrange(w, table))
    ensures Inv(Apply(s, Arrange(w, table)), tables)
  {
    var s' := Apply(s, Arrange(w, table));
    assert WorkerOk(s, w);
    hide Ordered;
    forall id | 0 <= id < |tables|
      ensures TableOk(s', tables, id)
    {
      assert TableOk(s, tables, id);
    }
    forall v | 0 <= v < |s.phases|
      ensures WorkerOk(s', v) && DoneOk(s', v)
    {
      assert WorkerOk(s, v) && DoneOk(s, v);
    }
  }

  lemma PhaseKeeps(s: Pool, tables: seq<seq<Entry>>, m: Move)
    requires Inv(s, tables) && Enabled(s, m) && (m.Start? || m.Complete? || m.Abort?)
    ensures Inv(Apply(s, m), tables)
  {
    var s' := Apply(s, m);
    assert m.Complete? ==> WorkerOk(s, m.worker);
    hide Ordered;
    forall id | 0 <= id < |tables|
      ensures TableOk(s', tables, id)
    {
      assert TableOk(s, tables, id);
    }
    forall v | 0 <= v < |s.phases|
      ensures WorkerOk(s', v) && DoneOk(s', v)
    {
      assert WorkerOk(s, v) && DoneOk(s, v);
    }
  }

  lemma {:induction false} RunInv(tables: seq<seq<Entry>>, workers: nat, moves: seq<Move>)
    ensures Inv(Run(Begin(tables, workers), moves), tables)
    ensures |Run(Begin(tables, workers), moves).phases| == workers
  {
    if moves == [] {
      BeginInv(tables, workers);
    } else {
      RunInv(tables, workers, moves[..|moves| - 1]);
      var s, m := Run(Begin(tables, workers), moves[..|moves| - 1]), moves[|moves| - 1];
      if Enabled(s, m) {
        match m {
          case Start(_) => PhaseKeeps(s, tables, m);
          case Claim(w) => ClaimKeeps(s, tables, w);
          case Arrange(w, table) => ArrangeKeeps(s, tables, w, table);
          case Complete(_) => PhaseKeeps(s, tables, m);
          case Abort => PhaseKeeps(s, tables, m);
        }
      }
    }
  }

  /** Two workers never sort the same table: sorts touch disjoint memory. */
  lemma Exclusive(tables: seq<seq<Entry>>, workers: nat, moves: seq<Move>, v: nat, w: nat)
    requires v < w < workers
    ensures var s := Run(Begin(tables, workers), moves);
            |s.phases| == workers && (s.phases[v].Sorting? && s.phases[w].Sorting? ==> s.phases[v].id != s.phases[w].id)
  {
    RunInv(tables, workers, moves);
    var s := Run(Begin(tables, workers), moves);
    assert WorkerOk(s, v) && WorkerOk(s, w);
  }

  /** A claim takes a table nobody ever claimed, so each table has one sorter. */
  lemma {:induction false} OwnerForLife(tables: seq<seq<Entry>>, workers: nat, moves: seq<Move>, more: seq<Move>,
                                        id: nat)
    requires id < |tables|
    ensures var s, later := Run(Begin(tables, workers), moves), Run(Begin(tables, workers), moves + more);
            |s.owner| == |later.owner| == |tables| && (s.owner[id].Some? ==> later.owner[id] == s.owner[id])
  {
    RunInv(tables, workers, moves);
    if more == [] {
      assert moves + more == moves;
    } else {
      var front, m := more[..|more| - 1], more[|more| - 1];
      OwnerForLife(tables, workers, moves, front, id);
      RunInv(tables, workers, moves + front);
      assert (moves + more)[..|moves + more| - 1] == moves + front;
      var s := Run(Begin(tables, workers), moves + front);
      if Enabled(s, m) && m.Claim? {
        ClaimKeeps(s, tables, m.worker);
      }
      hide Inv, Run;
    }
  }

  ghost predicate Joined(s: Pool) {
    forall w :: 0 <= w < |s.phases| ==> s.phases[w].Done?
  }

  /** When every worker has returned, every table is sorted and holds what it held. */
  lemma SortedWhenJoined(tables: seq<seq<Entry>>, workers: nat, moves: seq<Move>, id: nat)
    requires workers > 0 && id < |tables|
    requires Joined(Run(Begin(tables, workers), moves)) && !Run(Begin(tables, workers), moves).aborted
    ensures var s := Run(Begin(tables, workers), moves);
            |s.tables| == |tables| && Ordered(s.tables[id]) && multiset(s.tables[id]) == multiset(tables[id])
  {
    RunInv(tables, workers, moves);
    var s := Run(Begin(tables, workers), moves);
    assert TableOk(s, tables, id) && DoneOk(s, 0);
    hide Ordered, Run;
  }

  // ---- one sorted order ------------------------------------------------

  /** Insertion by key. */
  function Insert(t: seq<Entry>, e: Entry): (r: seq<Entry>)
    ensures multiset(r) == multiset(t) + multiset{e}
  {
    if t == [] then [e]
    else
      var last := |t| - 1;
      if KeyLess(t[last], e) then
        t + [e]
      else
        assert t == t[..last] + [t[last]];
        Insert(t[..last], e) + [t[last]]
  }

  /** What std::ranges::sort leaves: the entries in key order. */
  function Sort(t: seq<Entry>): (r: seq<Entry>)
    ensures multiset(r) == multiset(t)
  {
    if t == [] then []
    else
      assert t == t[..|t| - 1] + [t[|t| - 1]];
      Insert(Sort(t[..|t| - 1]), t[|t| - 1])
  }

  lemma {:induction false} InsertOrdered(t: seq<Entry>, e: Entry)
    requires Ordered(t) && forall i :: 0 <= i < |t| ==> t[i].id != e.id
    ensures Ordered(Insert(t, e))
  {
    if t == [] {
    } else {
      var last := |t| - 1;
      var front := t[..last];
      assert Ordered(front) by {
        assert forall i, j :: 0 <= i < j < |front| ==> KeyLess(t[i], t[j]);
      }
      if KeyLess(t[last], e) {
        OrderedConcat(t, [e]);
      } else {
        InsertOrdered(front, e);
        var r := Insert(front, e);
        if |r| > 0 {
          var top := r[|r| - 1];
          assert top in multiset(r);
          assert top in multiset(front) + multiset{e};
          assert top in front || top == e;
          if top in front {
            var i :| 0 <= i < |front| && front[i] == top;
            assert KeyLess(t[i], t[last]);
          }
        }
        OrderedConcat(r, [t[last]]);
      }
    }
  }

  lemma {:induction false} SortOrdered(t: seq<Entry>)
    requires DistinctIds(t)
    ensures Ordered(Sort(t))
  {
    if t == [] {
    } else {
      var front, e := t[..|t| - 1], t[|t| - 1];
      SortOrdered(front);
      var r := Sort(front);
      forall i | 0 <= i < |r|
        ensures r[i].id != e.id
      {
        assert r[i] in multiset(r);
        assert r[i] in multiset(front);
        assert r[i] in front;
      }
      InsertOrdered(r, e);
    }
  }

  /** The last entry of an ordered table is its largest. */
  lemma LastIsLargest(t: seq<Entry>, e: Entry)
    requires Ordered(t) && t != [] && e in t
    ensures e == t[|t| - 1] || KeyLess(e, t[|t| - 1])
  {
    var i :| 0 <= i < |t| && t[i] == e;
    assert i == |t| - 1 || KeyLess(t[i], t[|t| - 1]);
  }

  lemma SameLargest(a: seq<Entry>, b: seq<Entry>)
    requires Ordered(a) && Ordered(b) && multiset(a) == multiset(b) && a != []
    ensures b != [] && a[|a| - 1] == b[|b| - 1]
  {
    var x := a[|a| - 1];
    assert x in multiset(b);
    var y := b[|b| - 1];
    assert y in multiset(a);
    LastIsLargest(b, x);
    LastIsLargest(a, y);
  }

  lemma WithoutLast(t: seq<Entry>)
    requires Ordered(t) && t != []
    ensures Ordered(t[..|t| - 1]) && multiset(t[..|t| - 1]) == multiset(t) - multiset{t[|t| - 1]}
  {
    assert t == t[..|t| - 1] + [t[|t| - 1]];
    assert forall i, j :: 0 <= i < j < |t| - 1 ==> KeyLess(t[i], t[j]);
  }

  /** Keys are distinct, so there is only one order. */
  lemma {:induction false} OrderUnique(a: seq<Entry>, b: seq<Entry>)
    requires Ordered(a) && Ordered(b) && multiset(a) == multiset(b)
    ensures a == b
  {
    if a == [] {
      assert |multiset(b)| == 0;
    } else {
      SameLargest(a, b);
      WithoutLast(a);
      WithoutLast(b);
      hide Ordered;
      OrderUnique(a[..|a| - 1], b[..|b| - 1]);
      assert a == a[..|a| - 1] + [a[|a| - 1]] && b == b[..|b| - 1] + [b[|b| - 1]];
    }
  }

  /** The serial build: one worker or none to spare. */
  method SortSerially(tables0: seq<seq<Entry>>) returns (tables: seq<seq<Entry>>)
    ensures |tables| == |tables0| && forall id :: 0 <= id < |tables| ==> tables[id] == Sort(tables0[id])
  {
    tables := tables0;
    for id := 0 to |tables0|
      invariant |tables| == |tables0|
      invariant forall i :: 0 <= i < id ==> tables[i] == Sort(tables0[i])
      invariant forall i :: id <= i < |tables| ==> tables[i] == tables0[i]
    {
      tables := tables[id := Sort(tables[id])];
    }
  }

  /** The parallel build equals the serial one, whatever the schedule. */
  lemma ParallelIsSerial(tables: seq<seq<Entry>>, workers: nat, moves: seq<Move>, id: nat)
    requires workers > 0 && id < |tables| && DistinctIds(tables[id])
    requires Joined(Run(Begin(tables, workers), moves)) && !Run(Begin(tables, workers), moves).aborted
    ensures |Run(Begin(tables, workers), moves).tables| == |tables|
    ensures Run(Begin(tables, workers), moves).tables[id] == Sort(tables[id])
  {
    SortedWhenJoined(tables, workers, moves, id);
    SortOrdered(tables[id]);
    OrderUnique(Run(Begin(tables, workers), moves).tables[id], Sort(tables[id]));
  }

  /** Sorting n distinct ids gives a valid table. */
  lemma SortedTableValid(t: seq<Entry>, n: nat)
    requires |t| == n && DistinctIds(t) && IdsBelow(t, n)
    ensures ValidTable(Sort(t), n)
  {
    SortOrdered(t);
    var r := Sort(t);
    assert |multiset(r)| == |multiset(t)|;
    forall i | 0 <= i < |r|
      ensures r[i].id < n
    {
      assert r[i] in multiset(r);
      assert r[i] in t;
    }
    SortedIdsDistinct(t);
  }

  lemma {:induction false} SortedIdsDistinct(t: seq<Entry>)
    requires DistinctIds(t)
    ensures DistinctIds(Sort(t))
  {
    if t == [] {
    } else {
      var front, e := t[..|t| - 1], t[|t| - 1];
      SortedIdsDistinct(front);
      var r := Sort(front);
      forall i | 0 <= i < |r|
        ensures r[i].id != e.id
      {
        assert r[i] in multiset(r);
        assert r[i] in multiset(front);
        assert r[i] in front;
      }
      InsertDistinct(r, e);
    }
  }

  lemma {:induction false} InsertDistinct(t: seq<Entry>, e: Entry)
    requires DistinctIds(t) && forall i :: 0 <= i < |t| ==> t[i].id != e.id
    ensures DistinctIds(Insert(t, e))
  {
    if t != [] && !KeyLess(t[|t| - 1], e) {
      var front, last := t[..|t| - 1], t[|t| - 1];
      InsertDistinct(front, e);
      var r := Insert(front, e);
      forall i | 0 <= i < |r|
        ensures r[i].id != last.id
      {
        assert r[i] in multiset(r);
        assert r[i] in front || r[i] == e;
      }
    }
  }

  // ---- progress --------------------------------------------------------

  /** Everybody who was started has returned; after a failed start the others never
      will be started. */
  ghost predicate Settled(s: Pool) {
    forall w :: 0 <= w < |s.phases| ==> s.phases[w].Done? || (s.aborted && s.phases[w].NotStarted?)
  }

  function Weight(p: Phase): nat {
    match p
    case NotStarted => 2
    case Claiming => 1
    case Sorting(_) => 2
    case Done => 0
  }

  function Weights(phases: seq<Phase>): nat {
    if phases == [] then 0 else Weights(phases[..|phases| - 1]) + Weight(phases[|phases| - 1])
  }

  lemma {:induction false} WeightsUpdate(phases: seq<Phase>, w: nat, p: Phase)
    requires w < |phases|
    ensures Weights(phases[w := p]) == Weights(phases) - Weight(phases[w]) + Weight(p)
  {
    var last := |phases| - 1;
    if w == last {
      assert phases[w := p][..last] == phases[..last];
    } else {
      WeightsUpdate(phases[..last], w, p);
      assert phases[w := p][..last] == phases[..last][w := p];
    }
  }

  /** Steps still to be made: twice per unclaimed table, and by each worker. */
  function StepsLeft(s: Pool): nat {
    (if s.next < |s.tables| then 2 * (|s.tables| - s.next) else 0) + Weights(s.phases)
  }

  lemma RunNext(tables: seq<seq<Entry>>, workers: nat, moves: seq<Move>, m: Move)
    ensures var s := Run(Begin(tables, workers), moves);
            Run(Begin(tables, workers), moves + [m]) == if Enabled(s, m) then Apply(s, m) else s
  {
    assert (moves + [m])[..|moves|] == moves;
  }

  /** Somebody who has not returned and can move. */
  lemma SomebodyMoves(s: Pool) returns (w: nat)
    requires !Settled(s)
    ensures w < |s.phases| && (s.phases[w].Claiming? || s.phases[w].Sorting? || Enabled(s, Start(w)))
  {
    if v :| 0 <= v < |s.phases| && (s.phases[v].Claiming? || s.phases[v].Sorting?) {
      w := v;
    } else if v :| 0 < v < |s.phases| && s.phases[v].NotStarted? {
      w := v;
    } else {
      w := 0;
    }
  }

  lemma ClaimOrStart(s: Pool, w: nat, m: Move)
    requires w < |s.phases| && Enabled(s, m) && (m == Claim(w) || m == Start(w))
    ensures StepsLeft(Apply(s, m)) < StepsLeft(s) && Apply(s, m).aborted == s.aborted
  {
    WeightsUpdate(s.phases, w, Apply(s, m).phases[w]);
    hide Weights;
  }

  /** Putting the table in order and returning to the counter. */
  lemma SortAndReturn(s: Pool, w: nat, table: seq<Entry>)
    requires w < |s.phases| && Enabled(s, Arrange(w, table)) && Ordered(table)
    ensures var s1 := Apply(s, Arrange(w, table));
            Enabled(s1, Complete(w)) && StepsLeft(Apply(s1, Complete(w))) < StepsLeft(s) &&
            Apply(s1, Complete(w)).aborted == s.aborted
  {
    WeightsUpdate(s.phases, w, Claiming);
    hide Weights, Ordered;
  }

  /** One worker's next step, after putting its table in order if it is sorting. */
  lemma StepOn(tables: seq<seq<Entry>>, workers: nat, moves: seq<Move>, w: nat) returns (more: seq<Move>)
    requires forall id :: 0 <= id < |tables| ==> DistinctIds(tables[id])
    requires var s := Run(Begin(tables, workers), moves);
             w < |s.phases| && (s.phases[w].Claiming? || s.phases[w].Sorting? || Enabled(s, Start(w)))
    ensures var s, s' := Run(Begin(tables, workers), moves), Run(Begin(tables, workers), moves + more);
            StepsLeft(s') < StepsLeft(s) && s'.aborted == s.aborted
  {
    RunInv(tables, workers, moves);
    var s := Run(Begin(tables, workers), moves);
    assert WorkerOk(s, w);
    hide Ordered, Sort, Run, Apply, StepsLeft, DistinctIds;
    if s.phases[w].Sorting? {
      var id := s.phases[w].id;
      assert TableOk(s, tables, id);
      SortOrdered(tables[id]);
      more := [Arrange(w, Sort(tables[id])), Complete(w)];
      SortAndReturn(s, w, Sort(tables[id]));
      RunNext(tables, workers, moves, more[0]);
      RunNext(tables, workers, moves + [more[0]], more[1]);
      assert moves + [more[0]] + [more[1]] == moves + more;
    } else {
      var m := if s.phases[w].Claiming? then Claim(w) else Start(w);
      more := [m];
      ClaimOrStart(s, w, m);
      RunNext(tables, workers, moves, m);
    }
  }

  /** From every state a schedule can reach, failed starts included, the started workers
      can all still return, and nobody has to fail for it. */
  lemma {:induction false} NoDeadlock(tables: seq<seq<Entry>>, workers: nat, moves: seq<Move>) returns (more: seq<Move>)
    requires forall id :: 0 <= id < |tables| ==> DistinctIds(tables[id])
    ensures Settled(Run(Begin(tables, workers), moves + more))
    ensures Run(Begin(tables, workers), moves + more).aborted == Run(Begin(tables, workers), moves).aborted
    decreases StepsLeft(Run(Begin(tables, workers), moves))
  {
    var s := Run(Begin(tables, workers), moves);
    hide Run, Settled, StepsLeft, Enabled;
    if Settled(s) {
      more := [];
      assert moves + more == moves;
    } else {
      var w := SomebodyMoves(s);
      var first := StepOn(tables, workers, moves, w);
      var rest := NoDeadlock(tables, workers, moves + first);
      more := first + rest;
      assert moves + first + rest == moves + more;
    }
  }
}
