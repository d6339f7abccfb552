/** TableScanSchedule: the strategy's own record of which tables are waiting,
    complete for the current radius, or used up. */
module Schedule {
  import opened Tables
  import opened FlatCursor

  /** The schedule's fields as one value. */
  datatype Sched = Sched(tableCount: nat, exhaustedTables: nat, completedTables: nat,
                         exhausted: seq<bool>, completed: seq<bool>, pending: seq<nat>)

  function CountTrue(marks: seq<bool>): (c: nat)
    ensures c <= |marks|
  {
    if marks == [] then 0 else CountTrue(marks[..|marks| - 1]) + (if marks[|marks| - 1] then 1 else 0)
  }

  lemma {:induction false} CountUpdate(marks: seq<bool>, t: nat)
    requires t < |marks|
    ensures CountTrue(marks[t := true]) == CountTrue(marks) + (if marks[t] then 0 else 1)
  {
    var front, last := marks[..|marks| - 1], |marks| - 1;
    if t == last {
      assert marks[t := true][..last] == front;
    } else {
      CountUpdate(front, t);
      assert marks[t := true][..last] == front[t := true];
    }
  }

  lemma {:induction false} CountAll(marks: seq<bool>)
    ensures CountTrue(marks) == |marks| <==> forall t :: 0 <= t < |marks| ==> marks[t]
  {
    if marks == [] {
    } else {
      CountAll(marks[..|marks| - 1]);
      assert forall t :: 0 <= t < |marks| ==>
               marks[t] == (if t == |marks| - 1 then marks[t] else marks[..|marks| - 1][t]);
    }
  }

  /** The unmarked table numbers in ascending order. */
  function Unmarked(marks: seq<bool>): (open: seq<nat>)
    ensures forall t: nat :: t in open <==> t < |marks| && !marks[t]
    ensures forall i, j :: 0 <= i < j < |open| ==> open[i] < open[j]
  {
    if marks == [] then []
    else
      var last := |marks| - 1;
      var front := Unmarked(marks[..last]);
      assert forall i :: 0 <= i < |front| ==> front[i] in front;
      assert forall t :: t in front ==> t < last;
      assert forall t: nat :: t in front + [last] <==> t in front || t == last;
      if marks[last] then front else front + [last]
  }

  lemma UnmarkedNext(marks: seq<bool>, t: nat)
    requires t < |marks|
    ensures Unmarked(marks[..t + 1]) == Unmarked(marks[..t]) + if marks[t] then [] else [t]
  {
    assert marks[..t + 1][..t] == marks[..t];
  }

  lemma MarksNext(a: seq<bool>, b: seq<bool>, t: nat)
    requires t < |a| == |b| && a[..t] == b[..t]
    ensures a[t := b[t]][..t + 1] == b[..t + 1]
  {
    assert a[t := b[t]][..t + 1] == a[..t] + [b[t]];
    assert b[..t + 1] == b[..t] + [b[t]];
  }

  // ---- the operations --------------------------------------------------

  function StartSched(tableCount: nat): Sched {
    Sched(tableCount, 0, 0, seq(tableCount, _ => false), seq(tableCount, _ => false),
          Unmarked(seq(tableCount, _ => false)))
  }

  predicate Sized(s: Sched) {
    |s.exhausted| == |s.completed| == s.tableCount
  }

  function BoundarySched(s: Sched, table: nat, report: Report): (s': Sched)
    requires Sized(s) && table < s.tableCount
    ensures Sized(s') && s'.tableCount == s.tableCount
  {
    var newly := report.tableExhausted && !s.exhausted[table];
    var exhausted := if newly then s.exhausted[table := true] else s.exhausted;
    var exhaustedTables := s.exhaustedTables + if newly then 1 else 0;
    if report.windowExhausted || report.tableExhausted then
      var completedTables := s.completedTables + if s.completed[table] then 0 else 1;
      s.(exhausted := exhausted, exhaustedTables := exhaustedTables,
         completed := s.completed[table := true], completedTables := completedTables)
    else
      s.(exhausted := exhausted, exhaustedTables := exhaustedTables,
         pending := if exhausted[table] then s.pending else s.pending + [table])
  }

  function AdvanceSched(s: Sched): (s': Sched)
    requires Sized(s)
    ensures Sized(s') && s'.tableCount == s.tableCount
  {
    s.(completed := s.exhausted, completedTables := s.exhaustedTables, pending := Unmarked(s.exhausted))
  }

  // ---- what the record means -------------------------------------------

  /** Both counters count their marks, and an exhausted table is complete. */
  ghost predicate LedgerOk(exhausted: seq<bool>, exhaustedTables: nat, completed: seq<bool>, completedTables: nat) {
    |exhausted| == |completed| && exhaustedTables == CountTrue(exhausted) && completedTables == CountTrue(completed) &&
    forall t :: 0 <= t < |exhausted| && exhausted[t] ==> completed[t]
  }

  ghost predicate SchedOk(s: Sched) {
    Sized(s) && LedgerOk(s.exhausted, s.exhaustedTables, s.completed, s.completedTables)
  }

  /** Each incomplete table waits exactly once; taken, if any, is out being scanned. */
  ghost predicate Waiting(s: Sched, taken: Option<nat>) {
    Sized(s) && NoDuplicates(s.pending) &&
    forall t: nat :: t in s.pending <==> t < s.tableCount && !s.completed[t] && taken != Some(t)
  }

  lemma StartSchedOk(tableCount: nat)
    ensures SchedOk(StartSched(tableCount)) && Waiting(StartSched(tableCount), None)
  {
    NoneMarked(tableCount);
  }

  lemma {:induction false} NoneMarked(size: nat)
    ensures CountTrue(seq(size, _ => false)) == 0
  {
    if size == 0 {
    } else {
      NoneMarked(size - 1);
      var marks := seq(size, _ => false);
      assert marks[..size - 1] == seq(size - 1, _ => false);
    }
  }

  /** Taking the front table leaves every other incomplete table waiting. */
  lemma TakeKeeps(s: Sched)
    requires SchedOk(s) && Waiting(s, None) && s.pending != []
    ensures s.pending[0] < s.tableCount && !s.completed[s.pending[0]] && !s.exhausted[s.pending[0]]
    ensures Waiting(s.(pending := s.pending[1..]), Some(s.pending[0]))
  {
    var rest := s.pending[1..];
    assert s.pending == [s.pending[0]] + rest;
    assert s.pending[0] in s.pending;
    assert forall t: nat :: t in s.pending <==> t == s.pending[0] || t in rest;
  }

  lemma BoundaryKeeps(s: Sched, table: nat, report: Report)
    requires SchedOk(s) && table < s.tableCount && Waiting(s, Some(table)) && !s.completed[table]
    ensures SchedOk(BoundarySched(s, table, report)) && Waiting(BoundarySched(s, table, report), None)
  {
    CountUpdate(s.exhausted, table);
    CountUpdate(s.completed, table);
    var s' := BoundarySched(s, table, report);
    if !(report.windowExhausted || report.tableExhausted) {
      assert s'.pending == s.pending + [table];
      assert forall t: nat :: t in s'.pending <==> t in s.pending || t == table;
    }
  }

  lemma AdvanceKeeps(s: Sched)
    requires SchedOk(s)
    ensures SchedOk(AdvanceSched(s)) && Waiting(AdvanceSched(s), None)
  {}

  /** The queue runs dry exactly when the round is complete. */
  lemma EmptyQueue(s: Sched)
    requires SchedOk(s) && Waiting(s, None)
    ensures s.pending == [] <==> s.completedTables == s.tableCount
  {
    CountAll(s.completed);
    if s.pending == [] {
      assert forall t: nat :: t < s.tableCount ==> t !in s.pending;
    } else {
      assert s.pending[0] in s.pending;
    }
  }

  // ---- taking turns ----------------------------------------------------

  ghost predicate Numbered(s: Sched) {
    Sized(s) && forall i :: 0 <= i < |s.pending| ==> s.pending[i] < s.tableCount
  }

  /** One table taken from the front, scanned and reported. */
  function ServeOne(s: Sched, report: Report): Sched
    requires Sized(s) && s.pending != [] && s.pending[0] < s.tableCount
  {
    BoundarySched(s.(pending := s.pending[1..]), s.pending[0], report)
  }

  lemma ServeKeeps(s: Sched, report: Report)
    requires Numbered(s) && s.pending != []
    ensures var s' := ServeOne(s, report); Numbered(s') && s.pending[1..] <= s'.pending && s'.tableCount == s.tableCount
  {}

  /** Serving tables one after another: which ones, and what is left. */
  ghost function Serve(s: Sched, reports: seq<Report>): (r: (Sched, seq<nat>))
    requires Numbered(s) && |reports| <= |s.pending|
    decreases |reports|
  {
    if reports == [] then (s, [])
    else
      ServeKeeps(s, reports[0]);
      var (end, taken) := Serve(ServeOne(s, reports[0]), reports[1..]);
      (end, [s.pending[0]] + taken)
  }

  /** Tables are served in the order in which they wait, and one that is put back waits
      behind all the others. */
  lemma {:induction false} RoundRobin(s: Sched, reports: seq<Report>)
    requires Numbered(s) && |reports| <= |s.pending|
    ensures Serve(s, reports).1 == s.pending[..|reports|]
    ensures s.pending[|reports|..] <= Serve(s, reports).0.pending
    decreases |reports|
  {
    if reports == [] {
    } else {
      var next := ServeOne(s, reports[0]);
      ServeKeeps(s, reports[0]);
      RoundRobin(next, reports[1..]);
      assert next.pending[..|reports| - 1] == s.pending[1..|reports|];
      assert s.pending[..|reports|] == [s.pending[0]] + s.pending[1..|reports|];
      assert s.pending[|reports|..] == s.pending[1..][|reports| - 1..] <= next.pending[|reports| - 1..];
      hide ServeOne;
    }
  }

  // ---- the object ------------------------------------------------------

  class TableScanSchedule {
    var tableCount: nat
    var exhaustedTables: nat
    var completedTables: nat
    var tableExhausted: seq<bool>
    var tableCompleted: seq<bool>
    var pendingTables: seq<nat>

    constructor ()
      ensures Value() == Sched(0, 0, 0, [], [], [])
    {
      tableCount, exhaustedTables, completedTables := 0, 0, 0;
      tableExhausted, tableCompleted, pendingTables := [], [], [];
    }

    ghost function Value(): Sched
      reads this
    {
      Sched(tableCount, exhaustedTables, completedTables, tableExhausted, tableCompleted, pendingTables)
    }

    method Start(tableCount: nat)
      modifies this
      ensures Value() == StartSched(tableCount)
      ensures SchedOk(Value()) && Waiting(Value(), None)
    {
      StartSchedOk(tableCount);
      this.tableCount, exhaustedTables, completedTables := tableCount, 0, 0;
      tableExhausted := seq(tableCount, _ => false);
      tableCompleted := seq(tableCount, _ => false);
      pendingTables := [];
      ghost var marks := seq(tableCount, _ => false);
      for table := 0 to tableCount
        invariant pendingTables == Unmarked(marks[..table])
        invariant Value() == StartSched(tableCount).(pending := pendingTables)
      {
        assert marks[..table + 1][..table] == marks[..table];
        pendingTables := pendingTables + [table];
      }
      assert marks[..tableCount] == marks;
    }

    /** With each incomplete table waiting once: the next of them, now the only one
        out, or none because the round is complete. */
    method NextTable() returns (table: Option<nat>)
      modifies `pendingTables
      ensures old(pendingTables) == [] ==> table == None && pendingTables == []
      ensures old(pendingTables) != [] ==>
                table == Some(old(pendingTables)[0]) && pendingTables == old(pendingTables)[1..]
      ensures SchedOk(Value()) && old(Waiting(Value(), None)) ==>
                SchedOk(Value()) && Waiting(Value(), table) &&
                (table.None? <==> completedTables == tableCount) &&
                (table.Some? ==> table.value < tableCount && !tableCompleted[table.value])
    {
      if SchedOk(Value()) && Waiting(Value(), None) {
        EmptyQueue(Value());
        if pendingTables != [] {
          TakeKeeps(Value());
        }
      }
      if pendingTables == [] {
        return None;
      }
      table := Some(pendingTables[0]);
      pendingTables := pendingTables[1..];
    }

    /** The table that was out waits again, or is complete for this radius. */
    method OnScanBoundary(table: nat, report: Report)
      requires Sized(Value()) && table < tableCount
      modifies this
      ensures Value() == BoundarySched(old(Value()), table, report)
      ensures old(SchedOk(Value()) && Waiting(Value(), Some(table)) && !tableCompleted[table]) ==>
                SchedOk(Value()) && Waiting(Value(), None)
    {
      if SchedOk(Value()) && Waiting(Value(), Some(table)) && !tableCompleted[table] {
        BoundaryKeeps(Value(), table, report);
      }
      hide SchedOk, Waiting;
      if report.tableExhausted && !tableExhausted[table] {
        tableExhausted := tableExhausted[table := true];
        exhaustedTables := exhaustedTables + 1;
      }
      var completedWindow := report.windowExhausted || report.tableExhausted;
      if completedWindow {
        if !tableCompleted[table] {
          tableCompleted := tableCompleted[table := true];
          completedTables := completedTables + 1;
        }
        return;
      }
      if !tableExhausted[table] {
        pendingTables := pendingTables + [table];
      }
    }

    /** The tables not used up wait again, each once. */
    method OnRadiusAdvanced()
      requires Sized(Value())
      modifies this
      ensures Value() == AdvanceSched(old(Value()))
      ensures old(SchedOk(Value())) ==> SchedOk(Value()) && Waiting(Value(), None)
    {
      if SchedOk(Value()) {
        AdvanceKeeps(Value());
      }
      hide SchedOk, Waiting, Unmarked;
      assert Unmarked([]) == [];
      pendingTables := [];
      completedTables := exhaustedTables;
      for table := 0 to tableCount
        invariant Sized(Value()) && tableCount == old(tableCount) && tableExhausted == old(tableExhausted)
        invariant exhaustedTables == completedTables == old(exhaustedTables)
        invariant tableCompleted[..table] == tableExhausted[..table]
        invariant pendingTables == Unmarked(tableExhausted[..table])
      {
        hide SchedOk, Waiting;
        UnmarkedNext(tableExhausted, table);
        MarksNext(tableCompleted, tableExhausted, table);
        hide Unmarked;
        if tableExhausted[table] {
          tableCompleted := tableCompleted[table := true];
        } else {
          tableCompleted := tableCompleted[table := false];
          pendingTables := pendingTables + [table];
        }
      }
      assert tableExhausted[..tableCount] == tableExhausted;
      assert tableCompleted[..tableCount] == tableCompleted;
    }

    method AllTablesExhausted() returns (yes: bool)
      ensures yes <==> Value().exhaustedTables == Value().tableCount
    {
      return exhaustedTables == tableCount;
    }
  }
}
