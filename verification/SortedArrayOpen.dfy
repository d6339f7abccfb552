/** Opening a persisted sorted array: every table is checked to start where the one
    before ends, to be strictly ordered and to hold each point once, with one array of
    marks for all tables. */
module SortedArrayOpen {
  import opened Tables
  import opened PageTree
  import opened ArrayIndexes
  import opened PageCodec
  import opened FileLayout
  import opened ArrayFile

  /** Points of this table seen so far carry this table's mark; no mark is ahead. */
  ghost predicate MarkedBy(marks: seq<nat>, seen: seq<Entry>, mark: nat) {
    (forall p :: 0 <= p < |marks| ==> marks[p] <= mark) &&
    (forall i :: 0 <= i < |seen| ==> seen[i].id < |marks| && marks[seen[i].id] == mark) &&
    forall p :: 0 <= p < |marks| && marks[p] == mark ==> Occurs(seen, p)
  }

  ghost predicate Occurs(seen: seq<Entry>, p: nat) {
    exists i :: 0 <= i < |seen| && seen[i].id == p
  }

  lemma PrefixValid(table: seq<Entry>, i: nat)
    requires i < |table| && Ordered(table[..i]) && DistinctIds(table[..i])
    requires i > 0 ==> KeyLess(table[i - 1], table[i])
    requires !Occurs(table[..i], table[i].id)
    ensures Ordered(table[..i + 1]) && DistinctIds(table[..i + 1])
  {
    assert table[..i + 1] == table[..i] + [table[i]];
    OrderedConcat(table[..i], [table[i]]);
    assert forall j :: 0 <= j < i ==> table[..i][j].id != table[i].id;
  }

  lemma NotValid(table: seq<Entry>, n: nat, i: nat)
    requires i < |table|
    requires table[i].id >= n || (i > 0 && !KeyLess(table[i - 1], table[i])) || Occurs(table[..i], table[i].id)
    ensures !ValidTable(table, n)
  {
    if Occurs(table[..i], table[i].id) {
      var j :| 0 <= j < i && table[..i][j].id == table[i].id;
      assert table[j].id == table[i].id;
    }
    assert i > 0 && Ordered(table) ==> KeyLess(table[i - 1], table[i]);
  }

  lemma MarkNext(marks: seq<nat>, table: seq<Entry>, i: nat, mark: nat)
    requires i < |table| && table[i].id < |marks| && MarkedBy(marks, table[..i], mark)
    ensures MarkedBy(marks[table[i].id := mark], table[..i + 1], mark)
  {
    var marks', seen := marks[table[i].id := mark], table[..i + 1];
    forall p | 0 <= p < |marks'| && marks'[p] == mark
      ensures Occurs(seen, p)
    {
      if p == table[i].id {
        assert seen[i].id == p;
      } else {
        var j :| 0 <= j < i && table[..i][j].id == p;
        assert seen[j].id == p;
      }
    }
    forall j | 0 <= j < |seen|
      ensures seen[j].id < |marks'| && marks'[seen[j].id] == mark
    {
      assert j < i ==> table[..i][j] == seen[j];
    }
  }

  /** What holds while the entries of a table are read. */
  ghost predicate Reading(marks: seq<nat>, table: seq<Entry>, n: nat, i: nat, mark: nat) {
    i <= |table| && |marks| == n && MarkedBy(marks, table[..i], mark) && Ordered(table[..i]) &&
    DistinctIds(table[..i]) &&
    IdsBelow(table[..i], n)
  }

  lemma ReadNext(marks: seq<nat>, table: seq<Entry>, n: nat, i: nat, mark: nat)
    requires Reading(marks, table, n, i, mark) && i < |table| && table[i].id < n && marks[table[i].id] != mark
    requires i > 0 ==> KeyLess(table[i - 1], table[i])
    ensures Reading(marks[table[i].id := mark], table, n, i + 1, mark)
  {
    assert forall j :: 0 <= j < i ==> marks[table[..i][j].id] == mark;
    PrefixValid(table, i);
    MarkNext(marks, table, i, mark);
    assert table[..i + 1] == table[..i] + [table[i]];
  }

  lemma RefusedEntry(marks: seq<nat>, table: seq<Entry>, n: nat, i: nat, mark: nat)
    requires Reading(marks, table, n, i, mark) && i < |table|
    requires table[i].id >= n || (i > 0 && !KeyLess(table[i - 1], table[i])) || marks[table[i].id] == mark
    ensures !ValidTable(table, n)
  {
    NotValid(table, n, i);
  }

  lemma ReadAll(marks: seq<nat>, table: seq<Entry>, n: nat, mark: nat)
    requires Reading(marks, table, n, n, mark) && |table| == n
    ensures ValidTable(table, n) && forall p :: 0 <= p < n ==> marks[p] == mark
  {
    assert table[..n] == table;
    EveryIdOccurs(table, n);
    forall p | 0 <= p < n
      ensures marks[p] == mark
    {
      assert p in Ids(table);
    }
  }

  /** The scan of one table. */
  method CheckTable(marks: array<nat>, table: seq<Entry>, n: nat, mark: nat) returns (ok: bool)
    requires marks.Length == n && |table| == n && mark > 0 && forall p :: 0 <= p < n ==> marks[p] < mark
    modifies marks
    ensures ok <==> ValidTable(table, n)
    ensures forall p :: 0 <= p < n ==> marks[p] <= mark
  {
    assert table[..0] == [];
    for i := 0 to n
      invariant Reading(marks[..], table, n, i, mark)
    {
      var entry := table[i];
      if entry.id >= n || (i != 0 && !KeyLess(table[i - 1], entry)) || marks[entry.id] == mark {
        RefusedEntry(marks[..], table, n, i, mark);
        return false;
      }
      ReadNext(marks[..], table, n, i, mark);
      hide Reading;
      marks[entry.id] := mark;
    }
    ReadAll(marks[..], table, n, mark);
    assert forall p :: 0 <= p < n ==> marks[..][p] == marks[p];
    for p := 0 to n {
      if marks[p] != mark {
        assert false;
      }
    }
    return true;
  }

  /** The first tables whose offsets and entries have been found right. */
  ghost predicate Checked(f: Floats, file: seq<Byte>, e: Envelope, t: nat)
    requires ArrayEnvelopeOk(e, |file|) && e.roots + 8 * e.tables <= |file| && t <= e.tables
  {
    forall u :: 0 <= u < t ==>
      OffsetAt(file, e, u) == TableStart(e, u) && ValidTable(StoredTables(f, file, e)[u], e.points)
  }

  /** The table checks of load_header, marks carried over from table to table. Once the
      header has been accepted, no extent overflows or passes the end of the file, and
      there is no data tail: of the four refusals only a wrong offset and a wrong table
      can occur. */
  method CheckTables(f: Floats, file: seq<Byte>, e: Envelope) returns (ok: bool, tables: seq<seq<Entry>>)
    requires ArrayEnvelopeOk(e, |file|)
    ensures e.roots + 8 * e.tables <= |file|
    ensures ok <==> Contiguous(file, e) && ValidTables(StoredTables(f, file, e), e.points)
    ensures ok ==> tables == StoredTables(f, file, e)
  {
    ArrayEnvelopeSound(e, |file|);
    tables := [];
    var tableBytes := CheckedMultiply(Some(e.points), Some(ENTRY_SIZE));
    MultiplyFits(e.points, ENTRY_SIZE);
    var expected := e.data;
    assert expected == TableStart(e, 0);
    var marks := new nat[e.points](_ => 0);
    for t := 0 to e.tables
      invariant expected == TableStart(e, t) && tables == StoredTables(f, file, e)[..t]
      invariant forall p :: 0 <= p < e.points ==> marks[p] < t + 1
      invariant Checked(f, file, e, t)
    {
      hide ArrayEnvelopeOk, TableStart, Checked, ValidTable, StoredTable;
      TableInside(e, t);
      var offset := OffsetAt(file, e, t);
      if offset != expected {
        WrongOffset(f, file, e, t);
        return false, [];
      }
      var end := CheckedAdd(Some(offset), tableBytes);
      if end.None? || end.value > e.size {
        assert false;
      }
      var table := StoredTable(f, file, offset, e.points);
      assert table == StoredTables(f, file, e)[t];
      var good := CheckTable(marks, table, e.points, t + 1);
      if !good {
        return false, [];
      }
      tables := tables + [table];
      expected := end.value;
      CheckedNext(f, file, e, t);
    }
    if expected != e.size {
      assert false;
    }
    assert tables == StoredTables(f, file, e);
    return true, tables;
  }

  lemma WrongOffset(f: Floats, file: seq<Byte>, e: Envelope, t: nat)
    requires ArrayEnvelopeOk(e, |file|) && e.roots + 8 * e.tables <= |file| && t < e.tables
    requires OffsetAt(file, e, t) != TableStart(e, t)
    ensures !Contiguous(file, e)
  {}

  lemma CheckedNext(f: Floats, file: seq<Byte>, e: Envelope, t: nat)
    requires ArrayEnvelopeOk(e, |file|) && e.roots + 8 * e.tables <= |file| && t < e.tables && Checked(f, file, e, t)
    requires OffsetAt(file, e, t) == TableStart(e, t) && ValidTable(StoredTables(f, file, e)[t], e.points)
    ensures Checked(f, file, e, t + 1)
  {
    hide ValidTable, ArrayEnvelopeOk;
  }

  /** What makes a file a sorted-array index. */
  ghost predicate ArrayFileOk(f: Floats, file: seq<Byte>) {
    HeaderOf(file).Some? &&
    var e := HeaderOf(file).value;
    ArrayEnvelopeOk(e, |file|) && e.roots + 8 * e.tables <= |file| && Contiguous(file, e) &&
    ValidTables(StoredTables(f, file, e), e.points)
  }

  /** Open: exactly the files that are an index, as an array of their tables. */
  method Open(fl: Rounding, f: Floats, file: seq<Byte>) returns (ok: bool, index: SortedArrayIndex?)
    ensures ok <==> ArrayFileOk(f, file)
    ensures ok ==> index != null && fresh(index) && index.Valid() && index.fl == fl &&
                   index.numPoints == HeaderOf(file).value.points &&
                   index.regionCapacity == (HeaderOf(file).value.pageSize - 32) / 8 &&
                   index.tables == StoredTables(f, file, HeaderOf(file).value)
  {
    index := null;
    var header := HeaderOf(file);
    if header.None? || !ArrayEnvelopeOk(header.value, |file|) {
      return false, null;
    }
    var e := header.value;
    assert e.pageSize >= 512;
    hide ArrayEnvelopeOk, HeaderOf;
    var tables;
    ok, tables := CheckTables(f, file, e);
    if ok {
      index := new SortedArrayIndex(fl, tables, e.points, e.pageSize);
    }
  }

  /** Every accepted configuration can be saved, and the saved file opens to the tables
      one put in. */
  method SaveThenOpen(f: Floats, fl: Rounding, tables: seq<seq<Entry>>, n: nat, dimensions: nat, pageSize: nat,
                      s: Surroundings)
    returns (index: SortedArrayIndex)
    requires Accepted(|tables|, dimensions, n, pageSize) && ValidTables(tables, n)
    requires forall t :: 0 <= t < |tables| ==> TableFits(f, tables[t])
    requires |s.front| == 24 && |s.middle| == 40 && |s.vectors| == |tables| * dimensions && Even(s.vectors, 4)
    ensures fresh(index) && index.Valid() && index.fl == fl && index.numPoints == n && index.tables == tables
    ensures index.regionCapacity == (pageSize - 32) / 8
  {
    ArrayPlanSucceeds(|tables|, dimensions, n, pageSize);
    var e := ArrayPlan(|tables|, dimensions, n, pageSize).value;
    hide ArrayPlan, ArrayEnvelopeOk, Even, TableFits, StoredTables, HeaderOf;
    var output := WriteArray(f, tables, e, s);
    TablesBack(f, tables, e, s);
    var ok, loaded := Open(fl, f, output[..]);
    index := loaded;
  }
}
