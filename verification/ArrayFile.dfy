/** A sorted-array index as a file: where its tables lie, the bytes Build writes, and
    what reading them finds. */
module ArrayFile {
  import opened Tables
  import opened PageTree
  import opened ArrayIndexes
  import opened Builder
  import opened PageCodec
  import opened PageReader
  import opened FileLayout

  // ---- the layout ------------------------------------------------------

  /** Bytes of one table. */
  function Extent(e: Envelope): nat {
    e.points * ENTRY_SIZE
  }

  function TableStart(e: Envelope, t: nat): nat {
    e.data + t * Extent(e)
  }

  /** The layout part of ValidateSortedArrayFileHeaderEnvelope. */
  predicate ArrayEnvelopeOk(e: Envelope, actualSize: nat) {
    SizesOk(e) &&
    (var regions := CheckedMultiply(Some((e.points - 1) / LeafCapacity(e.pageSize) + 1), Some(e.tables));
     regions.Some? && e.pageCount == regions.value + 1) &&
    CheckedAdd(Some(e.data), CheckedMultiply(CheckedMultiply(Some(e.points), Some(e.tables)), Some(ENTRY_SIZE))) ==
    Some(e.size) &&
    e.size == actualSize && MetadataOk(e)
  }

  lemma Products(n: nat, tables: nat)
    ensures n * tables * 8 == tables * (n * 8)
  {}

  /** The tables fill the file behind the metadata, one after another. */
  lemma ArrayEnvelopeSound(e: Envelope, actualSize: nat)
    requires ArrayEnvelopeOk(e, actualSize)
    ensures e.roots == HEADER_SIZE && e.roots + 8 * e.tables == e.projections
    ensures e.projections + 4 * (e.tables * e.dimensions) <= e.data
    ensures TableStart(e, e.tables) == e.size == actualSize <= WORD_MAX
  {
    Products(e.points, e.tables);
    hide CheckedMultiply;
    assert CheckedMultiply(Some(e.tables), Some(8)).value == e.tables * 8;
  }

  lemma TableInside(e: Envelope, t: nat)
    requires t < e.tables
    ensures TableStart(e, t) + Extent(e) == TableStart(e, t + 1) <= TableStart(e, e.tables)
  {
    MultipleMonotone(t, e.tables, Extent(e));
    MultipleMonotone(t, t + 1, Extent(e));
    assert (t + 1) * Extent(e) == t * Extent(e) + Extent(e);
    hide Extent;
    if t + 1 < e.tables {
      MultipleMonotone(t + 1, e.tables, Extent(e));
    }
  }

  // ---- the plan of Build -----------------------------------------------

  /** The header fields BuildSortedArray computes; None is an overflow. */
  function ArrayPlan(tables: nat, dimensions: nat, n: nat, pageSize: nat): Option<Envelope>
    requires n > 0 && AllowedPageSize(pageSize)
  {
    var bytes := CheckedMultiply(CheckedMultiply(Some(n), Some(tables)), Some(ENTRY_SIZE));
    var regions := CheckedMultiply(Some((n - 1) / LeafCapacity(pageSize) + 1), Some(tables));
    var projections := CheckedAdd(Some(HEADER_SIZE), CheckedMultiply(Some(tables), Some(8)));
    var projectionsBytes := CheckedMultiply(CheckedMultiply(Some(tables), Some(dimensions)), Some(4));
    var data := AlignUp(CheckedAdd(projections, projectionsBytes), pageSize);
    var size := CheckedAdd(data, bytes);
    if regions.None? || size.None? || size.value > OFFSET_MAX then None
    else Some(Envelope(n, dimensions, tables, pageSize, regions.value + 1, HEADER_SIZE, projections.value, data.value,
                       size.value))
  }

  lemma RegionsFit(n: nat, pageSize: nat)
    requires 0 < n <= MAX_POINTS && AllowedPageSize(pageSize)
    ensures (n - 1) / LeafCapacity(pageSize) + 1 <= MAX_POINTS
  {}

  lemma ProductFits(a: nat, b: nat)
    requires a <= MAX_POINTS && b <= MAX_TABLES
    ensures a * b <= 0x4_0000_0000_0000
  {
    MulOrder(a, MAX_POINTS, b);
    MulOrder(b, MAX_TABLES, MAX_POINTS);
  }

  /** The check in plain numbers: as for a B+ tree file, with the tables of eight bytes an
      entry in the place of the pages. */
  lemma ArrayEnvelopeIs(e: Envelope, actualSize: nat)
    ensures ArrayEnvelopeOk(e, actualSize) <==>
              1 <= e.points <= 0x4000_0000 && 1 <= e.dimensions <= 0x10_0000 && 1 <= e.tables <= 0x10_0000 &&
              512 <= e.pageSize <= 0x400_0000 && e.pageSize % 8 == 0 &&
              e.pageCount == ((e.points - 1) / ((e.pageSize - 32) / 8) + 1) * e.tables + 1 && e.roots == 120 &&
              e.projections == 120 + 8 * e.tables && e.projections + 4 * (e.tables * e.dimensions) <= e.data &&
              e.data % e.pageSize == 0 && e.data + 8 * (e.points * e.tables) == e.size == actualSize &&
              e.size < 0x1_0000_0000_0000_0000
  {
    if SizesOk(e) {
      var perTable := (e.points - 1) / LeafCapacity(e.pageSize) + 1;
      RegionsFit(e.points, e.pageSize);
      ProductFits(e.points, e.tables);
      ProductFits(perTable, e.tables);
      MetadataFits(e.tables, e.dimensions);
      MultiplyFits(perTable, e.tables);
      MultiplyFits(e.points, e.tables);
      MultiplyFits(e.points * e.tables, ENTRY_SIZE);
      MultiplyFits(e.tables, 8);
      MultiplyFits(e.tables, e.dimensions);
      MultiplyFits(e.tables * e.dimensions, 4);
      assert LeafCapacity(e.pageSize) == (e.pageSize - 32) / 8;
      hide CheckedMultiply, LeafCapacity;
    }
  }

  /** The plan, once its products are known. */
  lemma PlanFrom(tables: nat, dimensions: nat, n: nat, pageSize: nat, bytes: nat, regions: nat, roots: nat,
                 vectors: nat)
    requires Accepted(tables, dimensions, n, pageSize)
    requires CheckedMultiply(CheckedMultiply(Some(n), Some(tables)), Some(ENTRY_SIZE)) == Some(bytes)
    requires CheckedMultiply(Some((n - 1) / LeafCapacity(pageSize) + 1), Some(tables)) == Some(regions)
    requires CheckedMultiply(Some(tables), Some(8)) == Some(roots)
    requires CheckedMultiply(CheckedMultiply(Some(tables), Some(dimensions)), Some(4)) == Some(vectors)
    requires bytes <= 0x100_0000_0000_0000 && roots <= 0x100_0000_0000_0000 && vectors <= 0x100_0000_0000_0000
    ensures var plan := ArrayPlan(tables, dimensions, n, pageSize);
            plan.Some? && ArrayEnvelopeOk(plan.value, plan.value.size) && plan.value.size <= OFFSET_MAX &&
            plan.value.points == n && plan.value.tables == tables && plan.value.pageSize == pageSize &&
            plan.value.dimensions == dimensions && plan.value.data < HEADER_SIZE + roots + vectors + pageSize
  {
    Aligned(HEADER_SIZE + roots + vectors, pageSize);
    hide CheckedMultiply, LeafCapacity, AlignUp;
  }

  /** For every accepted configuration the plan exists and Open's check accepts it. */
  lemma ArrayPlanSucceeds(tables: nat, dimensions: nat, n: nat, pageSize: nat)
    requires Accepted(tables, dimensions, n, pageSize)
    ensures var plan := ArrayPlan(tables, dimensions, n, pageSize);
            plan.Some? && ArrayEnvelopeOk(plan.value, plan.value.size) && plan.value.size <= OFFSET_MAX &&
            plan.value.points == n && plan.value.tables == tables && plan.value.pageSize == pageSize &&
            plan.value.dimensions == dimensions &&
            plan.value.data < 120 + 8 * tables + 4 * (tables * dimensions) + pageSize
  {
    RegionsFit(n, pageSize);
    var perTable := (n - 1) / LeafCapacity(pageSize) + 1;
    ProductFits(n, tables);
    ProductFits(perTable, tables);
    MetadataFits(tables, dimensions);
    MultiplyFits(n, tables);
    MultiplyFits(perTable, tables);
    MultiplyFits(n * tables, ENTRY_SIZE);
    MultiplyFits(tables, 8);
    MultiplyFits(tables, dimensions);
    MultiplyFits(tables * dimensions, 4);
    hide *;
    PlanFrom(tables, dimensions, n, pageSize, n * tables * ENTRY_SIZE, perTable * tables, tables * 8,
             tables * dimensions * 4);
  }

  // ---- reading ---------------------------------------------------------

  function HeaderOf(file: seq<Byte>): Option<Envelope> {
    if |file| < HEADER_SIZE then None
    else Some(Envelope(ReadWord(file, 24, 4), ReadWord(file, 28, 4), ReadWord(file, 32, 4), ReadWord(file, 36, 4),
                       ReadWord(file, 104, 8), ReadWord(file, 80, 8), ReadWord(file, 88, 8), ReadWord(file, 96, 8),
                       ReadWord(file, 112, 8)))
  }

  /** ReadArrayEntry. */
  function EntryAt(f: Floats, file: seq<Byte>, at: nat): Entry
    requires at + ENTRY_SIZE <= |file|
  {
    Entry(f.fromBits(ReadWord(file, at, 4)), ReadWord(file, at + 4, 4))
  }

  function StoredTable(f: Floats, file: seq<Byte>, at: nat, n: nat): (table: seq<Entry>)
    requires at + n * ENTRY_SIZE <= |file|
    ensures |table| == n
  {
    seq(n, i requires 0 <= i < n =>
      MultipleMonotone(i, n, ENTRY_SIZE);
      EntryAt(f, file, at + i * ENTRY_SIZE))
  }

  /** Entry number t of the table offsets. */
  function OffsetAt(file: seq<Byte>, e: Envelope, t: nat): nat
    requires e.roots + 8 * e.tables <= |file| && t < e.tables
  {
    ReadWord(file, e.roots + t * 8, 8)
  }

  /** The offsets say that each table starts where the one before ends. */
  predicate Contiguous(file: seq<Byte>, e: Envelope)
    requires e.roots + 8 * e.tables <= |file|
  {
    forall t :: 0 <= t < e.tables ==> OffsetAt(file, e, t) == TableStart(e, t)
  }

  /** The tables in the data part. */
  function StoredTables(f: Floats, file: seq<Byte>, e: Envelope): (tables: seq<seq<Entry>>)
    requires ArrayEnvelopeOk(e, |file|)
    ensures |tables| == e.tables && forall t :: 0 <= t < |tables| ==> |tables[t]| == e.points
  {
    ArrayEnvelopeSound(e, |file|);
    seq(e.tables, t requires 0 <= t < e.tables =>
      TableInside(e, t);
      StoredTable(f, file, TableStart(e, t), e.points))
  }

  // ---- writing ---------------------------------------------------------

  function NarrowWords(e: Envelope): seq<seq<Byte>> {
    [Encode(e.points, 4), Encode(e.dimensions, 4), Encode(e.tables, 4), Encode(e.pageSize, 4)]
  }

  function WideWords(e: Envelope): seq<seq<Byte>> {
    [Encode(e.roots, 8), Encode(e.projections, 8), Encode(e.data, 8), Encode(e.pageCount, 8), Encode(e.size, 8)]
  }

  /** The header: magic to metric, the sizes, seed to growth, the layout. */
  function ArrayHeader(front: seq<Byte>, middle: seq<Byte>, e: Envelope): seq<Byte> {
    front + Flat(NarrowWords(e)) + middle + Flat(WideWords(e))
  }

  function OffsetWords(e: Envelope): (words: seq<seq<Byte>>)
    ensures |words| == e.tables
  {
    seq(e.tables, t requires 0 <= t < e.tables => Encode(TableStart(e, t), 8))
  }

  function TableChunks(f: Floats, tables: seq<seq<Entry>>): (chunks: seq<seq<Byte>>)
    ensures |chunks| == |tables|
  {
    seq(|tables|, t requires 0 <= t < |tables| => Flat(EntryChunks(f, tables[t])))
  }

  /** What a file holds besides its tables: the rest of the header, and the vectors. */
  datatype Surroundings = Surroundings(front: seq<Byte>, middle: seq<Byte>, vectors: seq<seq<Byte>>)

  /** What can be written: everything fits the plan. */
  ghost predicate Writable(f: Floats, tables: seq<seq<Entry>>, e: Envelope, s: Surroundings) {
    ArrayEnvelopeOk(e, e.size) && e.size <= OFFSET_MAX && |tables| == e.tables &&
    (forall t :: 0 <= t < |tables| ==> |tables[t]| == e.points) &&
    |s.front| == 24 && |s.middle| == 40 && |s.vectors| == e.tables * e.dimensions && Even(s.vectors, 4)
  }

  lemma EvenWords(e: Envelope)
    ensures Even(NarrowWords(e), 4) && |Flat(NarrowWords(e))| == 16
    ensures Even(WideWords(e), 8) && |Flat(WideWords(e))| == 40
    ensures Even(OffsetWords(e), 8) && |Flat(OffsetWords(e))| == e.tables * 8
  {
    FlatLength(NarrowWords(e), 4);
    FlatLength(WideWords(e), 8);
    FlatLength(OffsetWords(e), 8);
  }

  lemma EvenTables(f: Floats, tables: seq<seq<Entry>>, n: nat)
    requires forall t :: 0 <= t < |tables| ==> |tables[t]| == n
    ensures Even(TableChunks(f, tables), n * ENTRY_SIZE)
    ensures |Flat(TableChunks(f, tables))| == |tables| * (n * ENTRY_SIZE)
  {
    forall t | 0 <= t < |tables|
      ensures |TableChunks(f, tables)[t]| == n * ENTRY_SIZE
    {
      EvenEntries(f, tables[t]);
    }
    FlatLength(TableChunks(f, tables), n * ENTRY_SIZE);
  }

  /** Everything before the vectors. */
  function Head(e: Envelope, s: Surroundings): seq<Byte> {
    ArrayHeader(s.front, s.middle, e) + Flat(OffsetWords(e))
  }

  /** Everything before the tables. */
  function Metadata(e: Envelope, s: Surroundings): seq<Byte> {
    var body := Head(e, s) + Flat(s.vectors);
    body + Zeros(if |body| <= e.data then e.data - |body| else 0)
  }

  /** The bytes of the file. */
  function FileBytes(f: Floats, tables: seq<seq<Entry>>, e: Envelope, s: Surroundings): seq<Byte> {
    Metadata(e, s) + Flat(TableChunks(f, tables))
  }

  lemma FileLengths(f: Floats, tables: seq<seq<Entry>>, e: Envelope, s: Surroundings)
    requires Writable(f, tables, e, s)
    ensures |ArrayHeader(s.front, s.middle, e)| == HEADER_SIZE == e.roots
    ensures |Head(e, s)| == e.projections && |Head(e, s) + Flat(s.vectors)| <= e.data == |Metadata(e, s)|
    ensures |FileBytes(f, tables, e, s)| == e.size
  {
    ArrayEnvelopeSound(e, e.size);
    EvenWords(e);
    EvenTables(f, tables, e.points);
    FlatLength(s.vectors, 4);
    hide ArrayEnvelopeOk, Flat, NarrowWords, WideWords, OffsetWords, TableChunks, Even;
  }

  // ---- what was written is read back -----------------------------------

  lemma ChunkBack(file: seq<Byte>, before: seq<Byte>, chunks: seq<seq<Byte>>, width: nat, i: nat, lo: nat, offset: nat)
    requires before + Flat(chunks) <= file && Even(chunks, width) && i < |chunks|
    requires StartsAt(lo, i, width) && offset == |before| + lo
    ensures offset + width <= |file| && file[offset..offset + width] == chunks[i]
  {
    hide Flat, Even, StartsAt;
    var rest := file[|before + Flat(chunks)|..];
    assert file == before + Flat(chunks) + rest;
    ChunkInside(file, before, chunks, rest, width, i, lo, offset);
  }

  lemma WordBack(file: seq<Byte>, before: seq<Byte>, words: seq<seq<Byte>>, width: nat, i: nat, x: nat, lo: nat,
                 offset: nat)
    requires before + Flat(words) <= file && Even(words, width) && i < |words|
    requires words[i] == Encode(x, width) && x < Range(width) && StartsAt(lo, i, width) && offset == |before| + lo
    ensures offset + width <= |file| && ReadWord(file, offset, width) == x
  {
    hide Flat, Even, Encode, Decode, Range, StartsAt;
    ChunkBack(file, before, words, width, i, lo, offset);
    DecodeEncode(x, width);
  }

  lemma PrefixGrows<T>(a: seq<T>, b: seq<T>, c: seq<T>)
    requires a <= b
    ensures a <= b + c
  {}

  /** The parts of the file from the front. */
  lemma FilePrefixes(f: Floats, tables: seq<seq<Entry>>, e: Envelope, s: Surroundings)
    ensures var file := FileBytes(f, tables, e, s);
            s.front + Flat(NarrowWords(e)) <= file &&
            s.front + Flat(NarrowWords(e)) + s.middle + Flat(WideWords(e)) <= file &&
            ArrayHeader(s.front, s.middle, e) + Flat(OffsetWords(e)) <= file &&
            Metadata(e, s) + Flat(TableChunks(f, tables)) <= file
  {
    var narrow := s.front + Flat(NarrowWords(e));
    var header, head := ArrayHeader(s.front, s.middle, e), Head(e, s);
    var vectors, metadata := head + Flat(s.vectors), Metadata(e, s);
    assert header == narrow + s.middle + Flat(WideWords(e)) && head == header + Flat(OffsetWords(e));
    assert metadata == vectors + metadata[|vectors|..];
    assert FileBytes(f, tables, e, s) == metadata + Flat(TableChunks(f, tables));
    var tail := Flat(TableChunks(f, tables));
    hide *;
    PrefixGrows(narrow, narrow + s.middle, Flat(WideWords(e)));
    PrefixGrows(narrow, header, Flat(OffsetWords(e)));
    PrefixGrows(header, head, Flat(s.vectors));
    PrefixGrows(narrow, head, Flat(s.vectors));
    PrefixGrows(header, vectors, metadata[|vectors|..]);
    PrefixGrows(narrow, vectors, metadata[|vectors|..]);
    PrefixGrows(head, vectors, metadata[|vectors|..]);
    PrefixGrows(header, metadata, tail);
    PrefixGrows(narrow, metadata, tail);
    PrefixGrows(head, metadata, tail);
  }

  lemma WordSizes(e: Envelope)
    requires ArrayEnvelopeOk(e, e.size) && e.size <= OFFSET_MAX
    ensures e.points < Range(4) && e.dimensions < Range(4) && e.tables < Range(4) && e.pageSize < Range(4)
    ensures e.roots < Range(8) && e.projections < Range(8) && e.data < Range(8) && e.pageCount < Range(8) &&
            e.size < Range(8)
  {
    WordRanges();
    RegionsFit(e.points, e.pageSize);
    ProductFits((e.points - 1) / LeafCapacity(e.pageSize) + 1, e.tables);
    hide CheckedMultiply, LeafCapacity, Range;
  }

  /** The header comes back as written. */
  lemma HeaderBack(f: Floats, tables: seq<seq<Entry>>, e: Envelope, s: Surroundings)
    requires Writable(f, tables, e, s)
    ensures HeaderOf(FileBytes(f, tables, e, s)) == Some(e)
  {
    FileLengths(f, tables, e, s);
    EvenWords(e);
    WordSizes(e);
    FilePrefixes(f, tables, e, s);
    var file, narrow, wide := FileBytes(f, tables, e, s), NarrowWords(e), WideWords(e);
    var before := s.front + Flat(narrow) + s.middle;
    assert |narrow| == 4 && |wide| == 5;
    hide FileBytes, ArrayEnvelopeOk, Flat, Even, ReadWord, Metadata, ArrayHeader, OffsetWords, TableChunks, Encode,
         Range;
    WordBack(file, s.front, narrow, 4, 0, e.points, 0, 24);
    WordBack(file, s.front, narrow, 4, 1, e.dimensions, 4, 28);
    WordBack(file, s.front, narrow, 4, 2, e.tables, 8, 32);
    WordBack(file, s.front, narrow, 4, 3, e.pageSize, 12, 36);
    WordBack(file, before, wide, 8, 0, e.roots, 0, 80);
    WordBack(file, before, wide, 8, 1, e.projections, 8, 88);
    WordBack(file, before, wide, 8, 2, e.data, 16, 96);
    WordBack(file, before, wide, 8, 3, e.pageCount, 24, 104);
    WordBack(file, before, wide, 8, 4, e.size, 32, 112);
  }

  /** The offsets are the contiguous ones. */
  lemma OffsetsBack(f: Floats, tables: seq<seq<Entry>>, e: Envelope, s: Surroundings)
    requires Writable(f, tables, e, s)
    ensures e.roots + 8 * e.tables <= |FileBytes(f, tables, e, s)| && Contiguous(FileBytes(f, tables, e, s), e)
  {
    ArrayEnvelopeSound(e, e.size);
    FileLengths(f, tables, e, s);
    EvenWords(e);
    FilePrefixes(f, tables, e, s);
    WordRanges();
    var file, header := FileBytes(f, tables, e, s), ArrayHeader(s.front, s.middle, e);
    forall t | 0 <= t < e.tables
      ensures OffsetAt(file, e, t) == TableStart(e, t)
    {
      TableInside(e, t);
      assert OffsetWords(e)[t] == Encode(TableStart(e, t), 8) && StartsAt(t * 8, t, 8);
      hide FileBytes, ArrayEnvelopeOk, Flat, Even, ReadWord, Metadata, ArrayHeader, OffsetWords, TableChunks, Encode,
           Range, TableStart;
      WordBack(file, header, OffsetWords(e), 8, t, TableStart(e, t), t * 8, e.roots + t * 8);
    }
  }

  ghost predicate TableFits(f: Floats, table: seq<Entry>) {
    forall i :: 0 <= i < |table| ==> Storable(f, table[i].value) && table[i].id < 0x1_0000_0000
  }

  lemma StartOffset(e: Envelope, t: nat) returns (lo: nat)
    ensures StartsAt(lo, t, Extent(e)) && TableStart(e, t) == e.data + lo
  {
    lo := t * Extent(e);
  }

  /** Where the bytes of one table are. */
  lemma TableSlice(f: Floats, tables: seq<seq<Entry>>, e: Envelope, s: Surroundings, t: nat)
    requires Writable(f, tables, e, s) && t < e.tables
    ensures var file, at := FileBytes(f, tables, e, s), TableStart(e, t);
            at + Extent(e) <= |file| && file[at..at + Extent(e)] == Flat(EntryChunks(f, tables[t]))
  {
    FileLengths(f, tables, e, s);
    EvenTables(f, tables, e.points);
    FilePrefixes(f, tables, e, s);
    var chunks := TableChunks(f, tables);
    assert Extent(e) == e.points * ENTRY_SIZE && |tables| == e.tables;
    assert chunks[t] == Flat(EntryChunks(f, tables[t]));
    hide *;
    var lo := StartOffset(e, t);
    ChunkBack(FileBytes(f, tables, e, s), Metadata(e, s), chunks, Extent(e), t, lo, TableStart(e, t));
  }

  /** One entry out of the bytes of its table. */
  lemma EntryBack(f: Floats, file: seq<Byte>, table: seq<Entry>, at: nat, extent: nat, i: nat, lo: nat)
    requires at + extent <= |file| && file[at..at + extent] == Flat(EntryChunks(f, table))
    requires TableFits(f, table) && i < |table| && StartsAt(lo, i, ENTRY_SIZE)
    ensures at + lo + ENTRY_SIZE <= |file| && EntryAt(f, file, at + lo) == table[i]
  {
    EvenEntries(f, table);
    var chunks := EntryChunks(f, table);
    assert chunks[i] == EntryBytes(f, table[i]);
    hide Flat, EntryChunks, StartsAt, EntryBytes, Even;
    ChunkFrom(chunks, ENTRY_SIZE, i, lo);
    SliceOfSlice(file, at, at + extent, lo, lo + ENTRY_SIZE);
    EntryWords(f, file, at + lo, table[i]);
  }

  lemma StoredBack(f: Floats, file: seq<Byte>, table: seq<Entry>, at: nat, n: nat)
    requires at + n * ENTRY_SIZE <= |file| && file[at..at + n * ENTRY_SIZE] == Flat(EntryChunks(f, table))
    requires TableFits(f, table) && |table| == n
    ensures StoredTable(f, file, at, n) == table
  {
    hide Flat, EntryChunks, EntryAt, TableFits;
    forall i | 0 <= i < n
      ensures at + i * ENTRY_SIZE + ENTRY_SIZE <= |file| && EntryAt(f, file, at + i * ENTRY_SIZE) == table[i]
    {
      assert StartsAt(i * ENTRY_SIZE, i, ENTRY_SIZE);
      EntryBack(f, file, table, at, n * ENTRY_SIZE, i, i * ENTRY_SIZE);
    }
  }

  lemma TableBack(f: Floats, tables: seq<seq<Entry>>, e: Envelope, s: Surroundings, t: nat)
    requires Writable(f, tables, e, s) && t < e.tables && TableFits(f, tables[t])
    ensures TableStart(e, t) + Extent(e) <= |FileBytes(f, tables, e, s)|
    ensures StoredTable(f, FileBytes(f, tables, e, s), TableStart(e, t), e.points) == tables[t]
  {
    TableSlice(f, tables, e, s, t);
    assert |tables[t]| == e.points && Extent(e) == e.points * ENTRY_SIZE;
    hide *;
    StoredBack(f, FileBytes(f, tables, e, s), tables[t], TableStart(e, t), e.points);
  }

  /** Reading a written file finds the tables one put in. */
  lemma TablesBack(f: Floats, tables: seq<seq<Entry>>, e: Envelope, s: Surroundings)
    requires Writable(f, tables, e, s) && forall t :: 0 <= t < |tables| ==> TableFits(f, tables[t])
    ensures var file := FileBytes(f, tables, e, s);
            HeaderOf(file) == Some(e) && ArrayEnvelopeOk(e, |file|) && e.roots + 8 * e.tables <= |file| &&
            Contiguous(file, e) && StoredTables(f, file, e) == tables
  {
    FileLengths(f, tables, e, s);
    HeaderBack(f, tables, e, s);
    OffsetsBack(f, tables, e, s);
    var file := FileBytes(f, tables, e, s);
    hide FileBytes, ArrayEnvelopeOk, HeaderOf, TableFits, StoredTable;
    forall t | 0 <= t < e.tables
      ensures StoredTables(f, file, e)[t] == tables[t]
    {
      TableBack(f, tables, e, s, t);
    }
  }

  // ---- the writer ------------------------------------------------------

  /** Space left as ftruncate made it. */
  lemma SkipZeros(output: seq<Byte>, body: seq<Byte>, to: nat)
    requires Filled(output, body) && |body| <= to <= |output|
    ensures Filled(output, body + Zeros(to - |body|))
  {
    assert Zeros(|output| - |body|) == Zeros(to - |body|) + Zeros(|output| - to);
  }

  /** BuildSortedArray's writes into a file sized to the plan. */
  method WriteArray(f: Floats, tables: seq<seq<Entry>>, e: Envelope, s: Surroundings) returns (output: array<Byte>)
    requires Writable(f, tables, e, s)
    ensures fresh(output) && output[..] == FileBytes(f, tables, e, s)
  {
    FileLengths(f, tables, e, s);
    EvenWords(e);
    EvenTables(f, tables, e.points);
    output := new Byte[e.size](_ => 0);
    ghost var header, head := ArrayHeader(s.front, s.middle, e), Head(e, s);
    ghost var vectors := head + Flat(s.vectors);
    assert Filled(output[..], []) && [] + header == header;
    assert head == header + Flat(OffsetWords(e)) && Metadata(e, s) == vectors + Zeros(e.data - |vectors|);
    ArrayEnvelopeSound(e, e.size);
    assert |tables| * Extent(e) + e.data == e.size;
    hide ArrayEnvelopeOk, ArrayHeader, OffsetWords, TableChunks, Flat, Even, Head, Metadata, Filled, Zeros;
    Append(output, [], 0, ArrayHeader(s.front, s.middle, e));
    AppendChunks(output, header, e.roots, 8, OffsetWords(e));
    AppendChunks(output, head, e.projections, 4, s.vectors);
    SkipZeros(output[..], vectors, e.data);
    AppendChunks(output, Metadata(e, s), e.data, Extent(e), TableChunks(f, tables));
    AllFilled(output[..], FileBytes(f, tables, e, s));
  }

  lemma AllFilled(output: seq<Byte>, body: seq<Byte>)
    requires Filled(output, body) && |output| == |body|
    ensures output == body
  {}
}
