/** Where the parts of an index file lie, in checked 64-bit arithmetic. */
module FileLayout {
  import opened Tables
  import opened PageTree
  import opened ArrayIndexes
  import opened Builder

  const WORD_MAX: nat := 0xFFFF_FFFF_FFFF_FFFF
  const OFFSET_MAX: nat := 0x7FFF_FFFF_FFFF_FFFF
  const HEADER_SIZE: nat := 120
  const MAX_TABLES: nat := 0x10_0000
  const MAX_DIMENSIONS: nat := 0x10_0000

  // ---- checked arithmetic ----------------------------------------------

  /** None is the overflow error. */
  function CheckedAdd(a: Option<nat>, b: Option<nat>): (r: Option<nat>)
    ensures r.Some? <==> a.Some? && b.Some? && a.value + b.value <= WORD_MAX
    ensures r.Some? ==> r.value == a.value + b.value
  {
    if a.None? || b.None? || (a.value <= WORD_MAX && b.value > WORD_MAX - a.value) || a.value > WORD_MAX then None
    else Some(a.value + b.value)
  }

  function CheckedMultiply(a: Option<nat>, b: Option<nat>): (r: Option<nat>)
    ensures r.Some? ==> a.Some? && b.Some? && r.value == a.value * b.value
  {
    if a.None? || b.None? || (a.value != 0 && b.value > WORD_MAX / a.value) then None
    else Some(a.value * b.value)
  }

  lemma MultiplyFits(a: nat, b: nat)
    requires a * b <= WORD_MAX
    ensures CheckedMultiply(Some(a), Some(b)) == Some(a * b)
  {
    if a != 0 {
      QuotientAtLeast(a, b, WORD_MAX);
    }
  }

  /** The quotient test refuses exactly the products that do not fit. */
  lemma QuotientAtLeast(a: nat, b: nat, max: nat)
    requires a > 0
    ensures b <= max / a <==> a * b <= max
  {
    DivBounds(max, a);
    var q := max / a;
    if b <= q {
      MulOrder(b, q, a);
    } else {
      MulOrder(q + 1, b, a);
      assert (q + 1) * a == q * a + a;
    }
  }

  lemma MultiplyExact(a: nat, b: nat)
    ensures CheckedMultiply(Some(a), Some(b)).Some? <==> a == 0 || a * b <= WORD_MAX
  {
    if a != 0 {
      QuotientAtLeast(a, b, WORD_MAX);
    }
  }

  function AlignUp(value: Option<nat>, alignment: nat): (r: Option<nat>)
    requires alignment > 0
  {
    if value.None? then None
    else if value.value % alignment == 0 then value
    else CheckedAdd(value, Some(alignment - value.value % alignment))
  }

  lemma Aligned(value: nat, alignment: nat)
    requires alignment > 0 && value + alignment <= WORD_MAX
    ensures var r := AlignUp(Some(value), alignment);
            r.Some? && r.value % alignment == 0 && value <= r.value < value + alignment
  {
    var rest := value % alignment;
    if rest != 0 {
      DivBounds(value, alignment);
      var q := value / alignment;
      assert value + (alignment - rest) == q * alignment + alignment;
      assert q * alignment + alignment == (q + 1) * alignment;
      MultipleMod(q + 1, alignment);
    }
  }

  lemma MultipleMod(k: nat, m: nat)
    requires m > 0
    ensures k * m % m == 0
  {
    DivBounds(k * m, m);
    var q := k * m / m;
    assert (q + 1) * m == q * m + m && (k + 1) * m == k * m + m;
    if q < k {
      MulOrder(q + 1, k, m);
    } else if k < q {
      MulOrder(k + 1, q, m);
    }
  }

  // ---- the plan of Build -----------------------------------------------

  datatype Layout = Layout(roots: nat, projections: nat, data: nat, size: nat)

  function Plan(tables: nat, dimensions: nat, pageCount: nat, pageSize: nat): Option<Layout>
    requires pageSize > 0
  {
    var rootsBytes := CheckedMultiply(Some(tables), Some(8));
    var projectionsBytes := CheckedMultiply(CheckedMultiply(Some(tables), Some(dimensions)), Some(4));
    var projections := CheckedAdd(Some(HEADER_SIZE), rootsBytes);
    var data := AlignUp(CheckedAdd(projections, projectionsBytes), pageSize);
    var size := CheckedAdd(data, CheckedMultiply(Some(pageCount), Some(pageSize)));
    if size.None? || size.value > OFFSET_MAX then None
    else Some(Layout(HEADER_SIZE, projections.value, data.value, size.value))
  }

  /** Offset of a page. */
  function PageOffset(l: Layout, page: nat, pageSize: nat): nat {
    l.data + page * pageSize
  }

  /** header, roots, projections and pages follow one another inside the file. */
  ghost predicate Disjoint(l: Layout, tables: nat, dimensions: nat, pageCount: nat, pageSize: nat)
    requires pageSize > 0
  {
    HEADER_SIZE <= l.roots && l.roots + 8 * tables <= l.projections &&
    l.projections + 4 * (tables * dimensions) <= l.data &&
    l.data % pageSize == 0 && l.data + pageCount * pageSize == l.size
  }

  /** Two pages never share a byte, and none ends after the file. */
  lemma PagesDisjoint(l: Layout, pageCount: nat, pageSize: nat, p: nat, r: nat)
    requires pageSize > 0 && l.data + pageCount * pageSize == l.size && p < r < pageCount
    ensures PageOffset(l, p, pageSize) + pageSize <= PageOffset(l, r, pageSize)
    ensures PageOffset(l, r, pageSize) + pageSize <= l.size && l.data <= PageOffset(l, p, pageSize)
  {
    MulOrder(p + 1, r, pageSize);
    MulOrder(r + 1, pageCount, pageSize);
    assert (p + 1) * pageSize == p * pageSize + pageSize && (r + 1) * pageSize == r * pageSize + pageSize;
  }

  /** Sizes the configuration checks accept. */
  ghost predicate Accepted(tables: nat, dimensions: nat, n: nat, pageSize: nat) {
    0 < tables <= MAX_TABLES && 0 < dimensions <= MAX_DIMENSIONS && 0 < n <= MAX_POINTS && AllowedPageSize(pageSize)
  }

  // ---- how large a heap can get ----------------------------------------

  /** The levels above a level never outnumber it. */
  lemma {:induction false} LevelsAtMostDouble(count: nat, capacity: nat)
    requires capacity >= 3 && count > 0
    ensures LevelPages(count, capacity) < 2 * count
    decreases count
  {
    if count > 1 {
      Grouping(count, capacity);
      CeilBounds(count, capacity);
      var next := CeilDiv(count, capacity);
      MulOrder(2, capacity, next);
      LevelsAtMostDouble(next, capacity);
      HalfAtMost(count, capacity, next);
    }
  }

  lemma HalfAtMost(count: nat, capacity: nat, next: nat)
    requires capacity >= 3 && count >= 2 && next > 0 && next * capacity < count + capacity
    ensures 2 * next <= count
  {
    FewGroups(count, capacity, next);
  }

  /** The bytes of one table's pages, at most about nine bytes an entry and twice
      that with the levels above. */
  lemma TableBytes(n: nat, pageSize: nat)
    requires 0 < n <= MAX_POINTS && AllowedPageSize(pageSize)
    ensures LevelPages(CeilDiv(n, LeafCapacity(pageSize)), InternalCapacity(pageSize)) * pageSize <= 0x8_0000_0000
  {
    var leaf, inner := LeafCapacity(pageSize), InternalCapacity(pageSize);
    var leaves := CeilDiv(n, leaf);
    CeilBounds(n, leaf);
    LevelsAtMostDouble(leaves, inner);
    assert pageSize == 8 * leaf + 32 <= 9 * leaf;
    assert leaf <= 0x80_0000;
    hide *;
    ProductBound(LevelPages(leaves, inner), leaves, leaf, pageSize, n);
  }

  lemma ProductBound(total: nat, leaves: nat, leaf: nat, pageSize: nat, n: nat)
    requires total < 2 * leaves && pageSize <= 9 * leaf && leaves * leaf < n + leaf && leaf <= 0x80_0000 &&
             n <= MAX_POINTS
    ensures total * pageSize <= 0x8_0000_0000
  {
    MulOrder(total, 2 * leaves, pageSize);
    MulOrder(pageSize, 9 * leaf, 2 * leaves);
    Eighteen(leaves, leaf);
  }

  lemma Eighteen(a: nat, b: nat)
    ensures 9 * b * (2 * a) == 18 * (a * b)
  {}

  lemma HeapBytes(tables: nat, n: nat, pageSize: nat)
    requires 0 < tables <= MAX_TABLES && 0 < n <= MAX_POINTS && AllowedPageSize(pageSize)
    ensures HeapSize(tables, n, pageSize) * pageSize <= 0x100_0000_0000_0000
  {
    var perTable := LevelPages(CeilDiv(n, LeafCapacity(pageSize)), InternalCapacity(pageSize));
    TableBytes(n, pageSize);
    assert HeapSize(tables, n, pageSize) == 1 + tables * perTable;
    assert pageSize <= MAX_PAGE_SIZE;
    hide *;
    TotalBound(tables, perTable, pageSize);
  }

  lemma TotalBound(tables: nat, perTable: nat, pageSize: nat)
    requires tables <= MAX_TABLES && perTable * pageSize <= 0x8_0000_0000 && pageSize <= MAX_PAGE_SIZE
    ensures (1 + tables * perTable) * pageSize <= 0x100_0000_0000_0000
  {
    Spread(tables, perTable, pageSize);
    var bytes := perTable * pageSize;
    MulOrder(tables, MAX_TABLES, bytes);
  }

  lemma Spread(a: nat, b: nat, c: nat)
    ensures (1 + a * b) * c == c + a * (b * c)
  {}

  /** Page numbers fit their words with room to spare. */
  lemma HeapFits(tables: nat, n: nat, pageSize: nat)
    requires 0 < tables <= MAX_TABLES && 0 < n <= MAX_POINTS && AllowedPageSize(pageSize)
    ensures HeapSize(tables, n, pageSize) <= 0x100_0000_0000_0000
  {
    HeapBytes(tables, n, pageSize);
    hide HeapSize;
    MulOrder(1, pageSize, HeapSize(tables, n, pageSize));
  }

  lemma MetadataFits(tables: nat, dimensions: nat)
    requires tables <= MAX_TABLES && dimensions <= MAX_DIMENSIONS
    ensures tables * dimensions <= 0x100_0000_0000
  {
    MulOrder(tables, MAX_TABLES, dimensions);
    MulOrder(dimensions, MAX_DIMENSIONS, MAX_TABLES);
  }

  /** For every accepted configuration no checked operation of the layout overflows,
      and the parts of the file do not overlap: roots, vectors, and pages from the next
      page boundary on. */
  lemma PlanSucceeds(tables: nat, dimensions: nat, n: nat, pageSize: nat)
    requires Accepted(tables, dimensions, n, pageSize)
    ensures var pageCount := HeapSize(tables, n, pageSize);
            var plan := Plan(tables, dimensions, pageCount, pageSize);
            plan.Some? && Disjoint(plan.value, tables, dimensions, pageCount, pageSize) &&
            plan.value.roots == 120 && plan.value.projections == 120 + 8 * tables &&
            plan.value.data < 120 + 8 * tables + 4 * (tables * dimensions) + pageSize && plan.value.size <= OFFSET_MAX
  {
    var pageCount := HeapSize(tables, n, pageSize);
    HeapBytes(tables, n, pageSize);
    MetadataFits(tables, dimensions);
    MultiplyFits(tables, 8);
    MultiplyFits(tables, dimensions);
    MultiplyFits(tables * dimensions, 4);
    MultiplyFits(pageCount, pageSize);
    Aligned(HEADER_SIZE + 8 * tables + 4 * (tables * dimensions), pageSize);
    hide HeapSize, CheckedMultiply;
    assert CheckedMultiply(Some(tables), Some(8)) == Some(tables * 8);
  }

  // ---- the envelope check of Open --------------------------------------

  /** The header fields that describe the layout. */
  datatype Envelope = Envelope(points: nat, dimensions: nat, tables: nat, pageSize: nat, pageCount: nat, roots: nat,
                               projections: nat, data: nat, size: nat)

  /** Sizes in the supported range, for both kinds of file. */
  predicate SizesOk(e: Envelope) {
    0 < e.points <= MAX_POINTS && 0 < e.dimensions <= MAX_DIMENSIONS && 0 < e.tables <= MAX_TABLES &&
    AllowedPageSize(e.pageSize)
  }

  /** Roots and projections behind the header, data aligned behind them. */
  predicate MetadataOk(e: Envelope)
    requires e.pageSize > 0
  {
    var rootsEnd := CheckedAdd(Some(HEADER_SIZE), CheckedMultiply(Some(e.tables), Some(8)));
    var projectionsEnd := CheckedAdd(Some(e.projections),
                                     CheckedMultiply(CheckedMultiply(Some(e.tables), Some(e.dimensions)), Some(4)));
    projectionsEnd.Some? && e.roots == HEADER_SIZE && rootsEnd == Some(e.projections) &&
    e.data >= projectionsEnd.value &&
    e.data % e.pageSize == 0 && e.data <= e.size
  }

  /** The layout part of ValidateFileHeaderEnvelope. */
  predicate EnvelopeOk(e: Envelope, actualSize: nat) {
    SizesOk(e) && e.pageCount > 1 &&
    CheckedAdd(Some(e.data), CheckedMultiply(Some(e.pageCount), Some(e.pageSize))) == Some(e.size) &&
    e.size == actualSize &&
    MetadataOk(e)
  }

  /** The check in plain numbers, whoever wrote the header: roots behind its 120 bytes,
      vectors behind those, pages behind the vectors on a page boundary and to the end
      of the file, and no overflow. */
  lemma EnvelopeIs(e: Envelope, actualSize: nat)
    ensures EnvelopeOk(e, actualSize) <==>
              1 <= e.points <= 0x4000_0000 && 1 <= e.dimensions <= 0x10_0000 && 1 <= e.tables <= 0x10_0000 &&
              512 <= e.pageSize <= 0x400_0000 && e.pageSize % 8 == 0 && e.pageCount >= 2 && e.roots == 120 &&
              e.projections == 120 + 8 * e.tables && e.projections + 4 * (e.tables * e.dimensions) <= e.data &&
              e.data % e.pageSize == 0 && e.data + e.pageCount * e.pageSize == e.size == actualSize &&
              e.size < 0x1_0000_0000_0000_0000
  {
    MultiplyExact(e.tables, 8);
    MultiplyExact(e.tables, e.dimensions);
    MultiplyExact(e.tables * e.dimensions, 4);
    MultiplyExact(e.pageCount, e.pageSize);
  }

  /** Any header the check accepts, whoever wrote it, describes disjoint parts. */
  lemma EnvelopeSound(e: Envelope, actualSize: nat)
    requires EnvelopeOk(e, actualSize)
    ensures Disjoint(Layout(e.roots, e.projections, e.data, e.size), e.tables, e.dimensions, e.pageCount, e.pageSize)
    ensures e.size == actualSize <= WORD_MAX
  {}

  lemma HeapHasPages(tables: nat, n: nat, pageSize: nat)
    requires 0 < tables && 0 < n && AllowedPageSize(pageSize)
    ensures HeapSize(tables, n, pageSize) > 1
  {
    CeilBounds(n, LeafCapacity(pageSize));
    var perTable := LevelPages(CeilDiv(n, LeafCapacity(pageSize)), InternalCapacity(pageSize));
    assert perTable > 0;
    MulOrder(1, tables, perTable);
  }

  /** The header Build writes passes the check of Open. */
  lemma BuiltEnvelope(tables: nat, dimensions: nat, n: nat, pageSize: nat)
    requires Accepted(tables, dimensions, n, pageSize)
    ensures var pageCount := HeapSize(tables, n, pageSize);
            var plan := Plan(tables, dimensions, pageCount, pageSize);
            plan.Some? &&
            EnvelopeOk(Envelope(n, dimensions, tables, pageSize, pageCount, plan.value.roots, plan.value.projections,
                                plan.value.data, plan.value.size), plan.value.size)
  {
    PlanSucceeds(tables, dimensions, n, pageSize);
    HeapHasPages(tables, n, pageSize);
    hide HeapSize, CheckedMultiply;
  }
}
