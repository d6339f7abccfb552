/** Where everything is in an index file, byte by byte, in little-endian words. */
module ByteLayout {
  import opened Tables
  import opened PageTree
  import opened PageCodec
  import opened PageReader
  import opened FileLayout
  import opened ArrayFile

  /** The word of this many bytes at an offset, lowest byte first. */
  function WordAt(bytes: seq<Byte>, offset: nat, width: nat): nat
    requires offset + width <= |bytes|
    decreases width
  {
    if width == 0 then 0 else bytes[offset] as nat + 256 * WordAt(bytes, offset + 1, width - 1)
  }

  lemma {:induction false} WordIs(bytes: seq<Byte>, offset: nat, width: nat)
    requires offset + width <= |bytes|
    ensures WordAt(bytes, offset, width) == Decode(bytes[offset..offset + width])
    decreases width
  {
    if width == 0 {
    } else {
      WordIs(bytes, offset + 1, width - 1);
      assert bytes[offset..offset + width][1..] == bytes[offset + 1..offset + width];
    }
  }

  lemma EncodedAt(bytes: seq<Byte>, offset: nat, width: nat, x: nat)
    requires offset + width <= |bytes| && bytes[offset..offset + width] == Encode(x, width) && x < Range(width)
    ensures WordAt(bytes, offset, width) == x
  {
    WordIs(bytes, offset, width);
    DecodeEncode(x, width);
  }

  // ---- pages -----------------------------------------------------------

  /** Kind at byte 0, count at 4, the links at 8 and 16; the header ends at 32. */
  lemma PageHeaderAt(f: Floats, page: Page, pageSize: nat)
    requires Consistent(page, pageSize) && Fits(f, page)
    ensures var bytes := PageBytes(f, page, pageSize);
            |bytes| == pageSize >= 32 && WordAt(bytes, 0, 4) == page.kind && WordAt(bytes, 4, 4) == page.count &&
            WordAt(bytes, 8, 8) == page.previous && WordAt(bytes, 16, 8) == page.next && WordAt(bytes, 24, 8) == 0
  {
    var bytes, h := PageBytes(f, page, pageSize), HeaderBytes(page);
    BodyLength(f, page, pageSize);
    assert bytes[..PAGE_HEADER_SIZE] == h;
    HeaderWords(page);
    assert h[24..32] == Zeros(8);
    ZeroWord(8);
    WordRanges();
    hide PageBytes, HeaderBytes, Encode, Decode, Range, Zeros, WordAt;
    SliceOfPrefix(bytes, h, 0, 4);
    SliceOfPrefix(bytes, h, 4, 8);
    SliceOfPrefix(bytes, h, 8, 16);
    SliceOfPrefix(bytes, h, 16, 24);
    SliceOfPrefix(bytes, h, 24, 32);
    EncodedAt(bytes, 0, 4, page.kind);
    EncodedAt(bytes, 4, 4, page.count);
    EncodedAt(bytes, 8, 8, page.previous);
    EncodedAt(bytes, 16, 8, page.next);
    EncodedAt(bytes, 24, 8, 0);
  }

  lemma {:induction false} ZeroWord(width: nat)
    ensures Zeros(width) == Encode(0, width) && 0 < Range(width)
  {
    if width == 0 {
    } else {
      ZeroWord(width - 1);
      assert Zeros(width) == [0] + Zeros(width - 1);
    }
  }

  /** Entry i of a leaf: the value at byte 32 + 8i, the id four bytes on. */
  lemma EntryAtByte(f: Floats, page: Page, pageSize: nat, i: nat)
    requires Consistent(page, pageSize) && Fits(f, page) && page.kind == LEAF_PAGE && i < page.count
    ensures var bytes := PageBytes(f, page, pageSize);
            32 + 8 * i + 8 <= |bytes| && WordAt(bytes, 32 + 8 * i, 4) == f.toBits(page.entries[i].value) &&
            WordAt(bytes, 32 + 8 * i + 4, 4) == page.entries[i].id
  {
    var bytes, e := PageBytes(f, page, pageSize), page.entries[i];
    assert Storable(f, e.value) && e.id < 0x1_0000_0000;
    EntrySlice(f, page, pageSize, i);
    hide PageBytes, Consistent, Fits, EntryBytes;
    EntryWordsAt(f, bytes, 32 + 8 * i, e);
  }

  lemma EntryWordsAt(f: Floats, bytes: seq<Byte>, offset: nat, e: Entry)
    requires offset + ENTRY_SIZE <= |bytes| && bytes[offset..offset + ENTRY_SIZE] == EntryBytes(f, e)
    requires Storable(f, e.value) && e.id < 0x1_0000_0000
    ensures WordAt(bytes, offset, 4) == f.toBits(e.value) && WordAt(bytes, offset + 4, 4) == e.id
  {
    var b := EntryBytes(f, e);
    assert bytes[offset..offset + 4] == bytes[offset..offset + ENTRY_SIZE][..4] == b[..4] ==
           Encode(f.toBits(e.value), 4);
    assert bytes[offset + 4..offset + 8] == bytes[offset..offset + ENTRY_SIZE][4..] == b[4..] == Encode(e.id, 4);
    WordRanges();
    hide Encode, EntryBytes, Range, WordAt;
    EncodedAt(bytes, offset, 4, f.toBits(e.value));
    EncodedAt(bytes, offset + 4, 4, e.id);
  }

  /** Child i of an internal page at byte 32 + 8i. */
  lemma ChildAtByte(f: Floats, page: Page, pageSize: nat, i: nat)
    requires Consistent(page, pageSize) && Fits(f, page) && page.kind == INTERNAL_PAGE && i < page.count
    ensures var bytes := PageBytes(f, page, pageSize);
            32 + 8 * i + 8 <= |bytes| && WordAt(bytes, 32 + 8 * i, 8) == page.children[i]
  {
    ChildSlice(f, page, pageSize, i);
    WordRanges();
    assert page.children[i] < Range(8);
    hide PageBytes, Encode, WordAt, Range;
    EncodedAt(PageBytes(f, page, pageSize), 32 + 8 * i, 8, page.children[i]);
  }

  lemma SeparatorFits(f: Floats, page: Page, pageSize: nat, i: nat)
    requires Consistent(page, pageSize) && Fits(f, page) && page.kind == INTERNAL_PAGE && i + 1 < page.count
    ensures i < |page.separators| && f.toBits(page.separators[i]) < 0x1_0000_0000
  {
    assert Storable(f, page.separators[i]);
  }

  /** Separator i behind all children, at four bytes each. */
  lemma SeparatorAtByte(f: Floats, page: Page, pageSize: nat, i: nat)
    requires Consistent(page, pageSize) && Fits(f, page) && page.kind == INTERNAL_PAGE && i + 1 < page.count
    ensures i < |page.separators|
    ensures var offset, bytes := 32 + 8 * page.count + 4 * i, PageBytes(f, page, pageSize);
            offset + 4 <= |bytes| && WordAt(bytes, offset, 4) == f.toBits(page.separators[i])
  {
    assert 32 + 8 * page.count + 4 * i == PAGE_HEADER_SIZE + page.count * CHILD_SIZE + i * SEPARATOR_SIZE;
    assert SEPARATOR_SIZE == 4;
    hide *;
    SeparatorFits(f, page, pageSize, i);
    SeparatorSlice(f, page, pageSize, i);
    WordRanges();
    EncodedAt(PageBytes(f, page, pageSize), 32 + 8 * page.count + 4 * i, 4, f.toBits(page.separators[i]));
  }

  // ---- sorted-array files ----------------------------------------------

  /** The sizes from byte 24, the layout from byte 80. */
  lemma ArrayHeaderAt(f: Floats, tables: seq<seq<Entry>>, e: Envelope, s: Surroundings)
    requires Writable(f, tables, e, s)
    ensures var file := FileBytes(f, tables, e, s);
            |file| == e.size >= 120 && WordAt(file, 24, 4) == e.points && WordAt(file, 28, 4) == e.dimensions &&
            WordAt(file, 32, 4) == e.tables && WordAt(file, 36, 4) == e.pageSize && WordAt(file, 80, 8) == e.roots &&
            WordAt(file, 88, 8) == e.projections && WordAt(file, 96, 8) == e.data &&
            WordAt(file, 104, 8) == e.pageCount && WordAt(file, 112, 8) == e.size
  {
    FileLengths(f, tables, e, s);
    HeaderBack(f, tables, e, s);
    HeaderAt(FileBytes(f, tables, e, s), e);
    hide FileBytes, WordAt, ArrayEnvelopeOk;
  }

  lemma HeaderAt(file: seq<Byte>, e: Envelope)
    requires HeaderOf(file) == Some(e)
    ensures |file| >= 120 && WordAt(file, 24, 4) == e.points && WordAt(file, 28, 4) == e.dimensions &&
            WordAt(file, 32, 4) == e.tables && WordAt(file, 36, 4) == e.pageSize && WordAt(file, 80, 8) == e.roots &&
            WordAt(file, 88, 8) == e.projections && WordAt(file, 96, 8) == e.data &&
            WordAt(file, 104, 8) == e.pageCount && WordAt(file, 112, 8) == e.size
  {
    hide WordAt, Decode;
    WordIs(file, 24, 4);
    WordIs(file, 28, 4);
    WordIs(file, 32, 4);
    WordIs(file, 36, 4);
    WordIs(file, 80, 8);
    WordIs(file, 88, 8);
    WordIs(file, 96, 8);
    WordIs(file, 104, 8);
    WordIs(file, 112, 8);
  }

  /** Table t starts t tables of n entries, eight bytes each, behind the data offset. */
  lemma StartNumber(e: Envelope, t: nat)
    ensures TableStart(e, t) == e.data + t * (e.points * 8)
  {}

  /** The offset of table t at byte 120 + 8t. */
  lemma TableOffsetAt(f: Floats, tables: seq<seq<Entry>>, e: Envelope, s: Surroundings, t: nat)
    requires Writable(f, tables, e, s) && t < e.tables
    ensures var file := FileBytes(f, tables, e, s);
            120 + 8 * t + 8 <= |file| && WordAt(file, 120 + 8 * t, 8) == TableStart(e, t)
  {
    OffsetsBack(f, tables, e, s);
    ArrayEnvelopeSound(e, e.size);
    var file := FileBytes(f, tables, e, s);
    assert OffsetAt(file, e, t) == TableStart(e, t);
    hide FileBytes, ArrayEnvelopeOk, Contiguous, TableStart, WordAt, Decode, Writable;
    WordIs(file, 120 + 8 * t, 8);
  }

  /** Entry i of a stored table, eight bytes each: the value, then the id. */
  lemma StoredEntryAt(f: Floats, tables: seq<seq<Entry>>, e: Envelope, s: Surroundings, t: nat, i: nat)
    requires Writable(f, tables, e, s) && t < e.tables && TableFits(f, tables[t]) && i < e.points
    ensures |tables[t]| == e.points && TableStart(e, t) + 8 * i + 8 <= |FileBytes(f, tables, e, s)|
    ensures EntryWordsStand(f, FileBytes(f, tables, e, s), TableStart(e, t) + 8 * i, tables[t][i])
  {
    assert |tables[t]| == e.points;
    TableSlice(f, tables, e, s, t);
    var file, at := FileBytes(f, tables, e, s), TableStart(e, t);
    ExtentNumber(e);
    hide *;
    TableEntryAt(f, file, tables[t], at, e.points, i);
  }

  lemma ExtentNumber(e: Envelope)
    ensures Extent(e) == e.points * 8
  {}

  ghost predicate EntryWordsStand(f: Floats, bytes: seq<Byte>, offset: nat, e: Entry)
    requires offset + 8 <= |bytes|
  {
    WordAt(bytes, offset, 4) == f.toBits(e.value) && WordAt(bytes, offset + 4, 4) == e.id
  }

  lemma TableEntryAt(f: Floats, file: seq<Byte>, table: seq<Entry>, at: nat, n: nat, i: nat)
    requires at + n * 8 <= |file| && file[at..at + n * 8] == Flat(EntryChunks(f, table))
    requires TableFits(f, table) && i < |table| == n
    ensures at + 8 * i + 8 <= |file| && EntryWordsStand(f, file, at + 8 * i, table[i])
  {
    var chunks := EntryChunks(f, table);
    EvenEntries(f, table);
    assert chunks[i] == EntryBytes(f, table[i]) && StartsAt(8 * i, i, ENTRY_SIZE);
    assert Storable(f, table[i].value) && table[i].id < 0x1_0000_0000;
    hide Flat, EntryChunks, StartsAt, EntryBytes, Even, WordAt;
    ChunkFrom(chunks, ENTRY_SIZE, i, 8 * i);
    SliceOfSlice(file, at, at + n * 8, 8 * i, 8 * i + 8);
    EntryWordsAt(f, file, at + 8 * i, table[i]);
  }
}
