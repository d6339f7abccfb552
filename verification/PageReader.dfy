/** Reading pages back: what the readers find in a page SerializePage wrote, and in
    any other bytes. */
module PageReader {
  import opened Tables
  import opened PageTree
  import opened HeaderCheck
  import opened PageCodec

  datatype Header = Header(kind: nat, count: nat, previous: nat, next: nat)

  /** memcpy out of the page. */
  function ReadWord(page: seq<Byte>, offset: nat, width: nat): nat
    requires offset + width <= |page|
  {
    Decode(page[offset..offset + width])
  }

  function ReadPageHeader(page: seq<Byte>): Option<Header> {
    if |page| < PAGE_HEADER_SIZE then None
    else Some(Header(ReadWord(page, 0, 4), ReadWord(page, 4, 4), ReadWord(page, 8, 8), ReadWord(page, 16, 8)))
  }

  function ReadDiskEntry(f: Floats, page: seq<Byte>, header: Header, index: nat): Option<Entry> {
    var offset := PAGE_HEADER_SIZE + index * ENTRY_SIZE;
    if header.kind != LEAF_PAGE || index >= header.count || offset + ENTRY_SIZE > |page| then None
    else Some(Entry(f.fromBits(ReadWord(page, offset, 4)), ReadWord(page, offset + 4, 4)))
  }

  function ReadChild(page: seq<Byte>, header: Header, index: nat): Option<nat> {
    var offset := PAGE_HEADER_SIZE + index * CHILD_SIZE;
    if header.kind != INTERNAL_PAGE || index >= header.count || offset + CHILD_SIZE > |page| then None
    else Some(ReadWord(page, offset, CHILD_SIZE))
  }

  function ReadSeparator(f: Floats, page: seq<Byte>, header: Header, index: nat): Option<real> {
    var offset := PAGE_HEADER_SIZE + header.count * CHILD_SIZE + index * SEPARATOR_SIZE;
    if header.kind != INTERNAL_PAGE || index + 1 >= header.count || offset + SEPARATOR_SIZE > |page| then None
    else Some(f.fromBits(ReadWord(page, offset, SEPARATOR_SIZE)))
  }

  // ---- round trips -----------------------------------------------------

  /** Everything on the page fits the words it is stored in. */
  ghost predicate Fits(f: Floats, page: Page) {
    page.kind < 0x1_0000_0000 && page.count < 0x1_0000_0000 &&
    page.previous < 0x1_0000_0000_0000_0000 && page.next < 0x1_0000_0000_0000_0000 &&
    (forall i :: 0 <= i < |page.entries| ==>
       Storable(f, page.entries[i].value) && page.entries[i].id < 0x1_0000_0000) &&
    (forall i :: 0 <= i < |page.children| ==> page.children[i] < 0x1_0000_0000_0000_0000) &&
    forall i :: 0 <= i < |page.separators| ==> Storable(f, page.separators[i])
  }

  /** The header's four words. */
  lemma HeaderWords(page: Page)
    ensures var h := HeaderBytes(page);
            |h| == PAGE_HEADER_SIZE && h[0..4] == Encode(page.kind, 4) && h[4..8] == Encode(page.count, 4) &&
            h[8..16] == Encode(page.previous, 8) && h[16..24] == Encode(page.next, 8)
  {
    hide Encode;
  }

  lemma SliceOfPrefix<T>(bytes: seq<T>, h: seq<T>, lo: nat, hi: nat)
    requires h <= bytes && lo <= hi <= |h|
    ensures bytes[lo..hi] == h[lo..hi]
  {}

  lemma HeaderRoundTrip(f: Floats, page: Page, pageSize: nat)
    requires Consistent(page, pageSize) && Fits(f, page)
    ensures ReadPageHeader(PageBytes(f, page, pageSize)) ==
            Some(Header(page.kind, page.count, page.previous, page.next))
  {
    var bytes, h := PageBytes(f, page, pageSize), HeaderBytes(page);
    BodyLength(f, page, pageSize);
    assert bytes[..PAGE_HEADER_SIZE] == h;
    HeaderWords(page);
    WordRanges();
    hide PageBytes, HeaderBytes, Encode, Decode, Range;
    SliceOfPrefix(bytes, h, 0, 4);
    SliceOfPrefix(bytes, h, 4, 8);
    SliceOfPrefix(bytes, h, 8, 16);
    SliceOfPrefix(bytes, h, 16, 24);
    DecodeEncode(page.kind, 4);
    DecodeEncode(page.count, 4);
    DecodeEncode(page.previous, 8);
    DecodeEncode(page.next, 8);
  }

  lemma SliceInside<T>(a: seq<T>, b: seq<T>, c: seq<T>, lo: nat, hi: nat)
    requires lo <= hi <= |b|
    ensures (a + b + c)[|a| + lo..|a| + hi] == b[lo..hi]
  {}

  lemma SliceAt<T>(bytes: seq<T>, a: seq<T>, b: seq<T>, c: seq<T>, lo: nat, width: nat, offset: nat)
    requires bytes == a + b + c && offset == |a| + lo && lo + width <= |b|
    ensures offset + width <= |bytes| && bytes[offset..offset + width] == b[lo..lo + width]
  {
    SliceInside(a, b, c, lo, lo + width);
  }

  ghost predicate StartsAt(lo: nat, i: nat, width: nat) {
    lo == i * width
  }

  lemma ChunkFrom(chunks: seq<seq<Byte>>, width: nat, i: nat, lo: nat)
    requires Even(chunks, width) && i < |chunks| && StartsAt(lo, i, width)
    ensures lo + width <= |Flat(chunks)| && Flat(chunks)[lo..lo + width] == chunks[i]
  {
    ChunkAt(chunks, width, i);
  }

  /** Where chunk i is in a page that holds the chunks between other bytes. */
  lemma ChunkInside(bytes: seq<Byte>, before: seq<Byte>, chunks: seq<seq<Byte>>, rest: seq<Byte>, width: nat, i: nat,
                    lo: nat, offset: nat)
    requires bytes == before + Flat(chunks) + rest && Even(chunks, width) && i < |chunks|
    requires StartsAt(lo, i, width) && offset == |before| + lo
    ensures offset + width <= |bytes| && bytes[offset..offset + width] == chunks[i]
  {
    hide Flat, Even, StartsAt;
    ChunkFrom(chunks, width, i, lo);
    SliceAt(bytes, before, Flat(chunks), rest, lo, width, offset);
  }

  /** Where the bytes of entry i are. */
  lemma EntrySlice(f: Floats, page: Page, pageSize: nat, i: nat)
    requires Consistent(page, pageSize) && page.kind == LEAF_PAGE && i < page.count
    ensures var offset, bytes := PAGE_HEADER_SIZE + i * ENTRY_SIZE, PageBytes(f, page, pageSize);
            offset + ENTRY_SIZE <= |bytes| && bytes[offset..offset + ENTRY_SIZE] == EntryBytes(f, page.entries[i])
  {
    var chunks := EntryChunks(f, page.entries);
    BodyLength(f, page, pageSize);
    EvenEntries(f, page.entries);
    var bytes, rest := PageBytes(f, page, pageSize), Zeros(pageSize - |Body(f, page)|);
    assert chunks[i] == EntryBytes(f, page.entries[i]) && StartsAt(i * ENTRY_SIZE, i, ENTRY_SIZE);
    assert bytes == HeaderBytes(page) + Flat(chunks) + rest;
    hide *;
    ChunkInside(bytes, HeaderBytes(page), chunks, rest, ENTRY_SIZE, i, i * ENTRY_SIZE,
                PAGE_HEADER_SIZE + i * ENTRY_SIZE);
  }

  /** Entry i of a leaf comes back as written. */
  lemma EntryRoundTrip(f: Floats, page: Page, pageSize: nat, i: nat)
    requires Consistent(page, pageSize) && Fits(f, page) && page.kind == LEAF_PAGE && i < page.count
    ensures ReadDiskEntry(f, PageBytes(f, page, pageSize), Header(page.kind, page.count, page.previous, page.next), i)
         == Some(page.entries[i])
  {
    EntrySlice(f, page, pageSize, i);
    EntryWords(f, PageBytes(f, page, pageSize), PAGE_HEADER_SIZE + i * ENTRY_SIZE, page.entries[i]);
    hide PageBytes, EntryBytes, ReadWord;
  }

  lemma EntryWords(f: Floats, bytes: seq<Byte>, offset: nat, e: Entry)
    requires offset + ENTRY_SIZE <= |bytes| && bytes[offset..offset + ENTRY_SIZE] == EntryBytes(f, e)
    requires Storable(f, e.value) && e.id < 0x1_0000_0000
    ensures Entry(f.fromBits(ReadWord(bytes, offset, 4)), ReadWord(bytes, offset + 4, 4)) == e
  {
    var b := EntryBytes(f, e);
    assert bytes[offset..offset + 4] == bytes[offset..offset + ENTRY_SIZE][..4] == b[..4] ==
           Encode(f.toBits(e.value), 4);
    assert bytes[offset + 4..offset + 8] == bytes[offset..offset + ENTRY_SIZE][4..] == b[4..] == Encode(e.id, 4);
    WordRanges();
    DecodeEncode(f.toBits(e.value), 4);
    DecodeEncode(e.id, 4);
  }

  /** Where the bytes of child i are. */
  lemma ChildSlice(f: Floats, page: Page, pageSize: nat, i: nat)
    requires Consistent(page, pageSize) && page.kind == INTERNAL_PAGE && i < page.count
    ensures var offset, bytes := PAGE_HEADER_SIZE + i * CHILD_SIZE, PageBytes(f, page, pageSize);
            offset + CHILD_SIZE <= |bytes| && bytes[offset..offset + CHILD_SIZE] == Encode(page.children[i], CHILD_SIZE)
  {
    var chunks := ChildChunks(page.children);
    var bytes, flat := PageBytes(f, page, pageSize), Flat(chunks);
    BodyLength(f, page, pageSize);
    EvenChildren(f, page);
    assert chunks[i] == Encode(page.children[i], 8);
    var rest := Flat(SeparatorChunks(f, page.separators)) + Zeros(pageSize - |Body(f, page)|);
    assert bytes == HeaderBytes(page) + flat + rest;
    hide PageBytes, HeaderBytes, ChildChunks, SeparatorChunks, Flat, Body, Encode;
    ChunkInside(bytes, HeaderBytes(page), chunks, rest, CHILD_SIZE, i, i * CHILD_SIZE,
                PAGE_HEADER_SIZE + i * CHILD_SIZE);
  }

  /** Child i of an internal page comes back as written. */
  lemma ChildRoundTrip(f: Floats, page: Page, pageSize: nat, i: nat)
    requires Consistent(page, pageSize) && Fits(f, page) && page.kind == INTERNAL_PAGE && i < page.count
    ensures ReadChild(PageBytes(f, page, pageSize), Header(page.kind, page.count, page.previous, page.next), i)
         == Some(page.children[i])
  {
    ChildSlice(f, page, pageSize, i);
    ChildWord(PageBytes(f, page, pageSize), PAGE_HEADER_SIZE + i * CHILD_SIZE, page.children[i]);
    hide PageBytes, Encode, Decode, ReadWord;
  }

  lemma ChildWord(bytes: seq<Byte>, offset: nat, x: nat)
    requires offset + CHILD_SIZE <= |bytes| && bytes[offset..offset + CHILD_SIZE] == Encode(x, CHILD_SIZE)
    requires x < 0x1_0000_0000_0000_0000
    ensures ReadWord(bytes, offset, CHILD_SIZE) == x
  {
    WordRanges();
    DecodeEncode(x, 8);
  }

  /** An internal page: header, children, separators, padding. */
  lemma PageParts(f: Floats, page: Page, pageSize: nat)
    requires Consistent(page, pageSize) && page.kind == INTERNAL_PAGE
    ensures |Body(f, page)| <= pageSize
    ensures var before := HeaderBytes(page) + Flat(ChildChunks(page.children));
            |before| == PAGE_HEADER_SIZE + page.count * CHILD_SIZE &&
            PageBytes(f, page, pageSize)
              == before + Flat(SeparatorChunks(f, page.separators)) + Zeros(pageSize - |Body(f, page)|)
  {
    BodyLength(f, page, pageSize);
    EvenChildren(f, page);
    hide ChildChunks, SeparatorChunks, Flat, HeaderBytes, Zeros;
    FourParts(HeaderBytes(page), Flat(ChildChunks(page.children)), Flat(SeparatorChunks(f, page.separators)),
              Zeros(pageSize - |Body(f, page)|));
  }

  lemma FourParts<T>(a: seq<T>, b: seq<T>, c: seq<T>, d: seq<T>)
    ensures (a + (b + c)) + d == a + b + c + d
  {}

  /** Where the bytes of separator i are. */
  lemma SeparatorSlice(f: Floats, page: Page, pageSize: nat, i: nat)
    requires Consistent(page, pageSize) && page.kind == INTERNAL_PAGE && i + 1 < page.count
    ensures var offset := PAGE_HEADER_SIZE + page.count * CHILD_SIZE + i * SEPARATOR_SIZE;
            var bytes := PageBytes(f, page, pageSize);
            offset + SEPARATOR_SIZE <= |bytes| &&
            bytes[offset..offset + SEPARATOR_SIZE] == Encode(f.toBits(page.separators[i]), SEPARATOR_SIZE)
  {
    PageParts(f, page, pageSize);
    EvenChildren(f, page);
    var chunks := SeparatorChunks(f, page.separators);
    var before, rest := HeaderBytes(page) + Flat(ChildChunks(page.children)), Zeros(pageSize - |Body(f, page)|);
    assert |chunks| == |page.separators| == page.count - 1;
    assert chunks[i] == Encode(f.toBits(page.separators[i]), 4) && StartsAt(i * SEPARATOR_SIZE, i, SEPARATOR_SIZE);
    hide *;
    ChunkInside(PageBytes(f, page, pageSize), before, chunks, rest, SEPARATOR_SIZE, i, i * SEPARATOR_SIZE,
                PAGE_HEADER_SIZE + page.count * CHILD_SIZE + i * SEPARATOR_SIZE);
  }

  /** Separator i of an internal page comes back as written. */
  lemma SeparatorRoundTrip(f: Floats, page: Page, pageSize: nat, i: nat)
    requires Consistent(page, pageSize) && Fits(f, page) && page.kind == INTERNAL_PAGE && i + 1 < page.count
    ensures ReadSeparator(f, PageBytes(f, page, pageSize), Header(page.kind, page.count, page.previous, page.next), i)
         == Some(page.separators[i])
  {
    SeparatorSlice(f, page, pageSize, i);
    var offset := PAGE_HEADER_SIZE + page.count * CHILD_SIZE + i * SEPARATOR_SIZE;
    SeparatorWord(f, PageBytes(f, page, pageSize), offset, page.separators[i]);
    hide PageBytes, Encode, Decode, ReadWord;
  }

  lemma SeparatorWord(f: Floats, bytes: seq<Byte>, offset: nat, x: real)
    requires offset + SEPARATOR_SIZE <= |bytes| && bytes[offset..offset + SEPARATOR_SIZE] == Encode(f.toBits(x), 4)
    requires Storable(f, x)
    ensures f.fromBits(ReadWord(bytes, offset, SEPARATOR_SIZE)) == x
  {
    WordRanges();
    DecodeEncode(f.toBits(x), 4);
  }

  // ---- a page as the validator sees it ---------------------------------

  /** All the readers can find on a page whose count its size allows. */
  function DecodePage(f: Floats, bytes: seq<Byte>, pageSize: nat): Page
    requires AllowedPageSize(pageSize) && |bytes| == pageSize
  {
    var h := ReadPageHeader(bytes).value;
    Page(h.kind, h.count, h.previous, h.next,
         if h.kind == LEAF_PAGE && h.count <= LeafCapacity(pageSize)
         then seq(h.count, i requires 0 <= i < h.count => EntryOr(ReadDiskEntry(f, bytes, h, i))) else [],
         if h.kind == INTERNAL_PAGE && 2 <= h.count <= InternalCapacity(pageSize)
         then seq(h.count, i requires 0 <= i < h.count => ChildOr(ReadChild(bytes, h, i))) else [],
         if h.kind == INTERNAL_PAGE && 2 <= h.count <= InternalCapacity(pageSize)
         then seq(h.count - 1, i requires 0 <= i < h.count - 1 => SeparatorOr(ReadSeparator(f, bytes, h, i))) else [])
  }

  function EntryOr(e: Option<Entry>): Entry {
    if e.Some? then e.value else Entry(0.0, 0)
  }

  function ChildOr(c: Option<nat>): nat {
    if c.Some? then c.value else 0
  }

  function SeparatorOr(s: Option<real>): real {
    if s.Some? then s.value else 0.0
  }

  /** No read of a page within its capacity leaves the page. */
  lemma ReadsInside(f: Floats, bytes: seq<Byte>, pageSize: nat, h: Header, i: nat)
    requires AllowedPageSize(pageSize) && |bytes| == pageSize && i < h.count
    ensures h.kind == LEAF_PAGE && h.count <= LeafCapacity(pageSize) ==> ReadDiskEntry(f, bytes, h, i).Some?
    ensures h.kind == INTERNAL_PAGE && h.count <= InternalCapacity(pageSize) ==>
              ReadChild(bytes, h, i).Some? && (i + 1 < h.count ==> ReadSeparator(f, bytes, h, i).Some?)
  {}

  /** Whatever bytes a file holds, its pages decode to what the validator expects. */
  lemma AnyBytesDecode(f: Floats, file: seq<seq<Byte>>, pageSize: nat, pages: seq<Page>)
    requires AllowedPageSize(pageSize) && |pages| == |file| && forall p :: 0 < p < |file| ==> |file[p]| == pageSize
    requires forall p :: 0 < p < |pages| ==> pages[p] == DecodePage(f, file[p], pageSize)
    ensures Decoded(pages, pageSize)
  {}

  /** A page within its capacity can be serialized. */
  lemma ShapedIsConsistent(page: Page, pageSize: nat)
    requires AllowedPageSize(pageSize) && PageShape(page, pageSize)
    ensures Consistent(page, pageSize)
  {}

  /** Writing a page and reading it back. */
  lemma PageRoundTrip(f: Floats, page: Page, pageSize: nat)
    requires AllowedPageSize(pageSize) && PageShape(page, pageSize) && Canonical(page) && Fits(f, page)
    ensures Consistent(page, pageSize) && DecodePage(f, PageBytes(f, page, pageSize), pageSize) == page
  {
    ShapedIsConsistent(page, pageSize);
    HeaderRoundTrip(f, page, pageSize);
    var bytes := PageBytes(f, page, pageSize);
    var back, h := DecodePage(f, bytes, pageSize), Header(page.kind, page.count, page.previous, page.next);
    hide PageBytes, ReadDiskEntry, ReadChild, ReadSeparator, ReadPageHeader;
    if page.kind == LEAF_PAGE {
      forall i | 0 <= i < page.count
        ensures back.entries[i] == page.entries[i]
      {
        EntryRoundTrip(f, page, pageSize, i);
      }
      assert back.entries == page.entries;
    } else {
      forall i | 0 <= i < page.count
        ensures back.children[i] == page.children[i]
      {
        ChildRoundTrip(f, page, pageSize, i);
      }
      forall i | 0 <= i < page.count - 1
        ensures back.separators[i] == page.separators[i]
      {
        SeparatorRoundTrip(f, page, pageSize, i);
      }
      assert back.children == page.children && back.separators == page.separators;
    }
  }

  /** Writing the pages of an index and reading them all back. */
  method WriteAndRead(f: Floats, pages: seq<Page>, pageSize: nat) returns (back: seq<Page>)
    requires AllowedPageSize(pageSize) && |pages| > 0
    requires forall p :: 0 < p < |pages| ==> PageShape(pages[p], pageSize) && Canonical(pages[p]) && Fits(f, pages[p])
    ensures back == pages
  {
    back := [pages[0]];
    for p := 1 to |pages|
      invariant back == pages[..p]
    {
      PageRoundTrip(f, pages[p], pageSize);
      var ok, bytes := SerializePage(f, pages[p], pageSize);
      back := back + [DecodePage(f, bytes[..], pageSize)];
    }
  }
}
