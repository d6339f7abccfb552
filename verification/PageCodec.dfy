/** Pages as bytes: SerializePage and the readers that take its output apart. */
module PageCodec {
  import opened Tables
  import opened PageTree

  newtype Byte = x: int | 0 <= x < 256

  // ---- words -----------------------------------------------------------

  /** The values a word of this many bytes can hold. */
  function Range(width: nat): (r: nat)
    ensures r > 0
  {
    if width == 0 then 1 else 256 * Range(width - 1)
  }

  /** Little-endian bytes of a word. */
  function Encode(x: nat, width: nat): (s: seq<Byte>)
    ensures |s| == width
  {
    if width == 0 then [] else [(x % 256) as Byte] + Encode(x / 256, width - 1)
  }

  function Decode(s: seq<Byte>): (x: nat)
  {
    if s == [] then 0 else s[0] as nat + 256 * Decode(s[1..])
  }

  lemma {:induction false} DecodeEncode(x: nat, width: nat)
    requires x < Range(width)
    ensures Decode(Encode(x, width)) == x
  {
    if width == 0 {
    } else {
      assert x / 256 < Range(width - 1);
      DecodeEncode(x / 256, width - 1);
      assert Encode(x, width)[1..] == Encode(x / 256, width - 1);
    }
  }

  /** Every byte string is the encoding of the word it decodes to. */
  lemma {:induction false} EncodeDecode(s: seq<Byte>)
    ensures Encode(Decode(s), |s|) == s && Decode(s) < Range(|s|)
  {
    if s == [] {
    } else {
      EncodeDecode(s[1..]);
      var x := Decode(s);
      assert x % 256 == s[0] as nat && x / 256 == Decode(s[1..]);
    }
  }

  lemma WordRanges()
    ensures Range(4) == 0x1_0000_0000 && Range(8) == 0x1_0000_0000_0000_0000
  {
    assert Range(1) == 256 && Range(2) == 0x1_0000 && Range(3) == 0x100_0000;
    assert Range(5) == 256 * Range(4) && Range(6) == 256 * Range(5) && Range(7) == 256 * Range(6);
  }

  // ---- arrays of equal chunks ------------------------------------------

  function Flat(chunks: seq<seq<Byte>>): seq<Byte> {
    if chunks == [] then [] else Flat(chunks[..|chunks| - 1]) + chunks[|chunks| - 1]
  }

  ghost predicate Even(chunks: seq<seq<Byte>>, width: nat) {
    forall i :: 0 <= i < |chunks| ==> |chunks[i]| == width
  }

  lemma {:induction false} FlatLength(chunks: seq<seq<Byte>>, width: nat)
    requires Even(chunks, width)
    ensures |Flat(chunks)| == |chunks| * width
  {
    if chunks == [] {
    } else {
      FlatLength(chunks[..|chunks| - 1], width);
      assert (|chunks| - 1) * width + width == |chunks| * width;
    }
  }

  lemma {:induction false} ChunkAt(chunks: seq<seq<Byte>>, width: nat, i: nat)
    requires Even(chunks, width) && i < |chunks|
    ensures i * width + width <= |Flat(chunks)| && Flat(chunks)[i * width..i * width + width] == chunks[i]
  {
    var front := chunks[..|chunks| - 1];
    FlatLength(chunks, width);
    FlatLength(front, width);
    MultipleMonotone(i, |chunks|, width);
    if i < |chunks| - 1 {
      ChunkAt(front, width, i);
      MultipleMonotone(i, |front|, width);
      assert Flat(chunks)[i * width..i * width + width] == Flat(front)[i * width..i * width + width];
    } else {
      assert Flat(chunks)[|Flat(front)|..] == chunks[i];
      assert i * width == |Flat(front)|;
      assert i * width + width == |Flat(chunks)|;
    }
  }

  function Zeros(count: nat): (s: seq<Byte>)
    ensures |s| == count
  {
    seq(count, _ => 0)
  }

  // ---- what SerializePage writes ---------------------------------------

  /** How float32 numbers are kept in 32 bits. */
  datatype Floats = Floats(toBits: real -> nat, fromBits: nat -> real)

  /** A value that survives being stored. */
  predicate Storable(f: Floats, x: real) {
    f.toBits(x) < 0x1_0000_0000 && f.fromBits(f.toBits(x)) == x
  }

  function HeaderBytes(page: Page): (s: seq<Byte>)
    ensures |s| == PAGE_HEADER_SIZE
  {
    Encode(page.kind, 4) + Encode(page.count, 4) + Encode(page.previous, 8) + Encode(page.next, 8) + Zeros(8)
  }

  function EntryBytes(f: Floats, e: Entry): (s: seq<Byte>)
    ensures |s| == ENTRY_SIZE
  {
    Encode(f.toBits(e.value), 4) + Encode(e.id, 4)
  }

  function EntryChunks(f: Floats, entries: seq<Entry>): (c: seq<seq<Byte>>)
    ensures |c| == |entries|
  {
    seq(|entries|, i requires 0 <= i < |entries| => EntryBytes(f, entries[i]))
  }

  function ChildChunks(children: seq<nat>): (c: seq<seq<Byte>>)
    ensures |c| == |children|
  {
    seq(|children|, i requires 0 <= i < |children| => Encode(children[i], 8))
  }

  function SeparatorChunks(f: Floats, separators: seq<real>): (c: seq<seq<Byte>>)
    ensures |c| == |separators|
  {
    seq(|separators|, i requires 0 <= i < |separators| => Encode(f.toBits(separators[i]), 4))
  }

  function Body(f: Floats, page: Page): seq<Byte> {
    HeaderBytes(page) +
    if page.kind == LEAF_PAGE then Flat(EntryChunks(f, page.entries))
    else Flat(ChildChunks(page.children)) + Flat(SeparatorChunks(f, page.separators))
  }

  /** The checks of SerializePage. */
  predicate Consistent(page: Page, pageSize: nat) {
    (page.kind == LEAF_PAGE && 0 < page.count == |page.entries| &&
     PAGE_HEADER_SIZE + page.count * ENTRY_SIZE <= pageSize) ||
    (page.kind == INTERNAL_PAGE && 2 <= page.count == |page.children| && |page.separators| + 1 == |page.children| &&
     PAGE_HEADER_SIZE + page.count * CHILD_SIZE + (page.count - 1) * SEPARATOR_SIZE <= pageSize)
  }

  lemma BodyLength(f: Floats, page: Page, pageSize: nat)
    requires Consistent(page, pageSize)
    ensures |Body(f, page)| <= pageSize
    ensures page.kind == LEAF_PAGE ==> |Body(f, page)| == PAGE_HEADER_SIZE + page.count * ENTRY_SIZE
    ensures page.kind == INTERNAL_PAGE ==>
              |Body(f, page)| == PAGE_HEADER_SIZE + page.count * CHILD_SIZE + (page.count - 1) * SEPARATOR_SIZE
  {
    if page.kind == LEAF_PAGE {
      FlatLength(EntryChunks(f, page.entries), ENTRY_SIZE);
    } else {
      FlatLength(ChildChunks(page.children), CHILD_SIZE);
      FlatLength(SeparatorChunks(f, page.separators), SEPARATOR_SIZE);
    }
  }

  /** A serialized page: the body, zero-filled to the page size. */
  function PageBytes(f: Floats, page: Page, pageSize: nat): (bytes: seq<Byte>)
    requires Consistent(page, pageSize)
    ensures |bytes| == pageSize
  {
    BodyLength(f, page, pageSize);
    Body(f, page) + Zeros(pageSize - |Body(f, page)|)
  }

  /** memcpy into the page buffer. */
  method Copy(output: array<Byte>, offset: nat, bytes: seq<Byte>)
    requires offset + |bytes| <= output.Length
    modifies output
    ensures output[..] == old(output[..offset]) + bytes + old(output[offset + |bytes|..])
  {
    for i := 0 to |bytes|
      invariant output[..offset + i] == old(output[..offset]) + bytes[..i]
      invariant output[offset + i..] == old(output[offset + i..])
    {
      output[offset + i] := bytes[i];
      assert output[..offset + (i + 1)] == output[..offset + i] + [bytes[i]];
    }
    assert bytes[..|bytes|] == bytes;
    assert output[..] == output[..offset + |bytes|] + output[offset + |bytes|..];
  }

  /** The buffer holds body so far and zeros after it. */
  ghost predicate Filled(output: seq<Byte>, body: seq<Byte>) {
    |body| <= |output| && output == body + Zeros(|output| - |body|)
  }

  method Append(output: array<Byte>, ghost body: seq<Byte>, at: nat, bytes: seq<Byte>)
    requires Filled(output[..], body) && at == |body| && at + |bytes| <= output.Length
    modifies output
    ensures Filled(output[..], body + bytes)
  {
    Copy(output, at, bytes);
    assert Zeros(output.Length - |body|)[|bytes|..] == Zeros(output.Length - |body + bytes|);
  }

  /** Copying equal chunks one after another. */
  method AppendChunks(output: array<Byte>, ghost body: seq<Byte>, at: nat, width: nat, chunks: seq<seq<Byte>>)
    requires Filled(output[..], body) && at == |body| && Even(chunks, width) && at + |chunks| * width <= output.Length
    modifies output
    ensures Filled(output[..], body + Flat(chunks))
  {
    assert body + [] == body;
    for i := 0 to |chunks|
      invariant Filled(output[..], body + Flat(chunks[..i]))
    {
      FlatLength(chunks[..i], width);
      MultipleMonotone(i, |chunks|, width);
      assert chunks[..i + 1][..i] == chunks[..i];
      assert (body + Flat(chunks[..i])) + chunks[i] == body + Flat(chunks[..i + 1]);
      Append(output, body + Flat(chunks[..i]), at + i * width, chunks[i]);
    }
    assert chunks[..|chunks|] == chunks;
  }

  /** The part of SerializePage behind the header. */
  method FillLeaf(output: array<Byte>, f: Floats, page: Page)
    requires Filled(output[..], HeaderBytes(page)) && |HeaderBytes(page)| == PAGE_HEADER_SIZE
    requires PAGE_HEADER_SIZE + |page.entries| * ENTRY_SIZE <= output.Length
    modifies output
    ensures Filled(output[..], HeaderBytes(page) + Flat(EntryChunks(f, page.entries)))
  {
    hide HeaderBytes, EntryChunks, Flat;
    EvenEntries(f, page.entries);
    AppendChunks(output, HeaderBytes(page), PAGE_HEADER_SIZE, ENTRY_SIZE, EntryChunks(f, page.entries));
  }

  method FillInternal(output: array<Byte>, f: Floats, page: Page)
    requires Filled(output[..], HeaderBytes(page)) && |HeaderBytes(page)| == PAGE_HEADER_SIZE
    requires PAGE_HEADER_SIZE + |page.children| * CHILD_SIZE + |page.separators| * SEPARATOR_SIZE <= output.Length
    modifies output
    ensures Filled(output[..],
                   HeaderBytes(page) + (Flat(ChildChunks(page.children)) + Flat(SeparatorChunks(f, page.separators))))
  {
    hide HeaderBytes, ChildChunks, SeparatorChunks, Flat, Filled;
    EvenChildren(f, page);
    AppendChunks(output, HeaderBytes(page), PAGE_HEADER_SIZE, CHILD_SIZE, ChildChunks(page.children));
    ghost var body := HeaderBytes(page) + Flat(ChildChunks(page.children));
    AppendChunks(output, body, PAGE_HEADER_SIZE + |page.children| * CHILD_SIZE, SEPARATOR_SIZE,
                 SeparatorChunks(f, page.separators));
    assert body + Flat(SeparatorChunks(f, page.separators)) ==
           HeaderBytes(page) + (Flat(ChildChunks(page.children)) + Flat(SeparatorChunks(f, page.separators)));
  }

  /** SerializePage. */
  method SerializePage(f: Floats, page: Page, pageSize: nat) returns (ok: bool, output: array<Byte>)
    requires pageSize >= PAGE_HEADER_SIZE
    ensures fresh(output)
    ensures ok <==>
              (page.kind == 1 && 1 <= page.count == |page.entries| && 32 + 8 * page.count <= pageSize) ||
              (page.kind == 2 && 2 <= page.count == |page.children| == |page.separators| + 1 &&
               32 + 8 * page.count + 4 * (page.count - 1) <= pageSize)
    ensures ok ==> Consistent(page, pageSize) && output[..] == PageBytes(f, page, pageSize)
  {
    output := new Byte[pageSize](_ => 0);
    ok := Consistent(page, pageSize);
    if !ok {
      return;
    }
    assert Filled(output[..], []);
    assert [] + HeaderBytes(page) == HeaderBytes(page);
    BodyLength(f, page, pageSize);
    assert |HeaderBytes(page)| == PAGE_HEADER_SIZE;
    hide HeaderBytes, EntryChunks, ChildChunks, SeparatorChunks, Flat;
    Append(output, [], 0, HeaderBytes(page));
    if page.kind == LEAF_PAGE {
      FillLeaf(output, f, page);
    } else {
      FillInternal(output, f, page);
    }
    assert Filled(output[..], Body(f, page));
  }

  lemma EvenEntries(f: Floats, entries: seq<Entry>)
    ensures Even(EntryChunks(f, entries), ENTRY_SIZE) && |EntryChunks(f, entries)| == |entries|
    ensures |Flat(EntryChunks(f, entries))| == |entries| * ENTRY_SIZE
  {
    FlatLength(EntryChunks(f, entries), ENTRY_SIZE);
  }

  lemma EvenChildren(f: Floats, page: Page)
    ensures Even(ChildChunks(page.children), CHILD_SIZE) && Even(SeparatorChunks(f, page.separators), SEPARATOR_SIZE)
    ensures |ChildChunks(page.children)| == |page.children| &&
            |SeparatorChunks(f, page.separators)| == |page.separators|
    ensures |Flat(ChildChunks(page.children))| == |page.children| * CHILD_SIZE
    ensures |HeaderBytes(page)| == PAGE_HEADER_SIZE
  {
    FlatLength(ChildChunks(page.children), CHILD_SIZE);
  }
}
