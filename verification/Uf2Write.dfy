/** Writing UF2 blocks, and the round trip through the reader. */
module Uf2Write {
  import opened Common
  import opened Uf2

  const FLAG_FAMILY_ID: nat := 0x2000
  const PAGE: nat := 256

  /** One 512-byte block with 256 bytes of data. */
  function BlockBytes(c: Chunk, blockno: nat, numblocks: nat, familyid: nat): (r: seq<Byte>)
    requires |c.data| == PAGE && c.addr < TWO32 && blockno < TWO32 && numblocks < TWO32 && familyid < TWO32
    ensures |r| == 512
  {
    Le32(UF2_MAGIC_START0) + Le32(UF2_MAGIC_START1) + Le32(if familyid != 0 then FLAG_FAMILY_ID else 0) + Le32(c.addr)
    + Le32(PAGE) + Le32(blockno) + Le32(numblocks) + Le32(familyid)
    + c.data + Zeros(220) + Le32(UF2_MAGIC_END)
  }

  /** Every field fits its 32-bit word. */
  predicate Encodable(chunks: seq<Chunk>, familyid: nat) {
    chunks == [] || (|chunks| < TWO32 && familyid < TWO32 &&
                     forall k :: 0 <= k < |chunks| ==> |chunks[k].data| == PAGE && chunks[k].addr < TWO32)
  }

  function EncodedUpTo(chunks: seq<Chunk>, n: nat, familyid: nat): (r: seq<Byte>)
    requires Encodable(chunks, familyid) && n <= |chunks|
    ensures |r| == 512 * n
  {
    if n == 0 then [] else EncodedUpTo(chunks, n - 1, familyid) + BlockBytes(chunks[n - 1], n - 1, |chunks|, familyid)
  }

  /** The file that holds the chunks in order. */
  function Encoded(chunks: seq<Chunk>, familyid: nat): (r: seq<Byte>)
    requires Encodable(chunks, familyid)
    ensures |r| == 512 * |chunks|
  {
    EncodedUpTo(chunks, |chunks|, familyid)
  }

  lemma LaidOut(w0: seq<Byte>, w1: seq<Byte>, w2: seq<Byte>, w3: seq<Byte>, w4: seq<Byte>, w5: seq<Byte>, data: seq<Byte>,
                tail: seq<Byte>, b: seq<Byte>)
    requires |w0| == |w1| == |w2| == |w3| == |w4| == 4 && |w5| == 12 && |data| == PAGE
    requires b == w0 + w1 + w2 + w3 + w4 + w5 + data + tail
    ensures b[0..4] == w0 && b[4..8] == w1 && b[8..12] == w2 && b[12..16] == w3 && b[16..20] == w4
    ensures b[32..32 + PAGE] == data
  {
  }

  /** A written block byte by byte. */
  lemma BlockLayout(c: Chunk, blockno: nat, numblocks: nat, familyid: nat)
    requires |c.data| == PAGE && c.addr < TWO32 && blockno < TWO32 && numblocks < TWO32 && familyid < TWO32
    ensures var b := BlockBytes(c, blockno, numblocks, familyid);
            && b[0..8] == [0x55, 0x46, 0x32, 0x0A, 0x57, 0x51, 0x5D, 0x9E]
            && b[8..12] == (if familyid == 0 then [0, 0, 0, 0] else [0, 0x20, 0, 0])
            && LittleEndian(b, 12) == c.addr && b[16..20] == [0, 1, 0, 0]
            && LittleEndian(b, 20) == blockno && LittleEndian(b, 24) == numblocks && LittleEndian(b, 28) == familyid
            && b[32..288] == c.data && b[508..512] == [0x30, 0x6F, 0xB1, 0x0A]
            && forall i :: 288 <= i < 508 ==> b[i] == 0
  {
    hide Le32, Zeros, Word;
    ConstantWords();
    var b := BlockBytes(c, blockno, numblocks, familyid);
    assert b[12..16] == Le32(c.addr) && b[20..24] == Le32(blockno);
    assert b[24..28] == Le32(numblocks) && b[28..32] == Le32(familyid);
    LittleEndianOf(c.addr, b, 12);
    LittleEndianOf(blockno, b, 20);
    LittleEndianOf(numblocks, b, 24);
    LittleEndianOf(familyid, b, 28);
    assert b[0..8] == Le32(UF2_MAGIC_START0) + Le32(UF2_MAGIC_START1);
    forall i | 288 <= i < 508
      ensures b[i] == 0
    {
      assert b[i] == Zeros(220)[i - 288];
      ZeroAt(220, i - 288);
    }
  }

  lemma ZeroAt(n: nat, i: nat)
    requires i < n
    ensures Zeros(n)[i] == 0
  {
  }

  lemma ConstantWords()
    ensures Le32(UF2_MAGIC_START0) + Le32(UF2_MAGIC_START1) == [0x55, 0x46, 0x32, 0x0A, 0x57, 0x51, 0x5D, 0x9E]
    ensures Le32(UF2_MAGIC_END) == [0x30, 0x6F, 0xB1, 0x0A]
    ensures Le32(0) == [0, 0, 0, 0] && Le32(FLAG_FAMILY_ID) == [0, 0x20, 0, 0] && Le32(PAGE) == [0, 1, 0, 0]
  {
  }

  lemma LittleEndianOf(n: nat, b: seq<Byte>, at: nat)
    requires n < TWO32 && at + 4 <= |b| && b[at..at + 4] == Le32(n)
    ensures LittleEndian(b, at) == n
  {
    hide Le32, Word, LittleEndian;
    WordOfLe32(n, b, at);
    WordIs(b, at, 0, 0, 0, 0);
  }

  /** A written block reads back as its chunk. */
  lemma BlockReadsBack(c: Chunk, blockno: nat, numblocks: nat, familyid: nat)
    requires |c.data| == PAGE && c.addr < TWO32 && blockno < TWO32 && numblocks < TWO32 && familyid < TWO32
    ensures var b := BlockBytes(c, blockno, numblocks, familyid);
            GoodMagic(b) && !NoFlash(b) && GoodLength(b) && ChunkOf(b) == c
  {
    hide Le32, Word, Zeros;
    var b := BlockBytes(c, blockno, numblocks, familyid);
    var flags := if familyid != 0 then FLAG_FAMILY_ID else 0;
    var w5 := Le32(blockno) + Le32(numblocks) + Le32(familyid);
    var tail := Zeros(220) + Le32(UF2_MAGIC_END);
    assert b == Le32(UF2_MAGIC_START0) + Le32(UF2_MAGIC_START1) + Le32(flags) + Le32(c.addr) + Le32(PAGE) + w5 + c.data
                + tail;
    LaidOut(Le32(UF2_MAGIC_START0), Le32(UF2_MAGIC_START1), Le32(flags), Le32(c.addr), Le32(PAGE), w5, c.data, tail, b);
    WordOfLe32(UF2_MAGIC_START0, b, 0);
    WordOfLe32(UF2_MAGIC_START1, b, 4);
    WordOfLe32(flags, b, 8);
    WordOfLe32(c.addr, b, 12);
    WordOfLe32(PAGE, b, 16);
  }

  lemma {:induction false} EncodedBlockAt(chunks: seq<Chunk>, n: nat, familyid: nat, k: nat)
    requires Encodable(chunks, familyid) && k < n <= |chunks|
    ensures BlockAt(EncodedUpTo(chunks, n, familyid), k) == BlockBytes(chunks[k], k, |chunks|, familyid)
    decreases n
  {
    hide BlockBytes;
    if k < n - 1 {
      EncodedBlockAt(chunks, n - 1, familyid, k);
    }
  }

  /** A written file reads back as its chunks. */
  lemma {:induction false} EncodedReadsBack(chunks: seq<Chunk>, familyid: nat, n: nat)
    requires Encodable(chunks, familyid) && n <= |chunks|
    ensures Readable(Encoded(chunks, familyid), n) && Chunks(Encoded(chunks, familyid), n) == chunks[..n]
    decreases n
  {
    hide BlockBytes, BlockAt, GoodMagic, NoFlash, GoodLength, ChunkOf;
    if n > 0 {
      EncodedReadsBack(chunks, familyid, n - 1);
      EncodedBlockAt(chunks, |chunks|, familyid, n - 1);
      BlockReadsBack(chunks[n - 1], n - 1, |chunks|, familyid);
      OneMoreBlock(Encoded(chunks, familyid), n - 1, n);
      assert chunks[..n] == chunks[..n - 1] + [chunks[n - 1]];
    }
  }

  // ---------- A flat image

  function NumPages(content: seq<Byte>): nat {
    (|content| + 255) / 256
  }

  /** The content with zeros up to a whole number of pages. */
  function Padded(content: seq<Byte>): (r: seq<Byte>)
    ensures |r| == PAGE * NumPages(content)
  {
    content + Zeros(PAGE * NumPages(content) - |content|)
  }

  function Pages(content: seq<Byte>, start: nat): (r: seq<Chunk>)
    ensures |r| == NumPages(content)
  {
    seq(NumPages(content), k requires 0 <= k < NumPages(content) =>
      Chunk(start + PAGE * k, Padded(content)[PAGE * k..PAGE * (k + 1)]))
  }

  lemma PageOfContent(content: seq<Byte>, k: nat, end: nat)
    requires k < NumPages(content) && end == if PAGE * (k + 1) <= |content| then PAGE * (k + 1) else |content|
    ensures PAGE * k <= end
    ensures content[PAGE * k..end] + Zeros(PAGE * (k + 1) - end) == Padded(content)[PAGE * k..PAGE * (k + 1)]
  {
    if end == |content| {
      assert PAGE * NumPages(content) == PAGE * (k + 1);
    }
  }

  /** The program's loops that fill up with zeros. */
  method FillUp(chunk: seq<Byte>, size: nat, step: nat) returns (r: seq<Byte>)
    requires |chunk| <= size && (step == 1 || step == 4) && (size - |chunk|) % step == 0
    ensures r == chunk + Zeros(size - |chunk|)
  {
    r := chunk;
    while |r| < size
      invariant |chunk| <= |r| <= size && (size - |r|) % step == 0
      invariant r == chunk + Zeros(|r| - |chunk|)
      decreases size - |r|
    {
      r := r + Zeros(step);
    }
  }

  lemma PagesEncodable(content: seq<Byte>, start: nat, familyid: nat)
    requires NumPages(content) > 0 ==>
               NumPages(content) < TWO32 && familyid < TWO32 && start + PAGE * (NumPages(content) - 1) < TWO32
    ensures Encodable(Pages(content, start), familyid)
  {
    hide Padded;
    var pages := Pages(content, start);
    forall k | 0 <= k < |pages|
      ensures |pages[k].data| == PAGE && pages[k].addr < TWO32
    {
      assert pages[k] == Chunk(start + PAGE * k, Padded(content)[PAGE * k..PAGE * (k + 1)]);
      assert k <= NumPages(content) - 1;
    }
    assert pages == [] <==> NumPages(content) == 0;
  }

  lemma PageTooFar(content: seq<Byte>, start: nat, familyid: nat, k: nat)
    requires k < NumPages(content)
    requires start + PAGE * k >= TWO32 || NumPages(content) >= TWO32 || familyid >= TWO32
    ensures !Encodable(Pages(content, start), familyid)
  {
    hide Padded;
    assert Pages(content, start)[k].addr == start + PAGE * k;
  }

  lemma PageBlock(content: seq<Byte>, start: nat, familyid: nat, k: nat, page: seq<Byte>)
    requires k < NumPages(content) < TWO32 && familyid < TWO32 && start + PAGE * k < TWO32
    requires page == Padded(content)[PAGE * k..PAGE * (k + 1)]
    ensures Le32(UF2_MAGIC_START0) + Le32(UF2_MAGIC_START1) + Le32(if familyid != 0 then FLAG_FAMILY_ID else 0)
            + Le32(start + PAGE * k) + Le32(PAGE) + Le32(k) + Le32(NumPages(content)) + Le32(familyid)
            + page + Zeros(220) + Le32(UF2_MAGIC_END)
         == BlockBytes(Pages(content, start)[k], k, NumPages(content), familyid)
  {
    hide Padded, Zeros, Le32, NumPages;
  }

  method ConvertToUf2(content: seq<Byte>, appstartaddr: nat, familyid: nat) returns (r: Result<seq<Byte>>)
    ensures r == if Encodable(Pages(content, appstartaddr), familyid)
                 then Ok(Encoded(Pages(content, appstartaddr), familyid)) else Err
  {
    hide BlockBytes, Padded, Zeros, Le32, Encodable;
    ghost var pages := Pages(content, appstartaddr);
    var datapadding := FillUp([], 512 - 256 - 32 - 4, 4);
    assert datapadding == Zeros(220);
    var numblocks := (|content| + 255) / 256;
    var outp: seq<Byte> := [];
    var blockno := 0;
    while blockno < numblocks
      invariant 0 <= blockno <= numblocks
      invariant blockno > 0 ==> numblocks < TWO32 && familyid < TWO32 && appstartaddr + PAGE * (blockno - 1) < TWO32
      invariant Encodable(pages, familyid) ==> outp == EncodedUpTo(pages, blockno, familyid)
    {
      var ptr := 256 * blockno;
      var end := if ptr + 256 <= |content| then ptr + 256 else |content|;
      PageOfContent(content, blockno, end);
      var chunk := content[ptr..end];
      var flags := if familyid != 0 then FLAG_FAMILY_ID else 0;
      // packing the header raises an error for a value that does not fit
      if ptr + appstartaddr >= TWO32 || numblocks >= TWO32 || familyid >= TWO32 {
        PageTooFar(content, appstartaddr, familyid, blockno);
        return Err;
      }
      var hd := Le32(UF2_MAGIC_START0) + Le32(UF2_MAGIC_START1) + Le32(flags) + Le32(ptr + appstartaddr) + Le32(256)
             + Le32(blockno) + Le32(numblocks) + Le32(familyid);
      chunk := FillUp(chunk, 256, 1);
      var block := hd + chunk + datapadding + Le32(UF2_MAGIC_END);
      PageBlock(content, appstartaddr, familyid, blockno, chunk);
      outp := outp + block;
      blockno := blockno + 1;
    }
    PagesEncodable(content, appstartaddr, familyid);
    return Ok(outp);
  }

  lemma NextPage(content: seq<Byte>, start: nat, k: nat)
    requires 0 < k < NumPages(content)
    ensures var pages := Pages(content, start);
            && pages[..k + 1] == pages[..k] + [pages[k]] && pages[..k] != [] && pages[..k][k - 1] == pages[k - 1]
            && Follows(pages[k - 1], pages[k]) && pages[k].addr == End(pages[k - 1])
            && Padded(content)[..PAGE * (k + 1)] == Padded(content)[..PAGE * k] + pages[k].data
  {
    hide Padded, NumPages;
    assert |Padded(content)[PAGE * (k - 1)..PAGE * k]| == PAGE;
  }

  lemma FirstPage(content: seq<Byte>, start: nat)
    requires NumPages(content) > 0
    ensures Pages(content, start)[..1] == [Pages(content, start)[0]]
    ensures Padded(content)[..PAGE] == Pages(content, start)[0].data
  {
    hide Padded, NumPages;
  }

  lemma {:induction false} PagesFlat(content: seq<Byte>, start: nat, n: nat)
    requires n <= NumPages(content)
    ensures InOrder(Pages(content, start)[..n]) && Flat(Pages(content, start)[..n]) == Padded(content)[..PAGE * n]
    decreases n
  {
    hide Flat, InOrder, Padded, Pages, NumPages, Follows, End, Zeros;
    var pages := Pages(content, start);
    if n == 0 {
      NothingRead([]);
      assert pages[..0] == [];
    } else if n == 1 {
      FirstPage(content, start);
      FlatOne(pages[0]);
    } else {
      PagesFlat(content, start, n - 1);
      NextPage(content, start, n - 1);
      FlatMore(pages[..n - 1], pages[n - 1]);
    }
  }

  /** The padding is shorter than a page, and zero. */
  lemma PaddedIs(content: seq<Byte>)
    ensures var all := Padded(content);
            && |content| <= |all| < |content| + 256 && |all| % 256 == 0 && all[..|content|] == content
            && forall i :: |content| <= i < |all| ==> all[i] == 0
  {
  }

  /** Reading inverts writing, up to fewer than 256 zeros that fill the last page. */
  lemma RoundTrip(content: seq<Byte>, start: nat, familyid: nat)
    requires Encodable(Pages(content, start), familyid)
    ensures var buf := Encoded(Pages(content, start), familyid);
            && Readable(buf, |buf| / 512) && InOrder(Chunks(buf, |buf| / 512))
            && var out := Flat(Chunks(buf, |buf| / 512));
               && out == Padded(content)
               && |content| <= |out| < |content| + 256 && out[..|content|] == content
               && forall i :: |content| <= i < |out| ==> out[i] == 0
  {
    hide Flat, InOrder, Readable, Chunks, Encoded, Padded;
    var pages := Pages(content, start);
    EncodedReadsBack(pages, familyid, |pages|);
    assert pages[..|pages|] == pages;
    PagesFlat(content, start, |pages|);
    assert Padded(content)[..PAGE * |pages|] == Padded(content);
    PaddedIs(content);
  }

  /** The written pages have the content in memory at the start address. */
  lemma ContentInMemory(content: seq<Byte>, start: nat, i: nat)
    requires i < |content|
    ensures MemoryAt(Pages(content, start), start + i) == content[i]
  {
    hide InOrder, MemoryAt;
    var pages := Pages(content, start);
    PagesFlat(content, start, |pages|);
    assert pages[..|pages|] == pages;
    assert pages[0].addr == start && Flat(pages)[i] == content[i];
  }
}
