/** The UF2 container: converting a flat image to UF2 blocks and back.

    Python's failures (a failed assertion, an index or type error, an integer that does not fit a packed field) all become
    `Err`. */
module Uf2 {
  import opened Common

  type Byte = i: int | 0 <= i < 256

  datatype Result<T> = Ok(value: T) | Err

  const UF2_MAGIC_START0: nat := 0x0A324655
  const UF2_MAGIC_START1: nat := 0x9E5D5157
  const UF2_MAGIC_END: nat := 0x0AB16F30
  const MAX_PADDING: nat := 10 * 1024 * 1024

  // ---------- Little-endian words

  function Le32(n: nat): (r: seq<Byte>)
    requires n < TWO32
    ensures |r| == 4
  {
    [n % 256, n / 256 % 256, n / 65536 % 256, n / 16777216]
  }

  function Word(b: seq<Byte>, at: nat): nat
    requires at + 4 <= |b|
  {
    (b[at] as int) + 256 * (b[at + 1] as int) + 65536 * (b[at + 2] as int) + 16777216 * (b[at + 3] as int)
  }

  lemma Digits(n: nat)
    ensures n == n % 256 + 256 * (n / 256 % 256) + 65536 * (n / 65536 % 256) + 16777216 * (n / 16777216)
  {
    assert n / 65536 == n / 256 / 256;
    assert n / 16777216 == n / 65536 / 256;
  }

  lemma WordOfLe32(n: nat, b: seq<Byte>, at: nat)
    requires n < TWO32 && at + 4 <= |b| && b[at..at + 4] == Le32(n)
    ensures Word(b, at) == n
  {
    Digits(n);
    assert b[at] == b[at..at + 4][0] && b[at + 1] == b[at..at + 4][1];
    assert b[at + 2] == b[at..at + 4][2] && b[at + 3] == b[at..at + 4][3];
  }

  function Zeros(n: nat): (r: seq<Byte>)
    ensures |r| == n
  {
    seq(n, _ => 0)
  }

  // ---------- Memory images

  /** Data to be placed at an address. */
  datatype Chunk = Chunk(addr: nat, data: seq<Byte>)

  function End(c: Chunk): nat {
    c.addr + |c.data|
  }

  /** The byte that memory, zero at first, has at an address after the chunks have been loaded in turn. */
  function MemoryAt(chunks: seq<Chunk>, a: int): Byte {
    if chunks == [] then 0
    else
      var c := chunks[|chunks| - 1];
      if c.addr <= a < End(c) then c.data[a - c.addr] else MemoryAt(chunks[..|chunks| - 1], a)
  }

  /** The memory from lo up to hi. */
  function Image(chunks: seq<Chunk>, lo: int, hi: int): (r: seq<Byte>)
    requires lo <= hi
    ensures |r| == hi - lo
  {
    seq<Byte>(hi - lo, i requires 0 <= i < hi - lo => MemoryAt(chunks, lo + i))
  }

  /** d follows c, by at most 10 MB and a multiple of four bytes. */
  predicate Follows(c: Chunk, d: Chunk) {
    End(c) <= d.addr <= End(c) + MAX_PADDING && (d.addr - End(c)) % 4 == 0
  }

  predicate InOrder(chunks: seq<Chunk>) {
    |chunks| <= 1 || (InOrder(chunks[..|chunks| - 1]) && Follows(chunks[|chunks| - 2], chunks[|chunks| - 1]))
  }

  /** What the chunks amount to when laid out flat. */
  function Flat(chunks: seq<Chunk>): seq<Byte>
    requires InOrder(chunks)
  {
    if chunks == [] then [] else
      InOrderBounds(chunks);
      Image(chunks, chunks[0].addr, End(chunks[|chunks| - 1]))
  }

  lemma {:induction false} InOrderBounds(chunks: seq<Chunk>)
    requires InOrder(chunks) && chunks != []
    ensures chunks[0].addr <= End(chunks[|chunks| - 1])
  {
    if |chunks| > 1 {
      InOrderBounds(chunks[..|chunks| - 1]);
    }
  }

  /** Nothing is loaded beyond the end of chunks in order. */
  lemma {:induction false} NothingBeyond(chunks: seq<Chunk>, a: int)
    requires InOrder(chunks) && chunks != [] && a >= End(chunks[|chunks| - 1])
    ensures MemoryAt(chunks, a) == 0
  {
    var front := chunks[..|chunks| - 1];
    if front != [] {
      NothingBeyond(front, a);
    } else {
      assert MemoryAt(front, a) == 0;
    }
  }

  lemma {:induction false} InOrderMore(chunks: seq<Chunk>, c: Chunk)
    ensures InOrder(chunks + [c]) <==> InOrder(chunks) && (chunks != [] ==> Follows(chunks[|chunks| - 1], c))
  {
    hide Follows;
    var more := chunks + [c];
    assert more[..|more| - 1] == chunks;
    assert |more| > 1 ==> more[|more| - 2] == chunks[|chunks| - 1];
  }

  lemma FlatOne(c: Chunk)
    ensures InOrder([c]) && Flat([c]) == c.data
  {
    assert [c][..0] == [];
    forall i | 0 <= i < |c.data|
      ensures MemoryAt([c], c.addr + i) == c.data[i]
    {
    }
    assert Image([c], c.addr, End(c)) == c.data;
  }

  lemma MemoryAtMore(chunks: seq<Chunk>, c: Chunk, a: int)
    ensures MemoryAt(chunks + [c], a) == if c.addr <= a < End(c) then c.data[a - c.addr] else MemoryAt(chunks, a)
  {
    assert (chunks + [c])[..|chunks|] == chunks;
  }

  lemma ImageSplit(chunks: seq<Chunk>, lo: int, mid: int, hi: int)
    requires lo <= mid <= hi
    ensures Image(chunks, lo, hi) == Image(chunks, lo, mid) + Image(chunks, mid, hi)
  {
    hide MemoryAt;
  }

  lemma ImageOfData(chunks: seq<Chunk>, c: Chunk)
    ensures Image(chunks + [c], c.addr, End(c)) == c.data
  {
    hide MemoryAt;
    forall a | c.addr <= a < End(c)
      ensures MemoryAt(chunks + [c], a) == c.data[a - c.addr]
    {
      MemoryAtMore(chunks, c, a);
    }
  }

  lemma ImageOfGap(chunks: seq<Chunk>, c: Chunk, lo: int)
    requires InOrder(chunks) && chunks != [] && End(chunks[|chunks| - 1]) <= lo <= c.addr
    ensures Image(chunks + [c], lo, c.addr) == Zeros(c.addr - lo)
  {
    hide MemoryAt, InOrder;
    forall a | lo <= a < c.addr
      ensures MemoryAt(chunks + [c], a) == 0
    {
      MemoryAtMore(chunks, c, a);
      NothingBeyond(chunks, a);
    }
  }

  lemma ImageBefore(chunks: seq<Chunk>, c: Chunk, lo: int, hi: int)
    requires lo <= hi <= c.addr
    ensures Image(chunks + [c], lo, hi) == Image(chunks, lo, hi)
  {
    hide MemoryAt;
    forall a | lo <= a < hi
      ensures MemoryAt(chunks + [c], a) == MemoryAt(chunks, a)
    {
      MemoryAtMore(chunks, c, a);
    }
  }

  lemma FollowsBounds(c: Chunk, d: Chunk)
    requires Follows(c, d)
    ensures End(c) <= d.addr <= End(d)
  {
  }

  /** Laying out one more chunk: zeros for the gap, then its data. */
  lemma FlatMore(chunks: seq<Chunk>, c: Chunk)
    requires InOrder(chunks) && chunks != [] && Follows(chunks[|chunks| - 1], c)
    ensures InOrder(chunks + [c])
    ensures Flat(chunks + [c]) == Flat(chunks) + Zeros(c.addr - End(chunks[|chunks| - 1])) + c.data
  {
    hide MemoryAt, Image, InOrder, Follows, End, Zeros;
    var all := chunks + [c];
    var lo, cur, hi := chunks[0].addr, End(chunks[|chunks| - 1]), End(c);
    FollowsBounds(chunks[|chunks| - 1], c);
    assert all[0] == chunks[0] && all[|all| - 1] == c;
    InOrderMore(chunks, c);
    InOrderBounds(chunks);
    calc {
      Flat(all);
      Image(all, lo, hi);
      { ImageSplit(all, lo, c.addr, hi); }
      Image(all, lo, c.addr) + Image(all, c.addr, hi);
      { ImageSplit(all, lo, cur, c.addr); ImageOfData(chunks, c); }
      Image(all, lo, cur) + Image(all, cur, c.addr) + c.data;
      { ImageBefore(chunks, c, lo, cur); ImageOfGap(chunks, c, cur); }
      Flat(chunks) + Zeros(c.addr - cur) + c.data;
    }
  }

  // ---------- Reading UF2

  function BlockAt(buf: seq<Byte>, k: nat): (r: seq<Byte>)
    requires 512 * (k + 1) <= |buf|
    ensures |r| == 512
  {
    buf[512 * k..512 * (k + 1)]
  }

  predicate GoodMagic(b: seq<Byte>)
    requires |b| == 512
  {
    Word(b, 0) == UF2_MAGIC_START0 && Word(b, 4) == UF2_MAGIC_START1
  }

  /** The no-flash flag. */
  predicate NoFlash(b: seq<Byte>)
    requires |b| == 512
  {
    Word(b, 8) % 2 == 1
  }

  predicate GoodLength(b: seq<Byte>)
    requires |b| == 512
  {
    Word(b, 16) <= 476
  }

  function ChunkOf(b: seq<Byte>): Chunk
    requires |b| == 512 && GoodLength(b)
  {
    Chunk(Word(b, 12), b[32..32 + Word(b, 16)])
  }

  predicate GoodBlock(b: seq<Byte>)
    requires |b| == 512
  {
    GoodMagic(b) && (!NoFlash(b) ==> GoodLength(b))
  }

  /** The little-endian number in four bytes. */
  function LittleEndian(b: seq<Byte>, at: nat): nat
    requires at + 4 <= |b|
  {
    (b[at] as int) + 0x100 * (b[at + 1] as int) + 0x1_0000 * (b[at + 2] as int) + 0x100_0000 * (b[at + 3] as int)
  }

  /** What the reader looks at in a block, byte by byte: the two magic words, the lowest flag bit, the address at 12, the
      length at 16, at most 476, and the data from 32 on. */
  lemma ReaderFields(b: seq<Byte>)
    requires |b| == 512
    ensures GoodMagic(b) <==> b[0..4] == [0x55, 0x46, 0x32, 0x0A] && b[4..8] == [0x57, 0x51, 0x5D, 0x9E]
    ensures NoFlash(b) <==> b[8] % 2 == 1
    ensures GoodLength(b) <==> LittleEndian(b, 16) <= 476
    ensures GoodLength(b) ==> ChunkOf(b) == Chunk(LittleEndian(b, 12), b[32..32 + LittleEndian(b, 16)])
  {
    hide Word;
    WordIs(b, 0, 0x55, 0x46, 0x32, 0x0A);
    WordIs(b, 4, 0x57, 0x51, 0x5D, 0x9E);
    WordParity(b, 8);
    WordIs(b, 12, 0, 0, 0, 0);
    WordIs(b, 16, 0, 0, 0, 0);
  }

  lemma WordIs(b: seq<Byte>, at: nat, b0: Byte, b1: Byte, b2: Byte, b3: Byte)
    requires at + 4 <= |b|
    ensures Word(b, at) == LittleEndian(b, at)
    ensures Word(b, at) == b0 + 256 * b1 + 65536 * b2 + 16777216 * b3 <==> b[at..at + 4] == [b0, b1, b2, b3]
  {
    FourBytes(b[at], b[at + 1], b[at + 2], b[at + 3], b0, b1, b2, b3);
    assert b[at..at + 4] == [b[at], b[at + 1], b[at + 2], b[at + 3]];
  }

  lemma FourBytes(a0: Byte, a1: Byte, a2: Byte, a3: Byte, b0: Byte, b1: Byte, b2: Byte, b3: Byte)
    ensures a0 + 256 * a1 + 65536 * a2 + 16777216 * a3 == b0 + 256 * b1 + 65536 * b2 + 16777216 * b3
       <==> a0 == b0 && a1 == b1 && a2 == b2 && a3 == b3
  {
    LowByte(a0, a1 + 256 * a2 + 65536 * a3, b0, b1 + 256 * b2 + 65536 * b3);
    LowByte(a1, a2 + 256 * a3, b1, b2 + 256 * b3);
    LowByte(a2, a3, b2, b3);
  }

  lemma LowByte(a: Byte, m: int, b: Byte, n: int)
    ensures a + 256 * m == b + 256 * n <==> a == b && m == n
  {
  }

  lemma WordParity(b: seq<Byte>, at: nat)
    requires at + 4 <= |b|
    ensures Word(b, at) % 2 == b[at] % 2
  {
    assert Word(b, at) == (b[at] as int)
                          + 2 * (128 * (b[at + 1] as int) + 32768 * (b[at + 2] as int) + 8388608 * (b[at + 3] as int));
  }

  /** When a block may come after another: not before its end, at most 10 MB beyond it, a multiple of four bytes. */
  lemma FollowsIff(c: Chunk, d: Chunk)
    ensures var gap := d.addr - (c.addr + |c.data|); Follows(c, d) <==> 0 <= gap <= 10485760 && gap % 4 == 0
  {
  }

  /** The first n blocks all carry good magic, and those to be flashed a good length. */
  predicate Readable(buf: seq<Byte>, n: nat)
    requires 512 * n <= |buf|
  {
    forall k :: 0 <= k < n ==> GoodBlock(BlockAt(buf, k))
  }

  /** The chunks of the first n blocks, those marked no-flash left out. */
  function Chunks(buf: seq<Byte>, n: nat): seq<Chunk>
    requires 512 * n <= |buf| && Readable(buf, n)
  {
    if n == 0 then []
    else
      assert Readable(buf, n - 1);
      var b := BlockAt(buf, n - 1);
      if NoFlash(b) then Chunks(buf, n - 1) else Chunks(buf, n - 1) + [ChunkOf(b)]
  }

  lemma {:induction false} InOrderChunksPrefix(buf: seq<Byte>, m: nat, n: nat)
    requires m <= n && 512 * n <= |buf| && Readable(buf, n)
    ensures Readable(buf, m)
    ensures InOrder(Chunks(buf, n)) ==> InOrder(Chunks(buf, m))
  {
    if m < n {
      assert Readable(buf, n - 1);
      InOrderChunksPrefix(buf, m, n - 1);
      if !NoFlash(BlockAt(buf, n - 1)) {
        InOrderMore(Chunks(buf, n - 1), ChunkOf(BlockAt(buf, n - 1)));
      }
    }
  }

  lemma OneMoreBlock(buf: seq<Byte>, k: nat, numblocks: nat)
    requires k < numblocks && 512 * numblocks <= |buf| && Readable(buf, k)
    ensures Readable(buf, numblocks) ==> GoodBlock(BlockAt(buf, k))
    ensures GoodBlock(BlockAt(buf, k)) ==>
              Readable(buf, k + 1) &&
              Chunks(buf, k + 1)
              == if NoFlash(BlockAt(buf, k)) then Chunks(buf, k) else Chunks(buf, k) + [ChunkOf(BlockAt(buf, k))]
    ensures Readable(buf, numblocks) && InOrder(Chunks(buf, numblocks)) ==> InOrder(Chunks(buf, k + 1))
  {
    hide InOrder, Word, GoodMagic, NoFlash, GoodLength, BlockAt;
    if Readable(buf, numblocks) {
      InOrderChunksPrefix(buf, k + 1, numblocks);
    }
  }

  lemma NothingRead(buf: seq<Byte>)
    ensures Readable(buf, 0) && Chunks(buf, 0) == [] && InOrder([]) && Flat([]) == []
  {
  }

  /** The program's loop that emits padding a word at a time. */
  method Pad(outp: seq<Byte>, n: nat) returns (r: seq<Byte>)
    requires n % 4 == 0
    ensures r == outp + Zeros(n)
  {
    r := outp;
    var padding := n;
    while padding > 0
      invariant 0 <= padding <= n && padding % 4 == 0
      invariant r == outp + Zeros(n - padding)
    {
      padding := padding - 4;
      r := r + [0, 0, 0, 0];
    }
  }

  /** One block's data: checked against the current address, padded and appended. */
  method AppendChunk(outp: seq<Byte>, curraddr: int, newaddr: nat, data: seq<Byte>, ghost cs: seq<Chunk>)
    returns (ok: bool, outp': seq<Byte>, curraddr': int)
    requires InOrder(cs) && outp == Flat(cs) && curraddr == (if cs == [] then -1 else End(cs[|cs| - 1]))
    ensures ok <==> InOrder(cs + [Chunk(newaddr, data)])
    ensures ok ==> outp' == Flat(cs + [Chunk(newaddr, data)]) && curraddr' == newaddr + |data|
  {
    hide InOrder, Flat;
    NothingRead([]);
    ghost var c := Chunk(newaddr, data);
    InOrderMore(cs, c);
    outp', curraddr' := outp, curraddr;
    if curraddr' == -1 {
      curraddr' := newaddr;
    }
    var padding := newaddr - curraddr';
    if padding < 0 || padding > MAX_PADDING || padding % 4 != 0 {
      ok := false;
      return;
    }
    outp' := Pad(outp', padding);
    outp' := outp' + data;
    curraddr' := newaddr + |data|;
    ok := true;
    if cs == [] {
      FlatOne(c);
      assert cs + [c] == [c];
    } else {
      FlatMore(cs, c);
    }
  }

  /** Reading succeeds exactly on readable blocks in order, and then yields their zero-filled memory image. */
  method ConvertFromUf2(buf: seq<Byte>) returns (r: Result<seq<Byte>>)
    ensures r.Ok? <==> Readable(buf, |buf| / 512) && InOrder(Chunks(buf, |buf| / 512))
    ensures r.Ok? ==> r.value == Flat(Chunks(buf, |buf| / 512))
  {
    hide InOrder, Flat, Word, GoodMagic, NoFlash, BlockAt, Readable, Chunks;
    var numblocks := |buf| / 512;
    var curraddr: int := -1;
    var outp: seq<Byte> := [];
    var blockno := 0;
    NothingRead(buf);
    while blockno < numblocks
      invariant 0 <= blockno <= numblocks
      invariant Readable(buf, blockno) && InOrder(Chunks(buf, blockno))
      invariant outp == Flat(Chunks(buf, blockno))
      invariant var cs := Chunks(buf, blockno); curraddr == if cs == [] then -1 else End(cs[|cs| - 1])
    {
      var block := BlockAt(buf, blockno);
      ghost var cs := Chunks(buf, blockno);
      OneMoreBlock(buf, blockno, numblocks);
      if !GoodMagic(block) {
        return Err;
      }
      if !NoFlash(block) {
        var datalen := Word(block, 16);
        if datalen > 476 {
          return Err;
        }
        var ok;
        ok, outp, curraddr := AppendChunk(outp, curraddr, Word(block, 12), block[32..32 + datalen], cs);
        if !ok {
          return Err;
        }
      }
      blockno := blockno + 1;
    }
    return Ok(outp);
  }
}
