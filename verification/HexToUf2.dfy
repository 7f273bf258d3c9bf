/** Intel HEX to UF2, and what becomes of the bytes when that file is read back.

    The program's main routine hands over only text made of hex digits, ':', CR and LF, split at LF into lines. */
module HexToUf2 {
  import opened Common
  import opened Uf2
  import opened Uf2Write

  datatype Write = Write(addr: nat, value: Byte)

  // ---------- Parsing

  /** A hex digit's value, or 16. */
  function Digit(c: char): nat {
    if '0' <= c <= '9' then c as int - '0' as int
    else if 'a' <= c <= 'f' then c as int - 'a' as int + 10
    else if 'A' <= c <= 'F' then c as int - 'A' as int + 10
    else 16
  }

  /** Python's int(two characters, 16) on that alphabet: a carriage return is blank space to it. */
  function HexPair(c: char, d: char): (r: Result<Byte>) {
    if c == '\r' && Digit(d) < 16 then Ok(Digit(d))
    else if d == '\r' && Digit(c) < 16 then Ok(Digit(c))
    else if Digit(c) < 16 && Digit(d) < 16 then
      assert 16 * Digit(c) + Digit(d) < 256;
      Ok(16 * Digit(c) + Digit(d))
    else Err
  }

  function Prepended<T>(a: seq<T>, r: Result<seq<T>>): Result<seq<T>> {
    if r.Ok? then Ok(a + r.value) else Err
  }

  lemma PrependedTwice<T>(a: seq<T>, b: seq<T>, r: Result<seq<T>>)
    ensures Prepended(a, Prepended(b, r)) == Prepended(a + b, r)
    ensures Prepended([], r) == r
  {
    if r.Ok? {
      assert a + (b + r.value) == (a + b) + r.value;
      assert [] + r.value == r.value;
    }
  }

  /** The bytes of a record, read in pairs from position i; a last lone character is left over. */
  function RecordFrom(line: string, i: nat): Result<seq<Byte>>
    decreases |line| - i
  {
    if i >= |line| - 1 then Ok([])
    else
      var first := HexPair(line[i], line[i + 1]);
      if first.Ok? then Prepended([first.value], RecordFrom(line, i + 2)) else Err
  }

  /** Consecutive bytes written from an address on. */
  function DataWrites(addr: nat, data: seq<Byte>): (r: seq<Write>)
    ensures |r| == |data|
  {
    if data == [] then [] else DataWrites(addr, data[..|data| - 1]) + [Write(addr + |data| - 1, data[|data| - 1])]
  }

  function Word16(hi: Byte, lo: Byte): nat {
    256 * (hi as int) + lo as int
  }

  datatype Effect = Continue(writes: seq<Write>, upper: nat) | EndOfFile | Failed

  /** What one record does, given the upper address bits in force. Byte counts and checksums are not looked at. */
  function RecordEffect(rec: seq<Byte>, upper: nat): Effect {
    if |rec| < 4 then Failed
    else if rec[3] == 4 then
      if |rec| < 6 then Failed else Continue([], Word16(rec[4], rec[5]) * 65536)
    else if rec[3] == 2 then
      if |rec| < 6 || Word16(rec[4], rec[5]) * 16 % 65536 != 0 then Failed else Continue([], Word16(rec[4], rec[5]) * 16)
    else if rec[3] == 1 then EndOfFile
    else if rec[3] == 0 then
      Continue(if |rec| < 5 then [] else DataWrites(upper + Word16(rec[1], rec[2]), rec[4..|rec| - 1]), upper)
    else Continue([], upper)
  }

  /** What one line does; an empty line is an error, a line that is no record is skipped. */
  function LineEffect(line: string, upper: nat): Effect {
    if line == "" then Failed
    else if line[0] != ':' then Continue([], upper)
    else
      var rec := RecordFrom(line, 1);
      if rec.Ok? then RecordEffect(rec.value, upper) else Failed
  }

  /** All the bytes that a file writes, in order, up to its end-of-file record. */
  function Writes(lines: seq<string>, upper: nat): Result<seq<Write>> {
    if lines == [] then Ok([])
    else
      match LineEffect(lines[0], upper)
      case Failed => Err
      case EndOfFile => Ok([])
      case Continue(ws, u) =>
        Prepended(ws, Writes(lines[1..], u))
  }

  // ---------- Pages

  function PageBase(a: nat): nat {
    a - a % PAGE
  }

  /** A byte goes into the page opened last, or into a new zeroed page. */
  function PutByte(ps: seq<Chunk>, w: Write): seq<Chunk>
    requires Paged(ps)
  {
    var n := |ps|;
    if n > 0 && ps[n - 1].addr == PageBase(w.addr) then
      ps[..n - 1] + [Chunk(ps[n - 1].addr, ps[n - 1].data[w.addr % PAGE := w.value])]
    else
      ps + [Chunk(PageBase(w.addr), Zeros(PAGE)[w.addr % PAGE := w.value])]
  }

  predicate Paged(ps: seq<Chunk>) {
    forall k :: 0 <= k < |ps| ==> |ps[k].data| == PAGE && ps[k].addr % PAGE == 0
  }

  function PutBytes(ps: seq<Chunk>, ws: seq<Write>): (r: seq<Chunk>)
    requires Paged(ps)
    ensures Paged(r)
    decreases |ws|
  {
    if ws == [] then ps else PutByte(PutBytes(ps, ws[..|ws| - 1]), ws[|ws| - 1])
  }

  lemma {:induction false} PutBytesConcat(ps: seq<Chunk>, a: seq<Write>, b: seq<Write>)
    requires Paged(ps)
    ensures PutBytes(ps, a + b) == PutBytes(PutBytes(ps, a), b)
    ensures PutBytes(PutBytes(ps, a), []) == PutBytes(ps, a)
    decreases |b|
  {
    if b == [] {
      assert a + b == a;
    } else {
      PutBytesConcat(ps, a, b[..|b| - 1]);
      assert (a + b)[..|a + b| - 1] == a + b[..|b| - 1];
    }
  }

  lemma NothingWritten()
    ensures Paged([]) && PutBytes([], []) == []
  {
  }

  // ---------- The converter

  class Block {
    const addr: nat
    var bytes: seq<Byte>

    constructor (addr: nat)
      requires addr % PAGE == 0
      ensures this.addr == addr && bytes == Zeros(PAGE)
    {
      this.addr := addr;
      bytes := Zeros(PAGE);
    }

    method Encode(blockno: nat, numblocks: nat, familyid: nat) returns (r: Result<seq<Byte>>)
      requires |bytes| == PAGE
      ensures r == if addr < TWO32 && blockno < TWO32 && numblocks < TWO32 && familyid < TWO32
                   then Ok(BlockBytes(Chunk(addr, bytes), blockno, numblocks, familyid)) else Err
    {
      hide Le32, Zeros;
      var flags := if familyid != 0 then FLAG_FAMILY_ID else 0;
      if addr >= TWO32 || blockno >= TWO32 || numblocks >= TWO32 || familyid >= TWO32 {
        return Err;
      }
      var hd := Le32(UF2_MAGIC_START0) + Le32(UF2_MAGIC_START1) + Le32(flags) + Le32(addr) + Le32(256)
             + Le32(blockno) + Le32(numblocks) + Le32(familyid);
      assert |hd| == 32 && bytes[0..256] == bytes;
      hd := hd + bytes[0..256];
      hd := FillUp(hd, 512 - 4, 1);
      hd := hd + Le32(UF2_MAGIC_END);
      assert hd == BlockBytes(Chunk(addr, bytes), blockno, numblocks, familyid);
      return Ok(hd);
    }
  }

  function View(blocks: seq<Block>): seq<Chunk>
    reads blocks
  {
    seq(|blocks|, k requires 0 <= k < |blocks| reads blocks => Chunk(blocks[k].addr, blocks[k].bytes))
  }

  ghost predicate Distinct(blocks: seq<Block>) {
    forall i, j :: 0 <= i < j < |blocks| ==> blocks[i] != blocks[j]
  }

  method WriteByte(blocks: seq<Block>, w: Write) returns (blocks': seq<Block>)
    requires Distinct(blocks) && Paged(View(blocks))
    modifies blocks
    ensures Distinct(blocks') && View(blocks') == PutByte(old(View(blocks)), w)
    ensures forall k :: 0 <= k < |blocks'| ==> blocks'[k] in blocks || fresh(blocks'[k])
  {
    blocks' := blocks;
    ghost var before := View(blocks);
    if |blocks| == 0 || blocks[|blocks| - 1].addr != PageBase(w.addr) {
      var created := new Block(PageBase(w.addr));
      blocks' := blocks' + [created];
    }
    var currblock := blocks'[|blocks'| - 1];
    currblock.bytes := currblock.bytes[w.addr % PAGE := w.value];
    assert View(blocks') == PutByte(before, w);
  }

  method ParseRecord(line: string) returns (r: Result<seq<Byte>>)
    requires line != ""
    ensures r == RecordFrom(line, 1)
  {
    hide HexPair;
    var i := 1;
    var rec: seq<Byte> := [];
    PrependedTwice([], [], RecordFrom(line, 1));
    while i < |line| - 1
      invariant 1 <= i
      invariant RecordFrom(line, 1) == Prepended(rec, RecordFrom(line, i))
    {
      var b := HexPair(line[i], line[i + 1]);
      if b.Err? {
        return Err;
      }
      PrependedTwice(rec, [b.value], RecordFrom(line, i + 2));
      rec := rec + [b.value];
      i := i + 2;
    }
    assert rec + [] == rec;
    return Ok(rec);
  }

  lemma NoBytes(ps: seq<Chunk>, addr: nat)
    requires Paged(ps)
    ensures DataWrites(addr, []) == [] && PutBytes(ps, []) == ps
  {
  }

  lemma OneMoreByte(ps: seq<Chunk>, addr: nat, data: seq<Byte>, b: Byte)
    requires Paged(ps)
    ensures PutBytes(ps, DataWrites(addr, data + [b]))
         == PutByte(PutBytes(ps, DataWrites(addr, data)), Write(addr + |data|, b))
  {
    hide PutByte, PutBytes, DataWrites, Paged;
    DataWritesMore(addr, data, b);
    PutBytesMore(ps, DataWrites(addr, data), Write(addr + |data|, b));
  }

  lemma DataWritesMore(addr: nat, data: seq<Byte>, b: Byte)
    ensures DataWrites(addr, data + [b]) == DataWrites(addr, data) + [Write(addr + |data|, b)]
  {
    assert (data + [b])[..|data|] == data;
  }

  lemma PutBytesMore(ps: seq<Chunk>, ws: seq<Write>, w: Write)
    requires Paged(ps)
    ensures PutBytes(ps, ws + [w]) == PutByte(PutBytes(ps, ws), w)
  {
    hide PutByte, Paged;
    assert (ws + [w])[..|ws|] == ws;
  }

  /** The data bytes of one record, a byte at a time. */
  method WriteData(blocks: seq<Block>, addr: nat, rec: seq<Byte>) returns (blocks': seq<Block>)
    requires Distinct(blocks) && Paged(View(blocks)) && |rec| >= 4
    modifies blocks
    ensures Distinct(blocks')
    ensures View(blocks') == PutBytes(old(View(blocks)), if |rec| < 5 then [] else DataWrites(addr, rec[4..|rec| - 1]))
    ensures forall k :: 0 <= k < |blocks'| ==> blocks'[k] in blocks || fresh(blocks'[k])
  {
    hide PutByte, PutBytes, DataWrites, Paged;
    blocks' := blocks;
    ghost var before := View(blocks);
    NoBytes(before, addr);
    var i := 4;
    while i < |rec| - 1
      invariant 4 <= i <= |rec| && (|rec| >= 5 ==> i <= |rec| - 1)
      invariant Distinct(blocks')
      invariant View(blocks') == PutBytes(before, DataWrites(addr, rec[4..i]))
      invariant forall k :: 0 <= k < |blocks'| ==> blocks'[k] in blocks || fresh(blocks'[k])
    {
      OneMoreByte(before, addr, rec[4..i], rec[i]);
      assert rec[4..i + 1] == rec[4..i] + [rec[i]];
      blocks' := WriteByte(blocks', Write(addr + i - 4, rec[i]));
      i := i + 1;
    }
  }

  datatype Outcome = Goes | Ends | Fails

  method ProcessRecord(rec: seq<Byte>, upper: nat, blocks: seq<Block>)
    returns (outcome: Outcome, upper': nat, blocks': seq<Block>)
    requires Distinct(blocks) && Paged(View(blocks))
    modifies blocks
    ensures Distinct(blocks') && forall k :: 0 <= k < |blocks'| ==> blocks'[k] in blocks || fresh(blocks'[k])
    ensures match RecordEffect(rec, upper)
            case Failed => outcome == Fails
            case EndOfFile => outcome == Ends && View(blocks') == old(View(blocks))
            case Continue(ws, u) => outcome == Goes && upper' == u && View(blocks') == PutBytes(old(View(blocks)), ws)
  {
    hide PutByte, PutBytes, DataWrites, Paged, Word16;
    NoBytes(View(blocks), upper);
    outcome, upper', blocks' := Goes, upper, blocks;
    if |rec| < 4 {
      return Fails, upper, blocks;
    }
    var tp := rec[3];
    if tp == 4 {
      if |rec| < 6 {
        return Fails, upper, blocks;
      }
      upper' := Word16(rec[4], rec[5]) * 65536;
    } else if tp == 2 {
      if |rec| < 6 {
        return Fails, upper, blocks;
      }
      upper' := Word16(rec[4], rec[5]) * 16;
      if upper' % 65536 != 0 {
        return Fails, upper, blocks;
      }
    } else if tp == 1 {
      outcome := Ends;
    } else if tp == 0 {
      blocks' := WriteData(blocks, upper + Word16(rec[1], rec[2]), rec);
    }
  }

  method ConvertFromHexToUf2(lines: seq<string>, familyid: nat) returns (r: Result<seq<Byte>>)
    ensures Writes(lines, 0).Err? ==> r == Err
    ensures Writes(lines, 0).Ok? ==>
              var pages := PutBytes([], Writes(lines, 0).value);
              r == if Encodable(pages, familyid) then Ok(Encoded(pages, familyid)) else Err
  {
    hide RecordEffect, PutByte, PutBytes, RecordFrom, Encodable, Encoded, Paged;
    var upper: nat := 0;
    var blocks: seq<Block> := [];
    ghost var done: seq<Write> := [];
    NothingWritten();
    PrependedTwice([], [], Writes(lines, 0));
    var k := 0;
    assert lines[0..] == lines;
    while k < |lines|
      invariant 0 <= k <= |lines|
      invariant Distinct(blocks) && forall j :: 0 <= j < |blocks| ==> fresh(blocks[j])
      invariant View(blocks) == PutBytes([], done)
      invariant Writes(lines, 0) == Prepended(done, Writes(lines[k..], upper))
    {
      var line := lines[k];
      assert lines[k..][0] == line && lines[k..][1..] == lines[k + 1..];
      if line == "" {
        return Err;
      }
      ghost var ws: seq<Write> := [];
      if line[0] == ':' {
        var parsed := ParseRecord(line);
        if parsed.Err? {
          return Err;
        }
        ghost var effect := RecordEffect(parsed.value, upper);
        var outcome;
        outcome, upper, blocks := ProcessRecord(parsed.value, upper, blocks);
        if outcome == Fails {
          return Err;
        }
        if outcome == Ends {
          break;
        }
        ws := effect.writes;
      }
      PutBytesConcat([], done, ws);
      PrependedTwice(done, ws, Writes(lines[k + 1..], upper));
      done := done + ws;
      k := k + 1;
    }
    assert done + [] == done;
    assert Writes(lines, 0) == Ok(done);
    r := EncodeAll(blocks, familyid);
  }

  method EncodeAll(blocks: seq<Block>, familyid: nat) returns (r: Result<seq<Byte>>)
    requires Paged(View(blocks))
    ensures r == if Encodable(View(blocks), familyid) then Ok(Encoded(View(blocks), familyid)) else Err
  {
    hide BlockBytes;
    var numblocks := |blocks|;
    var resfile: seq<Byte> := [];
    ghost var pages := View(blocks);
    for i := 0 to numblocks
      invariant i > 0 ==> numblocks < TWO32 && familyid < TWO32
      invariant forall k :: 0 <= k < i ==> pages[k].addr < TWO32
      invariant Encodable(pages, familyid) ==> resfile == EncodedUpTo(pages, i, familyid)
    {
      assert pages[i] == Chunk(blocks[i].addr, blocks[i].bytes);
      var block := blocks[i].Encode(i, numblocks, familyid);
      if block.Err? {
        return Err;
      }
      resfile := resfile + block.value;
    }
    assert Encodable(pages, familyid);
    return Ok(resfile);
  }

  // ---------- What reading the result back yields

  /** The byte last written to an address, zero if none was. */
  function LastWrite(ws: seq<Write>, a: int): Byte {
    if ws == [] then 0
    else if ws[|ws| - 1].addr == a then ws[|ws| - 1].value
    else LastWrite(ws[..|ws| - 1], a)
  }

  predicate Near(c: Chunk, d: Chunk) {
    0 <= d.addr - (c.addr + 256) <= 10485760
  }

  /** The pages of the writes ascend without being revisited, with gaps of at most 10 MB. */
  predicate PagesAscend(ps: seq<Chunk>) {
    forall i :: 0 < i < |ps| ==> Near(ps[i - 1], ps[i])
  }

  lemma AscendMore(ps: seq<Chunk>)
    requires |ps| > 1
    ensures PagesAscend(ps) <==> PagesAscend(ps[..|ps| - 1]) && Near(ps[|ps| - 2], ps[|ps| - 1])
  {
    hide Near;
    var front := ps[..|ps| - 1];
    if PagesAscend(ps) {
      forall i | 0 < i < |front|
        ensures Near(front[i - 1], front[i])
      {
        assert Near(ps[i - 1], ps[i]);
      }
    }
    if PagesAscend(front) && Near(ps[|ps| - 2], ps[|ps| - 1]) {
      forall i | 0 < i < |ps|
        ensures Near(ps[i - 1], ps[i])
      {
        if i < |front| {
          assert Near(front[i - 1], front[i]);
        }
      }
    }
  }

  lemma {:induction false} AscendingIsInOrder(ps: seq<Chunk>)
    requires Paged(ps)
    ensures InOrder(ps) <==> PagesAscend(ps)
  {
    if |ps| > 1 {
      hide PagesAscend, Near, Follows;
      AscendingIsInOrder(ps[..|ps| - 1]);
      AscendMore(ps);
      NearFollows(ps[|ps| - 2], ps[|ps| - 1]);
    }
  }

  lemma NearFollows(c: Chunk, d: Chunk)
    requires |c.data| == PAGE && c.addr % PAGE == 0 && d.addr % PAGE == 0
    ensures Follows(c, d) <==> Near(c, d)
  {
    var a, b := c.addr / 256, d.addr / 256;
    assert c.addr == 256 * a && d.addr == 256 * b;
    assert d.addr - End(c) == 4 * (64 * (b - a - 1));
  }

  /** Pages that are in order were in order before the last write, too. */
  lemma PutByteInOrder(ps: seq<Chunk>, w: Write)
    requires Paged(ps) && InOrder(PutByte(ps, w))
    ensures InOrder(ps)
  {
    var n := |ps|;
    if n > 0 && ps[n - 1].addr == PageBase(w.addr) {
      assert PutByte(ps, w)[..n - 1] == ps[..n - 1];
    } else {
      InOrderMore(ps, Chunk(PageBase(w.addr), Zeros(PAGE)[w.addr % PAGE := w.value]));
    }
  }

  /** Into the page opened last: only the one byte of memory changes. */
  lemma PutByteSamePage(ps: seq<Chunk>, w: Write, a: int)
    requires Paged(ps) && ps != [] && ps[|ps| - 1].addr == PageBase(w.addr)
    ensures MemoryAt(PutByte(ps, w), a) == if a == w.addr then w.value else MemoryAt(ps, a)
  {
    var n := |ps|;
    var qs := PutByte(ps, w);
    assert qs[..n - 1] == ps[..n - 1] && qs[n - 1].addr == ps[n - 1].addr;
  }

  /** Into a new page beyond all others: memory there was zero. */
  lemma PutByteNewPage(ps: seq<Chunk>, w: Write, a: int)
    requires Paged(ps) && (ps != [] ==> ps[|ps| - 1].addr != PageBase(w.addr)) && InOrder(PutByte(ps, w))
    ensures MemoryAt(PutByte(ps, w), a) == if a == w.addr then w.value else MemoryAt(ps, a)
  {
    var c := Chunk(PageBase(w.addr), Zeros(PAGE)[w.addr % PAGE := w.value]);
    InOrderMore(ps, c);
    MemoryAtMore(ps, c, a);
    if c.addr <= a < End(c) && ps != [] {
      NothingBeyond(ps, a);
    }
  }

  /** As long as the pages are in order, memory holds the last byte written to each address. */
  lemma {:induction false} PagesHoldWrites(ws: seq<Write>, a: int)
    requires InOrder(PutBytes([], ws))
    ensures MemoryAt(PutBytes([], ws), a) == LastWrite(ws, a)
  {
    if ws != [] {
      var front, w := ws[..|ws| - 1], ws[|ws| - 1];
      var ps := PutBytes([], front);
      PutByteInOrder(ps, w);
      PagesHoldWrites(front, a);
      if ps != [] && ps[|ps| - 1].addr == PageBase(w.addr) {
        PutByteSamePage(ps, w, a);
      } else {
        PutByteNewPage(ps, w, a);
      }
    }
  }

  /** A write lands within the pages, and none of them is lost. */
  lemma PutByteExtends(ps: seq<Chunk>, w: Write)
    requires Paged(ps) && InOrder(PutByte(ps, w))
    ensures var qs := PutByte(ps, w);
            && qs != [] && qs[0].addr <= w.addr < End(qs[|qs| - 1])
            && (ps != [] ==> qs[0].addr == ps[0].addr && End(ps[|ps| - 1]) <= End(qs[|qs| - 1]))
  {
    hide InOrder, Follows, Zeros;
    var n, qs := |ps|, PutByte(ps, w);
    InOrderFirst(qs);
    if !(n > 0 && ps[n - 1].addr == PageBase(w.addr)) {
      InOrderMore(ps, qs[n]);
      if n > 0 {
        FollowsBounds(ps[n - 1], qs[n]);
      }
    }
  }

  /** Every written address lies within the pages. */
  lemma {:induction false} WritesWithinPages(ws: seq<Write>, i: nat)
    requires InOrder(PutBytes([], ws)) && i < |ws|
    ensures var ps := PutBytes([], ws); ps != [] && ps[0].addr <= ws[i].addr < End(ps[|ps| - 1])
  {
    hide InOrder, PutByte;
    var front, w := ws[..|ws| - 1], ws[|ws| - 1];
    PutByteInOrder(PutBytes([], front), w);
    PutByteExtends(PutBytes([], front), w);
    if i < |front| {
      WritesWithinPages(front, i);
    }
  }

  lemma {:induction false} InOrderFirst(qs: seq<Chunk>)
    requires InOrder(qs) && qs != []
    ensures qs[0].addr <= qs[|qs| - 1].addr
  {
    if |qs| > 1 {
      InOrderBounds(qs[..|qs| - 1]);
    }
  }

  /** HEX to UF2 to binary: the result can be read exactly if the pages ascend, and then every address in its range has
      the last byte written to it, zero if none was; no written byte is outside the range. */
  lemma HexToBinary(lines: seq<string>, familyid: nat)
    requires Writes(lines, 0).Ok? && Encodable(PutBytes([], Writes(lines, 0).value), familyid)
    ensures var ws := Writes(lines, 0).value;
            var pages := PutBytes([], ws);
            var buf := Encoded(pages, familyid);
            && Readable(buf, |buf| / 512) && Chunks(buf, |buf| / 512) == pages
            && (InOrder(pages) <==> PagesAscend(pages))
            && (InOrder(pages) ==>
                  && (forall i :: 0 <= i < |ws| ==>
                        pages != [] && pages[0].addr <= ws[i].addr < pages[0].addr + |Flat(pages)|)
                  && (forall j {:trigger Flat(pages)[j]} :: 0 <= j < |Flat(pages)| ==>
                        Flat(pages)[j] == LastWrite(ws, pages[0].addr + j)))
  {
    hide InOrder, Readable, Chunks, Encoded, PutByte, PutBytes, LastWrite, MemoryAt, PagesAscend, Writes;
    var ws := Writes(lines, 0).value;
    var pages := PutBytes([], ws);
    EncodedReadsBack(pages, familyid, |pages|);
    assert pages[..|pages|] == pages;
    AscendingIsInOrder(pages);
    if InOrder(pages) {
      forall i | 0 <= i < |ws|
        ensures pages != [] && pages[0].addr <= ws[i].addr < End(pages[|pages| - 1])
      {
        WritesWithinPages(ws, i);
      }
      if pages != [] {
        InOrderBounds(pages);
        forall j | 0 <= j < |Flat(pages)|
          ensures Flat(pages)[j] == LastWrite(ws, pages[0].addr + j)
        {
          PagesHoldWrites(ws, pages[0].addr + j);
        }
      }
    }
  }
}
