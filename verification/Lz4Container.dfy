/** The archive around the blocks, as the build script writes it and the kernel reads it:
    total size, marker, then blocks with their plain and packed sizes. */
module Lz4Container {
  import opened Basics
  import opened Lz4Format
  import opened Lz4Greedy
  import opened Lz4Compress

  const CHUNK: nat := 4096
  const U32: nat := 0x1_0000_0000
  const MARKER: seq<byte> := [76, 90, 52, 67]

  // ----- reading -----

  datatype Head = Head(plain: nat, block: seq<byte>, rest: seq<byte>)

  /** The frame in front: its plain size, at most `room`, and its block. */
  function ReadHead(b: seq<byte>, room: nat): (r: Option<Head>)
    ensures r.Some? ==> 0 < r.value.plain <= room && |r.value.rest| < |b|
  {
    if |b| < 8 then None
    else
      var plain, packed, rest := ReadLe(b, 4), ReadLe(b[4..], 4), b[8..];
      if plain == 0 || packed == 0 || plain > room || packed > |rest| then None
      else Some(Head(plain, rest[..packed], rest[packed..]))
  }

  /** The framed blocks that are left, with `total` bytes expected in all. */
  function ReadBlocks(b: seq<byte>, out: seq<byte>, total: nat): (r: Option<seq<byte>>)
    requires |out| <= total
    decreases |b|
  {
    if |out| == total then if b == [] then Some(out) else None
    else
      var h := ReadHead(b, total - |out|);
      if h.None? then None
      else
        var d := Decode(h.value.block, out, |out|, |out| + h.value.plain);
        if d.None? then None else ReadBlocks(h.value.rest, d.value, total)
  }

  predicate Framed(src: seq<byte>)
  {
    |src| >= 8 && src[4..8] == MARKER
  }

  /** A whole archive; without the marker it is one bare block. */
  function Decompress(src: seq<byte>): (r: Option<seq<byte>>)
  {
    if |src| < 4 then None
    else
      var total := ReadLe(src, 4);
      if total == 0 then if |src| == (if Framed(src) then 8 else 4) then Some([]) else None
      else if Framed(src) then ReadBlocks(src[8..], [], total)
      else Decode(src[4..], [], 0, total)
  }

  // ----- writing -----

  function Frame(plain: nat, block: seq<byte>): (b: seq<byte>)
    requires plain < U32 && |block| < U32
  {
    Le(plain, 4) + (Le(|block|, 4) + block)
  }

  lemma {:induction false} ReadHeadOf(plain: nat, block: seq<byte>, rest: seq<byte>, room: nat)
    requires 0 < plain < U32 && 0 < |block| < U32 && plain <= room
    ensures ReadHead(Frame(plain, block) + rest, room) == Some(Head(plain, block, rest))
  {
    var b := Frame(plain, block) + rest;
    var tail := Le(|block|, 4) + (block + rest);
    assert b == Le(plain, 4) + tail;
    ReadLeOf(plain, 4, tail);
    ReadLeOf(|block|, 4, block + rest);
    assert b[8..] == b[4..][4..];
    assert (block + rest)[..|block|] == block && (block + rest)[|block|..] == rest;
  }

  /** `k` reads the blocks of an archive of `total` bytes.  The equation is used only where
      `AtFrame` is mentioned. */
  ghost predicate Reads(k: (seq<byte>, seq<byte>) -> Option<seq<byte>>, total: nat)
  {
    forall b: seq<byte>, out: seq<byte> {:trigger AtFrame(b, out)} ::
      AtFrame(b, out) && |out| <= total ==> k(b, out) == ReadBlocks(b, out, total)
  }

  ghost predicate AtFrame(b: seq<byte>, out: seq<byte>) { true }

  lemma {:induction false} AReader(b: seq<byte>, total: nat) returns (k: (seq<byte>, seq<byte>) -> Option<seq<byte>>)
    ensures Reads(k, total) && k(b, []) == ReadBlocks(b, [], total)
  {
    k := (b: seq<byte>, out: seq<byte>) => if |out| <= total then ReadBlocks(b, out, total) else None;
  }

  /** One step of the reader, its frame being `h`. */
  lemma {:induction false} ReaderStep(k: (seq<byte>, seq<byte>) -> Option<seq<byte>>, b: seq<byte>, out: seq<byte>,
                                      total: nat)
    requires Reads(k, total) && |out| < total
    ensures var h := ReadHead(b, total - |out|);
            k(b, out) ==
            if h.None? then None
            else
              var d := Decode(h.value.block, out, |out|, |out| + h.value.plain);
              if d.None? then None else k(h.value.rest, d.value)
  {
    assert AtFrame(b, out);
    var h := ReadHead(b, total - |out|);
    if h.Some? {
      var d := Decode(h.value.block, out, |out|, |out| + h.value.plain);
      if d.Some? { assert AtFrame(h.value.rest, d.value); }
    }
  }

  lemma {:induction false} ReadsFrame(k: (seq<byte>, seq<byte>) -> Option<seq<byte>>, plain: nat, block: seq<byte>,
                                      rest: seq<byte>, out: seq<byte>, d: seq<byte>, total: nat)
    requires Reads(k, total) && 0 < plain < U32 && 0 < |block| < U32 && |out| + plain <= total
    requires Decode(block, out, |out|, |out| + plain) == Some(d)
    ensures k(Frame(plain, block) + rest, out) == k(rest, d)
  {
    ReadHeadOf(plain, block, rest, total - |out|);
    ReaderStep(k, Frame(plain, block) + rest, out, total);
  }

  /** Reading `body` and then anything more goes on with that, `out` being read by then. */
  ghost predicate Leads(k: (seq<byte>, seq<byte>) -> Option<seq<byte>>, body: seq<byte>, out: seq<byte>)
  {
    forall rest: seq<byte> {:trigger More(rest)} :: More(rest) ==> k(body + rest, []) == k(rest, out)
  }

  ghost predicate More(rest: seq<byte>) { true }

  lemma {:induction false} LeadsEmpty(k: (seq<byte>, seq<byte>) -> Option<seq<byte>>)
    ensures Leads(k, [], [])
  {
    forall rest: seq<byte> ensures k([] + rest, []) == k(rest, []) {
      assert [] + rest == rest;
    }
  }

  /** One framed block behind `body`. */
  lemma {:induction false} LeadsExtends(k: (seq<byte>, seq<byte>) -> Option<seq<byte>>, body: seq<byte>, out: seq<byte>,
                                        total: nat, plain: seq<byte>, block: seq<byte>)
    requires Reads(k, total) && 0 < |plain| < U32 && 0 < |block| < U32 && |out| + |plain| <= total
    requires Leads(k, body, out)
    requires Decode(block, out, |out|, |out| + |plain|) == Some(out + plain)
    ensures Leads(k, body + Frame(|plain|, block), out + plain)
  {
    var f := Frame(|plain|, block);
    forall rest: seq<byte> ensures k(body + f + rest, []) == k(rest, out + plain) {
      assert body + f + rest == body + (f + rest);
      assert More(f + rest);
      ReadsFrame(k, |plain|, block, rest, out, out + plain, total);
    }
  }

  // ----- the archive of some data -----

  /** The `k`-th chunk of the data. */
  function Chunk(data: seq<byte>, k: nat): (c: seq<byte>)
    requires CHUNK * k < |data|
    ensures 0 < |c| <= CHUNK
  {
    data[CHUNK * k..Min(CHUNK * (k + 1), |data|)]
  }

  predicate BlocksFit(data: seq<byte>, blocks: seq<seq<byte>>)
  {
    |data| < U32 && forall k :: 0 <= k < |blocks| ==> CHUNK * k < |data| && |blocks[k]| < U32
  }

  /** The blocks, each in its frame. */
  function Frames(data: seq<byte>, blocks: seq<seq<byte>>): (body: seq<byte>)
    requires BlocksFit(data, blocks)
  {
    if blocks == [] then []
    else
      var n := |blocks| - 1;
      Frames(data, blocks[..n]) + Frame(|Chunk(data, n)|, blocks[n])
  }

  /** These are greedy blocks, one for every chunk up to the last block's. */
  ghost predicate ChunksPacked(data: seq<byte>, picks: seq<byte> -> Pick, blocks: seq<seq<byte>>)
    requires BlocksFit(data, blocks)
  {
    blocks == [] ||
    var n := |blocks| - 1;
    ChunksPacked(data, picks, blocks[..n]) && GreedyBlock(Chunk(data, n), picks(Chunk(data, n)), blocks[n])
  }

  lemma {:induction false} ChunkPacked(data: seq<byte>, picks: seq<byte> -> Pick, blocks: seq<seq<byte>>, k: nat)
    requires BlocksFit(data, blocks) && ChunksPacked(data, picks, blocks) && k < |blocks|
    ensures GreedyBlock(Chunk(data, k), picks(Chunk(data, k)), blocks[k])
    decreases |blocks|
  {
    if k < |blocks| - 1 { ChunkPacked(data, picks, blocks[..|blocks| - 1], k); }
  }

  ghost predicate ArchiveOf(data: seq<byte>, picks: seq<byte> -> Pick, archive: seq<byte>)
  {
    exists blocks: seq<seq<byte>> :: ArchiveWith(data, picks, archive, blocks)
  }

  /** Size, marker, and all chunks packed. */
  ghost predicate ArchiveWith(data: seq<byte>, picks: seq<byte> -> Pick, archive: seq<byte>, blocks: seq<seq<byte>>)
  {
    && BlocksFit(data, blocks) && CHUNK * |blocks| >= |data| && ChunksPacked(data, picks, blocks)
    && archive == Le(|data|, 4) + (MARKER + Frames(data, blocks))
  }

  lemma {:induction false} PackedMore(data: seq<byte>, picks: seq<byte> -> Pick, blocks: seq<seq<byte>>,
                                      block: seq<byte>)
    requires BlocksFit(data, blocks) && ChunksPacked(data, picks, blocks) && CHUNK * |blocks| < |data|
    requires |block| < U32
    requires var c := Chunk(data, |blocks|); GreedyBlock(c, picks(c), block)
    ensures BlocksFit(data, blocks + [block]) && ChunksPacked(data, picks, blocks + [block])
  {
    var more := blocks + [block];
    assert more[..|blocks|] == blocks && more[|blocks|] == block;
  }

  lemma {:induction false} FramesMore(data: seq<byte>, blocks: seq<seq<byte>>, block: seq<byte>)
    requires BlocksFit(data, blocks) && BlocksFit(data, blocks + [block])
    ensures Frames(data, blocks + [block]) == Frames(data, blocks) + Frame(|Chunk(data, |blocks|)|, block)
  {
    var more := blocks + [block];
    assert more[..|blocks|] == blocks && more[|blocks|] == block;
  }

  /** The data fix the archive. */
  lemma {:induction false} ArchiveOnce(data: seq<byte>, picks: seq<byte> -> Pick, a: seq<byte>, b: seq<byte>)
    requires (forall d: seq<byte> :: Settled(picks(d))) && ArchiveOf(data, picks, a) && ArchiveOf(data, picks, b)
    ensures a == b
  {
    var xs :| ArchiveWith(data, picks, a, xs);
    var ys :| ArchiveWith(data, picks, b, ys);
    SameCount(data, xs, ys);
    SameCount(data, ys, xs);
    forall k | 0 <= k < |xs| ensures xs[k] == ys[k] {
      ChunkPacked(data, picks, xs, k);
      ChunkPacked(data, picks, ys, k);
      BlockOnce(Chunk(data, k), picks(Chunk(data, k)), xs[k], ys[k]);
    }
    assert xs == ys;
  }

  lemma {:induction false} SameCount(data: seq<byte>, xs: seq<seq<byte>>, ys: seq<seq<byte>>)
    requires BlocksFit(data, xs) && BlocksFit(data, ys) && CHUNK * |xs| >= |data|
    ensures |ys| <= |xs|
  {
    if |ys| > 0 { assert CHUNK * (|ys| - 1) < |data|; }
  }

  // ----- writing it -----

  /** How much of the data `n` chunks are. */
  function Done(data: seq<byte>, n: nat): (offset: nat)
    ensures offset <= |data|
  {
    Min(CHUNK * n, |data|)
  }

  /** The first chunks are packed and framed, and read back. */
  ghost predicate Archived(data: seq<byte>, picks: seq<byte> -> Pick, k: (seq<byte>, seq<byte>) -> Option<seq<byte>>,
                           blocks: seq<seq<byte>>, body: seq<byte>)
  {
    && BlocksFit(data, blocks) && ChunksPacked(data, picks, blocks) && body == Frames(data, blocks)
    && Leads(k, body, data[..Done(data, |blocks|)])
  }

  lemma {:induction false} ArchivedNone(data: seq<byte>, picks: seq<byte> -> Pick,
                                        k: (seq<byte>, seq<byte>) -> Option<seq<byte>>)
    requires |data| < U32
    ensures Archived(data, picks, k, [], [])
  {
    LeadsEmpty(k);
  }

  lemma {:induction false} DoneMore(data: seq<byte>, n: nat)
    requires CHUNK * n < |data|
    ensures Done(data, n) == CHUNK * n && |data[..Done(data, n)]| + |Chunk(data, n)| <= |data|
    ensures data[..Done(data, n)] + Chunk(data, n) == data[..Done(data, n + 1)]
  {
  }

  lemma {:induction false} LeadsMore(k: (seq<byte>, seq<byte>) -> Option<seq<byte>>, body: seq<byte>, out: seq<byte>,
                                     total: nat, plain: seq<byte>, block: seq<byte>, all: seq<byte>)
    requires Reads(k, total) && 0 < |plain| < U32 && 0 < |block| < U32 && |out| + |plain| <= total
    requires Leads(k, body, out) && Decodable(block, out, plain) && all == out + plain
    ensures Leads(k, body + Frame(|plain|, block), all)
  {
    LeadsExtends(k, body, out, total, plain, block);
  }

  /** One more chunk and its frame. */
  lemma {:induction false} ArchivedMore(data: seq<byte>, picks: seq<byte> -> Pick,
                                        k: (seq<byte>, seq<byte>) -> Option<seq<byte>>, blocks: seq<seq<byte>>,
                                        body: seq<byte>, block: seq<byte>)
    requires Archived(data, picks, k, blocks, body) && CHUNK * |blocks| < |data| && Reads(k, |data|)
    requires 0 < |block| < U32
    requires var c := Chunk(data, |blocks|);
             GreedyBlock(c, picks(c), block) && Decodable(block, data[..Done(data, |blocks|)], c)
    ensures Archived(data, picks, k, blocks + [block], body + Frame(|Chunk(data, |blocks|)|, block))
  {
    var n := |blocks|;
    var c := Chunk(data, n);
    assert Leads(k, body + Frame(|c|, block), data[..Done(data, n + 1)]) by {
      DoneMore(data, n);
      LeadsMore(k, body, data[..Done(data, n)], |data|, c, block, data[..Done(data, n + 1)]);
    }
    ArchivedNext(data, picks, k, blocks, body, block, body + Frame(|c|, block), n + 1);
  }

  lemma {:induction false} ArchivedNext(data: seq<byte>, picks: seq<byte> -> Pick,
                                        k: (seq<byte>, seq<byte>) -> Option<seq<byte>>, blocks: seq<seq<byte>>,
                                        body: seq<byte>, block: seq<byte>, longer: seq<byte>, n: nat)
    requires BlocksFit(data, blocks) && ChunksPacked(data, picks, blocks) && body == Frames(data, blocks)
    requires CHUNK * |blocks| < |data| && |block| < U32 && n == |blocks| + 1
    requires var c := Chunk(data, |blocks|); GreedyBlock(c, picks(c), block) && longer == body + Frame(|c|, block)
    requires Leads(k, longer, data[..Done(data, n)])
    ensures Archived(data, picks, k, blocks + [block], longer)
  {
    assert |blocks + [block]| == n;
    PackedMore(data, picks, blocks, block);
    FramesMore(data, blocks, block);
  }

  /** Behind `out`, the block decodes to `plain`. */
  ghost predicate Decodable(block: seq<byte>, out: seq<byte>, plain: seq<byte>)
  {
    Decode(block, out, |out|, |out| + |plain|) == Some(out + plain)
  }

  // ----- the build script -----

  /** Compresses one chunk; the greedy block decodes behind any earlier output. */
  method CompressChunk(plain: seq<byte>, ghost out: seq<byte>) returns (block: seq<byte>)
    requires 0 < |plain| <= CHUNK && |out| + |plain| < U32
    ensures 0 < |block| < U32 && Decodable(block, out, plain)
    ensures GreedyBlock(plain, Picks(plain), block)
  {
    ghost var ss, end;
    block, ss, end := CompressParsed(plain);
    ParsedDecodes(plain, block, ss, end, out);
  }

  /** All chunks in frames. */
  method CompressChunks(data: seq<byte>, ghost k: (seq<byte>, seq<byte>) -> Option<seq<byte>>)
      returns (body: seq<byte>, ghost blocks: seq<seq<byte>>)
    requires |data| < U32 && Reads(k, |data|)
    ensures Archived(data, Picks, k, blocks, body) && CHUNK * |blocks| >= |data|
  {
    body, blocks := [], [];
    var n := 0;
    ArchivedNone(data, Picks, k);
    while CHUNK * n < |data|
      invariant n == |blocks| && Archived(data, Picks, k, blocks, body)
      decreases |data| - CHUNK * n
    {
      var plain := Chunk(data, n);
      DoneMore(data, n);
      var block := CompressChunk(plain, data[..Done(data, n)]);
      ArchivedMore(data, Picks, k, blocks, body, block);
      body := body + Frame(|plain|, block);
      blocks := blocks + [block];
      n := n + 1;
    }
  }

  lemma {:induction false} NoBlocks(data: seq<byte>, blocks: seq<seq<byte>>)
    requires BlocksFit(data, blocks)
    ensures data == [] ==> Frames(data, blocks) == []
  {
    assert |blocks| > 0 ==> CHUNK * 0 < |data|;
  }

  lemma {:induction false} ArchivedAll(data: seq<byte>, picks: seq<byte> -> Pick,
                                       k: (seq<byte>, seq<byte>) -> Option<seq<byte>>, blocks: seq<seq<byte>>,
                                       body: seq<byte>, archive: seq<byte>)
    requires Archived(data, picks, k, blocks, body) && CHUNK * |blocks| >= |data| && Reads(k, |data|)
    requires archive == Le(|data|, 4) + (MARKER + body)
    ensures ArchiveOf(data, picks, archive) && Decompress(archive) == Some(data)
  {
    assert data[..Done(data, |blocks|)] == data;
    BodyReads(data, body, k);
    NoBlocks(data, blocks);
    ArchiveReads(data, body, archive);
    assert ArchiveWith(data, picks, archive, blocks);
  }

  /** The archive of `data`, which reads back as `data`; data of 4 GiB or more is refused. */
  method CompressData(data: seq<byte>) returns (r: Option<seq<byte>>)
    ensures r.None? <==> |data| >= U32
    ensures r.Some? ==> ArchiveOf(data, Picks, r.value)
    ensures r.Some? ==> Decompress(r.value) == Some(data)
  {
    if |data| >= U32 { return None; }
    ghost var k := AReader([], |data|);
    ghost var blocks;
    var body;
    body, blocks := CompressChunks(data, k);
    var archive := Le(|data|, 4) + (MARKER + body);
    ArchivedAll(data, Picks, k, blocks, body, archive);
    r := Some(archive);
  }

  lemma {:induction false} BodyReads(data: seq<byte>, body: seq<byte>, k: (seq<byte>, seq<byte>) -> Option<seq<byte>>)
    requires Reads(k, |data|) && Leads(k, body, data)
    ensures ReadBlocks(body, [], |data|) == Some(data)
  {
    assert More([]);
    assert body + [] == body;
    assert AtFrame(body, []);
    assert AtFrame([], data);
  }

  lemma {:induction false} ArchiveReads(data: seq<byte>, body: seq<byte>, archive: seq<byte>)
    requires |data| < U32 && ReadBlocks(body, [], |data|) == Some(data) && (data == [] ==> body == [])
    requires archive == Le(|data|, 4) + (MARKER + body)
    ensures Decompress(archive) == Some(data)
  {
    ReadLeOf(|data|, 4, MARKER + body);
    assert archive[4..8] == MARKER;
    assert archive[8..] == body;
  }
}
