/** The kernel's own compressor: the same greedy matcher over a fixed table of 4096 positions. */
module Lz4Pack {
  import opened Basics
  import opened Lz4Format
  import opened Lz4Greedy
  import opened Lz4Compress
  import opened Lz4Container
  import opened Lz4Kernel

  const HASH_SIZE: nat := 4096
  const BLOCK_SIZE: nat := 8192
  const NONE: nat := 0xFFFF_FFFF

  /** The upper twelve bits of the product, in 32 bits. */
  function Hash(data: seq<byte>, i: nat): (h: nat)
    requires i + 4 <= |data|
    ensures h < HASH_SIZE
  {
    var product := Word(data, i) * 2654435761 % U32;
    product / 1048576
  }

  /** The slots hold the last position before `index` of every hash. */
  predicate Tracks(slots: seq<nat>, data: seq<byte>, index: nat)
  {
    && |slots| == HASH_SIZE
    && (forall h :: 0 <= h < HASH_SIZE && slots[h] != NONE ==>
          slots[h] < index && slots[h] + 4 <= |data| && Hash(data, slots[h]) == h)
    && (forall p :: 0 <= p < index && p + 4 <= |data| ==>
          p <= slots[Hash(data, p)] && slots[Hash(data, p)] != NONE)
  }

  /** Position `p` is the last before `index` with its hash. */
  predicate Last(data: seq<byte>, p: nat, index: nat)
    requires p < index && index + 4 <= |data|
  {
    Hash(data, p) == Hash(data, index) && forall r :: p < r < index ==> Hash(data, r) != Hash(data, index)
  }

  /** It is in the window as well, and holds the same word. */
  predicate Fitting(data: seq<byte>, p: nat, index: nat)
    requires p < index && index + 4 <= |data|
  {
    Last(data, p, index) && index - p <= WINDOW && SameWord(data, p, index)
  }

  predicate SameWord(data: seq<byte>, p: nat, q: nat)
    requires p + 4 <= |data| && q + 4 <= |data|
  {
    data[p] == data[q] && data[p + 1] == data[q + 1] && data[p + 2] == data[q + 2] && data[p + 3] == data[q + 3]
  }

  /** What the slots offer. */
  function SlotPicks(data: seq<byte>): (pick: Pick)
  {
    (p: nat, i: nat) => p < i && i + 4 <= |data| && Fitting(data, p, i)
  }

  lemma {:induction false} SlotPicksSettled(data: seq<byte>)
    ensures Settled(SlotPicks(data))
  {
    var pick := SlotPicks(data);
    forall p: nat, q: nat, i: nat | pick(p, i) && pick(q, i) ensures p == q {
      assert Last(data, p, i) && Last(data, q, i);
    }
  }

  lemma {:induction false} TracksMore(slots: seq<nat>, data: seq<byte>, i: nat)
    requires Tracks(slots, data, i) && i + 4 <= |data| < NONE
    ensures Tracks(slots[Hash(data, i) := i], data, i + 1)
  {
  }

  lemma {:induction false} Tracked(slots: seq<nat>, data: seq<byte>, index: nat, p: nat)
    requires Tracks(slots, data, index) && index + 4 <= |data| && p < index
    ensures Last(data, p, index) <==> slots[Hash(data, index)] == p != NONE
  {
    if Hash(data, p) == Hash(data, index) {
      var last := slots[Hash(data, index)];
      assert Hash(data, last) == Hash(data, index);
      forall r | last < r < index ensures Hash(data, r) != Hash(data, index) { }
    }
  }

  lemma {:induction false} SameWordRepeats(data: seq<byte>, p: nat, index: nat)
    requires p < index && index + 4 <= |data| && SameWord(data, p, index)
    ensures Repeats(data, index, index - p, 4)
  {
    forall i | index <= i < index + 4 ensures data[i] == data[i - (index - p)] {
      assert i == index || i == index + 1 || i == index + 2 || i == index + 3;
    }
  }

  /** Enters position `i` into its slot. */
  method Enter(table: array<nat>, data: seq<byte>, i: nat)
    requires i + 4 <= |data| < NONE && table.Length == HASH_SIZE && Tracks(table[..], data, i)
    modifies table
    ensures Tracks(table[..], data, i + 1)
  {
    TracksMore(table[..], data, i);
    ghost var slots := table[..][Hash(data, i) := i];
    table[Hash(data, i)] := i;
    assert table[..] == slots;
  }

  /** Looks the word at `index` up and enters it: the last earlier position of its hash, exactly if
      that is in the window and holds the same word. */
  method Probe(table: array<nat>, data: seq<byte>, index: nat) returns (candidate: Option<nat>)
    requires index + 12 <= |data| <= CHUNK && table.Length == HASH_SIZE && Tracks(table[..], data, index)
    modifies table
    ensures Tracks(table[..], data, index + 1)
    ensures candidate.Some? ==> candidate.value < index
    ensures forall p :: 0 <= p < index ==> (candidate == Some(p) <==> Fitting(data, p, index))
  {
    var c := table[Hash(data, index)];
    assert table[..][Hash(data, index)] == c;
    forall p | 0 <= p < index ensures Last(data, p, index) <==> c == p {
      Tracked(table[..], data, index, p);
    }
    Enter(table, data, index);
    if c == NONE || index - c > WINDOW || !SameWord(data, c, index) {
      return None;
    }
    return Some(c);
  }

  /** The positions inside a match enter the table as well. */
  method EnterAll(table: array<nat>, data: seq<byte>, index: nat, end: nat)
    requires index < end <= |data| < NONE && table.Length == HASH_SIZE && Tracks(table[..], data, index + 1)
    modifies table
    ensures Tracks(table[..], data, end)
  {
    var pos := index + 1;
    while pos < end && pos + 4 <= |data|
      invariant index < pos <= end && Tracks(table[..], data, pos)
    {
      Enter(table, data, pos);
      pos := pos + 1;
    }
  }

  /** One round of the matching loop: on to the next position, or behind a match. */
  method PackStep(table: array<nat>, data: seq<byte>, index: nat, anchor: nat, packed: seq<byte>,
                  ghost ss: seq<Sequence>)
      returns (next: nat, anchor': nat, c: seq<byte>, ghost ss': seq<Sequence>)
    requires index + 12 <= |data| <= CHUNK && table.Length == HASH_SIZE && Tracks(table[..], data, index)
    requires Stands(data, SlotPicks(data), packed, ss, anchor, index)
    modifies table
    ensures index < next < |data| && Tracks(table[..], data, next)
    ensures Stands(data, SlotPicks(data), c, ss', anchor', next)
  {
    var candidate := Probe(table, data, index);
    if candidate.Some? {
      SameWordRepeats(data, candidate.value, index);
    }
    next, anchor', c, ss' := Proceed(data, packed, ss, anchor, index, candidate, SlotPicks(data));
    if candidate.Some? {
      EnterAll(table, data, index, next);
    }
  }

  /** Compresses a block into the block buffer; it fails if the buffer fills up, which no block of
      the size the caller reads makes it do. */
  method PackBlock(data: seq<byte>) returns (packed: Option<seq<byte>>, ghost ss: seq<Sequence>, ghost end: nat)
    requires 0 < |data| <= CHUNK
    ensures packed.Some? && Parses(data, packed.value, ss, end) && EndsWell(data, ss, end)
    ensures GreedyBlock(data, SlotPicks(data), packed.value)
    ensures 0 < |packed.value| <= |data| + |data| / 255 + 2 < BLOCK_SIZE
  {
    var table := new nat[HASH_SIZE](_ => NONE);
    var c, index, anchor := [], 0, 0;
    ss := [];
    while |data| >= 12 && index <= |data| - 12
      invariant 0 <= anchor <= index < |data| && Tracks(table[..], data, index)
      invariant Stands(data, SlotPicks(data), c, ss, anchor, index)
    {
      index, anchor, c, ss := PackStep(table, data, index, anchor, c, ss);
    }
    TakesAll(data, SlotPicks(data), ss, anchor, index);
    end := anchor;
    TailCost(data[anchor..]);
    c := WriteSequence(c, data[anchor..], 0, 0);
    assert BlockOf(data, ss, c);
    packed := if |c| < BLOCK_SIZE then Some(c) else None;
  }

  /** Compresses one chunk; the greedy block decodes behind any earlier output. */
  method PackChunk(plain: seq<byte>, ghost out: seq<byte>) returns (block: seq<byte>)
    requires 0 < |plain| <= CHUNK && |out| + |plain| < U32
    ensures 0 < |block| < U32 && Decodable(block, out, plain)
    ensures GreedyBlock(plain, SlotPicks(plain), block)
  {
    ghost var ss, end;
    var packed;
    packed, ss, end := PackBlock(plain);
    block := packed.value;
    ParsedDecodes(plain, block, ss, end, out);
  }

  /** All chunks in frames. */
  method PackChunks(data: seq<byte>, ghost k: (seq<byte>, seq<byte>) -> Option<seq<byte>>)
      returns (body: seq<byte>, ghost blocks: seq<seq<byte>>)
    requires |data| < U32 && Reads(k, |data|)
    ensures Archived(data, SlotPicks, k, blocks, body) && CHUNK * |blocks| >= |data|
  {
    body, blocks := [], [];
    var n := 0;
    ArchivedNone(data, SlotPicks, k);
    while CHUNK * n < |data|
      invariant n == |blocks| && Archived(data, SlotPicks, k, blocks, body)
      decreases |data| - CHUNK * n
    {
      var plain := Chunk(data, n);
      DoneMore(data, n);
      var block := PackChunk(plain, data[..Done(data, n)]);
      ArchivedMore(data, SlotPicks, k, blocks, body, block);
      body := body + Frame(|plain|, block);
      blocks := blocks + [block];
      n := n + 1;
    }
  }

  /** The kernel's archive of `data`, which reads back as `data`; data of 4 GiB or more is
      refused. */
  method PackData(data: seq<byte>) returns (r: Option<seq<byte>>)
    ensures r.None? <==> |data| >= U32
    ensures r.Some? ==> ArchiveOf(data, SlotPicks, r.value)
    ensures r.Some? ==> Decompress(r.value) == Some(data)
  {
    if |data| >= U32 {
      return None;
    }
    ghost var k := AReader([], |data|);
    ghost var blocks;
    var body;
    body, blocks := PackChunks(data, k);
    var archive := Le(|data|, 4) + (MARKER + body);
    ArchivedAll(data, SlotPicks, k, blocks, body, archive);
    r := Some(archive);
  }

  /** From the kernel's compressor through its decompressor: the data comes back. */
  method PackAndRestore(data: seq<byte>) returns (r: Option<seq<byte>>)
    requires |data| < U32
    ensures r == Some(data)
  {
    var archive := PackData(data);
    r := DecompressArchive(archive.value);
  }
}
