/** The user-space allocator: a doubly linked list of block headers. */
module UserHeap {
  import opened UserHeapChunks

  class Block {
    var size: nat
    var free: bool
    var next: Block?
    var prev: Block?
  }

  function At(blocks: seq<Block>, i: int): (b: Block?)
  {
    if 0 <= i < |blocks| then blocks[i] else null
  }

  /** No block is in the list twice. */
  ghost predicate Distinct(blocks: seq<Block>)
  {
    forall i, j :: 0 <= i < j < |blocks| ==> blocks[i] != blocks[j]
  }

  /** Block `i` has its chunk's size, and its neighbours on both sides. */
  ghost predicate Linked(blocks: seq<Block>, chunks: seq<Chunk>, i: nat)
    requires i < |blocks| == |chunks|
    reads blocks
  {
    && blocks[i].size == chunks[i].size && blocks[i].free == chunks[i].free
    && blocks[i].next == At(blocks, i + 1) && blocks[i].prev == At(blocks, i - 1)
  }

  /** The list runs through all blocks once, forwards by `next` and backwards by `prev`. */
  ghost predicate Chained(blocks: seq<Block>, chunks: seq<Chunk>)
    reads blocks
  {
    && |blocks| == |chunks| && Distinct(blocks)
    && forall i :: 0 <= i < |blocks| ==> Linked(blocks, chunks, i)
  }

  /** The list with `b` before place `i`. */
  function Inserted(blocks: seq<Block>, i: nat, b: Block): (r: seq<Block>)
    requires i <= |blocks|
    ensures |r| == |blocks| + 1 && r[i] == b
    ensures forall k :: 0 <= k < i ==> r[k] == blocks[k]
    ensures forall k :: i < k < |r| ==> r[k] == blocks[k - 1]
  {
    blocks[..i] + [b] + blocks[i..]
  }

  /** The blocks before and behind place `i` are in their order in a longer list. */
  ghost predicate Shifted(bs: seq<Block>, i: nat, blocks: seq<Block>)
  {
    && i < |bs| <= |blocks|
    && (forall k :: 0 <= k < i ==> blocks[k] == bs[k])
    && (forall k :: i < k < |bs| ==> bs[k] == blocks[k + |blocks| - |bs|])
  }

  lemma {:induction false} ShiftedSame(bs: seq<Block>, i: nat)
    requires i < |bs|
    ensures Shifted(bs, i, bs)
  {
  }

  lemma {:induction false} ShiftedInserted(bs: seq<Block>, i: nat, b: Block)
    requires i < |bs|
    ensures Shifted(bs, i, Inserted(bs, i + 1, b))
  {
  }

  lemma {:induction false} SplitOwned(blocks: seq<Block>, i: nat, b: Block)
    requires i <= |blocks|
    ensures forall k :: 0 <= k < |blocks| + 1 ==>
              Inserted(blocks, i, b)[k] in blocks || Inserted(blocks, i, b)[k] == b
  {
  }

  lemma {:induction false} InsertedDistinct(blocks: seq<Block>, i: nat, b: Block)
    requires i <= |blocks| && Distinct(blocks) && b !in blocks
    ensures Distinct(Inserted(blocks, i, b))
  {
    var r := Inserted(blocks, i, b);
    forall j, k | 0 <= j < k < |r| ensures r[j] != r[k] {
      if j < i < k {
        assert blocks[j] != blocks[k - 1];
      }
    }
  }

  /** The list without place `i`. */
  function Removed(blocks: seq<Block>, i: nat): (r: seq<Block>)
    requires i < |blocks|
    ensures |r| == |blocks| - 1
    ensures forall k :: 0 <= k < i ==> r[k] == blocks[k]
    ensures forall k :: i <= k < |r| ==> r[k] == blocks[k + 1]
  {
    blocks[..i] + blocks[i + 1..]
  }

  lemma {:induction false} RemovedDistinct(blocks: seq<Block>, i: nat)
    requires i < |blocks| && Distinct(blocks)
    ensures Distinct(Removed(blocks, i))
  {
    var r := Removed(blocks, i);
    forall j, k | 0 <= j < k < |r| ensures r[j] != r[k] {
      assert blocks[if j < i then j else j + 1] != blocks[if k < i then k else k + 1];
    }
  }

  /** Block `k` when `rest` is being linked in behind block `i`. */
  ghost predicate SplitLink(blocks: seq<Block>, chunks: seq<Chunk>, i: nat, n: nat, rest: Block, k: nat)
    requires k < |blocks| == |chunks|
    reads blocks
  {
    && blocks[k].size == (if k == i then n else chunks[k].size) && blocks[k].free == chunks[k].free
    && blocks[k].next == (if k == i then rest else At(blocks, k + 1))
    && blocks[k].prev == (if k == i + 1 then rest else At(blocks, k - 1))
  }

  lemma {:induction false} SplitChained(blocks: seq<Block>, chunks: seq<Chunk>, i: nat, n: nat, rest: Block)
    requires i < |blocks| == |chunks| && Distinct(blocks) && rest !in blocks && chunks[i].size >= n + HEADER
    requires forall k :: 0 <= k < |blocks| ==> SplitLink(blocks, chunks, i, n, rest, k)
    requires rest.size == chunks[i].size - n - HEADER && rest.free
    requires rest.next == At(blocks, i + 1) && rest.prev == blocks[i]
    ensures Chained(Inserted(blocks, i + 1, rest), Cut(chunks, i, n))
  {
    var bs, cs := Inserted(blocks, i + 1, rest), Cut(chunks, i, n);
    InsertedDistinct(blocks, i + 1, rest);
    forall k | 0 <= k < |bs| ensures Linked(bs, cs, k) {
      if k <= i {
        assert SplitLink(blocks, chunks, i, n, rest, k);
      } else if k > i + 1 {
        assert SplitLink(blocks, chunks, i, n, rest, k - 1);
      }
    }
  }

  /** Block `k` when block `i + 1` is being merged into block `i`. */
  ghost predicate MergeLink(blocks: seq<Block>, chunks: seq<Chunk>, i: nat, k: nat)
    requires k < |blocks| == |chunks| && i + 1 < |blocks|
    reads blocks
  {
    && blocks[k].size == chunks[k].size + (if k == i then HEADER + chunks[i + 1].size else 0)
    && blocks[k].free == chunks[k].free
    && blocks[k].next == At(blocks, if k == i then i + 2 else k + 1)
    && blocks[k].prev == At(blocks, if k == i + 2 then i else k - 1)
  }

  lemma {:induction false} MergeChained(blocks: seq<Block>, chunks: seq<Chunk>, i: nat)
    requires i + 1 < |blocks| == |chunks| && Distinct(blocks)
    requires forall k :: 0 <= k < |blocks| && k != i + 1 ==> MergeLink(blocks, chunks, i, k)
    ensures Chained(Removed(blocks, i + 1), Merged(chunks, i))
  {
    var bs, cs := Removed(blocks, i + 1), Merged(chunks, i);
    RemovedDistinct(blocks, i + 1);
    forall k | 0 <= k < |bs| ensures Linked(bs, cs, k) {
      if k <= i {
        assert MergeLink(blocks, chunks, i, k);
      } else {
        assert MergeLink(blocks, chunks, i, k + 1);
      }
    }
  }

  /** Block `b` is in the list, with chunk `c`. */
  ghost predicate Has(blocks: seq<Block>, chunks: seq<Chunk>, b: Block, c: Chunk)
    requires |blocks| == |chunks|
  {
    exists k :: 0 <= k < |blocks| && blocks[k] == b && chunks[k] == c
  }

  /** Every used block, apart from one, is still there, used and of the same size. */
  ghost predicate Carried(bs: seq<Block>, cs: seq<Chunk>, blocks: seq<Block>, chunks: seq<Chunk>, but: Block?)
    requires |bs| == |cs| && |blocks| == |chunks|
  {
    forall j {:trigger Has(blocks, chunks, bs[j], cs[j])} ::
      0 <= j < |bs| && !cs[j].free && bs[j] != but ==> Has(blocks, chunks, bs[j], cs[j])
  }

  lemma {:induction false} CarriedSame(bs: seq<Block>, cs: seq<Chunk>)
    requires |bs| == |cs|
    ensures Carried(bs, cs, bs, cs, null)
  {
    forall j | 0 <= j < |bs| && !cs[j].free ensures Has(bs, cs, bs[j], cs[j]) { }
  }

  lemma {:induction false} CarriedOn(b0: seq<Block>, c0: seq<Chunk>, b1: seq<Block>, c1: seq<Chunk>, b2: seq<Block>,
                                     c2: seq<Chunk>, but: Block?)
    requires |b0| == |c0| && |b1| == |c1| && |b2| == |c2|
    requires Carried(b0, c0, b1, c1, but) && Carried(b1, c1, b2, c2, but)
    ensures Carried(b0, c0, b2, c2, but)
  {
    forall j | 0 <= j < |b0| && !c0[j].free && b0[j] != but ensures Has(b2, c2, b0[j], c0[j]) {
      assert Has(b1, c1, b0[j], c0[j]);
      var k :| 0 <= k < |b1| && b1[k] == b0[j] && c1[k] == c0[j];
      assert Has(b2, c2, b1[k], c1[k]);
    }
  }

  /** Block `b` is in the list, used, and holds `n` bytes. */
  ghost predicate Serves(blocks: seq<Block>, chunks: seq<Chunk>, b: Block, n: nat)
    requires |blocks| == |chunks|
  {
    exists k :: 0 <= k < |blocks| && blocks[k] == b && !chunks[k].free && chunks[k].size >= n
  }

  /** A block of the rounded size holds the size itself exactly if rounding does not wrap around. */
  lemma {:induction false} ServesIff(blocks: seq<Block>, chunks: seq<Chunk>, mapped: nat, b: Block, size: nat)
    requires |blocks| == |chunks| && mapped == Total(chunks) && mapped % PAGE == 0 && mapped < WORD
    requires 0 < size < WORD && Serves(blocks, chunks, b, Aligned(size))
    ensures Serves(blocks, chunks, b, size) <==> size <= WORD - 8
  {
    AlignedIff(size);
    forall k | 0 <= k < |chunks| ensures chunks[k].size < WORD - 8 {
      ChunkWithin(chunks, k);
    }
  }

  lemma {:induction false} CarriedBut(b0: seq<Block>, c0: seq<Chunk>, b1: seq<Block>, c1: seq<Chunk>, b2: seq<Block>,
                                      c2: seq<Chunk>, but: Block?)
    requires |b0| == |c0| && |b1| == |c1| && |b2| == |c2|
    requires Carried(b0, c0, b1, c1, but) && Carried(b1, c1, b2, c2, null)
    ensures Carried(b0, c0, b2, c2, but)
  {
    forall j | 0 <= j < |b1| && !c1[j].free && b1[j] != but ensures Has(b2, c2, b1[j], c1[j]) { }
    CarriedOn(b0, c0, b1, c1, b2, c2, but);
  }

  lemma {:induction false} CarriedMarked(bs: seq<Block>, cs: seq<Chunk>, i: nat)
    requires i < |bs| == |cs| && Distinct(bs)
    ensures Carried(bs, cs, bs, cs[i := cs[i].(free := true)], bs[i])
  {
    var chunks := cs[i := cs[i].(free := true)];
    forall j | 0 <= j < |bs| && !cs[j].free && bs[j] != bs[i] ensures Has(bs, chunks, bs[j], cs[j]) {
      assert bs[j] == bs[j] && chunks[j] == cs[j];
    }
  }

  lemma {:induction false} TakenCarries(bs: seq<Block>, cs: seq<Chunk>, i: nat, n: nat, blocks: seq<Block>)
    requires |bs| == |cs| && i < |cs| && Suits(cs[i], n) && |blocks| == |Taken(cs, i, n)|
    requires Shifted(bs, i, blocks)
    ensures Carried(bs, cs, blocks, Taken(cs, i, n), null)
  {
    var chunks := Taken(cs, i, n);
    forall j | 0 <= j < |bs| && !cs[j].free ensures Has(blocks, chunks, bs[j], cs[j]) {
      var k := if j < i then j else j + |blocks| - |bs|;
      assert blocks[k] == bs[j] && chunks[k] == cs[j];
    }
  }

  lemma {:induction false} MergedCarries(bs: seq<Block>, cs: seq<Chunk>, i: nat)
    requires i + 1 < |bs| == |cs| && cs[i].free && cs[i + 1].free
    ensures Carried(bs, cs, Removed(bs, i + 1), Merged(cs, i), null)
  {
    var blocks, chunks := Removed(bs, i + 1), Merged(cs, i);
    forall j | 0 <= j < |bs| && !cs[j].free ensures Has(blocks, chunks, bs[j], cs[j]) {
      var k := if j < i then j else j - 1;
      assert blocks[k] == bs[j] && chunks[k] == cs[j];
    }
  }

  /** The least size a block is cut at, computed in a machine word. */
  method LeastToSplit(n: nat) returns (least: nat)
    requires n + HEADER + 8 < WORD
    ensures least == n + HEADER + 8
  {
    least := (n + HEADER + 8) % WORD;
  }

  class Heap {
    var start: Block?
    var mapped: nat
    ghost var blocks: seq<Block>
    ghost var chunks: seq<Chunk>

    ghost predicate Listed()
      reads this, blocks
    {
      Chained(blocks, chunks) && start == At(blocks, 0)
    }

    ghost predicate Valid()
      reads this, blocks
    {
      Listed() && mapped == Total(chunks) && mapped % PAGE == 0 && mapped < WORD
    }

    constructor ()
      ensures Valid() && blocks == [] && mapped == 0
    {
      start, mapped, blocks, chunks := null, 0, [], [];
    }

    /** The last block of the list. */
    method Last() returns (b: Block)
      requires Listed() && start != null
      ensures blocks != [] && b == blocks[|blocks| - 1]
    {
      b := start;
      ghost var k := 0;
      while b.next != null
        invariant k < |blocks| && b == blocks[k]
        decreases |blocks| - k
      {
        assert Linked(blocks, chunks, k);
        b := b.next;
        k := k + 1;
      }
      assert Linked(blocks, chunks, k);
    }

    /** Maps pages for `n` bytes and appends them as a free block, if the kernel grants them.  An
        empty mapping, or one beyond the address space, is never granted. */
    method Extend(n: nat, granted: bool) returns (ok: bool)
      requires Valid() && n < WORD
      modifies this, blocks
      ensures Valid()
      ensures ok <==> Granted(old(mapped), n, [granted])
      ensures !ok ==> blocks == old(blocks) && chunks == old(chunks) && mapped == old(mapped)
      ensures ok ==> |blocks| == |old(blocks)| + 1 && blocks[..|old(blocks)|] == old(blocks)
      ensures ok ==> fresh(blocks[|old(blocks)|]) && mapped == old(mapped) + MapSize(n)
      ensures ok ==> chunks == old(chunks) + [MappedChunk(n)]
    {
      var size := MapSize(n);
      if !granted || size == 0 || mapped + size >= WORD {
        return false;
      }
      MappedTotal(chunks, mapped, n);
      var b := new Block;
      b.size, b.free := size - HEADER, true;
      AppendBlock(b, MappedChunk(n));
      mapped := mapped + size;
      ok := true;
    }

    /** Links a block in behind the last. */
    method AppendBlock(b: Block, ghost c: Chunk)
      requires Listed() && b !in blocks && b.size == c.size && b.free == c.free
      modifies `start, `blocks, `chunks, blocks, b
      ensures Listed() && blocks == old(blocks) + [b] && chunks == old(chunks) + [c]
    {
      b.next, b.prev := null, null;
      if start == null {
        start := b;
      } else {
        var last := Last();
        last.next := b;
        b.prev := last;
      }
      ghost var was, before := blocks, chunks;
      blocks, chunks := blocks + [b], chunks + [c];
      forall i | 0 <= i < |blocks| ensures Linked(blocks, chunks, i) {
        if i < |was| {
          assert old(Linked(was, before, i));
        }
      }
    }

    // ----- taking a block -----

    /** Cuts block `i` after `n` bytes; what is left becomes a free block behind it. */
    method SplitBlock(b: Block, n: nat, ghost i: nat) returns (rest: Block)
      requires Listed() && i < |blocks| && b == blocks[i] && chunks[i].size >= n + HEADER
      modifies `blocks, `chunks, blocks
      ensures Listed() && fresh(rest) && blocks == Inserted(old(blocks), i + 1, rest)
      ensures chunks == Cut(old(chunks), i, n)
    {
      assert Linked(blocks, chunks, i);
      rest := new Block;
      rest.size, rest.free, rest.next, rest.prev := b.size - n - HEADER, true, b.next, b;
      if b.next != null {
        assert b.next == blocks[i + 1];
        b.next.prev := rest;
      }
      b.next := rest;
      b.size := n;
      forall k | 0 <= k < |blocks| ensures SplitLink(blocks, chunks, i, n, rest, k) {
        assert old(Linked(blocks, chunks, k));
      }
      SplitChained(blocks, chunks, i, n, rest);
      blocks, chunks := Inserted(blocks, i + 1, rest), Cut(chunks, i, n);
    }

    // ----- freeing -----

    /** Merges block `i + 1` into block `i`. */
    method MergeNext(b: Block, ghost i: nat)
      requires Listed() && i + 1 < |blocks| && b == blocks[i] && b.next != null
      modifies `blocks, `chunks, blocks
      ensures Listed() && blocks == Removed(old(blocks), i + 1)
      ensures chunks == Merged(old(chunks), i)
    {
      assert Linked(blocks, chunks, i) && Linked(blocks, chunks, i + 1);
      b.size := b.size + HEADER + b.next.size;
      b.next := b.next.next;
      if b.next != null {
        assert b.next == blocks[i + 2];
        b.next.prev := b;
      }
      forall k | 0 <= k < |blocks| && k != i + 1 ensures MergeLink(blocks, chunks, i, k) {
        assert old(Linked(blocks, chunks, k));
      }
      MergeChained(blocks, chunks, i);
      blocks, chunks := Removed(blocks, i + 1), Merged(chunks, i);
    }

    method SetFree(b: Block, free: bool, ghost i: nat)
      requires Listed() && i < |blocks| && b == blocks[i]
      modifies `chunks, b`free
      ensures Listed() && chunks == old(chunks)[i := old(chunks)[i].(free := free)]
    {
      b.free := free;
      ghost var before := chunks;
      chunks := before[i := before[i].(free := free)];
      forall k | 0 <= k < |blocks| ensures Linked(blocks, chunks, k) {
        assert old(Linked(blocks, before, k));
      }
    }

    /** The first free block that is large enough. */
    method Scan(n: nat) returns (b: Block?)
      requires Listed()
      ensures b == At(blocks, FirstFit(chunks, n))
    {
      b := start;
      ghost var k := 0;
      assert chunks[0..] == chunks;
      while b != null
        invariant k <= |blocks| && b == At(blocks, k)
        invariant FirstFit(chunks, n) == k + FirstFit(chunks[k..], n)
        decreases |blocks| - k
      {
        assert Linked(blocks, chunks, k);
        if b.free && b.size >= n {
          return;
        }
        assert chunks[k..][1..] == chunks[k + 1..];
        b := b.next;
        k := k + 1;
      }
    }

    /** Cuts block `i` after `n` bytes if what is left can hold a header and eight bytes. */
    method SplitIfLarge(b: Block, n: nat, ghost i: nat)
      requires Listed() && i < |blocks| && b == blocks[i] && chunks[i].size + HEADER + PAGE <= WORD
      requires chunks[i].size >= n
      modifies `blocks, `chunks, blocks
      ensures Listed() && i < |blocks| && b == blocks[i]
      ensures chunks == if old(chunks)[i].size >= n + HEADER + 8 then Cut(old(chunks), i, n) else old(chunks)
      ensures Shifted(old(blocks), i, blocks)
      ensures forall k :: 0 <= k < |blocks| ==> blocks[k] in old(blocks) || fresh(blocks[k])
    {
      assert Linked(blocks, chunks, i);
      ShiftedSame(blocks, i);
      var least := LeastToSplit(n);
      if b.size >= least {
        var rest := SplitBlock(b, n, i);
        SplitOwned(old(blocks), i + 1, rest);
        ShiftedInserted(old(blocks), i, rest);
      }
    }

    /** Takes block `i`, which is free and large enough. */
    method Take(b: Block, n: nat, ghost i: nat)
      requires Valid() && i < |blocks| && b == blocks[i] && Suits(chunks[i], n)
      modifies `blocks, `chunks, blocks
      ensures Valid() && chunks == Taken(old(chunks), i, n)
      ensures i < |blocks| && b == blocks[i]
      ensures Carried(old(blocks), old(chunks), blocks, chunks, null)
      ensures forall k :: 0 <= k < |blocks| ==> blocks[k] in old(blocks) || fresh(blocks[k])
    {
      ChunkWithin(chunks, i);
      TakenKeeps(chunks, i, n);
      SplitIfLarge(b, n, i);
      SetFree(b, false, i);
      TakenCarries(old(blocks), old(chunks), i, n, blocks);
    }

    /** Takes a block that fits, if there is one. */
    method TakeFit(n: nat) returns (b: Block?)
      requires Valid() && n < WORD
      modifies this, blocks
      ensures Valid() && Carried(old(blocks), old(chunks), blocks, chunks, null)
      ensures b == null <==> FirstFit(old(chunks), n) == |old(chunks)|
      ensures b == null ==> blocks == old(blocks) && chunks == old(chunks) && mapped == old(mapped)
      ensures b != null ==> Serves(blocks, chunks, b, n)
      ensures b != null ==> chunks == Taken(old(chunks), FirstFit(old(chunks), n), n)
      ensures forall k :: 0 <= k < |blocks| ==> blocks[k] in old(blocks) || fresh(blocks[k])
    {
      b := Scan(n);
      if b == null {
        CarriedSame(blocks, chunks);
      } else {
        ghost var i := FirstFit(chunks, n);
        TakenKeeps(chunks, i, n);
        Take(b, n, i);
        assert blocks[i] == b && !chunks[i].free && chunks[i].size >= n;
      }
    }

    /** Asks the kernel for memory and appends it. */
    method Grow(n: nat, answers: seq<bool>) returns (ok: bool, rest: seq<bool>)
      requires Valid() && n < WORD
      modifies this, blocks
      ensures Valid() && (ok <==> Granted(old(mapped), n, answers))
      ensures rest == Later(answers)
      ensures !ok ==> blocks == old(blocks) && chunks == old(chunks) && mapped == old(mapped)
      ensures ok ==> chunks == old(chunks) + [MappedChunk(n)] && mapped == old(mapped) + MapSize(n)
      ensures forall k :: 0 <= k < |blocks| ==> blocks[k] in old(blocks) || fresh(blocks[k])
      ensures Carried(old(blocks), old(chunks), blocks, chunks, null)
    {
      rest := if answers == [] then [] else answers[1..];
      ok := Extend(n, answers != [] && answers[0]);
      forall j | 0 <= j < |old(blocks)| && !old(chunks)[j].free
        ensures Has(blocks, chunks, old(blocks)[j], old(chunks)[j])
      {
        assert blocks[j] == old(blocks)[j] && chunks[j] == old(chunks)[j];
      }
    }

    /** Gives memory to an empty heap. */
    method Prime(n: nat, answers: seq<bool>) returns (ok: bool, rest: seq<bool>)
      requires Valid() && n < WORD
      modifies this, blocks
      ensures Valid() && Carried(old(blocks), old(chunks), blocks, chunks, null)
      ensures !ok ==> Outcome(chunks, false, rest) == Obtained(old(chunks), old(mapped), n, answers)
      ensures ok ==> |rest| <= |answers|
                     && Obtained(chunks, mapped, n, rest) == Obtained(old(chunks), old(mapped), n, answers)
      ensures forall k :: 0 <= k < |blocks| ==> blocks[k] in old(blocks) || fresh(blocks[k])
    {
      ok, rest := true, answers;
      if start == null {
        ok, rest := Grow(n, answers);
      } else {
        CarriedSame(blocks, chunks);
      }
    }

    /** Takes a block that fits; an empty heap is given memory first.  Unless this settles the
        request, the heap it leaves has no fit, and the rest of the allocation is up to it. */
    method ObtainHere(n: nat, answers: seq<bool>) returns (b: Block?, rest: seq<bool>, ok: bool)
      requires Valid() && n < WORD
      modifies this, blocks
      ensures Valid() && Carried(old(blocks), old(chunks), blocks, chunks, null)
      ensures b != null ==> Serves(blocks, chunks, b, n)
      ensures b != null || !ok ==>
                Outcome(chunks, b != null, rest) == Obtained(old(chunks), old(mapped), n, answers)
      ensures b == null && ok ==>
                FirstFit(chunks, n) == |chunks| && |rest| <= |answers|
                && Obtained(chunks, mapped, n, rest) == Obtained(old(chunks), old(mapped), n, answers)
      ensures forall k :: 0 <= k < |blocks| ==> blocks[k] in old(blocks) || fresh(blocks[k])
    {
      b := null;
      ok, rest := Prime(n, answers);
      if !ok {
        return;
      }
      ghost var b1, c1 := blocks, chunks;
      b := TakeFit(n);
      CarriedOn(old(blocks), old(chunks), b1, c1, blocks, chunks, null);
    }

    /** Allocates `n` bytes, already aligned.  `answers` are the kernel's answers to requests for
        memory; `rest` are those not asked for. */
    method Obtain(n: nat, answers: seq<bool>) returns (b: Block?, rest: seq<bool>)
      requires Valid() && n < WORD
      modifies this, blocks
      ensures Valid() && Carried(old(blocks), old(chunks), blocks, chunks, null)
      ensures b != null ==> Serves(blocks, chunks, b, n)
      ensures Outcome(chunks, b != null, rest) == Obtained(old(chunks), old(mapped), n, answers)
      decreases |answers|
    {
      var ok;
      b, rest, ok := ObtainHere(n, answers);
      if b != null || !ok {
        return;
      }
      ghost var b1, c1 := blocks, chunks;
      ok, rest := Grow(n, rest);
      CarriedOn(old(blocks), old(chunks), b1, c1, blocks, chunks, null);
      if !ok {
        return;
      }
      ghost var b2, c2 := blocks, chunks;
      b, rest := Obtain(n, rest);
      CarriedOn(old(blocks), old(chunks), b2, c2, blocks, chunks, null);
    }

    /** Allocates `size` bytes.  A request that fits is served without asking the kernel.  Of the
        others, those whose sizes do not wrap around, or wrap around to nothing, ask once and are
        served exactly if memory is granted; those that map nothing ask once and fail; and those
        within a header's size of the largest use up every leading grant, a page each, and fail. */
    method Malloc(size: nat, answers: seq<bool>) returns (b: Block?, rest: seq<bool>)
      requires Valid() && size < WORD
      modifies this, blocks
      ensures Valid() && Carried(old(blocks), old(chunks), blocks, chunks, null)
      ensures size == 0 ==> b == null && rest == answers && chunks == old(chunks)
      ensures b != null ==> Serves(blocks, chunks, b, Aligned(size))
      ensures b != null ==> (Serves(blocks, chunks, b, size) <==> size <= WORD - 8)
      ensures size > 0 && FirstFit(old(chunks), Aligned(size)) < |old(chunks)| ==>
                b != null && rest == answers
                && chunks == Taken(old(chunks), FirstFit(old(chunks), Aligned(size)), Aligned(size))
      ensures size > 0 && FirstFit(old(chunks), Aligned(size)) == |old(chunks)|
              && (size <= WORD - HEADER - PAGE || size > WORD - 8) ==>
                (b != null <==> Granted(old(mapped), Aligned(size), answers)) && rest == Later(answers)
      ensures FirstFit(old(chunks), Aligned(size)) == |old(chunks)|
              && WORD - HEADER - PAGE < size <= WORD - HEADER ==>
                b == null && rest == Later(answers) && chunks == old(chunks)
      ensures FirstFit(old(chunks), Aligned(size)) == |old(chunks)| && WORD - HEADER < size <= WORD - 8 ==>
                && b == null
                && Pages(old(chunks), old(mapped), answers, chunks, rest)
    {
      if size == 0 {
        CarriedSame(blocks, chunks);
        return null, answers;
      }
      AlignedIff(size);
      if FirstFit(chunks, Aligned(size)) == |chunks| {
        SizeServed(chunks, mapped, size, answers);
      }
      b, rest := Obtain(Aligned(size), answers);
      if b != null {
        ServesIff(blocks, chunks, mapped, b, size);
      }
    }

    /** Merges block `i` with the next one if both are free. */
    method JoinNext(b: Block, ghost i: nat)
      requires Listed() && i < |blocks| && b == blocks[i] && chunks[i].free
      modifies `blocks, `chunks, blocks
      ensures Listed() && i < |blocks| && b == blocks[i] && (i > 0 ==> chunks[i - 1] == old(chunks)[i - 1])
      ensures chunks == if i + 1 < |old(chunks)| && old(chunks)[i + 1].free then Merged(old(chunks), i) else old(chunks)
      ensures Carried(old(blocks), old(chunks), blocks, chunks, null)
      ensures forall k :: 0 <= k < |blocks| ==> blocks[k] in old(blocks)
    {
      CarriedSame(blocks, chunks);
      assert Linked(blocks, chunks, i);
      if b.next != null {
        assert Linked(blocks, chunks, i + 1);
        if b.next.free {
          MergedCarries(blocks, chunks, i);
          MergeNext(b, i);
        }
      }
    }

    /** Frees a block that was handed out and merges it with its free neighbours. */
    method Free(b: Block?)
      requires Valid() && (b != null ==> b in blocks && !b.free)
      modifies this, blocks
      ensures Valid() && mapped == old(mapped)
      ensures b == null ==> blocks == old(blocks) && chunks == old(chunks)
      ensures forall i :: 0 <= i < |old(blocks)| && old(blocks)[i] == b ==> chunks == Freed(old(chunks), i)
      ensures Apart(old(chunks)) ==> Apart(chunks)
      ensures Carried(old(blocks), old(chunks), blocks, chunks, b)
    {
      if b == null {
        CarriedSame(blocks, chunks);
        return;
      }
      ghost var i :| 0 <= i < |blocks| && blocks[i] == b;
      if Apart(chunks) {
        FreedApart(chunks, i);
      }
      FreeBlock(b, i);
    }

    method FreeBlock(b: Block, ghost i: nat)
      requires Valid() && i < |blocks| && b == blocks[i]
      modifies `blocks, `chunks, blocks
      ensures Valid() && chunks == Freed(old(chunks), i)
      ensures Carried(old(blocks), old(chunks), blocks, chunks, b)
    {
      FreedKeeps(chunks, i);
      CarriedMarked(blocks, chunks, i);
      SetFree(b, true, i);
      ghost var b1, c1 := blocks, chunks;
      JoinNext(b, i);
      CarriedBut(old(blocks), old(chunks), b1, c1, blocks, chunks, b);
      JoinPrevious(b, i, old(blocks), old(chunks));
    }

    /** Merges block `i` into the one before if that is free. */
    method JoinPrevious(b: Block, ghost i: nat, ghost bs: seq<Block>, ghost cs: seq<Chunk>)
      requires Listed() && i < |blocks| && b == blocks[i] && chunks[i].free
      requires |bs| == |cs| && Carried(bs, cs, blocks, chunks, b)
      modifies `blocks, `chunks, blocks
      ensures Listed()
      ensures chunks == if i > 0 && old(chunks)[i - 1].free then Merged(old(chunks), i - 1) else old(chunks)
      ensures Carried(bs, cs, blocks, chunks, b)
    {
      ghost var b1, c1 := blocks, chunks;
      assert Linked(blocks, chunks, i);
      if b.prev != null {
        assert Linked(blocks, chunks, i - 1);
        if b.prev.free {
          MergedCarries(blocks, chunks, i - 1);
          MergeNext(b.prev, i - 1);
          CarriedBut(bs, cs, b1, c1, blocks, chunks, b);
        }
      }
    }
  }
}
