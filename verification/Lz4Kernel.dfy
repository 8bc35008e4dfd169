/** The kernel's decompressor: it keeps only the last 4096 bytes in a ring, flushes its output
    buffer to the file every 64 KiB, and walks the archive by index. */
module Lz4Kernel {
  import opened Basics
  import opened Lz4Format
  import opened Lz4Container

  const OUTPUT_SIZE: nat := 65536

  /** The ring `h` holds the last bytes of `c`, each at its position modulo the ring size. */
  ghost predicate Ring(h: seq<byte>, c: seq<byte>)
  {
    && |h| == WINDOW
    && forall i :: 0 <= i < |c| && |c| - WINDOW <= i ==> h[i % WINDOW] == c[i]
  }

  lemma {:induction false} RingPut(h: seq<byte>, c: seq<byte>, value: byte)
    requires Ring(h, c)
    ensures Ring(h[|c| % WINDOW := value], c + [value])
  {
  }

  lemma {:induction false} CopyStep(out: seq<byte>, offset: nat, n: nat)
    requires 1 <= offset <= |out| && n > 0
    ensures Copy(out, offset, n) == Copy(out + [out[|out| - offset]], offset, n - 1)
  {
  }

  /** Decoder output: the bytes already appended to the file, the buffer, and the ring of the
      latest bytes. */
  class DecodeOutput {
    const history: array<byte>
    const data: array<byte>
    var length: nat
    var produced: nat
    var file: seq<byte>
    ghost var contents: seq<byte>

    constructor ()
      ensures Valid() && contents == [] && fresh(history) && fresh(data)
    {
      history := new byte[WINDOW](_ => 0);
      data := new byte[OUTPUT_SIZE](_ => 0);
      length, produced, file, contents := 0, 0, [], [];
    }

    ghost predicate Valid()
      reads this, history, data
    {
      && data.Length == OUTPUT_SIZE && history != data && length < OUTPUT_SIZE
      && contents == file + data[..length] && produced == |contents|
      && Ring(history[..], contents)
    }

    method Put(value: byte)
      requires Valid()
      modifies this, history, data
      ensures Valid() && contents == old(contents) + [value]
    {
      RingPut(history[..], contents, value);
      ghost var h := history[..][produced % WINDOW := value];
      history[produced % WINDOW] := value;
      assert history[..] == h;
      data[length] := value;
      length := length + 1;
      produced := produced + 1;
      contents := contents + [value];
      if length == OUTPUT_SIZE {
        file := file + data[..length];
        length := 0;
      }
    }

    /** Repeats the byte `offset` back, read from the ring: the first of `n` bytes to copy. */
    method PutBack(offset: nat, ghost n: nat)
      requires Valid() && 1 <= offset <= WINDOW && offset <= |contents| && n > 0
      modifies this, history, data
      ensures Valid() && |contents| == |old(contents)| + 1
      ensures Copy(contents, offset, n - 1) == Copy(old(contents), offset, n)
    {
      CopyStep(contents, offset, n);
      var value := history[(produced - offset) % WINDOW];
      assert value == contents[|contents| - offset];
      Put(value);
    }

    /** Copies `n` bytes from `offset` back, through the ring. */
    method PutMatch(offset: nat, n: nat)
      requires Valid() && 1 <= offset <= WINDOW && offset <= produced
      modifies this, history, data
      ensures Valid() && contents == Copy(old(contents), offset, n)
    {
      var i := 0;
      while i < n
        invariant 0 <= i <= n && Valid() && offset <= |contents|
        invariant Copy(contents, offset, n - i) == Copy(old(contents), offset, n)
      {
        PutBack(offset, n - i);
        i := i + 1;
      }
    }

    method PutAll(bytes: seq<byte>)
      requires Valid()
      modifies this, history, data
      ensures Valid() && contents == old(contents) + bytes
    {
      var i := 0;
      while i < |bytes|
        invariant 0 <= i <= |bytes| && Valid() && contents == old(contents) + bytes[..i]
      {
        Put(bytes[i]);
        i := i + 1;
      }
      assert bytes[..i] == bytes;
    }
  }

  /** Continues a length from `src[at..limit]`: the sum and where it ends. */
  method ReadExtension(src: seq<byte>, at: nat, limit: nat, base: nat) returns (ok: bool, sum: nat, next: nat)
    requires at <= limit <= |src|
    ensures ok ==> at <= next <= limit && ReadLength(src[at..limit], base) == Some(Read(sum, src[next..limit]))
    ensures !ok ==> ReadLength(src[at..limit], base).None?
  {
    ok, sum, next := true, base, at;
    while true
      invariant at <= next <= limit && ok
      invariant ReadLength(src[at..limit], base) == ReadLength(src[next..limit], sum)
      decreases limit - next
    {
      if next >= limit { return false, sum, next; }
      var extension := src[next];
      assert src[next..limit][0] == extension && src[next..limit][1..] == src[next + 1..limit];
      next := next + 1;
      if U64_MAX - sum < extension { return false, sum, next; }
      sum := sum + extension;
      if extension != 255 { return; }
    }
  }

  method ReadNibble(src: seq<byte>, at: nat, limit: nat, nibble: nat, base: nat) returns (ok: bool, sum: nat, next: nat)
    requires at <= limit <= |src|
    ensures ok ==> at <= next <= limit && ReadField(nibble, base, src[at..limit]) == Some(Read(sum, src[next..limit]))
    ensures !ok ==> ReadField(nibble, base, src[at..limit]).None?
  {
    ok, sum, next := true, base + nibble, at;
    if nibble == 15 {
      ok, sum, next := ReadExtension(src, at, limit, sum);
    }
  }

  /** Token and literal length at `src[at..end]`; the literals stand at `src[next..next + lits]`. */
  method ReadFront(src: seq<byte>, at: nat, end: nat, room: nat) returns (ok: bool, nibble: nat, lits: nat, next: nat)
    requires at < end <= |src|
    ensures ok ==> at < next && next + lits <= end && lits <= room
    ensures ReadLiterals(src[at..end], room) ==
            if ok then Some(Literals(src[next..next + lits], nibble, src[next + lits..end])) else None
  {
    ghost var b := src[at..end];
    var token := src[at];
    nibble := token % 16;
    assert b[0] == token && b[1..] == src[at + 1..end];
    ok, lits, next := ReadNibble(src, at + 1, end, token / 16, 0);
    if !ok || lits > room || lits > end - next { return false, nibble, lits, next; }
    assert src[next..end][..lits] == src[next..next + lits] && src[next..end][lits..] == src[next + lits..end];
  }

  lemma {:induction false} DecoderReads(d: Decoder, b: seq<byte>, out: seq<byte>, start: nat, target: nat)
    requires Decodes(d, start, target) && b != [] && start <= |out| < target
    ensures var l := ReadLiterals(b, target - |out|);
            d.block(b, out) == if l.None? then None else d.after(l.value.nibble, l.value.rest, out + l.value.lits)
  {
    assert AtToken(b, out);
    var l := ReadLiterals(b, target - |out|);
    if l.Some? { assert AtMatch(l.value.nibble, l.value.rest, out + l.value.lits); }
  }

  lemma {:induction false} DecoderReadsMatch(d: Decoder, nibble: nat, b: seq<byte>, out: seq<byte>, start: nat,
                                             target: nat)
    requires Decodes(d, start, target) && start <= |out| < target
    ensures var m := ReadMatch(nibble, b, |out| - start, target - |out|);
            d.after(nibble, b, out)
            == if m.None? then None else d.block(m.value.rest, Copy(out, m.value.offset, m.value.length))
  {
    assert AtMatch(nibble, b, out);
    var m := ReadMatch(nibble, b, |out| - start, target - |out|);
    if m.Some? { assert AtToken(m.value.rest, Copy(out, m.value.offset, m.value.length)); }
  }

  /** The end of a block: no bytes left, or no room left. */
  lemma {:induction false} DecoderEnds(d: Decoder, b: seq<byte>, out: seq<byte>, start: nat, target: nat)
    requires Decodes(d, start, target) && start <= |out| <= target
    ensures b == [] || |out| == target ==> d.block(b, out) == if b == [] && |out| == target then Some(out) else None
    ensures |out| == target ==> forall n: nat :: d.after(n, b, out) == if b == [] then Some(out) else None
  {
    assert AtToken(b, out);
    if |out| == target {
      forall n: nat ensures d.after(n, b, out) == if b == [] then Some(out) else None { assert AtMatch(n, b, out); }
    }
  }

  /** Decodes token and literals at `src[at..end]`. */
  method DecodeFront(src: seq<byte>, at: nat, end: nat, output: DecodeOutput, ghost start: nat, target: nat,
                     ghost d: Decoder)
    returns (ok: bool, nibble: nat, next: nat)
    requires at < end <= |src| && output.Valid() && start <= output.produced < target && Decodes(d, start, target)
    modifies output, output.history, output.data
    ensures output.Valid() && (ok ==> at < next <= end && start <= output.produced <= target)
    ensures !ok ==> d.block(src[at..end], old(output.contents)).None?
    ensures ok ==> d.block(src[at..end], old(output.contents)) == d.after(nibble, src[next..end], output.contents)
  {
    DecoderReads(d, src[at..end], output.contents, start, target);
    var lits;
    ok, nibble, lits, next := ReadFront(src, at, end, target - output.produced);
    if !ok { return; }
    output.PutAll(src[next..next + lits]);
    next := next + lits;
  }

  /** Offset and length of the match at `src[at..end]`. */
  method ReadBack(src: seq<byte>, at: nat, end: nat, nibble: nat, reach: nat, room: nat)
    returns (ok: bool, offset: nat, length: nat, next: nat)
    requires at <= end <= |src|
    ensures ok ==> at < next <= end && 1 <= offset <= WINDOW && offset <= reach && length <= room
    ensures ReadMatch(nibble, src[at..end], reach, room)
            == if ok then Some(Match(offset, length, src[next..end])) else None
  {
    ok, offset, length, next := false, 0, 0, at;
    if end - at < 2 { return; }
    ghost var b := src[at..end];
    offset := ReadLe(src[at..end], 2);
    assert b[2..] == src[at + 2..end];
    if offset == 0 || offset > WINDOW || offset > reach { return; }
    ok, length, next := ReadNibble(src, at + 2, end, nibble, MIN_MATCH);
    if length > room { ok := false; }
  }

  /** Decodes the match part of a sequence. */
  method DecodeBack(src: seq<byte>, at: nat, end: nat, nibble: nat, output: DecodeOutput, start: nat, target: nat,
                    ghost d: Decoder)
    returns (ok: bool, next: nat)
    requires at <= end <= |src| && output.Valid() && start <= output.produced < target && Decodes(d, start, target)
    modifies output, output.history, output.data
    ensures output.Valid() && (ok ==> at < next <= end && start <= output.produced <= target)
    ensures !ok ==> d.after(nibble, src[at..end], old(output.contents)).None?
    ensures ok ==> d.after(nibble, src[at..end], old(output.contents)) == d.block(src[next..end], output.contents)
  {
    DecoderReadsMatch(d, nibble, src[at..end], output.contents, start, target);
    var offset, length;
    ok, offset, length, next := ReadBack(src, at, end, nibble, output.produced - start, target - output.produced);
    if ok { output.PutMatch(offset, length); }
  }

  /** One block: `src[at..end]` has to yield exactly the bytes up to `target`.  A sequence is its
      literals and, unless the block is complete by then, its match. */
  method DecodeBlockAt(src: seq<byte>, at: nat, end: nat, output: DecodeOutput, target: nat) returns (ok: bool)
    requires at <= end <= |src| && output.Valid() && output.produced <= target
    modifies output, output.history, output.data
    ensures output.Valid()
    ensures Decode(src[at..end], old(output.contents), old(output.produced), target) ==
            if ok then Some(output.contents) else None
  {
    var start, next := output.produced, at;
    ghost var d := ADecoder(src[at..end], output.contents, start, target);
    ghost var goal := d.block(src[at..end], output.contents);
    while next < end && output.produced < target
      invariant at <= next <= end && output.Valid() && start <= output.produced <= target
      invariant Decodes(d, start, target) && d.block(src[next..end], output.contents) == goal
      decreases end - next
    {
      var nibble;
      ok, nibble, next := DecodeFront(src, next, end, output, start, target, d);
      if !ok { return; }
      if output.produced == target {
        DecoderEnds(d, src[next..end], output.contents, start, target);
        return next == end;
      }
      ok, next := DecodeBack(src, next, end, nibble, output, start, target, d);
      if !ok { return; }
    }
    DecoderEnds(d, src[next..end], output.contents, start, target);
    ok := output.produced == target && next == end;
  }

  /** The frame at `src[at..]`: plain size, and where its block begins and ends. */
  method ReadFrameHead(src: seq<byte>, at: nat, room: nat) returns (ok: bool, plain: nat, from: nat, to: nat)
    requires at <= |src|
    ensures ok ==> at < from <= to <= |src| && 0 < plain <= room
    ensures ReadHead(src[at..], room) == if ok then Some(Head(plain, src[from..to], src[to..])) else None
  {
    ok, plain, from, to := false, 0, at, at;
    if |src| - at < 8 { return; }
    plain := ReadLe(src[at..], 4);
    var packed := ReadLe(src[at + 4..], 4);
    assert src[at..][4..] == src[at + 4..] && src[at..][8..] == src[at + 8..];
    from := at + 8;
    if plain == 0 || packed == 0 || plain > room || packed > |src| - from { return; }
    assert src[from..][..packed] == src[from..from + packed] && src[from..][packed..] == src[from + packed..];
    ok, to := true, from + packed;
  }

  /** One framed block of the archive at `src[at..]`. */
  method DecodeFrame(src: seq<byte>, at: nat, output: DecodeOutput, total: nat,
                     ghost k: (seq<byte>, seq<byte>) -> Option<seq<byte>>)
    returns (ok: bool, next: nat)
    requires at <= |src| && output.Valid() && output.produced < total && Reads(k, total)
    modifies output, output.history, output.data
    ensures output.Valid() && (ok ==> at < next <= |src| && output.produced <= total)
    ensures k(src[at..], old(output.contents)) == if ok then k(src[next..], output.contents) else None
  {
    ghost var b, out := src[at..], output.contents;
    var plain, from;
    ok, plain, from, next := ReadFrameHead(src, at, total - output.produced);
    if ok {
      ok := DecodeBlockAt(src, from, next, output, output.produced + plain);
      FrameRead(k, b, out, total, Head(plain, src[from..next], src[next..]),
                if ok then Some(output.contents) else None);
    } else {
      ReaderStep(k, b, out, total);
    }
  }

  lemma {:induction false} FrameRead(k: (seq<byte>, seq<byte>) -> Option<seq<byte>>, b: seq<byte>, out: seq<byte>,
                                     total: nat,
                                     h: Head, d: Option<seq<byte>>)
    requires Reads(k, total) && |out| < total && ReadHead(b, total - |out|) == Some(h)
    requires Decode(h.block, out, |out|, |out| + h.plain) == d
    ensures k(b, out) == if d.None? then None else k(h.rest, d.value)
  {
    ReaderStep(k, b, out, total);
  }

  method DecodeFrames(src: seq<byte>, total: nat) returns (r: Option<seq<byte>>)
    requires |src| >= 8
    ensures r == ReadBlocks(src[8..], [], total)
  {
    ghost var k := AReader(src[8..], total);
    var output := new DecodeOutput();
    var at := 8;
    while output.produced < total
      invariant 8 <= at <= |src| && output.Valid() && output.produced <= total
      invariant fresh(output) && fresh(output.history) && fresh(output.data)
      invariant Reads(k, total) && k(src[8..], []) == k(src[at..], output.contents)
      decreases |src| - at
    {
      var ok;
      ok, at := DecodeFrame(src, at, output, total, k);
      if !ok { return None; }
    }
    assert AtFrame(src[at..], output.contents);
    if at != |src| { return None; }
    r := Some(output.file + output.data[..output.length]);
  }

  method DecodeBare(src: seq<byte>, total: nat) returns (r: Option<seq<byte>>)
    requires |src| >= 4
    ensures r == Decode(src[4..], [], 0, total)
  {
    var output := new DecodeOutput();
    var ok := DecodeBlockAt(src, 4, |src|, output, total);
    assert src[4..|src|] == src[4..];
    r := if ok then Some(output.file + output.data[..output.length]) else None;
  }

  /** The whole archive. */
  method DecompressArchive(src: seq<byte>) returns (r: Option<seq<byte>>)
    ensures r == Decompress(src)
  {
    if |src| < 4 { return None; }
    var total := ReadLe(src, 4);
    var framed := |src| >= 8 && src[4..8] == MARKER;
    if total == 0 {
      r := if |src| == (if framed then 8 else 4) then Some([]) else None;
    } else if framed {
      r := DecodeFrames(src, total);
    } else {
      r := DecodeBare(src, total);
    }
  }

  /** From the build script's compressor through the kernel's decompressor: the data comes back. */
  method PackAndUnpack(data: seq<byte>) returns (r: Option<seq<byte>>)
    requires |data| < U32
    ensures r == Some(data)
  {
    var archive := CompressData(data);
    r := DecompressArchive(archive.value);
  }
}
