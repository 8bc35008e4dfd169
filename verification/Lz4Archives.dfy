/** What the kernel takes for an archive: a size, and the blocks that stand for that much data. */
module Lz4Archives {
  import opened Basics
  import opened Lz4Format
  import opened Lz4Accepts
  import opened Lz4Container

  /** A block and what it stands for. */
  datatype Part = Part(plain: seq<byte>, block: seq<byte>)

  ghost predicate PartFine(p: Part)
  {
    0 < |p.plain| < U32 && |p.block| < U32 && IsBlock(p.block, p.plain)
  }

  ghost predicate AllFine(ps: seq<Part>)
  {
    ps == [] || (PartFine(ps[0]) && AllFine(ps[1..]))
  }

  /** The blocks with their headers. */
  ghost function Text(ps: seq<Part>): (b: seq<byte>)
    requires AllFine(ps)
  {
    if ps == [] then [] else Frame(|ps[0].plain|, ps[0].block) + Text(ps[1..])
  }

  ghost function Plain(ps: seq<Part>): (plain: seq<byte>)
  {
    if ps == [] then [] else ps[0].plain + Plain(ps[1..])
  }

  ghost predicate FramedWith(src: seq<byte>, data: seq<byte>, ps: seq<Part>)
  {
    AllFine(ps) && data == Plain(ps) && src == Le(|data|, 4) + (MARKER + Text(ps))
  }

  /** A size with the marker and framed blocks, or without it and with one bare block. */
  ghost predicate IsArchive(src: seq<byte>, data: seq<byte>)
  {
    && |data| < U32
    && ((exists ps: seq<Part> :: FramedWith(src, data, ps))
        || (!Framed(src) && exists block: seq<byte> :: BareWith(src, data, block)))
  }

  ghost predicate BareWith(src: seq<byte>, data: seq<byte>, block: seq<byte>)
  {
    src == Le(|data|, 4) + block && IsBlock(block, data)
  }

  type Reader = (seq<byte>, seq<byte>) -> Option<seq<byte>>

  // ----- frames -----

  lemma {:induction false} Cut4(b: seq<byte>)
    requires |b| >= 4
    ensures b == Le(ReadLe(b, 4), 4) + b[4..] && ReadLe(b, 4) < U32
  {
    LeBack(b, 4);
    assert Pow256(4) == 256 * Pow256(3) == 65536 * Pow256(2) == U32;
    assert b == b[..4] + b[4..];
  }

  lemma {:induction false} Joined4(b: seq<byte>, c: seq<byte>, x: seq<byte>, y: seq<byte>, block: seq<byte>,
                                   more: seq<byte>)
    requires b == x + c && c == y + (block + more)
    ensures b == x + (y + block) + more
  {
    Assoc(y, block, more);
    Assoc(x, y + block, more);
  }

  lemma {:induction false} Eight(b: seq<byte>)
    requires |b| >= 8
    ensures b[4..][4..] == b[8..]
  {
  }

  lemma {:induction false} HeadFrom(b: seq<byte>, c: seq<byte>, rest: seq<byte>, block: seq<byte>, more: seq<byte>)
    requires |b| >= 4 && c == b[4..] && |c| >= 4 && rest == c[4..] && rest == block + more
    requires |block| == ReadLe(c, 4)
    ensures ReadLe(b, 4) < U32 && |block| < U32 && b == Frame(ReadLe(b, 4), block) + more
  {
    Cut4(b);
    Cut4(c);
    Joined4(b, c, Le(ReadLe(b, 4), 4), Le(|block|, 4), block, more);
  }

  lemma {:induction false} HeadBack(b: seq<byte>, room: nat, h: Head)
    requires ReadHead(b, room) == Some(h)
    ensures 0 < h.plain < U32 && |h.block| < U32 && b == Frame(h.plain, h.block) + h.rest
  {
    Eight(b);
    assert b[8..] == h.block + h.rest;
    HeadFrom(b, b[4..], b[8..], h.block, h.rest);
  }

  lemma {:induction false} PartFirst(p: Part, ps: seq<Part>, b: seq<byte>, rest: seq<byte>, out: seq<byte>)
    requires PartFine(p) && AllFine(ps) && b == Frame(|p.plain|, p.block) + rest && rest == Text(ps)
    ensures AllFine([p] + ps) && b == Text([p] + ps) && out + p.plain + Plain(ps) == out + Plain([p] + ps)
  {
    assert ([p] + ps)[1..] == ps;
    Assoc(out, p.plain, Plain(ps));
  }

  lemma {:induction false} HeadRead(k: Reader, b: seq<byte>, out: seq<byte>, total: nat, r: seq<byte>)
      returns (h: Head, d: seq<byte>, target: nat)
    requires Reads(k, total) && |out| < total && k(b, out) == Some(r)
    ensures ReadHead(b, total - |out|) == Some(h) && target == |out| + h.plain <= total && |h.rest| < |b|
    ensures Decode(h.block, out, |out|, target) == Some(d) && k(h.rest, d) == Some(r)
  {
    ReaderStep(k, b, out, total);
    h := ReadHead(b, total - |out|).value;
    target := |out| + h.plain;
    d := Decode(h.block, out, |out|, target).value;
  }

  lemma {:induction false} PartBack(h: Head, out: seq<byte>, target: nat, d: seq<byte>) returns (p: Part)
    requires 0 < h.plain < U32 && |h.block| < U32 && target == |out| + h.plain <= U64_MAX
    requires Decode(h.block, out, |out|, target) == Some(d)
    ensures PartFine(p) && p.block == h.block && |p.plain| == h.plain && d == out + p.plain
  {
    var plain := AcceptedBlock(h.block, out, target, d);
    p := Part(plain, h.block);
  }

  lemma {:induction false} ReadStepBack(k: Reader, b: seq<byte>, out: seq<byte>, total: nat, r: seq<byte>)
      returns (p: Part, rest: seq<byte>)
    requires Reads(k, total) && |out| < total < U32 && k(b, out) == Some(r)
    ensures PartFine(p) && b == Frame(|p.plain|, p.block) + rest && |rest| < |b| && |out + p.plain| <= total
    ensures k(rest, out + p.plain) == Some(r)
  {
    var h, d, target := HeadRead(k, b, out, total, r);
    HeadBack(b, total - |out|, h);
    p := PartBack(h, out, target, d);
    rest := h.rest;
  }

  /** Blocks that are read were framed. */
  lemma {:induction false} ReadsBack(k: Reader, b: seq<byte>, out: seq<byte>, total: nat, r: seq<byte>)
      returns (ps: seq<Part>)
    requires Reads(k, total) && |out| <= total < U32 && k(b, out) == Some(r)
    ensures AllFine(ps) && b == Text(ps) && r == out + Plain(ps) && |r| == total
    decreases |b|
  {
    if |out| == total {
      ps := [];
      assert AtFrame(b, out);
      assert out + [] == out;
    } else {
      var p, rest := ReadStepBack(k, b, out, total, r);
      var more := ReadsBack(k, rest, out + p.plain, total, r);
      PartFirst(p, more, b, rest, out);
      ps := [p] + more;
    }
  }

  lemma {:induction false} NotEmpty(p: Part)
    requires PartFine(p)
    ensures p.block != []
  {
    BlockGives(p.block, p.plain, |p.plain|);
  }

  /** One framed block is read. */
  lemma {:induction false} ReadsPart(k: Reader, p: Part, rest: seq<byte>, out: seq<byte>, total: nat)
    requires Reads(k, total) && PartFine(p) && |out| + |p.plain| <= total < U32
    ensures k(Frame(|p.plain|, p.block) + rest, out) == k(rest, out + p.plain)
  {
    NotEmpty(p);
    DecodesIff(p.block, out, p.plain, |out| + |p.plain|);
    ReadsFrame(k, |p.plain|, p.block, rest, out, out + p.plain, total);
  }

  /** Framed blocks are read. */
  lemma {:induction false} ReadsAll(k: Reader, ps: seq<Part>, out: seq<byte>, total: nat)
    requires Reads(k, total) && AllFine(ps) && |out| + |Plain(ps)| == total < U32
    ensures k(Text(ps), out) == Some(out + Plain(ps))
    decreases |ps|
  {
    if ps == [] {
      assert AtFrame([], out);
      assert out + [] == out;
    } else {
      ReadsPart(k, ps[0], Text(ps[1..]), out, total);
      ReadsAll(k, ps[1..], out + ps[0].plain, total);
      Assoc(out, ps[0].plain, Plain(ps[1..]));
    }
  }

  // ----- archives -----

  lemma {:induction false} SizeRead(n: nat, rest: seq<byte>)
    requires n < U32
    ensures var src := Le(n, 4) + rest; |src| >= 4 && ReadLe(src, 4) == n && src[4..] == rest
  {
    assert Pow256(4) == 256 * Pow256(3) == 65536 * Pow256(2) == U32;
    ReadLeOf(n, 4, rest);
  }

  lemma {:induction false} MarkerRead(n: nat, text: seq<byte>)
    requires n < U32
    ensures var src := Le(n, 4) + (MARKER + text);
            Framed(src) && ReadLe(src, 4) == n && src[8..] == text && |src| == 8 + |text|
  {
    var src := Le(n, 4) + (MARKER + text);
    SizeRead(n, MARKER + text);
    assert src[4..8] == (MARKER + text)[..4] == MARKER;
    assert src[8..] == (MARKER + text)[4..] == text;
  }

  lemma {:induction false} FramedAccepted(src: seq<byte>, data: seq<byte>, ps: seq<Part>)
    requires |data| < U32 && FramedWith(src, data, ps)
    ensures Decompress(src) == Some(data)
  {
    MarkerRead(|data|, Text(ps));
    assert [] + data == data;
    if data == [] {
      assert ps == [];
    } else {
      var k := AReader(Text(ps), |data|);
      ReadsAll(k, ps, [], |data|);
    }
  }

  lemma {:induction false} BareAccepted(src: seq<byte>, data: seq<byte>, block: seq<byte>)
    requires |data| < U32 && !Framed(src) && BareWith(src, data, block)
    ensures Decompress(src) == Some(data)
  {
    SizeRead(|data|, block);
    BlockGives(block, data, |data|);
  }

  lemma {:induction false} MarkerBack(src: seq<byte>)
    requires Framed(src)
    ensures ReadLe(src, 4) < U32 && src == Le(ReadLe(src, 4), 4) + (MARKER + src[8..])
  {
    Cut4(src);
    assert src[4..] == MARKER + src[8..];
  }

  lemma {:induction false} FramedBack(src: seq<byte>, data: seq<byte>) returns (ps: seq<Part>)
    requires Framed(src) && Decompress(src) == Some(data)
    ensures |data| < U32 && FramedWith(src, data, ps)
  {
    var total := ReadLe(src, 4);
    MarkerBack(src);
    if total == 0 {
      ps := [];
      assert src[8..] == [];
    } else {
      var k := AReader(src[8..], total);
      ps := ReadsBack(k, src[8..], [], total, data);
      assert [] + Plain(ps) == Plain(ps);
    }
  }

  lemma {:induction false} BareBack(src: seq<byte>, data: seq<byte>)
    requires !Framed(src) && Decompress(src) == Some(data)
    ensures |data| < U32 && BareWith(src, data, src[4..])
  {
    var total := ReadLe(src, 4);
    Cut4(src);
    if total == 0 {
      assert src[4..] == [];
      assert Spells([], [], [], NoTail);
    } else {
      var plain := AcceptedBlock(src[4..], [], total, data);
      assert [] + plain == plain;
    }
  }

  /** The kernel accepts exactly the archives, and gives what they stand for. */
  lemma {:induction false} DecompressIff(src: seq<byte>, data: seq<byte>)
    ensures Decompress(src) == Some(data) <==> IsArchive(src, data)
  {
    if IsArchive(src, data) {
      if ps :| FramedWith(src, data, ps) {
        FramedAccepted(src, data, ps);
      } else {
        var block :| BareWith(src, data, block);
        BareAccepted(src, data, block);
      }
    } else if Decompress(src) == Some(data) {
      if Framed(src) {
        var ps := FramedBack(src, data);
      } else {
        BareBack(src, data);
      }
    }
  }
}
