/** The LZ4 block format: sequences of literals and back references, their byte encoding, and
    a decoder that reads the bytes back.

    A sequence is a token byte (two nibbles), the literal length and the literals, a two-byte
    little-endian offset and the match length; a nibble of 15 continues in further bytes.  The
    last sequence of a block stops after its literals.
 */
module Lz4Format {
  import opened Basics

  const MIN_MATCH: nat := 4
  const WINDOW: nat := 4096
  const U64_MAX: int := 0xFFFF_FFFF_FFFF_FFFF

  /** Literals, then a copy of `length` bytes from `offset` bytes back. */
  datatype Sequence = Sequence(lits: seq<byte>, offset: nat, length: nat)

  function Min(a: nat, b: nat): (m: nat)
  {
    if a < b then a else b
  }

  // ----- encoding -----

  function LengthBytes(n: nat): (b: seq<byte>)
  {
    if n >= 255 then [255] + LengthBytes(n - 255) else [n]
  }

  /** The bytes that continue a nibble of 15. */
  function Extension(n: nat): (b: seq<byte>)
  {
    if n >= 15 then LengthBytes(n - 15) else []
  }

  function Token(lits: nat, match': nat): (t: byte)
  {
    Min(lits, 15) * 16 + Min(match', 15)
  }

  /** `n` in `k` bytes, little-endian. */
  function Le(n: nat, k: nat): (b: seq<byte>)
    ensures |b| == k
  {
    if k == 0 then [] else [n % 256] + Le(n / 256, k - 1)
  }

  /** The number in the first `k` bytes. */
  function ReadLe(b: seq<byte>, k: nat): (n: nat)
    requires k <= |b|
  {
    if k == 0 then 0 else (b[0] as int) + 256 * ReadLe(b[1..], k - 1)
  }

  function Pow256(k: nat): (p: nat)
  {
    if k == 0 then 1 else 256 * Pow256(k - 1)
  }

  lemma {:induction false} ReadLeOf(n: nat, k: nat, rest: seq<byte>)
    requires n < Pow256(k)
    ensures ReadLe(Le(n, k) + rest, k) == n && (Le(n, k) + rest)[k..] == rest
    decreases k
  {
    if k == 0 {
      assert Le(n, k) + rest == rest;
    } else {
      var b := Le(n, k) + rest;
      assert b[1..] == Le(n / 256, k - 1) + rest;
      ReadLeOf(n / 256, k - 1, rest);
    }
  }

  /** Token, literal length and literals. */
  function EncodeLiterals(lits: seq<byte>, match': nat): (b: seq<byte>)
  {
    [Token(|lits|, match')] + Extension(|lits|) + lits
  }

  function EncodeMatch(offset: nat, length: nat): (b: seq<byte>)
    requires length >= MIN_MATCH
  {
    Le(offset, 2) + Extension(length - MIN_MATCH)
  }

  predicate Encodable(s: Sequence)
  {
    1 <= s.offset <= WINDOW && s.length >= MIN_MATCH
  }

  function EncodeSequence(s: Sequence): (b: seq<byte>)
    requires Encodable(s)
  {
    EncodeLiterals(s.lits, s.length - MIN_MATCH) + EncodeMatch(s.offset, s.length)
  }

  function EncodeSequences(ss: seq<Sequence>): (b: seq<byte>)
    requires Reaches(ss)
  {
    if ss == [] then [] else EncodeSequences(ss[..|ss| - 1]) + EncodeSequence(ss[|ss| - 1])
  }

  // ----- meaning -----

  /** Copying byte by byte, so that the copied bytes can themselves be copied. */
  function Copy(out: seq<byte>, offset: nat, length: nat): (r: seq<byte>)
    requires 1 <= offset <= |out|
    ensures |r| == |out| + length
    decreases length
  {
    if length == 0 then out else Copy(out + [out[|out| - offset]], offset, length - 1)
  }

  /** Bytes the sequences produce. */
  function Produced(ss: seq<Sequence>): (n: nat)
  {
    if ss == [] then 0
    else
      var last := ss[|ss| - 1];
      Produced(ss[..|ss| - 1]) + |last.lits| + last.length
  }

  /** The sequences can be encoded and reach only into bytes already produced. */
  predicate Reaches(ss: seq<Sequence>)
  {
    ss == [] ||
    var last := ss[|ss| - 1];
    Reaches(ss[..|ss| - 1]) && Encodable(last) && last.offset <= Produced(ss[..|ss| - 1]) + |last.lits|
  }

  function Expand(ss: seq<Sequence>): (out: seq<byte>)
    requires Reaches(ss)
    ensures |out| == Produced(ss)
  {
    if ss == [] then []
    else
      var last := ss[|ss| - 1];
      Copy(Expand(ss[..|ss| - 1]) + last.lits, last.offset, last.length)
  }

  // ----- decoding -----

  datatype Read = Read(value: nat, rest: seq<byte>)

  function ReadLength(b: seq<byte>, sum: nat): (r: Option<Read>)
    ensures r.Some? ==> |r.value.rest| < |b|
  {
    if b == [] || sum + b[0] > U64_MAX then None
    else if b[0] == 255 then ReadLength(b[1..], sum + 255)
    else Some(Read(sum + b[0], b[1..]))
  }

  /** A nibble and what continues it. */
  function ReadField(nibble: nat, base: nat, b: seq<byte>): (r: Option<Read>)
    ensures r.Some? ==> |r.value.rest| <= |b|
  {
    if nibble == 15 then ReadLength(b, base + 15) else Some(Read(base + nibble, b))
  }

  datatype Literals = Literals(lits: seq<byte>, nibble: nat, rest: seq<byte>)

  /** Token, literal length and literals, of which at most `room` fit. */
  function ReadLiterals(b: seq<byte>, room: nat): (r: Option<Literals>)
    requires b != []
    ensures r.Some? ==> |r.value.rest| < |b| && |r.value.lits| <= room && r.value.nibble < 16
  {
    var l := ReadField(b[0] / 16, 0, b[1..]);
    if l.None? || l.value.value > room || l.value.value > |l.value.rest| then None
    else
      var n := l.value.value;
      Some(Literals(l.value.rest[..n], b[0] % 16, l.value.rest[n..]))
  }

  datatype Match = Match(offset: nat, length: nat, rest: seq<byte>)

  /** Offset, at most `reach` and at most the window, and match length, at most `room`. */
  function ReadMatch(nibble: nat, b: seq<byte>, reach: nat, room: nat): (r: Option<Match>)
    ensures r.Some? ==> 1 <= r.value.offset <= Min(WINDOW, reach) && r.value.length <= room && |r.value.rest| < |b|
  {
    if |b| < 2 then None
    else
      var offset := ReadLe(b, 2);
      if offset == 0 || offset > WINDOW || offset > reach then None
      else
        var m := ReadField(nibble, MIN_MATCH, b[2..]);
        if m.None? || m.value.value > room then None
        else Some(Match(offset, m.value.value, m.value.rest))
  }

  /** Decoding the rest of a block whose output began at `start` and has to end at `target`. */
  function Decode(b: seq<byte>, out: seq<byte>, start: nat, target: nat): (r: Option<seq<byte>>)
    requires start <= |out| <= target
    ensures r.Some? ==> |r.value| == target
    decreases |b|, 1
  {
    if b == [] || |out| == target then
      if b == [] && |out| == target then Some(out) else None
    else
      var l := ReadLiterals(b, target - |out|);
      if l.None? then None
      else DecodeMatch(l.value.nibble, l.value.rest, out + l.value.lits, start, target)
  }

  function DecodeMatch(nibble: nat, b: seq<byte>, out: seq<byte>, start: nat, target: nat): (r: Option<seq<byte>>)
    requires start <= |out| <= target
    ensures r.Some? ==> |r.value| == target
    decreases |b|, 2
  {
    if |out| == target then
      if b == [] then Some(out) else None
    else
      var m := ReadMatch(nibble, b, |out| - start, target - |out|);
      if m.None? then None
      else Decode(m.value.rest, Copy(out, m.value.offset, m.value.length), start, target)
  }

  // ----- decoding what was encoded -----

  lemma {:induction false} Assoc(a: seq<byte>, b: seq<byte>, c: seq<byte>)
    ensures a + b + c == a + (b + c)
  {
  }

  lemma {:induction false} SplitAt(a: seq<byte>, d: seq<byte>, i: nat)
    requires i <= |d|
    ensures a + d[..i] + d[i..] == a + d
  {
  }

  lemma {:induction false} ReadLengthBytes(n: nat, rest: seq<byte>, sum: nat)
    requires sum + n <= U64_MAX
    ensures ReadLength(LengthBytes(n) + rest, sum) == Some(Read(sum + n, rest))
    decreases n
  {
    var b := LengthBytes(n) + rest;
    if n >= 255 {
      ReadLengthBytes(n - 255, rest, sum + 255);
      assert b[1..] == LengthBytes(n - 255) + rest;
    } else {
      assert b[1..] == rest;
    }
  }

  lemma {:induction false} ReadFieldOf(n: nat, base: nat, rest: seq<byte>)
    requires base + n <= U64_MAX
    ensures ReadField(Min(n, 15), base, Extension(n) + rest) == Some(Read(base + n, rest))
  {
    if n >= 15 {
      ReadLengthBytes(n - 15, rest, base + 15);
    } else {
      assert Extension(n) + rest == rest;
    }
  }

  lemma {:induction false} TokenNibbles(lits: nat, match': nat)
    ensures Token(lits, match') / 16 == Min(lits, 15) && Token(lits, match') % 16 == Min(match', 15)
  {
  }

  lemma {:induction false} ReadLiteralsOf(lits: seq<byte>, match': nat, rest: seq<byte>, room: nat)
    requires |lits| <= room <= U64_MAX
    ensures ReadLiterals(EncodeLiterals(lits, match') + rest, room) == Some(Literals(lits, Min(match', 15), rest))
  {
    var b := EncodeLiterals(lits, match') + rest;
    assert b[1..] == Extension(|lits|) + (lits + rest);
    TokenNibbles(|lits|, match');
    ReadFieldOf(|lits|, 0, lits + rest);
    assert (lits + rest)[..|lits|] == lits && (lits + rest)[|lits|..] == rest;
  }

  lemma {:induction false} ReadMatchOf(offset: nat, length: nat, rest: seq<byte>, reach: nat, room: nat)
    requires 1 <= offset <= Min(WINDOW, reach) && MIN_MATCH <= length <= room <= U64_MAX
    ensures ReadMatch(Min(length - MIN_MATCH, 15), EncodeMatch(offset, length) + rest, reach, room) ==
            Some(Match(offset, length, rest))
  {
    Assoc(Le(offset, 2), Extension(length - MIN_MATCH), rest);
    assert offset < 65536 == Pow256(2);
    ReadLeOf(offset, 2, Extension(length - MIN_MATCH) + rest);
    ReadFieldOf(length - MIN_MATCH, MIN_MATCH, rest);
  }

  /** The two halves of the decoder as values: `block` expects a token, `after` what follows the
      literals. */
  datatype Decoder = Decoder(
    block: (seq<byte>, seq<byte>) -> Option<seq<byte>>,
    after: (nat, seq<byte>, seq<byte>) -> Option<seq<byte>>)

  /** `d` decodes a block from `start` to `target`.  The equations are used only where a mark is
      mentioned, so that proofs unfold exactly the places they name. */
  ghost predicate Decodes(d: Decoder, start: nat, target: nat)
  {
    && (forall b: seq<byte>, out: seq<byte> {:trigger AtToken(b, out)} ::
          AtToken(b, out) && start <= |out| <= target ==> d.block(b, out) == Decode(b, out, start, target))
    && (forall nibble: nat, b: seq<byte>, out: seq<byte> {:trigger AtMatch(nibble, b, out)} ::
          AtMatch(nibble, b, out) && start <= |out| <= target ==>
          d.after(nibble, b, out) == DecodeMatch(nibble, b, out, start, target))
  }

  ghost predicate AtToken(b: seq<byte>, out: seq<byte>) { true }

  ghost predicate AtMatch(nibble: nat, b: seq<byte>, out: seq<byte>) { true }

  lemma {:induction false} ADecoder(b: seq<byte>, out: seq<byte>, start: nat, target: nat) returns (d: Decoder)
    requires start <= |out| <= target
    ensures Decodes(d, start, target) && d.block(b, out) == Decode(b, out, start, target)
  {
    d := Decoder(
      (b: seq<byte>, out: seq<byte>) => if start <= |out| <= target then Decode(b, out, start, target) else None,
      (nibble: nat, b: seq<byte>, out: seq<byte>) =>
        if start <= |out| <= target then DecodeMatch(nibble, b, out, start, target) else None);
  }

  lemma {:induction false} DecoderLiterals(d: Decoder, lits: seq<byte>, match': nat, rest: seq<byte>, out: seq<byte>,
                                           start: nat, target: nat)
    requires Decodes(d, start, target)
    requires start <= |out| < target <= U64_MAX && |out| + |lits| <= target
    ensures d.block(EncodeLiterals(lits, match') + rest, out) == d.after(Min(match', 15), rest, out + lits)
  {
    assert AtToken(EncodeLiterals(lits, match') + rest, out);
    assert AtMatch(Min(match', 15), rest, out + lits);
    ReadLiteralsOf(lits, match', rest, target - |out|);
  }

  /** There is room for `s` behind `out`, and `s` reaches no further back than `start`. */
  predicate Fits(s: Sequence, out: seq<byte>, start: nat, target: nat)
  {
    && Encodable(s) && start <= |out| && |out| + |s.lits| + s.length <= target <= U64_MAX
    && s.offset <= |out| + |s.lits| - start
  }

  lemma {:induction false} DecoderSequenceLiterals(d: Decoder, s: Sequence, rest: seq<byte>, out: seq<byte>,
                                                   start: nat, target: nat)
    requires Decodes(d, start, target) && Fits(s, out, start, target)
    ensures d.block(EncodeLiterals(s.lits, s.length - MIN_MATCH) + rest, out) ==
            d.after(Min(s.length - MIN_MATCH, 15), rest, out + s.lits)
  {
    DecoderLiterals(d, s.lits, s.length - MIN_MATCH, rest, out, start, target);
  }

  lemma {:induction false} DecoderMatch(d: Decoder, s: Sequence, rest: seq<byte>, out: seq<byte>, start: nat,
                                        target: nat)
    requires Decodes(d, start, target) && Fits(s, out, start, target)
    ensures d.after(Min(s.length - MIN_MATCH, 15), EncodeMatch(s.offset, s.length) + rest, out + s.lits) ==
            d.block(rest, Copy(out + s.lits, s.offset, s.length))
  {
    var mid := out + s.lits;
    assert AtMatch(Min(s.length - MIN_MATCH, 15), EncodeMatch(s.offset, s.length) + rest, mid);
    assert AtToken(rest, Copy(mid, s.offset, s.length));
    ReadMatchOf(s.offset, s.length, rest, |mid| - start, target - |mid|);
  }

  /** A whole sequence in front of `rest`. */
  lemma {:induction false} DecodeSequence(d: Decoder, s: Sequence, rest: seq<byte>, out: seq<byte>, start: nat,
                                          target: nat)
    requires Decodes(d, start, target) && Fits(s, out, start, target)
    ensures d.block(EncodeSequence(s) + rest, out) == d.block(rest, Copy(out + s.lits, s.offset, s.length))
  {
    Assoc(EncodeLiterals(s.lits, s.length - MIN_MATCH), EncodeMatch(s.offset, s.length), rest);
    DecoderSequenceLiterals(d, s, EncodeMatch(s.offset, s.length) + rest, out, start, target);
    DecoderMatch(d, s, rest, out, start, target);
  }

  /** A copy does not see what stands before the block. */
  lemma {:induction false} CopyPrefix(a: seq<byte>, out: seq<byte>, offset: nat, length: nat)
    requires 1 <= offset <= |out|
    ensures Copy(a + out, offset, length) == a + Copy(out, offset, length)
    decreases length
  {
    if length > 0 {
      var x := out[|out| - offset];
      assert (a + out)[|a + out| - offset] == x;
      assert a + out + [x] == a + (out + [x]);
      CopyPrefix(a, out + [x], offset, length - 1);
    }
  }

  /** Decoding all sequences of a block, whatever stood in the output before it. */
  lemma {:induction false} DecodeSequences(d: Decoder, ss: seq<Sequence>, rest: seq<byte>,
                                           before: seq<byte>, target: nat)
    requires Decodes(d, |before|, target)
    requires Reaches(ss)
    requires |before| + Produced(ss) <= target <= U64_MAX
    ensures d.block(EncodeSequences(ss) + rest, before) == d.block(rest, before + Expand(ss))
    decreases |ss|
  {
    if ss == [] {
      assert EncodeSequences(ss) + rest == rest && before + Expand(ss) == before;
    } else {
      var init, last := ss[..|ss| - 1], ss[|ss| - 1];
      var out := Expand(init);
      Assoc(EncodeSequences(init), EncodeSequence(last), rest);
      DecodeSequences(d, init, EncodeSequence(last) + rest, before, target);
      Assoc(before, out, last.lits);
      DecodeSequence(d, last, rest, before + out, |before|, target);
      CopyPrefix(before, out + last.lits, last.offset, last.length);
    }
  }

  /** The literals that end a block. */
  lemma {:induction false} DecodeTail(d: Decoder, tail: seq<byte>, out: seq<byte>, start: nat, target: nat)
    requires Decodes(d, start, target) && tail != [] && start <= |out| && |out| + |tail| == target <= U64_MAX
    ensures d.block(EncodeLiterals(tail, 0), out) == Some(out + tail)
  {
    assert EncodeLiterals(tail, 0) + [] == EncodeLiterals(tail, 0);
    DecoderLiterals(d, tail, 0, [], out, start, target);
    assert AtMatch(0, [], out + tail);
  }

  lemma {:induction false} DecoderBlock(d: Decoder, data: seq<byte>, ss: seq<Sequence>, anchor: nat, before: seq<byte>,
                                        target: nat)
    requires Reaches(ss) && anchor < |data| && Expand(ss) == data[..anchor] && |before| + |data| == target <= U64_MAX
    requires Decodes(d, |before|, target)
    ensures d.block(EncodeSequences(ss) + EncodeLiterals(data[anchor..], 0), before) == Some(before + data)
  {
    DecodeSequences(d, ss, EncodeLiterals(data[anchor..], 0), before, target);
    DecodeTail(d, data[anchor..], before + data[..anchor], |before|, target);
    SplitAt(before, data, anchor);
  }

  /** The round trip of a block: sequences that spell `data` up to `anchor`, then the remaining
      bytes as literals, decode to `data`. */
  lemma {:induction false} DecodeBlock(data: seq<byte>, ss: seq<Sequence>, anchor: nat, before: seq<byte>)
    requires Reaches(ss) && anchor < |data| && Expand(ss) == data[..anchor] && |before| + |data| <= U64_MAX
    ensures Decode(EncodeSequences(ss) + EncodeLiterals(data[anchor..], 0), before, |before|, |before| + |data|) ==
            Some(before + data)
  {
    var bytes := EncodeSequences(ss) + EncodeLiterals(data[anchor..], 0);
    var target := |before| + |data|;
    assert Decode(bytes, before, |before|, target) == Some(before + data) by {
      var d := ADecoder(bytes, before, |before|, target);
      DecoderBlock(d, data, ss, anchor, before, target);
    }
  }
}
