/** What the decoder accepts: encodings of sequences, and nothing else. */
module Lz4Accepts {
  import opened Basics
  import opened Lz4Format

  /** How a block ends: behind a match, or with literals, whose token holds a nibble nobody reads. */
  datatype Tail = NoTail | Last(lits: seq<byte>, nibble: nat)

  predicate TailFine(t: Tail)
  {
    t.Last? ==> t.lits != [] && t.nibble < 16
  }

  function TailText(t: Tail): (b: seq<byte>)
  {
    if t.Last? then EncodeLiterals(t.lits, t.nibble) else []
  }

  function TailPlain(t: Tail): (plain: seq<byte>)
  {
    if t.Last? then t.lits else []
  }

  /** The bytes `b` encode sequences and a tail that spell `plain`. */
  ghost predicate Spells(b: seq<byte>, plain: seq<byte>, ss: seq<Sequence>, t: Tail)
  {
    && Reaches(ss) && TailFine(t)
    && b == EncodeSequences(ss) + TailText(t) && plain == Expand(ss) + TailPlain(t)
  }

  /** A block of the format that stands for `plain`. */
  ghost predicate IsBlock(b: seq<byte>, plain: seq<byte>)
  {
    exists ss: seq<Sequence>, t: Tail :: Spells(b, plain, ss, t)
  }

  // ----- what is read back was encoded -----

  lemma {:induction false} LengthBack(b: seq<byte>, sum: nat)
    requires ReadLength(b, sum).Some?
    ensures var r := ReadLength(b, sum).value; r.value >= sum && b == LengthBytes(r.value - sum) + r.rest
    decreases |b|
  {
    var r := ReadLength(b, sum).value;
    if b[0] == 255 {
      LengthBack(b[1..], sum + 255);
      assert b == [255] + (LengthBytes(r.value - sum - 255) + r.rest);
    } else {
      assert b == [b[0]] + b[1..];
    }
  }

  lemma {:induction false} FieldBack(nibble: nat, base: nat, b: seq<byte>)
    requires nibble < 16 && ReadField(nibble, base, b).Some?
    ensures var r := ReadField(nibble, base, b).value;
            && r.value >= base && nibble == Min(r.value - base, 15)
            && b == Extension(r.value - base) + r.rest
  {
    if nibble == 15 {
      LengthBack(b, base + 15);
    } else {
      assert [] + b == b;
    }
  }

  lemma {:induction false} LowByte(x: byte, n: nat)
    ensures (x + 256 * n) % 256 == x && (x + 256 * n) / 256 == n
  {
  }

  lemma {:induction false} LeBack(b: seq<byte>, k: nat)
    requires k <= |b|
    ensures Le(ReadLe(b, k), k) == b[..k] && ReadLe(b, k) < Pow256(k)
    decreases k
  {
    if k > 0 {
      LeBack(b[1..], k - 1);
      LowByte(b[0], ReadLe(b[1..], k - 1));
      assert b[..k] == [b[0]] + b[1..][..k - 1];
    }
  }

  lemma {:induction false} TokenBack(t: byte, lits: nat)
    requires t / 16 == Min(lits, 15)
    ensures t == Token(lits, t % 16)
  {
  }

  lemma {:induction false} Glued(b: seq<byte>, extension: seq<byte>, lits: seq<byte>, rest: seq<byte>)
    requires b != [] && b[1..] == extension + (lits + rest)
    ensures b == [b[0]] + extension + lits + rest
  {
  }

  lemma {:induction false} LiteralsFrom(b: seq<byte>, f: Read, lits: seq<byte>, rest: seq<byte>)
    requires b != [] && ReadField(b[0] / 16, 0, b[1..]) == Some(f) && f.rest == lits + rest && f.value == |lits|
    ensures b == EncodeLiterals(lits, b[0] % 16) + rest
  {
    FieldBack(b[0] / 16, 0, b[1..]);
    TokenBack(b[0], |lits|);
    Glued(b, Extension(|lits|), lits, rest);
  }

  lemma {:induction false} LiteralsBack(b: seq<byte>, room: nat)
    requires b != [] && ReadLiterals(b, room).Some?
    ensures var l := ReadLiterals(b, room).value; b == EncodeLiterals(l.lits, l.nibble) + l.rest
  {
    var l := ReadLiterals(b, room).value;
    var f := ReadField(b[0] / 16, 0, b[1..]).value;
    assert f.rest == l.lits + l.rest;
    LiteralsFrom(b, f, l.lits, l.rest);
  }

  lemma {:induction false} MatchBack(nibble: nat, b: seq<byte>, reach: nat, room: nat)
    requires nibble < 16 && ReadMatch(nibble, b, reach, room).Some?
    ensures var m := ReadMatch(nibble, b, reach, room).value;
            && m.length >= MIN_MATCH && nibble == Min(m.length - MIN_MATCH, 15)
            && b == EncodeMatch(m.offset, m.length) + m.rest
  {
    var m := ReadMatch(nibble, b, reach, room).value;
    LeBack(b, 2);
    FieldBack(nibble, MIN_MATCH, b[2..]);
    assert b == b[..2] + b[2..];
    Assoc(Le(m.offset, 2), Extension(m.length - MIN_MATCH), m.rest);
  }

  lemma {:induction false} SameToken(lits: seq<byte>, n: nat)
    ensures EncodeLiterals(lits, Min(n, 15)) == EncodeLiterals(lits, n)
  {
  }

  lemma {:induction false} SequenceFrom(b: seq<byte>, s: Sequence, nibble: nat, tail: seq<byte>, rest: seq<byte>)
    requires Encodable(s) && nibble == Min(s.length - MIN_MATCH, 15)
    requires b == EncodeLiterals(s.lits, nibble) + tail && tail == EncodeMatch(s.offset, s.length) + rest
    ensures b == EncodeSequence(s) + rest
  {
    SameToken(s.lits, s.length - MIN_MATCH);
    Assoc(EncodeLiterals(s.lits, s.length - MIN_MATCH), EncodeMatch(s.offset, s.length), rest);
  }

  lemma {:induction false} SequenceBack(l: Literals, b: seq<byte>, reach: nat, room: nat, m: Match)
    requires l.nibble < 16 && b == EncodeLiterals(l.lits, l.nibble) + l.rest
    requires ReadMatch(l.nibble, l.rest, reach, room) == Some(m)
    ensures m.length >= MIN_MATCH && b == EncodeSequence(Sequence(l.lits, m.offset, m.length)) + m.rest
  {
    MatchBack(l.nibble, l.rest, reach, room);
    SequenceFrom(b, Sequence(l.lits, m.offset, m.length), l.nibble, l.rest, m.rest);
  }

  /** One step of the decoder, backwards: it read the tail, or a sequence that fits. */
  lemma {:induction false} StepBack(b: seq<byte>, out: seq<byte>, start: nat, target: nat, r: seq<byte>)
      returns (t: Tail, s: Sequence, rest: seq<byte>)
    requires b != [] && start <= |out| <= target <= U64_MAX && Decode(b, out, start, target) == Some(r)
    ensures TailFine(t) && |rest| < |b|
    ensures t.Last? ==> b == TailText(t) && r == out + t.lits
    ensures t.NoTail? ==>
              && Fits(s, out, start, target) && b == EncodeSequence(s) + rest
              && Decode(rest, Copy(out + s.lits, s.offset, s.length), start, target) == Some(r)
  {
    var l := ReadLiterals(b, target - |out|).value;
    LiteralsBack(b, target - |out|);
    var mid := out + l.lits;
    rest, s := l.rest, Sequence([], 0, 0);
    assert DecodeMatch(l.nibble, l.rest, mid, start, target) == Some(r);
    if |mid| == target {
      t := Last(l.lits, l.nibble);
      assert EncodeLiterals(l.lits, l.nibble) + [] == EncodeLiterals(l.lits, l.nibble);
    } else {
      t := NoTail;
      var m := ReadMatch(l.nibble, l.rest, |mid| - start, target - |mid|).value;
      SequenceBack(l, b, |mid| - start, target - |mid|, m);
      s, rest := Sequence(l.lits, m.offset, m.length), m.rest;
    }
  }

  /** One sequence more, behind those read so far. */
  lemma {:induction false} SequenceMore(ss: seq<Sequence>, s: Sequence, before: seq<byte>, out: seq<byte>, target: nat)
    requires Reaches(ss) && out == before + Expand(ss) && Fits(s, out, |before|, target)
    ensures var more := ss + [s];
            && Reaches(more) && EncodeSequences(more) == EncodeSequences(ss) + EncodeSequence(s)
            && Copy(out + s.lits, s.offset, s.length) == before + Expand(more)
            && |before| + Produced(more) <= target
  {
    var more := ss + [s];
    assert more[..|more| - 1] == ss;
    Assoc(before, Expand(ss), s.lits);
    CopyPrefix(before, Expand(ss) + s.lits, s.offset, s.length);
  }

  lemma {:induction false} WholeMore(whole: seq<byte>, ss: seq<Sequence>, s: Sequence, b: seq<byte>, rest: seq<byte>)
    requires Reaches(ss) && Reaches(ss + [s]) && whole == EncodeSequences(ss) + b
    requires Encodable(s) && b == EncodeSequence(s) + rest
    ensures whole == EncodeSequences(ss + [s]) + rest
  {
    assert (ss + [s])[..|ss|] == ss;
    Assoc(EncodeSequences(ss), EncodeSequence(s), rest);
  }

  lemma {:induction false} SpellsEnd(ss: seq<Sequence>, t: Tail, before: seq<byte>, out: seq<byte>, whole: seq<byte>)
      returns (plain: seq<byte>)
    requires Reaches(ss) && TailFine(t) && out == before + Expand(ss) && whole == EncodeSequences(ss) + TailText(t)
    ensures Spells(whole, plain, ss, t) && out + TailPlain(t) == before + plain
  {
    plain := Expand(ss) + TailPlain(t);
    Assoc(before, Expand(ss), TailPlain(t));
  }

  /** Everything the decoder reads behind `ss` was encoded. */
  lemma {:induction false} AcceptedFrom(b: seq<byte>, before: seq<byte>, out: seq<byte>, ss: seq<Sequence>, target: nat,
                                        r: seq<byte>, whole: seq<byte>)
      returns (ss': seq<Sequence>, t: Tail, plain: seq<byte>)
    requires Reaches(ss) && out == before + Expand(ss) && |out| <= target <= U64_MAX
    requires Decode(b, out, |before|, target) == Some(r) && whole == EncodeSequences(ss) + b
    ensures Spells(whole, plain, ss', t) && r == before + plain
    decreases |b|
  {
    if b == [] {
      ss', t := ss, NoTail;
      assert out + [] == out;
      plain := SpellsEnd(ss, t, before, out, whole);
    } else {
      var s, rest;
      ss' := ss;
      t, s, rest := StepBack(b, out, |before|, target, r);
      if t.Last? {
        plain := SpellsEnd(ss, t, before, out, whole);
      } else {
        SequenceMore(ss, s, before, out, target);
        WholeMore(whole, ss, s, b, rest);
        ss', t, plain :=
          AcceptedFrom(rest, before, Copy(out + s.lits, s.offset, s.length), ss + [s], target, r, whole);
      }
    }
  }

  /** A block that is accepted behind any earlier output is a block of the format. */
  lemma {:induction false} AcceptedBlock(b: seq<byte>, before: seq<byte>, target: nat, r: seq<byte>)
      returns (plain: seq<byte>)
    requires |before| <= target <= U64_MAX && Decode(b, before, |before|, target) == Some(r)
    ensures IsBlock(b, plain) && r == before + plain
  {
    var ss, t;
    assert before + Expand([]) == before && EncodeSequences([]) + b == b;
    ss, t, plain := AcceptedFrom(b, before, before, [], target, r, b);
  }

  // ----- and every block is accepted -----

  lemma {:induction false} DecoderTail(d: Decoder, t: Tail, out: seq<byte>, start: nat, target: nat)
    requires Decodes(d, start, target) && TailFine(t) && start <= |out| && |out| + |TailPlain(t)| == target <= U64_MAX
    ensures d.block(TailText(t), out) == Some(out + TailPlain(t))
  {
    if t.Last? {
      assert TailText(t) + [] == TailText(t);
      DecoderLiterals(d, t.lits, t.nibble, [], out, start, target);
      assert AtMatch(Min(t.nibble, 15), [], out + t.lits);
    } else {
      assert AtToken([], out);
      assert out + [] == out;
    }
  }

  lemma {:induction false} DecoderSpelled(d: Decoder, plain: seq<byte>, ss: seq<Sequence>, t: Tail, before: seq<byte>,
                                          target: nat)
    requires Reaches(ss) && TailFine(t) && plain == Expand(ss) + TailPlain(t)
    requires |before| + |plain| == target <= U64_MAX && Decodes(d, |before|, target)
    ensures d.block(EncodeSequences(ss) + TailText(t), before) == Some(before + plain)
  {
    DecodeSequences(d, ss, TailText(t), before, target);
    DecoderTail(d, t, before + Expand(ss), |before|, target);
    Assoc(before, Expand(ss), TailPlain(t));
  }

  lemma {:induction false} SpelledBlock(b: seq<byte>, plain: seq<byte>, ss: seq<Sequence>, t: Tail, before: seq<byte>,
                                        target: nat)
    requires Spells(b, plain, ss, t) && |before| + |plain| == target <= U64_MAX
    ensures Decode(b, before, |before|, target) == Some(before + plain)
  {
    var d := ADecoder(b, before, |before|, target);
    DecoderSpelled(d, plain, ss, t, before, target);
  }

  /** Behind any earlier output, the decoder accepts exactly the blocks of the format, and gives
      what they stand for. */
  lemma {:induction false} DecodesIff(b: seq<byte>, before: seq<byte>, plain: seq<byte>, target: nat)
    requires |before| + |plain| == target <= U64_MAX
    ensures Decode(b, before, |before|, target) == Some(before + plain) <==> IsBlock(b, plain)
  {
    if IsBlock(b, plain) {
      var ss, t :| Spells(b, plain, ss, t);
      SpelledBlock(b, plain, ss, t, before, target);
    } else if Decode(b, before, |before|, target) == Some(before + plain) {
      var p := AcceptedBlock(b, before, target, before + plain);
      SameRest(before, plain, p);
    }
  }

  lemma {:induction false} SameRest(before: seq<byte>, plain: seq<byte>, p: seq<byte>)
    requires before + plain == before + p
    ensures plain == p
  {
    assert plain == (before + plain)[|before|..] && p == (before + p)[|before|..];
  }

  lemma {:induction false} BlockGives(b: seq<byte>, plain: seq<byte>, n: nat)
    requires IsBlock(b, plain) && |plain| == n <= U64_MAX
    ensures Decode(b, [], 0, n) == Some(plain)
  {
    assert [] + plain == plain;
    DecodesIff(b, [], plain, n);
  }

  /** A block stands for one text of its length only. */
  lemma {:induction false} BlockOfOne(b: seq<byte>, plain: seq<byte>, other: seq<byte>)
    requires IsBlock(b, plain) && IsBlock(b, other) && |plain| == |other| <= U64_MAX
    ensures plain == other
  {
    BlockGives(b, plain, |plain|);
    BlockGives(b, other, |plain|);
  }
}
