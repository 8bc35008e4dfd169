/** The greedy parse of a block: what a compressor has to find, whatever table it finds it with. */
module Lz4Greedy {
  import opened Basics
  import opened Lz4Format

  predicate Echoes(data: seq<byte>, i: nat, offset: nat)
  {
    offset <= i < |data| && data[i] == data[i - offset]
  }

  /** The bytes from `index` on repeat those `offset` back, for `length` bytes. */
  predicate Repeats(data: seq<byte>, index: nat, offset: nat, length: nat)
  {
    && 1 <= offset <= index && index + length <= |data|
    && forall i {:trigger Echoes(data, i, offset)} :: index <= i < index + length ==> Echoes(data, i, offset)
  }

  /** Which earlier position is offered as the start of a match at a position. */
  type Pick = (nat, nat) -> bool

  ghost predicate Offered(pick: Pick, i: nat)
  {
    exists p: nat :: pick(p, i)
  }

  /** At most one position is offered, and it is an earlier one. */
  ghost predicate Settled(pick: Pick)
  {
    && (forall p: nat, i: nat :: pick(p, i) ==> p < i)
    && (forall p: nat, q: nat, i: nat :: pick(p, i) && pick(q, i) ==> p == q)
  }

  ghost predicate NoneOffered(pick: Pick, from: nat, to: nat)
  {
    forall j: nat :: from <= j < to ==> !Offered(pick, j)
  }

  /** A match that leaves five bytes and cannot be made longer. */
  predicate Longest(data: seq<byte>, i: nat, offset: nat, length: nat)
  {
    && i + length + 5 <= |data| && length >= MIN_MATCH && Repeats(data, i, offset, length)
    && (i + length + 5 == |data| || data[i - offset + length] != data[i + length])
  }

  /** Sequence `s` from position `a` on: literals up to the first position where a match is offered,
      12 bytes before the end or earlier, and that match, as long as it can be. */
  ghost predicate GreedyStep(data: seq<byte>, pick: Pick, a: nat, s: Sequence)
  {
    var i := a + |s.lits|;
    && i + 12 <= |data| && s.lits == data[a..i] && NoneOffered(pick, a, i)
    && s.offset <= i && pick(i - s.offset, i) && Longest(data, i, s.offset, s.length)
  }

  ghost predicate Greedy(data: seq<byte>, pick: Pick, ss: seq<Sequence>)
  {
    ss == [] ||
    var init := ss[..|ss| - 1];
    Greedy(data, pick, init) && GreedyStep(data, pick, Produced(init), ss[|ss| - 1])
  }

  /** All matches are taken. */
  ghost predicate GreedyParse(data: seq<byte>, pick: Pick, ss: seq<Sequence>)
  {
    && Greedy(data, pick, ss) && Produced(ss) <= |data|
    && forall j: nat :: Produced(ss) <= j && j + 12 <= |data| ==> !Offered(pick, j)
  }

  /** The block of a greedy parse. */
  ghost predicate GreedyBlock(data: seq<byte>, pick: Pick, block: seq<byte>)
  {
    exists ss: seq<Sequence> :: Reaches(ss) && GreedyParse(data, pick, ss) && BlockOf(data, ss, block)
  }

  ghost predicate BlockOf(data: seq<byte>, ss: seq<Sequence>, block: seq<byte>)
    requires Reaches(ss)
  {
    Produced(ss) <= |data| && block == EncodeSequences(ss) + EncodeLiterals(data[Produced(ss)..], 0)
  }

  lemma {:induction false} GreedyMore(data: seq<byte>, pick: Pick, ss: seq<Sequence>, s: Sequence)
    requires Greedy(data, pick, ss) && GreedyStep(data, pick, Produced(ss), s)
    ensures Greedy(data, pick, ss + [s]) && Produced(ss + [s]) == Produced(ss) + |s.lits| + s.length
  {
    assert (ss + [s])[..|ss|] == ss;
  }

  // ----- there is one greedy parse -----

  lemma {:induction false} RepeatsAt(data: seq<byte>, i: nat, offset: nat, n: nat, m: nat)
    requires Repeats(data, i, offset, n) && m < n
    ensures data[i - offset + m] == data[i + m]
  {
    assert Echoes(data, i + m, offset);
  }

  lemma {:induction false} NoLonger(data: seq<byte>, i: nat, offset: nat, m: nat, n: nat)
    requires Longest(data, i, offset, m) && Longest(data, i, offset, n)
    ensures n <= m
  {
    if m < n { RepeatsAt(data, i, offset, n, m); }
  }

  lemma {:induction false} StepOffered(data: seq<byte>, pick: Pick, a: nat, s: Sequence)
    requires GreedyStep(data, pick, a, s)
    ensures Offered(pick, a + |s.lits|)
  {
  }

  lemma {:induction false} StepOnce(data: seq<byte>, pick: Pick, a: nat, s: Sequence, t: Sequence)
    requires Settled(pick) && GreedyStep(data, pick, a, s) && GreedyStep(data, pick, a, t)
    ensures s == t
  {
    var i, j := a + |s.lits|, a + |t.lits|;
    StepOffered(data, pick, a, s);
    StepOffered(data, pick, a, t);
    assert i == j;
    assert i - s.offset == j - t.offset;
    NoLonger(data, i, s.offset, s.length, t.length);
    NoLonger(data, i, s.offset, t.length, s.length);
  }

  lemma {:induction false} GreedyFront(data: seq<byte>, pick: Pick, ss: seq<Sequence>, n: nat)
    requires Greedy(data, pick, ss) && n <= |ss|
    ensures Greedy(data, pick, ss[..n])
    ensures n < |ss| ==> GreedyStep(data, pick, Produced(ss[..n]), ss[n])
    decreases |ss|
  {
    if n < |ss| {
      var init := ss[..|ss| - 1];
      GreedyFront(data, pick, init, n);
      assert init[..n] == ss[..n];
    } else {
      assert ss[..n] == ss;
    }
  }

  lemma {:induction false} SameMore<T>(ss: seq<T>, tt: seq<T>, n: nat)
    requires n < |ss| && n < |tt| && ss[..n] == tt[..n] && ss[n] == tt[n]
    ensures ss[..n + 1] == tt[..n + 1]
  {
    assert ss[..n + 1] == ss[..n] + [ss[n]] && tt[..n + 1] == tt[..n] + [tt[n]];
  }

  lemma {:induction false} SameNext(data: seq<byte>, pick: Pick, ss: seq<Sequence>, tt: seq<Sequence>, n: nat)
    requires Settled(pick) && Greedy(data, pick, ss) && Greedy(data, pick, tt) && n < |ss| && n < |tt|
    requires ss[..n] == tt[..n]
    ensures ss[n] == tt[n]
  {
    GreedyFront(data, pick, ss, n);
    GreedyFront(data, pick, tt, n);
    StepOnce(data, pick, Produced(ss[..n]), ss[n], tt[n]);
  }

  lemma {:induction false} SameFront(data: seq<byte>, pick: Pick, ss: seq<Sequence>, tt: seq<Sequence>, n: nat)
    requires Settled(pick) && Greedy(data, pick, ss) && Greedy(data, pick, tt) && n <= |ss| && n <= |tt|
    ensures ss[..n] == tt[..n]
    decreases n
  {
    if n > 0 {
      SameFront(data, pick, ss, tt, n - 1);
      SameNext(data, pick, ss, tt, n - 1);
      SameMore(ss, tt, n - 1);
    }
  }

  /** A parse that takes all matches is not the front of another. */
  lemma {:induction false} NoFurther(data: seq<byte>, pick: Pick, ss: seq<Sequence>, tt: seq<Sequence>)
    requires Settled(pick) && GreedyParse(data, pick, ss) && Greedy(data, pick, tt)
    ensures |tt| <= |ss|
  {
    if |ss| < |tt| {
      SameFront(data, pick, ss, tt, |ss|);
      assert ss[..|ss|] == ss;
      GreedyFront(data, pick, tt, |ss|);
      StepOffered(data, pick, Produced(ss), tt[|ss|]);
      assert false;
    }
  }

  lemma {:induction false} ParseOnce(data: seq<byte>, pick: Pick, ss: seq<Sequence>, tt: seq<Sequence>)
    requires Settled(pick) && GreedyParse(data, pick, ss) && GreedyParse(data, pick, tt)
    ensures ss == tt
  {
    NoFurther(data, pick, ss, tt);
    NoFurther(data, pick, tt, ss);
    SameFront(data, pick, ss, tt, |ss|);
    assert ss[..|ss|] == ss && tt[..|tt|] == tt;
  }

  /** So there is one greedy block. */
  lemma {:induction false} BlockOnce(data: seq<byte>, pick: Pick, a: seq<byte>, b: seq<byte>)
    requires Settled(pick) && GreedyBlock(data, pick, a) && GreedyBlock(data, pick, b)
    ensures a == b
  {
    var ss :| Reaches(ss) && GreedyParse(data, pick, ss) && BlockOf(data, ss, a);
    var tt :| Reaches(tt) && GreedyParse(data, pick, tt) && BlockOf(data, tt, b);
    ParseOnce(data, pick, ss, tt);
  }

  // ----- equal bytes -----

  predicate AllEqual(data: seq<byte>)
  {
    forall i :: 0 <= i < |data| ==> data[i] == data[0]
  }

  /** Where the position before is offered for equal bytes, their greedy parse is one literal, one
      match and the last five bytes. */
  lemma {:induction false} EqualParses(data: seq<byte>, pick: Pick)
    requires Settled(pick) && |data| >= 13 && AllEqual(data) && pick(0, 1)
    ensures GreedyParse(data, pick, [Sequence(data[..1], 1, |data| - 6)])
  {
    var s := Sequence(data[..1], 1, |data| - 6);
    assert data[0..1] == data[..1];
    assert !Offered(pick, 0);
    assert GreedyStep(data, pick, 0, s);
    GreedyMore(data, pick, [], s);
    assert [] + [s] == [s];
  }

  lemma {:induction false} OneSequence(s: Sequence)
    requires Encodable(s) && s.offset <= |s.lits|
    ensures Reaches([s]) && Produced([s]) == |s.lits| + s.length && EncodeSequences([s]) == EncodeSequence(s)
  {
    assert [s][..0] == [];
    assert EncodeSequences([]) + EncodeSequence(s) == EncodeSequence(s);
  }

  lemma {:induction false} OneBlock(data: seq<byte>, s: Sequence, n: nat, block: seq<byte>)
    requires Encodable(s) && s.offset <= |s.lits| && Reaches([s]) && BlockOf(data, [s], block)
    requires n == |s.lits| + s.length
    ensures n <= |data| && block == EncodeSequence(s) + EncodeLiterals(data[n..], 0)
  {
    OneSequence(s);
  }

  /** The greedy block of data whose greedy parse is known. */
  lemma {:induction false} BlockIs(data: seq<byte>, pick: Pick, block: seq<byte>, ss: seq<Sequence>)
    requires Settled(pick) && GreedyBlock(data, pick, block) && GreedyParse(data, pick, ss)
    ensures Reaches(ss) && BlockOf(data, ss, block)
  {
    var tt :| Reaches(tt) && GreedyParse(data, pick, tt) && BlockOf(data, tt, block);
    ParseOnce(data, pick, ss, tt);
  }

  lemma {:induction false} BlockFromParse(data: seq<byte>, pick: Pick, block: seq<byte>, s: Sequence, n: nat)
    requires Settled(pick) && GreedyBlock(data, pick, block) && GreedyParse(data, pick, [s])
    requires Encodable(s) && s.offset <= |s.lits| && n == |s.lits| + s.length
    ensures n <= |data| && block == EncodeSequence(s) + EncodeLiterals(data[n..], 0)
  {
    BlockIs(data, pick, block, [s]);
    OneBlock(data, s, n, block);
  }
}
