/** The block compressor: a greedy matcher over a table from hashed four-byte words to their
    latest position. */
module Lz4Compress {
  import opened Basics
  import opened Lz4Format
  import opened Lz4Greedy

  // ----- sizes -----

  lemma {:induction false} LengthBytesSize(n: nat)
    ensures |LengthBytes(n)| == n / 255 + 1
    decreases n
  {
    if n >= 255 { LengthBytesSize(n - 255); }
  }

  /** Bytes needed to continue a nibble. */
  function ExtensionSize(n: nat): (k: nat)
  {
    if n >= 15 then (n - 15) / 255 + 1 else 0
  }

  lemma {:induction false} EncodeSizes(lits: seq<byte>, match': nat, s: Sequence)
    requires Encodable(s)
    ensures |EncodeLiterals(lits, match')| == 1 + ExtensionSize(|lits|) + |lits|
    ensures |EncodeMatch(s.offset, s.length)| == 2 + ExtensionSize(s.length - MIN_MATCH)
  {
    if |lits| >= 15 { LengthBytesSize(|lits| - 15); }
    if s.length - MIN_MATCH >= 15 { LengthBytesSize(s.length - MIN_MATCH - 15); }
  }

  /** A sequence never costs more than what it stands for, but for one byte in 255 literals. */
  lemma {:induction false} SequenceCost(s: Sequence)
    requires Encodable(s)
    ensures 255 * |EncodeSequence(s)| <= 256 * |s.lits| + 255 * s.length
  {
    EncodeSizes(s.lits, s.length - MIN_MATCH, s);
  }

  lemma {:induction false} TailCost(lits: seq<byte>)
    ensures 255 * |EncodeLiterals(lits, 0)| <= 256 * |lits| + 510
  {
    EncodeSizes(lits, 0, Sequence([], 1, MIN_MATCH));
  }

  // ----- matches -----

  /** Copying from a repetition, overlapping or not, spells out the data. */
  lemma {:induction false} CopyRepeats(data: seq<byte>, index: nat, offset: nat, length: nat)
    requires Repeats(data, index, offset, length)
    ensures Copy(data[..index], offset, length) == data[..index + length]
    decreases length
  {
    if length > 0 {
      assert Echoes(data, index, offset);
      assert data[..index] + [data[index - offset]] == data[..index + 1];
      CopyRepeats(data, index + 1, offset, length - 1);
    }
  }

  // ----- writing -----

  method WriteLength(compressed: seq<byte>, length: nat) returns (c: seq<byte>)
    ensures c == compressed + LengthBytes(length)
  {
    c := compressed;
    var left := length;
    while left >= 255
      invariant left >= 0 && c + LengthBytes(left) == compressed + LengthBytes(length)
    {
      assert c + LengthBytes(left) == c + [255] + LengthBytes(left - 255);
      c := c + [255];
      left := left - 255;
    }
    c := c + [left];
  }

  /** Appends literals and, when there is one, a match; without a match it ends the block. */
  method WriteSequence(compressed: seq<byte>, lits: seq<byte>, length: nat, offset: nat) returns (c: seq<byte>)
    requires length == 0 || Encodable(Sequence(lits, offset, length))
    ensures length == 0 ==> c == compressed + EncodeLiterals(lits, 0)
    ensures length > 0 ==> c == compressed + EncodeSequence(Sequence(lits, offset, length))
  {
    var encoded := if length >= MIN_MATCH then length - MIN_MATCH else 0;
    c := WriteLiterals(compressed, lits, encoded);
    if length > 0 {
      ghost var literals := c;
      c := WriteMatch(c, offset, length);
      assert compressed + EncodeLiterals(lits, encoded) + EncodeMatch(offset, length)
          == compressed + (EncodeLiterals(lits, encoded) + EncodeMatch(offset, length));
    }
  }

  method WriteWhole(compressed: seq<byte>, s: Sequence) returns (c: seq<byte>)
    requires Encodable(s)
    ensures c == compressed + EncodeSequence(s)
  {
    c := WriteSequence(compressed, s.lits, s.length, s.offset);
    assert s == Sequence(s.lits, s.offset, s.length);
  }

  method WriteLiterals(compressed: seq<byte>, lits: seq<byte>, encoded: nat) returns (c: seq<byte>)
    ensures c == compressed + EncodeLiterals(lits, encoded)
  {
    c := compressed + [Token(|lits|, encoded)];
    if |lits| >= 15 {
      c := WriteLength(c, |lits| - 15);
    }
    c := c + lits;
  }

  method WriteMatch(compressed: seq<byte>, offset: nat, length: nat) returns (c: seq<byte>)
    requires 1 <= offset <= WINDOW && length >= MIN_MATCH
    ensures c == compressed + EncodeMatch(offset, length)
  {
    c := compressed + Le(offset, 2);
    if length - MIN_MATCH >= 15 {
      c := WriteLength(c, length - MIN_MATCH - 15);
    }
  }

  // ----- the hash table -----

  function Word(data: seq<byte>, i: nat): (w: nat)
    requires i + 4 <= |data|
  {
    data[i] + 256 * (data[i + 1] as int) + 65536 * (data[i + 2] as int) + 16777216 * (data[i + 3] as int)
  }

  function Key(data: seq<byte>, i: nat): (k: nat)
    requires i + 4 <= |data|
  {
    Word(data, i) * 2654435761 / 1048576
  }

  /** The table knows the last position before `index` of every key. */
  predicate Knows(table: map<nat, nat>, data: seq<byte>, index: nat)
  {
    && (forall k :: k in table ==>
          table[k] < index && table[k] + 4 <= |data| && Key(data, table[k]) == k)
    && (forall p :: 0 <= p < index && p + 4 <= |data| ==>
          Key(data, p) in table && p <= table[Key(data, p)])
  }

  /** Position `p` is the last before `index` with its key. */
  predicate Nearest(data: seq<byte>, p: nat, index: nat)
    requires p < index && index + 4 <= |data|
  {
    Key(data, p) == Key(data, index) && forall r :: p < r < index ==> Key(data, r) != Key(data, index)
  }

  /** Position `p` is the nearest of its key, in the window, and holds the same word. */
  predicate Chosen(data: seq<byte>, p: nat, index: nat)
    requires p < index && index + 4 <= |data|
  {
    Nearest(data, p, index) && index - p <= WINDOW && data[p..p + 4] == data[index..index + 4]
  }

  /** What the table offers. */
  function Picks(data: seq<byte>): (pick: Pick)
  {
    (p: nat, i: nat) => p < i && i + 4 <= |data| && Chosen(data, p, i)
  }

  lemma {:induction false} PicksSettled(data: seq<byte>)
    ensures Settled(Picks(data))
  {
    var pick := Picks(data);
    forall p: nat, q: nat, i: nat | pick(p, i) && pick(q, i) ensures p == q {
      assert Nearest(data, p, i) && Nearest(data, q, i);
    }
  }

  lemma {:induction false} Enters(table: map<nat, nat>, data: seq<byte>, i: nat)
    requires Knows(table, data, i) && i + 4 <= |data|
    ensures Knows(table[Key(data, i) := i], data, i + 1)
  {
  }

  /** The positions inside a match enter the table as well. */
  method Remember(table: map<nat, nat>, data: seq<byte>, index: nat, end: nat) returns (t: map<nat, nat>)
    requires index < end <= |data| && Knows(table, data, index + 1)
    ensures Knows(t, data, end)
  {
    t := table;
    var position := index + 1;
    while position < end && position + 3 < |data|
      invariant index < position <= end && Knows(t, data, position)
    {
      Enters(t, data, position);
      t := t[Key(data, position) := position];
      position := position + 1;
    }
  }

  lemma {:induction false} LookedUp(table: map<nat, nat>, data: seq<byte>, index: nat, p: nat)
    requires Knows(table, data, index) && index + 4 <= |data| && p < index
    ensures Nearest(data, p, index) <==> Key(data, index) in table && table[Key(data, index)] == p
  {
    if Key(data, p) == Key(data, index) {
      var last := table[Key(data, index)];
      assert Key(data, last) == Key(data, index);
      forall r | last < r < index ensures Key(data, r) != Key(data, index) { }
    }
  }

  /** Looks the word at `index` up and enters it: the nearest earlier position of its key, if that
      is in the window and holds the same word, and -1 otherwise. */
  method Candidate(table: map<nat, nat>, data: seq<byte>, index: nat) returns (candidate: int, t: map<nat, nat>)
    requires index + 12 <= |data| && Knows(table, data, index)
    ensures Knows(t, data, index + 1) && -1 <= candidate < index
    ensures forall p :: 0 <= p < index ==> (candidate == p <==> Chosen(data, p, index))
  {
    var key := Key(data, index);
    candidate := if key in table then table[key] as int else -1;
    t := table[key := index];
    Enters(table, data, index);
    forall p | 0 <= p < index ensures Nearest(data, p, index) <==> candidate == p {
      LookedUp(table, data, index, p);
    }
    if candidate != -1 && (index - candidate > WINDOW || data[candidate..candidate + 4] != data[index..index + 4]) {
      candidate := -1;
    }
  }

  /** A chosen position repeats there. */
  lemma {:induction false} ChosenRepeats(data: seq<byte>, p: nat, index: nat)
    requires p < index && index + 4 <= |data| && Chosen(data, p, index)
    ensures index - p <= WINDOW && Repeats(data, index, index - p, 4)
  {
    forall i | index <= i < index + 4 ensures data[i] == data[i - (index - p)] {
      assert data[p..p + 4][i - index] == data[index..index + 4][i - index];
    }
  }

  /** A match of four bytes within the window. */
  predicate Usable(data: seq<byte>, p: nat, index: nat)
  {
    p < index && index - p <= WINDOW && Repeats(data, index, index - p, 4)
  }

  method Look(table: map<nat, nat>, data: seq<byte>, index: nat) returns (candidate: Option<nat>, t: map<nat, nat>)
    requires index + 12 <= |data| && Knows(table, data, index)
    ensures Knows(t, data, index + 1)
    ensures candidate.None? ==> !Offered(Picks(data), index)
    ensures candidate.Some? ==> Usable(data, candidate.value, index) && Picks(data)(candidate.value, index)
  {
    var c;
    c, t := Candidate(table, data, index);
    if c == -1 {
      return None, t;
    }
    candidate := Some(c);
    assert Chosen(data, c, index);
    ChosenRepeats(data, c, index);
  }

  /** The longest repetition from `index` that leaves five bytes at the end of the data. */
  method MatchLength(data: seq<byte>, index: nat, candidate: nat) returns (length: nat)
    requires candidate < index && index + 12 <= |data|
    requires Repeats(data, index, index - candidate, 4)
    ensures Longest(data, index, index - candidate, length)
  {
    length := 4;
    while length < |data| - 5 - index && data[candidate + length] == data[index + length]
      invariant 4 <= length <= |data| - 5 - index && Repeats(data, index, index - candidate, length)
    {
      length := length + 1;
    }
  }

  // ----- the compressor -----

  /** Progress of the compressor: the sequences written so far spell `data[..anchor]`. */
  ghost predicate Written(data: seq<byte>, compressed: seq<byte>, ss: seq<Sequence>, anchor: nat)
  {
    && anchor <= |data| && Reaches(ss) && Expand(ss) == data[..anchor]
    && compressed == EncodeSequences(ss)
    && 255 * |compressed| <= 256 * anchor
  }

  /** The end of block conditions: the last match starts 12 bytes or more before the end of the
      data and at least the last 5 bytes are literals. */
  ghost predicate EndsWell(data: seq<byte>, ss: seq<Sequence>, anchor: nat)
  {
    ss != [] ==>
      var m := ss[|ss| - 1].length;
      m <= anchor && anchor - m + 12 <= |data| && anchor + 5 <= |data|
  }

  /** A finished block: sequences that spell the data up to `end`, then the rest as literals. */
  ghost predicate Parses(data: seq<byte>, compressed: seq<byte>, ss: seq<Sequence>, end: nat)
  {
    && end < |data| && Reaches(ss) && Expand(ss) == data[..end]
    && compressed == EncodeSequences(ss) + EncodeLiterals(data[end..], 0)
  }

  lemma {:induction false} WrittenExtends(data: seq<byte>, compressed: seq<byte>, ss: seq<Sequence>, anchor: nat,
                                          index: nat, offset: nat, length: nat, c: seq<byte>, s: Sequence)
    requires Written(data, compressed, ss, anchor) && anchor <= index
    requires offset <= WINDOW && length >= MIN_MATCH && Repeats(data, index, offset, length)
    requires s == Sequence(data[anchor..index], offset, length) && c == compressed + EncodeSequence(s)
    ensures Written(data, c, ss + [s], index + length)
    ensures index + 12 <= |data| && index + length + 5 <= |data| ==> EndsWell(data, ss + [s], index + length)
  {
    assert (ss + [s])[..|ss|] == ss && (ss + [s])[|ss|] == s;
    assert data[..anchor] + data[anchor..index] == data[..index];
    CopyRepeats(data, index, offset, length);
    SequenceCost(s);
  }

  /** Writes the literals since `anchor` and the match found at `index`. */
  method Emit(data: seq<byte>, compressed: seq<byte>, ghost ss: seq<Sequence>, anchor: nat, index: nat, candidate: nat)
    returns (c: seq<byte>, length: nat, ghost ss': seq<Sequence>)
    requires Written(data, compressed, ss, anchor) && anchor <= index && index + 12 <= |data|
    requires candidate < index && index - candidate <= WINDOW && Repeats(data, index, index - candidate, 4)
    ensures 0 < length && index + length < |data|
    ensures Written(data, c, ss', index + length) && EndsWell(data, ss', index + length)
    ensures ss' == ss + [Sequence(data[anchor..index], index - candidate, length)]
    ensures Longest(data, index, index - candidate, length)
  {
    length := MatchLength(data, index, candidate);
    var s := Sequence(data[anchor..index], index - candidate, length);
    c := WriteWhole(compressed, s);
    ss' := ss + [s];
    WrittenExtends(data, compressed, ss, anchor, index, index - candidate, length, c, s);
  }

  /** The parse so far is greedy, and between `anchor` and `index` no match is offered. */
  ghost predicate Taking(data: seq<byte>, pick: Pick, ss: seq<Sequence>, anchor: nat, index: nat)
  {
    Greedy(data, pick, ss) && Produced(ss) == anchor <= index && NoneOffered(pick, anchor, index)
  }

  lemma {:induction false} TakesMatch(data: seq<byte>, pick: Pick, ss: seq<Sequence>, anchor: nat, index: nat,
                                      candidate: nat, length: nat)
    requires Taking(data, pick, ss, anchor, index) && index + 12 <= |data| && candidate < index
    requires pick(candidate, index) && Longest(data, index, index - candidate, length)
    ensures Taking(data, pick, ss + [Sequence(data[anchor..index], index - candidate, length)],
                   index + length, index + length)
  {
    GreedyMore(data, pick, ss, Sequence(data[anchor..index], index - candidate, length));
  }

  lemma {:induction false} TakesAll(data: seq<byte>, pick: Pick, ss: seq<Sequence>, anchor: nat, index: nat)
    requires Taking(data, pick, ss, anchor, index) && anchor <= |data| && index + 12 > |data|
    ensures GreedyParse(data, pick, ss)
  {
  }

  /** Where the compressor stands: what is written spells the data up to `anchor`, and the parse is
      greedy up to `index`. */
  ghost predicate Stands(data: seq<byte>, pick: Pick, compressed: seq<byte>, ss: seq<Sequence>, anchor: nat,
                         index: nat)
  {
    && Written(data, compressed, ss, anchor) && EndsWell(data, ss, anchor)
    && Taking(data, pick, ss, anchor, index)
  }

  lemma {:induction false} PassesOn(data: seq<byte>, pick: Pick, compressed: seq<byte>, ss: seq<Sequence>,
                                    anchor: nat, index: nat)
    requires Stands(data, pick, compressed, ss, anchor, index) && !Offered(pick, index)
    ensures Stands(data, pick, compressed, ss, anchor, index + 1)
  {
    NoneMore(pick, anchor, index);
  }

  lemma {:induction false} NoneMore(pick: Pick, anchor: nat, index: nat)
    requires NoneOffered(pick, anchor, index) && !Offered(pick, index)
    ensures NoneOffered(pick, anchor, index + 1)
  {
  }

  /** Takes the match that is offered at `index`. */
  method TakeMatch(data: seq<byte>, compressed: seq<byte>, ghost ss: seq<Sequence>, anchor: nat, index: nat,
                   candidate: nat, ghost pick: Pick)
      returns (c: seq<byte>, length: nat, ghost ss': seq<Sequence>)
    requires Stands(data, pick, compressed, ss, anchor, index) && index + 12 <= |data|
    requires Usable(data, candidate, index) && pick(candidate, index)
    ensures 0 < length && index + length < |data|
    ensures Stands(data, pick, c, ss', index + length, index + length)
  {
    c, length, ss' := Emit(data, compressed, ss, anchor, index, candidate);
    TakesMatch(data, pick, ss, anchor, index, candidate, length);
  }

  /** On to the next position, or behind the match that is offered. */
  method Proceed(data: seq<byte>, compressed: seq<byte>, ghost ss: seq<Sequence>, anchor: nat, index: nat,
                 candidate: Option<nat>, ghost pick: Pick)
      returns (next: nat, anchor': nat, c: seq<byte>, ghost ss': seq<Sequence>)
    requires Stands(data, pick, compressed, ss, anchor, index) && index + 12 <= |data|
    requires candidate.None? ==> !Offered(pick, index)
    requires candidate.Some? ==> Usable(data, candidate.value, index) && pick(candidate.value, index)
    ensures index < next < |data| && (candidate.None? ==> next == index + 1)
    ensures Stands(data, pick, c, ss', anchor', next)
  {
    if candidate.None? {
      next, anchor', c, ss' := index + 1, anchor, compressed, ss;
      PassesOn(data, pick, compressed, ss, anchor, index);
    } else {
      var length;
      c, length, ss' := TakeMatch(data, compressed, ss, anchor, index, candidate.value, pick);
      next := index + length;
      anchor' := next;
    }
  }

  /** One round of the matching loop. */
  method Advance(data: seq<byte>, table: map<nat, nat>, index: nat, anchor: nat, compressed: seq<byte>,
                 ghost ss: seq<Sequence>)
      returns (t: map<nat, nat>, next: nat, anchor': nat, c: seq<byte>, ghost ss': seq<Sequence>)
    requires index + 12 <= |data| && Knows(table, data, index)
    requires Stands(data, Picks(data), compressed, ss, anchor, index)
    ensures index < next < |data| && Knows(t, data, next)
    ensures Stands(data, Picks(data), c, ss', anchor', next)
  {
    var candidate;
    candidate, t := Look(table, data, index);
    next, anchor', c, ss' := Proceed(data, compressed, ss, anchor, index, candidate, Picks(data));
    if candidate.Some? {
      t := Remember(t, data, index, next);
    }
  }

  /** The matching loop: everything up to `anchor` is written when it ends, and all matches are
      taken. */
  method CompressMatches(data: seq<byte>) returns (compressed: seq<byte>, anchor: nat, ghost ss: seq<Sequence>)
    ensures Written(data, compressed, ss, anchor) && EndsWell(data, ss, anchor)
    ensures GreedyParse(data, Picks(data), ss)
    ensures data != [] ==> anchor < |data|
  {
    compressed, ss := [], [];
    var table: map<nat, nat> := map[];
    var index := 0;
    anchor := 0;
    while |data| >= 12 && index <= |data| - 12
      invariant 0 <= anchor <= index <= |data| && (index == |data| ==> data == [])
      invariant Knows(table, data, index)
      invariant Stands(data, Picks(data), compressed, ss, anchor, index)
    {
      table, index, anchor, compressed, ss := Advance(data, table, index, anchor, compressed, ss);
    }
    TakesAll(data, Picks(data), ss, anchor, index);
  }

  /** The output is the encoding of sequences that spell the data, followed by the last literals.
      It obeys the end of block conditions and stays within the worst-case size. */
  method CompressParsed(data: seq<byte>) returns (compressed: seq<byte>, ghost ss: seq<Sequence>, ghost end: nat)
    ensures data == [] ==> compressed == []
    ensures data != [] ==> Parses(data, compressed, ss, end) && EndsWell(data, ss, end)
    ensures GreedyParse(data, Picks(data), ss)
    ensures data != [] ==> GreedyBlock(data, Picks(data), compressed)
    ensures data != [] ==> 0 < |compressed| <= |data| + |data| / 255 + 2
  {
    var anchor;
    compressed, anchor, ss := CompressMatches(data);
    end := anchor;
    if data != [] {
      TailCost(data[anchor..]);
      compressed := WriteSequence(compressed, data[anchor..], 0, 0);
      assert BlockOf(data, ss, compressed);
    }
  }

  /** Compressing a block: the output is the greedy block, and decodes to the data. */
  method CompressBlock(data: seq<byte>) returns (compressed: seq<byte>)
    ensures data == [] ==> compressed == []
    ensures data != [] ==> 0 < |compressed| <= |data| + |data| / 255 + 2
    ensures data != [] ==> GreedyBlock(data, Picks(data), compressed)
    ensures data != [] && |data| <= U64_MAX ==> Decode(compressed, [], 0, |data|) == Some(data)
  {
    ghost var ss, end;
    compressed, ss, end := CompressParsed(data);
    if data != [] && |data| <= U64_MAX {
      ParsedAlone(data, compressed, ss, end);
    }
  }

  lemma {:induction false} ParsedTo(data: seq<byte>, compressed: seq<byte>, ss: seq<Sequence>, end: nat,
                                    before: seq<byte>, target: nat)
    requires Parses(data, compressed, ss, end) && |before| + |data| == target <= U64_MAX
    ensures Decode(compressed, before, |before|, target) == Some(before + data)
  {
    ParsedDecodes(data, compressed, ss, end, before);
  }

  lemma {:induction false} ParsedAlone(data: seq<byte>, compressed: seq<byte>, ss: seq<Sequence>, end: nat)
    requires Parses(data, compressed, ss, end) && |data| <= U64_MAX
    ensures Decode(compressed, [], 0, |data|) == Some(data)
  {
    var target := |data|;
    assert [] + data == data;
    ParsedTo(data, compressed, ss, end, [], target);
  }

  lemma {:induction false} ParsedDecodes(data: seq<byte>, compressed: seq<byte>, ss: seq<Sequence>, end: nat,
                                         before: seq<byte>)
    requires Parses(data, compressed, ss, end) && |before| + |data| <= U64_MAX
    ensures Decode(compressed, before, |before|, |before| + |data|) == Some(before + data)
  {
    DecodeBlock(data, ss, end, before);
  }

  // ----- what the greedy block comes to -----

  lemma {:induction false} EqualPicks(data: seq<byte>)
    requires |data| >= 13 && AllEqual(data)
    ensures Picks(data)(0, 1)
  {
    assert Word(data, 0) == Word(data, 1);
    assert data[0..4] == data[1..5];
  }

  lemma {:induction false} EqualSize(s: Sequence, tail: seq<byte>)
    requires Encodable(s) && |s.lits| == 1 && |tail| == 5
    ensures |EncodeSequence(s) + EncodeLiterals(tail, 0)| == 10 + ExtensionSize(s.length - MIN_MATCH)
  {
    EncodeSizes(s.lits, s.length - MIN_MATCH, s);
    EncodeSizes(tail, 0, s);
  }

  /** Equal bytes, thirteen or more, become one literal, one match and five literals: ten bytes, and
      one more for every 255 bytes that the match has in excess of 18. */
  lemma {:induction false} EqualBytes(data: seq<byte>, block: seq<byte>, s: Sequence)
    requires |data| >= 13 && AllEqual(data) && GreedyBlock(data, Picks(data), block)
    requires s == Sequence(data[..1], 1, |data| - 6)
    ensures block == EncodeSequence(s) + EncodeLiterals(data[|data| - 5..], 0)
    ensures |block| == 10 + ExtensionSize(|data| - 10)
  {
    PicksSettled(data);
    EqualPicks(data);
    EqualParses(data, Picks(data));
    BlockFromParse(data, Picks(data), block, s, |data| - 5);
    EqualSize(s, data[|data| - 5..]);
  }
}
