/** The sizes the user-space allocator computes, and what its operations do to the list of chunks. */
module UserHeapChunks {
  const HEADER: nat := 40
  const PAGE: nat := 4096
  const WORD: nat := 0x1_0000_0000_0000_0000

  /** A block's payload size, and whether it is free. */
  datatype Chunk = Chunk(size: nat, free: bool)

  // ----- sizes, modulo the machine word -----

  /** A size rounded up to eight bytes. */
  function Aligned(size: nat): (a: nat)
  {
    (size + 7) % WORD / 8 * 8
  }

  /** The bytes mapped for a request: whole pages. */
  function MapSize(aligned: nat): (m: nat)
  {
    (aligned + HEADER + PAGE - 1) % WORD / PAGE * PAGE
  }

  /** Rounding gives enough bytes exactly for sizes that do not wrap around. */
  lemma {:induction false} AlignedIff(size: nat)
    requires 0 < size < WORD
    ensures Aligned(size) >= size <==> size + 7 < WORD
    ensures size + 7 < WORD ==> size <= Aligned(size) < size + 8
    ensures size + 7 >= WORD ==> Aligned(size) == 0
    ensures Aligned(size) % 8 == 0
  {
    if size + 7 < WORD {
      assert (size + 7) % WORD == size + 7;
    } else {
      assert (size + 7) % WORD == size + 7 - WORD;
      assert size + 7 - WORD < 8;
    }
  }

  /** A mapping holds a header and the payload it was made for exactly if the sum does not wrap
      around. */
  lemma {:induction false} MapSizeIff(aligned: nat)
    requires aligned < WORD
    ensures MapSize(aligned) >= aligned + HEADER <==> aligned + HEADER + PAGE - 1 < WORD
    ensures MapSize(aligned) % PAGE == 0 && MapSize(aligned) < WORD
  {
    var n := aligned + HEADER + PAGE - 1;
    if n < WORD {
      assert n % WORD == n;
      WholePages(n);
    } else {
      assert n % WORD == n - WORD;
      WholePages(n - WORD);
    }
  }

  lemma {:induction false} WholePages(n: nat)
    requires n < WORD
    ensures n / PAGE * PAGE <= n && n / PAGE * PAGE % PAGE == 0
  {
  }

  /** What is mapped for a request: whole pages that hold it with its header, unless the sum wraps
      around; then nothing, or one page, which is too small. */
  lemma {:induction false} MapSizeRanges(size: nat)
    requires 0 < size < WORD
    ensures size <= WORD - HEADER - PAGE || WORD - 8 < size ==>
              MapSize(Aligned(size)) >= Aligned(size) + HEADER
    ensures WORD - HEADER - PAGE < size <= WORD - HEADER ==> MapSize(Aligned(size)) == 0
    ensures WORD - HEADER < size <= WORD - 8 ==>
              MapSize(Aligned(size)) == PAGE < Aligned(size) + HEADER
  {
    AlignedIff(size);
    var a := Aligned(size);
    MapSizeIff(a);
    if WORD - HEADER - PAGE < size <= WORD - 8 {
      var n := a + HEADER + PAGE - 1;
      assert n % WORD == n - WORD;
      if size <= WORD - HEADER {
        assert a <= WORD - HEADER by { RoundsWithin(size); }
      }
    }
  }

  lemma {:induction false} RoundsWithin(size: nat)
    requires 0 < size <= WORD - HEADER
    ensures Aligned(size) <= WORD - HEADER
  {
    AlignedIff(size);
    assert (WORD - HEADER) % 8 == 0;
  }

  /** Memory that is mapped has room for the request it was mapped for, exactly unless the request
      is within a header's size of the largest there is. */
  lemma {:induction false} ExtendingHelpsIff(size: nat)
    requires 0 < size < WORD
    ensures (MapSize(Aligned(size)) > 0 ==> MapSize(Aligned(size)) >= Aligned(size) + HEADER)
            <==> !(WORD - HEADER < size <= WORD - 8)
  {
    MapSizeRanges(size);
  }

  /** A request for which memory is mapped that has no room for it. */
  lemma {:induction false} ExtendingCanMiss()
    ensures var size := WORD - 8;
            0 < size < WORD && 0 < MapSize(Aligned(size)) < Aligned(size) + HEADER
  {
    MapSizeRanges(WORD - 8);
  }

  // ----- the list of chunks -----

  /** Headers and payloads together. */
  function Total(cs: seq<Chunk>): (n: nat)
  {
    if cs == [] then 0 else Total(cs[..|cs| - 1]) + cs[|cs| - 1].size + HEADER
  }

  lemma {:induction false} TotalAppend(a: seq<Chunk>, b: seq<Chunk>)
    ensures Total(a + b) == Total(a) + Total(b)
    decreases |b|
  {
    if b == [] {
      assert a + b == a;
    } else {
      TotalAppend(a, b[..|b| - 1]);
      assert (a + b)[..|a + b| - 1] == a + b[..|b| - 1];
    }
  }

  lemma {:induction false} TotalOne(c: Chunk)
    ensures Total([c]) == c.size + HEADER
  {
    assert [c][..0] == [];
  }

  lemma {:induction false} TotalTwo(c: Chunk, d: Chunk)
    ensures Total([c, d]) == c.size + d.size + 2 * HEADER
  {
    assert [c, d][..1] == [c];
    TotalOne(c);
  }

  /** Replacing chunks by others of the same total keeps the total. */
  lemma {:induction false} TotalSwap(a: seq<Chunk>, b: seq<Chunk>, c: seq<Chunk>, d: seq<Chunk>)
    requires Total(b) == Total(c)
    ensures Total(a + b + d) == Total(a + c + d)
  {
    TotalAppend(a + b, d);
    TotalAppend(a, b);
    TotalAppend(a + c, d);
    TotalAppend(a, c);
  }

  predicate Suits(c: Chunk, n: nat)
  {
    c.free && c.size >= n
  }

  /** The first free chunk that is large enough; the length of the list if there is none. */
  function FirstFit(cs: seq<Chunk>, n: nat): (i: nat)
    ensures i <= |cs| && (i < |cs| ==> Suits(cs[i], n))
    ensures forall j :: 0 <= j < i ==> !Suits(cs[j], n)
  {
    if cs == [] || Suits(cs[0], n) then 0 else 1 + FirstFit(cs[1..], n)
  }

  /** Chunk `i` cut after `n` bytes. */
  function Cut(cs: seq<Chunk>, i: nat, n: nat): (r: seq<Chunk>)
    requires i < |cs| && cs[i].size >= n + HEADER
    ensures |r| == |cs| + 1
    ensures r[i] == Chunk(n, cs[i].free) && r[i + 1] == Chunk(cs[i].size - n - HEADER, true)
    ensures forall k :: 0 <= k < i ==> r[k] == cs[k]
    ensures forall k :: i + 1 < k < |r| ==> r[k] == cs[k - 1]
  {
    cs[..i] + [Chunk(n, cs[i].free), Chunk(cs[i].size - n - HEADER, true)] + cs[i + 1..]
  }

  /** Chunk `i` taken for `n` bytes; what is left becomes a chunk if it can hold a header and
      eight bytes. */
  function Taken(cs: seq<Chunk>, i: nat, n: nat): (r: seq<Chunk>)
    requires i < |cs| && cs[i].size >= n
  {
    if cs[i].size >= n + HEADER + 8 then Cut(cs, i, n)[i := Chunk(n, false)]
    else cs[i := cs[i].(free := false)]
  }

  lemma {:induction false} TakenKeeps(cs: seq<Chunk>, i: nat, n: nat)
    requires i < |cs| && cs[i].size >= n
    ensures Total(Taken(cs, i, n)) == Total(cs)
    ensures i < |Taken(cs, i, n)| && !Taken(cs, i, n)[i].free && n <= Taken(cs, i, n)[i].size < n + HEADER + 8
  {
    var a, c, d := cs[..i], cs[i], cs[i + 1..];
    assert cs == a + [c] + d;
    TotalOne(c);
    if c.size >= n + HEADER + 8 {
      TotalTwo(Chunk(n, false), Chunk(c.size - n - HEADER, true));
      TotalSwap(a, [c], [Chunk(n, false), Chunk(c.size - n - HEADER, true)], d);
      assert Taken(cs, i, n) == a + [Chunk(n, false), Chunk(c.size - n - HEADER, true)] + d;
    } else {
      TotalOne(c.(free := false));
      TotalSwap(a, [c], [c.(free := false)], d);
      assert Taken(cs, i, n) == a + [c.(free := false)] + d;
    }
  }

  /** Chunk `i + 1` merged into chunk `i`. */
  function Merged(cs: seq<Chunk>, i: nat): (r: seq<Chunk>)
    requires i + 1 < |cs|
    ensures |r| == |cs| - 1 && r[i] == Chunk(cs[i].size + HEADER + cs[i + 1].size, cs[i].free)
    ensures forall k :: 0 <= k < i ==> r[k] == cs[k]
    ensures forall k :: i < k < |r| ==> r[k] == cs[k + 1]
  {
    cs[..i] + [Chunk(cs[i].size + HEADER + cs[i + 1].size, cs[i].free)] + cs[i + 2..]
  }

  lemma {:induction false} MergedKeeps(cs: seq<Chunk>, i: nat)
    requires i + 1 < |cs|
    ensures Total(Merged(cs, i)) == Total(cs)
  {
    var a, c, e, d := cs[..i], cs[i], cs[i + 1], cs[i + 2..];
    var m := Chunk(c.size + HEADER + e.size, c.free);
    assert cs == a + [c, e] + d;
    TotalTwo(c, e);
    TotalOne(m);
    TotalSwap(a, [c, e], [m], d);
  }

  /** Chunk `i` freed: merged with the next chunk if that is free, then with the one before. */
  function Freed(cs: seq<Chunk>, i: nat): (r: seq<Chunk>)
    requires i < |cs|
  {
    var marked := cs[i := cs[i].(free := true)];
    var ahead := if i + 1 < |cs| && cs[i + 1].free then Merged(marked, i) else marked;
    if i > 0 && cs[i - 1].free then Merged(ahead, i - 1) else ahead
  }

  lemma {:induction false} MarkedKeeps(cs: seq<Chunk>, i: nat, free: bool)
    requires i < |cs|
    ensures Total(cs[i := cs[i].(free := free)]) == Total(cs)
  {
    var a, c, d := cs[..i], cs[i], cs[i + 1..];
    TotalOne(c);
    TotalOne(c.(free := free));
    TotalSwap(a, [c], [c.(free := free)], d);
    assert cs == a + [c] + d && cs[i := c.(free := free)] == a + [c.(free := free)] + d;
  }

  lemma {:induction false} FreedKeeps(cs: seq<Chunk>, i: nat)
    requires i < |cs|
    ensures Total(Freed(cs, i)) == Total(cs)
  {
    MarkedKeeps(cs, i, true);
    var marked := cs[i := cs[i].(free := true)];
    var ahead := if i + 1 < |cs| && cs[i + 1].free then Merged(marked, i) else marked;
    if i + 1 < |cs| && cs[i + 1].free {
      MergedKeeps(marked, i);
    }
    if i > 0 && cs[i - 1].free {
      MergedKeeps(ahead, i - 1);
    }
  }

  /** Freeing undoes taking exactly if nothing else is merged: the chunk before is in use, and so
      is the one behind, unless the taken chunk was cut. */
  lemma {:induction false} FreedUndoesTaken(cs: seq<Chunk>, i: nat, n: nat)
    requires i < |cs| && Suits(cs[i], n)
    ensures i < |Taken(cs, i, n)|
    ensures Freed(Taken(cs, i, n), i) == cs
            <==> && (i > 0 ==> !cs[i - 1].free)
                 && (i + 1 < |cs| && cs[i].size < n + HEADER + 8 ==> !cs[i + 1].free)
  {
    var t := Taken(cs, i, n);
    var marked := t[i := t[i].(free := true)];
    if cs[i].size >= n + HEADER + 8 {
      var m := Merged(marked, i);
      assert m[i] == cs[i];
      assert forall k :: i < k < |cs| ==> m[k] == marked[k + 1] == cs[k];
      assert m == cs;
    } else {
      assert marked == cs;
    }
  }

  // ----- free chunks stay apart -----

  /** Chunk `k` and the one before are free. */
  predicate Both(cs: seq<Chunk>, k: nat)
    requires 0 < k < |cs|
  {
    cs[k - 1].free && cs[k].free
  }

  /** No two neighbours are free. */
  predicate Apart(cs: seq<Chunk>)
  {
    forall k {:trigger Both(cs, k)} :: 0 < k < |cs| ==> !Both(cs, k)
  }

  /** Where a freed chunk ends up. */
  function Where(cs: seq<Chunk>, i: nat): (j: nat)
    requires i < |cs|
  {
    if i > 0 && cs[i - 1].free then i - 1 else i
  }

  /** The chunks left of a freed one, the freed one and the chunks right of it. */
  lemma {:induction false} FreedAt(cs: seq<Chunk>, i: nat, r: seq<Chunk>, j: nat, end: nat)
    requires i < |cs| && r == Freed(cs, i) && j == Where(cs, i)
    requires end == if i + 1 < |cs| && cs[i + 1].free then i + 2 else i + 1
    ensures j < |r| && r[j].free && r == cs[..j] + [r[j]] + cs[end..]
  {
    var marked := cs[i := cs[i].(free := true)];
    var ahead := if i + 1 < |cs| && cs[i + 1].free then Merged(marked, i) else marked;
    var c := ahead[i];
    assert ahead == cs[..i] + [c] + cs[end..] by {
      assert marked[..i] == cs[..i] && marked[end..] == cs[end..];
    }
    if j < i {
      assert ahead[..j] == cs[..j] && ahead[j + 2..] == cs[end..];
    }
  }

  lemma {:induction false} JoinedApart(cs: seq<Chunk>, c: Chunk, j: nat, end: nat)
    requires Apart(cs) && j < end <= |cs| && (j > 0 ==> !cs[j - 1].free) && (end < |cs| ==> !cs[end].free)
    ensures Apart(cs[..j] + [c] + cs[end..])
  {
    var r := cs[..j] + [c] + cs[end..];
    forall k | 0 < k < |r| ensures !Both(r, k) {
      if k < j {
        assert !Both(cs, k);
      } else if k > j + 1 {
        assert !Both(cs, k - j - 1 + end);
      }
    }
  }

  /** Where free chunks are apart, they still are after freeing: the freed chunk is merged on both
      sides. */
  lemma {:induction false} FreedApart(cs: seq<Chunk>, i: nat)
    requires i < |cs| && Apart(cs)
    ensures Apart(Freed(cs, i))
  {
    var r, j := Freed(cs, i), Where(cs, i);
    var end := if i + 1 < |cs| && cs[i + 1].free then i + 2 else i + 1;
    FreedAt(cs, i, r, j, end);
    assert 0 < j < i ==> !Both(cs, j);
    assert i + 1 < end < |cs| ==> !Both(cs, end);
    JoinedApart(cs, r[j], j, end);
  }

  /** No neighbour of the merged chunk is free exactly unless two free chunks lay side by side on
      one side of it. */
  lemma {:induction false} FreedNeighbours(cs: seq<Chunk>, i: nat)
    requires i < |cs|
    ensures var r, j := Freed(cs, i), Where(cs, i);
            && j < |r| && r[j].free
            && ((j > 0 ==> !r[j - 1].free) && (j + 1 < |r| ==> !r[j + 1].free)
                <==> (i > 1 ==> !Both(cs, i - 1)) && (i + 2 < |cs| ==> !Both(cs, i + 2)))
  {
    var r, j := Freed(cs, i), Where(cs, i);
    FreedAt(cs, i, r, j, if i + 1 < |cs| && cs[i + 1].free then i + 2 else i + 1);
  }

  /** Taking keeps free chunks apart. */
  lemma {:induction false} TakenApart(cs: seq<Chunk>, i: nat, n: nat)
    requires i < |cs| && Suits(cs[i], n) && Apart(cs)
    ensures Apart(Taken(cs, i, n))
  {
    var t := Taken(cs, i, n);
    forall k | 0 < k < |t| ensures !Both(t, k) {
      if k < i {
        assert !Both(cs, k);
      } else if k > i + 1 {
        assert !Both(cs, if |t| > |cs| then k - 1 else k);
      }
    }
  }

  /** Memory that is appended stays apart exactly if the last chunk is in use. */
  lemma {:induction false} GrownApart(cs: seq<Chunk>, n: nat)
    requires n < WORD && 0 < MapSize(n) && Apart(cs)
    ensures Apart(cs + [MappedChunk(n)]) <==> cs == [] || !cs[|cs| - 1].free
  {
    AddedApart(cs, MappedChunk(n));
  }

  lemma {:induction false} AddedApart(cs: seq<Chunk>, c: Chunk)
    requires Apart(cs) && c.free
    ensures Apart(cs + [c]) <==> cs == [] || !cs[|cs| - 1].free
  {
    var g := cs + [c];
    forall k | 0 < k < |cs| ensures !Both(g, k) {
      assert !Both(cs, k);
    }
    assert cs != [] ==> (Both(g, |cs|) <==> cs[|cs| - 1].free);
  }

  /** So a block that is freed can be left with a free neighbour. */
  lemma {:induction false} FreedBeside(a: nat, b: nat, c: nat)
    ensures Freed([Chunk(a, false), Chunk(b, true), Chunk(c, true)], 0)
            == [Chunk(a + HEADER + b, true), Chunk(c, true)]
  {
    var cs := [Chunk(a, false), Chunk(b, true), Chunk(c, true)];
    assert cs[0 := Chunk(a, true)] == [Chunk(a, true), Chunk(b, true), Chunk(c, true)];
  }

  /** No chunk is larger than what is mapped. */
  lemma {:induction false} ChunkWithin(cs: seq<Chunk>, i: nat)
    requires i < |cs|
    ensures cs[i].size + HEADER <= Total(cs)
    decreases |cs|
  {
    if i < |cs| - 1 { ChunkWithin(cs[..|cs| - 1], i); }
  }

  // ----- a whole allocation -----

  /** What an allocation leaves behind: the chunks, whether it was served, and the kernel's answers
      it did not ask for. */
  datatype Outcome = Outcome(chunks: seq<Chunk>, served: bool, rest: seq<bool>)

  function Later(answers: seq<bool>): (rest: seq<bool>)
  {
    if answers == [] then [] else answers[1..]
  }

  /** The kernel's next answer lets `n` bytes be mapped. */
  predicate Granted(mapped: nat, n: nat, answers: seq<bool>)
  {
    answers != [] && answers[0] && 0 < MapSize(n) && mapped + MapSize(n) < WORD
  }

  /** The chunk made of memory mapped for `n` bytes. */
  function MappedChunk(n: nat): (c: Chunk)
    requires n < WORD && 0 < MapSize(n)
    ensures c.size + HEADER == MapSize(n)
  {
    MapSizeIff(n);
    Chunk(MapSize(n) - HEADER, true)
  }

  /** Appending it keeps the sizes adding up to whole pages. */
  lemma {:induction false} MappedTotal(cs: seq<Chunk>, mapped: nat, n: nat)
    requires n < WORD && 0 < MapSize(n) && mapped == Total(cs) && mapped % PAGE == 0
    ensures Total(cs + [MappedChunk(n)]) == mapped + MapSize(n)
    ensures (mapped + MapSize(n)) % PAGE == 0
  {
    TotalAppend(cs, [MappedChunk(n)]);
    TotalOne(MappedChunk(n));
    MapSizeIff(n);
  }

  /** An allocation of `n` bytes takes the first fit; without one it appends memory and starts
      over. */
  function Obtained(cs: seq<Chunk>, mapped: nat, n: nat, answers: seq<bool>): (r: Outcome)
    requires n < WORD
    decreases |answers|
  {
    var i := FirstFit(cs, n);
    if i < |cs| then Outcome(Taken(cs, i, n), true, answers)
    else if Granted(mapped, n, answers) then
      Obtained(cs + [MappedChunk(n)], mapped + MapSize(n), n, answers[1..])
    else Outcome(cs, false, Later(answers))
  }

  /** The chunks appended by leading grants, one after the other. */
  function Appended(mapped: nat, n: nat, answers: seq<bool>): (more: seq<Chunk>)
    requires n < WORD
    ensures |more| <= |answers|
    ensures forall j :: 0 <= j < |more| ==> answers[j] && 0 < MapSize(n) && more[j] == MappedChunk(n)
    decreases |answers|
  {
    if Granted(mapped, n, answers) then
      [MappedChunk(n)] + Appended(mapped + MapSize(n), n, answers[1..])
    else []
  }

  lemma {:induction false} FitsOrNot(cs: seq<Chunk>, c: Chunk, n: nat)
    requires FirstFit(cs, n) == |cs| && c.free
    ensures FirstFit(cs + [c], n) == if c.size >= n then |cs| else |cs| + 1
  {
    var more := cs + [c];
    assert more[|cs|] == c;
    forall j | 0 <= j < |cs| ensures !Suits(more[j], n) {
      assert more[j] == cs[j];
    }
  }

  /** Where mapped memory has room for the request, the kernel is asked at most once, and the
      request is served exactly if it grants the memory. */
  lemma {:induction false} AskedOnce(cs: seq<Chunk>, mapped: nat, n: nat, answers: seq<bool>)
    requires n < WORD && FirstFit(cs, n) == |cs| && MapSize(n) >= n + HEADER
    ensures var r := Obtained(cs, mapped, n, answers);
            r.rest == Later(answers) && (r.served <==> Granted(mapped, n, answers))
  {
    if Granted(mapped, n, answers) {
      FitsOrNot(cs, MappedChunk(n), n);
    }
  }

  /** Where it has not, the request fails after every leading grant has been used up: so many
      chunks are appended that it cannot take. */
  lemma {:induction false} AskedInVain(cs: seq<Chunk>, mapped: nat, n: nat, answers: seq<bool>)
    requires n < WORD && FirstFit(cs, n) == |cs| && MapSize(n) < n + HEADER
    ensures var more := Appended(mapped, n, answers);
            Obtained(cs, mapped, n, answers) == Outcome(cs + more, false, Later(answers[|more|..]))
    decreases |answers|
  {
    if Granted(mapped, n, answers) {
      var c, m := MappedChunk(n), mapped + MapSize(n);
      FitsOrNot(cs, c, n);
      AskedInVain(cs + [c], m, n, answers[1..]);
      var more := Appended(m, n, answers[1..]);
      assert cs + ([c] + more) == cs + [c] + more;
      assert answers[1..][|more|..] == answers[1 + |more|..];
    } else {
      assert cs + [] == cs && answers[0..] == answers;
    }
  }

  /** The leading grants end at a refusal or where no page is left. */
  lemma {:induction false} AppendedAll(mapped: nat, n: nat, answers: seq<bool>)
    requires n < WORD && MapSize(n) == PAGE
    ensures var k := |Appended(mapped, n, answers)|;
            k == |answers| || !answers[k] || mapped + PAGE * k + PAGE >= WORD
    decreases |answers|
  {
    if Granted(mapped, n, answers) {
      AppendedAll(mapped + PAGE, n, answers[1..]);
    }
  }

  /** Free one-page chunks have been appended for all leading grants, up to a refusal or to where
      no page is left. */
  ghost predicate Pages(cs: seq<Chunk>, mapped: nat, answers: seq<bool>, chunks: seq<Chunk>, rest: seq<bool>)
  {
    var k := |chunks| - |cs|;
    && 0 <= k <= |answers|
    && chunks[..|cs|] == cs && rest == Later(answers[k..])
    && (forall j :: 0 <= j < k ==> answers[j])
    && (forall j :: |cs| <= j < |chunks| ==> chunks[j] == Chunk(PAGE - HEADER, true))
    && (k == |answers| || !answers[k] || mapped + PAGE * k + PAGE >= WORD)
  }

  /** What an allocation comes to, by its size, if nothing fits. */
  lemma {:induction false} SizeServed(cs: seq<Chunk>, mapped: nat, size: nat, answers: seq<bool>)
    requires 0 < size < WORD && Aligned(size) < WORD && FirstFit(cs, Aligned(size)) == |cs|
    ensures var r := Obtained(cs, mapped, Aligned(size), answers);
            && (size <= WORD - HEADER - PAGE || size > WORD - 8 ==>
                  r.rest == Later(answers) && (r.served <==> Granted(mapped, Aligned(size), answers)))
            && (WORD - HEADER - PAGE < size <= WORD - HEADER ==> r == Outcome(cs, false, Later(answers)))
            && (WORD - HEADER < size <= WORD - 8 ==>
                  !r.served && Pages(cs, mapped, answers, r.chunks, r.rest))
  {
    var n := Aligned(size);
    MapSizeRanges(size);
    if size <= WORD - HEADER - PAGE || size > WORD - 8 {
      AskedOnce(cs, mapped, n, answers);
    } else if size > WORD - HEADER {
      AskedInVain(cs, mapped, n, answers);
      AppendedAll(mapped, n, answers);
      var more := Appended(mapped, n, answers);
      assert |cs + more| == |cs| + |more| && (cs + more)[..|cs|] == cs;
    }
  }

  /** The largest request is served with a block of no bytes, if the kernel grants a page. */
  lemma {:induction false} LargestServed()
    ensures var r := Obtained([], 0, Aligned(WORD - 1), [true]);
            r.served && |r.chunks| == 2 && r.chunks[0] == Chunk(0, false)
  {
    AlignedIff(WORD - 1);
    MapSizeRanges(WORD - 1);
    assert MapSize(0) == PAGE;
    var c := MappedChunk(0);
    assert [] + [c] == [c];
    assert FirstFit([c], 0) == 0;
    assert Obtained([c], PAGE, 0, []) == Outcome(Taken([c], 0, 0), true, []);
  }
}
