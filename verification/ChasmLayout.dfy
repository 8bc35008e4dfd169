/** The layout of the assembler's heap as a list of chunks, and what allocation and freeing do
    to it.  The heap is a row of 16-byte units; a chunk is one header unit and its payload. */
module ChasmLayout {
  const UNIT: nat := 16
  const HEAP_UNITS: nat := 16384
  const SIZE_MAX: nat := 0xFFFF_FFFF_FFFF_FFFF

  datatype Chunk = Chunk(units: nat, free: bool)

  /** Units taken by the chunks, headers included. */
  function Extent(l: seq<Chunk>): (n: nat)
    ensures n >= |l|
  {
    if l == [] then 0 else 1 + l[0].units + Extent(l[1..])
  }

  predicate AllNonempty(l: seq<Chunk>)
  {
    forall i :: 0 <= i < |l| ==> l[i].units > 0
  }

  predicate NoTwoFree(l: seq<Chunk>)
  {
    forall i :: 0 <= i < |l| - 1 ==> !(l[i].free && l[i + 1].free)
  }

  /** What every state of the heap satisfies: the chunks tile the heap, none is empty, and free
      chunks are never neighbours. */
  predicate WellFormed(l: seq<Chunk>)
  {
    Extent(l) == HEAP_UNITS && AllNonempty(l) && NoTwoFree(l)
  }

  /** The used chunks: first payload unit to payload units. */
  function Live(l: seq<Chunk>, at: nat): (m: map<nat, nat>)
    ensures forall p :: p in m ==> at < p <= at + Extent(l)
  {
    if l == [] then map[]
    else
      var rest := Live(l[1..], at + 1 + l[0].units);
      if l[0].free then rest else rest[at + 1 := l[0].units]
  }

  /** Unit `u` belongs to the payload of a used chunk. */
  predicate Used(l: seq<Chunk>, at: nat, u: nat)
  {
    l != [] &&
    ((!l[0].free && at < u <= at + l[0].units) || Used(l[1..], at + 1 + l[0].units, u))
  }

  // ----- appending -----

  lemma {:induction false} ExtentAppend(a: seq<Chunk>, b: seq<Chunk>)
    ensures Extent(a + b) == Extent(a) + Extent(b)
    decreases |a|
  {
    if a == [] {
      assert a + b == b;
    } else {
      assert (a + b)[1..] == a[1..] + b;
      ExtentAppend(a[1..], b);
    }
  }

  lemma {:induction false} LiveAppend(a: seq<Chunk>, b: seq<Chunk>, at: nat)
    ensures Live(a + b, at) == Live(a, at) + Live(b, at + Extent(a))
    decreases |a|
  {
    if a == [] {
      assert a + b == b;
    } else {
      assert (a + b)[1..] == a[1..] + b;
      LiveAppend(a[1..], b, at + 1 + a[0].units);
    }
  }

  lemma {:induction false} UsedAppend(a: seq<Chunk>, b: seq<Chunk>, at: nat, u: nat)
    ensures Used(a + b, at, u) <==> Used(a, at, u) || Used(b, at + Extent(a), u)
    decreases |a|
  {
    if a == [] {
      assert a + b == b;
    } else {
      assert (a + b)[1..] == a[1..] + b;
      UsedAppend(a[1..], b, at + 1 + a[0].units, u);
    }
  }

  lemma {:induction false} UsedWithin(l: seq<Chunk>, at: nat, u: nat)
    requires Used(l, at, u)
    ensures at < u < at + Extent(l)
    decreases |l|
  {
    if !(!l[0].free && at < u <= at + l[0].units) {
      UsedWithin(l[1..], at + 1 + l[0].units, u);
    }
  }

  /** Unit `u` is used exactly when it lies in a live payload; live payloads do not overlap. */
  lemma {:induction false} UsedIsLive(l: seq<Chunk>, at: nat, u: nat)
    ensures Used(l, at, u) <==> exists p :: p in Live(l, at) && p <= u < p + Live(l, at)[p]
    ensures forall p, q :: p in Live(l, at) && q in Live(l, at) && p < q ==> p + Live(l, at)[p] < q
    decreases |l|
  {
    if l != [] {
      var next := at + 1 + l[0].units;
      UsedIsLive(l[1..], next, u);
      var m := Live(l[1..], next);
      if !l[0].free {
        assert Live(l, at) == m[at + 1 := l[0].units];
        if at < u <= at + l[0].units { assert at + 1 in Live(l, at); }
      }
      if exists p :: p in m && p <= u < p + m[p] {
        var p :| p in m && p <= u < p + m[p];
        assert p in Live(l, at) && Live(l, at)[p] == m[p];
      }
    }
  }

  lemma {:induction false} OneChunk(c: Chunk, at: nat)
    ensures Extent([c]) == 1 + c.units
    ensures Live([c], at) == if c.free then map[] else map[at + 1 := c.units]
  {
    assert [c][1..] == [];
  }

  /** A list cut in three. */
  lemma {:induction false} ExtentAround(a: seq<Chunk>, c: seq<Chunk>, b: seq<Chunk>)
    ensures Extent(a + c) == Extent(a) + Extent(c)
    ensures Extent(a + c + b) == Extent(a) + Extent(c) + Extent(b)
  {
    ExtentAppend(a + c, b);
    ExtentAppend(a, c);
  }

  lemma {:induction false} Around(a: seq<Chunk>, c: seq<Chunk>, b: seq<Chunk>)
    ensures Extent(a + c + b) == Extent(a) + Extent(c) + Extent(b)
    ensures Live(a + c + b, 0) == Live(a, 0) + Live(c, Extent(a)) + Live(b, Extent(a) + Extent(c))
  {
    ExtentAround(a, c, b);
    assert Live(a + c, 0) == Live(a, 0) + Live(c, Extent(a)) by { LiveAppend(a, c, 0); }
    LiveAppend(a + c, b, 0);
  }

  lemma {:induction false} OneEntry(a: map<nat, nat>, b: map<nat, nat>, p: nat, n: nat)
    requires p !in a && p !in b
    ensures p !in a + map[] + b
    ensures a + map[p := n] + b == (a + map[] + b)[p := n]
  {
  }

  /** Marking a chunk as used, or handing out a part of it, changes one entry of the live map. */
  lemma {:induction false} LiveChanges(a: seq<Chunk>, c: seq<Chunk>, c': seq<Chunk>, b: seq<Chunk>,
                                       n: nat)
    requires Extent(c) == Extent(c') > 0
    requires Live(c, Extent(a)) == map[] && Live(c', Extent(a)) == map[Extent(a) + 1 := n]
    ensures Extent(a) + 1 !in Live(a + c + b, 0)
    ensures Live(a + c' + b, 0) == Live(a + c + b, 0)[Extent(a) + 1 := n]
  {
    Around(a, c, b);
    Around(a, c', b);
    OneEntry(Live(a, 0), Live(b, Extent(a) + Extent(c)), Extent(a) + 1, n);
  }

  /** Payloads begin inside the heap. */
  lemma {:induction false} LiveInside(l: seq<Chunk>, at: nat, p: nat)
    requires AllNonempty(l) && p in Live(l, at)
    ensures p < at + Extent(l)
    decreases |l|
  {
    if p != at + 1 { LiveInside(l[1..], at + 1 + l[0].units, p); }
  }

  // ----- allocation -----

  /** Index of the first free chunk of at least `k` units, or the number of chunks. */
  function FirstFit(l: seq<Chunk>, k: nat): (i: nat)
    ensures i <= |l| && (i < |l| ==> l[i].free && l[i].units >= k)
    ensures forall j :: 0 <= j < i ==> !(l[j].free && l[j].units >= k)
  {
    if l == [] then 0
    else if l[0].free && l[0].units >= k then 0
    else 1 + FirstFit(l[1..], k)
  }

  /** Chunk `c` handed out for `k` units: split if a header and one more unit remain. */
  function Carve(c: Chunk, k: nat): (l: seq<Chunk>)
    requires k <= c.units
  {
    if c.units - k >= 2 then [Chunk(k, false)] + [Chunk(c.units - k - 1, true)] else [Chunk(c.units, false)]
  }

  lemma {:induction false} CarveKeeps(c: Chunk, k: nat, at: nat)
    requires 0 < k <= c.units
    ensures Extent(Carve(c, k)) == 1 + c.units
    ensures Live(Carve(c, k), at) == map[at + 1 := Carve(c, k)[0].units]
  {
    if c.units - k >= 2 {
      ExtentAppend([Chunk(k, false)], [Chunk(c.units - k - 1, true)]);
      LiveAppend([Chunk(k, false)], [Chunk(c.units - k - 1, true)], at);
      OneChunk(Chunk(k, false), at);
      OneChunk(Chunk(c.units - k - 1, true), at + 1 + k);
    } else {
      OneChunk(Chunk(c.units, false), at);
    }
  }

  function Allocated(l: seq<Chunk>, i: nat, k: nat): (r: seq<Chunk>)
    requires i < |l| && k <= l[i].units
  {
    l[..i] + Carve(l[i], k) + l[i + 1..]
  }

  /** Allocation keeps the heap well formed. */
  lemma {:induction false} AllocatedWellFormed(l: seq<Chunk>, i: nat, k: nat)
    requires WellFormed(l) && i < |l| && l[i].free && 0 < k <= l[i].units
    ensures WellFormed(Allocated(l, i, k))
  {
    var a, c, b := l[..i], Carve(l[i], k), l[i + 1..];
    assert l == a + [l[i]] + b;
    Around(a, [l[i]], b);
    Around(a, c, b);
    OneChunk(l[i], 0);
    CarveKeeps(l[i], k, 0);
    CarveSeparates(l, i, k);
  }

  lemma {:induction false} CarveSeparates(l: seq<Chunk>, i: nat, k: nat)
    requires AllNonempty(l) && NoTwoFree(l) && i < |l| && l[i].free && 0 < k <= l[i].units
    ensures AllNonempty(Allocated(l, i, k)) && NoTwoFree(Allocated(l, i, k))
  {
    var r := Allocated(l, i, k);
    var n := |Carve(l[i], k)|;
    forall j | 0 <= j < |r| - 1 ensures !(r[j].free && r[j + 1].free) {
      if j + 1 < i {
        assert r[j] == l[j] && r[j + 1] == l[j + 1];
      } else if j >= i + n {
        assert r[j] == l[j - n + 1] && r[j + 1] == l[j - n + 2];
      } else if j == i + n - 1 {
        assert r[j + 1] == l[i + 1] && !(l[i].free && l[i + 1].free);
      }
    }
  }

  /** Allocation adds one live chunk, of `k` units or one more, and disturbs no other. */
  lemma {:induction false} AllocatedLive(l: seq<Chunk>, i: nat, k: nat)
    requires i < |l| && l[i].free && 0 < k <= l[i].units
    ensures var p := Extent(l[..i]) + 1;
            var n := Carve(l[i], k)[0].units;
            k <= n <= k + 1 && p !in Live(l, 0) && Live(Allocated(l, i, k), 0) == Live(l, 0)[p := n]
  {
    var a, c, b := l[..i], Carve(l[i], k), l[i + 1..];
    assert l == a + [l[i]] + b;
    OneChunk(l[i], Extent(a));
    CarveKeeps(l[i], k, Extent(a));
    LiveChanges(a, [l[i]], c, b, c[0].units);
  }

  // ----- freeing -----

  /** Merging neighbouring free chunks from the front. */
  function Coalesce(l: seq<Chunk>): (r: seq<Chunk>)
    decreases |l|
  {
    if |l| < 2 then l
    else if l[0].free && l[1].free then Coalesce([Merge(l[0], l[1])] + l[2..])
    else [l[0]] + Coalesce(l[1..])
  }

  function Merge(a: Chunk, b: Chunk): (c: Chunk)
  {
    Chunk(a.units + 1 + b.units, true)
  }

  lemma {:induction false} CoalesceFirst(l: seq<Chunk>)
    requires l != []
    ensures Coalesce(l) != [] && Coalesce(l)[0].free == l[0].free
    decreases |l|
  {
    if |l| >= 2 && l[0].free && l[1].free {
      CoalesceFirst([Merge(l[0], l[1])] + l[2..]);
    }
  }

  /** After merging, free chunks are never neighbours, and nothing is empty. */
  lemma {:induction false} CoalesceSeparates(l: seq<Chunk>)
    requires AllNonempty(l)
    ensures NoTwoFree(Coalesce(l)) && AllNonempty(Coalesce(l))
    decreases |l|
  {
    if |l| >= 2 {
      if l[0].free && l[1].free {
        CoalesceSeparates([Merge(l[0], l[1])] + l[2..]);
      } else {
        CoalesceSeparates(l[1..]);
        CoalesceFirst(l[1..]);
      }
    }
  }

  /** Merging moves no unit and touches no used chunk. */
  lemma {:induction false} CoalesceKeeps(l: seq<Chunk>, at: nat)
    ensures Extent(Coalesce(l)) == Extent(l) && Live(Coalesce(l), at) == Live(l, at)
    decreases |l|
  {
    if |l| >= 2 {
      assert l[1..][1..] == l[2..];
      if l[0].free && l[1].free {
        var l' := [Merge(l[0], l[1])] + l[2..];
        assert l'[1..] == l[2..];
        CoalesceKeeps(l', at);
      } else {
        var r := [l[0]] + Coalesce(l[1..]);
        assert r[1..] == Coalesce(l[1..]);
        CoalesceKeeps(l[1..], at + 1 + l[0].units);
      }
    }
  }

  function Freed(l: seq<Chunk>, i: nat): (r: seq<Chunk>)
    requires i < |l|
  {
    Coalesce(l[i := l[i].(free := true)])
  }

  /** Freeing keeps the heap well formed. */
  lemma {:induction false} FreedWellFormed(l: seq<Chunk>, i: nat)
    requires WellFormed(l) && i < |l|
    ensures WellFormed(Freed(l, i))
  {
    var m := l[i := l[i].(free := true)];
    var a, b := l[..i], l[i + 1..];
    assert l == a + [l[i]] + b && m == a + [m[i]] + b;
    Around(a, [l[i]], b);
    Around(a, [m[i]], b);
    OneChunk(l[i], 0);
    OneChunk(m[i], 0);
    CoalesceSeparates(m);
    CoalesceKeeps(m, 0);
  }

  /** Freeing removes one live chunk and disturbs no other. */
  lemma {:induction false} FreedLive(l: seq<Chunk>, i: nat)
    requires i < |l| && !l[i].free
    ensures var p := Extent(l[..i]) + 1;
            p in Live(l, 0) && Live(Freed(l, i), 0) == Live(l, 0) - {p}
  {
    var m := l[i := l[i].(free := true)];
    var a, b := l[..i], l[i + 1..];
    assert l == a + [l[i]] + b && m == a + [m[i]] + b;
    OneChunk(l[i], Extent(a));
    OneChunk(m[i], Extent(a));
    LiveChanges(a, [m[i]], [l[i]], b, l[i].units);
    CoalesceKeeps(m, 0);
  }
}
