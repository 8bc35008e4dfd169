/** The heap itself: one flat array whose units hold headers where chunks begin. */
module ChasmHeap {
  import opened Basics
  import opened ChasmLayout

  /** A unit read as a header; inside payloads its contents are whatever the client stored. */
  datatype Header = Header(size: nat, free: bool)

  /** The chunks of `l` have their headers in `mem` from unit `at` on. */
  predicate Placed(mem: seq<Header>, l: seq<Chunk>, at: nat)
  {
    l == [] ||
    (at < |mem| && mem[at] == Header(UNIT * l[0].units, l[0].free) && Placed(mem, l[1..], at + 1 + l[0].units))
  }

  lemma {:induction false} PlacedAppend(mem: seq<Header>, a: seq<Chunk>, b: seq<Chunk>, at: nat)
    ensures Placed(mem, a + b, at) <==> Placed(mem, a, at) && Placed(mem, b, at + Extent(a))
    decreases |a|
  {
    if a == [] {
      assert a + b == b;
    } else {
      assert (a + b)[1..] == a[1..] + b;
      PlacedAppend(mem, a[1..], b, at + 1 + a[0].units);
    }
  }

  /** Headers stay in place under writes elsewhere. */
  lemma {:induction false} PlacedFrame(mem: seq<Header>, mem': seq<Header>, l: seq<Chunk>, at: nat)
    requires Placed(mem, l, at) && |mem'| == |mem|
    requires forall u :: at <= u < |mem| && u < at + Extent(l) && !Used(l, at, u) ==> mem'[u] == mem[u]
    ensures Placed(mem', l, at)
    decreases |l|
  {
    if l != [] {
      var next := at + 1 + l[0].units;
      assert !Used(l, at, at) by {
        if Used(l, at, at) { UsedWithin(l, at, at); }
      }
      forall u | next <= u < |mem| && u < next + Extent(l[1..]) && !Used(l[1..], next, u) ensures mem'[u] == mem[u] {
        assert !Used(l, at, u);
      }
      PlacedFrame(mem, mem', l[1..], next);
    }
  }

  /** Some chunks in the middle give way to others of the same extent; only their units change. */
  lemma {:induction false} PlacedSwap(mem: seq<Header>, mem': seq<Header>, a: seq<Chunk>, c: seq<Chunk>,
                                      c': seq<Chunk>, b: seq<Chunk>)
    requires Placed(mem, a + c + b, 0) && |mem'| == |mem| && Extent(c') == Extent(c)
    requires forall u :: 0 <= u < |mem| && !(Extent(a) <= u < Extent(a) + Extent(c)) ==> mem'[u] == mem[u]
    requires Placed(mem', c', Extent(a))
    ensures Placed(mem', a + c' + b, 0)
  {
    var end := Extent(a) + Extent(c);
    assert Placed(mem, a, 0) && Placed(mem, b, end) by {
      ExtentAppend(a, c);
      PlacedAppend(mem, a + c, b, 0);
      PlacedAppend(mem, a, c, 0);
    }
    assert Placed(mem', a, 0) by { PlacedFrame(mem, mem', a, 0); }
    assert Placed(mem', b, end) by { PlacedFrame(mem, mem', b, end); }
    ExtentAppend(a, c');
    PlacedAppend(mem', a, c', 0);
    PlacedAppend(mem', a + c', b, 0);
  }

  /** Whole payload units for a request of `bytes`. */
  function UnitsFor(bytes: nat): (k: nat)
    ensures k > 0 && UNIT * k >= bytes && (bytes > 0 ==> UNIT * k < bytes + UNIT)
  {
    ((if bytes == 0 then 1 else bytes) + UNIT - 1) / UNIT
  }

  /** No free chunk has room for `bytes`. */
  predicate NoneFits(l: seq<Chunk>, bytes: nat)
  {
    forall c :: c in l && c.free ==> UNIT * c.units < bytes
  }

  const INITIAL: seq<Chunk> := [Chunk(HEAP_UNITS - 1, true)]

  class X64Heap {
    const units: array<Header>
    var initialized: bool
    ghost var layout: seq<Chunk>

    constructor ()
      ensures Valid() && layout == INITIAL && fresh(units)
    {
      units := new Header[HEAP_UNITS](_ => Header(1, false));
      initialized := false;
      layout := INITIAL;
      OneChunk(INITIAL[0], 0);
    }

    /** Before the first allocation the array holds arbitrary bytes and nothing is live. */
    ghost predicate Valid()
      reads this, units
    {
      && units.Length == HEAP_UNITS && WellFormed(layout)
      && (if initialized then Placed(units[..], layout, 0) else layout == INITIAL)
    }

    method Init()
      requires Valid()
      modifies this`initialized, units
      ensures Valid() && initialized
      ensures old(initialized) ==> units[..] == old(units[..])
    {
      if initialized { return; }
      var i := 0;
      while i < units.Length
        invariant 0 <= i <= units.Length
      {
        units[i] := Header(0, false);
        i := i + 1;
      }
      units[0] := Header(UNIT * (HEAP_UNITS - 1), true);
      initialized := true;
      assert layout[1..] == [];
    }

    /** First fit.  The result is a byte offset; it is absent exactly when no free chunk can hold
        the request.  Nothing inside a live payload is written. */
    method Allocate(bytes: nat) returns (p: Option<nat>)
      requires Valid() && bytes <= SIZE_MAX
      modifies this, units
      ensures Valid()
      ensures p.None? <==> NoneFits(old(layout), bytes)
      ensures p.None? ==> layout == old(layout)
      ensures p.Some? ==>
                var i := FirstFit(old(layout), UnitsFor(bytes));
                i < |old(layout)| && layout == Allocated(old(layout), i, UnitsFor(bytes))
                && p.value == UNIT * (Extent(old(layout)[..i]) + 1)
      ensures old(initialized) ==>
                forall u :: 0 <= u < HEAP_UNITS && Used(old(layout), 0, u) ==> units[u] == old(units[u])
    {
      var k := UnitsFor(bytes);
      p := None;
      FitsBytes(layout, bytes);
      if bytes > SIZE_MAX - 15 {
        TooLarge(layout, bytes);
        return;
      }
      Init();
      ghost var i;
      var at;
      at, i := Walk(k);
      if at < HEAP_UNITS {
        TakeChunk(at, k, i);
        p := Some(UNIT * (at + 1));
      }
    }

    /** Walks from header to header to the first free chunk of `k` units; the end of the heap if
        there is none. */
    method Walk(k: nat) returns (at: nat, ghost i: nat)
      requires Valid() && initialized
      ensures i == FirstFit(layout, k) && at == Extent(layout[..FirstFit(layout, k)]) <= HEAP_UNITS
      ensures i == |layout| <==> at == HEAP_UNITS
    {
      i, at := 0, 0;
      while at + 1 <= HEAP_UNITS
        invariant 0 <= i <= |layout| && at == Extent(layout[..i]) && i <= FirstFit(layout, k)
        decreases |layout| - i
      {
        AtChunk(units[..], layout, i);
        FirstFitSkips(layout, k, i);
        var size := units[at].size;
        assert size <= UNIT * (HEAP_UNITS - at - 1);
        if units[at].free && size >= UNIT * k { return; }
        at := at + 1 + size / UNIT;
        i := i + 1;
      }
      AtChunk(units[..], layout, i);
    }

    /** Hands out chunk `i`, whose header is at `at`, for `k` units. */
    method TakeChunk(at: nat, k: nat, ghost i: nat)
      requires Valid() && initialized && i < |layout| && at == Extent(layout[..i])
      requires layout[i].free && 0 < k <= layout[i].units
      modifies this`layout, units
      ensures Valid() && layout == Allocated(old(layout), i, k)
      ensures forall u :: 0 <= u < HEAP_UNITS && Used(old(layout), 0, u) ==> units[u] == old(units[u])
    {
      ghost var l, mem := layout, units[..];
      AtChunk(mem, l, i);
      AllocatedWellFormed(l, i, k);
      var remaining := units[at].size - UNIT * k;
      if remaining >= 2 * UNIT {
        units[at + 1 + k] := Header(remaining - UNIT, true);
        units[at] := Header(UNIT * k, false);
      } else {
        units[at] := Header(units[at].size, false);
      }
      TakePlaced(mem, units[..], l, i, k);
      TakeSpares(mem, units[..], l, i, k);
      layout := Allocated(l, i, k);
    }

    /** Frees the live payload at a byte offset.  Null, addresses outside the heap and the very
        first payload are ignored. */
    method Free(address: Option<int>)
      requires Valid()
      requires Heard(address) ==> address.value % UNIT == 0 && address.value / UNIT in Live(layout, 0)
      modifies this`layout, units
      ensures Valid()
      ensures !Heard(address) ==> layout == old(layout) && units[..] == old(units[..])
      ensures Heard(address) ==> layout == Freed(old(layout), Find(old(layout), 0, address.value / UNIT))
      ensures forall u :: 0 <= u < HEAP_UNITS && Used(layout, 0, u) ==> units[u] == old(units[u])
    {
      if address.None? || address.value <= UNIT || address.value >= UNIT * HEAP_UNITS { return; }
      assert Live(INITIAL, 0) == map[] by { OneChunk(INITIAL[0], 0); }
      ghost var i := Find(layout, 0, address.value / UNIT);
      FreedWellFormed(layout, i);
      ghost var marked := layout[i := layout[i].(free := true)];
      ghost var mem := units[..];
      AtChunk(mem, layout, i);
      var header := address.value / UNIT - 1;
      units[header] := units[header].(free := true);
      MarkPlaced(mem, units[..], layout, i);
      MergeAll(marked);
      layout := Freed(layout, i);
      forall u | 0 <= u < HEAP_UNITS && Used(layout, 0, u) ensures units[u] == old(units[u]) {
        CoalesceUsed(marked, u);
        assert marked[..i] == old(layout)[..i];
        HeaderUnused(marked, i);
      }
    }

    /** Walks the heap once, merging each free chunk with the free chunks behind it. */
    method MergeAll(ghost m: seq<Chunk>)
      requires units.Length == HEAP_UNITS && Placed(units[..], m, 0) && Extent(m) == HEAP_UNITS
      modifies units
      ensures Placed(units[..], Coalesce(m), 0)
      ensures forall u :: 0 <= u < HEAP_UNITS && Used(Coalesce(m), 0, u) ==> units[u] == old(units[u])
    {
      ghost var done: seq<Chunk>, rest := [], m;
      assert done + rest == m;
      var at := 0;
      while at + 1 <= HEAP_UNITS
        invariant rest != [] && at == Extent(done) && Extent(done) + Extent(rest) == HEAP_UNITS
        invariant Placed(units[..], done + rest, 0) && done + Coalesce(rest) == Coalesce(m)
        invariant forall u :: 0 <= u < HEAP_UNITS && Used(done + rest, 0, u) ==> units[u] == old(units[u])
        decreases |rest|
      {
        PlacedAppend(units[..], done, rest, 0);
        var next := at + 1 + units[at].size / UNIT;
        assert next == at + 1 + rest[0].units;
        if next + 1 > HEAP_UNITS {
          LastChunk(done, rest);
          return;
        }
        assert |rest| >= 2 && rest[1..][0] == rest[1];
        if units[at].free && units[next].free {
          ghost var mem := units[..];
          units[at] := Header(units[at].size + UNIT + units[next].size, true);
          MergePlaced(mem, units[..], done, rest);
          rest := [Merge(rest[0], rest[1])] + rest[2..];
        } else {
          StepPast(done, rest);
          done, rest := done + [rest[0]], rest[1..];
          at := next;
        }
      }
    }

    /** A client store into a live payload leaves the heap as it is. */
    method Store(u: nat, value: Header)
      requires Valid() && initialized && Used(layout, 0, u)
      modifies units
      ensures Valid() && layout == old(layout)
    {
      UsedWithin(layout, 0, u);
      ghost var mem := units[..];
      units[u] := value;
      PlacedFrame(mem, units[..], layout, 0);
    }
  }

  /** Addresses that freeing does not ignore: inside the heap and behind the first payload. */
  predicate Heard(address: Option<int>)
  {
    address.Some? && UNIT < address.value < UNIT * HEAP_UNITS
  }

  /** Index of the used chunk whose payload begins at unit `p`. */
  function Find(l: seq<Chunk>, at: nat, p: nat): (i: nat)
    requires p in Live(l, at)
    ensures i < |l| && !l[i].free && at + Extent(l[..i]) + 1 == p
  {
    if !l[0].free && p == at + 1 then
      assert l[..0] == [];
      0
    else
      var i := Find(l[1..], at + 1 + l[0].units, p);
      assert l[..i + 1] == [l[0]] + l[1..][..i];
      ExtentAppend([l[0]], l[1..][..i]);
      OneChunk(l[0], at);
      i + 1
  }

  lemma {:induction false} LastChunk(done: seq<Chunk>, rest: seq<Chunk>)
    requires rest != [] && Extent(rest) == 1 + rest[0].units
    ensures Coalesce(rest) == rest
  {
    assert rest == [rest[0]] + rest[1..];
    ExtentAppend([rest[0]], rest[1..]);
    OneChunk(rest[0], 0);
    assert |rest[1..]| == 0;
  }

  lemma {:induction false} Regroup(done: seq<Chunk>, c: Chunk, rest: seq<Chunk>)
    ensures done + ([c] + rest) == (done + [c]) + rest
  {
  }

  lemma {:induction false} CoalesceSteps(rest: seq<Chunk>)
    requires |rest| >= 2 && !(rest[0].free && rest[1].free)
    ensures Coalesce(rest) == [rest[0]] + Coalesce(rest[1..])
    ensures Extent(rest) == 1 + rest[0].units + Extent(rest[1..])
  {
  }

  lemma {:induction false} StepPast(done: seq<Chunk>, rest: seq<Chunk>)
    requires |rest| >= 2 && !(rest[0].free && rest[1].free)
    ensures done + rest == (done + [rest[0]]) + rest[1..]
    ensures done + Coalesce(rest) == (done + [rest[0]]) + Coalesce(rest[1..])
    ensures Extent(done + [rest[0]]) == Extent(done) + 1 + rest[0].units
    ensures Extent(rest) == 1 + rest[0].units + Extent(rest[1..])
  {
    CoalesceSteps(rest);
    Regroup(done, rest[0], Coalesce(rest[1..]));
    ExtentAppend(done, [rest[0]]);
    OneChunk(rest[0], 0);
  }

  /** The headers and the used units after one merge. */
  lemma {:induction false} MergePlaced(mem: seq<Header>, mem': seq<Header>, done: seq<Chunk>, rest: seq<Chunk>)
    requires |rest| >= 2 && rest[0].free && rest[1].free && Extent(done) < |mem| && Placed(mem, done + rest, 0)
    requires mem' == mem[Extent(done) := Header(UNIT * (rest[0].units + 1 + rest[1].units), true)]
    ensures var rest' := [Merge(rest[0], rest[1])] + rest[2..];
            Placed(mem', done + rest', 0) && Extent(rest') == Extent(rest)
            && forall u :: Used(done + rest', 0, u) ==> Used(done + rest, 0, u) && u != Extent(done)
  {
    var rest', at := [Merge(rest[0], rest[1])] + rest[2..], Extent(done);
    var end := at + 2 + rest[0].units + rest[1].units;
    assert rest'[1..] == rest[2..] == rest[1..][1..];
    PlacedAppend(mem, done, rest, 0);
    PlacedAppend(mem', done, rest', 0);
    PlacedFrame(mem, mem', done, 0);
    PlacedFrame(mem, mem', rest[2..], end);
    forall u | Used(done + rest', 0, u) ensures Used(done + rest, 0, u) && u != at {
      UsedAppend(done, rest', 0, u);
      UsedAppend(done, rest, 0, u);
      if Used(done, 0, u) { UsedWithin(done, 0, u); }
      if Used(rest', at, u) { UsedWithin(rest', at, u); }
    }
  }

  lemma {:induction false} CoalesceUsed(m: seq<Chunk>, u: nat)
    ensures Used(Coalesce(m), 0, u) <==> Used(m, 0, u)
  {
    CoalesceKeeps(m, 0);
    UsedIsLive(m, 0, u);
    UsedIsLive(Coalesce(m), 0, u);
  }

  /** Setting the free mark of chunk `i`. */
  lemma {:induction false} MarkPlaced(mem: seq<Header>, mem': seq<Header>, l: seq<Chunk>, i: nat)
    requires |mem| == HEAP_UNITS && WellFormed(l) && Placed(mem, l, 0) && i < |l| && Extent(l[..i]) < HEAP_UNITS
    requires mem' == mem[Extent(l[..i]) := mem[Extent(l[..i])].(free := true)]
    ensures var m := l[i := l[i].(free := true)];
            Placed(mem', m, 0) && Extent(m) == HEAP_UNITS
  {
    var c, c' := l[i], l[i].(free := true);
    var m := l[i := c'];
    var a, b, at := l[..i], l[i + 1..], Extent(l[..i]);
    assert l == a + [c] + b && m == a + [c'] + b;
    AtChunk(mem, l, i);
    OneChunk(c, at);
    OneChunk(c', at);
    Around(a, [c], b);
    Around(a, [c'], b);
    assert [c'][1..] == [];
    PlacedSwap(mem, mem', a, [c], [c'], b);
  }

  /** A header is no part of any payload. */
  lemma {:induction false} HeaderUnused(l: seq<Chunk>, i: nat)
    requires i < |l|
    ensures !Used(l, 0, Extent(l[..i]))
  {
    var a, b, at := l[..i], l[i..], Extent(l[..i]);
    assert l == a + b;
    UsedAppend(a, b, 0, at);
    if Used(a, 0, at) { UsedWithin(a, 0, at); }
    if Used(b, at, at) { UsedWithin(b, at, at); }
  }

  /** No free chunk fits `bytes`, in units and in bytes alike. */
  lemma {:induction false} FitsBytes(l: seq<Chunk>, bytes: nat)
    requires WellFormed(l)
    ensures FirstFit(l, UnitsFor(bytes)) == |l| <==> NoneFits(l, bytes)
  {
    var k := UnitsFor(bytes);
    var i := FirstFit(l, k);
    if i < |l| {
      assert l[i] in l && UNIT * l[i].units >= UNIT * k;
    } else {
      forall c | c in l && c.free ensures UNIT * c.units < bytes {
        var j :| 0 <= j < |l| && l[j] == c;
        assert c.units < k && c.units > 0;
      }
    }
  }

  lemma {:induction false} TooLarge(l: seq<Chunk>, bytes: nat)
    requires WellFormed(l) && bytes > SIZE_MAX - 15
    ensures NoneFits(l, bytes)
  {
    forall c | c in l ensures UNIT * c.units < bytes {
      var j :| 0 <= j < |l| && l[j] == c;
      assert l == l[..j] + [c] + l[j + 1..];
      Around(l[..j], [c], l[j + 1..]);
      OneChunk(c, 0);
    }
  }

  /** Where the walk over the headers stands: at chunk `i`, or at the end of the heap. */
  lemma {:induction false} AtChunk(mem: seq<Header>, l: seq<Chunk>, i: nat)
    requires |mem| == HEAP_UNITS && WellFormed(l) && Placed(mem, l, 0) && i <= |l|
    ensures i == |l| <==> Extent(l[..i]) == HEAP_UNITS
    ensures i < |l| ==>
              var at := Extent(l[..i]);
              at + 1 + l[i].units <= HEAP_UNITS && mem[at] == Header(UNIT * l[i].units, l[i].free)
              && Extent(l[..i + 1]) == at + 1 + l[i].units
  {
    var a, b := l[..i], l[i..];
    assert l == a + b;
    PlacedAppend(mem, a, b, 0);
    ExtentAppend(a, b);
    if i < |l| {
      assert l[..i + 1] == a + [l[i]];
      ExtentAppend(a, [l[i]]);
      OneChunk(l[i], 0);
    }
  }

  /** The first fit lies at `i` or behind it. */
  lemma {:induction false} FirstFitSkips(l: seq<Chunk>, k: nat, i: nat)
    requires i < |l| && i <= FirstFit(l, k)
    ensures if l[i].free && l[i].units >= k then FirstFit(l, k) == i else i < FirstFit(l, k)
  {
  }

  /** The headers after handing out chunk `i`. */
  lemma {:induction false} TakePlaced(mem: seq<Header>, mem': seq<Header>, l: seq<Chunk>, i: nat, k: nat)
    requires |mem| == |mem'| == HEAP_UNITS && WellFormed(l) && Placed(mem, l, 0)
    requires i < |l| && l[i].free && 0 < k <= l[i].units
    requires var at := Extent(l[..i]);
             at + 1 + l[i].units <= HEAP_UNITS
             && (if l[i].units - k >= 2
                 then
                   mem' == mem[at + 1 + k := Header(UNIT * (l[i].units - k - 1), true)]
                              [at := Header(UNIT * k, false)]
                 else mem' == mem[at := Header(UNIT * l[i].units, false)])
    ensures Placed(mem', Allocated(l, i, k), 0)
  {
    var a, c, b := l[..i], Carve(l[i], k), l[i + 1..];
    assert l == a + [l[i]] + b;
    OneChunk(l[i], 0);
    CarveKeeps(l[i], k, 0);
    assert c[1..] == (if |c| == 2 then [c[1]] else []);
    PlacedSwap(mem, mem', a, [l[i]], c, b);
  }

  /** Handing out a chunk writes no used unit. */
  lemma {:induction false} TakeSpares(mem: seq<Header>, mem': seq<Header>, l: seq<Chunk>, i: nat, k: nat)
    requires |mem| == |mem'| == HEAP_UNITS && i < |l| && l[i].free && k <= l[i].units
    requires forall u :: 0 <= u < HEAP_UNITS && !(Extent(l[..i]) <= u <= Extent(l[..i]) + l[i].units) ==>
               mem'[u] == mem[u]
    ensures forall u :: 0 <= u < HEAP_UNITS && Used(l, 0, u) ==> mem'[u] == mem[u]
  {
    var a, b := l[..i], l[i + 1..];
    var at, next := Extent(a), Extent(a) + 1 + l[i].units;
    assert l == a + ([l[i]] + b);
    OneChunk(l[i], at);
    forall u | 0 <= u < HEAP_UNITS && Used(l, 0, u) ensures mem'[u] == mem[u] {
      UsedAppend(a, [l[i]] + b, 0, u);
      UsedAppend([l[i]], b, at, u);
      if Used(a, 0, u) { UsedWithin(a, 0, u); }
      if Used(b, next, u) { UsedWithin(b, next, u); }
    }
  }
}
