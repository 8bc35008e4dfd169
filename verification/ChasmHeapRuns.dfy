/** Whole runs of allocations and frees. */
module ChasmHeapRuns {
  import opened Basics
  import opened ChasmLayout
  import opened ChasmHeap

  /** A request for bytes, or the release of the payload that begins at a unit. */
  datatype Op = Request(bytes: nat) | Release(p: nat)

  function Perform(l: seq<Chunk>, op: Op): (l': seq<Chunk>)
  {
    match op
    case Request(bytes) =>
      var i := FirstFit(l, UnitsFor(bytes));
      if i < |l| then Allocated(l, i, UnitsFor(bytes)) else l
    case Release(p) =>
      if p > 1 && p in Live(l, 0) then Freed(l, Find(l, 0, p)) else l
  }

  /** The unit at which a request for `bytes` is served. */
  function ServedAt(l: seq<Chunk>, bytes: nat): (p: nat)
  {
    Extent(l[..FirstFit(l, UnitsFor(bytes))]) + 1
  }

  /** Allocates as one step of a run. */
  method Take(heap: X64Heap, bytes: nat) returns (ok: bool, p: nat)
    requires heap.Valid() && bytes <= SIZE_MAX
    modifies heap, heap.units
    ensures heap.Valid() && heap.layout == Perform(old(heap.layout), Request(bytes))
    ensures ok <==> !NoneFits(old(heap.layout), bytes)
    ensures ok ==> p == ServedAt(old(heap.layout), bytes) && p in Live(heap.layout, 0)
  {
    ghost var l := heap.layout;
    FitsBytes(l, bytes);
    RequestLive(l, bytes);
    var address := heap.Allocate(bytes);
    ok, p := address.Some?, 0;
    if ok {
      p := address.value / UNIT;
    }
  }

  /** Frees as one step of a run. */
  method Give(heap: X64Heap, p: nat)
    requires heap.Valid() && p in Live(heap.layout, 0)
    modifies heap, heap.units
    ensures heap.Valid() && heap.layout == Perform(old(heap.layout), Release(p))
  {
    LiveInside(heap.layout, 0, p);
    heap.Free(Some(UNIT * p));
  }

  function After(ops: seq<Op>): (l: seq<Chunk>)
  {
    if ops == [] then INITIAL else Perform(After(ops[..|ops| - 1]), ops[|ops| - 1])
  }

  /** In every state of every run the chunks tile the heap, no chunk is empty, free chunks are
      never neighbours, and live payloads are disjoint. */
  lemma {:induction false} EveryRunWellFormed(ops: seq<Op>)
    ensures WellFormed(After(ops))
    ensures var m := Live(After(ops), 0);
            forall p, q :: p in m && q in m && p < q ==> p + m[p] < q
    decreases |ops|
  {
    if ops == [] {
      OneChunk(INITIAL[0], 0);
    } else {
      var l, op := After(ops[..|ops| - 1]), ops[|ops| - 1];
      EveryRunWellFormed(ops[..|ops| - 1]);
      match op
      case Request(bytes) =>
        var i := FirstFit(l, UnitsFor(bytes));
        if i < |l| { AllocatedWellFormed(l, i, UnitsFor(bytes)); }
      case Release(p) =>
        if p > 1 && p in Live(l, 0) { FreedWellFormed(l, Find(l, 0, p)); }
    }
    UsedIsLive(After(ops), 0, 0);
  }

  /** A request adds at most one payload, which was not live and has one unit to spare at most;
      all others stay with their size. */
  lemma {:induction false} RequestLive(l: seq<Chunk>, bytes: nat)
    ensures var k := UnitsFor(bytes);
            var i := FirstFit(l, k);
            if i == |l| then Perform(l, Request(bytes)) == l
            else
              var p, n := Extent(l[..i]) + 1, Carve(l[i], k)[0].units;
              k <= n <= k + 1 && p !in Live(l, 0) && Live(Perform(l, Request(bytes)), 0) == Live(l, 0)[p := n]
  {
    var i := FirstFit(l, UnitsFor(bytes));
    if i < |l| { AllocatedLive(l, i, UnitsFor(bytes)); }
  }

  /** A release removes the payload it names, unless that is the first one; all others stay with
      their size. */
  lemma {:induction false} ReleaseLive(l: seq<Chunk>, p: nat)
    ensures Live(Perform(l, Release(p)), 0) == if p == 1 then Live(l, 0) else Live(l, 0) - {p}
  {
    if p > 1 && p in Live(l, 0) {
      FreedLive(l, Find(l, 0, p));
    } else if p != 1 {
      assert p !in Live(l, 0);
    }
  }

  lemma {:induction false} FirstStays(l: seq<Chunk>, op: Op)
    requires 1 in Live(l, 0)
    ensures 1 in Live(Perform(l, op), 0) && Live(Perform(l, op), 0)[1] == Live(l, 0)[1]
  {
    match op
    case Request(bytes) => RequestLive(l, bytes);
    case Release(p) => ReleaseLive(l, p);
  }

  /** The payload at the very start of the heap, once handed out, is never freed again: it stays
      live, with its size, through every further run. */
  lemma {:induction false} FirstPayloadStays(ops: seq<Op>, more: seq<Op>)
    requires 1 in Live(After(ops), 0)
    ensures 1 in Live(After(ops + more), 0)
    ensures Live(After(ops + more), 0)[1] == Live(After(ops), 0)[1]
    decreases |more|
  {
    if more == [] {
      assert ops + more == ops;
    } else {
      var front, op := more[..|more| - 1], more[|more| - 1];
      FirstPayloadStays(ops, front);
      assert (ops + more)[..|ops + more| - 1] == ops + front;
      FirstStays(After(ops + front), op);
    }
  }

  lemma {:induction false} NoLiveAllFree(l: seq<Chunk>, at: nat, i: nat)
    requires Live(l, at) == map[] && i < |l|
    ensures l[i].free
    decreases i
  {
    assert at + 1 !in Live(l, at);
    if i > 0 {
      NoLiveAllFree(l[1..], at + 1 + l[0].units, i - 1);
    }
  }

  /** A heap without live payloads is one free chunk again. */
  lemma {:induction false} EmptyIsInitial(l: seq<Chunk>)
    requires WellFormed(l) && Live(l, 0) == map[]
    ensures l == INITIAL
  {
    if |l| >= 2 {
      NoLiveAllFree(l, 0, 0);
      NoLiveAllFree(l, 0, 1);
    }
    assert |l| == 1;
    NoLiveAllFree(l, 0, 0);
    OneChunk(l[0], 0);
    assert l == [l[0]];
  }

  /** In every run: when everything is freed, nothing is lost. */
  lemma {:induction false} RunEndsInitial(ops: seq<Op>)
    requires Live(After(ops), 0) == map[]
    ensures After(ops) == INITIAL
  {
    EveryRunWellFormed(ops);
    EmptyIsInitial(After(ops));
  }
}
