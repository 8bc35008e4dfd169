/** The assembler's two passes over the instruction list. */
module ChasmAssembler {
  import opened Basics
  import opened ChasmOffsets
  import opened ChasmImage
  import opened ChasmHeapRuns
  import Heap = ChasmHeap
  import Layout = ChasmLayout

  /** A reference left for the second pass: its instruction, and how far before the end of that
      instruction its displacement starts. */
  datatype Patch = Patch(ins: nat, back: nat)

  /** The encoder gives an instruction it cannot encode no bytes. */
  predicate FromEncoder(p: seq<Ins>)
  {
    forall i :: 0 <= i < |p| ==> p[i].bytes == [] || Encoded(p[i])
  }

  lemma {:induction false} SlotOffset(p: seq<Ins>, slots: seq<seq<byte>>, i: nat)
    requires i <= |slots| <= |p| && forall j :: 0 <= j < |slots| ==> |slots[j]| == Length(p, j)
    ensures |Join(slots[..i])| == Offset(p, i)
    decreases i
  {
    if i > 0 {
      SlotOffset(p, slots, i - 1);
      assert slots[..i][..i - 1] == slots[..i - 1];
    }
  }

  /** Stores `b` at `at`. */
  method Write(code: array<byte>, at: nat, b: seq<byte>)
    requires at + |b| <= code.Length
    modifies code
    ensures code[..] == Put(old(code[..]), at, b)
  {
    for k := 0 to |b|
      invariant forall j :: 0 <= j < code.Length ==>
        code[j] == if at <= j < at + k then b[j - at] else old(code[j])
    {
      code[at + k] := b[k];
    }
  }

  /** Stores `b` in the part of the code already written. */
  method WriteWithin(code: array<byte>, codelen: nat, at: nat, b: seq<byte>)
    requires at + |b| <= codelen <= code.Length
    modifies code
    ensures code[..codelen] == Put(old(code[..codelen]), at, b)
  {
    PutWithin(code[..], at, b, 0, codelen);
    Write(code, at, b);
  }

  /** The offsets of the first `k` instructions are known. */
  ghost predicate Indexed(p: seq<Ins>, k: nat, indexes: seq<nat>)
    requires k <= |p| + 1
  {
    |indexes| == k && forall j {:trigger Offset(p, j)} :: 0 <= j < k ==> indexes[j] == Offset(p, j)
  }

  /** What becomes of the reference of instruction `k` in the first pass. */
  method Resolve(p: seq<Ins>, k: nat, indexes: seq<nat>, at: nat) returns (ok: bool, f: Fixup)
    requires k < |p| && Encoded(p[k]) && at == Offset(p, k)
    requires Indexed(p, k, indexes)
    ensures ok <==> BackInRange(p, k)
    ensures ok ==> f == Early(p, k)
  {
    var ins := p[k];
    ok, f := true, Leave;
    if ins.ref.NoRef? || ins.ref.insns > 1 {
      return;
    }
    if ins.ref.insns + k < 0 {
      return false, f;
    }
    var offset: int;
    if ins.ref.insns == 1 {
      offset := 0;
    } else if ins.ref.insns == 0 {
      offset := -(|ins.bytes| as int);
    } else {
      assert indexes[k + ins.ref.insns] == Offset(p, k + ins.ref.insns);
      offset := indexes[k + ins.ref.insns] - at - |ins.bytes|;
    }
    if ins.ref.Rel? && |ins.bytes| > 4 && offset >= -125 {
      f := Short(if offset != 0 then offset - 3 else offset);
    } else {
      f := Full(offset);
    }
  }

  /** Copies the encoder's bytes. */
  method Encode(ins: Ins, code: array<byte>, at: nat)
    requires at + |ins.bytes| <= code.Length
    modifies code
    ensures code[..at] == old(code[..at])
    ensures code[at..at + |ins.bytes|] == ins.bytes
  {
    Write(code, at, ins.bytes);
    PutAround(old(code[..]), at, ins.bytes);
  }

  lemma {:induction false} SlotPut(was: seq<byte>, now: seq<byte>, at: nat, n: nat, f: nat, b: seq<byte>)
    requires at + n <= |was| && f + |b| <= n && now == Put(was, at + f, b)
    ensures now[..at] == was[..at] && now[at..at + n] == Put(was[at..at + n], f, b)
  {
    PutApart(was, at + f, b, 0, at);
    PutWithin(was, at + f, b, at, at + n);
  }

  /** Stores `b` in the `n` bytes from `at`. */
  method WriteSlot(code: array<byte>, at: nat, n: nat, f: nat, b: seq<byte>)
    requires at + n <= code.Length && f + |b| <= n
    modifies code
    ensures code[..at] == old(code[..at])
    ensures code[at..at + n] == Put(old(code[at..at + n]), f, b)
  {
    ghost var was := code[..];
    Write(code, at + f, b);
    SlotPut(was, code[..], at, n, f, b);
  }

  /** Fixes an encoded instruction up as a one-byte branch. */
  method Shorten(ins: Ins, d: int, code: array<byte>, at: nat)
    requires Fits(ins, Short(d)) && at + |ins.bytes| <= code.Length && code[at..at + |ins.bytes|] == ins.bytes
    modifies code
    ensures code[..at] == old(code[..at])
    ensures code[at..at + |ins.bytes| - 3] == Render(ins, Short(d))
  {
    var n := |ins.bytes| - 3;
    assert code[at..at + n] == ins.bytes[..n];
    ShortIs(ins, d);
    WriteSlot(code, at, n, n - 1, [d % 256]);
  }

  /** Encodes `ins` at `at` and fixes it up. */
  method Emit(ins: Ins, f: Fixup, code: array<byte>, at: nat)
    requires Fits(ins, f) && at + |ins.bytes| <= code.Length
    modifies code
    ensures code[..at] == old(code[..at])
    ensures code[at..at + |Render(ins, f)|] == Render(ins, f)
  {
    Encode(ins, code, at);
    match f
    case Leave =>
    case Short(d) => Shorten(ins, d, code, at);
    case Full(d) =>
      WriteSlot(code, at, |ins.bytes|, Field(ins), Stored(ins.bytes[Field(ins)..Field(ins) + 4], d));
  }

  lemma {:induction false} ShortIs(ins: Ins, d: int)
    requires Fits(ins, Short(d))
    ensures var n := |ins.bytes| - 3;
            Put(ins.bytes[..n], n - 1, [d % 256]) == Render(ins, Short(d))
  {
  }

  /** How far before the end of its instruction a displacement starts. */
  function Behind(i: Ins): (n: nat)
  {
    if i.ref.Rip? then 4 + i.ref.tail else 4
  }

  /** The forward references among the first `n` instructions, in order. */
  function Patches(p: seq<Ins>, n: nat): (patches: seq<Patch>)
    requires n <= |p|
  {
    if n == 0 then []
    else Patches(p, n - 1) + if Forward(p[n - 1]) then [Patch(n - 1, Behind(p[n - 1]))] else []
  }

  /** What the first pass makes of instruction `i`. */
  ghost predicate Passed(p: seq<Ins>, i: nat, b: seq<byte>)
    requires i < |p|
  {
    && Encoded(p[i]) && BackInRange(p, i)
    && Fits(p[i], Early(p, i)) && b == Render(p[i], Early(p, i)) && |b| == Length(p, i)
  }

  /** One instruction of the first pass. */
  method PassOne(p: seq<Ins>, k: nat, code: array<byte>, indexes: seq<nat>, at: nat,
                 ghost slots: seq<seq<byte>>)
      returns (ok: bool, size: nat, ghost b: seq<byte>)
    requires k < |p| && (p[k].bytes == [] || Encoded(p[k]))
    requires at == Offset(p, k) && at + MAX_LENGTH <= code.Length
    requires Indexed(p, k, indexes) && code[..at] == Join(slots)
    modifies code
    ensures ok <==> Encoded(p[k]) && BackInRange(p, k)
    ensures ok ==> size == Length(p, k) <= MAX_LENGTH
    ensures ok ==> Passed(p, k, b) && code[..at + size] == Join(slots + [b])
  {
    size, b := 0, [];
    if p[k].bytes == [] {
      return false, size, b;
    }
    var f;
    ok, f := Resolve(p, k, indexes, at);
    if !ok {
      return;
    }
    FitsFinal(p, k);
    Emit(p[k], f, code, at);
    size := if f.Short? then |p[k].bytes| - 3 else |p[k].bytes|;
    b := Render(p[k], f);
    JoinMore(slots, b);
    assert code[..at + size] == code[..at] + code[at..at + size];
  }

  /** The references the first pass has to resolve exist. */
  ghost predicate Resolvable(p: seq<Ins>)
  {
    forall i :: 0 <= i < |p| ==> Encoded(p[i]) && BackInRange(p, i)
  }

  ghost predicate AllPassed(p: seq<Ins>, slots: seq<seq<byte>>)
  {
    |slots| <= |p| && forall j :: 0 <= j < |slots| ==> Passed(p, j, slots[j])
  }

  lemma {:induction false} AllResolved(p: seq<Ins>, slots: seq<seq<byte>>)
    requires AllPassed(p, slots) && |slots| == |p|
    ensures Resolvable(p)
  {
    forall i | 0 <= i < |p| ensures Encoded(p[i]) && BackInRange(p, i) {
      assert Passed(p, i, slots[i]);
    }
  }

  /** The first pass after `k` instructions. */
  ghost predicate Progress(p: seq<Ins>, k: nat, codelen: nat, indexes: seq<nat>, patches: seq<Patch>,
                           slots: seq<seq<byte>>)
    requires k <= |p|
  {
    && codelen == Offset(p, k) <= MAX_LENGTH * k
    && Indexed(p, k, indexes) && patches == Patches(p, k)
    && AllPassed(p, slots) && |slots| == k
  }

  lemma {:induction false} ProgressStep(p: seq<Ins>, k: nat, codelen: nat, indexes: seq<nat>,
                                        patches: seq<Patch>, slots: seq<seq<byte>>, b: seq<byte>)
    requires k < |p| && Progress(p, k, codelen, indexes, patches, slots)
    requires Passed(p, k, b) && Length(p, k) <= MAX_LENGTH
    ensures Progress(p, k + 1, codelen + Length(p, k), indexes + [codelen],
                     patches + if Forward(p[k]) then [Patch(k, Behind(p[k]))] else [], slots + [b])
  {
  }

  /** The first pass. */
  method FirstPass(p: seq<Ins>, code: array<byte>)
      returns (ok: bool, codelen: nat, indexes: seq<nat>, patches: seq<Patch>,
               ghost slots: seq<seq<byte>>)
    requires FromEncoder(p) && code.Length == MAX_LENGTH * |p|
    modifies code
    ensures ok <==> Resolvable(p)
    ensures ok ==> Indexed(p, |p| + 1, indexes) && patches == Patches(p, |p|)
    ensures ok ==> AllPassed(p, slots) && |slots| == |p|
    ensures ok ==> codelen == Offset(p, |p|) <= code.Length && code[..codelen] == Join(slots)
  {
    codelen, indexes, patches, slots := 0, [], [], [];
    for k := 0 to |p|
      invariant Progress(p, k, codelen, indexes, patches, slots)
      invariant codelen <= code.Length && code[..codelen] == Join(slots)
    {
      var size;
      ghost var b;
      ok, size, b := PassOne(p, k, code, indexes, codelen, slots);
      if !ok {
        return;
      }
      ProgressStep(p, k, codelen, indexes, patches, slots, b);
      patches := patches + if Forward(p[k]) then [Patch(k, Behind(p[k]))] else [];
      slots := slots + [b];
      indexes := indexes + [codelen];
      codelen := codelen + size;
    }
    indexes := indexes + [codelen];
    ok := true;
    AllResolved(p, slots);
  }

  // ----- the second pass -----

  /** Instruction `i` is finished. */
  ghost predicate Done(p: seq<Ins>, i: nat, b: seq<byte>)
    requires i < |p|
  {
    && Encoded(p[i]) && RefInRange(p, i)
    && Fits(p[i], Final(p, i)) && b == Render(p[i], Final(p, i)) && |b| == Length(p, i)
  }

  /** Patch `x` belongs to the forward reference with `x` forward references before it. */
  lemma {:induction false} PatchAt(p: seq<Ins>, n: nat, x: nat)
    requires n <= |p| && x < |Patches(p, n)|
    ensures var i := Patches(p, n)[x].ins;
            && i < n && Forward(p[i]) && Patches(p, n)[x] == Patch(i, Behind(p[i]))
            && |Patches(p, i)| == x
    decreases n
  {
    if x < |Patches(p, n - 1)| {
      PatchAt(p, n - 1, x);
    }
  }

  lemma {:induction false} PatchesRise(p: seq<Ins>, i: nat, j: nat)
    requires i < j <= |p|
    ensures |Patches(p, i)| <= |Patches(p, j)|
    ensures Forward(p[i]) ==> |Patches(p, i)| < |Patches(p, j)|
    decreases j
  {
    if i < j - 1 { PatchesRise(p, i, j - 1); }
  }

  /** Instruction `j` once `q` patches have been made. */
  ghost predicate Patched(p: seq<Ins>, q: nat, j: nat, b: seq<byte>)
    requires j < |p|
  {
    if Forward(p[j]) && |Patches(p, j)| >= q then Passed(p, j, b) else Done(p, j, b)
  }

  ghost predicate AllPatched(p: seq<Ins>, q: nat, slots: seq<seq<byte>>)
  {
    |slots| == |p| && forall j :: 0 <= j < |p| ==> Patched(p, q, j, slots[j])
  }

  lemma {:induction false} PatchedLength(p: seq<Ins>, q: nat, slots: seq<seq<byte>>, j: nat)
    requires AllPatched(p, q, slots) && j < |p|
    ensures Encoded(p[j]) && |slots[j]| == Length(p, j)
  {
    assert Patched(p, q, j, slots[j]);
  }

  lemma {:induction false} NonePatched(p: seq<Ins>, slots: seq<seq<byte>>)
    requires AllPassed(p, slots) && |slots| == |p|
    ensures AllPatched(p, 0, slots)
  {
    forall j | 0 <= j < |p| ensures Patched(p, 0, j, slots[j]) {
      assert Passed(p, j, slots[j]);
    }
  }

  lemma {:induction false} LastPatched(p: seq<Ins>, slots: seq<seq<byte>>, j: nat)
    requires AllPatched(p, |Patches(p, |p|)|, slots) && j < |p|
    ensures Done(p, j, slots[j])
  {
    assert Patched(p, |Patches(p, |p|)|, j, slots[j]);
    PatchesRise(p, j, |p|);
  }

  lemma {:induction false} OnePatched(p: seq<Ins>, q: nat, i: nat, slots: seq<seq<byte>>, b: seq<byte>)
    requires AllPatched(p, q, slots)
    requires i < |p| && Forward(p[i]) && |Patches(p, i)| == q && Done(p, i, b)
    ensures AllPatched(p, q + 1, slots[i := b])
  {
    var more := slots[i := b];
    forall j | 0 <= j < |p| ensures Patched(p, q + 1, j, more[j]) {
      assert Patched(p, q, j, slots[j]);
      if j < i {
        PatchesRise(p, j, i);
      } else if i < j {
        PatchesRise(p, i, j);
      }
    }
  }

  /** Storing the distance in an open instruction finishes it. */
  lemma {:induction false} StoreFinishes(p: seq<Ins>, i: nat, b: seq<byte>, d: int)
    requires i < |p| && Forward(p[i]) && Passed(p, i, b) && RefInRange(p, i)
    requires d == Offset(p, i + p[i].ref.insns) - Offset(p, i + 1)
    ensures b == p[i].bytes && Field(p[i]) == |b| - Behind(p[i])
    ensures Done(p, i, Put(b, Field(p[i]), Stored(b[Field(p[i])..Field(p[i]) + 4], d)))
  {
    FitsFinal(p, i);
    assert Final(p, i) == Full(d);
  }

  /** A patch lands in the slot of its instruction... */
  lemma {:induction false} PatchPlaces(p: seq<Ins>, q: nat, i: nat, f: nat, slots: seq<seq<byte>>, at: nat,
                                       b: seq<byte>)
    requires AllPatched(p, q, slots) && i < |p| && f + |b| <= |slots[i]| && at == Offset(p, i) + f
    ensures at + |b| <= |Join(slots)|
    ensures Put(Join(slots), at, b) == Join(slots[i := Put(slots[i], f, b)])
  {
    forall j | 0 <= j < |slots| ensures |slots[j]| == Length(p, j) {
      PatchedLength(p, q, slots, j);
    }
    SlotOffset(p, slots, i);
    JoinPutAt(slots, i, f, at, b);
  }

  lemma {:induction false} JoinPutAt(slots: seq<seq<byte>>, i: nat, f: nat, at: nat, b: seq<byte>)
    requires i < |slots| && f + |b| <= |slots[i]| && at == |Join(slots[..i])| + f
    ensures at + |b| <= |Join(slots)| && Put(Join(slots), at, b) == Join(slots[i := Put(slots[i], f, b)])
  {
    JoinPut(slots, i, f, b);
  }

  /** ...and finishes it. */
  lemma {:induction false} PatchFinishes(p: seq<Ins>, q: nat, i: nat, slots: seq<seq<byte>>, d: int)
    requires AllPatched(p, q, slots)
    requires i < |p| && RefInRange(p, i) && Forward(p[i]) && |Patches(p, i)| == q
    requires d == Offset(p, i + p[i].ref.insns) - Offset(p, i + 1)
    ensures Encoded(p[i]) && Field(p[i]) == |p[i].bytes| - Behind(p[i]) && slots[i] == p[i].bytes
    ensures Offset(p, i + 1) == Offset(p, i) + |p[i].bytes|
    ensures var b := Stored(p[i].bytes[Field(p[i])..Field(p[i]) + 4], d);
            AllPatched(p, q + 1, slots[i := Put(slots[i], Field(p[i]), b)])
  {
    assert Patched(p, q, i, slots[i]);
    StoreFinishes(p, i, slots[i], d);
    OnePatched(p, q, i, slots, Put(slots[i], Field(p[i]),
                                   Stored(p[i].bytes[Field(p[i])..Field(p[i]) + 4], d)));
  }

  /** The displacement field of an instruction with `d` stored in it. */
  function PatchBytes(ins: Ins, d: int): (b: seq<byte>)
    requires Encoded(ins) && !ins.ref.NoRef?
    ensures |b| == 4
  {
    Stored(ins.bytes[Field(ins)..Field(ins) + 4], d)
  }

  lemma {:induction false} PatchFits(p: seq<Ins>, q: nat, i: nat, indexes: seq<nat>, slots: seq<seq<byte>>)
    requires Indexed(p, |p| + 1, indexes) && AllPatched(p, q, slots) && i < |p| && Forward(p[i])
    ensures Encoded(p[i]) && Behind(p[i]) <= indexes[i + 1]
  {
    PatchedLength(p, q, slots, i);
    assert Patched(p, q, i, slots[i]);
    assert indexes[i + 1] == Offset(p, i + 1) == Offset(p, i) + Length(p, i);
  }

  /** Together: patch `q`, which puts `b` at `at`, and what it makes of the code. */
  lemma {:induction false} PatchDone(p: seq<Ins>, q: nat, i: nat, indexes: seq<nat>, slots: seq<seq<byte>>,
                                     at: nat, b: seq<byte>)
      returns (more: seq<seq<byte>>)
    requires Indexed(p, |p| + 1, indexes) && AllPatched(p, q, slots)
    requires i < |p| && Encoded(p[i]) && Forward(p[i]) && RefInRange(p, i) && |Patches(p, i)| == q
    requires at == indexes[i + 1] - Behind(p[i])
    requires b == PatchBytes(p[i], indexes[i + p[i].ref.insns] as int - indexes[i + 1])
    ensures AllPatched(p, q + 1, more)
    ensures at + |b| <= |Join(slots)| && Put(Join(slots), at, b) == Join(more)
  {
    var f, d := Field(p[i]), Offset(p, i + p[i].ref.insns) - Offset(p, i + 1);
    assert b == PatchBytes(p[i], d);
    more := slots[i := Put(slots[i], f, b)];
    assert AllPatched(p, q + 1, more) && slots[i] == p[i].bytes && at == Offset(p, i) + f by {
      PatchFinishes(p, q, i, slots, d);
    }
    PatchPlaces(p, q, i, f, slots, at, b);
  }

  /** What patch `q` writes, and where. */
  method PlanPatch(p: seq<Ins>, q: nat, patch: Patch, indexes: seq<nat>, ghost slots: seq<seq<byte>>)
      returns (ok: bool, at: nat, b: seq<byte>, ghost more: seq<seq<byte>>)
    requires Indexed(p, |p| + 1, indexes) && AllPatched(p, q, slots)
    requires q < |Patches(p, |p|)| && patch == Patches(p, |p|)[q]
    ensures ok ==> AllPatched(p, q + 1, more)
    ensures ok ==> at + |b| <= |Join(slots)| && Put(Join(slots), at, b) == Join(more)
    ensures !ok ==> patch.ins < |p| && !RefInRange(p, patch.ins)
  {
    var i := patch.ins;
    at, b, more := 0, [], slots;
    PatchAt(p, |p|, q);
    if i + p[i].ref.insns > |p| {
      return false, at, b, more;
    }
    var offset: int := indexes[i + p[i].ref.insns] as int - indexes[i + 1];
    PatchFits(p, q, i, indexes, slots);
    at := indexes[i + 1] - patch.back;
    b := PatchBytes(p[i], offset);
    more := PatchDone(p, q, i, indexes, slots, at, b);
    ok := true;
  }

  /** One patch. */
  method PatchOne(p: seq<Ins>, q: nat, patch: Patch, indexes: seq<nat>, code: array<byte>,
                  codelen: nat, ghost slots: seq<seq<byte>>)
      returns (ok: bool, ghost more: seq<seq<byte>>)
    requires Indexed(p, |p| + 1, indexes) && codelen <= code.Length
    requires AllPatched(p, q, slots) && code[..codelen] == Join(slots)
    requires q < |Patches(p, |p|)| && patch == Patches(p, |p|)[q]
    modifies code
    ensures ok ==> AllPatched(p, q + 1, more) && code[..codelen] == Join(more)
    ensures !ok ==> patch.ins < |p| && !RefInRange(p, patch.ins)
  {
    var at, b;
    ok, at, b, more := PlanPatch(p, q, patch, indexes, slots);
    if ok {
      WriteWithin(code, codelen, at, b);
    }
  }

  /** The second pass. */
  method SecondPass(p: seq<Ins>, patches: seq<Patch>, indexes: seq<nat>, code: array<byte>,
                    codelen: nat, ghost slots: seq<seq<byte>>)
      returns (ok: bool, ghost done: seq<seq<byte>>)
    requires Indexed(p, |p| + 1, indexes) && patches == Patches(p, |p|) && codelen <= code.Length
    requires AllPassed(p, slots) && |slots| == |p| && code[..codelen] == Join(slots)
    modifies code
    ensures ok <==> InRange(p)
    ensures ok ==> |done| == |p| && code[..codelen] == Join(done)
    ensures ok ==> forall j :: 0 <= j < |p| ==> Done(p, j, done[j])
  {
    done := slots;
    NonePatched(p, slots);
    for q := 0 to |patches|
      invariant AllPatched(p, q, done) && code[..codelen] == Join(done)
    {
      ok, done := PatchOne(p, q, patches[q], indexes, code, codelen, done);
      if !ok {
        return;
      }
    }
    ok := true;
    forall j | 0 <= j < |p| ensures Done(p, j, done[j]) {
      LastPatched(p, done, j);
    }
    forall j | 0 <= j < |p| ensures RefInRange(p, j) {
      assert Done(p, j, done[j]);
    }
  }

  /** The assembler's promise: instruction `i` of the code, from its offset to the next, is what
      both passes make of it. */
  ghost predicate Assembled(p: seq<Ins>, code: seq<byte>)
  {
    && |code| == Offset(p, |p|)
    && forall i :: 0 <= i < |p| ==>
         && Encoded(p[i]) && RefInRange(p, i) && Fits(p[i], Final(p, i))
         && Offset(p, i) + Length(p, i) <= |code|
         && code[Offset(p, i)..Offset(p, i) + Length(p, i)] == Render(p[i], Final(p, i))
  }

  lemma {:induction false} DoneAssembled(p: seq<Ins>, done: seq<seq<byte>>)
    requires |done| == |p| && forall j :: 0 <= j < |p| ==> Done(p, j, done[j])
    ensures Assembled(p, Join(done))
  {
    forall j | 0 <= j < |p| ensures |done[j]| == Length(p, j) {
      assert Done(p, j, done[j]);
    }
    SlotOffset(p, done, |p|);
    assert done[..|p|] == done;
    forall i | 0 <= i < |p|
      ensures Offset(p, i) + Length(p, i) <= |Join(done)|
              && Join(done)[Offset(p, i)..Offset(p, i) + Length(p, i)] == done[i]
    {
      SlotOffset(p, done, i);
      JoinSlot(done, i);
    }
    forall i | 0 <= i < |p|
      ensures Encoded(p[i]) && RefInRange(p, i) && Fits(p[i], Final(p, i))
              && done[i] == Render(p[i], Final(p, i))
    {
      assert Done(p, i, done[i]);
    }
  }

  /** Both passes; they fail if an instruction cannot be encoded or a reference leaves the
      program. */
  method TwoPasses(p: seq<Ins>) returns (r: Option<seq<byte>>)
    requires FromEncoder(p)
    ensures r.Some? <==> AllEncoded(p) && InRange(p)
    ensures r.Some? ==> Assembled(p, r.value)
  {
    var code := new byte[MAX_LENGTH * |p|];
    ghost var slots;
    var ok, codelen, indexes, patches;
    ok, codelen, indexes, patches, slots := FirstPass(p, code);
    if !ok {
      assert !(AllEncoded(p) && InRange(p)) by {
        if AllEncoded(p) && InRange(p) {
          forall i | 0 <= i < |p| ensures Encoded(p[i]) && BackInRange(p, i) {
            assert RefInRange(p, i);
          }
        }
      }
      return None;
    }
    ghost var done;
    ok, done := SecondPass(p, patches, indexes, code, codelen, slots);
    if !ok {
      return None;
    }
    DoneAssembled(p, done);
    r := Some(code[..codelen]);
  }

  /** The bytes of working memory for `n` instructions: 15 for the code of each, four for each
      offset and eight for each patch. */
  function ArenaSize(n: nat): (bytes: nat)
  {
    MAX_LENGTH * n + 4 * (n + 1) + 8 * n
  }

  /** The most instructions a heap of which nothing is used has room for. */
  const MAX_ASSEMBLED: nat := 9708

  lemma {:induction false} FreshArena(n: nat)
    ensures Heap.NoneFits(Heap.INITIAL, ArenaSize(n)) <==> n > MAX_ASSEMBLED
  {
    assert Heap.INITIAL[0] in Heap.INITIAL;
  }

  /** The heap after a request for `bytes` that is kept, or given back if it was served. */
  function Settled(l: seq<Layout.Chunk>, bytes: nat, kept: bool): (l': seq<Layout.Chunk>)
  {
    if Heap.NoneFits(l, bytes) then l
    else if kept then Perform(l, Request(bytes))
    else Perform(Perform(l, Request(bytes)), Release(ServedAt(l, bytes)))
  }

  /** Assembles a program; it fails if there is nothing to assemble, if the heap has no room for
      the working memory, if an instruction cannot be encoded or if a reference leaves the
      program.  The working memory is given back on failure and kept otherwise: it holds the
      code. */
  method Assemble(p: seq<Ins>, heap: Heap.X64Heap) returns (r: Option<seq<byte>>)
    requires FromEncoder(p) && |p| < 0x1_0000_0000 && heap.Valid()
    modifies heap, heap.units
    ensures heap.Valid()
    ensures r.Some? <==> p != [] && AllEncoded(p) && InRange(p)
                         && !Heap.NoneFits(old(heap.layout), ArenaSize(|p|))
    ensures r.Some? ==> Assembled(p, r.value)
    ensures p == [] ==> heap.layout == old(heap.layout)
    ensures p != [] ==>
              heap.layout == Settled(old(heap.layout), ArenaSize(|p|), r.Some?)
  {
    if p == [] {
      return None;
    }
    var ok, arena := Take(heap, ArenaSize(|p|));
    if !ok {
      return None;
    }
    r := TwoPasses(p);
    if r.None? {
      Give(heap, arena);
    }
  }
}
