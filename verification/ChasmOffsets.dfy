/** Where instructions land: the plain sum of encoded sizes, and the assembler's own layout, in
    which a near backward branch loses three bytes. */
module ChasmOffsets {
  import opened Basics

  /** What an instruction refers to: nothing, a branch target so many instructions away, or a
      RIP-relative target, whose displacement field has `tail` bytes behind it. */
  datatype Ref = NoRef | Rel(insns: int) | Rip(insns: int, tail: nat)

  /** The encoder's bytes for one instruction; none if it cannot be encoded. */
  datatype Ins = Ins(bytes: seq<byte>, ref: Ref)

  const MAX_LENGTH: nat := 15

  /** What the encoder promises: at most 15 bytes, and room for the displacement field.  Branches
      are in their 32-bit form, so an opcode and four bytes at least. */
  predicate Encoded(i: Ins)
  {
    && 0 < |i.bytes| <= MAX_LENGTH
    && (i.ref.Rel? ==> |i.bytes| >= 5)
    && (i.ref.Rip? ==> i.ref.tail + 4 <= |i.bytes|)
  }

  predicate AllEncoded(p: seq<Ins>)
  {
    forall i :: 0 <= i < |p| ==> Encoded(p[i])
  }

  /** Every reference stays within the program; its end is a legal target. */
  predicate InRange(p: seq<Ins>)
  {
    forall i :: 0 <= i < |p| ==> RefInRange(p, i)
  }

  predicate RefInRange(p: seq<Ins>, i: nat)
    requires i < |p|
  {
    p[i].ref.NoRef? || 0 <= i + p[i].ref.insns <= |p|
  }

  /** Offset of instruction `i` when every instruction keeps its encoded size. */
  function Plain(p: seq<Ins>, i: nat): (o: nat)
    requires i <= |p|
  {
    if i == 0 then 0 else Plain(p, i - 1) + |p[i - 1].bytes|
  }

  /** Distance from the end of the full-size instruction `i` to its target, which is not behind
      instruction `i + 1`. */
  function Back(p: seq<Ins>, i: nat): (d: int)
    requires i < |p| && !p[i].ref.NoRef? && p[i].ref.insns <= 1 && 0 <= i + p[i].ref.insns
    decreases i, 1
  {
    if p[i].ref.insns == 1 then 0
    else if p[i].ref.insns == 0 then -|p[i].bytes|
    else Offset(p, i + p[i].ref.insns) - Offset(p, i) - |p[i].bytes|
  }

  /** The assembler shortens branch `i`. */
  predicate Shrinks(p: seq<Ins>, i: nat)
    requires i < |p|
    decreases i, 2
  {
    && p[i].ref.Rel? && p[i].ref.insns <= 1 && 0 <= i + p[i].ref.insns && |p[i].bytes| > 4
    && Back(p, i) >= -125
  }

  function Length(p: seq<Ins>, i: nat): (n: nat)
    requires i < |p|
    decreases i, 3
  {
    if Shrinks(p, i) then |p[i].bytes| - 3 else |p[i].bytes|
  }

  /** Offset of instruction `i` in the assembler's output. */
  function Offset(p: seq<Ins>, i: nat): (o: nat)
    requires i <= |p|
    decreases i, 0
  {
    if i == 0 then 0 else Offset(p, i - 1) + Length(p, i - 1)
  }

  // ----- one total size speaks for all offsets -----

  /** Nothing before `i` was shortened. */
  predicate Kept(p: seq<Ins>, i: nat)
    requires i <= |p|
  {
    forall j :: 0 <= j < i ==> !Shrinks(p, j)
  }

  /** The assembler never gains bytes, and has lost some exactly when a branch was shortened. */
  lemma {:induction false} OffsetsAgree(p: seq<Ins>, i: nat)
    requires i <= |p|
    ensures Offset(p, i) <= Plain(p, i)
    ensures Offset(p, i) == Plain(p, i) <==> Kept(p, i)
    decreases i
  {
    if i > 0 {
      OffsetsAgree(p, i - 1);
      assert Kept(p, i) <==> Kept(p, i - 1) && !Shrinks(p, i - 1);
    }
  }

  lemma {:induction false} OffsetsRise(p: seq<Ins>, i: nat, j: nat)
    requires AllEncoded(p) && i <= j <= |p|
    ensures Offset(p, i) <= Offset(p, j) && (i < j ==> Offset(p, i) + Length(p, i) <= Offset(p, j))
    decreases j - i
  {
    if i < j { OffsetsRise(p, i, j - 1); }
  }

  /** If the total sizes agree, so do all offsets. */
  lemma {:induction false} TotalSpeaksForAll(p: seq<Ins>, i: nat)
    requires i <= |p| && Offset(p, |p|) == Plain(p, |p|)
    ensures Offset(p, i) == Plain(p, i) && Kept(p, i)
  {
    OffsetsAgree(p, |p|);
    OffsetsAgree(p, i);
  }

  /** Instruction `i` is a branch to itself, to the next instruction, or back over at most 125
      bytes; sizes as the encoder gives them. */
  predicate Near(p: seq<Ins>, i: nat)
    requires i < |p|
  {
    && p[i].ref.Rel? && p[i].ref.insns <= 1 && 0 <= i + p[i].ref.insns && |p[i].bytes| > 4
    && Plain(p, i + 1) - Plain(p, i + p[i].ref.insns) <= 125
  }

  /** The exact condition, in terms of the encoded sizes alone, under which the total sizes agree:
      the program has no near branch. */
  lemma {:induction false} SizesAgreeIff(p: seq<Ins>)
    ensures Offset(p, |p|) == Plain(p, |p|) <==> forall i :: 0 <= i < |p| ==> !Near(p, i)
  {
    OffsetsAgree(p, |p|);
    if Offset(p, |p|) == Plain(p, |p|) {
      forall i | 0 <= i < |p| ensures !Near(p, i) { NearShrinks(p, i); }
    } else if forall i :: 0 <= i < |p| ==> !Near(p, i) {
      FarKeeps(p, |p|);
    }
  }

  lemma {:induction false} NearShrinks(p: seq<Ins>, i: nat)
    requires i < |p| && Kept(p, i)
    ensures Near(p, i) <==> Shrinks(p, i)
  {
    OffsetsAgree(p, i);
    if p[i].ref.Rel? && 0 <= i + p[i].ref.insns && p[i].ref.insns < 0 {
      OffsetsAgree(p, i + p[i].ref.insns);
    }
  }

  lemma {:induction false} FarKeeps(p: seq<Ins>, i: nat)
    requires i <= |p| && forall j :: 0 <= j < |p| ==> !Near(p, j)
    ensures Kept(p, i)
    decreases i
  {
    if i > 0 {
      FarKeeps(p, i - 1);
      NearShrinks(p, i - 1);
    }
  }
}
