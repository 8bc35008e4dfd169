/** The bytes of linked code. */
module ChasmImage {
  import opened Basics
  import opened ChasmOffsets

  /** `s` with `b` written over it from index `at`. */
  function Put(s: seq<byte>, at: nat, b: seq<byte>): (r: seq<byte>)
    requires at + |b| <= |s|
    ensures |r| == |s|
  {
    s[..at] + b + s[at + |b|..]
  }

  lemma {:induction false} PutApart(s: seq<byte>, at: nat, b: seq<byte>, lo: nat, hi: nat)
    requires at + |b| <= |s| && lo <= hi <= |s| && (hi <= at || at + |b| <= lo)
    ensures Put(s, at, b)[lo..hi] == s[lo..hi]
  {
    forall k | lo <= k < hi ensures Put(s, at, b)[k] == s[k] { }
  }

  lemma {:induction false} PutWithin(s: seq<byte>, at: nat, b: seq<byte>, lo: nat, hi: nat)
    requires lo <= at && at + |b| <= hi <= |s|
    ensures Put(s, at, b)[lo..hi] == Put(s[lo..hi], at - lo, b)
  {
    forall k | lo <= k < hi ensures Put(s, at, b)[k] == Put(s[lo..hi], at - lo, b)[k - lo] { }
  }

  lemma {:induction false} PutAround(s: seq<byte>, at: nat, b: seq<byte>)
    requires at + |b| <= |s|
    ensures Put(s, at, b)[at..at + |b|] == b
    ensures Put(s, at, b)[..at] == s[..at]
    ensures Put(s, at, b)[at + |b|..] == s[at + |b|..]
  {
  }

  // ----- 32-bit displacements -----

  /** `field` with the little-endian two's complement bytes of `v` stored over it. */
  function Stored(field: seq<byte>, v: int): (b: seq<byte>)
    ensures |b| == |field|
  {
    if field == [] then [] else [v % 256] + Stored(field[1..], v / 256)
  }

  /** The signed value of the four little-endian bytes at `at`. */
  function ReadI32(s: seq<byte>, at: nat): (v: int)
    requires at + 4 <= |s|
  {
    var b0: int, b1: int, b2: int, b3: int := s[at], s[at + 1], s[at + 2], s[at + 3];
    b0 + 256 * b1 + 65536 * b2 + 16777216 * (if b3 < 128 then b3 else b3 - 256)
  }

  lemma {:induction false} ReadInside(s: seq<byte>, at: nat, b: seq<byte>)
    requires |b| == 4 && at + 4 <= |s| && s[at..at + 4] == b
    ensures ReadI32(s, at) == ReadI32(b, 0)
  {
    var t := s[at..at + 4];
    assert s[at] == t[0] && s[at + 1] == t[1] && s[at + 2] == t[2] && s[at + 3] == t[3];
  }

  lemma {:induction false} StoredReads(field: seq<byte>, v: int)
    requires |field| == 4 && -0x8000_0000 <= v < 0x8000_0000
    ensures ReadI32(Stored(field, v), 0) == v
  {
    var v1 := v / 256;
    var v2 := v1 / 256;
    var v3 := v2 / 256;
    var f1 := field[1..];
    var f2 := f1[1..];
    assert Stored(field, v) == [v % 256] + Stored(f1, v1);
    assert Stored(f1, v1) == [v1 % 256] + Stored(f2, v2);
    assert Stored(f2, v2) == [v2 % 256] + Stored(f2[1..], v3);
    assert Stored(f2[1..], v3)[0] == v3 % 256;
    assert -128 <= v3 < 128;
  }

  // ----- one instruction -----

  /** Where in its instruction the displacement starts. */
  function Field(i: Ins): (at: nat)
    requires Encoded(i) && !i.ref.NoRef?
    ensures at + 4 <= |i.bytes|
  {
    if i.ref.Rel? then |i.bytes| - 4 else |i.bytes| - 4 - i.ref.tail
  }

  /** What is done to an instruction's displacement: nothing, a one-byte form with the
      instruction three bytes shorter, or the full four bytes. */
  datatype Fixup = Leave | Short(d: int) | Full(d: int)

  predicate Fits(i: Ins, f: Fixup)
  {
    Encoded(i) && (f.Short? ==> |i.bytes| > 4) && (f.Full? ==> !i.ref.NoRef?)
  }

  /** The instruction's bytes after fixing it up. */
  function Render(i: Ins, f: Fixup): (b: seq<byte>)
    requires Fits(i, f)
    ensures |b| == if f.Short? then |i.bytes| - 3 else |i.bytes|
  {
    match f
    case Leave => i.bytes
    case Short(d) => i.bytes[..|i.bytes| - 4] + [d % 256]
    case Full(d) => Put(i.bytes, Field(i), Stored(i.bytes[Field(i)..Field(i) + 4], d))
  }

  /** Targets not further on than the next instruction exist. */
  predicate BackInRange(p: seq<Ins>, i: nat)
    requires i < |p|
  {
    p[i].ref.NoRef? || p[i].ref.insns > 1 || 0 <= i + p[i].ref.insns
  }

  predicate Forward(i: Ins)
  {
    !i.ref.NoRef? && i.ref.insns > 1
  }

  /** What the first pass does to instruction `i`: targets further on are still open. */
  function Early(p: seq<Ins>, i: nat): (f: Fixup)
    requires i < |p| && BackInRange(p, i)
  {
    if p[i].ref.NoRef? || p[i].ref.insns > 1 then Leave
    else if Shrinks(p, i) then Short(if Back(p, i) == 0 then 0 else Back(p, i) - 3)
    else Full(Back(p, i))
  }

  /** What both passes together do to instruction `i`. */
  function Final(p: seq<Ins>, i: nat): (f: Fixup)
    requires i < |p| && RefInRange(p, i)
  {
    if Forward(p[i]) then Full(Offset(p, i + p[i].ref.insns) - Offset(p, i + 1)) else Early(p, i)
  }

  /** What should be done to instruction `i`: the distance from its end to its target goes into
      the displacement field. */
  function Linked(p: seq<Ins>, i: nat): (f: Fixup)
    requires i < |p| && RefInRange(p, i)
  {
    if p[i].ref.NoRef? then Leave
    else Full(Plain(p, i + p[i].ref.insns) - Plain(p, i + 1))
  }

  /** Where no branch is shortened, both passes give the distance between the two offsets. */
  lemma {:induction false} FinalIsLinked(p: seq<Ins>, i: nat)
    requires i < |p| && RefInRange(p, i)
    requires Offset(p, |p|) == Plain(p, |p|)
    ensures Final(p, i) == Linked(p, i)
  {
    TotalSpeaksForAll(p, i + 1);
    assert !Shrinks(p, i);
    assert Offset(p, i + 1) == Offset(p, i) + |p[i].bytes|;
    if !p[i].ref.NoRef? {
      TotalSpeaksForAll(p, i + p[i].ref.insns);
    }
  }

  /** A shortened branch is given the distance to its target only if that is the next
      instruction; the size check is what keeps such branches out of linked code. */
  lemma {:induction false} ShortBranchMisses(p: seq<Ins>, i: nat)
    requires AllEncoded(p) && i < |p| && Shrinks(p, i)
    ensures Early(p, i) == Short(Offset(p, i + p[i].ref.insns) - Offset(p, i + 1))
            <==> p[i].ref.insns == 1
  {
    if p[i].ref.insns < 0 {
      OffsetsRise(p, i + p[i].ref.insns, i);
    }
  }

  lemma {:induction false} FitsFinal(p: seq<Ins>, i: nat)
    requires i < |p| && Encoded(p[i])
    ensures BackInRange(p, i) ==>
              Fits(p[i], Early(p, i)) && |Render(p[i], Early(p, i))| == Length(p, i)
    ensures RefInRange(p, i) ==>
              Fits(p[i], Final(p, i)) && |Render(p[i], Final(p, i))| == Length(p, i)
  {
  }

  /** A full displacement reads back as itself, and everything around it is the encoder's. */
  lemma {:induction false} DisplacementReads(i: Ins, d: int)
    requires Encoded(i) && !i.ref.NoRef? && -0x8000_0000 <= d < 0x8000_0000
    ensures var b := Render(i, Full(d));
            ReadI32(b, Field(i)) == d
            && b[..Field(i)] == i.bytes[..Field(i)] && b[Field(i) + 4..] == i.bytes[Field(i) + 4..]
  {
    var field := i.bytes[Field(i)..Field(i) + 4];
    StoredReads(field, d);
    PutAround(i.bytes, Field(i), Stored(field, d));
    ReadInside(Render(i, Full(d)), Field(i), Stored(field, d));
  }

  lemma {:induction false} PlainRises(p: seq<Ins>, i: nat, j: nat)
    requires i <= j <= |p|
    ensures Plain(p, i) <= Plain(p, j)
    ensures i < j ==> Plain(p, i + 1) <= Plain(p, j)
    decreases j - i
  {
    if i < j { PlainRises(p, i, j - 1); }
  }

  /** Fifteen bytes an instruction bound the code. */
  lemma {:induction false} PlainBound(p: seq<Ins>, i: nat)
    requires AllEncoded(p) && i <= |p|
    ensures Plain(p, i) <= MAX_LENGTH * i
    decreases i
  {
    if i > 0 { PlainBound(p, i - 1); }
  }

  /** So every distance fits a 32-bit displacement. */
  lemma {:induction false} DistanceFits(p: seq<Ins>, i: nat, t: nat)
    requires AllEncoded(p) && i <= |p| && t <= |p| && |p| <= 0x800_0000
    ensures -0x8000_0000 <= Plain(p, t) - Plain(p, i) < 0x8000_0000
  {
    PlainBound(p, i);
    PlainBound(p, t);
  }

  // ----- code as a list of slots -----

  function Join(slots: seq<seq<byte>>): (s: seq<byte>)
  {
    if slots == [] then [] else Join(slots[..|slots| - 1]) + slots[|slots| - 1]
  }

  lemma {:induction false} JoinMore(slots: seq<seq<byte>>, b: seq<byte>)
    ensures Join(slots + [b]) == Join(slots) + b
  {
    assert (slots + [b])[..|slots|] == slots;
  }

  /** Slot `i` is found behind the slots before it. */
  lemma {:induction false} JoinSlot(slots: seq<seq<byte>>, i: nat)
    requires i < |slots|
    ensures |Join(slots[..i])| + |slots[i]| <= |Join(slots)|
    ensures Join(slots)[|Join(slots[..i])|..|Join(slots[..i])| + |slots[i]|] == slots[i]
  {
    var front := slots[..|slots| - 1];
    if i < |slots| - 1 {
      JoinSlot(front, i);
      assert front[..i] == slots[..i];
    }
  }

  /** Writing inside slot `i` changes that slot and no other. */
  lemma {:induction false} JoinPut(slots: seq<seq<byte>>, i: nat, at: nat, b: seq<byte>)
    requires i < |slots| && at + |b| <= |slots[i]|
    ensures |Join(slots[..i])| + at + |b| <= |Join(slots)|
    ensures Put(Join(slots), |Join(slots[..i])| + at, b)
            == Join(slots[i := Put(slots[i], at, b)])
  {
    var n := |slots| - 1;
    var front := slots[..n];
    var x := Put(slots[i], at, b);
    if i == n {
      assert slots[i := x][..n] == front;
      PutBehind(Join(front), slots[n], at, b);
    } else {
      JoinPut(front, i, at, b);
      assert front[..i] == slots[..i];
      assert slots[i := x][..n] == front[i := x];
      PutBefore(Join(front), slots[n], |Join(slots[..i])| + at, b);
    }
  }

  lemma {:induction false} PutBehind(s: seq<byte>, t: seq<byte>, at: nat, b: seq<byte>)
    requires at + |b| <= |t|
    ensures Put(s + t, |s| + at, b) == s + Put(t, at, b)
  {
  }

  lemma {:induction false} PutBefore(s: seq<byte>, t: seq<byte>, at: nat, b: seq<byte>)
    requires at + |b| <= |s|
    ensures Put(s + t, at, b) == Put(s, at, b) + t
  {
  }
}
