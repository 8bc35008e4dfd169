/** What linked code has to be, told by the statements alone. */
module ChasmTarget {
  import opened Basics
  import opened ChasmOffsets
  import opened ChasmImage
  import opened ChasmSource

  /** Where record `k` starts: behind the encodings of the records before it. */
  function Place(ss: seq<Symbol>, rs: seq<Stmt>, k: nat): (at: nat)
    requires Bound(ss, rs) && k <= |rs|
  {
    if k == 0 then 0 else Place(ss, rs, k - 1) + |EncodingOf(ss, rs[k - 1]).bytes|
  }

  /** From `lo` on the code is the encoding, with the displacement `d` in front of its tail. */
  ghost predicate Refers(code: seq<byte>, lo: nat, e: Encoding, d: int)
  {
    && e.tail + 4 <= |e.bytes| && lo + |e.bytes| <= |code|
    && var f := |e.bytes| - 4 - e.tail;
       && ReadI32(code, lo + f) == d
       && code[lo..lo + f] == e.bytes[..f]
       && code[lo + f + 4..lo + |e.bytes|] == e.bytes[f + 4..]
  }

  /** Record `k` is its data byte, its encoding, or its encoding with the distance from its end to
      the record of its label. */
  ghost predicate RecordMeant(ss: seq<Symbol>, rs: seq<Stmt>, k: nat, code: seq<byte>)
    requires Bound(ss, rs) && k < |rs|
  {
    var e, lo := EncodingOf(ss, rs[k]), Place(ss, rs, k);
    && lo + |e.bytes| <= |code|
    && if rs[k].Data? then code[lo..lo + |e.bytes|] == [rs[k].datum]
       else if rs[k].Code? then code[lo..lo + |e.bytes|] == e.bytes
       else
         var t := Find(ss, rs[k].target).value.at;
         t <= |rs| && Refers(code, lo, e, Place(ss, rs, t) - Place(ss, rs, k + 1))
  }

  ghost predicate Meant(ss: seq<Symbol>, rs: seq<Stmt>, code: seq<byte>)
    requires Bound(ss, rs)
  {
    |code| == Place(ss, rs, |rs|) && forall k :: 0 <= k < |rs| ==> RecordMeant(ss, rs, k, code)
  }

  /** The records of a source fix its code. */
  lemma {:induction false} MeantOnce(ss: seq<Symbol>, rs: seq<Stmt>, a: seq<byte>, b: seq<byte>)
    requires Bound(ss, rs) && Meant(ss, rs, a) && Meant(ss, rs, b)
    ensures a == b
  {
    MeantUpTo(ss, rs, a, b, |rs|);
    assert a[..|a|] == a && b[..|b|] == b;
  }

  lemma {:induction false} SamePrefix(a: seq<byte>, b: seq<byte>, lo: nat, hi: nat)
    requires lo <= hi <= |a| && hi <= |b| && a[..lo] == b[..lo] && a[lo..hi] == b[lo..hi]
    ensures a[..hi] == b[..hi]
  {
    assert a[..hi] == a[..lo] + a[lo..hi] && b[..hi] == b[..lo] + b[lo..hi];
  }

  lemma {:induction false} MeantUpTo(ss: seq<Symbol>, rs: seq<Stmt>, a: seq<byte>, b: seq<byte>, k: nat)
    requires Bound(ss, rs) && Meant(ss, rs, a) && Meant(ss, rs, b) && k <= |rs|
    ensures Place(ss, rs, k) <= |a| && Place(ss, rs, k) <= |b|
    ensures a[..Place(ss, rs, k)] == b[..Place(ss, rs, k)]
    decreases k
  {
    if k > 0 {
      MeantUpTo(ss, rs, a, b, k - 1);
      var lo, hi := Place(ss, rs, k - 1), Place(ss, rs, k);
      assert RecordMeant(ss, rs, k - 1, a) && RecordMeant(ss, rs, k - 1, b);
      SameRecord(ss, rs, k - 1, a, b);
      SamePrefix(a, b, lo, hi);
    }
  }

  lemma {:induction false} SameRecord(ss: seq<Symbol>, rs: seq<Stmt>, k: nat, a: seq<byte>, b: seq<byte>)
    requires Bound(ss, rs) && k < |rs| && RecordMeant(ss, rs, k, a) && RecordMeant(ss, rs, k, b)
    ensures Place(ss, rs, k) <= Place(ss, rs, k + 1) <= |a| && Place(ss, rs, k + 1) <= |b|
    ensures a[Place(ss, rs, k)..Place(ss, rs, k + 1)] == b[Place(ss, rs, k)..Place(ss, rs, k + 1)]
  {
    if IsReference(rs[k]) {
      var t := Find(ss, rs[k].target).value.at;
      SameReference(a, b, Place(ss, rs, k), EncodingOf(ss, rs[k]), Place(ss, rs, t) - Place(ss, rs, k + 1));
    }
  }

  lemma {:induction false} SameReference(a: seq<byte>, b: seq<byte>, lo: nat, e: Encoding, d: int)
    requires Refers(a, lo, e, d) && Refers(b, lo, e, d)
    ensures a[lo..lo + |e.bytes|] == b[lo..lo + |e.bytes|]
  {
    var f, hi := lo + |e.bytes| - 4 - e.tail, lo + |e.bytes|;
    SameFour(a, b, f);
    assert a[lo..hi] == a[lo..f] + a[f..f + 4] + a[f + 4..hi];
    assert b[lo..hi] == b[lo..f] + b[f..f + 4] + b[f + 4..hi];
  }

  lemma {:induction false} SameFour(a: seq<byte>, b: seq<byte>, at: nat)
    requires at + 4 <= |a| && at + 4 <= |b| && ReadI32(a, at) == ReadI32(b, at)
    ensures a[at..at + 4] == b[at..at + 4]
  {
    var a3: int, b3: int := a[at + 3], b[at + 3];
    var x3, y3 := if a3 < 128 then a3 else a3 - 256, if b3 < 128 then b3 else b3 - 256;
    var x2, y2 := a[at + 2] + 256 * x3, b[at + 2] + 256 * y3;
    var x1, y1 := a[at + 1] + 256 * x2, b[at + 1] + 256 * y2;
    LowDigit(a[at], x1, b[at], y1);
    LowDigit(a[at + 1], x2, b[at + 1], y2);
    LowDigit(a[at + 2], x3, b[at + 2], y3);
  }

  lemma {:induction false} LowDigit(a: byte, x: int, b: byte, y: int)
    requires a + 256 * x == b + 256 * y
    ensures a == b && x == y
  {
  }

  // ----- the program keeps to it -----

  lemma {:induction false} PlaceIsPlain(ss: seq<Symbol>, rs: seq<Stmt>, k: nat)
    requires Bound(ss, rs) && k <= |rs|
    ensures Place(ss, rs, k) == Plain(Program(ss, rs), k)
    decreases k
  {
    if k > 0 {
      PlaceIsPlain(ss, rs, k - 1);
      assert Program(ss, rs)[k - 1] == Lower(ss, k - 1, rs[k - 1]);
    }
  }

  lemma {:induction false} Part(code: seq<byte>, lo: nat, hi: nat, i: nat, j: nat)
    requires lo <= hi <= |code| && i <= j <= hi - lo
    ensures code[lo..hi][i..j] == code[lo + i..lo + j]
  {
    forall n | 0 <= n < j - i ensures code[lo..hi][i..j][n] == code[lo + i..lo + j][n] {
      assert code[lo..hi][i + n] == code[lo + i + n];
    }
  }

  /** Code refers exactly if its slice does. */
  lemma {:induction false} RefersIff(code: seq<byte>, lo: nat, e: Encoding, d: int)
    requires e.tail + 4 <= |e.bytes| && lo + |e.bytes| <= |code|
    ensures var b, f := code[lo..lo + |e.bytes|], |e.bytes| - 4 - e.tail;
            Refers(code, lo, e, d) <==> ReadI32(b, f) == d && b[..f] == e.bytes[..f] && b[f + 4..] == e.bytes[f + 4..]
  {
    var hi, f := lo + |e.bytes|, |e.bytes| - 4 - e.tail;
    var b := code[lo..hi];
    Part(code, lo, hi, 0, f);
    Part(code, lo, hi, f + 4, |e.bytes|);
    Part(code, lo, hi, f, f + 4);
    ReadInside(code, lo + f, b[f..f + 4]);
    ReadInside(b, f, b[f..f + 4]);
  }

  /** An instruction fixed up refers as its encoding does. */
  lemma {:induction false} RenderRefers(code: seq<byte>, lo: nat, i: Ins, e: Encoding, d: int)
    requires Encoded(i) && !i.ref.NoRef? && -0x8000_0000 <= d < 0x8000_0000
    requires i.bytes == e.bytes && e.tail == if i.ref.Rip? then i.ref.tail else 0
    requires lo + |i.bytes| <= |code| && code[lo..lo + |i.bytes|] == Render(i, Full(d))
    ensures Refers(code, lo, e, d)
  {
    DisplacementReads(i, d);
    RefersIff(code, lo, e, d);
  }
}
