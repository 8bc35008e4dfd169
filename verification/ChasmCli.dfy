/** The command: source statements in, linked code out. */
module ChasmCli {
  import opened Basics
  import opened ChasmOffsets
  import opened ChasmImage
  import opened ChasmAssembler
  import opened ChasmSource
  import opened ChasmTarget
  import Forms = ChasmForms
  import Heap = ChasmHeap

  const START: string := "_start"

  /** The linked code, and the offset it starts at if one was determined. */
  datatype Output = Output(code: seq<byte>, entry: Option<nat>)

  // ----- collecting symbols and records -----

  /** The tables are large enough and no name is defined twice. */
  predicate Collectable(stmts: seq<Stmt>)
  {
    && |Symbols(stmts)| <= MAX_SYMBOLS && Unique(Symbols(stmts))
    && |Records(stmts)| <= MAX_RECORDS && References(Records(stmts)) <= MAX_REFERENCES
  }

  lemma {:induction false} ReferencesMore(rs: seq<Stmt>, r: Stmt)
    ensures References(rs + [r]) == References(rs) + ReferencesOf(r)
  {
    assert (rs + [r])[..|rs|] == rs;
  }

  lemma {:induction false} CollectablePrefix(stmts: seq<Stmt>, n: nat)
    requires n <= |stmts| && Collectable(stmts)
    ensures Collectable(stmts[..n])
    decreases |stmts|
  {
    if n == |stmts| {
      assert stmts[..n] == stmts;
    } else {
      var front := stmts[..|stmts| - 1];
      ReferencesMore(Records(front), stmts[|stmts| - 1]);
      assert Unique(Symbols(front)) by {
        forall i, j | 0 <= i < j < |Symbols(front)|
          ensures Symbols(front)[i].name != Symbols(front)[j].name
        {
          assert Symbols(stmts)[i].name != Symbols(stmts)[j].name;
        }
      }
      CollectablePrefix(front, n);
      assert front[..n] == stmts[..n];
    }
  }

  method FindSymbol(ss: seq<Symbol>, name: string) returns (r: Option<Symbol>)
    ensures r == Find(ss, name)
  {
    for i := 0 to |ss|
      invariant forall j :: 0 <= j < i ==> ss[j].name != name
    {
      if ss[i].name == name {
        FindFirst(ss, i);
        return Some(ss[i]);
      }
    }
    FindNone(ss, name);
    return None;
  }

  /** Adds a symbol unless the table is full or the name is taken. */
  method AddSymbol(ss: seq<Symbol>, s: Symbol) returns (ok: bool, more: seq<Symbol>)
    requires Unique(ss) && |ss| <= MAX_SYMBOLS
    ensures more == ss + [s] || !ok
    ensures ok <==> |ss + [s]| <= MAX_SYMBOLS && Unique(ss + [s])
  {
    more := ss;
    if |ss| >= MAX_SYMBOLS {
      return false, more;
    }
    for i := 0 to |ss|
      invariant forall j :: 0 <= j < i ==> ss[j].name != s.name
    {
      if s.name == ss[i].name {
        assert (ss + [s])[i].name == (ss + [s])[|ss|].name;
        return false, more;
      }
    }
    more := ss + [s];
    ok := true;
  }

  /** Reads the statements; fails when a table is full or a name is defined twice. */
  method Collect(stmts: seq<Stmt>) returns (ok: bool, ss: seq<Symbol>, rs: seq<Stmt>)
    ensures ok <==> Collectable(stmts)
    ensures ok ==> ss == Symbols(stmts) && rs == Records(stmts)
  {
    var references := 0;
    ss, rs := [], [];
    for n := 0 to |stmts|
      invariant Collectable(stmts[..n])
      invariant ss == Symbols(stmts[..n]) && rs == Records(stmts[..n])
      invariant references == References(rs)
    {
      assert stmts[..n + 1][..n] == stmts[..n];
      var s := stmts[n];
      ReferencesMore(rs, s);
      ok := true;
      if s.Label? {
        ok, ss := AddSymbol(ss, LabelAt(s.name, |rs|));
      } else if s.Constant? {
        ok, ss := AddSymbol(ss, Symbol(s.name, 0, true, s.value));
      } else if |rs| >= MAX_RECORDS || references + ReferencesOf(s) > MAX_REFERENCES {
        ok := false;
      } else {
        rs := rs + [s];
        references := references + ReferencesOf(s);
      }
      if !ok {
        assert !Collectable(stmts[..n + 1]);
        if Collectable(stmts) { CollectablePrefix(stmts, n + 1); }
        return;
      }
    }
    assert stmts[..|stmts|] == stmts;
    ok := true;
  }

  // ----- resolving references -----

  /** Looks up the named constants; fails at a name that is none. */
  method ResolveConstants(ss: seq<Symbol>, names: seq<string>) returns (ok: bool, values: seq<int>)
    ensures ok <==> AllConstants(ss, names)
    ensures ok ==> values == Values(ss, names)
  {
    values := [];
    for j := 0 to |names|
      invariant AllConstants(ss, names[..j])
      invariant values == Values(ss, names[..j])
    {
      var symbol := FindSymbol(ss, names[j]);
      if symbol == None || !symbol.value.isConstant {
        return false, values;
      }
      values := values + [symbol.value.value];
    }
    assert names[..|names|] == names;
    ok := true;
  }

  /** Record `k` with its references resolved; fails at a name that is undefined or of the wrong
      kind. */
  method ResolveRecord(ss: seq<Symbol>, k: nat, r: Stmt) returns (ok: bool, i: Ins)
    requires IsRecord(r)
    ensures ok <==> RecordBound(ss, r)
    ensures ok ==> i == Lower(ss, k, r)
  {
    i := Ins([], NoRef);
    var e := Encoding([0xCC], 0);
    if r.Branch? {
      e := Encoding(r.bytes, 0);
    } else if TakesConstants(r) {
      var values;
      ok, values := ResolveConstants(ss, r.constants);
      if !ok {
        return;
      }
      e := r.encode(values);
    }
    i := Ins(e.bytes, NoRef);
    if IsReference(r) {
      var symbol := FindSymbol(ss, r.target);
      if symbol == None || symbol.value.isConstant {
        return false, i;
      }
      var relative: int := symbol.value.at - k;
      i := Ins(e.bytes, if r.Branch? then Rel(relative) else Rip(relative, e.tail));
    }
    ok := true;
  }

  method Resolved(ss: seq<Symbol>, rs: seq<Stmt>) returns (ok: bool, p: seq<Ins>)
    requires forall k :: 0 <= k < |rs| ==> IsRecord(rs[k])
    ensures ok <==> Bound(ss, rs)
    ensures ok ==> p == Program(ss, rs)
  {
    p := [];
    for k := 0 to |rs|
      invariant |p| == k
      invariant forall j :: 0 <= j < k ==> RecordBound(ss, rs[j]) && p[j] == Lower(ss, j, rs[j])
    {
      var i;
      ok, i := ResolveRecord(ss, k, rs[k]);
      if !ok {
        return;
      }
      p := p + [i];
    }
    ok := true;
  }

  // ----- the entry point -----

  /** A `_start` that is a constant, at the end of the program or at a data byte is refused. */
  predicate StartFine(ss: seq<Symbol>, rs: seq<Stmt>)
  {
    Find(ss, START).Some? ==>
      var s := Find(ss, START).value;
      !s.isConstant && s.at < |rs| && !rs[s.at].Data?
  }

  /** The record execution starts at: `_start`, or else the first instruction that is not a
      branch. */
  ghost predicate EntersAt(ss: seq<Symbol>, rs: seq<Stmt>, k: nat)
  {
    && k < |rs|
    && if Find(ss, START).Some? then k == Find(ss, START).value.at
       else (rs[k].Code? || rs[k].Memory?) && forall j :: 0 <= j < k ==> rs[j].Branch? || rs[j].Data?
  }

  /** Branches and data alone, without `_start`, leave the entry point open. */
  predicate OpenEntry(ss: seq<Symbol>, rs: seq<Stmt>)
  {
    Find(ss, START) == None && forall k :: 0 <= k < |rs| ==> rs[k].Branch? || rs[k].Data?
  }

  /** The entry record, if there is one. */
  method FindEntry(ss: seq<Symbol>, rs: seq<Stmt>) returns (ok: bool, entry: Option<nat>)
    requires forall k :: 0 <= k < |rs| ==> IsRecord(rs[k])
    ensures ok <==> StartFine(ss, rs) && exists k :: 0 <= k < |rs| && !rs[k].Data?
    ensures ok && entry.Some? ==> EntersAt(ss, rs, entry.value) && !rs[entry.value].Data?
    ensures ok ==> (entry.None? <==> OpenEntry(ss, rs))
  {
    var sources := 0;
    entry := None;
    for k := 0 to |rs|
      invariant sources > 0 <==> exists j :: 0 <= j < k && !rs[j].Data?
      invariant entry.Some? ==> entry.value < k && (rs[entry.value].Code? || rs[entry.value].Memory?)
      invariant entry.Some? ==> forall j :: 0 <= j < entry.value ==> rs[j].Branch? || rs[j].Data?
      invariant entry.None? ==> forall j :: 0 <= j < k ==> rs[j].Branch? || rs[j].Data?
    {
      if !rs[k].Data? {
        sources := sources + 1;
        if !rs[k].Branch? && entry.None? {
          entry := Some(k);
        }
      }
    }
    if sources == 0 {
      return false, entry;
    }
    var start := FindSymbol(ss, START);
    if start.Some? {
      if start.value.isConstant || start.value.at >= |rs| || rs[start.value.at].Data? {
        return false, entry;
      }
      entry := Some(start.value.at);
    }
    ok := true;
  }

  // ----- linking -----

  /** The offsets of the records, by their encoded sizes. */
  method Offsets(p: seq<Ins>) returns (ok: bool, offsets: seq<nat>)
    requires FromEncoder(p)
    ensures ok <==> AllEncoded(p)
    ensures ok ==> |offsets| == |p| + 1 && forall i :: 0 <= i <= |p| ==> offsets[i] == Plain(p, i)
  {
    offsets := [0];
    for k := 0 to |p|
      invariant forall i :: 0 <= i < k ==> Encoded(p[i])
      invariant |offsets| == k + 1 && forall i :: 0 <= i <= k ==> offsets[i] == Plain(p, i)
    {
      if p[k].bytes == [] {
        return false, offsets;
      }
      offsets := offsets + [offsets[k] + |p[k].bytes|];
    }
    ok := true;
  }

  /** The bytes of record `k` in linked code. */
  function Placed(p: seq<Ins>, k: nat, r: Stmt): (b: seq<byte>)
    requires k < |p| && Encoded(p[k]) && RefInRange(p, k)
    ensures r.Data? || |b| == |p[k].bytes|
  {
    if r.Data? then [r.datum] else Render(p[k], Linked(p, k))
  }

  /** Record `k`, from its offset to the next, holds its data byte or its linked instruction. */
  ghost predicate RecordAt(p: seq<Ins>, code: seq<byte>, k: nat, b: seq<byte>)
    requires k < |p|
  {
    Plain(p, k) <= Plain(p, k + 1) <= |code| && code[Plain(p, k)..Plain(p, k + 1)] == b
  }

  ghost predicate Image(p: seq<Ins>, rs: seq<Stmt>, code: seq<byte>)
    requires |p| == |rs| && AllEncoded(p) && InRange(p)
  {
    && |code| == Plain(p, |p|)
    && forall k {:trigger Placed(p, k, rs[k])} :: 0 <= k < |p| ==>
         Encoded(p[k]) && RefInRange(p, k) && RecordAt(p, code, k, Placed(p, k, rs[k]))
  }

  /** Code whose total size is the plain sum holds every instruction linked, at its plain
      offset. */
  lemma {:induction false} AssembledLinked(p: seq<Ins>, code: seq<byte>, k: nat)
    requires AllEncoded(p) && InRange(p) && Assembled(p, code) && |code| == Plain(p, |p|) && k < |p|
    ensures Encoded(p[k]) && RefInRange(p, k)
    ensures RecordAt(p, code, k, Render(p[k], Linked(p, k)))
  {
    assert Encoded(p[k]) && RefInRange(p, k);
    FinalIsLinked(p, k);
    TotalSpeaksForAll(p, k);
    TotalSpeaksForAll(p, k + 1);
    assert Length(p, k) == |p[k].bytes|;
  }

  /** Stores the data bytes over the one-byte records that hold their places. */
  method StoreData(p: seq<Ins>, rs: seq<Stmt>, offsets: seq<nat>, linked: seq<byte>)
      returns (code: seq<byte>)
    requires |p| == |rs| && AllEncoded(p) && InRange(p) && |linked| == Plain(p, |p|)
    requires |offsets| == |p| + 1 && forall i :: 0 <= i <= |p| ==> offsets[i] == Plain(p, i)
    requires forall k :: 0 <= k < |p| && rs[k].Data? ==> |p[k].bytes| == 1
    requires forall k :: 0 <= k < |p| ==> RecordAt(p, linked, k, Render(p[k], Linked(p, k)))
    ensures Image(p, rs, code)
  {
    code := linked;
    for k := 0 to |p|
      invariant |code| == Plain(p, |p|)
      invariant forall j :: 0 <= j < k ==> RecordAt(p, code, j, Placed(p, j, rs[j]))
      invariant forall j :: k <= j < |p| ==> RecordAt(p, code, j, Render(p[j], Linked(p, j)))
    {
      if rs[k].Data? {
        PlainRises(p, k + 1, |p|);
        ghost var was := code;
        code := code[offsets[k] := rs[k].datum];
        OneByte(p, was, k, rs[k].datum);
        forall j, b | 0 <= j < |p| && j != k && RecordAt(p, was, j, b) ensures RecordAt(p, code, j, b) {
          OtherRecord(p, was, k, rs[k].datum, j, b);
        }
      }
    }
  }

  lemma {:induction false} OneByte(p: seq<Ins>, code: seq<byte>, k: nat, v: byte)
    requires k < |p| && |p[k].bytes| == 1 && Plain(p, k + 1) <= |code|
    ensures RecordAt(p, code[Plain(p, k) := v], k, [v])
  {
  }

  lemma {:induction false} OtherRecord(p: seq<Ins>, code: seq<byte>, k: nat, v: byte, j: nat,
                                       b: seq<byte>)
    requires k < |p| && |p[k].bytes| == 1 && Plain(p, k + 1) <= |code|
    requires j < |p| && j != k && RecordAt(p, code, j, b)
    ensures RecordAt(p, code[Plain(p, k) := v], j, b)
  {
    if j < k {
      PlainRises(p, j, k);
    } else {
      PlainRises(p, k, j);
    }
    assert code[Plain(p, k) := v][Plain(p, j)..Plain(p, j + 1)] == code[Plain(p, j)..Plain(p, j + 1)];
  }

  /** A source without table overflows, duplicate, undefined or misused names, instructions that
      cannot be encoded, a misplaced `_start`, or a branch to the next instruction, to itself or
      back over at most 125 bytes, and with some instruction in it. */
  ghost predicate Coherent(stmts: seq<Stmt>)
  {
    var ss, rs := Symbols(stmts), Records(stmts);
    && Collectable(stmts)
    && (exists k :: 0 <= k < |rs| && !rs[k].Data?) && StartFine(ss, rs)
    && Bound(ss, rs)
    && var p := Program(ss, rs); AllEncoded(p) && forall i :: 0 <= i < |p| ==> !Near(p, i)
  }

  /** Exactly the sources that are linked. */
  ghost predicate Linkable(stmts: seq<Stmt>)
  {
    Coherent(stmts) && |Records(stmts)| <= MAX_ASSEMBLED
  }

  /** Assembles a source.  It fails exactly for sources that are not coherent and for those with
      more records than the assembler's heap has room for. */
  method Build(stmts: seq<Stmt>) returns (r: Option<Output>)
    requires forall s :: s in stmts ==> FromEncoderStmt(s)
    ensures r.Some? <==> Linkable(stmts)
    ensures r.Some? ==>
              var p := Program(Symbols(stmts), Records(stmts));
              && InRange(p) && Image(p, Records(stmts), r.value.code)
              && Meant(Symbols(stmts), Records(stmts), r.value.code)
              && (r.value.entry.None? <==> OpenEntry(Symbols(stmts), Records(stmts)))
              && (r.value.entry.Some? ==>
                    exists k :: EntersAt(Symbols(stmts), Records(stmts), k) && r.value.entry.value == Plain(p, k))
  {
    var ok, ss, rs := Collect(stmts);
    if !ok {
      return None;
    }
    RecordsAre(stmts);
    var entry;
    ok, entry := FindEntry(ss, rs);
    if !ok {
      return None;
    }
    var p;
    ok, p := Resolved(ss, rs);
    if !ok {
      return None;
    }
    ProgramInRange(stmts);
    ProgramFromEncoder(stmts);
    var code;
    ok, code := LinkProgram(p, rs);
    if !ok {
      return None;
    }
    ImageMeant(ss, rs, p, code);
    r := Some(Output(code, if entry.Some? then Some(Plain(p, entry.value)) else None));
  }

  /** Assembles on the heap of a new process, compares the total sizes and stores the data. */
  method LinkProgram(p: seq<Ins>, rs: seq<Stmt>) returns (ok: bool, code: seq<byte>)
    requires FromEncoder(p) && InRange(p) && p != [] && |p| == |rs| <= MAX_RECORDS
    requires forall k :: 0 <= k < |p| && rs[k].Data? ==> |p[k].bytes| == 1
    ensures ok <==> AllEncoded(p) && |p| <= MAX_ASSEMBLED && forall i :: 0 <= i < |p| ==> !Near(p, i)
    ensures ok ==> Image(p, rs, code)
  {
    code := [];
    var offsets;
    ok, offsets := Offsets(p);
    if !ok {
      return;
    }
    var heap := new Heap.X64Heap();
    FreshArena(|p|);
    var machine := Assemble(p, heap);
    if machine.None? {
      return false, code;
    }
    SizesAgreeIff(p);
    if offsets[|p|] != |machine.value| {
      return false, code;
    }
    forall k | 0 <= k < |p| ensures RecordAt(p, machine.value, k, Render(p[k], Linked(p, k))) {
      AssembledLinked(p, machine.value, k);
    }
    code := StoreData(p, rs, offsets, machine.value);
  }

  // ----- the image is what the statements mean -----

  lemma {:induction false} RecordIs(p: seq<Ins>, rs: seq<Stmt>, code: seq<byte>, k: nat, f: Fixup)
    requires |p| == |rs| && AllEncoded(p) && InRange(p) && Image(p, rs, code)
    requires k < |p| && !rs[k].Data? && RefInRange(p, k) && Linked(p, k) == f
    ensures Fits(p[k], f) && RecordAt(p, code, k, Render(p[k], f))
  {
    assert Encoded(p[k]);
    assert RecordAt(p, code, k, Placed(p, k, rs[k]));
  }

  /** A reference to record `t` in the image. */
  lemma {:induction false} ImageRefers(p: seq<Ins>, rs: seq<Stmt>, code: seq<byte>, k: nat, t: nat, e: Encoding)
    requires |p| == |rs| <= MAX_RECORDS && AllEncoded(p) && InRange(p) && Image(p, rs, code)
    requires k < |p| && !rs[k].Data? && t <= |p| && !p[k].ref.NoRef? && p[k].ref.insns == t - k
    requires p[k].bytes == e.bytes && e.tail == if p[k].ref.Rip? then p[k].ref.tail else 0
    ensures Refers(code, Plain(p, k), e, Plain(p, t) - Plain(p, k + 1))
  {
    var d := Plain(p, t) - Plain(p, k + 1);
    DistanceFits(p, k + 1, t);
    assert Linked(p, k) == Full(d);
    RecordIs(p, rs, code, k, Full(d));
    RenderRefers(code, Plain(p, k), p[k], e, d);
  }

  lemma {:induction false} ImageReference(ss: seq<Symbol>, rs: seq<Stmt>, p: seq<Ins>, code: seq<byte>, k: nat)
    requires Bound(ss, rs) && p == Program(ss, rs) && |rs| <= MAX_RECORDS
    requires AllEncoded(p) && InRange(p) && Image(p, rs, code) && k < |rs| && IsReference(rs[k])
    ensures RecordMeant(ss, rs, k, code)
  {
    var t := Find(ss, rs[k].target).value.at;
    assert p[k] == Lower(ss, k, rs[k]) && RefInRange(p, k);
    ImageRefers(p, rs, code, k, t, EncodingOf(ss, rs[k]));
    PlaceIsPlain(ss, rs, k);
    PlaceIsPlain(ss, rs, k + 1);
    PlaceIsPlain(ss, rs, t);
  }

  lemma {:induction false} ImageOther(ss: seq<Symbol>, rs: seq<Stmt>, p: seq<Ins>, code: seq<byte>, k: nat)
    requires Bound(ss, rs) && p == Program(ss, rs)
    requires AllEncoded(p) && InRange(p) && Image(p, rs, code) && k < |rs| && !IsReference(rs[k])
    ensures RecordMeant(ss, rs, k, code)
  {
    assert p[k] == Lower(ss, k, rs[k]) && RefInRange(p, k) && Encoded(p[k]);
    assert RecordAt(p, code, k, Placed(p, k, rs[k]));
    PlaceIsPlain(ss, rs, k);
    PlaceIsPlain(ss, rs, k + 1);
  }

  /** The image of a program is the code its statements mean. */
  lemma {:induction false} ImageMeant(ss: seq<Symbol>, rs: seq<Stmt>, p: seq<Ins>, code: seq<byte>)
    requires Bound(ss, rs) && p == Program(ss, rs) && |rs| <= MAX_RECORDS
    requires AllEncoded(p) && InRange(p) && Image(p, rs, code)
    ensures Meant(ss, rs, code)
  {
    PlaceIsPlain(ss, rs, |rs|);
    forall k | 0 <= k < |rs| ensures RecordMeant(ss, rs, k, code) {
      if IsReference(rs[k]) {
        ImageReference(ss, rs, p, code, k);
      } else {
        ImageOther(ss, rs, p, code, k);
      }
    }
  }

  /** The reference at statement `s` leads to the label at statement `l`: its displacement stands in
      its own encoding, and is the distance from its end to the record behind the label. */
  ghost predicate Leads(stmts: seq<Stmt>, code: seq<byte>, s: nat, l: nat)
    requires s < |stmts| && l <= |stmts| && Bound(Symbols(stmts), Records(stmts))
  {
    var ss, rs := Symbols(stmts), Records(stmts);
    var k, t := |Records(stmts[..s])|, |Records(stmts[..l])|;
    && k < |rs| && t <= |rs| && RecordBound(ss, stmts[s])
    && Place(ss, rs, k + 1) == Place(ss, rs, k) + |EncodingOf(ss, stmts[s]).bytes|
    && Refers(code, Place(ss, rs, k), EncodingOf(ss, stmts[s]), Place(ss, rs, t) - Place(ss, rs, k + 1))
  }

  /** In linked code, every branch and RIP-relative operand leads to its label. */
  lemma {:induction false} LabelReached(stmts: seq<Stmt>, code: seq<byte>, s: nat, l: nat)
    requires Collectable(stmts) && Bound(Symbols(stmts), Records(stmts))
    requires Meant(Symbols(stmts), Records(stmts), code)
    requires s < |stmts| && IsReference(stmts[s]) && l < |stmts| && stmts[l] == Label(stmts[s].target)
    ensures Leads(stmts, code, s, l)
  {
    RecordsSplit(stmts, s);
    RecordsPrefix(stmts, l);
    LabelFound(stmts, l);
    assert RecordMeant(Symbols(stmts), Records(stmts), |Records(stmts[..s])|, code);
  }

  /** In linked code, an instruction without a label is the encoder's, with the values its
      constants were defined with. */
  lemma {:induction false} CodeStands(stmts: seq<Stmt>, code: seq<byte>, s: nat, defs: seq<nat>)
    requires Collectable(stmts) && Bound(Symbols(stmts), Records(stmts))
    requires Meant(Symbols(stmts), Records(stmts), code)
    requires s < |stmts| && stmts[s].Code? && Defines(stmts, stmts[s].constants, defs)
    ensures var ss, rs, k := Symbols(stmts), Records(stmts), |Records(stmts[..s])|;
            var e := stmts[s].encode(Defined(stmts, stmts[s].constants, defs));
            && k < |rs| && Place(ss, rs, k) + |e.bytes| <= |code|
            && code[Place(ss, rs, k)..Place(ss, rs, k) + |e.bytes|] == e.bytes
  {
    RecordsSplit(stmts, s);
    assert RecordMeant(Symbols(stmts), Records(stmts), |Records(stmts[..s])|, code);
    ValuesDefined(stmts, stmts[s].constants, defs);
  }

  /** So are the bytes around the displacement of one with a label. */
  lemma {:induction false} MemoryStands(stmts: seq<Stmt>, s: nat, defs: seq<nat>)
    requires Collectable(stmts) && Bound(Symbols(stmts), Records(stmts))
    requires s < |stmts| && stmts[s].Memory? && Defines(stmts, stmts[s].constants, defs)
    ensures RecordBound(Symbols(stmts), stmts[s])
    ensures EncodingOf(Symbols(stmts), stmts[s])
            == stmts[s].encode(Defined(stmts, stmts[s].constants, defs))
  {
    RecordsSplit(stmts, s);
    ValuesDefined(stmts, stmts[s].constants, defs);
  }

  /** In linked code, an instruction of one of the known forms takes the processor to its label. */
  lemma {:induction false} FormReachesLabel(stmts: seq<Stmt>, code: seq<byte>, s: nat, l: nat, f: Forms.Form)
    requires Collectable(stmts) && Bound(Symbols(stmts), Records(stmts))
    requires Meant(Symbols(stmts), Records(stmts), code)
    requires s < |stmts| && IsReference(stmts[s]) && l < |stmts| && stmts[l] == Label(stmts[s].target)
    requires Forms.Exists(f) && RecordBound(Symbols(stmts), stmts[s])
    requires EncodingOf(Symbols(stmts), stmts[s]) == Encoding(Forms.Made(f, 0).bytes, Forms.TailOf(f))
    ensures var ss, rs := Symbols(stmts), Records(stmts);
            var k, t := |Records(stmts[..s])|, |Records(stmts[..l])|;
            && k < |rs| && t <= |rs| && Place(ss, rs, k) <= Place(ss, rs, k + 1) <= |code|
            && Forms.Reaches(code[Place(ss, rs, k)..Place(ss, rs, k + 1)], Place(ss, rs, k))
               == Some(Place(ss, rs, t))
  {
    LabelReached(stmts, code, s, l);
    var ss, rs, k, t := Symbols(stmts), Records(stmts), |Records(stmts[..s])|, |Records(stmts[..l])|;
    var e := EncodingOf(ss, stmts[s]);
    var lo, hi := Place(ss, rs, k), Place(ss, rs, k) + |e.bytes|;
    assert hi == Place(ss, rs, k + 1);
    ReferredReaches(code, lo, hi, e, f, Place(ss, rs, t));
  }

  lemma {:induction false} ReferredReaches(code: seq<byte>, lo: nat, hi: nat, e: Encoding, f: Forms.Form, target: nat)
    requires Forms.Exists(f) && e == Encoding(Forms.Made(f, 0).bytes, Forms.TailOf(f))
    requires hi == lo + |e.bytes| && Refers(code, lo, e, target - hi)
    ensures hi <= |code| && Forms.Reaches(code[lo..hi], lo) == Some(target)
  {
    RefersIff(code, lo, e, target - hi);
    Forms.FormField(f, 0);
    Forms.TailIs(f);
    SliceReaches(code[lo..hi], e, lo, target - hi);
  }

  lemma {:induction false} SliceReaches(b: seq<byte>, e: Encoding, lo: nat, d: int)
    requires |b| == |e.bytes| && e.tail + 4 <= |e.bytes|
    requires Forms.DisplacementAt(e.bytes) == Some(|e.bytes| - 4 - e.tail)
    requires var f := |e.bytes| - 4 - e.tail; ReadI32(b, f) == d && b[..f] == e.bytes[..f]
    ensures Forms.Reaches(b, lo) == Some(lo + |b| + d)
  {
    var f := |e.bytes| - 4 - e.tail;
    forall j | 0 <= j < f ensures b[j] == e.bytes[j] {
      assert b[j] == b[..f][j] && e.bytes[j] == e.bytes[..f][j];
    }
    Forms.SameOpcode(e.bytes, b);
  }

  /** Linked code need not have an entry point: a jump over one data byte to another is a source
      that is linked and leaves it open. */
  lemma {:induction false} LinkedWithoutEntry(jump: seq<byte>, name: string, x: byte, y: byte)
    requires |jump| == 5 && name != START
    ensures var stmts := [Branch(jump, name), Data(x), Label(name), Data(y)];
            Linkable(stmts) && OpenEntry(Symbols(stmts), Records(stmts))
  {
    var j, d, l, e := Branch(jump, name), Data(x), Label(name), Data(y);
    FourStatements(j, d, l, e);
    ThreeReferences(j, d, e);
    JumpLowered(jump, name, x, y);
    JumpFine(jump);
    assert [j, d, e][0] == j;
    assert Find([LabelAt(name, 2)], START) == None;
  }

  lemma {:induction false} JumpLowered(jump: seq<byte>, name: string, x: byte, y: byte)
    ensures var ss, rs := [LabelAt(name, 2)], [Branch(jump, name), Data(x), Data(y)];
            Bound(ss, rs) && Program(ss, rs) == JumpProgram(jump)
  {
    var ss := [LabelAt(name, 2)];
    assert Find(ss, name) == Some(ss[0]);
  }

  /** A jump of two instructions over one to another. */
  function JumpProgram(jump: seq<byte>): (p: seq<Ins>)
  {
    [Ins(jump, Rel(2)), Ins([0xCC], NoRef), Ins([0xCC], NoRef)]
  }

  lemma {:induction false} JumpFine(jump: seq<byte>)
    requires |jump| == 5
    ensures var p := JumpProgram(jump); AllEncoded(p) && forall i :: 0 <= i < |p| ==> !Near(p, i)
  {
  }

  lemma {:induction false} ThreeReferences(j: Stmt, d: Stmt, e: Stmt)
    ensures References([j, d, e]) == ReferencesOf(j) + ReferencesOf(d) + ReferencesOf(e)
  {
    ReferencesMore([], j);
    assert [] + [j] == [j];
    ReferencesMore([j], d);
    assert [j] + [d] == [j, d];
    ReferencesMore([j, d], e);
    assert [j, d] + [e] == [j, d, e];
  }

  lemma {:induction false} TwoStatements(j: Stmt, d: Stmt)
    requires IsRecord(j) && IsRecord(d)
    ensures Records([j] + [d]) == [j] + [d] && Symbols([j] + [d]) == []
  {
    StmtMore([], j);
    assert [] + [j] == [j];
    StmtMore([j], d);
  }

  lemma {:induction false} FourStatements(j: Stmt, d: Stmt, l: Stmt, e: Stmt)
    requires IsRecord(j) && IsRecord(d) && l.Label? && IsRecord(e)
    ensures Records([j, d, l, e]) == [j, d, e]
    ensures Symbols([j, d, l, e]) == [LabelAt(l.name, 2)]
  {
    var two := [j] + [d];
    TwoStatements(j, d);
    StmtMore(two, l);
    StmtMore(two + [l], e);
    assert [j, d, l, e] == two + [l] + [e] && two + [e] == [j, d, e];
  }

  lemma {:induction false} StmtMore(stmts: seq<Stmt>, s: Stmt)
    ensures IsRecord(s) ==>
              Records(stmts + [s]) == Records(stmts) + [s] && Symbols(stmts + [s]) == Symbols(stmts)
    ensures s.Label? ==>
              && Records(stmts + [s]) == Records(stmts)
              && Symbols(stmts + [s]) == Symbols(stmts) + [LabelAt(s.name, |Records(stmts)|)]
  {
    assert (stmts + [s])[..|stmts|] == stmts;
  }

  /** One instruction and `n` data bytes. */
  function Padded(one: Stmt, x: byte, n: nat): (stmts: seq<Stmt>)
    ensures |stmts| == n + 1 && stmts[0] == one
    ensures forall i :: 0 < i <= n ==> stmts[i] == Data(x)
  {
    if n == 0 then [one] else Padded(one, x, n - 1) + [Data(x)]
  }

  /** All of these statements make records, and none refers to anything. */
  ghost predicate Inert(stmts: seq<Stmt>)
  {
    Records(stmts) == stmts && Symbols(stmts) == [] && References(stmts) == 0
  }

  lemma {:induction false} InertMore(stmts: seq<Stmt>, s: Stmt)
    requires Inert(stmts) && IsRecord(s) && ReferencesOf(s) == 0
    ensures Inert(stmts + [s])
  {
    StmtMore(stmts, s);
    ReferencesMore(stmts, s);
  }

  lemma {:induction false} PaddedInert(one: Stmt, x: byte, n: nat)
    requires one.Code? && one.constants == []
    ensures Inert(Padded(one, x, n))
    decreases n
  {
    if n == 0 {
      InertMore([], one);
      assert [] + [one] == [one];
    } else {
      PaddedInert(one, x, n - 1);
      InertMore(Padded(one, x, n - 1), Data(x));
    }
  }

  /** Without references nothing can go wrong with them. */
  lemma {:induction false} PaddedProgram(one: Stmt, x: byte, n: nat)
    requires one.Code? && one.constants == [] && Encodes(one.encode([]), 0)
    requires one.encode([]).bytes != []
    ensures Bound([], Padded(one, x, n))
    ensures var p := Program([], Padded(one, x, n));
            AllEncoded(p) && forall i :: 0 <= i < |p| ==> !Near(p, i)
  {
    var rs := Padded(one, x, n);
    forall k | 0 <= k < |rs| ensures RecordBound([], rs[k]) {
      assert k == 0 || rs[k] == Data(x);
    }
    assert Values([], one.constants) == [];
    var p := Program([], rs);
    forall i | 0 <= i < |p| ensures Encoded(p[i]) && !Near(p, i) {
      assert p[i] == Lower([], i, rs[i]);
      assert i == 0 || rs[i] == Data(x);
    }
  }

  /** A source may be within every limit of the command and yet be refused: one instruction and
      more data than the assembler's heap has room for. */
  lemma {:induction false} RefusedForSpace(one: Stmt, x: byte, n: nat)
    requires one.Code? && one.constants == [] && Encodes(one.encode([]), 0)
    requires one.encode([]).bytes != [] && MAX_ASSEMBLED <= n < MAX_RECORDS
    ensures Coherent(Padded(one, x, n)) && !Linkable(Padded(one, x, n))
  {
    PaddedInert(one, x, n);
    PaddedProgram(one, x, n);
    assert !Padded(one, x, n)[0].Data?;
  }
}
