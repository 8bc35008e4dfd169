/** A parsed assembly source: statements, symbols and the records they make. */
module ChasmSource {
  import opened Basics
  import opened ChasmOffsets
  import opened ChasmAssembler

  const MAX_RECORDS: nat := 16384
  const MAX_SYMBOLS: nat := 512
  const MAX_REFERENCES: nat := 4096

  /** What the encoder makes of an instruction: its bytes, none if it cannot be encoded, and how
      many of them stand behind a RIP-relative displacement. */
  datatype Encoding = Encoding(bytes: seq<byte>, tail: nat)

  /** A statement.  The operands that name constants are listed in order; the encoding depends on
      their values. */
  datatype Stmt =
    | Label(name: string)
    | Constant(name: string, value: int)
    | Branch(bytes: seq<byte>, target: string)
    | Memory(constants: seq<string>, encode: seq<int> -> Encoding, target: string)
    | Code(constants: seq<string>, encode: seq<int> -> Encoding)
    | Data(datum: byte)

  /** A label stands at a record; a constant has a value. */
  datatype Symbol = Symbol(name: string, at: nat, isConstant: bool, value: int)

  function LabelAt(name: string, at: nat): (s: Symbol)
  {
    Symbol(name, at, false, 0)
  }

  predicate IsRecord(s: Stmt)
  {
    !s.Label? && !s.Constant?
  }

  /** The statement refers to a label. */
  predicate IsReference(s: Stmt)
  {
    s.Branch? || s.Memory?
  }

  predicate TakesConstants(s: Stmt)
  {
    s.Memory? || s.Code?
  }

  /** References of a statement, to labels and to constants. */
  function ReferencesOf(s: Stmt): (n: nat)
  {
    (if IsReference(s) then 1 else 0) + if TakesConstants(s) then |s.constants| else 0
  }

  /** At most 15 bytes, with room for `room` bytes in front of the tail. */
  predicate Encodes(e: Encoding, room: nat)
  {
    e.bytes == [] || (e.tail + room <= |e.bytes| <= MAX_LENGTH)
  }

  /** The encoder's promise about one statement: at most 15 bytes, a 32-bit branch form, room for
      a displacement. */
  ghost predicate FromEncoderStmt(s: Stmt)
  {
    match s
    case Branch(bytes, _) => bytes == [] || 5 <= |bytes| <= MAX_LENGTH
    case Memory(_, encode, _) => forall values :: Encodes(encode(values), 4)
    case Code(_, encode) => forall values :: Encodes(encode(values), 0)
    case _ => true
  }

  /** The records, in order: one per instruction and data byte. */
  function Records(stmts: seq<Stmt>): (rs: seq<Stmt>)
  {
    if stmts == [] then []
    else
      var front, last := stmts[..|stmts| - 1], stmts[|stmts| - 1];
      if IsRecord(last) then Records(front) + [last] else Records(front)
  }

  /** The symbols, in order.  A label stands at the next record. */
  function Symbols(stmts: seq<Stmt>): (ss: seq<Symbol>)
  {
    if stmts == [] then []
    else
      var front, last := stmts[..|stmts| - 1], stmts[|stmts| - 1];
      if last.Label? then Symbols(front) + [LabelAt(last.name, |Records(front)|)]
      else if last.Constant? then Symbols(front) + [Symbol(last.name, 0, true, last.value)]
      else Symbols(front)
  }

  function References(rs: seq<Stmt>): (n: nat)
  {
    if rs == [] then 0
    else References(rs[..|rs| - 1]) + ReferencesOf(rs[|rs| - 1])
  }

  /** The first symbol of that name. */
  function Find(ss: seq<Symbol>, name: string): (r: Option<Symbol>)
  {
    if ss == [] then None
    else if ss[0].name == name then Some(ss[0])
    else Find(ss[1..], name)
  }

  predicate Unique(ss: seq<Symbol>)
  {
    forall i, j :: 0 <= i < j < |ss| ==> ss[i].name != ss[j].name
  }

  lemma {:induction false} FindFirst(ss: seq<Symbol>, i: nat)
    requires i < |ss| && forall j :: 0 <= j < i ==> ss[j].name != ss[i].name
    ensures Find(ss, ss[i].name) == Some(ss[i])
  {
    if i > 0 { FindFirst(ss[1..], i - 1); }
  }

  lemma {:induction false} FindNone(ss: seq<Symbol>, name: string)
    requires forall j :: 0 <= j < |ss| ==> ss[j].name != name
    ensures Find(ss, name) == None
  {
    if ss != [] { FindNone(ss[1..], name); }
  }

  /** A label's symbol counts the records before it. */
  lemma {:induction false} LabelSymbol(stmts: seq<Stmt>, l: nat) returns (i: nat)
    requires l < |stmts| && stmts[l].Label?
    ensures i < |Symbols(stmts)|
    ensures Symbols(stmts)[i] == LabelAt(stmts[l].name, |Records(stmts[..l])|)
  {
    var front := stmts[..|stmts| - 1];
    if l == |stmts| - 1 {
      i := |Symbols(front)|;
    } else {
      i := LabelSymbol(front, l);
      assert front[..l] == stmts[..l];
    }
  }

  lemma {:induction false} RecordsSplit(stmts: seq<Stmt>, s: nat)
    requires s < |stmts| && IsRecord(stmts[s])
    ensures |Records(stmts[..s])| < |Records(stmts)|
    ensures Records(stmts)[|Records(stmts[..s])|] == stmts[s]
  {
    var front := stmts[..|stmts| - 1];
    if s < |stmts| - 1 {
      RecordsSplit(front, s);
      assert front[..s] == stmts[..s];
    }
  }

  lemma {:induction false} RecordsPrefix(stmts: seq<Stmt>, s: nat)
    requires s <= |stmts|
    ensures |Records(stmts[..s])| <= |Records(stmts)|
  {
    if s < |stmts| {
      var front := stmts[..|stmts| - 1];
      RecordsPrefix(front, s);
      assert front[..s] == stmts[..s];
    } else {
      assert stmts[..s] == stmts;
    }
  }

  /** In a source without duplicate names a label is found where it stands. */
  lemma {:induction false} LabelFound(stmts: seq<Stmt>, l: nat)
    requires l < |stmts| && stmts[l].Label? && Unique(Symbols(stmts))
    ensures Find(Symbols(stmts), stmts[l].name)
            == Some(LabelAt(stmts[l].name, |Records(stmts[..l])|))
  {
    var i := LabelSymbol(stmts, l);
    FindFirst(Symbols(stmts), i);
  }

  /** Symbols stand within the program. */
  lemma {:induction false} SymbolsWithin(stmts: seq<Stmt>, i: nat)
    requires i < |Symbols(stmts)|
    ensures Symbols(stmts)[i].at <= |Records(stmts)|
  {
    var front := stmts[..|stmts| - 1];
    if i < |Symbols(front)| {
      SymbolsWithin(front, i);
    }
  }

  lemma {:induction false} FindIsSymbol(ss: seq<Symbol>, name: string) returns (i: nat)
    requires Find(ss, name).Some?
    ensures i < |ss| && Find(ss, name) == Some(ss[i]) && ss[i].name == name
  {
    if ss[0].name == name {
      i := 0;
    } else {
      var j := FindIsSymbol(ss[1..], name);
      i := j + 1;
    }
  }

  // ----- the program a source stands for -----

  predicate IsLabel(ss: seq<Symbol>, name: string)
  {
    Find(ss, name).Some? && !Find(ss, name).value.isConstant
  }

  predicate IsConstant(ss: seq<Symbol>, name: string)
  {
    Find(ss, name).Some? && Find(ss, name).value.isConstant
  }

  predicate AllConstants(ss: seq<Symbol>, names: seq<string>)
  {
    forall j :: 0 <= j < |names| ==> IsConstant(ss, names[j])
  }

  /** What the named constants stand for. */
  function Values(ss: seq<Symbol>, names: seq<string>): (values: seq<int>)
    requires AllConstants(ss, names)
  {
    seq(|names|, j requires 0 <= j < |names| => Find(ss, names[j]).value.value)
  }

  /** The record refers to a label and takes constants where it has to. */
  predicate RecordBound(ss: seq<Symbol>, r: Stmt)
  {
    && IsRecord(r)
    && (IsReference(r) ==> IsLabel(ss, r.target))
    && (TakesConstants(r) ==> AllConstants(ss, r.constants))
  }

  /** The encoding of a record.  A data byte holds the place of a one-byte instruction. */
  function EncodingOf(ss: seq<Symbol>, r: Stmt): (e: Encoding)
    requires RecordBound(ss, r)
  {
    match r
    case Branch(bytes, _) => Encoding(bytes, 0)
    case Memory(constants, encode, _) => encode(Values(ss, constants))
    case Code(constants, encode) => encode(Values(ss, constants))
    case Data(_) => Encoding([0xCC], 0)
  }

  /** Record `k` as an instruction. */
  function Lower(ss: seq<Symbol>, k: nat, r: Stmt): (i: Ins)
    requires RecordBound(ss, r)
  {
    var e := EncodingOf(ss, r);
    match r
    case Branch(_, target) => Ins(e.bytes, Rel(Find(ss, target).value.at - k))
    case Memory(_, _, target) => Ins(e.bytes, Rip(Find(ss, target).value.at - k, e.tail))
    case _ => Ins(e.bytes, NoRef)
  }

  predicate Bound(ss: seq<Symbol>, rs: seq<Stmt>)
  {
    forall k :: 0 <= k < |rs| ==> RecordBound(ss, rs[k])
  }

  function Program(ss: seq<Symbol>, rs: seq<Stmt>): (p: seq<Ins>)
    requires Bound(ss, rs)
    ensures |p| == |rs| && forall k :: 0 <= k < |rs| ==> p[k] == Lower(ss, k, rs[k])
  {
    seq(|rs|, k requires 0 <= k < |rs| => Lower(ss, k, rs[k]))
  }

  lemma {:induction false} RecordsAre(stmts: seq<Stmt>)
    ensures forall k :: 0 <= k < |Records(stmts)| ==> Records(stmts)[k] in stmts && IsRecord(Records(stmts)[k])
  {
    if stmts != [] {
      RecordsAre(stmts[..|stmts| - 1]);
    }
  }

  /** Labels stand within the program, so no reference leaves it. */
  lemma {:induction false} ProgramInRange(stmts: seq<Stmt>)
    requires Bound(Symbols(stmts), Records(stmts))
    ensures InRange(Program(Symbols(stmts), Records(stmts)))
  {
    var ss, rs := Symbols(stmts), Records(stmts);
    var p := Program(ss, rs);
    forall k | 0 <= k < |p| ensures RefInRange(p, k) {
      assert p[k] == Lower(ss, k, rs[k]);
      if IsReference(rs[k]) {
        var i := FindIsSymbol(ss, rs[k].target);
        SymbolsWithin(stmts, i);
      }
    }
  }

  lemma {:induction false} ProgramFromEncoder(stmts: seq<Stmt>)
    requires Bound(Symbols(stmts), Records(stmts))
    requires forall s :: s in stmts ==> FromEncoderStmt(s)
    ensures FromEncoder(Program(Symbols(stmts), Records(stmts)))
  {
    var ss, rs := Symbols(stmts), Records(stmts);
    var p := Program(ss, rs);
    RecordsAre(stmts);
    forall k | 0 <= k < |p| ensures p[k].bytes == [] || Encoded(p[k]) {
      assert p[k] == Lower(ss, k, rs[k]) && FromEncoderStmt(rs[k]);
    }
  }

  // ----- constants -----

  lemma {:induction false} ConstantSymbol(stmts: seq<Stmt>, c: nat) returns (i: nat)
    requires c < |stmts| && stmts[c].Constant?
    ensures i < |Symbols(stmts)|
    ensures Symbols(stmts)[i] == Symbol(stmts[c].name, 0, true, stmts[c].value)
  {
    var front := stmts[..|stmts| - 1];
    if c == |stmts| - 1 {
      i := |Symbols(front)|;
    } else {
      i := ConstantSymbol(front, c);
    }
  }

  /** In a source without duplicate names a constant is found with the value it was given. */
  lemma {:induction false} ConstantFound(stmts: seq<Stmt>, c: nat)
    requires c < |stmts| && stmts[c].Constant? && Unique(Symbols(stmts))
    ensures Find(Symbols(stmts), stmts[c].name) == Some(Symbol(stmts[c].name, 0, true, stmts[c].value))
  {
    var i := ConstantSymbol(stmts, c);
    FindFirst(Symbols(stmts), i);
  }

  /** These statements define these names. */
  predicate Defines(stmts: seq<Stmt>, names: seq<string>, defs: seq<nat>)
  {
    && |defs| == |names|
    && forall j :: 0 <= j < |names| ==>
         defs[j] < |stmts| && stmts[defs[j]].Constant? && stmts[defs[j]].name == names[j]
  }

  /** The values they give them. */
  function Defined(stmts: seq<Stmt>, names: seq<string>, defs: seq<nat>): (values: seq<int>)
    requires Defines(stmts, names, defs)
  {
    seq(|names|, j requires 0 <= j < |names| => stmts[defs[j]].value)
  }

  lemma {:induction false} ValuesDefined(stmts: seq<Stmt>, names: seq<string>, defs: seq<nat>)
    requires Unique(Symbols(stmts)) && Defines(stmts, names, defs)
    ensures AllConstants(Symbols(stmts), names)
    ensures Values(Symbols(stmts), names) == Defined(stmts, names, defs)
  {
    forall j | 0 <= j < |names|
      ensures Find(Symbols(stmts), names[j]) == Some(Symbol(names[j], 0, true, stmts[defs[j]].value))
    {
      ConstantFound(stmts, defs[j]);
    }
  }
}
