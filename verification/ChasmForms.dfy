/** Some of the encoder's forms, byte by byte, and how the processor reads them. */
module ChasmForms {
  import opened Basics
  import opened ChasmOffsets
  import opened ChasmImage

  /** CALL, JMP and Jcc to a label; LEA of a label; CMP of a byte and of a quadword at a label with
      an immediate, which stands behind the displacement. */
  datatype Form =
    | Call
    | Jump
    | Conditional(condition: nat)
    | Address(register: nat)
    | CompareByte(value: byte)
    | CompareQuad(low: byte, second: byte, third: byte, high: byte)

  predicate Exists(f: Form)
  {
    (f.Conditional? ==> f.condition < 16) && (f.Address? ==> f.register < 8)
  }

  /** The instruction in this form that refers to a record so many instructions away. */
  function Made(f: Form, insns: int): (i: Ins)
    requires Exists(f)
  {
    match f
    case Call => Ins([0xE8, 0, 0, 0, 0], Rel(insns))
    case Jump => Ins([0xE9, 0, 0, 0, 0], Rel(insns))
    case Conditional(condition) => Ins([0x0F, 0x80 + condition, 0, 0, 0, 0], Rel(insns))
    case Address(register) => Ins([0x48, 0x8D, 8 * register + 5, 0, 0, 0, 0], Rip(insns, 0))
    case CompareByte(value) => Ins([0x80, 0x3D, 0, 0, 0, 0, value], Rip(insns, 1))
    case CompareQuad(low, second, third, high) =>
      Ins([0x48, 0x81, 0x3D, 0, 0, 0, 0, low, second, third, high], Rip(insns, 4))
  }

  /** The bytes behind the displacement. */
  function TailOf(f: Form): (n: nat)
  {
    match f
    case CompareByte(_) => 1
    case CompareQuad(_, _, _, _) => 4
    case _ => 0
  }

  /** Where the opcode in front says the displacement is. */
  function DisplacementAt(b: seq<byte>): (at: Option<nat>)
    ensures at.Some? ==> at.value + 4 <= |b|
  {
    if |b| == 5 && (b[0] == 0xE8 || b[0] == 0xE9) then Some(1)
    else if |b| == 6 && b[0] == 0x0F && 0x80 <= b[1] <= 0x8F then Some(2)
    else if |b| == 7 && b[0] == 0x48 && b[1] == 0x8D && b[2] < 64 && b[2] % 8 == 5 then Some(3)
    else if |b| == 7 && b[0] == 0x80 && b[1] == 0x3D then Some(2)
    else if |b| == 11 && b[0] == 0x48 && b[1] == 0x81 && b[2] == 0x3D then Some(3)
    else None
  }

  /** The address the processor takes from instruction `b` at `at`: the displacement counts from
      the end of the instruction. */
  function Reaches(b: seq<byte>, at: nat): (address: Option<int>)
  {
    if DisplacementAt(b).None? then None else Some(at + |b| + ReadI32(b, DisplacementAt(b).value))
  }

  lemma {:induction false} FormField(f: Form, insns: int)
    requires Exists(f)
    ensures Encoded(Made(f, insns)) && !Made(f, insns).ref.NoRef? && Made(f, insns).ref.insns == insns
    ensures DisplacementAt(Made(f, insns).bytes) == Some(Field(Made(f, insns)))
  {
  }

  lemma {:induction false} TailIs(f: Form)
    requires Exists(f)
    ensures Encoded(Made(f, 0)) && Field(Made(f, 0)) == |Made(f, 0).bytes| - 4 - TailOf(f)
  {
  }

  lemma {:induction false} SameOpcode(a: seq<byte>, b: seq<byte>)
    requires |a| == |b| && DisplacementAt(a).Some?
    requires forall j :: 0 <= j < DisplacementAt(a).value ==> b[j] == a[j]
    ensures DisplacementAt(b) == DisplacementAt(a)
  {
  }

  /** Fixing up the displacement leaves the opcode in front of it alone. */
  lemma {:induction false} OpcodeStays(i: Ins, d: int)
    requires Encoded(i) && !i.ref.NoRef? && -0x8000_0000 <= d < 0x8000_0000
    ensures ReadI32(Render(i, Full(d)), Field(i)) == d
    ensures forall j :: 0 <= j < Field(i) ==> Render(i, Full(d))[j] == i.bytes[j]
  {
    DisplacementReads(i, d);
    var b := Render(i, Full(d));
    assert forall j :: 0 <= j < Field(i) ==> b[j] == b[..Field(i)][j] == i.bytes[..Field(i)][j];
  }

  lemma {:induction false} LinkedIs(p: seq<Ins>, k: nat, t: nat)
    requires AllEncoded(p) && |p| <= 0x800_0000
    requires k < |p| && t <= |p| && !p[k].ref.NoRef? && p[k].ref.insns == t - k
    ensures RefInRange(p, k) && Plain(p, k + 1) == Plain(p, k) + |p[k].bytes|
    ensures Linked(p, k) == Full(Plain(p, t) - Plain(p, k + 1))
    ensures -0x8000_0000 <= Plain(p, t) - Plain(p, k + 1) < 0x8000_0000
  {
    DistanceFits(p, k + 1, t);
  }

  /** Where opcode and encoder agree on the displacement, the processor reaches the target. */
  lemma {:induction false} OpcodeLands(p: seq<Ins>, k: nat, t: nat)
    requires AllEncoded(p) && |p| <= 0x800_0000
    requires k < |p| && t <= |p| && !p[k].ref.NoRef? && p[k].ref.insns == t - k
    requires Encoded(p[k]) && DisplacementAt(p[k].bytes) == Some(Field(p[k]))
    ensures RefInRange(p, k) && Fits(p[k], Linked(p, k))
    ensures Reaches(Render(p[k], Linked(p, k)), Plain(p, k)) == Some(Plain(p, t))
  {
    LinkedIs(p, k, t);
    var d := Plain(p, t) - Plain(p, k + 1);
    OpcodeStays(p[k], d);
    SameOpcode(p[k].bytes, Render(p[k], Full(d)));
  }

  /** Linked, an instruction in one of these forms takes the processor to the offset of the record
      it refers to, whatever instructions are around it. */
  lemma {:induction false} FormLands(p: seq<Ins>, k: nat, f: Form, t: nat)
    requires Exists(f) && AllEncoded(p) && |p| <= 0x800_0000
    requires k < |p| && t <= |p| && p[k] == Made(f, t - k)
    ensures RefInRange(p, k) && Fits(p[k], Linked(p, k))
    ensures Reaches(Render(p[k], Linked(p, k)), Plain(p, k)) == Some(Plain(p, t))
  {
    FormField(f, t - k);
    OpcodeLands(p, k, t);
  }
}
