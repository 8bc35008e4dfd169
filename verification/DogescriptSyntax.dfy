/** Dogescript programs: the flat list of lines the interpreter reads, and the nested
    program such a list stands for.

    A line is reduced to its keyword and its text.  Everything the text means (tokens,
    variable values, files, console) belongs to a `Host`, so that every statement below
    holds for all command sets, all stores and all texts.
 */
module DogescriptSyntax {
  /** First token of a line.  `Break` and `Continue` remember whether they stand alone on
      their line, because the interpreter rejects `break` with operands. */
  datatype Keyword =
    | KBlank
    | KIf | KElse | KEndIf
    | KWhile | KEndWhile
    | KRepeat | KEndRepeat
    | KBreak(bare: bool) | KContinue(bare: bool)
    | KCommand

  datatype Line = Line(kw: Keyword, text: string)

  /** A statement of one line. */
  datatype Plain = Blank | Do | BreakOut(bare: bool) | NextPass(bare: bool)

  datatype LoopKind = LoopWhile | LoopRepeat

  /** A nested program.  The strings are the texts of the lines that make up a statement. */
  datatype Block = Empty | Then(head: Stmt, tail: Block)

  datatype Stmt =
    | Simple(op: Plain, text: string)
    | If(cond: string, thn: Block, close: string)
    | IfElse(cond: string, thn: Block, mid: string, els: Block, close: string)
    | Loop(kind: LoopKind, test: string, body: Block, close: string)

  function PlainKeyword(op: Plain): (kw: Keyword)
  {
    match op
    case Blank => KBlank
    case Do => KCommand
    case BreakOut(bare) => KBreak(bare)
    case NextPass(bare) => KContinue(bare)
  }

  function Opener(kind: LoopKind): (kw: Keyword)
  {
    if kind == LoopWhile then KWhile else KRepeat
  }

  function Closer(kind: LoopKind): (kw: Keyword)
  {
    if kind == LoopWhile then KEndWhile else KEndRepeat
  }

  function FirstLine(s: Stmt): (l: Line)
  {
    match s
    case Simple(op, t) => Line(PlainKeyword(op), t)
    case If(c, _, _) => Line(KIf, c)
    case IfElse(c, _, _, _, _) => Line(KIf, c)
    case Loop(k, c, _, _) => Line(Opener(k), c)
  }

  /** The script file of a nested program. */
  function Flatten(b: Block): (ls: seq<Line>)
  {
    match b
    case Empty => []
    case Then(s, t) => FlattenStmt(s) + Flatten(t)
  }

  function FlattenStmt(s: Stmt): (ls: seq<Line>)
  {
    match s
    case Simple(_, _) => [FirstLine(s)]
    case If(_, thn, e) => [FirstLine(s)] + Flatten(thn) + [Line(KEndIf, e)]
    case IfElse(_, thn, m, els, e) =>
      [FirstLine(s)] + Flatten(thn) + [Line(KElse, m)] + Flatten(els) + [Line(KEndIf, e)]
    case Loop(k, _, body, e) => [FirstLine(s)] + Flatten(body) + [Line(Closer(k), e)]
  }
}
