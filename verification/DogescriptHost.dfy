/** What the interpreter asks of its surroundings, and the outcomes it can report. */
module DogescriptHost {
  import opened Basics
  import opened DogescriptSyntax

  /** Result of one command: its status, the new store, and the status of an `exit`. */
  datatype CommandResult<S> = CommandResult(status: int, store: S, exit: Option<int>)

  /** `lex` says whether a line can be read and tokenised in a store (variable expansion can
      overflow, so this depends on the store); `cond` and `count` are `None` for malformed
      operands. */
  datatype Host<!S> = Host(
    lex: (Line, S) -> bool,
    cond: (string, S) -> Option<bool>,
    count: (string, S) -> Option<int>,
    run: (string, S) -> CommandResult<S>)

  /** The store, and the commands run so far. */
  datatype World<S> = World(store: S, trace: seq<string>)

  datatype Reason =
    | StepLimit | BadLine | BadCondition | BadIf | BadElse | MissingEndWhile | MissingEndRepeat
    | BadRepeat | NestingLimit | StrayEndWhile | StrayEndRepeat | StrayJump | CommandFailed

  datatype Outcome<S> =
    | Finished(status: int, world: World<S>)
    | Failed(reason: Reason, world: World<S>)

  const MAX_LOOP_DEPTH: nat := 32
  const MAX_STEPS: nat := 500000
  const MAX_REPEAT: int := 100000

  /** Every line of a block tokenises in this world. */
  predicate LexBlock<S>(h: Host<S>, b: Block, w: World<S>)
    decreases b, 0
  {
    match b
    case Empty => true
    case Then(s, t) => LexStmt(h, s, w) && LexBlock(h, t, w)
  }

  predicate LexStmt<S>(h: Host<S>, s: Stmt, w: World<S>)
    decreases s, 0
  {
    h.lex(FirstLine(s), w.store) &&
    match s
    case Simple(_, _) => true
    case If(_, thn, e) => LexTo(h, thn, Line(KEndIf, e), w)
    case IfElse(_, thn, m, els, e) => LexTo(h, thn, Line(KElse, m), w) && LexTo(h, els, Line(KEndIf, e), w)
    case Loop(k, _, body, e) => LexTo(h, body, Line(Closer(k), e), w)
  }

  /** A block and the line behind it tokenise. */
  predicate LexTo<S>(h: Host<S>, b: Block, l: Line, w: World<S>)
    decreases b, 1
  {
    LexBlock(h, b, w) && h.lex(l, w.store)
  }

  /** Outcome of running one command in a world. */
  datatype Effect<S> = Ran(world: World<S>) | Stopped(outcome: Outcome<S>)

  function RunCommand<S>(h: Host<S>, text: string, w: World<S>): (e: Effect<S>)
  {
    var r := h.run(text, w.store);
    var w' := World(r.store, w.trace + [text]);
    if r.status != 0 then Stopped(Failed(CommandFailed, w'))
    else if r.exit.Some? then Stopped(Finished(r.exit.value, w'))
    else Ran(w')
  }
}
