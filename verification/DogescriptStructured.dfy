/** The meaning a reader gives a nested program: no positions, no jumps, no stack. */
module DogescriptStructured {
  import opened Basics
  import opened DogescriptSyntax
  import opened DogescriptHost

  datatype Signal = Normal | Broke | Continued

  /** Either the run goes on, with the steps left, or it is over. */
  datatype Eval<S> =
    | On(signal: Signal, world: World<S>, fuel: nat)
    | Over(outcome: Outcome<S>)

  /** Every line costs one step and has to tokenise in the store it is reached with. */
  function Visit<S>(h: Host<S>, line: Line, w: World<S>, fuel: nat): (r: Option<Outcome<S>>)
  {
    if fuel == 0 then Some(Failed(StepLimit, w))
    else if !h.lex(line, w.store) then Some(Failed(BadLine, w))
    else None
  }

  function EvalSimple<S>(h: Host<S>, op: Plain, text: string, w: World<S>, depth: nat, fuel: nat): (r: Eval<S>)
    ensures r.On? ==> r.fuel <= fuel
    ensures r.On? && r.signal != Normal ==> depth > 0
  {
    match op
    case Blank => On(Normal, w, fuel)
    case Do =>
      (match RunCommand(h, text, w)
       case Stopped(o) => Over(o)
       case Ran(w') => On(Normal, w', fuel))
    case BreakOut(bare) =>
      if depth == 0 || !bare then Over(Failed(StrayJump, w)) else On(Broke, w, fuel)
    case NextPass(bare) =>
      if depth == 0 || !bare then Over(Failed(StrayJump, w)) else On(Continued, w, fuel)
  }

  function EvalBlock<S>(h: Host<S>, b: Block, w: World<S>, depth: nat, fuel: nat): (r: Eval<S>)
    ensures r.On? ==> r.fuel <= fuel
    ensures r.On? && r.signal != Normal ==> depth > 0
    decreases fuel, 1
  {
    match b
    case Empty => On(Normal, w, fuel)
    case Then(s, t) =>
      var r := EvalStmt(h, s, w, depth, fuel);
      if r.Over? || r.signal != Normal then r
      else EvalBlock(h, t, r.world, depth, r.fuel)
  }

  /** What happens at the head of an `if`, `while` or `repeat`: an error, the body (so many
      times), or straight past it.  `ok` says that the search for the closing line works. */
  datatype Choice = Refuse(reason: Reason) | Enter(passes: nat) | Pass

  function IfChoice(cond: Option<bool>, ok: bool): (c: Choice)
  {
    if cond.None? then Refuse(BadCondition)
    else if !ok then Refuse(BadIf)
    else if cond.value then Enter(1) else Pass
  }

  function WhileChoice(cond: Option<bool>, ok: bool, depth: nat): (c: Choice)
  {
    if cond.None? then Refuse(BadCondition)
    else if !ok then Refuse(MissingEndWhile)
    else if !cond.value then Pass
    else if depth == MAX_LOOP_DEPTH then Refuse(NestingLimit)
    else Enter(1)
  }

  function RepeatChoice(count: Option<int>, ok: bool, depth: nat): (c: Choice)
    ensures c.Enter? ==> 0 < c.passes <= MAX_REPEAT
  {
    if count.None? || count.value < 0 || count.value > MAX_REPEAT then Refuse(BadRepeat)
    else if !ok then Refuse(MissingEndRepeat)
    else if count.value == 0 then Pass
    else if depth == MAX_LOOP_DEPTH then Refuse(NestingLimit)
    else Enter(count.value)
  }

  function Pick<S>(choice: Choice, w: World<S>, enter: Eval<S>, pass: Eval<S>): (r: Eval<S>)
  {
    match choice
    case Refuse(reason) => Over(Failed(reason, w))
    case Enter(_) => enter
    case Pass => pass
  }

  function EvalStmt<S>(h: Host<S>, s: Stmt, w: World<S>, depth: nat, fuel: nat): (r: Eval<S>)
    ensures r.On? ==> r.fuel < fuel
    ensures r.On? && r.signal != Normal ==> depth > 0
    decreases fuel, 0
  {
    var stop := Visit(h, FirstLine(s), w, fuel);
    if stop.Some? then Over(stop.value) else
    match s
    case Simple(op, text) => EvalSimple(h, op, text, w, depth, fuel - 1)
    case If(c, thn, e) =>
      Pick(IfChoice(h.cond(c, w.store), LexTo(h, thn, Line(KEndIf, e), w)), w,
           Close(h, Line(KEndIf, e), EvalBlock(h, thn, w, depth, fuel - 1)),
           On(Normal, w, fuel - 1))
    case IfElse(c, thn, m, els, e) =>
      Pick(IfChoice(h.cond(c, w.store), LexTo(h, thn, Line(KElse, m), w) && LexTo(h, els, Line(KEndIf, e), w)), w,
           SkipElse(h, m, els, e, EvalBlock(h, thn, w, depth, fuel - 1)),
           Close(h, Line(KEndIf, e), EvalBlock(h, els, w, depth, fuel - 1)))
    case Loop(LoopWhile, c, body, e) =>
      Pick(WhileChoice(h.cond(c, w.store), LexTo(h, body, Line(KEndWhile, e), w), depth), w,
           EvalPassWhile(h, c, body, e, w, depth, fuel - 1),
           On(Normal, w, fuel - 1))
    case Loop(LoopRepeat, c, body, e) =>
      (match RepeatChoice(h.count(c, w.store), LexTo(h, body, Line(KEndRepeat, e), w), depth)
       case Refuse(reason) => Over(Failed(reason, w))
       case Enter(n) => EvalPasses(h, n, body, e, w, depth, fuel - 1)
       case Pass => On(Normal, w, fuel - 1))
  }

  /** Reaching the line that closes a branch, when the branch ran to its end. */
  function Close<S>(h: Host<S>, line: Line, r: Eval<S>): (r': Eval<S>)
    ensures r'.On? ==> r.On? && r'.signal == r.signal && r'.fuel <= r.fuel
  {
    if r.Over? || r.signal != Normal then r
    else
      var stop := Visit(h, line, r.world, r.fuel);
      if stop.Some? then Over(stop.value) else On(Normal, r.world, r.fuel - 1)
  }

  /** Reaching `else` from the end of the `then` branch: the other branch has to tokenise. */
  function SkipElse<S>(h: Host<S>, mid: string, els: Block, e: string, r: Eval<S>): (r': Eval<S>)
    ensures r'.On? ==> r.On? && r'.signal == r.signal && r'.fuel <= r.fuel
  {
    var r' := Close(h, Line(KElse, mid), r);
    if r'.On? && r'.signal == Normal && !LexTo(h, els, Line(KEndIf, e), r'.world)
    then Over(Failed(BadElse, r'.world)) else r'
  }

  /** One pass through a `while` body, then the test again. */
  function EvalPassWhile<S>(h: Host<S>, c: string, body: Block, e: string, w: World<S>, depth: nat,
                            fuel: nat): (r: Eval<S>)
    ensures r.On? ==> r.fuel <= fuel && r.signal == Normal
    decreases fuel, 2
  {
    var r := EvalBlock(h, body, w, depth + 1, fuel);
    if r.Over? then r
    else if r.signal == Broke then On(Normal, r.world, r.fuel)
    else
      var r' := Close(h, Line(KEndWhile, e), r);
      if r'.Over? then r' else
      var stop := Visit(h, Line(KWhile, c), r'.world, r'.fuel);
      if stop.Some? then Over(stop.value) else
      var cond := h.cond(c, r'.world.store);
      if cond.None? then Over(Failed(BadCondition, r'.world))
      else if !cond.value then On(Normal, r'.world, r'.fuel - 1)
      else EvalPassWhile(h, c, body, e, r'.world, depth, r'.fuel - 1)
  }

  /** `n` passes through a `repeat` body; `continue` ends a pass, `break` ends them all. */
  function EvalPasses<S>(h: Host<S>, n: nat, body: Block, e: string, w: World<S>, depth: nat, fuel: nat): (r: Eval<S>)
    requires n > 0
    ensures r.On? ==> r.fuel <= fuel && r.signal == Normal
    decreases fuel, 2
  {
    var r := EvalBlock(h, body, w, depth + 1, fuel);
    if r.Over? then r
    else if r.signal == Broke then On(Normal, r.world, r.fuel)
    else
      var r' := Close(h, Line(KEndRepeat, e), On(Normal, r.world, r.fuel));
      if r'.Over? || n == 1 then r'
      else EvalPasses(h, n - 1, body, e, r'.world, depth, r'.fuel)
  }

  /** A whole program, started in a world with no open loop. */
  function EvalProgram<S>(h: Host<S>, b: Block, w: World<S>, fuel: nat): (o: Outcome<S>)
  {
    match EvalBlock(h, b, w, 0, fuel)
    case Over(o) => o
    case On(_, w', _) => Finished(0, w')
  }
}
