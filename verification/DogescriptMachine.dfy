/** The interpreter as it is written: a program counter, a stack of loop frames, and scans
    that look for closing keywords. */
module DogescriptMachine {
  import opened Basics
  import opened DogescriptSyntax
  import opened DogescriptHost

  datatype Frame = Frame(kind: LoopKind, start: nat, body: nat, end: nat, after: nat, remaining: nat)

  datatype Config<S> = Config(pc: nat, stack: seq<Frame>, world: World<S>)

  datatype StepResult<S> = Go(config: Config<S>) | Stop(outcome: Outcome<S>)

  /** What a scanning loop does at a line: stop there, give up, or go on at another depth. */
  datatype Move = Found | GiveUp | Level(depth: nat, els: Option<nat>)

  function ControlMove(kw: Keyword, depth: nat, opening: Keyword, closing: Keyword): (m: Move)
  {
    if kw == opening then Level(depth + 1, None)
    else if kw == closing then if depth == 0 then Found else Level(depth - 1, None)
    else Level(depth, None)
  }

  /** Depth-counting scan for `closing`; it looks only at one keyword pair.  A line that does
      not tokenise ends the scan. */
  function ScanControl<S>(p: seq<Line>, h: Host<S>, w: World<S>, pos: nat, depth: nat,
                          opening: Keyword, closing: Keyword): (r: Option<nat>)
    ensures r.Some? ==> pos <= r.value < |p|
    decreases |p| - pos
  {
    if pos >= |p| || !h.lex(p[pos], w.store) then None
    else
      var m := ControlMove(p[pos].kw, depth, opening, closing);
      if m.Found? then Some(pos)
      else if m.GiveUp? then None
      else ScanControl(p, h, w, pos + 1, m.depth, opening, closing)
  }

  datatype IfEnd = IfEnd(end: nat, els: Option<nat>)

  function IfMove(kw: Keyword, pos: nat, depth: nat, els: Option<nat>): (m: Move)
  {
    match kw
    case KIf => Level(depth + 1, els)
    case KEndIf => if depth == 0 then Found else Level(depth - 1, els)
    case KElse =>
      if depth != 0 then Level(depth, els)
      else if els.Some? then GiveUp
      else Level(depth, Some(pos))
    case _ => Level(depth, els)
  }

  /** The same scan for `endif`, also recording the `else` at depth zero. */
  function ScanIf<S>(p: seq<Line>, h: Host<S>, w: World<S>, pos: nat, depth: nat, els: Option<nat>): (r: Option<IfEnd>)
    requires els.Some? ==> els.value < |p|
    ensures r.Some? ==> pos <= r.value.end < |p|
    ensures r.Some? && r.value.els.Some? ==> r.value.els.value < |p|
    decreases |p| - pos
  {
    if pos >= |p| || !h.lex(p[pos], w.store) then None
    else
      var m := IfMove(p[pos].kw, pos, depth, els);
      if m.Found? then Some(IfEnd(pos, els))
      else if m.GiveUp? then None
      else ScanIf(p, h, w, pos + 1, m.depth, m.els)
  }

  /** The two searches the main loop relies on, each started behind the line that asks. */
  datatype Finder<!S> = Finder(
    control: (World<S>, nat, Keyword, Keyword) -> Option<nat>,
    ifEnd: (World<S>, nat) -> Option<IfEnd>)

  function Scanner<S>(p: seq<Line>, h: Host<S>): (f: Finder<S>)
  {
    Finder((w: World<S>, pos: nat, opening: Keyword, closing: Keyword) =>
             ScanControl(p, h, w, pos, 0, opening, closing),
           (w: World<S>, pos: nat) => ScanIf(p, h, w, pos, 0, None))
  }

  predicate OnTop(stack: seq<Frame>, kind: LoopKind)
  {
    |stack| > 0 && stack[|stack| - 1].kind == kind
  }

  function IfStep<S>(h: Host<S>, f: Finder<S>, c: Config<S>, text: string): (r: StepResult<S>)
  {
    var cond := h.cond(text, c.world.store);
    if cond.None? then Stop(Failed(BadCondition, c.world)) else
    var r := f.ifEnd(c.world, c.pc + 1);
    if r.None? then Stop(Failed(BadIf, c.world))
    else if cond.value then Go(c.(pc := c.pc + 1))
    else if r.value.els.Some? then Go(c.(pc := r.value.els.value + 1))
    else Go(c.(pc := r.value.end + 1))
  }

  /** A `while` line finds its closing line by search, unless the frame on top is its own. */
  function WhileStep<S>(h: Host<S>, f: Finder<S>, c: Config<S>, text: string): (r: StepResult<S>)
  {
    var n := |c.stack|;
    var cond := h.cond(text, c.world.store);
    if cond.None? then Stop(Failed(BadCondition, c.world)) else
    var mine := OnTop(c.stack, LoopWhile) && c.stack[n - 1].start == c.pc;
    var r := if mine then Some(c.stack[n - 1].end) else f.control(c.world, c.pc + 1, KWhile, KEndWhile);
    if r.None? then Stop(Failed(MissingEndWhile, c.world)) else
    var after := if mine then c.stack[n - 1].after else r.value + 1;
    if !cond.value then Go(Config(after, if mine then c.stack[..n - 1] else c.stack, c.world))
    else if n > 0 && c.stack[n - 1].start == c.pc then Go(c.(pc := c.pc + 1))
    else if n == MAX_LOOP_DEPTH then Stop(Failed(NestingLimit, c.world))
    else Go(Config(c.pc + 1, c.stack + [Frame(LoopWhile, c.pc, c.pc + 1, r.value, after, 0)], c.world))
  }

  function RepeatStep<S>(h: Host<S>, f: Finder<S>, c: Config<S>, text: string): (r: StepResult<S>)
  {
    var k := h.count(text, c.world.store);
    if k.None? || k.value < 0 || k.value > MAX_REPEAT then Stop(Failed(BadRepeat, c.world)) else
    var r := f.control(c.world, c.pc + 1, KRepeat, KEndRepeat);
    if r.None? then Stop(Failed(MissingEndRepeat, c.world))
    else if k.value == 0 then Go(c.(pc := r.value + 1))
    else if |c.stack| == MAX_LOOP_DEPTH then Stop(Failed(NestingLimit, c.world))
    else Go(Config(c.pc + 1, c.stack + [Frame(LoopRepeat, c.pc, c.pc + 1, r.value, r.value + 1, k.value)], c.world))
  }

  function ElseStep<S>(f: Finder<S>, c: Config<S>): (r: StepResult<S>)
  {
    var r := f.control(c.world, c.pc + 1, KIf, KEndIf);
    if r.None? then Stop(Failed(BadElse, c.world)) else Go(c.(pc := r.value + 1))
  }

  function EndWhileStep<S>(c: Config<S>): (r: StepResult<S>)
  {
    var n := |c.stack|;
    if !OnTop(c.stack, LoopWhile) || c.stack[n - 1].end != c.pc then Stop(Failed(StrayEndWhile, c.world))
    else Go(c.(pc := c.stack[n - 1].start))
  }

  function EndRepeatStep<S>(c: Config<S>): (r: StepResult<S>)
  {
    var n := |c.stack|;
    if !OnTop(c.stack, LoopRepeat) || c.stack[n - 1].end != c.pc then Stop(Failed(StrayEndRepeat, c.world))
    else
      var top := c.stack[n - 1];
      if top.remaining > 1 then
        Go(Config(top.body, c.stack[..n - 1] + [top.(remaining := top.remaining - 1)], c.world))
      else Go(Config(c.pc + 1, c.stack[..n - 1], c.world))
  }

  function BreakStep<S>(c: Config<S>, bare: bool): (r: StepResult<S>)
  {
    var n := |c.stack|;
    if n == 0 || !bare then Stop(Failed(StrayJump, c.world))
    else Go(Config(c.stack[n - 1].after, c.stack[..n - 1], c.world))
  }

  function ContinueStep<S>(c: Config<S>, bare: bool): (r: StepResult<S>)
  {
    var n := |c.stack|;
    if n == 0 || !bare then Stop(Failed(StrayJump, c.world))
    else
      var top := c.stack[n - 1];
      Go(c.(pc := if top.kind == LoopWhile then top.start else top.end))
  }

  /** One pass of the interpreter's main loop, at a line that exists. */
  function Step<S>(p: seq<Line>, h: Host<S>, f: Finder<S>, c: Config<S>): (r: StepResult<S>)
    requires c.pc < |p|
  {
    var line := p[c.pc];
    if !h.lex(line, c.world.store) then Stop(Failed(BadLine, c.world))
    else match line.kw
      case KBlank => Go(c.(pc := c.pc + 1))
      case KIf => IfStep(h, f, c, line.text)
      case KWhile => WhileStep(h, f, c, line.text)
      case KRepeat => RepeatStep(h, f, c, line.text)
      case KElse => ElseStep(f, c)
      case KEndIf => Go(c.(pc := c.pc + 1))
      case KEndWhile => EndWhileStep(c)
      case KEndRepeat => EndRepeatStep(c)
      case KBreak(bare) => BreakStep(c, bare)
      case KContinue(bare) => ContinueStep(c, bare)
      case KCommand =>
        match RunCommand(h, line.text, c.world)
        case Stopped(o) => Stop(o)
        case Ran(w') => Go(Config(c.pc + 1, c.stack, w'))
  }

  /** The interpreter run with `fuel` steps left. */
  function Run<S>(p: seq<Line>, h: Host<S>, c: Config<S>, fuel: nat): (o: Outcome<S>)
    decreases fuel
  {
    if c.pc >= |p| then Finished(0, c.world)
    else if fuel == 0 then Failed(StepLimit, c.world)
    else match Step(p, h, Scanner(p, h), c)
      case Stop(o) => o
      case Go(c') => Run(p, h, c', fuel - 1)
  }
}
