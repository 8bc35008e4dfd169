/** The interpreter's loops: the two searches over the lines, and the main loop with its fixed
    array of loop frames. */
module DogescriptInterpreter {
  import opened Basics
  import opened DogescriptSyntax
  import opened DogescriptHost
  import opened DogescriptMachine
  import opened DogescriptStructured
  import opened DogescriptSimulation
  import opened DogescriptRuns

  /** Line of the keyword that closes the one at `start`. */
  method FindControlEnd<S>(p: seq<Line>, h: Host<S>, w: World<S>, start: nat, opening: Keyword, closing: Keyword)
    returns (end: Option<nat>)
    requires start < |p|
    ensures end == ScanControl(p, h, w, start + 1, 0, opening, closing)
  {
    var depth, pos := 0, start + 1;
    while pos < |p|
      invariant start < pos <= |p| && 0 <= depth
      invariant ScanControl(p, h, w, start + 1, 0, opening, closing)
             == ScanControl(p, h, w, pos, depth, opening, closing)
    {
      if !h.lex(p[pos], w.store) { return None; }
      if p[pos].kw == opening {
        depth := depth + 1;
      } else if p[pos].kw == closing {
        if depth == 0 { return Some(pos); }
        depth := depth - 1;
      }
      pos := pos + 1;
    }
    end := None;
  }

  /** Lines of the `endif`, and of the `else` if there is one, that belong to the `if` at `start`. */
  method FindIfEnd<S>(p: seq<Line>, h: Host<S>, w: World<S>, start: nat) returns (r: Option<IfEnd>)
    requires start < |p|
    ensures r == ScanIf(p, h, w, start + 1, 0, None)
  {
    var depth, pos := 0, start + 1;
    var els: Option<nat> := None;
    while pos < |p|
      invariant start < pos <= |p| && 0 <= depth
      invariant els.Some? ==> els.value < |p|
      invariant ScanIf(p, h, w, start + 1, 0, None) == ScanIf(p, h, w, pos, depth, els)
    {
      if !h.lex(p[pos], w.store) { return None; }
      if p[pos].kw == KIf {
        depth := depth + 1;
      } else if p[pos].kw == KEndIf {
        if depth == 0 { return Some(IfEnd(pos, els)); }
        depth := depth - 1;
      } else if p[pos].kw == KElse && depth == 0 {
        if els.Some? { return None; }
        els := Some(pos);
      }
      pos := pos + 1;
    }
    r := None;
  }

  /** What a method did agrees with the machine's step. */
  ghost predicate Did<S>(step: StepResult<S>, stop: Option<Outcome<S>>, c: Config<S>)
  {
    match step
    case Stop(o) => stop == Some(o)
    case Go(next) => stop.None? && c == next
  }

  /** The interpreter's variables: program counter, loop frames and their number, and the world. */
  class Interpreter<S> {
    const p: seq<Line>
    const h: Host<S>
    var pc: nat
    var stack: array<Frame>
    var depth: nat
    var world: World<S>

    constructor (p: seq<Line>, h: Host<S>, w: World<S>)
      ensures Valid() && fresh(stack) && this.p == p && this.h == h && View() == Config(0, [], w)
    {
      this.p, this.h := p, h;
      pc, depth, world := 0, 0, w;
      stack := new Frame[MAX_LOOP_DEPTH](_ => Frame(LoopWhile, 0, 0, 0, 0, 0));
    }

    ghost predicate Valid()
      reads this
    {
      stack.Length == MAX_LOOP_DEPTH && depth <= MAX_LOOP_DEPTH
    }

    ghost function View(): (c: Config<S>)
      requires Valid()
      reads this, stack
    {
      Config(pc, stack[..depth], world)
    }

    method Push(f: Frame)
      requires Valid() && depth < MAX_LOOP_DEPTH
      modifies this`depth, stack
      ensures Valid() && stack == old(stack)
      ensures View() == old(View()).(stack := old(stack[..depth]) + [f])
    {
      stack[depth] := f;
      depth := depth + 1;
      assert stack[..depth] == old(stack[..depth]) + [f];
    }

    /** `if`: search, then the body, the `else` part, or behind the `endif`. */
    method StepIf() returns (stop: Option<Outcome<S>>)
      requires Valid() && pc < |p|
      modifies this`pc
      ensures Valid() && stack == old(stack)
      ensures Did(IfStep(h, Scanner(p, h), old(View()), p[old(pc)].text), stop, View())
    {
      stop := None;
      var cond := h.cond(p[pc].text, world.store);
      if cond.None? { return Some(Failed(BadCondition, world)); }
      var r := FindIfEnd(p, h, world, pc);
      if r.None? { return Some(Failed(BadIf, world)); }
      if !cond.value {
        pc := if r.value.els.Some? then r.value.els.value + 1 else r.value.end + 1;
      } else {
        pc := pc + 1;
      }
    }

    /** Where the `while` at `pc` ends: from its own frame if that is on top, else by a search. */
    method FindWhileEnd(mine: bool) returns (r: Option<nat>)
      requires Valid() && pc < |p| && (mine ==> depth > 0)
      ensures r == if mine then Some(stack[depth - 1].end) else Scanner(p, h).control(world, pc + 1, KWhile, KEndWhile)
    {
      if mine {
        r := Some(stack[depth - 1].end);
      } else {
        r := FindControlEnd(p, h, world, pc, KWhile, KEndWhile);
      }
    }

    /** `while`: a search only on first entry; the frame on top remembers the rest. */
    method StepWhile() returns (stop: Option<Outcome<S>>)
      requires Valid() && pc < |p|
      modifies this`pc, this`depth, stack
      ensures Valid() && stack == old(stack)
      ensures Did(WhileStep(h, Scanner(p, h), old(View()), p[old(pc)].text), stop, View())
    {
      stop := None;
      ghost var c := View();
      assert depth > 0 ==> c.stack[depth - 1] == stack[depth - 1] && stack[..depth - 1] == c.stack[..depth - 1];
      var cond := h.cond(p[pc].text, world.store);
      if cond.None? { return Some(Failed(BadCondition, world)); }
      var mine := depth > 0 && stack[depth - 1].kind == LoopWhile && stack[depth - 1].start == pc;
      var r := FindWhileEnd(mine);
      if r.None? { return Some(Failed(MissingEndWhile, world)); }
      var after := if mine then stack[depth - 1].after else r.value + 1;
      if !cond.value {
        if mine { depth := depth - 1; }
        pc := after;
        return;
      }
      if depth == 0 || stack[depth - 1].start != pc {
        if depth == MAX_LOOP_DEPTH { return Some(Failed(NestingLimit, world)); }
        Push(Frame(LoopWhile, pc, pc + 1, r.value, after, 0));
      }
      pc := pc + 1;
    }

    method StepRepeat() returns (stop: Option<Outcome<S>>)
      requires Valid() && pc < |p|
      modifies this`pc, this`depth, stack
      ensures Valid() && stack == old(stack)
      ensures Did(RepeatStep(h, Scanner(p, h), old(View()), p[old(pc)].text), stop, View())
    {
      stop := None;
      var n := h.count(p[pc].text, world.store);
      if n.None? || n.value < 0 || n.value > MAX_REPEAT { return Some(Failed(BadRepeat, world)); }
      var r := FindControlEnd(p, h, world, pc, KRepeat, KEndRepeat);
      if r.None? { return Some(Failed(MissingEndRepeat, world)); }
      if n.value == 0 {
        pc := r.value + 1;
        return;
      }
      if depth == MAX_LOOP_DEPTH { return Some(Failed(NestingLimit, world)); }
      Push(Frame(LoopRepeat, pc, pc + 1, r.value, r.value + 1, n.value));
      pc := pc + 1;
    }

    method StepElse() returns (stop: Option<Outcome<S>>)
      requires Valid() && pc < |p|
      modifies this`pc
      ensures Valid() && Did(ElseStep(Scanner(p, h), old(View())), stop, View())
    {
      stop := None;
      var r := FindControlEnd(p, h, world, pc, KIf, KEndIf);
      if r.None? { return Some(Failed(BadElse, world)); }
      pc := r.value + 1;
    }

    method StepEndWhile() returns (stop: Option<Outcome<S>>)
      requires Valid()
      modifies this`pc
      ensures Valid() && Did(EndWhileStep(old(View())), stop, View())
    {
      stop := None;
      if depth == 0 || stack[depth - 1].kind != LoopWhile || stack[depth - 1].end != pc {
        return Some(Failed(StrayEndWhile, world));
      }
      pc := stack[depth - 1].start;
    }

    method StepEndRepeat() returns (stop: Option<Outcome<S>>)
      requires Valid()
      modifies this`pc, this`depth, stack
      ensures Valid() && stack == old(stack) && Did(EndRepeatStep(old(View())), stop, View())
    {
      stop := None;
      ghost var frames := stack[..depth];
      if depth == 0 || stack[depth - 1].kind != LoopRepeat || stack[depth - 1].end != pc {
        return Some(Failed(StrayEndRepeat, world));
      }
      var top := stack[depth - 1];
      if top.remaining > 1 {
        stack[depth - 1] := top.(remaining := top.remaining - 1);
        pc := top.body;
        assert stack[..depth] == frames[..depth - 1] + [stack[depth - 1]];
      } else {
        depth := depth - 1;
        pc := pc + 1;
        assert stack[..depth] == frames[..depth];
      }
    }

    method StepBreak(bare: bool) returns (stop: Option<Outcome<S>>)
      requires Valid()
      modifies this`pc, this`depth
      ensures Valid() && Did(BreakStep(old(View()), bare), stop, View())
    {
      stop := None;
      if depth == 0 || !bare { return Some(Failed(StrayJump, world)); }
      ghost var frames := stack[..depth];
      depth := depth - 1;
      pc := stack[depth].after;
      assert stack[..depth] == frames[..depth];
    }

    method StepContinue(bare: bool) returns (stop: Option<Outcome<S>>)
      requires Valid()
      modifies this`pc
      ensures Valid() && Did(ContinueStep(old(View()), bare), stop, View())
    {
      stop := None;
      if depth == 0 || !bare { return Some(Failed(StrayJump, world)); }
      var top := stack[depth - 1];
      pc := if top.kind == LoopWhile then top.start else top.end;
    }

    /** One pass of the main loop. */
    method Advance() returns (stop: Option<Outcome<S>>)
      requires Valid() && pc < |p|
      modifies this`pc, this`depth, this`world, stack
      ensures Valid() && stack == old(stack)
      ensures Did(Step(p, h, Scanner(p, h), old(View())), stop, View())
    {
      stop := None;
      if !h.lex(p[pc], world.store) { return Some(Failed(BadLine, world)); }
      match p[pc].kw
      case KBlank => pc := pc + 1;
      case KIf => stop := StepIf();
      case KWhile => stop := StepWhile();
      case KRepeat => stop := StepRepeat();
      case KCommand =>
        match RunCommand(h, p[pc].text, world) {
          case Stopped(o) => stop := Some(o);
          case Ran(w) => world := w; pc := pc + 1;
        }
      case KElse => stop := StepElse();
      case KEndIf => pc := pc + 1;
      case KEndWhile => stop := StepEndWhile();
      case KEndRepeat => stop := StepEndRepeat();
      case KBreak(bare) => stop := StepBreak(bare);
      case KContinue(bare) => stop := StepContinue(bare);
    }

    /** One pass, with `left` steps to go, brings the run no further from its outcome. */
    method Turn(ghost left: nat, ghost goal: Outcome<S>) returns (stop: Option<Outcome<S>>)
      requires Valid() && pc < |p| && left > 0 && Run(p, h, View(), left) == goal
      modifies this`pc, this`depth, this`world, stack
      ensures Valid() && stack == old(stack)
      ensures if stop.Some? then stop.value == goal else Run(p, h, View(), left - 1) == goal
    {
      RunStep(p, h, View(), left);
      stop := Advance();
    }
  }

  lemma {:induction false} RunStep<S>(p: seq<Line>, h: Host<S>, c: Config<S>, fuel: nat)
    requires c.pc < |p|
    ensures Run(p, h, c, fuel) ==
            if fuel == 0 then Failed(StepLimit, c.world)
            else match Step(p, h, Scanner(p, h), c) case Stop(o) => o case Go(c') => Run(p, h, c', fuel - 1)
  {
  }

  /** The main loop, for any script. */
  method RunLoop<S(!new)>(p: seq<Line>, h: Host<S>, w: World<S>, ghost goal: Outcome<S>) returns (o: Outcome<S>)
    requires Run(p, h, Config(0, [], w), MAX_STEPS) == goal
    ensures o == goal
  {
    var m := new Interpreter(p, h, w);
    var steps := 0;
    while m.pc < |p|
      invariant m.Valid() && m.p == p && m.h == h && 0 <= steps <= MAX_STEPS
      invariant fresh(m) && fresh(m.stack)
      invariant Run(p, h, m.View(), MAX_STEPS - steps) == goal
      decreases MAX_STEPS - steps
    {
      steps := steps + 1;
      if steps > MAX_STEPS {
        RunStep(p, h, m.View(), 0);
        return Failed(StepLimit, m.world);
      }
      var stop := m.Turn(MAX_STEPS - steps + 1, goal);
      if stop.Some? { return stop.value; }
    }
    o := Finished(0, m.world);
  }

  /** Runs a script.  On the script of a nested program this is the structured meaning of that
      program.  Every run is lawful: the commands that were run account for store and outcome. */
  method RunScript<S(!new)>(p: seq<Line>, h: Host<S>, w: World<S>) returns (o: Outcome<S>)
    ensures o == Run(p, h, Config(0, [], w), MAX_STEPS)
    ensures forall b: Block :: p == Flatten(b) ==> o == EvalProgram(h, b, w, MAX_STEPS)
    ensures Lawful(h, w, o)
  {
    o := RunLoop(p, h, w, Run(p, h, Config(0, [], w), MAX_STEPS));
    MachineIsStructuredFor(p, h, w, MAX_STEPS);
    EveryRunLawful(p, h, Config(0, [], w), MAX_STEPS);
  }
}
