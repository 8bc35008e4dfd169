/** What every run of a script does to the store and the trace, told by the commands alone. */
module DogescriptRuns {
  import opened Basics
  import opened DogescriptSyntax
  import opened DogescriptHost
  import opened DogescriptMachine
  import opened DogescriptStructured
  import opened DogescriptSimulation

  /** The store after these commands, one after the other. */
  function Folded<S>(h: Host<S>, s: S, commands: seq<string>): (t: S)
    decreases |commands|
  {
    if commands == [] then s
    else h.run(commands[|commands| - 1], Folded(h, s, commands[..|commands| - 1])).store
  }

  /** What the `n`-th of these commands returns. */
  function Result<S>(h: Host<S>, s: S, commands: seq<string>, n: nat): (r: CommandResult<S>)
    requires n < |commands|
  {
    h.run(commands[n], Folded(h, s, commands[..n]))
  }

  /** None of the first `n` commands fails or exits. */
  ghost predicate Quiet<S>(h: Host<S>, s: S, commands: seq<string>, n: nat)
    requires n <= |commands|
  {
    forall i :: 0 <= i < n ==> Result(h, s, commands, i).status == 0 && Result(h, s, commands, i).exit == None
  }

  /** How an outcome follows from the commands that were run: the last one failed, or it exited, or
      all were quiet. */
  ghost predicate Follows<S>(h: Host<S>, s: S, commands: seq<string>, o: Outcome<S>)
  {
    var n := |commands|;
    if o.Failed? && o.reason == CommandFailed then
      n > 0 && Quiet(h, s, commands, n - 1) && Result(h, s, commands, n - 1).status != 0
    else if n > 0 && Result(h, s, commands, n - 1).exit.Some? then
      && Quiet(h, s, commands, n - 1) && Result(h, s, commands, n - 1).status == 0
      && o.Finished? && Result(h, s, commands, n - 1).exit == Some(o.status)
    else Quiet(h, s, commands, n) && (o.Finished? ==> o.status == 0)
  }

  /** The law of runs from a world: the trace grows by the commands that were run, the store is what
      they make of it in that order, and the outcome follows from them. */
  ghost predicate Lawful<S>(h: Host<S>, w: World<S>, o: Outcome<S>)
  {
    && w.trace <= o.world.trace
    && var commands := o.world.trace[|w.trace|..];
       o.world.store == Folded(h, w.store, commands) && Follows(h, w.store, commands, o)
  }

  // ----- commands in front of commands -----

  lemma {:induction false} FoldedFirst<S>(h: Host<S>, s: S, c: string, more: seq<string>)
    ensures Folded(h, s, [c] + more) == Folded(h, h.run(c, s).store, more)
    decreases |more|
  {
    var all := [c] + more;
    if more == [] {
      assert all == [c] && [c][..0] == [];
      assert Folded(h, s, [c]) == h.run(c, Folded(h, s, [])).store;
    } else {
      assert all[..|all| - 1] == [c] + more[..|more| - 1];
      FoldedFirst(h, s, c, more[..|more| - 1]);
    }
  }

  lemma {:induction false} ResultFirst<S>(h: Host<S>, s: S, c: string, more: seq<string>, n: nat)
    requires n <= |more|
    ensures Result(h, s, [c] + more, n)
            == if n == 0 then h.run(c, s) else Result(h, h.run(c, s).store, more, n - 1)
  {
    var all := [c] + more;
    if n == 0 {
      assert all[..0] == [];
    } else {
      assert all[..n] == [c] + more[..n - 1];
      FoldedFirst(h, s, c, more[..n - 1]);
    }
  }

  lemma {:induction false} QuietFirst<S>(h: Host<S>, s: S, c: string, more: seq<string>, n: nat)
    requires n <= |more| && h.run(c, s).status == 0 && h.run(c, s).exit == None
    requires Quiet(h, h.run(c, s).store, more, n)
    ensures Quiet(h, s, [c] + more, n + 1)
  {
    forall i | 0 <= i < n + 1
      ensures Result(h, s, [c] + more, i).status == 0 && Result(h, s, [c] + more, i).exit == None
    {
      ResultFirst(h, s, c, more, i);
      assert i > 0 ==> Result(h, h.run(c, s).store, more, i - 1).status == 0;
    }
  }

  /** A quiet command in front of a lawful run. */
  lemma {:induction false} FollowsFirst<S>(h: Host<S>, s: S, c: string, more: seq<string>, o: Outcome<S>)
    requires h.run(c, s).status == 0 && h.run(c, s).exit == None && Follows(h, h.run(c, s).store, more, o)
    ensures Follows(h, s, [c] + more, o)
  {
    var n := |more|;
    ResultFirst(h, s, c, more, n);
    if n == 0 {
      QuietFirst(h, s, c, more, 0);
    } else {
      QuietFirst(h, s, c, more, n - 1);
      if Quiet(h, h.run(c, s).store, more, n) { QuietFirst(h, s, c, more, n); }
    }
  }

  lemma {:induction false} LawfulFirst<S>(h: Host<S>, w: World<S>, c: string, o: Outcome<S>)
    requires var r := h.run(c, w.store);
             r.status == 0 && r.exit == None && Lawful(h, World(r.store, w.trace + [c]), o)
    ensures Lawful(h, w, o)
  {
    var v := World(h.run(c, w.store).store, w.trace + [c]);
    var more := o.world.trace[|v.trace|..];
    assert o.world.trace == v.trace + more;
    assert o.world.trace[|w.trace|..] == [c] + more;
    FoldedFirst(h, w.store, c, more);
    FollowsFirst(h, w.store, c, more, o);
  }

  /** A run that ends without a command. */
  lemma {:induction false} LawfulHere<S>(h: Host<S>, w: World<S>, o: Outcome<S>)
    requires o.world == w && (o.Finished? ==> o.status == 0) && (o.Failed? ==> o.reason != CommandFailed)
    ensures Lawful(h, w, o)
  {
    assert w.trace[|w.trace|..] == [];
  }

  /** A run that ends with its first command. */
  lemma {:induction false} LawfulLast<S>(h: Host<S>, w: World<S>, c: string)
    ensures var r := h.run(c, w.store);
            var v := World(r.store, w.trace + [c]);
            && (r.status != 0 ==> Lawful(h, w, Failed(CommandFailed, v)))
            && (r.status == 0 && r.exit.Some? ==> Lawful(h, w, Finished(r.exit.value, v)))
  {
    assert (w.trace + [c])[|w.trace|..] == [c] && [c][..0] == [];
    assert Folded(h, w.store, [c]) == h.run(c, Folded(h, w.store, [])).store;
    assert Result(h, w.store, [c], 0) == h.run(c, w.store);
  }

  // ----- every run -----

  /** A step is a command, or leaves the world alone. */
  lemma {:induction false} StepWorld<S>(p: seq<Line>, h: Host<S>, f: Finder<S>, c: Config<S>)
    requires c.pc < |p| && !(h.lex(p[c.pc], c.world.store) && p[c.pc].kw.KCommand?)
    ensures match Step(p, h, f, c)
            case Go(c') => c'.world == c.world
            case Stop(o) => o.Failed? && o.reason != CommandFailed && o.world == c.world
  {
  }

  /** Every run of every script, from every configuration and with every step budget, is lawful. */
  lemma {:induction false} EveryRunLawful<S>(p: seq<Line>, h: Host<S>, c: Config<S>, fuel: nat)
    ensures Lawful(h, c.world, Run(p, h, c, fuel))
    decreases fuel
  {
    var o := Run(p, h, c, fuel);
    if c.pc >= |p| || fuel == 0 {
      LawfulHere(h, c.world, o);
    } else if h.lex(p[c.pc], c.world.store) && p[c.pc].kw.KCommand? {
      CommandLawful(p, h, c, fuel);
    } else {
      StepWorld(p, h, Scanner(p, h), c);
      match Step(p, h, Scanner(p, h), c)
      case Stop(_) => LawfulHere(h, c.world, o);
      case Go(c') => EveryRunLawful(p, h, c', fuel - 1);
    }
  }

  lemma {:induction false} CommandLawful<S>(p: seq<Line>, h: Host<S>, c: Config<S>, fuel: nat)
    requires c.pc < |p| && fuel > 0 && h.lex(p[c.pc], c.world.store) && p[c.pc].kw.KCommand?
    ensures Lawful(h, c.world, Run(p, h, c, fuel))
    decreases fuel, 0
  {
    var text := p[c.pc].text;
    var r := h.run(text, c.world.store);
    var c' := Config(c.pc + 1, c.stack, World(r.store, c.world.trace + [text]));
    CommandSteps(p, h, c, fuel);
    if r.status == 0 && r.exit == None {
      EveryRunLawful(p, h, c', fuel - 1);
      LawfulFirst(h, c.world, text, Run(p, h, c, fuel));
    } else {
      LawfulLast(h, c.world, text);
    }
  }

  /** At a command line the command is run once, in the store as it is, and its result decides. */
  lemma {:induction false} CommandSteps<S>(p: seq<Line>, h: Host<S>, c: Config<S>, fuel: nat)
    requires c.pc < |p| && fuel > 0 && h.lex(p[c.pc], c.world.store) && p[c.pc].kw.KCommand?
    ensures var text := p[c.pc].text;
            var r := h.run(text, c.world.store);
            var v := World(r.store, c.world.trace + [text]);
            Run(p, h, c, fuel)
            == if r.status != 0 then Failed(CommandFailed, v)
               else if r.exit.Some? then Finished(r.exit.value, v)
               else Run(p, h, Config(c.pc + 1, c.stack, v), fuel - 1)
  {
  }

  // ----- what the law says -----

  /** The first command that fails ends the run; the outcome says so. */
  lemma {:induction false} FailureStops<S>(h: Host<S>, w: World<S>, o: Outcome<S>, n: nat)
    requires Lawful(h, w, o) && n < |o.world.trace| - |w.trace|
    requires Result(h, w.store, o.world.trace[|w.trace|..], n).status != 0
    ensures n == |o.world.trace| - |w.trace| - 1 && o == Failed(CommandFailed, o.world)
  {
  }

  /** So does the first that exits, with its status. */
  lemma {:induction false} ExitStops<S>(h: Host<S>, w: World<S>, o: Outcome<S>, n: nat)
    requires Lawful(h, w, o) && n < |o.world.trace| - |w.trace|
    requires var r := Result(h, w.store, o.world.trace[|w.trace|..], n); r.status == 0 && r.exit.Some?
    ensures n == |o.world.trace| - |w.trace| - 1
    ensures o == Finished(Result(h, w.store, o.world.trace[|w.trace|..], n).exit.value, o.world)
  {
  }

  /** In every other outcome all commands had status zero. */
  lemma {:induction false} OthersQuiet<S>(h: Host<S>, w: World<S>, o: Outcome<S>, n: nat)
    requires Lawful(h, w, o) && n < |o.world.trace| - |w.trace|
    requires o.Failed? ==> o.reason != CommandFailed
    ensures Result(h, w.store, o.world.trace[|w.trace|..], n).status == 0
  {
  }

  /** The same of structured programs. */
  lemma {:induction false} EveryProgramLawful<S(!new)>(h: Host<S>, b: Block, w: World<S>, fuel: nat)
    ensures Lawful(h, w, EvalProgram(h, b, w, fuel))
  {
    MachineIsStructured(h, b, w, fuel);
    EveryRunLawful(Flatten(b), h, Config(0, [], w), fuel);
  }

  // ----- scripts of commands alone -----

  function Commands(texts: seq<string>): (p: seq<Line>)
    ensures |p| == |texts| && forall i :: 0 <= i < |p| ==> p[i] == Line(KCommand, texts[i])
  {
    seq(|texts|, i requires 0 <= i < |texts| => Line(KCommand, texts[i]))
  }

  /** The first `n` lines tokenise when they are reached. */
  ghost predicate Readable<S>(h: Host<S>, s: S, texts: seq<string>, n: nat)
    requires n <= |texts|
  {
    forall i :: 0 <= i < n ==> h.lex(Line(KCommand, texts[i]), Folded(h, s, texts[..i]))
  }

  /** The world after the first `n` commands. */
  function WorldAfter<S>(h: Host<S>, texts: seq<string>, w: World<S>, n: nat): (v: World<S>)
    requires n <= |texts|
  {
    World(Folded(h, w.store, texts[..n]), w.trace + texts[..n])
  }

  lemma {:induction false} WorldNext<S>(h: Host<S>, texts: seq<string>, w: World<S>, n: nat)
    requires n < |texts|
    ensures World(Result(h, w.store, texts, n).store, WorldAfter(h, texts, w, n).trace + [texts[n]])
            == WorldAfter(h, texts, w, n + 1)
  {
    assert texts[..n + 1][..n] == texts[..n];
    assert w.trace + texts[..n] + [texts[n]] == w.trace + texts[..n + 1];
  }

  /** The `n`-th line of a script of commands. */
  lemma {:induction false} RunsOne<S>(h: Host<S>, texts: seq<string>, w: World<S>, n: nat, fuel: nat)
    requires n < |texts| && fuel > 0 && h.lex(Line(KCommand, texts[n]), Folded(h, w.store, texts[..n]))
    ensures var r := Result(h, w.store, texts, n);
            Run(Commands(texts), h, Config(n, [], WorldAfter(h, texts, w, n)), fuel)
            == if r.status != 0 then Failed(CommandFailed, WorldAfter(h, texts, w, n + 1))
               else if r.exit.Some? then Finished(r.exit.value, WorldAfter(h, texts, w, n + 1))
               else Run(Commands(texts), h, Config(n + 1, [], WorldAfter(h, texts, w, n + 1)), fuel - 1)
  {
    WorldNext(h, texts, w, n);
    CommandSteps(Commands(texts), h, Config(n, [], WorldAfter(h, texts, w, n)), fuel);
  }

  lemma {:induction false} QuietOne<S>(h: Host<S>, texts: seq<string>, w: World<S>, n: nat, left: nat)
    requires n < |texts| && Readable(h, w.store, texts, n + 1) && Quiet(h, w.store, texts, n + 1)
    ensures Run(Commands(texts), h, Config(n, [], WorldAfter(h, texts, w, n)), left + 1)
            == Run(Commands(texts), h, Config(n + 1, [], WorldAfter(h, texts, w, n + 1)), left)
  {
    var r := Result(h, w.store, texts, n);
    assert r.status == 0 && r.exit == None;
    RunsOne(h, texts, w, n, left + 1);
  }

  ghost predicate Stage(i: nat, left: nat) { true }

  /** Steps that lead from stage to stage lead from the first to the last. */
  lemma {:induction false} Stages<T>(k: (nat, nat) -> T, n: nat, left: nat)
    requires forall i: nat, f: nat {:trigger Stage(i, f)} :: Stage(i, f) && i < n ==> k(i, f + 1) == k(i + 1, f)
    ensures k(0, left + n) == k(n, left)
    decreases n
  {
    if n > 0 {
      assert Stage(n - 1, left);
      Stages(k, n - 1, left + 1);
    }
  }

  /** Quiet commands are run one after the other. */
  lemma {:induction false} RunsOn<S>(h: Host<S>, texts: seq<string>, w: World<S>, n: nat, left: nat)
    requires n <= |texts| && Readable(h, w.store, texts, n) && Quiet(h, w.store, texts, n)
    ensures Run(Commands(texts), h, Config(0, [], w), left + n)
            == Run(Commands(texts), h, Config(n, [], WorldAfter(h, texts, w, n)), left)
  {
    var k := (i: nat, f: nat) =>
      if i <= |texts| then Run(Commands(texts), h, Config(i, [], WorldAfter(h, texts, w, i)), f) else Finished(0, w);
    forall i: nat, f: nat {:trigger Stage(i, f)} | Stage(i, f) && i < n ensures k(i, f + 1) == k(i + 1, f) {
      QuietOne(h, texts, w, i, f);
    }
    Stages(k, n, left);
    assert texts[..0] == [] && w.trace + [] == w.trace;
  }

  lemma {:induction false} StraightAll<S>(h: Host<S>, texts: seq<string>, w: World<S>, fuel: nat)
    requires |texts| <= fuel && Readable(h, w.store, texts, |texts|) && Quiet(h, w.store, texts, |texts|)
    ensures Run(Commands(texts), h, Config(0, [], w), fuel)
            == Finished(0, World(Folded(h, w.store, texts), w.trace + texts))
  {
    RunsOn(h, texts, w, |texts|, fuel - |texts|);
    assert texts[..|texts|] == texts;
  }

  lemma {:induction false} StraightTo<S>(h: Host<S>, texts: seq<string>, w: World<S>, n: nat, left: nat)
    requires n < |texts| && left > 0 && Readable(h, w.store, texts, n + 1) && Quiet(h, w.store, texts, n)
    ensures var r := Result(h, w.store, texts, n);
            Run(Commands(texts), h, Config(0, [], w), left + n)
            == if r.status != 0 then Failed(CommandFailed, WorldAfter(h, texts, w, n + 1))
               else if r.exit.Some? then Finished(r.exit.value, WorldAfter(h, texts, w, n + 1))
               else Run(Commands(texts), h, Config(n + 1, [], WorldAfter(h, texts, w, n + 1)), left - 1)
  {
    RunsOn(h, texts, w, n, left);
    RunsOne(h, texts, w, n, left);
  }

  /** A script of commands runs all of them, up to the first that fails or exits. */
  lemma {:induction false} StraightRun<S>(h: Host<S>, texts: seq<string>, w: World<S>, n: nat, fuel: nat)
    requires n <= |texts| && n <= fuel && Readable(h, w.store, texts, n)
    requires Quiet(h, w.store, texts, n)
    ensures n == |texts| ==>
              Run(Commands(texts), h, Config(0, [], w), fuel)
              == Finished(0, World(Folded(h, w.store, texts), w.trace + texts))
    ensures n < |texts| && n < fuel && Readable(h, w.store, texts, n + 1) ==>
              var r := Result(h, w.store, texts, n);
              var v := World(Folded(h, w.store, texts[..n + 1]), w.trace + texts[..n + 1]);
              && (r.status != 0 ==>
                    Run(Commands(texts), h, Config(0, [], w), fuel) == Failed(CommandFailed, v))
              && (r.status == 0 && r.exit.Some? ==>
                    Run(Commands(texts), h, Config(0, [], w), fuel) == Finished(r.exit.value, v))
  {
    if n == |texts| {
      StraightAll(h, texts, w, fuel);
    } else if n < fuel && Readable(h, w.store, texts, n + 1) {
      StraightTo(h, texts, w, n, fuel - n);
    }
  }
}
