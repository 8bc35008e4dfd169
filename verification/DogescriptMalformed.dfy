/** What becomes of scripts that are not nested: closers without a loop, and heads without a
    closer. */
module DogescriptMalformed {
  import opened Basics
  import opened DogescriptSyntax
  import opened DogescriptHost
  import opened DogescriptMachine
  import opened DogescriptStructured
  import opened DogescriptSimulation

  /** How a run goes on at line `l` behind a block: unless the block ended the run or `l` cannot
      be read, `stop` does. */
  function Behind<S>(h: Host<S>, r: Eval<S>, l: Line, stop: World<S> -> Reason): (o: Outcome<S>)
  {
    match r
    case Over(o) => o
    case On(_, w, n) =>
      var v := Visit(h, l, w, n);
      if v.Some? then v.value else Failed(stop(w), w)
  }

  function Stray(kind: LoopKind): (r: Reason)
  {
    if kind == LoopWhile then StrayEndWhile else StrayEndRepeat
  }

  /** Why a head or an `else` without its closer ends the run. */
  function Unclosed<S>(h: Host<S>, l: Line, w: World<S>): (r: Reason)
  {
    match l.kw
    case KIf => if h.cond(l.text, w.store).None? then BadCondition else BadIf
    case KWhile => if h.cond(l.text, w.store).None? then BadCondition else MissingEndWhile
    case KRepeat =>
      var k := h.count(l.text, w.store);
      if k.None? || k.value < 0 || k.value > MAX_REPEAT then BadRepeat else MissingEndRepeat
    case _ => BadElse
  }

  predicate NeedsCloser(l: Line)
  {
    l.kw == KIf || l.kw == KWhile || l.kw == KRepeat || l.kw == KElse
  }

  // ----- searches that find nothing -----

  lemma {:induction false} FindsNoEnd<S>(p: seq<Line>, h: Host<S>, w: World<S>, pos: nat, o: Keyword, c: Keyword,
                                         b: Block)
    requires IsPair(o, c) && Placed(p, pos, b) && pos + Size(b) == |p|
    ensures ScanControl(p, h, w, pos, 0, o, c) == None
  {
    var f := (pos: nat, d: nat) => ScanControl(p, h, w, pos, d, o, c);
    assert Scans(p, h, w, o, c, f);
    ScanBlock(p, h, w, o, c, f, pos, 0, b);
    assert Here(pos + Size(b), 0);
  }

  lemma {:induction false} FindsNoEndIf<S>(p: seq<Line>, h: Host<S>, w: World<S>, pos: nat, b: Block)
    requires Placed(p, pos, b) && pos + Size(b) == |p|
    ensures ScanIf(p, h, w, pos, 0, None) == None
  {
    var f := ScanIfScans(p, h, w, pos);
    ElseBlock(p, h, w, f, pos, 0, None, b);
    assert HereIf(pos + Size(b), 0, None);
  }

  // ----- one step -----

  lemma {:induction false} StepStray<S(!new)>(p: seq<Line>, h: Host<S>, f: Finder<S>,
                                              k: (Config<S>, nat) -> Outcome<S>, kind: LoopKind, text: string,
                                              pos: nat, w: World<S>, n: nat)
    requires Runs(p, h, f, k) && Is(p, pos, Line(Closer(kind), text))
    ensures k(Config(pos, [], w), n)
            == Behind(h, On(Normal, w, n), Line(Closer(kind), text), _ => Stray(kind))
  {
    Unroll(p, h, f, k, Config(pos, [], w), n, Line(Closer(kind), text));
  }

  lemma {:induction false} StepUnclosed<S(!new)>(p: seq<Line>, h: Host<S>, f: Finder<S>,
                                                 k: (Config<S>, nat) -> Outcome<S>, l: Line, body: Block,
                                                 pos: nat, w: World<S>, n: nat)
    requires Runs(p, h, f, k) && NeedsCloser(l) && Is(p, pos, l)
    requires Placed(p, pos + 1, body) && pos + 1 + Size(body) == |p|
    ensures k(Config(pos, [], w), n) == Behind(h, On(Normal, w, n), l, v => Unclosed(h, l, v))
  {
    assert Asked(w, pos + 1);
    FindsNoEndIf(p, h, w, pos + 1, body);
    FindsNoEnd(p, h, w, pos + 1, KIf, KEndIf, body);
    FindsNoEnd(p, h, w, pos + 1, KWhile, KEndWhile, body);
    FindsNoEnd(p, h, w, pos + 1, KRepeat, KEndRepeat, body);
    Unroll(p, h, f, k, Config(pos, [], w), n, l);
  }

  // ----- whole runs -----

  /** A closer behind a nested script belongs to no loop: the run fails there, whatever follows,
      unless it ended before. */
  lemma {:induction false} StrayCloser<S(!new)>(h: Host<S>, b: Block, kind: LoopKind, text: string, rest: seq<Line>,
                                                w: World<S>, fuel: nat)
    ensures Run(Flatten(b) + [Line(Closer(kind), text)] + rest, h, Config(0, [], w), fuel)
            == Behind(h, EvalBlock(h, b, w, 0, fuel), Line(Closer(kind), text), _ => Stray(kind))
  {
    var l := Line(Closer(kind), text);
    var p := Flatten(b) + [l] + rest;
    var k := (c: Config<S>, f: nat) => Run(p, h, c, f);
    FlattenIsPlaced([], b, [l] + rest);
    assert [] + Flatten(b) + ([l] + rest) == p;
    SizeIsLength(b);
    RunRuns(p, h);
    SimBlock(p, h, Scanner(p, h), k, b, 0, [], w, fuel);
    var r := EvalBlock(h, b, w, 0, fuel);
    if r.On? {
      StepStray(p, h, Scanner(p, h), k, kind, text, Size(b), r.world, r.fuel);
    }
  }

  /** A head or an `else` whose closer is missing ends the run when it is reached. */
  lemma {:induction false} UnclosedHead<S(!new)>(h: Host<S>, b: Block, l: Line, body: Block, w: World<S>, fuel: nat)
    requires NeedsCloser(l)
    ensures Run(Flatten(b) + [l] + Flatten(body), h, Config(0, [], w), fuel)
            == Behind(h, EvalBlock(h, b, w, 0, fuel), l, v => Unclosed(h, l, v))
  {
    var p := Flatten(b) + [l] + Flatten(body);
    var k := (c: Config<S>, f: nat) => Run(p, h, c, f);
    FlattenIsPlaced([], b, [l] + Flatten(body));
    assert [] + Flatten(b) + ([l] + Flatten(body)) == p;
    FlattenIsPlaced(Flatten(b) + [l], body, []);
    assert Flatten(b) + [l] + Flatten(body) + [] == p;
    SizeIsLength(b);
    SizeIsLength(body);
    RunRuns(p, h);
    SimBlock(p, h, Scanner(p, h), k, b, 0, [], w, fuel);
    var r := EvalBlock(h, b, w, 0, fuel);
    if r.On? {
      StepUnclosed(p, h, Scanner(p, h), k, l, body, Size(b), r.world, r.fuel);
    }
  }
}
