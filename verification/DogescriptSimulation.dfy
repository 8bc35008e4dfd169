/** The jumping interpreter and the structured meaning agree on every nested program. */
module DogescriptSimulation {
  import opened Basics
  import opened DogescriptSyntax
  import opened DogescriptHost
  import opened DogescriptMachine
  import opened DogescriptStructured

  // ----- where the lines of a nested program stand in the script -----

  function Size(b: Block): (n: nat)
  {
    match b
    case Empty => 0
    case Then(s, t) => SizeStmt(s) + Size(t)
  }

  function SizeStmt(s: Stmt): (n: nat)
  {
    match s
    case Simple(_, _) => 1
    case If(_, thn, _) => 1 + Size(thn) + 1
    case IfElse(_, thn, _, els, _) => 1 + Size(thn) + 1 + Size(els) + 1
    case Loop(_, _, body, _) => 1 + Size(body) + 1
  }

  predicate Is(p: seq<Line>, pos: nat, l: Line)
  {
    pos < |p| && p[pos] == l
  }

  /** The lines of `b` stand at `pos`. */
  predicate Placed(p: seq<Line>, pos: nat, b: Block)
    decreases b, 0
  {
    match b
    case Empty => true
    case Then(s, t) => PlacedStmt(p, pos, s) && Placed(p, pos + SizeStmt(s), t)
  }

  predicate PlacedStmt(p: seq<Line>, pos: nat, s: Stmt)
    decreases s, 0
  {
    Is(p, pos, FirstLine(s)) &&
    match s
    case Simple(_, _) => true
    case If(_, thn, e) => PlacedTo(p, pos + 1, thn, Line(KEndIf, e))
    case IfElse(_, thn, m, els, e) =>
      PlacedTo(p, pos + 1, thn, Line(KElse, m)) && PlacedTo(p, pos + 1 + Size(thn) + 1, els, Line(KEndIf, e))
    case Loop(k, _, body, e) => PlacedTo(p, pos + 1, body, Line(Closer(k), e))
  }

  /** The lines of `b`, and then `l`. */
  predicate PlacedTo(p: seq<Line>, pos: nat, b: Block, l: Line)
    decreases b, 1
  {
    Placed(p, pos, b) && Is(p, pos + Size(b), l)
  }

  lemma {:induction false} SizeIsLength(b: Block)
    ensures |Flatten(b)| == Size(b)
    decreases b
  {
    match b
    case Empty =>
    case Then(s, t) => SizeStmtIsLength(s); SizeIsLength(t);
  }

  lemma {:induction false} SizeStmtIsLength(s: Stmt)
    ensures |FlattenStmt(s)| == SizeStmt(s)
    decreases s
  {
    match s
    case Simple(_, _) =>
    case If(_, thn, _) => SizeIsLength(thn);
    case IfElse(_, thn, _, els, _) => SizeIsLength(thn); SizeIsLength(els);
    case Loop(_, _, body, _) => SizeIsLength(body);
  }

  /** A script that holds `Flatten(b)` between other lines has `b` placed there. */
  lemma {:induction false} FlattenIsPlaced(a: seq<Line>, b: Block, z: seq<Line>)
    ensures Placed(a + Flatten(b) + z, |a|, b)
    decreases b, 0
  {
    match b
    case Empty =>
    case Then(s, t) =>
      SizeStmtIsLength(s);
      FlattenStmtIsPlaced(a, s, Flatten(t) + z);
      FlattenIsPlaced(a + FlattenStmt(s), t, z);
      assert a + Flatten(b) + z == a + FlattenStmt(s) + (Flatten(t) + z) == (a + FlattenStmt(s)) + Flatten(t) + z;
  }

  lemma {:induction false} FlattenToIsPlaced(a: seq<Line>, b: Block, l: Line, z: seq<Line>)
    ensures PlacedTo(a + (Flatten(b) + [l]) + z, |a|, b, l)
    decreases b, 1
  {
    SizeIsLength(b);
    FlattenIsPlaced(a, b, [l] + z);
    assert a + (Flatten(b) + [l]) + z == a + Flatten(b) + ([l] + z);
  }

  lemma {:induction false} FlattenStmtIsPlaced(a: seq<Line>, s: Stmt, z: seq<Line>)
    ensures PlacedStmt(a + FlattenStmt(s) + z, |a|, s)
    decreases s, 0
  {
    match s
    case Simple(_, _) =>
    case If(_, thn, e) => FlattenWrappedIsPlaced(a, FirstLine(s), thn, Line(KEndIf, e), z);
    case IfElse(c, thn, m, els, e) => FlattenIfElseIsPlaced(a, c, thn, m, els, e, z);
    case Loop(k, _, body, e) => FlattenWrappedIsPlaced(a, FirstLine(s), body, Line(Closer(k), e), z);
  }

  lemma {:induction false} FlattenWrappedIsPlaced(a: seq<Line>, first: Line, b: Block, l: Line, z: seq<Line>)
    ensures Is(a + ([first] + Flatten(b) + [l]) + z, |a|, first)
    ensures PlacedTo(a + ([first] + Flatten(b) + [l]) + z, |a| + 1, b, l)
    decreases b, 2
  {
    FlattenToIsPlaced(a + [first], b, l, z);
    assert a + ([first] + Flatten(b) + [l]) + z == (a + [first]) + (Flatten(b) + [l]) + z;
  }

  lemma {:induction false} Regroup<T>(a: seq<T>, b: seq<T>, c: seq<T>, d: seq<T>, e: seq<T>, f: seq<T>, g: seq<T>)
    ensures a + (b + c + d + e + f) + g == (a + b) + (c + d) + ((e + f) + g)
    ensures a + (b + c + d + e + f) + g == (a + b + (c + d)) + (e + f) + g
  {
  }

  lemma {:induction false} PlacedBetween(p: seq<Line>, a: seq<Line>, b: Block, l: Line, z: seq<Line>)
    requires p == a + (Flatten(b) + [l]) + z
    ensures PlacedTo(p, |a|, b, l)
    decreases b, 2
  {
    FlattenToIsPlaced(a, b, l, z);
  }

  lemma {:induction false} FlattenIfElseIsPlaced(a: seq<Line>, c: string, thn: Block, m: string, els: Block,
                                                 e: string, z: seq<Line>)
    ensures PlacedStmt(a + FlattenStmt(IfElse(c, thn, m, els, e)) + z, |a|, IfElse(c, thn, m, els, e))
    decreases IfElse(c, thn, m, els, e), 0, 0
  {
    var first, mid, end := [Line(KIf, c)], [Line(KElse, m)], [Line(KEndIf, e)];
    var p := a + FlattenStmt(IfElse(c, thn, m, els, e)) + z;
    var before, behind := a + first, (Flatten(els) + end) + z;
    var before', thn' := a + first + (Flatten(thn) + mid), Flatten(thn) + mid;
    Regroup(a, first, Flatten(thn), mid, Flatten(els), end, z);
    assert p == before + thn' + behind && p == before' + (Flatten(els) + end) + z;
    PlacedBetween(p, before, thn, mid[0], behind);
    PlacedBetween(p, before', els, end[0], z);
    SizeIsLength(thn);
    assert p[|a|] == first[0];
  }

  // ----- the scans pass over whole statements -----

  predicate IsPair(opening: Keyword, closing: Keyword)
  {
    || (opening == KIf && closing == KEndIf)
    || (opening == KWhile && closing == KEndWhile)
    || (opening == KRepeat && closing == KEndRepeat)
  }

  /** `f` is the scan for one keyword pair.  The equation is used only at positions marked with
      `Here`, so that proofs unfold exactly the lines they name. */
  ghost predicate Scans<S>(p: seq<Line>, h: Host<S>, w: World<S>, o: Keyword, c: Keyword, f: (nat, nat) -> Option<nat>)
  {
    forall pos: nat, d: nat {:trigger Here(pos, d)} :: Here(pos, d) ==>
      f(pos, d) ==
      if pos >= |p| || !h.lex(p[pos], w.store) then None
      else
        var m := ControlMove(p[pos].kw, d, o, c);
        if m.Found? then Some(pos) else if m.GiveUp? then None else f(pos + 1, m.depth)
  }

  ghost predicate Here(pos: nat, d: nat) { true }

  /** The depth behind a line. */
  function Depth(kw: Keyword, d: nat, o: Keyword, c: Keyword): (d': int)
  {
    if kw == o then d + 1 else if kw == c then d - 1 else d
  }

  /** A scan that meets a block at `pos` goes on behind it at the same depth, unless one of the
      block's lines does not tokenise. */
  lemma {:induction false} ScanBlock<S>(p: seq<Line>, h: Host<S>, w: World<S>, o: Keyword, c: Keyword,
                                        f: (nat, nat) -> Option<nat>, pos: nat, d: nat, b: Block)
    requires IsPair(o, c) && Scans(p, h, w, o, c, f) && Placed(p, pos, b)
    ensures f(pos, d) == if LexBlock(h, b, w) then f(pos + Size(b), d) else None
    decreases b, 0
  {
    match b
    case Empty =>
    case Then(s, t) =>
      ScanStmt(p, h, w, o, c, f, pos, d, s);
      ScanBlock(p, h, w, o, c, f, pos + SizeStmt(s), d, t);
  }

  lemma {:induction false} ScanLine<S>(p: seq<Line>, h: Host<S>, w: World<S>, o: Keyword, c: Keyword,
                                       f: (nat, nat) -> Option<nat>, pos: nat, d: nat, l: Line)
    requires IsPair(o, c) && Scans(p, h, w, o, c, f) && Is(p, pos, l) && Depth(l.kw, d, o, c) >= 0
    ensures f(pos, d) == if h.lex(l, w.store) then f(pos + 1, Depth(l.kw, d, o, c)) else None
  {
    assert Here(pos, d);
  }

  lemma {:induction false} ScanTo<S>(p: seq<Line>, h: Host<S>, w: World<S>, o: Keyword, c: Keyword,
                                     f: (nat, nat) -> Option<nat>, pos: nat, d: nat, b: Block, l: Line)
    requires IsPair(o, c) && Scans(p, h, w, o, c, f) && PlacedTo(p, pos, b, l) && Depth(l.kw, d, o, c) >= 0
    ensures f(pos, d) == if LexTo(h, b, l, w) then f(pos + Size(b) + 1, Depth(l.kw, d, o, c)) else None
    decreases b, 1
  {
    ScanBlock(p, h, w, o, c, f, pos, d, b);
    ScanLine(p, h, w, o, c, f, pos + Size(b), d, l);
  }

  lemma {:induction false} ScanPlain<S>(p: seq<Line>, h: Host<S>, w: World<S>, o: Keyword, c: Keyword,
                                        f: (nat, nat) -> Option<nat>, pos: nat, d: nat, op: Plain, text: string)
    requires IsPair(o, c) && Scans(p, h, w, o, c, f) && Is(p, pos, Line(PlainKeyword(op), text))
    ensures f(pos, d) == if h.lex(Line(PlainKeyword(op), text), w.store) then f(pos + 1, d) else None
  {
    ScanLine(p, h, w, o, c, f, pos, d, Line(PlainKeyword(op), text));
  }

  lemma {:induction false} ScanLoop<S>(p: seq<Line>, h: Host<S>, w: World<S>, o: Keyword, c: Keyword,
                                       f: (nat, nat) -> Option<nat>, pos: nat, d: nat, k: LoopKind, test: string,
                                       body: Block, e: string)
    requires IsPair(o, c) && Scans(p, h, w, o, c, f) && Is(p, pos, Line(Opener(k), test))
    requires PlacedTo(p, pos + 1, body, Line(Closer(k), e))
    ensures f(pos, d) ==
            if h.lex(Line(Opener(k), test), w.store) && LexTo(h, body, Line(Closer(k), e), w)
            then f(pos + 1 + Size(body) + 1, d) else None
    decreases body, 3
  {
    ScanWrapped(p, h, w, o, c, f, pos, d, Line(Opener(k), test), body, Line(Closer(k), e));
  }

  lemma {:induction false} LexIfElse<S>(h: Host<S>, w: World<S>, c: string, thn: Block, m: string, b: Block, e: string)
    ensures LexStmt(h, IfElse(c, thn, m, b, e), w)
            <==> h.lex(Line(KIf, c), w.store) && LexTo(h, thn, Line(KElse, m), w) && LexTo(h, b, Line(KEndIf, e), w)
    ensures SizeStmt(IfElse(c, thn, m, b, e)) == 1 + Size(thn) + 1 + Size(b) + 1
  {
  }

  lemma {:induction false} ScanStmt<S>(p: seq<Line>, h: Host<S>, w: World<S>, o: Keyword, c: Keyword,
                                       f: (nat, nat) -> Option<nat>, pos: nat, d: nat, s: Stmt)
    requires IsPair(o, c) && Scans(p, h, w, o, c, f) && PlacedStmt(p, pos, s)
    ensures f(pos, d) == if LexStmt(h, s, w) then f(pos + SizeStmt(s), d) else None
    decreases s, 0
  {
    match s
    case Simple(op, text) => ScanPlain(p, h, w, o, c, f, pos, d, op, text);
    case If(cond, thn, e) => ScanWrapped(p, h, w, o, c, f, pos, d, Line(KIf, cond), thn, Line(KEndIf, e));
    case IfElse(cond, thn, m, els, e) =>
      ScanBranches(p, h, w, o, c, f, pos, d, cond, thn, m, els, e, pos + SizeStmt(s));
      LexIfElse(h, w, cond, thn, m, els, e);
    case Loop(k, test, body, e) => ScanLoop(p, h, w, o, c, f, pos, d, k, test, body, e);
  }

  lemma {:induction false} ScanWrapped<S>(p: seq<Line>, h: Host<S>, w: World<S>, o: Keyword, c: Keyword,
                                          f: (nat, nat) -> Option<nat>, pos: nat, d: nat, first: Line, b: Block,
                                          l: Line)
    requires IsPair(o, c) && Scans(p, h, w, o, c, f) && IsPair(first.kw, l.kw)
    requires Is(p, pos, first) && PlacedTo(p, pos + 1, b, l)
    ensures f(pos, d) == if h.lex(first, w.store) && LexTo(h, b, l, w) then f(pos + 1 + Size(b) + 1, d) else None
    decreases b, 2
  {
    ScanLine(p, h, w, o, c, f, pos, d, first);
    ScanTo(p, h, w, o, c, f, pos + 1, Depth(first.kw, d, o, c), b, l);
  }

  lemma {:induction false} ScanBranches<S>(p: seq<Line>, h: Host<S>, w: World<S>, o: Keyword, c: Keyword,
                                           f: (nat, nat) -> Option<nat>, pos: nat, d: nat,
                                           cond: string, thn: Block, m: string, els: Block, e: string, next: nat)
    requires IsPair(o, c) && Scans(p, h, w, o, c, f) && Is(p, pos, Line(KIf, cond))
    requires next == pos + 1 + Size(thn) + 1 + Size(els) + 1
    requires PlacedTo(p, pos + 1, thn, Line(KElse, m)) && PlacedTo(p, pos + 1 + Size(thn) + 1, els, Line(KEndIf, e))
    ensures f(pos, d) ==
            if h.lex(Line(KIf, cond), w.store) && LexTo(h, thn, Line(KElse, m), w) && LexTo(h, els, Line(KEndIf, e), w)
            then f(next, d) else None
    decreases IfElse(cond, thn, m, els, e), 0, 0
  {
    var d' := Depth(KIf, d, o, c);
    ScanLine(p, h, w, o, c, f, pos, d, Line(KIf, cond));
    ScanTo(p, h, w, o, c, f, pos + 1, d', thn, Line(KElse, m));
    ScanTo(p, h, w, o, c, f, pos + 1 + Size(thn) + 1, d', els, Line(KEndIf, e));
  }

  /** `find_control_end` from a block's opening line returns the block's own closing line. */
  lemma {:induction false} FindsOwnEnd<S>(p: seq<Line>, h: Host<S>, w: World<S>, pos: nat, opening: Keyword, b: Block,
                                          close: Line)
    requires IsPair(opening, close.kw) && PlacedTo(p, pos, b, close)
    ensures ScanControl(p, h, w, pos, 0, opening, close.kw) ==
            if LexTo(h, b, close, w) then Some(pos + Size(b)) else None
  {
    var f := (pos: nat, d: nat) => ScanControl(p, h, w, pos, d, opening, close.kw);
    assert Scans(p, h, w, opening, close.kw, f);
    ScanBlock(p, h, w, opening, close.kw, f, pos, 0, b);
    assert Here(pos + Size(b), 0);
  }

  // ----- the scan for `else` and `endif` -----

  ghost predicate ScansIf<S>(p: seq<Line>, h: Host<S>, w: World<S>, f: (nat, nat, Option<nat>) -> Option<IfEnd>)
  {
    forall pos: nat, d: nat, els: Option<nat> {:trigger HereIf(pos, d, els)} ::
      HereIf(pos, d, els) && (els.Some? ==> els.value < |p|) ==>
        f(pos, d, els) ==
        if pos >= |p| || !h.lex(p[pos], w.store) then None
        else
          var m := IfMove(p[pos].kw, pos, d, els);
          if m.Found? then Some(IfEnd(pos, els)) else if m.GiveUp? then None else f(pos + 1, m.depth, m.els)
  }

  ghost predicate HereIf(pos: nat, d: nat, els: Option<nat>) { true }

  lemma {:induction false} ElseLine<S>(p: seq<Line>, h: Host<S>, w: World<S>,
                                       f: (nat, nat, Option<nat>) -> Option<IfEnd>,
                                       pos: nat, d: nat, els: Option<nat>, l: Line)
    requires ScansIf(p, h, w, f) && Is(p, pos, l) && Depth(l.kw, d, KIf, KEndIf) >= 0
    requires (els.Some? ==> els.value < |p|) && (l.kw == KElse ==> d > 0)
    ensures f(pos, d, els) == if h.lex(l, w.store) then f(pos + 1, Depth(l.kw, d, KIf, KEndIf), els) else None
  {
    assert HereIf(pos, d, els);
  }

  /** A block has no `else` of its own: the scan keeps the `else` it had. */
  lemma {:induction false} ElseBlock<S>(p: seq<Line>, h: Host<S>, w: World<S>,
                                        f: (nat, nat, Option<nat>) -> Option<IfEnd>,
                                        pos: nat, d: nat, els: Option<nat>, b: Block)
    requires ScansIf(p, h, w, f) && Placed(p, pos, b) && (els.Some? ==> els.value < |p|)
    ensures f(pos, d, els) == if LexBlock(h, b, w) then f(pos + Size(b), d, els) else None
    decreases b, 0
  {
    match b
    case Empty =>
    case Then(s, t) =>
      ElseStmt(p, h, w, f, pos, d, els, s);
      ElseBlock(p, h, w, f, pos + SizeStmt(s), d, els, t);
  }

  lemma {:induction false} ElseTo<S>(p: seq<Line>, h: Host<S>, w: World<S>, f: (nat, nat, Option<nat>) -> Option<IfEnd>,
                                     pos: nat, d: nat, els: Option<nat>, b: Block, l: Line)
    requires ScansIf(p, h, w, f) && PlacedTo(p, pos, b, l) && Depth(l.kw, d, KIf, KEndIf) >= 0
    requires (els.Some? ==> els.value < |p|) && (l.kw == KElse ==> d > 0)
    ensures f(pos, d, els) ==
            if LexTo(h, b, l, w) then f(pos + Size(b) + 1, Depth(l.kw, d, KIf, KEndIf), els) else None
    decreases b, 1
  {
    ElseBlock(p, h, w, f, pos, d, els, b);
    ElseLine(p, h, w, f, pos + Size(b), d, els, l);
  }

  lemma {:induction false} ElsePlain<S>(p: seq<Line>, h: Host<S>, w: World<S>,
                                        f: (nat, nat, Option<nat>) -> Option<IfEnd>, pos: nat, d: nat,
                                        els: Option<nat>, op: Plain, text: string)
    requires ScansIf(p, h, w, f) && (els.Some? ==> els.value < |p|) && Is(p, pos, Line(PlainKeyword(op), text))
    ensures f(pos, d, els) == if h.lex(Line(PlainKeyword(op), text), w.store) then f(pos + 1, d, els) else None
  {
    ElseLine(p, h, w, f, pos, d, els, Line(PlainKeyword(op), text));
  }

  lemma {:induction false} ElseStmt<S>(p: seq<Line>, h: Host<S>, w: World<S>,
                                       f: (nat, nat, Option<nat>) -> Option<IfEnd>,
                                       pos: nat, d: nat, els: Option<nat>, s: Stmt)
    requires ScansIf(p, h, w, f) && PlacedStmt(p, pos, s) && (els.Some? ==> els.value < |p|)
    ensures f(pos, d, els) == if LexStmt(h, s, w) then f(pos + SizeStmt(s), d, els) else None
    decreases s, 0
  {
    match s
    case Simple(op, text) => ElsePlain(p, h, w, f, pos, d, els, op, text);
    case If(cond, thn, e) => ElseWrapped(p, h, w, f, pos, d, els, Line(KIf, cond), thn, Line(KEndIf, e));
    case IfElse(cond, thn, m, b, e) =>
      ElseBranches(p, h, w, f, pos, d, els, cond, thn, m, b, e, pos + SizeStmt(s));
      LexIfElse(h, w, cond, thn, m, b, e);
    case Loop(k, test, body, e) => ElseLoop(p, h, w, f, pos, d, els, k, test, body, e);
  }

  lemma {:induction false} ElseLoop<S>(p: seq<Line>, h: Host<S>, w: World<S>,
                                       f: (nat, nat, Option<nat>) -> Option<IfEnd>, pos: nat, d: nat,
                                       els: Option<nat>, k: LoopKind, test: string, body: Block, e: string)
    requires ScansIf(p, h, w, f) && PlacedStmt(p, pos, Loop(k, test, body, e)) && (els.Some? ==> els.value < |p|)
    ensures f(pos, d, els)
            == if LexStmt(h, Loop(k, test, body, e), w) then f(pos + SizeStmt(Loop(k, test, body, e)), d, els) else None
    decreases body, 3
  {
    ElseWrapped(p, h, w, f, pos, d, els, Line(Opener(k), test), body, Line(Closer(k), e));
  }

  lemma {:induction false} ElseWrapped<S>(p: seq<Line>, h: Host<S>, w: World<S>,
                                          f: (nat, nat, Option<nat>) -> Option<IfEnd>,
                                          pos: nat, d: nat, els: Option<nat>, first: Line, b: Block, l: Line)
    requires ScansIf(p, h, w, f) && (els.Some? ==> els.value < |p|) && IsPair(first.kw, l.kw)
    requires Is(p, pos, first) && PlacedTo(p, pos + 1, b, l)
    ensures f(pos, d, els) ==
            if h.lex(first, w.store) && LexTo(h, b, l, w) then f(pos + 1 + Size(b) + 1, d, els) else None
    decreases b, 2
  {
    ElseLine(p, h, w, f, pos, d, els, first);
    ElseTo(p, h, w, f, pos + 1, Depth(first.kw, d, KIf, KEndIf), els, b, l);
  }

  lemma {:induction false} ElseBranches<S>(p: seq<Line>, h: Host<S>, w: World<S>,
                                           f: (nat, nat, Option<nat>) -> Option<IfEnd>,
                                           pos: nat, d: nat, els: Option<nat>,
                                           cond: string, thn: Block, m: string, b: Block, e: string, next: nat)
    requires ScansIf(p, h, w, f) && (els.Some? ==> els.value < |p|) && Is(p, pos, Line(KIf, cond))
    requires PlacedTo(p, pos + 1, thn, Line(KElse, m)) && PlacedTo(p, pos + 1 + Size(thn) + 1, b, Line(KEndIf, e))
    requires next == pos + 1 + Size(thn) + 1 + Size(b) + 1
    ensures f(pos, d, els) ==
            if h.lex(Line(KIf, cond), w.store) && LexTo(h, thn, Line(KElse, m), w) && LexTo(h, b, Line(KEndIf, e), w)
            then f(next, d, els) else None
    decreases IfElse(cond, thn, m, b, e), 0, 0
  {
    ElseLine(p, h, w, f, pos, d, els, Line(KIf, cond));
    ElseTo(p, h, w, f, pos + 1, d + 1, els, thn, Line(KElse, m));
    ElseTo(p, h, w, f, pos + 1 + Size(thn) + 1, d + 1, els, b, Line(KEndIf, e));
  }

  lemma {:induction false} ScanIfScans<S>(p: seq<Line>, h: Host<S>, w: World<S>,
                                          pos: nat) returns (f: (nat, nat, Option<nat>) -> Option<IfEnd>)
    ensures ScansIf(p, h, w, f)
    ensures f(pos, 0, None) == ScanIf(p, h, w, pos, 0, None)
  {
    f := (pos: nat, d: nat, els: Option<nat>) =>
      if els.Some? && els.value >= |p| then None else ScanIf(p, h, w, pos, d, els);
  }

  /** `find_if_end` from a block at depth zero to the `endif` behind it. */
  lemma {:induction false} FindsEndIf<S>(p: seq<Line>, h: Host<S>, w: World<S>,
                                         f: (nat, nat, Option<nat>) -> Option<IfEnd>,
                                         pos: nat, els: Option<nat>, b: Block, e: string)
    requires ScansIf(p, h, w, f) && PlacedTo(p, pos, b, Line(KEndIf, e)) && (els.Some? ==> els.value < |p|)
    ensures f(pos, 0, els) == if LexTo(h, b, Line(KEndIf, e), w) then Some(IfEnd(pos + Size(b), els)) else None
  {
    ElseBlock(p, h, w, f, pos, 0, els, b);
    assert HereIf(pos + Size(b), 0, els);
  }

  /** `find_if_end` after an `if` without `else`: its own `endif`, and no `else`. */
  lemma {:induction false} FindsOwnEndIf<S>(p: seq<Line>, h: Host<S>, w: World<S>, pos: nat, thn: Block, e: string)
    requires PlacedTo(p, pos, thn, Line(KEndIf, e))
    ensures ScanIf(p, h, w, pos, 0, None) ==
            if LexTo(h, thn, Line(KEndIf, e), w) then Some(IfEnd(pos + Size(thn), None)) else None
  {
    var f := ScanIfScans(p, h, w, pos);
    FindsEndIf(p, h, w, f, pos, None, thn, e);
  }

  /** `find_if_end` after an `if` with `else`: its own `else` and its own `endif`. */
  lemma {:induction false} FindsOwnElse<S>(p: seq<Line>, h: Host<S>, w: World<S>, pos: nat, thn: Block, m: string,
                                           els: Block, e: string)
    requires PlacedTo(p, pos, thn, Line(KElse, m)) && PlacedTo(p, pos + Size(thn) + 1, els, Line(KEndIf, e))
    ensures ScanIf(p, h, w, pos, 0, None) ==
            if LexTo(h, thn, Line(KElse, m), w) && LexTo(h, els, Line(KEndIf, e), w)
            then Some(IfEnd(pos + Size(thn) + 1 + Size(els), Some(pos + Size(thn)))) else None
  {
    var f := ScanIfScans(p, h, w, pos);
    var mid := pos + Size(thn);
    ElseBlock(p, h, w, f, pos, 0, None, thn);
    assert HereIf(mid, 0, None);
    FindsEndIf(p, h, w, f, mid + 1, Some(mid), els, e);
  }

  // ----- the simulation -----

  /** `k` is a run function: one step of the machine, then `k` again; `f` makes its searches.
      The equations are used only where `At` and `Asked` are mentioned, so that proofs unfold
      exactly the steps and searches they name. */
  ghost predicate Runs<S(!new)>(p: seq<Line>, h: Host<S>, f: Finder<S>, k: (Config<S>, nat) -> Outcome<S>)
  {
    && (forall c: Config<S>, n: nat {:trigger At(c, n)} :: At(c, n) ==> k(c, n) == Unrolled(p, h, f, k, c, n))
    && (forall w: World<S>, pos: nat {:trigger Asked(w, pos)} :: Asked(w, pos) ==>
          && f.ifEnd(w, pos) == ScanIf(p, h, w, pos, 0, None)
          && f.control(w, pos, KIf, KEndIf) == ScanControl(p, h, w, pos, 0, KIf, KEndIf)
          && f.control(w, pos, KWhile, KEndWhile) == ScanControl(p, h, w, pos, 0, KWhile, KEndWhile)
          && f.control(w, pos, KRepeat, KEndRepeat) == ScanControl(p, h, w, pos, 0, KRepeat, KEndRepeat))
  }

  ghost predicate At<S>(c: Config<S>, n: nat) { true }

  ghost predicate Asked<S>(w: World<S>, pos: nat) { true }

  ghost function Unrolled<S>(p: seq<Line>, h: Host<S>, f: Finder<S>, k: (Config<S>, nat) -> Outcome<S>,
                             c: Config<S>, n: nat): (o: Outcome<S>)
  {
    if c.pc >= |p| then Finished(0, c.world)
    else if n == 0 then Failed(StepLimit, c.world)
    else match Step(p, h, f, c)
      case Stop(o) => o
      case Go(c') => k(c', n - 1)
  }

  lemma {:induction false} RunRuns<S(!new)>(p: seq<Line>, h: Host<S>)
    ensures Runs(p, h, Scanner(p, h), (c: Config<S>, n: nat) => Run(p, h, c, n))
  {
    var k := (c: Config<S>, n: nat) => Run(p, h, c, n);
    forall c: Config<S>, n: nat ensures k(c, n) == Unrolled(p, h, Scanner(p, h), k, c, n) { }
  }

  /** One step from a line known to be `l`. */
  lemma {:induction false} Unroll<S(!new)>(p: seq<Line>, h: Host<S>, f: Finder<S>, k: (Config<S>, nat) -> Outcome<S>,
                                           c: Config<S>, n: nat, l: Line)
    requires Runs(p, h, f, k) && Is(p, c.pc, l)
    ensures k(c, n) == Unrolled(p, h, f, k, c, n)
  {
    assert At(c, n);
  }

  lemma {:induction false} SearchIf<S(!new)>(p: seq<Line>, h: Host<S>, f: Finder<S>, k: (Config<S>, nat) -> Outcome<S>,
                                             w: World<S>, pos: nat, thn: Block, e: string)
    requires Runs(p, h, f, k) && PlacedTo(p, pos, thn, Line(KEndIf, e))
    ensures f.ifEnd(w, pos) == if LexTo(h, thn, Line(KEndIf, e), w) then Some(IfEnd(pos + Size(thn), None)) else None
  {
    assert Asked(w, pos);
    FindsOwnEndIf(p, h, w, pos, thn, e);
  }

  lemma {:induction false} SearchIfElse<S(!new)>(p: seq<Line>, h: Host<S>, f: Finder<S>,
                                                 k: (Config<S>, nat) -> Outcome<S>,
                                                 w: World<S>, pos: nat, thn: Block, m: string, els: Block, e: string)
    requires Runs(p, h, f, k)
    requires PlacedTo(p, pos, thn, Line(KElse, m)) && PlacedTo(p, pos + Size(thn) + 1, els, Line(KEndIf, e))
    ensures f.ifEnd(w, pos) ==
            if LexTo(h, thn, Line(KElse, m), w) && LexTo(h, els, Line(KEndIf, e), w)
            then Some(IfEnd(pos + Size(thn) + 1 + Size(els), Some(pos + Size(thn)))) else None
  {
    assert Asked(w, pos);
    FindsOwnElse(p, h, w, pos, thn, m, els, e);
  }

  lemma {:induction false} SearchEnd<S(!new)>(p: seq<Line>, h: Host<S>, f: Finder<S>, k: (Config<S>, nat) -> Outcome<S>,
                                              w: World<S>, pos: nat, opening: Keyword, b: Block, close: Line)
    requires Runs(p, h, f, k) && IsPair(opening, close.kw) && PlacedTo(p, pos, b, close)
    ensures f.control(w, pos, opening, close.kw) == if LexTo(h, b, close, w) then Some(pos + Size(b)) else None
  {
    assert Asked(w, pos);
    FindsOwnEnd(p, h, w, pos, opening, b, close);
  }

  /** How the machine goes on from a structured result: behind the statement, or, on a `break`
      or `continue`, where the innermost frame says. */
  ghost function Resume<S>(k: (Config<S>, nat) -> Outcome<S>, r: Eval<S>, next: nat, stack: seq<Frame>): (o: Outcome<S>)
    requires r.On? && r.signal != Normal ==> |stack| > 0
  {
    match r
    case Over(o) => o
    case On(Normal, w, f) => k(Config(next, stack, w), f)
    case On(Broke, w, f) => k(Config(stack[|stack| - 1].after, stack[..|stack| - 1], w), f)
    case On(Continued, w, f) =>
      var top := stack[|stack| - 1];
      k(Config(if top.kind == LoopWhile then top.start else top.end, stack, w), f)
  }

  /** The machine in configuration `c` does what the structured result `r` says. */
  ghost predicate Agrees<S>(k: (Config<S>, nat) -> Outcome<S>, c: Config<S>, fuel: nat, r: Eval<S>, next: nat)
  {
    && (r.On? && r.signal != Normal ==> |c.stack| > 0)
    && k(c, fuel) == Resume(k, r, next, c.stack)
  }

  /** The innermost open loop starts before the line about to run. */
  predicate Inside(stack: seq<Frame>, pos: nat)
  {
    |stack| > 0 ==> stack[|stack| - 1].start < pos
  }

  // ----- what one machine step does at each control line of a nested program -----

  /** The machine's continuations after the head of a compound statement. */
  ghost function Branch<S>(k: (Config<S>, nat) -> Outcome<S>, choice: Choice, w: World<S>, enter: Config<S>,
                           pass: Config<S>, n: nat): (o: Outcome<S>)
  {
    match choice
    case Refuse(reason) => Failed(reason, w)
    case Enter(_) => k(enter, n)
    case Pass => k(pass, n)
  }

  lemma {:induction false} AgreesPick<S>(k: (Config<S>, nat) -> Outcome<S>, choice: Choice, c: Config<S>,
                                         c1: Config<S>, c2: Config<S>, n: nat,
                                         enter: Eval<S>, pass: Eval<S>, next: nat)
    requires k(c, n + 1) == Branch(k, choice, c.world, c1, c2, n) && c1.stack == c2.stack == c.stack
    requires Agrees(k, c1, n, enter, next) && Agrees(k, c2, n, pass, next)
    ensures Agrees(k, c, n + 1, Pick(choice, c.world, enter, pass), next)
  {
  }

  lemma {:induction false} StepIf<S(!new)>(p: seq<Line>, h: Host<S>, f: Finder<S>, k: (Config<S>, nat) -> Outcome<S>,
                                           c: string, thn: Block, e: string,
                                           pos: nat, stack: seq<Frame>, w: World<S>, n: nat)
    requires Runs(p, h, f, k) && Is(p, pos, Line(KIf, c)) && PlacedTo(p, pos + 1, thn, Line(KEndIf, e))
    requires h.lex(Line(KIf, c), w.store)
    ensures k(Config(pos, stack, w), n + 1) ==
            Branch(k, IfChoice(h.cond(c, w.store), LexTo(h, thn, Line(KEndIf, e), w)), w,
                   Config(pos + 1, stack, w), Config(pos + 1 + Size(thn) + 1, stack, w), n)
  {
    SearchIf(p, h, f, k, w, pos + 1, thn, e);
    Unroll(p, h, f, k, Config(pos, stack, w), n + 1, Line(KIf, c));
  }

  lemma {:induction false} StepIfElse<S(!new)>(p: seq<Line>, h: Host<S>, f: Finder<S>,
                                               k: (Config<S>, nat) -> Outcome<S>,
                                               c: string, thn: Block, m: string, els: Block, e: string,
                                               pos: nat, stack: seq<Frame>, w: World<S>, n: nat)
    requires Runs(p, h, f, k) && Is(p, pos, Line(KIf, c))
    requires PlacedTo(p, pos + 1, thn, Line(KElse, m)) && PlacedTo(p, pos + 1 + Size(thn) + 1, els, Line(KEndIf, e))
    requires h.lex(Line(KIf, c), w.store)
    ensures k(Config(pos, stack, w), n + 1) ==
            Branch(k,
                   IfChoice(h.cond(c, w.store),
                            LexTo(h, thn, Line(KElse, m), w) && LexTo(h, els, Line(KEndIf, e), w)), w,
                   Config(pos + 1, stack, w), Config(pos + 1 + Size(thn) + 1, stack, w), n)
  {
    SearchIfElse(p, h, f, k, w, pos + 1, thn, m, els, e);
    Unroll(p, h, f, k, Config(pos, stack, w), n + 1, Line(KIf, c));
  }

  /** Reaching `else` from above skips to behind the `endif`. */
  lemma {:induction false} StepElse<S(!new)>(p: seq<Line>, h: Host<S>, f: Finder<S>, k: (Config<S>, nat) -> Outcome<S>,
                                             m: string, els: Block, e: string,
                                             pos: nat, stack: seq<Frame>, w: World<S>, n: nat)
    requires Runs(p, h, f, k) && Is(p, pos, Line(KElse, m)) && PlacedTo(p, pos + 1, els, Line(KEndIf, e))
    requires n > 0 && h.lex(Line(KElse, m), w.store)
    ensures k(Config(pos, stack, w), n) ==
            if LexTo(h, els, Line(KEndIf, e), w) then k(Config(pos + 1 + Size(els) + 1, stack, w), n - 1)
            else Failed(BadElse, w)
  {
    SearchEnd(p, h, f, k, w, pos + 1, KIf, els, Line(KEndIf, e));
    Unroll(p, h, f, k, Config(pos, stack, w), n, Line(KElse, m));
  }

  /** A line that cannot be run ends the run. */
  lemma {:induction false} StepStuck<S(!new)>(p: seq<Line>, h: Host<S>, f: Finder<S>,
                                              k: (Config<S>, nat) -> Outcome<S>, l: Line, c: Config<S>, n: nat)
    requires Runs(p, h, f, k) && Is(p, c.pc, l) && Visit(h, l, c.world, n).Some?
    ensures k(c, n) == Visit(h, l, c.world, n).value
  {
    Unroll(p, h, f, k, c, n, l);
  }

  lemma {:induction false} StepEndIf<S(!new)>(p: seq<Line>, h: Host<S>, f: Finder<S>,
                                              k: (Config<S>, nat) -> Outcome<S>, e: string,
                                              pos: nat, stack: seq<Frame>, w: World<S>, n: nat)
    requires Runs(p, h, f, k) && Is(p, pos, Line(KEndIf, e))
    requires n > 0 && h.lex(Line(KEndIf, e), w.store)
    ensures k(Config(pos, stack, w), n) == k(Config(pos + 1, stack, w), n - 1)
  {
    Unroll(p, h, f, k, Config(pos, stack, w), n, Line(KEndIf, e));
  }

  /** The frame of a loop whose head stands at `pos` and whose body has `len` lines. */
  function LoopFrame(kind: LoopKind, pos: nat, len: nat, left: nat): (f: Frame)
  {
    Frame(kind, pos, pos + 1, pos + 1 + len, pos + 1 + len + 1, left)
  }

  /** A `while` line reached from outside the loop. */
  lemma {:induction false} StepWhile<S(!new)>(p: seq<Line>, h: Host<S>, f: Finder<S>,
                                              k: (Config<S>, nat) -> Outcome<S>, c: string, body: Block, e: string,
                                              pos: nat, stack: seq<Frame>, w: World<S>, n: nat)
    requires Runs(p, h, f, k) && Inside(stack, pos)
    requires Is(p, pos, Line(KWhile, c)) && PlacedTo(p, pos + 1, body, Line(KEndWhile, e))
    requires h.lex(Line(KWhile, c), w.store)
    ensures k(Config(pos, stack, w), n + 1) ==
            Branch(k, WhileChoice(h.cond(c, w.store), LexTo(h, body, Line(KEndWhile, e), w), |stack|), w,
                   Config(pos + 1, stack + [LoopFrame(LoopWhile, pos, Size(body), 0)], w),
                   Config(pos + 1 + Size(body) + 1, stack, w), n)
  {
    SearchEnd(p, h, f, k, w, pos + 1, KWhile, body, Line(KEndWhile, e));
    Unroll(p, h, f, k, Config(pos, stack, w), n + 1, Line(KWhile, c));
  }

  /** A `while` line reached again, with the loop's frame on top: no search, no new frame. */
  lemma {:induction false} StepWhileAgain<S(!new)>(p: seq<Line>, h: Host<S>, f: Finder<S>,
                                                   k: (Config<S>, nat) -> Outcome<S>, c: string, len: nat,
                                                   pos: nat, stack: seq<Frame>, own: seq<Frame>, w: World<S>, n: nat)
    requires Runs(p, h, f, k) && Is(p, pos, Line(KWhile, c)) && own == stack + [LoopFrame(LoopWhile, pos, len, 0)]
    requires n > 0 && h.lex(Line(KWhile, c), w.store)
    ensures k(Config(pos, own, w), n) ==
            Branch(k, WhileChoice(h.cond(c, w.store), true, 0), w,
                   Config(pos + 1, own, w), Config(pos + 1 + len + 1, stack, w), n - 1)
  {
    assert own[..|own| - 1] == stack && own[|own| - 1] == LoopFrame(LoopWhile, pos, len, 0);
    Unroll(p, h, f, k, Config(pos, own, w), n, Line(KWhile, c));
  }

  lemma {:induction false} StepEndWhile<S(!new)>(p: seq<Line>, h: Host<S>, f: Finder<S>,
                                                 k: (Config<S>, nat) -> Outcome<S>, e: string, len: nat,
                                                 pos: nat, stack: seq<Frame>, own: seq<Frame>, w: World<S>, n: nat)
    requires Runs(p, h, f, k) && Is(p, pos + 1 + len, Line(KEndWhile, e))
    requires own == stack + [LoopFrame(LoopWhile, pos, len, 0)]
    requires n > 0 && h.lex(Line(KEndWhile, e), w.store)
    ensures k(Config(pos + 1 + len, own, w), n) == k(Config(pos, own, w), n - 1)
  {
    assert own[|own| - 1] == LoopFrame(LoopWhile, pos, len, 0);
    Unroll(p, h, f, k, Config(pos + 1 + len, own, w), n, Line(KEndWhile, e));
  }

  lemma {:induction false} StepRepeat<S(!new)>(p: seq<Line>, h: Host<S>, f: Finder<S>,
                                               k: (Config<S>, nat) -> Outcome<S>, c: string, body: Block, e: string,
                                               pos: nat, stack: seq<Frame>, w: World<S>, n: nat, choice: Choice)
    requires Runs(p, h, f, k)
    requires Is(p, pos, Line(KRepeat, c)) && PlacedTo(p, pos + 1, body, Line(KEndRepeat, e))
    requires h.lex(Line(KRepeat, c), w.store)
    requires choice == RepeatChoice(h.count(c, w.store), LexTo(h, body, Line(KEndRepeat, e), w), |stack|)
    ensures k(Config(pos, stack, w), n + 1) ==
            Branch(k, choice, w,
                   Config(pos + 1,
                          stack + [LoopFrame(LoopRepeat, pos, Size(body),
                                             if choice.Enter? then choice.passes else 0)], w),
                   Config(pos + 1 + Size(body) + 1, stack, w), n)
  {
    SearchEnd(p, h, f, k, w, pos + 1, KRepeat, body, Line(KEndRepeat, e));
    Unroll(p, h, f, k, Config(pos, stack, w), n + 1, Line(KRepeat, c));
  }

  /** `endrepeat` with `left` passes counted in the frame: another pass, or out of the loop. */
  lemma {:induction false} StepEndRepeat<S(!new)>(p: seq<Line>, h: Host<S>, f: Finder<S>,
                                                  k: (Config<S>, nat) -> Outcome<S>, e: string, len: nat, left: nat,
                                                  pos: nat, stack: seq<Frame>, own: seq<Frame>, w: World<S>, n: nat)
    requires Runs(p, h, f, k) && left > 0 && own == stack + [LoopFrame(LoopRepeat, pos, len, left)]
    requires Is(p, pos + 1 + len, Line(KEndRepeat, e))
    requires n > 0 && h.lex(Line(KEndRepeat, e), w.store)
    ensures k(Config(pos + 1 + len, own, w), n) ==
            if left > 1 then k(Config(pos + 1, stack + [LoopFrame(LoopRepeat, pos, len, left - 1)], w), n - 1)
            else k(Config(pos + 1 + len + 1, stack, w), n - 1)
  {
    assert own[..|own| - 1] == stack && own[|own| - 1] == LoopFrame(LoopRepeat, pos, len, left);
    Unroll(p, h, f, k, Config(pos + 1 + len, own, w), n, Line(KEndRepeat, e));
  }

  // ----- blocks and statements -----

  lemma {:induction false} SimBlock<S(!new)>(p: seq<Line>, h: Host<S>, f: Finder<S>, k: (Config<S>, nat) -> Outcome<S>,
                                             b: Block,
                                             pos: nat, stack: seq<Frame>, w: World<S>, n: nat)
    requires Runs(p, h, f, k) && Placed(p, pos, b) && Inside(stack, pos)
    ensures Agrees(k, Config(pos, stack, w), n, EvalBlock(h, b, w, |stack|, n), pos + Size(b))
    decreases n, b, 1
  {
    match b
    case Empty =>
    case Then(s, t) =>
      SimStmt(p, h, f, k, s, pos, stack, w, n);
      var r := EvalStmt(h, s, w, |stack|, n);
      if r.On? && r.signal == Normal {
        SimBlock(p, h, f, k, t, pos + SizeStmt(s), stack, r.world, r.fuel);
      }
  }

  lemma {:induction false} SimStmt<S(!new)>(p: seq<Line>, h: Host<S>, f: Finder<S>, k: (Config<S>, nat) -> Outcome<S>,
                                            s: Stmt,
                                            pos: nat, stack: seq<Frame>, w: World<S>, n: nat)
    requires Runs(p, h, f, k) && PlacedStmt(p, pos, s) && Inside(stack, pos)
    ensures Agrees(k, Config(pos, stack, w), n, EvalStmt(h, s, w, |stack|, n), pos + SizeStmt(s))
    decreases n, s, 4
  {
    if Visit(h, FirstLine(s), w, n).Some? {
      StepStuck(p, h, f, k, FirstLine(s), Config(pos, stack, w), n);
    } else {
      SimVisited(p, h, f, k, s, pos, stack, w, n);
    }
  }

  lemma {:induction false} SimPlain<S(!new)>(p: seq<Line>, h: Host<S>, f: Finder<S>,
                                             k: (Config<S>, nat) -> Outcome<S>, op: Plain, text: string,
                                             pos: nat, stack: seq<Frame>, w: World<S>, n: nat)
    requires Runs(p, h, f, k) && Is(p, pos, Line(PlainKeyword(op), text))
    requires Visit(h, Line(PlainKeyword(op), text), w, n).None?
    ensures Agrees(k, Config(pos, stack, w), n, EvalStmt(h, Simple(op, text), w, |stack|, n), pos + 1)
  {
    SimSimple(p, h, f, k, op, text, pos, stack, w, n - 1);
  }

  /** A statement whose first line is reached. */
  lemma {:induction false} SimVisited<S(!new)>(p: seq<Line>, h: Host<S>, f: Finder<S>,
                                               k: (Config<S>, nat) -> Outcome<S>, s: Stmt, pos: nat,
                                               stack: seq<Frame>, w: World<S>, n: nat)
    requires Runs(p, h, f, k) && PlacedStmt(p, pos, s) && Inside(stack, pos)
    requires Visit(h, FirstLine(s), w, n).None?
    ensures Agrees(k, Config(pos, stack, w), n, EvalStmt(h, s, w, |stack|, n), pos + SizeStmt(s))
    decreases n, s, 3
  {
    match s
    case Simple(op, text) => SimPlain(p, h, f, k, op, text, pos, stack, w, n);
    case If(c, thn, e) => SimIf(p, h, f, k, c, thn, e, pos, stack, w, n - 1);
    case IfElse(c, thn, m, els, e) => SimIfElseStmt(p, h, f, k, c, thn, m, els, e, pos, stack, w, n - 1);
    case Loop(kind, c, body, e) => SimLoop(p, h, f, k, kind, c, body, e, pos, stack, w, n);
  }

  lemma {:induction false} SimLoop<S(!new)>(p: seq<Line>, h: Host<S>, f: Finder<S>,
                                            k: (Config<S>, nat) -> Outcome<S>, kind: LoopKind, c: string,
                                            body: Block, e: string, pos: nat, stack: seq<Frame>, w: World<S>,
                                            n: nat)
    requires Runs(p, h, f, k) && PlacedStmt(p, pos, Loop(kind, c, body, e)) && Inside(stack, pos)
    requires Visit(h, FirstLine(Loop(kind, c, body, e)), w, n).None?
    ensures Agrees(k, Config(pos, stack, w), n, EvalStmt(h, Loop(kind, c, body, e), w, |stack|, n),
                   pos + 1 + Size(body) + 1)
    decreases n, Loop(kind, c, body, e), 2
  {
    match kind
    case LoopWhile => SimWhile(p, h, f, k, c, body, e, pos, stack, w, n - 1);
    case LoopRepeat => SimRepeat(p, h, f, k, c, body, e, pos, stack, w, n - 1);
  }

  lemma {:induction false} SimSimple<S(!new)>(p: seq<Line>, h: Host<S>, f: Finder<S>,
                                              k: (Config<S>, nat) -> Outcome<S>, op: Plain, text: string,
                                              pos: nat, stack: seq<Frame>, w: World<S>, n: nat)
    requires Runs(p, h, f, k) && Is(p, pos, Line(PlainKeyword(op), text))
    requires h.lex(Line(PlainKeyword(op), text), w.store)
    ensures Agrees(k, Config(pos, stack, w), n + 1, EvalSimple(h, op, text, w, |stack|, n), pos + 1)
  {
    Unroll(p, h, f, k, Config(pos, stack, w), n + 1, Line(PlainKeyword(op), text));
  }

  /** A block followed by an `endif` line that the machine walks over. */
  lemma {:induction false} SimBranch<S(!new)>(p: seq<Line>, h: Host<S>, f: Finder<S>,
                                              k: (Config<S>, nat) -> Outcome<S>, b: Block, e: string,
                                              pos: nat, stack: seq<Frame>, w: World<S>, n: nat)
    requires Runs(p, h, f, k) && PlacedTo(p, pos, b, Line(KEndIf, e)) && Inside(stack, pos)
    ensures Agrees(k, Config(pos, stack, w), n, Close(h, Line(KEndIf, e), EvalBlock(h, b, w, |stack|, n)),
                   pos + Size(b) + 1)
    decreases n, b, 2
  {
    SimBlock(p, h, f, k, b, pos, stack, w, n);
    var r := EvalBlock(h, b, w, |stack|, n);
    if r.On? && r.signal == Normal {
      if Visit(h, Line(KEndIf, e), r.world, r.fuel).Some? {
        StepStuck(p, h, f, k, Line(KEndIf, e), Config(pos + Size(b), stack, r.world), r.fuel);
      } else {
        StepEndIf(p, h, f, k, e, pos + Size(b), stack, r.world, r.fuel);
      }
    }
  }

  lemma {:induction false} SimIf<S(!new)>(p: seq<Line>, h: Host<S>, f: Finder<S>, k: (Config<S>, nat) -> Outcome<S>,
                                          c: string, thn: Block, e: string,
                                          pos: nat, stack: seq<Frame>, w: World<S>, n: nat)
    requires Runs(p, h, f, k) && Inside(stack, pos)
    requires Is(p, pos, Line(KIf, c)) && PlacedTo(p, pos + 1, thn, Line(KEndIf, e))
    requires h.lex(Line(KIf, c), w.store)
    ensures Agrees(k, Config(pos, stack, w), n + 1, EvalStmt(h, If(c, thn, e), w, |stack|, n + 1),
                   pos + 1 + Size(thn) + 1)
    decreases n + 1, If(c, thn, e), 1
  {
    StepIf(p, h, f, k, c, thn, e, pos, stack, w, n);
    SimBranch(p, h, f, k, thn, e, pos + 1, stack, w, n);
    AgreesPick(k, IfChoice(h.cond(c, w.store), LexTo(h, thn, Line(KEndIf, e), w)), Config(pos, stack, w),
               Config(pos + 1, stack, w), Config(pos + 1 + Size(thn) + 1, stack, w), n,
               Close(h, Line(KEndIf, e), EvalBlock(h, thn, w, |stack|, n)), On(Normal, w, n), pos + 1 + Size(thn) + 1);
  }

  lemma {:induction false} SimIfElse<S(!new)>(p: seq<Line>, h: Host<S>, f: Finder<S>, k: (Config<S>, nat) -> Outcome<S>,
                                              c: string, thn: Block, m: string, els: Block, e: string,
                                              pos: nat, stack: seq<Frame>, w: World<S>, n: nat)
    requires Runs(p, h, f, k) && Inside(stack, pos) && Is(p, pos, Line(KIf, c))
    requires PlacedTo(p, pos + 1, thn, Line(KElse, m)) && PlacedTo(p, pos + 1 + Size(thn) + 1, els, Line(KEndIf, e))
    requires h.lex(Line(KIf, c), w.store)
    ensures Agrees(k, Config(pos, stack, w), n + 1,
                   Pick(IfChoice(h.cond(c, w.store),
                                 LexTo(h, thn, Line(KElse, m), w) && LexTo(h, els, Line(KEndIf, e), w)), w,
                        SkipElse(h, m, els, e, EvalBlock(h, thn, w, |stack|, n)),
                        Close(h, Line(KEndIf, e), EvalBlock(h, els, w, |stack|, n))),
                   pos + 1 + Size(thn) + 1 + Size(els) + 1)
    decreases n + 1, IfElse(c, thn, m, els, e), 1, 0
  {
    StepIfElse(p, h, f, k, c, thn, m, els, e, pos, stack, w, n);
    SimThenElse(p, h, f, k, thn, m, els, e, pos + 1, stack, w, n);
    SimBranch(p, h, f, k, els, e, pos + 1 + Size(thn) + 1, stack, w, n);
    AgreesPick(k, IfChoice(h.cond(c, w.store), LexTo(h, thn, Line(KElse, m), w) && LexTo(h, els, Line(KEndIf, e), w)),
               Config(pos, stack, w), Config(pos + 1, stack, w), Config(pos + 1 + Size(thn) + 1, stack, w), n,
               SkipElse(h, m, els, e, EvalBlock(h, thn, w, |stack|, n)),
               Close(h, Line(KEndIf, e), EvalBlock(h, els, w, |stack|, n)), pos + 1 + Size(thn) + 1 + Size(els) + 1);
  }

  lemma {:induction false} EvalIfElse<S>(h: Host<S>, c: string, thn: Block, m: string, els: Block, e: string,
                                         w: World<S>, depth: nat, n: nat)
    requires h.lex(Line(KIf, c), w.store)
    ensures EvalStmt(h, IfElse(c, thn, m, els, e), w, depth, n + 1) ==
            Pick(IfChoice(h.cond(c, w.store), LexTo(h, thn, Line(KElse, m), w) && LexTo(h, els, Line(KEndIf, e), w)), w,
                 SkipElse(h, m, els, e, EvalBlock(h, thn, w, depth, n)),
                 Close(h, Line(KEndIf, e), EvalBlock(h, els, w, depth, n)))
  {
  }

  lemma {:induction false} SimIfElseStmt<S(!new)>(p: seq<Line>, h: Host<S>, f: Finder<S>,
                                                  k: (Config<S>, nat) -> Outcome<S>,
                                                  c: string, thn: Block, m: string, els: Block, e: string,
                                                  pos: nat, stack: seq<Frame>, w: World<S>, n: nat)
    requires Runs(p, h, f, k) && Inside(stack, pos) && Is(p, pos, Line(KIf, c))
    requires PlacedTo(p, pos + 1, thn, Line(KElse, m)) && PlacedTo(p, pos + 1 + Size(thn) + 1, els, Line(KEndIf, e))
    requires h.lex(Line(KIf, c), w.store)
    ensures Agrees(k, Config(pos, stack, w), n + 1, EvalStmt(h, IfElse(c, thn, m, els, e), w, |stack|, n + 1),
                   pos + 1 + Size(thn) + 1 + Size(els) + 1)
    decreases n + 1, IfElse(c, thn, m, els, e), 1, 1
  {
    EvalIfElse(h, c, thn, m, els, e, w, |stack|, n);
    SimIfElse(p, h, f, k, c, thn, m, els, e, pos, stack, w, n);
  }

  /** The taken `then` branch: at its end the `else` line jumps behind the `endif`. */
  lemma {:induction false} SimThenElse<S(!new)>(p: seq<Line>, h: Host<S>, f: Finder<S>,
                                                k: (Config<S>, nat) -> Outcome<S>,
                                                thn: Block, m: string, els: Block, e: string,
                                                pos: nat, stack: seq<Frame>, w: World<S>, n: nat)
    requires Runs(p, h, f, k) && Inside(stack, pos)
    requires PlacedTo(p, pos, thn, Line(KElse, m)) && PlacedTo(p, pos + Size(thn) + 1, els, Line(KEndIf, e))
    ensures Agrees(k, Config(pos, stack, w), n,
                   SkipElse(h, m, els, e, EvalBlock(h, thn, w, |stack|, n)), pos + Size(thn) + 1 + Size(els) + 1)
    decreases n, thn, 2
  {
    SimBlock(p, h, f, k, thn, pos, stack, w, n);
    var r := EvalBlock(h, thn, w, |stack|, n);
    if r.On? && r.signal == Normal {
      if Visit(h, Line(KElse, m), r.world, r.fuel).Some? {
        StepStuck(p, h, f, k, Line(KElse, m), Config(pos + Size(thn), stack, r.world), r.fuel);
      } else {
        StepElse(p, h, f, k, m, els, e, pos + Size(thn), stack, r.world, r.fuel);
      }
    }
  }

  lemma {:induction false} SimWhile<S(!new)>(p: seq<Line>, h: Host<S>, f: Finder<S>, k: (Config<S>, nat) -> Outcome<S>,
                                             c: string, body: Block, e: string,
                                             pos: nat, stack: seq<Frame>, w: World<S>, n: nat)
    requires Runs(p, h, f, k) && Inside(stack, pos)
    requires Is(p, pos, Line(KWhile, c)) && PlacedTo(p, pos + 1, body, Line(KEndWhile, e))
    requires h.lex(Line(KWhile, c), w.store)
    ensures Agrees(k, Config(pos, stack, w), n + 1, EvalStmt(h, Loop(LoopWhile, c, body, e), w, |stack|, n + 1),
                   pos + 1 + Size(body) + 1)
    decreases n + 1, Loop(LoopWhile, c, body, e), 1
  {
    StepWhile(p, h, f, k, c, body, e, pos, stack, w, n);
    SimPassWhile(p, h, f, k, c, body, e, pos, stack, w, n);
  }

  /** A pass of a `while` body with the loop's own frame on top of the stack. */
  lemma {:induction false} SimPassWhile<S(!new)>(p: seq<Line>, h: Host<S>, f: Finder<S>,
                                                 k: (Config<S>, nat) -> Outcome<S>,
                                                 c: string, body: Block, e: string,
                                                 pos: nat, stack: seq<Frame>, w: World<S>, n: nat)
    requires Runs(p, h, f, k)
    requires Is(p, pos, Line(KWhile, c)) && PlacedTo(p, pos + 1, body, Line(KEndWhile, e))
    ensures k(Config(pos + 1, stack + [LoopFrame(LoopWhile, pos, Size(body), 0)], w), n) ==
            Resume(k, EvalPassWhile(h, c, body, e, w, |stack|, n), pos + 1 + Size(body) + 1, stack)
    decreases n, body, 3
  {
    var own := stack + [LoopFrame(LoopWhile, pos, Size(body), 0)];
    SimBlock(p, h, f, k, body, pos + 1, own, w, n);
    assert own[..|own| - 1] == stack;
    var r := EvalBlock(h, body, w, |stack| + 1, n);
    if r.On? && r.signal != Broke {
      SimEndWhile(p, h, f, k, e, Size(body), pos, stack, own, r);
      var r' := Close(h, Line(KEndWhile, e), r);
      if r'.On? {
        if Visit(h, Line(KWhile, c), r'.world, r'.fuel).Some? {
          StepStuck(p, h, f, k, Line(KWhile, c), Config(pos, own, r'.world), r'.fuel);
        } else {
          StepWhileAgain(p, h, f, k, c, Size(body), pos, stack, own, r'.world, r'.fuel);
          SimPassWhile(p, h, f, k, c, body, e, pos, stack, r'.world, r'.fuel - 1);
        }
      }
    }
  }

  /** From the end of a `while` body, or from a `continue` in it, back to the test. */
  lemma {:induction false} SimEndWhile<S(!new)>(p: seq<Line>, h: Host<S>, f: Finder<S>,
                                                k: (Config<S>, nat) -> Outcome<S>, e: string, len: nat,
                                                pos: nat, stack: seq<Frame>, own: seq<Frame>, r: Eval<S>)
    requires Runs(p, h, f, k) && Is(p, pos + 1 + len, Line(KEndWhile, e))
    requires own == stack + [LoopFrame(LoopWhile, pos, len, 0)]
    requires r.On? && r.signal != Broke
    ensures var r' := Close(h, Line(KEndWhile, e), r);
            Resume(k, r, pos + 1 + len, own) ==
            (match r' case Over(o) => o case On(_, w, n) => k(Config(pos, own, w), n))
  {
    if r.signal == Normal {
      if Visit(h, Line(KEndWhile, e), r.world, r.fuel).Some? {
        StepStuck(p, h, f, k, Line(KEndWhile, e), Config(pos + 1 + len, own, r.world), r.fuel);
      } else {
        StepEndWhile(p, h, f, k, e, len, pos, stack, own, r.world, r.fuel);
      }
    }
  }

  lemma {:induction false} SimRepeat<S(!new)>(p: seq<Line>, h: Host<S>, f: Finder<S>, k: (Config<S>, nat) -> Outcome<S>,
                                              c: string, body: Block, e: string,
                                              pos: nat, stack: seq<Frame>, w: World<S>, n: nat)
    requires Runs(p, h, f, k)
    requires Is(p, pos, Line(KRepeat, c)) && PlacedTo(p, pos + 1, body, Line(KEndRepeat, e))
    requires h.lex(Line(KRepeat, c), w.store)
    ensures Agrees(k, Config(pos, stack, w), n + 1, EvalStmt(h, Loop(LoopRepeat, c, body, e), w, |stack|, n + 1),
                   pos + 1 + Size(body) + 1)
    decreases n + 1, Loop(LoopRepeat, c, body, e), 1
  {
    var choice := RepeatChoice(h.count(c, w.store), LexTo(h, body, Line(KEndRepeat, e), w), |stack|);
    StepRepeat(p, h, f, k, c, body, e, pos, stack, w, n, choice);
    if choice.Enter? {
      SimPasses(p, h, f, k, choice.passes, body, e, pos, stack, w, n);
    }
  }

  /** A pass of a `repeat` body with the loop's own frame, holding the passes left, on top. */
  lemma {:induction false} SimPasses<S(!new)>(p: seq<Line>, h: Host<S>, f: Finder<S>, k: (Config<S>, nat) -> Outcome<S>,
                                              left: nat, body: Block, e: string,
                                              pos: nat, stack: seq<Frame>, w: World<S>, n: nat)
    requires Runs(p, h, f, k)
    requires left > 0 && PlacedTo(p, pos + 1, body, Line(KEndRepeat, e))
    ensures k(Config(pos + 1, stack + [LoopFrame(LoopRepeat, pos, Size(body), left)], w), n) ==
            Resume(k, EvalPasses(h, left, body, e, w, |stack|, n), pos + 1 + Size(body) + 1, stack)
    decreases n, body, 2
  {
    var own := stack + [LoopFrame(LoopRepeat, pos, Size(body), left)];
    SimBlock(p, h, f, k, body, pos + 1, own, w, n);
    assert own[..|own| - 1] == stack;
    var r := EvalBlock(h, body, w, |stack| + 1, n);
    if r.On? && r.signal != Broke {
      if Visit(h, Line(KEndRepeat, e), r.world, r.fuel).Some? {
        StepStuck(p, h, f, k, Line(KEndRepeat, e), Config(pos + 1 + Size(body), own, r.world), r.fuel);
      } else {
        StepEndRepeat(p, h, f, k, e, Size(body), left, pos, stack, own, r.world, r.fuel);
        if left > 1 {
          SimPasses(p, h, f, k, left - 1, body, e, pos, stack, r.world, r.fuel - 1);
        }
      }
    }
  }

  /** The main theorem: for every nested program, every host, every start and every step budget,
      the interpreter's run of the script file is the structured run of the program: same commands
      in the same order, same final store, same status or failure. */
  lemma {:induction false} MachineIsStructured<S(!new)>(h: Host<S>, b: Block, w: World<S>, fuel: nat)
    ensures Run(Flatten(b), h, Config(0, [], w), fuel) == EvalProgram(h, b, w, fuel)
  {
    var p := Flatten(b);
    var k := (c: Config<S>, f: nat) => Run(p, h, c, f);
    FlattenIsPlaced([], b, []);
    assert [] + p + [] == p;
    SizeIsLength(b);
    var f := Scanner(p, h);
    RunRuns(p, h);
    SimBlock(p, h, f, k, b, 0, [], w, fuel);
  }

  lemma {:induction false} MachineIsStructuredFor<S(!new)>(p: seq<Line>, h: Host<S>, w: World<S>, fuel: nat)
    ensures forall b: Block :: p == Flatten(b) ==> Run(p, h, Config(0, [], w), fuel) == EvalProgram(h, b, w, fuel)
  {
    forall b: Block | p == Flatten(b) ensures Run(p, h, Config(0, [], w), fuel) == EvalProgram(h, b, w, fuel) {
      MachineIsStructured(h, b, w, fuel);
    }
  }

  /** A pass through a loop body from `w` with `fuel` steps left, to `v` with `rest`. */
  ghost predicate OnePass<S>(h: Host<S>, body: Block, depth: nat, w: World<S>, fuel: nat, v: World<S>, rest: nat)
  {
    var r := EvalBlock(h, body, w, depth + 1, fuel);
    r.On? && r.signal != Broke && r.world == v && r.fuel == rest + 1
  }

  /** The passes of a loop: each starts where the one before ended. */
  ghost predicate Passes<S>(h: Host<S>, body: Block, depth: nat, worlds: seq<World<S>>, fuels: seq<nat>)
  {
    && |worlds| == |fuels|
    && forall i :: 0 <= i < |worlds| - 1 ==>
         OnePass(h, body, depth, worlds[i], fuels[i], worlds[i + 1], fuels[i + 1])
  }

  lemma {:induction false} PassesMore<S(!new)>(h: Host<S>, body: Block, depth: nat, w: World<S>, fuel: nat,
                                               worlds: seq<World<S>>, fuels: seq<nat>)
    requires Passes(h, body, depth, worlds, fuels) && worlds != []
    requires OnePass(h, body, depth, w, fuel, worlds[0], fuels[0])
    ensures Passes(h, body, depth, [w] + worlds, [fuel] + fuels)
  {
    var ws, fs := [w] + worlds, [fuel] + fuels;
    forall i | 0 <= i < |ws| - 1 ensures OnePass(h, body, depth, ws[i], fs[i], ws[i + 1], fs[i + 1]) {
      assert i > 0 ==> OnePass(h, body, depth, worlds[i - 1], fuels[i - 1], worlds[i], fuels[i]);
    }
  }

  /** A `repeat n` that is completed has made exactly `n` passes, each from the world the one before
      left, unless a pass broke out; then it ends with what that pass left. */
  lemma {:induction false} ExactlyNPasses<S(!new)>(h: Host<S>, n: nat, body: Block, e: string, w: World<S>,
                                                   depth: nat, fuel: nat)
      returns (worlds: seq<World<S>>, fuels: seq<nat>)
    requires n > 0 && EvalPasses(h, n, body, e, w, depth, fuel).On?
    ensures Passes(h, body, depth, worlds, fuels) && worlds != [] && worlds[0] == w && fuels[0] == fuel
    ensures var r, k := EvalPasses(h, n, body, e, w, depth, fuel), |worlds| - 1;
            || (k == n && r == On(Normal, worlds[n], fuels[n]))
            || (k < n && EvalBlock(h, body, worlds[k], depth + 1, fuels[k]) == On(Broke, r.world, r.fuel))
    decreases n
  {
    worlds, fuels := [w], [fuel];
    var r := EvalBlock(h, body, w, depth + 1, fuel);
    if r.signal != Broke {
      var v, rest := r.world, r.fuel - 1;
      if n == 1 {
        worlds, fuels := [v], [rest];
      } else {
        worlds, fuels := ExactlyNPasses(h, n - 1, body, e, v, depth, rest);
      }
      PassesMore(h, body, depth, w, fuel, worlds, fuels);
      worlds, fuels := [w] + worlds, [fuel] + fuels;
    }
  }
}
