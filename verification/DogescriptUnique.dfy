/** A script file is the text of at most one nested program. */
module DogescriptUnique {
  import opened DogescriptSyntax

  /** The line ends a block from outside. */
  predicate Closing(l: Line)
  {
    l.kw.KElse? || l.kw.KEndIf? || l.kw.KEndWhile? || l.kw.KEndRepeat?
  }

  /** A block cannot go on into these lines. */
  predicate Stops(ls: seq<Line>)
  {
    ls == [] || Closing(ls[0])
  }

  lemma {:induction false} FirstLineOpens(s: Stmt)
    ensures FlattenStmt(s) != [] && FlattenStmt(s)[0] == FirstLine(s) && !Closing(FirstLine(s))
  {
  }

  /** A wrapped block in front of other lines: its first line, and what follows. */
  lemma {:induction false} Opened(first: Line, b: seq<Line>, l: Line, x: seq<Line>)
    ensures [first] + b + [l] + x == [first] + (b + ([l] + x))
    ensures ([first] + b + [l] + x)[0] == first && ([first] + b + [l] + x)[1..] == b + ([l] + x)
  {
  }

  lemma {:induction false} OpenedTwice(first: Line, b: seq<Line>, m: Line, c: seq<Line>, l: Line, x: seq<Line>)
    ensures ([first] + b + [m] + c + [l] + x)[0] == first
    ensures ([first] + b + [m] + c + [l] + x)[1..] == b + ([m] + (c + ([l] + x)))
  {
  }

  /** What stands behind the first line of a statement: a block up to a closing line, and more. */
  function Behind(s: Stmt, x: seq<Line>): (ls: seq<Line>)
  {
    match s
    case Simple(_, _) => x
    case If(_, thn, e) => Flatten(thn) + ([Line(KEndIf, e)] + x)
    case IfElse(_, thn, m, els, e) => Flatten(thn) + ([Line(KElse, m)] + (Flatten(els) + ([Line(KEndIf, e)] + x)))
    case Loop(k, _, body, e) => Flatten(body) + ([Line(Closer(k), e)] + x)
  }

  lemma {:induction false} FlattenOpens(s: Stmt, x: seq<Line>)
    ensures FlattenStmt(s) + x != [] && (FlattenStmt(s) + x)[0] == FirstLine(s)
    ensures (FlattenStmt(s) + x)[1..] == Behind(s, x)
  {
    match s
    case Simple(_, _) =>
    case If(_, thn, e) => Opened(FirstLine(s), Flatten(thn), Line(KEndIf, e), x);
    case IfElse(_, thn, m, els, e) =>
      OpenedTwice(FirstLine(s), Flatten(thn), Line(KElse, m), Flatten(els), Line(KEndIf, e), x);
    case Loop(k, _, body, e) => Opened(FirstLine(s), Flatten(body), Line(Closer(k), e), x);
  }

  lemma {:induction false} SameTail(l: Line, x: seq<Line>, m: Line, y: seq<Line>)
    requires [l] + x == [m] + y
    ensures l == m && x == y
  {
    assert ([l] + x)[0] == l && ([m] + y)[0] == m;
    assert ([l] + x)[1..] == x && ([m] + y)[1..] == y;
  }

  /** One closed block in front of lines can be read in one way only. */
  lemma {:induction false} UniqueClosed(a: Block, l: Line, x: seq<Line>, b: Block, m: Line, y: seq<Line>)
    requires Flatten(a) + ([l] + x) == Flatten(b) + ([m] + y) && Closing(l) && Closing(m)
    ensures a == b && l == m && x == y
    decreases a, 1
  {
    UniqueBlock(a, [l] + x, b, [m] + y);
    SameTail(l, x, m, y);
  }

  lemma {:induction false} UniqueBlock(a: Block, x: seq<Line>, b: Block, y: seq<Line>)
    requires Flatten(a) + x == Flatten(b) + y && Stops(x) && Stops(y)
    ensures a == b && x == y
    decreases a, 0
  {
    assert a.Empty? ==> Flatten(a) + x == x;
    assert b.Empty? ==> Flatten(b) + y == y;
    if a.Then? {
      Regrouped(a, x);
      FlattenOpens(a.head, Flatten(a.tail) + x);
      FirstLineOpens(a.head);
    }
    if b.Then? {
      Regrouped(b, y);
      FlattenOpens(b.head, Flatten(b.tail) + y);
      FirstLineOpens(b.head);
    }
    if a.Then? && b.Then? {
      UniqueStmt(a.head, Flatten(a.tail) + x, b.head, Flatten(b.tail) + y);
      UniqueBlock(a.tail, x, b.tail, y);
    }
  }

  lemma {:induction false} Regrouped(b: Block, x: seq<Line>)
    requires b.Then?
    ensures Flatten(b) + x == FlattenStmt(b.head) + (Flatten(b.tail) + x)
  {
  }

  lemma {:induction false} UniqueStmt(s: Stmt, x: seq<Line>, t: Stmt, y: seq<Line>)
    requires FlattenStmt(s) + x == FlattenStmt(t) + y
    ensures s == t && x == y
    decreases s, 1
  {
    FlattenOpens(s, x);
    FlattenOpens(t, y);
    SameOpening(s, t);
    match s
    case Simple(_, _) =>
    case If(_, a, e) => UniqueIf(a, e, x, t, y);
    case IfElse(c, a, m, b, e) => UniqueIfElse(c, a, m, b, e, x, t, y);
    case Loop(k, _, a, e) => UniqueClosed(a, Line(Closer(k), e), x, t.body, Line(Closer(k), t.close), y);
  }

  /** The first line tells the kind of a statement, but for the two kinds of `if`. */
  lemma {:induction false} SameOpening(s: Stmt, t: Stmt)
    requires FirstLine(s) == FirstLine(t)
    ensures s.Simple? ==> s == t
    ensures s.Loop? ==> t.Loop? && t.kind == s.kind && t.test == s.test
    ensures s.If? || s.IfElse? ==> (t.If? || t.IfElse?) && t.cond == s.cond
  {
  }

  lemma {:induction false} UniqueIf(a: Block, e: string, x: seq<Line>, t: Stmt, y: seq<Line>)
    requires (t.If? || t.IfElse?) && Flatten(a) + ([Line(KEndIf, e)] + x) == Behind(t, y)
    ensures t.If? && t.thn == a && t.close == e && x == y
    decreases a, 2
  {
    match t
    case If(_, b, f) => UniqueClosed(a, Line(KEndIf, e), x, b, Line(KEndIf, f), y);
    case IfElse(_, b, m, c, f) =>
      UniqueClosed(a, Line(KEndIf, e), x, b, Line(KElse, m), Flatten(c) + ([Line(KEndIf, f)] + y));
  }

  lemma {:induction false} UniqueIfElse(c: string, a: Block, m: string, b: Block, e: string, x: seq<Line>,
                                        t: Stmt, y: seq<Line>)
    requires t.If? || t.IfElse?
    requires Flatten(a) + ([Line(KElse, m)] + (Flatten(b) + ([Line(KEndIf, e)] + x))) == Behind(t, y)
    ensures t.IfElse? && t.thn == a && t.mid == m && t.els == b && t.close == e && x == y
    decreases IfElse(c, a, m, b, e), 0
  {
    var rest := Flatten(b) + ([Line(KEndIf, e)] + x);
    match t
    case If(_, a', f) => UniqueClosed(a, Line(KElse, m), rest, a', Line(KEndIf, f), y);
    case IfElse(_, a', n, d, f) =>
      UniqueClosed(a, Line(KElse, m), rest, a', Line(KElse, n), Flatten(d) + ([Line(KEndIf, f)] + y));
      UniqueClosed(b, Line(KEndIf, e), x, d, Line(KEndIf, f), y);
  }

  /** Two programs with the same script file are the same program. */
  lemma {:induction false} FlattenInjective(a: Block, b: Block)
    requires Flatten(a) == Flatten(b)
    ensures a == b
  {
    assert Flatten(a) + [] == Flatten(a) && Flatten(b) + [] == Flatten(b);
    UniqueBlock(a, [], b, []);
  }
}
