/** Every line without separators and without unfinished quotes is a line of words spelled in
    pieces. */
module DogeshellSpelling {
  import opened Basics
  import opened ShellQuotes
  import opened DogeshellLine
  import opened DogeshellWords

  /** From `i` on, where quote `q` is open, the scanner finds no separator and no error. */
  predicate Passes(line: string, i: nat, q: Quote)
  {
    i <= |line| && Separators(line, i, q) == Some([])
  }

  lemma {:induction false} Joins(line: string, i: nat, j: nat, k: nat)
    requires i <= j <= k <= |line|
    ensures line[i..k] == line[i..j] + line[j..k]
  {
  }

  lemma {:induction false} JoinsAll(line: string, i: nat, j: nat, m: nat)
    requires i <= j <= m <= |line|
    ensures line[i..] == line[i..j] + (line[j..m] + line[m..])
  {
  }

  /** The atom in front. */
  lemma {:induction false} SpellAtom(line: string, i: nat, q: Quote) returns (a: Atom, j: nat)
    requires i < |line| && !q.Single? && Passes(line, i, q)
    requires if q.Bare? then !Blank(line[i]) && !Opens(line[i]) else line[i] != '"'
    ensures i < j <= |line| && line[i..j] == AtomText(a) && AtomFine(a, q) && Passes(line, j, q)
  {
    if line[i] == '\\' {
      a, j := Slashed(line[i + 1]), i + 2;
    } else {
      a, j := Plain(line[i]), i + 1;
    }
  }

  lemma {:induction false} AtomsFirst(a: Atom, atoms: seq<Atom>, q: Quote)
    requires AtomFine(a, q) && AtomsFine(atoms, q)
    ensures AtomsFine([a] + atoms, q) && AtomsText([a] + atoms) == AtomText(a) + AtomsText(atoms)
  {
    assert ([a] + atoms)[1..] == atoms;
  }

  /** The atoms up to the closing quote. */
  lemma {:induction false} SpellAtoms(line: string, i: nat) returns (atoms: seq<Atom>, j: nat)
    requires Passes(line, i, Double)
    ensures i <= j < |line| && line[j] == '"' && line[i..j] == AtomsText(atoms) && AtomsFine(atoms, Double)
    ensures Passes(line, j + 1, Bare)
    decreases |line| - i
  {
    if line[i] == '"' {
      atoms, j := [], i;
    } else {
      var a, m := SpellAtom(line, i, Double);
      atoms, j := SpellAtoms(line, m);
      Joins(line, i, m, j);
      AtomsFirst(a, atoms, Double);
      atoms := [a] + atoms;
    }
  }

  /** The text up to the closing apostrophe. */
  lemma {:induction false} SpellText(line: string, i: nat) returns (text: string, j: nat)
    requires Passes(line, i, Quote.Single)
    ensures i <= j < |line| && line[j] == '\'' && line[i..j] == text && PieceFine(Apostrophes(text))
    ensures Passes(line, j + 1, Bare)
    decreases |line| - i
  {
    if line[i] == '\'' {
      text, j := "", i;
    } else {
      text, j := SpellText(line, i + 1);
      Joins(line, i, i + 1, j);
      text := [line[i]] + text;
    }
  }

  lemma {:induction false} InMarks(line: string, i: nat, j: nat, mark: char)
    requires i < j < |line| && line[i] == mark && line[j] == mark
    ensures line[i..j + 1] == [mark] + line[i + 1..j] + [mark]
  {
  }

  lemma {:induction false} SpellQuotes(line: string, i: nat) returns (p: Piece, j: nat)
    requires i < |line| && line[i] == '"' && Passes(line, i, Bare)
    ensures i < j <= |line| && line[i..j] == PieceText(p) && PieceFine(p) && Passes(line, j, Bare)
  {
    var atoms, m := SpellAtoms(line, i + 1);
    InMarks(line, i, m, '"');
    p, j := Quotes(atoms), m + 1;
  }

  lemma {:induction false} SpellApostrophes(line: string, i: nat) returns (p: Piece, j: nat)
    requires i < |line| && line[i] == '\'' && Passes(line, i, Bare)
    ensures i < j <= |line| && line[i..j] == PieceText(p) && PieceFine(p) && Passes(line, j, Bare)
  {
    var text, m := SpellText(line, i + 1);
    InMarks(line, i, m, '\'');
    p, j := Apostrophes(text), m + 1;
  }

  /** The piece in front. */
  lemma {:induction false} SpellPiece(line: string, i: nat) returns (p: Piece, j: nat)
    requires i < |line| && !Blank(line[i]) && Passes(line, i, Bare)
    ensures i < j <= |line| && line[i..j] == PieceText(p) && PieceFine(p) && Passes(line, j, Bare)
  {
    if line[i] == '"' {
      p, j := SpellQuotes(line, i);
    } else if line[i] == '\'' {
      p, j := SpellApostrophes(line, i);
    } else {
      var a, m := SpellAtom(line, i, Bare);
      p, j := One(a), m;
    }
  }

  lemma {:induction false} PiecesFirst(p: Piece, ps: seq<Piece>)
    requires PieceFine(p) && WordFine(ps)
    ensures WordFine([p] + ps) && WordText([p] + ps) == PieceText(p) + WordText(ps)
  {
    assert ([p] + ps)[1..] == ps;
  }

  /** The pieces up to a blank or the end. */
  lemma {:induction false} SpellWord(line: string, i: nat) returns (ps: seq<Piece>, j: nat)
    requires Passes(line, i, Bare)
    ensures i <= j <= |line| && line[i..j] == WordText(ps) && WordFine(ps) && Passes(line, j, Bare)
    ensures (j < |line| ==> Blank(line[j])) && (i < |line| && !Blank(line[i]) ==> i < j && ps != [])
    decreases |line| - i
  {
    if i == |line| || Blank(line[i]) {
      ps, j := [], i;
    } else {
      var p, m := SpellPiece(line, i);
      ps, j := SpellWord(line, m);
      Joins(line, i, m, j);
      PiecesFirst(p, ps);
      ps := [p] + ps;
    }
  }

  /** The blanks in front. */
  lemma {:induction false} SpellGap(line: string, i: nat) returns (j: nat)
    requires Passes(line, i, Bare)
    ensures i <= j <= |line| && Blanks(line[i..j]) && (j < |line| ==> !Blank(line[j])) && Passes(line, j, Bare)
    ensures i < |line| && Blank(line[i]) ==> i < j
    decreases |line| - i
  {
    if i < |line| && Blank(line[i]) {
      j := SpellGap(line, i + 1);
      Joins(line, i, i + 1, j);
    } else {
      j := i;
    }
  }

  lemma {:induction false} LineFirst(gap: string, ps: seq<Piece>, ws: seq<Spelled>, tail: string, apart: bool)
    requires Blanks(gap) && (apart ==> gap != "") && ps != [] && WordFine(ps) && LineFine(ws, tail, true)
    ensures var all := [Spelled(gap, ps)] + ws;
            LineFine(all, tail, apart) && LineText(all, tail) == gap + (WordText(ps) + LineText(ws, tail))
  {
    assert ([Spelled(gap, ps)] + ws)[1..] == ws;
  }

  lemma {:induction false} SpellLine(line: string, i: nat, apart: bool) returns (ws: seq<Spelled>, tail: string)
    requires Passes(line, i, Bare) && (apart && i < |line| ==> Blank(line[i]))
    ensures LineFine(ws, tail, apart) && line[i..] == LineText(ws, tail)
    decreases |line| - i
  {
    var j := SpellGap(line, i);
    if j == |line| {
      ws, tail := [], line[i..];
      assert line[i..] == line[i..j];
    } else {
      var ps, m := SpellWord(line, j);
      ws, tail := SpellLine(line, m, true);
      LineFirst(line[i..j], ps, ws, tail, apart);
      ws := [Spelled(line[i..j], ps)] + ws;
      JoinsAll(line, i, j, m);
    }
  }

  ghost predicate IsLine(line: string, ws: seq<Spelled>, tail: string)
  {
    LineFine(ws, tail, false) && line == LineText(ws, tail)
  }

  /** The scanner finds no separator and no error exactly in lines of words spelled in pieces. */
  lemma {:induction false} SpelledIff(line: string)
    ensures Separators(line, 0, Bare) == Some([]) <==> exists ws, tail :: IsLine(line, ws, tail)
  {
    if Separators(line, 0, Bare) == Some([]) {
      var ws, tail := SpellLine(line, 0, false);
      assert line[0..] == line;
      assert IsLine(line, ws, tail);
    }
    if ws, tail :| IsLine(line, ws, tail) {
      assert line[0..|line|] == line;
      ScanLine(line, 0, ws, tail, false);
    }
  }
}
