/** What words of a line are read as: a word is spelled in pieces, and is read as their values. */
module DogeshellWords {
  import opened Basics
  import opened ShellQuotes
  import opened DogeshellLine
  import opened DogeshellRun
  import opened DogeshellQuoting

  /** A character as it is, or one behind a backslash. */
  datatype Atom = Plain(c: char) | Slashed(c: char)

  /** An atom outside quotes, text between apostrophes, or atoms between double quotes. */
  datatype Piece = One(atom: Atom) | Apostrophes(text: string) | Quotes(atoms: seq<Atom>)

  function AtomText(a: Atom): (s: string)
    ensures s != ""
  {
    if a.Plain? then [a.c] else ['\\', a.c]
  }

  /** The atom may stand in quote `q`. */
  predicate AtomFine(a: Atom, q: Quote)
  {
    a.Plain? ==> a.c != '\\' && (if q.Double? then a.c != '"' else !Blank(a.c) && !Opens(a.c) && a.c != ';')
  }

  function AtomsText(atoms: seq<Atom>): (s: string)
  {
    if atoms == [] then "" else AtomText(atoms[0]) + AtomsText(atoms[1..])
  }

  function AtomsValue(atoms: seq<Atom>): (s: string)
  {
    if atoms == [] then "" else [atoms[0].c] + AtomsValue(atoms[1..])
  }

  predicate AtomsFine(atoms: seq<Atom>, q: Quote)
  {
    forall k :: 0 <= k < |atoms| ==> AtomFine(atoms[k], q)
  }

  function PieceText(p: Piece): (s: string)
    ensures s != ""
  {
    match p
    case One(a) => AtomText(a)
    case Apostrophes(text) => "'" + text + "'"
    case Quotes(atoms) => "\"" + AtomsText(atoms) + "\""
  }

  function PieceValue(p: Piece): (s: string)
  {
    match p
    case One(a) => [a.c]
    case Apostrophes(text) => text
    case Quotes(atoms) => AtomsValue(atoms)
  }

  predicate PieceFine(p: Piece)
  {
    match p
    case One(a) => AtomFine(a, Bare)
    case Apostrophes(text) => forall k :: 0 <= k < |text| ==> text[k] != '\''
    case Quotes(atoms) => AtomsFine(atoms, Double)
  }

  function WordText(ps: seq<Piece>): (s: string)
    ensures ps != [] ==> s != ""
  {
    if ps == [] then "" else PieceText(ps[0]) + WordText(ps[1..])
  }

  /** What the word is read as. */
  function WordValue(ps: seq<Piece>): (s: string)
  {
    if ps == [] then "" else PieceValue(ps[0]) + WordValue(ps[1..])
  }

  predicate WordFine(ps: seq<Piece>)
  {
    ps == [] || (PieceFine(ps[0]) && WordFine(ps[1..]))
  }

  // ----- words -----

  lemma {:induction false} JoinedTwice(t: string, u: string, w: Option<Word>)
    ensures Joined(t, Joined(u, w)) == Joined(t + u, w)
  {
    if w.Some? {
      assert t + (u + w.value.text) == t + u + w.value.text;
    }
  }

  lemma {:induction false} ReadAtom(line: string, i: nat, a: Atom, q: Quote, end: nat)
    requires !q.Single? && AtomFine(a, q) && At(line, i, AtomText(a)) && end == i + |AtomText(a)|
    ensures WordAt(line, i, q) == Joined([a.c], WordAt(line, end, q))
    ensures Separators(line, i, q) == Separators(line, end, q)
  {
    AtHead(line, i, AtomText(a));
  }

  lemma {:induction false} AtParts(line: string, i: nat, t: string, u: string, j: nat)
    requires At(line, i, t + u) && j == i + |t|
    ensures At(line, i, t) && At(line, j, u)
  {
    AtSplit(line, i, t, u);
  }

  lemma {:induction false} ReadAtomThen(line: string, i: nat, a: Atom, q: Quote, end: nat, v: string, w: Option<Word>)
    requires !q.Single? && AtomFine(a, q) && At(line, i, AtomText(a)) && end == i + |AtomText(a)|
    requires WordAt(line, end, q) == Joined(v, w)
    ensures WordAt(line, i, q) == Joined([a.c] + v, w)
  {
    ReadAtom(line, i, a, q, end);
    JoinedTwice([a.c], v, w);
  }

  lemma {:induction false} ReadAtoms(line: string, i: nat, atoms: seq<Atom>, q: Quote, end: nat, w: Option<Word>)
    requires !q.Single? && AtomsFine(atoms, q) && At(line, i, AtomsText(atoms)) && end == i + |AtomsText(atoms)|
    requires WordAt(line, end, q) == w
    ensures WordAt(line, i, q) == Joined(AtomsValue(atoms), w)
    decreases |atoms|
  {
    if atoms != [] {
      var a, more := atoms[0], atoms[1..];
      var j := i + |AtomText(a)|;
      AtParts(line, i, AtomText(a), AtomsText(more), j);
      ReadAtoms(line, j, more, q, end, w);
      ReadAtomThen(line, i, a, q, j, AtomsValue(more), w);
    }
  }

  lemma {:induction false} ScanAtoms(line: string, i: nat, atoms: seq<Atom>, q: Quote, end: nat)
    requires !q.Single? && AtomsFine(atoms, q) && At(line, i, AtomsText(atoms)) && end == i + |AtomsText(atoms)|
    ensures Separators(line, i, q) == Separators(line, end, q)
    decreases |atoms|
  {
    if atoms != [] {
      var a, more := atoms[0], atoms[1..];
      var j := i + |AtomText(a)|;
      AtParts(line, i, AtomText(a), AtomsText(more), j);
      ReadAtom(line, i, a, q, j);
      ScanAtoms(line, j, more, q, end);
    }
  }

  lemma {:induction false} ReadApostrophes(line: string, i: nat, text: string, end: nat, w: Option<Word>)
    requires (forall k :: 0 <= k < |text| ==> text[k] != '\'') && At(line, i, text) && end == i + |text|
    requires WordAt(line, end, Quote.Single) == w
    ensures WordAt(line, i, Quote.Single) == Joined(text, w)
    decreases |text|
  {
    if text != "" {
      var c, more := text[0], text[1..];
      assert text == [c] + more;
      AtSplit(line, i, [c], more);
      AtHead(line, i, [c]);
      ReadApostrophes(line, i + 1, more, end, w);
      JoinedFirst(c, more, w);
    }
  }

  lemma {:induction false} ScanApostrophes(line: string, i: nat, text: string, end: nat)
    requires (forall k :: 0 <= k < |text| ==> text[k] != '\'') && At(line, i, text) && end == i + |text|
    ensures Separators(line, i, Quote.Single) == Separators(line, end, Quote.Single)
    decreases |text|
  {
    if text != "" {
      var c, more := text[0], text[1..];
      assert text == [c] + more;
      AtSplit(line, i, [c], more);
      AtHead(line, i, [c]);
      ScanApostrophes(line, i + 1, more, end);
    }
  }

  /** Where a piece in quotes opens and closes. */
  lemma {:induction false} InQuotes(line: string, i: nat, mark: char, text: string, end: nat)
    requires At(line, i, [mark] + text + [mark]) && end == i + |text| + 2
    ensures i + 2 <= end <= |line| && line[i] == mark && line[end - 1] == mark && At(line, i + 1, text)
  {
    AtSplit(line, i, [mark] + text, [mark]);
    AtSplit(line, i, [mark], text);
    AtHead(line, i, [mark]);
    AtHead(line, end - 1, [mark]);
  }

  /** A piece is read as its value. */
  lemma {:induction false} ReadPiece(line: string, i: nat, p: Piece, end: nat, w: Option<Word>)
    requires PieceFine(p) && At(line, i, PieceText(p)) && end == i + |PieceText(p)| && WordAt(line, end, Bare) == w
    ensures WordAt(line, i, Bare) == Joined(PieceValue(p), w)
  {
    match p
    case One(a) => ReadAtom(line, i, a, Bare, end);
    case Apostrophes(text) =>
      InQuotes(line, i, '\'', text, end);
      assert WordAt(line, end - 1, Quote.Single) == w;
      ReadApostrophes(line, i + 1, text, end - 1, w);
    case Quotes(atoms) =>
      InQuotes(line, i, '"', AtomsText(atoms), end);
      assert WordAt(line, end - 1, Double) == w;
      ReadAtoms(line, i + 1, atoms, Double, end - 1, w);
  }

  /** The scanner passes over it. */
  lemma {:induction false} ScanPiece(line: string, i: nat, p: Piece, end: nat)
    requires PieceFine(p) && At(line, i, PieceText(p)) && end == i + |PieceText(p)|
    ensures Separators(line, i, Bare) == Separators(line, end, Bare)
  {
    match p
    case One(a) => ReadAtom(line, i, a, Bare, end);
    case Apostrophes(text) =>
      InQuotes(line, i, '\'', text, end);
      ScanApostrophes(line, i + 1, text, end - 1);
    case Quotes(atoms) =>
      InQuotes(line, i, '"', AtomsText(atoms), end);
      ScanAtoms(line, i + 1, atoms, Double, end - 1);
  }

  /** The first piece of a word: where the others are, and what the word is read as if those are
      read as `v`. */
  lemma {:induction false} ReadMore(line: string, i: nat, ps: seq<Piece>, v: string, w: Option<Word>)
      returns (j: nat)
    requires ps != [] && PieceFine(ps[0]) && At(line, i, WordText(ps))
    ensures At(line, j, WordText(ps[1..])) && i + |WordText(ps)| == j + |WordText(ps[1..])|
    ensures Separators(line, i, Bare) == Separators(line, j, Bare)
    ensures WordAt(line, j, Bare) == Joined(v, w) ==> WordAt(line, i, Bare) == Joined(PieceValue(ps[0]) + v, w)
  {
    j := i + |PieceText(ps[0])|;
    AtParts(line, i, PieceText(ps[0]), WordText(ps[1..]), j);
    ScanPiece(line, i, ps[0], j);
    if WordAt(line, j, Bare) == Joined(v, w) {
      ReadPiece(line, i, ps[0], j, Joined(v, w));
      JoinedTwice(PieceValue(ps[0]), v, w);
    }
  }

  lemma {:induction false} ReadPieces(line: string, i: nat, ps: seq<Piece>, end: nat, w: Option<Word>)
    requires WordFine(ps) && At(line, i, WordText(ps)) && end == i + |WordText(ps)| && WordAt(line, end, Bare) == w
    ensures WordAt(line, i, Bare) == Joined(WordValue(ps), w)
    decreases |ps|
  {
    if ps != [] {
      var j := ReadMore(line, i, ps, WordValue(ps[1..]), w);
      ReadPieces(line, j, ps[1..], end, w);
    }
  }

  lemma {:induction false} ScanPieces(line: string, i: nat, ps: seq<Piece>, end: nat)
    requires WordFine(ps) && At(line, i, WordText(ps)) && end == i + |WordText(ps)|
    ensures Separators(line, i, Bare) == Separators(line, end, Bare)
    decreases |ps|
  {
    if ps != [] {
      var j := ReadMore(line, i, ps, "", None);
      ScanPieces(line, j, ps[1..], end);
    }
  }

  lemma {:induction false} WordBegins(line: string, i: nat, ps: seq<Piece>)
    requires ps != [] && WordFine(ps) && At(line, i, WordText(ps))
    ensures i < |line| && !Blank(line[i])
  {
    AtSplit(line, i, PieceText(ps[0]), WordText(ps[1..]));
    AtHead(line, i, PieceText(ps[0]));
    assert PieceFine(ps[0]);
  }

  /** A word spelled in pieces is read as the values of its pieces, if a blank or the end follows
      it. */
  lemma {:induction false} ReadSpelled(line: string, i: nat, ps: seq<Piece>, end: nat)
    requires WordFine(ps) && At(line, i, WordText(ps)) && end == i + |WordText(ps)|
    requires end < |line| ==> Blank(line[end])
    ensures WordAt(line, i, Bare) == Some(Word(WordValue(ps), end))
  {
    ReadPieces(line, i, ps, end, Some(Word("", end)));
    assert WordValue(ps) + "" == WordValue(ps);
  }

  // ----- lines -----

  predicate Blanks(s: string)
  {
    forall k :: 0 <= k < |s| ==> Blank(s[k])
  }

  /** A word of a line, with the blanks in front of it. */
  datatype Spelled = Spelled(gap: string, pieces: seq<Piece>)

  function LineText(ws: seq<Spelled>, tail: string): (s: string)
  {
    if ws == [] then tail else ws[0].gap + (WordText(ws[0].pieces) + LineText(ws[1..], tail))
  }

  function Values(ws: seq<Spelled>): (vs: seq<string>)
    ensures |vs| == |ws|
  {
    if ws == [] then [] else [WordValue(ws[0].pieces)] + Values(ws[1..])
  }

  /** Blanks are between words, and may be before the first one and behind the last one. */
  predicate LineFine(ws: seq<Spelled>, tail: string, apart: bool)
  {
    if ws == [] then Blanks(tail)
    else Blanks(ws[0].gap) && (apart ==> ws[0].gap != "") && ws[0].pieces != [] && WordFine(ws[0].pieces) &&
         LineFine(ws[1..], tail, true)
  }

  lemma {:induction false} ReadGap(line: string, i: nat, gap: string, end: nat)
    requires Blanks(gap) && At(line, i, gap) && end == i + |gap|
    ensures SkipBlanks(line, i) == SkipBlanks(line, end)
    decreases |gap|
  {
    if gap != "" {
      var c, more := gap[0], gap[1..];
      assert gap == [c] + more;
      AtSplit(line, i, [c], more);
      AtHead(line, i, [c]);
      ReadGap(line, i + 1, more, end);
    }
  }

  lemma {:induction false} ScanGap(line: string, i: nat, gap: string, end: nat)
    requires Blanks(gap) && At(line, i, gap) && end == i + |gap|
    ensures Separators(line, i, Bare) == Separators(line, end, Bare)
    decreases |gap|
  {
    if gap != "" {
      var c, more := gap[0], gap[1..];
      assert gap == [c] + more;
      AtSplit(line, i, [c], more);
      AtHead(line, i, [c]);
      ScanGap(line, i + 1, more, end);
    }
  }

  lemma {:induction false} LineBegins(line: string, i: nat, ws: seq<Spelled>, tail: string)
    requires LineFine(ws, tail, true) && At(line, i, LineText(ws, tail)) && i + |LineText(ws, tail)| == |line|
    ensures i < |line| ==> Blank(line[i])
  {
    if i < |line| {
      AtHead(line, i, LineText(ws, tail));
    }
  }

  lemma {:induction false} ReadThen(line: string, i: nat, j: nat, ps: seq<Piece>, end: nat, rest: seq<string>)
    requires i <= j && ps != [] && WordFine(ps) && At(line, j, WordText(ps)) && end == j + |WordText(ps)|
    requires (end < |line| ==> Blank(line[end])) && SkipBlanks(line, i) == SkipBlanks(line, j)
    requires Words(line, end) == Some(rest)
    ensures Words(line, i) == Some([WordValue(ps)] + rest)
  {
    WordBegins(line, j, ps);
    ReadSpelled(line, j, ps, end);
    assert SkipBlanks(line, i) == j;
  }

  lemma {:induction false} LineSplit(line: string, i: nat, gap: string, word: string, rest: string, j: nat, end: nat)
    requires At(line, i, gap + (word + rest)) && j == i + |gap| && end == j + |word|
    ensures At(line, i, gap) && At(line, j, word) && At(line, end, rest)
  {
    AtParts(line, i, gap, word + rest, j);
    AtParts(line, j, word, rest, end);
  }

  /** A line of words, spelled in any mix of pieces, is read as the values of those words. */
  lemma {:induction false} ReadLine(line: string, i: nat, ws: seq<Spelled>, tail: string, apart: bool)
    requires LineFine(ws, tail, apart) && At(line, i, LineText(ws, tail)) && i + |LineText(ws, tail)| == |line|
    ensures Words(line, i) == Some(Values(ws))
    decreases |ws|
  {
    if ws == [] {
      ReadGap(line, i, tail, |line|);
    } else {
      var j := i + |ws[0].gap|;
      var end := j + |WordText(ws[0].pieces)|;
      LineSplit(line, i, ws[0].gap, WordText(ws[0].pieces), LineText(ws[1..], tail), j, end);
      ReadGap(line, i, ws[0].gap, j);
      ReadLine(line, end, ws[1..], tail, true);
      LineBegins(line, end, ws[1..], tail);
      ReadThen(line, i, j, ws[0].pieces, end, Values(ws[1..]));
    }
  }

  /** It holds no separator. */
  lemma {:induction false} ScanLine(line: string, i: nat, ws: seq<Spelled>, tail: string, apart: bool)
    requires LineFine(ws, tail, apart) && At(line, i, LineText(ws, tail)) && i + |LineText(ws, tail)| == |line|
    ensures Separators(line, i, Bare) == Some([])
    decreases |ws|
  {
    if ws == [] {
      ScanGap(line, i, tail, |line|);
    } else {
      var j := i + |ws[0].gap|;
      var end := j + |WordText(ws[0].pieces)|;
      LineSplit(line, i, ws[0].gap, WordText(ws[0].pieces), LineText(ws[1..], tail), j, end);
      ScanGap(line, i, ws[0].gap, j);
      ScanPieces(line, j, ws[0].pieces, end);
      ScanLine(line, end, ws[1..], tail, true);
    }
  }

  /** A line of words, spelled in any mix of pieces, runs one command on their values, if the line
      and its words are not too many for the shell. */
  lemma {:induction false} RunsSpelled<S>(h: Host<S>, ws: seq<Spelled>, tail: string, s: S)
    requires ws != [] && LineFine(ws, tail, false) && !h.exits(s)
    ensures var line := LineText(ws, tail);
            Run(h, line, s)
            == if |line| >= LINE_SIZE || |ws| > ARGUMENT_COUNT then Outcome(s, 2)
               else var r := h.execute(s, Values(ws)); Outcome(r.0, r.1)
  {
    var line := LineText(ws, tail);
    assert line[0..|line|] == line && line[..|line|] == line;
    ReadLine(line, 0, ws, tail, false);
    ScanLine(line, 0, ws, tail, false);
  }
}
