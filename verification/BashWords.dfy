/** What words of a line are read as: a word is spelled in pieces, and is read as their values. */
module BashWords {
  import opened Basics
  import opened ShellQuotes
  import opened BashLexer
  import opened BashRun
  import opened BashLists
  import opened BashQuoting

  /** A character as it is, one behind a backslash, or a variable. */
  datatype Atom = Plain(c: char) | Escape(c: char) | Variable(name: string, braced: bool)

  /** An atom outside quotes, text between apostrophes, or atoms between double quotes. */
  datatype Piece = One(atom: Atom) | Apostrophes(text: string) | Quotes(atoms: seq<Atom>)

  function AtomText(a: Atom): (s: string)
    ensures s != ""
  {
    match a
    case Plain(c) => [c]
    case Escape(c) => ['\\', c]
    case Variable(name, braced) => if braced then "${" + name + "}" else "$" + name
  }

  function AtomValue(env: string -> string, a: Atom): (s: string)
  {
    match a
    case Plain(c) => [c]
    case Escape(c) => [c]
    case Variable(name, _) => env(name)
  }

  /** What may follow a dollar sign for a name to begin. */
  predicate Names(s: string)
  {
    s != "" && (s[0] == '?' || s[0] == '{' || NameStart(s[0]))
  }

  /** A name of any length, as it may stand without braces. */
  predicate AnyName(s: string)
  {
    s != "" && NameStart(s[0]) && forall k :: 1 <= k < |s| ==> NameChar(s[k])
  }

  /** The atom may stand in quote `q`, in front of `rest`: a name without braces ends where a
      character follows that is no part of a name, and a dollar sign stands for itself where none
      follows that begins one. */
  predicate AtomFine(a: Atom, q: Quote, rest: string)
  {
    match a
    case Plain(c) =>
      c != '\\' && (if q.Double? then c != '"' else Inert(c) && !Blank(c)) && (c == '$' ==> !Names(rest))
    case Escape(_) => true
    case Variable(name, braced) =>
      if braced then ValidName(name)
      else name == "?" || (AnyName(name) && (rest == "" || !NameChar(rest[0])))
  }

  function AtomsText(atoms: seq<Atom>, rest: string): (s: string)
  {
    if atoms == [] then rest else AtomText(atoms[0]) + AtomsText(atoms[1..], rest)
  }

  function AtomsValue(env: string -> string, atoms: seq<Atom>): (s: string)
  {
    if atoms == [] then "" else AtomValue(env, atoms[0]) + AtomsValue(env, atoms[1..])
  }

  predicate AtomsFine(atoms: seq<Atom>, q: Quote, rest: string)
  {
    atoms == [] ||
    (AtomFine(atoms[0], q, AtomsText(atoms[1..], rest)) && AtomsFine(atoms[1..], q, rest))
  }

  function PieceText(p: Piece, rest: string): (s: string)
  {
    match p
    case One(a) => AtomText(a) + rest
    case Apostrophes(text) => "'" + (text + ("'" + rest))
    case Quotes(atoms) => "\"" + AtomsText(atoms, "\"" + rest)
  }

  function PieceValue(env: string -> string, p: Piece): (s: string)
  {
    match p
    case One(a) => AtomValue(env, a)
    case Apostrophes(text) => text
    case Quotes(atoms) => AtomsValue(env, atoms)
  }

  predicate PieceFine(p: Piece, rest: string)
  {
    match p
    case One(a) => AtomFine(a, Bare, rest)
    case Apostrophes(text) => forall i :: 0 <= i < |text| ==> text[i] != '\''
    case Quotes(atoms) => AtomsFine(atoms, Double, "\"" + rest)
  }

  /** The text of a word, in front of `rest`. */
  function WordText(ps: seq<Piece>, rest: string): (s: string)
  {
    if ps == [] then rest else PieceText(ps[0], WordText(ps[1..], rest))
  }

  /** What the word is read as. */
  function WordValue(env: string -> string, ps: seq<Piece>): (s: string)
  {
    if ps == [] then "" else PieceValue(env, ps[0]) + WordValue(env, ps[1..])
  }

  predicate WordFine(ps: seq<Piece>, rest: string)
  {
    ps == [] || (PieceFine(ps[0], WordText(ps[1..], rest)) && WordFine(ps[1..], rest))
  }

  // ----- atoms -----

  /** A dollar sign and a name stand for that variable. */
  lemma {:induction false} AtomExpands(name: string, braced: bool, rest: string)
    requires AtomFine(Variable(name, braced), Bare, rest)
    ensures var n := |AtomText(Variable(name, braced))|; var s := AtomText(Variable(name, braced)) + rest;
            s[0] == '$' && s[n..] == rest && ExpansionAt(s) == Name(name, n)
  {
    var s := AtomText(Variable(name, braced)) + rest;
    if braced {
      NamesVariable(name, rest);
    } else if name != "?" {
      assert s[1..] == name + rest && s[1..1 + |name|] == name;
      assert forall k :: 0 <= k < |name| ==> NameChar(name[k]);
      NameLengthIs(name, rest);
    }
  }

  lemma {:induction false} LexPlain(env: string -> string, c: char, q: Quote, rest: string, word: string, used: nat,
                                    count: nat)
    requires !q.Single? && AtomFine(Plain(c), q, rest) && used + 1 < LINE_SIZE
    ensures Lex(env, [c] + rest, q, Some(word), used, count) == Lex(env, rest, q, Some(word + [c]), used + 1, count)
  {
    var s := [c] + rest;
    assert s[1..] == rest;
    assert Lex(env, s, q, Some(word), used, count) == LexInWord(env, s, q, word, used, count);
    if c == '$' {
      assert ExpansionAt(s).Dollar?;
      assert LexInWord(env, s, q, word, used, count) == LexValue(env, rest, q, word, [c], used, count);
    }
  }

  lemma {:induction false} LexEscape(env: string -> string, c: char, q: Quote, rest: string, word: string, used: nat,
                                     count: nat)
    requires !q.Single? && used + 1 < LINE_SIZE
    ensures Lex(env, ['\\', c] + rest, q, Some(word), used, count)
            == Lex(env, rest, q, Some(word + [c]), used + 1, count)
  {
    var s := ['\\', c] + rest;
    assert s[2..] == rest;
    assert Lex(env, s, q, Some(word), used, count) == LexInWord(env, s, q, word, used, count);
  }

  lemma {:induction false} LexVariable(env: string -> string, a: Atom, q: Quote, rest: string, word: string, used: nat,
                                       count: nat)
    requires !q.Single? && a.Variable? && AtomFine(a, q, rest) && used + |env(a.name)| < LINE_SIZE
    ensures Lex(env, AtomText(a) + rest, q, Some(word), used, count)
            == Lex(env, rest, q, Some(word + env(a.name)), used + |env(a.name)|, count)
  {
    var s := AtomText(a) + rest;
    AtomExpands(a.name, a.braced, rest);
    assert Lex(env, s, q, Some(word), used, count) == LexInWord(env, s, q, word, used, count);
    assert LexInWord(env, s, q, word, used, count) == LexValue(env, rest, q, word, env(a.name), used, count);
  }

  /** What is read, `r`, is what would be read of the rest with the atom's value in the word. */
  lemma {:induction false} LexAtom(env: string -> string, a: Atom, q: Quote, rest: string, word: string, used: nat,
                                   count: nat, r: Lexed)
    requires !q.Single? && AtomFine(a, q, rest) && used + |AtomValue(env, a)| < LINE_SIZE
    requires Lex(env, rest, q, Some(word + AtomValue(env, a)), used + |AtomValue(env, a)|, count) == r
    ensures Lex(env, AtomText(a) + rest, q, Some(word), used, count) == r
  {
    match a
    case Plain(c) => LexPlain(env, c, q, rest, word, used, count);
    case Escape(c) => LexEscape(env, c, q, rest, word, used, count);
    case Variable(_, _) => LexVariable(env, a, q, rest, word, used, count);
  }

  lemma {:induction false} Regroup(word: string, v: string, more: string)
    ensures word + (v + more) == word + v + more
  {
  }

  lemma {:induction false} LexAtoms(env: string -> string, atoms: seq<Atom>, q: Quote, rest: string, word: string,
                                    done: string, used: nat, n: nat, count: nat, r: Lexed)
    requires !q.Single? && AtomsFine(atoms, q, rest) && done == word + AtomsValue(env, atoms)
    requires used + |AtomsValue(env, atoms)| == n < LINE_SIZE && Lex(env, rest, q, Some(done), n, count) == r
    ensures Lex(env, AtomsText(atoms, rest), q, Some(word), used, count) == r
    decreases |atoms|
  {
    if atoms == [] {
      assert done == word;
    } else {
      var a, more := atoms[0], atoms[1..];
      var v := AtomValue(env, a);
      Regroup(word, v, AtomsValue(env, more));
      LexAtoms(env, more, q, rest, word + v, done, used + |v|, n, count, r);
      LexAtom(env, a, q, AtomsText(more, rest), word, used, count, r);
    }
  }

  lemma {:induction false} LexApostrophes(env: string -> string, text: string, rest: string, word: string, used: nat,
                                          count: nat)
    requires (forall i :: 0 <= i < |text| ==> text[i] != '\'') && used + |text| < LINE_SIZE
    ensures Lex(env, text + ("'" + rest), Quote.Single, Some(word), used, count)
            == Lex(env, rest, Bare, Some(word + text), used + |text|, count)
    decreases |text|
  {
    var s := text + ("'" + rest);
    if text == "" {
      assert s == "'" + rest && s[1..] == rest && word + "" == word;
    } else {
      assert s[0] == text[0] && s[1..] == text[1..] + ("'" + rest);
      LexApostrophes(env, text[1..], rest, word + [text[0]], used + 1, count);
      assert word + [text[0]] + text[1..] == word + text;
    }
  }

  // ----- words -----

  lemma {:induction false} LexClosing(env: string -> string, rest: string, word: string, used: nat, count: nat)
    ensures Lex(env, "\"" + rest, Double, Some(word), used, count) == Lex(env, rest, Bare, Some(word), used, count)
  {
    assert ("\"" + rest)[1..] == rest;
  }

  lemma {:induction false} LexOpening(env: string -> string, rest: string, word: string, used: nat, count: nat)
    ensures Lex(env, "\"" + rest, Bare, Some(word), used, count) == Lex(env, rest, Double, Some(word), used, count)
  {
    assert ("\"" + rest)[1..] == rest;
  }

  lemma {:induction false} LexQuotes(env: string -> string, atoms: seq<Atom>, rest: string, word: string, done: string,
                                     used: nat, n: nat, count: nat, r: Lexed)
    requires AtomsFine(atoms, Double, "\"" + rest) && done == word + AtomsValue(env, atoms)
    requires used + |AtomsValue(env, atoms)| == n < LINE_SIZE && Lex(env, rest, Bare, Some(done), n, count) == r
    ensures Lex(env, "\"" + AtomsText(atoms, "\"" + rest), Bare, Some(word), used, count) == r
  {
    assert Lex(env, "\"" + rest, Double, Some(done), n, count) == r by { LexClosing(env, rest, done, n, count); }
    LexAtoms(env, atoms, Double, "\"" + rest, word, done, used, n, count, r);
    LexOpening(env, AtomsText(atoms, "\"" + rest), word, used, count);
  }

  lemma {:induction false} LexPiece(env: string -> string, p: Piece, rest: string, word: string, used: nat, count: nat,
                                    r: Lexed)
    requires PieceFine(p, rest) && used + |PieceValue(env, p)| < LINE_SIZE
    requires Lex(env, rest, Bare, Some(word + PieceValue(env, p)), used + |PieceValue(env, p)|, count) == r
    ensures Lex(env, PieceText(p, rest), Bare, Some(word), used, count) == r
  {
    match p
    case One(a) => LexAtom(env, a, Bare, rest, word, used, count, r);
    case Apostrophes(text) =>
      assert PieceText(p, rest)[1..] == text + ("'" + rest);
      LexApostrophes(env, text, rest, word, used, count);
    case Quotes(atoms) =>
      var v := AtomsValue(env, atoms);
      LexQuotes(env, atoms, rest, word, word + v, used, used + |v|, count, r);
  }

  lemma {:induction false} LexPieces(env: string -> string, ps: seq<Piece>, rest: string, word: string, done: string,
                                     used: nat, n: nat, count: nat, r: Lexed)
    requires WordFine(ps, rest) && done == word + WordValue(env, ps)
    requires used + |WordValue(env, ps)| == n < LINE_SIZE && Lex(env, rest, Bare, Some(done), n, count) == r
    ensures Lex(env, WordText(ps, rest), Bare, Some(word), used, count) == r
    decreases |ps|
  {
    if ps == [] {
      assert done == word;
    } else {
      var p, more := ps[0], ps[1..];
      var v := PieceValue(env, p);
      Regroup(word, v, WordValue(env, more));
      LexPieces(env, more, rest, word + v, done, used + |v|, n, count, r);
      LexPiece(env, p, WordText(more, rest), word, used, count, r);
    }
  }

  /** A word does not begin with a blank or an operator. */
  lemma {:induction false} WordBegins(ps: seq<Piece>, rest: string)
    requires ps != [] && WordFine(ps, rest)
    ensures var s := WordText(ps, rest); s != "" && !Blank(s[0]) && !IsOperator(s[0])
  {
    match ps[0]
    case One(_) =>
    case Apostrophes(_) =>
    case Quotes(_) =>
  }

  /** A word spelled in pieces is read as the values of its pieces. */
  lemma {:induction false} LexWord(env: string -> string, ps: seq<Piece>, rest: string, used: nat, count: nat)
    requires ps != [] && WordFine(ps, rest) && used + |WordValue(env, ps)| < LINE_SIZE && count < TOKEN_COUNT
    ensures Lex(env, WordText(ps, rest), Bare, None, used, count)
            == Lex(env, rest, Bare, Some(WordValue(env, ps)), used + |WordValue(env, ps)|, count)
  {
    WordBegins(ps, rest);
    var v := WordValue(env, ps);
    var r := Lex(env, rest, Bare, Some(v), used + |v|, count);
    LexPieces(env, ps, rest, "", v, used, used + |v|, count, r);
  }

  // ----- lines -----

  predicate Blanks(s: string)
  {
    forall i :: 0 <= i < |s| ==> Blank(s[i])
  }

  /** A word of a line, with the blanks in front of it. */
  datatype Spelled = Spelled(gap: string, pieces: seq<Piece>)

  function LineText(ws: seq<Spelled>, tail: string): (s: string)
  {
    if ws == [] then tail else ws[0].gap + WordText(ws[0].pieces, LineText(ws[1..], tail))
  }

  function Values(env: string -> string, ws: seq<Spelled>): (vs: seq<string>)
    ensures |vs| == |ws|
  {
    if ws == [] then [] else [WordValue(env, ws[0].pieces)] + Values(env, ws[1..])
  }

  /** Blanks are between words, and may be before the first one and behind the last one. */
  predicate LineFine(ws: seq<Spelled>, tail: string, apart: bool)
  {
    if ws == [] then Blanks(tail)
    else Blanks(ws[0].gap) && (apart ==> ws[0].gap != "") && ws[0].pieces != [] &&
         WordFine(ws[0].pieces, LineText(ws[1..], tail)) && LineFine(ws[1..], tail, true)
  }

  lemma {:induction false} LexGap(env: string -> string, gap: string, rest: string, used: nat, count: nat)
    requires Blanks(gap)
    ensures Lex(env, gap + rest, Bare, None, used, count) == Lex(env, rest, Bare, None, used, count)
    decreases |gap|
  {
    if gap == "" {
      assert gap + rest == rest;
    } else {
      assert (gap + rest)[1..] == gap[1..] + rest;
      LexGap(env, gap[1..], rest, used, count);
    }
  }

  /** A word ends at a blank and at the end. */
  lemma {:induction false} LexEnds(env: string -> string, rest: string, word: string, used: nat, count: nat)
    requires (rest == "" || Blank(rest[0])) && used < LINE_SIZE && count < TOKEN_COUNT
    ensures Lex(env, rest, Bare, Some(word), used, count)
            == Before(Word(word), Lex(env, rest, Bare, None, used + 1, count + 1))
  {
  }

  lemma {:induction false} LineBegins(ws: seq<Spelled>, tail: string)
    requires LineFine(ws, tail, true)
    ensures var s := LineText(ws, tail); s == "" || Blank(s[0])
  {
  }

  lemma {:induction false} LexTail(env: string -> string, tail: string, used: nat, count: nat)
    requires Blanks(tail)
    ensures Lex(env, tail, Bare, None, used, count) == Tokens([])
  {
    LexGap(env, tail, "", used, count);
    assert tail + "" == tail;
  }

  /** The first word of a line is read, and then the rest of it. */
  lemma {:induction false} LexFirst(env: string -> string, w: Spelled, rest: string, used: nat, count: nat)
    requires Blanks(w.gap) && w.pieces != [] && WordFine(w.pieces, rest) && (rest == "" || Blank(rest[0]))
    requires used + |WordValue(env, w.pieces)| < LINE_SIZE && count < TOKEN_COUNT
    ensures var v := WordValue(env, w.pieces);
            Lex(env, w.gap + WordText(w.pieces, rest), Bare, None, used, count)
            == Before(Word(v), Lex(env, rest, Bare, None, used + |v| + 1, count + 1))
  {
    var v := WordValue(env, w.pieces);
    LexGap(env, w.gap, WordText(w.pieces, rest), used, count);
    LexWord(env, w.pieces, rest, used, count);
    LexEnds(env, rest, v, used + |v|, count);
  }

  lemma {:induction false} LexThen(env: string -> string, w: Spelled, rest: string, ts: seq<Token>, used: nat,
                                   next: nat, count: nat)
    requires Blanks(w.gap) && w.pieces != [] && WordFine(w.pieces, rest) && (rest == "" || Blank(rest[0]))
    requires used + |WordValue(env, w.pieces)| + 1 == next <= LINE_SIZE && count < TOKEN_COUNT
    requires Lex(env, rest, Bare, None, next, count + 1) == Tokens(ts)
    ensures Lex(env, w.gap + WordText(w.pieces, rest), Bare, None, used, count)
            == Tokens([Word(WordValue(env, w.pieces))] + ts)
  {
    LexFirst(env, w, rest, used, count);
  }

  lemma {:induction false} TextsMore(env: string -> string, ws: seq<Spelled>)
    requires ws != []
    ensures Texts(Values(env, ws)) == [Word(WordValue(env, ws[0].pieces))] + Texts(Values(env, ws[1..]))
    ensures Room(Values(env, ws)) == |WordValue(env, ws[0].pieces)| + 1 + Room(Values(env, ws[1..]))
  {
    assert Values(env, ws)[1..] == Values(env, ws[1..]);
  }

  lemma {:induction false} LexFits(env: string -> string, ws: seq<Spelled>, tail: string, apart: bool, used: nat,
                                   count: nat)
    requires LineFine(ws, tail, apart)
    requires used + Room(Values(env, ws)) <= LINE_SIZE && count + |ws| <= TOKEN_COUNT
    ensures Lex(env, LineText(ws, tail), Bare, None, used, count) == Tokens(Texts(Values(env, ws)))
    decreases |ws|
  {
    if ws == [] {
      LexTail(env, tail, used, count);
    } else {
      var rest, next := LineText(ws[1..], tail), used + |WordValue(env, ws[0].pieces)| + 1;
      TextsMore(env, ws);
      LexFits(env, ws[1..], tail, true, next, count + 1);
      LineBegins(ws[1..], tail);
      LexThen(env, ws[0], rest, Texts(Values(env, ws[1..])), used, next, count);
    }
  }

  // ----- words that do not fit -----

  lemma {:induction false} AtomFull(env: string -> string, a: Atom, q: Quote, rest: string, word: string, used: nat,
                                    count: nat)
    requires !q.Single? && AtomFine(a, q, rest) && used < LINE_SIZE <= used + |AtomValue(env, a)|
    ensures Lex(env, AtomText(a) + rest, q, Some(word), used, count) == TooLong
  {
    var s := AtomText(a) + rest;
    assert Lex(env, s, q, Some(word), used, count) == LexInWord(env, s, q, word, used, count);
    match a
    case Plain(c) =>
      assert s[0] == c && s[1..] == rest;
      if c == '$' {
        assert ExpansionAt(s).Dollar?;
        assert LexInWord(env, s, q, word, used, count) == LexValue(env, rest, q, word, [c], used, count);
      }
    case Escape(c) => assert s[0] == '\\' && s[1] == c;
    case Variable(name, braced) =>
      AtomExpands(name, braced, rest);
      assert LexInWord(env, s, q, word, used, count) == LexValue(env, rest, q, word, env(name), used, count);
  }

  lemma {:induction false} AtomsFull(env: string -> string, atoms: seq<Atom>, q: Quote, rest: string, word: string,
                                     used: nat, count: nat)
    requires !q.Single? && AtomsFine(atoms, q, rest) && used < LINE_SIZE <= used + |AtomsValue(env, atoms)|
    ensures Lex(env, AtomsText(atoms, rest), q, Some(word), used, count) == TooLong
    decreases |atoms|
  {
    var a, more := atoms[0], atoms[1..];
    var v := AtomValue(env, a);
    if used + |v| >= LINE_SIZE {
      AtomFull(env, a, q, AtomsText(more, rest), word, used, count);
    } else {
      AtomsFull(env, more, q, rest, word + v, used + |v|, count);
      LexAtom(env, a, q, AtomsText(more, rest), word, used, count, TooLong);
    }
  }

  lemma {:induction false} ApostrophesFull(env: string -> string, text: string, rest: string, word: string, used: nat,
                                           count: nat)
    requires (forall i :: 0 <= i < |text| ==> text[i] != '\'') && used < LINE_SIZE <= used + |text|
    ensures Lex(env, text + ("'" + rest), Quote.Single, Some(word), used, count) == TooLong
    decreases |text|
  {
    var s := text + ("'" + rest);
    assert s[0] == text[0] && s[1..] == text[1..] + ("'" + rest);
    if used + 1 < LINE_SIZE {
      ApostrophesFull(env, text[1..], rest, word + [text[0]], used + 1, count);
    }
  }

  lemma {:induction false} PieceFull(env: string -> string, p: Piece, rest: string, word: string, used: nat, count: nat)
    requires PieceFine(p, rest) && used < LINE_SIZE <= used + |PieceValue(env, p)|
    ensures Lex(env, PieceText(p, rest), Bare, Some(word), used, count) == TooLong
  {
    match p
    case One(a) => AtomFull(env, a, Bare, rest, word, used, count);
    case Apostrophes(text) =>
      assert PieceText(p, rest)[1..] == text + ("'" + rest);
      ApostrophesFull(env, text, rest, word, used, count);
    case Quotes(atoms) =>
      AtomsFull(env, atoms, Double, "\"" + rest, word, used, count);
      LexOpening(env, AtomsText(atoms, "\"" + rest), word, used, count);
  }

  lemma {:induction false} PiecesFull(env: string -> string, ps: seq<Piece>, rest: string, word: string, used: nat,
                                      count: nat)
    requires WordFine(ps, rest) && used < LINE_SIZE <= used + |WordValue(env, ps)|
    ensures Lex(env, WordText(ps, rest), Bare, Some(word), used, count) == TooLong
    decreases |ps|
  {
    var p, more := ps[0], ps[1..];
    var v := PieceValue(env, p);
    if used + |v| >= LINE_SIZE {
      PieceFull(env, p, WordText(more, rest), word, used, count);
    } else {
      PiecesFull(env, more, rest, word + v, used + |v|, count);
      LexPiece(env, p, WordText(more, rest), word, used, count, TooLong);
    }
  }

  lemma {:induction false} FirstFull(env: string -> string, w: Spelled, rest: string, used: nat, count: nat)
    requires Blanks(w.gap) && w.pieces != [] && WordFine(w.pieces, rest)
    requires used + |WordValue(env, w.pieces)| >= LINE_SIZE || count >= TOKEN_COUNT
    ensures Lex(env, w.gap + WordText(w.pieces, rest), Bare, None, used, count) == TooLong
  {
    LexGap(env, w.gap, WordText(w.pieces, rest), used, count);
    WordBegins(w.pieces, rest);
    if used < LINE_SIZE && count < TOKEN_COUNT {
      PiecesFull(env, w.pieces, rest, "", used, count);
    }
  }

  lemma {:induction false} FullThen(env: string -> string, w: Spelled, rest: string, used: nat, next: nat, count: nat)
    requires Blanks(w.gap) && w.pieces != [] && WordFine(w.pieces, rest) && (rest == "" || Blank(rest[0]))
    requires used + |WordValue(env, w.pieces)| + 1 == next <= LINE_SIZE && count < TOKEN_COUNT
    requires Lex(env, rest, Bare, None, next, count + 1) == TooLong
    ensures Lex(env, w.gap + WordText(w.pieces, rest), Bare, None, used, count) == TooLong
  {
    LexFirst(env, w, rest, used, count);
  }

  lemma {:induction false} LineFull(env: string -> string, ws: seq<Spelled>, tail: string, apart: bool, used: nat,
                                    count: nat)
    requires LineFine(ws, tail, apart) && used <= LINE_SIZE && count <= TOKEN_COUNT
    requires used + Room(Values(env, ws)) > LINE_SIZE || count + |ws| > TOKEN_COUNT
    ensures Lex(env, LineText(ws, tail), Bare, None, used, count) == TooLong
    decreases |ws|
  {
    var rest, next := LineText(ws[1..], tail), used + |WordValue(env, ws[0].pieces)| + 1;
    if next > LINE_SIZE || count == TOKEN_COUNT {
      FirstFull(env, ws[0], rest, used, count);
    } else {
      TextsMore(env, ws);
      LineFull(env, ws[1..], tail, true, next, count + 1);
      LineBegins(ws[1..], tail);
      FullThen(env, ws[0], rest, used, next, count);
    }
  }

  /** A line of words, spelled in any mix of pieces, is read as the values of those words, exactly
      if they fit. */
  lemma {:induction false} LexSpelled(env: string -> string, ws: seq<Spelled>, tail: string)
    requires LineFine(ws, tail, false)
    ensures Lex(env, LineText(ws, tail), Bare, None, 0, 0)
            == if Room(Values(env, ws)) <= LINE_SIZE && |ws| <= TOKEN_COUNT then Tokens(Texts(Values(env, ws)))
               else TooLong
  {
    if Room(Values(env, ws)) <= LINE_SIZE && |ws| <= TOKEN_COUNT {
      LexFits(env, ws, tail, false, 0, 0);
    } else {
      LineFull(env, ws, tail, false, 0, 0);
    }
  }

  // ----- the scanner passes over such a line -----

  lemma {:induction false} CleanInert(t: string, rest: string, q: Quote)
    requires (forall k :: 0 <= k < |t| ==> Inert(t[k])) && Clean(rest, q)
    ensures Clean(t + rest, q)
    decreases |t|
  {
    if t == "" {
      assert t + rest == rest;
    } else {
      assert (t + rest)[1..] == t[1..] + rest;
      CleanInert(t[1..], rest, q);
    }
  }

  lemma {:induction false} CleanAtom(a: Atom, q: Quote, rest: string)
    requires !q.Single? && AtomFine(a, q, rest) && Clean(rest, q)
    ensures Clean(AtomText(a) + rest, q)
  {
    var s := AtomText(a) + rest;
    match a
    case Plain(_) => assert s[1..] == rest;
    case Escape(_) => assert s[2..] == rest;
    case Variable(_, _) => CleanInert(AtomText(a), rest, q);
  }

  lemma {:induction false} CleanAtoms(atoms: seq<Atom>, q: Quote, rest: string)
    requires !q.Single? && AtomsFine(atoms, q, rest) && Clean(rest, q)
    ensures Clean(AtomsText(atoms, rest), q)
    decreases |atoms|
  {
    if atoms != [] {
      CleanAtoms(atoms[1..], q, rest);
      CleanAtom(atoms[0], q, AtomsText(atoms[1..], rest));
    }
  }

  lemma {:induction false} CleanApostrophes(text: string, rest: string)
    requires (forall i :: 0 <= i < |text| ==> text[i] != '\'') && Clean(rest, Bare)
    ensures Clean(text + ("'" + rest), Quote.Single)
    decreases |text|
  {
    var s := text + ("'" + rest);
    if text == "" {
      assert s == "'" + rest && s[1..] == rest;
    } else {
      assert s[1..] == text[1..] + ("'" + rest);
      CleanApostrophes(text[1..], rest);
    }
  }

  lemma {:induction false} CleanPiece(p: Piece, rest: string)
    requires PieceFine(p, rest) && Clean(rest, Bare)
    ensures Clean(PieceText(p, rest), Bare)
  {
    match p
    case One(a) => CleanAtom(a, Bare, rest);
    case Apostrophes(text) =>
      CleanApostrophes(text, rest);
      assert PieceText(p, rest)[1..] == text + ("'" + rest);
    case Quotes(atoms) =>
      assert ("\"" + rest)[1..] == rest;
      CleanAtoms(atoms, Double, "\"" + rest);
      assert PieceText(p, rest)[1..] == AtomsText(atoms, "\"" + rest);
  }

  lemma {:induction false} CleanWord(ps: seq<Piece>, rest: string)
    requires WordFine(ps, rest) && Clean(rest, Bare)
    ensures Clean(WordText(ps, rest), Bare)
    decreases |ps|
  {
    if ps != [] {
      CleanWord(ps[1..], rest);
      CleanPiece(ps[0], WordText(ps[1..], rest));
    }
  }

  lemma {:induction false} CleanLine(ws: seq<Spelled>, tail: string, apart: bool)
    requires LineFine(ws, tail, apart)
    ensures Clean(LineText(ws, tail), Bare)
    ensures ws != [] ==> HasText(LineText(ws, tail))
    decreases |ws|
  {
    if ws == [] {
      CleanInert(tail, "", Bare);
      assert tail + "" == tail;
    } else {
      var rest := LineText(ws[1..], tail);
      CleanLine(ws[1..], tail, true);
      CleanWord(ws[0].pieces, rest);
      CleanInert(ws[0].gap, WordText(ws[0].pieces, rest), Bare);
      WordBegins(ws[0].pieces, rest);
      var s, n := LineText(ws, tail), |ws[0].gap|;
      assert s[n] == WordText(ws[0].pieces, rest)[0];
    }
  }

  /** A line of words, spelled in any mix of pieces, runs one command on their values; if the line
      or its words are too many for the shell, it runs nothing and the status is 2. */
  lemma {:induction false} RunsSpelled<S(!new)>(h: Host<S>, ws: seq<Spelled>, tail: string, sh: Shell<S>)
    requires ws != [] && LineFine(ws, tail, false) && Resumes(h)
    ensures var line, vs := LineText(ws, tail), Values(Variables(h, Ready(h, sh)), ws);
            RunLine(h, line, sh)
            == if |line| < LINE_SIZE && Room(vs) <= LINE_SIZE && |ws| <= TOKEN_COUNT
               then var r := h.execute(h.resume(sh.state), sh.last, vs); Outcome(r.0, r.1)
               else Outcome(h.resume(sh.state), 2)
  {
    var ready, line := Ready(h, sh), LineText(ws, tail);
    if |line| < LINE_SIZE {
      CleanLine(ws, tail, false);
      var t := AndOr.Single(line);
      assert WellFormed(t);
      LineMeansList(h, [t], "", sh);
      assert ListText([t], "") == line + "" == line;
      LexSpelled(Variables(h, ready), ws, tail);
      var vs := Values(Variables(h, ready), ws);
      assert Arguments(Texts(vs)) == vs;
      assert [t][1..] == [];
    }
  }
}
