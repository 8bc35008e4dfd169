/** Every segment the tokenizer makes words of is a line of words spelled in pieces. */
module BashSpelling {
  import opened Basics
  import opened ShellQuotes
  import opened BashLexer
  import opened BashRun
  import opened BashLists
  import opened BashQuoting
  import opened BashWords

  /** The text is read, word by word, without an error. */
  predicate Reads(env: string -> string, s: string, q: Quote, word: Option<string>, used: nat, count: nat)
  {
    Clean(s, q) && Lex(env, s, q, word, used, count).Tokens?
  }

  lemma {:induction false} InWord(env: string -> string, s: string, q: Quote, word: string, used: nat, count: nat)
    requires s != "" && Reads(env, s, q, Some(word), used, count) && (q.Bare? ==> !Blank(s[0]))
    ensures q.Bare? ==> !IsOperator(s[0])
    ensures LexInWord(env, s, q, word, used, count).Tokens?
  {
  }

  lemma {:induction false} ExpansionText(s: string)
    requires s != "" && s[0] == '$' && ExpansionAt(s).Name?
    ensures var e := ExpansionAt(s); var a := Variable(e.name, s[1] == '{');
            s == AtomText(a) + s[e.length..] && AtomFine(a, Double, s[e.length..]) && AtomFine(a, Bare, s[e.length..])
  {
    var e := ExpansionAt(s);
    var a := Variable(e.name, s[1] == '{');
    if s[1] == '?' {
      assert s == "$?" + s[2..];
    } else if s[1] == '{' {
      assert s == "${" + e.name + "}" + s[e.length..];
    } else {
      assert s == "$" + e.name + s[e.length..];
      NameIs(s[1..], e.name, s[e.length..]);
    }
  }

  lemma {:induction false} NameIs(s: string, name: string, rest: string)
    requires s != "" && NameStart(s[0]) && name == s[..NameLength(s)] && rest == s[NameLength(s)..]
    ensures AnyName(name) && (rest == "" || !NameChar(rest[0]))
  {
    NameStops(s);
  }

  lemma {:induction false} NameStops(s: string)
    ensures var n := NameLength(s); n < |s| ==> !NameChar(s[n])
  {
    if s != "" && NameChar(s[0]) {
      NameStops(s[1..]);
    }
  }

  /** The atom in front. */
  lemma {:induction false} SpellAtom(env: string -> string, s: string, q: Quote, word: string, used: nat, count: nat)
      returns (a: Atom, rest: string, w: string, n: nat)
    requires s != "" && !q.Single? && Reads(env, s, q, Some(word), used, count)
    requires if q.Bare? then !Blank(s[0]) && !Opens(s[0]) else s[0] != '"'
    ensures s == AtomText(a) + rest && AtomFine(a, q, rest) && |rest| < |s|
    ensures Reads(env, rest, q, Some(w), n, count)
  {
    InWord(env, s, q, word, used, count);
    if s[0] == '\\' {
      a, rest, w, n := Escape(s[1]), s[2..], word + [s[1]], used + 1;
    } else if s[0] == '$' && ExpansionAt(s).Name? {
      var e := ExpansionAt(s);
      ExpansionText(s);
      ExpansionInert(s);
      CleanTail(s, q, e.length);
      a, rest, w, n := Variable(e.name, s[1] == '{'), s[e.length..], word + env(e.name), used + |env(e.name)|;
      assert LexInWord(env, s, q, word, used, count) == LexValue(env, rest, q, word, env(e.name), used, count);
    } else {
      a, rest, w, n := Plain(s[0]), s[1..], word + [s[0]], used + 1;
      if s[0] == '$' {
        assert LexInWord(env, s, q, word, used, count) == LexValue(env, rest, q, word, "$", used, count);
      }
    }
  }

  /** The atoms up to the closing quote. */
  lemma {:induction false} SpellAtoms(env: string -> string, s: string, word: string, used: nat, count: nat)
      returns (atoms: seq<Atom>, rest: string, w: string, n: nat)
    requires Reads(env, s, Double, Some(word), used, count)
    ensures s == AtomsText(atoms, "\"" + rest) && AtomsFine(atoms, Double, "\"" + rest) && |rest| < |s|
    ensures Reads(env, rest, Bare, Some(w), n, count)
    decreases |s|
  {
    if s[0] == '"' {
      atoms, rest, w, n := [], s[1..], word, used;
      assert s == "\"" + rest;
      LexClosing(env, rest, word, used, count);
    } else {
      var a, more, w1, n1 := SpellAtom(env, s, Double, word, used, count);
      atoms, rest, w, n := SpellAtoms(env, more, w1, n1, count);
      AtomsFirst(a, atoms, "\"" + rest);
      atoms := [a] + atoms;
    }
  }

  lemma {:induction false} AtomsFirst(a: Atom, atoms: seq<Atom>, rest: string)
    ensures AtomsText([a] + atoms, rest) == AtomText(a) + AtomsText(atoms, rest)
    ensures AtomFine(a, Double, AtomsText(atoms, rest)) && AtomsFine(atoms, Double, rest) ==>
              AtomsFine([a] + atoms, Double, rest)
  {
    assert ([a] + atoms)[1..] == atoms;
  }

  /** The text up to the closing apostrophe. */
  lemma {:induction false} SpellText(env: string -> string, s: string, word: string, used: nat, count: nat)
      returns (text: string, rest: string, w: string, n: nat)
    requires Reads(env, s, Quote.Single, Some(word), used, count)
    ensures s == text + ("'" + rest) && (forall i :: 0 <= i < |text| ==> text[i] != '\'') && |rest| < |s|
    ensures Reads(env, rest, Bare, Some(w), n, count)
    decreases |s|
  {
    InWord(env, s, Quote.Single, word, used, count);
    if s[0] == '\'' {
      text, rest, w, n := "", s[1..], word, used;
      assert s == "" + ("'" + rest);
    } else {
      text, rest, w, n := SpellText(env, s[1..], word + [s[0]], used + 1, count);
      assert s == [s[0]] + (text + ("'" + rest));
      text := [s[0]] + text;
    }
  }

  /** The piece in front. */
  lemma {:induction false} SpellPiece(env: string -> string, s: string, word: string, used: nat, count: nat)
      returns (p: Piece, rest: string, w: string, n: nat)
    requires s != "" && !Blank(s[0]) && Reads(env, s, Bare, Some(word), used, count)
    ensures s == PieceText(p, rest) && PieceFine(p, rest) && |rest| < |s|
    ensures Reads(env, rest, Bare, Some(w), n, count)
  {
    if Opens(s[0]) {
      InWord(env, s, Bare, word, used, count);
      assert s == [s[0]] + s[1..];
      if s[0] == '"' {
        var atoms;
        atoms, rest, w, n := SpellAtoms(env, s[1..], word, used, count);
        p := Quotes(atoms);
      } else {
        var text;
        text, rest, w, n := SpellText(env, s[1..], word, used, count);
        p := Apostrophes(text);
      }
    } else {
      var a;
      a, rest, w, n := SpellAtom(env, s, Bare, word, used, count);
      p := One(a);
    }
  }

  /** The pieces up to a blank or the end. */
  lemma {:induction false} SpellWord(env: string -> string, s: string, word: string, used: nat, count: nat)
      returns (ps: seq<Piece>, rest: string, w: string, n: nat)
    requires Reads(env, s, Bare, Some(word), used, count)
    ensures s == WordText(ps, rest) && WordFine(ps, rest) && (rest == "" || Blank(rest[0]))
    ensures Reads(env, rest, Bare, Some(w), n, count)
    ensures s != "" && !Blank(s[0]) ==> ps != [] && |rest| < |s|
    decreases |s|
  {
    if s == "" || Blank(s[0]) {
      ps, rest, w, n := [], s, word, used;
    } else {
      var p, more, w1, n1 := SpellPiece(env, s, word, used, count);
      ps, rest, w, n := SpellWord(env, more, w1, n1, count);
      PiecesFirst(p, ps, rest);
      ps := [p] + ps;
    }
  }

  lemma {:induction false} PiecesFirst(p: Piece, ps: seq<Piece>, rest: string)
    ensures WordText([p] + ps, rest) == PieceText(p, WordText(ps, rest))
    ensures PieceFine(p, WordText(ps, rest)) && WordFine(ps, rest) ==> WordFine([p] + ps, rest)
  {
    assert ([p] + ps)[1..] == ps;
  }

  /** The blanks in front. */
  lemma {:induction false} SpellGap(env: string -> string, s: string, used: nat, count: nat)
      returns (gap: string, rest: string)
    requires Reads(env, s, Bare, None, used, count)
    ensures s == gap + rest && Blanks(gap) && (rest == "" || !Blank(rest[0]))
    ensures Reads(env, rest, Bare, None, used, count)
    decreases |s|
  {
    if s != "" && Blank(s[0]) {
      gap, rest := SpellGap(env, s[1..], used, count);
      assert s == [s[0]] + (gap + rest);
      gap := [s[0]] + gap;
    } else {
      gap, rest := "", s;
      assert "" + s == s;
    }
  }

  /** The word in front, and what is read behind it. */
  lemma {:induction false} SpellFirst(env: string -> string, s: string, used: nat, count: nat)
      returns (ps: seq<Piece>, rest: string, n: nat)
    requires s != "" && !Blank(s[0]) && Reads(env, s, Bare, None, used, count)
    ensures s == WordText(ps, rest) && WordFine(ps, rest) && ps != [] && |rest| < |s|
    ensures (rest == "" || Blank(rest[0])) && Reads(env, rest, Bare, None, n, count + 1)
  {
    var w, m;
    ps, rest, w, m := SpellWord(env, s, "", used, count);
    LexEnds(env, rest, w, m, count);
    n := m + 1;
  }

  lemma {:induction false} LineFirst(gap: string, ps: seq<Piece>, ws: seq<Spelled>, tail: string, apart: bool)
    requires Blanks(gap) && (apart ==> gap != "") && ps != [] && WordFine(ps, LineText(ws, tail))
    requires LineFine(ws, tail, true)
    ensures var all := [Spelled(gap, ps)] + ws;
            LineFine(all, tail, apart) && LineText(all, tail) == gap + WordText(ps, LineText(ws, tail))
  {
    assert ([Spelled(gap, ps)] + ws)[1..] == ws;
  }

  /** What is read is a line of words. */
  lemma {:induction false} SpellLine(env: string -> string, s: string, apart: bool, used: nat, count: nat)
      returns (ws: seq<Spelled>, tail: string)
    requires Reads(env, s, Bare, None, used, count) && (apart ==> s == "" || Blank(s[0]))
    ensures LineFine(ws, tail, apart) && s == LineText(ws, tail)
    decreases |s|
  {
    var gap, rest := SpellGap(env, s, used, count);
    if rest == "" {
      ws, tail := [], s;
    } else {
      var ps, more, n := SpellFirst(env, rest, used, count);
      ws, tail := SpellLine(env, more, true, n, count + 1);
      LineFirst(gap, ps, ws, tail, apart);
      ws := [Spelled(gap, ps)] + ws;
    }
  }

  ghost predicate IsLine(env: string -> string, s: string, ws: seq<Spelled>, tail: string)
  {
    LineFine(ws, tail, false) && s == LineText(ws, tail) && Room(Values(env, ws)) <= LINE_SIZE && |ws| <= TOKEN_COUNT
  }

  /** A segment is read exactly if it is a line of words spelled in pieces, and their values fit. */
  lemma {:induction false} SpelledIff(env: string -> string, s: string)
    requires Clean(s, Bare)
    ensures Lex(env, s, Bare, None, 0, 0).Tokens? <==> exists ws, tail :: IsLine(env, s, ws, tail)
  {
    if Lex(env, s, Bare, None, 0, 0).Tokens? {
      var ws, tail := SpellLine(env, s, false, 0, 0);
      LexSpelled(env, ws, tail);
      assert IsLine(env, s, ws, tail);
    }
    if ws, tail :| IsLine(env, s, ws, tail) {
      LexSpelled(env, ws, tail);
    }
  }

  /** Running a segment hands the values to the command, in the state and with the status there
      are, and leaves the command's status for the next one; a segment that does not fit runs
      nothing. */
  lemma {:induction false} SegmentRuns<S>(h: Host<S>, sh: Shell<S>, ws: seq<Spelled>, tail: string)
    requires ws != [] && LineFine(ws, tail, false)
    ensures IsCommand(LineText(ws, tail))
    ensures var vs := Values(Variables(h, sh), ws);
            RunSegment(h, sh, LineText(ws, tail))
            == if Room(vs) <= LINE_SIZE && |ws| <= TOKEN_COUNT
               then var r := h.execute(sh.state, sh.last, vs); Some((Shell(r.0, r.1), r.1))
               else None
  {
    CleanLine(ws, tail, false);
    LexSpelled(Variables(h, sh), ws, tail);
    var vs := Values(Variables(h, sh), ws);
    assert Arguments(Texts(vs)) == vs;
  }

  // ----- commands one after another -----

  predicate CommandFine(ws: seq<Spelled>)
  {
    ws != [] && LineFine(ws, "", false)
  }

  /** Every command runs in the state and with the status the one before left, up to one that does
      not fit or makes the shell exit. */
  function RunAll<S>(h: Host<S>, cs: seq<seq<Spelled>>, sh: Shell<S>, status: int): (r: Outcome<S>)
  {
    if cs == [] || h.exits(sh.state) then Outcome(sh.state, status)
    else
      var vs := Values(Variables(h, sh), cs[0]);
      if Room(vs) > LINE_SIZE || |cs[0]| > TOKEN_COUNT then Outcome(sh.state, 2)
      else
        var r := h.execute(sh.state, sh.last, vs);
        RunAll(h, cs[1..], Shell(r.0, r.1), r.1)
  }

  function Lists(cs: seq<seq<Spelled>>): (ts: seq<AndOr>)
    ensures |ts| == |cs| && forall k :: 0 <= k < |cs| ==> ts[k] == AndOr.Single(LineText(cs[k], ""))
  {
    seq(|cs|, k requires 0 <= k < |cs| => AndOr.Single(LineText(cs[k], "")))
  }

  lemma {:induction false} ListsFormed(cs: seq<seq<Spelled>>)
    requires forall k :: 0 <= k < |cs| ==> CommandFine(cs[k])
    ensures forall k :: 0 <= k < |cs| ==> WellFormed(Lists(cs)[k])
  {
    forall k | 0 <= k < |cs| ensures WellFormed(Lists(cs)[k]) {
      assert CommandFine(cs[k]);
      CleanLine(cs[k], "", false);
    }
  }

  lemma {:induction false} SkipsAll<S>(h: Host<S>, ts: seq<AndOr>, sh: Shell<S>, status: int)
    requires (forall k :: 0 <= k < |ts| ==> WellFormed(ts[k]) && ts[k].Single?) && h.exits(sh.state)
    ensures EvalList(h, ts, sh, status) == Outcome(sh.state, status)
    decreases |ts|
  {
    if ts != [] {
      SkipsAll(h, ts[1..], sh, status);
    }
  }

  lemma {:induction false} EvalsAll<S>(h: Host<S>, cs: seq<seq<Spelled>>, sh: Shell<S>, status: int)
    requires forall k :: 0 <= k < |cs| ==> CommandFine(cs[k])
    requires forall k :: 0 <= k < |cs| ==> WellFormed(Lists(cs)[k])
    ensures EvalList(h, Lists(cs), sh, status) == RunAll(h, cs, sh, status)
    decreases |cs|
  {
    if cs == [] {
    } else if h.exits(sh.state) {
      SkipsAll(h, Lists(cs), sh, status);
    } else {
      assert CommandFine(cs[0]);
      SegmentRuns(h, sh, cs[0], "");
      assert Lists(cs)[1..] == Lists(cs[1..]);
      var vs := Values(Variables(h, sh), cs[0]);
      if Room(vs) <= LINE_SIZE && |cs[0]| <= TOKEN_COUNT {
        var r := h.execute(sh.state, sh.last, vs);
        ListsFormed(cs[1..]);
        EvalsAll(h, cs[1..], Shell(r.0, r.1), r.1);
      }
    }
  }

  /** A line of commands with semicolons between them runs them one after another. */
  lemma {:induction false} RunsSequence<S>(h: Host<S>, cs: seq<seq<Spelled>>, sh: Shell<S>)
    requires cs != [] && forall k :: 0 <= k < |cs| ==> CommandFine(cs[k])
    requires |ListText(Lists(cs), "")| < LINE_SIZE
    ensures RunLine(h, ListText(Lists(cs), ""), sh) == RunAll(h, cs, Ready(h, sh), 0)
  {
    ListsFormed(cs);
    LineMeansList(h, Lists(cs), "", sh);
    EvalsAll(h, cs, Ready(h, sh), 0);
  }
}
