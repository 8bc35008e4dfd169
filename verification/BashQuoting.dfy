/** What the tokenizer reads: quoted text is read as it was, and variables as their values. */
module BashQuoting {
  import opened Basics
  import opened ShellQuotes
  import opened BashLexer
  import opened BashRun
  import opened BashLists

  predicate Escaped(c: char)
  {
    c == '"' || c == '\\' || c == '$'
  }

  function EscapeOne(c: char): (s: string)
  {
    if Escaped(c) then ['\\', c] else [c]
  }

  /** `w` with escapes where double quotes need them, the closing quote, and `rest`. */
  function Inside(w: string, rest: string): (s: string)
  {
    if w == "" then "\"" + rest else EscapeOne(w[0]) + Inside(w[1..], rest)
  }

  /** The words in double quotes, with spaces between them. */
  function Line(ws: seq<string>): (s: string)
  {
    if ws == [] then ""
    else "\"" + Inside(ws[0], if |ws| == 1 then "" else " " + Line(ws[1..]))
  }

  lemma {:induction false} EscapeStep(c: char, rest: string)
    ensures Escaped(c) ==> (EscapeOne(c) + rest)[0] == '\\' && (EscapeOne(c) + rest)[1] == c
                           && (EscapeOne(c) + rest)[2..] == rest
    ensures !Escaped(c) ==> (EscapeOne(c) + rest)[0] == c && (EscapeOne(c) + rest)[1..] == rest
  {
  }

  /** Inside double quotes the escaped word is read as it was. */
  lemma {:induction false} LexInside(env: string -> string, w: string, rest: string, word: string, used: nat,
                                     count: nat)
    requires used + |w| < LINE_SIZE
    ensures Lex(env, Inside(w, rest), Double, Some(word), used, count)
            == Lex(env, rest, Bare, Some(word + w), used + |w|, count)
    decreases |w|
  {
    if w == "" {
      assert ("\"" + rest)[1..] == rest;
      assert word + w == word;
    } else {
      var tail := Inside(w[1..], rest);
      assert Lex(env, Inside(w, rest), Double, Some(word), used, count)
          == Lex(env, tail, Double, Some(word + [w[0]]), used + 1, count) by {
        LexOne(env, w[0], tail, word, used, count);
      }
      assert word + [w[0]] + w[1..] == word + w;
      LexInside(env, w[1..], rest, word + [w[0]], used + 1, count);
    }
  }

  lemma {:induction false} LexOne(env: string -> string, c: char, tail: string, word: string, used: nat, count: nat)
    requires used + 1 < LINE_SIZE
    ensures Lex(env, EscapeOne(c) + tail, Double, Some(word), used, count)
            == Lex(env, tail, Double, Some(word + [c]), used + 1, count)
  {
    EscapeStep(c, tail);
    var s := EscapeOne(c) + tail;
    assert Lex(env, s, Double, Some(word), used, count) == LexInWord(env, s, Double, word, used, count);
  }

  lemma {:induction false} LexQuoted(env: string -> string, w: string, rest: string, used: nat, count: nat)
    requires used + |w| < LINE_SIZE && count < TOKEN_COUNT
    ensures Lex(env, "\"" + Inside(w, rest), Bare, None, used, count)
            == Lex(env, rest, Bare, Some(w), used + |w|, count)
  {
    var s := "\"" + Inside(w, rest);
    assert s[1..] == Inside(w, rest);
    assert Lex(env, s, Bare, None, used, count) == LexInWord(env, s, Bare, "", used, count);
    LexInside(env, w, rest, "", used, count);
    assert "" + w == w;
  }

  function Room(ws: seq<string>): (n: nat)
  {
    if ws == [] then 0 else |ws[0]| + 1 + Room(ws[1..])
  }

  function Texts(ws: seq<string>): (ts: seq<Token>)
    ensures |ts| == |ws| && forall k :: 0 <= k < |ws| ==> ts[k] == Word(ws[k])
  {
    seq(|ws|, k requires 0 <= k < |ws| => Word(ws[k]))
  }

  /** Quoted words are read as those words. */
  lemma {:induction false} LexLine(env: string -> string, ws: seq<string>, used: nat, count: nat)
    requires used + Room(ws) <= LINE_SIZE && count + |ws| <= TOKEN_COUNT
    ensures Lex(env, Line(ws), Bare, None, used, count) == Tokens(Texts(ws))
    decreases |ws|
  {
    if ws == [] {
    } else {
      var w, more := ws[0], ws[1..];
      var rest := if more == [] then "" else " " + Line(more);
      LexQuoted(env, w, rest, used, count);
      assert Texts(ws) == [Word(w)] + Texts(more);
      if more != [] {
        assert rest[1..] == Line(more);
        LexLine(env, more, used + |w| + 1, count + 1);
      }
    }
  }

  // ----- the scanner passes over quoted words -----

  lemma {:induction false} ReachInside(w: string, rest: string)
    ensures |Inside(w, rest)| > |rest| + |w|
    ensures Reach(Inside(w, rest), Double) == Plus(|Inside(w, rest)| - |rest|, Reach(rest, Bare))
    decreases |w|
  {
    if w == "" {
      assert ("\"" + rest)[1..] == rest;
    } else {
      ReachOne(w[0], Inside(w[1..], rest));
      ReachInside(w[1..], rest);
    }
  }

  lemma {:induction false} ReachOne(c: char, tail: string)
    ensures Reach(EscapeOne(c) + tail, Double) == Plus(|EscapeOne(c)|, Reach(tail, Double))
  {
    EscapeStep(c, tail);
  }

  lemma {:induction false} LineClean(ws: seq<string>)
    ensures Clean(Line(ws), Bare)
    ensures ws != [] ==> Room(ws) < |Line(ws)| && HasText(Line(ws))
    decreases |ws|
  {
    if ws != [] {
      var w, more := ws[0], ws[1..];
      var rest := if more == [] then "" else " " + Line(more);
      var s := "\"" + Inside(w, rest);
      LineClean(more);
      if more != [] {
        assert rest[1..] == Line(more);
      }
      ReachInside(w, rest);
      assert s[1..] == Inside(w, rest);
      assert !Blank(s[0]);
    }
  }

  /** A line of quoted words runs them as one command, whatever they hold, if the line and its
      words are not too many for the shell. */
  lemma {:induction false} RunsWords<S(!new)>(h: Host<S>, ws: seq<string>, sh: Shell<S>)
    requires ws != [] && |ws| <= TOKEN_COUNT && |Line(ws)| < LINE_SIZE && Resumes(h)
    ensures var r := h.execute(h.resume(sh.state), sh.last, ws);
            RunLine(h, Line(ws), sh) == Outcome(r.0, r.1)
  {
    var ready := Ready(h, sh);
    LineClean(ws);
    var t := AndOr.Single(Line(ws));
    assert WellFormed(t);
    LineMeansList(h, [t], "", sh);
    assert ListText([t], "") == Line(ws) + "" == Line(ws);
    LexLine(Variables(h, ready), ws, 0, 0);
    assert Arguments(Texts(ws)) == ws;
    var r := h.execute(ready.state, ready.last, ws);
    assert EvalList(h, [t], ready, 0) == Outcome(r.0, r.1) by { assert [t][1..] == []; }
  }

  // ----- variables -----

  lemma {:induction false} NameLengthIs(name: string, rest: string)
    requires (forall k :: 0 <= k < |name| ==> NameChar(name[k])) && (rest == "" || !NameChar(rest[0]))
    ensures NameLength(name + rest) == |name|
    decreases |name|
  {
    if name == "" {
      assert name + rest == rest;
    } else {
      assert (name + rest)[1..] == name[1..] + rest;
      NameLengthIs(name[1..], rest);
    }
  }

  lemma {:induction false} BraceLengthIs(name: string, rest: string)
    requires forall k :: 0 <= k < |name| ==> name[k] != '}'
    ensures BraceLength(name + "}" + rest) == Some(|name|)
    decreases |name|
  {
    var s := name + "}" + rest;
    if name != "" {
      assert s[1..] == name[1..] + "}" + rest;
      BraceLengthIs(name[1..], rest);
    }
  }

  /** A dollar sign and a name, with or without braces, stand for that variable, up to where the
      name ends. */
  lemma {:induction false} NamesVariable(name: string, rest: string)
    requires ValidName(name)
    ensures rest == "" || !NameChar(rest[0]) ==> ExpansionAt("$" + name + rest) == Name(name, |name| + 1)
    ensures ExpansionAt("${" + name + "}" + rest) == Name(name, |name| + 3)
  {
    var s, t := "$" + name + rest, "${" + name + "}" + rest;
    assert s[1..] == name + rest;
    assert t[2..] == name + "}" + rest && t[2..2 + |name|] == name;
    assert forall k :: 0 <= k < |name| ==> NameChar(name[k]);
    BraceLengthIs(name, rest);
    if rest == "" || !NameChar(rest[0]) {
      NameLengthIs(name, rest);
      assert s[1..1 + |name|] == name;
    }
  }
}
