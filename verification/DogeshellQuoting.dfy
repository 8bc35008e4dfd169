/** How scripts hand their tokens to the shell: every token in double quotes. */
module DogeshellQuoting {
  import opened Basics
  import opened ShellQuotes
  import opened DogeshellLine
  import opened DogeshellRun

  const COMMAND_SIZE: nat := 4096

  predicate Escaped(c: char)
  {
    c == '"' || c == '\\'
  }

  function EscapeOne(c: char): (r: string)
  {
    if Escaped(c) then ['\\', c] else [c]
  }

  function Escape(token: string): (r: string)
  {
    if token == "" then "" else EscapeOne(token[0]) + Escape(token[1..])
  }

  function Quoted(token: string): (r: string)
  {
    "\"" + Escape(token) + "\""
  }

  /** The tokens, quoted, with single spaces between them. */
  function Command(tokens: seq<string>): (r: string)
  {
    if tokens == [] then ""
    else if |tokens| == 1 then Quoted(tokens[0])
    else Quoted(tokens[0]) + " " + Command(tokens[1..])
  }

  // ----- reading a quoted token -----

  /** The line holds `t` at `i`. */
  predicate At(line: string, i: nat, t: string)
  {
    i + |t| <= |line| && line[i..i + |t|] == t
  }

  lemma {:induction false} AtSplit(line: string, i: nat, t: string, u: string)
    requires At(line, i, t + u)
    ensures At(line, i, t) && At(line, i + |t|, u)
  {
    assert line[i..i + |t|] == line[i..i + |t| + |u|][..|t|];
    assert line[i + |t|..i + |t| + |u|] == line[i..i + |t| + |u|][|t|..];
  }

  lemma {:induction false} AtHead(line: string, i: nat, t: string)
    requires At(line, i, t) && t != ""
    ensures line[i] == t[0] && (|t| > 1 ==> line[i + 1] == t[1])
  {
    assert line[i] == line[i..i + |t|][0];
    if |t| > 1 {
      assert line[i + 1] == line[i..i + |t|][1];
    }
  }

  lemma {:induction false} ReadOne(line: string, i: nat, c: char)
    requires At(line, i, EscapeOne(c))
    ensures WordAt(line, i, Double) == Prefixed(c, WordAt(line, i + |EscapeOne(c)|, Double))
    ensures Separators(line, i, Double) == Separators(line, i + |EscapeOne(c)|, Double)
  {
    AtHead(line, i, EscapeOne(c));
  }

  lemma {:induction false} SplitEscape(line: string, i: nat, token: string)
    requires token != "" && At(line, i, Escape(token))
    ensures At(line, i, EscapeOne(token[0]))
    ensures At(line, i + |EscapeOne(token[0])|, Escape(token[1..]))
    ensures |Escape(token)| == |EscapeOne(token[0])| + |Escape(token[1..])|
  {
    AtSplit(line, i, EscapeOne(token[0]), Escape(token[1..]));
  }

  /** The closing quote. */
  lemma {:induction false} ReadClosing(line: string, i: nat)
    requires i < |line| && line[i] == '"'
    ensures WordAt(line, i, Double) == Joined("", WordAt(line, i + 1, Bare))
    ensures Separators(line, i, Double) == Separators(line, i + 1, Bare)
  {
    var w := WordAt(line, i + 1, Bare);
    if w.Some? {
      assert "" + w.value.text == w.value.text;
    }
  }

  lemma {:induction false} ReadFirst(line: string, i: nat, token: string, w: Option<Word>)
    requires token != "" && At(line, i, EscapeOne(token[0]))
    requires WordAt(line, i + |EscapeOne(token[0])|, Double) == Joined(token[1..], w)
    ensures WordAt(line, i, Double) == Joined(token, w)
  {
    ReadOne(line, i, token[0]);
    JoinedFirst(token[0], token[1..], w);
    assert token == [token[0]] + token[1..];
  }

  /** Inside double quotes, the escaped token reads as itself up to its closing quote. */
  lemma {:induction false} ReadEscaped(line: string, i: nat, token: string, end: nat)
    requires At(line, i, Escape(token)) && end == i + |Escape(token)| < |line| && line[end] == '"'
    ensures WordAt(line, i, Double) == Joined(token, WordAt(line, end + 1, Bare))
    decreases |token|
  {
    if token == "" {
      ReadClosing(line, i);
    } else {
      SplitEscape(line, i, token);
      ReadEscaped(line, i + |EscapeOne(token[0])|, token[1..], end);
      ReadFirst(line, i, token, WordAt(line, end + 1, Bare));
    }
  }

  lemma {:induction false} ScanEscaped(line: string, i: nat, token: string, end: nat)
    requires At(line, i, Escape(token)) && end == i + |Escape(token)| < |line| && line[end] == '"'
    ensures Separators(line, i, Double) == Separators(line, end + 1, Bare)
    decreases |token|
  {
    if token == "" {
      ReadClosing(line, i);
    } else {
      SplitEscape(line, i, token);
      ReadOne(line, i, token[0]);
      ScanEscaped(line, i + |EscapeOne(token[0])|, token[1..], end);
    }
  }

  lemma {:induction false} JoinedFirst(c: char, text: string, w: Option<Word>)
    ensures Prefixed(c, Joined(text, w)) == Joined([c] + text, w)
  {
    if w.Some? {
      assert [c] + (text + w.value.text) == [c] + text + w.value.text;
    }
  }

  lemma {:induction false} QuotedAt(line: string, i: nat, token: string, end: nat)
    requires At(line, i, Quoted(token)) && end == i + |Quoted(token)|
    ensures i + 2 <= end <= |line| && line[i] == '"' && line[end - 1] == '"'
    ensures At(line, i + 1, Escape(token)) && i + 1 + |Escape(token)| == end - 1
  {
    AtSplit(line, i, "\"" + Escape(token), "\"");
    AtSplit(line, i, "\"", Escape(token));
    AtHead(line, i, "\"");
    AtHead(line, end - 1, "\"");
  }

  /** A quoted token is one word, if a blank or the end follows it. */
  lemma {:induction false} ReadQuoted(line: string, i: nat, token: string, end: nat)
    requires At(line, i, Quoted(token)) && end == i + |Quoted(token)|
    requires end < |line| ==> line[end] == ' '
    ensures WordAt(line, i, Bare) == Some(Word(token, end))
    ensures Separators(line, i, Bare) == Separators(line, end, Bare)
  {
    QuotedAt(line, i, token, end);
    ReadEscaped(line, i + 1, token, end - 1);
    ScanEscaped(line, i + 1, token, end - 1);
    ReadEnd(line, i, token, end);
  }

  lemma {:induction false} ReadEnd(line: string, i: nat, token: string, end: nat)
    requires i < end <= |line| && line[i] == '"' && (end < |line| ==> line[end] == ' ')
    requires WordAt(line, i + 1, Double) == Joined(token, WordAt(line, end, Bare))
    ensures WordAt(line, i, Bare) == Some(Word(token, end))
  {
    assert WordAt(line, end, Bare) == Some(Word("", end));
    assert token + "" == token;
  }

  lemma {:induction false} WordsAll(line: string, i: nat, end: nat, tokens: seq<string>)
    requires tokens != [] && i < end <= |line| && line[i] == '"'
    requires WordAt(line, i, Bare) == Some(Word(tokens[0], end))
    requires |tokens| == 1 ==> end == |line|
    requires |tokens| > 1 ==> end < |line| && line[end] == ' ' && Words(line, end + 1) == Some(tokens[1..])
    ensures Words(line, i) == Some(tokens)
  {
    WordsMore(line, i, tokens[0], end, tokens[1..]);
    assert tokens == [tokens[0]] + tokens[1..];
  }

  lemma {:induction false} SplitCommand(line: string, i: nat, tokens: seq<string>)
    requires tokens != [] && At(line, i, Command(tokens))
    ensures At(line, i, Quoted(tokens[0])) && line[i] == '"'
    ensures |tokens| == 1 ==> |Command(tokens)| == |Quoted(tokens[0])|
    ensures |tokens| > 1 ==>
              var end := i + |Quoted(tokens[0])|;
              && |Command(tokens)| == |Quoted(tokens[0])| + 1 + |Command(tokens[1..])|
              && line[end] == ' ' && At(line, end + 1, Command(tokens[1..]))
  {
    var token, rest := tokens[0], tokens[1..];
    if rest != [] {
      AtSplit(line, i, Quoted(token) + " ", Command(rest));
      AtSplit(line, i, Quoted(token), " ");
      AtHead(line, i + |Quoted(token)|, " ");
    }
    AtHead(line, i, Quoted(token));
  }

  /** The first word of the command, and where the others are. */
  lemma {:induction false} CommandHead(line: string, i: nat, tokens: seq<string>) returns (end: nat)
    requires tokens != [] && At(line, i, Command(tokens)) && i + |Command(tokens)| == |line|
    ensures i < end <= |line| && line[i] == '"' && WordAt(line, i, Bare) == Some(Word(tokens[0], end))
    ensures Separators(line, i, Bare) == Separators(line, end, Bare)
    ensures |tokens| == 1 ==> end == |line|
    ensures |tokens| > 1 ==>
              && end < |line| && line[end] == ' ' && At(line, end + 1, Command(tokens[1..]))
              && end + 1 + |Command(tokens[1..])| == |line|
  {
    end := i + |Quoted(tokens[0])|;
    SplitCommand(line, i, tokens);
    ReadQuoted(line, i, tokens[0], end);
  }

  /** The command holds no separator from `i` on. */
  lemma {:induction false} ScanCommand(line: string, i: nat, tokens: seq<string>)
    requires At(line, i, Command(tokens)) && i + |Command(tokens)| == |line|
    ensures Separators(line, i, Bare) == Some([])
    decreases |tokens|
  {
    if tokens != [] {
      var end := CommandHead(line, i, tokens);
      if |tokens| > 1 {
        ScanCommand(line, end + 1, tokens[1..]);
      }
    }
  }

  lemma {:induction false} WordsEnd(line: string)
    ensures Words(line, |line|) == Some([])
  {
  }

  /** One word, then the words behind the space. */
  lemma {:induction false} WordsMore(line: string, i: nat, token: string, end: nat, rest: seq<string>)
    requires i < end <= |line| && line[i] == '"' && WordAt(line, i, Bare) == Some(Word(token, end))
    requires end < |line| ==> line[end] == ' ' && Words(line, end + 1) == Some(rest)
    requires end == |line| ==> rest == []
    ensures Words(line, i) == Some([token] + rest)
  {
    assert SkipBlanks(line, i) == i;
    if end < |line| {
      assert SkipBlanks(line, end) == SkipBlanks(line, end + 1);
    }
  }

  /** Word by word, the line from `i` on is the tokens with single spaces between them. */
  predicate Spells(line: string, i: nat, tokens: seq<string>)
    requires i <= |line|
    decreases |tokens|
  {
    if tokens == [] then i == |line|
    else
      var w := WordAt(line, i, Bare);
      && w.Some? && w.value.text == tokens[0] && i < w.value.end && line[i] == '"'
      && if |tokens| == 1 then w.value.end == |line|
         else w.value.end < |line| && line[w.value.end] == ' ' && Spells(line, w.value.end + 1, tokens[1..])
  }

  lemma {:induction false} CommandSpells(line: string, i: nat, tokens: seq<string>)
    requires At(line, i, Command(tokens)) && i + |Command(tokens)| == |line|
    ensures Spells(line, i, tokens)
    decreases |tokens|
  {
    if tokens != [] {
      var end := CommandHead(line, i, tokens);
      if |tokens| > 1 {
        CommandSpells(line, end + 1, tokens[1..]);
      }
    }
  }

  lemma {:induction false} SpelledReads(line: string, i: nat, tokens: seq<string>)
    requires i <= |line| && Spells(line, i, tokens)
    ensures Words(line, i) == Some(tokens)
    decreases |tokens|
  {
    if tokens != [] {
      var end := WordAt(line, i, Bare).value.end;
      if |tokens| > 1 {
        SpelledReads(line, end + 1, tokens[1..]);
      }
      WordsAll(line, i, end, tokens);
    } else {
      WordsEnd(line);
    }
  }

  /** The command from `i` on reads as the tokens. */
  lemma {:induction false} ReadCommand(line: string, i: nat, tokens: seq<string>)
    requires At(line, i, Command(tokens)) && i + |Command(tokens)| == |line|
    ensures Words(line, i) == Some(tokens)
  {
    CommandSpells(line, i, tokens);
    SpelledReads(line, i, tokens);
  }

  /** The shell runs exactly the tokens as one command, whatever they hold, if the quoted form
      fits the shell's line and argument list; otherwise it runs nothing and the status is 2.  A
      shell that has been asked to exit runs nothing of a line that fits, and the status is 0. */
  lemma {:induction false} RunsTokens<S>(h: Host<S>, tokens: seq<string>, s: S)
    requires tokens != []
    ensures |Command(tokens)| < LINE_SIZE && |tokens| <= ARGUMENT_COUNT && !h.exits(s) ==>
              Run(h, Command(tokens), s)
              == Outcome(h.execute(s, tokens).0, h.execute(s, tokens).1)
    ensures |Command(tokens)| >= LINE_SIZE || (|tokens| > ARGUMENT_COUNT && !h.exits(s)) ==>
              Run(h, Command(tokens), s) == Outcome(s, 2)
    ensures |Command(tokens)| < LINE_SIZE && h.exits(s) ==> Run(h, Command(tokens), s) == Outcome(s, 0)
  {
    var line := Command(tokens);
    assert line[0..|line|] == line && line[..|line|] == line;
    ReadCommand(line, 0, tokens);
    ScanCommand(line, 0, tokens);
  }

  /** Whether the shell runs the tokens it is given. */
  predicate Runs<S>(h: Host<S>, tokens: seq<string>, s: S)
  {
    |Command(tokens)| < LINE_SIZE && |tokens| <= ARGUMENT_COUNT && !h.exits(s)
  }

  /** Whether it runs nothing of them and yet ends with zero. */
  predicate Ignores<S>(h: Host<S>, tokens: seq<string>, s: S)
  {
    |Command(tokens)| < LINE_SIZE && h.exits(s)
  }

  // ----- building the command -----

  lemma {:induction false} EscapeMore(token: string, j: nat)
    requires j < |token|
    ensures Escape(token[..j + 1]) == Escape(token[..j]) + EscapeOne(token[j])
    decreases j
  {
    var t, u := token[..j], token[..j + 1];
    if j > 0 {
      EscapeMore(token[1..], j - 1);
      assert t[1..] == token[1..][..j - 1] && u[1..] == token[1..][..j];
      assert Escape(u) == EscapeOne(token[0]) + (Escape(t[1..]) + EscapeOne(token[j]));
    }
  }

  lemma {:induction false} CommandMore(tokens: seq<string>, i: nat)
    requires i < |tokens|
    ensures Command(tokens[..i + 1])
            == Command(tokens[..i]) + (if i == 0 then "" else " ") + Quoted(tokens[i])
    decreases i
  {
    var t, u := tokens[..i], tokens[..i + 1];
    if i > 0 {
      CommandMore(tokens[1..], i - 1);
      assert t[1..] == tokens[1..][..i - 1] && u[1..] == tokens[1..][..i];
    }
  }

  /** Appends `more` one character at a time; fails when a character and the terminator no longer
      fit. */
  method Append(output: string, more: string, capacity: nat) returns (ok: bool, longer: string)
    requires |output| < capacity
    ensures ok <==> |output + more| < capacity
    ensures ok ==> longer == output + more
  {
    longer := output;
    for k := 0 to |more|
      invariant longer == output + more[..k] && |longer| < capacity
    {
      if |longer| + 1 >= capacity {
        return false, longer;
      }
      longer := longer + [more[k]];
    }
    assert more[..|more|] == more;
    ok := true;
  }

  /** Appends one token, quoted. */
  method AppendQuoted(output: string, token: string, capacity: nat)
      returns (ok: bool, longer: string)
    requires |output| < capacity
    ensures ok <==> |output + Quoted(token)| < capacity
    ensures ok ==> longer == output + Quoted(token)
  {
    ok, longer := Append(output, "\"", capacity);
    if !ok {
      return;
    }
    for j := 0 to |token|
      invariant |longer| < capacity
      invariant longer == output + "\"" + Escape(token[..j])
    {
      EscapeMore(token, j);
      EscapeRises(token, j + 1);
      ok, longer := Append(longer, EscapeOne(token[j]), capacity);
      if !ok {
        return;
      }
    }
    assert token[..|token|] == token;
    ok, longer := Append(longer, "\"", capacity);
  }

  lemma {:induction false} EscapeRises(token: string, j: nat)
    requires j <= |token|
    ensures |Escape(token[..j])| <= |Escape(token)|
    decreases |token| - j
  {
    if j < |token| {
      EscapeMore(token, j);
      EscapeRises(token, j + 1);
    } else {
      assert token[..j] == token;
    }
  }

  lemma {:induction false} CommandRises(tokens: seq<string>, i: nat)
    requires i <= |tokens|
    ensures |Command(tokens[..i])| <= |Command(tokens)|
    decreases |tokens| - i
  {
    if i < |tokens| {
      CommandMore(tokens, i);
      CommandRises(tokens, i + 1);
    } else {
      assert tokens[..i] == tokens;
    }
  }

  /** Builds the command for the shell; fails exactly when it does not fit. */
  method BuildCommand(tokens: seq<string>, capacity: nat) returns (r: Option<string>)
    requires capacity > 0
    ensures r == if |Command(tokens)| < capacity then Some(Command(tokens)) else None
  {
    var output := "";
    for i := 0 to |tokens|
      invariant output == Command(tokens[..i]) && |output| < capacity
    {
      CommandMore(tokens, i);
      CommandRises(tokens, i + 1);
      var ok := true;
      if i != 0 {
        ok, output := Append(output, " ", capacity);
        if !ok {
          return None;
        }
      }
      ok, output := AppendQuoted(output, tokens[i], capacity);
      if !ok {
        return None;
      }
    }
    assert tokens[..|tokens|] == tokens;
    r := Some(output);
  }

  /** A script hands its tokens to the shell.  They reach the command unchanged, or nothing is run
      and the status is 1; but a shell that has been asked to exit runs nothing of a line that
      fits, and reports success. */
  method HandOver<S>(h: Host<S>, tokens: seq<string>, s0: S) returns (s: S, status: int)
    requires tokens != []
    ensures Runs(h, tokens, s0) ==>
              s == h.execute(s0, tokens).0
              && status == if h.execute(s0, tokens).1 == 0 then 0 else 1
    ensures !Runs(h, tokens, s0) ==> s == s0 && (status == 0 || status == 1)
    ensures !Runs(h, tokens, s0) ==> (status == 0 <==> Ignores(h, tokens, s0))
  {
    var command := BuildCommand(tokens, COMMAND_SIZE);
    if command.None? {
      return s0, 1;
    }
    var result;
    s, result := RunLine(h, command.value, s0);
    RunsTokens(h, tokens, s0);
    status := if result == 0 then 0 else 1;
  }

  /** One command that makes the shell exit is enough: whatever tokens follow, if they fit, are
      reported as run, and the state stays. */
  lemma {:induction false} SilentAfterExit<S>(h: Host<S>, quit: seq<string>, tokens: seq<string>, s: S)
    requires quit != [] && tokens != [] && Runs(h, quit, s) && |Command(tokens)| < LINE_SIZE
    requires h.exits(h.execute(s, quit).0)
    ensures var r := Run(h, Command(quit), s);
            Run(h, Command(tokens), r.state) == Outcome(r.state, 0)
  {
    RunsTokens(h, quit, s);
    RunsTokens(h, tokens, h.execute(s, quit).0);
  }
}
