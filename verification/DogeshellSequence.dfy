/** A line of commands with semicolons between them runs them one after another. */
module DogeshellSequence {
  import opened Basics
  import opened ShellQuotes
  import opened DogeshellLine
  import opened DogeshellRun

  // ----- reading does not depend on where the text stands -----

  function Moved(n: nat, ks: Option<seq<nat>>): (r: Option<seq<nat>>)
  {
    if ks.None? then None else Some(MovedAll(n, ks.value))
  }

  function MovedAll(n: nat, ks: seq<nat>): (r: seq<nat>)
    ensures |r| == |ks| && forall k :: 0 <= k < |ks| ==> r[k] == ks[k] + n
  {
    seq(|ks|, k requires 0 <= k < |ks| => ks[k] + n)
  }

  lemma {:induction false} MoveSeparators(p: string, s: string, i: nat, q: Quote)
    requires i <= |s|
    ensures Separators(p + s, |p| + i, q) == Moved(|p|, Separators(s, i, q))
    decreases |s| - i
  {
    var t, n := p + s, |p|;
    if i < |s| {
      assert t[n + i] == s[i];
      if s[i] == '\\' && !q.Single? {
        if i + 1 < |s| { MoveSeparators(p, s, i + 2, q); }
      } else if !q.Bare? {
        MoveSeparators(p, s, i + 1, if Closes(s[i], q) then Bare else q);
      } else if Opens(s[i]) {
        MoveSeparators(p, s, i + 1, QuoteOf(s[i]));
      } else {
        MoveSeparators(p, s, i + 1, Bare);
        var rest := Separators(s, i + 1, Bare);
        if rest.Some? {
          assert MovedAll(n, [i] + rest.value) == [n + i] + MovedAll(n, rest.value);
        }
      }
    }
  }

  function MovedWord(n: nat, w: Option<Word>): (r: Option<Word>)
  {
    if w.None? then None else Some(Word(w.value.text, w.value.end + n))
  }

  lemma {:induction false} MoveWord(p: string, s: string, i: nat, q: Quote)
    requires i <= |s|
    ensures WordAt(p + s, |p| + i, q) == MovedWord(|p|, WordAt(s, i, q))
    decreases |s| - i
  {
    var t, n := p + s, |p|;
    if i < |s| {
      assert t[n + i] == s[i];
      if q.Bare? && Blank(s[i]) {
      } else if s[i] == '\\' && !q.Single? {
        if i + 1 < |s| {
          assert t[n + i + 1] == s[i + 1];
          MoveWord(p, s, i + 2, q);
        }
      } else if !q.Bare? {
        MoveWord(p, s, i + 1, if Closes(s[i], q) then Bare else q);
      } else if Opens(s[i]) {
        MoveWord(p, s, i + 1, QuoteOf(s[i]));
      } else {
        MoveWord(p, s, i + 1, Bare);
      }
    }
  }

  lemma {:induction false} MoveBlanks(p: string, s: string, i: nat)
    requires i <= |s|
    ensures SkipBlanks(p + s, |p| + i) == |p| + SkipBlanks(s, i)
    decreases |s| - i
  {
    if i < |s| {
      assert (p + s)[|p| + i] == s[i];
      if Blank(s[i]) { MoveBlanks(p, s, i + 1); }
    }
  }

  lemma {:induction false} MoveWords(p: string, s: string, i: nat)
    requires i <= |s|
    ensures Words(p + s, |p| + i) == Words(s, i)
    decreases |s| - i
  {
    MoveBlanks(p, s, i);
    var j := SkipBlanks(s, i);
    if j < |s| {
      MoveWord(p, s, j, Bare);
      WordMoves(s, j);
      var w := WordAt(s, j, Bare);
      if w.Some? { MoveWords(p, s, w.value.end); }
    }
  }

  /** The first segment of moved text has the same words. */
  lemma {:induction false} MoveSegment(p: string, line: string, start: nat, end: nat)
    requires start <= end <= |line|
    ensures |p| + start <= |p| + end <= |p + line|
    ensures Words((p + line)[..|p| + end], |p| + start) == Words(line[..end], start)
  {
    assert (p + line)[..|p| + end] == p + line[..end];
    MoveWords(p, line[..end], start);
  }

  /** Running the segments from `i` on: the words of the first, then the others. */
  lemma {:induction false} RunHead<S>(h: Host<S>, line: string, seps: seq<nat>, i: nat, words: seq<string>, s: S,
                                      status: int)
    requires Heads(line, seps, i, words)
    ensures var ran := if words == [] then (s, status) else h.execute(s, words);
            RunSegments(h, line, seps, i, s, status)
            == if h.exits(s) then Outcome(s, status)
               else if |words| > ARGUMENT_COUNT then Outcome(s, 2)
               else RunSegments(h, line, seps[1..], seps[0] + 1, ran.0, ran.1)
  {
  }

  /** Running the only segment from `i` on. */
  lemma {:induction false} RunOnly<S>(h: Host<S>, line: string, i: nat, words: seq<string>, s: S, status: int)
    requires i <= |line| && Separators(line, i, Bare) == Some([]) && Words(line[..|line|], i) == Some(words)
    ensures var ran := if words == [] then (s, status) else h.execute(s, words);
            RunSegments(h, line, [], i, s, status)
            == if h.exits(s) then Outcome(s, status)
               else if |words| > ARGUMENT_COUNT then Outcome(s, 2)
               else Outcome(ran.0, ran.1)
  {
  }

  /** The first of several segments of `line`: its end, its words and the separators behind it. */
  ghost predicate Heads(line: string, seps: seq<nat>, i: nat, words: seq<string>)
  {
    && seps != [] && i <= seps[0] < |line| && Words(line[..seps[0]], i) == Some(words)
    && Separators(line, i, Bare) == Some(seps) && Separators(line, seps[0] + 1, Bare) == Some(seps[1..])
  }

  lemma {:induction false} MoveHead(p: string, line: string, seps: seq<nat>, start: nat) returns (words: seq<string>)
    requires start <= |line| && Separators(line, start, Bare) == Some(seps) && seps != []
    ensures Heads(line, seps, start, words) && Heads(p + line, MovedAll(|p|, seps), |p| + start, words)
    ensures MovedAll(|p|, seps)[1..] == MovedAll(|p|, seps[1..])
  {
    MoveSeparators(p, line, start, Bare);
    SegmentScans(line, start, Bare);
    SegmentScans(p + line, |p| + start, Bare);
    MoveSegment(p, line, start, seps[0]);
    assert MovedAll(|p|, seps)[1..] == MovedAll(|p|, seps[1..]);
    WordsAgree(line[..seps[0]], start);
    words := Words(line[..seps[0]], start).value;
  }

  lemma {:induction false} MoveOnly(p: string, line: string, start: nat) returns (words: seq<string>)
    requires start <= |line| && Separators(line, start, Bare) == Some([])
    ensures Words(line[..|line|], start) == Some(words)
    ensures Separators(p + line, |p| + start, Bare) == Some([])
    ensures Words((p + line)[..|p + line|], |p| + start) == Some(words)
  {
    MoveSeparators(p, line, start, Bare);
    SegmentScans(line, start, Bare);
    MoveSegment(p, line, start, |line|);
    WordsAgree(line[..|line|], start);
    words := Words(line[..|line|], start).value;
  }

  lemma {:induction false} MoveRun<S>(h: Host<S>, p: string, line: string, seps: seq<nat>, start: nat, s: S,
                                      status: int)
    requires start <= |line| && Separators(line, start, Bare) == Some(seps)
    ensures Separators(p + line, |p| + start, Bare) == Some(MovedAll(|p|, seps))
    ensures RunSegments(h, p + line, MovedAll(|p|, seps), |p| + start, s, status)
            == RunSegments(h, line, seps, start, s, status)
    decreases |seps|
  {
    if seps == [] {
      var words := MoveOnly(p, line, start);
      RunOnly(h, line, start, words, s, status);
      RunOnly(h, p + line, |p| + start, words, s, status);
      assert MovedAll(|p|, seps) == [];
    } else {
      var words := MoveHead(p, line, seps, start);
      var ran := if words == [] then (s, status) else h.execute(s, words);
      MoveRun(h, p, line, seps[1..], seps[0] + 1, ran.0, ran.1);
      RunHead(h, line, seps, start, words, s, status);
      RunHead(h, p + line, MovedAll(|p|, seps), |p| + start, words, s, status);
    }
  }

  // ----- a command, a semicolon, and the rest -----

  /** A command without separators, quotes and escapes finished. */
  predicate Complete(c: string)
  {
    Separators(c, 0, Bare) == Some([])
  }

  lemma {:induction false} ScanFirst(c: string, rest: string, i: nat, q: Quote)
    requires i <= |c| && Separators(c, i, q) == Some([])
    ensures Separators(c + ";" + rest, i, q) == Separators(c + ";" + rest, |c|, Bare)
    decreases |c| - i
  {
    var t := c + ";" + rest;
    if i < |c| {
      assert t[i] == c[i];
      if c[i] == '\\' && !q.Single? {
        ScanFirst(c, rest, i + 2, q);
      } else if !q.Bare? {
        ScanFirst(c, rest, i + 1, if Closes(c[i], q) then Bare else q);
      } else if Opens(c[i]) {
        ScanFirst(c, rest, i + 1, QuoteOf(c[i]));
      } else {
        ScanFirst(c, rest, i + 1, Bare);
      }
    }
  }

  /** A scanned text run with a status to start from. */
  function RunText<S>(h: Host<S>, text: string, s: S, status: int): (r: Outcome<S>)
    requires Separators(text, 0, Bare).Some?
  {
    RunSegments(h, text, Separators(text, 0, Bare).value, 0, s, status)
  }

  /** One command: nothing happens if it has no words, and it is refused if it has too many. */
  function RunCommand<S>(h: Host<S>, c: string, s: S, status: int): (r: Option<Outcome<S>>)
    requires Complete(c)
  {
    WordsAgree(c, 0);
    var words := Words(c, 0).value;
    if |words| > ARGUMENT_COUNT then None
    else if words == [] then Some(Outcome(s, status))
    else Some(Outcome(h.execute(s, words).0, h.execute(s, words).1))
  }

  /** A command and a semicolon before a text run the command first, and then the text, unless the
      command is refused or the shell has been asked to exit. */
  lemma {:induction false} RunFirst<S>(h: Host<S>, c: string, rest: string, s: S, status: int)
    requires Complete(c) && Separators(rest, 0, Bare).Some?
    ensures Separators(c + ";" + rest, 0, Bare).Some?
    ensures RunText(h, c + ";" + rest, s, status)
            == if h.exits(s) then Outcome(s, status)
               else if RunCommand(h, c, s, status).None? then Outcome(s, 2)
               else var r := RunCommand(h, c, s, status).value; RunText(h, rest, r.state, r.status)
  {
    var t, p := c + ";" + rest, c + ";";
    ScanFirst(c, rest, 0, Bare);
    MoveSeparators(p, rest, 0, Bare);
    var seps := Separators(rest, 0, Bare).value;
    assert t[|c|] == ';';
    assert Separators(t, 0, Bare) == Some([|c|] + MovedAll(|p|, seps));
    assert t[..|c|] == c;
    assert ([|c|] + MovedAll(|p|, seps))[1..] == MovedAll(|p|, seps);
    var ran := RunCommand(h, c, s, status);
    if ran.Some? {
      MoveRun(h, p, rest, seps, 0, ran.value.state, ran.value.status);
    }
  }

  function JoinAll(cs: seq<string>): (t: string)
  {
    if cs == [] then "" else if |cs| == 1 then cs[0] else cs[0] + ";" + JoinAll(cs[1..])
  }

  /** Commands one after another. */
  function RunEach<S>(h: Host<S>, cs: seq<string>, s: S, status: int): (r: Outcome<S>)
    requires forall k :: 0 <= k < |cs| ==> Complete(cs[k])
  {
    if cs == [] || h.exits(s) then Outcome(s, status)
    else
      var r := RunCommand(h, cs[0], s, status);
      if r.None? then Outcome(s, 2) else RunEach(h, cs[1..], r.value.state, r.value.status)
  }

  lemma {:induction false} RunJoined<S>(h: Host<S>, cs: seq<string>, s: S, status: int)
    requires cs != [] && forall k :: 0 <= k < |cs| ==> Complete(cs[k])
    ensures Separators(JoinAll(cs), 0, Bare).Some?
    ensures RunText(h, JoinAll(cs), s, status) == RunEach(h, cs, s, status)
    decreases |cs|
  {
    assert Complete(cs[0]);
    if |cs| == 1 {
      assert cs[0][..|cs[0]|] == cs[0];
    } else {
      var r := RunCommand(h, cs[0], s, status);
      if r.Some? {
        RunJoined(h, cs[1..], r.value.state, r.value.status);
      } else {
        RunJoined(h, cs[1..], s, status);
      }
      RunFirst(h, cs[0], JoinAll(cs[1..]), s, status);
    }
  }

  /** A line of complete commands with semicolons between them runs them one after another. */
  lemma {:induction false} RunsSequence<S>(h: Host<S>, cs: seq<string>, s: S)
    requires cs != [] && forall k :: 0 <= k < |cs| ==> Complete(cs[k])
    requires JoinAll(cs) != "" && |JoinAll(cs)| < LINE_SIZE
    ensures Run(h, JoinAll(cs), s) == RunEach(h, cs, s, 0)
  {
    RunJoined(h, cs, s, 0);
  }
}
