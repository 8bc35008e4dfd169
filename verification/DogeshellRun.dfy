/** Running a command line, one segment after another. */
module DogeshellRun {
  import opened Basics
  import opened ShellQuotes
  import opened DogeshellLine

  /** The commands: what running one does, and whether the shell has been asked to exit. */
  datatype Host<!S> = Host(execute: (S, seq<string>) -> (S, int), exits: S -> bool)

  /** Where a run ends: the state, and the status of the last command or of an error. */
  datatype Outcome<S> = Outcome(state: S, status: int)

  /** Runs the segments from `start` on; `seps` are the separators left. */
  function RunSegments<S>(h: Host<S>, line: string, seps: seq<nat>, start: nat, s: S, status: int)
      : (r: Outcome<S>)
    requires start <= |line| && Separators(line, start, Bare) == Some(seps)
    decreases |seps|
  {
    SegmentScans(line, start, Bare);
    var end := if seps == [] then |line| else seps[0];
    if h.exits(s) then Outcome(s, status)
    else
      WordsAgree(line[..end], start);
      var words := Words(line[..end], start).value;
      if |words| > ARGUMENT_COUNT then Outcome(s, 2)
      else
        var (s', status') := if words == [] then (s, status) else h.execute(s, words);
        if seps == [] then Outcome(s', status')
        else RunSegments(h, line, seps[1..], end + 1, s', status')
  }

  /** Runs a command line. */
  function Run<S>(h: Host<S>, command: string, s: S): (r: Outcome<S>)
  {
    if command == "" then Outcome(s, 0)
    else if |command| >= LINE_SIZE || Separators(command, 0, Bare).None? then Outcome(s, 2)
    else RunSegments(h, command, Separators(command, 0, Bare).value, 0, s, 0)
  }

  // ----- the loops -----

  function Joined(text: string, w: Option<Word>): (r: Option<Word>)
    ensures text == "" ==> r == w
  {
    if w.None? then None
    else
      assert text == "" ==> text + w.value.text == w.value.text;
      Some(Word(text + w.value.text, w.value.end))
  }

  function Appended(words: seq<string>, rest: Option<seq<string>>): (r: Option<seq<string>>)
    ensures words == [] ==> r == rest
  {
    if rest.None? then None
    else
      assert words == [] ==> words + rest.value == rest.value;
      Some(words + rest.value)
  }

  function Preceded(seps: seq<nat>, rest: Option<seq<nat>>): (r: Option<seq<nat>>)
    ensures seps == [] ==> r == rest
  {
    if rest.None? then None
    else
      assert seps == [] ==> seps + rest.value == rest.value;
      Some(seps + rest.value)
  }

  lemma {:induction false} JoinedMore(text: string, c: char, w: Option<Word>)
    ensures Joined(text, Prefixed(c, w)) == Joined(text + [c], w)
  {
    if w.Some? {
      assert text + ([c] + w.value.text) == text + [c] + w.value.text;
    }
  }

  /** Finds the separators of a line. */
  method Scan(line: string) returns (r: Option<seq<nat>>)
    ensures r == Separators(line, 0, Bare)
  {
    var quote := Bare;
    var seps: seq<nat> := [];
    var i := 0;
    while i < |line|
      invariant i <= |line|
      invariant Separators(line, 0, Bare) == Preceded(seps, Separators(line, i, quote))
    {
      var c := line[i];
      if c == '\\' && !quote.Single? {
        if i + 1 == |line| {
          return None;
        }
        i := i + 1;
      } else if !quote.Bare? {
        if Closes(c, quote) {
          quote := Bare;
        }
      } else if Opens(c) {
        quote := QuoteOf(c);
      } else if c == ';' {
        ghost var rest := Separators(line, i + 1, Bare);
        assert rest.Some? ==> seps + ([i] + rest.value) == seps + [i] + rest.value;
        seps := seps + [i];
      }
      i := i + 1;
    }
    r := if quote.Bare? then Some(seps) else None;
    assert seps + [] == seps;
  }

  /** Reads the word at `start`; `used` characters of storage are taken.  The word always fits. */
  method ReadWord(line: string, start: nat, used: nat) returns (r: Option<Word>)
    requires |line| < LINE_SIZE && start < |line| && used <= start
    ensures r == WordAt(line, start, Bare)
    ensures r.Some? ==> |r.value.text| <= r.value.end - start
    ensures r.Some? && r.value.end < |line| ==> Blank(line[r.value.end])
  {
    var quote, text, i := Bare, "", start;
    while i < |line| && !(quote.Bare? && Blank(line[i]))
      invariant start <= i <= |line| && |text| <= i - start
      invariant WordAt(line, start, Bare) == Joined(text, WordAt(line, i, quote))
      decreases |line| - i
    {
      var c := line[i];
      if c == '\\' && !quote.Single? {
        i := i + 1;
        if i == |line| {
          return None;
        }
        c := line[i];
      } else if !quote.Bare? {
        if Closes(c, quote) {
          quote, i := Bare, i + 1;
          continue;
        }
      } else if Opens(c) {
        quote, i := QuoteOf(c), i + 1;
        continue;
      }
      i := i + 1;
      assert used + |text| + 1 < LINE_SIZE;
      JoinedMore(text, c, WordAt(line, i, quote));
      text := text + [c];
    }
    assert text + "" == text;
    r := if quote.Bare? then Some(Word(text, i)) else None;
  }

  /** Splits a line into words; fails for an unfinished quote or escape and for more words than
      the shell takes. */
  method Tokenize(line: string, start: nat) returns (r: Option<seq<string>>)
    requires |line| < LINE_SIZE && start <= |line|
    ensures r.Some? <==> Words(line, start).Some? && |Words(line, start).value| <= ARGUMENT_COUNT
    ensures r.Some? ==> r == Words(line, start)
  {
    var words: seq<string>, i: nat, used: nat := [], start, 0;
    while i < |line|
      invariant start <= i <= |line|
      invariant used <= i + 1 && (words == [] ==> used == 0)
      invariant words != [] && i < |line| ==> Blank(line[i])
      invariant |words| <= ARGUMENT_COUNT
      invariant Words(line, start) == Appended(words, Words(line, i))
      decreases |line| - i
    {
      var j := Skip(line, i);
      if j == |line| {
        break;
      }
      WordMoves(line, j);
      var w := ReadWord(line, j, used);
      if w.None? {
        return None;
      }
      AppendedMore(words, w.value.text, Words(line, w.value.end));
      if |words| == ARGUMENT_COUNT {
        return None;
      }
      words, i, used := words + [w.value.text], w.value.end, used + |w.value.text| + 1;
    }
    assert words + [] == words;
    r := Some(words);
  }

  lemma {:induction false} AppendedMore(words: seq<string>, w: string, rest: Option<seq<string>>)
    ensures Appended(words, if rest.None? then None else Some([w] + rest.value)) == Appended(words + [w], rest)
  {
    if rest.Some? {
      assert words + ([w] + rest.value) == words + [w] + rest.value;
    }
  }

  method Skip(line: string, i: nat) returns (j: nat)
    requires i <= |line|
    ensures j == SkipBlanks(line, i)
    ensures i < |line| && Blank(line[i]) ==> i < j
  {
    j := i;
    while j < |line| && Blank(line[j])
      invariant i <= j <= |line| && SkipBlanks(line, i) == SkipBlanks(line, j)
    {
      j := j + 1;
    }
  }

  /** The shell's entry point. */
  method RunLine<S>(h: Host<S>, command: string, s0: S) returns (s: S, status: int)
    ensures Outcome(s, status) == Run(h, command, s0)
  {
    s, status := s0, 0;
    if command == "" {
      return;
    }
    if |command| >= LINE_SIZE {
      return s, 2;
    }
    var scanned := Scan(command);
    if scanned.None? {
      return s, 2;
    }
    var seps, start, k := scanned.value, 0, 0;
    while k <= |seps| && !h.exits(s)
      invariant k <= |seps| + 1 && start <= |command|
      invariant k <= |seps| ==> Separators(command, start, Bare) == Some(seps[k..])
      invariant k <= |seps| ==>
                  Run(h, command, s0) == RunSegments(h, command, seps[k..], start, s, status)
      invariant k > |seps| ==> Run(h, command, s0) == Outcome(s, status)
      decreases |seps| + 1 - k
    {
      SegmentScans(command, start, Bare);
      var end := if k < |seps| then seps[k] else |command|;
      assert k < |seps| ==> seps[k..][1..] == seps[k + 1..];
      WordsAgree(command[..end], start);
      var words := Tokenize(command[..end], start);
      if words.None? {
        return s, 2;
      }
      if words.value != [] {
        var next := h.execute(s, words.value);
        s, status := next.0, next.1;
      }
      start := if k < |seps| then end + 1 else end;
      k := k + 1;
    }
  }
}
