/** The kernel shell's view of a command line: separators, words and quoting. */
module DogeshellLine {
  import opened Basics
  import opened ShellQuotes

  const LINE_SIZE: nat := 256
  const ARGUMENT_COUNT: nat := 24

  /** The positions of the separators from `i` on, where quote `q` is open; nothing if the line
      ends in an escape or inside a quote. */
  function Separators(line: string, i: nat, q: Quote): (r: Option<seq<nat>>)
    requires i <= |line|
    decreases |line| - i
  {
    if i == |line| then (if q.Bare? then Some([]) else None)
    else
      var c := line[i];
      if c == '\\' && !q.Single? then
        if i + 1 == |line| then None else Separators(line, i + 2, q)
      else if !q.Bare? then Separators(line, i + 1, if Closes(c, q) then Bare else q)
      else if Opens(c) then Separators(line, i + 1, QuoteOf(c))
      else
        var rest := Separators(line, i + 1, Bare);
        if c == ';' && rest.Some? then Some([i] + rest.value) else rest
  }

  /** A word and where it ends. */
  datatype Word = Word(text: string, end: nat)

  function Prefixed(c: char, w: Option<Word>): (r: Option<Word>)
  {
    if w.None? then None else Some(Word([c] + w.value.text, w.value.end))
  }

  /** The rest of the word at `i`, where quote `q` is open. */
  function WordAt(line: string, i: nat, q: Quote): (r: Option<Word>)
    requires i <= |line|
    ensures r.Some? ==> i <= r.value.end <= |line|
    decreases |line| - i
  {
    if i == |line| then (if q.Bare? then Some(Word("", i)) else None)
    else
      var c := line[i];
      if q.Bare? && Blank(c) then Some(Word("", i))
      else if c == '\\' && !q.Single? then
        if i + 1 == |line| then None else Prefixed(line[i + 1], WordAt(line, i + 2, q))
      else if !q.Bare? then
        if Closes(c, q) then WordAt(line, i + 1, Bare) else Prefixed(c, WordAt(line, i + 1, q))
      else if Opens(c) then WordAt(line, i + 1, QuoteOf(c))
      else Prefixed(c, WordAt(line, i + 1, Bare))
  }

  function SkipBlanks(line: string, i: nat): (j: nat)
    requires i <= |line|
    ensures i <= j <= |line|
    ensures j < |line| ==> !Blank(line[j])
    decreases |line| - i
  {
    if i < |line| && Blank(line[i]) then SkipBlanks(line, i + 1) else i
  }

  /** A word that is there takes up at least one character. */
  lemma {:induction false} WordMoves(line: string, i: nat)
    requires i < |line| && !Blank(line[i])
    ensures WordAt(line, i, Bare).Some? ==> i < WordAt(line, i, Bare).value.end
  {
  }

  /** The words of the line from `i` on. */
  function Words(line: string, i: nat): (r: Option<seq<string>>)
    requires i <= |line|
    decreases |line| - i
  {
    var j := SkipBlanks(line, i);
    if j == |line| then Some([])
    else
      var w := WordAt(line, j, Bare);
      WordMoves(line, j);
      if w.None? then None
      else
        var rest := Words(line, w.value.end);
        if rest.None? then None else Some([w.value.text] + rest.value)
  }

  // ----- the scanner and the tokenizer agree -----

  /** Where the scanner sees no unfinished quote or escape, neither does the tokenizer. */
  lemma {:induction false} WordAgrees(line: string, i: nat, q: Quote)
    requires i <= |line| && Separators(line, i, q).Some?
    ensures WordAt(line, i, q).Some?
    ensures Separators(line, WordAt(line, i, q).value.end, Bare).Some?
    decreases |line| - i
  {
    if i < |line| {
      var c := line[i];
      if q.Bare? && Blank(c) {
      } else if c == '\\' && !q.Single? {
        WordAgrees(line, i + 2, q);
      } else if !q.Bare? {
        WordAgrees(line, i + 1, if Closes(c, q) then Bare else q);
      } else if Opens(c) {
        WordAgrees(line, i + 1, QuoteOf(c));
      } else {
        WordAgrees(line, i + 1, Bare);
      }
    }
  }

  lemma {:induction false} SkipAgrees(line: string, i: nat)
    requires i <= |line| && Separators(line, i, Bare).Some?
    ensures Separators(line, SkipBlanks(line, i), Bare).Some?
    decreases |line| - i
  {
    if i < |line| && Blank(line[i]) {
      SkipAgrees(line, i + 1);
    }
  }

  lemma {:induction false} WordsAgree(line: string, i: nat)
    requires i <= |line| && Separators(line, i, Bare).Some?
    ensures Words(line, i).Some?
    decreases |line| - i
  {
    var j := SkipBlanks(line, i);
    SkipAgrees(line, i);
    if j < |line| {
      WordAgrees(line, j, Bare);
      WordMoves(line, j);
      WordsAgree(line, WordAt(line, j, Bare).value.end);
    }
  }

  /** Cutting the line at its first separator leaves a segment without unfinished quotes or
      escapes, and the scan goes on behind it. */
  lemma {:induction false} SegmentScans(line: string, i: nat, q: Quote)
    requires i <= |line| && Separators(line, i, q).Some?
    ensures var seps := Separators(line, i, q).value;
            var end := if seps == [] then |line| else seps[0];
            && i <= end <= |line|
            && Separators(line[..end], i, q) == Some([])
            && (seps != [] ==> end < |line| && Separators(line, end + 1, Bare) == Some(seps[1..]))
    decreases |line| - i
  {
    var seps := Separators(line, i, q).value;
    var end := if seps == [] then |line| else seps[0];
    if i == |line| {
      assert line[..end] == line;
    } else {
      var c := line[i];
      if c == '\\' && !q.Single? {
        SegmentScans(line, i + 2, q);
      } else if !q.Bare? {
        SegmentScans(line, i + 1, if Closes(c, q) then Bare else q);
      } else if Opens(c) {
        SegmentScans(line, i + 1, QuoteOf(c));
      } else if c != ';' {
        SegmentScans(line, i + 1, Bare);
      }
    }
  }
}
