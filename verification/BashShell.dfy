/** The index-driven loops of the bash front end. */
module BashShell {
  import opened Basics
  import opened ShellQuotes
  import opened BashLexer
  import opened BashRun

  lemma {:induction false} SuffixStep(s: string, i: nat, n: nat)
    requires i + n <= |s|
    ensures s[i..][n..] == s[i + n..]
  {
  }

  method ReadOperator(source: string, i: nat) returns (op: Kind, length: nat)
    requires i < |source| && IsOperator(source[i])
    ensures (op, length) == OperatorAt(source[i..])
  {
    var c := source[i];
    op, length := Unsupported, 1;
    if c == ';' {
      op := Semicolon;
    } else if i + 1 < |source| && source[i + 1] == c {
      op := if c == '&' then And else if c == '|' then Or else Unsupported;
      length := 2;
    }
  }

  /** Finds the next operator from `start` on: where the segment ends, and what ends it. */
  method FindNextOperator(source: string, start: nat)
      returns (ok: bool, end: nat, length: nat, op: Option<Kind>)
    requires start <= |source|
    ensures ok <==> Reach(source[start..], Bare).Some?
    ensures ok ==> end == start + Reach(source[start..], Bare).value <= |source|
    ensures ok && end == |source| ==> length == 0 && op == None
    ensures ok && end < |source| ==> IsOperator(source[end])
    ensures ok && end < |source| ==>
              op == Some(OperatorAt(source[end..]).0) && length == OperatorAt(source[end..]).1
  {
    var quote, i := Bare, start;
    end, length, op := start, 0, None;
    while i < |source| && !(quote.Bare? && IsOperator(source[i]))
      invariant start <= i <= |source|
      invariant Reach(source[start..], Bare) == Plus(i - start, Reach(source[i..], quote))
      decreases |source| - i
    {
      var n;
      n, quote := PassOne(source, i, quote);
      if n == 0 {
        return false, end, length, op;
      }
      i := i + n;
    }
    ok := quote.Bare?;
    end := i;
    if i < |source| {
      var kind;
      kind, length := ReadOperator(source, i);
      op := Some(kind);
    }
  }

  /** Passes over one character, or two for an escape; none if the escape is unfinished. */
  method PassOne(source: string, i: nat, quote: Quote) returns (n: nat, next: Quote)
    requires i < |source| && !(quote.Bare? && IsOperator(source[i]))
    ensures i + n <= |source|
    ensures n == 0 ==> Reach(source[i..], quote) == None
    ensures n > 0 ==> Reach(source[i..], quote) == Plus(n, Reach(source[i + n..], next))
  {
    var c := source[i];
    next := quote;
    SuffixStep(source, i, 1);
    if c == '\\' && !quote.Single? {
      if i + 1 == |source| {
        return 0, next;
      }
      SuffixStep(source, i, 2);
      return 2, next;
    }
    if !quote.Bare? {
      if Closes(c, quote) {
        next := Bare;
      }
    } else if Opens(c) {
      next := QuoteOf(c);
    }
    n := 1;
  }

  // ----- tokenizing -----

  function Following(tokens: seq<Token>, r: Lexed): (l: Lexed)
    ensures tokens == [] ==> l == r
  {
    if r.Tokens? then
      assert tokens == [] ==> tokens + r.tokens == r.tokens;
      Tokens(tokens + r.tokens)
    else r
  }

  lemma {:induction false} FollowingMore(tokens: seq<Token>, t: Token, r: Lexed)
    ensures Following(tokens, Before(t, r)) == Following(tokens + [t], r)
  {
    if r.Tokens? {
      assert tokens + ([t] + r.tokens) == tokens + [t] + r.tokens;
    }
  }

  /** What the tokenizer has read so far. */
  datatype Reading = Reading(i: nat, quote: Quote, word: Option<string>, used: nat, tokens: seq<Token>)

  /** The tokens it will end with. */
  function Ahead(env: string -> string, source: string, s: Reading): (r: Lexed)
    requires s.i <= |source|
  {
    Following(s.tokens, Lex(env, source[s.i..], s.quote, s.word, s.used, |s.tokens|))
  }

  /** A step of the tokenizer: it goes on, or stops with an error. */
  datatype Step = More(s: Reading) | Stop(r: Lexed)

  ghost predicate Steps(env: string -> string, source: string, s: Reading, step: Step)
    requires s.i <= |source|
  {
    match step
    case More(t) => s.i <= t.i <= |source| && Ahead(env, source, t) == Ahead(env, source, s)
    case Stop(r) => !r.Tokens? && Ahead(env, source, s) == r
  }

  /** Ends the word read so far. */
  method EndWord(s: Reading) returns (step: Step)
    requires s.word.Some?
    ensures step == if s.used >= LINE_SIZE || |s.tokens| >= TOKEN_COUNT then Stop(TooLong)
                    else More(s.(word := None, used := s.used + 1, tokens := s.tokens + [Word(s.word.value)]))
  {
    if s.used >= LINE_SIZE || |s.tokens| == TOKEN_COUNT || |s.tokens| > TOKEN_COUNT {
      return Stop(TooLong);
    }
    return More(s.(word := None, used := s.used + 1, tokens := s.tokens + [Word(s.word.value)]));
  }

  method StepBlank(env: string -> string, source: string, s: Reading) returns (step: Step)
    requires s.i < |source| && s.quote.Bare? && Blank(source[s.i])
    ensures Steps(env, source, s, step) && (step.More? ==> s.i < step.s.i)
  {
    SuffixStep(source, s.i, 1);
    if s.word.None? {
      return More(s.(i := s.i + 1));
    }
    step := EndWord(s);
    if step.More? {
      FollowingMore(s.tokens, Word(s.word.value),
                    Lex(env, source[s.i + 1..], Bare, None, s.used + 1, |s.tokens| + 1));
      step := More(step.s.(i := s.i + 1));
    }
  }

  method StepOperator(env: string -> string, source: string, s: Reading) returns (step: Step)
    requires s.i < |source| && s.quote.Bare? && IsOperator(source[s.i])
    ensures Steps(env, source, s, step) && (step.More? ==> s.i < step.s.i)
  {
    var t := s;
    assert Lex(env, source[s.i..], Bare, s.word, s.used, |s.tokens|)
        == if s.word.None? then LexOperator(env, source[s.i..], s.used, |s.tokens|)
           else if s.used >= LINE_SIZE || |s.tokens| >= TOKEN_COUNT then TooLong
           else Before(Word(s.word.value), LexOperator(env, source[s.i..], s.used + 1, |s.tokens| + 1));
    if s.word.Some? {
      step := EndWord(s);
      if step.Stop? {
        return;
      }
      t := step.s;
      FollowingMore(s.tokens, Word(s.word.value), LexOperator(env, source[s.i..], t.used, |t.tokens|));
    }
    if |t.tokens| >= TOKEN_COUNT {
      return Stop(TooLong);
    }
    var op := OperatorAt(source[s.i..]);
    SuffixStep(source, s.i, op.1);
    assert LexOperator(env, source[s.i..], t.used, |t.tokens|)
        == Before(Operator(op.0), Lex(env, source[s.i + op.1..], Bare, None, t.used, |t.tokens| + 1));
    FollowingMore(t.tokens, Operator(op.0),
                  Lex(env, source[s.i + op.1..], Bare, None, t.used, |t.tokens| + 1));
    step := More(t.(i := s.i + op.1, tokens := t.tokens + [Operator(op.0)]));
  }

  method StepInWord(env: string -> string, source: string, s: Reading) returns (step: Step)
    requires s.i < |source| && s.word.Some?
    requires !(s.quote.Bare? && (Blank(source[s.i]) || IsOperator(source[s.i])))
    ensures Steps(env, source, s, step) && (step.More? ==> s.i < step.s.i)
  {
    var c, word := source[s.i], s.word.value;
    SuffixStep(source, s.i, 1);
    assert Lex(env, source[s.i..], s.quote, s.word, s.used, |s.tokens|)
        == LexInWord(env, source[s.i..], s.quote, word, s.used, |s.tokens|);
    if s.quote.Bare? && Opens(c) {
      return More(s.(i := s.i + 1, quote := QuoteOf(c)));
    }
    if !s.quote.Bare? && Closes(c, s.quote) {
      return More(s.(i := s.i + 1, quote := Bare));
    }
    if c == '\\' && !s.quote.Single? {
      if s.i + 1 == |source| {
        return Stop(Unfinished);
      }
      if s.used + 1 >= LINE_SIZE {
        return Stop(TooLong);
      }
      SuffixStep(source, s.i, 2);
      return More(s.(i := s.i + 2, word := Some(word + [source[s.i + 1]]), used := s.used + 1));
    }
    if c == '$' && !s.quote.Single? {
      step := StepExpansion(env, source, s);
      return;
    }
    if s.used + 1 >= LINE_SIZE {
      return Stop(TooLong);
    }
    return More(s.(i := s.i + 1, word := Some(word + [c]), used := s.used + 1));
  }

  method StepExpansion(env: string -> string, source: string, s: Reading) returns (step: Step)
    requires s.i < |source| && s.word.Some? && source[s.i] == '$' && !s.quote.Single?
    ensures Steps(env, source, s, step) && (step.More? ==> s.i < step.s.i)
  {
    var e := ExpansionAt(source[s.i..]);
    assert Lex(env, source[s.i..], s.quote, s.word, s.used, |s.tokens|)
        == LexInWord(env, source[s.i..], s.quote, s.word.value, s.used, |s.tokens|);
    if e.Bad? {
      return Stop(BadExpansion);
    }
    var value, n := if e.Name? then env(e.name) else "$", if e.Name? then e.length else 1;
    SuffixStep(source, s.i, n);
    assert LexInWord(env, source[s.i..], s.quote, s.word.value, s.used, |s.tokens|)
        == LexValue(env, source[s.i + n..], s.quote, s.word.value, value, s.used, |s.tokens|);
    if s.used + |value| >= LINE_SIZE {
      return Stop(TooLong);
    }
    return More(s.(i := s.i + n, word := Some(s.word.value + value), used := s.used + |value|));
  }

  method StepOne(env: string -> string, source: string, s: Reading) returns (step: Step)
    requires s.i < |source|
    ensures Steps(env, source, s, step) && (step.More? ==> s.i < step.s.i)
  {
    var c := source[s.i];
    if s.quote.Bare? && Blank(c) {
      step := StepBlank(env, source, s);
    } else if s.quote.Bare? && IsOperator(c) {
      step := StepOperator(env, source, s);
    } else if s.word.Some? {
      step := StepInWord(env, source, s);
    } else if s.used >= LINE_SIZE || |s.tokens| >= TOKEN_COUNT {
      step := Stop(TooLong);
    } else {
      var t := s.(word := Some(""));
      assert Ahead(env, source, t) == Ahead(env, source, s);
      step := StepInWord(env, source, t);
    }
  }

  /** Splits a segment into tokens. */
  method Tokenize(env: string -> string, source: string) returns (r: Lexed)
    ensures r == Lex(env, source, Bare, None, 0, 0)
  {
    var s := Reading(0, Bare, None, 0, []);
    assert source[0..] == source;
    while s.i < |source|
      invariant s.i <= |source| && Ahead(env, source, s) == Lex(env, source, Bare, None, 0, 0)
      decreases |source| - s.i
    {
      var step := StepOne(env, source, s);
      if step.Stop? {
        return step.r;
      }
      s := step.s;
    }
    if !s.quote.Bare? {
      return Unfinished;
    }
    if s.word.Some? {
      var step := EndWord(s);
      if step.Stop? {
        return TooLong;
      }
      s := step.s;
    }
    assert s.tokens + [] == s.tokens;
    r := Tokens(s.tokens);
  }

  // ----- running a line -----

  method HasCommand(segment: string) returns (b: bool)
    ensures b == HasText(segment)
  {
    for i := 0 to |segment|
      invariant forall k :: 0 <= k < i ==> Blank(segment[k])
    {
      if !Blank(segment[i]) {
        return true;
      }
    }
    return false;
  }

  /** Tokenizes and runs a segment. */
  method RunWords<S>(h: Host<S>, sh: Shell<S>, segment: string) returns (r: Option<(Shell<S>, int)>)
    requires Clean(segment, Bare) && HasText(segment)
    ensures r == RunSegment(h, sh, segment)
  {
    var env := Variables(h, sh);
    LexClean(env, segment, Bare, None, 0, 0);
    var lexed := Tokenize(env, segment);
    if !lexed.Tokens? {
      return None;
    }
    var ran := h.execute(sh.state, sh.last, Arguments(lexed.tokens));
    return Some((Shell(ran.0, ran.1), ran.1));
  }

  /** Skips blanks from `i` on. */
  method Skip(source: string, i: nat) returns (next: nat)
    requires i <= |source|
    ensures i <= next <= |source| && source[next..] == SkipBlanks(source[i..])
  {
    next := i;
    while next < |source| && Blank(source[next])
      invariant i <= next <= |source| && SkipBlanks(source[i..]) == SkipBlanks(source[next..])
    {
      SuffixStep(source, next, 1);
      next := next + 1;
    }
  }

  /** What the loop carries from one segment to the next. */
  datatype Flags<S> = Flags(sh: Shell<S>, status: int, should: bool, needs: bool)

  function Rest<S>(h: Host<S>, source: string, i: nat, f: Flags<S>): (r: Outcome<S>)
    requires i <= |source|
  {
    Loop(h, source[i..], f.sh, f.status, f.should, f.needs)
  }

  /** Runs the segment at `i`, if it is its turn. */
  method RunTurn<S>(h: Host<S>, source: string, i: nat, end: nat, op: Option<Kind>, has: bool, f: Flags<S>)
      returns (ok: bool, sh: Shell<S>, status: int)
    requires i < |source| && !h.exits(f.sh.state)
    requires Reach(source[i..], Bare) == Some(end - i) && i <= end <= |source|
    requires end < |source| ==> IsOperator(source[end]) && op == Some(OperatorAt(source[end..]).0)
    requires end == |source| ==> op == None
    requires has == HasText(source[i..end])
    ensures !ok ==> Rest(h, source, i, f) == Outcome(sh.state, 2)
    ensures ok ==> Rest(h, source, i, f) == LoopOn(h, source[i..], end - i, sh, status, f.needs)
  {
    SuffixStep(source, i, end - i);
    assert source[i..][..end - i] == source[i..end];
    sh, status := f.sh, f.status;
    ok := true;
    ReachedIsClean(source[i..], Bare);
    if f.should && has {
      var ran := RunWords(h, f.sh, source[i..end]);
      if ran.None? {
        return false, sh, status;
      }
      sh, status := ran.value.0, ran.value.1;
    } else if f.should && op != None && op != Some(Semicolon) {
      ok := false;
    }
  }

  /** What the loop does behind an operator, where `tail` is the rest of the line. */
  function Behind<S>(h: Host<S>, tail: string, op: Kind, sh: Shell<S>, status: int): (r: Outcome<S>)
  {
    if op.Unsupported? then Outcome(sh.state, 2)
    else if tail == "" then Outcome(sh.state, if op.Semicolon? then status else 2)
    else Loop(h, tail, sh, status, Goes(op, status), !op.Semicolon?)
  }

  /** The loop behind a segment, told by places in the whole line. */
  lemma {:induction false} LoopOnAt<S>(h: Host<S>, source: string, i: nat, end: nat, sh: Shell<S>,
                                       status: int, needs: bool)
    requires i <= end <= |source| && (end < |source| ==> IsOperator(source[end]))
    ensures LoopOn(h, source[i..], end - i, sh, status, needs)
            == if needs && !HasText(source[i..end]) then Outcome(sh.state, 2)
               else if end == |source| then Outcome(sh.state, status)
               else
                 var (op, length) := OperatorAt(source[end..]);
                 Behind(h, SkipBlanks(source[end + length..]), op, sh, status)
  {
    SuffixStep(source, i, end - i);
    assert source[i..][..end - i] == source[i..end];
    if end < |source| {
      SuffixStep(source, i, end - i + OperatorAt(source[end..]).1);
    }
  }

  /** What follows a segment: the flags for the next one, or the end. */
  method Follow<S>(h: Host<S>, source: string, i: nat, end: nat, length: nat, op: Option<Kind>, has: bool,
                   sh: Shell<S>, status: int, needs: bool)
      returns (more: bool, next: nat, f: Flags<S>)
    requires i <= end <= |source| && has == HasText(source[i..end])
    requires end < |source| ==> IsOperator(source[end])
    requires end < |source| ==> op == Some(OperatorAt(source[end..]).0) && length == OperatorAt(source[end..]).1
    requires end == |source| ==> op == None && length == 0
    ensures more ==> end < next < |source|
    ensures more ==> LoopOn(h, source[i..], end - i, sh, status, needs) == Rest(h, source, next, f)
    ensures !more ==> LoopOn(h, source[i..], end - i, sh, status, needs) == Outcome(f.sh.state, f.status)
  {
    LoopOnAt(h, source, i, end, sh, status, needs);
    more, next, f := false, end, Flags(sh, status, true, false);
    if needs && !has {
      return more, next, f.(status := 2);
    }
    if length == 0 {
      return;
    }
    more, next, f := Proceed(h, source, end + length, op.value, sh, status);
  }

  /** What follows an operator. */
  method Proceed<S>(h: Host<S>, source: string, i: nat, op: Kind, sh: Shell<S>, status: int)
      returns (more: bool, next: nat, f: Flags<S>)
    requires i <= |source|
    ensures more ==> i <= next < |source|
    ensures more ==> Behind(h, SkipBlanks(source[i..]), op, sh, status) == Rest(h, source, next, f)
    ensures !more ==> Behind(h, SkipBlanks(source[i..]), op, sh, status) == Outcome(f.sh.state, f.status)
  {
    more, next, f := false, i, Flags(sh, status, true, false);
    if op == Unsupported {
      return more, next, f.(status := 2);
    }
    next := Skip(source, i);
    if next == |source| {
      f := f.(status := if op == Semicolon then status else 2);
      return;
    }
    more := true;
    if op == And {
      f := f.(should := status == 0, needs := true);
    } else if op == Or {
      f := f.(should := status != 0, needs := true);
    }
  }

  /** The shell's entry point. */
  method RunCommandLine<S>(h: Host<S>, source: string, sh: Shell<S>) returns (state: S, status: int)
    ensures Outcome(state, status) == RunLine(h, source, sh)
  {
    var ready := Shell(h.resume(sh.state), sh.last);
    if source == "" {
      return ready.state, ready.last;
    }
    if |source| >= LINE_SIZE {
      return ready.state, 2;
    }
    var i, f := 0, Flags(ready, 0, true, false);
    assert source[0..] == source;
    while i < |source| && !h.exits(f.sh.state)
      invariant i <= |source| && Rest(h, source, i, f) == RunLine(h, source, sh)
      decreases |source| - i
    {
      var ok, end, length, op := FindNextOperator(source, i);
      if !ok {
        return f.sh.state, 2;
      }
      var has := HasCommand(source[i..end]);
      var ran, now, turn := RunTurn(h, source, i, end, op, has, f);
      if !ran {
        return now.state, 2;
      }
      var more;
      more, i, f := Follow(h, source, i, end, length, op, has, now, turn, f.needs);
      if !more {
        return f.sh.state, f.status;
      }
    }
    return f.sh.state, f.status;
  }
}
