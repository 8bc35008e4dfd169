/** Which lines the shell takes, whatever the commands in them do. */
module BashSyntax {
  import opened Basics
  import opened ShellQuotes
  import opened BashLexer
  import opened BashRun
  import opened BashLists

  /** Commands and operators alternate.  Quotes and escapes are closed, operators are those of
      AND-OR lists, and a command may be empty only where neither AND nor OR stands before or
      behind it; `needs` says that one stands before. */
  predicate Sound(s: string, needs: bool)
    decreases |s|
  {
    Reach(s, Bare).Some? &&
    var n := Reach(s, Bare).value;
    ReachStops(s, Bare);
    && (HasText(s[..n]) || !needs)
    && (n < |s| ==>
          var (op, length) := OperatorAt(s[n..]);
          !op.Unsupported? && (HasText(s[..n]) || op.Semicolon?) && Sound(s[n + length..], !op.Semicolon?))
  }

  /** What a line is from its first operator on: the operator, and whether the rest is sound. */
  predicate SoundFrom(s: string, text: bool)
    requires s != "" ==> IsOperator(s[0])
  {
    s != "" ==>
      var (op, length) := OperatorAt(s);
      !op.Unsupported? && (text || op.Semicolon?) && Sound(s[length..], !op.Semicolon?)
  }

  lemma {:induction false} SoundBy(s: string, n: nat, needs: bool)
    requires n <= |s| && Reach(s, Bare) == Some(n) && (n < |s| ==> IsOperator(s[n]))
    ensures Sound(s, needs) <==> (HasText(s[..n]) || !needs) && SoundFrom(s[n..], HasText(s[..n]))
  {
    if n < |s| {
      var length := OperatorAt(s[n..]).1;
      assert s[n..][length..] == s[n + length..];
    }
  }

  /** The lines without a syntax error. */
  predicate Accepted(line: string)
  {
    |line| < LINE_SIZE && Sound(line, false)
  }

  // ----- the grammar -----

  /** Commands with their operators, and a last command. */
  function Spelled(items: seq<Item>, last: string): (s: string)
  {
    if items == [] then last else items[0].cmd + (OpText(items[0].op) + Spelled(items[1..], last))
  }

  /** A command may be empty only between semicolons and the ends of the line. */
  predicate Loose(items: seq<Item>, last: string, needs: bool)
  {
    if items == [] then Clean(last, Bare) && (HasText(last) || !needs)
    else
      var i := items[0];
      && Clean(i.cmd, Bare) && !i.op.Unsupported? && (HasText(i.cmd) || (!needs && i.op.Semicolon?))
      && Loose(items[1..], last, !i.op.Semicolon?)
  }

  lemma {:induction false} SoundLast(c: string, needs: bool)
    requires Clean(c, Bare)
    ensures Sound(c, needs) <==> HasText(c) || !needs
  {
    ReachCommand(c, "", Bare);
    assert c + "" == c && c[..|c|] == c;
  }

  lemma {:induction false} SoundItem(c: string, op: Kind, t: string, needs: bool)
    requires Clean(c, Bare) && !op.Unsupported?
    ensures Sound(c + (OpText(op) + t), needs) <==>
              (HasText(c) || (!needs && op.Semicolon?)) && Sound(t, !op.Semicolon?)
  {
    var rest := OpText(op) + t;
    OpTextIs(op, t);
    ReachCommand(c, rest, Bare);
    assert (c + rest)[..|c|] == c && (c + rest)[|c|..] == rest;
    SoundBy(c + rest, |c|, needs);
  }

  lemma {:induction false} LooseIsSound(items: seq<Item>, last: string, needs: bool)
    requires Loose(items, last, needs)
    ensures Sound(Spelled(items, last), needs)
    decreases |items|
  {
    if items == [] {
      SoundLast(last, needs);
    } else {
      LooseIsSound(items[1..], last, !items[0].op.Semicolon?);
      SoundItem(items[0].cmd, items[0].op, Spelled(items[1..], last), needs);
    }
  }

  lemma {:induction false} OpTextBack(s: string)
    requires s != "" && IsOperator(s[0]) && !OperatorAt(s).0.Unsupported?
    ensures s == OpText(OperatorAt(s).0) + s[OperatorAt(s).1..]
  {
  }

  lemma {:induction false} ItemFirst(c: string, op: Kind, items: seq<Item>, last: string, needs: bool)
      returns (more: seq<Item>)
    requires Clean(c, Bare) && !op.Unsupported? && (HasText(c) || (!needs && op.Semicolon?))
    requires Loose(items, last, !op.Semicolon?)
    ensures Spelled(more, last) == c + (OpText(op) + Spelled(items, last)) && Loose(more, last, needs)
  {
    more := [Item(c, op)] + items;
    assert more[1..] == items;
  }

  /** The first command and its operator. */
  lemma {:induction false} CutFirst(s: string, needs: bool) returns (c: string, op: Kind, tail: string)
    requires Sound(s, needs) && Reach(s, Bare).value < |s|
    ensures s == c + (OpText(op) + tail) && |tail| < |s|
    ensures Clean(c, Bare) && !op.Unsupported? && (HasText(c) || (!needs && op.Semicolon?))
    ensures Sound(tail, !op.Semicolon?)
  {
    var n := Reach(s, Bare).value;
    ReachStops(s, Bare);
    ReachedIsClean(s, Bare);
    SoundBy(s, n, needs);
    var rest := s[n..];
    c, op, tail := s[..n], OperatorAt(rest).0, rest[OperatorAt(rest).1..];
    assert rest == OpText(op) + tail by { OpTextBack(rest); }
    assert s == c + rest;
  }

  lemma {:induction false} SoundIsLoose(s: string, needs: bool) returns (items: seq<Item>, last: string)
    requires Sound(s, needs)
    ensures s == Spelled(items, last) && Loose(items, last, needs)
    decreases |s|
  {
    if Reach(s, Bare).value == |s| {
      ReachedIsClean(s, Bare);
      assert s[..|s|] == s;
      items, last := [], s;
    } else {
      ReachStops(s, Bare);
      var c, op, tail := CutFirst(s, needs);
      items, last := SoundIsLoose(tail, !op.Semicolon?);
      items := ItemFirst(c, op, items, last, needs);
    }
  }

  /** The sound lines are exactly those of the grammar. */
  lemma {:induction false} SoundIff(s: string, needs: bool)
    ensures Sound(s, needs) <==> exists items, last :: s == Spelled(items, last) && Loose(items, last, needs)
  {
    if Sound(s, needs) {
      var items, last := SoundIsLoose(s, needs);
    }
    if exists items, last :: s == Spelled(items, last) && Loose(items, last, needs) {
      var items, last :| s == Spelled(items, last) && Loose(items, last, needs);
      LooseIsSound(items, last, needs);
    }
  }

  /** The text of well-formed AND-OR lists is among them. */
  lemma {:induction false} ItemsSound(items: seq<Item>, tail: string, needs: bool)
    requires items != [] && ItemsFine(items) && IsTail(tail)
    ensures Sound(ItemsText(items, tail), needs)
    decreases |items|
  {
    var c := items[0].cmd;
    assert ItemFine(items[0]);
    if |items| > 1 {
      ItemsSound(items[1..], tail, !items[0].op.Semicolon?);
      SoundItem(c, items[0].op, ItemsText(items[1..], tail), needs);
    } else if tail == "" {
      assert c + tail == c;
      SoundLast(c, needs);
    } else {
      BlanksClean(tail[1..]);
      SoundLast(tail[1..], false);
      SoundItem(c, Semicolon, tail[1..], needs);
      assert OpText(Semicolon) + tail[1..] == tail;
    }
  }

  lemma {:induction false} BlanksClean(s: string)
    requires !HasText(s)
    ensures Clean(s, Bare)
  {
    if s != "" {
      assert Blank(s[0]);
      BlanksClean(s[1..]);
    }
  }

  lemma {:induction false} ListAccepted(ts: seq<AndOr>, tail: string)
    requires ts != [] && (forall k :: 0 <= k < |ts| ==> WellFormed(ts[k])) && IsTail(tail)
    requires |ListText(ts, tail)| < LINE_SIZE
    ensures Accepted(ListText(ts, tail))
  {
    ListTextIs(ts, tail);
    ListFine(ts);
    ItemsSound(ListItems(ts), tail, false);
  }

  // ----- blanks in front -----

  lemma {:induction false} BlankPieces(s: string, n: nat)
    requires s != "" && Blank(s[0]) && n < |s|
    ensures s[1..][n..] == s[n + 1..]
    ensures HasText(s[1..][..n]) <==> HasText(s[..n + 1])
  {
    assert s[1..][..n] == s[..n + 1][1..];
    BlankFirst(s[..n + 1]);
    TextBehind(s[..n + 1]);
  }

  lemma {:induction false} SoundBlank(s: string, needs: bool)
    requires s != "" && Blank(s[0])
    ensures Sound(s[1..], needs) <==> Sound(s, needs)
  {
    var t := s[1..];
    assert Reach(s, Bare) == Plus(1, Reach(t, Bare));
    if Reach(t, Bare).Some? {
      var n := Reach(t, Bare).value;
      ReachStops(t, Bare);
      BlankPieces(s, n);
      SoundBy(t, n, needs);
      SoundBy(s, n + 1, needs);
    }
  }

  lemma {:induction false} TextBehind(s: string)
    requires s != ""
    ensures HasText(s[1..]) ==> HasText(s)
  {
    if HasText(s[1..]) {
      var k :| 0 <= k < |s[1..]| && !Blank(s[1..][k]);
      assert !Blank(s[k + 1]);
    }
  }

  lemma {:induction false} SoundSkips(s: string, needs: bool)
    ensures Sound(SkipBlanks(s), needs) <==> Sound(s, needs)
  {
    if s != "" && Blank(s[0]) {
      SoundSkips(s[1..], needs);
      SoundBlank(s, needs);
    }
  }

  // ----- how lines end -----

  /** A line is worked off, or it ends at a command that exits, at one that cannot be tokenized, or
      in a syntax error. */
  datatype End = Done | Exited | Untokenized | SyntaxError

  /** The main loop, with the way it ends. */
  function Ending<S>(h: Host<S>, rest: string, sh: Shell<S>, status: int, should: bool, needs: bool)
      : (r: (Outcome<S>, End))
    decreases |rest|, 1
  {
    if rest == "" then (Outcome(sh.state, status), Done)
    else if h.exits(sh.state) then (Outcome(sh.state, status), Exited)
    else if Reach(rest, Bare).None? then (Outcome(sh.state, 2), SyntaxError)
    else
      var n := Reach(rest, Bare).value;
      ReachStops(rest, Bare);
      ReachedIsClean(rest, Bare);
      if should && HasText(rest[..n]) then
        var ran := RunSegment(h, sh, rest[..n]);
        if ran.None? then (Outcome(sh.state, 2), Untokenized)
        else EndingOn(h, rest, n, ran.value.0, ran.value.1, needs)
      else if should && n < |rest| && OperatorAt(rest[n..]).0 != Semicolon then
        (Outcome(sh.state, 2), SyntaxError)
      else EndingOn(h, rest, n, sh, status, needs)
  }

  function EndingOn<S>(h: Host<S>, rest: string, n: nat, sh: Shell<S>, status: int, needs: bool)
      : (r: (Outcome<S>, End))
    requires n <= |rest| && (n < |rest| ==> IsOperator(rest[n]))
    decreases |rest|, 0
  {
    if needs && !HasText(rest[..n]) then (Outcome(sh.state, 2), SyntaxError)
    else if n == |rest| then (Outcome(sh.state, status), Done)
    else
      var (op, length) := OperatorAt(rest[n..]);
      var next := SkipBlanks(rest[n + length..]);
      if op.Unsupported? then (Outcome(sh.state, 2), SyntaxError)
      else if next == "" then
        if op.Semicolon? then (Outcome(sh.state, status), Done) else (Outcome(sh.state, 2), SyntaxError)
      else Ending(h, next, sh, status, Goes(op, status), !op.Semicolon?)
  }

  lemma {:induction false} EndingIsLoop<S>(h: Host<S>, rest: string, sh: Shell<S>, status: int, should: bool,
                                           needs: bool)
    ensures Ending(h, rest, sh, status, should, needs).0 == Loop(h, rest, sh, status, should, needs)
    decreases |rest|, 1
  {
    if rest != "" && !h.exits(sh.state) && Reach(rest, Bare).Some? {
      var n := Reach(rest, Bare).value;
      ReachStops(rest, Bare);
      ReachedIsClean(rest, Bare);
      if should && HasText(rest[..n]) {
        var ran := RunSegment(h, sh, rest[..n]);
        if ran.Some? { EndingIsLoopOn(h, rest, n, ran.value.0, ran.value.1, needs); }
      } else {
        EndingIsLoopOn(h, rest, n, sh, status, needs);
      }
    }
  }

  lemma {:induction false} EndingIsLoopOn<S>(h: Host<S>, rest: string, n: nat, sh: Shell<S>, status: int,
                                             needs: bool)
    requires n <= |rest| && (n < |rest| ==> IsOperator(rest[n]))
    ensures EndingOn(h, rest, n, sh, status, needs).0 == LoopOn(h, rest, n, sh, status, needs)
    decreases |rest|, 0
  {
    if n < |rest| {
      var (op, length) := OperatorAt(rest[n..]);
      EndingIsLoop(h, SkipBlanks(rest[n + length..]), sh, status, Goes(op, status), !op.Semicolon?);
    }
  }

  /** The end an unsound or a sound line comes to. */
  predicate Matches(sound: bool, e: End)
  {
    if sound then e != SyntaxError else e != Done
  }

  lemma {:induction false} EndsBySound<S>(h: Host<S>, rest: string, sh: Shell<S>, status: int, should: bool,
                                          needs: bool)
    requires rest != "" && (should || needs)
    ensures Matches(Sound(rest, needs), Ending(h, rest, sh, status, should, needs).1)
    decreases |rest|, 1
  {
    if !h.exits(sh.state) && Reach(rest, Bare).Some? {
      var n := Reach(rest, Bare).value;
      ReachStops(rest, Bare);
      ReachedIsClean(rest, Bare);
      if should && HasText(rest[..n]) {
        var ran := RunSegment(h, sh, rest[..n]);
        if ran.Some? { EndsBySoundOn(h, rest, n, ran.value.0, ran.value.1, needs); }
      } else {
        EndsBySoundOn(h, rest, n, sh, status, needs);
      }
    }
  }

  /** Behind a segment, unless an empty one has been complained about already. */
  lemma {:induction false} EndsBySoundOn<S>(h: Host<S>, rest: string, n: nat, sh: Shell<S>, status: int,
                                            needs: bool)
    requires rest != "" && Reach(rest, Bare) == Some(n) && (n < |rest| ==> IsOperator(rest[n]))
    ensures var e := EndingOn(h, rest, n, sh, status, needs).1;
            HasText(rest[..n]) || needs || n == |rest| || OperatorAt(rest[n..]).0.Semicolon? ==>
              Matches(Sound(rest, needs), e)
    decreases |rest|, 0
  {
    if n < |rest| {
      var (op, length) := OperatorAt(rest[n..]);
      var tail := rest[n + length..];
      SoundSkips(tail, !op.Semicolon?);
      if SkipBlanks(tail) != "" && !op.Unsupported? {
        EndsBySound(h, SkipBlanks(tail), sh, status, Goes(op, status), !op.Semicolon?);
      }
    }
  }

  /** How a line ends. */
  function LineEnd<S>(h: Host<S>, line: string, sh: Shell<S>): (e: End)
  {
    if |line| >= LINE_SIZE then SyntaxError else Ending(h, line, Ready(h, sh), 0, true, false).1
  }

  /** The exact lines that end in a syntax error, unless a command exits or cannot be tokenized
      before: those that are not accepted.  An accepted line never does, whatever its commands do.
      A syntax error and a command that cannot be tokenized make the status 2. */
  lemma {:induction false} AcceptedLines<S>(h: Host<S>, line: string, sh: Shell<S>)
    ensures Accepted(line) ==> LineEnd(h, line, sh) != SyntaxError
    ensures !Accepted(line) ==> LineEnd(h, line, sh) != Done
    ensures LineEnd(h, line, sh).SyntaxError? || LineEnd(h, line, sh).Untokenized? ==>
              RunLine(h, line, sh).status == 2
  {
    var ready := Ready(h, sh);
    if line == "" {
      SoundLast(line, false);
    } else if |line| < LINE_SIZE {
      EndsBySound(h, line, ready, 0, true, false);
      EndingIsLoop(h, line, ready, 0, true, false);
      ErrorsAreTwo(h, line, ready, 0, true, false);
    }
  }

  lemma {:induction false} ErrorsAreTwo<S>(h: Host<S>, rest: string, sh: Shell<S>, status: int, should: bool,
                                           needs: bool)
    ensures var r := Ending(h, rest, sh, status, should, needs);
            r.1.SyntaxError? || r.1.Untokenized? ==> r.0.status == 2
    decreases |rest|, 1
  {
    if rest != "" && !h.exits(sh.state) && Reach(rest, Bare).Some? {
      var n := Reach(rest, Bare).value;
      ReachStops(rest, Bare);
      ReachedIsClean(rest, Bare);
      if should && HasText(rest[..n]) {
        var ran := RunSegment(h, sh, rest[..n]);
        if ran.Some? { ErrorsAreTwoOn(h, rest, n, ran.value.0, ran.value.1, needs); }
      } else {
        ErrorsAreTwoOn(h, rest, n, sh, status, needs);
      }
    }
  }

  lemma {:induction false} ErrorsAreTwoOn<S>(h: Host<S>, rest: string, n: nat, sh: Shell<S>, status: int,
                                             needs: bool)
    requires n <= |rest| && (n < |rest| ==> IsOperator(rest[n]))
    ensures var r := EndingOn(h, rest, n, sh, status, needs);
            r.1.SyntaxError? || r.1.Untokenized? ==> r.0.status == 2
    decreases |rest|, 0
  {
    if n < |rest| {
      var (op, length) := OperatorAt(rest[n..]);
      ErrorsAreTwo(h, SkipBlanks(rest[n + length..]), sh, status, Goes(op, status), !op.Semicolon?);
    }
  }

  /** An empty command between semicolons is passed over. */
  lemma {:induction false} EmptyCommand<S>(h: Host<S>, c: string, t: string, sh: Shell<S>, status: int)
    requires !HasText(c) && !h.exits(sh.state)
    ensures Loop(h, c + (";" + t), sh, status, true, false) == Loop(h, SkipBlanks(t), sh, status, true, false)
  {
    var rest := ";" + t;
    var s := c + rest;
    BlanksClean(c);
    OpTextIs(Semicolon, t);
    ReachCommand(c, rest, Bare);
    assert s[..|c|] == c && s[|c|..] == rest && s[|c| + 1..] == rest[1..] == t;
  }
}
