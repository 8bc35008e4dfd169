/** Running a bash line: what the flag-driven loop does, and what an AND-OR list means. */
module BashRun {
  import opened Basics
  import opened ShellQuotes
  import opened BashLexer

  /** Variables, commands, whether the shell has been asked to exit, and taking that request back.
      Variables and commands may look at the status of the last command. */
  datatype Host<!S> = Host(env: (S, int, string) -> string, execute: (S, int, seq<string>) -> (S, int),
                           exits: S -> bool, resume: S -> S)

  /** Once it is taken back, there is no request to exit. */
  ghost predicate Resumes<S(!new)>(h: Host<S>)
  {
    forall s: S :: !h.exits(h.resume(s))
  }

  datatype Shell<S> = Shell(state: S, last: int)

  /** Where a line ends, and its status. */
  datatype Outcome<S> = Outcome(state: S, status: int)

  function SkipBlanks(s: string): (t: string)
    ensures |t| <= |s| && (t != "" ==> !Blank(t[0]))
  {
    if s != "" && Blank(s[0]) then SkipBlanks(s[1..]) else s
  }

  /** The arguments a segment stands for. */
  function Arguments(tokens: seq<Token>): (args: seq<string>)
    requires OnlyWords(tokens)
    ensures |args| == |tokens| && forall k :: 0 <= k < |tokens| ==> args[k] == tokens[k].text
  {
    seq(|tokens|, k requires 0 <= k < |tokens| => tokens[k].text)
  }

  /** The variables as they are now. */
  function Variables<S>(h: Host<S>, sh: Shell<S>): (env: string -> string)
  {
    name => h.env(sh.state, sh.last, name)
  }

  /** Tokenizes and runs a segment; nothing if it cannot be tokenized. */
  function RunSegment<S>(h: Host<S>, sh: Shell<S>, segment: string): (r: Option<(Shell<S>, int)>)
    requires Clean(segment, Bare) && HasText(segment)
  {
    var env := Variables(h, sh);
    LexClean(env, segment, Bare, None, 0, 0);
    var lexed := Lex(env, segment, Bare, None, 0, 0);
    if !lexed.Tokens? then None
    else
      var (state, status) := h.execute(sh.state, sh.last, Arguments(lexed.tokens));
      Some((Shell(state, status), status))
  }

  /** Whether the command behind an operator is run. */
  function Goes(op: Kind, status: int): (b: bool)
  {
    match op
    case Semicolon => true
    case And => status == 0
    case Or => status != 0
    case Unsupported => false
  }

  /** The main loop: `should` says whether the next command is to be run, `needs` that an operator
      is waiting for it. */
  function Loop<S>(h: Host<S>, rest: string, sh: Shell<S>, status: int, should: bool, needs: bool)
      : (r: Outcome<S>)
    decreases |rest|, 1
  {
    if rest == "" || h.exits(sh.state) then Outcome(sh.state, status)
    else if Reach(rest, Bare).None? then Outcome(sh.state, 2)
    else
      var n := Reach(rest, Bare).value;
      ReachStops(rest, Bare);
      ReachedIsClean(rest, Bare);
      if should && HasText(rest[..n]) then
        var ran := RunSegment(h, sh, rest[..n]);
        if ran.None? then Outcome(sh.state, 2)
        else LoopOn(h, rest, n, ran.value.0, ran.value.1, needs)
      else if should && n < |rest| && OperatorAt(rest[n..]).0 != Semicolon then Outcome(sh.state, 2)
      else LoopOn(h, rest, n, sh, status, needs)
  }

  /** What the loop does behind a segment. */
  function LoopOn<S>(h: Host<S>, rest: string, n: nat, sh: Shell<S>, status: int, needs: bool)
      : (r: Outcome<S>)
    requires n <= |rest| && (n < |rest| ==> IsOperator(rest[n]))
    decreases |rest|, 0
  {
    if needs && !HasText(rest[..n]) then Outcome(sh.state, 2)
    else if n == |rest| then Outcome(sh.state, status)
    else
      var (op, length) := OperatorAt(rest[n..]);
      var next := SkipBlanks(rest[n + length..]);
      if op.Unsupported? then Outcome(sh.state, 2)
      else if next == "" then Outcome(sh.state, if op.Semicolon? then status else 2)
      else Loop(h, next, sh, status, Goes(op, status), !op.Semicolon?)
  }

  lemma {:induction false} ReachStops(s: string, q: Quote)
    requires Reach(s, q).Some?
    ensures Reach(s, q).value < |s| ==> IsOperator(s[Reach(s, q).value])
    decreases |s|
  {
    if s == "" {
    } else if s[0] == '\\' && !q.Single? {
      ReachStops(s[2..], q);
    } else if !q.Bare? {
      ReachStops(s[1..], if Closes(s[0], q) then Bare else q);
    } else if Opens(s[0]) {
      ReachStops(s[1..], QuoteOf(s[0]));
    } else if !IsOperator(s[0]) {
      ReachStops(s[1..], Bare);
    }
  }

  /** The shell as a line finds it: not asked to exit. */
  function Ready<S>(h: Host<S>, sh: Shell<S>): (ready: Shell<S>)
  {
    sh.(state := h.resume(sh.state))
  }

  /** Running a line takes an earlier request to exit back.  An empty one leaves the status as it
      was. */
  function RunLine<S>(h: Host<S>, command: string, sh: Shell<S>): (r: Outcome<S>)
  {
    var ready := Ready(h, sh);
    if command == "" then Outcome(ready.state, ready.last)
    else if |command| >= LINE_SIZE then Outcome(ready.state, 2)
    else Loop(h, command, ready, 0, true, false)
  }

  // ----- what a list means -----

  /** An AND-OR list: operators of equal precedence, grouped from the left. */
  datatype AndOr =
    | Single(cmd: string)
    | AndThen(left: AndOr, cmd: string)
    | OrElse(left: AndOr, cmd: string)

  datatype Result<S> = Ran(sh: Shell<S>, status: int) | Failed(state: S)

  predicate IsCommand(s: string)
  {
    Clean(s, Bare) && HasText(s)
  }

  predicate WellFormed(t: AndOr)
  {
    IsCommand(t.cmd) && (t.AndThen? || t.OrElse? ==> WellFormed(t.left))
  }

  /** Runs a command if it is its turn and the shell has not been asked to exit. */
  function RunIf<S>(h: Host<S>, go: bool, cmd: string, sh: Shell<S>, status: int): (r: Result<S>)
    requires IsCommand(cmd)
  {
    if !go || h.exits(sh.state) then Ran(sh, status)
    else
      var ran := RunSegment(h, sh, cmd);
      if ran.None? then Failed(sh.state) else Ran(ran.value.0, ran.value.1)
  }

  /** `a && b` runs `b` if `a` ended with zero, `a || b` if it did not; the status is that of the
      last command run. */
  function Eval<S>(h: Host<S>, t: AndOr, sh: Shell<S>, status: int): (r: Result<S>)
    requires WellFormed(t)
  {
    match t
    case Single(cmd) => RunIf(h, true, cmd, sh, status)
    case AndThen(left, cmd) =>
      var l := Eval(h, left, sh, status);
      if l.Failed? then l else RunIf(h, l.status == 0, cmd, l.sh, l.status)
    case OrElse(left, cmd) =>
      var l := Eval(h, left, sh, status);
      if l.Failed? then l else RunIf(h, l.status != 0, cmd, l.sh, l.status)
  }

  /** AND-OR lists one after another. */
  function EvalList<S>(h: Host<S>, ts: seq<AndOr>, sh: Shell<S>, status: int): (r: Outcome<S>)
    requires forall k :: 0 <= k < |ts| ==> WellFormed(ts[k])
  {
    if ts == [] then Outcome(sh.state, status)
    else
      var l := Eval(h, ts[0], sh, status);
      if l.Failed? then Outcome(l.state, 2) else EvalList(h, ts[1..], l.sh, l.status)
  }

  // ----- the text of a list -----

  /** The text of an AND-OR list. */
  function Text(t: AndOr): (s: string)
  {
    match t
    case Single(cmd) => cmd
    case AndThen(left, cmd) => Text(left) + "&&" + cmd
    case OrElse(left, cmd) => Text(left) + "||" + cmd
  }

  /** Lists with semicolons between them, and possibly one behind. */
  function ListText(ts: seq<AndOr>, tail: string): (s: string)
  {
    if ts == [] then ""
    else if |ts| == 1 then Text(ts[0]) + tail
    else Text(ts[0]) + ";" + ListText(ts[1..], tail)
  }

  /** Nothing, or a semicolon and blanks. */
  predicate IsTail(s: string)
  {
    s == "" || (s[0] == ';' && !HasText(s[1..]))
  }
}
