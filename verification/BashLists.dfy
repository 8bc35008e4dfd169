/** The loop does what an AND-OR list means. */
module BashLists {
  import opened Basics
  import opened ShellQuotes
  import opened BashLexer
  import opened BashRun

  /** A command and the operator behind it. */
  datatype Item = Item(cmd: string, op: Kind)

  function OpText(op: Kind): (s: string)
  {
    match op
    case Semicolon => ";"
    case And => "&&"
    case Or => "||"
    case Unsupported => "|"
  }

  predicate ItemFine(i: Item)
  {
    IsCommand(i.cmd) && !i.op.Unsupported?
  }

  predicate ItemsFine(items: seq<Item>)
  {
    forall k :: 0 <= k < |items| ==> ItemFine(items[k])
  }

  /** The text of commands with their operators; the last operator is left out. */
  function ItemsText(items: seq<Item>, tail: string): (s: string)
  {
    if items == [] then ""
    else if |items| == 1 then items[0].cmd + tail
    else items[0].cmd + (OpText(items[0].op) + ItemsText(items[1..], tail))
  }

  /** The loop, on commands and operators. */
  function LoopItems<S>(h: Host<S>, items: seq<Item>, sh: Shell<S>, status: int, go: bool): (r: Outcome<S>)
    requires items != [] && ItemsFine(items)
    decreases |items|
  {
    if h.exits(sh.state) then Outcome(sh.state, status)
    else
      assert ItemFine(items[0]);
      var ran := RunIf(h, go, items[0].cmd, sh, status);
      if ran.Failed? then Outcome(ran.state, 2)
      else if |items| == 1 then Outcome(ran.sh.state, ran.status)
      else LoopItems(h, items[1..], ran.sh, ran.status, Goes(items[0].op, ran.status))
  }

  // ----- reading one command -----

  lemma {:induction false} TailOf(c: string, rest: string, n: nat)
    requires n <= |c|
    ensures (c + rest)[n..] == c[n..] + rest
  {
  }

  lemma {:induction false} ReachCommand(c: string, rest: string, q: Quote)
    requires Clean(c, q) && (rest == "" || IsOperator(rest[0]))
    ensures Reach(c + rest, q) == Some(|c|)
    decreases |c|
  {
    if c == "" {
      assert c + rest == rest;
    } else if c[0] == '\\' && !q.Single? {
      TailOf(c, rest, 2);
      ReachCommand(c[2..], rest, q);
    } else {
      TailOf(c, rest, 1);
      ReachCommand(c[1..], rest,
                   if !q.Bare? then (if Closes(c[0], q) then Bare else q)
                   else if Opens(c[0]) then QuoteOf(c[0]) else Bare);
    }
  }

  lemma {:induction false} SkipFirst(c: string, rest: string)
    requires HasText(c)
    ensures SkipBlanks(c) != "" && SkipBlanks(c + rest) == SkipBlanks(c) + rest
    decreases |c|
  {
    if Blank(c[0]) {
      BlankFirst(c);
      SkipFirst(c[1..], rest);
      assert (c + rest)[1..] == c[1..] + rest;
    }
  }

  lemma {:induction false} SkipAll(s: string)
    requires !HasText(s)
    ensures SkipBlanks(s) == ""
  {
    if s != "" {
      assert Blank(s[0]);
      SkipAll(s[1..]);
    }
  }

  /** Leading blanks do not change a command. */
  lemma {:induction false} SkipLex(env: string -> string, c: string)
    requires IsCommand(c)
    ensures IsCommand(SkipBlanks(c))
    ensures Lex(env, SkipBlanks(c), Bare, None, 0, 0) == Lex(env, c, Bare, None, 0, 0)
    decreases |c|
  {
    if Blank(c[0]) {
      BlankFirst(c);
      CleanTail(c, Bare, 1);
      SkipLex(env, c[1..]);
    }
  }

  lemma {:induction false} SkipRuns<S>(h: Host<S>, sh: Shell<S>, c: string)
    requires IsCommand(c)
    ensures IsCommand(SkipBlanks(c)) && RunSegment(h, sh, SkipBlanks(c)) == RunSegment(h, sh, c)
  {
    SkipLex(Variables(h, sh), c);
  }

  /** The items with the first command's leading blanks gone. */
  function Trimmed(items: seq<Item>): (r: seq<Item>)
    requires items != []
  {
    [Item(SkipBlanks(items[0].cmd), items[0].op)] + items[1..]
  }

  lemma {:induction false} TrimmedRuns<S>(h: Host<S>, items: seq<Item>, sh: Shell<S>, status: int, go: bool)
    requires items != [] && ItemsFine(items)
    ensures ItemsFine(Trimmed(items))
    ensures LoopItems(h, Trimmed(items), sh, status, go) == LoopItems(h, items, sh, status, go)
  {
    assert ItemFine(items[0]);
    SkipRuns(h, sh, items[0].cmd);
    assert Trimmed(items)[1..] == items[1..];
    forall k | 0 <= k < |items| ensures ItemFine(Trimmed(items)[k]) {
      assert ItemFine(items[k]);
    }
  }

  lemma {:induction false} TrimmedText(items: seq<Item>, tail: string)
    requires items != [] && ItemsFine(items)
    ensures SkipBlanks(ItemsText(items, tail)) == ItemsText(Trimmed(items), tail) != ""
  {
    assert ItemFine(items[0]);
    assert Trimmed(items)[1..] == items[1..];
    var rest := if |items| == 1 then tail else OpText(items[0].op) + ItemsText(items[1..], tail);
    SkipFirst(items[0].cmd, rest);
  }

  // ----- the loop on the text is the loop on the items -----

  lemma {:induction false} OpTextIs(op: Kind, s: string)
    requires !op.Unsupported?
    ensures IsOperator((OpText(op) + s)[0])
    ensures OperatorAt(OpText(op) + s) == (op, |OpText(op)|)
    ensures (OpText(op) + s)[|OpText(op)|..] == s
  {
  }

  /** One command and what is behind it. */
  lemma {:induction false} LoopOne<S>(h: Host<S>, c: string, rest: string, sh: Shell<S>, status: int, go: bool,
                                      needs: bool)
    requires IsCommand(c) && (rest == "" || IsOperator(rest[0])) && !h.exits(sh.state)
    ensures var ran := RunIf(h, go, c, sh, status);
            Loop(h, c + rest, sh, status, go, needs)
            == if ran.Failed? then Outcome(sh.state, 2)
               else LoopOn(h, c + rest, |c|, ran.sh, ran.status, needs)
  {
    ReachCommand(c, rest, Bare);
    assert (c + rest)[..|c|] == c;
  }

  lemma {:induction false} LoopOnNext<S>(h: Host<S>, c: string, op: Kind, t: string, sh: Shell<S>, status: int,
                                         needs: bool)
    requires HasText(c) && !op.Unsupported? && SkipBlanks(t) != ""
    ensures IsOperator((c + (OpText(op) + t))[|c|])
    ensures LoopOn(h, c + (OpText(op) + t), |c|, sh, status, needs)
            == Loop(h, SkipBlanks(t), sh, status, Goes(op, status), !op.Semicolon?)
  {
    var rest := OpText(op) + t;
    OpTextIs(op, t);
    assert (c + rest)[..|c|] == c && (c + rest)[|c|..] == rest;
    assert (c + rest)[|c| + |OpText(op)|..] == rest[|OpText(op)|..];
  }

  lemma {:induction false} LoopOnEnd<S>(h: Host<S>, c: string, tail: string, sh: Shell<S>, status: int, needs: bool)
    requires HasText(c) && IsTail(tail)
    ensures tail != "" ==> IsOperator((c + tail)[|c|])
    ensures LoopOn(h, c + tail, |c|, sh, status, needs) == Outcome(sh.state, status)
  {
    assert (c + tail)[..|c|] == c;
    if tail != "" {
      assert (c + tail)[|c|..] == tail;
      assert OperatorAt(tail) == (Semicolon, 1);
      assert (c + tail)[|c| + 1..] == tail[1..];
      SkipAll(tail[1..]);
    }
  }

  /** On the text of commands and operators, the main loop runs the commands the operators let
      through. */
  lemma {:induction false} LoopText<S>(h: Host<S>, items: seq<Item>, tail: string, sh: Shell<S>, status: int, go: bool,
                                       needs: bool)
    requires items != [] && ItemsFine(items) && IsTail(tail)
    ensures Loop(h, ItemsText(items, tail), sh, status, go, needs) == LoopItems(h, items, sh, status, go)
    decreases |items|, 0
  {
    assert ItemFine(items[0]);
    var c, op, more := items[0].cmd, items[0].op, items[1..];
    if h.exits(sh.state) {
    } else if more == [] {
      LoopOne(h, c, tail, sh, status, go, needs);
      var ran := RunIf(h, go, c, sh, status);
      if ran.Ran? {
        LoopOnEnd(h, c, tail, ran.sh, ran.status, needs);
      }
    } else {
      var t := ItemsText(more, tail);
      OpTextIs(op, t);
      LoopOne(h, c, OpText(op) + t, sh, status, go, needs);
      var ran := RunIf(h, go, c, sh, status);
      if ran.Ran? {
        LoopNext(h, c, op, more, tail, ran.sh, ran.status, needs);
      }
    }
  }

  lemma {:induction false} LoopNext<S>(h: Host<S>, c: string, op: Kind, more: seq<Item>, tail: string, sh: Shell<S>,
                                       status: int, needs: bool)
    requires more != [] && ItemsFine(more) && IsTail(tail) && IsCommand(c) && !op.Unsupported?
    ensures var rest := OpText(op) + ItemsText(more, tail);
            && IsOperator((c + rest)[|c|])
            && LoopOn(h, c + rest, |c|, sh, status, needs)
               == LoopItems(h, more, sh, status, Goes(op, status))
    decreases |more|, 1
  {
    TrimmedText(more, tail);
    TrimmedRuns(h, more, sh, status, Goes(op, status));
    LoopOnNext(h, c, op, ItemsText(more, tail), sh, status, needs);
    LoopText(h, Trimmed(more), tail, sh, status, Goes(op, status), !op.Semicolon?);
  }

  // ----- the loop on the items is the meaning of the list -----

  /** The commands of an AND-OR list, with `op` behind the last. */
  function Items(t: AndOr, op: Kind): (items: seq<Item>)
    ensures items != []
  {
    match t
    case Single(cmd) => [Item(cmd, op)]
    case AndThen(left, cmd) => Items(left, And) + [Item(cmd, op)]
    case OrElse(left, cmd) => Items(left, Or) + [Item(cmd, op)]
  }

  lemma {:induction false} ItemsAreFine(t: AndOr, op: Kind)
    requires WellFormed(t) && !op.Unsupported?
    ensures ItemsFine(Items(t, op))
  {
    match t
    case Single(cmd) =>
    case AndThen(left, cmd) => ItemsAreFine(left, And);
    case OrElse(left, cmd) => ItemsAreFine(left, Or);
  }

  /** An AND-OR list, followed by more. */
  lemma {:induction false} LoopTree<S>(h: Host<S>, t: AndOr, op: Kind, rest: seq<Item>, sh: Shell<S>, status: int)
    requires WellFormed(t) && !op.Unsupported? && ItemsFine(rest)
    ensures ItemsFine(Items(t, op) + rest)
    ensures var r := Eval(h, t, sh, status);
            LoopItems(h, Items(t, op) + rest, sh, status, true)
            == if r.Failed? then Outcome(r.state, 2)
               else if rest == [] then Outcome(r.sh.state, r.status)
               else LoopItems(h, rest, r.sh, r.status, Goes(op, r.status))
    decreases t
  {
    ItemsAreFine(t, op);
    match t
    case Single(cmd) =>
      assert (Items(t, op) + rest)[1..] == rest;
    case AndThen(left, cmd) => LoopPair(h, t, op, And, rest, sh, status);
    case OrElse(left, cmd) => LoopPair(h, t, op, Or, rest, sh, status);
  }

  lemma {:induction false} LoopPair<S>(h: Host<S>, t: AndOr, op: Kind, joint: Kind, rest: seq<Item>, sh: Shell<S>,
                                       status: int)
    requires WellFormed(t) && !op.Unsupported? && ItemsFine(rest) && !t.Single?
    requires joint == if t.AndThen? then And else Or
    ensures ItemsFine(Items(t, op) + rest)
    ensures var r := Eval(h, t, sh, status);
            LoopItems(h, Items(t, op) + rest, sh, status, true)
            == if r.Failed? then Outcome(r.state, 2)
               else if rest == [] then Outcome(r.sh.state, r.status)
               else LoopItems(h, rest, r.sh, r.status, Goes(op, r.status))
    decreases t, 0
  {
    var last := [Item(t.cmd, op)] + rest;
    assert Items(t, op) + rest == Items(t.left, joint) + last;
    LoopTree(h, t.left, joint, last, sh, status);
    assert last[1..] == rest;
  }

  function ListItems(ts: seq<AndOr>): (items: seq<Item>)
  {
    if ts == [] then [] else Items(ts[0], Semicolon) + ListItems(ts[1..])
  }

  lemma {:induction false} LoopList<S>(h: Host<S>, ts: seq<AndOr>, sh: Shell<S>, status: int)
    requires ts != [] && forall k :: 0 <= k < |ts| ==> WellFormed(ts[k])
    ensures ItemsFine(ListItems(ts))
    ensures LoopItems(h, ListItems(ts), sh, status, true) == EvalList(h, ts, sh, status)
    decreases |ts|
  {
    var r := Eval(h, ts[0], sh, status);
    if |ts| == 1 {
      LoopTree(h, ts[0], Semicolon, [], sh, status);
      assert ListItems(ts) == Items(ts[0], Semicolon) + [];
    } else {
      ListFine(ts[1..]);
      LoopTree(h, ts[0], Semicolon, ListItems(ts[1..]), sh, status);
      if r.Ran? {
        LoopList(h, ts[1..], r.sh, r.status);
      }
    }
  }

  lemma {:induction false} ListFine(ts: seq<AndOr>)
    requires forall k :: 0 <= k < |ts| ==> WellFormed(ts[k])
    ensures ItemsFine(ListItems(ts)) && (ts != [] ==> ListItems(ts) != [])
    decreases |ts|
  {
    if ts != [] {
      ItemsAreFine(ts[0], Semicolon);
      ListFine(ts[1..]);
    }
  }

  // ----- the text of the list is the text of its items -----

  lemma {:induction false} ItemsTextMore(a: seq<Item>, i: Item, b: seq<Item>, tail: string)
    requires b != []
    ensures ItemsText(a + [i] + b, tail) == ItemsText(a + [i], "") + OpText(i.op) + ItemsText(b, tail)
    decreases |a|
  {
    var all := a + [i] + b;
    if a == [] {
      assert a + [i] == [i] && all == [i] + b && all[1..] == b;
      assert i.cmd + "" == i.cmd;
    } else {
      assert all[1..] == a[1..] + [i] + b && (a + [i])[1..] == a[1..] + [i];
      ItemsTextMore(a[1..], i, b, tail);
      Regroup(a[0].cmd, OpText(a[0].op), ItemsText(a[1..] + [i], ""), OpText(i.op), ItemsText(b, tail));
    }
  }

  lemma {:induction false} Regroup(c: string, o: string, x: string, p: string, y: string)
    ensures c + (o + (x + p + y)) == c + (o + x) + p + y
  {
  }

  lemma {:induction false} TreeText(t: AndOr, op: Kind)
    ensures ItemsText(Items(t, op), "") == Text(t)
    decreases t, 0
  {
    match t
    case Single(cmd) =>
    case AndThen(left, cmd) => PairText(left, And, Item(cmd, op));
    case OrElse(left, cmd) => PairText(left, Or, Item(cmd, op));
  }

  lemma {:induction false} PairText(t: AndOr, joint: Kind, i: Item)
    ensures ItemsText(Items(t, joint) + [i], "") == Text(t) + OpText(joint) + i.cmd
    decreases t, 1
  {
    var items := Items(t, joint);
    var front, last := items[..|items| - 1], items[|items| - 1];
    LastOp(t, joint);
    TreeText(t, joint);
    assert items == front + [last];
    ItemsTextMore(front, last, [i], "");
    assert i.cmd + "" == i.cmd;
  }

  lemma {:induction false} LastOp(t: AndOr, op: Kind)
    ensures Items(t, op)[|Items(t, op)| - 1].op == op
  {
  }

  lemma {:induction false} TailText(items: seq<Item>, tail: string)
    requires items != []
    ensures ItemsText(items, tail) == ItemsText(items, "") + tail
    decreases |items|
  {
    if |items| > 1 {
      TailText(items[1..], tail);
    }
  }

  lemma {:induction false} ListTextIs(ts: seq<AndOr>, tail: string)
    requires ts != []
    ensures ItemsText(ListItems(ts), tail) == ListText(ts, tail)
    decreases |ts|
  {
    var items := Items(ts[0], Semicolon);
    TreeText(ts[0], Semicolon);
    if |ts| == 1 {
      assert ListItems(ts) == items;
      TailText(items, tail);
    } else {
      ListTextIs(ts[1..], tail);
      LastOp(ts[0], Semicolon);
      var front, last := items[..|items| - 1], items[|items| - 1];
      assert items == front + [last];
      ItemsTextMore(front, last, ListItems(ts[1..]), tail);
    }
  }

  /** Every well-formed line within the line size runs exactly the commands, in order, and ends
      with exactly the status, that its AND-OR lists mean. */
  lemma {:induction false} LineMeansList<S>(h: Host<S>, ts: seq<AndOr>, tail: string, sh: Shell<S>)
    requires ts != [] && (forall k :: 0 <= k < |ts| ==> WellFormed(ts[k])) && IsTail(tail)
    requires |ListText(ts, tail)| < LINE_SIZE
    ensures RunLine(h, ListText(ts, tail), sh) == EvalList(h, ts, Ready(h, sh), 0)
  {
    ListTextIs(ts, tail);
    ListFine(ts);
    LoopList(h, ts, Ready(h, sh), 0);
    LoopText(h, ListItems(ts), tail, Ready(h, sh), 0, true, false);
    TrimmedText(ListItems(ts), tail);
  }
}
