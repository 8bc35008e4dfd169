/** The two readers of a bash line: the scanner that cuts it at operators, and the tokenizer that
    makes words of a segment. */
module BashLexer {
  import opened Basics
  import opened ShellQuotes

  const LINE_SIZE: nat := 256
  const TOKEN_COUNT: nat := 32
  const NAME_SIZE: nat := 32

  datatype Kind = Semicolon | And | Or | Unsupported

  datatype Token = Word(text: string) | Operator(kind: Kind)

  predicate IsOperator(c: char)
  {
    c == ';' || c == '&' || c == '|' || c == '<' || c == '>'
  }

  predicate NameStart(c: char)
  {
    'A' <= c <= 'Z' || 'a' <= c <= 'z' || c == '_'
  }

  predicate NameChar(c: char)
  {
    NameStart(c) || '0' <= c <= '9'
  }

  predicate ValidName(s: string)
  {
    0 < |s| < NAME_SIZE && NameStart(s[0]) && forall k :: 1 <= k < |s| ==> NameChar(s[k])
  }

  // ----- the scanner -----

  function Plus(n: nat, r: Option<nat>): (t: Option<nat>)
  {
    if r.None? then None else Some(n + r.value)
  }

  /** How far it is to the next operator or to the end, where quote `q` is open; nothing for an
      unfinished quote or escape. */
  function Reach(s: string, q: Quote): (r: Option<nat>)
    ensures r.Some? ==> r.value <= |s|
    decreases |s|
  {
    if s == "" then (if q.Bare? then Some(0) else None)
    else if s[0] == '\\' && !q.Single? then (if |s| == 1 then None else Plus(2, Reach(s[2..], q)))
    else if !q.Bare? then Plus(1, Reach(s[1..], if Closes(s[0], q) then Bare else q))
    else if Opens(s[0]) then Plus(1, Reach(s[1..], QuoteOf(s[0])))
    else if IsOperator(s[0]) then Some(0)
    else Plus(1, Reach(s[1..], Bare))
  }

  /** The scanner runs through all of `s`. */
  predicate Clean(s: string, q: Quote)
  {
    Reach(s, q) == Some(|s|)
  }

  /** What the scanner hands over, it would run through again. */
  lemma {:induction false} ReachedIsClean(s: string, q: Quote)
    requires Reach(s, q).Some?
    ensures Clean(s[..Reach(s, q).value], q)
    decreases |s|
  {
    var t := s[..Reach(s, q).value];
    if s == "" {
    } else if s[0] == '\\' && !q.Single? {
      ReachedIsClean(s[2..], q);
      assert t[2..] == s[2..][..Reach(s[2..], q).value];
    } else if !q.Bare? {
      var p := if Closes(s[0], q) then Bare else q;
      ReachedIsClean(s[1..], p);
      assert t[1..] == s[1..][..Reach(s[1..], p).value];
    } else if Opens(s[0]) {
      ReachedIsClean(s[1..], QuoteOf(s[0]));
      assert t[1..] == s[1..][..Reach(s[1..], QuoteOf(s[0])).value];
    } else if !IsOperator(s[0]) {
      ReachedIsClean(s[1..], Bare);
      assert t[1..] == s[1..][..Reach(s[1..], Bare).value];
    }
  }

  // ----- expansions -----

  /** What `$` starts: nothing, so it stands for itself, a variable and how much text names it, or
      an error. */
  datatype Expansion = Dollar | Name(name: string, length: nat) | Bad

  function BraceLength(s: string): (n: Option<nat>)
    ensures n.Some? ==> n.value < |s| && s[n.value] == '}'
  {
    if s == "" then None
    else if s[0] == '}' then Some(0)
    else Plus(1, BraceLength(s[1..]))
  }

  function NameLength(s: string): (n: nat)
    ensures n <= |s| && forall k :: 0 <= k < n ==> NameChar(s[k])
  {
    if s == "" || !NameChar(s[0]) then 0 else 1 + NameLength(s[1..])
  }

  function ExpansionAt(s: string): (e: Expansion)
    requires s != "" && s[0] == '$'
    ensures e.Name? ==> 0 < e.length <= |s|
  {
    if |s| > 1 && s[1] == '?' then Name("?", 2)
    else if |s| > 1 && s[1] == '{' then
      var n := BraceLength(s[2..]);
      if n.Some? && ValidName(s[2..2 + n.value]) then Name(s[2..2 + n.value], n.value + 3) else Bad
    else if |s| > 1 && NameStart(s[1]) then
      var n := NameLength(s[1..]);
      Name(s[1..1 + n], 1 + n)
    else Dollar
  }

  // ----- the tokenizer -----

  /** The tokens of a segment, or why there are none: an unfinished quote or escape, a bad
      expansion, or more tokens or text than there is room for. */
  datatype Lexed = Tokens(tokens: seq<Token>) | Unfinished | BadExpansion | TooLong

  function Before(t: Token, r: Lexed): (l: Lexed)
  {
    if r.Tokens? then Tokens([t] + r.tokens) else r
  }

  /** Which operator stands at the start of `s`, and how long it is. */
  function OperatorAt(s: string): (r: (Kind, nat))
    requires s != "" && IsOperator(s[0])
    ensures 1 <= r.1 <= |s|
  {
    if s[0] == ';' then (Semicolon, 1)
    else if |s| > 1 && s[1] == s[0] then
      (if s[0] == '&' then And else if s[0] == '|' then Or else Unsupported, 2)
    else (Unsupported, 1)
  }

  /** The tokens of `s`, where quote `q` is open, the word read so far is `word`, `used`
      characters of storage are taken and there are `count` tokens already. */
  function Lex(env: string -> string, s: string, q: Quote, word: Option<string>, used: nat, count: nat)
      : (r: Lexed)
    decreases |s|, 2
  {
    if s == "" then
      if !q.Bare? then Unfinished
      else if word.None? then Tokens([])
      else if used >= LINE_SIZE || count >= TOKEN_COUNT then TooLong
      else Tokens([Word(word.value)])
    else if q.Bare? && Blank(s[0]) then
      if word.None? then Lex(env, s[1..], Bare, None, used, count)
      else if used >= LINE_SIZE || count >= TOKEN_COUNT then TooLong
      else Before(Word(word.value), Lex(env, s[1..], Bare, None, used + 1, count + 1))
    else if q.Bare? && IsOperator(s[0]) then
      if word.None? then LexOperator(env, s, used, count)
      else if used >= LINE_SIZE || count >= TOKEN_COUNT then TooLong
      else Before(Word(word.value), LexOperator(env, s, used + 1, count + 1))
    else if word.None? && (used >= LINE_SIZE || count >= TOKEN_COUNT) then TooLong
    else LexInWord(env, s, q, if word.None? then "" else word.value, used, count)
  }

  function LexOperator(env: string -> string, s: string, used: nat, count: nat): (r: Lexed)
    requires s != "" && IsOperator(s[0])
    decreases |s|, 0
  {
    var (kind, n) := OperatorAt(s);
    if count >= TOKEN_COUNT then TooLong
    else Before(Operator(kind), Lex(env, s[n..], Bare, None, used, count + 1))
  }

  function LexInWord(env: string -> string, s: string, q: Quote, word: string, used: nat, count: nat)
      : (r: Lexed)
    requires s != ""
    decreases |s|, 1
  {
    if q.Bare? && Opens(s[0]) then Lex(env, s[1..], QuoteOf(s[0]), Some(word), used, count)
    else if !q.Bare? && Closes(s[0], q) then Lex(env, s[1..], Bare, Some(word), used, count)
    else if s[0] == '\\' && !q.Single? then
      if |s| == 1 then Unfinished
      else if used + 1 >= LINE_SIZE then TooLong
      else Lex(env, s[2..], q, Some(word + [s[1]]), used + 1, count)
    else if s[0] == '$' && !q.Single? then
      match ExpansionAt(s)
      case Bad => BadExpansion
      case Dollar => LexValue(env, s[1..], q, word, "$", used, count)
      case Name(name, length) => LexValue(env, s[length..], q, word, env(name), used, count)
    else if used + 1 >= LINE_SIZE then TooLong
    else Lex(env, s[1..], q, Some(word + [s[0]]), used + 1, count)
  }

  function LexValue(env: string -> string, s: string, q: Quote, word: string, value: string, used: nat,
                    count: nat): (r: Lexed)
    decreases |s|, 3
  {
    if used + |value| >= LINE_SIZE then TooLong
    else Lex(env, s, q, Some(word + value), used + |value|, count)
  }

  // ----- they agree -----

  predicate Inert(c: char)
  {
    c != '\\' && !Opens(c) && !IsOperator(c)
  }

  lemma {:induction false} CleanTail(s: string, q: Quote, n: nat)
    requires Clean(s, q) && n <= |s| && forall k :: 0 <= k < n ==> Inert(s[k])
    ensures Clean(s[n..], q)
    decreases n
  {
    if n > 0 {
      assert Inert(s[0]);
      CleanTail(s[1..], q, n - 1);
      assert s[1..][n - 1..] == s[n..];
    }
  }

  /** An expansion takes only text the scanner passes over. */
  lemma {:induction false} ExpansionInert(s: string)
    requires s != "" && s[0] == '$' && ExpansionAt(s).Name?
    ensures forall k :: 0 <= k < ExpansionAt(s).length ==> Inert(s[k])
  {
    var e := ExpansionAt(s);
    if s[1] == '{' {
      var n := BraceLength(s[2..]).value;
      var name := s[2..2 + n];
      forall k | 0 <= k < e.length ensures Inert(s[k]) {
        if 2 <= k < 2 + n {
          assert s[k] == name[k - 2];
        } else if k == 2 + n {
          assert s[k] == s[2..][n];
        }
      }
    } else if s[1] != '?' {
      forall k | 1 <= k < e.length ensures Inert(s[k]) {
        assert s[k] == s[1..][k - 1];
      }
    }
  }

  /** Words only: what the main loop takes for arguments. */
  predicate OnlyWords(tokens: seq<Token>)
  {
    forall k :: 0 <= k < |tokens| ==> tokens[k].Word?
  }

  predicate HasText(s: string)
  {
    exists k :: 0 <= k < |s| && !Blank(s[k])
  }

  /** Words, at least one if one is expected; or an error other than an unfinished quote or
      escape. */
  predicate Fine(r: Lexed, some: bool)
  {
    !r.Unfinished? && (r.Tokens? ==> OnlyWords(r.tokens) && (some ==> r.tokens != []))
  }

  /** Where the scanner runs through, the tokenizer finds words and nothing else, and never an
      unfinished quote or escape. */
  lemma {:induction false} LexClean(env: string -> string, s: string, q: Quote, word: Option<string>, used: nat,
                                    count: nat)
    requires Clean(s, q)
    ensures Fine(Lex(env, s, q, word, used, count), word.Some? || HasText(s))
    decreases |s|, 2
  {
    if s == "" {
    } else if q.Bare? && Blank(s[0]) {
      LexClean(env, s[1..], Bare, None, used, count);
      LexClean(env, s[1..], Bare, None, used + 1, count + 1);
      BlankFirst(s);
    } else if q.Bare? && IsOperator(s[0]) {
      assert false;
    } else {
      LexWordClean(env, s, q, if word.None? then "" else word.value, used, count);
    }
  }

  lemma {:induction false} BlankFirst(s: string)
    requires s != "" && Blank(s[0])
    ensures HasText(s) ==> HasText(s[1..])
  {
    if HasText(s) {
      var k :| 0 <= k < |s| && !Blank(s[k]);
      assert !Blank(s[1..][k - 1]);
    }
  }

  lemma {:induction false} LexDollarClean(env: string -> string, s: string, q: Quote, word: string, used: nat,
                                          count: nat)
    requires s != "" && Clean(s, q) && s[0] == '$' && !q.Single?
    ensures Fine(LexInWord(env, s, q, word, used, count), true)
    decreases |s|, 0
  {
    var e := ExpansionAt(s);
    var n := if e.Name? then e.length else 1;
    if e.Name? {
      ExpansionInert(s);
    }
    if !e.Bad? {
      CleanTail(s, q, n);
      var value := if e.Name? then env(e.name) else "$";
      LexClean(env, s[n..], q, Some(word + value), used + |value|, count);
    }
  }

  lemma {:induction false} LexWordClean(env: string -> string, s: string, q: Quote, word: string, used: nat,
                                        count: nat)
    requires s != "" && Clean(s, q) && !(q.Bare? && (Blank(s[0]) || IsOperator(s[0])))
    ensures Fine(LexInWord(env, s, q, word, used, count), true)
    decreases |s|, 1
  {
    if q.Bare? && Opens(s[0]) {
      LexClean(env, s[1..], QuoteOf(s[0]), Some(word), used, count);
    } else if !q.Bare? && Closes(s[0], q) {
      LexClean(env, s[1..], Bare, Some(word), used, count);
    } else if s[0] == '\\' && !q.Single? {
      LexClean(env, s[2..], q, Some(word + [s[1]]), used + 1, count);
    } else if s[0] == '$' && !q.Single? {
      LexDollarClean(env, s, q, word, used, count);
    } else {
      LexClean(env, s[1..], q, Some(word + [s[0]]), used + 1, count);
    }
  }
}
