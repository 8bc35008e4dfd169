/** The editor as an editor of one string: a string, and a place in it. */
module EditorFlat {
  import opened EditorText
  import opened EditorFile

  datatype Caret = Caret(s: string, at: nat)

  /** Where the line of place `p` starts... */
  function LineStart(s: string, p: nat): (b: nat)
    requires p <= |s|
    ensures b <= p && (b > 0 ==> s[b - 1] == '\n')
  {
    if p == 0 || s[p - 1] == '\n' then p else LineStart(s, p - 1)
  }

  /** ...and where it ends. */
  function LineEnd(s: string, p: nat): (e: nat)
    requires p <= |s|
    ensures p <= e <= |s| && (e < |s| ==> s[e] == '\n')
    decreases |s| - p
  {
    if p == |s| || s[p] == '\n' then p else LineEnd(s, p + 1)
  }

  // ----- the keys on a string -----

  /** To the same column of the line before, or to its end if it is shorter. */
  function FlatUp(c: Caret): (d: Caret)
    requires c.at <= |c.s|
  {
    var b := LineStart(c.s, c.at);
    if b == 0 then c else c.(at := Min(LineStart(c.s, b - 1) + (c.at - b), b - 1))
  }

  /** To the same column of the line behind, or to its end if it is shorter. */
  function FlatDown(c: Caret): (d: Caret)
    requires c.at <= |c.s|
  {
    var b, e := LineStart(c.s, c.at), LineEnd(c.s, c.at);
    if e == |c.s| then c else c.(at := Min(e + 1 + (c.at - b), LineEnd(c.s, e + 1)))
  }

  /** One character less; nothing at the start, or if two lines would make too long a line. */
  function FlatErased(c: Caret): (d: Caret)
    requires c.at <= |c.s|
  {
    if c.at == 0 then c
    else if c.s[c.at - 1] == '\n'
            && LineEnd(c.s, c.at) - 1 - LineStart(c.s, c.at - 1) >= MAX_LINE_LEN then c
    else Caret(RemoveAt(c.s, c.at - 1), c.at - 1)
  }

  /** A line feed more; nothing if there are too many lines already. */
  function FlatBroken(c: Caret): (d: Caret)
    requires c.at <= |c.s|
  {
    if LineFeeds(c.s) + 1 >= MAX_LINES then c else Caret(InsertAt(c.s, c.at, '\n'), c.at + 1)
  }

  /** A character more; nothing if the line is full. */
  function FlatTyped(c: Caret, x: char): (d: Caret)
    requires c.at <= |c.s|
  {
    if LineEnd(c.s, c.at) - LineStart(c.s, c.at) >= MAX_LINE_LEN - 1 then c
    else Caret(InsertAt(c.s, c.at, x), c.at + 1)
  }

  function FlatPress(c: Caret, k: Key): (d: Caret)
    requires c.at <= |c.s|
    ensures d.at <= |d.s|
  {
    match k
    case KeyUp => FlatUp(c)
    case KeyDown => FlatDown(c)
    case KeyLeft => if c.at == 0 then c else c.(at := c.at - 1)
    case KeyRight => if c.at == |c.s| then c else c.(at := c.at + 1)
    case KeyBackspace => FlatErased(c)
    case KeyEnter => FlatBroken(c)
    case KeyChar(x) => if ' ' <= x <= '~' then FlatTyped(c, x) else c
  }

  function FlatPressAll(c: Caret, keys: seq<Key>): (d: Caret)
    requires c.at <= |c.s|
    ensures d.at <= |d.s|
    decreases |keys|
  {
    if keys == [] then c else FlatPressAll(FlatPress(c, keys[0]), keys[1..])
  }

  // ----- lines of a flat text -----

  lemma {:induction false} StartsWithin(a: string, s: string, b: string, i: nat)
    requires OneLine(s) && i <= |s| && (a != "" ==> a[|a| - 1] == '\n')
    ensures LineStart(a + s + b, |a| + i) == |a|
    decreases i
  {
    if i > 0 {
      assert (a + s + b)[|a| + i - 1] == s[i - 1];
      StartsWithin(a, s, b, i - 1);
    } else if a != "" {
      assert (a + s + b)[|a| - 1] == a[|a| - 1];
    }
  }

  lemma {:induction false} EndsWithin(a: string, s: string, b: string, i: nat)
    requires OneLine(s) && i <= |s| && (b != "" ==> b[0] == '\n')
    ensures LineEnd(a + s + b, |a| + i) == |a| + |s|
    decreases |s| - i
  {
    if i < |s| {
      assert (a + s + b)[|a| + i] == s[i];
      EndsWithin(a, s, b, i + 1);
    } else if b != "" {
      assert (a + s + b)[|a| + |s|] == b[0];
    }
  }

  lemma {:induction false} LeadEnds(a: seq<string>)
    ensures Lead(a) != "" ==> Lead(a)[|Lead(a)| - 1] == '\n'
  {
  }

  /** The line of a place in the flat text is the line of the cursor. */
  lemma {:induction false} LineAt(text: seq<string>, row: nat, col: nat)
    requires TextFine(text) && row < |text| && col <= |text[row]|
    ensures Start(text, row) + |text[row]| <= |Flat(text)|
    ensures LineStart(Flat(text), Start(text, row) + col) == Start(text, row)
    ensures LineEnd(Flat(text), Start(text, row) + col) == Start(text, row) + |text[row]|
  {
    var a, s, b := Lead(text[..row]), text[row], Trail(text[row + 1..]);
    FlatSplit(text, row);
    StartIsLead(text, row);
    assert OneLine(s) by { assert LineFine(s); }
    LeadEnds(text[..row]);
    StartsWithin(a, s, b, col);
    EndsWithin(a, s, b, col);
  }

  /** The character before a line's start is the line feed of the line before. */
  lemma {:induction false} FeedBefore(text: seq<string>, row: nat)
    requires TextFine(text) && 0 < row < |text|
    ensures 0 < Start(text, row) <= |Flat(text)| && Flat(text)[Start(text, row) - 1] == '\n'
  {
    LineAt(text, row - 1, |text[row - 1]|);
    FlatLength(text, row - 1);
  }

  /** Inside a line there is none. */
  lemma {:induction false} NoFeedBefore(text: seq<string>, row: nat, col: nat)
    requires TextFine(text) && row < |text| && 0 < col <= |text[row]|
    ensures Start(text, row) + col <= |Flat(text)| && Flat(text)[Start(text, row) + col - 1] != '\n'
  {
    FlatSplit(text, row);
    StartIsLead(text, row);
    assert LineFine(text[row]);
    assert Flat(text)[Start(text, row) + col - 1] == text[row][col - 1];
  }

  lemma {:induction false} FeedsAreLines(text: seq<string>)
    requires TextFine(text)
    ensures LineFeeds(Flat(text)) + 1 == |text|
  {
    SaveThenLoad(text);
    LoadedCount(Flat(text));
  }

  // ----- the two editors -----

  /** What a view is on the string. */
  function Flattened(v: View): (c: Caret)
    requires Fine(v)
    ensures c.at <= |c.s|
  {
    FlatLength(v.text, v.row);
    Caret(Flat(v.text), Position(v))
  }

  // In string `s` the cursor's line, and those before and behind it, are where they are in the
  // flat text.

  ghost predicate RuledHere(v: View, s: string)
    requires Within(v)
  {
    && Position(v) <= |s| && LineStart(s, Position(v)) == Start(v.text, v.row)
    && LineEnd(s, Position(v)) == Start(v.text, v.row) + |v.text[v.row]|
  }

  ghost predicate RuledBefore(v: View, s: string)
    requires Within(v)
  {
    v.row > 0 ==>
      && Start(v.text, v.row) <= |s|
      && LineStart(s, Start(v.text, v.row) - 1) == Start(v.text, v.row - 1)
  }

  ghost predicate RuledBehind(v: View, s: string)
    requires Within(v)
  {
    if v.row + 1 == |v.text| then Start(v.text, v.row) + |v.text[v.row]| == |s|
    else
      && Start(v.text, v.row + 1) <= |s|
      && LineEnd(s, Start(v.text, v.row + 1)) == Start(v.text, v.row + 1) + |v.text[v.row + 1]|
  }

  ghost predicate Ruled(v: View, s: string)
    requires Within(v)
  {
    RuledHere(v, s) && RuledBefore(v, s) && RuledBehind(v, s)
  }

  lemma {:induction false} FlatRuledHere(v: View)
    requires Fine(v)
    ensures RuledHere(v, Flat(v.text))
  {
    LineAt(v.text, v.row, v.col);
  }

  lemma {:induction false} FlatRuledBefore(v: View)
    requires Fine(v)
    ensures RuledBefore(v, Flat(v.text))
  {
    if v.row > 0 {
      LineAt(v.text, v.row - 1, |v.text[v.row - 1]|);
      FlatLength(v.text, v.row - 1);
    }
  }

  lemma {:induction false} FlatRuledBehind(v: View)
    requires Fine(v)
    ensures RuledBehind(v, Flat(v.text))
  {
    FlatLength(v.text, v.row);
    if v.row + 1 < |v.text| {
      LineAt(v.text, v.row + 1, 0);
    }
  }

  lemma {:induction false} FlatRuled(v: View)
    requires Fine(v)
    ensures Ruled(v, Flat(v.text))
  {
    FlatRuledHere(v);
    FlatRuledBefore(v);
    FlatRuledBehind(v);
  }

  lemma {:induction false} UpRuled(v: View, s: string)
    requires Within(v) && Ruled(v, s)
    ensures Within(Up(v)) && Caret(s, Position(Up(v))) == FlatUp(Caret(s, Position(v)))
  {
  }

  lemma {:induction false} DownRuled(v: View, s: string)
    requires Within(v) && Ruled(v, s)
    ensures Within(Down(v)) && Caret(s, Position(Down(v))) == FlatDown(Caret(s, Position(v)))
  {
  }

  /** Whether backspace would join two lines into too long a line. */
  lemma {:induction false} EraseRuled(v: View, s: string)
    requires Within(v) && Ruled(v, s) && 0 < Position(v) && (s[Position(v) - 1] == '\n' <==> v.col == 0)
    ensures FlatErased(Caret(s, Position(v)))
            == if Erased(v) == v then Caret(s, Position(v))
               else Caret(RemoveAt(s, Position(v) - 1), Position(v) - 1)
  {
    ErasedFlat(v);
  }

  lemma {:induction false} UpFlat(v: View)
    requires Fine(v)
    ensures Fine(Up(v)) && Flattened(Up(v)) == FlatUp(Flattened(v))
  {
    FlatRuled(v);
    UpRuled(v, Flat(v.text));
  }

  lemma {:induction false} DownFlat(v: View)
    requires Fine(v)
    ensures Fine(Down(v)) && Flattened(Down(v)) == FlatDown(Flattened(v))
  {
    FlatRuled(v);
    DownRuled(v, Flat(v.text));
  }

  lemma {:induction false} EraseFlat(v: View)
    requires Fine(v)
    ensures Fine(Erased(v)) && Flattened(Erased(v)) == FlatErased(Flattened(v))
  {
    ErasedFine(v);
    ErasedFlat(v);
    if v.col > 0 || v.row > 0 {
      FlatRuled(v);
      if v.col > 0 {
        NoFeedBefore(v.text, v.row, v.col);
      } else {
        FeedBefore(v.text, v.row);
      }
      EraseRuled(v, Flat(v.text));
    }
  }

  lemma {:induction false} BreakIsFlat(v: View)
    requires Fine(v)
    ensures Fine(Broken(v)) && Flattened(Broken(v)) == FlatBroken(Flattened(v))
  {
    BrokenFine(v);
    FeedsAreLines(v.text);
    if |v.text| < MAX_LINES {
      BrokenFlat(v);
    }
  }

  lemma {:induction false} TypeIsFlat(v: View, x: char)
    requires Fine(v) && x != '\n' && x != '\r'
    ensures Fine(Typed(v, x)) && Flattened(Typed(v, x)) == FlatTyped(Flattened(v), x)
  {
    TypedFine(v, x);
    LineAt(v.text, v.row, v.col);
    if |v.text[v.row]| < MAX_LINE_LEN - 1 {
      TypedFlat(v, x);
    }
  }

  /** One key does to the string what it does to the lines. */
  lemma {:induction false} PressFlat(v: View, k: Key)
    requires Fine(v)
    ensures Fine(Press(v, k)) && Flattened(Press(v, k)) == FlatPress(Flattened(v), k)
  {
    PressFine(v, k);
    match k
    case KeyUp => UpFlat(v);
    case KeyDown => DownFlat(v);
    case KeyLeft => LeftFlat(v);
    case KeyRight => RightFlat(v);
    case KeyBackspace => EraseFlat(v);
    case KeyEnter => BreakIsFlat(v);
    case KeyChar(x) => if ' ' <= x <= '~' { TypeIsFlat(v, x); }
  }

  /** Through every run of keys the editor of lines is an editor of one string. */
  lemma {:induction false} RunIsFlat(v: View, keys: seq<Key>)
    requires Fine(v)
    ensures Flattened(PressAll(v, keys)) == FlatPressAll(Flattened(v), keys)
    decreases |keys|
  {
    if keys != [] {
      PressFlat(v, keys[0]);
      RunIsFlat(Press(v, keys[0]), keys[1..]);
    }
  }
}
