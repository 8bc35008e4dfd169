/** The editor's text as lines and a cursor, and as one flat string with a position in it. */
module EditorText {
  const MAX_LINES: nat := 4096
  const MAX_LINE_LEN: nat := 256

  /** The lines, and the cursor's line and column. */
  datatype View = View(text: seq<string>, row: nat, col: nat)

  /** A line holds no line break and leaves room for a terminator. */
  predicate LineFine(s: string)
  {
    |s| < MAX_LINE_LEN && forall j :: 0 <= j < |s| ==> s[j] != '\n' && s[j] != '\r'
  }

  predicate TextFine(text: seq<string>)
  {
    1 <= |text| <= MAX_LINES && forall k :: 0 <= k < |text| ==> LineFine(text[k])
  }

  /** The cursor is in the text. */
  predicate Within(v: View)
  {
    v.row < |v.text| && v.col <= |v.text[v.row]|
  }

  predicate Fine(v: View)
  {
    TextFine(v.text) && Within(v)
  }

  // ----- the operations on lines -----

  function InsertAt<T>(s: seq<T>, i: nat, c: T): (r: seq<T>)
    requires i <= |s|
  {
    s[..i] + [c] + s[i..]
  }

  function RemoveAt<T>(s: seq<T>, i: nat): (r: seq<T>)
    requires i < |s|
  {
    s[..i] + s[i + 1..]
  }

  /** Typing a character; a full line stays as it is. */
  function Typed(v: View, c: char): (w: View)
    requires Within(v)
  {
    if |v.text[v.row]| >= MAX_LINE_LEN - 1 then v
    else View(v.text[v.row := InsertAt(v.text[v.row], v.col, c)], v.row, v.col + 1)
  }

  /** Breaking the line at the cursor; a full buffer stays as it is. */
  function Broken(v: View): (w: View)
    requires Within(v)
  {
    if |v.text| >= MAX_LINES then v
    else
      var s := v.text[v.row];
      View(v.text[..v.row] + [s[..v.col], s[v.col..]] + v.text[v.row + 1..], v.row + 1, 0)
  }

  /** Deleting backwards; at the start of a line it is joined to the one before, if they fit. */
  function Erased(v: View): (w: View)
    requires Within(v)
  {
    if v.col > 0 then
      View(v.text[v.row := RemoveAt(v.text[v.row], v.col - 1)], v.row, v.col - 1)
    else if v.row > 0 && |v.text[v.row - 1]| + |v.text[v.row]| < MAX_LINE_LEN then
      View(v.text[..v.row - 1] + [v.text[v.row - 1] + v.text[v.row]] + v.text[v.row + 1..],
           v.row - 1, |v.text[v.row - 1]|)
    else v
  }

  function Min(a: nat, b: nat): (m: nat)
  {
    if a <= b then a else b
  }

  function Up(v: View): (w: View)
    requires Within(v)
  {
    if v.row == 0 then v else v.(row := v.row - 1, col := Min(v.col, |v.text[v.row - 1]|))
  }

  function Down(v: View): (w: View)
    requires Within(v)
  {
    if v.row + 1 == |v.text| then v
    else v.(row := v.row + 1, col := Min(v.col, |v.text[v.row + 1]|))
  }

  function Left(v: View): (w: View)
    requires Within(v)
  {
    if v.col > 0 then v.(col := v.col - 1)
    else if v.row > 0 then v.(row := v.row - 1, col := |v.text[v.row - 1]|)
    else v
  }

  function Right(v: View): (w: View)
    requires Within(v)
  {
    if v.col < |v.text[v.row]| then v.(col := v.col + 1)
    else if v.row + 1 < |v.text| then v.(row := v.row + 1, col := 0)
    else v
  }

  datatype Key = KeyUp | KeyDown | KeyLeft | KeyRight | KeyBackspace | KeyEnter | KeyChar(c: char)

  /** One key.  Only printable characters are typed. */
  function Press(v: View, k: Key): (w: View)
    requires Within(v)
  {
    match k
    case KeyUp => Up(v)
    case KeyDown => Down(v)
    case KeyLeft => Left(v)
    case KeyRight => Right(v)
    case KeyBackspace => Erased(v)
    case KeyEnter => Broken(v)
    case KeyChar(c) => if ' ' <= c <= '~' then Typed(v, c) else v
  }

  lemma {:induction false} TypedFine(v: View, c: char)
    requires Fine(v) && c != '\n' && c != '\r'
    ensures Fine(Typed(v, c))
  {
  }

  lemma {:induction false} BrokenFine(v: View)
    requires Fine(v)
    ensures Fine(Broken(v))
  {
    if |v.text| < MAX_LINES {
      var s := v.text[v.row];
      assert LineFine(s) && LineFine(s[..v.col]) && LineFine(s[v.col..]);
    }
  }

  lemma {:induction false} ErasedFine(v: View)
    requires Fine(v)
    ensures Fine(Erased(v))
  {
    if v.col > 0 {
      assert LineFine(v.text[v.row]);
      assert LineFine(RemoveAt(v.text[v.row], v.col - 1));
    } else if v.row > 0 {
      assert LineFine(v.text[v.row - 1]) && LineFine(v.text[v.row]);
    }
  }

  lemma {:induction false} PressFine(v: View, k: Key)
    requires Fine(v)
    ensures Fine(Press(v, k))
  {
    match k
    case KeyBackspace => ErasedFine(v);
    case KeyEnter => BrokenFine(v);
    case KeyChar(c) => if ' ' <= c <= '~' { TypedFine(v, c); }
    case _ =>
  }

  function PressAll(v: View, keys: seq<Key>): (w: View)
    requires Fine(v)
    ensures Fine(w)
    decreases |keys|
  {
    if keys == [] then v
    else
      PressFine(v, keys[0]);
      PressAll(Press(v, keys[0]), keys[1..])
  }

  // ----- undoing -----

  /** Backspace undoes a typed character. */
  lemma {:induction false} EraseTyped(v: View, c: char)
    requires Fine(v) && c != '\n' && c != '\r' && |v.text[v.row]| < MAX_LINE_LEN - 1
    ensures Fine(Typed(v, c)) && Erased(Typed(v, c)) == v
  {
    TypedFine(v, c);
    var s := v.text[v.row];
    assert RemoveAt(InsertAt(s, v.col, c), v.col) == s;
    var w := Typed(v, c);
    assert w.text[v.row := s] == v.text;
  }

  /** Backspace undoes a line break. */
  lemma {:induction false} EraseBroken(v: View)
    requires Fine(v) && |v.text| < MAX_LINES
    ensures Fine(Broken(v)) && Erased(Broken(v)) == v
  {
    BrokenFine(v);
    var s, w := v.text[v.row], Broken(v);
    assert LineFine(s);
    assert s[..v.col] + s[v.col..] == s;
    assert w.text[..v.row] == v.text[..v.row];
    assert w.text[v.row + 2..] == v.text[v.row + 1..];
    assert v.text[..v.row] + [s] + v.text[v.row + 1..] == v.text;
  }

  // ----- the flat text -----

  /** The lines, each with a line feed behind it. */
  function Lead(text: seq<string>): (s: string)
  {
    if text == [] then "" else Lead(text[..|text| - 1]) + text[|text| - 1] + "\n"
  }

  /** The lines with line feeds between them. */
  function Flat(text: seq<string>): (s: string)
  {
    if text == [] then "" else Lead(text[..|text| - 1]) + text[|text| - 1]
  }

  /** What follows a line in the flat text. */
  function Trail(text: seq<string>): (s: string)
  {
    if text == [] then "" else "\n" + Flat(text)
  }

  /** Where line `row` starts in the flat text. */
  function Start(text: seq<string>, row: nat): (p: nat)
    requires row <= |text|
  {
    if row == 0 then 0 else Start(text, row - 1) + |text[row - 1]| + 1
  }

  /** The cursor's place in the flat text. */
  function Position(v: View): (p: nat)
    requires Within(v)
  {
    Start(v.text, v.row) + v.col
  }

  lemma {:induction false} StartSame(a: seq<string>, b: seq<string>, row: nat)
    requires row <= |a| && row <= |b| && forall k :: 0 <= k < row ==> a[k] == b[k]
    ensures Start(a, row) == Start(b, row)
    decreases row
  {
    if row > 0 { StartSame(a, b, row - 1); }
  }

  lemma {:induction false} StartIsLead(text: seq<string>, row: nat)
    requires row <= |text|
    ensures Start(text, row) == |Lead(text[..row])|
    decreases row
  {
    if row > 0 {
      StartIsLead(text, row - 1);
      assert text[..row][..row - 1] == text[..row - 1];
    }
  }

  lemma {:induction false} LeadMore(a: seq<string>, s: string)
    ensures Lead(a + [s]) == Lead(a) + s + "\n"
  {
    assert (a + [s])[..|a|] == a;
  }

  lemma {:induction false} LeadAppend(a: seq<string>, b: seq<string>)
    ensures Lead(a + b) == Lead(a) + Lead(b)
    decreases |b|
  {
    if b == [] {
      assert a + b == a;
    } else {
      var front, last := b[..|b| - 1], b[|b| - 1];
      LeadAppend(a, front);
      LeadMore(a + front, last);
      assert a + b == a + front + [last];
      assert Lead(a) + Lead(front) + last + "\n" == Lead(a) + (Lead(front) + last + "\n");
    }
  }

  lemma {:induction false} FlatMore(a: seq<string>, s: string)
    ensures Flat(a + [s]) == Lead(a) + s
  {
    assert (a + [s])[..|a|] == a;
  }

  lemma {:induction false} Regroup(a: string, s: string, b: string, t: string)
    ensures a + s + "\n" + b + t == a + s + ("\n" + (b + t))
  {
  }

  /** The flat text falls apart at any line: what is before it, the line, and what is behind. */
  lemma {:induction false} FlatAround(a: seq<string>, s: string, b: seq<string>)
    ensures Flat(a + [s] + b) == Lead(a) + s + Trail(b)
  {
    if b == [] {
      FlatMore(a, s);
      assert a + [s] + b == a + [s];
      assert Lead(a) + s + "" == Lead(a) + s;
    } else {
      var front, last := b[..|b| - 1], b[|b| - 1];
      LeadMore(a, s);
      LeadAppend(a + [s], front);
      FlatMore(a + [s] + front, last);
      FlatMore(front, last);
      assert b == front + [last];
      assert a + [s] + b == a + [s] + front + [last];
      Regroup(Lead(a), s, Lead(front), last);
    }
  }

  lemma {:induction false} FlatSplit(text: seq<string>, row: nat)
    requires row < |text|
    ensures Flat(text) == Lead(text[..row]) + text[row] + Trail(text[row + 1..])
  {
    FlatAround(text[..row], text[row], text[row + 1..]);
    assert text[..row] + [text[row]] + text[row + 1..] == text;
  }

  lemma {:induction false} InsertMiddle(a: string, s: string, b: string, i: nat, c: char)
    requires i <= |s|
    ensures InsertAt(a + s + b, |a| + i, c) == a + InsertAt(s, i, c) + b
  {
  }

  lemma {:induction false} RemoveMiddle(a: string, s: string, b: string, i: nat)
    requires i < |s|
    ensures RemoveAt(a + s + b, |a| + i) == a + RemoveAt(s, i) + b
  {
  }

  lemma {:induction false} BreakMiddle(a: string, s: string, b: string, i: nat)
    requires i <= |s|
    ensures InsertAt(a + s + b, |a| + i, '\n') == a + s[..i] + "\n" + s[i..] + b
  {
  }

  lemma {:induction false} JoinMiddle(a: string, s: string, t: string, b: string)
    ensures |a| + |s| < |a + s + "\n" + t + b|
    ensures RemoveAt(a + s + "\n" + t + b, |a| + |s|) == a + (s + t) + b
  {
  }

  lemma {:induction false} FlatPair(a: seq<string>, s: string, t: string, b: seq<string>)
    ensures Flat(a + [s, t] + b) == Lead(a) + s + "\n" + t + Trail(b)
    ensures |Lead(a + [s])| == |Lead(a)| + |s| + 1
  {
    assert a + [s, t] + b == a + [s] + [t] + b;
    FlatAround(a + [s], t, b);
    LeadMore(a, s);
  }

  lemma {:induction false} PairPieces(text: seq<string>, row: nat)
    requires 0 < row < |text|
    ensures text == text[..row - 1] + [text[row - 1], text[row]] + text[row + 1..]
    ensures text[..row] == text[..row - 1] + [text[row - 1]]
  {
  }

  lemma {:induction false} Pieces(text: seq<string>, row: nat, x: string)
    requires row < |text|
    ensures text == text[..row] + [text[row]] + text[row + 1..]
    ensures text[row := x] == text[..row] + [x] + text[row + 1..]
    ensures text[row := x][..row] == text[..row]
  {
  }

  // A change of one line is a change at one place of the flat text.

  lemma {:induction false} InsertFlat(a: seq<string>, s: string, b: seq<string>, i: nat, c: char)
    requires i <= |s|
    ensures |Lead(a)| + i <= |Flat(a + [s] + b)|
    ensures Flat(a + [InsertAt(s, i, c)] + b) == InsertAt(Flat(a + [s] + b), |Lead(a)| + i, c)
  {
    FlatAround(a, s, b);
    FlatAround(a, InsertAt(s, i, c), b);
    InsertMiddle(Lead(a), s, Trail(b), i, c);
  }

  lemma {:induction false} RemoveFlat(a: seq<string>, s: string, b: seq<string>, i: nat)
    requires i < |s|
    ensures |Lead(a)| + i < |Flat(a + [s] + b)|
    ensures Flat(a + [RemoveAt(s, i)] + b) == RemoveAt(Flat(a + [s] + b), |Lead(a)| + i)
  {
    FlatAround(a, s, b);
    FlatAround(a, RemoveAt(s, i), b);
    RemoveMiddle(Lead(a), s, Trail(b), i);
  }

  lemma {:induction false} BreakFlat(a: seq<string>, s: string, b: seq<string>, i: nat)
    requires i <= |s|
    ensures |Lead(a)| + i <= |Flat(a + [s] + b)|
    ensures Flat(a + [s[..i], s[i..]] + b) == InsertAt(Flat(a + [s] + b), |Lead(a)| + i, '\n')
    ensures |Lead(a + [s[..i]])| == |Lead(a)| + i + 1
  {
    FlatAround(a, s, b);
    FlatPair(a, s[..i], s[i..], b);
    BreakMiddle(Lead(a), s, Trail(b), i);
  }

  lemma {:induction false} JoinFlat(a: seq<string>, s: string, t: string, b: seq<string>)
    ensures |Lead(a)| + |s| < |Flat(a + [s, t] + b)|
    ensures Flat(a + [s + t] + b) == RemoveAt(Flat(a + [s, t] + b), |Lead(a)| + |s|)
    ensures |Lead(a + [s])| == |Lead(a)| + |s| + 1
  {
    FlatAround(a, s + t, b);
    FlatPair(a, s, t, b);
    JoinMiddle(Lead(a), s, t, Trail(b));
  }

  lemma {:induction false} InsertRow(text: seq<string>, row: nat, i: nat, c: char)
    requires row < |text| && i <= |text[row]|
    ensures Start(text, row) + i <= |Flat(text)|
    ensures Flat(text[row := InsertAt(text[row], i, c)]) == InsertAt(Flat(text), Start(text, row) + i, c)
  {
    StartIsLead(text, row);
    Pieces(text, row, InsertAt(text[row], i, c));
    InsertFlat(text[..row], text[row], text[row + 1..], i, c);
  }

  lemma {:induction false} RemoveRow(text: seq<string>, row: nat, i: nat)
    requires row < |text| && i < |text[row]|
    ensures Start(text, row) + i < |Flat(text)|
    ensures Flat(text[row := RemoveAt(text[row], i)]) == RemoveAt(Flat(text), Start(text, row) + i)
  {
    StartIsLead(text, row);
    Pieces(text, row, RemoveAt(text[row], i));
    RemoveFlat(text[..row], text[row], text[row + 1..], i);
  }

  lemma {:induction false} BreakRow(text: seq<string>, row: nat, i: nat)
    requires row < |text| && i <= |text[row]|
    ensures Start(text, row) + i <= |Flat(text)|
    ensures Flat(text[..row] + [text[row][..i], text[row][i..]] + text[row + 1..])
            == InsertAt(Flat(text), Start(text, row) + i, '\n')
  {
    StartIsLead(text, row);
    Pieces(text, row, "");
    BreakFlat(text[..row], text[row], text[row + 1..], i);
  }

  lemma {:induction false} JoinRows(text: seq<string>, row: nat)
    requires 0 < row < |text|
    ensures Start(text, row) <= |Flat(text)|
    ensures Flat(text[..row - 1] + [text[row - 1] + text[row]] + text[row + 1..])
            == RemoveAt(Flat(text), Start(text, row) - 1)
  {
    var a, s, t, b := text[..row - 1], text[row - 1], text[row], text[row + 1..];
    JoinFlat(a, s, t, b);
    PairPieces(text, row);
    StartIsLead(text, row - 1);
    assert Start(text, row) == |Lead(a)| + |s| + 1;
  }

  /** Typing inserts one character at the cursor's place in the flat text, and moves behind it. */
  lemma {:induction false} TypedFlat(v: View, c: char)
    requires Within(v) && |v.text[v.row]| < MAX_LINE_LEN - 1
    ensures Within(Typed(v, c)) && Position(v) <= |Flat(v.text)|
    ensures Flat(Typed(v, c).text) == InsertAt(Flat(v.text), Position(v), c)
    ensures Position(Typed(v, c)) == Position(v) + 1
  {
    InsertRow(v.text, v.row, v.col, c);
    StartSame(v.text, Typed(v, c).text, v.row);
  }

  /** Breaking a line inserts a line feed. */
  lemma {:induction false} BrokenFlat(v: View)
    requires Within(v) && |v.text| < MAX_LINES
    ensures Within(Broken(v)) && Position(v) <= |Flat(v.text)|
    ensures Flat(Broken(v).text) == InsertAt(Flat(v.text), Position(v), '\n')
    ensures Position(Broken(v)) == Position(v) + 1
  {
    BreakRow(v.text, v.row, v.col);
    StartSame(v.text, Broken(v).text, v.row);
  }

  /** One character less before the cursor. */
  ghost predicate StepBack(v: View, w: View)
    requires Within(v) && Within(w)
  {
    && 0 < Position(v) <= |Flat(v.text)|
    && Flat(w.text) == RemoveAt(Flat(v.text), Position(v) - 1)
    && Position(w) == Position(v) - 1
  }

  lemma {:induction false} ErasedInLine(v: View)
    requires Within(v) && v.col > 0
    ensures Within(Erased(v)) && StepBack(v, Erased(v))
  {
    RemoveRow(v.text, v.row, v.col - 1);
    StartSame(v.text, Erased(v).text, v.row);
  }

  lemma {:induction false} ErasedBreak(v: View)
    requires Within(v) && v.col == 0 && v.row > 0
    requires |v.text[v.row - 1]| + |v.text[v.row]| < MAX_LINE_LEN
    ensures Within(Erased(v)) && StepBack(v, Erased(v))
  {
    JoinRows(v.text, v.row);
    StartSame(v.text, Erased(v).text, v.row - 1);
  }

  /** Backspace removes the character before the cursor, or does nothing: at the start of the
      text, or where the joined line would be too long. */
  lemma {:induction false} ErasedFlat(v: View)
    requires Within(v)
    ensures Within(Erased(v))
    ensures Erased(v) == v <==>
              v.col == 0 && (v.row == 0 || |v.text[v.row - 1]| + |v.text[v.row]| >= MAX_LINE_LEN)
    ensures Erased(v) != v ==> StepBack(v, Erased(v))
  {
    if v.col > 0 {
      ErasedInLine(v);
    } else if v.row > 0 && |v.text[v.row - 1]| + |v.text[v.row]| < MAX_LINE_LEN {
      ErasedBreak(v);
    }
  }

  /** The left arrow moves the cursor back one place in the flat text, except at its start... */
  lemma {:induction false} LeftFlat(v: View)
    requires Within(v)
    ensures Within(Left(v)) && Left(v).text == v.text
    ensures Position(Left(v)) == if Position(v) == 0 then 0 else Position(v) - 1
  {
    assert v.row > 0 ==> Start(v.text, v.row) == Start(v.text, v.row - 1) + |v.text[v.row - 1]| + 1;
  }

  lemma {:induction false} FlatLength(text: seq<string>, row: nat)
    requires row < |text|
    ensures Start(text, row) + |text[row]| <= |Flat(text)|
    ensures row + 1 == |text| ==> Start(text, row) + |text[row]| == |Flat(text)|
    ensures row + 1 < |text| ==> Start(text, row) + |text[row]| < |Flat(text)|
  {
    StartIsLead(text, row);
    FlatSplit(text, row);
  }

  /** ...and the right arrow forward, except at its end. */
  lemma {:induction false} RightFlat(v: View)
    requires Within(v)
    ensures Within(Right(v)) && Right(v).text == v.text && Position(v) <= |Flat(v.text)|
    ensures Position(Right(v)) == Min(Position(v) + 1, |Flat(v.text)|)
  {
    FlatLength(v.text, v.row);
  }
}
