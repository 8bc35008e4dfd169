/** The editor: a fixed buffer of lines edited in place. */
module Editor {
  import opened Basics
  import opened EditorText
  import opened EditorFile
  import opened EditorRows

  class Buffer {
    const chars: array2<char>
    const lens: array<nat>
    var total: nat
    var row: nat
    var col: nat
    ghost var cells: seq<seq<char>>
    ghost var lengths: seq<nat>
    ghost var text: seq<string>

    /** The ghost copies agree with the arrays. */
    ghost predicate Mirrors()
      reads this, chars, lens
    {
      && chars.Length0 == MAX_LINES && chars.Length1 == MAX_LINE_LEN && lens.Length == MAX_LINES
      && |cells| == MAX_LINES && |lengths| == MAX_LINES
      && (forall i :: 0 <= i < MAX_LINES ==> |cells[i]| == MAX_LINE_LEN)
      && (forall i, j :: 0 <= i < MAX_LINES && 0 <= j < MAX_LINE_LEN ==> chars[i, j] == cells[i][j])
      && (forall i :: 0 <= i < MAX_LINES ==> lens[i] == lengths[i])
    }

    /** The arrays hold the lines, terminated, and the cursor is in them. */
    ghost predicate Valid()
      reads this, chars, lens
    {
      Mirrors() && Shows(cells, lengths, Now()) && |text| == total
    }

    ghost function Now(): (v: View)
      reads this
    {
      EditorText.View(text, row, col)
    }

    constructor ()
      ensures Valid() && Now() == EditorText.View([""], 0, 0) && fresh(chars) && fresh(lens)
    {
      chars := new char[MAX_LINES, MAX_LINE_LEN]((i, j) => '\0');
      lens := new nat[MAX_LINES](i => 0);
      total, row, col := 1, 0, 0;
      cells := seq(MAX_LINES, i => seq(MAX_LINE_LEN, j => '\0'));
      lengths := seq(MAX_LINES, i => 0);
      text := [""];
    }

    // ----- single cells and rows -----

    method Put(i: nat, j: nat, c: char)
      requires Mirrors() && i < MAX_LINES && j < MAX_LINE_LEN
      modifies chars, `cells
      ensures Mirrors() && cells == old(cells)[i := old(cells)[i][j := c]]
    {
      chars[i, j] := c;
      cells := cells[i := cells[i][j := c]];
    }

    method SetLength(i: nat, n: nat)
      requires Mirrors() && i < MAX_LINES
      modifies lens, `lengths
      ensures Mirrors() && lengths == old(lengths)[i := n]
    {
      lens[i] := n;
      lengths := lengths[i := n];
    }

    /** Copies `n` characters from row `src` to another row. */
    method CopyChars(dst: nat, at: nat, src: nat, from: nat, n: nat)
      requires Mirrors() && dst < MAX_LINES && src < MAX_LINES && dst != src
      requires at + n <= MAX_LINE_LEN && from + n <= MAX_LINE_LEN
      modifies chars, `cells
      ensures Mirrors()
      ensures cells == old(cells)[dst := Spliced(old(cells)[dst], at, old(cells)[src][from..from + n])]
    {
      ghost var r, q := cells[dst], cells[src];
      assert Spliced(r, at, q[from..from]) == r;
      for k := 0 to n
        invariant Mirrors()
        invariant cells == old(cells)[dst := Spliced(r, at, q[from..from + k])]
      {
        SplicedMore(r, at, q[from..from + k], q[from + k]);
        assert q[from..from + k + 1] == q[from..from + k] + [q[from + k]];
        Put(dst, at + k, chars[src, from + k]);
      }
    }

    /** Copies a whole row and its length. */
    method CopyRow(dst: nat, src: nat)
      requires Mirrors() && dst < MAX_LINES && src < MAX_LINES && dst != src
      modifies chars, lens, `cells, `lengths
      ensures Mirrors() && cells == old(cells)[dst := old(cells)[src]]
      ensures lengths == old(lengths)[dst := old(lengths)[src]]
    {
      CopyChars(dst, 0, src, 0, MAX_LINE_LEN);
      assert Spliced(old(cells)[dst], 0, old(cells)[src][0..MAX_LINE_LEN]) == old(cells)[src];
      SetLength(dst, lens[src]);
    }

    /** Takes over line count and cursor of the view the rows show by now. */
    method Become(ghost v: View, t: nat, r: nat, c: nat)
      requires Mirrors() && Shows(cells, lengths, v) && |v.text| == t && v.row == r && v.col == c
      modifies `total, `row, `col, `text
      ensures Valid() && Now() == v
    {
      total, row, col, text := t, r, c, v.text;
    }

    // ----- typing -----

    /** Moves the characters from the cursor on up by one place. */
    method OpenGap(n: nat)
      requires Mirrors() && row < MAX_LINES && col <= n && n + 1 < MAX_LINE_LEN
      modifies chars, `cells
      ensures Mirrors() && cells == old(cells)[row := Opened(old(cells)[row], col, n + 1)]
    {
      ghost var r := cells[row];
      OpenedNone(r, n + 1);
      for i := n + 1 downto col
        invariant Mirrors() && cells == old(cells)[row := Opened(r, i, n + 1)]
      {
        OpenedStep(r, i, n + 1);
        Put(row, i + 1, chars[row, i]);
      }
    }

    /** Types a character. */
    method InsertChar(c: char)
      requires Valid() && c != '\n' && c != '\r'
      modifies this, chars, lens
      ensures Valid() && Now() == Typed(old(Now()), c)
    {
      if lens[row] >= MAX_LINE_LEN - 1 {
        return;
      }
      ShowsRow(cells, lengths, Now(), row);
      ShowsTyped(cells, lengths, Now(), c);
      var n := lens[row];
      OpenGap(n);
      Put(row, col, c);
      SetLength(row, n + 1);
      text := Typed(Now(), c).text;
      col := col + 1;
    }

    // ----- breaking a line -----

    /** Moves the rows behind the cursor's on by one place. */
    method OpenRow()
      requires Mirrors() && row < total < MAX_LINES
      modifies chars, lens, `cells, `lengths
      ensures Mirrors()
      ensures cells == Opened(old(cells), row + 1, total)
      ensures lengths == Opened(old(lengths), row + 1, total)
    {
      OpenedNone(cells, total);
      OpenedNone(lengths, total);
      for i := total downto row + 1
        invariant Mirrors()
        invariant cells == Opened(old(cells), i, total) && lengths == Opened(old(lengths), i, total)
      {
        ghost var c, l := cells, lengths;
        CopyRow(i + 1, i);
        assert cells == c[i + 1 := c[i]] && lengths == l[i + 1 := l[i]];
        OpenedStep(old(cells), i, total);
        OpenedStep(old(lengths), i, total);
      }
    }

    /** Puts the part of the cursor's line behind the cursor into the next row. */
    method SplitRow(n: nat)
      requires Mirrors() && row + 1 < MAX_LINES && col <= n < MAX_LINE_LEN
      modifies chars, lens, `cells, `lengths
      ensures Mirrors()
      ensures cells == SplitCells(old(cells), row, col, n)
      ensures lengths == old(lengths)[row := col][row + 1 := n - col]
    {
      var tail := n - col;
      CopyChars(row + 1, 0, row, col, tail);
      Put(row + 1, tail, '\0');
      SetLength(row + 1, tail);
      Put(row, col, '\0');
      SetLength(row, col);
    }

    method BreakRows(n: nat)
      requires Mirrors() && row < total < MAX_LINES && col <= n < MAX_LINE_LEN
      modifies chars, lens, `cells, `lengths
      ensures Mirrors()
      ensures cells == SplitCells(Opened(old(cells), row + 1, total), row, col, n)
      ensures lengths == Opened(old(lengths), row + 1, total)[row := col][row + 1 := n - col]
    {
      OpenRow();
      SplitRow(n);
    }

    /** Makes the rows those of a view, if that is what breaking the line comes to. */
    method BreakInto(n: nat, ghost v: View)
      requires Mirrors() && row < total < MAX_LINES && col <= n < MAX_LINE_LEN
      requires Shows(SplitCells(Opened(cells, row + 1, total), row, col, n),
                     Opened(lengths, row + 1, total)[row := col][row + 1 := n - col], v)
      modifies chars, lens, `cells, `lengths
      ensures Mirrors() && Shows(cells, lengths, v)
    {
      BreakRows(n);
    }

    /** Breaks the line at the cursor. */
    method InsertNewline()
      requires Valid()
      modifies this, chars, lens
      ensures Valid() && Now() == Broken(old(Now()))
    {
      if total >= MAX_LINES {
        return;
      }
      ShowsRow(cells, lengths, Now(), row);
      ghost var v := Broken(Now());
      ShowsBroken(cells, lengths, Now());
      BreakInto(lens[row], v);
      Become(v, total + 1, row + 1, 0);
    }

    // ----- deleting -----

    /** Moves the characters from the cursor on down by one place. */
    method CloseGap(n: nat)
      requires Mirrors() && row < MAX_LINES && 0 < col <= n < MAX_LINE_LEN
      modifies chars, `cells
      ensures Mirrors() && cells == old(cells)[row := Closed(old(cells)[row], col - 1, n)]
    {
      ghost var r := cells[row];
      ClosedNone(r, col - 1);
      for i := col - 1 to n
        invariant Mirrors() && cells == old(cells)[row := Closed(r, col - 1, i)]
      {
        ClosedStep(r, col - 1, i);
        Put(row, i, chars[row, i + 1]);
      }
    }

    method DeleteInLine()
      requires Valid() && col > 0
      modifies this, chars, lens
      ensures Valid() && Now() == Erased(old(Now()))
    {
      ShowsRow(cells, lengths, Now(), row);
      ShowsErased(cells, lengths, Now());
      var n := lens[row];
      CloseGap(n);
      SetLength(row, n - 1);
      text := Erased(Now()).text;
      col := col - 1;
    }

    /** Moves the rows behind the cursor's back by one place. */
    method CloseRow()
      requires Mirrors() && row < total <= MAX_LINES
      modifies chars, lens, `cells, `lengths
      ensures Mirrors()
      ensures cells == Closed(old(cells), row, total - 1)
      ensures lengths == Closed(old(lengths), row, total - 1)
    {
      ClosedNone(cells, row);
      ClosedNone(lengths, row);
      for i := row to total - 1
        invariant Mirrors()
        invariant cells == Closed(old(cells), row, i) && lengths == Closed(old(lengths), row, i)
      {
        ClosedStep(old(cells), row, i);
        ClosedStep(old(lengths), row, i);
        CopyRow(i, i + 1);
      }
    }

    /** Appends the cursor's row to the one before and closes up behind it. */
    method MergeRows(m: nat, n: nat)
      requires Mirrors() && 0 < row < total <= MAX_LINES && m + n < MAX_LINE_LEN
      modifies chars, lens, `cells, `lengths
      ensures Mirrors()
      ensures var r := Spliced(old(cells)[row - 1], m, old(cells)[row][0..n + 1]);
              cells == Closed(old(cells)[row - 1 := r], row, total - 1)
      ensures lengths == Closed(old(lengths)[row - 1 := m + n], row, total - 1)
    {
      CopyChars(row - 1, m, row, 0, n + 1);
      SetLength(row - 1, m + n);
      CloseRow();
    }

    /** Makes the rows those of a view, if that is what joining the lines comes to. */
    method MergeInto(m: nat, n: nat, ghost v: View)
      requires Mirrors() && 0 < row < total <= MAX_LINES && m + n < MAX_LINE_LEN
      requires var r := Spliced(cells[row - 1], m, cells[row][0..n + 1]);
               Shows(Closed(cells[row - 1 := r], row, total - 1),
                     Closed(lengths[row - 1 := m + n], row, total - 1), v)
      modifies chars, lens, `cells, `lengths
      ensures Mirrors() && Shows(cells, lengths, v)
    {
      MergeRows(m, n);
    }

    method JoinLines()
      requires Valid() && col == 0 && row > 0
      requires lens[row - 1] + lens[row] < MAX_LINE_LEN
      modifies this, chars, lens
      ensures Valid() && Now() == Erased(old(Now()))
    {
      ghost var v := Erased(Now());
      ShowsJoined(cells, lengths, Now());
      var before := lens[row - 1];
      MergeInto(before, lens[row], v);
      Become(v, total - 1, row - 1, before);
    }

    /** Deletes backwards. */
    method DeleteChar()
      requires Valid()
      modifies this, chars, lens
      ensures Valid() && Now() == Erased(old(Now()))
    {
      if col > 0 {
        DeleteInLine();
      } else if row > 0 {
        ShowsRow(cells, lengths, Now(), row - 1);
        ShowsRow(cells, lengths, Now(), row);
        if lens[row - 1] + lens[row] < MAX_LINE_LEN {
          JoinLines();
        }
      }
    }

    // ----- keys -----

    method MoveTo(r: nat, c: nat)
      requires Valid() && r < total && c <= |text[r]|
      modifies `row, `col
      ensures Valid() && Now() == EditorText.View(old(text), r, c)
    {
      row, col := r, c;
    }

    /** Handles one key. */
    method HandleKey(k: Key)
      requires Valid()
      modifies this, chars, lens
      ensures Valid() && Now() == Press(old(Now()), k)
    {
      assert RowHolds(cells[row], lengths[row], text[row]);
      match k
      case KeyUp =>
        if row > 0 {
          assert RowHolds(cells[row - 1], lengths[row - 1], text[row - 1]);
          MoveTo(row - 1, if col > lens[row - 1] then lens[row - 1] else col);
        }
      case KeyDown =>
        if row < total - 1 {
          assert RowHolds(cells[row + 1], lengths[row + 1], text[row + 1]);
          MoveTo(row + 1, if col > lens[row + 1] then lens[row + 1] else col);
        }
      case KeyLeft =>
        if col > 0 {
          MoveTo(row, col - 1);
        } else if row > 0 {
          assert RowHolds(cells[row - 1], lengths[row - 1], text[row - 1]);
          MoveTo(row - 1, lens[row - 1]);
        }
      case KeyRight =>
        if col < lens[row] {
          MoveTo(row, col + 1);
        } else if row < total - 1 {
          MoveTo(row + 1, 0);
        }
      case KeyBackspace => DeleteChar();
      case KeyEnter => InsertNewline();
      case KeyChar(c) =>
        if ' ' <= c <= '~' {
          InsertChar(c);
        }
    }

    /** Handles a run of keys. */
    method HandleKeys(keys: seq<Key>)
      requires Valid()
      modifies this, chars, lens
      ensures Valid() && Now() == PressAll(old(Now()), keys)
    {
      for i := 0 to |keys|
        invariant Valid() && PressAll(old(Now()), keys) == PressAll(Now(), keys[i..])
      {
        HandleKey(keys[i]);
        assert keys[i..][1..] == keys[i + 1..];
      }
    }

    // ----- files -----

    /** Empties every row. */
    method Reset()
      requires Mirrors()
      modifies this, chars, lens
      ensures Valid() && Now() == EditorText.View([""], 0, 0)
    {
      for i := 0 to MAX_LINES
        invariant Mirrors()
        invariant i > 0 ==> RowHolds(cells[0], lengths[0], "")
      {
        Put(i, 0, '\0');
        SetLength(i, 0);
      }
      Become(EditorText.View([""], 0, 0), 1, 0, 0);
    }

    /** Takes one character of a file into row `r`, column `c`. */
    method Feed(ch: char, r: nat, c: nat, ghost lines: seq<string>) returns (r': nat, c': nat)
      requires Mirrors() && Partial(cells, lengths, lines)
      requires r == |lines| - 1 && c == |lines[r]| && |Fed(lines, ch)| <= MAX_LINES
      modifies chars, lens, `cells, `lengths
      ensures Mirrors() && Partial(cells, lengths, Fed(lines, ch))
      ensures r' == |Fed(lines, ch)| - 1 && c' == |Fed(lines, ch)[r']|
    {
      r', c' := r, c;
      if ch == '\r' {
      } else if ch == '\n' {
        PartialFeed(cells, lengths, lines);
        Put(r, c, '\0');
        SetLength(r, c);
        r', c' := r + 1, 0;
      } else if c < MAX_LINE_LEN - 1 {
        PartialChar(cells, lengths, lines, ch);
        Put(r, c, ch);
        c' := c + 1;
      }
    }

    /** The lines of a file into the rows. */
    method Parse(raw: string) returns (r: nat, c: nat)
      requires Valid() && text == [""] && LineFeeds(raw) < MAX_LINES
      modifies chars, lens, `cells, `lengths
      ensures Mirrors() && Partial(cells, lengths, Loaded(raw))
      ensures r == |Loaded(raw)| - 1 && c == |Loaded(raw)[r]|
    {
      r, c := 0, 0;
      for i := 0 to |raw|
        invariant Mirrors() && Partial(cells, lengths, Loaded(raw[..i]))
        invariant r == |Loaded(raw[..i])| - 1 && c == |Loaded(raw[..i])[r]|
      {
        LoadedWithin(raw, i + 1);
        assert raw[..i + 1][..i] == raw[..i];
        r, c := Feed(raw[i], r, c, Loaded(raw[..i]));
      }
      assert raw[..|raw|] == raw;
    }

    /** Loads a file; one that is too large or has too many lines is refused and nothing
        changes. */
    method Load(raw: string) returns (ok: bool)
      requires Valid()
      modifies this, chars, lens
      ensures ok <==> |raw| <= MAX_FILE_SIZE && LineFeeds(raw) < MAX_LINES
      ensures Valid() && Now() == if ok then EditorText.View(Loaded(raw), 0, 0) else old(Now())
    {
      if |raw| > MAX_FILE_SIZE {
        return false;
      }
      var required := CountLines(raw);
      if required > MAX_LINES {
        return false;
      }
      Reset();
      var r, c := Parse(raw);
      Finish(Loaded(raw), r, c, raw);
      ok := true;
    }

    method Finish(ghost lines: seq<string>, r: nat, c: nat, ghost raw: string)
      requires Mirrors() && Partial(cells, lengths, lines) && lines == Loaded(raw)
      requires LineFeeds(raw) < MAX_LINES && r == |lines| - 1 && c == |lines[r]|
      modifies this, chars, lens
      ensures Valid() && Now() == EditorText.View(lines, 0, 0)
    {
      PartialDone(cells, lengths, lines);
      Put(r, c, '\0');
      SetLength(r, c);
      LoadThenSave(raw);
      Become(EditorText.View(lines, 0, 0), r + 1, 0, 0);
    }

    /** The text as it is written to a file, if it is not too long. */
    method Save() returns (out: Option<string>)
      requires Valid()
      ensures out == if |Flat(text)| <= MAX_FILE_SIZE then Some(Flat(text)) else None
    {
      var buf := "";
      for i := 0 to total
        invariant buf == (if i < total then Lead(text[..i]) else Flat(text)) && |buf| <= MAX_FILE_SIZE
      {
        ShowsRow(cells, lengths, Now(), i);
        FlatRow(text, i);
        var ok;
        ok, buf := SaveLine(i, buf);
        if !ok {
          return None;
        }
        if i < total - 1 {
          if |buf| >= MAX_FILE_SIZE {
            return None;
          }
          buf := buf + "\n";
        }
      }
      out := Some(buf);
    }

    method SaveLine(i: nat, buf: string) returns (ok: bool, longer: string)
      requires Mirrors() && i < |text| && i < MAX_LINES && RowHolds(cells[i], lengths[i], text[i])
      requires |buf| <= MAX_FILE_SIZE
      ensures ok <==> |buf| + |text[i]| <= MAX_FILE_SIZE
      ensures ok ==> longer == buf + text[i]
    {
      longer := buf;
      for j := 0 to lens[i]
        invariant longer == buf + text[i][..j] && |longer| <= MAX_FILE_SIZE
      {
        if |longer| >= MAX_FILE_SIZE {
          return false, longer;
        }
        assert cells[i][..lengths[i]][j] == chars[i, j];
        longer := longer + [chars[i, j]];
      }
      assert text[i][..lens[i]] == text[i];
      ok := true;
    }
  }

  /** One more than the line feeds of a file. */
  method CountLines(raw: string) returns (n: nat)
    ensures n == 1 + LineFeeds(raw)
  {
    n := 1;
    for i := 0 to |raw|
      invariant n == 1 + LineFeeds(raw[..i])
    {
      assert raw[..i + 1][..i] == raw[..i];
      if raw[i] == '\n' {
        n := n + 1;
      }
    }
    assert raw[..|raw|] == raw;
  }

  lemma {:induction false} LineFeedsRise(raw: string, i: nat)
    requires i <= |raw|
    ensures LineFeeds(raw[..i]) <= LineFeeds(raw)
    decreases |raw|
  {
    if i < |raw| {
      LineFeedsRise(raw[..|raw| - 1], i);
      assert raw[..|raw| - 1][..i] == raw[..i];
    } else {
      assert raw[..i] == raw;
    }
  }

  lemma {:induction false} LoadedWithin(raw: string, i: nat)
    requires i <= |raw| && LineFeeds(raw) < MAX_LINES
    ensures |Loaded(raw[..i])| <= MAX_LINES
  {
    LineFeedsRise(raw, i);
    LoadedCount(raw[..i]);
  }

  lemma {:induction false} FlatRow(text: seq<string>, i: nat)
    requires i < |text|
    ensures i + 1 < |text| ==> Lead(text[..i + 1]) == Lead(text[..i]) + text[i] + "\n"
    ensures i + 1 == |text| ==> Flat(text) == Lead(text[..i]) + text[i]
    ensures |Lead(text[..i])| + |text[i]| <= |Flat(text)|
    ensures i + 1 < |text| ==> |Lead(text[..i])| + |text[i]| < |Flat(text)|
  {
    assert text[..i + 1][..i] == text[..i];
    FlatLength(text, i);
    StartIsLead(text, i);
  }
}
