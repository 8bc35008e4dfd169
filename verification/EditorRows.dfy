/** The fixed arrays behind the editor's lines. */
module EditorRows {
  import opened EditorText
  import opened EditorFile

  /** A row of the buffer holds line `s` of length `n`, terminated. */
  predicate RowHolds(r: seq<char>, n: nat, s: string)
  {
    |r| == MAX_LINE_LEN && n == |s| < MAX_LINE_LEN && r[..n] == s && r[n] == '\0'
  }

  predicate Holds(cells: seq<seq<char>>, lengths: seq<nat>, text: seq<string>)
  {
    && |text| <= |cells| && |text| <= |lengths|
    && forall k :: 0 <= k < |text| ==> RowHolds(cells[k], lengths[k], text[k])
  }

  /** `r` with elements `k..n` moved up by one place. */
  function Opened<T>(r: seq<T>, k: nat, n: nat): (s: seq<T>)
    requires k <= n < |r|
    ensures |s| == |r|
  {
    r[..k + 1] + r[k..n] + r[n + 1..]
  }

  lemma {:induction false} OpenedStep<T>(r: seq<T>, k: nat, n: nat)
    requires k < n < |r|
    ensures Opened(r, k + 1, n)[k] == r[k]
    ensures Opened(r, k + 1, n)[k + 1 := r[k]] == Opened(r, k, n)
  {
  }

  lemma {:induction false} OpenedNone<T>(r: seq<T>, n: nat)
    requires n < |r|
    ensures Opened(r, n, n) == r
  {
  }

  /** `r` with element `c` gone and those up to `k` moved down by one place. */
  function Closed<T>(r: seq<T>, c: nat, k: nat): (s: seq<T>)
    requires c <= k < |r|
    ensures |s| == |r|
  {
    r[..c] + r[c + 1..k + 1] + r[k..]
  }

  lemma {:induction false} ClosedStep<T>(r: seq<T>, c: nat, k: nat)
    requires c <= k && k + 1 < |r|
    ensures Closed(r, c, k)[k + 1] == r[k + 1]
    ensures Closed(r, c, k)[k := r[k + 1]] == Closed(r, c, k + 1)
  {
  }

  lemma {:induction false} ClosedNone<T>(r: seq<T>, c: nat)
    requires c < |r|
    ensures Closed(r, c, c) == r
  {
  }

  /** `s` stored over `r` from index `at`. */
  function Spliced<T>(r: seq<T>, at: nat, s: seq<T>): (t: seq<T>)
    requires at + |s| <= |r|
    ensures |t| == |r|
  {
    r[..at] + s + r[at + |s|..]
  }

  lemma {:induction false} SplicedMore<T>(r: seq<T>, at: nat, s: seq<T>, c: T)
    requires at + |s| < |r|
    ensures Spliced(r, at, s)[at + |s| := c] == Spliced(r, at, s + [c])
  {
  }

  // ----- what the loops do to one line -----

  lemma {:induction false} RowInserted(r: seq<char>, s: string, col: nat, c: char)
    requires RowHolds(r, |s|, s) && col <= |s| < MAX_LINE_LEN - 1
    ensures RowHolds(Opened(r, col, |s| + 1)[col := c], |s| + 1, InsertAt(s, col, c))
  {
    var t := Opened(r, col, |s| + 1)[col := c];
    assert t[..|s| + 1] == r[..|s|][..col] + [c] + r[..|s|][col..];
  }

  lemma {:induction false} RowRemoved(r: seq<char>, s: string, col: nat)
    requires RowHolds(r, |s|, s) && 0 < col <= |s|
    ensures RowHolds(Closed(r, col - 1, |s|), |s| - 1, RemoveAt(s, col - 1))
  {
    var t := Closed(r, col - 1, |s|);
    assert t[..|s| - 1] == r[..|s|][..col - 1] + r[..|s|][col..];
    assert t[|s| - 1] == r[|s|];
  }

  lemma {:induction false} RowCut(r: seq<char>, s: string, col: nat)
    requires RowHolds(r, |s|, s) && col <= |s|
    ensures RowHolds(r[col := '\0'], col, s[..col])
  {
    assert r[col := '\0'][..col] == r[..|s|][..col];
  }

  lemma {:induction false} RowTail(r: seq<char>, s: string, col: nat, into: seq<char>)
    requires RowHolds(r, |s|, s) && col <= |s| && |into| == MAX_LINE_LEN
    ensures var n := |s| - col;
            RowHolds(Spliced(into, 0, r[col..|s|])[n := '\0'], n, s[col..])
  {
    var n := |s| - col;
    assert r[col..|s|] == r[..|s|][col..];
    assert Spliced(into, 0, r[col..|s|])[n := '\0'][..n] == r[col..|s|];
  }

  lemma {:induction false} RowJoined(r: seq<char>, s: string, q: seq<char>, t: string)
    requires RowHolds(r, |s|, s) && RowHolds(q, |t|, t) && |s| + |t| < MAX_LINE_LEN
    ensures RowHolds(Spliced(r, |s|, q[..|t| + 1]), |s| + |t|, s + t)
  {
    var u := Spliced(r, |s|, q[..|t| + 1]);
    assert q[..|t| + 1][..|t|] == t;
    assert u[..|s| + |t|] == r[..|s|] + q[..|t|];
    assert u[|s| + |t|] == q[|t|];
  }

  // ----- what they do to the list of lines -----

  lemma {:induction false} HoldsUpdate(cells: seq<seq<char>>, lengths: seq<nat>, text: seq<string>, k: nat,
                                       r: seq<char>, n: nat, s: string)
    requires Holds(cells, lengths, text) && k < |text| && RowHolds(r, n, s)
    ensures Holds(cells[k := r], lengths[k := n], text[k := s])
  {
  }

  /** The lines behind the cursor's are one place further on, and two new rows are set. */
  lemma {:induction false} HoldsBroken(cells: seq<seq<char>>, lengths: seq<nat>, text: seq<string>, row: nat,
                                       r: seq<char>, s: string, q: seq<char>, t: string)
    requires Holds(cells, lengths, text) && row < |text| < |cells| == |lengths|
    requires RowHolds(r, |s|, s) && RowHolds(q, |t|, t)
    ensures Holds(Opened(cells, row + 1, |text|)[row := r][row + 1 := q],
                  Opened(lengths, row + 1, |text|)[row := |s|][row + 1 := |t|],
                  text[..row] + [s, t] + text[row + 1..])
  {
    var more := text[..row] + [s, t] + text[row + 1..];
    forall k | 0 <= k < |more|
      ensures RowHolds(Opened(cells, row + 1, |text|)[row := r][row + 1 := q][k],
                       Opened(lengths, row + 1, |text|)[row := |s|][row + 1 := |t|][k], more[k])
    {
      if k < row {
        assert RowHolds(cells[k], lengths[k], text[k]);
      } else if k > row + 1 {
        assert RowHolds(cells[k - 1], lengths[k - 1], text[k - 1]);
      }
    }
  }

  /** The line joined to the one before is gone, and the rows behind it have moved up. */
  lemma {:induction false} HoldsJoined(cells: seq<seq<char>>, lengths: seq<nat>, text: seq<string>, row: nat,
                                       r: seq<char>, s: string)
    requires Holds(cells, lengths, text) && 0 < row < |text| && RowHolds(r, |s|, s)
    ensures Holds(Closed(cells[row - 1 := r], row, |text| - 1),
                  Closed(lengths[row - 1 := |s|], row, |text| - 1),
                  text[..row - 1] + [s] + text[row + 1..])
  {
    var less := text[..row - 1] + [s] + text[row + 1..];
    forall k | 0 <= k < |less|
      ensures RowHolds(Closed(cells[row - 1 := r], row, |text| - 1)[k],
                       Closed(lengths[row - 1 := |s|], row, |text| - 1)[k], less[k])
    {
      if k < row - 1 {
        assert RowHolds(cells[k], lengths[k], text[k]);
      } else if k >= row {
        assert RowHolds(cells[k + 1], lengths[k + 1], text[k + 1]);
      }
    }
  }

  // ----- what they do to the view -----

  /** The buffer's rows and lengths show the view. */
  predicate Shows(cells: seq<seq<char>>, lengths: seq<nat>, v: View)
  {
    Holds(cells, lengths, v.text) && Fine(v)
  }

  lemma {:induction false} ShowsRow(cells: seq<seq<char>>, lengths: seq<nat>, v: View, k: nat)
    requires Holds(cells, lengths, v.text) && k < |v.text|
    ensures RowHolds(cells[k], lengths[k], v.text[k])
  {
  }

  lemma {:induction false} ShowsTyped(cells: seq<seq<char>>, lengths: seq<nat>, v: View, c: char)
    requires Shows(cells, lengths, v) && c != '\n' && c != '\r' && lengths[v.row] < MAX_LINE_LEN - 1
    requires |cells[v.row]| == MAX_LINE_LEN && v.col <= lengths[v.row]
    ensures var n := lengths[v.row];
            Shows(cells[v.row := Opened(cells[v.row], v.col, n + 1)[v.col := c]],
                  lengths[v.row := n + 1], Typed(v, c))
  {
    var s := v.text[v.row];
    ShowsRow(cells, lengths, v, v.row);
    RowInserted(cells[v.row], s, v.col, c);
    HoldsUpdate(cells, lengths, v.text, v.row, Opened(cells[v.row], v.col, |s| + 1)[v.col := c], |s| + 1,
                InsertAt(s, v.col, c));
    TypedFine(v, c);
  }

  lemma {:induction false} ShowsErased(cells: seq<seq<char>>, lengths: seq<nat>, v: View)
    requires Shows(cells, lengths, v) && v.col > 0
    requires v.col <= lengths[v.row] < |cells[v.row]|
    ensures var n := lengths[v.row];
            Shows(cells[v.row := Closed(cells[v.row], v.col - 1, n)], lengths[v.row := n - 1], Erased(v))
  {
    var s := v.text[v.row];
    ShowsRow(cells, lengths, v, v.row);
    RowRemoved(cells[v.row], s, v.col);
    HoldsUpdate(cells, lengths, v.text, v.row, Closed(cells[v.row], v.col - 1, |s|), |s| - 1,
                RemoveAt(s, v.col - 1));
    ErasedFine(v);
  }

  /** Row `row` cut at `col`, and what was behind it in the next row. */
  function SplitCells(cells: seq<seq<char>>, row: nat, col: nat, n: nat): (r: seq<seq<char>>)
    requires row + 1 < |cells| && col <= n < MAX_LINE_LEN
    requires |cells[row]| == MAX_LINE_LEN && |cells[row + 1]| == MAX_LINE_LEN
  {
    var q := Spliced(cells[row + 1], 0, cells[row][col..n])[n - col := '\0'];
    cells[row := cells[row][col := '\0']][row + 1 := q]
  }

  lemma {:induction false} ShowsBroken(cells: seq<seq<char>>, lengths: seq<nat>, v: View)
    requires Shows(cells, lengths, v) && |v.text| < |cells| == |lengths| == MAX_LINES
    requires v.col <= lengths[v.row] < MAX_LINE_LEN
    requires forall k :: 0 <= k < |cells| ==> |cells[k]| == MAX_LINE_LEN
    ensures Shows(SplitCells(Opened(cells, v.row + 1, |v.text|), v.row, v.col, lengths[v.row]),
                  Opened(lengths, v.row + 1, |v.text|)[v.row := v.col][v.row + 1 := lengths[v.row] - v.col],
                  Broken(v))
    ensures Broken(v).row == v.row + 1 && Broken(v).col == 0 && |Broken(v).text| == |v.text| + 1
  {
    var r, s, q := cells[v.row], v.text[v.row], Opened(cells, v.row + 1, |v.text|)[v.row + 1];
    ShowsRow(cells, lengths, v, v.row);
    RowCut(r, s, v.col);
    RowTail(r, s, v.col, q);
    HoldsBroken(cells, lengths, v.text, v.row, r[v.col := '\0'], s[..v.col],
                Spliced(q, 0, r[v.col..|s|])[|s| - v.col := '\0'], s[v.col..]);
    BrokenFine(v);
  }

  lemma {:induction false} ShowsJoined(cells: seq<seq<char>>, lengths: seq<nat>, v: View)
    requires Shows(cells, lengths, v) && v.col == 0 && v.row > 0
    requires |cells[v.row - 1]| == |cells[v.row]| == MAX_LINE_LEN
    requires lengths[v.row - 1] + lengths[v.row] < MAX_LINE_LEN
    ensures var m, n := lengths[v.row - 1], lengths[v.row];
            var r := Spliced(cells[v.row - 1], m, cells[v.row][0..n + 1]);
            Shows(Closed(cells[v.row - 1 := r], v.row, |v.text| - 1),
                  Closed(lengths[v.row - 1 := m + n], v.row, |v.text| - 1), Erased(v))
    ensures Erased(v).row == v.row - 1 && Erased(v).col == lengths[v.row - 1]
    ensures |Erased(v).text| == |v.text| - 1
  {
    var s, t := v.text[v.row - 1], v.text[v.row];
    ShowsRow(cells, lengths, v, v.row - 1);
    ShowsRow(cells, lengths, v, v.row);
    RowJoined(cells[v.row - 1], s, cells[v.row], t);
    HoldsJoined(cells, lengths, v.text, v.row,
                Spliced(cells[v.row - 1], |s|, cells[v.row][..|t| + 1]), s + t);
    ErasedFine(v);
  }

  // ----- loading -----

  /** All lines but the last are finished; the last stands in its row, not yet terminated. */
  predicate Partial(cells: seq<seq<char>>, lengths: seq<nat>, lines: seq<string>)
  {
    && 0 < |lines| <= |cells| && |lines| <= |lengths|
    && (forall k :: 0 <= k < |lines| - 1 ==> RowHolds(cells[k], lengths[k], lines[k]))
    && var r, s := cells[|lines| - 1], lines[|lines| - 1];
    |r| == MAX_LINE_LEN && |s| < MAX_LINE_LEN && r[..|s|] == s
  }

  lemma {:induction false} PartialFeed(cells: seq<seq<char>>, lengths: seq<nat>, lines: seq<string>)
    requires Partial(cells, lengths, lines) && |lines| < |cells| == |lengths|
    requires forall k :: 0 <= k < |cells| ==> |cells[k]| == MAX_LINE_LEN
    ensures var r, c := |lines| - 1, |lines[|lines| - 1]|;
            Partial(cells[r := cells[r][c := '\0']], lengths[r := c], Fed(lines, '\n'))
  {
    var r, s := |lines| - 1, lines[|lines| - 1];
    assert cells[r][|s| := '\0'][..|s|] == s;
  }

  lemma {:induction false} PartialChar(cells: seq<seq<char>>, lengths: seq<nat>, lines: seq<string>, ch: char)
    requires Partial(cells, lengths, lines) && ch != '\n' && ch != '\r'
    requires |lines[|lines| - 1]| < MAX_LINE_LEN - 1
    ensures var r, c := |lines| - 1, |lines[|lines| - 1]|;
            Partial(cells[r := cells[r][c := ch]], lengths, Fed(lines, ch))
  {
    var r, s := |lines| - 1, lines[|lines| - 1];
    assert cells[r][|s| := ch][..|s| + 1] == s + [ch];
  }

  lemma {:induction false} PartialDone(cells: seq<seq<char>>, lengths: seq<nat>, lines: seq<string>)
    requires Partial(cells, lengths, lines)
    ensures var r, c := |lines| - 1, |lines[|lines| - 1]|;
            Holds(cells[r := cells[r][c := '\0']], lengths[r := c], lines)
  {
    var r, s := |lines| - 1, lines[|lines| - 1];
    assert cells[r][|s| := '\0'][..|s|] == s;
  }
}
