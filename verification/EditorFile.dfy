/** Files and the editor's lines: what loading keeps, and what saving writes. */
module EditorFile {
  import opened EditorText

  const MAX_FILE_SIZE: nat := 65536

  // ----- what a file stands for -----

  /** The lines of a string; a line feed at the end starts an empty line. */
  function Split(s: string): (lines: seq<string>)
    ensures lines != []
  {
    if s == "" then [""]
    else
      var lines, c := Split(s[..|s| - 1]), s[|s| - 1];
      if c == '\n' then lines + [""] else Extended(lines, [c])
  }

  /** `t` added to the last line. */
  function Extended(lines: seq<string>, t: string): (r: seq<string>)
    requires lines != []
    ensures |r| == |lines|
  {
    lines[..|lines| - 1] + [lines[|lines| - 1] + t]
  }

  function NoReturns(s: string): (r: string)
  {
    if s == "" then ""
    else if s[|s| - 1] == '\r' then NoReturns(s[..|s| - 1])
    else NoReturns(s[..|s| - 1]) + [s[|s| - 1]]
  }

  /** The first 255 characters. */
  function Cut(s: string): (r: string)
  {
    if |s| < MAX_LINE_LEN then s else s[..MAX_LINE_LEN - 1]
  }

  function CutAll(lines: seq<string>): (r: seq<string>)
    ensures |r| == |lines| && forall k :: 0 <= k < |lines| ==> r[k] == Cut(lines[k])
  {
    seq(|lines|, k requires 0 <= k < |lines| => Cut(lines[k]))
  }

  function LineFeeds(s: string): (n: nat)
  {
    if s == "" then 0 else LineFeeds(s[..|s| - 1]) + if s[|s| - 1] == '\n' then 1 else 0
  }

  // ----- what the loading loop computes -----

  /** The lines after one more character: returns are dropped, and so is what a full line cannot
      take. */
  function Fed(lines: seq<string>, c: char): (r: seq<string>)
    requires lines != []
    ensures r != []
  {
    if c == '\r' then lines
    else if c == '\n' then lines + [""]
    else if |lines[|lines| - 1]| < MAX_LINE_LEN - 1 then Extended(lines, [c])
    else lines
  }

  function Loaded(raw: string): (lines: seq<string>)
    ensures lines != []
  {
    if raw == "" then [""] else Fed(Loaded(raw[..|raw| - 1]), raw[|raw| - 1])
  }

  lemma {:induction false} CutExtended(lines: seq<string>, c: char)
    requires lines != [] && c != '\n' && c != '\r'
    ensures CutAll(Extended(lines, [c])) == Fed(CutAll(lines), c)
  {
    var n := |lines| - 1;
    var s := lines[n];
    assert Cut(s + [c]) == if |Cut(s)| < MAX_LINE_LEN - 1 then Cut(s) + [c] else Cut(s);
    assert CutAll(lines)[n] == Cut(s);
    assert CutAll(lines) == CutAll(lines)[..n] + [Cut(s)];
  }

  /** Loading drops the returns, splits at line feeds and cuts every line to 255 characters. */
  lemma {:induction false} LoadedIs(raw: string)
    ensures Loaded(raw) == CutAll(Split(NoReturns(raw)))
  {
    if raw == "" {
      assert CutAll([""]) == [""];
    } else {
      var front, c := raw[..|raw| - 1], raw[|raw| - 1];
      LoadedIs(front);
      if c != '\r' {
        var s, t := NoReturns(front), NoReturns(raw);
        assert t[..|t| - 1] == s && t[|t| - 1] == c;
        if c == '\n' {
          assert CutAll(Split(s) + [""]) == CutAll(Split(s)) + [""];
        } else {
          CutExtended(Split(s), c);
        }
      }
    }
  }

  lemma {:induction false} FedCounts(lines: seq<string>, c: char)
    requires lines != []
    ensures |Fed(lines, c)| == |lines| + if c == '\n' then 1 else 0
  {
  }

  /** The count made before loading is the number of lines. */
  lemma {:induction false} LoadedCount(raw: string)
    ensures |Loaded(raw)| == 1 + LineFeeds(raw)
  {
    if raw != "" {
      LoadedCount(raw[..|raw| - 1]);
      FedCounts(Loaded(raw[..|raw| - 1]), raw[|raw| - 1]);
    }
  }

  lemma {:induction false} FedFine(lines: seq<string>, c: char)
    requires lines != [] && forall k :: 0 <= k < |lines| ==> LineFine(lines[k])
    ensures forall k :: 0 <= k < |Fed(lines, c)| ==> LineFine(Fed(lines, c)[k])
  {
    assert LineFine(lines[|lines| - 1]);
  }

  lemma {:induction false} LoadedLinesFine(raw: string)
    ensures forall k :: 0 <= k < |Loaded(raw)| ==> LineFine(Loaded(raw)[k])
  {
    if raw != "" {
      LoadedLinesFine(raw[..|raw| - 1]);
      FedFine(Loaded(raw[..|raw| - 1]), raw[|raw| - 1]);
    }
  }

  // ----- saving and loading -----

  predicate OneLine(s: string)
  {
    forall j :: 0 <= j < |s| ==> s[j] != '\n'
  }

  lemma {:induction false} ExtendedMore(lines: seq<string>, t: string, c: char)
    requires lines != []
    ensures Extended(Extended(lines, t), [c]) == Extended(lines, t + [c])
  {
    assert lines[|lines| - 1] + t + [c] == lines[|lines| - 1] + (t + [c]);
  }

  lemma {:induction false} ExtendedNone(lines: seq<string>)
    requires lines != []
    ensures Extended(lines, "") == lines
  {
    assert lines[|lines| - 1] + "" == lines[|lines| - 1];
  }

  lemma {:induction false} ExtendedNew(a: seq<string>, s: string)
    ensures Extended(a + [""], s) == a + [s]
  {
    assert "" + s == s;
  }

  lemma {:induction false} SplitMore(s: string, c: char)
    ensures Split(s + [c]) == if c == '\n' then Split(s) + [""] else Extended(Split(s), [c])
  {
    assert (s + [c])[..|s|] == s;
  }

  lemma {:induction false} SplitLine(s: string, t: string)
    requires OneLine(t)
    ensures Split(s + t) == Extended(Split(s), t)
    decreases |t|
  {
    if t == "" {
      assert s + t == s;
      ExtendedNone(Split(s));
    } else {
      var front, c := t[..|t| - 1], t[|t| - 1];
      assert t == front + [c] && s + t == s + front + [c];
      SplitLine(s, front);
      SplitMore(s + front, c);
      ExtendedMore(Split(s), front, c);
    }
  }

  lemma {:induction false} SplitLead(a: seq<string>)
    requires forall k :: 0 <= k < |a| ==> OneLine(a[k])
    ensures Split(Lead(a)) == a + [""]
    decreases |a|
  {
    if a != [] {
      var front, s := a[..|a| - 1], a[|a| - 1];
      SplitLead(front);
      SplitLine(Lead(front), s);
      ExtendedNew(front, s);
      assert front + [s] == a;
      SplitMore(Lead(front) + s, '\n');
    }
  }

  /** Lines without line feeds come back from the flat text. */
  lemma {:induction false} SplitFlat(text: seq<string>)
    requires text != [] && forall k :: 0 <= k < |text| ==> OneLine(text[k])
    ensures Split(Flat(text)) == text
  {
    var front, s := text[..|text| - 1], text[|text| - 1];
    SplitLead(front);
    SplitLine(Lead(front), s);
    ExtendedNew(front, s);
    assert front + [s] == text;
  }

  lemma {:induction false} FlatFeed(lines: seq<string>)
    requires lines != []
    ensures Flat(lines + [""]) == Flat(lines) + "\n"
  {
    FlatMore(lines, "");
  }

  lemma {:induction false} FlatExtended(lines: seq<string>, t: string)
    requires lines != []
    ensures Flat(Extended(lines, t)) == Flat(lines) + t
  {
    var head, last := lines[..|lines| - 1], lines[|lines| - 1];
    FlatMore(head, last + t);
    assert Lead(head) + (last + t) == Lead(head) + last + t;
  }

  /** And every string is the flat text of its lines. */
  lemma {:induction false} FlatSplits(s: string)
    ensures Flat(Split(s)) == s
  {
    if s != "" {
      var front, c := s[..|s| - 1], s[|s| - 1];
      assert s == front + [c];
      FlatSplits(front);
      FlatFeed(Split(front));
      FlatExtended(Split(front), [c]);
    }
  }

  predicate NoReturn(s: string)
  {
    forall j :: 0 <= j < |s| ==> s[j] != '\r'
  }

  lemma {:induction false} KeepsAll(s: string)
    requires NoReturn(s)
    ensures NoReturns(s) == s
  {
    if s != "" {
      KeepsAll(s[..|s| - 1]);
    }
  }

  lemma {:induction false} LeadNoReturn(a: seq<string>)
    requires forall k :: 0 <= k < |a| ==> NoReturn(a[k])
    ensures NoReturn(Lead(a))
  {
    if a != [] {
      LeadNoReturn(a[..|a| - 1]);
      assert NoReturn(a[|a| - 1]);
    }
  }

  /** Loading what saving wrote restores the lines. */
  lemma {:induction false} SaveThenLoad(text: seq<string>)
    requires TextFine(text)
    ensures Loaded(Flat(text)) == text
  {
    forall k | 0 <= k < |text| ensures OneLine(text[k]) && NoReturn(text[k]) && Cut(text[k]) == text[k] {
      assert LineFine(text[k]);
    }
    var front, s := text[..|text| - 1], text[|text| - 1];
    LeadNoReturn(front);
    assert NoReturn(s);
    LoadedIs(Flat(text));
    KeepsAll(Flat(text));
    SplitFlat(text);
  }

  /** Saving what was loaded writes the file without its returns and with every line cut; doing
      so again changes nothing. */
  lemma {:induction false} LoadThenSave(raw: string)
    requires LineFeeds(raw) < MAX_LINES
    ensures Flat(Loaded(raw)) == Flat(CutAll(Split(NoReturns(raw))))
    ensures TextFine(Loaded(raw)) && Loaded(Flat(Loaded(raw))) == Loaded(raw)
  {
    LoadedIs(raw);
    LoadedCount(raw);
    LoadedLinesFine(raw);
    SaveThenLoad(Loaded(raw));
  }

  /** A file without returns and without long lines is saved as it was loaded. */
  lemma {:induction false} UntouchedFile(raw: string)
    requires NoReturn(raw) && forall k :: 0 <= k < |Split(raw)| ==> |Split(raw)[k]| < MAX_LINE_LEN
    ensures Flat(Loaded(raw)) == raw
  {
    LoadedIs(raw);
    KeepsAll(raw);
    assert CutAll(Split(raw)) == Split(raw);
    FlatSplits(raw);
  }

  // ----- what reaches the file -----

  predicate NulFree(s: string)
  {
    forall j :: 0 <= j < |s| ==> s[j] != '\0'
  }

  /** The file is written up to the first NUL. */
  function Written(s: string): (r: string)
  {
    if s == "" || s[0] == '\0' then "" else [s[0]] + Written(s[1..])
  }

  lemma {:induction false} WrittenAll(s: string)
    ensures NulFree(Written(s))
    ensures NulFree(s) ==> Written(s) == s
  {
    if s != "" && s[0] != '\0' {
      WrittenAll(s[1..]);
      assert NulFree(s) ==> NulFree(s[1..]);
      assert s == [s[0]] + s[1..];
    }
  }

  lemma {:induction false} FedNulFree(lines: seq<string>, c: char)
    requires lines != [] && c != '\0' && forall k :: 0 <= k < |lines| ==> NulFree(lines[k])
    ensures forall k :: 0 <= k < |Fed(lines, c)| ==> NulFree(Fed(lines, c)[k])
  {
    assert NulFree(lines[|lines| - 1]);
  }

  lemma {:induction false} LoadedNulFree(raw: string)
    requires NulFree(raw)
    ensures forall k :: 0 <= k < |Loaded(raw)| ==> NulFree(Loaded(raw)[k])
  {
    if raw != "" {
      LoadedNulFree(raw[..|raw| - 1]);
      FedNulFree(Loaded(raw[..|raw| - 1]), raw[|raw| - 1]);
    }
  }

  lemma {:induction false} LeadNulFree(a: seq<string>)
    requires forall k :: 0 <= k < |a| ==> NulFree(a[k])
    ensures NulFree(Lead(a))
  {
    if a != [] {
      LeadNulFree(a[..|a| - 1]);
      assert NulFree(a[|a| - 1]);
    }
  }

  lemma {:induction false} FlatNulFree(text: seq<string>)
    requires text != [] && forall k :: 0 <= k < |text| ==> NulFree(text[k])
    ensures NulFree(Flat(text))
  {
    LeadNulFree(text[..|text| - 1]);
    assert NulFree(text[|text| - 1]);
  }

  /** Saving to a file and loading it restores the lines exactly if they hold no NUL. */
  lemma {:induction false} RestoredIff(text: seq<string>)
    requires TextFine(text)
    ensures Loaded(Written(Flat(text))) == text <==> NulFree(Flat(text))
  {
    WrittenAll(Flat(text));
    if NulFree(Flat(text)) {
      SaveThenLoad(text);
    }
    if Loaded(Written(Flat(text))) == text {
      LoadedNulFree(Written(Flat(text)));
      FlatNulFree(text);
    }
  }
}
