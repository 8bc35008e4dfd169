/** Saving in one editor and opening the file in another. */
module EditorDisk {
  import opened Basics
  import opened EditorText
  import opened EditorFile
  import opened Editor

  lemma {:induction false} FedLength(lines: seq<string>, c: char)
    requires lines != []
    ensures |Flat(Fed(lines, c))| <= |Flat(lines)| + 1
  {
    FlatFeed(lines);
    FlatExtended(lines, [c]);
  }

  /** Loading never makes a text longer. */
  lemma {:induction false} LoadedLength(raw: string)
    ensures |Flat(Loaded(raw))| <= |raw|
  {
    if raw != "" {
      LoadedLength(raw[..|raw| - 1]);
      FedLength(Loaded(raw[..|raw| - 1]), raw[|raw| - 1]);
    }
  }

  lemma {:induction false} WrittenPrefix(s: string)
    ensures |Written(s)| <= |s| && Written(s) == s[..|Written(s)|]
  {
    if s != "" && s[0] != '\0' {
      WrittenPrefix(s[1..]);
    }
  }

  /** What was saved is not refused when it is opened. */
  lemma {:induction false} SavedIsLoadable(text: seq<string>)
    requires TextFine(text) && |Flat(text)| <= MAX_FILE_SIZE
    ensures |Written(Flat(text))| <= MAX_FILE_SIZE && LineFeeds(Written(Flat(text))) < MAX_LINES
  {
    SaveThenLoad(text);
    LoadedCount(Flat(text));
    WrittenPrefix(Flat(text));
    LineFeedsRise(Flat(text), |Written(Flat(text))|);
  }

  /** A text that is too long is in no file that can be opened. */
  lemma {:induction false} TooLongForAny(text: seq<string>, raw: string)
    requires |Flat(text)| > MAX_FILE_SIZE >= |raw|
    ensures Loaded(raw) != text
  {
    LoadedLength(raw);
  }

  // ----- texts that are not restored -----

  /** A file of one NUL is loaded as it is, and lost when it is saved. */
  lemma {:induction false} NulIsLost()
    ensures var text := Loaded("\0");
            && text == ["\0"] && TextFine(text) && |Flat(text)| <= MAX_FILE_SIZE
            && Loaded(Written(Flat(text))) != text
  {
    var raw := "\0";
    assert raw[..0] == "" && Loaded("") == [""];
    assert Loaded(raw) == Fed([""], '\0') == Extended([""], "\0");
    assert [""][..0] == [] && "" + "\0" == "\0";
    assert Loaded(raw) == ["\0"];
    assert Flat(["\0"]) == Lead([]) + "\0" == "\0";
  }

  /** So many full lines of one character. */
  function Lines(c: char, n: nat): (text: seq<string>)
    ensures |text| == n && forall k :: 0 <= k < n ==> text[k] == Full(c)
  {
    if n == 0 then [] else Lines(c, n - 1) + [Full(c)]
  }

  function Full(c: char): (line: string)
    ensures |line| == MAX_LINE_LEN - 1 && forall j :: 0 <= j < |line| ==> line[j] == c
  {
    seq(MAX_LINE_LEN - 1, _ => c)
  }

  lemma {:induction false} LinesLength(c: char, n: nat)
    ensures |Lead(Lines(c, n))| == MAX_LINE_LEN * n
  {
    if n > 0 {
      LinesLength(c, n - 1);
      LeadMore(Lines(c, n - 1), Full(c));
    }
  }

  /** 257 full lines of a printable character can be typed and hold no NUL, but are in no file. */
  lemma {:induction false} LongIsLost(c: char, raw: string)
    requires ' ' <= c <= '~' && |raw| <= MAX_FILE_SIZE
    ensures var text := Lines(c, 257);
            TextFine(text) && NulFree(Flat(text)) && |Flat(text)| > MAX_FILE_SIZE && Loaded(raw) != text
  {
    var text := Lines(c, 257);
    LinesLength(c, 256);
    FlatMore(Lines(c, 256), Full(c));
    FlatNulFree(text);
    TooLongForAny(text, raw);
  }

  /** Saves the lines over the file `disk` and opens that file in another editor: a text that is
      too long is not saved, and the file stays as it is.  The lines are restored exactly if they
      are not too long and hold no NUL. */
  method SaveAndOpen(from: Buffer, to: Buffer, disk: string)
      returns (saved: bool, file: string, loaded: bool)
    requires from.Valid() && to.Valid()
    requires from != to && from.chars != to.chars && from.lens != to.lens
    modifies to, to.chars, to.lens
    ensures from.Valid() && from.Now() == old(from.Now()) && to.Valid()
    ensures saved <==> |Flat(from.text)| <= MAX_FILE_SIZE
    ensures file == if saved then Written(Flat(from.text)) else disk
    ensures saved ==> loaded
    ensures loaded ==> to.Now() == View(Loaded(file), 0, 0)
    ensures loaded && to.text == from.text
            <==> |Flat(from.text)| <= MAX_FILE_SIZE && NulFree(Flat(from.text))
  {
    var out := from.Save();
    saved, file := out.Some?, disk;
    RestoredIff(from.text);
    if saved {
      SavedIsLoadable(from.text);
      file := Written(out.value);
    } else if |disk| <= MAX_FILE_SIZE {
      TooLongForAny(from.text, disk);
    }
    loaded := to.Load(file);
  }
}
