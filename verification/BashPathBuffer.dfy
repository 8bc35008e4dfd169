/** Working a path off in a character buffer. */
module BashPathBuffer {
  import opened Basics
  import opened BashPath

  /** The buffer holds the path of the stack, terminated. */
  ghost predicate Showing(output: seq<char>, length: nat, stack: seq<string>)
  {
    length < |output| && output[..length] == Render(stack) && output[length] == '\0'
  }

  predicate NoSlash(s: string)
  {
    forall k :: 0 <= k < |s| ==> s[k] != '/'
  }

  lemma {:induction false} RenderLast(stack: seq<string>)
    requires stack != []
    ensures var front, last := Popped(stack), stack[|stack| - 1];
            if front == [] then Render(stack) == "/" + last else Render(stack) == Render(front) + "/" + last
  {
  }

  /** Drops the last segment from the end of the buffer; the root stays. */
  method DropSegment(output: array<char>, length: nat, ghost stack: seq<string>) returns (n: nat)
    requires Showing(output[..], length, stack) && (stack != [] ==> NoSlash(stack[|stack| - 1]))
    ensures n <= length && output[..n] == Render(Popped(stack))
  {
    n := length;
    ghost var all := Render(stack);
    ghost var front := if Popped(stack) == [] then 1 else |Render(Popped(stack))| + 1;
    if stack != [] { RenderLast(stack); }
    assert output[..length] == all;
    while n > 1 && output[n - 1] != '/'
      invariant stack == [] ==> n == length == 1
      invariant stack != [] ==> front <= n <= length
    {
      n := n - 1;
    }
    if n > 1 {
      n := n - 1;
    }
    if stack != [] {
      assert output[..n] == all[..n] == Render(Popped(stack));
    }
  }

  /** Adds a segment, if it and the terminator fit. */
  method AddSegment(output: array<char>, length: nat, seg: string, capacity: nat, ghost stack: seq<string>)
      returns (ok: bool, n: nat)
    requires Showing(output[..], length, stack) && length < capacity <= output.Length
    requires |Render(stack)| == 1 ==> stack == []
    modifies output
    ensures ok <==> |Render(stack + [seg])| < capacity
    ensures ok ==> Showing(output[..], n, stack + [seg]) && n < capacity
  {
    RenderLast(stack + [seg]);
    assert Popped(stack + [seg]) == stack;
    n := length;
    var separator := if length > 1 then 1 else 0;
    if length + separator + |seg| >= capacity {
      return false, n;
    }
    if separator != 0 {
      n := WriteText(output, n, "/");
    }
    ghost var head := output[..n];
    assert head == if stack == [] then "/" else Render(stack) + "/";
    n := WriteText(output, n, seg);
    output[n] := '\0';
    assert output[..n] == head + seg;
    ok := true;
  }

  method WriteText(output: array<char>, at: nat, text: string) returns (n: nat)
    requires at + |text| <= output.Length
    modifies output
    ensures n == at + |text| && output[..n] == old(output[..at]) + text
  {
    n := at;
    for i := 0 to |text|
      invariant n == at + i && output[..n] == old(output[..at]) + text[..i]
    {
      output[n] := text[i];
      n := n + 1;
    }
    assert text[..|text|] == text;
  }

  /** Moves the path two places on and puts the drive before it. */
  method PutDrive(output: array<char>, length: nat, drive: char)
    requires length + 3 <= output.Length
    modifies output
    ensures output[..length + 2] == [drive, ':'] + old(output[..length])
    ensures output[length + 2] == old(output[length])
  {
    for i := length + 2 downto 1
      invariant forall k :: i + 1 <= k < length + 3 ==> output[k] == old(output[k - 2])
      invariant forall k :: 0 <= k <= i && k <= length ==> output[k] == old(output[k])
    {
      output[i + 1] := output[i - 1];
    }
    output[0] := drive;
    output[1] := ':';
  }

  /** Names keep the buffer's length from telling the root apart wrongly. */
  lemma {:induction false} RootIsShort(stack: seq<string>)
    requires AllNames(stack)
    ensures |Render(stack)| == 1 <==> stack == []
  {
    if stack != [] {
      RenderLast(stack);
      assert IsName(stack[|stack| - 1]);
    }
  }

  /** The segment at `i`, after slashes; none at the end. */
  method NextSegment(text: string, i: nat) returns (start: nat, end: nat)
    requires i <= |text|
    ensures i <= start <= end <= |text|
    ensures start == end ==> start == |text| && Segments(text[i..]) == []
    ensures start < end ==> Segments(text[i..]) == [text[start..end]] + Segments(text[end..])
  {
    start := SkipSlashes(text, i);
    end := SegmentEnd(text, start);
    assert start < end ==> text[start..][..end - start] == text[start..end];
    assert text[start..][end - start..] == text[end..];
  }

  method SkipSlashes(text: string, i: nat) returns (j: nat)
    requires i <= |text|
    ensures i <= j <= |text| && (j < |text| ==> text[j] != '/')
    ensures Segments(text[i..]) == Segments(text[j..])
  {
    j := i;
    while j < |text| && text[j] == '/'
      invariant i <= j <= |text| && Segments(text[i..]) == Segments(text[j..])
    {
      assert text[j..][1..] == text[j + 1..];
      j := j + 1;
    }
  }

  method SegmentEnd(text: string, i: nat) returns (j: nat)
    requires i <= |text|
    ensures i <= j <= |text| && j == i + SegmentLength(text[i..])
  {
    j := i;
    while j < |text| && text[j] != '/'
      invariant i <= j <= |text|
      invariant SegmentLength(text[i..]) == j - i + SegmentLength(text[j..])
    {
      assert text[j..][1..] == text[j + 1..];
      j := j + 1;
    }
  }

  /** Works the path off segment by segment; the buffer always shows the stack. */
  method WorkOff(text: string, output: array<char>, capacity: nat)
      returns (ok: bool, length: nat, ghost stack: seq<string>)
    requires 2 <= capacity <= output.Length
    modifies output
    ensures ok <==> Fold([], Segments(text), capacity).Some?
    ensures ok ==> Fold([], Segments(text), capacity) == Some(stack)
    ensures ok ==> Showing(output[..], length, stack) && length < capacity
  {
    output[0] := '/';
    output[1] := '\0';
    length, stack := 1, [];
    var i := 0;
    assert text[0..] == text;
    while i < |text|
      invariant i <= |text| && AllNames(stack)
      invariant Showing(output[..], length, stack) && length < capacity
      invariant Fold([], Segments(text), capacity) == Fold(stack, Segments(text[i..]), capacity)
      decreases |text| - i
    {
      var start, end := NextSegment(text, i);
      if start == end {
        ok := true;
        return;
      }
      SegmentsPlain(text[i..]);
      ok, length, stack := WorkSegment(text[start..end], Segments(text[end..]), output, length, capacity, stack);
      if !ok {
        return;
      }
      i := end;
    }
    ok := true;
  }

  /** One segment: a dot, two dots or a name. */
  method WorkSegment(seg: string, ghost more: seq<string>, output: array<char>, length: nat, capacity: nat,
                     ghost stack: seq<string>)
      returns (ok: bool, n: nat, ghost next: seq<string>)
    requires AllNames(stack) && seg != "" && NoSlash(seg)
    requires Showing(output[..], length, stack) && length < capacity <= output.Length
    modifies output
    ensures ok ==> AllNames(next) && Showing(output[..], n, next) && n < capacity
    ensures ok ==> Fold(stack, [seg] + more, capacity) == Fold(next, more, capacity)
    ensures !ok ==> Fold(stack, [seg] + more, capacity) == None
  {
    assert ([seg] + more)[1..] == more;
    ok, n, next := true, length, stack;
    if seg == "." {
      return;
    }
    if seg == ".." {
      assert stack != [] ==> IsName(stack[|stack| - 1]);
      n := DropSegment(output, length, stack);
      output[n] := '\0';
      assert output[..n] == Render(Popped(stack));
      next := Popped(stack);
      return;
    }
    RootIsShort(stack);
    ok, n := AddSegment(output, length, seg, capacity, stack);
    next := stack + [seg];
  }

  /** Appends to the combined text; fails when it and the terminator do not fit. */
  method Append(text: string, more: string) returns (ok: bool, longer: string)
    ensures ok <==> |text + more| < COMBINED_SIZE
    ensures ok ==> longer == text + more
  {
    longer := text;
    if |text| > COMBINED_SIZE || |more| >= COMBINED_SIZE - |text| {
      return false, longer;
    }
    return true, text + more;
  }

  /** Drive and text of a path with a drive. */
  method CombineDrive(path: string, wd: Option<string>) returns (r: Option<Combined>)
    requires HasDrive(path)
    ensures r == Combine(path, wd)
  {
    var drive, rest := Upper(path[0]), path[2..];
    if drive != 'C' && drive != 'D' {
      return None;
    }
    var ok, text := true, "";
    if rest == "" || rest[0] != '/' {
      ok, text := Append(text, "/");
    }
    assert "" + "/" == "/" && "" + rest == rest;
    ok, text := Append(text, rest);
    return if ok then Some(Combined(drive, text)) else None;
  }

  /** Drive and text of a path that is relative to the working directory or its drive. */
  method CombineHere(path: string, wd: Option<string>) returns (r: Option<Combined>)
    requires path != "" && !HasDrive(path)
    ensures r == Combine(path, wd)
  {
    var here := if wd.None? then Combined('C', "") else OnDrive(wd.value);
    var ok, text := true, "";
    if path[0] != '/' {
      if wd.None? {
        return None;
      }
      ok, text := Append(text, here.text);
      assert "" + here.text == here.text;
      if ok && text != "" && text[|text| - 1] != '/' {
        ok, text := Append(text, "/");
      }
      if !ok {
        return None;
      }
    }
    assert "" + path == path;
    ok, text := Append(text, path);
    return if ok then Some(Combined(here.drive, text)) else None;
  }

  /** Canonicalizes a path into `output`. */
  method CanonicalizePath(path: string, wd: Option<string>, output: array<char>, capacity: nat) returns (ok: bool)
    requires capacity <= output.Length
    modifies output
    ensures ok <==> Canonical(path, wd, capacity).Some?
    ensures ok ==> var r := Canonical(path, wd, capacity).value;
                   |r| < output.Length && output[..|r|] == r && output[|r|] == '\0'
  {
    if path == "" || capacity < 2 {
      return false;
    }
    var c;
    if HasDrive(path) {
      c := CombineDrive(path, wd);
    } else {
      c := CombineHere(path, wd);
    }
    if c.None? {
      return false;
    }
    var length;
    ghost var stack;
    ok, length, stack := WorkOff(c.value.text, output, capacity);
    if !ok || length + 3 > capacity {
      return false;
    }
    PutDrive(output, length, c.value.drive);
  }
}
