/** Where a path starts from: its own drive, the root of the working directory's drive, or the
    working directory. */
module BashRelative {
  import opened Basics
  import opened BashPath

  /** A directory as a text. */
  function Directory(drive: char, stack: seq<string>): (wd: string)
  {
    [drive, ':'] + Render(stack)
  }

  /** The segments worked off from the directory `stack` on a drive, where the result fits. */
  function From(drive: char, stack: seq<string>, segs: seq<string>, capacity: nat): (r: Option<string>)
  {
    var to := Fold(stack, segs, capacity);
    if to.None? || |Render(to.value)| + 3 > capacity then None else Some(Directory(drive, to.value))
  }

  /** The segments of a directory and a path in it are those of the directory and those of the
      path. */
  lemma {:induction false} SegmentsJoin(s: string, path: string)
    ensures Segments(s + "/" + path) == Segments(s) + Segments(path)
    decreases |s|
  {
    var t := "/" + path;
    assert s + "/" + path == s + t;
    if s == "" {
      assert s + t == t && t[1..] == path;
    } else if s[0] == '/' {
      SegmentsJoin(s[1..], path);
      assert (s + t)[1..] == s[1..] + "/" + path;
    } else {
      var n := SegmentLength(s);
      SegmentSplit(s, n, t);
      SegmentsJoin(s[n..], path);
      assert (s + t)[n..] == s[n..] + "/" + path;
      assert (s + t)[..n] == s[..n];
    }
  }

  lemma {:induction false} SegmentsClosed(s: string, path: string)
    requires s != ""
    ensures Segments(Closed(s) + path) == Segments(s) + Segments(path)
  {
    if s[|s| - 1] == '/' {
      var front := s[..|s| - 1];
      assert s == front + "/" == front + "/" + "";
      SegmentsJoin(front, "");
      SegmentsJoin(front, path);
    } else {
      SegmentsJoin(s, path);
    }
  }

  /** Names go down one by one, exactly if the last directory fits. */
  lemma {:induction false} FoldDown(stack: seq<string>, k: nat, capacity: nat)
    requires AllNames(stack) && k <= |stack| && |Render(stack[..k])| < capacity
    ensures Fold(stack[..k], stack[k..], capacity) == if |Render(stack)| < capacity then Some(stack) else None
    decreases |stack| - k
  {
    if k == |stack| {
      assert stack[..k] == stack;
    } else {
      assert IsName(stack[k]);
      RenderRises(stack, k + 1);
      assert stack[..k] + [stack[k]] == stack[..k + 1];
      assert stack[k..][1..] == stack[k + 1..];
      if |Render(stack[..k + 1])| < capacity {
        FoldDown(stack, k + 1, capacity);
      }
    }
  }

  /** Working off a directory and a path is working off the path from there. */
  lemma {:induction false} FoldFrom(stack: seq<string>, segs: seq<string>, capacity: nat)
    requires AllNames(stack) && capacity >= 2
    ensures Fold([], stack + segs, capacity)
            == if |Render(stack)| < capacity then Fold(stack, segs, capacity) else None
  {
    FoldAppend([], stack, segs, capacity);
    assert stack[..0] == [] && stack[0..] == stack;
    FoldDown(stack, 0, capacity);
  }

  lemma {:induction false} WorkedFrom(text: string, drive: char, stack: seq<string>, segs: seq<string>, capacity: nat)
    requires AllNames(stack) && capacity >= 2 && Segments(text) == stack + segs
    ensures From(drive, [], Segments(text), capacity)
            == if |Render(stack)| < capacity then From(drive, stack, segs, capacity) else None
  {
    FoldFrom(stack, segs, capacity);
  }

  predicate Relative(path: string)
  {
    path != "" && path[0] != '/' && !HasDrive(path)
  }

  lemma {:induction false} HereOn(path: string, wd: string, drive: char, stack: seq<string>, capacity: nat)
    requires Relative(path) && AllNames(stack) && OnDrive(wd) == Combined(drive, Render(stack))
    ensures Canonical(path, Some(wd), capacity)
            == if |Closed(Render(stack))| + |path| < COMBINED_SIZE && |Render(stack)| < capacity
               then From(drive, stack, Segments(path), capacity) else None
  {
    var text := Closed(Render(stack)) + path;
    if capacity >= 2 {
      SegmentsClosed(Render(stack), path);
      SegmentsRender(stack);
      WorkedFrom(text, drive, stack, Segments(path), capacity);
      assert Combine(path, Some(wd)) == Limited(Combined(drive, text));
    }
  }

  lemma {:induction false} DirectoryOn(drive: char, stack: seq<string>)
    ensures IsLetter(drive) ==> OnDrive(Directory(drive, stack)) == Combined(Upper(drive), Render(stack))
    ensures OnDrive(Render(stack)) == Combined('C', Render(stack))
  {
    assert Directory(drive, stack)[2..] == Render(stack);
  }

  /** A relative path starts from the working directory, on its drive; on drive C, if the working
      directory names none; and is refused without one. */
  lemma {:induction false} StartsHere(path: string, drive: char, stack: seq<string>, capacity: nat)
    requires Relative(path) && IsLetter(drive) && AllNames(stack)
    ensures var fits := |Closed(Render(stack))| + |path| < COMBINED_SIZE && |Render(stack)| < capacity;
            && Canonical(path, Some(Directory(drive, stack)), capacity)
               == (if fits then From(Upper(drive), stack, Segments(path), capacity) else None)
            && Canonical(path, Some(Render(stack)), capacity)
               == (if fits then From('C', stack, Segments(path), capacity) else None)
            && Canonical(path, None, capacity).None?
  {
    DirectoryOn(drive, stack);
    HereOn(path, Directory(drive, stack), Upper(drive), stack, capacity);
    HereOn(path, Render(stack), 'C', stack, capacity);
  }

  /** A path with a leading slash starts from the root of the working directory's drive. */
  lemma {:induction false} StartsAtRoot(path: string, drive: char, stack: seq<string>, capacity: nat)
    requires path != "" && path[0] == '/' && IsLetter(drive)
    ensures var fits := |path| < COMBINED_SIZE;
            && Canonical(path, Some(Directory(drive, stack)), capacity)
               == (if fits then From(Upper(drive), [], Segments(path), capacity) else None)
            && Canonical(path, Some(Render(stack)), capacity)
               == (if fits then From('C', [], Segments(path), capacity) else None)
            && Canonical(path, None, capacity) == (if fits then From('C', [], Segments(path), capacity) else None)
  {
    DirectoryOn(drive, stack);
  }

  /** A path with a drive starts from the root of that drive, with or without a slash, whatever
      the working directory is; there are drives C and D. */
  lemma {:induction false} StartsOnDrive(drive: char, path: string, wd: Option<string>, capacity: nat)
    requires IsLetter(drive)
    ensures var slashed := path != "" && path[0] == '/';
            Canonical([drive, ':'] + path, wd, capacity)
            == if drive in "cdCD" && |path| + (if slashed then 0 else 1) < COMBINED_SIZE
               then From(Upper(drive), [], Segments(path), capacity) else None
  {
    var p := [drive, ':'] + path;
    assert p[2..] == path && HasDrive(p);
    assert ("/" + path)[1..] == path;
  }

  /** A dot stays in the working directory, two dots go to its parent, and a name goes below it. */
  lemma {:induction false} StaysUpDown(drive: char, stack: seq<string>, name: string, capacity: nat)
    requires IsLetter(drive) && AllNames(stack) && IsName(name) && Relative(name)
    requires |Render(stack)| + 3 <= capacity && |Closed(Render(stack))| + 2 < COMBINED_SIZE
    ensures var wd := Some(Directory(drive, stack));
            && Canonical(".", wd, capacity) == Some(Directory(Upper(drive), stack))
            && Canonical("..", wd, capacity) == Some(Directory(Upper(drive), Popped(stack)))
            && Canonical(name, wd, capacity)
               == (if |Closed(Render(stack))| + |name| < COMBINED_SIZE && |Render(stack + [name])| + 3 <= capacity
                   then Some(Directory(Upper(drive), stack + [name])) else None)
  {
    StartsHere(".", drive, stack, capacity);
    StartsHere("..", drive, stack, capacity);
    StartsHere(name, drive, stack, capacity);
    OneSegment(".");
    OneSegment("..");
    OneSegment(name);
    FoldOne(stack, ".", capacity);
    FoldOne(stack, "..", capacity);
    FoldOne(stack, name, capacity);
    PoppedFits(stack);
  }

  lemma {:induction false} OneSegment(s: string)
    requires s != "" && forall k :: 0 <= k < |s| ==> s[k] != '/'
    ensures Segments(s) == [s]
  {
    SegmentWhole(s, "");
    assert s + "" == s && s[..|s|] == s && s[|s|..] == "";
  }

  lemma {:induction false} FoldOne(stack: seq<string>, s: string, capacity: nat)
    ensures Fold(stack, [s], capacity)
            == if s == "." then Some(stack) else if s == ".." then Some(Popped(stack))
               else if |Render(stack + [s])| < capacity then Some(stack + [s]) else None
  {
    assert [s][1..] == [];
  }

  lemma {:induction false} PoppedFits(stack: seq<string>)
    ensures |Render(Popped(stack))| <= |Render(stack)|
  {
    if stack != [] {
      RenderRises(stack, |stack| - 1);
    }
  }
}
