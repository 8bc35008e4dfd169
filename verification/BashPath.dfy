/** Canonical paths: segments, a stack, and a drive. */
module BashPath {
  import opened Basics

  const COMBINED_SIZE: nat := 512

  predicate IsLetter(c: char)
  {
    'A' <= c <= 'Z' || 'a' <= c <= 'z'
  }

  function Upper(c: char): (u: char)
    requires IsLetter(c)
    ensures 'A' <= u <= 'Z'
  {
    if 'a' <= c <= 'z' then c - 'a' + 'A' else c
  }

  // ----- segments -----

  /** How many characters it is to the next slash or to the end. */
  function SegmentLength(s: string): (n: nat)
    ensures n <= |s| && forall k :: 0 <= k < n ==> s[k] != '/'
    ensures n < |s| ==> s[n] == '/'
  {
    if s == "" || s[0] == '/' then 0 else 1 + SegmentLength(s[1..])
  }

  /** The non-empty pieces between slashes. */
  function Segments(s: string): (segs: seq<string>)
    decreases |s|
  {
    if s == "" then []
    else if s[0] == '/' then Segments(s[1..])
    else
      var n := SegmentLength(s);
      [s[..n]] + Segments(s[n..])
  }

  /** A slash, and slashes between the segments. */
  function Render(stack: seq<string>): (s: string)
    ensures s != "" && s[0] == '/'
  {
    if stack == [] then "/"
    else if |stack| == 1 then "/" + stack[0]
    else Render(stack[..|stack| - 1]) + "/" + stack[|stack| - 1]
  }

  /** A name that stays in the path. */
  predicate IsName(s: string)
  {
    s != "" && s != "." && s != ".." && forall k :: 0 <= k < |s| ==> s[k] != '/'
  }

  predicate AllNames(stack: seq<string>)
  {
    forall k :: 0 <= k < |stack| ==> IsName(stack[k])
  }

  function Popped(stack: seq<string>): (r: seq<string>)
  {
    if stack == [] then [] else stack[..|stack| - 1]
  }

  /** Works the segments off: a dot stays, two dots go up, never above the root, and a name goes
      down, if the path then still fits. */
  function Fold(stack: seq<string>, segs: seq<string>, capacity: nat): (r: Option<seq<string>>)
    decreases |segs|
  {
    if segs == [] then Some(stack)
    else if segs[0] == "." then Fold(stack, segs[1..], capacity)
    else if segs[0] == ".." then Fold(Popped(stack), segs[1..], capacity)
    else if |Render(stack + [segs[0]])| >= capacity then None
    else Fold(stack + [segs[0]], segs[1..], capacity)
  }

  // ----- drive and working directory -----

  predicate HasDrive(path: string)
  {
    |path| >= 2 && IsLetter(path[0]) && path[1] == ':'
  }

  /** What a path is made of before it is worked off: a drive and the text behind it. */
  datatype Combined = Combined(drive: char, text: string)

  function Limited(c: Combined): (r: Option<Combined>)
  {
    if |c.text| < COMBINED_SIZE then Some(c) else None
  }

  /** The working directory's drive, C by default, and the rest of it. */
  function OnDrive(wd: string): (c: Combined)
  {
    if HasDrive(wd) && |wd| >= 3 && wd[2] == '/' then Combined(Upper(wd[0]), wd[2..]) else Combined('C', wd)
  }

  function Combine(path: string, wd: Option<string>): (r: Option<Combined>)
    requires path != ""
  {
    if HasDrive(path) then
      var d, p := Upper(path[0]), path[2..];
      if d != 'C' && d != 'D' then None
      else Limited(Combined(d, if p == "" || p[0] != '/' then "/" + p else p))
    else
      var w := if wd.None? then Combined('C', "") else OnDrive(wd.value);
      if path[0] == '/' then Limited(Combined(w.drive, path))
      else if wd.None? then None
      else Limited(Combined(w.drive, Closed(w.text) + path))
  }

  /** A directory with a slash behind it; nothing stays nothing. */
  function Closed(s: string): (r: string)
  {
    if s != "" && s[|s| - 1] != '/' then s + "/" else s
  }

  /** The canonical form of a path. */
  function Canonical(path: string, wd: Option<string>, capacity: nat): (r: Option<string>)
  {
    if path == "" || capacity < 2 then None
    else
      var c := Combine(path, wd);
      if c.None? then None
      else
        var stack := Fold([], Segments(c.value.text), capacity);
        if stack.None? || |Render(stack.value)| + 3 > capacity then None
        else Some([c.value.drive, ':'] + Render(stack.value))
  }

  // ----- what the result looks like -----

  lemma {:induction false} SegmentsPlain(s: string)
    ensures forall k :: 0 <= k < |Segments(s)| ==>
              Segments(s)[k] != "" && forall j :: 0 <= j < |Segments(s)[k]| ==> Segments(s)[k][j] != '/'
    decreases |s|
  {
    if s == "" {
    } else if s[0] == '/' {
      SegmentsPlain(s[1..]);
    } else {
      SegmentsPlain(s[SegmentLength(s)..]);
    }
  }

  predicate Plain(segs: seq<string>)
  {
    forall k :: 0 <= k < |segs| ==> segs[k] != "" && forall j :: 0 <= j < |segs[k]| ==> segs[k][j] != '/'
  }

  lemma {:induction false} FoldNames(stack: seq<string>, segs: seq<string>, capacity: nat)
    requires AllNames(stack) && Plain(segs)
    ensures Fold(stack, segs, capacity).Some? ==> AllNames(Fold(stack, segs, capacity).value)
    decreases |segs|
  {
    if segs == [] {
    } else {
      assert Plain(segs[1..]);
      if segs[0] == "." {
        FoldNames(stack, segs[1..], capacity);
      } else if segs[0] == ".." {
        FoldNames(Popped(stack), segs[1..], capacity);
      } else {
        FoldNames(stack + [segs[0]], segs[1..], capacity);
      }
    }
  }

  /** A canonical path is a drive and names: no empty segment, no dot, no two dots. */
  lemma {:induction false} CanonicalNames(path: string, wd: Option<string>, capacity: nat) returns (stack: seq<string>)
    requires Canonical(path, wd, capacity).Some?
    ensures AllNames(stack) && |Render(stack)| + 3 <= capacity
    ensures Canonical(path, wd, capacity).value == [Combine(path, wd).value.drive, ':'] + Render(stack)
    ensures Fold([], Segments(Combine(path, wd).value.text), capacity) == Some(stack)
  {
    var text := Combine(path, wd).value.text;
    SegmentsPlain(text);
    FoldNames([], Segments(text), capacity);
    stack := Fold([], Segments(text), capacity).value;
  }

  /** Segments are worked off one after another. */
  lemma {:induction false} FoldAppend(stack: seq<string>, a: seq<string>, b: seq<string>, capacity: nat)
    ensures var r := Fold(stack, a, capacity);
            Fold(stack, a + b, capacity) == if r.None? then None else Fold(r.value, b, capacity)
    decreases |a|
  {
    if a == [] {
      assert a + b == b;
    } else {
      assert (a + b)[1..] == a[1..] + b;
      if a[0] == "." {
        FoldAppend(stack, a[1..], b, capacity);
      } else if a[0] == ".." {
        FoldAppend(Popped(stack), a[1..], b, capacity);
      } else if |Render(stack + [a[0]])| < capacity {
        FoldAppend(stack + [a[0]], a[1..], b, capacity);
      }
    }
  }

  lemma {:induction false} SegmentsDots(s: string, dots: string)
    requires dots == "." || dots == ".."
    ensures Segments(s + "/" + dots) == Segments(s) + [dots]
  {
    SegmentsPiece(s, dots);
  }

  /** Going down to a name and up again changes nothing, if the way down fits; a dot never
      does. */
  lemma {:induction false} DownAndUp(s: string, name: string, capacity: nat)
    requires IsName(name)
    ensures Fold([], Segments(s + "/."), capacity) == Fold([], Segments(s), capacity)
    ensures var r := Fold([], Segments(s), capacity);
            r.Some? && |Render(r.value + [name])| < capacity ==>
              Fold([], Segments(s + "/" + name + "/.."), capacity) == r
  {
    var r := Fold([], Segments(s), capacity);
    SegmentsDots(s, ".");
    assert s + "/" + "." == s + "/.";
    FoldAppend([], Segments(s), ["."], capacity);
    SegmentsPiece(s, name);
    SegmentsDots(s + "/" + name, "..");
    assert s + "/" + name + "/" + ".." == s + "/" + name + "/..";
    assert Segments(s) + [name] + [".."] == Segments(s) + [name, ".."];
    FoldAppend([], Segments(s), [name, ".."], capacity);
    if r.Some? && |Render(r.value + [name])| < capacity {
      FoldDownUp(r.value, name, capacity);
    }
  }

  lemma {:induction false} FoldDownUp(stack: seq<string>, name: string, capacity: nat)
    requires IsName(name) && |Render(stack + [name])| < capacity
    ensures Fold(stack, [name, ".."], capacity) == Some(stack)
  {
    var up := [".."];
    assert [name, ".."][1..] == up && up[1..] == [];
    assert Popped(stack + [name]) == stack;
    assert Fold(stack + [name], up, capacity) == Fold(stack, [], capacity);
  }

  // ----- canonical paths stay as they are -----

  lemma {:induction false} SegmentWhole(a: string, b: string)
    requires (forall k :: 0 <= k < |a| ==> a[k] != '/') && (b == "" || b[0] == '/')
    ensures SegmentLength(a + b) == |a|
    decreases |a|
  {
    if a == "" {
      assert a + b == b;
    } else {
      SegmentWhole(a[1..], b);
      assert (a + b)[1..] == a[1..] + b;
    }
  }

  /** A slash and a piece of text add one segment. */
  lemma {:induction false} SegmentsPiece(s: string, a: string)
    requires a != "" && forall k :: 0 <= k < |a| ==> a[k] != '/'
    ensures Segments(s + "/" + a) == Segments(s) + [a]
    decreases |s|
  {
    var t := "/" + a;
    assert s + "/" + a == s + t;
    if s == "" {
      assert s + t == t && t[1..] == a;
      SegmentWhole(a, "");
      assert a + "" == a && a[..|a|] == a && a[|a|..] == "";
    } else if s[0] == '/' {
      SegmentsPiece(s[1..], a);
      assert (s + t)[1..] == s[1..] + "/" + a;
    } else {
      var n := SegmentLength(s);
      SegmentSplit(s, n, t);
      SegmentsPiece(s[n..], a);
      assert (s + t)[n..] == s[n..] + "/" + a;
      assert (s + t)[..n] == s[..n];
    }
  }

  lemma {:induction false} SegmentSplit(s: string, n: nat, t: string)
    requires n == SegmentLength(s) && t != "" && t[0] == '/'
    ensures SegmentLength(s + t) == n
  {
    SegmentWhole(s[..n], s[n..] + t);
    assert s[..n] + (s[n..] + t) == s + t;
  }

  lemma {:induction false} SegmentsRender(stack: seq<string>)
    requires AllNames(stack)
    ensures Segments(Render(stack)) == stack
    decreases |stack|
  {
    if stack == [] {
      assert "/"[1..] == "";
    } else {
      var front, last := stack[..|stack| - 1], stack[|stack| - 1];
      SegmentsRender(front);
      if front == [] {
        SegmentsPiece("", last);
        assert "" + "/" + last == "/" + last;
        assert stack == [last];
      } else {
        SegmentsPiece(Render(front), last);
      }
    }
  }

  lemma {:induction false} RenderRises(stack: seq<string>, k: nat)
    requires k <= |stack|
    ensures |Render(stack[..k])| <= |Render(stack)|
    decreases |stack|
  {
    if k == |stack| {
      assert stack[..k] == stack;
    } else {
      RenderRises(stack[..|stack| - 1], k);
      assert stack[..|stack| - 1][..k] == stack[..k];
    }
  }

  lemma {:induction false} FoldKeeps(stack: seq<string>, k: nat, capacity: nat)
    requires AllNames(stack) && k <= |stack| && |Render(stack)| < capacity
    ensures Fold(stack[..k], stack[k..], capacity) == Some(stack)
    decreases |stack| - k
  {
    if k == |stack| {
      assert stack[..k] == stack;
    } else {
      assert IsName(stack[k]);
      RenderRises(stack, k + 1);
      assert stack[..k] + [stack[k]] == stack[..k + 1];
      assert stack[k..][1..] == stack[k + 1..];
      FoldKeeps(stack, k + 1, capacity);
    }
  }

  /** A path in canonical form is its own canonical form, from any working directory, exactly if
      its drive is C or D and it fits the buffer it is worked off in. */
  lemma {:induction false} CanonicalStays(path: string, wd: Option<string>, capacity: nat, from: Option<string>)
    requires Canonical(path, wd, capacity).Some?
    ensures var r := Canonical(path, wd, capacity).value;
            Canonical(r, from, capacity) == Some(r)
            <==> (r[0] == 'C' || r[0] == 'D') && |r| - 2 < COMBINED_SIZE
  {
    var r := Canonical(path, wd, capacity).value;
    var stack := CanonicalNames(path, wd, capacity);
    var drive := Combine(path, wd).value.drive;
    DriveIsUpper(path, wd);
    assert r[2..] == Render(stack);
    SegmentsRender(stack);
    FoldKeeps(stack, 0, capacity);
    assert stack[..0] == [] && stack[0..] == stack;
  }

  lemma {:induction false} DriveIsUpper(path: string, wd: Option<string>)
    requires path != "" && Combine(path, wd).Some?
    ensures 'A' <= Combine(path, wd).value.drive <= 'Z'
  {
  }

  /** The drive a path ends up on. */
  function DriveOf(path: string, wd: Option<string>): (d: char)
  {
    if HasDrive(path) then Upper(path[0])
    else if wd.None? then 'C'
    else OnDrive(wd.value).drive
  }

  /** With the capacities the shell uses, canonicalizing twice is canonicalizing once exactly on
      drives C and D. */
  lemma {:induction false} IdempotentIff(path: string, wd: Option<string>, capacity: nat)
    requires Canonical(path, wd, capacity).Some? && capacity <= COMBINED_SIZE + 2
    ensures Canonical(Canonical(path, wd, capacity).value, wd, capacity) == Canonical(path, wd, capacity)
            <==> DriveOf(path, wd) == 'C' || DriveOf(path, wd) == 'D'
  {
    var stack := CanonicalNames(path, wd, capacity);
    CanonicalStays(path, wd, capacity, wd);
  }

  const SHELL_CAPACITY: nat := 256

  /** What the file system gives as working directory: none, or one on drive C or D. */
  predicate IsWorkingDirectory(wd: Option<string>)
  {
    wd.Some? ==> |wd.value| >= 2 && (wd.value[0] == 'c' || wd.value[0] == 'd') && wd.value[1] == ':'
  }

  /** As the shell calls it, canonicalizing twice is always canonicalizing once. */
  lemma {:induction false} IdempotentInShell(path: string, wd: Option<string>)
    requires IsWorkingDirectory(wd) && Canonical(path, wd, SHELL_CAPACITY).Some?
    ensures Canonical(Canonical(path, wd, SHELL_CAPACITY).value, wd, SHELL_CAPACITY)
            == Canonical(path, wd, SHELL_CAPACITY)
  {
    IdempotentIff(path, wd, SHELL_CAPACITY);
  }
}
