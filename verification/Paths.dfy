/** Absolute paths as text and as cleaned component lists. */
module Paths {
  import opened SharedDisk

  // ---- Paths as text ---------------------------------------------------------------------------------------------

  predicate ProperComponent(c: string) {
    c != "" && c != "." && c != ".." && '/' !in c
  }

  predicate ProperPath(p: Path) {
    p != [] && forall i :: 0 <= i < |p| ==> ProperComponent(p[i])
  }

  function PathText(p: Path): string {
    if p == [] then "" else "/" + (p[0] + PathText(p[1..]))
  }

  function Push(done: Path, component: string): Path {
    if component == "" || component == "." then done
    else if component == ".." then Parent(done)
    else done + [component]
  }

  /** Reads the rest of a path: `done` is the cleaned path so far, `current` the component being read. */
  function CleanFrom(t: string, done: Path, current: string): Path
    decreases |t|
  {
    if t == "" then Push(done, current)
    else if t[0] == '/' then CleanFrom(t[1..], Push(done, current), "")
    else CleanFrom(t[1..], done, current + [t[0]])
  }

  /** The cleaned path an absolute path text stands for. */
  function CleanPath(t: string): Path {
    CleanFrom(t, [], "")
  }

  lemma {:induction false} ComponentIsRead(c: string, rest: string, done: Path, current: string)
    requires '/' !in c
    ensures CleanFrom(c + rest, done, current) == CleanFrom(rest, done, current + c)
    decreases |c|
  {
    if c == "" {
      assert c + rest == rest && current + c == current;
    } else {
      assert (c + rest)[1..] == c[1..] + rest && current + [c[0]] + c[1..] == current + c;
      ComponentIsRead(c[1..], rest, done, current + [c[0]]);
    }
  }

  lemma SlashIsRead(rest: string, done: Path, current: string)
    ensures CleanFrom("/" + rest, done, current) == CleanFrom(rest, Push(done, current), "")
  {
    var t := "/" + rest;
    assert t[0] == '/' && t[1..] == rest;
  }

  lemma {:induction false} PathIsRead(p: Path, done: Path, current: string)
    requires forall i :: 0 <= i < |p| ==> ProperComponent(p[i])
    ensures CleanFrom(PathText(p), done, current) == Push(done, current) + p
    decreases |p|
  {
    var pushed := Push(done, current);
    if p == [] {
      assert pushed + p == pushed;
    } else {
      var first, more := p[0], p[1..];
      SlashIsRead(first + PathText(more), done, current);
      FirstIsRead(first, PathText(more), pushed);
      PathIsRead(more, pushed, first);
      assert pushed + [first] + more == pushed + p;
    }
  }

  lemma FirstIsRead(first: string, rest: string, done: Path)
    requires ProperComponent(first)
    ensures CleanFrom(first + rest, done, "") == CleanFrom(rest, done, first)
  {
    ComponentIsRead(first, rest, done, "");
    assert "" + first == first;
  }

  lemma {:induction false} PathTextGrows(p: Path, c: string)
    ensures |PathText(p + [c])| == |PathText(p)| + 1 + |c|
    ensures p != [] ==> |PathText(p)| == |PathText(Parent(p))| + 1 + |p[|p| - 1]|
    decreases |p|
  {
    if p == [] {
      assert p + [c] == [c] && [c][1..] == [];
    } else {
      assert (p + [c])[1..] == p[1..] + [c];
      PathTextGrows(p[1..], c);
      if |p| == 1 {
        assert p[1..] == [] && Parent(p) == [];
      } else {
        assert Parent(p)[1..] == Parent(p[1..]) && p[1..][|p| - 2] == p[|p| - 1];
      }
    }
  }

  /** Cleaning never makes a path longer. */
  lemma {:induction false} CleaningShrinks(t: string, done: Path, current: string)
    ensures |PathText(CleanFrom(t, done, current))| <= |PathText(done)| + 1 + |current| + |t|
    decreases |t|
  {
    PathTextGrows(done, current);
    if t != "" {
      if t[0] == '/' {
        CleaningShrinks(t[1..], Push(done, current), "");
      } else {
        CleaningShrinks(t[1..], done, current + [t[0]]);
      }
    }
  }
}
