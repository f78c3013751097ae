/** Lexical paths, as path/filepath treats them on a system with '/' as separator: splitting,
    cleaning, joining, and the containment test of internal/runner/runner.go:509-525. */
module Paths {
  import opened Basics

  /** An absolute path by its components; the root has none. */
  type Path = seq<string>

  predicate SlashFree(s: string) {
    forall i :: 0 <= i < |s| ==> s[i] != '/'
  }

  /** A component that survives cleaning. */
  predicate IsName(s: string) {
    s != "" && s != "." && s != ".." && SlashFree(s)
  }

  predicate IsClean(p: Path) {
    forall i :: 0 <= i < |p| ==> IsName(p[i])
  }

  // ---------------------------------------------------------------- strings to components

  function Split(s: string): (parts: seq<string>)
    ensures |parts| >= 1
    ensures forall i :: 0 <= i < |parts| ==> SlashFree(parts[i])
  {
    if s == "" then [""]
    else
      var rest := Split(s[1..]);
      if s[0] == '/' then [""] + rest else [[s[0]] + rest[0]] + rest[1..]
  }

  /** One component of a rooted path: "" and "." stay, ".." goes up, and stays at the root. */
  function Walk1(p: Path, part: string): Path {
    if part == "" || part == "." then p
    else if part == ".." then (if p == [] then [] else p[..|p| - 1])
    else p + [part]
  }

  function Follow(p: Path, parts: seq<string>): Path
    decreases |parts|
  {
    if parts == [] then p else Follow(Walk1(p, parts[0]), parts[1..])
  }

  /** The components of an absolute path after cleaning. */
  function Components(s: string): Path {
    Follow([], Split(s))
  }

  function Joined(p: Path): string {
    if p == [] then "" else "/" + p[0] + Joined(p[1..])
  }

  function Render(p: Path): string {
    if p == [] then "/" else Joined(p)
  }

  predicate IsAbs(s: string) {
    s != "" && s[0] == '/'
  }

  /** filepath.Clean, and so filepath.Abs, of an absolute path. */
  function Clean(s: string): string
    requires IsAbs(s)
  {
    Render(Components(s))
  }

  /** filepath.Join of an absolute directory and a non-empty relative part. */
  function Join(dir: string, rel: string): string
    requires IsAbs(dir)
  {
    Clean(dir + "/" + rel)
  }

  /** The test extractTarGzStripped makes on cleaned strings. */
  predicate Inside(absTarget: string, absDst: string) {
    HasPrefix(absTarget, absDst + "/") || absTarget == absDst
  }

  // ---------------------------------------------------------------- splitting and rendering

  lemma {:induction false} SplitJoin(a: string, b: string)
    ensures Split(a + "/" + b) == Split(a) + Split(b)
    decreases |a|
  {
    var s := a + "/" + b;
    if a == "" {
      assert s[1..] == b;
    } else {
      assert s[1..] == a[1..] + "/" + b;
      SplitJoin(a[1..], b);
    }
  }

  lemma {:induction false} SplitName(s: string)
    requires SlashFree(s)
    ensures Split(s) == [s]
  {
    if s != "" {
      SplitName(s[1..]);
      assert [s[0]] + s[1..] == s;
    }
  }

  lemma SplitRooted(s: string)
    ensures Split("/" + s) == [""] + Split(s)
  {
    assert ("/" + s)[1..] == s;
  }

  lemma {:induction false} SplitJoined(p: Path)
    requires IsClean(p) && p != []
    ensures Split(Joined(p)) == [""] + p
  {
    var tail := p[0] + Joined(p[1..]);
    SplitName(p[0]);
    if p[1..] == [] {
      assert tail == p[0];
    } else {
      SplitJoined(p[1..]);
      var y := Joined(p[1..])[1..];
      assert Joined(p[1..]) == "/" + y && tail == p[0] + "/" + y;
      SplitJoin(p[0], y);
      SplitRooted(y);
      assert Split(y) == ([""] + Split(y))[1..] == ([""] + p[1..])[1..] == p[1..];
    }
    assert Joined(p) == "/" + tail;
    SplitRooted(tail);
  }

  lemma {:induction false} FollowConcat(p: Path, a: seq<string>, b: seq<string>)
    ensures Follow(p, a + b) == Follow(Follow(p, a), b)
    decreases |a|
  {
    if a == [] {
      assert a + b == b;
    } else {
      assert (a + b)[1..] == a[1..] + b;
      FollowConcat(Walk1(p, a[0]), a[1..], b);
    }
  }

  lemma {:induction false} FollowKeepsClean(p: Path, parts: seq<string>)
    requires IsClean(p) && forall i :: 0 <= i < |parts| ==> SlashFree(parts[i])
    ensures IsClean(Follow(p, parts))
    decreases |parts|
  {
    if parts != [] {
      FollowKeepsClean(Walk1(p, parts[0]), parts[1..]);
    }
  }

  lemma {:induction false} FollowNames(p: Path, names: Path)
    requires IsClean(names)
    ensures Follow(p, names) == p + names
    decreases |names|
  {
    if names != [] {
      FollowNames(p + [names[0]], names[1..]);
      assert p + [names[0]] + names[1..] == p + names;
    }
  }

  /** Cleaned components render to a string with the same components: cleaning is idempotent. */
  lemma ComponentsOfRender(p: Path)
    requires IsClean(p)
    ensures IsAbs(Render(p)) && Components(Render(p)) == p
  {
    if p == [] {
      assert Split("/") == ["", ""] by { assert "/"[1..] == ""; }
      assert ["", ""][1..] == [""] && [""][1..] == [];
      assert Follow([], ["", ""]) == Follow([], [""]) == Follow([], []);
    } else {
      SplitJoined(p);
      FollowNames([], p);
      assert ([""] + p)[1..] == p;
      assert Follow([], [""] + p) == Follow([], p);
      assert [] + p == p;
    }
  }

  lemma ComponentsClean(s: string)
    ensures IsClean(Components(s))
  {
    FollowKeepsClean([], Split(s));
  }

  /** Joining is following the relative part from the directory. */
  lemma ComponentsOfJoin(dir: string, rel: string)
    requires IsAbs(dir)
    ensures IsAbs(Join(dir, rel)) && Components(Join(dir, rel)) == Follow(Components(dir), Split(rel))
  {
    var s := dir + "/" + rel;
    SplitJoin(dir, rel);
    FollowConcat([], Split(dir), Split(rel));
    ComponentsClean(s);
    ComponentsOfRender(Components(s));
  }

  lemma CleanStep(s: string, part: string)
    requires IsAbs(s) && SlashFree(part)
    ensures IsAbs(s + "/" + part) && Components(s + "/" + part) == Walk1(Components(s), part)
  {
    SplitJoin(s, part);
    SplitName(part);
    FollowConcat([], Split(s), [part]);
    assert Follow(Components(s), [part]) == Follow(Walk1(Components(s), part), []);
  }

  /** The rules of filepath.Clean for rooted paths: a name is a component; slashes in a row count
      as one and a final one as none; "." is dropped; ".." drops the component before it, and
      itself at the root. They determine the components of every such path. */
  lemma CleanRules(s: string, name: string)
    requires IsAbs(s) && IsName(name)
    ensures Components("/") == []
    ensures Components(s + "/" + name) == Components(s) + [name]
    ensures Components(s + "/" + "") == Components(s) && Components(s + "/" + ".") == Components(s)
    ensures Components(s + "/" + name + "/" + "..") == Components(s)
    ensures Components(s) == [] ==> Components(s + "/" + "..") == []
  {
    ComponentsOfRender([]);
    CleanStep(s, name);
    CleanStep(s, "");
    CleanStep(s, ".");
    CleanStep(s + "/" + name, "..");
    assert (Components(s) + [name])[..|Components(s)|] == Components(s);
    CleanStep(s, "..");
  }

  // ---------------------------------------------------------------- containment

  lemma {:induction false} JoinedConcat(a: Path, b: Path)
    ensures Joined(a + b) == Joined(a) + Joined(b)
  {
    if a == [] {
      assert a + b == b;
    } else {
      JoinedConcat(a[1..], b);
      assert (a + b)[1..] == a[1..] + b;
      var x, y, z := "/" + a[0], Joined(a[1..]), Joined(b);
      assert x + (y + z) == (x + y) + z;
    }
  }

  /** The strict half of the string test on clean paths: properly below the directory, and
      never below the root. */
  lemma StrictlyInsideExactly(t: Path, d: Path)
    requires IsClean(t) && IsClean(d)
    ensures HasPrefix(Render(t), Render(d) + "/") <==> d != [] && d < t
  {
    if d == [] {
      RootHasNoDoubleSlash(t);
    } else {
      if HasPrefix(Render(t), Render(d) + "/") {
        PrefixSplits(t, d);
        assert |Render(d)| < |Render(t)| && d != t;
      }
      if d < t {
        var e := t[|d|..];
        assert t == d + e;
        JoinedConcat(d, e);
        assert Joined(e)[0] == '/';
        assert Render(t)[..|Render(d)| + 1] == Render(d) + "/";
      }
    }
  }

  /** The string test on clean paths is the test on component lists, for every directory but
      the root; for the root it lets only the root itself through. */
  lemma InsideExactly(t: Path, d: Path)
    requires IsClean(t) && IsClean(d)
    ensures Inside(Render(t), Render(d)) <==> (if d == [] then t == [] else d <= t)
  {
    StrictlyInsideExactly(t, d);
    ComponentsOfRender(t);
    ComponentsOfRender(d);
    assert d <= t <==> d < t || d == t;
  }

  lemma PrefixSplits(t: Path, d: Path)
    requires IsClean(t) && IsClean(d) && d != [] && HasPrefix(Render(t), Render(d) + "/")
    ensures d <= t
  {
    var rest := Render(t)[|Render(d)| + 1..];
    assert Render(t) == Render(d) + "/" + rest;
    SplitJoin(Render(d), rest);
    SplitJoined(d);
    if t != [] {
      SplitJoined(t);
      WithoutFirst(t, d, Split(rest));
    }
  }

  lemma WithoutFirst(t: Path, d: Path, r: Path)
    requires [""] + t == [""] + d + r
    ensures d <= t
  {
    assert ([""] + t)[1..] == t;
    assert ([""] + d + r)[1..] == d + r;
  }

  lemma RootHasNoDoubleSlash(t: Path)
    requires IsClean(t)
    ensures HasPrefix(Render(t), "/" + "/") ==> false
  {
    if t != [] {
      assert Joined(t)[1] == t[0][0];
    }
  }
}
