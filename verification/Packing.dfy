/** Packing a directory (internal/runner/runner.go:442-484) and getting it back. */
module Packing {
  import opened Wrappers
  import opened Paths
  import opened Archive
  import opened Extraction

  /** A directory of regular files and directories: everything at or below `dir`. */
  ghost predicate Packable(tree: Tree, dir: Path) {
    && dir in tree && tree[dir] == Dir
    && forall p :: p in tree && dir < p ==>
         && !tree[p].Link? && IsClean(p[|dir|..])
         && Parent(p) in tree && tree[Parent(p)] == Dir
  }

  predicate Within(walk: seq<Path>, tree: Tree, dir: Path) {
    forall i :: 0 <= i < |walk| ==> dir <= walk[i] && walk[i] in tree
  }

  /** What filepath.Walk visits: the paths at or below `dir`, in some order. */
  ghost predicate Visits(walk: seq<Path>, tree: Tree, dir: Path) {
    Within(walk, tree, dir) && forall p :: p in tree && dir <= p ==> p in walk
  }

  /** filepath.Rel of a path at or below `dir`. */
  function Rel(dir: Path, p: Path): string
    requires dir <= p
  {
    if p == dir then "." else Joined(p[|dir|..])[1..]
  }

  /** The header and body written for one visited path: no trailing slash, no link target. */
  function Packed1(tree: Tree, dir: Path, p: Path): Entry
    requires dir <= p && p in tree
  {
    match tree[p]
    case Dir => Entry(Rel(dir, p), DirEntry, [], "")
    case File(body) => Entry(Rel(dir, p), RegEntry, body, "")
    case Link(_) => Entry(Rel(dir, p), LinkEntry, [], "")
  }

  function Packed(tree: Tree, dir: Path, walk: seq<Path>): seq<Entry>
    requires Within(walk, tree, dir)
  {
    if walk == [] then [] else Packed(tree, dir, walk[..|walk| - 1]) + [Packed1(tree, dir, walk[|walk| - 1])]
  }

  /** tarDirectory: one entry after the other, up to the first path that fails: walking to it,
      its header, or opening and copying it. */
  method TarDirectory(tree: Tree, dir: Path, walk: seq<Path>, failing: set<Path>)
    returns (entries: seq<Entry>, ok: bool)
    requires Within(walk, tree, dir)
    ensures ok <==> forall i :: 0 <= i < |walk| ==> walk[i] !in failing
    ensures ok ==> entries == Packed(tree, dir, walk)
  {
    entries, ok := [], true;
    var i := 0;
    while i < |walk|
      invariant 0 <= i <= |walk|
      invariant entries == Packed(tree, dir, walk[..i])
      invariant forall j :: 0 <= j < i ==> walk[j] !in failing
    {
      if walk[i] in failing {
        ok := false;
        return;
      }
      PackedMore(tree, dir, walk, i);
      var p := walk[i];
      var entry := Entry(Rel(dir, p), LinkEntry, [], "");
      match tree[p] {
        case Dir => entry := entry.(kind := DirEntry);
        case File(body) => entry := entry.(kind := RegEntry, body := body);
        case Link(_) => {}
      }
      entries := entries + [entry];
      i := i + 1;
    }
    assert walk[..i] == walk;
  }

  lemma PackedMore(tree: Tree, dir: Path, walk: seq<Path>, i: nat)
    requires Within(walk, tree, dir) && i < |walk|
    ensures Packed(tree, dir, walk[..i + 1]) == Packed(tree, dir, walk[..i]) + [Packed1(tree, dir, walk[i])]
  {
    assert walk[..i + 1][..i] == walk[..i];
  }

  // ---------------------------------------------------------------- and back

  function Wrapped1(top: string, e: Entry): Item {
    Item(e.(name := top + "/" + e.name), NoFault)
  }

  /** The entries put under one top-level directory, as an undisturbed archive. */
  function Wrapped(top: string, entries: seq<Entry>): seq<Item> {
    seq(|entries|, i requires 0 <= i < |entries| => Wrapped1(top, entries[i]))
  }

  function SizeOf(tree: Tree, walk: seq<Path>): nat
    requires forall i :: 0 <= i < |walk| ==> walk[i] in tree
  {
    if walk == [] then 0
    else
      var p := walk[|walk| - 1];
      SizeOf(tree, walk[..|walk| - 1]) + (if tree[p].File? then |tree[p].body| else 0)
  }

  lemma FollowRel(dir: Path, p: Path, d: Path)
    requires dir <= p && IsClean(p[|dir|..])
    ensures Rel(dir, p) != "" && Follow(d, Split(Rel(dir, p))) == d + p[|dir|..]
  {
    var rel := Rel(dir, p);
    if p == dir {
      SplitName(".");
      assert ["."][1..] == [] && Follow(d, ["."]) == Follow(d, []) == d;
      assert d + p[|dir|..] == d;
    } else {
      var r := p[|dir|..];
      SplitJoined(r);
      SplitOfRooted(Joined(r), r);
      FollowNames(d, r);
      assert Joined(r)[1] == r[0][0];
    }
  }

  lemma SplitOfRooted(s: string, p: Path)
    requires s != "" && s[0] == '/' && Split(s) == [""] + p
    ensures Split(s[1..]) == p
  {
    assert ([""] + Split(s[1..]))[1..] == Split(s[1..]) && ([""] + p)[1..] == p;
  }

  /** The packed name of a path leads back to the same place under any destination. */
  lemma PackedNameLeadsBack(tree: Tree, dir: Path, p: Path, top: string, d: Path)
    requires Packable(tree, dir) && dir <= p && p in tree && SlashFree(top)
    ensures TargetOf(d, Wrapped1(top, Packed1(tree, dir, p)).entry) == Some(d + p[|dir|..])
  {
    AfterTop(top, Rel(dir, p));
    assert p != dir ==> dir < p;
    FollowRel(dir, p, d);
  }

  lemma WrappedFirst(tree: Tree, dir: Path, walk: seq<Path>, top: string)
    requires walk != [] && Within(walk, tree, dir)
    ensures var n := |walk| - 1;
            var last := Wrapped1(top, Packed1(tree, dir, walk[n]));
            Wrapped(top, Packed(tree, dir, walk)) == Wrapped(top, Packed(tree, dir, walk[..n])) + [last]
  {
    var n := |walk| - 1;
    assert Packed(tree, dir, walk) == Packed(tree, dir, walk[..n]) + [Packed1(tree, dir, walk[n])];
  }

  /** Moving a path from one directory to another keeps equality and containment. */
  lemma Moved(d: Path, q: Path, dir: Path, p: Path)
    requires d <= q && dir <= p
    ensures q == d + p[|dir|..] <==> dir + q[|d|..] == p
    ensures q <= d + p[|dir|..] <==> dir + q[|d|..] <= p
  {
    var r, s := q[|d|..], p[|dir|..];
    assert q == d + r && p == dir + s;
    PrefixShift(d, r, s);
    PrefixShift(dir, r, s);
  }

  lemma PrefixShift(d: Path, r: Path, s: Path)
    ensures d + r == d + s <==> r == s
    ensures d + r <= d + s <==> r <= s
  {
    assert (d + r)[|d|..] == r && (d + s)[|d|..] == s;
    if d + r <= d + s {
      assert forall i :: 0 <= i < |r| ==> r[i] == (d + r)[|d| + i] == (d + s)[|d| + i] == s[i];
    }
  }

  /** What one more entry says about a path. */
  lemma OneMoreEntry(tree: Tree, dir: Path, walk: seq<Path>, top: string, d: Path, q: Path)
    requires Packable(tree, dir) && SlashFree(top) && Within(walk, tree, dir)
    requires d <= q && walk != []
    ensures var items := Wrapped(top, Packed(tree, dir, walk));
            var before := Wrapped(top, Packed(tree, dir, walk[..|walk| - 1]));
            var last, p := walk[|walk| - 1], dir + q[|d|..];
            && FileAt(d, items, q)
               == (if p == last && tree[last].File? then Some(tree[last].body) else FileAt(d, before, q))
            && (DirAt(d, items, q) <==> (if tree[last] == Dir then p <= last else tree[last].File? && p < last)
                                        || DirAt(d, before, q))
  {
    var n := |walk| - 1;
    var last := walk[n];
    WrappedFirst(tree, dir, walk, top);
    PackedNameLeadsBack(tree, dir, last, top, d);
    var items := Wrapped(top, Packed(tree, dir, walk));
    assert items[..|items| - 1] == Wrapped(top, Packed(tree, dir, walk[..n]));
    Moved(d, q, dir, last);
  }

  /** What the wrapped entries say about a path below the destination is what the packed
      directory has there, as far as it has been visited. */
  lemma {:induction false} EntriesSayTree(tree: Tree, dir: Path, walk: seq<Path>, top: string, d: Path, q: Path)
    requires Packable(tree, dir) && SlashFree(top) && Within(walk, tree, dir)
    requires d <= q
    ensures var items, p := Wrapped(top, Packed(tree, dir, walk)), dir + q[|d|..];
            && (FileAt(d, items, q) == if p in walk && tree[p].File? then Some(tree[p].body) else None)
            && (p in walk && tree[p] == Dir ==> DirAt(d, items, q))
            && (DirAt(d, items, q) ==> p in tree && tree[p] == Dir)
    decreases |walk|
  {
    var p := dir + q[|d|..];
    if walk == [] {
      assert Wrapped(top, Packed(tree, dir, walk)) == [];
      if q == d {
        assert p == dir;
      }
    } else {
      var n := |walk| - 1;
      var last := walk[n];
      EntriesSayTree(tree, dir, walk[..n], top, d, q);
      OneMoreEntry(tree, dir, walk, top, d, q);
      InFront(walk, p);
      if p <= last && (tree[last] == Dir || p != last) {
        DirectoriesAbove(tree, dir, p, last);
      }
    }
  }

  lemma InFront(walk: seq<Path>, p: Path)
    requires walk != []
    ensures p in walk <==> p in walk[..|walk| - 1] || p == walk[|walk| - 1]
  {
  }

  /** What is above a packed path is a directory. */
  lemma {:induction false} DirectoriesAbove(tree: Tree, dir: Path, q: Path, p: Path)
    requires Packable(tree, dir) && dir <= q <= p && p in tree && (tree[p] == Dir || q != p)
    ensures q in tree && tree[q] == Dir
    decreases |p|
  {
    if q != p {
      ParentPrefix(q, p);
      DirectoriesAbove(tree, dir, q, Parent(p));
    }
  }

  lemma {:induction false} PackedSize(tree: Tree, dir: Path, walk: seq<Path>, top: string, d: Path)
    requires Packable(tree, dir) && SlashFree(top) && Within(walk, tree, dir)
    ensures TotalSize(d, Wrapped(top, Packed(tree, dir, walk))) == SizeOf(tree, walk)
    decreases |walk|
  {
    if walk == [] {
      assert Wrapped(top, Packed(tree, dir, walk)) == [];
    } else {
      var n := |walk| - 1;
      PackedSize(tree, dir, walk[..n], top, d);
      WrappedFirst(tree, dir, walk, top);
      PackedNameLeadsBack(tree, dir, walk[n], top, d);
      var items := Wrapped(top, Packed(tree, dir, walk));
      assert items[..|items| - 1] == Wrapped(top, Packed(tree, dir, walk[..n]));
    }
  }

  lemma {:induction false} PackedShape(tree: Tree, dir: Path, walk: seq<Path>, top: string, d: Path)
    requires Packable(tree, dir) && SlashFree(top) && d != [] && Within(walk, tree, dir)
    ensures var items := Wrapped(top, Packed(tree, dir, walk));
            LinkFree(items) && AllLegal(d, items) && AllSpared(d, items)
    decreases |walk|
  {
    var items := Wrapped(top, Packed(tree, dir, walk));
    if walk == [] {
      assert items == [];
    } else {
      var n := |walk| - 1;
      PackedShape(tree, dir, walk[..n], top, d);
      WrappedFirst(tree, dir, walk, top);
      PackedNameLeadsBack(tree, dir, walk[n], top, d);
      assert items[..|items| - 1] == Wrapped(top, Packed(tree, dir, walk[..n]));
      assert d <= d + walk[n][|dir|..];
      ExtractableFirst(d, items, |items| - 1, 0);
      forall i | 0 <= i < |items| ensures !items[i].entry.kind.LinkEntry? {
        assert i < |items| - 1 ==> items[i] == items[..|items| - 1][i];
      }
    }
  }

  /** Packing a directory and unpacking it under one top-level name into an empty directory
      rebuilds the same tree with the same contents, whatever the order of the visit, and
      changes nothing outside. */
  lemma RoundTrip(tree: Tree, dir: Path, walk: seq<Path>, top: string, start: Image, d: Path, limit: nat)
    requires Packable(tree, dir) && Visits(walk, tree, dir) && SlashFree(top)
    requires EmptyAt(start.tree, d) && !start.strayed && d != [] && SizeOf(tree, walk) <= limit
    ensures var r := Extracted(start, d, Wrapped(top, Packed(tree, dir, walk)), false, limit);
            && r.err.None? && !r.image.strayed
            && TouchesInside(start, r.image, d) && SameOutside(start.tree, r.image.tree, d)
            && forall rel: Path :: (d + rel in r.image.tree <==> dir + rel in tree)
                               && (dir + rel in tree ==> r.image.tree[d + rel] == tree[dir + rel])
  {
    var items := Wrapped(top, Packed(tree, dir, walk));
    PackedShape(tree, dir, walk, top, d);
    PackedSize(tree, dir, walk, top, d);
    forall q ensures !(FileAt(d, items, q).Some? && DirAt(d, items, q)) {
      if DirAt(d, items, q) {
        DirsAreBelow(d, items, q);
        EntriesSayTree(tree, dir, walk, top, d, q);
      }
    }
    ExtractsExactly(start, d, items, limit);
    StaysInside(start, d, items, false, limit);
    var r := Extracted(start, d, items, false, limit);
    forall rel: Path
      ensures d + rel in r.image.tree <==> dir + rel in tree
      ensures dir + rel in tree ==> r.image.tree[d + rel] == tree[dir + rel]
    {
      var q := d + rel;
      assert q[|d|..] == rel && d <= q && dir <= dir + rel;
      EntriesSayTree(tree, dir, walk, top, d, q);
      assert q in r.image.tree <==> FileAt(d, items, q).Some? || DirAt(d, items, q);
      if dir + rel in tree && dir < dir + rel {
        assert !tree[dir + rel].Link?;
      } else if dir + rel in tree {
        assert dir + rel == dir;
      }
    }
  }

  /** What is written for a path: its name from the packed directory, with "." for that itself,
      its kind, and the contents of a regular file alone; a link loses its target. */
  lemma PackedExactly(tree: Tree, dir: Path, p: Path)
    requires dir <= p && p in tree
    ensures var e := Packed1(tree, dir, p);
            && (p == dir ==> e.name == ".") && (p != dir ==> "/" + e.name == Joined(p[|dir|..]))
            && (e.kind.DirEntry? <==> tree[p] == Dir) && (e.kind.RegEntry? <==> tree[p].File?)
            && (e.kind.LinkEntry? <==> tree[p].Link?)
            && e.body == (if tree[p].File? then tree[p].body else []) && e.linkname == ""
  {
    if p != dir {
      assert p[|dir|..] != [];
    }
  }
}
