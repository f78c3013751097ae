/** What unpacking an archive does and does not do: containment, the byte budget, the
    resulting tree, and exactly when it succeeds. */
module Extraction {
  import opened Basics
  import opened Wrappers
  import opened Paths
  import opened Archive

  // ---------------------------------------------------------------- prefixes and directories

  lemma ParentPrefix(q: Path, p: Path)
    ensures q <= p <==> q == p || (p != [] && q <= Parent(p))
  {
  }

  lemma Comparable(a: Path, b: Path, p: Path)
    requires a <= p && b <= p
    ensures a <= b || b <= a
  {
  }

  lemma {:induction false} WithDirsAdds(tree: Tree, p: Path, q: Path)
    ensures q in WithDirs(tree, p) <==> q in tree || q <= p
    ensures q in WithDirs(tree, p) ==> WithDirs(tree, p)[q] == if q in tree then tree[q] else Dir
    decreases |p|
  {
    ParentPrefix(q, p);
    if p != [] {
      WithDirsAdds(tree, Parent(p), q);
      WithDirsAdds(tree, Parent(p), p);
    }
  }

  /** Every prefix of `p` that exists is a directory exactly when nothing is in the way. */
  lemma {:induction false} NoObstacleExactly(tree: Tree, p: Path)
    ensures Obstacle(tree, p).None? <==> forall q :: q <= p && q in tree ==> tree[q] == Dir
    decreases |p|
  {
    if p != [] {
      NoObstacleExactly(tree, Parent(p));
    }
    forall q | q in tree ensures q <= p <==> q == p || (p != [] && q <= Parent(p)) {
      ParentPrefix(q, p);
    }
  }

  /** `d` and everything above it are directories. */
  ghost predicate Chain(tree: Tree, d: Path) {
    forall q :: q <= d ==> q in tree && tree[q] == Dir
  }

  // ---------------------------------------------------------------- containment

  /** From `i` to `j` calls were made to create or write only at or below `d`. */
  ghost predicate TouchesInside(i: Image, j: Image, d: Path) {
    forall p :: p in j.touched ==> p in i.touched || d <= p
  }

  /** Outside `d` the two trees are the same. */
  ghost predicate SameOutside(i: Tree, j: Tree, d: Path) {
    forall q :: !(d <= q) ==> (q in j <==> q in i) && (q in i ==> j[q] == i[q])
  }

  /** Both, of the tree as far as it is known, and directories stay directories. */
  ghost predicate Confined(i: Image, j: Image, d: Path) {
    && TouchesInside(i, j, d) && SameOutside(i.tree, j.tree, d)
    && (forall q :: q in i.tree && i.tree[q] == Dir ==> q in j.tree && j.tree[q] == Dir)
  }

  lemma ChainStays(i: Image, j: Image, d: Path)
    requires Chain(i.tree, d) && Confined(i, j, d)
    ensures Chain(j.tree, d)
  {
  }

  lemma MakeDirsConfined(r: Run, p: Path, fault: Fault, d: Path)
    requires Chain(r.image.tree, d) && (d <= p || p <= d)
    ensures Confined(r.image, MakeDirs(r, p, fault).image, d)
  {
    var q := if fault.OsFails? then p[..Min(fault.depth, |p|)] else p;
    if d <= p {
      Comparable(q, d, p);
    }
    WithDirsConfined(r.image, q, d);
  }

  lemma WithDirsConfined(image: Image, p: Path, d: Path)
    requires Chain(image.tree, d) && (d <= p || p <= d)
    ensures Confined(image, WithDirsMade(image, p), d)
  {
    var tree := image.tree;
    if !(d <= p) {
      NoObstacleExactly(tree, p);
    }
    forall q
      ensures q in WithDirs(tree, p) <==> q in tree || q <= p
      ensures q in WithDirs(tree, p) ==> WithDirs(tree, p)[q] == if q in tree then tree[q] else Dir
      ensures q in WithDirs(tree, p) && q !in tree ==> d <= q
    {
      WithDirsAdds(tree, p, q);
      if q <= p && d <= p {
        Comparable(q, d, p);
      }
    }
  }

  lemma WriteFileConfined(r: Run, p: Path, body: Bytes, fault: Fault, limit: nat, d: Path)
    requires r.total <= limit && Chain(r.image.tree, d) && d <= p
    ensures Confined(r.image, WriteFile(r, p, body, fault, limit).image, d)
  {
  }

  lemma MakeLinkConfined(r: Run, p: Path, linkname: string, fault: Fault, d: Path)
    requires Chain(r.image.tree, d) && d <= p
    ensures Confined(r.image, MakeLink(r, p, linkname, fault).image, d)
  {
  }

  lemma ConfinedTransitive(i: Image, j: Image, k: Image, d: Path)
    requires Confined(i, j, d) && Confined(j, k, d)
    ensures Confined(i, k, d)
  {
  }

  lemma StepConfined(r: Run, d: Path, item: Item, limit: nat)
    requires r.err.None? && r.total <= limit && Chain(r.image.tree, d)
    ensures Confined(r.image, Step(r, d, item, limit).image, d)
  {
    var e := item.entry;
    var t := TargetOf(d, e);
    if t.Some? && Legal(t.value, d) {
      var p := t.value;
      match e.kind
      case DirEntry => MakeDirsConfined(r, p, item.fault, d);
      case RegEntry =>
        ParentPrefix(d, p);
        MakeDirsConfined(r, Parent(p), item.fault, d);
        var made := MakeDirs(r, Parent(p), item.fault);
        ChainStays(r.image, made.image, d);
        if made.err.None? {
          WriteFileConfined(made, p, e.body, item.fault, limit, d);
          ConfinedTransitive(r.image, made.image, Step(r, d, item, limit).image, d);
        }
      case LinkEntry => MakeLinkConfined(r, p, e.linkname, item.fault, d);
      case OtherEntry =>
    }
  }

  lemma {:induction false} RunConfined(start: Image, d: Path, items: seq<Item>, limit: nat)
    requires Chain(start.tree, d)
    ensures Confined(start, After(start, d, items, limit).image, d)
    decreases |items|
  {
    if items != [] {
      var n := |items| - 1;
      RunConfined(start, d, items[..n], limit);
      var r := After(start, d, items[..n], limit);
      if r.err.None? {
        ChainStays(start, r.image, d);
        StepConfined(r, d, items[n], limit);
      }
    }
  }

  /** On every run, successful or not, whatever the names, links and failures, every path given
      to a call that creates or writes is at or below the destination; and nothing outside it
      changes as long as no call's path has gone through a link. */
  lemma StaysInside(start: Image, d: Path, items: seq<Item>, corrupt: bool, limit: nat)
    requires Chain(start.tree, d)
    ensures var image := Extracted(start, d, items, corrupt, limit).image;
            TouchesInside(start, image, d) && (!image.strayed ==> SameOutside(start.tree, image.tree, d))
  {
    RunConfined(start, d, items, limit);
  }

  // ---------------------------------------------------------------- links

  ghost predicate NoLinks(tree: Tree, d: Path) {
    forall q :: d <= q && q in tree ==> !tree[q].Link?
  }

  /** The link of entry `a` is on the way of entry `b`, or at its end if `b` is no link. */
  predicate OnTheWay(d: Path, a: Entry, b: Entry) {
    && a.kind.LinkEntry? && !b.kind.OtherEntry? && TargetOf(d, a).Some? && TargetOf(d, b).Some?
    && TargetOf(d, a).value <= TargetOf(d, b).value
    && (b.kind.LinkEntry? ==> TargetOf(d, a).value != TargetOf(d, b).value)
  }

  /** No entry goes through the link of an earlier one. */
  ghost predicate Straight(d: Path, items: seq<Item>) {
    forall i, j :: 0 <= i < j < |items| ==> !OnTheWay(d, items[i].entry, items[j].entry)
  }

  /** The links below `d` are those of the entries so far. */
  ghost predicate LinksOf(tree: Tree, d: Path, items: seq<Item>) {
    forall q :: d <= q && q in tree && tree[q].Link? ==>
      exists i :: 0 <= i < |items| && items[i].entry.kind.LinkEntry? && TargetOf(d, items[i].entry) == Some(q)
  }

  /** Nothing on the way to `p`, nor at `p` itself, is a link. */
  ghost predicate Clear(tree: Tree, p: Path) {
    forall q :: q <= p && q in tree ==> !tree[q].Link?
  }

  lemma ClearAbove(tree: Tree, p: Path, q: Path)
    requires Clear(tree, p) && q <= p
    ensures Clear(tree, q)
  {
  }

  lemma ClearIsNotElsewhere(tree: Tree, p: Path)
    requires Clear(tree, p)
    ensures Obstacle(tree, p).Some? ==> !Obstacle(tree, p).value.Link?
    ensures !MkdirAll(tree, p).Elsewhere?
  {
    if Obstacle(tree, p).Some? {
      var q := ObstacleStands(tree, p);
    }
  }

  lemma DirsStayClear(r: Run, p: Path, fault: Fault)
    requires Clear(r.image.tree, p) && !r.image.strayed
    ensures var image := MakeDirs(r, p, fault).image;
            && !image.strayed
            && forall q :: q in image.tree && image.tree[q].Link? ==> q in r.image.tree && r.image.tree[q].Link?
  {
    var q := if fault.OsFails? then p[..Min(fault.depth, |p|)] else p;
    ClearAbove(r.image.tree, p, q);
    ClearIsNotElsewhere(r.image.tree, q);
    forall x ensures x in WithDirs(r.image.tree, q) && WithDirs(r.image.tree, q)[x].Link? ==>
                       x in r.image.tree && r.image.tree[x].Link?
    {
      WithDirsAdds(r.image.tree, q, x);
    }
  }

  lemma FileStaysClear(r: Run, p: Path, body: Bytes, fault: Fault, limit: nat)
    requires r.total <= limit && Clear(r.image.tree, p) && !r.image.strayed
    ensures var image := WriteFile(r, p, body, fault, limit).image;
            && !image.strayed
            && forall q :: q in image.tree && image.tree[q].Link? ==> q in r.image.tree && r.image.tree[q].Link?
  {
    ClearAbove(r.image.tree, p, Parent(p));
    ClearIsNotElsewhere(r.image.tree, Parent(p));
  }

  lemma LinkStaysClear(r: Run, p: Path, linkname: string, fault: Fault)
    requires Clear(r.image.tree, Parent(p)) && !r.image.strayed
    ensures var image := MakeLink(r, p, linkname, fault).image;
            && !image.strayed
            && forall q :: q in image.tree && image.tree[q].Link? ==>
                 q == p || (q in r.image.tree && r.image.tree[q].Link?)
  {
    ClearIsNotElsewhere(r.image.tree, Parent(p));
  }

  /** What an entry finds on its way when no earlier link is there. */
  lemma WayIsClear(tree: Tree, d: Path, items: seq<Item>, n: nat, p: Path)
    requires n < |items| && Straight(d, items) && Chain(tree, d) && LinksOf(tree, d, items[..n])
    requires d <= p && TargetOf(d, items[n].entry) == Some(p) && !items[n].entry.kind.OtherEntry?
    ensures if items[n].entry.kind.LinkEntry? then Clear(tree, Parent(p)) else Clear(tree, p)
  {
    forall q | q in tree && q <= p && tree[q].Link? ensures items[n].entry.kind.LinkEntry? && q == p {
      Comparable(q, d, p);
      var i :| 0 <= i < n && items[..n][i].entry.kind.LinkEntry? && TargetOf(d, items[..n][i].entry) == Some(q);
      assert !OnTheWay(d, items[i].entry, items[n].entry);
    }
    if items[n].entry.kind.LinkEntry? {
      forall q | q in tree && q <= Parent(p) ensures !tree[q].Link? {
        assert q <= p && (p != [] ==> q != p);
      }
    }
  }

  lemma LinksOfMore(tree: Tree, tree': Tree, d: Path, items: seq<Item>, n: nat)
    requires n < |items| && LinksOf(tree, d, items[..n])
    requires forall q :: q in tree' && tree'[q].Link? ==>
               || (q in tree && tree[q].Link?)
               || (items[n].entry.kind.LinkEntry? && TargetOf(d, items[n].entry) == Some(q))
    ensures LinksOf(tree', d, items[..n + 1])
  {
    var all := items[..n + 1];
    forall q | d <= q && q in tree' && tree'[q].Link?
      ensures exists i :: 0 <= i < |all| && all[i].entry.kind.LinkEntry? && TargetOf(d, all[i].entry) == Some(q)
    {
      if q in tree && tree[q].Link? {
        var i :| 0 <= i < n && items[..n][i].entry.kind.LinkEntry? && TargetOf(d, items[..n][i].entry) == Some(q);
        assert all[i] == items[..n][i];
      } else {
        assert all[n] == items[n];
      }
    }
  }

  lemma StepStaysStraight(r: Run, d: Path, items: seq<Item>, n: nat, limit: nat)
    requires r.err.None? && r.total <= limit && Chain(r.image.tree, d) && !r.image.strayed
    requires n < |items| && Straight(d, items) && LinksOf(r.image.tree, d, items[..n])
    ensures var r' := Step(r, d, items[n], limit);
            !r'.image.strayed && LinksOf(r'.image.tree, d, items[..n + 1])
  {
    var e, fault := items[n].entry, items[n].fault;
    var t := TargetOf(d, e);
    var r' := Step(r, d, items[n], limit);
    if t.Some? && Legal(t.value, d) && !e.kind.OtherEntry? {
      WayIsClear(r.image.tree, d, items, n, t.value);
      match e.kind {
        case DirEntry => DirsStayClear(r, t.value, fault);
        case RegEntry =>
          ClearAbove(r.image.tree, t.value, Parent(t.value));
          DirsStayClear(r, Parent(t.value), fault);
          var made := MakeDirs(r, Parent(t.value), fault);
          if made.err.None? {
            FileStaysClear(made, t.value, e.body, fault, limit);
          }
        case LinkEntry => LinkStaysClear(r, t.value, e.linkname, fault);
      }
    }
    LinksOfMore(r.image.tree, r'.image.tree, d, items, n);
  }

  /** An archive in which no entry goes through an earlier link never strays from a directory
      without links: so it changes nothing outside, whatever its links say. */
  lemma {:induction false} StraightNeverStrays(start: Image, d: Path, items: seq<Item>, limit: nat)
    requires Chain(start.tree, d) && NoLinks(start.tree, d) && !start.strayed && Straight(d, items)
    ensures var image := After(start, d, items, limit).image;
            && !image.strayed && SameOutside(start.tree, image.tree, d)
            && (After(start, d, items, limit).err.None? ==> LinksOf(image.tree, d, items))
    decreases |items|
  {
    RunConfined(start, d, items, limit);
    if items != [] {
      var n := |items| - 1;
      assert Straight(d, items[..n]) && items[..n + 1] == items;
      StraightNeverStrays(start, d, items[..n], limit);
      RunConfined(start, d, items[..n], limit);
      var r := After(start, d, items[..n], limit);
      if r.err.None? {
        ChainStays(start, r.image, d);
        StepStaysStraight(r, d, items, n, limit);
      }
    }
  }

  predicate LinkInTheWay(tree: Tree, p: Path) {
    var o := Obstacle(tree, p);
    o.Some? && o.value.Link?
  }

  /** The first thing on the entry's way that is no directory, its end included unless it is a
      link itself, is a link. */
  predicate MeetsLink(tree: Tree, d: Path, e: Entry) {
    TargetOf(d, e).Some? &&
    match e.kind
    case LinkEntry => LinkInTheWay(tree, Parent(TargetOf(d, e).value))
    case OtherEntry => false
    case _ => LinkInTheWay(tree, TargetOf(d, e).value)
  }

  lemma {:induction false} SameObstacle(tree: Tree, p: Path, q: Path)
    requires q <= p && Obstacle(tree, p).None?
    ensures Obstacle(WithDirs(tree, p), q).None?
    decreases |q|
  {
    NoObstacleExactly(tree, p);
    WithDirsAdds(tree, p, q);
    if q != [] {
      ParentPrefix(Parent(q), p);
      SameObstacle(tree, p, Parent(q));
    }
  }

  lemma FileStraysExactly(r: Run, d: Path, p: Path, body: Bytes, fault: Fault, limit: nat)
    requires r.total <= limit && r.err.None? && !r.image.strayed && p != []
    requires var made := MakeDirs(r, Parent(p), fault);
             made.err.None? && WriteFile(made, p, body, fault, limit).err.None?
    ensures WriteFile(MakeDirs(r, Parent(p), fault), p, body, fault, limit).image.strayed
       <==> LinkInTheWay(r.image.tree, p)
  {
    var tree := r.image.tree;
    if Obstacle(tree, Parent(p)).None? {
      SameObstacle(tree, Parent(p), Parent(p));
      WithDirsAdds(tree, Parent(p), p);
      ParentPrefix(p, Parent(p));
    }
  }

  /** An entry that works goes astray exactly when it meets a link. */
  lemma StepStraysExactly(r: Run, d: Path, item: Item, limit: nat)
    requires r.err.None? && r.total <= limit && !r.image.strayed && d != []
    requires Step(r, d, item, limit).err.None?
    ensures Step(r, d, item, limit).image.strayed <==> MeetsLink(r.image.tree, d, item.entry)
  {
    var t := TargetOf(d, item.entry);
    if t.Some? && item.entry.kind.RegEntry? {
      FileStraysExactly(r, d, t.value, item.entry.body, item.fault, limit);
    }
  }

  lemma StaysAstray(r: Run, d: Path, item: Item, limit: nat)
    requires r.err.None? && r.total <= limit && r.image.strayed
    ensures Step(r, d, item, limit).image.strayed
  {
  }

  /** Some entry met a link in the tree as it then was. */
  predicate SomeMetLink(start: Image, d: Path, items: seq<Item>, limit: nat)
    decreases |items|
  {
    items != [] &&
    var before := items[..|items| - 1];
    || SomeMetLink(start, d, before, limit)
    || MeetsLink(After(start, d, before, limit).image.tree, d, items[|items| - 1].entry)
  }

  /** An extraction that works has gone astray exactly when one of its entries met a link. */
  lemma {:induction false} StraysExactly(start: Image, d: Path, items: seq<Item>, limit: nat)
    requires !start.strayed && d != [] && After(start, d, items, limit).err.None?
    ensures After(start, d, items, limit).image.strayed <==> SomeMetLink(start, d, items, limit)
    decreases |items|
  {
    if items != [] {
      var last := |items| - 1;
      var r := After(start, d, items[..last], limit);
      StraysExactly(start, d, items[..last], limit);
      if r.image.strayed {
        StaysAstray(r, d, items[last], limit);
      } else {
        StepStraysExactly(r, d, items[last], limit);
      }
    }
  }

  /** A link with an absolute target, or one that does not lead properly below the destination
      by its text, fails and leaves everything as it is. */
  lemma BadLinkFails(r: Run, d: Path, item: Item, p: Path, limit: nat)
    requires r.err.None? && r.total <= limit
    requires item.entry.kind.LinkEntry? && TargetOf(d, item.entry) == Some(p) && Legal(p, d)
    requires IsAbs(item.entry.linkname) || d == [] || !(d < Follow(Parent(p), Split(item.entry.linkname)))
    ensures var r' := Step(r, d, item, limit);
            && r'.image == r.image && r'.total == r.total
            && r'.err == Some(if IsAbs(item.entry.linkname) then AbsoluteLink else EscapingLink)
  {
  }

  /** A link for a path that is there already leaves everything as it is, without an error. */
  lemma LinkOverExisting(r: Run, d: Path, item: Item, p: Path, limit: nat)
    requires r.err.None? && r.total <= limit && !r.image.strayed
    requires item.entry.kind.LinkEntry? && TargetOf(d, item.entry) == Some(p) && Legal(p, d) && !item.fault.OsFails?
    requires d != [] && !IsAbs(item.entry.linkname) && d < Follow(Parent(p), Split(item.entry.linkname))
    requires p in r.image.tree && !LinkInTheWay(r.image.tree, Parent(p))
    ensures Step(r, d, item, limit) == r
  {
  }

  /** A link that passes, with its directory there and nothing in its place, is made as it says. */
  lemma GoodLinkMade(r: Run, d: Path, item: Item, p: Path, limit: nat)
    requires r.err.None? && r.total <= limit && !r.image.strayed
    requires item.entry.kind.LinkEntry? && TargetOf(d, item.entry) == Some(p) && d < p && !item.fault.OsFails?
    requires d != [] && !IsAbs(item.entry.linkname) && d < Follow(Parent(p), Split(item.entry.linkname))
    requires Chain(r.image.tree, Parent(p)) && p !in r.image.tree
    ensures var r' := Step(r, d, item, limit);
            r'.err.None? && r'.image.tree == r.image.tree[p := Link(item.entry.linkname)]
  {
    NoObstacleExactly(r.image.tree, Parent(p));
  }

  /** An entry at `q` that is a link to `linkname`, which is relative and leads by its text
      properly below `d`. */
  predicate Links(d: Path, e: Entry, q: Path, linkname: string) {
    && e.kind.LinkEntry? && TargetOf(d, e) == Some(q) && e.linkname == linkname
    && !IsAbs(linkname) && d < Follow(Parent(q), Split(linkname))
  }

  lemma StepLinks(r: Run, d: Path, item: Item, limit: nat, q: Path)
    requires r.err.None? && r.total <= limit
    requires var tree := Step(r, d, item, limit).image.tree; q in tree && tree[q].Link?
    ensures var tree := Step(r, d, item, limit).image.tree;
            || (q in r.image.tree && r.image.tree[q] == tree[q])
            || Links(d, item.entry, q, tree[q].target)
  {
    var t := TargetOf(d, item.entry);
    if t.Some? && Legal(t.value, d) {
      match item.entry.kind {
        case DirEntry => DirsAddNoLink(r, t.value, item.fault, q);
        case RegEntry => DirsAddNoLink(r, Parent(t.value), item.fault, q);
        case LinkEntry => {}
        case OtherEntry => {}
      }
    }
  }

  lemma DirsAddNoLink(r: Run, p: Path, fault: Fault, q: Path)
    ensures var tree := MakeDirs(r, p, fault).image.tree;
            q in tree && tree[q].Link? ==> q in r.image.tree && r.image.tree[q] == tree[q]
  {
    WithDirsAdds(r.image.tree, if fault.OsFails? then p[..Min(fault.depth, |p|)] else p, q);
  }

  /** On every run, every link that is there afterwards and was not before is the link of an
      entry for that path, with the entry's text, which is relative and leads by its text
      properly below the destination. */
  lemma {:induction false} LinksAreEntries(start: Image, d: Path, items: seq<Item>, limit: nat, q: Path)
    requires var tree := After(start, d, items, limit).image.tree; q in tree && tree[q].Link?
    ensures var tree := After(start, d, items, limit).image.tree;
            || (q in start.tree && start.tree[q] == tree[q])
            || exists i :: 0 <= i < |items| && Links(d, items[i].entry, q, tree[q].target)
    decreases |items|
  {
    if items != [] {
      var n := |items| - 1;
      var before := items[..n];
      var r := After(start, d, before, limit);
      if r.err.None? {
        StepLinks(r, d, items[n], limit, q);
      }
      if q in r.image.tree && r.image.tree[q] == After(start, d, items, limit).image.tree[q] {
        LinksAreEntries(start, d, before, limit, q);
        if i :| 0 <= i < n && Links(d, before[i].entry, q, r.image.tree[q].target) {
          assert items[i] == before[i];
        }
      }
    }
  }

  /** `name` is `rel` under a top-level directory. */
  predicate IsUnder(name: string, top: string, rel: string) {
    SlashFree(top) && rel != "" && name == top + "/" + rel
  }

  /** An entry is for a path exactly if its name is that path's way from the destination, under
      one more component in front; entries without such a name are for none. */
  lemma TargetExactly(d: Path, e: Entry, top: string, rel: string)
    ensures IsUnder(e.name, top, rel) ==> TargetOf(d, e) == Some(Follow(d, Split(rel)))
    ensures TargetOf(d, e).Some? ==> exists t, r :: IsUnder(e.name, t, r)
  {
    if IsUnder(e.name, top, rel) {
      AfterTop(top, rel);
    }
    if TargetOf(d, e).Some? {
      var t := SlashFound(e.name);
      assert IsUnder(e.name, t, AfterSlash(e.name).value);
    }
  }

  lemma {:induction false} SlashFound(name: string) returns (top: string)
    requires AfterSlash(name).Some?
    ensures SlashFree(top) && name == top + "/" + AfterSlash(name).value
    decreases |name|
  {
    if name[0] == '/' {
      top := "";
    } else {
      var rest := SlashFound(name[1..]);
      top := [name[0]] + rest;
      assert name == [name[0]] + name[1..];
    }
  }

  lemma {:induction false} AfterTop(top: string, rel: string)
    requires SlashFree(top)
    ensures AfterSlash(top + "/" + rel) == Some(rel)
  {
    var s := top + "/" + rel;
    if top == "" {
      assert s[1..] == rel;
    } else {
      assert s[1..] == top[1..] + "/" + rel;
      AfterTop(top[1..], rel);
    }
  }

  // ---------------------------------------------------------------- the byte budget

  predicate Writes(d: Path, item: Item) {
    item.entry.kind.RegEntry? && TargetOf(d, item.entry).Some?
  }

  /** Bytes of all the regular files in the archive. */
  function TotalSize(d: Path, items: seq<Item>): nat
    decreases |items|
  {
    if items == [] then 0
    else
      var last := items[|items| - 1];
      TotalSize(d, items[..|items| - 1]) + (if Writes(d, last) then |last.entry.body| else 0)
  }

  lemma StepCounts(r: Run, d: Path, item: Item, limit: nat)
    requires r.err.None? && r.total <= limit
    ensures var r' := Step(r, d, item, limit);
            var size := if Writes(d, item) then |item.entry.body| else 0;
            && r.image.bytes <= r'.image.bytes <= r.image.bytes + limit - r.total + 1
            && (r'.err.None? ==> r'.total == r.total + size && r'.image.bytes == r.image.bytes + size)
            && (r'.err == Some(TooLarge) ==> r.total + size > limit)
  {
  }

  /** The counter stays within the limit at every loop head and counts every byte written; at
      most one byte more than the limit is ever written; success means all of every file was
      written, and the size error means the files are too large. */
  lemma {:induction false} BudgetIsExact(start: Image, d: Path, items: seq<Item>, limit: nat)
    ensures var r := After(start, d, items, limit);
            && start.bytes <= r.image.bytes <= start.bytes + limit + 1
            && (r.err.None? ==> r.image.bytes - start.bytes == r.total == TotalSize(d, items) <= limit)
            && (r.err == Some(TooLarge) ==> TotalSize(d, items) > limit)
    decreases |items|
  {
    if items != [] {
      var n := |items| - 1;
      BudgetIsExact(start, d, items[..n], limit);
      var r := After(start, d, items[..n], limit);
      if r.err.None? {
        StepCounts(r, d, items[n], limit);
      }
    }
  }

  // ---------------------------------------------------------------- the resulting tree

  ghost predicate LinkFree(items: seq<Item>) {
    forall i :: 0 <= i < |items| ==> !items[i].entry.kind.LinkEntry?
  }

  /** The contents of the last regular entry for `q`. */
  function FileAt(d: Path, items: seq<Item>, q: Path): Option<Bytes>
    decreases |items|
  {
    if items == [] then None
    else
      var last := items[|items| - 1];
      if Writes(d, last) && TargetOf(d, last.entry).value == q then Some(last.entry.body)
      else FileAt(d, items[..|items| - 1], q)
  }

  predicate Implies(d: Path, e: Entry, q: Path) {
    && TargetOf(d, e).Some? && d <= q
    && match e.kind
       case DirEntry => q <= TargetOf(d, e).value
       case RegEntry => q < TargetOf(d, e).value
       case _ => false
  }

  /** `q` is the destination, or a directory that an entry names or needs. */
  predicate DirAt(d: Path, items: seq<Item>, q: Path)
    decreases |items|
  {
    if items == [] then q == d
    else Implies(d, items[|items| - 1].entry, q) || DirAt(d, items[..|items| - 1], q)
  }

  ghost predicate EmptyAt(tree: Tree, d: Path) {
    Chain(tree, d) && forall q :: d < q ==> q !in tree
  }

  /** The tree below `d` is what the entries say, each file with its full contents. */
  ghost predicate Built(tree: Tree, d: Path, items: seq<Item>) {
    forall q :: d <= q ==>
      && (q in tree <==> FileAt(d, items, q).Some? || DirAt(d, items, q))
      && (FileAt(d, items, q).Some? ==> !DirAt(d, items, q) && tree[q] == File(FileAt(d, items, q).value))
      && (DirAt(d, items, q) ==> tree[q] == Dir)
  }

  /** No path is both a file and a directory. */
  ghost predicate Consistent(d: Path, items: seq<Item>) {
    forall q :: !(FileAt(d, items, q).Some? && DirAt(d, items, q))
  }

  ghost predicate AllLegal(d: Path, items: seq<Item>) {
    forall i :: 0 <= i < |items| && TargetOf(d, items[i].entry).Some? ==> Legal(TargetOf(d, items[i].entry).value, d)
  }

  /** The operating system does not fail the calls made for an entry. */
  predicate Spared(d: Path, item: Item) {
    TargetOf(d, item.entry).Some? ==>
      match item.entry.kind
      case DirEntry => !item.fault.OsFails?
      case RegEntry => item.fault.NoFault?
      case _ => true
  }

  ghost predicate AllSpared(d: Path, items: seq<Item>) {
    forall i :: 0 <= i < |items| ==> Spared(d, items[i])
  }

  lemma {:induction false} ObstacleStands(tree: Tree, p: Path) returns (q: Path)
    requires Obstacle(tree, p).Some?
    ensures q <= p && q in tree && tree[q] == Obstacle(tree, p).value && tree[q] != Dir
    decreases |p|
  {
    if p != [] && Obstacle(tree, Parent(p)).Some? {
      q := ObstacleStands(tree, Parent(p));
      ParentPrefix(q, p);
    } else {
      q := p;
    }
  }

  /** In a tree built so far, directories can be made down to `p` exactly when no file is on
      the way, and the tree then has those directories and nothing else new. */
  lemma MkdirInBuilt(tree: Tree, d: Path, items: seq<Item>, p: Path)
    requires Chain(tree, d) && Built(tree, d, items) && d <= p
    ensures MkdirAll(tree, p).Done? <==> forall q :: d <= q <= p ==> FileAt(d, items, q).None?
    ensures !MkdirAll(tree, p).Done? ==> MkdirAll(tree, p).Refused?
    ensures MkdirAll(tree, p).Done? ==>
              forall q :: (q in WithDirs(tree, p) <==> q in tree || (d <= q <= p))
                       && (q in WithDirs(tree, p) ==> WithDirs(tree, p)[q] == if q in tree then tree[q] else Dir)
  {
    NoObstacleExactly(tree, p);
    if Obstacle(tree, p).Some? {
      var q := ObstacleStands(tree, p);
      Comparable(q, d, p);
      assert d <= q <= p && FileAt(d, items, q).Some?;
      assert exists x :: d <= x <= p && FileAt(d, items, x).Some?;
    } else {
      forall q | d <= q <= p ensures FileAt(d, items, q).None? {
        assert q in tree ==> tree[q] == Dir;
      }
      forall q
        ensures q in WithDirs(tree, p) <==> q in tree || (d <= q <= p)
        ensures q in WithDirs(tree, p) ==> WithDirs(tree, p)[q] == if q in tree then tree[q] else Dir
      {
        WithDirsAdds(tree, p, q);
        if q <= p {
          Comparable(q, d, p);
        }
      }
    }
  }

  lemma {:induction false} DirsAreBelow(d: Path, items: seq<Item>, q: Path)
    requires DirAt(d, items, q)
    ensures d <= q
    decreases |items|
  {
    if items != [] && !Implies(d, items[|items| - 1].entry, q) {
      DirsAreBelow(d, items[..|items| - 1], q);
    }
  }

  lemma BuiltIsConsistent(tree: Tree, d: Path, items: seq<Item>)
    requires Built(tree, d, items)
    ensures Consistent(d, items)
  {
    forall q ensures !(FileAt(d, items, q).Some? && DirAt(d, items, q)) {
      if DirAt(d, items, q) {
        DirsAreBelow(d, items, q);
      }
    }
  }

  /** What a directory entry for `p` needs: no file at `p` or above it. */
  lemma DirConsistent(d: Path, items: seq<Item>, last: Item, p: Path)
    requires Consistent(d, items) && last.entry.kind.DirEntry? && TargetOf(d, last.entry) == Some(p)
    ensures Consistent(d, items + [last]) <==> forall q :: d <= q <= p ==> FileAt(d, items, q).None?
    ensures forall q :: FileAt(d, items + [last], q) == FileAt(d, items, q)
    ensures forall q :: DirAt(d, items + [last], q) <==> (d <= q && q <= p) || DirAt(d, items, q)
  {
    var all := items + [last];
    assert all[..|all| - 1] == items;
    forall q
      ensures FileAt(d, all, q) == FileAt(d, items, q)
      ensures DirAt(d, all, q) <==> (d <= q && q <= p) || DirAt(d, items, q)
      ensures !(FileAt(d, all, q).Some? && DirAt(d, all, q)) <==> (d <= q <= p ==> FileAt(d, items, q).None?)
    {
    }
    if Consistent(d, all) {
      forall q | d <= q <= p ensures FileAt(d, items, q).None? {
        assert !(FileAt(d, all, q).Some? && DirAt(d, all, q));
      }
    } else {
      var q :| FileAt(d, all, q).Some? && DirAt(d, all, q);
      assert !(FileAt(d, items, q).Some? && DirAt(d, items, q));
      assert FileAt(d, items, q).Some? && d <= q <= p;
      assert exists x :: d <= x <= p && FileAt(d, items, x).Some?;
    }
  }

  /** What a regular entry for `p` needs: no directory at `p` and no file above it. */
  lemma RegConsistent(d: Path, items: seq<Item>, last: Item, p: Path)
    requires Consistent(d, items) && last.entry.kind.RegEntry? && TargetOf(d, last.entry) == Some(p) && p != []
    ensures Consistent(d, items + [last])
       <==> !DirAt(d, items, p) && forall q :: d <= q <= Parent(p) ==> FileAt(d, items, q).None?
    ensures forall q :: FileAt(d, items + [last], q) == if q == p then Some(last.entry.body) else FileAt(d, items, q)
    ensures forall q :: DirAt(d, items + [last], q) <==> (d <= q && q <= Parent(p)) || DirAt(d, items, q)
  {
    var all := items + [last];
    assert all[..|all| - 1] == items;
    forall q
      ensures FileAt(d, all, q) == if q == p then Some(last.entry.body) else FileAt(d, items, q)
      ensures DirAt(d, all, q) <==> (d <= q && q <= Parent(p)) || DirAt(d, items, q)
      ensures !(FileAt(d, all, q).Some? && DirAt(d, all, q))
         <==> (q == p ==> !DirAt(d, items, p)) && (d <= q <= Parent(p) ==> FileAt(d, items, q).None?)
    {
      ParentPrefix(q, p);
    }
    if Consistent(d, all) {
      assert !(FileAt(d, all, p).Some? && DirAt(d, all, p));
      forall q | d <= q <= Parent(p) ensures FileAt(d, items, q).None? {
        assert !(FileAt(d, all, q).Some? && DirAt(d, all, q));
      }
    } else {
      var q :| FileAt(d, all, q).Some? && DirAt(d, all, q);
      assert !(FileAt(d, items, q).Some? && DirAt(d, items, q));
      assert q != p ==> FileAt(d, items, q).Some? && d <= q <= Parent(p);
      if q != p {
        assert exists x :: d <= x <= Parent(p) && FileAt(d, items, x).Some?;
      }
    }
  }

  /** One directory entry, on a tree built so far. */
  lemma DirStep(r: Run, d: Path, items: seq<Item>, last: Item, p: Path, limit: nat)
    requires r.err.None? && r.total <= limit && !r.image.strayed
    requires Chain(r.image.tree, d) && Built(r.image.tree, d, items)
    requires last.entry.kind.DirEntry? && TargetOf(d, last.entry) == Some(p) && d <= p && Legal(p, d)
    requires !last.fault.OsFails?
    ensures var r' := Step(r, d, last, limit);
            && (r'.err.None? <==> Consistent(d, items + [last]))
            && (r'.err.None? ==> Built(r'.image.tree, d, items + [last]))
  {
    BuiltIsConsistent(r.image.tree, d, items);
    DirConsistent(d, items, last, p);
    MkdirInBuilt(r.image.tree, d, items, p);
  }

  /** Creating a file, once its directory has been made in a tree built so far. */
  lemma CreateInBuilt(tree: Tree, d: Path, items: seq<Item>, p: Path)
    requires Chain(tree, d) && Built(tree, d, items) && d < p && MkdirAll(tree, Parent(p)).Done?
    ensures Create(WithDirs(tree, Parent(p)), p).Done? <==> !DirAt(d, items, p)
    ensures !Create(WithDirs(tree, Parent(p)), p).Done? ==> Create(WithDirs(tree, Parent(p)), p).Refused?
  {
    ParentPrefix(d, p);
    MkdirInBuilt(tree, d, items, Parent(p));
    var t := WithDirs(tree, Parent(p));
    NoObstacleExactly(tree, Parent(p));
    NoObstacleExactly(t, Parent(p));
    assert p in t <==> p in tree;
  }

  /** A regular entry that no link and no fault is in the way of. */
  lemma RegShape(r: Run, d: Path, last: Item, p: Path, limit: nat)
    requires r.err.None? && r.total <= limit && !r.image.strayed
    requires last.entry.kind.RegEntry? && TargetOf(d, last.entry) == Some(p) && Legal(p, d) && last.fault.NoFault?
    requires var tree := r.image.tree;
             && !MkdirAll(tree, Parent(p)).Elsewhere?
             && (MkdirAll(tree, Parent(p)).Done? ==> !Create(WithDirs(tree, Parent(p)), p).Elsewhere?)
    ensures var r', tree := Step(r, d, last, limit), r.image.tree;
            && (r'.err.None? <==>
                  && MkdirAll(tree, Parent(p)).Done? && Create(WithDirs(tree, Parent(p)), p).Done?
                  && r.total + |last.entry.body| <= limit)
            && (r'.err.None? ==> r'.image.tree == WithDirs(tree, Parent(p))[p := File(last.entry.body)])
  {
    assert last.entry.body[..|last.entry.body|] == last.entry.body;
  }

  /** One regular entry, on a tree built so far. */
  lemma RegStep(r: Run, d: Path, items: seq<Item>, last: Item, p: Path, limit: nat)
    requires r.err.None? && r.total <= limit && !r.image.strayed
    requires Chain(r.image.tree, d) && Built(r.image.tree, d, items)
    requires last.entry.kind.RegEntry? && TargetOf(d, last.entry) == Some(p) && d < p && Legal(p, d)
    requires last.fault.NoFault?
    ensures var r' := Step(r, d, last, limit);
            && (r'.err.None? <==> Consistent(d, items + [last]) && r.total + |last.entry.body| <= limit)
            && (r'.err.None? ==> Built(r'.image.tree, d, items + [last]))
  {
    var tree := r.image.tree;
    ParentPrefix(d, p);
    BuiltIsConsistent(tree, d, items);
    RegConsistent(d, items, last, p);
    MkdirInBuilt(tree, d, items, Parent(p));
    if MkdirAll(tree, Parent(p)).Done? {
      CreateInBuilt(tree, d, items, p);
      if !DirAt(d, items, p) {
        FileBuilt(tree, d, items, last, p);
      }
    }
    RegShape(r, d, last, p, limit);
  }

  lemma FileBuilt(tree: Tree, d: Path, items: seq<Item>, last: Item, p: Path)
    requires Chain(tree, d) && Built(tree, d, items) && d < p && MkdirAll(tree, Parent(p)).Done?
    requires last.entry.kind.RegEntry? && TargetOf(d, last.entry) == Some(p) && !DirAt(d, items, p)
    ensures Built(WithDirs(tree, Parent(p))[p := File(last.entry.body)], d, items + [last])
  {
    ParentPrefix(d, p);
    BuiltIsConsistent(tree, d, items);
    RegConsistent(d, items, last, p);
    MkdirInBuilt(tree, d, items, Parent(p));
  }

  /** A regular entry for the destination itself never works. */
  lemma RegAtDestination(r: Run, d: Path, items: seq<Item>, last: Item, limit: nat)
    requires r.err.None? && r.total <= limit && !r.image.strayed && Chain(r.image.tree, d)
    requires last.entry.kind.RegEntry? && TargetOf(d, last.entry) == Some(d)
    ensures Step(r, d, last, limit).err.Some?
    ensures !Consistent(d, items + [last])
  {
    ParentPrefix(Parent(d), d);
    MakeDirsConfined(r, Parent(d), last.fault, d);
    var made := MakeDirs(r, Parent(d), last.fault);
    ChainStays(r.image, made.image, d);
    forall q | q in made.image.tree && q <= Parent(d) ensures made.image.tree[q] == Dir {
      ParentPrefix(q, d);
    }
    NoObstacleExactly(made.image.tree, Parent(d));
    var all := items + [last];
    assert all[..|all| - 1] == items;
    DestinationIsDir(d, all);
    assert FileAt(d, all, d).Some? && DirAt(d, all, d);
  }

  lemma {:induction false} DestinationIsDir(d: Path, items: seq<Item>)
    ensures DirAt(d, items, d)
    decreases |items|
  {
    if items != [] {
      DestinationIsDir(d, items[..|items| - 1]);
    }
  }

  ghost predicate Extractable(d: Path, items: seq<Item>, limit: nat) {
    AllLegal(d, items) && AllSpared(d, items) && Consistent(d, items) && TotalSize(d, items) <= limit
  }

  /** One more entry of any kind but a link. */
  lemma StepBuilds(r: Run, d: Path, items: seq<Item>, last: Item, limit: nat)
    requires r.err.None? && r.total == TotalSize(d, items) <= limit && !last.entry.kind.LinkEntry?
    requires !r.image.strayed && Chain(r.image.tree, d) && Built(r.image.tree, d, items)
    ensures var r' := Step(r, d, last, limit);
            && (r'.err.None? <==>
                  && (TargetOf(d, last.entry).Some? ==> Legal(TargetOf(d, last.entry).value, d))
                  && Spared(d, last) && Consistent(d, items + [last]) && TotalSize(d, items + [last]) <= limit)
            && (r'.err.None? ==> Built(r'.image.tree, d, items + [last]))
  {
    var t, all := TargetOf(d, last.entry), items + [last];
    assert all[..|all| - 1] == items;
    BuiltIsConsistent(r.image.tree, d, items);
    if t.Some? && Legal(t.value, d) && Spared(d, last) && last.entry.kind.DirEntry? {
      DirStep(r, d, items, last, t.value, limit);
    } else if t.Some? && Legal(t.value, d) && last.entry.kind.RegEntry? {
      if t.value == d {
        RegAtDestination(r, d, items, last, limit);
      } else if Spared(d, last) {
        RegStep(r, d, items, last, t.value, limit);
      }
    } else if t.None? || last.entry.kind.OtherEntry? {
      assert forall q :: FileAt(d, all, q) == FileAt(d, items, q);
      assert forall q :: DirAt(d, all, q) <==> DirAt(d, items, q);
    }
  }

  lemma AllSparedFirst(d: Path, items: seq<Item>, last: Item)
    ensures AllSpared(d, items + [last]) <==> AllSpared(d, items) && Spared(d, last)
  {
    var all := items + [last];
    assert forall i :: 0 <= i < |items| ==> all[i] == items[i];
    if AllSpared(d, all) {
      assert Spared(d, all[|items|]);
      forall i | 0 <= i < |items| ensures Spared(d, items[i]) {
        assert Spared(d, all[i]);
      }
    }
  }

  lemma AllLegalFirst(d: Path, items: seq<Item>, last: Item)
    ensures AllLegal(d, items + [last])
       <==> && AllLegal(d, items)
            && (TargetOf(d, last.entry).Some? ==> Legal(TargetOf(d, last.entry).value, d))
  {
    var all := items + [last];
    assert all[|items|] == last && forall i :: 0 <= i < |items| ==> all[i] == items[i];
  }

  lemma ConsistentFirst(d: Path, items: seq<Item>, last: Item)
    requires Consistent(d, items + [last])
    ensures Consistent(d, items)
  {
    assert (items + [last])[..|items|] == items;
    forall q ensures !(FileAt(d, items, q).Some? && DirAt(d, items, q)) {
      assert !(FileAt(d, items + [last], q).Some? && DirAt(d, items + [last], q));
    }
  }

  lemma ExtractableFirst(d: Path, items: seq<Item>, n: nat, limit: nat)
    requires n == |items| - 1
    ensures Extractable(d, items, limit) ==> Extractable(d, items[..n], limit)
    ensures AllLegal(d, items)
       <==> && AllLegal(d, items[..n])
            && (TargetOf(d, items[n].entry).Some? ==> Legal(TargetOf(d, items[n].entry).value, d))
    ensures AllSpared(d, items) <==> AllSpared(d, items[..n]) && Spared(d, items[n])
  {
    assert items == items[..n] + [items[n]];
    AllSparedFirst(d, items[..n], items[n]);
    AllLegalFirst(d, items[..n], items[n]);
    if Consistent(d, items) {
      ConsistentFirst(d, items[..n], items[n]);
    }
  }

  lemma LinkFreeNeverStrays(start: Image, d: Path, items: seq<Item>, limit: nat)
    requires EmptyAt(start.tree, d) && !start.strayed && LinkFree(items)
    ensures !After(start, d, items, limit).image.strayed
  {
    forall q | d <= q && q in start.tree ensures !start.tree[q].Link? {
      assert q == d || d < q;
    }
    StraightNeverStrays(start, d, items, limit);
  }

  /** Into an empty directory and without links, an archive unpacks exactly when its paths
      stay inside, no path is both a file and a directory, the files fit the limit and the
      operating system does not fail a call; and the result is then what the entries say:
      every file with the full body of its last entry, the directories named or needed, and
      nothing else. */
  lemma {:induction false} ExtractsExactly(start: Image, d: Path, items: seq<Item>, limit: nat)
    requires EmptyAt(start.tree, d) && !start.strayed && LinkFree(items)
    ensures var r := After(start, d, items, limit);
            && !r.image.strayed
            && (r.err.None? <==> Extractable(d, items, limit))
            && (r.err.None? ==> Chain(r.image.tree, d) && Built(r.image.tree, d, items))
    decreases |items|
  {
    LinkFreeNeverStrays(start, d, items, limit);
    if items == [] {
      forall q | q in start.tree ensures d <= q <==> q == d || d < q {
      }
    } else {
      var n := |items| - 1;
      var r := After(start, d, items[..n], limit);
      assert LinkFree(items[..n]) && items == items[..n] + [items[n]];
      ExtractsExactly(start, d, items[..n], limit);
      ExtractableFirst(d, items, n, limit);
      if r.err.None? {
        BudgetIsExact(start, d, items[..n], limit);
        RunConfined(start, d, items[..n], limit);
        StepBuilds(r, d, items[..n], items[n], limit);
        StepConfined(r, d, items[n], limit);
      }
    }
  }
}
