/** Unpacking a source archive into a directory (internal/runner/runner.go:486-566), over a
    file tree kept as a map from absolute paths to nodes. */
module Archive {
  import opened Basics
  import opened Wrappers
  import opened Paths

  newtype Byte = x: int | 0 <= x < 256
  type Bytes = seq<Byte>

  // ---------------------------------------------------------------- the file tree

  datatype Node = Dir | File(body: Bytes) | Link(target: string)
  type Tree = map<Path, Node>

  /** What a file system call does: succeed with a new tree, fail, or pass through a link to
      somewhere the tree does not say. */
  datatype Answer = Done(tree: Tree) | Refused | Elsewhere

  function Parent(p: Path): Path {
    if p == [] then [] else p[..|p| - 1]
  }

  /** The first thing on the way to `p`, or at `p`, that is not a directory. */
  function Obstacle(tree: Tree, p: Path): Option<Node>
    decreases |p|
  {
    var above := if p == [] then None else Obstacle(tree, Parent(p));
    if above.Some? then above
    else if p in tree && tree[p] != Dir then Some(tree[p])
    else None
  }

  /** The tree with `p` and every missing directory above it. */
  function WithDirs(tree: Tree, p: Path): Tree
    decreases |p|
  {
    var t := if p == [] then tree else WithDirs(tree, Parent(p));
    if p in t then t else t[p := Dir]
  }

  /** os.MkdirAll */
  function MkdirAll(tree: Tree, p: Path): Answer {
    match Obstacle(tree, p)
    case None => Done(WithDirs(tree, p))
    case Some(Link(_)) => Elsewhere
    case Some(_) => Refused
  }

  /** Whether something can be made at `p`: its directory is there and can be reached. */
  function Reach(tree: Tree, p: Path): Answer {
    match Obstacle(tree, Parent(p))
    case Some(Link(_)) => Elsewhere
    case Some(_) => Refused
    case None => if p != [] && Parent(p) in tree then Done(tree) else Refused
  }

  /** os.OpenFile with O_CREATE, O_WRONLY and O_TRUNC. */
  function Create(tree: Tree, p: Path): Answer {
    var r := Reach(tree, p);
    if !r.Done? then r
    else if p !in tree || tree[p].File? then Done(tree[p := File([])])
    else if tree[p].Link? then Elsewhere
    else Refused
  }

  // ---------------------------------------------------------------- entries

  datatype Kind = DirEntry | RegEntry | LinkEntry | OtherEntry

  datatype Entry = Entry(name: string, kind: Kind, body: Bytes, linkname: string)

  /** What the operating system does to the calls made for one entry: nothing unusual, an
      error from the first call (a MkdirAll after the first `depth` levels of its path), an
      error from OpenFile, or an error from the copy after some bytes. */
  datatype Fault = NoFault | OsFails(depth: nat) | CreateFails | CopyFails(after: nat)

  datatype Item = Item(entry: Entry, fault: Fault)

  datatype Error = IllegalPath | MkdirFailed | CreateFailed | WriteFailed | TooLarge
                 | AbsoluteLink | EscapingLink | LinkFailed | BadArchive

  /** The part of a name after its first '/', if there is one: strings.SplitN(name, "/", 2). */
  function AfterSlash(name: string): Option<string> {
    if name == "" then None
    else if name[0] == '/' then Some(name[1..])
    else AfterSlash(name[1..])
  }

  /** The path an entry is for under the destination `d`, unless the entry is skipped. */
  function TargetOf(d: Path, e: Entry): Option<Path> {
    match AfterSlash(e.name)
    case None => None
    case Some(rel) => if rel == "" then None else Some(Follow(d, Split(rel)))
  }

  /** The meaning of the containment test: at or below `d`, and below the root only the root. */
  predicate Legal(p: Path, d: Path) {
    if d == [] then p == [] else d <= p
  }

  predicate LegalLink(p: Path, d: Path, linkname: string) {
    d != [] && d < Follow(Parent(p), Split(linkname))
  }

  // ---------------------------------------------------------------- one entry

  /** The disk as far as an extraction changes it: the tree, the paths created or written as
      they were given to the calls, and the number of bytes written. Once a call's path has
      gone through a link the extraction has strayed: where it wrote is not known, the tree is
      what was known of the disk before, and a later call may succeed or fail as its fault says. */
  datatype Image = Image(tree: Tree, touched: set<Path>, bytes: nat, strayed: bool)

  function Astray(image: Image, p: Path): Image {
    image.(touched := image.touched + {p}, strayed := true)
  }

  function DirsAt(image: Image, p: Path): Answer {
    if image.strayed && p !in image.tree then Elsewhere else MkdirAll(image.tree, p)
  }

  function CreateAt(image: Image, p: Path): Answer {
    if image.strayed then Elsewhere else Create(image.tree, p)
  }

  function ReachAt(image: Image, p: Path): Answer {
    if image.strayed then Elsewhere else Reach(image.tree, p)
  }

  datatype Run = Run(image: Image, total: nat, err: Option<Error>)

  function Made(image: Image, tree: Tree): Image {
    image.(tree := tree, touched := image.touched + (tree.Keys - image.tree.Keys))
  }

  /** The image after a MkdirAll that was not refused. */
  function WithDirsMade(image: Image, p: Path): Image {
    match DirsAt(image, p)
    case Done(tree) => Made(image, tree)
    case Elsewhere => Astray(image, p)
    case Refused => image
  }

  function MakeDirs(r: Run, p: Path, fault: Fault): Run {
    if fault.OsFails? then
      Run(WithDirsMade(r.image, p[..Min(fault.depth, |p|)]), r.total, Some(MkdirFailed))
    else if DirsAt(r.image, p).Refused? then r.(err := Some(MkdirFailed))
    else r.(image := WithDirsMade(r.image, p))
  }

  /** Creating and filling a file whose directory has been made. */
  function WriteFile(r: Run, p: Path, body: Bytes, fault: Fault, limit: nat): Run
    requires r.total <= limit
  {
    var a := CreateAt(r.image, p);
    if a.Refused? || fault.CreateFails? then r.(err := Some(CreateFailed))
    else
      var readable := Min(|body|, limit - r.total + 1);
      var written := if fault.CopyFails? then Min(fault.after, readable) else readable;
      var tree := if a.Done? then a.tree[p := File(body[..written])] else r.image.tree;
      var image := Image(tree, r.image.touched + {p}, r.image.bytes + written, a.Elsewhere?);
      if fault.CopyFails? then Run(image, r.total, Some(WriteFailed))
      else Run(image, r.total + written, if r.total + written > limit then Some(TooLarge) else None)
  }

  function MakeLink(r: Run, p: Path, linkname: string, fault: Fault): Run {
    if fault.OsFails? then r.(err := Some(LinkFailed))
    else
      match ReachAt(r.image, p)
      case Refused => if p in r.image.tree then r else r.(err := Some(LinkFailed))
      case Elsewhere => r.(image := Astray(r.image, p))
      case Done(_) =>
        if p in r.image.tree then r
        else r.(image := r.image.(tree := r.image.tree[p := Link(linkname)], touched := r.image.touched + {p}))
  }

  function Step(r: Run, d: Path, item: Item, limit: nat): (r': Run)
    requires r.err.None? && r.total <= limit
    ensures r'.err.None? ==> r'.total <= limit
  {
    var e := item.entry;
    match TargetOf(d, e)
    case None => r
    case Some(p) =>
      if !Legal(p, d) then r.(err := Some(IllegalPath))
      else
        match e.kind
        case DirEntry => MakeDirs(r, p, item.fault)
        case RegEntry =>
          var made := MakeDirs(r, Parent(p), item.fault);
          if made.err.Some? then made else WriteFile(made, p, e.body, item.fault, limit)
        case LinkEntry =>
          if IsAbs(e.linkname) then r.(err := Some(AbsoluteLink))
          else if !LegalLink(p, d, e.linkname) then r.(err := Some(EscapingLink))
          else MakeLink(r, p, e.linkname, item.fault)
        case OtherEntry => r
  }

  // ---------------------------------------------------------------- an archive

  /** 500 MB in all; what is proved of the limit below holds of any. */
  const MAX_EXTRACTED_BYTES: nat := 500 * 1024 * 1024

  function After(start: Image, d: Path, items: seq<Item>, limit: nat): (r: Run)
    ensures r.err.None? ==> r.total <= limit
    decreases |items|
  {
    if items == [] then Run(start, 0, None)
    else
      var n := |items| - 1;
      var r := After(start, d, items[..n], limit);
      if r.err.Some? then r else Step(r, d, items[n], limit)
  }

  /** `corrupt` says that reading the archive fails after the items. */
  function Extracted(start: Image, d: Path, items: seq<Item>, corrupt: bool, limit: nat): Run {
    var r := After(start, d, items, limit);
    if r.err.None? && corrupt then r.(err := Some(BadArchive)) else r
  }

  lemma {:induction false} ErrorIsFinal(start: Image, d: Path, items: seq<Item>, n: nat, limit: nat)
    requires n <= |items| && After(start, d, items[..n], limit).err.Some?
    ensures After(start, d, items, limit) == After(start, d, items[..n], limit)
    decreases |items|
  {
    if n < |items| {
      assert items[..|items| - 1][..n] == items[..n];
      ErrorIsFinal(start, d, items[..|items| - 1], n, limit);
    } else {
      assert items[..n] == items;
    }
  }

  // ---------------------------------------------------------------- the code

  /** filepath.Dir of a cleaned absolute path. */
  function DirOf(s: string): string {
    Render(Parent(Components(s)))
  }

  /** The test on the target of an entry and the test on the target of a link, on strings,
      mean what Legal and LegalLink say. */
  lemma TestsAreComponentTests(dst: string, rel: string, linkname: string)
    requires IsAbs(dst)
    ensures var d, p, target := Components(dst), Follow(Components(dst), Split(rel)), Join(dst, rel);
            && IsAbs(target) && Components(target) == p
            && (Inside(Clean(target), Clean(dst)) <==> Legal(p, d))
            && IsAbs(DirOf(target))
            && (HasPrefix(Clean(Join(DirOf(target), linkname)), Clean(dst) + "/") <==> LegalLink(p, d, linkname))
  {
    var d, p, target := Components(dst), Follow(Components(dst), Split(rel)), Join(dst, rel);
    ComponentsOfJoin(dst, rel);
    ComponentsClean(dst);
    ComponentsClean(target);
    InsideExactly(p, d);
    ComponentsOfRender(Parent(p));
    ComponentsOfJoin(DirOf(target), linkname);
    var l := Components(Join(DirOf(target), linkname));
    ComponentsClean(Join(DirOf(target), linkname));
    StrictlyInsideExactly(l, d);
  }

  class Disk {
    var tree: Tree
    var touched: set<Path>
    var bytes: nat
    var strayed: bool

    ghost function View(): Image
      reads this
    {
      Image(tree, touched, bytes, strayed)
    }

    /** The levels of a path that a MkdirAll makes. */
    method MkdirSome(p: Path) returns (ok: bool)
      modifies this
      ensures View() == WithDirsMade(old(View()), p) && ok == !DirsAt(old(View()), p).Refused?
    {
      var a := if strayed && p !in tree then Elsewhere else MkdirAll(tree, p);
      match a
      case Done(t) =>
        touched := touched + (t.Keys - tree.Keys);
        tree := t;
        ok := true;
      case Elsewhere =>
        touched, strayed := touched + {p}, true;
        ok := true;
      case Refused =>
        ok := false;
    }

    /** os.MkdirAll */
    method Mkdir(p: Path, fault: Fault) returns (ok: bool)
      modifies this
      ensures forall total: nat :: var r := MakeDirs(Run(old(View()), total, None), p, fault);
                r.image == View() && (r.err == if ok then None else Some(MkdirFailed)) && r.total == total
    {
      if fault.OsFails? {
        var _ := MkdirSome(p[..if fault.depth < |p| then fault.depth else |p|]);
        return false;
      }
      ok := MkdirSome(p);
    }

    /** os.OpenFile, io.Copy from the LimitReader, and the byte budget. */
    method Write(p: Path, body: Bytes, fault: Fault, limit: nat, total: nat) returns (total': nat, err: Option<Error>)
      requires total <= limit
      modifies this
      ensures Run(View(), total', err) == WriteFile(Run(old(View()), total, None), p, body, fault, limit)
    {
      total' := total;
      var a := if strayed then Elsewhere else Create(tree, p);
      if a.Refused? || fault.CreateFails? {
        return total, Some(CreateFailed);
      }
      touched, strayed := touched + {p}, a.Elsewhere?;
      if a.Done? {
        tree := a.tree;
      }
      var readable := if |body| < limit - total + 1 then |body| else limit - total + 1;
      var written := if fault.CopyFails? && fault.after < readable then fault.after else readable;
      bytes := bytes + written;
      if a.Done? {
        tree := tree[p := File(body[..written])];
      }
      if fault.CopyFails? {
        return total, Some(WriteFailed);
      }
      total' := total + written;
      if total' > limit {
        return total', Some(TooLarge);
      }
      err := None;
    }

    /** os.Symlink; an existing path is not an error. */
    method Symlink(p: Path, linkname: string, fault: Fault) returns (ok: bool)
      modifies this
      ensures forall total: nat :: var r := MakeLink(Run(old(View()), total, None), p, linkname, fault);
                r.image == View() && (r.err == if ok then None else Some(LinkFailed)) && r.total == total
    {
      if fault.OsFails? {
        return false;
      }
      var a := if strayed then Elsewhere else Reach(tree, p);
      match a
      case Refused =>
        ok := p in tree;
      case Elsewhere =>
        touched, strayed := touched + {p}, true;
        ok := true;
      case Done(_) =>
        if p !in tree {
          tree := tree[p := Link(linkname)];
          touched := touched + {p};
        }
        ok := true;
    }

    /** The body of the loop over the archive. */
    method ExtractEntry(dst: string, item: Item, limit: nat, total: nat) returns (total': nat, err: Option<Error>)
      requires IsAbs(dst) && total <= limit
      modifies this
      ensures Run(View(), total', err) == Step(Run(old(View()), total, None), Components(dst), item, limit)
    {
      var e := item.entry;
      total' := total;
      var rel := AfterSlash(e.name);
      if rel.None? || rel.value == "" {
        return total, None;
      }
      TestsAreComponentTests(dst, rel.value, e.linkname);
      var target := Join(dst, rel.value);
      var absDst := Clean(dst);
      if !HasPrefix(Clean(target), absDst + "/") && Clean(target) != absDst {
        return total, Some(IllegalPath);
      }
      var p := Components(target);
      match e.kind
      case DirEntry =>
        var ok := Mkdir(p, item.fault);
        err := if ok then None else Some(MkdirFailed);
      case RegEntry =>
        var ok := Mkdir(Parent(p), item.fault);
        if !ok {
          return total, Some(MkdirFailed);
        }
        total', err := Write(p, e.body, item.fault, limit, total);
      case LinkEntry =>
        if IsAbs(e.linkname) {
          return total, Some(AbsoluteLink);
        }
        if !HasPrefix(Clean(Join(DirOf(target), e.linkname)), absDst + "/") {
          return total, Some(EscapingLink);
        }
        var ok := Symlink(p, e.linkname, item.fault);
        err := if ok then None else Some(LinkFailed);
      case OtherEntry =>
        err := None;
    }

    /** extractTarGzStripped */
    method ExtractTarGzStripped(dst: string, items: seq<Item>, corrupt: bool) returns (err: Option<Error>)
      requires IsAbs(dst)
      modifies this
      ensures var r := Extracted(old(View()), Components(dst), items, corrupt, 524_288_000);
              View() == r.image && err == r.err
    {
      var limit := MAX_EXTRACTED_BYTES;
      ghost var start, d := View(), Components(dst);
      var total := 0;
      var i := 0;
      while i < |items|
        invariant 0 <= i <= |items|
        invariant After(start, d, items[..i], limit) == Run(View(), total, None)
      {
        assert items[..i + 1][..i] == items[..i];
        total, err := ExtractEntry(dst, items[i], limit, total);
        if err.Some? {
          ErrorIsFinal(start, d, items, i + 1, limit);
          return;
        }
        i := i + 1;
      }
      assert items[..i] == items;
      return if corrupt then Some(BadArchive) else None;
    }
  }
}
