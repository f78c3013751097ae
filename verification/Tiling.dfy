/** Leftmost, non-overlapping matching in the abstract: how a scan cuts a string into holes
    and single characters, whatever the pattern. */
module Tiling {
  import opened Wrappers

  /** Where matches begin: the key of the match that starts at a position, if one does. A
      match is `OVERHEAD` characters longer than its key. */
  type Matches = nat -> Option<string>

  const OVERHEAD: nat := 10

  datatype Piece = Lit(c: char) | Hole(key: string)

  function Width(p: Piece): (w: nat)
    ensures w >= 1
  {
    if p.Lit? then 1 else OVERHEAD + |p.key|
  }

  /** Matches end inside the string and do not overlap. */
  ghost predicate Sound(m: Matches, n: nat) {
    forall i: nat :: m(i).Some? ==>
      i + OVERHEAD + |m(i).value| <= n && forall j: nat :: i < j < i + OVERHEAD + |m(i).value| ==> m(j).None?
  }

  function FirstPiece(s: string, m: Matches, i: nat): Piece
    requires i < |s|
  {
    if m(i).Some? then Hole(m(i).value) else Lit(s[i])
  }

  /** The pieces from position `i` on, found from left to right. */
  function Scan(s: string, m: Matches, i: nat): seq<Piece>
    requires i <= |s| && Sound(m, |s|)
    decreases |s| - i
  {
    if i == |s| then []
    else
      var p := FirstPiece(s, m, i);
      [p] + Scan(s, m, i + Width(p))
  }

  // ---------------------------------------------------------------- the specification

  /** The pieces, laid out from position `i`, end with the string, and the single characters
      among them are the string's. */
  predicate Fits(ps: seq<Piece>, s: string, i: nat)
    decreases |ps|
  {
    if ps == [] then i == |s|
    else i + Width(ps[0]) <= |s| && (ps[0].Lit? ==> ps[0].c == s[i]) && Fits(ps[1..], s, i + Width(ps[0]))
  }

  /** The holes among the pieces, with their positions. */
  function Holes(ps: seq<Piece>, i: nat): set<(nat, string)>
    decreases |ps|
  {
    if ps == [] then {}
    else (if ps[0].Hole? then {(i, ps[0].key)} else {}) + Holes(ps[1..], i + Width(ps[0]))
  }

  /** `ps` cuts up the rest of `s` from `i` on, and its holes are the matches there: all of
      them and nothing else. */
  ghost predicate Tiles(ps: seq<Piece>, s: string, m: Matches, i: nat) {
    && Fits(ps, s, i)
    && (forall j: nat, key :: (j, key) in Holes(ps, i) <==> i <= j && m(j) == Some(key))
  }

  lemma {:induction false} HolesFrom(ps: seq<Piece>, i: nat)
    ensures forall j: nat, key :: (j, key) in Holes(ps, i) ==> i <= j
    decreases |ps|
  {
    if ps != [] {
      HolesFrom(ps[1..], i + Width(ps[0]));
    }
  }

  lemma PrependTiles(p: Piece, rest: seq<Piece>, s: string, m: Matches, i: nat)
    requires i < |s| && Sound(m, |s|) && p == FirstPiece(s, m, i) && Tiles(rest, s, m, i + Width(p))
    ensures Tiles([p] + rest, s, m, i)
  {
    var ps := [p] + rest;
    assert ps[1..] == rest;
    HolesFrom(rest, i + Width(p));
    forall j: nat, key
      ensures (j, key) in Holes(ps, i) <==> i <= j && m(j) == Some(key)
    {
      assert (j, key) in Holes(rest, i + Width(p)) <==> i + Width(p) <= j && m(j) == Some(key);
      assert i < j < i + Width(p) ==> m(j).None?;
    }
  }

  lemma {:induction false} ScanTiles(s: string, m: Matches, i: nat)
    requires i <= |s| && Sound(m, |s|)
    ensures Tiles(Scan(s, m, i), s, m, i)
    decreases |s| - i
  {
    if i < |s| {
      var p := FirstPiece(s, m, i);
      var w := Width(p);
      var rest := Scan(s, m, i + w);
      ScanTiles(s, m, i + w);
      PrependTiles(p, rest, s, m, i);
      assert Scan(s, m, i) == [p] + rest;
    }
  }

  /** What follows the first piece of a tiling tiles what is left, and the first piece is
      what the scan finds. */
  lemma TilesTail(ps: seq<Piece>, s: string, m: Matches, i: nat)
    requires Tiles(ps, s, m, i) && Sound(m, |s|) && ps != []
    ensures i < |s| && ps[0] == FirstPiece(s, m, i)
    ensures Tiles(ps[1..], s, m, i + Width(ps[0]))
  {
    HolesFrom(ps[1..], i + Width(ps[0]));
    if ps[0].Hole? {
      assert (i, ps[0].key) in Holes(ps, i);
    } else if m(i).Some? {
      assert (i, m(i).value) in Holes(ps, i);
    }
    forall j: nat, key
      ensures (j, key) in Holes(ps[1..], i + Width(ps[0])) <==> i + Width(ps[0]) <= j && m(j) == Some(key)
    {
      assert (j, key) in Holes(ps, i) <==> i <= j && m(j) == Some(key);
    }
  }

  lemma {:induction false} TilesUnique(ps: seq<Piece>, s: string, m: Matches, i: nat)
    requires i <= |s| && Sound(m, |s|) && Tiles(ps, s, m, i)
    ensures ps == Scan(s, m, i)
    decreases |ps|
  {
    if ps != [] {
      TilesTail(ps, s, m, i);
      TilesUnique(ps[1..], s, m, i + Width(ps[0]));
      assert ps == [ps[0]] + ps[1..];
    }
  }

  /** The pieces as they are written, `text` giving the text of a hole. */
  function Written(ps: seq<Piece>, text: string -> string): string {
    if ps == [] then [] else (if ps[0].Lit? then [ps[0].c] else text(ps[0].key)) + Written(ps[1..], text)
  }

  ghost predicate Stands(s: string, text: string -> string, j: nat, key: string) {
    j + OVERHEAD + |key| <= |s| && s[j..j + OVERHEAD + |key|] == text(key)
  }

  lemma {:induction false} WrittenIsSource(ps: seq<Piece>, s: string, i: nat, text: string -> string)
    requires i <= |s| && Fits(ps, s, i)
    requires forall j: nat, key :: (j, key) in Holes(ps, i) ==> Stands(s, text, j, key)
    ensures Written(ps, text) == s[i..]
    decreases |ps|
  {
    if ps != [] {
      var w := Width(ps[0]);
      if ps[0].Hole? {
        assert (i, ps[0].key) in Holes(ps, i);
      }
      forall j: nat, key | (j, key) in Holes(ps[1..], i + w) ensures Stands(s, text, j, key) {
        assert (j, key) in Holes(ps, i);
      }
      WrittenIsSource(ps[1..], s, i + w, text);
      SplitSlice(s, i, i + w);
    }
  }

  lemma SplitSlice(s: string, i: nat, j: nat)
    requires i <= j <= |s|
    ensures s[i..] == s[i..j] + s[j..]
  {
  }

  lemma Associative<T>(a: seq<T>, b: seq<T>, c: seq<T>)
    ensures a + (b + c) == (a + b) + c
  {
  }

  // ---------------------------------------------------------------- substitution

  /** What a key stands for, if it resolves. */
  type Store = string -> Option<string>

  /** The first hole that does not resolve. */
  function Missing(ps: seq<Piece>, store: Store): Option<string> {
    if ps == [] then None
    else if ps[0].Hole? && store(ps[0].key).None? then Some(ps[0].key)
    else Missing(ps[1..], store)
  }

  function Filler(p: Piece, store: Store): string {
    match p
    case Lit(c) => [c]
    case Hole(key) => var v := store(key); if v.Some? then v.value else []
  }

  function Filled(ps: seq<Piece>, store: Store): string {
    if ps == [] then [] else Filler(ps[0], store) + Filled(ps[1..], store)
  }

  lemma {:induction false} AppendMissing(ps: seq<Piece>, p: Piece, store: Store)
    ensures Missing(ps + [p], store) ==
              if Missing(ps, store).None? && p.Hole? && store(p.key).None? then Some(p.key) else Missing(ps, store)
  {
    if ps == [] {
      assert (ps + [p])[1..] == [];
    } else {
      assert (ps + [p])[1..] == ps[1..] + [p];
      AppendMissing(ps[1..], p, store);
    }
  }

  lemma {:induction false} AppendFilled(ps: seq<Piece>, p: Piece, store: Store)
    ensures Filled(ps + [p], store) == Filled(ps, store) + Filler(p, store)
  {
    if ps == [] {
      assert (ps + [p])[1..] == [];
    } else {
      assert (ps + [p])[1..] == ps[1..] + [p];
      AppendFilled(ps[1..], p, store);
      Associative(Filler(ps[0], store), Filled(ps[1..], store), Filler(p, store));
    }
  }

  lemma {:induction false} MissingIsAHole(ps: seq<Piece>, store: Store, i: nat)
    ensures Missing(ps, store).None? <==> forall j: nat, key :: (j, key) in Holes(ps, i) ==> store(key).Some?
    decreases |ps|
  {
    if ps != [] {
      MissingIsAHole(ps[1..], store, i + Width(ps[0]));
      if ps[0].Hole? {
        assert (i, ps[0].key) in Holes(ps, i);
      }
      forall j: nat, key | (j, key) in Holes(ps[1..], i + Width(ps[0])) ensures (j, key) in Holes(ps, i) {
      }
    }
  }

  lemma {:induction false} NoHolesUnchanged(ps: seq<Piece>, s: string, i: nat, store: Store)
    requires i <= |s| && Fits(ps, s, i) && forall j: nat, key :: (j, key) !in Holes(ps, i)
    ensures Missing(ps, store).None? && Filled(ps, store) == s[i..]
    decreases |ps|
  {
    if ps != [] {
      assert Holes(ps[1..], i + 1) <= Holes(ps, i);
      NoHolesUnchanged(ps[1..], s, i + Width(ps[0]), store);
      assert s[i..] == [s[i]] + s[i + 1..];
    }
  }

  lemma ScanNext(s: string, m: Matches, i: nat)
    requires i < |s| && Sound(m, |s|)
    ensures i + Width(FirstPiece(s, m, i)) <= |s|
    ensures Scan(s, m, i) == [FirstPiece(s, m, i)] + Scan(s, m, i + Width(FirstPiece(s, m, i)))
  {
  }

  lemma FilledCons(p: Piece, rest: seq<Piece>, store: Store)
    ensures Filled([p] + rest, store) == Filler(p, store) + Filled(rest, store)
  {
    assert ([p] + rest)[1..] == rest;
  }

  lemma FilledNext(s: string, m: Matches, i: nat, n: nat, store: Store)
    requires i < |s| && Sound(m, |s|) && n == i + Width(FirstPiece(s, m, i))
    ensures n <= |s|
    ensures Filled(Scan(s, m, i), store) == Filler(FirstPiece(s, m, i), store) + Filled(Scan(s, m, n), store)
  {
    ScanNext(s, m, i);
    FilledCons(FirstPiece(s, m, i), Scan(s, m, n), store);
  }

  lemma CopiedOne(s: string, i: nat, k: nat, rest: string)
    requires i < k <= |s|
    ensures [s[i]] + (s[i + 1..k] + rest) == s[i..k] + rest
  {
    assert s[i..k] == [s[i]] + s[i + 1..k];
    Associative([s[i]], s[i + 1..k], rest);
  }

  /** Without a match from `i` up to `k` the scan copies what is there. */
  lemma {:induction false} CopiedUpTo(s: string, m: Matches, i: nat, k: nat, store: Store)
    requires i <= k <= |s| && Sound(m, |s|) && forall j: nat :: i <= j < k ==> m(j).None?
    ensures Filled(Scan(s, m, i), store) == s[i..k] + Filled(Scan(s, m, k), store)
    decreases k - i
  {
    var rest := Filled(Scan(s, m, k), store);
    if i < k {
      CopiedUpTo(s, m, i + 1, k, store);
      FilledNext(s, m, i, i + 1, store);
      CopiedOne(s, i, k, rest);
    } else {
      assert s[i..k] + rest == rest;
    }
  }

  function At(m: Matches, i: nat): Option<string> {
    m(i)
  }

  /** `t` with `m'` is what is left of `s` with `m` from a position on. */
  ghost predicate IsRest(s: string, m: Matches, from: nat, t: string, m': Matches) {
    from <= |s| && t == s[from..] && forall k: nat :: At(m', k) == At(m, from + k)
  }

  lemma RestPiece(s: string, m: Matches, from: nat, t: string, m': Matches, i: nat)
    requires Sound(m', |t|) && IsRest(s, m, from, t, m') && i < |t|
    ensures FirstPiece(t, m', i) == FirstPiece(s, m, from + i) && i + Width(FirstPiece(t, m', i)) <= |t|
  {
    assert At(m', i) == At(m, from + i);
  }

  /** The scan from a later position is the scan of what is left. */
  lemma {:induction false} ScanOfRest(s: string, m: Matches, from: nat, t: string, m': Matches, i: nat)
    requires Sound(m, |s|) && Sound(m', |t|) && IsRest(s, m, from, t, m') && i <= |t|
    ensures Scan(t, m', i) == Scan(s, m, from + i)
    decreases |t| - i
  {
    if i < |t| {
      RestPiece(s, m, from, t, m', i);
      ScanOfRest(s, m, from, t, m', i + Width(FirstPiece(t, m', i)));
    }
  }

  lemma ScanIsRest(s: string, m: Matches, n: nat, t: string, m': Matches)
    requires Sound(m, |s|) && Sound(m', |t|) && IsRest(s, m, n, t, m')
    ensures Scan(t, m', 0) == Scan(s, m, n)
  {
    ScanOfRest(s, m, n, t, m', 0);
  }

  /** The first match and what follows it. */
  lemma FilledFirst(s: string, m: Matches, i: nat, n: nat, t: string, m': Matches, store: Store)
    requires i < |s| && Sound(m, |s|) && m(i).Some? && store(m(i).value).Some? && Sound(m', |t|)
    requires forall j: nat :: j < i ==> m(j).None?
    requires n == i + OVERHEAD + |m(i).value| && IsRest(s, m, n, t, m')
    ensures Filled(Scan(s, m, 0), store) == s[0..i] + store(m(i).value).value + Filled(Scan(t, m', 0), store)
  {
    CopiedUpTo(s, m, 0, i, store);
    FilledNext(s, m, i, n, store);
    ScanIsRest(s, m, n, t, m');
    Associative(s[0..i], store(m(i).value).value, Filled(Scan(t, m', 0), store));
  }

  /** One character copied, or one match handed to the callback, which looks its key up unless
      a lookup has failed before. */
  method ReplaceOne(s: string, m: Matches, store: Store, i: nat, replaced: string, failed: Option<string>)
    returns (next: nat, replaced': string, failed': Option<string>)
    requires i < |s| && Sound(m, |s|)
    ensures next == i + Width(FirstPiece(s, m, i)) <= |s|
    ensures var p := FirstPiece(s, m, i);
            && failed' == (if failed.None? && p.Hole? && store(p.key).None? then Some(p.key) else failed)
            && (failed'.None? ==> replaced' == replaced + Filler(p, store))
  {
    var key := m(i);
    if key.None? {
      return i + 1, replaced + [s[i]], failed;
    }
    next := i + OVERHEAD + |key.value|;
    if failed.Some? {
      return next, replaced + s[i..next], failed;
    }
    var value := store(key.value);
    if value.None? {
      return next, replaced + s[i..next], key;
    }
    return next, replaced + value.value, None;
  }

  /** The scan has got to `i` with these pieces. */
  ghost predicate ScannedTo(s: string, m: Matches, i: nat, done: seq<Piece>)
    requires Sound(m, |s|)
  {
    i <= |s| && Scan(s, m, 0) == done + Scan(s, m, i)
  }

  /** The failure and the output that belong to these pieces. */
  predicate Gives(done: seq<Piece>, store: Store, replaced: string, failed: Option<string>) {
    failed == Missing(done, store) && (failed.None? ==> replaced == Filled(done, store))
  }

  lemma ScannedMore(s: string, m: Matches, i: nat, done: seq<Piece>)
    requires Sound(m, |s|) && ScannedTo(s, m, i, done) && i < |s|
    ensures ScannedTo(s, m, i + Width(FirstPiece(s, m, i)), done + [FirstPiece(s, m, i)])
  {
    var p := FirstPiece(s, m, i);
    ScanNext(s, m, i);
    Associative(done, [p], Scan(s, m, i + Width(p)));
  }

  lemma GivesMore(done: seq<Piece>, store: Store, replaced: string, failed: Option<string>,
                  p: Piece, replaced': string, failed': Option<string>)
    requires Gives(done, store, replaced, failed)
    requires failed' == if failed.None? && p.Hole? && store(p.key).None? then Some(p.key) else failed
    requires failed'.None? ==> replaced' == replaced + Filler(p, store)
    ensures Gives(done + [p], store, replaced', failed')
  {
    AppendMissing(done, p, store);
    AppendFilled(done, p, store);
  }

  lemma AllDone(s: string, m: Matches, store: Store, done: seq<Piece>, replaced: string, failed: Option<string>)
    requires Sound(m, |s|) && ScannedTo(s, m, |s|, done) && Gives(done, store, replaced, failed)
    ensures failed == Missing(Scan(s, m, 0), store)
    ensures failed.None? ==> replaced == Filled(Scan(s, m, 0), store)
  {
    assert done + [] == done;
  }

  /** ReplaceAllStringFunc: matches from left to right. */
  method ReplaceAll(s: string, m: Matches, store: Store) returns (replaced: string, failed: Option<string>)
    requires Sound(m, |s|)
    ensures failed == Missing(Scan(s, m, 0), store)
    ensures failed.None? ==> replaced == Filled(Scan(s, m, 0), store)
  {
    replaced, failed := [], None;
    var i := 0;
    ghost var done: seq<Piece> := [];
    assert [] + Scan(s, m, 0) == Scan(s, m, 0);
    while i < |s|
      invariant 0 <= i <= |s| && ScannedTo(s, m, i, done) && Gives(done, store, replaced, failed)
    {
      ghost var piece := FirstPiece(s, m, i);
      var next, replaced', failed' := ReplaceOne(s, m, store, i, replaced, failed);
      ScannedMore(s, m, i, done);
      GivesMore(done, store, replaced, failed, piece, replaced', failed');
      done := done + [piece];
      i, replaced, failed := next, replaced', failed';
    }
    AllDone(s, m, store, done, replaced, failed);
  }
}
