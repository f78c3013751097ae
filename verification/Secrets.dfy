/** Substitution of ${secret:key} placeholders (internal/compiler/compiler.go:145-195). */
module Secrets {
  import opened Wrappers
  import opened Tiling

  // ---------------------------------------------------------------- what a placeholder is

  predicate KeyChar(c: char) {
    'a' <= c <= 'z' || 'A' <= c <= 'Z' || '0' <= c <= '9' || c == '_' || c == '-' || c == '.' || c == '/'
  }

  /** The character class of the pattern by code: hyphen, dot, slash and digits, capitals, the
      underscore, and small letters. */
  lemma KeyCharCodes(c: char)
    ensures var code := c as int;
            KeyChar(c) <==> 45 <= code <= 57 || 65 <= code <= 90 || code == 95 || 97 <= code <= 122
  {
  }

  predicate IsKey(key: string) {
    key != [] && forall i :: 0 <= i < |key| ==> KeyChar(key[i])
  }

  const OPEN_LENGTH: nat := 9

  /** "${secret:" stands in `s` at position `i`. */
  predicate OpensAt(s: string, i: nat) {
    && i + OPEN_LENGTH <= |s|
    && s[i] == '$' && s[i + 1] == '{' && s[i + 2] == 's' && s[i + 3] == 'e' && s[i + 4] == 'c'
    && s[i + 5] == 'r' && s[i + 6] == 'e' && s[i + 7] == 't' && s[i + 8] == ':'
  }

  /** The placeholder for `key` stands in `s` at position `i`. */
  predicate Occurs(s: string, i: nat, key: string) {
    && IsKey(key) && OpensAt(s, i)
    && i + OPEN_LENGTH + |key| < |s|
    && s[i + OPEN_LENGTH..i + OPEN_LENGTH + |key|] == key
    && s[i + OPEN_LENGTH + |key|] == '}'
  }

  function Text(key: string): (t: string)
    ensures |t| == OVERHEAD + |key|
  {
    "${secret:" + key + "}"
  }

  lemma OccursIsText(s: string, i: nat, key: string)
    requires i + |Text(key)| <= |s| && IsKey(key)
    ensures Occurs(s, i, key) <==> s[i..i + |Text(key)|] == Text(key)
  {
    var from := i + OPEN_LENGTH;
    var here := s[i..i + |Text(key)|];
    assert here == s[i..from] + s[from..from + |key|] + [s[from + |key|]];
    if Occurs(s, i, key) {
      assert s[i..from] == "${secret:";
    }
    if here == Text(key) {
      assert s[i..from] == here[..9] == Text(key)[..9] == "${secret:";
      assert s[from..from + |key|] == here[9..9 + |key|] == Text(key)[9..9 + |key|] == key;
      assert s[from + |key|] == here[9 + |key|];
      assert forall d :: 0 <= d < 9 ==> s[i + d] == s[i..from][d];
      var open := "${secret:";
      assert open[0] == '$' && open[1] == '{' && open[2] == 's' && open[3] == 'e' && open[4] == 'c'
          && open[5] == 'r' && open[6] == 'e' && open[7] == 't' && open[8] == ':';
    }
  }

  // ---------------------------------------------------------------- the scanner

  function KeyRun(s: string, i: nat): nat
    requires i <= |s|
    decreases |s| - i
  {
    if i < |s| && KeyChar(s[i]) then 1 + KeyRun(s, i + 1) else 0
  }

  lemma {:induction false} KeyRunIs(s: string, i: nat, n: nat)
    requires i + n < |s| && !KeyChar(s[i + n]) && forall j :: i <= j < i + n ==> KeyChar(s[j])
    ensures KeyRun(s, i) == n
    decreases n
  {
    if n > 0 {
      KeyRunIs(s, i + 1, n - 1);
    }
  }

  lemma {:induction false} KeyRunChars(s: string, i: nat)
    requires i <= |s|
    ensures i + KeyRun(s, i) <= |s| && forall j :: i <= j < i + KeyRun(s, i) ==> KeyChar(s[j])
    decreases |s| - i
  {
    if i < |s| && KeyChar(s[i]) {
      KeyRunChars(s, i + 1);
    }
  }

  /** The key of the placeholder that starts at `i`, if one does. */
  function MatchAt(s: string, i: nat): Option<string> {
    if OpensAt(s, i) then
      var from := i + OPEN_LENGTH;
      var n := KeyRun(s, from);
      KeyRunChars(s, from);
      if n > 0 && from + n < |s| && s[from + n] == '}' then Some(s[from..from + n]) else None
    else None
  }

  lemma MatchAtFindsOccurrence(s: string, i: nat, key: string)
    ensures MatchAt(s, i) == Some(key) <==> Occurs(s, i, key)
  {
    if OpensAt(s, i) {
      var from := i + OPEN_LENGTH;
      KeyRunChars(s, from);
      if Occurs(s, i, key) {
        forall j | from <= j < from + |key| ensures KeyChar(s[j]) {
          assert s[j] == s[from..from + |key|][j - from];
        }
        KeyRunIs(s, from, |key|);
      }
    }
  }

  function Matched(s: string): Matches {
    (i: nat) => MatchAt(s, i)
  }

  /** Occurrences of the pattern end inside the value and do not overlap: no key holds the
      '$' that starts the next. */
  lemma OccurrencesDisjoint(s: string)
    ensures Sound(Matched(s), |s|)
  {
    forall i: nat | MatchAt(s, i).Some?
      ensures i + OVERHEAD + |MatchAt(s, i).value| <= |s|
      ensures forall j: nat :: i < j < i + OVERHEAD + |MatchAt(s, i).value| ==> MatchAt(s, j).None?
    {
      var key := MatchAt(s, i).value;
      var from := i + OPEN_LENGTH;
      MatchAtFindsOccurrence(s, i, key);
      forall j: nat | i < j < i + OVERHEAD + |key| ensures !OpensAt(s, j) {
        assert from <= j < from + |key| ==> s[j] == s[from..from + |key|][j - from];
      }
    }
  }

  function Parse(s: string): seq<Piece> {
    OccurrencesDisjoint(s);
    Scan(s, Matched(s), 0)
  }

  /** Every value splits in exactly one way into single characters and holes such that the
      holes are the occurrences of the pattern, and the split is what the scan finds. */
  lemma ParseIsTheOnlySplit(ps: seq<Piece>, s: string)
    ensures ps == Parse(s)
       <==> Fits(ps, s, 0) && forall j: nat, key :: (j, key) in Holes(ps, 0) <==> Occurs(s, j, key)
  {
    OccurrencesDisjoint(s);
    forall j: nat, key ensures Matched(s)(j) == Some(key) <==> Occurs(s, j, key) {
      MatchAtFindsOccurrence(s, j, key);
    }
    ScanTiles(s, Matched(s), 0);
    if Tiles(ps, s, Matched(s), 0) {
      TilesUnique(ps, s, Matched(s), 0);
    }
    if ps == Parse(s) {
      forall j: nat, key ensures (j, key) in Holes(ps, 0) <==> Occurs(s, j, key) {
        MatchAtFindsOccurrence(s, j, key);
      }
    } else if Fits(ps, s, 0) && forall j: nat, key :: (j, key) in Holes(ps, 0) <==> Occurs(s, j, key) {
      assert Tiles(ps, s, Matched(s), 0);
    }
  }

  /** The pieces of a value, as they are written, concatenate back to it. */
  lemma PiecesConcatenate(s: string)
    ensures Written(Parse(s), Text) == s
  {
    ParseIsTheOnlySplit(Parse(s), s);
    forall j: nat, key | (j, key) in Holes(Parse(s), 0) ensures Stands(s, Text, j, key) {
      OccursIsText(s, j, key);
    }
    WrittenIsSource(Parse(s), s, 0, Text);
    assert s[0..] == s;
  }

  // ---------------------------------------------------------------- substitution

  predicate Resolves(s: string, store: Store) {
    Missing(Parse(s), store).None?
  }

  function Substituted(s: string, store: Store): string {
    Filled(Parse(s), store)
  }

  /** A value resolves exactly when every placeholder that occurs in it does. */
  lemma ResolvesExactly(s: string, store: Store)
    ensures Resolves(s, store) <==> forall i: nat, key :: Occurs(s, i, key) ==> store(key).Some?
  {
    ParseIsTheOnlySplit(Parse(s), s);
    MissingIsAHole(Parse(s), store, 0);
  }

  lemma OccursInRest(s: string, from: nat, i: nat, key: string)
    requires from <= |s|
    ensures Occurs(s[from..], i, key) <==> Occurs(s, from + i, key)
  {
    if OpensAt(s[from..], i) && i + OPEN_LENGTH + |key| <= |s[from..]| {
      var a, n := i + OPEN_LENGTH, |key|;
      assert s[from..][a..a + n] == s[from + a..from + a + n];
    }
  }

  lemma MatchesInRest(s: string, from: nat, i: nat)
    requires from <= |s|
    ensures MatchAt(s[from..], i) == MatchAt(s, from + i)
  {
    if MatchAt(s[from..], i).Some? {
      var key := MatchAt(s[from..], i).value;
      MatchAtFindsOccurrence(s[from..], i, key);
      OccursInRest(s, from, i, key);
      MatchAtFindsOccurrence(s, from + i, key);
    } else if MatchAt(s, from + i).Some? {
      var key := MatchAt(s, from + i).value;
      MatchAtFindsOccurrence(s, from + i, key);
      OccursInRest(s, from, i, key);
      MatchAtFindsOccurrence(s[from..], i, key);
    }
  }

  lemma RestOfMatches(s: string, n: nat)
    requires n <= |s|
    ensures IsRest(s, Matched(s), n, s[n..], Matched(s[n..]))
  {
    forall k: nat ensures At(Matched(s[n..]), k) == At(Matched(s), n + k) {
      MatchesInRest(s, n, k);
    }
  }

  lemma NoneBefore(s: string, i: nat)
    requires forall j: nat, other :: j < i ==> !Occurs(s, j, other)
    ensures forall j: nat :: j < i ==> Matched(s)(j).None?
  {
    forall j: nat | j < i && MatchAt(s, j).Some? ensures false {
      MatchAtFindsOccurrence(s, j, MatchAt(s, j).value);
    }
  }

  /** Substitution from left to right: up to the first placeholder the text stays, the placeholder
      becomes its secret, and what follows it is substituted by itself. */
  lemma SubstitutesFirst(s: string, i: nat, key: string, store: Store)
    requires Occurs(s, i, key) && store(key).Some?
    requires forall j: nat, other :: j < i ==> !Occurs(s, j, other)
    ensures Substituted(s, store) == s[..i] + store(key).value + Substituted(s[i + |Text(key)|..], store)
  {
    var n := i + |Text(key)|;
    OccurrencesDisjoint(s);
    OccurrencesDisjoint(s[n..]);
    NoneBefore(s, i);
    MatchAtFindsOccurrence(s, i, key);
    RestOfMatches(s, n);
    FilledFirst(s, Matched(s), i, n, s[n..], Matched(s[n..]), store);
    assert s[0..i] == s[..i];
  }

  ghost predicate NoPlaceholder(s: string) {
    forall i: nat, key :: !Occurs(s, i, key)
  }

  lemma NoPlaceholderUnchanged(s: string, store: Store)
    requires NoPlaceholder(s)
    ensures Resolves(s, store) && Substituted(s, store) == s
  {
    ParseIsTheOnlySplit(Parse(s), s);
    NoHolesUnchanged(Parse(s), s, 0, store);
  }

  predicate ContainsOpening(s: string) {
    exists i :: 0 <= i < |s| && OpensAt(s, i)
  }

  /** The strings.Contains shortcut: without "${secret:" there is nothing to substitute. */
  lemma ShortcutAgrees(s: string, store: Store)
    requires !ContainsOpening(s)
    ensures Resolves(s, store) && Substituted(s, store) == s
  {
    NoPlaceholderUnchanged(s, store);
  }

  /** A value survives a pass with every store exactly when it has no placeholder; so a second
      pass is harmless exactly when the first one's output has none. */
  lemma StableExactlyWithoutPlaceholder(s: string)
    ensures NoPlaceholder(s) <==> forall store: Store :: Resolves(s, store) && Substituted(s, store) == s
  {
    if NoPlaceholder(s) {
      forall store: Store ensures Resolves(s, store) && Substituted(s, store) == s {
        NoPlaceholderUnchanged(s, store);
      }
    } else {
      var nothing: Store := (key: string) => None;
      ResolvesExactly(s, nothing);
      assert !Resolves(s, nothing);
    }
  }

  /** The characters between the placeholders, and the values put in for these, hold no '$'. */
  predicate NoDollar(ps: seq<Piece>, store: Store) {
    forall i :: 0 <= i < |ps| ==> '$' !in Filler(ps[i], store)
  }

  lemma {:induction false} NoDollarFilled(ps: seq<Piece>, store: Store)
    requires NoDollar(ps, store)
    ensures '$' !in Filled(ps, store)
    decreases |ps|
  {
    if ps != [] {
      assert forall i :: 0 <= i < |ps| - 1 ==> ps[1..][i] == ps[i + 1];
      NoDollarFilled(ps[1..], store);
    }
  }

  /** A second pass, with whatever secrets, changes nothing if neither the text outside the
      placeholders nor a value put in holds a '$'. */
  lemma SecondPassHarmless(s: string, store: Store, later: Store)
    requires NoDollar(Parse(s), store)
    ensures Resolves(Substituted(s, store), later) && Substituted(Substituted(s, store), later) == Substituted(s, store)
  {
    NoDollarFilled(Parse(s), store);
    var t := Substituted(s, store);
    assert forall i :: 0 <= i < |t| ==> t[i] in t;
    ShortcutAgrees(t, later);
  }

  /** Inserted text is not rescanned, and it can complete a new placeholder. */
  lemma NotIdempotent(key: string, store: Store)
    requires IsKey(key) && store(key) == Some("{secret:x}")
    ensures Substituted("$" + Text(key), store) == "${secret:x}" && !NoPlaceholder("${secret:x}")
  {
    var s, t := "$" + Text(key), "${secret:x}";
    assert t[9..10] == "x" && Occurs(t, 0, "x");
    assert s[1..] == Text(key) && s[1..1 + |Text(key)|] == Text(key);
    OccursIsText(s, 1, key);
    MatchAtFindsOccurrence(s, 1, key);
    assert s[1] == Text(key)[0] == '$' && !OpensAt(s, 0);
    OccurrencesDisjoint(s);
    var end := Scan(s, Matched(s), |s|);
    assert Scan(s, Matched(s), 1) == [Hole(key)] + end && ([Hole(key)] + end)[1..] == end;
    assert Parse(s) == [Lit('$')] + Scan(s, Matched(s), 1);
    assert Filled(end, store) == "" && Filled(Scan(s, Matched(s), 1), store) == "{secret:x}";
  }

  // ---------------------------------------------------------------- the code

  datatype Unresolved = Unresolved(variable: string, secret: string)

  predicate EnvResolves(env: map<string, string>, client: Option<Store>) {
    client.Some? ==> forall k :: k in env ==> Resolves(env[k], client.value)
  }

  function ResolvedEnv(env: map<string, string>, client: Option<Store>): map<string, string> {
    if client.None? then env else map k | k in env :: Substituted(env[k], client.value)
  }

  /** The body of the loop of resolveSecrets. */
  method ResolveValue(value: string, store: Store) returns (r: Result<string, string>)
    ensures r.Ok? <==> Resolves(value, store)
    ensures r.Ok? ==> r.value == Substituted(value, store)
    ensures r.Err? ==> Missing(Parse(value), store) == Some(r.error)
  {
    if !ContainsOpening(value) {
      ShortcutAgrees(value, store);
      return Ok(value);
    }
    OccurrencesDisjoint(value);
    var replaced, failed := ReplaceAll(value, Matched(value), store);
    return if failed.Some? then Err(failed.value) else Ok(replaced);
  }

  /** resolveSecrets: all variables or an error, in whatever order the map is visited. */
  method ResolveSecrets(env: map<string, string>, client: Option<Store>)
    returns (r: Result<map<string, string>, Unresolved>)
    ensures r.Ok? <==> EnvResolves(env, client)
    ensures r.Ok? ==> r.value == ResolvedEnv(env, client)
    ensures r.Err? ==>
              && client.Some? && r.error.variable in env
              && Missing(Parse(env[r.error.variable]), client.value) == Some(r.error.secret)
  {
    if client.None? {
      return Ok(env);
    }
    var store := client.value;
    var resolved: map<string, string> := map[];
    var left := env.Keys;
    while left != {}
      invariant left <= env.Keys && resolved.Keys == env.Keys - left
      invariant forall k :: k in resolved ==> Resolves(env[k], store) && resolved[k] == Substituted(env[k], store)
      decreases |left|
    {
      var key :| key in left;
      left := left - {key};
      var value := ResolveValue(env[key], store);
      if value.Err? {
        return Err(Unresolved(key, value.error));
      }
      resolved := resolved[key := value.value];
    }
    return Ok(resolved);
  }
}
