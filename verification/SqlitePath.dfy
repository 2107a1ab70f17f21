/** Database paths of libcephsqlite: parsing and the canonical form. */
module SqlitePath {
  import opened Wrappers

  datatype FileLoc = FileLoc(pool: string, radosns: string, name: string)

  predicate IsDigit(c: char) { '0' <= c <= '9' }

  predicate IsWord(c: char) {
    IsDigit(c) || 'a' <= c <= 'z' || 'A' <= c <= 'Z' || c == '-' || c == '_' || c == '.'
  }

  predicate Digits(s: string) { forall i :: 0 <= i < |s| ==> IsDigit(s[i]) }

  predicate Words(s: string) { forall i :: 0 <= i < |s| ==> IsWord(s[i]) }

  // ----- the two regular expressions, as a language

  /** A pool is an asterisk and its number, or a name. */
  predicate IsPool(pool: string) {
    || (|pool| > 1 && pool[0] == '*' && Digits(pool[1..]))
    || (pool != "" && Words(pool))
  }

  predicate ValidLoc(loc: FileLoc) {
    IsPool(loc.pool) && Words(loc.radosns) && loc.name != "" && Words(loc.name)
  }

  predicate AllSlashes(s: string) { forall i :: 0 <= i < |s| ==> s[i] == '/' }

  predicate OverDigits(s: string) { forall i :: 0 <= i < |s| ==> '0' <= s[i] <= '9' }

  predicate OverWords(s: string) {
    forall i :: 0 <= i < |s| ==>
      || s[i] in "-_."
      || '0' <= s[i] <= '9' || 'a' <= s[i] <= 'z' || 'A' <= s[i] <= 'Z'
  }

  /** The captures stand at these positions: slashes up to `i`, a colon at `j`, and a slash at
      `k`. */
  predicate Captures(path: string, loc: FileLoc, i: int, j: int, k: int) {
    && 0 <= i < j < k < |path| - 1
    && (forall p :: 0 <= p < i ==> path[p] == '/')
    && path[j] == ':' && path[k] == '/'
    && loc.pool == path[i..j] && loc.radosns == path[j + 1..k] && loc.name == path[k + 1..]
  }

  /** One of the expressions matches `path` with the captures `loc`: the pool is an asterisk
      and digits or a word, the namespace may be empty, the name may not. */
  ghost predicate Matches(path: string, loc: FileLoc) {
    && (exists i, j, k :: Captures(path, loc, i, j, k))
    && ((loc.pool[..1] == "*" && |loc.pool| > 1 && OverDigits(loc.pool[1..])) || OverWords(loc.pool))
    && OverWords(loc.radosns) && OverWords(loc.name)
  }

  /** A valid location, printed after any number of slashes. */
  ghost predicate Printed(path: string, loc: FileLoc) {
    ValidLoc(loc) && exists slashes: string :: AllSlashes(slashes) && path == slashes + Canonical(loc)
  }

  function Canonical(loc: FileLoc): string {
    loc.pool + ":" + loc.radosns + "/" + loc.name
  }

  // ----- parsing

  function StripSlashes(s: string): string {
    if s != "" && s[0] == '/' then StripSlashes(s[1..]) else s
  }

  /** The part before the first `c` and the part after it. */
  function SplitAt(s: string, c: char): (r: Option<(string, string)>)
    ensures r.Some? ==> s == r.value.0 + [c] + r.value.1 && c !in r.value.0
    ensures r.None? ==> c !in s
  {
    if s == "" then None
    else if s[0] == c then Some(("", s[1..]))
    else
      var r := SplitAt(s[1..], c);
      if r.None? then None else Some(([s[0]] + r.value.0, r.value.1))
  }

  function ParsePath(path: string): Option<FileLoc> {
    var p := SplitAt(StripSlashes(path), ':');
    if p.None? then None else
      var q := SplitAt(p.value.1, '/');
      if q.None? then None else
        var loc := FileLoc(p.value.0, q.value.0, q.value.1);
        if ValidLoc(loc) then Some(loc) else None
  }

  lemma {:induction false} StripSlashesMeaning(s: string)
    ensures exists slashes: string :: AllSlashes(slashes) && s == slashes + StripSlashes(s)
  {
    if s != "" && s[0] == '/' {
      StripSlashesMeaning(s[1..]);
      var rest: string :| AllSlashes(rest) && s[1..] == rest + StripSlashes(s[1..]);
      assert AllSlashes(['/'] + rest) && s == (['/'] + rest) + StripSlashes(s);
    } else {
      assert AllSlashes("") && s == "" + StripSlashes(s);
    }
  }

  lemma {:induction false} StripSlashesUndoes(slashes: string, s: string)
    requires AllSlashes(slashes) && s != "" && s[0] != '/'
    ensures StripSlashes(slashes + s) == s
  {
    if slashes == "" {
      assert slashes + s == s;
    } else {
      assert (slashes + s)[1..] == slashes[1..] + s;
      StripSlashesUndoes(slashes[1..], s);
    }
  }

  lemma {:induction false} SplitAtUndoes(a: string, c: char, b: string)
    requires c !in a
    ensures SplitAt(a + [c] + b, c) == Some((a, b))
  {
    var s := a + [c] + b;
    if a == "" {
      assert s[1..] == b;
    } else {
      assert s[1..] == a[1..] + [c] + b;
      SplitAtUndoes(a[1..], c, b);
      assert [a[0]] + a[1..] == a && s[0] == a[0];
    }
  }

  lemma PoolClean(loc: FileLoc)
    requires ValidLoc(loc)
    ensures loc.pool != "" && loc.pool[0] != '/' && ':' !in loc.pool && '/' !in loc.radosns
  {
    forall i | 0 <= i < |loc.pool| ensures loc.pool[i] != ':' && loc.pool[i] != '/' {
      if loc.pool[0] == '*' && i > 0 {
        assert !Words(loc.pool) ==> IsDigit(loc.pool[1..][i - 1]);
        assert !IsWord(loc.pool[0]);
      }
    }
  }

  lemma Classes(s: string)
    ensures Digits(s) <==> OverDigits(s)
    ensures Words(s) <==> OverWords(s)
  {
  }

  lemma ValidClasses(loc: FileLoc)
    requires loc.pool != "" && loc.name != ""
    ensures ValidLoc(loc) <==>
      && ((loc.pool[..1] == "*" && |loc.pool| > 1 && OverDigits(loc.pool[1..])) || OverWords(loc.pool))
      && OverWords(loc.radosns) && OverWords(loc.name)
  {
    hide OverDigits, OverWords, Digits, Words;
    Classes(loc.pool);
    Classes(loc.pool[1..]);
    Classes(loc.radosns);
    Classes(loc.name);
    assert loc.pool[..1] == "*" <==> loc.pool[0] == '*';
  }

  lemma CapturesPrinted(path: string, loc: FileLoc, i: int, j: int, k: int)
    requires Captures(path, loc, i, j, k)
    ensures AllSlashes(path[..i]) && path == path[..i] + Canonical(loc) && loc.pool != "" && loc.name != ""
  {
    assert Canonical(loc) == path[i..];
  }

  lemma PrintedCaptures(path: string, loc: FileLoc, slashes: string)
    requires AllSlashes(slashes) && path == slashes + Canonical(loc) && loc.pool != "" && loc.name != ""
    ensures Captures(path, loc, |slashes|, |slashes| + |loc.pool|, |slashes| + |loc.pool| + 1 + |loc.radosns|)
  {
    var i, j := |slashes|, |slashes| + |loc.pool|;
    var k := j + 1 + |loc.radosns|;
    assert path[i..j] == loc.pool && path[j + 1..k] == loc.radosns && path[k + 1..] == loc.name;
    assert path[j] == Canonical(loc)[j - i] == ':' && path[k] == Canonical(loc)[k - i] == '/';
  }

  /** The two ways to put it agree. */
  lemma PrintedMatches(path: string, loc: FileLoc)
    ensures Printed(path, loc) <==> Matches(path, loc)
  {
    hide Captures, OverDigits, OverWords, Canonical, AllSlashes;
    if Printed(path, loc) {
      var slashes: string :| AllSlashes(slashes) && path == slashes + Canonical(loc);
      PoolClean(loc);
      PrintedCaptures(path, loc, slashes);
      ValidClasses(loc);
    }
    if Matches(path, loc) {
      var i, j, k :| Captures(path, loc, i, j, k);
      CapturesPrinted(path, loc, i, j, k);
      ValidClasses(loc);
    }
  }

  lemma ParseSound(path: string, loc: FileLoc)
    requires ParsePath(path) == Some(loc)
    ensures Printed(path, loc)
  {
    hide ValidLoc, StripSlashes, SplitAt, AllSlashes;
    StripSlashesMeaning(path);
    var slashes: string :| AllSlashes(slashes) && path == slashes + StripSlashes(path);
    var p := SplitAt(StripSlashes(path), ':').value;
    var q := SplitAt(p.1, '/').value;
    assert StripSlashes(path) == p.0 + [':'] + (q.0 + ['/'] + q.1) == Canonical(loc);
  }

  lemma ParseComplete(path: string, loc: FileLoc)
    requires Printed(path, loc)
    ensures ParsePath(path) == Some(loc)
  {
    hide ValidLoc, StripSlashes, SplitAt, AllSlashes;
    var slashes: string :| AllSlashes(slashes) && path == slashes + Canonical(loc);
    var rest := loc.radosns + ['/'] + loc.name;
    PoolClean(loc);
    assert Canonical(loc) == loc.pool + [':'] + rest;
    StripSlashesUndoes(slashes, Canonical(loc));
    SplitAtUndoes(loc.pool, ':', rest);
    SplitAtUndoes(loc.radosns, '/', loc.name);
  }

  /** A path is accepted with a location exactly when one of the expressions matches it with
      these captures; in particular the captures are unique. */
  lemma ParseMatches(path: string, loc: FileLoc)
    ensures ParsePath(path) == Some(loc) <==> Matches(path, loc)
  {
    hide Matches, ParsePath, Printed;
    PrintedMatches(path, loc);
    if ParsePath(path) == Some(loc) { ParseSound(path, loc); }
    if Printed(path, loc) { ParseComplete(path, loc); }
  }

  /** The canonical form of an accepted path parses back to the same location. */
  lemma RoundTrip(loc: FileLoc)
    requires ValidLoc(loc)
    ensures ParsePath(Canonical(loc)) == Some(loc)
  {
    assert AllSlashes("") && Canonical(loc) == "" + Canonical(loc);
    ParseComplete(Canonical(loc), loc);
  }

  // ----- FullPathname

  datatype PathResult = Ok(path: string) | NotFound | CantOpen

  function FullPathname(path: string, opathlen: nat): PathResult {
    var loc := ParsePath(path);
    if loc.None? then NotFound
    else if |Canonical(loc.value)| >= opathlen then CantOpen
    else Ok(Canonical(loc.value))
  }

  /** The result in terms of the location: its pool, a colon, its namespace, a slash and its
      name, if that leaves room for the terminating zero. */
  lemma FullPathnameMeaning(path: string, loc: FileLoc, n: nat)
    ensures (forall l :: !Matches(path, l)) <==> FullPathname(path, n) == NotFound
    ensures Matches(path, loc) ==>
      var text := loc.pool + ":" + loc.radosns + "/" + loc.name;
      FullPathname(path, n) == if |text| < n then Ok(text) else CantOpen
  {
    hide Matches, ParsePath;
    ParseMatches(path, loc);
    if ParsePath(path).Some? { ParseMatches(path, ParsePath(path).value); }
    forall l | Matches(path, l) ensures ParsePath(path) == Some(l) { ParseMatches(path, l); }
  }

  /** Canonical paths are fixed points, and two accepted paths have the same canonical form
      exactly when they name the same location. */
  lemma CanonicalForm(p: string, q: string, n: nat)
    requires FullPathname(p, n).Ok? && FullPathname(q, n).Ok?
    ensures FullPathname(FullPathname(p, n).path, n) == FullPathname(p, n)
    ensures FullPathname(p, n) == FullPathname(q, n) <==> ParsePath(p) == ParsePath(q)
  {
    RoundTrip(ParsePath(p).value);
    RoundTrip(ParsePath(q).value);
  }

  /** The canonical form is the shortest accepted path for its location. */
  lemma CanonicalShortest(p: string, loc: FileLoc)
    requires ParsePath(p) == Some(loc)
    ensures |Canonical(loc)| <= |p| && (|Canonical(loc)| == |p| ==> p == Canonical(loc))
  {
    ParseSound(p, loc);
    var slashes: string :| AllSlashes(slashes) && p == slashes + Canonical(loc);
  }
}
