/** Glob escaping of pool, namespace, image and snapshot names, against the pattern matching
    notation of section 2.13 of the POSIX.1-2017 Shell Command Language.
 */
module Glob {

  // ----- the notation

  function FindClose(p: string, i: nat): (e: int)
    ensures e == -1 || (i <= e < |p| && p[e] == ']')
    decreases |p| - i
  {
    if i >= |p| then -1 else if p[i] == ']' then i else FindClose(p, i + 1)
  }

  /** Where the bracket expression at the start of `p` ends, or -1 if it is not one.  A
      closing bracket directly after the opening one, or after the `!`, is a member. */
  function BracketEnd(p: string): (e: int)
    requires p != "" && p[0] == '['
    ensures e == -1 || (2 <= e < |p|)
  {
    FindClose(p, if |p| > 1 && p[1] == '!' then 3 else 2)
  }

  predicate InList(list: string, c: char) {
    if list == "" then false
    else if |list| >= 3 && list[1] == '-' then list[0] <= c <= list[2] || InList(list[3..], c)
    else list[0] == c || InList(list[1..], c)
  }

  predicate InBracket(members: string, c: char) {
    if members != "" && members[0] == '!' then !InList(members[1..], c) else InList(members, c)
  }

  /** Pattern `p` matches `t` as a whole.  A trailing backslash matches nothing. */
  predicate Match(p: string, t: string)
    decreases |p| + |t|
  {
    if p == "" then t == ""
    else if p[0] == '*' then Match(p[1..], t) || (t != "" && Match(p, t[1..]))
    else if t == "" then false
    else if p[0] == '?' then Match(p[1..], t[1..])
    else if p[0] == '\\' then |p| > 1 && t[0] == p[1] && Match(p[2..], t[1..])
    else if p[0] == '[' && BracketEnd(p) != -1 then
      InBracket(p[1..BracketEnd(p)], t[0]) && Match(p[BracketEnd(p) + 1..], t[1..])
    else t[0] == p[0] && Match(p[1..], t[1..])
  }

  // ----- escaping

  predicate IsMeta(c: char) {
    c == '*' || c == '?' || c == '['
  }

  function Escaped(c: char): string {
    if IsMeta(c) then ['[', c, ']'] else [c]
  }

  function EscapeGlob(s: string): string {
    if s == "" then "" else Escaped(s[0]) + EscapeGlob(s[1..])
  }

  /** Names without metacharacters are left alone. */
  lemma {:induction false} EscapeOnly(s: string)
    requires forall i :: 0 <= i < |s| ==> s[i] != '*' && s[i] != '?' && s[i] != '['
    ensures EscapeGlob(s) == s
  {
    if s != "" {
      EscapeOnly(s[1..]);
      assert s == [s[0]] + s[1..];
    }
  }

  /** One escaped character other than a backslash matches exactly itself. */
  lemma EscapedMatches(c: char, rest: string, t: string)
    requires c != '\\'
    ensures Match(Escaped(c) + rest, t) <==> t != "" && t[0] == c && Match(rest, t[1..])
  {
    var p := Escaped(c) + rest;
    if IsMeta(c) {
      assert p[2] == ']' && BracketEnd(p) == 2;
      assert p[1..2] == [c] && p[3..] == rest;
      if t != "" { assert InList([c], t[0]) <==> t[0] == c by { assert [c][1..] == ""; } }
    } else {
      assert p[1..] == rest;
    }
  }

  lemma {:induction false} EscapeExact(s: string, t: string)
    requires '\\' !in s
    ensures Match(EscapeGlob(s), t) <==> t == s
  {
    if s != "" {
      EscapedMatches(s[0], EscapeGlob(s[1..]), t);
      if t != "" {
        EscapeExact(s[1..], t[1..]);
        assert t == [t[0]] + t[1..] && s == [s[0]] + s[1..];
      }
    }
  }

  /** The number of leading backslashes. */
  function Lead(s: string): nat {
    if s != "" && s[0] == '\\' then 1 + Lead(s[1..]) else 0
  }

  /** A run of backslashes in a name escapes itself away: the pattern wants only half of it. */
  lemma {:induction false} BackslashesHalve(s: string, t: string)
    requires 2 * Lead(t) > Lead(s)
    ensures !Match(EscapeGlob(s), t)
    decreases |s|
  {
    if s != "" && s[0] == '\\' {
      var p := EscapeGlob(s);
      assert p == ['\\'] + EscapeGlob(s[1..]);
      if Lead(s) == 1 {
        if |s| > 1 {
          assert EscapeGlob(s[1..]) == Escaped(s[1]) + EscapeGlob(s[2..]) by { assert s[1..][1..] == s[2..]; }
          assert p[1] != '\\';
        }
      } else {
        assert s[1..][0] == '\\' && s[1..][1..] == s[2..];
        assert EscapeGlob(s[1..]) == ['\\'] + EscapeGlob(s[2..]);
        assert p[2..] == EscapeGlob(s[2..]);
        BackslashesHalve(s[2..], t[1..]);
      }
    } else if s != "" {
      EscapedMatches(s[0], EscapeGlob(s[1..]), t);
    }
  }

  lemma {:induction false} BackslashNeverMatchesItself(s: string)
    requires '\\' in s
    ensures !Match(EscapeGlob(s), s)
  {
    if s[0] == '\\' {
      BackslashesHalve(s, s);
    } else {
      EscapedMatches(s[0], EscapeGlob(s[1..]), s);
      BackslashNeverMatchesItself(s[1..]);
    }
  }

  /** The escaped name matches that name and nothing else, exactly when the name contains no
      backslash. */
  lemma EscapeExactly(s: string)
    ensures (forall t: string :: Match(EscapeGlob(s), t) <==> t == s) <==> '\\' !in s
  {
    if '\\' in s {
      BackslashNeverMatchesItself(s);
    } else {
      forall t: string ensures Match(EscapeGlob(s), t) <==> t == s { EscapeExact(s, t); }
    }
  }
}
