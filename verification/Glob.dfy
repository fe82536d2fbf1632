/** Wildcard matching of actions and resources (permission/src/permission_impl.c, glob_match). */
module Glob {
  import opened CText


  /** '*' any run of characters, '?' one character, anything else itself. */
  predicate Match(pat: string, s: string)
    decreases |pat|, 0
  {
    if pat == [] then s == []
    else if pat[0] == '*' then MatchSomeSuffix(pat[1..], s)
    else s != [] && (pat[0] == '?' || pat[0] == s[0]) && Match(pat[1..], s[1..])
  }

  /** The loop that tries the rest of the pattern at every later position of s. */
  predicate MatchSomeSuffix(pat: string, s: string)
    decreases |pat|, |s| + 1
  {
    Match(pat, s) || (s != [] && MatchSomeSuffix(pat, s[1..]))
  }

  // ---------------------------------------------------------------- the language of a pattern

  function Join(pieces: seq<string>): string {
    if pieces == [] then [] else pieces[0] + Join(pieces[1..])
  }

  /** What one pattern character can stand for. */
  predicate Covers(c: char, piece: string) {
    c == '*' || (if c == '?' then |piece| == 1 else piece == [c])
  }

  /** s is cut into one piece per pattern character, each covered by it. */
  ghost predicate Explains(pat: string, pieces: seq<string>, s: string) {
    && |pieces| == |pat| && Join(pieces) == s
    && forall i | 0 <= i < |pat| :: Covers(pat[i], pieces[i])
  }

  ghost predicate InLanguage(pat: string, s: string) {
    exists pieces :: Explains(pat, pieces, s)
  }

  lemma {:induction false} SomeSuffix(pat: string, s: string, k: nat)
    requires k <= |s| && Match(pat, s[k..])
    ensures MatchSomeSuffix(pat, s)
    decreases |s|
  {
    if k == 0 {
      assert s[0..] == s;
    } else {
      assert s[k..] == s[1..][k - 1..];
      SomeSuffix(pat, s[1..], k - 1);
    }
  }

  lemma {:induction false} SuffixFound(pat: string, s: string) returns (k: nat)
    requires MatchSomeSuffix(pat, s)
    ensures k <= |s| && Match(pat, s[k..])
    decreases |s|
  {
    if Match(pat, s) {
      k := 0;
      assert s[0..] == s;
    } else {
      k := SuffixFound(pat, s[1..]);
      assert s[1..][k..] == s[k + 1..];
      k := k + 1;
    }
  }

  lemma {:induction false} ExplainedMatches(pat: string, pieces: seq<string>, s: string)
    requires Explains(pat, pieces, s)
    ensures Match(pat, s)
  {
    if pat != [] {
      var n := |pieces[0]|;
      assert s[n..] == Join(pieces[1..]);
      ExplainedMatches(pat[1..], pieces[1..], s[n..]);
      assert Covers(pat[0], pieces[0]);
      if pat[0] == '*' {
        SomeSuffix(pat[1..], s, n);
      } else {
        assert n == 1 && s[0] == pieces[0][0];
      }
    }
  }

  lemma {:induction false} MatchExplained(pat: string, s: string) returns (pieces: seq<string>)
    requires Match(pat, s)
    ensures Explains(pat, pieces, s)
  {
    if pat == [] {
      pieces := [];
    } else {
      var k := 1;
      if pat[0] == '*' {
        k := SuffixFound(pat[1..], s);
      }
      var rest := MatchExplained(pat[1..], s[k..]);
      pieces := [s[..k]] + rest;
      assert pieces[1..] == rest;
      assert s[..k] + s[k..] == s;
      assert Covers(pat[0], pieces[0]);
    }
  }

  /** The matcher accepts exactly the declarative wildcard language. */
  lemma MatchIffInLanguage(pat: string, s: string)
    ensures Match(pat, s) <==> InLanguage(pat, s)
  {
    if Match(pat, s) {
      var pieces := MatchExplained(pat, s);
    }
    if InLanguage(pat, s) {
      var pieces :| Explains(pat, pieces, s);
      ExplainedMatches(pat, pieces, s);
    }
  }

  lemma {:induction false} JoinAppend(a: seq<string>, b: seq<string>)
    ensures Join(a + b) == Join(a) + Join(b)
  {
    if a == [] {
      assert a + b == b;
    } else {
      JoinAppend(a[1..], b);
      AppendHead(a, b);
    }
  }

  lemma SplitMatch(p: string, q: string, s: string) returns (k: nat)
    requires Match(p + q, s)
    ensures k <= |s| && Match(p, s[..k]) && Match(q, s[k..])
  {
    var pieces := MatchExplained(p + q, s);
    var a, b := pieces[..|p|], pieces[|p|..];
    assert pieces == a + b;
    JoinAppend(a, b);
    k := |Join(a)|;
    assert s[..k] == Join(a) && s[k..] == Join(b);
    assert forall i | 0 <= i < |p| :: Covers((p + q)[i], pieces[i]) && (p + q)[i] == p[i];
    assert forall i | 0 <= i < |q| :: Covers((p + q)[|p| + i], pieces[|p| + i]) && (p + q)[|p| + i] == q[i];
    ExplainedMatches(p, a, s[..k]);
    ExplainedMatches(q, b, s[k..]);
  }

  lemma JoinMatch(p: string, q: string, s: string, k: nat)
    requires k <= |s| && Match(p, s[..k]) && Match(q, s[k..])
    ensures Match(p + q, s)
  {
    var a := MatchExplained(p, s[..k]);
    var b := MatchExplained(q, s[k..]);
    JoinAppend(a, b);
    assert Join(a + b) == s[..k] + s[k..] == s;
    forall i | 0 <= i < |p + q|
      ensures Covers((p + q)[i], (a + b)[i])
    {
      assert if i < |p| then Covers(p[i], a[i]) else Covers(q[i - |p|], b[i - |p|]);
    }
    ExplainedMatches(p + q, a + b, s);
  }

  /** A concatenated pattern matches exactly the concatenations of matches. */
  lemma ConcatMatch(p: string, q: string, s: string)
    ensures Match(p + q, s) <==> exists k | 0 <= k <= |s| :: Match(p, s[..k]) && Match(q, s[k..])
  {
    if Match(p + q, s) {
      var k := SplitMatch(p, q, s);
    }
    if exists k | 0 <= k <= |s| :: Match(p, s[..k]) && Match(q, s[k..]) {
      var k :| 0 <= k <= |s| && Match(p, s[..k]) && Match(q, s[k..]);
      JoinMatch(p, q, s, k);
    }
  }

  /** A pattern without wildcards matches itself and nothing else. */
  lemma {:induction false} LiteralMatch(pat: string, s: string)
    requires '*' !in pat && '?' !in pat
    ensures Match(pat, s) <==> pat == s
  {
    if pat != [] && s != [] {
      LiteralMatch(pat[1..], s[1..]);
      assert pat == [pat[0]] + pat[1..] && s == [s[0]] + s[1..];
      assert pat[0] in pat;
    }
  }

  /** "prefix*" matches exactly the strings with that prefix. */
  lemma SubtreeMatch(prefix: string, s: string)
    requires '*' !in prefix && '?' !in prefix
    ensures Match(prefix + "*", s) <==> prefix <= s
  {
    ConcatMatch(prefix, "*", s);
    forall k | 0 <= k <= |s|
      ensures Match("*", s[k..]) && (Match(prefix, s[..k]) <==> prefix == s[..k])
    {
      var rest := s[k..];
      assert rest[|rest|..] == [];
      assert Match("*"[1..], rest[|rest|..]);
      SomeSuffix("*"[1..], rest, |rest|);
      LiteralMatch(prefix, s[..k]);
    }
    if prefix <= s {
      assert s[..|prefix|] == prefix;
    }
  }
}
