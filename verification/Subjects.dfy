/** NATS-style subject matching (eyenet/bus/subjects.py). */
module Subjects {
  import opened Lists

  // s.split(".")
  function SplitDots(s: string): (r: seq<string>)
    ensures r != []
  {
    if s == [] then [""]
    else
      var rest := SplitDots(s[1..]);
      if s[0] == '.' then [""] + rest else [[s[0]] + rest[0]] + rest[1..]
  }

  function Split(s: string): seq<string> {
    if s == "" then [] else SplitDots(s)
  }

  predicate IsValidPattern(pattern: string) {
    pattern != "" && ValidTokens(SplitDots(pattern))
  }

  predicate ValidTokens(tokens: seq<string>) {
    forall i :: 0 <= i < |tokens| ==> tokens[i] != "" && (tokens[i] == ">" ==> i == |tokens| - 1)
  }

  // is_valid_pattern
  method CheckPattern(pattern: string) returns (ok: bool)
    ensures ok == IsValidPattern(pattern)
  {
    if pattern == "" { return false; }
    var tokens := SplitDots(pattern);
    for idx := 0 to |tokens|
      invariant forall i :: 0 <= i < idx ==> tokens[i] != "" && (tokens[i] == ">" ==> i == |tokens| - 1)
    {
      if tokens[idx] == "" { return false; }
      if tokens[idx] == ">" && idx != |tokens| - 1 { return false; }
    }
    ok := true;
  }

  // ----- What a match is -----

  // What one pattern token may stand for.
  predicate StandsFor(tok: string, part: seq<string>) {
    if tok == ">" then |part| >= 1 else if tok == "*" then |part| == 1 else part == [tok]
  }

  ghost predicate Expands(p: seq<string>, s: seq<string>, parts: seq<seq<string>>) {
    && |parts| == |p| && Flatten(parts) == s
    && forall i :: 0 <= i < |p| ==> StandsFor(p[i], parts[i])
  }

  // The subject's tokens arise from the pattern's by substituting for each wildcard.
  ghost predicate Arises(p: seq<string>, s: seq<string>) {
    exists parts :: Expands(p, s, parts)
  }

  // The token walk as a recursion over what is left of both sides.
  predicate Walks(p: seq<string>, s: seq<string>) {
    if p == [] then s == []
    else if p[0] == ">" then s != []
    else s != [] && (p[0] == "*" || p[0] == s[0]) && Walks(p[1..], s[1..])
  }

  // subject_matches
  method SubjectMatches(pattern: string, subject: string) returns (m: bool)
    ensures m == Walks(Split(pattern), Split(subject))
  {
    var p, s := Split(pattern), Split(subject);
    var i := 0;
    for k := 0 to |p|
      invariant i == k <= |s|
      invariant Walks(p, s) == Walks(p[k..], s[i..])
    {
      var tok := p[k];
      assert p[k..][0] == tok && p[k..][1..] == p[k + 1..];
      if tok == ">" { return i < |s|; }
      if i >= |s| { return false; }
      assert s[i..][0] == s[i] && s[i..][1..] == s[i + 1..];
      if tok == "*" {
        i := i + 1;
      } else {
        if tok != s[i] { return false; }
        i := i + 1;
      }
    }
    m := i == |s|;
  }

  lemma {:induction false} WalkExpands(p: seq<string>, s: seq<string>) returns (parts: seq<seq<string>>)
    requires ValidTokens(p) && Walks(p, s)
    ensures Expands(p, s, parts)
  {
    if p == [] {
      parts := [];
    } else if p[0] == ">" {
      parts := [s];
      assert Flatten(parts) == s + Flatten([]);
    } else {
      assert forall i :: 0 <= i < |p[1..]| ==> p[1..][i] == p[i + 1];
      var rest := WalkExpands(p[1..], s[1..]);
      parts := [[s[0]]] + rest;
      assert parts[1..] == rest;
      assert s == [s[0]] + s[1..];
    }
  }

  lemma {:induction false} ExpansionWalks(p: seq<string>, s: seq<string>, parts: seq<seq<string>>)
    requires ValidTokens(p) && Expands(p, s, parts)
    ensures Walks(p, s)
  {
    if p != [] {
      assert StandsFor(p[0], parts[0]);
      assert s == parts[0] + Flatten(parts[1..]);
      if p[0] != ">" {
        assert parts[0] == [s[0]];
        assert s[1..] == Flatten(parts[1..]);
        assert forall i :: 0 <= i < |p[1..]| ==> p[1..][i] == p[i + 1] && parts[1..][i] == parts[i + 1];
        ExpansionWalks(p[1..], s[1..], parts[1..]);
      }
    }
  }

  /** For a valid pattern the index walk says yes exactly when the subject's tokens arise from the
      pattern's by replacing each `*` with one token and a final `>` with one or more. */
  lemma MatchesExactlyExpansions(pattern: string, subject: string)
    requires IsValidPattern(pattern)
    ensures Walks(Split(pattern), Split(subject)) <==> Arises(Split(pattern), Split(subject))
  {
    var p, s := Split(pattern), Split(subject);
    if Walks(p, s) { var parts := WalkExpands(p, s); }
    if Arises(p, s) {
      var parts :| Expands(p, s, parts);
      ExpansionWalks(p, s, parts);
    }
  }

  function JoinDots(tokens: seq<string>): string
    requires tokens != []
  {
    if |tokens| == 1 then tokens[0] else tokens[0] + "." + JoinDots(tokens[1..])
  }

  // Splitting loses nothing: the tokens joined with dots are the text again.
  lemma {:induction false} JoinOfSplit(s: string)
    ensures JoinDots(SplitDots(s)) == s
  {
    if s != [] {
      var rest := SplitDots(s[1..]);
      JoinOfSplit(s[1..]);
      assert s == [s[0]] + s[1..];
      if s[0] == '.' {
        assert ([""] + rest)[1..] == rest;
      } else if |rest| > 1 {
        assert ([[s[0]] + rest[0]] + rest[1..])[1..] == rest[1..];
      }
    }
  }

  // And no token holds a dot, so there is no other way to split.
  lemma {:induction false} TokensHoldNoDot(s: string, i: nat)
    requires i < |SplitDots(s)|
    ensures '.' !in SplitDots(s)[i]
  {
    if s != [] {
      var rest := SplitDots(s[1..]);
      if s[0] == '.' {
        if i > 0 { TokensHoldNoDot(s[1..], i - 1); }
      } else {
        TokensHoldNoDot(s[1..], if i == 0 then 0 else i);
      }
    }
  }

  // Every token of the pattern up to n is a star or the subject's own.
  predicate AgreeUpTo(p: seq<string>, s: seq<string>, n: nat)
    requires n <= |p| && n <= |s|
  {
    forall i :: 0 <= i < n ==> p[i] == "*" || p[i] == s[i]
  }

  /** A match position by position: as many tokens, or at least as many when the pattern ends in `>`,
      and all before that stars or equal. */
  lemma {:induction false} WalksByPosition(p: seq<string>, s: seq<string>)
    requires ValidTokens(p)
    ensures Walks(p, s) <==>
            if p != [] && p[|p| - 1] == ">" then |s| >= |p| && AgreeUpTo(p, s, |p| - 1)
            else |s| == |p| && AgreeUpTo(p, s, |p|)
  {
    if p != [] && s != [] && p[0] != ">" {
      assert forall i :: 0 <= i < |p[1..]| ==> p[1..][i] == p[i + 1];
      assert forall i :: 0 <= i < |s[1..]| ==> s[1..][i] == s[i + 1];
      WalksByPosition(p[1..], s[1..]);
    }
  }
}
