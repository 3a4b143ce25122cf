/** Searching for a pattern in a string. */
module TextSearch {
  import opened Results

  /** `s.startswith(pattern, i)`, character by character. */
  predicate MatchesAt(s: string, pattern: string, i: nat) {
    i + |pattern| <= |s| && MatchesUpTo(s, pattern, i, |pattern|)
  }

  predicate MatchesUpTo(s: string, pattern: string, i: nat, n: nat)
    requires n <= |pattern| && i + n <= |s|
  {
    n == 0 || (s[i + n - 1] == pattern[n - 1] && MatchesUpTo(s, pattern, i, n - 1))
  }

  lemma {:induction false} MatchesUpToIff(s: string, pattern: string, i: nat, n: nat)
    requires n <= |pattern| && i + n <= |s|
    ensures MatchesUpTo(s, pattern, i, n) <==> s[i..i + n] == pattern[..n]
  {
    if n > 0 {
      MatchesUpToIff(s, pattern, i, n - 1);
      assert s[i..i + n] == s[i..i + n - 1] + [s[i + n - 1]] && pattern[..n] == pattern[..n - 1] + [pattern[n - 1]];
    }
  }

  /** A match is a slice that equals the pattern. */
  lemma MatchIsSlice(s: string, pattern: string, i: nat)
    requires i + |pattern| <= |s|
    ensures MatchesAt(s, pattern, i) <==> s[i..i + |pattern|] == pattern
  {
    MatchesUpToIff(s, pattern, i, |pattern|);
    assert pattern[..|pattern|] == pattern;
  }

  /** `s.find(pattern, from)` */
  function FindFrom(s: string, pattern: string, from: nat): (found: Option<nat>)
    ensures found.Some? ==> from <= found.value && MatchesAt(s, pattern, found.value)
    ensures forall i: nat :: from <= i && (found.Some? ==> i < found.value) ==> !MatchesAt(s, pattern, i)
    decreases |s| - from
  {
    if from + |pattern| > |s| then None
    else if MatchesAt(s, pattern, from) then Some(from)
    else FindFrom(s, pattern, from + 1)
  }

  /** The first match is wherever a match is that no earlier position shares. */
  lemma FindFromIs(s: string, pattern: string, from: nat, i: nat)
    requires from <= i && MatchesAt(s, pattern, i)
    requires forall j: nat :: from <= j < i ==> !MatchesAt(s, pattern, j)
    ensures FindFrom(s, pattern, from) == Some(i)
  {
  }

  /** A match inside a prefix is a match of the whole, and the other way round. */
  lemma MatchInPrefix(s: string, tail: string, pattern: string, i: nat)
    requires i + |pattern| <= |s|
    ensures MatchesAt(s + tail, pattern, i) <==> MatchesAt(s, pattern, i)
  {
    MatchIsSlice(s, pattern, i);
    MatchIsSlice(s + tail, pattern, i);
    assert (s + tail)[i..i + |pattern|] == s[i..i + |pattern|];
  }

  /** A match that starts in a suffix is a match of the suffix. */
  lemma MatchInSuffix(head: string, s: string, pattern: string, i: nat)
    ensures MatchesAt(head + s, pattern, |head| + i) <==> MatchesAt(s, pattern, i)
  {
    if i + |pattern| <= |s| {
      MatchIsSlice(s, pattern, i);
      MatchIsSlice(head + s, pattern, |head| + i);
      assert (head + s)[|head| + i..|head| + i + |pattern|] == s[i..i + |pattern|];
    }
  }
}
