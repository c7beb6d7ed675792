/** Ordinal, case-insensitive comparison of strings, restricted to ASCII letters. */
module AsciiText {

  /** Maps 'A'..'Z' to 'a'..'z' and leaves every other character alone. */
  function ToLower(c: char): (d: char)
    ensures 'A' <= c <= 'Z' ==> 'a' <= d <= 'z' && d as int - c as int == 32
    ensures !('A' <= c <= 'Z') ==> d == c
  {
    if 'A' <= c <= 'Z' then (c as int + 32) as char else c
  }

  /** The string with every ASCII capital replaced by its small letter. */
  function Fold(s: string): (r: string)
    ensures |r| == |s|
    ensures forall i :: 0 <= i < |s| ==> r[i] == ToLower(s[i])
  {
    seq(|s|, i requires 0 <= i < |s| => ToLower(s[i]))
  }

  /** `a` and `b` differ at most in the case of their letters. */
  predicate SameIgnoringCase(a: string, b: string) {
    |a| == |b| && forall i :: 0 <= i < |a| ==> ToLower(a[i]) == ToLower(b[i])
  }

  /** `pattern` occurs in `s` at offset `i`, ignoring case. */
  predicate MatchesAt(s: string, pattern: string, i: int) {
    0 <= i && i + |pattern| <= |s| && SameIgnoringCase(s[i..i + |pattern|], pattern)
  }

  /** The window of `s` at offset `i` folds to `word` (a word in small letters). */
  predicate FoldsTo(s: string, word: string, i: int) {
    0 <= i && i + |word| <= |s| && Fold(s[i..i + |word|]) == word
  }

  /** `s` starts with `pattern`, ignoring case. */
  function StartsWithIgnoringCase(s: string, pattern: string): (b: bool)
    ensures b <==> MatchesAt(s, pattern, 0)
  {
    |pattern| <= |s| && forall k :: 0 <= k < |pattern| ==> ToLower(s[k]) == ToLower(pattern[k])
  }

  /** String.Contains with StringComparison.OrdinalIgnoreCase: scans the
      offsets of `s` from the left for an occurrence of `pattern`. */
  function ContainsIgnoringCase(s: string, pattern: string): (b: bool)
    ensures b <==> exists i :: MatchesAt(s, pattern, i)
    decreases |s|
  {
    if |s| < |pattern| then
      false
    else if StartsWithIgnoringCase(s, pattern) then
      true
    else
      var b := ContainsIgnoringCase(s[1..], pattern);
      ShiftMatch(s, pattern);
      b
  }

  /** An occurrence in `s` past its first character is an occurrence in `s[1..]`. */
  lemma ShiftMatch(s: string, pattern: string)
    requires s != []
    ensures !MatchesAt(s, pattern, 0) ==>
      ((exists i :: MatchesAt(s, pattern, i)) <==> (exists i :: MatchesAt(s[1..], pattern, i)))
  {
    if !MatchesAt(s, pattern, 0) {
      if i :| MatchesAt(s, pattern, i) {
        TailSlice(s, i - 1, |pattern|);
        assert MatchesAt(s[1..], pattern, i - 1);
      }
      if i :| MatchesAt(s[1..], pattern, i) {
        TailSlice(s, i, |pattern|);
        assert MatchesAt(s, pattern, i + 1);
      }
    }
  }

  /** A window of `s[1..]` is the window of `s` one further on. */
  lemma TailSlice(s: string, i: nat, n: nat)
    requires i + n + 1 <= |s|
    ensures s[1..][i..i + n] == s[i + 1..i + 1 + n]
  {
    var t := s[1..];
    assert forall k :: 0 <= k < |t| ==> t[k] == s[k + 1];
  }

  /** Whether an occurrence is found does not depend on the case of the letters of `s`. */
  lemma {:induction false} ContainsIgnoresCase(a: string, b: string, pattern: string)
    requires SameIgnoringCase(a, b)
    ensures ContainsIgnoringCase(a, pattern) == ContainsIgnoringCase(b, pattern)
  {
    if i :| MatchesAt(a, pattern, i) {
      assert SameIgnoringCase(a[i..i + |pattern|], b[i..i + |pattern|]);
      assert MatchesAt(b, pattern, i);
    }
    if i :| MatchesAt(b, pattern, i) {
      assert SameIgnoringCase(a[i..i + |pattern|], b[i..i + |pattern|]);
      assert MatchesAt(a, pattern, i);
    }
  }

  /** Case-insensitive matching is matching after folding both sides. */
  lemma MatchesAtFolded(s: string, pattern: string, i: int)
    requires 0 <= i && i + |pattern| <= |s|
    ensures MatchesAt(s, pattern, i) <==> Fold(s[i..i + |pattern|]) == Fold(pattern)
    ensures Fold(pattern) == pattern ==> (MatchesAt(s, pattern, i) <==> FoldsTo(s, pattern, i))
  {
    var w := s[i..i + |pattern|];
    if Fold(w) == Fold(pattern) {
      forall k | 0 <= k < |pattern| ensures ToLower(w[k]) == ToLower(pattern[k]) {
        assert Fold(w)[k] == ToLower(w[k]);
      }
    }
  }

  /** No window of `s` folds to `word` when no letter of `s` folds to the
      letter of `word` at offset `k`. */
  lemma NoFoldWithoutLetter(s: string, word: string, k: int)
    requires 0 <= k < |word|
    requires forall j :: 0 <= j < |s| ==> ToLower(s[j]) != word[k]
    ensures forall i :: !FoldsTo(s, word, i)
  {
    forall i ensures !FoldsTo(s, word, i) {
      if 0 <= i && i + |word| <= |s| {
        var w := s[i..i + |word|];
        assert w[k] == s[i + k];
        assert Fold(w)[k] != word[k];
      }
    }
  }
}
