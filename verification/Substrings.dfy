/**
  longest_common_substring and max_rep_len of refsapi_misc.cpp: a table of common suffix lengths, and a search for
  repeats that shrinks its own loop bounds.
*/
module Substrings {
  import opened Common

  // The L characters of s from i on are the L characters of t from j on.
  ghost predicate EqualAt(s: Text, i: nat, t: Text, j: nat, L: nat) {
    i + L <= |s| && j + L <= |t| && forall x :: i <= x < i + L ==> s[x] == t[j + (x - i)]
  }

  // ---- Longest common substring ----

  ghost predicate CommonPart(s: Text, t: Text, L: nat) {
    exists i: nat, j: nat :: EqualAt(s, i, t, j, L)
  }

  // L is the greatest length of a substring of both.
  ghost predicate IsLongest(s: Text, t: Text, L: nat) {
    CommonPart(s, t, L) && forall m: nat :: CommonPart(s, t, m) ==> m <= L
  }

  // The length of the longest common suffix of the first i characters of s and the first j of t.
  function Suffix(s: Text, t: Text, i: nat, j: nat): (r: nat)
    requires i <= |s| && j <= |t|
    ensures r <= i && r <= j
  {
    if i == 0 || j == 0 || s[i - 1] != t[j - 1] then 0 else Suffix(s, t, i - 1, j - 1) + 1
  }

  lemma {:induction false} SuffixIsLongest(s: Text, t: Text, i: nat, j: nat, L: nat)
    requires i <= |s| && j <= |t| && L <= i && L <= j
    ensures EqualAt(s, i - L, t, j - L, L) <==> L <= Suffix(s, t, i, j)
  {
    if L > 0 {
      SuffixIsLongest(s, t, i - 1, j - 1, L - 1);
      assert EqualAt(s, i - L, t, j - L, L) <==> EqualAt(s, i - L, t, j - L, L - 1) && s[i - 1] == t[j - 1];
    }
  }

  // The largest entry of the table is the length of the longest common substring.
  lemma TableMaximum(s: Text, t: Text, best: nat, wi: nat, wj: nat)
    requires wi <= |s| && wj <= |t| && best == Suffix(s, t, wi, wj)
    requires forall i, j :: 0 <= i <= |s| && 0 <= j <= |t| ==> Suffix(s, t, i, j) <= best
    ensures IsLongest(s, t, best)
  {
    SuffixIsLongest(s, t, wi, wj, best);
    forall m: nat | CommonPart(s, t, m) ensures m <= best {
      var i: nat, j: nat :| EqualAt(s, i, t, j, m);
      SuffixIsLongest(s, t, i + m, j + m, m);
    }
  }

  method LongestCommonSubstring(s1: Text, s2: Text) returns (maxLen: nat)
    ensures IsLongest(s1, s2, maxLen)
  {
    var len1, len2 := |s1|, |s2|;
    var dp := new nat[len1 + 1, len2 + 1]((_, _) => 0);
    maxLen := 0;
    ghost var wi, wj := 0, 0;
    for i := 1 to len1 + 1
      invariant forall a, b :: 0 <= a < i && 0 <= b <= len2 ==> dp[a, b] == Suffix(s1, s2, a, b) <= maxLen
      invariant forall a, b :: i <= a <= len1 && 0 <= b <= len2 ==> dp[a, b] == 0
      invariant wi <= len1 && wj <= len2 && maxLen == Suffix(s1, s2, wi, wj)
    {
      for j := 1 to len2 + 1
        invariant forall a, b :: 0 <= a < i && 0 <= b <= len2 ==> dp[a, b] == Suffix(s1, s2, a, b) <= maxLen
        invariant forall b :: 0 <= b < j ==> dp[i, b] == Suffix(s1, s2, i, b) <= maxLen
        invariant forall a, b :: i <= a <= len1 && 0 <= b <= len2 && (a > i || b >= j) ==> dp[a, b] == 0
        invariant wi <= len1 && wj <= len2 && maxLen == Suffix(s1, s2, wi, wj)
      {
        if s1[i - 1] == s2[j - 1] {
          dp[i, j] := dp[i - 1, j - 1] + 1;
          if dp[i, j] > maxLen {
            maxLen, wi, wj := dp[i, j], i, j;
          }
        }
      }
    }
    TableMaximum(s1, s2, maxLen, wi, wj);
  }

  lemma LongestUnique(s: Text, t: Text, a: nat, b: nat)
    requires IsLongest(s, t, a) && IsLongest(s, t, b)
    ensures a == b
  {}

  lemma LongestSymmetric(s: Text, t: Text, a: nat)
    requires IsLongest(s, t, a)
    ensures IsLongest(t, s, a)
  {
    forall m: nat | CommonPart(s, t, m) || CommonPart(t, s, m) ensures CommonPart(s, t, m) && CommonPart(t, s, m) {
      if CommonPart(s, t, m) {
        var i: nat, j: nat :| EqualAt(s, i, t, j, m);
        assert EqualAt(t, j, s, i, m);
      } else {
        var i: nat, j: nat :| EqualAt(t, i, s, j, m);
        assert EqualAt(s, j, t, i, m);
      }
    }
  }

  lemma {:induction false} SomeLongest(s: Text, t: Text, top: nat) returns (L: nat)
    requires forall m: nat :: CommonPart(s, t, m) ==> m <= top
    ensures IsLongest(s, t, L)
  {
    if CommonPart(s, t, top) {
      return top;
    }
    assert EqualAt(s, 0, t, 0, 0);
    assert CommonPart(s, t, 0);
    L := SomeLongest(s, t, top - 1);
  }

  // The length of the longest common substring.
  ghost function LcsLen(s: Text, t: Text): (L: nat)
    ensures IsLongest(s, t, L)
  {
    assert exists L: nat :: IsLongest(s, t, L) by {
      var L := SomeLongest(s, t, |s|);
    }
    var L: nat :| IsLongest(s, t, L);
    L
  }

  lemma LcsLenSymmetric(s: Text, t: Text)
    ensures LcsLen(s, t) == LcsLen(t, s)
  {
    LongestSymmetric(s, t, LcsLen(s, t));
    LongestUnique(t, s, LcsLen(s, t), LcsLen(t, s));
  }

  lemma LongestBound(s: Text, t: Text, a: nat)
    requires IsLongest(s, t, a)
    ensures a <= |s| && a <= |t|
  {}

  // ---- Longest repeat ----

  // Some substring of length L occurs at two different positions (the occurrences may overlap).
  ghost predicate Repeats(s: Text, L: nat) {
    exists i: nat, j: nat :: i < j && EqualAt(s, i, s, j, L)
  }

  // Every repeat that starts at a and b is at most m long.
  ghost predicate Covered(s: Text, a: nat, b: nat, m: nat) {
    forall L: nat :: EqualAt(s, a, s, b, L) ==> L <= m
  }

  lemma CoveredTail(s: Text, a: nat, b: nat, m: nat)
    requires b + m >= |s|
    ensures Covered(s, a, b, m)
  {}

  // The match that starts at i and j cannot be extended beyond k.
  lemma MatchCovers(s: Text, i: nat, j: nat, k: nat)
    requires i < j && j + k <= |s| && (j + k < |s| ==> s[i + k] != s[j + k])
    ensures Covered(s, i, j, k)
  {
    forall L: nat | EqualAt(s, i, s, j, L) ensures L <= k {
      assert j + k < |s| ==> s[i + k] != s[j + ((i + k) - i)];
    }
  }

  // The length of the match between the positions i and j.
  method MatchLength(s: Text, i: nat, j: nat) returns (k: nat)
    requires i < j < |s|
    ensures EqualAt(s, i, s, j, k) && Covered(s, i, j, k)
    ensures s[i] != s[j] ==> k == 0
  {
    if s[i] != s[j] {
      MatchCovers(s, i, j, 0);
      return 0;
    }
    k := 1;
    var limit := |s| - j;
    while k < limit && s[i + k] == s[j + k]
      invariant 1 <= k <= limit && EqualAt(s, i, s, j, k)
    {
      k := k + 1;
    }
    MatchCovers(s, i, j, k);
  }

  // Every repeat whose first occurrence starts before i is at most m long.
  ghost predicate CoveredBefore(s: Text, i: nat, m: nat) {
    forall a: nat, b: nat :: a < i && a < b < |s| ==> Covered(s, a, b, m)
  }

  lemma CoveredMore(s: Text, i: nat, m: nat, m': nat)
    requires CoveredBefore(s, i, m) && m <= m'
    ensures CoveredBefore(s, i, m')
  {
    forall a: nat, b: nat | a < i && a < b < |s| ensures Covered(s, a, b, m') {
      assert Covered(s, a, b, m);
    }
  }

  // The inner loop: all partners of position i, with the bound shrinking as longer matches are found.
  method BestAt(s: Text, i: nat, best: nat) returns (maxLen: nat)
    requires i < |s| && best < |s| && (best > 0 ==> Repeats(s, best))
    ensures best <= maxLen < |s| && (maxLen > 0 ==> Repeats(s, maxLen))
    ensures forall b: nat :: i < b < |s| ==> Covered(s, i, b, maxLen)
  {
    var n := |s|;
    maxLen := best;
    var j := i + 1;
    while j < n - maxLen
      invariant i < j <= n && best <= maxLen < n
      invariant maxLen > 0 ==> Repeats(s, maxLen)
      invariant forall b: nat :: i < b < j ==> Covered(s, i, b, maxLen)
    {
      var k := MatchLength(s, i, j);
      if k > maxLen {
        assert Repeats(s, k);
        forall b: nat | i < b < j ensures Covered(s, i, b, k) {
          assert Covered(s, i, b, maxLen);
        }
        maxLen := k;
      }
      j := j + 1;
    }
    forall b: nat | i < b < n ensures Covered(s, i, b, maxLen) {
      if b >= j {
        CoveredTail(s, i, b, maxLen);
      }
    }
  }

  method MaxRepLen(s: Text) returns (maxLen: nat)
    ensures maxLen > 0 ==> Repeats(s, maxLen)
    ensures forall L: nat :: L > maxLen ==> !Repeats(s, L)
  {
    var n := |s|;
    if n < 2 {
      return 0;
    }
    maxLen := 0;
    var i := 0;
    while i < n - maxLen
      invariant 0 <= i <= n && maxLen < n
      invariant maxLen > 0 ==> Repeats(s, maxLen)
      invariant CoveredBefore(s, i, maxLen)
    {
      var m := BestAt(s, i, maxLen);
      CoveredMore(s, i, maxLen, m);
      maxLen := m;
      i := i + 1;
    }
    forall L: nat | Repeats(s, L) ensures L <= maxLen {
      RepeatBounded(s, i, maxLen, L);
    }
  }

  // Once the outer bound is reached, what was not searched is too close to the end to matter.
  lemma RepeatBounded(s: Text, i: nat, m: nat, L: nat)
    requires CoveredBefore(s, i, m) && i + m >= |s| && Repeats(s, L)
    ensures L <= m
  {
    var a: nat, b: nat :| a < b && EqualAt(s, a, s, b, L);
    if a >= i || b >= |s| {
      CoveredTail(s, a, b, m);
    }
    assert Covered(s, a, b, m);
  }
}
