/**
  similarity_score of refsapi_misc.cpp with its bigram cache, over exact real arithmetic.  Name normalization is a
  parameter: the score only depends on the two normalized names.
*/
module Similarity {
  import opened Common
  import opened EditDistance
  import Substrings

  // ---- N-grams and their cache ----

  function Gram(s: Text, i: nat, n: nat): Text
    requires i + n <= |s|
  {
    s[i..i + n]
  }

  ghost function Ngrams(s: Text, n: nat): set<Text>
    requires n <= |s|
  {
    set i | 0 <= i <= |s| - n :: Gram(s, i, n)
  }

  // A fresh computation; a negative n converts to a size larger than any string.
  ghost function FreshNgrams(s: Text, n: int): set<Text> {
    if n < 0 || |s| < n then {} else Ngrams(s, n)
  }

  // Each set in the cache was computed for the length that lens gives its string.
  ghost predicate FilledBy(cache: map<Text, set<Text>>, lens: map<Text, nat>) {
    forall s :: s in cache ==> s in lens && lens[s] <= |s| && cache[s] == Ngrams(s, lens[s])
  }

  // Everything in the cache was computed for the length n.
  ghost predicate FilledFor(cache: map<Text, set<Text>>, n: nat) {
    forall s :: s in cache ==> n <= |s| && cache[s] == Ngrams(s, n)
  }

  class NgramCache {
    var cache: map<Text, set<Text>>     // g_cache_ngrams
    ghost var lens: map<Text, nat>      // the n of the call that filled the entry

    ghost predicate Valid()
      reads this
    {
      FilledBy(cache, lens)
    }

    constructor ()
      ensures Valid() && cache == map[]
    {
      cache, lens := map[], map[];
    }

    // The cache is keyed by the string alone.
    method GetCachedNgrams(s: Text, n: int) returns (ngrams: set<Text>)
      modifies this
      ensures old(Valid()) ==> Valid()
      ensures lens == if n < 0 || |s| < n || s in old(cache) then old(lens) else old(lens)[s := n]
      ensures ngrams == CachedNgrams(old(cache), s, n)
      ensures cache == if n < 0 || |s| < n || s in old(cache) then old(cache) else old(cache)[s := ngrams]
    {
      if n < 0 || |s| < n {
        return {};
      }
      if s in cache {
        return cache[s];
      }
      ngrams := {};
      for i := 0 to |s| - n + 1
        invariant ngrams == set k | 0 <= k < i :: Gram(s, k, n)
        invariant cache == old(cache) && lens == old(lens)
      {
        ngrams := ngrams + {Gram(s, i, n)};
      }
      cache, lens := cache[s := ngrams], lens[s := n];
    }
  }

  ghost function CachedNgrams(cache: map<Text, set<Text>>, s: Text, n: int): set<Text> {
    if n < 0 || |s| < n then {} else if s in cache then cache[s] else Ngrams(s, n)
  }

  lemma NgramLengths(s: Text, n: nat)
    requires n <= |s|
    ensures Gram(s, 0, n) in Ngrams(s, n) && forall g :: g in Ngrams(s, n) ==> |g| == n
  {}

  // Whatever calls have filled the cache, it answers correctly exactly when the lengths agree, or the string is too
  // short, or has not been seen.
  lemma CacheAgreesExactly(cache: map<Text, set<Text>>, lens: map<Text, nat>, s: Text, n: int)
    requires FilledBy(cache, lens)
    ensures CachedNgrams(cache, s, n) == FreshNgrams(s, n) <==> n < 0 || |s| < n || s !in cache || n == lens[s]
  {
    if 0 <= n <= |s| && s in cache && n != lens[s] {
      NgramLengths(s, n);
      NgramLengths(s, lens[s]);
    }
  }

  // A cache filled for one length alone answers every call for that length correctly.
  lemma UniformCacheAgrees(cache: map<Text, set<Text>>, s: Text, n: nat)
    requires FilledFor(cache, n)
    ensures CachedNgrams(cache, s, n) == FreshNgrams(s, n)
  {
    var lens := map x | x in cache :: n;
    CacheAgreesExactly(cache, lens, s, n);
  }

  // A cache that has seen "ab" for bigrams answers with its bigram when asked for single characters.
  lemma CacheIgnoresLength(cache: map<Text, set<Text>>)
    requires FilledFor(cache, 2) && "ab" in cache
    ensures CachedNgrams(cache, "ab", 1) == {"ab"} && FreshNgrams("ab", 1) == {"a", "b"}
  {
    assert Gram("ab", 0, 2) == "ab" && Gram("ab", 0, 1) == "a" && Gram("ab", 1, 1) == "b";
    assert cache["ab"] == Ngrams("ab", 2);
    forall g | g in Ngrams("ab", 2) ensures g == "ab" {
      var i :| 0 <= i <= 0 && g == Gram("ab", i, 2);
    }
    assert Ngrams("ab", 1) == {"a", "b"};
  }

  lemma CacheStaysFilled(cache: map<Text, set<Text>>, n: nat, s: Text)
    requires FilledFor(cache, n) && n <= |s|
    ensures FilledFor(cache[s := Ngrams(s, n)], n)
  {}

  // ---- The score ----

  datatype Weights = Weights(lcsThreshold: real, kLev: real, kTan: real, kLcs: real)

  predicate Convex(w: Weights) {
    w.kLev >= 0.0 && w.kTan >= 0.0 && w.kLcs >= 0.0 && w.kLev + w.kTan + w.kLcs <= 1.0
  }

  predicate Comparable(n1: Text, n2: Text) {
    |n1| >= 2 && |n2| >= 2 && -5 <= |n1| - |n2| <= 5
  }

  function Ratio(a: int, b: int): real
    requires b > 0
  {
    a as real / b as real
  }

  // The Tanimoto coefficient of two sets that are not both empty.
  function Tanimoto(a: set<Text>, b: set<Text>): real
    requires a != {}
  {
    UnionSize(a, b);
    Ratio(|a * b|, |a| + |b| - |a * b|)
  }

  lemma UnionSize(a: set<Text>, b: set<Text>)
    ensures |a * b| <= |a| + |b| - |a * b| && (a != {} ==> |a| + |b| - |a * b| > 0)
  {
    assert |a + b| == |a| + |b| - |a * b|;
    SubsetSize(a * b, a);
    SubsetSize(a * b, b);
    assert |a - b| + |a * b| == |a| by { assert a == (a - b) + (a * b); }
  }

  function Combine(w: Weights, lev: real, tan: real, lcs: real): real {
    w.kLev * lev + w.kTan * tan + w.kLcs * lcs
  }

  // The score of two normalized names.
  ghost function Score(n1: Text, n2: Text, w: Weights): real {
    if !Comparable(n1, n2) then 0.0
    else if n1 == n2 then 1.0
    else
      NgramLengths(n1, 2);
      Blended(w, Substrings.LcsLen(n1, n2), Levenshtein(n1, n2), Tanimoto(Ngrams(n1, 2), Ngrams(n2, 2)),
              Max(|n1|, |n2|))
  }

  // A long common substring decides alone if it passes the threshold; a short one does not count at all.
  function Blended(w: Weights, lcs: nat, lev: nat, tan: real, longer: nat): real
    requires longer > 0
  {
    if lcs >= 3 && Ratio(lcs, longer) > w.lcsThreshold then Ratio(lcs, longer)
    else Combine(w, 1.0 - Ratio(lev, longer), tan, Ratio(if lcs >= 3 then lcs else 0, longer))
  }

  predicate InUnit(x: real) { 0.0 <= x <= 1.0 }

  lemma RatioInUnit(a: int, b: int)
    requires 0 <= a <= b && b > 0
    ensures InUnit(Ratio(a, b))
  {}

  lemma WeightedInUnit(k: real, x: real) returns (p: real)
    requires k >= 0.0 && InUnit(x)
    ensures p == k * x && 0.0 <= p <= k
  {
    p := k * x;
    assert k * (1.0 - x) >= 0.0;
  }

  lemma CombineInUnit(w: Weights, lev: real, tan: real, lcs: real)
    requires Convex(w) && InUnit(lev) && InUnit(tan) && InUnit(lcs)
    ensures InUnit(Combine(w, lev, tan, lcs))
  {
    var a := WeightedInUnit(w.kLev, lev);
    var b := WeightedInUnit(w.kTan, tan);
    var c := WeightedInUnit(w.kLcs, lcs);
    SumInUnit(a, b, c, w.kLev, w.kTan, w.kLcs);
    assert Combine(w, lev, tan, lcs) == a + b + c;
  }

  lemma SumInUnit(a: real, b: real, c: real, ka: real, kb: real, kc: real)
    requires 0.0 <= a <= ka && 0.0 <= b <= kb && 0.0 <= c <= kc && ka + kb + kc <= 1.0
    ensures InUnit(a + b + c)
  {}

  lemma TanimotoInUnit(a: set<Text>, b: set<Text>)
    requires a != {}
    ensures InUnit(Tanimoto(a, b))
  {
    UnionSize(a, b);
    RatioInUnit(|a * b|, |a| + |b| - |a * b|);
  }

  lemma ScoreInUnit(n1: Text, n2: Text, w: Weights)
    requires Convex(w)
    ensures InUnit(Score(n1, n2, w))
  {
    if Comparable(n1, n2) && n1 != n2 {
      var longer, lcs := Max(|n1|, |n2|), Substrings.LcsLen(n1, n2);
      Substrings.LongestBound(n1, n2, lcs);
      LevenshteinBound(n1, n2);
      RatioInUnit(lcs, longer);
      var lev, l := Ratio(Levenshtein(n1, n2), longer), Ratio(if lcs >= 3 then lcs else 0, longer);
      RatioInUnit(Levenshtein(n1, n2), longer);
      RatioInUnit(if lcs >= 3 then lcs else 0, longer);
      NgramLengths(n1, 2);
      TanimotoInUnit(Ngrams(n1, 2), Ngrams(n2, 2));
      CombineInUnit(w, 1.0 - lev, Tanimoto(Ngrams(n1, 2), Ngrams(n2, 2)), l);
    }
  }

  lemma TanimotoSymmetric(a: set<Text>, b: set<Text>)
    requires a != {} && b != {}
    ensures Tanimoto(a, b) == Tanimoto(b, a)
  {
    assert a * b == b * a;
  }

  lemma ScoreSymmetric(n1: Text, n2: Text, w: Weights)
    ensures Score(n1, n2, w) == Score(n2, n1, w)
  {
    if Comparable(n1, n2) && n1 != n2 {
      Substrings.LcsLenSymmetric(n1, n2);
      LevenshteinSymmetric(n1, n2);
      NgramLengths(n1, 2);
      NgramLengths(n2, 2);
      TanimotoSymmetric(Ngrams(n1, 2), Ngrams(n2, 2));
      assert Max(|n1|, |n2|) == Max(|n2|, |n1|);
    }
  }

  // The loop over the first set that counts the members of the second.
  method CountCommon(a: set<Text>, b: set<Text>) returns (count: nat)
    ensures count == |a * b|
  {
    count := 0;
    var rest := a;
    while rest != {}
      invariant rest <= a
      invariant count == |(a - rest) * b|
      decreases |rest|
    {
      var g :| g in rest;
      if g in b {
        assert (a - (rest - {g})) * b == (a - rest) * b + {g};
        count := count + 1;
      } else {
        assert (a - (rest - {g})) * b == (a - rest) * b;
      }
      rest := rest - {g};
    }
    assert a - rest == a;
  }

  method TanimotoScore(ngrams1: set<Text>, ngrams2: set<Text>) returns (score: real)
    requires ngrams1 != {}
    ensures score == Tanimoto(ngrams1, ngrams2)
  {
    var intersection := CountCommon(ngrams1, ngrams2);
    UnionSize(ngrams1, ngrams2);
    score := Ratio(intersection, |ngrams1| + |ngrams2| - intersection);
  }

  // The bigrams of a name, through a cache that only ever holds bigrams.
  method Bigrams(s: Text, c: NgramCache) returns (ngrams: set<Text>)
    requires FilledFor(c.cache, 2) && |s| >= 2
    modifies c
    ensures FilledFor(c.cache, 2) && ngrams == Ngrams(s, 2) && ngrams != {}
  {
    UniformCacheAgrees(c.cache, s, 2);
    CacheStaysFilled(c.cache, 2, s);
    NgramLengths(s, 2);
    ngrams := c.GetCachedNgrams(s, 2);
  }

  // The second half of the score, for two different comparable names.
  method BlendScores(n1: Text, n2: Text, lcsLen: nat, w: Weights, c: NgramCache) returns (score: real)
    requires FilledFor(c.cache, 2) && Comparable(n1, n2)
    modifies c
    ensures FilledFor(c.cache, 2)
    ensures Ngrams(n1, 2) != {}
    ensures score == Combine(w, 1.0 - Ratio(Levenshtein(n1, n2), Max(|n1|, |n2|)),
                             Tanimoto(Ngrams(n1, 2), Ngrams(n2, 2)), Ratio(lcsLen, Max(|n1|, |n2|)))
  {
    var longer := Max(|n1|, |n2|);
    var levDist := FastLevenshtein(n1, n2);
    var levScore := 1.0 - Ratio(levDist, longer);
    var ngrams1 := Bigrams(n1, c);
    var ngrams2 := Bigrams(n2, c);
    var tanScore := TanimotoScore(ngrams1, ngrams2);
    score := Combine(w, levScore, tanScore, Ratio(lcsLen, longer));
  }

  method SimilarityScore(nick1: Text, nick2: Text, normalize: Text -> Text, w: Weights, c: NgramCache)
    returns (score: real)
    requires FilledFor(c.cache, 2)
    modifies c
    ensures FilledFor(c.cache, 2)
    ensures score == Score(normalize(nick1), normalize(nick2), w)
  {
    var n1, n2 := normalize(nick1), normalize(nick2);
    if |n1| < 2 || |n2| < 2 || |n1| - |n2| > 5 || |n2| - |n1| > 5 {
      return 0.0;
    }
    if n1 == n2 {
      return 1.0;
    }
    var lcsLen := Substrings.LongestCommonSubstring(n1, n2);
    Substrings.LongestUnique(n1, n2, lcsLen, Substrings.LcsLen(n1, n2));
    if lcsLen >= 3 {
      var lcsScore := Ratio(lcsLen, Max(|n1|, |n2|));
      if lcsScore > w.lcsThreshold {
        return lcsScore;
      }
    } else {
      lcsLen := 0;
    }
    score := BlendScores(n1, n2, lcsLen, w, c);
  }
}
