/**
  What the similarity score is made of: which part each weight scales, and when the longest common substring decides
  alone.
*/
module SimilarityLaws {
  import opened Common
  import opened EditDistance
  import opened Substrings
  import opened Similarity

  function Longer(n1: Text, n2: Text): nat {
    if |n1| < |n2| then |n2| else |n1|
  }

  // Different names of two or more characters, of about the same length.
  predicate Scored(n1: Text, n2: Text) {
    n1 != n2 && 2 <= |n1| <= |n2| + 5 && 2 <= |n2| <= |n1| + 5
  }

  // No common substring of three or more characters is above the threshold, as a share of the longer name.
  ghost predicate Blends(n1: Text, n2: Text, threshold: real) {
    && Scored(n1, n2)
    && forall m: nat :: m >= 3 && CommonPart(n1, n2, m) ==> m as real / Longer(n1, n2) as real <= threshold
  }

  // Names that are not compared score 0, equal ones 1.
  lemma Uncompared(n1: Text, n2: Text, w: Weights)
    requires !Scored(n1, n2)
    ensures Score(n1, n2, w) == if n1 == n2 && |n1| >= 2 then 1.0 else 0.0
  {}

  // The three parts of the score.
  ghost function EditShare(n1: Text, n2: Text): real {
    if |n1| > 0 then 1.0 - Ratio(Levenshtein(n1, n2), Longer(n1, n2)) else 0.0
  }

  ghost function PairShare(n1: Text, n2: Text): real {
    if |n1| >= 2 && |n2| >= 2 && Ngrams(n1, 2) != {} then Tanimoto(Ngrams(n1, 2), Ngrams(n2, 2)) else 0.0
  }

  ghost function SubstringShare(n1: Text, n2: Text): real {
    if |n1| > 0 then Ratio(if LcsLen(n1, n2) >= 3 then LcsLen(n1, n2) else 0, Longer(n1, n2)) else 0.0
  }

  lemma BelowThreshold(n1: Text, n2: Text, threshold: real)
    requires Blends(n1, n2, threshold)
    ensures LcsLen(n1, n2) >= 3 ==> !(Ratio(LcsLen(n1, n2), Longer(n1, n2)) > threshold)
  {
    assert CommonPart(n1, n2, LcsLen(n1, n2));
  }

  lemma Unblended(n1: Text, n2: Text, w: Weights)
    requires Blends(n1, n2, w.lcsThreshold)
    ensures Score(n1, n2, w) == Combine(w, EditShare(n1, n2), PairShare(n1, n2), SubstringShare(n1, n2))
  {
    NgramLengths(n1, 2);
    BelowThreshold(n1, n2, w.lcsThreshold);
  }

  lemma FirstWeight(n1: Text, n2: Text, threshold: real)
    requires Blends(n1, n2, threshold)
    ensures Score(n1, n2, Weights(threshold, 1.0, 0.0, 0.0)) == EditShare(n1, n2)
  {
    Unblended(n1, n2, Weights(threshold, 1.0, 0.0, 0.0));
  }

  lemma SecondWeight(n1: Text, n2: Text, threshold: real)
    requires Blends(n1, n2, threshold)
    ensures Score(n1, n2, Weights(threshold, 0.0, 1.0, 0.0)) == PairShare(n1, n2)
  {
    Unblended(n1, n2, Weights(threshold, 0.0, 1.0, 0.0));
  }

  lemma ThirdWeight(n1: Text, n2: Text, threshold: real)
    requires Blends(n1, n2, threshold)
    ensures Score(n1, n2, Weights(threshold, 0.0, 0.0, 1.0)) == SubstringShare(n1, n2)
  {
    Unblended(n1, n2, Weights(threshold, 0.0, 0.0, 1.0));
  }

  // Above the threshold the longest common substring decides alone, whatever the weights.
  lemma CommonPartDecides(n1: Text, n2: Text, w: Weights, L: nat)
    requires Scored(n1, n2) && IsLongest(n1, n2, L) && L >= 3
    requires L as real / Longer(n1, n2) as real > w.lcsThreshold
    ensures Score(n1, n2, w) == L as real / Longer(n1, n2) as real
  {
    LongestUnique(n1, n2, L, LcsLen(n1, n2));
    NgramLengths(n1, 2);
  }

  // The first weight scales what is left of the longer name after the cheapest edit script.
  lemma EditPart(n1: Text, n2: Text, threshold: real) returns (es: seq<Edit>)
    requires Blends(n1, n2, threshold) && |n1| <= 255 && |n2| <= 255
    ensures Source(es) == n1 && Target(es) == n2
    ensures forall fs :: Source(fs) == n1 && Target(fs) == n2 ==> ScriptCost(es) <= ScriptCost(fs)
    ensures Score(n1, n2, Weights(threshold, 1.0, 0.0, 0.0)) == 1.0 - ScriptCost(es) as real / Longer(n1, n2) as real
  {
    LevenshteinIsLeastCost(n1, n2, []);
    es :| Source(es) == n1 && Target(es) == n2 && ScriptCost(es) == Levenshtein(n1, n2);
    forall fs | Source(fs) == n1 && Target(fs) == n2 ensures ScriptCost(es) <= ScriptCost(fs) {
      LevenshteinIsLeastCost(n1, n2, fs);
    }
    FirstWeight(n1, n2, threshold);
  }

  lemma Whole(b: int)
    requires b > 0
    ensures Ratio(b, b) == 1.0
  {}

  // It scales nothing when a name is too long for the rows.
  lemma LongNamesPart(n1: Text, n2: Text, threshold: real)
    requires Blends(n1, n2, threshold) && (|n1| > 255 || |n2| > 255)
    ensures Score(n1, n2, Weights(threshold, 1.0, 0.0, 0.0)) == 0.0
  {
    FirstWeight(n1, n2, threshold);
    Whole(Longer(n1, n2));
  }

  // The pairs of neighbouring characters.
  ghost function Pairs(s: Text): set<Text> {
    set i {:trigger s[i]} | 0 <= i < |s| - 1 :: [s[i], s[i + 1]]
  }

  lemma NgramsArePairs(s: Text)
    requires |s| >= 2
    ensures Ngrams(s, 2) == Pairs(s)
  {
    forall i | 0 <= i < |s| - 1 ensures Gram(s, i, 2) == [s[i], s[i + 1]] {}
    forall g | g in Ngrams(s, 2) ensures g in Pairs(s) {
      var i :| 0 <= i <= |s| - 2 && g == Gram(s, i, 2);
      assert g == [s[i], s[i + 1]];
    }
    forall g | g in Pairs(s) ensures g in Ngrams(s, 2) {
      var i :| 0 <= i < |s| - 1 && g == [s[i], s[i + 1]];
      assert g == Gram(s, i, 2);
    }
  }

  // The second weight scales the share of common pairs among all the pairs.
  lemma PairPart(n1: Text, n2: Text, threshold: real)
    requires Blends(n1, n2, threshold)
    ensures |Pairs(n1) + Pairs(n2)| > 0
    ensures Score(n1, n2, Weights(threshold, 0.0, 1.0, 0.0)) ==
            |Pairs(n1) * Pairs(n2)| as real / |Pairs(n1) + Pairs(n2)| as real
  {
    SecondWeight(n1, n2, threshold);
    NgramLengths(n1, 2);
    NgramsArePairs(n1);
    NgramsArePairs(n2);
    TanimotoMeans(Pairs(n1), Pairs(n2));
  }

  lemma TanimotoMeans(a: set<Text>, b: set<Text>)
    requires a != {}
    ensures |a + b| > 0 && Tanimoto(a, b) == |a * b| as real / |a + b| as real
  {
    UnionSize(a, b);
    assert |a + b| == |a| + |b| - |a * b|;
  }

  // The third scales the longest common substring, if it is at least three long.
  lemma SubstringPart(n1: Text, n2: Text, threshold: real, L: nat)
    requires Blends(n1, n2, threshold) && IsLongest(n1, n2, L)
    ensures Score(n1, n2, Weights(threshold, 0.0, 0.0, 1.0)) ==
            if L >= 3 then L as real / Longer(n1, n2) as real else 0.0
  {
    LongestUnique(n1, n2, L, LcsLen(n1, n2));
    ThirdWeight(n1, n2, threshold);
  }

  function WeightedSum(w: Weights, lev: real, tan: real, lcs: real): real {
    w.kLev * lev + w.kTan * tan + w.kLcs * lcs
  }

  lemma CombineSums(w: Weights, lev: real, tan: real, lcs: real)
    ensures Combine(w, lev, tan, lcs) == WeightedSum(w, lev, tan, lcs)
  {}

  // And the score is the sum of the three, each times its weight.
  lemma ScoreIsLinear(n1: Text, n2: Text, w: Weights) returns (lev: real, tan: real, lcs: real)
    requires Blends(n1, n2, w.lcsThreshold)
    ensures lev == Score(n1, n2, Weights(w.lcsThreshold, 1.0, 0.0, 0.0))
    ensures tan == Score(n1, n2, Weights(w.lcsThreshold, 0.0, 1.0, 0.0))
    ensures lcs == Score(n1, n2, Weights(w.lcsThreshold, 0.0, 0.0, 1.0))
    ensures Score(n1, n2, w) == WeightedSum(w, lev, tan, lcs)
  {
    Unblended(n1, n2, w);
    FirstWeight(n1, n2, w.lcsThreshold);
    SecondWeight(n1, n2, w.lcsThreshold);
    ThirdWeight(n1, n2, w.lcsThreshold);
    lev, tan, lcs := EditShare(n1, n2), PairShare(n1, n2), SubstringShare(n1, n2);
    CombineSums(w, lev, tan, lcs);
  }

  // The names either blend or are decided by their longest common substring.
  lemma BlendsOrDecided(n1: Text, n2: Text, threshold: real, L: nat)
    requires Scored(n1, n2) && IsLongest(n1, n2, L)
    ensures Blends(n1, n2, threshold) <==> L < 3 || L as real / Longer(n1, n2) as real <= threshold
  {
    if L as real / Longer(n1, n2) as real <= threshold {
      forall m: nat | m >= 3 && CommonPart(n1, n2, m) ensures m as real / Longer(n1, n2) as real <= threshold {
        SmallerShare(m, L, Longer(n1, n2));
      }
    }
  }

  lemma SmallerShare(m: nat, n: nat, b: nat)
    requires m <= n && b > 0
    ensures m as real / b as real <= n as real / b as real
  {}

}
