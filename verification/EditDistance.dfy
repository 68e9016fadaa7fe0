/**
  fast_levenshtein of refsapi_misc.cpp: two rolling rows of at most 256 integers.  The rows are proved to hold the
  recursively defined distance, and the distance to be the least cost of any edit script.
*/
module EditDistance {
  import opened Common

  const ROW := 256

  function Min(a: nat, b: nat): nat { if a <= b then a else b }

  function Max(a: nat, b: nat): nat { if a >= b then a else b }

  function Init(s: Text): Text
    requires s != []
  {
    s[..|s| - 1]
  }

  function Last(s: Text): char
    requires s != []
  {
    s[|s| - 1]
  }

  function Cost(a: char, b: char): nat { if a == b then 0 else 1 }

  function Dist(s: Text, t: Text): nat
    decreases |s| + |t|
  {
    if s == [] then |t|
    else if t == [] then |s|
    else Best(Dist(s, Init(t)), Dist(Init(s), t), Dist(Init(s), Init(t)), Cost(Last(s), Last(t)))
  }

  // The cheapest way to end: with an insertion, a deletion, or the last characters against each other.
  function Best(left: nat, above: nat, diagonal: nat, cost: nat): nat {
    Min(Min(left + 1, above + 1), diagonal + cost)
  }

  // ---- Edit scripts ----

  datatype Edit = Keep(c: char) | Replace(a: char, b: char) | Insert(b: char) | Delete(a: char)

  function From(e: Edit): Text {
    match e
    case Keep(c) => [c]
    case Replace(a, _) => [a]
    case Insert(_) => []
    case Delete(a) => [a]
  }

  function To(e: Edit): Text {
    match e
    case Keep(c) => [c]
    case Replace(_, b) => [b]
    case Insert(b) => [b]
    case Delete(_) => []
  }

  function Source(es: seq<Edit>): Text {
    if es == [] then [] else Source(es[..|es| - 1]) + From(es[|es| - 1])
  }

  function Target(es: seq<Edit>): Text {
    if es == [] then [] else Target(es[..|es| - 1]) + To(es[|es| - 1])
  }

  function ScriptCost(es: seq<Edit>): nat {
    if es == [] then 0 else ScriptCost(es[..|es| - 1]) + if es[|es| - 1].Keep? then 0 else 1
  }

  lemma {:induction false} AppendEdit(es: seq<Edit>, e: Edit)
    ensures Source(es + [e]) == Source(es) + From(e) && Target(es + [e]) == Target(es) + To(e)
    ensures ScriptCost(es + [e]) == ScriptCost(es) + if e.Keep? then 0 else 1
  {
    assert (es + [e])[..|es + [e]| - 1] == es;
  }

  lemma {:induction false} DistBounds(s: Text, t: Text)
    ensures Dist(s, t) <= Max(|s|, |t|)
    decreases |s| + |t|
  {
    if s != [] && t != [] {
      DistBounds(Init(s), Init(t));
    }
  }

  lemma {:induction false} InitLast(s: Text, c: char)
    ensures Init(s + [c]) == s && Last(s + [c]) == c
  {}

  // One more character on either side costs at most one.
  lemma {:induction false} DistExtend(s: Text, t: Text, c: char)
    ensures Dist(s + [c], t) <= Dist(s, t) + 1 && Dist(s, t + [c]) <= Dist(s, t) + 1
  {
    InitLast(s, c);
    InitLast(t, c);
  }

  lemma {:induction false} DistDiagonal(s: Text, t: Text, a: char, b: char)
    ensures Dist(s + [a], t + [b]) <= Dist(s, t) + Cost(a, b)
  {
    InitLast(s, a);
    InitLast(t, b);
  }

  lemma {:induction false} EditCost(s: Text, t: Text, e: Edit)
    ensures Dist(s + From(e), t + To(e)) <= Dist(s, t) + if e.Keep? then 0 else 1
  {
    match e
    case Keep(c) => DistDiagonal(s, t, c, c);
    case Replace(a, b) => DistDiagonal(s, t, a, b);
    case Insert(b) => assert s + [] == s; DistExtend(s, t, b);
    case Delete(a) => assert t + [] == t; DistExtend(s, t, a);
  }

  // No script is cheaper than the distance ...
  lemma {:induction false} ScriptsCostAtLeastDist(es: seq<Edit>)
    ensures Dist(Source(es), Target(es)) <= ScriptCost(es)
  {
    if es != [] {
      var init, e := es[..|es| - 1], es[|es| - 1];
      ScriptsCostAtLeastDist(init);
      EditCost(Source(init), Target(init), e);
    }
  }

  lemma {:induction false} Snoc(s: Text)
    requires s != []
    ensures s == Init(s) + [Last(s)]
  {}

  lemma {:induction false} DistAlternatives(s: Text, t: Text)
    requires s != [] && t != []
    ensures || Dist(s, t) == Dist(s, Init(t)) + 1
            || Dist(s, t) == Dist(Init(s), t) + 1
            || Dist(s, t) == Dist(Init(s), Init(t)) + Cost(Last(s), Last(t))
  {}

  // The edit that the recurrence chooses, and what is left in front of it.
  lemma {:induction false} BestEdit(s: Text, t: Text) returns (s': Text, t': Text, e: Edit)
    requires s != [] || t != []
    ensures s' + From(e) == s && t' + To(e) == t && |s'| + |t'| < |s| + |t|
    ensures Dist(s, t) == Dist(s', t') + if e.Keep? then 0 else 1
  {
    if s != [] && t != [] {
      DistAlternatives(s, t);
    }
    if s == [] || (t != [] && Dist(s, t) == Dist(s, Init(t)) + 1) {
      Snoc(t);
      return s, Init(t), Insert(Last(t));
    } else if t == [] || Dist(s, t) == Dist(Init(s), t) + 1 {
      Snoc(s);
      return Init(s), t, Delete(Last(s));
    } else {
      Snoc(s);
      Snoc(t);
      return Init(s), Init(t), if Last(s) == Last(t) then Keep(Last(s)) else Replace(Last(s), Last(t));
    }
  }

  // ... and some script costs exactly that.
  lemma {:induction false} DistIsAchieved(s: Text, t: Text) returns (es: seq<Edit>)
    ensures Source(es) == s && Target(es) == t && ScriptCost(es) == Dist(s, t)
    decreases |s| + |t|
  {
    if s == [] && t == [] {
      return [];
    }
    var s', t', e := BestEdit(s, t);
    var init := DistIsAchieved(s', t');
    AppendEdit(init, e);
    es := init + [e];
  }

  // ---- The distance is a metric ----

  lemma {:induction false} DistSymmetric(s: Text, t: Text)
    ensures Dist(s, t) == Dist(t, s)
    decreases |s| + |t|
  {
    if s != [] && t != [] {
      DistSymmetric(s, Init(t));
      DistSymmetric(Init(s), t);
      DistSymmetric(Init(s), Init(t));
    }
  }

  lemma {:induction false} DistZero(s: Text, t: Text)
    ensures Dist(s, t) == 0 <==> s == t
    decreases |s| + |t|
  {
    if s != [] && t != [] {
      DistZero(Init(s), Init(t));
      Snoc(s);
      Snoc(t);
    }
  }

  lemma {:induction false} DistTriangle(s: Text, t: Text, u: Text)
    ensures Dist(s, u) <= Dist(s, t) + Dist(t, u)
    decreases |s| + |t| + |u|
  {
    if t == [] {
      DistBounds(s, u);
    } else if s == [] {
      DistLength(t, u);
    } else if u == [] {
      DistLength(s, t);
    } else {
      DistTriangle(Init(s), t, u);
      DistTriangle(s, t, Init(u));
      DistTriangle(s, Init(t), u);
      DistTriangle(s, Init(t), Init(u));
      DistTriangle(Init(s), Init(t), u);
      DistTriangle(Init(s), Init(t), Init(u));
    }
  }

  // The distance is at least the difference of the lengths.
  lemma {:induction false} DistLength(s: Text, t: Text)
    ensures |s| <= Dist(s, t) + |t| && |t| <= Dist(s, t) + |s|
    decreases |s| + |t|
  {
    if s != [] && t != [] {
      DistLength(s, Init(t));
      DistLength(Init(s), t);
      DistLength(Init(s), Init(t));
    }
  }

  // ---- The program ----

  // What fast_levenshtein returns: the distance, or the longer length once a non-empty pair does not fit the rows.
  function Levenshtein(s: Text, t: Text): nat {
    if s == [] then |t|
    else if t == [] then |s|
    else if |s| > ROW - 1 || |t| > ROW - 1 then Max(|s|, |t|)
    else Dist(s, t)
  }

  // The recurrence on strings given by their last characters.
  lemma {:induction false} DistSnoc(s: Text, a: char, t: Text, b: char)
    ensures Dist(s + [a], t + [b]) ==
              Best(Dist(s + [a], t), Dist(s, t + [b]), Dist(s, t), Cost(a, b))
  {
    InitLast(s, a);
    InitLast(t, b);
  }

  lemma {:induction false} Prefix(s: Text, i: nat)
    requires 0 < i <= |s|
    ensures s[..i] == s[..i - 1] + [s[i - 1]]
  {}

  // The first n cells of the row hold the distances between the first i characters of s and the prefixes of t.
  ghost predicate IsRow(row: array<nat>, s: Text, t: Text, i: nat, n: nat)
    reads row
    requires i <= |s| && n <= |t| + 1 && n <= row.Length
  {
    forall k :: 0 <= k < n ==> row[k] == Dist(s[..i], t[..k])
  }

  // The inner loop: the row of i from the row of i - 1.
  method FillRow(prev: array<nat>, curr: array<nat>, s1: Text, s2: Text, i: nat)
    requires 0 < i <= |s1| && 0 < |s2| < ROW && prev.Length == curr.Length == ROW && prev != curr
    requires IsRow(prev, s1, s2, i - 1, |s2| + 1)
    modifies curr
    ensures IsRow(curr, s1, s2, i, |s2| + 1)
  {
    curr[0] := i;
    assert s2[..0] == [];
    Prefix(s1, i);
    for j := 1 to |s2| + 1
      invariant IsRow(prev, s1, s2, i - 1, |s2| + 1)
      invariant IsRow(curr, s1, s2, i, j)
    {
      var cost := if s1[i - 1] == s2[j - 1] then 0 else 1;
      Prefix(s2, j);
      DistSnoc(s1[..i - 1], s1[i - 1], s2[..j - 1], s2[j - 1]);
      curr[j] := Min(Min(curr[j - 1] + 1, prev[j] + 1), prev[j - 1] + cost);
    }
  }

  method FastLevenshtein(s1: Text, s2: Text) returns (d: nat)
    ensures d == Levenshtein(s1, s2)
  {
    var len1, len2 := |s1|, |s2|;
    if len1 == 0 {
      return len2;
    }
    if len2 == 0 {
      return len1;
    }
    if len1 > 255 || len2 > 255 {
      return Max(len1, len2);
    }
    var prev, curr := new nat[ROW], new nat[ROW];
    for j := 0 to len2 + 1
      invariant IsRow(prev, s1, s2, 0, j)
    {
      prev[j] := j;
    }
    for i := 1 to len1 + 1
      invariant fresh(prev) && fresh(curr) && prev != curr && prev.Length == curr.Length == ROW
      invariant IsRow(prev, s1, s2, i - 1, len2 + 1)
    {
      FillRow(prev, curr, s1, s2, i);
      prev, curr := curr, prev;
    }
    assert s1[..len1] == s1 && s2[..len2] == s2;
    return prev[len2];
  }

  // ---- What a caller can rely on, for strings of any length ----

  // For strings that fit the rows the result is the least cost of any edit script.
  lemma LevenshteinIsLeastCost(s: Text, t: Text, es: seq<Edit>)
    requires |s| <= 255 && |t| <= 255
    ensures Source(es) == s && Target(es) == t ==> Levenshtein(s, t) <= ScriptCost(es)
    ensures exists best :: Source(best) == s && Target(best) == t && ScriptCost(best) == Levenshtein(s, t)
  {
    ScriptsCostAtLeastDist(es);
    var best := DistIsAchieved(s, t);
  }

  lemma LevenshteinBound(s: Text, t: Text)
    ensures Levenshtein(s, t) <= Max(|s|, |t|)
  {
    DistBounds(s, t);
  }

  lemma LevenshteinSymmetric(s: Text, t: Text)
    ensures Levenshtein(s, t) == Levenshtein(t, s)
  {
    DistSymmetric(s, t);
  }

  lemma LevenshteinTriangle(s: Text, t: Text, u: Text)
    ensures Levenshtein(s, u) <= Levenshtein(s, t) + Levenshtein(t, u)
  {
    DistTriangle(s, t, u);
    DistBounds(s, u);
    DistLength(s, t);
    DistLength(t, u);
  }

  // The result is zero on equal strings exactly up to the row size: a long string is at distance |s| from itself.
  lemma LevenshteinZero(s: Text, t: Text)
    ensures Levenshtein(s, t) == 0 <==> s == t && |s| <= 255
  {
    DistZero(s, t);
  }

  // One beyond it already: 256 equal characters are at distance 256 from themselves.
  lemma LongStringIsNotZero(s: Text)
    requires s == seq(ROW, _ => 'a')
    ensures Levenshtein(s, s) == 256
  {}
}
