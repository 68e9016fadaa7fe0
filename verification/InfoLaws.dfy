/**
  What the info-string operations guarantee, in terms of characters: when a set is refused and what it stores, what
  removal and eviction choose, and what no run of operations can bring into a string.
*/
module InfoLaws {
  import opened Common
  import opened InfoText

  // ".." occurs in s.
  ghost predicate Dotted(s: Text) {
    exists pre, suf :: s == pre + ".." + suf
  }

  // ---- One call ----

  // What a key or a value may not be.
  lemma AcceptableMeans(key: Text, value: Text)
    ensures !Acceptable(key, value) <==>
            || key == []
            || '\\' in key || '\\' in value || '"' in key || '"' in value
            || Dotted(key) || (Dotted(value) && key != "name")
            || |key| >= 127 || |value| >= 127
  {
    ContainsMeans(key, "..");
    ContainsMeans(value, "..");
  }

  lemma RefusedExactly(t: Text, key: Text, value: Text, maxsize: int)
    ensures SetText(t, key, value, maxsize).1 == Refused <==>
            || key == []
            || '\\' in key || '\\' in value || '"' in key || '"' in value
            || Dotted(key) || (Dotted(value) && key != "name")
            || |key| >= 127 || |value| >= 127
    ensures SetText(t, key, value, maxsize).1 == Refused ==> SetText(t, key, value, maxsize).0 == t
  {
    AcceptableMeans(key, value);
    assert SetText(t, key, value, maxsize).1 == Refused <==> !Acceptable(key, value);
  }

  // The keys that are not evicted and that others are evicted for.
  lemma ImportantMeans(key: Text)
    ensures Important(key) <==>
            || (|key| > 0 && key[0] == '*')
            || key == "name" || key == "model" || key == "rate" || key == "topcolor" || key == "bottomcolor"
            || key == "cl_updaterate" || key == "cl_lw" || key == "cl_lc"
  {}

  lemma TeamMeans(key: Text)
    ensures IsTeam(key) <==>
            && |key| == 4 && (key[0] == 't' || key[0] == 'T') && (key[1] == 'e' || key[1] == 'E')
            && (key[2] == 'a' || key[2] == 'A') && (key[3] == 'm' || key[3] == 'M')
  {
    var low := Lower(key);
    if |key| == 4 {
      assert low == "team" <==> low[0] == 't' && low[1] == 'e' && low[2] == 'a' && low[3] == 'm';
    }
  }

  // What is stored: "team", in any case, and its value are lowercased.
  lemma StoredLaw(key: Text, value: Text)
    ensures var k, v := StoredPair(key, value).key, StoredPair(key, value).value;
      && (IsTeam(key) ==>
            && k == "team" && |v| == |value|
            && forall i :: 0 <= i < |v| ==> v[i] as int == value[i] as int + if 'A' <= value[i] <= 'Z' then 32 else 0)
      && (!IsTeam(key) ==> k == key && v == value)
  {}

  lemma EntryLaw(key: Text, value: Text)
    requires Acceptable(key, value)
    ensures |NewArray(key, value)| == |key| + |value| + 2
    ensures (if IsTeam(key) then Lower(NewArray(key, value)) else NewArray(key, value)) ==
            ['\\'] + StoredPair(key, value).key + ['\\'] + StoredPair(key, value).value
  {
    NewArrayUncut(key, value);
  }

  // What a set that is not refused does to any text: it removes the key, and appends the new entry if there is room
  // behind that.  Without room it gives up at once unless the key is important.
  lemma SetLaw(t: Text, key: Text, value: Text, maxsize: int)
    requires SetText(t, key, value, maxsize).1 != Refused
    ensures var (u, o), rest := SetText(t, key, value, maxsize), Remove(t, key);
      && (o == Removed <==> value == [])
      && (value == [] ==> u == rest)
      && var fits := |rest| + |key| + |value| + 2 < maxsize;
         && (value != [] && fits ==>
               o == Stored
               && u == rest + (['\\'] + StoredPair(key, value).key + ['\\'] + StoredPair(key, value).value))
         && (value != [] && !fits && !Important(key) ==> o == NoRoom && u == rest)
  {
    if Acceptable(key, value) {
      EntryLaw(key, value);
    }
  }

  // The key that is evicted: the first of the largest among those that are not important.
  lemma LargestLaw(ps: seq<Pair>) returns (i: nat)
    requires WellFormed(ps)
    ensures LargestKey(Render(ps)) == [] ==> forall j :: 0 <= j < |ps| ==> Important(ps[j].key)
    ensures LargestKey(Render(ps)) != [] ==>
      && i < |ps| && LargestKey(Render(ps)) == ps[i].key && !Important(ps[i].key)
      && forall j :: 0 <= j < |ps| && !Important(ps[j].key) ==>
           && |ps[j].key| + |ps[j].value| <= |ps[i].key| + |ps[i].value|
           && (j < i ==> |ps[j].key| + |ps[j].value| < |ps[i].key| + |ps[i].value|)
  {
    LargestKeyFinds(ps);
    i := 0;
    if LargestKey(Render(ps)) != [] {
      i :| 0 <= i < |ps| && ps[i].key == LargestKey(Render(ps)) && IsLargest(ps, i);
    }
  }

  lemma {:induction false} FirstWithKey(ps: seq<Pair>, key: Text) returns (i: nat)
    ensures i <= |ps| && (forall j :: 0 <= j < i ==> ps[j].key != key) && (i < |ps| ==> ps[i].key == key)
    ensures ValueOf(ps, key) == if i < |ps| then ps[i].value else []
  {
    i := 0;
    if ps != [] && ps[0].key != key {
      var rest := ps[1..];
      var n := FirstWithKey(rest, key);
      forall j | 0 < j < n + 1 ensures ps[j].key != key { assert ps[j] == rest[j - 1]; }
      i := n + 1;
    }
  }

  // A lookup finds the value of the first pair with the key.
  lemma LookupLaw(ps: seq<Pair>, key: Text) returns (i: nat)
    requires WellFormed(ps)
    ensures i <= |ps| && (forall j :: 0 <= j < i ==> ps[j].key != key) && (i < |ps| ==> ps[i].key == key)
    ensures Lookup(Render(ps), key) == if i < |ps| then ps[i].value else []
  {
    LookupFinds(ps, key);
    i := FirstWithKey(ps, key);
  }

  // k begins with the first 126 characters of key.
  predicate Covers(key: Text, k: Text) {
    var n := if |key| <= 126 then |key| else 126;
    n <= |k| && k[..n] == key[..n]
  }

  // qs are the pairs at the places `at`, in order; those are where the key does not cover the pair's.
  ghost predicate KeptAt(ps: seq<Pair>, key: Text, qs: seq<Pair>, at: seq<nat>) {
    && |at| == |qs|
    && (forall i, j :: 0 <= i < j < |at| ==> at[i] < at[j])
    && (forall i :: 0 <= i < |at| ==> at[i] < |ps| && qs[i] == ps[at[i]])
    && (forall n :: n in at <==> 0 <= n < |ps| && !Covers(key, ps[n].key))
  }

  function Shifted(at: seq<nat>): (r: seq<nat>)
    ensures |r| == |at| && forall i :: 0 <= i < |r| ==> r[i] == at[i] + 1
  {
    seq(|at|, i requires 0 <= i < |at| => at[i] + 1)
  }

  lemma ShiftedMembers(at: seq<nat>, n: int)
    ensures n in Shifted(at) <==> n > 0 && n - 1 in at
  {
    if n > 0 && n - 1 in at {
      var i :| 0 <= i < |at| && at[i] == n - 1;
      assert Shifted(at)[i] == n;
    }
  }

  lemma CoveredFirst(p: Pair, ps: seq<Pair>, key: Text, qs: seq<Pair>, at: seq<nat>)
    requires KeptAt(ps, key, qs, at) && Covers(key, p.key)
    ensures KeptAt([p] + ps, key, qs, Shifted(at))
  {
    forall n ensures n in Shifted(at) <==> 0 <= n < |ps| + 1 && !Covers(key, ([p] + ps)[n].key) {
      ShiftedMembers(at, n);
      if 0 < n < |ps| + 1 {
        assert ([p] + ps)[n] == ps[n - 1];
      }
    }
    forall i | 0 <= i < |at| ensures Shifted(at)[i] < |ps| + 1 && qs[i] == ([p] + ps)[Shifted(at)[i]] {
      assert ([p] + ps)[at[i] + 1] == ps[at[i]];
    }
  }

  lemma KeptMembers(p: Pair, ps: seq<Pair>, key: Text, at: seq<nat>, n: int)
    requires !Covers(key, p.key) && forall n :: n in at <==> 0 <= n < |ps| && !Covers(key, ps[n].key)
    ensures n in [0] + Shifted(at) <==> 0 <= n < |ps| + 1 && !Covers(key, ([p] + ps)[n].key)
  {
    ShiftedMembers(at, n);
    if 0 < n < |ps| + 1 {
      assert ([p] + ps)[n] == ps[n - 1];
    }
  }

  lemma KeptInOrder(p: Pair, ps: seq<Pair>, qs: seq<Pair>, at: seq<nat>, i: nat)
    requires |at| == |qs| && (forall i :: 0 <= i < |at| ==> at[i] < |ps| && qs[i] == ps[at[i]]) && i <= |at|
    ensures var at' := [0] + Shifted(at); at'[i] < |ps| + 1 && ([p] + qs)[i] == ([p] + ps)[at'[i]]
    ensures ([0] + Shifted(at))[i] == if i == 0 then 0 else at[i - 1] + 1
  {
    if i > 0 {
      assert ([p] + qs)[i] == qs[i - 1] && ([p] + ps)[at[i - 1] + 1] == ps[at[i - 1]];
    }
  }

  lemma KeptFirst(p: Pair, ps: seq<Pair>, key: Text, qs: seq<Pair>, at: seq<nat>)
    requires KeptAt(ps, key, qs, at) && !Covers(key, p.key)
    ensures KeptAt([p] + ps, key, [p] + qs, [0] + Shifted(at))
  {
    forall n {
      KeptMembers(p, ps, key, at, n);
    }
    forall i | 0 <= i <= |at| {
      KeptInOrder(p, ps, qs, at, i);
    }
  }

  lemma {:induction false} KeepFirst(p: Pair, rest: seq<Pair>, key: Text)
    ensures Keep([p] + rest, [key]) == if Covers(key, p.key) then Keep(rest, [key]) else [p] + Keep(rest, [key])
  {
    assert ([p] + rest)[1..] == rest;
    assert [key][0] == key;
    assert MatchesAny([key], p.key) <==> Matches(key, p.key);
  }

  lemma {:induction false} KeptPlaces(ps: seq<Pair>, key: Text) returns (at: seq<nat>)
    ensures KeptAt(ps, key, Keep(ps, [key]), at)
  {
    at := [];
    if ps != [] {
      var p, rest := ps[0], ps[1..];
      assert ps == [p] + rest;
      at := KeptPlaces(rest, key);
      KeepFirst(p, rest, key);
      if Covers(key, p.key) {
        CoveredFirst(p, rest, key, Keep(rest, [key]), at);
        at := Shifted(at);
      } else {
        KeptFirst(p, rest, key, Keep(rest, [key]), at);
        at := [0] + Shifted(at);
      }
    }
  }

  // A removal takes every pair whose key begins with the given one, of which 126 characters count, and leaves the
  // others as they are, in their order.
  lemma RemovalLaw(ps: seq<Pair>, key: Text) returns (at: seq<nat>, qs: seq<Pair>)
    requires WellFormed(ps)
    ensures WellFormed(qs) && Remove(Render(ps), key) == Render(qs)
    ensures |at| == |qs| && forall i, j :: 0 <= i < j < |at| ==> at[i] < at[j]
    ensures forall i :: 0 <= i < |at| ==> at[i] < |ps| && qs[i] == ps[at[i]]
    ensures forall n :: n in at <==> 0 <= n < |ps| && !Covers(key, ps[n].key)
  {
    RemoveFilters(ps, key);
    KeepWellFormed(ps, [key]);
    at := KeptPlaces(ps, key);
    qs := Keep(ps, [key]);
  }

  // ---- Characters ----

  ghost predicate Within(s: Text, t: Text) {
    forall c :: c in s ==> c in t
  }

  lemma {:induction false} RemoveWithin(t: Text, key: Text)
    ensures Within(Remove(t, key), t)
    decreases |t|
  {
    if t != [] {
      RemoveWithin(t[ValHi(t)..], key);
    }
  }

  lemma {:induction false} EvictWithin(t: Text, needed: nat, maxsize: int)
    ensures Within(Evict(t, needed, maxsize).0, t)
    decreases |t|
  {
    var k := LargestKey(t);
    if k != [] {
      LargestShrinks(t, [], 0);
      RemoveWithin(t, k);
      if |Remove(t, k)| + needed >= maxsize {
        EvictWithin(Remove(t, k), needed, maxsize);
      }
    }
  }

  lemma LowerUnquoted(t: Text)
    requires '"' !in t
    ensures '"' !in Lower(t)
  {
    forall i | 0 <= i < |t| ensures Lower(t)[i] != '"' {
      assert t[i] in t;
    }
  }

  lemma SetUnquoted(t: Text, key: Text, value: Text, maxsize: int)
    requires '"' !in t
    ensures '"' !in SetText(t, key, value, maxsize).0
  {
    RefusedExactly(t, key, value, maxsize);
    if Acceptable(key, value) {
      var entry := NewArray(key, value);
      NewArrayUncut(key, value);
      LowerUnquoted(entry);
      RemoveWithin(t, key);
      EvictWithin(Remove(t, key), |entry|, maxsize);
    }
  }

  // No run of sets and removals brings a quote into a string that has none.
  lemma {:induction false} RunsStayUnquoted(t: Text, ops: seq<Op>, maxsize: int)
    requires '"' !in t
    ensures '"' !in Run(t, ops, maxsize)
    decreases |ops|
  {
    if ops != [] {
      var front := ops[..|ops| - 1];
      RunsStayUnquoted(t, front, maxsize);
      match ops[|ops| - 1]
      case SetOp(key, value) => SetUnquoted(Run(t, front, maxsize), key, value, maxsize);
      case RemoveOp(name) => RemoveWithin(Run(t, front, maxsize), name);
    }
  }

  // ---- Dots ----

  // No key has two dots in a row, and no value but that of "name".
  ghost predicate Undotted(ps: seq<Pair>) {
    forall i :: 0 <= i < |ps| ==> !Dotted(ps[i].key) && (ps[i].key == "name" || !Dotted(ps[i].value))
  }

  lemma DotsAt(t: Text, n: nat)
    requires n + 1 < |t| && t[n] == '.' && t[n + 1] == '.'
    ensures Dotted(t)
  {
    var pre, suf := t[..n], t[n + 2..];
    assert t == pre + ".." + suf;
  }

  lemma LowerUndotted(t: Text)
    requires !Dotted(t)
    ensures !Dotted(Lower(t))
  {
    if pre, suf :| Lower(t) == pre + ".." + suf {
      var n := |pre|;
      var low := Lower(t);
      assert low[n] == '.' && low[n + 1] == '.';
      assert low[n] == LowerChar(t[n]) && low[n + 1] == LowerChar(t[n + 1]);
      DotsAt(t, n);
    }
  }

  lemma {:induction false} KeepUndotted(ps: seq<Pair>, keys: seq<Text>)
    requires Undotted(ps)
    ensures Undotted(Keep(ps, keys))
  {
    if ps != [] {
      KeepUndotted(ps[1..], keys);
    }
  }

  lemma AfterUndotted(ps: seq<Pair>, key: Text, value: Text, gone: seq<Text>, o: Outcome)
    requires Undotted(ps) && (o == Stored ==> Acceptable(key, value))
    ensures Undotted(PairsAfter(ps, key, value, gone, o))
  {
    KeepUndotted(ps, [key] + gone);
    if o == Stored {
      ContainsMeans(key, "..");
      ContainsMeans(value, "..");
      LowerUndotted(key);
      if IsTeam(key) {
        TeamMeans(key);
        LowerUndotted(value);
      }
    }
  }

  // No run brings ".." into a key, or into a value other than that of "name".
  lemma {:induction false} RunsStayUndotted(ps: seq<Pair>, ops: seq<Op>, maxsize: int) returns (qs: seq<Pair>)
    requires WellFormed(ps) && Undotted(ps)
    ensures WellFormed(qs) && Undotted(qs) && Run(Render(ps), ops, maxsize) == Render(qs)
    decreases |ops|
  {
    if ops == [] {
      return ps;
    }
    var rs := RunsStayUndotted(ps, ops[..|ops| - 1], maxsize);
    match ops[|ops| - 1]
    case SetOp(key, value) =>
      var gone := SetMeans(rs, key, value, maxsize);
      var o := SetText(Render(rs), key, value, maxsize).1;
      PairsAfterWellFormed(rs, key, value, gone, o);
      AfterUndotted(rs, key, value, gone, o);
      qs := PairsAfter(rs, key, value, gone, o);
    case RemoveOp(name) =>
      RemoveFilters(rs, name);
      KeepWellFormed(rs, [name]);
      KeepUndotted(rs, [name]);
      qs := if SLASH in name then rs else Keep(rs, [name]);
  }

  // A text stands for one list of pairs only.
  lemma {:induction false} OnePairList(ps: seq<Pair>, qs: seq<Pair>)
    requires WellFormed(ps) && WellFormed(qs) && Render(ps) == Render(qs)
    ensures ps == qs
  {
    if ps != [] && qs != [] {
      RenderFirst(ps);
      RenderFirst(qs);
      OnePairList(ps[1..], qs[1..]);
      assert ps == [ps[0]] + ps[1..] && qs == [qs[0]] + qs[1..];
    }
  }
}
