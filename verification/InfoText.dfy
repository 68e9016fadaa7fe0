/**
  Info strings as texts: what info.cpp computes on the characters of a `\key\value` string, and what that means for the
  list of pairs the string stands for.
*/
module InfoText {
  import opened Common

  const MAX_KV_LEN := 127
  const SLASH := '\\'

  datatype Pair = Pair(key: Text, value: Text)

  // ---- Segments ----

  // The end of the segment that starts at i: the next slash, or the end of the text.
  function SegEnd(t: Text, i: nat): (r: nat)
    requires i <= |t|
    ensures i <= r <= |t|
    decreases |t| - i
  {
    if i == |t| || t[i] == SLASH then i else SegEnd(t, i + 1)
  }

  predicate IsSegEnd(t: Text, i: nat, r: nat) {
    i <= r <= |t| && (forall k :: i <= k < r ==> t[k] != SLASH) && (r < |t| ==> t[r] == SLASH)
  }

  lemma {:induction false} SegEndUnique(t: Text, i: nat, r: nat)
    requires IsSegEnd(t, i, r)
    ensures SegEnd(t, i) == r
    decreases r - i
  {
    if i < r {
      SegEndUnique(t, i + 1, r);
    }
  }

  lemma {:induction false} SegEndIs(t: Text, i: nat)
    requires i <= |t|
    ensures IsSegEnd(t, i, SegEnd(t, i))
    decreases |t| - i
  {
    if i < |t| && t[i] != SLASH {
      SegEndIs(t, i + 1);
    }
  }

  lemma {:induction false} SegEndShift(t: Text, p: nat, x: nat)
    requires p + x <= |t|
    ensures SegEnd(t[p..], x) + p == SegEnd(t, p + x)
    decreases |t| - x
  {
    if p + x < |t| && t[p + x] != SLASH {
      SegEndShift(t, p, x + 1);
    }
  }

  // Every segment fits the copy buffers with room for the terminator.
  ghost predicate ShortSegments(t: Text) {
    forall i :: 0 <= i <= |t| ==> SegEnd(t, i) - i < MAX_KV_LEN
  }

  // What the copy loops keep of the segment that starts at i.
  function CopyOf(t: Text, i: nat): Text
    requires i <= |t|
  {
    var j := SegEnd(t, i);
    if j - i > MAX_KV_LEN then t[i..i + MAX_KV_LEN] else t[i..j]
  }

  // With its terminator the copy fits a buffer of MAX_KV_LEN exactly when the segment is shorter than that.
  lemma CopyFits(t: Text, i: nat)
    requires i <= |t|
    ensures |CopyOf(t, i)| + 1 <= MAX_KV_LEN <==> SegEnd(t, i) - i < MAX_KV_LEN
  {}

  // A segment of 127 characters is copied whole, and its terminator is one too many.
  lemma CopyOverflows(t: Text)
    requires t == seq(MAX_KV_LEN, _ => 'a')
    ensures CopyOf(t, 0) == t && |CopyOf(t, 0)| + 1 == MAX_KV_LEN + 1
  {
    SegEndUnique(t, 0, MAX_KV_LEN);
  }

  // ---- The first entry of a non-empty text ----

  function KeyLo(u: Text): nat
    requires u != []
  {
    if u[0] == SLASH then 1 else 0
  }

  function KeyHi(u: Text): nat
    requires u != []
  {
    SegEnd(u, KeyLo(u))
  }

  function ValLo(u: Text): nat
    requires u != []
  {
    if KeyHi(u) < |u| then KeyHi(u) + 1 else KeyHi(u)
  }

  function ValHi(u: Text): (r: nat)
    requires u != []
    ensures 0 < r <= |u|
  {
    SegEnd(u, ValLo(u))
  }

  function Key(u: Text): Text
    requires u != []
  {
    u[KeyLo(u)..KeyHi(u)]
  }

  function Value(u: Text): Text
    requires u != []
  {
    u[ValLo(u)..ValHi(u)]
  }

  // ---- What the operations compute on texts ----

  // strncmp of at most cmpsize characters, where cmpsize is the length of the key capped below the buffer size.
  predicate Matches(key: Text, k: Text) {
    var cmpsize := if |key| > MAX_KV_LEN - 1 then MAX_KV_LEN - 1 else |key|;
    key[..cmpsize] <= k
  }

  function Remove(t: Text, key: Text): Text
    decreases |t|
  {
    if t == [] then []
    else
      var n := ValHi(t);
      (if Matches(key, Key(t)) then [] else t[..n]) + Remove(t[n..], key)
  }

  // The value of the first entry with this key; the empty string when there is none before an entry without value.
  function Lookup(t: Text, key: Text): Text
    decreases |t|
  {
    if t == [] then []
    else if KeyHi(t) == |t| then []
    else if key == Key(t) then Value(t)
    else Lookup(t[ValHi(t)..], key)
  }

  const IMPORTANT_KEYS: set<Text> :=
    {"name", "model", "rate", "topcolor", "bottomcolor", "cl_updaterate", "cl_lw", "cl_lc"}

  predicate Important(key: Text) {
    (key != [] && key[0] == '*') || key in IMPORTANT_KEYS
  }

  // The entry replaces the best one found so far.
  predicate Larger(key: Text, size: nat, bestSize: nat) {
    size > bestSize && !Important(key)
  }

  function Largest(t: Text, best: Text, bestSize: nat): Text
    decreases |t|, 0
  {
    if t == [] then best
    else if KeyHi(t) == |t| then Key(t)
    else
      LargestNext(t[ValHi(t)..], Key(t), |Key(t)| + |Value(t)|, best, bestSize)
  }

  function LargestNext(rest: Text, key: Text, size: nat, best: Text, bestSize: nat): Text
    decreases |rest|, 1
  {
    if Larger(key, size, bestSize) then Largest(rest, key, size) else Largest(rest, best, bestSize)
  }

  function LargestKey(t: Text): Text { Largest(t, [], 0) }

  // ---- Texts of pairs ----

  function Render(ps: seq<Pair>): Text {
    if ps == [] then [] else [SLASH] + ps[0].key + [SLASH] + ps[0].value + Render(ps[1..])
  }

  predicate PairOk(p: Pair) {
    0 < |p.key| < MAX_KV_LEN && 0 < |p.value| < MAX_KV_LEN && SLASH !in p.key && SLASH !in p.value
  }

  ghost predicate WellFormed(ps: seq<Pair>) {
    forall i :: 0 <= i < |ps| ==> PairOk(ps[i])
  }

  // The pairs whose key begins with none of the given (capped) keys.
  function Keep(ps: seq<Pair>, keys: seq<Text>): seq<Pair> {
    if ps == [] then []
    else (if MatchesAny(keys, ps[0].key) then [] else [ps[0]]) + Keep(ps[1..], keys)
  }

  predicate MatchesAny(keys: seq<Text>, k: Text) {
    exists i :: 0 <= i < |keys| && Matches(keys[i], k)
  }

  function ValueOf(ps: seq<Pair>, key: Text): Text {
    if ps == [] then [] else if ps[0].key == key then ps[0].value else ValueOf(ps[1..], key)
  }

  // A text laid out as key segment and value segment in front of other entries.
  lemma FirstEntry(k: Text, v: Text, rest: Text)
    requires SLASH !in k && SLASH !in v && (rest != [] ==> rest[0] == SLASH)
    ensures var t := [SLASH] + k + [SLASH] + v + rest;
            KeyHi(t) == 1 + |k| && ValHi(t) == 2 + |k| + |v|
  {
    var t := [SLASH] + k + [SLASH] + v + rest;
    forall x | 1 <= x < 1 + |k| ensures t[x] != SLASH { assert t[x] == k[x - 1]; }
    SegEndUnique(t, 1, 1 + |k|);
    forall x | 2 + |k| <= x < 2 + |k| + |v| ensures t[x] != SLASH { assert t[x] == v[x - 2 - |k|]; }
    SegEndUnique(t, 2 + |k|, 2 + |k| + |v|);
  }

  lemma FirstSlices(k: Text, v: Text, rest: Text)
    ensures var t, n := [SLASH] + k + [SLASH] + v + rest, 2 + |k| + |v|;
            && t[1..1 + |k|] == k && t[2 + |k|..n] == v
            && t[..n] == [SLASH] + k + [SLASH] + v && t[n..] == rest
  {}

  lemma RenderFirst(ps: seq<Pair>)
    requires WellFormed(ps) && ps != []
    ensures var t, n := Render(ps), 2 + |ps[0].key| + |ps[0].value|;
            && n <= |t| && KeyHi(t) < |t| && ValHi(t) == n
            && Key(t) == ps[0].key && Value(t) == ps[0].value
            && t[..n] == [SLASH] + ps[0].key + [SLASH] + ps[0].value && t[n..] == Render(ps[1..])
  {
    var k, v, rest := ps[0].key, ps[0].value, Render(ps[1..]);
    assert PairOk(ps[0]);
    FirstEntry(k, v, rest);
    FirstSlices(k, v, rest);
  }

  lemma {:induction false} RemoveFilters(ps: seq<Pair>, key: Text)
    requires WellFormed(ps)
    ensures Remove(Render(ps), key) == Render(Keep(ps, [key]))
  {
    if ps != [] {
      RenderFirst(ps);
      RemoveFilters(ps[1..], key);
      assert MatchesAny([key], ps[0].key) <==> Matches(key, ps[0].key) by {
        assert [key][0] == key;
      }
      var rest := Keep(ps[1..], [key]);
      if !Matches(key, ps[0].key) {
        assert Keep(ps, [key]) == [ps[0]] + rest;
        assert ([ps[0]] + rest)[1..] == rest;
      } else {
        assert Keep(ps, [key]) == rest;
      }
    }
  }

  lemma {:induction false} LookupFinds(ps: seq<Pair>, key: Text)
    requires WellFormed(ps)
    ensures Lookup(Render(ps), key) == ValueOf(ps, key)
  {
    if ps != [] {
      RenderFirst(ps);
      LookupFinds(ps[1..], key);
    }
  }

  lemma SegmentOfFirst(t: Text, p: Pair, i: nat)
    requires PairOk(p) && i <= |t|
    requires var n := 2 + |p.key| + |p.value|;
             n <= |t| && t[..n] == [SLASH] + p.key + [SLASH] + p.value && (n < |t| ==> t[n] == SLASH)
    ensures i < 2 + |p.key| + |p.value| ==> SegEnd(t, i) - i < MAX_KV_LEN
  {
    var k, n := |p.key|, 2 + |p.key| + |p.value|;
    forall x | 0 <= x < n ensures t[x] == t[..n][x] {}
    if i == 0 {
      SegEndUnique(t, 0, 0);
    } else if i <= 1 + k {
      forall x | i <= x < 1 + k ensures t[x] != SLASH { assert t[x] == p.key[x - 1]; }
      SegEndUnique(t, i, 1 + k);
    } else if i < n {
      forall x | i <= x < n ensures t[x] != SLASH { assert t[x] == p.value[x - 2 - k]; }
      SegEndUnique(t, i, n);
    }
  }

  lemma ShortCons(t: Text, p: Pair)
    requires PairOk(p)
    requires var n := 2 + |p.key| + |p.value|;
             && n <= |t| && t[..n] == [SLASH] + p.key + [SLASH] + p.value && (n < |t| ==> t[n] == SLASH)
             && ShortSegments(t[n..])
    ensures ShortSegments(t)
  {
    var n := 2 + |p.key| + |p.value|;
    forall i | 0 <= i <= |t| ensures SegEnd(t, i) - i < MAX_KV_LEN {
      SegmentOfFirst(t, p, i);
      if i >= n {
        SegEndShift(t, n, i - n);
        assert SegEnd(t[n..], i - n) - (i - n) < MAX_KV_LEN;
      }
    }
  }

  // The segments of a well-formed text fit the copy buffers.
  lemma {:induction false} RenderShort(ps: seq<Pair>)
    requires WellFormed(ps)
    ensures ShortSegments(Render(ps))
  {
    if ps != [] {
      var t, n := Render(ps), 2 + |ps[0].key| + |ps[0].value|;
      assert PairOk(ps[0]);
      RenderFirst(ps);
      RenderShort(ps[1..]);
      assert n < |t| ==> t[n] == SLASH by {
        assert t[n..] != [] ==> t[n..][0] == SLASH;
      }
      ShortCons(t, ps[0]);
    }
  }

  // ---- Setting a key ----

  const MAX_INFO_STRING := 256

  datatype Outcome = Refused | Removed | NoRoom | Stored

  predicate Acceptable(key: Text, value: Text) {
    && key != []
    && SLASH !in key && SLASH !in value
    && !Contains(key, "..") && (key == "name" || !Contains(value, ".."))
    && '"' !in key && '"' !in value
    && |key| < MAX_KV_LEN && |value| < MAX_KV_LEN
  }

  function LowerChar(c: char): char {
    if 'A' <= c <= 'Z' then c - 'A' + 'a' else c
  }

  function Lower(t: Text): (r: Text)
    ensures |r| == |t| && forall i :: 0 <= i < |t| ==> r[i] == LowerChar(t[i])
  {
    if t == [] then [] else [LowerChar(t[0])] + Lower(t[1..])
  }

  predicate IsTeam(key: Text) { Lower(key) == "team" }

  // snprintf into newArray: at most MAX_INFO_STRING - 2 characters survive.
  function NewArray(key: Text, value: Text): Text {
    var e := [SLASH] + key + [SLASH] + value;
    if |e| > MAX_INFO_STRING - 2 then e[..MAX_INFO_STRING - 2] else e
  }

  lemma {:induction false} RemoveShrinksOrKeeps(t: Text, key: Text)
    ensures |Remove(t, key)| <= |t|
    decreases |t|
  {
    if t != [] {
      RemoveShrinksOrKeeps(t[ValHi(t)..], key);
    }
  }

  // The key that FindLargestKey returns belongs to some entry, so removing it strictly shortens the text.
  lemma {:induction false} LargestShrinks(t: Text, best: Text, bestSize: nat)
    ensures Largest(t, best, bestSize) == best || |Remove(t, Largest(t, best, bestSize))| < |t|
    decreases |t|
  {
    if t != [] {
      var rest, r := t[ValHi(t)..], Largest(t, best, bestSize);
      RemoveShrinksOrKeeps(rest, r);
      if KeyHi(t) < |t| {
        var size := |Key(t)| + |Value(t)|;
        if size > bestSize && !Important(Key(t)) {
          LargestShrinks(rest, Key(t), size);
        } else {
          LargestShrinks(rest, best, bestSize);
        }
      }
    }
  }

  // Putting texts together at a slash leaves the segments as they are.
  lemma ShortJoin(t: Text, n: nat, r: Text)
    requires ShortSegments(t) && ShortSegments(r) && n <= |t|
    requires (n < |t| ==> t[n] == SLASH) && (r != [] ==> r[0] == SLASH)
    ensures ShortSegments(t[..n] + r)
  {
    var u := t[..n] + r;
    forall i | 0 <= i <= |u| ensures SegEnd(u, i) - i < MAX_KV_LEN {
      if i < n {
        var e := SegEnd(t, i);
        SegEndIs(t, i);
        assert forall k :: i <= k < n ==> u[k] == t[k];
        SegEndUnique(u, i, e);
      } else {
        assert u[n..] == r;
        SegEndShift(u, n, i - n);
        assert SegEnd(r, i - n) - (i - n) < MAX_KV_LEN;
      }
    }
  }

  lemma ShortTail(t: Text, n: nat)
    requires ShortSegments(t) && n <= |t|
    ensures ShortSegments(t[n..])
  {
    forall i | 0 <= i <= |t| - n ensures SegEnd(t[n..], i) - i < MAX_KV_LEN {
      SegEndShift(t, n, i);
      assert SegEnd(t, n + i) - (n + i) < MAX_KV_LEN;
    }
  }

  // Removal leaves the segments short, and what is left of a rest starts with a slash like the rest itself.
  lemma {:induction false} RemoveShort(t: Text, key: Text)
    requires ShortSegments(t)
    ensures ShortSegments(Remove(t, key))
    ensures t != [] && t[0] == SLASH && Remove(t, key) != [] ==> Remove(t, key)[0] == SLASH
    decreases |t|
  {
    if t != [] {
      var n := ValHi(t);
      var rest := Remove(t[n..], key);
      SegEndIs(t, ValLo(t));
      ShortTail(t, n);
      RemoveShort(t[n..], key);
      if Matches(key, Key(t)) {
        assert Remove(t, key) == rest;
      } else {
        ShortJoin(t, n, rest);
      }
    }
  }

  lemma {:induction false} LargestHasNoSlash(t: Text, best: Text, bestSize: nat)
    requires SLASH !in best
    ensures SLASH !in Largest(t, best, bestSize)
    decreases |t|
  {
    if t != [] {
      SegEndIs(t, KeyLo(t));
      var size := |Key(t)| + |Value(t)|;
      if Larger(Key(t), size, bestSize) {
        LargestHasNoSlash(t[ValHi(t)..], Key(t), size);
      } else {
        LargestHasNoSlash(t[ValHi(t)..], best, bestSize);
      }
    }
  }

  // The make-room loop: drop the largest non-important key until the new entry fits.
  function Evict(t: Text, needed: nat, maxsize: int): (Text, bool)
    decreases |t|
  {
    var k := LargestKey(t);
    if k == [] then (t, false)
    else
      LargestShrinks(t, [], 0);
      var t1 := Remove(t, k);
      if |t1| + needed >= maxsize then Evict(t1, needed, maxsize) else (t1, true)
  }

  function MakeRoom(t: Text, key: Text, needed: nat, maxsize: int): (Text, bool) {
    if |t| + needed < maxsize then (t, true)
    else if !Important(key) then (t, false)
    else Evict(t, needed, maxsize)
  }

  function SetText(t: Text, key: Text, value: Text, maxsize: int): (Text, Outcome) {
    if !Acceptable(key, value) then (t, Refused)
    else
      var t1 := Remove(t, key);
      if value == [] then (t1, Removed)
      else
        var entry := NewArray(key, value);
        var (t2, room) := MakeRoom(t1, key, |entry|, maxsize);
        if !room then (t2, NoRoom)
        else (t2 + if IsTeam(key) then Lower(entry) else entry, Stored)
  }

  // ---- What setting a key means for the pairs ----

  function StoredPair(key: Text, value: Text): Pair {
    if IsTeam(key) then Pair(Lower(key), Lower(value)) else Pair(key, value)
  }

  ghost predicate AllDisposable(keys: seq<Text>) {
    forall i :: 0 <= i < |keys| ==> keys[i] != [] && !Important(keys[i])
  }

  ghost predicate AllImportant(ps: seq<Pair>) {
    forall i :: 0 <= i < |ps| ==> Important(ps[i].key)
  }

  lemma {:induction false} KeepWellFormed(ps: seq<Pair>, keys: seq<Text>)
    requires WellFormed(ps)
    ensures WellFormed(Keep(ps, keys))
  {
    if ps != [] {
      KeepWellFormed(ps[1..], keys);
      assert PairOk(ps[0]);
    }
  }

  lemma {:induction false} KeepTwice(ps: seq<Pair>, a: seq<Text>, b: seq<Text>)
    ensures Keep(Keep(ps, a), b) == Keep(ps, a + b)
  {
    if ps != [] {
      KeepTwice(ps[1..], a, b);
      var k := ps[0].key;
      assert MatchesAny(a + b, k) <==> MatchesAny(a, k) || MatchesAny(b, k) by {
        if i :| 0 <= i < |a| && Matches(a[i], k) { assert (a + b)[i] == a[i]; }
        if i :| 0 <= i < |b| && Matches(b[i], k) { assert (a + b)[|a| + i] == b[i]; }
      }
      var rest := Keep(ps[1..], a);
      if MatchesAny(a, k) {
        assert Keep(ps, a) == rest;
      } else {
        assert Keep(ps, a) == [ps[0]] + rest;
        assert ([ps[0]] + rest)[1..] == rest;
      }
    }
  }

  lemma {:induction false} RenderAppend(ps: seq<Pair>, p: Pair)
    ensures Render(ps + [p]) == Render(ps) + ([SLASH] + p.key + [SLASH] + p.value)
  {
    if ps == [] {
      assert ps + [p] == [p];
    } else {
      RenderAppend(ps[1..], p);
      assert (ps + [p])[1..] == ps[1..] + [p];
      var head, tail := [SLASH] + ps[0].key + [SLASH] + ps[0].value, Render(ps[1..]);
      var e := [SLASH] + p.key + [SLASH] + p.value;
      assert Render(ps + [p]) == head + (tail + e) == (head + tail) + e;
    }
  }

  function Size(p: Pair): nat { |p.key| + |p.value| }

  // The i-th pair is the first of the largest among those whose key is not important.
  ghost predicate IsLargest(ps: seq<Pair>, i: nat)
    requires i < |ps|
  {
    && !Important(ps[i].key)
    && forall j :: 0 <= j < |ps| && !Important(ps[j].key) ==>
         Size(ps[j]) <= Size(ps[i]) && (j < i ==> Size(ps[j]) < Size(ps[i]))
  }

  ghost predicate NoneLarger(ps: seq<Pair>, size: nat) {
    forall j :: 0 <= j < |ps| && !Important(ps[j].key) ==> Size(ps[j]) <= size
  }

  lemma LargestShifts(ps: seq<Pair>, i: nat)
    requires ps != [] && i < |ps| - 1 && IsLargest(ps[1..], i)
    requires Important(ps[0].key) || Size(ps[0]) < Size(ps[i + 1])
    ensures IsLargest(ps, i + 1)
  {
    forall k | 1 <= k < |ps| ensures ps[k] == ps[1..][k - 1] {}
  }

  lemma NoneLargerShifts(ps: seq<Pair>, size: nat)
    requires ps != [] && NoneLarger(ps[1..], size)
    ensures Important(ps[0].key) || Size(ps[0]) <= size ==> NoneLarger(ps, size)
    ensures !Important(ps[0].key) && size == Size(ps[0]) ==> IsLargest(ps, 0)
  {
    forall k | 1 <= k < |ps| ensures ps[k] == ps[1..][k - 1] {}
  }

  lemma LargestStep(ps: seq<Pair>, best: Text, bestSize: nat)
    requires WellFormed(ps) && ps != []
    ensures Largest(Render(ps), best, bestSize) == LargestNext(Render(ps[1..]), ps[0].key, Size(ps[0]), best, bestSize)
  {
    RenderFirst(ps);
  }

  lemma {:induction false} LargestFinds(ps: seq<Pair>, best: Text, bestSize: nat) returns (i: int)
    requires WellFormed(ps)
    ensures -1 <= i < |ps|
    ensures i == -1 ==> NoneLarger(ps, bestSize) && Largest(Render(ps), best, bestSize) == best
    ensures i >= 0 ==> IsLargest(ps, i) && Size(ps[i]) > bestSize && Largest(Render(ps), best, bestSize) == ps[i].key
  {
    if ps == [] {
      return -1;
    }
    LargestStep(ps, best, bestSize);
    if Larger(ps[0].key, Size(ps[0]), bestSize) {
      i := LargestFinds(ps[1..], ps[0].key, Size(ps[0]));
      if i >= 0 {
        LargestShifts(ps, i);
      } else {
        NoneLargerShifts(ps, Size(ps[0]));
      }
      i := i + 1;
    } else {
      i := LargestFinds(ps[1..], best, bestSize);
      if i >= 0 {
        LargestShifts(ps, i);
        i := i + 1;
      } else {
        NoneLargerShifts(ps, bestSize);
      }
    }
  }

  // FindLargestKey returns the empty string exactly when every key is important, and otherwise the first
  // non-important key of maximal size.
  lemma LargestKeyFinds(ps: seq<Pair>)
    requires WellFormed(ps)
    ensures var r := LargestKey(Render(ps));
            if AllImportant(ps) then r == []
            else r != [] && exists i :: 0 <= i < |ps| && ps[i].key == r && IsLargest(ps, i)
  {
    var i := LargestFinds(ps, [], 0);
    forall j | 0 <= j < |ps| ensures PairOk(ps[j]) {}
  }

  // The keys evicted one after the other: each time there was no room, and the largest non-important key went.
  ghost predicate EvictedInTurn(ps: seq<Pair>, keys: seq<Text>, needed: nat, maxsize: int) {
    forall i :: 0 <= i < |keys| ==> EvictedNext(Keep(ps, keys[..i]), keys[i], needed, maxsize)
  }

  ghost predicate EvictedNext(ps: seq<Pair>, key: Text, needed: nat, maxsize: int) {
    && |Render(ps)| + needed >= maxsize
    && exists j :: 0 <= j < |ps| && ps[j].key == key && IsLargest(ps, j)
  }

  lemma EvictedKeysDisposable(ps: seq<Pair>, keys: seq<Text>, needed: nat, maxsize: int)
    requires WellFormed(ps) && EvictedInTurn(ps, keys, needed, maxsize)
    ensures AllDisposable(keys)
  {
    forall i | 0 <= i < |keys| ensures keys[i] != [] && !Important(keys[i]) {
      var qs := Keep(ps, keys[..i]);
      assert EvictedNext(qs, keys[i], needed, maxsize);
      KeepWellFormed(ps, keys[..i]);
      var j :| 0 <= j < |qs| && qs[j].key == keys[i] && IsLargest(qs, j);
      assert PairOk(qs[j]);
    }
  }

  lemma EvictedFirst(ps: seq<Pair>, k: Text, more: seq<Text>, needed: nat, maxsize: int)
    requires EvictedNext(ps, k, needed, maxsize) && EvictedInTurn(Keep(ps, [k]), more, needed, maxsize)
    ensures EvictedInTurn(ps, [k] + more, needed, maxsize)
  {
    var keys := [k] + more;
    forall i | 0 <= i < |keys| ensures EvictedNext(Keep(ps, keys[..i]), keys[i], needed, maxsize) {
      if i == 0 {
        KeepNothing(ps);
      } else {
        assert EvictedNext(Keep(Keep(ps, [k]), more[..i - 1]), more[i - 1], needed, maxsize);
        KeepTwice(ps, [k], more[..i - 1]);
        assert keys[..i] == [k] + more[..i - 1];
      }
    }
  }

  // Eviction removes the largest non-important key as long as there is no room.  It stops at the first fit; if it
  // fails, only important keys are left and there is still no room.
  lemma {:induction false} EvictFilters(ps: seq<Pair>, needed: nat, maxsize: int) returns (keys: seq<Text>)
    requires WellFormed(ps) && |Render(ps)| + needed >= maxsize
    ensures EvictedInTurn(ps, keys, needed, maxsize)
    ensures var (t, room) := Evict(Render(ps), needed, maxsize);
            && t == Render(Keep(ps, keys))
            && (room <==> |t| + needed < maxsize)
            && (!room ==> AllImportant(Keep(ps, keys)))
    decreases |Render(ps)|
  {
    var k := LargestKey(Render(ps));
    LargestKeyFinds(ps);
    if k == [] {
      keys := [];
      KeepNothing(ps);
    } else {
      LargestShrinks(Render(ps), [], 0);
      RemoveFilters(ps, k);
      var ps1 := Keep(ps, [k]);
      KeepWellFormed(ps, [k]);
      var more := [];
      if |Render(ps1)| + needed >= maxsize {
        more := EvictFilters(ps1, needed, maxsize);
      }
      KeepTwice(ps, [k], more);
      KeepNothing(ps1);
      EvictedFirst(ps, k, more, needed, maxsize);
      keys := [k] + more;
    }
  }

  lemma {:induction false} KeepNothing(ps: seq<Pair>)
    ensures Keep(ps, []) == ps
  {
    if ps != [] {
      KeepNothing(ps[1..]);
    }
  }

  lemma LowerAppend(a: Text, b: Text)
    ensures Lower(a + b) == Lower(a) + Lower(b)
  {}

  lemma NewArrayUncut(key: Text, value: Text)
    requires Acceptable(key, value)
    ensures NewArray(key, value) == [SLASH] + key + [SLASH] + value
    ensures Lower(NewArray(key, value)) == [SLASH] + Lower(key) + [SLASH] + Lower(value)
  {
    LowerAppend([SLASH] + key + [SLASH], value);
    LowerAppend([SLASH] + key, [SLASH]);
    LowerAppend([SLASH], key);
    assert Lower([SLASH]) == [SLASH];
  }

  // The pairs after Info_SetValueForStarKey; `gone` lists the keys evicted to make room.
  ghost function PairsAfter(ps: seq<Pair>, key: Text, value: Text, gone: seq<Text>, o: Outcome): seq<Pair> {
    match o
    case Refused => ps
    case Stored => Keep(ps, [key] + gone) + [StoredPair(key, value)]
    case _ => Keep(ps, [key] + gone)
  }

  lemma MakeRoomFilters(ps: seq<Pair>, key: Text, needed: nat, maxsize: int) returns (gone: seq<Text>)
    requires WellFormed(ps)
    ensures EvictedInTurn(ps, gone, needed, maxsize) && (!Important(key) ==> gone == [])
    ensures var (t, room) := MakeRoom(Render(ps), key, needed, maxsize);
            && t == Render(Keep(ps, gone))
            && (room <==> |t| + needed < maxsize)
            && (!room && Important(key) ==> AllImportant(Keep(ps, gone)))
  {
    gone := [];
    KeepNothing(ps);
    if |Render(ps)| + needed >= maxsize && Important(key) {
      gone := EvictFilters(ps, needed, maxsize);
    }
  }

  lemma StoredText(ps: seq<Pair>, key: Text, value: Text)
    requires Acceptable(key, value)
    ensures var entry := NewArray(key, value);
            Render(ps + [StoredPair(key, value)]) == Render(ps) + if IsTeam(key) then Lower(entry) else entry
  {
    NewArrayUncut(key, value);
    RenderAppend(ps, StoredPair(key, value));
  }

  // What setting a key does, and when each outcome happens.  With room for the entry behind the removal of the key it
  // is stored at once; without, a non-important key is given up, and an important one has others evicted in turn.
  lemma SetMeans(ps: seq<Pair>, key: Text, value: Text, maxsize: int) returns (gone: seq<Text>)
    requires WellFormed(ps)
    ensures AllDisposable(gone)
    ensures EvictedInTurn(Keep(ps, [key]), gone, |NewArray(key, value)|, maxsize)
    ensures var (t, o) := SetText(Render(ps), key, value, maxsize);
            var fits := |Remove(Render(ps), key)| + |NewArray(key, value)| < maxsize;
            && t == Render(PairsAfter(ps, key, value, gone, o))
            && (o == Refused <==> !Acceptable(key, value))
            && (o == Removed <==> Acceptable(key, value) && value == [])
            && (o == Stored ==> |t| < maxsize)
            && (Acceptable(key, value) && value != [] && fits ==> o == Stored)
            && (!Important(key) && o == Stored ==> fits)
            && (o == NoRoom ==> |t| + |NewArray(key, value)| >= maxsize)
            && (o == NoRoom && Important(key) ==> AllImportant(Keep(ps, [key] + gone)))
            && (o == Removed || fits || !Important(key) ==> gone == [])
  {
    gone := [];
    if Acceptable(key, value) {
      RemoveFilters(ps, key);
      KeepWellFormed(ps, [key]);
      assert [key] + [] == [key];
      if value != [] {
        gone := MakeRoomFilters(Keep(ps, [key]), key, |NewArray(key, value)|, maxsize);
        EvictedKeysDisposable(Keep(ps, [key]), gone, |NewArray(key, value)|, maxsize);
        GoneForLackOfRoom(Keep(ps, [key]), gone, |NewArray(key, value)|, maxsize);
        KeepTwice(ps, [key], gone);
        StoredText(Keep(ps, [key] + gone), key, value);
      }
    }
  }

  lemma GoneForLackOfRoom(ps: seq<Pair>, gone: seq<Text>, needed: nat, maxsize: int)
    requires EvictedInTurn(ps, gone, needed, maxsize)
    ensures gone != [] ==> |Render(ps)| + needed >= maxsize
  {
    KeepNothing(ps);
    if gone != [] {
      assert EvictedNext(Keep(ps, gone[..0]), gone[0], needed, maxsize);
    }
  }

  // ---- What a caller can rely on ----

  lemma {:induction false} ValueOfKeep(ps: seq<Pair>, keys: seq<Text>, k: Text)
    ensures ValueOf(Keep(ps, keys), k) == if MatchesAny(keys, k) then [] else ValueOf(ps, k)
  {
    if ps != [] {
      ValueOfKeep(ps[1..], keys, k);
      var rest := Keep(ps[1..], keys);
      if !MatchesAny(keys, ps[0].key) {
        assert Keep(ps, keys) == [ps[0]] + rest && ([ps[0]] + rest)[1..] == rest;
      } else {
        assert Keep(ps, keys) == rest;
      }
    }
  }

  lemma {:induction false} ValueOfAppend(ps: seq<Pair>, p: Pair, k: Text)
    requires WellFormed(ps)
    ensures ValueOf(ps + [p], k) == if ValueOf(ps, k) != [] then ValueOf(ps, k) else if p.key == k then p.value else []
  {
    if ps == [] {
      assert ps + [p] == [p];
    } else {
      assert PairOk(ps[0]);
      ValueOfAppend(ps[1..], p, k);
      assert (ps + [p])[1..] == ps[1..] + [p];
    }
  }

  lemma PairsAfterWellFormed(ps: seq<Pair>, key: Text, value: Text, gone: seq<Text>, o: Outcome)
    requires WellFormed(ps) && (o != Refused ==> Acceptable(key, value)) && (o == Stored ==> value != [])
    ensures WellFormed(PairsAfter(ps, key, value, gone, o))
  {
    KeepWellFormed(ps, [key] + gone);
    assert PairOk(StoredPair(key, value)) <== o == Stored;
  }

  // After a successful set, looking the key up returns the value exactly when the lowercasing of "team" changes
  // neither of them.
  lemma StoredValueIsFound(ps: seq<Pair>, key: Text, value: Text, maxsize: int)
    requires WellFormed(ps)
    ensures var (t, o) := SetText(Render(ps), key, value, maxsize);
            o == Stored ==>
              (Lookup(t, key) == value <==> !IsTeam(key) || (Lower(key) == key && Lower(value) == value))
  {
    var (t, o) := SetText(Render(ps), key, value, maxsize);
    var gone := SetMeans(ps, key, value, maxsize);
    if o == Stored {
      var kept := Keep(ps, [key] + gone);
      KeepWellFormed(ps, [key] + gone);
      PairsAfterWellFormed(ps, key, value, gone, o);
      LookupFinds(PairsAfter(ps, key, value, gone, o), key);
      ValueOfAppend(kept, StoredPair(key, value), key);
      ValueOfKeep(ps, [key] + gone, key);
      assert Matches(([key] + gone)[0], key);
    }
  }

  // In every outcome but refusal the result is described by the evicted keys: a key that begins with the set key or
  // with an evicted key is gone, every other key but the stored one keeps its value.
  lemma OtherKeysKeepValue(ps: seq<Pair>, key: Text, value: Text, maxsize: int) returns (gone: seq<Text>)
    requires WellFormed(ps)
    ensures AllDisposable(gone) && EvictedInTurn(Keep(ps, [key]), gone, |NewArray(key, value)|, maxsize)
    ensures |Remove(Render(ps), key)| + |NewArray(key, value)| < maxsize || !Important(key) ==> gone == []
    ensures var (t, o) := SetText(Render(ps), key, value, maxsize);
            o != Refused ==> forall k :: !(o == Stored && k == StoredPair(key, value).key) ==>
              Lookup(t, k) == if MatchesAny([key] + gone, k) then [] else Lookup(Render(ps), k)
  {
    var (t, o) := SetText(Render(ps), key, value, maxsize);
    gone := SetMeans(ps, key, value, maxsize);
    if o != Refused {
      var kept := Keep(ps, [key] + gone);
      KeepWellFormed(ps, [key] + gone);
      PairsAfterWellFormed(ps, key, value, gone, o);
      forall k | !(o == Stored && k == StoredPair(key, value).key)
        ensures Lookup(t, k) == if MatchesAny([key] + gone, k) then [] else Lookup(Render(ps), k)
      {
        LookupFinds(PairsAfter(ps, key, value, gone, o), k);
        LookupFinds(ps, k);
        ValueOfKeep(ps, [key] + gone, k);
        if o == Stored {
          ValueOfAppend(kept, StoredPair(key, value), k);
        }
      }
    }
  }

  lemma DisposableMissesStar(g: Text, k: Text)
    requires g != [] && !Important(g) && k != [] && k[0] == '*'
    ensures !Matches(g, k)
  {
    assert g[0] != '*';
  }

  // Setting "Team" to "Red" in an empty string succeeds, and the value is not found under the given key.
  lemma TeamIsLowered()
    ensures var (t, o) := SetText([], "Team", "Red", 256); o == Stored && Lookup(t, "Team") != "Red"
  {
    var key, value := "Team", "Red";
    assert Lower(key) == "team";
    assert Lower(key)[0] != key[0];
    assert Acceptable(key, value);
    NewArrayUncut(key, value);
    var gone := SetMeans([], key, value, 256);
    StoredValueIsFound([], key, value, 256);
  }

  lemma {:induction false} KeepNone(ps: seq<Pair>, keys: seq<Text>)
    requires forall i :: 0 <= i < |ps| ==> MatchesAny(keys, ps[i].key)
    ensures Keep(ps, keys) == []
  {
    if ps != [] {
      KeepNone(ps[1..], keys);
    }
  }

  // Removing "na" takes the important key "name" with it.
  lemma PrefixTakesName(ps: seq<Pair>)
    requires ps == [Pair("na", "x"), Pair("name", "y")]
    ensures Important(ps[1].key) && Remove(Render(ps), "na") == []
  {
    var keys: seq<Text> := ["na"];
    RemoveFilters(ps, "na");
    assert Matches(keys[0], "na") && Matches(keys[0], "name");
    KeepNone(ps, keys);
  }

  // No key starting with '*' is evicted: setting a key that it does not begin with leaves its value alone.
  lemma StarKeysSurvive(ps: seq<Pair>, key: Text, value: Text, maxsize: int, k: Text)
    requires WellFormed(ps) && k != [] && k[0] == '*' && !Matches(key, k)
    ensures var (t, o) := SetText(Render(ps), key, value, maxsize);
            !(o == Stored && k == StoredPair(key, value).key) ==> Lookup(t, k) == Lookup(Render(ps), k)
  {
    var gone := OtherKeysKeepValue(ps, key, value, maxsize);
    forall i | 0 <= i < |[key] + gone| ensures !Matches(([key] + gone)[i], k) {
      if i > 0 {
        DisposableMissesStar(gone[i - 1], k);
      }
    }
  }

  // ---- Whole runs ----

  datatype Op = SetOp(key: Text, value: Text) | RemoveOp(name: Text)

  function Run(t: Text, ops: seq<Op>, maxsize: int): Text {
    if ops == [] then t
    else
      var r := Run(t, ops[..|ops| - 1], maxsize);
      match ops[|ops| - 1]
      case SetOp(key, value) => SetText(r, key, value, maxsize).0
      case RemoveOp(name) => if SLASH in name then r else Remove(r, name)
  }

  // The characters an operation is given.
  function OpText(op: Op): Text {
    match op
    case SetOp(key, value) => key + value
    case RemoveOp(name) => name
  }

  lemma {:induction false} EvictShort(t: Text, needed: nat, maxsize: int)
    requires ShortSegments(t)
    ensures ShortSegments(Evict(t, needed, maxsize).0)
    decreases |t|
  {
    var k := LargestKey(t);
    if k != [] {
      LargestShrinks(t, [], 0);
      RemoveShort(t, k);
      if |Remove(t, k)| + needed >= maxsize {
        EvictShort(Remove(t, k), needed, maxsize);
      }
    }
  }

  lemma RoomShort(t: Text, key: Text, needed: nat, maxsize: int)
    requires ShortSegments(t)
    ensures ShortSegments(MakeRoom(t, key, needed, maxsize).0)
  {
    EvictShort(t, needed, maxsize);
  }

  lemma AppendShort(t: Text, p: Pair)
    requires ShortSegments(t) && PairOk(p)
    ensures ShortSegments(t + Render([p]))
  {
    RenderShort([p]);
    ShortJoin(t, |t|, Render([p]));
    assert t[..|t|] == t;
  }

  lemma SetShort(t: Text, key: Text, value: Text, maxsize: int)
    requires ShortSegments(t)
    ensures ShortSegments(SetText(t, key, value, maxsize).0)
  {
    if Acceptable(key, value) {
      RemoveShort(t, key);
      if value != [] {
        var entry, p := NewArray(key, value), StoredPair(key, value);
        RoomShort(Remove(t, key), key, |entry|, maxsize);
        var (t2, room) := MakeRoom(Remove(t, key), key, |entry|, maxsize);
        StoredText([], key, value);
        assert [] + [p] == [p];
        assert Render([p]) == if IsTeam(key) then Lower(entry) else entry;
        PairsAfterWellFormed([], key, value, [], Stored);
        assert PairOk(PairsAfter([], key, value, [], Stored)[0]);
        AppendShort(t2, p);
      }
    }
  }

  // Whatever the string, any sequence of sets and removals leaves segments that fit the copy buffers.
  lemma {:induction false} RunsStayShort(t: Text, ops: seq<Op>, maxsize: int)
    requires ShortSegments(t)
    ensures ShortSegments(Run(t, ops, maxsize))
    decreases |ops|
  {
    if ops != [] {
      var front := ops[..|ops| - 1];
      RunsStayShort(t, front, maxsize);
      match ops[|ops| - 1]
      case SetOp(key, value) => SetShort(Run(t, front, maxsize), key, value, maxsize);
      case RemoveOp(name) => RemoveShort(Run(t, front, maxsize), name);
    }
  }

  lemma {:induction false} KeepShorter(ps: seq<Pair>, keys: seq<Text>)
    ensures |Render(Keep(ps, keys))| <= |Render(ps)|
  {
    if ps != [] {
      KeepShorter(ps[1..], keys);
      var rest := Keep(ps[1..], keys);
      assert ([ps[0]] + rest)[1..] == rest;
      assert Keep(ps, keys) == if MatchesAny(keys, ps[0].key) then rest else [ps[0]] + rest;
    }
  }

  // Any sequence of sets and removals keeps the string well formed and shorter than maxsize.
  lemma {:induction false} RunsStayWellFormed(ps: seq<Pair>, ops: seq<Op>, maxsize: int) returns (qs: seq<Pair>)
    requires WellFormed(ps) && |Render(ps)| < maxsize
    ensures WellFormed(qs) && Run(Render(ps), ops, maxsize) == Render(qs) && |Render(qs)| < maxsize
    ensures ShortSegments(Run(Render(ps), ops, maxsize))
    decreases |ops|
  {
    RenderShort(ps);
    RunsStayShort(Render(ps), ops, maxsize);
    if ops == [] {
      return ps;
    }
    var rs := RunsStayWellFormed(ps, ops[..|ops| - 1], maxsize);
    match ops[|ops| - 1]
    case SetOp(key, value) =>
      var (t, o) := SetText(Render(rs), key, value, maxsize);
      var gone := SetMeans(rs, key, value, maxsize);
      PairsAfterWellFormed(rs, key, value, gone, o);
      KeepShorter(rs, [key] + gone);
      qs := PairsAfter(rs, key, value, gone, o);
    case RemoveOp(name) =>
      RemoveFilters(rs, name);
      KeepWellFormed(rs, [name]);
      KeepShorter(rs, [name]);
      qs := if SLASH in name then rs else Keep(rs, [name]);
  }
}
