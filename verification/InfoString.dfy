/**
  info.cpp on its buffers: NUL-terminated character arrays scanned by position and edited in place.  Each method is
  proved to compute the function of InfoText of the same purpose on the text in the buffer.
*/
module InfoString {
  import opened Common
  import opened InfoText
  import opened InfoLaws

  const NUL := '\0'
  const INFO_MAX_BUFFER_VALUES := 4

  // The buffer holds the text t, terminated.
  ghost predicate Holds(s: array<char>, t: Text)
    reads s
  {
    |t| < s.Length && s[..|t|] == t && s[|t|] == NUL && NUL !in t
  }

  lemma CharAt(s: array<char>, t: Text, i: nat)
    requires Holds(s, t) && i <= |t|
    ensures s[i] == NUL <==> i == |t|
    ensures i < |t| ==> s[i] == t[i]
  {
    if i < |t| {
      assert s[..|t|][i] == t[i];
    }
  }

  method StrLen(s: array<char>, ghost t: Text) returns (n: nat)
    requires Holds(s, t)
    ensures n == |t|
  {
    n := 0;
    while s[n] != NUL
      invariant 0 <= n <= |t|
      decreases |t| - n
    {
      CharAt(s, t, n);
      n := n + 1;
    }
    CharAt(s, t, n);
  }

  // The inner copy loops: copy up to the next slash or the terminator, dropping what does not fit.
  method CopySegment(s: array<char>, i: nat, ghost t: Text) returns (j: nat, copy: Text)
    requires Holds(s, t) && i <= |t|
    ensures j == SegEnd(t, i)
    ensures copy == CopyOf(t, i)
  {
    j, copy := i, [];
    while s[j] != SLASH
      invariant i <= j <= |t| && forall k :: i <= k < j ==> t[k] != SLASH
      invariant copy == if j - i > MAX_KV_LEN then t[i..i + MAX_KV_LEN] else t[i..j]
      decreases |t| - j
    {
      CharAt(s, t, j);
      if s[j] == NUL {
        break;
      }
      if |copy| >= MAX_KV_LEN {
        j := j + 1;
        continue;
      }
      copy := copy + [s[j]];
      j := j + 1;
    }
    CharAt(s, t, j);
    SegEndUnique(t, i, j);
  }

  lemma HoldsText(s: array<char>, u: Text)
    requires NUL !in u && |u| < s.Length && s[|u|] == NUL
    requires forall x :: 0 <= x < |u| ==> s[x] == u[x]
    ensures Holds(s, u)
  {}

  // The copy loop: u is what the buffer is to hold.
  method CopyTail(s: array<char>, dst: nat, src: nat, ghost t: Text, ghost u: Text)
    requires dst <= src <= |t| < s.Length && |u| == dst + (|t| - src) && s[|t|] == NUL && NUL !in t && NUL !in u
    requires forall x :: 0 <= x < |t| ==> s[x] == t[x]
    requires forall x :: 0 <= x < dst ==> u[x] == t[x]
    requires forall x :: dst <= x < |u| ==> u[x] == t[src - dst + x]
    modifies s
    ensures Holds(s, u)
  {
    assert forall x :: 0 <= x < |t| ==> t[x] in t;
    var k := 0;
    while s[src + k] != NUL
      invariant 0 <= k <= |t| - src
      invariant forall x :: 0 <= x < dst + k ==> s[x] == u[x]
      invariant forall x :: src + k <= x < |t| ==> s[x] == t[x]
      invariant s[|t|] == NUL
      decreases |t| - src - k
    {
      assert src + k < |t| && u[dst + k] == t[src + k];
      s[dst + k] := s[src + k];
      k := k + 1;
    }
    s[dst + k] := NUL;
    HoldsText(s, u);
  }

  // strcpy within one buffer, towards its start.
  method CopyDown(s: array<char>, dst: nat, src: nat, ghost t: Text)
    requires Holds(s, t) && dst <= src <= |t|
    modifies s
    ensures Holds(s, t[..dst] + t[src..])
  {
    HeldChars(s, t);
    CopyTail(s, dst, src, t, t[..dst] + t[src..]);
  }

  lemma Assoc(a: Text, b: Text, c: Text)
    ensures (a + b) + c == a + (b + c)
  {}

  lemma SliceOfTail<T>(t: seq<T>, p: nat, lo: nat, hi: nat)
    requires p <= |t| && lo <= hi <= |t| - p
    ensures t[p..][lo..hi] == t[p + lo..p + hi] && t[p..][hi..] == t[p + hi..]
  {}

  // The first entry of a rest of the text, by positions in the whole text.
  ghost predicate EntryAt(t: Text, start: nat, klo: nat, khi: nat, vlo: nat, vhi: nat)
    requires start < |t|
  {
    var u := t[start..];
    && klo == start + KeyLo(u) && khi == start + KeyHi(u) && vlo == start + ValLo(u) && vhi == start + ValHi(u)
    && klo <= khi <= vlo <= vhi <= |t|
    && Key(u) == t[klo..khi] && Value(u) == t[vlo..vhi] && u[ValHi(u)..] == t[vhi..]
  }

  lemma EntrySlices(t: Text, start: nat)
    requires start < |t|
    ensures var u := t[start..];
            && Key(u) == t[start + KeyLo(u)..start + KeyHi(u)] && Value(u) == t[start + ValLo(u)..start + ValHi(u)]
            && u[ValHi(u)..] == t[start + ValHi(u)..]
  {
    var u := t[start..];
    SliceOfTail(t, start, KeyLo(u), KeyHi(u));
    SliceOfTail(t, start, ValLo(u), ValHi(u));
  }

  lemma EntryEnds(t: Text, start: nat)
    requires start < |t|
    ensures var u := t[start..];
            start + KeyHi(u) == SegEnd(t, start + KeyLo(u)) && start + ValHi(u) == SegEnd(t, start + ValLo(u))
  {
    var u := t[start..];
    SegEndShift(t, start, KeyLo(u));
    SegEndShift(t, start, ValLo(u));
  }

  lemma FindEntry(t: Text, start: nat) returns (klo: nat, khi: nat, vlo: nat, vhi: nat)
    requires start < |t|
    ensures EntryAt(t, start, klo, khi, vlo, vhi)
    ensures klo == if t[start] == SLASH then start + 1 else start
    ensures khi == SegEnd(t, klo) && vlo == (if khi < |t| then khi + 1 else khi) && vhi == SegEnd(t, vlo)
  {
    var u := t[start..];
    klo, khi, vlo, vhi := start + KeyLo(u), start + KeyHi(u), start + ValLo(u), start + ValHi(u);
    EntryEnds(t, start);
    EntrySlices(t, start);
  }

  lemma EntryIsShort(t: Text, start: nat, klo: nat, khi: nat, vlo: nat, vhi: nat)
    requires start < |t| && EntryAt(t, start, klo, khi, vlo, vhi) && ShortSegments(t[start..])
    ensures khi - klo < MAX_KV_LEN && vhi - vlo < MAX_KV_LEN && ShortSegments(t[vhi..])
  {
    var u := t[start..];
    assert SegEnd(u, KeyLo(u)) - KeyLo(u) < MAX_KV_LEN && SegEnd(u, ValLo(u)) - ValLo(u) < MAX_KV_LEN;
    ShortTail(u, ValHi(u));
  }

  // The two copy loops with the tests between them.
  method ReadSegments(s: array<char>, start: nat, ghost t: Text, ghost klo: nat, ghost vlo: nat)
    returns (keyEnd: nat, pkey: Text, p: nat, value: Text)
    requires Holds(s, t) && start < |t|
    requires klo == if t[start] == SLASH then start + 1 else start
    requires vlo == if SegEnd(t, klo) < |t| then SegEnd(t, klo) + 1 else SegEnd(t, klo)
    requires SegEnd(t, klo) - klo < MAX_KV_LEN && SegEnd(t, vlo) - vlo < MAX_KV_LEN
    ensures keyEnd == SegEnd(t, klo) && pkey == t[klo..keyEnd] && p == SegEnd(t, vlo) && value == t[vlo..p]
  {
    CharAt(s, t, start);
    p := start;
    if s[p] == SLASH {
      p := p + 1;
    }
    assert p == klo;
    keyEnd, pkey := CopySegment(s, p, t);
    p := keyEnd;
    CharAt(s, t, p);
    if s[p] != NUL {
      p := p + 1;
    }
    assert p == vlo;
    p, value := CopySegment(s, p, t);
  }

  // One entry read by the scanning loops: its key and value segments and where it ends.
  method ReadEntry(s: array<char>, start: nat, ghost t: Text) returns (keyEnd: nat, pkey: Text, p: nat, value: Text)
    requires Holds(s, t) && start < |t| && ShortSegments(t[start..])
    ensures var u := t[start..];
            && pkey == Key(u) && value == Value(u)
            && keyEnd == start + KeyHi(u) && p == start + ValHi(u) && t[p..] == u[ValHi(u)..]
            && ShortSegments(t[p..])
  {
    ghost var klo, khi, vlo, vhi := FindEntry(t, start);
    EntryIsShort(t, start, klo, khi, vlo, vhi);
    keyEnd, pkey, p, value := ReadSegments(s, start, t, klo, vlo);
  }

  lemma RemoveUnfold(u: Text, key: Text)
    requires u != []
    ensures Remove(u, key) == if Matches(key, Key(u)) then Remove(u[ValHi(u)..], key)
                              else u[..ValHi(u)] + Remove(u[ValHi(u)..], key)
  {
    var n := ValHi(u);
    var r := Remove(u[n..], key);
    assert [] + r == r;
  }

  // One round of the removal, on the text alone; done and rest are what lies before and after the entry u.
  lemma RemoveRound(done: Text, u: Text, key: Text)
    requires u != []
    ensures done + Remove(u, key) ==
            (if Matches(key, Key(u)) then done else done + u[..ValHi(u)]) + Remove(u[ValHi(u)..], key)
  {
    RemoveUnfold(u, key);
    Assoc(done, u[..ValHi(u)], Remove(u[ValHi(u)..], key));
  }

  lemma Splice(cur: Text, start: nat, p: nat)
    requires start <= p <= |cur|
    ensures var next := cur[..start] + cur[p..];
            next[..start] == cur[..start] && next[start..] == cur[p..]
    ensures cur[..p] == cur[..start] + cur[start..][..p - start]
  {}

  // One round of the removal loop: what is behind position p' is done, what is ahead is still to be filtered.
  method RemoveRoundAt(s: array<char>, key: Text, cmpsize: nat, start: nat, ghost cur: Text)
    returns (p: nat, ghost next: Text)
    requires Holds(s, cur) && start < |cur| && ShortSegments(cur[start..])
    requires cmpsize == if |key| > MAX_KV_LEN - 1 then MAX_KV_LEN - 1 else |key|
    modifies s
    ensures Holds(s, next) && start <= p <= |next| && ShortSegments(next[p..])
    ensures next[..p] + Remove(next[p..], key) == cur[..start] + Remove(cur[start..], key)
    ensures |next| - p < |cur| - start
  {
    var keyEnd, pkey, value;
    keyEnd, pkey, p, value := ReadEntry(s, start, cur);
    RemoveRound(cur[..start], cur[start..], key);
    Splice(cur, start, p);
    if key[..cmpsize] <= pkey {
      CopyDown(s, start, p, cur);
      return start, cur[..start] + cur[p..];
    }
    return p, cur;
  }

  method InfoRemoveKey(s: array<char>, key: Text, ghost t: Text)
    requires Holds(s, t) && ShortSegments(t)
    modifies s
    ensures Holds(s, if SLASH in key then t else Remove(t, key))
  {
    if SLASH in key {
      return;
    }
    var cmpsize := |key|;
    if cmpsize > MAX_KV_LEN - 1 {
      cmpsize := MAX_KV_LEN - 1;
    }
    var p := 0;
    ghost var cur := t;     // the text in the buffer
    assert t[0..] == t;
    while s[p] != NUL
      invariant 0 <= p <= |cur| && Holds(s, cur)
      invariant ShortSegments(cur[p..])
      invariant cur[..p] + Remove(cur[p..], key) == Remove(t, key)
      decreases |cur| - p
    {
      CharAt(s, cur, p);
      p, cur := RemoveRoundAt(s, key, cmpsize, p, cur);
    }
    CharAt(s, cur, p);
  }

  method InfoIsKeyImportant(key: Text) returns (b: bool)
    ensures b == Important(key)
    ensures b <==>
            || (|key| > 0 && key[0] == '*')
            || key == "name" || key == "model" || key == "rate" || key == "topcolor" || key == "bottomcolor"
            || key == "cl_updaterate" || key == "cl_lw" || key == "cl_lc"
  {
    if key != [] && key[0] == '*' { return true; }
    if key == "name" { return true; }
    if key == "model" { return true; }
    if key == "rate" { return true; }
    if key == "topcolor" { return true; }
    if key == "bottomcolor" { return true; }
    if key == "cl_updaterate" { return true; }
    if key == "cl_lw" { return true; }
    if key == "cl_lc" { return true; }
    return false;
  }

  method InfoFindLargestKey(s: array<char>, ghost t: Text) returns (largest: Text)
    requires Holds(s, t) && ShortSegments(t)
    ensures largest == LargestKey(t)
  {
    var largestSize := 0;
    largest := [];
    var p := 0;
    assert t[0..] == t;
    while s[p] != NUL
      invariant 0 <= p <= |t| && 0 <= largestSize && ShortSegments(t[p..])
      invariant LargestKey(t) == Largest(t[p..], largest, largestSize)
      decreases |t| - p
    {
      CharAt(s, t, p);
      var keyEnd, key, value;
      keyEnd, key, p, value := ReadEntry(s, p, t);
      CharAt(s, t, keyEnd);
      if s[keyEnd] == NUL {
        return key;
      }
      var size := |key| + |value|;
      if size > largestSize {
        var important := InfoIsKeyImportant(key);
        if !important {
          largestSize := size;
          largest := key;
        }
      }
    }
    CharAt(s, t, p);
  }

  // strstr
  method StrStr(t: Text, needle: Text) returns (found: bool)
    ensures found == Contains(t, needle)
  {
    var i := 0;
    assert t[0..] == t;
    while i < |t| && !(needle <= t[i..])
      invariant 0 <= i <= |t|
      invariant Contains(t, needle) == Contains(t[i..], needle)
    {
      assert t[i..][1..] == t[i + 1..];
      i := i + 1;
    }
    return needle <= t[i..];
  }

  lemma ContainsOne(t: Text, c: char)
    ensures Contains(t, [c]) <==> c in t
  {
    if t != [] {
      ContainsOne(t[1..], c);
      assert [c] <= t <==> t[0] == c;
      assert t == [t[0]] + t[1..];
    }
  }

  method Validate(key: Text, value: Text) returns (ok: bool)
    ensures ok == Acceptable(key, value)
    ensures !ok <==>
            || key == []
            || '\\' in key || '\\' in value || '"' in key || '"' in value
            || Dotted(key) || (Dotted(value) && key != "name")
            || |key| >= 127 || |value| >= 127
  {
    AcceptableMeans(key, value);
    if key == [] {
      return false;
    }
    ContainsOne(key, SLASH);
    ContainsOne(value, SLASH);
    ContainsOne(key, '"');
    ContainsOne(value, '"');
    var a := StrStr(key, [SLASH]);
    var b := StrStr(value, [SLASH]);
    if a || b {
      return false;
    }
    a := StrStr(key, "..");
    b := StrStr(value, "..");
    if a || (key != "name" && b) {
      return false;
    }
    a := StrStr(key, ['"']);
    b := StrStr(value, ['"']);
    if a || b {
      return false;
    }
    return !(|key| >= MAX_KV_LEN || |value| >= MAX_KV_LEN);
  }

  lemma LowerNoNul(t: Text)
    requires NUL !in t
    ensures NUL !in Lower(t)
  {
    forall i | 0 <= i < |t| ensures Lower(t)[i] != NUL {
      assert t[i] in t;
    }
  }

  // The copy loop: u is what the buffer is to hold from its start.
  method CopyUp(s: array<char>, n: nat, entry: Text, lowerCase: bool, ghost u: Text)
    requires |u| == n + |entry| < s.Length && NUL !in u
    requires forall x :: 0 <= x < n ==> s[x] == u[x]
    requires forall x :: n <= x < |u| ==> u[x] == if lowerCase then LowerChar(entry[x - n]) else entry[x - n]
    modifies s
    ensures Holds(s, u)
  {
    var k := 0;
    while k < |entry|
      invariant 0 <= k <= |entry|
      invariant forall x :: 0 <= x < n + k ==> s[x] == u[x]
    {
      assert u[n + k] == if lowerCase then LowerChar(entry[k]) else entry[k];
      s[n + k] := if lowerCase then LowerChar(entry[k]) else entry[k];
      k := k + 1;
    }
    s[n + k] := NUL;
    HoldsText(s, u);
  }

  // The text with the entry behind it, character by character.
  lemma EntryBehind(t: Text, entry: Text, lowerCase: bool) returns (u: Text)
    requires NUL !in t && NUL !in entry
    ensures u == t + (if lowerCase then Lower(entry) else entry) && |u| == |t| + |entry| && NUL !in u
    ensures forall x :: 0 <= x < |t| ==> u[x] == t[x]
    ensures forall x :: |t| <= x < |u| ==> u[x] == if lowerCase then LowerChar(entry[x - |t|]) else entry[x - |t|]
  {
    LowerNoNul(entry);
    u := t + if lowerCase then Lower(entry) else entry;
  }

  lemma HeldChars(s: array<char>, t: Text)
    requires Holds(s, t)
    ensures forall x :: 0 <= x < |t| ==> s[x] == t[x]
  {
    assert forall x :: 0 <= x < |t| ==> s[..|t|][x] == t[x];
  }

  // The final loop: append the new entry at the end of the buffer, lowercased for "team".
  method AppendEntry(s: array<char>, entry: Text, lowerCase: bool, ghost t: Text)
    requires Holds(s, t) && NUL !in entry && |t| + |entry| < s.Length
    modifies s
    ensures Holds(s, t + if lowerCase then Lower(entry) else entry)
  {
    ghost var u := EntryBehind(t, entry, lowerCase);
    HeldChars(s, t);
    var n := StrLen(s, t);
    CopyUp(s, n, entry, lowerCase, u);
  }

  lemma EvictFits(t: Text, needed: nat, maxsize: int)
    ensures var (u, room) := Evict(t, needed, maxsize); room ==> |u| + needed < maxsize
    decreases |t|
  {
    var k := LargestKey(t);
    if k != [] {
      LargestShrinks(t, [], 0);
      if |Remove(t, k)| + needed >= maxsize {
        EvictFits(Remove(t, k), needed, maxsize);
      }
    }
  }

  // The make-room loop.
  method EvictUntilRoom(s: array<char>, neededLength: nat, maxsize: int, ghost t: Text)
    returns (room: bool, ghost u: Text)
    requires Holds(s, t) && ShortSegments(t) && |t| + neededLength >= maxsize
    modifies s
    ensures (u, room) == Evict(t, neededLength, maxsize) && Holds(s, u)
  {
    u := t;
    var again := true;
    while again
      invariant ShortSegments(u) && Holds(s, u)
      invariant Evict(t, neededLength, maxsize) == if again then Evict(u, neededLength, maxsize) else (u, true)
      decreases again, |u|
    {
      var largekey := InfoFindLargestKey(s, u);
      if largekey == [] {
        return false, u;
      }
      LargestShrinks(u, [], 0);
      LargestHasNoSlash(u, [], 0);
      RemoveShort(u, largekey);
      InfoRemoveKey(s, largekey, u);
      u := Remove(u, largekey);
      var n := StrLen(s, u);
      again := n + neededLength >= maxsize;
    }
    return true, u;
  }

  // The room for the new entry: there is some, or the key is given up, or others are evicted for it.
  method FindRoom(s: array<char>, key: Text, neededLength: nat, maxsize: int, ghost t: Text)
    returns (room: bool, ghost u: Text)
    requires Holds(s, t) && ShortSegments(t)
    modifies s
    ensures (u, room) == MakeRoom(t, key, neededLength, maxsize) && Holds(s, u)
    ensures room ==> |u| + neededLength < maxsize
  {
    var n := StrLen(s, t);
    if n + neededLength < maxsize {
      return true, t;
    }
    var important := InfoIsKeyImportant(key);
    if !important {
      return false, t;
    }
    EvictFits(t, neededLength, maxsize);
    room, u := EvictUntilRoom(s, neededLength, maxsize, t);
  }

  lemma EntryNoNul(key: Text, value: Text)
    requires NUL !in key && NUL !in value
    ensures NUL !in NewArray(key, value)
  {}

  method InfoSetValueForStarKey(s: array<char>, key: Text, value: Text, maxsize: int, ghost t: Text)
    returns (outcome: Outcome)
    requires Holds(s, t) && ShortSegments(t) && maxsize <= s.Length && NUL !in key && NUL !in value
    modifies s
    ensures var (u, o) := SetText(t, key, value, maxsize); outcome == o && Holds(s, u)
  {
    var ok := Validate(key, value);
    if !ok {
      return Refused;
    }
    InfoRemoveKey(s, key, t);
    if value == [] {
      return Removed;
    }
    RemoveShort(t, key);
    var newArray := NewArray(key, value);
    EntryNoNul(key, value);
    var room;
    ghost var u;
    room, u := FindRoom(s, key, |newArray|, maxsize, Remove(t, key));
    if !room {
      return NoRoom;
    }
    AppendEntry(s, newArray, IsTeam(key), u);
    return Stored;
  }

  // Any sequence of sets and removals, on the buffer.
  method PerformAll(s: array<char>, ops: seq<Op>, maxsize: int, ghost t: Text)
    requires Holds(s, t) && ShortSegments(t) && maxsize <= s.Length
    requires forall op <- ops :: NUL !in OpText(op)
    modifies s
    ensures Holds(s, Run(t, ops, maxsize)) && ShortSegments(Run(t, ops, maxsize))
  {
    RunsStayShort(t, ops[..0], maxsize);
    for i := 0 to |ops|
      invariant Holds(s, Run(t, ops[..i], maxsize)) && ShortSegments(Run(t, ops[..i], maxsize))
    {
      ghost var u := Run(t, ops[..i], maxsize);
      assert ops[..i + 1][..i] == ops[..i];
      RunsStayShort(t, ops[..i + 1], maxsize);
      assert ops[i] in ops && NUL !in OpText(ops[i]);
      match ops[i]
      case SetOp(key, value) =>
        var _ := InfoSetValueForStarKey(s, key, value, maxsize, u);
      case RemoveOp(name) =>
        InfoRemoveKey(s, name, u);
    }
    assert ops[..|ops|] == ops;
  }

  // ---- Info_ValueForKey and its ring of result buffers ----

  // One round of the lookup loop, for the entry at p that ends at end.
  lemma LookupRound(t: Text, p: nat, end: nat, key: Text)
    requires p < |t| && end == p + ValHi(t[p..]) && t[end..] == t[p..][ValHi(t[p..])..]
    ensures var u := t[p..];
            Lookup(u, key) ==
              if p + KeyHi(u) == |t| then [] else if key == Key(u) then Value(u) else Lookup(t[end..], key)
  {}

  // The static value[][] and valueindex.  A call returns the slot holding the result, or none for the empty literal.
  class ValueRing {
    var values: seq<Text>
    var valueindex: nat

    ghost predicate Valid()
      reads this
    {
      |values| == INFO_MAX_BUFFER_VALUES && valueindex < INFO_MAX_BUFFER_VALUES
    }

    constructor ()
      ensures Valid()
    {
      values, valueindex := ["", "", "", ""], 0;
    }

    // One round of the loop: the entry's value is copied into the current slot, unless the text ends before it.
    method LookAt(s: array<char>, key: Text, p: nat, ghost t: Text) returns (over: bool, hit: bool, end: nat)
      requires Valid() && Holds(s, t) && p < |t| && ShortSegments(t[p..])
      modifies this`values
      ensures Valid()
      ensures forall k :: 0 <= k < INFO_MAX_BUFFER_VALUES && k != valueindex ==> values[k] == old(values[k])
      ensures over ==> Lookup(t[p..], key) == "" && values == old(values)
      ensures !over && hit ==> Lookup(t[p..], key) == values[valueindex]
      ensures !over && !hit ==>
        p < end <= |t| && ShortSegments(t[end..]) && Lookup(t[p..], key) == Lookup(t[end..], key)
    {
      var keyEnd, pkey, value;
      keyEnd, pkey, end, value := ReadEntry(s, p, t);
      LookupRound(t, p, end, key);
      CharAt(s, t, keyEnd);
      if s[keyEnd] == NUL {
        return true, false, end;
      }
      values := values[valueindex := value];
      return false, key == pkey, end;
    }

    // The loop: the value is left in the current slot if the key is found.
    method Find(s: array<char>, key: Text, ghost t: Text) returns (found: bool)
      requires Valid() && Holds(s, t) && ShortSegments(t)
      modifies this`values
      ensures Valid()
      ensures forall k :: 0 <= k < INFO_MAX_BUFFER_VALUES && k != valueindex ==> values[k] == old(values[k])
      ensures Lookup(t, key) == if found then values[valueindex] else ""
    {
      var p := 0;
      assert t[0..] == t;
      while s[p] != NUL
        invariant 0 <= p <= |t| && Valid()
        invariant ShortSegments(t[p..]) && Lookup(t, key) == Lookup(t[p..], key)
        invariant forall k :: 0 <= k < INFO_MAX_BUFFER_VALUES && k != valueindex ==> values[k] == old(values[k])
        decreases |t| - p
      {
        CharAt(s, t, p);
        var over, hit;
        over, hit, p := LookAt(s, key, p, t);
        if over || hit {
          return !over;
        }
      }
      CharAt(s, t, p);
      return false;
    }

    method InfoValueForKey(s: array<char>, key: Text, ghost t: Text) returns (found: bool, slot: nat, result: Text)
      requires Valid() && Holds(s, t) && ShortSegments(t)
      modifies this
      ensures Valid() && result == Lookup(t, key)
      ensures found ==>
        slot == old(valueindex) && values[slot] == result && valueindex == (slot + 1) % INFO_MAX_BUFFER_VALUES
      ensures !found ==> result == "" && valueindex == old(valueindex)
      ensures forall k :: 0 <= k < INFO_MAX_BUFFER_VALUES && k != old(valueindex) ==> values[k] == old(values[k])
    {
      slot, result := 0, "";
      found := Find(s, key, t);
      if found {
        slot, result := valueindex, values[valueindex];
        valueindex := (valueindex + 1) % INFO_MAX_BUFFER_VALUES;
      }
    }
  }

  // The ring over a run of calls: each call may write the slot of the current index, and moves on if it finds its key.
  function IndexAfter(index: nat, calls: seq<bool>): nat {
    if calls == [] then index
    else
      var i := IndexAfter(index, calls[..|calls| - 1]);
      if calls[|calls| - 1] then (i + 1) % INFO_MAX_BUFFER_VALUES else i
  }

  function Finds(calls: seq<bool>): nat {
    if calls == [] then 0 else Finds(calls[..|calls| - 1]) + if calls[|calls| - 1] then 1 else 0
  }

  lemma {:induction false} IndexIsCount(index: nat, calls: seq<bool>)
    requires index < INFO_MAX_BUFFER_VALUES
    ensures IndexAfter(index, calls) == (index + Finds(calls)) % INFO_MAX_BUFFER_VALUES
  {
    if calls != [] {
      var c := calls[..|calls| - 1];
      IndexIsCount(index, c);
      NextMod(index + Finds(c));
    }
  }

  lemma NextMod(n: nat)
    ensures (n % INFO_MAX_BUFFER_VALUES + 1) % INFO_MAX_BUFFER_VALUES == (n + 1) % INFO_MAX_BUFFER_VALUES
  {}

  // After `calls` further calls the index is back at a returned slot exactly when three (modulo four) found their key.
  lemma SlotComesUp(slot: nat, calls: seq<bool>)
    requires slot < INFO_MAX_BUFFER_VALUES
    ensures IndexAfter(Next(slot), calls) == slot <==> Finds(calls) % INFO_MAX_BUFFER_VALUES == 3
  {
    IndexIsCount(Next(slot), calls);
  }

  lemma OneMoreCall(index: nat, calls: seq<bool>, found: bool)
    ensures Finds(calls + [found]) == Finds(calls) + if found then 1 else 0
    ensures var i := IndexAfter(index, calls);
            IndexAfter(index, calls + [found]) == if found then (i + 1) % INFO_MAX_BUFFER_VALUES else i
  {
    assert (calls + [found])[..|calls|] == calls;
  }

  function Next(slot: nat): nat {
    (slot + 1) % INFO_MAX_BUFFER_VALUES
  }

  // The calls whose key has a value have found it.
  ghost predicate Answered(ts: seq<Text>, keys: seq<Text>, found: seq<bool>)
    requires |found| <= |ts| == |keys|
  {
    forall i :: 0 <= i < |found| ==> Lookup(ts[i], keys[i]) != "" ==> found[i]
  }

  lemma AnsweredNext(ts: seq<Text>, keys: seq<Text>, found: seq<bool>, more: seq<bool>)
    requires |found| < |ts| == |keys| && |more| == |found| + 1 && Answered(ts, keys, found)
    requires forall j :: 0 <= j < |found| ==> more[j] == found[j]
    requires Lookup(ts[|found|], keys[|found|]) != "" ==> more[|found|]
    ensures Answered(ts, keys, more)
  {}

  // A call after others of which `found` says which found their key, the first of them right after slot was returned.
  method LaterCall(ring: ValueRing, slot: nat, found: seq<bool>, buf: array<char>, key: Text, ghost t: Text)
    returns (more: seq<bool>)
    requires ring.Valid() && slot < INFO_MAX_BUFFER_VALUES && ring.valueindex == IndexAfter(Next(slot), found)
    requires Holds(buf, t) && ShortSegments(t)
    modifies ring
    ensures |more| == |found| + 1 && (forall j :: 0 <= j < |found| ==> more[j] == found[j])
    ensures Finds(more[..|found|]) == Finds(found) <= Finds(more)
    ensures ring.Valid() && ring.valueindex == IndexAfter(Next(slot), more)
    ensures Lookup(t, key) != "" ==> more[|found|]
    ensures Finds(found) < 3 ==> ring.values[slot] == old(ring.values[slot])
  {
    SlotComesUp(slot, found);
    var ok, at, value;
    ok, at, value := ring.InfoValueForKey(buf, key, t);
    OneMoreCall(Next(slot), found, ok);
    more := found + [ok];
    assert more[..|found|] == found;
  }

  // A returned result survives any later calls, on any strings, of which none starts after three have found their key.
  method ResultSurvives(ring: ValueRing, slot: nat, bufs: seq<array<char>>, keys: seq<Text>, ghost ts: seq<Text>)
    returns (found: seq<bool>)
    requires ring.Valid() && slot < INFO_MAX_BUFFER_VALUES && ring.valueindex == Next(slot)
    requires |bufs| == |keys| == |ts|
    requires forall i :: 0 <= i < |bufs| ==> Holds(bufs[i], ts[i]) && ShortSegments(ts[i])
    modifies ring
    ensures ring.Valid() && |found| == |bufs|
    ensures forall i :: 0 <= i < |found| ==> Lookup(ts[i], keys[i]) != "" ==> found[i]
    ensures found == [] || Finds(found[..|found| - 1]) < 3 ==> ring.values[slot] == old(ring.values[slot])
    ensures ring.valueindex == slot <==> Finds(found) % INFO_MAX_BUFFER_VALUES == 3
  {
    found := [];
    ghost var before := 0;     // how many had found their key when the last call started
    for i := 0 to |bufs|
      invariant ring.Valid() && |found| == i && ring.valueindex == IndexAfter(Next(slot), found)
      invariant Answered(ts, keys, found)
      invariant before <= Finds(found) && (i > 0 ==> before == Finds(found[..i - 1]))
      invariant before < 3 ==> ring.values[slot] == old(ring.values[slot])
    {
      before := Finds(found);
      var more := LaterCall(ring, slot, found, bufs[i], keys[i], ts[i]);
      AnsweredNext(ts, keys, found, more);
      found := more;
    }
    SlotComesUp(slot, found);
  }
}
