/**
  Facts and notions that several of the models share.
*/
module Common {
  type Text = seq<char>

  lemma {:induction false} SubsetSize<T>(a: set<T>, b: set<T>)
    requires a <= b
    ensures |a| <= |b|
  {
    assert b == a + (b - a);
  }

  // strstr(s, t) finds something.
  predicate Contains(s: Text, t: Text) {
    t <= s || (s != [] && Contains(s[1..], t))
  }

  // It does exactly when s is t with something in front of it and something behind it.
  lemma {:induction false} ContainsMeans(s: Text, t: Text)
    ensures Contains(s, t) <==> exists pre, suf :: s == pre + t + suf
  {
    if t <= s {
      assert s == [] + t + s[|t|..];
    } else if s != [] {
      ContainsMeans(s[1..], t);
      if pre, suf :| s[1..] == pre + t + suf {
        assert s == ([s[0]] + pre) + t + suf;
      }
      if pre, suf :| s == pre + t + suf {
        assert pre == [] ==> t <= s;
        assert s[1..] == pre[1..] + t + suf;
      }
    }
  }

  // Bit k of a word.
  predicate Bit(w: bv32, k: nat)
    requires k < 32
  {
    (w >> k) & 1 == 1
  }

  // Some bit is set in both words.
  ghost predicate ShareBit(v: bv32, w: bv32) {
    exists k :: 0 <= k < 32 && Bit(v, k) && Bit(w, k)
  }

  lemma CommonBitIsNonZero(v: bv32, w: bv32, k: nat)
    requires k < 32 && Bit(v, k) && Bit(w, k)
    ensures v & w != 0
  {}

  lemma SomeBit(w: bv32) returns (k: nat)
    requires w != 0
    ensures k < 32 && Bit(w, k)
  {
    k := 0;
    assert Bit(w, 0) || Bit(w, 1) || Bit(w, 2) || Bit(w, 3) || Bit(w, 4) || Bit(w, 5) || Bit(w, 6) || Bit(w, 7)
           || Bit(w, 8) || Bit(w, 9) || Bit(w, 10) || Bit(w, 11) || Bit(w, 12) || Bit(w, 13) || Bit(w, 14)
           || Bit(w, 15) || Bit(w, 16) || Bit(w, 17) || Bit(w, 18) || Bit(w, 19) || Bit(w, 20) || Bit(w, 21)
           || Bit(w, 22) || Bit(w, 23) || Bit(w, 24) || Bit(w, 25) || Bit(w, 26) || Bit(w, 27) || Bit(w, 28)
           || Bit(w, 29) || Bit(w, 30) || Bit(w, 31);
    k :| 0 <= k < 32 && Bit(w, k);
  }

  lemma BitOfBoth(v: bv32, w: bv32, k: nat)
    requires k < 32 && Bit(v & w, k)
    ensures Bit(v, k) && Bit(w, k)
  {}

  // v & w tests whether the words have a bit in common.
  lemma AndMeans(v: bv32, w: bv32)
    ensures v & w != 0 <==> ShareBit(v, w)
  {
    if k :| 0 <= k < 32 && Bit(v, k) && Bit(w, k) {
      CommonBitIsNonZero(v, w, k);
    }
    if v & w != 0 {
      var k := SomeBit(v & w);
      BitOfBoth(v, w, k);
    }
  }
}
