/**
  The three UTF-8 validators of refsapi_misc.cpp, each proved to decide RFC 3629 well-formedness: the reference that
  walks character by character, the byte-wise state machine, and the validator that works on 16-byte vectors.
  A movemask is modelled as the set of its lane indices, so bit j of the machine word is membership of j.
*/
module Utf8Validators {
  import opened Utf8

  // ---- Character-wise reference ----

  lemma SkipChar(p: seq<Byte>, i: nat, n: nat)
    requires i + n <= |p| && n > 0
    requires CharLen(p[i..]) == n
    ensures Valid(p[i..]) == Valid(p[i + n..])
  {
    assert p[i..][n..] == p[i + n..];
  }

  method RefUtf8(p: seq<Byte>) returns (ok: bool)
    ensures ok == Valid(p)
  {
    var n := |p|;
    var i := 0;
    assert p[0..] == p;
    while i < n
      invariant 0 <= i <= n
      invariant Valid(p) == Valid(p[i..])
    {
      var b := p[i];
      ghost var c := p[i..];
      assert b == c[0];
      if b < 0x80 {
        SkipChar(p, i, 1);
        i := i + 1;
        continue;
      }
      if b >= 0xC2 && b <= 0xDF {
        if i + 1 >= n || (p[i + 1] & 0xC0) != 0x80 {
          return false;
        }
        assert CharLen(c) == 2;
        SkipChar(p, i, 2);
        i := i + 2;
        continue;
      }
      if b >= 0xE0 && b <= 0xEF {
        if i + 2 >= n {
          return false;
        }
        var b1, b2 := p[i + 1], p[i + 2];
        if (b1 & 0xC0) != 0x80 || (b2 & 0xC0) != 0x80 {
          return false;
        }
        if b == 0xE0 && b1 < 0xA0 {
          return false;
        }
        if b == 0xED && b1 > 0x9F {
          return false;
        }
        assert CharLen(c) == 3;
        SkipChar(p, i, 3);
        i := i + 3;
        continue;
      }
      if b >= 0xF0 && b <= 0xF4 {
        if i + 3 >= n {
          return false;
        }
        var b1, b2, b3 := p[i + 1], p[i + 2], p[i + 3];
        if (b1 & 0xC0) != 0x80 || (b2 & 0xC0) != 0x80 || (b3 & 0xC0) != 0x80 {
          return false;
        }
        if b == 0xF0 && b1 < 0x90 {
          return false;
        }
        if b == 0xF4 && b1 > 0x8F {
          return false;
        }
        assert CharLen(c) == 4;
        SkipChar(p, i, 4);
        i := i + 4;
        continue;
      }
      return false;
    }
    return true;
  }

  // ---- Byte-wise state machine ----

  // The character that starts with these octets, of which `total` are announced by the lead, passes the lead checks.
  ghost predicate LeadAccepted(c: seq<Byte>, total: nat) {
    && |c| > 0
    && (total == 2 || total == 3 || total == 4)
    && (total == 2 ==> 0xC2 <= c[0] <= 0xDF)
    && (total == 3 ==> 0xE0 <= c[0] <= 0xEF && |c| >= 2 && !(c[0] == 0xE0 && c[1] & 0x20 == 0))
    && (total == 4 ==> 0xF0 <= c[0] <= 0xF7 && |c| >= 2 && !(c[0] == 0xF0 && c[1] & 0x30 == 0))
  }

  // The accumulated code point after `seen` octets of the character.
  ghost function Accumulated(c: seq<Byte>, total: nat, seen: nat): CodePoint
    requires LeadAccepted(c, total) && 1 <= seen <= |c|
    decreases seen
  {
    if seen == 1 then
      (if total == 2 then (c[0] & 0x1F) as CodePoint
       else if total == 3 then (c[0] & 0x0F) as CodePoint
       else (c[0] & 0x07) as CodePoint)
    else Extend(Accumulated(c, total, seen - 1), c[seen - 1])
  }

  predicate FinalCheck(cp: CodePoint) {
    !(cp >= 0xD800 && cp <= 0xDFFF) && !(cp > 0x10FFFF) && !(cp <= 0x7F)
  }

  // The checks on the finished code point agree with the lead and second-octet ranges of the grammar.
  lemma FinalCheckIsCharLen(c: seq<Byte>, total: nat)
    requires LeadAccepted(c, total) && total <= |c|
    requires forall k :: 1 <= k < total ==> IsTail(c[k])
    ensures FinalCheck(Accumulated(c, total, total)) <==> CharLen(c) == total
    ensures CharLen(c) == total || CharLen(c) == 0
  {
    if total == 2 {
      assert Accumulated(c, 2, 2) == Extend(Accumulated(c, 2, 1), c[1]);
      assert Accumulated(c, 2, 2) == Decode2(c[0], c[1]);
      Decode2Encodes(c[0], c[1]);
    } else if total == 3 {
      var u := Accumulated(c, 3, 2);
      assert u == Extend((c[0] & 0x0F) as CodePoint, c[1]) by {
        assert u == Extend(Accumulated(c, 3, 1), c[1]);
      }
      assert Accumulated(c, 3, 3) == Extend(u, c[2]);
      SecondOctetBits(c[1]);
      Lead3Range(c[0], c[1]);
      ScalarRange3(u, c[2]);
    } else {
      var u := Accumulated(c, 4, 2);
      assert u == Extend((c[0] & 0x07) as CodePoint, c[1]) by {
        assert u == Extend(Accumulated(c, 4, 1), c[1]);
      }
      assert Accumulated(c, 4, 3) == Extend(u, c[2]);
      assert Accumulated(c, 4, 4) == Extend(Extend(u, c[2]), c[3]);
      SecondOctetBits(c[1]);
      Lead4Range(c[0], c[1]);
      ScalarRange4(u, c[2], c[3]);
    }
  }

  lemma SecondOctetBits(b: Byte)
    requires IsTail(b)
    ensures b & 0x20 == 0 <==> b < 0xA0
    ensures b & 0x30 == 0 <==> b < 0x90
  {}

  lemma TailBits(b: Byte)
    ensures b & 0xC0 == 0x80 <==> IsTail(b)
    ensures b >> 6 == 0x02 <==> IsTail(b)
  {}

  // A character whose lead is accepted but which breaks off or continues with a non-tail octet is no character.
  lemma BrokenChar(c: seq<Byte>, total: nat, k: nat)
    requires LeadAccepted(c, total)
    requires 1 <= k < total && (k < |c| ==> !IsTail(c[k])) && k <= |c|
    ensures CharLen(c) == 0
  {}

  // Lead classes by shifted bits, as the machine tests them.
  lemma LeadBits(b: Byte)
    ensures b >> 7 == 0x00 <==> b <= 0x7F
    ensures b >> 5 == 0x06 <==> 0xC0 <= b <= 0xDF
    ensures b >> 4 == 0x0E <==> 0xE0 <= b <= 0xEF
    ensures b >> 3 == 0x1E <==> 0xF0 <= b <= 0xF7
    ensures 0xC0 <= b <= 0xDF ==> (((b & 0x1F) as CodePoint) < 0x02 <==> b < 0xC2)
    ensures 0xE0 <= b <= 0xEF ==> (((b & 0x0F) as CodePoint) == 0 <==> b == 0xE0)
    ensures 0xF0 <= b <= 0xF7 ==> (((b & 0x07) as CodePoint) == 0 <==> b == 0xF0)
  {}

  // What the machine remembers in the middle of a character c: `seen` octets accepted out of `total`.
  ghost predicate InChar(c: seq<Byte>, total: nat, seen: nat, cp: CodePoint) {
    && LeadAccepted(c, total)
    && 1 <= seen < total && seen <= |c|
    && (forall k :: 1 <= k < seen ==> IsTail(c[k]))
    && cp == Accumulated(c, total, seen)
  }

  lemma SecondOctetOverlong(c: seq<Byte>)
    requires |c| >= 2
    requires (c[0] == 0xE0 && c[1] & 0x20 == 0) || (c[0] == 0xF0 && c[1] & 0x30 == 0)
    ensures CharLen(c) == 0
  {
    if IsTail(c[1]) {
      SecondOctetBits(c[1]);
    }
  }

  // What the lead branches conclude about the character that starts here.
  lemma LeadStep(c: seq<Byte>)
    requires |c| > 0
    ensures c[0] >> 7 == 0x00 ==> CharLen(c) == 1
    ensures c[0] >> 5 == 0x06 ==>
              var cp := (c[0] & 0x1F) as CodePoint;
              if cp < 0x02 then CharLen(c) == 0 else InChar(c, 2, 1, cp)
    ensures c[0] >> 4 == 0x0E ==>
              var cp := (c[0] & 0x0F) as CodePoint;
              if |c| < 2 || (cp == 0 && c[1] & 0x20 == 0) then CharLen(c) == 0 else InChar(c, 3, 1, cp)
    ensures c[0] >> 3 == 0x1E ==>
              var cp := (c[0] & 0x07) as CodePoint;
              if |c| < 2 || (cp == 0 && c[1] & 0x30 == 0) then CharLen(c) == 0 else InChar(c, 4, 1, cp)
    ensures c[0] >> 7 != 0x00 && c[0] >> 5 != 0x06 && c[0] >> 4 != 0x0E && c[0] >> 3 != 0x1E ==> CharLen(c) == 0
  {
    LeadBits(c[0]);
    if |c| >= 2 && ((c[0] == 0xE0 && c[1] & 0x20 == 0) || (c[0] == 0xF0 && c[1] & 0x30 == 0)) {
      SecondOctetOverlong(c);
    }
  }

  // What the tail branch concludes about the character that starts at `start`.
  lemma TailStep(p: seq<Byte>, start: nat, i: nat, total: nat, cp: CodePoint, cp': CodePoint)
    requires start < i < |p| && InChar(p[start..], total, i - start, cp) && cp' == Extend(cp, p[i])
    ensures p[i] >> 6 != 0x02 ==> !Valid(p[start..])
    ensures p[i] >> 6 == 0x02 && i + 1 - start < total ==> InChar(p[start..], total, i + 1 - start, cp')
    ensures p[i] >> 6 == 0x02 && i + 1 - start == total ==>
              Valid(p[start..]) == (FinalCheck(cp') && Valid(p[i + 1..]))
  {
    var c, seen := p[start..], i - start;
    TailBits(c[seen]);
    if !IsTail(c[seen]) {
      BrokenChar(c, total, seen);
    } else if seen + 1 == total {
      FinalCheckIsCharLen(c, total);
      assert c[total..] == p[i + 1..];
    }
  }

  // The branch of the loop body that runs between characters.
  method LeadOctet(p: seq<Byte>, i: nat) returns (ok: bool, remaining: nat, codePoint: CodePoint)
    requires i < |p|
    ensures !ok ==> !Valid(p[i..])
    ensures ok && remaining == 0 ==> Valid(p[i..]) == Valid(p[i + 1..])
    ensures ok && remaining != 0 ==> InChar(p[i..], remaining + 1, 1, codePoint)
  {
    var n := |p|;
    var byte := p[i];
    ghost var c := p[i..];
    assert byte == c[0];
    LeadStep(c);
    if (byte >> 7) == 0x00 {
      SkipChar(p, i, 1);
      return true, 0, 0;
    } else if (byte >> 5) == 0x06 {
      codePoint := (byte & 0x1F) as CodePoint;
      return !(codePoint < 0x02), 1, codePoint;
    } else if (byte >> 4) == 0x0E {
      if i + 1 >= n {
        return false, 0, 0;
      }
      codePoint := (byte & 0x0F) as CodePoint;
      return !(codePoint == 0 && (p[i + 1] & 0x20) == 0), 2, codePoint;
    } else if (byte >> 3) == 0x1E {
      if i + 1 >= n {
        return false, 0, 0;
      }
      codePoint := (byte & 0x07) as CodePoint;
      return !(codePoint == 0 && (p[i + 1] & 0x30) == 0), 3, codePoint;
    } else {
      return false, 0, 0;
    }
  }

  // The branch that runs inside the character starting at `start`.
  method TailOctet(p: seq<Byte>, i: nat, remaining: nat, codePoint: CodePoint, ghost start: nat)
    returns (ok: bool, remaining': nat, codePoint': CodePoint)
    requires start < i < |p| && remaining > 0
    requires InChar(p[start..], remaining + (i - start), i - start, codePoint)
    ensures !ok ==> !Valid(p[start..])
    ensures ok ==> remaining' == remaining - 1
    ensures ok && remaining' == 0 ==> Valid(p[start..]) == Valid(p[i + 1..])
    ensures ok && remaining' != 0 ==> InChar(p[start..], remaining' + (i + 1 - start), i + 1 - start, codePoint')
  {
    var byte := p[i];
    ghost var total := remaining + (i - start);
    codePoint', remaining' := Extend(codePoint, byte), remaining - 1;
    TailStep(p, start, i, total, codePoint, codePoint');
    ok := (byte >> 6) == 0x02 && (remaining' == 0 ==> FinalCheck(codePoint'));
  }

  method StateMachine(p: seq<Byte>) returns (ok: bool)
    ensures ok == Valid(p)
  {
    var n := |p|;
    var remaining := 0;
    var codePoint: CodePoint := 0;
    ghost var start := 0;     // where the current character begins
    var i := 0;
    assert p[0..] == p;
    while i < n
      invariant 0 <= start <= i <= n
      invariant Valid(p) == Valid(p[start..])
      invariant 0 <= remaining
      invariant remaining == 0 ==> start == i
      invariant remaining != 0 ==> start < i && InChar(p[start..], remaining + (i - start), i - start, codePoint)
    {
      if remaining == 0 {
        ok, remaining, codePoint := LeadOctet(p, i);
        start := if ok && remaining == 0 then i + 1 else i;
      } else {
        ok, remaining, codePoint := TailOctet(p, i, remaining, codePoint, start);
        start := if ok && remaining == 0 then i + 1 else start;
      }
      if !ok {
        return false;
      }
      i := i + 1;
    }
    if remaining != 0 {
      BrokenChar(p[start..], remaining + (n - start), n - start);
    }
    return remaining == 0;
  }
}
