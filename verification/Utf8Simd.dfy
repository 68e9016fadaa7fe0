/**
  The 16-byte-block validator of refsapi_misc.cpp.  Its masks are proved to compute a purely local description of
  well-formedness (every octet agrees with what the three octets before it announce), and that description is proved
  equivalent to the grammar; the block loop therefore decides the same texts as the character-wise reference.
*/
module Utf8Simd {
  import opened Utf8
  import Utf8Validators

  // ---- Local description of well-formed text ----

  predicate Forbidden(b: Byte) { b == 0xC0 || b == 0xC1 || b >= 0xF5 }

  predicate Critical(b: Byte) { b == 0xE0 || b == 0xED || b == 0xF0 || b == 0xF4 }

  // How many continuation octets a lead announces.
  function Reach(b: Byte): nat {
    if b >= 0xF0 then 3 else if b >= 0xE0 then 2 else if b >= 0xC0 then 1 else 0
  }

  predicate PairOk(a: Byte, b: Byte) {
    && (a == 0xE0 ==> b >= 0xA0)
    && (a == 0xED ==> b <= 0x9F)
    && (a == 0xF0 ==> b >= 0x90)
    && (a == 0xF4 ==> b <= 0x8F)
  }

  // Some octet before j announces a continuation at j (j may lie past the end).
  predicate Expected(s: seq<Byte>, j: nat) {
    || (1 <= j <= |s| && Reach(s[j - 1]) >= 1)
    || (2 <= j <= |s| + 1 && Reach(s[j - 2]) >= 2)
    || (3 <= j <= |s| + 2 && Reach(s[j - 3]) >= 3)
  }

  predicate OctetOk(s: seq<Byte>, j: nat)
    requires j < |s|
  {
    !Forbidden(s[j]) && (IsTail(s[j]) <==> Expected(s, j))
  }

  predicate PairAt(s: seq<Byte>, j: nat)
    requires j < |s|
  {
    j + 1 < |s| ==> PairOk(s[j], s[j + 1])
  }

  ghost predicate OctetsOk(s: seq<Byte>, i: nat)
    requires i <= |s|
  {
    forall j {:trigger OctetOk(s, j)} :: 0 <= j < i ==> OctetOk(s, j)
  }

  ghost predicate PairsOk(s: seq<Byte>, i: nat)
    requires i <= |s|
  {
    forall j {:trigger PairAt(s, j)} :: 0 <= j < i ==> PairAt(s, j)
  }

  // No octet announces a continuation at or past position k.
  ghost predicate Boundary(s: seq<Byte>, k: nat)
    requires k <= |s|
  {
    forall j :: 0 <= j < k ==> j + Reach(s[j]) < k
  }

  ghost predicate Local(s: seq<Byte>) {
    OctetsOk(s, |s|) && PairsOk(s, |s|) && Boundary(s, |s|)
  }

  // Past a boundary the local conditions do not look back over it.
  lemma LocalSplits(s: seq<Byte>, k: nat)
    requires k <= |s| && Boundary(s, k)
    requires OctetsOk(s, k) && PairsOk(s, k)
    ensures Local(s) <==> Local(s[k..])
  {
    var t := s[k..];
    forall j | 0 <= j < |t|
      ensures OctetOk(t, j) <==> OctetOk(s, k + j)
      ensures PairAt(t, j) <==> PairAt(s, k + j)
    {
      assert Expected(t, j) <==> Expected(s, k + j);
    }
    if Local(t) {
      forall j | 0 <= j < |s| ensures OctetOk(s, j) && PairAt(s, j) && j + Reach(s[j]) < |s| {
        if j >= k {
          assert OctetOk(t, j - k) && PairAt(t, j - k);
          assert t[j - k] == s[j];
        }
      }
    }
    if Local(s) {
      forall j | 0 <= j < |t| ensures OctetOk(t, j) && PairAt(t, j) && j + Reach(t[j]) < |t| {
        assert OctetOk(s, k + j) && PairAt(s, k + j);
        assert t[j] == s[k + j];
      }
    }
  }

  // A well-formed character satisfies the local conditions and ends at a boundary.
  lemma CharIsLocal(s: seq<Byte>)
    requires CharLen(s) > 0
    ensures Boundary(s, CharLen(s)) && OctetsOk(s, CharLen(s)) && PairsOk(s, CharLen(s))
  {}

  // Conversely, local text begins with a character.
  lemma LocalHasChar(s: seq<Byte>)
    requires s != [] && Local(s)
    ensures CharLen(s) > 0
  {
    assert OctetOk(s, 0) && PairAt(s, 0);
    var r := Reach(s[0]);
    assert r < |s|;
    if r >= 1 { assert OctetOk(s, 1) && Expected(s, 1); }
    if r >= 2 { assert OctetOk(s, 2) && Expected(s, 2); }
    if r >= 3 { assert OctetOk(s, 3) && Expected(s, 3); }
  }

  lemma {:induction false} ValidIffLocal(s: seq<Byte>)
    ensures Valid(s) <==> Local(s)
    decreases |s|
  {
    if s == [] {
    } else if CharLen(s) > 0 {
      CharIsLocal(s);
      LocalSplits(s, CharLen(s));
      ValidIffLocal(s[CharLen(s)..]);
    } else if Local(s) {
      LocalHasChar(s);
    }
  }

  // ---- Vector operations ----

  const WORD := 64   // the shifted lead masks are kept in 64-bit words
  const LANES_0_TO_14 := {0, 1, 2, 3, 4, 5, 6, 7, 8, 9, 10, 11, 12, 13, 14}   // 0x7FFF

  function MoveMask(v: seq<Byte>, f: Byte -> bool): set<int> {
    set j | 0 <= j < |v| && f(v[j])
  }

  function Shl(m: set<int>, k: nat): set<int> {
    set x | x in m && x + k < WORD :: x + k
  }

  function Shr(m: set<int>, k: nat): set<int> {
    set x | x in m && x >= k :: x - k
  }

  function Low16(m: set<int>): set<int> {
    set y | y in m && y < 16
  }

  lemma ShlBit(m: set<int>, k: nat, y: int)
    ensures y in Shl(m, k) <==> y < WORD && y - k in m
  {
    if y - k in m && y < WORD {
      assert y == (y - k) + k;
    }
  }

  lemma ShrBit(m: set<int>, k: nat, y: int)
    ensures y in Shr(m, k) <==> y >= 0 && y + k in m
  {
    if y + k in m && y >= 0 {
      assert y == (y + k) - k;
    }
  }

  // Byte comparison of the vector unit: both operands are read as signed.
  predicate SignedLess(a: Byte, b: Byte) { a ^ 0x80 < b ^ 0x80 }

  function High(b: Byte): Byte { (b >> 4) & 0x0F }

  lemma ByteClass(b: Byte)
    ensures b & 0x80 == 0 ==> Reach(b) == 0 && !IsTail(b) && !Forbidden(b)
    ensures SignedLess(0x0E, High(b)) <==> Reach(b) >= 3
    ensures High(b) == 0x0E || SignedLess(0x0E, High(b)) <==> Reach(b) >= 2
    ensures b & 0x80 != 0 && !IsTail(b) <==> Reach(b) >= 1
    ensures Forbidden(b) <==> b & 0xFE == 0xC0 || b & 0xF8 == 0xF8 || b == 0xF5 || b & 0xFE == 0xF6
  {}

  lemma SignedRange(b: Byte)
    ensures IsTail(b) ==> (SignedLess(b, 0xA0) <==> b < 0xA0) && (SignedLess(b, 0x90) <==> b < 0x90)
    ensures IsTail(b) ==> (SignedLess(0x9F, b) <==> b > 0x9F) && (SignedLess(0x8F, b) <==> b > 0x8F)
    ensures b & 0x80 == 0 ==> !SignedLess(b, 0xA0) && !SignedLess(b, 0x90)
  {}

  // ---- The block loop ----

  // What is known when the loop reaches block i.
  ghost predicate BlockInv(p: seq<Byte>, i: nat, pending: set<int>, prevCrit: Byte) {
    && i <= |p| && (i == 0 || i >= 16)
    && OctetsOk(p, i)
    && PairsOk(p, if i == 0 then 0 else i - 1)
    && (forall d :: d in pending <==> 0 <= d < 3 && Expected(p[..i], i + d))
    && prevCrit == (if i > 0 && Critical(p[i - 1]) then p[i - 1] else 0)
  }

  // The continuation positions, relative to the block, that the leads of the block announce.
  ghost predicate AnnouncedBy(v: seq<Byte>, announced: set<int>)
    requires |v| == 16
  {
    forall y :: y in announced <==>
      || (1 <= y <= 16 && Reach(v[y - 1]) >= 1)
      || (2 <= y <= 17 && Reach(v[y - 2]) >= 2)
      || (3 <= y <= 18 && Reach(v[y - 3]) >= 3)
  }

  lemma MasksAnnounce(v: seq<Byte>, m2: set<int>, m3: set<int>, m4: set<int>)
    requires |v| == 16
    requires m3 == MoveMask(v, (b: Byte) => High(b) == 0x0E)
    requires m4 == MoveMask(v, (b: Byte) => SignedLess(0x0E, High(b)))
    requires m2 == MoveMask(v, (b: Byte) => b & 0x80 != 0) - MoveMask(v, (b: Byte) => b & 0xC0 == 0x80) - m3 - m4
    ensures AnnouncedBy(v, Shl(m2 + m3 + m4, 1) + Shl(m3 + m4, 2) + Shl(m4, 3))
  {
    forall j | 0 <= j < 16
      ensures j in m2 + m3 + m4 <==> Reach(v[j]) >= 1
      ensures j in m3 + m4 <==> Reach(v[j]) >= 2
      ensures j in m4 <==> Reach(v[j]) >= 3
    {
      ByteClass(v[j]);
    }
    forall y
      ensures y in Shl(m2 + m3 + m4, 1) <==> y < WORD && y - 1 in m2 + m3 + m4
      ensures y in Shl(m3 + m4, 2) <==> y < WORD && y - 2 in m3 + m4
      ensures y in Shl(m4, 3) <==> y < WORD && y - 3 in m4
    {
      ShlBit(m2 + m3 + m4, 1, y);
      ShlBit(m3 + m4, 2, y);
      ShlBit(m4, 3, y);
    }
  }

  lemma ExpectedInBlock(p: seq<Byte>, i: nat, pending: set<int>, prevCrit: Byte, announced: set<int>, j: nat)
    requires BlockInv(p, i, pending, prevCrit) && i + 16 <= |p| && j < 19
    requires AnnouncedBy(p[i..i + 16], announced)
    ensures j < 16 ==> (j in Low16(announced) + pending <==> Expected(p, i + j))
    ensures j >= 16 ==> (j in announced <==> Expected(p[..i + 16], i + j))
  {
    var v, q, r := p[i..i + 16], p[..i], p[..i + 16];
    forall y | 0 <= y < 16 ensures v[y] == p[i + y] == r[i + y] {}
    if j < 3 {
      assert j in pending <==> Expected(q, i + j);
    }
  }

  // The cont mask equals the expected mask exactly when every lane of the block is a continuation where expected.
  lemma ContMaskDecides(p: seq<Byte>, i: nat, pending: set<int>, prevCrit: Byte, announced: set<int>)
    requires BlockInv(p, i, pending, prevCrit) && i + 16 <= |p|
    requires AnnouncedBy(p[i..i + 16], announced)
    requires forall j :: i <= j < i + 16 ==> !Forbidden(p[j])
    ensures MoveMask(p[i..i + 16], (b: Byte) => b & 0xC0 == 0x80) == Low16(announced) + pending <==> OctetsOk(p, i + 16)
  {
    var v := p[i..i + 16];
    var cont, here := MoveMask(v, (b: Byte) => b & 0xC0 == 0x80), Low16(announced) + pending;
    forall j | 0 <= j < 16 ensures (j in cont <==> j in here) <==> OctetOk(p, i + j) {
      ExpectedInBlock(p, i, pending, prevCrit, announced, j);
      assert v[j] == p[i + j];
      assert j in cont <==> IsTail(p[i + j]);
    }
    if OctetsOk(p, i + 16) {
      forall j ensures j in cont <==> j in here {
        if 0 <= j < 16 {
          assert OctetOk(p, i + j);
        }
      }
      assert cont == here;
    }
    if cont == here {
      forall j | 0 <= j < i + 16 ensures OctetOk(p, j) {
        if j >= i {
          assert (j - i in cont <==> j - i in here) <==> OctetOk(p, i + (j - i));
        }
      }
    }
  }

  // The boundary pair check: lane 15 of the previous block against the first lane of this one.
  predicate GateOk(p: seq<Byte>, i: nat, prevCrit: Byte)
    requires i < |p|
  {
    prevCrit != 0 && IsTail(p[i]) ==> PairOk(prevCrit, p[i])
  }

  // The in-block pair checks, for lanes 0 to 14.
  ghost predicate LanePairsOk(v: seq<Byte>)
    requires |v| == 16
  {
    forall j :: 0 <= j < 15 && IsTail(v[j + 1]) ==> PairOk(v[j], v[j + 1])
  }

  lemma GateFails(p: seq<Byte>, i: nat, pending: set<int>, prevCrit: Byte)
    requires BlockInv(p, i, pending, prevCrit) && i < |p| && !GateOk(p, i, prevCrit)
    ensures !Local(p)
  {
    assert !PairAt(p, i - 1);
  }

  lemma CriticalReaches(p: seq<Byte>, i: nat)
    requires i <= |p|
    ensures i > 0 && Critical(p[i - 1]) ==> Expected(p[..i], i)
  {}

  lemma AsciiBlock(p: seq<Byte>, i: nat, pending: set<int>, prevCrit: Byte)
    requires BlockInv(p, i, pending, prevCrit) && i + 16 <= |p|
    requires forall j :: i <= j < i + 16 ==> p[j] & 0x80 == 0
    ensures if pending != {} then !Local(p) else BlockInv(p, i + 16, {}, 0)
  {
    var v := p[i..i + 16];
    forall j | i <= j < i + 16 ensures Reach(p[j]) == 0 && !IsTail(p[j]) && !Forbidden(p[j]) {
      ByteClass(p[j]);
    }
    assert AnnouncedBy(v, {});
    if d :| d in pending {
      ExpectedInBlock(p, i, pending, prevCrit, {}, d);
      assert !OctetOk(p, i + d);
    } else {
      assert 0 !in pending;
      CriticalReaches(p, i);
      assert prevCrit == 0;
      assert MoveMask(v, (b: Byte) => b & 0xC0 == 0x80) == {} == Low16({}) + pending by {
        forall j | 0 <= j < 16 ensures !IsTail(v[j]) { assert v[j] == p[i + j]; }
      }
      ContMaskDecides(p, i, pending, prevCrit, {});
      assert LanePairsOk(v) by {
        forall j | 1 <= j < 16 ensures !IsTail(v[j]) { assert v[j] == p[i + j]; }
      }
      assert !Critical(p[i + 15]);
      BlockAccepted(p, i, pending, prevCrit, {}, 0);
      assert Shr({}, 16) * {0, 1, 2} == {};
    }
  }

  // A block that passes every check extends the invariant.
  lemma BlockAccepted(p: seq<Byte>, i: nat, pending: set<int>, prevCrit: Byte, announced: set<int>, prevCrit': Byte)
    requires BlockInv(p, i, pending, prevCrit) && i + 16 <= |p| && GateOk(p, i, prevCrit)
    requires AnnouncedBy(p[i..i + 16], announced)
    requires LanePairsOk(p[i..i + 16]) && OctetsOk(p, i + 16)
    requires prevCrit' == if Critical(p[i + 15]) then p[i + 15] else 0
    ensures BlockInv(p, i + 16, Shr(announced, 16) * {0, 1, 2}, prevCrit')
  {
    var v := p[i..i + 16];
    forall j | 0 <= j < i + 15 ensures PairAt(p, j) {
      assert OctetOk(p, j + 1);
      if j >= i {
        assert v[j - i] == p[j] && v[j - i + 1] == p[j + 1];
        assert Critical(p[j]) ==> Expected(p, j + 1);
      } else if j == i - 1 {
        assert Critical(p[j]) ==> Expected(p, j + 1);
      }
    }
    forall d | 0 <= d < 3 ensures d in Shr(announced, 16) <==> Expected(p[..i + 16], i + 16 + d) {
      ExpectedInBlock(p, i, pending, prevCrit, announced, 16 + d);
      ShrBit(announced, 16, d);
    }
  }

  // A failed pair check inside the block refutes the text.
  lemma LanePairFails(p: seq<Byte>, i: nat, j: nat)
    requires i + 16 <= |p| && j < 15
    requires var a, b := p[i + j], p[i + j + 1];
             || (a == 0xE0 && SignedLess(b, 0xA0)) || (a == 0xED && SignedLess(0x9F, b))
             || (a == 0xF0 && SignedLess(b, 0x90)) || (a == 0xF4 && SignedLess(0x8F, b))
    ensures !Local(p)
  {
    if Local(p) {
      assert OctetOk(p, i + j + 1) && PairAt(p, i + j);
      assert Expected(p, i + j + 1);
      SignedRange(p[i + j + 1]);
    }
  }

  lemma LanePairsPass(v: seq<Byte>)
    requires |v| == 16
    requires forall j :: 0 <= j < 15 ==>
      && !(v[j] == 0xE0 && SignedLess(v[j + 1], 0xA0)) && !(v[j] == 0xED && SignedLess(0x9F, v[j + 1]))
      && !(v[j] == 0xF0 && SignedLess(v[j + 1], 0x90)) && !(v[j] == 0xF4 && SignedLess(0x8F, v[j + 1]))
    ensures LanePairsOk(v)
  {
    forall j | 0 <= j < 15 && IsTail(v[j + 1]) ensures PairOk(v[j], v[j + 1]) {
      SignedRange(v[j + 1]);
    }
  }

  // The tail is re-scanned from position k, at most three octets early.
  lemma TailRescan(p: seq<Byte>, i: nat, pending: set<int>, prevCrit: Byte, k: nat)
    requires BlockInv(p, i, pending, prevCrit) && k <= i <= k + 3
    requires k < i ==> !IsTail(p[k])
    requires forall j :: k > j >= i - 3 && j >= 0 ==> IsTail(p[j])
    requires k == i && i > 0 ==> i >= 3
    ensures Local(p) <==> Local(p[k..])
  {
    if k < i {
      assert OctetOk(p, k);
      assert !Expected(p, k);
    }
    forall j | 0 <= j < k ensures j + Reach(p[j]) < k && OctetOk(p, j) && PairAt(p, j) {
      assert OctetOk(p, j);
      if j < i - 1 {
        assert PairAt(p, j);
      }
    }
    LocalSplits(p, k);
  }

  // One pair check: some lane of `lead` has its successor in `bad`; bit 15 is masked out.
  predicate PairHit(bad: set<int>, lead: set<int>) {
    bad * (lead * LANES_0_TO_14) != {}
  }

  lemma PairHitLane(v: seq<Byte>, f: Byte -> bool, lead: Byte)
    requires |v| == 16
    ensures PairHit(MoveMask(v[1..] + [0], f), MoveMask(v, (b: Byte) => b == lead))
            <==> exists j :: 0 <= j < 15 && v[j] == lead && f(v[j + 1])
  {
    var nxt := v[1..] + [0];
    var hit := MoveMask(nxt, f) * (MoveMask(v, (b: Byte) => b == lead) * LANES_0_TO_14);
    forall j ensures j in hit <==> 0 <= j < 15 && v[j] == lead && f(v[j + 1]) {
      if 0 <= j < 15 {
        assert nxt[j] == v[j + 1];
      }
    }
    if j :| j in hit {
      assert 0 <= j < 15 && v[j] == lead && f(v[j + 1]);
    }
  }

  // The four pair checks of a block that holds a critical lead.
  method CheckCritical(p: seq<Byte>, i: nat, isE0: set<int>, isED: set<int>, isF0: set<int>, isF4: set<int>)
    returns (ok: bool)
    requires i + 16 <= |p|
    requires var v := p[i..i + 16];
             && isE0 == MoveMask(v, (b: Byte) => b == 0xE0) && isED == MoveMask(v, (b: Byte) => b == 0xED)
             && isF0 == MoveMask(v, (b: Byte) => b == 0xF0) && isF4 == MoveMask(v, (b: Byte) => b == 0xF4)
    ensures if ok then LanePairsOk(p[i..i + 16]) else !Local(p)
  {
    var v := p[i..i + 16];
    var nxt := v[1..] + [0];
    PairHitLane(v, (b: Byte) => SignedLess(b, 0xA0), 0xE0);
    if PairHit(MoveMask(nxt, (b: Byte) => SignedLess(b, 0xA0)), isE0) {
      var j :| 0 <= j < 15 && v[j] == 0xE0 && SignedLess(v[j + 1], 0xA0);
      LanePairFails(p, i, j);
      return false;
    }
    PairHitLane(v, (b: Byte) => SignedLess(0x9F, b), 0xED);
    if PairHit(MoveMask(nxt, (b: Byte) => SignedLess(0x9F, b)), isED) {
      var j :| 0 <= j < 15 && v[j] == 0xED && SignedLess(0x9F, v[j + 1]);
      LanePairFails(p, i, j);
      return false;
    }
    PairHitLane(v, (b: Byte) => SignedLess(b, 0x90), 0xF0);
    if PairHit(MoveMask(nxt, (b: Byte) => SignedLess(b, 0x90)), isF0) {
      var j :| 0 <= j < 15 && v[j] == 0xF0 && SignedLess(v[j + 1], 0x90);
      LanePairFails(p, i, j);
      return false;
    }
    PairHitLane(v, (b: Byte) => SignedLess(0x8F, b), 0xF4);
    if PairHit(MoveMask(nxt, (b: Byte) => SignedLess(0x8F, b)), isF4) {
      var j :| 0 <= j < 15 && v[j] == 0xF4 && SignedLess(0x8F, v[j + 1]);
      LanePairFails(p, i, j);
      return false;
    }
    LanePairsPass(v);
    return true;
  }

  method CheckPairs(p: seq<Byte>, i: nat) returns (ok: bool)
    requires i + 16 <= |p|
    ensures if ok then LanePairsOk(p[i..i + 16]) else !Local(p)
  {
    var v := p[i..i + 16];
    var isE0 := MoveMask(v, (b: Byte) => b == 0xE0);
    var isED := MoveMask(v, (b: Byte) => b == 0xED);
    var isF0 := MoveMask(v, (b: Byte) => b == 0xF0);
    var isF4 := MoveMask(v, (b: Byte) => b == 0xF4);
    if isE0 + isED + isF0 + isF4 != {} {
      ok := CheckCritical(p, i, isE0, isED, isF0, isF4);
      return;
    }
    forall j | 0 <= j < 15 ensures !Critical(v[j]) {
      assert j !in isE0 && j !in isED && j !in isF0 && j !in isF4;
    }
    return true;
  }

  // C0, C1 and F5..FF are refused wherever they occur.
  method CheckForbidden(p: seq<Byte>, i: nat) returns (ok: bool)
    requires i + 16 <= |p|
    ensures ok <==> forall j :: i <= j < i + 16 ==> !Forbidden(p[j])
  {
    var v := p[i..i + 16];
    forall j | 0 <= j < 16
      ensures Forbidden(v[j]) <==> v[j] & 0xFE == 0xC0 || v[j] & 0xF8 == 0xF8 || v[j] == 0xF5 || v[j] & 0xFE == 0xF6
      ensures v[j] == p[i + j]
    {
      ByteClass(v[j]);
    }
    if MoveMask(v, (b: Byte) => b & 0xFE == 0xC0) != {} {
      var j :| j in MoveMask(v, (b: Byte) => b & 0xFE == 0xC0);
      assert Forbidden(p[i + j]);
      return false;
    }
    if MoveMask(v, (b: Byte) => b & 0xF8 == 0xF8) != {} {
      var j :| j in MoveMask(v, (b: Byte) => b & 0xF8 == 0xF8);
      assert Forbidden(p[i + j]);
      return false;
    }
    if MoveMask(v, (b: Byte) => b == 0xF5 || b & 0xFE == 0xF6) != {} {
      var j :| j in MoveMask(v, (b: Byte) => b == 0xF5 || b & 0xFE == 0xF6);
      assert Forbidden(p[i + j]);
      return false;
    }
    forall j | i <= j < i + 16 ensures !Forbidden(p[j]) {
      assert v[j - i] == p[j];
      assert j - i !in MoveMask(v, (b: Byte) => b & 0xFE == 0xC0);
      assert j - i !in MoveMask(v, (b: Byte) => b & 0xF8 == 0xF8);
      assert j - i !in MoveMask(v, (b: Byte) => b == 0xF5 || b & 0xFE == 0xF6);
    }
    return true;
  }

  // The mask part of the loop body, for a block with some non-ASCII octet.
  method CheckMasks(p: seq<Byte>, i: nat, pending: set<int>, prevCrit: Byte)
    returns (ok: bool, pending': set<int>, prevCrit': Byte)
    requires BlockInv(p, i, pending, prevCrit) && i + 16 <= |p| && GateOk(p, i, prevCrit)
    ensures ok ==> BlockInv(p, i + 16, pending', prevCrit')
    ensures !ok ==> !Local(p)
  {
    var v := p[i..i + 16];
    var nonascii := MoveMask(v, (b: Byte) => b & 0x80 != 0);
    var cont := MoveMask(v, (b: Byte) => b & 0xC0 == 0x80);
    var m3 := MoveMask(v, (b: Byte) => High(b) == 0x0E);
    var m4 := MoveMask(v, (b: Byte) => SignedLess(0x0E, High(b)));
    var m2 := nonascii - cont - m3 - m4;
    var allowed := CheckForbidden(p, i);
    if !allowed {
      var j :| i <= j < i + 16 && Forbidden(p[j]);
      assert !OctetOk(p, j);
      return false, {}, 0;
    }
    var paired := CheckPairs(p, i);
    if !paired {
      return false, {}, 0;
    }
    var announced := Shl(m2 + m3 + m4, 1) + Shl(m3 + m4, 2) + Shl(m4, 3);
    MasksAnnounce(v, m2, m3, m4);
    ContMaskDecides(p, i, pending, prevCrit, announced);
    if cont != Low16(announced) + pending {
      return false, {}, 0;
    }
    var last := p[i + 15];
    prevCrit' := if last == 0xE0 || last == 0xED || last == 0xF0 || last == 0xF4 then last else 0;
    BlockAccepted(p, i, pending, prevCrit, announced, prevCrit');
    return true, Shr(announced, 16) * {0, 1, 2}, prevCrit';
  }

  // The pair that straddles the boundary: lane 15 of the previous block against the first lane of this one.
  method CheckGate(p: seq<Byte>, i: nat, ghost pending: set<int>, prevCrit: Byte) returns (ok: bool)
    requires BlockInv(p, i, pending, prevCrit) && i < |p|
    ensures if ok then GateOk(p, i, prevCrit) else !Local(p)
  {
    ok := true;
    if prevCrit != 0 {
      var nb := p[i];
      if (nb & 0xC0) == 0x80 {
        if (prevCrit == 0xE0 && nb < 0xA0) || (prevCrit == 0xED && nb > 0x9F)
           || (prevCrit == 0xF0 && nb < 0x90) || (prevCrit == 0xF4 && nb > 0x8F) {
          GateFails(p, i, pending, prevCrit);
          ok := false;
        }
      }
    }
  }

  // The loop body.
  method CheckBlock(p: seq<Byte>, i: nat, pending: set<int>, prevCrit: Byte)
    returns (ok: bool, pending': set<int>, prevCrit': Byte)
    requires BlockInv(p, i, pending, prevCrit) && i + 16 <= |p|
    ensures if ok then BlockInv(p, i + 16, pending', prevCrit') else !Local(p)
  {
    pending', prevCrit' := {}, 0;
    ok := CheckGate(p, i, pending, prevCrit);
    if !ok {
      return;
    }
    var v := p[i..i + 16];
    var nonascii := MoveMask(v, (b: Byte) => b & 0x80 != 0);
    if nonascii == {} {
      forall j | i <= j < i + 16 ensures p[j] & 0x80 == 0 {
        assert j - i !in nonascii && v[j - i] == p[j];
      }
      AsciiBlock(p, i, pending, prevCrit);
      ok := pending == {};
      return;
    }
    ok, pending', prevCrit' := CheckMasks(p, i, pending, prevCrit);
  }

  // Where the scalar validator takes over: at most three octets back, past the tail octets there.
  method TailStart(p: seq<Byte>, i: nat, ghost pending: set<int>, ghost prevCrit: Byte) returns (k: nat)
    requires BlockInv(p, i, pending, prevCrit)
    ensures k <= i && (Local(p) <==> Local(p[k..]))
  {
    var start := if i >= 3 then i - 3 else 0;
    k := start;
    while k < i && (p[k] & 0xC0) == 0x80
      invariant start <= k <= i
      invariant forall j :: start <= j < k ==> IsTail(p[j])
    {
      k := k + 1;
    }
    TailRescan(p, i, pending, prevCrit, k);
  }

  method ValidateBlocks(p: seq<Byte>) returns (ok: bool)
    ensures ok == Valid(p)
  {
    ValidIffLocal(p);
    var n := |p|;
    if n == 0 {
      return true;
    }
    var pending: set<int> := {};
    var prevCrit: Byte := 0;
    var i := 0;
    while i + 16 <= n
      invariant BlockInv(p, i, pending, prevCrit)
    {
      ok, pending, prevCrit := CheckBlock(p, i, pending, prevCrit);
      if !ok {
        return false;
      }
      i := i + 16;
    }
    var k := TailStart(p, i, pending, prevCrit);
    ValidIffLocal(p[k..]);
    ok := Utf8Validators.RefUtf8(p[k..]);
  }
}
