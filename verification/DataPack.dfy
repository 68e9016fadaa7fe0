/**
  CDataPack: typed values packed into a byte buffer that doubles when full, read back through a cursor.  The ghost
  fields list the packed items and how many of them the cursor has passed; Valid ties them to the bytes.
  size_t, cell and float take four bytes, as in the 32-bit game server.
*/
module DataPack {
  type Byte = x: int | 0 <= x < 256
  type UInt32 = x: int | 0 <= x < 0x1_0000_0000

  const DATAPACK_INITIAL_SIZE := 64
  const HEADER := 5     // type tag and size

  // A raw block, a cell, the bit pattern of a float, or the characters of a NUL-free string.
  datatype Item = Raw(block: seq<Byte>) | Cell(value: UInt32) | Float(bits: UInt32) | String(chars: seq<Byte>)

  // ---- Layout ----

  function Tag(x: Item): Byte {
    match x
    case Raw(_) => 0
    case Cell(_) => 1
    case Float(_) => 2
    case String(_) => 3
  }

  function Le4(n: UInt32): (b: seq<Byte>)
    ensures |b| == 4
  {
    [n % 256, n / 256 % 256, n / 65536 % 256, n / 16777216]
  }

  // The value of little-endian bytes.
  function Num(b: seq<Byte>): int {
    if b == [] then 0 else b[0] + 256 * Num(b[1..])
  }

  lemma Le4Inverts(n: UInt32)
    ensures Num(Le4(n)) == n
  {
    var b := Le4(n);
    var m, l, k := n / 256, n / 65536, n / 16777216;
    assert l == m / 256 && k == l / 256;
    assert n == 256 * m + n % 256 && m == 256 * l + m % 256 && l == 256 * k + l % 256;
    assert b[1..] == [m % 256, l % 256, k] && b[1..][1..] == [l % 256, k] && b[1..][1..][1..] == [k];
    assert b[1..][1..][1..][1..] == [];
    assert Num([k]) == k + 256 * Num([]);
    assert Num([l % 256, k]) == l % 256 + 256 * Num([k]) == l;
    assert Num([m % 256, l % 256, k]) == m % 256 + 256 * Num([l % 256, k]) == m;
  }

  predicate ItemOk(x: Item) {
    match x
    case Raw(block) => |block| < 0x1_0000_0000
    case String(chars) => |chars| < 0x1_0000_0000 && 0 !in chars
    case _ => true
  }

  function SizeField(x: Item): UInt32
    requires ItemOk(x)
  {
    match x
    case Raw(block) => |block|
    case String(chars) => |chars|
    case _ => 4
  }

  function Payload(x: Item): seq<Byte> {
    match x
    case Raw(block) => block
    case Cell(v) => Le4(v)
    case Float(v) => Le4(v)
    case String(chars) => chars + [0]
  }

  function ItemSize(x: Item): nat {
    match x
    case Raw(block) => HEADER + |block|
    case String(chars) => HEADER + |chars| + 1
    case _ => HEADER + 4
  }

  lemma PayloadSize(x: Item)
    ensures HEADER + |Payload(x)| == ItemSize(x)
  {}

  // The item x lies at position c of the bytes b, field by field.
  ghost predicate Laid(b: seq<Byte>, c: nat, x: Item)
    requires ItemOk(x)
  {
    && c + ItemSize(x) <= |b| && b[c] == Tag(x)
    && Num(b[c + 1..c + HEADER]) == SizeField(x)
    && match x
       case Cell(v) => Num(b[c + HEADER..c + HEADER + 4]) == v
       case Float(v) => Num(b[c + HEADER..c + HEADER + 4]) == v
       case Raw(block) => b[c + HEADER..c + HEADER + |block|] == block
       case String(chars) => b[c + HEADER..c + HEADER + |chars|] == chars && b[c + HEADER + |chars|] == 0
  }

  lemma SamePart(b: seq<Byte>, b': seq<Byte>, lo: nat, hi: nat)
    requires b <= b' && lo <= hi <= |b|
    ensures b'[lo..hi] == b[lo..hi]
  {}

  lemma LaidLonger(b: seq<Byte>, b': seq<Byte>, c: nat, x: Item)
    requires ItemOk(x) && Laid(b, c, x) && b <= b'
    ensures Laid(b', c, x)
  {
    SamePart(b, b', c + 1, c + HEADER);
    match x
    case Raw(block) => SamePart(b, b', c + HEADER, c + HEADER + |block|);
    case String(chars) => SamePart(b, b', c + HEADER, c + HEADER + |chars|);
    case _ => SamePart(b, b', c + HEADER, c + HEADER + 4);
  }

  // Tag, size field and payload, stored one after the other, lay the item out.
  lemma StoredIsLaid(b: seq<Byte>, x: Item)
    requires ItemOk(x)
    ensures Laid(b + [Tag(x)] + Le4(SizeField(x)) + Payload(x), |b|, x)
  {
    PayloadSize(x);
    var c, w, p := |b|, Le4(SizeField(x)), Payload(x);
    var r := b + [Tag(x)] + w + p;
    Le4Inverts(SizeField(x));
    assert r[c] == Tag(x) && r[c + 1..c + HEADER] == w && r[c + HEADER..] == p;
    match x
    case Raw(block) => assert r[c + HEADER..c + HEADER + |block|] == block;
    case Cell(v) =>
      Le4Inverts(v);
      assert r[c + HEADER..c + HEADER + 4] == p;
    case Float(v) =>
      Le4Inverts(v);
      assert r[c + HEADER..c + HEADER + 4] == p;
    case String(chars) =>
      assert r[c + HEADER..c + HEADER + |chars|] == chars && r[c + HEADER + |chars|] == p[|chars|];
  }

  ghost predicate ItemsOk(xs: seq<Item>) {
    forall i :: 0 <= i < |xs| ==> ItemOk(xs[i])
  }

  // The items follow each other from position 0 on; starts lists where each begins, and where the last one ends.
  ghost predicate Layout(b: seq<Byte>, xs: seq<Item>, starts: seq<nat>)
    requires ItemsOk(xs)
  {
    && |starts| == |xs| + 1 && starts[0] == 0 && starts[|xs|] == |b|
    && (forall i :: 0 <= i < |xs| ==> starts[i + 1] == starts[i] + ItemSize(xs[i]))
    && (forall i :: 0 <= i < |xs| ==> Laid(b, starts[i], xs[i]))
  }

  lemma LayoutExtends(b: seq<Byte>, b': seq<Byte>, xs: seq<Item>, starts: seq<nat>, x: Item)
    requires ItemsOk(xs) && Layout(b, xs, starts) && b <= b'
    requires ItemOk(x) && Laid(b', |b|, x) && |b'| == |b| + ItemSize(x)
    ensures ItemsOk(xs + [x]) && Layout(b', xs + [x], starts + [|b'|])
  {
    var ys, starts' := xs + [x], starts + [|b'|];
    forall i | 0 <= i < |ys| ensures Laid(b', starts'[i], ys[i]) && starts'[i + 1] == starts'[i] + ItemSize(ys[i]) {
      if i < |xs| {
        assert starts[i + 1] == starts[i] + ItemSize(xs[i]);
        LaidLonger(b, b', starts[i], xs[i]);
      }
    }
  }

  function LittleEnd(a: int, b: int, c: int, d: int): int {
    a + 256 * b + 65536 * c + 16777216 * d
  }

  // The first bytes of an item in the buffer: the tag, the size, little end first, and the value of a cell or float.
  lemma LaidBytes(b: seq<Byte>, c: nat, x: Item)
    requires ItemOk(x) && Laid(b, c, x)
    ensures c + 5 <= |b|
    ensures b[c] == match x case Raw(_) => 0 case Cell(_) => 1 case Float(_) => 2 case String(_) => 3
    ensures LittleEnd(b[c + 1], b[c + 2], b[c + 3], b[c + 4])
            == match x case Raw(block) => |block| case String(chars) => |chars| case _ => 4
    ensures x.Cell? || x.Float? ==>
      && c + 9 <= |b|
      && LittleEnd(b[c + 5], b[c + 6], b[c + 7], b[c + 8]) == if x.Cell? then x.value else x.bits
  {
    NumBytes(b[c + 1..c + 5]);
    if x.Cell? || x.Float? {
      NumBytes(b[c + 5..c + 9]);
    }
  }

  lemma NumBytes(w: seq<Byte>)
    requires |w| == 4
    ensures Num(w) == LittleEnd(w[0], w[1], w[2], w[3])
  {
    assert Num(w[1..][1..][1..]) == w[3] + 256 * Num(w[1..][1..][1..][1..]) == w[3];
    assert Num(w[1..][1..]) == w[2] + 256 * Num(w[1..][1..][1..]);
    assert Num(w[1..]) == w[1] + 256 * Num(w[1..][1..]);
  }

  // ---- The data pack ----

  // n doubled k times.
  function Doubled(n: nat, k: nat): nat {
    if k == 0 then n else 2 * Doubled(n, k - 1)
  }

  class CDataPack {
    var base: array<Byte>       // m_pBase
    var cur: nat                // m_curptr - m_pBase
    var capacity: nat
    var size: nat
    ghost var items: seq<Item>
    ghost var starts: seq<nat>
    ghost var passed: nat

    // The bytes in use are the packed items; independent of the cursor.
    ghost predicate Stored()
      reads `base, `capacity, `size, `items, `starts, base
    {
      && ItemsOk(items) && capacity == base.Length && capacity > 0 && size <= capacity
      && Layout(base[..size], items, starts)
    }

    ghost predicate Valid()
      reads this, base
    {
      Stored() && passed <= |items| && cur == starts[passed]
    }

    // All that packing asks for: the cursor is in the buffer.
    ghost predicate Sound()
      reads `base, `cur, `capacity
    {
      capacity == base.Length && capacity > 0 && cur <= capacity
    }

    // The cursor has passed every item, so that the next one is appended.
    ghost predicate AtEnd()
      reads this, base
    {
      Valid() && passed == |items|
    }

    constructor ()
      ensures Valid() && items == [] && passed == 0 && capacity == DATAPACK_INITIAL_SIZE && fresh(base)
    {
      base := new Byte[DATAPACK_INITIAL_SIZE](_ => 0);
      capacity := DATAPACK_INITIAL_SIZE;
      cur, size := 0, 0;
      items, starts, passed := [], [0], 0;
    }

    method Initialize()
      requires Valid()
      modifies this
      ensures Valid() && items == [] && passed == 0 && base == old(base) && capacity == old(capacity)
    {
      cur, size := 0, 0;
      items, starts, passed := [], [0], 0;
    }

    method Reset()
      requires Valid()
      modifies this`cur, this`passed
      ensures Valid() && passed == 0
    {
      cur, passed := 0, 0;
    }

    // Doubles the capacity until typesize more bytes fit behind the cursor.
    method CheckSize(typesize: nat) returns (ghost k: nat)
      requires capacity == base.Length && capacity > 0 && cur <= capacity
      modifies this`base, this`capacity
      // as often as needed, and no more
      ensures capacity == Doubled(old(capacity), k)
      ensures k > 0 ==> Doubled(old(capacity), k - 1) < cur + typesize
      ensures capacity == base.Length && capacity > 0 && cur + typesize <= capacity && old(capacity) <= capacity
      ensures base == old(base) || fresh(base)
      ensures base[..cur] == old(base[..cur])
    {
      k := 0;
      if cur + typesize <= capacity {
        return;
      }
      var pos := cur;
      capacity, k := capacity * 2, 1;
      while pos + typesize > capacity
        invariant capacity >= 2 * base.Length > 0 && base == old(base)
        invariant k > 0 && capacity == Doubled(old(capacity), k) && Doubled(old(capacity), k - 1) < pos + typesize
        decreases pos + typesize - capacity
      {
        capacity, k := capacity * 2, k + 1;
      }
      var old' := base;
      var grown := new Byte[capacity](_ => 0);
      for i := 0 to old'.Length
        invariant base == old(base) && capacity == grown.Length
        invariant forall k :: 0 <= k < i ==> grown[k] == old'[k]
      {
        grown[i] := old'[i];
      }
      base := grown;
    }

    // The stores through m_curptr.
    method Put(b: seq<Byte>)
      requires cur + |b| <= base.Length
      modifies this`cur, base
      ensures cur == old(cur) + |b| && base[..cur] == old(base[..cur]) + b
    {
      ghost var before := base[..cur];
      var i := 0;
      while i < |b|
        invariant 0 <= i <= |b| && cur == old(cur) + i
        invariant base[..cur] == before + b[..i]
      {
        base[cur] := b[i];
        cur := cur + 1;
        assert base[..cur] == base[..cur - 1] + [b[i]];
        i := i + 1;
      }
      assert b[..i] == b;
    }

    // Tag, size field and payload, stored one after the other.
    method PutItem(x: Item)
      requires ItemOk(x) && cur + ItemSize(x) <= base.Length
      modifies this`cur, base
      ensures cur == old(cur) + ItemSize(x) <= base.Length && old(base[..cur]) <= base[..cur]
      ensures Laid(base[..cur], old(cur), x)
    {
      ghost var before := base[..cur];
      PayloadSize(x);
      Put([Tag(x)]);
      Put(Le4(SizeField(x)));
      Put(Payload(x));
      StoredIsLaid(before, x);
    }

    // The cursor has moved behind the new item, what was before it is kept, and the size has grown by as much.
    ghost predicate Wrote(before: seq<Byte>, oldSize: nat, x: Item)
      requires ItemOk(x)
      reads this, base
    {
      && cur == |before| + ItemSize(x) <= base.Length && size == oldSize + ItemSize(x)
      && before <= base[..cur] && Laid(base[..cur], |before|, x)
    }

    // The stores of the four packers.
    method WriteItem(x: Item)
      requires Sound() && ItemOk(x)
      modifies this`base, this`capacity, this`cur, this`size, base
      ensures Sound() && (base == old(base) || fresh(base))
      ensures Wrote(old(base[..cur]), old(size), x)
    {
      ghost var _ := CheckSize(ItemSize(x));
      PutItem(x);
      size := size + ItemSize(x);
    }

    // The common shape of the four packers: behind the last item the new one joins the list.
    method PackItem(x: Item)
      requires Sound() && ItemOk(x)
      modifies this, base
      ensures Sound() && (base == old(base) || fresh(base))
      ensures Wrote(old(base[..cur]), old(size), x)
      ensures old(AtEnd()) ==> AtEnd() && items == old(items) + [x]
    {
      ghost var atEnd, before := AtEnd(), base[..cur];
      WriteItem(x);
      if atEnd {
        LayoutExtends(before, base[..size], items, starts, x);
        items, starts, passed := items + [x], starts + [size], passed + 1;
      }
    }

    method PackCell(v: UInt32)
      requires Sound()
      modifies this, base
      ensures Sound() && (base == old(base) || fresh(base))
      ensures Wrote(old(base[..cur]), old(size), Cell(v))
      ensures old(AtEnd()) ==> AtEnd() && items == old(items) + [Cell(v)]
    {
      PackItem(Cell(v));
    }

    method PackFloat(bits: UInt32)
      requires Sound()
      modifies this, base
      ensures Sound() && (base == old(base) || fresh(base))
      ensures Wrote(old(base[..cur]), old(size), Float(bits))
      ensures old(AtEnd()) ==> AtEnd() && items == old(items) + [Float(bits)]
    {
      PackItem(Float(bits));
    }

    method PackString(chars: seq<Byte>)
      requires Sound() && ItemOk(String(chars))
      modifies this, base
      ensures Sound() && (base == old(base) || fresh(base))
      ensures Wrote(old(base[..cur]), old(size), String(chars))
      ensures old(AtEnd()) ==> AtEnd() && items == old(items) + [String(chars)]
    {
      PackItem(String(chars));
    }

    // The caller's fill of the new block through *addr is part of the call.
    method CreateMemory(block: seq<Byte>) returns (pos: nat)
      requires Sound() && ItemOk(Raw(block))
      modifies this, base
      ensures Sound() && (base == old(base) || fresh(base))
      ensures pos == old(cur)
      ensures Wrote(old(base[..cur]), old(size), Raw(block))
      ensures old(AtEnd()) ==> AtEnd() && items == old(items) + [Raw(block)]
    {
      pos := cur;
      PackItem(Raw(block));
    }

    // ---- Reading ----

    lemma TagAtCursor()
      requires Valid()
      ensures passed == |items| ==> cur == size
      ensures passed < |items| ==> cur + HEADER <= size <= base.Length && base[cur] == Tag(items[passed])
    {
      AtCursor();
    }

    // The cursor stands at the end, or at the next item.
    lemma AtCursor()
      requires Valid()
      ensures passed == |items| ==> cur == size
      ensures passed < |items| ==>
                && starts[passed + 1] == cur + ItemSize(items[passed]) <= size <= base.Length
                && base[cur] == Tag(items[passed])
                && Num(base[cur + 1..cur + HEADER]) == SizeField(items[passed])
    {
      if passed < |items| {
        assert Laid(base[..size], cur, items[passed]);
        assert base[..size][cur + 1..cur + HEADER] == base[cur + 1..cur + HEADER];
      }
    }

    lemma WordAtCursor()
      requires Valid() && passed < |items| && (items[passed].Cell? || items[passed].Float?)
      ensures cur + 9 <= base.Length
      ensures Num(base[cur + HEADER..cur + HEADER + 4]) ==
                if items[passed].Cell? then items[passed].value else items[passed].bits
    {
      assert Laid(base[..size], cur, items[passed]);
      assert base[..size][cur + HEADER..cur + HEADER + 4] == base[cur + HEADER..cur + HEADER + 4];
    }

    lemma StringAtCursor()
      requires Valid() && passed < |items| && items[passed].String?
      ensures var chars, at := items[passed].chars, cur + HEADER;
              && 0 !in chars && at + |chars| < size <= base.Length
              && base[at..at + |chars|] == chars && base[at + |chars|] == 0
              && Num(base[cur + 1..cur + HEADER]) == |chars|
    {
      assert ItemOk(items[passed]);
      var chars, at := items[passed].chars, cur + HEADER;
      assert Laid(base[..size], cur, items[passed]);
      assert base[..size][cur + 1..cur + HEADER] == base[cur + 1..cur + HEADER];
      assert base[..size][at..at + |chars|] == base[at..at + |chars|];
    }

    lemma BlockAtCursor()
      requires Valid() && passed < |items| && items[passed].Raw?
      ensures var block, at := items[passed].block, cur + HEADER;
              at + |block| <= base.Length && base[at..at + |block|] == block
    {
      var block, at := items[passed].block, cur + HEADER;
      assert Laid(base[..size], cur, items[passed]);
      assert base[..size][at..at + |block|] == base[at..at + |block|];
    }

    // The four bytes at a position, as a number.
    method Load4(at: nat) returns (n: int)
      requires at + 4 <= base.Length
      ensures n == Num(base[at..at + 4])
    {
      n := Num(base[at..at + 4]);
    }

    predicate IsReadable(bytes: nat)
      reads this
    {
      !(bytes + cur > size)
    }

    // CanReadCell and CanReadFloat: they differ in the expected tag.
    method CanReadFixed(tag: Byte) returns (can: bool)
      requires Valid() && (tag == 1 || tag == 2)
      ensures can <==> passed < |items| && Tag(items[passed]) == tag
    {
      AtCursor();
      if !IsReadable(1 + 4 + 4) {
        return false;
      }
      if base[cur] != tag {
        return false;
      }
      var n := Load4(cur + 1);
      return n == 4;
    }

    method ReadCell() returns (v: UInt32)
      requires Valid()
      modifies this`cur, this`passed
      ensures Valid()
      ensures if old(passed) < |items| && items[old(passed)].Cell?
              then v == items[old(passed)].value && passed == old(passed) + 1
              else v == 0 && passed == old(passed) && cur == old(cur)
    {
      var can := CanReadFixed(1);
      if !can {
        return 0;
      }
      AtCursor();
      WordAtCursor();
      cur := cur + HEADER;
      v := Load4(cur);
      cur := cur + 4;
      passed := passed + 1;
    }

    method ReadFloat() returns (v: UInt32)
      requires Valid()
      modifies this`cur, this`passed
      ensures Valid()
      ensures if old(passed) < |items| && items[old(passed)].Float?
              then v == items[old(passed)].bits && passed == old(passed) + 1
              else v == 0 && passed == old(passed) && cur == old(cur)
    {
      var can := CanReadFixed(2);
      if !can {
        return 0;
      }
      AtCursor();
      WordAtCursor();
      cur := cur + HEADER;
      v := Load4(cur);
      cur := cur + 4;
      passed := passed + 1;
    }

    // strlen over the buffer; the terminator of the string at the cursor stops it.
    method StrLen(start: nat, ghost chars: seq<Byte>) returns (n: nat)
      requires start + |chars| < base.Length && 0 !in chars
      requires base[start..start + |chars|] == chars && base[start + |chars|] == 0
      ensures n == |chars|
    {
      n := 0;
      while base[start + n] != 0
        invariant 0 <= n <= |chars|
        invariant n < |chars| ==> base[start..start + |chars|][n] == chars[n] && chars[n] in chars
        decreases |chars| - n
      {
        n := n + 1;
      }
    }

    method CanReadString() returns (can: bool, len: nat)
      requires Valid()
      ensures can <==> passed < |items| && items[passed].String?
      ensures can ==> len == |items[passed].chars|
    {
      TagAtCursor();
      if !IsReadable(1 + 4) {
        return false, 0;
      }
      if base[cur] != 3 {
        return false, 0;
      }
      StringAtCursor();
      var realLen := Load4(cur + 1);
      ghost var chars := items[passed].chars;
      var n := StrLen(cur + HEADER, chars);
      return n == realLen && IsReadable(1 + 4 + realLen + 1), realLen;
    }

    method ReadString() returns (ok: bool, chars: seq<Byte>)
      requires Valid()
      modifies this`cur, this`passed
      ensures Valid()
      ensures ok <==> old(passed) < |items| && items[old(passed)].String?
      ensures if ok then chars == items[old(passed)].chars && passed == old(passed) + 1
              else passed == old(passed) && cur == old(cur)
    {
      var can, len := CanReadString();
      if !can {
        return false, [];
      }
      AtCursor();
      StringAtCursor();
      cur := cur + HEADER;
      chars := base[cur..cur + len];
      cur := cur + len + 1;
      passed := passed + 1;
      return true, chars;
    }

    method CanReadMemory() returns (can: bool, bytecount: nat)
      requires Valid()
      ensures can <==> passed < |items| && items[passed].Raw?
      ensures can ==> bytecount == |items[passed].block|
    {
      AtCursor();
      if !IsReadable(1 + 4) {
        return false, 0;
      }
      if base[cur] != 0 {
        return false, 0;
      }
      bytecount := Load4(cur + 1);
      return IsReadable(1 + 4 + bytecount), bytecount;
    }

    method ReadMemory() returns (ok: bool, block: seq<Byte>)
      requires Valid()
      modifies this`cur, this`passed
      ensures Valid()
      ensures ok <==> old(passed) < |items| && items[old(passed)].Raw?
      ensures if ok then block == items[old(passed)].block && passed == old(passed) + 1
              else passed == old(passed) && cur == old(cur)
    {
      var can, bytecount := CanReadMemory();
      if !can {
        return false, [];
      }
      AtCursor();
      BlockAtCursor();
      cur := cur + HEADER;
      block := base[cur..cur + bytecount];
      cur := cur + bytecount;
      passed := passed + 1;
      return true, block;
    }
  }

  // ---- Round trip ----

  method Pack(p: CDataPack, x: Item)
    requires p.AtEnd() && ItemOk(x)
    modifies p, p.base
    ensures p.AtEnd() && p.items == old(p.items) + [x]
    ensures p.base == old(p.base) || fresh(p.base)
  {
    match x
    case Raw(block) => var _ := p.CreateMemory(block);
    case Cell(v) => p.PackCell(v);
    case Float(v) => p.PackFloat(v);
    case String(chars) => p.PackString(chars);
  }

  // Reads the next value with the reader that matches `shape`.
  method ReadLike(p: CDataPack, shape: Item) returns (x: Item)
    requires p.Valid() && p.passed < |p.items| && Tag(shape) == Tag(p.items[p.passed])
    modifies p`cur, p`passed
    ensures p.Valid() && p.passed == old(p.passed) + 1 && x == p.items[old(p.passed)]
  {
    match shape
    case Raw(_) =>
      var ok, block := p.ReadMemory();
      x := Raw(block);
    case Cell(_) =>
      var v := p.ReadCell();
      x := Cell(v);
    case Float(_) =>
      var v := p.ReadFloat();
      x := Float(v);
    case String(_) =>
      var ok, chars := p.ReadString();
      x := String(chars);
  }

  method PackAll(xs: seq<Item>) returns (p: CDataPack)
    requires ItemsOk(xs)
    ensures fresh(p) && fresh(p.base) && p.Valid() && p.items == xs && p.passed == |xs|
  {
    p := new CDataPack();
    for i := 0 to |xs|
      invariant fresh(p) && fresh(p.base) && p.Valid()
      invariant p.items == xs[..i] && p.passed == i
    {
      Pack(p, xs[i]);
      assert xs[..i + 1] == xs[..i] + [xs[i]];
    }
    assert xs[..|xs|] == xs;
  }

  method ReadAll(p: CDataPack, shapes: seq<Item>) returns (ys: seq<Item>)
    requires p.Valid() && p.passed == 0 && |shapes| == |p.items|
    requires forall i :: 0 <= i < |shapes| ==> Tag(shapes[i]) == Tag(p.items[i])
    modifies p`cur, p`passed
    ensures p.Valid() && ys == p.items
  {
    ys := [];
    for i := 0 to |shapes|
      invariant p.Valid() && p.passed == i && ys == p.items[..i]
    {
      var y := ReadLike(p, shapes[i]);
      assert p.items[..i + 1] == p.items[..i] + [p.items[i]];
      ys := ys + [y];
    }
  }

  // Any list of values, packed into a fresh pack across however many doublings, reads back as the same list.
  method RoundTrip(xs: seq<Item>) returns (ys: seq<Item>)
    requires ItemsOk(xs)
    ensures ys == xs
  {
    var p := PackAll(xs);
    p.Reset();
    ys := ReadAll(p, xs);
  }
}
