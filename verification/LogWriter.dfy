/**
  The drain loop of log_mngr::writer_thread: lines sorted by plugin and time are popped from the back of the buffer and
  written in batches under the lock of their plugin's file.  The trace records what the thread does, in order.
*/
module LogWriter {
  // amx is the plugin; 0 stands for the null plugin, for which open_file never returns a file.  number counts the lines
  // as they are logged.
  datatype Line = Line(amx: nat, number: nat, time: int, text: string)

  datatype Event = Lock(amx: nat) | Written(line: Line) | Dropped(line: Line) | Unlock(amx: nat) | Skipped(line: Line)

  type Trace = seq<Event>

  // How the files behave, k calls of open_file having been made: whether the next call gives a file for a non-null
  // plugin; if it gives none, whether it leaves a file behind that it has locked and nobody can reach; and whether the
  // stream of the file whose lock is held is open.
  datatype Files = Files(canOpen: nat -> bool, leaks: nat -> bool, streamOpen: nat -> bool)

  // ---- The order std::sort leaves ----

  predicate SortsBefore(a: Line, b: Line) {
    a.amx > b.amx || (a.amx == b.amx && a.time > b.time)
  }

  ghost predicate IsSorted(s: seq<Line>) {
    forall i, j :: 0 <= i < j < |s| ==> !SortsBefore(s[j], s[i])
  }

  // ---- Reading a trace ----

  predicate Handles(e: Event) { e.Written? || e.Dropped? || e.Skipped? }

  // The lines handled, in the order of handling.
  function Handled(t: Trace): seq<Line> {
    if t == [] then []
    else Handled(t[..|t| - 1]) + (if Handles(t[|t| - 1]) then [t[|t| - 1].line] else [])
  }

  function WrittenLines(t: Trace): seq<Line> {
    if t == [] then []
    else WrittenLines(t[..|t| - 1]) + (if t[|t| - 1].Written? then [t[|t| - 1].line] else [])
  }

  function DroppedLines(t: Trace): seq<Line> {
    if t == [] then []
    else DroppedLines(t[..|t| - 1]) + (if t[|t| - 1].Dropped? then [t[|t| - 1].line] else [])
  }

  function SkippedLines(t: Trace): seq<Line> {
    if t == [] then []
    else SkippedLines(t[..|t| - 1]) + (if t[|t| - 1].Skipped? then [t[|t| - 1].line] else [])
  }

  // The plugin whose file lock the thread holds, 0 for none.
  function Held(t: Trace): nat {
    if t == [] then 0
    else
      match t[|t| - 1]
      case Lock(a) => a
      case Unlock(_) => 0
      case _ => Held(t[..|t| - 1])
  }

  // How often open_file has been called.
  function Opens(t: Trace): nat {
    if t == [] then 0
    else Opens(t[..|t| - 1]) + if t[|t| - 1].Lock? || t[|t| - 1].Skipped? then 1 else 0
  }

  // What may happen next: locks do not nest, writing and unlocking need the lock of that plugin, whether a line is
  // skipped is decided by open_file, and whether it is dropped by the stream.
  predicate Allowed(t: Trace, e: Event, fs: Files) {
    match e
    case Lock(a) => a != 0 && Held(t) == 0 && fs.canOpen(Opens(t))
    case Written(l) => l.amx != 0 && Held(t) == l.amx && fs.streamOpen(Opens(t))
    case Dropped(l) => l.amx != 0 && Held(t) == l.amx && !fs.streamOpen(Opens(t))
    case Unlock(a) => a != 0 && Held(t) == a
    case Skipped(l) => Held(t) == 0 && (l.amx == 0 || !fs.canOpen(Opens(t)))
  }

  predicate Disciplined(t: Trace, fs: Files) {
    t == [] || (Disciplined(t[..|t| - 1], fs) && Allowed(t[..|t| - 1], t[|t| - 1], fs))
  }

  // The locks of the trace are taken in increasing order of the plugins, the last one at most for `bound`.
  ghost predicate LocksAscend(t: Trace, bound: nat) {
    && (forall i, j :: 0 <= i < j < |t| && t[i].Lock? && t[j].Lock? ==> t[i].amx < t[j].amx)
    && (forall i :: 0 <= i < |t| && t[i].Lock? ==> t[i].amx <= bound)
  }

  lemma OneMoreLock(t: Trace, bound: nat, a: nat)
    requires LocksAscend(t, bound) && bound < a
    ensures LocksAscend(t + [Lock(a)], a)
  {}

  lemma NoMoreLocks(t: Trace, bound: nat, e: Event)
    requires LocksAscend(t, bound) && !e.Lock?
    ensures LocksAscend(t + [e], bound)
  {}

  lemma Snoc(t: Trace, e: Event, fs: Files)
    ensures var u := t + [e];
            && Handled(u) == Handled(t) + (if Handles(e) then [e.line] else [])
            && Held(u) == (match e case Lock(a) => a case Unlock(_) => 0 case _ => Held(t))
            && Opens(u) == Opens(t) + (if e.Lock? || e.Skipped? then 1 else 0)
            && (Disciplined(u, fs) <==> Disciplined(t, fs) && Allowed(t, e, fs))
  {
    var u := t + [e];
    assert u[..|u| - 1] == t && u[|u| - 1] == e;
  }

  function Reverse(s: seq<Line>): seq<Line> {
    if s == [] then [] else [s[|s| - 1]] + Reverse(s[..|s| - 1])
  }

  // ---- The thread ----

  // write(): the lines of the batch, in order; all of them are dropped if the stream is not open.
  method Write(t: Trace, batch: seq<Line>, fs: Files) returns (u: Trace)
    requires Disciplined(t, fs)
    requires forall i :: 0 <= i < |batch| ==> batch[i].amx != 0 && batch[i].amx == Held(t)
    ensures Disciplined(u, fs) && Held(u) == Held(t) && Opens(u) == Opens(t)
    ensures Handled(u) == Handled(t) + batch
    ensures forall bound :: LocksAscend(t, bound) ==> LocksAscend(u, bound)
  {
    u := t;
    var written := fs.streamOpen(Opens(t));
    for i := 0 to |batch|
      invariant Disciplined(u, fs) && Held(u) == Held(t) && Opens(u) == Opens(t)
      invariant Handled(u) == Handled(t) + batch[..i]
      invariant forall bound :: LocksAscend(t, bound) ==> LocksAscend(u, bound)
    {
      var e := if written then Written(batch[i]) else Dropped(batch[i]);
      Snoc(u, e, fs);
      u := u + [e];
      assert batch[..i + 1] == batch[..i] + [batch[i]];
    }
    assert batch[..|batch|] == batch;
  }

  // The lock is held exactly while the line `it` still belongs to the plugin of the last opened file.
  predicate Continues(m: nat, it: Line, amxPrev: nat) {
    m > 0 && amxPrev != 0 && it.amx == amxPrev
  }

  // The state at the head of the loop, with m lines left.
  ghost predicate AtHead(sorted: seq<Line>, m: nat, it: Line, amxPrev: nat, t: Trace, fs: Files) {
    && m <= |sorted|
    && Disciplined(t, fs) && LocksAscend(t, amxPrev)
    && Handled(t) + Reverse(sorted[..m]) == Reverse(sorted)
    && (if Continues(m, it, amxPrev) then Held(t) == amxPrev && it == sorted[m - 1] else Held(t) == 0)
    && (amxPrev != 0 && !Continues(m, it, amxPrev) ==> forall j :: 0 <= j < m ==> sorted[j].amx > amxPrev)
  }

  lemma PopOne(sorted: seq<Line>, m: nat)
    requires 0 < m <= |sorted|
    ensures Reverse(sorted[..m]) == [sorted[m - 1]] + Reverse(sorted[..m - 1])
  {
    assert sorted[..m][..m - 1] == sorted[..m - 1];
  }

  lemma SmallestIsLast(sorted: seq<Line>, m: nat)
    requires IsSorted(sorted) && 0 < m <= |sorted|
    ensures forall j :: 0 <= j < m ==> sorted[j].amx >= sorted[m - 1].amx
  {
    forall j | 0 <= j < m - 1 ensures !SortsBefore(sorted[m - 1], sorted[j]) {}
  }

  // Inside the inner loop: the batch holds lines of one plugin, taken from the back of the buffer, the last one first.
  ghost predicate Filling(sorted: seq<Line>, m: nat, k: nat, batch: seq<Line>, amx: nat) {
    && k <= m <= |sorted|
    && (forall i :: 0 <= i < |batch| ==> batch[i].amx == amx)
    && batch + Reverse(sorted[..k]) == Reverse(sorted[..m])
  }

  lemma FillOne(sorted: seq<Line>, m: nat, k: nat, batch: seq<Line>, amx: nat)
    requires Filling(sorted, m, k, batch, amx) && k > 0 && sorted[k - 1].amx == amx
    ensures Filling(sorted, m, k - 1, batch + [sorted[k - 1]], amx)
    ensures sorted[..k][..k - 1] == sorted[..k - 1]
  {
    PopOne(sorted, k);
    Regroup(batch, [sorted[k - 1]], Reverse(sorted[..k - 1]));
  }

  // The inner loop: move lines of one plugin into the batch until it is full or another plugin's line comes up.
  method FillBatch(ghost sorted: seq<Line>, buff: seq<Line>, capacity: nat, amxPrev: nat, it: Line)
    returns (rest: seq<Line>, batch: seq<Line>, it': Line)
    requires 0 < |buff| <= |sorted| && buff == sorted[..|buff|] && capacity > 0
    requires it == sorted[|buff| - 1] && it.amx == amxPrev
    ensures |rest| < |buff| && rest == sorted[..|rest|]
    ensures 0 < |batch| <= capacity && Filling(sorted, |buff|, |rest|, batch, amxPrev)
    ensures |rest| > 0 ==> it' == sorted[|rest| - 1]
    ensures |rest| > 0 && it'.amx == amxPrev ==> |batch| == capacity
  {
    rest, batch, it' := buff, [], it;
    while |batch| < capacity && it'.amx == amxPrev
      invariant 0 < |rest| <= |buff| && rest == sorted[..|rest|]
      invariant |batch| <= capacity && |rest| == |buff| - |batch|
      invariant Filling(sorted, |buff|, |rest|, batch, amxPrev)
      invariant it' == sorted[|rest| - 1]
      invariant batch == [] ==> it'.amx == amxPrev
      decreases |rest|
    {
      FillOne(sorted, |buff|, |rest|, batch, amxPrev);
      batch := batch + [it'];
      rest := rest[..|rest| - 1];
      if |rest| == 0 {
        break;
      }
      it' := rest[|rest| - 1];
    }
  }

  lemma Regroup(a: seq<Line>, b: seq<Line>, c: seq<Line>)
    ensures (a + b) + c == a + (b + c)
  {}

  lemma SkipKeepsHead(sorted: seq<Line>, m: nat, it: Line, amxPrev: nat, t: Trace, fs: Files, next: Line)
    requires IsSorted(sorted) && 0 < m && AtHead(sorted, m, it, amxPrev, t, fs) && !Continues(m, it, amxPrev)
    requires next == sorted[m - 1] && (next.amx == 0 || !fs.canOpen(Opens(t)))
    ensures AtHead(sorted, m - 1, next, amxPrev, t + [Skipped(next)], fs)
  {
    PopOne(sorted, m);
    Snoc(t, Skipped(next), fs);
    NoMoreLocks(t, amxPrev, Skipped(next));
    Regroup(Handled(t), [next], Reverse(sorted[..m - 1]));
  }

  // Between opening the file and writing: the lock is held for the plugin of the line at the back.
  ghost predicate Ready(sorted: seq<Line>, m: nat, amx: nat, t: Trace, fs: Files) {
    && 0 < m <= |sorted| && sorted[m - 1].amx == amx == Held(t) && amx != 0
    && Disciplined(t, fs) && LocksAscend(t, amx)
    && Handled(t) + Reverse(sorted[..m]) == Reverse(sorted)
  }

  lemma OpenMakesReady(sorted: seq<Line>, m: nat, it: Line, amxPrev: nat, t: Trace, fs: Files)
    requires 0 < m && AtHead(sorted, m, it, amxPrev, t, fs)
    ensures Continues(m, it, amxPrev) ==> Ready(sorted, m, amxPrev, t, fs)
    ensures var a := sorted[m - 1].amx;
            !Continues(m, it, amxPrev) && a != 0 && fs.canOpen(Opens(t)) ==> Ready(sorted, m, a, t + [Lock(a)], fs)
  {
    var a := sorted[m - 1].amx;
    Snoc(t, Lock(a), fs);
    if !Continues(m, it, amxPrev) && a != 0 {
      OneMoreLock(t, amxPrev, a);
    }
  }

  lemma BatchKeepsHead(sorted: seq<Line>, m: nat, amx: nat, t: Trace, fs: Files,
                       rest: nat, batch: seq<Line>, it: Line, u: Trace)
    requires IsSorted(sorted) && Ready(sorted, m, amx, t, fs) && rest < m
    requires Filling(sorted, m, rest, batch, amx)
    requires rest > 0 ==> it == sorted[rest - 1]
    requires Disciplined(u, fs) && Held(u) == Held(t) && Handled(u) == Handled(t) + batch && LocksAscend(u, amx)
    ensures AtHead(sorted, rest, it, amx, if rest == 0 || it.amx != amx then u + [Unlock(amx)] else u, fs)
  {
    Regroup(Handled(t), batch, Reverse(sorted[..rest]));
    Snoc(u, Unlock(amx), fs);
    NoMoreLocks(u, amx, Unlock(amx));
    SmallestIsLast(sorted, m);
    if rest > 0 {
      SmallestIsLast(sorted, rest);
    }
  }

  // The second half of the loop body: fill a batch, write it, and unlock unless more of the plugin's lines follow.
  method WriteBatch(ghost sorted: seq<Line>, buff: seq<Line>, capacity: nat, amx: nat, it: Line, t: Trace, fs: Files)
    returns (rest: seq<Line>, it': Line, u: Trace)
    requires IsSorted(sorted) && capacity > 0 && Ready(sorted, |buff|, amx, t, fs)
    requires buff == sorted[..|buff|] && it == sorted[|buff| - 1]
    ensures |rest| < |buff| && rest == sorted[..|rest|] && AtHead(sorted, |rest|, it', amx, u, fs)
  {
    var batch;
    rest, batch, it' := FillBatch(sorted, buff, capacity, amx, it);
    u := Write(t, batch, fs);
    BatchKeepsHead(sorted, |buff|, amx, t, fs, |rest|, batch, it', u);
    if |rest| == 0 || it'.amx != amx {
      u := u + [Unlock(amx)];
    }
  }

  // One round of the loop: skip a line whose file does not open, or write a batch.
  method Round(ghost sorted: seq<Line>, buff: seq<Line>, capacity: nat, it: Line, amxPrev: nat, t: Trace, fs: Files)
    returns (rest: seq<Line>, it': Line, amxPrev': nat, u: Trace)
    requires IsSorted(sorted) && capacity > 0 && |buff| > 0 && |buff| <= |sorted| && buff == sorted[..|buff|]
    requires AtHead(sorted, |buff|, it, amxPrev, t, fs)
    ensures |rest| < |buff| && rest == sorted[..|rest|] && AtHead(sorted, |rest|, it', amxPrev', u, fs)
  {
    ghost var m := |buff|;
    OpenMakesReady(sorted, m, it, amxPrev, t, fs);
    it', amxPrev', u := it, amxPrev, t;
    if amxPrev == 0 || it.amx != amxPrev {
      it' := buff[|buff| - 1];
      if it'.amx == 0 || !fs.canOpen(Opens(t)) {
        SkipKeepsHead(sorted, m, it, amxPrev, t, fs, it');
        return buff[..|buff| - 1], it', amxPrev, t + [Skipped(it')];
      }
      u := t + [Lock(it'.amx)];
      amxPrev' := it'.amx;
    }
    rest, it', u := WriteBatch(sorted, buff, capacity, amxPrev', it', u, fs);
  }

  // Stands for std::sort: callers see only that the result is some arrangement that the comparison accepts.
  method SortLines(buff: seq<Line>) returns (sorted: seq<Line>)
    ensures IsSorted(sorted) && multiset(sorted) == multiset(buff)
  {
    sorted := [];
    for i := 0 to |buff|
      invariant IsSorted(sorted) && multiset(sorted) == multiset(buff[..i])
    {
      InsertLineSorts(sorted, buff[i]);
      sorted := InsertLine(sorted, buff[i]);
      assert buff[..i + 1] == buff[..i] + [buff[i]];
    }
    assert buff[..|buff|] == buff;
  }

  function InsertLine(s: seq<Line>, x: Line): seq<Line> {
    if s == [] || !SortsBefore(s[0], x) then [x] + s else [s[0]] + InsertLine(s[1..], x)
  }

  lemma {:induction false} InsertLineSorts(s: seq<Line>, x: Line)
    requires IsSorted(s)
    ensures IsSorted(InsertLine(s, x)) && multiset(InsertLine(s, x)) == multiset(s) + multiset{x}
  {
    if s != [] && SortsBefore(s[0], x) {
      var r := InsertLine(s[1..], x);
      InsertLineSorts(s[1..], x);
      assert s == [s[0]] + s[1..];
      forall y | y in r ensures !SortsBefore(y, s[0]) {
        assert y in multiset(r);
        if y != x {
          var j :| 0 <= j < |s[1..]| && s[1..][j] == y;
          assert s[j + 1] == y;
        }
      }
    }
  }

  // writer_thread
  method WriterThread(buffer: seq<Line>, capacity: nat, fs: Files) returns (t: Trace, ghost sorted: seq<Line>)
    requires capacity > 0
    ensures IsSorted(sorted) && multiset(sorted) == multiset(buffer)
    ensures Disciplined(t, fs) && Held(t) == 0
    ensures Handled(t) == Reverse(sorted)
    // no plugin's file is locked twice
    ensures forall i, j :: 0 <= i < j < |t| && t[i].Lock? && t[j].Lock? ==> t[i].amx < t[j].amx
  {
    t := [];
    var amxPrev := 0;
    var it := Line(0, 0, 0, "");
    var buff := SortLines(buffer);
    sorted := buff;
    assert sorted[..|sorted|] == sorted;
    while |buff| > 0
      invariant IsSorted(sorted) && multiset(sorted) == multiset(buffer)
      invariant |buff| <= |sorted| && buff == sorted[..|buff|]
      invariant AtHead(sorted, |buff|, it, amxPrev, t, fs)
      decreases |buff|
    {
      buff, it, amxPrev, t := Round(sorted, buff, capacity, it, amxPrev, t, fs);
    }
  }

  // ---- What every such trace guarantees ----

  lemma {:induction false} ReverseSame(s: seq<Line>)
    ensures multiset(Reverse(s)) == multiset(s)
  {
    if s != [] {
      ReverseSame(s[..|s| - 1]);
      assert s == s[..|s| - 1] + [s[|s| - 1]];
    }
  }

  lemma {:induction false} HandledSplits(t: Trace)
    ensures multiset(Handled(t)) ==
            multiset(WrittenLines(t)) + multiset(DroppedLines(t)) + multiset(SkippedLines(t))
  {
    if t != [] {
      HandledSplits(t[..|t| - 1]);
    }
  }

  // Each line of the buffer is written once, dropped once or skipped once.
  lemma EveryLineOnce(buff: seq<Line>, sorted: seq<Line>, t: Trace)
    requires multiset(sorted) == multiset(buff) && Handled(t) == Reverse(sorted)
    ensures multiset(WrittenLines(t)) + multiset(DroppedLines(t)) + multiset(SkippedLines(t)) == multiset(buff)
  {
    ReverseSame(sorted);
    HandledSplits(t);
  }

  // Plugins in increasing order, and the lines of one plugin in order of time.
  ghost predicate InOrder(s: seq<Line>) {
    forall i, j :: 0 <= i < j < |s| ==> !SortsBefore(s[i], s[j])
  }

  lemma {:induction false} ReverseInOrder(s: seq<Line>)
    requires IsSorted(s)
    ensures InOrder(Reverse(s)) && forall x :: x in Reverse(s) <==> x in s
  {
    if s != [] {
      var n := |s| - 1;
      ReverseInOrder(s[..n]);
      assert s == s[..n] + [s[n]];
      forall x | x in s[..n] ensures !SortsBefore(s[n], x) {
        var i :| 0 <= i < n && s[i] == x;
      }
    }
  }

  lemma {:induction false} WrittenAreHandled(t: Trace, x: Line)
    requires x in WrittenLines(t)
    ensures x in Handled(t)
  {
    if !(t[|t| - 1].Written? && t[|t| - 1].line == x) {
      WrittenAreHandled(t[..|t| - 1], x);
    }
  }

  lemma {:induction false} WrittenInOrder(t: Trace)
    requires InOrder(Handled(t))
    ensures InOrder(WrittenLines(t))
  {
    if t != [] {
      var p, e := t[..|t| - 1], t[|t| - 1];
      var h := Handled(p);
      assert forall i :: 0 <= i < |h| ==> h[i] == Handled(t)[i];
      WrittenInOrder(p);
      if e.Written? {
        assert Handled(t)[|h|] == e.line;
        forall x | x in WrittenLines(p) ensures !SortsBefore(x, e.line) {
          WrittenAreHandled(p, x);
          var i :| 0 <= i < |h| && h[i] == x;
          assert !SortsBefore(Handled(t)[i], Handled(t)[|h|]);
        }
      }
    }
  }

  // Lines are handled by plugin, and those of one plugin by time.
  lemma HandledInOrder(sorted: seq<Line>, t: Trace, i: nat, j: nat)
    requires IsSorted(sorted) && Handled(t) == Reverse(sorted) && i < j < |Handled(t)|
    ensures var x, y := Handled(t)[i], Handled(t)[j]; x.amx < y.amx || (x.amx == y.amx && x.time <= y.time)
  {
    ReverseInOrder(sorted);
  }

  // The lines of each plugin reach its file in non-decreasing order of time.
  lemma TimesDoNotDecrease(sorted: seq<Line>, t: Trace, i: nat, j: nat)
    requires IsSorted(sorted) && Handled(t) == Reverse(sorted)
    requires i < j < |WrittenLines(t)| && WrittenLines(t)[i].amx == WrittenLines(t)[j].amx
    ensures WrittenLines(t)[i].time <= WrittenLines(t)[j].time
  {
    ReverseInOrder(sorted);
    WrittenInOrder(t);
  }

  // What logging order means for the clock: lines have different numbers, and a later one no earlier time.
  ghost predicate LoggedInTime(lines: seq<Line>) {
    && (forall x, y :: x in lines && y in lines && x.number == y.number ==> x == y)
    && (forall x, y :: x in lines && y in lines && x.number < y.number ==> x.time <= y.time)
  }

  // Lines of one plugin with different times reach its file in the order in which they were logged.
  lemma LoggingOrderKept(sorted: seq<Line>, t: Trace, i: nat, j: nat)
    requires IsSorted(sorted) && Handled(t) == Reverse(sorted) && LoggedInTime(sorted)
    requires i < j < |WrittenLines(t)| && WrittenLines(t)[i].amx == WrittenLines(t)[j].amx
    requires WrittenLines(t)[i].time != WrittenLines(t)[j].time
    ensures WrittenLines(t)[i].number < WrittenLines(t)[j].number
  {
    var x, y := WrittenLines(t)[i], WrittenLines(t)[j];
    TimesDoNotDecrease(sorted, t, i, j);
    ReverseInOrder(sorted);
    WrittenAreHandled(t, x);
    WrittenAreHandled(t, y);
  }

  // With equal times the comparison accepts both orders, so the second line may be written first.
  lemma EqualTimesMaySwap(x: Line, y: Line)
    requires x == Line(1, 0, 7, "first") && y == Line(1, 1, 7, "second")
    ensures LoggedInTime([x, y]) && IsSorted([x, y]) && IsSorted([y, x])
    ensures Reverse([x, y]) == [y, x] && Reverse([y, x]) == [x, y]
  {
    ReverseTwo(x, y);
    ReverseTwo(y, x);
  }

  lemma ReverseTwo(x: Line, y: Line)
    ensures Reverse([x, y]) == [y, x]
  {
    var s, u := [x, y], [x];
    assert s[..|s| - 1] == u && u[..|u| - 1] == [];
    assert Reverse([]) == [] && Reverse(u) == [x] + Reverse([]);
    assert Reverse(s) == [y] + Reverse(u);
  }

  function Count(t: Trace, e: Event): nat {
    if t == [] then 0 else Count(t[..|t| - 1], e) + if t[|t| - 1] == e then 1 else 0
  }

  // Each lock taken is released exactly once, except the one still held.
  lemma {:induction false} LocksBalance(t: Trace, fs: Files, amx: nat)
    requires Disciplined(t, fs) && amx != 0
    ensures Count(t, Lock(amx)) == Count(t, Unlock(amx)) + if Held(t) == amx then 1 else 0
  {
    if t != [] {
      LocksBalance(t[..|t| - 1], fs, amx);
    }
  }

  // All the locks the thread takes, those of files left behind included, and all it releases.
  function LocksTaken(t: Trace, fs: Files): nat {
    if t == [] then 0
    else
      var p, e := t[..|t| - 1], t[|t| - 1];
      LocksTaken(p, fs) + if e.Lock? || Leaks(p, e, fs) then 1 else 0
  }

  function LocksReleased(t: Trace): nat {
    if t == [] then 0 else LocksReleased(t[..|t| - 1]) + if t[|t| - 1].Unlock? then 1 else 0
  }

  // The line was skipped by a failing create_file that left a locked file behind.
  predicate Leaks(p: Trace, e: Event, fs: Files) {
    e.Skipped? && e.line.amx != 0 && fs.leaks(Opens(p))
  }

  predicate LeaksSomewhere(t: Trace, fs: Files) {
    exists i :: 0 <= i < |t| && Leaks(t[..i], t[i], fs)
  }

  lemma {:induction false} LeaksAddUp(t: Trace, fs: Files)
    requires Disciplined(t, fs)
    ensures var held := if Held(t) != 0 then 1 else 0;
            && LocksTaken(t, fs) >= LocksReleased(t) + held
            && (LocksTaken(t, fs) == LocksReleased(t) + held <==> !LeaksSomewhere(t, fs))
  {
    if t != [] {
      var n := |t| - 1;
      var p := t[..n];
      LeaksAddUp(p, fs);
      forall i | 0 <= i < n ensures t[..i] == p[..i] && t[i] == p[i] {}
      assert LeaksSomewhere(t, fs) <==> LeaksSomewhere(p, fs) || Leaks(p, t[n], fs) by {
        if i :| 0 <= i < |p| && Leaks(p[..i], p[i], fs) {
          assert Leaks(t[..i], t[i], fs);
        }
        if i :| 0 <= i < |t| && Leaks(t[..i], t[i], fs) && i < n {
          assert Leaks(p[..i], p[i], fs);
        }
      }
    }
  }

  // At the end every lock taken has been released if and only if no failing create_file left a locked file behind.
  lemma AllLocksReleased(t: Trace, fs: Files)
    requires Disciplined(t, fs) && Held(t) == 0
    ensures LocksTaken(t, fs) == LocksReleased(t) <==> !LeaksSomewhere(t, fs)
  {
    LeaksAddUp(t, fs);
  }

  // Nothing is skipped when every file can be opened and no line belongs to the null plugin, and nothing is dropped
  // when every stream is open.
  lemma {:induction false} NothingLost(t: Trace, fs: Files)
    requires Disciplined(t, fs)
    ensures (forall k :: fs.canOpen(k)) && (forall x :: x in Handled(t) ==> x.amx != 0) ==> SkippedLines(t) == []
    ensures (forall k :: fs.streamOpen(k)) ==> DroppedLines(t) == []
  {
    if t != [] {
      var e := t[|t| - 1];
      assert Handles(e) ==> e.line in Handled(t);
      assert forall x :: x in Handled(t[..|t| - 1]) ==> x in Handled(t);
      NothingLost(t[..|t| - 1], fs);
    }
  }
}
