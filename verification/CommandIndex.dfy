/**
  The command index of AMX Mod X (CCmd.cpp): linked lists of commands spliced in place, a cursor that getCmd keeps
  between calls, and the list of command prefixes.
*/
module CommandIndex {
  import Common

  // The part of a registered command that the index looks at.
  class Command {
    const command: string
    const argument: string
    const flags: bv32
    const listable: bool
    const id: int
    var prefix: nat

    constructor (command: string, argument: string, flags: bv32, listable: bool, id: int)
      ensures this.command == command && this.argument == argument && this.flags == flags
      ensures this.listable == listable && this.id == id && prefix == 0
    {
      this.command, this.argument, this.flags, this.listable, this.id := command, argument, flags, listable, id;
      prefix := 0;
    }

    predicate GotAccess(access: bv32) {
      flags == 0 || flags & access != 0
    }
  }

  // ---- Order ----

  // strcmp(s, t) < 0, for strings without NUL
  predicate Less(s: string, t: string) {
    t != [] && (s == [] || s[0] < t[0] || (s[0] == t[0] && Less(s[1..], t[1..])))
  }

  lemma {:induction false} LessIsTotal(s: string, t: string)
    ensures Less(s, t) || Less(t, s) || s == t
    ensures !(Less(s, t) && Less(t, s)) && !Less(s, s)
  {
    if s != [] && t != [] {
      LessIsTotal(s[1..], t[1..]);
      assert s == [s[0]] + s[1..] && t == [t[0]] + t[1..];
    }
    if s != [] {
      LessIsTotal(s[1..], s[1..]);
    }
  }

  lemma {:induction false} LessIsTransitive(s: string, t: string, u: string)
    requires Less(s, t) && Less(t, u)
    ensures Less(s, u)
  {
    if s != [] && s[0] == t[0] == u[0] {
      LessIsTransitive(s[1..], t[1..], u[1..]);
    }
  }

  // The strings agree up to k, where s ends or has the smaller character.
  ghost predicate Differ(s: string, t: string, k: nat) {
    k <= |s| && k < |t| && (forall j :: 0 <= j < k ==> s[j] == t[j]) && (k == |s| || s[k] < t[k])
  }

  // At their first difference s ends or has the smaller character.
  ghost predicate Precedes(s: string, t: string) {
    exists k :: Differ(s, t, k)
  }

  lemma {:induction false} FirstDifference(s: string, t: string) returns (k: nat)
    requires Less(s, t)
    ensures Differ(s, t, k)
  {
    k := 0;
    if s != [] && s[0] == t[0] {
      var n := FirstDifference(s[1..], t[1..]);
      k := n + 1;
      forall j | 0 <= j < k ensures s[j] == t[j] {
        assert j > 0 ==> s[1..][j - 1] == t[1..][j - 1];
      }
    }
  }

  lemma {:induction false} DifferIsLess(s: string, t: string, k: nat)
    requires Differ(s, t, k)
    ensures Less(s, t)
  {
    if k > 0 {
      DifferIsLess(s[1..], t[1..], k - 1);
    }
  }

  lemma LessMeans(s: string, t: string)
    ensures Less(s, t) <==> Precedes(s, t)
  {
    if Less(s, t) {
      var k := FirstDifference(s, t);
    }
    if k :| Differ(s, t, k) {
      DifferIsLess(s, t, k);
    }
  }

  // The insertion loop stops in front of d when inserting c.
  predicate Before(c: Command, d: Command) {
    Less(c.command, d.command) || (c.command == d.command && Less(c.argument, d.argument))
  }

  // The command decides, and between equal commands the argument.
  lemma BeforeMeans(c: Command, d: Command)
    ensures Before(c, d) <==>
            Precedes(c.command, d.command) || (c.command == d.command && Precedes(c.argument, d.argument))
    ensures Before(c, d) || Before(d, c) || (c.command == d.command && c.argument == d.argument)
  {
    LessMeans(c.command, d.command);
    LessMeans(c.argument, d.argument);
    LessIsTotal(c.command, d.command);
    LessIsTotal(c.argument, d.argument);
  }

  ghost predicate Sorted(s: seq<Command>) {
    forall i, j :: 0 <= i < j < |s| ==> !Before(s[j], s[i])
  }

  lemma BeforeIsOrder(c: Command, d: Command, e: Command)
    ensures !(Before(c, d) && Before(d, c))
    ensures Before(c, d) && !Before(e, d) ==> Before(c, e)
  {
    LessIsTotal(c.command, d.command);
    LessIsTotal(c.argument, d.argument);
    LessIsTotal(d.command, e.command);
    LessIsTotal(d.argument, e.argument);
    if Less(c.command, d.command) && Less(d.command, e.command) {
      LessIsTransitive(c.command, d.command, e.command);
    }
    if Less(c.argument, d.argument) && Less(d.argument, e.argument) {
      LessIsTransitive(c.argument, d.argument, e.argument);
    }
  }

  // What an ordered list looks like: going down it the command does not decrease, nor the argument of equal commands.
  lemma SortedMeans(s: seq<Command>)
    ensures Sorted(s) <==> forall i, j :: 0 <= i < j < |s| ==>
      || Precedes(s[i].command, s[j].command)
      || (s[i].command == s[j].command && (Precedes(s[i].argument, s[j].argument) || s[i].argument == s[j].argument))
  {
    forall i, j | 0 <= i < j < |s| ensures !Before(s[j], s[i]) <==>
      || Precedes(s[i].command, s[j].command)
      || (s[i].command == s[j].command && (Precedes(s[i].argument, s[j].argument) || s[i].argument == s[j].argument))
    {
      BeforeMeans(s[i], s[j]);
      BeforeMeans(s[j], s[i]);
      BeforeIsOrder(s[i], s[j], s[i]);
    }
  }

  // c put at position k
  function Inserted<T>(s: seq<T>, k: nat, c: T): (r: seq<T>)
    requires k <= |s|
    ensures |r| == |s| + 1 && r[k] == c
    ensures forall i :: 0 <= i < k ==> r[i] == s[i]
    ensures forall i :: k < i < |r| ==> r[i] == s[i - 1]
  {
    s[..k] + [c] + s[k..]
  }

  // The place of c in s: behind everything it is not before, in front of the first it is before.
  ghost predicate Place(s: seq<Command>, k: nat, c: Command) {
    && k <= |s|
    && (forall i :: 0 <= i < k ==> !Before(c, s[i]))
    && (k < |s| ==> Before(c, s[k]))
  }

  lemma InsertionKeepsOrder(s: seq<Command>, k: nat, c: Command)
    requires Sorted(s) && Place(s, k, c)
    ensures Sorted(Inserted(s, k, c))
    // it comes behind every command that compares equal to it
    ensures forall i :: k <= i < |s| ==> Before(c, s[i])
  {
    forall i | k <= i < |s| ensures Before(c, s[i]) {
      BeforeIsOrder(c, s[k], s[i]);
    }
    var r := Inserted(s, k, c);
    forall i, j | 0 <= i < j < |r| ensures !Before(r[j], r[i]) {
      assert r[i] == if i < k then s[i] else if i == k then c else s[i - 1];
      assert r[j] == if j < k then s[j] else if j == k then c else s[j - 1];
      BeforeIsOrder(c, r[j], c);
    }
  }

  // ---- Linked lists ----

  class CmdLink {
    const cmd: Command
    var next: CmdLink?

    constructor (cmd: Command)
      ensures this.cmd == cmd && next == null
    {
      this.cmd, next := cmd, null;
    }
  }

  // The i-th of some nodes, or the null that ends a list of them.
  ghost function At<T>(nodes: seq<T>, i: nat, end: T): T {
    if i < |nodes| then nodes[i] else end
  }

  ghost predicate Linked(head: CmdLink?, spine: seq<CmdLink>)
    reads spine
  {
    && head == At(spine, 0, null)
    && (forall i {:trigger spine[i].next} :: 0 <= i < |spine| ==> spine[i].next == At(spine, i + 1, null))
    && (forall i, j :: 0 <= i < j < |spine| ==> spine[i] != spine[j])
  }

  ghost function Commands(spine: seq<CmdLink>): (r: seq<Command>)
    ensures |r| == |spine|
  {
    seq(|spine|, i requires 0 <= i < |spine| => spine[i].cmd)
  }

  lemma InsertedCommands(spine: seq<CmdLink>, k: nat, np: CmdLink)
    requires k <= |spine|
    ensures Commands(Inserted(spine, k, np)) == Inserted(Commands(spine), k, np.cmd)
  {
  }

  class CmdList {
    var head: CmdLink?
    ghost var spine: seq<CmdLink>

    ghost predicate Valid()
      reads this, spine
    {
      Linked(head, spine)
    }

    ghost function Contents(): seq<Command>
      reads this
    {
      Commands(spine)
    }

    constructor ()
      ensures Valid() && spine == []
    {
      head, spine := null, [];
    }

    // The walk to the link after which c goes (null for the head); k is its position.
    method FindSlot(c: Command, sorted: bool) returns (prev: CmdLink?, next: CmdLink?, ghost k: nat)
      requires Valid()
      ensures k <= |spine| && next == At(spine, k, null) && prev == if k == 0 then null else spine[k - 1]
      ensures if sorted then Place(Contents(), k, c) else k == |spine|
    {
      prev, next := null, head;
      k := 0;
      while next != null
        invariant k <= |spine| && next == At(spine, k, null) && prev == if k == 0 then null else spine[k - 1]
        invariant sorted ==> forall i :: 0 <= i < k ==> !Before(c, spine[i].cmd)
        decreases |spine| - k
      {
        if sorted && Before(c, next.cmd) {
          break;
        }
        prev, next := next, next.next;
        k := k + 1;
      }
    }

    // Puts a new link between two neighbours, or in front of the first or behind the last.
    method Splice(np: CmdLink, prev: CmdLink?, next: CmdLink?, ghost k: nat)
      requires Valid() && np !in spine && np.next == null && k <= |spine|
      requires next == At(spine, k, null) && prev == if k == 0 then null else spine[k - 1]
      modifies this, spine, np
      ensures Valid() && spine == Inserted(old(spine), k, np)
    {
      spine := Inserted(spine, k, np);
      np.next := next;
      if prev == null {
        head := np;
      } else {
        prev.next := np;
      }
    }

    // Links a command: at its place in the order, or at the end.
    method SetCmdLink(c: Command, sorted: bool) returns (ghost k: nat)
      requires Valid()
      modifies this, spine
      ensures Valid() && k <= |old(spine)|
      ensures |spine| == |old(spine)| + 1 && fresh(spine[k]) && spine == Inserted(old(spine), k, spine[k])
      ensures Contents() == Inserted(old(Contents()), k, c)
      ensures if sorted then Place(old(Contents()), k, c) else k == |old(spine)|
    {
      var np := new CmdLink(c);
      var prev, next;
      prev, next, k := FindSlot(c, sorted);
      InsertedCommands(spine, k, np);
      Splice(np, prev, next, k);
    }
  }

  lemma InsertedMembers(s: seq<Command>, k: nat, c: Command)
    requires k <= |s|
    ensures multiset(Inserted(s, k, c)) == multiset(s) + multiset{c}
  {
    assert s == s[..k] + s[k..];
  }

  method LinkInOrder(l: CmdList, c: Command) returns (ghost k: nat)
    requires l.Valid() && Sorted(l.Contents())
    modifies l, l.spine
    ensures l.Valid() && k <= |old(l.spine)| && |l.spine| == |old(l.spine)| + 1 && fresh(l.spine[k])
    ensures l.spine == Inserted(old(l.spine), k, l.spine[k])
    ensures Sorted(l.Contents()) && multiset(l.Contents()) == multiset(old(l.Contents())) + multiset{c}
    ensures Place(old(l.Contents()), k, c) && l.Contents() == Inserted(old(l.Contents()), k, c)
  {
    ghost var s := l.Contents();
    k := l.SetCmdLink(c, true);
    InsertionKeepsOrder(s, k, c);
    InsertedMembers(s, k, c);
  }

  // s holds the first n of cs, each once, in order, and entries with the same keys in the order in which they came;
  // `from` says where they came from.
  ghost predicate Arranged(s: seq<Command>, cs: seq<Command>, n: nat, from: seq<nat>) {
    && n <= |cs| && |s| == |from| == n
    && (forall i :: 0 <= i < n ==> from[i] < n && s[i] == cs[from[i]])
    && (forall i, j :: 0 <= i < j < n ==> from[i] != from[j])
    && (forall i, j :: 0 <= i < j < n ==> Before(s[i], s[j]) || (!Before(s[j], s[i]) && from[i] < from[j]))
    && multiset(s) == multiset(cs[..n])
  }

  lemma ArrangedNext(s: seq<Command>, cs: seq<Command>, n: nat, from: seq<nat>, k: nat)
    requires Arranged(s, cs, n, from) && n < |cs| && Sorted(s) && Place(s, k, cs[n])
    ensures Arranged(Inserted(s, k, cs[n]), cs, n + 1, Inserted(from, k, n))
  {
    InsertionKeepsOrder(s, k, cs[n]);
    InsertedMembers(s, k, cs[n]);
    assert cs[..n + 1] == cs[..n] + [cs[n]];
  }

  lemma ArrangedMeans(s: seq<Command>, cs: seq<Command>, from: seq<nat>)
    requires Arranged(s, cs, |cs|, from)
    ensures multiset(s) == multiset(cs)
    ensures forall i, j :: 0 <= i < j < |s| ==>
      || Precedes(s[i].command, s[j].command)
      || (s[i].command == s[j].command && Precedes(s[i].argument, s[j].argument))
      || (s[i].command == s[j].command && s[i].argument == s[j].argument && from[i] < from[j])
  {
    assert cs[..|cs|] == cs;
    forall i, j | 0 <= i < j < |s| ensures
      || Precedes(s[i].command, s[j].command)
      || (s[i].command == s[j].command && Precedes(s[i].argument, s[j].argument))
      || (s[i].command == s[j].command && s[i].argument == s[j].argument && from[i] < from[j])
    {
      BeforeMeans(s[i], s[j]);
    }
  }

  method LinkNext(l: CmdList, cs: seq<Command>, n: nat, ghost from: seq<nat>) returns (ghost more: seq<nat>)
    requires l.Valid() && Sorted(l.Contents()) && n < |cs| && Arranged(l.Contents(), cs, n, from)
    modifies l, l.spine
    ensures l.Valid() && Sorted(l.Contents()) && Arranged(l.Contents(), cs, n + 1, more)
    ensures fresh(set np <- l.spine | np !in old(l.spine))
  {
    ghost var s := l.Contents();
    ghost var k := LinkInOrder(l, cs[n]);
    ArrangedNext(s, cs, n, from, k);
    more := Inserted(from, k, n);
  }

  // A list to which any commands are linked, one after the other, holds each of them once: by command, equal commands
  // by argument, and equal ones in linking order.
  method BuildSorted(cs: seq<Command>) returns (l: CmdList, ghost from: seq<nat>)
    ensures l.Valid() && |l.Contents()| == |from| == |cs| && multiset(l.Contents()) == multiset(cs)
    ensures forall i :: 0 <= i < |cs| ==> from[i] < |cs| && l.Contents()[i] == cs[from[i]]
    ensures forall i, j :: 0 <= i < j < |cs| ==> from[i] != from[j]
    ensures var s := l.Contents();
      forall i, j :: 0 <= i < j < |s| ==>
        || Precedes(s[i].command, s[j].command)
        || (s[i].command == s[j].command && Precedes(s[i].argument, s[j].argument))
        || (s[i].command == s[j].command && s[i].argument == s[j].argument && from[i] < from[j])
  {
    l := new CmdList();
    from := [];
    for i := 0 to |cs|
      invariant fresh(l) && fresh(l.spine) && l.Valid() && Sorted(l.Contents()) && Arranged(l.Contents(), cs, i, from)
    {
      from := LinkNext(l, cs, i, from);
    }
    ArrangedMeans(l.Contents(), cs, from);
  }

  // ---- Numbering what a caller may see ----

  // What getCmd and getCmdNum ask of an entry; executable stands for the states of the plugins.
  predicate Shown(c: Command, access: bv32, executable: Command -> bool) {
    c.GotAccess(access) && executable(c) && c.listable
  }

  // An entry is shown exactly when it is listable, its plugin runs it, and it asks for no right or for one that is
  // there.
  lemma ShownMeans(c: Command, access: bv32, executable: Command -> bool)
    ensures Shown(c, access, executable) <==>
            && c.listable && executable(c)
            && (c.flags == 0 || Common.ShareBit(c.flags, access))
  {
    Common.AndMeans(c.flags, access);
  }

  // The shown ones among the first n commands, in order.
  ghost function Visible(s: seq<Command>, n: nat, access: bv32, executable: Command -> bool): (r: seq<Command>)
    requires n <= |s|
  {
    if n == 0 then []
    else Visible(s, n - 1, access, executable) + if Shown(s[n - 1], access, executable) then [s[n - 1]] else []
  }

  lemma {:induction false} VisibleGrows(s: seq<Command>, m: nat, n: nat, access: bv32, executable: Command -> bool)
    requires m <= n <= |s|
    ensures Visible(s, m, access, executable) <= Visible(s, n, access, executable)
  {
    if m < n {
      VisibleGrows(s, m, n - 1, access, executable);
    }
  }

  // The id-th shown command.
  ghost function Nth(s: seq<Command>, id: nat, access: bv32, executable: Command -> bool): Command? {
    var v := Visible(s, |s|, access, executable);
    if id < |v| then v[id] else null
  }

  // The places of the shown entries, in the order of the list, are what the numbers from 0 on name.
  lemma {:induction false} Numbering(s: seq<Command>, n: nat, access: bv32, executable: Command -> bool)
    returns (at: seq<nat>)
    requires n <= |s|
    ensures forall i, j :: 0 <= i < j < |at| ==> at[i] < at[j]
    ensures forall k :: k in at <==>
      && 0 <= k < n && s[k].listable && executable(s[k])
      && (s[k].flags == 0 || Common.ShareBit(s[k].flags, access))
    ensures |at| == |Visible(s, n, access, executable)|
    ensures forall i :: 0 <= i < |at| ==> at[i] < n && Visible(s, n, access, executable)[i] == s[at[i]]
  {
    at := [];
    if n > 0 {
      at := Numbering(s, n - 1, access, executable);
      ShownMeans(s[n - 1], access, executable);
      if Shown(s[n - 1], access, executable) {
        at := at + [n - 1];
      }
    }
  }

  // The number id names the shown entry with id shown ones in front of it.
  lemma NumberNames(s: seq<Command>, access: bv32, executable: Command -> bool) returns (at: seq<nat>)
    ensures forall i, j :: 0 <= i < j < |at| ==> at[i] < at[j]
    ensures forall k :: k in at <==>
      && 0 <= k < |s| && s[k].listable && executable(s[k])
      && (s[k].flags == 0 || Common.ShareBit(s[k].flags, access))
    ensures forall id: nat :: Nth(s, id, access, executable) == null <==> id >= |at|
    ensures forall id: nat :: id < |at| ==> at[id] < |s| && Nth(s, id, access, executable) == s[at[id]]
  {
    at := Numbering(s, |s|, access, executable);
  }

  lemma FoundIsNth(s: seq<Command>, n: nat, access: bv32, executable: Command -> bool)
    requires n < |s| && Shown(s[n], access, executable)
    ensures Nth(s, |Visible(s, n, access, executable)|, access, executable) == s[n]
  {
    VisibleGrows(s, n + 1, |s|, access, executable);
  }

  // Position k has the first id shown entries behind it, or is the end of a list that has no more than those.
  ghost predicate Stands(s: seq<Command>, k: nat, id: int, access: bv32, executable: Command -> bool) {
    && k <= |s|
    && var seen := |Visible(s, k, access, executable)|;
       if k < |s| then seen == id else seen <= id
  }

  // The loop of getCmd, from the link at position k: `more` shown entries are passed before the wanted one.
  method Scan(ghost list: CmdList, first: CmdLink?, ghost k: nat, more: nat, access: bv32, executable: Command -> bool)
    returns (c: Command?, a: CmdLink?, ghost n: nat)
    requires list.Valid() && k <= |list.spine| && first == At(list.spine, k, null)
    ensures k <= n <= |list.spine| && a == At(list.spine, n, null)
    ensures var s, id := list.Contents(), |Visible(list.Contents(), k, access, executable)| + more;
            Stands(s, n, id, access, executable) && c == Nth(s, id, access, executable)
  {
    ghost var s := list.Contents();
    ghost var id := |Visible(s, k, access, executable)| + more;
    var left := more;
    a, n := first, k;
    while a != null
      invariant k <= n <= |s| && a == At(list.spine, n, null)
      invariant |Visible(s, n, access, executable)| + left == id
      decreases |s| - n
    {
      assert s[n] == a.cmd;
      if Shown(a.cmd, access, executable) {
        if left == 0 {
          FoundIsNth(s, n, access, executable);
          return a.cmd, a, n;
        }
        left := left - 1;
      }
      a, n := a.next, n + 1;
    }
    c := null;
  }

  // Going on from a cursor that stands at bufId finds what a fresh scan for id finds, and leaves it standing at id.
  lemma GoingOnIsFresh(s: seq<Command>, k: nat, n: nat, bufId: int, id: int, access: bv32, executable: Command -> bool)
    requires Stands(s, k, bufId, access, executable) && 0 <= bufId <= id && k <= n
    requires Stands(s, n, |Visible(s, k, access, executable)| + id - bufId, access, executable)
    ensures Stands(s, n, id, access, executable)
    ensures Nth(s, |Visible(s, k, access, executable)| + id - bufId, access, executable)
            == Nth(s, id, access, executable)
  {}

  // Two lists share no link.
  ghost predicate Apart(a: seq<CmdLink>, b: seq<CmdLink>) {
    forall i, j :: 0 <= i < |a| && 0 <= j < |b| ==> a[i] != b[j]
  }

  lemma StayApart(a: seq<CmdLink>, b: seq<CmdLink>, k: nat, np: CmdLink)
    requires Apart(a, b) && k <= |a| && np !in b
    ensures Apart(Inserted(a, k, np), b) && Apart(b, Inserted(a, k, np))
  {
    var r := Inserted(a, k, np);
    forall i | 0 <= i < |r| ensures r[i] == np || r[i] in a {}
  }

  datatype Request = Request(id: int, kind: int, access: bv32)

  class CmdMngr {
    const console: CmdList   // sortedlists[0], every command
    const client: CmdList    // sortedlists[1]
    const server: CmdList    // sortedlists[2]
    var bufId: int
    var bufType: int
    var bufAccess: bv32
    var bufPtr: CmdLink?
    ghost var pos: nat     // where bufPtr is in its list

    ghost predicate Valid()
      reads console, client, server, console.spine, client.spine, server.spine
    {
      && console.Valid() && client.Valid() && server.Valid()
      && console != client && console != server && client != server
      && Apart(console.spine, client.spine) && Apart(console.spine, server.spine) && Apart(client.spine, server.spine)
    }

    ghost predicate Ordered()
      reads console, client, server
    {
      Sorted(console.Contents()) && Sorted(client.Contents()) && Sorted(server.Contents())
    }

    function Begin(kind: int): CmdList
      requires 0 <= kind < 3
    {
      if kind == 0 then console else if kind == 1 then client else server
    }

    // The cursor points into the list it was set for, or past its end.
    ghost predicate Anchored()
      reads this, console, client, server
    {
      && (bufType == -1 || (0 <= bufType < 3 && 0 <= bufId))
      && (bufType != -1 ==> pos <= |Begin(bufType).spine| && bufPtr == At(Begin(bufType).spine, pos, null))
    }

    // It is what earlier calls left, the lists and the plugin states not having changed since.
    ghost predicate Cursor(executable: Command -> bool)
      reads this, console, client, server
    {
      && Anchored()
      && (bufType != -1 ==> Stands(Begin(bufType).Contents(), pos, bufId, bufAccess, executable))
    }

    constructor ()
      ensures Valid() && Ordered() && Anchored() && fresh(console) && fresh(client) && fresh(server)
      ensures bufId == bufType == -1 && bufAccess == 0
      ensures forall kind :: 0 <= kind < 3 ==> Begin(kind).spine == []
    {
      console := new CmdList();
      client := new CmdList();
      server := new CmdList();
      bufId, bufType, bufAccess, bufPtr, pos := -1, -1, 0, null, 0;
    }

    method ClearBufferedInfo()
      requires Valid()
      modifies this
      ensures Valid() && forall executable :: Cursor(executable)
    {
      bufId, bufType, bufAccess := -1, -1, 0;
    }

    // A non-negative number is answered as a fresh scan would; a negative one is the id of a command.
    ghost predicate Answers(c: Command?, r: Request, executable: Command -> bool)
      requires 0 <= r.kind < 3
      reads console, client, server
    {
      var s := Begin(r.kind).Contents();
      if r.id >= 0 then c == Nth(s, r.id, r.access, executable)
      else if c == null then forall d <- s :: d.id != r.id
      else c in s && c.id == r.id
    }

    method FindById(id: int, kind: int) returns (c: Command?)
      requires Valid() && 0 <= kind < 3
      ensures if c == null then forall d <- Begin(kind).Contents() :: d.id != id
              else c in Begin(kind).Contents() && c.id == id
    {
      var a := Begin(kind).head;
      ghost var spine := Begin(kind).spine;
      ghost var k := 0;
      while a != null
        invariant 0 <= k <= |spine| && a == At(spine, k, null)
        invariant forall i :: 0 <= i < k ==> spine[i].cmd.id != id
        decreases |spine| - k
      {
        if a.cmd.id == id {
          assert Commands(spine)[k] == a.cmd;
          return a.cmd;
        }
        a := a.next;
        k := k + 1;
      }
      return null;
    }

    // The cursor has to be set anew.
    predicate Restarts(r: Request)
      reads this
    {
      r.id < bufId || r.access != bufAccess || r.kind != bufType
    }

    // The number, counted from the front of the list, of the shown entry that a call finds.
    ghost function Wanted(r: Request, executable: Command -> bool): nat
      requires Anchored() && 0 <= r.kind < 3 && 0 <= r.id
      reads this, console, client, server
    {
      if Restarts(r) then r.id
      else |Visible(Begin(r.kind).Contents(), pos, r.access, executable)| + r.id - bufId
    }

    // Puts the cursor where the scan for r begins; `more` shown entries are then to be passed.
    method PlaceCursor(r: Request, ghost executable: Command -> bool) returns (more: nat)
      requires Anchored() && 0 <= r.kind < 3 && 0 <= r.id
      modifies this
      ensures bufType == r.kind && bufAccess == r.access && bufId == r.id
      ensures pos == if old(Restarts(r)) then 0 else old(pos)
      ensures more == if old(Restarts(r)) then r.id else r.id - old(bufId)
      ensures pos <= |Begin(r.kind).spine| && (Valid() ==> bufPtr == At(Begin(r.kind).spine, pos, null))
      ensures |Visible(Begin(r.kind).Contents(), pos, r.access, executable)| + more == old(Wanted(r, executable))
    {
      if r.id < bufId || r.access != bufAccess || r.kind != bufType {
        bufPtr, pos := Begin(r.kind).head, 0;
        bufAccess, bufType, bufId := r.access, r.kind, r.id;
        more := r.id;
      } else {
        more := r.id - bufId;
        bufId := r.id;
      }
    }

    // A call with a non-negative number finds the entry that counting on from the cursor gives.
    method CountOn(r: Request, executable: Command -> bool) returns (c: Command?)
      requires Valid() && Anchored() && 0 <= r.kind < 3 && 0 <= r.id
      modifies this
      ensures bufType == r.kind && bufAccess == r.access && bufId == r.id
      ensures pos <= |Begin(r.kind).spine| && bufPtr == At(Begin(r.kind).spine, pos, null)
      ensures c == Nth(Begin(r.kind).Contents(), old(Wanted(r, executable)), r.access, executable)
      ensures Stands(Begin(r.kind).Contents(), pos, old(Wanted(r, executable)), r.access, executable)
      ensures !old(Restarts(r)) ==> old(pos) <= pos
    {
      ghost var s, wanted := Begin(r.kind).Contents(), Wanted(r, executable);
      var more := PlaceCursor(r, executable);
      assert |Visible(s, pos, r.access, executable)| + more == wanted;
      c, bufPtr, pos := Scan(Begin(r.kind), bufPtr, pos, more, r.access, executable);
    }

    // Without changes since the last call the answer is that of a fresh scan.  In general it is the entry that counting
    // on from the cursor finds.
    method GetCmd(r: Request, executable: Command -> bool) returns (c: Command?)
      requires Valid() && Anchored() && 0 <= r.kind < 3
      modifies this
      ensures Valid() && Anchored()
      ensures r.id >= 0 ==> c == Nth(Begin(r.kind).Contents(), old(Wanted(r, executable)), r.access, executable)
      ensures old(Cursor(executable)) || (r.id >= 0 && old(Restarts(r))) ==>
        Cursor(executable) && Answers(c, r, executable)
    {
      if r.id < 0 {
        c := FindById(r.id, r.kind);
        return;
      }
      ghost var k, was, going := pos, bufId, Cursor(executable) && !Restarts(r);
      ghost var s := Begin(r.kind).Contents();
      c := CountOn(r, executable);
      if going {
        GoingOnIsFresh(s, k, pos, was, r.id, r.access, executable);
      }
    }

    // setCmdLink on one of the sorted lists
    method LinkAt(kind: int, c: Command) returns (ghost k: nat)
      requires Valid() && 0 <= kind < 3
      modifies Begin(kind), Begin(kind).spine
      ensures Valid() && k <= |old(Begin(kind).spine)| && k < |Begin(kind).spine|
      ensures Begin(kind).spine == Inserted(old(Begin(kind).spine), k, Begin(kind).spine[k])
      ensures Begin(kind).Contents() == Inserted(old(Begin(kind).Contents()), k, c)
      ensures Place(old(Begin(kind).Contents()), k, c)
    {
      var l := Begin(kind);
      ghost var m1, m2 := if kind == 0 then client else console, if kind == 2 then client else server;
      ghost var was := l.spine;
      assert Apart(was, m1.spine) && Apart(was, m2.spine) && Apart(m1.spine, m2.spine);
      k := l.SetCmdLink(c, true);
      assert m1.Valid() && m2.Valid();
      StayApart(was, m1.spine, k, l.spine[k]);
      StayApart(was, m2.spine, k, l.spine[k]);
    }

    // The lists that getCmd numbers stay sorted, and the cursor stays at the link it points to.
    method Link(kind: int, c: Command) returns (ghost k: nat)
      requires Valid() && Ordered() && Anchored() && 0 <= kind < 3
      modifies this`pos, Begin(kind), Begin(kind).spine
      ensures Valid() && Ordered() && Anchored() && Place(old(Begin(kind).Contents()), k, c)
      ensures k <= |old(Begin(kind).spine)| && Begin(kind).Contents() == Inserted(old(Begin(kind).Contents()), k, c)
    {
      ghost var s := Begin(kind).Contents();
      k := LinkAt(kind, c);
      InsertionKeepsOrder(s, k, c);
      if kind == bufType && k <= pos {
        pos := pos + 1;
      }
    }

    method GetCmdNum(kind: int, access: bv32, executable: Command -> bool) returns (num: nat)
      requires Valid() && 0 <= kind < 3
      ensures num == |Visible(Begin(kind).Contents(), |Begin(kind).spine|, access, executable)|
      // exactly the numbers below it name a command
      ensures forall id: nat :: Nth(Begin(kind).Contents(), id, access, executable) != null <==> id < num
    {
      var a := Begin(kind).head;
      ghost var spine := Begin(kind).spine;
      ghost var k := 0;
      num := 0;
      while a != null
        invariant 0 <= k <= |spine| && a == At(spine, k, null)
        invariant num == |Visible(Commands(spine), k, access, executable)|
        decreases |spine| - k
      {
        if Shown(a.cmd, access, executable) {
          num := num + 1;
        }
        a := a.next;
        k := k + 1;
      }
    }

    // Any sequence of calls answers each request as a fresh scan would.
    method GetCmds(requests: seq<Request>, executable: Command -> bool) returns (answers: seq<Command?>)
      requires Valid() && Cursor(executable) && forall r <- requests :: 0 <= r.kind < 3
      modifies this
      ensures Valid() && Cursor(executable) && |answers| == |requests|
      ensures forall i :: 0 <= i < |requests| ==> Answers(answers[i], requests[i], executable)
    {
      answers := [];
      for i := 0 to |requests|
        invariant Valid() && Cursor(executable) && |answers| == i
        invariant forall j :: 0 <= j < i ==> Answers(answers[j], requests[j], executable)
      {
        var c := GetCmd(requests[i], executable);
        answers := answers + [c];
      }
    }
  }

  // ---- Prefixes ----

  // strncmp(name, nn, strlen(name)) == 0
  predicate Begins(nn: string, name: string) {
    name <= nn
  }

  lemma BeginsMeans(nn: string, name: string)
    ensures Begins(nn, name) <==> exists rest :: nn == name + rest
  {
    if Begins(nn, name) {
      assert nn == name + nn[|name|..];
    }
  }

  // No name is empty, and none begins with an earlier one.
  ghost predicate Independent(names: seq<string>) {
    && (forall i, j :: 0 <= i < j < |names| ==> !Begins(names[j], names[i]))
    && (forall i :: 0 <= i < |names| ==> names[i] != "")
  }

  // k is where the search for nn ends: at the first name that nn begins with, or at the end.
  ghost predicate FirstMatch(names: seq<string>, k: nat, nn: string) {
    && k <= |names|
    && (forall i :: 0 <= i < k ==> !Begins(nn, names[i]))
    && (k < |names| ==> Begins(nn, names[k]))
  }

  lemma PrefixesNest(s: string, t: string, whole: string)
    requires Begins(whole, s) && Begins(whole, t)
    ensures Begins(t, s) || |t| < |s|
  {
    assert forall j :: 0 <= j < |s| && j < |t| ==> s[j] == whole[j] == t[j];
  }

  // The first match is the longest name that nn begins with.
  lemma FirstIsLongest(names: seq<string>, k: nat, nn: string)
    requires Independent(names) && FirstMatch(names, k, nn)
    ensures k == |names| <==> forall i :: 0 <= i < |names| ==> !Begins(nn, names[i])
    ensures forall i :: 0 <= i < |names| && i != k && Begins(nn, names[i]) ==> |names[i]| < |names[k]|
  {
    forall i | 0 <= i < |names| && i != k && Begins(nn, names[i]) ensures |names[i]| < |names[k]| {
      PrefixesNest(names[k], names[i], nn);
    }
  }

  lemma NewNameIsIndependent(names: seq<string>, nn: string)
    requires Independent(names) && FirstMatch(names, |names|, nn) && nn != ""
    ensures Independent(names + [nn])
  {
    var more := names + [nn];
    forall i, j | 0 <= i < j < |more| ensures !Begins(more[j], more[i]) {
      assert more[i] == names[i];
    }
  }

  class CmdPrefix {
    const name: string
    var list: seq<Command>   // a list of the unsorted kind above, seen as its contents
    var next: CmdPrefix?

    constructor (name: string)
      ensures this.name == name && next == null && list == []
    {
      this.name, next, list := name, null, [];
    }
  }

  ghost function NamesOf(spine: seq<CmdPrefix>): (r: seq<string>)
    ensures |r| == |spine| && forall i :: 0 <= i < |r| ==> r[i] == spine[i].name
  {
    seq(|spine|, i requires 0 <= i < |spine| => spine[i].name)
  }

  class PrefixTable {
    var prefixHead: CmdPrefix?
    ghost var spine: seq<CmdPrefix>

    ghost predicate Linked()
      reads this`prefixHead, this`spine, spine`next
    {
      && prefixHead == At(spine, 0, null)
      && (forall i {:trigger spine[i].next} :: 0 <= i < |spine| ==> spine[i].next == At(spine, i + 1, null))
      && (forall i, j :: 0 <= i < j < |spine| ==> spine[i] != spine[j])
    }

    ghost function Names(): seq<string>
      reads this`spine
    {
      NamesOf(spine)
    }

    constructor ()
      ensures Linked() && Names() == [] && Independent(Names())
    {
      prefixHead, spine := null, [];
    }

    // The slot that findPrefix returns: the link p, or the end; last is the link before it.
    method FindPrefix(nn: string) returns (p: CmdPrefix?, last: CmdPrefix?, ghost k: nat)
      requires Linked()
      ensures FirstMatch(Names(), k, nn)
      // in front of it there is no prefix that nn consists of with something behind it
      ensures forall i :: 0 <= i < |spine| && i < k ==> !exists rest :: nn == spine[i].name + rest
      ensures k < |spine| ==> exists rest :: nn == spine[k].name + rest
      ensures p == At(spine, k, null) && last == if k == 0 then null else spine[k - 1]
    {
      p, last, k := prefixHead, null, 0;
      while p != null && !Begins(nn, p.name)
        invariant k <= |spine| && p == At(spine, k, null) && last == if k == 0 then null else spine[k - 1]
        invariant forall i :: 0 <= i < k ==> !Begins(nn, spine[i].name)
        decreases |spine| - k
      {
        last, p := p, p.next;
        k := k + 1;
      }
      forall i | 0 <= i < |spine| {
        BeginsMeans(nn, spine[i].name);
      }
    }

    // An empty name, or one that begins with a registered one, is ignored; any other goes to the end.
    method RegisterPrefix(nn: string)
      requires Linked() && Independent(Names())
      modifies this, spine`next
      ensures Linked() && Independent(Names())
      ensures
        if nn == "" || exists i, rest :: 0 <= i < |old(Names())| && nn == old(Names())[i] + rest
        then spine == old(spine)
        else Names() == old(Names()) + [nn] && old(spine) <= spine
             && fresh(spine[|spine| - 1]) && spine[|spine| - 1].list == []
    {
      if |nn| == 0 {
        return;
      }
      var b, last;
      ghost var k;
      b, last, k := FindPrefix(nn);
      if b != null {
        assert exists rest :: nn == Names()[k] + rest;
        return;
      }
      ghost var was := spine;
      var p := new CmdPrefix(nn);
      NewNameIsIndependent(Names(), nn);
      spine := was + [p];
      assert Names() == NamesOf(was) + [nn];
      if last == null {
        prefixHead := p;
      } else {
        last.next := p;
      }
    }

    // Appends the command to the list of the longest prefix it begins with.
    method RegisterCmdPrefix(cc: Command) returns (ok: bool, ghost k: nat)
      requires Linked() && Independent(Names())
      modifies cc`prefix, spine`list
      ensures Linked() && FirstMatch(Names(), k, cc.command)
      ensures ok <==> exists i, rest :: 0 <= i < |spine| && cc.command == spine[i].name + rest
      ensures ok <==> k < |spine|
      ensures ok ==> cc.prefix == |spine[k].name| && spine[k].list == old(spine[k].list) + [cc]
      // of all the prefixes the command begins with, the k-th is the longest
      ensures forall i :: 0 <= i < |spine| && i != k && Begins(cc.command, spine[i].name) ==>
        k < |spine| && |spine[i].name| < |spine[k].name|
      ensures !ok ==> cc.prefix == old(cc.prefix)
      ensures forall i :: 0 <= i < |spine| && i != k ==> spine[i].list == old(spine[i].list)
    {
      var p, last;
      p, last, k := FindPrefix(cc.command);
      FirstIsLongest(Names(), k, cc.command);
      ok := p != null;
      if ok {
        p.list := p.list + [cc];
        cc.prefix := |p.name|;
      }
    }
  }
}
