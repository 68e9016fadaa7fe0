/**
  The query manager never gets stuck: from every reachable state some continuation of the run deletes any given async
  query.  Each query has a rank that says how far it is from its deletion, and the continuation lowers the sum of them.
*/
module QueryProgress {
  import opened QueryProtocol
  import opened QueryInvariant

  // ---- The order of a poll ----

  // The ids below n of priority number pri, in ascending order.
  function OfPriority(queries: map<nat, Query>, pri: nat, n: nat): seq<nat> {
    if n == 0 then []
    else OfPriority(queries, pri, n - 1) + if n - 1 in queries && queries[n - 1].pri == pri then [n - 1] else []
  }

  // The ids below n of the first p priorities, one priority after the other.
  function PollOrder(queries: map<nat, Query>, p: nat, n: nat): seq<nat> {
    if p == 0 then [] else PollOrder(queries, p - 1, n) + OfPriority(queries, p - 1, n)
  }

  lemma {:induction false} OfPriorityAscends(queries: map<nat, Query>, pri: nat, n: nat)
    ensures var r := OfPriority(queries, pri, n);
            && (forall i, j :: 0 <= i < j < |r| ==> r[i] < r[j])
            && (forall id :: id in r <==> id < n && id in queries && queries[id].pri == pri)
  {
    if n > 0 {
      OfPriorityAscends(queries, pri, n - 1);
      var r := OfPriority(queries, pri, n - 1);
      forall i | 0 <= i < |r| ensures r[i] < n - 1 { assert r[i] in r; }
    }
  }

  lemma {:induction false} PollOrderAscends(queries: map<nat, Query>, p: nat, n: nat)
    ensures var r := PollOrder(queries, p, n);
            && (forall id :: id in r <==> id < n && id in queries && queries[id].pri < p)
            && (forall i, j :: 0 <= i < j < |r| ==>
                  var a, b := queries[r[i]].pri, queries[r[j]].pri; a < b || (a == b && r[i] < r[j]))
  {
    if p > 0 {
      PollOrderAscends(queries, p - 1, n);
      OfPriorityAscends(queries, p - 1, n);
      var r, u := PollOrder(queries, p - 1, n), OfPriority(queries, p - 1, n);
      forall i | 0 <= i < |r| ensures r[i] in queries && queries[r[i]].pri < p - 1 { assert r[i] in r; }
      forall i | 0 <= i < |u| ensures u[i] in queries && queries[u[i]].pri == p - 1 { assert u[i] in u; }
    }
  }

  lemma PollOrderScans(queries: map<nat, Query>, n: nat)
    requires forall id :: id in queries ==> id < n && queries[id].pri <= MAX_QUERY_PRIORITY
    ensures ScanOrder(queries, PollOrder(queries, MAX_QUERY_PRIORITY + 1, n))
  {
    PollOrderAscends(queries, MAX_QUERY_PRIORITY + 1, n);
    var r := PollOrder(queries, MAX_QUERY_PRIORITY + 1, n);
    forall i | 0 <= i < |r| ensures r[i] in queries { assert r[i] in r; }
  }

  lemma ReachablePollOrder(maxThreads: nat, s: State)
    requires Reachable(maxThreads, s)
    ensures ScanOrder(s.queries, PollOrder(s.queries, MAX_QUERY_PRIORITY + 1, s.nextId))
  {
    ReachableInv(maxThreads, s);
    InvPollOrder(s);
  }

  lemma InvPollOrder(s: State)
    requires QueriesOk(s)
    ensures ScanOrder(s.queries, PollOrder(s.queries, MAX_QUERY_PRIORITY + 1, s.nextId))
  {
    forall k | k in s.queries ensures k < s.nextId && s.queries[k].pri <= MAX_QUERY_PRIORITY {
      assert QueryOk(s, k);
    }
    PollOrderScans(s.queries, s.nextId);
  }

  // ---- Ranks ----

  function Rank(s: State, id: nat): nat {
    if id !in s.queries || !s.queries[id].async || id in s.poller.fins then 0
    else
      var q := s.queries[id];
      match q.place
      case Waiting => 7
      case Selected => 6
      case AtWorker(t) => if t in s.workers && s.workers[t].Deciding? then (if q.successful then 4 else 9) else 5
      case Queued => 3
      case AtFrame => 2
      case Done => if q.successful then 1 else 8
      case Sync => 0
  }

  function RankSum(s: State, n: nat): nat {
    if n == 0 then 0 else RankSum(s, n - 1) + Rank(s, n - 1)
  }

  function Work(s: State): nat { RankSum(s, s.nextId) }

  // No rank grows, and the same queries are stored, or fewer of them.
  ghost predicate Onward(s: State, s': State) {
    && s'.nextId == s.nextId && s'.maxThreads == s.maxThreads
    && (forall id :: id in s'.queries ==> id in s.queries && s'.queries[id].async == s.queries[id].async)
    && (forall id: nat :: Rank(s', id) <= Rank(s, id))
  }

  lemma {:induction false} RanksShrink(s: State, s': State, n: nat)
    requires forall id: nat :: Rank(s', id) <= Rank(s, id)
    ensures RankSum(s', n) <= RankSum(s, n)
    ensures forall x: nat :: x < n && Rank(s', x) < Rank(s, x) ==> RankSum(s', n) < RankSum(s, n)
  {
    if n > 0 {
      RanksShrink(s, s', n - 1);
    }
  }

  // ---- Steps towards rest ----

  // The length of the list that the poller is going through.
  function Left(p: Poller): nat {
    match p.phase
    case Idle => 0
    case Scan => |p.todo|
    case Start => |p.starts|
    case Clean => |p.fins|
    case Join => |p.joins|
  }

  function PhasesLeft(p: Poller): nat {
    match p.phase
    case Idle => 0
    case Scan => 4
    case Start => 3
    case Clean => 2
    case Join => 1
  }

  function Due(s: State): nat { if s.frame.FrameLeaving? then 1 else 0 }

  ghost predicate Closer(s: State, s': State) {
    || Work(s') < Work(s)
    || (Work(s') == Work(s)
        && (|| |s'.workers| < |s.workers|
            || (|s'.workers| == |s.workers|
                && (|| Due(s') < Due(s)
                    || (Due(s') == Due(s)
                        && (|| PhasesLeft(s'.poller) < PhasesLeft(s.poller)
                            || (PhasesLeft(s'.poller) == PhasesLeft(s.poller) && Left(s'.poller) < Left(s.poller))))))))
  }

  // A step that lowers the rank of x and raises none.
  lemma Lowers(s: State, s': State, x: nat)
    requires Onward(s, s') && x < s.nextId && Rank(s', x) < Rank(s, x)
    ensures Work(s') < Work(s)
  {
    RanksShrink(s, s', s.nextId);
  }

  lemma KeepsWork(s: State, s': State)
    requires Onward(s, s') && forall id: nat :: Rank(s', id) == Rank(s, id)
    ensures Work(s') == Work(s)
  {
    RanksShrink(s, s', s.nextId);
    RanksShrink(s', s, s.nextId);
  }

  lemma ExecOnward(s: State, t: nat)
    requires Shape(s) && t in s.workers && s.workers[t].Executing?
    ensures var s' := Apply(s, WorkerExec(t, true, false));
            Onward(s, s') && Work(s') < Work(s)
  {
    var id := s.workers[t].q;
    var s' := Apply(s, WorkerExec(t, true, false));
    assert QueryOk(s, id) && s.queries[id].place == AtWorker(t) && id !in s.poller.fins;
    forall k: nat | k != id ensures Rank(s', k) == Rank(s, k) {}
    Lowers(s, s', id);
  }

  lemma DecideOnward(s: State, t: nat)
    requires Shape(s) && t in s.workers && s.workers[t].Deciding?
    ensures var s' := Apply(s, WorkerDecide(t));
            Onward(s, s') && Work(s') < Work(s)
  {
    var id := s.workers[t].q;
    var s' := Apply(s, WorkerDecide(t));
    assert QueryOk(s, id) && s.queries[id].place == AtWorker(t) && id !in s.poller.fins;
    forall k: nat | k != id ensures Rank(s', k) == Rank(s, k) {}
    Lowers(s, s', id);
  }

  lemma CountOnward(s: State, t: nat)
    requires Shape(s) && t in s.workers && s.workers[t].Leaving?
    ensures var s' := Apply(s, WorkerCount(t)); Onward(s, s') && Closer(s, s')
  {
    var s' := Apply(s, WorkerCount(t));
    forall id: nat ensures Rank(s', id) == Rank(s, id) {}
    KeepsWork(s, s');
    assert s'.workers.Keys == s.workers.Keys - {t};
    assert |s'.workers| == |s'.workers.Keys| && |s.workers| == |s.workers.Keys|;
  }

  // A worker's next step; the execution succeeds, without a callback.
  lemma WorkerStep(s: State, t: nat) returns (a: Action)
    requires Shape(s) && t in s.workers
    ensures Enabled(s, a) && Onward(s, Apply(s, a)) && Closer(s, Apply(s, a))
  {
    match s.workers[t]
    case Executing(id) =>
      a := WorkerExec(t, true, false);
      ExecOnward(s, t);
    case Deciding(id) =>
      a := WorkerDecide(t);
      DecideOnward(s, t);
    case Leaving =>
      a := WorkerCount(t);
      CountOnward(s, t);
  }

  lemma {:induction false} SomeOldest(s: State, xs: seq<nat>) returns (id: nat)
    requires xs != [] && forall k :: k in xs ==> k in s.queries
    ensures id in xs && forall k :: k in xs ==> s.queries[id].timeCreate <= s.queries[k].timeCreate
  {
    id := xs[0];
    if |xs| > 1 {
      var other := SomeOldest(s, xs[1..]);
      assert xs == [xs[0]] + xs[1..];
      if s.queries[other].timeCreate < s.queries[id].timeCreate {
        id := other;
      }
    }
  }

  lemma TakeOnward(s: State, id: nat)
    requires Shape(s) && Enabled(s, FrameTake(id))
    ensures var s' := Apply(s, FrameTake(id)); Onward(s, s') && Work(s') < Work(s)
  {
    var s' := Apply(s, FrameTake(id));
    assert QueryOk(s, id) && s.queries[id].place == Queued && id !in s.poller.fins;
    forall k: nat | k != id ensures Rank(s', k) == Rank(s, k) {}
    Lowers(s, s', id);
  }

  lemma FinishOnward(s: State)
    requires Shape(s) && s.frame.Holding?
    ensures var s' := Apply(s, FrameFinish); Onward(s, s') && Work(s') < Work(s)
  {
    var id := s.frame.q;
    var s' := Apply(s, FrameFinish);
    assert QueryOk(s, id) && s.queries[id].place == AtFrame && id !in s.poller.fins;
    forall k: nat | k != id ensures Rank(s', k) == Rank(s, k) {}
    Lowers(s, s', id);
  }

  lemma FrameCountOnward(s: State)
    requires s.frame.FrameLeaving?
    ensures var s' := Apply(s, FrameCount); Onward(s, s') && Closer(s, s')
  {
    forall k: nat ensures Rank(Apply(s, FrameCount), k) == Rank(s, k) {}
    KeepsWork(s, Apply(s, FrameCount));
  }

  // The frame's next step.
  lemma FrameStep(s: State) returns (a: Action)
    requires Shape(s) && (!s.frame.FrameIdle? || s.frames != [])
    ensures Enabled(s, a) && Onward(s, Apply(s, a)) && Closer(s, Apply(s, a))
  {
    match s.frame
    case Holding(id) =>
      a := FrameFinish;
      FinishOnward(s);
    case FrameLeaving =>
      a := FrameCount;
      FrameCountOnward(s);
    case FrameIdle =>
      var id := SomeOldest(s, s.frames);
      a := FrameTake(id);
      TakeOnward(s, id);
  }

  // What the scan does with the query it visits lowers its rank, if it is async, and touches no other.
  ghost predicate Treats(s: State, s': State, id: nat)
    requires id in s.queries
  {
    && Onward(s, s') && s'.workers == s.workers && s'.frame == s.frame && s'.frames == s.frames
    && s'.poller.phase == s.poller.phase && s'.poller.todo == s.poller.todo
    && (forall k: nat :: k != id ==> Rank(s', k) == Rank(s, k))
    && (s.queries[id].async ==> Rank(s', id) < Rank(s, id))
  }

  lemma RetryTreats(s: State, id: nat)
    requires id in s.queries && QueryOk(s, id) && id !in s.poller.fins
    requires s.queries[id].finished && MayRetry(s.queries[id])
    ensures Treats(s, Retry(s, id), id)
  {}

  lemma RetireTreats(s: State, id: nat)
    requires id in s.queries && QueryOk(s, id) && id !in s.poller.fins && s.queries[id].finished
    ensures Treats(s, Retire(s, id), id)
  {
    var s' := Retire(s, id);
    forall k: nat | k != id ensures Rank(s', k) == Rank(s, k) {
      assert k in s'.poller.fins <==> k in s.poller.fins;
    }
  }

  lemma SelectTreats(s: State, id: nat)
    requires id in s.queries && QueryOk(s, id) && id !in s.poller.fins
    requires !s.queries[id].finished && MaySelect(s, s.queries[id])
    ensures Treats(s, Select(s, id), id)
  {}

  // A step of the scan raises no rank, and lowers that of an async query that it does something with.
  lemma ScanOnward(s: State)
    requires Shape(s) && Enabled(s, ScanOne)
    ensures var s', id := Apply(s, ScanOne), s.poller.todo[0];
            && Onward(s, s') && s'.workers == s.workers && s'.frame == s.frame && s'.frames == s.frames
            && s'.poller.phase == Scan && s'.poller.todo == s.poller.todo[1..]
            && (s.queries[id].async && (s.queries[id].finished || MaySelect(s, s.queries[id])) ==>
                  Rank(s', id) < Rank(s, id) && s'.nextId > id)
  {
    var v, id := Visit(s), s.poller.todo[0];
    assert id in s.poller.todo;
    assert QueryOk(s, id);
    forall k: nat ensures Rank(v, k) == Rank(s, k) {}
    assert QueryOk(v, id);
    var q := s.queries[id];
    if q.finished {
      if MayRetry(q) {
        RetryTreats(v, id);
      } else {
        RetireTreats(v, id);
      }
    } else if MaySelect(v, q) {
      SelectTreats(v, id);
    }
  }

  // A thread id that is nowhere in use.
  lemma {:induction false} FreshId(used: set<nat>) returns (t: nat)
    ensures t !in used && forall u :: u in used ==> u < t
    decreases |used|
  {
    if used == {} {
      t := 0;
    } else {
      var u :| u in used;
      var r := FreshId(used - {u});
      t := if u < r then r else u + 1;
      forall w | w in used ensures w < t {
        assert w == u || w in used - {u};
      }
    }
  }

  lemma LaunchOnward(s: State, t: nat)
    requires Shape(s) && Enabled(s, LaunchOne(t))
    ensures var s' := Apply(s, LaunchOne(t)); Onward(s, s') && Work(s') < Work(s)
  {
    var id := s.poller.starts[0];
    var s' := Apply(s, LaunchOne(t));
    assert id in s.poller.starts;
    assert QueryOk(s, id) && s.queries[id].place == Selected && id !in s.poller.fins;
    forall k: nat | k != id ensures Rank(s', k) == Rank(s, k) {}
    Lowers(s, s', id);
  }

  lemma CleanOnward(s: State)
    requires Shape(s) && Enabled(s, CleanOne)
    ensures var s' := Apply(s, CleanOne); Onward(s, s') && Work(s') == Work(s) && Closer(s, s')
  {
    var id := s.poller.fins[0];
    var s' := Apply(s, CleanOne);
    assert id in s.poller.fins;
    forall k: nat ensures Rank(s', k) == Rank(s, k) {
      assert k in s'.poller.fins ==> k in s.poller.fins;
      assert k in s.poller.fins && k != id ==> k in s'.poller.fins;
    }
    KeepsWork(s, s');
  }

  lemma ScanCloser(s: State)
    requires Shape(s) && Enabled(s, ScanOne)
    ensures Closer(s, Apply(s, ScanOne))
  {
    ScanOnward(s);
    RanksShrink(s, Apply(s, ScanOne), s.nextId);
  }

  // The step between two loops, or one that joins a thread.
  function LoopEnd(p: Poller): Action {
    match p.phase
    case Scan => EndScan
    case Start => EndStart
    case Clean => EndClean
    case _ => if p.joins != [] then JoinOne else EndJoin
  }

  lemma LoopEndOnward(s: State)
    requires s.poller.phase != Idle && Enabled(s, LoopEnd(s.poller))
    ensures var s' := Apply(s, LoopEnd(s.poller)); Onward(s, s') && Closer(s, s')
  {
    var s' := Apply(s, LoopEnd(s.poller));
    forall k: nat ensures Rank(s', k) == Rank(s, k) {}
    KeepsWork(s, s');
  }

  // The poller's next step, while no worker is left.
  lemma PollerMoves(s: State) returns (a: Action)
    requires Shape(s) && s.poller.phase != Idle && s.workers == map[]
    ensures Enabled(s, a) && Onward(s, Apply(s, a)) && Closer(s, Apply(s, a))
  {
    var p := s.poller;
    if p.phase == Scan && p.todo != [] {
      a := ScanOne;
      ScanOnward(s);
      ScanCloser(s);
    } else if p.phase == Start && p.starts != [] {
      var t := FreshId(s.threads + (set x | x in p.joins));
      a := LaunchOne(t);
      LaunchOnward(s, t);
    } else if p.phase == Clean && p.fins != [] {
      a := CleanOne;
      CleanOnward(s);
    } else {
      a := LoopEnd(p);
      LoopEndOnward(s);
    }
  }

  // ---- Runs ----

  ghost predicate CanReach(s: State, s': State) {
    exists run :: Leads(s, run, s')
  }

  lemma {:induction false} LeadsOn(s: State, first: seq<Action>, m: State, then': seq<Action>, s': State)
    requires Leads(s, first, m) && Leads(m, then', s')
    ensures Leads(s, first + then', s')
    decreases |then'|
  {
    if then' == [] {
      assert first + then' == first;
    } else {
      var n := |then'| - 1;
      var r :| Leads(m, then'[..n], r) && Enabled(r, then'[n]) && s' == Apply(r, then'[n]);
      LeadsOn(s, first, m, then'[..n], r);
      LeadsNext(s, first + then'[..n], r, then'[n], s');
      assert (first + then'[..n]) + [then'[n]] == first + then';
    }
  }

  lemma ReachOn(s: State, m: State, s': State)
    requires CanReach(s, m) && CanReach(m, s')
    ensures CanReach(s, s')
  {
    var first :| Leads(s, first, m);
    var then' :| Leads(m, then', s');
    LeadsOn(s, first, m, then', s');
  }

  lemma ReachStep(s: State, a: Action)
    requires Enabled(s, a)
    ensures CanReach(s, s) && CanReach(s, Apply(s, a))
  {
    assert Leads(s, [], s);
    LeadsNext(s, [], s, a, Apply(s, a));
  }

  ghost predicate Quiet(s: State) {
    s.poller.phase == Idle && s.workers == map[] && s.frame.FrameIdle? && s.frames == []
  }

  lemma StepTowardsRest(s: State) returns (a: Action)
    requires Inv(s) && !Quiet(s)
    ensures Enabled(s, a) && Onward(s, Apply(s, a)) && Closer(s, Apply(s, a))
  {
    if s.workers != map[] {
      var t :| t in s.workers;
      a := WorkerStep(s, t);
    } else if !s.frame.FrameIdle? || s.frames != [] {
      a := FrameStep(s);
    } else {
      a := PollerMoves(s);
    }
  }

  // Letting everything come to rest is possible, and raises no rank.
  lemma {:induction false} Settle(s: State) returns (s': State)
    requires Inv(s)
    ensures Inv(s') && Quiet(s') && CanReach(s, s') && Onward(s, s')
    decreases Work(s), |s.workers|, Due(s), PhasesLeft(s.poller), Left(s.poller)
  {
    if Quiet(s) {
      s' := s;
      assert Leads(s, [], s);
    } else {
      var a := StepTowardsRest(s);
      var m := Apply(s, a);
      StepKeepsInv(s, a);
      ReachStep(s, a);
      s' := Settle(m);
      ReachOn(s, m, s');
    }
  }

  // ---- A poll from rest gets something done ----

  // Nothing runs, and nothing has been selected yet.
  ghost predicate Calm(s: State) {
    s.workers == map[] && s.frame.FrameIdle? && s.frames == [] && s.poller.starts == []
  }

  lemma CalmHasRoom(s: State, id: nat)
    requires Inv(s) && Calm(s) && s.maxThreads > 0 && id in s.queries && s.queries[id].async
    ensures s.queries[id].finished || MaySelect(s, s.queries[id])
  {
    assert QueryOk(s, id);
    forall k | k in s.queries ensures !Runs(s, k) {
      assert QueryOk(s, k);
    }
    assert Running(s, 0) == {};
    assert LeavingWorkers(s) == {};
    ShiftLeftMonotone(s.maxThreads, 0, MAX_QUERY_PRIORITY - s.queries[id].pri);
  }

  lemma {:induction false} ScanToAsync(s: State, id: nat) returns (s': State)
    requires Inv(s) && Calm(s) && s.maxThreads > 0 && s.poller.phase == Scan
    requires id in s.poller.todo && s.queries[id].async
    ensures Inv(s') && CanReach(s, s') && Onward(s, s') && Work(s') < Work(s)
    decreases |s.poller.todo|
  {
    var x := s.poller.todo[0];
    var m := Apply(s, ScanOne);
    assert x in s.poller.todo;
    ScanOnward(s);
    StepKeepsInv(s, ScanOne);
    ReachStep(s, ScanOne);
    if s.queries[x].async {
      CalmHasRoom(s, x);
      Lowers(s, m, x);
      s' := m;
    } else {
      assert id in m.poller.todo;
      s' := ScanToAsync(m, id);
      RanksShrink(s, m, s.nextId);
      ReachOn(s, m, s');
    }
  }

  lemma Advance(s: State, id: nat) returns (s': State)
    requires Inv(s) && Quiet(s) && s.maxThreads > 0 && id in s.queries && s.queries[id].async
    ensures Inv(s') && CanReach(s, s') && Onward(s, s') && Work(s') < Work(s)
  {
    InvPollOrder(s);
    var a := BeginScan(PollOrder(s.queries, MAX_QUERY_PRIORITY + 1, s.nextId));
    var m := Apply(s, a);
    forall k: nat ensures Rank(m, k) == Rank(s, k) {}
    KeepsWork(s, m);
    StepKeepsInv(s, a);
    ReachStep(s, a);
    s' := ScanToAsync(m, id);
    ReachOn(s, m, s');
  }

  lemma {:induction false} CanRetire(s: State, id: nat) returns (s': State)
    requires Inv(s) && s.maxThreads > 0 && id in s.queries && s.queries[id].async
    ensures Inv(s') && CanReach(s, s') && id !in s'.queries && s'.nextId == s.nextId
    decreases Work(s)
  {
    var m := Settle(s);
    RanksShrink(s, m, s.nextId);
    if id !in m.queries {
      return m;
    }
    var n := Advance(m, id);
    ReachOn(s, m, n);
    if id !in n.queries {
      return n;
    }
    s' := CanRetire(n, id);
    ReachOn(s, n, s');
  }

  // From every reachable state some continuation deletes a given async query, once.
  lemma EveryQueryCanRetire(maxThreads: nat, s: State, id: nat)
    requires Reachable(maxThreads, s) && maxThreads > 0 && id in s.queries && s.queries[id].async
    ensures exists run, s' :: Leads(s, run, s') && id !in s'.queries && s'.h.deletions[id] == 1
  {
    ReachableInv(maxThreads, s);
    assert QueryOk(s, id);
    var s' := CanRetire(s, id);
    assert GoneOk(s', id);
    var run :| Leads(s, run, s');
  }
}
