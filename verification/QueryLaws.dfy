/**
  What the numbers in the query manager come to: the priority bound is exact, and a poll starts a waiting query exactly
  when the running ones leave room for its priority.
*/
module QueryLaws {
  import opened QueryProtocol
  import opened QueryInvariant

  // How many times max_threads queries of priority number p or more may run.
  const SHARE: seq<nat> := [32, 16, 8, 4, 2, 1]

  lemma LimitIsShare(s: State, p: nat)
    requires p <= 5
    ensures Limit(s, p) == s.maxThreads * SHARE[p]
  {
    var m := s.maxThreads;
    assert ShiftLeft(m, 0) == m && ShiftLeft(m, 1) == 2 * m && ShiftLeft(m, 2) == 4 * m;
    assert ShiftLeft(m, 3) == 8 * m && ShiftLeft(m, 4) == 16 * m && ShiftLeft(m, 5) == 32 * m;
  }

  // A visit of the scan selects a waiting query if and only if there is room for its priority.
  lemma VisitSelects(maxThreads: nat, s: State)
    requires Reachable(maxThreads, s) && Enabled(s, ScanOne)
    ensures var id := s.poller.todo[0];
            && id in s.queries && s.queries[id].pri <= 5
            && var q, s' := s.queries[id], Apply(s, ScanOne);
               q.async && !q.started && !q.finished ==>
                 && id in s'.queries
                 && (s'.queries[id].started <==> s.numThreads - s.numFinished < maxThreads * SHARE[q.pri])
                 && s'.numThreads == s.numThreads + (if s'.queries[id].started then 1 else 0)
                 && s'.poller.starts == s.poller.starts + (if s'.queries[id].started then [id] else [])
  {
    ReachableInv(maxThreads, s);
    var id := s.poller.todo[0];
    assert id in s.poller.todo;
    assert QueryOk(s, id);
    LimitIsShare(Visit(s), s.queries[id].pri);
  }

  // A query that is to be launched is stored and marked as started.
  lemma SelectedIsStarted(maxThreads: nat, s: State)
    requires Reachable(maxThreads, s) && s.poller.starts != []
    ensures s.poller.starts[0] in s.queries && s.queries[s.poller.starts[0]].started
  {
    ReachableInv(maxThreads, s);
    var id := s.poller.starts[0];
    assert id in s.poller.starts;
    assert QueryOk(s, id);
  }

  // The counters, the threads and the joins after a visit to a finished query: its thread is taken back.
  ghost predicate TakenBack(s: State, s': State, q: Query) {
    if q.async && q.started then
      && s'.numThreads == s.numThreads - 1 && s'.numFinished == s.numFinished - 1
      && (forall t :: t in s'.threads <==> t in s.threads && t != q.tid)
      && s'.poller.joins == s.poller.joins + [q.tid]
    else
      s'.numThreads == s.numThreads && s'.numFinished == s.numFinished && s'.threads == s.threads
      && s'.poller.joins == s.poller.joins
  }

  // A visit to a finished query takes its thread back.  It waits again if and only if it is an asynchronous one that
  // has failed for the first or the second time, and is set aside for deletion otherwise.
  lemma VisitFinished(maxThreads: nat, s: State)
    requires Reachable(maxThreads, s) && Enabled(s, ScanOne)
    ensures var id := s.poller.todo[0];
            && id in s.queries
            && var q, s' := s.queries[id], Apply(s, ScanOne);
               q.finished ==>
                 && id in s'.queries && TakenBack(s, s', q)
                 && (s'.queries[id].finished <==> !q.async || q.successful || q.retryCount >= 2)
                 && (s'.queries[id].started <==> q.started && s'.queries[id].finished)
                 && s'.queries[id].retryCount == q.retryCount + (if q.async && !q.successful then 1 else 0)
                 && s'.poller.fins == s.poller.fins + (if s'.queries[id].finished then [id] else [])
  {
    ReachableInv(maxThreads, s);
    var id := s.poller.todo[0];
    assert id in s.poller.todo;
    assert QueryOk(s, id);
  }

  // What a worker does with an executed query: it queues it for the frame if and only if it has a callback and has
  // succeeded or used up its attempts.
  lemma DecisionQueues(maxThreads: nat, s: State, t: nat)
    requires Reachable(maxThreads, s) && Enabled(s, WorkerDecide(t))
    ensures var id := s.workers[t].q;
            && id in s.queries
            && var q, s' := s.queries[id], Apply(s, WorkerDecide(t));
               && id in s'.queries
               && var queued := q.callback && (q.successful || q.retryCount >= 3);
                  && s'.frames == s.frames + (if queued then [id] else [])
                  && (s'.queries[id].finished <==> !queued)
                  && (t in s'.workers <==> !queued) && (!queued ==> s'.workers[t] == Leaving)
  {
    ReachableInv(maxThreads, s);
    assert Stored(s, WorkerDecide(t)) by { InvStores(s, WorkerDecide(t)); }
    assert QueryOk(s, s.workers[t].q);
  }

  // The frame takes an entry than which no other in the queue is older; the others stay.
  lemma FrameTakesOldest(maxThreads: nat, s: State, id: nat)
    requires Reachable(maxThreads, s) && Enabled(s, FrameTake(id))
    ensures forall k :: k in s.frames ==> k in s.queries
    ensures id in s.frames && forall k :: k in s.frames ==> s.queries[id].timeCreate <= s.queries[k].timeCreate
    ensures Apply(s, FrameTake(id)).frame == Holding(id)
    ensures forall k :: k in Apply(s, FrameTake(id)).frames <==> k in s.frames && k != id
  {
    FramesStored(maxThreads, s);
    ReachableInv(maxThreads, s);
    WithoutIs(s.frames, id);
  }

  // The bound of each priority, in numbers.
  lemma ShareBound(maxThreads: nat, s: State, p: nat)
    requires Reachable(maxThreads, s) && p <= 5
    ensures |Running(s, p)| <= maxThreads * SHARE[p]
  {
    PriorityBound(maxThreads, s, p);
    LimitIsShare(s, p);
    ReachableInv(maxThreads, s);
  }

  // ---- The bound is reached ----

  function Fresh(p: nat): Query {
    Query(p, true, 0, false, false, false, false, false, 0, 0, Waiting)
  }

  // n queries of priority number p have been pushed, and a poll has come to the j-th.
  ghost predicate Selecting(s: State, maxThreads: nat, p: nat, n: nat, j: nat) {
    && Reachable(maxThreads, s) && j <= n
    && s.poller.phase == Scan && |s.poller.todo| == n - j
    && (forall i :: 0 <= i < n - j ==> s.poller.todo[i] == j + i)
    && (forall id :: id in s.queries <==> 0 <= id < n)
    && (forall id :: 0 <= id < n ==>
          s.queries[id] == if id < j then Fresh(p).(started := true, place := Selected) else Fresh(p))
    && s.numThreads == j && s.numFinished == 0
  }

  // n queries of priority number p are stored, and nothing else has happened.
  ghost predicate Pushed(s: State, maxThreads: nat, p: nat, n: nat) {
    && Reachable(maxThreads, s) && s.poller.phase == Idle && s.nextId == n
    && s.numThreads == 0 && s.numFinished == 0
    && (forall id :: id in s.queries <==> 0 <= id < n)
    && (forall id :: 0 <= id < n ==> s.queries[id] == Fresh(p))
  }

  lemma PushNext(s: State, maxThreads: nat, p: nat, n: nat)
    requires p <= MAX_QUERY_PRIORITY && Pushed(s, maxThreads, p, n)
    ensures Pushed(DoPush(s, p, true, 0), maxThreads, p, n + 1)
  {
    ReachableNext(maxThreads, s, Push(p, true, 0));
  }

  lemma {:induction false} PushMany(maxThreads: nat, p: nat, n: nat) returns (s: State)
    requires p <= MAX_QUERY_PRIORITY
    ensures Pushed(s, maxThreads, p, n)
  {
    if n == 0 {
      s := Init(maxThreads);
      assert Leads(Init(maxThreads), [], s);
    } else {
      var r := PushMany(maxThreads, p, n - 1);
      PushNext(r, maxThreads, p, n - 1);
      s := DoPush(r, p, true, 0);
    }
  }

  lemma BeginSelecting(maxThreads: nat, p: nat, n: nat) returns (s: State)
    requires p <= MAX_QUERY_PRIORITY
    ensures Selecting(s, maxThreads, p, n, 0)
  {
    var r := PushMany(maxThreads, p, n);
    var order := seq(n, i => i);
    assert forall id :: id in order <==> 0 <= id < n by {
      forall id | 0 <= id < n ensures id in order { assert order[id] == id; }
    }
    ReachableNext(maxThreads, r, BeginScan(order));
    s := Apply(r, BeginScan(order));
  }

  lemma SelectNext(s: State, maxThreads: nat, p: nat, n: nat, j: nat)
    requires p <= 5 && n <= maxThreads * SHARE[p] && j < n && Selecting(s, maxThreads, p, n, j)
    ensures Selecting(Apply(s, ScanOne), maxThreads, p, n, j + 1)
  {
    ReachableInv(maxThreads, s);
    assert s.poller.todo[0] == j;
    LimitIsShare(Visit(s), p);
    assert MaySelect(Visit(s), s.queries[j]);
    ReachableNext(maxThreads, s, ScanOne);
    var s' := Apply(s, ScanOne);
    assert s' == Select(Visit(s), j);
    forall i | 0 <= i < n - j - 1 ensures s'.poller.todo[i] == j + 1 + i {
      assert s'.poller.todo[i] == s.poller.todo[i + 1];
    }
  }

  lemma {:induction false} SelectAll(s: State, maxThreads: nat, p: nat, n: nat, j: nat) returns (s': State)
    requires p <= 5 && n <= maxThreads * SHARE[p] && Selecting(s, maxThreads, p, n, j)
    ensures Selecting(s', maxThreads, p, n, n)
    decreases n - j
  {
    if j == n {
      s' := s;
    } else {
      SelectNext(s, maxThreads, p, n, j);
      s' := SelectAll(Apply(s, ScanOne), maxThreads, p, n, j + 1);
    }
  }

  lemma AllRunning(s: State, maxThreads: nat, p: nat, n: nat)
    requires Selecting(s, maxThreads, p, n, n)
    ensures |Running(s, p)| == n
  {
    ReachableInv(maxThreads, s);
    assert Reapable(s) == {};
    assert Running(s, p) == Running(s, 0);
  }

  // For every number of threads and every priority number some run reaches the bound.
  lemma BoundIsExact(maxThreads: nat, p: nat)
    requires p <= 5
    ensures exists s :: Reachable(maxThreads, s) && |Running(s, p)| == maxThreads * SHARE[p]
  {
    var n := maxThreads * SHARE[p];
    var r := BeginSelecting(maxThreads, p, n);
    var s := SelectAll(r, maxThreads, p, n, 0);
    AllRunning(s, maxThreads, p, n);
  }
}
