/**
  What holds in every run of the query manager between two calls of stop(): an inductive invariant over the steps of
  QueryProtocol, and from it the bounds and the life cycle of a query.
*/
module QueryInvariant {
  import opened QueryProtocol
  import Common

  // ---- Invariant ----

  predicate HasThread(p: Place) { p.AtWorker? || p.Queued? || p.AtFrame? || p.Done? }

  predicate InFrames(p: Place) { p.Queued? || p.AtFrame? }

  // The current attempt has been executed.
  predicate Executed(s: State, q: Query) {
    || InFrames(q.place) || q.place.Done?
    || (q.place.AtWorker? && q.place.t in s.workers && s.workers[q.place.t].Deciding?)
  }

  // The flags of a query agree with where it is, and with what has happened to it.
  ghost predicate QueryOk(s: State, id: nat)
    requires id in s.queries
  {
    var q := s.queries[id];
    && id < s.nextId && q.pri <= MAX_QUERY_PRIORITY
    && (q.async <==> !q.place.Sync?)
    && (q.async ==> (q.started <==> !q.place.Waiting?) && (q.finished <==> q.place.Done?))
    && (q.async && q.successful ==> Executed(s, q))
    && (q.framed <==> InFrames(q.place) || (q.place.Done? && q.successful && q.callback))
    && (InFrames(q.place) ==> q.successful && q.callback)
    && (q.async && id !in s.poller.fins ==> q.retryCount < QUERY_RETRY_COUNT)
  }

  ghost predicate HistoryOk(s: State, id: nat)
    requires id in s.queries
  {
    var q := s.queries[id];
    && s.h.pushes[id] == (if q.framed then 1 else 0)
    && s.h.forwards[id] == (if q.framed && !q.place.Queued? then 1 else 0)
    && s.h.deletions[id] == 0
    && s.h.execs[id] <= QUERY_RETRY_COUNT
    && (!q.async ==> s.h.execs[id] == 0)
    && (q.async && id !in s.poller.fins ==> s.h.execs[id] == q.retryCount + (if Executed(s, q) then 1 else 0))
    && (q.async && id in s.poller.fins ==>
          s.h.execs[id] == if q.successful then q.retryCount + 1 else QUERY_RETRY_COUNT)
  }

  // What remains true of an id whose query has been deleted, or that has not been handed out yet.
  ghost predicate GoneOk(s: State, id: nat) {
    && s.h.execs[id] <= QUERY_RETRY_COUNT
    && s.h.forwards[id] == s.h.pushes[id] <= 1
    && s.h.deletions[id] == (if id < s.nextId then 1 else 0)
    && (id >= s.nextId ==> s.h.execs[id] == s.h.pushes[id] == 0)
  }

  ghost predicate PlacesOk(s: State) {
    && (forall t :: t in s.workers && !s.workers[t].Leaving? ==>
          s.workers[t].q in s.queries && s.queries[s.workers[t].q].place == AtWorker(t))
    && (forall id :: id in s.queries && s.queries[id].place.AtWorker? ==>
          var t := s.queries[id].place.t;
          t in s.workers && (s.workers[t] == Executing(id) || s.workers[t] == Deciding(id)))
    && (forall id :: id in s.frames <==> id in s.queries && s.queries[id].place.Queued?)
    && NoDup(s.frames)
    && (s.frame.Holding? ==> s.frame.q in s.queries)
    && (forall id :: id in s.queries ==> (s.queries[id].place.AtFrame? <==> s.frame == Holding(id)))
  }

  ghost predicate PollerOk(s: State) {
    var p := s.poller;
    && NoDup(p.todo) && NoDup(p.starts) && NoDup(p.fins)
    && (forall id :: id in p.todo ==> id in s.queries && id !in p.fins)
    && (forall id :: id in p.starts <==> id in s.queries && s.queries[id].place.Selected?)
    && (forall id :: id in p.fins ==> id in s.queries && s.queries[id].finished)
    && (p.phase != Scan ==> p.todo == [])
    && (p.phase == Idle || p.phase == Join ==> p.fins == [])
    && (p.phase != Scan && p.phase != Start ==> p.starts == [])
    && (p.phase == Idle ==> p.joins == [])
  }

  // Queries whose worker thread has been created and not yet been reaped.
  predicate Threaded(s: State, id: nat) {
    id in s.queries && HasThread(s.queries[id].place) && id !in s.poller.fins
  }

  ghost predicate ThreadsOk(s: State) {
    && (forall id :: Threaded(s, id) ==> s.queries[id].tid in s.threads)
    && (forall i, j :: Threaded(s, i) && Threaded(s, j) && i != j ==> s.queries[i].tid != s.queries[j].tid)
    && (forall id :: id in s.queries && s.queries[id].place.AtWorker? ==> s.queries[id].place.t == s.queries[id].tid)
    && (forall t :: t in s.workers ==> t in s.threads || t in s.poller.joins)
  }

  // How the poller's counters see a query: as running, or as finished and not yet reaped.
  predicate Runs(s: State, id: nat) {
    id in s.queries && s.queries[id].async && s.queries[id].started && !s.queries[id].finished
  }

  predicate FinishedUnreaped(s: State, id: nat) {
    id in s.queries && s.queries[id].async && s.queries[id].finished && id !in s.poller.fins
  }

  // The running async queries of priority number at least p.
  ghost function Running(s: State, p: nat): set<nat> {
    set id | id in s.queries && Runs(s, id) && s.queries[id].pri >= p
  }

  ghost function Reapable(s: State): set<nat> {
    set id | id in s.queries && FinishedUnreaped(s, id)
  }

  // Threads between `finished = true` and `num_finished++`.
  ghost function LeavingWorkers(s: State): set<nat> {
    set t | t in s.workers && s.workers[t].Leaving?
  }

  ghost function DueIncrements(s: State): nat {
    |LeavingWorkers(s)| + (if s.frame.FrameLeaving? then 1 else 0)
  }

  ghost predicate CountersOk(s: State) {
    && s.numThreads == |Running(s, 0)| + |Reapable(s)|
    && s.numFinished == |Reapable(s)| - DueIncrements(s)
  }

  ghost predicate BoundOk(s: State) {
    forall p :: 0 <= p <= MAX_QUERY_PRIORITY ==> |Running(s, p)| <= Limit(s, p)
  }

  ghost predicate QueriesOk(s: State) {
    forall id :: id in s.queries ==> QueryOk(s, id)
  }

  ghost predicate HistoriesOk(s: State) {
    && (forall id :: id in s.queries ==> HistoryOk(s, id))
    && (forall id :: id !in s.queries ==> GoneOk(s, id))
  }

  ghost predicate Shape(s: State) {
    QueriesOk(s) && PlacesOk(s) && PollerOk(s)
  }

  ghost predicate CountsOk(s: State) {
    CountersOk(s) && BoundOk(s)
  }

  ghost predicate Inv(s: State) {
    Shape(s) && ThreadsOk(s) && HistoriesOk(s) && CountsOk(s)
  }

  // ---- Counting ----

  predicate SameCount(s: State, s': State, id: nat) {
    && (Runs(s, id) <==> Runs(s', id))
    && (FinishedUnreaped(s, id) <==> FinishedUnreaped(s', id))
    && (Runs(s, id) && Runs(s', id) ==> s.queries[id].pri == s'.queries[id].pri)
  }

  ghost function One(b: bool): nat { if b then 1 else 0 }

  // A step that moves at most one query between the counted sets moves the cardinalities by as much.
  lemma CountsChange(s: State, s': State, x: nat)
    requires forall id: nat :: id != x ==> SameCount(s, s', id)
    ensures forall p: nat :: |Running(s', p)| == |Running(s, p)|
                          + One(x in Running(s', p)) - One(x in Running(s, p))
    ensures |Reapable(s')| == |Reapable(s)| + One(FinishedUnreaped(s', x)) - One(FinishedUnreaped(s, x))
  {
    forall p: nat ensures |Running(s', p)| == |Running(s, p)| + One(x in Running(s', p)) - One(x in Running(s, p)) {
      forall y: nat | y != x ensures y in Running(s, p) <==> y in Running(s', p) {
        assert SameCount(s, s', y);
      }
      SetMoves(Running(s, p), Running(s', p), x);
    }
    forall y: nat | y != x ensures y in Reapable(s) <==> y in Reapable(s') {
      assert SameCount(s, s', y);
    }
    SetMoves(Reapable(s), Reapable(s'), x);
  }

  lemma SetMoves(a: set<nat>, b: set<nat>, x: nat)
    requires forall y: nat :: y != x ==> (y in a <==> y in b)
    ensures |b| == |a| + One(x in b) - One(x in a)
  {
    assert a - {x} == b - {x};
    assert |a - {x}| == |a| - One(x in a);
    assert |b - {x}| == |b| - One(x in b);
  }

  lemma CountsSame(s: State, s': State)
    requires CountsOk(s) && forall id: nat :: SameCount(s, s', id)
    requires s'.numThreads == s.numThreads && s'.numFinished == s.numFinished && s'.maxThreads == s.maxThreads
    requires DueIncrements(s) == DueIncrements(s')
    ensures CountsOk(s')
  {
    CountsChange(s, s', 0);
    assert SameCount(s, s', 0);
  }

  // A query that stops running, or leaves the counted sets, cannot break a bound.
  lemma BoundShrinks(s: State, s': State, x: nat)
    requires BoundOk(s) && s'.maxThreads == s.maxThreads && !Runs(s', x)
    requires forall id: nat :: id != x ==> SameCount(s, s', id)
    ensures BoundOk(s')
  {
    CountsChange(s, s', x);
  }

  lemma NoDupTail(xs: seq<nat>)
    requires NoDup(xs) && xs != []
    ensures NoDup(xs[1..]) && xs[0] !in xs[1..] && forall x :: x in xs <==> x == xs[0] || x in xs[1..]
  {
    assert xs == [xs[0]] + xs[1..];
  }

  lemma {:induction false} WithoutIs(xs: seq<nat>, x: nat)
    requires NoDup(xs)
    ensures NoDup(Without(xs, x)) && forall y :: y in Without(xs, x) <==> y in xs && y != x
  {
    if xs != [] {
      NoDupTail(xs);
      WithoutIs(xs[1..], x);
    }
  }

  lemma PushKeepsQueries(s: State, pri: nat, async: bool, timeCreate: int)
    requires Shape(s) && ThreadsOk(s) && Enabled(s, Push(pri, async, timeCreate))
    ensures QueriesOk(Apply(s, Push(pri, async, timeCreate)))
  {
  }

  lemma PushKeepsPlaces(s: State, pri: nat, async: bool, timeCreate: int)
    requires Shape(s) && ThreadsOk(s) && Enabled(s, Push(pri, async, timeCreate))
    ensures PlacesOk(Apply(s, Push(pri, async, timeCreate))) && PollerOk(Apply(s, Push(pri, async, timeCreate)))
  {
  }

  lemma PushKeepsShape(s: State, pri: nat, async: bool, timeCreate: int)
    requires Shape(s) && ThreadsOk(s) && Enabled(s, Push(pri, async, timeCreate))
    ensures Shape(Apply(s, Push(pri, async, timeCreate)))
  {
    PushKeepsQueries(s, pri, async, timeCreate);
    PushKeepsPlaces(s, pri, async, timeCreate);
  }

  lemma PushKeepsThreads(s: State, pri: nat, async: bool, timeCreate: int)
    requires Shape(s) && ThreadsOk(s) && Enabled(s, Push(pri, async, timeCreate))
    ensures ThreadsOk(Apply(s, Push(pri, async, timeCreate)))
  {
  }

  lemma PushKeepsHistory(s: State, pri: nat, async: bool, timeCreate: int)
    requires Shape(s) && HistoriesOk(s) && Enabled(s, Push(pri, async, timeCreate))
    ensures HistoriesOk(Apply(s, Push(pri, async, timeCreate)))
  {
    var s', newId := Apply(s, Push(pri, async, timeCreate)), s.nextId;
    assert newId in s.queries ==> QueryOk(s, newId);
    assert GoneOk(s, newId);
    forall id | id in s'.queries ensures HistoryOk(s', id) {
      assert id != newId ==> HistoryOk(s, id);
    }
    forall id | id !in s'.queries ensures GoneOk(s', id) {
      assert GoneOk(s, id);
    }
  }

  lemma PushKeepsCounts(s: State, pri: nat, async: bool, timeCreate: int)
    requires Shape(s) && CountsOk(s) && Enabled(s, Push(pri, async, timeCreate))
    ensures CountsOk(Apply(s, Push(pri, async, timeCreate)))
  {
    CountsSame(s, Apply(s, Push(pri, async, timeCreate)));
  }

  lemma SyncExecKeepsShape(s: State, id: nat, ok: bool)
    requires Shape(s) && ThreadsOk(s) && Enabled(s, SyncExec(id, ok))
    ensures Shape(Apply(s, SyncExec(id, ok)))
  {
  }

  lemma SyncExecKeepsThreads(s: State, id: nat, ok: bool)
    requires Shape(s) && ThreadsOk(s) && Enabled(s, SyncExec(id, ok))
    ensures ThreadsOk(Apply(s, SyncExec(id, ok)))
  {
  }

  lemma SyncExecKeepsHistory(s: State, id: nat, ok: bool)
    requires Shape(s) && HistoriesOk(s) && Enabled(s, SyncExec(id, ok))
    ensures HistoriesOk(Apply(s, SyncExec(id, ok)))
  {
  }

  lemma SyncExecKeepsCounts(s: State, id: nat, ok: bool)
    requires Shape(s) && CountsOk(s) && Enabled(s, SyncExec(id, ok))
    ensures CountsOk(Apply(s, SyncExec(id, ok)))
  {
    CountsSame(s, Apply(s, SyncExec(id, ok)));
  }

  lemma SyncFreeKeepsShape(s: State, id: nat)
    requires Shape(s) && ThreadsOk(s) && Enabled(s, SyncFree(id))
    ensures Shape(Apply(s, SyncFree(id)))
  {
  }

  lemma SyncFreeKeepsThreads(s: State, id: nat)
    requires Shape(s) && ThreadsOk(s) && Enabled(s, SyncFree(id))
    ensures ThreadsOk(Apply(s, SyncFree(id)))
  {
  }

  lemma SyncFreeKeepsHistory(s: State, id: nat)
    requires Shape(s) && HistoriesOk(s) && Enabled(s, SyncFree(id))
    ensures HistoriesOk(Apply(s, SyncFree(id)))
  {
  }

  lemma SyncFreeKeepsCounts(s: State, id: nat)
    requires Shape(s) && CountsOk(s) && Enabled(s, SyncFree(id))
    ensures CountsOk(Apply(s, SyncFree(id)))
  {
    CountsSame(s, Apply(s, SyncFree(id)));
  }

  lemma BeginScanKeepsShape(s: State, order: seq<nat>)
    requires Shape(s) && ThreadsOk(s) && Enabled(s, BeginScan(order))
    ensures Shape(Apply(s, BeginScan(order)))
  {
  }

  lemma BeginScanKeepsThreads(s: State, order: seq<nat>)
    requires Shape(s) && ThreadsOk(s) && Enabled(s, BeginScan(order))
    ensures ThreadsOk(Apply(s, BeginScan(order)))
  {
  }

  lemma BeginScanKeepsHistory(s: State, order: seq<nat>)
    requires Shape(s) && HistoriesOk(s) && Enabled(s, BeginScan(order))
    ensures HistoriesOk(Apply(s, BeginScan(order)))
  {
  }

  lemma BeginScanKeepsCounts(s: State, order: seq<nat>)
    requires Shape(s) && CountsOk(s) && Enabled(s, BeginScan(order))
    ensures CountsOk(Apply(s, BeginScan(order)))
  {
    CountsSame(s, Apply(s, BeginScan(order)));
  }

  lemma LaunchFailKeepsQueries(s: State)
    requires Shape(s) && ThreadsOk(s) && Enabled(s, LaunchFail)
    ensures QueriesOk(Apply(s, LaunchFail))
  {
    NoDupTail(s.poller.starts);
  }

  lemma LaunchFailKeepsPlaces(s: State)
    requires Shape(s) && ThreadsOk(s) && Enabled(s, LaunchFail)
    ensures PlacesOk(Apply(s, LaunchFail)) && PollerOk(Apply(s, LaunchFail))
  {
    NoDupTail(s.poller.starts);
  }

  lemma LaunchFailKeepsShape(s: State)
    requires Shape(s) && ThreadsOk(s) && Enabled(s, LaunchFail)
    ensures Shape(Apply(s, LaunchFail))
  {
    LaunchFailKeepsQueries(s);
    LaunchFailKeepsPlaces(s);
  }

  lemma LaunchFailKeepsThreads(s: State)
    requires Shape(s) && ThreadsOk(s) && Enabled(s, LaunchFail)
    ensures ThreadsOk(Apply(s, LaunchFail))
  {
    NoDupTail(s.poller.starts);
  }

  lemma LaunchFailKeepsHistory(s: State)
    requires Shape(s) && HistoriesOk(s) && Enabled(s, LaunchFail)
    ensures HistoriesOk(Apply(s, LaunchFail))
  {
    NoDupTail(s.poller.starts);
    var s' := Apply(s, LaunchFail);
    forall k | k in s'.queries ensures HistoryOk(s', k) {
      assert HistoryOk(s, k) && QueryOk(s, k);
    }
    forall k | k !in s'.queries ensures GoneOk(s', k) {
      assert GoneOk(s, k);
    }
  }

  lemma LaunchFailKeepsCounts(s: State)
    requires Shape(s) && CountsOk(s) && Enabled(s, LaunchFail)
    ensures CountsOk(Apply(s, LaunchFail))
  {
    var s' := Apply(s, LaunchFail);
    CountsChange(s, s', s.poller.starts[0]);
    BoundShrinks(s, s', s.poller.starts[0]);
  }

  lemma FrameTakeKeepsQueries(s: State, id: nat)
    requires Shape(s) && Enabled(s, FrameTake(id))
    ensures QueriesOk(Apply(s, FrameTake(id))) && PollerOk(Apply(s, FrameTake(id)))
  {
    WithoutIs(s.frames, id);
  }

  lemma FrameTakeKeepsPlaces(s: State, id: nat)
    requires Shape(s) && ThreadsOk(s) && Enabled(s, FrameTake(id))
    ensures PlacesOk(Apply(s, FrameTake(id)))
  {
    WithoutIs(s.frames, id);
  }

  lemma FrameTakeKeepsThreads(s: State, id: nat)
    requires Shape(s) && ThreadsOk(s) && Enabled(s, FrameTake(id))
    ensures ThreadsOk(Apply(s, FrameTake(id)))
  {
    WithoutIs(s.frames, id);
  }

  lemma FrameTakeKeepsHistory(s: State, id: nat)
    requires Shape(s) && HistoriesOk(s) && Enabled(s, FrameTake(id))
    ensures HistoriesOk(Apply(s, FrameTake(id)))
  {
    WithoutIs(s.frames, id);
    var s' := Apply(s, FrameTake(id));
    forall k | k in s'.queries ensures HistoryOk(s', k) {
      assert HistoryOk(s, k) && QueryOk(s, k);
    }
    forall k | k !in s'.queries ensures GoneOk(s', k) {
      assert GoneOk(s, k);
    }
  }

  lemma FrameTakeKeepsCounts(s: State, id: nat)
    requires Shape(s) && CountsOk(s) && Enabled(s, FrameTake(id))
    ensures CountsOk(Apply(s, FrameTake(id)))
  {
    CountsSame(s, Apply(s, FrameTake(id)));
  }

  lemma FrameFinishKeepsQueries(s: State)
    requires Shape(s) && ThreadsOk(s) && Enabled(s, FrameFinish)
    ensures QueriesOk(Apply(s, FrameFinish))
  {
  }

  lemma FrameFinishKeepsPlaces(s: State)
    requires Shape(s) && ThreadsOk(s) && Enabled(s, FrameFinish)
    ensures PlacesOk(Apply(s, FrameFinish)) && PollerOk(Apply(s, FrameFinish))
  {
  }

  lemma FrameFinishKeepsShape(s: State)
    requires Shape(s) && ThreadsOk(s) && Enabled(s, FrameFinish)
    ensures Shape(Apply(s, FrameFinish))
  {
    FrameFinishKeepsQueries(s);
    FrameFinishKeepsPlaces(s);
  }

  lemma FrameFinishKeepsThreads(s: State)
    requires Shape(s) && ThreadsOk(s) && Enabled(s, FrameFinish)
    ensures ThreadsOk(Apply(s, FrameFinish))
  {
  }

  lemma FrameFinishKeepsHistory(s: State)
    requires Shape(s) && HistoriesOk(s) && Enabled(s, FrameFinish)
    ensures HistoriesOk(Apply(s, FrameFinish))
  {
  }

  lemma FrameFinishKeepsCounts(s: State)
    requires Shape(s) && CountsOk(s) && Enabled(s, FrameFinish)
    ensures CountsOk(Apply(s, FrameFinish))
  {
    var s' := Apply(s, FrameFinish);
    CountsChange(s, s', s.frame.q);
    BoundShrinks(s, s', s.frame.q);
  }

  lemma FrameCountKeepsShape(s: State)
    requires Shape(s) && ThreadsOk(s) && Enabled(s, FrameCount)
    ensures Shape(Apply(s, FrameCount))
  {
  }

  lemma FrameCountKeepsRest(s: State)
    requires Shape(s) && ThreadsOk(s) && HistoriesOk(s) && Enabled(s, FrameCount)
    ensures ThreadsOk(Apply(s, FrameCount)) && HistoriesOk(Apply(s, FrameCount))
  {
  }

  lemma FrameCountKeepsCounts(s: State)
    requires Shape(s) && CountsOk(s) && Enabled(s, FrameCount)
    ensures CountsOk(Apply(s, FrameCount))
  {
    var s' := Apply(s, FrameCount);
    CountsChange(s, s', 0);
    assert SameCount(s, s', 0);
  }

  lemma WorkerCountKeepsShape(s: State, t: nat)
    requires Shape(s) && ThreadsOk(s) && Enabled(s, WorkerCount(t))
    ensures Shape(Apply(s, WorkerCount(t)))
  {
  }

  lemma WorkerCountKeepsThreads(s: State, t: nat)
    requires Shape(s) && ThreadsOk(s) && Enabled(s, WorkerCount(t))
    ensures ThreadsOk(Apply(s, WorkerCount(t)))
  {
  }

  lemma WorkerCountKeepsHistory(s: State, t: nat)
    requires Shape(s) && HistoriesOk(s) && Enabled(s, WorkerCount(t))
    ensures HistoriesOk(Apply(s, WorkerCount(t)))
  {
  }

  lemma WorkerCountKeepsCounts(s: State, t: nat)
    requires Shape(s) && CountsOk(s) && Enabled(s, WorkerCount(t))
    ensures CountsOk(Apply(s, WorkerCount(t)))
  {
    var s' := Apply(s, WorkerCount(t));
    assert LeavingWorkers(s') == LeavingWorkers(s) - {t};
    CountsChange(s, s', 0);
    assert SameCount(s, s', 0);
  }

  lemma CleanOneKeepsQueries(s: State)
    requires Shape(s) && Enabled(s, CleanOne)
    ensures QueriesOk(Apply(s, CleanOne)) && PollerOk(Apply(s, CleanOne))
  {
    NoDupTail(s.poller.fins);
  }

  lemma CleanOneKeepsPlaces(s: State)
    requires Shape(s) && ThreadsOk(s) && Enabled(s, CleanOne)
    ensures PlacesOk(Apply(s, CleanOne))
  {
    NoDupTail(s.poller.fins);
  }

  lemma CleanOneKeepsThreads(s: State)
    requires Shape(s) && ThreadsOk(s) && Enabled(s, CleanOne)
    ensures ThreadsOk(Apply(s, CleanOne))
  {
    NoDupTail(s.poller.fins);
  }

  lemma CleanOneKeepsHistory(s: State)
    requires Shape(s) && HistoriesOk(s) && Enabled(s, CleanOne)
    ensures HistoriesOk(Apply(s, CleanOne))
  {
    NoDupTail(s.poller.fins);
  }

  lemma CleanOneKeepsCounts(s: State)
    requires Shape(s) && CountsOk(s) && Enabled(s, CleanOne)
    ensures CountsOk(Apply(s, CleanOne))
  {
    CountsSame(s, Apply(s, CleanOne));
  }

  lemma LaunchOneKeepsQueries(s: State, t: nat)
    requires Shape(s) && Enabled(s, LaunchOne(t))
    ensures QueriesOk(Apply(s, LaunchOne(t))) && PollerOk(Apply(s, LaunchOne(t)))
  {
    NoDupTail(s.poller.starts);
  }

  lemma LaunchOneKeepsPlaces(s: State, t: nat)
    requires Shape(s) && ThreadsOk(s) && Enabled(s, LaunchOne(t))
    ensures PlacesOk(Apply(s, LaunchOne(t)))
  {
    NoDupTail(s.poller.starts);
  }

  lemma LaunchOneKeepsThreads(s: State, t: nat)
    requires Shape(s) && ThreadsOk(s) && Enabled(s, LaunchOne(t))
    ensures ThreadsOk(Apply(s, LaunchOne(t)))
  {
    NoDupTail(s.poller.starts);
  }

  lemma LaunchOneKeepsHistory(s: State, t: nat)
    requires Shape(s) && HistoriesOk(s) && Enabled(s, LaunchOne(t))
    ensures HistoriesOk(Apply(s, LaunchOne(t)))
  {
    NoDupTail(s.poller.starts);
  }

  lemma LaunchOneKeepsCounts(s: State, t: nat)
    requires Shape(s) && CountsOk(s) && Enabled(s, LaunchOne(t))
    ensures CountsOk(Apply(s, LaunchOne(t)))
  {
    assert LeavingWorkers(Apply(s, LaunchOne(t))) == LeavingWorkers(s);
    CountsSame(s, Apply(s, LaunchOne(t)));
  }

  lemma WorkerExecKeepsQueries(s: State, t: nat, ok: bool, callback: bool)
    requires Shape(s) && Enabled(s, WorkerExec(t, ok, callback))
    ensures QueriesOk(Apply(s, WorkerExec(t, ok, callback))) && PollerOk(Apply(s, WorkerExec(t, ok, callback)))
  {
  }

  lemma WorkerExecKeepsPlaces(s: State, t: nat, ok: bool, callback: bool)
    requires Shape(s) && ThreadsOk(s) && Enabled(s, WorkerExec(t, ok, callback))
    ensures PlacesOk(Apply(s, WorkerExec(t, ok, callback)))
  {
  }

  lemma WorkerExecKeepsThreads(s: State, t: nat, ok: bool, callback: bool)
    requires Shape(s) && ThreadsOk(s) && Enabled(s, WorkerExec(t, ok, callback))
    ensures ThreadsOk(Apply(s, WorkerExec(t, ok, callback)))
  {
  }

  lemma WorkerExecKeepsHistory(s: State, t: nat, ok: bool, callback: bool)
    requires Shape(s) && HistoriesOk(s) && Enabled(s, WorkerExec(t, ok, callback))
    ensures HistoriesOk(Apply(s, WorkerExec(t, ok, callback)))
  {
    var s' := Apply(s, WorkerExec(t, ok, callback));
    var id := s.workers[t].q;
    assert s.queries[id].place == AtWorker(t);
    forall k | k in s'.queries ensures HistoryOk(s', k) {
      assert HistoryOk(s, k) && QueryOk(s, k);
    }
    forall k | k !in s'.queries ensures GoneOk(s', k) {
      assert GoneOk(s, k);
    }
  }

  lemma WorkerExecKeepsCounts(s: State, t: nat, ok: bool, callback: bool)
    requires Shape(s) && CountsOk(s) && Enabled(s, WorkerExec(t, ok, callback))
    ensures CountsOk(Apply(s, WorkerExec(t, ok, callback)))
  {
    assert LeavingWorkers(Apply(s, WorkerExec(t, ok, callback))) == LeavingWorkers(s);
    CountsSame(s, Apply(s, WorkerExec(t, ok, callback)));
  }

  ghost predicate AtDecision(s: State, t: nat, id: nat) {
    t in s.workers && s.workers[t] == Deciding(id) && id in s.queries
  }

  lemma WorkerFinishKeepsQueries(s: State, t: nat, id: nat)
    requires Shape(s) && AtDecision(s, t, id) && SkipsFrame(Get(s, id))
    ensures QueriesOk(WorkerFinish(s, t, id)) && PollerOk(WorkerFinish(s, t, id))
  {
  }

  lemma WorkerFinishKeepsPlaces(s: State, t: nat, id: nat)
    requires Shape(s) && ThreadsOk(s) && AtDecision(s, t, id) && SkipsFrame(Get(s, id))
    ensures PlacesOk(WorkerFinish(s, t, id))
  {
  }

  lemma WorkerFinishKeepsThreads(s: State, t: nat, id: nat)
    requires Shape(s) && ThreadsOk(s) && AtDecision(s, t, id) && SkipsFrame(Get(s, id))
    ensures ThreadsOk(WorkerFinish(s, t, id))
  {
  }

  lemma WorkerFinishKeepsHistory(s: State, t: nat, id: nat)
    requires Shape(s) && HistoriesOk(s) && AtDecision(s, t, id) && SkipsFrame(Get(s, id))
    ensures HistoriesOk(WorkerFinish(s, t, id))
  {
  }

  lemma WorkerFinishKeepsCounts(s: State, t: nat, id: nat)
    requires Shape(s) && CountsOk(s) && AtDecision(s, t, id) && SkipsFrame(Get(s, id))
    ensures CountsOk(WorkerFinish(s, t, id))
  {
    var s' := WorkerFinish(s, t, id);
    assert LeavingWorkers(s') == LeavingWorkers(s) + {t};
    CountsChange(s, s', id);
    BoundShrinks(s, s', id);
  }

  lemma WorkerQueueKeepsQueries(s: State, t: nat, id: nat)
    requires Shape(s) && AtDecision(s, t, id) && !SkipsFrame(Get(s, id))
    ensures QueriesOk(WorkerQueue(s, t, id)) && PollerOk(WorkerQueue(s, t, id))
  {
  }

  lemma WorkerQueueKeepsPlaces(s: State, t: nat, id: nat)
    requires Shape(s) && ThreadsOk(s) && AtDecision(s, t, id) && !SkipsFrame(Get(s, id))
    ensures PlacesOk(WorkerQueue(s, t, id))
  {
  }

  lemma WorkerQueueKeepsThreads(s: State, t: nat, id: nat)
    requires Shape(s) && ThreadsOk(s) && AtDecision(s, t, id) && !SkipsFrame(Get(s, id))
    ensures ThreadsOk(WorkerQueue(s, t, id))
  {
  }

  lemma WorkerQueueKeepsHistory(s: State, t: nat, id: nat)
    requires Shape(s) && HistoriesOk(s) && AtDecision(s, t, id) && !SkipsFrame(Get(s, id))
    ensures HistoriesOk(WorkerQueue(s, t, id))
  {
  }

  lemma WorkerQueueKeepsCounts(s: State, t: nat, id: nat)
    requires Shape(s) && CountsOk(s) && AtDecision(s, t, id) && !SkipsFrame(Get(s, id))
    ensures CountsOk(WorkerQueue(s, t, id))
  {
    assert LeavingWorkers(WorkerQueue(s, t, id)) == LeavingWorkers(s);
    CountsSame(s, WorkerQueue(s, t, id));
  }

  // The state in the middle of a scan step: id has just left the to-do list.
  ghost predicate Visiting(s: State, id: nat) {
    && s.poller.phase == Scan && id in s.queries && id !in s.poller.todo && id !in s.poller.fins
  }

  lemma VisitKeepsShape(s: State)
    requires Shape(s) && s.poller.phase == Scan && s.poller.todo != []
    ensures Shape(Visit(s)) && Visiting(Visit(s), s.poller.todo[0])
  {
    NoDupTail(s.poller.todo);
  }

  lemma VisitKeepsRest(s: State)
    requires ThreadsOk(s) && HistoriesOk(s) && CountsOk(s) && s.poller.todo != []
    ensures ThreadsOk(Visit(s)) && HistoriesOk(Visit(s)) && CountsOk(Visit(s))
  {
    CountsSame(s, Visit(s));
  }

  lemma RetryKeepsQueries(s: State, id: nat)
    requires Shape(s) && Visiting(s, id) && s.queries[id].finished && MayRetry(s.queries[id])
    ensures QueriesOk(Retry(s, id)) && PollerOk(Retry(s, id))
  {
  }

  lemma RetryKeepsPlaces(s: State, id: nat)
    requires Shape(s) && ThreadsOk(s) && Visiting(s, id) && s.queries[id].finished && MayRetry(s.queries[id])
    ensures PlacesOk(Retry(s, id))
  {
  }

  lemma RetryKeepsThreads(s: State, id: nat)
    requires Shape(s) && ThreadsOk(s) && Visiting(s, id) && s.queries[id].finished && MayRetry(s.queries[id])
    ensures ThreadsOk(Retry(s, id))
  {
  }

  lemma RetryKeepsHistory(s: State, id: nat)
    requires Shape(s) && HistoriesOk(s) && Visiting(s, id) && s.queries[id].finished && MayRetry(s.queries[id])
    ensures HistoriesOk(Retry(s, id))
  {
  }

  lemma RetryKeepsCounts(s: State, id: nat)
    requires Shape(s) && CountsOk(s) && Visiting(s, id) && s.queries[id].finished && MayRetry(s.queries[id])
    ensures CountsOk(Retry(s, id))
  {
    var s' := Retry(s, id);
    CountsChange(s, s', id);
    BoundShrinks(s, s', id);
  }

  lemma RetireKeepsQueries(s: State, id: nat)
    requires Shape(s) && Visiting(s, id) && s.queries[id].finished && !MayRetry(s.queries[id])
    ensures QueriesOk(Retire(s, id)) && PollerOk(Retire(s, id))
  {
  }

  lemma RetireKeepsPlaces(s: State, id: nat)
    requires Shape(s) && ThreadsOk(s) && Visiting(s, id) && s.queries[id].finished && !MayRetry(s.queries[id])
    ensures PlacesOk(Retire(s, id))
  {
  }

  lemma RetireKeepsThreads(s: State, id: nat)
    requires Shape(s) && ThreadsOk(s) && Visiting(s, id) && s.queries[id].finished && !MayRetry(s.queries[id])
    ensures ThreadsOk(Retire(s, id))
  {
  }

  lemma RetireKeepsHistory(s: State, id: nat)
    requires Shape(s) && HistoriesOk(s) && Visiting(s, id) && s.queries[id].finished && !MayRetry(s.queries[id])
    ensures HistoriesOk(Retire(s, id))
  {
    var s' := Retire(s, id);
    forall k | k in s'.queries ensures HistoryOk(s', k) {
      assert HistoryOk(s, k) && QueryOk(s, k);
    }
    forall k | k !in s'.queries ensures GoneOk(s', k) {
      assert GoneOk(s, k);
    }
  }

  lemma RetireKeepsCounts(s: State, id: nat)
    requires Shape(s) && CountsOk(s) && Visiting(s, id) && s.queries[id].finished && !MayRetry(s.queries[id])
    ensures CountsOk(Retire(s, id))
  {
    var s' := Retire(s, id);
    CountsChange(s, s', id);
    BoundShrinks(s, s', id);
  }

  lemma SelectKeepsQueries(s: State, id: nat)
    requires Shape(s) && Visiting(s, id) && !s.queries[id].finished && MaySelect(s, s.queries[id])
    ensures QueriesOk(Select(s, id)) && PollerOk(Select(s, id))
  {
  }

  lemma SelectKeepsPlaces(s: State, id: nat)
    requires Shape(s) && ThreadsOk(s) && Visiting(s, id) && !s.queries[id].finished && MaySelect(s, s.queries[id])
    ensures PlacesOk(Select(s, id))
  {
  }

  lemma SelectKeepsThreads(s: State, id: nat)
    requires Shape(s) && ThreadsOk(s) && Visiting(s, id) && !s.queries[id].finished && MaySelect(s, s.queries[id])
    ensures ThreadsOk(Select(s, id))
  {
  }

  lemma SelectKeepsHistory(s: State, id: nat)
    requires Shape(s) && HistoriesOk(s) && Visiting(s, id) && !s.queries[id].finished && MaySelect(s, s.queries[id])
    ensures HistoriesOk(Select(s, id))
  {
  }

  lemma SelectKeepsCounts(s: State, id: nat)
    requires Shape(s) && CountsOk(s) && Visiting(s, id) && !s.queries[id].finished && MaySelect(s, s.queries[id])
    ensures CountsOk(Select(s, id))
  {
    var s' := Select(s, id);
    CountsChange(s, s', id);
    SelectKeepsBound(s, id);
  }

  lemma {:induction false} ShiftLeftMonotone(x: nat, j: nat, k: nat)
    requires j <= k
    ensures ShiftLeft(x, j) <= ShiftLeft(x, k)
  {
    if j < k {
      ShiftLeftMonotone(x, j, k - 1);
    }
  }

  // threads_count() never undercounts, so the guard of the start branch is strong enough for every priority below.
  lemma SelectKeepsBound(s: State, id: nat)
    requires Shape(s) && CountsOk(s) && Visiting(s, id) && !s.queries[id].finished && MaySelect(s, s.queries[id])
    ensures BoundOk(Select(s, id))
  {
    var s', pri := Select(s, id), s.queries[id].pri;
    CountsChange(s, s', id);
    forall p | 0 <= p <= MAX_QUERY_PRIORITY ensures |Running(s', p)| <= Limit(s', p) {
      if p <= pri {
        ShiftLeftMonotone(s.maxThreads, MAX_QUERY_PRIORITY - pri, MAX_QUERY_PRIORITY - p);
        Common.SubsetSize(Running(s, p), Running(s, 0));
      }
    }
  }

  lemma PushKeepsInv(s: State, pri: nat, async: bool, timeCreate: int)
    requires Inv(s) && Enabled(s, Push(pri, async, timeCreate))
    ensures Inv(Apply(s, Push(pri, async, timeCreate)))
  {
    PushKeepsShape(s, pri, async, timeCreate);
    PushKeepsThreads(s, pri, async, timeCreate);
    PushKeepsHistory(s, pri, async, timeCreate);
    PushKeepsCounts(s, pri, async, timeCreate);
  }

  lemma SyncExecKeepsInv(s: State, id: nat, ok: bool)
    requires Inv(s) && Enabled(s, SyncExec(id, ok))
    ensures Inv(Apply(s, SyncExec(id, ok)))
  {
    SyncExecKeepsShape(s, id, ok);
    SyncExecKeepsThreads(s, id, ok);
    SyncExecKeepsHistory(s, id, ok);
    SyncExecKeepsCounts(s, id, ok);
  }

  lemma SyncFreeKeepsInv(s: State, id: nat)
    requires Inv(s) && Enabled(s, SyncFree(id))
    ensures Inv(Apply(s, SyncFree(id)))
  {
    SyncFreeKeepsShape(s, id);
    SyncFreeKeepsThreads(s, id);
    SyncFreeKeepsHistory(s, id);
    SyncFreeKeepsCounts(s, id);
  }

  lemma BeginScanKeepsInv(s: State, order: seq<nat>)
    requires Inv(s) && Enabled(s, BeginScan(order))
    ensures Inv(Apply(s, BeginScan(order)))
  {
    BeginScanKeepsShape(s, order);
    BeginScanKeepsThreads(s, order);
    BeginScanKeepsHistory(s, order);
    BeginScanKeepsCounts(s, order);
  }

  lemma LaunchOneKeepsInv(s: State, t: nat)
    requires Inv(s) && Enabled(s, LaunchOne(t))
    ensures Inv(Apply(s, LaunchOne(t)))
  {
    LaunchOneKeepsQueries(s, t);
    LaunchOneKeepsPlaces(s, t);
    LaunchOneKeepsThreads(s, t);
    LaunchOneKeepsHistory(s, t);
    LaunchOneKeepsCounts(s, t);
  }

  lemma LaunchFailKeepsInv(s: State)
    requires Inv(s) && Enabled(s, LaunchFail)
    ensures Inv(Apply(s, LaunchFail))
  {
    LaunchFailKeepsShape(s);
    LaunchFailKeepsThreads(s);
    LaunchFailKeepsHistory(s);
    LaunchFailKeepsCounts(s);
  }

  lemma CleanOneKeepsInv(s: State)
    requires Inv(s) && Enabled(s, CleanOne)
    ensures Inv(Apply(s, CleanOne))
  {
    CleanOneKeepsQueries(s);
    CleanOneKeepsPlaces(s);
    CleanOneKeepsThreads(s);
    CleanOneKeepsHistory(s);
    CleanOneKeepsCounts(s);
  }

  lemma WorkerExecKeepsInv(s: State, t: nat, ok: bool, callback: bool)
    requires Inv(s) && Enabled(s, WorkerExec(t, ok, callback))
    ensures Inv(Apply(s, WorkerExec(t, ok, callback)))
  {
    WorkerExecKeepsQueries(s, t, ok, callback);
    WorkerExecKeepsPlaces(s, t, ok, callback);
    WorkerExecKeepsThreads(s, t, ok, callback);
    WorkerExecKeepsHistory(s, t, ok, callback);
    WorkerExecKeepsCounts(s, t, ok, callback);
  }

  lemma WorkerCountKeepsInv(s: State, t: nat)
    requires Inv(s) && Enabled(s, WorkerCount(t))
    ensures Inv(Apply(s, WorkerCount(t)))
  {
    WorkerCountKeepsShape(s, t);
    WorkerCountKeepsThreads(s, t);
    WorkerCountKeepsHistory(s, t);
    WorkerCountKeepsCounts(s, t);
  }

  lemma FrameTakeKeepsInv(s: State, id: nat)
    requires Inv(s) && Enabled(s, FrameTake(id))
    ensures Inv(Apply(s, FrameTake(id)))
  {
    FrameTakeKeepsQueries(s, id);
    FrameTakeKeepsPlaces(s, id);
    FrameTakeKeepsThreads(s, id);
    FrameTakeKeepsHistory(s, id);
    FrameTakeKeepsCounts(s, id);
  }

  lemma FrameFinishKeepsInv(s: State)
    requires Inv(s) && Enabled(s, FrameFinish)
    ensures Inv(Apply(s, FrameFinish))
  {
    FrameFinishKeepsShape(s);
    FrameFinishKeepsThreads(s);
    FrameFinishKeepsHistory(s);
    FrameFinishKeepsCounts(s);
  }

  lemma FrameCountKeepsInv(s: State)
    requires Inv(s) && Enabled(s, FrameCount)
    ensures Inv(Apply(s, FrameCount))
  {
    FrameCountKeepsShape(s);
    FrameCountKeepsRest(s);
    FrameCountKeepsCounts(s);
  }

  lemma WorkerDecideKeepsInv(s: State, t: nat)
    requires Inv(s) && Enabled(s, WorkerDecide(t))
    ensures Inv(Apply(s, WorkerDecide(t)))
  {
    var id := s.workers[t].q;
    if SkipsFrame(Get(s, id)) {
      WorkerFinishKeepsQueries(s, t, id);
      WorkerFinishKeepsPlaces(s, t, id);
      WorkerFinishKeepsThreads(s, t, id);
      WorkerFinishKeepsHistory(s, t, id);
      WorkerFinishKeepsCounts(s, t, id);
    } else {
      WorkerQueueKeepsQueries(s, t, id);
      WorkerQueueKeepsPlaces(s, t, id);
      WorkerQueueKeepsThreads(s, t, id);
      WorkerQueueKeepsHistory(s, t, id);
      WorkerQueueKeepsCounts(s, t, id);
    }
  }

  lemma RetryKeepsInv(v: State, id: nat)
    requires Inv(v) && Visiting(v, id) && v.queries[id].finished && MayRetry(v.queries[id])
    ensures Inv(Retry(v, id))
  {
    RetryKeepsQueries(v, id);
    RetryKeepsPlaces(v, id);
    RetryKeepsThreads(v, id);
    RetryKeepsHistory(v, id);
    RetryKeepsCounts(v, id);
  }

  lemma RetireKeepsInv(v: State, id: nat)
    requires Inv(v) && Visiting(v, id) && v.queries[id].finished && !MayRetry(v.queries[id])
    ensures Inv(Retire(v, id))
  {
    RetireKeepsQueries(v, id);
    RetireKeepsPlaces(v, id);
    RetireKeepsThreads(v, id);
    RetireKeepsHistory(v, id);
    RetireKeepsCounts(v, id);
  }

  lemma SelectKeepsInv(v: State, id: nat)
    requires Inv(v) && Visiting(v, id) && !v.queries[id].finished && MaySelect(v, v.queries[id])
    ensures Inv(Select(v, id))
  {
    SelectKeepsQueries(v, id);
    SelectKeepsPlaces(v, id);
    SelectKeepsThreads(v, id);
    SelectKeepsHistory(v, id);
    SelectKeepsCounts(v, id);
  }

  lemma ScanBodyKeepsInv(v: State, id: nat)
    requires Inv(v) && Visiting(v, id)
    ensures Inv(ScanBody(v, id))
  {
    if v.queries[id].finished {
      if MayRetry(v.queries[id]) {
        RetryKeepsInv(v, id);
      } else {
        RetireKeepsInv(v, id);
      }
    } else if MaySelect(v, v.queries[id]) {
      SelectKeepsInv(v, id);
    }
  }

  lemma ScanOneKeepsInv(s: State)
    requires Inv(s) && Enabled(s, ScanOne)
    ensures Inv(Apply(s, ScanOne))
  {
    VisitKeepsShape(s);
    VisitKeepsRest(s);
    ScanBodyKeepsInv(Visit(s), s.poller.todo[0]);
  }

  // The poller's phase changes and joins touch none of the shared state.
  predicate PhaseStep(a: Action) { a.EndScan? || a.EndStart? || a.EndClean? || a.JoinOne? || a.EndJoin? }

  lemma PhaseKeepsShape(s: State, a: Action)
    requires Shape(s) && Enabled(s, a) && PhaseStep(a)
    ensures Shape(Apply(s, a))
  {}

  lemma PhaseKeepsThreads(s: State, a: Action)
    requires Shape(s) && ThreadsOk(s) && Enabled(s, a) && PhaseStep(a)
    ensures ThreadsOk(Apply(s, a))
  {
    if a.JoinOne? {
      assert s.poller.joins == [s.poller.joins[0]] + s.poller.joins[1..];
    }
  }

  lemma PhaseKeepsHistory(s: State, a: Action)
    requires HistoriesOk(s) && Enabled(s, a) && PhaseStep(a)
    ensures HistoriesOk(Apply(s, a))
  {}

  lemma PhaseKeepsCounts(s: State, a: Action)
    requires CountsOk(s) && Enabled(s, a) && PhaseStep(a)
    ensures CountsOk(Apply(s, a))
  {
    CountsSame(s, Apply(s, a));
  }

  lemma PhaseKeepsInv(s: State, a: Action)
    requires Inv(s) && Enabled(s, a) && PhaseStep(a)
    ensures Inv(Apply(s, a))
  {
    PhaseKeepsShape(s, a);
    PhaseKeepsThreads(s, a);
    PhaseKeepsHistory(s, a);
    PhaseKeepsCounts(s, a);
  }

  predicate PollerStep(a: Action) {
    PhaseStep(a) || a.BeginScan? || a.ScanOne? || a.LaunchOne? || a.LaunchFail? || a.CleanOne?
  }

  lemma PollerStepKeepsInv(s: State, a: Action)
    requires Inv(s) && Enabled(s, a) && PollerStep(a)
    ensures Inv(Apply(s, a))
  {
    match a
    case BeginScan(order) => BeginScanKeepsInv(s, order);
    case ScanOne => ScanOneKeepsInv(s);
    case LaunchOne(t) => LaunchOneKeepsInv(s, t);
    case LaunchFail => LaunchFailKeepsInv(s);
    case CleanOne => CleanOneKeepsInv(s);
    case _ => PhaseKeepsInv(s, a);
  }

  lemma OtherStepKeepsInv(s: State, a: Action)
    requires Inv(s) && Enabled(s, a) && !PollerStep(a)
    ensures Inv(Apply(s, a))
  {
    match a
    case Push(pri, async, timeCreate) => PushKeepsInv(s, pri, async, timeCreate);
    case SyncExec(id, ok) => SyncExecKeepsInv(s, id, ok);
    case SyncFree(id) => SyncFreeKeepsInv(s, id);
    case WorkerExec(t, ok, callback) => WorkerExecKeepsInv(s, t, ok, callback);
    case WorkerDecide(t) => WorkerDecideKeepsInv(s, t);
    case WorkerCount(t) => WorkerCountKeepsInv(s, t);
    case FrameTake(id) => FrameTakeKeepsInv(s, id);
    case FrameFinish => FrameFinishKeepsInv(s);
    case FrameCount => FrameCountKeepsInv(s);
  }

  lemma StepKeepsLimit(s: State, a: Action)
    requires Enabled(s, a)
    ensures Apply(s, a).maxThreads == s.maxThreads
  {}

  lemma StepKeepsInv(s: State, a: Action)
    requires Inv(s) && Enabled(s, a)
    ensures Inv(Apply(s, a)) && Apply(s, a).maxThreads == s.maxThreads
  {
    StepKeepsLimit(s, a);
    if PollerStep(a) {
      PollerStepKeepsInv(s, a);
    } else {
      OtherStepKeepsInv(s, a);
    }
  }

  lemma InitInv(maxThreads: nat)
    ensures Inv(Init(maxThreads))
  {
    var s := Init(maxThreads);
    assert Reapable(s) == {} && LeavingWorkers(s) == {};
    forall p ensures Running(s, p) == {} {}
  }

  lemma {:induction false} RunKeepsInv(s: State, run: seq<Action>, s': State)
    requires Inv(s) && Leads(s, run, s')
    ensures Inv(s') && s'.maxThreads == s.maxThreads
    decreases |run|
  {
    if run != [] {
      var n := |run| - 1;
      var r :| Leads(s, run[..n], r) && Enabled(r, run[n]) && s' == Apply(r, run[n]);
      RunKeepsInv(s, run[..n], r);
      StepKeepsInv(r, run[n]);
    }
  }

  // ---- What holds in every run ----

  // The queries that a step dereferences are stored.
  ghost predicate Stored(s: State, a: Action)
    requires Enabled(s, a)
  {
    match a
    case ScanOne => s.poller.todo[0] in s.queries && s.queries[s.poller.todo[0]].pri <= MAX_QUERY_PRIORITY
    case LaunchOne(_) => s.poller.starts[0] in s.queries
    case LaunchFail => s.poller.starts[0] in s.queries
    case CleanOne => s.poller.fins[0] in s.queries
    case WorkerExec(t, _, _) => s.workers[t].q in s.queries
    case WorkerDecide(t) => s.workers[t].q in s.queries
    case FrameTake(id) => forall k :: k in s.frames ==> k in s.queries
    case FrameFinish => s.frame.q in s.queries
    case _ => true
  }

  lemma InvStores(s: State, a: Action)
    requires Inv(s) && Enabled(s, a)
    ensures Stored(s, a)
  {
    if a.ScanOne? {
      assert QueryOk(s, s.poller.todo[0]);
    }
  }

  ghost predicate Reachable(maxThreads: nat, s: State) {
    exists run :: Leads(Init(maxThreads), run, s)
  }

  lemma ReachableInv(maxThreads: nat, s: State)
    requires Reachable(maxThreads, s)
    ensures Inv(s) && s.maxThreads == maxThreads
  {
    var run :| Leads(Init(maxThreads), run, s);
    InitInv(maxThreads);
    RunKeepsInv(Init(maxThreads), run, s);
  }

  lemma LeadsNext(s: State, run: seq<Action>, r: State, a: Action, s': State)
    requires Leads(s, run, r) && Enabled(r, a) && s' == Apply(r, a)
    ensures Leads(s, run + [a], s')
  {
    assert (run + [a])[..|run|] == run;
  }

  // From a reachable state any possible step dereferences stored queries only, and leads to a reachable state.
  lemma ReachableNext(maxThreads: nat, s: State, a: Action)
    requires Reachable(maxThreads, s) && Enabled(s, a)
    ensures Stored(s, a) && Reachable(maxThreads, Apply(s, a))
  {
    ReachableInv(maxThreads, s);
    InvStores(s, a);
    var run :| Leads(Init(maxThreads), run, s);
    LeadsNext(Init(maxThreads), run, s, a, Apply(s, a));
  }

  lemma FramesStored(maxThreads: nat, s: State)
    requires Reachable(maxThreads, s)
    ensures forall id :: id in s.frames ==> id in s.queries
  {
    ReachableInv(maxThreads, s);
  }

  // num_threads - num_finished is never negative and never less than the number of running queries, and the running
  // queries of priority number at least p never exceed max_threads << (MAX_QUERY_PRIORITY - p).
  lemma PriorityBound(maxThreads: nat, s: State, p: nat)
    requires Reachable(maxThreads, s) && p <= MAX_QUERY_PRIORITY
    ensures |Running(s, p)| <= |Running(s, 0)| <= ThreadsCount(s)
    ensures |Running(s, p)| <= ShiftLeft(maxThreads, MAX_QUERY_PRIORITY - p)
  {
    ReachableInv(maxThreads, s);
    Common.SubsetSize(Running(s, p), Running(s, 0));
  }

  lemma ExecutionBound(maxThreads: nat, s: State, id: nat)
    requires Reachable(maxThreads, s)
    ensures s.h.execs[id] <= QUERY_RETRY_COUNT
    ensures s.h.forwards[id] <= s.h.pushes[id] <= 1
    ensures s.h.deletions[id] <= 1
  {
    ReachableInv(maxThreads, s);
    if id in s.queries {
      assert HistoryOk(s, id);
    } else {
      assert GoneOk(s, id);
    }
  }

  // Nobody holds on to the query: no worker, not the frame, not the frame queue, not the poller's start list.
  ghost predicate Unreferenced(s: State, id: nat) {
    && (forall t :: t in s.workers ==> s.workers[t].Leaving? || s.workers[t].q != id)
    && id !in s.frames && s.frame != Holding(id) && id !in s.poller.starts
  }

  // From the moment the poller sets a query aside until after it is deleted, nobody can touch it; and a query that is
  // still stored has never been deleted.
  lemma DeletionIsSafe(maxThreads: nat, s: State, id: nat)
    requires Reachable(maxThreads, s)
    ensures id in s.poller.fins || id !in s.queries ==> Unreferenced(s, id)
    ensures id in s.queries ==> s.h.deletions[id] == 0
    ensures id in s.poller.fins ==> id in s.queries
  {
    ReachableInv(maxThreads, s);
    if id in s.poller.fins {
      assert QueryOk(s, id);
    }
    if id in s.queries {
      assert HistoryOk(s, id);
    }
  }

  // What has happened to an async query by the time it is set aside for deletion: a successful one with a callback
  // was queued once and forwarded once, any other was never queued; an unsuccessful one used up every attempt.
  lemma RetiredOutcome(maxThreads: nat, s: State, id: nat)
    requires Reachable(maxThreads, s) && id in s.queries && id in s.poller.fins && s.queries[id].async
    ensures var q := s.queries[id];
            && s.h.pushes[id] == s.h.forwards[id] == (if q.successful && q.callback then 1 else 0)
            && (!q.successful ==> s.h.execs[id] == QUERY_RETRY_COUNT)
            && (q.successful ==> 1 <= s.h.execs[id])
  {
    ReachableInv(maxThreads, s);
    assert QueryOk(s, id) && HistoryOk(s, id);
  }

  // Only successful queries with a callback are ever in the frame queue or at the frame.
  lemma FrameQueueContents(maxThreads: nat, s: State, id: nat)
    requires Reachable(maxThreads, s) && (id in s.frames || s.frame == Holding(id))
    ensures id in s.queries && s.queries[id].successful && s.queries[id].callback && !s.queries[id].finished
    ensures s.h.pushes[id] == 1
  {
    ReachableInv(maxThreads, s);
    assert QueryOk(s, id) && HistoryOk(s, id);
  }

  lemma QueuedStepsNoExec(s: State, a: Action, id: nat)
    requires Shape(s) && HistoriesOk(s) && Enabled(s, a) && s.h.pushes[id] == 1
    ensures Apply(s, a).h.execs[id] == s.h.execs[id] && Apply(s, a).h.pushes[id] >= 1
  {
    if a.WorkerExec? {
      var k := s.workers[a.t].q;
      assert s.queries[k].place.AtWorker? && QueryOk(s, k) && HistoryOk(s, k);
    }
  }

  // Once queued for the frame, a query is never executed or queued again, however the run continues.
  lemma {:induction false} NeverRestarted(s: State, run: seq<Action>, s': State, id: nat)
    requires Inv(s) && s.h.pushes[id] == 1 && Leads(s, run, s')
    ensures s'.h.execs[id] == s.h.execs[id] && s'.h.pushes[id] == 1
    decreases |run|
  {
    if run != [] {
      var n := |run| - 1;
      var r :| Leads(s, run[..n], r) && Enabled(r, run[n]) && s' == Apply(r, run[n]);
      NeverRestarted(s, run[..n], r, id);
      RunKeepsInv(s, run[..n], r);
      QueuedStepsNoExec(r, run[n], id);
      StepKeepsInv(r, run[n]);
      assert id in s'.queries ==> HistoryOk(s', id);
      assert id !in s'.queries ==> GoneOk(s', id);
    }
  }

  // The assertions in the source cannot fail: the reaped thread handle exists, the counter difference is not negative,
  // and a worker never starts on a finished query.
  lemma SourceAssertions(maxThreads: nat, s: State)
    requires Reachable(maxThreads, s)
    ensures forall id :: FinishedUnreaped(s, id) && s.queries[id].started ==> s.queries[id].tid in s.threads
    ensures ThreadsCount(s) >= 0
    ensures forall t :: t in s.workers && s.workers[t].Executing? ==>
              s.workers[t].q in s.queries && !s.queries[s.workers[t].q].finished
  {
    ReachableInv(maxThreads, s);
    forall id | id in s.queries ensures QueryOk(s, id) {}
    forall id | FinishedUnreaped(s, id) ensures s.queries[id].tid in s.threads
    {
      assert Threaded(s, id);
    }
  }
}
