/**
  The class mysql_mngr: its critical sections as methods that update the fields in place.  Each method is proved to
  perform exactly one step of QueryProtocol, and the object to be in a reachable state before and after it; so
  everything QueryInvariant proves of reachable states holds of the object, and no method dereferences a query that is
  not stored.
*/
module QueryManager {
  import opened QueryProtocol
  import Q = QueryInvariant
  import P = QueryProgress
  import L = QueryLaws

  // What ends each loop of poll_query.
  function LoopEnd(p: Phase): Action
    requires p != Idle
  {
    match p
    case Scan => EndScan
    case Start => EndStart
    case Clean => EndClean
    case Join => EndJoin
  }

  class MysqlMngr {
    const maxThreads: nat
    var nextId: nat                   // m_query_nums
    var queries: map<nat, Query>      // m_queries, all priorities
    var threads: set<nat>             // keys of m_threads
    var frames: seq<nat>              // m_frames
    var numThreads: int
    var numFinished: int
    var poller: Poller                // local lists of poll_query
    ghost var workers: map<nat, Worker>
    ghost var frame: Frame
    ghost var h: History

    ghost function Abs(): State
      reads this
    {
      State(maxThreads, nextId, queries, threads, frames, numThreads, numFinished, workers, frame, poller, h)
    }

    // Some run of the protocol has led here.
    ghost predicate Valid()
      reads this
    {
      Q.Reachable(maxThreads, Abs())
    }

    // What that means for the object, whatever has been called in whatever order.
    lemma Promises(p: nat, id: nat)
      requires Valid() && p <= MAX_QUERY_PRIORITY
      ensures |Q.Running(Abs(), p)| <= maxThreads * L.SHARE[p] && 0 <= numThreads - numFinished
      ensures h.execs[id] <= QUERY_RETRY_COUNT && h.forwards[id] <= h.pushes[id] <= 1 && h.deletions[id] <= 1
      ensures id in poller.fins || id !in queries ==> Q.Unreferenced(Abs(), id)
    {
      Q.PriorityBound(maxThreads, Abs(), p);
      L.ShareBound(maxThreads, Abs(), p);
      Q.ExecutionBound(maxThreads, Abs(), id);
      Q.DeletionIsSafe(maxThreads, Abs(), id);
    }

    // And no query is stuck: some continuation of what has been done so far deletes it.
    lemma NothingStuck(id: nat)
      requires Valid() && maxThreads > 0 && id in queries && queries[id].async
      ensures exists run, s :: Leads(Abs(), run, s) && id !in s.queries && s.h.deletions[id] == 1
    {
      P.EveryQueryCanRetire(maxThreads, Abs(), id);
    }

    constructor (maxThreads: nat)
      ensures Valid() && Abs() == Init(maxThreads)
    {
      this.maxThreads := maxThreads;
      nextId, queries, threads, frames, numThreads, numFinished := 0, map[], {}, [], 0, 0;
      poller := Poller(Idle, [], [], [], []);
      workers, frame := map[], FrameIdle;
      h := History(multiset{}, multiset{}, multiset{}, multiset{});
      new;
      assert Leads(Init(maxThreads), [], Abs());
    }

    // prepare_query; an empty text or a priority number above the maximum is refused.
    method PrepareQuery(text: string, pri: nat, async: bool, timeCreate: int) returns (ok: bool)
      requires Valid() && poller.phase != Scan && poller.phase != Start
      modifies this
      ensures Valid()
      ensures ok <==> text != "" && pri <= MAX_QUERY_PRIORITY
      ensures Abs() == if ok then Apply(old(Abs()), Push(pri, async, timeCreate)) else old(Abs())
      ensures ok ==>
        && nextId == old(nextId) + 1 && queries.Keys == old(queries).Keys + {old(nextId)}
        && (forall id :: id in old(queries) && id != old(nextId) ==> queries[id] == old(queries)[id])
        && var q := queries[old(nextId)];
           && q.pri == pri && q.async == async && q.timeCreate == timeCreate && q.retryCount == 0
           && !q.started && !q.finished && !q.successful && !q.framed
    {
      if text == "" || pri > MAX_QUERY_PRIORITY {
        return false;
      }
      Q.ReachableNext(maxThreads, Abs(), Push(pri, async, timeCreate));
      var q := Query(pri, async, timeCreate, false, false, false, false, false, 0, 0, if async then Waiting else Sync);
      queries := queries[nextId := q];
      nextId := nextId + 1;
      return true;
    }

    // exec_query on a query without a thread of its own.  One without a connection, or that has been freed or executed
    // before, is left alone; otherwise the database decides the outcome.
    method ExecQuery(id: nat, connected: bool, ok: bool) returns (done: bool)
      requires Valid() && id in queries && !queries[id].async
      modifies this
      ensures Valid()
      ensures
        var runs := connected && !old(queries[id].finished) && !old(queries[id].started);
        && done == (runs && ok)
        && Abs() == (if runs then Apply(old(Abs()), SyncExec(id, ok)) else old(Abs()))
        && (runs ==> queries == old(queries)[id := old(queries)[id].(started := true, successful := ok)])
    {
      if !connected || queries[id].finished || queries[id].started {
        return false;
      }
      Q.ReachableNext(maxThreads, Abs(), SyncExec(id, ok));
      queries := queries[id := queries[id].(started := true, successful := ok)];
      return ok;
    }

    // free_query hands a query without a thread to the poller, once; of any other, and the second time, it only frees
    // what the query holds.
    method FreeQuery(id: nat)
      requires Valid() && id in queries
      modifies this
      ensures Valid()
      ensures Abs() == if old(queries[id].async || queries[id].finished) then old(Abs())
                       else Apply(old(Abs()), SyncFree(id))
      ensures var q := old(queries[id]);
              queries == old(queries)[id := q.(finished := q.finished || !q.async)]
    {
      if !queries[id].async && !queries[id].finished {
        Q.ReachableNext(maxThreads, Abs(), SyncFree(id));
        queries := queries[id := queries[id].(finished := true)];
      }
    }

    // The nested loops over m_queries: every list in turn, each in the order of its ids.
    method VisitOrder() returns (order: seq<nat>)
      ensures order == P.PollOrder(queries, MAX_QUERY_PRIORITY + 1, nextId)
    {
      order := [];
      for pri := 0 to MAX_QUERY_PRIORITY + 1
        invariant order == P.PollOrder(queries, pri, nextId)
      {
        for id := 0 to nextId
          invariant order == P.PollOrder(queries, pri, nextId) + P.OfPriority(queries, pri, id)
        {
          if id in queries && queries[id].pri == pri {
            order := order + [id];
          }
        }
      }
    }

    // poll_query begins.
    method BeginPoll() returns (ghost order: seq<nat>)
      requires Valid() && poller.phase == Idle
      modifies this
      ensures Valid() && order == P.PollOrder(old(queries), MAX_QUERY_PRIORITY + 1, nextId)
      ensures Enabled(old(Abs()), BeginScan(order)) && Abs() == Apply(old(Abs()), BeginScan(order))
      // every stored query comes up once, the lower priority numbers first, and equal ones by their ids
      ensures poller.todo == order && forall id :: id in order <==> id in queries
      ensures forall i, j :: 0 <= i < j < |order| ==>
        || queries[order[i]].pri < queries[order[j]].pri
        || (queries[order[i]].pri == queries[order[j]].pri && order[i] < order[j])
    {
      var todo := VisitOrder();
      order := todo;
      P.ReachablePollOrder(maxThreads, Abs());
      Q.ReachableNext(maxThreads, Abs(), BeginScan(order));
      poller := Poller(Scan, todo, [], [], []);
    }

    // Between the loops of poll_query, and at its end.
    method NextLoop()
      requires Valid() && poller.phase != Idle && Enabled(Abs(), LoopEnd(poller.phase))
      modifies this
      ensures Valid() && Abs() == Apply(old(Abs()), LoopEnd(old(poller.phase)))
    {
      Q.ReachableNext(maxThreads, Abs(), LoopEnd(poller.phase));
      poller := poller.(phase := match poller.phase
                                 case Scan => Start
                                 case Start => Clean
                                 case Clean => Join
                                 case _ => Idle);
    }

    // One iteration of the loop that joins the finished threads.
    method JoinThread()
      requires Valid() && Enabled(Abs(), JoinOne)
      modifies this
      ensures Valid() && Abs() == Apply(old(Abs()), JoinOne)
    {
      Q.ReachableNext(maxThreads, Abs(), JoinOne);
      poller := poller.(joins := poller.joins[1..]);
    }

    // The scan meets a finished query: its thread is taken back, and it is retried or set aside for deletion.
    method MeetFinished(id: nat)
      requires id in queries && queries[id].finished
      modifies this
      ensures Abs() == if MayRetry(old(queries[id])) then Retry(old(Abs()), id) else Retire(old(Abs()), id)
    {
      var q := queries[id];
      if q.async && q.started {
        poller := poller.(joins := poller.joins + [q.tid]);
        numThreads := numThreads - 1;
        numFinished := numFinished - 1;
        threads := threads - {q.tid};
      }
      var again := false;
      if q.async && !q.successful {
        q := q.(retryCount := q.retryCount + 1);
        again := q.retryCount < QUERY_RETRY_COUNT;
      }
      if again {
        q := q.(started := false, finished := false, place := Waiting);
      } else {
        poller := poller.(fins := poller.fins + [id]);
      }
      queries := queries[id := q];
    }

    // One iteration of the scan loop of poll_query: the assignments.
    method VisitOne()
      requires Enabled(Abs(), ScanOne) && Q.Stored(Abs(), ScanOne)
      modifies this
      ensures Abs() == Apply(old(Abs()), ScanOne)
    {
      var id := poller.todo[0];
      var q := queries[id];
      poller := poller.(todo := poller.todo[1..]);
      if q.finished {
        MeetFinished(id);
      } else if q.async && !q.started && numThreads - numFinished < ShiftLeft(maxThreads, MAX_QUERY_PRIORITY - q.pri) {
        queries := queries[id := q.(started := true, place := Selected)];
        poller := poller.(starts := poller.starts + [id]);
        numThreads := numThreads + 1;
      }
    }

    // One iteration of the scan loop of poll_query.  A waiting query is started if and only if the running ones leave
    // room for its priority; a finished one waits again after its first and second failure, and is deleted otherwise.
    method PollOne()
      requires Valid() && Enabled(Abs(), ScanOne)
      modifies this
      ensures Valid() && Abs() == Apply(old(Abs()), ScanOne)
      ensures old(poller.todo[0]) in old(queries) && old(poller.todo[0]) in queries
      ensures
        var q, q' := old(queries[poller.todo[0]]), queries[old(poller.todo[0])];
        && q.pri <= 5
        && (!q.finished && q.async && !q.started ==>
              (q'.started <==> old(numThreads) - old(numFinished) < maxThreads * L.SHARE[q.pri]))
        && (!q.finished && (!q.async || q.started) ==> q' == q)
        && (q.finished ==> (q'.finished <==> !q.async || q.successful || q.retryCount >= 2))
    {
      L.VisitSelects(maxThreads, Abs());
      L.VisitFinished(maxThreads, Abs());
      Q.ReachableNext(maxThreads, Abs(), ScanOne);
      VisitOne();
    }

    // One iteration of the start loop; t is the id of the new thread, if it could be created.
    method StartOne(created: bool, t: nat)
      requires Valid() && Enabled(Abs(), if created then LaunchOne(t) else LaunchFail)
      modifies this
      ensures Valid() && Abs() == Apply(old(Abs()), if created then LaunchOne(t) else LaunchFail)
      ensures var id := old(poller.starts[0]);
        && id in queries && queries[id].started == created
        && numThreads == old(numThreads) - (if created then 0 else 1)
        && (created ==> t in threads && queries[id].tid == t && t in workers && workers[t] == Executing(id))
    {
      L.SelectedIsStarted(maxThreads, Abs());
      Q.ReachableNext(maxThreads, Abs(), if created then LaunchOne(t) else LaunchFail);
      var id := poller.starts[0];
      var q := queries[id];
      poller := poller.(starts := poller.starts[1..]);
      if !created {
        queries := queries[id := q.(started := false, place := Waiting)];
        numThreads := numThreads - 1;
        return;
      }
      threads := threads + {t};
      queries := queries[id := q.(tid := t, place := AtWorker(t))];
      workers := workers[t := Executing(id)];
    }

    // One iteration of the cleaner loop: free, erase, delete.
    method DeleteOne()
      requires Valid() && Enabled(Abs(), CleanOne)
      modifies this
      ensures Valid() && Abs() == Apply(old(Abs()), CleanOne)
    {
      Q.ReachableNext(maxThreads, Abs(), CleanOne);
      var id := poller.fins[0];
      poller := poller.(fins := poller.fins[1..]);
      queries := queries - {id};
      h := h.(deletions := h.deletions + multiset{id});
    }

    // run_query up to the query's execution; the database decides the outcome.
    method RunQueryExec(t: nat, id: nat, ok: bool, callback: bool)
      requires Valid() && t in workers && workers[t] == Executing(id)
      modifies this
      ensures Valid() && Abs() == Apply(old(Abs()), WorkerExec(t, ok, callback))
      ensures id in queries && queries[id].successful == ok && queries[id].callback == callback
      ensures h.execs[id] == old(h.execs[id]) + 1
    {
      Q.ReachableNext(maxThreads, Abs(), WorkerExec(t, ok, callback));
      queries := queries[id := queries[id].(successful := ok, callback := callback)];
      workers := workers[t := Deciding(id)];
      h := h.(execs := h.execs + multiset{id});
    }

    // The assignments of run_query from the execution to `finished = true` or to the push into m_frames.
    method Decide(t: nat, id: nat)
      requires t in workers && workers[t] == Deciding(id) && id in queries
      modifies this
      ensures Abs() == Apply(old(Abs()), WorkerDecide(t))
    {
      var q := queries[id];
      if !q.callback || (!q.successful && q.retryCount < QUERY_RETRY_COUNT) {
        queries := queries[id := q.(finished := true, place := Done)];
        workers := workers[t := Leaving];
        return;
      }
      queries := queries[id := q.(framed := true, place := Queued)];
      frames := frames + [id];
      workers := workers - {t};
      h := h.(pushes := h.pushes + multiset{id});
    }

    // An executed query is queued for the frame if and only if it has a callback and has succeeded or has no attempt
    // left.
    method RunQueryDecide(t: nat, id: nat)
      requires Valid() && t in workers && workers[t] == Deciding(id)
      modifies this
      ensures Valid() && Abs() == Apply(old(Abs()), WorkerDecide(t))
      ensures id in old(queries) && id in queries
      ensures var q := old(queries[id]);
              var queued := q.callback && (q.successful || q.retryCount >= 3);
              && frames == old(frames) + (if queued then [id] else [])
              && (queries[id].finished <==> !queued)
    {
      L.DecisionQueues(maxThreads, Abs(), t);
      Q.ReachableNext(maxThreads, Abs(), WorkerDecide(t));
      Decide(t, id);
    }

    method RunQueryCount(t: nat)
      requires Valid() && t in workers && workers[t] == Leaving
      modifies this
      ensures Valid() && Abs() == Apply(old(Abs()), WorkerCount(t))
    {
      Q.ReachableNext(maxThreads, Abs(), WorkerCount(t));
      numFinished := numFinished + 1;
      workers := workers - {t};
    }

    // The top of m_frames, found by comparing creation times.
    method Top() returns (id: nat)
      requires frames != [] && forall k :: k in frames ==> k in queries
      ensures Oldest(Abs(), id)
    {
      id := frames[0];
      for i := 1 to |frames|
        invariant id in frames
        invariant forall k :: 0 <= k < i ==> queries[id].timeCreate <= queries[frames[k]].timeCreate
      {
        if queries[frames[i]].timeCreate < queries[id].timeCreate {
          id := frames[i];
        }
      }
    }

    // The entry leaves m_frames for the frame.
    method Pop(id: nat)
      requires Enabled(Abs(), FrameTake(id))
      modifies this
      ensures Abs() == Apply(old(Abs()), FrameTake(id))
    {
      frames := Without(frames, id);
      queries := queries[id := queries[id].(place := AtFrame)];
      frame := Holding(id);
      h := h.(forwards := h.forwards + multiset{id});
    }

    // get_frame_query
    method GetFrameQuery() returns (found: bool, id: nat)
      requires Valid() && frame == FrameIdle
      modifies this
      ensures Valid()
      ensures found <==> old(frames) != []
      ensures !found ==> Abs() == old(Abs())
      ensures found ==> Enabled(old(Abs()), FrameTake(id)) && Abs() == Apply(old(Abs()), FrameTake(id))
      // no query in the queue is older than the one that leaves it
      ensures forall k :: k in old(frames) ==> k in old(queries)
      ensures found ==>
        && id in old(frames) && (forall k :: k in frames <==> k in old(frames) && k != id)
        && forall k :: k in old(frames) ==> old(queries)[id].timeCreate <= old(queries)[k].timeCreate
    {
      Q.FramesStored(maxThreads, Abs());
      if frames == [] {
        return false, 0;
      }
      id := Top();
      L.FrameTakesOldest(maxThreads, Abs(), id);
      Q.ReachableNext(maxThreads, Abs(), FrameTake(id));
      Pop(id);
      return true, id;
    }

    // frame_forward after the callback.
    method FrameForwardFinish(id: nat)
      requires Valid() && frame == Holding(id)
      modifies this
      ensures Valid() && Abs() == Apply(old(Abs()), FrameFinish)
    {
      Q.ReachableNext(maxThreads, Abs(), FrameFinish);
      queries := queries[id := queries[id].(finished := true, place := Done)];
      frame := FrameLeaving;
    }

    method FrameForwardCount()
      requires Valid() && frame == FrameLeaving
      modifies this
      ensures Valid() && Abs() == Apply(old(Abs()), FrameCount)
    {
      Q.ReachableNext(maxThreads, Abs(), FrameCount);
      numFinished := numFinished + 1;
      frame := FrameIdle;
    }
  }
}
