/**
  The asynchronous query manager of refsapi_mysql_mngr.h as interleaved atomic steps between two calls of stop().
  Three kinds of threads share the state: the poller (poll_query), one worker per started query (run_query), and the
  game frame (frame_forward).  Setting `finished` and incrementing `num_finished` are separate steps, and the poller's
  scan handles one query per step, so workers and the frame interleave with it.
*/
module QueryProtocol {
  const MAX_QUERY_PRIORITY := 5
  const QUERY_RETRY_COUNT := 3

  // Who may touch the query next.  Auxiliary: written by the steps, read by none of them.
  datatype Place = Waiting | Selected | AtWorker(t: nat) | Queued | AtFrame | Done | Sync

  datatype Query = Query(
    pri: nat, async: bool, timeCreate: int,
    started: bool, finished: bool, successful: bool, framed: bool,
    callback: bool, retryCount: nat, tid: nat, place: Place)

  // A worker thread: about to execute, about to decide what follows, or past `finished = true` with the counter due.
  datatype Worker = Executing(q: nat) | Deciding(q: nat) | Leaving

  datatype Frame = FrameIdle | Holding(q: nat) | FrameLeaving

  datatype Phase = Idle | Scan | Start | Clean | Join

  // The poller with its local lists.
  datatype Poller = Poller(phase: Phase, todo: seq<nat>, starts: seq<nat>, fins: seq<nat>, joins: seq<nat>)

  // How often each query has been executed, pushed into the frame queue, forwarded and deleted.
  datatype History = History(
    execs: multiset<nat>, pushes: multiset<nat>, forwards: multiset<nat>, deletions: multiset<nat>)

  datatype State = State(
    maxThreads: nat, nextId: nat, queries: map<nat, Query>, threads: set<nat>, frames: seq<nat>,
    numThreads: int, numFinished: int,
    workers: map<nat, Worker>, frame: Frame, poller: Poller, h: History)

  function Init(maxThreads: nat): State {
    State(maxThreads, 0, map[], {}, [], 0, 0, map[], FrameIdle, Poller(Idle, [], [], [], []),
          History(multiset{}, multiset{}, multiset{}, multiset{}))
  }

  function ShiftLeft(x: nat, k: nat): nat {
    if k == 0 then x else 2 * ShiftLeft(x, k - 1)
  }

  function Limit(s: State, pri: nat): nat {
    ShiftLeft(s.maxThreads, if pri <= MAX_QUERY_PRIORITY then MAX_QUERY_PRIORITY - pri else 0)
  }

  function ThreadsCount(s: State): int { s.numThreads - s.numFinished }

  datatype Action =
    | Push(pri: nat, async: bool, timeCreate: int)
    | SyncExec(id: nat, ok: bool)
    | SyncFree(id: nat)
    | BeginScan(order: seq<nat>)
    | ScanOne
    | EndScan
    | LaunchOne(t: nat)
    | LaunchFail
    | EndStart
    | CleanOne
    | EndClean
    | JoinOne
    | EndJoin
    | WorkerExec(t: nat, ok: bool, callback: bool)
    | WorkerDecide(t: nat)
    | WorkerCount(t: nat)
    | FrameTake(id: nat)
    | FrameFinish
    | FrameCount

  ghost predicate NoDup(xs: seq<nat>) {
    forall i, j :: 0 <= i < j < |xs| ==> xs[i] != xs[j]
  }

  // The scan visits the priority lists in turn, each in the order of its ids.
  ghost predicate ScanOrder(queries: map<nat, Query>, order: seq<nat>) {
    && NoDup(order)
    && (forall id :: id in order <==> id in queries)
    && (forall i, j :: 0 <= i < j < |order| ==>
          var a, b := queries[order[i]].pri, queries[order[j]].pri;
          a < b || (a == b && order[i] < order[j]))
  }

  ghost predicate Enabled(s: State, a: Action) {
    match a
    case Push(pri, _, _) => pri <= MAX_QUERY_PRIORITY && s.poller.phase != Scan && s.poller.phase != Start
    case SyncExec(id, _) => id in s.queries && !s.queries[id].async && !s.queries[id].started && !s.queries[id].finished
    case SyncFree(id) => id in s.queries && !s.queries[id].async && !s.queries[id].finished
    case BeginScan(order) => s.poller.phase == Idle && ScanOrder(s.queries, order)
    case ScanOne => s.poller.phase == Scan && s.poller.todo != []
    case EndScan => s.poller.phase == Scan && s.poller.todo == []
    case LaunchOne(t) => s.poller.phase == Start && s.poller.starts != [] &&
                         t !in s.threads && t !in s.workers && t !in s.poller.joins
    case LaunchFail => s.poller.phase == Start && s.poller.starts != []
    case EndStart => s.poller.phase == Start && s.poller.starts == []
    case CleanOne => s.poller.phase == Clean && s.poller.fins != []
    case EndClean => s.poller.phase == Clean && s.poller.fins == []
    case JoinOne => s.poller.phase == Join && s.poller.joins != [] && s.poller.joins[0] !in s.workers
    case EndJoin => s.poller.phase == Join && s.poller.joins == []
    case WorkerExec(t, _, _) => t in s.workers && s.workers[t].Executing?
    case WorkerDecide(t) => t in s.workers && s.workers[t].Deciding?
    case WorkerCount(t) => t in s.workers && s.workers[t].Leaving?
    case FrameTake(id) => s.frame.FrameIdle? && Oldest(s, id)
    case FrameFinish => s.frame.Holding?
    case FrameCount => s.frame.FrameLeaving?
  }

  // The top of the frame queue: an entry that no other entry precedes in creation time.
  ghost predicate Oldest(s: State, id: nat) {
    id in s.frames && id in s.queries &&
    forall k :: k in s.frames && k in s.queries ==> s.queries[id].timeCreate <= s.queries[k].timeCreate
  }

  function Without(xs: seq<nat>, x: nat): seq<nat> {
    if xs == [] then [] else if xs[0] == x then xs[1..] else [xs[0]] + Without(xs[1..], x)
  }

  // ---- What each step does ----

  function DoPush(s: State, pri: nat, async: bool, timeCreate: int): State {
    var q := Query(pri, async, timeCreate, false, false, false, false, false, 0, 0, if async then Waiting else Sync);
    s.(nextId := s.nextId + 1, queries := s.queries[s.nextId := q])
  }

  // Dereferences a query; a missing id (which never happens, by the invariant) reads as a blank query.
  function Get(s: State, id: nat): Query {
    if id in s.queries then s.queries[id] else Query(0, false, 0, false, false, false, false, false, 0, 0, Sync)
  }

  function Set(s: State, id: nat, q: Query): State {
    s.(queries := s.queries[id := q])
  }

  // Joining a finished worker is deferred; its handle and both counters are taken back at once.
  function Reap(s: State, q: Query): State {
    if q.async && q.started then
      s.(numThreads := s.numThreads - 1, numFinished := s.numFinished - 1, threads := s.threads - {q.tid},
         poller := s.poller.(joins := s.poller.joins + [q.tid]))
    else s
  }

  function Visit(s: State): State
    requires s.poller.todo != []
  {
    s.(poller := s.poller.(todo := s.poller.todo[1..]))
  }

  // A failed attempt with retries left goes back to waiting.
  function Retry(s: State, id: nat): State {
    var q := Get(s, id);
    Set(Reap(s, q), id, q.(retryCount := q.retryCount + 1, started := false, finished := false, place := Waiting))
  }

  // Any other finished query is set aside for deletion.
  function Retire(s: State, id: nat): State {
    var q := Get(s, id);
    var r := Reap(s, q);
    var q1 := if q.async && !q.successful then q.(retryCount := q.retryCount + 1) else q;
    Set(r, id, q1).(poller := r.poller.(fins := r.poller.fins + [id]))
  }

  function Select(s: State, id: nat): State {
    Set(s, id, Get(s, id).(started := true, place := Selected))
    .(numThreads := s.numThreads + 1, poller := s.poller.(starts := s.poller.starts + [id]))
  }

  predicate MayRetry(q: Query) { q.async && !q.successful && q.retryCount + 1 < QUERY_RETRY_COUNT }

  predicate MaySelect(s: State, q: Query) { q.async && !q.started && ThreadsCount(s) < Limit(s, q.pri) }

  function ScanBody(s: State, id: nat): State {
    var q := Get(s, id);
    if q.finished then
      if MayRetry(q) then Retry(s, id) else Retire(s, id)
    else if MaySelect(s, q) then Select(s, id)
    else s
  }

  function DoScanOne(s: State): State
    requires s.poller.todo != []
  {
    ScanBody(Visit(s), s.poller.todo[0])
  }

  function DoLaunchOne(s: State, t: nat): State
    requires s.poller.starts != []
  {
    var id := s.poller.starts[0];
    Set(s, id, Get(s, id).(tid := t, place := AtWorker(t)))
    .(threads := s.threads + {t}, workers := s.workers[t := Executing(id)],
      poller := s.poller.(starts := s.poller.starts[1..]))
  }

  function DoLaunchFail(s: State): State
    requires s.poller.starts != []
  {
    var id := s.poller.starts[0];
    Set(s, id, Get(s, id).(started := false, place := Waiting))
    .(numThreads := s.numThreads - 1, poller := s.poller.(starts := s.poller.starts[1..]))
  }

  function DoCleanOne(s: State): State
    requires s.poller.fins != []
  {
    var id := s.poller.fins[0];
    s.(queries := s.queries - {id}, poller := s.poller.(fins := s.poller.fins[1..]),
       h := s.h.(deletions := s.h.deletions + multiset{id}))
  }

  function DoWorkerExec(s: State, t: nat, ok: bool, callback: bool): State
    requires t in s.workers && s.workers[t].Executing?
  {
    var id := s.workers[t].q;
    Set(s, id, Get(s, id).(successful := ok, callback := callback))
    .(workers := s.workers[t := Deciding(id)], h := s.h.(execs := s.h.execs + multiset{id}))
  }

  // The first half of finishing: the flag is set, the counter is still due.
  function WorkerFinish(s: State, t: nat, id: nat): State {
    Set(s, id, Get(s, id).(finished := true, place := Done)).(workers := s.workers[t := Leaving])
  }

  function WorkerQueue(s: State, t: nat, id: nat): State {
    Set(s, id, Get(s, id).(framed := true, place := Queued))
    .(frames := s.frames + [id], workers := s.workers - {t}, h := s.h.(pushes := s.h.pushes + multiset{id}))
  }

  predicate SkipsFrame(q: Query) { !q.callback || (!q.successful && q.retryCount < QUERY_RETRY_COUNT) }

  function DoWorkerDecide(s: State, t: nat): State
    requires t in s.workers && s.workers[t].Deciding?
  {
    var id := s.workers[t].q;
    if SkipsFrame(Get(s, id)) then WorkerFinish(s, t, id) else WorkerQueue(s, t, id)
  }

  function DoFrameTake(s: State, id: nat): State {
    Set(s, id, Get(s, id).(place := AtFrame))
    .(frames := Without(s.frames, id), frame := Holding(id), h := s.h.(forwards := s.h.forwards + multiset{id}))
  }

  function DoFrameFinish(s: State): State
    requires s.frame.Holding?
  {
    var id := s.frame.q;
    Set(s, id, Get(s, id).(finished := true, place := Done)).(frame := FrameLeaving)
  }

  ghost function Apply(s: State, a: Action): State
    requires Enabled(s, a)
  {
    match a
    case Push(pri, async, timeCreate) => DoPush(s, pri, async, timeCreate)
    case SyncExec(id, ok) => Set(s, id, Get(s, id).(started := true, successful := ok))
    case SyncFree(id) => Set(s, id, Get(s, id).(finished := true))
    case BeginScan(order) => s.(poller := Poller(Scan, order, [], [], []))
    case ScanOne => DoScanOne(s)
    case EndScan => s.(poller := s.poller.(phase := Start))
    case LaunchOne(t) => DoLaunchOne(s, t)
    case LaunchFail => DoLaunchFail(s)
    case EndStart => s.(poller := s.poller.(phase := Clean))
    case CleanOne => DoCleanOne(s)
    case EndClean => s.(poller := s.poller.(phase := Join))
    case JoinOne => s.(poller := s.poller.(joins := s.poller.joins[1..]))
    case EndJoin => s.(poller := s.poller.(phase := Idle))
    case WorkerExec(t, ok, callback) => DoWorkerExec(s, t, ok, callback)
    case WorkerDecide(t) => DoWorkerDecide(s, t)
    case WorkerCount(t) => s.(workers := s.workers - {t}, numFinished := s.numFinished + 1)
    case FrameTake(id) => DoFrameTake(s, id)
    case FrameFinish => DoFrameFinish(s)
    case FrameCount => s.(frame := FrameIdle, numFinished := s.numFinished + 1)
  }

  // Taking these steps in turn leads from s to s'.
  ghost predicate Leads(s: State, run: seq<Action>, s': State)
    decreases |run|
  {
    if run == [] then s' == s
    else
      var n := |run| - 1;
      exists r :: Leads(s, run[..n], r) && Enabled(r, run[n]) && s' == Apply(r, run[n])
  }
}
