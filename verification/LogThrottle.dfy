/**
  The throttle of log_mngr: how many writer threads write_to_disk starts, and the productivity counter that trades batch
  size against thread count.  Writers are started, finish, and are reaped by the main loop.
*/
module LogThrottle {
  import LogWriter

  type Line = LogWriter.Line

  const UINT8 := 256
  const MAX_LOG_BUFFER_SIZE := 8192

  // numThreads counts started writers not yet reaped, numFinished those among them that are done.
  datatype State = State(maxWriters: nat, numThreads: int, numFinished: int, productivity: nat)

  // max_writer_threads is a uint8 and never 0.
  predicate IsMaxWriters(n: nat) { 1 <= n < UINT8 }

  function MaxProductivity(maxWriters: nat): nat { 2 * maxWriters }

  // The largest value of the counter, which is a uint8 itself.
  function MaxCounter(maxWriters: nat): nat {
    if MaxProductivity(maxWriters) < UINT8 then MaxProductivity(maxWriters) else UINT8 - 1
  }

  // Conversion to uint8 of a value below 512.
  function Wrap(n: nat): nat { if n >= UINT8 then n - UINT8 else n }

  function Running(s: State): int { s.numThreads - s.numFinished }

  function Init(maxWriters: nat): State {
    State(maxWriters, 0, 0, Wrap(MaxProductivity(maxWriters)))
  }

  // WriteFails is a write_to_disk in which the thread cannot be created and the exception leaves it.
  datatype Action = WriteToDisk | WriteFails | WriterDone | Reap

  predicate Enabled(s: State, a: Action) {
    a.WriterDone? ==> Running(s) > 0
  }

  // The productivity after the branch at the head of write_to_disk; the counter is a uint8.
  function Adjust(s: State): State {
    if Running(s) >= s.maxWriters then s.(productivity := if s.productivity > 0 then s.productivity - 1 else 0)
    else if s.productivity < MaxProductivity(s.maxWriters) then s.(productivity := Wrap(s.productivity + 1))
    else s
  }

  // write_to_disk with a non-empty buffer starts a writer unless both the thread limit and the counter are exhausted.
  predicate Starts(s: State) { Running(s) < s.maxWriters || s.productivity > 0 }

  function Apply(s: State, a: Action): State {
    match a
    case WriteToDisk => if Starts(s) then Adjust(s).(numThreads := s.numThreads + 1) else s
    case WriteFails => if Starts(s) then Adjust(s) else s
    case WriterDone => s.(numFinished := s.numFinished + 1)
    case Reap => s.(numThreads := s.numThreads - s.numFinished, numFinished := 0)
  }

  function BatchShift(s: State): int { MaxProductivity(s.maxWriters) - s.productivity }

  ghost predicate Runs(maxWriters: nat, run: seq<Action>, s: State)
    decreases |run|
  {
    if run == [] then s == Init(maxWriters)
    else
      var n := |run| - 1;
      exists r :: Runs(maxWriters, run[..n], r) && Enabled(r, run[n]) && s == Apply(r, run[n])
  }

  predicate Inv(s: State) {
    && IsMaxWriters(s.maxWriters)
    && 0 <= s.numFinished <= s.numThreads
    && s.productivity <= MaxCounter(s.maxWriters)
    && Running(s) + s.productivity <= s.maxWriters + MaxCounter(s.maxWriters)
  }

  lemma StepKeepsInv(s: State, a: Action)
    requires Inv(s) && Enabled(s, a)
    ensures Inv(Apply(s, a)) && Apply(s, a).maxWriters == s.maxWriters
  {}

  lemma {:induction false} RunsKeepInv(maxWriters: nat, run: seq<Action>, s: State)
    requires IsMaxWriters(maxWriters) && Runs(maxWriters, run, s)
    ensures Inv(s) && s.maxWriters == maxWriters
    decreases |run|
  {
    if run != [] {
      var n := |run| - 1;
      var r :| Runs(maxWriters, run[..n], r) && Enabled(r, run[n]) && s == Apply(r, run[n]);
      RunsKeepInv(maxWriters, run[..n], r);
      StepKeepsInv(r, run[n]);
    }
  }

  // In every reachable state; the shift bound holds for the state in which a writer is started as well.
  lemma ThrottleBounds(maxWriters: nat, run: seq<Action>, s: State)
    requires IsMaxWriters(maxWriters) && Runs(maxWriters, run, s)
    ensures 0 <= Running(s) && Running(s) + s.productivity <= maxWriters + MaxCounter(maxWriters)
    ensures maxWriters + MaxCounter(maxWriters) <= maxWriters + MaxProductivity(maxWriters) == 3 * maxWriters
    ensures 0 <= BatchShift(s) <= MaxProductivity(maxWriters)
    ensures 0 <= BatchShift(Apply(s, WriteToDisk)) <= MaxProductivity(maxWriters)
    ensures Running(s) == maxWriters + MaxCounter(maxWriters) ==> !Starts(s)
  {
    RunsKeepInv(maxWriters, run, s);
    StepKeepsInv(s, WriteToDisk);
  }

  // ---- The bound is exact ----

  ghost predicate Reached(maxWriters: nat, s: State) {
    exists run :: Runs(maxWriters, run, s)
  }

  lemma ReachedNext(maxWriters: nat, s: State, a: Action)
    requires Reached(maxWriters, s) && Enabled(s, a)
    ensures Reached(maxWriters, Apply(s, a))
  {
    var run :| Runs(maxWriters, run, s);
    var more := run + [a];
    assert more[..|more| - 1] == run;
    assert Runs(maxWriters, more, Apply(s, a));
  }

  lemma ReachedInv(maxWriters: nat, s: State)
    requires IsMaxWriters(maxWriters) && Reached(maxWriters, s)
    ensures Inv(s) && s.maxWriters == maxWriters
  {
    var run :| Runs(maxWriters, run, s);
    RunsKeepInv(maxWriters, run, s);
  }

  // Up to the limit writers start one after the other ...
  lemma {:induction false} StartWriters(maxWriters: nat, n: nat) returns (s: State)
    requires IsMaxWriters(maxWriters) && n <= maxWriters
    ensures Reached(maxWriters, s) && Running(s) == n
  {
    if n == 0 {
      s := Init(maxWriters);
      assert Runs(maxWriters, [], s);
    } else {
      var r := StartWriters(maxWriters, n - 1);
      ReachedInv(maxWriters, r);
      ReachedNext(maxWriters, r, WriteToDisk);
      s := Apply(r, WriteToDisk);
    }
  }

  // ... replacing a finished writer by a new one raises the counter ...
  lemma {:induction false} RaiseCounter(maxWriters: nat, r: State) returns (s: State)
    requires IsMaxWriters(maxWriters) && Reached(maxWriters, r) && Running(r) == maxWriters
    ensures Reached(maxWriters, s) && Running(s) == maxWriters && s.productivity == MaxCounter(maxWriters)
    decreases MaxCounter(maxWriters) - r.productivity
  {
    ReachedInv(maxWriters, r);
    if r.productivity == MaxCounter(maxWriters) {
      s := r;
    } else {
      ReachedNext(maxWriters, r, WriterDone);
      ReachedNext(maxWriters, Apply(r, WriterDone), WriteToDisk);
      s := RaiseCounter(maxWriters, Apply(Apply(r, WriterDone), WriteToDisk));
    }
  }

  // ... and above the limit every further writer costs one of it.
  lemma {:induction false} SpendCounter(maxWriters: nat, r: State, left: nat) returns (s: State)
    requires IsMaxWriters(maxWriters) && Reached(maxWriters, r) && Running(r) >= maxWriters && left <= r.productivity
    ensures Reached(maxWriters, s) && s.productivity == left && Running(s) == Running(r) + r.productivity - left
    decreases r.productivity
  {
    ReachedInv(maxWriters, r);
    if r.productivity == left {
      s := r;
    } else {
      ReachedNext(maxWriters, r, WriteToDisk);
      s := SpendCounter(maxWriters, Apply(r, WriteToDisk), left);
    }
  }

  // For every limit the bound is reached, and then write_to_disk refuses.
  lemma BoundIsReached(maxWriters: nat)
    requires IsMaxWriters(maxWriters)
    ensures exists run, s ::
              Runs(maxWriters, run, s) && Running(s) == maxWriters + MaxCounter(maxWriters) && !Starts(s)
  {
    var q := StartWriters(maxWriters, maxWriters);
    var r := RaiseCounter(maxWriters, q);
    var s := SpendCounter(maxWriters, r, 0);
    ReachedInv(maxWriters, s);
    var run :| Runs(maxWriters, run, s);
    assert Running(s) == maxWriters + MaxCounter(maxWriters) && !Starts(s);
  }

  // The shift of every writer that is ever started is below the width of a word exactly for limits below half of it.
  lemma ShiftsFit(maxWriters: nat, width: nat)
    requires IsMaxWriters(maxWriters)
    ensures (forall s :: Reached(maxWriters, s) && Starts(s) ==> BatchShift(Apply(s, WriteToDisk)) < width)
            <==> 2 * maxWriters < width
  {
    forall s | Reached(maxWriters, s) ensures BatchShift(Apply(s, WriteToDisk)) <= 2 * maxWriters {
      ReachedInv(maxWriters, s);
      StepKeepsInv(s, WriteToDisk);
    }
    var q := StartWriters(maxWriters, maxWriters);
    var r := RaiseCounter(maxWriters, q);
    var s := SpendCounter(maxWriters, r, 1);
    ReachedInv(maxWriters, s);
    assert Starts(s) && BatchShift(Apply(s, WriteToDisk)) == 2 * maxWriters;
  }

  // ---- The object ----

  datatype Outcome = Empty | Refused | Started | Thrown

  class LogMngr {
    const maxWriterThreads: nat
    var numThreads: int
    var numFinished: int
    var numProductivity: nat
    var threads: set<nat>         // m_threads
    var finished: seq<nat>        // m_finished
    var buffer: seq<Line>

    ghost function Abs(): State
      reads this
    {
      State(maxWriterThreads, numThreads, numFinished, numProductivity)
    }

    // Each finished id belongs to a thread that is still stored, and is listed once.
    ghost predicate Valid()
      reads this
    {
      && Inv(Abs())
      && numThreads == |threads| && numFinished == |finished|
      && (forall i :: 0 <= i < |finished| ==> finished[i] in threads)
      && (forall i, j :: 0 <= i < j < |finished| ==> finished[i] != finished[j])
    }

    constructor (maxWriters: nat)
      requires IsMaxWriters(maxWriters)
      ensures Valid() && Abs() == Init(maxWriters) && threads == {} && finished == [] && buffer == []
    {
      maxWriterThreads := maxWriters;
      numThreads, numFinished, threads, finished, buffer := 0, 0, {}, [], [];
      numProductivity := Wrap(2 * maxWriters);
    }

    // The branch at the head of write_to_disk.
    method Throttle() returns (ok: bool)
      requires Inv(Abs())
      modifies this`numProductivity
      ensures !ok <==> numThreads - numFinished >= maxWriterThreads && old(numProductivity) == 0
      ensures ok <==> Starts(old(Abs()))
      ensures Abs() == if ok then Adjust(old(Abs())) else old(Abs())
      ensures ok ==>
        numProductivity ==
          if numThreads - numFinished >= maxWriterThreads then old(numProductivity) - 1
          else if old(numProductivity) < 2 * maxWriterThreads then (old(numProductivity) + 1) % 256
          else old(numProductivity)
    {
      if numThreads - numFinished >= maxWriterThreads {
        if numProductivity > 0 {
          numProductivity := numProductivity - 1;
        } else {
          return false;
        }
      } else if numProductivity < 2 * maxWriterThreads {
        numProductivity := Wrap(numProductivity + 1);
      }
      return true;
    }

    // t is the id of the new thread, if one is to be started and can be created.  It is handed the buffer, with the
    // batch-size shift.  An exception from its constructor comes after the buffer has been emptied: its lines are lost.
    method WriteToDisk(t: nat, created: bool)
      returns (outcome: Outcome, handed: seq<Line>, lost: seq<Line>, shift: int)
      requires Valid() && t !in threads
      modifies this
      ensures Valid() && finished == old(finished)
      ensures outcome == if old(buffer) == [] then Empty else if !Starts(old(Abs())) then Refused
                         else if created then Started else Thrown
      ensures Abs() == match outcome
                       case Started => Apply(old(Abs()), Action.WriteToDisk)
                       case Thrown => Apply(old(Abs()), WriteFails)
                       case _ => old(Abs())
      ensures outcome == Refused <==>
        old(buffer) != [] && old(numThreads) - old(numFinished) >= maxWriterThreads && old(numProductivity) == 0
      // the counter goes down under load and comes up otherwise
      ensures outcome.Started? || outcome.Thrown? ==>
        numProductivity ==
          if old(numThreads) - old(numFinished) >= maxWriterThreads then old(numProductivity) - 1
          else if old(numProductivity) < 2 * maxWriterThreads then (old(numProductivity) + 1) % 256
          else old(numProductivity)
      ensures numThreads == old(numThreads) + (if outcome.Started? then 1 else 0) && numFinished == old(numFinished)
      ensures handed == (if outcome.Started? then old(buffer) else [])
      ensures lost == (if outcome.Thrown? then old(buffer) else [])
      ensures handed + lost + buffer == old(buffer)
      ensures threads == if outcome.Started? then old(threads) + {t} else old(threads)
      ensures outcome.Started? ==> 0 <= shift == 2 * maxWriterThreads - numProductivity <= 2 * maxWriterThreads
    {
      handed, lost, shift := [], [], 0;
      if buffer == [] {
        return Empty, handed, lost, shift;
      }
      var ok := Throttle();
      if !ok {
        return Refused, handed, lost, shift;
      }
      var buff := buffer;
      buffer := [];
      if !created {
        return Thrown, handed, buff, shift;
      }
      handed, shift := buff, 2 * maxWriterThreads - numProductivity;
      threads := threads + {t};
      numThreads := numThreads + 1;
      outcome := Started;
    }

    // A line is logged: a full buffer is handed to a writer first.  The line is refused if none may start, and goes the
    // way of the exception if the thread cannot be created.
    method WriteFile(x: Line, t: nat, created: bool) returns (kept: bool, handed: seq<Line>, lost: seq<Line>)
      requires Valid() && t !in threads && |buffer| <= MAX_LOG_BUFFER_SIZE
      modifies this
      ensures Valid() && |buffer| <= MAX_LOG_BUFFER_SIZE && finished == old(finished)
      ensures handed + lost + buffer == old(buffer) + if kept then [x] else []
      ensures !kept <==> |old(buffer)| == MAX_LOG_BUFFER_SIZE && !(Starts(old(Abs())) && created)
      ensures lost != [] <==> |old(buffer)| == MAX_LOG_BUFFER_SIZE && Starts(old(Abs())) && !created
      ensures Abs() == if handed != [] then Apply(old(Abs()), Action.WriteToDisk)
                       else if lost != [] then Apply(old(Abs()), WriteFails) else old(Abs())
      ensures threads == if handed != [] then old(threads) + {t} else old(threads)
    {
      handed, lost, kept := [], [], false;
      if |buffer| >= MAX_LOG_BUFFER_SIZE {
        var outcome, shift;
        outcome, handed, lost, shift := WriteToDisk(t, created);
        if !outcome.Started? {
          return;
        }
      }
      buffer := buffer + [x];
      kept := true;
    }

    // The end of writer_thread.
    method Done(t: nat)
      requires Valid() && t in threads && t !in finished
      modifies this
      ensures Valid() && Abs() == Apply(old(Abs()), WriterDone)
      ensures finished == old(finished) + [t] && threads == old(threads)
    {
      SomeUnfinished(finished, threads, t);
      finished := finished + [t];
      numFinished := numFinished + 1;
    }

    // The reaping part of main: every finished thread is joined and forgotten.
    method ReapFinished()
      requires Valid()
      modifies this
      ensures Valid() && Abs() == Apply(old(Abs()), Reap)
      ensures finished == [] && threads == old(threads) - (set k | k in old(finished))
    {
      ghost var all := finished;
      var i := 0;
      while i < |finished|
        invariant 0 <= i <= |finished| && finished == all && unchanged(`numProductivity)
        invariant threads == old(threads) - (set k | k in all[..i])
        invariant numThreads == old(numThreads) - i && numFinished == old(numFinished) - i
        invariant numThreads == |threads|
        invariant forall k :: i <= k < |all| ==> all[k] in threads
      {
        var key := finished[i];
        assert key in threads && key !in all[..i];
        if key in threads {
          threads := threads - {key};
          numThreads := numThreads - 1;
          numFinished := numFinished - 1;
        }
        assert all[..i + 1] == all[..i] + [key];
        i := i + 1;
      }
      assert all[..i] == all;
      finished := [];
    }
  }

  // A stored thread that is not listed as finished leaves room below the number of threads.
  lemma {:induction false} SomeUnfinished(finished: seq<nat>, threads: set<nat>, t: nat)
    requires forall i :: 0 <= i < |finished| ==> finished[i] in threads
    requires forall i, j :: 0 <= i < j < |finished| ==> finished[i] != finished[j]
    requires t in threads && t !in finished
    ensures |finished| < |threads|
  {
    if finished == [] {
      assert t in threads;
    } else {
      var n := |finished| - 1;
      SomeUnfinished(finished[..n], threads - {finished[n]}, t);
    }
  }
}
