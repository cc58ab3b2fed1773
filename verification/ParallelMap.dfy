/**
 The bounded-window parallel map (`parallel_map` in parsedmarc/parallel.py).

 A pool is the generator `parallel_map` returns: each call of `Next` runs it up to its next `yield`.
 Jobs are pulled lazily from a producer that remembers, in a queue of its own, the identifier of each
 job it hands out; the consumer pops one identifier per result. Which futures a shutdown manages to
 cancel and how often a wait times out are up to the caller.
 */
module ParallelMap {
  import opened Wrappers

  /** What happens to the window: a job is pulled into it, or its oldest job's result is yielded. */
  datatype Event = Pulled | Yielded

  function Count(trace: seq<Event>, event: Event): (n: nat) {
    if trace == [] then 0
    else Count(trace[..|trace| - 1], event) + if trace[|trace| - 1] == event then 1 else 0
  }

  /** At no point of the trace are more than `limit` pulled jobs without a yielded result. */
  ghost predicate Bounded(trace: seq<Event>, limit: nat) {
    trace == [] || (Bounded(trace[..|trace| - 1], limit) && Count(trace, Pulled) - Count(trace, Yielded) <= limit)
  }

  lemma CountOneMore(trace: seq<Event>, event: Event, limit: nat)
    ensures forall e :: Count(trace + [event], e) == Count(trace, e) + if e == event then 1 else 0
    ensures Bounded(trace + [event], limit) <==>
      Bounded(trace, limit) && Count(trace + [event], Pulled) - Count(trace + [event], Yielded) <= limit
  {
    assert (trace + [event])[..|trace|] == trace;
  }

  datatype Job<Id, J> = Job(id: Id, payload: J)

  /** The lazy producer; `fetchedIds` is the consumer's queue of identifiers handed out so far. */
  class JobSource<Id, J> {
    const jobs: seq<Job<Id, J>>
    var pulled: nat
    var fetchedIds: seq<Id>
    ghost var trace: seq<Event>      // pulls, and the results that the pool has yielded in between

    constructor (jobs: seq<Job<Id, J>>)
      ensures this.jobs == jobs && pulled == 0 && fetchedIds == [] && trace == []
    {
      this.jobs := jobs;
      pulled := 0;
      fetchedIds := [];
      trace := [];
    }

    method Pull() returns (r: Option<J>)
      requires pulled <= |jobs|
      modifies this
      ensures old(pulled) == |jobs| ==> r == None && pulled == old(pulled) && fetchedIds == old(fetchedIds)
      ensures old(pulled) == |jobs| ==> trace == old(trace)
      ensures old(pulled) < |jobs| ==> trace == old(trace) + [Pulled]
      ensures old(pulled) < |jobs| ==>
        && r == Some(jobs[old(pulled)].payload)
        && pulled == old(pulled) + 1
        && fetchedIds == old(fetchedIds) + [jobs[old(pulled)].id]
    {
      if pulled == |jobs| {
        return None;
      }
      var job := jobs[pulled];
      pulled := pulled + 1;
      trace := trace + [Pulled];
      fetchedIds := fetchedIds + [job.id];
      return Some(job.payload);
    }

    method PopId() returns (id: Id)
      requires fetchedIds != []
      modifies this`fetchedIds
      ensures id == old(fetchedIds)[0] && fetchedIds == old(fetchedIds)[1..]
    {
      id := fetchedIds[0];
      fetchedIds := fetchedIds[1..];
    }
  }

  function Payloads<Id, J>(jobs: seq<Job<Id, J>>): (r: seq<J>) {
    seq(|jobs|, k requires 0 <= k < |jobs| => jobs[k].payload)
  }

  lemma OneMorePayload<Id, J>(jobs: seq<Job<Id, J>>, k: nat)
    requires k < |jobs|
    ensures Payloads(jobs[..k + 1]) == Payloads(jobs[..k]) + [jobs[k].payload]
  {
  }

  lemma PayloadsSplit<Id, J>(jobs: seq<Job<Id, J>>, a: seq<J>, b: seq<J>, k: nat)
    requires k <= |jobs| && a + b == Payloads(jobs[..k])
    ensures |a| <= k && a == Payloads(jobs[..|a|]) && b == Payloads(jobs[|a|..k])
  {
    forall i | 0 <= i < |a| ensures a[i] == jobs[i].payload { assert (a + b)[i] == a[i]; }
    forall i | 0 <= i < |b| ensures b[i] == jobs[|a| + i].payload { assert (a + b)[|a| + i] == b[i]; }
  }

  function Ids<Id, J>(jobs: seq<Job<Id, J>>): (r: seq<Id>) {
    seq(|jobs|, k requires 0 <= k < |jobs| => jobs[k].id)
  }

  function Mapped<J, R>(func: J -> R, jobs: seq<J>): (r: seq<R>) {
    seq(|jobs|, k requires 0 <= k < |jobs| => func(jobs[k]))
  }

  /** The futures a shutdown did not cancel, in submission order. */
  function Survivors<J>(window: seq<J>, cancelled: set<nat>): (r: seq<J>) {
    if window == [] then []
    else
      var rest := Survivors(window[..|window| - 1], cancelled);
      if |window| - 1 in cancelled then rest else rest + [window[|window| - 1]]
  }

  /** Only cancelled jobs are dropped by a shutdown: the survivors are the window's other jobs, in order. */
  lemma {:induction false} SurvivorsKeepOrder<J>(window: seq<J>, cancelled: set<nat>) returns (from: seq<nat>)
    ensures |from| == |Survivors(window, cancelled)|
    ensures forall k :: 0 <= k < |from| ==>
      from[k] < |window| && from[k] !in cancelled && window[from[k]] == Survivors(window, cancelled)[k]
    ensures forall a, b :: 0 <= a < b < |from| ==> from[a] < from[b]
    ensures forall i: nat :: i < |window| && i !in cancelled ==> i in from
  {
    if window == [] {
      from := [];
    } else {
      var last := |window| - 1;
      from := SurvivorsKeepOrder(window[..last], cancelled);
      if last !in cancelled {
        from := from + [last];
      }
    }
  }

  datatype Stage = NotStarted | Suspended | Draining | Exhausted

  datatype Error = TooFewProcesses

  class Pool<Id, J, R> {
    const func: J -> R
    const source: JobSource<Id, J>
    const windowSize: nat
    const hasHeartbeat: bool
    var stage: Stage
    var window: seq<J>
    var heartbeats: nat
    ghost var yielded: seq<R>
    ghost var delivered: seq<J>      // the jobs whose results have been yielded
    ghost var stopped: bool          // whether the consumer has asked to stop,
    ghost var stoppedAt: nat         // after how many results,
    ghost var cancelled: set<nat>    // and which positions of the window were cancelled

    /** The jobs whose results the pool yields, as far as they are known. */
    ghost function Submitted(): seq<J>
      reads this, source`pulled
      requires stoppedAt <= source.pulled <= |source.jobs|
    {
      if stopped then
        Payloads(source.jobs[..stoppedAt]) + Survivors(Payloads(source.jobs[stoppedAt..source.pulled]), cancelled)
      else Payloads(source.jobs[..source.pulled])
    }

    /** What holds at every point: the window continues what has been delivered, and is never too long. */
    ghost predicate Consistent()
      reads this, source`pulled
    {
      && windowSize >= 1
      && stoppedAt <= source.pulled <= |source.jobs|
      && delivered + window == Submitted()
      && yielded == Mapped(func, delivered)
      && (!stopped ==> stoppedAt == 0)
      && (stopped ==> 1 <= stoppedAt <= |delivered| && source.pulled == Min(|source.jobs|, stoppedAt - 1 + windowSize))
    }

    /** The trace tells how many jobs were pulled and yielded, and that the window was never exceeded. */
    ghost predicate Traced()
      reads this`delivered, source`pulled, source`trace
    {
      && Count(source.trace, Pulled) == source.pulled && Count(source.trace, Yielded) == |delivered|
      && Bounded(source.trace, windowSize)
    }

    /** What holds in addition whenever the generator is suspended. */
    ghost predicate Valid()
      reads this, source`pulled, source`trace
    {
      && Consistent() && Traced()
      && match stage
         case NotStarted => !stopped && source.pulled == 0 && window == [] && delivered == []
         case Suspended =>
           && !stopped && delivered != [] && |window| < windowSize
           && (source.pulled == |source.jobs| || |window| == windowSize - 1)
         case Draining => stopped
         case Exhausted => window == [] && (stopped || source.pulled == |source.jobs|)
    }

    constructor (func: J -> R, source: JobSource<Id, J>, windowSize: nat, hasHeartbeat: bool)
      requires windowSize >= 1 && source.pulled == 0 && source.trace == []
      ensures Valid() && stage == NotStarted && yielded == [] && delivered == [] && heartbeats == 0
      ensures this.func == func && this.source == source && this.windowSize == windowSize
    {
      this.func := func;
      this.source := source;
      this.windowSize := windowSize;
      this.hasHeartbeat := hasHeartbeat;
      stage, window, heartbeats := NotStarted, [], 0;
      yielded, delivered, stopped, stoppedAt, cancelled := [], [], false, 0, {};
    }

    ghost predicate Harvested(before: seq<J>, after: seq<J>, result: R) {
      |after| == |before| + 1 && before == after[..|before|] && result == func(after[|before|])
    }

    /** Moves the oldest future out of the window and yields its result. */
    method Harvest(timeouts: nat) returns (result: R)
      requires window != [] && stoppedAt <= source.pulled <= |source.jobs|
      requires delivered + window == Submitted() && yielded == Mapped(func, delivered)
      requires Traced() && source.pulled - |delivered| <= windowSize
      modifies this`window, this`yielded, this`delivered, this`heartbeats, source`trace
      ensures delivered + window == Submitted() && yielded == Mapped(func, delivered) && Traced()
      ensures delivered == old(delivered) + [old(window)[0]] && window == old(window)[1..]
      ensures result == func(old(window)[0])
      ensures heartbeats == old(heartbeats) + (if hasHeartbeat then timeouts else 0)
    {
      hide Count, Bounded;
      var oldest := window[0];
      Await(timeouts);
      result := func(oldest);
      window := window[1..];
      assert delivered + [oldest] + window == Submitted();
      yielded, delivered := yielded + [result], delivered + [oldest];
      CountOneMore(source.trace, Yielded, windowSize);
      source.trace := source.trace + [Yielded];
    }

    /** Submits the next job, if there is one. */
    method Submit() returns (submitted: bool)
      requires !stopped && source.pulled <= |source.jobs| && stoppedAt == 0
      requires delivered + window == Submitted()
      requires |window| < windowSize && Traced()
      modifies this`window, source
      ensures Traced()
      ensures submitted <==> old(source.pulled) < |source.jobs|
      ensures source.pulled == old(source.pulled) + (if submitted then 1 else 0)
      ensures |window| == old(|window|) + (if submitted then 1 else 0)
      ensures source.fetchedIds == old(source.fetchedIds) + Ids(source.jobs[old(source.pulled)..source.pulled])
      ensures delivered + window == Submitted()
    {
      hide Count, Bounded;
      var job := source.Pull();
      if job.None? {
        return false;
      }
      CountOneMore(old(source.trace), Pulled, windowSize);
      OneMorePayload(source.jobs, source.pulled - 1);
      assert delivered + (window + [job.value]) == (delivered + window) + [job.value];
      window := window + [job.value];
      return true;
    }

    /** Fills the submission window before the first result is awaited. */
    method Prime()
      requires Consistent() && !stopped && window == [] && source.pulled == 0 && Traced()
      modifies this`window, source
      ensures Traced()
      ensures source.pulled <= |source.jobs| && |window| <= windowSize
      ensures delivered + window == Submitted()
      ensures source.pulled == |source.jobs| || |window| == windowSize
      ensures source.fetchedIds == old(source.fetchedIds) + Ids(source.jobs[..source.pulled])
    {
      var more := Submit();
      while more && |window| < windowSize
        invariant source.pulled <= |source.jobs| && |window| <= windowSize
        invariant delivered + window == Submitted() && Traced()
        invariant !more ==> source.pulled == |source.jobs|
        invariant source.fetchedIds == old(source.fetchedIds) + Ids(source.jobs[..source.pulled])
        decreases |source.jobs| - source.pulled, more
      {
        more := Submit();
      }
    }

    /** No more results than jobs. */
    lemma DeliveredBound()
      requires Valid()
      ensures |delivered| <= |source.jobs|
    {
      SurvivorsNotMore(Payloads(source.jobs[stoppedAt..source.pulled]), cancelled);
    }

    /** What the pool has yielded once it is exhausted. */
    lemma FinalDelivery()
      requires Valid() && stage == Exhausted
      ensures stopped ==> stoppedAt <= |source.jobs|
      ensures delivered ==
        Delivered(Payloads(source.jobs), windowSize, if stopped then Some(stoppedAt) else None, cancelled)
    {
      if stopped {
        assert Payloads(source.jobs)[..stoppedAt] == Payloads(source.jobs[..stoppedAt]);
        assert Payloads(source.jobs)[stoppedAt..source.pulled] == Payloads(source.jobs[stoppedAt..source.pulled]);
      } else {
        assert source.jobs[..|source.jobs|] == source.jobs;
      }
    }

    /** As long as nobody asks to stop, the k-th result is the k-th job's. */
    lemma DeliveredInOrder()
      requires Valid() && !stopped
      ensures |delivered| <= source.pulled && delivered == Payloads(source.jobs[..|delivered|])
      ensures window == Payloads(source.jobs[|delivered|..source.pulled])
    {
      PayloadsSplit(source.jobs, delivered, window, source.pulled);
    }

    lemma AllDelivered()
      requires Valid() && stage == Exhausted && !stopped
      ensures |delivered| == |source.jobs|
    {
      FinalDelivery();
    }

    lemma AtStart()
      requires Valid() && stage == NotStarted
      ensures delivered == [] && !stopped
    {
    }

    lemma StageTellsStopped()
      requires Valid()
      ensures stage == Draining ==> stopped
      ensures stage == Suspended ==> !stopped
      ensures source.pulled <= |source.jobs|
    {
    }

    lemma NothingPulledYet()
      ensures source.pulled <= |source.jobs| ==> Ids(source.jobs[source.pulled..source.pulled]) == []
    {
    }

    /** The jobs that have been pulled and whose results have not been yielded fit into the window. */
    lemma WindowBound()
      requires Consistent() && (!stopped ==> |window| <= windowSize)
      ensures source.pulled - |delivered| <= windowSize
    {
      if !stopped {
        PayloadsSplit(source.jobs, delivered, window, source.pulled);
      }
    }

    /** Cancels what has not started; only the surviving futures stay in the window. */
    method Shutdown(cancel: set<nat>)
      requires Valid() && stage == Suspended
      modifies this`window, this`stage, this`stopped, this`stoppedAt, this`cancelled
      ensures Valid() && stage == Draining
      ensures stopped && stoppedAt == |delivered| && cancelled == cancel
      ensures window == Survivors(old(window), cancel)
    {
      PayloadsSplit(source.jobs, delivered, window, source.pulled);
      window := Survivors(window, cancel);
      stopped, stoppedAt, cancelled := true, |delivered|, cancel;
      stage := Draining;
    }

    /** Waits for the oldest future; each timeout sends one heartbeat. */
    method Await(timeouts: nat)
      modifies this`heartbeats
      ensures heartbeats == old(heartbeats) + (if hasHeartbeat then timeouts else 0)
    {
      if hasHeartbeat {
        var done := 0;
        while done < timeouts
          invariant done <= timeouts && heartbeats == old(heartbeats) + done
        {
          heartbeats := heartbeats + 1;
          done := done + 1;
        }
      }
    }

    /** What a resumed generator does before it looks at the window: prime, shut down, or submit one more. */
    method Refill(stop: bool, cancel: set<nat>)
      requires Valid() && stage != Exhausted
      modifies this`window, this`stage, this`stopped, this`stoppedAt, this`cancelled, source
      ensures Consistent() && Traced() && source.pulled - |delivered| <= windowSize
      ensures stopped <==> stage == Draining
      ensures stage == if stop && old(stage) == Suspended then Draining else old(stage)
      ensures stopped || source.pulled == |source.jobs| || |window| == windowSize
      ensures !stopped ==> |window| <= windowSize
      ensures old(stopped) ==> stoppedAt == old(stoppedAt) && cancelled == old(cancelled)
      ensures stopped && !old(stopped) ==> stoppedAt == |delivered| && cancelled == cancel
      ensures stopped ==> source.pulled == old(source.pulled)
      ensures old(source.pulled) <= source.pulled
      ensures source.fetchedIds == old(source.fetchedIds) + Ids(source.jobs[old(source.pulled)..source.pulled])
    {
      hide Survivors, Payloads, Ids, Mapped, Count, Bounded;
      NothingPulledYet();
      match stage {
        case NotStarted => Prime();
        case Suspended => if stop { Shutdown(cancel); } else { var _ := Submit(); }
        case Draining =>
      }
      WindowBound();
    }

    /**
     Resumes the generator. `stop` is what `should_stop` answers about the previous result, `cancel` the
     positions in the window a shutdown cancels, `timeouts` how often waiting for the oldest times out.
     */
    method Next(stop: bool, cancel: set<nat>, timeouts: nat) returns (r: Option<R>)
      requires Valid() && stage != Exhausted
      modifies this, source
      ensures Valid()
      ensures source.pulled - |old(delivered)| <= windowSize
      ensures r == None ==> stage == Exhausted && delivered == old(delivered)
      ensures r.Some? ==> Harvested(old(delivered), delivered, r.value) && stage in {Suspended, Draining}
      ensures stopped <==> old(stopped) || (stop && old(stage) == Suspended)
      ensures old(stopped) ==> stoppedAt == old(stoppedAt) && cancelled == old(cancelled)
      ensures stopped && !old(stopped) ==> stoppedAt == |old(delivered)| && cancelled == cancel
      ensures old(source.pulled) <= source.pulled
      ensures source.fetchedIds == old(source.fetchedIds) + Ids(source.jobs[old(source.pulled)..source.pulled])
      ensures heartbeats == old(heartbeats) + if r.Some? && !stopped && hasHeartbeat then timeouts else 0
    {
      hide Survivors, Payloads, Ids, Mapped, Count, Bounded, Pool.Traced;
      Refill(stop, cancel);
      hide Submitted;
      if window == [] {
        stage := Exhausted;
        return None;
      }
      var result := Harvest(if stage == Draining then 0 else timeouts);
      stage := if stage == Draining then Draining else Suspended;
      return Some(result);
    }
  }

  lemma {:induction false} SurvivorsNotMore<J>(window: seq<J>, cancelled: set<nat>)
    ensures |Survivors(window, cancelled)| <= |window|
  {
    if window != [] {
      SurvivorsNotMore(window[..|window| - 1], cancelled);
    }
  }

  /** At least one job, and as many per process as asked for. */
  function WindowSize(windowFactor: int, nProcs: int): (n: nat)
    ensures n >= 1 && n >= windowFactor * nProcs && (n == 1 || n == windowFactor * nProcs)
  {
    if windowFactor * nProcs < 1 then 1 else windowFactor * nProcs
  }

  function Min(a: nat, b: nat): nat {
    if a < b then a else b
  }

  /** After how many results the consumer first asks to stop, when it does within the first `n`. */
  function StopsAfter(answers: nat -> bool, n: nat): (r: Option<nat>)
    ensures r.Some? ==> 1 <= r.value <= n && answers(r.value) && forall k :: 1 <= k < r.value ==> !answers(k)
    ensures r.None? ==> forall k :: 1 <= k <= n ==> !answers(k)
  {
    if n == 0 then None
    else if StopsAfter(answers, n - 1).Some? then StopsAfter(answers, n - 1)
    else if answers(n) then Some(n)
    else None
  }

  lemma NeverStopsAtOnce(answers: nat -> bool)
    ensures StopsAfter(answers, 0) == None
  {
  }

  lemma StopsAfterStep(answers: nat -> bool, k: nat, n: nat)
    requires 1 <= k <= n && StopsAfter(answers, k - 1) == None
    ensures StopsAfter(answers, k) == if answers(k) then Some(k) else None
    ensures answers(k) ==> StopsAfter(answers, n) == Some(k)
  {
    if answers(k) {
      StopsAfterLonger(answers, k, n);
    }
  }

  lemma {:induction false} StopsAfterLonger(answers: nat -> bool, k: nat, n: nat)
    requires k <= n && StopsAfter(answers, k).Some?
    ensures StopsAfter(answers, n) == StopsAfter(answers, k)
  {
    if k < n {
      StopsAfterLonger(answers, k, n - 1);
    }
  }

  /** The consumer asks to stop after `k` results and not before. */
  ghost predicate IsFirstStop(answers: nat -> bool, k: nat) {
    k >= 1 && answers(k) && forall j :: 1 <= j < k ==> !answers(j)
  }

  /** What a consumer that never stops, or stops after `stop` results, receives. */
  function Delivered<J>(jobs: seq<J>, windowSize: nat, stop: Option<nat>, cancel: set<nat>): (r: seq<J>)
    requires windowSize >= 1 && (stop.Some? ==> 1 <= stop.value <= |jobs|)
  {
    match stop
    case None => jobs
    case Some(k) => jobs[..k] + Survivors(jobs[k..Min(|jobs|, k - 1 + windowSize)], cancel)
  }

  /** A consumer that never asks to stop gets the result of every job. */
  lemma ResultsWithoutStop<J, R>(func: J -> R, jobs: seq<J>, windowSize: nat, answers: nat -> bool, cancel: set<nat>)
    requires windowSize >= 1 && forall k :: 1 <= k <= |jobs| ==> !answers(k)
    ensures var results := Mapped(func, Delivered(jobs, windowSize, StopsAfter(answers, |jobs|), cancel));
      |results| == |jobs| && forall i :: 0 <= i < |jobs| ==> results[i] == func(jobs[i])
  {
    assert StopsAfter(answers, |jobs|) == None;
  }

  /** One that asks after `k` results gets the first `k` jobs' results, and then less than a window more. */
  lemma ResultsUntilStop<J, R>(func: J -> R, jobs: seq<J>, windowSize: nat, answers: nat -> bool, cancel: set<nat>,
      k: nat)
    requires windowSize >= 1 && IsFirstStop(answers, k) && k <= |jobs|
    ensures var results := Mapped(func, Delivered(jobs, windowSize, StopsAfter(answers, |jobs|), cancel));
      k <= |results| < k + windowSize && forall i :: 0 <= i < k ==> results[i] == func(jobs[i])
  {
    assert StopsAfter(answers, |jobs|) == Some(k);
    SurvivorsNotMore(jobs[k..Min(|jobs|, k - 1 + windowSize)], cancel);
  }

  /** The consumer: one `next` after another until the pool is exhausted. */
  method Collect<Id, J, R>(pool: Pool<Id, J, R>, shouldStop: nat -> bool, cancel: set<nat>, timeouts: nat -> nat)
    returns (results: seq<R>)
    requires pool.Valid() && pool.stage == NotStarted
    modifies pool, pool.source
    ensures pool.Valid() && pool.stage == Exhausted && results == Mapped(pool.func, pool.delivered)
    ensures pool.stopped ==>
      StopsAfter(shouldStop, |pool.source.jobs|) == Some(pool.stoppedAt) && pool.cancelled == cancel
    ensures !pool.stopped ==> StopsAfter(shouldStop, |results|) == None
  {
    hide Survivors, Payloads, Delivered, StopsAfter, Pool.Valid, Ids;
    results := [];
    pool.AtStart();
    NeverStopsAtOnce(shouldStop);
    var next := pool.Next(false, cancel, timeouts(0));
    pool.StageTellsStopped();
    while next.Some?
      invariant pool.Valid() && (next.Some? <==> pool.stage != Exhausted)
      invariant next.Some? ==> pool.stage in {Suspended, Draining}
      invariant Mapped(pool.func, pool.delivered) == if next.Some? then results + [next.value] else results
      invariant pool.stage in {Suspended, Draining} ==> (pool.stopped <==> pool.stage == Draining)
      invariant !pool.stopped ==> StopsAfter(shouldStop, |results|) == None
      invariant pool.stopped ==>
        StopsAfter(shouldStop, |pool.source.jobs|) == Some(pool.stoppedAt) && pool.cancelled == cancel
      decreases |pool.source.jobs| - |results|, next.Some?
    {
      pool.DeliveredBound();
      assert |Mapped(pool.func, pool.delivered)| == |results| + 1;
      if pool.stage == Suspended {
        StopsAfterStep(shouldStop, |results| + 1, |pool.source.jobs|);
      }
      results := results + [next.value];
      next := pool.Next(shouldStop(|results|), cancel, timeouts(|results|));
      pool.StageTellsStopped();
    }
  }

  /**
   Runs the generator to its end. `shouldStop(k)` is the answer after the k-th result. The error is
   raised by the call itself, before anything is pulled.
   */
  method Run<Id, J, R>(func: J -> R, source: JobSource<Id, J>, nProcs: int, windowFactor: int, hasHeartbeat: bool,
      shouldStop: nat -> bool, cancel: set<nat>, timeouts: nat -> nat) returns (r: Result<seq<R>, Error>)
    requires source.pulled == 0 && source.trace == []
    modifies source
    ensures r == Failure(TooFewProcesses) <==> nProcs < 1
    ensures nProcs < 1 ==> source.pulled == 0
    ensures nProcs >= 1 ==> r == Success(Mapped(func,
        Delivered(Payloads(source.jobs), WindowSize(windowFactor, nProcs), StopsAfter(shouldStop, |source.jobs|),
          cancel)))
    ensures r.Success? && (forall k :: 1 <= k <= |source.jobs| ==> !shouldStop(k)) ==>
      |r.value| == |source.jobs| && forall i :: 0 <= i < |r.value| ==> r.value[i] == func(source.jobs[i].payload)
    ensures forall k: nat :: r.Success? && IsFirstStop(shouldStop, k) && k <= |source.jobs| ==>
      && k <= |r.value| < k + WindowSize(windowFactor, nProcs)
      && forall i :: 0 <= i < k ==> r.value[i] == func(source.jobs[i].payload)
    ensures r.Success? ==> Bounded(source.trace, WindowSize(windowFactor, nProcs))
    ensures r.Success? ==> Count(source.trace, Pulled) == source.pulled && Count(source.trace, Yielded) == |r.value|
  {
    if nProcs < 1 {
      return Failure(TooFewProcesses);
    }
    var pool := new Pool(func, source, WindowSize(windowFactor, nProcs), hasHeartbeat);
    var results := Collect(pool, shouldStop, cancel, timeouts);
    pool.FinalDelivery();
    hide StopsAfter, IsFirstStop, Delivered, Mapped, Bounded, Count;
    forall k: nat | IsFirstStop(shouldStop, k) && k <= |source.jobs|
      ensures k <= |results| < k + pool.windowSize
      ensures forall i :: 0 <= i < k ==> results[i] == func(source.jobs[i].payload)
    {
      ResultsUntilStop(func, Payloads(source.jobs), pool.windowSize, shouldStop, cancel, k);
    }
    if forall k :: 1 <= k <= |source.jobs| ==> !shouldStop(k) {
      ResultsWithoutStop(func, Payloads(source.jobs), pool.windowSize, shouldStop, cancel);
    }
    return Success(results);
  }
}
