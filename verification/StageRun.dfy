/**
 Running a stage graph on a pool of worker threads. Workers act at any moment: before each thing that the scheduling
 thread reads, the pool advances by any number of worker actions. The trace of a run says what happened, in order,
 and the contracts speak of it.
 */
module StageRun {
  import opened Common
  import opened StageGraph

  type Value = string

  type Error = string

  /**
   A stage is submitted; its worker succeeds, or records its failure (and its future ends later); the scheduling
   thread waits for futures to end, and collects them.
   */
  datatype Event =
    | Submitted(stage: nat)
    | Awaited
    | Succeeded(stage: nat, value: Value)
    | Failed(stage: nat, error: Error)
    | Collected(stage: nat)

  datatype Future =
    | Running
    | Failing(error: Error)
    | Done(result: Result<Value, Error>)

  datatype Outcome =
    | Returned(results: map<nat, Value>)
    | Raised(error: Error)
    | Refused(reason: GraphError)
    | NoJobs

  // ----- what a trace must be like -----

  /** How many submitted stages have not been collected. */
  function InFlight(trace: seq<Event>): int {
    if trace == [] then 0
    else
      InFlight(trace[..|trace| - 1])
      + match trace[|trace| - 1]
        case Submitted(_) => 1
        case Collected(_) => -1
        case _ => 0
  }

  ghost predicate HasResult(trace: seq<Event>, i: nat) {
    (exists v :: Succeeded(i, v) in trace) && Collected(i) in trace
  }

  /** The first recorded failure. */
  function FirstFailure(trace: seq<Event>): Option<Error> {
    if trace == [] then None
    else
      var before := FirstFailure(trace[..|trace| - 1]);
      if before.Some? then before
      else if trace[|trace| - 1].Failed? then Some(trace[|trace| - 1].error)
      else None
  }

  /** A stage that was not submitted, though all its dependencies have results. */
  ghost predicate Startable(g: Graph, trace: seq<Event>, i: nat) {
    && i < |g|
    && Submitted(i) !in trace
    && (forall d :: d in g[i] ==> HasResult(trace, d))
  }

  /**
   A stage may be submitted when it can start and no lesser one can, no failure has been recorded, and a job is free.
   */
  ghost predicate MaySubmit(g: Graph, jobs: nat, trace: seq<Event>, i: nat) {
    && Startable(g, trace, i)
    && (forall j :: Startable(g, trace, j) ==> i <= j)
    && FirstFailure(trace) == None
    && InFlight(trace) < jobs
  }

  /** The scheduling thread may wait when something is in flight, and it can submit nothing. */
  ghost predicate MayWait(g: Graph, jobs: nat, trace: seq<Event>) {
    && 0 < InFlight(trace)
    && (|| FirstFailure(trace).Some?
        || InFlight(trace) == jobs
        || (forall j :: !Startable(g, trace, j)))
  }

  /** The stage collected last, if nothing was submitted or awaited since. */
  function LastCollected(trace: seq<Event>): Option<nat> {
    if trace == [] then None
    else
      match trace[|trace| - 1]
      case Submitted(_) => None
      case Awaited => None
      case Collected(i) => Some(i)
      case _ => LastCollected(trace[..|trace| - 1])
  }

  /** A stage is collected once, after its end; the stages of one wait are collected in order. */
  ghost predicate MayCollect(trace: seq<Event>, i: nat) {
    && Submitted(i) in trace && Ended(trace, i) && Collected(i) !in trace
    && (LastCollected(trace).Some? ==> LastCollected(trace).value < i)
  }

  ghost predicate Permitted(g: Graph, jobs: nat, trace: seq<Event>, e: Event) {
    match e
    case Submitted(i) => MaySubmit(g, jobs, trace, i)
    case Awaited => MayWait(g, jobs, trace)
    case Collected(i) => MayCollect(trace, i)
    case _ => true
  }

  ghost predicate Orderly(g: Graph, jobs: nat, trace: seq<Event>) {
    forall t :: 0 <= t < |trace| ==> Permitted(g, jobs, trace[..t], trace[t])
  }

  ghost predicate Ended(trace: seq<Event>, i: nat) {
    (exists v :: Succeeded(i, v) in trace) || (exists e :: Failed(i, e) in trace)
  }

  /** Every submitted stage has ended and was collected. */
  ghost predicate Drained(trace: seq<Event>) {
    forall i :: Submitted(i) in trace ==> Ended(trace, i) && Collected(i) in trace
  }

  // ----- the pool -----

  predicate Matches(trace: seq<Event>, i: nat, future: Future) {
    match future
    case Running => true
    case Failing(e) => Failed(i, e) in trace
    case Done(Ok(v)) => Succeeded(i, v) in trace
    case Done(Err(e)) => Failed(i, e) in trace
  }

  /** The futures and the error on record are those of the trace. */
  ghost predicate Consistent(futures: map<nat, Future>, firstError: Option<Error>, trace: seq<Event>) {
    && firstError == FirstFailure(trace)
    && (forall i :: i in futures <==> Submitted(i) in trace)
    && (forall i :: i in futures ==> Matches(trace, i, futures[i]))
  }

  predicate WorkerEvent(e: Event) {
    e.Succeeded? || e.Failed?
  }

  /** Workers went on: futures that had ended are unchanged. */
  ghost predicate WorkersActed(futures: map<nat, Future>, trace: seq<Event>, futures': map<nat, Future>,
                               trace': seq<Event>)
  {
    && trace <= trace'
    && (forall t :: |trace| <= t < |trace'| ==> WorkerEvent(trace'[t]))
    && futures'.Keys == futures.Keys
    && (forall i :: i in futures && futures[i].Done? ==> futures'[i] == futures[i])
  }

  lemma FailureAppended(trace: seq<Event>, e: Event)
    ensures FirstFailure(trace + [e])
            == if FirstFailure(trace).Some? then FirstFailure(trace) else if e.Failed? then Some(e.error) else None
  {
    assert (trace + [e])[..|trace|] == trace;
  }

  lemma ConsistentWorker(futures: map<nat, Future>, firstError: Option<Error>, trace: seq<Event>, i: nat, e: Event,
                         future: Future)
    requires Consistent(futures, firstError, trace) && i in futures && WorkerEvent(e) && Matches(trace + [e], i, future)
    ensures Consistent(futures[i := future], if firstError.None? && e.Failed? then Some(e.error) else firstError,
                       trace + [e])
  {
    FailureAppended(trace, e);
  }

  lemma NobodyActed(futures: map<nat, Future>, trace: seq<Event>)
    ensures WorkersActed(futures, trace, futures, trace)
  {
  }

  lemma ActedOnce(futures: map<nat, Future>, trace: seq<Event>, futures': map<nat, Future>, trace': seq<Event>, i: nat,
                  e: Event, future: Future)
    requires WorkersActed(futures, trace, futures', trace') && i in futures' && !futures'[i].Done? && WorkerEvent(e)
    ensures WorkersActed(futures, trace, futures'[i := future], trace' + [e])
    ensures WorkersActed(futures, trace, futures'[i := future], trace')
  {
  }

  lemma ConsistentSubmit(futures: map<nat, Future>, firstError: Option<Error>, trace: seq<Event>, i: nat)
    requires Consistent(futures, firstError, trace) && i !in futures
    ensures Consistent(futures[i := Running], firstError, trace + [Submitted(i)])
  {
    FailureAppended(trace, Submitted(i));
  }

  lemma ConsistentCollect(futures: map<nat, Future>, firstError: Option<Error>, trace: seq<Event>, i: nat)
    requires Consistent(futures, firstError, trace)
    ensures Consistent(futures, firstError, trace + [Collected(i)])
  {
    FailureAppended(trace, Collected(i));
  }

  lemma ConsistentAwait(futures: map<nat, Future>, firstError: Option<Error>, trace: seq<Event>)
    requires Consistent(futures, firstError, trace)
    ensures Consistent(futures, firstError, trace + [Awaited])
  {
    FailureAppended(trace, Awaited);
  }

  class Pool {
    var futures: map<nat, Future>
    var firstError: Option<Error>
    var trace: seq<Event>

    ghost predicate Valid()
      reads this
    {
      Consistent(futures, firstError, trace)
    }

    constructor ()
      ensures Valid() && futures == map[] && firstError == None && trace == []
    {
      futures, firstError, trace := map[], None, [];
    }

    method RecordFailure(error: Error)
      modifies this`firstError
      ensures firstError == if old(firstError).None? then Some(error) else old(firstError)
    {
      if firstError.None? {
        firstError := Some(error);
      }
    }

    /** One action of the worker of a stage: to succeed, to record a failure, or to end after one. */
    method Act(i: nat, success: bool, text: string)
      requires Valid() && i in futures
      modifies this
      ensures Valid() && WorkersActed(old(futures), old(trace), futures, trace)
      ensures old(futures[i]).Running? ==> !futures[i].Running?
      ensures old(futures[i]).Failing? ==> futures[i] == Done(Err(old(futures[i]).error))
      ensures futures[i].Done? && futures[i].result.Ok? ==> firstError == old(firstError)
    {
      NobodyActed(futures, trace);
      match futures[i] {
        case Running =>
          var event := if success then Succeeded(i, text) else Failed(i, text);
          var future := if success then Done(Ok(text)) else Failing(text);
          ConsistentWorker(futures, firstError, trace, i, event, future);
          ActedOnce(futures, trace, futures, trace, i, event, future);
          trace := trace + [event];
          futures := futures[i := future];
          if !success {
            RecordFailure(text);
          }
        case Failing(error) =>
          ActedOnce(futures, trace, futures, trace, i, Failed(i, error), Done(Err(error)));
          futures := futures[i := Done(Err(error))];
        case Done(_) =>
      }
    }

    /** Workers go on for a while. */
    method Advance()
      requires Valid()
      modifies this
      ensures Valid() && WorkersActed(old(futures), old(trace), futures, trace)
      ensures old(firstError).Some? ==> firstError == old(firstError)
    {
      ghost var futures0, trace0 := futures, trace;
      FailureKept(trace, trace);
      var actions: nat := *;
      while actions > 0 && futures.Keys != {}
        invariant Valid() && WorkersActed(futures0, trace0, futures, trace)
      {
        label Before:
        var i :| i in futures;
        var success: bool := *;
        var text: string := *;
        Act(i, success, text);
        ActedJoin(futures0, trace0, old@Before(futures), old@Before(trace), futures, trace);
        actions := actions - 1;
      }
      FailureKept(trace0, trace);
    }

    /** A stage runs to its end. */
    method Finish(i: nat)
      requires Valid() && i in futures
      modifies this
      ensures Valid() && WorkersActed(old(futures), old(trace), futures, trace) && i in futures && futures[i].Done?
      ensures futures[i].result.Ok? && !old(futures[i]).Done? ==> firstError == old(firstError)
    {
      var success: bool := *;
      var text: string := *;
      Act(i, success, text);
      label Between:
      Act(i, success, text);
      ActedJoin(old(futures), old(trace), old@Between(futures), old@Between(trace), futures, trace);
    }

    /** Wait until one of the futures has ended. */
    method AwaitOne(inFlight: set<nat>) returns (first: nat)
      requires Valid() && inFlight != {} && inFlight <= futures.Keys
      modifies this
      ensures Valid() && WorkersActed(old(futures), old(trace), futures, trace)
      ensures first in inFlight && first in futures && futures[first].Done?
    {
      Advance();
      first :| first in inFlight;
      label Before:
      Finish(first);
      ActedJoin(old(futures), old(trace), old@Before(futures), old@Before(trace), futures, trace);
    }

    /** Wait until some of the futures have ended, and return all that have. */
    method Wait(inFlight: set<nat>) returns (completed: seq<nat>)
      requires Valid() && inFlight != {} && inFlight <= futures.Keys
      modifies this
      ensures Valid() && WorkersActed(old(futures), old(trace) + [Awaited], futures, trace)
      ensures completed != [] && Distinct(completed)
      ensures forall i :: i in completed <==> i in inFlight && i in futures && futures[i].Done?
    {
      ConsistentAwait(futures, firstError, trace);
      hide WorkersActed, Consistent;
      trace := trace + [Awaited];
      var first := AwaitOne(inFlight);
      completed := [first];
      var others := inFlight - {first};
      while others != {}
        invariant completed != [] && Distinct(completed)
        invariant forall i :: i in completed <==> i in inFlight && i !in others && i in futures && futures[i].Done?
        invariant others <= inFlight
        decreases others
      {
        var i :| i in others;
        others := others - {i};
        if i in futures && futures[i].Done? {
          completed := completed + [i];
        }
      }
    }

    method Submit(i: nat)
      requires Valid() && i !in futures
      modifies this`futures, this`trace
      ensures Valid() && futures == old(futures)[i := Running] && trace == old(trace) + [Submitted(i)]
    {
      ConsistentSubmit(futures, firstError, trace, i);
      hide Consistent;
      futures := futures[i := Running];
      trace := trace + [Submitted(i)];
    }

    method Collect(i: nat)
      requires Valid()
      modifies this`trace
      ensures Valid() && trace == old(trace) + [Collected(i)]
    {
      ConsistentCollect(futures, firstError, trace, i);
      hide Consistent;
      trace := trace + [Collected(i)];
    }
  }

  lemma {:induction false} FailureKept(trace: seq<Event>, trace': seq<Event>)
    requires trace <= trace'
    ensures FirstFailure(trace).Some? ==> FirstFailure(trace') == FirstFailure(trace)
    decreases |trace'|
  {
    if |trace| < |trace'| {
      FailureKept(trace, trace'[..|trace'| - 1]);
    } else {
      assert trace == trace';
    }
  }

  lemma ActedJoin(futures: map<nat, Future>, trace: seq<Event>, futures': map<nat, Future>, trace': seq<Event>,
                  futures'': map<nat, Future>, trace'': seq<Event>)
    requires WorkersActed(futures, trace, futures', trace') && WorkersActed(futures', trace', futures'', trace'')
    ensures WorkersActed(futures, trace, futures'', trace'')
  {
    forall t | |trace| <= t < |trace''|
      ensures WorkerEvent(trace''[t])
    {
      if t < |trace'| {
        assert trace''[t] == trace'[t];
      }
    }
  }

  // ----- the scheduling thread -----

  /** What the scheduling thread knows: dependency counts, ready stages, futures not collected, results. */
  datatype Board = Board(counts: seq<nat>, ready: seq<nat>, inFlight: set<nat>, results: map<nat, Value>)

  ghost predicate Tracking(trace: seq<Event>, futures: map<nat, Future>, inFlight: set<nat>) {
    && inFlight <= futures.Keys && InFlight(trace) == |inFlight|
    && (forall i :: Collected(i) in trace <==> i in futures && i !in inFlight)
    && (forall i :: i in futures && i !in inFlight ==> futures[i].Done?)
  }

  ghost predicate Storing(futures: map<nat, Future>, inFlight: set<nat>, results: map<nat, Value>) {
    && (forall i :: i in results <==> i in futures && i !in inFlight && futures[i].Done? && futures[i].result.Ok?)
    && (forall i :: i in results && i in futures ==> futures[i] == Done(Ok(results[i])))
  }

  /** The stages counted off have results; they are all that have, unless something failed. */
  ghost predicate Releasing(released: seq<nat>, results: map<nat, Value>, firstError: Option<Error>) {
    && Distinct(released)
    && (forall i :: i in released ==> i in results)
    && (firstError.None? ==> forall i :: i in results ==> i in released)
  }

  /** A stage is ready or was submitted exactly when all it depends on was counted off. */
  ghost predicate ReadyList(g: Graph, ready: seq<nat>, released: seq<nat>, futures: map<nat, Future>) {
    && Increasing(ready)
    && (forall i: nat :: i in ready || i in futures <==> i < |g| && Missing(g[i], released) == 0)
    && (forall i: nat :: i in ready ==> i !in futures)
  }

  ghost predicate Scheduling(g: Graph, jobs: nat, b: Board, released: seq<nat>, futures: map<nat, Future>,
                             firstError: Option<Error>, trace: seq<Event>) {
    && Consistent(futures, firstError, trace)
    && Orderly(g, jobs, trace)
    && Counted(g, b.counts, released)
    && Tracking(trace, futures, b.inFlight)
    && Storing(futures, b.inFlight, b.results)
    && Releasing(released, b.results, firstError)
    && ReadyList(g, b.ready, released, futures)
    && |b.inFlight| <= jobs
  }

  lemma OrderlyAppended(g: Graph, jobs: nat, trace: seq<Event>, e: Event)
    requires Orderly(g, jobs, trace) && Permitted(g, jobs, trace, e)
    ensures Orderly(g, jobs, trace + [e])
  {
    hide Permitted;
    forall t | 0 <= t < |trace + [e]|
      ensures Permitted(g, jobs, (trace + [e])[..t], (trace + [e])[t])
    {
      assert (trace + [e])[..t] == trace[..t];
      assert t == |trace| ==> trace[..t] == trace;
    }
  }

  lemma OrderlyActed(g: Graph, jobs: nat, futures: map<nat, Future>, trace: seq<Event>, futures': map<nat, Future>,
                     trace': seq<Event>)
    requires Orderly(g, jobs, trace) && WorkersActed(futures, trace, futures', trace')
    ensures Orderly(g, jobs, trace')
  {
    hide MaySubmit, MayWait, MayCollect;
    forall t | 0 <= t < |trace'|
      ensures Permitted(g, jobs, trace'[..t], trace'[t])
    {
      if t < |trace| {
        assert trace'[t] == trace[t] && trace'[..t] == trace[..t];
      } else {
        assert WorkerEvent(trace'[t]);
      }
    }
  }

  lemma InFlightAppended(trace: seq<Event>, e: Event)
    ensures InFlight(trace + [e])
            == InFlight(trace) + if e.Submitted? then 1 else if e.Collected? then -1 else 0
  {
    assert (trace + [e])[..|trace|] == trace;
  }

  lemma {:induction false} InFlightActed(trace: seq<Event>, trace': seq<Event>)
    requires trace <= trace' && forall t :: |trace| <= t < |trace'| ==> WorkerEvent(trace'[t])
    ensures InFlight(trace') == InFlight(trace)
    decreases |trace'|
  {
    if |trace| < |trace'| {
      var front := trace'[..|trace'| - 1];
      InFlightActed(trace, front);
      assert WorkerEvent(trace'[|trace'| - 1]);
    } else {
      assert trace == trace';
    }
  }

  lemma {:induction false} LastCollectedActed(trace: seq<Event>, trace': seq<Event>)
    requires trace <= trace' && forall t :: |trace| <= t < |trace'| ==> WorkerEvent(trace'[t])
    ensures LastCollected(trace') == LastCollected(trace)
    decreases |trace'|
  {
    if |trace| < |trace'| {
      LastCollectedActed(trace, trace'[..|trace'| - 1]);
      assert WorkerEvent(trace'[|trace'| - 1]);
    } else {
      assert trace == trace';
    }
  }

  lemma LastCollectedKept(futures: map<nat, Future>, trace: seq<Event>, futures': map<nat, Future>, trace': seq<Event>)
    requires WorkersActed(futures, trace, futures', trace')
    ensures LastCollected(trace') == LastCollected(trace)
  {
    LastCollectedActed(trace, trace');
  }

  lemma TrackingActed(futures: map<nat, Future>, trace: seq<Event>, futures': map<nat, Future>, trace': seq<Event>,
                      inFlight: set<nat>)
    requires Tracking(trace, futures, inFlight) && WorkersActed(futures, trace, futures', trace')
    ensures Tracking(trace', futures', inFlight)
  {
    InFlightActed(trace, trace');
    forall i
      ensures Collected(i) in trace' <==> Collected(i) in trace
    {
      if Collected(i) in trace' {
        var t :| 0 <= t < |trace'| && trace'[t] == Collected(i);
        assert t < |trace| && trace[t] == trace'[t];
      }
    }
  }

  lemma StoringActed(futures: map<nat, Future>, trace: seq<Event>, futures': map<nat, Future>, trace': seq<Event>,
                     inFlight: set<nat>, results: map<nat, Value>)
    requires Tracking(trace, futures, inFlight) && Storing(futures, inFlight, results)
    requires WorkersActed(futures, trace, futures', trace')
    ensures Storing(futures', inFlight, results)
  {
  }

  lemma ReleasingActed(trace: seq<Event>, trace': seq<Event>, released: seq<nat>, results: map<nat, Value>)
    requires trace <= trace' && Releasing(released, results, FirstFailure(trace))
    ensures Releasing(released, results, FirstFailure(trace'))
  {
    FailureKept(trace, trace');
  }

  lemma ReadyListActed(g: Graph, ready: seq<nat>, released: seq<nat>, futures: map<nat, Future>,
                       futures': map<nat, Future>)
    requires ReadyList(g, ready, released, futures) && futures'.Keys == futures.Keys
    ensures ReadyList(g, ready, released, futures')
  {
    assert forall i :: i in futures' <==> i in futures;
  }

  lemma ConsistentError(futures: map<nat, Future>, firstError: Option<Error>, trace: seq<Event>)
    requires Consistent(futures, firstError, trace)
    ensures firstError == FirstFailure(trace)
  {
  }

  lemma ActedShape(futures: map<nat, Future>, trace: seq<Event>, futures': map<nat, Future>, trace': seq<Event>)
    requires WorkersActed(futures, trace, futures', trace')
    ensures trace <= trace' && futures'.Keys == futures.Keys
  {
  }

  /** Whatever the workers do in the meantime, the board stays right. */
  lemma SchedulingActed(g: Graph, jobs: nat, b: Board, released: seq<nat>, futures: map<nat, Future>,
                        firstError: Option<Error>, trace: seq<Event>, futures': map<nat, Future>,
                        firstError': Option<Error>, trace': seq<Event>)
    requires Scheduling(g, jobs, b, released, futures, firstError, trace)
    requires WorkersActed(futures, trace, futures', trace') && Consistent(futures', firstError', trace')
    ensures Scheduling(g, jobs, b, released, futures', firstError', trace')
  {
    hide Orderly, Consistent, Counted, Tracking, Storing, Releasing, ReadyList, FirstFailure, WorkersActed;
    ActedShape(futures, trace, futures', trace');
    ConsistentError(futures, firstError, trace);
    ConsistentError(futures', firstError', trace');
    OrderlyActed(g, jobs, futures, trace, futures', trace');
    TrackingActed(futures, trace, futures', trace', b.inFlight);
    StoringActed(futures, trace, futures', trace', b.inFlight, b.results);
    ReleasingActed(trace, trace', released, b.results);
    ReadyListActed(g, b.ready, released, futures, futures');
  }

  /** While nothing has failed, the ready list holds exactly the stages that can start. */
  lemma ReadyIffStartable(g: Graph, jobs: nat, b: Board, released: seq<nat>, futures: map<nat, Future>,
                          trace: seq<Event>, i: nat)
    requires Scheduling(g, jobs, b, released, futures, None, trace)
    ensures i in b.ready <==> Startable(g, trace, i)
  {
    if i < |g| {
      MissingNone(g[i], released);
      forall d: nat
        ensures d in released <==> HasResult(trace, d)
      {
        ReleasedIffResult(g, jobs, b, released, futures, trace, d);
      }
      assert Submitted(i) in trace <==> i in futures;
      hide Scheduling, HasResult, Missing, Consistent;
    }
  }

  lemma ReleasedIffResult(g: Graph, jobs: nat, b: Board, released: seq<nat>, futures: map<nat, Future>,
                          trace: seq<Event>, d: nat)
    requires Scheduling(g, jobs, b, released, futures, None, trace)
    ensures d in released <==> HasResult(trace, d)
  {
    if d in futures {
      assert Matches(trace, d, futures[d]);
      if futures[d].Done? && futures[d].result.Err? {
        FailureSeen(trace, d, futures[d].result.error);
        assert false;
      }
    }
    assert d in released <==> d in b.results;
  }

  lemma ReadyMaySubmit(g: Graph, jobs: nat, b: Board, released: seq<nat>, futures: map<nat, Future>, trace: seq<Event>,
                       i: nat)
    requires Scheduling(g, jobs, b, released, futures, None, trace) && |b.inFlight| < jobs
    requires b.ready != [] && i == b.ready[0]
    ensures MaySubmit(g, jobs, trace, i) && i !in futures
  {
    forall j
      ensures j in b.ready <==> Startable(g, trace, j)
    {
      ReadyIffStartable(g, jobs, b, released, futures, trace, j);
    }
    assert i in b.ready;
    assert forall k :: 0 < k < |b.ready| ==> i < b.ready[k];
    hide Startable, Orderly, Counted, Storing, Releasing, InFlight, FirstFailure, Missing, Matches;
  }

  /** A round of submissions leaves nothing that could be submitted. */
  lemma RoundOver(g: Graph, jobs: nat, b: Board, released: seq<nat>, futures: map<nat, Future>,
                  firstError: Option<Error>, trace: seq<Event>)
    requires Scheduling(g, jobs, b, released, futures, firstError, trace) && b.inFlight != {}
    requires b.ready == [] || |b.inFlight| == jobs || firstError.Some?
    ensures MayWait(g, jobs, trace)
  {
    if firstError.None? {
      forall j
        ensures j in b.ready <==> Startable(g, trace, j)
      {
        ReadyIffStartable(g, jobs, b, released, futures, trace, j);
      }
    }
    hide Startable, Orderly, Counted, Storing, Releasing, ReadyList, InFlight, FirstFailure, Matches;
  }

  lemma TrackingAwait(trace: seq<Event>, futures: map<nat, Future>, inFlight: set<nat>)
    requires Tracking(trace, futures, inFlight)
    ensures Tracking(trace + [Awaited], futures, inFlight)
  {
    InFlightAppended(trace, Awaited);
    hide InFlight;
    assert forall j :: Collected(j) in trace + [Awaited] <==> Collected(j) in trace;
  }

  /** The scheduling thread waits when a round of submissions is over. */
  lemma WaitSchedules(g: Graph, jobs: nat, b: Board, released: seq<nat>, futures: map<nat, Future>,
                      firstError: Option<Error>, trace: seq<Event>)
    requires Scheduling(g, jobs, b, released, futures, firstError, trace) && b.inFlight != {}
    requires b.ready == [] || |b.inFlight| == jobs || firstError.Some?
    ensures Scheduling(g, jobs, b, released, futures, firstError, trace + [Awaited])
    ensures LastCollected(trace + [Awaited]) == None
  {
    RoundOver(g, jobs, b, released, futures, firstError, trace);
    hide Orderly, Consistent, Counted, Tracking, Storing, Releasing, ReadyList, MayWait;
    ConsistentAwait(futures, firstError, trace);
    OrderlyAppended(g, jobs, trace, Awaited);
    TrackingAwait(trace, futures, b.inFlight);
  }

  lemma TrackingSubmit(trace: seq<Event>, futures: map<nat, Future>, inFlight: set<nat>, i: nat)
    requires Tracking(trace, futures, inFlight) && i !in futures
    ensures Tracking(trace + [Submitted(i)], futures[i := Running], inFlight + {i})
  {
    InFlightAppended(trace, Submitted(i));
    hide InFlight;
    assert forall j :: Collected(j) in trace + [Submitted(i)] <==> Collected(j) in trace;
  }

  lemma StoringSubmit(futures: map<nat, Future>, inFlight: set<nat>, results: map<nat, Value>, i: nat)
    requires Storing(futures, inFlight, results) && i !in futures
    ensures Storing(futures[i := Running], inFlight + {i}, results)
  {
  }

  lemma ReadyListSubmit(g: Graph, ready: seq<nat>, released: seq<nat>, futures: map<nat, Future>)
    requires ReadyList(g, ready, released, futures) && ready != []
    ensures ReadyList(g, ready[1..], released, futures[ready[0] := Running])
  {
    hide Missing;
    var first, rest, futures' := ready[0], ready[1..], futures[ready[0] := Running];
    assert ready == [first] + rest;
    forall i: nat
      ensures i in ready || i in futures <==> i in rest || i in futures'
      ensures i in rest ==> i !in futures'
    {
      if i in rest {
        var k :| 0 <= k < |rest| && rest[k] == i;
        assert ready[k + 1] == i;
      }
    }
  }

  lemma SubmitSchedules(g: Graph, jobs: nat, b: Board, released: seq<nat>, futures: map<nat, Future>, trace: seq<Event>)
    requires Scheduling(g, jobs, b, released, futures, None, trace) && b.ready != [] && |b.inFlight| < jobs
    requires Consistent(futures[b.ready[0] := Running], None, trace + [Submitted(b.ready[0])])
    ensures Scheduling(g, jobs, b.(ready := b.ready[1..], inFlight := b.inFlight + {b.ready[0]}), released,
                       futures[b.ready[0] := Running], None, trace + [Submitted(b.ready[0])])
  {
    hide Orderly, Consistent, Counted, Tracking, Storing, Releasing, ReadyList, MaySubmit;
    ReadyMaySubmit(g, jobs, b, released, futures, trace, b.ready[0]);
    OrderlyAppended(g, jobs, trace, Submitted(b.ready[0]));
    TrackingSubmit(trace, futures, b.inFlight, b.ready[0]);
    StoringSubmit(futures, b.inFlight, b.results, b.ready[0]);
    ReadyListSubmit(g, b.ready, released, futures);
  }

  /** The board when a future that has ended is collected. */
  function Collecting(b: Board, i: nat, future: Future): Board {
    b.(inFlight := b.inFlight - {i},
       results := if future.Done? && future.result.Ok? then b.results[i := future.result.value] else b.results)
  }

  /** The board is right but for one collected stage, which has not been counted off. */
  ghost predicate Owing(g: Graph, jobs: nat, b: Board, released: seq<nat>, futures: map<nat, Future>,
                        firstError: Option<Error>, trace: seq<Event>, i: nat) {
    && Consistent(futures, firstError, trace)
    && Orderly(g, jobs, trace)
    && Counted(g, b.counts, released)
    && Tracking(trace, futures, b.inFlight)
    && Storing(futures, b.inFlight, b.results)
    && i in b.results && i !in released
    && (firstError.None? ==> Releasing(released, b.results - {i}, firstError))
    && (firstError.Some? ==> Releasing(released, b.results, firstError))
    && ReadyList(g, b.ready, released, futures)
    && |b.inFlight| <= jobs
  }

  lemma FailureSeen(trace: seq<Event>, i: nat, e: Error)
    requires Failed(i, e) in trace
    ensures FirstFailure(trace).Some?
  {
    var t :| 0 <= t < |trace| && trace[t] == Failed(i, e);
    FailureKept(trace[..t + 1], trace);
    assert trace[..t + 1] == trace[..t] + [trace[t]];
    FailureAppended(trace[..t], trace[t]);
  }

  lemma TrackingCollect(trace: seq<Event>, futures: map<nat, Future>, inFlight: set<nat>, i: nat)
    requires Tracking(trace, futures, inFlight) && i in inFlight && i in futures && futures[i].Done?
    ensures Tracking(trace + [Collected(i)], futures, inFlight - {i})
  {
    InFlightAppended(trace, Collected(i));
    hide InFlight;
    assert forall j :: Collected(j) in trace + [Collected(i)] <==> Collected(j) in trace || j == i;
  }

  lemma StoringCollect(futures: map<nat, Future>, b: Board, i: nat)
    requires Storing(futures, b.inFlight, b.results) && i in b.inFlight && i in futures && futures[i].Done?
    ensures var b' := Collecting(b, i, futures[i]);
            && Storing(futures, b'.inFlight, b'.results) && i !in b.results
            && (futures[i].result.Ok? ==> b'.results - {i} == b.results)
  {
  }

  lemma ReleasingMore(released: seq<nat>, results: map<nat, Value>, i: nat, value: Value, firstError: Option<Error>)
    requires Releasing(released, results, firstError) && firstError.Some?
    ensures Releasing(released, results[i := value], firstError)
  {
  }

  lemma ReleasedHaveResults(released: seq<nat>, results: map<nat, Value>, firstError: Option<Error>, i: nat)
    requires Releasing(released, results, firstError) && i !in results
    ensures i !in released
  {
  }

  lemma TrackedInFlight(trace: seq<Event>, futures: map<nat, Future>, inFlight: set<nat>, i: nat)
    requires Tracking(trace, futures, inFlight) && i in inFlight
    ensures i in futures && |inFlight - {i}| <= |inFlight|
  {
  }

  lemma EndedMayCollect(trace: seq<Event>, futures: map<nat, Future>, firstError: Option<Error>, inFlight: set<nat>,
                        i: nat)
    requires Consistent(futures, firstError, trace) && Tracking(trace, futures, inFlight)
    requires i in inFlight && i in futures && futures[i].Done?
    requires LastCollected(trace).Some? ==> LastCollected(trace).value < i
    ensures MayCollect(trace, i)
  {
    assert Matches(trace, i, futures[i]);
    hide InFlight, LastCollected, FirstFailure;
  }

  lemma CollectSchedules(g: Graph, jobs: nat, b: Board, released: seq<nat>, futures: map<nat, Future>,
                         firstError: Option<Error>, trace: seq<Event>, i: nat)
    requires Scheduling(g, jobs, b, released, futures, firstError, trace) && i in b.inFlight
    requires i in futures && futures[i].Done?
    requires LastCollected(trace).Some? ==> LastCollected(trace).value < i
    requires Consistent(futures, firstError, trace + [Collected(i)])
    ensures futures[i].result.Err?
            ==> Scheduling(g, jobs, Collecting(b, i, futures[i]), released, futures, firstError, trace + [Collected(i)])
    ensures futures[i].result.Ok?
            ==> Owing(g, jobs, Collecting(b, i, futures[i]), released, futures, firstError, trace + [Collected(i)], i)
  {
    hide Orderly, Consistent, Counted, Tracking, Storing, Releasing, ReadyList, MayCollect;
    EndedMayCollect(trace, futures, firstError, b.inFlight, i);
    OrderlyAppended(g, jobs, trace, Collected(i));
    TrackingCollect(trace, futures, b.inFlight, i);
    TrackedInFlight(trace, futures, b.inFlight, i);
    StoringCollect(futures, b, i);
    ReleasedHaveResults(released, b.results, firstError, i);
    if firstError.Some? && futures[i].result.Ok? {
      ReleasingMore(released, b.results, i, futures[i].result.value, firstError);
    }
  }

  /** After a failure nothing is owed. */
  lemma OwingFailed(g: Graph, jobs: nat, b: Board, released: seq<nat>, futures: map<nat, Future>,
                    firstError: Option<Error>, trace: seq<Event>, i: nat)
    requires Owing(g, jobs, b, released, futures, firstError, trace, i) && firstError.Some?
    ensures Scheduling(g, jobs, b, released, futures, firstError, trace)
  {
    hide Orderly, Consistent, Counted, Tracking, Storing, Releasing, ReadyList;
  }

  lemma ReleasingOwed(released: seq<nat>, results: map<nat, Value>, i: nat, firstError: Option<Error>)
    requires Releasing(released, results - {i}, firstError) && i in results && i !in released
    ensures Releasing(released + [i], results, firstError)
    ensures firstError.Some? ==> Releasing(released, results, firstError)
  {
  }

  lemma OwingActed(g: Graph, jobs: nat, b: Board, released: seq<nat>, futures: map<nat, Future>,
                   firstError: Option<Error>, trace: seq<Event>, futures': map<nat, Future>,
                   firstError': Option<Error>, trace': seq<Event>, i: nat)
    requires Owing(g, jobs, b, released, futures, firstError, trace, i)
    requires WorkersActed(futures, trace, futures', trace') && Consistent(futures', firstError', trace')
    ensures Owing(g, jobs, b, released, futures', firstError', trace', i)
  {
    hide Orderly, Consistent, Counted, Tracking, Storing, Releasing, ReadyList, FirstFailure, WorkersActed;
    ActedShape(futures, trace, futures', trace');
    ConsistentError(futures, firstError, trace);
    ConsistentError(futures', firstError', trace');
    FailureKept(trace, trace');
    OrderlyActed(g, jobs, futures, trace, futures', trace');
    TrackingActed(futures, trace, futures', trace', b.inFlight);
    StoringActed(futures, trace, futures', trace', b.inFlight, b.results);
    ReadyListActed(g, b.ready, released, futures, futures');
    if firstError.None? {
      ReleasingActed(trace, trace', released, b.results - {i});
      ReleasingOwed(released, b.results, i, firstError');
    } else {
      ReleasingActed(trace, trace', released, b.results);
    }
  }

  lemma ReadyListGrown(g: Graph, ready: seq<nat>, released: seq<nat>, futures: map<nat, Future>, i: nat,
                       ready': seq<nat>)
    requires ReadyList(g, ready, released, futures) && i !in released && Grown(g, released, i, ready, ready')
    ensures ReadyList(g, Sorted(ready'), released + [i], futures)
  {
    forall j: nat | j < |g|
      ensures Missing(g[j], released) == Missing(g[j], released + [i]) + Count(g[j], i)
    {
      MissingDone(g[j], released, i);
    }
  }

  lemma OwingOpen(g: Graph, jobs: nat, b: Board, released: seq<nat>, futures: map<nat, Future>,
                  firstError: Option<Error>, trace: seq<Event>, i: nat)
    requires Owing(g, jobs, b, released, futures, firstError, trace, i)
    ensures i < |g| && i !in released && Counted(g, b.counts, released) && Unblocked(g, released, b.ready)
  {
    assert i in futures;
    hide Orderly, Consistent, Counted, Tracking, Releasing, Matches;
  }

  /** Counting off what is owed. */
  lemma OwingPaid(g: Graph, jobs: nat, b: Board, released: seq<nat>, futures: map<nat, Future>, trace: seq<Event>,
                  i: nat, counts: seq<nat>, ready: seq<nat>)
    requires Owing(g, jobs, b, released, futures, None, trace, i)
    requires Counted(g, counts, released + [i]) && Grown(g, released, i, b.ready, ready)
    ensures Scheduling(g, jobs, b.(counts := counts, ready := Sorted(ready)), released + [i], futures, None, trace)
  {
    hide Orderly, Consistent, Counted, Tracking, Storing, Releasing, ReadyList, Grown;
    ReleasingOwed(released, b.results, i, None);
    ReadyListGrown(g, b.ready, released, futures, i, ready);
    assert Distinct(ready) by { GrownDistinct(g, released, i, b.ready, ready); }
  }

  lemma GrownDistinct(g: Graph, done: seq<nat>, index: nat, rest: seq<nat>, ready: seq<nat>)
    requires Grown(g, done, index, rest, ready)
    ensures Distinct(ready)
  {
  }

  /** The stages whose futures have not been collected. */
  ghost function Uncollected(g: Graph, futures: map<nat, Future>, inFlight: set<nat>): set<nat> {
    set i | i in Below(|g|) && (i in futures ==> i in inFlight)
  }

  lemma UncollectedSubmit(g: Graph, futures: map<nat, Future>, inFlight: set<nat>, i: nat)
    requires i !in futures
    ensures Uncollected(g, futures[i := Running], inFlight + {i}) == Uncollected(g, futures, inFlight)
  {
  }

  lemma UncollectedActed(g: Graph, futures: map<nat, Future>, futures': map<nat, Future>, inFlight: set<nat>)
    requires futures'.Keys == futures.Keys
    ensures Uncollected(g, futures', inFlight) == Uncollected(g, futures, inFlight)
  {
    assert forall i :: i in futures' <==> i in futures;
  }

  lemma HeadReady(g: Graph, jobs: nat, b: Board, released: seq<nat>, futures: map<nat, Future>, trace: seq<Event>)
    requires Scheduling(g, jobs, b, released, futures, None, trace) && b.ready != [] && |b.inFlight| < jobs
    ensures b.ready[0] !in futures
    ensures Consistent(futures, None, trace)
  {
    ReadyMaySubmit(g, jobs, b, released, futures, trace, b.ready[0]);
  }

  lemma SchedulingConsistent(g: Graph, jobs: nat, b: Board, released: seq<nat>, futures: map<nat, Future>,
                             firstError: Option<Error>, trace: seq<Event>)
    requires Scheduling(g, jobs, b, released, futures, firstError, trace)
    ensures Consistent(futures, firstError, trace) && b.inFlight <= futures.Keys
  {
  }

  lemma BoundedFlight(g: Graph, jobs: nat, b: Board, released: seq<nat>, futures: map<nat, Future>,
                      firstError: Option<Error>, trace: seq<Event>)
    requires Scheduling(g, jobs, b, released, futures, firstError, trace)
    ensures |b.inFlight| <= jobs
  {
  }

  /** Submit ready stages while jobs are free and nothing has failed. */
  method SubmitReady(ghost g: Graph, jobs: nat, pool: Pool, board: Board, ghost released: seq<nat>) returns (b: Board)
    requires Scheduling(g, jobs, board, released, pool.futures, pool.firstError, pool.trace)
    modifies pool
    ensures Scheduling(g, jobs, b, released, pool.futures, pool.firstError, pool.trace)
    ensures Uncollected(g, pool.futures, b.inFlight) == Uncollected(g, old(pool.futures), board.inFlight)
    ensures b.ready == [] || |b.inFlight| == jobs || pool.firstError.Some?
  {
    b := board;
    BoundedFlight(g, jobs, b, released, pool.futures, pool.firstError, pool.trace);
    hide Scheduling, Uncollected, WorkersActed, Consistent;
    while b.ready != [] && |b.inFlight| < jobs
      invariant Scheduling(g, jobs, b, released, pool.futures, pool.firstError, pool.trace)
      invariant Uncollected(g, pool.futures, b.inFlight) == Uncollected(g, old(pool.futures), board.inFlight)
      invariant |b.inFlight| <= jobs
      decreases |b.ready|
    {
      b := TrySubmit(g, jobs, pool, b, released);
      BoundedFlight(g, jobs, b, released, pool.futures, pool.firstError, pool.trace);
      if pool.firstError.Some? {
        break;
      }
    }
  }

  /** Submit the first ready stage, unless a failure is on record when the record is read. */
  method TrySubmit(ghost g: Graph, jobs: nat, pool: Pool, board: Board, ghost released: seq<nat>) returns (b: Board)
    requires Scheduling(g, jobs, board, released, pool.futures, pool.firstError, pool.trace)
    requires board.ready != [] && |board.inFlight| < jobs
    modifies pool
    ensures Scheduling(g, jobs, b, released, pool.futures, pool.firstError, pool.trace)
    ensures Uncollected(g, pool.futures, b.inFlight) == Uncollected(g, old(pool.futures), board.inFlight)
    ensures pool.firstError.None? ==> |b.ready| < |board.ready|
  {
    SchedulingConsistent(g, jobs, board, released, pool.futures, pool.firstError, pool.trace);
    pool.Advance();
    b := board;
    SchedulingActed(g, jobs, b, released, old(pool.futures), old(pool.firstError), old(pool.trace),
                    pool.futures, pool.firstError, pool.trace);
    ActedShape(old(pool.futures), old(pool.trace), pool.futures, pool.trace);
    UncollectedActed(g, old(pool.futures), pool.futures, b.inFlight);
    if pool.firstError.None? {
      hide Scheduling, Uncollected, WorkersActed, Consistent;
      var index := b.ready[0];
      HeadReady(g, jobs, b, released, pool.futures, pool.trace);
      label Submitting:
      pool.Submit(index);
      SubmitSchedules(g, jobs, b, released, old@Submitting(pool.futures), old@Submitting(pool.trace));
      UncollectedSubmit(g, old@Submitting(pool.futures), b.inFlight, index);
      b := b.(ready := b.ready[1..], inFlight := b.inFlight + {index});
    }
  }

  lemma CollectedLast(trace: seq<Event>, i: nat)
    ensures LastCollected(trace + [Collected(i)]) == Some(i)
  {
  }

  /** Collect one future that has ended, and count it off unless something has failed. */
  method CollectOne(ghost g: Graph, jobs: nat, dependents: seq<seq<nat>>, pool: Pool, board: Board, index: nat,
                    ghost released: seq<nat>) returns (b: Board, ghost released': seq<nat>)
    requires Scheduling(g, jobs, board, released, pool.futures, pool.firstError, pool.trace) && Linked(g, dependents)
    requires index in board.inFlight && index in pool.futures && pool.futures[index].Done?
    requires LastCollected(pool.trace).Some? ==> LastCollected(pool.trace).value < index
    modifies pool
    ensures Scheduling(g, jobs, b, released', pool.futures, pool.firstError, pool.trace)
    ensures b.inFlight == board.inFlight - {index}
    ensures WorkersActed(old(pool.futures), old(pool.trace) + [Collected(index)], pool.futures, pool.trace)
    ensures LastCollected(pool.trace) == Some(index)
  {
    hide Scheduling, Owing, WorkersActed, Consistent, LastCollected, Linked, Grown, Counted, Unblocked;
    released' := released;
    var future := pool.futures[index];
    b := Collecting(board, index, future);
    SchedulingConsistent(g, jobs, board, released, pool.futures, pool.firstError, pool.trace);
    NobodyActed(pool.futures, pool.trace + [Collected(index)]);
    CollectedLast(pool.trace, index);
    pool.Collect(index);
    CollectSchedules(g, jobs, board, released, pool.futures, pool.firstError, old(pool.trace), index);
    if future.result.Ok? {
      label Before:
      pool.Advance();
      LastCollectedKept(old@Before(pool.futures), old@Before(pool.trace), pool.futures, pool.trace);
      OwingActed(g, jobs, b, released, old@Before(pool.futures), old@Before(pool.firstError), old@Before(pool.trace),
                 pool.futures, pool.firstError, pool.trace, index);
      if pool.firstError.Some? {
        OwingFailed(g, jobs, b, released, pool.futures, pool.firstError, pool.trace, index);
        return;
      }
      OwingOpen(g, jobs, b, released, pool.futures, pool.firstError, pool.trace, index);
      var counts, ready := CountOff(g, dependents, released, index, b.counts, b.ready);
      OwingPaid(g, jobs, b, released, pool.futures, pool.trace, index, counts, ready);
      GrownDistinct(g, released, index, b.ready, ready);
      b := b.(counts := counts, ready := Sorted(ready));
      released' := released + [index];
    }
  }

  /** The rest of a batch is still to be collected, and has ended. */
  ghost predicate AllEnded(batch: seq<nat>, k: nat, inFlight: set<nat>, futures: map<nat, Future>) {
    k <= |batch| && forall i :: i in batch[k..] ==> i in inFlight && i in futures && futures[i].Done?
  }

  lemma AwaitedNext(batch: seq<nat>, k: nat, inFlight: set<nat>, futures: map<nat, Future>, trace: seq<Event>,
                    futures': map<nat, Future>, trace': seq<Event>)
    requires AllEnded(batch, k, inFlight, futures) && k < |batch| && Increasing(batch)
    requires WorkersActed(futures, trace, futures', trace')
    ensures AllEnded(batch, k + 1, inFlight - {batch[k]}, futures')
  {
    assert batch[k..] == [batch[k]] + batch[k + 1..];
    forall i | i in batch[k + 1..]
      ensures i in batch[k..] && i != batch[k]
    {
      var j :| k + 1 <= j < |batch| && batch[j] == i;
    }
  }

  lemma UncollectedLess(g: Graph, futures: map<nat, Future>, futures': map<nat, Future>, inFlight: set<nat>, i: nat)
    requires i in futures && i in inFlight && i < |g| && futures'.Keys == futures.Keys
    ensures Uncollected(g, futures', inFlight - {i}) < Uncollected(g, futures, inFlight)
  {
    assert forall j :: j in futures' <==> j in futures;
    assert i in Uncollected(g, futures, inFlight) && i !in Uncollected(g, futures', inFlight - {i});
  }

  lemma ScheduledKnown(g: Graph, jobs: nat, b: Board, released: seq<nat>, futures: map<nat, Future>,
                       firstError: Option<Error>, trace: seq<Event>, i: nat)
    requires Scheduling(g, jobs, b, released, futures, firstError, trace) && i in futures
    ensures i < |g|
  {
  }

  /** Collect the futures of a batch, the least stage first. */
  method CollectBatch(ghost g: Graph, jobs: nat, dependents: seq<seq<nat>>, pool: Pool, board: Board, batch: seq<nat>,
                      ghost released: seq<nat>) returns (b: Board, ghost released': seq<nat>)
    requires Scheduling(g, jobs, board, released, pool.futures, pool.firstError, pool.trace) && Linked(g, dependents)
    requires batch != [] && Increasing(batch) && AllEnded(batch, 0, board.inFlight, pool.futures)
    requires LastCollected(pool.trace) == None
    modifies pool
    ensures Scheduling(g, jobs, b, released', pool.futures, pool.firstError, pool.trace)
    ensures b.inFlight == board.inFlight - Elements(batch)
    ensures Uncollected(g, pool.futures, b.inFlight) < Uncollected(g, old(pool.futures), board.inFlight)
  {
    b, released' := board, released;
    hide Scheduling, Uncollected, WorkersActed, Linked, Increasing;
    for k := 0 to |batch|
      invariant Scheduling(g, jobs, b, released', pool.futures, pool.firstError, pool.trace)
      invariant AllEnded(batch, k, b.inFlight, pool.futures)
      invariant Uncollected(g, pool.futures, b.inFlight) <= Uncollected(g, old(pool.futures), board.inFlight)
      invariant b.inFlight == board.inFlight - Elements(batch[..k])
      invariant LastCollected(pool.trace) == if k == 0 then None else Some(batch[k - 1])
      invariant 0 < k ==> Uncollected(g, pool.futures, b.inFlight) < Uncollected(g, old(pool.futures), board.inFlight)
    {
      var index := batch[k];
      assert index in batch[k..];
      ScheduledKnown(g, jobs, b, released', pool.futures, pool.firstError, pool.trace, index);
      label Before:
      ghost var inFlight := b.inFlight;
      assert batch[..k + 1] == batch[..k] + [index];
      IncreasingAt(batch, k);
      b, released' := CollectOne(g, jobs, dependents, pool, b, index, released');
      ghost var trace := old@Before(pool.trace) + [Collected(index)];
      ActedShape(old@Before(pool.futures), trace, pool.futures, pool.trace);
      AwaitedNext(batch, k, inFlight, old@Before(pool.futures), trace, pool.futures, pool.trace);
      UncollectedLess(g, old@Before(pool.futures), pool.futures, inFlight, index);
    }
    assert batch[..|batch|] == batch;
  }

  lemma IncreasingAt(batch: seq<nat>, k: nat)
    requires Increasing(batch) && k < |batch|
    ensures 0 < k ==> batch[k - 1] < batch[k]
  {
  }

  // ----- the end of a run -----

  /** What a run must come to. */
  ghost predicate Concluded(g: Graph, jobs: nat, trace: seq<Event>, outcome: Outcome) {
    && Orderly(g, jobs, trace)
    && Drained(trace)
    && match outcome
       case Returned(results) =>
         && FirstFailure(trace) == None
         && (forall i: nat :: i in results <==> i < |g|)
         && (forall i :: i in results ==> Succeeded(i, results[i]) in trace)
       case Raised(error) => FirstFailure(trace) == Some(error)
       case _ => trace == []
  }

  /** When nothing is ready any more and all that was submitted has been counted off, nothing is left. */
  lemma EverythingRan(g: Graph, released: seq<nat>, futures: map<nat, Future>)
    requires WellFormed(g) && Acyclic(g) && ReadyList(g, [], released, futures)
    requires forall i :: i in futures <==> i in released
    ensures forall i: nat :: i in futures <==> i < |g|
  {
    forall j: nat | j < |g| && j !in released
      ensures Waits(g, released, j)
    {
      MissingNone(g[j], released);
    }
    forall i: nat | i < |g|
      ensures i in released
    {
      if i !in released {
        BlockedIsCyclic(g, released, i);
      }
    }
  }

  lemma DrainedWhenCollected(futures: map<nat, Future>, firstError: Option<Error>, trace: seq<Event>)
    requires Consistent(futures, firstError, trace) && Tracking(trace, futures, {})
    ensures Drained(trace)
  {
    forall i | Submitted(i) in trace
      ensures Ended(trace, i) && Collected(i) in trace
    {
      assert i in futures && Matches(trace, i, futures[i]) && futures[i].Done?;
    }
  }

  lemma RunReturns(g: Graph, jobs: nat, b: Board, released: seq<nat>, futures: map<nat, Future>, trace: seq<Event>)
    requires WellFormed(g) && Acyclic(g) && Scheduling(g, jobs, b, released, futures, None, trace)
    requires b.inFlight == {} && b.ready == []
    ensures Concluded(g, jobs, trace, Returned(b.results))
  {
    DrainedWhenCollected(futures, None, trace);
    forall i
      ensures i in futures <==> i in b.results
      ensures i in b.results ==> Succeeded(i, b.results[i]) in trace
    {
      if i in futures {
        assert Matches(trace, i, futures[i]);
        if futures[i].result.Err? {
          FailureSeen(trace, i, futures[i].result.error);
        }
      }
    }
    EverythingRan(g, released, futures);
  }

  lemma RunRaises(g: Graph, jobs: nat, b: Board, released: seq<nat>, futures: map<nat, Future>,
                  firstError: Option<Error>, trace: seq<Event>)
    requires Scheduling(g, jobs, b, released, futures, firstError, trace) && b.inFlight == {} && firstError.Some?
    ensures Concluded(g, jobs, trace, Raised(firstError.value))
  {
    DrainedWhenCollected(futures, firstError, trace);
  }

  lemma SchedulingStarts(g: Graph, jobs: nat, counts: seq<nat>, ready: seq<nat>)
    requires Counted(g, counts, []) && ReadyIs(g, ready, [])
    ensures Scheduling(g, jobs, Board(counts, ready, {}, map[]), [], map[], None, [])
  {
    forall i: nat | i < |g|
      ensures Covers([], g[i]) <==> Missing(g[i], []) == 0
    {
      MissingNone(g[i], []);
    }
  }

  lemma BatchAwaited(completed: seq<nat>, batch: seq<nat>, inFlight: set<nat>, futures: map<nat, Future>)
    requires completed != [] && Distinct(completed) && batch == Sorted(completed)
    requires forall i :: i in completed ==> i in inFlight && i in futures && futures[i].Done?
    ensures batch != [] && Increasing(batch) && AllEnded(batch, 0, inFlight, futures)
  {
    assert batch[0..] == batch && completed[0] in batch;
  }

  method AwaitBatch(ghost g: Graph, jobs: nat, pool: Pool, board: Board, ghost released: seq<nat>)
    returns (batch: seq<nat>)
    requires Scheduling(g, jobs, board, released, pool.futures, pool.firstError, pool.trace) && board.inFlight != {}
    requires board.ready == [] || |board.inFlight| == jobs || pool.firstError.Some?
    modifies pool
    ensures Scheduling(g, jobs, board, released, pool.futures, pool.firstError, pool.trace)
    ensures Uncollected(g, pool.futures, board.inFlight) == Uncollected(g, old(pool.futures), board.inFlight)
    ensures batch != [] && Increasing(batch) && AllEnded(batch, 0, board.inFlight, pool.futures)
    ensures forall i :: i in board.inFlight && i in pool.futures && pool.futures[i].Done? ==> i in batch
    ensures LastCollected(pool.trace) == None
  {
    SchedulingConsistent(g, jobs, board, released, pool.futures, pool.firstError, pool.trace);
    WaitSchedules(g, jobs, board, released, pool.futures, pool.firstError, pool.trace);
    ghost var trace := pool.trace + [Awaited];
    var completed := pool.Wait(board.inFlight);
    batch := Sorted(completed);
    hide Scheduling, Uncollected, Consistent, WorkersActed, AllEnded, Increasing;
    BatchAwaited(completed, batch, board.inFlight, pool.futures);
    SchedulingActed(g, jobs, board, released, old(pool.futures), old(pool.firstError), trace,
                    pool.futures, pool.firstError, pool.trace);
    ActedShape(old(pool.futures), trace, pool.futures, pool.trace);
    LastCollectedKept(old(pool.futures), trace, pool.futures, pool.trace);
    UncollectedActed(g, old(pool.futures), pool.futures, board.inFlight);
  }

  /** Wait for futures to end, and collect those that have. */
  method AwaitAndCollect(ghost g: Graph, jobs: nat, dependents: seq<seq<nat>>, pool: Pool, board: Board,
                         ghost released: seq<nat>) returns (b: Board, ghost released': seq<nat>)
    requires Scheduling(g, jobs, board, released, pool.futures, pool.firstError, pool.trace) && Linked(g, dependents)
    requires board.inFlight != {} && (board.ready == [] || |board.inFlight| == jobs || pool.firstError.Some?)
    modifies pool
    ensures Scheduling(g, jobs, b, released', pool.futures, pool.firstError, pool.trace)
    ensures Uncollected(g, pool.futures, b.inFlight) < Uncollected(g, old(pool.futures), board.inFlight)
  {
    var batch := AwaitBatch(g, jobs, pool, board, released);
    hide Scheduling, Uncollected, Linked, Increasing, AllEnded;
    b, released' := CollectBatch(g, jobs, dependents, pool, board, batch, released);
  }

  /** The scheduling loop with several jobs. */
  method RunConcurrently(ghost g: Graph, jobs: nat, dependents: seq<seq<nat>>, counts: seq<nat>, pool: Pool)
    returns (outcome: Outcome)
    requires WellFormed(g) && Acyclic(g) && Linked(g, dependents) && 1 <= jobs
    requires |counts| == |g| && forall i :: 0 <= i < |g| ==> counts[i] == |g[i]|
    requires pool.futures == map[] && pool.firstError == None && pool.trace == []
    modifies pool
    ensures Concluded(g, jobs, pool.trace, outcome) && (outcome.Returned? || outcome.Raised?)
  {
    var ready := ReadyAtStart(counts);
    var b := Board(counts, ready, {}, map[]);
    ghost var released: seq<nat> := [];
    NoneDone(g, counts, ready);
    SchedulingStarts(g, jobs, counts, ready);
    hide Scheduling, Uncollected, Consistent, Concluded;
    while b.ready != [] || b.inFlight != {}
      invariant Scheduling(g, jobs, b, released, pool.futures, pool.firstError, pool.trace)
      decreases Uncollected(g, pool.futures, b.inFlight)
    {
      b := SubmitReady(g, jobs, pool, b, released);
      if b.inFlight == {} {
        break;
      }
      b, released := AwaitAndCollect(g, jobs, dependents, pool, b, released);
    }
    if pool.firstError.Some? {
      RunRaises(g, jobs, b, released, pool.futures, pool.firstError, pool.trace);
      return Raised(pool.firstError.value);
    }
    RunReturns(g, jobs, b, released, pool.futures, pool.trace);
    return Returned(b.results);
  }

  /** A serial run after k stages: they have results, and nothing else was submitted. */
  ghost predicate Serial(g: Graph, order: seq<nat>, k: nat, results: map<nat, Value>, futures: map<nat, Future>,
                         firstError: Option<Error>, trace: seq<Event>) {
    && k <= |order|
    && Consistent(futures, firstError, trace) && Orderly(g, 1, trace)
    && Tracking(trace, futures, {}) && Storing(futures, {}, results)
    && (forall i :: i in futures <==> i in order[..k])
    && (forall i :: i in futures ==> i in results)
  }

  lemma SerialMaySubmit(g: Graph, order: seq<nat>, k: nat, results: map<nat, Value>, futures: map<nat, Future>,
                        trace: seq<Event>)
    requires Topological(g, order) && Greedy(g, order) && k < |order|
    requires Serial(g, order, k, results, futures, None, trace)
    ensures order[k] !in futures && MaySubmit(g, 1, trace, order[k])
  {
    assert LeastAvailable(g, order[..k], order[k]);
    forall d
      ensures HasResult(trace, d) <==> d in order[..k]
    {
      if d in futures {
        assert Matches(trace, d, futures[d]);
      }
    }
    forall j | Startable(g, trace, j)
      ensures Available(g, order[..k], j)
    {
      assert Submitted(j) in trace <==> j in futures;
    }
  }

  /** A stage of a serial run is submitted and runs to its end. */
  lemma SerialRan(g: Graph, order: seq<nat>, k: nat, results: map<nat, Value>, futures: map<nat, Future>,
                  trace: seq<Event>, futures': map<nat, Future>, trace': seq<Event>)
    requires Topological(g, order) && Greedy(g, order) && k < |order|
    requires Serial(g, order, k, results, futures, None, trace)
    requires WorkersActed(futures[order[k] := Running], trace + [Submitted(order[k])], futures', trace')
    ensures Orderly(g, 1, trace') && Tracking(trace', futures', {order[k]}) && Storing(futures', {order[k]}, results)
  {
    var i := order[k];
    SerialMaySubmit(g, order, k, results, futures, trace);
    hide Orderly, Consistent, Tracking, Storing, MaySubmit, WorkersActed, Topological;
    assert {} + {i} == {i};
    TrackingSubmit(trace, futures, {}, i);
    StoringSubmit(futures, {}, results, i);
    OrderlyAppended(g, 1, trace, Submitted(i));
    TrackingActed(futures[i := Running], trace + [Submitted(i)], futures', trace', {i});
    StoringActed(futures[i := Running], trace + [Submitted(i)], futures', trace', {i}, results);
    OrderlyActed(g, 1, futures[i := Running], trace + [Submitted(i)], futures', trace');
  }

  /** Then it is collected. */
  lemma SerialCollected(g: Graph, results: map<nat, Value>, futures: map<nat, Future>, trace: seq<Event>, i: nat,
                        firstError: Option<Error>)
    requires Orderly(g, 1, trace) && Tracking(trace, futures, {i}) && Storing(futures, {i}, results)
    requires i in futures && futures[i].Done? && Consistent(futures, firstError, trace + [Collected(i)])
    requires LastCollected(trace) == None
    ensures Orderly(g, 1, trace + [Collected(i)]) && Tracking(trace + [Collected(i)], futures, {})
    ensures futures[i].result.Ok? ==> Storing(futures, {}, results[i := futures[i].result.value])
    ensures futures[i].result.Err? ==> firstError.Some?
  {
    hide *;
    BeforeCollected(futures, firstError, trace, i);
    EndedFailed(futures, firstError, trace, i);
    TrackedInFlight(trace, futures, {i}, i);
    EndedMayCollect(trace, futures, firstError, {i}, i);
    CollectPermitted(g, 1, trace, i);
    TrackingCollect(trace, futures, {i}, i);
    OrderlyAppended(g, 1, trace, Collected(i));
    assert {i} - {i} == {};
    StoringCollect(futures, Board([], [], {i}, results), i);
    CollectedBoard(results, i, futures[i]);
  }

  lemma CollectPermitted(g: Graph, jobs: nat, trace: seq<Event>, i: nat)
    requires MayCollect(trace, i)
    ensures Permitted(g, jobs, trace, Collected(i))
  {
    hide MayCollect;
  }

  lemma CollectedBoard(results: map<nat, Value>, i: nat, future: Future)
    ensures var b := Collecting(Board([], [], {i}, results), i, future);
            && b.inFlight == {i} - {i}
            && (future.Done? && future.result.Ok? ==> b.results == results[i := future.result.value])
  {
  }

  lemma BeforeCollected(futures: map<nat, Future>, firstError: Option<Error>, trace: seq<Event>, i: nat)
    requires Consistent(futures, firstError, trace + [Collected(i)])
    ensures Consistent(futures, firstError, trace)
  {
    FailureAppended(trace, Collected(i));
    hide FirstFailure;
    assert forall j, e :: Failed(j, e) in trace + [Collected(i)] <==> Failed(j, e) in trace;
    assert forall j, v :: Succeeded(j, v) in trace + [Collected(i)] <==> Succeeded(j, v) in trace;
    assert forall j :: Submitted(j) in trace + [Collected(i)] <==> Submitted(j) in trace;
  }

  lemma EndedFailed(futures: map<nat, Future>, firstError: Option<Error>, trace: seq<Event>, i: nat)
    requires Consistent(futures, firstError, trace) && i in futures && futures[i].Done?
    ensures futures[i].result.Err? ==> firstError.Some?
  {
    assert Matches(trace, i, futures[i]);
    if futures[i].result.Err? {
      FailureSeen(trace, i, futures[i].result.error);
    }
  }

  lemma SerialKeys(order: seq<nat>, k: nat, results: map<nat, Value>, futures: map<nat, Future>,
                   trace: seq<Event>, futures': map<nat, Future>, trace': seq<Event>, value: Value)
    requires k < |order| && WorkersActed(futures[order[k] := Running], trace, futures', trace')
    requires forall i :: i in futures <==> i in order[..k]
    requires forall i :: i in futures ==> i in results
    ensures forall i :: i in futures' <==> i in order[..k + 1]
    ensures forall i :: i in futures' ==> i in results[order[k] := value]
  {
    assert order[..k + 1] == order[..k] + [order[k]];
    assert forall i :: i in futures' <==> i in futures[order[k] := Running];
  }

  lemma SubmittedLast(futures: map<nat, Future>, trace: seq<Event>, i: nat, futures': map<nat, Future>,
                      trace': seq<Event>)
    requires WorkersActed(futures, trace + [Submitted(i)], futures', trace')
    ensures LastCollected(trace') == None
  {
    LastCollectedKept(futures, trace + [Submitted(i)], futures', trace');
  }

  lemma SerialNext(g: Graph, order: seq<nat>, k: nat, results: map<nat, Value>, futures: map<nat, Future>,
                   trace: seq<Event>, futures': map<nat, Future>, firstError': Option<Error>, trace': seq<Event>)
    requires Topological(g, order) && Greedy(g, order) && k < |order|
    requires Serial(g, order, k, results, futures, None, trace)
    requires WorkersActed(futures[order[k] := Running], trace + [Submitted(order[k])], futures', trace')
    requires order[k] in futures' && futures'[order[k]].Done?
    requires Consistent(futures', firstError', trace' + [Collected(order[k])])
    ensures futures'[order[k]].result.Ok?
            ==> Serial(g, order, k + 1, results[order[k] := futures'[order[k]].result.value], futures', firstError',
                       trace' + [Collected(order[k])])
    ensures Orderly(g, 1, trace' + [Collected(order[k])]) && Tracking(trace' + [Collected(order[k])], futures', {})
    ensures futures'[order[k]].result.Err? ==> firstError'.Some?
  {
    hide Orderly, Consistent, Tracking, Storing, WorkersActed, Topological;
    SerialRan(g, order, k, results, futures, trace, futures', trace');
    ActedShape(futures[order[k] := Running], trace + [Submitted(order[k])], futures', trace');
    SubmittedLast(futures[order[k] := Running], trace, order[k], futures', trace');
    SerialCollected(g, results, futures', trace', order[k], firstError');
    if futures'[order[k]].result.Ok? {
      SerialKeys(order, k, results, futures, trace + [Submitted(order[k])], futures', trace',
                 futures'[order[k]].result.value);
    }
  }

  lemma SerialReturns(g: Graph, order: seq<nat>, results: map<nat, Value>, futures: map<nat, Future>,
                      firstError: Option<Error>, trace: seq<Event>)
    requires Topological(g, order) && Serial(g, order, |order|, results, futures, firstError, trace)
    ensures firstError.None? ==> Concluded(g, 1, trace, Returned(results))
  {
    DrainedWhenCollected(futures, firstError, trace);
    assert order[..|order|] == order;
    forall k | 0 <= k < |order|
      ensures order[k] < |g|
    {
      assert Available(g, order[..k], order[k]);
    }
    DistinctBounded(order, |g|);
    forall i | i in results
      ensures Succeeded(i, results[i]) in trace
    {
      assert Matches(trace, i, futures[i]);
    }
  }

  lemma RaisedConcludes(g: Graph, jobs: nat, futures: map<nat, Future>, firstError: Option<Error>, trace: seq<Event>)
    requires Consistent(futures, firstError, trace) && firstError.Some? && Orderly(g, jobs, trace) && Drained(trace)
    ensures Concluded(g, jobs, trace, Raised(firstError.value))
  {
  }

  /** Run a stage in the scheduling thread itself. */
  method RunToEnd(pool: Pool, i: nat) returns (result: Result<Value, Error>)
    requires pool.Valid() && i !in pool.futures
    modifies pool
    ensures pool.Valid() && i in pool.futures && pool.futures[i] == Done(result)
    ensures pool.trace != [] && pool.trace[|pool.trace| - 1] == Collected(i)
    ensures WorkersActed(old(pool.futures)[i := Running], old(pool.trace) + [Submitted(i)],
                         pool.futures, pool.trace[..|pool.trace| - 1])
    ensures result.Ok? ==> pool.firstError == old(pool.firstError)
  {
    pool.Submit(i);
    pool.Finish(i);
    ghost var trace := pool.trace;
    pool.Collect(i);
    assert pool.trace[..|pool.trace| - 1] == trace;
    result := pool.futures[i].result;
  }

  /** One stage of a serial run. */
  method RunNext(ghost g: Graph, order: seq<nat>, k: nat, ghost results: map<nat, Value>, pool: Pool)
    returns (result: Result<Value, Error>)
    requires Topological(g, order) && Greedy(g, order) && k < |order|
    requires Serial(g, order, k, results, pool.futures, pool.firstError, pool.trace) && pool.firstError.None?
    modifies pool
    ensures result.Ok? ==> pool.firstError.None?
    ensures result.Ok? ==> Serial(g, order, k + 1, results[order[k] := result.value], pool.futures,
                                  pool.firstError, pool.trace)
    ensures result.Err? ==> pool.firstError.Some? && Concluded(g, 1, pool.trace, Raised(pool.firstError.value))
  {
    SerialMaySubmit(g, order, k, results, pool.futures, pool.trace);
    result := RunToEnd(pool, order[k]);
    ghost var trace := pool.trace[..|pool.trace| - 1];
    assert trace + [Collected(order[k])] == pool.trace;
    hide Serial, WorkersActed, Orderly, Topological, Concluded, Consistent, Tracking;
    SerialNext(g, order, k, results, old(pool.futures), old(pool.trace), pool.futures, pool.firstError, trace);
    if result.Err? {
      DrainedWhenCollected(pool.futures, pool.firstError, pool.trace);
      RaisedConcludes(g, 1, pool.futures, pool.firstError, pool.trace);
    }
  }

  /** With one job: the stages in topological order, up to the first failure. */
  method RunSerially(ghost g: Graph, order: seq<nat>, pool: Pool) returns (outcome: Outcome)
    requires Topological(g, order) && Greedy(g, order)
    requires pool.futures == map[] && pool.firstError == None && pool.trace == []
    modifies pool
    ensures Concluded(g, 1, pool.trace, outcome) && (outcome.Returned? || outcome.Raised?)
  {
    var results: map<nat, Value> := map[];
    assert Serial(g, order, 0, results, pool.futures, pool.firstError, pool.trace);
    hide Serial, WorkersActed, Orderly, Topological, Concluded, Consistent, Tracking;
    for k := 0 to |order|
      invariant Serial(g, order, k, results, pool.futures, pool.firstError, pool.trace) && pool.firstError.None?
    {
      var result := RunNext(g, order, k, results, pool);
      if result.Err? {
        return Raised(pool.firstError.value);
      }
      results := results[order[k] := result.value];
    }
    SerialReturns(g, order, results, pool.futures, pool.firstError, pool.trace);
    return Returned(results);
  }

  /**
   Run a stage graph. Whatever the workers do and whenever they do it: fewer than one job, or a malformed graph, is
   refused and nothing runs; a stage is submitted at most once, after all its dependencies have results, with fewer
   than `jobs` in flight, never after a failure is recorded, and never before a lesser stage that could start; the
   scheduling thread waits only when `jobs` stages are in flight, no further stage can start, or one has failed, and
   collects what has ended in order; everything submitted ends and is collected before the run ends; and the run
   ends with a result for every stage, or with the first recorded error.
   */
  method RunStages(stages: seq<Stage>, jobs: int, pool: Pool) returns (outcome: Outcome)
    requires pool.futures == map[] && pool.firstError == None && pool.trace == []
    modifies pool
    ensures outcome.NoJobs? <==> jobs < 1
    ensures outcome.Refused? <==> 1 <= jobs && !Accepted(stages)
    ensures outcome.Refused? ==> Offence(stages, outcome.reason)
    ensures Concluded(GraphOf(stages), if jobs < 1 then 0 else jobs, pool.trace, outcome)
  {
    if jobs < 1 {
      return NoJobs;
    }
    var plan := ValidateGraph(stages);
    if plan.Err? {
      assert Orderly(GraphOf(stages), jobs, pool.trace) && Drained(pool.trace);
      return Refused(plan.error);
    }
    GraphWellFormed(stages);
    if jobs == 1 {
      outcome := RunSerially(GraphOf(stages), plan.value.order, pool);
    } else {
      outcome := RunConcurrently(GraphOf(stages), jobs, plan.value.dependents, plan.value.counts, pool);
    }
  }
}
