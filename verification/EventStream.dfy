/**
 The bounded event stream: a queue with two full-queue policies, one consumer, and a close protocol in which the
 first terminal action wins.

 Each method of the source runs without interruption up to its next await, so a run is an interleaving of the
 actions below. The close callback is a step of its own: it is entered once and may end at any later time.
 */
module EventStreams {
  import opened Common

  datatype Error = Error(code: string)

  /** What ends iteration: a plain stop, or the error the stream failed with. */
  datatype Signal = Stop | Failure(error: Error)

  datatype Item<+T> = Event(value: T) | Marker(signal: Signal)

  /** The close task: not created, created, awaiting the close callback, or done with the callback's error. */
  datatype CloseTask = Unstarted | Scheduled | InCallback | Finished(failure: Option<Error>)

  /** What one call for the next event comes to. */
  datatype Reading<+T> = Got(value: T) | Raised(signal: Signal) | Waiting

  datatype Stream<T> = Stream(
    capacity: nat,
    policy: Policy,
    hasCallback: bool,
    queue: seq<Item<T>>,
    closed: bool,
    dropped: nat,
    decodeErrors: nat,
    terminal: Option<Error>,
    task: CloseTask,
    callbackRuns: nat)
  {
    /** The signal that every reader of the closed stream gets. */
    function Outcome(): Signal {
      if terminal.Some? then Failure(terminal.value) else Stop
    }

    /** Nothing has taken the queue from the reader: no failure, and no end of the close task. */
    predicate Delivering() {
      terminal.None? && !task.Finished?
    }

    /** Whether an offered event enters the queue. */
    predicate Accepts() {
      !closed && (|queue| < capacity || policy == Latest)
    }

    /** The stream after an event is offered: a full queue loses the newest event or the oldest one. */
    function Put(x: T): Stream<T> {
      if closed then this
      else if |queue| < capacity then this.(queue := queue + [Event(x)])
      else if policy == Fifo then this.(dropped := dropped + 1)
      else this.(dropped := dropped + 1, queue := (if queue == [] then [] else queue[1..]) + [Event(x)])
    }

    function RecordDecodeError(): Stream<T> {
      if closed then this else this.(decodeErrors := decodeErrors + 1)
    }

    function Fail(error: Error): Stream<T> {
      if task != Unstarted then this
      else this.(terminal := Some(error), closed := true, queue := [Marker(Failure(error))], task := Scheduled)
    }

    function Close(): Stream<T> {
      if task != Unstarted then this else this.(closed := true, task := Scheduled)
    }

    /** The close task starts and enters the close callback, if there is one. */
    function EnterCallback(): Stream<T> {
      this.(task := InCallback, callbackRuns := callbackRuns + if hasCallback then 1 else 0)
    }

    /** The close callback has ended, well or with an error. */
    function LeaveCallback(failure: Option<Error>): Stream<T> {
      this.(task := Finished(failure), queue := [Marker(Outcome())])
    }

    /** What a call for the next event comes to at once. */
    function Read(): Reading<T> {
      if queue != [] then Taken(queue[0])
      else if closed then Raised(Outcome())
      else Waiting
    }

    static function Taken(item: Item<T>): Reading<T> {
      match item
      case Event(x) => Got(x)
      case Marker(signal) => Raised(signal)
    }

    function AfterRead(): Stream<T> {
      if queue == [] then this else this.(queue := queue[1..])
    }
  }

  function NewStream<T>(capacity: nat, policy: Policy, hasCallback: bool): Stream<T> {
    Stream(capacity, policy, hasCallback, [], false, 0, 0, None, Unstarted, 0)
  }

  // ----- the stream object -----

  class EventStream<T> {
    const capacity: nat
    const policy: Policy
    const hasCallback: bool
    var queue: seq<Item<T>>
    var closed: bool
    var dropped: nat
    var decodeErrors: nat
    var terminal: Option<Error>
    var task: CloseTask
    ghost var callbackRuns: nat

    ghost function View(): Stream<T>
      reads this
    {
      Stream(capacity, policy, hasCallback, queue, closed, dropped, decodeErrors, terminal, task, callbackRuns)
    }

    constructor (capacity: nat, policy: Policy, hasCallback: bool)
      requires 1 <= capacity
      ensures View() == NewStream(capacity, policy, hasCallback)
    {
      this.capacity, this.policy, this.hasCallback := capacity, policy, hasCallback;
      queue, closed, dropped, decodeErrors := [], false, 0, 0;
      terminal, task, callbackRuns := None, Unstarted, 0;
    }

    method PutNowait(x: T) returns (accepted: bool)
      requires 1 <= capacity
      modifies this
      ensures View() == old(View()).Put(x) && accepted == old(View()).Accepts()
    {
      if closed {
        return false;
      }
      if |queue| < capacity {
        queue := queue + [Event(x)];
        return true;
      }
      dropped := dropped + 1;
      if policy == Fifo {
        return false;
      }
      queue := queue[1..];
      queue := queue + [Event(x)];
      return true;
    }

    method RecordDecodeError()
      modifies this
      ensures View() == old(View()).RecordDecodeError()
    {
      if !closed {
        decodeErrors := decodeErrors + 1;
      }
    }

    /** Replace whatever is buffered with one terminal marker. */
    method ReplaceQueue(signal: Signal)
      modifies this`queue
      ensures queue == [Marker(signal)]
    {
      while queue != []
      {
        queue := queue[1..];
      }
      queue := queue + [Marker(signal)];
    }

    method Fail(error: Error)
      modifies this
      ensures View() == old(View()).Fail(error)
    {
      if task == Unstarted {
        terminal := Some(error);
        closed := true;
        ReplaceQueue(Failure(error));
        task := Scheduled;
      }
    }

    method Close()
      modifies this
      ensures View() == old(View()).Close()
    {
      if task == Unstarted {
        closed := true;
        task := Scheduled;
      }
    }

    method EnterCallback()
      requires task == Scheduled
      modifies this
      ensures View() == old(View()).EnterCallback()
    {
      task := InCallback;
      if hasCallback {
        callbackRuns := callbackRuns + 1;
      }
    }

    method LeaveCallback(failure: Option<Error>)
      requires task == InCallback
      modifies this
      ensures View() == old(View()).LeaveCallback(failure)
    {
      ReplaceQueue(if terminal.None? then Stop else Failure(terminal.value));
      task := Finished(failure);
    }

    /** A call for the next event, up to the await on an empty queue; a waiting reader resumes here again. */
    method Next() returns (reading: Reading<T>)
      modifies this
      ensures reading == old(View()).Read() && View() == old(View()).AfterRead()
    {
      if closed && queue == [] {
        return Raised(if terminal.Some? then Failure(terminal.value) else Stop);
      }
      if queue == [] {
        return Waiting;
      }
      var item := queue[0];
      queue := queue[1..];
      match item
      case Marker(signal) => return Raised(signal);
      case Event(x) => return Got(x);
    }
  }

  /** A stream, or nothing when its buffer would hold no event. */
  method OpenStream<T>(capacity: int, policy: Policy, hasCallback: bool) returns (r: Option<EventStream<T>>)
    ensures r.Some? <==> 1 <= capacity
    ensures r.Some? ==> fresh(r.value) && r.value.View() == NewStream(capacity, policy, hasCallback)
  {
    if capacity < 1 {
      return None;
    }
    var stream := new EventStream(capacity, policy, hasCallback);
    return Some(stream);
  }

  // ----- runs -----

  datatype Action<T> =
    | Offer(value: T)
    | DecodeFailure
    | FailWith(error: Error)
    | CloseStream
    | StartCloseTask
    | EndCloseTask(failure: Option<Error>)
    | Call
    | Resume

  /**
   A stream with its one reader and the history of a run. An offered event is named by its position among the
   events offered while the stream was open.
   */
  datatype System<T> = System(
    stream: Stream<T>,
    waiting: bool,
    offered: seq<T>,
    received: seq<T>,
    consumed: seq<nat>,
    queued: seq<nat>,
    lost: set<nat>,
    discarded: set<nat>,
    signals: seq<Signal>)

  function Start<T>(capacity: nat, policy: Policy, hasCallback: bool): System<T> {
    System(NewStream(capacity, policy, hasCallback), false, [], [], [], [], {}, {}, [])
  }

  predicate Enabled<T>(s: System<T>, a: Action<T>) {
    match a
    case StartCloseTask => s.stream.task == Scheduled
    case EndCloseTask(failure) => s.stream.task == InCallback && (failure.Some? ==> s.stream.hasCallback)
    case Call => !s.waiting
    // A waiting reader is woken by the arrival of an item, and by nothing else.
    case Resume => s.waiting && s.stream.queue != []
    case _ => true
  }

  function Step<T>(s: System<T>, a: Action<T>): System<T>
    requires Enabled(s, a)
  {
    match a
    case Offer(x) => OfferStep(s, x)
    case DecodeFailure => s.(stream := s.stream.RecordDecodeError())
    case FailWith(error) => if s.stream.task == Unstarted then Discarding(s, s.stream.Fail(error)) else s
    case CloseStream => s.(stream := s.stream.Close())
    case StartCloseTask => s.(stream := s.stream.EnterCallback())
    case EndCloseTask(failure) => Discarding(s, s.stream.LeaveCallback(failure))
    case Call => ReadStep(s)
    case Resume => ReadStep(s)
  }

  function OfferStep<T>(s: System<T>, x: T): System<T> {
    var n := |s.offered|;
    var s' := s.(stream := s.stream.Put(x));
    if s.stream.closed then s'
    else if |s.stream.queue| < s.stream.capacity then s'.(offered := s.offered + [x], queued := s.queued + [n])
    else if s.stream.policy == Fifo || s.queued == [] then s'.(offered := s.offered + [x], lost := s.lost + {n})
    else s'.(offered := s.offered + [x], lost := s.lost + {s.queued[0]}, queued := s.queued[1..] + [n])
  }

  /** The queue is replaced by a marker. */
  function Discarding<T>(s: System<T>, stream: Stream<T>): System<T> {
    s.(stream := stream, discarded := s.discarded + Elements(s.queued), queued := [])
  }

  function ReadStep<T>(s: System<T>): System<T> {
    var s' := s.(stream := s.stream.AfterRead());
    match s.stream.Read()
    case Waiting => s'.(waiting := true)
    case Raised(signal) => s'.(waiting := false, signals := s.signals + [signal])
    case Got(x) =>
      if s.queued == [] then s'
      else s'.(waiting := false, received := s.received + [x],
                consumed := s.consumed + [s.queued[0]], queued := s.queued[1..])
  }

  /** A run from a state: every action is enabled when it happens. */
  predicate Legal<T>(init: System<T>, actions: seq<Action<T>>)
    decreases |actions|, 0
  {
    actions == [] ||
    (var front := actions[..|actions| - 1];
     Legal(init, front) && Enabled(Execute(init, front), actions[|actions| - 1]))
  }

  function Execute<T>(init: System<T>, actions: seq<Action<T>>): System<T>
    requires Legal(init, actions)
    decreases |actions|, 1
  {
    if actions == [] then init
    else Step(Execute(init, actions[..|actions| - 1]), actions[|actions| - 1])
  }

  // ----- what every run keeps -----

  /** A sequence of events, each the offered event of the given position. */
  ghost predicate Holds<T>(offered: seq<T>, at: seq<nat>, values: seq<T>) {
    && |values| == |at|
    && (forall i :: 0 <= i < |at| ==> at[i] < |offered| && values[i] == offered[at[i]])
  }

  ghost predicate HoldsEvents<T>(offered: seq<T>, at: seq<nat>, queue: seq<Item<T>>) {
    && |queue| == |at|
    && (forall i :: 0 <= i < |at| ==> at[i] < |offered| && queue[i] == Event(offered[at[i]]))
  }

  /** Consumed events precede queued ones in offer order. */
  ghost predicate Ordered(consumed: seq<nat>, queued: seq<nat>) {
    && Increasing(consumed)
    && Increasing(queued)
    && (forall i, j :: 0 <= i < |consumed| && 0 <= j < |queued| ==> consumed[i] < queued[j])
  }

  /** Each of n offered events is consumed, queued, lost to a full queue, or discarded by the close. */
  ghost predicate Partitioned(n: nat, consumed: seq<nat>, queued: seq<nat>, lost: set<nat>, discarded: set<nat>) {
    && (forall i :: i in consumed || i in queued || i in lost || i in discarded <==> 0 <= i < n)
    && (forall i :: i in lost || i in discarded ==> i !in consumed && i !in queued)
    && lost !! discarded
    && |consumed| + |queued| + |lost| + |discarded| == n
  }

  /** The queue holds the queued events in order, or one marker of the outcome. */
  ghost predicate QueueHolds<T>(s: System<T>) {
    || HoldsEvents(s.offered, s.queued, s.stream.queue)
    || (&& s.stream.closed && !s.stream.Delivering()
        && s.queued == [] && s.stream.queue == [Marker(s.stream.Outcome())])
  }

  ghost predicate History<T>(s: System<T>) {
    && Holds(s.offered, s.consumed, s.received)
    && s.stream.dropped == |s.lost|
    && (s.stream.Delivering() ==> s.discarded == {})
    && (s.stream.Delivering() && s.stream.policy == Latest ==>
          forall i :: 0 <= i < |s.queued| ==> s.queued[i] == |s.offered| - |s.queued| + i)
  }

  ghost predicate Closing<T>(s: System<T>) {
    var stream := s.stream;
    && 1 <= stream.capacity && |stream.queue| <= stream.capacity
    && (stream.closed <==> stream.task != Unstarted)
    && (stream.terminal.Some? ==> stream.closed && s.queued == [])
    && (!stream.Delivering() ==> s.queued == [] && (s.waiting ==> stream.queue != []))
    && (forall signal :: signal in s.signals ==> stream.closed && signal == stream.Outcome())
    && stream.callbackRuns
       == if stream.hasCallback && (stream.task.InCallback? || stream.task.Finished?) then 1 else 0
  }

  ghost predicate Sound<T>(s: System<T>) {
    && Ordered(s.consumed, s.queued)
    && Partitioned(|s.offered|, s.consumed, s.queued, s.lost, s.discarded)
    && QueueHolds(s)
    && History(s)
    && Closing(s)
  }

  // ----- each step keeps it -----

  lemma PartitionQueued(n: nat, consumed: seq<nat>, queued: seq<nat>, lost: set<nat>, discarded: set<nat>)
    requires Partitioned(n, consumed, queued, lost, discarded)
    ensures Partitioned(n + 1, consumed, queued + [n], lost, discarded)
  {
    assert forall i :: i in queued + [n] <==> i in queued || i == n;
  }

  lemma PartitionLost(n: nat, consumed: seq<nat>, queued: seq<nat>, lost: set<nat>, discarded: set<nat>)
    requires Partitioned(n, consumed, queued, lost, discarded)
    ensures n !in lost && Partitioned(n + 1, consumed, queued, lost + {n}, discarded)
  {
  }

  lemma PartitionEvicted(n: nat, consumed: seq<nat>, queued: seq<nat>, lost: set<nat>, discarded: set<nat>)
    requires Partitioned(n, consumed, queued, lost, discarded) && Ordered(consumed, queued) && queued != []
    ensures queued[0] !in lost && Partitioned(n, consumed, queued[1..], lost + {queued[0]}, discarded)
  {
    var oldest, rest := queued[0], queued[1..];
    assert queued == [oldest] + rest;
    assert oldest in queued;
    assert oldest !in rest && oldest !in consumed;
    assert forall i :: i in queued <==> i == oldest || i in rest;
    assert oldest !in lost && oldest !in discarded;
    assert |lost + {oldest}| == |lost| + 1;
  }

  lemma PartitionDiscarded(n: nat, consumed: seq<nat>, queued: seq<nat>, lost: set<nat>, discarded: set<nat>)
    requires Partitioned(n, consumed, queued, lost, discarded) && Ordered(consumed, queued)
    ensures Partitioned(n, consumed, [], lost, discarded + Elements(queued))
  {
    DistinctCount(queued);
    assert forall i :: i in queued ==> i !in consumed;
    assert discarded !! Elements(queued);
  }

  lemma PartitionConsumed(n: nat, consumed: seq<nat>, queued: seq<nat>, lost: set<nat>, discarded: set<nat>)
    requires Partitioned(n, consumed, queued, lost, discarded) && queued != []
    ensures Partitioned(n, consumed + [queued[0]], queued[1..], lost, discarded)
  {
    assert queued == [queued[0]] + queued[1..];
    assert forall i :: i in consumed + [queued[0]] || i in queued[1..] <==> i in consumed || i in queued;
  }

  lemma OrderQueued(n: nat, consumed: seq<nat>, queued: seq<nat>)
    requires Ordered(consumed, queued)
    requires (forall i :: 0 <= i < |consumed| ==> consumed[i] < n) && (forall i :: 0 <= i < |queued| ==> queued[i] < n)
    ensures Ordered(consumed, queued + [n])
  {
    var queued' := queued + [n];
    assert forall j :: 0 <= j < |queued'| ==> queued'[j] == if j < |queued| then queued[j] else n;
  }

  lemma PositionsBelow(n: nat, consumed: seq<nat>, queued: seq<nat>, lost: set<nat>, discarded: set<nat>)
    requires Partitioned(n, consumed, queued, lost, discarded)
    ensures (forall i :: 0 <= i < |consumed| ==> consumed[i] < n) && (forall i :: 0 <= i < |queued| ==> queued[i] < n)
  {
    assert forall i :: 0 <= i < |consumed| ==> consumed[i] in consumed;
    assert forall i :: 0 <= i < |queued| ==> queued[i] in queued;
  }

  lemma OrderEvicted(consumed: seq<nat>, queued: seq<nat>)
    requires Ordered(consumed, queued) && queued != []
    ensures Ordered(consumed, queued[1..])
  {
  }

  /** What an offer to an open stream does to the history, in its three cases. */
  lemma OfferHistory<T>(s: System<T>, x: T)
    requires !s.stream.closed && 1 <= s.stream.capacity && |s.queued| == |s.stream.queue|
    ensures var (s', n) := (OfferStep(s, x), |s.offered|);
            && s'.offered == s.offered + [x] && s'.received == s.received
            && s'.consumed == s.consumed && s'.discarded == s.discarded
            && s'.stream.closed == s.stream.closed && s'.stream.policy == s.stream.policy
            && if |s.stream.queue| < s.stream.capacity then
                 s'.queued == s.queued + [n] && s'.lost == s.lost && s'.stream.dropped == s.stream.dropped
               else if s.stream.policy == Fifo then
                 s'.queued == s.queued && s'.lost == s.lost + {n} && s'.stream.dropped == s.stream.dropped + 1
               else
                 && s.queued != [] && s'.queued == s.queued[1..] + [n]
                 && s'.lost == s.lost + {s.queued[0]} && s'.stream.dropped == s.stream.dropped + 1
  {
  }

  lemma OpenParts<T>(s: System<T>)
    requires Sound(s) && !s.stream.closed
    ensures Ordered(s.consumed, s.queued) && Partitioned(|s.offered|, s.consumed, s.queued, s.lost, s.discarded)
    ensures |s.queued| == |s.stream.queue| && s.stream.dropped == |s.lost| && 1 <= s.stream.capacity
    ensures forall i :: 0 <= i < |s.consumed| ==> s.consumed[i] < |s.offered|
    ensures forall i :: 0 <= i < |s.queued| ==> s.queued[i] < |s.offered|
  {
    PositionsBelow(|s.offered|, s.consumed, s.queued, s.lost, s.discarded);
    hide Ordered, Partitioned;
  }

  lemma OfferKeepsPartition<T>(s: System<T>, x: T)
    requires Sound(s) && !s.stream.closed
    ensures var s' := OfferStep(s, x);
            && Ordered(s'.consumed, s'.queued)
            && Partitioned(|s'.offered|, s'.consumed, s'.queued, s'.lost, s'.discarded)
            && s'.stream.dropped == |s'.lost|
  {
    var n := |s.offered|;
    hide *;
    OpenParts(s);
    OfferHistory(s, x);
    if |s.stream.queue| < s.stream.capacity {
      OrderQueued(n, s.consumed, s.queued);
      PartitionQueued(n, s.consumed, s.queued, s.lost, s.discarded);
    } else if s.stream.policy == Fifo {
      PartitionLost(n, s.consumed, s.queued, s.lost, s.discarded);
    } else {
      OrderEvicted(s.consumed, s.queued);
      OrderQueued(n, s.consumed, s.queued[1..]);
      PartitionEvicted(n, s.consumed, s.queued, s.lost, s.discarded);
      PartitionQueued(n, s.consumed, s.queued[1..], s.lost + {s.queued[0]}, s.discarded);
    }
  }

  lemma OfferKeepsQueue<T>(s: System<T>, x: T)
    requires QueueHolds(s) && Closing(s) && !s.stream.closed
    ensures QueueHolds(OfferStep(s, x))
  {
    assert HoldsEvents(s.offered, s.queued, s.stream.queue);
    assert HoldsEvents(OfferStep(s, x).offered, OfferStep(s, x).queued, OfferStep(s, x).stream.queue);
  }

  lemma OfferKeepsClosing<T>(s: System<T>, x: T)
    requires QueueHolds(s) && Closing(s) && !s.stream.closed
    ensures Closing(OfferStep(s, x))
  {
    assert |s.queued| == |s.stream.queue|;
    hide QueueHolds, HoldsEvents;
  }

  lemma HoldsLonger<T>(offered: seq<T>, at: seq<nat>, values: seq<T>, x: T)
    requires Holds(offered, at, values)
    ensures Holds(offered + [x], at, values)
  {
  }

  lemma OfferKeepsHistory<T>(s: System<T>, x: T)
    requires History(s) && HoldsEvents(s.offered, s.queued, s.stream.queue) && !s.stream.closed
    requires 1 <= s.stream.capacity
    requires OfferStep(s, x).stream.dropped == |OfferStep(s, x).lost|
    ensures History(OfferStep(s, x))
  {
    HoldsLonger(s.offered, s.consumed, s.received, x);
    assert |s.queued| == |s.stream.queue|;
    OfferHistory(s, x);
    hide Holds, HoldsEvents, OfferStep;
  }

  lemma OfferKeeps<T>(s: System<T>, x: T)
    requires Sound(s)
    ensures Sound(OfferStep(s, x))
  {
    if !s.stream.closed {
      OfferKeepsPartition(s, x);
      OfferKeepsQueue(s, x);
      OfferKeepsClosing(s, x);
      OfferKeepsHistory(s, x);
      hide OfferStep, Ordered, Partitioned, QueueHolds, History, Closing;
    }
  }

  lemma ReadKeepsPartition<T>(s: System<T>)
    requires Sound(s)
    ensures var s' := ReadStep(s);
            && Ordered(s'.consumed, s'.queued)
            && Partitioned(|s'.offered|, s'.consumed, s'.queued, s'.lost, s'.discarded)
  {
    if s.queued != [] {
      PartitionConsumed(|s.offered|, s.consumed, s.queued, s.lost, s.discarded);
    }
  }

  lemma ReadKeepsQueue<T>(s: System<T>)
    requires QueueHolds(s)
    ensures QueueHolds(ReadStep(s))
  {
    if HoldsEvents(s.offered, s.queued, s.stream.queue) {
      assert HoldsEvents(ReadStep(s).offered, ReadStep(s).queued, ReadStep(s).stream.queue);
    }
  }

  lemma ReadKeepsHistory<T>(s: System<T>)
    requires QueueHolds(s) && History(s)
    ensures History(ReadStep(s))
  {
  }

  lemma ReadKeepsClosing<T>(s: System<T>)
    requires QueueHolds(s) && Closing(s)
    ensures Closing(ReadStep(s))
  {
  }

  lemma ReadKeeps<T>(s: System<T>)
    requires Sound(s)
    ensures Sound(ReadStep(s))
  {
    ReadKeepsPartition(s);
    ReadKeepsQueue(s);
    ReadKeepsHistory(s);
    ReadKeepsClosing(s);
    hide ReadStep, Ordered, Partitioned, QueueHolds, History, Closing;
  }

  /** An action of the close protocol, or the count of a payload that does not decode. */
  predicate Closes<T>(a: Action<T>) {
    !a.Offer? && !a.Call? && !a.Resume?
  }

  lemma ClosingFrame<T>(s: System<T>, a: Action<T>)
    requires Enabled(s, a) && Closes(a)
    ensures var s' := Step(s, a);
            && s'.offered == s.offered && s'.consumed == s.consumed && s'.lost == s.lost
            && (|| (s'.queued == s.queued && s'.discarded == s.discarded)
                || (s'.queued == [] && s'.discarded == s.discarded + Elements(s.queued)))
  {
  }

  lemma CloseKeepsPartition<T>(s: System<T>, a: Action<T>)
    requires Sound(s) && Enabled(s, a) && Closes(a)
    ensures var s' := Step(s, a);
            && Ordered(s'.consumed, s'.queued)
            && Partitioned(|s'.offered|, s'.consumed, s'.queued, s'.lost, s'.discarded)
  {
    hide Step, QueueHolds, History, Closing, Partitioned, Elements;
    PartitionDiscarded(|s.offered|, s.consumed, s.queued, s.lost, s.discarded);
    ClosingFrame(s, a);
  }

  lemma CloseKeepsQueue<T>(s: System<T>, a: Action<T>)
    requires QueueHolds(s) && Closing(s) && Enabled(s, a) && Closes(a)
    ensures QueueHolds(Step(s, a))
  {
  }

  lemma CloseKeepsHistory<T>(s: System<T>, a: Action<T>)
    requires QueueHolds(s) && History(s) && Closing(s) && Enabled(s, a) && Closes(a)
    ensures History(Step(s, a))
  {
    hide QueueHolds;
  }

  lemma CloseKeepsClosing<T>(s: System<T>, a: Action<T>)
    requires QueueHolds(s) && Closing(s) && Enabled(s, a) && Closes(a)
    ensures Closing(Step(s, a))
  {
  }

  lemma CloseKeeps<T>(s: System<T>, a: Action<T>)
    requires Sound(s) && Enabled(s, a) && Closes(a)
    ensures Sound(Step(s, a))
  {
    CloseKeepsPartition(s, a);
    CloseKeepsQueue(s, a);
    CloseKeepsHistory(s, a);
    CloseKeepsClosing(s, a);
    hide Step, Ordered, Partitioned, QueueHolds, History, Closing;
  }

  lemma StepKeeps<T>(s: System<T>, a: Action<T>)
    requires Sound(s) && Enabled(s, a)
    ensures Sound(Step(s, a))
  {
    match a
    case Offer(x) => OfferKeeps(s, x);
    case Call => ReadKeeps(s);
    case Resume => ReadKeeps(s);
    case _ => CloseKeeps(s, a);
  }

  lemma {:induction false} RunKeeps<T>(init: System<T>, actions: seq<Action<T>>)
    requires Sound(init) && Legal(init, actions)
    ensures Sound(Execute(init, actions))
  {
    if actions != [] {
      RunKeeps(init, actions[..|actions| - 1]);
      StepKeeps(Execute(init, actions[..|actions| - 1]), actions[|actions| - 1]);
    }
  }

  /** Every state of every run of a new stream. */
  lemma {:induction false} EveryRun<T>(capacity: nat, policy: Policy, hasCallback: bool, actions: seq<Action<T>>)
    requires 1 <= capacity && Legal(Start(capacity, policy, hasCallback), actions)
    ensures Sound(Execute(Start(capacity, policy, hasCallback), actions))
  {
    RunKeeps(Start(capacity, policy, hasCallback), actions);
  }

  // ----- what the reader sees -----

  /** The offered events that no full queue has lost, in offer order. */
  function Kept<T>(offered: seq<T>, lost: set<nat>): seq<T> {
    if offered == [] then []
    else
      var n := |offered| - 1;
      Kept(offered[..n], lost) + if n in lost then [] else [offered[n]]
  }

  function QueuedValues<T>(queue: seq<Item<T>>): seq<T> {
    if queue == [] then []
    else (match queue[0] case Event(x) => [x] case Marker(_) => []) + QueuedValues(queue[1..])
  }

  lemma {:induction false} QueuedValuesHeld<T>(offered: seq<T>, at: seq<nat>, queue: seq<Item<T>>)
    requires HoldsEvents(offered, at, queue)
    ensures Holds(offered, at, QueuedValues(queue))
  {
    if queue != [] {
      QueuedValuesHeld(offered, at[1..], queue[1..]);
    }
  }

  /** Of the first n positions, exactly those that are not lost are listed. */
  ghost predicate Lists(n: nat, at: seq<nat>, lost: set<nat>) {
    forall i :: 0 <= i < n ==> (i in at <==> i !in lost)
  }

  lemma HeldWithin<T>(offered: seq<T>, at: seq<nat>, values: seq<T>, i: nat)
    requires Holds(offered, at, values) && i < |at|
    ensures i < |values| && at[i] < |offered|
  {
  }

  lemma NothingHeld<T>(offered: seq<T>, at: seq<nat>, values: seq<T>)
    requires Holds(offered, at, values) && offered == []
    ensures values == []
  {
    if at != [] {
      HeldWithin(offered, at, values, 0);
      assert false;
    }
  }

  lemma LastLost<T>(offered: seq<T>, at: seq<nat>, lost: set<nat>, values: seq<T>, n: nat)
    requires Holds(offered, at, values) && Lists(|offered|, at, lost)
    requires |offered| == n + 1 && n in lost
    ensures Holds(offered[..n], at, values) && Lists(n, at, lost)
  {
    assert n !in at && forall i :: 0 <= i < |at| ==> at[i] in at;
  }

  lemma LastHeld<T>(offered: seq<T>, at: seq<nat>, lost: set<nat>, values: seq<T>, n: nat) returns (k: nat)
    requires Increasing(at) && Holds(offered, at, values) && Lists(|offered|, at, lost)
    requires |offered| == n + 1 && n !in lost
    ensures |at| == |values| == k + 1 && at[k] == n
  {
    assert n in at;
    k :| 0 <= k < |at| && at[k] == n;
    assert at[|at| - 1] < |offered|;
  }

  lemma FrontHeld<T>(offered: seq<T>, at: seq<nat>, lost: set<nat>, values: seq<T>, n: nat, k: nat)
    requires Increasing(at) && Holds(offered, at, values) && Lists(|offered|, at, lost)
    requires |offered| == n + 1 && |at| == |values| == k + 1 && at[k] == n
    ensures Increasing(at[..k]) && Holds(offered[..n], at[..k], values[..k]) && Lists(n, at[..k], lost)
    ensures values == values[..k] + [offered[n]]
  {
    assert at == at[..k] + [n];
    assert forall i :: 0 <= i < k ==> at[i] < at[k];
  }

  /** An increasing list of exactly the positions that are not lost reads off the kept events. */
  lemma {:induction false} KeptAt<T>(offered: seq<T>, at: seq<nat>, lost: set<nat>, values: seq<T>)
    requires Increasing(at) && Holds(offered, at, values) && Lists(|offered|, at, lost)
    ensures values == Kept(offered, lost)
  {
    hide Increasing, Holds, Lists;
    if offered == [] {
      NothingHeld(offered, at, values);
    } else {
      var n := |offered| - 1;
      if n in lost {
        LastLost(offered, at, lost, values, n);
        KeptAt(offered[..n], at, lost, values);
      } else {
        var k := LastHeld(offered, at, lost, values, n);
        FrontHeld(offered, at, lost, values, n, k);
        KeptAt(offered[..n], at[..k], lost, values[..k]);
      }
    }
  }

  lemma StepKeepsConfiguration<T>(s: System<T>, a: Action<T>)
    requires Enabled(s, a)
    ensures var s' := Step(s, a).stream;
            s'.capacity == s.stream.capacity && s'.policy == s.stream.policy && s'.hasCallback == s.stream.hasCallback
  {
    match a
    case Offer(x) =>
    case Call =>
    case Resume =>
    case _ =>
  }

  lemma {:induction false} ConfigurationFixed<T>(init: System<T>, actions: seq<Action<T>>)
    requires Legal(init, actions)
    ensures Execute(init, actions).stream.capacity == init.stream.capacity
    ensures Execute(init, actions).stream.policy == init.stream.policy
    ensures Execute(init, actions).stream.hasCallback == init.stream.hasCallback
  {
    if actions != [] {
      var front := actions[..|actions| - 1];
      ConfigurationFixed(init, front);
      StepKeepsConfiguration(Execute(init, front), actions[|actions| - 1]);
      hide Step;
    }
  }

  /**
   Until a stream fails or its close task ends, what its reader has received followed by what is queued is exactly
   the offered events that were not dropped, in offer order, under either policy; and the queue is within its bound.
   Closing alone takes nothing from the reader.
   */
  lemma OpenStreamDelivers<T>(capacity: nat, policy: Policy, hasCallback: bool, actions: seq<Action<T>>)
    requires 1 <= capacity && Legal(Start(capacity, policy, hasCallback), actions)
    requires Execute(Start(capacity, policy, hasCallback), actions).stream.Delivering()
    ensures var s := Execute(Start(capacity, policy, hasCallback), actions);
            && s.received + QueuedValues(s.stream.queue) == Kept(s.offered, s.lost)
            && |s.offered| == |s.received| + |s.stream.queue| + s.stream.dropped
            && |s.stream.queue| <= capacity
  {
    EveryRun(capacity, policy, hasCallback, actions);
    ConfigurationFixed(Start(capacity, policy, hasCallback), actions);
    hide *;
    OpenDelivers(Execute(Start(capacity, policy, hasCallback), actions));
  }

  lemma DeliveringHolds<T>(s: System<T>)
    requires Sound(s) && s.stream.Delivering()
    ensures HoldsEvents(s.offered, s.queued, s.stream.queue) && Holds(s.offered, s.consumed, s.received)
    ensures Ordered(s.consumed, s.queued) && Partitioned(|s.offered|, s.consumed, s.queued, s.lost, s.discarded)
    ensures |s.queued| == |s.stream.queue| <= s.stream.capacity && s.stream.dropped == |s.lost| && s.discarded == {}
  {
    hide Ordered, Partitioned, Holds;
  }

  lemma OpenDelivers<T>(s: System<T>)
    requires Sound(s) && s.stream.Delivering()
    ensures s.received + QueuedValues(s.stream.queue) == Kept(s.offered, s.lost)
    ensures |s.offered| == |s.received| + |s.stream.queue| + s.stream.dropped
    ensures |s.stream.queue| <= s.stream.capacity
  {
    DeliveringHolds(s);
    hide Sound, HoldsEvents;
    QueuedValuesHeld(s.offered, s.queued, s.stream.queue);
    var at := s.consumed + s.queued;
    assert forall i :: i in at <==> i in s.consumed || i in s.queued;
    assert Holds(s.offered, at, s.received + QueuedValues(s.stream.queue));
    KeptAt(s.offered, at, s.lost, s.received + QueuedValues(s.stream.queue));
  }

  lemma OpenIsDelivering<T>(s: System<T>)
    requires Sound(s) && !s.stream.closed
    ensures s.stream.Delivering()
  {
    hide Ordered, Partitioned, QueueHolds, History;
  }

  /**
   Until a stream fails or its close task ends, a read gives the oldest event that was neither received nor dropped;
   when there is none, it waits, or ends iteration if the stream is closed.
   */
  lemma ReadGivesOldest<T>(capacity: nat, policy: Policy, hasCallback: bool, actions: seq<Action<T>>)
    requires 1 <= capacity && Legal(Start(capacity, policy, hasCallback), actions)
    requires Execute(Start(capacity, policy, hasCallback), actions).stream.Delivering()
    ensures var s := Execute(Start(capacity, policy, hasCallback), actions);
            var kept := Kept(s.offered, s.lost);
            s.stream.Read()
            == if |s.received| < |kept| then Got(kept[|s.received|])
               else if s.stream.closed then Raised(Stop)
               else Waiting
  {
    EveryRun(capacity, policy, hasCallback, actions);
    var s := Execute(Start(capacity, policy, hasCallback), actions);
    hide Legal, Execute, Start, Sound, Kept, HoldsEvents;
    OpenDelivers(s);
    DeliveringHolds(s);
    QueueFront(s.offered, s.queued, s.stream.queue);
  }

  lemma QueueFront<T>(offered: seq<T>, at: seq<nat>, queue: seq<Item<T>>)
    requires HoldsEvents(offered, at, queue)
    ensures if queue == [] then QueuedValues(queue) == []
            else QueuedValues(queue) != [] && queue[0] == Event(QueuedValues(queue)[0])
  {
  }

  /**
   An offer to an open stream is recorded, and loses something only when as many events as the stream may hold were
   neither received nor dropped: under FIFO the offered event itself, under LATEST the oldest of these. It is
   accepted exactly when it is not the one that is lost. A closed stream takes nothing.
   */
  ghost predicate LosesOne<T>(s: System<T>, s': System<T>, x: T) {
    var n, capacity, policy := |s.offered|, s.stream.capacity, s.stream.policy;
    var full := n - |s.received| - s.stream.dropped == capacity;
    if s.stream.closed then s' == s && !s.stream.Accepts()
    else
      && s'.offered == s.offered + [x] && s'.received == s.received
      && (!full ==> s'.lost == s.lost)
      && (full && policy == Fifo ==> s'.lost == s.lost + {n})
      && (full && policy == Latest ==> s'.lost == s.lost + {n - capacity})
      && s'.stream.dropped == s.stream.dropped + (if full then 1 else 0)
      && (s.stream.Accepts() <==> n !in s'.lost)
  }

  lemma OfferLosesOne<T>(capacity: nat, policy: Policy, hasCallback: bool, actions: seq<Action<T>>, x: T)
    requires 1 <= capacity && Legal(Start(capacity, policy, hasCallback), actions)
    ensures var s := Execute(Start(capacity, policy, hasCallback), actions);
            LosesOne(s, Step(s, Offer(x)), x) && s.stream.capacity == capacity && s.stream.policy == policy
  {
    EveryRun(capacity, policy, hasCallback, actions);
    ConfigurationFixed(Start(capacity, policy, hasCallback), actions);
    hide LosesOne, Sound, OfferStep, Legal, Execute;
    OfferLost(Execute(Start(capacity, policy, hasCallback), actions), x);
  }

  lemma OfferLost<T>(s: System<T>, x: T)
    requires Sound(s)
    ensures LosesOne(s, OfferStep(s, x), x)
  {
    if s.stream.closed {
      hide Sound;
    } else {
      hide Sound, OfferStep, Kept, QueuedValues, Partitioned, Ordered, HoldsEvents, LosesOne, Stream.Put;
      OpenIsDelivering(s);
      OpenDelivers(s);
      OpenParts(s);
      PartitionLost(|s.offered|, s.consumed, s.queued, s.lost, s.discarded);
      OfferHistory(s, x);
      if s.stream.policy == Latest {
        LatestQueue(s);
      }
      OfferCases(s, OfferStep(s, x), x);
    }
  }

  lemma OfferCases<T>(s: System<T>, s': System<T>, x: T)
    requires !s.stream.closed && s'.offered == s.offered + [x] && s'.received == s.received
    requires |s.offered| == |s.received| + |s.stream.queue| + s.stream.dropped && |s.offered| !in s.lost
    requires |s.queued| == |s.stream.queue| <= s.stream.capacity && 1 <= s.stream.capacity
    requires s.stream.policy == Latest
             ==> forall i :: 0 <= i < |s.queued| ==> s.queued[i] == |s.offered| - |s.queued| + i
    requires if |s.stream.queue| < s.stream.capacity then s'.lost == s.lost && s'.stream.dropped == s.stream.dropped
             else if s.stream.policy == Fifo then
               s'.lost == s.lost + {|s.offered|} && s'.stream.dropped == s.stream.dropped + 1
             else
               s.queued != [] && s'.lost == s.lost + {s.queued[0]} && s'.stream.dropped == s.stream.dropped + 1
    ensures LosesOne(s, s', x)
  {
  }

  /**
   A failure reaches the reader at once: the next read raises it, and a reader that was waiting can be resumed, though
   the close callback may not even have started.
   */
  lemma FailureIsPrompt<T>(capacity: nat, policy: Policy, hasCallback: bool, actions: seq<Action<T>>)
    requires 1 <= capacity && Legal(Start(capacity, policy, hasCallback), actions)
    requires Execute(Start(capacity, policy, hasCallback), actions).stream.terminal.Some?
    ensures var s := Execute(Start(capacity, policy, hasCallback), actions);
            && s.stream.Read() == Raised(Failure(s.stream.terminal.value))
            && (s.waiting ==> Enabled(s, Resume))
            && s.queued == []
  {
    EveryRun(capacity, policy, hasCallback, actions);
    EndedReads(Execute(Start(capacity, policy, hasCallback), actions));
    hide *;
  }

  lemma EndedReads<T>(s: System<T>)
    requires Sound(s) && !s.stream.Delivering()
    ensures s.stream.Read() == Raised(s.stream.Outcome()) && (s.waiting ==> Enabled(s, Resume)) && s.queued == []
    ensures s.stream.terminal.Some? ==> s.stream.Read() == Raised(Failure(s.stream.terminal.value))
  {
    hide Ordered, Partitioned, History;
  }

  /** Under the latest policy the queue of an open stream is the newest offered events, without a gap. */
  lemma LatestIsSuffix<T>(capacity: nat, hasCallback: bool, actions: seq<Action<T>>)
    requires 1 <= capacity && Legal(Start(capacity, Latest, hasCallback), actions)
    requires Execute(Start(capacity, Latest, hasCallback), actions).stream.Delivering()
    ensures var s := Execute(Start(capacity, Latest, hasCallback), actions);
            && |s.stream.queue| <= |s.offered|
            && QueuedValues(s.stream.queue) == s.offered[|s.offered| - |s.stream.queue|..]
  {
    StartedLatest<T>(capacity, hasCallback);
    hide *;
    EveryRun(capacity, Latest, hasCallback, actions);
    ConfigurationFixed(Start(capacity, Latest, hasCallback), actions);
    OpenLatest(Execute(Start(capacity, Latest, hasCallback), actions));
  }

  lemma StartedLatest<T>(capacity: nat, hasCallback: bool)
    ensures Start<T>(capacity, Latest, hasCallback).stream.policy == Latest
  {
  }

  lemma OpenLatest<T>(s: System<T>)
    requires Sound(s) && s.stream.Delivering() && s.stream.policy == Latest
    ensures |s.stream.queue| <= |s.offered|
    ensures QueuedValues(s.stream.queue) == s.offered[|s.offered| - |s.stream.queue|..]
  {
    hide Sound, QueuedValues;
    LatestQueue(s);
    QueuedValuesHeld(s.offered, s.queued, s.stream.queue);
    SuffixHeld(s.offered, s.queued, QueuedValues(s.stream.queue));
  }

  lemma LatestQueue<T>(s: System<T>)
    requires Sound(s) && s.stream.Delivering() && s.stream.policy == Latest
    ensures HoldsEvents(s.offered, s.queued, s.stream.queue)
    ensures forall i :: 0 <= i < |s.queued| ==> s.queued[i] == |s.offered| - |s.queued| + i
  {
    hide Ordered, Partitioned;
  }

  lemma SuffixHeld<T>(offered: seq<T>, at: seq<nat>, values: seq<T>)
    requires Holds(offered, at, values)
    requires forall i :: 0 <= i < |at| ==> at[i] == |offered| - |at| + i
    ensures |at| <= |offered| && values == offered[|offered| - |at|..]
  {
    if at != [] {
      assert at[0] == |offered| - |at|;
    }
  }

  // ----- the close protocol -----

  predicate Terminal<T>(a: Action<T>) {
    a.FailWith? || a.CloseStream?
  }

  /** What the reader of a stream gets when this is the first terminal action. */
  function Decides<T>(a: Action<T>): Signal
    requires Terminal(a)
  {
    if a.FailWith? then Failure(a.error) else Stop
  }

  lemma {:induction false} RunsJoin<T>(init: System<T>, first: seq<Action<T>>, second: seq<Action<T>>)
    requires Legal(init, first + second)
    ensures Legal(init, first) && Legal(Execute(init, first), second)
    ensures Execute(init, first + second) == Execute(Execute(init, first), second)
  {
    if second == [] {
      assert first + second == first;
    } else {
      var front := second[..|second| - 1];
      assert (first + second)[..|first + second| - 1] == first + front;
      RunsJoin(init, first, front);
    }
  }

  /** Until a terminal action happens, a stream stays open and its close task is not created. */
  lemma OpenStepStays<T>(s: System<T>, a: Action<T>)
    requires Enabled(s, a) && !Terminal(a)
    requires !s.stream.closed && s.stream.task == Unstarted && s.stream.terminal == None
    ensures var s' := Step(s, a);
            !s'.stream.closed && s'.stream.task == Unstarted && s'.stream.terminal == None
  {
  }

  lemma {:induction false} OpenWithoutTerminal<T>(init: System<T>, actions: seq<Action<T>>)
    requires Sound(init) && !init.stream.closed && init.stream.terminal == None && Legal(init, actions)
    requires forall a :: a in actions ==> !Terminal(a)
    ensures var s := Execute(init, actions);
            !s.stream.closed && s.stream.task == Unstarted && s.stream.terminal == None
  {
    if actions != [] {
      var front, a := actions[..|actions| - 1], actions[|actions| - 1];
      assert !Terminal(a) && forall b :: b in front ==> b in actions;
      OpenWithoutTerminal(init, front);
      OpenStepStays(Execute(init, front), a);
      hide Step, Sound;
    }
  }

  /** What a closed stream keeps whatever happens next. */
  ghost predicate Frozen<T>(before: System<T>, after: System<T>) {
    && after.stream.closed
    && after.stream.terminal == before.stream.terminal
    && after.offered == before.offered
    && after.stream.dropped == before.stream.dropped
    && after.stream.decodeErrors == before.stream.decodeErrors
    && (before.stream.task.Finished? ==> after.stream.task == before.stream.task && after.received == before.received)
  }

  lemma ClosedStep<T>(init: System<T>, s: System<T>, a: Action<T>)
    requires Sound(s) && Frozen(init, s) && Enabled(s, a)
    ensures Frozen(init, Step(s, a))
  {
    hide Ordered, Partitioned;
  }

  lemma {:induction false} ClosedStaysFrozen<T>(init: System<T>, actions: seq<Action<T>>)
    requires Sound(init) && init.stream.closed && Legal(init, actions)
    ensures Frozen(init, Execute(init, actions))
  {
    if actions != [] {
      var front, a := actions[..|actions| - 1], actions[|actions| - 1];
      ClosedStaysFrozen(init, front);
      RunKeeps(init, front);
      ClosedStep(init, Execute(init, front), a);
      hide Step, Frozen;
    }
  }

  /**
   The first terminal action of a run fixes the signal of every read that ends iteration, whatever terminal
   actions, events and reads follow it, and nothing offered after it is accepted.
   */
  lemma FirstTerminalActionWins<T>(capacity: nat, policy: Policy, hasCallback: bool,
                                   before: seq<Action<T>>, first: Action<T>, after: seq<Action<T>>)
    requires 1 <= capacity && Legal(Start(capacity, policy, hasCallback), before + [first] + after)
    requires Terminal(first) && forall a :: a in before ==> !Terminal(a)
    ensures Legal(Start(capacity, policy, hasCallback), before)
    ensures var init := Start(capacity, policy, hasCallback);
            var s := Execute(init, before + [first] + after);
            && s.stream.closed
            && s.stream.Outcome() == Decides(first)
            && (forall signal :: signal in s.signals ==> signal == Decides(first))
            && s.offered == Execute(init, before).offered
            && s.stream.dropped == Execute(init, before).stream.dropped
  {
    hide Start, Step, Legal, Execute, Sound, Decides, Terminal;
    var init := Start(capacity, policy, hasCallback);
    NewStreamOpen<T>(capacity, policy, hasCallback);
    RunsJoin(init, before + [first], after);
    RunsJoin(init, before, [first]);
    EveryRun(capacity, policy, hasCallback, before + [first] + after);
    RunKeeps(init, before);
    OpenWithoutTerminal(init, before);
    RunOne(Execute(init, before), first);
    StepKeeps(Execute(init, before), first);
    TerminalStep(Execute(init, before), first);
    ClosedStaysFrozen(Step(Execute(init, before), first), after);
    SignalsAgree(Execute(init, before + [first] + after));
  }

  lemma NewStreamOpen<T>(capacity: nat, policy: Policy, hasCallback: bool)
    requires 1 <= capacity
    ensures var s := Start<T>(capacity, policy, hasCallback);
            Sound(s) && !s.stream.closed && s.stream.terminal == None
  {
  }

  lemma RunOne<T>(s: System<T>, a: Action<T>)
    requires Legal(s, [a])
    ensures Enabled(s, a) && Execute(s, [a]) == Step(s, a)
  {
    assert [a][..0] == [];
  }

  lemma TerminalStep<T>(s: System<T>, a: Action<T>)
    requires Terminal(a) && !s.stream.closed && s.stream.task == Unstarted && s.stream.terminal == None
    ensures var s' := Step(s, a);
            && s'.stream.closed && s'.stream.Outcome() == Decides(a)
            && s'.offered == s.offered && s'.stream.dropped == s.stream.dropped
  {
  }

  lemma SignalsAgree<T>(s: System<T>)
    requires Sound(s)
    ensures forall signal :: signal in s.signals ==> signal == s.stream.Outcome()
  {
  }

  /** The close callback runs at most once, and has run exactly once when the close task is done. */
  lemma CallbackRunsOnce<T>(capacity: nat, policy: Policy, hasCallback: bool, actions: seq<Action<T>>)
    requires 1 <= capacity && Legal(Start(capacity, policy, hasCallback), actions)
    ensures var s := Execute(Start(capacity, policy, hasCallback), actions).stream;
            && s.callbackRuns <= 1
            && (s.task.Finished? && hasCallback ==> s.callbackRuns == 1)
            && (s.task.Unstarted? || s.task.Scheduled? ==> s.callbackRuns == 0)
  {
    EveryRun(capacity, policy, hasCallback, actions);
    ConfigurationFixed(Start(capacity, policy, hasCallback), actions);
  }

  /** How the close task ended, each time that it did. */
  function Endings<T>(actions: seq<Action<T>>): seq<Option<Error>> {
    if actions == [] then []
    else
      var last := actions[|actions| - 1];
      Endings(actions[..|actions| - 1]) + if last.EndCloseTask? then [last.failure] else []
  }

  /** How a close task is known to have ended by those who wait for it. */
  function EndOf(task: CloseTask): seq<Option<Error>> {
    if task.Finished? then [task.failure] else []
  }

  lemma EndingStep<T>(s: System<T>, a: Action<T>)
    requires Closing(s) && Enabled(s, a)
    ensures EndOf(Step(s, a).stream.task)
            == EndOf(s.stream.task) + if a.EndCloseTask? then [a.failure] else []
  {
    hide OfferStep, ReadStep, Elements;
    if a.Offer? {
      OfferTask(s, a.value);
    } else if a.Call? || a.Resume? {
      ReadTask(s);
    }
  }

  lemma OfferTask<T>(s: System<T>, x: T)
    ensures OfferStep(s, x).stream.task == s.stream.task
  {
  }

  lemma ReadTask<T>(s: System<T>)
    ensures ReadStep(s).stream.task == s.stream.task
  {
  }

  /**
   The close task ends once, and the error that the close callback ended with, if any, is what everyone who waits
   for the close is told from then on.
   */
  lemma {:induction false} CallbackErrorReported<T>(capacity: nat, policy: Policy, hasCallback: bool,
                                                    actions: seq<Action<T>>)
    requires 1 <= capacity && Legal(Start(capacity, policy, hasCallback), actions)
    ensures EndOf(Execute(Start(capacity, policy, hasCallback), actions).stream.task) == Endings(actions)
  {
    if actions != [] {
      var front, a := actions[..|actions| - 1], actions[|actions| - 1];
      CallbackErrorReported(capacity, policy, hasCallback, front);
      EveryRun(capacity, policy, hasCallback, front);
      assert Closing(Execute(Start(capacity, policy, hasCallback), front));
      EndingStep(Execute(Start(capacity, policy, hasCallback), front), a);
      hide Step, EndOf, Sound, Closing, Start;
    }
  }

  /**
   Once the close task has finished, no reader receives another event, and none blocks: a call ends iteration at
   once with the outcome, and so does a reader that was already waiting as soon as it is resumed, which it can be.
   */
  lemma FinishedReaderEnds<T>(capacity: nat, policy: Policy, hasCallback: bool,
                              actions: seq<Action<T>>, more: seq<Action<T>>)
    requires 1 <= capacity && Legal(Start(capacity, policy, hasCallback), actions + more)
    requires Legal(Start(capacity, policy, hasCallback), actions)
    requires Execute(Start(capacity, policy, hasCallback), actions).stream.task.Finished?
    ensures var s := Execute(Start(capacity, policy, hasCallback), actions + more);
            && s.received == Execute(Start(capacity, policy, hasCallback), actions).received
            && (s.waiting ==> Enabled(s, Resume))
            && s.stream.Read() == Raised(s.stream.Outcome())
            && s.stream.Outcome() == Execute(Start(capacity, policy, hasCallback), actions).stream.Outcome()
  {
    var init := Start(capacity, policy, hasCallback);
    RunsJoin(init, actions, more);
    RunKeeps(init, actions);
    ClosedStaysFrozen(Execute(init, actions), more);
    RunKeeps(Execute(init, actions), more);
  }
}
