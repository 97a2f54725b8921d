/** The ingress and a watcher's stream together: what the reader of the stream sees. */
module TrackDelivery {
  import opened Common
  import I = TrackIngress
  import S = EventStreams

  /** The events that the service offers to the stream of a watcher, in order. */
  function Heard(log: seq<I.Notice>, watcher: nat): seq<I.Notice> {
    if log == [] then []
    else
      var last := log[|log| - 1];
      Heard(log[..|log| - 1], watcher) + if last.Delivered? && last.watcher == watcher then [last] else []
  }

  /** What a watcher hears keeps the order of the log. */
  ghost predicate Embedded(log: seq<I.Notice>, watcher: nat, heard: seq<I.Notice>, at: seq<nat>) {
    && Increasing(at) && |at| == |heard|
    && (forall i :: 0 <= i < |at| ==> at[i] < |log| && heard[i] == log[at[i]])
    && (forall n :: n in heard ==> n.Delivered? && n.watcher == watcher)
  }

  lemma {:induction false} HeardInOrder(log: seq<I.Notice>, watcher: nat) returns (at: seq<nat>)
    ensures Embedded(log, watcher, Heard(log, watcher), at)
  {
    if log == [] {
      at := [];
    } else {
      var last := log[|log| - 1];
      at := HeardInOrder(log[..|log| - 1], watcher);
      if last.Delivered? && last.watcher == watcher {
        at := at + [|log| - 1];
      }
    }
  }

  lemma HeardFresh(log: seq<I.Notice>, watcher: nat, i: nat, j: nat)
    requires I.Fresh(log) && i < j < |Heard(log, watcher)|
    requires I.SameTrack(Heard(log, watcher)[i], Heard(log, watcher)[j])
    ensures Heard(log, watcher)[i].receipt < Heard(log, watcher)[j].receipt
  {
    var at := HeardInOrder(log, watcher);
  }

  /** What the reader of one stream has received, when the stream was offered a beginning of what a watcher hears. */
  lemma ReceivedInOrder(log: seq<I.Notice>, watcher: nat, s: S.System<I.Notice>, identity: I.Identity, i: nat, j: nat)
    requires I.Fresh(log) && S.Sound(s) && s.offered <= Heard(log, watcher)
    requires i < j < |s.received| && I.TrackOf(s.received[i], identity) && I.TrackOf(s.received[j], identity)
    ensures s.received[i].receipt < s.received[j].receipt
  {
    var at := HeardInOrder(log, watcher);
    HeardFresh(log, watcher, s.consumed[i], s.consumed[j]);
  }

  /**
   In every run of the service, and every run of a stream that is offered what the service tells its watcher (a
   closed stream takes no more), the reader receives the TRACK events about one identity in strictly increasing
   receipt order: neither the queue policy, nor dropped events, nor the change between the queued and the direct
   path can show it an older TRACK after a newer one.
   */
  lemma ReaderNeverRegresses(config: I.Config, actions: seq<I.Action>, watcher: nat,
                             capacity: nat, policy: Policy, hasCallback: bool,
                             reading: seq<S.Action<I.Notice>>, identity: I.Identity, i: nat, j: nat)
    requires I.ValidConfig(config) && I.Legal(I.NewIngress(config), actions)
    requires 1 <= capacity && S.Legal(S.Start(capacity, policy, hasCallback), reading)
    requires S.Execute(S.Start(capacity, policy, hasCallback), reading).offered
             <= Heard(I.Execute(I.NewIngress(config), actions).log, watcher)
    requires i < j < |S.Execute(S.Start(capacity, policy, hasCallback), reading).received|
    requires var received := S.Execute(S.Start(capacity, policy, hasCallback), reading).received;
             I.TrackOf(received[i], identity) && I.TrackOf(received[j], identity)
    ensures var received := S.Execute(S.Start(capacity, policy, hasCallback), reading).received;
            received[i].receipt < received[j].receipt
  {
    var log := I.Execute(I.NewIngress(config), actions).log;
    var s := S.Execute(S.Start(capacity, policy, hasCallback), reading);
    I.EveryRun(config, actions);
    S.EveryRun(capacity, policy, hasCallback, reading);
    ReceivedInOrder(log, watcher, s, identity, i, j);
  }

  // ----- the service and all its streams in one run -----

  /** The service and the stream of every watcher there has been, by the number of the watcher. */
  datatype Delivery = Delivery(service: I.Ingress, streams: seq<S.System<I.Notice>>)

  datatype Move =
    | Service(action: I.Action)
    | Open(policy: Policy, categories: set<I.Category>, integrations: set<string>, capacity: nat, hasCallback: bool)
    | Stream(watcher: nat, act: S.Action<I.Notice>)

  /** A stream after some notices: an event is offered to it, a rejection is counted. */
  function Fed(s: S.System<I.Notice>, notices: seq<I.Notice>, watcher: nat): S.System<I.Notice> {
    if notices == [] then s
    else
      var before, last := Fed(s, notices[..|notices| - 1], watcher), notices[|notices| - 1];
      if last.watcher != watcher then before
      else S.Step(before, if last.Delivered? then S.Offer(last) else S.DecodeFailure)
  }

  lemma LogGrows(s: I.Ingress, a: I.Action)
    requires I.Enabled(s, a)
    ensures s.log <= I.Step(s, a).log
  {
    hide I.Without, I.Find, I.Trimmed, I.TotalBytes, I.Detached, I.Others, I.Matching;
  }

  /** A step of the service: in the same step, each stream is told what the step says to its watcher. */
  function Serve(d: Delivery, a: I.Action): Delivery
    requires I.Enabled(d.service, a)
  {
    LogGrows(d.service, a);
    var after := I.Step(d.service, a);
    var notices := after.log[|d.service.log|..];
    Delivery(after, seq(|d.streams|, k requires 0 <= k < |d.streams| => Fed(d.streams[k], notices, k)))
  }

  /** The service alone talks to the streams; readers, closes and close tasks act on them between its steps. */
  predicate Enabled(d: Delivery, m: Move) {
    match m
    case Service(a) => !a.Watch? && I.Enabled(d.service, a)
    case Open(_, _, _, capacity, _) => 1 <= capacity
    case Stream(k, a) => k < |d.streams| && !a.Offer? && !a.DecodeFailure? && S.Enabled(d.streams[k], a)
  }

  function Step(d: Delivery, m: Move): Delivery
    requires Enabled(d, m)
  {
    match m
    case Service(a) => Serve(d, a)
    case Open(policy, categories, integrations, capacity, hasCallback) =>
      var after := I.Step(d.service, I.Watch(policy, categories, integrations));
      Delivery(after, if d.service.closed then d.streams else d.streams + [S.Start(capacity, policy, hasCallback)])
    case Stream(k, a) => d.(streams := d.streams[k := S.Step(d.streams[k], a)])
  }

  predicate Legal(init: Delivery, moves: seq<Move>)
    decreases |moves|, 0
  {
    moves == [] ||
    (var front := moves[..|moves| - 1];
     Legal(init, front) && Enabled(Execute(init, front), moves[|moves| - 1]))
  }

  function Execute(init: Delivery, moves: seq<Move>): Delivery
    requires Legal(init, moves)
    decreases |moves|, 1
  {
    if moves == [] then init
    else Step(Execute(init, moves[..|moves| - 1]), moves[|moves| - 1])
  }

  function Begin(config: I.Config): Delivery {
    Delivery(I.NewIngress(config), [])
  }

  /** How many of the messages for a watcher were rejected. */
  function Refusals(log: seq<I.Notice>, watcher: nat): nat {
    if log == [] then 0
    else
      var last := log[|log| - 1];
      Refusals(log[..|log| - 1], watcher) + if last.Rejected? && last.watcher == watcher then 1 else 0
  }

  /** An open stream has been told all that its watcher hears, a closed one a beginning of it. */
  ghost predicate Told(s: S.System<I.Notice>, log: seq<I.Notice>, watcher: nat) {
    && S.Sound(s)
    && s.offered <= Heard(log, watcher)
    && s.stream.decodeErrors <= Refusals(log, watcher)
    && (!s.stream.closed
        ==> s.offered == Heard(log, watcher) && s.stream.decodeErrors == Refusals(log, watcher))
  }

  ghost predicate AllTold(d: Delivery) {
    && I.Sound(d.service)
    && |d.streams| == d.service.created
    && (forall n :: n in d.service.log ==> n.watcher < d.service.created)
    && (forall k :: 0 <= k < |d.streams| ==> Told(d.streams[k], d.service.log, k))
  }

  lemma OneFed(s: S.System<I.Notice>, notice: I.Notice, watcher: nat)
    ensures Fed(s, [notice], watcher)
            == if notice.watcher != watcher then s
               else S.Step(s, if notice.Delivered? then S.Offer(notice) else S.DecodeFailure)
  {
    assert [notice][..0] == [] && Fed(s, [], watcher) == s;
    hide S.Step;
  }

  lemma OneHeard(log: seq<I.Notice>, notice: I.Notice, watcher: nat)
    ensures Heard(log + [notice], watcher)
            == Heard(log, watcher) + if notice.Delivered? && notice.watcher == watcher then [notice] else []
    ensures Refusals(log + [notice], watcher)
            == Refusals(log, watcher) + if notice.Rejected? && notice.watcher == watcher then 1 else 0
  {
    assert (log + [notice])[..|log + [notice]| - 1] == log;
  }

  /** An open stream records what it is told, a closed one does not. */
  lemma TellingHistory(s: S.System<I.Notice>, a: S.Action<I.Notice>)
    requires a.Offer? || a.DecodeFailure?
    ensures var s' := S.Step(s, a);
            && s'.stream.closed == s.stream.closed
            && s'.offered == (if a.Offer? && !s.stream.closed then s.offered + [a.value] else s.offered)
            && s'.stream.decodeErrors
               == s.stream.decodeErrors + if a.DecodeFailure? && !s.stream.closed then 1 else 0
  {
  }

  lemma ToldOne(s: S.System<I.Notice>, log: seq<I.Notice>, notice: I.Notice, watcher: nat)
    requires Told(s, log, watcher)
    ensures Told(Fed(s, [notice], watcher), log + [notice], watcher)
  {
    var a := if notice.Delivered? then S.Offer(notice) else S.DecodeFailure;
    S.StepKeeps(s, a);
    OneFed(s, notice, watcher);
    OneHeard(log, notice, watcher);
    TellingHistory(s, a);
    hide S.Sound, S.Step, Heard, Refusals, Fed;
  }

  lemma {:induction false} FedTold(s: S.System<I.Notice>, log: seq<I.Notice>, notices: seq<I.Notice>, watcher: nat)
    requires Told(s, log, watcher)
    ensures Told(Fed(s, notices, watcher), log + notices, watcher)
  {
    if notices == [] {
      assert log + notices == log;
    } else {
      var front, last := notices[..|notices| - 1], notices[|notices| - 1];
      FedTold(s, log, front, watcher);
      hide *;
      ToldThen(s, log, front, last, watcher);
      assert notices == front + [last] && log + notices == log + front + [last];
    }
  }

  lemma ToldThen(s: S.System<I.Notice>, log: seq<I.Notice>, front: seq<I.Notice>, last: I.Notice, watcher: nat)
    requires Told(Fed(s, front, watcher), log + front, watcher)
    ensures Told(Fed(s, front + [last], watcher), log + front + [last], watcher)
  {
    hide *;
    ToldOne(Fed(s, front, watcher), log + front, last, watcher);
    FedLast(s, front, last, watcher);
  }

  lemma FedLast(s: S.System<I.Notice>, front: seq<I.Notice>, last: I.Notice, watcher: nat)
    ensures Fed(s, front + [last], watcher) == Fed(Fed(s, front, watcher), [last], watcher)
  {
    assert (front + [last])[..|front + [last]| - 1] == front;
    assert [last][..0] == [];
    hide S.Step;
  }

  lemma {:induction false} UnknownHearsNothing(log: seq<I.Notice>, watcher: nat)
    requires forall n :: n in log ==> n.watcher != watcher
    ensures Heard(log, watcher) == [] && Refusals(log, watcher) == 0
  {
    if log != [] {
      assert log[|log| - 1] in log;
      UnknownHearsNothing(log[..|log| - 1], watcher);
    }
  }

  lemma ServiceKeeps(d: Delivery, a: I.Action)
    requires AllTold(d) && !a.Watch? && I.Enabled(d.service, a)
    ensures AllTold(Serve(d, a))
  {
    var s, s', d' := d.service, I.Step(d.service, a), Serve(d, a);
    I.StepKeeps(s, a);
    LogGrows(s, a);
    CreatedFixed(s, a);
    WatchersKnown(s, a);
    var notices := s'.log[|s.log|..];
    assert s'.log == s.log + notices;
    forall k | 0 <= k < |d'.streams|
      ensures Told(d'.streams[k], s'.log, k)
    {
      FedTold(d.streams[k], s.log, notices, k);
    }
    hide Told, Fed, I.Step, I.Sound;
  }

  lemma CreatedFixed(s: I.Ingress, a: I.Action)
    requires !a.Watch? && I.Enabled(s, a)
    ensures I.Step(s, a).created == s.created
  {
    hide I.Without, I.Find, I.Trimmed, I.TotalBytes, I.Detached, I.Others, I.Matching, I.Deliveries, I.Rejections;
  }

  lemma WatchersKnown(s: I.Ingress, a: I.Action)
    requires I.Sound(s) && I.Enabled(s, a)
    requires forall n :: n in s.log ==> n.watcher < s.created
    ensures forall n :: n in I.Step(s, a).log ==> n.watcher < s.created
  {
    I.StepAttended(s, a);
    var log' := I.Step(s, a).log;
    assert I.Registered(s.watchers, s.created);
    forall n | n in log'
      ensures n.watcher < s.created
    {
      var i :| 0 <= i < |log'| && log'[i] == n;
      if i < |s.log| {
        assert n == log'[..|s.log|][i] && n in s.log;
      } else {
        assert I.Known(s.watchers, n.watcher);
      }
    }
    hide I.Step, I.Sound;
  }

  lemma NewTold(log: seq<I.Notice>, watcher: nat, capacity: nat, policy: Policy, hasCallback: bool)
    requires 1 <= capacity && forall n :: n in log ==> n.watcher != watcher
    ensures Told(S.Start(capacity, policy, hasCallback), log, watcher)
  {
    UnknownHearsNothing(log, watcher);
    S.EveryRun<I.Notice>(capacity, policy, hasCallback, []);
    hide S.Sound, Heard, Refusals;
  }

  lemma WatchFrame(s: I.Ingress, a: I.Action)
    requires a.Watch?
    ensures var s' := I.Step(s, a);
            s'.log == s.log && s'.created == s.created + if s.closed then 0 else 1
  {
  }

  lemma StreamAdded(d: Delivery, after: I.Ingress, s: S.System<I.Notice>)
    requires AllTold(d) && I.Sound(after) && after.log == d.service.log && after.created == d.service.created + 1
    requires Told(s, after.log, d.service.created)
    ensures AllTold(Delivery(after, d.streams + [s]))
  {
    hide I.Sound, Told;
  }

  lemma SameTold(d: Delivery, after: I.Ingress)
    requires AllTold(d) && I.Sound(after) && after.log == d.service.log && after.created == d.service.created
    ensures AllTold(Delivery(after, d.streams))
  {
    hide I.Sound, Told;
  }

  lemma OpenKeeps(d: Delivery, m: Move)
    requires AllTold(d) && m.Open? && Enabled(d, m)
    ensures AllTold(Step(d, m))
  {
    var s, a := d.service, I.Watch(m.policy, m.categories, m.integrations);
    assert I.Sound(s) && forall n :: n in s.log ==> n.watcher < s.created;
    hide I.Sound, I.Step, S.Start, Told, AllTold;
    I.StepKeeps(s, a);
    WatchFrame(s, a);
    if s.closed {
      SameTold(d, I.Step(s, a));
    } else {
      NewTold(s.log, s.created, m.capacity, m.policy, m.hasCallback);
      StreamAdded(d, I.Step(s, a), S.Start(m.capacity, m.policy, m.hasCallback));
    }
  }

  lemma StreamKeeps(d: Delivery, m: Move)
    requires AllTold(d) && m.Stream? && Enabled(d, m)
    ensures AllTold(Step(d, m))
  {
    var s := d.streams[m.watcher];
    S.StepKeeps(s, m.act);
    StreamHistory(s, m.act);
    hide I.Sound, S.Sound, S.Step, Heard, Refusals;
  }

  /** Nothing but an offer or a rejection changes what a stream was told, and a closed stream stays closed. */
  lemma StreamHistory(s: S.System<I.Notice>, a: S.Action<I.Notice>)
    requires S.Enabled(s, a) && !a.Offer? && !a.DecodeFailure?
    ensures var s' := S.Step(s, a);
            && s'.offered == s.offered && s'.stream.decodeErrors == s.stream.decodeErrors
            && (s.stream.closed ==> s'.stream.closed)
  {
  }

  lemma {:induction false} RunTells(init: Delivery, moves: seq<Move>)
    requires AllTold(init) && Legal(init, moves)
    ensures AllTold(Execute(init, moves))
  {
    if moves != [] {
      var front, m := moves[..|moves| - 1], moves[|moves| - 1];
      RunTells(init, front);
      var d := Execute(init, front);
      hide AllTold, Serve;
      match m
      case Service(a) => ServiceKeeps(d, a);
      case Open(_, _, _, _, _) => OpenKeeps(d, m);
      case Stream(_, _) => StreamKeeps(d, m);
    }
  }

  /**
   In every run of the service together with its streams, whatever readers, closes and close tasks do between its
   steps, an open stream has been told exactly what the service says to its watcher, a closed one a beginning of it;
   what the reader of an open stream has received and what is queued for it is all of that but the events that a full
   queue dropped; and every reader receives the TRACK events about one identity in strictly increasing receipt order.
   */
  lemma EveryReaderFresh(config: I.Config, moves: seq<Move>, watcher: nat)
    requires I.ValidConfig(config) && Legal(Begin(config), moves)
    requires watcher < |Execute(Begin(config), moves).streams|
    ensures Told(Execute(Begin(config), moves).streams[watcher], Execute(Begin(config), moves).service.log, watcher)
    ensures var d := Execute(Begin(config), moves);
            var s := d.streams[watcher];
            !s.stream.closed
            ==> && s.received + S.QueuedValues(s.stream.queue) == S.Kept(Heard(d.service.log, watcher), s.lost)
                && |s.lost| == s.stream.dropped
    ensures var received := Execute(Begin(config), moves).streams[watcher].received;
            forall i, j, identity ::
              0 <= i < j < |received| && I.TrackOf(received[i], identity) && I.TrackOf(received[j], identity)
              ==> received[i].receipt < received[j].receipt
  {
    I.EveryRun(config, []);
    RunTells(Begin(config), moves);
    var d := Execute(Begin(config), moves);
    var s := d.streams[watcher];
    assert I.Fresh(d.service.log);
    if !s.stream.closed {
      S.OpenIsDelivering(s);
      S.OpenDelivers(s);
    }
    forall i, j, identity | 0 <= i < j < |s.received| && I.TrackOf(s.received[i], identity)
                            && I.TrackOf(s.received[j], identity)
      ensures s.received[i].receipt < s.received[j].receipt
    {
      ReceivedInOrder(d.service.log, watcher, s, identity, i, j);
    }
    hide I.Sound, I.Fresh, S.Sound, AllTold, Told, Heard;
  }
}
