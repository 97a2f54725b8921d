/**
 The entity service as an object whose methods update its fields in place. Each method runs without interruption up
 to its next await; its contract ties the fields to the step of the ingress model that it performs.
 */
module TrackService {
  import opened Common
  import opened TrackIngress

  lemma {:induction false} DetachedJoin(a: seq<Entry>, b: seq<Entry>, watcher: nat)
    ensures Detached(a + b, watcher) == Detached(a, watcher) + Detached(b, watcher)
  {
    if a == [] {
      assert a + b == b;
    } else {
      hide *;
      DetachedJoin(a[1..], b, watcher);
      RestOfJoin(a, b);
      DetachedFirst(a, watcher);
      DetachedFirst(a + b, watcher);
      Reassociate(Remaining(a[0], watcher), Detached(a[1..], watcher), Detached(b, watcher));
    }
  }

  lemma Reassociate<T>(x: seq<T>, y: seq<T>, z: seq<T>)
    ensures x + (y + z) == x + y + z
  {
  }

  lemma RestOfJoin<T>(a: seq<T>, b: seq<T>)
    requires a != []
    ensures (a + b)[1..] == a[1..] + b && (a + b)[0] == a[0]
  {
  }

  /** What is left of one entry when a watcher leaves. */
  function Remaining(e: Entry, watcher: nat): seq<Entry> {
    if Others(e.watchers, watcher) == [] then [] else [Relieved(e, watcher)]
  }

  lemma DetachedFirst(a: seq<Entry>, watcher: nat)
    requires a != []
    ensures Detached(a, watcher) == Remaining(a[0], watcher) + Detached(a[1..], watcher)
  {
  }

  lemma {:induction false} FindAfter(done: seq<Entry>, rest: seq<Entry>)
    requires rest != [] && forall e :: e in done ==> e.identity != rest[0].identity
    ensures Find(done + rest, rest[0].identity) == |done|
  {
    if done == [] {
      assert done + rest == rest;
    } else {
      assert done[0] in done && forall e :: e in done[1..] ==> e in done;
      assert (done + rest)[1..] == done[1..] + rest;
      FindAfter(done[1..], rest);
    }
  }

  /** Where entry k is found when the entries before it have been relieved of a watcher. */
  lemma DetachedFront(snapshot: seq<Entry>, k: nat, watcher: nat, receipts: nat)
    requires InOrder(snapshot, receipts) && k < |snapshot|
    ensures var done := Detached(snapshot[..k], watcher);
            Find(done + snapshot[k..], snapshot[k].identity) == |done|
  {
    var front := snapshot[..k];
    var done := Detached(front, watcher);
    DetachedMembers(front, watcher);
    forall e | e in done
      ensures e.identity != snapshot[k].identity
    {
      assert Remnant(front, watcher, e);
      var o :| o in front && e == Relieved(o, watcher);
      assert Precedes(o, snapshot[k]);
    }
    FindAfter(done, snapshot[k..]);
  }

  lemma DetachedNext(snapshot: seq<Entry>, k: nat, watcher: nat)
    requires k < |snapshot|
    ensures Detached(snapshot[..k + 1], watcher)
            == Detached(snapshot[..k], watcher) + Remaining(snapshot[k], watcher)
  {
    assert snapshot[..k + 1] == snapshot[..k] + [snapshot[k]];
    DetachedJoin(snapshot[..k], [snapshot[k]], watcher);
    DetachedFirst([snapshot[k]], watcher);
    assert Detached([], watcher) == [];
  }

  lemma ReplacedBytes(pending: seq<Entry>, i: nat, e: Entry)
    requires i < |pending| && e.payload == pending[i].payload
    ensures TotalBytes(pending[i := e]) == TotalBytes(pending)
  {
    if i > 0 {
      ReplacedBytes(pending[1..], i - 1, e);
      assert pending[i := e][1..] == pending[1..][i - 1 := e];
    }
  }

  /** The index when the first k entries of a snapshot have been relieved of a watcher. */
  ghost function Midway(snapshot: seq<Entry>, k: nat, watcher: nat): seq<Entry>
    requires k <= |snapshot|
  {
    Detached(snapshot[..k], watcher) + snapshot[k..]
  }

  lemma MidwayEnds(snapshot: seq<Entry>, watcher: nat)
    ensures Midway(snapshot, 0, watcher) == snapshot
    ensures Midway(snapshot, |snapshot|, watcher) == Detached(snapshot, watcher)
  {
    assert snapshot[..|snapshot|] == snapshot;
  }

  /** One step of detaching: entry k is relieved in place, or goes. */
  lemma DetachedPrefix(snapshot: seq<Entry>, k: nat, watcher: nat, receipts: nat)
    requires InOrder(snapshot, receipts) && k < |snapshot|
    ensures var p := Midway(snapshot, k, watcher);
            var i := Find(p, snapshot[k].identity);
            var next := Midway(snapshot, k + 1, watcher);
            && i < |p|
            && (Others(snapshot[k].watchers, watcher) == [] ==> Without(p, snapshot[k].identity) == next)
            && (Others(snapshot[k].watchers, watcher) != []
                ==> p[i := Relieved(snapshot[k], watcher)] == next && TotalBytes(next) == TotalBytes(p))
  {
    hide Detached, Find, TotalBytes, InOrder, Others, Without;
    DetachedFront(snapshot, k, watcher, receipts);
    DetachedNext(snapshot, k, watcher);
    assert snapshot[k..][1..] == snapshot[k + 1..];
    EntryOut(Detached(snapshot[..k], watcher), snapshot[k..]);
    EntryFor(Detached(snapshot[..k], watcher), snapshot[k..], Relieved(snapshot[k], watcher));
  }

  lemma EntryOut(done: seq<Entry>, rest: seq<Entry>)
    requires rest != [] && Find(done + rest, rest[0].identity) == |done|
    ensures Without(done + rest, rest[0].identity) == done + [] + rest[1..]
  {
    hide Find;
    assert (done + rest)[|done| + 1..] == rest[1..];
  }

  lemma EntryFor(done: seq<Entry>, rest: seq<Entry>, e: Entry)
    requires rest != [] && e.payload == rest[0].payload
    ensures (done + rest)[|done| := e] == done + [e] + rest[1..]
    ensures TotalBytes(done + [e] + rest[1..]) == TotalBytes(done + rest)
  {
    hide *;
    ReplacedBytes(done + rest, |done|, e);
    assert (done + rest)[|done| := e] == done + [e] + rest[1..];
  }

  /** An admission, by what it does to each field. */
  ghost predicate Placed(s: Ingress, entry: Entry, s': Ingress) {
    && s' == s.(pending := s'.pending, bytes := s'.bytes, coalesced := s'.coalesced, evicted := s'.evicted,
                admitted := s.admitted + 1)
    && s'.pending == Trimmed(Without(s.pending, entry.identity) + [entry], s.config)
    && s'.bytes == TotalBytes(s'.pending)
    && s'.coalesced == s.coalesced + (if Has(s.pending, entry.identity) then 1 else 0)
    && s'.evicted == s.evicted + (|Without(s.pending, entry.identity)| + 1 - |s'.pending|)
  }

  /** The three parts of an admission after the pending value of the identity is gone. */
  function Pushed(s: Ingress, entry: Entry): Ingress {
    s.(pending := s.pending + [entry], bytes := s.bytes + |entry.payload|, admitted := s.admitted + 1)
  }

  function Evicted(s: Ingress): Ingress {
    var kept := Trimmed(s.pending, s.config);
    s.(pending := kept, bytes := TotalBytes(kept), evicted := s.evicted + (|s.pending| - |kept|))
  }

  /** What eviction from a state leaves in the three fields that it changes. */
  ghost predicate Leaves(s: Ingress, kept: seq<Entry>, bytes: int, evicted: nat) {
    kept == Trimmed(s.pending, s.config) && bytes == TotalBytes(kept)
    && evicted == s.evicted + (|s.pending| - |kept|)
  }

  lemma LoopLeaves(s: Ingress, kept: seq<Entry>, bytes: int, evicted: nat, config: Config, grown: seq<Entry>,
                   before: nat)
    requires kept == Trimmed(grown, config) && bytes == TotalBytes(kept) && evicted == before + (|grown| - |kept|)
    requires s.pending == grown && s.config == config && s.evicted == before
    ensures Leaves(s, kept, bytes, evicted)
  {
  }

  lemma LeavesEvicted(s: Ingress, kept: seq<Entry>, bytes: int, evicted: nat)
    requires Leaves(s, kept, bytes, evicted)
    ensures s.(pending := kept, bytes := bytes, evicted := evicted) == Evicted(s)
  {
  }

  lemma PushedIsReady(s: Ingress, entry: Entry)
    requires s.bytes == TotalBytes(s.pending)
    ensures var s' := Pushed(Popped(s, entry.identity), entry);
            && s'.bytes == TotalBytes(s'.pending) && s'.config == s.config
            && s'.pending != [] && s'.pending[|s'.pending| - 1] == entry
  {
    WithoutFacts(s.pending, entry.identity);
    AppendedBytes(Without(s.pending, entry.identity), entry);
    hide TotalBytes, Find;
  }

  lemma PlacedInSteps(s: Ingress, entry: Entry)
    requires s.bytes == TotalBytes(s.pending)
    ensures Placed(s, entry, Evicted(Pushed(Popped(s, entry.identity), entry)))
  {
    hide TotalBytes, Trimmed, Find;
  }

  lemma PlacedIsAdmitted(s: Ingress, entry: Entry, s': Ingress)
    requires s.bytes == TotalBytes(s.pending) && Placed(s, entry, s')
    ensures s' == Admitting(s, entry)
  {
    WithoutFacts(s.pending, entry.identity);
    AppendedBytes(Without(s.pending, entry.identity), entry);
    hide TotalBytes, Find, Trimmed;
  }

  /** The event loop: the drain tasks that are running, and those told to stop. */
  datatype Loop = Loop(live: set<nat>, cancelled: set<nat>, tasks: nat)

  /** The messages received, and what became of the values admitted. */
  datatype Books = Books(receipts: nat, admitted: nat, drained: nat, released: nat)

  lemma TrimmedStep(pending: seq<Entry>, config: Config)
    requires pending != []
    ensures TotalBytes(pending) == |pending[0].payload| + TotalBytes(pending[1..])
    ensures Trimmed(pending, config)
            == if |pending| <= config.bufferSize && TotalBytes(pending) <= config.ByteLimit() then pending
               else Trimmed(pending[1..], config)
  {
  }

  lemma {:induction false} MatchingJoin(a: seq<Watcher>, b: seq<Watcher>, route: Route)
    ensures Matching(a + b, route) == Matching(a, route) + Matching(b, route)
  {
    if a == [] {
      assert a + b == b;
    } else {
      hide *;
      MatchingJoin(a[1..], b, route);
      RestOfJoin(a, b);
      MatchingFirst(a, route);
      MatchingFirst(a + b, route);
      Reassociate(Matched(a[0], route), Matching(a[1..], route), Matching(b, route));
    }
  }

  function Matched(w: Watcher, route: Route): seq<Watcher> {
    if w.Matches(route) then [w] else []
  }

  lemma MatchingFirst(watchers: seq<Watcher>, route: Route)
    requires watchers != []
    ensures Matching(watchers, route) == Matched(watchers[0], route) + Matching(watchers[1..], route)
  {
  }

  lemma MatchingNext(watchers: seq<Watcher>, k: nat, route: Route)
    requires k < |watchers|
    ensures Matching(watchers[..k + 1], route)
            == Matching(watchers[..k], route) + if watchers[k].Matches(route) then [watchers[k]] else []
  {
    assert watchers[..k + 1] == watchers[..k] + [watchers[k]];
    MatchingJoin(watchers[..k], [watchers[k]], route);
    assert [watchers[k]][1..] == [];
  }

  lemma ReceiveCases(s: Ingress, topic: string, payload: Payload)
    ensures var s' := s.(receipts := s.receipts + 1);
            var watchers := Audience(s', topic);
            && (s.closed ==> Receive(s, topic, payload) == s')
            && (!s.closed ==> Receive(s, topic, payload)
                              == if watchers == [] then s' else Ingest(s', topic, payload, watchers, s.receipts))
  {
    hide Ingest, TotalBytes;
  }

  class EntityService {
    const config: Config
    var closed: bool
    var watchers: seq<Watcher>
    var created: nat
    var pending: seq<Entry>
    var pendingBytes: int
    var coalesced: nat
    var evicted: nat
    var drainTask: Option<nat>
    var loop: Loop
    var books: Books
    // What the streams of the watchers are told, in order.
    var log: seq<Notice>

    ghost function View(): Ingress
      reads this
    {
      Ingress(config, closed, watchers, created, pending, pendingBytes, coalesced, evicted, drainTask, loop.live,
              loop.cancelled, loop.tasks, books.receipts, books.admitted, books.drained, books.released, log)
    }

    constructor (config: Config)
      ensures View() == NewIngress(config)
    {
      this.config := config;
      closed, watchers, created, pending, pendingBytes := false, [], 0, [], 0;
      coalesced, evicted, drainTask, loop, books, log := 0, 0, None, Loop({}, {}, 0), Books(0, 0, 0, 0), [];
    }

    /** Remove the pending value of an identity, if there is one. */
    method PopPending(identity: Identity) returns (found: bool)
      modifies this`pending, this`pendingBytes
      ensures found == Has(old(pending), identity)
      ensures pending == Without(old(pending), identity) && (!found ==> pending == old(pending))
      ensures pendingBytes
              == old(pendingBytes) - if found then |old(pending)[Find(old(pending), identity)].payload| else 0
    {
      var i := Find(pending, identity);
      found := i < |pending|;
      if found {
        var entry := pending[i];
        pending := pending[..i] + pending[i + 1..];
        pendingBytes := pendingBytes - |entry.payload|;
      }
    }

    /** A pending value of the identity goes, and counts as coalesced. */
    method Supersede(identity: Identity)
      modifies this`pending, this`pendingBytes, this`coalesced
      ensures View() == Popped(old(View()), identity)
    {
      hide Find, Without;
      var found := PopPending(identity);
      if found {
        coalesced := coalesced + 1;
      }
    }

    /** Take the oldest pending value. */
    method PopOldest() returns (oldest: Entry)
      requires pending != []
      modifies this`pending, this`pendingBytes
      ensures oldest == old(pending)[0] && pending == old(pending)[1..]
      ensures pendingBytes == old(pendingBytes) - |oldest.payload|
    {
      oldest := pending[0];
      pending := pending[1..];
      pendingBytes := pendingBytes - |oldest.payload|;
    }

    method RecordDecodeError(recipients: seq<Watcher>, receipt: nat)
      modifies this`log
      ensures View() == old(View()).(log := old(log) + Rejections(recipients, receipt))
    {
      for k := 0 to |recipients|
        invariant log == old(log) + Rejections(recipients[..k], receipt)
      {
        log := log + [Rejected(recipients[k].id, receipt)];
        assert Rejections(recipients[..k + 1], receipt)
            == Rejections(recipients[..k], receipt) + [Rejected(recipients[k].id, receipt)];
      }
      assert recipients[..|recipients|] == recipients;
    }

    method Offer(recipients: seq<Watcher>, identity: Identity, receipt: nat, track: bool)
      modifies this`log
      ensures View() == old(View()).(log := old(log) + Deliveries(recipients, identity, receipt, track))
    {
      for k := 0 to |recipients|
        invariant log == old(log) + Deliveries(recipients[..k], identity, receipt, track)
      {
        log := log + [Delivered(recipients[k].id, identity, receipt, track)];
        assert Deliveries(recipients[..k + 1], identity, receipt, track)
            == Deliveries(recipients[..k], identity, receipt, track)
               + [Delivered(recipients[k].id, identity, receipt, track)];
      }
      assert recipients[..|recipients|] == recipients;
    }

    method DecodeAndDeliver(topic: string, payload: Payload, recipients: seq<Watcher>, receipt: nat, track: bool,
                            supersede: bool)
      modifies this`log, this`pending, this`pendingBytes, this`coalesced
      ensures View() == Delivering(old(View()), topic, payload, recipients, receipt, track, supersede)
    {
      hide Popped, Deliveries, Rejections;
      match config.codec.decode(topic, payload) {
        case Ignored =>
        case Decoded(identity) =>
          if supersede {
            Supersede(identity);
          }
          Offer(recipients, identity, receipt, track);
        case _ =>
          RecordDecodeError(recipients, receipt);
      }
    }

    /** Evict the oldest pending value. */
    method EvictOne()
      requires pending != []
      modifies this`pending, this`pendingBytes, this`evicted
      ensures pending == old(pending)[1..] && pendingBytes == old(pendingBytes) - |old(pending)[0].payload|
      ensures evicted == old(evicted) + 1
    {
      var oldest := PopOldest();
      evicted := evicted + 1;
    }

    /** Evict the oldest pending values until both limits hold. */
    method EvictOldest()
      requires pendingBytes == TotalBytes(pending) && 1 <= config.bufferSize
      requires pending != [] && |pending[|pending| - 1].payload| <= config.ByteLimit()
      modifies this`pending, this`pendingBytes, this`evicted
      ensures Leaves(old(View()), pending, pendingBytes, evicted)
    {
      ghost var grown := pending;
      TrimmedIsLongest(grown, config);
      hide Leaves, Trimmed, TotalBytes, Config.ByteLimit, WithinLimits, Newest;
      while |pending| > config.bufferSize || pendingBytes > config.ByteLimit()
        invariant pending != [] && pendingBytes == TotalBytes(pending)
        invariant Trimmed(pending, config) == Trimmed(grown, config) != []
        invariant |pending| <= |grown| && evicted == old(evicted) + (|grown| - |pending|)
        decreases |pending|
      {
        TrimmedStep(pending, config);
        ghost var rest := pending[1..];
        assert Trimmed(rest, config) == Trimmed(grown, config);
        EvictOne();
        assert pending == rest;
      }
      TrimmedStep(pending, config);
      LoopLeaves(old(View()), pending, pendingBytes, evicted, config, grown, old(evicted));
    }

    method EnforceLimits()
      requires pendingBytes == TotalBytes(pending) && 1 <= config.bufferSize
      requires pending != [] && |pending[|pending| - 1].payload| <= config.ByteLimit()
      modifies this`pending, this`pendingBytes, this`evicted
      ensures View() == Evicted(old(View()))
    {
      hide Evicted, Leaves, TotalBytes, Config.ByteLimit;
      EvictOldest();
      assert View() == old(View()).(pending := pending, bytes := pendingBytes, evicted := evicted);
      LeavesEvicted(old(View()), pending, pendingBytes, evicted);
    }

    method PushNewest(entry: Entry)
      modifies this`pending, this`pendingBytes, this`books
      ensures View() == Pushed(old(View()), entry)
    {
      pending := pending + [entry];
      pendingBytes := pendingBytes + |entry.payload|;
      books := books.(admitted := books.admitted + 1);
    }

    /** Put a value behind the others, in place of an older one of its identity, and evict until the limits hold. */
    method PlaceNewest(entry: Entry)
      requires pendingBytes == TotalBytes(pending) && 1 <= config.bufferSize
      requires |entry.payload| <= config.ByteLimit()
      modifies this`pending, this`pendingBytes, this`coalesced, this`evicted, this`books
      ensures Placed(old(View()), entry, View())
    {
      ghost var s := View();
      PushedIsReady(s, entry);
      PlacedInSteps(s, entry);
      assert s.bytes == TotalBytes(s.pending);
      hide Placed, Pushed, Popped, Evicted, TotalBytes, Config.ByteLimit;
      Supersede(entry.identity);
      PushNewest(entry);
      EnforceLimits();
    }

    /** Make a value the newest of its identity, within the limits. */
    method Admit(entry: Entry)
      requires pendingBytes == TotalBytes(pending) && 1 <= config.bufferSize
      requires |entry.payload| <= config.maximumPayload
      modifies this`pending, this`pendingBytes, this`coalesced, this`evicted, this`books
      ensures View() == Admitting(old(View()), entry)
    {
      ghost var s := View();
      assert s.bytes == TotalBytes(s.pending);
      ByteLimitFits(config);
      hide *;
      PlaceNewest(entry);
      PlacedIsAdmitted(s, entry, View());
    }

    method EnsureDrain()
      modifies this`drainTask, this`loop
      ensures View() == Draining(old(View()))
    {
      if drainTask.None? || drainTask.value !in loop.live {
        drainTask := Some(loop.tasks);
        loop := Loop(loop.live + {loop.tasks}, loop.cancelled, loop.tasks + 1);
      }
    }

    method CountMessage() returns (receipt: nat)
      modifies this`books
      ensures receipt == old(books).receipts
      ensures View() == old(View()).(receipts := receipt + 1)
    {
      receipt := books.receipts;
      books := books.(receipts := receipt + 1);
    }

    method ReceiveEntity(topic: string, payload: Payload)
      requires pendingBytes == TotalBytes(pending) && 1 <= config.bufferSize
      modifies this`books, this`log, this`pending, this`pendingBytes, this`coalesced,
               this`evicted, this`drainTask, this`loop
      ensures View() == Receive(old(View()), topic, payload)
    {
      ReceiveCases(View(), topic, payload);
      hide Receive, Ingest, Audience, TotalBytes;
      var receipt := CountMessage();
      if closed {
        return;
      }
      var recipients := MatchingWatchers(topic);
      if recipients != [] {
        IngestEntity(topic, payload, recipients, receipt);
      }
    }

    method IngestEntity(topic: string, payload: Payload, recipients: seq<Watcher>, receipt: nat)
      requires pendingBytes == TotalBytes(pending) && 1 <= config.bufferSize
      modifies this`log, this`pending, this`pendingBytes, this`coalesced, this`evicted,
               this`books, this`drainTask, this`loop
      ensures View() == Ingest(old(View()), topic, payload, recipients, receipt)
    {
      var category := config.codec.parse(topic);
      if category.None? {
        RecordDecodeError(recipients, receipt);
        return;
      }
      if category.value != Track || AnyFifo(recipients) {
        DecodeAndDeliver(topic, payload, recipients, receipt, category.value == Track, category.value == Track);
        return;
      }
      var identity := config.Extract(topic, payload);
      if identity.None? {
        RecordDecodeError(recipients, receipt);
        return;
      }
      Admit(Entry(identity.value, topic, payload, recipients, receipt));
      EnsureDrain();
    }

    method MatchingWatchers(topic: string) returns (recipients: seq<Watcher>)
      requires !closed
      ensures recipients == Audience(View(), topic)
    {
      var route := config.codec.route(topic);
      if route.None? {
        return [];
      }
      recipients := [];
      for k := 0 to |watchers|
        invariant recipients == Matching(watchers[..k], route.value)
      {
        MatchingNext(watchers, k, route.value);
        if watchers[k].Matches(route.value) {
          recipients := recipients + [watchers[k]];
        }
      }
      assert watchers[..|watchers|] == watchers;
    }

    /** A drain task resumes after its pause: it delivers the oldest pending value, or ends. */
    method ResumeDrain(task: nat)
      requires task in loop.live
      modifies this`pending, this`pendingBytes, this`books, this`log, this`coalesced, this`loop, this`drainTask
      ensures View() == Resume(old(View()), task)
    {
      hide Delivering;
      if task !in loop.cancelled && pending != [] && !closed {
        var oldest := PopOldest();
        books := books.(drained := books.drained + 1);
        DecodeAndDeliver(oldest.topic, oldest.payload, oldest.watchers, oldest.receipt, true, false);
      } else {
        loop := loop.(live := loop.live - {task});
        if drainTask == Some(task) {
          drainTask := None;
        }
      }
    }

    method AttachWatcher(policy: Policy, categories: set<Category>, integrations: set<string>) returns (accepted: bool)
      modifies this`watchers, this`created
      ensures accepted == !old(closed) && View() == Attach(old(View()), policy, categories, integrations)
    {
      if closed {
        return false;
      }
      watchers := watchers + [Watcher(created, policy, categories, integrations)];
      created := created + 1;
      return true;
    }

    /** Stop the current drain task, unless it has already ended. */
    method CancelDrain()
      modifies this`drainTask, this`loop
      ensures View() == Cancelling(old(View()))
    {
      if drainTask.Some? && drainTask.value in loop.live {
        loop := loop.(cancelled := loop.cancelled + {drainTask.value});
      }
      drainTask := None;
    }

    /** Take a watcher out of a pending value, and the value out of the index when it has no other watcher. */
    method Relieve(entry: Entry, watcher: nat)
      requires Find(pending, entry.identity) < |pending| && pendingBytes == TotalBytes(pending)
      modifies this`pending, this`pendingBytes
      ensures pending == (var rest := Others(entry.watchers, watcher);
                          if rest == [] then Without(old(pending), entry.identity)
                          else old(pending)[Find(old(pending), entry.identity) := Relieved(entry, watcher)])
      ensures Others(entry.watchers, watcher) == [] ==> pendingBytes == TotalBytes(pending)
      ensures Others(entry.watchers, watcher) != [] ==> pendingBytes == old(pendingBytes)
    {
      var remaining := Others(entry.watchers, watcher);
      if remaining != [] {
        pending := pending[Find(pending, entry.identity) := entry.(watchers := remaining)];
      } else {
        WithoutFacts(pending, entry.identity);
        var found := PopPending(entry.identity);
      }
    }

    method DetachPending(watcher: nat)
      requires InOrder(pending, books.receipts) && pendingBytes == TotalBytes(pending)
      modifies this`pending, this`pendingBytes
      ensures pending == Detached(old(pending), watcher) && pendingBytes == TotalBytes(pending)
    {
      var snapshot := pending;
      MidwayEnds(snapshot, watcher);
      hide *;
      for k := 0 to |snapshot|
        invariant pending == Midway(snapshot, k, watcher) && pendingBytes == TotalBytes(pending)
      {
        DetachedPrefix(snapshot, k, watcher, books.receipts);
        Relieve(snapshot[k], watcher);
      }
    }

    method DetachWatcher(watcher: nat)
      requires Sound(View())
      modifies this`watchers, this`pending, this`pendingBytes, this`books, this`drainTask, this`loop
      ensures View() == Detach(old(View()), watcher)
    {
      hide Cancelling, TotalBytes, Others, Detached;
      watchers := Others(watchers, watcher);
      var snapshot := pending;
      DetachPending(watcher);
      books := books.(released := books.released + (|snapshot| - |pending|));
      if pending == [] {
        CancelDrain();
      }
    }

    method Shutdown()
      modifies this`closed, this`watchers, this`pending, this`pendingBytes, this`books, this`drainTask, this`loop
      ensures View() == Close(old(View()))
    {
      hide Cancelling;
      if closed {
        return;
      }
      closed := true;
      watchers := [];
      books := books.(released := books.released + |pending|);
      pending := [];
      pendingBytes := 0;
      CancelDrain();
    }
  }
}
