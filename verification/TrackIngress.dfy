/**
 The latest-TRACK ingress of the entity service: a bounded, ordered, coalescing index of raw payloads, drained by
 a background task while watchers attach and detach.

 Topic parsing, identity extraction and payload decoding are parameters. A receipt number, which the source does
 not store, names each received message; the log records what every watcher's stream is offered.
 */
module TrackIngress {
  import opened Common

  datatype Category = Track | Other(name: string)

  datatype Identity = Identity(integration: string, uuid: nat)

  type Payload = seq<bv8>

  /** The integration and category by which a topic is matched with watchers. */
  datatype Route = Route(integration: string, category: Category)

  datatype Decoding =
    | Invalid
    | Crashed
    | Ignored
    | Decoded(identity: Identity)

  /** The functions of the protocol layer that the service is given. */
  datatype Codec = Codec(
    route: string -> Option<Route>,
    parse: string -> Option<Category>,
    identify: (string, Payload) -> Option<Identity>,
    decode: (string, Payload) -> Decoding)
  {
    /** The extractor and the decoder agree on whom a payload is about. */
    ghost predicate Agrees() {
      forall topic, payload ::
        identify(topic, payload).Some? && decode(topic, payload).Decoded?
        ==> identify(topic, payload).value == decode(topic, payload).identity
    }
  }

  const PENDING_TRACK_BYTE_CEILING: nat := 16 * 1024 * 1024

  datatype Config = Config(codec: Codec, bufferSize: nat, maximumPayload: nat) {

    function ByteLimit(): nat {
      var product := bufferSize * maximumPayload;
      var ceiling := if maximumPayload < PENDING_TRACK_BYTE_CEILING then PENDING_TRACK_BYTE_CEILING else maximumPayload;
      if product < ceiling then product else ceiling
    }

    /** Oversized payloads are refused before anything else is read from them. */
    function Extract(topic: string, payload: Payload): Option<Identity> {
      if maximumPayload < |payload| then None else codec.identify(topic, payload)
    }
  }

  /** A watcher, named by the order in which watchers were created; an empty filter matches everything. */
  datatype Watcher = Watcher(id: nat, policy: Policy, categories: set<Category>, integrations: set<string>) {
    predicate Matches(route: Route) {
      && (categories == {} || route.category in categories)
      && (integrations == {} || route.integration in integrations)
    }
  }

  datatype Entry = Entry(identity: Identity, topic: string, payload: Payload, watchers: seq<Watcher>, receipt: nat)

  /** What the stream of a watcher is told. */
  datatype Notice =
    | Delivered(watcher: nat, identity: Identity, receipt: nat, track: bool)
    | Rejected(watcher: nat, receipt: nat)

  datatype Ingress = Ingress(
    config: Config,
    closed: bool,
    watchers: seq<Watcher>,
    created: nat,
    pending: seq<Entry>,
    bytes: int,
    coalesced: nat,
    evicted: nat,
    task: Option<nat>,
    live: set<nat>,
    cancelled: set<nat>,
    tasks: nat,
    receipts: nat,
    admitted: nat,
    drained: nat,
    released: nat,
    log: seq<Notice>)

  function NewIngress(config: Config): Ingress {
    Ingress(config, false, [], 0, [], 0, 0, 0, None, {}, {}, 0, 0, 0, 0, 0, [])
  }

  // ----- the ordered index -----

  function TotalBytes(pending: seq<Entry>): nat {
    if pending == [] then 0 else |pending[0].payload| + TotalBytes(pending[1..])
  }

  /** Where an identity is held, or the length of the index. */
  function Find(pending: seq<Entry>, identity: Identity): (i: nat)
    ensures i <= |pending|
    ensures i < |pending| ==> pending[i].identity == identity
    ensures forall j :: 0 <= j < i ==> pending[j].identity != identity
  {
    if pending == [] || pending[0].identity == identity then 0 else 1 + Find(pending[1..], identity)
  }

  predicate Has(pending: seq<Entry>, identity: Identity) {
    Find(pending, identity) < |pending|
  }

  function Without(pending: seq<Entry>, identity: Identity): seq<Entry> {
    var i := Find(pending, identity);
    if i < |pending| then pending[..i] + pending[i + 1..] else pending
  }

  predicate WithinLimits(pending: seq<Entry>, config: Config) {
    |pending| <= config.bufferSize && TotalBytes(pending) <= config.ByteLimit()
  }

  /** What eviction leaves: oldest entries go until the limits hold. */
  function Trimmed(pending: seq<Entry>, config: Config): (kept: seq<Entry>)
    ensures |kept| <= |pending| && kept == pending[|pending| - |kept|..]
  {
    if pending == [] || WithinLimits(pending, config) then pending else Trimmed(pending[1..], config)
  }

  /** The index with a watcher taken out of every entry; entries left without watchers go. */
  function Detached(pending: seq<Entry>, watcher: nat): (kept: seq<Entry>)
    ensures |kept| <= |pending|
  {
    if pending == [] then []
    else
      var rest := Detached(pending[1..], watcher);
      var remaining := Others(pending[0].watchers, watcher);
      if remaining == [] then rest else [pending[0].(watchers := remaining)] + rest
  }

  function Others(watchers: seq<Watcher>, watcher: nat): (r: seq<Watcher>)
    ensures forall w :: w in r <==> w in watchers && w.id != watcher
  {
    if watchers == [] then []
    else (if watchers[0].id == watcher then [] else [watchers[0]]) + Others(watchers[1..], watcher)
  }

  function Matching(watchers: seq<Watcher>, route: Route): (r: seq<Watcher>)
    ensures forall w :: w in r <==> w in watchers && w.Matches(route)
  {
    if watchers == [] then []
    else (if watchers[0].Matches(route) then [watchers[0]] else []) + Matching(watchers[1..], route)
  }

  predicate AnyFifo(watchers: seq<Watcher>) {
    exists w :: w in watchers && w.policy == Fifo
  }

  /** The n newest entries. */
  function Newest(pending: seq<Entry>, n: nat): seq<Entry>
    requires n <= |pending|
  {
    pending[|pending| - n..]
  }

  // ----- atomic steps -----

  function Deliveries(watchers: seq<Watcher>, identity: Identity, receipt: nat, track: bool): (r: seq<Notice>)
    ensures |r| == |watchers|
    ensures forall i :: 0 <= i < |r| ==> r[i] == Delivered(watchers[i].id, identity, receipt, track)
  {
    seq(|watchers|, i requires 0 <= i < |watchers| => Delivered(watchers[i].id, identity, receipt, track))
  }

  function Rejections(watchers: seq<Watcher>, receipt: nat): (r: seq<Notice>)
    ensures |r| == |watchers|
    ensures forall i :: 0 <= i < |r| ==> r[i] == Rejected(watchers[i].id, receipt)
  {
    seq(|watchers|, i requires 0 <= i < |watchers| => Rejected(watchers[i].id, receipt))
  }

  function Popped(s: Ingress, identity: Identity): Ingress {
    var i := Find(s.pending, identity);
    if i < |s.pending| then
      s.(pending := Without(s.pending, identity), bytes := s.bytes - |s.pending[i].payload|,
         coalesced := s.coalesced + 1)
    else s
  }

  /** Decode a payload and offer the event to watchers; a direct TRACK supersedes a queued value. */
  function Delivering(s: Ingress, topic: string, payload: Payload, watchers: seq<Watcher>, receipt: nat, track: bool,
                      supersede: bool): Ingress {
    match s.config.codec.decode(topic, payload)
    case Ignored => s
    case Decoded(identity) =>
      var s' := if supersede then Popped(s, identity) else s;
      s'.(log := s'.log + Deliveries(watchers, identity, receipt, track))
    case _ => s.(log := s.log + Rejections(watchers, receipt))
  }

  /** Make an accepted TRACK the newest pending value of its identity, evicting as the limits demand. */
  function Admitting(s: Ingress, entry: Entry): Ingress {
    Appending(Popped(s, entry.identity), entry)
  }

  function Appending(s: Ingress, entry: Entry): Ingress {
    var grown := s.pending + [entry];
    var kept := Trimmed(grown, s.config);
    s.(pending := kept,
       bytes := s.bytes + |entry.payload| - (TotalBytes(grown) - TotalBytes(kept)),
       evicted := s.evicted + (|grown| - |kept|),
       admitted := s.admitted + 1)
  }

  /** A drain task is created unless the current one is still running. */
  function Draining(s: Ingress): Ingress {
    if s.task.Some? && s.task.value in s.live then s
    else s.(task := Some(s.tasks), live := s.live + {s.tasks}, tasks := s.tasks + 1)
  }

  /** A message for some watchers: delivered at once, or admitted when it is a TRACK that only latest watchers want. */
  function Ingest(s: Ingress, topic: string, payload: Payload, watchers: seq<Watcher>, receipt: nat): Ingress {
    match s.config.codec.parse(topic)
    case None => s.(log := s.log + Rejections(watchers, receipt))
    case Some(category) =>
      if category != Track || AnyFifo(watchers) then
        Delivering(s, topic, payload, watchers, receipt, category == Track, category == Track)
      else
        match s.config.Extract(topic, payload)
        case None => s.(log := s.log + Rejections(watchers, receipt))
        case Some(identity) => Draining(Admitting(s, Entry(identity, topic, payload, watchers, receipt)))
  }

  /** The attached watchers a topic concerns; a closed service has none. */
  function Audience(s: Ingress, topic: string): seq<Watcher> {
    match s.config.codec.route(topic)
    case None => []
    case Some(route) => if s.closed then [] else Matching(s.watchers, route)
  }

  function Receive(s: Ingress, topic: string, payload: Payload): Ingress {
    var s' := s.(receipts := s.receipts + 1);
    var watchers := Audience(s, topic);
    if watchers == [] then s' else Ingest(s', topic, payload, watchers, s.receipts)
  }

  /** One resumption of a drain task: deliver the oldest pending value, or end. */
  function Resume(s: Ingress, task: nat): Ingress {
    if task in s.cancelled || s.pending == [] || s.closed then
      s.(live := s.live - {task}, task := if s.task == Some(task) then None else s.task)
    else
      var oldest := s.pending[0];
      var s' := s.(pending := s.pending[1..], bytes := s.bytes - |oldest.payload|, drained := s.drained + 1);
      Delivering(s', oldest.topic, oldest.payload, oldest.watchers, oldest.receipt, true, false)
  }

  function Attach(s: Ingress, policy: Policy, categories: set<Category>, integrations: set<string>): Ingress {
    if s.closed then s
    else s.(watchers := s.watchers + [Watcher(s.created, policy, categories, integrations)], created := s.created + 1)
  }

  /** Take a watcher out everywhere; when nothing is left to drain, the drain task is cancelled. */
  function Detach(s: Ingress, watcher: nat): Ingress {
    var kept := Detached(s.pending, watcher);
    var s' := s.(watchers := Others(s.watchers, watcher), pending := kept,
                 bytes := s.bytes - (TotalBytes(s.pending) - TotalBytes(kept)),
                 released := s.released + (|s.pending| - |kept|));
    if kept == [] then Cancelling(s') else s'
  }

  /** The current drain task, if it is still running, is told to stop and is no longer the current one. */
  function Cancelling(s: Ingress): Ingress {
    s.(task := None,
       cancelled := if s.task.Some? && s.task.value in s.live then s.cancelled + {s.task.value} else s.cancelled)
  }

  function Close(s: Ingress): Ingress {
    if s.closed then s
    else
      Cancelling(s.(closed := true, watchers := [], pending := [], bytes := 0, released := s.released + |s.pending|))
  }

  // ----- runs -----

  datatype Action =
    | Arrival(topic: string, payload: Payload)
    | Wake(task: nat)
    | Watch(policy: Policy, categories: set<Category>, integrations: set<string>)
    | Leave(watcher: nat)
    | Shutdown

  predicate Enabled(s: Ingress, a: Action) {
    a.Wake? ==> a.task in s.live
  }

  function Step(s: Ingress, a: Action): Ingress
    requires Enabled(s, a)
  {
    match a
    case Arrival(topic, payload) => Receive(s, topic, payload)
    case Wake(task) => Resume(s, task)
    case Watch(policy, categories, integrations) => Attach(s, policy, categories, integrations)
    case Leave(watcher) => Detach(s, watcher)
    case Shutdown => Close(s)
  }

  predicate Legal(init: Ingress, actions: seq<Action>)
    decreases |actions|, 0
  {
    actions == [] ||
    (var front := actions[..|actions| - 1];
     Legal(init, front) && Enabled(Execute(init, front), actions[|actions| - 1]))
  }

  function Execute(init: Ingress, actions: seq<Action>): Ingress
    requires Legal(init, actions)
    decreases |actions|, 1
  {
    if actions == [] then init
    else Step(Execute(init, actions[..|actions| - 1]), actions[|actions| - 1])
  }

  // ----- what every run keeps -----

  predicate DistinctWatchers(watchers: seq<Watcher>) {
    forall i, j :: 0 <= i < j < |watchers| ==> watchers[i].id != watchers[j].id
  }

  predicate Precedes(a: Entry, b: Entry) {
    a.receipt < b.receipt && a.identity != b.identity
  }

  /** Entries are in receipt order and no identity is held twice. */
  ghost predicate InOrder(pending: seq<Entry>, receipts: nat) {
    && (forall i, j :: 0 <= i < j < |pending| ==> Precedes(pending[i], pending[j]))
    && (forall i :: 0 <= i < |pending| ==> pending[i].receipt < receipts)
  }

  /** What holds of every entry: an accepted latest-only TRACK, watched by someone who is still attached. */
  ghost predicate Accepted(config: Config, watchers: seq<Watcher>, e: Entry) {
    && |e.payload| <= config.maximumPayload
    && config.codec.identify(e.topic, e.payload) == Some(e.identity)
    && e.watchers != []
    && DistinctWatchers(e.watchers)
    && (forall w :: w in e.watchers ==> w in watchers && w.policy == Latest)
  }

  ghost predicate AllAccepted(config: Config, watchers: seq<Watcher>, pending: seq<Entry>) {
    forall e :: e in pending ==> Accepted(config, watchers, e)
  }

  /** The byte count is exact and both limits hold. */
  ghost predicate Bounded(config: Config, pending: seq<Entry>, bytes: int) {
    bytes == TotalBytes(pending) && WithinLimits(pending, config)
  }

  ghost predicate Registered(watchers: seq<Watcher>, created: nat) {
    DistinctWatchers(watchers) && forall w :: w in watchers ==> w.id < created
  }

  /** The current drain task is the one that is running and has not been told to stop. */
  ghost predicate Tasked(task: Option<nat>, live: set<nat>, cancelled: set<nat>, tasks: nat) {
    && (forall t :: t in live || t in cancelled ==> t < tasks)
    && (forall t :: t in live && t !in cancelled <==> task == Some(t))
  }

  predicate Conserved(s: Ingress) {
    s.admitted == |s.pending| + s.drained + s.coalesced + s.evicted + s.released
  }

  predicate TrackOf(n: Notice, identity: Identity) {
    n.Delivered? && n.track && n.identity == identity
  }

  /** Two TRACK deliveries to one watcher about one identity. */
  predicate SameTrack(m: Notice, n: Notice) {
    m.Delivered? && n.Delivered? && m.track && n.track && m.watcher == n.watcher && m.identity == n.identity
  }

  /** For each watcher and identity, TRACK events are delivered in strictly increasing receipt order. */
  ghost predicate Fresh(log: seq<Notice>) {
    forall i, j :: 0 <= i < j < |log| && SameTrack(log[i], log[j]) ==> log[i].receipt < log[j].receipt
  }

  ghost predicate Dated(log: seq<Notice>, receipts: nat) {
    forall n :: n in log ==> n.receipt < receipts
  }

  /** Everything delivered for an identity is older than what is pending for it. */
  ghost predicate Behind(log: seq<Notice>, pending: seq<Entry>) {
    forall n, e :: n in log && e in pending && TrackOf(n, e.identity) ==> n.receipt < e.receipt
  }

  ghost predicate Consistent(s: Ingress) {
    && 1 <= s.config.bufferSize
    && s.config.codec.Agrees()
    && InOrder(s.pending, s.receipts)
    && AllAccepted(s.config, s.watchers, s.pending)
    && Bounded(s.config, s.pending, s.bytes)
    && Registered(s.watchers, s.created)
    && (s.closed ==> s.watchers == [] && s.pending == [] && s.task == None)
    && Tasked(s.task, s.live, s.cancelled, s.tasks)
    && Conserved(s)
    && Fresh(s.log)
    && Dated(s.log, s.receipts)
    && Behind(s.log, s.pending)
  }

  /** A pending value always has a drain task. */
  ghost predicate Sound(s: Ingress) {
    Consistent(s) && (s.pending != [] ==> s.task.Some?)
  }

  // ----- the index operations -----

  lemma {:induction false} TotalBytesJoin(a: seq<Entry>, b: seq<Entry>)
    ensures TotalBytes(a + b) == TotalBytes(a) + TotalBytes(b)
  {
    if a == [] {
      assert a + b == b;
    } else {
      TotalBytesJoin(a[1..], b);
      assert (a + b)[1..] == a[1..] + b;
    }
  }

  lemma WithoutFacts(pending: seq<Entry>, identity: Identity)
    ensures var i := Find(pending, identity);
            i < |pending| ==> TotalBytes(Without(pending, identity)) == TotalBytes(pending) - |pending[i].payload|
    ensures TotalBytes(Without(pending, identity)) <= TotalBytes(pending)
    ensures forall e :: e in Without(pending, identity) ==> e in pending
  {
    var i := Find(pending, identity);
    if i < |pending| {
      BytesWithout(pending, i);
      WithoutIsSubset(pending, i);
    }
    hide TotalBytes;
  }

  lemma WithoutIsSubset(pending: seq<Entry>, i: nat)
    requires i < |pending|
    ensures forall e :: e in pending[..i] + pending[i + 1..] ==> e in pending
  {
  }

  lemma BytesWithout(pending: seq<Entry>, i: nat)
    requires i < |pending|
    ensures TotalBytes(pending) == TotalBytes(pending[..i] + pending[i + 1..]) + |pending[i].payload|
  {
    var front, back := pending[..i], pending[i + 1..];
    assert pending == front + pending[i..] && pending[i..][1..] == back;
    TotalBytesJoin(front, pending[i..]);
    TotalBytesJoin(front, back);
  }

  lemma WithoutOrder(pending: seq<Entry>, identity: Identity, receipts: nat)
    requires InOrder(pending, receipts)
    ensures InOrder(Without(pending, identity), receipts)
  {
    var i, r := Find(pending, identity), Without(pending, identity);
    if i < |pending| {
      assert forall k :: 0 <= k < |r| ==> r[k] == pending[if k < i then k else k + 1];
    }
  }

  lemma WithoutMembers(pending: seq<Entry>, identity: Identity, receipts: nat)
    requires InOrder(pending, receipts)
    ensures forall e :: e in Without(pending, identity) <==> e in pending && e.identity != identity
  {
    var i := Find(pending, identity);
    if i < |pending| {
      assert pending == pending[..i] + [pending[i]] + pending[i + 1..];
      assert forall e :: e in pending[i + 1..] ==> e.identity != identity;
      assert forall e :: e in pending[..i] ==> e.identity != identity;
    } else {
      assert forall e :: e in pending ==> e.identity != identity;
    }
  }

  /** Eviction leaves the longest run of newest entries that fits, and never evicts the newest one. */
  lemma {:induction false} TrimmedIsLongest(pending: seq<Entry>, config: Config)
    requires pending != [] && 1 <= config.bufferSize
    requires |pending[|pending| - 1].payload| <= config.ByteLimit()
    ensures var kept := Trimmed(pending, config);
            && kept != [] && WithinLimits(kept, config)
            && (forall n :: |kept| < n <= |pending| ==> !WithinLimits(Newest(pending, n), config))
  {
    hide Config.ByteLimit;
    if WithinLimits(pending, config) {
      assert Newest(pending, |pending|) == pending;
    } else {
      assert |pending| == 1 ==> TotalBytes(pending) == |pending[0].payload| + TotalBytes([]);
      var rest := pending[1..];
      TrimmedIsLongest(rest, config);
      forall n | |Trimmed(rest, config)| < n <= |pending|
        ensures !WithinLimits(Newest(pending, n), config)
      {
        hide *;
        NewestOfRest(pending, n);
      }
    }
  }

  lemma NewestOfRest(pending: seq<Entry>, n: nat)
    requires n <= |pending| && pending != []
    ensures n < |pending| ==> Newest(pending, n) == Newest(pending[1..], n)
    ensures Newest(pending, |pending|) == pending
  {
  }

  lemma ByteLimitFits(config: Config)
    requires 1 <= config.bufferSize
    ensures config.maximumPayload <= config.ByteLimit()
  {
    assert config.maximumPayload <= config.bufferSize * config.maximumPayload;
  }

  /** The byte limit fills the buffer with the largest payloads, up to 16 MiB, and always has room for one of them. */
  lemma ByteLimitIs(config: Config)
    requires 1 <= config.bufferSize
    ensures var (limit, product) := (config.ByteLimit(), config.bufferSize * config.maximumPayload);
            && config.maximumPayload <= limit <= product
            && (limit <= 16777216 || limit == config.maximumPayload)
            && (limit == product || 16777216 <= limit)
  {
    ByteLimitFits(config);
  }

  lemma OthersDistinct(watchers: seq<Watcher>, watcher: nat)
    requires DistinctWatchers(watchers)
    ensures DistinctWatchers(Others(watchers, watcher))
  {
    if watchers != [] {
      OthersDistinct(watchers[1..], watcher);
      assert forall w :: w in Others(watchers[1..], watcher) ==> w in watchers[1..] && w.id != watchers[0].id;
    }
  }

  lemma MatchingDistinct(watchers: seq<Watcher>, route: Route)
    requires DistinctWatchers(watchers)
    ensures DistinctWatchers(Matching(watchers, route))
  {
    if watchers != [] {
      MatchingDistinct(watchers[1..], route);
      assert forall w :: w in Matching(watchers[1..], route) ==> w in watchers[1..] && w.id != watchers[0].id;
    }
  }

  function Relieved(e: Entry, watcher: nat): Entry {
    e.(watchers := Others(e.watchers, watcher))
  }

  /** An entry as it is left by the departure of a watcher. */
  ghost predicate Remnant(pending: seq<Entry>, watcher: nat, k: Entry) {
    k.watchers != [] && exists e :: e in pending && k == Relieved(e, watcher)
  }

  /** Detaching keeps exactly the entries that another watcher shares, and takes the watcher out of those. */
  lemma {:induction false} DetachedMembers(pending: seq<Entry>, watcher: nat)
    ensures forall k :: k in Detached(pending, watcher) <==> Remnant(pending, watcher, k)
  {
    if pending != [] {
      var first, rest := pending[0], pending[1..];
      DetachedMembers(rest, watcher);
      assert pending == [first] + rest;
      forall k
        ensures k in Detached(pending, watcher) <==> Remnant(pending, watcher, k)
      {
        assert k in Detached(pending, watcher)
               <==> k in Detached(rest, watcher) || (k == Relieved(first, watcher) && k.watchers != []);
      }
    }
  }

  lemma {:induction false} DetachedBytes(pending: seq<Entry>, watcher: nat)
    ensures TotalBytes(Detached(pending, watcher)) <= TotalBytes(pending)
  {
    if pending != [] {
      DetachedBytes(pending[1..], watcher);
    }
  }

  /** An older entry of another identity can go in front. */
  lemma OrderFront(first: Entry, rest: seq<Entry>, receipts: nat)
    requires InOrder(rest, receipts) && first.receipt < receipts
    requires forall k :: k in rest ==> Precedes(first, k)
    ensures InOrder([first] + rest, receipts)
  {
    assert forall i :: 0 <= i < |rest| ==> rest[i] in rest;
  }

  lemma OrderRest(pending: seq<Entry>, receipts: nat)
    requires InOrder(pending, receipts) && pending != []
    ensures InOrder(pending[1..], receipts)
    ensures forall e :: e in pending[1..] ==> Precedes(pending[0], e)
  {
  }

  lemma {:induction false} DetachedOrder(pending: seq<Entry>, watcher: nat, receipts: nat)
    requires InOrder(pending, receipts)
    ensures InOrder(Detached(pending, watcher), receipts)
  {
    if pending != [] {
      var first, rest := pending[0], pending[1..];
      OrderRest(pending, receipts);
      DetachedOrder(rest, watcher, receipts);
      DetachedMembers(rest, watcher);
      var kept := Detached(rest, watcher);
      forall k | k in kept
        ensures Precedes(first, k)
      {
        assert Remnant(rest, watcher, k);
      }
      if Others(first.watchers, watcher) != [] {
        OrderFront(Relieved(first, watcher), kept, receipts);
      }
      hide InOrder;
    }
  }

  // ----- each step keeps the invariant -----

  lemma PoppedKeeps(s: Ingress, identity: Identity)
    requires Sound(s)
    ensures Sound(Popped(s, identity))
    ensures forall e :: e in Popped(s, identity).pending <==> e in s.pending && e.identity != identity
  {
    WithoutFacts(s.pending, identity);
    WithoutOrder(s.pending, identity, s.receipts);
    WithoutMembers(s.pending, identity, s.receipts);
    assert Find(s.pending, identity) < |s.pending| ==> |Without(s.pending, identity)| == |s.pending| - 1;
    hide InOrder, Find, Fresh, Without, Accepted, Registered, Tasked, Dated, TotalBytes;
  }

  lemma FreshAppend(log: seq<Notice>, notices: seq<Notice>)
    requires Fresh(log)
    requires forall i, j :: 0 <= i < j < |notices| ==> !SameTrack(notices[i], notices[j])
    requires forall m, n :: m in log && n in notices && SameTrack(m, n) ==> m.receipt < n.receipt
    ensures Fresh(log + notices)
  {
    var all := log + notices;
    forall i, j | 0 <= i < j < |all| && SameTrack(all[i], all[j])
      ensures all[i].receipt < all[j].receipt
    {
      if i < |log| <= j {
        assert all[i] in log && all[j] in notices;
      }
    }
  }

  lemma RejectingKeeps(s: Ingress, watchers: seq<Watcher>, receipt: nat)
    requires Sound(s) && receipt < s.receipts
    ensures Sound(s.(log := s.log + Rejections(watchers, receipt)))
  {
    var notices := Rejections(watchers, receipt);
    FreshAppend(s.log, notices);
    assert forall n :: n in s.log + notices ==> n in s.log || (n in notices && n.Rejected? && n.receipt == receipt);
    hide InOrder, Fresh, AllAccepted, Registered, Tasked, Bounded;
  }

  /** Offering an event no older than anything delivered, and newer than nothing pending, keeps the order. */
  lemma DeliveryKeeps(s: Ingress, watchers: seq<Watcher>, identity: Identity, receipt: nat, track: bool)
    requires Sound(s) && receipt < s.receipts && DistinctWatchers(watchers)
    requires track ==> forall n :: n in s.log && TrackOf(n, identity) ==> n.receipt < receipt
    requires track ==> forall e :: e in s.pending && e.identity == identity ==> receipt < e.receipt
    ensures Sound(s.(log := s.log + Deliveries(watchers, identity, receipt, track)))
  {
    var notices := Deliveries(watchers, identity, receipt, track);
    FreshAppend(s.log, notices);
    assert forall n :: n in s.log + notices ==> n in s.log || n in notices;
    assert forall n :: n in notices ==>
      n.Delivered? && n.receipt == receipt && n.identity == identity && n.track == track;
    hide InOrder, Fresh, AllAccepted, Registered, Tasked, Bounded;
  }

  /** A message is received: its receipt number is newer than everything. */
  ghost predicate Received(s: Ingress, receipt: nat) {
    && receipt < s.receipts
    && (forall n :: n in s.log ==> n.receipt < receipt)
    && (forall e :: e in s.pending ==> e.receipt < receipt)
  }

  lemma DirectKeeps(s: Ingress, topic: string, payload: Payload, watchers: seq<Watcher>, receipt: nat, track: bool)
    requires Sound(s) && Received(s, receipt) && DistinctWatchers(watchers)
    ensures Sound(Delivering(s, topic, payload, watchers, receipt, track, track))
  {
    match s.config.codec.decode(topic, payload)
    case Ignored =>
    case Decoded(identity) =>
      if track {
        PoppedKeeps(s, identity);
      }
      DeliveryKeeps(if track then Popped(s, identity) else s, watchers, identity, receipt, track);
    case _ => RejectingKeeps(s, watchers, receipt);
  }

  lemma NewestKeepsOrder(pending: seq<Entry>, entry: Entry, n: nat, receipts: nat)
    requires InOrder(pending, receipts) && entry.receipt < receipts && n <= |pending| + 1
    requires forall e :: e in pending ==> Precedes(e, entry)
    ensures InOrder(Newest(pending + [entry], n), receipts)
  {
  }

  /** The index after a new value is appended and the oldest values are evicted. */
  lemma AppendedIndex(config: Config, watchers: seq<Watcher>, pending: seq<Entry>, entry: Entry, receipts: nat)
    requires 1 <= config.bufferSize && InOrder(pending, receipts) && entry.receipt < receipts
    requires AllAccepted(config, watchers, pending) && Accepted(config, watchers, entry)
    requires |entry.payload| <= config.maximumPayload
    requires forall e :: e in pending ==> Precedes(e, entry)
    ensures var kept := Trimmed(pending + [entry], config);
            && InOrder(kept, receipts)
            && AllAccepted(config, watchers, kept)
            && WithinLimits(kept, config)
            && (forall e :: e in kept ==> e in pending || e == entry)
    ensures TotalBytes(pending + [entry]) == TotalBytes(pending) + |entry.payload|
  {
    hide *;
    var kept := Trimmed(pending + [entry], config);
    TrimmedFits(pending, entry, config);
    NewestKeepsOrder(pending, entry, |kept|, receipts);
    NewestMembers(pending, entry, |kept|);
    AppendedBytes(pending, entry);
    AcceptedSubset(config, watchers, pending, entry, kept);
  }

  lemma AcceptedSubset(config: Config, watchers: seq<Watcher>, pending: seq<Entry>, entry: Entry, kept: seq<Entry>)
    requires AllAccepted(config, watchers, pending) && Accepted(config, watchers, entry)
    requires forall e :: e in kept ==> e in pending || e == entry
    ensures AllAccepted(config, watchers, kept)
  {
    hide Accepted;
  }

  lemma TrimmedFits(pending: seq<Entry>, entry: Entry, config: Config)
    requires 1 <= config.bufferSize && |entry.payload| <= config.maximumPayload
    ensures var kept := Trimmed(pending + [entry], config);
            WithinLimits(kept, config) && kept != [] && kept == Newest(pending + [entry], |kept|)
  {
    var grown := pending + [entry];
    assert grown[|grown| - 1] == entry;
    ByteLimitFits(config);
    TrimmedIsLongest(grown, config);
  }

  lemma AppendedBytes(pending: seq<Entry>, entry: Entry)
    ensures TotalBytes(pending + [entry]) == TotalBytes(pending) + |entry.payload|
  {
    TotalBytesJoin(pending, [entry]);
    assert TotalBytes([entry]) == |entry.payload| + TotalBytes([]);
  }

  lemma NewestMembers(pending: seq<Entry>, entry: Entry, n: nat)
    requires n <= |pending| + 1
    ensures forall e :: e in Newest(pending + [entry], n) ==> e in pending || e == entry
  {
  }

  lemma BehindKept(log: seq<Notice>, pending: seq<Entry>, entry: Entry, kept: seq<Entry>)
    requires Behind(log, pending) && (forall n :: n in log ==> n.receipt < entry.receipt)
    requires forall e :: e in kept ==> e in pending || e == entry
    ensures Behind(log, kept)
  {
  }

  /** What the index operations leave alone. */
  ghost predicate SameFrame(s: Ingress, s': Ingress) {
    && s'.config == s.config && s'.closed == s.closed && s'.watchers == s.watchers && s'.created == s.created
    && s'.task == s.task && s'.live == s.live && s'.cancelled == s.cancelled && s'.tasks == s.tasks
    && s'.receipts == s.receipts && s'.log == s.log
  }

  lemma ConsistentFrom(s: Ingress, s': Ingress)
    requires Consistent(s) && SameFrame(s, s') && !s.closed
    requires InOrder(s'.pending, s'.receipts) && AllAccepted(s'.config, s'.watchers, s'.pending)
    requires Bounded(s'.config, s'.pending, s'.bytes) && Conserved(s') && Behind(s'.log, s'.pending)
    ensures Consistent(s')
  {
    hide InOrder, AllAccepted, Bounded, Registered, Tasked, Conserved, Fresh, Dated, Behind;
  }

  lemma ConsistentParts(s: Ingress)
    requires Consistent(s)
    ensures 1 <= s.config.bufferSize && InOrder(s.pending, s.receipts)
    ensures AllAccepted(s.config, s.watchers, s.pending) && Bounded(s.config, s.pending, s.bytes)
    ensures Conserved(s) && Behind(s.log, s.pending)
  {
    hide InOrder, AllAccepted, Bounded, Registered, Tasked, Conserved, Fresh, Dated, Behind;
  }

  lemma NewestEntry(s: Ingress, entry: Entry)
    requires Received(s, entry.receipt) && Accepted(s.config, s.watchers, entry)
    requires forall e :: e in s.pending ==> e.identity != entry.identity
    ensures entry.receipt < s.receipts && |entry.payload| <= s.config.maximumPayload
    ensures forall e :: e in s.pending ==> Precedes(e, entry)
    ensures forall n :: n in s.log ==> n.receipt < entry.receipt
  {
  }

  lemma AppendingFrame(s: Ingress, entry: Entry)
    requires Conserved(s) && Bounded(s.config, s.pending, s.bytes)
    requires TotalBytes(s.pending + [entry]) == TotalBytes(s.pending) + |entry.payload|
    requires WithinLimits(Trimmed(s.pending + [entry], s.config), s.config)
    ensures var s' := Appending(s, entry);
            && SameFrame(s, s') && s'.pending == Trimmed(s.pending + [entry], s.config)
            && Bounded(s'.config, s'.pending, s'.bytes) && Conserved(s')
  {
    hide Trimmed, TotalBytes, WithinLimits;
  }

  lemma AppendedKeeps(s: Ingress, entry: Entry)
    requires Consistent(s) && Received(s, entry.receipt) && Accepted(s.config, s.watchers, entry) && !s.closed
    requires forall e :: e in s.pending ==> e.identity != entry.identity
    ensures Consistent(Appending(s, entry))
  {
    hide Consistent, Received, Accepted, Appending, InOrder, AllAccepted, Bounded, Conserved, Behind, Precedes,
      Trimmed, TotalBytes, WithinLimits;
    ConsistentParts(s);
    NewestEntry(s, entry);
    AppendedIndex(s.config, s.watchers, s.pending, entry, s.receipts);
    AppendingFrame(s, entry);
    BehindKept(s.log, s.pending, entry, Appending(s, entry).pending);
    ConsistentFrom(s, Appending(s, entry));
  }

  lemma AppendingStaysOpen(s: Ingress, entry: Entry)
    ensures Appending(s, entry).closed == s.closed
  {
    hide Trimmed, TotalBytes;
  }

  lemma AdmittingKeeps(s: Ingress, entry: Entry)
    requires Sound(s) && Received(s, entry.receipt) && Accepted(s.config, s.watchers, entry) && !s.closed
    ensures Consistent(Admitting(s, entry)) && !Admitting(s, entry).closed
  {
    AppendingStaysOpen(Popped(s, entry.identity), entry);
    PoppedKeeps(s, entry.identity);
    PoppedFrame(s, entry.identity);
    hide Consistent, Sound, Accepted, Popped, Appending, Find, Without;
    AppendedKeeps(Popped(s, entry.identity), entry);
  }

  lemma PoppedFrame(s: Ingress, identity: Identity)
    ensures var s' := Popped(s, identity);
            s'.config == s.config && s'.closed == s.closed && s'.watchers == s.watchers && s'.log == s.log
            && s'.receipts == s.receipts
  {
  }

  lemma DrainingKeeps(s: Ingress)
    requires Consistent(s) && !s.closed
    ensures Sound(Draining(s))
  {
    hide InOrder, Fresh, AllAccepted, Bounded, Registered, Dated, Behind;
  }

  lemma TickKeeps(s: Ingress)
    requires Sound(s)
    ensures Sound(s.(receipts := s.receipts + 1)) && Received(s.(receipts := s.receipts + 1), s.receipts)
  {
    hide Fresh, AllAccepted, Bounded, Registered, Tasked, Behind;
  }

  lemma IngestKeeps(s: Ingress, topic: string, payload: Payload, watchers: seq<Watcher>, receipt: nat)
    requires Sound(s) && Received(s, receipt) && !s.closed
    requires watchers != [] && DistinctWatchers(watchers) && forall w :: w in watchers ==> w in s.watchers
    ensures Sound(Ingest(s, topic, payload, watchers, receipt))
  {
    assert receipt < s.receipts;
    assert !AnyFifo(watchers) ==> forall w :: w in watchers ==> w.policy == Latest;
    hide Delivering, Admitting, Draining, Sound, Received, DistinctWatchers, AnyFifo;
    match s.config.codec.parse(topic)
    case None => RejectingKeeps(s, watchers, receipt);
    case Some(category) =>
      if category != Track || AnyFifo(watchers) {
        DirectKeeps(s, topic, payload, watchers, receipt, category == Track);
      } else if s.config.Extract(topic, payload).None? {
        RejectingKeeps(s, watchers, receipt);
      } else {
        var entry := Entry(s.config.Extract(topic, payload).value, topic, payload, watchers, receipt);
        AdmittingKeeps(s, entry);
        DrainingKeeps(Admitting(s, entry));
      }
  }

  lemma AudienceFacts(s: Ingress, topic: string)
    requires Sound(s)
    ensures DistinctWatchers(Audience(s, topic))
    ensures forall w :: w in Audience(s, topic) ==> w in s.watchers
    ensures Audience(s, topic) != [] ==> !s.closed
  {
    if s.config.codec.route(topic).Some? {
      MatchingDistinct(s.watchers, s.config.codec.route(topic).value);
    }
  }

  lemma ReceiveKeeps(s: Ingress, topic: string, payload: Payload)
    requires Sound(s)
    ensures Sound(Receive(s, topic, payload))
  {
    hide Sound, Received, Ingest, Audience, DistinctWatchers;
    TickKeeps(s);
    AudienceFacts(s, topic);
    if Audience(s, topic) != [] {
      IngestKeeps(s.(receipts := s.receipts + 1), topic, payload, Audience(s, topic), s.receipts);
    }
  }

  /** The oldest pending value leaves the index for delivery. */
  lemma OldestLeaves(s: Ingress)
    requires Sound(s) && s.pending != []
    ensures var e := s.pending[0];
            && Sound(s.(pending := s.pending[1..], bytes := s.bytes - |e.payload|, drained := s.drained + 1))
            && (forall n :: n in s.log && TrackOf(n, e.identity) ==> n.receipt < e.receipt)
            && (forall k :: k in s.pending[1..] ==> Precedes(e, k))
            && e.receipt < s.receipts && Accepted(s.config, s.watchers, e)
  {
    var e, rest := s.pending[0], s.pending[1..];
    OrderRest(s.pending, s.receipts);
    assert s.pending == [e] + rest;
    assert TotalBytes(s.pending) == |e.payload| + TotalBytes(rest);
    assert AllAccepted(s.config, s.watchers, rest);
    assert Behind(s.log, rest);
    assert e in s.pending;
    hide Fresh, Registered, Tasked, Dated, TotalBytes;
  }

  lemma ResumeKeeps(s: Ingress, task: nat)
    requires Sound(s) && task in s.live
    ensures Sound(Resume(s, task))
  {
    if task in s.cancelled || s.pending == [] || s.closed {
      assert Tasked(Resume(s, task).task, Resume(s, task).live, s.cancelled, s.tasks);
      hide InOrder, Fresh, AllAccepted, Bounded, Registered, Behind, Dated;
    } else {
      OldestLeaves(s);
      var e := s.pending[0];
      var s' := s.(pending := s.pending[1..], bytes := s.bytes - |e.payload|, drained := s.drained + 1);
      assert DistinctWatchers(e.watchers);
      assert s.config.codec.decode(e.topic, e.payload).Decoded?
             ==> s.config.codec.decode(e.topic, e.payload).identity == e.identity;
      hide InOrder, Fresh, AllAccepted, Bounded, Registered, Behind, Dated, Tasked, Accepted, Sound, Conserved;
      RejectingKeeps(s', e.watchers, e.receipt);
      DeliveryKeeps(s', e.watchers, e.identity, e.receipt, true);
    }
  }

  lemma AttachKeeps(s: Ingress, policy: Policy, categories: set<Category>, integrations: set<string>)
    requires Sound(s)
    ensures Sound(Attach(s, policy, categories, integrations))
  {
    var s' := Attach(s, policy, categories, integrations);
    assert forall w :: w in s.watchers ==> w in s'.watchers;
    assert AllAccepted(s.config, s'.watchers, s.pending) by {
      assert forall e :: e in s.pending ==> Accepted(s.config, s.watchers, e);
    }
    hide InOrder, Fresh, AllAccepted, Bounded, Tasked, Behind, Dated;
    if !s.closed {
      assert forall i :: 0 <= i < |s.watchers| ==> s.watchers[i] in s.watchers;
    }
  }

  lemma DetachedAccepted(config: Config, watchers: seq<Watcher>, pending: seq<Entry>, watcher: nat)
    requires AllAccepted(config, watchers, pending)
    ensures AllAccepted(config, Others(watchers, watcher), Detached(pending, watcher))
  {
    DetachedMembers(pending, watcher);
    forall k | k in Detached(pending, watcher)
      ensures Accepted(config, Others(watchers, watcher), k)
    {
      assert Remnant(pending, watcher, k);
      var e :| e in pending && k == Relieved(e, watcher);
      assert Accepted(config, watchers, e);
      OthersDistinct(e.watchers, watcher);
    }
  }

  lemma DetachedBehind(log: seq<Notice>, pending: seq<Entry>, watcher: nat)
    requires Behind(log, pending)
    ensures Behind(log, Detached(pending, watcher))
  {
    DetachedMembers(pending, watcher);
    forall n, k | n in log && k in Detached(pending, watcher) && TrackOf(n, k.identity)
      ensures n.receipt < k.receipt
    {
      assert Remnant(pending, watcher, k);
    }
  }

  lemma DetachKeeps(s: Ingress, watcher: nat)
    requires Sound(s)
    ensures Sound(Detach(s, watcher))
  {
    DetachedOrder(s.pending, watcher, s.receipts);
    DetachedBytes(s.pending, watcher);
    DetachedAccepted(s.config, s.watchers, s.pending, watcher);
    DetachedBehind(s.log, s.pending, watcher);
    OthersDistinct(s.watchers, watcher);
    assert Registered(Others(s.watchers, watcher), s.created);
    hide InOrder, Fresh, AllAccepted, Registered, Behind, Dated, TotalBytes, DistinctWatchers;
  }

  lemma CloseKeeps(s: Ingress)
    requires Sound(s)
    ensures Sound(Close(s))
  {
    hide Fresh, Dated;
  }

  lemma StepKeeps(s: Ingress, a: Action)
    requires Sound(s) && Enabled(s, a)
    ensures Sound(Step(s, a))
  {
    hide Sound, Receive, Resume, Attach, Detach, Close;
    match a
    case Arrival(topic, payload) => ReceiveKeeps(s, topic, payload);
    case Wake(task) => ResumeKeeps(s, task);
    case Watch(policy, categories, integrations) => AttachKeeps(s, policy, categories, integrations);
    case Leave(watcher) => DetachKeeps(s, watcher);
    case Shutdown => CloseKeeps(s);
  }

  lemma {:induction false} RunKeeps(init: Ingress, actions: seq<Action>)
    requires Sound(init) && Legal(init, actions)
    ensures Sound(Execute(init, actions))
  {
    if actions != [] {
      RunKeeps(init, actions[..|actions| - 1]);
      StepKeeps(Execute(init, actions[..|actions| - 1]), actions[|actions| - 1]);
    }
  }

  ghost predicate ValidConfig(config: Config) {
    1 <= config.bufferSize && config.codec.Agrees()
  }

  lemma EveryRun(config: Config, actions: seq<Action>)
    requires ValidConfig(config) && Legal(NewIngress(config), actions)
    ensures Sound(Execute(NewIngress(config), actions))
  {
    RunKeeps(NewIngress(config), actions);
  }

  // ----- what the service promises -----

  /** In every run the books of the index are exact and its limits hold. */
  lemma IndexAccounting(config: Config, actions: seq<Action>)
    requires ValidConfig(config) && Legal(NewIngress(config), actions)
    ensures var s := Execute(NewIngress(config), actions);
            && s.bytes == TotalBytes(s.pending)
            && |s.pending| <= config.bufferSize && s.bytes <= config.ByteLimit()
            && s.admitted == |s.pending| + s.drained + s.coalesced + s.evicted + s.released
            && (forall i, j :: 0 <= i < j < |s.pending|
                  ==> s.pending[i].receipt < s.pending[j].receipt && s.pending[i].identity != s.pending[j].identity)
  {
    EveryRun(config, actions);
    ConfigFixed(NewIngress(config), actions);
    var s := Execute(NewIngress(config), actions);
    assert forall i, j :: 0 <= i < j < |s.pending| ==> Precedes(s.pending[i], s.pending[j]);
  }

  lemma StepConfig(s: Ingress, a: Action)
    requires Enabled(s, a)
    ensures Step(s, a).config == s.config
  {
  }

  lemma {:induction false} ConfigFixed(init: Ingress, actions: seq<Action>)
    requires Legal(init, actions)
    ensures Execute(init, actions).config == init.config
  {
    if actions != [] {
      ConfigFixed(init, actions[..|actions| - 1]);
      StepConfig(Execute(init, actions[..|actions| - 1]), actions[|actions| - 1]);
      hide Step;
    }
  }

  /**
   In every run, whatever path each message takes, the TRACK events offered to one stream about one identity come
   in strictly increasing receipt order.
   */
  lemma TracksNeverRegress(config: Config, actions: seq<Action>, i: nat, j: nat)
    requires ValidConfig(config) && Legal(NewIngress(config), actions)
    requires i < j < |Execute(NewIngress(config), actions).log|
    requires var log := Execute(NewIngress(config), actions).log;
             && log[i].Delivered? && log[j].Delivered? && log[i].track && log[j].track
             && log[i].watcher == log[j].watcher && log[i].identity == log[j].identity
    ensures Execute(NewIngress(config), actions).log[i].receipt < Execute(NewIngress(config), actions).log[j].receipt
  {
    EveryRun(config, actions);
    var log := Execute(NewIngress(config), actions).log;
    assert SameTrack(log[i], log[j]);
  }

  /**
   In every run, while something is pending the current drain task is alive and was never told to stop, and when
   it next runs it takes exactly the oldest value.
   */
  lemma PendingIsServed(config: Config, actions: seq<Action>)
    requires ValidConfig(config) && Legal(NewIngress(config), actions)
    requires Execute(NewIngress(config), actions).pending != []
    ensures var s := Execute(NewIngress(config), actions);
            && !s.closed && s.task.Some? && s.task.value !in s.cancelled
            && (forall t :: t in s.live && t !in s.cancelled ==> t == s.task.value)
            && Enabled(s, Wake(s.task.value))
            && Step(s, Wake(s.task.value)).pending == s.pending[1..]
            && Step(s, Wake(s.task.value)).drained == s.drained + 1
  {
    EveryRun(config, actions);
  }

  /** An admission evicts the fewest oldest values, never the new one, after dropping the value it supersedes. */
  lemma AdmissionEvictsFewest(s: Ingress, entry: Entry)
    requires 1 <= s.config.bufferSize && |entry.payload| <= s.config.maximumPayload
    ensures var grown := Without(s.pending, entry.identity) + [entry];
            var kept := Admitting(s, entry).pending;
            && 1 <= |kept| <= |grown| && kept == Newest(grown, |kept|) && kept[|kept| - 1] == entry
            && (forall n :: |kept| < n <= |grown| ==> !WithinLimits(Newest(grown, n), s.config))
            && Admitting(s, entry).evicted - s.evicted == |grown| - |kept|
  {
    hide *;
    ByteLimitFits(s.config);
    var grown := Without(s.pending, entry.identity) + [entry];
    assert grown[|grown| - 1] == entry;
    TrimmedIsLongest(grown, s.config);
    TrimmedFits(Without(s.pending, entry.identity), entry, s.config);
    AdmittingPending(s, entry);
    NewestLast(grown, |Trimmed(grown, s.config)|);
  }

  lemma AdmittingPending(s: Ingress, entry: Entry)
    ensures var grown := Without(s.pending, entry.identity) + [entry];
            var s' := Admitting(s, entry);
            s'.pending == Trimmed(grown, s.config) && s'.evicted == s.evicted + (|grown| - |Trimmed(grown, s.config)|)
  {
    hide Trimmed;
  }

  lemma NewestLast(pending: seq<Entry>, n: nat)
    requires 1 <= n <= |pending|
    ensures Newest(pending, n)[n - 1] == pending[|pending| - 1]
  {
  }

  // ----- detached watchers -----

  ghost predicate Absent(s: Ingress, watcher: nat) {
    watcher < s.created && forall w :: w in s.watchers ==> w.id != watcher
  }

  ghost predicate Known(watchers: seq<Watcher>, id: nat) {
    exists w :: w in watchers && w.id == id
  }

  /** A log that has grown by notices to known watchers only. */
  ghost predicate Extends(log: seq<Notice>, log': seq<Notice>, watchers: seq<Watcher>) {
    && |log| <= |log'| && log'[..|log|] == log
    && (forall i :: |log| <= i < |log'| ==> Known(watchers, log'[i].watcher))
  }

  lemma ExtendsSelf(log: seq<Notice>, watchers: seq<Watcher>)
    ensures Extends(log, log, watchers)
  {
  }

  lemma NoticesKnown(log: seq<Notice>, notices: seq<Notice>, recipients: seq<Watcher>, watchers: seq<Watcher>)
    requires forall w :: w in recipients ==> w in watchers
    requires |notices| == |recipients| && forall i :: 0 <= i < |notices| ==> notices[i].watcher == recipients[i].id
    ensures Extends(log, log + notices, watchers)
  {
    forall i | |log| <= i < |log + notices|
      ensures Known(watchers, (log + notices)[i].watcher)
    {
      assert recipients[i - |log|] in watchers;
    }
  }

  lemma DeliveringExtends(s: Ingress, topic: string, payload: Payload, recipients: seq<Watcher>, receipt: nat,
                          track: bool, supersede: bool)
    requires forall w :: w in recipients ==> w in s.watchers
    ensures Extends(s.log, Delivering(s, topic, payload, recipients, receipt, track, supersede).log, s.watchers)
  {
    NoticesKnown(s.log, Rejections(recipients, receipt), recipients, s.watchers);
    match s.config.codec.decode(topic, payload)
    case Decoded(identity) =>
      NoticesKnown(s.log, Deliveries(recipients, identity, receipt, track), recipients, s.watchers);
      PoppedFrame(s, identity);
      hide Extends, Popped;
    case Ignored =>
    case _ => hide Extends;
  }

  lemma IngestExtends(s: Ingress, topic: string, payload: Payload, recipients: seq<Watcher>, receipt: nat)
    requires forall w :: w in recipients ==> w in s.watchers
    ensures Extends(s.log, Ingest(s, topic, payload, recipients, receipt).log, s.watchers)
    ensures Ingest(s, topic, payload, recipients, receipt).watchers == s.watchers
    ensures Ingest(s, topic, payload, recipients, receipt).created == s.created
  {
    ExtendsSelf(s.log, s.watchers);
    NoticesKnown(s.log, Rejections(recipients, receipt), recipients, s.watchers);
    hide Extends, Delivering, Admitting, Draining, AnyFifo;
    match s.config.codec.parse(topic)
    case None =>
    case Some(category) =>
      DeliveringExtends(s, topic, payload, recipients, receipt, category == Track, category == Track);
      DeliveringFrame(s, topic, payload, recipients, receipt, category == Track, category == Track);
      if s.config.Extract(topic, payload).Some? {
        AdmittingFrame(s, Entry(s.config.Extract(topic, payload).value, topic, payload, recipients, receipt));
      }
  }

  lemma DeliveringFrame(s: Ingress, topic: string, payload: Payload, recipients: seq<Watcher>, receipt: nat,
                        track: bool, supersede: bool)
    ensures var s' := Delivering(s, topic, payload, recipients, receipt, track, supersede);
            s'.watchers == s.watchers && s'.created == s.created
  {
    hide Without, Find;
  }

  lemma AdmittingFrame(s: Ingress, entry: Entry)
    ensures var s' := Draining(Admitting(s, entry));
            s'.watchers == s.watchers && s'.created == s.created && s'.log == s.log
  {
    hide Without, Find, Trimmed, TotalBytes;
  }

  /** New notices go to attached watchers only, and watchers that have left do not come back. */
  ghost predicate Attended(s: Ingress, s': Ingress) {
    && Extends(s.log, s'.log, s.watchers)
    && s.created <= s'.created
    && (forall w :: w in s'.watchers ==> w in s.watchers || w.id >= s.created)
  }

  lemma ReceiveAttended(s: Ingress, topic: string, payload: Payload)
    requires Sound(s)
    ensures Attended(s, Receive(s, topic, payload))
  {
    hide Ingest, Audience, Extends, Sound, Attended, DistinctWatchers;
    ExtendsSelf(s.log, s.watchers);
    AudienceFacts(s, topic);
    var s' := s.(receipts := s.receipts + 1);
    if Audience(s, topic) == [] {
      AttendedBySame(s, s');
    } else {
      IngestExtends(s', topic, payload, Audience(s, topic), s.receipts);
      AttendedBySame(s, Ingest(s', topic, payload, Audience(s, topic), s.receipts));
    }
  }

  lemma AttendedBySame(s: Ingress, s': Ingress)
    requires Extends(s.log, s'.log, s.watchers) && s'.watchers == s.watchers && s'.created == s.created
    ensures Attended(s, s')
  {
    hide Extends;
  }

  lemma ResumeAttended(s: Ingress, task: nat)
    requires Sound(s)
    ensures Attended(s, Resume(s, task))
  {
    ExtendsSelf(s.log, s.watchers);
    if s.pending != [] {
      var e := s.pending[0];
      assert e in s.pending && Accepted(s.config, s.watchers, e);
      hide Extends, Sound, Delivering;
      var s' := s.(pending := s.pending[1..], bytes := s.bytes - |e.payload|, drained := s.drained + 1);
      DeliveringExtends(s', e.topic, e.payload, e.watchers, e.receipt, true, false);
      DeliveringFrame(s', e.topic, e.payload, e.watchers, e.receipt, true, false);
    }
  }

  lemma StepAttended(s: Ingress, a: Action)
    requires Sound(s) && Enabled(s, a)
    ensures Attended(s, Step(s, a))
  {
    hide Receive, Resume, Sound;
    match a
    case Arrival(topic, payload) => ReceiveAttended(s, topic, payload);
    case Wake(task) => ResumeAttended(s, task);
    case _ =>
  }

  /** A watcher that existed and is attached no more. */
  ghost predicate Gone(s: Ingress, watcher: nat) {
    watcher < s.created && !Known(s.watchers, watcher)
  }

  /** From one state to a later one, a watcher is gone and hears nothing. */
  ghost predicate Silent(init: Ingress, s: Ingress, watcher: nat) {
    && Gone(s, watcher)
    && |init.log| <= |s.log|
    && (forall i :: |init.log| <= i < |s.log| ==> s.log[i].watcher != watcher)
  }

  lemma SilentStep(init: Ingress, s: Ingress, s': Ingress, watcher: nat)
    requires Silent(init, s, watcher) && Attended(s, s')
    ensures Silent(init, s', watcher)
  {
    forall i | |init.log| <= i < |s'.log|
      ensures s'.log[i].watcher != watcher
    {
      if i < |s.log| {
        assert s'.log[i] == s'.log[..|s.log|][i];
      } else {
        assert Known(s.watchers, s'.log[i].watcher);
      }
    }
  }

  lemma {:induction false} GoneHearsNothing(init: Ingress, actions: seq<Action>, watcher: nat)
    requires Sound(init) && Legal(init, actions) && Gone(init, watcher)
    ensures Silent(init, Execute(init, actions), watcher)
  {
    if actions != [] {
      var front, a := actions[..|actions| - 1], actions[|actions| - 1];
      GoneHearsNothing(init, front, watcher);
      RunKeeps(init, front);
      var s := Execute(init, front);
      StepAttended(s, a);
      SilentStep(init, s, Step(s, a), watcher);
      hide Silent, Step;
    }
  }

  /** The entry at each place of an index comes from the given place of another, relieved of a watcher. */
  ghost predicate Places(pending: seq<Entry>, watcher: nat, kept: seq<Entry>, at: seq<nat>) {
    && Increasing(at) && |at| == |kept|
    && (forall k :: 0 <= k < |at| ==> at[k] < |pending| && kept[k] == Relieved(pending[at[k]], watcher))
  }

  /** The same places, when an entry goes in front that is kept or not. */
  lemma PlacesBehind(pending: seq<Entry>, watcher: nat, kept: seq<Entry>, rest: seq<nat>) returns (at: seq<nat>)
    requires pending != [] && Places(pending[1..], watcher, kept, rest)
    ensures Places(pending, watcher, kept, at)
    ensures Places(pending, watcher, [Relieved(pending[0], watcher)] + kept, [0] + at)
  {
    at := seq(|rest|, k requires 0 <= k < |rest| => rest[k] + 1);
    forall k | 0 <= k < |at|
      ensures at[k] < |pending| && kept[k] == Relieved(pending[at[k]], watcher)
    {
      assert kept[k] == Relieved(pending[1..][rest[k]], watcher);
    }
    hide Relieved;
  }

  /** Detaching keeps the entries in their order. */
  lemma {:induction false} DetachedPlaces(pending: seq<Entry>, watcher: nat) returns (at: seq<nat>)
    ensures Places(pending, watcher, Detached(pending, watcher), at)
  {
    at := [];
    if pending != [] {
      var rest := DetachedPlaces(pending[1..], watcher);
      at := PlacesBehind(pending, watcher, Detached(pending[1..], watcher), rest);
      if Others(pending[0].watchers, watcher) != [] {
        at := [0] + at;
      }
      hide Places;
    }
  }

  /**
   Once a watcher has been detached no pending value names it and nothing that happens later reaches its stream,
   while a value that another watcher shares stays pending with its payload and its place in the order.
   */
  lemma DetachedForGood(config: Config, before: seq<Action>, watcher: nat, after: seq<Action>) returns (at: seq<nat>)
    requires ValidConfig(config) && Legal(NewIngress(config), before)
    requires watcher < Execute(NewIngress(config), before).created
    requires Legal(Detach(Execute(NewIngress(config), before), watcher), after)
    ensures var s := Execute(NewIngress(config), before);
            var left := Detach(s, watcher);
            && (forall e, w :: e in left.pending && w in e.watchers ==> w.id != watcher)
            && (forall e :: e in s.pending && Others(e.watchers, watcher) != [] ==>
                              Relieved(e, watcher) in left.pending)
            && Places(s.pending, watcher, left.pending, at)
            && (forall i :: |s.log| <= i < |Execute(left, after).log| ==>
                              Execute(left, after).log[i].watcher != watcher)
  {
    var s := Execute(NewIngress(config), before);
    EveryRun(config, before);
    DetachKeeps(s, watcher);
    DetachedMembers(s.pending, watcher);
    at := DetachedPlaces(s.pending, watcher);
    GoneHearsNothing(Detach(s, watcher), after, watcher);
    forall e, w | e in Detach(s, watcher).pending && w in e.watchers
      ensures w.id != watcher
    {
      assert Remnant(s.pending, watcher, e);
    }
    forall e | e in s.pending && Others(e.watchers, watcher) != []
      ensures Relieved(e, watcher) in Detach(s, watcher).pending
    {
      assert Remnant(s.pending, watcher, Relieved(e, watcher));
    }
  }
}
