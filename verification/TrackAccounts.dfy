/** What becomes of every message: in every run of the ingress, each watcher it concerns is told once, or is owed it. */
module TrackAccounts {
  import opened Common
  import opened TrackIngress

  /** A message as it arrived, with the watchers that it concerned then. */
  datatype Message = Message(topic: string, payload: Payload, audience: seq<Watcher>)

  /** What a message has to say. */
  datatype Answer =
    | Refusal
    | Silence
    | Event(identity: Identity, track: bool)

  /** The messages of a run, by receipt. */
  function Arrivals(init: Ingress, actions: seq<Action>): seq<Message>
    requires Legal(init, actions)
  {
    if actions == [] then []
    else
      var front, a := actions[..|actions| - 1], actions[|actions| - 1];
      Arrivals(init, front)
      + if a.Arrival? then [Message(a.topic, a.payload, Audience(Execute(init, front), a.topic))] else []
  }

  /** Whether a message waits in the index before it is decoded. */
  predicate Queues(config: Config, m: Message) {
    config.codec.parse(m.topic) == Some(Track) && !AnyFifo(m.audience)
  }

  /** A message is refused when it cannot be read; the extractor has a say only for a message that is to wait. */
  function AnswerOf(config: Config, m: Message): Answer {
    if config.codec.parse(m.topic) == None then Refusal
    else if Queues(config, m) && config.Extract(m.topic, m.payload) == None then Refusal
    else
      match config.codec.decode(m.topic, m.payload)
      case Ignored => Silence
      case Decoded(identity) => Event(identity, config.codec.parse(m.topic) == Some(Track))
      case _ => Refusal
  }

  /** How a watcher is told. */
  function Telling(answer: Answer, watcher: nat, receipt: nat): Notice
    requires !answer.Silence?
  {
    if answer.Refusal? then Rejected(watcher, receipt)
    else Delivered(watcher, answer.identity, receipt, answer.track)
  }

  // ----- the accounts -----

  /** A notice says what its message has to say, to a watcher that the message concerned. */
  ghost predicate Truthful(config: Config, arrivals: seq<Message>, n: Notice) {
    && n.receipt < |arrivals|
    && Known(arrivals[n.receipt].audience, n.watcher)
    && !AnswerOf(config, arrivals[n.receipt]).Silence?
    && n == Telling(AnswerOf(config, arrivals[n.receipt]), n.watcher, n.receipt)
  }

  ghost predicate AllTruthful(config: Config, arrivals: seq<Message>, log: seq<Notice>) {
    forall n :: n in log ==> Truthful(config, arrivals, n)
  }

  /** A pending value is its message, for watchers that the message concerned. */
  ghost predicate Genuine(config: Config, arrivals: seq<Message>, e: Entry) {
    && e.receipt < |arrivals|
    && (var m := arrivals[e.receipt];
        && e.topic == m.topic && e.payload == m.payload
        && Queues(config, m) && config.Extract(m.topic, m.payload) == Some(e.identity)
        && (forall w :: w in e.watchers ==> w in m.audience))
  }

  ghost predicate AllGenuine(config: Config, arrivals: seq<Message>, pending: seq<Entry>) {
    forall e :: e in pending ==> Genuine(config, arrivals, e)
  }

  /** No watcher is told twice about one message. */
  ghost predicate Once(log: seq<Notice>) {
    forall i, j :: 0 <= i < j < |log| && log[i].watcher == log[j].watcher ==> log[i].receipt != log[j].receipt
  }

  /** Messages that wait, or that newer ones have displaced, were told to no one. */
  ghost predicate Untold(log: seq<Notice>, pending: seq<Entry>, displaced: set<nat>) {
    && (forall n, e :: n in log && e in pending ==> n.receipt != e.receipt)
    && (forall n :: n in log ==> n.receipt !in displaced)
    && (forall e :: e in pending ==> e.receipt !in displaced)
  }

  ghost predicate Waits(pending: seq<Entry>, receipt: nat, w: Watcher) {
    exists e :: e in pending && e.receipt == receipt && w in e.watchers
  }

  /** A watcher that a message concerned was told, or the message is silent, waits for it, was displaced, or it left. */
  ghost predicate Accounted(config: Config, log: seq<Notice>, pending: seq<Entry>, watchers: seq<Watcher>,
                            displaced: set<nat>, m: Message, receipt: nat, w: Watcher) {
    || AnswerOf(config, m).Silence?
    || Telling(AnswerOf(config, m), w.id, receipt) in log
    || Waits(pending, receipt, w)
    || receipt in displaced
    || w !in watchers
  }

  ghost predicate AllAccounted(s: Ingress, arrivals: seq<Message>, displaced: set<nat>) {
    forall r, w :: 0 <= r < |arrivals| && w in arrivals[r].audience
      ==> Accounted(s.config, s.log, s.pending, s.watchers, displaced, arrivals[r], r, w)
  }

  /** Watchers that messages concerned are not created again. */
  ghost predicate Past(arrivals: seq<Message>, created: nat) {
    forall r, w :: 0 <= r < |arrivals| && w in arrivals[r].audience ==> w.id < created
  }

  ghost predicate Books(s: Ingress, arrivals: seq<Message>, displaced: set<nat>) {
    && |arrivals| == s.receipts
    && AllTruthful(s.config, arrivals, s.log)
    && AllGenuine(s.config, arrivals, s.pending)
    && Once(s.log)
    && Untold(s.log, s.pending, displaced)
    && (forall r :: r in displaced ==> r < s.receipts)
    && AllAccounted(s, arrivals, displaced)
    && Past(arrivals, s.created)
  }

  function Receipts(pending: seq<Entry>): (r: set<nat>)
    ensures forall e :: e in pending ==> e.receipt in r
    ensures forall k :: k in r ==> exists e :: e in pending && e.receipt == k
  {
    set e | e in pending :: e.receipt
  }

  /** The messages that arrivals have taken from the index: superseded, or evicted to make room. */
  function Displaced(init: Ingress, actions: seq<Action>): set<nat>
    requires Legal(init, actions)
  {
    if actions == [] then {}
    else
      var front, a := actions[..|actions| - 1], actions[|actions| - 1];
      Displaced(init, front)
      + if a.Arrival? then Receipts(Execute(init, front).pending) - Receipts(Execute(init, actions).pending) else {}
  }

  // ----- arrivals -----

  /** What an arrival does, as far as the accounts go. */
  ghost predicate Booked(s: Ingress, s': Ingress, m: Message, notices: seq<Notice>) {
    && s'.config == s.config && s'.receipts == s.receipts + 1 && s'.watchers == s.watchers && s'.created == s.created
    && s'.log == s.log + notices
    && (forall e :: e in s'.pending && e.receipt < s.receipts ==> e in s.pending)
    && (forall e :: e in s'.pending ==> e.receipt <= s.receipts)
  }

  /** One notice for each watcher of a message. */
  ghost predicate Round(notices: seq<Notice>, answer: Answer, audience: seq<Watcher>, receipt: nat) {
    if answer.Silence? then notices == []
    else
      && |notices| == |audience|
      && (forall i :: 0 <= i < |notices| ==> notices[i] == Telling(answer, audience[i].id, receipt))
  }

  /** A new message is told to all at once, or waits for all. */
  ghost predicate Heeded(s: Ingress, s': Ingress, m: Message, notices: seq<Notice>) {
    || (&& Round(notices, AnswerOf(s.config, m), m.audience, s.receipts)
        && (forall e :: e in s'.pending ==> e.receipt < s.receipts))
    || (&& notices == [] && Queues(s.config, m) && s.config.Extract(m.topic, m.payload).Some?
        && (var entry := Entry(s.config.Extract(m.topic, m.payload).value, m.topic, m.payload, m.audience, s.receipts);
            && entry in s'.pending
            && (forall e :: e in s'.pending && e.receipt == s.receipts ==> e == entry)))
  }

  lemma AdmittedMembers(s: Ingress, entry: Entry)
    requires Sound(s) && Received(s, entry.receipt) && Accepted(s.config, s.watchers, entry)
    ensures var s' := Draining(Admitting(s, entry));
            && entry in s'.pending
            && (forall e :: e in s'.pending ==> e == entry || e in s.pending)
            && s'.log == s.log && s'.receipts == s.receipts && s'.config == s.config
            && s'.watchers == s.watchers && s'.created == s.created
  {
    SoundLimits(s);
    AcceptedFits(s, entry);
    hide *;
    var kept := Admitting(s, entry).pending;
    AdmissionEvictsFewest(s, entry);
    WithoutFacts(s.pending, entry.identity);
    NewestMembers(Without(s.pending, entry.identity), entry, |kept|);
    AdmittingFrame(s, entry);
    DrainingPending(s, entry);
  }

  lemma AcceptedFits(s: Ingress, entry: Entry)
    requires Accepted(s.config, s.watchers, entry)
    ensures |entry.payload| <= s.config.maximumPayload
  {
  }

  lemma SoundLimits(s: Ingress)
    requires Sound(s)
    ensures 1 <= s.config.bufferSize
  {
  }

  lemma DrainingPending(s: Ingress, entry: Entry)
    ensures var (s', admitted) := (Draining(Admitting(s, entry)), Admitting(s, entry));
            s'.pending == admitted.pending && s'.receipts == s.receipts && s'.config == s.config
  {
    hide Without, Find, Trimmed, TotalBytes;
  }

  lemma DeliveringMembers(s: Ingress, topic: string, payload: Payload, watchers: seq<Watcher>, receipt: nat,
                          track: bool, supersede: bool)
    ensures var s' := Delivering(s, topic, payload, watchers, receipt, track, supersede);
            && (forall e :: e in s'.pending ==> e in s.pending)
            && s'.receipts == s.receipts && s'.config == s.config
            && s'.watchers == s.watchers && s'.created == s.created
            && |s.log| <= |s'.log| && s'.log[..|s.log|] == s.log
            && var notices := s'.log[|s.log|..];
               match s.config.codec.decode(topic, payload)
               case Ignored => notices == []
               case Decoded(identity) =>
                 && |notices| == |watchers|
                 && (forall i :: 0 <= i < |notices| ==>
                       notices[i] == Delivered(watchers[i].id, identity, receipt, track))
               case _ =>
                 && |notices| == |watchers|
                 && (forall i :: 0 <= i < |notices| ==> notices[i] == Rejected(watchers[i].id, receipt))
  {
    match s.config.codec.decode(topic, payload)
    case Ignored =>
    case Decoded(identity) =>
      WithoutFacts(s.pending, identity);
      PoppedFrame(s, identity);
      hide Find, TotalBytes, Without;
    case _ =>
  }

  lemma ArrivalHeeded(s: Ingress, topic: string, payload: Payload) returns (notices: seq<Notice>)
    requires Sound(s)
    ensures var m := Message(topic, payload, Audience(s, topic));
            Booked(s, Receive(s, topic, payload), m, notices) && Heeded(s, Receive(s, topic, payload), m, notices)
  {
    var tick, audience, r := s.(receipts := s.receipts + 1), Audience(s, topic), s.receipts;
    var m := Message(topic, payload, audience);
    TickKeeps(s);
    AudienceFacts(s, topic);
    hide Sound, Received, Audience, Delivering, Admitting, Draining, Heeded, Booked, AnyFifo, Accepted;
    if audience == [] {
      notices := [];
      NobodyHeeded(s, tick, m);
    } else {
      match s.config.codec.parse(topic)
      case None =>
        notices := Rejections(audience, r);
        ToldHeeded(s, tick.(log := s.log + notices), m, notices);
      case Some(category) =>
        if category != Track || AnyFifo(audience) {
          notices := DirectHeeded(s, m, category == Track);
        } else if s.config.Extract(topic, payload).None? {
          notices := Rejections(audience, r);
          ToldHeeded(s, tick.(log := s.log + notices), m, notices);
        } else {
          notices := [];
          var entry := Entry(s.config.Extract(topic, payload).value, topic, payload, audience, r);
          QueuedAccepted(s, topic, payload, entry);
          AdmittedMembers(tick, entry);
          QueuedHeeded(s, Draining(Admitting(tick, entry)), m, entry);
        }
    }
  }

  lemma DirectHeeded(s: Ingress, m: Message, track: bool) returns (notices: seq<Notice>)
    requires Sound(s) && s.config.codec.parse(m.topic).Some? && !Queues(s.config, m)
    requires track <==> s.config.codec.parse(m.topic) == Some(Track)
    ensures var tick := s.(receipts := s.receipts + 1);
            var s' := Delivering(tick, m.topic, m.payload, m.audience, s.receipts, track, track);
            Booked(s, s', m, notices) && Heeded(s, s', m, notices)
  {
    var tick := s.(receipts := s.receipts + 1);
    var s' := Delivering(tick, m.topic, m.payload, m.audience, s.receipts, track, track);
    hide Sound, Delivering, Heeded, Booked, Queues;
    DeliveringMembers(tick, m.topic, m.payload, m.audience, s.receipts, track, track);
    notices := s'.log[|s.log|..];
    assert s'.log == s.log + notices;
    ToldHeeded(s, s', m, notices);
  }

  lemma QueuedAccepted(s: Ingress, topic: string, payload: Payload, entry: Entry)
    requires Sound(s) && Audience(s, topic) != [] && !AnyFifo(Audience(s, topic))
    requires s.config.Extract(topic, payload).Some?
    requires entry == Entry(s.config.Extract(topic, payload).value, topic, payload, Audience(s, topic), s.receipts)
    ensures Accepted(s.config, s.watchers, entry)
  {
    AudienceFacts(s, topic);
    assert forall w :: w in Audience(s, topic) ==> w.policy == Latest;
    hide Sound, Audience;
  }

  /** Entries that were pending before are older than a new receipt. */
  lemma NobodyHeeded(s: Ingress, s': Ingress, m: Message)
    requires Sound(s) && s' == s.(receipts := s.receipts + 1) && m.audience == []
    ensures Booked(s, s', m, []) && Heeded(s, s', m, [])
  {
    assert Round([], AnswerOf(s.config, m), m.audience, s.receipts);
    assert s'.log == s.log + [];
    assert forall e :: e in s.pending ==> e.receipt < s.receipts;
    hide Sound, AnswerOf;
  }

  lemma ToldHeeded(s: Ingress, s': Ingress, m: Message, notices: seq<Notice>)
    requires Sound(s) && s'.log == s.log + notices && (forall e :: e in s'.pending ==> e in s.pending)
    requires s'.config == s.config && s'.receipts == s.receipts + 1
    requires s'.watchers == s.watchers && s'.created == s.created
    requires Round(notices, AnswerOf(s.config, m), m.audience, s.receipts)
    ensures Booked(s, s', m, notices) && Heeded(s, s', m, notices)
  {
    assert forall e :: e in s.pending ==> e.receipt < s.receipts;
    hide Sound, AnswerOf, Round;
  }

  lemma QueuedHeeded(s: Ingress, s': Ingress, m: Message, entry: Entry)
    requires Sound(s) && s'.log == s.log && entry in s'.pending
    requires forall e :: e in s'.pending ==> e == entry || e in s.pending
    requires s'.config == s.config && s'.receipts == s.receipts + 1
    requires s'.watchers == s.watchers && s'.created == s.created
    requires Queues(s.config, m) && s.config.Extract(m.topic, m.payload) == Some(entry.identity)
    requires entry == Entry(entry.identity, m.topic, m.payload, m.audience, s.receipts)
    ensures Booked(s, s', m, []) && Heeded(s, s', m, [])
  {
    assert forall e :: e in s.pending ==> e.receipt < s.receipts;
    assert s'.log == s.log + [];
    hide Sound, AnswerOf, Round, Queues;
  }

  lemma TruthfulLater(config: Config, arrivals: seq<Message>, m: Message, log: seq<Notice>)
    requires AllTruthful(config, arrivals, log)
    ensures AllTruthful(config, arrivals + [m], log)
  {
    forall n | n in log
      ensures Truthful(config, arrivals + [m], n)
    {
      assert Truthful(config, arrivals, n);
    }
  }

  lemma RoundTruthful(config: Config, arrivals: seq<Message>, notices: seq<Notice>, receipt: nat)
    requires receipt < |arrivals|
    requires Round(notices, AnswerOf(config, arrivals[receipt]), arrivals[receipt].audience, receipt)
    ensures AllTruthful(config, arrivals, notices)
    ensures forall n :: n in notices ==> n.receipt == receipt
  {
    var m := arrivals[receipt];
    hide AnswerOf;
    forall n | n in notices
      ensures n.receipt == receipt && Truthful(config, arrivals, n)
    {
      var i :| 0 <= i < |notices| && notices[i] == n;
      assert m.audience[i] in m.audience;
    }
  }

  lemma TruthfulJoin(config: Config, arrivals: seq<Message>, log: seq<Notice>, notices: seq<Notice>)
    requires AllTruthful(config, arrivals, log) && AllTruthful(config, arrivals, notices)
    ensures AllTruthful(config, arrivals, log + notices)
  {
    hide Truthful;
  }

  lemma GenuineLater(config: Config, arrivals: seq<Message>, m: Message, pending: seq<Entry>, e: Entry)
    requires AllGenuine(config, arrivals, pending) && e in pending
    ensures Genuine(config, arrivals + [m], e)
  {
    assert Genuine(config, arrivals, e);
    hide Queues;
  }

  lemma GenuineArrival(s: Ingress, s': Ingress, arrivals: seq<Message>, m: Message, notices: seq<Notice>)
    requires AllGenuine(s.config, arrivals, s.pending) && |arrivals| == s.receipts
    requires Booked(s, s', m, notices) && Heeded(s, s', m, notices)
    ensures AllGenuine(s.config, arrivals + [m], s'.pending)
  {
    hide Queues, AnswerOf, AllGenuine, Round;
    forall e | e in s'.pending
      ensures Genuine(s.config, arrivals + [m], e)
    {
      if e.receipt < s.receipts {
        GenuineLater(s.config, arrivals, m, s.pending, e);
      } else {
        assert (arrivals + [m])[e.receipt] == m;
      }
    }
    assert AllGenuine(s.config, arrivals + [m], s'.pending) by { AllAreGenuine(s.config, arrivals + [m], s'.pending); }
  }

  lemma AllAreGenuine(config: Config, arrivals: seq<Message>, pending: seq<Entry>)
    requires forall e :: e in pending ==> Genuine(config, arrivals, e)
    ensures AllGenuine(config, arrivals, pending)
  {
    hide Genuine;
  }

  /** Notices about one message that no notice was about. */
  lemma OnceMore(log: seq<Notice>, notices: seq<Notice>, answer: Answer, audience: seq<Watcher>, receipt: nat)
    requires Once(log) && DistinctWatchers(audience) && Round(notices, answer, audience, receipt)
    requires forall n :: n in log ==> n.receipt != receipt
    ensures Once(log + notices)
  {
    var all := log + notices;
    forall i, j | 0 <= i < j < |all| && all[i].watcher == all[j].watcher
      ensures all[i].receipt != all[j].receipt
    {
      if i < |log| <= j {
        assert all[i] in log;
      }
    }
  }

  lemma UntoldArrival(s: Ingress, s': Ingress, displaced: set<nat>, notices: seq<Notice>)
    requires Untold(s.log, s.pending, displaced) && (forall r :: r in displaced ==> r < s.receipts)
    requires s'.log == s.log + notices && (forall n :: n in notices ==> n.receipt == s.receipts)
    requires forall n :: n in s.log ==> n.receipt < s.receipts
    requires forall e :: e in s.pending ==> e.receipt < s.receipts
    requires forall e :: e in s'.pending && e.receipt < s.receipts ==> e in s.pending
    requires forall e :: e in s'.pending ==> e.receipt <= s.receipts
    requires notices != [] ==> forall e :: e in s'.pending ==> e.receipt < s.receipts
    ensures Untold(s'.log, s'.pending, displaced + (Receipts(s.pending) - Receipts(s'.pending)))
  {
    var displaced' := displaced + (Receipts(s.pending) - Receipts(s'.pending));
    forall n | n in s'.log
      ensures n in s.log || n in notices
      ensures n.receipt !in displaced'
    {
      assert n in s.log || n in notices;
    }
    forall e | e in s'.pending
      ensures e.receipt !in displaced'
    {
    }
  }

  lemma SameReceipt(pending: seq<Entry>, receipts: nat, e: Entry, e': Entry)
    requires InOrder(pending, receipts) && e in pending && e' in pending && e.receipt == e'.receipt
    ensures e == e'
  {
    OlderFirst(pending, receipts);
    var i :| 0 <= i < |pending| && pending[i] == e;
    var j :| 0 <= j < |pending| && pending[j] == e';
    hide InOrder;
    assert !(i < j) && !(j < i);
  }

  lemma OlderFirst(pending: seq<Entry>, receipts: nat)
    requires InOrder(pending, receipts)
    ensures forall i, j :: 0 <= i < j < |pending| ==> pending[i].receipt < pending[j].receipt
  {
    assert forall i, j :: 0 <= i < j < |pending| ==> Precedes(pending[i], pending[j]);
  }

  /** What waited still waits, or was displaced. */
  lemma WaitsOn(s: Ingress, s': Ingress, displaced: set<nat>, receipt: nat, w: Watcher)
    requires InOrder(s.pending, s.receipts) && Waits(s.pending, receipt, w)
    requires forall e :: e in s'.pending && e.receipt < s.receipts ==> e in s.pending
    ensures Waits(s'.pending, receipt, w) || receipt in displaced + (Receipts(s.pending) - Receipts(s'.pending))
  {
    var e :| e in s.pending && e.receipt == receipt && w in e.watchers;
    assert e.receipt < s.receipts;
    if receipt in Receipts(s'.pending) {
      var e' :| e' in s'.pending && e'.receipt == receipt;
      SameReceipt(s.pending, s.receipts, e, e');
    }
  }

  lemma AccountedLater(s: Ingress, s': Ingress, displaced: set<nat>, displaced': set<nat>, m: Message, receipt: nat,
                       w: Watcher)
    requires s'.config == s.config && s.log <= s'.log
    requires w in s'.watchers ==> w in s.watchers
    requires displaced <= displaced'
    requires Waits(s.pending, receipt, w) && w in s'.watchers
             ==> || Waits(s'.pending, receipt, w)
                 || receipt in displaced'
                 || AnswerOf(s.config, m).Silence?
                 || Telling(AnswerOf(s.config, m), w.id, receipt) in s'.log
    requires Accounted(s.config, s.log, s.pending, s.watchers, displaced, m, receipt, w)
    ensures Accounted(s'.config, s'.log, s'.pending, s'.watchers, displaced', m, receipt, w)
  {
    hide AnswerOf, Waits;
  }

  lemma RoundTells(notices: seq<Notice>, answer: Answer, audience: seq<Watcher>, receipt: nat, w: Watcher)
    requires Round(notices, answer, audience, receipt) && w in audience && !answer.Silence?
    ensures Telling(answer, w.id, receipt) in notices
  {
    var i :| 0 <= i < |audience| && audience[i] == w;
    assert notices[i] in notices;
  }

  lemma NewAccounted(s: Ingress, s': Ingress, m: Message, notices: seq<Notice>, displaced: set<nat>, w: Watcher)
    requires Booked(s, s', m, notices) && Heeded(s, s', m, notices) && w in m.audience
    ensures Accounted(s'.config, s'.log, s'.pending, s'.watchers, displaced, m, s.receipts, w)
  {
    var answer := AnswerOf(s.config, m);
    hide AnswerOf, Queues;
    if !answer.Silence? && Round(notices, answer, m.audience, s.receipts) {
      RoundTells(notices, answer, m.audience, s.receipts, w);
      hide Round;
    }
  }

  lemma AccountsArrival(s: Ingress, s': Ingress, arrivals: seq<Message>, displaced: set<nat>, m: Message,
                        notices: seq<Notice>)
    requires InOrder(s.pending, s.receipts) && AllAccounted(s, arrivals, displaced) && |arrivals| == s.receipts
    requires Booked(s, s', m, notices) && Heeded(s, s', m, notices)
    ensures AllAccounted(s', arrivals + [m], displaced + (Receipts(s.pending) - Receipts(s'.pending)))
  {
    var arrivals', displaced' := arrivals + [m], displaced + (Receipts(s.pending) - Receipts(s'.pending));
    hide AnswerOf, Heeded, Accounted, Waits, InOrder;
    forall r, w | 0 <= r < |arrivals'| && w in arrivals'[r].audience
      ensures Accounted(s'.config, s'.log, s'.pending, s'.watchers, displaced', arrivals'[r], r, w)
    {
      if r < |arrivals| {
        if Waits(s.pending, r, w) {
          WaitsOn(s, s', displaced, r, w);
        }
        AccountedLater(s, s', displaced, displaced', arrivals[r], r, w);
      } else {
        NewAccounted(s, s', m, notices, displaced', w);
      }
    }
  }

  lemma HeededNotices(s: Ingress, s': Ingress, m: Message, notices: seq<Notice>)
    requires Booked(s, s', m, notices) && Heeded(s, s', m, notices)
    ensures forall n :: n in notices ==> n.receipt == s.receipts
    ensures notices != [] ==> forall e :: e in s'.pending ==> e.receipt < s.receipts
    ensures exists answer :: Round(notices, answer, m.audience, s.receipts)
  {
    hide AnswerOf, Queues;
    if Round(notices, AnswerOf(s.config, m), m.audience, s.receipts) {
    } else {
      assert Round(notices, Silence, m.audience, s.receipts);
    }
  }

  lemma HeededTruthful(s: Ingress, s': Ingress, arrivals: seq<Message>, m: Message, notices: seq<Notice>)
    requires Heeded(s, s', m, notices) && |arrivals| == s.receipts && AllTruthful(s.config, arrivals, s.log)
    ensures AllTruthful(s.config, arrivals + [m], s.log + notices)
  {
    TruthfulLater(s.config, arrivals, m, s.log);
    hide AnswerOf, Queues, AllTruthful;
    assert (arrivals + [m])[s.receipts] == m;
    if Round(notices, AnswerOf(s.config, m), m.audience, s.receipts) {
      RoundTruthful(s.config, arrivals + [m], notices, s.receipts);
    } else {
      NothingTruthful(s.config, arrivals + [m]);
    }
    TruthfulJoin(s.config, arrivals + [m], s.log, notices);
  }

  lemma NothingTruthful(config: Config, arrivals: seq<Message>)
    ensures AllTruthful(config, arrivals, [])
  {
  }

  lemma DatesBelow(s: Ingress)
    requires Sound(s)
    ensures InOrder(s.pending, s.receipts)
    ensures forall n :: n in s.log ==> n.receipt < s.receipts
    ensures forall e :: e in s.pending ==> e.receipt < s.receipts
  {
  }

  lemma CreatedBefore(s: Ingress, topic: string)
    requires Sound(s)
    ensures forall w :: w in Audience(s, topic) ==> w.id < s.created
  {
    AudienceFacts(s, topic);
    hide Audience, InOrder, AllAccepted, Bounded, Fresh, Dated, Behind, Tasked;
  }

  lemma PastArrival(arrivals: seq<Message>, m: Message, created: nat)
    requires Past(arrivals, created) && forall w :: w in m.audience ==> w.id < created
    ensures Past(arrivals + [m], created)
  {
  }

  lemma ArrivalBooks(s: Ingress, topic: string, payload: Payload, arrivals: seq<Message>, displaced: set<nat>)
    requires Sound(s) && Books(s, arrivals, displaced)
    ensures var s' := Receive(s, topic, payload);
            Books(s', arrivals + [Message(topic, payload, Audience(s, topic))],
                  displaced + (Receipts(s.pending) - Receipts(s'.pending)))
  {
    var s', m := Receive(s, topic, payload), Message(topic, payload, Audience(s, topic));
    var notices := ArrivalHeeded(s, topic, payload);
    hide Sound, Receive, Audience;
    DatesBelow(s);
    AudienceFacts(s, topic);
    CreatedBefore(s, topic);
    hide Heeded, AllTruthful, AllGenuine, Once, Untold, AllAccounted, Past, InOrder,
      DistinctWatchers, Round;
    HeededTruthful(s, s', arrivals, m, notices);
    GenuineArrival(s, s', arrivals, m, notices);
    HeededNotices(s, s', m, notices);
    var answer :| Round(notices, answer, m.audience, s.receipts);
    OnceMore(s.log, notices, answer, m.audience, s.receipts);
    UntoldArrival(s, s', displaced, notices);
    AccountsArrival(s, s', arrivals, displaced, m, notices);
    PastArrival(arrivals, m, s.created);
  }

  // ----- resumptions of the drain task -----

  /** What a pending value has to say is what its message had to say. */
  lemma PendingAnswer(config: Config, arrivals: seq<Message>, e: Entry)
    requires Genuine(config, arrivals, e)
    ensures AnswerOf(config, arrivals[e.receipt])
            == match config.codec.decode(e.topic, e.payload)
               case Ignored => Silence
               case Decoded(identity) => Event(identity, true)
               case _ => Refusal
  {
    hide AnyFifo;
  }

  lemma ResumeRound(s: Ingress, task: nat, arrivals: seq<Message>) returns (notices: seq<Notice>)
    requires s.pending != [] && !s.closed && task !in s.cancelled && Genuine(s.config, arrivals, s.pending[0])
    ensures var (s', e) := (Resume(s, task), s.pending[0]);
            && s'.log == s.log + notices && s'.pending == s.pending[1..]
            && Round(notices, AnswerOf(s.config, arrivals[e.receipt]), e.watchers, e.receipt)
            && s'.config == s.config && s'.receipts == s.receipts
            && s'.watchers == s.watchers && s'.created == s.created
  {
    var e := s.pending[0];
    PendingAnswer(s.config, arrivals, e);
    hide Genuine, AnswerOf;
    match s.config.codec.decode(e.topic, e.payload)
    case Ignored => notices := [];
    case Decoded(identity) => notices := Deliveries(e.watchers, identity, e.receipt, true);
    case _ => notices := Rejections(e.watchers, e.receipt);
  }

  lemma PendingTruthful(config: Config, arrivals: seq<Message>, e: Entry, notices: seq<Notice>)
    requires Genuine(config, arrivals, e)
    requires Round(notices, AnswerOf(config, arrivals[e.receipt]), e.watchers, e.receipt)
    ensures AllTruthful(config, arrivals, notices) && forall n :: n in notices ==> n.receipt == e.receipt
  {
    hide AnswerOf, Queues;
    forall n | n in notices
      ensures n.receipt == e.receipt && Truthful(config, arrivals, n)
    {
      var i :| 0 <= i < |notices| && notices[i] == n;
      assert e.watchers[i] in e.watchers;
    }
  }

  lemma UntoldResume(pending: seq<Entry>, receipts: nat, log: seq<Notice>, displaced: set<nat>, notices: seq<Notice>)
    requires Untold(log, pending, displaced) && InOrder(pending, receipts) && pending != []
    requires forall n :: n in notices ==> n.receipt == pending[0].receipt
    ensures Untold(log + notices, pending[1..], displaced)
  {
    var e, rest := pending[0], pending[1..];
    assert pending == [e] + rest && e in pending;
    forall k | k in rest
      ensures k in pending && e.receipt < k.receipt
    {
      var i :| 0 <= i < |rest| && rest[i] == k;
      assert Precedes(pending[0], pending[i + 1]);
    }
    assert forall n :: n in log + notices ==> n in log || n in notices;
  }

  lemma AccountsResume(s: Ingress, s': Ingress, arrivals: seq<Message>, displaced: set<nat>, notices: seq<Notice>)
    requires AllAccounted(s, arrivals, displaced) && s.pending != [] && s.pending[0].receipt < |arrivals|
    requires s'.config == s.config && s'.watchers == s.watchers
    requires s'.log == s.log + notices && s'.pending == s.pending[1..]
    requires var e := s.pending[0];
             Round(notices, AnswerOf(s.config, arrivals[e.receipt]), e.watchers, e.receipt)
    ensures AllAccounted(s', arrivals, displaced)
  {
    var e := s.pending[0];
    assert s.pending == [e] + s'.pending;
    hide AnswerOf, Accounted;
    forall r, w | 0 <= r < |arrivals| && w in arrivals[r].audience
      ensures Accounted(s'.config, s'.log, s'.pending, s'.watchers, displaced, arrivals[r], r, w)
    {
      if Waits(s.pending, r, w) && !Waits(s'.pending, r, w) {
        var k :| k in s.pending && k.receipt == r && w in k.watchers;
        assert k == e;
        if !AnswerOf(s.config, arrivals[r]).Silence? {
          RoundTells(notices, AnswerOf(s.config, arrivals[r]), e.watchers, r, w);
        }
      }
      assert s.log <= s'.log;
      AccountedLater(s, s', displaced, displaced, arrivals[r], r, w);
    }
  }

  lemma ResumeBooks(s: Ingress, task: nat, arrivals: seq<Message>, displaced: set<nat>)
    requires Sound(s) && Books(s, arrivals, displaced)
    ensures Books(Resume(s, task), arrivals, displaced)
  {
    if !(task in s.cancelled || s.pending == [] || s.closed) {
      var e := s.pending[0];
      assert e in s.pending && Genuine(s.config, arrivals, e) && Accepted(s.config, s.watchers, e);
      DatesBelow(s);
      hide Sound, Genuine, Resume, AllTruthful, AllGenuine, Once, Untold, AllAccounted, Past, InOrder, DistinctWatchers,
        Round, AnswerOf, Accepted;
      var notices := ResumeRound(s, task, arrivals);
      PendingTruthful(s.config, arrivals, e, notices);
      TruthfulJoin(s.config, arrivals, s.log, notices);
      GenuineFew(s.config, arrivals, s.pending, s.pending[1..]);
      UntoldReceipt(s.log, s.pending, displaced, e);
      EntryDistinct(s, e);
      OnceMore(s.log, notices, AnswerOf(s.config, arrivals[e.receipt]), e.watchers, e.receipt);
      UntoldResume(s.pending, s.receipts, s.log, displaced, notices);
      AccountsResume(s, Resume(s, task), arrivals, displaced, notices);
    } else {
      hide Sound;
      SameBooks(s, Resume(s, task), arrivals, displaced);
    }
  }

  lemma EntryDistinct(s: Ingress, e: Entry)
    requires Accepted(s.config, s.watchers, e)
    ensures DistinctWatchers(e.watchers)
  {
  }

  lemma UntoldReceipt(log: seq<Notice>, pending: seq<Entry>, displaced: set<nat>, e: Entry)
    requires Untold(log, pending, displaced) && e in pending
    ensures forall n :: n in log ==> n.receipt != e.receipt
  {
  }

  lemma GenuineFew(config: Config, arrivals: seq<Message>, pending: seq<Entry>, pending': seq<Entry>)
    requires AllGenuine(config, arrivals, pending) && forall e :: e in pending' ==> e in pending
    ensures AllGenuine(config, arrivals, pending')
  {
    hide Genuine;
  }

  lemma SameBooks(s: Ingress, s': Ingress, arrivals: seq<Message>, displaced: set<nat>)
    requires Books(s, arrivals, displaced) && s'.config == s.config && s'.receipts == s.receipts && s'.log == s.log
    requires s'.pending == s.pending && s'.created == s.created && s'.watchers == s.watchers
    ensures Books(s', arrivals, displaced)
  {
    hide AllTruthful, AllGenuine, Once, Untold, Accounted, Past;
  }

  // ----- watchers come and go -----

  lemma AttachBooks(s: Ingress, a: Action, arrivals: seq<Message>, displaced: set<nat>)
    requires Books(s, arrivals, displaced) && a.Watch?
    ensures Books(Step(s, a), arrivals, displaced)
  {
    var s' := Step(s, a);
    hide AllTruthful, AllGenuine, Once, Untold, Accounted, Waits, AnswerOf;
    forall r, w | 0 <= r < |arrivals| && w in arrivals[r].audience
      ensures Accounted(s'.config, s'.log, s'.pending, s'.watchers, displaced, arrivals[r], r, w)
    {
      assert w.id < s.created;
      AccountedLater(s, s', displaced, displaced, arrivals[r], r, w);
    }
    assert Past(arrivals, s'.created);
  }

  /** A watcher that stays waits for what it waited for, whoever else leaves. */
  lemma WaitsStill(pending: seq<Entry>, watcher: nat, receipt: nat, w: Watcher)
    requires Waits(pending, receipt, w) && w.id != watcher
    ensures Waits(Detached(pending, watcher), receipt, w)
  {
    var e :| e in pending && e.receipt == receipt && w in e.watchers;
    DetachedMembers(pending, watcher);
    var k := Relieved(e, watcher);
    assert w in k.watchers;
    assert Remnant(pending, watcher, k);
  }

  lemma GenuineDetached(config: Config, arrivals: seq<Message>, pending: seq<Entry>, watcher: nat)
    requires AllGenuine(config, arrivals, pending)
    ensures AllGenuine(config, arrivals, Detached(pending, watcher))
  {
    DetachedMembers(pending, watcher);
    forall k | k in Detached(pending, watcher)
      ensures Genuine(config, arrivals, k)
    {
      assert Remnant(pending, watcher, k);
      var e :| e in pending && k == Relieved(e, watcher);
      assert Genuine(config, arrivals, e);
      hide Queues;
    }
  }

  lemma UntoldDetached(log: seq<Notice>, pending: seq<Entry>, displaced: set<nat>, watcher: nat)
    requires Untold(log, pending, displaced)
    ensures Untold(log, Detached(pending, watcher), displaced)
  {
    DetachedMembers(pending, watcher);
    forall k | k in Detached(pending, watcher)
      ensures exists e :: e in pending && e.receipt == k.receipt
    {
      assert Remnant(pending, watcher, k);
    }
  }

  lemma DetachBooks(s: Ingress, watcher: nat, arrivals: seq<Message>, displaced: set<nat>)
    requires Books(s, arrivals, displaced)
    ensures Books(Detach(s, watcher), arrivals, displaced)
  {
    var s' := Detach(s, watcher);
    hide AllTruthful, AllGenuine, Once, Untold, Accounted, Waits, AnswerOf, Past, Detached, TotalBytes;
    GenuineDetached(s.config, arrivals, s.pending, watcher);
    UntoldDetached(s.log, s.pending, displaced, watcher);
    forall r, w | 0 <= r < |arrivals| && w in arrivals[r].audience
      ensures Accounted(s'.config, s'.log, s'.pending, s'.watchers, displaced, arrivals[r], r, w)
    {
      if Waits(s.pending, r, w) && w in s'.watchers {
        WaitsStill(s.pending, watcher, r, w);
      }
      AccountedLater(s, s', displaced, displaced, arrivals[r], r, w);
    }
  }

  lemma CloseBooks(s: Ingress, arrivals: seq<Message>, displaced: set<nat>)
    requires Books(s, arrivals, displaced)
    ensures Books(Close(s), arrivals, displaced)
  {
    hide AllTruthful, Once, Waits, AnswerOf, Past;
  }

  /** The message of an action, if it is one. */
  function Arriving(s: Ingress, a: Action): seq<Message> {
    if a.Arrival? then [Message(a.topic, a.payload, Audience(s, a.topic))] else []
  }

  lemma StepParts(s: Ingress, a: Action)
    requires Enabled(s, a)
    ensures match a
            case Arrival(topic, payload) =>
              && Step(s, a) == Receive(s, topic, payload)
              && Arriving(s, a) == [Message(topic, payload, Audience(s, topic))]
            case Wake(task) => Step(s, a) == Resume(s, task) && Arriving(s, a) == []
            case Leave(watcher) => Step(s, a) == Detach(s, watcher) && Arriving(s, a) == []
            case Shutdown => Step(s, a) == Close(s) && Arriving(s, a) == []
            case Watch(_, _, _) => Arriving(s, a) == []
  {
    hide Receive, Resume, Attach, Detach, Close, Audience;
  }

  lemma StepBooks(s: Ingress, a: Action, arrivals: seq<Message>, displaced: set<nat>)
    requires Sound(s) && Books(s, arrivals, displaced) && Enabled(s, a)
    ensures Books(Step(s, a), arrivals + Arriving(s, a),
                  displaced + if a.Arrival? then Receipts(s.pending) - Receipts(Step(s, a).pending) else {})
  {
    hide *;
    StepParts(s, a);
    assert arrivals + [] == arrivals && displaced + {} == displaced;
    match a
    case Arrival(topic, payload) => ArrivalBooks(s, topic, payload, arrivals, displaced);
    case Wake(task) => ResumeBooks(s, task, arrivals, displaced);
    case Watch(_, _, _) => AttachBooks(s, a, arrivals, displaced);
    case Leave(watcher) => DetachBooks(s, watcher, arrivals, displaced);
    case Shutdown => CloseBooks(s, arrivals, displaced);
  }

  lemma {:induction false} RunBooks(init: Ingress, actions: seq<Action>)
    requires Sound(init) && Books(init, [], {}) && Legal(init, actions)
    ensures Books(Execute(init, actions), Arrivals(init, actions), Displaced(init, actions))
  {
    if actions != [] {
      var front, a := actions[..|actions| - 1], actions[|actions| - 1];
      RunBooks(init, front);
      RunKeeps(init, front);
      StepBooks(Execute(init, front), a, Arrivals(init, front), Displaced(init, front));
      hide Books, Sound, Step;
    }
  }

  // ----- what the service owes -----

  /**
   In every run, every watcher that a message concerned has been told what the message has to say, unless the message
   is silent, or is pending for it, or newer messages have displaced it, or the watcher has left. It is told at most
   once, nobody else is told, and a message that was displaced is told to no one.
   */
  lemma EveryMessageAccounted(config: Config, actions: seq<Action>)
    requires ValidConfig(config) && Legal(NewIngress(config), actions)
    ensures var (init, s) := (NewIngress(config), Execute(NewIngress(config), actions));
            var (arrivals, displaced) := (Arrivals(init, actions), Displaced(init, actions));
            && |arrivals| == s.receipts
            && (forall r, w :: 0 <= r < |arrivals| && w in arrivals[r].audience ==>
                  || AnswerOf(config, arrivals[r]).Silence?
                  || Telling(AnswerOf(config, arrivals[r]), w.id, r) in s.log
                  || Waits(s.pending, r, w)
                  || r in displaced
                  || w !in s.watchers)
            && (forall n :: n in s.log ==> Truthful(config, arrivals, n) && n.receipt !in displaced)
            && Once(s.log)
  {
    var init := NewIngress(config);
    EveryRun(config, []);
    RunBooks(init, actions);
    ConfigFixed(init, actions);
    var (arrivals, displaced) := (Arrivals(init, actions), Displaced(init, actions));
    var s := Execute(init, actions);
    forall r, w | 0 <= r < |arrivals| && w in arrivals[r].audience
      ensures Accounted(config, s.log, s.pending, s.watchers, displaced, arrivals[r], r, w)
    {
    }
    hide Sound, Truthful, AnswerOf, Waits, Once;
  }

  /**
   In every run, when the drain task resumes while something is pending and it was not cancelled, each watcher of the
   oldest pending value, in order, is told what its message has to say, and nothing else is told.
   */
  lemma ResumptionTells(config: Config, actions: seq<Action>, task: nat) returns (notices: seq<Notice>)
    requires ValidConfig(config) && Legal(NewIngress(config), actions)
    requires var s := Execute(NewIngress(config), actions);
             task in s.live && task !in s.cancelled && s.pending != []
    ensures var s := Execute(NewIngress(config), actions);
            var (s', e, arrivals) := (Step(s, Wake(task)), s.pending[0], Arrivals(NewIngress(config), actions));
            && e.receipt < |arrivals|
            && e.topic == arrivals[e.receipt].topic && e.payload == arrivals[e.receipt].payload
            && s'.log == s.log + notices && s'.pending == s.pending[1..]
            && Round(notices, AnswerOf(config, arrivals[e.receipt]), e.watchers, e.receipt)
  {
    var init := NewIngress(config);
    EveryRun(config, []);
    EveryRun(config, actions);
    RunBooks(init, actions);
    ConfigFixed(init, actions);
    var s := Execute(init, actions);
    assert s.pending[0] in s.pending && Genuine(config, Arrivals(init, actions), s.pending[0]);
    assert !s.closed;
    hide Sound, Books, AnswerOf, Round, Resume, Queues;
    notices := ResumeRound(s, task, Arrivals(init, actions));
  }

  /** The identity whose pending value a message takes the place of. */
  function Supersedes(config: Config, m: Message): Option<Identity> {
    if config.codec.parse(m.topic) != Some(Track) || m.audience == [] then None
    else if Queues(config, m) then config.Extract(m.topic, m.payload)
    else
      match config.codec.decode(m.topic, m.payload)
      case Decoded(identity) => Some(identity)
      case _ => None
  }

  /** The new value of a message that is to wait. */
  function EntryOf(config: Config, m: Message, receipt: nat): Option<Entry> {
    if m.audience == [] || !Queues(config, m) then None
    else
      match config.Extract(m.topic, m.payload)
      case None => None
      case Some(identity) => Some(Entry(identity, m.topic, m.payload, m.audience, receipt))
  }

  /** Some run of newest values that includes this one is within the limits, when a new one is appended. */
  ghost predicate Room(config: Config, pending: seq<Entry>, entry: Entry, e: Entry) {
    var grown := Without(pending, entry.identity) + [entry];
    exists n :: 0 <= n <= |grown| && WithinLimits(Newest(grown, n), config) && e in Newest(grown, n)
  }

  /** A pending value gives way to a message of its identity, or to a newer one that leaves no room for it. */
  ghost predicate GivesWay(s: Ingress, m: Message, e: Entry) {
    || Supersedes(s.config, m) == Some(e.identity)
    || (EntryOf(s.config, m, s.receipts).Some?
        && !Room(s.config, s.pending, EntryOf(s.config, m, s.receipts).value, e))
  }

  lemma NewestGrows(pending: seq<Entry>, n: nat, k: nat)
    requires n <= k <= |pending|
    ensures forall e :: e in Newest(pending, n) ==> e in Newest(pending, k)
  {
    forall e | e in Newest(pending, n)
      ensures e in Newest(pending, k)
    {
      var i :| 0 <= i < n && Newest(pending, n)[i] == e;
      assert Newest(pending, k)[k - n + i] == e;
    }
  }

  lemma AdmittedRoom(s: Ingress, entry: Entry, e: Entry)
    requires Sound(s) && |entry.payload| <= s.config.maximumPayload && entry !in s.pending && e in s.pending
    ensures e in Admitting(s, entry).pending <==> e.identity != entry.identity && Room(s.config, s.pending, entry, e)
  {
    var grown, kept := Without(s.pending, entry.identity) + [entry], Admitting(s, entry).pending;
    DatesBelow(s);
    SoundLimits(s);
    hide Sound, Without, Admitting, WithinLimits, InOrder, Newest;
    AdmissionEvictsFewest(s, entry);
    WithoutMembers(s.pending, entry.identity, s.receipts);
    TrimmedFits(Without(s.pending, entry.identity), entry, s.config);
    AdmittingPending(s, entry);
    NewestMembers(Without(s.pending, entry.identity), entry, |kept|);
    if Room(s.config, s.pending, entry, e) {
      var n :| 0 <= n <= |grown| && WithinLimits(Newest(grown, n), s.config) && e in Newest(grown, n);
      NewestGrows(grown, n, |kept|);
      NewestMembers(Without(s.pending, entry.identity), entry, n);
    }
  }

  /**
   An arrival takes from the index exactly the values that give way to it, and counts them: one that it supersedes as
   coalesced, the others as evicted.
   */
  lemma ArrivalTakes(s: Ingress, topic: string, payload: Payload)
    requires Sound(s)
    ensures var (s', m) := (Receive(s, topic, payload), Message(topic, payload, Audience(s, topic)));
            && (forall e :: e in s.pending ==> (e in s'.pending <==> !GivesWay(s, m, e)))
            && s'.coalesced == s.coalesced + (if Supersedes(s.config, m).Some?
                                                 && Has(s.pending, Supersedes(s.config, m).value) then 1 else 0)
            && s'.evicted - s.evicted + (s'.coalesced - s.coalesced) + |s'.pending|
               == |s.pending| + (if EntryOf(s.config, m, s.receipts).Some? then 1 else 0)
  {
    var tick, m := s.(receipts := s.receipts + 1), Message(topic, payload, Audience(s, topic));
    var entry := EntryOf(s.config, m, s.receipts);
    DatesBelow(s);
    TickKeeps(s);
    ArrivalShape(s, topic, payload);
    hide Sound, Audience, Room, Admitting, Draining, Popped, Without, Received, Has, Receive, Supersedes, EntryOf,
      InOrder;
    if entry.Some? {
      AdmittedCounts(tick, entry.value);
      forall e | e in s.pending
        ensures e in Receive(s, topic, payload).pending <==> !GivesWay(s, m, e)
      {
        AdmittedRoom(tick, entry.value, e);
      }
    } else if Supersedes(s.config, m).Some? {
      var identity := Supersedes(s.config, m).value;
      WithoutMembers(s.pending, identity, s.receipts);
      PoppedCounts(tick, identity);
    }
  }

  lemma ArrivalShape(s: Ingress, topic: string, payload: Payload)
    ensures var (tick, m) := (s.(receipts := s.receipts + 1), Message(topic, payload, Audience(s, topic)));
            var (s', entry) := (Receive(s, topic, payload), EntryOf(s.config, m, s.receipts));
            var identity := Supersedes(s.config, m);
            if entry.Some? then
              && s' == Draining(Admitting(tick, entry.value)) && identity == Some(entry.value.identity)
              && |entry.value.payload| <= s.config.maximumPayload && entry.value.receipt == s.receipts
            else if identity.Some? then
              var popped := Popped(tick, identity.value);
              s'.pending == popped.pending && s'.coalesced == popped.coalesced && s'.evicted == popped.evicted
            else
              s'.pending == s.pending && s'.coalesced == s.coalesced && s'.evicted == s.evicted
  {
    hide Audience, Admitting, Draining, Popped, AnyFifo;
  }

  lemma PoppedCounts(s: Ingress, identity: Identity)
    ensures var s' := Popped(s, identity);
            && s'.pending == Without(s.pending, identity) && s'.evicted == s.evicted
            && s'.coalesced == s.coalesced + (if Has(s.pending, identity) then 1 else 0)
            && |s'.pending| + (s'.coalesced - s.coalesced) == |s.pending|
  {
  }

  lemma AdmittedCounts(s: Ingress, entry: Entry)
    ensures var s' := Draining(Admitting(s, entry));
            && s'.pending == Admitting(s, entry).pending
            && s'.coalesced == s.coalesced + (if Has(s.pending, entry.identity) then 1 else 0)
            && s'.evicted - s.evicted + (s'.coalesced - s.coalesced) + |s'.pending| == |s.pending| + 1
  {
    PoppedCounts(s, entry.identity);
    hide Popped, Trimmed, Without, Has;
  }

  /** Whatever an arrival has displaced in a run gave way, to a message of its identity or for lack of room. */
  lemma {:induction false} DisplacedForCause(init: Ingress, actions: seq<Action>, r: nat) returns (k: nat, e: Entry)
    requires Sound(init) && Legal(init, actions) && r in Displaced(init, actions)
    ensures k < |actions| && Legal(init, actions[..k]) && actions[k].Arrival?
    ensures var s := Execute(init, actions[..k]);
            && e in s.pending && e.receipt == r
            && GivesWay(s, Message(actions[k].topic, actions[k].payload, Audience(s, actions[k].topic)), e)
  {
    var front, a := actions[..|actions| - 1], actions[|actions| - 1];
    if r in Displaced(init, front) {
      k, e := DisplacedForCause(init, front, r);
      assert front[..k] == actions[..k];
    } else {
      var s := Execute(init, front);
      k := |front|;
      e :| e in s.pending && e.receipt == r;
      RunKeeps(init, front);
      hide Sound, GivesWay, Receive, Audience;
      assert e !in Step(s, a).pending;
      ArrivalTakes(s, a.topic, a.payload);
    }
  }

  lemma WakeTakesOldest(s: Ingress, task: nat)
    requires Sound(s) && s.task == Some(task) && s.pending != []
    ensures Enabled(s, Wake(task))
    ensures var s' := Step(s, Wake(task));
            s'.pending == s.pending[1..] && s'.task == s.task && s'.live == s.live && s'.cancelled == s.cancelled
  {
    hide InOrder, AllAccepted, Bounded, Fresh, Dated, Behind;
  }

  /** The drain task, resumed often enough, empties the index from its oldest value on. */
  lemma {:induction false} DrainsDry(s: Ingress, task: nat, n: nat)
    requires Sound(s) && s.task == Some(task) && n <= |s.pending|
    ensures Legal(s, seq(n, _ => Wake(task)))
    ensures Execute(s, seq(n, _ => Wake(task))).pending == s.pending[n..]
    ensures Execute(s, seq(n, _ => Wake(task))).task == s.task
  {
    var wakes := seq(n, _ => Wake(task));
    if n > 0 {
      var front := seq(n - 1, _ => Wake(task));
      assert wakes[..|wakes| - 1] == front;
      DrainsDry(s, task, n - 1);
      RunKeeps(s, front);
      WakeTakesOldest(Execute(s, front), task);
      hide Sound, Step;
    } else {
      assert wakes == [];
    }
  }

  /** After one resumption more the drain task has ended, and no other runs on. */
  lemma DrainEnds(s: Ingress, task: nat)
    requires Sound(s) && s.task == Some(task)
    ensures Legal(s, seq(|s.pending| + 1, _ => Wake(task)))
    ensures var s' := Execute(s, seq(|s.pending| + 1, _ => Wake(task)));
            s'.pending == [] && s'.task == None && task !in s'.live && forall t :: t in s'.live ==> t in s'.cancelled
  {
    var wakes, front := seq(|s.pending| + 1, _ => Wake(task)), seq(|s.pending|, _ => Wake(task));
    assert wakes[..|wakes| - 1] == front;
    DrainsDry(s, task, |s.pending|);
    RunKeeps(s, front);
    var last := Execute(s, front);
    assert last.pending == [];
    StepKeeps(last, Wake(task));
    TasksOf(last);
    TasksOf(Step(last, Wake(task)));
    hide Sound;
  }

  lemma TasksOf(s: Ingress)
    requires Sound(s)
    ensures forall t :: t in s.live && t !in s.cancelled <==> s.task == Some(t)
  {
    hide InOrder, AllAccepted, Bounded, Fresh, Dated, Behind;
  }

  /** When a watcher leaves nothing pending, every drain task has been told to stop. */
  lemma LeaveStopsIdleDrain(s: Ingress, watcher: nat)
    requires Sound(s) && Step(s, Leave(watcher)).pending == []
    ensures var s' := Step(s, Leave(watcher));
            s'.task == None && forall t :: t in s'.live ==> t in s'.cancelled
  {
    StepKeeps(s, Leave(watcher));
    TasksOf(Step(s, Leave(watcher)));
    hide Sound;
  }

  lemma {:induction false} WatcherStays(init: Ingress, actions: seq<Action>, w: Watcher)
    requires Legal(init, actions) && w in init.watchers && !init.closed
    requires forall a :: a in actions ==> a != Leave(w.id) && a != Shutdown
    ensures w in Execute(init, actions).watchers && !Execute(init, actions).closed
  {
    if actions != [] {
      var front, a := actions[..|actions| - 1], actions[|actions| - 1];
      assert a in actions && forall b :: b in front ==> b in actions;
      WatcherStays(init, front, w);
      StaysOneStep(Execute(init, front), a, w);
      hide Step;
    }
  }

  lemma StaysOneStep(s: Ingress, a: Action, w: Watcher)
    requires Enabled(s, a) && w in s.watchers && !s.closed && a != Leave(w.id) && a != Shutdown
    ensures w in Step(s, a).watchers && !Step(s, a).closed
  {
    hide Without, Find, Trimmed, TotalBytes, Detached, Matching;
  }

  /**
   A watcher that an open service has attached is concerned by every message that its filters let through, and by no
   other, until it leaves or the service closes; whoever else comes and goes.
   */
  lemma WatcherIsConcerned(config: Config, before: seq<Action>, policy: Policy, categories: set<Category>,
                           integrations: set<string>, after: seq<Action>, topic: string)
    requires ValidConfig(config) && Legal(NewIngress(config), before) && !Execute(NewIngress(config), before).closed
    requires var init := Step(Execute(NewIngress(config), before), Watch(policy, categories, integrations));
             Legal(init, after)
    requires forall a :: a in after ==> a != Leave(Execute(NewIngress(config), before).created) && a != Shutdown
    ensures var s := Execute(NewIngress(config), before);
            var w := Watcher(s.created, policy, categories, integrations);
            var s' := Execute(Step(s, Watch(policy, categories, integrations)), after);
            && w in s'.watchers
            && (w in Audience(s', topic) <==>
                  match config.codec.route(topic)
                  case None => false
                  case Some(route) => (categories == {} || route.category in categories)
                                      && (integrations == {} || route.integration in integrations))
  {
    var s := Execute(NewIngress(config), before);
    var init := Step(s, Watch(policy, categories, integrations));
    ConfigFixed(NewIngress(config), before);
    ConfigFixed(init, after);
    WatcherStays(init, after, Watcher(s.created, policy, categories, integrations));
    hide Legal, Execute;
  }

  /** A service that has been shut down stays closed, holds nothing, concerns no one and tells no one any more. */
  lemma {:induction false} ClosedForGood(init: Ingress, actions: seq<Action>)
    requires Sound(init) && Legal(Step(init, Shutdown), actions)
    ensures var s := Execute(Step(init, Shutdown), actions);
            && Sound(s) && s.closed && s.watchers == [] && s.pending == [] && s.log == init.log
            && s.task == None && (forall t :: t in s.live ==> t in s.cancelled)
  {
    var closed := Step(init, Shutdown);
    StepKeeps(init, Shutdown);
    if actions == [] {
      TasksOf(closed);
      ClosedHoldsNothing(closed);
      hide Sound;
    } else {
      var front, a := actions[..|actions| - 1], actions[|actions| - 1];
      ClosedForGood(init, front);
      var s := Execute(closed, front);
      StepKeeps(s, a);
      hide Sound;
      ClosedStep(s, a);
      TasksOf(Step(s, a));
      hide Step;
    }
  }

  lemma ClosedHoldsNothing(s: Ingress)
    requires Sound(s) && s.closed
    ensures s.watchers == [] && s.pending == [] && s.task == None
  {
  }

  lemma ClosedStep(s: Ingress, a: Action)
    requires s.closed && s.watchers == [] && s.pending == [] && s.task == None && Enabled(s, a)
    ensures var s' := Step(s, a);
            s'.closed && s'.watchers == [] && s'.pending == [] && s'.log == s.log && s'.task == None
  {
  }
}
