/**
 The life of the subscriptions behind a watch: opened one filter at a time, kept while the watch is wanted, and
 unsubscribed by whoever ends it: the opening watch itself, its stream's close task, or the closing of the service.

 Each task runs without interruption up to its next await, so a run is an interleaving of the segments between
 awaits. The lifecycle lock is never held across an await and does not show; the cleanup lock of a watch is.
 */
module WatchLifecycle {
  import opened Common

  datatype Kind = Entities | Locations

  datatype Party = Opener | Closer

  /** A cleanup that has taken its watcher off the service's list: it waits for the lock, or holds it. */
  datatype Cleanup = Waiting | Unsubscribing(handle: nat)

  datatype Closing = Unstarted | Scheduled | Cleaning(cleanup: Cleanup) | Finished

  /** Where the task that opens a watch stands. */
  datatype Progress =
    | Refused
    | Opening
    | Holding(handle: nat)
    | Discarding(handle: nat)
    | AwaitingClose
    | Failing(cleanup: Cleanup)
    | AwaitingFinalClose
    | Raised
    | Returned

  /**
   A watch. The n-th handle it is given is named n; calls lists the handles for which unsubscribe was called, and
   a handle leaves the list of handles only when its call has returned.
   */
  datatype Watch = Watch(
    kind: Kind,
    filters: nat,
    given: nat,
    progress: Progress,
    closing: Closing,
    handles: seq<nat>,
    lock: Option<Party>,
    calls: seq<nat>)
  {
    /** The stream is closed as soon as its close task exists. */
    predicate StreamClosed() {
      closing != Unstarted
    }

    predicate AtRest() {
      progress.Refused? || progress.Raised? || progress.Returned?
    }

    function Request(): Watch {
      if closing == Unstarted then this.(closing := Scheduled) else this
    }

    /** The cleanup of a party. */
    function Work(party: Party): Option<Cleanup> {
      if party.Opener? then
        if progress.Failing? then Some(progress.cleanup) else None
      else if closing.Cleaning? then Some(closing.cleanup)
      else None
    }

    function WithWork(party: Party, cleanup: Cleanup): Watch {
      if party.Opener? then this.(progress := Failing(cleanup)) else this.(closing := Cleaning(cleanup))
    }

    /** A cleanup that has emptied the list: the close task ends, the opener goes on to close the stream. */
    function Cleaned(party: Party): Watch {
      var free := this.(lock := None);
      if party.Opener? then free.(progress := AwaitingFinalClose).Request() else free.(closing := Finished)
    }

    /** Unsubscribe the last handle, or finish when there is none. */
    function NextCall(party: Party): Watch {
      if handles == [] then Cleaned(party)
      else
        var handle := handles[|handles| - 1];
        this.(lock := Some(party), calls := calls + [handle]).WithWork(party, Unsubscribing(handle))
    }

    /** After a handle is retained: the next filter, or the decision whether the watch is accepted. */
    function Proceed(serviceClosed: bool, listed: bool): Watch {
      if given < filters then this.(progress := Opening)
      else if !serviceClosed && !StreamClosed() && (kind == Entities ==> listed) then this.(progress := Returned)
      else this.(progress := AwaitingClose).Request()
    }
  }

  datatype Event =
    | Subscribed
    | SubscribeFailed
    | Decided
    | Discarded
    | CloseAwaited
    | CleanupBegun
    | Locked(party: Party)
    | Unsubscribed(party: Party)
    | FinalCloseAwaited
    | RestoreFailed
    | Dismissed

  predicate Ready(w: Watch, e: Event) {
    match e
    case Subscribed => w.progress.Opening?
    case SubscribeFailed => w.progress.Opening?
    case Decided => w.progress.Holding? && w.lock == None
    case Discarded => w.progress.Discarding?
    case CloseAwaited => w.progress.AwaitingClose? && w.closing == Finished
    case CleanupBegun => w.closing == Scheduled
    case Locked(party) => w.Work(party) == Some(Waiting) && w.lock == None
    case Unsubscribed(party) => w.Work(party).Some? && w.Work(party).value.Unsubscribing? && w.handles != []
    case FinalCloseAwaited => w.progress.AwaitingFinalClose? && w.closing == Finished
    case RestoreFailed => !w.progress.Refused?
    case Dismissed => w.progress.Returned?
  }

  /** The events at which a cleanup starts: the watcher leaves the service's list. */
  predicate Leaves(e: Event) {
    e.SubscribeFailed? || e.Discarded? || e.CloseAwaited? || e.CleanupBegun?
  }

  function After(w: Watch, e: Event, serviceClosed: bool, listed: bool): Watch
    requires Ready(w, e)
  {
    match e
    case Subscribed => w.(progress := Holding(w.given), given := w.given + 1)
    case SubscribeFailed => w.(progress := Failing(Waiting))
    case Decided =>
      var handle := w.progress.handle;
      if serviceClosed || w.StreamClosed() then w.(progress := Discarding(handle), calls := w.calls + [handle])
      else w.(handles := w.handles + [handle]).Proceed(serviceClosed, listed)
    case Discarded => w.(progress := Failing(Waiting))
    case CloseAwaited => w.(progress := Failing(Waiting))
    case CleanupBegun => w.(closing := Cleaning(Waiting))
    case Locked(party) => w.NextCall(party)
    case Unsubscribed(party) => w.(handles := w.handles[..|w.handles| - 1]).NextCall(party)
    case FinalCloseAwaited => w.(progress := Raised)
    case RestoreFailed => w.Request()
    case Dismissed => w.Request()
  }

  /** The closing of the service works through the watchers it took, one after the other. */
  datatype Closer = Idle | Working(taken: seq<nat>, next: nat, asked: bool) | Done(taken: seq<nat>)

  datatype Service = Service(
    watches: seq<Watch>,
    entityWatchers: seq<nat>,
    locationWatchers: seq<nat>,
    closer: Closer)
  {
    predicate Closed() {
      closer != Idle
    }

    predicate Listed(id: nat) {
      id in entityWatchers || id in locationWatchers
    }
  }

  const NEW_SERVICE := Service([], [], [], Idle)

  datatype Action =
    | Open(kind: Kind, filters: Option<nat>)
    | On(id: nat, event: Event)
    | CloseService
    | Closing

  predicate Enabled(s: Service, a: Action) {
    match a
    // The filters of a watch are never empty; building them may fail.
    case Open(kind, filters) => filters.Some? ==> 1 <= filters.value
    case On(id, event) => id < |s.watches| && Ready(s.watches[id], event)
    case CloseService => true
    case Closing =>
      s.closer.Working? &&
      (s.closer.next < |s.closer.taken| ==>
         var id := s.closer.taken[s.closer.next];
         id < |s.watches| && (s.closer.asked ==> s.watches[id].closing == Finished))
  }

  function Removed(ids: seq<nat>, id: nat): (r: seq<nat>)
    ensures forall i :: i in r <==> i in ids && i != id
  {
    if ids == [] then [] else (if ids[0] == id then [] else [ids[0]]) + Removed(ids[1..], id)
  }

  function NewWatch(kind: Kind, filters: nat, progress: Progress): Watch {
    Watch(kind, filters, 0, progress, Unstarted, [], None, [])
  }

  /** An entity watch is listed before its first subscription, a location watch when it is accepted. */
  function Opened(s: Service, kind: Kind, filters: Option<nat>): Service {
    if s.Closed() then s.(watches := s.watches + [NewWatch(kind, 0, Refused)])
    else
      var watch := if filters.Some? then NewWatch(kind, filters.value, Opening) else NewWatch(kind, 0, Refused);
      s.(watches := s.watches + [watch],
         entityWatchers := if kind == Entities then s.entityWatchers + [|s.watches|] else s.entityWatchers)
  }

  function Moved(s: Service, id: nat, e: Event): Service
    requires id < |s.watches| && Ready(s.watches[id], e)
  {
    var w := s.watches[id];
    var w' := After(w, e, s.Closed(), id in s.entityWatchers);
    var s' := s.(watches := s.watches[id := w']);
    if Leaves(e) then
      if w.kind == Entities then s'.(entityWatchers := Removed(s.entityWatchers, id))
      else s'.(locationWatchers := Removed(s.locationWatchers, id))
    else if e == Decided && w'.progress == Returned && w.kind == Locations then
      s'.(locationWatchers := s.locationWatchers + [id])
    else s'
  }

  function Shut(s: Service): Service {
    if s.Closed() then s
    else s.(entityWatchers := [], locationWatchers := [],
            closer := Working(s.entityWatchers + s.locationWatchers, 0, false))
  }

  /** Ask the next stream to close, or go on when it has closed. */
  function CloserStep(s: Service): Service
    requires Enabled(s, Closing)
  {
    var taken, next := s.closer.taken, s.closer.next;
    if |taken| <= next then s.(closer := Done(taken))
    else if s.closer.asked then s.(closer := Working(taken, next + 1, false))
    else
      s.(watches := s.watches[taken[next] := s.watches[taken[next]].Request()], closer := Working(taken, next, true))
  }

  function Step(s: Service, a: Action): Service
    requires Enabled(s, a)
  {
    match a
    case Open(kind, filters) => Opened(s, kind, filters)
    case On(id, event) => Moved(s, id, event)
    case CloseService => Shut(s)
    case Closing => CloserStep(s)
  }

  predicate Legal(actions: seq<Action>)
    decreases |actions|, 0
  {
    actions == [] ||
    (var front := actions[..|actions| - 1];
     Legal(front) && Enabled(Execute(front), actions[|actions| - 1]))
  }

  function Execute(actions: seq<Action>): Service
    requires Legal(actions)
    decreases |actions|, 1
  {
    if actions == [] then NEW_SERVICE else Step(Execute(actions[..|actions| - 1]), actions[|actions| - 1])
  }

  // ----- what every run keeps: one watch -----

  /** The handles whose unsubscription has not been called: all in the list, but for the one being unsubscribed. */
  function Uncalled(w: Watch): int {
    if w.lock.Some? then |w.handles| - 1 else |w.handles|
  }

  predicate InHand(w: Watch, handle: int) {
    w.progress.Holding? && w.progress.handle == handle
  }

  /** Every handle given is in the list, in hand, or called, and is called once. */
  ghost predicate Accounted(w: Watch, uncalled: int) {
    && w.given <= w.filters
    && (forall i :: 0 <= i < |w.handles| ==> w.handles[i] == i)
    && |w.handles| <= w.given
    && (w.progress.Holding? ==> w.progress.handle == w.given - 1 && |w.handles| < w.given)
    && (forall i, j :: 0 <= i < j < |w.calls| ==> w.calls[i] != w.calls[j])
    && (forall k: int :: k in w.calls <==> uncalled <= k < w.given && !InHand(w, k))
  }

  ghost predicate Ledger(w: Watch) {
    Accounted(w, Uncalled(w))
  }

  predicate Held(w: Watch, party: Party) {
    w.Work(party).Some? && w.Work(party).value.Unsubscribing?
  }

  /** The lock is held by the cleanup that is unsubscribing the last handle of the list. */
  ghost predicate Locking(w: Watch) {
    && (w.lock == Some(Opener) <==> Held(w, Opener))
    && (w.lock == Some(Closer) <==> Held(w, Closer))
    && (w.lock.Some? ==> w.handles != [] && w.Work(w.lock.value).value.handle == w.handles[|w.handles| - 1])
  }

  predicate Wanted(w: Watch) {
    && (w.progress.Opening? || w.progress.Holding? || w.progress.Returned?)
    && (w.closing.Unstarted? || w.closing.Scheduled? || w.closing == Cleaning(Waiting))
  }

  /** What the progress of the opener and of the close task say of the list. */
  ghost predicate Staged(w: Watch) {
    && (w.closing == Finished ==> w.handles == [])
    && (w.progress.AwaitingFinalClose? || w.progress.Raised? ==> w.handles == [])
    && (w.progress.AwaitingFinalClose? || w.progress.AwaitingClose? ==> w.StreamClosed())
    && (w.progress.Raised? ==> w.closing == Finished)
    && (w.progress.Refused? ==> w.given == 0)
    && (w.progress.Opening? ==> w.given < w.filters)
    && (w.progress.Returned? ==> w.given == w.filters)
    && (Wanted(w) ==> |w.handles| == w.given - if w.progress.Holding? then 1 else 0)
  }

  ghost predicate Kept(w: Watch) {
    Ledger(w) && Locking(w) && Staged(w)
  }

  lemma NextCallKeeps(w: Watch, party: Party)
    requires Accounted(w, |w.handles|) && Staged(w) && w.Work(party).Some?
    requires !Held(w, if party == Opener then Closer else Opener)
    ensures Kept(w.NextCall(party))
  {
    if w.handles != [] {
      var w' := w.NextCall(party);
      assert w.handles[|w.handles| - 1] == |w.handles| - 1;
      assert w'.calls == w.calls + [|w.handles| - 1];
      assert |w.handles| - 1 !in w.calls;
    }
  }

  lemma DiscardedLedger(w: Watch)
    requires Ledger(w) && w.progress.Holding?
    ensures Ledger(w.(progress := Discarding(w.progress.handle), calls := w.calls + [w.progress.handle]))
  {
    var handle := w.progress.handle;
    assert handle !in w.calls;
    assert forall k: int :: k in w.calls + [handle] <==> k in w.calls || k == handle;
  }

  lemma RetainedLedger(w: Watch, progress: Progress)
    requires Ledger(w) && Wanted(w) && Staged(w) && w.progress.Holding? && w.lock == None && !progress.Holding?
    ensures Ledger(w.(handles := w.handles + [w.progress.handle], progress := progress))
  {
  }

  lemma DecidedKeeps(w: Watch, serviceClosed: bool, listed: bool)
    requires Kept(w) && Ready(w, Decided)
    ensures Kept(After(w, Decided, serviceClosed, listed))
  {
    DiscardedLedger(w);
    if Wanted(w) {
      var retained := w.(handles := w.handles + [w.progress.handle]);
      RetainedLedger(w, retained.Proceed(serviceClosed, listed).progress);
    }
    hide Accounted;
  }

  lemma LockedKeeps(w: Watch, party: Party)
    requires Kept(w) && Ready(w, Locked(party))
    ensures Kept(w.NextCall(party))
  {
    hide Accounted, Kept;
    KeptParts(w);
    NextCallKeeps(w, party);
  }

  lemma KeptParts(w: Watch)
    requires Kept(w)
    ensures Accounted(w, Uncalled(w)) && Locking(w) && Staged(w)
  {
  }

  lemma UnsubscribedKeeps(w: Watch, party: Party)
    requires Kept(w) && Ready(w, Unsubscribed(party))
    ensures Kept(w.(handles := w.handles[..|w.handles| - 1]).NextCall(party))
  {
    NextCallKeeps(w.(handles := w.handles[..|w.handles| - 1]), party);
  }

  /** Events that move the opener on and leave the handles as they are. */
  lemma OpenerKeeps(w: Watch, e: Event, serviceClosed: bool, listed: bool)
    requires Kept(w) && Ready(w, e)
    requires e.Subscribed? || e.SubscribeFailed? || e.Discarded? || e.CloseAwaited? || e.FinalCloseAwaited?
    ensures Kept(After(w, e, serviceClosed, listed))
  {
  }

  /** Events of the stream. */
  lemma StreamKeeps(w: Watch, e: Event, serviceClosed: bool, listed: bool)
    requires Kept(w) && Ready(w, e) && (e.CleanupBegun? || e.RestoreFailed? || e.Dismissed?)
    ensures Kept(After(w, e, serviceClosed, listed))
  {
  }

  lemma AfterKeeps(w: Watch, e: Event, serviceClosed: bool, listed: bool)
    requires Kept(w) && Ready(w, e)
    ensures Kept(After(w, e, serviceClosed, listed))
  {
    hide Kept;
    match e
    case Locked(party) => LockedKeeps(w, party);
    case Unsubscribed(party) => UnsubscribedKeeps(w, party);
    case Decided => DecidedKeeps(w, serviceClosed, listed);
    case CleanupBegun => StreamKeeps(w, e, serviceClosed, listed);
    case RestoreFailed => StreamKeeps(w, e, serviceClosed, listed);
    case Dismissed => StreamKeeps(w, e, serviceClosed, listed);
    case _ => OpenerKeeps(w, e, serviceClosed, listed);
  }

  /** What has closed stays closed; a watch is returned only while the service is open, and stays returned. */
  ghost predicate Onward(w: Watch, w': Watch, e: Event, serviceClosed: bool, listed: bool) {
    && w'.kind == w.kind
    && (w.StreamClosed() ==> w'.StreamClosed())
    && (w.closing == Finished ==> w'.closing == Finished)
    && (w.progress.Returned? ==> w'.progress.Returned?)
    && (w'.progress.Returned? && !w.progress.Returned? ==>
          e == Decided && !serviceClosed && (w.kind == Entities ==> listed))
    && (Leaves(e) && w'.progress.Returned? ==> w'.StreamClosed())
  }

  lemma AfterOnward(w: Watch, e: Event, serviceClosed: bool, listed: bool)
    requires Ready(w, e)
    ensures Onward(w, After(w, e, serviceClosed, listed), e, serviceClosed, listed)
  {
  }

  // ----- what every run keeps: the service -----

  predicate Active(w: Watch) {
    w.progress.Returned? && !w.StreamClosed()
  }

  ghost predicate AllKept(watches: seq<Watch>) {
    forall id :: 0 <= id < |watches| ==> Kept(watches[id])
  }

  ghost predicate Known(ids: seq<nat>, watches: seq<Watch>) {
    forall id :: id in ids ==> id < |watches|
  }

  predicate HasClosed(watches: seq<Watch>, id: nat) {
    id < |watches| && watches[id].closing == Finished
  }

  predicate IsClosing(watches: seq<Watch>, id: nat) {
    id < |watches| && watches[id].StreamClosed()
  }

  /** While the service is open every active watch is on a list. */
  ghost predicate Enlisted(s: Service) {
    !s.Closed() ==> forall id :: 0 <= id < |s.watches| && Active(s.watches[id]) ==> s.Listed(id)
  }

  /** Everything taken so far has closed, and every active watch is still to be closed. */
  ghost predicate Sweeping(watches: seq<Watch>, taken: seq<nat>, next: nat) {
    && next <= |taken|
    && Known(taken, watches)
    && (forall k :: 0 <= k < next ==> HasClosed(watches, taken[k]))
    && (forall id :: 0 <= id < |watches| && Active(watches[id]) ==> id in taken[next..])
  }

  ghost predicate Swept(s: Service) {
    match s.closer
    case Idle => true
    case Working(taken, next, asked) =>
      Sweeping(s.watches, taken, next) && (asked ==> next < |taken| && IsClosing(s.watches, taken[next]))
    case Done(taken) => Sweeping(s.watches, taken, |taken|)
  }

  ghost predicate Sound(s: Service) {
    && AllKept(s.watches)
    && Known(s.entityWatchers, s.watches) && Known(s.locationWatchers, s.watches)
    && (s.Closed() ==> s.entityWatchers == [] && s.locationWatchers == [])
    && Enlisted(s)
    && Swept(s)
  }

  /** Watches change in place: a stream that is closed or has finished closing stays so, and no watch becomes active. */
  ghost predicate Quieter(watches: seq<Watch>, watches': seq<Watch>) {
    && |watches| == |watches'|
    && (forall id :: 0 <= id < |watches| ==>
          && (watches[id].StreamClosed() ==> watches'[id].StreamClosed())
          && (watches[id].closing == Finished ==> watches'[id].closing == Finished)
          && (Active(watches'[id]) ==> Active(watches[id])))
  }

  lemma QuieterSwept(s: Service, watches: seq<Watch>)
    requires Swept(s) && Quieter(s.watches, watches)
    ensures Swept(s.(watches := watches))
  {
  }

  lemma AddedSwept(s: Service, w: Watch)
    requires Swept(s) && !Active(w)
    ensures Swept(s.(watches := s.watches + [w]))
  {
  }

  lemma OpenedKeeps(s: Service, kind: Kind, filters: Option<nat>)
    requires Sound(s) && Enabled(s, Open(kind, filters))
    ensures Sound(Opened(s, kind, filters))
  {
    var s' := Opened(s, kind, filters);
    var w := s'.watches[|s.watches|];
    assert Kept(w) && !Active(w);
    AddedSwept(s, w);
    hide Kept, Active;
  }

  lemma MovedEnlisted(s: Service, id: nat, e: Event)
    requires Sound(s) && Enabled(s, On(id, e))
    ensures Enlisted(Moved(s, id, e))
  {
    AfterOnward(s.watches[id], e, s.Closed(), id in s.entityWatchers);
    hide AllKept, Swept, After, Ready;
  }

  lemma MovedSwept(s: Service, id: nat, e: Event)
    requires Swept(s) && Enabled(s, On(id, e))
    ensures Swept(Moved(s, id, e))
  {
    AfterOnward(s.watches[id], e, s.Closed(), id in s.entityWatchers);
    hide After, Ready;
    if s.Closed() {
      QuieterSwept(s, Moved(s, id, e).watches);
    }
  }

  lemma MovedKept(s: Service, id: nat, e: Event)
    requires AllKept(s.watches) && Enabled(s, On(id, e))
    ensures AllKept(Moved(s, id, e).watches) && |Moved(s, id, e).watches| == |s.watches|
  {
    AfterKeeps(s.watches[id], e, s.Closed(), id in s.entityWatchers);
    hide Kept, After, Ready;
  }

  lemma MovedKeeps(s: Service, id: nat, e: Event)
    requires Sound(s) && Enabled(s, On(id, e))
    ensures Sound(Moved(s, id, e))
  {
    MovedKept(s, id, e);
    MovedEnlisted(s, id, e);
    MovedSwept(s, id, e);
    AfterOnward(s.watches[id], e, s.Closed(), id in s.entityWatchers);
    hide AllKept, Enlisted, Swept, After, Ready;
  }

  lemma ShutKeeps(s: Service)
    requires Sound(s)
    ensures Sound(Shut(s))
  {
    hide Kept;
  }

  lemma RequestKeeps(w: Watch)
    requires Kept(w)
    ensures Kept(w.Request())
  {
  }

  lemma CloserStepSwept(s: Service)
    requires Swept(s) && Enabled(s, Closing)
    ensures Swept(CloserStep(s))
  {
    var taken, next := s.closer.taken, s.closer.next;
    if next < |taken| {
      assert taken[next..] == [taken[next]] + taken[next + 1..];
      if !s.closer.asked {
        QuieterSwept(s, CloserStep(s).watches);
      }
    }
  }

  lemma CloserStepKept(s: Service)
    requires AllKept(s.watches) && Enabled(s, Closing)
    ensures AllKept(CloserStep(s).watches) && |CloserStep(s).watches| == |s.watches|
  {
    var taken, next := s.closer.taken, s.closer.next;
    if next < |taken| {
      RequestKeeps(s.watches[taken[next]]);
    }
    hide Kept;
  }

  lemma CloserStepKeeps(s: Service)
    requires Sound(s) && Enabled(s, Closing)
    ensures Sound(CloserStep(s))
  {
    CloserStepSwept(s);
    CloserStepKept(s);
    hide Swept, AllKept;
  }

  lemma StepKeeps(s: Service, a: Action)
    requires Sound(s) && Enabled(s, a)
    ensures Sound(Step(s, a))
  {
    hide Sound;
    match a
    case Open(kind, filters) => OpenedKeeps(s, kind, filters);
    case On(id, event) => MovedKeeps(s, id, event);
    case CloseService => ShutKeeps(s);
    case Closing => CloserStepKeeps(s);
  }

  lemma {:induction false} EveryRun(actions: seq<Action>)
    requires Legal(actions)
    ensures Sound(Execute(actions))
  {
    if actions != [] {
      EveryRun(actions[..|actions| - 1]);
      StepKeeps(Execute(actions[..|actions| - 1]), actions[|actions| - 1]);
      hide Step;
    }
  }

  // ----- what the service promises -----

  /** Every handle given has been unsubscribed, and none twice. */
  ghost predicate Released(w: Watch) {
    && (forall k: int :: k in w.calls <==> 0 <= k < w.given)
    && (forall i, j :: 0 <= i < j < |w.calls| ==> w.calls[i] != w.calls[j])
  }

  lemma UnsubscribedAtMostOnce(actions: seq<Action>, id: nat, i: nat, j: nat)
    requires Legal(actions) && id < |Execute(actions).watches|
    requires i < j < |Execute(actions).watches[id].calls|
    ensures var w := Execute(actions).watches[id];
            w.calls[i] != w.calls[j] && w.calls[i] < w.given && w.calls[j] < w.given
  {
    EveryRun(actions);
    var w := Execute(actions).watches[id];
    assert Kept(w);
    assert w.calls[i] in w.calls && w.calls[j] in w.calls;
  }

  /** A watch that has raised, and a returned one whose stream has finished closing, leak nothing. */
  lemma EndedWatchLeaksNothing(actions: seq<Action>, id: nat)
    requires Legal(actions) && id < |Execute(actions).watches|
    requires var w := Execute(actions).watches[id];
             w.progress.Raised? || (w.progress.Returned? && w.closing == Finished)
    ensures Released(Execute(actions).watches[id])
  {
    EveryRun(actions);
    assert Kept(Execute(actions).watches[id]);
  }

  /** When a stream has finished closing, only a handle that the opener has just been given is still subscribed. */
  lemma FinishedStreamHoldsOne(actions: seq<Action>, id: nat, handle: nat)
    requires Legal(actions) && id < |Execute(actions).watches|
    requires var w := Execute(actions).watches[id];
             w.closing == Finished && handle < w.given && handle !in w.calls
    ensures Execute(actions).watches[id].progress == Holding(handle)
  {
    EveryRun(actions);
    assert Kept(Execute(actions).watches[id]);
  }

  /** A returned watch whose stream is open has every filter subscribed, and nothing of it was unsubscribed. */
  lemma OpenWatchKeepsItsHandles(actions: seq<Action>, id: nat)
    requires Legal(actions) && id < |Execute(actions).watches| && Active(Execute(actions).watches[id])
    ensures var w := Execute(actions).watches[id];
            w.given == w.filters && w.calls == [] && w.handles == Range(0, w.filters)
    ensures !Execute(actions).Closed() ==> Execute(actions).Listed(id)
  {
    EveryRun(actions);
    assert Kept(Execute(actions).watches[id]);
    hide Execute, Legal, Kept;
    ActiveUntouched(Execute(actions).watches[id]);
  }

  lemma ActiveUntouched(w: Watch)
    requires Kept(w) && Active(w)
    ensures w.given == w.filters && w.calls == [] && w.handles == Range(0, w.filters)
  {
    SomeElement(w.calls);
  }

  lemma SomeElement(ids: seq<nat>)
    ensures ids == [] || exists k :: k in ids
  {
    if ids != [] {
      assert ids[0] in ids;
    }
  }

  /** When close has returned no stream of a returned watch is open, and those it took have finished closing. */
  lemma ServiceCloseClosesStreams(actions: seq<Action>)
    requires Legal(actions) && Execute(actions).closer.Done?
    ensures var s := Execute(actions);
            && (forall id :: 0 <= id < |s.watches| && s.watches[id].progress.Returned? ==> s.watches[id].StreamClosed())
            && (forall id :: id in s.closer.taken ==> id < |s.watches| && s.watches[id].closing == Finished)
  {
    EveryRun(actions);
    var s := Execute(actions);
    assert Sweeping(s.watches, s.closer.taken, |s.closer.taken|);
    forall id | id in s.closer.taken
      ensures id < |s.watches| && s.watches[id].closing == Finished
    {
      var k :| 0 <= k < |s.closer.taken| && s.closer.taken[k] == id;
      assert HasClosed(s.watches, s.closer.taken[k]);
    }
    assert forall id :: 0 <= id < |s.watches| ==> !Active(s.watches[id]);
  }

  /** Once the close of the service has begun it never takes a watch back, and no watch is returned any more. */
  lemma ClosedServiceReturnsNoWatch(s: Service, a: Action, id: nat)
    requires Sound(s) && s.Closed() && Enabled(s, a) && id < |Step(s, a).watches|
    requires Step(s, a).watches[id].progress.Returned?
    ensures Step(s, a).Closed() && id < |s.watches| && s.watches[id].progress.Returned?
  {
    if a.On? {
      AfterOnward(s.watches[a.id], a.event, true, a.id in s.entityWatchers);
    }
  }

  // ----- a watch whose filters cannot be built -----

  /** A refused entity watch that is on the list, never had a handle, and that nobody has asked to close. */
  predicate RefusedButListed(s: Service, id: nat) {
    && id < |s.watches| && id in s.entityWatchers
    && s.watches[id].progress.Refused? && s.watches[id].closing == Unstarted
    && s.watches[id].given == 0 && s.watches[id].handles == []
  }

  lemma StepKeepsListed(s: Service, a: Action, id: nat)
    requires !s.Closed() && Enabled(s, a) && a != CloseService && RefusedButListed(s, id)
    ensures !Step(s, a).Closed() && RefusedButListed(Step(s, a), id)
  {
  }

  /**
   An entity watch is listed before its filters are built, outside the part that cleans up: when they cannot be
   built, it stays listed, whatever happens, until the service closes, though it never gets a handle.
   */
  lemma {:induction false} RefusedWatchStaysListed(before: seq<Action>, after: seq<Action>)
    requires Legal(before) && !Execute(before).Closed()
    requires Legal(before + [Open(Entities, None)] + after) && CloseService !in after
    ensures var s, id := Execute(before + [Open(Entities, None)] + after), |Execute(before).watches|;
            !s.Closed() && RefusedButListed(s, id)
    decreases |after|
  {
    var actions, id := before + [Open(Entities, None)] + after, |Execute(before).watches|;
    var front, last := actions[..|actions| - 1], actions[|actions| - 1];
    if after == [] {
      assert front == before;
    } else {
      assert front == before + [Open(Entities, None)] + after[..|after| - 1];
      assert last == after[|after| - 1] && last in after;
      hide Step, RefusedButListed, Enabled;
      RefusedWatchStaysListed(before, after[..|after| - 1]);
      StepKeepsListed(Execute(front), last, id);
    }
  }

  /** A cleanup of the watch has begun: it is off the service's list, or was never on it. */
  predicate Ended(w: Watch) {
    || w.progress.Failing? || w.progress.AwaitingFinalClose? || w.progress.Raised?
    || w.closing.Cleaning? || w.closing.Finished?
  }

  /** Who is listed: an entity watch from the start, a location watch once it is returned, until a cleanup begins. */
  predicate Belongs(w: Watch) {
    !Ended(w) && (w.kind == Entities || w.progress.Returned?)
  }

  /** What the lists of an open service hold, exactly. */
  ghost predicate Rostered(s: Service) {
    && (forall id :: 0 <= id < |s.watches| ==>
          && (id in s.entityWatchers <==> s.watches[id].kind == Entities && Belongs(s.watches[id]))
          && (id in s.locationWatchers <==> s.watches[id].kind == Locations && Belongs(s.watches[id])))
    && (forall id :: 0 <= id < |s.watches| && s.watches[id].progress.Refused? ==> s.watches[id].closing.Unstarted?)
  }

  lemma AfterBelongs(w: Watch, e: Event, serviceClosed: bool, listed: bool)
    requires Ready(w, e) && (w.progress.Refused? ==> w.closing.Unstarted?)
    ensures var w' := After(w, e, serviceClosed, listed);
            && w'.kind == w.kind && !w'.progress.Refused?
            && (Leaves(e) ==> !Belongs(w'))
            && (!Leaves(e) ==>
                  (Belongs(w') <==> Belongs(w) || (e == Decided && w'.progress == Returned && w.kind == Locations)))
  {
  }

  lemma OpenedRostered(s: Service, kind: Kind, filters: Option<nat>)
    requires Sound(s) && !s.Closed() && Rostered(s)
    ensures Rostered(Opened(s, kind, filters))
  {
    assert Known(s.entityWatchers, s.watches) && Known(s.locationWatchers, s.watches);
    hide AllKept, Enlisted, Swept;
  }

  lemma MovedRostered(s: Service, id: nat, e: Event)
    requires !s.Closed() && Rostered(s) && Enabled(s, On(id, e))
    ensures Rostered(Moved(s, id, e))
  {
    AfterBelongs(s.watches[id], e, false, id in s.entityWatchers);
    hide After, Ready, Belongs;
  }

  /** In every run, as long as the service is open, its lists hold exactly the watches that belong on them. */
  lemma {:induction false} OpenServiceRosters(actions: seq<Action>)
    requires Legal(actions) && !Execute(actions).Closed()
    ensures Rostered(Execute(actions))
  {
    if actions != [] {
      var front, last := actions[..|actions| - 1], actions[|actions| - 1];
      var s := Execute(front);
      assert !s.Closed();
      OpenServiceRosters(front);
      EveryRun(front);
      hide Sound, Rostered, Legal, Moved, Opened, Ready;
      match last
      case Open(kind, filters) => OpenedRostered(s, kind, filters);
      case On(id, event) => MovedRostered(s, id, event);
      case _ =>
    }
  }

  /**
   The lists of an open service, exactly: a watch at rest is listed if and only if it is returned and its stream is
   open, or it is an entity watch whose filters could not be built. No other watch outlives its end on a list.
   */
  lemma SettledListedIff(actions: seq<Action>, id: nat)
    requires Legal(actions) && !Execute(actions).Closed() && id < |Execute(actions).watches|
    requires Settled(Execute(actions).watches[id])
    ensures var (s, w) := (Execute(actions), Execute(actions).watches[id]);
            s.Listed(id) <==> Active(w) || (w.kind == Entities && w.progress.Refused?)
  {
    OpenServiceRosters(actions);
    hide Execute, Legal;
  }

  // ----- a watch that nothing disturbs -----

  /** The watches asked for, in order: the n-th one is named n. */
  function Openings(actions: seq<Action>): (r: seq<Action>)
    ensures forall a :: a in r ==> a.Open?
  {
    if actions == [] then []
    else
      var last := actions[|actions| - 1];
      Openings(actions[..|actions| - 1]) + if last.Open? then [last] else []
  }

  /** A subscription was refused, or was lost and could not be restored. */
  predicate Failed(actions: seq<Action>, id: nat) {
    On(id, SubscribeFailed) in actions || On(id, RestoreFailed) in actions
  }

  predicate WasDismissed(actions: seq<Action>, id: nat) {
    On(id, Dismissed) in actions
  }

  /** A watch has the filters it was opened with, unless they could not be built or the service was closed. */
  predicate AsOpened(w: Watch, opening: Action, serviceClosed: bool)
    requires opening.Open?
  {
    && w.kind == opening.kind
    && (opening.filters.None? ==> w.progress.Refused?)
    && (w.progress.Refused? ==> opening.filters.None? || serviceClosed)
    && (!w.progress.Refused? ==> opening.filters == Some(w.filters))
  }

  /** On its way to being returned, or returned, with a stream that nobody has closed before it was dismissed. */
  predicate OnCourse(w: Watch, dismissed: bool) {
    && (w.progress.Refused? || w.progress.Opening? || w.progress.Holding? || w.progress.Returned?)
    && (w.progress.Opening? ==> w.given < w.filters)
    && (w.progress.Returned? ==> w.given == w.filters)
    && (w.StreamClosed() ==> dismissed)
  }

  ghost predicate Course(s: Service, actions: seq<Action>, w: Watch, id: nat, opening: Action)
    requires opening.Open?
  {
    && AsOpened(w, opening, s.Closed())
    && (!s.Closed() && !Failed(actions, id) ==> OnCourse(w, WasDismissed(actions, id)))
    && (WasDismissed(actions, id) ==> w.progress.Returned? && w.StreamClosed())
    && (On(id, RestoreFailed) in actions ==> w.StreamClosed())
  }

  ghost predicate AllOnCourse(s: Service, actions: seq<Action>) {
    && |s.watches| == |Openings(actions)|
    && (forall id :: 0 <= id < |s.watches| ==> Course(s, actions, s.watches[id], id, Openings(actions)[id]))
    && (forall a :: a in actions && a.On? ==> a.id < |s.watches|)
  }

  lemma CourseAfter(w: Watch, e: Event, serviceClosed: bool, listed: bool, opening: Action)
    requires Ready(w, e) && opening.Open? && AsOpened(w, opening, serviceClosed)
    ensures var w' := After(w, e, serviceClosed, listed);
            && AsOpened(w', opening, serviceClosed)
            && (w.progress.Returned? || e.Dismissed? ==> w'.progress.Returned?)
            && (w.StreamClosed() || e.RestoreFailed? || e.Dismissed? ==> w'.StreamClosed())
  {
  }

  lemma OnwardOnCourse(w: Watch, e: Event, listed: bool, dismissed: bool)
    requires Ready(w, e) && OnCourse(w, dismissed) && (dismissed ==> w.progress.Returned?) && w.given <= w.filters
    requires w.kind == Entities && w.progress.Holding? ==> listed
    requires !e.SubscribeFailed? && !e.RestoreFailed?
    ensures OnCourse(After(w, e, false, listed), dismissed || e.Dismissed?)
  {
  }

  /** Until a cleanup begins an entity watch is listed. */
  lemma ListedWhileHolding(s: Service, id: nat, dismissed: bool)
    requires Rostered(s) && id < |s.watches| && OnCourse(s.watches[id], dismissed)
    requires dismissed ==> s.watches[id].progress.Returned?
    ensures s.watches[id].kind == Entities && s.watches[id].progress.Holding? ==> id in s.entityWatchers
  {
  }

  lemma GivenBound(s: Service, id: nat)
    requires Sound(s) && id < |s.watches|
    ensures s.watches[id].given <= s.watches[id].filters
  {
    assert Kept(s.watches[id]);
  }

  /** The watch whose event happens. */
  lemma MovedCourse(s: Service, actions: seq<Action>, id: nat, e: Event)
    requires Sound(s) && (!s.Closed() ==> Rostered(s)) && AllOnCourse(s, actions) && Enabled(s, On(id, e))
    ensures Course(Moved(s, id, e), actions + [On(id, e)], Moved(s, id, e).watches[id], id, Openings(actions)[id])
  {
    var w, all, dismissed := s.watches[id], actions + [On(id, e)], WasDismissed(actions, id);
    var listed, opening := id in s.entityWatchers, Openings(actions)[id];
    hide After, Sound, Rostered, Ready, Openings, OnCourse, AsOpened, AllKept, Failed, WasDismissed, Course;
    assert Course(s, actions, w, id, opening);
    CourseParts(s, actions, w, id, opening);
    GivenBound(s, id);
    EventAdded(actions, id, e);
    CourseAfter(w, e, s.Closed(), listed, opening);
    if !s.Closed() && !Failed(all, id) {
      ListedWhileHolding(s, id, dismissed);
      OnwardOnCourse(w, e, listed, dismissed);
    }
    CourseMade(s, Moved(s, id, e), actions, id, e, w, After(w, e, s.Closed(), listed), opening);
  }

  lemma CourseParts(s: Service, actions: seq<Action>, w: Watch, id: nat, opening: Action)
    requires opening.Open? && Course(s, actions, w, id, opening)
    ensures AsOpened(w, opening, s.Closed())
    ensures !s.Closed() && !Failed(actions, id) ==> OnCourse(w, WasDismissed(actions, id))
    ensures WasDismissed(actions, id) ==> w.progress.Returned? && w.StreamClosed()
  {
    hide AsOpened, OnCourse, Failed, WasDismissed;
  }

  lemma CourseMade(s: Service, s': Service, actions: seq<Action>, id: nat, e: Event, w: Watch, w': Watch,
                   opening: Action)
    requires opening.Open? && Course(s, actions, w, id, opening) && s'.Closed() == s.Closed()
    requires AsOpened(w', opening, s.Closed())
    requires w.progress.Returned? || e.Dismissed? ==> w'.progress.Returned?
    requires w.StreamClosed() || e.RestoreFailed? || e.Dismissed? ==> w'.StreamClosed()
    requires var all := actions + [On(id, e)];
             !s.Closed() && !Failed(all, id) ==> OnCourse(w', WasDismissed(all, id))
    ensures Course(s', actions + [On(id, e)], w', id, opening)
  {
    EventAdded(actions, id, e);
    hide AsOpened, OnCourse, Failed, WasDismissed;
  }

  lemma EventAdded(actions: seq<Action>, id: nat, e: Event)
    ensures var all := actions + [On(id, e)];
            && (Failed(all, id) <==> Failed(actions, id) || e.SubscribeFailed? || e.RestoreFailed?)
            && (WasDismissed(all, id) <==> WasDismissed(actions, id) || e.Dismissed?)
            && (On(id, RestoreFailed) in all <==> On(id, RestoreFailed) in actions || e.RestoreFailed?)
  {
  }

  /** An action that is no event of this watch, and no closing that it could come before. */
  lemma CourseStays(s: Service, s': Service, actions: seq<Action>, a: Action, w: Watch, w': Watch, id: nat,
                    opening: Action)
    requires opening.Open? && Course(s, actions, w, id, opening) && (a.On? ==> a.id != id)
    requires s.Closed() ==> s'.Closed()
    requires w' == w || (s.Closed() && w' == w.Request())
    ensures Course(s', actions + [a], w', id, opening)
  {
    assert forall k :: On(id, k) in actions + [a] <==> On(id, k) in actions;
    hide OnCourse;
  }

  lemma OpeningsLater(actions: seq<Action>, a: Action)
    ensures Openings(actions + [a]) == Openings(actions) + if a.Open? then [a] else []
  {
    assert (actions + [a])[..|actions|] == actions;
  }

  lemma NewCourse(s: Service, s': Service, actions: seq<Action>, a: Action, w: Watch, id: nat)
    requires a.Open? && (a.filters.Some? ==> 1 <= a.filters.value) && (s.Closed() ==> s'.Closed())
    requires forall b :: b in actions && b.On? ==> b.id < id
    requires w == if s.Closed() || a.filters.None? then NewWatch(a.kind, 0, Refused)
                  else NewWatch(a.kind, a.filters.value, Opening)
    ensures Course(s', actions + [a], w, id, a)
  {
    assert forall k :: On(id, k) !in actions + [a];
  }

  lemma {:induction false} EveryWatchOnCourse(actions: seq<Action>)
    requires Legal(actions)
    ensures AllOnCourse(Execute(actions), actions)
  {
    if actions != [] {
      var front, a := actions[..|actions| - 1], actions[|actions| - 1];
      assert actions == front + [a];
      EveryWatchOnCourse(front);
      EveryRun(front);
      var s := Execute(front);
      if !s.Closed() {
        OpenServiceRosters(front);
      }
      StepOnCourse(s, front, a);
    }
  }

  /** What a step makes of the watches. */
  lemma StepShape(s: Service, a: Action)
    requires Enabled(s, a)
    ensures var s' := Step(s, a);
            && (s.Closed() ==> s'.Closed())
            && |s'.watches| == |s.watches| + (if a.Open? then 1 else 0)
            && (a.Open? ==> s'.watches[|s.watches|]
                            == if s.Closed() || a.filters.None? then NewWatch(a.kind, 0, Refused)
                               else NewWatch(a.kind, a.filters.value, Opening))
            && (a.On? ==> s' == Moved(s, a.id, a.event))
            && (forall id :: 0 <= id < |s.watches| && (a.On? ==> a.id != id) ==>
                  || s'.watches[id] == s.watches[id]
                  || (s.Closed() && s'.watches[id] == s.watches[id].Request()))
  {
    hide After, Ready, Removed;
  }

  lemma StepOnCourse(s: Service, actions: seq<Action>, a: Action)
    requires Sound(s) && (!s.Closed() ==> Rostered(s)) && AllOnCourse(s, actions) && Enabled(s, a)
    ensures AllOnCourse(Step(s, a), actions + [a])
  {
    hide *;
    OpeningCounts(s, actions, a);
    EventsKnown(s, actions, a);
    forall id: nat | id < |Step(s, a).watches|
      ensures Course(Step(s, a), actions + [a], Step(s, a).watches[id], id, Openings(actions + [a])[id])
    {
      StepCourse(s, actions, a, id);
    }
    AllAreOnCourse(Step(s, a), actions + [a]);
  }

  lemma OpeningCounts(s: Service, actions: seq<Action>, a: Action)
    requires AllOnCourse(s, actions) && Enabled(s, a)
    ensures |Openings(actions + [a])| == |Step(s, a).watches| >= |s.watches|
  {
    OpeningsLater(actions, a);
    StepShape(s, a);
    hide Step, Openings, Course, Ready;
  }

  lemma AllAreOnCourse(s: Service, actions: seq<Action>)
    requires |s.watches| == |Openings(actions)|
    requires forall id: nat :: id < |s.watches| ==> Course(s, actions, s.watches[id], id, Openings(actions)[id])
    requires forall a :: a in actions && a.On? ==> a.id < |s.watches|
    ensures AllOnCourse(s, actions)
  {
    hide Course, Openings;
  }

  lemma EventsKnown(s: Service, actions: seq<Action>, a: Action)
    requires AllOnCourse(s, actions) && Enabled(s, a)
    ensures forall b :: b in actions + [a] && b.On? ==> b.id < |s.watches|
  {
    hide Course, Ready, Openings;
  }

  lemma OpeningAt(s: Service, actions: seq<Action>, a: Action, id: nat)
    requires AllOnCourse(s, actions) && id < |s.watches| + (if a.Open? then 1 else 0)
    ensures |Openings(actions)| == |s.watches| && id < |Openings(actions + [a])|
    ensures Openings(actions + [a])[id] == if id < |s.watches| then Openings(actions)[id] else a
    ensures id < |s.watches| ==> Course(s, actions, s.watches[id], id, Openings(actions)[id])
  {
    OpeningsLater(actions, a);
    hide Course, Openings;
  }

  /** One watch, after a step. */
  lemma StepCourse(s: Service, actions: seq<Action>, a: Action, id: nat)
    requires Sound(s) && (!s.Closed() ==> Rostered(s)) && AllOnCourse(s, actions) && Enabled(s, a)
    requires id < |Step(s, a).watches| && id < |Openings(actions + [a])|
    ensures Course(Step(s, a), actions + [a], Step(s, a).watches[id], id, Openings(actions + [a])[id])
  {
    var s' := Step(s, a);
    StepShape(s, a);
    OpeningAt(s, actions, a, id);
    EventsKnown(s, actions, a);
    hide Sound, Rostered, Course, After, Openings, Ready, Step, Moved, AllOnCourse;
    if a.Open? && id == |s.watches| {
      NewCourse(s, s', actions, a, s'.watches[id], id);
    } else if a.On? && a.id == id {
      MovedCourse(s, actions, id, a.event);
    } else {
      CourseStays(s, s', actions, a, s.watches[id], s'.watches[id], id, Openings(actions)[id]);
    }
  }

  /**
   While the service is open, and no subscription of a watch has failed or been lost, a watch that was opened with n
   filters is opening, holds a handle not yet retained, or has been returned; it is returned as soon as the last of
   its n handles is retained; and until it is dismissed it is then active, and on the list of its kind.
   */
  lemma UndisturbedWatchReturns(actions: seq<Action>, id: nat, n: nat)
    requires Legal(actions) && !Execute(actions).Closed() && !Failed(actions, id)
    requires id < |Openings(actions)| && Openings(actions)[id].filters == Some(n)
    ensures id < |Execute(actions).watches|
    ensures var (s, w) := (Execute(actions), Execute(actions).watches[id]);
            && w.kind == Openings(actions)[id].kind && w.filters == n
            && (w.progress.Opening? || w.progress.Holding? || w.progress.Returned?)
            && (w.progress.Returned? <==> w.given == n && !w.progress.Holding?)
            && (w.progress.Returned? && !WasDismissed(actions, id)
                ==> Active(w) && id in (if w.kind == Entities then s.entityWatchers else s.locationWatchers))
  {
    EveryWatchOnCourse(actions);
    OpenServiceRosters(actions);
    var s := Execute(actions);
    assert Course(s, actions, s.watches[id], id, Openings(actions)[id]);
    hide Execute, Legal, Openings, Failed, WasDismissed;
  }

  /**
   A watch fails for a reason: it is refused only when its filters could not be built or the service was closed, and
   raises only when one of its subscriptions failed or was lost, or the service was closed. A stream that was
   dismissed, or whose subscription was lost, is closed.
   */
  lemma FailedForCause(actions: seq<Action>, id: nat)
    requires Legal(actions) && id < |Openings(actions)|
    ensures id < |Execute(actions).watches|
    ensures var (s, w) := (Execute(actions), Execute(actions).watches[id]);
            && (w.progress.Refused? ==> Openings(actions)[id].filters.None? || s.Closed())
            && (Openings(actions)[id].filters.None? ==> w.progress.Refused?)
            && (w.progress.Raised? ==> Failed(actions, id) || s.Closed())
            && (WasDismissed(actions, id) || On(id, RestoreFailed) in actions ==> w.StreamClosed())
  {
    EveryWatchOnCourse(actions);
    var s := Execute(actions);
    assert Course(s, actions, s.watches[id], id, Openings(actions)[id]);
    hide Execute, Legal, Openings, Failed, WasDismissed;
  }

  lemma ClosedStep(s: Service, a: Action)
    requires Enabled(s, a)
    ensures Step(s, a).Closed() <==> s.Closed() || a == CloseService
  {
  }

  /** The service is closed once its close was called, and not before. */
  lemma {:induction false} ClosedWhenCalled(actions: seq<Action>)
    requires Legal(actions)
    ensures Execute(actions).Closed() <==> CloseService in actions
  {
    if actions != [] {
      var front, a := actions[..|actions| - 1], actions[|actions| - 1];
      assert actions == front + [a];
      ClosedWhenCalled(front);
      ClosedStep(Execute(front), a);
      hide Step;
    }
  }

  // ----- nothing gets stuck, and everything settles -----

  predicate Settled(w: Watch) {
    w.AtRest() && (w.closing.Unstarted? || w.closing.Finished?)
  }

  /** The events that the service, its tasks and the transport bring about; the rest is the choice of others. */
  predicate Internal(e: Event) {
    !e.RestoreFailed? && !e.Dismissed?
  }

  function CloserEvent(w: Watch): Event {
    if w.lock.Some? then Unsubscribed(w.lock.value)
    else if w.closing.Cleaning? then Locked(Closer)
    else CleanupBegun
  }

  /** An event that a watch which has not settled can always undergo. */
  function NextEvent(w: Watch): Event {
    match w.progress
    case Opening => Subscribed
    case Discarding(handle) => Discarded
    case Holding(handle) => if w.lock.Some? then Unsubscribed(w.lock.value) else Decided
    case Failing(cleanup) => if w.lock.Some? then Unsubscribed(w.lock.value) else Locked(Opener)
    case AwaitingClose => if w.closing == Finished then CloseAwaited else CloserEvent(w)
    case AwaitingFinalClose => if w.closing == Finished then FinalCloseAwaited else CloserEvent(w)
    case _ => CloserEvent(w)
  }

  /** No watch deadlocks: neither on the cleanup lock nor on the close of its own stream. */
  lemma NoWatchStuck(w: Watch)
    requires Kept(w) && !Settled(w)
    ensures Internal(NextEvent(w)) && Ready(w, NextEvent(w))
  {
  }

  ghost predicate NothingMoves(s: Service) {
    && !Enabled(s, Closing)
    && (forall id, e :: 0 <= id < |s.watches| && Internal(e) ==> !Ready(s.watches[id], e))
  }

  /**
   When nothing can move any more, every watch has raised, returned or been refused, the close of the service has
   returned if it was begun, and then every handle that was ever given has been unsubscribed exactly once.
   */
  lemma RestMeansReleased(actions: seq<Action>)
    requires Legal(actions) && NothingMoves(Execute(actions))
    ensures var s := Execute(actions);
            && !s.closer.Working?
            && (forall id :: 0 <= id < |s.watches| ==> Settled(s.watches[id]))
            && (s.Closed() ==> forall id :: 0 <= id < |s.watches| ==> Released(s.watches[id]))
  {
    EveryRun(actions);
    var s := Execute(actions);
    forall id | 0 <= id < |s.watches|
      ensures Settled(s.watches[id]) && Kept(s.watches[id])
    {
      if !Settled(s.watches[id]) {
        NoWatchStuck(s.watches[id]);
      }
    }
    hide Kept, Ready;
    CloserMoves(s);
    if s.closer.Done? {
      forall id | 0 <= id < |s.watches|
        ensures Released(s.watches[id])
      {
        assert !Active(s.watches[id]);
        SettledReleased(s.watches[id]);
      }
    }
  }

  /** When all watches have settled the close of the service can go on. */
  lemma CloserMoves(s: Service)
    requires Sound(s) && forall id :: 0 <= id < |s.watches| ==> Settled(s.watches[id])
    ensures s.closer.Working? ==> Enabled(s, Closing)
  {
    hide Kept;
    if s.closer.Working? && s.closer.next < |s.closer.taken| {
      assert s.closer.taken[s.closer.next] in s.closer.taken;
    }
  }

  lemma SettledReleased(w: Watch)
    requires Kept(w) && Settled(w) && !Active(w)
    ensures Released(w)
  {
  }

  /** An upper bound on the steps a watch can still take. */
  function Effort(w: Watch): int {
    var opener :=
      match w.progress
      case Opening => 5
      case Holding(_) => 8
      case Discarding(_) => 4
      case AwaitingClose => 4
      case Failing(cleanup) => if cleanup.Waiting? then 3 else 2
      case AwaitingFinalClose => 1
      case _ => 0;
    var closer :=
      match w.closing
      case Unstarted => 4
      case Scheduled => 3
      case Cleaning(cleanup) => if cleanup.Waiting? then 2 else 1
      case Finished => 0;
    4 * (w.filters - w.given) + opener + closer + |w.handles|
  }

  function TotalEffort(watches: seq<Watch>): int {
    if watches == [] then 0 else Effort(watches[0]) + TotalEffort(watches[1..])
  }

  function CloserEffort(s: Service): int {
    match s.closer
    case Idle => 2 * (|s.entityWatchers| + |s.locationWatchers|) + 3
    case Working(taken, next, asked) => 2 * (|taken| - next) + (if asked then 1 else 2)
    case Done(_) => 0
  }

  function Remaining(s: Service): int {
    TotalEffort(s.watches) + CloserEffort(s)
  }

  lemma AfterEffort(w: Watch, e: Event, serviceClosed: bool, listed: bool)
    requires Ready(w, e)
    ensures var w' := After(w, e, serviceClosed, listed);
            w' == w || Effort(w') + (if w'.progress.Returned? && !w.progress.Returned? then 3 else 1) <= Effort(w)
  {
  }

  lemma {:induction false} TotalReplaced(watches: seq<Watch>, id: nat, w: Watch)
    requires id < |watches|
    ensures TotalEffort(watches[id := w]) == TotalEffort(watches) - Effort(watches[id]) + Effort(w)
  {
    if id > 0 {
      assert watches[id := w][1..] == watches[1..][id - 1 := w];
      TotalReplaced(watches[1..], id - 1, w);
    }
  }

  lemma {:induction false} TotalNotNegative(watches: seq<Watch>)
    requires AllKept(watches)
    ensures 0 <= TotalEffort(watches)
  {
    if watches != [] {
      assert Kept(watches[0]);
      TotalNotNegative(watches[1..]);
    }
  }

  lemma {:induction false} RemovedShorter(ids: seq<nat>, id: nat)
    ensures |Removed(ids, id)| <= |ids|
  {
    if ids != [] {
      RemovedShorter(ids[1..], id);
    }
  }

  /**
   Unless a new watch is opened, every step that changes anything uses up some of what remains, so every run
   settles: neither clients, nor failures, nor the tasks themselves can keep it going.
   */
  lemma EveryStepSettles(s: Service, a: Action)
    requires Sound(s) && Enabled(s, a) && !a.Open?
    ensures Step(s, a) == s || Remaining(Step(s, a)) < Remaining(s)
    ensures 0 <= Remaining(s)
  {
    hide Sound, Remaining;
    RemainingNotNegative(s);
    match a
    case On(id, e) => MovedSettles(s, id, e);
    case Closing => CloserStepSettles(s);
    case CloseService => ShutSettles(s);
  }

  lemma RemainingNotNegative(s: Service)
    requires Sound(s)
    ensures 0 <= Remaining(s)
  {
    TotalNotNegative(s.watches);
    hide AllKept, TotalEffort;
  }

  lemma ShutSettles(s: Service)
    ensures Shut(s) == s || Remaining(Shut(s)) < Remaining(s)
  {
    hide TotalEffort;
  }

  lemma CloserStepSettles(s: Service)
    requires Sound(s) && Enabled(s, Closing)
    ensures Remaining(CloserStep(s)) < Remaining(s)
  {
    if s.closer.next < |s.closer.taken| {
      var id := s.closer.taken[s.closer.next];
      TotalReplaced(s.watches, id, s.watches[id].Request());
    }
    hide TotalEffort, AllKept;
  }

  lemma MovedLists(s: Service, id: nat, e: Event)
    requires Sound(s) && Enabled(s, On(id, e))
    ensures var s' := Moved(s, id, e);
            var w' := After(s.watches[id], e, s.Closed(), id in s.entityWatchers);
            && s'.watches == s.watches[id := w'] && s'.closer == s.closer
            && (w' == s.watches[id] ==> s' == s)
            && CloserEffort(s')
               <= CloserEffort(s) + if w'.progress.Returned? && !s.watches[id].progress.Returned? then 2 else 0
  {
    var w' := After(s.watches[id], e, s.Closed(), id in s.entityWatchers);
    AfterOnward(s.watches[id], e, s.Closed(), id in s.entityWatchers);
    RemovedShorter(s.entityWatchers, id);
    RemovedShorter(s.locationWatchers, id);
    assert Leaves(e) ==> w' != s.watches[id];
    hide After, Sound, Removed, Ready;
    if w' == s.watches[id] {
      assert s.watches[id := w'] == s.watches;
    }
  }

  lemma MovedSettles(s: Service, id: nat, e: Event)
    requires Sound(s) && Enabled(s, On(id, e))
    ensures Moved(s, id, e) == s || Remaining(Moved(s, id, e)) < Remaining(s)
  {
    AfterEffort(s.watches[id], e, s.Closed(), id in s.entityWatchers);
    TotalReplaced(s.watches, id, After(s.watches[id], e, s.Closed(), id in s.entityWatchers));
    MovedLists(s, id, e);
    hide Effort, After, TotalEffort, Ready, Sound, Moved, CloserEffort;
  }

  // ----- the loop that unsubscribes a list of handles -----

  function Backwards(handles: seq<nat>): seq<nat> {
    if handles == [] then [] else Backwards(handles[1..]) + [handles[0]]
  }

  lemma {:induction false} BackwardsLast(handles: seq<nat>)
    requires handles != []
    ensures Backwards(handles) == [handles[|handles| - 1]] + Backwards(handles[..|handles| - 1])
  {
    if |handles| > 1 {
      BackwardsLast(handles[1..]);
      assert handles[1..][..|handles| - 2] == handles[..|handles| - 1][1..];
    }
  }

  function FirstError(handles: seq<nat>, reply: nat -> Option<string>): Option<string> {
    if handles == [] then None
    else if reply(handles[0]).Some? then reply(handles[0])
    else FirstError(handles[1..], reply)
  }

  lemma {:induction false} FirstErrorJoin(a: seq<nat>, b: seq<nat>, reply: nat -> Option<string>)
    ensures FirstError(a + b, reply)
            == if FirstError(a, reply).Some? then FirstError(a, reply) else FirstError(b, reply)
  {
    if a == [] {
      assert a + b == b;
    } else {
      FirstErrorJoin(a[1..], b, reply);
      assert (a + b)[1..] == a[1..] + b;
    }
  }

  /** Part of a list was unsubscribed, in backward order. */
  ghost predicate Partway(all: seq<nat>, done: seq<nat>, rest: seq<nat>) {
    done + Backwards(rest) == Backwards(all)
  }

  lemma PartwayNext(all: seq<nat>, done: seq<nat>, rest: seq<nat>)
    requires Partway(all, done, rest) && rest != []
    ensures Partway(all, done + [rest[|rest| - 1]], rest[..|rest| - 1])
  {
    BackwardsLast(rest);
  }

  /** The transport, with the answers it gives to unsubscribe calls. */
  class Transport {
    const reply: nat -> Option<string>
    var calls: seq<nat>

    constructor (reply: nat -> Option<string>)
      ensures this.reply == reply && calls == []
    {
      this.reply := reply;
      calls := [];
    }

    method Unsubscribe(handle: nat) returns (error: Option<string>)
      modifies this
      ensures calls == old(calls) + [handle] && error == reply(handle)
    {
      calls := calls + [handle];
      error := reply(handle);
    }
  }

  class HandleList {
    var items: seq<nat>

    constructor ()
      ensures items == []
    {
      items := [];
    }
  }

  /**
   Unsubscribe every handle of a list, last first, whatever the transport answers; the first error is reported,
   unless errors are suppressed.
   */
  method UnsubscribeAll(transport: Transport, handles: HandleList, suppress: bool) returns (error: Option<string>)
    modifies transport, handles
    ensures handles.items == []
    ensures transport.calls == old(transport.calls) + Backwards(old(handles.items))
    ensures error == if suppress then None else FirstError(Backwards(old(handles.items)), transport.reply)
  {
    var first: Option<string> := None;
    ghost var all, done := handles.items, [];
    assert Partway(all, done, handles.items);
    assert forall k: seq<nat> :: Partway(all, k, []) ==> k == Backwards(all) by {
      assert forall k: seq<nat> :: k + [] == k;
    }
    hide Partway, Backwards;
    while handles.items != []
      invariant transport.calls == old(transport.calls) + done
      invariant Partway(all, done, handles.items)
      invariant first == FirstError(done, transport.reply)
      decreases |handles.items|
    {
      var handle := handles.items[|handles.items| - 1];
      PartwayNext(all, done, handles.items);
      FirstErrorJoin(done, [handle], transport.reply);
      var answer := transport.Unsubscribe(handle);
      if answer.Some? && first.None? {
        first := answer;
      }
      handles.items := handles.items[..|handles.items| - 1];
      done := done + [handle];
    }
    return if suppress then None else first;
  }
}
