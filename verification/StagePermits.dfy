/**
 The permits of nested stage runs. A stage body runs while its thread holds a permit of one bounded pool; a body that
 starts a run of its own lends its permit to it and takes one back afterwards. Every run has a graph of stages and a
 number of jobs. A run with one job executes its bodies on the calling thread, on top of its stack; any other run
 executes them on threads of its own.
 */
module StagePermits {
  import opened StageGraph

  /** Where a body stands; a lending body waits for its child run, a leaving one has given its permit back. */
  datatype Phase = Acquiring | Executing | Lending(child: nat) | Reacquiring | Leaving

  /** The execution of a stage of a run; token is the flag that its thread had before. */
  datatype Frame = Frame(run: nat, stage: nat, phase: Phase, token: bool)

  /** A thread: the flag that says a permit is held, the permits it took and did not give back, and its stack. */
  datatype Thread = Thread(flag: bool, holding: int, stack: seq<Frame>)
  {
    predicate Idle() {
      stack == []
    }

    function Top(): Frame
      requires stack != []
    {
      stack[|stack| - 1]
    }

    function WithTop(frame: Frame): Thread
      requires stack != []
    {
      this.(stack := stack[|stack| - 1 := frame])
    }

    predicate Is(phase: Phase) {
      stack != [] && Top().phase == phase
    }
  }

  /** The stages of a run that are in flight, have results, and have failed. */
  datatype Book = Book(graph: Graph, flying: set<nat>, done: set<nat>, lost: set<nat>)
  {
    /** A stage may start when it has not, all it depends on has results, and nothing has failed. */
    predicate Startable(i: nat) {
      && i < |graph| && i !in flying && i !in done && i !in lost && lost == {}
      && (forall d :: d in graph[i] ==> d in done)
    }

    /** Nothing is in flight, and every stage has its result or something has failed. */
    predicate Over() {
      flying == {} && (lost != {} || done == Below(|graph|))
    }
  }

  datatype Run = Run(caller: nat, jobs: nat, open: bool, book: Book)
  {
    predicate Serial() {
      jobs == 1
    }
  }

  function NewRun(caller: nat, jobs: nat, graph: Graph): Run {
    Run(caller, jobs, true, Book(graph, {}, {}, {}))
  }

  /** The pool, and what must never happen: a release beyond its bound, or a nested call that does not lend. */
  datatype System = System(jobs: nat, permits: int, threads: seq<Thread>, runs: seq<Run>, overrun: bool, strayed: bool)

  /** An outermost run called by thread 0. */
  function Begin(jobs: nat, graph: Graph): System {
    System(jobs, jobs, [Thread(false, 0, [])], [NewRun(0, jobs, graph)], false, false)
  }

  /** The graphs that validation accepts; a call whose graph is refused ends as one without stages does. */
  ghost predicate Runnable(jobs: nat, graph: Graph) {
    1 <= jobs && WellFormed(graph) && Acyclic(graph)
  }

  datatype Action =
    | Start(run: nat, stage: nat, thread: nat)
    | Acquire(thread: nat)
    | Call(thread: nat, jobs: nat, graph: Graph)
    | EndRun(run: nat)
    | Reacquire(thread: nat)
    | End(thread: nat)
    | Leave(thread: nat, success: bool)

  predicate InRun(th: Thread, run: nat) {
    exists k :: 0 <= k < |th.stack| && th.stack[k].run == run
  }

  /** The calling thread is where it called the run. */
  predicate AtCall(s: System, run: nat)
    requires run < |s.runs|
  {
    var t := s.runs[run].caller;
    t < |s.threads| && if run == 0 then s.threads[t].Idle() else s.threads[t].Is(Lending(run))
  }

  ghost predicate Enabled(s: System, a: Action) {
    match a
    case Start(run, stage, t) =>
      && run < |s.runs| && s.runs[run].open
      && s.runs[run].book.Startable(stage) && |s.runs[run].book.flying| < s.runs[run].jobs
      && if s.runs[run].Serial() then t == s.runs[run].caller && AtCall(s, run)
         else 0 < t <= |s.threads| && (t < |s.threads| ==> s.threads[t].Idle())
    case Acquire(t) => t < |s.threads| && s.threads[t].Is(Acquiring) && 0 < s.permits
    case Call(t, jobs, graph) => t < |s.threads| && s.threads[t].Is(Executing) && Runnable(jobs, graph)
    case EndRun(run) => run < |s.runs| && s.runs[run].open && s.runs[run].book.Over() && AtCall(s, run)
    case Reacquire(t) => t < |s.threads| && s.threads[t].Is(Reacquiring) && 0 < s.permits
    case End(t) => t < |s.threads| && s.threads[t].Is(Executing)
    case Leave(t, _) => t < |s.threads| && s.threads[t].Is(Leaving) && s.threads[t].Top().run < |s.runs|
  }

  function Put(s: System, t: nat, th: Thread): System
    requires t < |s.threads|
  {
    s.(threads := s.threads[t := th])
  }

  /** A bounded pool refuses a release beyond its bound. */
  function Released(s: System): System {
    if s.permits < s.jobs then s.(permits := s.permits + 1) else s.(overrun := true)
  }

  function Taken(s: System): System {
    s.(permits := s.permits - 1)
  }

  function WithBook(runs: seq<Run>, run: nat, book: Book): seq<Run>
    requires run < |runs|
  {
    runs[run := runs[run].(book := book)]
  }

  function StartedThread(th: Thread, run: nat, stage: nat): Thread {
    th.(stack := th.stack + [Frame(run, stage, Acquiring, false)])
  }

  function StartStep(s: System, run: nat, stage: nat, t: nat): System
    requires t <= |s.threads| && run < |s.runs|
  {
    var book := s.runs[run].book;
    var s' := s.(runs := WithBook(s.runs, run, book.(flying := book.flying + {stage})));
    if t == |s.threads| then s'.(threads := s.threads + [StartedThread(Thread(false, 0, []), run, stage)])
    else Put(s', t, StartedThread(s.threads[t], run, stage))
  }

  /** The permit is taken, and the flag set; the token remembers the flag. */
  function AcquiredThread(th: Thread): Thread
    requires th.stack != []
  {
    th.WithTop(th.Top().(phase := Executing, token := th.flag)).(flag := true, holding := th.holding + 1)
  }

  function ReacquiredThread(th: Thread): Thread
    requires th.stack != []
  {
    th.WithTop(th.Top().(phase := Executing)).(holding := th.holding + 1)
  }

  function LentThread(th: Thread, child: nat): Thread
    requires th.stack != []
  {
    th.WithTop(th.Top().(phase := Lending(child))).(holding := th.holding - 1)
  }

  /** A run called by a body: the permit is lent when the flag is set. */
  function CallStep(s: System, t: nat, jobs: nat, graph: Graph): System
    requires t < |s.threads| && s.threads[t].stack != []
  {
    if s.threads[t].flag then
      Put(Released(s), t, LentThread(s.threads[t], |s.runs|)).(runs := s.runs + [NewRun(t, jobs, graph)])
    else s.(strayed := true)
  }

  function ReturnedThread(th: Thread): Thread
    requires th.stack != []
  {
    th.WithTop(th.Top().(phase := Reacquiring))
  }

  function EndRunStep(s: System, run: nat): System
    requires run < |s.runs| && AtCall(s, run)
  {
    var s' := s.(runs := s.runs[run := s.runs[run].(open := false)]);
    if run == 0 then s' else Put(s', s.runs[run].caller, ReturnedThread(s.threads[s.runs[run].caller]))
  }

  /** The flag is put back, then the permit. */
  function EndedThread(th: Thread): Thread
    requires th.stack != []
  {
    th.WithTop(th.Top().(phase := Leaving)).(flag := th.Top().token, holding := th.holding - 1)
  }

  function LeftThread(th: Thread): Thread
    requires th.stack != []
  {
    th.(stack := th.stack[..|th.stack| - 1])
  }

  /** The outcome of a stage is booked; a failure is on record from here on. */
  function Booked(book: Book, stage: nat, success: bool): Book {
    Book(book.graph, book.flying - {stage}, if success then book.done + {stage} else book.done,
         if success then book.lost else book.lost + {stage})
  }

  function LeaveStep(s: System, t: nat, success: bool): System
    requires t < |s.threads| && s.threads[t].stack != [] && s.threads[t].Top().run < |s.runs|
  {
    var frame := s.threads[t].Top();
    Put(s, t, LeftThread(s.threads[t]))
      .(runs := WithBook(s.runs, frame.run, Booked(s.runs[frame.run].book, frame.stage, success)))
  }

  function Step(s: System, a: Action): System
    requires Enabled(s, a)
  {
    match a
    case Start(run, stage, t) => StartStep(s, run, stage, t)
    case Acquire(t) => Put(Taken(s), t, AcquiredThread(s.threads[t]))
    case Call(t, jobs, graph) => CallStep(s, t, jobs, graph)
    case EndRun(run) => EndRunStep(s, run)
    case Reacquire(t) => Put(Taken(s), t, ReacquiredThread(s.threads[t]))
    case End(t) => Put(Released(s), t, EndedThread(s.threads[t]))
    case Leave(t, success) => LeaveStep(s, t, success)
  }

  ghost predicate Legal(init: System, actions: seq<Action>)
    decreases |actions|, 0
  {
    actions == [] ||
    (var front := actions[..|actions| - 1];
     Legal(init, front) && Enabled(Execute(init, front), actions[|actions| - 1]))
  }

  function Execute(init: System, actions: seq<Action>): System
    requires Legal(init, actions)
    decreases |actions|, 1
  {
    if actions == [] then init
    else Step(Execute(init, actions[..|actions| - 1]), actions[|actions| - 1])
  }

  // ----- what every run keeps -----

  predicate LendsUp(stack: seq<Frame>, k: nat)
    requires k + 1 < |stack|
  {
    stack[k].phase == Lending(stack[k + 1].run)
  }

  predicate Tokened(stack: seq<Frame>, k: nat)
    requires k < |stack|
  {
    stack[k].phase.Acquiring? || stack[k].token == (0 < k)
  }

  /** Frames below the top lend to the run of the frame above them. */
  ghost predicate Stacked(stack: seq<Frame>) {
    && (forall k: nat :: k + 1 < |stack| ==> LendsUp(stack, k))
    && (forall k: nat :: k < |stack| ==> Tokened(stack, k))
  }

  /** The flag is set exactly when a body of the thread has taken a permit, and only an executing thread holds one. */
  ghost predicate Flagged(th: Thread) {
    && th.flag == (1 < |th.stack| || (|th.stack| == 1 && !th.Is(Acquiring) && !th.Is(Leaving)))
    && th.holding == if th.Is(Executing) then 1 else 0
  }

  /** A frame is of an open run; what it lends to is an open run that it called. */
  ghost predicate Placed(f: Frame, t: nat, runs: seq<Run>) {
    && f.run < |runs| && runs[f.run].open
    && (f.phase.Lending? ==>
          var child := f.phase.child;
          f.run < child < |runs| && runs[child].open && runs[child].caller == t)
  }

  ghost predicate PlacedAt(stack: seq<Frame>, k: nat, t: nat, runs: seq<Run>)
    requires k < |stack|
  {
    Placed(stack[k], t, runs)
  }

  ghost predicate ThreadOk(th: Thread, t: nat, runs: seq<Run>) {
    && Stacked(th.stack) && Flagged(th)
    && (forall k: nat :: k < |th.stack| ==> PlacedAt(th.stack, k, t, runs))
  }

  predicate Lends(th: Thread, run: nat) {
    exists k :: 0 <= k < |th.stack| && th.stack[k].phase == Lending(run)
  }

  /** The stages of a run are parted, and no more are in flight than it has jobs. */
  ghost predicate BookOk(book: Book, jobs: nat) {
    && book.flying + book.done + book.lost <= Below(|book.graph|)
    && book.flying !! book.done && book.flying !! book.lost && book.done !! book.lost
    && |book.flying| <= jobs
  }

  /** An open nested run was called by a body that is lending to it. */
  ghost predicate RunOk(r: nat, run: Run, threads: seq<Thread>) {
    && run.caller < |threads| && Runnable(run.jobs, run.book.graph)
    && BookOk(run.book, run.jobs) && (!run.open ==> run.book.Over())
    && (0 < r && run.open ==> Lends(threads[run.caller], r))
  }

  /** How many frames of a stack execute a stage of a run. */
  function OnStack(stack: seq<Frame>, run: nat, stage: nat): nat {
    if stack == [] then 0
    else (if stack[0].run == run && stack[0].stage == stage then 1 else 0) + OnStack(stack[1..], run, stage)
  }

  function FramesOf(threads: seq<Thread>, run: nat, stage: nat): nat {
    if threads == [] then 0 else OnStack(threads[0].stack, run, stage) + FramesOf(threads[1..], run, stage)
  }

  /** A stage is in flight exactly when one frame executes it; otherwise none does. */
  ghost predicate CountAt(threads: seq<Thread>, runs: seq<Run>, run: nat, stage: nat)
    requires run < |runs|
  {
    FramesOf(threads, run, stage) == if stage in runs[run].book.flying then 1 else 0
  }

  ghost predicate AllCounts(threads: seq<Thread>, runs: seq<Run>) {
    forall run: nat, stage: nat :: run < |runs| ==> CountAt(threads, runs, run, stage)
  }

  function Held(threads: seq<Thread>): int {
    if threads == [] then 0 else threads[0].holding + Held(threads[1..])
  }

  ghost predicate ThreadAt(threads: seq<Thread>, t: nat, runs: seq<Run>)
    requires t < |threads|
  {
    ThreadOk(threads[t], t, runs)
  }

  ghost predicate RunAt(runs: seq<Run>, r: nat, threads: seq<Thread>)
    requires r < |runs|
  {
    RunOk(r, runs[r], threads)
  }

  ghost predicate AllThreads(threads: seq<Thread>, runs: seq<Run>) {
    forall t: nat :: t < |threads| ==> ThreadAt(threads, t, runs)
  }

  ghost predicate AllRuns(runs: seq<Run>, threads: seq<Thread>) {
    forall r: nat :: r < |runs| ==> RunAt(runs, r, threads)
  }

  ghost predicate Sound(s: System) {
    && AllThreads(s.threads, s.runs) && AllRuns(s.runs, s.threads) && AllCounts(s.threads, s.runs)
    && s.runs != [] && s.threads != [] && s.runs[0].caller == 0
    && (s.threads[0].Idle() || (s.runs[0].Serial() && s.threads[0].stack[0].run == 0))
    && s.permits + Held(s.threads) == s.jobs && 0 <= s.permits
    && !s.overrun && !s.strayed
  }

  // ----- each step keeps it -----

  lemma {:induction false} HeldReplaced(threads: seq<Thread>, t: nat, th: Thread)
    requires t < |threads|
    ensures Held(threads[t := th]) == Held(threads) - threads[t].holding + th.holding
  {
    if t > 0 {
      assert threads[t := th][1..] == threads[1..][t - 1 := th];
      HeldReplaced(threads[1..], t - 1, th);
    }
  }

  lemma {:induction false} HeldAppended(threads: seq<Thread>, th: Thread)
    ensures Held(threads + [th]) == Held(threads) + th.holding
  {
    if threads == [] {
      assert threads + [th] == [th];
      assert Held([th]) == th.holding + Held([]);
    } else {
      HeldAppended(threads[1..], th);
      assert (threads + [th])[1..] == threads[1..] + [th];
    }
  }

  lemma {:induction false} HeldJoin(a: seq<Thread>, b: seq<Thread>)
    ensures Held(a + b) == Held(a) + Held(b)
  {
    if a == [] {
      assert a + b == b;
    } else {
      HeldJoin(a[1..], b);
      assert (a + b)[1..] == a[1..] + b;
    }
  }

  lemma {:induction false} HeldBounds(threads: seq<Thread>)
    requires forall t :: 0 <= t < |threads| ==> 0 <= threads[t].holding
    ensures 0 <= Held(threads)
  {
    if threads != [] {
      HeldBounds(threads[1..]);
    }
  }

  lemma HeldWithin(threads: seq<Thread>, runs: seq<Run>, t: nat)
    requires AllThreads(threads, runs) && t < |threads|
    ensures threads[t].holding <= Held(threads)
  {
    assert threads == threads[..t] + ([threads[t]] + threads[t + 1..]);
    HeldJoin(threads[..t], [threads[t]] + threads[t + 1..]);
    HeldJoin([threads[t]], threads[t + 1..]);
    assert Held([threads[t]]) == threads[t].holding + Held([]);
    forall k | 0 <= k < |threads|
      ensures 0 <= threads[k].holding
    {
      assert ThreadAt(threads, k, runs);
    }
    HeldBounds(threads[..t]);
    HeldBounds(threads[t + 1..]);
  }

  lemma {:induction false} OnStackAppended(stack: seq<Frame>, f: Frame, run: nat, stage: nat)
    ensures OnStack(stack + [f], run, stage)
            == OnStack(stack, run, stage) + if f.run == run && f.stage == stage then 1 else 0
  {
    if stack == [] {
      assert stack + [f] == [f] && [f][1..] == [];
    } else {
      OnStackAppended(stack[1..], f, run, stage);
      assert (stack + [f])[1..] == stack[1..] + [f];
    }
  }

  lemma {:induction false} OnStackPositive(stack: seq<Frame>, k: nat)
    requires k < |stack|
    ensures 1 <= OnStack(stack, stack[k].run, stack[k].stage)
  {
    if k > 0 {
      OnStackPositive(stack[1..], k - 1);
    }
  }

  lemma {:induction false} OnStackNone(stack: seq<Frame>, run: nat, stage: nat)
    requires forall k :: 0 <= k < |stack| ==> stack[k].run != run
    ensures OnStack(stack, run, stage) == 0
  {
    if stack != [] {
      OnStackNone(stack[1..], run, stage);
    }
  }

  lemma {:induction false} FramesReplaced(threads: seq<Thread>, t: nat, th: Thread, run: nat, stage: nat)
    requires t < |threads|
    ensures FramesOf(threads[t := th], run, stage)
            == FramesOf(threads, run, stage) - OnStack(threads[t].stack, run, stage) + OnStack(th.stack, run, stage)
    ensures OnStack(threads[t].stack, run, stage) <= FramesOf(threads, run, stage)
  {
    if t > 0 {
      assert threads[t := th][1..] == threads[1..][t - 1 := th];
      FramesReplaced(threads[1..], t - 1, th, run, stage);
    }
  }

  lemma {:induction false} FramesAppended(threads: seq<Thread>, th: Thread, run: nat, stage: nat)
    ensures FramesOf(threads + [th], run, stage) == FramesOf(threads, run, stage) + OnStack(th.stack, run, stage)
  {
    if threads == [] {
      assert threads + [th] == [th] && [th][1..] == [];
    } else {
      FramesAppended(threads[1..], th, run, stage);
      assert (threads + [th])[1..] == threads[1..] + [th];
    }
  }

  lemma {:induction false} FramesNone(threads: seq<Thread>, run: nat, stage: nat)
    requires forall t :: 0 <= t < |threads| ==> !InRun(threads[t], run)
    ensures FramesOf(threads, run, stage) == 0
  {
    if threads != [] {
      assert !InRun(threads[0], run);
      OnStackNone(threads[0].stack, run, stage);
      FramesNone(threads[1..], run, stage);
    }
  }

  /** Two threads execute the same stages. */
  ghost predicate SameFrames(th: Thread, th': Thread) {
    forall run: nat, stage: nat :: OnStack(th.stack, run, stage) == OnStack(th'.stack, run, stage)
  }

  lemma TopSameFrames(th: Thread, frame: Frame)
    requires th.stack != [] && frame.run == th.Top().run && frame.stage == th.Top().stage
    ensures SameFrames(th, th.WithTop(frame))
  {
    var below := th.stack[..|th.stack| - 1];
    assert th.stack == below + [th.Top()] && th.WithTop(frame).stack == below + [frame];
    forall run: nat, stage: nat
      ensures OnStack(th.stack, run, stage) == OnStack(th.WithTop(frame).stack, run, stage)
    {
      OnStackAppended(below, th.Top(), run, stage);
      OnStackAppended(below, frame, run, stage);
    }
  }

  lemma CountsKept(threads: seq<Thread>, runs: seq<Run>, t: nat, th: Thread)
    requires AllCounts(threads, runs) && t < |threads| && SameFrames(threads[t], th)
    ensures AllCounts(threads[t := th], runs)
  {
    var threads' := threads[t := th];
    forall run: nat, stage: nat | run < |runs|
      ensures CountAt(threads', runs, run, stage)
    {
      assert CountAt(threads, runs, run, stage);
      FramesReplaced(threads, t, th, run, stage);
    }
  }

  /** A frame's stage is in flight. */
  lemma FrameFlies(s: System, t: nat, k: nat)
    requires Sound(s) && t < |s.threads| && k < |s.threads[t].stack|
    ensures s.threads[t].stack[k].run < |s.runs|
    ensures s.threads[t].stack[k].stage in s.runs[s.threads[t].stack[k].run].book.flying
  {
    var f := s.threads[t].stack[k];
    SoundThread(s, t);
    assert PlacedAt(s.threads[t].stack, k, t, s.runs);
    OnStackPositive(s.threads[t].stack, k);
    FramesReplaced(s.threads, t, s.threads[t], f.run, f.stage);
    assert CountAt(s.threads, s.runs, f.run, f.stage);
  }

  lemma NotFlying(s: System, run: nat, t: nat)
    requires Sound(s) && run < |s.runs| && s.runs[run].book.flying == {} && t < |s.threads|
    ensures !InRun(s.threads[t], run)
  {
    forall k | 0 <= k < |s.threads[t].stack|
      ensures s.threads[t].stack[k].run != run
    {
      FrameFlies(s, t, k);
    }
  }

  /** The top of a stack is replaced by a frame of the same run. */
  lemma TopReplaced(th: Thread, frame: Frame, t: nat, runs: seq<Run>)
    requires Stacked(th.stack) && th.stack != [] && frame.run == th.Top().run
    requires frame.phase.Acquiring? || frame.token == (1 < |th.stack|)
    requires forall k: nat :: k < |th.stack| ==> PlacedAt(th.stack, k, t, runs)
    requires Placed(frame, t, runs)
    ensures var stack := th.WithTop(frame).stack;
            Stacked(stack) && forall k: nat :: k < |stack| ==> PlacedAt(stack, k, t, runs)
  {
    var stack := th.WithTop(frame).stack;
    hide Placed;
    forall k: nat | k < |stack|
      ensures Tokened(stack, k) && PlacedAt(stack, k, t, runs)
    {
      assert Tokened(th.stack, k) && PlacedAt(th.stack, k, t, runs);
    }
    forall k: nat | k + 1 < |stack|
      ensures LendsUp(stack, k)
    {
      assert LendsUp(th.stack, k);
    }
  }

  /** A thread lends to all the runs that it lent to before. */
  ghost predicate StillLends(th: Thread, th': Thread) {
    forall r :: Lends(th, r) ==> Lends(th', r)
  }

  lemma TopStillLends(th: Thread, frame: Frame)
    requires th.stack != [] && !th.Top().phase.Lending?
    ensures StillLends(th, th.WithTop(frame))
  {
    forall r | Lends(th, r)
      ensures Lends(th.WithTop(frame), r)
    {
      var k :| 0 <= k < |th.stack| && th.stack[k].phase == Lending(r);
      assert th.WithTop(frame).stack[k] == th.stack[k];
    }
  }

  lemma RunsStillCalled(threads: seq<Thread>, runs: seq<Run>, t: nat, th: Thread)
    requires AllRuns(runs, threads) && t < |threads| && StillLends(threads[t], th)
    ensures AllRuns(runs, threads[t := th])
  {
    var threads' := threads[t := th];
    forall r: nat | r < |runs|
      ensures RunAt(runs, r, threads')
    {
      assert RunAt(runs, r, threads);
    }
    hide Lends;
  }

  lemma ThreadReplaced(threads: seq<Thread>, runs: seq<Run>, t: nat, th: Thread)
    requires AllThreads(threads, runs) && t < |threads| && ThreadOk(th, t, runs)
    ensures AllThreads(threads[t := th], runs)
  {
    var threads' := threads[t := th];
    hide ThreadOk;
    forall u: nat | u < |threads|
      ensures ThreadAt(threads', u, runs)
    {
      assert ThreadAt(threads, u, runs);
    }
  }

  /** Nothing changes at the bottom of a stack. */
  predicate SameBase(th: Thread, th': Thread) {
    th'.Idle() || (!th.Idle() && th'.stack[0].run == th.stack[0].run)
  }

  /** A thread moves and the pool counts what it took or gave back. */
  lemma PutKeeps(s: System, t: nat, th: Thread, permits: int)
    requires Sound(s) && t < |s.threads| && ThreadOk(th, t, s.runs) && SameBase(s.threads[t], th)
    requires StillLends(s.threads[t], th) && SameFrames(s.threads[t], th)
    requires permits == s.permits + s.threads[t].holding - th.holding && 0 <= permits
    ensures Sound(Put(s.(permits := permits), t, th))
  {
    hide ThreadOk, Held, AllThreads, AllRuns, StillLends, AllCounts, SameFrames;
    CountsKept(s.threads, s.runs, t, th);
    ThreadReplaced(s.threads, s.runs, t, th);
    RunsStillCalled(s.threads, s.runs, t, th);
    HeldReplaced(s.threads, t, th);
  }

  lemma TopPlaced(th: Thread, t: nat, runs: seq<Run>)
    requires ThreadOk(th, t, runs) && th.stack != []
    ensures Placed(th.Top(), t, runs) && (th.Top().phase.Acquiring? || th.Top().token == (1 < |th.stack|))
  {
    assert PlacedAt(th.stack, |th.stack| - 1, t, runs) && Tokened(th.stack, |th.stack| - 1);
  }

  lemma AcquiredOk(th: Thread, t: nat, runs: seq<Run>)
    requires ThreadOk(th, t, runs) && th.Is(Acquiring)
    ensures var th' := AcquiredThread(th);
            ThreadOk(th', t, runs) && SameBase(th, th') && StillLends(th, th') && SameFrames(th, th')
  {
    var frame := th.Top().(phase := Executing, token := th.flag);
    TopPlaced(th, t, runs);
    TopReplaced(th, frame, t, runs);
    TopStillLends(th, frame);
    TopSameFrames(th, frame);
    assert AcquiredThread(th).stack == th.WithTop(frame).stack;
  }

  lemma ReacquiredOk(th: Thread, t: nat, runs: seq<Run>)
    requires ThreadOk(th, t, runs) && th.Is(Reacquiring)
    ensures var th' := ReacquiredThread(th);
            ThreadOk(th', t, runs) && SameBase(th, th') && StillLends(th, th') && SameFrames(th, th')
  {
    var frame := th.Top().(phase := Executing);
    TopPlaced(th, t, runs);
    TopReplaced(th, frame, t, runs);
    TopStillLends(th, frame);
    TopSameFrames(th, frame);
    assert ReacquiredThread(th).stack == th.WithTop(frame).stack;
  }

  lemma SoundThread(s: System, t: nat)
    requires Sound(s) && t < |s.threads|
    ensures ThreadOk(s.threads[t], t, s.runs) && 0 <= s.permits
  {
    assert ThreadAt(s.threads, t, s.runs);
  }

  lemma AcquireKeeps(s: System, t: nat)
    requires Sound(s) && Enabled(s, Acquire(t))
    ensures Sound(Step(s, Acquire(t)))
  {
    hide Sound, ThreadOk, StillLends, SameBase, SameFrames;
    SoundThread(s, t);
    AcquiredOk(s.threads[t], t, s.runs);
    PutKeeps(s, t, AcquiredThread(s.threads[t]), s.permits - 1);
  }

  lemma ReacquireKeeps(s: System, t: nat)
    requires Sound(s) && Enabled(s, Reacquire(t))
    ensures Sound(Step(s, Reacquire(t)))
  {
    hide Sound, ThreadOk, StillLends, SameBase, SameFrames;
    SoundThread(s, t);
    ReacquiredOk(s.threads[t], t, s.runs);
    PutKeeps(s, t, ReacquiredThread(s.threads[t]), s.permits - 1);
  }

  /** While a thread executes, the pool is below its bound. */
  lemma ExecutingHolds(s: System, t: nat)
    requires Sound(s) && t < |s.threads| && s.threads[t].Is(Executing)
    ensures s.permits < s.jobs && s.threads[t].holding == 1 && s.threads[t].flag
  {
    SoundThread(s, t);
    HeldWithin(s.threads, s.runs, t);
    hide AllThreads, AllRuns, Held;
  }

  lemma EndedOk(th: Thread, t: nat, runs: seq<Run>)
    requires ThreadOk(th, t, runs) && th.Is(Executing)
    ensures var th' := EndedThread(th);
            ThreadOk(th', t, runs) && SameBase(th, th') && StillLends(th, th') && SameFrames(th, th')
  {
    var frame := th.Top().(phase := Leaving);
    TopPlaced(th, t, runs);
    TopReplaced(th, frame, t, runs);
    TopStillLends(th, frame);
    TopSameFrames(th, frame);
    assert EndedThread(th).stack == th.WithTop(frame).stack;
  }

  lemma EndKeeps(s: System, t: nat)
    requires Sound(s) && Enabled(s, End(t))
    ensures Sound(Step(s, End(t)))
  {
    hide Sound, ThreadOk, StillLends, SameBase, SameFrames;
    SoundThread(s, t);
    ExecutingHolds(s, t);
    EndedOk(s.threads[t], t, s.runs);
    PutKeeps(s, t, EndedThread(s.threads[t]), s.permits + 1);
  }

  /** A stack without its top frame, which lends to nothing. */
  lemma LeftOk(th: Thread, t: nat, runs: seq<Run>)
    requires ThreadOk(th, t, runs) && th.Is(Leaving)
    ensures ThreadOk(LeftThread(th), t, runs) && SameBase(th, LeftThread(th)) && StillLends(th, LeftThread(th))
  {
    var th' := LeftThread(th);
    var n := |th.stack|;
    TopPlaced(th, t, runs);
    assert 1 < n ==> LendsUp(th.stack, n - 2);
    hide Placed;
    forall k: nat | k < |th'.stack|
      ensures Tokened(th'.stack, k) && PlacedAt(th'.stack, k, t, runs)
    {
      assert Tokened(th.stack, k) && PlacedAt(th.stack, k, t, runs);
    }
    forall k: nat | k + 1 < |th'.stack|
      ensures LendsUp(th'.stack, k)
    {
      assert LendsUp(th.stack, k);
    }
    forall r | Lends(th, r)
      ensures Lends(th', r)
    {
      var k :| 0 <= k < n && th.stack[k].phase == Lending(r);
      assert th'.stack[k] == th.stack[k];
    }
  }

  /** What is asked of a thread does not depend on the books. */
  lemma BookThread(th: Thread, t: nat, runs: seq<Run>, run: nat, book: Book)
    requires ThreadOk(th, t, runs) && run < |runs|
    ensures ThreadOk(th, t, WithBook(runs, run, book))
  {
    forall k: nat | k < |th.stack|
      ensures PlacedAt(th.stack, k, t, WithBook(runs, run, book))
    {
      assert PlacedAt(th.stack, k, t, runs);
    }
  }

  lemma BookThreads(threads: seq<Thread>, runs: seq<Run>, run: nat, book: Book)
    requires AllThreads(threads, runs) && run < |runs|
    ensures AllThreads(threads, WithBook(runs, run, book))
  {
    var runs' := WithBook(runs, run, book);
    forall u: nat | u < |threads|
      ensures ThreadAt(threads, u, runs')
    {
      assert ThreadAt(threads, u, runs);
      BookThread(threads[u], u, runs, run, book);
    }
    hide ThreadOk;
  }

  lemma BookRuns(threads: seq<Thread>, runs: seq<Run>, run: nat, book: Book)
    requires AllRuns(runs, threads) && run < |runs| && runs[run].open
    requires book.graph == runs[run].book.graph && BookOk(book, runs[run].jobs)
    ensures AllRuns(WithBook(runs, run, book), threads)
  {
    var runs' := WithBook(runs, run, book);
    forall r: nat | r < |runs|
      ensures RunAt(runs', r, threads)
    {
      assert RunAt(runs, r, threads);
    }
    hide Lends, BookOk, Runnable;
  }

  /** A stage more or fewer is in flight, and one frame more or fewer executes it. */
  lemma BookCounts(threads: seq<Thread>, threads': seq<Thread>, runs: seq<Run>, run: nat, stage: nat, book: Book)
    requires AllCounts(threads, runs) && run < |runs|
    requires forall i: nat :: i != stage ==> (i in book.flying <==> i in runs[run].book.flying)
    requires stage in book.flying <==> stage !in runs[run].book.flying
    requires forall r: nat, i: nat :: FramesOf(threads', r, i) == FramesOf(threads, r, i)
               + if r == run && i == stage then (if stage in book.flying then 1 else -1) else 0
    ensures AllCounts(threads', WithBook(runs, run, book))
  {
    var runs' := WithBook(runs, run, book);
    forall r: nat, i: nat | r < |runs'|
      ensures CountAt(threads', runs', r, i)
    {
      assert CountAt(threads, runs, r, i);
    }
    hide FramesOf;
  }

  lemma FlyingBook(book: Book, jobs: nat, stage: nat)
    requires BookOk(book, jobs) && book.Startable(stage) && |book.flying| < jobs
    ensures BookOk(book.(flying := book.flying + {stage}), jobs)
  {
  }

  lemma LandedBook(book: Book, jobs: nat, stage: nat, success: bool)
    requires BookOk(book, jobs) && stage in book.flying
    ensures BookOk(Booked(book, stage, success), jobs)
  {
    SubsetCount(book.flying - {stage}, book.flying);
  }

  lemma StartedOk(th: Thread, t: nat, runs: seq<Run>, run: nat, stage: nat)
    requires ThreadOk(th, t, runs) && run < |runs| && runs[run].open && (th.Idle() || th.Is(Lending(run)))
    ensures ThreadOk(StartedThread(th, run, stage), t, runs) && StillLends(th, StartedThread(th, run, stage))
  {
    var th' := StartedThread(th, run, stage);
    assert Placed(Frame(run, stage, Acquiring, false), t, runs);
    hide Placed;
    forall k: nat | k < |th'.stack|
      ensures Tokened(th'.stack, k) && PlacedAt(th'.stack, k, t, runs)
    {
      assert k < |th.stack| ==> Tokened(th.stack, k) && PlacedAt(th.stack, k, t, runs);
    }
    forall k: nat | k + 1 < |th'.stack|
      ensures LendsUp(th'.stack, k)
    {
      assert k + 1 < |th.stack| ==> LendsUp(th.stack, k);
    }
    forall r | Lends(th, r)
      ensures Lends(th', r)
    {
      var k :| 0 <= k < |th.stack| && th.stack[k].phase == Lending(r);
      assert th'.stack[k] == th.stack[k];
    }
  }

  lemma ThreadAdded(threads: seq<Thread>, runs: seq<Run>, th: Thread)
    requires AllThreads(threads, runs) && AllRuns(runs, threads) && ThreadOk(th, |threads|, runs)
    ensures AllThreads(threads + [th], runs) && AllRuns(runs, threads + [th])
  {
    hide ThreadOk, Lends, Runnable, BookOk;
    forall u: nat | u < |threads + [th]|
      ensures ThreadAt(threads + [th], u, runs)
    {
      assert u < |threads| ==> ThreadAt(threads, u, runs);
    }
    forall r: nat | r < |runs|
      ensures RunAt(runs, r, threads + [th])
    {
      assert RunAt(runs, r, threads);
    }
  }

  /** The books of a start: the stage flies, and one frame more executes it. */
  lemma StartBooks(s: System, run: nat, stage: nat, t: nat)
    requires Sound(s) && Enabled(s, Start(run, stage, t))
    ensures var s' := StartStep(s, run, stage, t);
            && AllThreads(s.threads, s'.runs) && AllRuns(s'.runs, s.threads) && AllCounts(s'.threads, s'.runs)
  {
    var s' := StartStep(s, run, stage, t);
    var book := s'.runs[run].book;
    assert RunAt(s.runs, run, s.threads);
    FlyingBook(s.runs[run].book, s.runs[run].jobs, stage);
    BookThreads(s.threads, s.runs, run, book);
    BookRuns(s.threads, s.runs, run, book);
    forall r: nat, i: nat
      ensures FramesOf(s'.threads, r, i) == FramesOf(s.threads, r, i) + if r == run && i == stage then 1 else 0
    {
      if t == |s.threads| {
        FramesAppended(s.threads, s'.threads[t], r, i);
        OnStackAppended([], Frame(run, stage, Acquiring, false), r, i);
      } else {
        FramesReplaced(s.threads, t, s'.threads[t], r, i);
        OnStackAppended(s.threads[t].stack, Frame(run, stage, Acquiring, false), r, i);
      }
    }
    hide AllThreads, AllRuns, FramesOf, OnStack, AllCounts;
    BookCounts(s.threads, s'.threads, s.runs, run, stage, book);
  }

  lemma NewThreadKeeps(s: System, run: nat, stage: nat)
    requires Sound(s) && Enabled(s, Start(run, stage, |s.threads|))
    ensures Sound(StartStep(s, run, stage, |s.threads|))
  {
    var s' := StartStep(s, run, stage, |s.threads|);
    var th := StartedThread(Thread(false, 0, []), run, stage);
    assert ThreadOk(Thread(false, 0, []), |s.threads|, s'.runs);
    hide ThreadOk, StillLends, Held, AllThreads, AllRuns, AllCounts;
    StartBooks(s, run, stage, |s.threads|);
    StartedOk(Thread(false, 0, []), |s.threads|, s'.runs, run, stage);
    HeldAppended(s.threads, th);
    ThreadAdded(s.threads, s'.runs, th);
  }

  lemma StartKeeps(s: System, run: nat, stage: nat, t: nat)
    requires Sound(s) && Enabled(s, Start(run, stage, t))
    ensures Sound(StartStep(s, run, stage, t))
  {
    if t == |s.threads| {
      NewThreadKeeps(s, run, stage);
    } else {
      var s', th := StartStep(s, run, stage, t), s.threads[t];
      StartBooks(s, run, stage, t);
      SoundThread(s, t);
      hide ThreadOk, StillLends, AllThreads, AllRuns, Held, AllCounts;
      BookThread(th, t, s.runs, run, s'.runs[run].book);
      StartedOk(th, t, s'.runs, run, stage);
      ThreadReplaced(s.threads, s'.runs, t, StartedThread(th, run, stage));
      RunsStillCalled(s.threads, s'.runs, t, StartedThread(th, run, stage));
      HeldReplaced(s.threads, t, StartedThread(th, run, stage));
    }
  }

  lemma LeaveFrames(threads: seq<Thread>, t: nat, run: nat, stage: nat)
    requires t < |threads| && threads[t].stack != []
    ensures var frame := threads[t].Top();
            FramesOf(threads[t := LeftThread(threads[t])], run, stage)
            == FramesOf(threads, run, stage) + if run == frame.run && stage == frame.stage then -1 else 0
  {
    var th := threads[t];
    assert th.stack == LeftThread(th).stack + [th.Top()];
    FramesReplaced(threads, t, LeftThread(th), run, stage);
    OnStackAppended(LeftThread(th).stack, th.Top(), run, stage);
  }

  /** The stage of the top frame flies, and is neither done nor lost; its run is open and its books are in order. */
  lemma FlyingOnly(s: System, t: nat)
    requires Sound(s) && t < |s.threads| && s.threads[t].stack != []
    ensures var frame := s.threads[t].Top();
            && frame.run < |s.runs| && s.runs[frame.run].open
            && var book := s.runs[frame.run].book;
            && BookOk(book, s.runs[frame.run].jobs)
            && frame.stage in book.flying && frame.stage !in book.done && frame.stage !in book.lost
  {
    FrameFlies(s, t, |s.threads[t].stack| - 1);
    SoundThread(s, t);
    TopPlaced(s.threads[t], t, s.runs);
    assert RunAt(s.runs, s.threads[t].Top().run, s.threads);
  }

  lemma BookedFlying(book: Book, stage: nat, success: bool)
    ensures var book' := Booked(book, stage, success);
            book'.graph == book.graph && forall i: nat :: i in book'.flying <==> i in book.flying && i != stage
  {
  }

  lemma AllSound(s: System)
    requires Sound(s)
    ensures AllThreads(s.threads, s.runs) && AllRuns(s.runs, s.threads) && AllCounts(s.threads, s.runs)
  {
  }

  /** The books of a stage that leaves: it flies no more, and no frame executes it. */
  lemma LeaveBooks(s: System, t: nat, success: bool)
    requires Sound(s) && t < |s.threads| && s.threads[t].stack != [] && s.threads[t].Top().run < |s.runs|
    ensures var frame := s.threads[t].Top();
            var runs := WithBook(s.runs, frame.run, Booked(s.runs[frame.run].book, frame.stage, success));
            && AllThreads(s.threads, runs) && AllRuns(runs, s.threads)
            && AllCounts(s.threads[t := LeftThread(s.threads[t])], runs)
  {
    hide *;
    var threads', frame := s.threads[t := LeftThread(s.threads[t])], s.threads[t].Top();
    var run := s.runs[frame.run];
    var book := Booked(run.book, frame.stage, success);
    AllSound(s);
    FlyingOnly(s, t);
    BookedFlying(run.book, frame.stage, success);
    LandedBook(run.book, run.jobs, frame.stage, success);
    forall r: nat, i: nat
      ensures FramesOf(threads', r, i)
              == FramesOf(s.threads, r, i) + if r == frame.run && i == frame.stage then -1 else 0
    {
      LeaveFrames(s.threads, t, r, i);
    }
    BookThreads(s.threads, s.runs, frame.run, book);
    BookRuns(s.threads, s.runs, frame.run, book);
    BookCounts(s.threads, threads', s.runs, frame.run, frame.stage, book);
  }

  lemma LeaveKeeps(s: System, t: nat, success: bool)
    requires Sound(s) && Enabled(s, Leave(t, success))
    ensures Sound(LeaveStep(s, t, success))
  {
    var s', th := LeaveStep(s, t, success), s.threads[t];
    LeaveBooks(s, t, success);
    SoundThread(s, t);
    hide ThreadOk, StillLends, AllThreads, AllRuns, Held, AllCounts;
    BookThread(th, t, s.runs, th.Top().run, s'.runs[th.Top().run].book);
    LeftOk(th, t, s'.runs);
    ThreadReplaced(s.threads, s'.runs, t, LeftThread(th));
    RunsStillCalled(s.threads, s'.runs, t, LeftThread(th));
    HeldReplaced(s.threads, t, LeftThread(th));
  }

  /** Open runs stay open when others are added behind them. */
  lemma PlacedMore(th: Thread, t: nat, runs: seq<Run>, run: Run)
    requires ThreadOk(th, t, runs)
    ensures ThreadOk(th, t, runs + [run])
  {
    forall k: nat | k < |th.stack|
      ensures PlacedAt(th.stack, k, t, runs + [run])
    {
      assert PlacedAt(th.stack, k, t, runs);
    }
  }

  lemma LentOk(th: Thread, t: nat, runs: seq<Run>, run: Run)
    requires ThreadOk(th, t, runs) && th.Is(Executing) && run.caller == t && run.open
    ensures var th' := LentThread(th, |runs|);
            && ThreadOk(th', t, runs + [run]) && SameBase(th, th') && Lends(th', |runs|)
            && StillLends(th, th') && SameFrames(th, th')
  {
    var frame := th.Top().(phase := Lending(|runs|));
    TopPlaced(th, t, runs);
    PlacedMore(th, t, runs, run);
    TopReplaced(th, frame, t, runs + [run]);
    TopStillLends(th, frame);
    TopSameFrames(th, frame);
    assert LentThread(th, |runs|).stack == th.WithTop(frame).stack;
    assert LentThread(th, |runs|).stack[|th.stack| - 1].phase == Lending(|runs|);
  }

  lemma RunAdded(threads: seq<Thread>, runs: seq<Run>, t: nat, th: Thread, run: Run)
    requires AllThreads(threads, runs) && AllRuns(runs, threads) && t < |threads| && run.caller == t && run.open
    requires Runnable(run.jobs, run.book.graph) && BookOk(run.book, run.jobs)
    requires ThreadOk(th, t, runs + [run]) && Lends(th, |runs|) && StillLends(threads[t], th)
    ensures AllThreads(threads[t := th], runs + [run]) && AllRuns(runs + [run], threads[t := th])
  {
    var threads' := threads[t := th];
    var runs' := runs + [run];
    hide ThreadOk, Lends, Runnable, BookOk;
    forall u: nat | u < |threads|
      ensures ThreadAt(threads', u, runs')
    {
      assert ThreadAt(threads, u, runs);
      PlacedMore(threads[u], u, runs, run);
    }
    forall r: nat | r < |runs'|
      ensures RunAt(runs', r, threads')
    {
      assert r < |runs| ==> RunAt(runs, r, threads);
    }
  }

  /** No frame is of a run that is yet to come. */
  lemma CountsAdded(threads: seq<Thread>, runs: seq<Run>, run: Run)
    requires AllThreads(threads, runs) && AllCounts(threads, runs) && run.book.flying == {}
    ensures AllCounts(threads, runs + [run])
  {
    forall t | 0 <= t < |threads|
      ensures !InRun(threads[t], |runs|)
    {
      assert ThreadAt(threads, t, runs);
      forall k | 0 <= k < |threads[t].stack|
        ensures threads[t].stack[k].run != |runs|
      {
        assert PlacedAt(threads[t].stack, k, t, runs);
      }
    }
    forall r: nat, i: nat | r < |runs + [run]|
      ensures CountAt(threads, runs + [run], r, i)
    {
      if r < |runs| {
        assert CountAt(threads, runs, r, i);
      } else {
        FramesNone(threads, r, i);
      }
    }
  }

  /** A body that calls a run always lends its permit: its thread's flag is set. */
  lemma CallKeeps(s: System, t: nat, jobs: nat, graph: Graph)
    requires Sound(s) && Enabled(s, Call(t, jobs, graph))
    ensures Sound(CallStep(s, t, jobs, graph))
    ensures CallStep(s, t, jobs, graph).permits == s.permits + 1
  {
    var run := NewRun(t, jobs, graph);
    SoundThread(s, t);
    ExecutingHolds(s, t);
    assert BookOk(run.book, run.jobs);
    CountsAdded(s.threads, s.runs, run);
    hide ThreadOk, Lends, StillLends, Held, AllThreads, AllRuns, AllCounts, SameFrames, Runnable, BookOk;
    var th' := LentThread(s.threads[t], |s.runs|);
    LentOk(s.threads[t], t, s.runs, run);
    CountsKept(s.threads, s.runs + [run], t, th');
    RunAdded(s.threads, s.runs, t, th', run);
    HeldReplaced(s.threads, t, th');
  }

  function Ended(runs: seq<Run>, run: nat): seq<Run>
    requires run < |runs|
  {
    runs[run := runs[run].(open := false)]
  }

  /** No frame is of the run that ends, nor lends to it but at the top of its caller. */
  lemma EndRunPlaced(f: Frame, t: nat, runs: seq<Run>, run: nat)
    requires Placed(f, t, runs) && run < |runs| && f.run != run && f.phase != Lending(run)
    ensures Placed(f, t, Ended(runs, run))
  {
  }

  lemma EndRunThread(s: System, run: nat, u: nat)
    requires Sound(s) && Enabled(s, EndRun(run)) && u < |s.threads|
    requires run == 0 || u != s.runs[run].caller
    ensures ThreadAt(s.threads, u, Ended(s.runs, run))
  {
    var th := s.threads[u];
    SoundThread(s, u);
    NotFlying(s, run, u);
    forall k: nat | k < |th.stack|
      ensures PlacedAt(th.stack, k, u, Ended(s.runs, run))
    {
      assert PlacedAt(th.stack, k, u, s.runs);
      EndRunPlaced(th.stack[k], u, s.runs, run);
    }
  }

  lemma EndRunCaller(s: System, run: nat)
    requires Sound(s) && Enabled(s, EndRun(run)) && 0 < run
    ensures var t := s.runs[run].caller;
            ThreadOk(ReturnedThread(s.threads[t]), t, Ended(s.runs, run))
  {
    var t := s.runs[run].caller;
    var th := s.threads[t];
    var frame := th.Top().(phase := Reacquiring);
    SoundThread(s, t);
    NotFlying(s, run, t);
    TopPlaced(th, t, s.runs);
    TopReplaced(th, frame, t, s.runs);
    var th' := ReturnedThread(th);
    assert th'.stack == th.WithTop(frame).stack;
    forall k: nat | k < |th'.stack|
      ensures PlacedAt(th'.stack, k, t, Ended(s.runs, run))
    {
      assert PlacedAt(th'.stack, k, t, s.runs) && th.stack[k].run != run;
      if k + 1 < |th.stack| {
        assert LendsUp(th.stack, k) && th.stack[k + 1].run != run;
      }
      EndRunPlaced(th'.stack[k], t, s.runs, run);
    }
  }

  /** A thread that lends to all the runs that it lent to before, but for one. */
  ghost predicate LendsBut(th: Thread, th': Thread, run: nat) {
    forall r :: Lends(th, r) && r != run ==> Lends(th', r)
  }

  lemma ReturnedLends(th: Thread, run: nat)
    requires th.Is(Lending(run))
    ensures LendsBut(th, ReturnedThread(th), run)
  {
    forall r | Lends(th, r) && r != run
      ensures Lends(ReturnedThread(th), r)
    {
      var k :| 0 <= k < |th.stack| && th.stack[k].phase == Lending(r);
      assert ReturnedThread(th).stack[k] == th.stack[k];
    }
  }

  lemma EndRunRuns(threads: seq<Thread>, runs: seq<Run>, run: nat, t: nat, th: Thread)
    requires AllRuns(runs, threads) && run < |runs| && t < |threads| && LendsBut(threads[t], th, run)
    requires runs[run].book.Over()
    ensures AllRuns(Ended(runs, run), threads[t := th])
  {
    var threads' := threads[t := th];
    var runs' := Ended(runs, run);
    hide Lends, Runnable, BookOk;
    forall r: nat | r < |runs|
      ensures RunAt(runs', r, threads')
    {
      assert RunAt(runs, r, threads);
    }
  }

  lemma EndRunThreads(s: System, run: nat)
    requires Sound(s) && Enabled(s, EndRun(run))
    ensures AllThreads(EndRunStep(s, run).threads, EndRunStep(s, run).runs)
  {
    var s' := EndRunStep(s, run);
    if 0 < run {
      EndRunCaller(s, run);
    }
    forall u: nat | u < |s.threads|
      ensures ThreadAt(s'.threads, u, s'.runs)
    {
      if run == 0 || u != s.runs[run].caller {
        EndRunThread(s, run, u);
      }
      hide ThreadOk, Sound;
    }
  }

  lemma EndRunCounts(threads: seq<Thread>, runs: seq<Run>, run: nat)
    requires AllCounts(threads, runs) && run < |runs|
    ensures AllCounts(threads, Ended(runs, run))
  {
    var runs' := Ended(runs, run);
    forall r: nat, i: nat | r < |runs'|
      ensures CountAt(threads, runs', r, i)
    {
      assert CountAt(threads, runs, r, i);
    }
    hide FramesOf;
  }

  lemma EndRunKeeps(s: System, run: nat)
    requires Sound(s) && Enabled(s, EndRun(run))
    ensures Sound(EndRunStep(s, run))
  {
    var t := s.runs[run].caller;
    EndRunThreads(s, run);
    EndRunCounts(s.threads, s.runs, run);
    assert RunAt(s.runs, run, s.threads);
    assert LendsBut(s.threads[t], s.threads[t], run);
    hide ThreadOk, Lends, LendsBut, Held, AllRuns, AllThreads, InRun, AllCounts, Runnable, BookOk;
    if 0 < run {
      var th' := ReturnedThread(s.threads[t]);
      ReturnedLends(s.threads[t], run);
      EndRunRuns(s.threads, s.runs, run, t, th');
      TopSameFrames(s.threads[t], s.threads[t].Top().(phase := Reacquiring));
      CountsKept(s.threads, Ended(s.runs, run), t, th');
      HeldReplaced(s.threads, t, th');
    } else {
      EndRunRuns(s.threads, s.runs, run, t, s.threads[t]);
      assert s.threads[t := s.threads[t]] == s.threads;
    }
  }

  lemma StepKeeps(s: System, a: Action)
    requires Sound(s) && Enabled(s, a)
    ensures Sound(Step(s, a))
  {
    hide Sound;
    match a
    case Start(run, stage, t) => StartKeeps(s, run, stage, t);
    case Acquire(t) => AcquireKeeps(s, t);
    case Call(t, jobs, graph) => CallKeeps(s, t, jobs, graph);
    case EndRun(run) => EndRunKeeps(s, run);
    case Reacquire(t) => ReacquireKeeps(s, t);
    case End(t) => EndKeeps(s, t);
    case Leave(t, success) => LeaveKeeps(s, t, success);
  }

  lemma BeginSound(jobs: nat, graph: Graph)
    requires Runnable(jobs, graph)
    ensures Sound(Begin(jobs, graph))
  {
    var s := Begin(jobs, graph);
    assert Held(s.threads) == 0 + Held([]);
    forall run: nat, stage: nat | run < |s.runs|
      ensures CountAt(s.threads, s.runs, run, stage)
    {
      FramesNone(s.threads, run, stage);
    }
  }

  lemma {:induction false} EveryRun(jobs: nat, graph: Graph, actions: seq<Action>)
    requires Runnable(jobs, graph) && Legal(Begin(jobs, graph), actions)
    ensures Sound(Execute(Begin(jobs, graph), actions))
  {
    hide Step, Sound, Runnable, Enabled;
    if actions == [] {
      BeginSound(jobs, graph);
    } else {
      EveryRun(jobs, graph, actions[..|actions| - 1]);
      StepKeeps(Execute(Begin(jobs, graph), actions[..|actions| - 1]), actions[|actions| - 1]);
    }
  }

  // ----- what the pool promises -----

  /** How many bodies on a stack are executing. */
  function ExecutingOn(stack: seq<Frame>): nat {
    if stack == [] then 0 else (if stack[0].phase == Executing then 1 else 0) + ExecutingOn(stack[1..])
  }

  function ExecutingBodies(threads: seq<Thread>): nat {
    if threads == [] then 0 else ExecutingOn(threads[0].stack) + ExecutingBodies(threads[1..])
  }

  lemma {:induction false} OnlyTopExecutes(stack: seq<Frame>)
    requires forall k :: 0 <= k < |stack| - 1 ==> stack[k].phase.Lending?
    ensures ExecutingOn(stack) == if stack != [] && stack[|stack| - 1].phase == Executing then 1 else 0
  {
    if |stack| > 1 {
      OnlyTopExecutes(stack[1..]);
    }
  }

  lemma ThreadExecuting(th: Thread)
    requires Stacked(th.stack) && Flagged(th)
    ensures th.holding == ExecutingOn(th.stack)
  {
    forall k | 0 <= k < |th.stack| - 1
      ensures th.stack[k].phase.Lending?
    {
      assert LendsUp(th.stack, k);
    }
    OnlyTopExecutes(th.stack);
  }

  lemma {:induction false} HeldIsExecuting(threads: seq<Thread>)
    requires forall t :: 0 <= t < |threads| ==> threads[t].holding == ExecutingOn(threads[t].stack)
    ensures Held(threads) == ExecutingBodies(threads)
  {
    if threads != [] {
      HeldIsExecuting(threads[1..]);
    }
  }

  /**
   In every run, however runs are nested: the free permits and the executing bodies make up the pool, no release
   goes beyond its bound, every nested run is lent the permit of its caller, and a thread that waits, for a permit
   or for a run of its own, holds none.
   */
  lemma PermitLaw(jobs: nat, graph: Graph, actions: seq<Action>)
    requires Runnable(jobs, graph) && Legal(Begin(jobs, graph), actions)
    ensures var s := Execute(Begin(jobs, graph), actions);
            && s.permits + ExecutingBodies(s.threads) == s.jobs == jobs && 0 <= s.permits
            && !s.overrun && !s.strayed
            && (forall t :: 0 <= t < |s.threads| && !s.threads[t].Is(Executing) ==> s.threads[t].holding == 0)
  {
    EveryRun(jobs, graph, actions);
    JobsFixed(jobs, graph, actions);
    var s := Execute(Begin(jobs, graph), actions);
    forall t | 0 <= t < |s.threads|
      ensures s.threads[t].holding == ExecutingOn(s.threads[t].stack)
      ensures !s.threads[t].Is(Executing) ==> s.threads[t].holding == 0
    {
      SoundThread(s, t);
      ThreadExecuting(s.threads[t]);
    }
    HeldIsExecuting(s.threads);
  }

  lemma StepJobs(s: System, a: Action)
    requires Enabled(s, a)
    ensures Step(s, a).jobs == s.jobs
  {
    hide Runnable;
  }

  lemma {:induction false} JobsFixed(jobs: nat, graph: Graph, actions: seq<Action>)
    requires Legal(Begin(jobs, graph), actions)
    ensures Execute(Begin(jobs, graph), actions).jobs == jobs
  {
    hide Step, Enabled;
    if actions != [] {
      JobsFixed(jobs, graph, actions[..|actions| - 1]);
      StepJobs(Execute(Begin(jobs, graph), actions[..|actions| - 1]), actions[|actions| - 1]);
    }
  }

  // ----- progress -----

  /** The open run that was called last. */
  lemma {:induction false} LastOpen(runs: seq<Run>, n: nat) returns (r: nat)
    requires 0 < n <= |runs| && runs[0].open
    ensures r < n && runs[r].open && forall k :: r < k < n ==> !runs[k].open
  {
    if runs[n - 1].open {
      r := n - 1;
    } else {
      r := LastOpen(runs, n - 1);
    }
  }

  lemma NoLendingBody(s: System, r: nat, t: nat)
    requires Sound(s) && r < |s.runs| && (forall k :: r < k < |s.runs| ==> !s.runs[k].open)
    requires t < |s.threads| && (s.threads[t].Idle() || s.threads[t].Top().phase.Lending?)
    ensures !InRun(s.threads[t], r)
  {
    var th := s.threads[t];
    SoundThread(s, t);
    forall k | 0 <= k < |th.stack|
      ensures th.stack[k].run != r
    {
      assert PlacedAt(th.stack, k, t, s.runs);
      assert k + 1 < |th.stack| ==> LendsUp(th.stack, k);
    }
  }

  lemma LendsBelow(th: Thread, r: nat)
    requires Stacked(th.stack) && Lends(th, r)
    ensures InRun(th, r) || th.Is(Lending(r))
  {
    var k: nat :| k < |th.stack| && th.stack[k].phase == Lending(r);
    if k + 1 < |th.stack| {
      assert LendsUp(th.stack, k);
    }
  }

  lemma CallerWaits(s: System, r: nat)
    requires Sound(s) && r < |s.runs| && s.runs[r].open
    ensures var t := s.runs[r].caller; t < |s.threads| && (InRun(s.threads[t], r) || AtCall(s, r))
  {
    assert RunAt(s.runs, r, s.threads);
    var t := s.runs[r].caller;
    SoundThread(s, t);
    if 0 < r {
      LendsBelow(s.threads[t], r);
    }
  }

  lemma {:induction false} SetAsSeq(all: set<nat>) returns (list: seq<nat>)
    ensures forall i: nat :: i in list <==> i in all
    decreases all
  {
    list := [];
    if all != {} {
      var i :| i in all;
      var rest := SetAsSeq(all - {i});
      list := [i] + rest;
    }
  }

  /** While stages are left and none is in flight or has failed, one may start: the graph has no cycle. */
  lemma SomeStageStarts(book: Book, jobs: nat) returns (i: nat)
    requires Runnable(jobs, book.graph) && BookOk(book, jobs) && book.flying == {} && book.lost == {} && !book.Over()
    ensures book.Startable(i)
  {
    var done := SetAsSeq(book.done);
    var left := Below(|book.graph|) - book.done;
    assert book.done + left == Below(|book.graph|);
    var start :| start in left;
    if forall i: nat :: i < |book.graph| && i !in done ==> Waits(book.graph, done, i) {
      BlockedIsCyclic(book.graph, done, start);
      assert false;
    }
    i :| i < |book.graph| && i !in done && !Waits(book.graph, done, i);
  }

  /** The stages of a run that is not over and has none in flight can go on. */
  lemma RunMoves(s: System, r: nat) returns (a: Action)
    requires Sound(s) && r < |s.runs| && s.runs[r].open && s.runs[r].book.flying == {} && AtCall(s, r)
    ensures Enabled(s, a) && (a.EndRun? || a.Start?)
  {
    var run := s.runs[r];
    assert RunAt(s.runs, r, s.threads);
    if run.book.Over() {
      a := EndRun(r);
    } else {
      var stage := SomeStageStarts(run.book, run.jobs);
      a := Start(r, stage, if run.Serial() then run.caller else |s.threads|);
    }
  }

  /**
   Until the outermost run has ended some thread can move without calling a new run: a body takes a permit, ends or
   leaves, a stage starts whose dependencies have results while a job of its run is free, or a run ends all of whose
   stages have results or one of whose stages has failed. No arrangement of nested runs is a deadlock.
   */
  lemma SomeThreadMoves(s: System) returns (a: Action)
    requires Sound(s) && 1 <= s.jobs && s.runs[0].open
    ensures Enabled(s, a) && !a.Call?
    ensures a.EndRun? ==> s.runs[a.run].book.Over()
    ensures a.Start? ==> s.runs[a.run].book.Startable(a.stage) && |s.runs[a.run].book.flying| < s.runs[a.run].jobs
  {
    if t :| 0 <= t < |s.threads| && s.threads[t].Is(Executing) {
      a := End(t);
    } else if t :| 0 <= t < |s.threads| && s.threads[t].Is(Leaving) {
      FrameFlies(s, t, |s.threads[t].stack| - 1);
      a := Leave(t, true);
    } else if t :| 0 <= t < |s.threads| && (s.threads[t].Is(Acquiring) || s.threads[t].Is(Reacquiring)) {
      forall u | 0 <= u < |s.threads|
        ensures s.threads[u].holding == 0
      {
        SoundThread(s, u);
      }
      NothingHeld(s.threads);
      a := if s.threads[t].Is(Acquiring) then Acquire(t) else Reacquire(t);
    } else {
      var r := LastOpen(s.runs, |s.runs|);
      forall t | 0 <= t < |s.threads|
        ensures !InRun(s.threads[t], r)
      {
        NoLendingBody(s, r, t);
      }
      NothingFlies(s, r);
      CallerWaits(s, r);
      a := RunMoves(s, r);
    }
  }

  lemma NothingFlies(s: System, r: nat)
    requires Sound(s) && r < |s.runs| && forall t :: 0 <= t < |s.threads| ==> !InRun(s.threads[t], r)
    ensures s.runs[r].book.flying == {}
  {
    forall i: nat
      ensures i !in s.runs[r].book.flying
    {
      FramesNone(s.threads, r, i);
      assert CountAt(s.threads, s.runs, r, i);
    }
  }

  lemma {:induction false} NothingHeld(threads: seq<Thread>)
    requires forall t :: 0 <= t < |threads| ==> threads[t].holding == 0
    ensures Held(threads) == 0
  {
    if threads != [] {
      NothingHeld(threads[1..]);
    }
  }

  // ----- the end of runs -----

  /** An open run leads down, from caller to caller, to the outermost run. */
  lemma {:induction false} OpenDown(s: System, r: nat)
    requires Sound(s) && r < |s.runs| && s.runs[r].open
    ensures s.runs[0].open
    decreases r
  {
    if 0 < r {
      assert RunAt(s.runs, r, s.threads);
      var t := s.runs[r].caller;
      SoundThread(s, t);
      var k: nat :| k < |s.threads[t].stack| && s.threads[t].stack[k].phase == Lending(r);
      assert PlacedAt(s.threads[t].stack, k, t, s.runs);
      OpenDown(s, s.threads[t].stack[k].run);
    }
  }

  /**
   Nothing is held back: a thread that waits for a permit can take one unless as many bodies as the pool has permits
   are executing, and a run with a free job can start each of its stages whose dependencies have results, on a thread
   of its own or, when it has one job, on its caller.
   */
  lemma CapacityUsable(jobs: nat, graph: Graph, actions: seq<Action>)
    requires Runnable(jobs, graph) && Legal(Begin(jobs, graph), actions)
    ensures var s := Execute(Begin(jobs, graph), actions);
            && (forall t :: 0 <= t < |s.threads| && s.threads[t].Is(Acquiring)
                  ==> Enabled(s, Acquire(t)) || ExecutingBodies(s.threads) == jobs)
            && (forall t :: 0 <= t < |s.threads| && s.threads[t].Is(Reacquiring)
                  ==> Enabled(s, Reacquire(t)) || ExecutingBodies(s.threads) == jobs)
            && (forall run, stage :: 0 <= run < |s.runs| && s.runs[run].open && s.runs[run].book.Startable(stage)
                    && |s.runs[run].book.flying| < s.runs[run].jobs
                  ==> Enabled(s, Start(run, stage, if s.runs[run].Serial() then s.runs[run].caller else |s.threads|)))
  {
    PermitLaw(jobs, graph, actions);
    EveryRun(jobs, graph, actions);
    hide Sound, Execute, Legal, Book.Startable, ExecutingBodies, AtCall, Runnable;
    var s := Execute(Begin(jobs, graph), actions);
    SomeThread(s);
    forall run | 0 <= run < |s.runs| && s.runs[run].open && s.runs[run].Serial() && |s.runs[run].book.flying| < 1
      ensures AtCall(s, run) && s.runs[run].caller <= |s.threads|
    {
      SerialAtCall(s, run);
    }
  }

  /** A run with one job and nothing in flight waits where it was called. */
  lemma SerialAtCall(s: System, run: nat)
    requires Sound(s) && run < |s.runs| && s.runs[run].open && |s.runs[run].book.flying| < 1
    requires s.runs[run].Serial()
    ensures AtCall(s, run) && s.runs[run].caller < |s.threads|
  {
    assert RunAt(s.runs, run, s.threads);
    var t := s.runs[run].caller;
    SoundThread(s, t);
    var stack := s.threads[t].stack;
    if run == 0 {
      if stack != [] {
        FrameFlies(s, t, 0);
      }
    } else {
      var k :| 0 <= k < |stack| && stack[k].phase == Lending(run);
      if k + 1 < |stack| {
        assert LendsUp(stack, k);
        FrameFlies(s, t, k + 1);
      }
    }
  }

  lemma SomeThread(s: System)
    requires Sound(s)
    ensures 0 < |s.threads|
  {
    assert s.runs != [] && RunAt(s.runs, 0, s.threads);
  }

  /** What later states keep of the book of a run: outcomes, and no new start once something has failed. */
  ghost predicate Settles(book: Book, book': Book) {
    && book'.graph == book.graph
    && book.done <= book'.done && book.lost <= book'.lost
    && (book.lost != {} ==> book'.flying <= book.flying && book'.done <= book.done + book.flying)
  }

  lemma StepSettles(s: System, a: Action, run: nat)
    requires Sound(s) && Enabled(s, a) && run < |s.runs|
    ensures run < |Step(s, a).runs| && Settles(s.runs[run].book, Step(s, a).runs[run].book)
  {
    var book := s.runs[run].book;
    assert a.Start? && a.run == run ==> book.lost == {};
    hide Step, Sound, Runnable, AtCall, Settles, Booked, Book.Startable;
    StepBook(s, a, run);
    BookStays(book);
    if a.Start? && a.run == run {
      BookStarts(book, a.stage);
    } else if a.Leave? && s.threads[a.thread].Top().run == run {
      FrameFlies(s, a.thread, |s.threads[a.thread].stack| - 1);
      BookLeaves(book, s.threads[a.thread].Top().stage, a.success);
    }
  }

  lemma BookStays(book: Book)
    ensures Settles(book, book)
  {
  }

  lemma BookStarts(book: Book, stage: nat)
    requires book.lost == {}
    ensures Settles(book, book.(flying := book.flying + {stage}))
  {
  }

  lemma BookLeaves(book: Book, stage: nat, success: bool)
    requires stage in book.flying
    ensures Settles(book, Booked(book, stage, success))
  {
  }

  /** What a step makes of the book of a run. */
  lemma StepBook(s: System, a: Action, run: nat)
    requires Enabled(s, a) && run < |s.runs|
    ensures run < |Step(s, a).runs|
    ensures var book := s.runs[run].book;
            Step(s, a).runs[run].book
            == if a.Start? && a.run == run then book.(flying := book.flying + {a.stage})
               else if a.Leave? && s.threads[a.thread].Top().run == run then
                 Booked(book, s.threads[a.thread].Top().stage, a.success)
               else book
  {
    assert a.Start? ==> a.thread <= |s.threads|;
    hide Runnable, AtCall, Booked, Book.Startable, Book.Over;
    match a
    case Start(r, stage, t) =>
      StartBook(s, r, stage, t, run);
      hide StartStep;
    case Leave(t, success) => hide LeftThread;
    case EndRun(_) => hide ReturnedThread;
    case Call(_, _, _) => hide LentThread;
    case _ =>
  }

  lemma StartBook(s: System, r: nat, stage: nat, t: nat, run: nat)
    requires t <= |s.threads| && r < |s.runs| && run < |s.runs|
    ensures |StartStep(s, r, stage, t).runs| == |s.runs|
    ensures var book := s.runs[run].book;
            StartStep(s, r, stage, t).runs[run].book
            == if r == run then book.(flying := book.flying + {stage}) else book
  {
    hide StartedThread;
  }

  lemma SettlesOn(book: Book, book': Book, book'': Book)
    requires Settles(book, book') && Settles(book', book'')
    ensures Settles(book, book'')
  {
  }

  /**
   A body that leaves is booked as it ends: with its result, or as failed. The outcome stays whatever happens later,
   and once a stage of a run has failed no stage of that run starts any more: what was in flight is drained.
   */
  lemma {:induction false} OutcomesStay(init: System, actions: seq<Action>, run: nat)
    requires Sound(init) && Legal(init, actions) && run < |init.runs|
    ensures run < |Execute(init, actions).runs| && Sound(Execute(init, actions))
    ensures Settles(init.runs[run].book, Execute(init, actions).runs[run].book)
  {
    if actions != [] {
      var front, a := actions[..|actions| - 1], actions[|actions| - 1];
      OutcomesStay(init, front, run);
      var s := Execute(init, front);
      StepKeeps(s, a);
      StepSettles(s, a, run);
      SettlesOn(init.runs[run].book, s.runs[run].book, Step(s, a).runs[run].book);
      hide Step, Enabled, Sound, Settles;
    }
  }

  lemma OutcomeBooked(s: System, t: nat, success: bool)
    requires Sound(s) && Enabled(s, Leave(t, success))
    ensures var (s', run, stage) := (Step(s, Leave(t, success)), s.threads[t].Top().run, s.threads[t].Top().stage);
            && run < |s'.runs|
            && stage in s.runs[run].book.flying && stage !in s'.runs[run].book.flying
            && (stage in s'.runs[run].book.done <==> success)
            && (stage in s'.runs[run].book.lost <==> !success)
  {
    FrameFlies(s, t, |s.threads[t].stack| - 1);
    var run := s.threads[t].Top().run;
    assert RunAt(s.runs, run, s.threads);
  }

  /**
   When the outermost run has ended so have all runs, each with every stage done or with a failed one; every thread
   is idle, and every permit is back.
   */
  lemma PermitsReturned(jobs: nat, graph: Graph, actions: seq<Action>)
    requires Runnable(jobs, graph) && Legal(Begin(jobs, graph), actions)
    requires Execute(Begin(jobs, graph), actions).runs != []
    requires !Execute(Begin(jobs, graph), actions).runs[0].open
    ensures var s := Execute(Begin(jobs, graph), actions);
            && s.permits == jobs && (forall t :: 0 <= t < |s.threads| ==> s.threads[t].Idle())
            && (forall r :: 0 <= r < |s.runs| ==> !s.runs[r].open && s.runs[r].book.Over())
  {
    EveryRun(jobs, graph, actions);
    JobsFixed(jobs, graph, actions);
    var s := Execute(Begin(jobs, graph), actions);
    forall r | 0 <= r < |s.runs|
      ensures !s.runs[r].open && s.runs[r].book.Over()
    {
      assert RunAt(s.runs, r, s.threads);
      if s.runs[r].open {
        OpenDown(s, r);
        assert false;
      }
    }
    forall t | 0 <= t < |s.threads|
      ensures s.threads[t].Idle() && s.threads[t].holding == 0
    {
      SoundThread(s, t);
      if s.threads[t].stack != [] {
        assert PlacedAt(s.threads[t].stack, 0, t, s.runs);
        OpenDown(s, s.threads[t].stack[0].run);
        assert false;
      }
    }
    NothingHeld(s.threads);
  }

  // ----- every run settles -----

  /** An upper bound on the steps that a body can still take, but for its own runs. */
  function PhaseEffort(phase: Phase): nat {
    match phase
    case Acquiring => 5
    case Executing => 3
    case Lending(_) => 5
    case Reacquiring => 4
    case Leaving => 1
  }

  function StackEffort(stack: seq<Frame>): nat {
    if stack == [] then 0 else StackEffort(stack[..|stack| - 1]) + PhaseEffort(stack[|stack| - 1].phase)
  }

  function ThreadsEffort(threads: seq<Thread>): nat {
    if threads == [] then 0 else StackEffort(threads[0].stack) + ThreadsEffort(threads[1..])
  }

  function RunEffort(run: Run): int {
    var book := run.book;
    6 * (|book.graph| - |book.flying| - |book.done| - |book.lost|) + if run.open then 1 else 0
  }

  function RunsEffort(runs: seq<Run>): int {
    if runs == [] then 0 else RunEffort(runs[0]) + RunsEffort(runs[1..])
  }

  function Effort(s: System): int {
    ThreadsEffort(s.threads) + RunsEffort(s.runs)
  }

  lemma {:induction false} ThreadsReplaced(threads: seq<Thread>, t: nat, th: Thread)
    requires t < |threads|
    ensures ThreadsEffort(threads[t := th])
            == ThreadsEffort(threads) - StackEffort(threads[t].stack) + StackEffort(th.stack)
  {
    if t > 0 {
      assert threads[t := th][1..] == threads[1..][t - 1 := th];
      ThreadsReplaced(threads[1..], t - 1, th);
    }
  }

  lemma {:induction false} ThreadsAppended(threads: seq<Thread>, th: Thread)
    ensures ThreadsEffort(threads + [th]) == ThreadsEffort(threads) + StackEffort(th.stack)
  {
    if threads == [] {
      assert threads + [th] == [th] && [th][1..] == [];
    } else {
      ThreadsAppended(threads[1..], th);
      assert (threads + [th])[1..] == threads[1..] + [th];
    }
  }

  lemma {:induction false} RunsReplaced(runs: seq<Run>, r: nat, run: Run)
    requires r < |runs|
    ensures RunsEffort(runs[r := run]) == RunsEffort(runs) - RunEffort(runs[r]) + RunEffort(run)
  {
    if r > 0 {
      assert runs[r := run][1..] == runs[1..][r - 1 := run];
      RunsReplaced(runs[1..], r - 1, run);
    }
  }

  lemma BookCount(book: Book, jobs: nat)
    requires BookOk(book, jobs)
    ensures |book.flying| + |book.done| + |book.lost| <= |book.graph|
  {
    assert |book.flying + book.done + book.lost| == |book.flying| + |book.done| + |book.lost|;
    SubsetCount(book.flying + book.done + book.lost, Below(|book.graph|));
  }

  lemma {:induction false} RunsNotNegative(runs: seq<Run>)
    requires forall r :: 0 <= r < |runs| ==> 0 <= RunEffort(runs[r])
    ensures 0 <= RunsEffort(runs)
  {
    if runs != [] {
      RunsNotNegative(runs[1..]);
    }
  }

  lemma EffortNotNegative(s: System)
    requires Sound(s)
    ensures 0 <= Effort(s)
  {
    forall r | 0 <= r < |s.runs|
      ensures 0 <= RunEffort(s.runs[r])
    {
      assert RunAt(s.runs, r, s.threads);
      BookCount(s.runs[r].book, s.runs[r].jobs);
    }
    RunsNotNegative(s.runs);
  }

  lemma TopEffort(th: Thread, frame: Frame)
    requires th.stack != []
    ensures StackEffort(th.WithTop(frame).stack)
            == StackEffort(th.stack) - PhaseEffort(th.Top().phase) + PhaseEffort(frame.phase)
  {
    assert th.WithTop(frame).stack[..|th.stack| - 1] == th.stack[..|th.stack| - 1];
  }

  lemma LandedCount(book: Book, stage: nat, success: bool)
    requires stage in book.flying && stage !in book.done && stage !in book.lost
    ensures var b := Booked(book, stage, success);
            |b.flying| + |b.done| + |b.lost| == |book.flying| + |book.done| + |book.lost|
  {
  }

  lemma LeaveSpends(s: System, t: nat, success: bool)
    requires Sound(s) && Enabled(s, Leave(t, success))
    ensures Effort(LeaveStep(s, t, success)) < Effort(s)
  {
    LeaveNeeds(s, t, success);
    hide Sound, Enabled, ThreadsEffort, RunsEffort, RunEffort, StackEffort, Booked, LeftThread, BookOk;
    var th, frame := s.threads[t], s.threads[t].Top();
    FlyingOnly(s, t);
    var run := s.runs[frame.run];
    BookedEffort(run, frame.stage, success);
    LeftEffort(th);
    RunsReplaced(s.runs, frame.run, run.(book := Booked(run.book, frame.stage, success)));
    ThreadsReplaced(s.threads, t, LeftThread(th));
  }

  lemma LeaveNeeds(s: System, t: nat, success: bool)
    requires Enabled(s, Leave(t, success))
    ensures t < |s.threads| && s.threads[t].stack != [] && s.threads[t].Top().phase == Leaving
    ensures s.threads[t].Top().run < |s.runs|
  {
  }

  lemma BookedEffort(run: Run, stage: nat, success: bool)
    requires stage in run.book.flying && stage !in run.book.done && stage !in run.book.lost
    ensures RunEffort(run.(book := Booked(run.book, stage, success))) == RunEffort(run)
  {
    LandedCount(run.book, stage, success);
    BookedFlying(run.book, stage, success);
    hide Booked;
  }

  lemma LeftEffort(th: Thread)
    requires th.stack != [] && th.Top().phase == Leaving
    ensures StackEffort(LeftThread(th).stack) == StackEffort(th.stack) - 1
  {
  }

  lemma StartedStackEffort(th: Thread, run: nat, stage: nat)
    ensures StackEffort(StartedThread(th, run, stage).stack) == StackEffort(th.stack) + 5
  {
    assert StartedThread(th, run, stage).stack[..|th.stack|] == th.stack;
  }

  lemma FlyingEffort(r: Run, stage: nat)
    requires stage !in r.book.flying
    ensures RunEffort(r.(book := r.book.(flying := r.book.flying + {stage}))) == RunEffort(r) - 6
  {
    assert |r.book.flying + {stage}| == |r.book.flying| + 1;
  }

  lemma StartNeeds(s: System, run: nat, stage: nat, t: nat)
    requires Enabled(s, Start(run, stage, t))
    ensures run < |s.runs| && t <= |s.threads| && stage !in s.runs[run].book.flying
  {
  }

  lemma StartSpends(s: System, run: nat, stage: nat, t: nat)
    requires Enabled(s, Start(run, stage, t))
    ensures Effort(StartStep(s, run, stage, t)) < Effort(s)
  {
    hide Enabled, ThreadsEffort, RunsEffort, RunEffort, StackEffort, StartedThread;
    StartNeeds(s, run, stage, t);
    var r := s.runs[run];
    var th := if t == |s.threads| then Thread(false, 0, []) else s.threads[t];
    FlyingEffort(r, stage);
    RunsReplaced(s.runs, run, r.(book := r.book.(flying := r.book.flying + {stage})));
    StartedStackEffort(th, run, stage);
    NoStackEffort();
    if t == |s.threads| {
      ThreadsAppended(s.threads, StartedThread(th, run, stage));
    } else {
      ThreadsReplaced(s.threads, t, StartedThread(th, run, stage));
    }
  }

  lemma NoStackEffort()
    ensures StackEffort([]) == 0
  {
  }

  lemma EndRunSpends(s: System, run: nat)
    requires Enabled(s, EndRun(run))
    ensures Effort(EndRunStep(s, run)) < Effort(s)
  {
    hide ThreadsEffort, RunsEffort;
    RunsReplaced(s.runs, run, s.runs[run].(open := false));
    if 0 < run {
      var th := s.threads[s.runs[run].caller];
      TopEffort(th, th.Top().(phase := Reacquiring));
      ThreadsReplaced(s.threads, s.runs[run].caller, ReturnedThread(th));
    }
  }

  /**
   Unless a body calls a run, every step uses up some of a bounded effort. As some step is always possible, nested
   runs come to their end once their bodies call no more.
   */
  lemma EveryStepSpends(s: System, a: Action)
    requires Sound(s) && Enabled(s, a) && !a.Call?
    ensures 0 <= Effort(Step(s, a)) < Effort(s)
  {
    StepKeeps(s, a);
    EffortNotNegative(Step(s, a));
    hide Sound, ThreadsEffort, RunsEffort, StackEffort;
    match a
    case Start(run, stage, t) => StartSpends(s, run, stage, t);
    case EndRun(run) => EndRunSpends(s, run);
    case Leave(t, success) => LeaveSpends(s, t, success);
    case Acquire(t) =>
      var th := s.threads[t];
      TopEffort(th, th.Top().(phase := Executing, token := th.flag));
      ThreadsReplaced(s.threads, t, AcquiredThread(th));
    case Reacquire(t) =>
      var th := s.threads[t];
      TopEffort(th, th.Top().(phase := Executing));
      ThreadsReplaced(s.threads, t, ReacquiredThread(th));
    case End(t) =>
      var th := s.threads[t];
      TopEffort(th, th.Top().(phase := Leaving));
      ThreadsReplaced(s.threads, t, EndedThread(th));
  }
}
