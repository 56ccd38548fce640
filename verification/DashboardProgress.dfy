/** The live dashboard makes progress, and collects no more often than it has to
    (internal/web/handlers/dashboard.go:154-220, 338-352, 436-458). */
module DashboardProgress {
  import opened Identifiers
  import opened DashboardUpdates
  import opened DashboardPipeline

  // ---------------------------------------------------------------- nobody is stuck

  /** Who is not registered, a page or a client that has left, has nothing to receive. */
  predicate OthersAreQuiet(s: State) {
    forall c :: c in s.processes && !s.processes[c].registered ==>
      !s.processes[c].pc.Connecting? && (s.processes[c].queue == [] || s.processes[c].pc.Closed?)
  }

  /** Only registered clients are signalled. */
  predicate Served(s: State) {
    && OthersAreQuiet(s)
    && (forall p, c :: p in s.publishers && s.publishers[p].FanningOut? && c in s.publishers[p].left ==>
          c in s.processes && s.processes[c].registered)
  }

  lemma StepKeepsServed(s: State, step: Step)
    requires Served(s) && Enabled(s, step)
    ensures Served(Apply(s, step))
  {
    StepKeepsQuiet(s, step);
  }

  lemma StepKeepsQuiet(s: State, step: Step)
    requires OthersAreQuiet(s) && Enabled(s, step)
    requires step.SignalOne? ==> s.processes[step.c].registered
    ensures OthersAreQuiet(Apply(s, step))
  {
  }

  lemma {:induction false} RunKeepsServed(s: State, steps: seq<Step>)
    requires Served(s) && Run(s, steps).Some?
    ensures Served(Run(s, steps).value)
    decreases |steps|
  {
    if steps != [] {
      StepKeepsServed(s, steps[0]);
      RunKeepsServed(Apply(s, steps[0]), steps[1..]);
    }
  }

  lemma ReachableServed(s: State)
    requires Reachable(s)
    ensures Served(s)
  {
    var steps :| Run(Init(), steps) == Some(s);
    RunKeepsServed(Init(), steps);
  }

  /** Whoever holds the write lock goes on collecting. */
  predicate HolderMoves(s: State) {
    s.holder.Some? && (Enabled(s, ReadStore(s.holder.value)) || Enabled(s, FillCache(s.holder.value)))
  }

  /** A step of the client's own loop. */
  predicate IsOwnStep(step: Step, c: nat) {
    || step == Dequeue(c) || step == Ask(c) || step == TestCache(c) || step == LockCache(c)
    || step == ReadStore(c) || step == FillCache(c)
  }

  ghost predicate ClientMoves(s: State, c: nat) {
    Enabled(s, SignalInitial(c)) || exists step :: IsOwnStep(step, c) && Enabled(s, step)
  }

  ghost predicate PublisherMoves(s: State, p: nat) {
    || Enabled(s, Invalidate(p)) || Enabled(s, BeginFanOut(p)) || Enabled(s, EndFanOut(p))
    || exists c :: Enabled(s, SignalOne(p, c))
  }

  /** What the queue and the lock look like to process `c`. */
  predicate InOrder(s: State, c: nat) {
    && c in s.processes && |s.processes[c].queue| <= QUEUE_CAPACITY
    && (s.processes[c].pc.Collecting? ==> |s.processes[c].pc.seen| <= 4)
    && (s.processes[c].pc.Collecting? <==> s.holder == Some(c))
  }

  lemma ReachableInOrder(s: State, c: nat)
    requires Reachable(s) && c in s.processes
    ensures InOrder(s, c)
  {
    ReachableInv(s);
    ProcessInOrder(s.processes[c], s.now, s.invalidatedAt);
  }

  lemma ProcessInOrder(x: Process, now: Time, v: Version)
    requires ProcessInv(x, now, v)
    ensures |x.queue| <= QUEUE_CAPACITY && (x.pc.Collecting? ==> |x.pc.seen| <= 4)
  {
  }

  lemma HolderCanMove(s: State)
    requires Reachable(s)
    ensures s.holder.Some? ==> HolderMoves(s)
  {
    ReachableLock(s);
    if s.holder.Some? {
      ReachableInOrder(s, s.holder.value);
    }
  }

  lemma ReachableLock(s: State)
    requires Reachable(s)
    ensures LockInv(s)
  {
    ReachableInv(s);
  }

  /** As long as a cause is on its way to an open client or page, that one can take a
      step, or the holder of the lock it waits for can. */
  lemma ClientsAreNeverStuck(s: State, c: nat, e: Cause)
    requires Reachable(s)
    requires c in s.processes && Pending(s.processes[c], e) && !s.processes[c].pc.Closed?
    ensures ClientMoves(s, c) || HolderMoves(s)
  {
    ReachableInOrder(s, c);
    ReachableServed(s);
    HolderCanMove(s);
    var next := NextOf(c, s.processes[c].pc);
    assert next != SignalInitial(c) ==> IsOwnStep(next, c);
    assert s.holder.None? ==> Enabled(s, next);
  }

  function NextOf(c: nat, pc: PC): Step {
    match pc
    case Idle => Dequeue(c)
    case Dequeued(_) => Ask(c)
    case Called(_) => TestCache(c)
    case Missed(_) => LockCache(c)
    case Collecting(_, _, seen) => if |seen| < 4 then ReadStore(c) else FillCache(c)
    case _ => SignalInitial(c)
  }

  /** And so can a publisher: what was announced can always be carried on. */
  lemma PublishersAreNeverStuck(s: State, p: nat)
    requires Reachable(s) && p in s.publishers
    ensures PublisherMoves(s, p) || HolderMoves(s)
  {
    HolderCanMove(s);
    if s.publishers[p].FanningOut? && s.publishers[p].left != {} {
      var c :| c in s.publishers[p].left;
      FanOutNeverBlocks(s, p, c);
      assert Enabled(s, SignalOne(p, c));
    }
  }

  // ---------------------------------------------------------------- clients catch up

  /** The steps of its own that a client needs for what is queued and in hand. */
  function Work(x: Process): nat {
    match x.pc
    case Closed => 0
    case Connecting => 9 * |x.queue|
    case Idle => 9 * |x.queue|
    case Dequeued(_) => 9 * |x.queue| + 8
    case Called(_) => 9 * |x.queue| + 7
    case Missed(_) => 9 * |x.queue| + 6
    case Collecting(_, _, seen) => 9 * |x.queue| + if |seen| <= 4 then 5 - |seen| else 0
  }

  function WorkOf(s: State, c: nat): nat {
    if c in s.processes then Work(s.processes[c]) else 0
  }

  /** The step sends the client an update, or opens a page with one. */
  predicate Signals(step: Step, c: nat) {
    step == SignalInitial(c) || step == OpenPage(c) || (step.SignalOne? && step.c == c)
  }

  function OwnSteps(steps: seq<Step>, c: nat): nat {
    if steps == [] then 0 else OwnSteps(steps[1..], c) + if IsOwnStep(steps[0], c) then 1 else 0
  }

  function SignalsTo(steps: seq<Step>, c: nat): nat {
    if steps == [] then 0 else SignalsTo(steps[1..], c) + if Signals(steps[0], c) then 1 else 0
  }

  lemma StepWorks(s: State, step: Step, c: nat)
    requires Enabled(s, step)
    ensures WorkOf(Apply(s, step), c) + (if IsOwnStep(step, c) then 1 else 0)
         <= WorkOf(s, c) + if Signals(step, c) then 9 else 0
  {
  }

  lemma {:induction false} RunWorks(s: State, steps: seq<Step>, c: nat)
    requires Run(s, steps).Some?
    ensures OwnSteps(steps, c) + WorkOf(Run(s, steps).value, c) <= WorkOf(s, c) + 9 * SignalsTo(steps, c)
    decreases |steps|
  {
    if steps != [] {
      StepWorks(s, steps[0], c);
      RunWorks(Apply(s, steps[0]), steps[1..], c);
    }
  }

  /** A client takes at most nine steps of its own for each update sent to it; and when
      neither it nor the holder of the lock can take another, it has been shown every
      cause it was ever sent. However everyone else's steps fall in between, it is
      thus shown after finitely many of its own. */
  lemma ClientsCatchUp(steps: seq<Step>, c: nat, e: Cause)
    requires Run(Init(), steps).Some?
    ensures OwnSteps(steps, c) <= 9 * SignalsTo(steps, c)
    ensures var t := Run(Init(), steps).value;
            c in t.processes && !t.processes[c].pc.Closed? && !ClientMoves(t, c) && !HolderMoves(t) ==>
              e in t.processes[c].signalled ==>
                exists i :: 0 <= i < |t.processes[c].rendered| && ShownBy(t.processes[c].rendered[i], e)
  {
    RunWorks(Init(), steps, c);
    var t := Run(Init(), steps).value;
    assert Reachable(t);
    if c in t.processes && !t.processes[c].pc.Closed? && !ClientMoves(t, c) && !HolderMoves(t) && e in t.processes[c].signalled {
      EverySignalledEventIsShown(t, c, e);
      if Pending(t.processes[c], e) {
        ClientsAreNeverStuck(t, c, e);
      }
    }
  }

  // ---------------------------------------------------------------- collections are apart

  /** Process `c` takes the write lock and finds that it has to collect. */
  predicate Collects(s: State, c: nat) {
    Enabled(s, LockCache(c)) && Apply(s, LockCache(c)).processes[c].pc.Collecting?
  }

  /** Since a collection began at `start`, nothing has undone it. */
  predicate CollectedAt(s: State, start: Time) {
    && start <= s.now
    && (s.holder.Some? ==> At(s, s.holder.value) && s.processes[s.holder.value].pc.Collecting?
                           && start <= s.processes[s.holder.value].pc.at)
    && (s.holder.None? ==> start + CACHE_TTL <= s.cache.expiresAt)
  }

  predicate Undoes(step: Step) {
    step.Invalidate? || step.ReadFails?
  }

  lemma StepKeepsCollected(s: State, step: Step, start: Time)
    requires LockInv(s) && CollectedAt(s, start) && Enabled(s, step) && !Undoes(step)
    ensures CollectedAt(Apply(s, step), start)
  {
  }

  lemma {:induction false} RunKeepsCollected(s: State, steps: seq<Step>, start: Time)
    requires Inv(s) && CollectedAt(s, start) && Run(s, steps).Some?
    requires forall i :: 0 <= i < |steps| ==> !Undoes(steps[i])
    ensures CollectedAt(Run(s, steps).value, start)
    decreases |steps|
  {
    if steps != [] {
      StepKeepsCollected(s, steps[0], start);
      StepKeepsInv(s, steps[0]);
      RunKeepsCollected(Apply(s, steps[0]), steps[1..], start);
    }
  }

  /** What the second test is for: two collections with no invalidation and no failed
      read in between begin at least the lifetime of the cache apart, however many
      callers missed it at once. */
  lemma CollectionsAreApart(s: State, c: nat, steps: seq<Step>, d: nat)
    requires Reachable(s) && Collects(s, c) && Run(Apply(s, LockCache(c)), steps).Some?
    requires forall i :: 0 <= i < |steps| ==> !Undoes(steps[i])
    requires Collects(Run(Apply(s, LockCache(c)), steps).value, d)
    ensures s.now + 30_000_000_000 <= Run(Apply(s, LockCache(c)), steps).value.now
  {
    FirstCollected(s, c);
    RunKeepsCollected(Apply(s, LockCache(c)), steps, s.now);
  }

  lemma FirstCollected(s: State, c: nat)
    requires Reachable(s) && Collects(s, c)
    ensures Inv(Apply(s, LockCache(c))) && CollectedAt(Apply(s, LockCache(c)), s.now)
  {
    ReachableInv(s);
    StepKeepsInv(s, LockCache(c));
  }
}
