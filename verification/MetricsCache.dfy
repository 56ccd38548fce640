/** `CachedMetricsCollector`: one collection at a time, shared for a time to live,
    for any number of concurrent callers (internal/agent/service.go:38-101). */
module MetricsCache {
  import opened Identifiers
  import opened Ordering

  type Time = nat

  /** A collected metric; `ZERO_METRIC` is the zero value. */
  datatype Metric = Metric(id: nat)

  const ZERO_METRIC := Metric(0)

  datatype Error = CollectorError(code: nat) | CollectorPanic(value: nat)

  datatype Result = Result(metric: Metric, err: Option<Error>)

  /** What one call of the inner collector does: both a metric and an error come
      back, or it panics. */
  datatype Outcome = Returned(result: Result) | Panicked(value: nat)

  /** What is cached for an outcome: a panic becomes an error on a zero metric. */
  function Recovered(o: Outcome): Result {
    match o
    case Returned(result) => result
    case Panicked(v) => Result(ZERO_METRIC, Some(CollectorPanic(v)))
  }

  // `GetMetrics` holds its mutex three times at most; each such region is one
  // function on the shared fields. The class at the end has these regions as
  // methods; the protocol in between interleaves them.

  /** The fields behind the mutex. Channels are numbered as they are made;
      `closes` lists the `close` calls in order. */
  datatype Shared = Shared(
    ttl: Time,
    result: Result,
    updated: Option<Time>,
    running: bool,
    completed: nat,
    channels: nat,
    closes: seq<nat>
  )

  datatype Entry = Hit(result: Result) | Join(channel: nat) | Own(channel: nat)

  /** First region: use the cached result, join the running collection, or own a
      new one. */
  function Enter(sh: Shared, now: Time): (Shared, Entry) {
    if sh.updated.Some? && now - sh.updated.value < sh.ttl then (sh, Hit(sh.result))
    else if sh.running then (sh, Join(sh.completed))
    else (sh.(running := true, completed := sh.channels, channels := sh.channels + 1), Own(sh.channels))
  }

  /** Last region of the owner: publish, stop running, close the channel it made. */
  function Finish(sh: Shared, channel: nat, outcome: Outcome, now: Time): Shared {
    sh.(result := Recovered(outcome), updated := Some(now), running := false, closes := sh.closes + [channel])
  }

  /** A woken waiter's region: whatever is cached by then, which may be from a later
      collection than the one it waited for. */
  function Cached(sh: Shared): Result {
    sh.result
  }

  function NewShared(ttl: Time): Shared {
    Shared(ttl, Result(ZERO_METRIC, None), None, false, 0, 0, [])
  }

  // ---------------------------------------------------------------- the protocol

  /** A finished collection: who made it, what the collector did, and what was cached.
      Collection i is the one that made channel i. */
  datatype Collection = Collection(start: Time, finish: Time, owner: nat, outcome: Outcome, result: Result)

  datatype PC =
    | Waiting(channel: nat, arrived: Time)
    | Woken(channel: nat, arrived: Time)
    | Collecting(channel: nat)
    | Recovering(channel: nat, outcome: Outcome)
    | GotHit(result: Result, from: nat, at: Time)
    | GotWaited(result: Result, from: nat, channel: nat, arrived: Time)
    | GotOwn(result: Result, channel: nat)
    | Repanicked(value: nat, channel: nat)
    | Cancelled

  datatype State = State(
    now: Time,
    shared: Shared,
    callers: map<nat, PC>,
    starts: seq<Time>,       // when each collection began
    log: seq<Collection>     // finished collections
  )

  function Init(ttl: Time): State {
    State(0, NewShared(ttl), map[], [], [])
  }

  datatype Step =
    | Tick
    | Call(c: nat)
    | Collect(c: nat, outcome: Outcome)
    | Publish(c: nat)
    | Wake(c: nat)
    | ReadResult(c: nat)
    | Cancel(c: nat)

  predicate Enabled(s: State, step: Step) {
    match step
    case Tick => true
    case Call(c) => c !in s.callers
    case Collect(c, _) => c in s.callers && s.callers[c].Collecting?
    case Publish(c) => c in s.callers && s.callers[c].Recovering? && s.callers[c].channel < |s.starts|
    case Wake(c) => c in s.callers && s.callers[c].Waiting? && s.callers[c].channel in s.shared.closes
    case ReadResult(c) => c in s.callers && s.callers[c].Woken?
    case Cancel(c) => c in s.callers && s.callers[c].Waiting?
  }

  function SetPC(s: State, c: nat, pc: PC): State {
    s.(callers := s.callers[c := pc])
  }

  /** The owner returns what its collector returned, or panics as the collector did. */
  function Ended(channel: nat, outcome: Outcome): PC {
    match outcome
    case Returned(result) => GotOwn(result, channel)
    case Panicked(value) => Repanicked(value, channel)
  }

  /** The number of the newest finished collection. */
  function Newest(s: State): nat {
    if |s.log| == 0 then 0 else |s.log| - 1
  }

  function Apply(s: State, step: Step): State
    requires Enabled(s, step)
  {
    match step
    case Tick => s.(now := s.now + 1)
    case Call(c) =>
      var (shared, entry) := Enter(s.shared, s.now);
      (match entry
       case Hit(result) => SetPC(s, c, GotHit(result, Newest(s), s.now))
       case Join(channel) => SetPC(s, c, Waiting(channel, s.now))
       case Own(channel) => SetPC(s, c, Collecting(channel)).(shared := shared, starts := s.starts + [s.now]))
    case Collect(c, outcome) => SetPC(s, c, Recovering(s.callers[c].channel, outcome))
    case Publish(c) =>
      var pc := s.callers[c];
      var shared := Finish(s.shared, pc.channel, pc.outcome, s.now);
      SetPC(s, c, Ended(pc.channel, pc.outcome))
        .(shared := shared, log := s.log + [Collection(s.starts[pc.channel], s.now, c, pc.outcome, shared.result)])
    case Wake(c) => SetPC(s, c, Woken(s.callers[c].channel, s.callers[c].arrived))
    case ReadResult(c) => SetPC(s, c, GotWaited(Cached(s.shared), Newest(s), s.callers[c].channel, s.callers[c].arrived))
    case Cancel(c) => SetPC(s, c, Cancelled)
  }

  function Run(s: State, steps: seq<Step>): Option<State>
    decreases |steps|
  {
    if steps == [] then Some(s)
    else if Enabled(s, steps[0]) then Run(Apply(s, steps[0]), steps[1..])
    else None
  }

  // ---------------------------------------------------------------- invariant

  predicate Owns(pc: PC) {
    pc.Collecting? || pc.Recovering?
  }

  predicate OwnerInv(s: State) {
    && (forall c :: c in s.callers && Owns(s.callers[c]) ==> s.shared.running && s.callers[c].channel == s.shared.completed)
    && (forall c, d :: c in s.callers && d in s.callers && Owns(s.callers[c]) && Owns(s.callers[d]) ==> c == d)
  }

  ghost predicate OwnerExists(s: State) {
    exists c :: c in s.callers && Owns(s.callers[c])
  }

  predicate ChannelInv(s: State) {
    && s.shared.channels == |s.starts|
    && (if s.shared.running then |s.starts| == |s.log| + 1 && s.shared.completed == |s.log| else |s.starts| == |s.log|)
    && |s.shared.closes| == |s.log|
    && (forall i :: 0 <= i < |s.log| ==> s.shared.closes[i] == i)
  }

  predicate CacheInv(s: State) {
    && (s.log == [] <==> s.shared.updated.None?)
    && (s.log != [] ==>
          && s.shared.updated == Some(s.log[|s.log| - 1].finish)
          && s.shared.result == s.log[|s.log| - 1].result)
  }

  predicate TimeInv(s: State) {
    && (forall i :: 0 <= i < |s.starts| ==> s.starts[i] <= s.now)
    && (forall i :: 0 <= i < |s.log| && i < |s.starts| ==> s.starts[i] == s.log[i].start <= s.log[i].finish <= s.now)
    && (forall i :: 0 <= i < |s.log| && i + 1 < |s.starts| ==> s.log[i].finish + s.shared.ttl <= s.starts[i + 1])
  }

  /** What the others get of a collector's outcome: what it returned, metric and error,
      and the error of a panic when it panicked. */
  predicate SharedAs(outcome: Outcome, result: Result) {
    && (outcome.Returned? ==> result == outcome.result)
    && (outcome.Panicked? ==> result.err == Some(CollectorPanic(outcome.value)) && result.metric == ZERO_METRIC)
  }

  /** Of each finished collection the outcome is shared, and its owner has ended with it. */
  predicate LogInv(s: State) {
    forall i :: 0 <= i < |s.log| ==>
      && SharedAs(s.log[i].outcome, s.log[i].result)
      && s.log[i].owner in s.callers && EndedWith(s.callers[s.log[i].owner], i, s.log[i].outcome)
  }

  predicate EndedWith(pc: PC, channel: nat, outcome: Outcome) {
    || (pc.GotOwn? && pc.channel == channel && outcome == Returned(pc.result))
    || (pc.Repanicked? && pc.channel == channel && outcome == Panicked(pc.value))
  }

  predicate CallerInv(s: State, c: nat, pc: PC) {
    match pc
    case Waiting(channel, arrived) =>
      arrived <= s.now && channel < |s.starts| && (channel < |s.log| ==> arrived <= s.log[channel].finish)
    case Woken(channel, arrived) => channel < |s.log| && arrived <= s.log[channel].finish
    case GotHit(result, from, at) =>
      from < |s.log| && result == s.log[from].result && s.log[from].finish <= at < s.log[from].finish + s.shared.ttl
    case GotWaited(result, from, channel, arrived) =>
      channel <= from < |s.log| && result == s.log[from].result && arrived <= s.log[channel].finish
    case GotOwn(_, channel) => channel < |s.log| && s.log[channel].owner == c
    case Repanicked(_, channel) => channel < |s.log| && s.log[channel].owner == c
    case _ => true
  }

  ghost predicate CoreInv(s: State) {
    && OwnerInv(s) && (s.shared.running ==> OwnerExists(s))
    && ChannelInv(s) && CacheInv(s) && TimeInv(s) && LogInv(s)
  }

  ghost predicate Inv(s: State) {
    && CoreInv(s)
    && (forall c :: c in s.callers ==> CallerInv(s, c, s.callers[c]))
  }

  /** Finish times are in order. */
  lemma {:induction false} FinishesInOrder(s: State, i: nat, j: nat)
    requires ChannelInv(s) && TimeInv(s)
    requires i <= j < |s.log|
    ensures s.log[i].finish <= s.log[j].finish
  {
    if i < j {
      FinishesInOrder(s, i, j - 1);
      assert s.log[j - 1].finish + s.shared.ttl <= s.starts[j];
    }
  }

  /** A caller's part of the invariant still holds as time passes and collections start. */
  lemma CallerStays(s: State, t: State, c: nat, pc: PC)
    requires CallerInv(s, c, pc) && s.starts <= t.starts && t.log == s.log && t.shared.ttl == s.shared.ttl && s.now <= t.now
    ensures CallerInv(t, c, pc)
  {
  }

  lemma OwnKeepsInv(s: State, c: nat)
    requires Inv(s) && Enabled(s, Call(c))
    requires Enter(s.shared, s.now).1.Own?
    ensures Inv(Apply(s, Call(c)))
  {
    var t := Apply(s, Call(c));
    OwnKeepsCore(s, c);
    forall d | d in t.callers
      ensures CallerInv(t, d, t.callers[d])
    {
      CallerStays(s, t, d, t.callers[d]);
    }
  }

  lemma OwnKeepsCore(s: State, c: nat)
    requires CoreInv(s) && Enabled(s, Call(c))
    requires Enter(s.shared, s.now).1.Own?
    ensures CoreInv(Apply(s, Call(c)))
  {
    var t := Apply(s, Call(c));
    assert t.callers[c] == Collecting(|s.log|) && Owns(t.callers[c]);
  }

  lemma CallKeepsInv(s: State, c: nat)
    requires Inv(s) && Enabled(s, Call(c))
    ensures Inv(Apply(s, Call(c)))
  {
    var entry := Enter(s.shared, s.now).1;
    match entry
    case Own(_) => OwnKeepsInv(s, c);
    case Hit(_) => MoveKeepsInv(s, c, Apply(s, Call(c)).callers[c]);
    case Join(_) => MoveKeepsInv(s, c, Apply(s, Call(c)).callers[c]);
  }

  lemma PublishKeepsInv(s: State, c: nat)
    requires Inv(s) && Enabled(s, Publish(c))
    ensures Inv(Apply(s, Publish(c)))
  {
    var t := Apply(s, Publish(c));
    PublishKeepsCore(s, c);
    forall d | d in t.callers
      ensures CallerInv(t, d, t.callers[d])
    {
      if d != c {
        LogGrows(s, t, d, s.callers[d]);
      }
    }
  }

  lemma PublishKeepsCore(s: State, c: nat)
    requires CoreInv(s) && Enabled(s, Publish(c))
    ensures s.callers[c].channel == |s.log| && CoreInv(Apply(s, Publish(c)))
  {
  }

  /** One more finished collection leaves a caller's part as it was. */
  lemma LogGrows(s: State, t: State, c: nat, pc: PC)
    requires CallerInv(s, c, pc) && |t.log| == |s.log| + 1 && s.log == t.log[..|s.log|] && t.log[|s.log|].finish == s.now
    requires t.starts == s.starts && t.shared.ttl == s.shared.ttl && t.now == s.now
    ensures CallerInv(t, c, pc)
  {
  }

  lemma TickKeepsInv(s: State)
    requires Inv(s)
    ensures Inv(Apply(s, Tick))
  {
    var t := Apply(s, Tick);
    TickKeepsCore(s);
    forall d | d in t.callers
      ensures CallerInv(t, d, t.callers[d])
    {
      CallerStays(s, t, d, s.callers[d]);
    }
  }

  lemma TickKeepsCore(s: State)
    requires CoreInv(s)
    ensures CoreInv(Apply(s, Tick))
  {
    if s.shared.running {
      var o :| o in s.callers && Owns(s.callers[o]);
      assert o in Apply(s, Tick).callers;
    }
  }

  predicate HasEnded(pc: PC) {
    pc.GotOwn? || pc.Repanicked?
  }

  /** A caller arrives or moves on, and the shared fields stay as they are. */
  lemma MoveKeepsInv(s: State, c: nat, pc: PC)
    requires Inv(s) && CallerInv(s, c, pc) && (c in s.callers ==> !HasEnded(s.callers[c]))
    requires Owns(pc) == (c in s.callers && Owns(s.callers[c])) && (Owns(pc) ==> pc.channel == s.callers[c].channel)
    ensures Inv(SetPC(s, c, pc))
  {
    var t := SetPC(s, c, pc);
    MoveKeepsCore(s, c, pc);
    forall d | d in t.callers
      ensures CallerInv(t, d, t.callers[d])
    {
      CallerStays(s, t, d, t.callers[d]);
    }
  }

  lemma MoveKeepsCore(s: State, c: nat, pc: PC)
    requires CoreInv(s) && (c in s.callers ==> !HasEnded(s.callers[c]))
    requires Owns(pc) == (c in s.callers && Owns(s.callers[c])) && (Owns(pc) ==> pc.channel == s.callers[c].channel)
    ensures CoreInv(SetPC(s, c, pc))
  {
    MoveKeepsOwner(s, c, pc);
    MoveKeepsLog(s, c, pc);
  }

  lemma MoveKeepsOwner(s: State, c: nat, pc: PC)
    requires OwnerInv(s) && (s.shared.running ==> OwnerExists(s))
    requires Owns(pc) == (c in s.callers && Owns(s.callers[c])) && (Owns(pc) ==> pc.channel == s.callers[c].channel)
    ensures var t := SetPC(s, c, pc);
            OwnerInv(t) && (t.shared.running ==> OwnerExists(t))
  {
    var t := SetPC(s, c, pc);
    if s.shared.running {
      var o :| o in s.callers && Owns(s.callers[o]);
      assert o in t.callers && Owns(t.callers[o]);
    }
  }

  lemma MoveKeepsLog(s: State, c: nat, pc: PC)
    requires LogInv(s) && (c in s.callers ==> !HasEnded(s.callers[c]))
    ensures LogInv(SetPC(s, c, pc))
  {
  }

  lemma WaiterKeepsInv(s: State, step: Step)
    requires Inv(s) && Enabled(s, step)
    requires step.Wake? || step.ReadResult? || step.Cancel? || step.Collect?
    ensures Inv(Apply(s, step))
  {
    var pc := Apply(s, step).callers[step.c];
    assert CallerInv(s, step.c, s.callers[step.c]);
    if step.ReadResult? {
      FinishesInOrder(s, s.callers[step.c].channel, Newest(s));
    }
    MoveKeepsInv(s, step.c, pc);
  }

  lemma StepKeepsInv(s: State, step: Step)
    requires Inv(s) && Enabled(s, step)
    ensures Inv(Apply(s, step))
    ensures Apply(s, step).shared.ttl == s.shared.ttl
  {
    match step
    case Call(c) => CallKeepsInv(s, c);
    case Publish(c) => PublishKeepsInv(s, c);
    case Tick => TickKeepsInv(s);
    case _ => WaiterKeepsInv(s, step);
  }

  lemma {:induction false} RunKeepsInv(s: State, steps: seq<Step>)
    requires Inv(s)
    ensures Run(s, steps).Some? ==> Inv(Run(s, steps).value) && Run(s, steps).value.shared.ttl == s.shared.ttl
    decreases |steps|
  {
    if steps != [] && Enabled(s, steps[0]) {
      StepKeepsInv(s, steps[0]);
      RunKeepsInv(Apply(s, steps[0]), steps[1..]);
    }
  }

  // ---------------------------------------------------------------- theorems

  /** Single flight: the collector is running exactly when some caller is collecting,
      and never for two callers at once. */
  lemma SingleFlight(ttl: Time, steps: seq<Step>)
    requires Run(Init(ttl), steps).Some?
    ensures var s := Run(Init(ttl), steps).value;
            && (s.shared.running <==> exists c :: c in s.callers && Owns(s.callers[c]))
            && (forall c, d :: c in s.callers && d in s.callers && Owns(s.callers[c]) && Owns(s.callers[d]) ==> c == d)
  {
    RunKeepsInv(Init(ttl), steps);
  }

  /** No waiter is stranded, even when its owner panicked: it can wake now, or the
      owner of exactly its channel is still collecting and can publish once the
      collector returns or panics. */
  lemma NoWaiterIsStranded(ttl: Time, steps: seq<Step>, c: nat)
    requires Run(Init(ttl), steps).Some?
    requires var s := Run(Init(ttl), steps).value; c in s.callers && s.callers[c].Waiting?
    ensures var s := Run(Init(ttl), steps).value;
            && (Enabled(s, Wake(c)) <==> s.callers[c].channel < |s.log|)
            && (!Enabled(s, Wake(c)) ==>
                  exists o :: o in s.callers && Owns(s.callers[o]) && s.callers[o].channel == s.callers[c].channel
                              && (s.callers[o].Recovering? ==> Enabled(s, Publish(o))))
  {
    RunKeepsInv(Init(ttl), steps);
    var s := Run(Init(ttl), steps).value;
    var channel := s.callers[c].channel;
    assert CallerInv(s, c, s.callers[c]);
    if channel < |s.log| {
      assert s.shared.closes[channel] == channel;
    } else {
      var o :| o in s.callers && Owns(s.callers[o]);
      assert s.callers[o].channel == channel;
    }
  }

  /** Publishing closes a channel that is still open, and wakes every waiter of it,
      whatever the outcome. */
  lemma PublishingFreesTheWaiters(ttl: Time, steps: seq<Step>, o: nat, c: nat)
    requires Run(Init(ttl), steps).Some?
    requires Enabled(Run(Init(ttl), steps).value, Publish(o))
    ensures var s := Run(Init(ttl), steps).value;
            && s.callers[o].channel !in s.shared.closes
            && (c in s.callers && s.callers[c].Waiting? ==> Enabled(Apply(s, Publish(o)), Wake(c)))
  {
    RunKeepsInv(Init(ttl), steps);
    var s := Run(Init(ttl), steps).value;
    if c in s.callers && s.callers[c].Waiting? {
      assert CallerInv(s, c, s.callers[c]);
      var closes := Apply(s, Publish(o)).shared.closes;
      assert closes[s.callers[c].channel] == s.callers[c].channel;
    }
  }

  /** Each channel is closed exactly once, in the order they were made, when its
      collection finishes. */
  lemma ChannelsAreClosedOnce(ttl: Time, steps: seq<Step>, channel: nat)
    requires Run(Init(ttl), steps).Some?
    ensures var s := Run(Init(ttl), steps).value;
            && multiset(s.shared.closes)[channel] <= 1
            && (channel in s.shared.closes <==> channel < |s.log|)
  {
    RunKeepsInv(Init(ttl), steps);
    var s := Run(Init(ttl), steps).value;
    if channel < |s.log| {
      assert s.shared.closes[channel] == channel;
    }
    CountingOnce(s.shared.closes, channel);
  }

  lemma {:induction false} CountingOnce(closes: seq<nat>, channel: nat)
    requires forall i :: 0 <= i < |closes| ==> closes[i] == i
    ensures multiset(closes)[channel] == if channel < |closes| then 1 else 0
  {
    if closes != [] {
      var n := |closes| - 1;
      CountingOnce(closes[..n], channel);
      assert closes == closes[..n] + [closes[n]];
    }
  }

  /** A collection starts at least the time to live after the previous one finished. */
  lemma CollectionsAreSpaced(ttl: Time, steps: seq<Step>, i: nat)
    requires Run(Init(ttl), steps).Some?
    requires i + 1 < |Run(Init(ttl), steps).value.starts|
    ensures var s := Run(Init(ttl), steps).value;
            i < |s.log| && s.starts[i] <= s.log[i].finish && s.log[i].finish + ttl <= s.starts[i + 1]
  {
    RunKeepsInv(Init(ttl), steps);
  }

  /** Any window of length `span` sees at most span / ttl + 1 collections start. */
  lemma RateIsBounded(ttl: Time, steps: seq<Step>, from: Time, span: Time)
    requires ttl > 0 && Run(Init(ttl), steps).Some?
    ensures var starts := Run(Init(ttl), steps).value.starts;
            |set i: nat | i < |starts| && from <= starts[i] <= from + span| <= span / ttl + 1
  {
    var starts := Run(Init(ttl), steps).value.starts;
    forall i | 0 <= i && i + 1 < |starts|
      ensures starts[i] + ttl <= starts[i + 1]
    {
      CollectionsAreSpaced(ttl, steps, i);
    }
    SpacedWindow(starts, ttl, from, span);
  }

  lemma SpacedWindow(starts: seq<Time>, ttl: Time, from: Time, span: Time)
    requires ttl > 0
    requires forall i :: 0 <= i && i + 1 < |starts| ==> starts[i] + ttl <= starts[i + 1]
    ensures |set i: nat | i < |starts| && from <= starts[i] <= from + span| <= span / ttl + 1
  {
    var window := set i: nat | i < |starts| && from <= starts[i] <= from + span;
    var most: nat := span / ttl;
    if window != {} {
      var lo := Minimum(window);
      forall i | i in window
        ensures i in Range(lo, most + 1)
      {
        OffsetInWindow(starts, ttl, from, span, lo, i);
      }
      SubsetSize(window, Range(lo, most + 1));
    }
  }

  lemma OffsetInWindow(starts: seq<Time>, ttl: Time, from: Time, span: Time, lo: nat, i: nat)
    requires ttl > 0
    requires forall k :: 0 <= k && k + 1 < |starts| ==> starts[k] + ttl <= starts[k + 1]
    requires lo <= i < |starts| && from <= starts[lo] && starts[i] <= from + span
    ensures i - lo <= span / ttl
  {
    Spread(starts, ttl, lo, i);
    DivideOut(i - lo, ttl, span);
  }

  lemma DivideOut(n: nat, d: nat, span: nat)
    requires d > 0 && n * d <= span
    ensures n <= span / d
  {
    if n >= span / d + 1 {
      TimesIsMonotone(span / d + 1, n, d);
    }
  }

  lemma TimesIsMonotone(a: nat, b: nat, d: nat)
    requires a <= b
    ensures a * d <= b * d
  {
    assert b * d - a * d == (b - a) * d;
  }

  lemma {:induction false} Spread(starts: seq<Time>, ttl: Time, i: nat, j: nat)
    requires forall k :: 0 <= k && k + 1 < |starts| ==> starts[k] + ttl <= starts[k + 1]
    requires i <= j < |starts|
    ensures starts[i] + (j - i) * ttl <= starts[j]
  {
    if i < j {
      Spread(starts, ttl, i, j - 1);
      assert (j - i) * ttl == (j - 1 - i) * ttl + ttl;
    }
  }

  /** The `n` numbers from `lo` on. */
  ghost function Range(lo: nat, n: nat): (r: set<nat>)
    ensures forall i :: i in r <==> lo <= i < lo + n
    ensures |r| == n
  {
    if n == 0 then {} else Range(lo, n - 1) + {lo + n - 1}
  }

  /** Whatever the interleaving, a result taken on the fast path is that of a collection
      that finished less than the time to live before the call. A waiter's is that of
      the collection it waited for or of a later one, and so of one that finished after
      the waiter arrived. Both get what the collector returned then, error and all, and
      an error if it panicked. The owner of a collection ends as its collector did. */
  lemma ResultsAreFresh(ttl: Time, steps: seq<Step>, c: nat)
    requires Run(Init(ttl), steps).Some?
    requires c in Run(Init(ttl), steps).value.callers
    ensures var s := Run(Init(ttl), steps).value;
            var pc := s.callers[c];
            && (pc.GotHit? ==>
                  && pc.from < |s.log| && SharedAs(s.log[pc.from].outcome, pc.result)
                  && s.log[pc.from].finish <= pc.at < s.log[pc.from].finish + ttl)
            && (pc.GotWaited? ==>
                  && pc.channel <= pc.from < |s.log| && SharedAs(s.log[pc.from].outcome, pc.result)
                  && pc.arrived <= s.log[pc.channel].finish <= s.log[pc.from].finish)
            && (pc.GotOwn? ==>
                  && pc.channel < |s.log| && s.log[pc.channel].owner == c
                  && s.log[pc.channel].outcome == Returned(pc.result))
            && (pc.Repanicked? ==>
                  && pc.channel < |s.log| && s.log[pc.channel].owner == c
                  && s.log[pc.channel].outcome == Panicked(pc.value))
  {
    RunKeepsInv(Init(ttl), steps);
    var s := Run(Init(ttl), steps).value;
    assert CallerInv(s, c, s.callers[c]);
    if s.callers[c].GotWaited? {
      FinishesInOrder(s, s.callers[c].channel, s.callers[c].from);
    }
  }

  /** The state before step `j` of a run. */
  function Before(s: State, steps: seq<Step>, j: nat): Option<State>
    requires j <= |steps|
  {
    Run(s, steps[..j])
  }

  /** In step `j` the collector of caller `o` does what `outcome` says, for channel `i`. */
  predicate CollectsAt(s: State, steps: seq<Step>, j: nat, o: nat, outcome: Outcome, i: nat) {
    && j < |steps| && steps[j] == Collect(o, outcome) && Before(s, steps, j).Some?
    && o in Before(s, steps, j).value.callers && Before(s, steps, j).value.callers[o] == Collecting(i)
  }

  /** The outcome of each collection is what the collector did in some step of the run,
      called by the owner of that collection. */
  lemma OutcomesAreTheCollectors(ttl: Time, steps: seq<Step>, i: nat)
    requires Run(Init(ttl), steps).Some? && i < |Run(Init(ttl), steps).value.log|
    ensures var entry := Run(Init(ttl), steps).value.log[i];
            exists j: nat :: CollectsAt(Init(ttl), steps, j, entry.owner, entry.outcome, i)
  {
    var j := CollectedInRun(Init(ttl), steps, i);
  }

  lemma {:induction false} LogOnlyGrows(s: State, steps: seq<Step>)
    requires Run(s, steps).Some?
    ensures s.log <= Run(s, steps).value.log
    decreases |steps|
  {
    if steps != [] {
      LogOnlyGrows(Apply(s, steps[0]), steps[1..]);
    }
  }

  predicate Holds(s: State, o: nat, pc: PC) {
    o in s.callers && s.callers[o] == pc
  }

  /** A collection finished by a run was collected in it, or before it and not yet
      published. */
  lemma {:induction false} CollectedInRun(s: State, steps: seq<Step>, i: nat) returns (j: nat)
    requires Inv(s) && Run(s, steps).Some? && |s.log| <= i < |Run(s, steps).value.log|
    ensures var entry := Run(s, steps).value.log[i];
            || Holds(s, entry.owner, Recovering(i, entry.outcome))
            || CollectsAt(s, steps, j, entry.owner, entry.outcome, i)
    decreases |steps|
  {
    assert steps != [];
    var entry := Run(s, steps).value.log[i];
    var next := Apply(s, steps[0]);
    StepKeepsInv(s, steps[0]);
    j := 0;
    if i < |next.log| {
      LogOnlyGrows(next, steps[1..]);
      assert next.log[i] == entry;
      PublishedFromHeld(s, steps[0], i);
    } else {
      var k := CollectedInRun(next, steps[1..], i);
      if Holds(next, entry.owner, Recovering(i, entry.outcome)) {
        FirstStepCollects(s, steps, entry.owner, entry.outcome, i);
      } else {
        CollectsLater(s, steps, k, entry.owner, entry.outcome, i);
        j := k + 1;
      }
    }
  }

  lemma PublishedFromHeld(s: State, step: Step, i: nat)
    requires Inv(s) && Enabled(s, step) && |s.log| <= i < |Apply(s, step).log|
    ensures var entry := Apply(s, step).log[i]; Holds(s, entry.owner, Recovering(i, entry.outcome))
  {
  }

  lemma FirstStepCollects(s: State, steps: seq<Step>, o: nat, outcome: Outcome, i: nat)
    requires steps != [] && Enabled(s, steps[0]) && Holds(Apply(s, steps[0]), o, Recovering(i, outcome))
    ensures Holds(s, o, Recovering(i, outcome)) || CollectsAt(s, steps, 0, o, outcome, i)
  {
    assert steps[..0] == [];
  }

  lemma CollectsLater(s: State, steps: seq<Step>, k: nat, o: nat, outcome: Outcome, i: nat)
    requires steps != [] && Enabled(s, steps[0]) && CollectsAt(Apply(s, steps[0]), steps[1..], k, o, outcome, i)
    ensures CollectsAt(s, steps, k + 1, o, outcome, i)
  {
    assert steps[..k + 1][1..] == steps[1..][..k];
  }

  // ---------------------------------------------------------------- the object

  /** The collector's own fields, changed in place. */
  class CachedMetricsCollector {
    const ttl: Time
    var metric: Metric
    var err: Option<Error>
    var updated: Option<Time>
    var running: bool
    var completed: nat
    var channels: nat
    var closes: seq<nat>

    function View(): Shared
      reads this
    {
      Shared(ttl, Result(metric, err), updated, running, completed, channels, closes)
    }

    constructor (ttl: Time)
      ensures View() == NewShared(ttl)
    {
      this.ttl := ttl;
      metric, err, updated := ZERO_METRIC, None, None;
      running, completed, channels, closes := false, 0, 0, [];
    }

    /** The region under the first lock. */
    method Begin(now: Time) returns (entry: Entry)
      modifies this
      ensures (View(), entry) == Enter(old(View()), now)
    {
      if updated.Some? && now - updated.value < ttl {
        return Hit(Result(metric, err));
      }
      if running {
        return Join(completed);
      }
      running := true;
      completed := channels;
      channels := channels + 1;
      entry := Own(completed);
    }

    /** The owner's last region: what the collector returned is stored, a panic as
        an error, and the channel that the owner made is closed. */
    method Complete(channel: nat, outcome: Outcome, now: Time)
      modifies this
      ensures View() == Finish(old(View()), channel, outcome, now)
    {
      var m, e := ZERO_METRIC, None;
      match outcome {
        case Returned(result) => m, e := result.metric, result.err;
        case Panicked(value) => e := Some(CollectorPanic(value));
      }
      metric, err, updated := m, e, Some(now);
      running := false;
      closes := closes + [channel];
    }

    /** A woken waiter's region. */
    method ReadCached() returns (result: Result)
      ensures result == Cached(View())
    {
      result := Result(metric, err);
    }

    /** `GetMetrics` by a caller that nobody interferes with: a fresh result is
        returned as it is, and otherwise one collection is made and cached. */
    method GetMetrics(now: Time, outcome: Outcome, later: Time) returns (r: Outcome)
      requires !running
      modifies this
      ensures !running
      ensures old(updated.Some? && now - updated.value < ttl) ==> View() == old(View()) && r == Returned(old(View().result))
      ensures !old(updated.Some? && now - updated.value < ttl) ==>
                && View().result == Recovered(outcome) && updated == Some(later) && r == outcome
                && closes == old(closes) + [old(channels)] && channels == old(channels) + 1
    {
      var entry := Begin(now);
      if entry.Hit? {
        return Returned(entry.result);
      }
      Complete(entry.channel, outcome, later);
      r := outcome;
    }
  }
}
