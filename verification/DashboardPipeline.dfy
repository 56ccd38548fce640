/** The live dashboard as a protocol: store mutations, publishers, clients and page
    requests, all interleaved (internal/web/handlers/dashboard.go). */
module DashboardPipeline {
  // Publishers invalidate the cache and fan an update out; clients and page requests
  // read the cache and render.

  import opened Identifiers
  import opened DashboardUpdates

  /** Nanoseconds. */
  type Time = nat

  const SECOND: Time := 1_000_000_000

  /** The store's version goes up at every mutation. */
  type Version = nat

  const CACHE_TTL: Time := 30 * SECOND

  /** Dashboard data: the store version seen by each of the four reads, and the
      clock when its collection began. */
  datatype Data = Data(seen: seq<Version>, at: Time)

  datatype Cache = Cache(data: Data, expiresAt: Time)

  /** The zero `dashboardCache`: never fresh. */
  const NO_CACHE := Cache(Data([], 0), 0)

  /** Why an update is sent: an event, with the store version its mutation produced, or
      the opening of a connection or a page, with the store version at the latest
      invalidation before it. */
  datatype Cause = Mutation(event: Event, version: Version) | Opening(version: Version)

  const FULL_UPDATE := Update(ALL, {}, {})

  /** What a cause changes on a page with the hosts `rows`. */
  function CauseRegions(e: Cause, rows: set<UUID>): set<Region> {
    match e
    case Mutation(event, _) => EventRegions(event, rows)
    case Opening(_) => PageRegions(rows)
  }

  /** What a cause asks for. */
  function Asked(e: Cause): Update {
    match e
    case Mutation(event, _) => UpdateForEvent(event)
    case Opening(_) => FULL_UPDATE
  }

  lemma CauseAsksExactly(e: Cause, rows: set<UUID>, region: Region)
    ensures Demands(Asked(e), rows, region) <==> region in CauseRegions(e, rows)
  {
    if e.Mutation? {
      EventAsksExactly(e.event, rows, region);
    } else {
      FullUpdateAsksForThePage(rows, region);
    }
  }

  /** A queued update, with the causes that were merged into it. The code has only the
      update; the causes are its history. */
  datatype Item = Item(update: Update, events: set<Cause>)

  function MergeItems(a: Item, b: Item): Item {
    Item(Merge(a.update, b.update), a.events + b.events)
  }

  /** A call of `dashboardData` and the clock value it began with. */
  datatype Call = Call(item: Item, start: Time)

  datatype Rendering = Rendering(call: Call, data: Data)

  datatype PC =
    | Connecting                                               // registered, initial update not yet queued
    | Idle
    | Dequeued(item: Item)
    | Called(call: Call)                                       // before the read-locked test
    | Missed(call: Call)                                       // before taking the write lock
    | Collecting(call: Call, at: Time, seen: seq<Version>)    // holds the write lock
    | Closed

  datatype Process = Process(
    registered: bool,           // in `h.clients`
    queue: seq<Item>,           // `updateCh`
    pc: PC,
    rendered: seq<Rendering>,   // every payload or page produced so far
    signalled: set<Cause>,      // every cause ever signalled to this client
    failed: set<Cause>,         // causes whose rendering failed, which closes the client
    since: Version              // `invalidatedAt` when it was registered or opened
  )

  datatype Publisher =
    | Announced(e: Cause)
    | Invalidated(e: Cause)
    | FanningOut(e: Cause, left: set<nat>)   // holds `clientsMu` for reading

  datatype State = State(
    now: Time,
    version: Version,
    cache: Cache,
    holder: Option<nat>,           // the process that holds `mu` for writing
    publishers: map<nat, Publisher>,
    processes: map<nat, Process>,
    invalidatedAt: Version,        // store version at the latest invalidation
    handled: set<Cause>            // events whose handler has returned
  )

  function Init(): State {
    State(0, 0, NO_CACHE, None, map[], map[], 0, {})
  }

  /** Each critical section is one step. Collecting dashboard data is five: the
      writer takes `mu`, reads the store four times while the store goes on
      changing, and then fills the cache. */
  datatype Step =
    | Tick
    | Mutate
    | Announce(p: nat, e: Cause)
    | Invalidate(p: nat)
    | BeginFanOut(p: nat)
    | SignalOne(p: nat, c: nat)
    | EndFanOut(p: nat)
    | Connect(c: nat)
    | SignalInitial(c: nat)
    | Disconnect(c: nat)
    | OpenPage(c: nat)
    | Dequeue(c: nat)
    | Ask(c: nat)
    | TestCache(c: nat)
    | LockCache(c: nat)
    | ReadStore(c: nat)
    | FillCache(c: nat)
    | ReadFails(c: nat)

  predicate NobodyFansOut(s: State) {
    forall p :: p in s.publishers ==> !s.publishers[p].FanningOut?
  }

  predicate Enabled(s: State, step: Step) {
    match step
    case Tick => true
    case Mutate => true
    case Announce(p, e) => p !in s.publishers && e.Mutation? && e.version <= s.version
    case Invalidate(p) => p in s.publishers && s.publishers[p].Announced? && s.holder.None?
    case BeginFanOut(p) => p in s.publishers && s.publishers[p].Invalidated?
    case SignalOne(p, c) =>
      && p in s.publishers && s.publishers[p].FanningOut? && c in s.publishers[p].left
      && c in s.processes && |s.processes[c].queue| <= QUEUE_CAPACITY
    case EndFanOut(p) => p in s.publishers && s.publishers[p].FanningOut? && s.publishers[p].left == {}
    case Connect(c) => c !in s.processes && NobodyFansOut(s)
    case SignalInitial(c) => At(s, c) && s.processes[c].pc.Connecting? && |s.processes[c].queue| <= QUEUE_CAPACITY
    case Disconnect(c) =>
      && At(s, c) && s.processes[c].registered && NobodyFansOut(s)
      && (s.processes[c].pc.Idle? || s.processes[c].pc.Closed?)
    case OpenPage(c) => c !in s.processes
    case Dequeue(c) => At(s, c) && s.processes[c].registered && s.processes[c].pc.Idle? && s.processes[c].queue != []
    case Ask(c) => At(s, c) && s.processes[c].pc.Dequeued?
    case TestCache(c) => At(s, c) && s.processes[c].pc.Called? && s.holder.None?
    case LockCache(c) => At(s, c) && s.processes[c].pc.Missed? && s.holder.None?
    case ReadStore(c) => At(s, c) && s.processes[c].pc.Collecting? && |s.processes[c].pc.seen| < 4
    case FillCache(c) => At(s, c) && s.processes[c].pc.Collecting? && |s.processes[c].pc.seen| == 4
    case ReadFails(c) => At(s, c) && s.processes[c].pc.Collecting? && |s.processes[c].pc.seen| < 4
  }

  predicate At(s: State, c: nat) {
    c in s.processes
  }

  function SetPC(s: State, c: nat, pc: PC): State
    requires At(s, c)
  {
    s.(processes := s.processes[c := s.processes[c].(pc := pc)])
  }

  /** `dashboardData` returns: the payload is rendered from `data`. */
  function Return(x: Process, call: Call, data: Data): Process {
    x.(pc := Idle, rendered := x.rendered + [Rendering(call, data)])
  }

  function SignalProcess(x: Process, item: Item): Process
    requires |x.queue| <= QUEUE_CAPACITY
  {
    x.(queue := Signal(x.queue, item, MergeItems), signalled := x.signalled + item.events)
  }

  function ItemFor(e: Cause): Item {
    Item(Asked(e), {e})
  }

  function Apply(s: State, step: Step): State
    requires Enabled(s, step)
  {
    match step
    case Tick => s.(now := s.now + 1)
    case Mutate => s.(version := s.version + 1)
    case Announce(p, e) =>
      if Asked(e).sections == 0 then s   // the handler skips it
      else s.(publishers := s.publishers[p := Announced(e)])
    case Invalidate(p) =>
      s.(cache := NO_CACHE, invalidatedAt := s.version,
         publishers := s.publishers[p := Invalidated(s.publishers[p].e)])
    case BeginFanOut(p) =>
      s.(publishers := s.publishers[p := FanningOut(s.publishers[p].e,
                                                    set c | c in s.processes && s.processes[c].registered)])
    case SignalOne(p, c) =>
      var e := s.publishers[p].e;
      s.(publishers := s.publishers[p := FanningOut(e, s.publishers[p].left - {c})],
         processes := s.processes[c := SignalProcess(s.processes[c], ItemFor(e))])
    case EndFanOut(p) =>
      s.(publishers := s.publishers - {p}, handled := s.handled + {s.publishers[p].e})
    case Connect(c) =>
      s.(processes := s.processes[c := Process(true, [], Connecting, [], {}, {}, s.invalidatedAt)])
    case SignalInitial(c) =>
      var x := s.processes[c];
      s.(processes := s.processes[c := SignalProcess(x, ItemFor(Opening(x.since))).(pc := Idle)])
    case Disconnect(c) => s.(processes := s.processes[c := s.processes[c].(registered := false, pc := Closed)])
    case OpenPage(c) =>
      var e := Opening(s.invalidatedAt);
      s.(processes := s.processes[c := Process(false, [], Dequeued(ItemFor(e)), [], {e}, {}, s.invalidatedAt)])
    case Dequeue(c) =>
      var x := s.processes[c];
      s.(processes := s.processes[c := x.(queue := x.queue[1..], pc := Dequeued(x.queue[0]))])
    case Ask(c) => SetPC(s, c, Called(Call(s.processes[c].pc.item, s.now)))
    case TestCache(c) =>
      var call := s.processes[c].pc.call;
      if call.start < s.cache.expiresAt
      then s.(processes := s.processes[c := Return(s.processes[c], call, s.cache.data)])
      else SetPC(s, c, Missed(call))
    case LockCache(c) =>
      var call := s.processes[c].pc.call;
      if s.now < s.cache.expiresAt
      then s.(processes := s.processes[c := Return(s.processes[c], call, s.cache.data)])
      else SetPC(s, c, Collecting(call, s.now, [])).(holder := Some(c))
    case ReadStore(c) =>
      var pc := s.processes[c].pc;
      SetPC(s, c, pc.(seen := pc.seen + [s.version]))
    case FillCache(c) =>
      var pc := s.processes[c].pc;
      var data := Data(pc.seen, pc.at);
      s.(cache := Cache(data, pc.at + CACHE_TTL), holder := None,
         processes := s.processes[c := Return(s.processes[c], pc.call, data)])
    case ReadFails(c) =>
      var x := s.processes[c];
      s.(holder := None,
         processes := s.processes[c := x.(pc := Closed, failed := x.failed + x.pc.call.item.events)])
  }

  /** The state after a run, if every step of it was enabled. */
  function Run(s: State, steps: seq<Step>): Option<State>
    decreases |steps|
  {
    if steps == [] then Some(s)
    else if Enabled(s, steps[0]) then Run(Apply(s, steps[0]), steps[1..])
    else None
  }

  // ---------------------------------------------------------------- invariant

  /** Every read of the data saw the store at or after version `v`. */
  predicate SeenSince(seen: seq<Version>, v: Version) {
    forall i :: 0 <= i < |seen| ==> v <= seen[i]
  }

  /** The sections of the page, one for each bit that has a meaning. */
  datatype Section = GeneratedAt | Overview | HostList | Rows | Metrics

  function Bit(x: Section): Sections {
    match x
    case GeneratedAt => GENERATED_AT
    case Overview => OVERVIEW
    case HostList => HOSTS
    case Rows => HOST_ROWS
    case Metrics => HOST_METRICS
  }

  predicate HasSection(u: Update, x: Section) {
    Has(u, Bit(x))
  }

  function SectionsOf(u: Update): set<Section> {
    set x: Section | HasSection(u, x)
  }

  function AskedSections(events: set<Cause>): set<Section> {
    set e, x: Section | e in events && HasSection(Asked(e), x) :: x
  }

  function AskedRows(events: set<Cause>): set<UUID> {
    set e, id | e in events && id in Asked(e).hostRowIDs :: id
  }

  function AskedMetrics(events: set<Cause>): set<UUID> {
    set e, id | e in events && id in Asked(e).hostMetricIDs :: id
  }

  /** The update is made of what its causes ask for, section by section and identifier
      by identifier, and of nothing else. */
  predicate Composed(item: Item) {
    && SectionsOf(item.update) == AskedSections(item.events)
    && item.update.hostRowIDs == AskedRows(item.events)
    && item.update.hostMetricIDs == AskedMetrics(item.events)
  }

  /** An item is composed of what its causes ask for, and every one of them was
      followed by an invalidation of the cache. */
  ghost predicate ItemInv(item: Item, invalidatedAt: Version) {
    && Composed(item) && item.events != {}
    && forall e :: e in item.events ==> e.version <= invalidatedAt && WellFormed(Asked(e))
  }

  predicate FreshRendering(r: Rendering) {
    && |r.data.seen| == 4
    && (forall e :: e in r.call.item.events ==> SeenSince(r.data.seen, e.version))
    && r.call.start < r.data.at + CACHE_TTL
  }

  predicate InHand(pc: PC, e: Cause) {
    match pc
    case Dequeued(item) => e in item.events
    case Called(call) => e in call.item.events
    case Missed(call) => e in call.item.events
    case Collecting(call, _, _) => e in call.item.events
    case _ => false
  }

  predicate InQueue(queue: seq<Item>, e: Cause) {
    exists i :: 0 <= i < |queue| && e in queue[i].events
  }

  predicate InRendered(rendered: seq<Rendering>, e: Cause) {
    exists i :: 0 <= i < |rendered| && e in rendered[i].call.item.events
  }

  /** Nothing signalled is lost and nothing else appears. */
  ghost predicate Conserved(x: Process) {
    forall e :: e in x.signalled <==>
                InQueue(x.queue, e) || InHand(x.pc, e) || InRendered(x.rendered, e) || e in x.failed
  }

  ghost predicate PCInv(pc: PC, now: Time, invalidatedAt: Version) {
    match pc
    case Dequeued(item) => ItemInv(item, invalidatedAt)
    case Called(call) => ItemInv(call.item, invalidatedAt) && call.start <= now
    case Missed(call) => ItemInv(call.item, invalidatedAt) && call.start <= now
    case Collecting(call, at, seen) =>
      && ItemInv(call.item, invalidatedAt) && call.start <= at <= now
      && |seen| <= 4 && SeenSince(seen, invalidatedAt)
    case _ => true
  }

  ghost predicate ProcessInv(x: Process, now: Time, invalidatedAt: Version) {
    && |x.queue| <= QUEUE_CAPACITY
    && (forall i :: 0 <= i < |x.queue| ==> ItemInv(x.queue[i], invalidatedAt))
    && PCInv(x.pc, now, invalidatedAt)
    && (forall i :: 0 <= i < |x.rendered| ==> FreshRendering(x.rendered[i]) && ItemInv(x.rendered[i].call.item, invalidatedAt))
    && Conserved(x)
    && (x.failed != {} ==> x.pc.Closed?)
    && x.since <= invalidatedAt
    && (x.pc.Connecting? || x.pc.Closed? || Opening(x.since) in x.signalled)
  }

  predicate PublisherInv(p: Publisher, version: Version, invalidatedAt: Version) {
    && p.e.Mutation? && Asked(p.e).sections != 0
    && p.e.version <= version
    && (!p.Announced? ==> p.e.version <= invalidatedAt)
  }

  ghost predicate CacheInv(cache: Cache, now: Time, invalidatedAt: Version) {
    cache.expiresAt > 0 ==>
      && |cache.data.seen| == 4
      && SeenSince(cache.data.seen, invalidatedAt)
      && cache.expiresAt == cache.data.at + CACHE_TTL
  }

  /** The event was signalled to the client, or the client came only after the
      invalidation that followed it. */
  predicate Reached(x: Process, e: Cause) {
    e in x.signalled || e.version <= x.since
  }

  /** Whoever is being reached by a fan-out is there, and every registered client is
      still to be signalled or has been. */
  predicate FanOutInv(s: State) {
    forall p :: p in s.publishers && s.publishers[p].FanningOut? ==>
      && (forall c :: c in s.publishers[p].left ==> c in s.processes)
      && (forall c :: c in s.processes && s.processes[c].registered ==>
            c in s.publishers[p].left || s.publishers[p].e in s.processes[c].signalled)
  }

  predicate HandledInv(s: State) {
    forall e :: e in s.handled ==>
      && e.version <= s.invalidatedAt
      && forall c :: c in s.processes && s.processes[c].registered ==> Reached(s.processes[c], e)
  }

  /** The process that collects is the one that holds the lock. */
  predicate LockInv(s: State) {
    && (s.holder.Some? ==> s.holder.value in s.processes)
    && (forall c :: c in s.processes ==> (s.processes[c].pc.Collecting? <==> s.holder == Some(c)))
  }

  ghost predicate ProcessesInv(s: State) {
    forall c :: c in s.processes ==> ProcessInv(s.processes[c], s.now, s.invalidatedAt)
  }

  predicate PublishersInv(s: State) {
    && s.invalidatedAt <= s.version
    && (forall p :: p in s.publishers ==> PublisherInv(s.publishers[p], s.version, s.invalidatedAt))
  }

  ghost predicate Inv(s: State) {
    && CacheInv(s.cache, s.now, s.invalidatedAt)
    && PublishersInv(s) && ProcessesInv(s) && LockInv(s) && FanOutInv(s) && HandledInv(s)
  }

  lemma SignalKeepsItems(queue: seq<Item>, item: Item, v: Version)
    requires |queue| <= QUEUE_CAPACITY
    requires forall i :: 0 <= i < |queue| ==> ItemInv(queue[i], v)
    requires ItemInv(item, v)
    ensures var q := Signal(queue, item, MergeItems);
            forall i :: 0 <= i < |q| ==> ItemInv(q[i], v)
  {
    if |queue| == QUEUE_CAPACITY {
      MergedItemInv(queue[0], item, v);
    }
  }

  lemma MergedItemInv(a: Item, b: Item, v: Version)
    requires ItemInv(a, v) && ItemInv(b, v)
    ensures ItemInv(MergeItems(a, b), v)
  {
    var m := MergeItems(a, b);
    forall x: Section
      ensures x in SectionsOf(m.update) <==> x in SectionsOf(a.update) || x in SectionsOf(b.update)
    {
      HasMerge(a.update, b.update, Bit(x));
    }
    assert AskedSections(m.events) == AskedSections(a.events) + AskedSections(b.events);
    assert AskedRows(m.events) == AskedRows(a.events) + AskedRows(b.events);
    assert AskedMetrics(m.events) == AskedMetrics(a.events) + AskedMetrics(b.events);
  }

  /** Signalling adds the item's events to the queue and takes none away. */
  lemma SignalKeepsEvents(queue: seq<Item>, item: Item, e: Cause)
    requires |queue| <= QUEUE_CAPACITY
    ensures InQueue(Signal(queue, item, MergeItems), e) <==> InQueue(queue, e) || e in item.events
  {
    var q := Signal(queue, item, MergeItems);
    if InQueue(queue, e) {
      var i :| 0 <= i < |queue| && e in queue[i].events;
      if |queue| < QUEUE_CAPACITY {
        assert q[i] == queue[i];
      } else if i == 0 {
        assert e in q[|q| - 1].events;
      } else {
        assert q[i - 1] == queue[i];
      }
    }
    if e in item.events {
      assert e in q[|q| - 1].events;
    }
  }

  lemma SignalKeepsProcess(x: Process, item: Item, now: Time, v: Version)
    requires ProcessInv(x, now, v) && ItemInv(item, v)
    ensures ProcessInv(SignalProcess(x, item), now, v)
  {
    SignalKeepsItems(x.queue, item, v);
    forall e
      ensures InQueue(Signal(x.queue, item, MergeItems), e) <==> InQueue(x.queue, e) || e in item.events
    {
      SignalKeepsEvents(x.queue, item, e);
    }
  }

  lemma CauseItemInv(e: Cause, v: Version)
    ensures WellFormed(Asked(e)) && e.version <= v ==> ItemInv(ItemFor(e), v)
  {
  }

  lemma ReturnKeepsProcess(x: Process, call: Call, data: Data, now: Time, v: Version)
    requires ProcessInv(x, now, v)
    requires x.pc == Called(call) || x.pc == Missed(call) || (x.pc.Collecting? && x.pc.call == call)
    requires |data.seen| == 4 && SeenSince(data.seen, v) && call.start < data.at + CACHE_TTL
    ensures ProcessInv(Return(x, call, data), now, v)
  {
    var y := Return(x, call, data);
    forall e
      ensures InRendered(y.rendered, e) <==> InRendered(x.rendered, e) || e in call.item.events
    {
      if InRendered(x.rendered, e) {
        var i :| 0 <= i < |x.rendered| && e in x.rendered[i].call.item.events;
        assert y.rendered[i] == x.rendered[i];
      }
      assert y.rendered[|x.rendered|].call == call;
    }
    forall e | e in call.item.events
      ensures SeenSince(data.seen, e.version)
    {
    }
  }

  lemma DequeueKeepsProcess(x: Process, now: Time, v: Version)
    requires ProcessInv(x, now, v) && x.pc.Idle? && x.queue != []
    ensures ProcessInv(x.(queue := x.queue[1..], pc := Dequeued(x.queue[0])), now, v)
  {
    forall e
      ensures InQueue(x.queue, e) <==> InQueue(x.queue[1..], e) || e in x.queue[0].events
    {
      if InQueue(x.queue, e) {
        var i :| 0 <= i < |x.queue| && e in x.queue[i].events;
        assert i > 0 ==> x.queue[1..][i - 1] == x.queue[i];
      }
    }
  }

  /** Time passes and invalidations happen without disturbing a process that is
      not inside the write lock. */
  lemma ProcessInvIsMonotone(x: Process, now: Time, v: Version, now': Time, v': Version)
    ensures ProcessInv(x, now, v) && now <= now' && v <= v' && (x.pc.Collecting? ==> v == v') ==> ProcessInv(x, now', v')
  {
  }

  lemma PublisherStepKeepsInv(s: State, step: Step)
    requires Inv(s) && Enabled(s, step)
    requires step.Tick? || step.Mutate? || step.Announce? || step.Invalidate? || step.BeginFanOut? || step.EndFanOut?
    ensures Inv(Apply(s, step))
  {
    var t := Apply(s, step);
    forall c | c in s.processes
      ensures ProcessInv(t.processes[c], t.now, t.invalidatedAt)
    {
      ProcessInvIsMonotone(s.processes[c], s.now, s.invalidatedAt, t.now, t.invalidatedAt);
    }
  }

  /** Process `c` moves on to `y`, and at most the cache and the lock with it. */
  function Moved(s: State, c: nat, y: Process, cache: Cache, holder: Option<nat>): State {
    s.(processes := s.processes[c := y], cache := cache, holder := holder)
  }

  /** It is the same client, signalled no less than before. */
  predicate Continues(x: Process, y: Process) {
    y.registered == x.registered && y.since == x.since && x.signalled <= y.signalled
  }

  lemma ProcessStepKeepsInv(s: State, c: nat, y: Process, cache: Cache)
    requires Inv(s) && c in s.processes && Continues(s.processes[c], y)
    requires ProcessInv(y, s.now, s.invalidatedAt) && CacheInv(cache, s.now, s.invalidatedAt)
    requires y.pc.Collecting? ==> s.holder.None? || s.holder == Some(c)
    ensures Inv(Moved(s, c, y, cache, if y.pc.Collecting? then Some(c) else if s.holder == Some(c) then None else s.holder))
  {
    var t := Moved(s, c, y, cache, if y.pc.Collecting? then Some(c) else if s.holder == Some(c) then None else s.holder);
    assert LockInv(t);
    assert ProcessesInv(t);
  }

  lemma SignalOneKeepsInv(s: State, p: nat, c: nat)
    requires Inv(s) && Enabled(s, SignalOne(p, c))
    ensures Inv(Apply(s, SignalOne(p, c)))
  {
    var e, x := s.publishers[p].e, s.processes[c];
    EventUpdatesAreWellFormed(e.event);
    CauseItemInv(e, s.invalidatedAt);
    SignalKeepsProcess(x, ItemFor(e), s.now, s.invalidatedAt);
    var mid := Moved(s, c, SignalProcess(x, ItemFor(e)), s.cache, s.holder);
    ProcessStepKeepsInv(s, c, SignalProcess(x, ItemFor(e)), s.cache);
    OneLessToSignal(mid, p, c);
    assert Apply(s, SignalOne(p, c)) == mid.(publishers := mid.publishers[p := FanningOut(e, mid.publishers[p].left - {c})]);
  }

  lemma OneLessToSignal(s: State, p: nat, c: nat)
    requires Inv(s) && p in s.publishers && s.publishers[p].FanningOut?
    requires c in s.processes && s.publishers[p].e in s.processes[c].signalled
    ensures Inv(s.(publishers := s.publishers[p := FanningOut(s.publishers[p].e, s.publishers[p].left - {c})]))
  {
    var t := s.(publishers := s.publishers[p := FanningOut(s.publishers[p].e, s.publishers[p].left - {c})]);
    assert PublishersInv(t) && FanOutInv(t) && HandledInv(t);
  }

  lemma ConnectionStepKeepsInv(s: State, step: Step)
    requires Inv(s) && Enabled(s, step)
    requires step.Connect? || step.Disconnect? || step.OpenPage?
    ensures Inv(Apply(s, step))
  {
    var t := Apply(s, step);
    CauseItemInv(Opening(s.invalidatedAt), s.invalidatedAt);
    assert ProcessInv(t.processes[step.c], t.now, t.invalidatedAt);
  }

  lemma RequestStepKeepsInv(s: State, step: Step)
    requires Inv(s) && Enabled(s, step)
    requires step.SignalInitial? || step.Dequeue? || step.Ask?
    ensures Inv(Apply(s, step))
  {
    var x := s.processes[step.c];
    if step.SignalInitial? {
      CauseItemInv(Opening(x.since), s.invalidatedAt);
      SignalKeepsProcess(x, ItemFor(Opening(x.since)), s.now, s.invalidatedAt);
    } else if step.Dequeue? {
      DequeueKeepsProcess(x, s.now, s.invalidatedAt);
    }
    var t := Apply(s, step);
    ProcessStepKeepsInv(s, step.c, t.processes[step.c], t.cache);
  }

  lemma ReadStepKeepsInv(s: State, step: Step)
    requires Inv(s) && Enabled(s, step)
    requires step.ReadStore? || step.ReadFails?
    ensures Inv(Apply(s, step))
  {
    var t := Apply(s, step);
    ProcessStepKeepsInv(s, step.c, t.processes[step.c], t.cache);
  }

  lemma TestCacheKeepsInv(s: State, c: nat)
    requires Inv(s) && Enabled(s, TestCache(c))
    ensures Inv(Apply(s, TestCache(c)))
  {
    var call := s.processes[c].pc.call;
    if call.start < s.cache.expiresAt {
      ReturnKeepsProcess(s.processes[c], call, s.cache.data, s.now, s.invalidatedAt);
    }
    var t := Apply(s, TestCache(c));
    ProcessStepKeepsInv(s, c, t.processes[c], t.cache);
  }

  lemma LockCacheKeepsInv(s: State, c: nat)
    requires Inv(s) && Enabled(s, LockCache(c))
    ensures Inv(Apply(s, LockCache(c)))
  {
    var call := s.processes[c].pc.call;
    if s.now < s.cache.expiresAt {
      ReturnKeepsProcess(s.processes[c], call, s.cache.data, s.now, s.invalidatedAt);
    }
    var t := Apply(s, LockCache(c));
    ProcessStepKeepsInv(s, c, t.processes[c], t.cache);
  }

  lemma FillCacheKeepsInv(s: State, c: nat)
    requires Inv(s) && Enabled(s, FillCache(c))
    ensures Inv(Apply(s, FillCache(c)))
  {
    var pc := s.processes[c].pc;
    ReturnKeepsProcess(s.processes[c], pc.call, Data(pc.seen, pc.at), s.now, s.invalidatedAt);
    var t := Apply(s, FillCache(c));
    ProcessStepKeepsInv(s, c, t.processes[c], t.cache);
  }

  lemma StepKeepsInv(s: State, step: Step)
    requires Inv(s) && Enabled(s, step)
    ensures Inv(Apply(s, step))
  {
    match step
    case Tick => PublisherStepKeepsInv(s, step);
    case Mutate => PublisherStepKeepsInv(s, step);
    case Announce(_, _) => PublisherStepKeepsInv(s, step);
    case Invalidate(_) => PublisherStepKeepsInv(s, step);
    case BeginFanOut(_) => PublisherStepKeepsInv(s, step);
    case EndFanOut(_) => PublisherStepKeepsInv(s, step);
    case SignalOne(p, c) => SignalOneKeepsInv(s, p, c);
    case SignalInitial(_) => RequestStepKeepsInv(s, step);
    case Connect(_) => ConnectionStepKeepsInv(s, step);
    case Disconnect(_) => ConnectionStepKeepsInv(s, step);
    case OpenPage(_) => ConnectionStepKeepsInv(s, step);
    case Dequeue(_) => RequestStepKeepsInv(s, step);
    case Ask(_) => RequestStepKeepsInv(s, step);
    case TestCache(c) => TestCacheKeepsInv(s, c);
    case LockCache(c) => LockCacheKeepsInv(s, c);
    case FillCache(c) => FillCacheKeepsInv(s, c);
    case ReadStore(_) => ReadStepKeepsInv(s, step);
    case ReadFails(_) => ReadStepKeepsInv(s, step);
  }

  lemma {:induction false} RunKeepsInv(s: State, steps: seq<Step>)
    requires Inv(s)
    ensures Run(s, steps).Some? ==> Inv(Run(s, steps).value)
    decreases |steps|
  {
    if steps != [] && Enabled(s, steps[0]) {
      StepKeepsInv(s, steps[0]);
      RunKeepsInv(Apply(s, steps[0]), steps[1..]);
    }
  }

  // ---------------------------------------------------------------- theorems

  /** Some run, of any number of parties, leads here. */
  ghost predicate Reachable(s: State) {
    exists steps :: Run(Init(), steps) == Some(s)
  }

  lemma ReachableInv(s: State)
    requires Reachable(s)
    ensures Inv(s)
  {
    var steps :| Run(Init(), steps) == Some(s);
    RunKeepsInv(Init(), steps);
  }

  /** In every interleaving: whatever a client or a page renders, each of the four
      store reads behind it happened at or after the mutation of every event in
      the update, and the data's collection began less than the cache's lifetime
      before the request. */
  lemma EveryRenderingIsFresh(s: State, c: nat, i: nat)
    requires Reachable(s)
    requires c in s.processes && i < |s.processes[c].rendered|
    ensures var r := s.processes[c].rendered[i];
            && |r.data.seen| == 4
            && (forall e, k :: e in r.call.item.events && 0 <= k < 4 ==> e.version <= r.data.seen[k])
            && r.call.start < r.data.at + 30_000_000_000
  {
    ReachableInv(s);
    var r := s.processes[c].rendered[i];
    assert FreshRendering(r);
  }

  /** `Demands` by named sections. */
  predicate DemandsBySection(u: Update, rows: set<UUID>, region: Region) {
    match region
    case GeneratedAtRegion => HasSection(u, GeneratedAt)
    case OverviewRegion => HasSection(u, Overview)
    case ListRegion => HasSection(u, HostList)
    case RowRegion(id) => id in rows && (HasSection(u, HostList) || (HasSection(u, Rows) && id in u.hostRowIDs))
    case MetricsRegion(id) =>
      id in rows && (HasSection(u, HostList) || (HasSection(u, Rows) && id in u.hostRowIDs)
                                             || (HasSection(u, Metrics) && id in u.hostMetricIDs))
  }

  lemma DemandsAreBySection(u: Update, rows: set<UUID>, region: Region)
    ensures Demands(u, rows, region) <==> DemandsBySection(u, rows, region)
  {
  }

  lemma WellFormedCause(e: Cause)
    requires WellFormed(Asked(e))
    ensures HasSection(Asked(e), GeneratedAt)
    ensures forall id :: id in Asked(e).hostRowIDs ==> HasSection(Asked(e), Rows)
    ensures forall id :: id in Asked(e).hostMetricIDs ==> HasSection(Asked(e), Metrics)
  {
  }

  /** Every section and identifier of an item is asked for by a cause of its own. */
  lemma ComposedMembers(item: Item)
    requires Composed(item)
    ensures forall x: Section :: HasSection(item.update, x) <==> exists e :: e in item.events && HasSection(Asked(e), x)
    ensures forall id :: id in item.update.hostRowIDs <==> exists e :: e in item.events && id in Asked(e).hostRowIDs
    ensures forall id :: id in item.update.hostMetricIDs <==> exists e :: e in item.events && id in Asked(e).hostMetricIDs
  {
    forall x: Section
      ensures HasSection(item.update, x) <==> exists e :: e in item.events && HasSection(Asked(e), x)
    {
      assert x in SectionsOf(item.update) <==> x in AskedSections(item.events);
    }
    assert forall id :: id in item.update.hostRowIDs <==> id in AskedRows(item.events);
    assert forall id :: id in item.update.hostMetricIDs <==> id in AskedMetrics(item.events);
  }

  lemma ComposedDemands(item: Item, v: Version, rows: set<UUID>, region: Region)
    requires ItemInv(item, v)
    ensures DemandsBySection(item.update, rows, region) <==> exists e :: e in item.events && DemandsBySection(Asked(e), rows, region)
  {
    ComposedMembers(item);
    forall e | e in item.events
      ensures HasSection(Asked(e), GeneratedAt)
      ensures forall id :: id in Asked(e).hostRowIDs ==> HasSection(Asked(e), Rows)
      ensures forall id :: id in Asked(e).hostMetricIDs ==> HasSection(Asked(e), Metrics)
    {
      WellFormedCause(e);
    }
  }

  /** What an item asks for is exactly what its causes ask for, and sending it
      refreshes exactly that. */
  lemma ItemDemands(item: Item, v: Version, rows: set<UUID>, region: Region)
    requires ItemInv(item, v)
    ensures Demands(item.update, rows, region) <==> exists e :: e in item.events && region in CauseRegions(e, rows)
    ensures Refreshes(item.update, rows, region) <==> Demands(item.update, rows, region)
  {
    ComposedDemands(item, v, rows, region);
    DemandsAreBySection(item.update, rows, region);
    forall e | e in item.events
      ensures region in CauseRegions(e, rows) <==> DemandsBySection(Asked(e), rows, region)
    {
      CauseAsksExactly(e, rows, region);
      DemandsAreBySection(Asked(e), rows, region);
    }
    var e :| e in item.events;
    WellFormedCause(e);
    assert GeneratedAt in SectionsOf(item.update);
    RenderingMeetsDemand(item.update, rows, region);
  }

  /** Merging adds nothing: every payload, in every run, refreshes exactly the regions
      that the causes merged into it change. */
  lemma EveryRenderingIsExact(s: State, c: nat, i: nat, rows: set<UUID>, region: Region)
    requires Reachable(s)
    requires c in s.processes && i < |s.processes[c].rendered|
    ensures var item := s.processes[c].rendered[i].call.item;
            Refreshes(item.update, rows, region) <==> exists e :: e in item.events && region in CauseRegions(e, rows)
  {
    ReachableInv(s);
    ItemDemands(s.processes[c].rendered[i].call.item, s.invalidatedAt, rows, region);
  }

  /** The item that the process works on. */
  function Held(pc: PC): Option<Item> {
    match pc
    case Dequeued(item) => Some(item)
    case Called(call) => Some(call.item)
    case Missed(call) => Some(call.item)
    case Collecting(call, _, _) => Some(call.item)
    case _ => None
  }

  /** A queued update asks for the region, or the one in hand does. */
  predicate PendingRegion(x: Process, rows: set<UUID>, region: Region) {
    || (exists i :: 0 <= i < |x.queue| && Demands(x.queue[i].update, rows, region))
    || (Held(x.pc).Some? && Demands(Held(x.pc).value.update, rows, region))
  }

  /** Some payload refreshed the region. */
  ghost predicate ShownRegion(x: Process, rows: set<UUID>, region: Region) {
    exists i :: 0 <= i < |x.rendered| && Refreshes(x.rendered[i].call.item.update, rows, region)
  }

  predicate AskedFor(x: Process, rows: set<UUID>, region: Region) {
    exists e :: e in x.signalled && region in CauseRegions(e, rows)
  }

  /** The union of what is queued, in hand and delivered is the union of everything
      signalled, region by region: nothing is invented in any run, and nothing is
      lost unless a rendering failed, which closes the client. */
  lemma DeliveredIsSignalled(s: State, c: nat, rows: set<UUID>, region: Region)
    requires Reachable(s) && c in s.processes
    ensures var x := s.processes[c];
            && (PendingRegion(x, rows, region) || ShownRegion(x, rows, region) ==> AskedFor(x, rows, region))
            && (AskedFor(x, rows, region) && x.failed == {} ==> PendingRegion(x, rows, region) || ShownRegion(x, rows, region))
  {
    ReachableInv(s);
    RegionsAreConserved(s.processes[c], s.now, s.invalidatedAt, rows, region);
  }

  lemma RegionsAreConserved(x: Process, now: Time, v: Version, rows: set<UUID>, region: Region)
    requires ProcessInv(x, now, v)
    ensures PendingRegion(x, rows, region) || ShownRegion(x, rows, region) ==> AskedFor(x, rows, region)
    ensures AskedFor(x, rows, region) && x.failed == {} ==> PendingRegion(x, rows, region) || ShownRegion(x, rows, region)
  {
    forall i | 0 <= i < |x.queue|
      ensures Demands(x.queue[i].update, rows, region) <==> exists e :: e in x.queue[i].events && region in CauseRegions(e, rows)
    {
      ItemDemands(x.queue[i], v, rows, region);
    }
    forall i | 0 <= i < |x.rendered|
      ensures Refreshes(x.rendered[i].call.item.update, rows, region)
         <==> exists e :: e in x.rendered[i].call.item.events && region in CauseRegions(e, rows)
    {
      ItemDemands(x.rendered[i].call.item, v, rows, region);
    }
    if Held(x.pc).Some? {
      ItemDemands(Held(x.pc).value, v, rows, region);
    }
  }

  /** The cause is still on its way to the client. */
  predicate Pending(x: Process, e: Cause) {
    InQueue(x.queue, e) || InHand(x.pc, e)
  }

  /** Some payload refreshed every region the cause asks for, from data whose
      reads all saw its mutation. */
  ghost predicate ShownBy(r: Rendering, e: Cause) {
    && |r.data.seen| == 4 && SeenSince(r.data.seen, e.version)
    && forall rows, region :: region in CauseRegions(e, rows) ==> Refreshes(r.call.item.update, rows, region)
  }

  ghost predicate PendingOrShown(x: Process, e: Cause) {
    Pending(x, e) || exists i :: 0 <= i < |x.rendered| && ShownBy(x.rendered[i], e)
  }

  /** No update is lost: in every reachable state, a cause signalled to a client
      that has not failed is either still on its way or has been shown in full,
      from data read after its mutation; and queues stay within capacity. */
  lemma EverySignalledEventIsShown(s: State, c: nat, e: Cause)
    requires Reachable(s)
    requires c in s.processes && e in s.processes[c].signalled && !s.processes[c].pc.Closed?
    ensures var x := s.processes[c];
            |x.queue| <= 8 && PendingOrShown(x, e)
  {
    ReachableInv(s);
    var x := s.processes[c];
    if !Pending(x, e) {
      assert InRendered(x.rendered, e);
      var i :| 0 <= i < |x.rendered| && e in x.rendered[i].call.item.events;
      assert FreshRendering(x.rendered[i]);
      ItemShows(x.rendered[i], s.invalidatedAt, e);
    }
  }

  lemma ItemShows(r: Rendering, v: Version, e: Cause)
    requires FreshRendering(r) && e in r.call.item.events && ItemInv(r.call.item, v)
    ensures ShownBy(r, e)
  {
    forall rows, region | region in CauseRegions(e, rows)
      ensures Refreshes(r.call.item.update, rows, region)
    {
      ItemDemands(r.call.item, v, rows, region);
    }
  }

  /** When a fan-out can end, every registered client has been signalled. */
  lemma FanOutReachesEveryClient(s: State, p: nat, c: nat)
    ensures Reachable(s) && Enabled(s, EndFanOut(p)) && c in s.processes && s.processes[c].registered ==>
              s.publishers[p].e in s.processes[c].signalled && s.publishers[p].e in Apply(s, EndFanOut(p)).handled
  {
    if Reachable(s) {
      ReachableInv(s);
    }
  }

  /** The event's handler is running, or has returned. */
  predicate UnderWay(s: State, e: Cause) {
    e in s.handled || exists p :: p in s.publishers && s.publishers[p].e == e
  }

  lemma StepKeepsUnderWay(s: State, step: Step, e: Cause)
    requires Enabled(s, step) && UnderWay(s, e)
    ensures UnderWay(Apply(s, step), e)
  {
    if e !in s.handled {
      var p :| p in s.publishers && s.publishers[p].e == e;
      var t := Apply(s, step);
      assert p in t.publishers ==> t.publishers[p].e == e;
    }
  }

  lemma {:induction false} RunKeepsUnderWay(s: State, steps: seq<Step>, e: Cause)
    requires Run(s, steps).Some? && UnderWay(s, e)
    ensures UnderWay(Run(s, steps).value, e)
    decreases |steps|
  {
    if steps != [] {
      StepKeepsUnderWay(s, steps[0], e);
      RunKeepsUnderWay(Apply(s, steps[0]), steps[1..], e);
    }
  }

  predicate Changes(e: Cause) {
    e.Mutation? ==> !ChangesNothing(e.event)
  }

  /** Every event published in a run, unless it changes nothing on the page, is in a
      handler's hands or has been handled. */
  lemma {:induction false} PublishedEventsAreHandled(s: State, steps: seq<Step>, i: nat)
    ensures Run(s, steps).Some? && i < |steps| && steps[i].Announce? && Changes(steps[i].e) ==>
              UnderWay(Run(s, steps).value, steps[i].e)
    decreases |steps|
  {
    if Run(s, steps).Some? && i < |steps| && steps[i].Announce? && Changes(steps[i].e) {
      var t := Apply(s, steps[0]);
      if i == 0 {
        EventAsksExactly(steps[0].e.event, {}, ListRegion);
        assert t.publishers[steps[0].p].e == steps[0].e;
        RunKeepsUnderWay(t, steps[1..], steps[0].e);
      } else {
        PublishedEventsAreHandled(t, steps[1..], i - 1);
      }
    }
  }

  /** What a handler's return promises, end to end: once it has returned, every
      connected client has the event on its way or was shown it in full. A client that
      came too late for the fan-out came after the invalidation, and has instead the
      full update of its opening, whose data is as new. */
  lemma EveryHandledEventReachesEveryClient(s: State, c: nat, e: Cause)
    ensures Reachable(s) && e in s.handled && c in s.processes && s.processes[c].registered && !s.processes[c].pc.Closed? ==>
              var x := s.processes[c];
              || PendingOrShown(x, e)
              || (e.version <= x.since && (Enabled(s, SignalInitial(c)) || PendingOrShown(x, Opening(x.since))))
  {
    if Reachable(s) && e in s.handled && c in s.processes && s.processes[c].registered && !s.processes[c].pc.Closed? {
      ReachableInv(s);
      var x := s.processes[c];
      assert Reached(x, e);
      if e in x.signalled {
        EverySignalledEventIsShown(s, c, e);
      } else if !x.pc.Connecting? {
        EverySignalledEventIsShown(s, c, Opening(x.since));
      }
    }
  }

  /** A publisher that is fanning out can always go on, whatever the clients do:
      signalling never blocks. */
  lemma FanOutNeverBlocks(s: State, p: nat, c: nat)
    ensures Reachable(s) && p in s.publishers && s.publishers[p].FanningOut? ==>
              && (c in s.publishers[p].left ==> Enabled(s, SignalOne(p, c)))
              && (s.publishers[p].left == {} ==> Enabled(s, EndFanOut(p)))
  {
    if Reachable(s) {
      ReachableInv(s);
    }
  }

  /** No cause is invented: what is queued, in hand or shown was signalled. */
  lemma NothingIsInvented(s: State, c: nat, e: Cause)
    ensures Reachable(s) && c in s.processes && (Pending(s.processes[c], e) || InRendered(s.processes[c].rendered, e)) ==>
              e in s.processes[c].signalled
  {
    if Reachable(s) {
      ReachableInv(s);
    }
  }
}
