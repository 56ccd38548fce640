/** The dashboard handler's cache and connected clients, changed in place, proved against
    the functions that DashboardPipeline is made of (internal/web/handlers/dashboard.go). */
module DashboardHandlers {
  import opened Identifiers
  import opened DashboardUpdates
  import opened DashboardPipeline

  class DashboardClient {
    var updateCh: seq<Update>

    ghost predicate Valid()
      reads this
    {
      |updateCh| <= QUEUE_CAPACITY
    }

    constructor ()
      ensures Valid() && updateCh == []
    {
      updateCh := [];
    }
  }

  /** `dashboardData` on a cache value: the new cache and the data, if any.
      `now` is read before the read-locked test, `later` under the write lock;
      `seen` is what the four store reads see, None when one of them fails. */
  function ReadThrough(cache: Cache, now: Time, later: Time, seen: Option<seq<Version>>): (Cache, Option<Data>) {
    if now < cache.expiresAt || later < cache.expiresAt then (cache, Some(cache.data))
    else if seen.None? then (cache, None)
    else (Cache(Data(seen.value, later), later + CACHE_TTL), Some(Data(seen.value, later)))
  }

  class DashboardHandler {
    var cache: Cache
    var clients: set<DashboardClient>

    ghost predicate Valid()
      reads this, clients
    {
      forall c :: c in clients ==> c.Valid()
    }

    constructor ()
      ensures Valid() && cache == NO_CACHE && clients == {}
    {
      cache := NO_CACHE;
      clients := {};
    }

    /** No read after this is served from before: whatever the clock says, the next
        call collects afresh. */
    method InvalidateCache()
      modifies this`cache
      ensures cache == NO_CACHE
      ensures forall now: Time, later: Time, seen: seq<Version> ::
                ReadThrough(cache, now, later, Some(seen)) == (Cache(Data(seen, later), later + CACHE_TTL), Some(Data(seen, later)))
    {
      cache := NO_CACHE;
    }

    method RegisterClient(client: DashboardClient)
      requires Valid() && client.Valid()
      modifies this`clients
      ensures Valid() && clients == old(clients) + {client}
    {
      clients := clients + {client};
    }

    method UnregisterClient(client: DashboardClient)
      requires Valid()
      modifies this`clients
      ensures Valid() && clients == old(clients) - {client}
    {
      clients := clients - {client};
    }

    method DashboardData(now: Time, later: Time, seen: Option<seq<Version>>) returns (data: Option<Data>)
      modifies this`cache
      ensures (cache, data) == ReadThrough(old(cache), now, later, seen)
      ensures data.None? <==> seen.None? && now >= old(cache).expiresAt && later >= old(cache).expiresAt
      ensures data.None? ==> cache == old(cache)
      ensures data.Some? && now >= old(cache).expiresAt && later >= old(cache).expiresAt ==>
                data.value == Data(seen.value, later) == cache.data && cache.expiresAt == later + 30_000_000_000
      ensures now < old(cache).expiresAt || later < old(cache).expiresAt ==> cache == old(cache) && data == Some(cache.data)
    {
      if now < cache.expiresAt {
        return Some(cache.data);
      }
      if later < cache.expiresAt {
        return Some(cache.data);
      }
      if seen.None? {
        return None;
      }
      data := Some(Data(seen.value, later));
      cache := Cache(data.value, later + CACHE_TTL);
    }

    /** The three nested selects, with nobody else at the channel. */
    method SignalClient(client: DashboardClient, update: Update)
      requires client.Valid()
      modifies client
      ensures client.Valid()
      ensures client.updateCh == Signal(old(client.updateCh), update, Merge)
    {
      if |client.updateCh| < QUEUE_CAPACITY {
        client.updateCh := client.updateCh + [update];
      } else if |client.updateCh| > 0 {
        var pending := client.updateCh[0];
        client.updateCh := client.updateCh[1..];
        var merged := MergeDashboardUpdates(pending, update);
        if |client.updateCh| < QUEUE_CAPACITY {
          client.updateCh := client.updateCh + [merged];
        }
      }
    }

    /** The start of `SubscribeToDashboard`: a new client is registered, and only then
        is the full update queued for it; no other client's queue changes. */
    method OpenConnection() returns (client: DashboardClient)
      requires Valid()
      modifies this`clients
      ensures Valid() && fresh(client) && clients == old(clients) + {client}
      ensures client.updateCh == [FULL_UPDATE]
      ensures forall c :: c in old(clients) ==> c.updateCh == old(c.updateCh)
    {
      client := new DashboardClient();
      RegisterClient(client);
      SignalClient(client, FULL_UPDATE);
    }

    method QueueLiveUpdate(update: Update)
      requires Valid()
      modifies clients
      ensures Valid()
      ensures forall c :: c in clients ==> c.updateCh == Signal(old(c.updateCh), update, Merge)
    {
      var todo := clients;
      while todo != {}
        invariant todo <= clients
        invariant Valid()
        invariant forall c :: c in todo ==> c.updateCh == old(c.updateCh)
        invariant forall c :: c in clients - todo ==> old(c.Valid()) && c.updateCh == Signal(old(c.updateCh), update, Merge)
        decreases todo
      {
        var client :| client in todo;
        SignalClient(client, update);
        todo := todo - {client};
      }
    }

    /** The handler subscribed for every dashboard event. An event that changes nothing
        on the page is skipped; any other empties the cache, and every client's newest
        update asks for all that the event changes. */
    method HandleEvent(event: Event)
      requires Valid()
      modifies this`cache, clients
      ensures Valid()
      ensures ChangesNothing(event) ==>
                cache == old(cache) && forall c :: c in clients ==> c.updateCh == old(c.updateCh)
      ensures !ChangesNothing(event) ==>
                && cache == NO_CACHE
                && forall c :: c in clients ==> c.updateCh == Signal(old(c.updateCh), UpdateForEvent(event), Merge)
      ensures !ChangesNothing(event) ==>
                forall c, rows, region :: c in clients && region in EventRegions(event, rows) ==>
                  c.updateCh != [] && Demands(c.updateCh[|c.updateCh| - 1], rows, region)
    {
      var update := UpdateForEvent(event);
      EventAsksExactly(event, {}, ListRegion);
      if update.sections == 0 {
        return;
      }
      InvalidateCache();
      QueueLiveUpdate(update);
      forall c, rows, region | c in clients && region in EventRegions(event, rows)
        ensures c.updateCh != [] && Demands(c.updateCh[|c.updateCh| - 1], rows, region)
      {
        EventAsksExactly(event, rows, region);
        NewestAsks(old(c.updateCh), update, rows, region);
      }
    }
  }

  /** The newest update of a queue asks for what was signalled last. */
  lemma NewestAsks(queue: seq<Update>, update: Update, rows: set<UUID>, region: Region)
    requires |queue| <= QUEUE_CAPACITY && Demands(update, rows, region)
    ensures var q := Signal(queue, update, Merge); q != [] && Demands(q[|q| - 1], rows, region)
  {
    if |queue| == QUEUE_CAPACITY {
      MergeIsLeastUpperBound(queue[0], update, Merge(queue[0], update));
      AbsorbedDemand(Merge(queue[0], update), update, rows, region);
    }
  }

  /** A cache hit: the protocol's test, or its test and its locked re-test, do
      what the method does. */
  lemma HitIsTheProtocol(s: State, c: nat, seen: Option<seq<Version>>)
    requires At(s, c) && s.processes[c].pc.Called? && s.holder.None?
    requires var start := s.processes[c].pc.call.start; start < s.cache.expiresAt || s.now < s.cache.expiresAt
    ensures var call := s.processes[c].pc.call;
            var (cache, data) := ReadThrough(s.cache, call.start, s.now, seen);
            var s1 := Apply(s, TestCache(c));
            var t := if call.start < s.cache.expiresAt then s1 else Apply(s1, LockCache(c));
            data.Some? && t.cache == cache && t.processes[c] == Return(s.processes[c], call, data.value)
  {
  }

  /** `c` holds the write lock and has finished `k` of its four reads. */
  function Reading(s: State, c: nat, call: Call, seen: seq<Version>): State
    requires At(s, c)
  {
    SetPC(s, c, Collecting(call, s.now, seen)).(holder := Some(c))
  }

  /** A cache miss: test, lock, four reads and the fill, run back to back, leave
      the cache and the process as the method does. */
  lemma MissIsTheProtocol(s: State, c: nat)
    requires At(s, c) && s.processes[c].pc.Called? && s.holder.None?
    requires s.processes[c].pc.call.start >= s.cache.expiresAt && s.now >= s.cache.expiresAt
    ensures var v := s.version;
            var call := s.processes[c].pc.call;
            var (cache, data) := ReadThrough(s.cache, call.start, s.now, Some([v, v, v, v]));
            var t := Run(s, [TestCache(c), LockCache(c), ReadStore(c), ReadStore(c), ReadStore(c), ReadStore(c), FillCache(c)]);
            && data.Some? && t.Some? && t.value.cache == cache && t.value.holder.None? && At(t.value, c)
            && t.value.processes[c] == Return(s.processes[c], call, data.value)
  {
    MissRuns(s, c);
  }

  lemma MissRuns(s: State, c: nat)
    requires At(s, c) && s.processes[c].pc.Called? && s.holder.None?
    requires s.processes[c].pc.call.start >= s.cache.expiresAt && s.now >= s.cache.expiresAt
    ensures var full := Reading(s, c, s.processes[c].pc.call, [s.version, s.version, s.version, s.version]);
            && Enabled(full, FillCache(c))
            && Run(s, [TestCache(c), LockCache(c), ReadStore(c), ReadStore(c), ReadStore(c), ReadStore(c), FillCache(c)])
               == Some(Apply(full, FillCache(c)))
  {
    var call := s.processes[c].pc.call;
    var s1 := Apply(s, TestCache(c));
    var rest := [ReadStore(c), ReadStore(c), ReadStore(c), ReadStore(c), FillCache(c)];
    assert Apply(s1, LockCache(c)) == Reading(s, c, call, []);
    FourReads(s, c, call);
    RunOne(s1, LockCache(c), rest);
    RunOne(s, TestCache(c), [LockCache(c)] + rest);
    assert [TestCache(c)] + ([LockCache(c)] + rest)
        == [TestCache(c), LockCache(c), ReadStore(c), ReadStore(c), ReadStore(c), ReadStore(c), FillCache(c)];
  }

  lemma FourReads(s: State, c: nat, call: Call)
    requires At(s, c)
    ensures var full := Reading(s, c, call, [s.version, s.version, s.version, s.version]);
            && Enabled(full, FillCache(c))
            && Run(Reading(s, c, call, []), [ReadStore(c), ReadStore(c), ReadStore(c), ReadStore(c), FillCache(c)])
               == Some(Apply(full, FillCache(c)))
  {
    var v := s.version;
    var r, f := ReadStore(c), FillCache(c);
    assert [f] + [] == [f] && [r] + [f] == [r, f] && [r] + [r, f] == [r, r, f];
    assert [r] + [r, r, f] == [r, r, r, f] && [r] + [r, r, r, f] == [r, r, r, r, f];
    assert [] + [v] == [v] && [v] + [v] == [v, v] && [v, v] + [v] == [v, v, v] && [v, v, v] + [v] == [v, v, v, v];
    ReadingStep(s, c, call, []);
    ReadingStep(s, c, call, [v]);
    ReadingStep(s, c, call, [v, v]);
    ReadingStep(s, c, call, [v, v, v]);
    RunOne(Reading(s, c, call, [v, v, v, v]), FillCache(c), []);
    RunOne(Reading(s, c, call, [v, v, v]), ReadStore(c), [FillCache(c)]);
    RunOne(Reading(s, c, call, [v, v]), ReadStore(c), [ReadStore(c), FillCache(c)]);
    RunOne(Reading(s, c, call, [v]), ReadStore(c), [ReadStore(c), ReadStore(c), FillCache(c)]);
    RunOne(Reading(s, c, call, []), ReadStore(c), [ReadStore(c), ReadStore(c), ReadStore(c), FillCache(c)]);
  }

  lemma ReadingStep(s: State, c: nat, call: Call, seen: seq<Version>)
    requires At(s, c) && |seen| < 4
    ensures Enabled(Reading(s, c, call, seen), ReadStore(c))
    ensures Apply(Reading(s, c, call, seen), ReadStore(c)) == Reading(s, c, call, seen + [s.version])
  {
    assert s.processes[c := s.processes[c].(pc := Collecting(call, s.now, seen))]
                      [c := s.processes[c].(pc := Collecting(call, s.now, seen + [s.version]))]
        == s.processes[c := s.processes[c].(pc := Collecting(call, s.now, seen + [s.version]))];
  }

  lemma RunOne(s: State, step: Step, rest: seq<Step>)
    requires Enabled(s, step)
    ensures Run(s, [step] + rest) == Run(Apply(s, step), rest)
  {
    assert ([step] + rest)[1..] == rest;
  }

  // ---------------------------------------------------------------- the summary cards

  /** What `collectDashboardData` knows of a host: `metricAt` is the time of its
      latest snapshot, when that snapshot holds a metric. */
  datatype HostFacts = HostFacts(
    id: UUID,
    hasAgent: bool,
    methodCount: nat,
    hasSystemInfo: bool,
    metricAt: Option<Time>
  )

  datatype Status = NoAgent | Waiting | Reporting | Stale

  datatype Summary = Summary(
    totalHosts: nat,
    reportingHosts: nat,
    staleHosts: nat,
    waitingHosts: int,
    monitoredHosts: nat,
    systemInfoHosts: nat,
    managementMethods: nat,
    latestMetricAt: Option<Time>
  )

  const REPORTING_WINDOW: Time := 120 * SECOND

  function HostStatus(h: HostFacts, now: Time): Status {
    if h.metricAt.Some? then (if now - h.metricAt.value <= REPORTING_WINDOW then Reporting else Stale)
    else if h.hasAgent then Waiting
    else NoAgent
  }

  /** A host with a metric reports while that is at most two minutes old, and is stale
      afterwards; one without waits for its agent, if it has one. */
  lemma StatusExactly(h: HostFacts, now: Time)
    ensures HostStatus(h, now) == Reporting <==> h.metricAt.Some? && now <= h.metricAt.value + 120_000_000_000
    ensures HostStatus(h, now) == Stale <==> h.metricAt.Some? && now > h.metricAt.value + 120_000_000_000
    ensures HostStatus(h, now) == Waiting <==> h.metricAt.None? && h.hasAgent
    ensures HostStatus(h, now) == NoAgent <==> h.metricAt.None? && !h.hasAgent
  {
  }

  /** The counters after some hosts. */
  ghost function Summarised(hosts: seq<HostFacts>, now: Time): Summary {
    if hosts == [] then Summary(0, 0, 0, 0, 0, 0, 0, None)
    else CountHost(Summarised(hosts[..|hosts| - 1], now), hosts[|hosts| - 1], now)
  }

  ghost function CountHost(s: Summary, h: HostFacts, now: Time): Summary {
    var status := HostStatus(h, now);
    Summary(s.totalHosts + 1,
            s.reportingHosts + (if status == Reporting then 1 else 0),
            s.staleHosts + (if status == Stale then 1 else 0),
            s.waitingHosts + (if status == Waiting || status == NoAgent then 1 else 0),
            s.monitoredHosts + (if h.hasAgent then 1 else 0),
            s.systemInfoHosts + (if h.hasSystemInfo then 1 else 0),
            s.managementMethods + h.methodCount,
            if h.metricAt.Some? && (s.latestMetricAt.None? || h.metricAt.value > s.latestMetricAt.value)
            then h.metricAt else s.latestMetricAt)
  }

  lemma SummarisedStep(hosts: seq<HostFacts>, now: Time, i: nat)
    requires i < |hosts|
    ensures Summarised(hosts[..i + 1], now) == CountHost(Summarised(hosts[..i], now), hosts[i], now)
  {
    assert hosts[..i + 1][..i] == hosts[..i];
  }

  /** The counting loop of `collectDashboardData`; `waitingHosts` is what is left
      over once reporting and stale hosts are taken from the total. */
  method CollectDashboardData(hosts: seq<HostFacts>, now: Time) returns (rows: seq<Status>, summary: Summary)
    ensures rows == seq(|hosts|, i requires 0 <= i < |hosts| => HostStatus(hosts[i], now))
    ensures summary == Summarised(hosts, now)
  {
    rows := [];
    var totalMethods: nat, monitored: nat, systemInfos: nat := 0, 0, 0;
    var reporting: nat, stale: nat := 0, 0;
    var latest: Option<Time> := None;
    for i := 0 to |hosts|
      invariant |rows| == i && forall k :: 0 <= k < i ==> rows[k] == HostStatus(hosts[k], now)
      invariant Summarised(hosts[..i], now)
             == Summary(i, reporting, stale, i - reporting - stale, monitored, systemInfos, totalMethods, latest)
    {
      var h := hosts[i];
      SummarisedStep(hosts, now, i);
      totalMethods := totalMethods + h.methodCount;
      if h.hasAgent {
        monitored := monitored + 1;
      }
      var status := if h.hasAgent then Waiting else NoAgent;
      if h.hasSystemInfo {
        systemInfos := systemInfos + 1;
      }
      if h.metricAt.Some? {
        if latest.None? || h.metricAt.value > latest.value {
          latest := h.metricAt;
        }
        if now - h.metricAt.value <= REPORTING_WINDOW {
          status := Reporting;
          reporting := reporting + 1;
        } else {
          status := Stale;
          stale := stale + 1;
        }
      }
      rows := rows + [status];
    }
    assert hosts[..|hosts|] == hosts;
    summary := Summary(|hosts|, reporting, stale, |hosts| - reporting - stale, monitored, systemInfos, totalMethods, latest);
  }

  /** The positions of the hosts that qualify. */
  ghost function Positions(hosts: seq<HostFacts>, qualifies: HostFacts -> bool): set<nat> {
    set i: nat | i < |hosts| && qualifies(hosts[i])
  }

  ghost function HasStatus(now: Time, wanted: set<Status>): HostFacts -> bool {
    h => HostStatus(h, now) in wanted
  }

  predicate HasAgent(h: HostFacts) {
    h.hasAgent
  }

  predicate HasSystemInfo(h: HostFacts) {
    h.hasSystemInfo
  }

  /** Every management method, by the position of its host and its own. */
  ghost function MethodPositions(hosts: seq<HostFacts>): set<(nat, nat)> {
    set i: nat, k: nat | i < |hosts| && k < hosts[i].methodCount :: (i, k)
  }

  /** The cards agree with the rows: each host is counted once, under its row's
      status, and each host with an agent or system information, and each method of
      each host, once. */
  lemma {:induction false} SummaryAgreesWithRows(hosts: seq<HostFacts>, now: Time)
    ensures var s := Summarised(hosts, now);
            && s.totalHosts == |hosts| == s.reportingHosts + s.staleHosts + s.waitingHosts
            && s.reportingHosts == |Positions(hosts, HasStatus(now, {Reporting}))|
            && s.staleHosts == |Positions(hosts, HasStatus(now, {Stale}))|
            && s.waitingHosts == |Positions(hosts, HasStatus(now, {Waiting, NoAgent}))|
            && s.monitoredHosts == |Positions(hosts, HasAgent)|
            && s.systemInfoHosts == |Positions(hosts, HasSystemInfo)|
            && s.managementMethods == |MethodPositions(hosts)|
  {
    if hosts == [] {
      assert MethodPositions(hosts) == {};
    } else {
      SummaryAgreesWithRows(hosts[..|hosts| - 1], now);
      PositionsGrow(hosts, HasStatus(now, {Reporting}));
      PositionsGrow(hosts, HasStatus(now, {Stale}));
      PositionsGrow(hosts, HasStatus(now, {Waiting, NoAgent}));
      PositionsGrow(hosts, HasAgent);
      PositionsGrow(hosts, HasSystemInfo);
      MethodPositionsGrow(hosts);
    }
  }

  lemma PositionsGrow(hosts: seq<HostFacts>, qualifies: HostFacts -> bool)
    requires hosts != []
    ensures var n := |hosts| - 1;
            |Positions(hosts, qualifies)| == |Positions(hosts[..n], qualifies)| + if qualifies(hosts[n]) then 1 else 0
  {
    var n := |hosts| - 1;
    var before := Positions(hosts[..n], qualifies);
    if qualifies(hosts[n]) {
      assert Positions(hosts, qualifies) == before + {n};
    } else {
      assert Positions(hosts, qualifies) == before;
    }
  }

  lemma MethodPositionsGrow(hosts: seq<HostFacts>)
    requires hosts != []
    ensures var n := |hosts| - 1;
            |MethodPositions(hosts)| == |MethodPositions(hosts[..n])| + hosts[n].methodCount
  {
    var n := |hosts| - 1;
    var own := Column(n, hosts[n].methodCount);
    assert MethodPositions(hosts) == MethodPositions(hosts[..n]) + own;
    assert forall x :: x in own ==> x !in MethodPositions(hosts[..n]);
  }

  ghost function Column(i: nat, count: nat): (r: set<(nat, nat)>)
    ensures forall x :: x in r <==> x.0 == i && x.1 < count
    ensures |r| == count
  {
    if count == 0 then {} else Column(i, count - 1) + {(i, count - 1)}
  }

  /** The time on the card is the newest metric time of any host. */
  lemma {:induction false} LatestIsTheNewest(hosts: seq<HostFacts>, now: Time)
    ensures var latest := Summarised(hosts, now).latestMetricAt;
            && (latest.Some? ==> exists i :: 0 <= i < |hosts| && hosts[i].metricAt == latest)
            && forall i :: 0 <= i < |hosts| && hosts[i].metricAt.Some? ==>
                           latest.Some? && hosts[i].metricAt.value <= latest.value
  {
    if hosts != [] {
      var n := |hosts| - 1;
      LatestIsTheNewest(hosts[..n], now);
      var before, latest := Summarised(hosts[..n], now).latestMetricAt, Summarised(hosts, now).latestMetricAt;
      if latest == before && before.Some? {
        var i :| 0 <= i < n && hosts[..n][i].metricAt == before;
        assert hosts[i].metricAt == latest;
      }
      forall i | 0 <= i < |hosts| && hosts[i].metricAt.Some?
        ensures latest.Some? && hosts[i].metricAt.value <= latest.value
      {
        assert i < n ==> hosts[..n][i] == hosts[i];
      }
    }
  }
}
