/** What a live dashboard update asks for, how two updates merge, and which page
    fragments a websocket client is sent for one (internal/web/handlers/dashboard.go). */
module DashboardUpdates {
  import opened Identifiers

  /** The bit set `dashboardUpdateSections`. */
  type Sections = bv8

  const GENERATED_AT: Sections := 1
  const OVERVIEW: Sections := 2
  const HOSTS: Sections := 4
  const HOST_ROWS: Sections := 8
  const HOST_METRICS: Sections := 16
  const ALL: Sections := GENERATED_AT | OVERVIEW | HOSTS

  datatype Update = Update(sections: Sections, hostRowIDs: set<UUID>, hostMetricIDs: set<UUID>)

  /** `update.sections & mask != 0` */
  predicate Has(u: Update, mask: Sections) {
    u.sections & mask != 0
  }

  const EMPTY_UPDATE := Update(0, {}, {})

  const SECTIONS := [GENERATED_AT, OVERVIEW, HOSTS, HOST_ROWS, HOST_METRICS]

  /** Every section has a bit of its own. */
  lemma SectionsAreApart(i: nat, j: nat)
    requires i < 5 && j < 5
    ensures SECTIONS[i] & SECTIONS[j] == if i == j then SECTIONS[i] else 0
    ensures SECTIONS[i] != 0
  {
  }

  // ---------------------------------------------------------------- events

  /** The event types the dashboard subscribes to, and any other one. */
  datatype Event =
    | HostCreated(hostID: UUID)
    | HostDeleted(hostID: UUID)
    | HostUpdated(hostID: UUID)
    | MetricSnapshotCreated(hostID: UUID)
    | SystemInfoUpdated(hostID: UUID)
    | MonitoringAgentAssigned(hostID: UUID)
    | ManagementMethodCreated(hostID: UUID)
    | HostPingCompleted
    | HostsPingCompleted
    | HostMetricReceived(hostID: UUID)
    | AgentRegistered
    | AgentUpdated
    | AgentDeleted
    | AgentLastSeenUpdated
    | UnknownEvent

  function RowUpdate(sections: Sections, hostIDs: seq<UUID>): Update {
    var ids := Elements(hostIDs) - {NIL};
    if ids == {} then Update(sections | HOSTS, {}, {}) else Update(sections | HOST_ROWS, ids, {})
  }

  function MetricUpdate(sections: Sections, hostIDs: seq<UUID>): Update {
    var ids := Elements(hostIDs) - {NIL};
    if ids == {} then Update(sections | HOSTS, {}, {}) else Update(sections | HOST_METRICS, {}, ids)
  }

  function UpdateForEvent(e: Event): Update {
    match e
    case HostCreated(_) => Update(ALL, {}, {})
    case HostDeleted(_) => Update(ALL, {}, {})
    case HostUpdated(id) => RowUpdate(GENERATED_AT, [id])
    case MetricSnapshotCreated(id) => MetricUpdate(GENERATED_AT | OVERVIEW, [id])
    case SystemInfoUpdated(id) => RowUpdate(GENERATED_AT | OVERVIEW, [id])
    case MonitoringAgentAssigned(id) => RowUpdate(GENERATED_AT | OVERVIEW, [id])
    case ManagementMethodCreated(id) => RowUpdate(GENERATED_AT | OVERVIEW, [id])
    case HostPingCompleted => EMPTY_UPDATE
    case HostsPingCompleted => EMPTY_UPDATE
    case HostMetricReceived(_) => EMPTY_UPDATE
    case AgentRegistered => EMPTY_UPDATE
    case AgentUpdated => EMPTY_UPDATE
    case AgentDeleted => EMPTY_UPDATE
    case AgentLastSeenUpdated => EMPTY_UPDATE
    case UnknownEvent => Update(ALL, {}, {})
  }

  /** `dashboardHostRowUpdate`: the loop that collects the non-nil identifiers. */
  method DashboardHostRowUpdate(sections: Sections, hostIDs: seq<UUID>) returns (u: Update)
    ensures u == RowUpdate(sections, hostIDs)
  {
    var ids := CollectHostIDs(hostIDs);
    if |ids| == 0 {
      return Update(sections | HOSTS, {}, {});
    }
    u := Update(sections | HOST_ROWS, ids, {});
  }

  /** `dashboardHostMetricUpdate` */
  method DashboardHostMetricUpdate(sections: Sections, hostIDs: seq<UUID>) returns (u: Update)
    ensures u == MetricUpdate(sections, hostIDs)
  {
    var ids := CollectHostIDs(hostIDs);
    if |ids| == 0 {
      return Update(sections | HOSTS, {}, {});
    }
    u := Update(sections | HOST_METRICS, {}, ids);
  }

  method CollectHostIDs(hostIDs: seq<UUID>) returns (ids: set<UUID>)
    ensures ids == Elements(hostIDs) - {NIL}
  {
    ids := {};
    for i := 0 to |hostIDs|
      invariant ids == Elements(hostIDs[..i]) - {NIL}
    {
      assert hostIDs[..i + 1] == hostIDs[..i] + [hostIDs[i]];
      if hostIDs[i] == NIL {
        continue;
      }
      ids := ids + {hostIDs[i]};
    }
    assert hostIDs[..|hostIDs|] == hostIDs;
  }

  // ---------------------------------------------------------------- merging

  function Merge(left: Update, right: Update): Update {
    Update(left.sections | right.sections,
           left.hostRowIDs + right.hostRowIDs,
           left.hostMetricIDs + right.hostMetricIDs)
  }

  /** `mergeDashboardUpdates`: four loops that copy the identifier sets. */
  method MergeDashboardUpdates(left: Update, right: Update) returns (merged: Update)
    ensures merged == Merge(left, right)
  {
    var rows := CopyIDs({}, left.hostRowIDs);
    rows := CopyIDs(rows, right.hostRowIDs);
    var metrics := CopyIDs({}, left.hostMetricIDs);
    metrics := CopyIDs(metrics, right.hostMetricIDs);
    merged := Update(left.sections | right.sections, rows, metrics);
  }

  method CopyIDs(into: set<UUID>, from: set<UUID>) returns (r: set<UUID>)
    ensures r == into + from
  {
    r := into;
    var todo := from;
    while todo != {}
      invariant todo <= from
      invariant r == into + (from - todo)
      decreases todo
    {
      ghost var next := SomeOf(todo);
      var id :| id in todo;
      r := r + {id};
      todo := todo - {id};
    }
  }

  /** `big` already asks for everything `small` asks for. */
  predicate Absorbs(big: Update, small: Update) {
    Merge(big, small) == big
  }

  /** Component by component: every bit and every identifier is there already. */
  lemma AbsorbsMeans(big: Update, small: Update)
    ensures Absorbs(big, small) <==>
            && big.sections | small.sections == big.sections
            && small.hostRowIDs <= big.hostRowIDs && small.hostMetricIDs <= big.hostMetricIDs
  {
    if Absorbs(big, small) {
      assert big.hostRowIDs + small.hostRowIDs == big.hostRowIDs;
      assert big.hostMetricIDs + small.hostMetricIDs == big.hostMetricIDs;
    }
  }

  /** Merging is a join: the least update that absorbs both. */
  lemma MergeIsLeastUpperBound(a: Update, b: Update, c: Update)
    ensures Absorbs(Merge(a, b), a) && Absorbs(Merge(a, b), b)
    ensures Absorbs(c, a) && Absorbs(c, b) ==> Absorbs(c, Merge(a, b))
  {
    MergeAbsorbs(a, b);
    if Absorbs(c, a) && Absorbs(c, b) {
      AbsorbsMeans(c, a);
      AbsorbsMeans(c, b);
      OrAbsorbs(a.sections, b.sections, c.sections);
      AbsorbsMeans(c, Merge(a, b));
    }
  }

  lemma MergeAbsorbs(a: Update, b: Update)
    ensures Absorbs(Merge(a, b), a) && Absorbs(Merge(a, b), b)
  {
    OrAbsorbs(a.sections, b.sections, 0);
    AbsorbsMeans(Merge(a, b), a);
    AbsorbsMeans(Merge(a, b), b);
  }

  lemma MergeIsCommutativeAndAssociative(a: Update, b: Update, c: Update)
    ensures Merge(a, b) == Merge(b, a)
    ensures Merge(Merge(a, b), c) == Merge(a, Merge(b, c))
  {
    OrCommutes(a.sections, b.sections, c.sections);
    assert (a.hostRowIDs + b.hostRowIDs) + c.hostRowIDs == a.hostRowIDs + (b.hostRowIDs + c.hostRowIDs);
    assert (a.hostMetricIDs + b.hostMetricIDs) + c.hostMetricIDs == a.hostMetricIDs + (b.hostMetricIDs + c.hostMetricIDs);
  }

  /** Absorbing is a partial order with the empty update at the bottom. */
  lemma AbsorbsIsAPartialOrder(a: Update, b: Update, c: Update)
    ensures Absorbs(a, a) && Absorbs(a, EMPTY_UPDATE)
    ensures Absorbs(a, b) && Absorbs(b, c) ==> Absorbs(a, c)
    ensures Absorbs(a, b) && Absorbs(b, a) ==> a == b
  {
    AbsorbsMeans(a, a);
    AbsorbsMeans(a, EMPTY_UPDATE);
    AbsorbsMeans(a, b);
    AbsorbsMeans(b, c);
    AbsorbsMeans(a, c);
    AbsorbsMeans(b, a);
    OrOrders(a.sections, b.sections, c.sections);
  }

  lemma OrAbsorbs(a: Sections, b: Sections, c: Sections)
    ensures (a | b) | a == a | b && (a | b) | b == a | b
    ensures c | a == c && c | b == c ==> c | (a | b) == c
  {
  }

  lemma OrOrders(a: Sections, b: Sections, c: Sections)
    ensures a | a == a && a | 0 == a
    ensures a | b == a && b | c == b ==> a | c == a
    ensures a | b == a && b | a == b ==> a == b
  {
  }

  lemma OrCommutes(a: Sections, b: Sections, c: Sections)
    ensures a | b == b | a && (a | b) | c == a | (b | c)
  {
  }

  // ---------------------------------------------------------------- signalling

  /** Capacity of a client's update channel. */
  const QUEUE_CAPACITY := 8

  /** `signalClient` run without interruption: a full queue gives up its oldest
      item, which is merged into the new one and queued again at the back. */
  function Signal<T>(queue: seq<T>, item: T, merge: (T, T) -> T): (r: seq<T>)
    requires |queue| <= QUEUE_CAPACITY
    ensures |r| <= QUEUE_CAPACITY
  {
    if |queue| < QUEUE_CAPACITY then queue + [item] else queue[1..] + [merge(queue[0], item)]
  }

  // ---------------------------------------------------------------- rendering

  /** A piece of HTML that `renderLiveUpdate` writes into the payload. */
  datatype Fragment =
    | GeneratedAtFragment
    | OverviewFragment
    | HostsFragment
    | RowFragment(id: UUID)
    | MetricsFragment(id: UUID)
    | FullDashboardFragment

  /** A part of the page that a fragment can refresh. A row's metric cells are a
      region of their own inside the row. */
  datatype Region =
    | GeneratedAtRegion
    | OverviewRegion
    | ListRegion
    | RowRegion(id: UUID)
    | MetricsRegion(id: UUID)

  function PageRegions(rows: set<UUID>): set<Region> {
    {GeneratedAtRegion, OverviewRegion} + ListRegions(rows)
  }

  function ListRegions(rows: set<UUID>): set<Region> {
    {ListRegion} + (set id | id in rows :: RowRegion(id)) + (set id | id in rows :: MetricsRegion(id))
  }

  /** What a fragment refreshes on a page whose data holds the hosts `rows`:
      the full list covers every row, and a row covers its metrics. */
  function Covers(f: Fragment, rows: set<UUID>): set<Region> {
    match f
    case GeneratedAtFragment => {GeneratedAtRegion}
    case OverviewFragment => {OverviewRegion}
    case HostsFragment => ListRegions(rows)
    case RowFragment(id) => {RowRegion(id), MetricsRegion(id)}
    case MetricsFragment(id) => {MetricsRegion(id)}
    case FullDashboardFragment => PageRegions(rows)
  }

  /** The rows sent on their own. */
  function RenderedRows(u: Update, rows: set<UUID>): set<UUID> {
    if Has(u, HOST_ROWS) then u.hostRowIDs * rows else {}
  }

  /** The hosts whose metric cells are sent on their own. */
  function RenderedMetrics(u: Update, rows: set<UUID>): set<UUID> {
    if Has(u, HOST_METRICS) then u.hostMetricIDs * rows - RenderedRows(u, rows) else {}
  }

  function HeadFragments(u: Update): set<Fragment> {
    (if Has(u, GENERATED_AT) then {GeneratedAtFragment} else {}) +
    (if Has(u, OVERVIEW) then {OverviewFragment} else {})
  }

  function BodyFragments(u: Update, rows: set<UUID>): set<Fragment> {
    if Has(u, HOSTS) then {HostsFragment}
    else (set id | id in RenderedRows(u, rows) :: RowFragment(id)) +
         (set id | id in RenderedMetrics(u, rows) :: MetricsFragment(id))
  }

  /** The fragments sent for `u` when the dashboard data holds the hosts `rows`. */
  function FragmentSet(u: Update, rows: set<UUID>): set<Fragment> {
    var fragments := HeadFragments(u) + BodyFragments(u, rows);
    if fragments == {} then {FullDashboardFragment} else fragments
  }

  function Rank(f: Fragment): nat {
    match f
    case GeneratedAtFragment => 0
    case OverviewFragment => 1
    case HostsFragment => 2
    case RowFragment(_) => 3
    case MetricsFragment(_) => 4
    case FullDashboardFragment => 5
  }

  /** Payload order: by kind, rows and metric cells by identifier. */
  predicate Before(f: Fragment, g: Fragment) {
    Rank(f) < Rank(g) ||
    (f.RowFragment? && g.RowFragment? && f.id < g.id) ||
    (f.MetricsFragment? && g.MetricsFragment? && f.id < g.id)
  }

  ghost predicate InPayloadOrder(body: seq<Fragment>) {
    forall i, j :: 0 <= i < j < |body| ==> Before(body[i], body[j])
  }

  /** `sortedDashboardHostIDs`: collect the identifiers, then sort them. */
  method SortedDashboardHostIDs(ids: set<UUID>) returns (r: seq<UUID>)
    ensures Elements(r) == ids
    ensures forall i, j :: 0 <= i < j < |r| ==> r[i] < r[j]
  {
    r := [];
    var todo := ids;
    while todo != {}
      invariant todo <= ids
      invariant Elements(r) == ids - todo
      invariant forall i, j :: 0 <= i < j < |r| ==> r[i] < r[j]
      decreases todo
    {
      ghost var next := SomeOf(todo);
      var id :| id in todo;
      assert id !in Elements(r);
      r := InsertID(r, id);
      todo := todo - {id};
    }
  }

  method InsertID(s: seq<UUID>, id: UUID) returns (r: seq<UUID>)
    requires id !in s
    requires forall i, j :: 0 <= i < j < |s| ==> s[i] < s[j]
    ensures Elements(r) == Elements(s) + {id}
    ensures forall i, j :: 0 <= i < j < |r| ==> r[i] < r[j]
  {
    var k := |s|;
    while k > 0 && s[k - 1] > id
      invariant 0 <= k <= |s|
      invariant k < |s| ==> id < s[k]
    {
      k := k - 1;
    }
    r := s[..k] + [id] + s[k..];
  }

  /** The fragment selection of `renderLiveUpdate`. The payload holds exactly the
      fragments of `FragmentSet`, each once, in payload order. */
  method RenderLiveUpdate(u: Update, rows: set<UUID>) returns (body: seq<Fragment>)
    ensures Elements(body) == FragmentSet(u, rows)
    ensures InPayloadOrder(body)
  {
    body := RenderHead(u);
    if u.sections & HOSTS != 0 {
      body := body + [HostsFragment];
    } else {
      body := RenderHosts(u, rows, body);
    }
    assert Elements(body) == HeadFragments(u) + BodyFragments(u, rows);
    if |body| == 0 {
      body := [FullDashboardFragment];
    } else {
      assert body[0] in Elements(body);
    }
  }

  method RenderHead(u: Update) returns (body: seq<Fragment>)
    ensures Elements(body) == HeadFragments(u)
    ensures InPayloadOrder(body) && forall i :: 0 <= i < |body| ==> Rank(body[i]) < 2
  {
    body := [];
    if u.sections & GENERATED_AT != 0 {
      body := body + [GeneratedAtFragment];
    }
    if u.sections & OVERVIEW != 0 {
      body := body + [OverviewFragment];
    }
  }

  method RenderHosts(u: Update, rows: set<UUID>, head: seq<Fragment>) returns (body: seq<Fragment>)
    requires !Has(u, HOSTS)
    requires InPayloadOrder(head) && forall i :: 0 <= i < |head| ==> Rank(head[i]) < 2
    ensures Elements(body) == Elements(head) + BodyFragments(u, rows)
    ensures InPayloadOrder(body)
  {
    body := head;
    var renderedRowIDs: set<UUID> := {};
    if u.sections & HOST_ROWS != 0 {
      body, renderedRowIDs := RenderRows(body, u.hostRowIDs, rows);
    }
    assert renderedRowIDs == RenderedRows(u, rows);
    if u.sections & HOST_METRICS != 0 {
      body := RenderMetrics(body, u.hostMetricIDs, rows, renderedRowIDs);
    }
  }

  method RenderRows(body: seq<Fragment>, ids: set<UUID>, rows: set<UUID>)
    returns (r: seq<Fragment>, renderedRowIDs: set<UUID>)
    requires InPayloadOrder(body) && forall i :: 0 <= i < |body| ==> Rank(body[i]) < 3
    ensures renderedRowIDs == ids * rows
    ensures Elements(r) == Elements(body) + (set id | id in renderedRowIDs :: RowFragment(id))
    ensures InPayloadOrder(r) && forall i :: 0 <= i < |r| ==> Rank(r[i]) < 4
  {
    var sorted := SortedDashboardHostIDs(ids);
    r, renderedRowIDs := body, {};
    for i := 0 to |sorted|
      invariant renderedRowIDs == Elements(sorted[..i]) * rows
      invariant Elements(r) == Elements(body) + (set id | id in renderedRowIDs :: RowFragment(id))
      invariant InPayloadOrder(r)
      invariant forall k :: 0 <= k < |r| ==> Rank(r[k]) < 3 || (r[k].RowFragment? && r[k].id in sorted[..i])
    {
      assert sorted[..i + 1] == sorted[..i] + [sorted[i]];
      if sorted[i] !in rows {
        continue;
      }
      renderedRowIDs := renderedRowIDs + {sorted[i]};
      assert forall id :: id in sorted[..i] ==> id < sorted[i];
      r := r + [RowFragment(sorted[i])];
    }
    assert sorted[..|sorted|] == sorted;
  }

  method RenderMetrics(body: seq<Fragment>, ids: set<UUID>, rows: set<UUID>, renderedRowIDs: set<UUID>)
    returns (r: seq<Fragment>)
    requires InPayloadOrder(body) && forall i :: 0 <= i < |body| ==> Rank(body[i]) < 4
    ensures Elements(r) == Elements(body) + (set id | id in ids * rows - renderedRowIDs :: MetricsFragment(id))
    ensures InPayloadOrder(r)
  {
    var sorted := SortedDashboardHostIDs(ids);
    r := body;
    ghost var done: set<UUID> := {};
    for i := 0 to |sorted|
      invariant done == Elements(sorted[..i]) * rows - renderedRowIDs
      invariant Elements(r) == Elements(body) + (set id | id in done :: MetricsFragment(id))
      invariant InPayloadOrder(r)
      invariant forall k :: 0 <= k < |r| ==> Rank(r[k]) < 4 || (r[k].MetricsFragment? && r[k].id in sorted[..i])
    {
      assert sorted[..i + 1] == sorted[..i] + [sorted[i]];
      if sorted[i] in renderedRowIDs {
        continue;
      }
      if sorted[i] !in rows {
        continue;
      }
      done := done + {sorted[i]};
      assert forall id :: id in sorted[..i] ==> id < sorted[i];
      r := r + [MetricsFragment(sorted[i])];
    }
    assert sorted[..|sorted|] == sorted;
  }

  // ---------------------------------------------------------------- rendering against merging

  /** The regions an update asks for, independently of how they are sent. */
  predicate Demands(u: Update, rows: set<UUID>, region: Region) {
    match region
    case GeneratedAtRegion => Has(u, GENERATED_AT)
    case OverviewRegion => Has(u, OVERVIEW)
    case ListRegion => Has(u, HOSTS)
    case RowRegion(id) => id in rows && (Has(u, HOSTS) || (Has(u, HOST_ROWS) && id in u.hostRowIDs))
    case MetricsRegion(id) =>
      id in rows && (Has(u, HOSTS) || (Has(u, HOST_ROWS) && id in u.hostRowIDs)
                                   || (Has(u, HOST_METRICS) && id in u.hostMetricIDs))
  }

  /** The regions refreshed by sending `FragmentSet(u, rows)`. */
  ghost predicate Refreshes(u: Update, rows: set<UUID>, region: Region) {
    exists f :: f in FragmentSet(u, rows) && region in Covers(f, rows)
  }

  /** Identifier sets are used only under their section bit, and every update
      shows when it was generated. */
  predicate WellFormed(u: Update) {
    && Has(u, GENERATED_AT)
    && (u.hostRowIDs != {} ==> Has(u, HOST_ROWS))
    && (u.hostMetricIDs != {} ==> Has(u, HOST_METRICS))
  }

  lemma HasMerge(a: Update, b: Update, mask: Sections)
    ensures Has(Merge(a, b), mask) <==> Has(a, mask) || Has(b, mask)
  {
    OrMask(a.sections, b.sections, mask);
  }

  lemma OrMask(a: Sections, b: Sections, mask: Sections)
    ensures (a | b) & mask != 0 <==> a & mask != 0 || b & mask != 0
  {
  }

  /** Sending the fragments refreshes exactly what the update asks for. */
  lemma RenderingMeetsDemand(u: Update, rows: set<UUID>, region: Region)
    requires Has(u, GENERATED_AT)
    ensures Refreshes(u, rows, region) <==> Demands(u, rows, region)
    ensures FullDashboardFragment !in FragmentSet(u, rows)
  {
    var fs := FragmentSet(u, rows);
    assert GeneratedAtFragment in fs;
    if Demands(u, rows, region) {
      var f := match region
        case GeneratedAtRegion => GeneratedAtFragment
        case OverviewRegion => OverviewFragment
        case ListRegion => HostsFragment
        case RowRegion(id) => if Has(u, HOSTS) then HostsFragment else RowFragment(id)
        case MetricsRegion(id) =>
          if Has(u, HOSTS) then HostsFragment
          else if id in RenderedRows(u, rows) then RowFragment(id) else MetricsFragment(id);
      assert f in fs && region in Covers(f, rows);
    }
  }

  /** Rendering is a homomorphism: one merged update refreshes exactly what the
      two updates would have refreshed one after the other. */
  lemma RenderingIsAHomomorphism(a: Update, b: Update, rows: set<UUID>, region: Region)
    requires WellFormed(a) && WellFormed(b)
    ensures WellFormed(Merge(a, b))
    ensures Refreshes(Merge(a, b), rows, region) <==> Refreshes(a, rows, region) || Refreshes(b, rows, region)
  {
    HasMerge(a, b, GENERATED_AT);
    HasMerge(a, b, OVERVIEW);
    HasMerge(a, b, HOSTS);
    HasMerge(a, b, HOST_ROWS);
    HasMerge(a, b, HOST_METRICS);
    RenderingMeetsDemand(a, rows, region);
    RenderingMeetsDemand(b, rows, region);
    RenderingMeetsDemand(Merge(a, b), rows, region);
  }

  /** No region is sent twice, hence the payload is minimal. */
  lemma FragmentsAreDisjoint(u: Update, rows: set<UUID>, f: Fragment, g: Fragment)
    requires f in FragmentSet(u, rows) && g in FragmentSet(u, rows) && f != g
    ensures Covers(f, rows) !! Covers(g, rows)
  {
  }

  /** The empty-body fallback of `renderLiveUpdate`, exactly. */
  lemma FallbackExactly(u: Update, rows: set<UUID>)
    ensures FullDashboardFragment in FragmentSet(u, rows) <==>
            !Has(u, GENERATED_AT) && !Has(u, OVERVIEW) && !Has(u, HOSTS)
            && (Has(u, HOST_ROWS) ==> u.hostRowIDs * rows == {})
            && (Has(u, HOST_METRICS) ==> u.hostMetricIDs * rows == {})
  {
    if Has(u, HOST_ROWS) && u.hostRowIDs * rows != {} {
      var id := SomeOf(u.hostRowIDs * rows);
      assert Has(u, HOSTS) || RowFragment(id) in BodyFragments(u, rows);
    }
    if Has(u, HOST_METRICS) && u.hostMetricIDs * rows != {} {
      var id := SomeOf(u.hostMetricIDs * rows);
      if id in RenderedRows(u, rows) {
        assert Has(u, HOSTS) || RowFragment(id) in BodyFragments(u, rows);
      } else {
        assert Has(u, HOSTS) || MetricsFragment(id) in BodyFragments(u, rows);
      }
    }
    if Has(u, HOSTS) {
      assert HostsFragment in BodyFragments(u, rows);
    }
  }

  /** An event either asks for nothing (and the handler skips it) or for a
      well-formed update, so the fallback is never sent for an event. */
  lemma EventUpdatesAreWellFormed(e: Event)
    ensures UpdateForEvent(e).sections == 0 ==> UpdateForEvent(e) == EMPTY_UPDATE
    ensures UpdateForEvent(e).sections != 0 ==> WellFormed(UpdateForEvent(e))
  {
  }

  /** Events that change nothing on the page. */
  predicate ChangesNothing(e: Event) {
    || e.HostPingCompleted? || e.HostsPingCompleted? || e.HostMetricReceived?
    || e.AgentRegistered? || e.AgentUpdated? || e.AgentDeleted? || e.AgentLastSeenUpdated?
  }

  /** Events after which the whole page may look different. */
  predicate ChangesEverything(e: Event) {
    e.HostCreated? || e.HostDeleted? || e.UnknownEvent?
  }

  /** What an event changes on a page with the hosts `rows`: of the head, the time and,
      unless only the host's own texts changed, the overview; of the list, the host's
      row with its metrics, or only these after a snapshot. A nil identifier stands
      for any host. */
  function EventRegions(e: Event, rows: set<UUID>): set<Region> {
    if ChangesNothing(e) then {}
    else if ChangesEverything(e) then PageRegions(rows)
    else
      {GeneratedAtRegion} + (if e.HostUpdated? then {} else {OverviewRegion}) +
      (if e.hostID == NIL then ListRegions(rows)
       else if e.hostID !in rows then {}
       else if e.MetricSnapshotCreated? then {MetricsRegion(e.hostID)}
       else {RowRegion(e.hostID), MetricsRegion(e.hostID)})
  }

  /** An event asks for exactly what it changes. */
  lemma EventAsksExactly(e: Event, rows: set<UUID>, region: Region)
    ensures Demands(UpdateForEvent(e), rows, region) <==> region in EventRegions(e, rows)
    ensures UpdateForEvent(e).sections == 0 <==> ChangesNothing(e)
  {
    if !ChangesNothing(e) && !ChangesEverything(e) {
      assert Elements([e.hostID]) - {NIL} == if e.hostID == NIL then {} else {e.hostID};
    }
  }

  lemma FullUpdateAsksForThePage(rows: set<UUID>, region: Region)
    ensures Demands(Update(ALL, {}, {}), rows, region) <==> region in PageRegions(rows)
  {
  }

  /** What an absorbed update asks for, the absorbing one asks for too. */
  lemma AbsorbedDemand(big: Update, small: Update, rows: set<UUID>, region: Region)
    requires Absorbs(big, small) && Demands(small, rows, region)
    ensures Demands(big, rows, region)
  {
    HasMerge(big, small, GENERATED_AT);
    HasMerge(big, small, OVERVIEW);
    HasMerge(big, small, HOSTS);
    HasMerge(big, small, HOST_ROWS);
    HasMerge(big, small, HOST_METRICS);
    assert big.hostRowIDs >= small.hostRowIDs && big.hostMetricIDs >= small.hostMetricIDs;
  }
}
