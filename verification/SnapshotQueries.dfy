/** Listing metric snapshots: the batch loaders, which scatter many snapshots' rows
    (internal/host/sqlite/host_metric_snapshot.go:20-81, 152-190 and internal/host/postgres). */
module SnapshotQueries {
  import opened Identifiers
  import opened Ordering
  import opened SnapshotStore

  /** A row of `host_metric_snapshot` as scanned. */
  datatype Record = Record(id: nat, hostID: UUID, timestamp: Timestamp)

  /** A row of `host_metric` as scanned, with its position. */
  datatype MetricRecord = MetricRecord(id: nat, position: nat, row: MetricRow)

  // ---------------------------------------------------------------- query results

  predicate ByPosition(a: MetricRecord, b: MetricRecord) {
    a.id < b.id || (a.id == b.id && a.position < b.position)
  }

  predicate ByTimeDesc(a: Record, b: Record) {
    a.timestamp > b.timestamp
  }

  predicate ByHostThenTimeDesc(a: Record, b: Record) {
    a.hostID < b.hostID || (a.hostID == b.hostID && a.timestamp > b.timestamp)
  }

  predicate MetricIsStored(db: Tables, r: MetricRecord) {
    (r.id, r.position) in db.metrics && db.metrics[(r.id, r.position)] == r.row
  }

  predicate RecordIsStored(db: Tables, r: Record) {
    r.id in db.snapshots && db.snapshots[r.id] == SnapshotRow(r.hostID, r.timestamp)
  }

  /** `rows` answers: select ... from host_metric where snapshot_id in (ids)
      order by snapshot_id asc, position asc. */
  ghost predicate SelectsMetrics(db: Tables, ids: set<nat>, rows: seq<MetricRecord>) {
    && Sorted(rows, ByPosition)
    && forall r :: r in rows <==> MetricIsStored(db, r) && r.id in ids
  }

  /** row_number() over (partition by host_id order by timestamp desc), from 0. */
  ghost function Rank(db: Tables, r: Record): nat {
    |Above(Timestamps(db, r.hostID), r.timestamp)|
  }

  /** `rows` answers: select ... where host_id = ? order by timestamp desc. */
  ghost predicate SelectsHost(db: Tables, hostID: UUID, rows: seq<Record>) {
    && Sorted(rows, ByTimeDesc)
    && forall r :: r in rows <==> RecordIsStored(db, r) && r.hostID == hostID
  }

  /** `rows` answers: select ... where host_id in (hostIDs) and snapshot_rank <= limit
      order by host_id asc, timestamp desc. */
  ghost predicate SelectsRecent(db: Tables, hostIDs: set<UUID>, limit: nat, rows: seq<Record>) {
    && Sorted(rows, ByHostThenTimeDesc)
    && forall r :: r in rows <==> RecordIsStored(db, r) && r.hostID in hostIDs && Rank(db, r) < limit
  }

  // ---------------------------------------------------------------- picking by key

  function SnapshotOf(r: MetricRecord): int {
    r.id
  }

  function HostOf(r: Record): UUID {
    r.hostID
  }

  /** The elements with key `k`, in order. */
  function Pick<T>(s: seq<T>, key: T -> int, k: int): seq<T> {
    if s == [] then []
    else
      var n := |s| - 1;
      Pick(s[..n], key, k) + if key(s[n]) == k then [s[n]] else []
  }

  lemma {:induction false} PickMembers<T>(s: seq<T>, key: T -> int, k: int, x: T)
    ensures x in Pick(s, key, k) <==> x in s && key(x) == k
  {
    if s != [] {
      var n := |s| - 1;
      PickMembers(s[..n], key, k, x);
      assert s == s[..n] + [s[n]];
    }
  }

  lemma {:induction false} PickIsSorted<T(!new)>(s: seq<T>, key: T -> int, k: int, before: (T, T) -> bool)
    requires Sorted(s, before)
    ensures Sorted(Pick(s, key, k), before)
  {
    if s != [] {
      var n := |s| - 1;
      PickIsSorted(s[..n], key, k, before);
      forall i | 0 <= i < |Pick(s[..n], key, k)|
        ensures before(Pick(s[..n], key, k)[i], s[n])
      {
        var x := Pick(s[..n], key, k)[i];
        PickMembers(s[..n], key, k, x);
        var j :| 0 <= j < n && s[..n][j] == x;
        assert before(s[j], s[n]);
      }
    }
  }

  lemma PickStep<T>(s: seq<T>, key: T -> int, k: int, i: nat)
    requires i < |s|
    ensures Pick(s[..i + 1], key, k) == Pick(s[..i], key, k) + if key(s[i]) == k then [s[i]] else []
  {
    assert s[..i + 1][..i] == s[..i];
  }

  // ---------------------------------------------------------------- the specification

  /** No row holds a negative counter. */
  predicate AllReadable(rows: seq<MetricRecord>) {
    forall i :: 0 <= i < |rows| ==> NonNegative(rows[i].row)
  }

  /** The metrics in a list of rows, in order. */
  function Decode(rows: seq<MetricRecord>): seq<HostMetric> {
    seq(|rows|, i requires 0 <= i < |rows| => Decoded(rows[i].row))
  }

  /** The metrics that belong to snapshot `id` in a batch of rows. */
  function OwnMetrics(rows: seq<MetricRecord>, id: nat): seq<HostMetric> {
    Decode(Pick(rows, SnapshotOf, id))
  }

  /** A record as a snapshot, with its own metrics. */
  function Load(record: Record, rows: seq<MetricRecord>): Snapshot {
    Snapshot(record.hostID, record.timestamp, OwnMetrics(rows, record.id))
  }

  function Loaded(records: seq<Record>, rows: seq<MetricRecord>): seq<Snapshot> {
    seq(|records|, i requires 0 <= i < |records| => Load(records[i], rows))
  }

  lemma OwnMetricsStep(rows: seq<MetricRecord>, id: nat, n: nat)
    requires n < |rows|
    ensures OwnMetrics(rows[..n + 1], id)
         == OwnMetrics(rows[..n], id) + if rows[n].id == id then [Decoded(rows[n].row)] else []
  {
    PickStep(rows, SnapshotOf, id, n);
  }

  // ---------------------------------------------------------------- loadMetrics

  datatype SnapshotRecord = SnapshotRecord(record: Record, metrics: seq<HostMetric>)

  ghost predicate DistinctIDs(records: seq<SnapshotRecord>) {
    forall i, j :: 0 <= i < j < |records| ==> records[i].record.id != records[j].record.id
  }

  /** Every record's metrics have grown by its own rows. */
  ghost predicate Grown(was: seq<SnapshotRecord>, now: seq<SnapshotRecord>, rows: seq<MetricRecord>) {
    && |now| == |was|
    && forall i :: 0 <= i < |was| ==>
         now[i] == SnapshotRecord(was[i].record, was[i].metrics + OwnMetrics(rows, was[i].record.id))
  }

  ghost predicate IsPositionMap(records: seq<SnapshotRecord>, positions: map<nat, nat>) {
    && (forall i: nat :: i < |records| ==> records[i].record.id in positions && positions[records[i].record.id] == i)
    && (forall id :: id in positions ==> positions[id] < |records| && records[positions[id]].record.id == id)
  }

  /** `loadMetrics`, in place: every record's metrics grow by its own rows, in
      position order, unless some row holds a negative counter. */
  method LoadMetrics(records: array<SnapshotRecord>, rows: seq<MetricRecord>) returns (ok: bool)
    requires DistinctIDs(records[..])
    modifies records
    ensures ok <==> AllReadable(rows) || records.Length == 0
    ensures ok && records.Length > 0 ==> Grown(old(records[..]), records[..], rows)
  {
    if records.Length == 0 {
      return true;
    }
    var positions := Positions(records);
    ghost var was := records[..];
    var n := 0;
    while n < |rows|
      invariant 0 <= n <= |rows| && forall i :: 0 <= i < n ==> NonNegative(rows[i].row)
      invariant records[..] == AfterRows(was, positions, rows[..n])
    {
      var metric := FromRow(rows[n].row);
      if metric.None? {
        return false;
      }
      assert rows[..n + 1][..n] == rows[..n];
      if rows[n].id in positions {
        var position := positions[rows[n].id];
        records[position] := records[position].(metrics := records[position].metrics + [metric.value]);
      }
      n := n + 1;
    }
    assert rows[..|rows|] == rows;
    AfterRowsIsGrown(was, positions, rows);
    ok := true;
  }

  /** The records after the appends for some rows, one by one. */
  ghost function AfterRows(records: seq<SnapshotRecord>, positions: map<nat, nat>, rows: seq<MetricRecord>): (r: seq<SnapshotRecord>)
    requires forall id :: id in positions ==> positions[id] < |records|
    ensures |r| == |records|
  {
    if rows == [] then records
    else
      var n := |rows| - 1;
      var before := AfterRows(records, positions, rows[..n]);
      if rows[n].id !in positions then before
      else
        var p := positions[rows[n].id];
        before[p := before[p].(metrics := before[p].metrics + [Decoded(rows[n].row)])]
  }

  lemma {:induction false} AfterRowsIsGrown(records: seq<SnapshotRecord>, positions: map<nat, nat>, rows: seq<MetricRecord>)
    requires IsPositionMap(records, positions)
    ensures Grown(records, AfterRows(records, positions, rows), rows)
  {
    if rows != [] {
      var n := |rows| - 1;
      AfterRowsIsGrown(records, positions, rows[..n]);
      assert rows[..n + 1] == rows;
      GrowStep(records, AfterRows(records, positions, rows[..n]), rows, n, positions);
    } else {
      forall i | 0 <= i < |records|
        ensures records[i].metrics + OwnMetrics([], records[i].record.id) == records[i].metrics
      {
      }
    }
  }

  /** One more row: it extends the metrics of its own snapshot only. */
  lemma GrowStep(was: seq<SnapshotRecord>, now: seq<SnapshotRecord>, rows: seq<MetricRecord>, n: nat, positions: map<nat, nat>)
    requires n < |rows|
    requires Grown(was, now, rows[..n]) && IsPositionMap(was, positions)
    ensures rows[n].id !in positions ==> Grown(was, now, rows[..n + 1])
    ensures rows[n].id in positions ==>
              var p := positions[rows[n].id];
              && p < |now|
              && Grown(was, now[p := now[p].(metrics := now[p].metrics + [Decoded(rows[n].row)])], rows[..n + 1])
  {
    forall i | 0 <= i < |was|
      ensures OwnMetrics(rows[..n + 1], was[i].record.id)
           == OwnMetrics(rows[..n], was[i].record.id) + if rows[n].id == was[i].record.id then [Decoded(rows[n].row)] else []
    {
      OwnMetricsStep(rows, was[i].record.id, n);
    }
  }

  method Positions(records: array<SnapshotRecord>) returns (positions: map<nat, nat>)
    requires DistinctIDs(records[..])
    ensures IsPositionMap(records[..], positions)
  {
    positions := map[];
    for i := 0 to records.Length
      invariant IsPositionMap(records[..i], positions)
    {
      assert forall j: nat :: j < i ==> records[..][j].record.id != records[..][i].record.id;
      positions := positions[records[i].record.id := i];
    }
    assert records[..records.Length] == records[..];
  }

  // ---------------------------------------------------------------- grouping by host

  ghost predicate DistinctRecords(records: seq<Record>) {
    forall i, j :: 0 <= i < j < |records| ==> records[i].id != records[j].id
  }

  function Hosts(records: seq<Record>): set<UUID> {
    set i | 0 <= i < |records| :: records[i].hostID
  }

  function Lookup(result: map<UUID, seq<Snapshot>>, h: UUID): seq<Snapshot> {
    if h in result then result[h] else []
  }

  /** What a listing by host must return. */
  ghost predicate GroupedByHost(records: seq<Record>, rows: seq<MetricRecord>, result: map<UUID, seq<Snapshot>>) {
    && result.Keys == Hosts(records)
    && forall h :: Lookup(result, h) == Loaded(Pick(records, HostOf, h), rows)
  }

  /** `ListRecentHostMetricSnapshotsByHostIDs` of the sqlite repository: load every
      record's metrics in place, then append the records to their hosts' lists. */
  method ListRecentSQLite(records: seq<Record>, rows: seq<MetricRecord>) returns (r: Option<map<UUID, seq<Snapshot>>>)
    requires DistinctRecords(records)
    requires records == [] ==> rows == []
    ensures r.Some? <==> AllReadable(rows)
    ensures r.Some? ==> GroupedByHost(records, rows, r.value)
  {
    var loaded := new SnapshotRecord[|records|](i requires 0 <= i < |records| => SnapshotRecord(records[i], []));
    var ok := LoadMetrics(loaded, rows);
    if !ok {
      return None;
    }
    assert forall i :: 0 <= i < |records| ==> [] + OwnMetrics(rows, records[i].id) == OwnMetrics(rows, records[i].id);
    var result := GroupRecords(loaded[..], records, rows);
    r := Some(result);
  }

  method GroupRecords(loaded: seq<SnapshotRecord>, ghost records: seq<Record>, ghost rows: seq<MetricRecord>)
    returns (result: map<UUID, seq<Snapshot>>)
    requires |loaded| == |records|
    requires forall i :: 0 <= i < |records| ==> loaded[i] == SnapshotRecord(records[i], OwnMetrics(rows, records[i].id))
    ensures GroupedByHost(records, rows, result)
  {
    result := map[];
    for i := 0 to |loaded|
      invariant GroupedByHost(records[..i], rows, result)
    {
      GroupStep(records, rows, i, result);
      var value := Snapshot(loaded[i].record.hostID, loaded[i].record.timestamp, loaded[i].metrics);
      assert value == Load(records[i], rows);
      result := AppendSnapshot(result, value);
    }
    assert records[..|records|] == records;
  }

  lemma GroupStep(records: seq<Record>, rows: seq<MetricRecord>, i: nat, result: map<UUID, seq<Snapshot>>)
    requires i < |records| && GroupedByHost(records[..i], rows, result)
    ensures GroupedByHost(records[..i + 1], rows, Appended(result, Load(records[i], rows)))
  {
    var host := records[i].hostID;
    var after := Appended(result, Load(records[i], rows));
    HostsGrow(records, i);
    assert after.Keys == result.Keys + {host};
    forall h
      ensures Lookup(after, h) == Loaded(Pick(records[..i + 1], HostOf, h), rows)
    {
      PickStep(records, HostOf, h, i);
      LoadedAppend(Pick(records[..i], HostOf, h), records[i], rows);
      assert Lookup(result, h) == Loaded(Pick(records[..i], HostOf, h), rows);
    }
  }

  lemma LoadedAppend(records: seq<Record>, r: Record, rows: seq<MetricRecord>)
    ensures Loaded(records + [r], rows) == Loaded(records, rows) + [Load(r, rows)]
    ensures records + [] == records
  {
  }

  lemma HostsGrow(records: seq<Record>, i: nat)
    requires i < |records|
    ensures Hosts(records[..i + 1]) == Hosts(records[..i]) + {records[i].hostID}
  {
    assert records[..i + 1] == records[..i] + [records[i]];
    assert records[..i + 1][i] == records[i];
    forall x | x in Hosts(records[..i])
      ensures x in Hosts(records[..i + 1])
    {
      var j :| 0 <= j < i && records[..i][j].hostID == x;
      assert records[..i + 1][j].hostID == x;
    }
  }

  // ---------------------------------------------------------------- the position map of the postgres repository

  datatype SnapshotPosition = SnapshotPosition(hostID: UUID, index: nat)

  predicate LeadsTo(records: seq<Record>, p: SnapshotPosition, id: nat) {
    p.index < |Pick(records, HostOf, p.hostID)| && Pick(records, HostOf, p.hostID)[p.index].id == id
  }

  /** Each snapshot's position leads to it in its host's list. */
  ghost predicate LeadsToRecords(records: seq<Record>, positions: map<nat, SnapshotPosition>) {
    && positions.Keys == IDs(records)
    && (forall id :: id in positions ==> LeadsTo(records, positions[id], id))
  }

  lemma LeadsToOneMore(records: seq<Record>, i: nat, positions: map<nat, SnapshotPosition>)
    requires i < |records| && LeadsToRecords(records[..i], positions)
    ensures var h := records[i].hostID;
            LeadsToRecords(records[..i + 1], positions[records[i].id := SnapshotPosition(h, |Pick(records[..i], HostOf, h)|)])
  {
    var h := records[i].hostID;
    var after := positions[records[i].id := SnapshotPosition(h, |Pick(records[..i], HostOf, h)|)];
    IDsStep(records, i);
    forall id | id in after
      ensures LeadsTo(records[..i + 1], after[id], id)
    {
      PickStep(records, HostOf, after[id].hostID, i);
      assert id != records[i].id ==> LeadsTo(records[..i], positions[id], id);
    }
  }

  lemma IDsStep(records: seq<Record>, i: nat)
    requires i < |records|
    ensures IDs(records[..i + 1]) == IDs(records[..i]) + {records[i].id}
  {
    assert records[..i + 1] == records[..i] + [records[i]];
    assert records[..i + 1][i] == records[i];
    forall x | x in IDs(records[..i])
      ensures x in IDs(records[..i + 1])
    {
      var j :| 0 <= j < i && records[..i][j].id == x;
      assert records[..i + 1][j].id == x;
    }
  }

  function IDs(records: seq<Record>): set<nat> {
    set i | 0 <= i < |records| :: records[i].id
  }

  lemma {:induction false} PickIsDistinct(records: seq<Record>, h: UUID)
    requires DistinctRecords(records)
    ensures DistinctRecords(Pick(records, HostOf, h))
  {
    if records != [] {
      var n := |records| - 1;
      PickIsDistinct(records[..n], h);
      forall i | 0 <= i < |Pick(records[..n], HostOf, h)|
        ensures Pick(records[..n], HostOf, h)[i].id != records[n].id
      {
        PickMembers(records[..n], HostOf, h, Pick(records[..n], HostOf, h)[i]);
      }
    }
  }

  /** Two positions of the same snapshot are the same position. */
  lemma PositionIsUnique(records: seq<Record>, p: SnapshotPosition, q: SnapshotPosition)
    requires DistinctRecords(records)
    requires p.index < |Pick(records, HostOf, p.hostID)| && q.index < |Pick(records, HostOf, q.hostID)|
    requires Pick(records, HostOf, p.hostID)[p.index].id == Pick(records, HostOf, q.hostID)[q.index].id
    ensures p == q
  {
    var x, y := Pick(records, HostOf, p.hostID)[p.index], Pick(records, HostOf, q.hostID)[q.index];
    PickMembers(records, HostOf, p.hostID, x);
    PickMembers(records, HostOf, q.hostID, y);
    var i :| 0 <= i < |records| && records[i] == x;
    var j :| 0 <= j < |records| && records[j] == y;
    assert i == j;
    PickIsDistinct(records, p.hostID);
  }

  /** `ListRecentHostMetricSnapshotsByHostIDs` of the postgres repository: build the
      lists first, then add each metric row through its snapshot's position. */
  method ListRecentPostgres(records: seq<Record>, rows: seq<MetricRecord>) returns (r: Option<map<UUID, seq<Snapshot>>>)
    requires DistinctRecords(records)
    ensures r.Some? <==> ListedAreReadable(records, rows)
    ensures r.Some? ==> GroupedByHost(records, rows, r.value)
  {
    var lists: map<UUID, seq<Snapshot>>, positions: map<nat, SnapshotPosition> := BuildLists(records);
    r := ScatterRows(records, lists, positions, rows);
    ScatteredRowsAreGrouped(records, lists, positions, rows);
  }

  /** The second loop: each row goes through its snapshot's position. */
  method ScatterRows(ghost records: seq<Record>, lists: map<UUID, seq<Snapshot>>,
                     positions: map<nat, SnapshotPosition>, rows: seq<MetricRecord>)
    returns (r: Option<map<UUID, seq<Snapshot>>>)
    requires DistinctRecords(records) && LeadsToRecords(records, positions) && GroupedByHost(records, [], lists)
    ensures r.Some? <==> ListedAreReadable(records, rows)
    ensures r.Some? ==> r.value == ScatteredRows(lists, positions, rows)
  {
    var result: map<UUID, seq<Snapshot>> := lists;
    var n := 0;
    while n < |rows|
      invariant 0 <= n <= |rows| && ListedAreReadable(records, rows[..n])
      invariant result == ScatteredRows(lists, positions, rows[..n])
    {
      assert rows[..n + 1][..n] == rows[..n] && rows[..n + 1][n] == rows[n];
      if rows[n].id in positions {
        var metric := FromRow(rows[n].row);
        if metric.None? {
          assert !NonNegative(rows[n].row);
          return None;
        }
        PositionIsInRange(records, lists, positions, rows[..n], rows[n].id);
        result := AppendMetric(result, positions[rows[n].id], metric.value);
      }
      ReadableStep(records, rows, n);
      n := n + 1;
    }
    assert rows[..|rows|] == rows;
    r := Some(result);
  }

  lemma ReadableStep(records: seq<Record>, rows: seq<MetricRecord>, n: nat)
    requires n < |rows|
    ensures ListedAreReadable(records, rows[..n + 1])
       <==> ListedAreReadable(records, rows[..n]) && (rows[n].id in IDs(records) ==> NonNegative(rows[n].row))
  {
    assert forall i :: 0 <= i < n ==> rows[..n + 1][i] == rows[..n][i];
    if ListedAreReadable(records, rows[..n + 1]) {
      assert rows[..n + 1][n] == rows[n];
    }
  }

  lemma PositionIsInRange(records: seq<Record>, lists: map<UUID, seq<Snapshot>>,
                          positions: map<nat, SnapshotPosition>, rows: seq<MetricRecord>, id: nat)
    requires DistinctRecords(records) && LeadsToRecords(records, positions) && GroupedByHost(records, [], lists)
    requires id in positions
    ensures var p, result := positions[id], ScatteredRows(lists, positions, rows);
            p.hostID in result && p.index < |result[p.hostID]|
  {
    ScatteredRowsAreGrouped(records, lists, positions, rows);
    var p := positions[id];
    assert Lookup(ScatteredRows(lists, positions, rows), p.hostID) == Loaded(Pick(records, HostOf, p.hostID), rows);
  }

  /** The lists after the appends for some rows, one by one. */
  ghost function ScatteredRows(lists: map<UUID, seq<Snapshot>>, positions: map<nat, SnapshotPosition>, rows: seq<MetricRecord>)
    : map<UUID, seq<Snapshot>>
  {
    if rows == [] then lists
    else
      var n := |rows| - 1;
      var before := ScatteredRows(lists, positions, rows[..n]);
      if rows[n].id in positions then Scattered(before, positions[rows[n].id], Decoded(rows[n].row)) else before
  }

  lemma {:induction false} ScatteredRowsAreGrouped(records: seq<Record>, lists: map<UUID, seq<Snapshot>>,
                                                   positions: map<nat, SnapshotPosition>, rows: seq<MetricRecord>)
    requires DistinctRecords(records) && LeadsToRecords(records, positions) && GroupedByHost(records, [], lists)
    ensures GroupedByHost(records, rows, ScatteredRows(lists, positions, rows))
  {
    if rows != [] {
      var n := |rows| - 1;
      var before := ScatteredRows(lists, positions, rows[..n]);
      ScatteredRowsAreGrouped(records, lists, positions, rows[..n]);
      assert rows[..n + 1] == rows;
      if rows[n].id in positions {
        ScatterStep(records, rows, n, before, positions[rows[n].id]);
      } else {
        SkipStep(records, rows, n, before);
      }
    }
  }

  /** The metric rows of the listed snapshots hold no negative counter. */
  predicate ListedAreReadable(records: seq<Record>, rows: seq<MetricRecord>) {
    forall i :: 0 <= i < |rows| && rows[i].id in IDs(records) ==> NonNegative(rows[i].row)
  }

  /** A row of a snapshot that is not listed changes nothing. */
  lemma SkipStep(records: seq<Record>, rows: seq<MetricRecord>, n: nat, result: map<UUID, seq<Snapshot>>)
    requires n < |rows| && rows[n].id !in IDs(records)
    requires GroupedByHost(records, rows[..n], result)
    ensures GroupedByHost(records, rows[..n + 1], result)
  {
    forall h
      ensures Loaded(Pick(records, HostOf, h), rows[..n + 1]) == Loaded(Pick(records, HostOf, h), rows[..n])
    {
      var own := Pick(records, HostOf, h);
      forall k | 0 <= k < |own|
        ensures OwnMetrics(rows[..n + 1], own[k].id) == OwnMetrics(rows[..n], own[k].id)
      {
        PickMembers(records, HostOf, h, own[k]);
        var i :| 0 <= i < |records| && records[i] == own[k];
        OwnMetricsStep(rows, own[k].id, n);
      }
    }
  }

  /** The first loop: the lists, still without metrics, and the position map. */
  method BuildLists(records: seq<Record>) returns (result: map<UUID, seq<Snapshot>>, positions: map<nat, SnapshotPosition>)
    requires DistinctRecords(records)
    ensures GroupedByHost(records, [], result) && LeadsToRecords(records, positions)
  {
    result, positions := map[], map[];
    for i := 0 to |records|
      invariant GroupedByHost(records[..i], [], result)
      invariant LeadsToRecords(records[..i], positions)
    {
      BuildStep(records, i, result, positions);
      result := AppendSnapshot(result, Snapshot(records[i].hostID, records[i].timestamp, []));
      positions := positions[records[i].id := SnapshotPosition(records[i].hostID, |result[records[i].hostID]| - 1)];
    }
    assert records[..|records|] == records;
  }

  lemma BuildStep(records: seq<Record>, i: nat, result: map<UUID, seq<Snapshot>>, positions: map<nat, SnapshotPosition>)
    requires i < |records|
    requires GroupedByHost(records[..i], [], result) && LeadsToRecords(records[..i], positions)
    ensures var after := Appended(result, Snapshot(records[i].hostID, records[i].timestamp, []));
            && GroupedByHost(records[..i + 1], [], after)
            && LeadsToRecords(records[..i + 1],
                              positions[records[i].id := SnapshotPosition(records[i].hostID, |after[records[i].hostID]| - 1)])
  {
    var h := records[i].hostID;
    assert |Lookup(result, h)| == |Pick(records[..i], HostOf, h)| by {
      assert Lookup(result, h) == Loaded(Pick(records[..i], HostOf, h), []);
    }
    assert Load(records[i], []) == Snapshot(h, records[i].timestamp, []);
    GroupStep(records, [], i, result);
    LeadsToOneMore(records, i, positions);
  }

  /** The snapshot joins its host's list. */
  function Appended(result: map<UUID, seq<Snapshot>>, value: Snapshot): map<UUID, seq<Snapshot>> {
    result[value.hostID := Lookup(result, value.hostID) + [value]]
  }

  method AppendSnapshot(result: map<UUID, seq<Snapshot>>, value: Snapshot) returns (after: map<UUID, seq<Snapshot>>)
    ensures after == Appended(result, value)
  {
    var sofar: seq<Snapshot> := if value.hostID in result then result[value.hostID] else [];
    after := result[value.hostID := sofar + [value]];
  }

  /** The metric joins the snapshot at a position, if there is one. */
  function Scattered(result: map<UUID, seq<Snapshot>>, p: SnapshotPosition, metric: HostMetric): map<UUID, seq<Snapshot>> {
    if p.hostID in result && p.index < |result[p.hostID]|
    then
      var was := result[p.hostID];
      result[p.hostID := was[p.index := AddMetric(was[p.index], metric)]]
    else result
  }

  method AppendMetric(result: map<UUID, seq<Snapshot>>, p: SnapshotPosition, metric: HostMetric)
    returns (after: map<UUID, seq<Snapshot>>)
    requires p.hostID in result && p.index < |result[p.hostID]|
    ensures after == Scattered(result, p, metric)
  {
    var snapshots: seq<Snapshot> := result[p.hostID];
    snapshots := snapshots[p.index := snapshots[p.index].(metrics := snapshots[p.index].metrics + [metric])];
    after := result[p.hostID := snapshots];
  }

  function AddMetric(s: Snapshot, metric: HostMetric): Snapshot {
    s.(metrics := s.metrics + [metric])
  }

  /** One more row: the list of its own host changes, at its own position. */
  lemma ScatterInHost(records: seq<Record>, rows: seq<MetricRecord>, n: nat, p: SnapshotPosition, h: UUID)
    requires DistinctRecords(records) && n < |rows|
    requires p.index < |Pick(records, HostOf, p.hostID)| && Pick(records, HostOf, p.hostID)[p.index].id == rows[n].id
    ensures var own := Pick(records, HostOf, h);
            var was := Loaded(own, rows[..n]);
            Loaded(own, rows[..n + 1])
            == if h == p.hostID then was[p.index := AddMetric(was[p.index], Decoded(rows[n].row))] else was
  {
    var own := Pick(records, HostOf, h);
    var was := Loaded(own, rows[..n]);
    forall k: nat | k < |own|
      ensures Load(own[k], rows[..n + 1]) == if SnapshotPosition(h, k) == p then AddMetric(was[k], Decoded(rows[n].row)) else was[k]
    {
      OwnMetricsStep(rows, own[k].id, n);
      if own[k].id == rows[n].id {
        PositionIsUnique(records, SnapshotPosition(h, k), p);
      }
    }
  }

  lemma ScatterStep(records: seq<Record>, rows: seq<MetricRecord>, n: nat, result: map<UUID, seq<Snapshot>>, p: SnapshotPosition)
    requires DistinctRecords(records) && n < |rows|
    requires GroupedByHost(records, rows[..n], result)
    requires p.index < |Pick(records, HostOf, p.hostID)| && Pick(records, HostOf, p.hostID)[p.index].id == rows[n].id
    ensures p.hostID in result && p.index < |result[p.hostID]|
    ensures GroupedByHost(records, rows[..n + 1], Scattered(result, p, Decoded(rows[n].row)))
  {
    assert Lookup(result, p.hostID) == Loaded(Pick(records, HostOf, p.hostID), rows[..n]);
    assert |Lookup(result, p.hostID)| > 0;
    var after := Scattered(result, p, Decoded(rows[n].row));
    assert after.Keys == result.Keys;
    forall h
      ensures Lookup(after, h) == Loaded(Pick(records, HostOf, h), rows[..n + 1])
    {
      ScatterInHost(records, rows, n, p, h);
      assert Lookup(result, h) == Loaded(Pick(records, HostOf, h), rows[..n]);
    }
  }

  /** `listHostMetricsBySnapshotID`: the simple form, one query for one snapshot. */
  method ListHostMetricsBySnapshotID(single: seq<MetricRecord>) returns (r: Option<seq<HostMetric>>)
    ensures r.Some? <==> AllReadable(single)
    ensures r.Some? ==> r.value == Decode(single)
  {
    var metrics: seq<HostMetric> := [];
    for n := 0 to |single|
      invariant |metrics| == n
      invariant forall i :: 0 <= i < n ==> NonNegative(single[i].row) && metrics[i] == Decoded(single[i].row)
    {
      var metric := FromRow(single[n].row);
      if metric.None? {
        return None;
      }
      metrics := metrics + [metric.value];
    }
    r := Some(metrics);
  }

  // ---------------------------------------------------------------- theorems

  /** A batch holds for each of its snapshots exactly what the snapshot's own query
      returns, in the same order. */
  lemma BatchRefinesSingleQueries(db: Tables, ids: set<nat>, rows: seq<MetricRecord>, id: nat, single: seq<MetricRecord>)
    requires SelectsMetrics(db, ids, rows) && id in ids && SelectsMetrics(db, {id}, single)
    ensures Pick(rows, SnapshotOf, id) == single
  {
    PickIsSorted(rows, SnapshotOf, id, ByPosition);
    forall r
      ensures r in Pick(rows, SnapshotOf, id) <==> r in single
    {
      PickMembers(rows, SnapshotOf, id, r);
    }
    SortedListingIsUnique(Pick(rows, SnapshotOf, id), single, ByPosition);
  }

  /** What a loader attaches to a stored snapshot is what was stored with it; rows
      that passed the schema's checks are always readable. */
  lemma LoadedIsStored(db: Tables, ids: set<nat>, rows: seq<MetricRecord>, id: nat, metrics: seq<HostMetric>)
    requires Valid(db) && SelectsMetrics(db, ids, rows)
    ensures AllReadable(rows)
    ensures id in ids && HasMetrics(db, id, metrics) && AllChecked(metrics) ==> OwnMetrics(rows, id) == metrics
  {
    forall i | 0 <= i < |rows|
      ensures NonNegative(rows[i].row)
    {
      assert rows[i] in rows;
    }
    if id in ids && HasMetrics(db, id, metrics) && AllChecked(metrics) {
      var single := seq(|metrics|, i requires 0 <= i < |metrics| => MetricRecord(id, i, ToRow(metrics[i])));
      forall r
        ensures r in single <==> MetricIsStored(db, r) && r.id in {id}
      {
        if MetricIsStored(db, r) && r.id == id {
          assert single[r.position] == r;
        }
      }
      BatchRefinesSingleQueries(db, ids, rows, id, single);
      forall i | 0 <= i < |metrics|
        ensures Decoded(single[i].row) == metrics[i]
      {
        AcceptedMetricsRoundTrip(metrics[i]);
      }
    }
  }

  /** In a host's full listing, a record's rank is its index. */
  lemma {:induction false} RankIsIndex(db: Tables, hostID: UUID, all: seq<Record>, i: nat)
    requires SelectsHost(db, hostID, all) && i < |all|
    ensures Rank(db, all[i]) == i
  {
    var times := Timestamps(db, hostID);
    assert all[i] in all;
    if i == 0 {
      assert Above(times, all[0].timestamp) == {} by { NothingAboveFirst(db, hostID, all); }
    } else {
      RankIsIndex(db, hostID, all, i - 1);
      NextTime(db, hostID, all, i);
    }
  }

  lemma TimeIsListed(db: Tables, hostID: UUID, all: seq<Record>, t: Timestamp) returns (j: nat)
    requires SelectsHost(db, hostID, all) && t in Timestamps(db, hostID)
    ensures j < |all| && all[j].timestamp == t
  {
    var id :| id in db.snapshots && db.snapshots[id].hostID == hostID && db.snapshots[id].timestamp == t;
    var r := Record(id, hostID, t);
    assert RecordIsStored(db, r);
    j :| 0 <= j < |all| && all[j] == r;
  }

  lemma NothingAboveFirst(db: Tables, hostID: UUID, all: seq<Record>)
    requires SelectsHost(db, hostID, all) && all != []
    ensures Above(Timestamps(db, hostID), all[0].timestamp) == {}
  {
    forall t | t in Timestamps(db, hostID)
      ensures t <= all[0].timestamp
    {
      var j := TimeIsListed(db, hostID, all, t);
    }
  }

  lemma NextTime(db: Tables, hostID: UUID, all: seq<Record>, i: nat)
    requires SelectsHost(db, hostID, all) && 0 < i < |all|
    ensures Above(Timestamps(db, hostID), all[i].timestamp)
         == Above(Timestamps(db, hostID), all[i - 1].timestamp) + {all[i - 1].timestamp}
  {
    var times := Timestamps(db, hostID);
    assert all[i - 1] in all;
    assert all[i - 1].timestamp in times;
    forall t | t in times && t > all[i].timestamp
      ensures t >= all[i - 1].timestamp
    {
      var j := TimeIsListed(db, hostID, all, t);
    }
  }

  function Shorter(k: nat, n: nat): nat {
    if k < n then k else n
  }

  /** The records of one host in a limited listing over many hosts are the first
      `limit` of that host's full listing. */
  lemma RecentIsPrefix(db: Tables, hostIDs: set<UUID>, limit: nat, recent: seq<Record>, hostID: UUID, all: seq<Record>)
    requires SelectsRecent(db, hostIDs, limit, recent) && hostID in hostIDs && SelectsHost(db, hostID, all)
    ensures Pick(recent, HostOf, hostID) == all[..Shorter(limit, |all|)]
  {
    var own, first := Pick(recent, HostOf, hostID), all[..Shorter(limit, |all|)];
    PickIsSorted(recent, HostOf, hostID, ByHostThenTimeDesc);
    forall i, j | 0 <= i < j < |own|
      ensures ByTimeDesc(own[i], own[j])
    {
      PickMembers(recent, HostOf, hostID, own[i]);
      PickMembers(recent, HostOf, hostID, own[j]);
    }
    forall r
      ensures r in own <==> r in first
    {
      PickMembers(recent, HostOf, hostID, r);
      if r in own {
        var i :| 0 <= i < |all| && all[i] == r;
        RankIsIndex(db, hostID, all, i);
        assert first[i] == r;
      }
      if r in first {
        var i :| 0 <= i < |first| && first[i] == r;
        RankIsIndex(db, hostID, all, i);
        assert r in all;
      }
    }
    SortedListingIsUnique(own, first, ByTimeDesc);
  }

  /** Both batch listings, end to end: for every requested host, the list returned is
      the first `limit` snapshots of the host's full listing, each with its metrics;
      with limit 1 that is the latest one. */
  lemma RecentIsFirstOfAll(db: Tables, hostIDs: set<UUID>, limit: nat,
                           recent: seq<Record>, rows: seq<MetricRecord>, result: map<UUID, seq<Snapshot>>,
                           hostID: UUID, all: seq<Record>, allRows: seq<MetricRecord>)
    requires hostID in hostIDs
    requires SelectsRecent(db, hostIDs, limit, recent) && SelectsMetrics(db, IDs(recent), rows)
    requires GroupedByHost(recent, rows, result)
    requires SelectsHost(db, hostID, all) && SelectsMetrics(db, IDs(all), allRows)
    ensures Lookup(result, hostID) == Loaded(all, allRows)[..Shorter(limit, |all|)]
  {
    RecentIsPrefix(db, hostIDs, limit, recent, hostID, all);
    var first := Pick(recent, HostOf, hostID);
    forall i | 0 <= i < |first|
      ensures OwnMetrics(rows, first[i].id) == OwnMetrics(allRows, first[i].id)
    {
      PickMembers(recent, HostOf, hostID, first[i]);
      var j :| 0 <= j < |recent| && recent[j] == first[i];
      assert recent[j].id in IDs(recent) && all[i].id in IDs(all);
      OwnRowsAgree(db, IDs(recent), rows, IDs(all), allRows, first[i].id);
    }
    assert Lookup(result, hostID) == Loaded(first, rows);
  }

  lemma OwnRowsAgree(db: Tables, ids: set<nat>, rows: seq<MetricRecord>, ids': set<nat>, rows': seq<MetricRecord>, id: nat)
    requires SelectsMetrics(db, ids, rows) && SelectsMetrics(db, ids', rows') && id in ids && id in ids'
    ensures Pick(rows, SnapshotOf, id) == Pick(rows', SnapshotOf, id)
  {
    var single := Pick(rows', SnapshotOf, id);
    PickIsSorted(rows', SnapshotOf, id, ByPosition);
    forall r
      ensures r in single <==> MetricIsStored(db, r) && r.id in {id}
    {
      PickMembers(rows', SnapshotOf, id, r);
    }
    BatchRefinesSingleQueries(db, ids, rows, id, single);
  }

  // ---------------------------------------------------------------- the latest snapshot of each host

  /** `rows` answers: select ... where host_id in (hostIDs) and snapshot_rank = 1
      order by host_id asc. */
  ghost predicate SelectsRanked(db: Tables, hostIDs: set<UUID>, rows: seq<Record>) {
    && (forall i, j :: 0 <= i < j < |rows| ==> rows[i].hostID <= rows[j].hostID && rows[i] != rows[j])
    && forall r :: r in rows <==> RecordIsStored(db, r) && r.hostID in hostIDs && Rank(db, r) == 0
  }

  /** The first record of its host in a list sorted by host. */
  predicate StartsGroup(s: seq<Record>, i: nat)
    requires i < |s|
  {
    i == 0 || s[i - 1].hostID != s[i].hostID
  }

  function FirstOfEach(s: seq<Record>): seq<Record> {
    if s == [] then []
    else
      var n := |s| - 1;
      FirstOfEach(s[..n]) + if StartsGroup(s, n) then [s[n]] else []
  }

  /** `rows` answers: select distinct on (host_id) ... where host_id = any(hostIDs)
      order by host_id asc, timestamp desc; `ordered` is what it is picked from. */
  ghost predicate SelectsDistinctOn(db: Tables, hostIDs: set<UUID>, ordered: seq<Record>, rows: seq<Record>) {
    && Sorted(ordered, ByHostThenTimeDesc)
    && (forall r :: r in ordered <==> RecordIsStored(db, r) && r.hostID in hostIDs)
    && rows == FirstOfEach(ordered)
  }

  ghost predicate OnePerHost(records: seq<Record>) {
    forall i, j :: 0 <= i < j < |records| ==> records[i].hostID != records[j].hostID && records[i].id != records[j].id
  }

  /** The newest record of each requested host that has one. */
  ghost predicate AreLatest(db: Tables, hostIDs: set<UUID>, records: seq<Record>) {
    && OnePerHost(records)
    && forall r :: r in records <==> RecordIsStored(db, r) && r.hostID in hostIDs && Rank(db, r) == 0
  }

  lemma StoredTime(db: Tables, r: Record)
    requires RecordIsStored(db, r)
    ensures r.timestamp in Timestamps(db, r.hostID)
  {
  }

  /** A record of rank 0 is not older than any other of its host. */
  lemma NothingIsNewer(db: Tables, r: Record, other: Record)
    requires RecordIsStored(db, other) && other.hostID == r.hostID && Rank(db, r) == 0
    ensures other.timestamp <= r.timestamp
  {
    StoredTime(db, other);
    assert other.timestamp > r.timestamp ==> other.timestamp in Above(Timestamps(db, r.hostID), r.timestamp);
  }

  lemma NewestIsOne(db: Tables, a: Record, b: Record)
    requires Valid(db) && RecordIsStored(db, a) && RecordIsStored(db, b)
    requires a.hostID == b.hostID && Rank(db, a) == 0 && Rank(db, b) == 0
    ensures a == b
  {
    NothingIsNewer(db, a, b);
    NothingIsNewer(db, b, a);
    assert db.snapshots[a.id] == db.snapshots[b.id];
  }

  /** The query by rank finds the newest record of each host, once. */
  lemma RankedAreLatest(db: Tables, hostIDs: set<UUID>, rows: seq<Record>)
    requires Valid(db) && SelectsRanked(db, hostIDs, rows)
    ensures AreLatest(db, hostIDs, rows)
  {
    forall i, j | 0 <= i < j < |rows|
      ensures rows[i].hostID != rows[j].hostID && rows[i].id != rows[j].id
    {
      assert rows[i] in rows && rows[j] in rows;
      if rows[i].hostID == rows[j].hostID {
        NewestIsOne(db, rows[i], rows[j]);
      }
    }
  }

  predicate IsStart(s: seq<Record>, i: nat, r: Record) {
    i < |s| && s[i] == r && StartsGroup(s, i)
  }

  lemma {:induction false} FirstOfEachMembers(s: seq<Record>, r: Record)
    ensures r in FirstOfEach(s) <==> exists i: nat :: IsStart(s, i, r)
  {
    if s != [] {
      var n := |s| - 1;
      FirstOfEachMembers(s[..n], r);
      forall i: nat | i < n
        ensures IsStart(s[..n], i, r) <==> IsStart(s, i, r)
      {
        assert s[..n][i] == s[i] && (i > 0 ==> s[..n][i - 1] == s[i - 1]);
      }
      assert IsStart(s, n, r) <==> s[n] == r && StartsGroup(s, n);
      assert forall i: nat :: IsStart(s, i, r) ==> i < n || i == n;
    }
  }

  lemma {:induction false} FirstOfEachIsSorted(s: seq<Record>)
    requires Sorted(s, ByHostThenTimeDesc)
    ensures Sorted(FirstOfEach(s), ByHostThenTimeDesc)
  {
    if s != [] {
      var n := |s| - 1;
      FirstOfEachIsSorted(s[..n]);
      forall r | r in FirstOfEach(s[..n])
        ensures ByHostThenTimeDesc(r, s[n])
      {
        FirstOfEachMembers(s[..n], r);
      }
    }
  }

  /** A record starts its group exactly when it is the newest of its host. */
  lemma StartIsNewest(db: Tables, hostIDs: set<UUID>, ordered: seq<Record>, i: nat)
    requires SelectsDistinctOn(db, hostIDs, ordered, FirstOfEach(ordered)) && i < |ordered|
    ensures StartsGroup(ordered, i) <==> Rank(db, ordered[i]) == 0
  {
    var r := ordered[i];
    var newer := Above(Timestamps(db, r.hostID), r.timestamp);
    assert r in ordered;
    if !StartsGroup(ordered, i) {
      assert ordered[i - 1] in ordered;
      StoredTime(db, ordered[i - 1]);
      assert ByHostThenTimeDesc(ordered[i - 1], ordered[i]);
      assert ordered[i - 1].timestamp in newer;
    } else if newer != {} {
      var t :| t in newer;
      var id :| id in db.snapshots && db.snapshots[id].hostID == r.hostID && db.snapshots[id].timestamp == t;
      var other := Record(id, r.hostID, t);
      assert RecordIsStored(db, other);
      var j :| 0 <= j < |ordered| && ordered[j] == other;
      SameHostBetween(ordered, j, i);
    }
  }

  /** Records of one host stand together, newest first. */
  lemma SameHostBetween(ordered: seq<Record>, j: nat, i: nat)
    requires Sorted(ordered, ByHostThenTimeDesc) && i < |ordered| && j < |ordered|
    requires ordered[j].hostID == ordered[i].hostID && ordered[j].timestamp > ordered[i].timestamp
    ensures !StartsGroup(ordered, i)
  {
    assert i < j ==> ByHostThenTimeDesc(ordered[i], ordered[j]);
    assert j < i;
    assert ByHostThenTimeDesc(ordered[i - 1], ordered[i]);
    assert j < i - 1 ==> ByHostThenTimeDesc(ordered[j], ordered[i - 1]);
  }

  /** So does the query by distinct hosts. */
  lemma DistinctOnAreLatest(db: Tables, hostIDs: set<UUID>, ordered: seq<Record>, rows: seq<Record>)
    requires SelectsDistinctOn(db, hostIDs, ordered, rows)
    ensures AreLatest(db, hostIDs, rows)
  {
    forall r
      ensures r in rows <==> RecordIsStored(db, r) && r.hostID in hostIDs && Rank(db, r) == 0
    {
      FirstOfEachMembers(ordered, r);
      forall k: nat | k < |ordered| && ordered[k] == r
        ensures IsStart(ordered, k, r) <==> Rank(db, r) == 0
      {
        StartIsNewest(db, hostIDs, ordered, k);
      }
      if RecordIsStored(db, r) && r.hostID in hostIDs && Rank(db, r) == 0 {
        assert r in ordered;
        var k: nat :| k < |ordered| && ordered[k] == r;
        assert IsStart(ordered, k, r);
      }
      if k: nat :| IsStart(ordered, k, r) {
        assert ordered[k] in ordered;
      }
    }
    FirstOfEachIsSorted(ordered);
    forall i, j | 0 <= i < j < |rows|
      ensures rows[i].hostID != rows[j].hostID && rows[i].id != rows[j].id
    {
      assert rows[i] in rows && rows[j] in rows;
      assert ByHostThenTimeDesc(rows[i], rows[j]);
      if rows[i].hostID == rows[j].hostID {
        NothingIsNewer(db, rows[j], rows[i]);
      }
    }
  }

  /** What a listing of latest snapshots must return. */
  ghost predicate LatestByHost(records: seq<Record>, rows: seq<MetricRecord>, result: map<UUID, Snapshot>) {
    && result.Keys == Hosts(records)
    && forall i :: 0 <= i < |records| ==> records[i].hostID in result && result[records[i].hostID] == Load(records[i], rows)
  }

  /** `ListLatestHostMetricSnapshotsByHostIDs` of the sqlite repository. */
  method ListLatestSQLite(records: seq<Record>, rows: seq<MetricRecord>) returns (r: Option<map<UUID, Snapshot>>)
    requires OnePerHost(records)
    requires records == [] ==> rows == []
    ensures r.Some? <==> AllReadable(rows)
    ensures r.Some? ==> LatestByHost(records, rows, r.value)
  {
    var loaded := new SnapshotRecord[|records|](i requires 0 <= i < |records| => SnapshotRecord(records[i], []));
    var ok := LoadMetrics(loaded, rows);
    if !ok {
      return None;
    }
    assert forall i :: 0 <= i < |records| ==> [] + OwnMetrics(rows, records[i].id) == OwnMetrics(rows, records[i].id);
    var result := ByHost(loaded[..], records, rows);
    r := Some(result);
  }

  method ByHost(loaded: seq<SnapshotRecord>, ghost records: seq<Record>, ghost rows: seq<MetricRecord>)
    returns (result: map<UUID, Snapshot>)
    requires OnePerHost(records) && |loaded| == |records|
    requires forall i :: 0 <= i < |records| ==> loaded[i] == SnapshotRecord(records[i], OwnMetrics(rows, records[i].id))
    ensures LatestByHost(records, rows, result)
  {
    result := map[];
    for i := 0 to |loaded|
      invariant LatestByHost(records[..i], rows, result)
    {
      LatestOneMore(records, i, rows, result);
      result := result[loaded[i].record.hostID := Snapshot(loaded[i].record.hostID, loaded[i].record.timestamp, loaded[i].metrics)];
    }
    assert records[..|records|] == records;
  }

  /** One more record: its host's entry is new. */
  lemma LatestOneMore(records: seq<Record>, i: nat, rows: seq<MetricRecord>, result: map<UUID, Snapshot>)
    requires OnePerHost(records) && i < |records| && LatestByHost(records[..i], rows, result)
    ensures LatestByHost(records[..i + 1], rows, result[records[i].hostID := Load(records[i], rows)])
  {
    HostsGrow(records, i);
    var after := result[records[i].hostID := Load(records[i], rows)];
    forall k | 0 <= k < i
      ensures records[k].hostID in after && after[records[k].hostID] == Load(records[k], rows)
    {
      assert records[..i][k] == records[k];
    }
  }

  lemma HostsOneMore(records: seq<Record>, i: nat, hostOf: map<nat, UUID>)
    requires OnePerHost(records) && i < |records| && AreHostsOf(records[..i], hostOf)
    ensures AreHostsOf(records[..i + 1], hostOf[records[i].id := records[i].hostID])
  {
    forall k | 0 <= k < i
      ensures records[k].id in hostOf && hostOf[records[k].id] == records[k].hostID && records[k].id != records[i].id
    {
      assert records[..i][k] == records[k];
    }
  }

  /** `snapshotHostIDs`: the host of each snapshot listed. */
  ghost predicate AreHostsOf(records: seq<Record>, hostOf: map<nat, UUID>) {
    && hostOf.Keys == IDs(records)
    && forall i :: 0 <= i < |records| ==> records[i].id in hostOf && hostOf[records[i].id] == records[i].hostID
  }

  /** `ListLatestHostMetricSnapshotsByHostIDs` of the postgres repository: each metric
      row reads its host's snapshot from the result, extends it and writes it back. */
  method ListLatestPostgres(records: seq<Record>, rows: seq<MetricRecord>) returns (r: Option<map<UUID, Snapshot>>)
    requires OnePerHost(records)
    ensures r.Some? <==> ListedAreReadable(records, rows)
    ensures r.Some? ==> LatestByHost(records, rows, r.value)
  {
    var result: map<UUID, Snapshot>, hostOf: map<nat, UUID> := map[], map[];
    for i := 0 to |records|
      invariant LatestByHost(records[..i], [], result)
      invariant AreHostsOf(records[..i], hostOf)
    {
      LatestOneMore(records, i, [], result);
      HostsOneMore(records, i, hostOf);
      assert Load(records[i], []) == Snapshot(records[i].hostID, records[i].timestamp, []);
      result := result[records[i].hostID := Snapshot(records[i].hostID, records[i].timestamp, [])];
      hostOf := hostOf[records[i].id := records[i].hostID];
    }
    assert records[..|records|] == records;
    r := AddMetricRows(records, result, hostOf, rows);
  }

  method AddMetricRows(ghost records: seq<Record>, start: map<UUID, Snapshot>, hostOf: map<nat, UUID>, rows: seq<MetricRecord>)
    returns (r: Option<map<UUID, Snapshot>>)
    requires OnePerHost(records) && LatestByHost(records, [], start) && AreHostsOf(records, hostOf)
    ensures r.Some? <==> ListedAreReadable(records, rows)
    ensures r.Some? ==> LatestByHost(records, rows, r.value)
  {
    var result: map<UUID, Snapshot> := start;
    for n := 0 to |rows|
      invariant LatestByHost(records, rows[..n], result)
      invariant ListedAreReadable(records, rows[..n])
    {
      ReadableStep(records, rows, n);
      LatestStep(records, rows, n, result, hostOf);
      if rows[n].id !in hostOf {
        continue;
      }
      var hostID := hostOf[rows[n].id];
      var metric := FromRow(rows[n].row);
      if metric.None? {
        assert !NonNegative(rows[n].row);
        return None;
      }
      result := result[hostID := AddMetric(result[hostID], metric.value)];
    }
    assert rows[..|rows|] == rows;
    r := Some(result);
  }

  /** One more row: it extends the snapshot of its own host, and no other. */
  lemma LatestStep(records: seq<Record>, rows: seq<MetricRecord>, n: nat, result: map<UUID, Snapshot>, hostOf: map<nat, UUID>)
    requires OnePerHost(records) && n < |rows| && LatestByHost(records, rows[..n], result) && AreHostsOf(records, hostOf)
    ensures rows[n].id !in hostOf ==> LatestByHost(records, rows[..n + 1], result)
    ensures rows[n].id in hostOf ==>
              && hostOf[rows[n].id] in result
              && LatestByHost(records, rows[..n + 1],
                              result[hostOf[rows[n].id] := AddMetric(result[hostOf[rows[n].id]], Decoded(rows[n].row))])
  {
    forall i | 0 <= i < |records|
      ensures Load(records[i], rows[..n + 1])
           == if rows[n].id == records[i].id then AddMetric(Load(records[i], rows[..n]), Decoded(rows[n].row)) else Load(records[i], rows[..n])
    {
      OwnMetricsStep(rows, records[i].id, n);
    }
    if rows[n].id in hostOf {
      ExtendedSnapshot(records, rows, n, result, hostOf);
    }
  }

  lemma ExtendedSnapshot(records: seq<Record>, rows: seq<MetricRecord>, n: nat, result: map<UUID, Snapshot>, hostOf: map<nat, UUID>)
    requires OnePerHost(records) && n < |rows| && LatestByHost(records, rows[..n], result)
    requires AreHostsOf(records, hostOf) && rows[n].id in hostOf
    requires forall i :: 0 <= i < |records| ==>
               Load(records[i], rows[..n + 1])
               == if rows[n].id == records[i].id then AddMetric(Load(records[i], rows[..n]), Decoded(rows[n].row))
                  else Load(records[i], rows[..n])
    ensures hostOf[rows[n].id] in result
    ensures LatestByHost(records, rows[..n + 1],
                         result[hostOf[rows[n].id] := AddMetric(result[hostOf[rows[n].id]], Decoded(rows[n].row))])
  {
    assert rows[n].id in IDs(records);
    var k :| 0 <= k < |records| && records[k].id == rows[n].id;
    assert hostOf[rows[n].id] == records[k].hostID;
    forall i | 0 <= i < |records|
      ensures records[i].hostID == records[k].hostID <==> records[i].id == rows[n].id
    {
    }
  }

  /** Both listings of the latest, end to end: a requested host is in the result exactly
      when it has a snapshot, with the head of its full listing, metrics and all. */
  lemma LatestIsHead(db: Tables, hostIDs: set<UUID>, latest: seq<Record>, rows: seq<MetricRecord>, result: map<UUID, Snapshot>,
                     hostID: UUID, all: seq<Record>, allRows: seq<MetricRecord>)
    requires AreLatest(db, hostIDs, latest) && SelectsMetrics(db, IDs(latest), rows) && LatestByHost(latest, rows, result)
    requires SelectsHost(db, hostID, all) && SelectsMetrics(db, IDs(all), allRows)
    ensures hostID in result <==> hostID in hostIDs && Timestamps(db, hostID) != {}
    ensures hostID in result ==> all != [] && result[hostID] == Loaded(all, allRows)[0]
  {
    if hostID in result {
      var i :| 0 <= i < |latest| && latest[i].hostID == hostID;
      assert latest[i] in latest;
      StoredTime(db, latest[i]);
      HeadIsLatest(db, hostID, all, latest[i]);
      assert latest[i].id in IDs(latest) && all[0].id in IDs(all);
      OwnRowsAgree(db, IDs(latest), rows, IDs(all), allRows, latest[i].id);
    }
    if hostID in hostIDs && Timestamps(db, hostID) != {} {
      HasLatest(db, hostIDs, latest, hostID, all);
    }
  }

  lemma HasLatest(db: Tables, hostIDs: set<UUID>, latest: seq<Record>, hostID: UUID, all: seq<Record>)
    requires AreLatest(db, hostIDs, latest) && SelectsHost(db, hostID, all)
    requires hostID in hostIDs && Timestamps(db, hostID) != {}
    ensures hostID in Hosts(latest)
  {
    var t :| t in Timestamps(db, hostID);
    var j := TimeIsListed(db, hostID, all, t);
    NothingAboveFirst(db, hostID, all);
    assert all[0] in all;
    assert all[0] in latest;
    var i :| 0 <= i < |latest| && latest[i] == all[0];
  }

  /** The record of rank 0 heads its host's listing. */
  lemma HeadIsLatest(db: Tables, hostID: UUID, all: seq<Record>, r: Record)
    requires SelectsHost(db, hostID, all) && RecordIsStored(db, r) && r.hostID == hostID && Rank(db, r) == 0
    ensures all != [] && all[0] == r
  {
    var i :| 0 <= i < |all| && all[i] == r;
    RankIsIndex(db, hostID, all, i);
  }

  // ---------------------------------------------------------------- every query has an answer

  /** A set whose elements the order tells apart can be listed in it. */
  lemma {:induction false} CanBeListed<T(!new)>(s: set<T>, before: (T, T) -> bool) returns (rows: seq<T>)
    requires forall x, y, z :: before(x, y) && before(y, z) ==> before(x, z)
    requires forall x, y :: x in s && y in s ==> before(x, y) || x == y || before(y, x)
    ensures Sorted(rows, before) && forall r :: r in rows <==> r in s
    decreases |s|
  {
    rows := [];
    if s != {} {
      var x := SomeOf(s);
      var rest := CanBeListed(s - {x}, before);
      rows := Placed(rest, x, before);
    }
  }

  lemma {:induction false} Placed<T(!new)>(rows: seq<T>, x: T, before: (T, T) -> bool) returns (more: seq<T>)
    requires Sorted(rows, before) && forall x, y, z :: before(x, y) && before(y, z) ==> before(x, z)
    requires forall y :: y in rows ==> before(x, y) || before(y, x)
    ensures Sorted(more, before) && forall r :: r in more <==> r == x || r in rows
  {
    if rows == [] || before(x, rows[0]) {
      more := [x] + rows;
      assert forall r :: r in more <==> r == x || r in rows;
    } else {
      assert rows[0] in rows;
      var rest := Placed(rows[1..], x, before);
      more := [rows[0]] + rest;
      assert rows == [rows[0]] + rows[1..];
      assert forall r :: r in rest ==> before(rows[0], r);
    }
  }

  /** Each of the queries has an answer, whatever the tables hold. */
  lemma QueriesHaveAnswers(db: Tables, hostIDs: set<UUID>, limit: nat, hostID: UUID, ids: set<nat>)
      returns (metrics: seq<MetricRecord>, all: seq<Record>, recent: seq<Record>, ordered: seq<Record>)
    requires Valid(db)
    ensures SelectsMetrics(db, ids, metrics) && SelectsHost(db, hostID, all)
    ensures SelectsRecent(db, hostIDs, limit, recent) && SelectsDistinctOn(db, hostIDs, ordered, FirstOfEach(ordered))
  {
    metrics := CanBeListed((set k | k in db.metrics && k.0 in ids :: MetricRecord(k.0, k.1, db.metrics[k])), ByPosition);
    TellsRecordsApart(db);
    all := CanBeListed(Records(db, {hostID}), ByTimeDesc);
    recent := CanBeListed((set r | r in Records(db, hostIDs) && Rank(db, r) < limit), ByHostThenTimeDesc);
    ordered := CanBeListed(Records(db, hostIDs), ByHostThenTimeDesc);
  }

  ghost function Records(db: Tables, hostIDs: set<UUID>): set<Record> {
    set id | id in db.snapshots && db.snapshots[id].hostID in hostIDs :: Record(id, db.snapshots[id].hostID, db.snapshots[id].timestamp)
  }

  /** unique (host_id, timestamp) */
  lemma TellsRecordsApart(db: Tables)
    requires Valid(db)
    ensures forall a, b :: RecordIsStored(db, a) && RecordIsStored(db, b) && a.hostID == b.hostID && a.timestamp == b.timestamp ==> a == b
  {
    forall a, b | RecordIsStored(db, a) && RecordIsStored(db, b) && a.hostID == b.hostID && a.timestamp == b.timestamp
      ensures a == b
    {
      assert db.snapshots[a.id] == db.snapshots[b.id];
    }
  }
}
