/** Creating metric snapshots, in one transaction that keeps the newest 500 of the host
    (internal/host/sqlite/host_metric_snapshot.go:83-123, internal/host/postgres). */
module SnapshotStore {
  import opened Identifiers
  import opened Ordering

  /** A point in time, in the order of the database column. */
  type Timestamp = nat

  const MAX_SNAPSHOTS_PER_HOST := 500

  const TWO_63 := 0x8000_0000_0000_0000
  const TWO_64 := 0x1_0000_0000_0000_0000

  /** Go's uint64 and int64. */
  type Uint64 = n: nat | n < 0x1_0000_0000_0000_0000
  type Int64 = n: int | -0x8000_0000_0000_0000 <= n < 0x8000_0000_0000_0000

  datatype HostMetric = HostMetric(cpu: real, memory: Uint64, disk: Uint64, rx: Uint64, tx: Uint64)

  datatype Snapshot = Snapshot(hostID: UUID, timestamp: Timestamp, metrics: seq<HostMetric>)

  /** A row of `host_metric`, without its key. */
  datatype MetricRow = MetricRow(cpu: real, memory: Int64, disk: Int64, rx: Int64, tx: Int64)

  /** The conversion int64(u), which wraps. */
  function ToInt64(u: Uint64): Int64 {
    if u < TWO_63 then u else u - TWO_64
  }

  function ToRow(m: HostMetric): MetricRow {
    MetricRow(m.cpu, ToInt64(m.memory), ToInt64(m.disk), ToInt64(m.rx), ToInt64(m.tx))
  }

  /** The check constraints of `host_metric`. */
  predicate Checked(row: MetricRow) {
    row.cpu >= 0.0 && NonNegative(row)
  }

  predicate NonNegative(row: MetricRow) {
    row.memory >= 0 && row.disk >= 0 && row.rx >= 0 && row.tx >= 0
  }

  /** The conversion uint64(i), which wraps. */
  function ToUint64(i: Int64): Uint64 {
    if i >= 0 then i else i + TWO_64
  }

  function Decoded(row: MetricRow): HostMetric {
    HostMetric(row.cpu, ToUint64(row.memory), ToUint64(row.disk), ToUint64(row.rx), ToUint64(row.tx))
  }

  /** Reading a row back; None is the error for a negative unsigned value. */
  function FromRow(row: MetricRow): Option<HostMetric> {
    if NonNegative(row) then Some(Decoded(row)) else None
  }

  /** A metric is accepted exactly when its counters fit an int64 (and its CPU share
      is not negative), and every metric accepted is read back as it was. */
  lemma AcceptedMetricsRoundTrip(m: HostMetric)
    ensures Checked(ToRow(m)) <==> m.cpu >= 0.0 && m.memory < TWO_63 && m.disk < TWO_63 && m.rx < TWO_63 && m.tx < TWO_63
    ensures Checked(ToRow(m)) ==> FromRow(ToRow(m)) == Some(m)
  {
  }

  datatype SnapshotRow = SnapshotRow(hostID: UUID, timestamp: Timestamp)

  datatype Tables = Tables(
    hosts: set<UUID>,
    snapshots: map<nat, SnapshotRow>,
    metrics: map<(nat, nat), MetricRow>,     // keyed by snapshot and position
    nextID: nat
  )

  function Timestamps(db: Tables, hostID: UUID): set<Timestamp> {
    set id | id in db.snapshots && db.snapshots[id].hostID == hostID :: db.snapshots[id].timestamp
  }

  /** unique (host_id, timestamp) would be violated. */
  predicate Exists(db: Tables, hostID: UUID, timestamp: Timestamp) {
    exists id :: id in db.snapshots && db.snapshots[id] == SnapshotRow(hostID, timestamp)
  }

  predicate AllChecked(metrics: seq<HostMetric>) {
    forall i :: 0 <= i < |metrics| ==> Checked(ToRow(metrics[i]))
  }

  /** The table once the first `n` metrics of snapshot `id` are inserted. */
  function InsertedRows(table: map<(nat, nat), MetricRow>, id: nat, metrics: seq<HostMetric>, n: nat): map<(nat, nat), MetricRow>
    requires n <= |metrics|
  {
    if n == 0 then table
    else InsertedRows(table, id, metrics, n - 1)[(id, n - 1) := ToRow(metrics[n - 1])]
  }

  lemma {:induction false} InsertedRowsHold(table: map<(nat, nat), MetricRow>, id: nat, metrics: seq<HostMetric>, n: nat)
    requires n <= |metrics|
    ensures var rows := InsertedRows(table, id, metrics, n);
            && (forall k :: k in rows <==> k in table || (k.0 == id && k.1 < n))
            && (forall i: nat :: i < n ==> rows[(id, i)] == ToRow(metrics[i]))
            && (forall k :: k in table && k.0 != id ==> rows[k] == table[k])
  {
    if n > 0 {
      InsertedRowsHold(table, id, metrics, n - 1);
    }
  }

  /** select id ... where host_id = ? order by timestamp desc limit 500: as a host's
      timestamps are unique, a row is listed when fewer than 500 are later. */
  ghost predicate Listed(db: Tables, id: nat)
    requires id in db.snapshots
  {
    |Above(Timestamps(db, db.snapshots[id].hostID), db.snapshots[id].timestamp)| < MAX_SNAPSHOTS_PER_HOST
  }

  /** delete from host_metric_snapshot where host_id = ? and id not in (...), with
      `on delete cascade` on the metrics. */
  ghost function Prune(db: Tables, hostID: UUID): Tables {
    var kept := map id | id in db.snapshots && (db.snapshots[id].hostID != hostID || Listed(db, id)) :: db.snapshots[id];
    db.(snapshots := kept, metrics := map k | k in db.metrics && k.0 in kept :: db.metrics[k])
  }

  function Insert(db: Tables, data: Snapshot): Tables {
    db.(snapshots := db.snapshots[db.nextID := SnapshotRow(data.hostID, data.timestamp)],
        metrics := InsertedRows(db.metrics, db.nextID, data.metrics, |data.metrics|),
        nextID := db.nextID + 1)
  }

  /** The insertions meet the schema's constraints. */
  predicate Insertable(db: Tables, data: Snapshot) {
    data.hostID in db.hosts && !Exists(db, data.hostID, data.timestamp) && AllChecked(data.metrics)
  }

  /** The tables after one call, and the snapshot returned, or None for an error. */
  ghost function Create(db: Tables, data: Snapshot): (Tables, Option<Snapshot>) {
    if !Insertable(db, data) then (db, None)
    else
      var pruned := Prune(Insert(db, data), data.hostID);
      if db.nextID in pruned.snapshots then (pruned, Some(data)) else (db, None)
  }

  // ---------------------------------------------------------------- invariant

  /** Snapshot `id` holds exactly these metrics, in this order. */
  ghost predicate HasMetrics(db: Tables, id: nat, metrics: seq<HostMetric>) {
    && (forall i: nat :: (id, i) in db.metrics <==> i < |metrics|)
    && (forall i: nat :: i < |metrics| ==> db.metrics[(id, i)] == ToRow(metrics[i]))
  }

  /** The schema's constraints. */
  ghost predicate Consistent(db: Tables) {
    && (forall id :: id in db.snapshots ==> id < db.nextID && db.snapshots[id].hostID in db.hosts)
    && (forall a, b :: a in db.snapshots && b in db.snapshots && db.snapshots[a] == db.snapshots[b] ==> a == b)
    && (forall k :: k in db.metrics ==> k.0 in db.snapshots && Checked(db.metrics[k]))
  }

  ghost predicate Valid(db: Tables) {
    && Consistent(db)
    && (forall h :: Top(Timestamps(db, h), MAX_SNAPSHOTS_PER_HOST) == Timestamps(db, h))
  }

  lemma PruneIsTop(db: Tables, hostID: UUID, h: UUID)
    requires forall id :: id in db.snapshots ==> id < db.nextID
    ensures Timestamps(Prune(db, hostID), h)
         == if h == hostID then Top(Timestamps(db, h), MAX_SNAPSHOTS_PER_HOST) else Timestamps(db, h)
  {
    var pruned := Prune(db, hostID);
    forall t
      ensures t in Timestamps(pruned, h) <==>
              t in (if h == hostID then Top(Timestamps(db, h), MAX_SNAPSHOTS_PER_HOST) else Timestamps(db, h))
    {
      if t in Timestamps(db, h) {
        var id :| id in db.snapshots && db.snapshots[id].hostID == h && db.snapshots[id].timestamp == t;
        if h != hostID || |Above(Timestamps(db, h), t)| < MAX_SNAPSHOTS_PER_HOST {
          assert pruned.snapshots[id] == db.snapshots[id];
        }
      }
    }
  }

  lemma InsertTimestamps(db: Tables, data: Snapshot, h: UUID)
    requires db.nextID !in db.snapshots
    ensures Timestamps(Insert(db, data), h) == Timestamps(db, h) + if h == data.hostID then {data.timestamp} else {}
  {
    var after := Insert(db, data);
    assert after.snapshots[db.nextID] == SnapshotRow(data.hostID, data.timestamp);
    forall t | t in Timestamps(db, h)
      ensures t in Timestamps(after, h)
    {
      var id :| id in db.snapshots && db.snapshots[id].hostID == h && db.snapshots[id].timestamp == t;
      assert after.snapshots[id] == db.snapshots[id];
    }
  }

  /** One call, whatever its outcome: a submission that the constraints allow, or
      would allow but for being there already, leaves the host with the newest 500
      of what it had and the submitted time; any other leaves it alone. */
  lemma CreateTimestamps(db: Tables, data: Snapshot, h: UUID)
    requires Valid(db)
    ensures Timestamps(Create(db, data).0, h)
         == if h == data.hostID && data.hostID in db.hosts && AllChecked(data.metrics)
            then Top(Timestamps(db, h) + {data.timestamp}, MAX_SNAPSHOTS_PER_HOST)
            else Timestamps(db, h)
  {
    var s, t := Timestamps(db, h), data.timestamp;
    if Insertable(db, data) {
      var inserted := Insert(db, data);
      InsertTimestamps(db, data, h);
      PruneIsTop(inserted, data.hostID, h);
      if db.nextID !in Prune(inserted, data.hostID).snapshots && h == data.hostID {
        assert !Listed(inserted, db.nextID);
        OutrankedInsertChangesNothing(s, t);
      }
    } else if h == data.hostID && data.hostID in db.hosts && AllChecked(data.metrics) {
      var id :| id in db.snapshots && db.snapshots[id] == SnapshotRow(data.hostID, t);
      assert t in s;
      assert s + {t} == s;
    }
  }

  /** A time older than 500 others does not disturb them. */
  lemma OutrankedInsertChangesNothing(s: set<Timestamp>, t: Timestamp)
    requires Top(s, MAX_SNAPSHOTS_PER_HOST) == s
    requires |Above(s + {t}, t)| >= MAX_SNAPSHOTS_PER_HOST
    ensures Top(s + {t}, MAX_SNAPSHOTS_PER_HOST) == s
  {
    var k := MAX_SNAPSHOTS_PER_HOST;
    TopIsLargest(s, k);
    assert Above(s + {t}, t) == Above(s, t);
    SubsetSize(Above(s, t), s);
    assert Above(s, t) == s by { SameSize(Above(s, t), s); }
    forall u | u in s
      ensures Above(s + {t}, u) == Above(s, u)
    {
      assert u in Above(s, t);
    }
  }

  lemma CreateKeepsValid(db: Tables, data: Snapshot)
    requires Valid(db)
    ensures Valid(Create(db, data).0) && Create(db, data).0.hosts == db.hosts
  {
    CreateIsConsistent(db, data);
    var after := Create(db, data).0;
    forall h
      ensures Top(Timestamps(after, h), MAX_SNAPSHOTS_PER_HOST) == Timestamps(after, h)
    {
      CreateTimestamps(db, data, h);
      TopIsIdempotent(Timestamps(db, h) + {data.timestamp}, MAX_SNAPSHOTS_PER_HOST);
    }
  }

  lemma CreateIsConsistent(db: Tables, data: Snapshot)
    requires Consistent(db)
    ensures Consistent(Create(db, data).0) && Create(db, data).0.hosts == db.hosts
  {
    if Insertable(db, data) {
      InsertIsConsistent(db, data);
    }
  }

  lemma InsertIsConsistent(db: Tables, data: Snapshot)
    requires Consistent(db) && Insertable(db, data)
    ensures Consistent(Insert(db, data))
  {
    InsertedRowsHold(db.metrics, db.nextID, data.metrics, |data.metrics|);
  }

  lemma TopIsIdempotent(s: set<nat>, k: nat)
    ensures Top(Top(s, k), k) == Top(s, k)
  {
    forall t | t in s
      ensures |Above(Top(s, k), t)| < k <==> |Above(s, t)| < k
    {
      TopKeepsRanks(s, k, t);
    }
  }

  /** A failed call leaves every table as it was; a successful one returns what was
      submitted, and touches no other host's snapshot and no retained snapshot's
      metrics. */
  lemma CreateIsAtomic(db: Tables, data: Snapshot, id: nat)
    requires Valid(db)
    ensures var (after, r) := Create(db, data);
            && (r.None? ==> after == db)
            && (r.Some? ==>
                  && r.value == data && db.nextID in after.snapshots
                  && after.snapshots[db.nextID] == SnapshotRow(data.hostID, data.timestamp)
                  && HasMetrics(after, db.nextID, data.metrics))
            && (id in db.snapshots && db.snapshots[id].hostID != data.hostID ==> id in after.snapshots)
            && (id in db.snapshots && id in after.snapshots ==>
                  && after.snapshots[id] == db.snapshots[id]
                  && forall i: nat :: (id, i) in after.metrics <==> (id, i) in db.metrics)
            && (id in db.snapshots ==>
                  forall i: nat :: (id, i) in after.metrics && (id, i) in db.metrics ==> after.metrics[(id, i)] == db.metrics[(id, i)])
  {
    var (after, r) := Create(db, data);
    if r.Some? {
      InsertedRowsHold(db.metrics, db.nextID, data.metrics, |data.metrics|);
      var inserted := Insert(db, data);
      assert forall i: nat :: (db.nextID, i) in inserted.metrics <==> i < |data.metrics|;
      assert forall k :: k in db.metrics ==> k in inserted.metrics && inserted.metrics[k] == db.metrics[k];
      assert forall i: nat :: id in db.snapshots && (id, i) in inserted.metrics ==> (id, i) in db.metrics;
    }
  }

  /** When a call fails, exactly. */
  lemma CreateFailsExactly(db: Tables, data: Snapshot)
    requires Valid(db)
    ensures Create(db, data).1.None? <==>
            || data.hostID !in db.hosts
            || data.timestamp in Timestamps(db, data.hostID)
            || !AllChecked(data.metrics)
            || |Above(Timestamps(db, data.hostID), data.timestamp)| >= MAX_SNAPSHOTS_PER_HOST
  {
    if data.timestamp in Timestamps(db, data.hostID) {
      var id :| id in db.snapshots && db.snapshots[id].hostID == data.hostID && db.snapshots[id].timestamp == data.timestamp;
      assert Exists(db, data.hostID, data.timestamp);
    }
    if Insertable(db, data) {
      var inserted := Insert(db, data);
      InsertTimestamps(db, data, data.hostID);
      assert Above(Timestamps(inserted, data.hostID), data.timestamp) == Above(Timestamps(db, data.hostID), data.timestamp);
      assert db.nextID in Prune(inserted, data.hostID).snapshots <==> Listed(inserted, db.nextID);
    }
  }

  // ---------------------------------------------------------------- any sequence of calls

  ghost function CreateAll(db: Tables, attempts: seq<Snapshot>): Tables {
    if attempts == [] then db else Create(CreateAll(db, attempts[..|attempts| - 1]), attempts[|attempts| - 1]).0
  }

  /** The times ever validly submitted for a host. */
  ghost function SubmittedTimes(attempts: seq<Snapshot>, hostID: UUID): set<Timestamp> {
    set i | 0 <= i < |attempts| && attempts[i].hostID == hostID && AllChecked(attempts[i].metrics) :: attempts[i].timestamp
  }

  lemma {:induction false} CreateAllKeepsValid(db: Tables, attempts: seq<Snapshot>)
    requires Valid(db)
    ensures Valid(CreateAll(db, attempts)) && CreateAll(db, attempts).hosts == db.hosts
  {
    if attempts != [] {
      CreateAllKeepsValid(db, attempts[..|attempts| - 1]);
      CreateKeepsValid(CreateAll(db, attempts[..|attempts| - 1]), attempts[|attempts| - 1]);
    }
  }

  ghost predicate NoSnapshots(db: Tables) {
    db.snapshots == map[] && db.metrics == map[]
  }

  /** Retention after any sequence of calls: a known host keeps exactly the 500
      latest of all the distinct times ever validly submitted for it. */
  lemma RetentionIsOfflineTop(db: Tables, attempts: seq<Snapshot>, hostID: UUID)
    requires NoSnapshots(db) && hostID in db.hosts
    ensures var kept, submitted := Timestamps(CreateAll(db, attempts), hostID), SubmittedTimes(attempts, hostID);
            && kept <= submitted && |kept| == (if |submitted| < 500 then |submitted| else 500)
            && forall t, u :: t in kept && u in submitted - kept ==> u < t
  {
    RetentionIsTop(db, attempts, hostID);
    TopIsLargest(SubmittedTimes(attempts, hostID), MAX_SNAPSHOTS_PER_HOST);
  }

  lemma {:induction false} RetentionIsTop(db: Tables, attempts: seq<Snapshot>, hostID: UUID)
    requires NoSnapshots(db) && hostID in db.hosts
    ensures Timestamps(CreateAll(db, attempts), hostID) == Top(SubmittedTimes(attempts, hostID), MAX_SNAPSHOTS_PER_HOST)
  {
    if attempts == [] {
      assert SubmittedTimes(attempts, hostID) == {};
    } else {
      var n := |attempts| - 1;
      var before, last := CreateAll(db, attempts[..n]), attempts[n];
      RetentionIsTop(db, attempts[..n], hostID);
      CreateAllKeepsValid(db, attempts[..n]);
      CreateTimestamps(before, last, hostID);
      SubmittedOneMore(attempts, hostID);
      if last.hostID == hostID && AllChecked(last.metrics) {
        TopAfterInsert(SubmittedTimes(attempts[..n], hostID), MAX_SNAPSHOTS_PER_HOST, last.timestamp);
      } else {
        assert SubmittedTimes(attempts, hostID) == SubmittedTimes(attempts[..n], hostID);
      }
    }
  }

  lemma SubmittedOneMore(attempts: seq<Snapshot>, hostID: UUID)
    requires attempts != []
    ensures var n := |attempts| - 1;
            SubmittedTimes(attempts, hostID)
            == SubmittedTimes(attempts[..n], hostID)
               + if attempts[n].hostID == hostID && AllChecked(attempts[n].metrics) then {attempts[n].timestamp} else {}
  {
    var n := |attempts| - 1;
    forall t | t in SubmittedTimes(attempts[..n], hostID)
      ensures t in SubmittedTimes(attempts, hostID)
    {
      var i :| 0 <= i < n && attempts[..n][i].hostID == hostID && AllChecked(attempts[..n][i].metrics) && attempts[..n][i].timestamp == t;
      assert attempts[i].timestamp == t;
    }
    forall t | t in SubmittedTimes(attempts, hostID) && t != attempts[n].timestamp
      ensures t in SubmittedTimes(attempts[..n], hostID)
    {
      var i :| 0 <= i < |attempts| && attempts[i].hostID == hostID && AllChecked(attempts[i].metrics) && attempts[i].timestamp == t;
      assert attempts[..n][i].timestamp == t;
    }
    if attempts[n].timestamp in SubmittedTimes(attempts, hostID) && !(attempts[n].hostID == hostID && AllChecked(attempts[n].metrics)) {
      var i :| 0 <= i < |attempts| && attempts[i].hostID == hostID && AllChecked(attempts[i].metrics) && attempts[i].timestamp == attempts[n].timestamp;
      assert attempts[..n][i].timestamp == attempts[n].timestamp;
    }
  }

  /** Submission `i` is the first valid one for its host and time. */
  ghost predicate FirstValid(attempts: seq<Snapshot>, i: nat) {
    && i < |attempts| && AllChecked(attempts[i].metrics)
    && forall j :: 0 <= j < i ==> !(attempts[j].hostID == attempts[i].hostID && attempts[j].timestamp == attempts[i].timestamp
                                    && AllChecked(attempts[j].metrics))
  }

  /** Every snapshot kept holds, in order, the metrics of the first valid submission
      for its host and time; later ones for the same time never replace them, not
      even after the first was pruned. */
  lemma {:induction false} RetainedIsFirstSubmitted(db: Tables, attempts: seq<Snapshot>, id: nat) returns (i: nat)
    requires NoSnapshots(db) && id in CreateAll(db, attempts).snapshots
    ensures FirstValid(attempts, i)
    ensures var after := CreateAll(db, attempts);
            && after.snapshots[id] == SnapshotRow(attempts[i].hostID, attempts[i].timestamp)
            && HasMetrics(after, id, attempts[i].metrics)
  {
    var n := |attempts| - 1;
    var before, last := CreateAll(db, attempts[..n]), attempts[n];
    CreateAllKeepsValid(db, attempts[..n]);
    CreateIsAtomic(before, last, id);
    if id in before.snapshots {
      i := RetainedIsFirstSubmitted(db, attempts[..n], id);
      assert attempts[..n][i] == attempts[i];
      assert forall j :: 0 <= j < i ==> attempts[..n][j] == attempts[j];
    } else {
      i := n;
      CreateFailsExactly(before, last);
      RetentionIsTop(db, attempts[..n], last.hostID);
      var submitted := SubmittedTimes(attempts[..n], last.hostID);
      TopKeepsRanks(submitted, MAX_SNAPSHOTS_PER_HOST, last.timestamp);
      assert last.timestamp !in submitted;
      forall j | 0 <= j < n
        ensures !(attempts[j].hostID == last.hostID && attempts[j].timestamp == last.timestamp && AllChecked(attempts[j].metrics))
      {
        assert attempts[..n][j] == attempts[j];
      }
    }
  }

  // ---------------------------------------------------------------- the repository

  class SnapshotRepository {
    var hosts: set<UUID>
    var snapshots: map<nat, SnapshotRow>
    var metrics: map<(nat, nat), MetricRow>
    var nextID: nat

    function View(): Tables
      reads this
    {
      Tables(hosts, snapshots, metrics, nextID)
    }

    constructor (hosts: set<UUID>)
      ensures View() == Tables(hosts, map[], map[], 0)
    {
      this.hosts, snapshots, metrics, nextID := hosts, map[], map[], 0;
    }

    /** `CreateHostMetricSnapshot`: the transaction is committed only when it
        returns a snapshot. */
    method CreateHostMetricSnapshot(data: Snapshot) returns (r: Option<Snapshot>)
      requires Valid(View())
      modifies this
      ensures Valid(View())
      ensures (View(), r) == Create(old(View()), data)
    {
      CreateKeepsValid(View(), data);
      var tx: Tables;
      tx, r := Transact(View(), data);
      if r.Some? {
        hosts, snapshots, metrics, nextID := tx.hosts, tx.snapshots, tx.metrics, tx.nextID;
      }
    }

    /** The statements of the transaction; `tx` is what a commit would leave. */
    static method Transact(db: Tables, data: Snapshot) returns (tx: Tables, r: Option<Snapshot>)
      requires Valid(db)
      ensures r == Create(db, data).1
      ensures r.Some? ==> tx == Create(db, data).0
    {
      tx := db;
      if data.hostID !in db.hosts || Exists(db, data.hostID, data.timestamp) {
        return tx, None;
      }
      var snapshotID := db.nextID;
      var ok, rows := InsertRows(db.metrics, snapshotID, data.metrics);
      if !ok {
        return tx, None;
      }
      tx := Tables(db.hosts, db.snapshots[snapshotID := SnapshotRow(data.hostID, data.timestamp)], rows, snapshotID + 1);
      assert tx == Insert(db, data);
      var latest := LatestIDs(tx, data.hostID);
      tx := DeleteOthers(tx, data.hostID, latest);
      if snapshotID !in tx.snapshots {
        return tx, None;
      }
      CreateIsAtomic(db, data, 0);
      var value := ReadSnapshot(tx, snapshotID, data.metrics);
      r := Some(value);
    }

    /** The loop that inserts the metric rows of snapshot `id`. */
    static method InsertRows(table: map<(nat, nat), MetricRow>, id: nat, metrics: seq<HostMetric>)
      returns (ok: bool, rows: map<(nat, nat), MetricRow>)
      ensures ok <==> AllChecked(metrics)
      ensures ok ==> rows == InsertedRows(table, id, metrics, |metrics|)
    {
      rows := table;
      for position := 0 to |metrics|
        invariant AllChecked(metrics[..position])
        invariant rows == InsertedRows(table, id, metrics, position)
      {
        var row := ToRow(metrics[position]);
        if !Checked(row) {
          return false, table;
        }
        var key: (nat, nat) := (id, position);
        rows := rows[key := row];
      }
      assert metrics[..|metrics|] == metrics;
      ok := true;
    }

    /** `getSnapshotByID`: the row, and its metrics in position order. */
    static method ReadSnapshot(tx: Tables, id: nat, ghost expected: seq<HostMetric>) returns (r: Snapshot)
      requires id in tx.snapshots && HasMetrics(tx, id, expected) && AllChecked(expected)
      ensures r == Snapshot(tx.snapshots[id].hostID, tx.snapshots[id].timestamp, expected)
    {
      var values: seq<HostMetric> := [];
      while (id, |values|) in tx.metrics
        invariant values <= expected
        decreases |expected| - |values|
      {
        AcceptedMetricsRoundTrip(expected[|values|]);
        values := values + [FromRow(tx.metrics[(id, |values|)]).value];
      }
      r := Snapshot(tx.snapshots[id].hostID, tx.snapshots[id].timestamp, values);
    }

    /** The subquery of the deletion. */
    static method LatestIDs(tx: Tables, hostID: UUID) returns (ids: set<nat>)
      ensures forall id :: id in tx.snapshots && tx.snapshots[id].hostID == hostID ==> (id in ids <==> Listed(tx, id))
    {
      var times := Timestamps(tx, hostID);
      ids := set id | id in tx.snapshots && tx.snapshots[id].hostID == hostID
                      && |set t | t in times && t > tx.snapshots[id].timestamp| < MAX_SNAPSHOTS_PER_HOST;
    }

    static method DeleteOthers(tx: Tables, hostID: UUID, ids: set<nat>) returns (r: Tables)
      requires forall id :: id in tx.snapshots && tx.snapshots[id].hostID == hostID ==> (id in ids <==> Listed(tx, id))
      ensures r == Prune(tx, hostID)
    {
      var kept := map id | id in tx.snapshots && (tx.snapshots[id].hostID != hostID || id in ids) :: tx.snapshots[id];
      r := tx.(snapshots := kept, metrics := map k | k in tx.metrics && k.0 in kept :: tx.metrics[k]);
    }
  }
}
