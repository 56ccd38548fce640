/** What an export says, of any store, readable or not
    (internal/web/handlers/hosts.go:951-1016). */
module HostExport {
  import opened Identifiers
  import opened Ordering
  import opened Text
  import opened SecretCipher
  import opened HostService
  import opened HostImport

  /** Row `k` belongs to the host. */
  predicate IsOwn(methods: seq<Method>, k: nat, hostID: UUID) {
    k < |methods| && methods[k].hostID == hostID
  }

  /** The secret of row `k` can be read under the host. */
  predicate IsReadable(s: Store, c: Crypto, methods: seq<Method>, k: nat, hostID: UUID)
    requires k < |methods|
  {
    GetSecret(s, c, hostID, methods[k].id).Ok?
  }

  /** `rows` are the host's rows that can be read, or those that cannot. */
  ghost predicate AreRows(s: Store, c: Crypto, methods: seq<Method>, hostID: UUID, readable: bool, rows: seq<nat>) {
    && InTurn(rows)
    && forall k: nat :: k in rows <==> IsOwn(methods, k, hostID) && IsReadable(s, c, methods, k, hostID) == readable
  }

  /** The payload says what the row says, with the secret that was read. */
  predicate Says(s: Store, c: Crypto, hostID: UUID, payload: MethodDTO, m: Method) {
    && payload.name == m.name && payload.kind == m.kind && payload.username == m.username
    && payload.port == m.port && payload.description == m.description
    && GetSecret(s, c, hostID, m.id) == Ok(payload.secret)
  }

  /** The payloads stand for these rows, one for one. */
  predicate SaysAll(s: Store, c: Crypto, hostID: UUID, payloads: seq<MethodDTO>, methods: seq<Method>, rows: seq<nat>) {
    |payloads| == |rows| && forall j :: 0 <= j < |rows| ==> rows[j] < |methods| && Says(s, c, hostID, payloads[j], methods[rows[j]])
  }

  /** The warnings name the host and these rows, one for one. */
  predicate WarnsOf(h: Host, warnings: seq<(Host, Method)>, methods: seq<Method>, rows: seq<nat>) {
    |warnings| == |rows| && forall j :: 0 <= j < |rows| ==> rows[j] < |methods| && warnings[j] == (h, methods[rows[j]])
  }

  lemma NextRow(s: Store, c: Crypto, methods: seq<Method>, hostID: UUID, readable: bool, rows: seq<nat>)
    requires methods != [] && AreRows(s, c, methods[..|methods| - 1], hostID, readable, rows)
    ensures var n := |methods| - 1;
            AreRows(s, c, methods, hostID, readable,
                    rows + if methods[n].hostID == hostID && IsReadable(s, c, methods, n, hostID) == readable then [n] else [])
  {
    var n := |methods| - 1;
    var before := methods[..n];
    var more := if methods[n].hostID == hostID && IsReadable(s, c, methods, n, hostID) == readable then [n] else [];
    forall a | 0 <= a < |rows|
      ensures rows[a] < n
    {
      assert rows[a] in rows && IsOwn(before, rows[a], hostID);
    }
    forall k: nat
      ensures k in rows + more <==> IsOwn(methods, k, hostID) && IsReadable(s, c, methods, k, hostID) == readable
    {
      assert k in rows + more <==> k in rows || k in more;
      assert k < n ==> before[k] == methods[k] && (IsOwn(methods, k, hostID) <==> IsOwn(before, k, hostID));
    }
  }

  /** The payloads and warnings, one row at a time. */
  lemma ExportStep(s: Store, c: Crypto, h: Host, methods: seq<Method>)
    requires methods != []
    ensures var before, last := methods[..|methods| - 1], methods[|methods| - 1];
            var secret := GetSecret(s, c, h.id, last.id);
            && MethodPayloads(s, c, h.id, MethodsOf(methods, h.id))
               == MethodPayloads(s, c, h.id, MethodsOf(before, h.id))
                  + (if last.hostID == h.id && secret.Ok? then [MethodPayload(last, secret.value)] else [])
            && MethodWarnings(s, c, h, MethodsOf(methods, h.id))
               == MethodWarnings(s, c, h, MethodsOf(before, h.id)) + (if last.hostID == h.id && secret.Err? then [(h, last)] else [])
            && MethodsOf(methods, h.id) == MethodsOf(before, h.id) + if last.hostID == h.id then [last] else []
  {
    var own, last := MethodsOf(methods[..|methods| - 1], h.id), methods[|methods| - 1];
    assert (own + [last])[..|own|] == own && own + [] == own;
  }

  lemma SaysOneMore(s: Store, c: Crypto, hostID: UUID, payloads: seq<MethodDTO>, methods: seq<Method>, rows: seq<nat>)
    requires methods != [] && SaysAll(s, c, hostID, payloads, methods[..|methods| - 1], rows)
    ensures SaysAll(s, c, hostID, payloads, methods, rows)
    ensures IsReadable(s, c, methods, |methods| - 1, hostID) ==>
              var m := methods[|methods| - 1];
              SaysAll(s, c, hostID, payloads + [MethodPayload(m, GetSecret(s, c, hostID, m.id).value)], methods, rows + [|methods| - 1])
  {
  }

  lemma WarnsOneMore(h: Host, warnings: seq<(Host, Method)>, methods: seq<Method>, rows: seq<nat>)
    requires methods != [] && WarnsOf(h, warnings, methods[..|methods| - 1], rows)
    ensures WarnsOf(h, warnings, methods, rows)
    ensures WarnsOf(h, warnings + [(h, methods[|methods| - 1])], methods, rows + [|methods| - 1])
  {
  }

  /** The methods in a host's item are its rows whose secret can be read, in their order,
      each with that secret; the warnings name the others, each once. */
  lemma {:induction false} MethodsAreExported(s: Store, c: Crypto, h: Host, methods: seq<Method>) returns (kept: seq<nat>, skipped: seq<nat>)
    ensures AreRows(s, c, methods, h.id, true, kept)
    ensures AreRows(s, c, methods, h.id, false, skipped)
    ensures SaysAll(s, c, h.id, MethodPayloads(s, c, h.id, MethodsOf(methods, h.id)), methods, kept)
    ensures WarnsOf(h, MethodWarnings(s, c, h, MethodsOf(methods, h.id)), methods, skipped)
    ensures |kept| + |skipped| == |MethodsOf(methods, h.id)|
  {
    kept, skipped := [], [];
    if methods != [] {
      var n := |methods| - 1;
      kept, skipped := MethodsAreExported(s, c, h, methods[..n]);
      NextRow(s, c, methods, h.id, true, kept);
      NextRow(s, c, methods, h.id, false, skipped);
      ExportStep(s, c, h, methods);
      SaysOneMore(s, c, h.id, MethodPayloads(s, c, h.id, MethodsOf(methods[..n], h.id)), methods, kept);
      WarnsOneMore(h, MethodWarnings(s, c, h, MethodsOf(methods[..n], h.id)), methods, skipped);
      if methods[n].hostID == h.id {
        if IsReadable(s, c, methods, n, h.id) {
          kept := kept + [n];
        } else {
          skipped := skipped + [n];
        }
      }
    }
  }

  /** An item of the export is that of one host. */
  ghost predicate ItemSays(s: Store, c: Crypto, h: Host, item: HostDTO) {
    && item.name == h.name && item.description == h.description && item.ip == h.ip
    && Elements(item.tags) == h.tags && Sorted(item.tags, Before)
    && exists kept :: AreRows(s, c, s.methods, h.id, true, kept) && SaysAll(s, c, h.id, item.methods, s.methods, kept)
  }

  /** Position `k` of the list of hosts and row `i` of the methods, in the order of both. */
  predicate AscendingPairs(pairs: seq<(nat, nat)>) {
    forall a, b :: 0 <= a < b < |pairs| ==>
      pairs[a].0 < pairs[b].0 || (pairs[a].0 == pairs[b].0 && pairs[a].1 < pairs[b].1)
  }

  /** The row belongs to the host, and its secret cannot be read. */
  predicate IsLost(s: Store, c: Crypto, hosts: seq<Host>, pair: (nat, nat)) {
    && pair.0 < |hosts| && IsOwn(s.methods, pair.1, hosts[pair.0].id)
    && !IsReadable(s, c, s.methods, pair.1, hosts[pair.0].id)
  }

  ghost predicate AreLost(s: Store, c: Crypto, hosts: seq<Host>, pairs: seq<(nat, nat)>) {
    AscendingPairs(pairs) && forall pair :: pair in pairs <==> IsLost(s, c, hosts, pair)
  }

  predicate WarnsOfAll(s: Store, hosts: seq<Host>, warnings: seq<(Host, Method)>, pairs: seq<(nat, nat)>) {
    |warnings| == |pairs| && forall w :: 0 <= w < |pairs| ==>
      && pairs[w].0 < |hosts| && pairs[w].1 < |s.methods|
      && warnings[w] == (hosts[pairs[w].0], s.methods[pairs[w].1])
  }

  function WithHost(k: nat, rows: seq<nat>): seq<(nat, nat)> {
    seq(|rows|, j requires 0 <= j < |rows| => (k, rows[j]))
  }

  /** The warnings name every row of these hosts whose secret cannot be read, each once. */
  lemma {:induction false} WarningsExactly(s: Store, c: Crypto, hosts: seq<Host>) returns (pairs: seq<(nat, nat)>)
    ensures AreLost(s, c, hosts, pairs) && WarnsOfAll(s, hosts, Warnings(s, c, hosts), pairs)
  {
    pairs := [];
    if hosts != [] {
      var n := |hosts| - 1;
      pairs := WarningsExactly(s, c, hosts[..n]);
      var kept, skipped := MethodsAreExported(s, c, hosts[n], s.methods);
      MoreLost(s, c, hosts, pairs, skipped);
      MoreWarnings(s, hosts, Warnings(s, c, hosts[..n]), pairs, MethodWarnings(s, c, hosts[n], MethodsOf(s.methods, hosts[n].id)), skipped);
      pairs := pairs + WithHost(n, skipped);
    }
  }

  lemma MoreLost(s: Store, c: Crypto, hosts: seq<Host>, pairs: seq<(nat, nat)>, rows: seq<nat>)
    requires hosts != [] && AreLost(s, c, hosts[..|hosts| - 1], pairs)
    requires AreRows(s, c, s.methods, hosts[|hosts| - 1].id, false, rows)
    ensures AreLost(s, c, hosts, pairs + WithHost(|hosts| - 1, rows))
  {
    var n := |hosts| - 1;
    var own := WithHost(n, rows);
    forall a | 0 <= a < |pairs|
      ensures pairs[a].0 < n
    {
      assert pairs[a] in pairs && IsLost(s, c, hosts[..n], pairs[a]);
    }
    forall pair: (nat, nat)
      ensures pair in pairs + own <==> IsLost(s, c, hosts, pair)
    {
      WithHostMembers(n, rows, pair);
      assert pair in pairs + own <==> pair in pairs || pair in own;
      assert pair.0 < n ==> hosts[..n][pair.0] == hosts[pair.0];
    }
  }

  lemma WithHostMembers(k: nat, rows: seq<nat>, pair: (nat, nat))
    ensures pair in WithHost(k, rows) <==> pair.0 == k && pair.1 in rows
  {
    if pair.0 == k && pair.1 in rows {
      var j :| 0 <= j < |rows| && rows[j] == pair.1;
      assert WithHost(k, rows)[j] == pair;
    }
  }

  lemma MoreWarnings(s: Store, hosts: seq<Host>, before: seq<(Host, Method)>, pairs: seq<(nat, nat)>,
                     own: seq<(Host, Method)>, rows: seq<nat>)
    requires hosts != [] && WarnsOfAll(s, hosts[..|hosts| - 1], before, pairs)
    requires WarnsOf(hosts[|hosts| - 1], own, s.methods, rows)
    ensures WarnsOfAll(s, hosts, before + own, pairs + WithHost(|hosts| - 1, rows))
  {
  }

  /** The export of any store: one item for each host, newest first, that says what its
      rows say, and one warning for each row whose secret cannot be read. */
  lemma ExportExactly(s: Store, c: Crypto) returns (pairs: seq<(nat, nat)>)
    ensures |Export(s, c)| == |s.hosts|
    ensures forall i :: 0 <= i < |s.hosts| ==> ItemSays(s, c, s.hosts[|s.hosts| - 1 - i], Export(s, c)[i])
    ensures var hosts := HostsTagged(s.hosts, {});
            && |hosts| == |s.hosts| && (forall i :: 0 <= i < |s.hosts| ==> hosts[i] == s.hosts[|s.hosts| - 1 - i])
            && AreLost(s, c, hosts, pairs) && WarnsOfAll(s, hosts, Warnings(s, c, hosts), pairs)
  {
    NewestFirst(s.hosts);
    pairs := WarningsExactly(s, c, HostsTagged(s.hosts, {}));
    forall i | 0 <= i < |s.hosts|
      ensures ItemSays(s, c, s.hosts[|s.hosts| - 1 - i], Export(s, c)[i])
    {
      HostIsExported(s, c, s.hosts[|s.hosts| - 1 - i]);
    }
  }

  lemma HostIsExported(s: Store, c: Crypto, h: Host)
    ensures ItemSays(s, c, h, HostPayload(s, c, h))
  {
    SortedTagsAreTheTags(h.tags);
    var kept, skipped := MethodsAreExported(s, c, h, s.methods);
  }
}
