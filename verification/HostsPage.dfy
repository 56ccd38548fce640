/** The hosts page: which hosts it shows, and in which order
    (internal/web/handlers/hosts.go:284-400, 417-496). Metrics are real numbers. */
module HostsPage {
  import opened Identifiers
  import opened Text
  import opened StableSort

  /** Nanoseconds. */
  type Time = int

  const DAY: Time := 24 * 3600 * 1_000_000_000

  datatype ListedHost = ListedHost(
    id: UUID,
    name: string,
    description: string,
    ip: string,
    tags: seq<string>,
    agent: UUID,
    createdAt: Time,
    updatedAt: Time
  )

  datatype ListedMethod = ListedMethod(name: string, kind: string)

  datatype SystemInfo = SystemInfo(hostname: string, osName: string, osVersion: string)

  datatype Badges = Badges(cpu: real, memory: real, disk: real)

  /** What is known about the hosts, by identifier. */
  datatype Details = Details(methods: map<UUID, seq<ListedMethod>>, info: map<UUID, SystemInfo>, metrics: map<UUID, Badges>)

  datatype SortKey = ByName | ByStatus | ByAddress | ByCPU | ByMemory | ByDisk | ByUpdated | ByCreated

  datatype Query = Query(search: string, statuses: seq<string>, managementFilters: seq<string>, key: SortKey, desc: bool)

  function MethodsOf(d: Details, h: ListedHost): seq<ListedMethod> {
    if h.id in d.methods then d.methods[h.id] else []
  }

  function BadgesOf(d: Details, h: ListedHost): Badges {
    if h.id in d.metrics then d.metrics[h.id] else Badges(0.0, 0.0, 0.0)
  }

  function Status(d: Details, h: ListedHost, now: Time): string {
    var badges := BadgesOf(d, h);
    if h.id in d.metrics && (badges.cpu >= 85.0 || badges.memory >= 90.0 || badges.disk >= 90.0) then "warning"
    else if h.id in d.metrics && now - h.updatedAt > DAY then "stale"
    else if h.id in d.metrics then "reporting"
    else if h.agent != NIL || MethodsOf(d, h) != [] then "waiting"
    else "offline"
  }

  function StatusRank(status: string): int {
    if status == "reporting" then 1
    else if status == "waiting" then 2
    else if status == "stale" then 3
    else if status == "warning" then 4
    else 5
  }

  // ---------------------------------------------------------------- filtering

  function Kinds(methods: seq<ListedMethod>): seq<string> {
    seq(|methods|, i requires 0 <= i < |methods| => methods[i].kind)
  }

  function Names(methods: seq<ListedMethod>): seq<string> {
    seq(|methods|, i requires 0 <= i < |methods| => methods[i].name)
  }

  function ManagementFilters(d: Details, h: ListedHost): seq<string> {
    var result := (if h.agent != NIL then ["agent"] else []) + Kinds(MethodsOf(d, h));
    if result == [] then ["unmanaged"] else result
  }

  /** `strings.Join(parts, " ")` */
  function Join(parts: seq<string>): string {
    if parts == [] then "" else if |parts| == 1 then parts[0] else parts[0] + " " + Join(parts[1..])
  }

  function SearchText(d: Details, h: ListedHost): string {
    var info := if h.id in d.info then d.info[h.id] else SystemInfo("", "", "");
    Lower(Join([h.name, h.description, h.ip, Join(h.tags), Join(Names(MethodsOf(d, h))),
                info.hostname, info.osName, info.osVersion, Join(ManagementFilters(d, h))]))
  }

  predicate Contains(text: string, part: string) {
    exists i :: 0 <= i <= |text| && part <= text[i..]
  }

  /** A host meets every active filter. */
  predicate Meets(d: Details, q: Query, h: ListedHost, now: Time) {
    && (q.statuses == [] || Status(d, h, now) in q.statuses)
    && (q.managementFilters == [] || exists f :: f in ManagementFilters(d, h) && f in q.managementFilters)
    && (q.search == "" || Contains(SearchText(d, h), Lower(q.search)))
  }

  /** The hosts that meet the filters, in order; `clock(i)` is read for the i-th. */
  function Filtered(d: Details, q: Query, hosts: seq<ListedHost>, clock: nat -> Time): seq<ListedHost> {
    if hosts == [] then []
    else
      var n := |hosts| - 1;
      Filtered(d, q, hosts[..n], clock) + if Meets(d, q, hosts[n], clock(n)) then [hosts[n]] else []
  }

  method FilterHostsForHostsPage(d: Details, q: Query, hosts: seq<ListedHost>, clock: nat -> Time) returns (filtered: seq<ListedHost>)
    ensures filtered == Filtered(d, q, hosts, clock)
  {
    filtered := [];
    var search := Lower(q.search);
    for i := 0 to |hosts|
      invariant filtered == Filtered(d, q, hosts[..i], clock)
    {
      assert hosts[..i + 1][..i] == hosts[..i];
      var h := hosts[i];
      var status := Status(d, h, clock(i));
      if |q.statuses| > 0 && status !in q.statuses {
        continue;
      }
      var filters := ManagementFilters(d, h);
      var any := AnyStringInSlice(filters, q.managementFilters);
      if |q.managementFilters| > 0 && !any {
        continue;
      }
      if search != "" && !Contains(SearchText(d, h), search) {
        continue;
      }
      filtered := filtered + [h];
    }
    assert hosts[..|hosts|] == hosts;
  }

  method AnyStringInSlice(values: seq<string>, candidates: seq<string>) returns (any: bool)
    ensures any <==> exists v :: v in values && v in candidates
  {
    for i := 0 to |values|
      invariant forall v :: v in values[..i] ==> v !in candidates
    {
      if values[i] in candidates {
        return true;
      }
    }
    any := false;
  }

  // ---------------------------------------------------------------- sorting

  function CompareText(a: string, b: string): int {
    if Before(a, b) then -1 else if a == b then 0 else 1
  }

  function CompareFloat(a: real, b: real): int {
    if a < b then -1 else if a > b then 1 else 0
  }

  function CompareTime(a: Time, b: Time): int {
    if a < b then -1 else if a > b then 1 else 0
  }

  function CompareByKey(d: Details, key: SortKey, now: Time, left: ListedHost, right: ListedHost): int {
    match key
    case ByName => CompareText(Lower(left.name), Lower(right.name))
    case ByStatus => StatusRank(Status(d, left, now)) - StatusRank(Status(d, right, now))
    case ByAddress => CompareText(left.ip, right.ip)
    case ByCPU => CompareFloat(BadgesOf(d, left).cpu, BadgesOf(d, right).cpu)
    case ByMemory => CompareFloat(BadgesOf(d, left).memory, BadgesOf(d, right).memory)
    case ByDisk => CompareFloat(BadgesOf(d, left).disk, BadgesOf(d, right).disk)
    case ByUpdated => CompareTime(left.updatedAt, right.updatedAt)
    case ByCreated => CompareTime(left.createdAt, right.createdAt)
  }

  function KeyComparison(d: Details, key: SortKey, now: Time): (ListedHost, ListedHost) -> int {
    (left, right) => CompareByKey(d, key, now, left, right)
  }

  /** The comparison of the page: by the key, then by name. */
  function Comparison(d: Details, q: Query, now: Time): (ListedHost, ListedHost) -> int {
    Lexicographic(KeyComparison(d, q.key, now), KeyComparison(d, ByName, now))
  }

  lemma CompareTextIsThreeWay()
    ensures ThreeWay(CompareText)
  {
    forall a, b
      ensures CompareText(a, b) < 0 <==> CompareText(b, a) > 0
    {
      BeforeIsTotal(a, b);
    }
    forall a, b, c | CompareText(a, b) <= 0 && CompareText(b, c) <= 0
      ensures CompareText(a, c) <= 0
    {
      if Before(a, b) && Before(b, c) {
        BeforeIsTransitive(a, b, c);
      }
    }
  }

  lemma KeyComparisonIsThreeWay(d: Details, key: SortKey, now: Time)
    ensures ThreeWay(KeyComparison(d, key, now))
  {
    CompareTextIsThreeWay();
    var compare := KeyComparison(d, key, now);
    forall x, y
      ensures compare(x, y) < 0 <==> compare(y, x) > 0
    {
      assert CompareText(Lower(x.name), Lower(y.name)) < 0 <==> CompareText(Lower(y.name), Lower(x.name)) > 0;
      assert CompareText(x.ip, y.ip) < 0 <==> CompareText(y.ip, x.ip) > 0;
    }
    forall x, y, z | compare(x, y) <= 0 && compare(y, z) <= 0
      ensures compare(x, z) <= 0
    {
    }
  }

  /** For every sort key and direction the comparator is a strict weak order. */
  lemma ComparatorIsStrictWeak(d: Details, q: Query, now: Time)
    ensures StrictWeak(Less(Comparison(d, q, now), q.desc))
  {
    KeyComparisonIsThreeWay(d, q.key, now);
    KeyComparisonIsThreeWay(d, ByName, now);
    LexicographicIsThreeWay(KeyComparison(d, q.key, now), KeyComparison(d, ByName, now));
    LessIsStrictWeak(Comparison(d, q, now), q.desc);
  }

  /** `sortHostsForHostsPage`, in place: the one stable sort of what was there. */
  method SortHostsForHostsPage(hosts: array<ListedHost>, d: Details, q: Query, now: Time)
    modifies hosts
    ensures hosts[..] == Sort(old(hosts[..]), Less(Comparison(d, q, now), q.desc))
    ensures IsStableSort(hosts[..], old(hosts[..]), Less(Comparison(d, q, now), q.desc))
  {
    ComparatorIsStrictWeak(d, q, now);
    SortIsStable(hosts[..], Less(Comparison(d, q, now), q.desc));
    var sorted := Sort(hosts[..], Less(Comparison(d, q, now), q.desc));
    assert multiset(sorted) == multiset(hosts[..]);
    assert |sorted| == |multiset(sorted)| == |multiset(hosts[..])| == hosts.Length;
    forall i | 0 <= i < hosts.Length {
      hosts[i] := sorted[i];
    }
    assert hosts[..] == sorted;
  }

  function Page(d: Details, q: Query, hosts: seq<ListedHost>, clock: nat -> Time, now: Time): seq<ListedHost> {
    Sort(Filtered(d, q, hosts, clock), Less(Comparison(d, q, now), q.desc))
  }

  /** The host is listed, and meets the filters at that time. */
  predicate Qualifies(d: Details, q: Query, hosts: seq<ListedHost>, clock: nat -> Time, h: ListedHost, i: nat) {
    i < |hosts| && hosts[i] == h && Meets(d, q, h, clock(i))
  }

  lemma {:induction false} FilteredMembers(d: Details, q: Query, hosts: seq<ListedHost>, clock: nat -> Time, h: ListedHost) returns (i: nat)
    requires h in Filtered(d, q, hosts, clock)
    ensures Qualifies(d, q, hosts, clock, h, i)
  {
    var n := |hosts| - 1;
    if h in Filtered(d, q, hosts[..n], clock) {
      i := FilteredMembers(d, q, hosts[..n], clock, h);
    } else {
      i := n;
    }
  }

  lemma {:induction false} QualifiedAreKept(d: Details, q: Query, hosts: seq<ListedHost>, clock: nat -> Time, h: ListedHost, i: nat)
    requires Qualifies(d, q, hosts, clock, h, i)
    ensures h in Filtered(d, q, hosts, clock)
  {
    if i < |hosts| - 1 {
      QualifiedAreKept(d, q, hosts[..|hosts| - 1], clock, h, i);
    }
  }

  lemma FilteredExactly(d: Details, q: Query, hosts: seq<ListedHost>, clock: nat -> Time, h: ListedHost)
    ensures h in Filtered(d, q, hosts, clock) <==> exists i :: Qualifies(d, q, hosts, clock, h, i)
  {
    if h in Filtered(d, q, hosts, clock) {
      var i := FilteredMembers(d, q, hosts, clock, h);
    } else if i :| Qualifies(d, q, hosts, clock, h, i) {
      QualifiedAreKept(d, q, hosts, clock, h, i);
    }
  }

  /** The kept hosts are those at certain places of the list, each place once and in its
      order: the places whose hosts meet the filters. */
  lemma {:induction false} KeptExactly(d: Details, q: Query, hosts: seq<ListedHost>, clock: nat -> Time) returns (kept: seq<nat>)
    ensures InTurn(kept) && forall i: nat :: i in kept <==> i < |hosts| && Meets(d, q, hosts[i], clock(i))
    ensures |Filtered(d, q, hosts, clock)| == |kept|
    ensures forall p :: 0 <= p < |kept| ==> kept[p] < |hosts| && Filtered(d, q, hosts, clock)[p] == hosts[kept[p]]
  {
    kept := [];
    if hosts != [] {
      var n := |hosts| - 1;
      kept := KeptExactly(d, q, hosts[..n], clock);
      OneMorePlace(d, q, hosts, clock, kept);
      if Meets(d, q, hosts[n], clock(n)) {
        kept := kept + [n];
      }
    }
  }

  lemma OneMorePlace(d: Details, q: Query, hosts: seq<ListedHost>, clock: nat -> Time, kept: seq<nat>)
    requires hosts != [] && InTurn(kept)
    requires forall i: nat :: i in kept <==> i < |hosts| - 1 && Meets(d, q, hosts[..|hosts| - 1][i], clock(i))
    ensures var n := |hosts| - 1;
            var more := kept + if Meets(d, q, hosts[n], clock(n)) then [n] else [];
            InTurn(more) && forall i: nat :: i in more <==> i < |hosts| && Meets(d, q, hosts[i], clock(i))
  {
    var n := |hosts| - 1;
    forall p | 0 <= p < |kept|
      ensures kept[p] < n
    {
      assert kept[p] in kept;
    }
    forall i: nat | i < n
      ensures hosts[..n][i] == hosts[i]
    {
    }
  }

  /** The page shows exactly the hosts that meet every active filter, sorted, those
      that compare equal in the order they were listed, and no other arrangement of
      them is so. */
  lemma PageExactly(d: Details, q: Query, hosts: seq<ListedHost>, clock: nat -> Time, now: Time, page: seq<ListedHost>)
    ensures var less := Less(Comparison(d, q, now), q.desc);
            page == Page(d, q, hosts, clock, now) <==> IsStableSort(page, Filtered(d, q, hosts, clock), less)
    ensures forall h :: h in Page(d, q, hosts, clock, now) <==> exists i :: Qualifies(d, q, hosts, clock, h, i)
  {
    var less, filtered := Less(Comparison(d, q, now), q.desc), Filtered(d, q, hosts, clock);
    var shown := Page(d, q, hosts, clock, now);
    ComparatorIsStrictWeak(d, q, now);
    SortIsStable(filtered, less);
    if IsStableSort(page, filtered, less) {
      assert SameTies(page, shown, less) by {
        forall x
          ensures Ties(page, x, less) == Ties(shown, x, less)
        {
          assert Ties(page, x, less) == Ties(filtered, x, less) == Ties(shown, x, less);
        }
      }
      StableSortIsUnique(page, shown, less);
    }
    forall h
      ensures h in shown <==> exists i :: Qualifies(d, q, hosts, clock, h, i)
    {
      assert h in shown <==> h in multiset(shown);
      assert h in filtered <==> h in multiset(filtered);
      FilteredExactly(d, q, hosts, clock, h);
    }
  }

  // ---------------------------------------------------------------- what the reader sees

  /** A measurement above its threshold. */
  predicate IsHot(b: Badges) {
    b.cpu >= 85.0 || b.memory >= 90.0 || b.disk >= 90.0
  }

  predicate HasMethod(d: Details, h: ListedHost) {
    h.id in d.methods && d.methods[h.id] != []
  }

  /** The five statuses: with metrics, `warning` when a measurement is above its threshold,
      and otherwise `stale` or `reporting` as the host was updated more than a day ago or
      not; without metrics, `waiting` when an agent or a method is there to report, and
      otherwise `offline`. */
  predicate IsStatus(d: Details, h: ListedHost, now: Time, status: string) {
    if h.id in d.metrics then
      var hot, aged := IsHot(d.metrics[h.id]), now - h.updatedAt > 86_400_000_000_000;
      || (status == "warning" && hot) || (status == "stale" && !hot && aged) || (status == "reporting" && !hot && !aged)
    else
      var expected := h.agent != 0 || HasMethod(d, h);
      (status == "waiting" && expected) || (status == "offline" && !expected)
  }

  lemma StatusExactly(d: Details, h: ListedHost, now: Time, status: string)
    ensures Status(d, h, now) == status <==> IsStatus(d, h, now, status)
  {
    assert |"warning"| == |"waiting"| == |"offline"| == 7 && |"stale"| == 5 && |"reporting"| == 9;
    assert "waiting"[0] != "offline"[0];
  }

  /** The filters that a host answers to. */
  predicate Answers(d: Details, h: ListedHost, filter: string) {
    || (filter == "agent" && h.agent != 0)
    || (HasMethod(d, h) && exists k :: 0 <= k < |d.methods[h.id]| && d.methods[h.id][k].kind == filter)
    || (filter == "unmanaged" && h.agent == 0 && !HasMethod(d, h))
  }

  lemma FiltersExactly(d: Details, h: ListedHost, filter: string)
    ensures filter in ManagementFilters(d, h) <==> Answers(d, h, filter)
  {
    var kinds := Kinds(MethodsOf(d, h));
    assert filter in kinds <==> exists k :: 0 <= k < |kinds| && kinds[k] == filter;
    assert forall k :: 0 <= k < |kinds| ==> kinds[k] == MethodsOf(d, h)[k].kind;
    assert kinds == [] <==> !HasMethod(d, h);
  }

  /** Everything that is searched, before it is put into one text. */
  predicate IsField(d: Details, h: ListedHost, field: string) {
    || field == h.name || field == h.description || field == h.ip || field in h.tags
    || (HasMethod(d, h) && exists k :: 0 <= k < |d.methods[h.id]| && d.methods[h.id][k].name == field)
    || (h.id in d.info && (field == d.info[h.id].hostname || field == d.info[h.id].osName || field == d.info[h.id].osVersion))
    || Answers(d, h, field)
  }

  function LowerAll(parts: seq<string>): seq<string> {
    seq(|parts|, i requires 0 <= i < |parts| => Lower(parts[i]))
  }

  lemma {:induction false} LowerJoin(parts: seq<string>)
    ensures Lower(Join(parts)) == Join(LowerAll(parts))
  {
    if |parts| > 1 {
      LowerJoin(parts[1..]);
      assert LowerAll(parts)[1..] == LowerAll(parts[1..]);
      assert Lower(parts[0] + " " + Join(parts[1..])) == Lower(parts[0]) + " " + Lower(Join(parts[1..]));
    }
  }

  /** What is found in one part is found in the whole; and a word without a blank is
      found in one of the parts if it is found in the whole. */
  lemma {:induction false} JoinContains(parts: seq<string>, word: string)
    requires word != ""
    ensures (exists k :: 0 <= k < |parts| && Contains(parts[k], word)) ==> Contains(Join(parts), word)
    ensures ' ' !in word && Contains(Join(parts), word) ==> exists k :: 0 <= k < |parts| && Contains(parts[k], word)
  {
    if |parts| == 1 {
    } else if parts != [] {
      JoinContains(parts[1..], word);
      SpacedContains(parts[0], Join(parts[1..]), word);
      if k :| 0 <= k < |parts| && Contains(parts[k], word) {
        assert k > 0 ==> Contains(parts[1..][k - 1], word);
      }
      if k :| 0 <= k < |parts| - 1 && Contains(parts[1..][k], word) {
        assert Contains(parts[k + 1], word);
      }
    }
  }

  lemma SpacedContains(a: string, b: string, word: string)
    requires word != ""
    ensures Contains(a, word) || Contains(b, word) ==> Contains(a + " " + b, word)
    ensures ' ' !in word && Contains(a + " " + b, word) ==> Contains(a, word) || Contains(b, word)
  {
    var whole := a + " " + b;
    if i :| 0 <= i <= |a| && word <= a[i..] {
      assert whole[i..] == a[i..] + " " + b;
      assert word <= whole[i..];
    }
    if i :| 0 <= i <= |b| && word <= b[i..] {
      assert whole[|a| + 1 + i..] == b[i..];
    }
    if ' ' !in word && Contains(whole, word) {
      var i :| 0 <= i <= |whole| && word <= whole[i..];
      FoundAside(a, b, word, i);
    }
  }

  lemma BlankInside(whole: string, word: string, i: nat, k: nat)
    requires i <= k < i + |word| && k < |whole| && word <= whole[i..] && whole[k] == ' '
    ensures ' ' in word
  {
    assert word[k - i] == whole[k];
  }

  lemma FoundAside(a: string, b: string, word: string, i: nat)
    requires word != "" && ' ' !in word && i <= |a + " " + b| && word <= (a + " " + b)[i..]
    ensures Contains(a, word) || Contains(b, word)
  {
    var whole := a + " " + b;
    if i <= |a| {
      if i + |word| > |a| {
        BlankInside(whole, word, i, |a|);
      }
      assert i + |word| <= |a|;
      assert a[i..] == whole[i..][..|a| - i];
      assert word <= a[i..];
    } else {
      assert b[i - |a| - 1..] == whole[i..];
      assert word <= b[i - |a| - 1..];
    }
  }

  /** Some text of the list contains the word, whatever the case of its letters. */
  ghost predicate FoundIn(list: seq<string>, word: string) {
    exists text :: text in list && Contains(Lower(text), word)
  }

  lemma FoundInJoin(list: seq<string>, word: string)
    requires word != ""
    ensures FoundIn(list, word) ==> Contains(Lower(Join(list)), word)
    ensures ' ' !in word && Contains(Lower(Join(list)), word) ==> FoundIn(list, word)
  {
    LowerJoin(list);
    JoinContains(LowerAll(list), word);
    if text :| text in list && Contains(Lower(text), word) {
      var k :| 0 <= k < |list| && list[k] == text;
      assert Contains(LowerAll(list)[k], word);
    }
    if k :| 0 <= k < |list| && Contains(LowerAll(list)[k], word) {
      assert list[k] in list && Contains(Lower(list[k]), word);
    }
  }

  /** The nine parts of the text that is searched. */
  function Parts(d: Details, h: ListedHost): seq<string> {
    var info := if h.id in d.info then d.info[h.id] else SystemInfo("", "", "");
    [h.name, h.description, h.ip, Join(h.tags), Join(Names(MethodsOf(d, h))),
     info.hostname, info.osName, info.osVersion, Join(ManagementFilters(d, h))]
  }

  ghost predicate FieldFound(d: Details, h: ListedHost, word: string) {
    exists field :: IsField(d, h, field) && Contains(Lower(field), word)
  }

  lemma FieldsAreParts(d: Details, h: ListedHost, word: string)
    requires word != ""
    ensures FieldFound(d, h, word) ==> FoundIn(Parts(d, h), word)
    ensures ' ' !in word && FoundIn(Parts(d, h), word) ==> FieldFound(d, h, word)
  {
    if field :| IsField(d, h, field) && Contains(Lower(field), word) {
      FieldIsInPart(d, h, field, word);
    }
    if ' ' !in word && FoundIn(Parts(d, h), word) {
      PartsAreFields(d, h, word);
    }
  }

  lemma FieldIsInPart(d: Details, h: ListedHost, field: string, word: string)
    requires word != "" && IsField(d, h, field) && Contains(Lower(field), word)
    ensures FoundIn(Parts(d, h), word)
  {
    var parts, names := Parts(d, h), Names(MethodsOf(d, h));
    FiltersExactly(d, h, field);
    NamesExactly(d, h, field);
    if field in h.tags {
      ListIsPart(h.tags, field, word, parts, 3);
    } else if field in names {
      ListIsPart(names, field, word, parts, 4);
    } else if Answers(d, h, field) {
      ListIsPart(ManagementFilters(d, h), field, word, parts, 8);
    } else {
      assert field in parts;
    }
  }

  lemma ListIsPart(list: seq<string>, field: string, word: string, parts: seq<string>, k: nat)
    requires word != "" && field in list && Contains(Lower(field), word) && k < |parts| && parts[k] == Join(list)
    ensures FoundIn(parts, word)
  {
    FoundInJoin(list, word);
    assert parts[k] in parts;
  }

  lemma NamesExactly(d: Details, h: ListedHost, name: string)
    ensures name in Names(MethodsOf(d, h)) <==>
            HasMethod(d, h) && exists k :: 0 <= k < |d.methods[h.id]| && d.methods[h.id][k].name == name
  {
    var names := Names(MethodsOf(d, h));
    assert name in names <==> exists k :: 0 <= k < |names| && names[k] == name;
    assert forall k :: 0 <= k < |names| ==> names[k] == MethodsOf(d, h)[k].name;
  }

  lemma PartsAreFields(d: Details, h: ListedHost, word: string)
    requires word != "" && ' ' !in word && FoundIn(Parts(d, h), word)
    ensures FieldFound(d, h, word)
  {
    var parts, names := Parts(d, h), Names(MethodsOf(d, h));
    FoundInJoin(h.tags, word);
    FoundInJoin(names, word);
    FoundInJoin(ManagementFilters(d, h), word);
    var part :| part in parts && Contains(Lower(part), word);
    var list := if part == parts[3] then h.tags else if part == parts[4] then names
                else if part == parts[8] then ManagementFilters(d, h) else [part];
    assert FoundIn(list, word) by {
      assert part in [part];
    }
    var field :| field in list && Contains(Lower(field), word);
    FiltersExactly(d, h, field);
    NamesExactly(d, h, field);
    assert IsField(d, h, field);
  }

  /** A search finds a host when one of its fields contains the text, whatever the case of
      the letters; and a search without a blank finds no other. */
  lemma SearchExactly(d: Details, h: ListedHost, search: string)
    requires search != ""
    ensures FieldFound(d, h, Lower(search)) ==> Contains(SearchText(d, h), Lower(search))
    ensures ' ' !in search && Contains(SearchText(d, h), Lower(search)) ==> FieldFound(d, h, Lower(search))
  {
    assert ' ' in Lower(search) ==> ' ' in search;
    FoundInJoin(Parts(d, h), Lower(search));
    FieldsAreParts(d, h, Lower(search));
  }

  /** Which hosts the page keeps: those with one of the wanted statuses, if any are wanted,
      that answer to one of the wanted filters, if any are wanted, and in whose text the
      search is found, if there is one. */
  lemma MeetsExactly(d: Details, q: Query, h: ListedHost, now: Time)
    ensures Meets(d, q, h, now) <==>
            && (q.statuses != [] ==> exists status :: status in q.statuses && IsStatus(d, h, now, status))
            && (q.managementFilters != [] ==> exists filter :: filter in q.managementFilters && Answers(d, h, filter))
            && (q.search != "" ==> Contains(SearchText(d, h), Lower(q.search)))
  {
    forall status
      ensures Status(d, h, now) == status <==> IsStatus(d, h, now, status)
    {
      StatusExactly(d, h, now, status);
    }
    forall filter
      ensures filter in ManagementFilters(d, h) <==> Answers(d, h, filter)
    {
      FiltersExactly(d, h, filter);
    }
  }

  // ---------------------------------------------------------------- in which order

  /** The statuses, from the best to the worst. */
  const LEVELS: seq<string> := ["reporting", "waiting", "stale", "warning", "offline"]

  function Cpu(d: Details, h: ListedHost): real {
    if h.id !in d.metrics then 0.0 else d.metrics[h.id].cpu
  }

  function Memory(d: Details, h: ListedHost): real {
    if h.id !in d.metrics then 0.0 else d.metrics[h.id].memory
  }

  function Disk(d: Details, h: ListedHost): real {
    if h.id !in d.metrics then 0.0 else d.metrics[h.id].disk
  }

  /** `x` has the smaller value for the key. */
  predicate Below(d: Details, key: SortKey, now: Time, x: ListedHost, y: ListedHost) {
    match key
    case ByName => Before(Lower(x.name), Lower(y.name))
    case ByStatus => exists a, b :: 0 <= a < b < 5 && IsStatus(d, x, now, LEVELS[a]) && IsStatus(d, y, now, LEVELS[b])
    case ByAddress => Before(x.ip, y.ip)
    case ByCPU => Cpu(d, x) < Cpu(d, y)
    case ByMemory => Memory(d, x) < Memory(d, y)
    case ByDisk => Disk(d, x) < Disk(d, y)
    case ByUpdated => x.updatedAt < y.updatedAt
    case ByCreated => x.createdAt < y.createdAt
  }

  lemma StatusIsRanked(d: Details, h: ListedHost, now: Time)
    ensures 1 <= StatusRank(Status(d, h, now)) <= 5
    ensures forall a :: 0 <= a < 5 ==> (IsStatus(d, h, now, LEVELS[a]) <==> StatusRank(Status(d, h, now)) == a + 1)
  {
    assert |"warning"| == |"waiting"| == |"offline"| == 7 && |"stale"| == 5 && |"reporting"| == 9;
    assert "waiting"[0] != "offline"[0] && "warning"[2] != "waiting"[2] && "warning"[0] != "offline"[0];
    forall a | 0 <= a < 5
      ensures IsStatus(d, h, now, LEVELS[a]) <==> StatusRank(Status(d, h, now)) == a + 1
    {
      StatusExactly(d, h, now, LEVELS[a]);
    }
  }

  /** The comparison by a key is by its value. */
  lemma ComparedByValue(d: Details, key: SortKey, now: Time, x: ListedHost, y: ListedHost)
    ensures CompareByKey(d, key, now, x, y) < 0 <==> Below(d, key, now, x, y)
    ensures CompareByKey(d, key, now, x, y) > 0 <==> Below(d, key, now, y, x)
  {
    BeforeIsTotal(Lower(x.name), Lower(y.name));
    BeforeIsTotal(x.ip, y.ip);
    if key.ByStatus? {
      StatusIsRanked(d, x, now);
      StatusIsRanked(d, y, now);
      var a, b := StatusRank(Status(d, x, now)) - 1, StatusRank(Status(d, y, now)) - 1;
      assert IsStatus(d, x, now, LEVELS[a]) && IsStatus(d, y, now, LEVELS[b]);
    }
  }

  /** The hosts stand in this order in the list, and both meet the filters. */
  ghost predicate ListedInTurn(d: Details, q: Query, hosts: seq<ListedHost>, clock: nat -> Time, x: ListedHost, y: ListedHost) {
    exists a: nat, b: nat :: a < b && Qualifies(d, q, hosts, clock, x, a) && Qualifies(d, q, hosts, clock, y, b)
  }

  /** Two places of the page, by what the hosts are. Of an ascending page the earlier one
      has the smaller value for the key; for equal values the earlier name, whatever the
      case of the letters; and for equal names the earlier place in the list. A
      descending page turns the values and the names around, but not the list. */
  lemma PageIsOrdered(d: Details, q: Query, hosts: seq<ListedHost>, clock: nat -> Time, now: Time, i: nat, j: nat)
    requires i < j < |Page(d, q, hosts, clock, now)|
    ensures var page := Page(d, q, hosts, clock, now);
            var (x, y) := if q.desc then (page[j], page[i]) else (page[i], page[j]);
            || Below(d, q.key, now, x, y)
            || (!Below(d, q.key, now, y, x) && Before(Lower(x.name), Lower(y.name)))
            || (!Below(d, q.key, now, y, x) && Lower(x.name) == Lower(y.name)
                && ListedInTurn(d, q, hosts, clock, page[i], page[j]))
  {
    var less, filtered, page := Less(Comparison(d, q, now), q.desc), Filtered(d, q, hosts, clock), Page(d, q, hosts, clock, now);
    ComparatorIsStrictWeak(d, q, now);
    SortIsStable(filtered, less);
    ComparedByValue(d, q.key, now, page[i], page[j]);
    ComparedByValue(d, ByName, now, page[i], page[j]);
    BeforeIsTotal(Lower(page[i].name), Lower(page[j].name));
    assert !less(page[j], page[i]);
    ComparesBackwards(d, q, now, page[i], page[j]);
    if Tied(page[i], page[j], less) {
      var a, b := TiesKeepTheirTurn(page, filtered, less, i, j);
      FilteredInTurn(d, q, hosts, clock, a, b);
    }
  }

  lemma ComparesBackwards(d: Details, q: Query, now: Time, x: ListedHost, y: ListedHost)
    ensures Comparison(d, q, now)(x, y) < 0 <==> Comparison(d, q, now)(y, x) > 0
    ensures Comparison(d, q, now)(x, y) > 0 <==> Comparison(d, q, now)(y, x) < 0
  {
    KeyComparisonIsThreeWay(d, q.key, now);
    KeyComparisonIsThreeWay(d, ByName, now);
    LexicographicIsThreeWay(KeyComparison(d, q.key, now), KeyComparison(d, ByName, now));
  }

  lemma {:induction false} FilteredInTurn(d: Details, q: Query, hosts: seq<ListedHost>, clock: nat -> Time, a: nat, b: nat)
    requires a < b < |Filtered(d, q, hosts, clock)|
    ensures ListedInTurn(d, q, hosts, clock, Filtered(d, q, hosts, clock)[a], Filtered(d, q, hosts, clock)[b])
  {
    var n := |hosts| - 1;
    var before := Filtered(d, q, hosts[..n], clock);
    if b < |before| {
      FilteredInTurn(d, q, hosts[..n], clock, a, b);
      var i: nat, j: nat :| i < j && Qualifies(d, q, hosts[..n], clock, before[a], i) && Qualifies(d, q, hosts[..n], clock, before[b], j);
      assert Qualifies(d, q, hosts, clock, before[a], i) && Qualifies(d, q, hosts, clock, before[b], j);
    } else {
      var i := FilteredMembers(d, q, hosts[..n], clock, before[a]);
      assert Qualifies(d, q, hosts, clock, before[a], i) && Qualifies(d, q, hosts, clock, hosts[n], n);
    }
  }
}
