/** What one server exports and another imports
    (internal/web/handlers/hosts.go:929-1016, 1018-1108).

    An exported item is clean: the service would store it as it is. Its address differs
    from that of every other item, so that phase one keeps them all. Phase two then
    writes each as it is exactly when it fits the other database, because whatever a
    database holds fits it. */
module HostRoundTrip {
  import opened Identifiers
  import opened Ordering
  import opened Text
  import opened Columns
  import opened HostTags
  import opened SecretCipher
  import opened HostService
  import opened HostImport
  import opened HostImportLaws
  import opened HostImportWrites
  import opened HostImportOutcome

  // ---------------------------------------------------------------- exports are clean

  lemma CleanedRow(c: Crypto, m: Method)
    requires MethodInv(c, m)
    ensures CleanedMethod(RowPayload(c, m)) == RowPayload(c, m) && ImportableMethod(RowPayload(c, m))
  {
    var secret := SecretOf(c, m).value;
    TrimIsTrimmed(m.name);
    TrimIsTrimmed(m.username);
    TrimIsTrimmed(m.description);
    TrimIsTrimmed(secret.password);
    TrimIsTrimmed(secret.publicKey);
    TrimIsTrimmed(secret.privateKey);
  }

  lemma {:induction false} CleanedRows(c: Crypto, methods: seq<Method>, hostID: UUID)
    requires forall i :: 0 <= i < |methods| ==> MethodInv(c, methods[i])
    ensures CleanedMethods(RowPayloads(c, methods, hostID)) == RowPayloads(c, methods, hostID)
    ensures Importable(RowPayloads(c, methods, hostID))
  {
    if methods != [] {
      var n := |methods| - 1;
      CleanedRows(c, methods[..n], hostID);
      CleanedRow(c, methods[n]);
      CleanedAppends(RowPayloads(c, methods[..n], hostID), RowPayload(c, methods[n]));
    }
  }

  lemma CleanedAppends(methods: seq<MethodDTO>, m: MethodDTO)
    requires CleanedMethods(methods) == methods && CleanedMethod(m) == m
    ensures CleanedMethods(methods + [m]) == methods + [m]
  {
    CleanedStep(methods, m);
  }

  /** The service takes the item as it is, apart from what the columns do. */
  ghost predicate IsClean(item: HostDTO) {
    && SortedTags(TagSet(item.tags)) == item.tags && TagSet(item.tags) == Elements(item.tags)
    && CleanedMethods(item.methods) == item.methods && Importable(item.methods)
  }

  /** An exported item is its host's, clean already, and importable but for its name. */
  ghost predicate ItemOf(item: HostDTO, h: Host) {
    item.name == h.name && item.ip == h.ip && IsClean(item)
  }

  ghost predicate ItemsOf(items: seq<HostDTO>, hosts: seq<Host>) {
    |items| == |hosts| && forall i :: 0 <= i < |hosts| ==> ItemOf(items[i], hosts[|hosts| - 1 - i])
  }

  lemma ExportIsClean(s: Store, c: Crypto, h: Host)
    requires Valid(s, c) && HostInv(s.schema, h)
    ensures ItemOf(HostPayload(s, c, h), h)
  {
    PayloadIsRows(s, c, h);
    CleanedRows(c, s.methods, h.id);
    TagsSurvive(h.tags);
  }

  lemma TagsSurvive(tags: set<string>)
    requires forall tag :: tag in tags ==> IsNormalized(tag)
    ensures TagSet(SortedTags(tags)) == tags && Elements(SortedTags(tags)) == tags
  {
    SortedTagsAreTheTags(tags);
    var names := SortedTags(tags);
    assert forall tag :: tag in names <==> tag in Elements(names);
    forall tag | tag in tags
      ensures tag in TagSet(names)
    {
      assert tag in names && Normalized(tag) == tag;
    }
  }

  predicate AllNamed(s: Store) {
    forall i :: 0 <= i < |s.hosts| ==> Trim(s.hosts[i].name) != ""
  }

  function Reversed<T>(s: seq<T>): seq<T> {
    seq(|s|, i requires 0 <= i < |s| => s[|s| - 1 - i])
  }

  lemma ReversedTwice<T>(s: seq<T>)
    ensures Reversed(Reversed(s)) == s
  {
  }

  lemma ExportIsReversed(s: Store, c: Crypto)
    ensures Export(s, c) == Reversed(Contents(s, c))
  {
    NewestFirst(s.hosts);
  }

  lemma ExportedItems(s: Store, c: Crypto)
    requires Valid(s, c)
    ensures ItemsOf(Export(s, c), s.hosts)
  {
    NewestFirst(s.hosts);
    forall i | 0 <= i < |s.hosts|
      ensures ItemOf(Export(s, c)[i], s.hosts[|s.hosts| - 1 - i])
    {
      assert HostInv(s.schema, s.hosts[|s.hosts| - 1 - i]);
      ExportIsClean(s, c, s.hosts[|s.hosts| - 1 - i]);
    }
  }

  // ---------------------------------------------------------------- what fits a database

  predicate MethodDTOFits(schema: Schema, m: MethodDTO) {
    Fits(schema.methodName, m.name) && Fits(schema.username, m.username) && Fits(schema.methodDescription, m.description)
  }

  /** The columns of the schema keep the item as it is. */
  predicate ItemFits(schema: Schema, item: HostDTO) {
    && Fits(schema.hostName, item.name) && Fits(schema.hostDescription, item.description)
    && (forall tag :: tag in item.tags ==> Fits(schema.tagName, tag))
    && schema.address(item.ip) == item.ip
    && forall j :: 0 <= j < |item.methods| ==> MethodDTOFits(schema, item.methods[j])
  }

  predicate FitsAll(schema: Schema, items: seq<HostDTO>) {
    forall i :: 0 <= i < |items| ==> ItemFits(schema, items[i])
  }

  lemma EverythingFitsSQLite(items: seq<HostDTO>)
    ensures FitsAll(SQLITE, items)
  {
  }

  lemma FitsReversed(schema: Schema, items: seq<HostDTO>)
    ensures FitsAll(schema, Reversed(items)) <==> FitsAll(schema, items)
  {
    forall i | 0 <= i < |items|
      ensures items[i] == Reversed(items)[|items| - 1 - i]
    {
    }
  }

  lemma {:induction false} RowsFit(schema: Schema, c: Crypto, methods: seq<Method>, hostID: UUID)
    requires forall i :: 0 <= i < |methods| ==> MethodFits(schema, methods[i])
    ensures forall j :: 0 <= j < |RowPayloads(c, methods, hostID)| ==> MethodDTOFits(schema, RowPayloads(c, methods, hostID)[j])
  {
    if methods != [] {
      RowsFit(schema, c, methods[..|methods| - 1], hostID);
    }
  }

  /** What a database holds fits it. */
  lemma ContentsFit(s: Store, c: Crypto)
    requires Valid(s, c)
    ensures FitsAll(s.schema, Contents(s, c))
  {
    forall i | 0 <= i < |s.hosts|
      ensures ItemFits(s.schema, Contents(s, c)[i])
    {
      HostFits(s, c, s.hosts[i]);
    }
  }

  lemma HostFits(s: Store, c: Crypto, h: Host)
    requires Valid(s, c) && HostInv(s.schema, h)
    ensures ItemFits(s.schema, HostPayload(s, c, h))
  {
    PayloadIsRows(s, c, h);
    RowsFit(s.schema, c, s.methods, h.id);
    SortedTagsAreTheTags(h.tags);
    assert forall tag :: tag in SortedTags(h.tags) <==> tag in Elements(SortedTags(h.tags));
  }

  // ---------------------------------------------------------------- phase one keeps every item

  predicate AllNew(existing: set<Addr>, items: seq<HostDTO>) {
    forall i :: 0 <= i < |items| ==> FirstNew(existing, items, i)
  }

  lemma {:induction false} ScreenAllNew(existing: set<Addr>, items: seq<HostDTO>)
    requires Acceptable(existing, items) && AllNew(existing, items)
    ensures var r := Screen(existing, items);
            r.Screened? && r.skipped == 0 && AllKept(items, r.candidates)
  {
    if items != [] {
      LastIsNew(existing, items);
      ScreenAllNew(existing, items[..|items| - 1]);
    }
  }

  lemma LastIsNew(existing: set<Addr>, items: seq<HostDTO>)
    requires items != [] && Acceptable(existing, items) && AllNew(existing, items)
    ensures var before, last := items[..|items| - 1], items[|items| - 1];
            && Acceptable(existing, before) && AllNew(existing, before) && WellNamed(last) && Importable(last.methods)
            && last.ip !in existing && (Screen(existing, before).Screened? ==> last.ip !in Screen(existing, before).seen)
  {
    var before := items[..|items| - 1];
    AcceptableStep(existing, items);
    ScreeningExactly(existing, before);
    LastIsFirstNew(existing, items, Screen(existing, before).seen);
  }

  predicate DistinctAddresses(items: seq<HostDTO>) {
    forall i, j :: 0 <= j < i < |items| ==> items[j].ip != items[i].ip
  }

  lemma ItemsAreDistinct(s: Store, c: Crypto, items: seq<HostDTO>)
    requires Valid(s, c) && ItemsOf(items, s.hosts)
    ensures DistinctAddresses(items)
  {
    var n := |items|;
    forall i, j | 0 <= j < i < n
      ensures items[j].ip != items[i].ip
    {
      assert items[i].ip == s.hosts[n - 1 - i].ip && items[j].ip == s.hosts[n - 1 - j].ip;
      HostsDiffer(s, c, n - 1 - i, n - 1 - j);
    }
  }

  lemma HostsDiffer(s: Store, c: Crypto, i: nat, j: nat)
    requires Valid(s, c) && i < j < |s.hosts|
    ensures s.hosts[i].ip != s.hosts[j].ip
  {
  }

  lemma ItemsAreAcceptable(s: Store, c: Crypto, items: seq<HostDTO>)
    requires Valid(s, c) && ItemsOf(items, s.hosts)
    ensures Acceptable({}, items) <==> AllNamed(s)
  {
    var n := |items|;
    forall i | 0 <= i < n
      ensures Importable(items[i].methods)
      ensures WellNamed(items[i]) <==> Trim(s.hosts[n - 1 - i].name) != ""
    {
      assert HostInv(s.schema, s.hosts[n - 1 - i]) && ItemOf(items[i], s.hosts[n - 1 - i]);
    }
    if Acceptable({}, items) {
      forall i | 0 <= i < n
        ensures Trim(s.hosts[i].name) != ""
      {
        assert WellNamed(items[n - 1 - i]);
      }
    }
  }

  ghost predicate AllClean(items: seq<HostDTO>) {
    forall i :: 0 <= i < |items| ==> IsClean(items[i])
  }

  ghost predicate AllKept(items: seq<HostDTO>, candidates: seq<Candidate>) {
    |candidates| == |items| && forall k :: 0 <= k < |items| ==> candidates[k] == CandidateFor(k, items[k])
  }

  lemma ItemsAreKept(items: seq<HostDTO>)
    requires Acceptable({}, items) && DistinctAddresses(items)
    ensures AllKept(items, Candidates({}, items))
  {
    ScreenAllNew({}, items);
  }

  // ---------------------------------------------------------------- phase two writes every item

  lemma CleanMethodIsWritten(schema: Schema, m: MethodDTO, nonce: Option<Bytes>)
    requires CleanedMethod(m) == m && ImportableMethod(m) && MethodDTOFits(schema, m) && nonce.Some?
    ensures MethodFailure(schema, m, nonce).None?
  {
    ImportedNameIsTrimmed(m);
  }

  lemma CleanItemIsWritten(schema: Schema, item: HostDTO, candidates: seq<Candidate>, draws: Draws, k: nat)
    requires IsClean(item) && ItemFits(schema, item) && item.ip.Addr?
    requires k < |candidates| && candidates[k] == CandidateFor(k, item) && (forall j :: draws(k, j).Some?)
    requires item.ip !in Taken(schema, {}, candidates[..k])
    ensures FailureAt(schema, {}, candidates, draws, k).None?
    ensures CleanedCandidate(schema, candidates[k]) == item
  {
    NoFailureAtExactly(schema, {}, candidates, draws, k);
    forall j | 0 <= j < |item.methods|
      ensures MethodFailure(schema, item.methods[j], draws(k, j)).None?
    {
      assert CleanedMethods(item.methods)[j] == item.methods[j];
      CleanMethodIsWritten(schema, item.methods[j], draws(k, j));
    }
  }

  lemma CleanItemsAreWritten(schema: Schema, d: Crypto, items: seq<HostDTO>, candidates: seq<Candidate>, draws: Draws)
    requires AllClean(items) && FitsAll(schema, items) && Acceptable({}, items) && DistinctAddresses(items)
    requires AllKept(items, candidates) && EveryDraw(d, draws)
    ensures Failure(schema, {}, candidates, draws).None? && CleanedAll(schema, candidates) == items
  {
    forall k | 0 <= k < |items|
      ensures FailureAt(schema, {}, candidates, draws, k).None?
      ensures CleanedAll(schema, candidates)[k] == items[k]
    {
      assert WellNamed(items[k]);
      NotTakenBefore(schema, items, candidates, k);
      CleanItemIsWritten(schema, items[k], candidates, draws, k);
    }
    NoFailureExactly(schema, {}, candidates, draws);
  }

  lemma NotTakenBefore(schema: Schema, items: seq<HostDTO>, candidates: seq<Candidate>, k: nat)
    requires FitsAll(schema, items) && DistinctAddresses(items) && AllKept(items, candidates) && k < |items|
    ensures items[k].ip !in Taken(schema, {}, candidates[..k])
  {
    forall i | 0 <= i < k
      ensures schema.address(candidates[..k][i].host.ip) != items[k].ip
    {
      assert ItemFits(schema, items[i]);
    }
  }

  // ---------------------------------------------------------------- the round trip

  /** What one server exports, another imports whole exactly when every host has a name
      that is not blank, which the service does not see to, and everything fits the
      other's database. Then every host and method comes back, up to identifiers and
      under the other server's key, created in the order of the export, newest first.
      With a blank name the import is refused. */
  lemma ExportThenImport(s: Store, c: Crypto, other: Schema, d: Crypto, draws: Draws)
    requires Lawful(c) && Valid(s, c) && Sound(other) && Lawful(d) && EveryDraw(d, draws)
    ensures var (reply, after) := Import(NewStore(other), d, Export(s, c), draws);
            && Valid(after, d)
            && (reply.Imported? && Contents(after, d) == Reversed(Contents(s, c)) <==>
                AllNamed(s) && FitsAll(other, Contents(s, c)))
            && (reply.Imported? ==> reply == Imported(|s.hosts|, 0, |s.hosts|))
            && (!AllNamed(s) ==> (reply.InvalidHost? || reply.InvalidMethod?) && after == NewStore(other))
  {
    var items := Export(s, c);
    ExportedItems(s, c);
    ExportIsReversed(s, c);
    FitsReversed(other, Contents(s, c));
    ImportIntoEmpty(s, c, other, d, items, draws);
  }

  lemma ImportIntoEmpty(s: Store, c: Crypto, other: Schema, d: Crypto, items: seq<HostDTO>, draws: Draws)
    requires Valid(s, c) && Sound(other) && Lawful(d) && EveryDraw(d, draws) && ItemsOf(items, s.hosts)
    ensures var (reply, after) := Import(NewStore(other), d, items, draws);
            && Valid(after, d)
            && (reply.Imported? && Contents(after, d) == items <==> AllNamed(s) && FitsAll(other, items))
            && (reply.Imported? ==> reply == Imported(|items|, 0, |items|))
            && (!AllNamed(s) ==> (reply.InvalidHost? || reply.InvalidMethod?) && after == NewStore(other))
  {
    ItemsAreAcceptable(s, c, items);
    ItemsAreDistinct(s, c, items);
    FromEmpty(other, d, items, draws);
    var after := Import(NewStore(other), d, items, draws).1;
    if AllNamed(s) {
      ContentsFit(after, d);
      if FitsAll(other, items) {
        ItemsAreClean(s, items);
        ItemsAreKept(items);
        CleanItemsAreWritten(other, d, items, Candidates({}, items), draws);
      }
    }
  }

  lemma ItemsAreClean(s: Store, items: seq<HostDTO>)
    requires ItemsOf(items, s.hosts)
    ensures AllClean(items)
  {
    assert forall i :: 0 <= i < |items| ==> ItemOf(items[i], s.hosts[|items| - 1 - i]);
  }

  /** An import into an empty store of items with different addresses. */
  lemma FromEmpty(other: Schema, d: Crypto, items: seq<HostDTO>, draws: Draws)
    requires Sound(other) && Lawful(d) && EveryDraw(d, draws) && DistinctAddresses(items)
    ensures var (reply, after) := Import(NewStore(other), d, items, draws);
            var failure := Failure(other, {}, Candidates({}, items), draws);
            && Valid(after, d) && after.schema == other
            && (!Acceptable({}, items) ==> (reply.InvalidHost? || reply.InvalidMethod?) && after == NewStore(other))
            && (Acceptable({}, items) ==>
                  && (reply.Imported? <==> failure.None?)
                  && (reply.Imported? ==>
                        && reply == Imported(|items|, 0, |items|)
                        && Contents(after, d) == CleanedAll(other, Candidates({}, items))))
  {
    var s := NewStore(other);
    assert Addresses(s.hosts) == {};
    ImportExactly(s, d, items, draws);
    if Acceptable({}, items) {
      ItemsAreKept(items);
      ImportAddsContents(s, d, items, draws);
      assert Contents(s, d) == [];
      NothingInFront(CleanedAll(other, Candidates({}, items)));
    }
  }

  lemma NothingInFront(items: seq<HostDTO>)
    ensures [] + items == items
  {
  }

  /** A store with a blank name is one call away, and no server takes its export. */
  lemma BlankNameIsRefused(schema: Schema, c: Crypto, other: Schema, d: Crypto, ip: string, draws: Draws)
    requires Sound(schema) && Lawful(c) && Sound(other) && Lawful(d) && EveryDraw(d, draws)
    ensures var s := DoAll(schema, c, [OpCreateHost(CreateHostDTO("", "", [], Addr(ip, "")))]);
            var (reply, after) := Import(NewStore(other), d, Export(s, c), draws);
            && |s.hosts| == 1 && Valid(s, c) && !AllNamed(s)
            && (reply.InvalidHost? || reply.InvalidMethod?) && after == NewStore(other)
  {
    var ops := [OpCreateHost(CreateHostDTO("", "", [], Addr(ip, "")))];
    var s := DoAll(schema, c, ops);
    NamelessHost(schema, c, ip);
    DoAllIsValid(schema, c, ops);
    ExportThenImport(s, c, other, d, draws);
  }

  lemma NamelessHost(schema: Schema, c: Crypto, ip: string)
    ensures var s := DoAll(schema, c, [OpCreateHost(CreateHostDTO("", "", [], Addr(ip, "")))]);
            |s.hosts| == 1 && !AllNamed(s)
  {
    var dto := CreateHostDTO("", "", [], Addr(ip, ""));
    var ops := [OpCreateHost(dto)];
    assert ops[..0] == [] && DoAll(schema, c, []) == NewStore(schema);
    InsertHostExactly(NewStore(schema), dto);
    assert TagSet([]) == {};
    assert DoAll(schema, c, ops) == InsertHost(NewStore(schema), dto).value;
    assert DoAll(schema, c, ops).hosts[0].name == "" && Trim("") == "";
  }

  lemma NamesAreContents(s: Store, c: Crypto)
    ensures AllNamed(s) <==> forall i :: 0 <= i < |s.hosts| ==> Trim(Contents(s, c)[i].name) != ""
  {
    assert forall i :: 0 <= i < |s.hosts| ==> Contents(s, c)[i].name == s.hosts[i].name;
  }

  /** A move to a server that can keep everything. */
  lemma MovedOnce(s: Store, c: Crypto, other: Schema, d: Crypto, draws: Draws)
    requires Lawful(c) && Valid(s, c) && AllNamed(s) && Sound(other) && FitsAll(other, Contents(s, c))
    requires Lawful(d) && EveryDraw(d, draws)
    ensures var moved := Import(NewStore(other), d, Export(s, c), draws).1;
            && Valid(moved, d) && AllNamed(moved) && Contents(moved, d) == Reversed(Contents(s, c))
            && Export(moved, d) == Contents(s, c)
  {
    ExportThenImport(s, c, other, d, draws);
    var moved := Import(NewStore(other), d, Export(s, c), draws).1;
    NamesAreReversed(s, c, moved, d);
    ExportIsReversed(moved, d);
    ReversedTwice(Contents(s, c));
  }

  lemma NamesAreReversed(s: Store, c: Crypto, moved: Store, d: Crypto)
    requires AllNamed(s) && Contents(moved, d) == Reversed(Contents(s, c))
    ensures AllNamed(moved)
  {
    NamesAreContents(s, c);
    NamesAreContents(moved, d);
    assert |moved.hosts| == |Contents(moved, d)| && |s.hosts| == |Contents(s, c)|;
  }

  /** Moved to a server that can keep it and back, the export is the same to the letter. */
  lemma MovedTwice(s: Store, c: Crypto, other: Schema, d: Crypto, there: Draws, back: Draws)
    requires Lawful(c) && Valid(s, c) && AllNamed(s) && Sound(other) && FitsAll(other, Contents(s, c))
    requires Lawful(d) && EveryDraw(d, there) && EveryDraw(c, back)
    ensures var moved := Import(NewStore(other), d, Export(s, c), there).1;
            Export(Import(NewStore(s.schema), c, Export(moved, d), back).1, c) == Export(s, c)
  {
    var moved := Import(NewStore(other), d, Export(s, c), there).1;
    MovedOnce(s, c, other, d, there);
    ContentsFit(s, c);
    FitsReversed(s.schema, Contents(s, c));
    MovedOnce(moved, d, s.schema, c, back);
    ExportIsReversed(s, c);
  }
}
