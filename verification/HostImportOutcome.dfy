/** What a whole import does to a store, on either database
    (internal/web/handlers/hosts.go:1018-1108). */
module HostImportOutcome {
  import opened Identifiers
  import opened Ordering
  import opened Text
  import opened Columns
  import opened HostTags
  import opened SecretCipher
  import opened HostService
  import opened HostImport
  import opened HostImportLaws
  import opened HostImportWrites

  // The theorems follow from ImportExactly, which joins the two phases: when the store
  // changes, what importing the same payload again does, after a success and after a
  // failure, and what the store says afterwards.

  /** The items that phase one keeps. */
  function Candidates(existing: set<Addr>, items: seq<HostDTO>): seq<Candidate> {
    match Screen(existing, items)
    case Screened(_, candidates, _) => candidates
    case Rejected(_) => []
  }

  lemma ChosenAreImportable(existing: set<Addr>, items: seq<HostDTO>, candidates: seq<Candidate>)
    requires Chosen(existing, items, candidates)
    ensures AllImportable(candidates)
  {
    forall k | 0 <= k < |candidates|
      ensures Importable(candidates[k].methods)
    {
      assert ChosenAs(existing, items, candidates[k]);
    }
  }

  /** The import in full. A payload is refused exactly when an item lacks a name or an
      address, or the first item with a new address has a method that is not
      importable; then nothing is written. Otherwise it fails exactly when the database
      does not keep some host or method, or no nonce can be drawn, and what comes before
      the first of these is stored. If there is none, the first item with each new
      address is stored and every other item skipped. In all cases the hosts that were
      there stay as they were. */
  lemma ImportExactly(s: Store, c: Crypto, items: seq<HostDTO>, draws: Draws)
    requires Lawful(c) && Valid(s, c) && GoodDraws(c, draws)
    ensures var (reply, after) := Import(s, c, items, draws);
            && HostsAdded(c, s, after)
            && if !Acceptable(Addresses(s.hosts), items) then (reply.InvalidHost? || reply.InvalidMethod?) && after == s
               else
                 var candidates := Candidates(Addresses(s.hosts), items);
                 var failure := Failure(s.schema, Addresses(s.hosts), candidates, draws);
                 && Chosen(Addresses(s.hosts), items, candidates) && |candidates| <= |items|
                 && AllHeld(c, s, after, Written(s.schema, Addresses(s.hosts), candidates, draws))
                 && if failure.None?
                    then reply == Imported(|candidates|, |items| - |candidates|, |items|) && AllHeld(c, s, after, candidates)
                    else reply == CreateFailed(failure.value)
  {
    ImportIsTwoPhases(s, c, items, draws);
    if Acceptable(Addresses(s.hosts), items) {
      var candidates := Candidates(Addresses(s.hosts), items);
      ChosenAreImportable(Addresses(s.hosts), items, candidates);
      ImportAllExactly(s, c, candidates, draws);
      NoFailureExactly(s.schema, Addresses(s.hosts), candidates, draws);
    }
  }

  lemma ImportIsTwoPhases(s: Store, c: Crypto, items: seq<HostDTO>, draws: Draws)
    ensures var (reply, after) := Import(s, c, items, draws);
            if !Acceptable(Addresses(s.hosts), items) then (reply.InvalidHost? || reply.InvalidMethod?) && after == s
            else
              var candidates := Candidates(Addresses(s.hosts), items);
              var done := ImportAll(s, c, candidates, draws);
              && Chosen(Addresses(s.hosts), items, candidates) && |candidates| <= |items| && after == done.store
              && reply == if done.error.Some? then CreateFailed(done.error.value)
                          else Imported(done.imported, |items| - |candidates|, |items|)
  {
    ScreeningExactly(Addresses(s.hosts), items);
  }

  // ---------------------------------------------------------------- when the store changes

  /** The first item of all with a new address. */
  predicate Leads(existing: set<Addr>, items: seq<HostDTO>, i: nat) {
    i < |items| && FirstNew(existing, items, i) && forall j :: 0 <= j < i ==> !FirstNew(existing, items, j)
  }

  /** The item can be stored as a host. */
  predicate CanStore(s: Store, item: HostDTO) {
    HostFailure(s.schema, Addresses(s.hosts), CandidateFor(0, item).host).None?
  }

  /** The import is not atomic. It changes the store exactly when the payload is accepted
      and its first item with a new address can be stored as a host, whatever comes of
      the rest. */
  lemma ImportChangesExactly(s: Store, c: Crypto, items: seq<HostDTO>, draws: Draws)
    requires Lawful(c) && Valid(s, c) && GoodDraws(c, draws)
    ensures Import(s, c, items, draws).1 != s <==>
            && Acceptable(Addresses(s.hosts), items)
            && exists i: nat :: Leads(Addresses(s.hosts), items, i) && CanStore(s, items[i])
  {
    ImportExactly(s, c, items, draws);
    var existing := Addresses(s.hosts);
    if Acceptable(existing, items) {
      var candidates := Candidates(existing, items);
      if candidates == [] {
        NobodyLeads(existing, items);
      } else {
        FirstCandidateLeads(existing, items, candidates);
        FirstIsWritten(s, c, candidates, draws);
      }
    }
  }

  lemma NobodyLeads(existing: set<Addr>, items: seq<HostDTO>)
    requires Acceptable(existing, items) && Candidates(existing, items) == []
    ensures forall i: nat :: !Leads(existing, items, i)
  {
    ScreeningExactly(existing, items);
    forall i: nat | i < |items|
      ensures !FirstNew(existing, items, i)
    {
      assert FirstNew(existing, items, i) ==> HasIndex([], i);
    }
  }

  lemma FirstCandidateLeads(existing: set<Addr>, items: seq<HostDTO>, candidates: seq<Candidate>)
    requires Chosen(existing, items, candidates) && candidates != []
    ensures var i := candidates[0].index;
            && Leads(existing, items, i) && candidates[0].host == CandidateFor(0, items[i]).host
            && forall j: nat :: Leads(existing, items, j) ==> j == i
  {
    assert ChosenAs(existing, items, candidates[0]);
    var i := candidates[0].index;
    forall j: nat | j < |items| && FirstNew(existing, items, j)
      ensures j >= i
    {
      assert HasIndex(candidates, j);
      var k :| 0 <= k < |candidates| && candidates[k].index == j;
      assert k > 0 ==> candidates[0].index < candidates[k].index;
    }
  }

  /** The store changes with the first candidate, or not at all. */
  lemma FirstIsWritten(s: Store, c: Crypto, candidates: seq<Candidate>, draws: Draws)
    requires Lawful(c) && Valid(s, c) && GoodDraws(c, draws) && AllImportable(candidates) && candidates != []
    ensures ImportAll(s, c, candidates, draws).store != s <==>
            HostFailure(s.schema, Addresses(s.hosts), candidates[0].host).None?
  {
    assert candidates[..1] == [candidates[0]] && candidates[..0] == [];
    ImportOneExactly(s, c, candidates[0], draws, 0);
    assert ImportAll(s, c, candidates[..0], draws) == Progress(s, 0, None);
    ImportAllStep(s, c, candidates, draws, 0);
    if HostFailure(s.schema, Addresses(s.hosts), candidates[0].host).Some? {
      ImportAllStops(s, c, candidates, draws, 1);
    } else {
      ImportAllExactly(s, c, candidates, draws);
      SomethingIsWritten(s.schema, Addresses(s.hosts), candidates, draws);
    }
  }

  lemma SomethingIsWritten(schema: Schema, taken: set<Addr>, candidates: seq<Candidate>, draws: Draws)
    requires candidates != [] && HostFailure(schema, taken, candidates[0].host).None?
    ensures Written(schema, taken, candidates, draws) != []
  {
    assert candidates[..0] == [] && Taken(schema, taken, []) == taken;
    assert HostFailureAt(schema, taken, candidates, 0).None?;
  }

  // ---------------------------------------------------------------- importing again

  lemma {:induction false} FirstOccurrence(existing: set<Addr>, items: seq<HostDTO>, i: nat) returns (j: nat)
    requires i < |items| && items[i].ip !in existing
    ensures j <= i && items[j].ip == items[i].ip && FirstNew(existing, items, j)
  {
    if FirstNew(existing, items, i) {
      j := i;
    } else {
      var earlier :| 0 <= earlier < i && items[earlier].ip == items[i].ip;
      j := FirstOccurrence(existing, items, earlier);
    }
  }

  /** What is new to the store afterwards was new before, so that phase one accepts the
      payload again. */
  lemma StillAcceptable(existing: set<Addr>, more: set<Addr>, items: seq<HostDTO>)
    requires Acceptable(existing, items) && existing <= more
    ensures Acceptable(more, items)
    ensures forall i: nat :: i < |items| && FirstNew(more, items, i) ==> FirstNew(existing, items, i)
  {
  }

  lemma AddressesGrow(c: Crypto, s: Store, after: Store)
    requires HostsAdded(c, s, after)
    ensures Addresses(s.hosts) <= Addresses(after.hosts)
    ensures forall ip :: ip in Addresses(after.hosts) ==> after.schema.address(ip) == ip
  {
    forall i | 0 <= i < |s.hosts|
      ensures s.hosts[i].ip in Addresses(after.hosts)
    {
      assert after.hosts[i] == s.hosts[i];
    }
    forall i | 0 <= i < |after.hosts|
      ensures after.schema.address(after.hosts[i].ip) == after.hosts[i].ip
    {
      assert HostInv(after.schema, after.hosts[i]);
    }
  }

  /** A candidate that was stored is there, under the address that the column keeps. */
  lemma StoredAddress(c: Crypto, s: Store, after: Store, candidates: seq<Candidate>, k: nat)
    requires AllHeld(c, s, after, candidates) && k < |candidates| && after.schema == s.schema
    ensures s.schema.address(candidates[k].host.ip) in Addresses(after.hosts)
  {
    assert HoldsAs(c, after, after.hosts[|s.hosts| + k], candidates[k]);
  }

  /** When the first item that is new cannot be stored, nothing changes. */
  lemma LeaderFails(s: Store, c: Crypto, items: seq<HostDTO>, draws: Draws)
    requires Lawful(c) && Valid(s, c) && GoodDraws(c, draws) && Acceptable(Addresses(s.hosts), items)
    requires forall i: nat :: Leads(Addresses(s.hosts), items, i) ==> !CanStore(s, items[i])
    ensures Import(s, c, items, draws).1 == s
    ensures if exists i: nat :: i < |items| && FirstNew(Addresses(s.hosts), items, i)
            then Import(s, c, items, draws).0.CreateFailed?
            else Import(s, c, items, draws).0 == Imported(0, |items|, |items|)
  {
    ImportChangesExactly(s, c, items, draws);
    ImportExactly(s, c, items, draws);
    var existing := Addresses(s.hosts);
    var candidates := Candidates(existing, items);
    SomeCandidateExactly(existing, items, candidates);
    NoFailureExactly(s.schema, existing, candidates, draws);
  }

  lemma SomeCandidateExactly(existing: set<Addr>, items: seq<HostDTO>, candidates: seq<Candidate>)
    requires Chosen(existing, items, candidates)
    ensures candidates != [] <==> exists i: nat :: i < |items| && FirstNew(existing, items, i)
  {
    if candidates != [] {
      assert ChosenAs(existing, items, candidates[0]);
    }
    if i: nat :| i < |items| && FirstNew(existing, items, i) {
      assert HasIndex(candidates, i);
    }
  }

  /** The first item with a new address, once stored. */
  lemma StoredItem(s: Store, c: Crypto, after: Store, items: seq<HostDTO>, candidates: seq<Candidate>, i: nat)
    requires HostsAdded(c, s, after) && Chosen(Addresses(s.hosts), items, candidates) && AllHeld(c, s, after, candidates)
    requires i < |items| && FirstNew(Addresses(s.hosts), items, i)
    ensures !CanStore(after, items[i])
    ensures FirstNew(Addresses(after.hosts), items, i) <==> s.schema.address(items[i].ip) != items[i].ip
  {
    AddressesGrow(c, s, after);
    assert HasIndex(candidates, i);
    var k :| 0 <= k < |candidates| && candidates[k].index == i;
    assert ChosenAs(Addresses(s.hosts), items, candidates[k]);
    StoredAddress(c, s, after, candidates, k);
    KnownAddress(after, Addresses(s.hosts), items, i);
  }

  lemma KnownAddress(after: Store, existing: set<Addr>, items: seq<HostDTO>, i: nat)
    requires i < |items| && FirstNew(existing, items, i) && existing <= Addresses(after.hosts)
    requires forall ip :: ip in Addresses(after.hosts) ==> after.schema.address(ip) == ip
    requires after.schema.address(items[i].ip) in Addresses(after.hosts)
    ensures !CanStore(after, items[i])
    ensures FirstNew(Addresses(after.hosts), items, i) <==> after.schema.address(items[i].ip) != items[i].ip
  {
  }

  /** Every new address is kept as it was given. */
  predicate AddressesAreKept(schema: Schema, existing: set<Addr>, items: seq<HostDTO>) {
    forall i: nat :: i < |items| && FirstNew(existing, items, i) ==> schema.address(items[i].ip) == items[i].ip
  }

  /** Importing the same payload again changes nothing. It imports 0 and skips all exactly
      when the database keeps every new address as it was given; otherwise an address is
      taken for new and fails as a duplicate. */
  lemma ImportAgainChangesNothing(s: Store, c: Crypto, items: seq<HostDTO>, draws: Draws, again: Draws)
    requires Lawful(c) && Valid(s, c) && GoodDraws(c, draws) && GoodDraws(c, again)
    requires Import(s, c, items, draws).0.Imported?
    ensures var after := Import(s, c, items, draws).1;
            var (reply, later) := Import(after, c, items, again);
            && later == after
            && if AddressesAreKept(s.schema, Addresses(s.hosts), items) then reply == Imported(0, |items|, |items|)
               else reply.CreateFailed?
  {
    ImportExactly(s, c, items, draws);
    var after := Import(s, c, items, draws).1;
    NothingIsNew(s, c, after, items, Candidates(Addresses(s.hosts), items));
    LeaderFails(after, c, items, again);
  }

  lemma NothingIsNew(s: Store, c: Crypto, after: Store, items: seq<HostDTO>, candidates: seq<Candidate>)
    requires HostsAdded(c, s, after) && Chosen(Addresses(s.hosts), items, candidates) && AllHeld(c, s, after, candidates)
    requires Acceptable(Addresses(s.hosts), items)
    ensures Acceptable(Addresses(after.hosts), items)
    ensures forall i: nat :: Leads(Addresses(after.hosts), items, i) ==> !CanStore(after, items[i])
    ensures AddressesAreKept(s.schema, Addresses(s.hosts), items) <==>
            !exists i: nat :: i < |items| && FirstNew(Addresses(after.hosts), items, i)
  {
    AddressesGrow(c, s, after);
    StillAcceptable(Addresses(s.hosts), Addresses(after.hosts), items);
    forall i: nat | i < |items| && FirstNew(Addresses(s.hosts), items, i)
      ensures !CanStore(after, items[i])
      ensures FirstNew(Addresses(after.hosts), items, i) <==> s.schema.address(items[i].ip) != items[i].ip
    {
      StoredItem(s, c, after, items, candidates, i);
    }
  }

  /** A host that the database does not keep blocks the payload for good: importing it
      again fails again and changes nothing, so what comes after the host never comes. */
  lemma BlockedForGood(s: Store, c: Crypto, items: seq<HostDTO>, draws: Draws, again: Draws, k: nat)
    requires Lawful(c) && Valid(s, c) && GoodDraws(c, draws) && GoodDraws(c, again)
    requires Import(s, c, items, draws).0.CreateFailed?
    requires k == StopsAt(s.schema, Addresses(s.hosts), Candidates(Addresses(s.hosts), items), draws)
    requires k < |Candidates(Addresses(s.hosts), items)|
    requires HostFailureAt(s.schema, Addresses(s.hosts), Candidates(Addresses(s.hosts), items), k).Some?
    ensures var after := Import(s, c, items, draws).1;
            Import(after, c, items, again).1 == after && Import(after, c, items, again).0.CreateFailed?
  {
    ImportExactly(s, c, items, draws);
    var candidates, after := Candidates(Addresses(s.hosts), items), Import(s, c, items, draws).1;
    assert candidates[..k] + [] == candidates[..k];
    StillBlocked(s, c, after, items, candidates, k);
    LeaderFails(after, c, items, again);
  }

  lemma StillBlocked(s: Store, c: Crypto, after: Store, items: seq<HostDTO>, candidates: seq<Candidate>, k: nat)
    requires HostsAdded(c, s, after) && Chosen(Addresses(s.hosts), items, candidates) && k < |candidates|
    requires AllHeld(c, s, after, candidates[..k]) && HostFailureAt(s.schema, Addresses(s.hosts), candidates, k).Some?
    requires Acceptable(Addresses(s.hosts), items)
    ensures Acceptable(Addresses(after.hosts), items)
    ensures forall i: nat :: Leads(Addresses(after.hosts), items, i) ==> !CanStore(after, items[i])
    ensures exists i: nat :: i < |items| && FirstNew(Addresses(after.hosts), items, i)
  {
    AddressesGrow(c, s, after);
    StillAcceptable(Addresses(s.hosts), Addresses(after.hosts), items);
    var first := SomeoneIsNew(s, c, after, items, candidates, k);
    forall i: nat | Leads(Addresses(after.hosts), items, i)
      ensures !CanStore(after, items[i])
    {
      LeaderIsNotStorable(s, c, after, items, candidates, k, i, first);
    }
  }

  /** The item of candidate `k`, or one before it, is new to the store afterwards. */
  lemma SomeoneIsNew(s: Store, c: Crypto, after: Store, items: seq<HostDTO>, candidates: seq<Candidate>, k: nat) returns (i: nat)
    requires HostsAdded(c, s, after) && Chosen(Addresses(s.hosts), items, candidates) && k < |candidates|
    requires AllHeld(c, s, after, candidates[..k])
    ensures i <= candidates[k].index && i < |items| && FirstNew(Addresses(after.hosts), items, i)
  {
    var existing, known := Addresses(s.hosts), Addresses(after.hosts);
    AddressesGrow(c, s, after);
    assert ChosenAs(existing, items, candidates[k]);
    i := candidates[k].index;
    if candidates[k].host.ip in known {
      var m := KeptBySome(s, c, after, candidates[..k], candidates[k].host.ip);
      assert ChosenAs(existing, items, candidates[m]) && candidates[m].index < candidates[k].index;
      i := candidates[m].index;
    }
  }

  /** An address that is there but was not is that of some candidate. */
  lemma KeptBySome(s: Store, c: Crypto, after: Store, candidates: seq<Candidate>, ip: Addr) returns (m: nat)
    requires s.hosts <= after.hosts && after.schema == s.schema && AllHeld(c, s, after, candidates)
    requires ip in Addresses(after.hosts) && ip !in Addresses(s.hosts)
    ensures m < |candidates| && s.schema.address(candidates[m].host.ip) == ip
  {
    TakenIsStored(s, c, after, candidates);
    m :| 0 <= m < |candidates| && s.schema.address(candidates[m].host.ip) == ip;
  }

  lemma LeaderIsNotStorable(s: Store, c: Crypto, after: Store, items: seq<HostDTO>, candidates: seq<Candidate>, k: nat, i: nat, first: nat)
    requires HostsAdded(c, s, after) && Chosen(Addresses(s.hosts), items, candidates) && k < |candidates|
    requires AllHeld(c, s, after, candidates[..k]) && HostFailureAt(s.schema, Addresses(s.hosts), candidates, k).Some?
    requires Leads(Addresses(after.hosts), items, i) && FirstNew(Addresses(s.hosts), items, i)
    requires first < |items| && FirstNew(Addresses(after.hosts), items, first) && first <= candidates[k].index
    ensures !CanStore(after, items[i])
  {
    assert HasIndex(candidates, i);
    var m :| 0 <= m < |candidates| && candidates[m].index == i;
    assert ChosenAs(Addresses(s.hosts), items, candidates[m]);
    IndexOrder(Addresses(s.hosts), items, candidates, k, m);
    TakenIsStored(s, c, after, candidates[..k]);
    if m < k {
      StoredAddress(c, s, after, candidates[..k], m);
    }
  }

  lemma IndexOrder(existing: set<Addr>, items: seq<HostDTO>, candidates: seq<Candidate>, k: nat, m: nat)
    requires Chosen(existing, items, candidates) && k < |candidates| && m < |candidates|
    ensures candidates[m].index <= candidates[k].index <==> m <= k
  {
  }

  /** After a failure at method `j` of candidate `k`, importing the payload again does
      not help that host: the rest of its methods never comes. */
  lemma LostMethodsStayLost(s: Store, c: Crypto, items: seq<HostDTO>, draws: Draws, again: Draws) returns (k: nat, j: Option<nat>)
    requires Lawful(c) && Valid(s, c) && GoodDraws(c, draws) && GoodDraws(c, again)
    requires Import(s, c, items, draws).0.CreateFailed?
    ensures var candidates := Candidates(Addresses(s.hosts), items);
            var after := Import(s, c, items, draws).1;
            var later := Import(after, c, items, again).1;
            && k < |candidates| && after.hosts <= later.hosts
            && (j.None? ==> later == after && |after.hosts| == |s.hosts| + k)
            && (j.Some? ==>
                  && j.value < |candidates[k].methods| && |after.hosts| == |s.hosts| + k + 1
                  && HoldsAs(c, later, later.hosts[|s.hosts| + k], candidates[k].(methods := candidates[k].methods[..j.value])))
  {
    ImportExactly(s, c, items, draws);
    var existing := Addresses(s.hosts);
    var candidates := Candidates(existing, items);
    k, j := StopsExactly(s.schema, existing, candidates, draws);
    var after := Import(s, c, items, draws).1;
    ImportExactly(after, c, items, again);
    if j.None? {
      StopIs(s.schema, existing, candidates, draws, k);
      BlockedForGood(s, c, items, draws, again, k);
    } else {
      HeldStays(c, s, after, Import(after, c, items, again).1, Written(s.schema, existing, candidates, draws), k);
    }
  }

  lemma StopIs(schema: Schema, taken: set<Addr>, candidates: seq<Candidate>, draws: Draws, k: nat)
    requires k < |candidates| && FailureAt(schema, taken, candidates, draws, k).Some?
    requires forall i :: 0 <= i < k ==> FailureAt(schema, taken, candidates, draws, i).None?
    ensures StopsAt(schema, taken, candidates, draws) == k
  {
    var failures := Failures(schema, taken, candidates, draws);
    FirstSomeIs(failures);
    assert forall i :: 0 <= i < |candidates| ==> failures[i] == FailureAt(schema, taken, candidates, draws, i);
  }

  lemma HeldStays(c: Crypto, s: Store, after: Store, later: Store, candidates: seq<Candidate>, k: nat)
    requires AllHeld(c, s, after, candidates) && HostsAdded(c, after, later) && k < |candidates|
    ensures HoldsAs(c, later, later.hosts[|s.hosts| + k], candidates[k])
  {
    assert HoldsAs(c, after, after.hosts[|s.hosts| + k], candidates[k]);
    assert later.hosts[|s.hosts| + k] == after.hosts[|s.hosts| + k];
  }

  // ---------------------------------------------------------------- the two databases

  ghost predicate EveryDraw(c: Crypto, draws: Draws) {
    GoodDraws(c, draws) && forall k, j :: draws(k, j).Some?
  }

  /** On SQLite, whose columns keep everything, an accepted payload is imported whole as
      long as nonces can be drawn. */
  lemma SQLiteKeepsEverything(s: Store, c: Crypto, items: seq<HostDTO>, draws: Draws)
    requires Lawful(c) && Valid(s, c) && EveryDraw(c, draws) && s.schema == SQLITE
    ensures Import(s, c, items, draws).0.Imported? <==> Acceptable(Addresses(s.hosts), items)
  {
    ImportExactly(s, c, items, draws);
    if Acceptable(Addresses(s.hosts), items) {
      var candidates := Candidates(Addresses(s.hosts), items);
      forall k | 0 <= k < |candidates|
        ensures FailureAt(SQLITE, Addresses(s.hosts), candidates, draws, k).None?
      {
        SQLiteKeepsCandidate(c, Addresses(s.hosts), items, candidates, draws, k);
      }
      NoFailureExactly(SQLITE, Addresses(s.hosts), candidates, draws);
    }
  }

  lemma SQLiteKeepsCandidate(c: Crypto, existing: set<Addr>, items: seq<HostDTO>, candidates: seq<Candidate>, draws: Draws, k: nat)
    requires Acceptable(existing, items) && Chosen(existing, items, candidates) && k < |candidates| && EveryDraw(c, draws)
    ensures FailureAt(SQLITE, existing, candidates, draws, k).None?
  {
    assert ChosenAs(existing, items, candidates[k]);
    forall i | 0 <= i < k
      ensures candidates[i].host.ip != candidates[k].host.ip
    {
      assert ChosenAs(existing, items, candidates[i]) && candidates[i].index < candidates[k].index;
    }
    NoFailureAtExactly(SQLITE, existing, candidates, draws, k);
  }

  function Repeated(ch: char, n: nat): string {
    seq(n, _ => ch)
  }

  const LONG_METHOD := MethodDTO("", SSHPassword, Repeated('u', 256), 22, "", Secret("secret", "", ""))
  const LONG_METHOD_HOST := HostDTO("web", "", [], Addr("10.0.0.1", ""), [LONG_METHOD])
  const LONG_TAG_HOST := HostDTO("db", "", [Repeated('t', 65)], Addr("10.0.0.2", ""), [])
  const PLAIN_HOST := HostDTO("web", "", [], Addr("10.0.0.1", ""), [])

  lemma RepeatedIsTrimmed(ch: char, n: nat)
    requires !IsSpace(ch) && n > 0
    ensures Trim(Repeated(ch, n)) == Repeated(ch, n) && Repeated(ch, n) != ""
  {
    TrimIsTrimmed(Repeated(ch, n));
  }

  lemma LongMethodStops(draws: Draws)
    requires draws(0, 0).Some?
    ensures var candidates := [CandidateFor(0, LONG_METHOD_HOST)];
            && Candidates({}, [LONG_METHOD_HOST]) == candidates && Acceptable({}, [LONG_METHOD_HOST])
            && Failure(POSTGRES, {}, candidates, draws) == Some(DoesNotFit)
            && Written(POSTGRES, {}, candidates, draws) == [candidates[0].(methods := [])]
  {
    RepeatedIsTrimmed('u', 256);
    OneItem(LONG_METHOD_HOST);
    var candidates := [CandidateFor(0, LONG_METHOD_HOST)];
    assert candidates[..0] == [] && TagSet([]) == {};
    assert HostFailureAt(POSTGRES, {}, candidates, 0).None?;
    assert MethodFailure(POSTGRES, LONG_METHOD, draws(0, 0)) == Some(DoesNotFit);
    StopAtFirstMethod(POSTGRES, candidates, draws);
  }

  /** An import into an empty PostgreSQL database. */
  lemma IntoEmpty(c: Crypto, items: seq<HostDTO>, draws: Draws)
    requires Lawful(c) && GoodDraws(c, draws) && Acceptable({}, items)
    ensures var s := NewStore(POSTGRES);
            var (reply, after) := Import(s, c, items, draws);
            var failure := Failure(POSTGRES, {}, Candidates({}, items), draws);
            && Valid(s, c) && Addresses(s.hosts) == {} && HostsAdded(c, s, after)
            && AllHeld(c, s, after, Written(POSTGRES, {}, Candidates({}, items), draws))
            && (failure.Some? ==> reply == CreateFailed(failure.value))
  {
    BothSchemasAreSound();
    assert Addresses(NewStore(POSTGRES).hosts) == {};
    ImportExactly(NewStore(POSTGRES), c, items, draws);
  }

  /** It happens on PostgreSQL: a username of 256 characters passes phase one, and the
      host is left without its method; importing again skips it. */
  lemma PartialImport(c: Crypto, draws: Draws, again: Draws)
    requires Lawful(c) && EveryDraw(c, draws) && GoodDraws(c, again)
    ensures var (reply, after) := Import(NewStore(POSTGRES), c, [LONG_METHOD_HOST], draws);
            && reply == CreateFailed(DoesNotFit)
            && |after.hosts| == 1 && MethodsOf(after.methods, after.hosts[0].id) == []
            && Import(after, c, [LONG_METHOD_HOST], again) == (Imported(0, 1, 1), after)
  {
    var s, items := NewStore(POSTGRES), [LONG_METHOD_HOST];
    LongMethodStops(draws);
    IntoEmpty(c, items, draws);
    LongMethodIsLost(s, c, Import(s, c, items, draws).1);
    ImportsNothing(Import(s, c, items, draws).1, c, items, again);
  }

  /** When every address is known, all is skipped. */
  lemma ImportsNothing(s: Store, c: Crypto, items: seq<HostDTO>, draws: Draws)
    requires forall i :: 0 <= i < |items| ==> WellNamed(items[i]) && items[i].ip in Addresses(s.hosts)
    ensures Import(s, c, items, draws) == (Imported(0, |items|, |items|), s)
  {
    AllKnown(Addresses(s.hosts), items);
  }

  lemma LongMethodIsLost(s: Store, c: Crypto, after: Store)
    requires s == NewStore(POSTGRES) && HostsAdded(c, s, after)
    requires AllHeld(c, s, after, [CandidateFor(0, LONG_METHOD_HOST).(methods := [])])
    ensures |after.hosts| == 1 && MethodsOf(after.methods, after.hosts[0].id) == []
    ensures LONG_METHOD_HOST.ip in Addresses(after.hosts)
  {
    var written := [CandidateFor(0, LONG_METHOD_HOST).(methods := [])];
    OnlyHost(s, c, after, written[0]);
    ValidIsReadable(after, c);
    ExportReadsEveryRow(after, c, after.hosts[0], after.methods);
  }

  lemma OnlyHost(s: Store, c: Crypto, after: Store, candidate: Candidate)
    requires s == NewStore(POSTGRES) && AllHeld(c, s, after, [candidate]) && after.schema == POSTGRES
    ensures |after.hosts| == 1 && HoldsAs(c, after, after.hosts[0], candidate)
  {
    assert HoldsAs(c, after, after.hosts[|s.hosts| + 0], [candidate][0]);
  }

  lemma OneItem(item: HostDTO)
    requires WellNamed(item) && Importable(item.methods)
    ensures Candidates({}, [item]) == [CandidateFor(0, item)] && Acceptable({}, [item])
  {
    assert [item][..0] == [];
    assert Screen({}, []) == Screened({}, [], 0);
    ScreeningExactly({}, [item]);
  }

  lemma StopAtFirstMethod(schema: Schema, candidates: seq<Candidate>, draws: Draws)
    requires |candidates| == 1 && |candidates[0].methods| == 1
    requires HostFailureAt(schema, {}, candidates, 0).None? && MethodFailure(schema, candidates[0].methods[0], draws(0, 0)).Some?
    ensures Failure(schema, {}, candidates, draws) == MethodFailure(schema, candidates[0].methods[0], draws(0, 0))
    ensures Written(schema, {}, candidates, draws) == [candidates[0].(methods := [])]
  {
    FirstSomeIs(MethodFailures(schema, candidates[0].methods, draws, 0));
    FirstSomeIs(Failures(schema, {}, candidates, draws));
    assert MethodFailures(schema, candidates[0].methods, draws, 0)[0] == MethodFailure(schema, candidates[0].methods[0], draws(0, 0));
    assert Failures(schema, {}, candidates, draws)[0] == FailureAt(schema, {}, candidates, draws, 0);
  }

  lemma {:induction false} AllKnown(existing: set<Addr>, items: seq<HostDTO>)
    requires forall i :: 0 <= i < |items| ==> WellNamed(items[i]) && items[i].ip in existing
    ensures Screen(existing, items) == Screened({}, [], |items|)
  {
    if items != [] {
      AllKnown(existing, items[..|items| - 1]);
    }
  }

  lemma LongTagStops(draws: Draws)
    ensures var items, candidates := [PLAIN_HOST, LONG_TAG_HOST], [CandidateFor(0, PLAIN_HOST), CandidateFor(1, LONG_TAG_HOST)];
            && Candidates({}, items) == candidates && Acceptable({}, items)
            && HostFailureAt(POSTGRES, {}, candidates, 1) == Some(DoesNotFit)
            && StopsAt(POSTGRES, {}, candidates, draws) == 1
            && Failure(POSTGRES, {}, candidates, draws) == Some(DoesNotFit)
            && Written(POSTGRES, {}, candidates, draws) == [CandidateFor(0, PLAIN_HOST)]
  {
    TwoItems(PLAIN_HOST, LONG_TAG_HOST);
    var candidates := [CandidateFor(0, PLAIN_HOST), CandidateFor(1, LONG_TAG_HOST)];
    PlainHostIsKept(candidates, draws);
    LongTagDoesNotFit();
    assert candidates[..1] == [CandidateFor(0, PLAIN_HOST)];
    assert LONG_TAG_HOST.ip !in Taken(POSTGRES, {}, candidates[..1]);
    StopIs(POSTGRES, {}, candidates, draws, 1);
    assert [CandidateFor(0, PLAIN_HOST)] + [] == [CandidateFor(0, PLAIN_HOST)];
  }

  lemma PlainHostIsKept(candidates: seq<Candidate>, draws: Draws)
    requires candidates != [] && candidates[0] == CandidateFor(0, PLAIN_HOST)
    ensures FailureAt(POSTGRES, {}, candidates, draws, 0).None?
  {
    assert candidates[..0] == [] && TagSet([]) == {};
    assert HostFailureAt(POSTGRES, {}, candidates, 0).None?;
  }

  /** And a tag of 65 characters blocks its payload: the host before it is imported, and
      every further attempt fails without a trace. */
  lemma BlockingTag(c: Crypto, draws: Draws, again: Draws)
    requires Lawful(c) && EveryDraw(c, draws) && GoodDraws(c, again)
    ensures var items := [PLAIN_HOST, LONG_TAG_HOST];
            var (reply, after) := Import(NewStore(POSTGRES), c, items, draws);
            && reply == CreateFailed(DoesNotFit) && |after.hosts| == 1 && after.hosts[0].name == "web"
            && Import(after, c, items, again).1 == after && Import(after, c, items, again).0.CreateFailed?
  {
    var s, items := NewStore(POSTGRES), [PLAIN_HOST, LONG_TAG_HOST];
    LongTagStops(draws);
    IntoEmpty(c, items, draws);
    BlockedForGood(s, c, items, draws, again, 1);
    OnlyHost(s, c, Import(s, c, items, draws).1, CandidateFor(0, PLAIN_HOST));
  }

  lemma LongTagDoesNotFit()
    ensures !TagsFit(POSTGRES, TagSet([Repeated('t', 65)]))
  {
    var tag := Repeated('t', 65);
    RepeatedIsTrimmed('t', 65);
    assert Lower(tag) == tag;
    assert tag in TagSet([tag]) by { assert Normalized(tag) == tag && tag in [tag]; }
    assert !Fits(POSTGRES.tagName, tag);
  }

  lemma TwoItems(a: HostDTO, b: HostDTO)
    requires WellNamed(a) && Importable(a.methods) && WellNamed(b) && Importable(b.methods) && a.ip != b.ip
    ensures Candidates({}, [a, b]) == [CandidateFor(0, a), CandidateFor(1, b)] && Acceptable({}, [a, b])
  {
    assert [a, b][..1] == [a] && [a][..0] == [];
    assert Screen({}, []) == Screened({}, [], 0);
    assert Screen({}, [a]) == Screened({a.ip}, [CandidateFor(0, a)], 0);
    assert Screen({}, [a, b]) == Screened({a.ip, b.ip}, [CandidateFor(0, a), CandidateFor(1, b)], 0);
    ScreeningExactly({}, [a, b]);
  }

  // ---------------------------------------------------------------- what the store says afterwards

  /** All that a store holds, in order of creation, up to identifiers and key. */
  ghost function Contents(s: Store, c: Crypto): seq<HostDTO> {
    Payloads(s, c, s.hosts)
  }

  /** What the candidates say, cleaned and as the columns keep it. */
  ghost function CleanedAll(schema: Schema, candidates: seq<Candidate>): seq<HostDTO> {
    seq(|candidates|, k requires 0 <= k < |candidates| => CleanedCandidate(schema, candidates[k]))
  }

  ghost function CleanedCandidate(schema: Schema, candidate: Candidate): HostDTO {
    HostDTO(Kept(schema.hostName, candidate.host.name), Kept(schema.hostDescription, candidate.host.description),
            SortedTags(TagSet(candidate.host.tags)), schema.address(candidate.host.ip), CleanedMethods(candidate.methods))
  }

  /** An import that is not refused adds to what the store held what its candidates
      say, up to the first one that is not kept; all of it when the import succeeds. */
  lemma ImportAddsContents(s: Store, c: Crypto, items: seq<HostDTO>, draws: Draws)
    requires Lawful(c) && Valid(s, c) && GoodDraws(c, draws) && Acceptable(Addresses(s.hosts), items)
    ensures var candidates := Candidates(Addresses(s.hosts), items);
            && Contents(Import(s, c, items, draws).1, c)
               == Contents(s, c) + CleanedAll(s.schema, Written(s.schema, Addresses(s.hosts), candidates, draws))
            && (Import(s, c, items, draws).0.Imported? <==> Failure(s.schema, Addresses(s.hosts), candidates, draws).None?)
            && (Import(s, c, items, draws).0.Imported? ==>
                  Written(s.schema, Addresses(s.hosts), candidates, draws) == candidates)
  {
    ImportExactly(s, c, items, draws);
    var candidates := Candidates(Addresses(s.hosts), items);
    NoFailureExactly(s.schema, Addresses(s.hosts), candidates, draws);
    AddedContents(s, c, Import(s, c, items, draws).1, Written(s.schema, Addresses(s.hosts), candidates, draws));
  }

  lemma AddedContents(s: Store, c: Crypto, after: Store, candidates: seq<Candidate>)
    requires Valid(s, c) && HostsAdded(c, s, after) && AllHeld(c, s, after, candidates)
    ensures Contents(after, c) == Contents(s, c) + CleanedAll(s.schema, candidates)
  {
    forall i | 0 <= i < |s.hosts|
      ensures Contents(after, c)[i] == Contents(s, c)[i]
    {
      OldHostSays(s, c, after, i);
    }
    forall k | 0 <= k < |candidates|
      ensures Contents(after, c)[|s.hosts| + k] == CleanedAll(s.schema, candidates)[k]
    {
      NewHostSays(s, c, after, candidates, k);
    }
    Appended(Contents(s, c), CleanedAll(s.schema, candidates), Contents(after, c));
  }

  lemma Appended<T>(front: seq<T>, back: seq<T>, whole: seq<T>)
    requires |whole| == |front| + |back|
    requires forall i :: 0 <= i < |front| ==> whole[i] == front[i]
    requires forall k :: 0 <= k < |back| ==> whole[|front| + k] == back[k]
    ensures whole == front + back
  {
    forall i | |front| <= i < |whole|
      ensures whole[i] == back[i - |front|]
    {
      assert whole[|front| + (i - |front|)] == back[i - |front|];
    }
  }

  lemma OldHostSays(s: Store, c: Crypto, after: Store, i: nat)
    requires Valid(s, c) && HostsAdded(c, s, after) && i < |s.hosts|
    ensures Contents(after, c)[i] == Contents(s, c)[i]
  {
    assert after.hosts[i] == s.hosts[i];
    PayloadIsRows(s, c, s.hosts[i]);
    PayloadIsRows(after, c, s.hosts[i]);
  }

  lemma NewHostSays(s: Store, c: Crypto, after: Store, candidates: seq<Candidate>, k: nat)
    requires Valid(after, c) && after.schema == s.schema && AllHeld(c, s, after, candidates) && k < |candidates|
    ensures Contents(after, c)[|s.hosts| + k] == CleanedAll(s.schema, candidates)[k]
  {
    assert HoldsAs(c, after, after.hosts[|s.hosts| + k], candidates[k]);
    PayloadIsRows(after, c, after.hosts[|s.hosts| + k]);
  }
}
