/** What phase two of an import writes, and where it stops
    (internal/web/handlers/hosts.go:1082-1097, 1181-1212).

    What can be written is a matter of the payload, the schema, the addresses there are
    and the nonces drawn: `Failure` is the first reason to stop, in the order of writing,
    and `Written` what comes before it. The import is then proved to stop there and to
    store exactly that. */
module HostImportWrites {
  import opened Identifiers
  import opened Ordering
  import opened Text
  import opened Columns
  import opened HostTags
  import opened SecretCipher
  import opened HostService
  import opened HostImport
  import opened HostImportLaws

  // ---------------------------------------------------------------- the first refusal

  /** The index of the first Some, or the length. */
  function FirstSome<T>(s: seq<Option<T>>): (r: nat)
    ensures r <= |s|
  {
    if s == [] then 0
    else
      var n := |s| - 1;
      var before := FirstSome(s[..n]);
      if before < n then before else if s[n].Some? then n else n + 1
  }

  lemma {:induction false} FirstSomeIs<T>(s: seq<Option<T>>)
    ensures forall i :: 0 <= i < FirstSome(s) ==> s[i].None?
    ensures FirstSome(s) < |s| ==> s[FirstSome(s)].Some?
  {
    if s != [] {
      FirstSomeIs(s[..|s| - 1]);
    }
  }

  lemma FirstSomeStep<T>(s: seq<Option<T>>, x: Option<T>)
    ensures FirstSome(s + [x]) == if FirstSome(s) < |s| then FirstSome(s) else if x.Some? then |s| else |s| + 1
  {
    assert (s + [x])[..|s|] == s;
  }

  // ---------------------------------------------------------------- what can be written

  /** Why the service refuses a method that phase one let through, if it does. */
  function MethodFailure(schema: Schema, m: MethodDTO, nonce: Option<Bytes>): Option<Error> {
    if nonce.None? then Some(EncryptFailed)
    else if !InputFits(schema, ToInput(m)) then Some(DoesNotFit)
    else None
  }

  function MethodFailures(schema: Schema, methods: seq<MethodDTO>, draws: Draws, k: nat): seq<Option<Error>> {
    seq(|methods|, j requires 0 <= j < |methods| => MethodFailure(schema, methods[j], draws(k, j)))
  }

  /** How many methods come before the first one that is refused. */
  function WritableCount(schema: Schema, methods: seq<MethodDTO>, draws: Draws, k: nat): (r: nat)
    ensures r <= |methods|
  {
    FirstSome(MethodFailures(schema, methods, draws, k))
  }

  /** Why the first refused method is refused. */
  function MethodsFailure(schema: Schema, methods: seq<MethodDTO>, draws: Draws, k: nat): Option<Error> {
    var j := WritableCount(schema, methods, draws, k);
    if j == |methods| then None else MethodFailures(schema, methods, draws, k)[j]
  }

  lemma MethodFailuresStep(schema: Schema, methods: seq<MethodDTO>, draws: Draws, k: nat)
    requires methods != []
    ensures var n := |methods| - 1;
            MethodFailures(schema, methods, draws, k)
            == MethodFailures(schema, methods[..n], draws, k) + [MethodFailure(schema, methods[n], draws(k, n))]
  {
  }

  /** The count and the failure, one method at a time. */
  lemma CountStep(schema: Schema, methods: seq<MethodDTO>, draws: Draws, k: nat)
    requires methods != []
    ensures var n := |methods| - 1;
            var failure, last := MethodsFailure(schema, methods[..n], draws, k), MethodFailure(schema, methods[n], draws(k, n));
            && (failure.None? <==> WritableCount(schema, methods[..n], draws, k) == n)
            && WritableCount(schema, methods, draws, k)
               == (if failure.Some? then WritableCount(schema, methods[..n], draws, k) else if last.Some? then n else n + 1)
            && MethodsFailure(schema, methods, draws, k) == if failure.Some? then failure else last
  {
    var n := |methods| - 1;
    var before := MethodFailures(schema, methods[..n], draws, k);
    var last := MethodFailure(schema, methods[n], draws(k, n));
    MethodFailuresStep(schema, methods, draws, k);
    FirstSomeStep(before, last);
    FirstSomeIs(before);
  }

  /** Why the service refuses a host, if it does; `taken` are the addresses there are. */
  function HostFailure(schema: Schema, taken: set<Addr>, dto: CreateHostDTO): Option<Error> {
    if dto.ip.InvalidAddr? then Some(BadIP)
    else if Stored(schema.hostName, dto.name).None? || Stored(schema.hostDescription, dto.description).None? then Some(DoesNotFit)
    else if schema.address(dto.ip) in taken then Some(DuplicateIP)
    else if !TagsFit(schema, TagSet(dto.tags)) then Some(DoesNotFit)
    else None
  }

  lemma InsertHostFails(s: Store, dto: CreateHostDTO)
    ensures InsertHost(s, dto).Err? <==> HostFailure(s.schema, Addresses(s.hosts), dto).Some?
    ensures InsertHost(s, dto).Err? ==> HostFailure(s.schema, Addresses(s.hosts), dto) == Some(InsertHost(s, dto).error)
  {
    NormalizeTagsIsTagSet(dto.tags);
    assert HasIP(s, s.schema.address(dto.ip)) <==> s.schema.address(dto.ip) in Addresses(s.hosts);
  }

  /** The addresses there are once the candidates are stored. */
  function Taken(schema: Schema, taken: set<Addr>, candidates: seq<Candidate>): set<Addr> {
    taken + set i | 0 <= i < |candidates| :: schema.address(candidates[i].host.ip)
  }

  /** Why the host of candidate `k` is refused once those before it are stored, if it is. */
  function HostFailureAt(schema: Schema, taken: set<Addr>, candidates: seq<Candidate>, k: nat): Option<Error>
    requires k < |candidates|
  {
    HostFailure(schema, Taken(schema, taken, candidates[..k]), candidates[k].host)
  }

  /** Why the import stops at candidate `k`, if it does. */
  function FailureAt(schema: Schema, taken: set<Addr>, candidates: seq<Candidate>, draws: Draws, k: nat): Option<Error>
    requires k < |candidates|
  {
    if HostFailureAt(schema, taken, candidates, k).Some? then HostFailureAt(schema, taken, candidates, k)
    else MethodsFailure(schema, candidates[k].methods, draws, k)
  }

  function Failures(schema: Schema, taken: set<Addr>, candidates: seq<Candidate>, draws: Draws): seq<Option<Error>> {
    seq(|candidates|, k requires 0 <= k < |candidates| => FailureAt(schema, taken, candidates, draws, k))
  }

  /** The candidate at which the import stops, or their number. */
  function StopsAt(schema: Schema, taken: set<Addr>, candidates: seq<Candidate>, draws: Draws): (k: nat)
    ensures k <= |candidates|
  {
    FirstSome(Failures(schema, taken, candidates, draws))
  }

  /** Why the import stops, if it does: the first reason, in the order of writing. */
  function Failure(schema: Schema, taken: set<Addr>, candidates: seq<Candidate>, draws: Draws): Option<Error> {
    var k := StopsAt(schema, taken, candidates, draws);
    if k == |candidates| then None else Failures(schema, taken, candidates, draws)[k]
  }

  /** A candidate with the methods before the first one that is refused. */
  function Cut(schema: Schema, candidate: Candidate, draws: Draws, k: nat): Candidate {
    candidate.(methods := candidate.methods[..WritableCount(schema, candidate.methods, draws, k)])
  }

  /** The candidates before the one at which the import stops, and what is stored of
      that one: nothing, or the host with the methods before the refused one. */
  function Written(schema: Schema, taken: set<Addr>, candidates: seq<Candidate>, draws: Draws): seq<Candidate> {
    var k := StopsAt(schema, taken, candidates, draws);
    candidates[..k]
    + if k == |candidates| || HostFailureAt(schema, taken, candidates, k).Some? then []
      else [Cut(schema, candidates[k], draws, k)]
  }

  lemma FailuresStep(schema: Schema, taken: set<Addr>, candidates: seq<Candidate>, draws: Draws)
    requires candidates != []
    ensures var n := |candidates| - 1;
            Failures(schema, taken, candidates, draws)
            == Failures(schema, taken, candidates[..n], draws) + [FailureAt(schema, taken, candidates, draws, n)]
  {
    var n := |candidates| - 1;
    forall k | 0 <= k < n
      ensures FailureAt(schema, taken, candidates[..n], draws, k) == FailureAt(schema, taken, candidates, draws, k)
    {
      SameFailure(schema, taken, candidates, draws, n, k);
    }
  }

  lemma SameFailure(schema: Schema, taken: set<Addr>, candidates: seq<Candidate>, draws: Draws, n: nat, k: nat)
    requires k < n <= |candidates|
    ensures HostFailureAt(schema, taken, candidates[..n], k) == HostFailureAt(schema, taken, candidates, k)
    ensures FailureAt(schema, taken, candidates[..n], draws, k) == FailureAt(schema, taken, candidates, draws, k)
  {
    assert candidates[..n][..k] == candidates[..k];
  }

  /** The stop, one candidate at a time. */
  lemma StopStep(schema: Schema, taken: set<Addr>, candidates: seq<Candidate>, draws: Draws)
    requires candidates != []
    ensures var n := |candidates| - 1;
            var failure, last := Failure(schema, taken, candidates[..n], draws), FailureAt(schema, taken, candidates, draws, n);
            && (failure.None? <==> StopsAt(schema, taken, candidates[..n], draws) == n)
            && StopsAt(schema, taken, candidates, draws)
               == (if failure.Some? then StopsAt(schema, taken, candidates[..n], draws) else if last.Some? then n else n + 1)
            && Failure(schema, taken, candidates, draws) == if failure.Some? then failure else last
  {
    var n := |candidates| - 1;
    var before := Failures(schema, taken, candidates[..n], draws);
    FailuresStep(schema, taken, candidates, draws);
    FirstSomeStep(before, FailureAt(schema, taken, candidates, draws, n));
    FirstSomeIs(before);
  }

  lemma WholeCut(schema: Schema, candidate: Candidate, draws: Draws, k: nat)
    requires MethodsFailure(schema, candidate.methods, draws, k).None?
    ensures Cut(schema, candidate, draws, k) == candidate
  {
    FirstSomeIs(MethodFailures(schema, candidate.methods, draws, k));
    assert candidate.methods[..|candidate.methods|] == candidate.methods;
  }

  /** What is written, one candidate at a time. */
  lemma WrittenStep(schema: Schema, taken: set<Addr>, candidates: seq<Candidate>, draws: Draws)
    requires candidates != []
    ensures var n := |candidates| - 1;
            && (Failure(schema, taken, candidates[..n], draws).Some? ==>
                  Written(schema, taken, candidates, draws) == Written(schema, taken, candidates[..n], draws))
            && (Failure(schema, taken, candidates[..n], draws).None? ==>
                  && Written(schema, taken, candidates[..n], draws) == candidates[..n]
                  && Written(schema, taken, candidates, draws)
                     == candidates[..n]
                        + if HostFailureAt(schema, taken, candidates, n).Some? then [] else [Cut(schema, candidates[n], draws, n)])
  {
    var n := |candidates| - 1;
    StopStep(schema, taken, candidates, draws);
    var k := StopsAt(schema, taken, candidates[..n], draws);
    if k < n {
      SameFailure(schema, taken, candidates, draws, n, k);
      assert candidates[..n][..k] == candidates[..k];
    } else if FailureAt(schema, taken, candidates, draws, n).None? {
      WholeCut(schema, candidates[n], draws, n);
      assert candidates[..n] + [candidates[n]] == candidates;
    }
  }

  /** Exactly when the import does not stop: no host is refused, given the addresses
      taken before it, and no method is; and then everything is written. */
  lemma NoFailureExactly(schema: Schema, taken: set<Addr>, candidates: seq<Candidate>, draws: Draws)
    ensures Failure(schema, taken, candidates, draws).None? <==>
            forall k :: 0 <= k < |candidates| ==> FailureAt(schema, taken, candidates, draws, k).None?
    ensures Failure(schema, taken, candidates, draws).None? ==> Written(schema, taken, candidates, draws) == candidates
  {
    var failures := Failures(schema, taken, candidates, draws);
    FirstSomeIs(failures);
    assert forall k :: 0 <= k < |candidates| ==> failures[k] == FailureAt(schema, taken, candidates, draws, k);
  }

  /** A candidate has no failure exactly when its host is kept and so is every method. */
  lemma NoFailureAtExactly(schema: Schema, taken: set<Addr>, candidates: seq<Candidate>, draws: Draws, k: nat)
    requires k < |candidates|
    ensures FailureAt(schema, taken, candidates, draws, k).None? <==>
            && HostFailureAt(schema, taken, candidates, k).None?
            && forall j :: 0 <= j < |candidates[k].methods| ==> MethodFailure(schema, candidates[k].methods[j], draws(k, j)).None?
  {
    FirstSomeIs(MethodFailures(schema, candidates[k].methods, draws, k));
    assert forall j :: 0 <= j < |candidates[k].methods| ==>
             MethodFailures(schema, candidates[k].methods, draws, k)[j] == MethodFailure(schema, candidates[k].methods[j], draws(k, j));
  }

  /** Where a failed import stops: at host `k`, of which nothing is stored, or at method
      `j` of candidate `k`. Everything before is fine, and is what is written. */
  lemma StopsExactly(schema: Schema, taken: set<Addr>, candidates: seq<Candidate>, draws: Draws) returns (k: nat, j: Option<nat>)
    requires Failure(schema, taken, candidates, draws).Some?
    ensures k < |candidates| && forall i :: 0 <= i < k ==> FailureAt(schema, taken, candidates, draws, i).None?
    ensures j.None? ==>
              && HostFailureAt(schema, taken, candidates, k) == Failure(schema, taken, candidates, draws)
              && Written(schema, taken, candidates, draws) == candidates[..k]
    ensures j.Some? ==>
              && HostFailureAt(schema, taken, candidates, k).None? && j.value < |candidates[k].methods|
              && (forall i :: 0 <= i < j.value ==> MethodFailure(schema, candidates[k].methods[i], draws(k, i)).None?)
              && MethodFailure(schema, candidates[k].methods[j.value], draws(k, j.value)) == Failure(schema, taken, candidates, draws)
              && Written(schema, taken, candidates, draws)
                 == candidates[..k] + [candidates[k].(methods := candidates[k].methods[..j.value])]
  {
    var failures := Failures(schema, taken, candidates, draws);
    FirstSomeIs(failures);
    assert forall i :: 0 <= i < |candidates| ==> failures[i] == FailureAt(schema, taken, candidates, draws, i);
    k := StopsAt(schema, taken, candidates, draws);
    assert FailureAt(schema, taken, candidates, draws, k) == Failure(schema, taken, candidates, draws);
    if HostFailureAt(schema, taken, candidates, k).Some? {
      j := None;
    } else {
      var stop := MethodStop(schema, candidates[k].methods, draws, k);
      j := Some(stop);
    }
  }

  lemma MethodStop(schema: Schema, methods: seq<MethodDTO>, draws: Draws, k: nat) returns (j: nat)
    requires MethodsFailure(schema, methods, draws, k).Some?
    ensures j == WritableCount(schema, methods, draws, k) < |methods|
    ensures forall i :: 0 <= i < j ==> MethodFailure(schema, methods[i], draws(k, i)).None?
    ensures MethodFailure(schema, methods[j], draws(k, j)) == MethodsFailure(schema, methods, draws, k)
  {
    var failures := MethodFailures(schema, methods, draws, k);
    FirstSomeIs(failures);
    j := WritableCount(schema, methods, draws, k);
    assert forall i :: 0 <= i < |methods| ==> failures[i] == MethodFailure(schema, methods[i], draws(k, i));
  }

  // ---------------------------------------------------------------- one host

  /** A payload as the service stores it. */
  function CleanedMethod(m: MethodDTO): MethodDTO {
    MethodDTO(ImportedName(m), m.kind, Trim(m.username), NormalizePort(m.port), Trim(m.description),
              if m.kind.SSHPassword? then Secret(Trim(m.secret.password), "", "")
              else Secret("", Trim(m.secret.publicKey), Trim(m.secret.privateKey)))
  }

  /** Cleaning trims every text, gives a method without a name that of its type and one
      without a port 22, and keeps only the secret that its type has. */
  lemma CleanedExactly(m: MethodDTO)
    ensures var row := CleanedMethod(m);
            && row.kind == m.kind && row.username == Trim(m.username) && row.description == Trim(m.description)
            && (Trim(m.name) != "" ==> row.name == Trim(m.name))
            && (Trim(m.name) == "" && m.kind.SSHPassword? ==> row.name == "SSH password")
            && (Trim(m.name) == "" && m.kind.SSHKey? ==> row.name == "SSH private key")
            && (m.port != 0 ==> row.port == m.port) && (m.port == 0 ==> row.port == 22)
            && (m.kind.SSHPassword? ==> row.secret == Secret(Trim(m.secret.password), "", ""))
            && (m.kind.SSHKey? ==> row.secret == Secret("", Trim(m.secret.publicKey), Trim(m.secret.privateKey)))
  {
  }

  function CleanedMethods(methods: seq<MethodDTO>): seq<MethodDTO> {
    seq(|methods|, i requires 0 <= i < |methods| => CleanedMethod(methods[i]))
  }

  ghost predicate GoodDraws(c: Crypto, draws: Draws) {
    forall k, j :: GoodNonce(c, draws(k, j))
  }

  lemma ImportedNameIsTrimmed(m: MethodDTO)
    requires !m.kind.OtherType?
    ensures Trim(ImportedName(m)) == ImportedName(m) && ImportedName(m) != ""
  {
    TrimIsTrimmed(m.name);
    TrimIsTrimmed(ImportedName(m));
  }

  /** Of the service's own checks none can fail for a method let through by phase one:
      it fails only when no nonce can be drawn or it does not fit its columns. */
  lemma ImportMethodExactly(s: Store, c: Crypto, hostID: UUID, m: MethodDTO, nonce: Option<Bytes>)
    requires Lawful(c) && Valid(s, c) && HasHost(s, hostID) && ImportableMethod(m) && GoodNonce(c, nonce)
    ensures var r := ImportMethod(s, c, hostID, m, nonce);
            var failure := MethodFailure(s.schema, m, nonce);
            if failure.Some? then r == Err(failure.value)
            else
              && r.Ok? && Valid(r.value, c) && r.value.hosts == s.hosts && r.value.schema == s.schema
              && |r.value.methods| == |s.methods| + 1 && r.value.methods[..|s.methods|] == s.methods
              && var row := r.value.methods[|s.methods|];
                 row.hostID == hostID && SecretOf(c, row).Ok? && RowPayload(c, row) == CleanedMethod(m)
  {
    ImportedNameIsTrimmed(m);
    if MethodFailure(s.schema, m, nonce).None? {
      CreatedSecret(s, c, hostID, ToInput(m), nonce, m.kind.SSHKey?);
      CreateMethodKeepsValid(s, c, hostID, ToInput(m), nonce, m.kind.SSHKey?);
    }
  }

  /** What the writes so far have done to the methods: rows of one host were added. */
  ghost predicate RowsAdded(c: Crypto, was: Store, now: Store, hostID: UUID) {
    && Valid(now, c) && now.schema == was.schema && now.hosts == was.hosts && was.methods <= now.methods
    && forall h :: h != hostID ==> RowPayloads(c, now.methods, h) == RowPayloads(c, was.methods, h)
  }

  /** The outcome of writing a host's methods: those before the first that is refused. */
  ghost predicate MethodsWritten(c: Crypto, s: Store, hostID: UUID, methods: seq<MethodDTO>, draws: Draws, k: nat, done: Progress) {
    && RowsAdded(c, s, done.store, hostID)
    && done.error == MethodsFailure(s.schema, methods, draws, k)
    && RowPayloads(c, done.store.methods, hostID)
       == RowPayloads(c, s.methods, hostID) + CleanedMethods(methods[..WritableCount(s.schema, methods, draws, k)])
  }

  lemma {:induction false} ImportMethodsExactly(s: Store, c: Crypto, hostID: UUID, methods: seq<MethodDTO>, draws: Draws, k: nat)
    requires Lawful(c) && Valid(s, c) && HasHost(s, hostID) && Importable(methods) && GoodDraws(c, draws)
    ensures MethodsWritten(c, s, hostID, methods, draws, k, ImportMethods(s, c, hostID, methods, draws, k))
  {
    if methods == [] {
      assert CleanedMethods(methods) == [];
    } else {
      var n := |methods| - 1;
      assert Importable(methods[..n]) && ImportableMethod(methods[n]);
      ImportMethodsExactly(s, c, hostID, methods[..n], draws, k);
      CountStep(s.schema, methods, draws, k);
      WrittenPrefix(methods, WritableCount(s.schema, methods[..n], draws, k));
      var before := ImportMethods(s, c, hostID, methods[..n], draws, k);
      if before.error.None? {
        ImportMethodExactly(before.store, c, hostID, methods[n], draws(k, n));
        if MethodFailure(s.schema, methods[n], draws(k, n)).None? {
          OneMoreMethod(s, c, hostID, methods, draws, k, before, ImportMethod(before.store, c, hostID, methods[n], draws(k, n)).value);
        }
      }
    }
  }

  lemma WholeCleaned(schema: Schema, methods: seq<MethodDTO>, draws: Draws, k: nat)
    requires methods != [] && MethodsFailure(schema, methods[..|methods| - 1], draws, k).None?
    requires MethodFailure(schema, methods[|methods| - 1], draws(k, |methods| - 1)).None?
    ensures MethodsFailure(schema, methods, draws, k).None?
    ensures var n := |methods| - 1;
            var before := methods[..n];
            CleanedMethods(methods[..WritableCount(schema, methods, draws, k)])
            == CleanedMethods(before[..WritableCount(schema, before, draws, k)]) + [CleanedMethod(methods[n])]
  {
    CountStep(schema, methods, draws, k);
    CleanedLast(methods);
    assert methods[..|methods|] == methods && methods[..|methods| - 1][..|methods| - 1] == methods[..|methods| - 1];
  }

  lemma OneMoreMethod(s: Store, c: Crypto, hostID: UUID, methods: seq<MethodDTO>, draws: Draws, k: nat, before: Progress, after: Store)
    requires methods != [] && MethodFailure(s.schema, methods[|methods| - 1], draws(k, |methods| - 1)).None?
    requires MethodsWritten(c, s, hostID, methods[..|methods| - 1], draws, k, before) && before.error.None?
    requires Valid(after, c) && after.hosts == before.store.hosts && after.schema == s.schema
    requires |after.methods| == |before.store.methods| + 1 && after.methods[..|before.store.methods|] == before.store.methods
    requires var row := after.methods[|before.store.methods|];
             row.hostID == hostID && SecretOf(c, row).Ok? && RowPayload(c, row) == CleanedMethod(methods[|methods| - 1])
    ensures MethodsWritten(c, s, hostID, methods, draws, k, before.(store := after))
  {
    WholeCleaned(s.schema, methods, draws, k);
    OneMoreRow(c, s, before.store, after, hostID);
  }

  lemma WrittenPrefix(methods: seq<MethodDTO>, j: nat)
    requires methods != [] && j <= |methods| - 1
    ensures methods[..|methods| - 1][..j] == methods[..j]
  {
  }

  lemma CleanedLast(methods: seq<MethodDTO>)
    requires methods != []
    ensures CleanedMethods(methods) == CleanedMethods(methods[..|methods| - 1]) + [CleanedMethod(methods[|methods| - 1])]
  {
    assert methods == methods[..|methods| - 1] + [methods[|methods| - 1]];
    CleanedStep(methods[..|methods| - 1], methods[|methods| - 1]);
  }

  lemma OneMoreRow(c: Crypto, s: Store, before: Store, after: Store, hostID: UUID)
    requires RowsAdded(c, s, before, hostID) && Valid(after, c) && after.hosts == before.hosts && after.schema == before.schema
    requires |after.methods| == |before.methods| + 1 && after.methods[..|before.methods|] == before.methods
    requires after.methods[|before.methods|].hostID == hostID && SecretOf(c, after.methods[|before.methods|]).Ok?
    ensures RowsAdded(c, s, after, hostID)
    ensures RowPayloads(c, after.methods, hostID)
         == RowPayloads(c, before.methods, hostID) + [RowPayload(c, after.methods[|before.methods|])]
  {
    assert s.methods <= before.methods <= after.methods;
    forall h
      ensures RowPayloads(c, after.methods, h)
           == RowPayloads(c, before.methods, h) + if h == hostID then [RowPayload(c, after.methods[|before.methods|])] else []
    {
      RowAppended(c, before.methods, after.methods, h);
    }
  }

  lemma CleanedStep(methods: seq<MethodDTO>, m: MethodDTO)
    ensures CleanedMethods(methods + [m]) == CleanedMethods(methods) + [CleanedMethod(m)]
  {
  }

  lemma RowAppended(c: Crypto, was: seq<Method>, now: seq<Method>, h: UUID)
    requires |now| == |was| + 1 && now[..|was|] == was && SecretOf(c, now[|was|]).Ok?
    ensures RowPayloads(c, now, h)
         == RowPayloads(c, was, h) + if now[|was|].hostID == h then [RowPayload(c, now[|was|])] else []
  {
  }

  lemma {:induction false} NoRowsYet(c: Crypto, methods: seq<Method>, hostID: UUID)
    requires forall i :: 0 <= i < |methods| ==> methods[i].hostID != hostID
    ensures RowPayloads(c, methods, hostID) == []
  {
    if methods != [] {
      NoRowsYet(c, methods[..|methods| - 1], hostID);
    }
  }

  /** The stored host says what the candidate said, as the columns keep it. */
  ghost predicate HoldsAs(c: Crypto, s: Store, h: Host, candidate: Candidate) {
    && h.name == Kept(s.schema.hostName, candidate.host.name)
    && h.description == Kept(s.schema.hostDescription, candidate.host.description)
    && h.tags == TagSet(candidate.host.tags) && h.ip == s.schema.address(candidate.host.ip)
    && RowPayloads(c, s.methods, h.id) == CleanedMethods(candidate.methods)
  }

  /** Hosts were added; those that were there have the same methods as before. */
  ghost predicate HostsAdded(c: Crypto, was: Store, now: Store) {
    && Valid(now, c) && now.schema == was.schema
    && was.hosts <= now.hosts && was.methods <= now.methods && was.nextID <= now.nextID
    && forall i :: 0 <= i < |was.hosts| ==>
         RowPayloads(c, now.methods, was.hosts[i].id) == RowPayloads(c, was.methods, was.hosts[i].id)
  }

  lemma ImportOneExactly(s: Store, c: Crypto, candidate: Candidate, draws: Draws, k: nat)
    requires Lawful(c) && Valid(s, c) && GoodDraws(c, draws) && Importable(candidate.methods)
    ensures var done := ImportOne(s, c, candidate, draws, k);
            && HostsAdded(c, s, done.store)
            && done.error == (if HostFailure(s.schema, Addresses(s.hosts), candidate.host).Some?
                              then HostFailure(s.schema, Addresses(s.hosts), candidate.host)
                              else MethodsFailure(s.schema, candidate.methods, draws, k))
            && done.imported == (if done.error.None? then 1 else 0)
            && if HostFailure(s.schema, Addresses(s.hosts), candidate.host).Some? then done.store == s
               else
                 && |done.store.hosts| == |s.hosts| + 1
                 && HoldsAs(c, done.store, done.store.hosts[|s.hosts|], Cut(s.schema, candidate, draws, k))
  {
    InsertHostFails(s, candidate.host);
    if HostFailure(s.schema, Addresses(s.hosts), candidate.host).None? {
      StoredHost(s, c, candidate, draws, k);
    }
  }

  lemma StoredHost(s: Store, c: Crypto, candidate: Candidate, draws: Draws, k: nat)
    requires Lawful(c) && Valid(s, c) && GoodDraws(c, draws) && Importable(candidate.methods)
    requires InsertHost(s, candidate.host).Ok?
    ensures var done := ImportOne(s, c, candidate, draws, k);
            && HostsAdded(c, s, done.store) && |done.store.hosts| == |s.hosts| + 1
            && done.error == MethodsFailure(s.schema, candidate.methods, draws, k)
            && done.imported == (if done.error.None? then 1 else 0)
            && HoldsAs(c, done.store, done.store.hosts[|s.hosts|], Cut(s.schema, candidate, draws, k))
  {
    var created := InsertHost(s, candidate.host).value;
    CreateHostKeepsValid(s, c, candidate.host);
    NormalizeTagsIsTagSet(candidate.host.tags);
    assert created.hosts[|s.hosts|].id == s.nextID;
    assert HasHost(created, s.nextID);
    ImportMethodsExactly(created, c, s.nextID, candidate.methods, draws, k);
    forall i | 0 <= i < |s.methods|
      ensures s.methods[i].hostID != s.nextID
    {
    }
    NoRowsYet(c, s.methods, s.nextID);
    NextIDGrows(created, c, s.nextID, candidate.methods, draws, k);
    var written := CleanedMethods(candidate.methods[..WritableCount(s.schema, candidate.methods, draws, k)]);
    assert [] + written == written;
  }

  lemma {:induction false} NextIDGrows(s: Store, c: Crypto, hostID: UUID, methods: seq<MethodDTO>, draws: Draws, k: nat)
    ensures ImportMethods(s, c, hostID, methods, draws, k).store.nextID >= s.nextID
    ensures ImportMethods(s, c, hostID, methods, draws, k).imported == 0
  {
    if methods != [] {
      var n := |methods| - 1;
      NextIDGrows(s, c, hostID, methods[..n], draws, k);
      NextIDGrowsByOne(ImportMethods(s, c, hostID, methods[..n], draws, k).store, c, hostID, methods[n], draws(k, n));
    }
  }

  lemma NextIDGrowsByOne(s: Store, c: Crypto, hostID: UUID, m: MethodDTO, nonce: Option<Bytes>)
    ensures var r := ImportMethod(s, c, hostID, m, nonce); r.Ok? ==> r.value.nextID >= s.nextID
  {
  }

  // ---------------------------------------------------------------- all candidates

  ghost predicate AllImportable(candidates: seq<Candidate>) {
    forall k :: 0 <= k < |candidates| ==> Importable(candidates[k].methods)
  }

  ghost predicate AllHeld(c: Crypto, was: Store, now: Store, candidates: seq<Candidate>) {
    && |now.hosts| == |was.hosts| + |candidates|
    && forall k :: 0 <= k < |candidates| ==> HoldsAs(c, now, now.hosts[|was.hosts| + k], candidates[k])
  }

  /** The outcome of writing the candidates: what comes before the first refusal is
      stored, and nothing else. */
  ghost predicate CandidatesWritten(c: Crypto, s: Store, candidates: seq<Candidate>, draws: Draws, done: Progress) {
    && HostsAdded(c, s, done.store)
    && done.error == Failure(s.schema, Addresses(s.hosts), candidates, draws)
    && AllHeld(c, s, done.store, Written(s.schema, Addresses(s.hosts), candidates, draws))
    && (done.error.None? ==> done.imported == |candidates|)
  }

  /** Phase two fails exactly at the first host or method that the database does not keep
      or for which no nonce is drawn. Whatever happens, what was there before stays, and
      what was written before the failure stays too. */
  lemma {:induction false} ImportAllExactly(s: Store, c: Crypto, candidates: seq<Candidate>, draws: Draws)
    requires Lawful(c) && Valid(s, c) && GoodDraws(c, draws) && AllImportable(candidates)
    ensures CandidatesWritten(c, s, candidates, draws, ImportAll(s, c, candidates, draws))
  {
    if candidates != [] {
      var n := |candidates| - 1;
      assert AllImportable(candidates[..n]);
      StopStep(s.schema, Addresses(s.hosts), candidates, draws);
      WrittenStep(s.schema, Addresses(s.hosts), candidates, draws);
      ImportAllExactly(s, c, candidates[..n], draws);
      var before := ImportAll(s, c, candidates[..n], draws);
      if before.error.None? {
        OneMoreCandidate(s, c, candidates, draws, before);
      }
    }
  }

  lemma OneMoreCandidate(s: Store, c: Crypto, candidates: seq<Candidate>, draws: Draws, before: Progress)
    requires Lawful(c) && GoodDraws(c, draws) && AllImportable(candidates) && candidates != []
    requires CandidatesWritten(c, s, candidates[..|candidates| - 1], draws, before) && before.error.None?
    ensures var after := ImportOne(before.store, c, candidates[|candidates| - 1], draws, |candidates| - 1);
            CandidatesWritten(c, s, candidates, draws, after.(imported := before.imported + after.imported))
  {
    var n := |candidates| - 1;
    var existing := Addresses(s.hosts);
    StopStep(s.schema, existing, candidates, draws);
    WrittenStep(s.schema, existing, candidates, draws);
    TakenIsStored(s, c, before.store, candidates[..n]);
    ImportOneExactly(before.store, c, candidates[n], draws, n);
    var after := ImportOne(before.store, c, candidates[n], draws, n);
    HostsAddedIsTransitive(c, s, before.store, after.store);
    if HostFailureAt(s.schema, existing, candidates, n).None? {
      AllHeldStep(c, s, before.store, after.store, candidates[..n], Cut(s.schema, candidates[n], draws, n));
    }
  }

  lemma TakenIsStored(s: Store, c: Crypto, now: Store, candidates: seq<Candidate>)
    requires s.hosts <= now.hosts && now.schema == s.schema && AllHeld(c, s, now, candidates)
    ensures Addresses(now.hosts) == Taken(s.schema, Addresses(s.hosts), candidates)
  {
    forall i | 0 <= i < |now.hosts|
      ensures now.hosts[i].ip in Taken(s.schema, Addresses(s.hosts), candidates)
    {
      if i < |s.hosts| {
        assert s.hosts[i] == now.hosts[i];
      } else {
        assert HoldsAs(c, now, now.hosts[|s.hosts| + (i - |s.hosts|)], candidates[i - |s.hosts|]);
      }
    }
    forall i | 0 <= i < |s.hosts|
      ensures s.hosts[i].ip in Addresses(now.hosts)
    {
      assert now.hosts[i] == s.hosts[i];
    }
    forall k | 0 <= k < |candidates|
      ensures s.schema.address(candidates[k].host.ip) in Addresses(now.hosts)
    {
      assert HoldsAs(c, now, now.hosts[|s.hosts| + k], candidates[k]);
    }
  }

  lemma HostsAddedIsTransitive(c: Crypto, a: Store, b: Store, d: Store)
    requires HostsAdded(c, a, b) && HostsAdded(c, b, d)
    ensures HostsAdded(c, a, d)
  {
    forall i | 0 <= i < |a.hosts|
      ensures RowPayloads(c, d.methods, a.hosts[i].id) == RowPayloads(c, a.methods, a.hosts[i].id)
    {
      assert b.hosts[i] == a.hosts[i];
    }
  }

  lemma AllHeldStep(c: Crypto, s: Store, before: Store, after: Store, front: seq<Candidate>, last: Candidate)
    requires HostsAdded(c, before, after) && |after.hosts| == |before.hosts| + 1
    requires AllHeld(c, s, before, front) && HoldsAs(c, after, after.hosts[|before.hosts|], last)
    ensures AllHeld(c, s, after, front + [last])
  {
    forall k | 0 <= k < |front|
      ensures HoldsAs(c, after, after.hosts[|s.hosts| + k], front[k])
    {
      assert HoldsAs(c, before, before.hosts[|s.hosts| + k], front[k]);
      assert after.hosts[|s.hosts| + k] == before.hosts[|s.hosts| + k];
    }
  }
}
