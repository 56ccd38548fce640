/** Export and import of hosts (internal/web/handlers/hosts.go:951-1108, 1142-1212).
    The payload stands for the JSON that carries it. */
module HostImport {
  import opened Identifiers
  import opened Ordering
  import opened Text
  import opened HostTags
  import opened SecretCipher
  import opened HostService

  datatype MethodDTO = MethodDTO(name: string, kind: MethodType, username: string, port: nat, description: string, secret: Secret)

  datatype HostDTO = HostDTO(name: string, description: string, tags: seq<string>, ip: Addr, methods: seq<MethodDTO>)

  // ---------------------------------------------------------------- export

  lemma BeforeIsStrictTotal()
    ensures StrictTotal(Before)
  {
    forall a, b
      ensures Before(a, b) || a == b || Before(b, a)
      ensures !(Before(a, b) && Before(b, a))
    {
      BeforeIsTotal(a, b);
    }
    forall a, b, c | Before(a, b) && Before(b, c)
      ensures Before(a, c)
    {
      BeforeIsTransitive(a, b, c);
    }
  }

  /** A host's tags, by name. */
  ghost function SortedTags(tags: set<string>): seq<string> {
    BeforeIsStrictTotal();
    Listing(tags, Before)
  }

  lemma SortedTagsAreTheTags(tags: set<string>)
    ensures Elements(SortedTags(tags)) == tags && Sorted(SortedTags(tags), Before)
  {
    BeforeIsStrictTotal();
    ListingIsSorted(tags, Before);
  }

  /** A host's methods, oldest first. */
  function MethodsOf(methods: seq<Method>, hostID: UUID): seq<Method> {
    if methods == [] then []
    else
      var last := methods[|methods| - 1];
      MethodsOf(methods[..|methods| - 1], hostID) + if last.hostID == hostID then [last] else []
  }

  function MethodPayload(m: Method, secret: Secret): MethodDTO {
    MethodDTO(m.name, m.kind, m.username, m.port, m.description, secret)
  }

  /** The methods whose secret can be read; the others are skipped. */
  function MethodPayloads(s: Store, c: Crypto, hostID: UUID, methods: seq<Method>): seq<MethodDTO> {
    if methods == [] then []
    else
      var last := methods[|methods| - 1];
      var secret := GetSecret(s, c, hostID, last.id);
      MethodPayloads(s, c, hostID, methods[..|methods| - 1]) + if secret.Ok? then [MethodPayload(last, secret.value)] else []
  }

  /** One host with its methods: all that a store holds about it, up to identifiers. */
  ghost function HostPayload(s: Store, c: Crypto, h: Host): HostDTO {
    HostDTO(h.name, h.description, SortedTags(h.tags), h.ip, MethodPayloads(s, c, h.id, MethodsOf(s.methods, h.id)))
  }

  ghost function Payloads(s: Store, c: Crypto, hosts: seq<Host>): seq<HostDTO> {
    seq(|hosts|, i requires 0 <= i < |hosts| => HostPayload(s, c, hosts[i]))
  }

  ghost function Export(s: Store, c: Crypto): seq<HostDTO> {
    Payloads(s, c, HostsTagged(s.hosts, {}))
  }

  // ---------------------------------------------------------------- import, phase one

  datatype Candidate = Candidate(index: nat, host: CreateHostDTO, methods: seq<MethodDTO>)

  datatype Reply =
    | InvalidHost(index: nat)
    | InvalidMethod(index: nat, methodIndex: nat)
    | CreateFailed(error: Error)
    | Imported(imported: nat, skipped: nat, total: nat)

  /** A method that `validateImportedManagementMethods` lets through. */
  predicate ImportableMethod(m: MethodDTO) {
    && Trim(m.username) != ""
    && match m.kind
       case SSHPassword => Trim(m.secret.password) != ""
       case SSHKey => Trim(m.secret.publicKey) != "" && Trim(m.secret.privateKey) != ""
       case OtherType(_) => false
  }

  predicate Importable(methods: seq<MethodDTO>) {
    forall i :: 0 <= i < |methods| ==> ImportableMethod(methods[i])
  }

  /** The index of the first method that is refused. */
  function FirstRefused(methods: seq<MethodDTO>): nat {
    if methods == [] then 0
    else
      var before := FirstRefused(methods[..|methods| - 1]);
      if before < |methods| - 1 || !ImportableMethod(methods[|methods| - 1]) then before else |methods|
  }

  predicate WellNamed(item: HostDTO) {
    Trim(item.name) != "" && item.ip.Addr?
  }

  datatype Screening =
    | Screened(seen: set<Addr>, candidates: seq<Candidate>, skipped: nat)
    | Rejected(reply: Reply)

  function CandidateFor(index: nat, item: HostDTO): Candidate {
    Candidate(index, CreateHostDTO(item.name, item.description, item.tags, item.ip), item.methods)
  }

  /** The effect of one more item. */
  function ScreenOne(existing: set<Addr>, before: Screening, item: HostDTO, index: nat): Screening
    requires before.Screened?
  {
    if !WellNamed(item) then Rejected(InvalidHost(index))
    else if item.ip in existing || item.ip in before.seen then before.(skipped := before.skipped + 1)
    else if !Importable(item.methods) then Rejected(InvalidMethod(index, FirstRefused(item.methods)))
    else Screened(before.seen + {item.ip}, before.candidates + [CandidateFor(index, item)], before.skipped)
  }

  function Screen(existing: set<Addr>, items: seq<HostDTO>): Screening {
    if items == [] then Screened({}, [], 0)
    else
      var n := |items| - 1;
      var before := Screen(existing, items[..n]);
      if before.Rejected? then before else ScreenOne(existing, before, items[n], n)
  }

  /** The first item with an address that no host had. */
  predicate FirstNew(existing: set<Addr>, items: seq<HostDTO>, i: nat)
    requires i < |items|
  {
    items[i].ip !in existing && forall j :: 0 <= j < i ==> items[j].ip != items[i].ip
  }

  // ---------------------------------------------------------------- import, phase two

  /** How far the writes got. */
  datatype Progress = Progress(store: Store, imported: nat, error: Option<Error>)

  function ImportedName(m: MethodDTO): string {
    if Trim(m.name) != "" then Trim(m.name)
    else match m.kind
      case SSHPassword => "SSH password"
      case SSHKey => "SSH private key"
      case OtherType(text) => text
  }

  function ToInput(m: MethodDTO): Input {
    Input(ImportedName(m), m.username, m.secret.password, m.secret.publicKey, m.secret.privateKey, m.port, m.description)
  }

  function ImportMethod(s: Store, c: Crypto, hostID: UUID, m: MethodDTO, nonce: Option<Bytes>): Result<Store> {
    match m.kind
    case SSHPassword => CreatePassword(s, c, hostID, ToInput(m), nonce)
    case SSHKey => CreateKey(s, c, hostID, ToInput(m), nonce)
    case OtherType(_) => Err(UnsupportedType)
  }

  /** The nonces drawn, by candidate and method. */
  type Draws = (nat, nat) -> Option<Bytes>

  function ImportMethods(s: Store, c: Crypto, hostID: UUID, methods: seq<MethodDTO>, draws: Draws, candidate: nat): Progress {
    if methods == [] then Progress(s, 0, None)
    else
      var n := |methods| - 1;
      var before := ImportMethods(s, c, hostID, methods[..n], draws, candidate);
      if before.error.Some? then before
      else
        var r := ImportMethod(before.store, c, hostID, methods[n], draws(candidate, n));
        if r.Ok? then before.(store := r.value) else before.(error := Some(r.error))
  }

  /** One candidate: the host, then its methods. What was written before a failure stays. */
  function ImportOne(s: Store, c: Crypto, candidate: Candidate, draws: Draws, k: nat): Progress {
    var created := InsertHost(s, candidate.host);
    if created.Err? then Progress(s, 0, Some(created.error))
    else
      var after := ImportMethods(created.value, c, s.nextID, candidate.methods, draws, k);
      after.(imported := if after.error.None? then 1 else 0)
  }

  function ImportAll(s: Store, c: Crypto, candidates: seq<Candidate>, draws: Draws): Progress {
    if candidates == [] then Progress(s, 0, None)
    else
      var n := |candidates| - 1;
      var before := ImportAll(s, c, candidates[..n], draws);
      if before.error.Some? then before
      else
        var after := ImportOne(before.store, c, candidates[n], draws, n);
        after.(imported := before.imported + after.imported)
  }

  function Addresses(hosts: seq<Host>): set<Addr> {
    set i | 0 <= i < |hosts| :: hosts[i].ip
  }

  /** `ImportHosts`: the reply, and the store it leaves. */
  function Import(s: Store, c: Crypto, items: seq<HostDTO>, draws: Draws): (Reply, Store) {
    match Screen(Addresses(s.hosts), items)
    case Rejected(reply) => (reply, s)
    case Screened(_, candidates, skipped) =>
      var done := ImportAll(s, c, candidates, draws);
      (if done.error.Some? then CreateFailed(done.error.value) else Imported(done.imported, skipped, |items|), done.store)
  }

  // ---------------------------------------------------------------- the handler

  /** `order by t.name` */
  method ListTagNames(tags: set<string>) returns (names: seq<string>)
    ensures names == SortedTags(tags)
  {
    BeforeIsStrictTotal();
    names := InOrder(tags, Before);
  }

  method ExportHosts(service: Service) returns (exported: seq<HostDTO>, warnings: seq<(Host, Method)>)
    ensures exported == Export(service.View(), service.cipher)
    ensures warnings == Warnings(service.View(), service.cipher, HostsTagged(service.hosts, {}))
  {
    var hosts := service.ListHosts([]);
    assert TagSet([]) == {};
    exported, warnings := [], [];
    for i := 0 to |hosts|
      invariant exported == Payloads(service.View(), service.cipher, hosts[..i])
      invariant warnings == Warnings(service.View(), service.cipher, hosts[..i])
    {
      ExportStep(service.View(), service.cipher, hosts, i);
      var tags := ListTagNames(hosts[i].tags);
      var payloads, skipped := ExportMethods(service, hosts[i]);
      exported := exported + [HostDTO(hosts[i].name, hosts[i].description, tags, hosts[i].ip, payloads)];
      warnings := warnings + skipped;
    }
    assert hosts[..|hosts|] == hosts;
  }

  lemma ExportStep(s: Store, c: Crypto, hosts: seq<Host>, i: nat)
    requires i < |hosts|
    ensures Payloads(s, c, hosts[..i + 1]) == Payloads(s, c, hosts[..i]) + [HostPayload(s, c, hosts[i])]
    ensures Warnings(s, c, hosts[..i + 1])
         == Warnings(s, c, hosts[..i]) + MethodWarnings(s, c, hosts[i], MethodsOf(s.methods, hosts[i].id))
  {
    assert hosts[..i + 1][..i] == hosts[..i];
  }

  method ExportMethods(service: Service, h: Host) returns (payloads: seq<MethodDTO>, skipped: seq<(Host, Method)>)
    ensures payloads == MethodPayloads(service.View(), service.cipher, h.id, MethodsOf(service.methods, h.id))
    ensures skipped == MethodWarnings(service.View(), service.cipher, h, MethodsOf(service.methods, h.id))
  {
    var methods := MethodsOf(service.methods, h.id);
    payloads, skipped := [], [];
    for j := 0 to |methods|
      invariant payloads == MethodPayloads(service.View(), service.cipher, h.id, methods[..j])
      invariant skipped == MethodWarnings(service.View(), service.cipher, h, methods[..j])
    {
      assert methods[..j + 1][..j] == methods[..j];
      var secret := service.GetHostManagementMethodSecret(h.id, methods[j].id);
      if secret.Err? {
        skipped := skipped + [(h, methods[j])];
        continue;
      }
      payloads := payloads + [MethodPayload(methods[j], secret.value)];
    }
    assert methods[..|methods|] == methods;
  }

  /** The methods that an export leaves out, with their hosts. */
  function MethodWarnings(s: Store, c: Crypto, h: Host, methods: seq<Method>): seq<(Host, Method)> {
    if methods == [] then []
    else
      var last := methods[|methods| - 1];
      MethodWarnings(s, c, h, methods[..|methods| - 1]) + if GetSecret(s, c, h.id, last.id).Err? then [(h, last)] else []
  }

  function Warnings(s: Store, c: Crypto, hosts: seq<Host>): seq<(Host, Method)> {
    if hosts == [] then []
    else
      var last := hosts[|hosts| - 1];
      Warnings(s, c, hosts[..|hosts| - 1]) + MethodWarnings(s, c, last, MethodsOf(s.methods, last.id))
  }

  method ValidateImportedManagementMethods(methods: seq<MethodDTO>) returns (refused: Option<nat>)
    ensures refused == if Importable(methods) then None else Some(FirstRefused(methods))
  {
    for i := 0 to |methods|
      invariant Importable(methods[..i])
    {
      var m := methods[i];
      var ok := Trim(m.username) != "";
      if ok {
        match m.kind
        case SSHPassword => ok := Trim(m.secret.password) != "";
        case SSHKey => ok := Trim(m.secret.publicKey) != "" && Trim(m.secret.privateKey) != "";
        case OtherType(_) => ok := false;
      }
      if !ok {
        FirstRefusedIs(methods, i);
        return Some(i);
      }
    }
    assert methods[..|methods|] == methods;
    refused := None;
  }

  lemma {:induction false} FirstRefusedIs(methods: seq<MethodDTO>, i: nat)
    requires i < |methods| && !ImportableMethod(methods[i]) && Importable(methods[..i])
    ensures !Importable(methods) && FirstRefused(methods) == i
  {
    var n := |methods| - 1;
    if i < n {
      assert methods[..n][..i] == methods[..i];
      FirstRefusedIs(methods[..n], i);
    } else {
      NoneRefused(methods[..n]);
    }
  }

  lemma {:induction false} NoneRefused(methods: seq<MethodDTO>)
    requires Importable(methods)
    ensures FirstRefused(methods) == |methods|
  {
    if methods != [] {
      NoneRefused(methods[..|methods| - 1]);
    }
  }

  method ImportHosts(service: Service, items: seq<HostDTO>, draws: Draws) returns (reply: Reply)
    modifies service
    ensures (reply, service.View()) == Import(old(service.View()), service.cipher, items, draws)
  {
    var existingHosts := service.ListHosts([]);
    assert TagSet([]) == {};
    var existing := Addresses(existingHosts);
    SameAddresses(service.hosts);

    var seen: set<Addr> := {};
    var candidates: seq<Candidate> := [];
    var skipped := 0;
    for i := 0 to |items|
      invariant Screen(existing, items[..i]) == Screened(seen, candidates, skipped)
      invariant service.View() == old(service.View())
    {
      ScreenPrefix(existing, items, i);
      var item := items[i];
      if Trim(item.name) == "" || item.ip.InvalidAddr? {
        ScreenRejects(existing, items, i + 1);
        return InvalidHost(i);
      }
      if item.ip in existing {
        skipped := skipped + 1;
        continue;
      }
      if item.ip in seen {
        skipped := skipped + 1;
        continue;
      }
      seen := seen + {item.ip};
      var refused := ValidateImportedManagementMethods(item.methods);
      if refused.Some? {
        ScreenRejects(existing, items, i + 1);
        return InvalidMethod(i, refused.value);
      }
      candidates := candidates + [CandidateFor(i, item)];
    }
    assert items[..|items|] == items;
    reply := CreateCandidates(service, candidates, skipped, |items|, draws);
  }

  method CreateCandidates(service: Service, candidates: seq<Candidate>, skipped: nat, total: nat, draws: Draws) returns (reply: Reply)
    modifies service
    ensures var done := ImportAll(old(service.View()), service.cipher, candidates, draws);
            && service.View() == done.store
            && reply == if done.error.Some? then CreateFailed(done.error.value) else Imported(done.imported, skipped, total)
  {
    var imported := 0;
    ghost var start := service.View();
    for k := 0 to |candidates|
      invariant ImportAll(start, service.cipher, candidates[..k], draws) == Progress(service.View(), imported, None)
    {
      ImportAllStep(start, service.cipher, candidates, draws, k);
      var error := CreateCandidate(service, candidates[k], draws, k);
      if error.Some? {
        ImportAllStops(start, service.cipher, candidates, draws, k + 1);
        return CreateFailed(error.value);
      }
      imported := imported + 1;
    }
    assert candidates[..|candidates|] == candidates;
    reply := Imported(imported, skipped, total);
  }

  method CreateCandidate(service: Service, candidate: Candidate, draws: Draws, k: nat) returns (error: Option<Error>)
    modifies service
    ensures Progress(service.View(), if error.None? then 1 else 0, error) == ImportOne(old(service.View()), service.cipher, candidate, draws, k)
  {
    var created := service.CreateHost(candidate.host);
    if created.Err? {
      return Some(created.error);
    }
    error := CreateMethods(service, created.value.id, candidate.methods, draws, k);
  }

  method CreateMethods(service: Service, hostID: UUID, methods: seq<MethodDTO>, draws: Draws, k: nat) returns (error: Option<Error>)
    modifies service
    ensures Progress(service.View(), 0, error) == ImportMethods(old(service.View()), service.cipher, hostID, methods, draws, k)
  {
    ghost var start, now := service.View(), service.View();
    for j := 0 to |methods|
      invariant service.View() == now
      invariant ImportMethods(start, service.cipher, hostID, methods[..j], draws, k) == Progress(now, 0, None)
    {
      ImportMethodsStep(start, service.cipher, hostID, methods, draws, k, j);
      error := ImportHostManagementMethod(service, hostID, methods[j], draws(k, j));
      now := service.View();
      if error.Some? {
        ImportMethodsStop(start, service.cipher, hostID, methods, draws, k, j + 1);
        return;
      }
    }
    assert methods[..|methods|] == methods;
    error := None;
  }

  method ImportHostManagementMethod(service: Service, hostID: UUID, m: MethodDTO, nonce: Option<Bytes>) returns (error: Option<Error>)
    modifies service
    ensures var r := ImportMethod(old(service.View()), service.cipher, hostID, m, nonce);
            && service.View() == Settled(old(service.View()), r)
            && error == if r.Ok? then None else Some(r.error)
  {
    var created: Result<Method>;
    match m.kind {
      case SSHPassword =>
        created := service.CreateSSHPasswordManagementMethod(hostID, ToInput(m), nonce);
      case SSHKey =>
        created := service.CreateSSHKeyManagementMethod(hostID, ToInput(m), nonce);
      case OtherType(_) =>
        return Some(UnsupportedType);
    }
    error := if created.Ok? then None else Some(created.error);
  }

  // Steps of the folds above.

  lemma ScreenPrefix(existing: set<Addr>, items: seq<HostDTO>, i: nat)
    requires i < |items|
    ensures Screen(existing, items[..i + 1]) ==
            var before := Screen(existing, items[..i]);
            if before.Rejected? then before else ScreenOne(existing, before, items[i], i)
  {
    assert items[..i + 1][..i] == items[..i];
  }

  lemma {:induction false} ScreenRejects(existing: set<Addr>, items: seq<HostDTO>, n: nat)
    requires n <= |items| && Screen(existing, items[..n]).Rejected?
    ensures Screen(existing, items) == Screen(existing, items[..n])
  {
    if n == |items| {
      assert items[..n] == items;
    } else {
      assert items[..|items| - 1][..n] == items[..n];
      ScreenRejects(existing, items[..|items| - 1], n);
    }
  }

  lemma ImportAllStep(s: Store, c: Crypto, candidates: seq<Candidate>, draws: Draws, k: nat)
    requires k < |candidates| && ImportAll(s, c, candidates[..k], draws).error.None?
    ensures var before := ImportAll(s, c, candidates[..k], draws);
            var after := ImportOne(before.store, c, candidates[k], draws, k);
            ImportAll(s, c, candidates[..k + 1], draws) == after.(imported := before.imported + after.imported)
  {
    assert candidates[..k + 1][..k] == candidates[..k];
  }

  lemma {:induction false} ImportAllStops(s: Store, c: Crypto, candidates: seq<Candidate>, draws: Draws, n: nat)
    requires n <= |candidates| && ImportAll(s, c, candidates[..n], draws).error.Some?
    ensures ImportAll(s, c, candidates, draws) == ImportAll(s, c, candidates[..n], draws)
  {
    if n == |candidates| {
      assert candidates[..n] == candidates;
    } else {
      assert candidates[..|candidates| - 1][..n] == candidates[..n];
      ImportAllStops(s, c, candidates[..|candidates| - 1], draws, n);
    }
  }

  lemma ImportMethodsStep(s: Store, c: Crypto, hostID: UUID, methods: seq<MethodDTO>, draws: Draws, k: nat, j: nat)
    requires j < |methods| && ImportMethods(s, c, hostID, methods[..j], draws, k).error.None?
    ensures var before := ImportMethods(s, c, hostID, methods[..j], draws, k);
            var r := ImportMethod(before.store, c, hostID, methods[j], draws(k, j));
            ImportMethods(s, c, hostID, methods[..j + 1], draws, k)
            == if r.Ok? then before.(store := r.value) else before.(error := Some(r.error))
  {
    assert methods[..j + 1][..j] == methods[..j];
  }

  lemma {:induction false} ImportMethodsStop(s: Store, c: Crypto, hostID: UUID, methods: seq<MethodDTO>, draws: Draws, k: nat, n: nat)
    requires n <= |methods| && ImportMethods(s, c, hostID, methods[..n], draws, k).error.Some?
    ensures ImportMethods(s, c, hostID, methods, draws, k) == ImportMethods(s, c, hostID, methods[..n], draws, k)
  {
    if n == |methods| {
      assert methods[..n] == methods;
    } else {
      assert methods[..|methods| - 1][..n] == methods[..n];
      ImportMethodsStop(s, c, hostID, methods[..|methods| - 1], draws, k, n);
    }
  }

  lemma {:induction false} NewestFirst(hosts: seq<Host>)
    ensures |HostsTagged(hosts, {})| == |hosts|
    ensures forall i :: 0 <= i < |hosts| ==> HostsTagged(hosts, {})[i] == hosts[|hosts| - 1 - i]
  {
    if hosts != [] {
      NewestFirst(hosts[..|hosts| - 1]);
    }
  }

  lemma SameAddresses(hosts: seq<Host>)
    ensures Addresses(HostsTagged(hosts, {})) == Addresses(hosts)
  {
    NewestFirst(hosts);
    var listed := HostsTagged(hosts, {});
    forall ip
      ensures ip in Addresses(listed) <==> ip in Addresses(hosts)
    {
      if ip in Addresses(hosts) {
        var i :| 0 <= i < |hosts| && hosts[i].ip == ip;
        assert listed[|hosts| - 1 - i].ip == ip;
      }
    }
  }
}
