/** Hosts and their management methods: creation, update and the secrets they hold
    (internal/host/service.go:109-121, 191-225, 369-472, 484-557, 677-682). */
module HostService {
  import opened Identifiers
  import opened Text
  import opened Columns
  import opened HostTags
  import opened SecretCipher

  datatype MethodType = SSHPassword | SSHKey | OtherType(text: string)

  /** An IP address, with its zone or ""; the invalid one is `netip.Addr{}`. */
  datatype Addr = InvalidAddr | Addr(text: string, zone: string)

  /** What the database's columns keep: the limits of their texts, and the address that
      is read back for an address written. */
  datatype Schema = Schema(
    hostName: Limit,
    hostDescription: Limit,
    tagName: Limit,
    methodName: Limit,
    username: Limit,
    methodDescription: Limit,
    address: Addr -> Addr
  )

  /** migrations/sqlite/20260803121000_baseline.up.sql:39-88; the address is text. */
  const SQLITE := Schema(None, None, None, None, None, None, ip => ip)

  /** migrations/postgres/20260622133249_add_basic_hosts.up.sql:1-32,
      20260624130100_add_host_tags.up.sql:1-8 and
      20260803121000_add_host_credential_name.up.sql:1-2; an `inet` has no zone. */
  const POSTGRES := Schema(Some(255), Some(512), Some(64), Some(255), Some(255), Some(255), WithoutZone)

  function WithoutZone(ip: Addr): Addr {
    if ip.InvalidAddr? then ip else ip.(zone := "")
  }

  /** An address read back is one, and written again it is the same. */
  ghost predicate Sound(schema: Schema) {
    forall ip: Addr :: ip.Addr? ==> schema.address(ip).Addr? && schema.address(schema.address(ip)) == schema.address(ip)
  }

  lemma BothSchemasAreSound()
    ensures Sound(SQLITE) && Sound(POSTGRES)
  {
  }

  /** What PostgreSQL keeps as it is, column by column; SQLite keeps every text. */
  lemma PostgresKeeps(text: string)
    requires '\0' !in text
    ensures Fits(POSTGRES.hostName, text) <==> |text| <= 255
    ensures Fits(POSTGRES.hostDescription, text) <==> |text| <= 512
    ensures Fits(POSTGRES.tagName, text) <==> |text| <= 64
    ensures Fits(POSTGRES.methodName, text) <==> |text| <= 255
    ensures Fits(POSTGRES.username, text) <==> |text| <= 255
    ensures Fits(POSTGRES.methodDescription, text) <==> |text| <= 255
  {
  }

  datatype Host = Host(id: UUID, name: string, description: string, tags: set<string>, ip: Addr)

  datatype Method = Method(
    id: UUID,
    hostID: UUID,
    name: string,
    kind: MethodType,
    username: string,
    port: nat,
    secret: Bytes,
    description: string
  )

  datatype Secret = Secret(password: string, publicKey: string, privateKey: string)

  /** The tables, in creation order. New rows get identifiers never used before. */
  datatype Store = Store(schema: Schema, hosts: seq<Host>, methods: seq<Method>, nextID: nat)

  datatype Error =
    | NameRequired | UsernameRequired | PasswordRequired | PublicKeyRequired | PrivateKeyRequired
    | EncryptFailed | DecryptFailed | DecodeFailed
    | HostNotFound | MethodNotFound | UnsupportedType | DuplicateIP | BadIP | DoesNotFit

  datatype Result<+T> = Ok(value: T) | Err(error: Error)

  function NormalizePort(port: nat): nat {
    if port == 0 then 22 else port
  }

  // ---------------------------------------------------------------- hosts

  predicate HasHost(s: Store, hostID: UUID) {
    exists i :: 0 <= i < |s.hosts| && s.hosts[i].id == hostID
  }

  predicate HasIP(s: Store, ip: Addr) {
    exists i :: 0 <= i < |s.hosts| && s.hosts[i].ip == ip
  }

  datatype CreateHostDTO = CreateHostDTO(name: string, description: string, tags: seq<string>, ip: Addr)

  /** Every tag fits the column of the tag names. */
  predicate TagsFit(schema: Schema, tags: set<string>) {
    forall tag :: tag in tags ==> Fits(schema.tagName, tag)
  }

  /** The columns can keep the host, if its address is new. */
  predicate Storable(schema: Schema, dto: CreateHostDTO) {
    && dto.ip.Addr? && Stored(schema.hostName, dto.name).Some? && Stored(schema.hostDescription, dto.description).Some?
    && TagsFit(schema, TagSet(dto.tags))
  }

  /** `CreateHost`: the address must be one, the host must fit, and the address be new;
      the tags are normalised. The transaction writes nothing when it fails. */
  function InsertHost(s: Store, dto: CreateHostDTO): Result<Store> {
    if dto.ip.InvalidAddr? then Err(BadIP)
    else if Stored(s.schema.hostName, dto.name).None? || Stored(s.schema.hostDescription, dto.description).None? then Err(DoesNotFit)
    else if HasIP(s, s.schema.address(dto.ip)) then Err(DuplicateIP)
    else if !TagsFit(s.schema, Elements(NormalizeTags(dto.tags))) then Err(DoesNotFit)
    else
      var host := Host(s.nextID, Kept(s.schema.hostName, dto.name), Kept(s.schema.hostDescription, dto.description),
                       Elements(NormalizeTags(dto.tags)), s.schema.address(dto.ip));
      Ok(s.(hosts := s.hosts + [host], nextID := s.nextID + 1))
  }

  /** `CreateHost` succeeds exactly when the host is storable and its address new; it then
      adds one host, which is as given, up to what the columns keep and its tags. */
  lemma InsertHostExactly(s: Store, dto: CreateHostDTO)
    ensures InsertHost(s, dto).Ok? <==> Storable(s.schema, dto) && !HasIP(s, s.schema.address(dto.ip))
    ensures InsertHost(s, dto).Ok? ==>
              var after := InsertHost(s, dto).value;
              && |after.hosts| == |s.hosts| + 1 && after.hosts[..|s.hosts|] == s.hosts
              && after == s.(hosts := after.hosts, nextID := s.nextID + 1)
              && var h := after.hosts[|s.hosts|];
                 && h.id == s.nextID && h.tags == TagSet(dto.tags) && h.ip == s.schema.address(dto.ip)
                 && Stored(s.schema.hostName, dto.name) == Some(h.name)
                 && Stored(s.schema.hostDescription, dto.description) == Some(h.description)
  {
    NormalizeTagsIsTagSet(dto.tags);
  }

  /** The hosts that carry every wanted tag, newest first. */
  function HostsTagged(hosts: seq<Host>, wanted: set<string>): seq<Host> {
    if hosts == [] then []
    else
      var last := hosts[|hosts| - 1];
      (if wanted <= last.tags then [last] else []) + HostsTagged(hosts[..|hosts| - 1], wanted)
  }

  /** The repository's query: `where` the count matches, `order by created_at desc`. */
  function SelectHosts(hosts: seq<Host>, filter: seq<string>): seq<Host> {
    if hosts == [] then []
    else
      var last := hosts[|hosts| - 1];
      (if MatchesByCount(last.tags, filter) then [last] else []) + SelectHosts(hosts[..|hosts| - 1], filter)
  }

  /** Counting finds the hosts that carry every tag asked for, whatever the list. */
  lemma {:induction false} SelectFindsTagged(hosts: seq<Host>, requested: seq<string>)
    ensures SelectHosts(hosts, NormalizeTags(requested)) == HostsTagged(hosts, TagSet(requested))
  {
    if hosts != [] {
      FilterFindsExactlyTheTagged(hosts[|hosts| - 1].tags, requested);
      SelectFindsTagged(hosts[..|hosts| - 1], requested);
    }
  }

  // ---------------------------------------------------------------- creating methods

  datatype Input = Input(
    name: string,
    username: string,
    password: string,
    publicKey: string,
    privateKey: string,
    port: nat,
    description: string
  )

  /** The columns can keep the method. */
  predicate InputFits(schema: Schema, input: Input) {
    && Fits(schema.methodName, Trim(input.name)) && Fits(schema.username, Trim(input.username))
    && Fits(schema.methodDescription, Trim(input.description))
  }

  /** What the service hands over is trimmed, so that no column cuts it. */
  lemma InputIsNotCut(schema: Schema, input: Input)
    ensures InputFits(schema, input) <==>
            && Stored(schema.methodName, Trim(input.name)) == Some(Trim(input.name))
            && Stored(schema.username, Trim(input.username)) == Some(Trim(input.username))
            && Stored(schema.methodDescription, Trim(input.description)) == Some(Trim(input.description))
    ensures !InputFits(schema, input) <==>
            || Stored(schema.methodName, Trim(input.name)).None?
            || Stored(schema.username, Trim(input.username)).None?
            || Stored(schema.methodDescription, Trim(input.description)).None?
  {
    TrimIsTrimmed(input.name);
    TrimIsTrimmed(input.username);
    TrimIsTrimmed(input.description);
    TrimmedIsNotCut(schema.methodName, Trim(input.name));
    TrimmedIsNotCut(schema.username, Trim(input.username));
    TrimmedIsNotCut(schema.methodDescription, Trim(input.description));
  }

  function InsertMethod(s: Store, hostID: UUID, kind: MethodType, input: Input, secret: Bytes): Result<Store> {
    if !InputFits(s.schema, input) then Err(DoesNotFit)
    else if !HasHost(s, hostID) then Err(HostNotFound)
    else
      var row := Method(s.nextID, hostID, Trim(input.name), kind, Trim(input.username),
                        NormalizePort(input.port), secret, Trim(input.description));
      Ok(s.(methods := s.methods + [row], nextID := s.nextID + 1))
  }

  /** `CreateSSHPasswordManagementMethod` */
  function CreatePassword(s: Store, c: Crypto, hostID: UUID, input: Input, nonce: Option<Bytes>): Result<Store> {
    if Trim(input.name) == "" then Err(NameRequired)
    else if Trim(input.username) == "" then Err(UsernameRequired)
    else if Trim(input.password) == "" then Err(PasswordRequired)
    else if nonce.None? then Err(EncryptFailed)
    else InsertMethod(s, hostID, SSHPassword, input, Encrypt(c, nonce.value, Trim(input.password)))
  }

  /** `CreateSSHKeyManagementMethod` */
  function CreateKey(s: Store, c: Crypto, hostID: UUID, input: Input, nonce: Option<Bytes>): Result<Store> {
    if Trim(input.name) == "" then Err(NameRequired)
    else if Trim(input.username) == "" then Err(UsernameRequired)
    else if Trim(input.publicKey) == "" then Err(PublicKeyRequired)
    else if Trim(input.privateKey) == "" then Err(PrivateKeyRequired)
    else if nonce.None? then Err(EncryptFailed)
    else InsertMethod(s, hostID, SSHKey, input, Encrypt(c, nonce.value, c.encode(Trim(input.publicKey), Trim(input.privateKey))))
  }

  // ---------------------------------------------------------------- reading and updating

  /** `GetHostManagementMethodByID`: the first row with the identifier. */
  function FindMethod(methods: seq<Method>, id: UUID): Option<Method> {
    if methods == [] then None
    else if methods[0].id == id then Some(methods[0])
    else FindMethod(methods[1..], id)
  }

  /** The secret inside a method row. */
  function SecretOf(c: Crypto, m: Method): Result<Secret> {
    var plain := Decrypt(c, m.secret);
    if plain.None? then Err(DecryptFailed)
    else match m.kind
      case SSHPassword => Ok(Secret(plain.value, "", ""))
      case SSHKey =>
        var pair := c.decode(plain.value);
        if pair.None? then Err(DecodeFailed) else Ok(Secret("", pair.value.0, pair.value.1))
      case OtherType(_) => Err(UnsupportedType)
  }

  /** `GetHostManagementMethodSecret` */
  function GetSecret(s: Store, c: Crypto, hostID: UUID, methodID: UUID): Result<Secret> {
    var found := FindMethod(s.methods, methodID);
    if found.None? || found.value.hostID != hostID then Err(MethodNotFound)
    else SecretOf(c, found.value)
  }

  function OrElse(supplied: string, current: string): string {
    if supplied == "" then current else supplied
  }

  /** The ciphertext an update stores: the old one when nothing is supplied; for a
      key pair, the half that is not supplied is taken from the old one. */
  function UpdatedSecret(c: Crypto, m: Method, input: Input, nonce: Option<Bytes>): Result<Bytes> {
    match m.kind
    case SSHPassword =>
      if Trim(input.password) == "" then Ok(m.secret)
      else if nonce.None? then Err(EncryptFailed)
      else Ok(Encrypt(c, nonce.value, Trim(input.password)))
    case SSHKey =>
      if Trim(input.publicKey) == "" && Trim(input.privateKey) == "" then Ok(m.secret)
      else
        var current := SecretOf(c, m);
        if current.Err? then Err(current.error)
        else if nonce.None? then Err(EncryptFailed)
        else Ok(Encrypt(c, nonce.value, c.encode(OrElse(Trim(input.publicKey), current.value.publicKey),
                                                 OrElse(Trim(input.privateKey), current.value.privateKey))))
    case OtherType(_) => Err(UnsupportedType)
  }

  /** update host_credential set ... where id = ? */
  function ReplaceMethod(methods: seq<Method>, id: UUID, input: Input, secret: Bytes): seq<Method> {
    seq(|methods|, i requires 0 <= i < |methods| =>
      if methods[i].id == id
      then methods[i].(name := Trim(input.name), username := Trim(input.username), port := NormalizePort(input.port),
                       secret := secret, description := Trim(input.description))
      else methods[i])
  }

  /** `UpdateHostManagementMethod` */
  function UpdateMethod(s: Store, c: Crypto, hostID: UUID, methodID: UUID, input: Input, nonce: Option<Bytes>): Result<Store> {
    var found := FindMethod(s.methods, methodID);
    if found.None? || found.value.hostID != hostID then Err(MethodNotFound)
    else if Trim(input.name) == "" then Err(NameRequired)
    else if Trim(input.username) == "" then Err(UsernameRequired)
    else
      var secret := UpdatedSecret(c, found.value, input, nonce);
      if secret.Err? then Err(secret.error)
      else if !InputFits(s.schema, input) then Err(DoesNotFit)
      else Ok(s.(methods := ReplaceMethod(s.methods, methodID, input, secret.value)))
  }

  // ---------------------------------------------------------------- the service

  /** The store after a call: a call that fails leaves it as it was. */
  function Settled(before: Store, result: Result<Store>): Store {
    if result.Ok? then result.value else before
  }

  /** What a call returns: its error, or the row it wrote. */
  predicate Reports<T>(returned: Result<T>, result: Result<Store>) {
    match result
    case Ok(_) => returned.Ok?
    case Err(error) => returned == Err(error)
  }

  class Service {
    const schema: Schema
    const cipher: Crypto
    var hosts: seq<Host>
    var methods: seq<Method>
    var nextID: nat

    constructor (schema: Schema, cipher: Crypto)
      ensures this.cipher == cipher && View() == NewStore(schema)
    {
      this.schema, this.cipher := schema, cipher;
      hosts, methods, nextID := [], [], 0;
    }

    function View(): Store
      reads this
    {
      Store(schema, hosts, methods, nextID)
    }

    method CreateHost(data: CreateHostDTO) returns (created: Result<Host>)
      modifies this
      ensures View() == Settled(old(View()), InsertHost(old(View()), data))
      ensures Reports(created, InsertHost(old(View()), data))
      ensures created.Ok? ==> View().hosts == old(View().hosts) + [created.value] && created.value.id == old(nextID)
    {
      var tags := NormalizeTagsLoop(data.tags);
      if data.ip.InvalidAddr? {
        return Err(BadIP);
      }
      var name, description := Stored(schema.hostName, data.name), Stored(schema.hostDescription, data.description);
      if name.None? || description.None? {
        return Err(DoesNotFit);
      }
      var ip := schema.address(data.ip);
      if HasIP(View(), ip) {
        return Err(DuplicateIP);
      }
      if !TagsFit(schema, Elements(tags)) {
        return Err(DoesNotFit);
      }
      var host := Host(nextID, name.value, description.value, Elements(tags), ip);
      hosts, nextID := hosts + [host], nextID + 1;
      created := Ok(host);
    }

    method ListHosts(tags: seq<string>) returns (listed: seq<Host>)
      ensures listed == HostsTagged(hosts, TagSet(tags))
    {
      var filter := NormalizeTagsLoop(tags);
      listed := SelectHosts(hosts, filter);
      SelectFindsTagged(hosts, tags);
    }

    method CreateSSHPasswordManagementMethod(hostID: UUID, data: Input, nonce: Option<Bytes>) returns (created: Result<Method>)
      modifies this
      ensures View() == Settled(old(View()), CreatePassword(old(View()), cipher, hostID, data, nonce))
      ensures Reports(created, CreatePassword(old(View()), cipher, hostID, data, nonce))
      ensures created.Ok? ==> View().methods == old(View().methods) + [created.value]
    {
      var name, username, password := Trim(data.name), Trim(data.username), Trim(data.password);
      if name == "" {
        return Err(NameRequired);
      }
      if username == "" {
        return Err(UsernameRequired);
      }
      if password == "" {
        return Err(PasswordRequired);
      }
      var encryptedSecret := EncryptBuffered(cipher, nonce, password);
      if encryptedSecret.None? {
        return Err(EncryptFailed);
      }
      InputIsNotCut(schema, data);
      created := InsertRow(hostID, name, SSHPassword, username, data.port, encryptedSecret.value, Trim(data.description));
    }

    method CreateSSHKeyManagementMethod(hostID: UUID, data: Input, nonce: Option<Bytes>) returns (created: Result<Method>)
      modifies this
      ensures View() == Settled(old(View()), CreateKey(old(View()), cipher, hostID, data, nonce))
      ensures Reports(created, CreateKey(old(View()), cipher, hostID, data, nonce))
      ensures created.Ok? ==> View().methods == old(View().methods) + [created.value]
    {
      var name, username := Trim(data.name), Trim(data.username);
      var publicKey, privateKey := Trim(data.publicKey), Trim(data.privateKey);
      if name == "" {
        return Err(NameRequired);
      }
      if username == "" {
        return Err(UsernameRequired);
      }
      if publicKey == "" {
        return Err(PublicKeyRequired);
      }
      if privateKey == "" {
        return Err(PrivateKeyRequired);
      }
      var encryptedSecret := EncryptBuffered(cipher, nonce, cipher.encode(publicKey, privateKey));
      if encryptedSecret.None? {
        return Err(EncryptFailed);
      }
      InputIsNotCut(schema, data);
      created := InsertRow(hostID, name, SSHKey, username, data.port, encryptedSecret.value, Trim(data.description));
    }

    /** The repository's insert: the columns must keep the texts, and the row must
        reference a host. */
    method InsertRow(hostID: UUID, name: string, kind: MethodType, username: string, port: nat, secret: Bytes, description: string)
      returns (created: Result<Method>)
      modifies this
      ensures var n, u, d := Stored(schema.methodName, name), Stored(schema.username, username), Stored(schema.methodDescription, description);
              if n.None? || u.None? || d.None? then created == Err(DoesNotFit) && View() == old(View())
              else if HasHost(old(View()), hostID)
              then created == Ok(Method(old(nextID), hostID, n.value, kind, u.value, NormalizePort(port), secret, d.value))
                   && View() == old(View()).(methods := old(methods) + [created.value], nextID := old(nextID) + 1)
              else created == Err(HostNotFound) && View() == old(View())
    {
      var n, u, d := Stored(schema.methodName, name), Stored(schema.username, username), Stored(schema.methodDescription, description);
      if n.None? || u.None? || d.None? {
        return Err(DoesNotFit);
      }
      if !HasHost(View(), hostID) {
        return Err(HostNotFound);
      }
      var row := Method(nextID, hostID, n.value, kind, u.value, NormalizePort(port), secret, d.value);
      methods, nextID := methods + [row], nextID + 1;
      created := Ok(row);
    }

    method GetHostManagementMethodSecret(hostID: UUID, methodID: UUID) returns (secret: Result<Secret>)
      ensures secret == GetSecret(View(), cipher, hostID, methodID)
    {
      var found := FindMethod(methods, methodID);
      if found.None? || found.value.hostID != hostID {
        return Err(MethodNotFound);
      }
      var plain := Decrypt(cipher, found.value.secret);
      if plain.None? {
        return Err(DecryptFailed);
      }
      match found.value.kind {
        case SSHPassword =>
          secret := Ok(Secret(plain.value, "", ""));
        case SSHKey =>
          var payload := cipher.decode(plain.value);
          if payload.None? {
            return Err(DecodeFailed);
          }
          secret := Ok(Secret("", payload.value.0, payload.value.1));
        case OtherType(_) =>
          secret := Err(UnsupportedType);
      }
    }

    method UpdateHostManagementMethod(hostID: UUID, methodID: UUID, data: Input, nonce: Option<Bytes>) returns (updated: Result<()>)
      modifies this
      ensures View() == Settled(old(View()), UpdateMethod(old(View()), cipher, hostID, methodID, data, nonce))
      ensures Reports(updated, UpdateMethod(old(View()), cipher, hostID, methodID, data, nonce))
    {
      var found := FindMethod(methods, methodID);
      if found.None? || found.value.hostID != hostID {
        return Err(MethodNotFound);
      }
      var name, username := Trim(data.name), Trim(data.username);
      if name == "" {
        return Err(NameRequired);
      }
      if username == "" {
        return Err(UsernameRequired);
      }
      var secret := found.value.secret;
      match found.value.kind {
        case SSHPassword =>
          var password := Trim(data.password);
          if password != "" {
            var encrypted := EncryptBuffered(cipher, nonce, password);
            if encrypted.None? {
              return Err(EncryptFailed);
            }
            secret := encrypted.value;
          }
        case SSHKey =>
          var publicKey, privateKey := Trim(data.publicKey), Trim(data.privateKey);
          if publicKey != "" || privateKey != "" {
            var currentSecret := GetHostManagementMethodSecret(hostID, methodID);
            if currentSecret.Err? {
              return Err(currentSecret.error);
            }
            if publicKey == "" {
              publicKey := currentSecret.value.publicKey;
            }
            if privateKey == "" {
              privateKey := currentSecret.value.privateKey;
            }
            var encrypted := EncryptBuffered(cipher, nonce, cipher.encode(publicKey, privateKey));
            if encrypted.None? {
              return Err(EncryptFailed);
            }
            secret := encrypted.value;
          }
        case OtherType(_) =>
          return Err(UnsupportedType);
      }
      InputIsNotCut(schema, data);
      if Stored(schema.methodName, name).None? || Stored(schema.username, username).None?
         || Stored(schema.methodDescription, Trim(data.description)).None? {
        return Err(DoesNotFit);
      }
      methods := ReplaceMethod(methods, methodID, data, secret);
      updated := Ok(());
    }
  }

  // ---------------------------------------------------------------- what every call keeps

  predicate Nonblank(s: string) {
    s != "" && Trimmed(s)
  }

  /** A method row as the service leaves it: fields trimmed, a port, and a secret that
      decrypts to nonblank components. */
  ghost predicate MethodInv(c: Crypto, m: Method) {
    && Nonblank(m.name) && Nonblank(m.username) && Trimmed(m.description) && m.port != 0
    && !m.kind.OtherType?
    && SecretOf(c, m).Ok?
    && (m.kind.SSHPassword? ==> Nonblank(SecretOf(c, m).value.password))
    && (m.kind.SSHKey? ==> Nonblank(SecretOf(c, m).value.publicKey) && Nonblank(SecretOf(c, m).value.privateKey))
  }

  /** A host row as the columns keep it. */
  ghost predicate HostInv(schema: Schema, h: Host) {
    && h.ip.Addr? && schema.address(h.ip) == h.ip
    && (forall tag :: tag in h.tags ==> IsNormalized(tag))
    && Fits(schema.hostName, h.name) && Fits(schema.hostDescription, h.description) && TagsFit(schema, h.tags)
  }

  predicate MethodFits(schema: Schema, m: Method) {
    Fits(schema.methodName, m.name) && Fits(schema.username, m.username) && Fits(schema.methodDescription, m.description)
  }

  ghost predicate Valid(s: Store, c: Crypto) {
    && Sound(s.schema)
    && (forall i :: 0 <= i < |s.hosts| ==> s.hosts[i].id < s.nextID && HostInv(s.schema, s.hosts[i]))
    && (forall i, j :: 0 <= i < j < |s.hosts| ==> s.hosts[i].id != s.hosts[j].id && s.hosts[i].ip != s.hosts[j].ip)
    && (forall i :: 0 <= i < |s.methods| ==> s.methods[i].id < s.nextID && HasHost(s, s.methods[i].hostID) && MethodInv(c, s.methods[i]))
    && (forall i :: 0 <= i < |s.methods| ==> MethodFits(s.schema, s.methods[i]))
    && (forall i, j :: 0 <= i < j < |s.methods| ==> s.methods[i].id != s.methods[j].id)
  }

  function NewStore(schema: Schema): Store {
    Store(schema, [], [], 0)
  }

  lemma CreateHostKeepsValid(s: Store, c: Crypto, dto: CreateHostDTO)
    requires Valid(s, c) && InsertHost(s, dto).Ok?
    ensures Valid(InsertHost(s, dto).value, c)
  {
    NormalizeTagsIsTagSet(dto.tags);
    StoredFits(s.schema.hostName, dto.name);
    StoredFits(s.schema.hostDescription, dto.description);
    var after := InsertHost(s, dto).value;
    forall i | 0 <= i < |after.methods|
      ensures HasHost(after, after.methods[i].hostID)
    {
      HostStays(s, after, after.methods[i].hostID);
    }
  }

  lemma HostStays(s: Store, after: Store, hostID: UUID)
    requires HasHost(s, hostID) && s.hosts <= after.hosts
    ensures HasHost(after, hostID)
  {
    var i :| 0 <= i < |s.hosts| && s.hosts[i].id == hostID;
    assert after.hosts[i].id == hostID;
  }

  lemma NewMethodInv(c: Crypto, input: Input, m: Method)
    requires Trim(input.name) != "" && Trim(input.username) != ""
    requires m.name == Trim(input.name) && m.username == Trim(input.username) && m.description == Trim(input.description)
    requires m.port == NormalizePort(input.port) && !m.kind.OtherType? && SecretOf(c, m).Ok?
    requires m.kind.SSHPassword? ==> Nonblank(SecretOf(c, m).value.password)
    requires m.kind.SSHKey? ==> Nonblank(SecretOf(c, m).value.publicKey) && Nonblank(SecretOf(c, m).value.privateKey)
    ensures MethodInv(c, m)
  {
    TrimIsTrimmed(input.name);
    TrimIsTrimmed(input.username);
    TrimIsTrimmed(input.description);
  }

  /** The row's own fields are those of the input: texts trimmed, and port 22 when none
      is given. */
  predicate SaysAs(m: Method, input: Input) {
    && m.name == Trim(input.name) && m.username == Trim(input.username) && m.description == Trim(input.description)
    && (input.port != 0 ==> m.port == input.port) && (input.port == 0 ==> m.port == 22)
  }

  ghost predicate GoodNonce(c: Crypto, nonce: Option<Bytes>) {
    nonce.Some? ==> |nonce.value| == c.nonceSize
  }

  /** A method just created says what was supplied, and so does its secret, trimmed. */
  lemma CreatedSecret(s: Store, c: Crypto, hostID: UUID, input: Input, nonce: Option<Bytes>, asKey: bool)
    requires Lawful(c) && GoodNonce(c, nonce)
    requires (if asKey then CreateKey(s, c, hostID, input, nonce) else CreatePassword(s, c, hostID, input, nonce)).Ok?
    ensures var after := (if asKey then CreateKey(s, c, hostID, input, nonce) else CreatePassword(s, c, hostID, input, nonce)).value;
            && |after.methods| == |s.methods| + 1 && after.methods[..|s.methods|] == s.methods
            && after == s.(methods := after.methods, nextID := s.nextID + 1) && HasHost(s, hostID)
            && var m := after.methods[|s.methods|];
               && MethodFits(s.schema, m) && m.id == s.nextID && m.hostID == hostID && m.kind == (if asKey then SSHKey else SSHPassword)
               && MethodInv(c, m) && SaysAs(m, input)
               && SecretOf(c, m) == Ok(if asKey then Secret("", Trim(input.publicKey), Trim(input.privateKey))
                                       else Secret(Trim(input.password), "", ""))
  {
    TrimIsTrimmed(input.password);
    TrimIsTrimmed(input.publicKey);
    TrimIsTrimmed(input.privateKey);
    DecryptUndoesEncrypt(c, nonce.value, Trim(input.password));
    KeyPairRoundTrip(c, nonce.value, Trim(input.publicKey), Trim(input.privateKey));
    var after := (if asKey then CreateKey(s, c, hostID, input, nonce) else CreatePassword(s, c, hostID, input, nonce)).value;
    NewMethodInv(c, input, after.methods[|s.methods|]);
  }

  lemma CreateMethodKeepsValid(s: Store, c: Crypto, hostID: UUID, input: Input, nonce: Option<Bytes>, asKey: bool)
    requires Lawful(c) && GoodNonce(c, nonce) && Valid(s, c)
    requires (if asKey then CreateKey(s, c, hostID, input, nonce) else CreatePassword(s, c, hostID, input, nonce)).Ok?
    ensures Valid((if asKey then CreateKey(s, c, hostID, input, nonce) else CreatePassword(s, c, hostID, input, nonce)).value, c)
  {
    CreatedSecret(s, c, hostID, input, nonce, asKey);
    var after := (if asKey then CreateKey(s, c, hostID, input, nonce) else CreatePassword(s, c, hostID, input, nonce)).value;
    assert after.methods == s.methods + [after.methods[|s.methods|]];
    AddedMethodIsValid(s, c, after.methods[|s.methods|]);
  }

  lemma AddedMethodIsValid(s: Store, c: Crypto, m: Method)
    requires Valid(s, c) && m.id == s.nextID && HasHost(s, m.hostID) && MethodInv(c, m) && MethodFits(s.schema, m)
    ensures Valid(s.(methods := s.methods + [m], nextID := s.nextID + 1), c)
  {
    var after := s.(methods := s.methods + [m], nextID := s.nextID + 1);
    forall i | 0 <= i < |after.methods|
      ensures HasHost(after, after.methods[i].hostID)
    {
      HostStays(s, after, after.methods[i].hostID);
    }
  }

  /** What is found is the row with the identifier. */
  lemma {:induction false} FindMethodFinds(methods: seq<Method>, id: UUID)
    ensures FindMethod(methods, id).Some? <==> exists i :: 0 <= i < |methods| && methods[i].id == id
    ensures FindMethod(methods, id).Some? ==> FindMethod(methods, id).value in methods && FindMethod(methods, id).value.id == id
    ensures forall i :: 0 <= i < |methods| && methods[i].id == id && (forall j :: 0 <= j < i ==> methods[j].id != id) ==>
              FindMethod(methods, id) == Some(methods[i])
  {
    if methods != [] && methods[0].id != id {
      FindMethodFinds(methods[1..], id);
      if i :| 0 <= i < |methods| && methods[i].id == id {
        assert methods[1..][i - 1].id == id;
      }
      if FindMethod(methods[1..], id).Some? {
        var i :| 0 <= i < |methods| - 1 && methods[1..][i].id == id;
        assert methods[i + 1].id == id;
      }
    }
  }

  lemma FindMethodAt(methods: seq<Method>, k: nat)
    requires k < |methods|
    requires forall i, j :: 0 <= i < j < |methods| ==> methods[i].id != methods[j].id
    ensures FindMethod(methods, methods[k].id) == Some(methods[k])
  {
    FindMethodFinds(methods, methods[k].id);
    var m := FindMethod(methods, methods[k].id).value;
    var i :| 0 <= i < |methods| && methods[i] == m;
    assert i == k;
  }

  /** What is wrong with a call that creates a method, in the order in which it is noticed. */
  function CreationChecks(s: Store, hostID: UUID, input: Input, nonce: Option<Bytes>, asKey: bool): seq<(bool, Error)> {
    [(Trim(input.name) == "", NameRequired),
     (Trim(input.username) == "", UsernameRequired),
     (!asKey && Trim(input.password) == "", PasswordRequired),
     (asKey && Trim(input.publicKey) == "", PublicKeyRequired),
     (asKey && Trim(input.privateKey) == "", PrivateKeyRequired),
     (nonce.None?, EncryptFailed),
     (!InputFits(s.schema, input), DoesNotFit),
     (!HasHost(s, hostID), HostNotFound)]
  }

  /** Creating a method succeeds exactly when nothing is wrong, and otherwise reports the
      first thing that is. */
  lemma CreateFailsExactly(s: Store, c: Crypto, hostID: UUID, input: Input, nonce: Option<Bytes>, asKey: bool) returns (e: nat)
    ensures var r := if asKey then CreateKey(s, c, hostID, input, nonce) else CreatePassword(s, c, hostID, input, nonce);
            var checks := CreationChecks(s, hostID, input, nonce, asKey);
            && e <= |checks| && (forall b :: 0 <= b < e ==> !checks[b].0)
            && if e == |checks| then r.Ok? else checks[e].0 && r == Err(checks[e].1)
  {
    var checks := CreationChecks(s, hostID, input, nonce, asKey);
    e := if checks[0].0 then 0 else if checks[1].0 then 1 else if checks[2].0 then 2 else if checks[3].0 then 3
         else if checks[4].0 then 4 else if checks[5].0 then 5 else if checks[6].0 then 6 else if checks[7].0 then 7 else 8;
  }

  /** Reading a secret succeeds exactly when the first row with the identifier is the
      host's and opens, to a key pair if it is to be one; the error says which of these
      is not so. */
  lemma SecretIsReadExactly(s: Store, c: Crypto, hostID: UUID, methodID: UUID)
    ensures var found, r := FindMethod(s.methods, methodID), GetSecret(s, c, hostID, methodID);
            && (r == Err(MethodNotFound) <==> found.None? || found.value.hostID != hostID)
            && (r == Err(DecryptFailed) <==>
                  found.Some? && found.value.hostID == hostID && Decrypt(c, found.value.secret).None?)
            && (r == Err(UnsupportedType) <==>
                  found.Some? && found.value.hostID == hostID && Decrypt(c, found.value.secret).Some? && found.value.kind.OtherType?)
            && (r == Err(DecodeFailed) <==>
                  && found.Some? && found.value.hostID == hostID && Decrypt(c, found.value.secret).Some? && found.value.kind.SSHKey?
                  && c.decode(Decrypt(c, found.value.secret).value).None?)
            && (r.Err? ==> r.error in {MethodNotFound, DecryptFailed, UnsupportedType, DecodeFailed})
  {
  }

  /** The secret after an update: component by component, what was supplied if it is
      not blank, and what was there otherwise. */
  lemma UpdatedSecretMerges(c: Crypto, m: Method, input: Input, nonce: Option<Bytes>)
    requires Lawful(c) && GoodNonce(c, nonce) && MethodInv(c, m)
    requires UpdatedSecret(c, m, input, nonce).Ok?
    ensures var was := SecretOf(c, m).value;
            var now := SecretOf(c, m.(secret := UpdatedSecret(c, m, input, nonce).value));
            now == Ok(if m.kind.SSHPassword? then Secret(OrElse(Trim(input.password), was.password), "", "")
                      else Secret("", OrElse(Trim(input.publicKey), was.publicKey), OrElse(Trim(input.privateKey), was.privateKey)))
  {
    var was := SecretOf(c, m).value;
    if nonce.Some? {
      DecryptUndoesEncrypt(c, nonce.value, Trim(input.password));
      KeyPairRoundTrip(c, nonce.value, OrElse(Trim(input.publicKey), was.publicKey), OrElse(Trim(input.privateKey), was.privateKey));
    }
  }

  /** An update succeeds exactly when the method is the host's, name and username are
      given, everything fits its column, and a nonce could be drawn if one was needed. */
  lemma UpdateSucceedsExactly(s: Store, c: Crypto, hostID: UUID, methodID: UUID, input: Input, nonce: Option<Bytes>)
    requires Valid(s, c)
    ensures var found := FindMethod(s.methods, methodID);
            UpdateMethod(s, c, hostID, methodID, input, nonce).Ok? <==>
            && found.Some? && found.value.hostID == hostID
            && Trim(input.name) != "" && Trim(input.username) != ""
            && InputFits(s.schema, input)
            && (nonce.None? ==> if found.value.kind.SSHPassword? then Trim(input.password) == ""
                                else Trim(input.publicKey) == "" && Trim(input.privateKey) == "")
  {
    FindMethodFinds(s.methods, methodID);
  }

  /** An update touches one row: its identity stays, its fields become those supplied, its
      secret is merged, and every other row is as it was. */
  lemma UpdateTouchesOneMethod(s: Store, c: Crypto, hostID: UUID, methodID: UUID, input: Input, nonce: Option<Bytes>, k: nat)
    requires Lawful(c) && GoodNonce(c, nonce) && Valid(s, c)
    requires UpdateMethod(s, c, hostID, methodID, input, nonce).Ok? && k < |s.methods|
    ensures var after := UpdateMethod(s, c, hostID, methodID, input, nonce).value;
            && |after.methods| == |s.methods| && after.hosts == s.hosts && after.nextID == s.nextID
            && (s.methods[k].id != methodID ==> after.methods[k] == s.methods[k])
            && (s.methods[k].id == methodID ==>
                  var m, was := after.methods[k], SecretOf(c, s.methods[k]).value;
                  && m.id == methodID && m.hostID == hostID == s.methods[k].hostID && m.kind == s.methods[k].kind
                  && MethodInv(c, m) && MethodFits(s.schema, m) && SaysAs(m, input)
                  && SecretOf(c, m) == Ok(if m.kind.SSHPassword? then Secret(OrElse(Trim(input.password), was.password), "", "")
                                          else Secret("", OrElse(Trim(input.publicKey), was.publicKey),
                                                          OrElse(Trim(input.privateKey), was.privateKey))))
  {
    if s.methods[k].id == methodID {
      FindMethodAt(s.methods, k);
      UpdatedSecretMerges(c, s.methods[k], input, nonce);
      TrimIsTrimmed(input.password);
      TrimIsTrimmed(input.publicKey);
      TrimIsTrimmed(input.privateKey);
      var m := UpdateMethod(s, c, hostID, methodID, input, nonce).value.methods[k];
      assert SecretOf(c, m) == SecretOf(c, s.methods[k].(secret := m.secret));
      NewMethodInv(c, input, m);
    }
  }

  lemma UpdateKeepsValid(s: Store, c: Crypto, hostID: UUID, methodID: UUID, input: Input, nonce: Option<Bytes>)
    requires Lawful(c) && GoodNonce(c, nonce) && Valid(s, c)
    requires UpdateMethod(s, c, hostID, methodID, input, nonce).Ok?
    ensures Valid(UpdateMethod(s, c, hostID, methodID, input, nonce).value, c)
  {
    var after := UpdateMethod(s, c, hostID, methodID, input, nonce).value;
    assert after == s.(methods := after.methods);
    forall k | 0 <= k < |s.methods|
      ensures k < |after.methods| && StaysSound(s, c, s.methods[k], after.methods[k])
    {
      UpdateTouchesOneMethod(s, c, hostID, methodID, input, nonce, k);
    }
    ReplacedMethodsAreValid(s, c, after.methods);
  }

  /** A row that may take the place of another. */
  ghost predicate StaysSound(s: Store, c: Crypto, was: Method, now: Method) {
    now.id == was.id && now.hostID == was.hostID && MethodInv(c, now) && MethodFits(s.schema, now)
  }

  lemma ReplacedMethodsAreValid(s: Store, c: Crypto, methods: seq<Method>)
    requires Valid(s, c) && |methods| == |s.methods|
    requires forall k :: 0 <= k < |s.methods| ==> StaysSound(s, c, s.methods[k], methods[k])
    ensures Valid(s.(methods := methods), c)
  {
    var after := s.(methods := methods);
    forall k | 0 <= k < |methods|
      ensures HasHost(after, methods[k].hostID)
    {
      assert StaysSound(s, c, s.methods[k], methods[k]);
      HostStays(s, after, methods[k].hostID);
    }
  }

  // ---------------------------------------------------------------- any run of calls

  datatype Op =
    | OpCreateHost(dto: CreateHostDTO)
    | OpCreatePassword(hostID: UUID, input: Input, nonce: Option<Bytes>)
    | OpCreateKey(hostID: UUID, input: Input, nonce: Option<Bytes>)
    | OpUpdate(hostID: UUID, methodID: UUID, input: Input, nonce: Option<Bytes>)

  function Do(s: Store, c: Crypto, op: Op): Result<Store> {
    match op
    case OpCreateHost(dto) => InsertHost(s, dto)
    case OpCreatePassword(hostID, input, nonce) => CreatePassword(s, c, hostID, input, nonce)
    case OpCreateKey(hostID, input, nonce) => CreateKey(s, c, hostID, input, nonce)
    case OpUpdate(hostID, methodID, input, nonce) => UpdateMethod(s, c, hostID, methodID, input, nonce)
  }

  /** The store after some calls; a call that fails changes nothing. */
  function DoAll(schema: Schema, c: Crypto, ops: seq<Op>): Store {
    if ops == [] then NewStore(schema)
    else
      var before := DoAll(schema, c, ops[..|ops| - 1]);
      Settled(before, Do(before, c, ops[|ops| - 1]))
  }

  ghost predicate GoodNonces(c: Crypto, ops: seq<Op>) {
    forall i :: 0 <= i < |ops| && !ops[i].OpCreateHost? ==> GoodNonce(c, ops[i].nonce)
  }

  lemma DoKeepsValid(s: Store, c: Crypto, op: Op)
    requires Lawful(c) && Valid(s, c) && (!op.OpCreateHost? ==> GoodNonce(c, op.nonce)) && Do(s, c, op).Ok?
    ensures Valid(Do(s, c, op).value, c)
  {
    match op
    case OpCreateHost(dto) => CreateHostKeepsValid(s, c, dto);
    case OpCreatePassword(hostID, input, nonce) => CreateMethodKeepsValid(s, c, hostID, input, nonce, false);
    case OpCreateKey(hostID, input, nonce) => CreateMethodKeepsValid(s, c, hostID, input, nonce, true);
    case OpUpdate(hostID, methodID, input, nonce) => UpdateKeepsValid(s, c, hostID, methodID, input, nonce);
  }

  /** Everything the service builds is well formed, and every secret in it decrypts. */
  lemma {:induction false} DoAllIsValid(schema: Schema, c: Crypto, ops: seq<Op>)
    requires Sound(schema) && Lawful(c) && GoodNonces(c, ops)
    ensures Valid(DoAll(schema, c, ops), c)
  {
    if ops != [] {
      var n := |ops| - 1;
      DoAllIsValid(schema, c, ops[..n]);
      if Do(DoAll(schema, c, ops[..n]), c, ops[n]).Ok? {
        DoKeepsValid(DoAll(schema, c, ops[..n]), c, ops[n]);
      }
    }
  }

  datatype Component = Password | PublicKey | PrivateKey

  function Supplied(input: Input, component: Component): string {
    match component
    case Password => Trim(input.password)
    case PublicKey => Trim(input.publicKey)
    case PrivateKey => Trim(input.privateKey)
  }

  function Held(secret: Secret, component: Component): string {
    match component
    case Password => secret.password
    case PublicKey => secret.publicKey
    case PrivateKey => secret.privateKey
  }

  /** The call is about method `id`: it creates it or updates it. */
  predicate Concerns(before: Store, op: Op, id: UUID) {
    match op
    case OpCreateHost(_) => false
    case OpCreatePassword(_, _, _) => before.nextID == id
    case OpCreateKey(_, _, _) => before.nextID == id
    case OpUpdate(_, methodID, _, _) => methodID == id
  }

  /** The last value for a component, not blank once trimmed, that a successful call
      about method `id` supplied; empty if there was none. */
  function LastSupplied(schema: Schema, c: Crypto, ops: seq<Op>, id: UUID, component: Component): string {
    if ops == [] then ""
    else
      var n := |ops| - 1;
      var before := DoAll(schema, c, ops[..n]);
      if Concerns(before, ops[n], id) && Do(before, c, ops[n]).Ok? && Supplied(ops[n].input, component) != ""
      then Supplied(ops[n].input, component)
      else LastSupplied(schema, c, ops[..n], id, component)
  }

  /** The components that a kind of method holds. */
  predicate Holds(kind: MethodType, component: Component) {
    match component
    case Password => kind.SSHPassword?
    case _ => kind.SSHKey?
  }

  /** Before a method exists, nothing was supplied for it. */
  lemma {:induction false} NothingSuppliedYet(schema: Schema, c: Crypto, ops: seq<Op>, id: UUID, component: Component)
    requires Sound(schema) && Lawful(c) && GoodNonces(c, ops) && id >= DoAll(schema, c, ops).nextID
    ensures LastSupplied(schema, c, ops, id, component) == ""
  {
    if ops != [] {
      var n := |ops| - 1;
      var before := DoAll(schema, c, ops[..n]);
      DoAllIsValid(schema, c, ops[..n]);
      if Do(before, c, ops[n]).Ok? {
        ConcernsKnownMethods(before, c, ops[n], id);
      }
      NothingSuppliedYet(schema, c, ops[..n], id, component);
    }
  }

  lemma ConcernsKnownMethods(s: Store, c: Crypto, op: Op, id: UUID)
    requires Valid(s, c) && Do(s, c, op).Ok?
    ensures Do(s, c, op).value.nextID >= s.nextID
    ensures Concerns(s, op, id) ==> id < Do(s, c, op).value.nextID
  {
    match op
    case OpCreateHost(_) =>
    case OpCreatePassword(_, _, _) =>
    case OpCreateKey(_, _, _) =>
    case OpUpdate(_, methodID, _, _) => UpdatedIsKnown(s, c, methodID);
  }

  lemma UpdatedIsKnown(s: Store, c: Crypto, methodID: UUID)
    requires Valid(s, c) && FindMethod(s.methods, methodID).Some?
    ensures methodID < s.nextID
  {
    FindMethodFinds(s.methods, methodID);
    var i :| 0 <= i < |s.methods| && s.methods[i].id == methodID;
  }

  predicate SameIdentity(a: Method, b: Method) {
    a.id == b.id && a.hostID == b.hostID && a.kind == b.kind
  }

  /** What a successful call does to a component of a method that is there: it becomes
      what was supplied for it, if anything, and stays what it was otherwise. */
  lemma StepHolds(s: Store, c: Crypto, op: Op, k: nat, component: Component)
    requires Lawful(c) && Valid(s, c) && (!op.OpCreateHost? ==> GoodNonce(c, op.nonce)) && Do(s, c, op).Ok?
    requires k < |s.methods| && Holds(s.methods[k].kind, component)
    ensures var after := Do(s, c, op).value;
            && k < |after.methods| && SameIdentity(s.methods[k], after.methods[k])
            && SecretOf(c, after.methods[k]).Ok? && SecretOf(c, s.methods[k]).Ok?
            && Held(SecretOf(c, after.methods[k]).value, component)
               == if Concerns(s, op, s.methods[k].id) && Supplied(op.input, component) != "" then Supplied(op.input, component)
                  else Held(SecretOf(c, s.methods[k]).value, component)
  {
    assert MethodInv(c, s.methods[k]);
    match op
    case OpCreateHost(_) =>
    case OpCreatePassword(hostID, input, nonce) => CreatedSecret(s, c, hostID, input, nonce, false);
    case OpCreateKey(hostID, input, nonce) => CreatedSecret(s, c, hostID, input, nonce, true);
    case OpUpdate(hostID, methodID, input, nonce) => UpdateTouchesOneMethod(s, c, hostID, methodID, input, nonce, k);
  }

  /** A method just created holds what was supplied for it. */
  lemma CreationHolds(s: Store, c: Crypto, op: Op, component: Component)
    requires Lawful(c) && (op.OpCreatePassword? || op.OpCreateKey?) && GoodNonce(c, op.nonce) && Do(s, c, op).Ok?
    ensures var after := Do(s, c, op).value;
            && |after.methods| == |s.methods| + 1
            && var m := after.methods[|s.methods|];
               && m.id == s.nextID && SecretOf(c, m).Ok?
               && (Holds(m.kind, component) ==> Held(SecretOf(c, m).value, component) == Supplied(op.input, component))
  {
    CreatedSecret(s, c, op.hostID, op.input, op.nonce, op.OpCreateKey?);
  }

  lemma StillLastSupplied(schema: Schema, c: Crypto, ops: seq<Op>, before: Store, k: nat, component: Component)
    requires Lawful(c) && GoodNonces(c, ops) && ops != [] && before == DoAll(schema, c, ops[..|ops| - 1]) && Valid(before, c)
    requires Do(before, c, ops[|ops| - 1]).Ok? && k < |before.methods| && Holds(before.methods[k].kind, component)
    requires SecretOf(c, before.methods[k]).Ok?
    requires Held(SecretOf(c, before.methods[k]).value, component)
          == LastSupplied(schema, c, ops[..|ops| - 1], before.methods[k].id, component)
    ensures var after := Do(before, c, ops[|ops| - 1]).value;
            && k < |after.methods| && SecretOf(c, after.methods[k]).Ok?
            && Held(SecretOf(c, after.methods[k]).value, component) == LastSupplied(schema, c, ops, after.methods[k].id, component)
  {
    StepHolds(before, c, ops[|ops| - 1], k, component);
  }

  /** Over any run of calls, each component of a stored secret is the last nonblank
      value supplied for it, trimmed: an update that gives only one half of a key
      pair keeps the other half, and one that gives none keeps both. */
  lemma {:induction false} SecretIsLastSupplied(schema: Schema, c: Crypto, ops: seq<Op>, k: nat, component: Component)
    requires Sound(schema) && Lawful(c) && GoodNonces(c, ops)
    requires k < |DoAll(schema, c, ops).methods| && Holds(DoAll(schema, c, ops).methods[k].kind, component)
    ensures SecretOf(c, DoAll(schema, c, ops).methods[k]).Ok?
    ensures Held(SecretOf(c, DoAll(schema, c, ops).methods[k]).value, component)
         == LastSupplied(schema, c, ops, DoAll(schema, c, ops).methods[k].id, component)
  {
    var n := |ops| - 1;
    var before, op := DoAll(schema, c, ops[..n]), ops[n];
    DoAllIsValid(schema, c, ops[..n]);
    if Do(before, c, op).Err? {
      SecretIsLastSupplied(schema, c, ops[..n], k, component);
    } else if k < |before.methods| {
      KindIsKept(before, c, op, k);
      SecretIsLastSupplied(schema, c, ops[..n], k, component);
      StillLastSupplied(schema, c, ops, before, k, component);
    } else {
      NewSecretIsSupplied(schema, c, ops, before, k, component);
    }
  }

  lemma NewSecretIsSupplied(schema: Schema, c: Crypto, ops: seq<Op>, before: Store, k: nat, component: Component)
    requires Sound(schema) && Lawful(c) && GoodNonces(c, ops) && ops != [] && before == DoAll(schema, c, ops[..|ops| - 1])
    requires Do(before, c, ops[|ops| - 1]).Ok? && |before.methods| <= k < |Do(before, c, ops[|ops| - 1]).value.methods|
    ensures var m := Do(before, c, ops[|ops| - 1]).value.methods[k];
            SecretOf(c, m).Ok? && (Holds(m.kind, component) ==>
                                     Held(SecretOf(c, m).value, component) == LastSupplied(schema, c, ops, m.id, component))
  {
    MethodCount(before, c, ops[|ops| - 1]);
    CreationHolds(before, c, ops[|ops| - 1], component);
    NothingSuppliedYet(schema, c, ops[..|ops| - 1], before.nextID, component);
  }

  /** The input of the last successful call about method `id`, which is the call that
      created it if none has updated it. */
  function LastInput(schema: Schema, c: Crypto, ops: seq<Op>, id: UUID): Option<Input> {
    if ops == [] then None
    else
      var n := |ops| - 1;
      var before := DoAll(schema, c, ops[..n]);
      if Concerns(before, ops[n], id) && Do(before, c, ops[n]).Ok? then Some(ops[n].input)
      else LastInput(schema, c, ops[..n], id)
  }

  /** What a successful call does to the fields of a method that is there. */
  lemma StepSays(s: Store, c: Crypto, op: Op, k: nat)
    requires Lawful(c) && Valid(s, c) && (!op.OpCreateHost? ==> GoodNonce(c, op.nonce)) && Do(s, c, op).Ok? && k < |s.methods|
    ensures var after := Do(s, c, op).value;
            && k < |after.methods| && after.methods[k].id == s.methods[k].id
            && if Concerns(s, op, s.methods[k].id) then SaysAs(after.methods[k], op.input)
               else after.methods[k] == s.methods[k]
  {
    match op
    case OpCreateHost(_) =>
    case OpCreatePassword(hostID, input, nonce) => CreatedSecret(s, c, hostID, input, nonce, false);
    case OpCreateKey(hostID, input, nonce) => CreatedSecret(s, c, hostID, input, nonce, true);
    case OpUpdate(hostID, methodID, input, nonce) => UpdateTouchesOneMethod(s, c, hostID, methodID, input, nonce, k);
  }

  /** Over any run of calls, the fields of a method are those of the last successful
      call about it. */
  lemma {:induction false} FieldsAreLastSupplied(schema: Schema, c: Crypto, ops: seq<Op>, k: nat)
    requires Sound(schema) && Lawful(c) && GoodNonces(c, ops) && k < |DoAll(schema, c, ops).methods|
    ensures var m := DoAll(schema, c, ops).methods[k];
            var input := LastInput(schema, c, ops, m.id);
            input.Some? && SaysAs(m, input.value)
  {
    var n := |ops| - 1;
    var before, op := DoAll(schema, c, ops[..n]), ops[n];
    DoAllIsValid(schema, c, ops[..n]);
    if Do(before, c, op).Err? {
      FieldsAreLastSupplied(schema, c, ops[..n], k);
    } else if k < |before.methods| {
      FieldsAreLastSupplied(schema, c, ops[..n], k);
      StepSays(before, c, op, k);
    } else {
      MethodCount(before, c, op);
      CreatedSecret(before, c, op.hostID, op.input, op.nonce, op.OpCreateKey?);
    }
  }

  /** Only the creation of a method adds one. */
  lemma MethodCount(s: Store, c: Crypto, op: Op)
    ensures Do(s, c, op).Ok? ==>
              |Do(s, c, op).value.methods| == |s.methods| + if op.OpCreatePassword? || op.OpCreateKey? then 1 else 0
  {
  }

  lemma KindIsKept(s: Store, c: Crypto, op: Op, k: nat)
    ensures Do(s, c, op).Ok? && k < |s.methods| ==>
              k < |Do(s, c, op).value.methods| && Do(s, c, op).value.methods[k].kind == s.methods[k].kind
  {
  }

  lemma DoKeepsIdentity(s: Store, c: Crypto, op: Op, k: nat)
    requires Lawful(c) && Valid(s, c) && (!op.OpCreateHost? ==> GoodNonce(c, op.nonce)) && Do(s, c, op).Ok?
    requires k < |s.methods|
    ensures k < |Do(s, c, op).value.methods| && SameIdentity(s.methods[k], Do(s, c, op).value.methods[k])
  {
    match op
    case OpCreateHost(_) =>
    case OpCreatePassword(hostID, input, nonce) => CreatedSecret(s, c, hostID, input, nonce, false);
    case OpCreateKey(hostID, input, nonce) => CreatedSecret(s, c, hostID, input, nonce, true);
    case OpUpdate(hostID, methodID, input, nonce) => UpdateTouchesOneMethod(s, c, hostID, methodID, input, nonce, k);
  }

  /** A method's host and type are those it was created with, whatever calls follow. */
  lemma {:induction false} IdentityNeverChanges(schema: Schema, c: Crypto, ops: seq<Op>, n: nat, k: nat)
    requires Sound(schema) && Lawful(c) && GoodNonces(c, ops) && n <= |ops| && k < |DoAll(schema, c, ops[..n]).methods|
    ensures k < |DoAll(schema, c, ops).methods| && SameIdentity(DoAll(schema, c, ops[..n]).methods[k], DoAll(schema, c, ops).methods[k])
  {
    if n == |ops| {
      assert ops[..n] == ops;
    } else {
      var last := |ops| - 1;
      assert ops[..last][..n] == ops[..n];
      IdentityNeverChanges(schema, c, ops[..last], n, k);
      var before := DoAll(schema, c, ops[..last]);
      DoAllIsValid(schema, c, ops[..last]);
      if Do(before, c, ops[last]).Ok? {
        DoKeepsIdentity(before, c, ops[last], k);
      }
    }
  }

  /** A call with the wrong host is refused, and so changes nothing. */
  lemma WrongHostIsRefused(s: Store, c: Crypto, hostID: UUID, k: nat, input: Input, nonce: Option<Bytes>)
    requires Valid(s, c) && k < |s.methods| && s.methods[k].hostID != hostID
    ensures UpdateMethod(s, c, hostID, s.methods[k].id, input, nonce) == Err(MethodNotFound)
    ensures GetSecret(s, c, hostID, s.methods[k].id) == Err(MethodNotFound)
  {
    FindMethodAt(s.methods, k);
  }
}
