/** Loading the agent's configuration files (internal/agent/file_config.go:62-237), and the
    time to live that follows from them (internal/commands/agent_runtime.go:180, 218-226). */
module AgentConfigDir {
  import opened Identifiers
  import opened Text
  import opened StableSort
  import MetricsCache

  /** Nanoseconds, in 64 bits. */
  type Duration = int

  predicate IsDuration(d: Duration) {
    -0x8000_0000_0000_0000 <= d < 0x8000_0000_0000_0000
  }

  predicate IsUUID(id: UUID) {
    0 <= id < 0x1_0000_0000_0000_0000_0000_0000_0000_0000
  }

  const SECOND: Duration := 1_000_000_000
  const DEFAULT_HEARTBEAT: Duration := 2 * SECOND
  const DEFAULT_METRICS: Duration := 4 * SECOND

  datatype FileConfig = FileConfig(
    agentID: string,
    host: string,
    scheme: string,
    apiKey: string,
    heartbeat: string,
    metrics: string,
    version: int
  )

  datatype AgentConfig = AgentConfig(
    agentID: UUID,
    host: string,
    scheme: string,
    apiKey: string,
    heartbeat: Duration,
    metrics: Duration,
    version: int
  )

  /** The parsers and formatters of the libraries. */
  datatype Codec = Codec(
    parseUUID: string -> Option<UUID>,
    formatUUID: UUID -> string,
    parseDuration: string -> Option<Duration>,
    formatDuration: Duration -> string
  )

  /** Their laws: texts parse to what was formatted, have no space at the ends, and a
      UUID's has 36 characters. */
  ghost predicate Lawful(codec: Codec) {
    && (forall text :: codec.parseUUID(text).Some? ==> IsUUID(codec.parseUUID(text).value))
    && (forall id: UUID :: IsUUID(id) ==>
          codec.parseUUID(codec.formatUUID(id)) == Some(id)
          && |codec.formatUUID(id)| == 36 && Trimmed(codec.formatUUID(id)))
    && (forall d :: IsDuration(d) ==>
          codec.parseDuration(codec.formatDuration(d)) == Some(d)
          && codec.formatDuration(d) != "" && Trimmed(codec.formatDuration(d)))
  }

  datatype ParseError = BadAgentID | HostRequired | SchemeRequired | APIKeyRequired | BadHeartbeat | BadMetrics

  datatype Parsed = Ok(config: AgentConfig) | Err(error: ParseError)

  // ---------------------------------------------------------------- one file

  /** `parseIntervalOrDefault`; None is any of its errors. */
  function ParseIntervalOrDefault(codec: Codec, raw: string, fallback: Duration): Option<Duration> {
    var value := Trim(raw);
    if value == "" then Some(fallback)
    else
      var parsed := codec.parseDuration(value);
      if parsed.None? || parsed.value <= 0 then None else parsed
  }

  /** `toAgentConfig` */
  function ToAgentConfig(codec: Codec, f: FileConfig): Parsed {
    var agentID := codec.parseUUID(Trim(f.agentID));
    if agentID.None? then Err(BadAgentID)
    else if Trim(f.host) == "" then Err(HostRequired)
    else if Trim(f.scheme) == "" then Err(SchemeRequired)
    else if Trim(f.apiKey) == "" then Err(APIKeyRequired)
    else
      var heartbeat := ParseIntervalOrDefault(codec, f.heartbeat, DEFAULT_HEARTBEAT);
      if heartbeat.None? then Err(BadHeartbeat)
      else
        var metrics := ParseIntervalOrDefault(codec, f.metrics, DEFAULT_METRICS);
        if metrics.None? then Err(BadMetrics)
        else Ok(AgentConfig(agentID.value, Trim(f.host), Trim(f.scheme), Trim(f.apiKey), heartbeat.value, metrics.value,
                            if f.version <= 0 then 1 else f.version))
  }

  /** `fromAgentConfig` */
  function FromAgentConfig(codec: Codec, cfg: AgentConfig): FileConfig {
    FileConfig(codec.formatUUID(cfg.agentID), cfg.host, cfg.scheme, cfg.apiKey,
               codec.formatDuration(cfg.heartbeat), codec.formatDuration(cfg.metrics), cfg.version)
  }

  predicate Required(text: string) {
    text != "" && Trimmed(text)
  }

  /** A configuration as loading leaves it. */
  predicate WellFormed(cfg: AgentConfig) {
    && IsUUID(cfg.agentID) && Required(cfg.host) && Required(cfg.scheme) && Required(cfg.apiKey)
    && cfg.heartbeat > 0 && cfg.metrics > 0 && cfg.version > 0
  }

  /** The interval that a text asks for: `fallback` when it is blank. */
  predicate Asks(codec: Codec, raw: string, fallback: Duration, interval: Duration) {
    if Trim(raw) == "" then interval == fallback
    else codec.parseDuration(Trim(raw)) == Some(interval) && interval > 0
  }

  /** What is wrong with a file, in the order in which it is noticed. */
  ghost predicate Lacks(codec: Codec, f: FileConfig, error: ParseError) {
    match error
    case BadAgentID => codec.parseUUID(Trim(f.agentID)).None?
    case HostRequired => Trim(f.host) == ""
    case SchemeRequired => Trim(f.scheme) == ""
    case APIKeyRequired => Trim(f.apiKey) == ""
    case BadHeartbeat => !exists d :: Asks(codec, f.heartbeat, 2_000_000_000, d)
    case BadMetrics => !exists d :: Asks(codec, f.metrics, 4_000_000_000, d)
  }

  /** A file loads. */
  ghost predicate FileLoads(codec: Codec, f: FileConfig) {
    && !Lacks(codec, f, BadAgentID) && !Lacks(codec, f, HostRequired) && !Lacks(codec, f, SchemeRequired)
    && !Lacks(codec, f, APIKeyRequired) && !Lacks(codec, f, BadHeartbeat) && !Lacks(codec, f, BadMetrics)
  }

  /** The configuration says what the file says: texts trimmed, two seconds between
      heartbeats and four between metrics unless given, and a version from 1 on. */
  predicate ConfigSays(codec: Codec, f: FileConfig, cfg: AgentConfig) {
    && codec.parseUUID(Trim(f.agentID)) == Some(cfg.agentID)
    && cfg.host == Trim(f.host) && cfg.scheme == Trim(f.scheme) && cfg.apiKey == Trim(f.apiKey)
    && Asks(codec, f.heartbeat, 2_000_000_000, cfg.heartbeat) && Asks(codec, f.metrics, 4_000_000_000, cfg.metrics)
    && (if f.version <= 0 then cfg.version == 1 else cfg.version == f.version)
  }

  /** A file loads exactly when nothing is wrong with it. */
  lemma FileLoadsExactly(codec: Codec, f: FileConfig)
    ensures ToAgentConfig(codec, f).Ok? <==> FileLoads(codec, f)
    ensures ToAgentConfig(codec, f).Ok? ==> ConfigSays(codec, f, ToAgentConfig(codec, f).config)
    ensures ToAgentConfig(codec, f).Err? ==> Lacks(codec, f, ToAgentConfig(codec, f).error)
  {
    IntervalExactly(codec, f.heartbeat, 2_000_000_000);
    IntervalExactly(codec, f.metrics, 4_000_000_000);
  }

  lemma IntervalExactly(codec: Codec, raw: string, fallback: Duration)
    ensures var interval := ParseIntervalOrDefault(codec, raw, fallback);
            && (interval.Some? ==> Asks(codec, raw, fallback, interval.value))
            && (interval.None? ==> !exists d :: Asks(codec, raw, fallback, d))
  {
    assert Trim(raw) == "" ==> Asks(codec, raw, fallback, fallback);
  }

  lemma LoadedIsWellFormed(codec: Codec, f: FileConfig)
    requires Lawful(codec)
    ensures ToAgentConfig(codec, f).Ok? ==> WellFormed(ToAgentConfig(codec, f).config)
  {
    TrimIsTrimmed(f.host);
    TrimIsTrimmed(f.scheme);
    TrimIsTrimmed(f.apiKey);
  }

  /** A saved configuration loads as it was exactly when it is well formed; and so what
      was loaded once can be saved and loaded for ever. */
  lemma SaveThenLoad(codec: Codec, cfg: AgentConfig)
    requires Lawful(codec) && IsUUID(cfg.agentID) && IsDuration(cfg.heartbeat) && IsDuration(cfg.metrics)
    ensures ToAgentConfig(codec, FromAgentConfig(codec, cfg)) == Ok(cfg) <==> WellFormed(cfg)
  {
    TrimIsTrimmed(codec.formatUUID(cfg.agentID));
    TrimIsTrimmed(codec.formatDuration(cfg.heartbeat));
    TrimIsTrimmed(codec.formatDuration(cfg.metrics));
    TrimIsTrimmed(cfg.host);
    TrimIsTrimmed(cfg.scheme);
    TrimIsTrimmed(cfg.apiKey);
  }

  // ---------------------------------------------------------------- the directory

  /** A directory entry; `content` is None when it cannot be read or is no YAML. */
  datatype Entry = Entry(name: string, regular: bool, content: Option<FileConfig>)

  datatype LoadedConfig = LoadedConfig(path: string, config: AgentConfig)

  datatype LoadError =
    | Unparsable(path: string)
    | Duplicate(first: string, later: string)
    | NoConfigFiles

  datatype Loading = Configs(configs: seq<LoadedConfig>) | Errors(errors: seq<LoadError>)

  /** `filepath.Ext`: the suffix from the last dot. */
  function Ext(name: string): string {
    if name == "" then ""
    else if name[|name| - 1] == '.' then "."
    else
      var before := Ext(name[..|name| - 1]);
      if before == "" then "" else before + [name[|name| - 1]]
  }

  predicate IsConfigFile(name: string) {
    Ext(name) == ".yaml" || Ext(name) == ".yml"
  }

  predicate EndsWith(name: string, suffix: string) {
    |suffix| <= |name| && name[|name| - |suffix|..] == suffix
  }

  /** The configuration files are those whose names end in one of the two suffixes. */
  lemma ConfigFileExactly(name: string)
    ensures IsConfigFile(name) <==> EndsWith(name, ".yaml") || EndsWith(name, ".yml")
  {
    ExtIsSuffix(name, ".yaml");
    ExtIsSuffix(name, ".yml");
  }

  /** A dot, and none after it. */
  predicate IsExt(suffix: string) {
    suffix != "" && suffix[0] == '.' && forall i :: 0 < i < |suffix| ==> suffix[i] != '.'
  }

  /** The extension of a name is what it has from its last dot on. */
  lemma {:induction false} ExtIsSuffix(name: string, suffix: string)
    requires IsExt(suffix)
    ensures Ext(name) == suffix <==> EndsWith(name, suffix)
  {
    if name != "" {
      var n, s := |name| - 1, |suffix| - 1;
      SuffixStep(name, suffix[..s], suffix[s]);
      assert suffix == suffix[..s] + [suffix[s]];
      if name[n] != '.' && s > 0 {
        ExtIsSuffix(name[..n], suffix[..s]);
        SameEnds(Ext(name[..n]), name[n], suffix[..s], suffix[s]);
      } else if name[n] != '.' {
        SameEnds(Ext(name[..n]), name[n], "", '.');
      } else if s == 0 {
        assert suffix == "." && EndsWith(name[..n], "");
      }
    }
  }

  lemma SameEnds(x: string, c: char, y: string, d: char)
    ensures x + [c] == y + [d] <==> x == y && c == d
  {
    if x + [c] == y + [d] {
      assert x == (x + [c])[..|x|] && y == (y + [d])[..|y|];
      assert c == (x + [c])[|x|] && d == (y + [d])[|y|];
    }
  }

  lemma SuffixStep(name: string, suffix: string, c: char)
    requires name != ""
    ensures EndsWith(name, suffix + [c]) <==> EndsWith(name[..|name| - 1], suffix) && name[|name| - 1] == c
  {
    if |suffix| < |name| {
      var n := |name| - 1;
      SameEnds(name[..n][n - |suffix|..], name[n], suffix, c);
      assert name[n - |suffix|..] == name[..n][n - |suffix|..] + [name[n]];
    }
  }

  predicate IsConfigEntry(e: Entry) {
    e.regular && IsConfigFile(e.name)
  }

  function ParseEntry(codec: Codec, e: Entry): Option<AgentConfig> {
    if e.content.None? then None
    else
      var parsed := ToAgentConfig(codec, e.content.value);
      if parsed.Ok? then Some(parsed.config) else None
  }

  predicate NameBefore(a: Entry, b: Entry) {
    Before(a.name, b.name)
  }

  function NormalizedEndpoint(cfg: AgentConfig): string {
    Normalized(cfg.scheme) + "://" + Normalized(cfg.host)
  }

  function Key(codec: Codec, cfg: AgentConfig): string {
    NormalizedEndpoint(cfg) + "\0" + codec.formatUUID(cfg.agentID)
  }

  /** The key identifies the endpoint and the agent, whatever the texts hold. */
  lemma KeyIsInjective(codec: Codec, a: AgentConfig, b: AgentConfig)
    requires Lawful(codec) && IsUUID(a.agentID) && IsUUID(b.agentID)
    ensures Key(codec, a) == Key(codec, b) <==> NormalizedEndpoint(a) == NormalizedEndpoint(b) && a.agentID == b.agentID
  {
    if Key(codec, a) == Key(codec, b) {
      var n, key := |Key(codec, a)| - 36, Key(codec, a);
      assert key[n..] == codec.formatUUID(a.agentID);
      assert key[n..] == codec.formatUUID(b.agentID);
      assert key[..n - 1] == NormalizedEndpoint(a);
      assert key[..n - 1] == NormalizedEndpoint(b);
    }
  }

  /** The configurations that load, and the files that do not. */
  function Parse(codec: Codec, entries: seq<Entry>): (seq<LoadedConfig>, seq<LoadError>) {
    if entries == [] then ([], [])
    else
      var n := |entries| - 1;
      var (configs, errors) := Parse(codec, entries[..n]);
      var parsed := ParseEntry(codec, entries[n]);
      if !IsConfigEntry(entries[n]) then (configs, errors)
      else if parsed.None? then (configs, errors + [Unparsable(entries[n].name)])
      else (configs + [LoadedConfig(entries[n].name, parsed.value)], errors)
  }

  function KeyOf(codec: Codec): LoadedConfig -> string {
    (loaded: LoadedConfig) => Key(codec, loaded.config)
  }

  /** The path of the first configuration with each key. */
  function Seen(key: LoadedConfig -> string, configs: seq<LoadedConfig>): map<string, string> {
    if configs == [] then map[]
    else
      var before, last := Seen(key, configs[..|configs| - 1]), configs[|configs| - 1];
      if key(last) in before then before else before[key(last) := last.path]
  }

  /** An error for each configuration whose key an earlier one has. */
  function Duplicates(key: LoadedConfig -> string, configs: seq<LoadedConfig>): seq<LoadError> {
    if configs == [] then []
    else
      var before, last := Seen(key, configs[..|configs| - 1]), configs[|configs| - 1];
      Duplicates(key, configs[..|configs| - 1]) + if key(last) in before then [Duplicate(before[key(last)], last.path)] else []
  }

  function Sorted(entries: seq<Entry>): seq<Entry> {
    Sort(entries, NameBefore)
  }

  function Load(codec: Codec, entries: seq<Entry>): Loading {
    var (configs, failures) := Parse(codec, Sorted(entries));
    if configs == [] then Errors(if failures == [] then [NoConfigFiles] else failures)
    else
      var errors := failures + Duplicates(KeyOf(codec), configs);
      if errors == [] then Configs(configs) else Errors(errors)
  }

  /** `LoadConfigsFromDir` */
  method LoadConfigsFromDir(codec: Codec, entries: seq<Entry>) returns (loading: Loading)
    ensures loading == Load(codec, entries)
  {
    var sorted := Sorted(entries);
    var configs: seq<LoadedConfig>, errors: seq<LoadError> := [], [];
    for i := 0 to |sorted|
      invariant (configs, errors) == Parse(codec, sorted[..i])
    {
      assert sorted[..i + 1][..i] == sorted[..i];
      if !sorted[i].regular || !IsConfigFile(sorted[i].name) {
        continue;
      }
      var config := ParseEntry(codec, sorted[i]);
      if config.None? {
        errors := errors + [Unparsable(sorted[i].name)];
        continue;
      }
      configs := configs + [LoadedConfig(sorted[i].name, config.value)];
    }
    assert sorted[..|sorted|] == sorted;
    if |configs| == 0 {
      if |errors| > 0 {
        return Errors(errors);
      }
      return Errors([NoConfigFiles]);
    }
    ghost var failures := errors;
    var seen: map<string, string> := map[];
    for i := 0 to |configs|
      invariant seen == Seen(KeyOf(codec), configs[..i])
      invariant errors == failures + Duplicates(KeyOf(codec), configs[..i])
    {
      assert configs[..i + 1][..i] == configs[..i];
      var key := Key(codec, configs[i].config);
      if key in seen {
        errors := errors + [Duplicate(seen[key], configs[i].path)];
        continue;
      }
      seen := seen[key := configs[i].path];
    }
    assert configs[..|configs|] == configs;
    if |errors| > 0 {
      return Errors(errors);
    }
    loading := Configs(configs);
  }

  // ---------------------------------------------------------------- what loading means

  /** The positions of the configuration files that load, or of those that do not. */
  function Those(codec: Codec, entries: seq<Entry>, loads: bool): seq<nat> {
    if entries == [] then []
    else
      var n := |entries| - 1;
      Those(codec, entries[..n], loads)
      + if IsConfigEntry(entries[n]) && ParseEntry(codec, entries[n]).Some? == loads then [n] else []
  }

  /** A regular file with one of the two suffixes. */
  predicate IsFile(e: Entry) {
    e.regular && (EndsWith(e.name, ".yaml") || EndsWith(e.name, ".yml"))
  }

  ghost predicate Loads(codec: Codec, e: Entry) {
    e.content.Some? && FileLoads(codec, e.content.value)
  }

  /** `files` are the positions of the files that load, or of those that do not. */
  ghost predicate AreFiles(codec: Codec, entries: seq<Entry>, loads: bool, files: seq<nat>) {
    && InTurn(files)
    && forall k: nat :: k in files <==> k < |entries| && IsFile(entries[k]) && Loads(codec, entries[k]) == loads
  }

  /** Two configurations are for the same agent at the same endpoint, which is written
      with its scheme, in small letters and without space around either part. */
  predicate SameTarget(a: LoadedConfig, b: LoadedConfig) {
    && a.config.agentID == b.config.agentID
    && Lower(Trim(a.config.scheme)) + "://" + Lower(Trim(a.config.host))
       == Lower(Trim(b.config.scheme)) + "://" + Lower(Trim(b.config.host))
  }

  /** `mark` occurs in `text`. */
  predicate Occurs(mark: string, text: string) {
    exists i :: 0 <= i <= |text| && mark <= text[i..]
  }

  /** Unless a scheme holds the mark itself, same targets have the same agent, scheme and
      host. */
  lemma TargetsExactly(a: LoadedConfig, b: LoadedConfig)
    requires !Occurs("://", Lower(Trim(a.config.scheme))) && !Occurs("://", Lower(Trim(b.config.scheme)))
    ensures SameTarget(a, b) <==>
            && a.config.agentID == b.config.agentID
            && Lower(Trim(a.config.scheme)) == Lower(Trim(b.config.scheme))
            && Lower(Trim(a.config.host)) == Lower(Trim(b.config.host))
  {
    SplitAtMark(Lower(Trim(a.config.scheme)), Lower(Trim(a.config.host)), Lower(Trim(b.config.scheme)), Lower(Trim(b.config.host)));
  }

  lemma SplitAtMark(x: string, y: string, u: string, v: string)
    requires !Occurs("://", x) && !Occurs("://", u)
    ensures x + "://" + y == u + "://" + v <==> x == u && y == v
  {
    if x + "://" + y == u + "://" + v {
      if |x| < |u| {
        MarkInside(x, y, u, v);
      } else if |u| < |x| {
        MarkInside(u, v, x, y);
      }
      assert x == (x + "://" + y)[..|x|] && u == (u + "://" + v)[..|u|];
      assert y == (x + "://" + y)[|x| + 3..] && v == (u + "://" + v)[|u| + 3..];
    }
  }

  lemma MarkInside(x: string, y: string, u: string, v: string)
    requires x + "://" + y == u + "://" + v && |x| < |u|
    ensures Occurs("://", u)
  {
    GoesOn(x, y, u, v);
    assert u == x + "://" + u[|x| + 3..];
    assert "://" <= u[|x|..];
  }

  ghost predicate MayCollide(x: string, u: string) {
    exists y, v :: x + "://" + y == u + "://" + v
  }

  /** Endpoints with different schemes, as they are compared, can be taken for one exactly
      when one scheme goes on after the other with the mark. */
  lemma SchemesCollideExactly(x: string, u: string)
    requires x != u
    ensures MayCollide(x, u) <==> u + "://" <= x || x + "://" <= u
  {
    if y, v :| x + "://" + y == u + "://" + v {
      if |x| < |u| {
        GoesOn(x, y, u, v);
      } else if |u| < |x| {
        GoesOn(u, v, x, y);
      } else {
        SameLength(x, y, u, v);
      }
    }
    if u + "://" <= x {
      Collision(x, u);
    } else if x + "://" <= u {
      Collision(u, x);
      var y, v :| u + "://" + y == x + "://" + v;
      assert x + "://" + v == u + "://" + y;
    }
  }

  lemma Collision(x: string, u: string)
    requires u + "://" <= x
    ensures MayCollide(x, u)
  {
    var v := x[|u| + 3..] + "://";
    assert x == u + "://" + x[|u| + 3..];
    assert x + "://" + "" == u + "://" + v;
  }

  lemma SameLength(x: string, y: string, u: string, v: string)
    requires x + "://" + y == u + "://" + v && |x| == |u|
    ensures x == u
  {
    assert x == (x + "://" + y)[..|x|] && u == (u + "://" + v)[..|x|];
  }

  lemma GoesOn(x: string, y: string, u: string, v: string)
    requires x + "://" + y == u + "://" + v && |x| < |u|
    ensures x + "://" <= u
  {
    var whole := x + "://" + y;
    assert whole[|x|] == ':' && whole[|x| + 1] == '/' && whole[|x| + 2] == '/';
    assert whole[|u|] == ':' && whole[|u| + 1] == '/';
    assert |u| >= |x| + 3;
    assert whole[..|u|] == u && whole[..|x| + 3] == x + "://";
  }

  /** With the mark in a scheme they may differ: the loader then takes two endpoints for
      one. */
  lemma DifferentEndpointsCollide(a: LoadedConfig, b: LoadedConfig)
    requires a.config.scheme == "http" && a.config.host == "a://b"
    requires b.config.scheme == "http://a" && b.config.host == "b" && a.config.agentID == b.config.agentID
    ensures SameTarget(a, b)
  {
    PlainText("http");
    PlainText("a://b");
    PlainText("http://a");
    PlainText("b");
    assert "http" + "://" + "a://b" == "http://a" + "://" + "b";
  }

  lemma PlainText(text: string)
    requires Trimmed(text) && forall i :: 0 <= i < |text| ==> !('A' <= text[i] <= 'Z')
    ensures Lower(Trim(text)) == text
  {
    TrimIsTrimmed(text);
  }

  /** An earlier configuration has the same target. */
  predicate IsLater(configs: seq<LoadedConfig>, j: nat)
    requires j < |configs|
  {
    exists i :: 0 <= i < j && SameTarget(configs[i], configs[j])
  }

  /** The configurations whose target an earlier one has, in order. */
  function Later(configs: seq<LoadedConfig>): seq<nat> {
    if configs == [] then []
    else
      var n := |configs| - 1;
      Later(configs[..n]) + if IsLater(configs, n) then [n] else []
  }

  /** The error names configuration `j` and the earliest with its target. */
  predicate Reports(error: LoadError, configs: seq<LoadedConfig>, j: nat)
    requires j < |configs|
  {
    && error.Duplicate? && error.later == configs[j].path
    && exists i :: 0 <= i < j && IsEarliest(configs, i, configs[j]) && error.first == configs[i].path
  }

  /** One error for each of the configurations in `later`. */
  predicate ReportsAll(errors: seq<LoadError>, configs: seq<LoadedConfig>, later: seq<nat>) {
    |errors| == |later| && forall k :: 0 <= k < |later| ==> later[k] < |configs| && Reports(errors[k], configs, later[k])
  }

  /** `later` are the configurations whose target an earlier one has. */
  ghost predicate AreLater(configs: seq<LoadedConfig>, later: seq<nat>) {
    && InTurn(later)
    && forall j: nat :: j in later <==> j < |configs| && IsLater(configs, j)
  }

  /** One error for each of these files. */
  predicate NamesAll(errors: seq<LoadError>, entries: seq<Entry>, files: seq<nat>) {
    |errors| == |files| && forall i :: 0 <= i < |files| ==> files[i] < |entries| && errors[i] == Unparsable(entries[files[i]].name)
  }

  /** Each configuration is what one of these files holds, well formed. */
  ghost predicate ComeFrom(codec: Codec, configs: seq<LoadedConfig>, entries: seq<Entry>, files: seq<nat>) {
    |configs| == |files| && forall i :: 0 <= i < |files| ==>
      && files[i] < |entries| && configs[i].path == entries[files[i]].name
      && entries[files[i]].content.Some? && ConfigSays(codec, entries[files[i]].content.value, configs[i].config)
      && WellFormed(configs[i].config)
  }

  predicate IsEarliest(configs: seq<LoadedConfig>, i: nat, target: LoadedConfig)
    requires i < |configs|
  {
    SameTarget(configs[i], target) && forall h :: 0 <= h < i ==> !SameTarget(configs[h], target)
  }

  predicate AllDifferent(configs: seq<LoadedConfig>) {
    forall i, j :: 0 <= i < j < |configs| ==> !SameTarget(configs[i], configs[j])
  }

  lemma {:induction false} ParseExactly(codec: Codec, entries: seq<Entry>)
    requires Lawful(codec)
    ensures ComeFrom(codec, Parse(codec, entries).0, entries, Those(codec, entries, true))
    ensures NamesAll(Parse(codec, entries).1, entries, Those(codec, entries, false))
  {
    if entries != [] {
      var n := |entries| - 1;
      ParseExactly(codec, entries[..n]);
      if entries[n].content.Some? {
        FileLoadsExactly(codec, entries[n].content.value);
        LoadedIsWellFormed(codec, entries[n].content.value);
      }
    }
  }

  lemma {:induction false} ThoseExactly(codec: Codec, entries: seq<Entry>, loads: bool)
    ensures AreFiles(codec, entries, loads, Those(codec, entries, loads))
  {
    if entries != [] {
      var n := |entries| - 1;
      ThoseExactly(codec, entries[..n], loads);
      IsFileExactly(codec, entries[n]);
      OneMoreFile(codec, entries, loads, Those(codec, entries[..n], loads));
    }
  }

  lemma IsFileExactly(codec: Codec, e: Entry)
    ensures IsConfigEntry(e) <==> IsFile(e)
    ensures ParseEntry(codec, e).Some? <==> Loads(codec, e)
  {
    ConfigFileExactly(e.name);
    if e.content.Some? {
      FileLoadsExactly(codec, e.content.value);
    }
  }

  lemma OneMoreFile(codec: Codec, entries: seq<Entry>, loads: bool, files: seq<nat>)
    requires entries != [] && AreFiles(codec, entries[..|entries| - 1], loads, files)
    ensures var n := |entries| - 1;
            AreFiles(codec, entries, loads, files + if IsFile(entries[n]) && Loads(codec, entries[n]) == loads then [n] else [])
  {
    var n := |entries| - 1;
    var more := if IsFile(entries[n]) && Loads(codec, entries[n]) == loads then [n] else [];
    forall a | 0 <= a < |files|
      ensures files[a] < n
    {
      assert files[a] in files;
    }
    forall k: nat
      ensures k in files + more <==> k < |entries| && IsFile(entries[k]) && Loads(codec, entries[k]) == loads
    {
      assert k in files + more <==> k in files || k in more;
      assert k < n ==> entries[..n][k] == entries[k];
    }
  }

  /** The table holds the path of the earliest configuration with each key. */
  lemma {:induction false} SeenExactly(key: LoadedConfig -> string, configs: seq<LoadedConfig>, k: string) returns (first: nat)
    ensures first <= |configs| && (k in Seen(key, configs) <==> first < |configs|)
    ensures forall h :: 0 <= h < first ==> key(configs[h]) != k
    ensures first < |configs| ==> key(configs[first]) == k && Seen(key, configs)[k] == configs[first].path
  {
    if configs == [] {
      first := 0;
    } else {
      var n := |configs| - 1;
      first := SeenExactly(key, configs[..n], k);
      if first == n && key(configs[n]) != k {
        first := n + 1;
      }
    }
  }

  /** The key stands for the target. */
  ghost predicate TellsTargets(key: LoadedConfig -> string, configs: seq<LoadedConfig>) {
    forall i, j :: 0 <= i < |configs| && 0 <= j < |configs| ==>
      (key(configs[i]) == key(configs[j]) <==> SameTarget(configs[i], configs[j]))
  }

  lemma KeysTellTargets(codec: Codec, configs: seq<LoadedConfig>)
    requires Lawful(codec) && forall i :: 0 <= i < |configs| ==> IsUUID(configs[i].config.agentID)
    ensures TellsTargets(KeyOf(codec), configs)
  {
    forall i, j | 0 <= i < |configs| && 0 <= j < |configs|
      ensures KeyOf(codec)(configs[i]) == KeyOf(codec)(configs[j]) <==> SameTarget(configs[i], configs[j])
    {
      KeyIsInjective(codec, configs[i].config, configs[j].config);
    }
  }

  lemma {:induction false} DuplicatesExactly(key: LoadedConfig -> string, configs: seq<LoadedConfig>)
    requires TellsTargets(key, configs)
    ensures ReportsAll(Duplicates(key, configs), configs, Later(configs))
  {
    if configs != [] {
      var n := |configs| - 1;
      var errors, later, seen := Duplicates(key, configs[..n]), Later(configs[..n]), Seen(key, configs[..n]);
      TellsBefore(key, configs);
      DuplicatesExactly(key, configs[..n]);
      StillReportsAll(errors, configs, later);
      SeenIsLater(key, configs);
      if IsLater(configs, n) {
        OneMoreReport(errors, Duplicate(seen[key(configs[n])], configs[n].path), configs, later, n);
      }
    }
  }

  lemma OneMoreReport(errors: seq<LoadError>, error: LoadError, configs: seq<LoadedConfig>, later: seq<nat>, j: nat)
    requires ReportsAll(errors, configs, later) && j < |configs| && Reports(error, configs, j)
    ensures ReportsAll(errors + [error], configs, later + [j])
  {
  }

  lemma TellsBefore(key: LoadedConfig -> string, configs: seq<LoadedConfig>)
    requires configs != [] && TellsTargets(key, configs)
    ensures TellsTargets(key, configs[..|configs| - 1])
  {
  }

  lemma {:induction false} LaterExactly(configs: seq<LoadedConfig>)
    ensures AreLater(configs, Later(configs))
    ensures Later(configs) == [] <==> AllDifferent(configs)
  {
    if configs != [] {
      var n := |configs| - 1;
      LaterExactly(configs[..n]);
      AllDifferentStep(configs);
      OneMoreLater(configs, Later(configs[..n]));
    }
  }

  lemma OneMoreLater(configs: seq<LoadedConfig>, later: seq<nat>)
    requires configs != [] && AreLater(configs[..|configs| - 1], later)
    ensures AreLater(configs, later + if IsLater(configs, |configs| - 1) then [|configs| - 1] else [])
  {
    var n := |configs| - 1;
    var more := if IsLater(configs, n) then [n] else [];
    forall a | 0 <= a < |later|
      ensures later[a] < n
    {
      assert later[a] in later;
    }
    forall j: nat
      ensures j in later + more <==> j < |configs| && IsLater(configs, j)
    {
      assert j in later + more <==> j in later || j in more;
      if j < n {
        SameLater(configs, n, j);
      }
    }
  }

  lemma SameLater(configs: seq<LoadedConfig>, n: nat, j: nat)
    requires j < n <= |configs|
    ensures IsLater(configs[..n], j) <==> IsLater(configs, j)
  {
    assert forall i :: 0 <= i <= j ==> configs[..n][i] == configs[i];
  }

  lemma StillReportsAll(errors: seq<LoadError>, configs: seq<LoadedConfig>, later: seq<nat>)
    requires configs != [] && ReportsAll(errors, configs[..|configs| - 1], later)
    ensures ReportsAll(errors, configs, later)
  {
    forall k | 0 <= k < |later|
      ensures Reports(errors[k], configs, later[k])
    {
      StillReports(errors[k], configs, later[k]);
    }
  }

  lemma StillReports(error: LoadError, configs: seq<LoadedConfig>, j: nat)
    requires configs != [] && j < |configs| - 1 && Reports(error, configs[..|configs| - 1], j)
    ensures Reports(error, configs, j)
  {
    var before := configs[..|configs| - 1];
    var i :| 0 <= i < j && IsEarliest(before, i, before[j]) && error.first == before[i].path;
    assert forall h :: 0 <= h < i ==> before[h] == configs[h];
    assert IsEarliest(configs, i, configs[j]);
  }

  lemma AllDifferentStep(configs: seq<LoadedConfig>)
    requires configs != []
    ensures AllDifferent(configs) <==> AllDifferent(configs[..|configs| - 1]) && !IsLater(configs, |configs| - 1)
  {
    var n := |configs| - 1;
    if AllDifferent(configs[..n]) && !IsLater(configs, n) {
      forall i, j | 0 <= i < j < |configs|
        ensures !SameTarget(configs[i], configs[j])
      {
        assert j < n ==> !SameTarget(configs[..n][i], configs[..n][j]);
      }
    }
  }

  lemma SeenIsLater(key: LoadedConfig -> string, configs: seq<LoadedConfig>)
    requires configs != [] && TellsTargets(key, configs)
    ensures var n := |configs| - 1;
            var seen, last := Seen(key, configs[..n]), configs[n];
            && (key(last) in seen <==> IsLater(configs, n))
            && (key(last) in seen ==> Reports(Duplicate(seen[key(last)], last.path), configs, n))
  {
    var n := |configs| - 1;
    var first := SeenExactly(key, configs[..n], key(configs[n]));
    assert forall h :: 0 <= h < first ==> configs[..n][h] == configs[h];
    assert first < n ==> IsEarliest(configs, first, configs[n]);
  }

  /** The configuration files are the regular ones whose names end in `.yaml` or `.yml`.
      Loading succeeds exactly when there is one, all of them load and no two are for
      the same endpoint and agent. It then gives one configuration for each file, in
      the order of their names, that says what the file says. When it fails although
      there is one, it names each file that does not load, and then each configuration
      whose target an earlier one has, with the earliest such. */
  lemma LoadExactly(codec: Codec, entries: seq<Entry>)
    requires Lawful(codec)
    ensures var sorted, result := Sorted(entries), Load(codec, entries);
            var loaded, failed := Those(codec, sorted, true), Those(codec, sorted, false);
            var configs := Parse(codec, sorted).0;
            && AreFiles(codec, sorted, true, loaded) && AreFiles(codec, sorted, false, failed)
            && ComeFrom(codec, configs, sorted, loaded) && AreLater(configs, Later(configs))
            && (result.Configs? <==> loaded != [] && failed == [] && AllDifferent(configs))
            && (result.Configs? ==> result.configs == configs)
            && (loaded == [] && failed == [] ==> result == Errors([NoConfigFiles]))
            && (result.Errors? && (loaded != [] || failed != []) ==>
                  && result.errors != [] && |failed| <= |result.errors|
                  && NamesAll(result.errors[..|failed|], sorted, failed)
                  && ReportsAll(result.errors[|failed|..], configs, Later(configs)))
  {
    var configs := Parse(codec, Sorted(entries)).0;
    ParseExactly(codec, Sorted(entries));
    ThoseExactly(codec, Sorted(entries), true);
    ThoseExactly(codec, Sorted(entries), false);
    DuplicatesAreReported(codec, configs, Sorted(entries), Those(codec, Sorted(entries), true));
    LaterExactly(configs);
    LoadIs(codec, entries);
  }

  /** Loading, by what was parsed. */
  lemma LoadIs(codec: Codec, entries: seq<Entry>)
    ensures var (configs, failures) := Parse(codec, Sorted(entries));
            var duplicates, result := Duplicates(KeyOf(codec), configs), Load(codec, entries);
            && (result.Configs? <==> configs != [] && failures == [] && duplicates == [])
            && (result.Configs? ==> result.configs == configs)
            && (configs == [] && failures == [] ==> result == Errors([NoConfigFiles]))
            && (result.Errors? && (configs != [] || failures != []) ==>
                  && result.errors == failures + duplicates && result.errors != []
                  && result.errors[..|failures|] == failures && result.errors[|failures|..] == duplicates)
  {
  }

  lemma DuplicatesAreReported(codec: Codec, configs: seq<LoadedConfig>, entries: seq<Entry>, files: seq<nat>)
    requires Lawful(codec) && ComeFrom(codec, configs, entries, files)
    ensures ReportsAll(Duplicates(KeyOf(codec), configs), configs, Later(configs))
  {
    KeysTellTargets(codec, configs);
    DuplicatesExactly(KeyOf(codec), configs);
  }

  /** The order is that of the names, and sorting drops and adds nothing. */
  lemma SortedByName(entries: seq<Entry>)
    ensures IsStableSort(Sorted(entries), entries, NameBefore)
  {
    forall a: Entry, b: Entry
      ensures NameBefore(a, b) || a.name == b.name || NameBefore(b, a)
      ensures !(NameBefore(a, b) && NameBefore(b, a)) && !NameBefore(a, a)
    {
      BeforeIsTotal(a.name, b.name);
      BeforeIsTotal(a.name, a.name);
    }
    forall a: Entry, b: Entry, c: Entry | NameBefore(a, b) && NameBefore(b, c)
      ensures NameBefore(a, c)
    {
      BeforeIsTransitive(a.name, b.name, c.name);
    }
    SortIsStable(entries, NameBefore);
  }

  // ---------------------------------------------------------------- the time to live

  /** The least of the configured intervals. */
  ghost predicate IsMinimum(configs: seq<LoadedConfig>, m: Duration) {
    && (forall i :: 0 <= i < |configs| ==> m <= configs[i].config.metrics)
    && (exists i :: 0 <= i < |configs| && m == configs[i].config.metrics)
  }

  method MinimumMetricsInterval(configs: seq<LoadedConfig>) returns (minimum: Duration)
    requires configs != []
    ensures IsMinimum(configs, minimum)
  {
    minimum := configs[0].config.metrics;
    for i := 1 to |configs|
      invariant forall j :: 0 <= j < i ==> minimum <= configs[j].config.metrics
      invariant exists j :: 0 <= j < i && minimum == configs[j].config.metrics
    {
      if configs[i].config.metrics < minimum {
        minimum := configs[i].config.metrics;
      }
    }
  }

  /** Whatever directory was loaded, the cache built from it has a positive time to
      live, and no worker is ever answered from a result as old as its own interval. */
  lemma CachedResultsAreYoung(codec: Codec, entries: seq<Entry>, ttl: Duration,
                              shared: MetricsCache.Shared, now: MetricsCache.Time, i: nat)
    requires Lawful(codec) && Load(codec, entries).Configs? && IsMinimum(Load(codec, entries).configs, ttl)
    requires i < |Load(codec, entries).configs| && shared.ttl == ttl
    ensures ttl > 0
    ensures MetricsCache.Enter(shared, now).1.Hit? ==>
              shared.updated.Some? && now - shared.updated.value < Load(codec, entries).configs[i].config.metrics
  {
    LoadExactly(codec, entries);
  }
}
