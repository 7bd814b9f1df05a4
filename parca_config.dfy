/**
 * Helpers that produce Parca's start command and its configuration structure:
 * the command line built from the charm's configuration, the version string read
 * out of `parca --version`, and the configuration document (an object-storage
 * bucket on the local filesystem plus the scrape jobs).
 */
module ParcaConfig {
  import opened Wrappers
  import opened PyStrings

  const DefaultBinPath: string := "/parca"
  const DefaultConfigPath: string := "/etc/parca/parca.yaml"
  const DefaultProfilePath: string := "/var/lib/parca"

  /** `memory-storage-limit` is given in MiB; Parca wants bytes. */
  const BytesPerMiB: int := 1048576

  /** The two entries of the charm configuration the command line reads. */
  datatype AppConfig = AppConfig(storagePersist: bool, memoryStorageLimit: int)

  // ---------------------------------------------------------------------------
  // The command line
  // ---------------------------------------------------------------------------

  const ConfigPathFlag: string := "--config-path="
  const StoragePathFlag: string := "--storage-path="
  const ActiveMemoryFlag: string := "--storage-active-memory="

  /** The flags that follow the binary and the configuration path, chosen by the storage mode. */
  function StorageFlags(appConfig: AppConfig, profilePath: string): (flags: seq<string>)
  {
    if appConfig.storagePersist then
      ["--storage-in-memory=false", "--storage-persist", StoragePathFlag + profilePath]
    else
      ["--storage-in-memory=true", ActiveMemoryFlag + IntToString(appConfig.memoryStorageLimit * BytesPerMiB)]
  }

  /** The tokens of the command, in order. */
  function CommandTokens(appConfig: AppConfig, binPath: string, configPath: string, profilePath: string): (toks: seq<string>)
  {
    [binPath, ConfigPathFlag + configPath] + StorageFlags(appConfig, profilePath)
  }

  /** The command: its tokens joined with single spaces. */
  function CommandLine(appConfig: AppConfig, binPath: string, configPath: string, profilePath: string): (line: string)
  {
    Join(CommandTokens(appConfig, binPath, configPath, profilePath), ' ')
  }

  /** Builds the command list by successive appends, then joins it with spaces. */
  method ParcaCommandLine(
    appConfig: AppConfig,
    binPath: string := DefaultBinPath,
    configPath: string := DefaultConfigPath,
    profilePath: string := DefaultProfilePath)
    returns (line: string)
    ensures line == CommandLine(appConfig, binPath, configPath, profilePath)
  {
    var cmd := [binPath, ConfigPathFlag + configPath];
    if appConfig.storagePersist {
      cmd := cmd + ["--storage-in-memory=false"];
      cmd := cmd + ["--storage-persist"];
      cmd := cmd + [StoragePathFlag + profilePath];
      assert cmd == CommandTokens(appConfig, binPath, configPath, profilePath);
    } else {
      var limit := appConfig.memoryStorageLimit * BytesPerMiB;
      cmd := cmd + ["--storage-in-memory=true"];
      cmd := cmd + [ActiveMemoryFlag + IntToString(limit)];
      assert cmd == CommandTokens(appConfig, binPath, configPath, profilePath);
    }
    line := Join(cmd, ' ');
  }

  /** Whatever the paths contain, the command starts with the binary and the configuration flag. */
  lemma CommandLineStart(appConfig: AppConfig, binPath: string, configPath: string, profilePath: string)
    ensures binPath + " " + ConfigPathFlag + configPath + " " <= CommandLine(appConfig, binPath, configPath, profilePath)
  {
    var toks := CommandTokens(appConfig, binPath, configPath, profilePath);
    var rest := Join(toks[2..], ' ');
    assert toks[1..][1..] == toks[2..];
    assert Join(toks, ' ') == binPath + [' '] + ((ConfigPathFlag + configPath) + [' '] + rest);
  }

  /** When no token holds a space, splitting the command on spaces gives back its tokens. */
  lemma CommandLineTokens(appConfig: AppConfig, binPath: string, configPath: string, profilePath: string)
    requires ' ' !in binPath && ' ' !in configPath
    requires appConfig.storagePersist ==> ' ' !in profilePath
    ensures Split(CommandLine(appConfig, binPath, configPath, profilePath), ' ')
         == CommandTokens(appConfig, binPath, configPath, profilePath)
  {
    var toks := CommandTokens(appConfig, binPath, configPath, profilePath);
    assert ' ' !in ConfigPathFlag + configPath;
    if appConfig.storagePersist {
      assert ' ' !in StoragePathFlag + profilePath;
    } else {
      IntToStringHasNoSpace(appConfig.memoryStorageLimit * BytesPerMiB);
      assert ' ' !in ActiveMemoryFlag + IntToString(appConfig.memoryStorageLimit * BytesPerMiB);
    }
    assert forall i :: 0 <= i < |toks| ==> ' ' !in toks[i];
    SplitJoin(toks, ' ');
  }

  /** Persistent storage: five tokens, ending in the three disk flags. */
  lemma PersistentCommandLine(appConfig: AppConfig, binPath: string, configPath: string, profilePath: string)
    requires appConfig.storagePersist
    requires ' ' !in binPath && ' ' !in configPath && ' ' !in profilePath
    ensures Split(CommandLine(appConfig, binPath, configPath, profilePath), ' ')
         == [binPath, "--config-path=" + configPath,
             "--storage-in-memory=false", "--storage-persist", "--storage-path=" + profilePath]
  {
    CommandLineTokens(appConfig, binPath, configPath, profilePath);
  }

  /**
   * In-memory storage: four tokens, the last one the limit in bytes, which reads back as
   * `memory-storage-limit` times 1048576.
   */
  lemma InMemoryCommandLine(appConfig: AppConfig, binPath: string, configPath: string, profilePath: string)
    requires !appConfig.storagePersist
    requires ' ' !in binPath && ' ' !in configPath
    ensures var toks := Split(CommandLine(appConfig, binPath, configPath, profilePath), ' ');
      && |toks| == 4
      && toks[..3] == [binPath, "--config-path=" + configPath, "--storage-in-memory=true"]
      && toks[3] == "--storage-active-memory=" + IntToString(appConfig.memoryStorageLimit * 1048576)
      && ParseInt(toks[3][|"--storage-active-memory="|..]) == Some(appConfig.memoryStorageLimit * 1048576)
  {
    CommandLineTokens(appConfig, binPath, configPath, profilePath);
    var limit := appConfig.memoryStorageLimit * BytesPerMiB;
    var last := ActiveMemoryFlag + IntToString(limit);
    assert last[|ActiveMemoryFlag|..] == IntToString(limit);
    IntToStringRoundTrip(limit);
  }

  /**
   * Persistent storage never reads `memory-storage-limit`; in-memory storage never
   * mentions the profile path.
   */
  lemma StorageModeDependence(c1: AppConfig, c2: AppConfig, binPath: string, configPath: string, p1: string, p2: string)
    ensures c1.storagePersist && c2.storagePersist ==>
      CommandLine(c1, binPath, configPath, p1) == CommandLine(c2, binPath, configPath, p1)
    ensures !c1.storagePersist ==>
      CommandLine(c1, binPath, configPath, p1) == CommandLine(c1, binPath, configPath, p2)
  {
  }

  /** The tokens for the defaults with 1024 MiB of in-memory storage. */
  lemma DefaultInMemoryCommandTokens()
    ensures CommandTokens(AppConfig(false, 1024), DefaultBinPath, DefaultConfigPath, DefaultProfilePath)
         == ["/parca", "--config-path=/etc/parca/parca.yaml", "--storage-in-memory=true",
             "--storage-active-memory=1073741824"]
  {
    GibibyteInBytes();
    assert ConfigPathFlag + DefaultConfigPath == "--config-path=/etc/parca/parca.yaml";
    assert ActiveMemoryFlag + "1073741824" == "--storage-active-memory=1073741824";
  }

  /** 1024 MiB is written as 1073741824 bytes. */
  lemma GibibyteInBytes()
    ensures IntToString(1024 * BytesPerMiB) == "1073741824"
  {
    assert NatToString(1) == "1";
    assert NatToString(10) == "10";
    assert NatToString(107) == "107";
    assert NatToString(1073) == "1073";
    assert NatToString(10737) == "10737";
    assert NatToString(107374) == "107374";
    assert NatToString(1073741) == "1073741";
    assert NatToString(10737418) == "10737418";
    assert NatToString(107374182) == "107374182";
    assert NatToString(1073741824) == "1073741824";
  }

  // ---------------------------------------------------------------------------
  // The version string
  // ---------------------------------------------------------------------------

  const NextMarker: string := "-next"
  const CommitDigits: nat := 6

  /**
   * The third space-separated field of `parca --version` output; for a development
   * build (the field contains `-next`) followed by `+` and the first six characters
   * of the fifth field. None where Python would raise an IndexError.
   */
  function ParseVersion(vstr: string): (r: Option<string>)
    ensures var f := Split(vstr, ' ');
      r.None? <==> |f| < 3 || (|f| < 5 && Contains(f[2], NextMarker))
    ensures r.Some? ==> Split(vstr, ' ')[2] <= r.value && ' ' !in r.value
  {
    var splits := Split(vstr, ' ');
    if |splits| < 3 then None
    else if Contains(splits[2], NextMarker) then
      if |splits| < 5 then None else Some(splits[2] + "+" + Take(splits[4], CommitDigits))
    else Some(splits[2])
  }

  /** A released version is exactly the third field. */
  lemma ReleasedVersion(vstr: string)
    requires |Split(vstr, ' ')| >= 3
    requires forall i: nat :: !OccursAt(Split(vstr, ' ')[2], "-next", i)
    ensures ParseVersion(vstr) == Some(Split(vstr, ' ')[2])
  {
  }

  /** A development version is the third field, `+`, and at most six characters of the fifth. */
  lemma DevelopmentVersion(vstr: string, i: nat)
    requires |Split(vstr, ' ')| >= 5
    requires OccursAt(Split(vstr, ' ')[2], "-next", i)
    ensures var f := Split(vstr, ' ');
      ParseVersion(vstr) == Some(f[2] + "+" + f[4][..if |f[4]| < 6 then |f[4]| else 6])
  {
    var f := Split(vstr, ' ');
    assert Contains(f[2], NextMarker);
    assert f[4][..|f[4]|] == f[4];
  }

  /** Read from output given as words separated by single spaces. */
  lemma VersionOfWords(words: seq<string>)
    requires |words| >= 3
    requires forall i :: 0 <= i < |words| ==> ' ' !in words[i]
    ensures !Contains(words[2], "-next") ==> ParseVersion(Join(words, ' ')) == Some(words[2])
    ensures Contains(words[2], "-next") ==>
      ParseVersion(Join(words, ' ')) == if |words| < 5 then None else Some(words[2] + "+" + Take(words[4], 6))
  {
    SplitJoin(words, ' ');
  }

  /** `-next` starts at index 7 of `v0.12.1-next`. */
  lemma NextInWord()
    ensures OccursAt("v0.12.1-next", NextMarker, 7)
  {
    var w := "v0.12.1-next";
    assert w[7] == '-' && w[8] == 'n' && w[9] == 'e' && w[10] == 'x' && w[11] == 't';
    assert w[7..12] == "-next";
  }

  /** A development build's output, as `parca --version` prints it, word by word. */
  lemma DevelopmentVersionExample()
    ensures ParseVersion(Join(["parca,", "version", "v0.12.1-next", "(commit:", "deadbeefcafe)"], ' '))
         == Some("v0.12.1-next+deadbe")
  {
    var words := ["parca,", "version", "v0.12.1-next", "(commit:", "deadbeefcafe)"];
    NextInWord();
    assert Take(words[4], CommitDigits) == "deadbe" by {
      assert words[4][..6] == "deadbe";
    }
    assert Contains(words[2], "-next");
    assert words[2] + "+" + Take(words[4], 6) == "v0.12.1-next+deadbe";
    assert forall i :: 0 <= i < |words| ==> ' ' !in words[i];
    VersionOfWords(words);
  }

  // ---------------------------------------------------------------------------
  // The configuration document
  // ---------------------------------------------------------------------------

  /** A node of the configuration document; scrape jobs are opaque values of type J. */
  datatype Value<J> = Str(text: string) | Dict(entries: map<string, Value<J>>) | Jobs(jobs: seq<J>)

  /** Python's chained indexing `d[k0][k1]...`; None where it would raise a KeyError. */
  function Lookup<J>(v: Value<J>, path: seq<string>): (r: Option<Value<J>>)
    decreases |path|
  {
    if |path| == 0 then Some(v)
    else if v.Dict? && path[0] in v.entries then Lookup(v.entries[path[0]], path[1..])
    else None
  }

  /** The keys of the dictionary at `path`, when there is one. */
  function KeysAt<J>(v: Value<J>, path: seq<string>): (keys: Option<set<string>>)
  {
    match Lookup(v, path)
    case Some(Dict(m)) => Some(m.Keys)
    case _ => None
  }

  /** The configuration object: the scrape jobs and where profiles are stored. */
  datatype ParcaConfig<J> = ParcaConfig(scrapeConfigs: seq<J> := [], profilePath: string := DefaultProfilePath)

  /** The configuration document: a filesystem bucket at the profile path, and the scrape jobs as given. */
  function ToDict<J>(c: ParcaConfig<J>): (d: Value<J>)
    ensures KeysAt(d, []) == Some({"object_storage", "scrape_configs"})
    ensures KeysAt(d, ["object_storage"]) == Some({"bucket"})
    ensures KeysAt(d, ["object_storage", "bucket"]) == Some({"type", "config"})
    ensures KeysAt(d, ["object_storage", "bucket", "config"]) == Some({"directory"})
    ensures Lookup(d, ["object_storage", "bucket", "type"]) == Some(Str("FILESYSTEM"))
    ensures Lookup(d, ["object_storage", "bucket", "config", "directory"]) == Some(Str(c.profilePath))
    ensures Lookup(d, ["scrape_configs"]) == Some(Jobs(c.scrapeConfigs))
  {
    var config := map["directory" := Str(c.profilePath)];
    var bucket := map["type" := Str("FILESYSTEM"), "config" := Dict(config)];
    var objectStorage := map["bucket" := Dict(bucket)];
    var top := map["object_storage" := Dict(objectStorage), "scrape_configs" := Jobs(c.scrapeConfigs)];
    assert config.Keys == {"directory"};
    assert bucket.Keys == {"type", "config"};
    assert objectStorage.Keys == {"bucket"};
    assert top.Keys == {"object_storage", "scrape_configs"};
    Dict(top)
  }

  /** Reads a configuration object back from a document with a filesystem bucket. */
  function FromDict<J>(d: Value<J>): (c: Option<ParcaConfig<J>>)
  {
    match (Lookup(d, ["object_storage", "bucket", "type"]),
           Lookup(d, ["object_storage", "bucket", "config", "directory"]),
           Lookup(d, ["scrape_configs"]))
    case (Some(Str("FILESYSTEM")), Some(Str(dir)), Some(Jobs(jobs))) => Some(ParcaConfig(jobs, dir))
    case _ => None
  }

  /** The document determines the configuration object it was made from. */
  lemma ToDictRoundTrip<J>(c: ParcaConfig<J>)
    ensures FromDict(ToDict(c)) == Some(c)
  {
  }

  /** With no arguments, profiles go to /var/lib/parca and there are no scrape jobs. */
  lemma DefaultConfigDocument<J>()
    ensures var d := ToDict<J>(ParcaConfig());
      && Lookup(d, ["object_storage", "bucket", "config", "directory"]) == Some(Str("/var/lib/parca"))
      && Lookup(d, ["scrape_configs"]) == Some(Jobs([]))
  {
  }
}
