/** The settings object of the service, built once from the process
    environment, its public summary and its start-up validation. */
module Config {
  import opened Results
  import opened PyStrings

  /** The process environment: variable name to value. */
  type Env = map<string, string>

  /** `os.getenv(name)`. */
  function Getenv(env: Env, name: string): Option<string> {
    if name in env then Some(env[name]) else None
  }

  /** `os.getenv(name, default)`. */
  function GetenvOr(env: Env, name: string, default: string): string {
    if name in env then env[name] else default
  }

  /** Python truthiness of an optional string: set and not empty. */
  predicate Truthy(v: Option<string>) {
    v.Some? && v.value != ""
  }

  /** `v` spells `true` in any mix of letter case. */
  predicate SpellsTrue(v: string) {
    |v| == 4 && v[0] in "tT" && v[1] in "rR" && v[2] in "uU" && v[3] in "eE"
  }

  /** Lower-casing gives `true` exactly for the sixteen spellings of `true`. */
  lemma LowerIsTrue(v: string)
    ensures Lower(v) == "true" <==> SpellsTrue(v)
  {
    if SpellsTrue(v) {
      assert Lower(v)[0] == 't' && Lower(v)[1] == 'r' && Lower(v)[2] == 'u' && Lower(v)[3] == 'e';
    }
    if Lower(v) == "true" {
      assert LowerChar(v[0]) == 't' && LowerChar(v[1]) == 'r' && LowerChar(v[2]) == 'u' && LowerChar(v[3]) == 'e';
    }
  }

  /** A feature flag: `os.getenv(name, "False").lower() == "true"`. */
  function EnvFlag(env: Env, name: string): (on: bool)
    ensures on <==> name in env && SpellsTrue(env[name])
    ensures name !in env ==> !on
  {
    LowerIsTrue(GetenvOr(env, name, "False"));
    Lower(GetenvOr(env, name, "False")) == "true"
  }

  /** The three origins that are always allowed, in this order. */
  const DefaultOrigins: seq<string> :=
    ["http://localhost:3000", "http://localhost:8501", "https://swiftvisa.streamlit.app"]

  /** `ALLOWED_ORIGINS`: the defaults, extended by the comma-separated pieces of
      the `ALLOWED_ORIGINS` variable when it is not empty. Pieces are neither
      trimmed nor dropped when empty. */
  function AllowedOrigins(custom: string): (origins: seq<string>)
    ensures |origins| >= 3 && origins[..3] == DefaultOrigins
    ensures custom == "" ==> origins == DefaultOrigins
    ensures custom != "" ==> origins[3..] == Split(custom, ',')
  {
    if custom != "" then DefaultOrigins + Split(custom, ',') else DefaultOrigins
  }

  /** The custom origins are exactly the variable's text cut at its commas:
      joining them again gives the variable back, and none holds a comma. */
  lemma CustomOriginsRoundTrip(custom: string)
    requires custom != ""
    ensures Join(AllowedOrigins(custom)[3..], ',') == custom
    ensures forall i :: 3 <= i < |AllowedOrigins(custom)| ==> ',' !in AllowedOrigins(custom)[i]
  {
    JoinSplit(custom, ',');
  }

  /** The settings that have behaviour in the service. */
  datatype Settings = Settings(
    openaiKey: Option<string>,
    geminiKey: Option<string>,
    chromaDbDir: string,
    reload: bool,
    allowedOrigins: seq<string>,
    logLevel: string,
    enableMonitoring: bool,
    enableAnalytics: bool,
    enableCaching: bool)

  /** The class attributes of `Settings` as evaluated once from the environment. */
  function Load(env: Env): (s: Settings)
    ensures |s.allowedOrigins| >= 3 && s.allowedOrigins[..3] == DefaultOrigins
    ensures "ALLOWED_ORIGINS" !in env ==> s.allowedOrigins == DefaultOrigins
    ensures "CHROMA_DB_DIR" !in env ==> s.chromaDbDir == "vectorstore"
    ensures "LOG_LEVEL" !in env ==> s.logLevel == "INFO"
    ensures "RELOAD" !in env ==> !s.reload
    ensures "ENABLE_MONITORING" !in env ==> !s.enableMonitoring
    ensures "ENABLE_ANALYTICS" !in env ==> !s.enableAnalytics
    ensures "ENABLE_CACHING" !in env ==> !s.enableCaching
    ensures s.openaiKey.Some? <==> "OPENAI_API_KEY" in env
    ensures s.geminiKey.Some? <==> "GEMINI_API_KEY" in env
  {
    Settings(
      Getenv(env, "OPENAI_API_KEY"),
      Getenv(env, "GEMINI_API_KEY"),
      GetenvOr(env, "CHROMA_DB_DIR", "vectorstore"),
      EnvFlag(env, "RELOAD"),
      AllowedOrigins(GetenvOr(env, "ALLOWED_ORIGINS", "")),
      GetenvOr(env, "LOG_LEVEL", "INFO"),
      EnvFlag(env, "ENABLE_MONITORING"),
      EnvFlag(env, "ENABLE_ANALYTICS"),
      EnvFlag(env, "ENABLE_CACHING"))
  }

  /** The summary `get_info` exposes (the parsed `top_k` is not modelled). */
  datatype Info = Info(
    appName: string,
    appVersion: string,
    embeddingModel: string,
    llmAvailable: bool,
    openaiConfigured: bool,
    geminiConfigured: bool,
    vectorstorePath: string,
    logLevel: string)

  /** `Settings.get_info`. */
  function GetInfo(s: Settings): (info: Info)
    ensures info.llmAvailable <==> Truthy(s.openaiKey) || Truthy(s.geminiKey)
    ensures info.openaiConfigured <==> s.openaiKey.Some? && StartsWith(s.openaiKey.value, "sk-")
    ensures info.geminiConfigured <==> s.geminiKey.Some? && |s.geminiKey.value| > 20
    ensures info.geminiConfigured ==> info.llmAvailable
    ensures info.openaiConfigured ==> info.llmAvailable
    ensures info.vectorstorePath == s.chromaDbDir && info.logLevel == s.logLevel
  {
    Info(
      "SwiftVisa",
      "1.0.0",
      "all-MiniLM-L6-v2",
      Truthy(s.openaiKey) || Truthy(s.geminiKey),
      Truthy(s.openaiKey) && StartsWith(s.openaiKey.value, "sk-"),
      Truthy(s.geminiKey) && |s.geminiKey.value| > 20,
      s.chromaDbDir,
      s.logLevel)
  }

  /** The data directories `validate` creates when they are missing. */
  const DataDirs: seq<string> := ["data/raw", "data/clean", "logs"]

  /** The directories of `dirs` that do not exist, in order. */
  function Missing(dirs: seq<string>, existing: set<string>): (m: seq<string>)
    ensures |m| <= |dirs|
    ensures forall d :: d in m <==> d in dirs && d !in existing
  {
    FilterMembers(dirs, d => d !in existing);
    Filter(dirs, d => d !in existing)
  }

  const NoKeysWarning: string :=
    "\U{26A0}\U{FE0F}  Warning: No LLM API keys found. System will run in retrieval-only mode."

  /** The line printed for one configuration error. */
  function ErrorLine(error: string): string {
    "\U{274C} Configuration Error: " + error
  }

  /** The directory loop of `validate`: each directory of `dirs` that does not
      exist is created, in order. */
  method CreateMissing(dirs: seq<string>, existing: set<string>) returns (created: seq<string>)
    ensures created == Missing(dirs, existing)
  {
    created := [];
    for i := 0 to |dirs|
      invariant created == Missing(dirs[..i], existing)
    {
      assert dirs[..i + 1] == dirs[..i] + [dirs[i]];
      FilterAppend(dirs[..i], [dirs[i]], d => d !in existing);
      if dirs[i] !in existing {
        created := created + [dirs[i]];
      }
    }
    assert dirs[..|dirs|] == dirs;
  }

  /** `Settings.validate`, with the directories that exist given as `existing`.
      It fails exactly when the vector store directory is missing; missing
      data directories are created (`created`, in order) and missing API keys
      only print a warning. `printed` is what goes to standard output. */
  method Validate(s: Settings, existing: set<string>)
    returns (valid: bool, created: seq<string>, printed: seq<string>)
    ensures valid <==> s.chromaDbDir in existing
    ensures created == Missing(DataDirs, existing)
    ensures printed ==
      (if !Truthy(s.openaiKey) && !Truthy(s.geminiKey) then [NoKeysWarning] else [])
      + (if valid then [] else [ErrorLine("Vectorstore directory not found: " + s.chromaDbDir)])
  {
    var errors: seq<string> := [];
    if s.chromaDbDir !in existing {
      errors := errors + ["Vectorstore directory not found: " + s.chromaDbDir];
    }

    created := CreateMissing(DataDirs, existing);

    printed := [];
    if !Truthy(s.openaiKey) && !Truthy(s.geminiKey) {
      printed := printed + [NoKeysWarning];
    }

    if errors != [] {
      ghost var before := printed;
      for j := 0 to |errors|
        invariant printed == before + seq(j, k requires 0 <= k < j => ErrorLine(errors[k]))
      {
        printed := printed + [ErrorLine(errors[j])];
      }
      valid := false;
    } else {
      valid := true;
    }
  }
}
