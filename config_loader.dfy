/** The application configuration loader: the default configuration, loading a YAML or
    JSON file with a fallback to the defaults, the process-wide `_config_cache`, saving, and
    the recursive `update_dict` merge behind `update_config`.

    Files are modelled by their parsed content: `files[path]` is `Some(v)` when the file
    parses to `v` and `None` when parsing raises; serialising a value and parsing it back
    gives the same value. Whether the operating system lets a file be written is a
    parameter. */
module ConfigLoader {
  import opened Wrappers
  import opened Json
  import opened Strings

  /** The path used when none is given: `config/config.yaml` under the backend directory. */
  const DefaultPath: string := "config/config.yaml"

  function PathOr(path: Option<string>): string {
    path.GetOr(DefaultPath)
  }

  datatype Format = Yaml | JsonFile | Unsupported

  /** The format chosen by the path's ending; `save_config` writes YAML for any other
      ending, and `load_config` refuses it. */
  function FormatOf(path: string): (f: Format)
    ensures f == Yaml <==> EndsWith(path, ".yaml") || EndsWith(path, ".yml")
    ensures f == JsonFile <==> !EndsWith(path, ".yaml") && !EndsWith(path, ".yml") && EndsWith(path, ".json")
  {
    if EndsWith(path, ".yaml") || EndsWith(path, ".yml") then Yaml
    else if EndsWith(path, ".json") then JsonFile
    else Unsupported
  }

  /** `os.environ.get(key, default)`. */
  function EnvGet(env: map<string, string>, key: string, default: string): string {
    if key in env then env[key] else default
  }

  /** The browser identification the crawler sends by default. */
  function UserAgent(): string {
    "Mozilla/5.0 (Macintosh; Intel Mac OS X 10_15_7) AppleWebKit/537.36 (KHTML, like Gecko) Chrome/91.0.4472.114 Safari/537.36"
  }

  function ServerDefaults(): Record {
    map["host" := Str("0.0.0.0"), "port" := Int(5000)]
  }

  function CrawlerDefaults(userAgent: string): Record {
    map["max_depth" := Int(3), "max_threads" := Int(10), "timeout" := Int(30), "user_agent" := Str(userAgent)]
  }

  function ProcessorDefaults(env: map<string, string>): Record {
    map["llm_api_key" := Str(EnvGet(env, "LLM_API_KEY", "")), "llm_model" := Str("gpt-3.5-turbo")]
  }

  function RepositoryDefaults(): Record {
    map["default_embedding_model" := Str("jina-embeddings-v3"), "default_chunk_method" := Str("naive")]
  }

  function RagflowDefaults(env: map<string, string>): Record {
    map["base_url" := Str(EnvGet(env, "RAGFLOW_BASE_URL", "http://192.168.0.130")),
        "api_key" := Str(EnvGet(env, "RAGFLOW_API_KEY", ""))]
  }

  /** `create_default_config`'s dictionary; three entries come from the environment, and
      the crawler's user agent is `UserAgent()`. */
  function DefaultConfig(env: map<string, string>, userAgent: string): Record {
    map["debug" := Bool(false),
        "server" := Dict(ServerDefaults()),
        "log_level" := Str("INFO"),
        "crawler" := Dict(CrawlerDefaults(userAgent)),
        "processor" := Dict(ProcessorDefaults(env)),
        "repository" := Dict(RepositoryDefaults()),
        "ragflow" := Dict(RagflowDefaults(env)),
        "scheduler" := Dict(map["check_interval" := Int(60)])]
  }

  /** A two-step path through nested dictionaries. */
  lemma AtTwo(m: Record, a: string, b: string)
    requires a in m && m[a].Dict? && b in m[a].fields
    ensures At(Dict(m), [a, b]) == Some(m[a].fields[b])
  {
    assert [a, b][1..] == [b];
    assert [b][1..] == [];
    assert At(m[a], [b]) == At(m[a].fields[b], []);
  }

  lemma CrawlerSection(env: map<string, string>, userAgent: string)
    ensures "crawler" in DefaultConfig(env, userAgent) && DefaultConfig(env, userAgent)["crawler"] == Dict(CrawlerDefaults(userAgent))
  {
  }

  lemma RagflowSection(env: map<string, string>, userAgent: string)
    ensures "ragflow" in DefaultConfig(env, userAgent) && DefaultConfig(env, userAgent)["ragflow"] == Dict(RagflowDefaults(env))
  {
  }

  /** The crawler's default depth, thread count and timeout. */
  lemma DefaultCrawlerSettings(env: map<string, string>, userAgent: string)
    ensures At(Dict(DefaultConfig(env, userAgent)), ["crawler", "max_depth"]) == Some(Int(3))
    ensures At(Dict(DefaultConfig(env, userAgent)), ["crawler", "max_threads"]) == Some(Int(10))
    ensures At(Dict(DefaultConfig(env, userAgent)), ["crawler", "timeout"]) == Some(Int(30))
  {
    CrawlerSection(env, userAgent);
    var m := DefaultConfig(env, userAgent);
    assert CrawlerDefaults(userAgent)["max_depth"] == Int(3);
    AtTwo(m, "crawler", "max_depth");
    assert CrawlerDefaults(userAgent)["max_threads"] == Int(10);
    AtTwo(m, "crawler", "max_threads");
    assert CrawlerDefaults(userAgent)["timeout"] == Int(30);
    AtTwo(m, "crawler", "timeout");
  }

  /** The RAGFlow address is the environment's `RAGFLOW_BASE_URL` when set, else the
      built-in address. */
  lemma DefaultRagflowAddress(env: map<string, string>, userAgent: string)
    ensures "RAGFLOW_BASE_URL" in env ==> At(Dict(DefaultConfig(env, userAgent)), ["ragflow", "base_url"]) == Some(Str(env["RAGFLOW_BASE_URL"]))
    ensures "RAGFLOW_BASE_URL" !in env ==> At(Dict(DefaultConfig(env, userAgent)), ["ragflow", "base_url"]) == Some(Str("http://192.168.0.130"))
  {
    RagflowSection(env, userAgent);
    assert "base_url" in RagflowDefaults(env);
    AtTwo(DefaultConfig(env, userAgent), "ragflow", "base_url");
  }

  /** `os.makedirs(os.path.dirname(path))` fails for a bare file name, whose directory part
      is empty, so only a path with a '/' can be written, and then only when the system
      allows it. */
  predicate Writes(path: string, writeOk: bool) {
    '/' in path && writeOk
  }

  /** What `load_config` reads: the parsed file, or `None` when it falls back to the
      defaults because the file is missing, its ending is neither YAML nor JSON, or it does
      not parse. */
  function LoadOutcome(files: map<string, Option<Value>>, path: string): (r: Option<Value>)
    ensures r.None? <==> path !in files || FormatOf(path) == Unsupported || files[path].None?
    ensures r.Some? ==> r == files[path]
  {
    if path !in files then None
    else if FormatOf(path) == Unsupported then None
    else files[path]
  }

  /** The configuration `load_config` returns, given the defaults. */
  function Loaded(files: map<string, Option<Value>>, path: string, defaults: Record): Value {
    match LoadOutcome(files, path)
    case Some(v) => v
    case None => Dict(defaults)
  }

  /** The files after `load_config`: falling back writes the defaults to the path when it
      can. */
  function FilesAfterLoad(files: map<string, Option<Value>>, path: string, defaults: Record, writeOk: bool)
    : map<string, Option<Value>>
  {
    if LoadOutcome(files, path).None? && Writes(path, writeOk) then files[path := Some(Dict(defaults))]
    else files
  }

  /** Loading again after a load reads the same configuration and writes nothing more:
      the defaults written on a fallback read back as the defaults. */
  lemma LoadStable(files: map<string, Option<Value>>, path: string, defaults: Record, writeOk: bool)
    ensures Loaded(FilesAfterLoad(files, path, defaults, writeOk), path, defaults) == Loaded(files, path, defaults)
    ensures var after := FilesAfterLoad(files, path, defaults, writeOk);
      FilesAfterLoad(after, path, defaults, writeOk) == after
  {
  }

  /** `Merge(d, u)` restricted to the keys of `u` in `done`. */
  function Restrict(u: Record, done: set<string>): (r: Record)
    ensures r.Keys == u.Keys * done
  {
    map k | k in u && k in done :: u[k]
  }

  /** What `update_dict` stores under key `k` of the updates. */
  function Updated(d: Record, u: Record, k: string): Value
    requires k in u
  {
    if u[k].Dict? && k in d && d[k].Dict? then Dict(Merge(d[k].fields, u[k].fields)) else u[k]
  }

  lemma MergeStepAt(d: Record, u: Record, done: set<string>, k: string, j: string)
    requires k in u && k !in done && j != k && j in d.Keys + Restrict(u, done).Keys
    ensures Merge(d, Restrict(u, done + {k}))[j] == Merge(d, Restrict(u, done))[j]
  {
    assert (j in Restrict(u, done + {k})) == (j in Restrict(u, done));
  }

  /** Handling one more key of the updates sets that key of the result and no other. */
  lemma MergeStep(d: Record, u: Record, done: set<string>, k: string)
    requires k in u && k !in done
    ensures Merge(d, Restrict(u, done + {k})) == Merge(d, Restrict(u, done))[k := Updated(d, u, k)]
  {
    var after := Merge(d, Restrict(u, done + {k}));
    var target := Merge(d, Restrict(u, done))[k := Updated(d, u, k)];
    assert after.Keys == target.Keys;
    assert after[k] == target[k];
    forall j | j in after && j != k
      ensures after[j] == target[j]
    {
      MergeStepAt(d, u, done, k, j);
    }
  }

  /** `update_dict(d, u)`: for each key of `u`, a dictionary meeting a dictionary is merged
      recursively and anything else replaces; keys only in `d` stay. The keys of `u` are
      distinct, so the order the loop visits them in does not matter. */
  method UpdateDict(d: Record, u: Record) returns (r: Record)
    ensures r == Merge(d, u)
    decreases Dict(u)
  {
    r := d;
    var todo := u.Keys;
    assert Restrict(u, {}) == map[];
    MergeEmpty(d);
    while todo != {}
      invariant todo <= u.Keys
      invariant r == Merge(d, Restrict(u, u.Keys - todo))
      decreases todo
    {
      var k :| k in todo;
      var v := u[k];
      MergeStep(d, u, u.Keys - todo, k);
      assert k in r ==> r[k] == d[k];
      if v.Dict? && k in r && r[k].Dict? {
        var inner := UpdateDict(r[k].fields, v.fields);
        r := r[k := Dict(inner)];
      } else {
        r := r[k := v];
      }
      assert u.Keys - todo + {k} == u.Keys - (todo - {k});
      todo := todo - {k};
    }
    assert Restrict(u, u.Keys) == u;
  }

  /** The store as the backend starts it: no cache, and defaults from the environment. */
  method Init(files: map<string, Option<Value>>, env: map<string, string>) returns (store: ConfigStore)
    ensures fresh(store) && store.cache == Null && store.files == files && store.defaults == DefaultConfig(env, UserAgent())
  {
    store := new ConfigStore(files, DefaultConfig(env, UserAgent()));
  }

  /** The configuration module's state: `_config_cache` and the configuration files. */
  class ConfigStore {
    /** `_config_cache`: `Null` until a configuration is loaded. */
    var cache: Value
    var files: map<string, Option<Value>>
    /** The configuration `create_default_config` builds from the process environment. */
    const defaults: Record

    constructor (files: map<string, Option<Value>>, defaults: Record)
      ensures cache == Null && this.files == files && this.defaults == defaults
    {
      cache := Null;
      this.files := files;
      this.defaults := defaults;
    }

    /** `create_default_config(path)`: the defaults, written to the path when it is
        non-empty and can be written (YAML unless the path ends in `.json`). */
    method CreateDefaultConfig(path: string, writeOk: bool) returns (config: Record)
      modifies this
      ensures config == defaults
      ensures files == if Writes(path, writeOk) then old(files)[path := Some(Dict(config))] else old(files)
      ensures cache == old(cache)
    {
      config := defaults;
      if path != "" && Writes(path, writeOk) {
        files := files[path := Some(Dict(config))];
      }
    }

    /** `load_config(path)`. */
    method LoadConfig(path: Option<string>, writeOk: bool) returns (config: Value)
      modifies this
      ensures config == Loaded(old(files), PathOr(path), defaults)
      ensures files == FilesAfterLoad(old(files), PathOr(path), defaults, writeOk)
      ensures cache == old(cache)
    {
      var p := PathOr(path);
      if p !in files {
        var d := CreateDefaultConfig(p, writeOk);
        return Dict(d);
      }
      var format := FormatOf(p);
      if format == Unsupported {
        var d := CreateDefaultConfig(p, writeOk);
        return Dict(d);
      }
      match files[p]
      case None =>
        var d := CreateDefaultConfig(p, writeOk);
        return Dict(d);
      case Some(v) =>
        return v;
    }

    /** `get_config(path)`: the cached configuration whatever the path, else the loaded one,
        which becomes the cache. A load that gives `None` (an empty YAML file) leaves the
        cache unset. */
    method GetConfig(path: Option<string>, writeOk: bool) returns (config: Value)
      modifies this
      ensures old(cache) != Null ==> config == old(cache) && cache == old(cache) && files == old(files)
      ensures old(cache) == Null ==>
        config == Loaded(old(files), PathOr(path), defaults) && cache == config
        && files == FilesAfterLoad(old(files), PathOr(path), defaults, writeOk)
    {
      if cache != Null {
        return cache;
      }
      config := LoadConfig(path, writeOk);
      cache := config;
    }

    /** `save_config(config, path)`: on success the file holds the configuration and so does
        the cache; on failure nothing changes. */
    method SaveConfig(config: Value, path: Option<string>, writeOk: bool) returns (success: bool)
      modifies this
      ensures success == Writes(PathOr(path), writeOk)
      ensures success ==> files == old(files)[PathOr(path) := Some(config)] && cache == config
      ensures !success ==> files == old(files) && cache == old(cache)
    {
      var p := PathOr(path);
      if !Writes(p, writeOk) {
        return false;
      }
      files := files[p := Some(config)];
      cache := config;
      return true;
    }

    /** `update_config(updates, path)`. `get_config` hands back the cached dictionary itself
        and `update_dict` changes it in place, so the cache holds the merged configuration
        even when saving fails. A configuration that is not a dictionary makes `update_dict`
        raise `TypeError` unless there are no updates. */
    method UpdateConfig(updates: Record, path: Option<string>, writeOk: bool) returns (r: Result<bool>)
      modifies this
      ensures var current := if old(cache) != Null then old(cache) else Loaded(old(files), PathOr(path), defaults);
        var loadedFiles := if old(cache) != Null then old(files) else FilesAfterLoad(old(files), PathOr(path), defaults, writeOk);
        && (current.Dict? ==>
              r == Ok(Writes(PathOr(path), writeOk)) && cache == Dict(Merge(current.fields, updates))
              && files == if r.value then loadedFiles[PathOr(path) := Some(cache)] else loadedFiles)
        && (!current.Dict? && updates != map[] ==> r.Err? && cache == current && files == loadedFiles)
        && (!current.Dict? && updates == map[] ==>
              r == Ok(Writes(PathOr(path), writeOk)) && cache == current
              && files == if r.value then loadedFiles[PathOr(path) := Some(current)] else loadedFiles)
    {
      var config := GetConfig(path, writeOk);
      if config.Dict? {
        var merged := UpdateDict(config.fields, updates);
        cache := Dict(merged);
        var success := SaveConfig(Dict(merged), path, writeOk);
        return Ok(success);
      } else if updates != map[] {
        return Err("TypeError");
      } else {
        var success := SaveConfig(config, path, writeOk);
        return Ok(success);
      }
    }
  }

  /** A configuration saved to a YAML or JSON path loads back unchanged. */
  lemma SavedConfigLoads(files: map<string, Option<Value>>, path: string, config: Value, defaults: Record)
    requires FormatOf(path) != Unsupported
    ensures Loaded(files[path := Some(config)], path, defaults) == config
  {
  }

  /** A configuration saved to a path with any other ending is refused on the next load,
      which gives the defaults. */
  lemma SavedUnsupportedIgnored(files: map<string, Option<Value>>, path: string, config: Value, defaults: Record)
    requires FormatOf(path) == Unsupported
    ensures Loaded(files[path := Some(config)], path, defaults) == Dict(defaults)
  {
  }

  /** Saving to a bare file name always fails. */
  lemma BareNameNotWritten(path: string, writeOk: bool)
    requires '/' !in path
    ensures !Writes(path, writeOk)
  {
  }
}
