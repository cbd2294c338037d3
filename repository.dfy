/** The repository store of `repository_manager.py`: the module-level `repositories`
    dictionary from repository name to its configuration record, with create, update,
    delete, the setters, the chunk-mapping update, the batch helpers, the file-name
    filter of `get_repository_files` and the prompt-configuration merge. */
module Repository {
  import opened Wrappers
  import opened Json
  import opened Strings

  // ----- messages -----

  function NotFound(name: string): string { "信息库不存在: " + name }
  function AlreadyExists(name: string): string { "信息库已存在: " + name }
  const OnlyCrawler := "只有爬虫来源的信息库才能设置自动更新"
  /** `str(KeyError('source'))`. */
  const MissingSource := "'source'"
  const NotADict := "TypeError: not a dictionary"

  // ----- constants -----

  function Raptor(): Value { Dict(map["use_raptor" := Bool(false)]) }

  function TextParser(tokens: int): Value {
    Dict(map["chunk_token_num" := Int(tokens), "delimiter" := Str("\\n!?;。；！？"),
             "html4excel" := Bool(false), "layout_recognize" := Bool(true), "raptor" := Raptor()])
  }

  /** `DEFAULT_FILE_TYPE_CHUNK_MAPPING`. */
  function DefaultFileTypeChunkMapping(): Value {
    var naive := Str("naive");
    var picture := Dict(map["chunk_method" := Str("picture"), "parser_config" := Dict(map[])]);
    Dict(map[
      ".txt" := Dict(map["chunk_method" := naive, "parser_config" := TextParser(128)]),
      ".pdf" := Dict(map["chunk_method" := naive,
                         "parser_config" := Dict(TextParser(256).fields["task_page_size" := Int(12)])]),
      ".html" := Dict(map["chunk_method" := naive, "parser_config" := TextParser(128)]),
      ".csv" := Dict(map["chunk_method" := Str("qa"), "parser_config" := Dict(map["raptor" := Raptor()])]),
      ".jpg" := picture,
      ".jpeg" := picture,
      ".png" := picture])
  }

  /** The three settings of a prompt configuration: `summary_prompt`,
      `summary_system_prompt` and `qa_stages`. */
  datatype Prompts = Prompts(summary: Value, summarySystem: Value, qaStages: Value) {
    function AsRecord(): (r: Record)
      ensures r.Keys == PromptKeys
    {
      map["summary_prompt" := summary, "summary_system_prompt" := summarySystem, "qa_stages" := qaStages]
    }
  }

  const PromptKeys: set<string> := {"summary_prompt", "summary_system_prompt", "qa_stages"}

  /** `DEFAULT_PROMPT_CONFIG`. */
  function DefaultPrompts(): Prompts {
    Prompts(
      Str("请对以下内容进行总结，突出关键信息："),
      Str("你是一个专业的文档总结助手，擅长提取文本中的关键信息并生成简洁明了的总结。"),
      Dict(map[
        "chunk" := Dict(map[
          "chunk_size" := Int(1000),
          "chunk_overlap" := Int(100),
          "prompt" := Str("请根据以下内容生成5-10个高质量的问答对。\n要求：\n1. 问题应该清晰、具体、有价值\n2. 答案应该准确、完整、基于给定内容\n3. 避免过于简单或重复的问题\n4. 输出格式为JSON数组，每个元素包含\"q\"（问题）和\"a\"（答案）字段\n\n内容："),
          "system_prompt" := Str("你是一个专业的问答对生成助手，擅长从文本中提取关键信息并生成有价值的问答对。")]),
        "reduce" := Dict(map[
          "prompt" := Str("请对以下问答对进行去重和筛选，保留最有价值、最独特的问答对。\n要求：\n1. 去除重复或高度相似的问题\n2. 保留信息量大、有深度的问答对\n3. 确保问题和答案的准确性\n4. 输出格式与输入相同的JSON数组\n\n问答对列表："),
          "system_prompt" := Str("你是一个专业的内容审核助手，擅长识别重复或低质量的问答对，并保留最有价值的内容。")]),
        "evaluate" := Dict(map[
          "prompt" := Str("请对以下问答对进行质量评估。\n要求：\n1. 为每个问答对添加\"self_eval\"字段，评分范围1-5分\n2. 5分：问题清晰具体，答案准确完整，信息价值高\n3. 4分：问题较好，答案基本准确，有一定价值\n4. 3分：问题和答案一般，基本可用\n5. 2分：问题或答案有明显问题，价值较低\n6. 1分：问题不清楚或答案错误，应该删除\n7. 输出格式为JSON数组，保留原有的q和a字段，添加self_eval字段\n\n问答对列表："),
          "system_prompt" := Str("你是一个专业的内容评估助手，擅长评估问答对的质量和价值。")])]))
  }

  // ----- create_repository -----

  /** The keys every record built by `create_repository` has. */
  const RepositoryKeys: set<string> := {
    "name", "created_at", "updated_at", "source", "auto_update", "update_frequency", "direct_import",
    "embedding_model", "file_type_chunk_mapping", "dataset_id", "status",
    "token_count_jina", "token_count_gpt4o", "token_count_deepseek"}

  /** `urls` is recorded only for a crawler repository given a non-empty list. */
  predicate KeepsUrls(source: string, urls: Value) {
    source == "crawler" && Truthy(urls)
  }

  /** The dictionary `create_repository` starts from. */
  function Created(name: string, source: string, defaultMapping: Value, now: string): (r: Record)
    ensures r.Keys == RepositoryKeys
  {
    map[
      "name" := Str(name),
      "created_at" := Str(now),
      "updated_at" := Str(now),
      "source" := Str(source),
      "auto_update" := Bool(false),
      "update_frequency" := Null,
      "direct_import" := Bool(false),
      "embedding_model" := Str("jina-embeddings-v3"),
      "file_type_chunk_mapping" := defaultMapping,
      "dataset_id" := Null,
      "status" := Str("incomplete"),
      "token_count_jina" := Int(0),
      "token_count_gpt4o" := Int(0),
      "token_count_deepseek" := Int(0)]
  }

  /** A new repository is named as given, comes from the given source, is "incomplete",
      has automatic update and direct import off with no frequency and no dataset, the
      default chunk mapping and zero token counts. */
  lemma CreatedDefaults(name: string, source: string, defaultMapping: Value, now: string)
    ensures var r := Created(name, source, defaultMapping, now);
      && r["name"] == Str(name) && r["source"] == Str(source) && r["status"] == Str("incomplete")
      && r["auto_update"] == Bool(false) && r["update_frequency"] == Null
      && r["direct_import"] == Bool(false) && r["dataset_id"] == Null
      && r["file_type_chunk_mapping"] == defaultMapping
      && r["token_count_jina"] == Int(0) && r["token_count_gpt4o"] == Int(0) && r["token_count_deepseek"] == Int(0)
  {
  }

  lemma UrlsNotCreated()
    ensures "urls" !in RepositoryKeys
  {
  }

  /** The record `create_repository` stores for a new name: `urls` is added for a crawler
      repository given a non-empty list, then `config_override` is applied key by key, as
      `dict.update` does (an empty override changes nothing, so the guard on it is not
      needed here). */
  function NewRepository(name: string, source: string, urls: Value, configOverride: Record, defaultMapping: Value,
                         now: string): (r: Record)
    ensures r.Keys == RepositoryKeys + (if KeepsUrls(source, urls) then {"urls"} else {}) + configOverride.Keys
    ensures forall k :: k in configOverride ==> r[k] == configOverride[k]
  {
    var base := Created(name, source, defaultMapping, now);
    (if KeepsUrls(source, urls) then base["urls" := urls] else base) + configOverride
  }

  /** Every setting the override does not name keeps the value it was created with. */
  lemma NewRepositoryKeepsCreated(name: string, source: string, urls: Value, configOverride: Record,
                                  defaultMapping: Value, now: string, k: string)
    requires k in RepositoryKeys && k !in configOverride
    ensures NewRepository(name, source, urls, configOverride, defaultMapping, now)[k] == Created(name, source, defaultMapping, now)[k]
  {
    UrlsNotCreated();
  }

  /** Unless overridden, `urls` is recorded exactly for a crawler repository given a
      non-empty list, and then it is that list. */
  lemma NewRepositoryUrls(name: string, source: string, urls: Value, configOverride: Record,
                          defaultMapping: Value, now: string)
    requires "urls" !in configOverride
    ensures var r := NewRepository(name, source, urls, configOverride, defaultMapping, now);
      ("urls" in r <==> KeepsUrls(source, urls)) && ("urls" in r ==> r["urls"] == urls)
  {
    UrlsNotCreated();
  }

  // ----- update_repository -----

  /** Every key of `updates` except "name" set on the record. */
  function Overlaid(repo: Record, updates: Record): Record {
    repo + (updates - {"name"})
  }

  /** The record after `update_repository(name, updates)`. */
  function Updated(repo: Record, updates: Record, now: string): (r: Record)
    ensures r.Keys == repo.Keys + (updates.Keys - {"name"}) + {"updated_at"}
    ensures "name" in repo ==> r["name"] == repo["name"]
    ensures forall k :: k in updates && k != "name" && k != "updated_at" ==> r[k] == updates[k]
    ensures forall k :: k in repo && k !in updates && k != "updated_at" ==> r[k] == repo[k]
    ensures r["updated_at"] == Str(now)
  {
    Overlaid(repo, updates)["updated_at" := Str(now)]
  }

  /** Updating twice with the same arguments is updating once. */
  lemma UpdatedIdempotent(repo: Record, updates: Record, now: string)
    ensures Updated(Updated(repo, updates, now), updates, now) == Updated(repo, updates, now)
  {
    var once := Updated(repo, updates, now);
    var twice := Updated(once, updates, now);
    assert twice.Keys == once.Keys;
    forall k | k in once
      ensures twice[k] == once[k]
    {
    }
  }

  // ----- the setters -----

  /** `set_auto_update`: only a crawler repository may switch it on; switching it off
      clears the frequency. Reading `source` comes first, so a record without one raises
      `KeyError` whatever `auto_update` is. */
  function AutoUpdated(repo: Record, autoUpdate: bool, frequency: Value, now: string): (r: Result<Record>)
    ensures r.Err? <==> "source" !in repo || (repo["source"] != Str("crawler") && autoUpdate)
    ensures r.Ok? ==> r.value.Keys == repo.Keys + {"auto_update", "update_frequency", "updated_at"}
    ensures r.Ok? ==> r.value["auto_update"] == Bool(autoUpdate) && r.value["updated_at"] == Str(now)
    ensures r.Ok? ==> r.value["update_frequency"] == (if autoUpdate then frequency else Null)
    ensures r.Ok? ==> forall k :: k in repo && k !in {"auto_update", "update_frequency", "updated_at"} ==> r.value[k] == repo[k]
  {
    if "source" !in repo then Err(MissingSource)
    else if repo["source"] != Str("crawler") && autoUpdate then Err(OnlyCrawler)
    else Ok(repo["auto_update" := Bool(autoUpdate)]["update_frequency" := if autoUpdate then frequency else Null]
                ["updated_at" := Str(now)])
  }

  /** Setting the same flags again changes nothing more. */
  lemma AutoUpdatedIdempotent(repo: Record, autoUpdate: bool, frequency: Value, now: string)
    requires AutoUpdated(repo, autoUpdate, frequency, now).Ok?
    ensures var once := AutoUpdated(repo, autoUpdate, frequency, now).value;
      AutoUpdated(once, autoUpdate, frequency, now) == Ok(once)
  {
    var once := AutoUpdated(repo, autoUpdate, frequency, now).value;
    assert once["source"] == repo["source"];
    assert once["auto_update" := Bool(autoUpdate)]["update_frequency" := if autoUpdate then frequency else Null]
              ["updated_at" := Str(now)] == once;
  }

  /** One key set together with `updated_at`: `set_direct_import`,
      `set_repository_dataset_id`, `update_repository_status` and the prompt setters. */
  function Stamped(repo: Record, key: string, v: Value, now: string): (r: Record)
    requires key != "updated_at"
    ensures r.Keys == repo.Keys + {key, "updated_at"}
    ensures r[key] == v && r["updated_at"] == Str(now)
    ensures forall k :: k in repo && k != key && k != "updated_at" ==> r[k] == repo[k]
  {
    repo[key := v]["updated_at" := Str(now)]
  }

  lemma StampedIdempotent(repo: Record, key: string, v: Value, now: string)
    requires key != "updated_at"
    ensures Stamped(Stamped(repo, key, v, now), key, v, now) == Stamped(repo, key, v, now)
  {
    var once := Stamped(repo, key, v, now);
    assert once[key := v]["updated_at" := Str(now)] == once;
  }

  // ----- update_file_type_chunk_mapping -----

  /** The mapping a record has, or the default one when it has none. */
  function MappingOf(repo: Record, defaultMapping: Value): Value {
    Get(repo, "file_type_chunk_mapping", defaultMapping)
  }

  /** `update_file_type_chunk_mapping`: the mapping (the default one when the record has
      none) gains an entry for `fileType` if missing; the entry's `chunk_method` is always
      set and its `parser_config` only for a truthy one. Item assignment into something
      that is not a dictionary raises `TypeError`. */
  function ChunkMapped(repo: Record, fileType: string, chunkMethod: Value, parserConfig: Value, defaultMapping: Value,
                       now: string): (r: Result<Record>)
    ensures r.Err? <==> !MappingOf(repo, defaultMapping).Dict?
                        || (fileType in MappingOf(repo, defaultMapping).fields && !MappingOf(repo, defaultMapping).fields[fileType].Dict?)
    ensures r.Ok? ==> r.value.Keys == repo.Keys + {"file_type_chunk_mapping", "updated_at"}
    ensures r.Ok? ==> r.value["updated_at"] == Str(now)
    ensures r.Ok? ==> forall k :: k in repo && k !in {"file_type_chunk_mapping", "updated_at"} ==> r.value[k] == repo[k]
    ensures r.Ok? ==> var m := r.value["file_type_chunk_mapping"];
      && m.Dict?
      && m.fields.Keys == MappingOf(repo, defaultMapping).fields.Keys + {fileType}
      && (forall t :: t in m.fields && t != fileType ==> m.fields[t] == MappingOf(repo, defaultMapping).fields[t])
      && m.fields[fileType].Dict?
      && "chunk_method" in m.fields[fileType].fields
      && m.fields[fileType].fields["chunk_method"] == chunkMethod
  {
    var mapping := MappingOf(repo, defaultMapping);
    if !mapping.Dict? then Err(NotADict)
    else
      var entry := Get(mapping.fields, fileType, Dict(map[]));
      if !entry.Dict? then Err(NotADict)
      else
        var e1 := entry.fields["chunk_method" := chunkMethod];
        var e2 := if Truthy(parserConfig) then e1["parser_config" := parserConfig] else e1;
        Ok(repo["file_type_chunk_mapping" := Dict(mapping.fields[fileType := Dict(e2)])]["updated_at" := Str(now)])
  }

  /** The entry's `parser_config` is the given one when that is truthy and otherwise what
      the entry had (nothing, for a new entry); its other settings are kept. */
  lemma ChunkMappedParserConfig(repo: Record, fileType: string, chunkMethod: Value, parserConfig: Value,
                                defaultMapping: Value, now: string)
    requires ChunkMapped(repo, fileType, chunkMethod, parserConfig, defaultMapping, now).Ok?
    ensures var before := Get(MappingOf(repo, defaultMapping).fields, fileType, Dict(map[])).fields;
      var after := ChunkMapped(repo, fileType, chunkMethod, parserConfig, defaultMapping, now).value["file_type_chunk_mapping"].fields[fileType].fields;
      && (Truthy(parserConfig) ==> after["parser_config"] == parserConfig)
      && (!Truthy(parserConfig) ==> ("parser_config" in after <==> "parser_config" in before))
      && (!Truthy(parserConfig) && "parser_config" in before ==> after["parser_config"] == before["parser_config"])
      && (forall k :: k in before && k != "chunk_method" && k != "parser_config" ==> k in after && after[k] == before[k])
  {
  }

  // ----- get_repository_files -----

  /** One name `os.listdir` gives, with whether it is a regular file. */
  datatype DirEntry = DirEntry(name: string, isFile: bool)

  /** The name and type fields of a file-information record (size and times are read
      from the file system and are not modelled). */
  datatype FileInfo = FileInfo(name: string, fileType: string)

  const DefaultFileTypes: seq<string> := [".txt", ".pdf", ".html"]

  /** The lower-cased extension, dot included. */
  function Extension(fileName: string): string {
    Lower(SplitExt(fileName).1)
  }

  /** The filter of `get_repository_files`. */
  predicate Selected(fileName: string, fileTypes: seq<string>, includeSummarized: bool, includeQa: bool) {
    Extension(fileName) in fileTypes
    && !(!includeSummarized && Contains(fileName, "_summarized"))
    && !(!includeQa && Contains(fileName, "_qa_"))
  }

  /** `ext.lower()[1:]`. */
  function Info(fileName: string): (r: FileInfo)
    ensures r.name == fileName
    ensures Extension(fileName) == [] || Extension(fileName) == ['.'] + r.fileType
  {
    var ext := Extension(fileName);
    FileInfo(fileName, if ext == [] then [] else ext[1..])
  }

  /** The entries the loop of `get_repository_files` reports. */
  function Kept(fileTypes: seq<string>, includeSummarized: bool, includeQa: bool): DirEntry -> bool {
    (e: DirEntry) => e.isFile && Selected(e.name, fileTypes, includeSummarized, includeQa)
  }

  function InfoOf(): DirEntry -> FileInfo {
    (e: DirEntry) => Info(e.name)
  }

  function Listed(entries: seq<DirEntry>, fileTypes: seq<string>, includeSummarized: bool, includeQa: bool): seq<FileInfo> {
    FilterMap(entries, Kept(fileTypes, includeSummarized, includeQa), InfoOf())
  }

  /** A file is listed exactly when it is a regular file of the directory that passes the
      filter. */
  lemma ListedExactly(entries: seq<DirEntry>, fileTypes: seq<string>, includeSummarized: bool, includeQa: bool,
                      f: FileInfo)
    ensures f in Listed(entries, fileTypes, includeSummarized, includeQa)
      <==> exists i :: 0 <= i < |entries| && entries[i].isFile && f == Info(entries[i].name)
                       && Selected(entries[i].name, fileTypes, includeSummarized, includeQa)
  {
    FilterMapExactly(entries, Kept(fileTypes, includeSummarized, includeQa), InfoOf(), f);
  }

  /** With the default types, only .txt, .pdf and .html files, in any letter case, are
      listed; summaries and question-answer files are excluded exactly when asked. */
  lemma DefaultSelection(fileName: string, includeSummarized: bool, includeQa: bool)
    ensures Selected(fileName, DefaultFileTypes, includeSummarized, includeQa)
      <==> (Extension(fileName) == ".txt" || Extension(fileName) == ".pdf" || Extension(fileName) == ".html")
           && (includeSummarized || !Contains(fileName, "_summarized"))
           && (includeQa || !Contains(fileName, "_qa_"))
  {
  }

  // ----- batch helpers -----

  datatype BatchResult = Success(repository: Record) | Failure(error: string)

  function Outcome(r: Result<Record>): BatchResult {
    match r
    case Ok(x) => Success(x)
    case Err(e) => Failure(e)
  }

  /** The store and the results after handling `names` in order: a missing name fails,
      a present one is passed to `op`, whose new record is stored when it succeeds. */
  function Batch(store: map<string, Record>, names: seq<string>, op: Record -> Result<Record>)
    : (map<string, Record>, map<string, BatchResult>)
  {
    if names == [] then (store, map[])
    else
      var prev := Batch(store, names[..|names| - 1], op);
      var n := names[|names| - 1];
      if n !in prev.0 then (prev.0, prev.1[n := Failure(NotFound(n))])
      else match op(prev.0[n])
        case Ok(r) => (prev.0[n := r], prev.1[n := Success(r)])
        case Err(e) => (prev.0, prev.1[n := Failure(e)])
  }

  /** There is one result per requested name and no other; a name not in the store fails
      with the not-found message; the store keeps its names, and a repository that was not
      requested keeps its record. */
  lemma {:induction false} BatchShape(store: map<string, Record>, names: seq<string>, op: Record -> Result<Record>)
    ensures Batch(store, names, op).1.Keys == set n | n in names
    ensures Batch(store, names, op).0.Keys == store.Keys
    ensures forall n :: n in Batch(store, names, op).1 && n !in store ==> Batch(store, names, op).1[n] == Failure(NotFound(n))
    ensures forall n :: n in store && n !in Batch(store, names, op).1 ==> Batch(store, names, op).0[n] == store[n]
  {
    if names != [] {
      var init := names[..|names| - 1];
      BatchShape(store, init, op);
      assert names == init + [names[|names| - 1]];
    }
  }

  /** `op` applied to its own successful result gives that result again. */
  ghost predicate Idempotent(op: Record -> Result<Record>) {
    forall r: Record :: op(r).Ok? ==> op(op(r).value) == op(r)
  }

  /** For an idempotent `op` a repeated name changes nothing more, so every present name's
      result is that of one call on its original record. */
  lemma {:induction false} BatchOnce(store: map<string, Record>, names: seq<string>, op: Record -> Result<Record>)
    requires Idempotent(op)
    ensures forall n :: n in Batch(store, names, op).1 && n in store ==>
      && Batch(store, names, op).1[n] == Outcome(op(store[n]))
      && n in Batch(store, names, op).0
      && Batch(store, names, op).0[n] == (if op(store[n]).Ok? then op(store[n]).value else store[n])
  {
    BatchShape(store, names, op);
    if names != [] {
      var init := names[..|names| - 1];
      BatchOnce(store, init, op);
      BatchShape(store, init, op);
      var n := names[|names| - 1];
      var prev := Batch(store, init, op);
      if n in store && n in prev.1 && op(store[n]).Ok? {
        assert op(prev.0[n]) == op(store[n]);
      }
    }
  }

  /** An operation that never drops a key of the record. */
  ghost predicate KeepsKeys(op: Record -> Result<Record>) {
    forall r: Record :: op(r).Ok? ==> r.Keys <= op(r).value.Keys
  }

  lemma {:induction false} BatchKeepsKeys(store: map<string, Record>, names: seq<string>, op: Record -> Result<Record>)
    requires KeepsKeys(op)
    ensures forall n :: n in store ==> n in Batch(store, names, op).0 && store[n].Keys <= Batch(store, names, op).0[n].Keys
  {
    if names != [] {
      BatchKeepsKeys(store, names[..|names| - 1], op);
    }
  }

  function UpdateOp(updates: Record, now: string): Record -> Result<Record> {
    r => Ok(Updated(r, updates, now))
  }

  function AutoUpdateOp(autoUpdate: bool, frequency: Value, now: string): Record -> Result<Record> {
    r => AutoUpdated(r, autoUpdate, frequency, now)
  }

  function DirectImportOp(directImport: bool, now: string): Record -> Result<Record> {
    r => Ok(Stamped(r, "direct_import", Bool(directImport), now))
  }

  /** `batch_update_repositories`: each present name gets exactly the record and result
      one `update_repository` call gives. */
  lemma BatchUpdateResults(store: map<string, Record>, names: seq<string>, updates: Record, now: string)
    ensures forall n :: n in Batch(store, names, UpdateOp(updates, now)).1 ==>
      Batch(store, names, UpdateOp(updates, now)).1[n]
        == if n in store then Success(Updated(store[n], updates, now)) else Failure(NotFound(n))
  {
    var op := UpdateOp(updates, now);
    forall r: Record | op(r).Ok?
      ensures op(op(r).value) == op(r)
    {
      UpdatedIdempotent(r, updates, now);
    }
    BatchOnce(store, names, op);
    BatchShape(store, names, op);
  }

  /** `batch_set_auto_update`: each present name gets exactly the result of one
      `set_auto_update` call, including its refusal for a repository not from the crawler. */
  lemma BatchAutoUpdateResults(store: map<string, Record>, names: seq<string>, autoUpdate: bool, frequency: Value, now: string)
    ensures forall n :: n in Batch(store, names, AutoUpdateOp(autoUpdate, frequency, now)).1 ==>
      Batch(store, names, AutoUpdateOp(autoUpdate, frequency, now)).1[n]
        == if n in store then Outcome(AutoUpdated(store[n], autoUpdate, frequency, now)) else Failure(NotFound(n))
  {
    var op := AutoUpdateOp(autoUpdate, frequency, now);
    forall r: Record | op(r).Ok?
      ensures op(op(r).value) == op(r)
    {
      AutoUpdatedIdempotent(r, autoUpdate, frequency, now);
    }
    BatchOnce(store, names, op);
    BatchShape(store, names, op);
  }

  /** `batch_set_direct_import`: each present name gets exactly the result of one
      `set_direct_import` call. */
  lemma BatchDirectImportResults(store: map<string, Record>, names: seq<string>, directImport: bool, now: string)
    ensures forall n :: n in Batch(store, names, DirectImportOp(directImport, now)).1 ==>
      Batch(store, names, DirectImportOp(directImport, now)).1[n]
        == if n in store then Success(Stamped(store[n], "direct_import", Bool(directImport), now)) else Failure(NotFound(n))
  {
    var op := DirectImportOp(directImport, now);
    forall r: Record | op(r).Ok?
      ensures op(op(r).value) == op(r)
    {
      StampedIdempotent(r, "direct_import", Bool(directImport), now);
    }
    BatchOnce(store, names, op);
    BatchShape(store, names, op);
  }

  // ----- get_merged_prompt_config -----

  /** The global prompts: each of the three settings from the `processor` section, or
      its default. */
  function GlobalPrompts(processor: Record, defaults: Prompts): (r: Record)
    ensures r.Keys == PromptKeys
    ensures forall k :: k in r ==> r[k] == Get(processor, k, defaults.AsRecord()[k])
  {
    Prompts(Get(processor, "summary_prompt", defaults.summary),
            Get(processor, "summary_system_prompt", defaults.summarySystem),
            Get(processor, "qa_stages", defaults.qaStages)).AsRecord()
  }

  /** `get_merged_prompt_config` for a known repository: the repository's own prompt
      configuration merged over the global prompts. Calling `.get` or `.items()` on a
      section that is not a dictionary raises `AttributeError`. */
  function MergedPrompts(repo: Record, globalConfig: Record, defaults: Prompts): (r: Result<Record>)
    ensures r.Err? <==> !Get(globalConfig, "processor", Dict(map[])).Dict? || !Get(repo, "prompt_config", Dict(map[])).Dict?
    ensures r.Ok? ==> r.value.Keys == PromptKeys + Get(repo, "prompt_config", Dict(map[])).fields.Keys
  {
    var processor := Get(globalConfig, "processor", Dict(map[]));
    if !processor.Dict? then Err("AttributeError: 'processor' is not a dictionary")
    else
      var own := Get(repo, "prompt_config", Dict(map[]));
      if !own.Dict? then Err("AttributeError: 'prompt_config' is not a dictionary")
      else Ok(Merge(GlobalPrompts(processor.fields, defaults), own.fields))
  }

  /** With no prompt configuration anywhere the merge gives the default one. */
  lemma MergedPromptsDefault(repo: Record, globalConfig: Record, defaults: Prompts)
    requires "prompt_config" !in repo && "processor" !in globalConfig
    ensures MergedPrompts(repo, globalConfig, defaults) == Ok(defaults.AsRecord())
  {
    assert GlobalPrompts(map[], defaults) == defaults.AsRecord();
    MergeEmpty(defaults.AsRecord());
  }

  /** Every leaf the repository's prompt configuration sets wins over the global one. */
  lemma MergedPromptsRepositoryWins(repo: Record, globalConfig: Record, defaults: Prompts, path: seq<string>, x: Value)
    requires MergedPrompts(repo, globalConfig, defaults).Ok?
    requires "prompt_config" in repo && At(repo["prompt_config"], path) == Some(x) && !x.Dict?
    ensures At(Dict(MergedPrompts(repo, globalConfig, defaults).value), path) == Some(x)
  {
    var processor := Get(globalConfig, "processor", Dict(map[]));
    MergeOverrideWins(GlobalPrompts(processor.fields, defaults), repo["prompt_config"].fields, path, x);
  }

  /** A global prompt setting the repository does not mention is kept unchanged. */
  lemma MergedPromptsGlobalKept(repo: Record, globalConfig: Record, defaults: Prompts, k: string)
    requires MergedPrompts(repo, globalConfig, defaults).Ok? && k in PromptKeys
    requires k !in Get(repo, "prompt_config", Dict(map[])).fields
    ensures MergedPrompts(repo, globalConfig, defaults).value[k]
      == Get(Get(globalConfig, "processor", Dict(map[])).fields, k, defaults.AsRecord()[k])
  {
  }

  // ----- the store -----

  /** The module's initial state: no repositories, and the two default tables. */
  method Init() returns (m: RepositoryManager)
    ensures fresh(m) && m.repositories == map[] && m.Valid()
    ensures m.defaultMapping == DefaultFileTypeChunkMapping() && m.defaultPrompts == DefaultPrompts()
  {
    m := new RepositoryManager(DefaultFileTypeChunkMapping(), DefaultPrompts());
  }

  class RepositoryManager {
    var repositories: map<string, Record>
    /** `DEFAULT_FILE_TYPE_CHUNK_MAPPING` and `DEFAULT_PROMPT_CONFIG`. */
    const defaultMapping: Value
    const defaultPrompts: Prompts

    /** Every stored record has at least the keys `create_repository` gives it: no
        operation removes a key. */
    ghost predicate Valid()
      reads this
    {
      forall n :: n in repositories ==> RepositoryKeys <= repositories[n].Keys
    }

    constructor (defaultMapping: Value, defaultPrompts: Prompts)
      ensures repositories == map[] && Valid()
      ensures this.defaultMapping == defaultMapping && this.defaultPrompts == defaultPrompts
    {
      repositories := map[];
      this.defaultMapping := defaultMapping;
      this.defaultPrompts := defaultPrompts;
    }

    /** `create_repository`. */
    method CreateRepository(name: string, source: string, urls: Value, configOverride: Record, now: string)
      returns (r: Result<Record>)
      modifies this
      ensures name in old(repositories) ==> r == Err(AlreadyExists(name)) && repositories == old(repositories)
      ensures name !in old(repositories) ==> r == Ok(NewRepository(name, source, urls, configOverride, defaultMapping, now))
                                             && repositories == old(repositories)[name := r.value]
      ensures old(Valid()) ==> Valid()
    {
      if name in repositories {
        return Err(AlreadyExists(name));
      }
      var config := BuildRepository(name, source, urls, configOverride, defaultMapping, now);
      repositories := repositories[name := config];
      r := Ok(config);
    }

    /** The dictionary `create_repository` builds before storing it. */
    static method BuildRepository(name: string, source: string, urls: Value, configOverride: Record,
                                  defaultMapping: Value, now: string) returns (config: Record)
      ensures config == NewRepository(name, source, urls, configOverride, defaultMapping, now)
    {
      config := Created(name, source, defaultMapping, now);
      if source == "crawler" && Truthy(urls) {
        config := config["urls" := urls];
      }
      if configOverride != map[] {
        config := config + configOverride;
      } else {
        assert config + configOverride == config;
      }
    }

    /** `get_repository`. */
    function GetRepository(name: string): (r: Option<Record>)
      reads this
      ensures r.Some? <==> name in repositories
      ensures r.Some? ==> r.value == repositories[name]
    {
      if name in repositories then Some(repositories[name]) else None
    }

    /** The `for key, value in updates.items()` loop of `update_repository`: the keys are
        distinct, so the order the loop visits them in does not matter. */
    static method ApplyUpdates(repo: Record, updates: Record) returns (r: Record)
      ensures r == Overlaid(repo, updates)
    {
      r := repo;
      var todo := updates.Keys;
      while todo != {}
        invariant todo <= updates.Keys
        invariant r == Overlaid(repo, updates - todo)
        decreases todo
      {
        var k :| k in todo;
        ghost var done := updates - todo;
        if k != "name" {
          r := r[k := updates[k]];
        }
        todo := todo - {k};
        assert updates - todo == done[k := updates[k]];
      }
      assert updates - todo == updates;
    }

    /** `update_repository`. */
    method UpdateRepository(name: string, updates: Record, now: string) returns (r: Result<Record>)
      modifies this
      ensures name !in old(repositories) ==> r == Err(NotFound(name)) && repositories == old(repositories)
      ensures name in old(repositories) ==> r == Ok(Updated(old(repositories)[name], updates, now))
                                            && repositories == old(repositories)[name := r.value]
      ensures old(Valid()) ==> Valid()
    {
      if name !in repositories {
        return Err(NotFound(name));
      }
      var repository := ApplyUpdates(repositories[name], updates);
      repository := repository["updated_at" := Str(now)];
      repositories := repositories[name := repository];
      r := Ok(repository);
    }

    /** `delete_repository`: removes exactly that entry. */
    method DeleteRepository(name: string) returns (r: Result<bool>)
      modifies this
      ensures name !in old(repositories) ==> r == Err(NotFound(name)) && repositories == old(repositories)
      ensures name in old(repositories) ==> r == Ok(true) && repositories == old(repositories) - {name}
      ensures old(Valid()) ==> Valid()
    {
      if name !in repositories {
        return Err(NotFound(name));
      }
      repositories := repositories - {name};
      r := Ok(true);
    }

    /** `set_auto_update`. */
    method SetAutoUpdate(name: string, autoUpdate: bool, frequency: Value, now: string) returns (r: Result<Record>)
      modifies this
      ensures name !in old(repositories) ==> r == Err(NotFound(name)) && repositories == old(repositories)
      ensures name in old(repositories) ==> r == AutoUpdated(old(repositories)[name], autoUpdate, frequency, now)
      ensures r.Ok? ==> repositories == old(repositories)[name := r.value]
      ensures r.Err? ==> repositories == old(repositories)
      ensures old(Valid()) ==> Valid()
    {
      if name !in repositories {
        return Err(NotFound(name));
      }
      var repository := repositories[name];
      if "source" !in repository {
        return Err(MissingSource);
      }
      if repository["source"] != Str("crawler") && autoUpdate {
        return Err(OnlyCrawler);
      }
      repository := repository["auto_update" := Bool(autoUpdate)];
      repository := repository["update_frequency" := if autoUpdate then frequency else Null];
      repository := repository["updated_at" := Str(now)];
      repositories := repositories[name := repository];
      r := Ok(repository);
    }

    /** The shared shape of the setters that write one key and `updated_at`. */
    method SetKey(name: string, key: string, v: Value, now: string) returns (r: Result<Record>)
      requires key != "updated_at"
      modifies this
      ensures name !in old(repositories) ==> r == Err(NotFound(name)) && repositories == old(repositories)
      ensures name in old(repositories) ==> r == Ok(Stamped(old(repositories)[name], key, v, now))
                                            && repositories == old(repositories)[name := r.value]
      ensures old(Valid()) ==> Valid()
    {
      if name !in repositories {
        return Err(NotFound(name));
      }
      var repository := repositories[name][key := v];
      repository := repository["updated_at" := Str(now)];
      repositories := repositories[name := repository];
      r := Ok(repository);
    }

    /** `set_direct_import`. */
    method SetDirectImport(name: string, directImport: bool, now: string) returns (r: Result<Record>)
      modifies this
      ensures name !in old(repositories) ==> r == Err(NotFound(name)) && repositories == old(repositories)
      ensures name in old(repositories) ==> r == Ok(Stamped(old(repositories)[name], "direct_import", Bool(directImport), now))
                                            && repositories == old(repositories)[name := r.value]
      ensures old(Valid()) ==> Valid()
    {
      r := SetKey(name, "direct_import", Bool(directImport), now);
    }

    /** `set_repository_dataset_id`. */
    method SetDatasetId(name: string, datasetId: Value, now: string) returns (r: Result<Record>)
      modifies this
      ensures name !in old(repositories) ==> r == Err(NotFound(name)) && repositories == old(repositories)
      ensures name in old(repositories) ==> r == Ok(Stamped(old(repositories)[name], "dataset_id", datasetId, now))
                                            && repositories == old(repositories)[name := r.value]
      ensures old(Valid()) ==> Valid()
    {
      r := SetKey(name, "dataset_id", datasetId, now);
    }

    /** `update_repository_status`. */
    method UpdateRepositoryStatus(name: string, status: string, now: string) returns (r: Result<Record>)
      modifies this
      ensures name !in old(repositories) ==> r == Err(NotFound(name)) && repositories == old(repositories)
      ensures name in old(repositories) ==> r == Ok(Stamped(old(repositories)[name], "status", Str(status), now))
                                            && repositories == old(repositories)[name := r.value]
      ensures old(Valid()) ==> Valid()
    {
      r := SetKey(name, "status", Str(status), now);
    }

    /** `update_file_type_chunk_mapping`. */
    method UpdateFileTypeChunkMapping(name: string, fileType: string, chunkMethod: Value, parserConfig: Value, now: string)
      returns (r: Result<Record>)
      modifies this
      ensures name !in old(repositories) ==> r == Err(NotFound(name)) && repositories == old(repositories)
      ensures name in old(repositories) ==> r == ChunkMapped(old(repositories)[name], fileType, chunkMethod, parserConfig, defaultMapping, now)
      ensures r.Ok? ==> repositories == old(repositories)[name := r.value]
      ensures r.Err? ==> repositories == old(repositories)
      ensures old(Valid()) ==> Valid()
    {
      if name !in repositories {
        return Err(NotFound(name));
      }
      r := MapChunkMethod(repositories[name], fileType, chunkMethod, parserConfig, defaultMapping, now);
      if r.Ok? {
        repositories := repositories[name := r.value];
      }
    }

    /** The steps `update_file_type_chunk_mapping` takes on the record. */
    static method MapChunkMethod(repository: Record, fileType: string, chunkMethod: Value, parserConfig: Value,
                                 defaultMapping: Value, now: string) returns (r: Result<Record>)
      ensures r == ChunkMapped(repository, fileType, chunkMethod, parserConfig, defaultMapping, now)
    {
      var mapping := defaultMapping;
      if "file_type_chunk_mapping" in repository {
        mapping := repository["file_type_chunk_mapping"];
      }
      if !mapping.Dict? {
        return Err(NotADict);
      }
      var entry := Dict(map[]);
      if fileType in mapping.fields {
        entry := mapping.fields[fileType];
      }
      if !entry.Dict? {
        return Err(NotADict);
      }
      entry := Dict(entry.fields["chunk_method" := chunkMethod]);
      if Truthy(parserConfig) {
        entry := Dict(entry.fields["parser_config" := parserConfig]);
      }
      var updated := repository["file_type_chunk_mapping" := Dict(mapping.fields[fileType := entry])];
      r := Ok(updated["updated_at" := Str(now)]);
    }

    /** `get_file_type_chunk_mapping`. */
    function FileTypeChunkMapping(name: string): (r: Result<Value>)
      reads this
      ensures r.Err? <==> name !in repositories
      ensures r.Ok? ==> r.value == MappingOf(repositories[name], defaultMapping)
    {
      if name !in repositories then Err(NotFound(name))
      else if "file_type_chunk_mapping" !in repositories[name] then Ok(defaultMapping)
      else Ok(repositories[name]["file_type_chunk_mapping"])
    }

    /** `get_repository_prompt_config`. */
    function PromptConfig(name: string): (r: Result<Value>)
      reads this
      ensures r.Err? <==> name !in repositories
      ensures r.Ok? ==> r.value == Get(repositories[name], "prompt_config", Dict(defaultPrompts.AsRecord()))
    {
      if name !in repositories then Err(NotFound(name))
      else if "prompt_config" !in repositories[name] then Ok(Dict(defaultPrompts.AsRecord()))
      else Ok(repositories[name]["prompt_config"])
    }

    /** `update_repository_prompt_config`: afterwards the repository's prompt
        configuration is the one given. */
    method UpdatePromptConfig(name: string, promptConfig: Value, now: string) returns (r: Result<Record>)
      modifies this
      ensures name !in old(repositories) ==> r == Err(NotFound(name)) && repositories == old(repositories)
      ensures name in old(repositories) ==> r == Ok(Stamped(old(repositories)[name], "prompt_config", promptConfig, now))
                                            && repositories == old(repositories)[name := r.value]
      ensures r.Ok? ==> PromptConfig(name) == Ok(promptConfig)
      ensures old(Valid()) ==> Valid()
    {
      r := SetKey(name, "prompt_config", promptConfig, now);
    }

    /** `reset_repository_prompt_config`. */
    method ResetPromptConfig(name: string, now: string) returns (r: Result<Record>)
      modifies this
      ensures name !in old(repositories) ==> r == Err(NotFound(name)) && repositories == old(repositories)
      ensures name in old(repositories) ==> r == Ok(Stamped(old(repositories)[name], "prompt_config", Dict(defaultPrompts.AsRecord()), now))
                                            && repositories == old(repositories)[name := r.value]
      ensures r.Ok? ==> PromptConfig(name) == Ok(Dict(defaultPrompts.AsRecord()))
      ensures old(Valid()) ==> Valid()
    {
      r := SetKey(name, "prompt_config", Dict(defaultPrompts.AsRecord()), now);
    }

    /** `get_merged_prompt_config`; `globalConfig` is the global configuration the caller
        passes or the configuration service returns. */
    function MergedPromptConfig(name: string, globalConfig: Record): (r: Result<Record>)
      reads this
      ensures name !in repositories ==> r == Err(NotFound(name))
      ensures name in repositories ==> r == MergedPrompts(repositories[name], globalConfig, defaultPrompts)
    {
      if name !in repositories then Err(NotFound(name)) else MergedPrompts(repositories[name], globalConfig, defaultPrompts)
    }

    /** `get_repository_files` over the entries of the repository's directory. */
    method GetRepositoryFiles(name: string, entries: seq<DirEntry>, fileTypes: Option<seq<string>>,
                              includeSummarized: bool, includeQa: bool) returns (r: Result<seq<FileInfo>>)
      ensures name !in repositories ==> r == Err(NotFound(name))
      ensures name in repositories ==> r == Ok(Listed(entries, fileTypes.GetOr(DefaultFileTypes), includeSummarized, includeQa))
    {
      if name !in repositories {
        return Err(NotFound(name));
      }
      var types := if fileTypes.None? then DefaultFileTypes else fileTypes.value;
      var keep := Kept(types, includeSummarized, includeQa);
      var files := [];
      var i := 0;
      while i < |entries|
        invariant 0 <= i <= |entries|
        invariant files == FilterMap(entries[..i], keep, InfoOf())
      {
        FilterMapStep(entries, keep, InfoOf(), i);
        var e := entries[i];
        if keep(e) {
          files := files + [Info(e.name)];
        }
        i := i + 1;
      }
      assert entries[..|entries|] == entries;
      r := Ok(files);
    }

    /** The loop the three batch helpers share. */
    method BatchApply(names: seq<string>, op: Record -> Result<Record>) returns (results: map<string, BatchResult>)
      requires KeepsKeys(op)
      modifies this
      ensures (repositories, results) == Batch(old(repositories), names, op)
      ensures old(Valid()) ==> Valid()
    {
      ghost var store := repositories;
      results := map[];
      var i := 0;
      while i < |names|
        invariant 0 <= i <= |names|
        invariant (repositories, results) == Batch(store, names[..i], op)
      {
        assert names[..i + 1][..i] == names[..i];
        var n := names[i];
        if n in repositories {
          match op(repositories[n])
          case Ok(x) =>
            repositories := repositories[n := x];
            results := results[n := Success(x)];
          case Err(e) =>
            results := results[n := Failure(e)];
        } else {
          results := results[n := Failure(NotFound(n))];
        }
        i := i + 1;
      }
      assert names[..|names|] == names;
      BatchKeepsKeys(store, names, op);
      BatchShape(store, names, op);
    }

    /** `batch_update_repositories`. */
    method BatchUpdateRepositories(names: seq<string>, updates: Record, now: string) returns (results: map<string, BatchResult>)
      modifies this
      ensures (repositories, results) == Batch(old(repositories), names, UpdateOp(updates, now))
      ensures old(Valid()) ==> Valid()
    {
      results := BatchApply(names, UpdateOp(updates, now));
    }

    /** `batch_set_auto_update`. */
    method BatchSetAutoUpdate(names: seq<string>, autoUpdate: bool, frequency: Value, now: string)
      returns (results: map<string, BatchResult>)
      modifies this
      ensures (repositories, results) == Batch(old(repositories), names, AutoUpdateOp(autoUpdate, frequency, now))
      ensures old(Valid()) ==> Valid()
    {
      results := BatchApply(names, AutoUpdateOp(autoUpdate, frequency, now));
    }

    /** `batch_set_direct_import`. */
    method BatchSetDirectImport(names: seq<string>, directImport: bool, now: string) returns (results: map<string, BatchResult>)
      modifies this
      ensures (repositories, results) == Batch(old(repositories), names, DirectImportOp(directImport, now))
      ensures old(Valid()) ==> Valid()
    {
      results := BatchApply(names, DirectImportOp(directImport, now));
    }
  }
}
