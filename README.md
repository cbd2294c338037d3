# TrueSight backend core in Dafny

This project models the core of the TrueSight backend, a service that crawls web sites into
per-repository folders of text files. It summarises those files and generates question-and-answer
pairs from them, then imports them into a RAGFlow knowledge base. The model covers the parts of
the backend that decide things. I/O, threads, HTTP and language-model calls are outside it.

- **Crawl engine** (`crawler.dfy`): one crawl task, run by one sequential worker. The model has
  - the status record and `start_crawl`'s parameter defaults;
  - seeding, and incremental pre-marking of already-saved pages;
  - one iteration of a crawl thread (skip, failure, PDF, blocked and unblocked page, enqueueing);
  - the link filter and the blocklist;
  - pause, resume and stop, and the inactivity monitor.

  The module globals live in the class `CrawlManager`. Each stage of a thread's loop is a small
  method, proved against a function on a per-task view (`Engine`) of that state. An invariant
  on `Engine` is preserved by every step.
- **URL and file-name codec** (`url_utils.dfy`): `url_to_filename`, `filename_to_url`, the fixed
  `is_valid_url` pattern (a hand-written recogniser) and `normalize_url`. These rest on a
  hand-written subset of `urlparse`.
- **Task registry** (`task_manager.dfy`): the class `TaskManager` holds the task dictionary
  and the order of its ids, with create, update, get, the two filtered queries, clean-up and
  cancel.
- **Repository store** (`repository.dfy`): the class `RepositoryManager` holds the `repositories`
  dictionary. The model covers
  - create, get, update and delete;
  - the `set_*` setters and the chunk-mapping update;
  - the prompt-configuration getters and setters;
  - the file filter of `get_repository_files`;
  - the batch helpers and the merged prompt configuration.
- **Scheduler** (`scheduler.dfy`): the daily, weekly, monthly and yearly rules of
  `_should_execute_task`, over proleptic Gregorian dates with ordinals and weekdays. The class
  `TaskQueue` models the de-duplicating FIFO task queue and `add_auto_update_task`.
- **Processor helpers** (`processor.dfy`):
  - the paragraph packing of `_chunk_content_by_tokens` and the chunk count;
  - reading the token file;
  - the incremental skip/new/updated bookkeeping;
  - code-fence stripping and question-and-answer normalisation.
- **Configuration** (`config_loader.dfy`): the class `ConfigStore` holds the `_config_cache` memo
  and an abstract file store. It models `load_config` with its fallback to defaults,
  `create_default_config`, `get_config`, `save_config`, and `update_config` with `update_dict`.
- **File utilities** (`file_utils.dfy`): the selection rule of `list_files` over an abstract
  directory tree, the reader dispatch of `read_file`, and the guard of `ensure_directory`.
- **RAGFlow metadata** (`ragflow.dfy`): `generate_metadata`, with its own copy of `is_valid_url`.
- Shared modules:
  - `wrappers.dfy`: `Option` and `Result`;
  - `strings.dfy`: the Python `str` operations the code uses, on `seq<char>`;
  - `json.dfy`: JSON-like values, and the recursive merge that both `merge_dict` and
    `update_dict` perform.

Clocks, the regular-expression engine, ISO-date parsing, environment variables, file contents and
hashes, and fetch results are all parameters of the operations that use them.

### Where the code differs from its description

- **Incremental crawling never re-marks a page.** Incremental crawling is meant to skip pages
  that are already saved, but the code never does. The pre-marking loop adds what
  `filename_to_url` decodes, and that decoder only accepts strings that `is_valid_url` accepts:
  an optional `www.`, a host name and an optional path, with no scheme. The link filter only
  follows `http` and `https` links. So a pre-marked URL never equals a queued link
  (`Crawler.PreMarkedNeverCrawlable`), and every page is fetched again. The model follows the
  code.
- **`update_config` changes the cache even when saving fails.** `get_config` returns the cached
  dictionary itself, and `update_dict` changes it in place. So after `update_config` the cache
  holds the merged configuration whether or not `save_config` succeeds
  (`ConfigLoader.ConfigStore.UpdateConfig`). The model follows the code.

## Model

| member | source | states |
|---|---|---|
| Crawler.ParamOrDefault | backend/src/crawler/crawler_manager.py:94-104 | A given depth or thread count is used as is. A missing one comes from the crawler configuration, else from the defaults 3 and 10. |
| Crawler.ParseBlocklist | backend/src/crawler/crawler_manager.py:67-68 | Every blocklist entry is a non-empty stripped line of the setting, and every non-empty stripped line is an entry. |
| Crawler.CrawlManager.LoadBlocklist | backend/src/crawler/crawler_manager.py:67-68 | A non-empty blocklist setting replaces the blocklist. Otherwise the blocklist is unchanged, and no other state changes. |
| Crawler.BlockedIffSomePattern | backend/src/crawler/crawler_manager.py:410-424 | A URL is blocked iff some pattern's search matches it, or some pattern that does not compile occurs in it literally. An empty list blocks nothing. |
| Crawler.ShouldCrawlComponents | backend/src/crawler/crawler_manager.py:489-506 | A URL built from well-formed components passes the link filter iff it has the parent's netloc, an http or https scheme, and a lower-cased path that ends in none of the eight excluded extensions. |
| Crawler.CrawlableLinks | backend/src/crawler/crawler_manager.py:464-475 | The links returned for a page are exactly its links that pass the filter, in page order. |
| Crawler.ReceivedLinksCrawlable | backend/src/crawler/crawler_manager.py:472-475 | Only links that pass the filter against the page reach the crawl thread. |
| Crawler.Decodings | backend/src/crawler/crawler_manager.py:222-225 | There is one `filename_to_url` result per existing file, in listing order. |
| Crawler.Accepted | backend/src/crawler/crawler_manager.py:225-227 | A URL is pre-marked iff some file name decodes to it. |
| Crawler.AcceptedStep | backend/src/crawler/crawler_manager.py:223-227 | Each further file adds its decoded URL, if it has one, and nothing else. |
| Crawler.CollectPreMarked | backend/src/crawler/crawler_manager.py:221-227 | The pre-marking loop collects exactly the accepted decodings of the existing files. |
| Crawler.PreMarkedNeverCrawlable | backend/src/crawler/crawler_manager.py:221-227 | No pre-marked URL ever passes the link filter, so pre-marking never prevents a fetch. |
| Crawler.SeedQueue | backend/src/crawler/crawler_manager.py:230-231 | The initial queue holds every seed at depth 0, in order, with duplicates kept. |
| Crawler.BuildSeedQueue | backend/src/crawler/crawler_manager.py:230-231 | The seeding loop builds exactly that queue. |
| Crawler.CrawlManager.StartCrawl | backend/src/crawler/crawler_manager.py:91-125 | The task's status entry is registered as running. It gets the defaulted depth and thread count, the seed list, zero counters and no end time. The last-write time is set to now. |
| Crawler.CrawlManager.Seed | backend/src/crawler/crawler_manager.py:216-234 | The queue becomes the seed queue. The visited set becomes the pre-marked URLs when incremental, else empty. `total_urls` becomes the number of seeds. |
| Crawler.SeedInv | backend/src/crawler/crawler_manager.py:229-234 | The state right after seeding satisfies the crawl invariant. |
| Crawler.RemoveFirst | backend/src/crawler/crawler_manager.py:309-310 | The guarded `remove` drops one occurrence of a listed URL and leaves any other list unchanged. |
| Crawler.RemoveFirstMultiset | backend/src/crawler/crawler_manager.py:309-310 | Removing takes exactly one copy of the URL out of the multiset of current URLs. |
| Crawler.TrackNoDuplicates | backend/src/crawler/crawler_manager.py:288-289 | Appending a URL to `current_urls` only when it is absent keeps that list free of duplicates, and the URL ends up in it. |
| Crawler.RemoveNoDuplicates | backend/src/crawler/crawler_manager.py:309-310 | Removing a URL from a list without duplicates leaves it without duplicates and without that URL. |
| Crawler.Enqueued | backend/src/crawler/crawler_manager.py:332-334 | Each queued entry is a page link that was not visited, at the given depth. Every link that was not visited is queued. |
| Crawler.EnqueueLinks | backend/src/crawler/crawler_manager.py:331-336 | The enqueue loop appends exactly those entries, and `total_urls` grows by their number. |
| Crawler.StepKeepsInv | backend/src/crawler/crawler_manager.py:281-350 | Every step keeps three facts: no queued entry is deeper than the maximum depth, crawled + failed + queued ≤ `total_urls`, and `current_urls` has no duplicates. |
| Crawler.StepSkipsVisited | backend/src/crawler/crawler_manager.py:288-294 | A URL that was already visited is dropped from the queue without a fetch. It changes no counter, no visited entry and no file, and stays in `current_urls`. |
| Crawler.StepFailure | backend/src/crawler/crawler_manager.py:338-343 | A failed fetch adds one to `failed_urls` only. The URL is not marked visited and leaves `current_urls`. |
| Crawler.StepPdf | backend/src/crawler/crawler_manager.py:299-310 | A PDF bypasses the blocklist. It is saved as `.pdf`, marked visited and counted as crawled, and it queues nothing. |
| Crawler.StepBlockedPage | backend/src/crawler/crawler_manager.py:313-336 | A blocked page writes no file and is not counted as crawled. It is still marked visited and its links are still queued. |
| Crawler.StepUnblockedPage | backend/src/crawler/crawler_manager.py:316-326 | An unblocked page is counted even when its content is empty. A file is written iff the content is non-empty. |
| Crawler.StepEnqueues | backend/src/crawler/crawler_manager.py:331-336 | Links are queued only below the maximum depth, one level deeper, and only when neither visited nor the page itself. Each adds one to `total_urls`. |
| Crawler.Received | backend/src/crawler/crawler_manager.py:426-475 | A fetched page hands back its content and its filtered links. A failed fetch stays a failure. |
| Crawler.CrawlManager.Step | backend/src/crawler/crawler_manager.py:281-350 | On an empty queue the loop stops and nothing changes. Otherwise the task's state after the iteration is the step function of the state before, and the crawl invariant still holds. |
| Crawler.CrawlManager.TakeHead | backend/src/crawler/crawler_manager.py:284-289 | The queue's head is popped and listed in `current_urls`. |
| Crawler.CrawlManager.Process | backend/src/crawler/crawler_manager.py:292-346 | Everything after the pop changes the task's state exactly as the step's outcome function says. |
| Crawler.CrawlManager.RecordFailure | backend/src/crawler/crawler_manager.py:338-343 | A failure adds one to `failed_urls` and removes the URL from `current_urls`. |
| Crawler.CrawlManager.WriteFile | backend/src/crawler/crawler_manager.py:382-394 | One more saved file, named `url_to_filename(url)` plus the extension, and the last-write time set to now. |
| Crawler.CrawlManager.MarkCrawled | backend/src/crawler/crawler_manager.py:306-310 | The URL is marked visited and counted as crawled when it counts, and it leaves `current_urls`. |
| Crawler.CrawlManager.VisitPage | backend/src/crawler/crawler_manager.py:313-336 | A page is written when not blocked and non-empty, then marked, then its links are queued. |
| Crawler.CrawlManager.QueueLinks | backend/src/crawler/crawler_manager.py:331-336 | The links are queued as `LinksQueued` says. |
| Crawler.CrawlManager.Finish | backend/src/crawler/crawler_manager.py:252-259 | Once the threads have joined, the task is completed with an end time, whatever its status was. The crawled repository's record is stamped with status "complete" (`MarkedComplete`), a missing repository is left as it was, and the store stays valid. |
| Crawler.CrawlManager.Fail | backend/src/crawler/crawler_manager.py:264-268 | The worker's exception marks the task failed, with the error text and an end time. |
| Crawler.CrawlManager.Pause | backend/src/crawler/crawler_manager.py:561-564 | Succeeds iff the task exists and is running, and then moves it to paused. Otherwise nothing changes. |
| Crawler.CrawlManager.Resume | backend/src/crawler/crawler_manager.py:576-579 | Succeeds iff the task exists and is paused, and then moves it to running. Otherwise nothing changes. |
| Crawler.CrawlManager.Stop | backend/src/crawler/crawler_manager.py:591-595 | Succeeds iff the task exists and is running or paused, and then moves it to stopped with an end time. Otherwise nothing changes. |
| Crawler.CrawlManager.MonitorCheck | backend/src/crawler/crawler_manager.py:163-188 | The monitor exits unchanged when the task is gone or not running. A running task is completed with an end time, its repository is stamped "complete" (`MarkedComplete`), and the monitor exits, iff more than 180 whole seconds have passed since the last write. Otherwise it waits, and the repositories are unchanged. |
| UrlUtils.UrlParse | backend/src/utils/url_utils.py:24-28 | The parsed scheme is empty or a scheme name. The netloc holds no delimiter. The path holds neither '?' nor '#'. No component holds a tab or a line break. |
| UrlUtils.ParseUnsplit | backend/src/crawler/crawler_manager.py:489-490 | Parsing a URL assembled from well-formed components gives those components back. |
| UrlUtils.EscapeDomain | backend/src/utils/url_utils.py:31 | The escaped domain holds no '.'. |
| UrlUtils.EscapePath | backend/src/utils/url_utils.py:34-40 | The escaped path holds neither '.' nor '/'. |
| UrlUtils.FullFilename | backend/src/utils/url_utils.py:24-45 | The name before truncation holds no '.', and holds a '/' only where the netloc does. |
| UrlUtils.UrlToFilename | backend/src/utils/url_utils.py:13-51 | The file name has at most 200 characters and holds neither '.' nor '/'. |
| UrlUtils.DropExtension | backend/src/utils/url_utils.py:64-66 | Everything from the last '.' on is dropped. A name without '.' is unchanged. |
| UrlUtils.DropExtensionOf | backend/src/utils/url_utils.py:64-66 | A saved name plus ".ext" loses exactly the extension. |
| UrlUtils.StripMarker | backend/src/utils/url_utils.py:69-74 | Only the first marker present, in the order `_summarized_qa_csv`, `_summarized`, `_qa_json`, is removed, with all its occurrences. |
| UrlUtils.SummarizedMarkers | backend/src/utils/url_utils.py:69-72 | A name holding `_summarized_qa_csv` also holds `_summarized`, so the order of the checks matters. |
| UrlUtils.DecodeFilename | backend/src/utils/url_utils.py:64-77 | The decoded candidate holds no '_'. Its characters come from the name or are dots. |
| UrlUtils.FilenameToUrl | backend/src/utils/url_utils.py:53-83 | The result is `None` iff the candidate fails `is_valid_url`. Otherwise it is the candidate, which holds no '_'. |
| UrlUtils.DecodeEncodedIsNotHttp | backend/src/utils/url_utils.py:31-77 | Decoding `url_to_filename(u) + ".txt"` never gives a string with a '/', so never an http or https URL: the codec does not round-trip. |
| UrlUtils.DecodedUrlHasNoScheme | backend/src/utils/url_utils.py:77-83 | No decoded URL starts with `http:` or `https:`. |
| UrlUtils.ValidUrlParts | backend/src/utils/url_utils.py:96-105 | A valid URL is an optional `www.`, a host name of labels with a top-level label of two or more letters, then nothing, a path, or a final line break. |
| UrlUtils.ValidUrlHasDot | backend/src/utils/url_utils.py:96-103 | A string without '.' is never valid. |
| UrlUtils.ValidUrlNoLeadingHyphen | backend/src/utils/url_utils.py:98 | A string starting with '-' is never valid. |
| UrlUtils.ValidUrlNoColonPrefix | backend/src/utils/url_utils.py:96-103 | A valid URL never starts with a `scheme:` prefix. |
| UrlUtils.ValidUrlHasEmptyScheme | backend/src/utils/url_utils.py:96-103 | `urlparse` finds no scheme in a valid URL. |
| UrlUtils.ValidUrlHasNoScheme | backend/src/utils/url_utils.py:96-103 | No valid URL starts with `http:` or `https:`. |
| UrlUtils.NormalizeBase | backend/src/utils/url_utils.py:118-123 | A URL without a scheme is parsed again with `http://` in front, so the result always has a scheme. |
| UrlUtils.HttpPrefixScheme | backend/src/utils/url_utils.py:121-123 | Any string with `http://` in front parses with the scheme `http`. |
| UrlUtils.DropTrailingSlash | backend/src/utils/url_utils.py:126-128 | One trailing '/' is dropped from a path longer than 1. Any other path is unchanged. |
| UrlUtils.NormalizeUrl | backend/src/utils/url_utils.py:107-141 | The result starts with the scheme, `://`, the netloc and the path without its trailing slash. A URL without a scheme gets `http://`. It contains `#` iff the URL had a fragment, and, without a fragment, `?` iff it had a query. |
| UrlUtils.UnsplitMarks | backend/src/utils/url_utils.py:131-139 | Reassembling puts the scheme, `://`, netloc and path first, and adds a `#` exactly for a non-empty fragment and, without one, a `?` exactly for a non-empty query. |
| UrlUtils.NormalizeUrlReparses | backend/src/utils/url_utils.py:107-141 | Parsing the normalised URL gives the scheme, netloc, trimmed path, query and fragment, with no params. |
| UrlUtils.NormalizeUrlNotIdempotent | backend/src/utils/url_utils.py:126-128 | Normalising is not idempotent: `http://a.com/x//` becomes `http://a.com/x/`, which becomes `http://a.com/x`. |
| TaskManager.NewTask | backend/src/utils/task_manager.py:80-93 | A new task has exactly the twelve keys of `create_task`. |
| TaskManager.NewTaskFields | backend/src/utils/task_manager.py:80-93 | A new task is pending with progress 0. It has never started or completed, has no error or result, and its metadata is `{}` when none is given. |
| TaskManager.TaskManager.CreateTask | backend/src/utils/task_manager.py:79-98 | The new task is stored under its id, replacing any previous task. A new id is appended to the order. The registry stays consistent. |
| TaskManager.TaskManager.UpdateTask | backend/src/utils/task_manager.py:116-147 | An unknown id gives `None` and changes nothing. A known one stores and returns the updated record. |
| TaskManager.UpdatedKeys | backend/src/utils/task_manager.py:139-141 | An update never adds a key to a complete task. |
| TaskManager.ApplyExistingValues | backend/src/utils/task_manager.py:139-141 | Each key the task has ends with the last value the keyword arguments give it, or keeps its own value. |
| TaskManager.ApplyExisting | backend/src/utils/task_manager.py:139-141 | The keyword loop keeps the task's keys. |
| TaskManager.UpdatedStartedAt | backend/src/utils/task_manager.py:122-125 | `started_at` is stamped iff the status becomes running while it was unset, unless a keyword argument names it (no caller passes one); `ApplyExistingValues` gives that case. Nothing else changes it. |
| TaskManager.UpdatedCompletedAt | backend/src/utils/task_manager.py:122-127 | `completed_at` is stamped iff the status becomes completed or failed, unless a keyword argument names it (no caller passes one); `ApplyExistingValues` gives that case. |
| TaskManager.TaskManager.GetTask | backend/src/utils/task_manager.py:159-160 | The result is the stored task when the id exists, else `None`. |
| TaskManager.MatchingExactly | backend/src/utils/task_manager.py:176-183 | A task is selected iff it is stored under a listed id and matches the repository and the optional type and status filters. |
| TaskManager.SortDescendingSorted | backend/src/utils/task_manager.py:186 | The sort puts keys in descending order and keeps exactly the same tasks. |
| TaskManager.SortDescendingStable | backend/src/utils/task_manager.py:186 | The sort is stable: the tasks sharing a `created_at` keep their dictionary order, as `sort(reverse=True)` keeps them. |
| TaskManager.DescendingPairwise | backend/src/utils/task_manager.py:186 | In the sorted list, no task's `created_at` is greater than that of any task before it. |
| TaskManager.TaskManager.GetRepositoryTasks | backend/src/utils/task_manager.py:175-188 | The result is the matching tasks, newest `created_at` first. |
| TaskManager.RunningExactly | backend/src/utils/task_manager.py:201-206 | A task is returned iff it is pending or running and, when a repository is given, belongs to it. |
| TaskManager.TaskManager.GetRunningTasks | backend/src/utils/task_manager.py:200-208 | The result is exactly the running selection, in dictionary order. |
| TaskManager.ExpiredIds | backend/src/utils/task_manager.py:221-227 | Every id collected is a listed task that is completed or failed and was created before the cutoff. |
| TaskManager.ExpiredIdsComplete | backend/src/utils/task_manager.py:221-227 | Every such expired task is collected. |
| TaskManager.CleanRemovesOnlyExpired | backend/src/utils/task_manager.py:221-230 | A task is removed iff it has expired. Pending, running and cancelled tasks are never removed. |
| TaskManager.TaskManager.CleanOldTasks | backend/src/utils/task_manager.py:217-233 | When every creation time of a finished task parses, exactly the tasks that expired before `now - days*86400`, in whole seconds, are removed. Otherwise it raises and nothing changes. The registry stays consistent. |
| TaskManager.TaskManager.CancelTask | backend/src/utils/task_manager.py:245-254 | Succeeds iff the task exists and is pending or running, and then it is cancelled and `completed_at` is stamped. Otherwise nothing changes. |
| TaskManager.StoreConsistent | backend/src/utils/task_manager.py:95 | Storing a complete task, and appending a new id, keeps the keys and the order in step. |
| TaskManager.DropConsistent | backend/src/utils/task_manager.py:229-230 | Deleting ids from both the dictionary and the order keeps them in step. |
| Repository.NewRepository | backend/src/repository/repository_manager.py:216-239 | The new record has the base keys, plus `urls` when kept, plus the override's keys. Every overridden key has the override's value. |
| Repository.CreatedDefaults | backend/src/repository/repository_manager.py:216-231 | A new repository is incomplete, has auto-update off and no frequency, has zero token counts, and gets the default chunk mapping. |
| Repository.NewRepositoryKeepsCreated | backend/src/repository/repository_manager.py:238-239 | Every setting the override does not name keeps its created value. |
| Repository.NewRepositoryUrls | backend/src/repository/repository_manager.py:234-235 | Unless overridden, `urls` is recorded iff the source is `crawler` and the list is non-empty. |
| Repository.RepositoryManager.BuildRepository | backend/src/repository/repository_manager.py:216-239 | The steps of `create_repository` build exactly the new record. |
| Repository.RepositoryManager.CreateRepository | backend/src/repository/repository_manager.py:205-251 | An existing name fails with "already exists" and changes nothing. Otherwise the new record is stored and returned. |
| Repository.RepositoryManager.GetRepository | backend/src/repository/repository_manager.py:263-266 | The result is the stored record, or `None` for an unknown name. |
| Repository.Updated | backend/src/repository/repository_manager.py:295-300 | Every given key except `name` is set. `name` is never changed. Other keys are kept. `updated_at` is refreshed. |
| Repository.UpdatedIdempotent | backend/src/repository/repository_manager.py:295-300 | Applying the same update twice is applying it once. |
| Repository.RepositoryManager.UpdateRepository | backend/src/repository/repository_manager.py:288-311 | A missing name fails with "not found" and changes nothing. Otherwise the updated record is stored and returned. |
| Repository.RepositoryManager.DeleteRepository | backend/src/repository/repository_manager.py:323-386 | A missing name fails. Otherwise exactly that entry is removed. |
| Repository.AutoUpdated | backend/src/repository/repository_manager.py:657-665 | Fails iff the source is not `crawler` and auto-update is requested. Otherwise it sets the flag, sets the frequency (forced to `None` when off) and stamps the time. |
| Repository.AutoUpdatedIdempotent | backend/src/repository/repository_manager.py:657-665 | Setting the same flags again changes nothing more. |
| Repository.RepositoryManager.SetAutoUpdate | backend/src/repository/repository_manager.py:650-676 | A missing name fails. Otherwise the outcome is `AutoUpdated`, and it is stored only on success. |
| Repository.Stamped | backend/src/repository/repository_manager.py:696-699 | One key is set together with `updated_at`, and every other key is kept. |
| Repository.StampedIdempotent | backend/src/repository/repository_manager.py:696-699 | Setting the same key twice is setting it once. |
| Repository.RepositoryManager.SetDirectImport | backend/src/repository/repository_manager.py:689-710 | A missing name fails. Otherwise `direct_import` is set and stamped. |
| Repository.RepositoryManager.SetDatasetId | backend/src/repository/repository_manager.py:615-636 | A missing name fails. Otherwise `dataset_id` is set and stamped. |
| Repository.RepositoryManager.UpdateRepositoryStatus | backend/src/repository/repository_manager.py:581-602 | A missing name fails. Otherwise `status` is set and stamped. |
| Repository.ChunkMapped | backend/src/repository/repository_manager.py:729-745 | The mapping, or the default one when missing, gains the file type's entry if absent. Its `chunk_method` is set, other file types are unchanged, and it fails only where item assignment would hit a non-dictionary. |
| Repository.ChunkMappedParserConfig | backend/src/repository/repository_manager.py:739-742 | `parser_config` is replaced only by a truthy one. Otherwise the entry keeps what it had, and its other settings are kept. |
| Repository.RepositoryManager.MapChunkMethod | backend/src/repository/repository_manager.py:732-745 | The steps build exactly `ChunkMapped`. |
| Repository.RepositoryManager.UpdateFileTypeChunkMapping | backend/src/repository/repository_manager.py:725-756 | A missing name fails. Otherwise the outcome is `ChunkMapped`, stored on success. |
| Repository.RepositoryManager.FileTypeChunkMapping | backend/src/repository/repository_manager.py:768-777 | The repository's mapping, else the default one. A missing name fails. |
| Repository.RepositoryManager.PromptConfig | backend/src/repository/repository_manager.py:900-909 | The repository's prompt configuration, else the default one. A missing name fails. |
| Repository.RepositoryManager.UpdatePromptConfig | backend/src/repository/repository_manager.py:922-943 | Stores the given prompt configuration, which the getter then returns. |
| Repository.RepositoryManager.ResetPromptConfig | backend/src/repository/repository_manager.py:955-976 | Stores the default prompt configuration, which the getter then returns. |
| Repository.ListedExactly | backend/src/repository/repository_manager.py:414-436 | A file is listed iff it is a regular file of the directory that passes the filter. Its record has its name and its extension without the dot. |
| Repository.DefaultSelection | backend/src/repository/repository_manager.py:409-423 | With the default types, only `.txt`, `.pdf` and `.html` files, in any letter case, pass. `_summarized` and `_qa_` names pass only when their include flag is on. |
| Repository.RepositoryManager.GetRepositoryFiles | backend/src/repository/repository_manager.py:401-438 | A missing name fails. Otherwise the filtered listing, with the default types when none are given. |
| Repository.BatchShape | backend/src/repository/repository_manager.py:790-811 | There is one result per requested name. A name not in the store fails with "not found". Names and untouched records are kept. |
| Repository.BatchOnce | backend/src/repository/repository_manager.py:792-809 | For an idempotent operation, each present name's result is that of one call, even when the name is repeated. |
| Repository.BatchKeepsKeys | backend/src/repository/repository_manager.py:792-809 | An operation that never drops keys keeps every record's keys through the batch. |
| Repository.BatchUpdateResults | backend/src/repository/repository_manager.py:790-811 | `batch_update_repositories` gives each present name the result of one update. |
| Repository.BatchAutoUpdateResults | backend/src/repository/repository_manager.py:825-854 | `batch_set_auto_update` gives each present name the result of one `set_auto_update`, including its refusal for non-crawler sources. |
| Repository.BatchDirectImportResults | backend/src/repository/repository_manager.py:867-888 | `batch_set_direct_import` gives each present name the result of one `set_direct_import`. |
| Repository.RepositoryManager.BatchApply | backend/src/repository/repository_manager.py:790-811 | The loop gives exactly the batch fold's store and results. |
| Repository.RepositoryManager.BatchUpdateRepositories | backend/src/repository/repository_manager.py:779-811 | The store and results are the fold of one update per name. |
| Repository.RepositoryManager.BatchSetAutoUpdate | backend/src/repository/repository_manager.py:813-854 | The store and results are the fold of one auto-update per name. |
| Repository.RepositoryManager.BatchSetDirectImport | backend/src/repository/repository_manager.py:856-888 | The store and results are the fold of one direct-import per name. |
| Repository.GlobalPrompts | backend/src/repository/repository_manager.py:1002-1009 | Each of the three prompt settings comes from the `processor` section, else from the default. |
| Repository.MergedPrompts | backend/src/repository/repository_manager.py:1002-1028 | Fails iff a section that `.get` or `merge_dict` uses is not a dictionary. The keys are the three prompt settings plus the repository's own. |
| Repository.MergedPromptsDefault | backend/src/repository/repository_manager.py:1002-1028 | With no prompt configuration anywhere, the merge gives the default one. |
| Repository.MergedPromptsRepositoryWins | backend/src/repository/repository_manager.py:1019-1026 | Every leaf the repository's configuration sets wins over the global one. |
| Repository.MergedPromptsGlobalKept | backend/src/repository/repository_manager.py:1019-1026 | A global setting the repository does not mention is kept. |
| Repository.RepositoryManager.MergedPromptConfig | backend/src/repository/repository_manager.py:989-1028 | A missing name fails. Otherwise the merged prompt configuration. |
| Json.Merge | backend/src/repository/repository_manager.py:1019-1024 | The merge has the keys of both sides, and keys only in the base keep their value. |
| Json.MergeOverrideWins | backend/src/utils/config_loader.py:206-212 | Every non-dictionary value the override reaches through dictionaries is in the result. |
| Json.MergeKeepsBasePaths | backend/src/utils/config_loader.py:206-212 | Every path of the base survives unless the override replaces a step of it. |
| Json.MergeEmpty | backend/src/utils/config_loader.py:206-212 | Merging nothing leaves the base unchanged. |
| Json.MergeSelf | backend/src/repository/repository_manager.py:1019-1024 | Merging a dictionary into itself changes nothing. |
| Scheduler.DaysBeforeNextYear | backend/src/scheduler/scheduler_manager.py:138 | A year occupies exactly its own number of days in the ordinal count. |
| Scheduler.LeapCount | backend/src/scheduler/scheduler_manager.py:138 | A year is a leap year iff it is divisible by 4 but not by 100, or divisible by 400. |
| Scheduler.OrdinalInYear | backend/src/scheduler/scheduler_manager.py:138 | A date's ordinal lies within its year. |
| Scheduler.OrdinalOrder | backend/src/scheduler/scheduler_manager.py:132 | Comparing dates is comparing their ordinals, so `now.date() > last.date()` is an ordinal comparison. |
| Scheduler.Weekday | backend/src/scheduler/scheduler_manager.py:137 | The weekday is between 0 (Monday) and 6. |
| Scheduler.WeekdaySamples | backend/src/scheduler/scheduler_manager.py:137 | 1 January 2024 is a Monday (0) and 7 January 2024 a Sunday (6). |
| Scheduler.ShouldExecute | backend/src/scheduler/scheduler_manager.py:96-158 | A non-crawler repository is never due. A missing or unparsable last update is always due. Otherwise a due task is in the 00:01-00:59 window with a known frequency. |
| Scheduler.ShouldExecuteByFrequency | backend/src/scheduler/scheduler_manager.py:129-151 | With a parsed last update, the task is due iff the rule its frequency names is due (daily, weekly, monthly or yearly, as written). |
| Scheduler.WeeklyImpliesDaily | backend/src/scheduler/scheduler_manager.py:131-138 | A weekly update is only due on a day a daily one would be. |
| Scheduler.YearlyImpliesMonthly | backend/src/scheduler/scheduler_manager.py:142-151 | A yearly update is only due on a day a monthly one would be. |
| Scheduler.NotDueTwice | backend/src/scheduler/scheduler_manager.py:129-151 | After an update recorded on `now`'s day, the frequency's own rule is not due again that day. The weekly rule is not due again within the next six days. |
| Scheduler.NotDueInSamePeriod | backend/src/scheduler/scheduler_manager.py:140-151 | The monthly rule is not due again within the same month, nor the yearly rule within the same year. |
| Scheduler.RecordedUpdateNotDueSameDay | backend/src/scheduler/scheduler_manager.py:122-132 | Recording today's update stops the daily rule from firing again the same day. |
| Scheduler.Enqueued | backend/src/scheduler/scheduler_manager.py:169-177 | Afterwards the task's type and repository are queued. A queue without duplicates stays so. The queued keys are the old ones plus this one. |
| Scheduler.EnqueuedIdempotent | backend/src/scheduler/scheduler_manager.py:171-174 | Adding the same task twice is adding it once. |
| Scheduler.EnqueuedAllFresh | backend/src/scheduler/scheduler_manager.py:177 | Distinct new tasks join the back of the queue in order. |
| Scheduler.Dequeued | backend/src/scheduler/scheduler_manager.py:184-189 | An empty queue gives nothing. Otherwise the oldest task is taken, and it followed by the rest is the old queue. |
| Scheduler.DequeuedDistinct | backend/src/scheduler/scheduler_manager.py:189 | Taking the oldest task keeps the queue free of duplicates. |
| Scheduler.TaskQueue.FindDuplicate | backend/src/scheduler/scheduler_manager.py:171-174 | The scan finds a match iff a queued task has the same type and repository. |
| Scheduler.TaskQueue.Add | backend/src/scheduler/scheduler_manager.py:160-177 | The queue becomes `Enqueued` of the old one, and the queue's invariant is kept. |
| Scheduler.TaskQueue.TakeNext | backend/src/scheduler/scheduler_manager.py:180-189 | The task taken and the queue left are `Dequeued` of the old queue. |
| Scheduler.TaskQueue.AddAutoUpdateTask | backend/src/scheduler/scheduler_manager.py:320-351 | Succeeds iff the repository exists, is a crawler and has auto-update on. Only then is the auto-update task queued. |
| Processor.PackParagraph | backend/src/processor/processor_manager.py:1138-1160 | One paragraph either grows the current chunk or closes it and starts the next. Chunks stay non-empty, and the joined text grows by the separator and the paragraph. |
| Processor.MergeSurplus | backend/src/processor/processor_manager.py:1167-1169 | Afterwards there are at most `num_chunks` chunks (unchanged when already few enough), all non-empty, and the joined text is unchanged. |
| Processor.ChunkContentByTokens | backend/src/processor/processor_manager.py:1112-1171 | `num_chunks ≤ 1` gives `[content]`. Otherwise there are at most `num_chunks` non-empty chunks. When no paragraph is empty, joining them with blank lines gives the content back. |
| Processor.ChunkCount | backend/src/processor/processor_manager.py:974-976 | A zero chunk size has no count (Python raises ZeroDivisionError). For a positive size and a file that splits, the count n is at least 2 and (n-1)·size < tokens ≤ n·size. A negative size gives at most 1. |
| Processor.FloorDiv | backend/src/processor/processor_manager.py:976 | Python's `//`: the quotient rounded towards minus infinity, so the remainder lies between 0 and the divisor. |
| Processor.FileChunks | backend/src/processor/processor_manager.py:974-982 | A file that does not split is one chunk. A splitting file with chunk size 0 fails; with a negative size it is one chunk; with a positive size it is at most `ChunkCount` non-empty chunks. The joined chunks are the content when no paragraph is empty. |
| Processor.ParseInt | backend/src/processor/processor_manager.py:879 | `int()` succeeds iff the text is a digit run (single underscores between digits) or a sign followed by one. The value is the run's value, negated after `-`. |
| Processor.ParseDecimal | backend/src/processor/processor_manager.py:879 | `int(str(n)) == n` for every count. |
| Processor.TokenLine | backend/src/processor/processor_manager.py:875-882 | A line gives an entry only when its stripped text holds ':' and does not start with the total label. |
| Processor.TokenLineRoundTrip | backend/src/processor/processor_manager.py:1237 | A line written as `name: count` reads back as that name and count. |
| Processor.TotalLineIgnored | backend/src/processor/processor_manager.py:1247 | The total line contributes nothing. |
| Processor.CollectKeys | backend/src/processor/processor_manager.py:874-880 | A name is in the token map iff some line names it. |
| Processor.CollectLast | backend/src/processor/processor_manager.py:880 | A name's count is that of the last line naming it. |
| Processor.ParseLine | backend/src/processor/processor_manager.py:875-882 | The loop body gives exactly the line's entry. |
| Processor.ParseTokenFile | backend/src/processor/processor_manager.py:870-882 | The loop builds exactly the token map of the file's lines. |
| Processor.Classify | backend/src/processor/processor_manager.py:389-422 | Skipped iff incremental and the stored hash equals the current one. New iff no hash is stored for the name. Updated otherwise. |
| Processor.TalliedCounts | backend/src/processor/processor_manager.py:367-452 | Every walked file is counted exactly once, whether or not its work succeeds, and nothing is skipped without incremental processing. |
| Processor.TalliedHashes | backend/src/processor/processor_manager.py:436-437 | Afterwards every walked file whose summary was written has a stored hash. Every stored name was stored before or is a walked file whose work succeeded. |
| Processor.TalliedRecords | backend/src/processor/processor_manager.py:436-437 | Every walked file whose work succeeded has its own hash stored. |
| Processor.FailedFileStaysNew | backend/src/processor/processor_manager.py:417-454 | A new file whose work fails is counted as new, its hash is not stored, and the next incremental run sees it as new again. |
| Processor.RerunSkipsAll | backend/src/processor/processor_manager.py:389-392 | An incremental run straight after a run in which every file's work succeeded, over the same unchanged files, skips them all. |
| Processor.CountFile | backend/src/processor/processor_manager.py:369-437 | One file's filters, skip decision and counters are exactly `Count`, and its hash is stored only when its work succeeded. |
| Processor.TallyFiles | backend/src/processor/processor_manager.py:362-452 | The loop's counters and hashes are the tally of the files in order, storing a hash only for a file whose work succeeded. |
| Processor.StripFences | backend/src/processor/processor_manager.py:1345-1355 | The cleaned text is stripped. |
| Processor.UnfencedText | backend/src/processor/processor_manager.py:1345-1355 | Text without fences is only stripped. |
| Processor.FencedBlock | backend/src/processor/processor_manager.py:1345-1355 | The body of a fenced block, with or without a language tag, comes back as written. |
| Processor.NormalizeExactly | backend/src/processor/processor_manager.py:1430-1443 | The loop ends unless an entry raises, and then holds exactly the accepted pairs in order. |
| Processor.ExamineAsWritten | backend/src/processor/processor_manager.py:1432-1440 | As written: an entry raises iff it is malformed, is accepted iff its untrimmed question and answer are non-empty strings, and then gives the trimmed pair. |
| Processor.NormalizeQaAsWrittenExactly | backend/src/processor/processor_manager.py:1430-1443 | As written: a pair is in the result iff no entry is malformed and it is the trimmed pair of an accepted entry. Every pair is trimmed. |
| Processor.MalformedEmptiesAsWritten | backend/src/processor/processor_manager.py:1445-1447 | As written: a malformed entry anywhere empties the result. |
| Processor.Examine | backend/src/processor/processor_manager.py:1432-1440 | Corrected definition (see Findings): an entry raises iff it is malformed. It is accepted iff its trimmed question and answer are both non-empty, and then the pair is trimmed. |
| Processor.NormalizeQaExactly | backend/src/processor/processor_manager.py:1430-1447 | Corrected definition (see Findings): a pair is in the result iff no entry is malformed and it comes from a kept entry. Every pair is trimmed and non-empty. |
| Processor.MalformedEmpties | backend/src/processor/processor_manager.py:1445-1447 | Corrected definition (see Findings): a malformed entry anywhere empties the result. |
| Processor.BlankQuestionKept | backend/src/processor/processor_manager.py:1434-1440 | As written, `{"q": " ", "a": "x"}` yields a pair with an empty question. |
| Processor.BlankQuestionDropped | backend/src/processor/processor_manager.py:1434-1440 | With the intended check, the same entry is dropped. |
| ConfigLoader.FormatOf | backend/src/utils/config_loader.py:66-72 | `.yaml` and `.yml` are YAML, `.json` is JSON, and any other ending is unsupported. |
| ConfigLoader.DefaultCrawlerSettings | backend/src/utils/config_loader.py:100-105 | The defaults are depth 3, 10 threads and a 30-second timeout. |
| ConfigLoader.DefaultRagflowAddress | backend/src/utils/config_loader.py:114-117 | The RAGFlow address is `RAGFLOW_BASE_URL` when set, else `http://192.168.0.130`. |
| ConfigLoader.LoadOutcome | backend/src/utils/config_loader.py:59-79 | Falls back iff the file is missing, its ending is unsupported, or it does not parse. Otherwise it is the parsed file. |
| ConfigLoader.LoadStable | backend/src/utils/config_loader.py:59-79 | Loading again after a load reads the same configuration and writes nothing more. |
| ConfigLoader.ConfigStore.CreateDefaultConfig | backend/src/utils/config_loader.py:124-144 | Returns the defaults, written to the path when it can be written. The cache is unchanged. |
| ConfigLoader.ConfigStore.LoadConfig | backend/src/utils/config_loader.py:42-79 | Returns the loaded configuration, and the files are as after the fallback write. |
| ConfigLoader.ConfigStore.GetConfig | backend/src/utils/config_loader.py:33-39 | A set cache is returned without loading. Otherwise the loaded configuration becomes the cache. |
| ConfigLoader.ConfigStore.SaveConfig | backend/src/utils/config_loader.py:164-188 | On success the file and the cache hold the configuration. On failure nothing changes. |
| ConfigLoader.MergeStep | backend/src/utils/config_loader.py:207-211 | Handling one more key of the updates sets that key of the result and no other. |
| ConfigLoader.UpdateDict | backend/src/utils/config_loader.py:206-212 | The loop computes exactly the recursive merge. |
| ConfigLoader.ConfigStore.UpdateConfig | backend/src/utils/config_loader.py:191-220 | The cache becomes the merged configuration whether or not the save succeeds. Updating a non-dictionary configuration raises. The result is the save's success. |
| ConfigLoader.SavedConfigLoads | backend/src/utils/config_loader.py:164-176 | A configuration saved to a YAML or JSON path loads back unchanged. |
| ConfigLoader.SavedUnsupportedIgnored | backend/src/utils/config_loader.py:164-176 | A configuration saved under any other ending loads back as the defaults. |
| ConfigLoader.BareNameNotWritten | backend/src/utils/config_loader.py:166 | Saving to a bare file name always fails. |
| FileUtils.WalkAvoidsHidden | backend/src/utils/file_utils.py:79-82 | With `skip_hidden`, the walk never enters a dot-prefixed directory. |
| FileUtils.ExtSet | backend/src/utils/file_utils.py:77 | No extension filter iff the list is `None` or empty. Otherwise it is the lower-cased set. |
| FileUtils.Visible | backend/src/utils/file_utils.py:82 | With `skip_hidden`, exactly the names without a leading dot are kept. |
| FileUtils.ListedExactly | backend/src/utils/file_utils.py:79-94 | A path is listed iff some step of the walk has a visible file whose name passes the filters. |
| FileUtils.ListedPathsFiltered | backend/src/utils/file_utils.py:79-94 | Every listed path ends in a walked file name that passes the filters. |
| FileUtils.NothingToList | backend/src/utils/file_utils.py:72-74 | A missing directory lists nothing. |
| FileUtils.ExtensionCaseInsensitive | backend/src/utils/file_utils.py:77-90 | A name passes an extension list iff its lower-cased extension is a lower-cased entry. |
| FileUtils.UpperCaseExtensionListed | backend/src/utils/file_utils.py:88-90 | `README.TXT` passes the filter `[".txt"]`. |
| FileUtils.NoExtensionFilter | backend/src/utils/file_utils.py:77-90 | `None` and `[]` filter alike, and only by the name filter. |
| FileUtils.PickFiles | backend/src/utils/file_utils.py:84-92 | The loop over one step's names gives exactly the picked paths. |
| FileUtils.ListFiles | backend/src/utils/file_utils.py:53-94 | The listing is exactly the specified selection over the walk. |
| FileUtils.ReaderOf | backend/src/utils/file_utils.py:109-117 | `.html` and `.htm` share the HTML reader. Other endings outside the table have no reader. |
| FileUtils.ReadFile | backend/src/utils/file_utils.py:101-126 | A missing file or one without a reader gives "". Otherwise the result is the reader's text, or "" when the reader fails. |
| FileUtils.ReaderIgnoresCase | backend/src/utils/file_utils.py:107 | Extensions that differ only in letter case get the same reader. |
| FileUtils.HtmReadAsHtml | backend/src/utils/file_utils.py:107-113 | `page.HTM` is read as HTML. |
| FileUtils.EnsureDirectory | backend/src/utils/file_utils.py:216-220 | An empty path raises. Otherwise the directory exists afterwards. |
| FileUtils.EnsureDirectoryIdempotent | backend/src/utils/file_utils.py:216-220 | Ensuring a directory twice is ensuring it once. |
| Ragflow.MetadataBase | backend/src/ragflow/ragflow_manager.py:512-518 | `_summarized_qa_csv` is removed before `_summarized` is looked for. `_qa_json` is not looked for. |
| Ragflow.Candidate | backend/src/ragflow/ragflow_manager.py:521 | The candidate holds no '_'. |
| Ragflow.GenerateMetadata | backend/src/ragflow/ragflow_manager.py:501-533 | `None` iff the candidate fails `is_valid_url`. Otherwise the URL is the candidate (valid, with no '_'), with the current hour. |
| Ragflow.AgreesWithFilenameToUrl | backend/src/ragflow/ragflow_manager.py:535-555 | The shared URL pattern makes the metadata URL what `filename_to_url` gives, wherever both strip the name alike. |
| Ragflow.QaJsonMarkerKept | backend/src/ragflow/ragflow_manager.py:515-518 | A `_qa_json` marker stays in the metadata's candidate, unlike in `filename_to_url`. |

## Left out

- Threads, locks and the sleep loops are not modelled. This covers the crawl workers, the monitor thread and `_scheduler_worker`. One sequential worker and an abstract clock stand in for them.
- HTTP and language-model calls are parameters. `_crawl_url`'s fetch and `_download_pdf` are a `Fetch` input, and `_generate_summary` and the question-and-answer calls are outside the model. RAGFlow's client and dataset functions are not part of this model.
- HTML extraction (BeautifulSoup, html2text) is not modelled. A page's absolute links and text are inputs.
- TaskManager.Created: a task whose `created_at` is missing or not a string sorts under the key "", where the source's `x['created_at']` raises KeyError or TypeError. Only a record loaded from disk can lack it, and loading is not modelled (below).
- File-system and JSON/YAML persistence are not modelled. This covers `_save_tasks`/`_load_tasks`, every `json.dump` of a repository record, `_load_repositories`, and config files (an abstract map from path to parsed value). Directory removal and RAGFlow dataset deletion in `delete_repository` are also left out, as is its cancelling of the repository's tasks.
- `get_all_repositories`, `get_repository_summary_files` and `get_repository_qa_files` are not modelled. They are directory listings outside the core.
- Tokenizers, MD5 hashing and the PDF, HTML and spreadsheet readers are not modelled. Token counts and content hashes are inputs, and `read_file`'s readers are a parameter.
- `read_file_content` is not modelled separately. It is an alias of `read_file`.
- `calculate_hash` is not modelled. It is MD5.
- Whether a file's summary or question-and-answer work succeeds is the `generated` flag of a `Processor.SourceFile`. The language-model calls, the file writes and the exceptions behind it are not modelled; a chunk size of 0 is the one failure the model derives itself (`Processor.FileChunks`).
- Progress percentages are not modelled. They only feed status reports.
- `_check_scheduled_tasks` and `_execute_auto_update_task` are left out. They call the crawler and the repository manager through the threads above. Their effect on `last_auto_update` is stated as `Scheduler.RecordedUpdateNotDueSameDay`.
- Time zones are not modelled. The scheduler's dates are calendar dates, ISO parsing is a parameter, and `pytz` localisation is not modelled.
- Regular expressions for blocklist patterns go through an abstract search. It reports a match, no match, or a pattern that does not compile.
- The default configuration path is not modelled. It is absolute and depends on the install location, so a missing path argument is an abstract constant path.
- Crawler.Step: only covers the outcome of one iteration for the task being crawled. The `task_done` bookkeeping of `queue.Queue` has no observable effect here and is not modelled.
- Crawler.CrawlManager.MonitorCheck: the clock and the last-write times are whole seconds (`now: int`), where the source compares the float `total_seconds()` of two datetimes. Readings are taken as truncated to the second, so within one second of the 180-second timeout the model can still wait where the source completes the task (last write at 0.1 s, check at 180.9 s).
- TaskManager.TaskManager.CleanOldTasks: `now` and the parsed creation times are whole seconds, where the source compares the float `time.time()` cut-off with the float `.timestamp()` of each `created_at`. Readings are taken as truncated to the second, so a task created less than a second before the cut-off can be kept where the source removes it.
- Processor.PackParagraph: compares `current_chars + para_chars <= target_chars * 1.2` as the integer test `5*(c+p) <= 6*t`. The rounding of the floating-point product is not modelled.
- Processor.ParseInt: accepts ASCII digits only, not the other Unicode decimal digits `int()` also accepts. Surrounding whitespace is already stripped by the caller.
- UrlUtils.UrlParse: a subset of `urlparse`. It does not check IPv6 brackets or NFKC-normalised network locations, and it does not handle the special cases for non-hierarchical schemes.
- Strings.Lower: lower-cases ASCII letters only, where Python lower-cases all of Unicode.
- ConfigLoader.ConfigStore.SaveConfig: writing succeeds iff the path has a directory part and the file system allows it. Any other I/O error is folded into that one flag.
- ConfigLoader.ConfigStore.CreateDefaultConfig: `os.makedirs` of missing ancestors and partial writes are not modelled. A write either happens completely or not at all.

## Findings

| source | as written | input that shows it | evidently intended | confidence | as-written member | corrected member |
|---|---|---|---|---|---|---|
| backend/src/processor/processor_manager.py:1434-1440 | The emptiness check on the question and the answer happens before `.strip()`, so whitespace-only text passes the check and is stored stripped, as "". | `[{"q": " ", "a": "x"}]` yields `[{"q": "", "a": "x"}]` | Keep only pairs whose stripped question and answer are both non-empty | not executed | Processor.BlankQuestionKept | Processor.BlankQuestionDropped |
