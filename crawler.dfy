/** The crawl engine of `crawler/crawler_manager.py`: the per-task status record, the
    link filter and blocklist, the worker's seeding (with incremental pre-marking), one
    iteration of a crawl thread, the pause/resume/stop controls and the inactivity
    monitor. One worker runs sequentially; fetching, the clock and the regular-expression
    engine are inputs. */
module Crawler {
  import opened Wrappers
  import opened Strings
  import UrlUtils
  import Repository
  import Json

  datatype Status = Running | Paused | Stopped | Completed | Failed

  /** `urls` as `start_crawl` receives it: a single URL or a list of them. */
  datatype Seeds = One(url: string) | Many(urls: seq<string>)

  function SeedList(seeds: Seeds): seq<string> {
    match seeds
    case One(u) => [u]
    case Many(us) => us
  }

  /** The entry `crawl_status[task_id]`. Times are seconds on an abstract clock. */
  datatype CrawlStatus = CrawlStatus(
    status: Status,
    repositoryName: string,
    urls: seq<string>,
    maxDepth: int,
    maxThreads: int,
    incremental: bool,
    startTime: int,
    endTime: Option<int>,
    totalUrls: nat,
    crawledUrls: nat,
    failedUrls: nat,
    currentUrls: seq<string>,
    error: Option<string>)

  const DefaultMaxDepth: int := 3
  const DefaultMaxThreads: int := 10
  /** Seconds without a written file after which the monitor declares the crawl complete. */
  const InactivityTimeout: int := 180

  /** A `start_crawl` parameter: the value given, else the crawler configuration's, else the default. */
  function ParamOrDefault(given: Option<int>, config: map<string, int>, key: string, default: int): (r: int)
    ensures given.Some? ==> r == given.value
    ensures given.None? && key in config ==> r == config[key]
    ensures given.None? && key !in config ==> r == default
  {
    if given.Some? then given.value else if key in config then config[key] else default
  }

  // ----- blocklist -----

  /** Every line, stripped. */
  function StripAll(lines: seq<string>): (r: seq<string>)
    ensures |r| == |lines| && forall i :: 0 <= i < |lines| ==> r[i] == Strip(lines[i])
  {
    seq(|lines|, i requires 0 <= i < |lines| => Strip(lines[i]))
  }

  /** `init`: the blocklist setting holds one pattern per line, stripped; blank lines are dropped. */
  function ParseBlocklist(text: string): (r: seq<string>)
    ensures forall i :: 0 <= i < |r| ==> r[i] != "" && r[i] in StripAll(SplitStr(text, "\n"))
    ensures forall l :: l in StripAll(SplitStr(text, "\n")) && l != "" ==> l in r
  {
    Filter(StripAll(SplitStr(text, "\n")), (l: string) => l != "")
  }

  /** What `re.search(pattern, url)` does: report whether it found a match, or raise
      `re.error` because the pattern does not compile. */
  datatype Search = Matched(found: bool) | BadPattern

  /** One pattern blocks a URL when it matches, or, when it is not a valid regular
      expression, when it occurs in the URL literally. */
  predicate PatternBlocks(pattern: string, url: string, search: (string, string) -> Search) {
    match search(pattern, url)
    case Matched(found) => found
    case BadPattern => Contains(url, pattern)
  }

  /** `_is_url_blocked`: the patterns are tried in order and the first that blocks decides. */
  predicate IsUrlBlocked(url: string, blocklist: seq<string>, search: (string, string) -> Search)
    decreases |blocklist|
  {
    if blocklist == [] then false
    else PatternBlocks(blocklist[0], url, search) || IsUrlBlocked(url, blocklist[1..], search)
  }

  /** A URL is blocked exactly when some pattern of the list blocks it; an empty list blocks nothing. */
  lemma {:induction false} BlockedIffSomePattern(url: string, blocklist: seq<string>, search: (string, string) -> Search)
    ensures IsUrlBlocked(url, blocklist, search) <==>
      exists i :: 0 <= i < |blocklist| && PatternBlocks(blocklist[i], url, search)
    decreases |blocklist|
  {
    if blocklist != [] {
      BlockedIffSomePattern(url, blocklist[1..], search);
      if IsUrlBlocked(url, blocklist[1..], search) {
        var i :| 0 <= i < |blocklist[1..]| && PatternBlocks(blocklist[1..][i], url, search);
        assert PatternBlocks(blocklist[i + 1], url, search);
      }
      if exists i :: 0 <= i < |blocklist| && PatternBlocks(blocklist[i], url, search) {
        var i :| 0 <= i < |blocklist| && PatternBlocks(blocklist[i], url, search);
        if i > 0 {
          assert blocklist[1..][i - 1] == blocklist[i];
        }
      }
    }
  }

  // ----- link filter -----

  const ExcludedExtensions: seq<string> := [".jpg", ".jpeg", ".png", ".gif", ".css", ".js", ".xml", ".json"]

  /** The lower-cased path ends in one of the excluded extensions. */
  predicate HasExcludedExtension(path: string) {
    exists i :: 0 <= i < |ExcludedExtensions| && EndsWith(Lower(path), ExcludedExtensions[i])
  }

  /** `_should_crawl_url(url, parent_url)`. */
  predicate ShouldCrawlUrl(url: string, parent: string) {
    var u := UrlUtils.UrlParse(url);
    u.netloc == UrlUtils.UrlParse(parent).netloc
    && (u.scheme == "http" || u.scheme == "https")
    && !HasExcludedExtension(u.path)
  }

  /** On a URL built from well-formed components, the filter accepts exactly the same host,
      an http or https scheme, and a path without an excluded extension. */
  lemma ShouldCrawlComponents(scheme: string, netloc: string, path: string, query: string, fragment: string, parent: string)
    requires UrlUtils.IsSchemeName(scheme)
    requires UrlUtils.NoUnsafe(netloc) && UrlUtils.NoUnsafe(path) && UrlUtils.NoUnsafe(query) && UrlUtils.NoUnsafe(fragment)
    requires forall c :: c in netloc ==> !UrlUtils.IsDelimiter(c)
    requires path == "" || path[0] == '/'
    requires '?' !in path && '#' !in path && '#' !in query && ';' !in path
    ensures ShouldCrawlUrl(UrlUtils.Unsplit(scheme, netloc, path, query, fragment), parent) <==>
      netloc == UrlUtils.UrlParse(parent).netloc && (scheme == "http" || scheme == "https") && !HasExcludedExtension(path)
  {
    UrlUtils.ParseUnsplit(scheme, netloc, path, query, fragment);
  }

  /** The links `_crawl_url` returns: those the filter accepts, in page order. */
  function CrawlableLinks(links: seq<string>, parent: string): (r: seq<string>)
    ensures forall i :: 0 <= i < |r| ==> r[i] in links && ShouldCrawlUrl(r[i], parent)
    ensures forall l :: l in links && ShouldCrawlUrl(l, parent) ==> l in r
  {
    Filter(links, (l: string) => ShouldCrawlUrl(l, parent))
  }

  /** A URL is downloaded as a PDF when its lower-cased text ends in ".pdf". */
  predicate IsPdf(url: string) {
    EndsWith(Lower(url), ".pdf")
  }

  // ----- seeding -----

  /** `filename_to_url` applied to each existing file name, in listing order. */
  function Decodings(files: seq<string>): (r: seq<Option<string>>)
    ensures |r| == |files| && forall i :: 0 <= i < |files| ==> r[i] == UrlUtils.FilenameToUrl(files[i])
  {
    seq(|files|, i requires 0 <= i < |files| => UrlUtils.FilenameToUrl(files[i]))
  }

  /** The URLs the pre-marking loop adds: every decoding that is not None. */
  function Accepted(ds: seq<Option<string>>): (r: set<string>)
    ensures forall u :: u in r <==> exists i :: 0 <= i < |ds| && ds[i] == Some(u)
    decreases |ds|
  {
    if ds == [] then {}
    else
      var init := ds[..|ds| - 1];
      var r0 := Accepted(init);
      var last := ds[|ds| - 1];
      assert forall i :: 0 <= i < |init| ==> init[i] == ds[i];
      if last.Some? then r0 + {last.value} else r0
  }

  /** One more decoding adds its URL, if any. */
  lemma AcceptedStep(ds: seq<Option<string>>, i: int)
    requires 0 <= i < |ds|
    ensures Accepted(ds[..i + 1]) == Accepted(ds[..i]) + (if ds[i].Some? then {ds[i].value} else {})
  {
    assert ds[..i + 1][..i] == ds[..i];
  }

  /** The URLs incremental crawling marks as already crawled: the decodings of the existing
      file names that `filename_to_url` accepts. */
  function PreMarked(files: seq<string>): set<string> {
    Accepted(Decodings(files))
  }

  /** No pre-marked URL is ever a link the crawler follows: a valid URL has no scheme, while
      the filter wants http or https. Incremental pre-marking therefore never keeps a page
      from being fetched again. */
  lemma PreMarkedNeverCrawlable(files: seq<string>, link: string, parent: string)
    requires link in PreMarked(files)
    ensures !ShouldCrawlUrl(link, parent)
  {
    var i :| 0 <= i < |files| && Decodings(files)[i] == Some(link);
    UrlUtils.ValidUrlHasEmptyScheme(link);
  }

  /** The queue the worker starts from: every seed at depth 0, duplicates included. */
  function SeedQueue(urls: seq<string>): (r: seq<(string, int)>)
    ensures |r| == |urls|
    ensures forall k :: 0 <= k < |r| ==> r[k] == (urls[k], 0)
  {
    seq(|urls|, k requires 0 <= k < |urls| => (urls[k], 0))
  }

  /** The pre-marking loop of `_crawl_worker`. */
  method CollectPreMarked(files: seq<string>) returns (marked: set<string>)
    ensures marked == PreMarked(files)
  {
    ghost var ds := Decodings(files);
    marked := {};
    var i := 0;
    while i < |files|
      invariant 0 <= i <= |files|
      invariant marked == Accepted(ds[..i])
    {
      AcceptedStep(ds, i);
      var url := UrlUtils.FilenameToUrl(files[i]);
      assert url == ds[i];
      if url.Some? {
        marked := marked + {url.value};
      }
      i := i + 1;
    }
    assert ds[..i] == ds;
  }

  /** The seeding loop of `_crawl_worker`. */
  method BuildSeedQueue(urls: seq<string>) returns (queue: seq<(string, int)>)
    ensures queue == SeedQueue(urls)
  {
    queue := [];
    var j := 0;
    while j < |urls|
      invariant 0 <= j <= |urls|
      invariant |queue| == j && forall k :: 0 <= k < j ==> queue[k] == (urls[k], 0)
    {
      queue := queue + [(urls[j], 0)];
      j := j + 1;
    }
  }

  // ----- one crawl step -----

  /** `current_urls` after a URL is taken: appended unless already listed. */
  function Track(current: seq<string>, url: string): seq<string> {
    if url in current then current else current + [url]
  }

  /** `list.remove` guarded by a membership test: drops the first occurrence, if any. */
  function RemoveFirst(s: seq<string>, x: string): (r: seq<string>)
    ensures |r| == if x in s then |s| - 1 else |s|
    ensures forall y :: y in r ==> y in s
    ensures x !in s ==> r == s
  {
    if s == [] then []
    else if s[0] == x then s[1..]
    else [s[0]] + RemoveFirst(s[1..], x)
  }

  /** Removing drops exactly one occurrence of `x`, if there is one. */
  lemma {:induction false} RemoveFirstMultiset(s: seq<string>, x: string)
    ensures multiset(RemoveFirst(s, x)) == multiset(s) - multiset{x}
  {
    if s != [] {
      assert s == [s[0]] + s[1..];
      if s[0] != x {
        RemoveFirstMultiset(s[1..], x);
      }
    }
  }

  predicate NoDuplicates(s: seq<string>) {
    forall i, j :: 0 <= i < j < |s| ==> s[i] != s[j]
  }

  /** The entries the enqueue loop adds: each link not yet visited, at the given depth, in order. */
  function Enqueued(links: seq<string>, visited: set<string>, depth: int): (r: seq<(string, int)>)
    ensures |r| <= |links|
    ensures forall k :: 0 <= k < |r| ==> r[k].1 == depth && r[k].0 in links && r[k].0 !in visited
    ensures forall l :: l in links && l !in visited ==> (l, depth) in r
    decreases |links|
  {
    if links == [] then []
    else
      var init := links[..|links| - 1];
      var last := links[|links| - 1];
      var r0 := Enqueued(init, visited, depth);
      assert forall l :: l in links ==> l in init || l == last;
      assert forall l :: l in init ==> l in links;
      if last in visited then r0 else r0 + [(last, depth)]
  }

  /** A file written to the repository directory: `url_to_filename(url)` plus the extension. */
  datatype SavedFile = SavedFile(url: string, extension: string) {
    function Name(): (r: string)
      ensures |r| <= UrlUtils.MaxFilenameLength + |extension|
    {
      UrlUtils.UrlToFilename(url) + extension
    }
  }

  /** What a crawl thread works on for one task: the shared queue and visited set, the
      task's status entry, the names of the files written and the time of the last write. */
  datatype Engine = Engine(
    queue: seq<(string, int)>,
    visited: set<string>,
    task: CrawlStatus,
    saved: seq<SavedFile>,
    lastWrite: int)

  function Max0(n: int): int { if n < 0 then 0 else n }

  /** What every step keeps: no entry deeper than the maximum depth (the seeds sit at 0),
      at most one outcome per counted URL, and each URL listed once in `current_urls`. */
  predicate Inv(e: Engine) {
    (forall k :: 0 <= k < |e.queue| ==> 0 <= e.queue[k].1 <= Max0(e.task.maxDepth))
    && e.task.crawledUrls + e.task.failedUrls + |e.queue| <= e.task.totalUrls
    && NoDuplicates(e.task.currentUrls)
  }

  /** The URLs a fetched page adds to the queue, with the depth check of the enqueue loop. */
  function Added(e: Engine, links: seq<string>, visited: set<string>, depth: int): seq<(string, int)> {
    if depth < e.task.maxDepth then Enqueued(links, visited, depth + 1) else []
  }

  /** What fetching a URL produced: for a page, the text and the absolute links found on it;
      for a PDF, a completed download; or the exception raised. */
  datatype Fetch = Fetched(content: string, links: seq<string>) | FetchFailed(error: string)

  /** What `_crawl_url` hands back to the thread: the page's links pass through the filter. */
  function Received(fetch: Fetch, url: string): (r: Fetch)
    ensures r.Fetched? <==> fetch.Fetched?
    ensures r.Fetched? ==> r.content == fetch.content && r.links == CrawlableLinks(fetch.links, url)
  {
    match fetch
    case Fetched(content, links) => Fetched(content, CrawlableLinks(links, url))
    case FetchFailed(error) => fetch
  }

  /** `url_queue.popleft()`: the head leaves the queue and is listed in `current_urls`. */
  function Taken(e: Engine): Engine
    requires e.queue != []
  {
    e.(queue := e.queue[1..], task := e.task.(currentUrls := Track(e.task.currentUrls, e.queue[0].0)))
  }

  /** The exception handler of `_crawl_url`: one more failure, the URL no longer current. */
  function FetchError(h: Engine, url: string): Engine {
    h.(task := h.task.(failedUrls := h.task.failedUrls + 1, currentUrls := RemoveFirst(h.task.currentUrls, url)))
  }

  /** `_save_content` or `_download_pdf`: one more file, and the inactivity clock reset. */
  function Written(h: Engine, url: string, extension: string, now: int): Engine {
    h.(saved := h.saved + [SavedFile(url, extension)], lastWrite := now)
  }

  /** Marking a fetched URL: visited, counted as crawled when `counted`, no longer current. */
  function Marked(h: Engine, url: string, counted: bool): Engine {
    h.(visited := h.visited + {url},
       task := h.task.(crawledUrls := h.task.crawledUrls + (if counted then 1 else 0),
                       currentUrls := RemoveFirst(h.task.currentUrls, url)))
  }

  /** The enqueue loop: below the maximum depth, each link not yet visited is queued one
      level deeper and adds one to `total_urls`. */
  function LinksQueued(h: Engine, links: seq<string>, depth: int): Engine {
    var added := Added(h, links, h.visited, depth);
    h.(queue := h.queue + added, task := h.task.(totalUrls := h.task.totalUrls + |added|))
  }

  /** A downloaded PDF: written under its own extension, then visited and counted. */
  function PdfSaved(h: Engine, url: string, now: int): Engine {
    Marked(Written(h, url, ".pdf", now), url, true)
  }

  /** A fetched page: written when it has content and `save` (not blocked), visited,
      counted when `save`, and its links queued. */
  function PageSaved(h: Engine, url: string, depth: int, content: string, links: seq<string>, save: bool, now: int): Engine {
    var w := if content != "" && save then Written(h, url, ".txt", now) else h;
    LinksQueued(Marked(w, url, save), links, depth)
  }

  /** What follows the pop in `_crawl_thread`, for `url` taken at `depth`, given what
      `_crawl_url` (or the PDF download) produced: skip it if visited; otherwise a
      failure, a PDF or a page as above. */
  function Outcome(h: Engine, url: string, depth: int, fetch: Fetch, blocklist: seq<string>, search: (string, string) -> Search, now: int): Engine {
    if url in h.visited then h
    else if fetch.FetchFailed? then FetchError(h, url)
    else if IsPdf(url) then PdfSaved(h, url, now)
    else PageSaved(h, url, depth, fetch.content, fetch.links, !IsUrlBlocked(url, blocklist, search), now)
  }

  /** One iteration of `_crawl_thread` on a non-empty queue. */
  function StepSpec(e: Engine, fetch: Fetch, blocklist: seq<string>, search: (string, string) -> Search, now: int): Engine
    requires e.queue != []
  {
    Outcome(Taken(e), e.queue[0].0, e.queue[0].1, fetch, blocklist, search, now)
  }

  /** Every step keeps the invariant. */
  lemma StepKeepsInv(e: Engine, fetch: Fetch, blocklist: seq<string>, search: (string, string) -> Search, now: int)
    requires e.queue != [] && Inv(e)
    ensures Inv(StepSpec(e, fetch, blocklist, search, now))
  {
    var url := e.queue[0].0;
    TrackNoDuplicates(e.task.currentUrls, url);
    RemoveNoDuplicates(Track(e.task.currentUrls, url), url);
    if url in e.visited {
      InvSkip(e, fetch, blocklist, search, now);
    } else if fetch.FetchFailed? {
      InvFailure(e, fetch, blocklist, search, now);
    } else if IsPdf(url) {
      InvPdf(e, fetch, blocklist, search, now);
    } else {
      InvPage(e, fetch, blocklist, search, now);
    }
  }

  lemma InvSkip(e: Engine, fetch: Fetch, blocklist: seq<string>, search: (string, string) -> Search, now: int)
    requires e.queue != [] && Inv(e) && e.queue[0].0 in e.visited
    requires NoDuplicates(Track(e.task.currentUrls, e.queue[0].0))
    ensures Inv(StepSpec(e, fetch, blocklist, search, now))
  {
    InvFrom(e, StepSpec(e, fetch, blocklist, search, now), []);
  }

  lemma InvFailure(e: Engine, fetch: Fetch, blocklist: seq<string>, search: (string, string) -> Search, now: int)
    requires e.queue != [] && Inv(e) && e.queue[0].0 !in e.visited && fetch.FetchFailed?
    requires NoDuplicates(RemoveFirst(Track(e.task.currentUrls, e.queue[0].0), e.queue[0].0))
    ensures Inv(StepSpec(e, fetch, blocklist, search, now))
  {
    InvFrom(e, StepSpec(e, fetch, blocklist, search, now), []);
  }

  lemma InvPdf(e: Engine, fetch: Fetch, blocklist: seq<string>, search: (string, string) -> Search, now: int)
    requires e.queue != [] && Inv(e) && e.queue[0].0 !in e.visited && fetch.Fetched? && IsPdf(e.queue[0].0)
    requires NoDuplicates(RemoveFirst(Track(e.task.currentUrls, e.queue[0].0), e.queue[0].0))
    ensures Inv(StepSpec(e, fetch, blocklist, search, now))
  {
    InvFrom(e, StepSpec(e, fetch, blocklist, search, now), []);
  }

  lemma InvPage(e: Engine, fetch: Fetch, blocklist: seq<string>, search: (string, string) -> Search, now: int)
    requires e.queue != [] && Inv(e) && e.queue[0].0 !in e.visited && fetch.Fetched? && !IsPdf(e.queue[0].0)
    requires NoDuplicates(RemoveFirst(Track(e.task.currentUrls, e.queue[0].0), e.queue[0].0))
    ensures Inv(StepSpec(e, fetch, blocklist, search, now))
  {
    var visited := e.visited + {e.queue[0].0};
    AddedDepths(e, fetch.links, visited, e.queue[0].1);
    InvFrom(e, StepSpec(e, fetch, blocklist, search, now), Added(e, fetch.links, visited, e.queue[0].1));
  }

  /** The invariant after a step, from what the step does to the queue and the counters. */
  lemma InvFrom(e: Engine, r: Engine, added: seq<(string, int)>)
    requires Inv(e) && e.queue != []
    requires r.queue == e.queue[1..] + added
    requires forall k :: 0 <= k < |added| ==> 0 <= added[k].1 <= Max0(e.task.maxDepth)
    requires r.task.maxDepth == e.task.maxDepth
    requires r.task.crawledUrls + r.task.failedUrls <= e.task.crawledUrls + e.task.failedUrls + 1
    requires r.task.totalUrls == e.task.totalUrls + |added|
    requires NoDuplicates(r.task.currentUrls)
    ensures Inv(r)
  {
    QueueDepths(e.queue[1..], added, Max0(e.task.maxDepth));
  }

  /** Listing a URL as current keeps the list free of duplicates and puts the URL in it. */
  lemma TrackNoDuplicates(s: seq<string>, url: string)
    requires NoDuplicates(s)
    ensures NoDuplicates(Track(s, url)) && url in Track(s, url)
  {
    if url !in s {
      var r := s + [url];
      forall i, j | 0 <= i < j < |r| ensures r[i] != r[j] {
        if j == |s| {
          assert r[i] in s;
        }
      }
    }
  }

  /** Removing a URL from a list without duplicates keeps it without duplicates and
      leaves no occurrence of the URL. */
  lemma {:induction false} RemoveNoDuplicates(s: seq<string>, url: string)
    requires NoDuplicates(s)
    ensures NoDuplicates(RemoveFirst(s, url)) && url !in RemoveFirst(s, url)
  {
    if s != [] {
      var tail := s[1..];
      assert NoDuplicates(tail) by {
        forall i, j | 0 <= i < j < |tail| ensures tail[i] != tail[j] {
          assert tail[i] == s[i + 1] && tail[j] == s[j + 1];
        }
      }
      assert forall k :: 0 <= k < |tail| ==> tail[k] == s[k + 1] && s[0] != s[k + 1];
      if s[0] != url {
        RemoveNoDuplicates(tail, url);
        var r0 := RemoveFirst(tail, url);
        var r := [s[0]] + r0;
        forall i, j | 0 <= i < j < |r| ensures r[i] != r[j] {
          if i == 0 {
            assert r[j] in r0;
          } else {
            assert r[i] == r0[i - 1] && r[j] == r0[j - 1];
          }
        }
      }
    }
  }

  lemma AddedDepths(e: Engine, links: seq<string>, visited: set<string>, depth: int)
    requires 0 <= depth <= Max0(e.task.maxDepth)
    ensures forall k :: 0 <= k < |Added(e, links, visited, depth)| ==>
      0 <= Added(e, links, visited, depth)[k].1 <= Max0(e.task.maxDepth)
  {
  }

  lemma QueueDepths(rest: seq<(string, int)>, added: seq<(string, int)>, bound: int)
    requires forall k :: 0 <= k < |rest| ==> 0 <= rest[k].1 <= bound
    requires forall k :: 0 <= k < |added| ==> 0 <= added[k].1 <= bound
    ensures forall k :: 0 <= k < |rest + added| ==> 0 <= (rest + added)[k].1 <= bound
  {
  }

  /** The enqueue loop of `_crawl_thread`: every link not yet visited goes to the back of
      the queue at the given depth, and each adds one to the count. */
  method EnqueueLinks(queue: seq<(string, int)>, links: seq<string>, visited: set<string>, depth: int)
    returns (q: seq<(string, int)>, added: nat)
    ensures q == queue + Enqueued(links, visited, depth)
    ensures added == |Enqueued(links, visited, depth)|
  {
    q := queue;
    added := 0;
    var i := 0;
    while i < |links|
      invariant 0 <= i <= |links|
      invariant q == queue + Enqueued(links[..i], visited, depth)
      invariant added == |Enqueued(links[..i], visited, depth)|
    {
      assert links[..i + 1][..i] == links[..i];
      var link := links[i];
      if link !in visited {
        q := q + [(link, depth)];
        added := added + 1;
      }
      i := i + 1;
    }
    assert links[..i] == links;
  }

  /** The state right after seeding satisfies the invariant. */
  lemma SeedInv(e: Engine)
    requires forall k :: 0 <= k < |e.queue| ==> e.queue[k].1 == 0
    requires e.task.totalUrls == |e.queue| && e.task.crawledUrls == 0 && e.task.failedUrls == 0
    requires e.task.currentUrls == []
    ensures Inv(e)
  {
  }

  /** A URL already visited is skipped without a fetch and without touching a counter, the
      visited set or the files; it stays listed in `current_urls`. */
  lemma StepSkipsVisited(e: Engine, fetch: Fetch, blocklist: seq<string>, search: (string, string) -> Search, now: int)
    requires e.queue != [] && e.queue[0].0 in e.visited
    ensures var r := StepSpec(e, fetch, blocklist, search, now);
      r.queue == e.queue[1..] && r.visited == e.visited && r.saved == e.saved
      && r.task.totalUrls == e.task.totalUrls && r.task.crawledUrls == e.task.crawledUrls
      && r.task.failedUrls == e.task.failedUrls && e.queue[0].0 in r.task.currentUrls
  {
  }

  /** A failed fetch counts one failure, is not marked visited and leaves `current_urls`. */
  lemma StepFailure(e: Engine, error: string, blocklist: seq<string>, search: (string, string) -> Search, now: int)
    requires e.queue != [] && e.queue[0].0 !in e.visited && Inv(e)
    ensures var r := StepSpec(e, FetchFailed(error), blocklist, search, now);
      r.visited == e.visited && e.queue[0].0 !in r.visited
      && r.task.failedUrls == e.task.failedUrls + 1 && r.task.crawledUrls == e.task.crawledUrls
      && r.queue == e.queue[1..] && r.saved == e.saved
      && e.queue[0].0 !in r.task.currentUrls
  {
    var url := e.queue[0].0;
    TrackNoDuplicates(e.task.currentUrls, url);
    RemoveNoDuplicates(Track(e.task.currentUrls, url), url);
  }

  /** A PDF bypasses the blocklist: it is written, counted and marked visited, and adds
      nothing to the queue. */
  lemma StepPdf(e: Engine, content: string, links: seq<string>, blocklist: seq<string>, search: (string, string) -> Search, now: int)
    requires e.queue != [] && e.queue[0].0 !in e.visited && IsPdf(e.queue[0].0)
    ensures var r := StepSpec(e, Fetched(content, links), blocklist, search, now);
      r.queue == e.queue[1..] && r.visited == e.visited + {e.queue[0].0}
      && r.task.crawledUrls == e.task.crawledUrls + 1 && r.task.totalUrls == e.task.totalUrls
      && r.saved == e.saved + [SavedFile(e.queue[0].0, ".pdf")]
  {
  }

  /** A blocked page writes no file and is not counted, yet it is marked visited and its
      links are still enqueued. */
  lemma StepBlockedPage(e: Engine, content: string, links: seq<string>, blocklist: seq<string>, search: (string, string) -> Search, now: int)
    requires e.queue != [] && e.queue[0].0 !in e.visited && !IsPdf(e.queue[0].0)
    requires IsUrlBlocked(e.queue[0].0, blocklist, search)
    ensures var r := StepSpec(e, Fetched(content, links), blocklist, search, now);
      r.saved == e.saved && r.lastWrite == e.lastWrite
      && r.task.crawledUrls == e.task.crawledUrls && e.queue[0].0 in r.visited
      && r.queue == e.queue[1..] + Added(e, links, e.visited + {e.queue[0].0}, e.queue[0].1)
  {
  }

  /** An unblocked page is counted even when its content is empty; only a page with
      content is written. */
  lemma StepUnblockedPage(e: Engine, content: string, links: seq<string>, blocklist: seq<string>, search: (string, string) -> Search, now: int)
    requires e.queue != [] && e.queue[0].0 !in e.visited && !IsPdf(e.queue[0].0)
    requires !IsUrlBlocked(e.queue[0].0, blocklist, search)
    ensures var r := StepSpec(e, Fetched(content, links), blocklist, search, now);
      r.task.crawledUrls == e.task.crawledUrls + 1
      && (r.saved == e.saved <==> content == "")
  {
  }

  /** Links go into the queue only below the maximum depth, one level deeper, only when not
      yet visited (the page itself included), and each one adds 1 to `total_urls`. */
  lemma StepEnqueues(e: Engine, content: string, links: seq<string>, blocklist: seq<string>, search: (string, string) -> Search, now: int)
    requires e.queue != [] && e.queue[0].0 !in e.visited && !IsPdf(e.queue[0].0)
    ensures var r := StepSpec(e, Fetched(content, links), blocklist, search, now);
      var added := r.queue[|e.queue| - 1..];
      r.queue[..|e.queue| - 1] == e.queue[1..]
      && r.task.totalUrls == e.task.totalUrls + |added|
      && (e.queue[0].1 >= e.task.maxDepth ==> added == [])
      && (forall k :: 0 <= k < |added| ==>
            added[k].1 == e.queue[0].1 + 1 && added[k].0 !in e.visited && added[k].0 != e.queue[0].0
            && added[k].0 in links)
  {
  }

  /** Only links that pass `_should_crawl_url` against the page reach the queue. */
  lemma ReceivedLinksCrawlable(fetch: Fetch, url: string)
    requires fetch.Fetched?
    ensures forall l :: l in Received(fetch, url).links ==> l in fetch.links && ShouldCrawlUrl(l, url)
  {
  }

  /** Two updates of the same key are one update. */
  lemma UpdateTwice(m0: map<string, CrawlStatus>, m1: map<string, CrawlStatus>, m2: map<string, CrawlStatus>, k: string)
    requires k in m1 && m1 == m0[k := m1[k]]
    requires k in m2 && m2 == m1[k := m2[k]]
    ensures m2 == m0[k := m2[k]]
  {
  }

  // ----- the task registry and worker -----

  /** The module's globals: `crawl_status`, `last_file_time`, the shared `url_queue` and
      `crawled_urls`, the blocklist, and the names of the files written so far. */
  class CrawlManager {
    var statuses: map<string, CrawlStatus>
    var lastFileTime: map<string, int>
    var queue: seq<(string, int)>
    var visited: set<string>
    var blocklist: seq<string>
    var saved: seq<SavedFile>
    /** The regular-expression engine behind `re.search`. */
    const search: (string, string) -> Search

    constructor (search: (string, string) -> Search)
      ensures statuses == map[] && lastFileTime == map[] && queue == [] && visited == {}
      ensures blocklist == [] && saved == [] && this.search == search
    {
      statuses := map[];
      lastFileTime := map[];
      queue := [];
      visited := {};
      blocklist := [];
      saved := [];
      this.search := search;
    }

    /** The state a crawl thread of `taskId` sees. */
    function EngineOf(taskId: string): Engine
      reads this
      requires taskId in statuses && taskId in lastFileTime
    {
      Engine(queue, visited, statuses[taskId], saved, lastFileTime[taskId])
    }

    predicate Valid(taskId: string)
      reads this
    {
      taskId in statuses && taskId in lastFileTime && Inv(EngineOf(taskId))
    }

    /** `init`: a non-empty blocklist setting replaces the blocklist. */
    method LoadBlocklist(setting: Option<string>)
      modifies this
      ensures setting.Some? && setting.value != "" ==> blocklist == ParseBlocklist(setting.value)
      ensures !(setting.Some? && setting.value != "") ==> blocklist == old(blocklist)
      ensures statuses == old(statuses) && lastFileTime == old(lastFileTime) && queue == old(queue)
      ensures visited == old(visited) && saved == old(saved)
    {
      if setting.Some? && setting.value != "" {
        blocklist := ParseBlocklist(setting.value);
      }
    }

    /** `start_crawl`: fill in the depth and thread count, register the task as running
        with zero counters, and start the inactivity clock. */
    method StartCrawl(taskId: string, seeds: Seeds, repositoryName: string, maxDepth: Option<int>,
                      maxThreads: Option<int>, incremental: bool, config: map<string, int>, now: int)
      returns (depth: int, threads: int)
      modifies this
      ensures depth == ParamOrDefault(maxDepth, config, "max_depth", DefaultMaxDepth)
      ensures threads == ParamOrDefault(maxThreads, config, "max_threads", DefaultMaxThreads)
      ensures statuses == old(statuses)[taskId := CrawlStatus(Running, repositoryName, SeedList(seeds),
        depth, threads, incremental, now, None, 0, 0, 0, [], None)]
      ensures lastFileTime == old(lastFileTime)[taskId := now]
      ensures queue == old(queue) && visited == old(visited) && blocklist == old(blocklist) && saved == old(saved)
    {
      depth := ParamOrDefault(maxDepth, config, "max_depth", DefaultMaxDepth);
      threads := ParamOrDefault(maxThreads, config, "max_threads", DefaultMaxThreads);
      statuses := statuses[taskId := CrawlStatus(Running, repositoryName, SeedList(seeds),
        depth, threads, incremental, now, None, 0, 0, 0, [], None)];
      lastFileTime := lastFileTime[taskId := now];
    }

    /** `_crawl_worker` before its threads start: a fresh visited set (pre-marked from the
        existing file names when incremental), the seeds queued at depth 0, and
        `total_urls` set to the queue's size. */
    method Seed(taskId: string, seeds: Seeds, existingFiles: seq<string>, incremental: bool)
      requires taskId in statuses && taskId in lastFileTime
      modifies this
      ensures queue == SeedQueue(SeedList(seeds))
      ensures visited == if incremental then PreMarked(existingFiles) else {}
      ensures statuses == old(statuses)[taskId := old(statuses[taskId]).(totalUrls := |SeedList(seeds)|)]
      ensures lastFileTime == old(lastFileTime) && blocklist == old(blocklist) && saved == old(saved)
      ensures (old(statuses[taskId]).crawledUrls == 0 && old(statuses[taskId]).failedUrls == 0
        && old(statuses[taskId]).currentUrls == []) ==> Valid(taskId)
    {
      if incremental {
        visited := CollectPreMarked(existingFiles);
      } else {
        visited := {};
      }
      queue := BuildSeedQueue(SeedList(seeds));
      statuses := statuses[taskId := statuses[taskId].(totalUrls := |queue|)];
      var t := statuses[taskId];
      if t.crawledUrls == 0 && t.failedUrls == 0 && t.currentUrls == [] {
        SeedInv(EngineOf(taskId));
      }
    }

    /** One iteration of `_crawl_thread`'s loop: `false`, with nothing changed, once the
        queue is empty; otherwise the step `StepSpec` describes, on this task's entry only. */
    method Step(taskId: string, fetch: Fetch, now: int) returns (more: bool)
      requires Valid(taskId)
      modifies this
      ensures Valid(taskId)
      ensures more <==> old(queue) != []
      ensures more ==> EngineOf(taskId) == StepSpec(old(EngineOf(taskId)), fetch, blocklist, search, now)
      ensures !more ==> (queue == old(queue) && visited == old(visited) && saved == old(saved)
        && statuses == old(statuses) && lastFileTime == old(lastFileTime))
      ensures statuses == old(statuses)[taskId := statuses[taskId]]
      ensures lastFileTime == old(lastFileTime)[taskId := lastFileTime[taskId]]
      ensures blocklist == old(blocklist)
    {
      if queue == [] {
        return false;
      }
      more := true;
      ghost var e := EngineOf(taskId);
      ghost var s0 := statuses;
      StepKeepsInv(e, fetch, blocklist, search, now);
      var url, depth := TakeHead(taskId);
      ghost var s1 := statuses;
      Process(taskId, url, depth, fetch, now);
      UpdateTwice(s0, s1, statuses, taskId);
    }

    /** The body of the loop after the pop. */
    method Process(taskId: string, url: string, depth: int, fetch: Fetch, now: int)
      requires taskId in statuses && taskId in lastFileTime
      modifies this
      ensures taskId in statuses && statuses == old(statuses)[taskId := statuses[taskId]]
      ensures taskId in lastFileTime && lastFileTime == old(lastFileTime)[taskId := lastFileTime[taskId]]
      ensures EngineOf(taskId) == Outcome(old(EngineOf(taskId)), url, depth, fetch, blocklist, search, now)
      ensures blocklist == old(blocklist)
    {
      if url in visited {
      } else if fetch.FetchFailed? {
        RecordFailure(taskId, url);
      } else if IsPdf(url) {
        WriteFile(taskId, url, ".pdf", now);
        MarkCrawled(taskId, url, true);
      } else {
        VisitPage(taskId, url, depth, fetch.content, fetch.links, now);
      }
    }

    /** A page: `_crawl_url` has fetched it; write it unless blocked or empty, mark it,
        and queue its links. */
    method VisitPage(taskId: string, url: string, depth: int, content: string, links: seq<string>, now: int)
      requires taskId in statuses && taskId in lastFileTime
      modifies this
      ensures taskId in statuses && statuses == old(statuses)[taskId := statuses[taskId]]
      ensures taskId in lastFileTime && lastFileTime == old(lastFileTime)[taskId := lastFileTime[taskId]]
      ensures EngineOf(taskId) == PageSaved(old(EngineOf(taskId)), url, depth, content, links, !IsUrlBlocked(url, blocklist, search), now)
      ensures blocklist == old(blocklist)
    {
      ghost var s0 := statuses;
      var save := !IsUrlBlocked(url, blocklist, search);
      if content != "" && save {
        WriteFile(taskId, url, ".txt", now);
      }
      MarkCrawled(taskId, url, save);
      ghost var s1 := statuses;
      QueueLinks(taskId, links, depth);
      UpdateTwice(s0, s1, statuses, taskId);
    }

    /** `url_queue.popleft()`, and the URL listed in `current_urls`. */
    method TakeHead(taskId: string) returns (url: string, depth: int)
      requires taskId in statuses && taskId in lastFileTime && queue != []
      modifies this
      ensures url == old(queue[0].0) && depth == old(queue[0].1)
      ensures taskId in statuses && statuses == old(statuses)[taskId := statuses[taskId]] && lastFileTime == old(lastFileTime)
      ensures EngineOf(taskId) == Taken(old(EngineOf(taskId)))
      ensures blocklist == old(blocklist)
    {
      url := queue[0].0;
      depth := queue[0].1;
      queue := queue[1..];
      var t := statuses[taskId];
      statuses := statuses[taskId := t.(currentUrls := Track(t.currentUrls, url))];
    }

    /** The exception handler: one more failure, and the URL no longer current. */
    method RecordFailure(taskId: string, url: string)
      requires taskId in statuses && taskId in lastFileTime
      modifies this
      ensures taskId in statuses && statuses == old(statuses)[taskId := statuses[taskId]] && lastFileTime == old(lastFileTime)
      ensures EngineOf(taskId) == FetchError(old(EngineOf(taskId)), url)
      ensures blocklist == old(blocklist)
    {
      var t := statuses[taskId];
      statuses := statuses[taskId := t.(failedUrls := t.failedUrls + 1, currentUrls := RemoveFirst(t.currentUrls, url))];
    }

    /** The file write of `_save_content` or `_download_pdf`, and `last_file_time`. */
    method WriteFile(taskId: string, url: string, extension: string, now: int)
      requires taskId in statuses && taskId in lastFileTime
      modifies this
      ensures statuses == old(statuses) && lastFileTime == old(lastFileTime)[taskId := now]
      ensures EngineOf(taskId) == Written(old(EngineOf(taskId)), url, extension, now)
      ensures blocklist == old(blocklist)
    {
      saved := saved + [SavedFile(url, extension)];
      lastFileTime := lastFileTime[taskId := now];
    }

    /** `crawled_urls.add(url)`, the crawled count when `counted`, and `current_urls`. */
    method MarkCrawled(taskId: string, url: string, counted: bool)
      requires taskId in statuses && taskId in lastFileTime
      modifies this
      ensures taskId in statuses && statuses == old(statuses)[taskId := statuses[taskId]] && lastFileTime == old(lastFileTime)
      ensures EngineOf(taskId) == Marked(old(EngineOf(taskId)), url, counted)
      ensures blocklist == old(blocklist)
    {
      visited := visited + {url};
      var t := statuses[taskId];
      statuses := statuses[taskId := t.(crawledUrls := t.crawledUrls + (if counted then 1 else 0),
        currentUrls := RemoveFirst(t.currentUrls, url))];
    }

    /** The enqueue loop of a page fetched at `depth`. */
    method QueueLinks(taskId: string, links: seq<string>, depth: int)
      requires taskId in statuses && taskId in lastFileTime
      modifies this
      ensures taskId in statuses && statuses == old(statuses)[taskId := statuses[taskId]] && lastFileTime == old(lastFileTime)
      ensures EngineOf(taskId) == LinksQueued(old(EngineOf(taskId)), links, depth)
      ensures blocklist == old(blocklist)
    {
      var t := statuses[taskId];
      if depth < t.maxDepth {
        var q, n := EnqueueLinks(queue, links, visited, depth + 1);
        queue := q;
        statuses := statuses[taskId := t.(totalUrls := t.totalUrls + n)];
      }
    }

    /** The repository store after `update_repository_status(repository_name, 'complete')`,
        whose failure for a missing repository is caught and only logged. */
    static function MarkedComplete(store: map<string, Json.Record>, repositoryName: string, stamp: string)
      : (r: map<string, Json.Record>)
      ensures repositoryName in store ==> r == store[repositoryName := Repository.Stamped(store[repositoryName], "status", Json.Str("complete"), stamp)]
      ensures repositoryName !in store ==> r == store
    {
      if repositoryName in store
      then store[repositoryName := Repository.Stamped(store[repositoryName], "status", Json.Str("complete"), stamp)]
      else store
    }

    /** The worker's end once its threads have joined: the task is completed, whatever
        its status was, and its repository's status becomes "complete" (`stamp` is `now`
        as the repository records it). */
    method Finish(taskId: string, now: int, repositories: Repository.RepositoryManager, repositoryName: string, stamp: string)
      requires taskId in statuses
      modifies this, repositories
      ensures statuses == old(statuses)[taskId := old(statuses[taskId]).(status := Completed, endTime := Some(now))]
      ensures repositories.repositories == MarkedComplete(old(repositories.repositories), repositoryName, stamp)
      ensures old(repositories.Valid()) ==> repositories.Valid()
      ensures lastFileTime == old(lastFileTime) && queue == old(queue) && visited == old(visited)
      ensures blocklist == old(blocklist) && saved == old(saved)
    {
      statuses := statuses[taskId := statuses[taskId].(status := Completed, endTime := Some(now))];
      var _ := repositories.UpdateRepositoryStatus(repositoryName, "complete", stamp);
    }

    /** The worker's exception handler: the task fails with the error's text. */
    method Fail(taskId: string, error: string, now: int)
      requires taskId in statuses
      modifies this
      ensures statuses == old(statuses)[taskId := old(statuses[taskId]).(status := Failed, error := Some(error), endTime := Some(now))]
      ensures lastFileTime == old(lastFileTime) && queue == old(queue) && visited == old(visited)
      ensures blocklist == old(blocklist) && saved == old(saved)
    {
      statuses := statuses[taskId := statuses[taskId].(status := Failed, error := Some(error), endTime := Some(now))];
    }

    /** `pause_crawl`: only a running task pauses. */
    method Pause(taskId: string) returns (ok: bool)
      modifies this
      ensures ok <==> taskId in old(statuses) && old(statuses[taskId]).status == Running
      ensures ok ==> statuses == old(statuses)[taskId := old(statuses[taskId]).(status := Paused)]
      ensures !ok ==> statuses == old(statuses)
      ensures lastFileTime == old(lastFileTime) && queue == old(queue) && visited == old(visited)
      ensures blocklist == old(blocklist) && saved == old(saved)
    {
      ok := taskId in statuses && statuses[taskId].status == Running;
      if ok {
        statuses := statuses[taskId := statuses[taskId].(status := Paused)];
      }
    }

    /** `resume_crawl`: only a paused task resumes. */
    method Resume(taskId: string) returns (ok: bool)
      modifies this
      ensures ok <==> taskId in old(statuses) && old(statuses[taskId]).status == Paused
      ensures ok ==> statuses == old(statuses)[taskId := old(statuses[taskId]).(status := Running)]
      ensures !ok ==> statuses == old(statuses)
      ensures lastFileTime == old(lastFileTime) && queue == old(queue) && visited == old(visited)
      ensures blocklist == old(blocklist) && saved == old(saved)
    {
      ok := taskId in statuses && statuses[taskId].status == Paused;
      if ok {
        statuses := statuses[taskId := statuses[taskId].(status := Running)];
      }
    }

    /** `stop_crawl`: a running or paused task stops and gets its end time. */
    method Stop(taskId: string, now: int) returns (ok: bool)
      modifies this
      ensures ok <==> taskId in old(statuses) && old(statuses[taskId]).status in {Running, Paused}
      ensures ok ==> statuses == old(statuses)[taskId := old(statuses[taskId]).(status := Stopped, endTime := Some(now))]
      ensures !ok ==> statuses == old(statuses)
      ensures lastFileTime == old(lastFileTime) && queue == old(queue) && visited == old(visited)
      ensures blocklist == old(blocklist) && saved == old(saved)
    {
      ok := taskId in statuses && statuses[taskId].status in {Running, Paused};
      if ok {
        statuses := statuses[taskId := statuses[taskId].(status := Stopped, endTime := Some(now))];
      }
    }

    /** One pass of `_monitor_file_inactivity`: it exits at once when the task is gone or
        not running; it completes the task and exits when more than `InactivityTimeout`
        seconds have passed since the last file was written; otherwise it waits. The clock
        and `lastFileTime` are read in whole seconds. */
    method MonitorCheck(taskId: string, now: int, repositories: Repository.RepositoryManager, repositoryName: string, stamp: string)
      returns (exit: bool)
      modifies this, repositories
      ensures !(taskId in old(statuses) && old(statuses[taskId]).status == Running) ==> exit && statuses == old(statuses)
      ensures taskId in old(statuses) && old(statuses[taskId]).status == Running ==>
        exit == (taskId in lastFileTime && now - lastFileTime[taskId] > InactivityTimeout)
      ensures exit && taskId in old(statuses) && old(statuses[taskId]).status == Running ==>
        statuses == old(statuses)[taskId := old(statuses[taskId]).(status := Completed, endTime := Some(now))]
        && repositories.repositories == MarkedComplete(old(repositories.repositories), repositoryName, stamp)
      ensures !(exit && taskId in old(statuses) && old(statuses[taskId]).status == Running) ==>
        statuses == old(statuses) && repositories.repositories == old(repositories.repositories)
      ensures old(repositories.Valid()) ==> repositories.Valid()
      ensures lastFileTime == old(lastFileTime) && queue == old(queue) && visited == old(visited)
      ensures blocklist == old(blocklist) && saved == old(saved)
    {
      if !(taskId in statuses && statuses[taskId].status == Running) {
        return true;
      }
      if taskId in lastFileTime && now - lastFileTime[taskId] > InactivityTimeout {
        statuses := statuses[taskId := statuses[taskId].(status := Completed, endTime := Some(now))];
        var _ := repositories.UpdateRepositoryStatus(repositoryName, "complete", stamp);
        return true;
      }
      return false;
    }
  }
}
