/** The task registry of `backend/src/utils/task_manager.py`: a dictionary of task records
    keyed by task id, in insertion order, with creation, updates, cancellation, clean-up
    and filtered queries. Timestamps are the ISO strings `datetime.now().isoformat()`
    would give, passed in as `now`. */
module TaskManager {
  import opened Wrappers
  import opened Json
  import opened Strings

  /** The keys `create_task` gives every task. */
  const TaskKeys: set<string> := {"id", "type", "repository_name", "status", "progress", "created_at",
    "updated_at", "started_at", "completed_at", "error", "result", "metadata"}

  /** The record `create_task` stores: pending, no progress, never started or completed, no
      error or result, and the metadata given (an empty dictionary when none is). */
  function NewTask(id: string, taskType: string, repositoryName: string, metadata: Option<Record>, now: string): (r: Record)
    ensures r.Keys == TaskKeys
  {
    map["id" := Str(id), "type" := Str(taskType), "repository_name" := Str(repositoryName),
        "status" := Str("pending"), "progress" := Int(0), "created_at" := Str(now), "updated_at" := Str(now),
        "started_at" := Null, "completed_at" := Null, "error" := Null, "result" := Null,
        "metadata" := Dict(metadata.GetOr(map[]))]
  }

  /** The task has every key `create_task` gives a task. */
  predicate Complete(t: Record) {
    TaskKeys <= t.Keys
  }

  /** The fields of a new task. */
  lemma NewTaskFields(id: string, taskType: string, repositoryName: string, metadata: Option<Record>, now: string)
    ensures var r := NewTask(id, taskType, repositoryName, metadata, now);
      r["id"] == Str(id) && r["type"] == Str(taskType) && r["repository_name"] == Str(repositoryName)
      && r["status"] == Str("pending") && r["progress"] == Int(0)
      && r["started_at"] == Null && r["completed_at"] == Null && r["error"] == Null && r["result"] == Null
      && r["metadata"] == (if metadata.Some? then Dict(metadata.value) else Dict(map[]))
  {
  }

  predicate HasStatus(t: Record, status: string) {
    Get(t, "status", Null) == Str(status)
  }

  /** Python's truthiness of an optional string argument. */
  predicate Given(arg: Option<string>) {
    arg.Some? && arg.value != ""
  }

  // ----- update_task -----

  /** The status part of `update_task`: a given status is stored; the first time it is
      "running" `started_at` is stamped, and "completed" or "failed" always stamps
      `completed_at`. */
  function StatusApplied(task: Record, status: Option<string>, now: string): Record {
    if Given(status) then
      var t := task["status" := Str(status.value)];
      if status.value == "running" && !Truthy(Get(task, "started_at", Null)) then t["started_at" := Str(now)]
      else if status.value == "completed" || status.value == "failed" then t["completed_at" := Str(now)]
      else t
    else task
  }

  /** The `**kwargs` loop: each pair overwrites a key the task already has, in order;
      other keys are ignored. */
  function ApplyExisting(task: Record, kwargs: seq<(string, Value)>): (r: Record)
    ensures r.Keys == task.Keys
  {
    if kwargs == [] then task
    else
      var t := ApplyExisting(task, kwargs[..|kwargs| - 1]);
      var (k, v) := kwargs[|kwargs| - 1];
      if k in t then t[k := v] else t
  }

  /** The value the last pair naming `k` gives, or `d` when no pair names it. */
  function LastValue(kwargs: seq<(string, Value)>, k: string, d: Value): Value {
    if kwargs == [] then d
    else if kwargs[|kwargs| - 1].0 == k then kwargs[|kwargs| - 1].1
    else LastValue(kwargs[..|kwargs| - 1], k, d)
  }

  /** Every key of the task ends with the last value a pair gives it, or keeps its own. */
  lemma {:induction false} ApplyExistingValues(task: Record, kwargs: seq<(string, Value)>, k: string)
    requires k in task
    ensures ApplyExisting(task, kwargs)[k] == LastValue(kwargs, k, task[k])
  {
    if kwargs != [] {
      ApplyExistingValues(task, kwargs[..|kwargs| - 1], k);
    }
  }

  lemma {:induction false} LastValueUnnamed(kwargs: seq<(string, Value)>, k: string, d: Value)
    requires forall i :: 0 <= i < |kwargs| ==> kwargs[i].0 != k
    ensures LastValue(kwargs, k, d) == d
  {
    if kwargs != [] {
      LastValueUnnamed(kwargs[..|kwargs| - 1], k, d);
    }
  }

  /** The named arguments of `update_task`: the status as above, then progress, error and
      result wherever they are not `None`. */
  function Assigned(task: Record, status: Option<string>, progress: Option<int>, error: Option<string>,
                    result: Option<Value>, now: string): Record
  {
    var t1 := StatusApplied(task, status, now);
    var t2 := if progress.Some? then t1["progress" := Int(progress.value)] else t1;
    var t3 := if error.Some? then t2["error" := Str(error.value)] else t2;
    if result.Some? then t3["result" := result.value] else t3
  }

  /** The record `update_task` leaves for a known id. */
  function Updated(task: Record, status: Option<string>, progress: Option<int>, error: Option<string>,
                   result: Option<Value>, kwargs: seq<(string, Value)>, now: string): Record
  {
    ApplyExisting(Assigned(task, status, progress, error, result, now), kwargs)["updated_at" := Str(now)]
  }

  /** No new keys appear in a task that already has the keys `create_task` gives it. */
  lemma UpdatedKeys(task: Record, status: Option<string>, progress: Option<int>, error: Option<string>,
                    result: Option<Value>, kwargs: seq<(string, Value)>, now: string)
    requires Complete(task)
    ensures Updated(task, status, progress, error, result, kwargs, now).Keys == task.Keys
  {
  }

  /** `started_at` changes only the first time the status becomes "running" (or through a
      keyword argument naming it), and that first time it is stamped. */
  lemma UpdatedStartedAt(task: Record, status: Option<string>, progress: Option<int>, error: Option<string>,
                         result: Option<Value>, kwargs: seq<(string, Value)>, now: string)
    requires TaskKeys <= task.Keys
    requires forall i :: 0 <= i < |kwargs| ==> kwargs[i].0 != "started_at"
    ensures var r := Updated(task, status, progress, error, result, kwargs, now);
      (Given(status) && status.value == "running" && !Truthy(task["started_at"]) ==> r["started_at"] == Str(now))
      && (r["started_at"] != task["started_at"] ==> Given(status) && status.value == "running" && !Truthy(task["started_at"]))
  {
    var t4 := Assigned(task, status, progress, error, result, now);
    ApplyExistingValues(t4, kwargs, "started_at");
    LastValueUnnamed(kwargs, "started_at", t4["started_at"]);
  }

  /** Becoming "completed" or "failed" always stamps `completed_at`; no other status
      change touches it. */
  lemma UpdatedCompletedAt(task: Record, status: Option<string>, progress: Option<int>, error: Option<string>,
                           result: Option<Value>, kwargs: seq<(string, Value)>, now: string)
    requires TaskKeys <= task.Keys
    requires forall i :: 0 <= i < |kwargs| ==> kwargs[i].0 != "completed_at"
    ensures var r := Updated(task, status, progress, error, result, kwargs, now);
      (Given(status) && (status.value == "completed" || status.value == "failed") ==> r["completed_at"] == Str(now))
      && (r["completed_at"] != task["completed_at"] ==> Given(status) && (status.value == "completed" || status.value == "failed"))
  {
    var t4 := Assigned(task, status, progress, error, result, now);
    ApplyExistingValues(t4, kwargs, "completed_at");
    LastValueUnnamed(kwargs, "completed_at", t4["completed_at"]);
  }

  // ----- queries -----

  /** The tasks of `ids` (dictionary order) that `get_repository_tasks` keeps before sorting. */
  predicate RepositoryMatch(t: Record, repositoryName: string, taskType: Option<string>, status: Option<string>) {
    Get(t, "repository_name", Null) == Str(repositoryName)
    && (!Given(taskType) || Get(t, "type", Null) == Str(taskType.value))
    && (!Given(status) || Get(t, "status", Null) == Str(status.value))
  }

  function Matching(m: map<string, Record>, ids: seq<string>, repositoryName: string,
                    taskType: Option<string>, status: Option<string>): seq<Record>
  {
    if ids == [] then []
    else
      var r := Matching(m, ids[..|ids| - 1], repositoryName, taskType, status);
      var id := ids[|ids| - 1];
      if id in m && RepositoryMatch(m[id], repositoryName, taskType, status) then r + [m[id]] else r
  }

  /** The tasks `get_running_tasks` returns: pending or running, of the repository when one
      is given. */
  predicate RunningMatch(t: Record, repositoryName: Option<string>) {
    (HasStatus(t, "pending") || HasStatus(t, "running"))
    && (!Given(repositoryName) || Get(t, "repository_name", Null) == Str(repositoryName.value))
  }

  function Running(m: map<string, Record>, ids: seq<string>, repositoryName: Option<string>): seq<Record> {
    if ids == [] then []
    else
      var r := Running(m, ids[..|ids| - 1], repositoryName);
      var id := ids[|ids| - 1];
      if id in m && RunningMatch(m[id], repositoryName) then r + [m[id]] else r
  }

  /** A task is selected exactly when it is the task of a listed id and matches. */
  lemma {:induction false} MatchingExactly(m: map<string, Record>, ids: seq<string>, repositoryName: string,
                                           taskType: Option<string>, status: Option<string>, t: Record)
    ensures t in Matching(m, ids, repositoryName, taskType, status)
      <==> exists i :: 0 <= i < |ids| && ids[i] in m && m[ids[i]] == t && RepositoryMatch(t, repositoryName, taskType, status)
  {
    if ids != [] {
      var init := ids[..|ids| - 1];
      MatchingExactly(m, init, repositoryName, taskType, status, t);
      if exists i :: 0 <= i < |ids| && ids[i] in m && m[ids[i]] == t && RepositoryMatch(t, repositoryName, taskType, status) {
        var i :| 0 <= i < |ids| && ids[i] in m && m[ids[i]] == t && RepositoryMatch(t, repositoryName, taskType, status);
        if i < |init| {
          assert init[i] == ids[i];
        }
      }
    }
  }

  lemma {:induction false} RunningExactly(m: map<string, Record>, ids: seq<string>, repositoryName: Option<string>, t: Record)
    ensures t in Running(m, ids, repositoryName)
      <==> exists i :: 0 <= i < |ids| && ids[i] in m && m[ids[i]] == t && RunningMatch(t, repositoryName)
  {
    if ids != [] {
      var init := ids[..|ids| - 1];
      RunningExactly(m, init, repositoryName, t);
      if exists i :: 0 <= i < |ids| && ids[i] in m && m[ids[i]] == t && RunningMatch(t, repositoryName) {
        var i :| 0 <= i < |ids| && ids[i] in m && m[ids[i]] == t && RunningMatch(t, repositoryName);
        if i < |init| {
          assert init[i] == ids[i];
        }
      }
    }
  }

  // ----- sorting by created_at, newest first -----

  /** No element's key is greater than the key of the element before it. */
  predicate Descending<T>(ts: seq<T>, key: T -> string) {
    forall i :: 0 < i < |ts| ==> !Less(key(ts[i - 1]), key(ts[i]))
  }

  /** Places `x` after every element whose key is at least as great, keeping the sort stable. */
  function Insert<T>(x: T, ts: seq<T>, key: T -> string): (r: seq<T>)
    ensures |r| == |ts| + 1
  {
    if ts == [] then [x]
    else if !Less(key(ts[0]), key(x)) then [ts[0]] + Insert(x, ts[1..], key)
    else [x] + ts
  }

  /** `list.sort(key=key, reverse=True)` as an insertion sort. */
  function SortDescending<T>(ts: seq<T>, key: T -> string): (r: seq<T>)
    ensures |r| == |ts|
  {
    if ts == [] then [] else Insert(ts[|ts| - 1], SortDescending(ts[..|ts| - 1], key), key)
  }

  lemma {:induction false} InsertSorted<T>(x: T, ts: seq<T>, key: T -> string)
    requires Descending(ts, key)
    ensures Descending(Insert(x, ts, key), key)
    ensures Insert(x, ts, key)[0] == x || (ts != [] && Insert(x, ts, key)[0] == ts[0])
  {
    if ts != [] {
      var r := Insert(x, ts, key);
      if !Less(key(ts[0]), key(x)) {
        var rest := Insert(x, ts[1..], key);
        InsertSorted(x, ts[1..], key);
        assert r == [ts[0]] + rest;
        forall i | 0 < i < |r| ensures !Less(key(r[i - 1]), key(r[i])) {
          if i > 1 {
            assert r[i - 1] == rest[i - 2] && r[i] == rest[i - 1];
          }
        }
      } else {
        LessAsymmetric(key(ts[0]), key(x));
        assert r == [x] + ts;
        forall i | 0 < i < |r| ensures !Less(key(r[i - 1]), key(r[i])) {
          if i > 1 {
            assert r[i - 1] == ts[i - 2] && r[i] == ts[i - 1];
          }
        }
      }
    }
  }

  lemma {:induction false} InsertPermutes<T>(x: T, ts: seq<T>, key: T -> string)
    ensures multiset(Insert(x, ts, key)) == multiset(ts) + multiset{x}
  {
    if ts != [] && !Less(key(ts[0]), key(x)) {
      InsertPermutes(x, ts[1..], key);
      assert ts == [ts[0]] + ts[1..];
    }
  }

  /** The sorted list is in descending key order and holds exactly the same elements. */
  lemma {:induction false} SortDescendingSorted<T>(ts: seq<T>, key: T -> string)
    ensures Descending(SortDescending(ts, key), key)
    ensures multiset(SortDescending(ts, key)) == multiset(ts)
  {
    if ts != [] {
      var init := ts[..|ts| - 1];
      SortDescendingSorted(init, key);
      InsertSorted(ts[|ts| - 1], SortDescending(init, key), key);
      InsertPermutes(ts[|ts| - 1], SortDescending(init, key), key);
      assert ts == init + [ts[|ts| - 1]];
    }
  }

  /** The elements whose key is `k`, in their order. */
  function WithKey<T>(ts: seq<T>, key: T -> string, k: string): (r: seq<T>)
    ensures |r| <= |ts|
  {
    if ts == [] then [] else (if key(ts[0]) == k then [ts[0]] else []) + WithKey(ts[1..], key, k)
  }

  lemma {:induction false} WithKeyAppend<T>(a: seq<T>, b: seq<T>, key: T -> string, k: string)
    ensures WithKey(a + b, key, k) == WithKey(a, key, k) + WithKey(b, key, k)
  {
    if a != [] {
      WithKeyAppend(a[1..], b, key, k);
      assert (a + b)[1..] == a[1..] + b;
    } else {
      assert a + b == b;
    }
  }

  /** Below a key smaller than `k`, a descending list holds nothing with key `k`. */
  lemma {:induction false} NoTiesBelow<T>(ts: seq<T>, key: T -> string, k: string)
    requires Descending(ts, key) && ts != [] && Less(key(ts[0]), k)
    ensures WithKey(ts, key, k) == []
  {
    LessAsymmetric(k, k);
    if |ts| > 1 {
      LessTotal(key(ts[0]), key(ts[1]));
      if key(ts[1]) != key(ts[0]) {
        LessTransitive(key(ts[1]), key(ts[0]), k);
      }
      NoTiesBelow(ts[1..], key, k);
    }
  }

  /** Inserting `x` puts it after every element with the same key. */
  lemma {:induction false} InsertKeepsTies<T>(x: T, ts: seq<T>, key: T -> string, k: string)
    requires Descending(ts, key)
    ensures WithKey(Insert(x, ts, key), key, k) == WithKey(ts, key, k) + (if key(x) == k then [x] else [])
  {
    var tie := if key(x) == k then [x] else [];
    if ts == [] {
      assert [x][1..] == [];
      assert WithKey([x], key, k) == tie + WithKey([], key, k);
    } else if !Less(key(ts[0]), key(x)) {
      var rest := Insert(x, ts[1..], key);
      var r := [ts[0]] + rest;
      InsertKeepsTies(x, ts[1..], key, k);
      assert r[0] == ts[0] && r[1..] == rest;
      assert WithKey(r, key, k) == (if key(ts[0]) == k then [ts[0]] else []) + WithKey(rest, key, k);
    } else {
      var r := [x] + ts;
      if key(x) == k {
        NoTiesBelow(ts, key, k);
      }
      assert r[0] == x && r[1..] == ts;
      assert WithKey(r, key, k) == tie + WithKey(ts, key, k);
    }
  }

  /** The sort is stable: the elements sharing a key keep their order, as with Python's
      `sort(reverse=True)`. */
  lemma {:induction false} SortDescendingStable<T>(ts: seq<T>, key: T -> string, k: string)
    ensures WithKey(SortDescending(ts, key), key, k) == WithKey(ts, key, k)
  {
    if ts != [] {
      var init, last := ts[..|ts| - 1], ts[|ts| - 1];
      SortDescendingStable(init, key, k);
      SortDescendingSorted(init, key);
      InsertKeepsTies(last, SortDescending(init, key), key, k);
      assert ts == init + [last];
      WithKeyAppend(init, [last], key, k);
      assert WithKey([last], key, k) == (if key(last) == k then [last] else []) + WithKey([], key, k);
    }
  }

  /** Descending order between neighbours gives it between any two positions. */
  lemma {:induction false} DescendingPairwise<T>(ts: seq<T>, key: T -> string, i: int, j: int)
    requires Descending(ts, key) && 0 <= i < j < |ts|
    ensures !Less(key(ts[i]), key(ts[j]))
    decreases j - i
  {
    if i + 1 < j {
      DescendingPairwise(ts, key, i, j - 1);
      AtLeastTransitive(key(ts[i]), key(ts[j - 1]), key(ts[j]));
    }
  }

  /** The sort key of `get_repository_tasks`: the `created_at` string, "" for a record
      without one (which every created task has). */
  function Created(t: Record): string {
    match Get(t, "created_at", Null)
    case Str(s) => s
    case _ => ""
  }

  function NewestFirst(ts: seq<Record>): seq<Record> {
    SortDescending(ts, Created)
  }

  // ----- clean_old_tasks -----

  /** A completed or failed task whose creation time is known. */
  predicate Finished(t: Record) {
    HasStatus(t, "completed") || HasStatus(t, "failed")
  }

  /** `datetime.fromisoformat(task['created_at']).timestamp()`, `None` where it raises. */
  function CreatedSeconds(t: Record, timestamp: string -> Option<int>): Option<int> {
    match Get(t, "created_at", Null)
    case Str(s) => timestamp(s)
    case _ => None
  }

  /** Whether the scan of `clean_old_tasks` gets through `ids` without an exception. */
  predicate Parses(m: map<string, Record>, ids: seq<string>, timestamp: string -> Option<int>) {
    forall i :: 0 <= i < |ids| && ids[i] in m && Finished(m[ids[i]]) ==> CreatedSeconds(m[ids[i]], timestamp).Some?
  }

  predicate Expired(t: Record, cutoff: int, timestamp: string -> Option<int>) {
    Finished(t) && CreatedSeconds(t, timestamp).Some? && CreatedSeconds(t, timestamp).value < cutoff
  }

  /** The ids the scan collects. */
  function ExpiredIds(m: map<string, Record>, ids: seq<string>, cutoff: int, timestamp: string -> Option<int>): (r: seq<string>)
    ensures forall k :: 0 <= k < |r| ==> r[k] in ids && r[k] in m && Expired(m[r[k]], cutoff, timestamp)
  {
    if ids == [] then []
    else
      var r := ExpiredIds(m, ids[..|ids| - 1], cutoff, timestamp);
      var id := ids[|ids| - 1];
      if id in m && Expired(m[id], cutoff, timestamp) then r + [id] else r
  }

  /** One more id extends the scan by that id's verdict. */
  lemma ScanStep(m: map<string, Record>, ids: seq<string>, cutoff: int, timestamp: string -> Option<int>, i: int)
    requires 0 <= i < |ids| && ids[i] in m
    ensures ExpiredIds(m, ids[..i + 1], cutoff, timestamp)
      == ExpiredIds(m, ids[..i], cutoff, timestamp) + (if Expired(m[ids[i]], cutoff, timestamp) then [ids[i]] else [])
    ensures Parses(m, ids[..i + 1], timestamp)
      <==> Parses(m, ids[..i], timestamp) && (Finished(m[ids[i]]) ==> CreatedSeconds(m[ids[i]], timestamp).Some?)
  {
    assert ids[..i + 1][..i] == ids[..i];
    assert ids[..i + 1][i] == ids[i];
  }

  /** A finished task whose creation time does not parse makes the scan fail. */
  lemma Unparsed(m: map<string, Record>, ids: seq<string>, timestamp: string -> Option<int>, i: int)
    requires 0 <= i < |ids| && ids[i] in m && Finished(m[ids[i]]) && CreatedSeconds(m[ids[i]], timestamp).None?
    ensures !Parses(m, ids, timestamp)
  {
  }

  lemma {:induction false} ExpiredIdsComplete(m: map<string, Record>, ids: seq<string>, cutoff: int,
                                              timestamp: string -> Option<int>, id: string)
    requires id in ids && id in m && Expired(m[id], cutoff, timestamp)
    ensures id in ExpiredIds(m, ids, cutoff, timestamp)
  {
    if ids[|ids| - 1] != id {
      ExpiredIdsComplete(m, ids[..|ids| - 1], cutoff, timestamp, id);
    }
  }

  /** The dictionary after `del` of every id in `gone`. */
  function Drop(m: map<string, Record>, gone: set<string>): (r: map<string, Record>)
    ensures r.Keys == m.Keys - gone
    ensures forall id :: id in r ==> r[id] == m[id]
  {
    map id | id in m && id !in gone :: m[id]
  }

  function IdSet(ids: seq<string>): set<string> {
    set id | id in ids
  }

  /** The ids that remain, in order. */
  function Without(ids: seq<string>, gone: set<string>): (r: seq<string>)
    ensures forall id :: id in r <==> id in ids && id !in gone
  {
    if ids == [] then []
    else if ids[0] in gone then Without(ids[1..], gone)
    else [ids[0]] + Without(ids[1..], gone)
  }

  lemma WithoutIdSet(ids: seq<string>, gone: set<string>)
    ensures IdSet(Without(ids, gone)) == IdSet(ids) - gone
  {
  }

  predicate Distinct(ids: seq<string>) {
    forall i, j :: 0 <= i < j < |ids| ==> ids[i] != ids[j]
  }

  lemma {:induction false} WithoutDistinct(ids: seq<string>, gone: set<string>)
    requires Distinct(ids)
    ensures Distinct(Without(ids, gone))
  {
    if ids != [] {
      WithoutDistinct(ids[1..], gone);
      var rest := Without(ids[1..], gone);
      if ids[0] !in gone {
        var r := [ids[0]] + rest;
        assert ids[0] !in ids[1..] by {
          forall k | 0 <= k < |ids| - 1 ensures ids[1..][k] != ids[0] {
            assert ids[1..][k] == ids[k + 1];
          }
        }
        forall i, j | 0 <= i < j < |r| ensures r[i] != r[j] {
          if i == 0 {
            assert r[j] == rest[j - 1];
            assert r[j] in rest;
          } else {
            assert r[i] == rest[i - 1] && r[j] == rest[j - 1];
          }
        }
      }
    }
  }

  /** The registry's invariant: the dictionary's keys are `order`'s ids, each once, and
      every task has the keys `create_task` gives it (no operation removes a key). */
  ghost predicate Consistent(tasks: map<string, Record>, order: seq<string>) {
    Distinct(order)
    && tasks.Keys == IdSet(order)
    && (forall id :: id in tasks ==> Complete(tasks[id]))
  }

  /** Appending a new id keeps the ids distinct and adds it to their set. */
  lemma AppendNew(ids: seq<string>, id: string)
    requires Distinct(ids) && id !in IdSet(ids)
    ensures Distinct(ids + [id]) && IdSet(ids + [id]) == IdSet(ids) + {id}
  {
  }

  /** Storing a complete task under an id, appended to the order when it is new, keeps the
      registry consistent. */
  lemma StoreConsistent(tasks: map<string, Record>, order: seq<string>, id: string, task: Record,
                        tasks': map<string, Record>, order': seq<string>)
    requires Consistent(tasks, order) && Complete(task)
    requires tasks' == tasks[id := task] && order' == (if id in tasks then order else order + [id])
    ensures Consistent(tasks', order')
  {
    if id !in tasks {
      AppendNew(order, id);
    }
  }

  /** Dropping a set of ids from both the dictionary and the order keeps the registry
      consistent. */
  lemma DropConsistent(tasks: map<string, Record>, order: seq<string>, gone: set<string>)
    requires Consistent(tasks, order)
    ensures Consistent(Drop(tasks, gone), Without(order, gone))
  {
    WithoutDistinct(order, gone);
    WithoutIdSet(order, gone);
  }

  /** `TaskManager`: `tasks` is the dictionary, `order` its keys in insertion order. */
  class TaskManager {
    var tasks: map<string, Record>
    var order: seq<string>

    ghost predicate Valid()
      reads this
    {
      Consistent(tasks, order)
    }

    /** An empty registry; loading `task_states.json` is not part of this model. */
    constructor ()
      ensures Valid() && tasks == map[] && order == []
    {
      tasks := map[];
      order := [];
    }

    /** `create_task`: stores a fresh pending task, replacing any task with the same id
        (which keeps its place in the dictionary's order). */
    method CreateTask(id: string, taskType: string, repositoryName: string, metadata: Option<Record>, now: string)
      returns (task: Record)
      requires Valid()
      modifies this
      ensures Valid()
      ensures task == NewTask(id, taskType, repositoryName, metadata, now)
      ensures tasks == old(tasks)[id := task]
      ensures order == if id in old(tasks) then old(order) else old(order) + [id]
    {
      task := NewTask(id, taskType, repositoryName, metadata, now);
      assert Complete(task);
      StoreConsistent(tasks, order, id, task, tasks[id := task], if id in tasks then order else order + [id]);
      if id !in tasks {
        order := order + [id];
      }
      tasks := tasks[id := task];
    }

    /** `update_task`: `None` and no change for an unknown id; otherwise the fields given
        are set in the source's order and the updated task is returned. */
    method UpdateTask(id: string, status: Option<string>, progress: Option<int>, error: Option<string>,
                      result: Option<Value>, kwargs: seq<(string, Value)>, now: string)
      returns (r: Option<Record>)
      requires Valid()
      modifies this
      ensures Valid()
      ensures id !in old(tasks) ==> r == None && tasks == old(tasks)
      ensures id in old(tasks) ==> (r == Some(Updated(old(tasks)[id], status, progress, error, result, kwargs, now))
        && tasks == old(tasks)[id := r.value])
      ensures order == old(order)
    {
      if id !in tasks {
        return None;
      }
      var task := AssignArguments(tasks[id], status, progress, error, result, now);
      task := ApplyKwargs(task, kwargs);
      task := task["updated_at" := Str(now)];
      assert task == Updated(tasks[id], status, progress, error, result, kwargs, now);
      UpdatedKeys(tasks[id], status, progress, error, result, kwargs, now);
      StoreConsistent(tasks, order, id, task, tasks[id := task], order);
      tasks := tasks[id := task];
      r := Some(task);
    }

    /** The named-argument part of `update_task`. */
    static method AssignArguments(task: Record, status: Option<string>, progress: Option<int>, error: Option<string>,
                                  result: Option<Value>, now: string) returns (r: Record)
      ensures r == Assigned(task, status, progress, error, result, now)
    {
      r := StatusApplied(task, status, now);
      if progress.Some? {
        r := r["progress" := Int(progress.value)];
      }
      if error.Some? {
        r := r["error" := Str(error.value)];
      }
      if result.Some? {
        r := r["result" := result.value];
      }
    }

    /** The `**kwargs` loop of `update_task`. */
    static method ApplyKwargs(task: Record, kwargs: seq<(string, Value)>) returns (r: Record)
      ensures r == ApplyExisting(task, kwargs)
    {
      r := task;
      var i := 0;
      while i < |kwargs|
        invariant 0 <= i <= |kwargs|
        invariant r == ApplyExisting(task, kwargs[..i])
      {
        assert kwargs[..i + 1][..i] == kwargs[..i];
        var (key, value) := kwargs[i];
        if key in r {
          r := r[key := value];
        }
        i := i + 1;
      }
      assert kwargs[..i] == kwargs;
    }

    /** `get_task`: the task stored under the id, if any. */
    function GetTask(id: string): (r: Option<Record>)
      reads this
      ensures r.Some? <==> id in tasks
      ensures r.Some? ==> r.value == tasks[id]
    {
      if id in tasks then Some(tasks[id]) else None
    }

    /** `get_repository_tasks`: the repository's tasks that pass the optional type and
        status filters, newest first. */
    method GetRepositoryTasks(repositoryName: string, taskType: Option<string>, status: Option<string>)
      returns (list: seq<Record>)
      requires Valid()
      ensures list == NewestFirst(Matching(tasks, order, repositoryName, taskType, status))
    {
      list := [];
      var i := 0;
      while i < |order|
        invariant 0 <= i <= |order|
        invariant list == Matching(tasks, order[..i], repositoryName, taskType, status)
      {
        assert order[..i + 1][..i] == order[..i];
        var task := tasks[order[i]];
        if RepositoryMatch(task, repositoryName, taskType, status) {
          list := list + [task];
        }
        i := i + 1;
      }
      assert order[..i] == order;
      list := NewestFirst(list);
    }

    /** `get_running_tasks`: the pending and running tasks, of the repository when one is
        given, in dictionary order. */
    method GetRunningTasks(repositoryName: Option<string>) returns (list: seq<Record>)
      requires Valid()
      ensures list == Running(tasks, order, repositoryName)
    {
      list := [];
      var i := 0;
      while i < |order|
        invariant 0 <= i <= |order|
        invariant list == Running(tasks, order[..i], repositoryName)
      {
        assert order[..i + 1][..i] == order[..i];
        var task := tasks[order[i]];
        if RunningMatch(task, repositoryName) {
          list := list + [task];
        }
        i := i + 1;
      }
      assert order[..i] == order;
    }

    /** `clean_old_tasks`: removes the completed and failed tasks created before
        `now - days` (in whole seconds; `timestamp` gives a creation time in whole seconds).
        A creation time that does not parse raises before anything is removed, which
        `ok == false` reports. */
    method CleanOldTasks(days: int, now: int, timestamp: string -> Option<int>) returns (ok: bool)
      requires Valid()
      modifies this
      ensures Valid()
      ensures ok <==> Parses(old(tasks), old(order), timestamp)
      ensures !ok ==> tasks == old(tasks) && order == old(order)
      ensures ok ==> tasks == Drop(old(tasks), IdSet(ExpiredIds(old(tasks), old(order), now - days * 86400, timestamp)))
      ensures ok ==> order == Without(old(order), IdSet(ExpiredIds(old(tasks), old(order), now - days * 86400, timestamp)))
    {
      var cutoff := now - days * 86400;
      var expired;
      ok, expired := ScanExpired(tasks, order, cutoff, timestamp);
      if !ok {
        return;
      }
      var gone := IdSet(expired);
      assert expired == ExpiredIds(tasks, order, cutoff, timestamp);
      assert gone == IdSet(ExpiredIds(old(tasks), old(order), now - days * 86400, timestamp));
      DropConsistent(tasks, order, gone);
      tasks := Drop(tasks, gone);
      order := Without(order, gone);
    }

    /** The scan loop of `clean_old_tasks`. */
    static method ScanExpired(m: map<string, Record>, ids: seq<string>, cutoff: int, timestamp: string -> Option<int>)
      returns (ok: bool, expired: seq<string>)
      requires forall id :: id in ids ==> id in m
      ensures ok <==> Parses(m, ids, timestamp)
      ensures ok ==> expired == ExpiredIds(m, ids, cutoff, timestamp)
    {
      expired := [];
      var i := 0;
      while i < |ids|
        invariant 0 <= i <= |ids|
        invariant Parses(m, ids[..i], timestamp)
        invariant expired == ExpiredIds(m, ids[..i], cutoff, timestamp)
      {
        ScanStep(m, ids, cutoff, timestamp, i);
        var task := m[ids[i]];
        if Finished(task) {
          var created := CreatedSeconds(task, timestamp);
          if created.None? {
            Unparsed(m, ids, timestamp, i);
            return false, expired;
          }
          if created.value < cutoff {
            expired := expired + [ids[i]];
          }
        }
        i := i + 1;
      }
      assert ids[..i] == ids;
      ok := true;
    }

    /** `cancel_task`: only a pending or running task is cancelled, stamping
        `completed_at`; anything else (an unknown id included) returns false unchanged. */
    method CancelTask(id: string, now: string) returns (ok: bool)
      requires Valid()
      modifies this
      ensures Valid()
      ensures ok <==> id in old(tasks) && (HasStatus(old(tasks)[id], "pending") || HasStatus(old(tasks)[id], "running"))
      ensures ok ==> tasks == old(tasks)[id := old(tasks)[id]["status" := Str("cancelled")]["completed_at" := Str(now)]]
      ensures !ok ==> tasks == old(tasks)
      ensures order == old(order)
    {
      if id in tasks && (HasStatus(tasks[id], "pending") || HasStatus(tasks[id], "running")) {
        tasks := tasks[id := tasks[id]["status" := Str("cancelled")]["completed_at" := Str(now)]];
        return true;
      }
      return false;
    }
  }

  /** `clean_old_tasks` never removes a pending, running or cancelled task, nor one created
      at or after the cutoff: what it removes is exactly the expired tasks. */
  lemma CleanRemovesOnlyExpired(m: map<string, Record>, ids: seq<string>, cutoff: int,
                                timestamp: string -> Option<int>, id: string)
    requires id in m && id in ids
    ensures id in ExpiredIds(m, ids, cutoff, timestamp) <==> Expired(m[id], cutoff, timestamp)
    ensures HasStatus(m[id], "pending") || HasStatus(m[id], "running") || HasStatus(m[id], "cancelled")
      ==> id !in ExpiredIds(m, ids, cutoff, timestamp)
  {
    if Expired(m[id], cutoff, timestamp) {
      ExpiredIdsComplete(m, ids, cutoff, timestamp, id);
    }
  }
}
