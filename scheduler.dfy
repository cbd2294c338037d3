/** The scheduling rules of `backend/src/scheduler/scheduler_manager.py`: when an automatic
    update of a crawler repository is due, and the de-duplicating first-in first-out queue
    of scheduled tasks. Dates are `datetime.date` values in Beijing time; parsing the stored
    ISO timestamp is the abstract function `fromIso`, which yields `None` where
    `datetime.fromisoformat` raises. */
module Scheduler {
  import opened Wrappers
  import opened Json

  // ----- Calendar (the proleptic Gregorian calendar of Python's `datetime`) -----

  datatype Date = Date(year: int, month: int, day: int)

  predicate IsLeap(y: int) {
    y % 4 == 0 && (y % 100 != 0 || y % 400 == 0)
  }

  function DaysInYear(y: int): int {
    if IsLeap(y) then 366 else 365
  }

  function DaysInMonth(y: int, m: int): (r: int)
    requires 1 <= m <= 12
    ensures 28 <= r <= 31
  {
    if m == 2 then (if IsLeap(y) then 29 else 28)
    else if m == 4 || m == 6 || m == 9 || m == 11 then 30
    else 31
  }

  /** A date `datetime.date` accepts. */
  predicate ValidDate(d: Date) {
    1 <= d.year <= 9999 && 1 <= d.month <= 12 && 1 <= d.day <= DaysInMonth(d.year, d.month)
  }

  type CalendarDate = d: Date | ValidDate(d) witness Date(1, 1, 1)

  /** Days of year `y` before the first of month `m`. */
  function DaysBeforeMonth(y: int, m: int): (r: int)
    requires 1 <= m <= 12
    ensures 0 <= r <= 335
  {
    [0, 31, 59, 90, 120, 151, 181, 212, 243, 273, 304, 334][m - 1] + (if m > 2 && IsLeap(y) then 1 else 0)
  }

  /** Days before 1 January of year `y`. */
  function DaysBeforeYear(y: int): int
    requires y >= 1
  {
    var p := y - 1;
    p * 365 + p / 4 - p / 100 + p / 400
  }

  /** `date.toordinal()`: 1 January of year 1 is day 1. */
  function Ordinal(d: CalendarDate): int {
    DaysBeforeYear(d.year) + DaysBeforeMonth(d.year, d.month) + d.day
  }

  /** `date.weekday()`: Monday is 0 and Sunday 6. */
  function Weekday(d: CalendarDate): (r: int)
    ensures 0 <= r < 7
  {
    (Ordinal(d) + 6) % 7
  }

  /** 1 January 2024 was a Monday and 7 January a Sunday. */
  lemma WeekdaySamples()
    ensures Weekday(Date(2024, 1, 1)) == 0 && Weekday(Date(2024, 1, 7)) == 6
  {
  }

  /** Python's `a < b` on dates: lexicographic on (year, month, day). */
  predicate Before(a: Date, b: Date) {
    a.year < b.year || (a.year == b.year && (a.month < b.month || (a.month == b.month && a.day < b.day)))
  }

  /** `(b - a).days`. */
  function DaysBetween(a: CalendarDate, b: CalendarDate): int {
    Ordinal(b) - Ordinal(a)
  }

  lemma DivStep(y: int)
    requires y >= 1
    ensures y / 4 - (y - 1) / 4 == (if y % 4 == 0 then 1 else 0)
    ensures y / 100 - (y - 1) / 100 == (if y % 100 == 0 then 1 else 0)
    ensures y / 400 - (y - 1) / 400 == (if y % 400 == 0 then 1 else 0)
  {
  }

  /** A year takes up exactly its own number of days. */
  lemma DaysBeforeNextYear(y: int)
    requires y >= 1
    ensures DaysBeforeYear(y + 1) == DaysBeforeYear(y) + DaysInYear(y)
  {
    var p := y - 1;
    assert DaysBeforeYear(y + 1) == y * 365 + y / 4 - y / 100 + y / 400;
    assert DaysBeforeYear(y) == p * 365 + p / 4 - p / 100 + p / 400;
    assert y * 365 == p * 365 + 365;
    DivStep(y);
    LeapCount(y);
  }

  /** A leap year is one divisible by 4, less those divisible by 100, plus those divisible
      by 400. */
  lemma LeapCount(y: int)
    ensures DaysInYear(y) - 365
      == (if y % 4 == 0 then 1 else 0) - (if y % 100 == 0 then 1 else 0) + (if y % 400 == 0 then 1 else 0)
  {
    if y % 400 == 0 {
      var k := y / 400;
      assert y % 100 == 0 by { assert y == 100 * (4 * k); }
      assert y % 4 == 0 by { assert y == 4 * (100 * k); }
      assert IsLeap(y);
    } else if y % 100 == 0 {
      var k := y / 100;
      assert y % 4 == 0 by { assert y == 4 * (25 * k); }
      assert !IsLeap(y);
    }
  }

  /** All days of an earlier year come before the first day of a later one. */
  lemma {:induction false} YearsInOrder(y: int, z: int)
    requires 1 <= y < z
    ensures DaysBeforeYear(y) + DaysInYear(y) <= DaysBeforeYear(z)
    decreases z - y
  {
    DaysBeforeNextYear(y);
    if y + 1 < z {
      YearsInOrder(y + 1, z);
      DaysBeforeNextYear(y + 1);
    }
  }

  /** A month ends no later than the first day of any later month of its year, and the
      last month ends with the year. */
  lemma MonthsInOrder(y: int, m: int, n: int)
    requires 1 <= m < n <= 12
    ensures DaysBeforeMonth(y, m) + DaysInMonth(y, m) <= DaysBeforeMonth(y, n)
  {
  }

  lemma YearEnd(y: int)
    ensures DaysBeforeMonth(y, 12) + DaysInMonth(y, 12) == DaysInYear(y)
  {
  }

  /** A date's ordinal lies within its year. */
  lemma OrdinalInYear(d: CalendarDate)
    ensures DaysBeforeYear(d.year) < Ordinal(d) <= DaysBeforeYear(d.year) + DaysInYear(d.year)
  {
    YearEnd(d.year);
    if d.month < 12 {
      MonthsInOrder(d.year, d.month, 12);
    }
  }

  lemma OrdinalIncreasing(a: CalendarDate, b: CalendarDate)
    requires Before(a, b)
    ensures Ordinal(a) < Ordinal(b)
  {
    if a.year < b.year {
      OrdinalInYear(a);
      OrdinalInYear(b);
      YearsInOrder(a.year, b.year);
    } else if a.month < b.month {
      MonthsInOrder(a.year, a.month, b.month);
    }
  }

  /** Comparing dates is comparing their ordinals, so the daily rule's `now.date() >
      last_update.date()` and the weekly rule's day count measure the same order. */
  lemma OrdinalOrder(a: CalendarDate, b: CalendarDate)
    ensures Before(a, b) <==> Ordinal(a) < Ordinal(b)
    ensures a == b <==> Ordinal(a) == Ordinal(b)
  {
    if Before(a, b) {
      OrdinalIncreasing(a, b);
    } else if a != b {
      OrdinalIncreasing(b, a);
    }
  }

  // ----- _should_execute_task -----

  /** The scheduler's clock reading: a date, an hour and a minute in Beijing time. */
  datatype Moment = Moment(date: CalendarDate, hour: int, minute: int)

  /** Between 00:01 and 00:59, the window every rule shares. */
  predicate InWindow(now: Moment) {
    now.hour == 0 && now.minute >= 1
  }

  predicate DailyDue(now: Moment, last: CalendarDate) {
    InWindow(now) && Before(last, now.date)
  }

  predicate WeeklyDue(now: Moment, last: CalendarDate) {
    InWindow(now) && Weekday(now.date) == 0 && DaysBetween(last, now.date) >= 7
  }

  predicate MonthlyDue(now: Moment, last: CalendarDate) {
    InWindow(now) && now.date.day == 1 && (now.date.month != last.month || now.date.year != last.year)
  }

  predicate YearlyDue(now: Moment, last: CalendarDate) {
    InWindow(now) && now.date.day == 1 && now.date.month == 1 && now.date.year > last.year
  }

  /** `datetime.fromisoformat(last_update_str)`; a value that is not a string raises too. */
  function LastUpdate(v: Value, fromIso: string -> Option<CalendarDate>): Option<CalendarDate> {
    if v.Str? then fromIso(v.s) else None
  }

  predicate IsCrawler(repository: Record) {
    Get(repository, "source", Null) == Str("crawler")
  }

  /** `_should_execute_task(repository, now)`. */
  function ShouldExecute(repository: Record, now: Moment, fromIso: string -> Option<CalendarDate>): (due: bool)
    ensures !IsCrawler(repository) ==> !due
    ensures IsCrawler(repository) && !Truthy(Get(repository, "last_auto_update", Null)) ==> due
    ensures IsCrawler(repository) && LastUpdate(Get(repository, "last_auto_update", Null), fromIso).None? ==> due
    ensures due && IsCrawler(repository) && LastUpdate(Get(repository, "last_auto_update", Null), fromIso).Some?
            && Truthy(Get(repository, "last_auto_update", Null))
            ==> InWindow(now) && Get(repository, "update_frequency", Null) in
                  {Str("daily"), Str("weekly"), Str("monthly"), Str("yearly")}
  {
    var frequency := Get(repository, "update_frequency", Null);
    if !IsCrawler(repository) then false
    else
      var last := Get(repository, "last_auto_update", Null);
      if !Truthy(last) then true
      else match LastUpdate(last, fromIso)
        case None => true
        case Some(d) =>
          if frequency == Str("daily") then DailyDue(now, d)
          else if frequency == Str("weekly") then WeeklyDue(now, d)
          else if frequency == Str("monthly") then MonthlyDue(now, d)
          else if frequency == Str("yearly") then YearlyDue(now, d)
          else false
  }

  /** A crawler repository whose last update parses: the rule its frequency names decides. */
  lemma ShouldExecuteByFrequency(repository: Record, now: Moment, fromIso: string -> Option<CalendarDate>, last: CalendarDate)
    requires IsCrawler(repository)
    requires Truthy(Get(repository, "last_auto_update", Null))
    requires LastUpdate(Get(repository, "last_auto_update", Null), fromIso) == Some(last)
    ensures Get(repository, "update_frequency", Null) == Str("daily") ==> (ShouldExecute(repository, now, fromIso) <==> DailyDue(now, last))
    ensures Get(repository, "update_frequency", Null) == Str("weekly") ==> (ShouldExecute(repository, now, fromIso) <==> WeeklyDue(now, last))
    ensures Get(repository, "update_frequency", Null) == Str("monthly") ==> (ShouldExecute(repository, now, fromIso) <==> MonthlyDue(now, last))
    ensures Get(repository, "update_frequency", Null) == Str("yearly") ==> (ShouldExecute(repository, now, fromIso) <==> YearlyDue(now, last))
  {
  }

  /** A weekly update is due only on a day a daily one would be. */
  lemma WeeklyImpliesDaily(now: Moment, last: CalendarDate)
    requires WeeklyDue(now, last)
    ensures DailyDue(now, last)
  {
    OrdinalOrder(last, now.date);
  }

  /** A yearly update is due only on a day a monthly one would be. */
  lemma YearlyImpliesMonthly(now: Moment, last: CalendarDate)
    requires YearlyDue(now, last)
    ensures MonthlyDue(now, last)
  {
  }

  /** Once an update of `now`'s day is recorded, no rule is due again later that day, and
      a weekly update is not due again within the next six days. */
  lemma NotDueTwice(now: Moment, later: Moment, frequency: string)
    requires frequency in {"daily", "weekly", "monthly", "yearly"}
    requires now.date == later.date || (frequency == "weekly" && Ordinal(later.date) - Ordinal(now.date) < 7)
    ensures !DailyDue(later, now.date) || frequency != "daily"
    ensures !WeeklyDue(later, now.date)
    ensures !MonthlyDue(later, now.date) || frequency == "weekly"
    ensures !YearlyDue(later, now.date) || frequency == "weekly"
  {
    if now.date == later.date {
      OrdinalOrder(now.date, later.date);
    }
  }

  /** After a monthly update, the rule is not due again before the next month begins; after
      a yearly one, not before the next year begins. */
  lemma NotDueInSamePeriod(last: CalendarDate, later: Moment)
    requires later.date.year == last.year
    ensures later.date.month == last.month ==> !MonthlyDue(later, last)
    ensures !YearlyDue(later, last)
  {
  }

  /** Recording the update in `last_auto_update`, as `_execute_auto_update_task` does once it
      finishes, stops the daily rule from firing again the same day. */
  lemma RecordedUpdateNotDueSameDay(repository: Record, now: Moment, stamp: string, fromIso: string -> Option<CalendarDate>)
    requires IsCrawler(repository)
    requires Get(repository, "update_frequency", Null) == Str("daily")
    requires stamp != "" && fromIso(stamp) == Some(now.date)
    ensures !ShouldExecute(repository["last_auto_update" := Str(stamp)], now, fromIso)
  {
    var r := repository["last_auto_update" := Str(stamp)];
    assert Get(r, "source", Null) == Get(repository, "source", Null);
    assert Get(r, "update_frequency", Null) == Str("daily");
    ShouldExecuteByFrequency(r, now, fromIso, now.date);
  }

  // ----- The task queue -----

  /** A queued task: `{'type', 'repository_name', 'scheduled_time'}`. */
  datatype QueuedTask = QueuedTask(kind: string, repositoryName: string, scheduledTime: string)

  /** What `_add_task_to_queue` compares: the type and the repository name. */
  function Key(t: QueuedTask): (string, string) {
    (t.kind, t.repositoryName)
  }

  predicate Queued(q: seq<QueuedTask>, key: (string, string)) {
    exists i :: 0 <= i < |q| && Key(q[i]) == key
  }

  /** No two queued tasks share a type and a repository. */
  predicate Distinct(q: seq<QueuedTask>) {
    forall i, j :: 0 <= i < j < |q| ==> Key(q[i]) != Key(q[j])
  }

  /** The queue after `_add_task_to_queue(task)`. */
  function Enqueued(q: seq<QueuedTask>, task: QueuedTask): (r: seq<QueuedTask>)
    ensures Queued(r, Key(task))
    ensures Distinct(q) ==> Distinct(r)
    ensures forall k :: Queued(r, k) <==> Queued(q, k) || k == Key(task)
  {
    if Queued(q, Key(task)) then q
    else
      var r := q + [task];
      assert Key(r[|q|]) == Key(task);
      assert forall k :: Queued(q, k) ==> Queued(r, k) by {
        forall k | Queued(q, k) ensures Queued(r, k) {
          var i :| 0 <= i < |q| && Key(q[i]) == k;
          assert Key(r[i]) == k;
        }
      }
      r
  }

  /** Adding the same task twice is adding it once. */
  lemma EnqueuedIdempotent(q: seq<QueuedTask>, task: QueuedTask)
    ensures Enqueued(Enqueued(q, task), task) == Enqueued(q, task)
  {
  }

  /** `_add_task_to_queue` for each task in turn. */
  function EnqueuedAll(q: seq<QueuedTask>, tasks: seq<QueuedTask>): seq<QueuedTask>
    decreases |tasks|
  {
    if tasks == [] then q else EnqueuedAll(Enqueued(q, tasks[0]), tasks[1..])
  }

  /** No task of `tasks` shares a type and a repository with a task of `q`. */
  predicate Disjoint(q: seq<QueuedTask>, tasks: seq<QueuedTask>) {
    forall i, j :: 0 <= i < |q| && 0 <= j < |tasks| ==> Key(q[i]) != Key(tasks[j])
  }

  lemma DisjointStep(q: seq<QueuedTask>, tasks: seq<QueuedTask>)
    requires tasks != [] && Distinct(tasks) && Disjoint(q, tasks)
    ensures Distinct(tasks[1..]) && Disjoint(q + [tasks[0]], tasks[1..])
  {
    var q' := q + [tasks[0]];
    forall i, j | 0 <= i < |q'| && 0 <= j < |tasks| - 1
      ensures Key(q'[i]) != Key(tasks[1..][j])
    {
      assert tasks[1..][j] == tasks[j + 1];
      if i < |q| {
        assert q'[i] == q[i];
      }
    }
    forall i, j | 0 <= i < j < |tasks| - 1
      ensures Key(tasks[1..][i]) != Key(tasks[1..][j])
    {
      assert tasks[1..][i] == tasks[i + 1] && tasks[1..][j] == tasks[j + 1];
    }
  }

  /** Tasks that are new and pairwise distinct join the back of the queue in the order they
      were added, so they are executed in that order. */
  lemma {:induction false} EnqueuedAllFresh(q: seq<QueuedTask>, tasks: seq<QueuedTask>)
    requires Distinct(tasks) && Disjoint(q, tasks)
    ensures EnqueuedAll(q, tasks) == q + tasks
    decreases |tasks|
  {
    if tasks != [] {
      assert forall i :: 0 <= i < |q| ==> Key(q[i]) != Key(tasks[0]);
      DisjointStep(q, tasks);
      EnqueuedAllFresh(q + [tasks[0]], tasks[1..]);
      assert q + [tasks[0]] + tasks[1..] == q + tasks;
    }
  }

  /** The oldest task of the queue and the queue left behind (`task_queue.pop(0)`). */
  function Dequeued(q: seq<QueuedTask>): (r: (Option<QueuedTask>, seq<QueuedTask>))
    ensures q == [] <==> r.0.None?
    ensures r.0.Some? ==> [r.0.value] + r.1 == q
    ensures q == [] ==> r.1 == []
  {
    if q == [] then (None, q) else (Some(q[0]), q[1..])
  }

  /** Removing the oldest task keeps the queue free of duplicates. */
  lemma DequeuedDistinct(q: seq<QueuedTask>)
    ensures Distinct(q) ==> Distinct(Dequeued(q).1)
  {
    if q != [] && Distinct(q) {
      forall i, j | 0 <= i < j < |q| - 1
        ensures Key(q[1..][i]) != Key(q[1..][j])
      {
        assert q[1..][i] == q[i + 1] && q[1..][j] == q[j + 1];
      }
    }
  }

  /** The task `add_auto_update_task` queues. */
  function AutoUpdateTask(name: string, now: string): QueuedTask {
    QueuedTask("auto_update", name, now)
  }

  /** The checks of `add_auto_update_task`: the repository exists (a non-empty record), its
      source is the crawler and its automatic update is switched on. */
  predicate AutoUpdateAllowed(repositories: map<string, Record>, name: string) {
    name in repositories && repositories[name] != map[]
    && IsCrawler(repositories[name]) && Truthy(Get(repositories[name], "auto_update", Null))
  }

  /** The global `task_queue`. */
  class TaskQueue {
    var tasks: seq<QueuedTask>

    ghost predicate Valid()
      reads this
    {
      Distinct(tasks)
    }

    constructor()
      ensures tasks == [] && Valid()
    {
      tasks := [];
    }

    /** The scan of `_add_task_to_queue` for a task with the same type and repository. */
    static method FindDuplicate(q: seq<QueuedTask>, task: QueuedTask) returns (found: bool)
      ensures found <==> Queued(q, Key(task))
    {
      var i := 0;
      while i < |q|
        invariant 0 <= i <= |q|
        invariant forall j :: 0 <= j < i ==> Key(q[j]) != Key(task)
      {
        if q[i].kind == task.kind && q[i].repositoryName == task.repositoryName {
          return true;
        }
        i := i + 1;
      }
      return false;
    }

    /** `_add_task_to_queue(task)`. */
    method Add(task: QueuedTask)
      modifies this
      ensures tasks == Enqueued(old(tasks), task)
      ensures old(Valid()) ==> Valid()
    {
      var found := FindDuplicate(tasks, task);
      if !found {
        tasks := tasks + [task];
      }
    }

    /** `_execute_queued_tasks`: takes the oldest task, which the caller then runs. */
    method TakeNext() returns (next: Option<QueuedTask>)
      modifies this
      ensures (next, tasks) == Dequeued(old(tasks))
      ensures old(Valid()) ==> Valid()
    {
      DequeuedDistinct(tasks);
      if tasks == [] {
        return None;
      }
      next := Some(tasks[0]);
      tasks := tasks[1..];
    }

    /** `add_auto_update_task(repository_name)`, reading the repository store. */
    method AddAutoUpdateTask(repositories: map<string, Record>, name: string, now: string) returns (success: bool)
      modifies this
      ensures success <==> AutoUpdateAllowed(repositories, name)
      ensures tasks == if success then Enqueued(old(tasks), AutoUpdateTask(name, now)) else old(tasks)
      ensures old(Valid()) ==> Valid()
    {
      if name !in repositories || repositories[name] == map[] {
        return false;
      }
      var repository := repositories[name];
      if Get(repository, "source", Null) != Str("crawler") {
        return false;
      }
      if !Truthy(Get(repository, "auto_update", Null)) {
        return false;
      }
      Add(AutoUpdateTask(name, now));
      return true;
    }
  }
}
