/** The hosted record store (`useTaskDataSupabase`): the catalogue and, per
    date, the completion rows loaded from the backend. Unlike the local
    store it keeps no cached points: earned points are always recomputed
    from the current catalogue. Queries, authentication and the upsert
    itself are outside the model; `ToggleTask` and `EditTask` return the
    write they would send. */
module HostedStore {
  import opened Wrappers
  import opened Tasks
  import Tally

  /** A completion row of one date (`DailyRecordDB`). */
  datatype CompletionRow = CompletionRow(taskId: string, completed: bool)

  /** A row as the backend returns it: `date, task_id, completed`. */
  datatype DbRow = DbRow(date: DateKey, taskId: string, completed: bool)

  /** The upsert `toggleTask` sends, keyed on (user, date, task id). */
  datatype Upsert = Upsert(date: DateKey, taskId: string, completed: bool)

  /** The update `editTask` sends for (user, task id). */
  datatype TaskUpdate = TaskUpdate(taskId: string, name: string, points: int)

  /** The loaded rows of one date, in load order, without the date. */
  function RowsOn(rows: seq<DbRow>, date: DateKey): seq<CompletionRow>
  {
    if rows == [] then []
    else
      var last := rows[|rows| - 1];
      RowsOn(rows[..|rows| - 1], date) +
      (if last.date == date then [CompletionRow(last.taskId, last.completed)] else [])
  }

  /** The grouping loop of `loadRecords`: a date is a key exactly when some
      row carries it, and each date's list holds that date's rows, in order. */
  method GroupByDate(rows: seq<DbRow>) returns (grouped: map<DateKey, seq<CompletionRow>>)
    ensures forall d :: d in grouped <==> exists i :: 0 <= i < |rows| && rows[i].date == d
    ensures forall d :: d in grouped ==> grouped[d] == RowsOn(rows, d)
  {
    grouped := map[];
    for i := 0 to |rows|
      invariant forall d :: d in grouped <==> exists j :: 0 <= j < i && rows[j].date == d
      invariant forall d :: d in grouped ==> grouped[d] == RowsOn(rows[..i], d)
    {
      var r := rows[i];
      assert rows[..i + 1][..i] == rows[..i] && rows[..i + 1][i] == r;
      if r.date !in grouped {
        grouped := grouped[r.date := []];
        RowsOnAbsent(rows[..i], r.date);
      }
      grouped := grouped[r.date := grouped[r.date] + [CompletionRow(r.taskId, r.completed)]];
    }
    assert rows[..|rows|] == rows;
  }

  lemma {:induction false} RowsOnAbsent(rows: seq<DbRow>, date: DateKey)
    requires forall j :: 0 <= j < |rows| ==> rows[j].date != date
    ensures RowsOn(rows, date) == []
  {
    if rows != [] {
      RowsOnAbsent(rows[..|rows| - 1], date);
    }
  }

  /** Grouping loses no row and invents none: the date lists together hold
      as many rows as were loaded, and a date's list is empty only when no
      row carries it. */
  lemma {:induction false} RowsOnLength(rows: seq<DbRow>, date: DateKey)
    ensures |RowsOn(rows, date)| == |set i | 0 <= i < |rows| && rows[i].date == date|
  {
    if rows != [] {
      var front := rows[..|rows| - 1];
      RowsOnLength(front, date);
      var before := set i | 0 <= i < |front| && front[i].date == date;
      var now := set i | 0 <= i < |rows| && rows[i].date == date;
      var last := |rows| - 1;
      var added := if rows[last].date == date then {last} else {};
      forall i ensures i in now <==> i in before + added {
        if 0 <= i < |front| {
          assert rows[i] == front[i];
        }
      }
      assert now == before + added;
      assert before !! added;
    }
  }

  /** `records.find(r => r.task_id === id)`. */
  function FirstRow(rows: seq<CompletionRow>, id: string): (r: Option<nat>)
    ensures r.None? ==> forall i :: 0 <= i < |rows| ==> rows[i].taskId != id
    ensures r.Some? ==> r.value < |rows| && rows[r.value].taskId == id &&
                        forall i :: 0 <= i < r.value ==> rows[i].taskId != id
  {
    if rows == [] then None
    else if rows[0].taskId == id then Some(0)
    else match FirstRow(rows[1..], id)
      case None => None
      case Some(k) => Some(k + 1)
  }

  /** Whether the day's rows mark the id done: the first row with that id
      decides, and no row means not done (`record?.completed || false`). */
  function IsDone(rows: seq<CompletionRow>, id: string): bool
  {
    match FirstRow(rows, id)
    case Some(k) => rows[k].completed
    case None => false
  }

  /** `getTodaysTasks`: one task per catalogue entry, in catalogue order, its
      flag read from the date's rows. */
  function TodaysTasks(catalogue: seq<TaskDef>, rows: seq<CompletionRow>): (r: seq<Task>)
    ensures |r| == |catalogue|
    ensures forall i :: 0 <= i < |r| ==>
              && r[i].id == catalogue[i].id && r[i].name == catalogue[i].name && r[i].points == catalogue[i].points
              && r[i].completed == IsDone(rows, catalogue[i].id)
  {
    seq(|catalogue|, i requires 0 <= i < |catalogue| =>
      Task(catalogue[i].id, catalogue[i].name, catalogue[i].points, IsDone(rows, catalogue[i].id)))
  }

  /** A date with no rows shows the catalogue with every task unticked. */
  lemma NoRowsAllUnticked(catalogue: seq<TaskDef>)
    ensures TodaysTasks(catalogue, []) == Unticked(catalogue)
  {
  }

  /** The rows after setting the id's flag: the first row with that id is
      rewritten, or a row is appended when there is none. */
  function SetRow(rows: seq<CompletionRow>, id: string, done: bool): (r: seq<CompletionRow>)
    ensures FirstRow(rows, id).Some? ==> r == rows[FirstRow(rows, id).value := CompletionRow(id, done)]
    ensures FirstRow(rows, id).None? ==> r == rows + [CompletionRow(id, done)]
  {
    match FirstRow(rows, id)
    case Some(k) => rows[k := rows[k].(completed := done)]
    case None => rows + [CompletionRow(id, done)]
  }

  /** After setting an id's flag, the id reads as set and every other id
      reads as before. */
  lemma SetRowReads(rows: seq<CompletionRow>, id: string, done: bool, other: string)
    ensures IsDone(SetRow(rows, id, done), id) == done
    ensures other != id ==> IsDone(SetRow(rows, id, done), other) == IsDone(rows, other)
  {
    var r := SetRow(rows, id, done);
    match FirstRow(rows, id)
    case Some(k) =>
      assert FirstRow(r, id) == Some(k) by { FirstRowUnique(r, id, k); }
      if other != id {
        match FirstRow(rows, other)
        case Some(m) => FirstRowUnique(r, other, m);
        case None => assert forall i :: 0 <= i < |r| ==> r[i].taskId != other;
      }
    case None =>
      FirstRowUnique(r, id, |rows|);
      if other != id {
        match FirstRow(rows, other)
        case Some(m) => FirstRowUnique(r, other, m);
        case None => assert forall i :: 0 <= i < |r| ==> r[i].taskId != other;
      }
  }

  lemma FirstRowUnique(rows: seq<CompletionRow>, id: string, k: nat)
    requires k < |rows| && rows[k].taskId == id
    requires forall i :: 0 <= i < k ==> rows[i].taskId != id
    ensures FirstRow(rows, id) == Some(k)
  {
  }

  /** The date's rows after a toggle of `id`: its flag negated. */
  function ToggledRows(rows: seq<CompletionRow>, id: string): seq<CompletionRow>
  {
    SetRow(rows, id, !IsDone(rows, id))
  }

  /** A toggle flips the shown flag of the toggled catalogue task and of no
      other task; toggling twice shows the original flags again. */
  lemma ToggleFlipsShownFlag(catalogue: seq<TaskDef>, rows: seq<CompletionRow>, id: string)
    ensures var before := TodaysTasks(catalogue, rows);
            var after := TodaysTasks(catalogue, ToggledRows(rows, id));
            forall i :: 0 <= i < |after| ==>
              after[i].completed == (before[i].completed != (catalogue[i].id == id))
    ensures TodaysTasks(catalogue, ToggledRows(ToggledRows(rows, id), id)) == TodaysTasks(catalogue, rows)
  {
    var once := ToggledRows(rows, id);
    var twice := ToggledRows(once, id);
    SetRowReads(rows, id, !IsDone(rows, id), id);
    SetRowReads(once, id, !IsDone(once, id), id);
    forall i | 0 <= i < |catalogue|
      ensures IsDone(once, catalogue[i].id) == (IsDone(rows, catalogue[i].id) != (catalogue[i].id == id))
      ensures IsDone(twice, catalogue[i].id) == IsDone(rows, catalogue[i].id)
    {
      SetRowReads(rows, id, !IsDone(rows, id), catalogue[i].id);
      SetRowReads(once, id, !IsDone(once, id), catalogue[i].id);
    }
  }

  /** The points a day's rows earn: each completed row adds the current
      catalogue points of its id, or 0 when the id is not in the catalogue. */
  function RowsEarned(rows: seq<CompletionRow>, catalogue: seq<TaskDef>): int
  {
    if rows == [] then 0
    else
      (if rows[0].completed then (match FindTask(catalogue, rows[0].taskId)
                                  case Some(t) => t.points
                                  case None => 0) else 0)
      + RowsEarned(rows[1..], catalogue)
  }

  /** Rows none of which is a completed catalogue task earn nothing. */
  lemma {:induction false} RowsEarnedNothing(rows: seq<CompletionRow>, catalogue: seq<TaskDef>)
    requires forall i :: 0 <= i < |rows| && rows[i].completed ==> FindTask(catalogue, rows[i].taskId).None?
    ensures RowsEarned(rows, catalogue) == 0
  {
    if rows != [] {
      RowsEarnedNothing(rows[1..], catalogue);
    }
  }

  /** `getMonthlyData`: one entry per day of the month, in ascending order;
      earned recomputed from the day's rows with the current catalogue,
      total the current catalogue total. */
  function MonthlyData(records: map<DateKey, seq<CompletionRow>>, catalogue: seq<TaskDef>,
                       firstDay: DateKey, daysInMonth: nat): (r: seq<DayPoint>)
    ensures |r| == daysInMonth
    ensures forall i :: 0 <= i < |r| ==> r[i].day == firstDay + i && r[i].total == SumPoints(catalogue)
    ensures forall i :: 0 <= i < |r| ==>
              r[i].earned == RowsEarned(if firstDay + i in records then records[firstDay + i] else [], catalogue)
  {
    seq(daysInMonth, i =>
      DayPoint(firstDay + i,
               RowsEarned(if firstDay + i in records then records[firstDay + i] else [], catalogue),
               SumPoints(catalogue)))
  }

  /** A day whose completed rows are worth points shows them: repricing the
      catalogue changes the day's earned points at once, unlike the cached
      points of the local store. With one completed row for a catalogue task
      (distinct ids), the day earns exactly that task's current points. */
  lemma MonthlyEarnedFollowsCatalogue(catalogue: seq<TaskDef>, k: nat, firstDay: DateKey)
    requires k < |catalogue| && DistinctIds(catalogue)
    ensures var records := map[firstDay := [CompletionRow(catalogue[k].id, true)]];
            MonthlyData(records, catalogue, firstDay, 1)[0].earned == catalogue[k].points
  {
    FindDistinct(catalogue, k);
    var rows := [CompletionRow(catalogue[k].id, true)];
    assert rows[1..] == [];
    assert RowsEarned(rows, catalogue) == catalogue[k].points + RowsEarned([], catalogue);
  }

  /** The names counted for one date: each completed row whose id is in
      the catalogue, under that entry's name; other rows are not counted. */
  function DayEvents(rows: seq<CompletionRow>, catalogue: seq<TaskDef>): seq<string>
  {
    if rows == [] then []
    else
      var last := rows[|rows| - 1];
      DayEvents(rows[..|rows| - 1], catalogue) +
      (if last.completed && FindTask(catalogue, last.taskId).Some?
       then [FindTask(catalogue, last.taskId).value.name] else [])
  }

  /** The names counted over the first `k` days of the month. */
  function MonthEvents(records: map<DateKey, seq<CompletionRow>>, catalogue: seq<TaskDef>, firstDay: DateKey, k: nat): seq<string>
  {
    if k == 0 then []
    else
      MonthEvents(records, catalogue, firstDay, k - 1) +
      (if firstDay + k - 1 in records then DayEvents(records[firstDay + k - 1], catalogue) else [])
  }

  /** Every counted name is a catalogue name. */
  lemma {:induction false} DayEventsAreCatalogueNames(rows: seq<CompletionRow>, catalogue: seq<TaskDef>)
    ensures forall n :: n in DayEvents(rows, catalogue) ==> exists t :: t in catalogue && t.name == n
  {
    if rows != [] {
      DayEventsAreCatalogueNames(rows[..|rows| - 1], catalogue);
    }
  }

  /** The hook's state: whether a user is signed in, the selected date,
      the catalogue and the loaded rows by date. */
  class HostedTaskStore {
    var signedIn: bool
    var currentDate: DateKey
    var customTasks: seq<TaskDef>
    var dailyRecords: map<DateKey, seq<CompletionRow>>

    constructor (signedIn: bool, today: DateKey)
      ensures this.signedIn == signedIn && currentDate == today
      ensures customTasks == DEFAULT_TASKS && dailyRecords == map[]
    {
      this.signedIn := signedIn;
      currentDate := today;
      customTasks := DEFAULT_TASKS;
      dailyRecords := map[];
    }

    /** The end of `loadRecords`: on success the loaded rows, grouped by
        date, replace the records; on a failed query nothing changes. */
    method LoadRecords(loaded: Option<seq<DbRow>>)
      modifies this
      ensures loaded.None? ==> dailyRecords == old(dailyRecords)
      ensures loaded.Some? ==> forall d :: d in dailyRecords <==> exists i :: 0 <= i < |loaded.value| && loaded.value[i].date == d
      ensures loaded.Some? ==> forall d :: d in dailyRecords ==> dailyRecords[d] == RowsOn(loaded.value, d)
      ensures signedIn == old(signedIn) && currentDate == old(currentDate) && customTasks == old(customTasks)
    {
      if loaded.Some? {
        dailyRecords := GroupByDate(loaded.value);
      }
    }

    /** The selected date's rows (`dailyRecords[dateKey] || []`). */
    function TodaysRows(): seq<CompletionRow>
      reads this
    {
      if currentDate in dailyRecords then dailyRecords[currentDate] else []
    }

    /** `toggleTask`: with no user, or an id that is not among the day's
        tasks, nothing happens. Otherwise the id's flag is negated in the
        selected date's rows (rewriting its first row or appending one), no
        other date changes, and the upsert carrying the new flag is returned. */
    method ToggleTask(taskId: string) returns (write: Option<Upsert>)
      modifies this
      ensures signedIn == old(signedIn) && currentDate == old(currentDate) && customTasks == old(customTasks)
      ensures !signedIn || FindTask(customTasks, taskId).None? ==>
                write == None && dailyRecords == old(dailyRecords)
      ensures signedIn && FindTask(customTasks, taskId).Some? ==>
                && dailyRecords == old(dailyRecords)[currentDate := ToggledRows(old(TodaysRows()), taskId)]
                && write == Some(Upsert(currentDate, taskId, !IsDone(old(TodaysRows()), taskId)))
    {
      if !signedIn {
        return None;
      }
      var current := TodaysTasks(customTasks, TodaysRows());
      var found := FindShown(current, taskId);
      if found.None? {
        ShownMatchesCatalogue(customTasks, TodaysRows(), taskId);
        return None;
      }
      ShownMatchesCatalogue(customTasks, TodaysRows(), taskId);
      var newCompleted := !found.value.completed;
      var rows := TodaysRows();
      var updated := match FirstRow(rows, taskId)
        case Some(k) => rows[k := rows[k].(completed := newCompleted)]
        case None => rows + [CompletionRow(taskId, newCompleted)];
      dailyRecords := dailyRecords[currentDate := updated];
      write := Some(Upsert(currentDate, taskId, newCompleted));
    }

    /** `editTask`: with no user nothing happens; otherwise the entries with
        that id are renamed and repriced and the update is returned. */
    method EditTask(taskId: string, name: string, points: int) returns (write: Option<TaskUpdate>)
      modifies this
      ensures signedIn == old(signedIn) && currentDate == old(currentDate) && dailyRecords == old(dailyRecords)
      ensures !signedIn ==> write == None && customTasks == old(customTasks)
      ensures signedIn ==> write == Some(TaskUpdate(taskId, name, points))
                           && customTasks == EditCatalogue(old(customTasks), taskId, name, points)
    {
      if !signedIn {
        return None;
      }
      customTasks := EditCatalogue(customTasks, taskId, name, points);
      write := Some(TaskUpdate(taskId, name, points));
    }

    /** `earnedPoints`: the points of the selected date's completed tasks,
        between 0 and the catalogue total when no entry has negative points. */
    function EarnedPoints(): (p: int)
      reads this
      ensures (forall t :: t in customTasks ==> t.points >= 0) ==> 0 <= p <= SumPoints(customTasks)
    {
      EarnedWithinTotal(customTasks, TodaysRows());
      CompletedPoints(TodaysTasks(customTasks, TodaysRows()))
    }

    /** `getTaskStats`: every catalogue name starts at 0, then each completed
        row whose id is in the catalogue counts once under that entry's name. */
    method GetTaskStats(firstDay: DateKey, daysInMonth: int) returns (stats: seq<TaskStat>)
      requires daysInMonth > 0
      ensures stats == Tally.Stats(CatalogueNames(customTasks),
                                   MonthEvents(dailyRecords, customTasks, firstDay, daysInMonth), daysInMonth)
    {
      var records, catalogue := dailyRecords, customTasks;
      var names := CatalogueNames(catalogue);
      var counter := Tally.ZeroCounter(names);
      ghost var zero := counter;
      for k := 0 to daysInMonth
        invariant counter == Tally.BumpAll(zero, MonthEvents(records, catalogue, firstDay, k))
      {
        var rows := if firstDay + k in records then records[firstDay + k] else [];
        ghost var before := MonthEvents(records, catalogue, firstDay, k);
        assert MonthEvents(records, catalogue, firstDay, k + 1) == before + DayEvents(rows, catalogue);
        Tally.BumpAllAppend(zero, before, DayEvents(rows, catalogue));
        counter := CountDay(counter, rows, catalogue);
      }
      ghost var events := MonthEvents(records, catalogue, firstDay, daysInMonth);
      Tally.ZeroedFacts(names);
      Tally.BumpAllFacts(zero, events);
      assert Tally.Stats(names, events, daysInMonth) == Tally.Entries(counter, daysInMonth);
      stats := Tally.Entries(counter, daysInMonth);
    }
  }

  /** The inner loop of `getTaskStats` for one date: each completed row
      whose id is in the catalogue bumps that entry's name. */
  method CountDay(counter: Tally.Counter, rows: seq<CompletionRow>, catalogue: seq<TaskDef>)
    returns (result: Tally.Counter)
    ensures result == Tally.BumpAll(counter, DayEvents(rows, catalogue))
  {
    result := counter;
    for j := 0 to |rows|
      invariant result == Tally.BumpAll(counter, DayEvents(rows[..j], catalogue))
    {
      assert rows[..j + 1][..j] == rows[..j] && rows[..j + 1][j] == rows[j];
      var task := FindTask(catalogue, rows[j].taskId);
      if rows[j].completed && task.Some? {
        ghost var done := DayEvents(rows[..j], catalogue);
        assert DayEvents(rows[..j + 1], catalogue) == done + [task.value.name];
        assert (done + [task.value.name])[..|done|] == done;
        assert Tally.BumpAll(counter, done + [task.value.name]) == Tally.Bump(Tally.BumpAll(counter, done), task.value.name);
        result := Tally.Bump(result, task.value.name);
      } else {
        ghost var done := DayEvents(rows[..j], catalogue);
        assert DayEvents(rows[..j + 1], catalogue) == done + [];
        assert done + [] == done;
      }
    }
    assert rows[..|rows|] == rows;
  }

  /** `currentTasks.find(t => t.id === taskId)` over the shown tasks. */
  function FindShown(tasks: seq<Task>, id: string): (r: Option<Task>)
    ensures r.None? ==> forall i :: 0 <= i < |tasks| ==> tasks[i].id != id
    ensures r.Some? ==> exists i :: 0 <= i < |tasks| && tasks[i] == r.value && r.value.id == id
                          && forall j :: 0 <= j < i ==> tasks[j].id != id
  {
    if tasks == [] then None
    else if tasks[0].id == id then Some(tasks[0])
    else
      var r := FindShown(tasks[1..], id);
      assert r.Some? ==> exists i :: 1 <= i < |tasks| && tasks[i] == r.value
                          && forall j :: 1 <= j < i ==> tasks[j].id != id by {
        if r.Some? {
          var i :| 0 <= i < |tasks[1..]| && tasks[1..][i] == r.value
                   && forall j :: 0 <= j < i ==> tasks[1..][j].id != id;
          assert tasks[i + 1] == r.value;
          assert forall j :: 1 <= j < i + 1 ==> tasks[j].id != id by {
            forall j | 1 <= j < i + 1 ensures tasks[j].id != id {
              assert tasks[j] == tasks[1..][j - 1];
            }
          }
        }
      }
      r
  }

  /** The id is among the shown tasks exactly when it is in the catalogue,
      and the shown flag is the rows' flag for it. */
  lemma ShownMatchesCatalogue(catalogue: seq<TaskDef>, rows: seq<CompletionRow>, id: string)
    ensures FindShown(TodaysTasks(catalogue, rows), id).None? <==> FindTask(catalogue, id).None?
    ensures FindShown(TodaysTasks(catalogue, rows), id).Some? ==>
              FindShown(TodaysTasks(catalogue, rows), id).value.completed == IsDone(rows, id)
    ensures FindShown(TodaysTasks(catalogue, rows), id).Some? ==>
              && FindShown(TodaysTasks(catalogue, rows), id).value.name == FindTask(catalogue, id).value.name
              && FindShown(TodaysTasks(catalogue, rows), id).value.points == FindTask(catalogue, id).value.points
  {
    var shown := TodaysTasks(catalogue, rows);
    if FindShown(shown, id).Some? {
      var found, entry := FindShown(shown, id).value, FindTask(catalogue, id).value;
      var i :| 0 <= i < |shown| && shown[i] == found && found.id == id
               && forall j :: 0 <= j < i ==> shown[j].id != id;
      var k :| 0 <= k < |catalogue| && catalogue[k] == entry && entry.id == id
               && forall j :: 0 <= j < k ==> catalogue[j].id != id;
      assert catalogue[i].id == id && shown[k].id == id;
      assert i == k;
    }
    if FindShown(shown, id).None? {
      assert forall t :: t in catalogue ==> t.id != id by {
        forall t | t in catalogue ensures t.id != id {
          var i :| 0 <= i < |catalogue| && catalogue[i] == t;
          assert shown[i].id == t.id;
        }
      }
    }
  }

  /** The shown day earns between 0 and the catalogue total. */
  lemma EarnedWithinTotal(catalogue: seq<TaskDef>, rows: seq<CompletionRow>)
    ensures (forall t :: t in catalogue ==> t.points >= 0) ==>
              0 <= CompletedPoints(TodaysTasks(catalogue, rows)) <= SumPoints(catalogue)
  {
    if forall t :: t in catalogue ==> t.points >= 0 {
      CompletedWithinSum(TodaysTasks(catalogue, rows), catalogue);
    }
  }
}
