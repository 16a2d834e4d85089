/** The browser-local record store (`useTaskData`): the catalogue of tasks
    and one cached record per date, each record keeping its own copy of the
    day's tasks and a cached `earnedPoints` that later catalogue edits do
    not touch. Loading and saving the two blobs is not modelled; the store
    is the in-memory state those blobs mirror. */
module LocalStore {
  import opened Wrappers
  import opened Tasks
  import Tally

  /** One date's record: the day's tasks with their flags, the catalogue
      total when the record was created, and the cached earned points. */
  datatype DailyRecord = DailyRecord(date: DateKey, tasks: seq<Task>, totalPoints: int, earnedPoints: int)

  /** The points a completed stored task contributes when earned points are
      recomputed: the catalogue's points for its id, unless the id is not
      in the catalogue or its points are 0 (`customTask?.points || t.points`). */
  function PointsOf(catalogue: seq<TaskDef>, t: Task): (p: int)
    ensures FindTask(catalogue, t.id).None? ==> p == t.points
    ensures FindTask(catalogue, t.id).Some? ==>
              p == if FindTask(catalogue, t.id).value.points != 0 then FindTask(catalogue, t.id).value.points else t.points
  {
    match FindTask(catalogue, t.id)
    case Some(ct) => if ct.points != 0 then ct.points else t.points
    case None => t.points
  }

  /** The earned points written on a toggle: the completed tasks, priced by `PointsOf`. */
  function RecomputedEarned(tasks: seq<Task>, catalogue: seq<TaskDef>): int
  {
    if tasks == [] then 0
    else (if tasks[0].completed then PointsOf(catalogue, tasks[0]) else 0) + RecomputedEarned(tasks[1..], catalogue)
  }

  /** Flip the flag of every task with the given id; nothing else changes. */
  function FlipTask(tasks: seq<Task>, id: string): (r: seq<Task>)
    ensures |r| == |tasks|
    ensures forall i :: 0 <= i < |r| ==>
              r[i].id == tasks[i].id && r[i].name == tasks[i].name && r[i].points == tasks[i].points
    ensures forall i :: 0 <= i < |r| ==> r[i].completed == (tasks[i].completed != (tasks[i].id == id))
  {
    seq(|tasks|, i requires 0 <= i < |tasks| =>
      if tasks[i].id == id then tasks[i].(completed := !tasks[i].completed) else tasks[i])
  }

  /** Flipping the same id twice restores every flag. */
  lemma FlipTwice(tasks: seq<Task>, id: string)
    ensures FlipTask(FlipTask(tasks, id), id) == tasks
  {
    var r := FlipTask(FlipTask(tasks, id), id);
    assert forall i :: 0 <= i < |r| ==> r[i] == tasks[i];
  }

  /** The record a toggle starts from on a date that has none: the current
      catalogue, all unticked, its current total, nothing earned. */
  function FreshRecord(date: DateKey, catalogue: seq<TaskDef>): (r: DailyRecord)
    ensures r.date == date && r.tasks == Unticked(catalogue)
    ensures r.totalPoints == SumPoints(catalogue) && r.earnedPoints == 0
  {
    DailyRecord(date, Unticked(catalogue), SumPoints(catalogue), 0)
  }

  /** `prev[dateKey] || { ...fresh record }`. */
  function RecordOrFresh(records: map<DateKey, DailyRecord>, date: DateKey, catalogue: seq<TaskDef>): DailyRecord
  {
    if date in records then records[date] else FreshRecord(date, catalogue)
  }

  /** A record after toggling one id: flags flipped for that id only, date
      and total kept, earned points recomputed from the current catalogue. */
  function ToggledRecord(rec: DailyRecord, id: string, catalogue: seq<TaskDef>): (r: DailyRecord)
    ensures r.date == rec.date && r.totalPoints == rec.totalPoints
    ensures r.tasks == FlipTask(rec.tasks, id)
    ensures r.earnedPoints == RecomputedEarned(r.tasks, catalogue)
  {
    var tasks := FlipTask(rec.tasks, id);
    rec.(tasks := tasks, earnedPoints := RecomputedEarned(tasks, catalogue))
  }

  /** Toggling the same id twice gives the record back, provided its cached
      earned points agreed with the catalogue to begin with (a fresh record
      always does). */
  lemma ToggleTwiceRestores(rec: DailyRecord, id: string, catalogue: seq<TaskDef>)
    requires rec.earnedPoints == RecomputedEarned(rec.tasks, catalogue)
    ensures ToggledRecord(ToggledRecord(rec, id, catalogue), id, catalogue) == rec
  {
    FlipTwice(rec.tasks, id);
  }

  /** A fresh record's cached points agree with any catalogue. */
  lemma {:induction false} FreshRecordConsistent(date: DateKey, catalogue: seq<TaskDef>, pricing: seq<TaskDef>)
    ensures RecomputedEarned(FreshRecord(date, catalogue).tasks, pricing) == 0
  {
    UntickedRecomputesToZero(catalogue, pricing);
  }

  lemma {:induction false} UntickedRecomputesToZero(catalogue: seq<TaskDef>, pricing: seq<TaskDef>)
    ensures RecomputedEarned(Unticked(catalogue), pricing) == 0
  {
    if catalogue != [] {
      UntickedRecomputesToZero(catalogue[1..], pricing);
      assert Unticked(catalogue)[1..] == Unticked(catalogue[1..]);
    }
  }

  /** The first toggle of a catalogue task on an untouched date earns
      exactly that task's points (ids distinct, points non-zero). */
  lemma FirstToggleEarnsTaskPoints(date: DateKey, catalogue: seq<TaskDef>, k: nat)
    requires k < |catalogue|
    requires DistinctIds(catalogue)
    requires catalogue[k].points != 0
    ensures ToggledRecord(FreshRecord(date, catalogue), catalogue[k].id, catalogue).earnedPoints == catalogue[k].points
  {
    FlipOneOfUnticked(catalogue, catalogue, k);
  }

  /** Flipping an id that no task carries changes nothing. */
  lemma FlipAbsent(tasks: seq<Task>, id: string)
    requires forall i :: 0 <= i < |tasks| ==> tasks[i].id != id
    ensures FlipTask(tasks, id) == tasks
  {
    assert forall i :: 0 <= i < |tasks| ==> FlipTask(tasks, id)[i] == tasks[i];
  }

  lemma {:induction false} FlipOneOfUnticked(suffix: seq<TaskDef>, catalogue: seq<TaskDef>, k: nat)
    requires DistinctIds(suffix)
    requires k < |suffix|
    requires FindTask(catalogue, suffix[k].id) == Some(suffix[k]) && suffix[k].points != 0
    ensures RecomputedEarned(FlipTask(Unticked(suffix), suffix[k].id), catalogue) == suffix[k].points
  {
    var id := suffix[k].id;
    var flipped := FlipTask(Unticked(suffix), id);
    var tail := suffix[1..];
    assert DistinctIds(tail);
    if k == 0 {
      assert forall i :: 0 <= i < |tail| ==> Unticked(tail)[i].id != id;
      FlipAbsent(Unticked(tail), id);
      assert flipped[1..] == FlipTask(Unticked(tail), id);
      UntickedRecomputesToZero(tail, catalogue);
    } else {
      assert flipped[1..] == FlipTask(Unticked(tail), id);
      assert tail[k - 1] == suffix[k];
      FlipOneOfUnticked(tail, catalogue, k - 1);
    }
  }

  /** `getTodaysTasks`: with no record for the date, the catalogue in order,
      all unticked; with a record, the record's tasks in the record's order
      with their ids and flags, each renamed and repriced from the catalogue
      entry with the same id when there is one. */
  function TodaysTasks(records: map<DateKey, DailyRecord>, catalogue: seq<TaskDef>, date: DateKey): (r: seq<Task>)
    ensures date !in records ==> r == Unticked(catalogue)
    ensures date in records ==> |r| == |records[date].tasks|
    ensures date in records ==> forall i :: 0 <= i < |r| ==>
              var t := records[date].tasks[i];
              && r[i].id == t.id && r[i].completed == t.completed
              && (FindTask(catalogue, t.id).Some? ==>
                    r[i].name == FindTask(catalogue, t.id).value.name &&
                    r[i].points == FindTask(catalogue, t.id).value.points)
              && (FindTask(catalogue, t.id).None? ==> r[i] == t)
  {
    if date in records then
      var tasks := records[date].tasks;
      seq(|tasks|, i requires 0 <= i < |tasks| =>
        match FindTask(catalogue, tasks[i].id)
        case Some(ct) => tasks[i].(name := ct.name, points := ct.points)
        case None => tasks[i])
    else Unticked(catalogue)
  }

  /** `getMonthlyData`: one entry per day of the month, in ascending order;
      earned is the record's cached earned points (0 with no record), total
      the current catalogue total. */
  function MonthlyData(records: map<DateKey, DailyRecord>, catalogue: seq<TaskDef>,
                       firstDay: DateKey, daysInMonth: nat): (r: seq<DayPoint>)
    ensures |r| == daysInMonth
    ensures forall i :: 0 <= i < |r| ==> r[i].day == firstDay + i && r[i].total == SumPoints(catalogue)
    ensures forall i :: 0 <= i < |r| ==>
              r[i].earned == if firstDay + i in records then records[firstDay + i].earnedPoints else 0
  {
    seq(daysInMonth, i =>
      DayPoint(firstDay + i,
               if firstDay + i in records then records[firstDay + i].earnedPoints else 0,
               SumPoints(catalogue)))
  }

  /** Editing the catalogue leaves every day's earned points as they were:
      the cached values are not recomputed. Only the total follows the edit. */
  lemma EditKeepsMonthlyEarned(records: map<DateKey, DailyRecord>, catalogue: seq<TaskDef>,
                               id: string, name: string, points: int, firstDay: DateKey, daysInMonth: nat)
    ensures var before := MonthlyData(records, catalogue, firstDay, daysInMonth);
            var after := MonthlyData(records, EditCatalogue(catalogue, id, name, points), firstDay, daysInMonth);
            forall i :: 0 <= i < daysInMonth ==> after[i].earned == before[i].earned
  {
  }

  /** The name a completed stored task is counted under:
      `customTask?.name || t.name`. */
  function ResolvedName(catalogue: seq<TaskDef>, t: Task): (n: string)
    ensures FindTask(catalogue, t.id).Some? && FindTask(catalogue, t.id).value.name != "" ==>
              n == FindTask(catalogue, t.id).value.name
    ensures FindTask(catalogue, t.id).None? || FindTask(catalogue, t.id).value.name == "" ==> n == t.name
  {
    match FindTask(catalogue, t.id)
    case Some(ct) => if ct.name != "" then ct.name else t.name
    case None => t.name
  }

  /** The names counted for one record: its completed tasks, in order. */
  function DayEvents(tasks: seq<Task>, catalogue: seq<TaskDef>): seq<string>
  {
    if tasks == [] then []
    else
      var last := tasks[|tasks| - 1];
      DayEvents(tasks[..|tasks| - 1], catalogue) + (if last.completed then [ResolvedName(catalogue, last)] else [])
  }

  /** The names counted over the first `k` days of the month. */
  function MonthEvents(records: map<DateKey, DailyRecord>, catalogue: seq<TaskDef>, firstDay: DateKey, k: nat): seq<string>
  {
    if k == 0 then []
    else
      MonthEvents(records, catalogue, firstDay, k - 1) +
      (if firstDay + k - 1 in records then DayEvents(records[firstDay + k - 1].tasks, catalogue) else [])
  }

  /** The inner loop of `getTaskStats` for one record: each completed task
      bumps its resolved name. */
  method CountDay(counter: Tally.Counter, tasks: seq<Task>, catalogue: seq<TaskDef>)
    returns (result: Tally.Counter)
    ensures result == Tally.BumpAll(counter, DayEvents(tasks, catalogue))
  {
    result := counter;
    for j := 0 to |tasks|
      invariant result == Tally.BumpAll(counter, DayEvents(tasks[..j], catalogue))
    {
      assert tasks[..j + 1][..j] == tasks[..j] && tasks[..j + 1][j] == tasks[j];
      if tasks[j].completed {
        ghost var done := DayEvents(tasks[..j], catalogue);
        ghost var name := ResolvedName(catalogue, tasks[j]);
        assert DayEvents(tasks[..j + 1], catalogue) == done + [name];
        assert (done + [name])[..|done|] == done;
        assert Tally.BumpAll(counter, done + [name]) == Tally.Bump(Tally.BumpAll(counter, done), name);
        result := Tally.Bump(result, ResolvedName(catalogue, tasks[j]));
      } else {
        ghost var done := DayEvents(tasks[..j], catalogue);
        assert DayEvents(tasks[..j + 1], catalogue) == done + [];
        assert done + [] == done;
      }
    }
    assert tasks[..|tasks|] == tasks;
  }

  /** A record's tasks carry the catalogue's ids, position by position: true
      of a fresh record, and kept by toggles and by catalogue edits. */
  predicate SameIds(tasks: seq<Task>, catalogue: seq<TaskDef>)
  {
    |tasks| == |catalogue| && forall i :: 0 <= i < |tasks| ==> tasks[i].id == catalogue[i].id
  }

  /** A toggle keeps a record's ids; so does a fresh record, built from the
      catalogue; and an edit keeps the catalogue's ids. */
  lemma SameIdsKept(rec: DailyRecord, date: DateKey, id: string, name: string, points: int, catalogue: seq<TaskDef>)
    ensures SameIds(FreshRecord(date, catalogue).tasks, catalogue)
    ensures SameIds(rec.tasks, catalogue) ==> SameIds(ToggledRecord(rec, id, catalogue).tasks, catalogue)
    ensures SameIds(rec.tasks, catalogue) ==> SameIds(rec.tasks, EditCatalogue(catalogue, id, name, points))
  {
    EditCatalogueFacts(catalogue, id, name, points);
  }

  /** With distinct catalogue ids and a record carrying them, the day shows
      the catalogue's entries, in order, with the record's flags; with no
      negative points it earns between 0 and the catalogue's total. */
  lemma {:induction false} RecordEarnedWithinTotal(records: map<DateKey, DailyRecord>, catalogue: seq<TaskDef>, date: DateKey)
    requires DistinctIds(catalogue)
    requires date in records ==> SameIds(records[date].tasks, catalogue)
    ensures var shown := TodaysTasks(records, catalogue, date);
            |shown| == |catalogue| &&
            forall i :: 0 <= i < |shown| ==>
              shown[i].id == catalogue[i].id && shown[i].name == catalogue[i].name && shown[i].points == catalogue[i].points
    ensures (forall t :: t in catalogue ==> t.points >= 0) ==>
              0 <= CompletedPoints(TodaysTasks(records, catalogue, date)) <= SumPoints(catalogue)
  {
    var shown := TodaysTasks(records, catalogue, date);
    if date in records {
      forall i | 0 <= i < |catalogue| ensures FindTask(catalogue, records[date].tasks[i].id) == Some(catalogue[i]) {
        FindDistinct(catalogue, i);
      }
    }
    if forall t :: t in catalogue ==> t.points >= 0 {
      CompletedWithinSum(shown, catalogue);
    }
  }

  /** With no negative points, the date's shown tasks earn between 0 and the catalogue's total. */
  ghost predicate RecordBound(records: map<DateKey, DailyRecord>, catalogue: seq<TaskDef>, date: DateKey)
  {
    (forall t :: t in catalogue ==> t.points >= 0) ==>
      0 <= CompletedPoints(TodaysTasks(records, catalogue, date)) <= SumPoints(catalogue)
  }

  /** The hook's state: the selected date, the records by date and the catalogue. */
  class LocalTaskStore {
    var currentDate: DateKey
    var dailyRecords: map<DateKey, DailyRecord>
    var customTasks: seq<TaskDef>

    /** The store's invariant: catalogue ids are distinct and every record
        carries them, in catalogue order. */
    ghost predicate Valid()
      reads this
    {
      && DistinctIds(customTasks)
      && forall d :: d in dailyRecords ==> SameIds(dailyRecords[d].tasks, customTasks)
    }

    /** A new store: today selected, no records, the built-in catalogue. */
    constructor (today: DateKey)
      ensures Valid()
      ensures currentDate == today && dailyRecords == map[] && customTasks == DEFAULT_TASKS
    {
      currentDate := today;
      dailyRecords := map[];
      customTasks := DEFAULT_TASKS;
      DefaultTasksWellFormed();
    }

    /** `setCurrentDate`. */
    method SetCurrentDate(date: DateKey)
      requires Valid()
      modifies this
      ensures Valid()
      ensures currentDate == date
      ensures dailyRecords == old(dailyRecords) && customTasks == old(customTasks)
    {
      currentDate := date;
    }

    /** `toggleTask`: flips the id on the selected date's record, creating
        the record first when the date has none; no other date changes. */
    method ToggleTask(taskId: string)
      requires Valid()
      modifies this
      ensures Valid()
      ensures currentDate == old(currentDate) && customTasks == old(customTasks)
      ensures dailyRecords ==
                old(dailyRecords)[currentDate :=
                  ToggledRecord(RecordOrFresh(old(dailyRecords), currentDate, customTasks), taskId, customTasks)]
      ensures forall d :: d in old(dailyRecords) && d != currentDate ==>
                d in dailyRecords && dailyRecords[d] == old(dailyRecords)[d]
    {
      var current := RecordOrFresh(dailyRecords, currentDate, customTasks);
      var updatedTasks := FlipTask(current.tasks, taskId);
      var earned := RecomputedEarned(updatedTasks, customTasks);
      SameIdsKept(current, currentDate, taskId, "", 0, customTasks);
      dailyRecords := dailyRecords[currentDate := current.(tasks := updatedTasks, earnedPoints := earned)];
    }

    /** `editTask`: renames and reprices the entries with that id, with no
        validation; records, and so their cached earned points, are untouched. */
    method EditTask(taskId: string, name: string, points: int)
      requires Valid()
      modifies this
      ensures Valid()
      ensures customTasks == EditCatalogue(old(customTasks), taskId, name, points)
      ensures dailyRecords == old(dailyRecords) && currentDate == old(currentDate)
    {
      EditCatalogueFacts(customTasks, taskId, name, points);
      forall d | d in dailyRecords
        ensures SameIds(dailyRecords[d].tasks, EditCatalogue(customTasks, taskId, name, points))
      {
        SameIdsKept(dailyRecords[d], d, taskId, name, points, customTasks);
      }
      customTasks := EditCatalogue(customTasks, taskId, name, points);
    }

    /** `earnedPoints`: the points of the selected date's completed tasks as shown. */
    function EarnedPoints(): (p: int)
      reads this
      ensures currentDate !in dailyRecords ==> p == 0
      ensures Valid() && (forall t :: t in customTasks ==> t.points >= 0) ==> 0 <= p <= SumPoints(customTasks)
    {
      UntickedEarnsNothing(customTasks);
      assert Valid() ==> RecordBound(dailyRecords, customTasks, currentDate) by {
        if Valid() {
          RecordEarnedWithinTotal(dailyRecords, customTasks, currentDate);
        }
      }
      CompletedPoints(TodaysTasks(dailyRecords, customTasks, currentDate))
    }

    /** `getTaskStats`: every catalogue name starts at 0, then each completed
        task of each day's record counts once under its resolved name. */
    method GetTaskStats(firstDay: DateKey, daysInMonth: int) returns (stats: seq<TaskStat>)
      requires daysInMonth > 0
      ensures stats == Tally.Stats(CatalogueNames(customTasks), MonthEvents(dailyRecords, customTasks, firstDay, daysInMonth), daysInMonth)
    {
      var records, catalogue := dailyRecords, customTasks;
      var names := CatalogueNames(catalogue);
      var counter := Tally.ZeroCounter(names);
      ghost var zero := counter;
      for k := 0 to daysInMonth
        invariant counter == Tally.BumpAll(zero, MonthEvents(records, catalogue, firstDay, k))
      {
        ghost var before := MonthEvents(records, catalogue, firstDay, k);
        if firstDay + k in records {
          var tasks := records[firstDay + k].tasks;
          assert MonthEvents(records, catalogue, firstDay, k + 1) == before + DayEvents(tasks, catalogue);
          Tally.BumpAllAppend(zero, before, DayEvents(tasks, catalogue));
          counter := CountDay(counter, tasks, catalogue);
        } else {
          assert MonthEvents(records, catalogue, firstDay, k + 1) == before + [] == before;
        }
      }
      ghost var events := MonthEvents(records, catalogue, firstDay, daysInMonth);
      Tally.ZeroedFacts(names);
      Tally.BumpAllFacts(zero, events);
      assert Tally.Stats(names, events, daysInMonth) == Tally.Entries(counter, daysInMonth);
      stats := Tally.Entries(counter, daysInMonth);
    }
  }
}
