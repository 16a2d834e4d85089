/** The task catalogue and the shapes shared by both record stores and
    by the views: a catalogue entry, a task with its completion flag,
    one day of a month's series and one row of the per-task statistics. */
module Tasks {
  import opened Wrappers

  /** A calendar day. Dates are modelled as consecutive integers; the
      `yyyy-MM-dd` key of the source is one such integer. */
  type DateKey = int

  /** A catalogue entry (`Omit<Task, 'completed'>`). */
  datatype TaskDef = TaskDef(id: string, name: string, points: int)

  /** A task as shown for one day. */
  datatype Task = Task(id: string, name: string, points: int, completed: bool)

  /** One day of a month's series: the day, the points earned and the
      points possible on it. */
  datatype DayPoint = DayPoint(day: DateKey, earned: int, total: int)

  /** One row of the per-task completion statistics of a month. */
  datatype TaskStat = TaskStat(name: string, completions: int, percentage: int)

  /** The built-in catalogue. */
  const DEFAULT_TASKS: seq<TaskDef> := [
    TaskDef("coding", "Coding", 5),
    TaskDef("namaaz", "Namaaz", 4),
    TaskDef("walking", "Walking", 4),
    TaskDef("gym", "Gym", 2),
    TaskDef("college", "College Work", 3),
    TaskDef("eating", "Healthy Eating", 2),
    TaskDef("family", "Talk with Family/Friends", 1),
    TaskDef("github", "GitHub Push", 2),
    TaskDef("meditation", "Meditation", 2),
    TaskDef("stretching", "Body Stretching", 1),
    TaskDef("quran", "Read Quran", 2),
    TaskDef("journals", "Journals", 1),
    TaskDef("weekend", "Complete Weekend Task", 1)
  ]

  /** The catalogue's names in order (`customTasks.forEach(t => ... t.name ...)`). */
  function CatalogueNames(catalogue: seq<TaskDef>): (r: seq<string>)
    ensures |r| == |catalogue| && forall i :: 0 <= i < |r| ==> r[i] == catalogue[i].name
  {
    seq(|catalogue|, i requires 0 <= i < |catalogue| => catalogue[i].name)
  }

  /** The sum of the points of a catalogue (`reduce((sum, t) => sum + t.points, 0)`). */
  function SumPoints(catalogue: seq<TaskDef>): int
  {
    if catalogue == [] then 0 else catalogue[0].points + SumPoints(catalogue[1..])
  }

  /** The fixed daily maximum the statistics views compare against: the
      sum of the built-in catalogue's points (`TotalPossibleIsSum`), fixed
      once and never following edits. */
  const TOTAL_POSSIBLE_POINTS: int := 30

  predicate DistinctIds(catalogue: seq<TaskDef>)
  {
    forall i, j :: 0 <= i < j < |catalogue| ==> catalogue[i].id != catalogue[j].id
  }

  /** Every catalogue entry is worth between 1 and 10 points. */
  predicate PointsInRange(catalogue: seq<TaskDef>)
  {
    forall t :: t in catalogue ==> 1 <= t.points <= 10
  }

  /** The built-in catalogue has 13 entries with distinct ids, each worth 1 to 10 points. */
  lemma DefaultTasksWellFormed()
    ensures |DEFAULT_TASKS| == 13
    ensures DistinctIds(DEFAULT_TASKS)
    ensures PointsInRange(DEFAULT_TASKS)
  {
    forall i, j | 0 <= i < j < |DEFAULT_TASKS| ensures DEFAULT_TASKS[i].id != DEFAULT_TASKS[j].id {
      DefaultSignaturesDiffer(i);
    }
    DefaultPointsInRange();
  }

  lemma DefaultPointsInRange()
    ensures PointsInRange(DEFAULT_TASKS)
  {
    forall t | t in DEFAULT_TASKS ensures 1 <= t.points <= 10 {
      var i :| 0 <= i < |DEFAULT_TASKS| && DEFAULT_TASKS[i] == t;
      DefaultPoints();
    }
  }

  /** The points of the built-in tasks, in order. */
  const DEFAULT_POINTS: seq<int> := [5, 4, 4, 2, 3, 2, 1, 2, 2, 1, 2, 1, 1]

  lemma DefaultPoints()
    ensures forall i :: 0 <= i < 13 ==> DEFAULT_TASKS[i].points == DEFAULT_POINTS[i]
  {
  }

  /** The first and last characters of an id: different signatures mean
      different ids. */
  function Signature(id: string): (char, char)
  {
    if id == [] then ('\0', '\0') else (id[0], id[|id| - 1])
  }

  /** The signatures of the built-in ids, in catalogue order; no two are equal. */
  const DEFAULT_SIGNATURES: seq<(char, char)> := [
    ('c', 'g'), ('n', 'z'), ('w', 'g'), ('g', 'm'), ('c', 'e'), ('e', 'g'), ('f', 'y'),
    ('g', 'b'), ('m', 'n'), ('s', 'g'), ('q', 'n'), ('j', 's'), ('w', 'd')]

  lemma DefaultSignatures()
    ensures forall i :: 0 <= i < 13 ==> Signature(DEFAULT_TASKS[i].id) == DEFAULT_SIGNATURES[i]
  {
  }

  /** Entry i's id differs from every later built-in id. */
  lemma DefaultSignaturesDiffer(i: nat)
    requires i < 13
    ensures forall j :: i < j < 13 ==> Signature(DEFAULT_TASKS[i].id) != Signature(DEFAULT_TASKS[j].id)
  {
    DefaultSignatures();
  }

  /** The fixed daily maximum is the sum of the built-in points. */
  lemma {:induction false} TotalPossibleIsSum()
    ensures TOTAL_POSSIBLE_POINTS == SumPoints(DEFAULT_TASKS)
  {
    var d := DEFAULT_TASKS;
    DefaultTailSum();
    assert SumPoints(d[5..]) == 12;
    assert SumPoints(d[4..]) == 15;
    assert SumPoints(d[3..]) == 17;
    assert SumPoints(d[2..]) == 21;
    assert SumPoints(d[1..]) == 25;
  }

  /** The last seven built-in tasks are worth 10 points together. */
  lemma {:induction false} DefaultTailSum()
    ensures SumPoints(DEFAULT_TASKS[6..]) == 10
  {
    var d := DEFAULT_TASKS;
    assert SumPoints(d[12..]) == 1;
    assert SumPoints(d[11..]) == 2;
    assert SumPoints(d[10..]) == 4;
    assert SumPoints(d[9..]) == 5;
    assert SumPoints(d[8..]) == 7;
    assert SumPoints(d[7..]) == 9;
  }

  /** With no negative points, one entry is worth at most the whole catalogue. */
  lemma {:induction false} EntryAtMostSum(catalogue: seq<TaskDef>, t: TaskDef)
    requires forall u :: u in catalogue ==> u.points >= 0
    requires t in catalogue
    ensures 0 <= t.points <= SumPoints(catalogue)
  {
    SumPointsNonNegative(catalogue[1..]);
    if catalogue[0] != t {
      EntryAtMostSum(catalogue[1..], t);
    }
  }

  lemma {:induction false} SumPointsNonNegative(catalogue: seq<TaskDef>)
    requires forall u :: u in catalogue ==> u.points >= 0
    ensures SumPoints(catalogue) >= 0
  {
    if catalogue != [] {
      SumPointsNonNegative(catalogue[1..]);
    }
  }

  /** No single built-in task is worth more than the fixed daily maximum. */
  lemma DefaultEntryAtMostTotal(t: TaskDef)
    requires t in DEFAULT_TASKS
    ensures 1 <= t.points <= TOTAL_POSSIBLE_POINTS
  {
    DefaultPointsInRange();
    TotalPossibleIsSum();
    EntryAtMostSum(DEFAULT_TASKS, t);
  }

  /** `catalogue.find(ct => ct.id === id)`: the first entry with that id. */
  function FindTask(catalogue: seq<TaskDef>, id: string): (r: Option<TaskDef>)
    ensures r.None? <==> forall t :: t in catalogue ==> t.id != id
    ensures r.Some? ==> exists i :: 0 <= i < |catalogue| && catalogue[i] == r.value
                          && r.value.id == id && forall j :: 0 <= j < i ==> catalogue[j].id != id
  {
    if catalogue == [] then None
    else if catalogue[0].id == id then Some(catalogue[0])
    else
      var r := FindTask(catalogue[1..], id);
      assert r.Some? ==> exists i :: 1 <= i < |catalogue| && catalogue[i] == r.value
                          && forall j :: 1 <= j < i ==> catalogue[j].id != id by {
        if r.Some? {
          var i :| 0 <= i < |catalogue[1..]| && catalogue[1..][i] == r.value
                   && forall j :: 0 <= j < i ==> catalogue[1..][j].id != id;
          assert catalogue[i + 1] == r.value;
          assert forall j :: 1 <= j < i + 1 ==> catalogue[j].id != id by {
            forall j | 1 <= j < i + 1 ensures catalogue[j].id != id {
              assert catalogue[j] == catalogue[1..][j - 1];
            }
          }
        }
      }
      r
  }

  /** The day's tasks as an unticked list: `catalogue.map(t => ({ ...t, completed: false }))`. */
  function Unticked(catalogue: seq<TaskDef>): (r: seq<Task>)
    ensures |r| == |catalogue|
    ensures forall i :: 0 <= i < |r| ==>
              r[i] == Task(catalogue[i].id, catalogue[i].name, catalogue[i].points, false)
  {
    seq(|catalogue|, i requires 0 <= i < |catalogue| =>
      Task(catalogue[i].id, catalogue[i].name, catalogue[i].points, false))
  }

  /** Points of the completed tasks: `filter(t => t.completed).reduce((s, t) => s + t.points, 0)`. */
  function CompletedPoints(tasks: seq<Task>): int
  {
    if tasks == [] then 0
    else (if tasks[0].completed then tasks[0].points else 0) + CompletedPoints(tasks[1..])
  }

  /** With distinct ids, looking up an entry's id finds that entry. */
  lemma FindDistinct(catalogue: seq<TaskDef>, k: nat)
    requires k < |catalogue| && DistinctIds(catalogue)
    ensures FindTask(catalogue, catalogue[k].id) == Some(catalogue[k])
  {
    var r := FindTask(catalogue, catalogue[k].id);
    var i :| 0 <= i < |catalogue| && catalogue[i] == r.value && r.value.id == catalogue[k].id
             && forall j :: 0 <= j < i ==> catalogue[j].id != catalogue[k].id;
    assert i == k;
  }

  /** Tasks carrying a catalogue's points position by position earn, with no
      negative points, between 0 and the catalogue's total. */
  lemma {:induction false} CompletedWithinSum(tasks: seq<Task>, catalogue: seq<TaskDef>)
    requires |tasks| == |catalogue|
    requires forall i :: 0 <= i < |tasks| ==> tasks[i].points == catalogue[i].points
    requires forall t :: t in catalogue ==> t.points >= 0
    ensures 0 <= CompletedPoints(tasks) <= SumPoints(catalogue)
  {
    if tasks != [] {
      assert catalogue[0] in catalogue;
      CompletedWithinSum(tasks[1..], catalogue[1..]);
    }
  }

  /** The number of completed tasks: `filter(t => t.completed).length`. */
  function CompletedCount(tasks: seq<Task>): (n: nat)
    ensures n <= |tasks|
  {
    if tasks == [] then 0
    else (if tasks[0].completed then 1 else 0) + CompletedCount(tasks[1..])
  }

  /** An all-unticked list has no completed task and earns nothing. */
  lemma {:induction false} UntickedEarnsNothing(catalogue: seq<TaskDef>)
    ensures CompletedPoints(Unticked(catalogue)) == 0
    ensures CompletedCount(Unticked(catalogue)) == 0
  {
    if catalogue != [] {
      UntickedEarnsNothing(catalogue[1..]);
      assert Unticked(catalogue)[1..] == Unticked(catalogue[1..]);
    }
  }

  /** Both stores' `editTask` updater: `prev.map(t => t.id === id ? { ...t, name, points } : t)`.
      There is no validation: any name and any points are stored. */
  function EditCatalogue(catalogue: seq<TaskDef>, id: string, name: string, points: int): (r: seq<TaskDef>)
    ensures |r| == |catalogue|
    ensures forall i :: 0 <= i < |r| ==> r[i].id == catalogue[i].id
    ensures forall i :: 0 <= i < |r| && catalogue[i].id == id ==> r[i].name == name && r[i].points == points
    ensures forall i :: 0 <= i < |r| && catalogue[i].id != id ==> r[i] == catalogue[i]
  {
    seq(|catalogue|, i requires 0 <= i < |catalogue| =>
      if catalogue[i].id == id then catalogue[i].(name := name, points := points) else catalogue[i])
  }

  /** Editing an id that is not in the catalogue changes nothing; distinct
      ids stay distinct. */
  lemma EditCatalogueFacts(catalogue: seq<TaskDef>, id: string, name: string, points: int)
    ensures (forall t :: t in catalogue ==> t.id != id) ==> EditCatalogue(catalogue, id, name, points) == catalogue
    ensures DistinctIds(catalogue) ==> DistinctIds(EditCatalogue(catalogue, id, name, points))
  {
  }
}
