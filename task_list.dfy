/** The day's task list (`TaskList`): the completed count, the progress
    ring's percentage and the markers shown when a past day is viewed. */
module TaskList {
  import opened Tasks
  import opened Percent

  /** What the list's header and ring show for a day. */
  datatype Header = Header(completed: nat, taskCount: nat, progress: int, pastRecord: bool)

  /** The header for `tasks` on day `current` when it is `today`:
      `completedCount/tasks.length`, the zero-guarded rounded percentage of
      earned over total points, and the history icon and "Viewing past
      record" label exactly when the day is not today. */
  function HeaderOf(tasks: seq<Task>, earned: int, total: int, current: DateKey, today: DateKey): (h: Header)
    ensures h.completed == CompletedCount(tasks) <= h.taskCount == |tasks|
    ensures h.progress == GuardedPercent(earned, total)
    ensures total <= 0 ==> h.progress == 0
    ensures 0 <= earned <= total ==> 0 <= h.progress <= 100
    ensures h.pastRecord <==> current != today
  {
    assert 0 <= earned <= total ==> 0 <= GuardedPercent(earned, total) <= 100 by {
      if 0 <= earned <= total { GuardedPercentInRange(earned, total); }
    }
    Header(CompletedCount(tasks), |tasks|, GuardedPercent(earned, total), current != today)
  }

  /** The count reads "n/n" exactly when every task is ticked, and "0/n"
      exactly when none is. */
  lemma {:induction false} CompletedCountExtremes(tasks: seq<Task>)
    ensures CompletedCount(tasks) == |tasks| <==> forall i :: 0 <= i < |tasks| ==> tasks[i].completed
    ensures CompletedCount(tasks) == 0 <==> forall i :: 0 <= i < |tasks| ==> !tasks[i].completed
  {
    if tasks != [] {
      CompletedCountExtremes(tasks[1..]);
      assert forall i :: 1 <= i < |tasks| ==> tasks[i] == tasks[1..][i - 1];
    }
  }
}
