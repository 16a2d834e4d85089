/** The day navigator (`DateNavigator`) on whole days: previous day, next
    day (never into the future), jump to today, and a calendar whose
    future days are disabled. */
module DateNavigator {
  import opened Wrappers
  import opened Tasks

  /** A click on the navigator; `Pick(None)` is the calendar clearing its
      selection. */
  datatype DayAction = PrevDay | NextDay | Today | Pick(date: Option<DateKey>)

  /** `canGoNext`: not on today, and the next day is not in the future.
      On whole days this is exactly "before today". */
  function CanGoNext(current: DateKey, today: DateKey): (b: bool)
    ensures b <==> current < today
  {
    current != today && !(current + 1 > today)
  }

  /** The Today button is rendered only when another day is shown. */
  function ShowsTodayButton(current: DateKey, today: DateKey): bool
  {
    current != today
  }

  /** The calendar's `disabled` matcher: the days after today. */
  function CalendarDisabled(day: DateKey, today: DateKey): bool
  {
    day > today
  }

  /** The day shown after one click. */
  function Step(current: DateKey, today: DateKey, a: DayAction): (r: DateKey)
    ensures a.PrevDay? ==> r == current - 1
    ensures a.NextDay? ==> r == (if current < today then current + 1 else current)
    ensures a.Today? ==> r == today
    ensures a.Pick? && a.date.None? ==> r == current
    ensures a.Pick? && a.date.Some? ==> r == a.date.value
  {
    match a
    case PrevDay => current - 1
    case NextDay => var next := current + 1; if !(next > today) then next else current
    case Today => today
    case Pick(date) => if date.Some? then date.value else current
  }

  /** The day shown after a series of clicks. */
  function Run(current: DateKey, today: DateKey, actions: seq<DayAction>): DateKey
  {
    if actions == [] then current
    else Step(Run(current, today, actions[..|actions| - 1]), today, actions[|actions| - 1])
  }

  /** The calendar lets the user pick only days it does not disable. */
  predicate PicksEnabled(actions: seq<DayAction>, today: DateKey)
  {
    forall i :: 0 <= i < |actions| && actions[i].Pick? && actions[i].date.Some? ==>
      !CalendarDisabled(actions[i].date.value, today)
  }

  /** The Next button is enabled exactly when clicking it changes the day. */
  lemma NextEnabledIffMoves(current: DateKey, today: DateKey)
    ensures CanGoNext(current, today) <==> Step(current, today, NextDay) != current
  {
  }

  /** The Today button is shown exactly when clicking it changes the day. */
  lemma TodayShownIffMoves(current: DateKey, today: DateKey)
    ensures ShowsTodayButton(current, today) <==> Step(current, today, Today) != current
  {
  }

  /** Starting from a day that is not in the future, no series of clicks
      reaches one that is. */
  lemma {:induction false} NeverInFuture(current: DateKey, today: DateKey, actions: seq<DayAction>)
    requires current <= today
    requires PicksEnabled(actions, today)
    ensures Run(current, today, actions) <= today
  {
    if actions != [] {
      var front := actions[..|actions| - 1];
      assert PicksEnabled(front, today) by {
        forall i | 0 <= i < |front| ensures front[i] == actions[i] { }
      }
      NeverInFuture(current, today, front);
    }
  }
}
