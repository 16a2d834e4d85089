/** The month selector (`MonthSelector`) over calendar dates. Month
    navigation moves the whole date by a month and keeps the day of the
    month; Next and Today are disabled in the current month. */
module MonthSelector {

  /** A calendar date: a month index (12·year + month) and a day of the
      month. The time of day is not modelled. */
  datatype CalendarDate = CalendarDate(month: int, day: int)

  /** The order of dates (`next <= new Date()` on whole days). */
  predicate LessEq(a: CalendarDate, b: CalendarDate)
  {
    a.month < b.month || (a.month == b.month && a.day <= b.day)
  }

  /** `addMonths(d, k)` / `subMonths(d, -k)`, keeping the day of the month. */
  function AddMonths(d: CalendarDate, k: int): (r: CalendarDate)
    ensures r.month == d.month + k && r.day == d.day
  {
    CalendarDate(d.month + k, d.day)
  }

  /** `isCurrentMonth`: the same `yyyy-MM` as today; it disables both the
      Today and the Next button. */
  predicate IsCurrentMonth(d: CalendarDate, now: CalendarDate)
  {
    d.month == now.month
  }

  datatype MonthAction = PrevMonth | NextMonth | Today

  /** One click as the component handles it: Next moves a month ahead only
      when the whole resulting date is not after today. */
  function StepAsWritten(d: CalendarDate, now: CalendarDate, a: MonthAction): (r: CalendarDate)
    ensures a.PrevMonth? ==> r.month == d.month - 1 && r.day == d.day
    ensures a.NextMonth? ==> r == d || (r.month == d.month + 1 && r.day == d.day && LessEq(r, now))
    ensures a.Today? ==> r == now
  {
    match a
    case PrevMonth => AddMonths(d, -1)
    case NextMonth => var next := AddMonths(d, 1); if LessEq(next, now) then next else d
    case Today => now
  }

  /** The as-written Next button is enabled but does nothing exactly when
      the shown month is the one before today's and its day of the month
      is later than today's. */
  lemma NextEnabledButInert(d: CalendarDate, now: CalendarDate)
    requires LessEq(d, now)
    ensures (!IsCurrentMonth(d, now) && StepAsWritten(d, now, NextMonth) == d) <==>
            (d.month + 1 == now.month && d.day > now.day)
  {
  }

  /** An instance reachable in the app: the page was opened on 31 October
      and is still open on 1 November. The button's state is only worked
      out when the page renders, so nothing changes until something else
      re-renders it, such as ticking or unticking a task. After that
      render October is shown, so Next is enabled, but the same day of
      November is still ahead, so the click leaves the date where it is. */
  lemma NextInertExample()
    ensures var d, now := CalendarDate(10, 31), CalendarDate(11, 1);
            LessEq(d, now) && !IsCurrentMonth(d, now) && StepAsWritten(d, now, NextMonth) == d
  {
  }

  /** The date shown after a series of clicks on the component as written. */
  function RunAsWritten(d: CalendarDate, now: CalendarDate, actions: seq<MonthAction>): CalendarDate
  {
    if actions == [] then d
    else StepAsWritten(RunAsWritten(d, now, actions[..|actions| - 1]), now, actions[|actions| - 1])
  }

  /** As written, starting from a date not after today, no series of clicks
      reaches one that is. */
  lemma {:induction false} AsWrittenNeverAfterToday(d: CalendarDate, now: CalendarDate, actions: seq<MonthAction>)
    requires LessEq(d, now)
    ensures LessEq(RunAsWritten(d, now, actions), now)
  {
    if actions != [] {
      AsWrittenNeverAfterToday(d, now, actions[..|actions| - 1]);
    }
  }

  /** As written, once the previous month is shown on a later day of the
      month than today's, any number of Next clicks leaves the date as it
      is: today's month is never reached with Next. */
  lemma {:induction false} AsWrittenNextStuck(d: CalendarDate, now: CalendarDate, k: nat)
    requires d.month + 1 == now.month && d.day > now.day
    ensures RunAsWritten(d, now, seq(k, _ => NextMonth)) == d
  {
    if k > 0 {
      var clicks := seq(k, _ => NextMonth);
      assert clicks[..k - 1] == seq(k - 1, _ => NextMonth);
      AsWrittenNextStuck(d, now, k - 1);
    }
  }

  /** One click with Next corrected: it moves to the following month,
      stopping at today when the same day of that month is still ahead. */
  function Step(d: CalendarDate, now: CalendarDate, a: MonthAction): (r: CalendarDate)
    ensures a.NextMonth? && d.month < now.month ==> r.month == d.month + 1 && LessEq(r, now)
    ensures a.NextMonth? && d.month >= now.month ==> r == d
    ensures a.NextMonth? && LessEq(AddMonths(d, 1), now) ==> r == StepAsWritten(d, now, a)
    ensures !a.NextMonth? ==> r == StepAsWritten(d, now, a)
  {
    match a
    case NextMonth =>
      var next := AddMonths(d, 1);
      if LessEq(next, now) then next
      else if next.month == now.month then now
      else d
    case _ => StepAsWritten(d, now, a)
  }

  /** With the correction, Next is enabled (for a date not after today)
      exactly when clicking it changes the shown month. */
  lemma NextEnabledIffMoves(d: CalendarDate, now: CalendarDate)
    requires LessEq(d, now)
    ensures !IsCurrentMonth(d, now) <==> Step(d, now, NextMonth).month != d.month
  {
  }

  /** The date shown after a series of clicks, with Next corrected. */
  function Run(d: CalendarDate, now: CalendarDate, actions: seq<MonthAction>): CalendarDate
  {
    if actions == [] then d
    else Step(Run(d, now, actions[..|actions| - 1]), now, actions[|actions| - 1])
  }

  /** With Next corrected, starting from a date not after today, no series
      of clicks reaches one that is. */
  lemma {:induction false} NeverAfterToday(d: CalendarDate, now: CalendarDate, actions: seq<MonthAction>)
    requires LessEq(d, now)
    ensures LessEq(Run(d, now, actions), now)
  {
    if actions != [] {
      NeverAfterToday(d, now, actions[..|actions| - 1]);
    }
  }

  /** With Next corrected, from any month before today's, clicking Next k
      times reaches the month k later (when that is not after today's
      month); `AsWrittenNextStuck` shows the component as written does not. */
  lemma {:induction false} NextReachesLaterMonths(d: CalendarDate, now: CalendarDate, k: nat)
    requires LessEq(d, now)
    requires d.month + k <= now.month
    ensures Run(d, now, seq(k, _ => NextMonth)).month == d.month + k
  {
    if k > 0 {
      var clicks := seq(k, _ => NextMonth);
      assert clicks[..k - 1] == seq(k - 1, _ => NextMonth);
      NextReachesLaterMonths(d, now, k - 1);
      NeverAfterToday(d, now, clicks[..k - 1]);
    }
  }
}
