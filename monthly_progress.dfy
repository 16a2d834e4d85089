/** The six-month overview (`MonthlyProgress`): a summary per month for the
    last six months, a bar colour per average, and a table of the months,
    newest first, each with its trend against the month before. Months are
    numbered consecutively (year·12 + month), so "k months before" is a
    subtraction; the month's series and its day count are given. */
module MonthlyProgress {
  import opened Tasks
  import opened Percent
  import opened Theme
  import StatsCards

  /** One month's summary row. */
  datatype MonthSummary = MonthSummary(month: int, totalEarned: int, totalPossible: int,
                                       avgPercentage: int, activeDays: nat, perfectDays: nat,
                                       daysInMonth: nat)

  /** Every day earned between 0 and the fixed daily maximum. */
  predicate WithinMaximum(data: seq<DayPoint>)
  {
    forall i :: 0 <= i < |data| ==> 0 <= data[i].earned <= TOTAL_POSSIBLE_POINTS
  }

  /** A month's summary: the earned points of its series; the month's
      calendar days times the fixed daily maximum; the zero-guarded rounded
      average; the active and the perfect days of the series. */
  function Summarise(month: int, data: seq<DayPoint>, daysInMonth: nat): (s: MonthSummary)
    ensures s.month == month && s.daysInMonth == daysInMonth
    ensures s.totalEarned == StatsCards.TotalEarned(data)
    ensures s.totalPossible == daysInMonth * TOTAL_POSSIBLE_POINTS
    ensures s.avgPercentage == GuardedPercent(s.totalEarned, s.totalPossible)
    ensures s.activeDays == StatsCards.ActiveDays(data) && s.perfectDays == StatsCards.PerfectDays(data)
    ensures s.perfectDays <= s.activeDays <= |data|
    ensures daysInMonth == 0 ==> s.avgPercentage == 0
    ensures WithinMaximum(data) && |data| <= daysInMonth ==> 0 <= s.avgPercentage <= 100
  {
    StatsCards.PerfectAtMostActive(data);
    SummaryAverageInRange(data, daysInMonth);
    var earned := StatsCards.TotalEarned(data);
    var possible := daysInMonth * TOTAL_POSSIBLE_POINTS;
    MonthSummary(month, earned, possible, GuardedPercent(earned, possible),
                 StatsCards.ActiveDays(data), StatsCards.PerfectDays(data), daysInMonth)
  }

  lemma SummaryAverageInRange(data: seq<DayPoint>, daysInMonth: nat)
    ensures WithinMaximum(data) && |data| <= daysInMonth ==>
              0 <= GuardedPercent(StatsCards.TotalEarned(data), daysInMonth * TOTAL_POSSIBLE_POINTS) <= 100
  {
    if WithinMaximum(data) && |data| <= daysInMonth {
      StatsCards.EarnedWithinPossible(data);
      GuardedPercentInRange(StatsCards.TotalEarned(data), daysInMonth * TOTAL_POSSIBLE_POINTS);
    }
  }

  /** The six summaries, oldest first: entry i is the month 5 - i months
      before the current one, so the last entry is the current month. */
  function LastSixMonths(now: int, monthlyData: int -> seq<DayPoint>, daysIn: int -> nat): (r: seq<MonthSummary>)
    ensures |r| == 6
    ensures forall i :: 0 <= i < 6 ==>
              r[i] == Summarise(now - (5 - i), monthlyData(now - (5 - i)), daysIn(now - (5 - i)))
  {
    seq(6, i => Summarise(now - (5 - i), monthlyData(now - (5 - i)), daysIn(now - (5 - i))))
  }

  /** The six months are consecutive and end with the current one. */
  lemma SixConsecutiveMonths(now: int, monthlyData: int -> seq<DayPoint>, daysIn: int -> nat)
    ensures var r := LastSixMonths(now, monthlyData, daysIn);
            r[5].month == now && r[0].month == now - 5 &&
            forall i :: 0 <= i < 5 ==> r[i + 1].month == r[i].month + 1
  {
  }

  /** `getBarColor(percentage)`: at least 70 is accent, at least 40 primary,
      above 0 chart-6, anything else secondary. */
  function MonthBarColor(percentage: int): (c: Colour)
    ensures c == Accent <==> percentage >= 70
    ensures c == Primary <==> 40 <= percentage < 70
    ensures c == Chart6 <==> 0 < percentage < 40
    ensures c == Secondary <==> percentage <= 0
  {
    if percentage >= 70 then Accent
    else if percentage >= 40 then Primary
    else if percentage > 0 then Chart6
    else Secondary
  }

  /** A higher average never gets a weaker colour. */
  lemma MonthBarColorMonotone(p: int, q: int)
    requires p <= q
    ensures Rank(MonthBarColor(p)) <= Rank(MonthBarColor(q))
  {
  }

  /** The trend icon of a table row; `NoTrend` is the '-' of the oldest row. */
  datatype Trend = Up | Down | Same | NoTrend

  /** `getTrend(current, previous)`. */
  function TrendOf(current: int, previous: int): (t: Trend)
    ensures t == Up <==> current > previous
    ensures t == Down <==> current < previous
    ensures t == Same <==> current == previous
  {
    if current > previous then Up
    else if current < previous then Down
    else Same
  }

  /** Swapping the two months swaps Up and Down and keeps Same. */
  lemma TrendSwap(a: int, b: int)
    ensures TrendOf(a, b) == Up <==> TrendOf(b, a) == Down
    ensures TrendOf(a, b) == Same <==> TrendOf(b, a) == Same
  {
  }

  /** A row of the table: a month and its trend. */
  datatype TableRow = TableRow(summary: MonthSummary, trend: Trend)

  /** The table: the months newest first (`monthsData.slice().reverse()`);
      row idx compares its average with `monthsData[n - 1 - idx - 1]`, the
      chronologically previous month, and the oldest row, whose lookup is
      `undefined`, shows '-'. */
  function Table(months: seq<MonthSummary>): (rows: seq<TableRow>)
    ensures |rows| == |months|
    ensures forall idx :: 0 <= idx < |rows| ==> rows[idx].summary == months[|months| - 1 - idx]
    ensures forall idx :: 0 <= idx < |rows| - 1 ==>
              rows[idx].trend == TrendOf(months[|months| - 1 - idx].avgPercentage,
                                         months[|months| - 2 - idx].avgPercentage)
    ensures |rows| > 0 ==> rows[|rows| - 1].trend == NoTrend
  {
    var n := |months|;
    seq(n, idx requires 0 <= idx < n =>
      var prev := n - 1 - idx - 1;
      TableRow(months[n - 1 - idx],
               if 0 <= prev then TrendOf(months[n - 1 - idx].avgPercentage, months[prev].avgPercentage)
               else NoTrend))
  }

  /** In the six-month table, row idx shows the month idx months before the
      current one, and its trend compares with the month before that. */
  lemma SixMonthTable(now: int, monthlyData: int -> seq<DayPoint>, daysIn: int -> nat)
    ensures var months := LastSixMonths(now, monthlyData, daysIn);
            var rows := Table(months);
            |rows| == 6 &&
            (forall idx :: 0 <= idx < 6 ==> rows[idx].summary.month == now - idx) &&
            (forall idx :: 0 <= idx < 5 ==>
               rows[idx].trend == TrendOf(rows[idx].summary.avgPercentage, rows[idx + 1].summary.avgPercentage)) &&
            rows[5].trend == NoTrend
  {
    var months := LastSixMonths(now, monthlyData, daysIn);
    assert forall i :: 0 <= i < 6 ==> months[i].month == now - (5 - i);
    TableOfSix(months, now);
  }

  /** The table of six summaries numbered up to `now` lists them newest
      first, each compared with the one before it. */
  lemma TableOfSix(months: seq<MonthSummary>, now: int)
    requires |months| == 6
    requires forall i :: 0 <= i < 6 ==> months[i].month == now - (5 - i)
    ensures var rows := Table(months);
            |rows| == 6 &&
            (forall idx :: 0 <= idx < 6 ==> rows[idx].summary.month == now - idx) &&
            (forall idx :: 0 <= idx < 5 ==>
               rows[idx].trend == TrendOf(rows[idx].summary.avgPercentage, rows[idx + 1].summary.avgPercentage)) &&
            rows[5].trend == NoTrend
  {
    var rows := Table(months);
    forall idx | 0 <= idx < 5
      ensures rows[idx].trend == TrendOf(rows[idx].summary.avgPercentage, rows[idx + 1].summary.avgPercentage)
    {
      assert rows[idx + 1].summary == months[4 - idx];
    }
  }
}
