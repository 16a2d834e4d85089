/** The daily bar chart (`MonthlyBarChart`): each day's bar is coloured by
    the share of the day's possible points it earned. */
module MonthlyBarChart {
  import opened Theme

  /** `(earned / total) * 100 >= k` on exact shares, with the floating-point
      outcomes of a zero total: a positive amount over 0 is +Infinity (at
      least anything), and 0 / 0 is NaN and -Infinity (at least nothing). */
  predicate ShareAtLeast(earned: int, total: int, k: int)
  {
    if total > 0 then 100 * earned >= k * total
    else if total < 0 then 100 * earned <= k * total
    else earned > 0
  }

  /** `getBarColor(earned, total)`: a share of at least 80 % is accent, at
      least 50 % primary, above 0 % chart-6, and anything else secondary.
      For a positive total the shares are compared exactly (100·earned
      against 80·total and 50·total); over a zero total a day with points
      is accent and one without is secondary. */
  function DayBarColor(earned: int, total: int): (c: Colour)
    ensures total > 0 ==>
              && (c == Accent <==> 100 * earned >= 80 * total)
              && (c == Primary <==> 50 * total <= 100 * earned < 80 * total)
              && (c == Chart6 <==> 0 < earned && 100 * earned < 50 * total)
              && (c == Secondary <==> earned <= 0)
    ensures total == 0 ==> (c == Accent <==> earned > 0) && (c == Secondary <==> earned <= 0)
    ensures total < 0 ==>
              && (c == Accent <==> 100 * earned <= 80 * total)
              && (c == Secondary <==> earned >= 0)
  {
    if ShareAtLeast(earned, total, 80) then Accent
    else if ShareAtLeast(earned, total, 50) then Primary
    else if ShareAtLeast(earned, total, 0) && 100 * earned != 0 then Chart6
    else Secondary
  }

  /** The legend text under the chart for a colour; secondary has none. */
  function LegendLabel(c: Colour): string
  {
    match c
    case Accent => "≥80%"
    case Primary => "50-79%"
    case Chart6 => "<50%"
    case Secondary => ""
  }

  /** Earning more on a day never gives a weaker colour. */
  lemma DayBarColorMonotone(earned: int, earned': int, total: int)
    requires total > 0
    requires earned <= earned'
    ensures Rank(DayBarColor(earned, total)) <= Rank(DayBarColor(earned', total))
  {
  }

  /** Every share of a day with something earned has a legend entry, and a
      bar under the "<50%" entry earned something. */
  lemma LegendCoversActiveDays(earned: int, total: int)
    requires total >= 0 && earned > 0
    ensures LegendLabel(DayBarColor(earned, total)) != ""
  {
  }
}
