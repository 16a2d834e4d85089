/** The four summary cards of a month (`StatsCards`): total points, the
    average completion, perfect days, active days, and the current streak.
    All of them compare against the fixed daily maximum
    `TOTAL_POSSIBLE_POINTS`, not against the edited catalogue's total. */
module StatsCards {
  import opened Wrappers
  import opened Tasks
  import opened Percent

  /** The month's total points: the sum of every day's earned points. */
  function TotalEarned(data: seq<DayPoint>): int
  {
    if data == [] then 0 else data[0].earned + TotalEarned(data[1..])
  }

  /** The month's possible points: one fixed daily maximum per day shown. */
  function TotalPossible(data: seq<DayPoint>): int
  {
    |data| * TOTAL_POSSIBLE_POINTS
  }

  /** The average completion: 0 for an empty month, else the rounded share. */
  function AvgPercentage(data: seq<DayPoint>): (r: int)
    ensures data == [] ==> r == 0
    ensures data != [] ==> r == RoundedPercent(TotalEarned(data), TotalPossible(data))
  {
    GuardedPercent(TotalEarned(data), TotalPossible(data))
  }

  /** Days that earned exactly the fixed daily maximum. */
  function PerfectDays(data: seq<DayPoint>): nat
  {
    if data == [] then 0
    else (if data[0].earned == TOTAL_POSSIBLE_POINTS then 1 else 0) + PerfectDays(data[1..])
  }

  /** Days that earned anything. */
  function ActiveDays(data: seq<DayPoint>): nat
  {
    if data == [] then 0
    else (if data[0].earned > 0 then 1 else 0) + ActiveDays(data[1..])
  }

  /** Every perfect day is active, and no more days are active than shown. */
  lemma {:induction false} PerfectAtMostActive(data: seq<DayPoint>)
    ensures PerfectDays(data) <= ActiveDays(data) <= |data|
  {
    if data != [] {
      PerfectAtMostActive(data[1..]);
    }
  }

  /** Days that each earned between 0 and the maximum average between 0 % and 100 %. */
  lemma AvgPercentageInRange(data: seq<DayPoint>)
    requires forall i :: 0 <= i < |data| ==> 0 <= data[i].earned <= TOTAL_POSSIBLE_POINTS
    ensures 0 <= AvgPercentage(data) <= 100
  {
    EarnedWithinPossible(data);
    GuardedPercentInRange(TotalEarned(data), TotalPossible(data));
  }

  lemma {:induction false} EarnedWithinPossible(data: seq<DayPoint>)
    requires forall i :: 0 <= i < |data| ==> 0 <= data[i].earned <= TOTAL_POSSIBLE_POINTS
    ensures 0 <= TotalEarned(data) <= TotalPossible(data)
  {
    if data != [] {
      EarnedWithinPossible(data[1..]);
    }
  }

  /** A day counts towards the streak when it earned at least half the
      fixed maximum (`earned >= TOTAL_POSSIBLE_POINTS * 0.5`). */
  predicate Qualifies(d: DayPoint)
  {
    2 * d.earned >= TOTAL_POSSIBLE_POINTS
  }

  /** A day that ends the streak: it earned something, but less than half. */
  predicate Stops(d: DayPoint)
  {
    !Qualifies(d) && d.earned > 0
  }

  /** The number of qualifying days. */
  function QualifyingDays(data: seq<DayPoint>): nat
  {
    if data == [] then 0 else (if Qualifies(data[0]) then 1 else 0) + QualifyingDays(data[1..])
  }

  /** The index of the last day that stops the streak, if any. */
  function LastStop(data: seq<DayPoint>): (r: Option<nat>)
    ensures r.Some? ==> r.value < |data| && Stops(data[r.value])
    ensures r.Some? ==> forall j :: r.value < j < |data| ==> !Stops(data[j])
    ensures r.None? ==> forall j :: 0 <= j < |data| ==> !Stops(data[j])
  {
    if data == [] then None
    else if Stops(data[|data| - 1]) then Some(|data| - 1)
    else LastStop(data[..|data| - 1])
  }

  /** The streak as a property of the month: the qualifying days after the
      last day that stops it (all qualifying days when none does). Days
      that earned nothing neither count nor stop it. */
  function Streak(data: seq<DayPoint>): nat
  {
    match LastStop(data)
    case None => QualifyingDays(data)
    case Some(k) => QualifyingDays(data[k + 1..])
  }

  /** The streak loop: scan back from the last day, count qualifying days,
      skip days that earned nothing, stop at the first other day. */
  method CurrentStreak(data: seq<DayPoint>) returns (streak: nat)
    ensures streak == Streak(data)
    ensures streak <= QualifyingDays(data)
  {
    streak := 0;
    var i := |data| - 1;
    while i >= 0
      invariant -1 <= i < |data|
      invariant streak == QualifyingDays(data[i + 1..])
      invariant forall j :: i < j < |data| ==> !Stops(data[j])
    {
      assert data[i..][1..] == data[i + 1..];
      if Qualifies(data[i]) {
        streak := streak + 1;
      } else if data[i].earned > 0 {
        assert LastStop(data) == Some(i) by { LastStopIs(data, i); }
        QualifyingSuffix(data, i + 1);
        return;
      }
      i := i - 1;
    }
    assert data[0..] == data;
  }

  lemma LastStopIs(data: seq<DayPoint>, i: nat)
    requires i < |data| && Stops(data[i])
    requires forall j :: i < j < |data| ==> !Stops(data[j])
    ensures LastStop(data) == Some(i)
  {
  }

  /** A later part of the month holds no more qualifying days than the whole. */
  lemma {:induction false} QualifyingSuffix(data: seq<DayPoint>, k: nat)
    requires k <= |data|
    ensures QualifyingDays(data[k..]) <= QualifyingDays(data)
  {
    if k > 0 {
      QualifyingSuffix(data[1..], k - 1);
      assert data[1..][k - 1..] == data[k..];
    }
  }

  /** Qualifying days add up over consecutive stretches. */
  lemma {:induction false} QualifyingAppend(a: seq<DayPoint>, b: seq<DayPoint>)
    ensures QualifyingDays(a + b) == QualifyingDays(a) + QualifyingDays(b)
  {
    if a == [] {
      assert a + b == b;
    } else {
      QualifyingAppend(a[1..], b);
      assert (a + b)[1..] == a[1..] + b;
    }
  }

  /** The last stop of two stretches is the second's when it has one,
      else the first's. */
  lemma {:induction false} LastStopAppend(a: seq<DayPoint>, b: seq<DayPoint>)
    ensures LastStop(a + b) == match LastStop(b)
                               case Some(k) => Some(|a| + k)
                               case None => LastStop(a)
  {
    if b == [] {
      assert a + b == a;
    } else {
      var front := b[..|b| - 1];
      assert (a + b)[..|a + b| - 1] == a + front;
      if !Stops(b[|b| - 1]) {
        LastStopAppend(a, front);
      }
    }
  }

  /** A month without activity has no streak. */
  lemma NoActivityNoStreak(data: seq<DayPoint>)
    requires forall i :: 0 <= i < |data| ==> data[i].earned <= 0
    ensures Streak(data) == 0
  {
    NoneQualify(data);
  }

  lemma {:induction false} NoneQualify(data: seq<DayPoint>)
    requires forall i :: 0 <= i < |data| ==> !Qualifies(data[i])
    ensures QualifyingDays(data) == 0
  {
    if data != [] {
      NoneQualify(data[1..]);
    }
  }

  /** The asymmetric rule, part one: a day that earned nothing can be
      removed from anywhere in the month without changing the streak. */
  lemma EmptyDayIsSkipped(a: seq<DayPoint>, d: DayPoint, b: seq<DayPoint>)
    requires d.earned == 0
    ensures Streak(a + [d] + b) == Streak(a + b)
  {
    assert a + [d] + b == (a + [d]) + b;
    LastStopAppend(a + [d], b);
    LastStopAppend(a, b);
    LastStopAppend(a, [d]);
    assert LastStop([d]) == None;
    match LastStop(b)
    case Some(k) =>
      assert (a + [d] + b)[|a| + 1 + k + 1..] == b[k + 1..];
      assert (a + b)[|a| + k + 1..] == b[k + 1..];
    case None =>
      match LastStop(a)
      case Some(k) => EmptyDayAfterStop(a, d, b, k);
      case None => EmptyDayWithoutStop(a, d, b);
  }

  /** The qualifying days after a's last stop are not changed by an empty day. */
  lemma EmptyDayAfterStop(a: seq<DayPoint>, d: DayPoint, b: seq<DayPoint>, k: nat)
    requires d.earned == 0 && k < |a|
    ensures QualifyingDays((a + [d] + b)[k + 1..]) == QualifyingDays((a + b)[k + 1..])
  {
    assert (a + [d] + b)[k + 1..] == a[k + 1..] + [d] + b;
    assert (a + b)[k + 1..] == a[k + 1..] + b;
    QualifyingAppend(a[k + 1..] + [d], b);
    QualifyingAppend(a[k + 1..], [d]);
    QualifyingAppend(a[k + 1..], b);
  }

  /** Without any stop, an empty day adds no qualifying day. */
  lemma EmptyDayWithoutStop(a: seq<DayPoint>, d: DayPoint, b: seq<DayPoint>)
    requires d.earned == 0
    ensures QualifyingDays(a + [d] + b) == QualifyingDays(a + b)
  {
    QualifyingAppend(a + [d], b);
    QualifyingAppend(a, [d]);
    QualifyingAppend(a, b);
  }

  /** The asymmetric rule, part two: a day that earned something but less
      than half ends the streak; only the qualifying days after it count. */
  lemma StopDayEndsStreak(a: seq<DayPoint>, d: DayPoint, b: seq<DayPoint>)
    requires Stops(d)
    requires forall j :: 0 <= j < |b| ==> !Stops(b[j])
    ensures Streak(a + [d] + b) == QualifyingDays(b)
  {
    assert a + [d] + b == (a + [d]) + b;
    LastStopAppend(a + [d], b);
    assert LastStop(a + [d]) == Some(|a|);
    assert (a + [d] + b)[|a| + 1..] == b;
  }
}
