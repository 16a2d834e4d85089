/** The completion pie (`TaskPieChart`): one slice per task completed at
    least once in the month, coloured round-robin from a fixed palette of
    13, with a tooltip showing the task's percentage. */
module TaskPieChart {
  import opened Wrappers
  import opened Tasks

  /** `COLORS`, in order. */
  const COLORS: seq<string> := [
    "hsl(var(--primary))", "hsl(var(--accent))", "hsl(var(--chart-3))",
    "hsl(var(--chart-4))", "hsl(var(--chart-5))", "hsl(var(--chart-6))",
    "hsl(38, 70%, 60%)", "hsl(160, 40%, 55%)", "hsl(220, 50%, 65%)",
    "hsl(280, 45%, 65%)", "hsl(340, 55%, 60%)", "hsl(25, 75%, 58%)",
    "hsl(180, 50%, 50%)"]

  /** `data.filter(d => d.completions > 0)`. */
  function Filtered(data: seq<TaskStat>): (r: seq<TaskStat>)
    ensures |r| <= |data|
    ensures forall s :: s in r <==> s in data && s.completions > 0
  {
    if data == [] then []
    else
      var front := Filtered(data[..|data| - 1]);
      assert data == data[..|data| - 1] + [data[|data| - 1]];
      if data[|data| - 1].completions > 0 then front + [data[|data| - 1]] else front
  }

  /** Filtering keeps the order of the entries: it distributes over
      concatenation. */
  lemma {:induction false} FilteredAppend(a: seq<TaskStat>, b: seq<TaskStat>)
    ensures Filtered(a + b) == Filtered(a) + Filtered(b)
  {
    if b != [] {
      var front := b[..|b| - 1];
      assert (a + b)[..|a + b| - 1] == a + front;
      FilteredAppend(a, front);
    } else {
      assert a + b == a;
    }
  }

  /** Filtering keeps the names distinct when they were. */
  lemma {:induction false} FilteredDistinct(data: seq<TaskStat>)
    requires forall i, j :: 0 <= i < j < |data| ==> data[i].name != data[j].name
    ensures forall i, j :: 0 <= i < j < |Filtered(data)| ==> Filtered(data)[i].name != Filtered(data)[j].name
  {
    if data != [] {
      var front := data[..|data| - 1];
      var last := data[|data| - 1];
      FilteredDistinct(front);
      if last.completions > 0 {
        var f := Filtered(front);
        forall i | 0 <= i < |f| ensures f[i].name != last.name {
          assert f[i] in front;
        }
      }
    }
  }

  /** The fill of slice `index`: `COLORS[index % COLORS.length]`. */
  function SliceColour(index: nat): (c: string)
    ensures c in COLORS
    ensures index < |COLORS| ==> c == COLORS[index]
  {
    var k := index % |COLORS|;
    assert index < |COLORS| ==> k == index;
    COLORS[k]
  }

  /** The palette's 13 colours are all different, so the colours repeat
      with period 13 and two neighbouring slices never share one. */
  lemma SliceColourPeriod(index: nat)
    ensures SliceColour(index + 13) == SliceColour(index)
    ensures SliceColour(index + 1) != SliceColour(index)
  {
    assert |COLORS| == 13;
    var k, k' := index % 13, (index + 1) % 13;
    assert k' == if k == 12 then 0 else k + 1;
  }

  datatype Slice = Slice(stat: TaskStat, colour: string)

  /** The card: the "No data yet this month" placeholder, or the pie. */
  datatype PieView = Placeholder | Pie(slices: seq<Slice>)

  /** The card for `data`: the placeholder exactly when no task was
      completed this month, otherwise one slice per completed task, in
      order, coloured by its position. */
  function View(data: seq<TaskStat>): (v: PieView)
    ensures v.Placeholder? <==> forall s :: s in data ==> s.completions <= 0
    ensures v.Pie? ==> |v.slices| == |Filtered(data)| > 0
    ensures v.Pie? ==> forall i :: 0 <= i < |v.slices| ==>
                          v.slices[i] == Slice(Filtered(data)[i], SliceColour(i))
  {
    var f := Filtered(data);
    if |f| == 0 then Placeholder
    else
      assert f[0] in data;
      Pie(seq(|f|, i requires 0 <= i < |f| => Slice(f[i], SliceColour(i))))
  }

  /** The tooltip's percentage: `filteredData.find(d => d.name === name)?.percentage`. */
  function TooltipPercentage(filtered: seq<TaskStat>, name: string): (r: Option<int>)
    ensures r.None? <==> forall s :: s in filtered ==> s.name != name
    ensures r.Some? ==> exists i :: 0 <= i < |filtered| && filtered[i].name == name &&
                          r.value == filtered[i].percentage &&
                          forall j :: 0 <= j < i ==> filtered[j].name != name
  {
    if filtered == [] then None
    else if filtered[0].name == name then Some(filtered[0].percentage)
    else
      var r := TooltipPercentage(filtered[1..], name);
      assert forall s :: s in filtered <==> s == filtered[0] || s in filtered[1..];
      if r.Some? then
        var i :| 0 <= i < |filtered[1..]| && filtered[1..][i].name == name &&
                 r.value == filtered[1..][i].percentage &&
                 forall j :: 0 <= j < i ==> filtered[1..][j].name != name;
        assert filtered[i + 1] == filtered[1..][i];
        r
      else r
  }

  /** With distinct task names, as the month's statistics have, hovering
      any slice shows that slice's own percentage. */
  lemma TooltipShowsSlice(data: seq<TaskStat>, i: nat)
    requires forall a, b :: 0 <= a < b < |data| ==> data[a].name != data[b].name
    requires i < |Filtered(data)|
    ensures TooltipPercentage(Filtered(data), Filtered(data)[i].name) == Some(Filtered(data)[i].percentage)
  {
    FilteredDistinct(data);
  }
}
