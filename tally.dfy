/** The per-task completion counter both stores build in `getTaskStats`:
    a JavaScript object used as a dictionary from task name to count,
    whose `Object.entries` come back in insertion order. */
module Tally {
  import opened Tasks
  import opened Percent

  /** The dictionary: its keys in insertion order and their values. */
  datatype Counter = Counter(keys: seq<string>, counts: map<string, int>)

  ghost predicate Valid(c: Counter)
  {
    && (forall i, j :: 0 <= i < j < |c.keys| ==> c.keys[i] != c.keys[j])
    && (forall n :: n in c.counts <==> n in c.keys)
  }

  const Empty := Counter([], map[])

  /** `counter[name] = 0`: a new key goes last, an existing one keeps its place. */
  function Reset(c: Counter, name: string): Counter
  {
    if name in c.counts then c.(counts := c.counts[name := 0])
    else Counter(c.keys + [name], c.counts[name := 0])
  }

  /** `counter[name] = (counter[name] || 0) + 1`. */
  function Bump(c: Counter, name: string): Counter
  {
    if name in c.counts then c.(counts := c.counts[name := c.counts[name] + 1])
    else Counter(c.keys + [name], c.counts[name := 1])
  }

  /** The counter after `names.forEach(n => counter[n] = 0)` on an empty one. */
  function Zeroed(names: seq<string>): Counter
  {
    if names == [] then Empty else Reset(Zeroed(names[..|names| - 1]), names[|names| - 1])
  }

  /** The first loop of `getTaskStats`: `names.forEach(n => counter[n] = 0)`
      on an empty dictionary. */
  method ZeroCounter(names: seq<string>) returns (counter: Counter)
    ensures counter == Zeroed(names)
  {
    counter := Empty;
    for i := 0 to |names|
      invariant counter == Zeroed(names[..i])
    {
      assert names[..i + 1][..i] == names[..i];
      counter := Reset(counter, names[i]);
    }
    assert names[..|names|] == names;
  }

  /** The counter after bumping each of `names` in turn. */
  function BumpAll(c: Counter, names: seq<string>): Counter
  {
    if names == [] then c else Bump(BumpAll(c, names[..|names| - 1]), names[|names| - 1])
  }

  /** How many times `n` occurs in `names`. */
  function Occurrences(names: seq<string>, n: string): nat
  {
    if names == [] then 0
    else Occurrences(names[..|names| - 1], n) + (if names[|names| - 1] == n then 1 else 0)
  }

  /** `Object.entries(counter).map(([name, count]) => ({ name, completions: count,
      percentage: Math.round((count / days) * 100) }))`. */
  function Entries(c: Counter, days: int): (r: seq<TaskStat>)
    requires Valid(c)
    requires days > 0
    ensures |r| == |c.keys|
    ensures forall i :: 0 <= i < |r| ==> r[i].name == c.keys[i] && r[i].completions == c.counts[c.keys[i]]
    ensures forall i :: 0 <= i < |r| ==> r[i].percentage == RoundedPercent(r[i].completions, days)
  {
    seq(|c.keys|, i requires 0 <= i < |c.keys| =>
      TaskStat(c.keys[i], c.counts[c.keys[i]], RoundedPercent(c.counts[c.keys[i]], days)))
  }

  /** The statistics of a month: every catalogue name starts at 0, then
      each completion event adds one to its name. */
  function Stats(names: seq<string>, events: seq<string>, days: int): seq<TaskStat>
    requires days > 0
  {
    ZeroedFacts(names);
    BumpAllFacts(Zeroed(names), events);
    Entries(BumpAll(Zeroed(names), events), days)
  }

  /** Zeroing a list of names gives each of them, once, the value 0; with
      distinct names the keys are the names in order. */
  lemma ZeroedFacts(names: seq<string>)
    ensures Valid(Zeroed(names))
    ensures forall n :: n in Zeroed(names).counts <==> n in names
    ensures forall n :: n in Zeroed(names).counts ==> Zeroed(names).counts[n] == 0
    ensures (forall i, j :: 0 <= i < j < |names| ==> names[i] != names[j]) ==> Zeroed(names).keys == names
  {
    ZeroedValid(names);
    if forall i, j :: 0 <= i < j < |names| ==> names[i] != names[j] {
      ZeroedInOrder(names);
    }
  }

  /** Zeroing keeps the dictionary well formed, with exactly the names as
      keys, each worth 0. */
  lemma {:induction false} ZeroedValid(names: seq<string>)
    ensures Valid(Zeroed(names))
    ensures forall n :: n in Zeroed(names).counts <==> n in names
    ensures forall n :: n in Zeroed(names).counts ==> Zeroed(names).counts[n] == 0
  {
    if names != [] {
      var front, last := names[..|names| - 1], names[|names| - 1];
      ZeroedValid(front);
      ResetFacts(Zeroed(front), last);
      assert names == front + [last];
    }
  }

  /** Zeroing distinct names lists them as keys in their own order. */
  lemma {:induction false} ZeroedInOrder(names: seq<string>)
    requires forall i, j :: 0 <= i < j < |names| ==> names[i] != names[j]
    ensures Zeroed(names).keys == names
  {
    if names != [] {
      var front, last := names[..|names| - 1], names[|names| - 1];
      ZeroedInOrder(front);
      ZeroedValid(front);
      assert last !in front by {
        assert forall i :: 0 <= i < |front| ==> front[i] == names[i];
      }
      assert names == front + [last];
    }
  }

  /** Setting a name to 0 keeps the dictionary well formed, adds the name
      (last, when it is new) and changes no other value. */
  lemma ResetFacts(c: Counter, name: string)
    requires Valid(c)
    ensures Valid(Reset(c, name))
    ensures forall n :: n in Reset(c, name).counts <==> n in c.counts || n == name
    ensures Reset(c, name).counts[name] == 0
    ensures forall n :: n in c.counts && n != name ==> Reset(c, name).counts[n] == c.counts[n]
    ensures Reset(c, name).keys == if name in c.counts then c.keys else c.keys + [name]
  {
  }

  /** Bumping a list of names keeps the dictionary well formed, keeps the
      keys already present in their places, adds the new names after them,
      and adds to each name its number of occurrences. */
  lemma {:induction false} BumpAllFacts(c: Counter, names: seq<string>)
    requires Valid(c)
    ensures Valid(BumpAll(c, names))
    ensures |BumpAll(c, names).keys| >= |c.keys| && BumpAll(c, names).keys[..|c.keys|] == c.keys
    ensures forall n :: n in BumpAll(c, names).counts <==> n in c.counts || n in names
    ensures forall n :: n in BumpAll(c, names).counts ==>
              BumpAll(c, names).counts[n] == (if n in c.counts then c.counts[n] else 0) + Occurrences(names, n)
  {
    if names != [] {
      var front, last := names[..|names| - 1], names[|names| - 1];
      BumpAllFacts(c, front);
      var d := BumpAll(c, front);
      assert forall n :: n in names <==> n in front || n == last;
      assert forall n :: Occurrences(names, n) == Occurrences(front, n) + (if last == n then 1 else 0);
      if last !in d.counts {
        OccurrencesAbsent(front, last);
        assert (d.keys + [last])[..|c.keys|] == d.keys[..|c.keys|];
      }
    }
  }

  /** Which entries the statistics of a month hold: one for every catalogue
      name and none twice; the others are names that occur only in events;
      with distinct catalogue names the catalogue comes first, in order. */
  lemma StatsNames(names: seq<string>, events: seq<string>, days: int)
    requires days > 0
    ensures forall i, j :: 0 <= i < j < |Stats(names, events, days)| ==>
              Stats(names, events, days)[i].name != Stats(names, events, days)[j].name
    ensures forall n :: n in names ==>
              exists i :: 0 <= i < |Stats(names, events, days)| && Stats(names, events, days)[i].name == n
    ensures forall i :: 0 <= i < |Stats(names, events, days)| ==>
              Stats(names, events, days)[i].name in names || Stats(names, events, days)[i].name in events
    ensures (forall i, j :: 0 <= i < j < |names| ==> names[i] != names[j]) ==>
              |Stats(names, events, days)| >= |names| &&
              forall i :: 0 <= i < |names| ==> Stats(names, events, days)[i].name == names[i]
  {
    ZeroedFacts(names);
    var z := Zeroed(names);
    BumpAllFacts(z, events);
    var c := BumpAll(z, events);
    var r := Stats(names, events, days);
    assert r == Entries(c, days);
    forall n | n in names ensures exists i :: 0 <= i < |r| && r[i].name == n {
      assert n in c.keys;
      var i :| 0 <= i < |c.keys| && c.keys[i] == n;
      assert r[i].name == n;
    }
    forall i | 0 <= i < |r| ensures r[i].name in names || r[i].name in events {
      assert r[i].name in c.counts;
    }
    if forall i, j :: 0 <= i < j < |names| ==> names[i] != names[j] {
      forall i | 0 <= i < |names| ensures r[i].name == names[i] {
        assert c.keys[..|z.keys|][i] == names[i];
      }
    }
  }

  /** What each entry of the statistics of a month counts: the number of
      completion events for its name, and as percentage the rounded share
      of the month's days. */
  lemma StatsCounts(names: seq<string>, events: seq<string>, days: int)
    requires days > 0
    ensures forall i :: 0 <= i < |Stats(names, events, days)| ==>
              Stats(names, events, days)[i].completions == Occurrences(events, Stats(names, events, days)[i].name)
    ensures forall i :: 0 <= i < |Stats(names, events, days)| ==>
              Stats(names, events, days)[i].percentage ==
              RoundedPercent(Stats(names, events, days)[i].completions, days)
  {
    ZeroedFacts(names);
    var z := Zeroed(names);
    BumpAllFacts(z, events);
    var c := BumpAll(z, events);
    assert Stats(names, events, days) == Entries(c, days);
  }

  lemma {:induction false} OccurrencesAbsent(names: seq<string>, n: string)
    requires n !in names
    ensures Occurrences(names, n) == 0
  {
    if names != [] {
      OccurrencesAbsent(names[..|names| - 1], n);
    }
  }

  /** The count of one name grows by exactly its occurrences in appended events. */
  lemma {:induction false} OccurrencesAppend(a: seq<string>, b: seq<string>, n: string)
    ensures Occurrences(a + b, n) == Occurrences(a, n) + Occurrences(b, n)
  {
    if b != [] {
      OccurrencesAppend(a, b[..|b| - 1], n);
      assert (a + b)[..|a + b| - 1] == a + b[..|b| - 1];
    } else {
      assert a + b == a;
    }
  }

  /** Bumping in two stages is bumping all the events at once. */
  lemma {:induction false} BumpAllAppend(c: Counter, a: seq<string>, b: seq<string>)
    ensures BumpAll(c, a + b) == BumpAll(BumpAll(c, a), b)
  {
    if b != [] {
      BumpAllAppend(c, a, b[..|b| - 1]);
      assert (a + b)[..|a + b| - 1] == a + b[..|b| - 1];
    } else {
      assert a + b == a;
    }
  }
}
