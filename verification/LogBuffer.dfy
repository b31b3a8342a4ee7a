// The dashboard's log: a ring that keeps the last entries, and the histogram over them.
module LogBuffer {
  import opened Columns

  datatype Level = Debug | Info | Warn | Error | Unlisted

  datatype LogEntry = LogEntry(time: int, level: Level, message: string, source: string)

  function LastN<T>(s: seq<T>, n: nat): seq<T> {
    if |s| <= n then s else s[|s| - n..]
  }

  lemma LastOfMore<T>(s: seq<T>, x: T, n: nat)
    requires n >= 1
    ensures LastN(s + [x], n) == if |s| < n then s + [x] else LastN(s, n)[1..] + [x]
  {
  }

  lemma LastIsShort<T>(s: seq<T>, n: nat)
    ensures |LastN(s, n)| == if |s| < n then |s| else n
  {
  }

  // The last ones, in order: as many as there may be.
  lemma LastOnesStay<T>(s: seq<T>, n: nat)
    ensures var r := LastN(s, n);
            |r| == (if |s| < n then |s| else n) && forall i | 0 <= i < |r| :: r[i] == s[|s| - |r| + i]
  {
  }

  const NOTHING: map<Level, nat> := map[Debug := 0, Info := 0, Warn := 0, Error := 0]

  // The entries a histogram counts: those the filter passes, of the four levels.
  function Shown(entries: seq<LogEntry>, filter: LogEntry -> bool): seq<Event<Level, LogEntry>> {
    if entries == [] then []
    else
      var init, last := entries[..|entries| - 1], entries[|entries| - 1];
      if filter(last) && last.level != Unlisted then Shown(init, filter) + [Event(last.level, last.time, last)] else Shown(init, filter)
  }

  ghost predicate Tallies(tally: map<Level, nat>, events: seq<Event<Level, LogEntry>>) {
    forall level :: if level == Unlisted then level !in tally else level in tally && tally[level] == Count(events, level)
  }

  class LogRingBuffer {
    const capacity: nat
    const buffer: array<LogEntry>
    var head: nat
    var count: nat
    // Everything ever pushed.
    ghost var log: seq<LogEntry>

    ghost predicate Valid()
      reads this, buffer
    {
      && capacity == buffer.Length >= 1
      && head < capacity && count <= capacity
      && (count < capacity ==> head == count == |log| && buffer[..count] == log)
      && (count == capacity ==> |log| >= capacity && buffer[head..] + buffer[..head] == LastN(log, capacity))
    }

    constructor (capacity: nat)
      requires capacity >= 1
      ensures Valid() && log == [] && this.capacity == capacity && fresh(buffer)
    {
      this.capacity := capacity;
      buffer := new LogEntry[capacity](_ => LogEntry(0, Unlisted, "", ""));
      head, count, log := 0, 0, [];
    }

    method Push(entry: LogEntry)
      requires Valid()
      modifies this, buffer
      ensures Valid() && log == old(log) + [entry]
    {
      ghost var before := buffer[..];
      buffer[head] := entry;
      assert buffer[..] == before[head := entry];
      ghost var at := head;
      head := if head + 1 == capacity then 0 else head + 1;
      LastOfMore(log, entry, capacity);
      LastIsShort(log, capacity);
      if count < capacity {
        count := count + 1;
        assert buffer[..count] == log + [entry];
      } else {
        RingTurns(before, at, entry);
      }
      log := log + [entry];
    }

    // What is kept is the last entries pushed, in order.
    method GetAll() returns (entries: seq<LogEntry>)
      requires Valid()
      ensures entries == LastN(log, capacity)
    {
      if count < capacity {
        return buffer[..count];
      }
      return buffer[head..] + buffer[..head];
    }

    // Entries per level and column, of those the filter passes.
    method Histogram(range: StatsRange, filter: LogEntry -> bool) returns (columns: array<map<Level, nat>>, totals: map<Level, nat>)
      requires Valid() && ValidRange(range)
      ensures fresh(columns)
      ensures columns[..] == Charted(LastN(log, capacity), filter, range).columns
      ensures totals == Charted(LastN(log, capacity), filter, range).totals
    {
      var all := GetAll();
      columns := new map<Level, nat>[range.buckets](_ => NOTHING);
      totals := NOTHING;
      for k := 0 to |all|
        invariant fresh(columns) && columns[..] == Charted(all[..k], filter, range).columns
        invariant totals == Charted(all[..k], filter, range).totals
      {
        var entry := all[k];
        var index := BucketIndex(range, entry.time);
        ghost var before := columns[..];
        ChartedNext(all, k, filter, range);
        if index >= 0 && filter(entry) && entry.level != Unlisted {
          columns[index], totals := Bumped(columns[index], entry.level), Bumped(totals, entry.level);
          assert columns[..] == before[index := Bumped(before[index], entry.level)];
        }
      }
      assert all[..|all|] == all;
    }
  }

  // A full ring after one more write: the oldest entry is gone, the new one is the last.
  lemma RingTurns(before: seq<LogEntry>, head: nat, entry: LogEntry)
    requires head < |before|
    ensures var next := if head + 1 == |before| then 0 else head + 1;
            var after := before[head := entry];
            after[next..] + after[..next] == (before[head..] + before[..head])[1..] + [entry]
  {
  }

  ghost predicate ColumnsTallied(columns: seq<map<Level, nat>>, events: seq<Event<Level, LogEntry>>, range: StatsRange)
    requires range.buckets >= 1 && range.bucketMs >= 1
  {
    |columns| == range.buckets && forall i | 0 <= i < |columns| :: Tallies(columns[i], InColumn(events, range, i))
  }

  datatype Chart = Chart(columns: seq<map<Level, nat>>, totals: map<Level, nat>)

  function Bumped(tally: map<Level, nat>, level: Level): map<Level, nat> {
    tally[level := (if level in tally then tally[level] else 0) + 1]
  }

  // The chart built entry by entry.
  function Charted(entries: seq<LogEntry>, filter: LogEntry -> bool, range: StatsRange): (r: Chart)
    requires range.buckets >= 1 && range.bucketMs >= 1
    ensures |r.columns| == range.buckets
  {
    if entries == [] then Chart(seq(range.buckets, _ => NOTHING), NOTHING)
    else
      var before, last := Charted(entries[..|entries| - 1], filter, range), entries[|entries| - 1];
      var index := BucketIndex(range, last.time);
      if index >= 0 && filter(last) && last.level != Unlisted then
        Chart(before.columns[index := Bumped(before.columns[index], last.level)], Bumped(before.totals, last.level))
      else
        before
  }

  lemma ChartedNext(entries: seq<LogEntry>, k: nat, filter: LogEntry -> bool, range: StatsRange)
    requires range.buckets >= 1 && range.bucketMs >= 1 && k < |entries|
    ensures var before, e := Charted(entries[..k], filter, range), entries[k];
            var i := BucketIndex(range, e.time);
            Charted(entries[..k + 1], filter, range) ==
            if i >= 0 && filter(e) && e.level != Unlisted
            then Chart(before.columns[i := Bumped(before.columns[i], e.level)], Bumped(before.totals, e.level)) else before
  {
    assert entries[..k + 1][..k] == entries[..k];
  }

  lemma {:induction false} ChartedTallies(entries: seq<LogEntry>, filter: LogEntry -> bool, range: StatsRange)
    requires range.buckets >= 1 && range.bucketMs >= 1
    ensures var chart, shown := Charted(entries, filter, range), Shown(entries, filter);
            ColumnsTallied(chart.columns, shown, range) && Tallies(chart.totals, InRange(shown, range))
  {
    if entries != [] {
      var init, last := entries[..|entries| - 1], entries[|entries| - 1];
      ChartedTallies(init, filter, range);
      if filter(last) && last.level != Unlisted {
        var before, event := Charted(init, filter, range), Event(last.level, last.time, last);
        if BucketIndex(range, last.time) >= 0 {
          TallyInside(before.columns, before.totals, Shown(init, filter), event, range);
        } else {
          TallyOutside(before.columns, before.totals, Shown(init, filter), event, range);
        }
      }
    }
  }

  lemma TallyAppend(tally: map<Level, nat>, events: seq<Event<Level, LogEntry>>, event: Event<Level, LogEntry>)
    requires Tallies(tally, events) && event.kind != Unlisted
    ensures Tallies(Bumped(tally, event.kind), events + [event])
  {
    forall level ensures Count(events + [event], level) == Count(events, level) + if event.kind == level then 1 else 0 {
      CountAppend(events, event, level);
    }
  }

  lemma Appended(events: seq<Event<Level, LogEntry>>, event: Event<Level, LogEntry>, range: StatsRange, i: int)
    requires range.buckets >= 1 && range.bucketMs >= 1
    ensures InColumn(events + [event], range, i)
            == if BucketIndex(range, event.time) == i then InColumn(events, range, i) + [event] else InColumn(events, range, i)
    ensures InRange(events + [event], range)
            == if BucketIndex(range, event.time) >= 0 then InRange(events, range) + [event] else InRange(events, range)
  {
    assert (events + [event])[..|events|] == events;
  }

  // One more entry in the range: only its column and the totals count it.
  lemma TallyInside(columns: seq<map<Level, nat>>, totals: map<Level, nat>, events: seq<Event<Level, LogEntry>>,
                    event: Event<Level, LogEntry>, range: StatsRange)
    requires range.buckets >= 1 && range.bucketMs >= 1 && BucketIndex(range, event.time) >= 0 && event.kind != Unlisted
    requires ColumnsTallied(columns, events, range) && Tallies(totals, InRange(events, range))
    ensures Tallies(Bumped(totals, event.kind), InRange(events + [event], range))
    ensures var i := BucketIndex(range, event.time);
            ColumnsTallied(columns[i := Bumped(columns[i], event.kind)], events + [event], range)
  {
    var index := BucketIndex(range, event.time);
    Appended(events, event, range, index);
    TallyAppend(totals, InRange(events, range), event);
    TallyAppend(columns[index], InColumn(events, range, index), event);
    ColumnTallied(columns, events, event, range, Bumped(columns[index], event.kind));
  }

  lemma ColumnTallied(columns: seq<map<Level, nat>>, events: seq<Event<Level, LogEntry>>, event: Event<Level, LogEntry>,
                      range: StatsRange, updated: map<Level, nat>)
    requires range.buckets >= 1 && range.bucketMs >= 1 && BucketIndex(range, event.time) >= 0
    requires ColumnsTallied(columns, events, range)
    requires Tallies(updated, InColumn(events, range, BucketIndex(range, event.time)) + [event])
    ensures ColumnsTallied(columns[BucketIndex(range, event.time) := updated], events + [event], range)
  {
    var index := BucketIndex(range, event.time);
    forall i | 0 <= i < |columns| ensures Tallies(if i == index then updated else columns[i], InColumn(events + [event], range, i)) {
      Appended(events, event, range, i);
    }
  }

  lemma TallyOutside(columns: seq<map<Level, nat>>, totals: map<Level, nat>, events: seq<Event<Level, LogEntry>>,
                     event: Event<Level, LogEntry>, range: StatsRange)
    requires range.buckets >= 1 && range.bucketMs >= 1 && BucketIndex(range, event.time) < 0
    requires ColumnsTallied(columns, events, range) && Tallies(totals, InRange(events, range))
    ensures ColumnsTallied(columns, events + [event], range) && Tallies(totals, InRange(events + [event], range))
  {
    forall i | 0 <= i < |columns| ensures Tallies(columns[i], InColumn(events + [event], range, i)) {
      Appended(events, event, range, i);
    }
    Appended(events, event, range, 0);
  }

  // The entries of a level that pass the filter and fall in a column.
  function CountEntries(entries: seq<LogEntry>, filter: LogEntry -> bool, range: StatsRange, i: int, level: Level): nat
    requires range.buckets >= 1 && range.bucketMs >= 1
  {
    if entries == [] then 0
    else
      var before, last := CountEntries(entries[..|entries| - 1], filter, range, i, level), entries[|entries| - 1];
      if filter(last) && last.level == level && BucketIndex(range, last.time) == i then before + 1 else before
  }

  // A column of the chart tells of each level how many entries kept pass the filter and fall in it.
  lemma ChartCountsEntries(entries: seq<LogEntry>, filter: LogEntry -> bool, range: StatsRange, i: nat, level: Level)
    requires range.buckets >= 1 && range.bucketMs >= 1 && i < range.buckets && level != Unlisted
    ensures var column := Charted(entries, filter, range).columns[i];
            level in column && column[level] == CountEntries(entries, filter, range, i, level)
  {
    ChartedTallies(entries, filter, range);
    ShownCounts(entries, filter, range, i, level);
  }

  lemma {:induction false} ShownCounts(entries: seq<LogEntry>, filter: LogEntry -> bool, range: StatsRange, i: int, level: Level)
    requires range.buckets >= 1 && range.bucketMs >= 1 && level != Unlisted
    ensures Count(InColumn(Shown(entries, filter), range, i), level) == CountEntries(entries, filter, range, i, level)
  {
    if entries != [] {
      var init, last := entries[..|entries| - 1], entries[|entries| - 1];
      ShownCounts(init, filter, range, i, level);
      if filter(last) && last.level != Unlisted {
        CountShown(Shown(init, filter), Event(last.level, last.time, last), range, i, level);
      }
    }
  }

  lemma CountShown(events: seq<Event<Level, LogEntry>>, event: Event<Level, LogEntry>, range: StatsRange, i: int, level: Level)
    requires range.buckets >= 1 && range.bucketMs >= 1
    ensures Count(InColumn(events + [event], range, i), level)
            == Count(InColumn(events, range, i), level) + if event.kind == level && BucketIndex(range, event.time) == i then 1 else 0
  {
    Appended(events, event, range, i);
    CountAppend(InColumn(events, range, i), event, level);
  }

  function TalliesSum(columns: seq<map<Level, nat>>, level: Level): nat
    requires forall c | c in columns :: level in c
  {
    if columns == [] then 0 else TalliesSum(columns[..|columns| - 1], level) + columns[|columns| - 1][level]
  }

  lemma {:induction false} SumOfColumns(columns: seq<map<Level, nat>>, events: seq<Event<Level, LogEntry>>, range: StatsRange, level: Level, n: nat)
    requires range.buckets >= 1 && range.bucketMs >= 1 && ColumnsTallied(columns, events, range) && level != Unlisted && n <= |columns|
    requires forall c | c in columns :: level in c
    ensures TalliesSum(columns[..n], level) == ColumnsSum(events, range, level, n)
  {
    if n > 0 {
      SumOfColumns(columns, events, range, level, n - 1);
      assert columns[..n][..n - 1] == columns[..n - 1];
      assert Tallies(columns[n - 1], InColumn(events, range, n - 1));
    }
  }

  // The columns of a histogram add up to its totals, level by level.
  lemma HistogramConserves(columns: seq<map<Level, nat>>, totals: map<Level, nat>, events: seq<Event<Level, LogEntry>>,
                           range: StatsRange, level: Level)
    requires range.buckets >= 1 && range.bucketMs >= 1 && level != Unlisted
    requires ColumnsTallied(columns, events, range) && Tallies(totals, InRange(events, range))
    ensures forall c | c in columns :: level in c
    ensures TalliesSum(columns, level) == totals[level]
  {
    forall c | c in columns ensures level in c {
      var i :| 0 <= i < |columns| && columns[i] == c;
      assert Tallies(columns[i], InColumn(events, range, i));
    }
    SumOfColumns(columns, events, range, level, |columns|);
    assert columns[..|columns|] == columns;
    ColumnsConserve(events, range, level);
  }
}
