// A time range cut into columns, and what falls into each of them.
module Columns {

  datatype StatsRange = StatsRange(since: int, until: int, buckets: nat, bucketMs: nat)

  // The width of `buckets` columns in the time from `since` to `until`.
  function BucketMs(since: int, until: int, buckets: nat): (r: nat)
    requires since < until && buckets >= 1
    ensures r >= 1
  {
    var width := (until - since) / buckets;
    if width < 1 then 1 else width
  }

  ghost predicate ValidRange(range: StatsRange) {
    range.since < range.until && range.buckets >= 1 && range.bucketMs == BucketMs(range.since, range.until, range.buckets)
  }

  // The column a time falls in, or -1 outside the range.
  function BucketIndex(range: StatsRange, time: int): (r: int)
    requires range.buckets >= 1 && range.bucketMs >= 1
    ensures r == -1 <==> time < range.since || time >= range.until
    ensures -1 <= r < range.buckets
  {
    if time < range.since || time >= range.until then -1
    else
      var column := (time - range.since) / range.bucketMs;
      if column > range.buckets - 1 then range.buckets - 1 else column
  }

  lemma QuotientIs(x: nat, d: nat, q: nat)
    requires d >= 1
    ensures x / d == q <==> q * d <= x < (q + 1) * d
  {
    var k := x / d;
    assert x == k * d + x % d;
    if k < q {
      assert (k + 1) * d <= q * d by { MultiplyMonotonic(k + 1, q, d); }
    } else if q < k {
      assert (q + 1) * d <= k * d by { MultiplyMonotonic(q + 1, k, d); }
    }
  }

  lemma MultiplyMonotonic(a: nat, b: nat, d: nat)
    requires a <= b
    ensures a * d <= b * d
  {
    assert b * d == a * d + (b - a) * d;
  }

  // The columns are as wide as so many fit into the range, and a millisecond at least.
  lemma WidestThatFit(since: int, until: int, buckets: nat)
    requires since < until && buckets >= 1
    ensures var w := BucketMs(since, until, buckets);
            && (w == 1 || w * buckets <= until - since)
            && until - since < (w + 1) * buckets
  {
    var x := until - since;
    QuotientIs(x, buckets, x / buckets);
    if x / buckets < 1 { MultiplyMonotonic(1, 2, buckets); }
  }

  // Column `i` covers its slice of the range; only the last one takes what is left over as well.
  lemma ColumnCovers(range: StatsRange, time: int, i: nat)
    requires ValidRange(range) && range.since <= time < range.until && i < range.buckets
    ensures BucketIndex(range, time) == i
       <==> range.since + i * range.bucketMs <= time && (i == range.buckets - 1 || time < range.since + (i + 1) * range.bucketMs)
  {
    var x, d := time - range.since, range.bucketMs;
    QuotientIs(x, d, i);
    QuotientIs(x, d, x / d);
    if i == range.buckets - 1 {
      if x / d >= i { MultiplyMonotonic(i, x / d, d); }
      if x / d < i { MultiplyMonotonic(x / d + 1, i, d); }
    }
  }

  // ------------------------------------------------------------ counting columns

  // Something of a kind that happened at a time.
  datatype Event<+K, +P> = Event(kind: K, time: int, what: P)

  function Count<K(==), P>(events: seq<Event<K, P>>, kind: K): nat {
    if events == [] then 0
    else Count(events[..|events| - 1], kind) + if events[|events| - 1].kind == kind then 1 else 0
  }

  lemma CountAppend<K, P>(events: seq<Event<K, P>>, event: Event<K, P>, kind: K)
    ensures Count(events + [event], kind) == Count(events, kind) + if event.kind == kind then 1 else 0
  {
    assert (events + [event])[..|events|] == events;
  }

  function InColumn<K, P>(events: seq<Event<K, P>>, range: StatsRange, i: int): seq<Event<K, P>>
    requires range.buckets >= 1 && range.bucketMs >= 1
  {
    if events == [] then []
    else
      var init, last := events[..|events| - 1], events[|events| - 1];
      if BucketIndex(range, last.time) == i then InColumn(init, range, i) + [last] else InColumn(init, range, i)
  }

  function InRange<K, P>(events: seq<Event<K, P>>, range: StatsRange): seq<Event<K, P>> {
    if events == [] then []
    else
      var init, last := events[..|events| - 1], events[|events| - 1];
      if range.since <= last.time < range.until then InRange(init, range) + [last] else InRange(init, range)
  }

  lemma RangeOneMore<K, P>(events: seq<Event<K, P>>, k: nat, range: StatsRange)
    requires k < |events|
    ensures InRange(events[..k + 1], range)
            == if range.since <= events[k].time < range.until then InRange(events[..k], range) + [events[k]] else InRange(events[..k], range)
  {
    assert events[..k + 1][..k] == events[..k];
  }

  lemma ColumnOneMore<K, P>(events: seq<Event<K, P>>, k: nat, range: StatsRange, i: int)
    requires k < |events| && range.buckets >= 1 && range.bucketMs >= 1
    ensures InColumn(events[..k + 1], range, i)
            == if BucketIndex(range, events[k].time) == i then InColumn(events[..k], range, i) + [events[k]] else InColumn(events[..k], range, i)
  {
    assert events[..k + 1][..k] == events[..k];
  }

  // What the first `n` columns count of a kind.
  function ColumnsSum<K(==), P>(events: seq<Event<K, P>>, range: StatsRange, kind: K, n: nat): nat
    requires range.buckets >= 1 && range.bucketMs >= 1
  {
    if n == 0 then 0 else ColumnsSum(events, range, kind, n - 1) + Count(InColumn(events, range, n - 1), kind)
  }

  lemma {:induction false} ColumnsSumOneMore<K, P>(events: seq<Event<K, P>>, k: nat, range: StatsRange, kind: K, n: nat)
    requires k < |events| && range.buckets >= 1 && range.bucketMs >= 1
    ensures ColumnsSum(events[..k + 1], range, kind, n)
            == ColumnsSum(events[..k], range, kind, n)
               + if 0 <= BucketIndex(range, events[k].time) < n && events[k].kind == kind then 1 else 0
  {
    if n > 0 {
      ColumnsSumOneMore(events, k, range, kind, n - 1);
      ColumnOneMore(events, k, range, n - 1);
      CountAppend(InColumn(events[..k], range, n - 1), events[k], kind);
    }
  }

  lemma {:induction false} EmptyColumns<K, P>(events: seq<Event<K, P>>, range: StatsRange, kind: K, n: nat)
    requires range.buckets >= 1 && range.bucketMs >= 1 && events == []
    ensures ColumnsSum(events, range, kind, n) == 0
  {
    if n > 0 {
      EmptyColumns(events, range, kind, n - 1);
    }
  }

  lemma {:induction false} ColumnsConserveUpto<K, P>(events: seq<Event<K, P>>, k: nat, range: StatsRange, kind: K)
    requires k <= |events| && range.buckets >= 1 && range.bucketMs >= 1
    ensures ColumnsSum(events[..k], range, kind, range.buckets) == Count(InRange(events[..k], range), kind)
  {
    if k == 0 {
      EmptyColumns(events[..0], range, kind, range.buckets);
    } else {
      ColumnsConserveUpto(events, k - 1, range, kind);
      ColumnsSumOneMore(events, k - 1, range, kind, range.buckets);
      RangeOneMore(events, k - 1, range);
      CountAppend(InRange(events[..k - 1], range), events[k - 1], kind);
    }
  }

  // The columns together count everything in the range once, kind by kind.
  lemma ColumnsConserve<K, P>(events: seq<Event<K, P>>, range: StatsRange, kind: K)
    requires range.buckets >= 1 && range.bucketMs >= 1
    ensures ColumnsSum(events, range, kind, range.buckets) == Count(InRange(events, range), kind)
  {
    ColumnsConserveUpto(events, |events|, range, kind);
    assert events[..|events|] == events;
  }
}
