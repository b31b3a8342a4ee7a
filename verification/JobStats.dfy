// Statistics over the job history: a time range cut into columns, the runs collected page by page, and counts
// per column, in all and per job.
module JobStats {
  import opened Text
  import opened JobStorage
  import opened Columns
  import JobScheduler

  // --------------------------------------------------------------------- range

  const DEFAULT_STATS_BUCKETS := 24
  const MAX_STATS_BUCKETS := 200
  const DAY_MS := 24 * 60 * 60 * 1000

  function Distance(a: int, b: int): nat {
    if a < b then b - a else a - b
  }

  // The number asked for, when there may be so many columns, and else the nearest there may be.
  function ClampBuckets(value: Option<int>): (r: nat)
    ensures 1 <= r <= MAX_STATS_BUCKETS
    ensures value.None? ==> r == DEFAULT_STATS_BUCKETS
    ensures value.Some? ==> forall m | 1 <= m <= MAX_STATS_BUCKETS && m != r :: Distance(value.value, r) < Distance(value.value, m)
  {
    match value
    case None => DEFAULT_STATS_BUCKETS
    case Some(n) => if n < 1 then 1 else if n > MAX_STATS_BUCKETS then MAX_STATS_BUCKETS else n
  }

  // The range asked for, by default the day before now; an empty one is refused.
  function ResolveStatsRange(since: Option<int>, until: Option<int>, buckets: Option<int>, now: int): (r: Option<StatsRange>)
    ensures r.Some? <==> since.GetOr(until.GetOr(now) - DAY_MS) < until.GetOr(now)
    ensures r.Some? ==> ValidRange(r.value) && r.value.until == until.GetOr(now) && r.value.since == since.GetOr(until.GetOr(now) - DAY_MS)
  {
    var end := until.GetOr(now);
    var begin := since.GetOr(end - DAY_MS);
    if begin >= end then None
    else
      var n := ClampBuckets(buckets);
      Some(StatsRange(begin, end, n, BucketMs(begin, end, n)))
  }

  // ------------------------------------------------------------------ outcomes

  datatype Outcome = Succeeded | Failed | Cancelled | Running

  function RunOutcome(status: string): Outcome {
    var s := Lower(status);
    if s in ["completed", "succeeded"] then Succeeded
    else if s in ["failed", "error", "timed_out", "timedout"] then Failed
    else if s in ["running", "pending"] then Running
    else Cancelled
  }

  // How the scheduler writes the status of an attempt.
  function StatusText(status: JobScheduler.AttemptStatus): string {
    match status
    case Completed => "completed"
    case Failed => "failed"
    case Cancelled => "cancelled"
    case TimedOut => "timed_out"
  }

  // A status as the scheduler writes it, in any case, counts as what the attempt ended as: out of time is a failure.
  lemma AttemptsCountAs(status: JobScheduler.AttemptStatus, text: string)
    requires Lower(text) == StatusText(status)
    ensures RunOutcome(text) == match status
                                case Completed => Succeeded
                                case Failed => Outcome.Failed
                                case Cancelled => Outcome.Cancelled
                                case TimedOut => Outcome.Failed
  {
  }

  // So do the words others write, and a word nobody writes counts as cancelled.
  lemma OtherStatusesCountAs(text: string)
    ensures Lower(text) == "running" || Lower(text) == "pending" ==> RunOutcome(text) == Running
    ensures Lower(text) == "succeeded" ==> RunOutcome(text) == Succeeded
    ensures Lower(text) == "error" || Lower(text) == "timedout" ==> RunOutcome(text) == Outcome.Failed
    ensures Lower(text) !in {"completed", "succeeded", "failed", "error", "timed_out", "timedout", "running", "pending"} ==>
              RunOutcome(text) == Outcome.Cancelled
  {
  }

  datatype RunId = RunId(id: string, jobId: string)

  // A run as the statistics read it: an outcome at its start time.
  type Run = Event<Outcome, RunId>

  type Runs = seq<Run>

  function ReadRun(e: Execution): Run {
    Event(RunOutcome(e.status), e.startedAt, RunId(e.id, e.jobId))
  }

  function RunsOf(es: Executions): (r: Runs)
    ensures |r| == |es| && forall i | 0 <= i < |r| :: r[i] == ReadRun(es[i])
  {
    seq(|es|, i requires 0 <= i < |es| => ReadRun(es[i]))
  }

  ghost predicate Distinct(runs: Runs) {
    forall i, j | 0 <= i < j < |runs| :: runs[i].what.id != runs[j].what.id
  }

  datatype Counts = Counts(succeeded: nat, failed: nat, cancelled: nat, running: nat) {
    function Get(o: Outcome): nat {
      match o
      case Succeeded => succeeded
      case Failed => failed
      case Cancelled => cancelled
      case Running => running
    }

    function Plus(o: Outcome): (r: Counts)
      ensures forall p :: r.Get(p) == Get(p) + if p == o then 1 else 0
    {
      match o
      case Succeeded => this.(succeeded := succeeded + 1)
      case Failed => this.(failed := failed + 1)
      case Cancelled => this.(cancelled := cancelled + 1)
      case Running => this.(running := running + 1)
    }
  }

  const NOTHING := Counts(0, 0, 0, 0)

  function CountOf(runs: Runs): Counts {
    if runs == [] then NOTHING else CountOf(runs[..|runs| - 1]).Plus(runs[|runs| - 1].kind)
  }

  lemma CountOfAppend(runs: Runs, run: Run)
    ensures CountOf(runs + [run]) == CountOf(runs).Plus(run.kind)
  {
    assert (runs + [run])[..|runs|] == runs;
  }

  lemma {:induction false} CountsAre(runs: Runs, o: Outcome)
    ensures CountOf(runs).Get(o) == Count(runs, o)
  {
    if runs != [] {
      CountsAre(runs[..|runs| - 1], o);
    }
  }

  // Each run is counted once, under one outcome.
  lemma {:induction false} CountsAreComplete(runs: Runs)
    ensures var c := CountOf(runs); c.succeeded + c.failed + c.cancelled + c.running == |runs|
  {
    if runs != [] {
      CountsAreComplete(runs[..|runs| - 1]);
    }
  }

  function OfJobIn(runs: Runs, jobId: string): (r: Runs)
    ensures forall run :: run in r <==> run in runs && run.what.jobId == jobId
  {
    if runs == [] then []
    else
      var init, last := runs[..|runs| - 1], runs[|runs| - 1];
      assert runs == init + [last];
      if last.what.jobId == jobId then OfJobIn(init, jobId) + [last] else OfJobIn(init, jobId)
  }

  // ----------------------------------------------------------------- collecting

  const STATS_PAGE_SIZE := 500

  // What a storage answers: a page of what it lists, at most as long as asked for and as it allows.
  method QueryPage(listed: Executions, offset: nat, limit: nat, most: nat) returns (items: Executions, total: nat)
    requires offset <= |listed| && limit >= 1 && most >= 1
    ensures (|items| == 0 <==> offset == |listed|) && offset + |items| <= |listed|
    ensures items == listed[offset..offset + |items|]
    ensures total == |listed|
  {
    return Slice(listed, offset, offset + if most < limit then most else limit), |listed|;
  }

  lemma RunsOfPage(listed: Executions, from: nat, until: nat)
    requires from <= until <= |listed|
    ensures RunsOf(listed[from..until]) == RunsOf(listed)[from..until]
  {
  }

  function SeenIds(listed: Runs, k: nat): set<string>
    requires k <= |listed|
  {
    if k == 0 then {} else SeenIds(listed, k - 1) + {listed[k - 1].what.id}
  }

  // What has been collected once the first `k` runs listed are read.
  function Gathered(listed: Runs, k: nat, range: StatsRange): Runs
    requires k <= |listed|
  {
    if k == 0 then []
    else
      var before, run := Gathered(listed, k - 1, range), listed[k - 1];
      if run.what.id !in SeenIds(listed, k - 1) && range.since <= run.time < range.until then before + [run] else before
  }

  // The runs of a range, each id once, however many pages the storage cuts its list into.
  method CollectRuns(listed: Executions, most: nat, range: StatsRange) returns (runs: Runs)
    requires most >= 1 && range.buckets >= 1 && range.bucketMs >= 1
    ensures runs == InRange(FirstOfEach(RunsOf(listed)), range)
  {
    ghost var all := RunsOf(listed);
    runs := [];
    var seen: set<string> := {};
    var offset: nat := 0;
    while true
      invariant offset <= |listed| && seen == SeenIds(all, offset) && runs == Gathered(all, offset, range)
      decreases |listed| - offset
    {
      var items, total := QueryPage(listed, offset, STATS_PAGE_SIZE, most);
      if |items| == 0 {
        break;
      }
      var page := ReadPage(listed, offset, items);
      seen, runs := CollectPage(all, offset, page, range, seen, runs);
      offset := offset + |items|;
      if offset >= total {
        break;
      }
    }
    AllGathered(all, offset, range, runs);
  }

  method ReadPage(ghost listed: Executions, ghost offset: nat, items: Executions) returns (page: Runs)
    requires offset + |items| <= |listed| && items == listed[offset..offset + |items|]
    ensures page == RunsOf(listed)[offset..offset + |items|]
  {
    RunsOfPage(listed, offset, offset + |items|);
    page := RunsOf(items);
  }

  method CollectPage(ghost all: Runs, ghost offset: nat, items: Runs, range: StatsRange, seen: set<string>, runs: Runs)
    returns (seen': set<string>, runs': Runs)
    requires range.buckets >= 1 && range.bucketMs >= 1
    requires offset + |items| <= |all| && items == all[offset..offset + |items|]
    requires seen == SeenIds(all, offset) && runs == Gathered(all, offset, range)
    ensures seen' == SeenIds(all, offset + |items|) && runs' == Gathered(all, offset + |items|, range)
  {
    seen', runs' := seen, runs;
    for i := 0 to |items|
      invariant seen' == SeenIds(all, offset + i) && runs' == Gathered(all, offset + i, range)
    {
      var run := items[i];
      assert run == all[offset + i];
      if run.what.id in seen' {
        assert seen' + {run.what.id} == seen';
        continue;
      }
      seen' := seen' + {run.what.id};
      if BucketIndex(range, run.time) >= 0 {
        runs' := runs' + [run];
      }
    }
  }

  lemma {:induction false} SeenAreIds(all: Runs, k: nat)
    requires k <= |all|
    ensures SeenIds(all, k) == IdsOf(all[..k])
  {
    if k > 0 {
      SeenAreIds(all, k - 1);
      IdsOneMore(all, k - 1);
    }
  }

  lemma {:induction false} GatheredIsFirst(all: Runs, k: nat, range: StatsRange)
    requires k <= |all|
    ensures Gathered(all, k, range) == InRange(FirstOfEach(all[..k]), range)
  {
    if k > 0 {
      GatheredIsFirst(all, k - 1, range);
      SeenAreIds(all, k - 1);
      FirstOneMore(all, k - 1, range);
    }
  }

  lemma AllGathered(all: Runs, k: nat, range: StatsRange, runs: Runs)
    requires k == |all| && runs == Gathered(all, k, range)
    ensures runs == InRange(FirstOfEach(all), range)
  {
    GatheredIsFirst(all, k, range);
    assert all[..k] == all;
  }

  function IdsOf(runs: Runs): set<string> {
    set e | e in runs :: e.what.id
  }

  // Each run where its id is listed first.
  function FirstOfEach(runs: Runs): Runs {
    if runs == [] then []
    else
      var init, last := runs[..|runs| - 1], runs[|runs| - 1];
      if last.what.id in IdsOf(init) then FirstOfEach(init) else FirstOfEach(init) + [last]
  }

  lemma IdsOneMore(all: Runs, k: nat)
    requires k < |all|
    ensures IdsOf(all[..k + 1]) == IdsOf(all[..k]) + {all[k].what.id}
  {
    assert all[..k + 1] == all[..k] + [all[k]];
  }

  lemma FirstOneMore(all: Runs, k: nat, range: StatsRange)
    requires k < |all|
    ensures var runs := InRange(FirstOfEach(all[..k]), range);
            InRange(FirstOfEach(all[..k + 1]), range)
            == if all[k].what.id !in IdsOf(all[..k]) && range.since <= all[k].time < range.until then runs + [all[k]] else runs
  {
    var init := all[..k];
    assert all[..k + 1][..k] == init;
    if all[k].what.id !in IdsOf(init) {
      var first := FirstOfEach(init);
      assert (first + [all[k]])[..|first|] == first;
    }
  }

  // With distinct ids, nothing in the range is lost.
  lemma {:induction false} NothingRepeated(listed: Runs)
    requires Distinct(listed)
    ensures FirstOfEach(listed) == listed
  {
    if listed != [] {
      var init, last := listed[..|listed| - 1], listed[|listed| - 1];
      NothingRepeated(init);
      assert forall e | e in init :: e.what.id != last.what.id;
      assert listed == init + [last];
    }
  }

  // ------------------------------------------------------------------- the chart

  datatype Summary = Summary(total: nat, counts: Counts, lastFailureAt: Option<int>)

  function LastFailure(runs: Runs): (r: Option<int>)
    ensures r.Some? ==> exists e | e in runs :: e.kind == Failed && e.time == r.value
    ensures forall e | e in runs && e.kind == Failed :: r.Some? && e.time <= r.value
  {
    if runs == [] then None
    else
      var init, last := runs[..|runs| - 1], runs[|runs| - 1];
      assert runs == init + [last];
      var before := LastFailure(init);
      if last.kind == Failed && (before.None? || last.time > before.value) then Some(last.time) else before
  }

  method Summarize(runs: Runs) returns (s: Summary)
    ensures s == Summary(|runs|, CountOf(runs), LastFailure(runs))
  {
    var counts, lastFailure := NOTHING, None;
    for i := 0 to |runs|
      invariant counts == CountOf(runs[..i]) && lastFailure == LastFailure(runs[..i])
    {
      assert runs[..i + 1][..i] == runs[..i];
      var outcome := runs[i].kind;
      counts := counts.Plus(outcome);
      if outcome == Failed && (lastFailure.None? || runs[i].time > lastFailure.value) {
        lastFailure := Some(runs[i].time);
      }
    }
    assert runs[..|runs|] == runs;
    s := Summary(|runs|, counts, lastFailure);
  }

  function JobsIn(runs: Runs): set<string> {
    set e | e in runs :: e.what.jobId
  }

  ghost predicate Grouped(byJob: map<string, Runs>, runs: Runs) {
    byJob.Keys == JobsIn(runs) && forall j | j in byJob :: byJob[j] == OfJobIn(runs, j)
  }

  lemma GroupOneMore(byJob: map<string, Runs>, runs: Runs, run: Run)
    requires Grouped(byJob, runs)
    ensures Grouped(byJob[run.what.jobId := (if run.what.jobId in byJob then byJob[run.what.jobId] else []) + [run]], runs + [run])
  {
    assert (runs + [run])[..|runs|] == runs;
    NoRunsOf(runs, run.what.jobId);
    assert JobsIn(runs + [run]) == JobsIn(runs) + {run.what.jobId};
  }

  lemma {:induction false} NoRunsOf(runs: Runs, jobId: string)
    ensures jobId !in JobsIn(runs) ==> OfJobIn(runs, jobId) == []
  {
    if runs != [] {
      var init, last := runs[..|runs| - 1], runs[|runs| - 1];
      NoRunsOf(init, jobId);
      assert last in runs && forall e | e in init :: e in runs;
    }
  }

  ghost predicate ColumnsCounted(columns: seq<Counts>, runs: Runs, k: nat, range: StatsRange)
    requires k <= |runs| && range.buckets >= 1 && range.bucketMs >= 1
  {
    |columns| == range.buckets && forall i | 0 <= i < |columns| :: columns[i] == CountOf(InColumn(runs[..k], range, i))
  }

  lemma ColumnsCountOne(columns: seq<Counts>, runs: Runs, k: nat, range: StatsRange)
    requires k < |runs| && range.buckets >= 1 && range.bucketMs >= 1 && ColumnsCounted(columns, runs, k, range)
    ensures var index := BucketIndex(range, runs[k].time);
            if index < 0 then ColumnsCounted(columns, runs, k + 1, range)
            else ColumnsCounted(columns[index := columns[index].Plus(runs[k].kind)], runs, k + 1, range)
  {
    forall i | 0 <= i < |columns|
      ensures CountOf(InColumn(runs[..k + 1], range, i))
              == if BucketIndex(range, runs[k].time) == i then columns[i].Plus(runs[k].kind) else columns[i]
    {
      ColumnOneMore(runs, k, range, i);
      CountOfAppend(InColumn(runs[..k], range, i), runs[k]);
    }
  }

  // The counts per column and the runs per job of the runs in the range.
  method BuildJobStats(runs: Runs, range: StatsRange) returns (buckets: array<Counts>, byJob: map<string, Runs>, totals: Summary)
    requires range.buckets >= 1 && range.bucketMs >= 1
    ensures fresh(buckets) && ColumnsCounted(buckets[..], runs, |runs|, range)
    ensures Grouped(byJob, InRange(runs, range))
    ensures totals == Summary(|runs|, CountOf(runs), LastFailure(runs))
  {
    buckets := new Counts[range.buckets](_ => NOTHING);
    byJob := map[];
    for k := 0 to |runs|
      invariant fresh(buckets) && ColumnsCounted(buckets[..], runs, k, range)
      invariant Grouped(byJob, InRange(runs[..k], range))
    {
      RangeOneMore(runs, k, range);
      ColumnsCountOne(buckets[..], runs, k, range);
      var run := runs[k];
      var index := BucketIndex(range, run.time);
      if index >= 0 {
        GroupOneMore(byJob, InRange(runs[..k], range), run);
        ghost var before := buckets[..];
        buckets[index] := buckets[index].Plus(run.kind);
        assert buckets[..] == before[index := before[index].Plus(run.kind)];
        byJob := byJob[run.what.jobId := (if run.what.jobId in byJob then byJob[run.what.jobId] else []) + [run]];
      }
    }
    assert runs[..|runs|] == runs;
    totals := Summarize(runs);
  }

  // ---------------------------------------------------------------- conservation

  function JobsSum(runs: Runs, jobs: seq<string>, o: Outcome): nat {
    if jobs == [] then 0 else JobsSum(runs, jobs[..|jobs| - 1], o) + CountOf(OfJobIn(runs, jobs[|jobs| - 1])).Get(o)
  }

  ghost predicate NoRepeats(jobs: seq<string>) {
    forall i, j | 0 <= i < j < |jobs| :: jobs[i] != jobs[j]
  }

  lemma {:induction false} JobsSumOneMore(runs: Runs, run: Run, jobs: seq<string>, o: Outcome)
    requires NoRepeats(jobs)
    ensures JobsSum(runs + [run], jobs, o)
            == JobsSum(runs, jobs, o) + if run.what.jobId in jobs && run.kind == o then 1 else 0
  {
    if jobs != [] {
      var init, last := jobs[..|jobs| - 1], jobs[|jobs| - 1];
      JobsSumOneMore(runs, run, init, o);
      assert (runs + [run])[..|runs|] == runs;
      CountOfAppend(OfJobIn(runs, last), run);
      assert jobs == init + [last] && last !in init;
    }
  }

  // So do the jobs, listed once each.
  lemma {:induction false} JobsConserve(runs: Runs, jobs: seq<string>, o: Outcome)
    requires NoRepeats(jobs) && forall e | e in runs :: e.what.jobId in jobs
    ensures JobsSum(runs, jobs, o) == CountOf(runs).Get(o)
  {
    if runs == [] {
      NoJobs(jobs, o);
    } else {
      var init, last := runs[..|runs| - 1], runs[|runs| - 1];
      assert runs == init + [last] && last in runs;
      JobsConserve(init, jobs, o);
      JobsSumOneMore(init, last, jobs, o);
    }
  }

  lemma {:induction false} NoJobs(jobs: seq<string>, o: Outcome)
    ensures JobsSum([], jobs, o) == 0
  {
    if jobs != [] {
      NoJobs(jobs[..|jobs| - 1], o);
    }
  }

  lemma {:induction false} AllInRange(runs: Runs, range: StatsRange)
    ensures InRange(runs, range) == runs <==> forall e | e in runs :: range.since <= e.time < range.until
    ensures |InRange(runs, range)| <= |runs|
  {
    if runs != [] {
      var init, last := runs[..|runs| - 1], runs[|runs| - 1];
      AllInRange(init, range);
      assert runs == init + [last] && last in runs;
    }
  }

  // Columns, jobs and totals agree on every outcome exactly when all runs are in the range, as collected runs are.
  lemma StatsAgree(runs: Runs, range: StatsRange, jobs: seq<string>)
    requires range.buckets >= 1 && range.bucketMs >= 1
    requires NoRepeats(jobs) && forall e | e in InRange(runs, range) :: e.what.jobId in jobs
    ensures forall o :: ColumnsSum(runs, range, o, range.buckets) == JobsSum(InRange(runs, range), jobs, o)
    ensures (forall o :: ColumnsSum(runs, range, o, range.buckets) == CountOf(runs).Get(o))
       <==> forall e | e in runs :: range.since <= e.time < range.until
  {
    forall o ensures ColumnsSum(runs, range, o, range.buckets) == CountOf(InRange(runs, range)).Get(o)
             ensures JobsSum(InRange(runs, range), jobs, o) == CountOf(InRange(runs, range)).Get(o) {
      ColumnsConserve(runs, range, o);
      CountsAre(InRange(runs, range), o);
      JobsConserve(InRange(runs, range), jobs, o);
    }
    AllInRange(runs, range);
    CountsAreComplete(runs);
    CountsAreComplete(InRange(runs, range));
    if forall o :: ColumnsSum(runs, range, o, range.buckets) == CountOf(runs).Get(o) {
      SameCounts(CountOf(runs), CountOf(InRange(runs, range)));
      SameLength(runs, range);
    }
  }

  lemma SameCounts(a: Counts, b: Counts)
    requires forall o :: a.Get(o) == b.Get(o)
    ensures a == b
  {
    assert a.Get(Succeeded) == b.Get(Succeeded) && a.Get(Failed) == b.Get(Failed);
    assert a.Get(Cancelled) == b.Get(Cancelled) && a.Get(Running) == b.Get(Running);
  }

  lemma {:induction false} SameLength(runs: Runs, range: StatsRange)
    requires |InRange(runs, range)| == |runs|
    ensures InRange(runs, range) == runs
  {
    if runs != [] {
      AllInRange(runs[..|runs| - 1], range);
      SameLength(runs[..|runs| - 1], range);
    }
  }

  // ------------------------------------------------------------- from the history

  // The statistics of what the storage lists.
  method JobStatistics(listed: Executions, most: nat, range: StatsRange) returns (buckets: array<Counts>, byJob: map<string, Runs>, totals: Summary)
    requires most >= 1 && range.buckets >= 1 && range.bucketMs >= 1
    ensures var runs := InRange(FirstOfEach(RunsOf(listed)), range);
            && ColumnsCounted(buckets[..], runs, |runs|, range)
            && Grouped(byJob, InRange(runs, range))
            && totals == Summary(|runs|, CountOf(runs), LastFailure(runs))
  {
    var runs := CollectRuns(listed, most, range);
    buckets, byJob, totals := BuildJobStats(runs, range);
  }

  // The stored executions of an outcome in the range.
  function Stored(es: Executions, range: StatsRange, o: Outcome): nat {
    if es == [] then 0
    else
      var before, e := Stored(es[..|es| - 1], range, o), es[|es| - 1];
      if RunOutcome(e.status) == o && range.since <= e.startedAt < range.until then before + 1 else before
  }

  lemma {:induction false} StoredInRange(es: Executions, range: StatsRange, o: Outcome)
    ensures Count(InRange(RunsOf(es), range), o) == Stored(es, range, o)
  {
    if es != [] {
      var n := |es| - 1;
      StoredInRange(es[..n], range, o);
      assert RunsOf(es)[..n] == RunsOf(es[..n]);
      CountAppend(InRange(RunsOf(es[..n]), range), ReadRun(es[n]), o);
    }
  }

  // The totals and the columns of the chart count, outcome by outcome, exactly the stored executions of the range.
  lemma HistoryIsCounted(listed: Executions, range: StatsRange, o: Outcome)
    requires range.buckets >= 1 && range.bucketMs >= 1 && Distinct(RunsOf(listed))
    ensures var runs := InRange(FirstOfEach(RunsOf(listed)), range);
            && CountOf(runs).Get(o) == Stored(listed, range, o)
            && ColumnsSum(runs, range, o, range.buckets) == Stored(listed, range, o)
  {
    var runs := InRange(RunsOf(listed), range);
    NothingRepeated(RunsOf(listed));
    StoredInRange(listed, range, o);
    CountsAre(runs, o);
    ColumnsConserve(runs, range, o);
    RangeOfRange(RunsOf(listed), range);
  }

  lemma {:induction false} RangeOfRange(runs: Runs, range: StatsRange)
    ensures InRange(InRange(runs, range), range) == InRange(runs, range)
  {
    if runs != [] {
      var init, last := runs[..|runs| - 1], runs[|runs| - 1];
      RangeOfRange(init, range);
      var before := InRange(init, range);
      assert (before + [last])[..|before|] == before;
    }
  }
}
