// The run slots of one job: how requests take them, wait for them and free them, step by step.
// The scheduler's code between two awaits is one step.
module JobScheduler {
  import opened Text

  datatype OverlapPolicy = Skip | Queue | Cancel

  datatype JobStatus = Active | Paused | Stopped

  datatype Options = Options(maxConcurrentRuns: Option<int>, overlapPolicy: Option<OverlapPolicy>, maxRetries: Option<int>)

  datatype AttemptStatus = Completed | Failed | Cancelled | TimedOut

  // Where a run is: its attempt executes, has settled and is being saved, was saved, or a retry delay passes.
  datatype Phase = Executing | Settled(status: AttemptStatus) | Saved(result: AttemptStatus) | Delaying

  datatype Run = Run(id: nat, executionId: Option<nat>, aborted: bool, attempt: nat, phase: Phase)

  datatype Job = Job(options: Options, status: JobStatus, runs: seq<Run>, queued: bool,
                     currentExecutionId: Option<nat>, currentController: Option<nat>, nextId: nat)

  datatype StartState = StateStarted | StateQueued | StateSkipped

  datatype JobErrorCode = AlreadyRunning | NotRunning | AlreadyPaused | NotPaused | InvalidValue

  datatype OptionsUpdate = OptionsUpdate(maxConcurrentRuns: Option<int>, overlapPolicy: Option<OverlapPolicy>, maxRetries: Option<int>)

  function MaxConcurrentRuns(options: Options): int {
    options.maxConcurrentRuns.GetOr(1)
  }

  function Policy(options: Options): OverlapPolicy {
    options.overlapPolicy.GetOr(Skip)
  }

  function MaxRetries(options: Options): int {
    options.maxRetries.GetOr(1)
  }

  predicate Full(j: Job) {
    |j.runs| >= MaxConcurrentRuns(j.options)
  }

  // ------------------------------------------------------------- list of runs

  function IndexOf(runs: seq<Run>, id: nat): (r: Option<nat>)
    ensures r.Some? ==> r.value < |runs| && runs[r.value].id == id
    ensures r.None? ==> forall i | 0 <= i < |runs| :: runs[i].id != id
  {
    if runs == [] then None
    else if runs[0].id == id then Some(0)
    else
      var rest := IndexOf(runs[1..], id);
      if rest.Some? then Some(rest.value + 1) else None
  }

  function Remove(runs: seq<Run>, i: nat): seq<Run>
    requires i < |runs|
  {
    runs[..i] + runs[i + 1..]
  }

  function OldestAlive(runs: seq<Run>): (r: Option<nat>)
    ensures r.Some? ==> r.value < |runs| && !runs[r.value].aborted && forall i | 0 <= i < r.value :: runs[i].aborted
    ensures r.None? ==> forall i | 0 <= i < |runs| :: runs[i].aborted
  {
    if runs == [] then None
    else if !runs[0].aborted then Some(0)
    else
      var rest := OldestAlive(runs[1..]);
      if rest.Some? then Some(rest.value + 1) else None
  }

  function NewestExecuting(runs: seq<Run>): (r: Option<Run>)
    ensures r.Some? ==> r.value in runs && r.value.executionId.Some?
  {
    if runs == [] then None
    else if runs[|runs| - 1].executionId.Some? then Some(runs[|runs| - 1])
    else NewestExecuting(runs[..|runs| - 1])
  }

  function AbortAll(runs: seq<Run>): (r: seq<Run>)
    ensures |r| == |runs| && forall i | 0 <= i < |r| :: r[i] == runs[i].(aborted := true)
  {
    seq(|runs|, i requires 0 <= i < |runs| => runs[i].(aborted := true))
  }

  // ------------------------------------------------------------------ the steps

  function SyncCurrent(j: Job): Job {
    match NewestExecuting(j.runs)
    case None => j.(currentExecutionId := None, currentController := None)
    case Some(run) => j.(currentExecutionId := run.executionId, currentController := Some(run.id))
  }

  // A new run takes a slot and its first attempt begins.
  function NewRun(id: nat): Run {
    Run(id, Some(id + 1), false, 0, Executing)
  }

  function WithNewRun(j: Job): Job {
    SyncCurrent(j.(runs := j.runs + [NewRun(j.nextId)], nextId := j.nextId + 2))
  }

  function Drained(j: Job): Job {
    if j.queued && !Full(j) then WithNewRun(j.(queued := false)) else j
  }

  // A due run: started in a free slot, else by the overlap policy.
  function Requested(j: Job): Job {
    if !Full(j) then WithNewRun(j)
    else match Policy(j.options)
      case Skip => j
      case Queue => j.(queued := true)
      case Cancel =>
        var oldest := OldestAlive(j.runs);
        if j.queued || oldest.None? then j.(queued := true)
        else j.(queued := true, runs := j.runs[oldest.value := j.runs[oldest.value].(aborted := true)])
  }

  // What a request is told: its run started, it waits, or it is refused because the slots are taken.
  function Answer(j: Job): StartState {
    if !Full(j) then StateStarted else if Policy(j.options) == Skip then StateSkipped else StateQueued
  }

  function Ended(j: Job, i: nat): Job
    requires i < |j.runs|
  {
    Drained(SyncCurrent(j.(runs := Remove(j.runs, i))))
  }

  function WithRun(j: Job, i: nat, run: Run): Job
    requires i < |j.runs|
  {
    SyncCurrent(j.(runs := j.runs[i := run]))
  }

  function CancelledAll(j: Job): Job {
    j.(queued := false, runs := AbortAll(j.runs))
  }

  predicate ValidUpdate(u: OptionsUpdate) {
    u.maxConcurrentRuns.Some? ==> u.maxConcurrentRuns.value >= 1
  }

  function Updated(options: Options, u: OptionsUpdate): Options {
    Options(if u.maxConcurrentRuns.Some? then u.maxConcurrentRuns else options.maxConcurrentRuns,
            if u.overlapPolicy.Some? then u.overlapPolicy else options.overlapPolicy,
            if u.maxRetries.Some? then u.maxRetries else options.maxRetries)
  }

  // How an attempt ended: the job threw or not, its time ran out or not, its signal was aborted or not.
  function StatusOf(threw: bool, timedOut: bool, aborted: bool): AttemptStatus {
    if timedOut then TimedOut
    else if aborted then Cancelled
    else if threw then Failed
    else Completed
  }

  predicate Retries(j: Job, run: Run) {
    run.phase == Saved(Failed) && !run.aborted && run.attempt < MaxRetries(j.options)
  }

  function WithSettled(j: Job, i: nat, threw: bool, timedOut: bool): Job
    requires i < |j.runs|
  {
    j.(runs := j.runs[i := j.runs[i].(phase := Settled(StatusOf(threw, timedOut, j.runs[i].aborted)))])
  }

  function WithSaved(j: Job, i: nat): Job
    requires i < |j.runs| && j.runs[i].phase.Settled?
  {
    WithRun(j, i, j.runs[i].(executionId := None, phase := Saved(j.runs[i].phase.status)))
  }

  function WithDecision(j: Job, i: nat): Job
    requires i < |j.runs|
  {
    if Retries(j, j.runs[i]) then j.(runs := j.runs[i := j.runs[i].(phase := Delaying)]) else Ended(j, i)
  }

  function WithNextAttempt(j: Job, i: nat): Job
    requires i < |j.runs|
  {
    WithRun(j.(nextId := j.nextId + 1), i,
            j.runs[i].(executionId := Some(j.nextId), attempt := j.runs[i].attempt + 1, phase := Executing))
  }

  function WithUpdate(j: Job, u: OptionsUpdate): Job {
    if ValidUpdate(u) then Drained(j.(options := Updated(j.options, u))) else j
  }

  // One registered job and its slots, changed in place.
  class JobRegistration {
    var options: Options
    var status: JobStatus
    var runs: seq<Run>
    var queued: bool
    var currentExecutionId: Option<nat>
    var currentController: Option<nat>
    var nextId: nat

    function Snapshot(): Job
      reads this
    {
      Job(options, status, runs, queued, currentExecutionId, currentController, nextId)
    }

    constructor Register(options: Options, enabled: bool)
      ensures Snapshot() == Job(options, if enabled then Active else Stopped, [], false, None, None, 0)
    {
      this.options := options;
      status := if enabled then Active else Stopped;
      runs, queued, currentExecutionId, currentController, nextId := [], false, None, None, 0;
    }

    method Sync()
      modifies this
      ensures Snapshot() == SyncCurrent(old(Snapshot()))
    {
      currentExecutionId, currentController := None, None;
      for i := 0 to |runs|
        invariant runs == old(runs)
        invariant Snapshot() == SyncCurrent(old(Snapshot()).(runs := runs[..i])).(runs := runs)
      {
        assert runs[..i + 1][..i] == runs[..i];
        if runs[i].executionId.Some? {
          currentExecutionId, currentController := runs[i].executionId, Some(runs[i].id);
        }
      }
      assert runs[..|runs|] == runs;
    }

    method StartRun()
      modifies this
      ensures Snapshot() == WithNewRun(old(Snapshot()))
    {
      var id := nextId;
      nextId := nextId + 1;
      runs := runs + [Run(id, None, false, 0, Executing)];
      Sync();
      runs := runs[|runs| - 1 := runs[|runs| - 1].(executionId := Some(nextId))];
      nextId := nextId + 1;
      assert runs == old(runs) + [NewRun(old(nextId))];
      Sync();
    }

    method TryStart() returns (state: StartState)
      modifies this
      ensures Snapshot() == Requested(old(Snapshot()))
      ensures state == Answer(old(Snapshot()))
    {
      if |runs| >= MaxConcurrentRuns(options) {
        var policy := Policy(options);
        if policy == Skip {
          return StateSkipped;
        }
        if policy == Cancel && !queued {
          var oldest := OldestAlive(runs);
          if oldest.Some? {
            runs := runs[oldest.value := runs[oldest.value].(aborted := true)];
          }
        }
        queued := true;
        return StateQueued;
      }
      StartRun();
      return StateStarted;
    }

    method Trigger() returns (r: Result<bool, JobErrorCode>)
      modifies this
      ensures Snapshot() == Requested(old(Snapshot()))
      ensures r == match Answer(old(Snapshot()))
                   case StateStarted => Success(false)
                   case StateQueued => Success(true)
                   case StateSkipped => Failure(AlreadyRunning)
    {
      var state := TryStart();
      if state == StateSkipped {
        return Failure(AlreadyRunning);
      }
      return Success(state == StateQueued);
    }

    // A timer of an active job fires; any other is ignored.
    method TimerFires()
      modifies this
      ensures Snapshot() == if old(status) == Active then Requested(old(Snapshot())) else old(Snapshot())
    {
      if status == Active {
        var _ := TryStart();
      }
    }

    method DrainQueue()
      modifies this
      ensures Snapshot() == Drained(old(Snapshot()))
    {
      if !queued { return; }
      if |runs| >= MaxConcurrentRuns(options) { return; }
      queued := false;
      StartRun();
    }

    // A run is over, however it ended: its slot is free, and a queued run takes it.
    method EndRun(id: nat)
      modifies this
      ensures var i := IndexOf(old(runs), id);
              Snapshot() == if i.Some? then Ended(old(Snapshot()), i.value) else Drained(old(Snapshot()))
    {
      var i := IndexOf(runs, id);
      if i.Some? {
        runs := Remove(runs, i.value);
        Sync();
      }
      DrainQueue();
    }

    method SettleAttempt(i: nat, threw: bool, timedOut: bool)
      requires i < |runs|
      modifies this
      ensures Snapshot() == WithSettled(old(Snapshot()), i, threw, timedOut)
    {
      runs := runs[i := runs[i].(phase := Settled(StatusOf(threw, timedOut, runs[i].aborted)))];
    }

    // The attempt is saved: the run has no execution until its next attempt.
    method SaveAttempt(i: nat)
      requires i < |runs| && runs[i].phase.Settled?
      modifies this
      ensures Snapshot() == WithSaved(old(Snapshot()), i)
    {
      runs := runs[i := runs[i].(executionId := None, phase := Saved(runs[i].phase.status))];
      Sync();
    }

    // After an attempt: the run ends, or waits for its next attempt in the slot it has.
    method Decide(i: nat)
      requires i < |runs| && runs[i].phase.Saved?
      requires IndexOf(runs, runs[i].id) == Some(i)
      modifies this
      ensures Snapshot() == WithDecision(old(Snapshot()), i)
    {
      var run := runs[i];
      if run.phase.result != Failed || run.aborted {
        EndRun(run.id);
        return;
      }
      if run.attempt >= MaxRetries(options) {
        EndRun(run.id);
        return;
      }
      runs := runs[i := run.(phase := Delaying)];
    }

    method NextAttempt(i: nat)
      requires i < |runs|
      modifies this
      ensures Snapshot() == WithNextAttempt(old(Snapshot()), i)
    {
      var run := runs[i];
      runs := runs[i := run.(executionId := Some(nextId), attempt := run.attempt + 1, phase := Executing)];
      nextId := nextId + 1;
      Sync();
    }

    method CancelAll()
      modifies this
      ensures Snapshot() == CancelledAll(old(Snapshot()))
    {
      queued := false;
      for i := 0 to |runs|
        invariant |runs| == |old(runs)|
        invariant forall k | 0 <= k < |runs| :: runs[k] == if k < i then old(runs)[k].(aborted := true) else old(runs)[k]
        invariant Snapshot() == old(Snapshot()).(queued := false, runs := runs)
      {
        runs := runs[i := runs[i].(aborted := true)];
      }
      assert runs == AbortAll(old(runs));
    }

    method CancelCurrent() returns (r: Result<(), JobErrorCode>)
      modifies this
      ensures r == if old(runs) == [] && !old(queued) then Failure(NotRunning) else Success(())
      ensures Snapshot() == CancelledAll(old(Snapshot()))
    {
      if |runs| == 0 && !queued {
        return Failure(NotRunning);
      }
      CancelAll();
      return Success(());
    }

    method StopJob()
      modifies this
      ensures Snapshot() == CancelledAll(old(Snapshot())).(status := Stopped)
    {
      status := Stopped;
      CancelAll();
    }

    method Pause() returns (r: Result<(), JobErrorCode>)
      modifies this
      ensures r == if old(status) == Paused then Failure(AlreadyPaused) else Success(())
      ensures Snapshot() == old(Snapshot()).(status := Paused)
    {
      if status == Paused {
        return Failure(AlreadyPaused);
      }
      status := Paused;
      return Success(());
    }

    method Resume() returns (r: Result<(), JobErrorCode>)
      modifies this
      ensures r == if old(status) == Paused then Success(()) else Failure(NotPaused)
      ensures Snapshot() == if old(status) == Paused then old(Snapshot()).(status := Active) else old(Snapshot())
    {
      if status != Paused {
        return Failure(NotPaused);
      }
      status := Active;
      return Success(());
    }

    method UpdateOptions(u: OptionsUpdate) returns (r: Result<(), JobErrorCode>)
      modifies this
      ensures r == if ValidUpdate(u) then Success(()) else Failure(InvalidValue)
      ensures Snapshot() == WithUpdate(old(Snapshot()), u)
    {
      if u.maxConcurrentRuns.Some? && u.maxConcurrentRuns.value < 1 {
        return Failure(InvalidValue);
      }
      if u.maxRetries.Some? { options := options.(maxRetries := u.maxRetries); }
      if u.overlapPolicy.Some? { options := options.(overlapPolicy := u.overlapPolicy); }
      if u.maxConcurrentRuns.Some? { options := options.(maxConcurrentRuns := u.maxConcurrentRuns); }
      DrainQueue();
      return Success(());
    }
  }

  // ------------------------------------------------------------------ histories

  datatype Event =
    | Trigger
    | TimerFires
    | Settles(id: nat, threw: bool, timedOut: bool)
    | Saves(id: nat)
    | Decides(id: nat)
    | DelayEnds(id: nat)
    | DelayAborted(id: nat)
    | RunFails(id: nat)
    | CancelCurrent
    | StopJob
    | Pause
    | Resume
    | Update(u: OptionsUpdate)

  function PhaseOf(j: Job, id: nat): (r: Option<Phase>)
    ensures r.Some? ==> IndexOf(j.runs, id).Some? && j.runs[IndexOf(j.runs, id).value].phase == r.value
  {
    match IndexOf(j.runs, id)
    case None => None
    case Some(i) => Some(j.runs[i].phase)
  }

  // A run's own steps come in order; everything else can happen at any time. A run fails where it awaits the store.
  // An abort ends a retry delay, so a delay that ends by itself is that of a run not aborted.
  predicate Enabled(j: Job, e: Event) {
    match e
    case Settles(id, _, _) => PhaseOf(j, id) == Some(Executing)
    case Saves(id) => PhaseOf(j, id).Some? && PhaseOf(j, id).value.Settled?
    case Decides(id) => PhaseOf(j, id).Some? && PhaseOf(j, id).value.Saved?
    case DelayEnds(id) => PhaseOf(j, id) == Some(Delaying) && !j.runs[IndexOf(j.runs, id).value].aborted
    case DelayAborted(id) => PhaseOf(j, id) == Some(Delaying) && j.runs[IndexOf(j.runs, id).value].aborted
    case RunFails(id) => PhaseOf(j, id).Some? && (PhaseOf(j, id).value.Executing? || PhaseOf(j, id).value.Settled?)
    case _ => true
  }

  function Step(j: Job, e: Event): Job
    requires Enabled(j, e)
  {
    match e
    case Trigger => Requested(j)
    case TimerFires => if j.status == Active then Requested(j) else j
    case Settles(id, threw, timedOut) => WithSettled(j, IndexOf(j.runs, id).value, threw, timedOut)
    case Saves(id) => WithSaved(j, IndexOf(j.runs, id).value)
    case Decides(id) => WithDecision(j, IndexOf(j.runs, id).value)
    case DelayEnds(id) => WithNextAttempt(j, IndexOf(j.runs, id).value)
    case DelayAborted(id) => Ended(j, IndexOf(j.runs, id).value)
    case RunFails(id) => Ended(j, IndexOf(j.runs, id).value)
    case CancelCurrent => CancelledAll(j)
    case StopJob => CancelledAll(j).(status := Stopped)
    case Pause => j.(status := Paused)
    case Resume => if j.status == Paused then j.(status := Active) else j
    case Update(u) => WithUpdate(j, u)
  }

  ghost predicate StepAt(js: seq<Job>, es: seq<Event>, i: nat)
    requires i < |es| < |js|
  {
    Enabled(js[i], es[i]) && js[i + 1] == Step(js[i], es[i])
  }

  ghost predicate History(js: seq<Job>, es: seq<Event>) {
    |js| == |es| + 1 && forall i: nat | i < |es| :: StepAt(js, es, i)
  }

  predicate Registered(j: Job) {
    j.runs == [] && !j.queued && j.currentExecutionId == None && j.currentController == None && MaxConcurrentRuns(j.options) >= 1
  }

  // ----------------------------------------------------------------- invariants

  ghost predicate UniqueRuns(runs: seq<Run>, nextId: nat) {
    && (forall i | 0 <= i < |runs| :: runs[i].id < nextId)
    && (forall i, k | 0 <= i < k < |runs| :: runs[i].id != runs[k].id)
  }

  ghost predicate PhasesMatch(runs: seq<Run>) {
    forall i | 0 <= i < |runs| :: runs[i].executionId.Some? <==> (runs[i].phase.Executing? || runs[i].phase.Settled?)
  }

  // In particular no wake-up is lost: a run is queued only while every slot is taken.
  ghost predicate Inv(j: Job) {
    && MaxConcurrentRuns(j.options) >= 1
    && (j.queued ==> Full(j))
    && UniqueRuns(j.runs, j.nextId)
    && PhasesMatch(j.runs)
    && SyncCurrent(j) == j
  }

  lemma NewestOfSameExecutions(a: seq<Run>, b: seq<Run>)
    requires |a| == |b|
    requires forall i | 0 <= i < |a| :: a[i].id == b[i].id && a[i].executionId == b[i].executionId
    ensures NewestExecuting(a).Some? <==> NewestExecuting(b).Some?
    ensures NewestExecuting(a).Some? ==>
              && NewestExecuting(a).value.id == NewestExecuting(b).value.id
              && NewestExecuting(a).value.executionId == NewestExecuting(b).value.executionId
  {
  }

  lemma DrainedKeepsInv(j: Job)
    requires Inv(j.(queued := false))
    ensures Inv(Drained(j))
  {
  }

  lemma RequestedKeepsInv(j: Job)
    requires Inv(j)
    ensures Inv(Requested(j))
  {
    var oldest := OldestAlive(j.runs);
    if Full(j) && Policy(j.options) == Cancel && !j.queued && oldest.Some? {
      AbortKeepsInv(j.(queued := true), oldest.value);
    }
  }

  lemma AbortKeepsInv(j: Job, i: nat)
    requires Inv(j) && i < |j.runs|
    ensures Inv(j.(runs := j.runs[i := j.runs[i].(aborted := true)]))
  {
    SameExecutionKeepsInv(j, i, j.runs[i].(aborted := true));
  }

  lemma EndedKeepsInv(j: Job, i: nat)
    requires Inv(j) && i < |j.runs|
    ensures Inv(Ended(j, i))
  {
    DrainedKeepsInv(SyncCurrent(j.(runs := Remove(j.runs, i))));
  }

  lemma WithRunKeepsInv(j: Job, i: nat, run: Run)
    requires Inv(j) && i < |j.runs| && run.id == j.runs[i].id
    requires run.executionId.Some? <==> (run.phase.Executing? || run.phase.Settled?)
    ensures Inv(WithRun(j, i, run))
  {
    var runs := j.runs[i := run];
    assert UniqueRuns(runs, j.nextId) && PhasesMatch(runs);
  }

  lemma SameExecutionKeepsInv(j: Job, i: nat, run: Run)
    requires Inv(j) && i < |j.runs| && run.id == j.runs[i].id && run.executionId == j.runs[i].executionId
    requires run.executionId.Some? <==> (run.phase.Executing? || run.phase.Settled?)
    ensures Inv(j.(runs := j.runs[i := run]))
  {
    var runs := j.runs[i := run];
    assert UniqueRuns(runs, j.nextId) && PhasesMatch(runs);
    NewestOfSameExecutions(j.runs, runs);
  }

  lemma SettledKeepsInv(j: Job, i: nat, threw: bool, timedOut: bool)
    requires Inv(j) && i < |j.runs| && j.runs[i].phase == Executing
    ensures Inv(WithSettled(j, i, threw, timedOut))
  {
    SameExecutionKeepsInv(j, i, j.runs[i].(phase := Settled(StatusOf(threw, timedOut, j.runs[i].aborted))));
  }

  lemma SavedKeepsInv(j: Job, i: nat)
    requires Inv(j) && i < |j.runs| && j.runs[i].phase.Settled?
    ensures Inv(WithSaved(j, i))
  {
    WithRunKeepsInv(j, i, j.runs[i].(executionId := None, phase := Saved(j.runs[i].phase.status)));
  }

  lemma DecisionKeepsInv(j: Job, i: nat)
    requires Inv(j) && i < |j.runs| && j.runs[i].phase.Saved?
    ensures Inv(WithDecision(j, i))
  {
    EndedKeepsInv(j, i);
    SameExecutionKeepsInv(j, i, j.runs[i].(phase := Delaying));
  }

  lemma LaterKeepsInv(j: Job)
    requires Inv(j)
    ensures Inv(j.(nextId := j.nextId + 1))
  {
  }

  lemma NextAttemptKeepsInv(j: Job, i: nat)
    requires Inv(j) && i < |j.runs|
    ensures Inv(WithNextAttempt(j, i))
  {
    LaterKeepsInv(j);
    WithRunKeepsInv(j.(nextId := j.nextId + 1), i,
                    j.runs[i].(executionId := Some(j.nextId), attempt := j.runs[i].attempt + 1, phase := Executing));
  }

  lemma CancelledAllKeepsInv(j: Job)
    requires Inv(j)
    ensures Inv(CancelledAll(j))
  {
    NewestOfSameExecutions(j.runs, AbortAll(j.runs));
  }

  lemma StepKeepsInv(j: Job, e: Event)
    requires Inv(j) && Enabled(j, e)
    ensures Inv(Step(j, e))
  {
    match e
    case Trigger => RequestedKeepsInv(j);
    case TimerFires => RequestedKeepsInv(j);
    case Settles(id, threw, timedOut) => SettledKeepsInv(j, IndexOf(j.runs, id).value, threw, timedOut);
    case Saves(id) => SavedKeepsInv(j, IndexOf(j.runs, id).value);
    case Decides(id) => DecisionKeepsInv(j, IndexOf(j.runs, id).value);
    case DelayEnds(id) => NextAttemptKeepsInv(j, IndexOf(j.runs, id).value);
    case DelayAborted(id) => EndedKeepsInv(j, IndexOf(j.runs, id).value);
    case RunFails(id) => EndedKeepsInv(j, IndexOf(j.runs, id).value);
    case CancelCurrent => CancelledAllKeepsInv(j);
    case StopJob => CancelledAllKeepsInv(j);
    case Update(u) => if ValidUpdate(u) { DrainedKeepsInv(j.(options := Updated(j.options, u))); }
    case Pause =>
    case Resume =>
  }

  lemma {:induction false} InvHolds(js: seq<Job>, es: seq<Event>, n: nat)
    requires History(js, es) && Registered(js[0]) && n < |js|
    ensures Inv(js[n])
  {
    if n > 0 {
      assert StepAt(js, es, n - 1);
      InvHolds(js, es, n - 1);
      StepKeepsInv(js[n - 1], es[n - 1]);
    }
  }

  // ------------------------------------------------------------- slots and requests

  function Ids(runs: seq<Run>): set<nat> {
    set run | run in runs :: run.id
  }

  predicate IsRequest(j: Job, e: Event) {
    e.Trigger? || (e.TimerFires? && j.status == Active)
  }

  // The run whose slot `e` frees: a slot is freed by its own run's end alone.
  function Freed(j: Job, e: Event): set<nat>
    requires Enabled(j, e)
  {
    match e
    case Decides(id) => if Retries(j, j.runs[IndexOf(j.runs, id).value]) then {} else {id}
    case DelayAborted(id) => {id}
    case RunFails(id) => {id}
    case _ => {}
  }

  // When a run starts: a request finds a slot free, or a queued one does once a run ended or the limit was raised.
  predicate Starts(j: Job, e: Event)
    requires Enabled(j, e)
  {
    if IsRequest(j, e) then |j.runs| < MaxConcurrentRuns(j.options)
    else if Freed(j, e) != {} then j.queued && |j.runs| - 1 < MaxConcurrentRuns(j.options)
    else e.Update? && ValidUpdate(e.u) && j.queued && |j.runs| < MaxConcurrentRuns(Updated(j.options, e.u))
  }

  lemma {:induction false} CountIds(runs: seq<Run>, nextId: nat)
    requires UniqueRuns(runs, nextId)
    ensures |Ids(runs)| == |runs|
  {
    if runs != [] {
      var init, last := runs[..|runs| - 1], runs[|runs| - 1];
      CountIds(init, nextId);
      assert runs == init + [last];
      assert last.id !in Ids(init);
      assert Ids(runs) == Ids(init) + {last.id};
    }
  }

  lemma IdsOfRemoved(runs: seq<Run>, i: nat, nextId: nat)
    requires UniqueRuns(runs, nextId) && i < |runs|
    ensures Ids(Remove(runs, i)) == Ids(runs) - {runs[i].id}
  {
    var rest := Remove(runs, i);
    forall id | id in Ids(runs) - {runs[i].id} ensures id in Ids(rest) {
      var k :| 0 <= k < |runs| && runs[k].id == id;
      assert rest[if k < i then k else k - 1] == runs[k];
    }
    forall k | 0 <= k < |rest| ensures rest[k] in runs && rest[k].id != runs[i].id {
      assert rest[k] == runs[if k < i then k else k + 1];
    }
  }

  lemma IdsOfNewRun(j: Job)
    ensures Ids(WithNewRun(j).runs) == Ids(j.runs) + {j.nextId}
  {
    var run := NewRun(j.nextId);
    assert WithNewRun(j).runs == j.runs + [run];
    assert run in j.runs + [run];
  }

  lemma IdsOfUpdated(runs: seq<Run>, after: seq<Run>)
    requires |runs| == |after| && forall i | 0 <= i < |runs| :: runs[i].id == after[i].id
    ensures Ids(runs) == Ids(after)
  {
    forall i | 0 <= i < |runs| ensures runs[i].id in Ids(after) && after[i].id in Ids(runs) {
      assert runs[i] in runs && after[i] in after;
    }
  }

  lemma EndedSlots(j: Job, i: nat)
    requires Inv(j) && i < |j.runs|
    ensures var starts := j.queued && |j.runs| - 1 < MaxConcurrentRuns(j.options);
            && Ids(Ended(j, i).runs) == Ids(j.runs) - {j.runs[i].id} + (if starts then {j.nextId} else {})
            && Ended(j, i).options == j.options
            && |Ended(j, i).runs| == |j.runs| - 1 + if starts then 1 else 0
  {
    IdsOfRemoved(j.runs, i, j.nextId);
    IdsOfNewRun(SyncCurrent(j.(runs := Remove(j.runs, i))).(queued := false));
  }

  lemma RequestedSlots(j: Job)
    ensures Ids(Requested(j).runs) == Ids(j.runs) + if Full(j) then {} else {j.nextId}
    ensures Requested(j).options == j.options
    ensures !Full(j) ==> |Requested(j).runs| == |j.runs| + 1
  {
    if Full(j) {
      IdsOfUpdated(j.runs, Requested(j).runs);
    } else {
      IdsOfNewRun(j);
    }
  }

  lemma UpdatedSlots(j: Job, u: OptionsUpdate)
    ensures var starts := ValidUpdate(u) && j.queued && |j.runs| < MaxConcurrentRuns(Updated(j.options, u));
            && Ids(WithUpdate(j, u).runs) == Ids(j.runs) + (if starts then {j.nextId} else {})
            && (starts ==> |WithUpdate(j, u).runs| == |j.runs| + 1 && WithUpdate(j, u).options == Updated(j.options, u))
  {
    IdsOfNewRun(j.(options := Updated(j.options, u), queued := false));
  }

  // The steps that neither free a slot nor take one.
  predicate Quiet(j: Job, e: Event)
    requires Enabled(j, e)
  {
    Freed(j, e) == {} && !IsRequest(j, e) && !e.Update?
  }

  lemma QuietSlots(j: Job, e: Event)
    requires Enabled(j, e) && Quiet(j, e)
    ensures |Step(j, e).runs| == |j.runs| && forall i | 0 <= i < |j.runs| :: Step(j, e).runs[i].id == j.runs[i].id
    ensures Step(j, e).options == j.options
  {
  }

  // Exactly which runs hold slots after a step.
  lemma StepSlots(j: Job, e: Event)
    requires Inv(j) && Enabled(j, e)
    ensures Ids(Step(j, e).runs) == Ids(j.runs) - Freed(j, e) + if Starts(j, e) then {j.nextId} else {}
    ensures Starts(j, e) ==> |Step(j, e).runs| <= MaxConcurrentRuns(Step(j, e).options)
  {
    if Quiet(j, e) {
      QuietSlots(j, e);
      IdsOfUpdated(j.runs, Step(j, e).runs);
    } else if IsRequest(j, e) {
      RequestedSlots(j);
    } else if e.Update? {
      UpdatedSlots(j, e.u);
    } else {
      EndedSlots(j, IndexOf(j.runs, e.id).value);
    }
  }

  lemma SlotsOwned(j: Job, e: Event)
    requires Inv(j) && Enabled(j, e)
    ensures Freed(j, e) <= Ids(j.runs) && j.nextId !in Ids(j.runs)
  {
    if Freed(j, e) != {} {
      assert j.runs[IndexOf(j.runs, e.id).value] in j.runs;
    }
  }

  // --------------------------------------------------------------------- the limit

  // The highest limit in force up to step `n`.
  function Peak(js: seq<Job>, n: nat): int
    requires n < |js|
  {
    var limit := MaxConcurrentRuns(js[n].options);
    if n == 0 || Peak(js, n - 1) < limit then limit else Peak(js, n - 1)
  }

  lemma FewerUnlessStarted(j: Job, e: Event)
    requires Inv(j) && Enabled(j, e) && !Starts(j, e)
    ensures |Step(j, e).runs| == |j.runs| - |Freed(j, e)|
  {
    var after := Step(j, e);
    StepSlots(j, e);
    SlotsOwned(j, e);
    StepKeepsInv(j, e);
    CountIds(j.runs, j.nextId);
    CountIds(after.runs, after.nextId);
  }

  // Whatever happens, a job never has more runs than the highest limit it ever had.
  lemma {:induction false} NeverAbovePeak(js: seq<Job>, es: seq<Event>, n: nat)
    requires History(js, es) && Registered(js[0]) && n < |js|
    ensures |js[n].runs| <= Peak(js, n)
  {
    if n > 0 {
      assert StepAt(js, es, n - 1);
      NeverAbovePeak(js, es, n - 1);
      InvHolds(js, es, n - 1);
      StepSlots(js[n - 1], es[n - 1]);
      if !Starts(js[n - 1], es[n - 1]) {
        FewerUnlessStarted(js[n - 1], es[n - 1]);
      }
    }
  }

  // With a limit that is never lowered, the limit holds at every moment.
  lemma {:induction false} PeakOfRising(js: seq<Job>, n: nat)
    requires n < |js|
    requires forall i | 0 < i <= n :: MaxConcurrentRuns(js[i - 1].options) <= MaxConcurrentRuns(js[i].options)
    ensures Peak(js, n) == MaxConcurrentRuns(js[n].options)
  {
    if n > 0 {
      PeakOfRising(js, n - 1);
    }
  }

  lemma LimitHolds(js: seq<Job>, es: seq<Event>, n: nat)
    requires History(js, es) && Registered(js[0]) && n < |js|
    requires forall i | 0 < i <= n :: MaxConcurrentRuns(js[i - 1].options) <= MaxConcurrentRuns(js[i].options)
    ensures |js[n].runs| <= MaxConcurrentRuns(js[n].options)
  {
    NeverAbovePeak(js, es, n);
    PeakOfRising(js, n);
  }

  // ------------------------------------------------------------------ conservation

  // What became of the requests and the runs of a history: requests by what they are told, runs by their slots.
  datatype Tally = Tally(requests: int, started: int, skipped: int, merged: int, episodes: int,
                         drained: int, dropped: int, ended: int, policyAborts: int)

  ghost function Gained(j: Job, after: Job): nat {
    |Ids(after.runs) - Ids(j.runs)|
  }

  ghost function Lost(j: Job, after: Job): nat {
    |Ids(j.runs) - Ids(after.runs)|
  }

  function AbortedIds(runs: seq<Run>): set<nat> {
    set run | run in runs && run.aborted :: run.id
  }

  ghost function Tallied(t: Tally, j: Job, e: Event, after: Job): Tally {
    var gained := Gained(j, after);
    var t := t.(ended := t.ended + Lost(j, after));
    if IsRequest(j, e) then
      var t := t.(requests := t.requests + 1, started := t.started + gained,
                  policyAborts := t.policyAborts + |AbortedIds(after.runs) - AbortedIds(j.runs)|);
      match Answer(j)
      case StateStarted => t
      case StateSkipped => t.(skipped := t.skipped + 1)
      case StateQueued => if j.queued then t.(merged := t.merged + 1) else t.(episodes := t.episodes + 1)
    else
      var t := t.(drained := t.drained + gained);
      if j.queued && !after.queued && gained == 0 then t.(dropped := t.dropped + 1) else t
  }

  ghost function TallyOf(js: seq<Job>, es: seq<Event>, n: nat): Tally
    requires |js| == |es| + 1 && n < |js|
  {
    if n == 0 then Tally(0, 0, 0, 0, 0, 0, 0, 0, 0)
    else Tallied(TallyOf(js, es, n - 1), js[n - 1], es[n - 1], js[n])
  }

  lemma EndedQueue(j: Job, i: nat)
    requires i < |j.runs|
    ensures Ended(j, i).queued <==> j.queued && |j.runs| - 1 >= MaxConcurrentRuns(j.options)
  {
    var after := SyncCurrent(j.(runs := Remove(j.runs, i)));
    assert |after.runs| == |j.runs| - 1 && after.queued == j.queued && after.options == j.options;
  }

  lemma QuietQueue(j: Job, e: Event)
    requires Enabled(j, e) && Quiet(j, e)
    ensures Step(j, e).queued <==> j.queued && !e.CancelCurrent? && !e.StopJob?
  {
  }

  lemma FreeingQueue(j: Job, e: Event)
    requires Inv(j) && Enabled(j, e) && Freed(j, e) != {}
    ensures Step(j, e).queued <==> j.queued && !Starts(j, e)
  {
    EndedQueue(j, IndexOf(j.runs, e.id).value);
  }

  // How a step moves the queue: who starts, who waits, and who is cut off.
  lemma StepQueue(j: Job, e: Event)
    requires Inv(j) && Enabled(j, e)
    ensures var after := Step(j, e);
            && (IsRequest(j, e) ==> (after.queued <==> j.queued || (Full(j) && Policy(j.options) != Skip)))
            && (!IsRequest(j, e) ==> (after.queued <==> j.queued && !Starts(j, e) && !e.CancelCurrent? && !e.StopJob?))
  {
    if Quiet(j, e) {
      QuietQueue(j, e);
    } else if Freed(j, e) != {} {
      FreeingQueue(j, e);
    }
  }

  lemma AbortedIdsOfUpdate(runs: seq<Run>, i: nat)
    requires i < |runs|
    ensures AbortedIds(runs[i := runs[i].(aborted := true)]) == AbortedIds(runs) + {runs[i].id}
  {
    var after := runs[i := runs[i].(aborted := true)];
    forall id | id in AbortedIds(after) ensures id in AbortedIds(runs) + {runs[i].id} {
      var k :| 0 <= k < |after| && after[k].aborted && after[k].id == id;
      assert runs[k] in runs;
    }
    forall id | id in AbortedIds(runs) + {runs[i].id} ensures id in AbortedIds(after) {
      if id == runs[i].id {
        assert after[i] in after;
      } else {
        var k :| 0 <= k < |runs| && runs[k].aborted && runs[k].id == id;
        assert after[k] in after;
      }
    }
  }

  lemma AbortedIdsOfNewRun(j: Job)
    ensures AbortedIds(WithNewRun(j).runs) == AbortedIds(j.runs)
  {
    var run := NewRun(j.nextId);
    assert forall r :: r in WithNewRun(j).runs <==> r in j.runs || r == run;
  }

  // A request cancels at most one run, the oldest not cancelled yet, and only when it begins a queued episode.
  lemma RequestAborts(j: Job, e: Event)
    requires Inv(j) && Enabled(j, e) && IsRequest(j, e)
    ensures var oldest := OldestAlive(j.runs);
            if Full(j) && Policy(j.options) == Cancel && !j.queued && oldest.Some?
            then AbortedIds(Step(j, e).runs) == AbortedIds(j.runs) + {j.runs[oldest.value].id} && Step(j, e).queued
            else AbortedIds(Step(j, e).runs) == AbortedIds(j.runs)
  {
    var oldest := OldestAlive(j.runs);
    if !Full(j) {
      AbortedIdsOfNewRun(j);
    } else if Policy(j.options) == Cancel && !j.queued && oldest.Some? {
      AbortedIdsOfUpdate(j.runs, oldest.value);
    }
  }

  lemma AtMostOneMore(s: set<nat>, x: nat)
    ensures |s + {x} - s| <= 1 && |s - s| == 0
  {
    assert s - s == {};
    if x in s { assert s + {x} - s == {}; } else { assert s + {x} - s == {x}; }
  }

  ghost predicate Balanced(t: Tally, j: Job) {
    && t.requests == t.started + t.skipped + t.merged + t.episodes
    && t.episodes == t.drained + t.dropped + (if j.queued then 1 else 0)
    && t.started + t.drained == |j.runs| + t.ended
    && t.policyAborts <= t.episodes
  }

  lemma StepBalances(t: Tally, j: Job, e: Event)
    requires Inv(j) && Enabled(j, e) && Balanced(t, j)
    ensures Balanced(Tallied(t, j, e, Step(j, e)), Step(j, e))
  {
    StepQueue(j, e);
    StepCounts(j, e);
    if IsRequest(j, e) { AbortsAtMostOne(j, e); }
  }

  // Every request starts its run, is refused (even while one is queued), joins the one queued, or becomes the one
  // queued; every queued one is started once, dropped by a cancel, or still queued; every run started has ended or
  // holds its slot.
  lemma {:induction false} RequestsAreConserved(js: seq<Job>, es: seq<Event>, n: nat)
    requires History(js, es) && Registered(js[0]) && n < |js|
    ensures var t := TallyOf(js, es, n);
            && t.requests == t.started + t.skipped + t.merged + t.episodes
            && t.episodes == t.drained + t.dropped + (if js[n].queued then 1 else 0)
            && t.started + t.drained == |js[n].runs| + t.ended
            && t.policyAborts <= t.episodes
  {
    if n > 0 {
      RequestsAreConserved(js, es, n - 1);
      assert StepAt(js, es, n - 1);
      InvHolds(js, es, n - 1);
      StepBalances(TallyOf(js, es, n - 1), js[n - 1], es[n - 1]);
    }
  }

  lemma AbortsAtMostOne(j: Job, e: Event)
    requires Inv(j) && Enabled(j, e) && IsRequest(j, e)
    ensures |AbortedIds(Step(j, e).runs) - AbortedIds(j.runs)| <= (if Answer(j) == StateQueued && !j.queued then 1 else 0)
  {
    RequestAborts(j, e);
    var oldest := OldestAlive(j.runs);
    AtMostOneMore(AbortedIds(j.runs), if oldest.Some? then j.runs[oldest.value].id else 0);
  }

  lemma StepCounts(j: Job, e: Event)
    requires Inv(j) && Enabled(j, e)
    ensures Gained(j, Step(j, e)) == if Starts(j, e) then 1 else 0
    ensures Lost(j, Step(j, e)) == |Freed(j, e)|
    ensures |Step(j, e).runs| == |j.runs| + Gained(j, Step(j, e)) - Lost(j, Step(j, e))
  {
    var after := Step(j, e);
    StepSlots(j, e);
    SlotsOwned(j, e);
    StepKeepsInv(j, e);
    CountIds(j.runs, j.nextId);
    CountIds(after.runs, after.nextId);
    CountSwap(Ids(j.runs), Freed(j, e), if Starts(j, e) then {j.nextId} else {}, Ids(after.runs));
  }

  lemma CountSwap(before: set<nat>, freed: set<nat>, added: set<nat>, after: set<nat>)
    requires freed <= before && added !! before && after == before - freed + added
    ensures |after - before| == |added| && |before - after| == |freed| && |after| == |before| - |freed| + |added|
  {
    assert after - before == added;
    assert before - after == freed;
    assert |before - freed + added| == |before - freed| + |added|;
  }

  // ----------------------------------------------------------------- how long to wait

  // Runs that ended in the steps from `from` to `until`.
  ghost function EndedBetween(js: seq<Job>, from: nat, until: nat): nat
    requires from <= until < |js|
  {
    if from == until then 0 else EndedBetween(js, from, until - 1) + Lost(js[until - 1], js[until])
  }

  ghost predicate StaysQueued(js: seq<Job>, from: nat, until: nat) {
    && from <= until < |js|
    && forall i | from <= i <= until :: js[i].queued && MaxConcurrentRuns(js[i].options) == MaxConcurrentRuns(js[from].options)
  }

  // A queued run waits for no more run ends than free a slot under the limit: while it is still queued,
  // with the limit as it is, at most `runs - limit` runs have ended.
  lemma QueuedWaitIsBounded(js: seq<Job>, es: seq<Event>, from: nat, until: nat)
    requires History(js, es) && Registered(js[0]) && StaysQueued(js, from, until)
    ensures EndedBetween(js, from, until) <= |js[from].runs| - MaxConcurrentRuns(js[from].options)
  {
    EndsWhileQueued(js, es, from, until);
    InvHolds(js, es, until);
  }

  lemma {:induction false} EndsWhileQueued(js: seq<Job>, es: seq<Event>, from: nat, until: nat)
    requires History(js, es) && Registered(js[0]) && StaysQueued(js, from, until)
    ensures |js[until].runs| == |js[from].runs| - EndedBetween(js, from, until)
    decreases until
  {
    if from < until {
      var last := until - 1;
      assert js[last].queued && js[until].queued && StaysQueued(js, from, last);
      EndsWhileQueued(js, es, from, last);
      QueuedStep(js, es, last);
    }
  }

  lemma QueuedStep(js: seq<Job>, es: seq<Event>, n: nat)
    requires History(js, es) && Registered(js[0]) && n < |es| && js[n].queued && js[n + 1].queued
    ensures |js[n + 1].runs| == |js[n].runs| - Lost(js[n], js[n + 1])
  {
    assert StepAt(js, es, n);
    InvHolds(js, es, n);
    StillQueued(js[n], es[n]);
  }

  lemma StillQueued(j: Job, e: Event)
    requires Inv(j) && Enabled(j, e) && j.queued && Step(j, e).queued
    ensures |Step(j, e).runs| == |j.runs| - Lost(j, Step(j, e))
  {
    StepQueue(j, e);
    StepCounts(j, e);
  }

  // ------------------------------------------------------------- what a step does

  // The run of that id, while it holds a slot.
  function RunOf(j: Job, id: nat): (r: Option<Run>)
    ensures r.Some? ==> r.value in j.runs && r.value.id == id
    ensures r.None? ==> forall run | run in j.runs :: run.id != id
  {
    match IndexOf(j.runs, id)
    case None => None
    case Some(i) => Some(j.runs[i])
  }

  // Steps of one run's own.
  predicate OwnRun(e: Event) {
    e.Settles? || e.Saves? || e.Decides? || e.DelayEnds? || e.DelayAborted? || e.RunFails?
  }

  lemma RunOfUpdated(j: Job, i: nat, run: Run, after: Job, id: nat)
    requires UniqueRuns(j.runs, j.nextId) && i < |j.runs| && run.id == j.runs[i].id && after.runs == j.runs[i := run]
    ensures RunOf(after, id) == if id == run.id then Some(run) else RunOf(j, id)
  {
    var k := IndexOf(j.runs, id);
    if id == run.id {
      assert after.runs[i].id == id;
    } else if k.Some? {
      assert after.runs[k.value] == j.runs[k.value];
    }
  }

  lemma RunOfRemoved(j: Job, i: nat, after: Job, id: nat)
    requires UniqueRuns(j.runs, j.nextId) && i < |j.runs| && after.runs == Remove(j.runs, i)
    ensures RunOf(after, id) == if id == j.runs[i].id then None else RunOf(j, id)
  {
    var k, n := IndexOf(j.runs, id), IndexOf(after.runs, id);
    if n.Some? {
      assert after.runs[n.value] == j.runs[if n.value < i then n.value else n.value + 1];
    }
    if k.Some? && k.value != i {
      assert after.runs[if k.value < i then k.value else k.value - 1] == j.runs[k.value];
    }
  }

  lemma RunOfAdded(j: Job, run: Run, after: Job, id: nat)
    requires UniqueRuns(j.runs, j.nextId) && run.id >= j.nextId && after.runs == j.runs + [run]
    ensures RunOf(after, id) == if id == run.id then Some(run) else RunOf(j, id)
  {
    var n := IndexOf(after.runs, id);
    assert after.runs[|j.runs|] == run;
    forall m | 0 <= m < |j.runs| ensures after.runs[m] == j.runs[m] {
    }
  }

  lemma DrainedRun(j: Job, id: nat)
    requires UniqueRuns(j.runs, j.nextId)
    ensures RunOf(Drained(j), id) ==
            if j.queued && !Full(j) && id == j.nextId then Some(NewRun(id)) else RunOf(j, id)
  {
    RunOfAdded(j, NewRun(j.nextId), WithNewRun(j), id);
  }

  lemma EndedRun(j: Job, i: nat, id: nat)
    requires Inv(j) && i < |j.runs|
    ensures RunOf(Ended(j, i), id) ==
            if id == j.runs[i].id then None
            else if j.queued && |j.runs| - 1 < MaxConcurrentRuns(j.options) && id == j.nextId
            then Some(NewRun(id))
            else RunOf(j, id)
  {
    var freed := SyncCurrent(j.(runs := Remove(j.runs, i)));
    RunOfRemoved(j, i, freed, id);
    DrainedRun(freed, id);
  }

  // What a step of its own does to a run: how its attempt settles, that saving it leaves it without an execution,
  // whether it waits for a retry or ends, and that a retry is a new execution in the same slot.
  lemma OwnStep(j: Job, e: Event)
    requires Inv(j) && Enabled(j, e) && OwnRun(e)
    ensures RunOf(j, e.id).Some?
    ensures var run, r, after := RunOf(j, e.id).value, RunOf(Step(j, e), e.id), Step(j, e);
            match e
            case Settles(_, threw, timedOut) =>
              && r.Some? && r.value == run.(phase := r.value.phase)
              && (timedOut ==> r.value.phase == Settled(TimedOut))
              && (!timedOut && run.aborted ==> r.value.phase == Settled(Cancelled))
              && (!timedOut && !run.aborted ==> r.value.phase == Settled(if threw then Failed else Completed))
            case Saves(_) => r == Some(run.(executionId := None, phase := Saved(run.phase.status)))
            case Decides(_) =>
              if run.phase == Saved(Failed) && !run.aborted && run.attempt < MaxRetries(j.options)
              then r == Some(run.(phase := Delaying))
              else r == None
            case DelayEnds(_) =>
              && r.Some? && r.value == run.(phase := Executing, attempt := run.attempt + 1, executionId := r.value.executionId)
              && r.value.executionId.Some? && j.nextId <= r.value.executionId.value < after.nextId
            case _ => r == None
  {
    OwnRunAfter(j, e);
  }

  lemma OwnRunAfter(j: Job, e: Event)
    requires Inv(j) && Enabled(j, e) && OwnRun(e)
    ensures var i := IndexOf(j.runs, e.id).value;
            && RunOf(j, e.id) == Some(j.runs[i])
            && (if Freed(j, e) != {} then RunOf(Step(j, e), e.id) == None
                else i < |Step(j, e).runs| && RunOf(Step(j, e), e.id) == Some(Step(j, e).runs[i]))
  {
    var i, after := IndexOf(j.runs, e.id).value, Step(j, e);
    OwnStepIs(j, e);
    if Freed(j, e) != {} {
      EndedRun(j, i, e.id);
    } else {
      RunOfUpdated(j, i, after.runs[i], after, e.id);
    }
  }

  predicate CancelsAll(e: Event) {
    e.CancelCurrent? || e.StopJob?
  }

  // A cancel and a stop tell every run to abort, and nothing else: each keeps its slot, its execution and its phase.
  lemma CancelReachesAll(j: Job, e: Event)
    requires CancelsAll(e)
    ensures var after := Step(j, e);
            && !after.queued && |after.runs| == |j.runs|
            && forall i | 0 <= i < |j.runs| :: after.runs[i].aborted && after.runs[i] == j.runs[i].(aborted := true)
  {
  }

  lemma CancelledRun(j: Job, e: Event, id: nat)
    requires Inv(j) && CancelsAll(e)
    ensures var r, after := RunOf(j, id), RunOf(Step(j, e), id);
            if r.Some? then after == Some(r.value.(aborted := true)) else after == None
  {
    CancelReachesAll(j, e);
    var i, k := IndexOf(j.runs, id), IndexOf(Step(j, e).runs, id);
    if i.Some? { assert Step(j, e).runs[i.value].id == id; }
  }

  // A step of anything else leaves a run as it is, but for an abort; and a run may be new.
  ghost predicate Elsewhere(j: Job, after: Job, id: nat, mayAbort: bool) {
    match RunOf(j, id)
    case Some(r) =>
      var now := RunOf(after, id);
      now.Some? && (now.value == r || (mayAbort && now.value == r.(aborted := true)))
    case None => RunOf(after, id) == None || (id == j.nextId && after.nextId == id + 2 && RunOf(after, id) == Some(NewRun(id)))
  }

  lemma RequestedElsewhere(j: Job, id: nat)
    requires Inv(j)
    ensures Elsewhere(j, Requested(j), id, true)
  {
    var oldest := OldestAlive(j.runs);
    if !Full(j) {
      RunOfAdded(j, NewRun(j.nextId), Requested(j), id);
    } else if Policy(j.options) == Cancel && !j.queued && oldest.Some? {
      RunOfUpdated(j, oldest.value, j.runs[oldest.value].(aborted := true), Requested(j), id);
    }
  }

  lemma EndedElsewhere(j: Job, i: nat, id: nat)
    requires Inv(j) && i < |j.runs| && j.runs[i].id != id
    ensures Elsewhere(j, Ended(j, i), id, false)
  {
    EndedRun(j, i, id);
    assert id == j.nextId ==> RunOf(j, id) == None;
  }

  lemma StayingElsewhere(j: Job, i: nat, run: Run, after: Job, id: nat)
    requires Inv(j) && i < |j.runs| && j.runs[i].id == run.id != id && after.runs == j.runs[i := run]
    ensures Elsewhere(j, after, id, false)
  {
    RunOfUpdated(j, i, run, after, id);
  }

  // A run's own step leaves a slot, or changes its run alone.
  lemma OwnStepIs(j: Job, e: Event)
    requires Enabled(j, e) && OwnRun(e)
    ensures var i, after := IndexOf(j.runs, e.id).value, Step(j, e);
            if Freed(j, e) != {} then after == Ended(j, i)
            else |after.runs| == |j.runs| && after.runs[i].id == e.id && after.runs == j.runs[i := after.runs[i]]
  {
  }

  lemma OwnElsewhere(j: Job, e: Event, id: nat)
    requires Inv(j) && Enabled(j, e) && OwnRun(e) && e.id != id
    ensures Elsewhere(j, Step(j, e), id, false)
  {
    var i, after := IndexOf(j.runs, e.id).value, Step(j, e);
    OwnStepIs(j, e);
    if Freed(j, e) != {} {
      EndedElsewhere(j, i, id);
    } else {
      StayingElsewhere(j, i, after.runs[i], after, id);
    }
  }

  lemma OtherRuns(j: Job, e: Event, id: nat)
    requires Inv(j) && Enabled(j, e) && !(OwnRun(e) && e.id == id)
    ensures Elsewhere(j, Step(j, e), id, CancelsAll(e) || IsRequest(j, e))
  {
    if OwnRun(e) {
      OwnElsewhere(j, e, id);
    } else if CancelsAll(e) {
      CancelledRun(j, e, id);
    } else if IsRequest(j, e) {
      RequestedElsewhere(j, id);
    } else if e.Update? {
      DrainedRun(j.(options := Updated(j.options, e.u)), id);
    }
  }

  // A run that takes a slot is new: its own attempt executes, it is not aborted, and its ids nobody had before.
  lemma NewRuns(j: Job, e: Event, id: nat)
    requires Inv(j) && Enabled(j, e) && RunOf(j, id) == None && RunOf(Step(j, e), id).Some?
    ensures var run, after := RunOf(Step(j, e), id).value, Step(j, e);
            && run.phase == Executing && !run.aborted && run.attempt == 0
            && j.nextId <= id < after.nextId
            && run.executionId.Some? && j.nextId <= run.executionId.value < after.nextId && run.executionId.value != id
  {
    if OwnRun(e) && e.id == id { OwnStep(j, e); } else { OtherRuns(j, e, id); }
  }

  // What a step does to the status.
  lemma StepStatus(j: Job, e: Event)
    requires Enabled(j, e)
    ensures Step(j, e).status == (if e.StopJob? then Stopped
                                  else if e.Pause? then Paused
                                  else if e.Resume? && j.status == Paused then Active
                                  else j.status)
  {
  }

  // And to the options: each one given changes, unless the limit given is none.
  lemma StepOptions(j: Job, e: Event)
    requires Enabled(j, e)
    ensures var before, after := j.options, Step(j, e).options;
            if e.Update? && (e.u.maxConcurrentRuns.Some? ==> e.u.maxConcurrentRuns.value >= 1) then
              && (if e.u.maxConcurrentRuns.Some? then after.maxConcurrentRuns == e.u.maxConcurrentRuns else after.maxConcurrentRuns == before.maxConcurrentRuns)
              && (if e.u.overlapPolicy.Some? then after.overlapPolicy == e.u.overlapPolicy else after.overlapPolicy == before.overlapPolicy)
              && (if e.u.maxRetries.Some? then after.maxRetries == e.u.maxRetries else after.maxRetries == before.maxRetries)
            else
              after == before
  {
  }

  // ------------------------------------------------------------------------ retries

  // How often a run was retried in the first `n` steps: each retry begins when its delay ends.
  function Retried(es: seq<Event>, n: nat, id: nat): nat
    requires n <= |es|
  {
    if n == 0 then 0 else Retried(es, n - 1, id) + if es[n - 1] == DelayEnds(id) then 1 else 0
  }

  lemma NextIdGrows(j: Job, e: Event)
    requires Enabled(j, e)
    ensures Step(j, e).nextId >= j.nextId
  {
  }

  // A run counts its retries, and nobody was retried before having an id.
  lemma {:induction false} AttemptsAreRetries(js: seq<Job>, es: seq<Event>, n: nat, id: nat)
    requires History(js, es) && Registered(js[0]) && n < |js|
    ensures RunOf(js[n], id).Some? ==> RunOf(js[n], id).value.attempt == Retried(es, n, id)
    ensures id >= js[n].nextId ==> Retried(es, n, id) == 0
  {
    if n > 0 {
      assert StepAt(js, es, n - 1);
      var j, e := js[n - 1], es[n - 1];
      AttemptsAreRetries(js, es, n - 1, id);
      InvHolds(js, es, n - 1);
      NextIdGrows(j, e);
      if OwnRun(e) && e.id == id { OwnStep(j, e); } else { OtherRuns(j, e, id); }
    }
  }

  lemma StepRetries(j: Job, e: Event, id: nat, before: nat, bound: nat)
    requires Inv(j) && Enabled(j, e) && MaxRetries(j.options) <= bound && before <= bound
    requires RunOf(j, id).Some? ==> RunOf(j, id).value.attempt == before && (RunOf(j, id).value.phase == Delaying ==> before < bound)
    ensures var now := before + if e == DelayEnds(id) then 1 else 0;
            now <= bound && (RunOf(Step(j, e), id).Some? && RunOf(Step(j, e), id).value.phase == Delaying ==> now < bound)
  {
    if OwnRun(e) && e.id == id { OwnStep(j, e); } else { OtherRuns(j, e, id); }
  }

  // No run is ever retried more often than the highest number of retries allowed so far.
  lemma {:induction false} RetriesAreBounded(js: seq<Job>, es: seq<Event>, n: nat, id: nat, bound: nat)
    requires History(js, es) && Registered(js[0]) && n < |js|
    requires forall i | 0 <= i <= n :: MaxRetries(js[i].options) <= bound
    ensures Retried(es, n, id) <= bound
    ensures RunOf(js[n], id).Some? && RunOf(js[n], id).value.phase == Delaying ==> Retried(es, n, id) < bound
  {
    if n > 0 {
      RetriesAreBounded(js, es, n - 1, id, bound);
      AttemptsAreRetries(js, es, n - 1, id);
      InvHolds(js, es, n - 1);
      assert StepAt(js, es, n - 1) && MaxRetries(js[n - 1].options) <= bound;
      StepRetries(js[n - 1], es[n - 1], id, Retried(es, n - 1, id), bound);
    }
  }

  // After an attempt a run waits in its slot for a retry exactly when the attempt failed, the run is not aborted
  // and it was retried less often than allowed now; otherwise it ends.
  lemma RetriesAreMade(js: seq<Job>, es: seq<Event>, n: nat)
    requires History(js, es) && Registered(js[0]) && n < |es| && es[n].Decides?
    ensures var id := es[n].id;
            && RunOf(js[n], id).Some? && RunOf(js[n], id).value.phase.Saved?
            && var run := RunOf(js[n], id).value;
               RunOf(js[n + 1], id) == if run.phase.result == Failed && !run.aborted && Retried(es, n, id) < MaxRetries(js[n].options)
                                       then Some(run.(phase := Delaying)) else None
  {
    assert StepAt(js, es, n);
    InvHolds(js, es, n);
    AttemptsAreRetries(js, es, n, es[n].id);
    OwnStep(js[n], es[n]);
  }

  // ------------------------------------------------------------------------ cancels

  // Once told to abort, a run stays so; once gone, it does not come back.
  lemma {:induction false} AbortStays(js: seq<Job>, es: seq<Event>, from: nat, n: nat, id: nat)
    requires History(js, es) && Registered(js[0]) && from <= n < |js|
    requires id < js[from].nextId && (RunOf(js[from], id).Some? ==> RunOf(js[from], id).value.aborted)
    ensures id < js[n].nextId && (RunOf(js[n], id).Some? ==> RunOf(js[n], id).value.aborted)
    decreases n
  {
    if from < n {
      AbortStays(js, es, from, n - 1, id);
      AbortSurvivesAt(js, es, n - 1, id);
    }
  }

  lemma AbortSurvivesAt(js: seq<Job>, es: seq<Event>, n: nat, id: nat)
    requires History(js, es) && Registered(js[0]) && n < |es|
    requires id < js[n].nextId && (RunOf(js[n], id).Some? ==> RunOf(js[n], id).value.aborted)
    ensures id < js[n + 1].nextId && (RunOf(js[n + 1], id).Some? ==> RunOf(js[n + 1], id).value.aborted)
  {
    assert StepAt(js, es, n);
    InvHolds(js, es, n);
    AbortSurvives(js[n], es[n], id);
  }

  lemma AbortSurvives(j: Job, e: Event, id: nat)
    requires Inv(j) && Enabled(j, e) && id < j.nextId && (RunOf(j, id).Some? ==> RunOf(j, id).value.aborted)
    ensures id < Step(j, e).nextId && (RunOf(Step(j, e), id).Some? ==> RunOf(Step(j, e), id).value.aborted)
  {
    NextIdGrows(j, e);
    if OwnRun(e) && e.id == id { OwnStep(j, e); } else { OtherRuns(j, e, id); }
  }

  // Once a cancel or a stop has come, every run that held a slot then settles as cancelled, or as timed out when its
  // time ran out, starts no further attempt, and ends at its next decision.
  lemma CancelIsFinal(js: seq<Job>, es: seq<Event>, from: nat, n: nat, id: nat)
    requires History(js, es) && Registered(js[0]) && from < n < |es|
    requires CancelsAll(es[from]) && RunOf(js[from], id).Some?
    ensures es[n] != DelayEnds(id)
    ensures es[n].Settles? && es[n].id == id ==>
              RunOf(js[n + 1], id).Some? && RunOf(js[n + 1], id).value.phase == Settled(if es[n].timedOut then TimedOut else Cancelled)
    ensures es[n] == Decides(id) ==> RunOf(js[n + 1], id) == None
  {
    assert StepAt(js, es, from) && StepAt(js, es, n);
    InvHolds(js, es, from);
    CancelledRun(js[from], es[from], id);
    NextIdGrows(js[from], es[from]);
    AbortStays(js, es, from + 1, n, id);
    InvHolds(js, es, n);
    if OwnRun(es[n]) && es[n].id == id { OwnStep(js[n], es[n]); }
  }

  // ------------------------------------------------------------- the current execution

  ghost predicate InOrder(runs: seq<Run>) {
    forall i, k | 0 <= i < k < |runs| :: runs[i].id < runs[k].id
  }

  lemma StepKeepsOrder(j: Job, e: Event)
    requires Inv(j) && Enabled(j, e) && InOrder(j.runs)
    ensures InOrder(Step(j, e).runs)
  {
    if OwnRun(e) {
      OwnStepIs(j, e);
      EndedInOrder(j, IndexOf(j.runs, e.id).value);
    } else if e.Update? {
      DrainedInOrder(j.(options := Updated(j.options, e.u)));
    } else if !IsRequest(j, e) {
      QuietSlots(j, e);
    }
  }

  lemma RemovedInOrder(runs: seq<Run>, i: nat)
    requires InOrder(runs) && i < |runs|
    ensures InOrder(Remove(runs, i))
  {
    var rest := Remove(runs, i);
    forall m | 0 <= m < |rest| ensures rest[m] == runs[if m < i then m else m + 1] {
    }
  }

  lemma DrainedInOrder(j: Job)
    requires InOrder(j.runs) && forall i | 0 <= i < |j.runs| :: j.runs[i].id < j.nextId
    ensures InOrder(Drained(j).runs)
  {
  }

  lemma EndedInOrder(j: Job, i: nat)
    requires Inv(j) && i < |j.runs| && InOrder(j.runs)
    ensures InOrder(Ended(j, i).runs)
  {
    RemovedInOrder(j.runs, i);
    DrainedInOrder(SyncCurrent(j.(runs := Remove(j.runs, i))));
  }

  // Slots are held in the order in which runs came.
  lemma {:induction false} RunsInOrder(js: seq<Job>, es: seq<Event>, n: nat)
    requires History(js, es) && Registered(js[0]) && n < |js|
    ensures InOrder(js[n].runs)
  {
    if n > 0 {
      assert StepAt(js, es, n - 1);
      RunsInOrder(js, es, n - 1);
      InvHolds(js, es, n - 1);
      StepKeepsOrder(js[n - 1], es[n - 1]);
    }
  }

  lemma {:induction false} NewestComesLast(runs: seq<Run>)
    requires InOrder(runs)
    ensures var r := NewestExecuting(runs);
            if r.Some? then r.value in runs && r.value.executionId.Some? && forall run | run in runs && run.executionId.Some? :: run.id <= r.value.id
            else forall run | run in runs :: run.executionId.None?
  {
    if runs != [] {
      var init, last := runs[..|runs| - 1], runs[|runs| - 1];
      assert runs == init + [last];
      NewestComesLast(init);
    }
  }

  // The current execution is, at every moment, that of the run started last among those that execute.
  lemma CurrentIsNewest(js: seq<Job>, es: seq<Event>, n: nat)
    requires History(js, es) && Registered(js[0]) && n < |js|
    ensures var j := js[n];
            if forall run | run in j.runs :: run.executionId.None? then j.currentExecutionId == None && j.currentController == None
            else exists run | run in j.runs && run.executionId.Some? ::
                   && j.currentExecutionId == run.executionId && j.currentController == Some(run.id)
                   && forall other | other in j.runs && other.executionId.Some? :: other.id <= run.id
  {
    InvHolds(js, es, n);
    RunsInOrder(js, es, n);
    NewestComesLast(js[n].runs);
  }
}
