// When a cron job fires next. What an expression means is a set of occurrences; `next` finds the least one after a time.
module CronSchedule {
  import opened Text

  ghost predicate LeastAfter(occurs: int -> bool, time: int, o: int) {
    occurs(o) && o > time && forall x | occurs(x) && x > time :: o <= x
  }

  ghost predicate Finds(occurs: int -> bool, next: int -> int) {
    forall time :: LeastAfter(occurs, time, next(time))
  }

  function NextCronOccurrence(next: int -> int, fired: Option<int>, now: int): int {
    if fired.Some? && next(fired.value) > now then next(fired.value) else next(now)
  }

  function Later(fired: Option<int>, now: int): int {
    if fired.Some? && fired.value > now then fired.value else now
  }

  // The next occurrence is the least one after both the fired one and the clock.
  lemma NextIsLeast(occurs: int -> bool, next: int -> int, fired: Option<int>, now: int)
    requires Finds(occurs, next)
    ensures LeastAfter(occurs, Later(fired, now), NextCronOccurrence(next, fired, now))
  {
    assert LeastAfter(occurs, now, next(now));
    if fired.Some? {
      assert LeastAfter(occurs, fired.value, next(fired.value));
    }
  }

  // -------------------------------------------------------------------- timers

  // What the timer waits for, with the reading of the clock that chose it, and what it has fired so far.
  datatype Timer = Timer(pending: int, read: int, fired: seq<int>, readings: seq<int>)

  // The timer fires, early or late, or is started again: resumed, or with other options.
  datatype Tick = Fires(now: int) | Restarts(now: int)

  function Started(next: int -> int, now: int): Timer {
    Timer(NextCronOccurrence(next, None, now), now, [], [])
  }

  function Ticked(next: int -> int, t: Timer, e: Tick): Timer {
    match e
    case Fires(now) =>
      Timer(NextCronOccurrence(next, Some(t.pending), now), now, t.fired + [t.pending], t.readings + [t.read])
    case Restarts(now) => t.(pending := NextCronOccurrence(next, None, now), read := now)
  }

  function Run(next: int -> int, start: int, es: seq<Tick>): Timer {
    if es == [] then Started(next, start) else Ticked(next, Run(next, start, es[..|es| - 1]), es[|es| - 1])
  }

  class CronTimer {
    const next: int -> int
    var pending: int
    var read: int
    var fired: seq<int>
    var readings: seq<int>

    function Snapshot(): Timer
      reads this
    {
      Timer(pending, read, fired, readings)
    }

    constructor (next: int -> int, now: int)
      ensures this.next == next && Snapshot() == Started(next, now)
    {
      this.next := next;
      pending, read, fired, readings := NextCronOccurrence(next, None, now), now, [], [];
    }

    method ScheduleNext(occurrence: Option<int>, now: int)
      modifies this`pending, this`read
      ensures pending == NextCronOccurrence(next, occurrence, now) && read == now
    {
      pending, read := NextCronOccurrence(next, occurrence, now), now;
    }

    // The next occurrence is found from the one that fires, before its run.
    method Fire(now: int)
      modifies this
      ensures Snapshot() == Ticked(next, old(Snapshot()), Fires(now))
    {
      fired, readings := fired + [pending], readings + [read];
      ScheduleNext(Some(pending), now);
    }

    // A timer started again knows of nothing it fired.
    method Restart(now: int)
      modifies this
      ensures Snapshot() == Ticked(next, old(Snapshot()), Restarts(now))
    {
      ScheduleNext(None, now);
    }
  }

  ghost predicate Increasing(fired: seq<int>) {
    forall i, k | 0 <= i < k < |fired| :: fired[i] < fired[k]
  }

  predicate After(fired: seq<int>, o: int) {
    fired == [] || fired[|fired| - 1] < o
  }

  lemma IncreasingExtends(fired: seq<int>, o: int)
    ensures Increasing(fired + [o]) <==> Increasing(fired) && After(fired, o)
  {
    var all := fired + [o];
    if Increasing(all) {
      forall i, k | 0 <= i < k < |fired| ensures fired[i] < fired[k] {
        assert all[i] < all[k];
      }
      if fired != [] { assert all[|fired| - 1] < all[|fired|]; }
    }
    if Increasing(fired) && After(fired, o) {
      forall i, k | 0 <= i < k < |all| ensures all[i] < all[k] {
        if k == |fired| { assert fired[i] <= fired[|fired| - 1]; }
      }
    }
  }

  // What fires occurs; between two that fire, only occurrences are passed over that the clock had passed when
  // the later one was chosen.
  ghost predicate PassesOnlyPast(occurs: int -> bool, t: Timer) {
    && |t.readings| == |t.fired| && occurs(t.pending) && (forall o | o in t.fired :: occurs(o))
    && (forall i, x | 0 < i < |t.fired| && occurs(x) && t.fired[i - 1] < x < t.fired[i] :: x <= t.readings[i])
    && (forall x | t.fired != [] && occurs(x) && t.fired[|t.fired| - 1] < x < t.pending :: x <= t.read)
  }

  // For every clock, with early ticks, jumps back and restarts at any moment.
  lemma {:induction false} NothingMissed(occurs: int -> bool, next: int -> int, start: int, es: seq<Tick>)
    requires Finds(occurs, next)
    ensures PassesOnlyPast(occurs, Run(next, start, es))
  {
    if es == [] {
      NextIsLeast(occurs, next, None, start);
    } else {
      var n := |es| - 1;
      NothingMissed(occurs, next, start, es[..n]);
      var t := Run(next, start, es[..n]);
      NextIsLeast(occurs, next, if es[n].Fires? then Some(t.pending) else None, es[n].now);
    }
  }

  // A firing is one of the occurrence waited for, once; then the least one is waited for after that and the clock. A
  // restart fires nothing, and waits for the least one after the clock.
  lemma TickIs(occurs: int -> bool, next: int -> int, t: Timer, e: Tick)
    requires Finds(occurs, next)
    ensures var after := Ticked(next, t, e);
            match e
            case Fires(now) =>
              after.fired == t.fired + [t.pending] && LeastAfter(occurs, if t.pending > now then t.pending else now, after.pending)
            case Restarts(now) => after.fired == t.fired && LeastAfter(occurs, now, after.pending)
  {
    NextIsLeast(occurs, next, if e.Fires? then Some(t.pending) else None, e.now);
  }

  // The restart leads to a firing.
  predicate Leads(es: seq<Tick>, i: nat) {
    i + 1 < |es| && es[i].Restarts? && es[i + 1].Fires?
  }

  // The clock, read at this restart, is not behind the last occurrence fired before it.
  predicate LateAt(next: int -> int, start: int, es: seq<Tick>, i: nat)
    requires i < |es|
  {
    var fired := Run(next, start, es[..i]).fired;
    fired == [] || fired[|fired| - 1] <= es[i].now
  }

  ghost predicate RestartsLate(next: int -> int, start: int, es: seq<Tick>) {
    forall i: nat | Leads(es, i) :: LateAt(next, start, es, i)
  }

  // What a timer waits for comes after all it fired, unless it was just restarted too early.
  lemma PendingAfterFired(occurs: int -> bool, next: int -> int, start: int, es: seq<Tick>)
    requires Finds(occurs, next) && es != []
    ensures var t := Run(next, start, es);
            After(t.fired, t.pending) <==> (es[|es| - 1].Restarts? ==> LateAt(next, start, es, |es| - 1))
  {
    var n := |es| - 1;
    var t := Run(next, start, es[..n]);
    NextIsLeast(occurs, next, if es[n].Fires? then Some(t.pending) else None, es[n].now);
    NothingMissed(occurs, next, start, es[..n]);
    if t.fired != [] {
      assert t.fired[|t.fired| - 1] in t.fired;
    }
  }

  lemma LateBefore(next: int -> int, start: int, es: seq<Tick>)
    requires es != []
    ensures var n := |es| - 1;
            RestartsLate(next, start, es)
            <==> RestartsLate(next, start, es[..n])
                 && (n > 0 && Leads(es, n - 1) ==> LateAt(next, start, es[..n], n - 1))
  {
    var n := |es| - 1;
    forall i | 0 <= i < n ensures LateAt(next, start, es, i) == LateAt(next, start, es[..n], i) {
      assert es[..n][..i] == es[..i];
    }
    forall i: nat ensures Leads(es, i) <==> Leads(es[..n], i) || (i == n - 1 && Leads(es, n - 1)) {
    }
  }

  // No occurrence fires twice, and they fire in order, exactly when no restart came too early: when the clock
  // of each, if it led to a firing, was not behind what had fired.
  lemma {:induction false} FiredOnceUnlessRestartedEarly(occurs: int -> bool, next: int -> int, start: int, es: seq<Tick>)
    requires Finds(occurs, next)
    ensures Increasing(Run(next, start, es).fired) <==> RestartsLate(next, start, es)
  {
    if es != [] {
      var n := |es| - 1;
      var t := Run(next, start, es[..n]);
      FiredOnceUnlessRestartedEarly(occurs, next, start, es[..n]);
      LateBefore(next, start, es);
      if es[n].Fires? {
        IncreasingExtends(t.fired, t.pending);
        if n > 0 { PendingAfterFired(occurs, next, start, es[..n]); }
      }
    }
  }

  // A timer that is never restarted fires every occurrence at most once, in order, whatever the clock does.
  lemma FiredInOrder(occurs: int -> bool, next: int -> int, start: int, es: seq<Tick>)
    requires Finds(occurs, next) && forall e | e in es :: e.Fires?
    ensures Increasing(Run(next, start, es).fired)
  {
    FiredOnceUnlessRestartedEarly(occurs, next, start, es);
    forall i: nat ensures !Leads(es, i) {
      if i < |es| { assert es[i] in es; }
    }
  }
}
