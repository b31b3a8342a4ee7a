// The sliding-window limiter: at most `max` attempts per key in any window, whatever is swept in between.
module RateLimiting {
  import opened Counting

  type Hits = map<string, seq<int>>

  // The times less than `windowMs` before `now`.
  function Recent(times: seq<int>, now: int, windowMs: int): (r: seq<int>)
    ensures forall t :: t in r <==> t in times && now - t < windowMs
    ensures |r| <= |times|
  {
    if times == [] then []
    else
      var init, last := times[..|times| - 1], times[|times| - 1];
      assert times == init + [last];
      if now - last < windowMs then Recent(init, now, windowMs) + [last] else Recent(init, now, windowMs)
  }

  function TimesOf(hits: Hits, key: string): seq<int> {
    if key in hits then hits[key] else []
  }

  class RateLimiter {
    var hits: Hits
    const max: int
    const windowMs: int

    constructor (max: int, windowMs: int)
      ensures hits == map[] && this.max == max && this.windowMs == windowMs
    {
      hits := map[];
      this.max, this.windowMs := max, windowMs;
    }

    method TryAcquire(key: string, now: int) returns (ok: bool)
      modifies this
      ensures ok == Acquires(old(hits), key, now, max, windowMs)
      ensures hits == Acquired(old(hits), key, now, max, windowMs)
    {
      var list := Recent(TimesOf(hits, key), now, windowMs);
      if |list| >= max {
        hits := hits[key := list];
        return false;
      }
      list := list + [now];
      hits := hits[key := list];
      return true;
    }

    method Sweep(now: int)
      modifies this
      ensures hits == Swept(old(hits), now, windowMs)
    {
      var left := hits.Keys;
      while left != {}
        invariant left <= old(hits).Keys && left <= hits.Keys
        invariant hits == SweptBut(old(hits), left, now, windowMs)
        decreases left
      {
        var key :| key in left;
        SweepOne(old(hits), left, key, now, windowMs);
        var live := Recent(hits[key], now, windowMs);
        if live == [] {
          hits := hits - {key};
        } else {
          hits := hits[key := live];
        }
        left := left - {key};
      }
    }
  }

  predicate Acquires(hits: Hits, key: string, now: int, max: int, windowMs: int) {
    |Recent(TimesOf(hits, key), now, windowMs)| < max
  }

  function Acquired(hits: Hits, key: string, now: int, max: int, windowMs: int): Hits {
    var list := Recent(TimesOf(hits, key), now, windowMs);
    hits[key := if Acquires(hits, key, now, max, windowMs) then list + [now] else list]
  }

  // Swept, the keys `left` still to come.
  function SweptBut(hits: Hits, left: set<string>, now: int, windowMs: int): Hits {
    map key | key in hits && (key in left || Recent(hits[key], now, windowMs) != [])
      :: if key in left then hits[key] else Recent(hits[key], now, windowMs)
  }

  function Swept(hits: Hits, now: int, windowMs: int): Hits {
    SweptBut(hits, {}, now, windowMs)
  }

  lemma SweepOne(hits: Hits, left: set<string>, key: string, now: int, windowMs: int)
    requires left <= hits.Keys && key in left
    ensures var live := Recent(hits[key], now, windowMs);
            && key in SweptBut(hits, left, now, windowMs) && SweptBut(hits, left, now, windowMs)[key] == hits[key]
            && SweptBut(hits, left - {key}, now, windowMs)
               == if live == [] then SweptBut(hits, left, now, windowMs) - {key} else SweptBut(hits, left, now, windowMs)[key := live]
  {
  }

  // ----------------------------------------------------------------- histories

  datatype Event = Attempt(key: string, now: int) | SweepAt(now: int)

  datatype Window = Window(max: int, windowMs: int)

  function Step(w: Window, hits: Hits, e: Event): Hits {
    match e
    case Attempt(key, now) => Acquired(hits, key, now, w.max, w.windowMs)
    case SweepAt(now) => Swept(hits, now, w.windowMs)
  }

  ghost predicate Follows(w: Window, hs: seq<Hits>, es: seq<Event>) {
    && |hs| == |es| + 1 && hs[0] == map[]
    && forall i | 0 <= i < |es| :: hs[i + 1] == Step(w, hs[i], es[i])
  }

  ghost predicate Ordered(es: seq<Event>) {
    forall i, j | 0 <= i <= j < |es| :: es[i].now <= es[j].now
  }

  predicate IsGrant(w: Window, hits: Hits, e: Event, key: string) {
    e.Attempt? && e.key == key && Acquires(hits, key, e.now, w.max, w.windowMs)
  }

  ghost function Granted(w: Window, hs: seq<Hits>, es: seq<Event>, key: string): (r: seq<bool>)
    requires |hs| == |es| + 1
    ensures |r| == |es| && forall i | 0 <= i < |es| :: r[i] == IsGrant(w, hs[i], es[i], key)
  {
    seq(|es|, i requires 0 <= i < |es| => IsGrant(w, hs[i], es[i], key))
  }

  // The times of the attempts granted for the key in the first `n` steps.
  ghost function GrantTimes(granted: seq<bool>, es: seq<Event>, n: nat): (r: seq<int>)
    requires n <= |es| == |granted|
    ensures forall t | t in r :: exists i | 0 <= i < n :: granted[i] && es[i].now == t
  {
    if n == 0 then []
    else if granted[n - 1] then GrantTimes(granted, es, n - 1) + [es[n - 1].now]
    else GrantTimes(granted, es, n - 1)
  }

  lemma {:induction false} RecentOfRecent(times: seq<int>, before: int, now: int, windowMs: int)
    requires before <= now
    ensures Recent(Recent(times, before, windowMs), now, windowMs) == Recent(times, now, windowMs)
  {
    if times != [] {
      var init, last := times[..|times| - 1], times[|times| - 1];
      RecentOfRecent(init, before, now, windowMs);
      if now - last < windowMs {
        RecentAppend(Recent(init, before, windowMs), last, now, windowMs);
      } else if before - last < windowMs {
        RecentAppend(Recent(init, before, windowMs), last, now, windowMs);
      }
    }
  }

  lemma RecentAppend(times: seq<int>, t: int, now: int, windowMs: int)
    ensures Recent(times + [t], now, windowMs)
            == if now - t < windowMs then Recent(times, now, windowMs) + [t] else Recent(times, now, windowMs)
  {
    assert (times + [t])[..|times|] == times;
  }

  // What the limiter keeps for a key is, up to what has expired, the log of all its grants.
  ghost predicate KeepsLog(hits: Hits, key: string, log: seq<int>, clock: int, windowMs: int) {
    forall now | now >= clock :: Recent(TimesOf(hits, key), now, windowMs) == Recent(log, now, windowMs)
  }

  // A step leaves a key as it is, drops what has expired, or does that and adds the time of a grant.
  lemma StepTimes(w: Window, hits: Hits, e: Event, key: string)
    ensures var times, after := TimesOf(hits, key), TimesOf(Step(w, hits, e), key);
            if IsGrant(w, hits, e, key) then after == Recent(times, e.now, w.windowMs) + [e.now]
            else after == times || after == Recent(times, e.now, w.windowMs)
  {
  }

  lemma StepKeepsLog(w: Window, hits: Hits, e: Event, key: string, log: seq<int>, clock: int)
    requires KeepsLog(hits, key, log, clock, w.windowMs) && clock <= e.now
    ensures KeepsLog(Step(w, hits, e), key, if IsGrant(w, hits, e, key) then log + [e.now] else log, e.now, w.windowMs)
  {
    var times, after := TimesOf(hits, key), TimesOf(Step(w, hits, e), key);
    var log' := if IsGrant(w, hits, e, key) then log + [e.now] else log;
    StepTimes(w, hits, e, key);
    forall now | now >= e.now ensures Recent(after, now, w.windowMs) == Recent(log', now, w.windowMs) {
      RecentOfRecent(times, e.now, now, w.windowMs);
      RecentAppend(Recent(times, e.now, w.windowMs), e.now, now, w.windowMs);
      RecentAppend(log, e.now, now, w.windowMs);
      assert Recent(times, now, w.windowMs) == Recent(log, now, w.windowMs);
    }
  }

  lemma {:induction false} LogIsKept(w: Window, hs: seq<Hits>, es: seq<Event>, key: string, n: nat, clock: int)
    requires Follows(w, hs, es) && Ordered(es) && n < |hs| && (n > 0 ==> clock == es[n - 1].now)
    ensures KeepsLog(hs[n], key, GrantTimes(Granted(w, hs, es, key), es, n), clock, w.windowMs)
  {
    if n > 0 {
      LogIsKept(w, hs, es, key, n - 1, if n > 1 then es[n - 2].now else es[n - 1].now);
      StepKeepsLog(w, hs[n - 1], es[n - 1], key, GrantTimes(Granted(w, hs, es, key), es, n - 1),
                   if n > 1 then es[n - 2].now else es[n - 1].now);
    }
  }

  // The limiter answers as one that keeps every grant forever and never sweeps: an attempt passes exactly when
  // fewer than `max` attempts passed in the window before it.
  lemma AnswersAsTheLog(w: Window, hs: seq<Hits>, es: seq<Event>, n: nat)
    requires Follows(w, hs, es) && Ordered(es) && n < |es| && es[n].Attempt?
    ensures var granted := Granted(w, hs, es, es[n].key);
            granted[n] <==> |Recent(GrantTimes(granted, es, n), es[n].now, w.windowMs)| < w.max
  {
    LogIsKept(w, hs, es, es[n].key, n, if n > 0 then es[n - 1].now else es[n].now);
  }

  // The times of a key's attempts, whatever else happens in between.
  function AttemptsOf(es: seq<Event>, key: string): seq<int> {
    if es == [] then []
    else
      var before, e := AttemptsOf(es[..|es| - 1], key), es[|es| - 1];
      if e.Attempt? && e.key == key then before + [e.now] else before
  }

  // The grants of a limiter that is asked at these times, keeps every grant and never sweeps.
  function Log(w: Window, times: seq<int>): seq<int> {
    if times == [] then []
    else
      var before, now := Log(w, times[..|times| - 1]), times[|times| - 1];
      if |Recent(before, now, w.windowMs)| < w.max then before + [now] else before
  }

  lemma {:induction false} GrantsAreTheLog(w: Window, hs: seq<Hits>, es: seq<Event>, key: string, n: nat)
    requires Follows(w, hs, es) && Ordered(es) && n <= |es|
    ensures GrantTimes(Granted(w, hs, es, key), es, n) == Log(w, AttemptsOf(es[..n], key))
  {
    if n > 0 {
      GrantsAreTheLog(w, hs, es, key, n - 1);
      assert es[..n][..n - 1] == es[..n - 1];
      var before, e := AttemptsOf(es[..n - 1], key), es[n - 1];
      if e.Attempt? && e.key == key {
        AnswersAsTheLog(w, hs, es, n - 1);
        assert (before + [e.now])[..|before|] == before;
      }
    }
  }

  // Two histories in which a key was tried at the same times give the next attempt the same answer: neither
  // sweeps nor the attempts of other keys ever change one.
  lemma OnlyOwnAttemptsCount(w: Window, hs: seq<Hits>, es: seq<Event>, n: nat, hs': seq<Hits>, es': seq<Event>, m: nat)
    requires Follows(w, hs, es) && Ordered(es) && n < |es| && es[n].Attempt?
    requires Follows(w, hs', es') && Ordered(es') && m < |es'| && es'[m] == es[n]
    requires AttemptsOf(es[..n], es[n].key) == AttemptsOf(es'[..m], es[n].key)
    ensures Acquires(hs[n], es[n].key, es[n].now, w.max, w.windowMs) == Acquires(hs'[m], es[n].key, es[n].now, w.max, w.windowMs)
  {
    GrantsAreTheLog(w, hs, es, es[n].key, n);
    GrantsAreTheLog(w, hs', es', es[n].key, m);
    AnswersAsTheLog(w, hs, es, n);
    AnswersAsTheLog(w, hs', es', m);
  }

  // The grants of the last steps are all recent when those steps are.
  lemma {:induction false} RecentCounts(granted: seq<bool>, es: seq<Event>, from: nat, until: nat, now: int, windowMs: int)
    requires Ordered(es) && from <= until <= |es| == |granted|
    requires until > from ==> now - es[from].now < windowMs
    ensures CountTrue(granted, from, until) <= |Recent(GrantTimes(granted, es, until), now, windowMs)|
    decreases until
  {
    if from < until {
      var last := until - 1;
      RecentCounts(granted, es, from, last, now, windowMs);
      if granted[last] {
        var before, t := GrantTimes(granted, es, last), es[last].now;
        assert es[from].now <= t;
        RecentAppend(before, t, now, windowMs);
        assert GrantTimes(granted, es, until) == before + [t];
      }
    }
  }

  lemma LastGrant(w: Window, hs: seq<Hits>, es: seq<Event>, key: string, from: nat, last: nat)
    requires Follows(w, hs, es) && Ordered(es) && from <= last < |es|
    requires es[last].now - es[from].now < w.windowMs && Granted(w, hs, es, key)[last]
    ensures CountTrue(Granted(w, hs, es, key), from, last) + 1 <= w.max
  {
    AnswersAsTheLog(w, hs, es, last);
    RecentCounts(Granted(w, hs, es, key), es, from, last, es[last].now, w.windowMs);
  }

  // Any stretch of time shorter than the window lets at most `max` attempts of a key through.
  lemma {:induction false} AtMostMaxPerWindow(w: Window, hs: seq<Hits>, es: seq<Event>, key: string, from: nat, until: nat)
    requires Follows(w, hs, es) && Ordered(es) && from <= until <= |es|
    requires from < until ==> es[until - 1].now - es[from].now < w.windowMs
    ensures CountTrue(Granted(w, hs, es, key), from, until) <= if w.max < 0 then 0 else w.max
    decreases until
  {
    if from < until {
      var granted, last := Granted(w, hs, es, key), until - 1;
      if from < last { assert es[last - 1].now <= es[last].now; }
      AtMostMaxPerWindow(w, hs, es, key, from, last);
      if granted[last] {
        LastGrant(w, hs, es, key, from, last);
        assert CountTrue(granted, from, until) == CountTrue(granted, from, last) + 1;
      } else {
        assert CountTrue(granted, from, until) == CountTrue(granted, from, last);
      }
    }
  }
}
