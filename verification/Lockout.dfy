// The lockout of failed logins: attempts are reserved before the slow password check, so that attempts still
// in flight count. Any number of reservations, failures, successes, checks, sweeps and clears may interleave.
module Lockout {
  import opened Counting

  datatype LockoutState = LockoutState(failures: nat, lockedUntil: int, lastAttempt: int)

  datatype Limits = Limits(maxLoginAttempts: int, lockoutMs: int)

  type Lockouts = map<string, LockoutState>

  const SWEEP_THRESHOLD := 1000

  predicate IsExpired(l: Limits, state: LockoutState, now: int) {
    if state.lockedUntil != 0 then now >= state.lockedUntil else now - state.lastAttempt >= l.lockoutMs
  }

  predicate Refuses(l: Limits, state: LockoutState, now: int) {
    state.lockedUntil > now || state.failures >= l.maxLoginAttempts
  }

  function Swept(l: Limits, m: Lockouts, now: int): Lockouts {
    map key | key in m && !IsExpired(l, m[key], now) :: m[key]
  }

  // The entry an attempt is reserved on: the live one, or a new one.
  function Entered(l: Limits, m: Lockouts, key: string, now: int): Lockouts {
    if key in m && !IsExpired(l, m[key], now) then m
    else
      var rest := m - {key};
      (if |rest| >= SWEEP_THRESHOLD then Swept(l, rest, now) else rest)[key := LockoutState(0, 0, now)]
  }

  predicate Grants(l: Limits, m: Lockouts, key: string, now: int) {
    !Refuses(l, Entered(l, m, key, now)[key], now)
  }

  function Reserved(l: Limits, m: Lockouts, key: string, now: int): Lockouts {
    var entered := Entered(l, m, key, now);
    var state := entered[key];
    if Refuses(l, state, now) then entered
    else entered[key := state.(failures := state.failures + 1, lastAttempt := now)]
  }

  function Failed(l: Limits, m: Lockouts, key: string, now: int): Lockouts {
    var state := if key in m then m[key] else LockoutState(1, 0, now);
    m[key := LockoutState(state.failures,
                          if state.failures >= l.maxLoginAttempts && state.lockedUntil == 0 then now + l.lockoutMs else state.lockedUntil,
                          now)]
  }

  function Checked(l: Limits, m: Lockouts, key: string, now: int): Lockouts {
    if key in m && IsExpired(l, m[key], now) then m - {key} else m
  }

  // What IsKeyLocked answers: a lock is set and not over.
  predicate Locked(l: Limits, m: Lockouts, key: string, now: int) {
    key in m && m[key].lockedUntil != 0 && now < m[key].lockedUntil
  }

  class AuthLockouts {
    var lockouts: Lockouts
    const limits: Limits

    constructor (limits: Limits)
      ensures lockouts == map[] && this.limits == limits
    {
      lockouts := map[];
      this.limits := limits;
    }

    method IsKeyLocked(key: string, now: int) returns (locked: bool)
      modifies this
      ensures lockouts == Checked(limits, old(lockouts), key, now)
      ensures locked <==> Locked(limits, old(lockouts), key, now)
    {
      if key !in lockouts {
        return false;
      }
      var state := lockouts[key];
      if IsExpired(limits, state, now) {
        lockouts := lockouts - {key};
        return false;
      }
      return state.lockedUntil != 0;
    }

    method SweepLockouts(now: int)
      modifies this
      ensures lockouts == Swept(limits, old(lockouts), now)
    {
      var left := lockouts.Keys;
      while left != {}
        invariant left <= lockouts.Keys
        invariant forall key :: key in lockouts <==> key in old(lockouts) && (key in left || !IsExpired(limits, old(lockouts)[key], now))
        invariant forall key | key in lockouts :: lockouts[key] == old(lockouts)[key]
        decreases left
      {
        var key :| key in left;
        left := left - {key};
        if IsExpired(limits, lockouts[key], now) {
          lockouts := lockouts - {key};
        }
      }
    }

    method ClearLockout(key: string)
      modifies this
      ensures lockouts == old(lockouts) - {key}
    {
      lockouts := lockouts - {key};
    }

    method ReserveAttempt(key: string, now: int) returns (granted: bool)
      modifies this
      ensures granted == Grants(limits, old(lockouts), key, now)
      ensures lockouts == Reserved(limits, old(lockouts), key, now)
    {
      var state := LockoutState(0, 0, now);
      var known := key in lockouts;
      if known {
        state := lockouts[key];
        if IsExpired(limits, state, now) {
          lockouts := lockouts - {key};
          known := false;
        }
      }
      if !known {
        assert lockouts == old(lockouts) - {key};
        if |lockouts| >= SWEEP_THRESHOLD {
          SweepLockouts(now);
        }
        state := LockoutState(0, 0, now);
        lockouts := lockouts[key := state];
      }
      if state.lockedUntil > now || state.failures >= limits.maxLoginAttempts {
        return false;
      }
      lockouts := lockouts[key := state.(failures := state.failures + 1, lastAttempt := now)];
      return true;
    }

    method AttemptFailed(key: string, now: int)
      modifies this
      ensures lockouts == Failed(limits, old(lockouts), key, now)
    {
      var state := if key in lockouts then lockouts[key] else LockoutState(1, 0, now);
      state := state.(lastAttempt := now);
      if state.failures >= limits.maxLoginAttempts && state.lockedUntil == 0 {
        state := state.(lockedUntil := now + limits.lockoutMs);
      }
      lockouts := lockouts[key := state];
    }

    method AttemptSucceeded(key: string)
      modifies this
      ensures lockouts == old(lockouts) - {key}
    {
      lockouts := lockouts - {key};
    }
  }

  // ----------------------------------------------------------------- histories

  datatype Event =
    | Reserves(key: string, now: nat)
    | Fails(key: string, now: nat)
    | Succeeds(key: string, now: nat)
    | Checks(key: string, now: nat)
    | Sweeps(now: nat)
    | Clears(key: string, now: nat)

  function Step(l: Limits, m: Lockouts, e: Event): Lockouts {
    match e
    case Reserves(key, now) => Reserved(l, m, key, now)
    case Fails(key, now) => Failed(l, m, key, now)
    case Succeeds(key, _) => m - {key}
    case Checks(key, now) => Checked(l, m, key, now)
    case Sweeps(now) => Swept(l, m, now)
    case Clears(key, _) => m - {key}
  }

  // Steps from an empty map.
  ghost predicate Follows(l: Limits, ms: seq<Lockouts>, es: seq<Event>) {
    && |ms| == |es| + 1 && ms[0] == map[]
    && forall i | 0 <= i < |es| :: ms[i + 1] == Step(l, ms[i], es[i])
  }

  // The clock does not run back.
  ghost predicate Ordered(es: seq<Event>) {
    forall i, j | 0 <= i <= j < |es| :: es[i].now <= es[j].now
  }

  predicate IsGrant(l: Limits, m: Lockouts, e: Event, key: string) {
    e.Reserves? && e.key == key && Grants(l, m, key, e.now)
  }

  predicate Resets(e: Event, key: string) {
    (e.Succeeds? || e.Clears?) && e.key == key
  }

  // Which steps let an attempt for the key through.
  ghost function Granted(l: Limits, ms: seq<Lockouts>, es: seq<Event>, key: string): (r: seq<bool>)
    requires |ms| == |es| + 1
    ensures |r| == |es| && forall i | 0 <= i < |es| :: r[i] == IsGrant(l, ms[i], es[i], key)
  {
    seq(|es|, i requires 0 <= i < |es| => IsGrant(l, ms[i], es[i], key))
  }

  // ------------------------------------------------------ at most so many attempts

  // Since an attempt at time `start`, an entry that counts `count` attempts and cannot have expired.
  predicate Counts(l: Limits, m: Lockouts, key: string, start: int, count: nat) {
    && key in m
    && count <= m[key].failures <= l.maxLoginAttempts
    && m[key].lastAttempt >= start
    && (m[key].lockedUntil == 0 || m[key].lockedUntil >= start + l.lockoutMs)
  }

  lemma GrantStarts(l: Limits, m: Lockouts, key: string, now: nat)
    requires Grants(l, m, key, now)
    ensures Counts(l, Reserved(l, m, key, now), key, now, 1)
  {
  }

  lemma StepCounts(l: Limits, m: Lockouts, e: Event, key: string, start: nat, count: nat)
    requires Counts(l, m, key, start, count) && !Resets(e, key)
    requires start <= e.now < start + l.lockoutMs
    ensures Counts(l, Step(l, m, e), key, start, count + if IsGrant(l, m, e, key) then 1 else 0)
  {
    assert !IsExpired(l, m[key], e.now);
  }

  lemma {:induction false} CountsSince(l: Limits, ms: seq<Lockouts>, es: seq<Event>, key: string, first: nat, until: nat)
    requires Follows(l, ms, es) && Ordered(es) && first < until <= |es|
    requires Granted(l, ms, es, key)[first]
    requires es[until - 1].now < es[first].now + l.lockoutMs
    requires forall i | first <= i < until :: !Resets(es[i], key)
    ensures Counts(l, ms[until], key, es[first].now, CountTrue(Granted(l, ms, es, key), first, until))
    decreases until
  {
    var granted, last := Granted(l, ms, es, key), until - 1;
    assert ms[until] == Step(l, ms[last], es[last]) && (granted[last] <==> IsGrant(l, ms[last], es[last], key));
    if last == first {
      GrantStarts(l, ms[first], key, es[first].now);
      assert CountTrue(granted, first, first) == 0;
    } else {
      assert es[first].now <= es[last - 1].now <= es[last].now;
      CountsSince(l, ms, es, key, first, last);
      StepCounts(l, ms[last], es[last], key, es[first].now, CountTrue(granted, first, last));
    }
  }

  // In any stretch of time shorter than the lockout, with no success and no clear, at most `maxLoginAttempts`
  // attempts are let through, however they interleave.
  lemma {:induction false} AttemptsAreLimited(l: Limits, ms: seq<Lockouts>, es: seq<Event>, key: string, from: nat, until: nat)
    requires Follows(l, ms, es) && Ordered(es) && from < until <= |es|
    requires es[until - 1].now < es[from].now + l.lockoutMs
    requires forall i | from <= i < until :: !Resets(es[i], key)
    ensures CountTrue(Granted(l, ms, es, key), from, until) <= if l.maxLoginAttempts < 0 then 0 else l.maxLoginAttempts
    decreases until - from
  {
    var granted := Granted(l, ms, es, key);
    if granted[from] {
      CountsSince(l, ms, es, key, from, until);
    } else {
      CountFirst(granted, from, until);
      if from + 1 < until {
        assert es[from].now <= es[from + 1].now;
        AttemptsAreLimited(l, ms, es, key, from + 1, until);
      } else {
        assert CountTrue(granted, until, until) == 0;
      }
    }
  }

  // ------------------------------------------------------------- a lock holds, then ends

  lemma StepKeepsLock(l: Limits, m: Lockouts, e: Event, key: string)
    requires key in m && m[key].lockedUntil != 0 && e.now < m[key].lockedUntil && !Resets(e, key)
    ensures var m' := Step(l, m, e); key in m' && m'[key].lockedUntil == m[key].lockedUntil
  {
    assert !IsExpired(l, m[key], e.now);
  }

  // A lock lets no attempt through before it ends, unless a success or a clear lifts it.
  lemma {:induction false} LockHolds(l: Limits, ms: seq<Lockouts>, es: seq<Event>, key: string, from: nat, until: nat)
    requires Follows(l, ms, es) && Ordered(es) && from <= until < |es|
    requires key in ms[from] && ms[from][key].lockedUntil != 0 && es[until].now < ms[from][key].lockedUntil
    requires forall i | from <= i < until :: !Resets(es[i], key)
    ensures key in ms[until] && ms[until][key].lockedUntil == ms[from][key].lockedUntil
    ensures !Grants(l, ms[until], key, es[until].now) && Locked(l, ms[until], key, es[until].now)
    decreases until
  {
    if from < until {
      assert es[until - 1].now <= es[until].now;
      LockHolds(l, ms, es, key, from, until - 1);
      StepKeepsLock(l, ms[until - 1], es[until - 1], key);
    }
  }

  // A failure that uses up the attempts locks the key out for the whole lockout: whatever comes in between, no
  // attempt passes before it ends, unless a success or a clear lifts the lock.
  lemma FailureLocksOut(l: Limits, ms: seq<Lockouts>, es: seq<Event>, key: string, from: nat, until: nat)
    requires Follows(l, ms, es) && Ordered(es) && from < until < |es|
    requires es[from].Fails? && es[from].key == key
    requires if key in ms[from] then ms[from][key].failures >= l.maxLoginAttempts && ms[from][key].lockedUntil == 0
             else l.maxLoginAttempts <= 1
    requires es[until].now < es[from].now + l.lockoutMs
    requires forall i | from < i < until :: !Resets(es[i], key)
    ensures !Grants(l, ms[until], key, es[until].now) && Locked(l, ms[until], key, es[until].now)
  {
    assert ms[from + 1] == Failed(l, ms[from], key, es[from].now);
    LockHolds(l, ms, es, key, from + 1, until);
  }

  predicate IsAttempt(l: Limits, m: Lockouts, e: Event, key: string) {
    IsGrant(l, m, e, key) || (e.Fails? && e.key == key)
  }

  predicate Sound(l: Limits, state: LockoutState) {
    && state.failures <= l.maxLoginAttempts
    && (state.lockedUntil != 0 ==> state.failures >= l.maxLoginAttempts && state.lockedUntil <= state.lastAttempt + l.lockoutMs)
  }

  lemma ReservedEntry(l: Limits, m: Lockouts, at: string, now: nat, key: string)
    requires l.maxLoginAttempts >= 1 && key in Reserved(l, m, at, now)
    requires key in m ==> Sound(l, m[key]) && m[key].lastAttempt <= now
    ensures var state := Reserved(l, m, at, now)[key];
            && Sound(l, state)
            && ((at == key && Grants(l, m, key, now) && state.lastAttempt == now) || (key in m && state.lastAttempt == m[key].lastAttempt))
  {
    if at == key {
      assert Entered(l, m, key, now)[key] == if key in m && !IsExpired(l, m[key], now) then m[key] else LockoutState(0, 0, now);
    }
  }

  lemma StepEntry(l: Limits, m: Lockouts, e: Event, key: string)
    requires l.maxLoginAttempts >= 1 && key in Step(l, m, e)
    requires key in m ==> Sound(l, m[key]) && m[key].lastAttempt <= e.now
    ensures var state := Step(l, m, e)[key];
            && Sound(l, state)
            && ((IsAttempt(l, m, e, key) && state.lastAttempt == e.now) || (key in m && state.lastAttempt == m[key].lastAttempt))
  {
    if e.Reserves? {
      ReservedEntry(l, m, e.key, e.now, key);
    }
  }

  // Every entry comes from an attempt of its key, made when the entry says.
  lemma {:induction false} EntryHasAttempt(l: Limits, ms: seq<Lockouts>, es: seq<Event>, key: string, n: nat) returns (i: nat)
    requires Follows(l, ms, es) && Ordered(es) && n < |ms| && key in ms[n] && l.maxLoginAttempts >= 1
    ensures Sound(l, ms[n][key])
    ensures i < n && IsAttempt(l, ms[i], es[i], key) && es[i].now == ms[n][key].lastAttempt
  {
    var m, e := ms[n - 1], es[n - 1];
    i := n - 1;
    if key in m {
      i := EntryHasAttempt(l, ms, es, key, n - 1);
      assert es[i].now <= e.now;
    }
    StepEntry(l, m, e, key);
    if IsAttempt(l, m, e, key) && ms[n][key].lastAttempt == e.now {
      i := n - 1;
    }
  }

  // An attempt is refused only while the key was tried within the lockout: no key blocks for longer after its last attempt.
  lemma RefusalsAreRecent(l: Limits, ms: seq<Lockouts>, es: seq<Event>, n: nat) returns (i: nat)
    requires Follows(l, ms, es) && Ordered(es) && n < |es| && l.maxLoginAttempts >= 1
    requires es[n].Reserves? && !Grants(l, ms[n], es[n].key, es[n].now)
    ensures i < n && IsAttempt(l, ms[i], es[i], es[n].key) && es[n].now - es[i].now < l.lockoutMs
  {
    i := EntryHasAttempt(l, ms, es, es[n].key, n);
  }

  // ------------------------------------------------------------ no refusal unearned

  // What the steps from `from` on count for a key: the attempts let through, and one for a failure they begin with.
  ghost function Counted(granted: seq<bool>, es: seq<Event>, key: string, from: nat, until: nat): nat
    requires from < until <= |es| == |granted|
  {
    CountTrue(granted, from, until) + if es[from].Fails? && es[from].key == key then 1 else 0
  }

  // Since step `from`, without a success or a clear, at least so many attempts were counted.
  ghost predicate CountedSince(granted: seq<bool>, es: seq<Event>, key: string, from: nat, until: nat, count: int)
    requires until <= |es| == |granted|
  {
    from < until && (forall i | from <= i < until :: !Resets(es[i], key)) && Counted(granted, es, key, from, until) >= count
  }

  lemma CountedOn(granted: seq<bool>, es: seq<Event>, key: string, from: nat, until: nat, count: int)
    requires until < |es| == |granted| && CountedSince(granted, es, key, from, until, count) && !Resets(es[until], key)
    ensures CountedSince(granted, es, key, from, until + 1, count + if granted[until] then 1 else 0)
  {
  }

  // An entry that was there counts one more for an attempt let through, and no other step adds to it.
  lemma StepAdds(l: Limits, m: Lockouts, e: Event, key: string)
    requires l.maxLoginAttempts >= 1 && key in Step(l, m, e)
    ensures var begins := key !in m || (e.Reserves? && e.key == key && IsExpired(l, m[key], e.now));
            if begins then Step(l, m, e)[key].failures == 1 && IsAttempt(l, m, e, key)
            else Step(l, m, e)[key].failures == m[key].failures + if IsGrant(l, m, e, key) then 1 else 0
    ensures !Resets(e, key)
  {
    if e.Reserves? && e.key == key {
      assert Entered(l, m, key, e.now)[key] == if key in m && !IsExpired(l, m[key], e.now) then m[key] else LockoutState(0, 0, e.now);
    } else if e.Reserves? {
      OthersReserve(l, m, e.key, e.now, key);
    }
  }

  lemma OthersReserve(l: Limits, m: Lockouts, at: string, now: int, key: string)
    requires key != at && key in Reserved(l, m, at, now)
    ensures key in m && Reserved(l, m, at, now)[key] == m[key]
  {
  }

  lemma StepAt(l: Limits, ms: seq<Lockouts>, es: seq<Event>, key: string, i: nat)
    requires Follows(l, ms, es) && i < |es|
    ensures ms[i + 1] == Step(l, ms[i], es[i]) && (Granted(l, ms, es, key)[i] <==> IsGrant(l, ms[i], es[i], key))
  {
  }

  lemma CountedFirst(granted: seq<bool>, es: seq<Event>, key: string, at: nat)
    requires at < |es| == |granted| && !Resets(es[at], key) && (granted[at] || (es[at].Fails? && es[at].key == key))
    ensures CountedSince(granted, es, key, at, at + 1, 1)
  {
    assert CountTrue(granted, at, at) == 0;
  }

  lemma {:induction false} EntryIsCounted(l: Limits, ms: seq<Lockouts>, es: seq<Event>, key: string, n: nat) returns (from: nat)
    requires Follows(l, ms, es) && n < |ms| && key in ms[n] && l.maxLoginAttempts >= 1
    ensures CountedSince(Granted(l, ms, es, key), es, key, from, n, ms[n][key].failures)
  {
    var granted, last := Granted(l, ms, es, key), n - 1;
    var m, e := ms[last], es[last];
    StepAt(l, ms, es, key, last);
    StepAdds(l, m, e, key);
    if key !in m || (e.Reserves? && e.key == key && IsExpired(l, m[key], e.now)) {
      from := last;
      CountedFirst(granted, es, key, last);
    } else {
      from := EntryIsCounted(l, ms, es, key, last);
      CountedOn(granted, es, key, from, last, m[key].failures);
    }
  }

  // An attempt is refused only after `maxLoginAttempts` were counted with no success and no clear in between: with
  // fewer, whether they failed or are still in flight, the next one is let through.
  lemma RefusalsAreEarned(l: Limits, ms: seq<Lockouts>, es: seq<Event>, n: nat)
    requires Follows(l, ms, es) && Ordered(es) && n < |es| && l.maxLoginAttempts >= 1
    requires es[n].Reserves? && !Granted(l, ms, es, es[n].key)[n]
    ensures exists from :: CountedSince(Granted(l, ms, es, es[n].key), es, es[n].key, from, n, l.maxLoginAttempts)
  {
    var key := es[n].key;
    var i := EntryHasAttempt(l, ms, es, key, n);
    var from := EntryIsCounted(l, ms, es, key, n);
    LowerCount(Granted(l, ms, es, key), es, key, from, n, ms[n][key].failures, l.maxLoginAttempts);
  }

  lemma {:induction false} LockComesFrom(l: Limits, ms: seq<Lockouts>, es: seq<Event>, key: string, n: nat) returns (i: nat)
    requires Follows(l, ms, es) && n < |ms| && key in ms[n] && ms[n][key].lockedUntil != 0
    ensures i < n && es[i].Fails? && es[i].key == key && ms[n][key].lockedUntil == es[i].now + l.lockoutMs
    ensures key in ms[i + 1] && ms[i + 1][key].failures >= l.maxLoginAttempts
  {
    i := n - 1;
    StepAt(l, ms, es, key, i);
    if key in ms[i] && ms[n][key].lockedUntil == ms[i][key].lockedUntil {
      i := LockComesFrom(l, ms, es, key, i);
    } else {
      LockIsSet(l, ms[i], es[i], key);
    }
  }

  // A lock comes from a failure with as many attempts counted, and lasts no longer than the lockout after it.
  lemma LocksAreEarned(l: Limits, ms: seq<Lockouts>, es: seq<Event>, key: string, n: nat) returns (i: nat, from: nat)
    requires Follows(l, ms, es) && n < |ms| && key in ms[n] && ms[n][key].lockedUntil != 0 && l.maxLoginAttempts >= 1
    ensures i < n && es[i].Fails? && es[i].key == key && ms[n][key].lockedUntil == es[i].now + l.lockoutMs
    ensures CountedSince(Granted(l, ms, es, key), es, key, from, i + 1, l.maxLoginAttempts)
  {
    i := LockComesFrom(l, ms, es, key, n);
    from := EntryIsCounted(l, ms, es, key, i + 1);
    LowerCount(Granted(l, ms, es, key), es, key, from, i + 1, ms[i + 1][key].failures, l.maxLoginAttempts);
  }

  lemma LowerCount(granted: seq<bool>, es: seq<Event>, key: string, from: nat, until: nat, count: int, less: int)
    requires until <= |es| == |granted| && CountedSince(granted, es, key, from, until, count) && less <= count
    ensures CountedSince(granted, es, key, from, until, less)
  {
  }

  lemma LockIsSet(l: Limits, m: Lockouts, e: Event, key: string)
    requires key in Step(l, m, e) && Step(l, m, e)[key].lockedUntil != 0 && !(key in m && m[key].lockedUntil == Step(l, m, e)[key].lockedUntil)
    ensures e.Fails? && e.key == key && Step(l, m, e)[key].lockedUntil == e.now + l.lockoutMs && Step(l, m, e)[key].failures >= l.maxLoginAttempts
  {
  }

  // ---------------------------------------------------------- counted since the last drop

  // The attempts granted since the key's entry was last dropped.
  ghost function SinceDrop(l: Limits, ms: seq<Lockouts>, es: seq<Event>, key: string, n: nat): nat
    requires |ms| == |es| + 1 && n < |ms|
  {
    if n == 0 || key !in ms[n] then 0
    else
      var m, e := ms[n - 1], es[n - 1];
      var kept := key in m && !(e.Reserves? && e.key == key && IsExpired(l, m[key], e.now));
      (if kept then SinceDrop(l, ms, es, key, n - 1) else 0) + if IsGrant(l, m, e, key) then 1 else 0
  }

  lemma StepCounted(l: Limits, m: Lockouts, e: Event, key: string, count: nat)
    requires l.maxLoginAttempts >= 1 && key in Step(l, m, e)
    requires key in m ==> count <= m[key].failures <= l.maxLoginAttempts
    ensures var kept := key in m && !(e.Reserves? && e.key == key && IsExpired(l, m[key], e.now));
            (if kept then count else 0) + (if IsGrant(l, m, e, key) then 1 else 0) <= Step(l, m, e)[key].failures <= l.maxLoginAttempts
  {
  }

  lemma {:induction false} GrantsAreCounted(l: Limits, ms: seq<Lockouts>, es: seq<Event>, key: string, n: nat)
    requires Follows(l, ms, es) && n < |ms| && key in ms[n] && l.maxLoginAttempts >= 1
    ensures SinceDrop(l, ms, es, key, n) <= ms[n][key].failures <= l.maxLoginAttempts
  {
    if key in ms[n - 1] {
      GrantsAreCounted(l, ms, es, key, n - 1);
    }
    StepCounted(l, ms[n - 1], es[n - 1], key, SinceDrop(l, ms, es, key, n - 1));
  }

  // ---------------------------------------------------------------------- sweeping

  // A sweep changes no answer to a reservation.
  lemma SweepKeepsAnswers(l: Limits, m: Lockouts, key: string, swept: int, now: int)
    requires swept <= now
    ensures Grants(l, Swept(l, m, swept), key, now) == Grants(l, m, key, now)
    ensures Reserved(l, Swept(l, m, swept), key, now)[key] == Reserved(l, m, key, now)[key]
  {
    assert Entered(l, Swept(l, m, swept), key, now)[key] == Entered(l, m, key, now)[key];
  }

  // It changes what a failure does exactly when that failure comes after its entry expired and the entry counts otherwise.
  lemma SweepAndFailure(l: Limits, m: Lockouts, key: string, swept: int, now: int)
    ensures Failed(l, Swept(l, m, swept), key, now)[key] != Failed(l, m, key, now)[key]
       <==> key in m && IsExpired(l, m[key], swept) && m[key] != LockoutState(1, 0, m[key].lastAttempt)
            && !(l.maxLoginAttempts <= 1 && m[key] == LockoutState(1, now + l.lockoutMs, m[key].lastAttempt))
  {
  }

  // A new entry beside a thousand others leaves none of them that has expired: the map grows with the keys tried lately.
  lemma CrowdIsSwept(l: Limits, m: Lockouts, key: string, now: int, other: string)
    requires (key !in m || IsExpired(l, m[key], now)) && |m - {key}| >= 1000
    ensures other != key ==> (other in Reserved(l, m, key, now) <==> other in m && !IsExpired(l, m[other], now))
  {
  }
}
