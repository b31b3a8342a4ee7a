// The slots that bound concurrent password hashing: taken, waited for, and handed over when a computation ends.
module HashSlots {

  const PBKDF2_CONCURRENCY := 4

  // The counter and the queue, with the calls that hold a slot and, in order, all that ever started.
  datatype State = State(active: int, waiters: seq<nat>, holders: set<nat>, started: seq<nat>)

  // Call `id` arrives, or a computation that holds a slot ends (with a result or an error alike).
  datatype Event = Arrives(id: nat) | Ends(id: nat)

  predicate Enabled(s: State, e: Event) {
    match e
    case Arrives(id) => id !in s.started && id !in s.waiters
    case Ends(id) => id in s.holders
  }

  function Step(s: State, e: Event): State
    requires Enabled(s, e)
  {
    match e
    case Arrives(id) =>
      if s.active >= PBKDF2_CONCURRENCY then s.(waiters := s.waiters + [id])
      else s.(active := s.active + 1, holders := s.holders + {id}, started := s.started + [id])
    case Ends(id) =>
      if s.waiters != [] then
        s.(waiters := s.waiters[1..], holders := s.holders - {id} + {s.waiters[0]}, started := s.started + [s.waiters[0]])
      else s.(active := s.active - 1, holders := s.holders - {id})
  }

  class HashSlots {
    var active: int
    var waiters: seq<nat>
    ghost var holders: set<nat>
    ghost var started: seq<nat>

    ghost function Snapshot(): State
      reads this
    {
      State(active, waiters, holders, started)
    }

    constructor ()
      ensures Snapshot() == State(0, [], {}, [])
    {
      active, waiters, holders, started := 0, [], {}, [];
    }

    // Takes a free slot, or waits behind everyone who waits already.
    method Arrive(id: nat)
      requires Enabled(Snapshot(), Arrives(id))
      modifies this
      ensures Snapshot() == Step(old(Snapshot()), Arrives(id))
    {
      if active >= PBKDF2_CONCURRENCY {
        waiters := waiters + [id];
      } else {
        active := active + 1;
        holders := holders + {id};
        started := started + [id];
      }
    }

    // Hands the slot to the call that waited longest, or frees it.
    method End(id: nat)
      requires Enabled(Snapshot(), Ends(id))
      modifies this
      ensures Snapshot() == Step(old(Snapshot()), Ends(id))
    {
      holders := holders - {id};
      if waiters != [] {
        var next := waiters[0];
        waiters := waiters[1..];
        holders := holders + {next};
        started := started + [next];
      } else {
        active := active - 1;
      }
    }
  }

  // ----------------------------------------------------------------- histories

  ghost predicate History(ss: seq<State>, es: seq<Event>) {
    && |ss| == |es| + 1 && ss[0] == State(0, [], {}, [])
    && forall i | 0 <= i < |es| :: Enabled(ss[i], es[i]) && ss[i + 1] == Step(ss[i], es[i])
  }

  ghost predicate Inv(s: State) {
    && s.active == |s.holders| <= PBKDF2_CONCURRENCY
    && (s.waiters != [] ==> s.active == PBKDF2_CONCURRENCY)
    && (forall h | h in s.holders :: h in s.started)
    && (forall w | w in s.waiters :: w !in s.started)
    && (forall i, j | 0 <= i < j < |s.waiters| :: s.waiters[i] != s.waiters[j])
  }

  lemma StepKeepsInv(s: State, e: Event)
    requires Inv(s) && Enabled(s, e)
    ensures Inv(Step(s, e))
  {
    if e.Ends? {
      assert |s.holders - {e.id}| == |s.holders| - 1;
      if s.waiters != [] {
        assert s.waiters[0] !in s.holders - {e.id};
      }
    }
  }

  // A step adds the call that arrives at the end of the line, and moves at most the head of the line on.
  lemma StepKeepsOrder(s: State, e: Event)
    requires Enabled(s, e) && (s.waiters != [] ==> s.active >= PBKDF2_CONCURRENCY)
    ensures var s' := Step(s, e);
            s'.started + s'.waiters == if e.Arrives? then s.started + s.waiters + [e.id] else s.started + s.waiters
  {
  }

  // The calls that came, in order.
  function Arrivals(es: seq<Event>): seq<nat> {
    if es == [] then []
    else if es[|es| - 1].Arrives? then Arrivals(es[..|es| - 1]) + [es[|es| - 1].id]
    else Arrivals(es[..|es| - 1])
  }

  // Every slot counted is held, at most four are, none is free while a call waits, and no newcomer overtakes a
  // waiter: the calls start in the order in which they came.
  lemma {:induction false} SlotsAreFair(ss: seq<State>, es: seq<Event>, n: nat)
    requires History(ss, es) && n <= |es|
    ensures Inv(ss[n]) && ss[n].started + ss[n].waiters == Arrivals(es[..n])
    ensures ss[n].active <= 4 && (ss[n].waiters != [] ==> ss[n].active == 4)
  {
    if n > 0 {
      SlotsAreFair(ss, es, n - 1);
      StepKeepsInv(ss[n - 1], es[n - 1]);
      StepKeepsOrder(ss[n - 1], es[n - 1]);
      assert es[..n][..n - 1] == es[..n - 1];
    }
  }

  lemma StepKeepsHolders(s: State, e: Event, ended: set<nat>)
    requires Inv(s) && Enabled(s, e) && forall id :: id in s.holders <==> id in s.started && id !in ended
    requires forall id | id in ended :: id in s.started
    ensures var s', ended' := Step(s, e), if e.Ends? then ended + {e.id} else ended;
            (forall id :: id in s'.holders <==> id in s'.started && id !in ended') && forall id | id in ended' :: id in s'.started
  {
  }

  // The calls that have ended in the first `n` steps.
  function Ended(es: seq<Event>, n: nat): set<nat>
    requires n <= |es|
  {
    if n == 0 then {} else if es[n - 1].Ends? then Ended(es, n - 1) + {es[n - 1].id} else Ended(es, n - 1)
  }

  // A slot is held by each call that has started and not ended, and by no other.
  lemma {:induction false} StartedHoldUntilEnded(ss: seq<State>, es: seq<Event>, n: nat)
    requires History(ss, es) && n <= |es|
    ensures forall id :: id in ss[n].holders <==> id in ss[n].started && id !in Ended(es, n)
    ensures forall id | id in Ended(es, n) :: id in ss[n].started
  {
    if n > 0 {
      StartedHoldUntilEnded(ss, es, n - 1);
      SlotsAreFair(ss, es, n - 1);
      StepKeepsHolders(ss[n - 1], es[n - 1], Ended(es, n - 1));
    }
  }
}
