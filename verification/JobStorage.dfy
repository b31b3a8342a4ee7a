// The in-memory job history: runs in the order they were saved, with a list of run ids per job kept beside
// them, and the bulk delete that works over its pages.
module JobStorage {
  import opened Text

  datatype Execution = Execution(id: string, jobId: string, status: string, startedAt: int, duration: Option<int>)

  type Executions = seq<Execution>

  type JobIndex = map<string, seq<string>>

  const RUNNING := "running"

  // ---------------------------------------------------------- the flat history

  function IndexOf(es: Executions, id: string): (r: Option<nat>)
    ensures r.Some? ==> r.value < |es| && es[r.value].id == id
    ensures r.None? ==> forall e | e in es :: e.id != id
  {
    if es == [] then None
    else if es[|es| - 1].id == id then Some(|es| - 1)
    else IndexOf(es[..|es| - 1], id)
  }

  // An id saved again keeps its place.
  function Saved(es: Executions, e: Execution): Executions {
    var i := IndexOf(es, e.id);
    if i.Some? then es[i.value := e] else es + [e]
  }

  function Without(es: Executions, gone: set<string>): (r: Executions)
    ensures forall e :: e in r <==> e in es && e.id !in gone
    ensures |r| <= |es|
  {
    if es == [] then []
    else
      var init, last := es[..|es| - 1], es[|es| - 1];
      assert es == init + [last];
      if last.id in gone then Without(init, gone) else Without(init, gone) + [last]
  }

  function JobIds(es: Executions, jobId: string): (r: seq<string>)
    ensures forall id :: id in r <==> exists e | e in es :: e.jobId == jobId && e.id == id
  {
    if es == [] then []
    else
      var init, last := es[..|es| - 1], es[|es| - 1];
      assert es == init + [last];
      if last.jobId == jobId then JobIds(init, jobId) + [last.id] else JobIds(init, jobId)
  }

  predicate Matches(e: Execution, jobId: string, status: Option<string>) {
    e.jobId == jobId && (status.GetOr("") == "" || e.status == status.value)
  }

  // The runs of a job with a status, newest first.
  function Listed(es: Executions, jobId: string, status: Option<string>): (r: Executions)
    ensures forall e :: e in r <==> e in es && Matches(e, jobId, status)
  {
    if es == [] then []
    else
      var init, last := es[..|es| - 1], es[|es| - 1];
      assert es == init + [last];
      if Matches(last, jobId, status) then [last] + Listed(init, jobId, status) else Listed(init, jobId, status)
  }

  // JavaScript's slice: past the end there is nothing.
  function Slice<T>(s: seq<T>, from: nat, until: nat): seq<T> {
    if from >= |s| || until <= from then [] else if until >= |s| then s[from..] else s[from..until]
  }

  ghost predicate DistinctIds(es: Executions) {
    forall i, j | 0 <= i < j < |es| :: es[i].id != es[j].id
  }

  // ----------------------------------------------------------------- the index

  function IdsIn(index: JobIndex, jobId: string): seq<string> {
    if jobId in index then index[jobId] else []
  }

  ghost predicate Indexed(index: JobIndex, es: Executions) {
    forall jobId :: IdsIn(index, jobId) == JobIds(es, jobId)
  }

  function IndexedOnSave(index: JobIndex, e: Execution): JobIndex {
    var list := IdsIn(index, e.jobId);
    index[e.jobId := if e.id in list then list else list + [e.id]]
  }

  function RemoveId(ids: seq<string>, id: string): (r: seq<string>)
  {
    if ids == [] then [] else if ids[0] == id then ids[1..] else [ids[0]] + RemoveId(ids[1..], id)
  }

  function IndexedOnRemove(index: JobIndex, e: Execution): JobIndex {
    if e.jobId in index then index[e.jobId := RemoveId(index[e.jobId], e.id)] else index
  }

  // A run saved again stays with its job.
  ghost predicate KeepsJob(es: Executions, e: Execution) {
    forall before | before in es && before.id == e.id :: before.jobId == e.jobId
  }

  lemma AtIndex(es: Executions, i: nat)
    requires DistinctIds(es) && i < |es|
    ensures IndexOf(es, es[i].id) == Some(i)
  {
  }

  lemma SavedIsDistinct(es: Executions, e: Execution)
    requires DistinctIds(es)
    ensures DistinctIds(Saved(es, e))
    ensures forall x :: x in Saved(es, e) <==> x == e || (x in es && x.id != e.id)
  {
    var i := IndexOf(es, e.id);
    if i.Some? {
      forall x ensures x in Saved(es, e) <==> x == e || (x in es && x.id != e.id) {
        if x in es && x.id != e.id {
          var k :| 0 <= k < |es| && es[k] == x;
          assert Saved(es, e)[k] == x;
        }
        assert Saved(es, e)[i.value] == e;
      }
    }
  }

  lemma {:induction false} JobIdsOfUpdate(es: Executions, i: nat, e: Execution, jobId: string)
    requires i < |es| && es[i].id == e.id && es[i].jobId == e.jobId
    ensures JobIds(es[i := e], jobId) == JobIds(es, jobId)
  {
    var after := es[i := e];
    if i < |es| - 1 {
      JobIdsOfUpdate(es[..|es| - 1], i, e, jobId);
      assert after[..|es| - 1] == es[..|es| - 1][i := e];
    } else {
      assert after[..|es| - 1] == es[..|es| - 1];
    }
  }

  lemma JobIdsOfAppend(es: Executions, e: Execution, jobId: string)
    ensures JobIds(es + [e], jobId) == if e.jobId == jobId then JobIds(es, jobId) + [e.id] else JobIds(es, jobId)
  {
    assert (es + [e])[..|es|] == es;
  }

  // Saving keeps the index right exactly when no run changes its job.
  lemma SaveKeepsIndex(index: JobIndex, es: Executions, e: Execution)
    requires DistinctIds(es) && Indexed(index, es)
    ensures Indexed(IndexedOnSave(index, e), Saved(es, e)) <==> KeepsJob(es, e)
  {
    var i := IndexOf(es, e.id);
    if i.None? {
      forall jobId ensures IdsIn(IndexedOnSave(index, e), jobId) == JobIds(es + [e], jobId) {
        JobIdsOfAppend(es, e, jobId);
      }
    } else if es[i.value].jobId == e.jobId {
      forall k | 0 <= k < |es| && es[k].id == e.id ensures k == i.value { AtIndex(es, k); }
      assert es[i.value] in es && e.id in JobIds(es, e.jobId);
      forall jobId ensures IdsIn(IndexedOnSave(index, e), jobId) == JobIds(Saved(es, e), jobId) {
        JobIdsOfUpdate(es, i.value, e, jobId);
      }
    } else {
      var before := es[i.value];
      assert before in es && !KeepsJob(es, e);
      SavedIsDistinct(es, e);
      assert e.id in JobIds(es, before.jobId) && e.id !in JobIds(Saved(es, e), before.jobId);
      assert IdsIn(IndexedOnSave(index, e), before.jobId) == IdsIn(index, before.jobId);
    }
  }

  lemma {:induction false} WithoutIsDistinct(es: Executions, gone: set<string>)
    requires DistinctIds(es)
    ensures DistinctIds(Without(es, gone))
  {
    if es != [] {
      WithoutIsDistinct(es[..|es| - 1], gone);
      assert forall e | e in es[..|es| - 1] :: e.id != es[|es| - 1].id;
    }
  }

  lemma {:induction false} WithoutTwice(es: Executions, a: set<string>, b: set<string>)
    ensures Without(Without(es, a), b) == Without(es, a + b)
  {
    if es != [] {
      var init, last := es[..|es| - 1], es[|es| - 1];
      WithoutTwice(init, a, b);
      if last.id !in a {
        assert (Without(init, a) + [last])[..|Without(init, a)|] == Without(init, a);
      }
    }
  }

  lemma {:induction false} WithoutNone(es: Executions, gone: set<string>)
    requires forall e | e in es :: e.id !in gone
    ensures Without(es, gone) == es
  {
    if es != [] {
      var init, last := es[..|es| - 1], es[|es| - 1];
      WithoutNone(init, gone);
      assert es == init + [last] && last in es;
    }
  }

  lemma {:induction false} RemoveLast(ids: seq<string>, id: string)
    requires id !in ids
    ensures RemoveId(ids + [id], id) == ids
  {
    if ids != [] {
      RemoveLast(ids[1..], id);
      assert (ids + [id])[1..] == ids[1..] + [id];
    }
  }

  lemma {:induction false} RemoveBefore(ids: seq<string>, last: string, id: string)
    requires last != id
    ensures RemoveId(ids + [last], id) == RemoveId(ids, id) + [last]
  {
    if ids != [] {
      RemoveBefore(ids[1..], last, id);
      assert (ids + [last])[1..] == ids[1..] + [last];
    }
  }

  lemma {:induction false} RemoveAbsent(ids: seq<string>, id: string)
    requires id !in ids
    ensures RemoveId(ids, id) == ids
  {
    if ids != [] {
      RemoveAbsent(ids[1..], id);
    }
  }

  lemma {:induction false} JobIdsWithout(es: Executions, id: string, jobId: string)
    requires DistinctIds(es)
    ensures JobIds(Without(es, {id}), jobId) == RemoveId(JobIds(es, jobId), id)
  {
    if es != [] {
      var init, last := es[..|es| - 1], es[|es| - 1];
      JobIdsWithout(init, id, jobId);
      if last.id == id {
        WithoutNone(init, {id});
        RemoveAbsent(JobIds(init, jobId), id);
        RemoveLast(JobIds(init, jobId), id);
      } else {
        JobIdsOfAppend(Without(init, {id}), last, jobId);
        RemoveBefore(JobIds(init, jobId), last.id, id);
      }
    }
  }

  lemma OtherJobsLackId(es: Executions, i: nat, jobId: string)
    requires DistinctIds(es) && i < |es| && es[i].jobId != jobId
    ensures es[i].id !in JobIds(es, jobId)
  {
    forall other | other in es && other.jobId == jobId ensures other.id != es[i].id {
      var k :| 0 <= k < |es| && es[k] == other;
    }
  }

  lemma RemoveKeepsIndex(index: JobIndex, es: Executions, i: nat)
    requires DistinctIds(es) && Indexed(index, es) && i < |es|
    ensures Indexed(IndexedOnRemove(index, es[i]), Without(es, {es[i].id}))
  {
    var e := es[i];
    forall jobId ensures IdsIn(IndexedOnRemove(index, e), jobId) == JobIds(Without(es, {e.id}), jobId) {
      JobIdsWithout(es, e.id, jobId);
      if jobId != e.jobId {
        OtherJobsLackId(es, i, jobId);
        RemoveAbsent(JobIds(es, jobId), e.id);
      }
    }
  }

  // ------------------------------------------------------------------- queries

  function Reversed(es: Executions): (r: Executions)
    ensures |r| == |es|
  {
    if es == [] then [] else [es[|es| - 1]] + Reversed(es[..|es| - 1])
  }

  function WithStatus(es: Executions, status: Option<string>): Executions {
    if es == [] then []
    else (if status.GetOr("") == "" || es[0].status == status.value then [es[0]] else []) + WithStatus(es[1..], status)
  }

  // The runs the ids of a job name, as far as they are stored.
  function Looked(es: Executions, ids: seq<string>): Executions {
    if ids == [] then []
    else
      var rest, i := Looked(es, ids[..|ids| - 1]), IndexOf(es, ids[|ids| - 1]);
      if i.Some? then rest + [es[i.value]] else rest
  }

  lemma {:induction false} LookedInMore(es: Executions, e: Execution, ids: seq<string>)
    requires e.id !in ids
    ensures Looked(es + [e], ids) == Looked(es, ids)
  {
    if ids != [] {
      LookedInMore(es, e, ids[..|ids| - 1]);
      assert ids[|ids| - 1] in ids && (es + [e])[..|es|] == es;
    }
  }

  function OfJob(es: Executions, jobId: string): Executions {
    if es == [] then []
    else
      var init, last := es[..|es| - 1], es[|es| - 1];
      if last.jobId == jobId then OfJob(init, jobId) + [last] else OfJob(init, jobId)
  }

  lemma LookedUpLast(es: Executions, ids: seq<string>, id: string)
    ensures Looked(es, ids + [id]) == match IndexOf(es, id) case Some(i) => Looked(es, ids) + [es[i]] case None => Looked(es, ids)
  {
    assert (ids + [id])[..|ids|] == ids;
  }

  lemma LastIsNew(es: Executions, jobId: string)
    requires DistinctIds(es) && es != []
    ensures es[|es| - 1].id !in JobIds(es[..|es| - 1], jobId)
  {
    assert forall e | e in es[..|es| - 1] :: e.id != es[|es| - 1].id;
  }

  lemma {:induction false} IndexFindsJob(es: Executions, jobId: string)
    requires DistinctIds(es)
    ensures Looked(es, JobIds(es, jobId)) == OfJob(es, jobId)
  {
    if es != [] {
      var init, last := es[..|es| - 1], es[|es| - 1];
      IndexFindsJob(init, jobId);
      LastIsNew(es, jobId);
      LookedInMore(init, last, JobIds(init, jobId));
      assert es == init + [last];
      if last.jobId == jobId {
        LookedUpLast(es, JobIds(init, jobId), last.id);
      }
    }
  }

  lemma {:induction false} ListedIsOfJob(es: Executions, jobId: string, status: Option<string>)
    ensures WithStatus(Reversed(OfJob(es, jobId)), status) == Listed(es, jobId, status)
  {
    if es != [] {
      var init, last := es[..|es| - 1], es[|es| - 1];
      ListedIsOfJob(init, jobId, status);
      var found := OfJob(init, jobId);
      if last.jobId == jobId {
        assert (found + [last])[..|found|] == found;
        assert ([last] + Reversed(found))[1..] == Reversed(found);
      }
    }
  }

  // Through the index, the runs of a job are found as if the whole history were read.
  lemma IndexFindsAll(es: Executions, jobId: string, status: Option<string>)
    requires DistinctIds(es)
    ensures WithStatus(Reversed(Looked(es, JobIds(es, jobId))), status) == Listed(es, jobId, status)
  {
    IndexFindsJob(es, jobId);
    ListedIsOfJob(es, jobId, status);
  }

  class InMemoryJobStorageProvider {
    var executions: Executions
    var jobExecutions: JobIndex

    ghost predicate Valid()
      reads this
    {
      DistinctIds(executions) && Indexed(jobExecutions, executions)
    }

    constructor ()
      ensures Valid() && executions == []
    {
      executions, jobExecutions := [], map[];
    }

    // The index stays right exactly when no run changes its job.
    method SaveExecution(e: Execution)
      requires DistinctIds(executions)
      modifies this
      ensures DistinctIds(executions) && executions == Saved(old(executions), e)
      ensures jobExecutions == IndexedOnSave(old(jobExecutions), e)
      ensures old(Valid()) ==> (Valid() <==> KeepsJob(old(executions), e))
    {
      if Valid() { SaveKeepsIndex(jobExecutions, executions, e); }
      SavedIsDistinct(executions, e);
      executions := Saved(executions, e);
      var list := IdsIn(jobExecutions, e.jobId);
      if e.id !in list {
        list := list + [e.id];
      }
      jobExecutions := jobExecutions[e.jobId := list];
    }

    method GetExecution(id: string) returns (r: Option<Execution>)
      ensures r.Some? ==> r.value in executions && r.value.id == id
      ensures r.None? ==> forall e | e in executions :: e.id != id
    {
      var i := IndexOf(executions, id);
      r := if i.Some? then Some(executions[i.value]) else None;
    }

    // A page of a job's runs, newest first, and how many there are.
    method GetExecutions(jobId: string, offset: nat, limit: nat, status: Option<string>) returns (items: Executions, total: nat)
      requires Valid()
      ensures var all := Listed(executions, jobId, status); items == Slice(all, offset, offset + limit) && total == |all|
    {
      var ids := IdsIn(jobExecutions, jobId);
      var found := WithStatus(Reversed(Looked(executions, ids)), status);
      IndexFindsAll(executions, jobId, status);
      return Slice(found, offset, offset + limit), |found|;
    }

    method Remove(id: string) returns (removed: bool)
      requires Valid()
      modifies this
      ensures Valid() && executions == Without(old(executions), {id})
      ensures removed <==> exists e | e in old(executions) :: e.id == id
    {
      var i := IndexOf(executions, id);
      if i.None? {
        WithoutNone(executions, {id});
        return false;
      }
      var e := executions[i.value];
      RemoveKeepsIndex(jobExecutions, executions, i.value);
      WithoutIsDistinct(executions, {id});
      executions := Without(executions, {id});
      if e.jobId in jobExecutions {
        jobExecutions := jobExecutions[e.jobId := RemoveId(jobExecutions[e.jobId], id)];
      }
      return true;
    }

    method Prune(before: int) returns (removed: nat)
      requires Valid()
      modifies this
      ensures Valid() && executions == Without(old(executions), StartedBefore(old(executions), before))
      ensures removed == |old(executions)| - |executions|
    {
      var all := executions;
      removed := 0;
      WithoutNone(all, {});
      assert StartedBefore(all[..0], before) == {};
      for i := 0 to |all|
        invariant Valid() && executions == Without(all, StartedBefore(all[..i], before))
        invariant removed == |all| - |executions|
      {
        PruneStep(all, i, before);
        if all[i].startedAt < before {
          var r := Remove(all[i].id);
          if r { removed := removed + 1; }
        }
      }
      assert all[..|all|] == all;
    }
  }

  function StartedBefore(es: Executions, before: int): set<string> {
    set e | e in es && e.startedAt < before :: e.id
  }

  lemma {:induction false} WithoutOne(es: Executions, i: nat)
    requires DistinctIds(es) && i < |es|
    ensures |Without(es, {es[i].id})| == |es| - 1
  {
    var init, last := es[..|es| - 1], es[|es| - 1];
    if i == |es| - 1 {
      forall e | e in init ensures e.id !in {last.id} {
        var k :| 0 <= k < |init| && init[k] == e;
        assert es[k].id != last.id;
      }
      WithoutNone(init, {last.id});
      assert Without(es, {last.id}) == init;
    } else {
      WithoutOne(init, i);
      assert init[i] == es[i] && last.id !in {es[i].id};
    }
  }

  // One more run of the history looked at: removed when it is old, and it was still there to remove.
  lemma PruneStep(all: Executions, i: nat, before: int)
    requires DistinctIds(all) && i < |all|
    ensures var now := Without(all, StartedBefore(all[..i], before));
            if all[i].startedAt < before
            then all[i] in now && Without(now, {all[i].id}) == Without(all, StartedBefore(all[..i + 1], before))
                 && |Without(now, {all[i].id})| == |now| - 1
            else StartedBefore(all[..i + 1], before) == StartedBefore(all[..i], before)
  {
    var gone := StartedBefore(all[..i], before);
    StartedBeforeNext(all, i, before);
    if all[i].startedAt < before {
      assert all[i].id !in gone;
      assert all[i] in Without(all, gone);
      WithoutOneOf(all, gone, all[i]);
    }
  }

  lemma StartedBeforeNext(all: Executions, i: nat, before: int)
    requires i < |all|
    ensures StartedBefore(all[..i + 1], before)
            == StartedBefore(all[..i], before) + if all[i].startedAt < before then {all[i].id} else {}
  {
    assert all[..i + 1] == all[..i] + [all[i]];
  }

  // ------------------------------------------------------------ order and pages

  // What is listed is the history read backwards: at falling positions.
  lemma {:induction false} ListedNewestFirst(es: Executions, jobId: string, status: Option<string>) returns (at: seq<nat>)
    ensures |at| == |Listed(es, jobId, status)|
    ensures forall i | 0 <= i < |at| :: at[i] < |es| && es[at[i]] == Listed(es, jobId, status)[i]
    ensures forall i, k | 0 <= i < k < |at| :: at[i] > at[k]
  {
    at := [];
    if es != [] {
      at := ListedNewestFirst(es[..|es| - 1], jobId, status);
      if Matches(es[|es| - 1], jobId, status) { at := [|es| - 1] + at; }
    }
  }

  // A page holds what comes from its offset on, as far as its limit and the list go.
  lemma PageIs<T>(s: seq<T>, offset: nat, limit: nat)
    ensures var page := Slice(s, offset, offset + limit);
            && |page| == (if offset >= |s| then 0 else if offset + limit >= |s| then |s| - offset else limit)
            && forall k | 0 <= k < |page| :: page[k] == s[offset + k]
  {
  }

  // A run saved again takes its old place; a new one comes last.
  lemma SavedInPlace(es: Executions, e: Execution)
    requires DistinctIds(es)
    ensures if exists x | x in es :: x.id == e.id
            then |Saved(es, e)| == |es| && forall k | 0 <= k < |es| :: Saved(es, e)[k] == if es[k].id == e.id then e else es[k]
            else Saved(es, e) == es + [e]
  {
    var i := IndexOf(es, e.id);
    if i.Some? { assert es[i.value] in es; }
  }

  // Pruning leaves the runs that did not start before the date.
  lemma PruneLeaves(es: Executions, before: int, e: Execution)
    requires DistinctIds(es)
    ensures e in Without(es, StartedBefore(es, before)) <==> e in es && e.startedAt >= before
  {
    if e in es && e.startedAt >= before {
      forall x | x in es && x.startedAt < before ensures x.id != e.id {
        if x.id == e.id { SameIdSameRun(es, x, e); }
      }
    }
  }

  // ----------------------------------------------------------------- bulk delete

  datatype DeleteError = JobNotFound | ExecutionNotFound | ExecutionRunning

  const DELETE_PAGE_SIZE := 100

  predicate Deletable(e: Execution, jobId: string, status: Option<string>, active: set<string>) {
    Matches(e, jobId, status) && e.status != RUNNING && e.id !in active
  }

  function DeletableIds(es: Executions, jobId: string, status: Option<string>, active: set<string>): set<string> {
    set e | e in es && Deletable(e, jobId, status, active) :: e.id
  }

  function FinishedIds(es: Executions): (r: seq<string>)
    ensures forall id :: id in r <==> exists e | e in es :: e.status != RUNNING && e.id == id
  {
    if es == [] then []
    else (if es[0].status != RUNNING then [es[0].id] else []) + FinishedIds(es[1..])
  }

  lemma {:induction false} FinishedOfConcat(a: Executions, b: Executions)
    ensures FinishedIds(a + b) == FinishedIds(a) + FinishedIds(b)
  {
    if a == [] {
      assert a + b == b;
    } else {
      FinishedOfConcat(a[1..], b);
      assert (a + b)[1..] == a[1..] + b;
    }
  }

  function Upto<T>(s: seq<T>, n: nat): seq<T> {
    if n > |s| then s else s[..n]
  }

  lemma NextPage(all: Executions, offset: nat)
    ensures FinishedIds(Upto(all, offset + DELETE_PAGE_SIZE))
            == FinishedIds(Upto(all, offset)) + FinishedIds(Slice(all, offset, offset + DELETE_PAGE_SIZE))
  {
    var page := Slice(all, offset, offset + DELETE_PAGE_SIZE);
    FinishedOfConcat(Upto(all, offset), page);
    assert Upto(all, offset) + page == Upto(all, offset + DELETE_PAGE_SIZE);
  }

  lemma SameIdSameRun(es: Executions, a: Execution, b: Execution)
    requires DistinctIds(es) && a in es && b in es && a.id == b.id
    ensures a == b
  {
    var i :| 0 <= i < |es| && es[i] == a;
    var j :| 0 <= j < |es| && es[j] == b;
  }

  predicate HasRun(es: Executions, id: string, jobId: string) {
    exists e | e in es :: e.id == id && e.jobId == jobId
  }

  predicate CanDelete(es: Executions, id: string, jobId: string, active: set<string>) {
    exists e | e in es :: e.id == id && Deletable(e, jobId, None, active)
  }

  // What the deletes of `ids` have taken out.
  function TakenOut(all: Executions, ids: seq<string>, jobId: string, active: set<string>): set<string> {
    set e | e in all && e.id in ids && Deletable(e, jobId, None, active) :: e.id
  }

  lemma TakenOutNext(all: Executions, ids: seq<string>, i: nat, jobId: string, active: set<string>)
    requires i < |ids|
    ensures TakenOut(all, ids[..i + 1], jobId, active)
            == TakenOut(all, ids[..i], jobId, active) + if CanDelete(all, ids[i], jobId, active) then {ids[i]} else {}
  {
    assert ids[..i + 1] == ids[..i] + [ids[i]];
  }

  lemma WithoutOneOf(all: Executions, gone: set<string>, e: Execution)
    requires DistinctIds(all) && e in Without(all, gone)
    ensures Without(Without(all, gone), {e.id}) == Without(all, gone + {e.id})
    ensures |Without(all, gone + {e.id})| == |Without(all, gone)| - 1
  {
    var now := Without(all, gone);
    WithoutTwice(all, gone, {e.id});
    WithoutIsDistinct(all, gone);
    var k :| 0 <= k < |now| && now[k] == e;
    WithoutOne(now, k);
  }

  // A run is still there to delete unless it was taken out before.
  lemma TakenOutStep(all: Executions, ids: seq<string>, i: nat, jobId: string, active: set<string>)
    requires DistinctIds(all) && i < |ids|
    ensures var gone := TakenOut(all, ids[..i], jobId, active);
            var now := Without(all, gone);
            if CanDelete(now, ids[i], jobId, active)
            then Without(now, {ids[i]}) == Without(all, TakenOut(all, ids[..i + 1], jobId, active))
                 && |Without(now, {ids[i]})| == |now| - 1
            else TakenOut(all, ids[..i + 1], jobId, active) == gone
  {
    var gone := TakenOut(all, ids[..i], jobId, active);
    var now := Without(all, gone);
    TakenOutNext(all, ids, i, jobId, active);
    if CanDelete(now, ids[i], jobId, active) {
      var e :| e in now && e.id == ids[i] && Deletable(e, jobId, None, active);
      WithoutOneOf(all, gone, e);
    } else if CanDelete(all, ids[i], jobId, active) {
      assert ids[i] in gone;
      assert gone + {ids[i]} == gone;
    }
  }

  // All finished runs listed, together: those that may be deleted.
  lemma TakenOutAll(all: Executions, jobId: string, status: Option<string>, active: set<string>)
    requires DistinctIds(all)
    ensures TakenOut(all, FinishedIds(Listed(all, jobId, status)), jobId, active) == DeletableIds(all, jobId, status, active)
  {
    var ids := FinishedIds(Listed(all, jobId, status));
    forall e | e in all && e.id in ids ensures Matches(e, jobId, status) {
      var listed :| listed in Listed(all, jobId, status) && listed.id == e.id;
      SameIdSameRun(all, e, listed);
    }
  }

  // One delete takes a run of the job that is finished and that nothing executes.
  lemma DeleteNeeds(es: Executions, id: string, jobId: string, active: set<string>)
    ensures CanDelete(es, id, jobId, active) <==> id !in active && exists e | e in es :: e.id == id && e.jobId == jobId && e.status != "running"
  {
  }

  // A bulk delete leaves the runs of other jobs and of other statuses, those that are running and those executed now.
  lemma BulkDeleteLeaves(es: Executions, jobId: string, status: Option<string>, active: set<string>, e: Execution)
    requires DistinctIds(es)
    ensures e in Without(es, DeletableIds(es, jobId, status, active))
       <==> e in es && (e.jobId != jobId || (status.Some? && status.value != "" && e.status != status.value)
                        || e.status == "running" || e.id in active)
  {
    if e in es && !Deletable(e, jobId, status, active) {
      forall x | x in es && Deletable(x, jobId, status, active) ensures x.id != e.id {
        if x.id == e.id { SameIdSameRun(es, x, e); }
      }
    }
  }

  // The scheduler's deletes: `active` has, for each registered job, the runs that execute now.
  class JobHistory {
    const storage: InMemoryJobStorageProvider
    var active: map<string, set<string>>

    constructor (storage: InMemoryJobStorageProvider)
      ensures this.storage == storage
    {
      this.storage := storage;
      active := map[];
    }

    method DeleteExecution(jobId: string, id: string) returns (r: Result<(), DeleteError>)
      requires storage.Valid()
      modifies storage
      ensures storage.Valid()
      ensures r.Success? <==> jobId in active && CanDelete(old(storage.executions), id, jobId, active[jobId])
      ensures r == Failure(JobNotFound) <==> jobId !in active
      ensures r == Failure(ExecutionNotFound) <==> jobId in active && !HasRun(old(storage.executions), id, jobId)
      ensures storage.executions == if r.Success? then Without(old(storage.executions), {id}) else old(storage.executions)
    {
      if jobId !in active {
        return Failure(JobNotFound);
      }
      var e := storage.GetExecution(id);
      forall other | e.Some? && other in storage.executions && other.id == id ensures other == e.value {
        SameIdSameRun(storage.executions, e.value, other);
      }
      if e.None? || e.value.jobId != jobId {
        return Failure(ExecutionNotFound);
      }
      if e.value.status == RUNNING || id in active[jobId] {
        return Failure(ExecutionRunning);
      }
      var removed := storage.Remove(id);
      return Success(());
    }

    // The ids of a job's finished runs, read page by page.
    method FinishedRuns(jobId: string, status: Option<string>) returns (ids: seq<string>)
      requires storage.Valid()
      ensures ids == FinishedIds(Listed(storage.executions, jobId, status))
    {
      ghost var all := Listed(storage.executions, jobId, status);
      ids := [];
      var offset: nat := 0;
      var more := true;
      while more
        invariant ids == FinishedIds(Upto(all, offset))
        invariant !more ==> offset >= |all|
        decreases more, |all| - offset
      {
        var items, total := storage.GetExecutions(jobId, offset, DELETE_PAGE_SIZE, status);
        NextPage(all, offset);
        ids := ids + FinishedIds(items);
        more := !(|items| < DELETE_PAGE_SIZE || offset + DELETE_PAGE_SIZE >= total);
        offset := offset + DELETE_PAGE_SIZE;
      }
      assert Upto(all, offset) == all;
    }

    method DeleteExecutions(jobId: string, status: Option<string>) returns (r: Result<nat, DeleteError>)
      requires storage.Valid()
      modifies storage
      ensures storage.Valid()
      ensures r == if jobId in active then Success(|old(storage.executions)| - |storage.executions|) else Failure(JobNotFound)
      ensures storage.executions == if jobId in active
                                    then Without(old(storage.executions), DeletableIds(old(storage.executions), jobId, status, active[jobId]))
                                    else old(storage.executions)
    {
      if jobId !in active {
        return Failure(JobNotFound);
      }
      ghost var all := storage.executions;
      var ids := FinishedRuns(jobId, status);
      var deleted := 0;
      WithoutNone(all, {});
      assert TakenOut(all, ids[..0], jobId, active[jobId]) == {};
      TakenOutAll(all, jobId, status, active[jobId]);
      for i := 0 to |ids|
        invariant storage.Valid()
        invariant storage.executions == Without(all, TakenOut(all, ids[..i], jobId, active[jobId]))
        invariant deleted == |all| - |storage.executions|
      {
        TakenOutStep(all, ids, i, jobId, active[jobId]);
        var one := DeleteExecution(jobId, ids[i]);
        if one.Success? {
          deleted := deleted + 1;
        }
      }
      assert ids[..|ids|] == ids;
      return Success(deleted);
    }
  }
}
