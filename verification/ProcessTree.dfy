// The processes a shell started: a work list over an arbitrary process table, which may hold cycles,
// repeated rows and parents that are gone.
module ProcessTree {
  import opened Text

  datatype ProcessEntry = ProcessEntry(pid: int, ppid: int, pgid: int, sid: Option<int>)

  type Table = seq<ProcessEntry>

  // ------------------------------------------------------------ reachability

  ghost predicate ChildOf(table: Table, parent: int, child: int) {
    exists p | p in table :: p.ppid == parent && p.pid == child
  }

  // A chain of parent-to-child steps from a seed, entering `avoid` at no step.
  ghost predicate Descent(table: Table, seeds: seq<int>, path: seq<int>, avoid: Option<int>) {
    && path != []
    && path[0] in seeds
    && forall i | 0 < i < |path| :: ChildOf(table, path[i - 1], path[i]) && avoid != Some(path[i])
  }

  ghost predicate Reachable(table: Table, seeds: seq<int>, pid: int) {
    exists path :: Descent(table, seeds, path, None) && path[|path| - 1] == pid
  }

  ghost predicate ReachableAvoiding(table: Table, seeds: seq<int>, root: int, pid: int) {
    exists path :: Descent(table, seeds, path, Some(root)) && path[|path| - 1] == pid
  }

  // The server process, and its process group when the server is in the table.
  predicate IsServer(table: Table, server: int, pid: int) {
    || pid == server
    || match Find(table, server)
       case None => false
       case Some(own) => exists p | p in table :: p.pid == pid && p.pgid == own.pgid
  }

  function Find(table: Table, pid: int): (r: Option<ProcessEntry>)
    ensures r.Some? ==> r.value in table && r.value.pid == pid
    ensures r.None? ==> forall p | p in table :: p.pid != pid
  {
    if table == [] then None
    else if table[0].pid == pid then Some(table[0])
    else Find(table[1..], pid)
  }

  // --------------------------------------------------------------- work list

  function ChildList(table: Table, parent: int): (r: seq<int>)
    ensures forall c :: c in r <==> exists p | p in table :: p.ppid == parent && p.pid == c
  {
    if table == [] then []
    else
      var init, last := table[..|table| - 1], table[|table| - 1];
      assert table == init + [last];
      ChildList(init, parent) + if last.ppid == parent then [last.pid] else []
  }

  function ChildrenIn(children: map<int, seq<int>>, parent: int): seq<int> {
    if parent in children then children[parent] else []
  }

  ghost predicate ListsChildren(children: map<int, seq<int>>, table: Table) {
    forall k :: ChildrenIn(children, k) == ChildList(table, k)
  }

  lemma ListsOneMore(children: map<int, seq<int>>, more: map<int, seq<int>>, table: Table, i: nat)
    requires i < |table| && ListsChildren(children, table[..i])
    requires var p := table[i]; more == children[p.ppid := ChildrenIn(children, p.ppid) + [p.pid]]
    ensures ListsChildren(more, table[..i + 1])
  {
    var init, last := table[..i], table[i];
    assert table[..i + 1][..i] == init;
    forall k ensures ChildrenIn(more, k) == ChildList(table[..i + 1], k) {
      assert ChildrenIn(children, k) == ChildList(init, k);
    }
  }

  method ChildMap(table: Table) returns (children: map<int, seq<int>>)
    ensures ListsChildren(children, table)
  {
    children := map[];
    for i := 0 to |table|
      invariant ListsChildren(children, table[..i])
    {
      var p := table[i];
      ghost var before := children;
      if p.ppid in children {
        children := children[p.ppid := children[p.ppid] + [p.pid]];
      } else {
        assert [] + [p.pid] == [p.pid];
        children := children[p.ppid := [p.pid]];
      }
      ListsOneMore(before, children, table, i);
    }
    assert table[..|table|] == table;
  }

  function Count(xs: seq<int>, x: int): nat {
    multiset(xs)[x]
  }

  // What is left to do is in the queue: everything found, and the root once it was expanded,
  // has each child found or waiting.
  ghost predicate Complete(table: Table, root: int, seeds: seq<int>, found: set<int>, expanded: bool, queue: seq<int>) {
    && (forall s | s in seeds :: s in found || s in queue || (s == root && expanded))
    && (forall x, c | (x in found || (x == root && expanded)) && ChildOf(table, x, c) && c != root :: c in found || c in queue)
  }

  ghost predicate Sound(table: Table, root: int, seeds: seq<int>, found: set<int>, queue: seq<int>) {
    && root !in found
    && (forall x | x in found :: ReachableAvoiding(table, seeds, root, x))
    && (forall x | x in queue :: ReachableAvoiding(table, seeds, root, x))
  }

  ghost function Pids(table: Table, seeds: seq<int>): set<int> {
    (set p | p in table :: p.pid) + (set s | s in seeds)
  }

  // The walk of `Descendants` between two steps, with the set it decreases.
  ghost predicate Walk(table: Table, root: int, seeds: seq<int>, found: set<int>, expanded: bool, queue: seq<int>) {
    && Sound(table, root, seeds, found, queue)
    && Complete(table, root, seeds, found, expanded, queue)
    && found <= Pids(table, seeds)
    && forall x | x in queue :: x in Pids(table, seeds)
  }

  method Descendants(table: Table, root: int, seeds: seq<int>, server: int) returns (found: set<int>)
    ensures forall pid :: pid in found <==>
              ReachableAvoiding(table, seeds, root, pid) && pid != root && !IsServer(table, server, pid)
  {
    var children := ChildMap(table);
    found := {};
    var queue := seeds;
    ghost var expanded := false;
    StartKeeps(table, root, seeds);
    while queue != []
      invariant Walk(table, root, seeds, found, expanded, queue)
      decreases Pids(table, seeds) - found, Count(queue, root), |queue|
    {
      queue, found, expanded := Visit(table, root, seeds, children, found, expanded, queue);
    }
    FoundIsExact(table, root, seeds, found, expanded);
    found := WithoutServer(table, found, server);
  }

  // One turn of the loop: pops a pid and, unless it was seen, takes it and pushes its new children.
  method Visit(table: Table, root: int, ghost seeds: seq<int>, children: map<int, seq<int>>,
               found: set<int>, ghost expanded: bool, queue: seq<int>)
    returns (queue': seq<int>, found': set<int>, ghost expanded': bool)
    requires queue != [] && Walk(table, root, seeds, found, expanded, queue)
    requires ListsChildren(children, table)
    ensures Walk(table, root, seeds, found', expanded', queue')
    ensures || Pids(table, seeds) - found' < Pids(table, seeds) - found
            || (found' == found && Count(queue', root) < Count(queue, root))
            || (found' == found && Count(queue', root) == Count(queue, root) && |queue'| < |queue|)
  {
    var pid := queue[|queue| - 1];
    queue', found', expanded' := queue[..|queue| - 1], found, expanded;
    assert queue == queue' + [pid];
    if pid == root || pid !in found {
      StepKeeps(table, root, seeds, found, expanded, queue', pid);
      if pid != root {
        found' := found + {pid};
      } else {
        expanded' := true;
      }
      queue' := PushNew(queue', ChildrenIn(children, pid), root, found');
    }
  }

  lemma StartKeeps(table: Table, root: int, seeds: seq<int>)
    ensures Walk(table, root, seeds, {}, false, seeds)
  {
    forall s | s in seeds ensures ReachableAvoiding(table, seeds, root, s) {
      assert Descent(table, seeds, [s], Some(root));
    }
  }

  lemma FoundIsExact(table: Table, root: int, seeds: seq<int>, found: set<int>, expanded: bool)
    requires Walk(table, root, seeds, found, expanded, [])
    ensures forall pid :: pid in found <==> pid != root && ReachableAvoiding(table, seeds, root, pid)
  {
    forall pid | pid != root && ReachableAvoiding(table, seeds, root, pid) ensures pid in found {
      var path :| Descent(table, seeds, path, Some(root)) && path[|path| - 1] == pid;
      DescentStaysInside(table, root, seeds, found, expanded, path);
    }
  }

  // The children of the popped process that are new are appended in order.
  method PushNew(queue: seq<int>, list: seq<int>, root: int, found: set<int>) returns (r: seq<int>)
    ensures r == queue + NewChildren(list, root, found)
    ensures Count(r, root) == Count(queue, root)
  {
    r := queue;
    for k := 0 to |list|
      invariant r == queue + NewChildren(list[..k], root, found)
    {
      NewChildrenStep(queue, list, k, root, found);
      if list[k] != root && list[k] !in found {
        r := r + [list[k]];
      }
    }
    assert list[..|list|] == list;
  }

  lemma NewChildrenStep(queue: seq<int>, list: seq<int>, k: nat, root: int, found: set<int>)
    requires k < |list|
    ensures queue + NewChildren(list[..k + 1], root, found)
         == queue + NewChildren(list[..k], root, found) + if list[k] != root && list[k] !in found then [list[k]] else []
  {
    assert list[..k + 1][..k] == list[..k];
  }

  method WithoutServer(table: Table, reached: set<int>, server: int) returns (found: set<int>)
    ensures forall x :: x in found <==> x in reached && !IsServer(table, server, x)
  {
    found := reached - {server};
    var own := Find(table, server);
    if own.Some? {
      for i := 0 to |table|
        invariant forall x :: x in found <==>
                    x in reached && x != server && !exists p | p in table[..i] :: p.pid == x && p.pgid == own.value.pgid
      {
        assert table[..i + 1] == table[..i] + [table[i]];
        if table[i].pgid == own.value.pgid {
          found := found - {table[i].pid};
        }
      }
      assert table[..|table|] == table;
    }
  }

  lemma StepKeeps(table: Table, root: int, seeds: seq<int>, found: set<int>, expanded: bool, popped: seq<int>, pid: int)
    requires Walk(table, root, seeds, found, expanded, popped + [pid])
    ensures var found' := if pid == root then found else found + {pid};
            var added := NewChildren(ChildList(table, pid), root, found');
            Walk(table, root, seeds, found', expanded || pid == root, popped + added)
  {
    var found' := if pid == root then found else found + {pid};
    var added := NewChildren(ChildList(table, pid), root, found');
    assert forall x :: x in popped + [pid] <==> x in popped || x == pid;
    forall c | c in added ensures ReachableAvoiding(table, seeds, root, c) && c in Pids(table, seeds) {
      ExtendDescent(table, seeds, root, pid, c);
    }
    forall c | ChildOf(table, pid, c) && c != root ensures c in found' || c in added {
      assert c in ChildList(table, pid);
    }
  }

  function NewChildren(list: seq<int>, root: int, found: set<int>): (r: seq<int>)
    ensures forall c :: c in r <==> c in list && c != root && c !in found
    ensures Count(r, root) == 0
  {
    if list == [] then []
    else
      var init, last := list[..|list| - 1], list[|list| - 1];
      assert list == init + [last];
      NewChildren(init, root, found) + if last != root && last !in found then [last] else []
  }

  lemma ExtendDescent(table: Table, seeds: seq<int>, root: int, pid: int, child: int)
    requires ReachableAvoiding(table, seeds, root, pid)
    requires ChildOf(table, pid, child) && child != root
    ensures ReachableAvoiding(table, seeds, root, child)
  {
    var path :| Descent(table, seeds, path, Some(root)) && path[|path| - 1] == pid;
    assert Descent(table, seeds, path + [child], Some(root));
  }

  // With nothing waiting, no descent leaves what was found.
  lemma {:induction false} DescentStaysInside(table: Table, root: int, seeds: seq<int>, found: set<int>, expanded: bool, path: seq<int>)
    requires Complete(table, root, seeds, found, expanded, [])
    requires Descent(table, seeds, path, Some(root))
    ensures var last := path[|path| - 1]; last in found || (last == root && expanded)
  {
    if |path| > 1 {
      var init := path[..|path| - 1];
      assert Descent(table, seeds, init, Some(root));
      DescentStaysInside(table, root, seeds, found, expanded, init);
      assert ChildOf(table, init[|init| - 1], path[|path| - 1]);
    }
  }

  // -------------------------------------------------------- from a shell's pid

  // When the root is a seed, avoiding it at later steps loses nothing but the root itself.
  lemma AvoidingRootLosesNothing(table: Table, seeds: seq<int>, root: int, pid: int)
    requires root in seeds
    ensures ReachableAvoiding(table, seeds, root, pid) <==> Reachable(table, seeds, pid)
  {
    if ReachableAvoiding(table, seeds, root, pid) {
      var path :| Descent(table, seeds, path, Some(root)) && path[|path| - 1] == pid;
      assert Descent(table, seeds, path, None);
    }
    if Reachable(table, seeds, pid) {
      var path :| Descent(table, seeds, path, None) && path[|path| - 1] == pid;
      var tail := AfterLastVisit(table, seeds, root, path);
    }
  }

  lemma {:induction false} AfterLastVisit(table: Table, seeds: seq<int>, root: int, path: seq<int>) returns (tail: seq<int>)
    requires root in seeds
    requires Descent(table, seeds, path, None)
    ensures Descent(table, seeds, tail, Some(root)) && tail[|tail| - 1] == path[|path| - 1]
  {
    var last := path[|path| - 1];
    if |path| == 1 {
      tail := path;
    } else if last == root {
      tail := [root];
    } else {
      var init := path[..|path| - 1];
      assert Descent(table, seeds, init, None);
      tail := AfterLastVisit(table, seeds, root, init);
      assert ChildOf(table, path[|path| - 2], path[|path| - 1]);
      tail := tail + [last];
    }
  }

  // Without the root among the seeds the two differ: the root's own children are not followed.
  lemma RootMustBeSeed()
    ensures var table := [ProcessEntry(2, 1, 2, None), ProcessEntry(3, 2, 3, None)];
            Reachable(table, [1], 3) && !ReachableAvoiding(table, [1], 2, 3)
  {
    var table := [ProcessEntry(2, 1, 2, None), ProcessEntry(3, 2, 3, None)];
    assert ChildOf(table, 1, 2) by { assert table[0] in table; }
    assert ChildOf(table, 2, 3) by { assert table[1] in table; }
    assert Descent(table, [1], [1, 2, 3], None);
    forall path | Descent(table, [1], path, Some(2)) ensures path == [1] {
      assert |path| > 1 ==> ChildOf(table, path[0], path[1]);
    }
  }

  method TreeSeeds(table: Table, root: int) returns (seeds: seq<int>)
    ensures forall s :: s in seeds <==> s == root || exists p | p in table :: p.pid == s && (p.pgid == root || p.sid == Some(root))
  {
    seeds := [root];
    for i := 0 to |table|
      invariant forall s :: s in seeds <==>
                  s == root || exists p | p in table[..i] :: p.pid == s && (p.pgid == root || p.sid == Some(root))
    {
      var p := table[i];
      assert table[..i + 1] == table[..i] + [p];
      if p.pgid == root || p.sid == Some(root) {
        seeds := seeds + [p.pid];
      }
    }
    assert table[..|table|] == table;
  }

  // A process the tree starts from: the shell, its process group, its session, a marked process,
  // or a process collected before that is still alive.
  ghost predicate IsOrigin(table: Table, root: int, marked: seq<int>, extra: seq<int>, pid: int) {
    || pid == root
    || (exists p | p in table :: p.pid == pid && (p.pgid == root || p.sid == Some(root)))
    || pid in marked
    || (pid in extra && exists p | p in table :: p.pid == pid)
  }

  ghost predicate StartedBy(table: Table, root: int, marked: seq<int>, extra: seq<int>, pid: int) {
    exists path: seq<int> :: path != [] && path[|path| - 1] == pid
      && IsOrigin(table, root, marked, extra, path[0])
      && forall i | 0 < i < |path| :: ChildOf(table, path[i - 1], path[i])
  }

  function Alive(table: Table, pids: seq<int>): (r: seq<int>)
    ensures forall x :: x in r <==> x in pids && exists p | p in table :: p.pid == x
  {
    if pids == [] then []
    else (if exists p | p in table :: p.pid == pids[0] then [pids[0]] else []) + Alive(table, pids[1..])
  }

  // Exactly the processes that descend from an origin, without the shell itself and the server's own.
  method CollectProcessTree(table: Table, root: int, marked: seq<int>, extra: seq<int>, server: int) returns (tree: set<int>)
    ensures forall pid :: pid in tree <==>
              StartedBy(table, root, marked, extra, pid) && pid != root && !IsServer(table, server, pid)
  {
    var own := TreeSeeds(table, root);
    var seeds := own + marked + Alive(table, extra);
    assert forall s :: s in seeds <==> IsOrigin(table, root, marked, extra, s);
    tree := Descendants(table, root, seeds, server);
    forall pid ensures ReachableAvoiding(table, seeds, root, pid) <==> StartedBy(table, root, marked, extra, pid) {
      AvoidingRootLosesNothing(table, seeds, root, pid);
      if StartedBy(table, root, marked, extra, pid) {
        var path: seq<int> :| path != [] && path[|path| - 1] == pid
          && IsOrigin(table, root, marked, extra, path[0])
          && forall i | 0 < i < |path| :: ChildOf(table, path[i - 1], path[i]);
        assert Descent(table, seeds, path, None);
      }
    }
  }

  // ---------------------------------------------------------- the shell's mark

  predicate OccursAt(line: string, wanted: string, at: nat) {
    at + |wanted| <= |line| && line[at..at + |wanted|] == wanted
  }

  // `wanted` stands at `at` in `line` and ends there: at the end of the line or before white space.
  predicate TokenAt(line: string, wanted: string, at: nat) {
    OccursAt(line, wanted, at) && (at + |wanted| == |line| || IsSpace(line[at + |wanted|]))
  }

  // String.indexOf
  function IndexOf(line: string, wanted: string, from: nat): (r: Option<nat>)
    ensures r.Some? ==> from <= r.value && OccursAt(line, wanted, r.value)
    ensures forall k: nat | from <= k && OccursAt(line, wanted, k) :: r.Some? && r.value <= k
    decreases |line| - from
  {
    if from + |wanted| > |line| then None
    else if OccursAt(line, wanted, from) then Some(from)
    else IndexOf(line, wanted, from + 1)
  }

  method PsLineHasShellId(line: string, shellId: string) returns (found: bool)
    ensures found <==> exists at: nat :: TokenAt(line, " QCLI_SHELL_ID=" + shellId, at)
  {
    var wanted := " QCLI_SHELL_ID=" + shellId;
    var from := 0;
    while true
      invariant from <= |line| + 1
      invariant forall k | 0 <= k < from :: !TokenAt(line, wanted, k)
      decreases |line| + 1 - from
    {
      var at := IndexOf(line, wanted, from);
      if at.None? {
        return false;
      }
      var end := at.value + |wanted|;
      if end == |line| || IsSpace(line[end]) {
        assert TokenAt(line, wanted, at.value);
        return true;
      }
      from := at.value + 1;
    }
  }
}
