// A tree of nodes laid out flat: every node under its own path, with what it holds. Linking, unlinking and copying
// subtrees, seen on the layout; both tree providers are built on it.
module FileLayout {
  import opened Text
  import opened FilePaths
  import opened FileMap

  // What is stored in one node.
  datatype NodeData<N> = NodeData(name: string, isDirectory: bool, content: string, children: map<string, N>)

  function EntryOf<N>(data: NodeData<N>): Entry {
    if data.isDirectory then Dir else File(data.content)
  }

  // The tree at `root` laid out flat: every node once, under its own path (`home` says which), with what it holds.
  datatype Layout<N(==)> = Layout(root: N, nodes: map<Path, N>, data: map<Path, NodeData<N>>,
                           home: map<N, Path>, repr: set<N>)
  {

    ghost predicate HangsFromParent(p: Path) {
      p != [] && Parent(p) in nodes && Parent(p) in data && p in nodes && p in data
      && var parent := data[Parent(p)];
         parent.isDirectory && Last(p) in parent.children && parent.children[Last(p)] == nodes[p] && data[p].name == Last(p)
    }

    ghost predicate HoldsItsChildren(p: Path) {
      p in data && (forall n | n in data[p].children :: p + [n] in nodes) && (!data[p].isDirectory ==> data[p].children == map[])
    }

    ghost predicate WellPlaced(p: Path) {
      && p in nodes && nodes[p] in home && home[nodes[p]] == p && nodes[p] in repr
      && (p == [] || HangsFromParent(p))
      && HoldsItsChildren(p)
    }

    ghost predicate Valid() {
      && data.Keys == nodes.Keys
      && [] in nodes && nodes[[]] == root
      && (forall x | x in home :: x in repr)
      && (forall p {:trigger WellPlaced(p)} | p in nodes :: WellPlaced(p))
    }

    ghost function Entries(): (fs: Files)
      ensures fs.Keys == data.Keys
    {
      map p | p in data :: EntryOf(data[p])
    }

    lemma EntriesClosed()
      requires Valid() && data[[]].isDirectory
      ensures PrefixClosed(Entries())
    {
      forall p | p in nodes && p != [] ensures Parent(p) in nodes && data[Parent(p)].isDirectory {
        assert WellPlaced(p);
      }
    }

    // No node is at two places, so a change to one is seen at one path only.
    lemma NoNodeIsShared(p: Path, q: Path)
      requires Valid() && p in nodes && q in nodes && p != q
      ensures nodes[p] != nodes[q]
    {
      assert WellPlaced(p) && WellPlaced(q);
    }

    lemma ChildPath(p: Path, n: string)
      requires Valid() && p in nodes
      ensures p + [n] in nodes <==> n in data[p].children
      ensures n in data[p].children ==> data[p].children[n] == nodes[p + [n]] && data[p + [n]].name == n
    {
      assert WellPlaced(p);
      assert Parent(p + [n]) == p && Last(p + [n]) == n;
      assert p + [n] in nodes ==> WellPlaced(p + [n]);
    }

    lemma {:induction false} NodesAbove(p: Path, k: nat)
      requires Valid() && p in nodes && k <= |p|
      ensures p[..k] in nodes
      decreases |p| - k
    {
      if k == |p| {
        assert p[..k] == p;
      } else {
        NodesAbove(p, k + 1);
        assert WellPlaced(p[..k + 1]);
        assert Parent(p[..k + 1]) == p[..k];
      }
    }

    // A step of a path: to the child of that name, or nowhere.
    lemma PathStep(path: Path, i: nat)
      requires Valid() && i < |path| && path[..i] in nodes
      ensures path[..i + 1] == path[..i] + [path[i]]
      ensures var d := data[path[..i]];
              if d.isDirectory && path[i] in d.children
              then path[..i + 1] in nodes && nodes[path[..i + 1]] == d.children[path[i]]
              else path[..i + 1] !in nodes && path !in nodes
    {
      ChildPath(path[..i], path[i]);
      assert path[..i + 1] == path[..i] + [path[i]];
      assert WellPlaced(path[..i]);
      if path in nodes {
        NodesAbove(path, i + 1);
      }
    }
  }

  // -------------------------------------------------------- linking and unlinking

  function WithChild<N>(data: map<Path, NodeData<N>>, p: Path, name: string, child: N): map<Path, NodeData<N>>
    requires p in data
  {
    data[p := data[p].(children := data[p].children[name := child])]
  }

  function WithoutChild<N>(data: map<Path, NodeData<N>>, p: Path, name: string): map<Path, NodeData<N>>
    requires p in data
  {
    data[p := data[p].(children := data[p].children - {name})]
  }

  // `l'`: the layout `l` after the tree of `s` was linked under `name` in the directory at `p`.
  ghost predicate Relinked<N>(l: Layout<N>, p: Path, name: string, s: Layout<N>, l': Layout<N>) {
    && p in l.data
    && l'.root == l.root && l'.repr == l.repr + s.repr
    && l'.home == l.home + (map x | x in s.home :: p + [name] + s.home[x])
    && IsGraft(l'.nodes, l.nodes, p + [name], s.nodes)
    && IsGraft(l'.data, WithChild(l.data, p, name, s.root), p + [name], s.data)
  }

  lemma RelinkedAt<N>(l: Layout<N>, p: Path, name: string, s: Layout<N>, l': Layout<N>, q: Path)
    requires Relinked(l, p, name, s, l')
    ensures var t := p + [name];
            && At(l'.nodes, q) == (if Under(t, q) then At(s.nodes, Rel(t, q)) else At(l.nodes, q))
            && At(l'.data, q) == (if Under(t, q) then At(s.data, Rel(t, q)) else At(WithChild(l.data, p, name, s.root), q))
  {
  }

  lemma RelinkedHangs<N>(l: Layout<N>, p: Path, name: string, s: Layout<N>, l': Layout<N>, q: Path)
    requires l.Valid() && p in l.nodes && l.data[p].isDirectory && s.Valid() && s.data[[]].name == name
    requires Relinked(l, p, name, s, l') && q != [] && q in l'.nodes
    ensures l'.HangsFromParent(q)
  {
    var t := p + [name];
    assert Parent(t) == p && Last(t) == name && Parent(q) + [Last(q)] == q;
    RelinkedAt(l, p, name, s, l', q);
    RelinkedAt(l, p, name, s, l', Parent(q));
    if q == t {
      assert Rel(t, q) == [];
    } else if Under(t, q) {
      var r := Rel(t, q);
      assert Parent(q) == t + Parent(r) && Last(q) == Last(r);
      RelOfJoin(t, Parent(r));
      assert s.WellPlaced(r);
    } else {
      assert l.WellPlaced(q);
    }
  }

  lemma RelinkedHolds<N>(l: Layout<N>, p: Path, name: string, s: Layout<N>, l': Layout<N>, q: Path)
    requires l.Valid() && p in l.nodes && l.data[p].isDirectory && s.Valid()
    requires Relinked(l, p, name, s, l') && q in l'.nodes
    ensures l'.HoldsItsChildren(q)
  {
    var t := p + [name];
    RelinkedAt(l, p, name, s, l', q);
    if Under(t, q) {
      assert s.WellPlaced(Rel(t, q));
    } else {
      assert l.WellPlaced(q);
    }
    forall n | n in l'.data[q].children ensures q + [n] in l'.nodes {
      var c := q + [n];
      RelinkedAt(l, p, name, s, l', c);
      if Under(t, q) {
        assert c == t + (Rel(t, q) + [n]);
        RelOfJoin(t, Rel(t, q) + [n]);
      } else if Under(t, c) {
        assert Rel(t, c) == [];
      }
    }
  }

  lemma RelinkedHome<N>(l: Layout<N>, p: Path, name: string, s: Layout<N>, l': Layout<N>, q: Path)
    requires l.Valid() && s.Valid() && s.repr !! l.repr && Relinked(l, p, name, s, l')
    requires q in l'.nodes
    ensures l'.nodes[q] in l'.home && l'.home[l'.nodes[q]] == q && l'.nodes[q] in l'.repr
  {
    RelinkedAt(l, p, name, s, l', q);
    if Under(p + [name], q) {
      assert s.WellPlaced(Rel(p + [name], q));
    } else {
      assert l.WellPlaced(q);
    }
  }

  lemma RelinkedIsValid<N>(l: Layout<N>, p: Path, name: string, s: Layout<N>, l': Layout<N>)
    requires l.Valid() && p in l.nodes && l.data[p].isDirectory && s.Valid() && s.data[[]].name == name
    requires s.repr !! l.repr && Relinked(l, p, name, s, l')
    ensures l'.Valid()
  {
    forall q ensures q in l'.nodes <==> q in l'.data {
      RelinkedAt(l, p, name, s, l', q);
    }
    RelinkedAt(l, p, name, s, l', []);
    forall q | q in l'.nodes ensures l'.WellPlaced(q) {
      RelinkedHome(l, p, name, s, l', q);
      RelinkedHolds(l, p, name, s, l', q);
      if q != [] { RelinkedHangs(l, p, name, s, l', q); }
    }
  }

  lemma RelinkedEntries<N>(l: Layout<N>, p: Path, name: string, s: Layout<N>, l': Layout<N>)
    requires Relinked(l, p, name, s, l')
    ensures IsGraft(l'.Entries(), l.Entries(), p + [name], s.Entries())
  {
    forall q {
      RelinkedAt(l, p, name, s, l', q);
    }
  }

  ghost function Relink<N>(l: Layout<N>, p: Path, name: string, s: Layout<N>): Layout<N>
    requires p in l.data
  {
    var t := p + [name];
    Layout(l.root, Grafted(l.nodes, t, s.nodes), Grafted(WithChild(l.data, p, name, s.root), t, s.data),
           l.home + (map x | x in s.home :: t + s.home[x]), l.repr + s.repr)
  }

  lemma RelinkedRoot<N>(l: Layout<N>, p: Path, name: string, s: Layout<N>, l': Layout<N>)
    requires s.Valid() && Relinked(l, p, name, s, l')
    ensures p + [name] in l'.nodes && l'.nodes[p + [name]] == s.root
  {
    RelinkedAt(l, p, name, s, l', p + [name]);
    assert Rel(p + [name], p + [name]) == [];
  }

  lemma Linked<N>(l: Layout<N>, p: Path, name: string, s: Layout<N>) returns (l': Layout<N>)
    requires l.Valid() && p in l.nodes && l.data[p].isDirectory && s.Valid() && s.data[[]].name == name && s.repr !! l.repr
    ensures Relinked(l, p, name, s, l') && l'.Valid()
    ensures l'.Entries() == Grafted(l.Entries(), p + [name], s.Entries())
    ensures p + [name] in l'.nodes && l'.nodes[p + [name]] == s.root
  {
    l' := Relink(l, p, name, s);
    GraftedIsGraft(l.nodes, p + [name], s.nodes);
    GraftedIsGraft(WithChild(l.data, p, name, s.root), p + [name], s.data);
    RelinkedIsValid(l, p, name, s, l');
    RelinkedEntries(l, p, name, s, l');
    GraftIsUnique(l'.Entries(), l.Entries(), p + [name], s.Entries());
    RelinkedRoot(l, p, name, s, l');
  }

  // Where a node of the linked layout comes from, with what it holds.
  lemma RelinkedFrom<N>(l: Layout<N>, p: Path, name: string, s: Layout<N>, l': Layout<N>, q: Path)
    requires l.Valid() && s.Valid() && Relinked(l, p, name, s, l') && q in l'.nodes && q in l'.data
    ensures var t, linked := p + [name], WithChild(l.data, p, name, s.root);
            if Under(t, q) then
              var r := Rel(t, q);
              r in s.nodes && r in s.data && s.nodes[r] in s.repr && l'.nodes[q] == s.nodes[r] && l'.data[q] == s.data[r]
            else
              q in l.nodes && q in linked && l.nodes[q] in l.repr && l'.nodes[q] == l.nodes[q] && l'.data[q] == linked[q]
  {
    RelinkedAt(l, p, name, s, l', q);
    if Under(p + [name], q) {
      assert s.WellPlaced(Rel(p + [name], q));
    } else {
      assert l.WellPlaced(q);
    }
  }

  // `l'`: the layout `l` after `name` was unlinked from the directory at `p`.
  ghost predicate Unlinked<N>(l: Layout<N>, p: Path, name: string, l': Layout<N>) {
    && p in l.data
    && l'.root == l.root && l'.home == l.home && l'.repr == l.repr
    && IsPrune(l'.nodes, l.nodes, p + [name])
    && IsPrune(l'.data, WithoutChild(l.data, p, name), p + [name])
  }

  lemma UnlinkedAt<N>(l: Layout<N>, p: Path, name: string, l': Layout<N>, q: Path)
    requires Unlinked(l, p, name, l')
    ensures var t := p + [name];
            && At(l'.nodes, q) == (if Under(t, q) then None else At(l.nodes, q))
            && At(l'.data, q) == (if Under(t, q) then None else At(WithoutChild(l.data, p, name), q))
  {
  }

  lemma UnlinkedHangs<N>(l: Layout<N>, p: Path, name: string, l': Layout<N>, q: Path)
    requires l.Valid() && Unlinked(l, p, name, l') && q in l'.nodes && q != []
    ensures l'.HangsFromParent(q)
  {
    var t := p + [name];
    UnlinkedAt(l, p, name, l', q);
    UnlinkedAt(l, p, name, l', Parent(q));
    assert l.WellPlaced(q);
    assert Parent(q) + [Last(q)] == q;
    assert Under(t, Parent(q)) ==> Under(t, q);
  }

  lemma UnlinkedHolds<N>(l: Layout<N>, p: Path, name: string, l': Layout<N>, q: Path)
    requires l.Valid() && Unlinked(l, p, name, l') && q in l'.nodes
    ensures l'.HoldsItsChildren(q)
  {
    var t := p + [name];
    UnlinkedAt(l, p, name, l', q);
    assert l.WellPlaced(q);
    forall n | n in l'.data[q].children ensures q + [n] in l'.nodes {
      UnlinkedAt(l, p, name, l', q + [n]);
      if Under(t, q + [n]) {
        EntersAt(t, q, n);
        EntersAt(t, p, name);
      }
    }
  }

  lemma UnlinkedIsValid<N>(l: Layout<N>, p: Path, name: string, l': Layout<N>)
    requires l.Valid() && Unlinked(l, p, name, l')
    ensures l'.Valid()
  {
    forall q ensures (q in l'.nodes <==> q in l'.data) && (q in l'.nodes ==> q in l.nodes && l'.nodes[q] == l.nodes[q]) {
      UnlinkedAt(l, p, name, l', q);
    }
    UnlinkedAt(l, p, name, l', []);
    forall q | q in l'.nodes ensures l'.WellPlaced(q) {
      assert l.WellPlaced(q);
      UnlinkedHolds(l, p, name, l', q);
      if q != [] { UnlinkedHangs(l, p, name, l', q); }
    }
  }

  lemma UnlinkedEntries<N>(l: Layout<N>, p: Path, name: string, l': Layout<N>)
    requires Unlinked(l, p, name, l')
    ensures IsPrune(l'.Entries(), l.Entries(), p + [name])
  {
    forall q {
      UnlinkedAt(l, p, name, l', q);
    }
  }

  ghost function Prune<N>(l: Layout<N>, p: Path, name: string): Layout<N>
    requires p in l.data
  {
    l.(nodes := Pruned(l.nodes, p + [name]), data := Pruned(WithoutChild(l.data, p, name), p + [name]))
  }

  lemma Cut<N>(l: Layout<N>, p: Path, name: string) returns (l': Layout<N>)
    requires l.Valid() && p in l.nodes
    ensures Unlinked(l, p, name, l') && l'.Valid()
    ensures l'.Entries() == Pruned(l.Entries(), p + [name])
    ensures p in l'.nodes && l'.nodes[p] == l.nodes[p] && p + [name] !in l'.nodes
  {
    l' := Prune(l, p, name);
    UnlinkedIsValid(l, p, name, l');
    UnlinkedEntries(l, p, name, l');
    PruneIsUnique(l'.Entries(), l.Entries(), p + [name]);
    UnlinkedAt(l, p, name, l', p);
    UnlinkedAt(l, p, name, l', p + [name]);
  }

  // -------------------------------------------------------------------- copying

  ghost function PathsUnder<N>(l: Layout<N>, p: Path): set<Path> {
    set q | q in l.nodes && Under(p, q)
  }

  lemma FewerBelow<N>(l: Layout<N>, p: Path, name: string)
    requires p in l.nodes
    ensures PathsUnder(l, p + [name]) < PathsUnder(l, p)
  {
    forall q | Under(p + [name], q) ensures Under(p, q) {
      assert q == p + ([name] + Rel(p + [name], q));
    }
    assert p in PathsUnder(l, p) && p !in PathsUnder(l, p + [name]);
  }

  // `e` holds what `fs` has at `p` and in the children `done` of `p`.
  ghost predicate ClonedSoFar(fs: Files, p: Path, done: set<string>, e: Files) {
    forall r :: At(e, r) == if r == [] || r[0] in done then At(fs, p + r) else None
  }

  lemma CloneStep(fs: Files, p: Path, done: set<string>, e: Files, key: string)
    requires ClonedSoFar(fs, p, done, e)
    ensures ClonedSoFar(fs, p, done + {key}, Grafted(e, [] + [key], Subtree(fs, p + [key])))
  {
    var t := [] + [key];
    var e' := Grafted(e, t, Subtree(fs, p + [key]));
    forall r ensures At(e', r) == if r == [] || r[0] in done + {key} then At(fs, p + r) else None {
      GraftedAt(e, t, Subtree(fs, p + [key]), r);
      if Under(t, r) {
        SubtreeAt(fs, p + [key], Rel(t, r));
        assert p + [key] + Rel(t, r) == p + r;
      } else {
        assert At(e, r) == if r == [] || r[0] in done then At(fs, p + r) else None;
        assert r != [] ==> r == [r[0]] + r[1..];
      }
    }
  }

  lemma CloneIsSubtree(fs: Files, p: Path, done: set<string>, e: Files)
    requires ClonedSoFar(fs, p, done, e)
    requires forall r: Path {:trigger p + r} | r != [] && p + r in fs :: r[0] in done
    ensures e == Subtree(fs, p)
  {
    forall r ensures At(e, r) == At(Subtree(fs, p), r) {
      SubtreeAt(fs, p, r);
    }
    SameEverywhere(e, Subtree(fs, p));
  }

  // Whatever lies below a node lies below one of its children.
  lemma ChildrenCover<N>(l: Layout<N>, p: Path)
    requires l.Valid() && p in l.nodes
    ensures forall r: Path {:trigger p + r} | r != [] && p + r in l.Entries() :: r[0] in l.data[p].children.Keys
  {
    forall r: Path {:trigger p + r} | r != [] && p + r in l.nodes ensures r[0] in l.data[p].children {
      l.NodesAbove(p + r, |p| + 1);
      assert (p + r)[..|p| + 1] == p + [r[0]];
      l.ChildPath(p, r[0]);
    }
  }

  // -------------------------------------------------- storing in place, making ways

  // A file's content, or the root's name, is stored without moving anything.
  ghost predicate SamePlace<N>(l: Layout<N>, t: Path, d: NodeData<N>) {
    && t in l.data
    && d.isDirectory == l.data[t].isDirectory && d.children == l.data[t].children
    && (t == [] || d.name == l.data[t].name)
  }

  lemma StoringKeepsValid<N>(l: Layout<N>, t: Path, d: NodeData<N>, l': Layout<N>)
    requires l.Valid() && SamePlace(l, t, d) && l' == l.(data := l.data[t := d])
    ensures l'.Valid()
  {
    assert l'.data.Keys == l.nodes.Keys;
    forall q | q in l.nodes ensures l'.WellPlaced(q) {
      assert l.WellPlaced(q);
    }
  }

  lemma StoringSetsEntry<N>(l: Layout<N>, t: Path, d: NodeData<N>)
    requires t in l.data
    ensures l.(data := l.data[t := d]).Entries() == l.Entries()[t := EntryOf(d)]
  {
  }

  lemma PrunedThenGrafted<T>(m: map<Path, T>, pruned: map<Path, T>, grafted: map<Path, T>, t: Path, sub: map<Path, T>)
    requires pruned == Pruned(m, t) && grafted == Grafted(pruned, t, sub)
    ensures grafted == Grafted(m, t, sub)
  {
  }

  lemma GraftLeaf(fs: Files, t: Path, e: Entry)
    requires PrefixClosed(fs) && t !in fs
    ensures Grafted(fs, t, map[[] := e]) == fs[t := e]
  {
    var leaf: Files := map[[] := e];
    forall q ensures At(Grafted(fs, t, leaf), q) == At(fs[t := e], q) {
      GraftedAt(fs, t, leaf, q);
      if Under(t, q) {
        if q in fs {
          PrefixIn(fs, q, |t|);
        }
        assert Rel(t, q) == [] <==> q == t;
      }
    }
    SameEverywhere(Grafted(fs, t, leaf), fs[t := e]);
  }

  // `fs` with each directory on the way to `p` made.
  ghost function MadeDirs(fs: Files, p: Path): Files {
    fs + map q | q in Prefixes(p) :: Dir
  }

  // No file is on the way to `p`.
  ghost predicate DirsTo(fs: Files, p: Path) {
    forall q | q in fs && Under(q, p) :: fs[q].Dir?
  }

  lemma MadeDirsStart(fs: Files)
    requires PrefixClosed(fs)
    ensures MadeDirs(fs, []) == fs && DirsTo(fs, [])
  {
  }

  // A directory on the way that is there already.
  lemma MadeDirsThere(fs: Files, parts: Path, i: nat)
    requires PrefixClosed(fs) && i < |parts| && DirsTo(fs, parts[..i])
    ensures parts[..i + 1] in fs && fs[parts[..i + 1]].Dir? ==> MadeDirs(fs, parts[..i + 1]) == MadeDirs(fs, parts[..i])
  {
    var t := parts[..i + 1];
    if t in fs && fs[t].Dir? {
      MadeDirsStep(fs, parts, i);
      assert MadeDirs(fs, parts[..i])[t] == Dir;
    }
  }

  lemma MadeDirsStep(fs: Files, parts: Path, i: nat)
    requires PrefixClosed(fs) && i < |parts| && DirsTo(fs, parts[..i])
    ensures var t := parts[..i + 1];
            && (t !in fs || fs[t].Dir? ==> DirsTo(fs, t) && MadeDirs(fs, t) == MadeDirs(fs, parts[..i])[t := Dir])
            && (t in fs <==> t in MadeDirs(fs, parts[..i]))
            && (t in fs ==> MadeDirs(fs, parts[..i])[t] == fs[t])
  {
    var t := parts[..i + 1];
    forall q ensures Under(q, t) <==> q == t || Under(q, parts[..i]) {
    }
  }

  lemma FirstFileIs(fs: Files, path: Path, from: nat, k: nat)
    requires from <= k <= |path| && path[..k] in fs && fs[path[..k]].File?
    requires forall i | from <= i < k :: path[..i] in fs ==> fs[path[..i]].Dir?
    ensures FirstFile(fs, path, from) == Some(k)
  {
  }

  // Every prefix above a path that is there is a directory.
  lemma DirsAbove(fs: Files, parts: Path, i: nat, k: nat)
    requires PrefixClosed(fs) && k <= i < |parts| && parts[..i + 1] in fs
    ensures parts[..k] in fs && fs[parts[..k]] == Dir
  {
    PrefixIn(fs, parts[..i + 1], k);
    assert parts[..i + 1][..k] == parts[..k];
  }

  // The way down `parts` is there as far as its first `i` names; the next one is a file.
  ghost predicate StopsAt(fs: Files, parts: Path, i: nat)
    requires i < |parts|
  {
    DirsTo(fs, parts[..i]) && parts[..i + 1] in fs && fs[parts[..i + 1]].File?
  }

  lemma MadeDirsFails(fs: Files, parts: Path, i: nat)
    requires PrefixClosed(fs) && i < |parts| && StopsAt(fs, parts, i)
    ensures FileMap.MkdirAll(fs, parts) == fs && MkdirAllCheck(fs, parts) == Failure(FileExists([parts[i]]))
  {
    forall k | 0 <= k <= i ensures parts[..k] in fs && fs[parts[..k]] == Dir {
      DirsAbove(fs, parts, i, k);
    }
    FirstFileIs(fs, parts, 0, i + 1);
  }

  lemma MadeDirsStay(fs: Files, parts: Path, i: nat)
    requires PrefixClosed(fs) && i < |parts| && parts[..i + 1] in fs
    ensures MadeDirs(fs, parts[..i]) == fs
  {
    forall q | Under(q, parts[..i]) ensures q in fs && fs[q] == Dir {
      DirsAbove(fs, parts, i, |q|);
      assert q == parts[..|q|];
    }
  }

  lemma MadeDirsDone(fs: Files, path: Path)
    requires DirsTo(fs, path)
    ensures MkdirAllCheck(fs, path).Success? && FileMap.MkdirAll(fs, path) == MadeDirs(fs, path)
  {
    assert FirstFile(fs, path, 0).Some? ==> Under(path[..FirstFile(fs, path, 0).value], path);
  }
}
