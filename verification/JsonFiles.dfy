// The JSON provider: a tree of nodes with child lists, changed in place, refining the same flat map.
module JsonFiles {
  import opened Text
  import opened FilePaths
  import opened FileMap
  import opened FileLayout

  class JsonNode {
    var name: string
    const isDirectory: bool
    var content: string
    var children: seq<JsonNode>

    constructor (name: string, isDirectory: bool, content: string)
      ensures this.name == name && this.isDirectory == isDirectory && this.content == content && children == []
    {
      this.name := name;
      this.isDirectory := isDirectory;
      this.content := content;
      children := [];
    }

    ghost predicate Holds(d: NodeData<JsonNode>)
      reads this
    {
      name == d.name && isDirectory == d.isDirectory && content == d.content && Lists(children, d.children)
    }
  }

  // The list has each of the children once.
  ghost predicate Lists(list: seq<JsonNode>, children: map<string, JsonNode>) {
    && (forall n | n in children :: children[n] in list)
    && (forall c | c in list :: exists n | n in children :: children[n] == c)
    && (forall i, j | 0 <= i < j < |list| :: list[i] != list[j])
  }

  // `l` says what the node at `p` holds.
  ghost predicate StoredAt(l: Layout<JsonNode>, p: Path)
    reads l.repr
  {
    p in l.nodes && p in l.data && l.nodes[p] in l.repr ==> l.nodes[p].Holds(l.data[p])
  }

  // The nodes hold what the layout says.
  ghost predicate Stored(l: Layout<JsonNode>)
    reads l.repr
  {
    forall p {:trigger StoredAt(l, p)} :: StoredAt(l, p)
  }

  lemma Holding(l: Layout<JsonNode>, p: Path)
    requires l.Valid() && Stored(l) && p in l.nodes
    ensures l.nodes[p] in l.repr && l.nodes[p].Holds(l.data[p])
  {
    assert l.WellPlaced(p) && StoredAt(l, p);
  }

  // The nodes hold a linked layout when they hold its two parts, the directory with its new child.
  lemma LinkedStored(l: Layout<JsonNode>, p: Path, name: string, s: Layout<JsonNode>, l': Layout<JsonNode>)
    requires l.Valid() && s.Valid() && Relinked(l, p, name, s, l')
    requires Stored(s) && Stored(l.(data := WithChild(l.data, p, name, s.root)))
    ensures Stored(l')
  {
    forall q ensures StoredAt(l', q) {
      if q in l'.nodes && q in l'.data {
        RelinkedFrom(l, p, name, s, l', q);
        assert Under(p + [name], q) ==> StoredAt(s, Rel(p + [name], q));
        assert StoredAt(l.(data := WithChild(l.data, p, name, s.root)), q);
      }
    }
  }

  lemma LinkedLayout(l: Layout<JsonNode>, p: Path, name: string, s: Layout<JsonNode>) returns (l': Layout<JsonNode>)
    requires l.Valid() && p in l.nodes && l.data[p].isDirectory && s.Valid() && s.data[[]].name == name && s.repr !! l.repr
    requires Stored(s) && Stored(l.(data := WithChild(l.data, p, name, s.root)))
    ensures l'.Valid() && Stored(l') && l'.root == l.root && l'.repr == l.repr + s.repr
    ensures p + [name] in l'.nodes && l'.nodes[p + [name]] == s.root
    ensures l'.Entries() == Grafted(l.Entries(), p + [name], s.Entries())
  {
    l' := Linked(l, p, name, s);
    LinkedStored(l, p, name, s, l');
  }

  lemma CutStored(l: Layout<JsonNode>, p: Path, name: string, l': Layout<JsonNode>)
    requires Unlinked(l, p, name, l') && Stored(l.(data := WithoutChild(l.data, p, name)))
    ensures Stored(l')
  {
    forall q ensures StoredAt(l', q) {
      UnlinkedAt(l, p, name, l', q);
      assert StoredAt(l.(data := WithoutChild(l.data, p, name)), q);
    }
  }

  // After one node at most has changed, the nodes hold the layout with that node's new data.
  twostate lemma StoredButOne(l: Layout<JsonNode>, new p: Path, new d: NodeData<JsonNode>)
    requires l.Valid() && old(Stored(l)) && p in l.nodes && l.nodes[p].Holds(d)
    requires forall x | x in l.repr && x != l.nodes[p] :: unchanged(x)
    ensures Stored(l.(data := l.data[p := d]))
  {
    var l' := l.(data := l.data[p := d]);
    forall q ensures StoredAt(l', q) {
      assert old(StoredAt(l, q));
      assert q in l.nodes ==> l.WellPlaced(q) && l.WellPlaced(p);
    }
  }

  // The child of that name comes first in the list to have it, and is the only one.
  lemma NamedChild(l: Layout<JsonNode>, p: Path, c: JsonNode)
    requires l.Valid() && Stored(l) && p in l.nodes && c in l.nodes[p].children
    ensures c in l.repr && c.name in l.data[p].children && l.data[p].children[c.name] == c
    ensures p + [c.name] in l.nodes && l.nodes[p + [c.name]] == c
  {
    Holding(l, p);
    var n :| n in l.data[p].children && l.data[p].children[n] == c;
    l.ChildPath(p, n);
    Holding(l, p + [n]);
  }

  // Siblings never share a name.
  lemma SiblingNamesDiffer(l: Layout<JsonNode>, p: Path, i: nat, j: nat)
    requires l.Valid() && Stored(l) && p in l.nodes && i < j < |l.nodes[p].children|
    ensures l.nodes[p].children[i].name != l.nodes[p].children[j].name
  {
    Holding(l, p);
    NamedChild(l, p, l.nodes[p].children[i]);
    NamedChild(l, p, l.nodes[p].children[j]);
  }

  function Others(list: seq<JsonNode>, name: string): (r: seq<JsonNode>)
    reads list
    ensures (forall c | c in r :: c in list && c.name != name) && forall c | c in list && c.name != name :: c in r
  {
    if list == [] then []
    else (if list[0].name != name then [list[0]] else []) + Others(list[1..], name)
  }

  lemma OthersAreListed(list: seq<JsonNode>, children: map<string, JsonNode>, name: string)
    requires Lists(list, children) && forall n | n in children :: children[n].name == n
    ensures Lists(Others(list, name), children - {name})
  {
    OthersDiffer(list, name);
    forall c | c in Others(list, name) ensures exists n | n in children - {name} :: children[n] == c {
      var n :| n in children && children[n] == c;
      assert n in children - {name};
    }
  }

  lemma {:induction false} OthersDiffer(list: seq<JsonNode>, name: string)
    requires forall i, j | 0 <= i < j < |list| :: list[i] != list[j]
    ensures var r := Others(list, name); forall i, j | 0 <= i < j < |r| :: r[i] != r[j]
  {
    if list != [] {
      OthersDiffer(list[1..], name);
      forall c | c in list[1..] ensures c != list[0] {
        var k :| 0 < k < |list| && list[k] == c;
      }
      assert list[0] !in Others(list[1..], name);
    }
  }

  lemma OneMoreListed(list: seq<JsonNode>, children: map<string, JsonNode>, name: string, child: JsonNode)
    requires Lists(list, children) && name !in children && child !in list
    ensures Lists(list + [child], children[name := child])
  {
    var more, all := list + [child], children[name := child];
    forall n | n in all ensures all[n] in more {
      if n == name { assert more[|list|] == child; }
    }
    forall c | c in more ensures exists n | n in all :: all[n] == c {
      if c == child {
        assert all[name] == c;
      } else {
        var n :| n in children && children[n] == c;
        assert all[n] == c;
      }
    }
  }

  lemma RoomForChild(l: Layout<JsonNode>, p: Path, name: string, s: Layout<JsonNode>)
    requires l.Valid() && Stored(l) && p in l.nodes && p + [name] !in l.nodes
    requires s.Valid() && Stored(s) && s.root.name == name && s.repr !! l.repr
    ensures l.nodes[p] in l.repr && l.nodes[p].Holds(l.data[p])
    ensures s.root in s.repr && s.data[[]].name == name
    ensures Lists(l.nodes[p].children + [s.root], l.data[p].children[name := s.root])
  {
    Holding(l, p);
    Holding(s, []);
    l.ChildPath(p, name);
    ChildrenInside(l, p);
    OneMoreListed(l.nodes[p].children, l.data[p].children, name, s.root);
  }

  // Links a separate tree into a tree, under a name not taken.
  method Attach(ghost l: Layout<JsonNode>, ghost p: Path, parent: JsonNode, name: string, child: JsonNode, ghost s: Layout<JsonNode>)
    returns (ghost l': Layout<JsonNode>)
    requires l.Valid() && Stored(l) && p in l.nodes && l.nodes[p] == parent && parent.isDirectory
    requires s.Valid() && Stored(s) && s.root == child && child.name == name && s.repr !! l.repr
    requires p + [name] !in l.nodes
    modifies parent`children
    ensures l'.Valid() && Stored(l') && l'.root == l.root && l'.repr == l.repr + s.repr
    ensures p + [name] in l'.nodes && l'.nodes[p + [name]] == s.root
    ensures l'.Entries() == Grafted(l.Entries(), p + [name], s.Entries())
  {
    RoomForChild(l, p, name, s);
    parent.children := parent.children + [child];
    StoredButOne(l, p, l.data[p].(children := l.data[p].children[name := child]));
    l' := LinkedLayout(l, p, name, s);
  }

  lemma ChildrenInside(l: Layout<JsonNode>, p: Path)
    requires l.Valid() && Stored(l) && p in l.nodes
    ensures forall c | c in l.nodes[p].children :: c in l.repr
    ensures forall n | n in l.data[p].children :: l.data[p].children[n] in l.repr && l.data[p].children[n].name == n
  {
    forall c | c in l.nodes[p].children ensures c in l.repr {
      NamedChild(l, p, c);
    }
    forall n | n in l.data[p].children ensures l.data[p].children[n] in l.repr && l.data[p].children[n].name == n {
      l.ChildPath(p, n);
      Holding(l, p + [n]);
    }
  }

  // Unlinks a name from a directory of a tree.
  method Detach(ghost l: Layout<JsonNode>, ghost p: Path, parent: JsonNode, name: string) returns (ghost l': Layout<JsonNode>)
    requires l.Valid() && Stored(l) && p in l.nodes && l.nodes[p] == parent
    modifies parent`children
    ensures l'.Valid() && Stored(l') && l'.root == l.root && l'.repr == l.repr
    ensures p in l'.nodes && l'.nodes[p] == parent && p + [name] !in l'.nodes
    ensures l'.Entries() == Pruned(l.Entries(), p + [name])
  {
    Holding(l, p);
    ChildrenInside(l, p);
    OthersAreListed(parent.children, l.data[p].children, name);
    parent.children := Others(parent.children, name);
    StoredButOne(l, p, l.data[p].(children := l.data[p].children - {name}));
    l' := Cut(l, p, name);
    CutStored(l, p, name, l');
  }

  // -------------------------------------------------------------------- cloning

  ghost function LeafLayout(node: JsonNode): Layout<JsonNode>
    reads node
  {
    var data: NodeData<JsonNode> := NodeData(node.name, node.isDirectory, node.content, map[]);
    Layout(node, map[[] := node], map[[] := data], map[node := []], {node})
  }

  lemma SingleIsValid(node: JsonNode)
    requires node.children == []
    ensures LeafLayout(node).Valid() && Stored(LeafLayout(node))
  {
    assert LeafLayout(node).WellPlaced([]);
  }

  lemma EntriesOfLeaf(node: JsonNode)
    ensures LeafLayout(node).Entries() == map[[] := if node.isDirectory then Dir else File(node.content)]
  {
  }

  // The names of the first `i` children in the list.
  ghost function NamesUpto(list: seq<JsonNode>, children: map<string, JsonNode>, i: nat): set<string>
    requires i <= |list|
  {
    set n | n in children && children[n] in list[..i]
  }

  lemma NextChild(l: Layout<JsonNode>, p: Path, i: nat)
    requires l.Valid() && Stored(l) && p in l.nodes && i < |l.nodes[p].children|
    ensures var list, children := l.nodes[p].children, l.data[p].children;
            var name := list[i].name;
            && p + [name] in l.nodes && l.nodes[p + [name]] == list[i] && l.data[p].isDirectory
            && name !in NamesUpto(list, children, i)
            && NamesUpto(list, children, i + 1) == NamesUpto(list, children, i) + {name}
  {
    var list := l.nodes[p].children;
    Holding(l, p);
    NamedChild(l, p, list[i]);
    ChildrenInside(l, p);
    assert l.WellPlaced(p);
    assert list[..i + 1] == list[..i] + [list[i]];
  }

  lemma AllNames(list: seq<JsonNode>, children: map<string, JsonNode>)
    requires Lists(list, children)
    ensures NamesUpto(list, children, 0) == {} && NamesUpto(list, children, |list|) == children.Keys
  {
    assert list[..|list|] == list;
  }

  // A new node like `node`, without children.
  method CopyNode(node: JsonNode, ghost l: Layout<JsonNode>, ghost p: Path) returns (clone: JsonNode, ghost s: Layout<JsonNode>)
    requires l.Valid() && Stored(l) && p in l.nodes && l.nodes[p] == node
    ensures s.Valid() && Stored(s) && s.root == clone && fresh(s.repr)
    ensures clone.name == node.name && clone.isDirectory == node.isDirectory
    ensures Stored(l) && s.repr !! l.repr && ClonedSoFar(l.Entries(), p, {}, s.Entries())
  {
    Holding(l, p);
    clone := new JsonNode(node.name, node.isDirectory, if node.isDirectory then "" else node.content);
    s := LeafLayout(clone);
    SingleIsValid(clone);
    assert p + [] == p;
  }

  // A copy of the tree at `p`, made of new nodes only.
  method CloneNode(node: JsonNode, ghost l: Layout<JsonNode>, ghost p: Path) returns (clone: JsonNode, ghost s: Layout<JsonNode>)
    requires l.Valid() && Stored(l) && p in l.nodes && l.nodes[p] == node
    ensures s.Valid() && Stored(s) && s.root == clone
    ensures forall x | x in s.repr :: fresh(x)
    ensures s.Entries() == Subtree(l.Entries(), p)
    ensures clone.name == node.name
    decreases PathsUnder(l, p), 2
  {
    clone, s := CopyNode(node, l, p);
    Holding(s, []);
    ghost var own := s.repr;
    s := CloneChildren(node, l, p, clone, s);
    forall x | x in s.repr ensures fresh(x) {
      if x in own {}
    }
  }

  // Adds a copy of each child of `node` to its copy.
  method CloneChildren(node: JsonNode, ghost l: Layout<JsonNode>, ghost p: Path, clone: JsonNode, ghost s: Layout<JsonNode>)
    returns (ghost s': Layout<JsonNode>)
    requires l.Valid() && Stored(l) && p in l.nodes && l.nodes[p] == node
    requires s.Valid() && Stored(s) && s.root == clone && clone.isDirectory == node.isDirectory && s.repr !! l.repr
    requires ClonedSoFar(l.Entries(), p, {}, s.Entries())
    modifies clone`children
    ensures s'.Valid() && Stored(s') && s'.root == clone
    ensures forall x | x in s'.repr :: x in s.repr || fresh(x)
    ensures s'.Entries() == Subtree(l.Entries(), p)
    decreases PathsUnder(l, p), 1
  {
    s' := s;
    Holding(l, p);
    Holding(s, []);
    ghost var children := l.data[p].children;
    AllNames(node.children, children);
    for i := 0 to |node.children|
      invariant s'.Valid() && Stored(s') && s'.root == clone && s'.repr !! l.repr
      invariant forall x | x in s'.repr :: x in s.repr || fresh(x)
      invariant Stored(l) && node.children == old(node.children)
      invariant ClonedSoFar(l.Entries(), p, NamesUpto(node.children, children, i), s'.Entries())
    {
      NextChild(l, p, i);
      s' := CloneChild(node.children[i], l, p, clone, s', NamesUpto(node.children, children, i));
    }
    ChildrenCover(l, p);
    CloneIsSubtree(l.Entries(), p, l.data[p].children.Keys, s'.Entries());
  }

  // Adds a copy of one child of `node` to its copy.
  method CloneChild(child: JsonNode, ghost l: Layout<JsonNode>, ghost p: Path, clone: JsonNode, ghost s: Layout<JsonNode>, ghost done: set<string>)
    returns (ghost s': Layout<JsonNode>)
    requires l.Valid() && Stored(l) && p in l.nodes && l.data[p].isDirectory
    requires child.name !in done && p + [child.name] in l.nodes && l.nodes[p + [child.name]] == child
    requires s.Valid() && Stored(s) && s.root == clone && clone.isDirectory && s.repr !! l.repr
    requires ClonedSoFar(l.Entries(), p, done, s.Entries())
    modifies clone`children
    ensures s'.Valid() && Stored(s') && s'.root == clone
    ensures forall x | x in s'.repr :: x in s.repr || fresh(x)
    ensures ClonedSoFar(l.Entries(), p, done + {child.name}, s'.Entries())
    decreases PathsUnder(l, p), 0
  {
    ghost var key := child.name;
    FewerBelow(l, p, key);
    assert At(s.Entries(), [] + [key]) == None;
    ghost var c;
    var copy;
    copy, c := CloneNode(child, l, p + [key]);
    CloneStep(l.Entries(), p, done, s.Entries(), key);
    s' := Attach(s, [], clone, child.name, copy, c);
  }

  // ---------------------------------------------------------- storing in a node

  method StoreContent(ghost l: Layout<JsonNode>, ghost t: Path, file: JsonNode, content: string) returns (ghost l': Layout<JsonNode>)
    requires l.Valid() && Stored(l) && t in l.nodes && l.nodes[t] == file && !file.isDirectory
    modifies file`content
    ensures l'.Valid() && Stored(l') && l'.root == l.root && l'.repr == l.repr
    ensures l'.Entries() == l.Entries()[t := File(content)]
  {
    Holding(l, t);
    file.content := content;
    StoredButOne(l, t, l.data[t].(content := content));
    l' := l.(data := l.data[t := l.data[t].(content := content)]);
    StoringKeepsValid(l, t, l.data[t].(content := content), l');
    StoringSetsEntry(l, t, l.data[t].(content := content));
  }

  method Rename(ghost l: Layout<JsonNode>, node: JsonNode, name: string) returns (ghost l': Layout<JsonNode>)
    requires l.Valid() && Stored(l) && l.root == node
    modifies node`name
    ensures l'.Valid() && Stored(l') && l'.root == l.root && l'.repr == l.repr
    ensures l'.Entries() == l.Entries() && node.name == name
  {
    Holding(l, []);
    node.name := name;
    StoredButOne(l, [], l.data[[]].(name := name));
    l' := l.(data := l.data[[] := l.data[[]].(name := name)]);
    StoringKeepsValid(l, [], l.data[[]].(name := name), l');
    StoringSetsEntry(l, [], l.data[[]].(name := name));
  }

  // A copy of the tree at `p` under another name.
  method CloneAs(node: JsonNode, ghost l: Layout<JsonNode>, ghost p: Path, name: string) returns (clone: JsonNode, ghost s: Layout<JsonNode>)
    requires l.Valid() && Stored(l) && p in l.nodes && l.nodes[p] == node
    ensures s.Valid() && Stored(s) && s.root == clone && clone.name == name
    ensures forall x | x in s.repr :: fresh(x)
    ensures s.Entries() == Subtree(l.Entries(), p)
  {
    clone, s := CloneNode(node, l, p);
    Holding(s, []);
    s := Rename(s, clone, name);
  }

  // ----------------------------------------------------------------- the provider

  class JsonFileStorage {
    const root: JsonNode
    ghost var layout: Layout<JsonNode>

    ghost predicate Valid()
      reads this, layout.repr
    {
      layout.Valid() && Stored(layout) && layout.root == root && root.isDirectory
    }

    // What is stored, as a flat map.
    ghost function Contents(): Files
      reads this
    {
      layout.Entries()
    }

    constructor ()
      ensures Valid() && fresh(layout.repr) && Contents() == map[[] := Dir]
    {
      var node := new JsonNode("", true, "");
      root := node;
      layout := LeafLayout(node);
      SingleIsValid(node);
    }

    lemma ContentsClosed()
      requires Valid()
      ensures PrefixClosed(Contents())
    {
      Holding(layout, []);
      layout.EntriesClosed();
    }

    // `node` is the one at `p`, and there for an operation to change.
    ghost predicate Found(p: Path, node: JsonNode)
      reads this, layout.repr
    {
      p in layout.nodes && p in layout.data && layout.nodes[p] == node && node in layout.repr && node.Holds(layout.data[p])
    }

    lemma FoundAt(p: Path)
      requires Valid() && p in layout.nodes
      ensures Found(p, layout.nodes[p])
    {
      Holding(layout, p);
    }

    lemma FoundChild(p: Path, node: JsonNode, n: string)
      requires Valid() && Found(p, node)
      ensures (exists c | c in node.children :: c.name == n) <==> p + [n] in layout.nodes
      ensures forall c | c in node.children && c.name == n :: Found(p + [n], c)
    {
      layout.ChildPath(p, n);
      forall c | c in node.children
        ensures c.name in layout.data[p].children && layout.data[p].children[c.name] == c && Found(p + [c.name], c)
      {
        NamedChild(layout, p, c);
        FoundAt(p + [c.name]);
      }
      if p + [n] in layout.nodes {
        ChildrenInside(layout, p);
        assert layout.data[p].children[n] in node.children;
      }
    }

    method FindChild(ghost p: Path, node: JsonNode, name: string) returns (child: JsonNode?)
      requires Valid() && Found(p, node)
      ensures if p + [name] in layout.nodes then child != null && Found(p + [name], child) else child == null
    {
      FoundChild(p, node, name);
      for i := 0 to |node.children|
        invariant forall k | 0 <= k < i :: node.children[k].name != name
      {
        if node.children[i].name == name {
          return node.children[i];
        }
      }
      return null;
    }

    // The node a path names, if any.
    method Resolve(path: string) returns (node: JsonNode?)
      requires Valid()
      ensures if Components(path) in layout.nodes then node != null && Found(Components(path), node) else node == null
    {
      var normalized := NormalizePath(path);
      NormalizedIsCanonical(path);
      NormalizeDecides(path, path);
      FoundAt([]);
      if normalized == "/" {
        return root;
      }
      var parts := Components(normalized);
      var current: JsonNode := root;
      for i := 0 to |parts|
        invariant Found(parts[..i], current)
      {
        layout.PathStep(parts, i);
        if !current.isDirectory {
          return null;
        }
        var child := FindChild(parts[..i], current, parts[i]);
        if child == null {
          return null;
        }
        current := child;
      }
      assert parts[..|parts|] == parts;
      return current;
    }

    method Exists(path: string) returns (found: bool)
      requires Valid()
      ensures found <==> Components(path) in Contents()
    {
      var node := Resolve(path);
      return node != null;
    }

    method ReadFile(path: string) returns (r: Result<string, FileError>)
      requires Valid()
      ensures r == Read(Contents(), Components(path))
    {
      var node := Resolve(path);
      if node == null {
        return Failure(FileNotFound(Components(path)));
      }
      if node.isDirectory {
        return Failure(IsADirectory(Components(path)));
      }
      return Success(node.content);
    }

    // What is in a directory: the names, and which of them are directories.
    method List(path: string) returns (r: Result<map<string, bool>, FileError>)
      requires Valid()
      ensures r == Listing(Contents(), Components(path))
    {
      var node := Resolve(path);
      if node == null {
        return Failure(FileNotFound(Components(path)));
      }
      if !node.isDirectory {
        return Failure(NotADirectory(Components(path)));
      }
      var entries: map<string, bool> := map[];
      for i := 0 to |node.children|
        invariant forall k | 0 <= k < i :: node.children[k].name in entries
        invariant forall n | n in entries :: exists k | 0 <= k < i :: node.children[k].name == n && entries[n] == node.children[k].isDirectory
      {
        entries := entries[node.children[i].name := node.children[i].isDirectory];
      }
      ListsDirectory(Components(path), node, entries);
      return Success(entries);
    }

    lemma ListsDirectory(p: Path, node: JsonNode, entries: map<string, bool>)
      requires Valid() && Found(p, node) && node.isDirectory
      requires forall c | c in node.children :: c.name in entries
      requires forall n | n in entries :: exists c | c in node.children :: c.name == n && entries[n] == c.isDirectory
      ensures Listing(Contents(), p) == Success(entries)
    {
      forall n ensures ListedRight(Contents(), p, entries, n) {
        FoundChild(p, node, n);
      }
      ListingIs(Contents(), p, entries);
    }

    // The directory an operation on `path` works in, and the name it works on there.
    method ResolveParent(path: string) returns (r: Result<JsonNode, FileError>, name: string)
      requires Valid()
      ensures var t := Target(Components(path));
              && t == Parent(t) + [name]
              && (r.Failure? <==> ParentCheck(Contents(), Components(path)).Failure?)
              && (r.Failure? ==> Failure(r.error) == ParentCheck(Contents(), Components(path)))
              && (r.Success? ==> Found(Parent(t), r.value) && r.value.isDirectory)
    {
      var (parentPath, last) := ParentAndName(path);
      ParentAndNameSplit(path);
      name := last;
      var parent := Resolve(parentPath);
      if parent == null {
        r := Failure(FileNotFound(Components(parentPath)));
      } else if !parent.isDirectory {
        r := Failure(NotADirectory(Components(parentPath)));
      } else {
        r := Success(parent);
      }
    }

    // Takes `l` for what is stored now.
    ghost method Adopt(l: Layout<JsonNode>)
      requires l.Valid() && Stored(l) && l.root == root && root.isDirectory
      modifies this`layout
      ensures Valid() && layout == l
    {
      layout := l;
    }

    // Links a tree of new nodes under a directory.
    method Link(ghost p: Path, parent: JsonNode, name: string, child: JsonNode, ghost s: Layout<JsonNode>)
      requires Valid() && p in layout.nodes && layout.nodes[p] == parent && parent.isDirectory
      requires s.Valid() && Stored(s) && s.root == child && child.name == name && s.repr !! layout.repr
      requires p + [name] !in layout.nodes
      modifies this, parent`children
      ensures Valid() && forall x | x in layout.repr :: x in old(layout.repr) || x in s.repr
      ensures p + [name] in layout.nodes && layout.nodes[p + [name]] == child
      ensures Contents() == Grafted(old(Contents()), p + [name], s.Entries())
    {
      ghost var l := Attach(layout, p, parent, name, child, s);
      Adopt(l);
    }

    method Unlink(ghost p: Path, parent: JsonNode, name: string)
      requires Valid() && p in layout.nodes && layout.nodes[p] == parent
      modifies this, parent`children
      ensures Valid() && layout.repr == old(layout.repr)
      ensures p in layout.nodes && layout.nodes[p] == parent && p + [name] !in layout.nodes
      ensures Contents() == Pruned(old(Contents()), p + [name])
    {
      ghost var l := Detach(layout, p, parent, name);
      Adopt(l);
    }

    // Puts a tree of new nodes in the place of whatever has its name.
    method Replace(ghost p: Path, parent: JsonNode, name: string, child: JsonNode, ghost s: Layout<JsonNode>)
      requires Valid() && p in layout.nodes && layout.nodes[p] == parent && parent.isDirectory
      requires s.Valid() && Stored(s) && s.root == child && child.name == name && s.repr !! layout.repr && parent !in s.repr
      modifies this, parent`children
      ensures Valid() && forall x | x in layout.repr :: x in old(layout.repr) || x in s.repr
      ensures Contents() == Grafted(old(Contents()), p + [name], s.Entries())
    {
      ghost var cut := Detach(layout, p, parent, name);
      ghost var linked := Attach(cut, p, parent, name, child, s);
      PrunedThenGrafted(layout.Entries(), cut.Entries(), linked.Entries(), p + [name], s.Entries());
      Adopt(linked);
    }

    method Store(ghost t: Path, file: JsonNode, content: string)
      requires Valid() && t in layout.nodes && layout.nodes[t] == file && !file.isDirectory
      modifies this, file`content
      ensures Valid() && layout.repr == old(layout.repr)
      ensures Contents() == old(Contents())[t := File(content)]
    {
      ghost var l := StoreContent(layout, t, file, content);
      Adopt(l);
    }

    // A new node without children, laid out.
    method NewLeaf(name: string, isDirectory: bool, content: string) returns (leaf: JsonNode, ghost s: Layout<JsonNode>)
      ensures s.Valid() && Stored(s) && s.root == leaf && leaf.name == name && leaf.isDirectory == isDirectory
      ensures s.Entries() == map[[] := if isDirectory then Dir else File(content)]
      ensures forall x | x in s.repr :: fresh(x)
    {
      leaf := new JsonNode(name, isDirectory, content);
      s := LeafLayout(leaf);
      SingleIsValid(leaf);
      EntriesOfLeaf(leaf);
    }

    // Adds a new node without children where nothing is.
    method AddLeaf(ghost p: Path, parent: JsonNode, name: string, isDirectory: bool, content: string)
      returns (leaf: JsonNode)
      requires Valid() && p in layout.nodes && layout.nodes[p] == parent && parent.isDirectory && p + [name] !in layout.nodes
      modifies this, parent`children
      ensures Valid() && forall x | x in layout.repr :: x in old(layout.repr) || fresh(x)
      ensures Found(p + [name], leaf) && leaf.isDirectory == isDirectory
      ensures Contents() == old(Contents())[p + [name] := if isDirectory then Dir else File(content)]
    {
      ContentsClosed();
      GraftLeaf(Contents(), p + [name], if isDirectory then Dir else File(content));
      ghost var s;
      leaf, s := NewLeaf(name, isDirectory, content);
      Link(p, parent, name, leaf, s);
      FoundAt(p + [name]);
    }

    method WriteFile(path: string, content: string) returns (r: Outcome)
      requires Valid()
      modifies this, layout.repr
      ensures Valid() && forall x | x in layout.repr :: x in old(layout.repr) || fresh(x)
      ensures r == WriteCheck(old(Contents()), Components(path))
      ensures Contents() == Write(old(Contents()), Components(path), content)
    {
      var parent, name := ResolveParent(path);
      if parent.Failure? {
        return Failure(parent.error);
      }
      ghost var t := Target(Components(path));
      var existing := FindChild(Parent(t), parent.value, name);
      if existing != null {
        if existing.isDirectory {
          return Failure(IsADirectory(Components(path)));
        }
        Store(t, existing, content);
      } else {
        var leaf := AddLeaf(Parent(t), parent.value, name, false, content);
      }
      return Success(());
    }

    method Mkdir(path: string) returns (r: Outcome)
      requires Valid()
      modifies this, layout.repr
      ensures Valid() && forall x | x in layout.repr :: x in old(layout.repr) || fresh(x)
      ensures r == MkdirCheck(old(Contents()), Components(path))
      ensures Contents() == FileMap.Mkdir(old(Contents()), Components(path))
    {
      var parent, name := ResolveParent(path);
      if parent.Failure? {
        return Failure(parent.error);
      }
      ghost var t := Target(Components(path));
      var existing := FindChild(Parent(t), parent.value, name);
      if existing != null {
        return Failure(FileExists(Components(path)));
      }
      var leaf := AddLeaf(Parent(t), parent.value, name, true, "");
      return Success(());
    }

    // Makes each missing directory of the path; fails, with nothing made, at the first file on the way.
    method MkdirAll(path: string) returns (r: Outcome)
      requires Valid()
      modifies this, layout.repr
      ensures Valid() && forall x | x in layout.repr :: x in old(layout.repr) || fresh(x)
      ensures r == MkdirAllCheck(old(Contents()), Components(path))
      ensures Contents() == FileMap.MkdirAll(old(Contents()), Components(path))
    {
      NormalizedIsCanonical(path);
      var parts := Components(NormalizePath(path));
      ghost var before := Contents();
      ContentsClosed();
      var file := MakeDirs(parts);
      if file.None? { MadeDirsDone(before, parts); } else { MadeDirsFails(before, parts, file.value); }
      return if file.None? then Success(()) else Failure(FileExists([parts[file.value]]));
    }

    // Walks down the path; stops at the first name that a file has.
    method MakeDirs(parts: Path) returns (file: Option<nat>)
      requires Valid() && PrefixClosed(Contents())
      modifies this, layout.repr
      ensures Valid() && forall x | x in layout.repr :: x in old(layout.repr) || fresh(x)
      ensures file.None? ==> DirsTo(old(Contents()), parts) && Contents() == MadeDirs(old(Contents()), parts)
      ensures file.Some? ==> file.value < |parts| && StopsAt(old(Contents()), parts, file.value) && Contents() == old(Contents())
    {
      var current: JsonNode := root;
      ghost var fs := Contents();
      FoundAt([]);
      MadeDirsStart(fs);
      for i := 0 to |parts|
        invariant Valid() && forall x | x in layout.repr :: x in old(layout.repr) || fresh(x)
        invariant Found(parts[..i], current) && current.isDirectory
        invariant Contents() == MadeDirs(fs, parts[..i]) && DirsTo(fs, parts[..i])
      {
        var child := MakeDir(fs, parts, i, current);
        if child == null {
          MadeDirsStay(fs, parts, i);
          return Some(i);
        }
        current := child;
      }
      assert parts[..|parts|] == parts;
      return None;
    }

    // One step of the way: the directory of that name, made when it is missing; null when a file has the name.
    method MakeDir(ghost fs: Files, parts: Path, i: nat, current: JsonNode) returns (child: JsonNode?)
      requires Valid() && PrefixClosed(fs) && i < |parts|
      requires Found(parts[..i], current) && current.isDirectory
      requires Contents() == MadeDirs(fs, parts[..i]) && DirsTo(fs, parts[..i])
      modifies this, current`children
      ensures Valid() && forall x | x in layout.repr :: x in old(layout.repr) || fresh(x)
      ensures var t := parts[..i + 1];
              if child == null then t in fs && fs[t].File? && Contents() == old(Contents())
              else Found(t, child) && child.isDirectory
                   && Contents() == MadeDirs(fs, t) && DirsTo(fs, t)
    {
      layout.PathStep(parts, i);
      MadeDirsStep(fs, parts, i);
      child := FindChild(parts[..i], current, parts[i]);
      if child != null {
        MadeDirsThere(fs, parts, i);
        if !child.isDirectory {
          child := null;
        }
      } else {
        child := AddLeaf(parts[..i], current, parts[i], true, "");
      }
    }

    method Remove(path: string, recursive: bool) returns (r: Outcome)
      requires Valid()
      modifies this, layout.repr
      ensures Valid() && forall x | x in layout.repr :: x in old(layout.repr) || fresh(x)
      ensures r == RemoveCheck(old(Contents()), Components(path), recursive)
      ensures Contents() == FileMap.Remove(old(Contents()), Components(path), recursive)
    {
      var node := Resolve(path);
      if node == null {
        return Failure(FileNotFound(Components(path)));
      }
      if node.isDirectory && !recursive {
        return Failure(IsADirectory(Components(path)));
      }
      var parent, name := ResolveParent(path);
      ContentsClosed();
      Unlink(Parent(Target(Components(path))), parent.value, name);
      return Success(());
    }

    method Copy(src: string, dest: string) returns (r: Outcome)
      requires Valid()
      modifies this, layout.repr
      ensures Valid() && forall x | x in layout.repr :: x in old(layout.repr) || fresh(x)
      ensures r == CopyCheck(old(Contents()), Components(src), Components(dest))
      ensures Contents() == FileMap.Copy(old(Contents()), Components(src), Components(dest))
    {
      var node := Resolve(src);
      if node == null {
        return Failure(FileNotFound(Components(src)));
      }
      var parent, name := ResolveParent(dest);
      if parent.Failure? {
        return Failure(parent.error);
      }
      ghost var s;
      var clone;
      clone, s := CloneAs(node, layout, Components(src), name);
      Replace(Parent(Target(Components(dest))), parent.value, name, clone, s);
      return Success(());
    }

    method Move(src: string, dest: string) returns (r: Outcome)
      requires Valid()
      modifies this, layout.repr
      ensures Valid() && forall x | x in layout.repr :: x in old(layout.repr) || fresh(x)
      ensures r == MoveCheck(old(Contents()), Components(src), Components(dest))
      ensures Contents() == FileMap.Move(old(Contents()), Components(src), Components(dest))
    {
      r := Copy(src, dest);
      if r.Success? {
        r := Remove(src, true);
      }
    }
  }

}
