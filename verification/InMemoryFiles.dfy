// The in-memory provider: a tree of nodes changed in place, refining the flat map.
module InMemoryFiles {
  import opened Text
  import opened FilePaths
  import opened FileMap
  import opened FileLayout

  class FileNode {
    var name: string
    const isDirectory: bool
    var content: string
    var children: map<string, FileNode>

    constructor (name: string, isDirectory: bool, content: string)
      ensures Data() == NodeData(name, isDirectory, content, map[])
    {
      this.name := name;
      this.isDirectory := isDirectory;
      this.content := content;
      children := map[];
    }

    function Data(): NodeData<FileNode>
      reads this
    {
      NodeData(name, isDirectory, content, children)
    }

    ghost predicate Holds(d: NodeData<FileNode>)
      reads this
    {
      name == d.name && isDirectory == d.isDirectory && content == d.content && children == d.children
    }
  }

  // `l` says what the node at `p` holds.
  ghost predicate StoredAt(l: Layout<FileNode>, p: Path)
    reads l.repr
  {
    p in l.nodes && p in l.data && l.nodes[p] in l.repr ==> l.nodes[p].Holds(l.data[p])
  }

  // The nodes hold what the layout says.
  ghost predicate Stored(l: Layout<FileNode>)
    reads l.repr
  {
    forall p {:trigger StoredAt(l, p)} :: StoredAt(l, p)
  }

  lemma Holding(l: Layout<FileNode>, p: Path)
    requires l.Valid() && Stored(l) && p in l.nodes
    ensures l.nodes[p] in l.repr && l.nodes[p].Holds(l.data[p])
  {
    assert l.WellPlaced(p) && StoredAt(l, p);
  }

  // The nodes hold a linked layout when they hold its two parts, the directory with its new child.
  lemma LinkedStored(l: Layout<FileNode>, p: Path, name: string, s: Layout<FileNode>, l': Layout<FileNode>)
    requires l.Valid() && s.Valid() && Relinked(l, p, name, s, l')
    requires Stored(s) && Stored(l.(data := WithChild(l.data, p, name, s.root)))
    ensures Stored(l')
  {
    forall q ensures StoredAt(l', q) {
      if q in l'.nodes && q in l'.data {
        RelinkedFrom(l, p, name, s, l', q);
        assert Under(p + [name], q) ==> StoredAt(s, Rel(p + [name], q));
        assert StoredAt(l.(data := WithChild(l.data, p, name, s.root)), q);
      }
    }
  }

  lemma LinkedLayout(l: Layout<FileNode>, p: Path, name: string, s: Layout<FileNode>) returns (l': Layout<FileNode>)
    requires l.Valid() && p in l.nodes && l.data[p].isDirectory && s.Valid() && s.data[[]].name == name && s.repr !! l.repr
    requires Stored(s) && Stored(l.(data := WithChild(l.data, p, name, s.root)))
    ensures l'.Valid() && Stored(l') && l'.root == l.root && l'.repr == l.repr + s.repr
    ensures p + [name] in l'.nodes && l'.nodes[p + [name]] == s.root
    ensures l'.Entries() == Grafted(l.Entries(), p + [name], s.Entries())
  {
    l' := Linked(l, p, name, s);
    LinkedStored(l, p, name, s, l');
  }

  lemma CutStored(l: Layout<FileNode>, p: Path, name: string, l': Layout<FileNode>)
    requires Unlinked(l, p, name, l') && Stored(l.(data := WithoutChild(l.data, p, name)))
    ensures Stored(l')
  {
    forall q ensures StoredAt(l', q) {
      UnlinkedAt(l, p, name, l', q);
      assert StoredAt(l.(data := WithoutChild(l.data, p, name)), q);
    }
  }

  // After one node at most has changed, the nodes hold the layout with that node's new data.
  twostate lemma StoredButOne(l: Layout<FileNode>, new p: Path, new d: NodeData<FileNode>)
    requires l.Valid() && old(Stored(l)) && p in l.nodes && l.nodes[p].Holds(d)
    requires forall x | x in l.repr && x != l.nodes[p] :: unchanged(x)
    ensures Stored(l.(data := l.data[p := d]))
  {
    var l' := l.(data := l.data[p := d]);
    forall q ensures StoredAt(l', q) {
      assert old(StoredAt(l, q));
      assert q in l.nodes ==> l.WellPlaced(q) && l.WellPlaced(p);
    }
  }

  // Links a separate tree into a tree.
  method Attach(ghost l: Layout<FileNode>, ghost p: Path, parent: FileNode, name: string, child: FileNode, ghost s: Layout<FileNode>)
    returns (ghost l': Layout<FileNode>)
    requires l.Valid() && Stored(l) && p in l.nodes && l.nodes[p] == parent && parent.isDirectory
    requires s.Valid() && Stored(s) && s.root == child && child.name == name && s.repr !! l.repr
    modifies parent`children
    ensures l'.Valid() && Stored(l') && l'.root == l.root && l'.repr == l.repr + s.repr
    ensures p + [name] in l'.nodes && l'.nodes[p + [name]] == s.root
    ensures l'.Entries() == Grafted(l.Entries(), p + [name], s.Entries())
  {
    Holding(l, p);
    Holding(s, []);
    parent.children := parent.children[name := child];
    StoredButOne(l, p, l.data[p].(children := parent.children));
    l' := LinkedLayout(l, p, name, s);
  }

  // Unlinks a name from a directory of a tree.
  method Detach(ghost l: Layout<FileNode>, ghost p: Path, parent: FileNode, name: string) returns (ghost l': Layout<FileNode>)
    requires l.Valid() && Stored(l) && p in l.nodes && l.nodes[p] == parent
    modifies parent`children
    ensures l'.Valid() && Stored(l') && l'.root == l.root && l'.repr == l.repr
    ensures l'.Entries() == Pruned(l.Entries(), p + [name])
  {
    Holding(l, p);
    parent.children := parent.children - {name};
    StoredButOne(l, p, l.data[p].(children := parent.children));
    l' := Cut(l, p, name);
    CutStored(l, p, name, l');
  }

  // -------------------------------------------------------------------- cloning

  ghost function LeafLayout(node: FileNode): Layout<FileNode>
    reads node
  {
    Layout(node, map[[] := node], map[[] := node.Data()], map[node := []], {node})
  }

  lemma SingleIsValid(node: FileNode)
    requires node.children == map[]
    ensures LeafLayout(node).Valid() && Stored(LeafLayout(node))
  {
    assert LeafLayout(node).WellPlaced([]);
  }

  lemma EntriesOfLeaf(node: FileNode)
    ensures LeafLayout(node).Entries() == map[[] := EntryOf(node.Data())]
  {
  }

  lemma OneMoreDone(names: set<string>, todo: set<string>, key: string)
    requires key in todo && todo <= names
    ensures names - (todo - {key}) == names - todo + {key}
  {
  }

  // A new node like `node`, without children.
  method CopyNode(node: FileNode, ghost l: Layout<FileNode>, ghost p: Path) returns (clone: FileNode, ghost s: Layout<FileNode>)
    requires l.Valid() && Stored(l) && p in l.nodes && l.nodes[p] == node
    ensures s.Valid() && Stored(s) && s.root == clone && fresh(s.repr)
    ensures clone.name == node.name && clone.isDirectory == node.isDirectory
    ensures Stored(l) && s.repr !! l.repr && ClonedSoFar(l.Entries(), p, {}, s.Entries())
  {
    Holding(l, p);
    clone := new FileNode(node.name, node.isDirectory, if node.isDirectory then "" else node.content);
    s := LeafLayout(clone);
    SingleIsValid(clone);
    assert p + [] == p;
  }

  // A copy of the tree at `p`, made of new nodes only.
  method CloneNode(node: FileNode, ghost l: Layout<FileNode>, ghost p: Path) returns (clone: FileNode, ghost s: Layout<FileNode>)
    requires l.Valid() && Stored(l) && p in l.nodes && l.nodes[p] == node
    ensures s.Valid() && Stored(s) && s.root == clone
    ensures forall x | x in s.repr :: fresh(x)
    ensures s.Entries() == Subtree(l.Entries(), p)
    ensures clone.name == node.name
    decreases PathsUnder(l, p), 2
  {
    clone, s := CopyNode(node, l, p);
    Holding(s, []);
    ghost var own := s.repr;
    s := CloneChildren(node, l, p, clone, s);
    forall x | x in s.repr ensures fresh(x) {
      if x in own {}
    }
  }

  // Adds a copy of each child of `node` to its copy.
  method CloneChildren(node: FileNode, ghost l: Layout<FileNode>, ghost p: Path, clone: FileNode, ghost s: Layout<FileNode>)
    returns (ghost s': Layout<FileNode>)
    requires l.Valid() && Stored(l) && p in l.nodes && l.nodes[p] == node
    requires s.Valid() && Stored(s) && s.root == clone && clone.isDirectory == node.isDirectory && s.repr !! l.repr
    requires ClonedSoFar(l.Entries(), p, {}, s.Entries())
    modifies clone`children
    ensures s'.Valid() && Stored(s') && s'.root == clone
    ensures forall x | x in s'.repr :: x in s.repr || fresh(x)
    ensures s'.Entries() == Subtree(l.Entries(), p)
    decreases PathsUnder(l, p), 1
  {
    s' := s;
    Holding(l, p);
    Holding(s, []);
    var todo := node.children.Keys;
    while todo != {}
      invariant s'.Valid() && Stored(s') && s'.root == clone && s'.repr !! l.repr
      invariant forall x | x in s'.repr :: x in s.repr || fresh(x)
      invariant Stored(l) && todo <= l.data[p].children.Keys == node.children.Keys
      invariant ClonedSoFar(l.Entries(), p, l.data[p].children.Keys - todo, s'.Entries())
      decreases todo
    {
      var key :| key in todo;
      OneMoreDone(l.data[p].children.Keys, todo, key);
      s' := CloneChild(node, key, l, p, clone, s', l.data[p].children.Keys - todo);
      todo := todo - {key};
    }
    assert l.data[p].children.Keys - todo == l.data[p].children.Keys;
    ChildrenCover(l, p);
    CloneIsSubtree(l.Entries(), p, l.data[p].children.Keys, s'.Entries());
  }

  // Adds a copy of one child of `node` to its copy.
  method CloneChild(node: FileNode, key: string, ghost l: Layout<FileNode>, ghost p: Path, clone: FileNode,
                    ghost s: Layout<FileNode>, ghost done: set<string>)
    returns (ghost s': Layout<FileNode>)
    requires l.Valid() && Stored(l) && p in l.nodes && l.nodes[p] == node && key in node.children
    requires s.Valid() && Stored(s) && s.root == clone && clone.isDirectory == node.isDirectory && s.repr !! l.repr
    requires ClonedSoFar(l.Entries(), p, done, s.Entries())
    modifies clone`children
    ensures s'.Valid() && Stored(s') && s'.root == clone
    ensures forall x | x in s'.repr :: x in s.repr || fresh(x)
    ensures ClonedSoFar(l.Entries(), p, done + {key}, s'.Entries())
    decreases PathsUnder(l, p), 0
  {
    Holding(l, p);
    l.ChildPath(p, key);
    Holding(l, p + [key]);
    Holding(s, []);
    FewerBelow(l, p, key);
    assert l.WellPlaced(p);
    ghost var c;
    var child;
    child, c := CloneNode(node.children[key], l, p + [key]);
    CloneStep(l.Entries(), p, done, s.Entries(), key);
    s' := Attach(s, [], clone, key, child, c);
  }

  // ---------------------------------------------------------- storing in a node

  method StoreContent(ghost l: Layout<FileNode>, ghost t: Path, file: FileNode, content: string) returns (ghost l': Layout<FileNode>)
    requires l.Valid() && Stored(l) && t in l.nodes && l.nodes[t] == file && !file.isDirectory
    modifies file`content
    ensures l'.Valid() && Stored(l') && l'.root == l.root && l'.repr == l.repr
    ensures l'.Entries() == l.Entries()[t := File(content)]
  {
    Holding(l, t);
    file.content := content;
    StoredButOne(l, t, l.data[t].(content := content));
    l' := l.(data := l.data[t := l.data[t].(content := content)]);
    StoringKeepsValid(l, t, l.data[t].(content := content), l');
    StoringSetsEntry(l, t, l.data[t].(content := content));
  }

  method Rename(ghost l: Layout<FileNode>, node: FileNode, name: string) returns (ghost l': Layout<FileNode>)
    requires l.Valid() && Stored(l) && l.root == node
    modifies node`name
    ensures l'.Valid() && Stored(l') && l'.root == l.root && l'.repr == l.repr
    ensures l'.Entries() == l.Entries() && node.name == name
  {
    Holding(l, []);
    node.name := name;
    StoredButOne(l, [], l.data[[]].(name := name));
    l' := l.(data := l.data[[] := l.data[[]].(name := name)]);
    StoringKeepsValid(l, [], l.data[[]].(name := name), l');
    StoringSetsEntry(l, [], l.data[[]].(name := name));
  }

  // A copy of the tree at `p` under another name.
  method CloneAs(node: FileNode, ghost l: Layout<FileNode>, ghost p: Path, name: string) returns (clone: FileNode, ghost s: Layout<FileNode>)
    requires l.Valid() && Stored(l) && p in l.nodes && l.nodes[p] == node
    ensures s.Valid() && Stored(s) && s.root == clone && clone.name == name
    ensures forall x | x in s.repr :: fresh(x)
    ensures s.Entries() == Subtree(l.Entries(), p)
  {
    clone, s := CloneNode(node, l, p);
    Holding(s, []);
    s := Rename(s, clone, name);
  }

  // ----------------------------------------------------------------- the provider

  class InMemoryFileStorage {
    const root: FileNode
    ghost var layout: Layout<FileNode>

    ghost predicate Valid()
      reads this, layout.repr
    {
      layout.Valid() && Stored(layout) && layout.root == root && root.isDirectory
    }

    // What is stored, as a flat map.
    ghost function Contents(): Files
      reads this
    {
      layout.Entries()
    }

    constructor ()
      ensures Valid() && fresh(layout.repr) && Contents() == map[[] := Dir]
    {
      var node := new FileNode("", true, "");
      root := node;
      layout := LeafLayout(node);
      SingleIsValid(node);
    }

    lemma ContentsClosed()
      requires Valid()
      ensures PrefixClosed(Contents())
    {
      Holding(layout, []);
      layout.EntriesClosed();
    }

    // `node` is the one at `p`, and there for an operation to change.
    ghost predicate Found(p: Path, node: FileNode)
      reads this, layout.repr
    {
      p in layout.nodes && p in layout.data && layout.nodes[p] == node && node in layout.repr && node.Holds(layout.data[p])
    }

    lemma FoundAt(p: Path)
      requires Valid() && p in layout.nodes
      ensures Found(p, layout.nodes[p])
    {
      Holding(layout, p);
    }

    lemma FoundChild(p: Path, node: FileNode, n: string)
      requires Valid() && Found(p, node)
      ensures n in node.children <==> p + [n] in layout.nodes
      ensures n in node.children ==> Found(p + [n], node.children[n])
    {
      layout.ChildPath(p, n);
      if n in node.children {
        FoundAt(p + [n]);
      }
    }

    // The node a path names, if any.
    method Resolve(path: string) returns (node: FileNode?)
      requires Valid()
      ensures if Components(path) in layout.nodes then node != null && Found(Components(path), node) else node == null
    {
      var normalized := NormalizePath(path);
      NormalizedIsCanonical(path);
      NormalizeDecides(path, path);
      FoundAt([]);
      if normalized == "/" {
        return root;
      }
      var parts := Components(normalized);
      var current := root;
      for i := 0 to |parts|
        invariant Found(parts[..i], current)
      {
        layout.PathStep(parts, i);
        FoundChild(parts[..i], current, parts[i]);
        if !current.isDirectory || parts[i] !in current.children {
          return null;
        }
        current := current.children[parts[i]];
      }
      assert parts[..|parts|] == parts;
      return current;
    }

    method Exists(path: string) returns (found: bool)
      requires Valid()
      ensures found <==> Components(path) in Contents()
    {
      var node := Resolve(path);
      return node != null;
    }

    method ReadFile(path: string) returns (r: Result<string, FileError>)
      requires Valid()
      ensures r == Read(Contents(), Components(path))
    {
      var node := Resolve(path);
      if node == null {
        return Failure(FileNotFound(Components(path)));
      }
      if node.isDirectory {
        return Failure(IsADirectory(Components(path)));
      }
      return Success(node.content);
    }

    // What is in a directory: the names, and which of them are directories.
    method List(path: string) returns (r: Result<map<string, bool>, FileError>)
      requires Valid()
      ensures r == Listing(Contents(), Components(path))
    {
      var node := Resolve(path);
      if node == null {
        return Failure(FileNotFound(Components(path)));
      }
      if !node.isDirectory {
        return Failure(NotADirectory(Components(path)));
      }
      var entries: map<string, bool> := map[];
      var todo := node.children.Keys;
      while todo != {}
        invariant todo <= node.children.Keys
        invariant entries.Keys == node.children.Keys - todo
        invariant forall n | n in entries :: entries[n] == node.children[n].isDirectory
        decreases todo
      {
        var n :| n in todo;
        todo := todo - {n};
        entries := entries[n := node.children[n].isDirectory];
      }
      ListsDirectory(Components(path), node, entries);
      return Success(entries);
    }

    lemma ListsDirectory(p: Path, node: FileNode, entries: map<string, bool>)
      requires Valid() && Found(p, node) && node.isDirectory
      requires entries.Keys == node.children.Keys && forall n | n in entries :: entries[n] == node.children[n].isDirectory
      ensures Listing(Contents(), p) == Success(entries)
    {
      forall n ensures ListedRight(Contents(), p, entries, n) {
        FoundChild(p, node, n);
      }
      ListingIs(Contents(), p, entries);
    }

    // The directory an operation on `path` works in, and the name it works on there.
    method ResolveParent(path: string) returns (r: Result<FileNode, FileError>, name: string)
      requires Valid()
      ensures var t := Target(Components(path));
              && t == Parent(t) + [name]
              && (r.Failure? <==> ParentCheck(Contents(), Components(path)).Failure?)
              && (r.Failure? ==> Failure(r.error) == ParentCheck(Contents(), Components(path)))
              && (r.Success? ==> Found(Parent(t), r.value) && r.value.isDirectory)
    {
      var (parentPath, last) := ParentAndName(path);
      ParentAndNameSplit(path);
      name := last;
      var parent := Resolve(parentPath);
      if parent == null {
        r := Failure(FileNotFound(Components(parentPath)));
      } else if !parent.isDirectory {
        r := Failure(NotADirectory(Components(parentPath)));
      } else {
        r := Success(parent);
      }
    }

    // Takes `l` for what is stored now.
    ghost method Adopt(l: Layout<FileNode>)
      requires l.Valid() && Stored(l) && l.root == root && root.isDirectory
      modifies this`layout
      ensures Valid() && layout == l
    {
      layout := l;
    }

    // Links a tree of new nodes under a directory.
    method Link(ghost p: Path, parent: FileNode, name: string, child: FileNode, ghost s: Layout<FileNode>)
      requires Valid() && p in layout.nodes && layout.nodes[p] == parent && parent.isDirectory
      requires s.Valid() && Stored(s) && s.root == child && child.name == name && s.repr !! layout.repr
      modifies this, parent`children
      ensures Valid() && forall x | x in layout.repr :: x in old(layout.repr) || x in s.repr
      ensures p + [name] in layout.nodes && layout.nodes[p + [name]] == child
      ensures Contents() == Grafted(old(Contents()), p + [name], s.Entries())
    {
      ghost var l := Attach(layout, p, parent, name, child, s);
      Adopt(l);
    }

    method Unlink(ghost p: Path, parent: FileNode, name: string)
      requires Valid() && p in layout.nodes && layout.nodes[p] == parent
      modifies this, parent`children
      ensures Valid() && layout.repr == old(layout.repr)
      ensures Contents() == Pruned(old(Contents()), p + [name])
    {
      ghost var l := Detach(layout, p, parent, name);
      Adopt(l);
    }

    method Store(ghost t: Path, file: FileNode, content: string)
      requires Valid() && t in layout.nodes && layout.nodes[t] == file && !file.isDirectory
      modifies this, file`content
      ensures Valid() && layout.repr == old(layout.repr)
      ensures Contents() == old(Contents())[t := File(content)]
    {
      ghost var l := StoreContent(layout, t, file, content);
      Adopt(l);
    }

    // A new node without children, laid out.
    method NewLeaf(name: string, isDirectory: bool, content: string) returns (leaf: FileNode, ghost s: Layout<FileNode>)
      ensures s.Valid() && Stored(s) && s.root == leaf && leaf.name == name && leaf.isDirectory == isDirectory
      ensures s.Entries() == map[[] := if isDirectory then Dir else File(content)]
      ensures forall x | x in s.repr :: fresh(x)
    {
      leaf := new FileNode(name, isDirectory, content);
      s := LeafLayout(leaf);
      SingleIsValid(leaf);
      EntriesOfLeaf(leaf);
    }

    // Adds a new node without children where nothing is.
    method AddLeaf(ghost p: Path, parent: FileNode, name: string, isDirectory: bool, content: string)
      returns (leaf: FileNode)
      requires Valid() && p in layout.nodes && layout.nodes[p] == parent && parent.isDirectory && p + [name] !in layout.nodes
      modifies this, parent`children
      ensures Valid() && forall x | x in layout.repr :: x in old(layout.repr) || fresh(x)
      ensures Found(p + [name], leaf) && leaf.isDirectory == isDirectory
      ensures Contents() == old(Contents())[p + [name] := if isDirectory then Dir else File(content)]
    {
      ContentsClosed();
      GraftLeaf(Contents(), p + [name], if isDirectory then Dir else File(content));
      ghost var s;
      leaf, s := NewLeaf(name, isDirectory, content);
      Link(p, parent, name, leaf, s);
      FoundAt(p + [name]);
    }

    method WriteFile(path: string, content: string) returns (r: Outcome)
      requires Valid()
      modifies this, layout.repr
      ensures Valid() && forall x | x in layout.repr :: x in old(layout.repr) || fresh(x)
      ensures r == WriteCheck(old(Contents()), Components(path))
      ensures Contents() == Write(old(Contents()), Components(path), content)
    {
      var parent, name := ResolveParent(path);
      if parent.Failure? {
        return Failure(parent.error);
      }
      ghost var t := Target(Components(path));
      FoundChild(Parent(t), parent.value, name);
      if name in parent.value.children {
        var existing := parent.value.children[name];
        if existing.isDirectory {
          return Failure(IsADirectory(Components(path)));
        }
        Store(t, existing, content);
      } else {
        var leaf := AddLeaf(Parent(t), parent.value, name, false, content);
      }
      return Success(());
    }

    method Mkdir(path: string) returns (r: Outcome)
      requires Valid()
      modifies this, layout.repr
      ensures Valid() && forall x | x in layout.repr :: x in old(layout.repr) || fresh(x)
      ensures r == MkdirCheck(old(Contents()), Components(path))
      ensures Contents() == FileMap.Mkdir(old(Contents()), Components(path))
    {
      var parent, name := ResolveParent(path);
      if parent.Failure? {
        return Failure(parent.error);
      }
      ghost var t := Target(Components(path));
      FoundChild(Parent(t), parent.value, name);
      if name in parent.value.children {
        return Failure(FileExists(Components(path)));
      }
      var leaf := AddLeaf(Parent(t), parent.value, name, true, "");
      return Success(());
    }

    // Makes each missing directory of the path; fails, with nothing made, at the first file on the way.
    method MkdirAll(path: string) returns (r: Outcome)
      requires Valid()
      modifies this, layout.repr
      ensures Valid() && forall x | x in layout.repr :: x in old(layout.repr) || fresh(x)
      ensures r == MkdirAllCheck(old(Contents()), Components(path))
      ensures Contents() == FileMap.MkdirAll(old(Contents()), Components(path))
    {
      NormalizedIsCanonical(path);
      var parts := Components(NormalizePath(path));
      ghost var before := Contents();
      ContentsClosed();
      var file := MakeDirs(parts);
      if file.None? { MadeDirsDone(before, parts); } else { MadeDirsFails(before, parts, file.value); }
      return if file.None? then Success(()) else Failure(FileExists([parts[file.value]]));
    }

    // Walks down the path; stops at the first name that a file has.
    method MakeDirs(parts: Path) returns (file: Option<nat>)
      requires Valid() && PrefixClosed(Contents())
      modifies this, layout.repr
      ensures Valid() && forall x | x in layout.repr :: x in old(layout.repr) || fresh(x)
      ensures file.None? ==> DirsTo(old(Contents()), parts) && Contents() == MadeDirs(old(Contents()), parts)
      ensures file.Some? ==> file.value < |parts| && StopsAt(old(Contents()), parts, file.value) && Contents() == old(Contents())
    {
      var current: FileNode := root;
      ghost var fs := Contents();
      FoundAt([]);
      MadeDirsStart(fs);
      for i := 0 to |parts|
        invariant Valid() && forall x | x in layout.repr :: x in old(layout.repr) || fresh(x)
        invariant Found(parts[..i], current) && current.isDirectory
        invariant Contents() == MadeDirs(fs, parts[..i]) && DirsTo(fs, parts[..i])
      {
        var child := MakeDir(fs, parts, i, current);
        if child == null {
          MadeDirsStay(fs, parts, i);
          return Some(i);
        }
        current := child;
      }
      assert parts[..|parts|] == parts;
      return None;
    }

    // One step of the way: the directory of that name, made when it is missing; null when a file has the name.
    method MakeDir(ghost fs: Files, parts: Path, i: nat, current: FileNode) returns (child: FileNode?)
      requires Valid() && PrefixClosed(fs) && i < |parts|
      requires Found(parts[..i], current) && current.isDirectory
      requires Contents() == MadeDirs(fs, parts[..i]) && DirsTo(fs, parts[..i])
      modifies this, current`children
      ensures Valid() && forall x | x in layout.repr :: x in old(layout.repr) || fresh(x)
      ensures var t := parts[..i + 1];
              if child == null then t in fs && fs[t].File? && Contents() == old(Contents())
              else Found(t, child) && child.isDirectory
                   && Contents() == MadeDirs(fs, t) && DirsTo(fs, t)
    {
      layout.PathStep(parts, i);
      FoundChild(parts[..i], current, parts[i]);
      MadeDirsStep(fs, parts, i);
      if parts[i] in current.children {
        FoundAt(parts[..i + 1]);
        MadeDirsThere(fs, parts, i);
        child := if current.children[parts[i]].isDirectory then current.children[parts[i]] else null;
      } else {
        child := AddLeaf(parts[..i], current, parts[i], true, "");
      }
    }

    method Remove(path: string, recursive: bool) returns (r: Outcome)
      requires Valid()
      modifies this, layout.repr
      ensures Valid() && forall x | x in layout.repr :: x in old(layout.repr) || fresh(x)
      ensures r == RemoveCheck(old(Contents()), Components(path), recursive)
      ensures Contents() == FileMap.Remove(old(Contents()), Components(path), recursive)
    {
      var node := Resolve(path);
      if node == null {
        return Failure(FileNotFound(Components(path)));
      }
      if node.isDirectory && !recursive {
        return Failure(IsADirectory(Components(path)));
      }
      var parent, name := ResolveParent(path);
      ContentsClosed();
      Unlink(Parent(Target(Components(path))), parent.value, name);
      return Success(());
    }

    method Copy(src: string, dest: string) returns (r: Outcome)
      requires Valid()
      modifies this, layout.repr
      ensures Valid() && forall x | x in layout.repr :: x in old(layout.repr) || fresh(x)
      ensures r == CopyCheck(old(Contents()), Components(src), Components(dest))
      ensures Contents() == FileMap.Copy(old(Contents()), Components(src), Components(dest))
    {
      var node := Resolve(src);
      if node == null {
        return Failure(FileNotFound(Components(src)));
      }
      var parent, name := ResolveParent(dest);
      if parent.Failure? {
        return Failure(parent.error);
      }
      ghost var s;
      var clone;
      clone, s := CloneAs(node, layout, Components(src), name);
      Link(Parent(Target(Components(dest))), parent.value, name, clone, s);
      return Success(());
    }

    method Move(src: string, dest: string) returns (r: Outcome)
      requires Valid()
      modifies this, layout.repr
      ensures Valid() && forall x | x in layout.repr :: x in old(layout.repr) || fresh(x)
      ensures r == MoveCheck(old(Contents()), Components(src), Components(dest))
      ensures Contents() == FileMap.Move(old(Contents()), Components(src), Components(dest))
    {
      r := Copy(src, dest);
      if r.Success? {
        r := Remove(src, true);
      }
    }
  }

}
