// What a virtual file system is: a prefix-closed map from paths to directories and files, and what each operation
// does to it. Both tree providers refine it.
module FileMap {
  import opened Text
  import opened FilePaths

  datatype Entry = Dir | File(content: string)

  type Files = map<Path, Entry>

  datatype FileError =
    | FileNotFound(path: Path)
    | NotADirectory(path: Path)
    | IsADirectory(path: Path)
    | FileExists(path: Path)

  type Outcome = Result<(), FileError>

  predicate PrefixClosed(fs: Files) {
    && [] in fs && fs[[]].Dir?
    && forall p | p in fs && p != [] :: Parent(p) in fs && fs[Parent(p)].Dir?
  }

  // ------------------------------------------------------------ parts of a map

  predicate Under(t: Path, q: Path) {
    t <= q
  }

  // The rest of `q` below `t`.
  function Rel(t: Path, q: Path): (r: Path)
    requires Under(t, q)
    ensures t + r == q
  {
    q[|t|..]
  }

  lemma RelOfJoin(t: Path, r: Path)
    ensures Under(t, t + r) && Rel(t, t + r) == r
  {
  }

  lemma Nested(a: Path, b: Path, q: Path)
    requires Under(a, q) && Under(b, q)
    ensures Under(a, b) || Under(b, a)
  {
    if |a| <= |b| {
      assert a == b[..|a|];
    } else {
      assert b == a[..|b|];
    }
  }

  // A step down enters the place `t` only by reaching it.
  lemma EntersAt(t: Path, q: Path, n: string)
    requires Under(t, q + [n]) && !Under(t, q)
    ensures t == q + [n] && Parent(t) == q && Last(t) == n
  {
  }

  function At<T>(m: map<Path, T>, q: Path): Option<T> {
    if q in m then Some(m[q]) else None
  }

  lemma SameEverywhere<T>(a: map<Path, T>, b: map<Path, T>)
    requires forall q :: At(a, q) == At(b, q)
    ensures a == b
  {
    assert forall q :: q in a <==> q in b by {
      forall q ensures q in a <==> q in b {
        assert At(a, q) == At(b, q);
      }
    }
    forall q | q in a ensures a[q] == b[q] {
      assert At(a, q) == At(b, q);
    }
  }

  function Pruned<T>(m: map<Path, T>, t: Path): map<Path, T> {
    map q | q in m && !Under(t, q) :: m[q]
  }

  // What is at and under `s`, by its path from there.
  function Subtree<T>(m: map<Path, T>, s: Path): map<Path, T> {
    map r | r in (set q | q in m && Under(s, q) :: Rel(s, q)) :: m[s + r]
  }

  // `sub` in the place of whatever is at and under `t`.
  function Grafted<T>(m: map<Path, T>, t: Path, sub: map<Path, T>): map<Path, T> {
    Pruned(m, t) + map q | q in (set r | r in sub :: t + r) :: sub[q[|t|..]]
  }

  lemma SubtreeAt<T>(m: map<Path, T>, s: Path, r: Path)
    ensures At(Subtree(m, s), r) == At(m, s + r)
  {
    RelOfJoin(s, r);
    if s + r in m {
      assert Rel(s, s + r) in Subtree(m, s);
    }
  }

  lemma GraftedAt<T>(m: map<Path, T>, t: Path, sub: map<Path, T>, q: Path)
    ensures At(Grafted(m, t, sub), q) == if Under(t, q) then At(sub, Rel(t, q)) else At(m, q)
  {
    if Under(t, q) && Rel(t, q) in sub {
      assert t + Rel(t, q) == q;
    }
  }

  // `after` is `m` with `sub` at and under `t`, entry by entry.
  ghost predicate IsGraft<T>(after: map<Path, T>, m: map<Path, T>, t: Path, sub: map<Path, T>) {
    forall q :: At(after, q) == if Under(t, q) then At(sub, Rel(t, q)) else At(m, q)
  }

  lemma GraftedIsGraft<T>(m: map<Path, T>, t: Path, sub: map<Path, T>)
    ensures IsGraft(Grafted(m, t, sub), m, t, sub)
  {
    forall q { GraftedAt(m, t, sub, q); }
  }

  ghost predicate IsPrune<T>(after: map<Path, T>, m: map<Path, T>, t: Path) {
    forall q :: At(after, q) == if Under(t, q) then None else At(m, q)
  }

  lemma GraftIsUnique<T>(after: map<Path, T>, m: map<Path, T>, t: Path, sub: map<Path, T>)
    requires IsGraft(after, m, t, sub)
    ensures after == Grafted(m, t, sub)
  {
    forall q ensures At(after, q) == At(Grafted(m, t, sub), q) {
      GraftedAt(m, t, sub, q);
    }
    SameEverywhere(after, Grafted(m, t, sub));
  }

  lemma PruneIsUnique<T>(after: map<Path, T>, m: map<Path, T>, t: Path)
    requires IsPrune(after, m, t)
    ensures after == Pruned(m, t)
  {
    assert forall q :: At(after, q) == At(Pruned(m, t), q);
    SameEverywhere(after, Pruned(m, t));
  }

  // ---------------------------------------------------------------- operations

  // What an operation that puts something at `path` needs: a directory to put it in.
  function ParentCheck(fs: Files, path: Path): Outcome {
    var parent := Parent(Target(path));
    if parent !in fs then Failure(FileNotFound(parent))
    else if fs[parent].File? then Failure(NotADirectory(parent))
    else Success(())
  }

  function WriteCheck(fs: Files, path: Path): Outcome {
    if ParentCheck(fs, path).Failure? then ParentCheck(fs, path)
    else if Target(path) in fs && fs[Target(path)].Dir? then Failure(IsADirectory(path))
    else Success(())
  }

  function Write(fs: Files, path: Path, content: string): Files {
    if WriteCheck(fs, path).Success? then fs[Target(path) := File(content)] else fs
  }

  function MkdirCheck(fs: Files, path: Path): Outcome {
    if ParentCheck(fs, path).Failure? then ParentCheck(fs, path)
    else if Target(path) in fs then Failure(FileExists(path))
    else Success(())
  }

  function Mkdir(fs: Files, path: Path): Files {
    if MkdirCheck(fs, path).Success? then fs[Target(path) := Dir] else fs
  }

  // The length of the shortest prefix of `path` that is a file.
  function FirstFile(fs: Files, path: Path, from: nat): (r: Option<nat>)
    requires from <= |path|
    ensures r.Some? ==> from <= r.value <= |path| && path[..r.value] in fs && fs[path[..r.value]].File?
    ensures forall k | from <= k <= |path| && (r.Some? ==> k < r.value) :: path[..k] !in fs || fs[path[..k]].Dir?
    decreases |path| - from
  {
    if path[..from] in fs && fs[path[..from]].File? then Some(from)
    else if from == |path| then None
    else FirstFile(fs, path, from + 1)
  }

  function MkdirAllCheck(fs: Files, path: Path): Outcome {
    match FirstFile(fs, path, 0)
    case None => Success(())
    case Some(k) => if k == 0 then Failure(NotADirectory([])) else Failure(FileExists([path[k - 1]]))
  }

  function Prefixes(path: Path): (r: set<Path>)
    ensures forall q :: q in r <==> Under(q, path)
  {
    if path == [] then {[]}
    else
      assert forall q | Under(q, path) && q != path :: Under(q, Parent(path));
      {path} + Prefixes(Parent(path))
  }

  function MkdirAll(fs: Files, path: Path): Files {
    if MkdirAllCheck(fs, path).Failure? then fs
    else fs + map q | q in Prefixes(path) :: Dir
  }

  function RemoveCheck(fs: Files, path: Path, recursive: bool): Outcome {
    if path !in fs then Failure(FileNotFound(path))
    else if fs[path].Dir? && !recursive then Failure(IsADirectory(path))
    else Success(())
  }

  function Remove(fs: Files, path: Path, recursive: bool): Files {
    if RemoveCheck(fs, path, recursive).Success? then Pruned(fs, Target(path)) else fs
  }

  function CopyCheck(fs: Files, src: Path, dest: Path): Outcome {
    if src !in fs then Failure(FileNotFound(src)) else ParentCheck(fs, dest)
  }

  function Copy(fs: Files, src: Path, dest: Path): Files {
    if CopyCheck(fs, src, dest).Success? then Grafted(fs, Target(dest), Subtree(fs, src)) else fs
  }

  // A move is a copy and then a removal of the source, each on what it finds.
  function MoveCheck(fs: Files, src: Path, dest: Path): Outcome {
    if CopyCheck(fs, src, dest).Failure? then CopyCheck(fs, src, dest)
    else RemoveCheck(Copy(fs, src, dest), src, true)
  }

  function Move(fs: Files, src: Path, dest: Path): Files {
    if CopyCheck(fs, src, dest).Failure? then fs else Remove(Copy(fs, src, dest), src, true)
  }

  // --------------------------------------------------------------------- laws

  lemma {:induction false} PrefixIn(fs: Files, p: Path, k: nat)
    requires PrefixClosed(fs) && p in fs && k <= |p|
    ensures p[..k] in fs && (k < |p| ==> fs[p[..k]].Dir?)
    decreases |p| - k
  {
    if k == |p| {
      assert p[..k] == p;
    } else {
      PrefixIn(fs, p, k + 1);
      assert Parent(p[..k + 1]) == p[..k];
    }
  }

  lemma WriteKeepsClosed(fs: Files, path: Path, content: string)
    requires PrefixClosed(fs)
    ensures PrefixClosed(Write(fs, path, content))
  {
    var t := Target(path);
    var after := Write(fs, path, content);
    forall p | p in after && p != [] ensures Parent(p) in after && after[Parent(p)].Dir? {
      assert p != t ==> p in fs;
      if Parent(p) == t && p in fs { assert fs[t].Dir?; }
    }
  }

  lemma MkdirKeepsClosed(fs: Files, path: Path)
    requires PrefixClosed(fs)
    ensures PrefixClosed(Mkdir(fs, path))
  {
  }

  lemma MkdirAllKeepsClosed(fs: Files, path: Path)
    requires PrefixClosed(fs)
    ensures PrefixClosed(MkdirAll(fs, path))
  {
    var after := MkdirAll(fs, path);
    if MkdirAllCheck(fs, path).Success? {
      forall p | p in after && p != [] ensures Parent(p) in after && after[Parent(p)].Dir? {
        if Parent(p) in fs && Parent(p) <= path {
          assert Parent(p) == path[..|Parent(p)|];
        }
      }
    }
  }

  lemma RemoveKeepsClosed(fs: Files, path: Path, recursive: bool)
    requires PrefixClosed(fs)
    ensures PrefixClosed(Remove(fs, path, recursive))
  {
    var t := Target(path);
    forall p | p in fs && p != [] && !Under(t, p) ensures !Under(t, Parent(p)) {
      assert Under(t, Parent(p)) ==> Under(t, p);
    }
  }

  lemma GraftKeepsClosed(fs: Files, t: Path, sub: Files)
    requires PrefixClosed(fs) && [] in sub
    requires forall r | r in sub && r != [] :: Parent(r) in sub && sub[Parent(r)].Dir?
    requires t != [] && Parent(t) in fs && fs[Parent(t)].Dir?
    ensures PrefixClosed(Grafted(fs, t, sub))
  {
    var after := Grafted(fs, t, sub);
    GraftedAt(fs, t, sub, []);
    forall p | p in after && p != [] ensures Parent(p) in after && after[Parent(p)].Dir? {
      GraftedAt(fs, t, sub, p);
      GraftedAt(fs, t, sub, Parent(p));
      if Under(t, p) && p != t {
        assert Parent(p) == t + Parent(Rel(t, p));
        RelOfJoin(t, Parent(Rel(t, p)));
      } else {
        assert !Under(t, Parent(p));
      }
    }
  }

  lemma CopyKeepsClosed(fs: Files, src: Path, dest: Path)
    requires PrefixClosed(fs)
    ensures PrefixClosed(Copy(fs, src, dest))
  {
    if CopyCheck(fs, src, dest).Success? {
      var sub := Subtree(fs, src);
      assert src + [] == src;
      SubtreeAt(fs, src, []);
      forall r | r in sub && r != [] ensures Parent(r) in sub && sub[Parent(r)].Dir? {
        SubtreeAt(fs, src, r);
        SubtreeAt(fs, src, Parent(r));
        assert Parent(src + r) == src + Parent(r);
      }
      GraftKeepsClosed(fs, Target(dest), sub);
    }
  }

  lemma MoveKeepsClosed(fs: Files, src: Path, dest: Path)
    requires PrefixClosed(fs)
    ensures PrefixClosed(Move(fs, src, dest))
  {
    CopyKeepsClosed(fs, src, dest);
    RemoveKeepsClosed(Copy(fs, src, dest), src, true);
  }

  // A write, by what is there: it succeeds exactly in a directory and not over one; then the path holds the content
  // and nothing else has changed. For the root, the name in it is the empty one.
  lemma WriteIsExact(fs: Files, path: Path, content: string)
    ensures var r, after := WriteCheck(fs, path), Write(fs, path, content);
            var parent, t := if path == [] then [] else path[..|path| - 1], if path == [] then [""] else path;
            && (r.Success? <==> At(fs, parent) == Some(Dir) && At(fs, t) != Some(Dir))
            && (At(fs, parent) == None ==> r == Failure(FileNotFound(parent)))
            && (At(fs, parent).Some? && At(fs, parent).value.File? ==> r == Failure(NotADirectory(parent)))
            && (At(fs, parent) == Some(Dir) && At(fs, t) == Some(Dir) ==> r == Failure(IsADirectory(path)))
            && forall q :: At(after, q) == if r.Success? && q == t then Some(File(content)) else At(fs, q)
  {
  }

  // A mkdir succeeds exactly in a directory where the name is free; then the path is a directory, and nothing else
  // has changed.
  lemma MkdirIsExact(fs: Files, path: Path)
    ensures var r, after := MkdirCheck(fs, path), Mkdir(fs, path);
            var parent, t := if path == [] then [] else path[..|path| - 1], if path == [] then [""] else path;
            && (r.Success? <==> At(fs, parent) == Some(Dir) && At(fs, t) == None)
            && (At(fs, parent) == None ==> r == Failure(FileNotFound(parent)))
            && (At(fs, parent).Some? && At(fs, parent).value.File? ==> r == Failure(NotADirectory(parent)))
            && (At(fs, parent) == Some(Dir) && At(fs, t).Some? ==> r == Failure(FileExists(path)))
            && forall q :: At(after, q) == if r.Success? && q == t then Some(Dir) else At(fs, q)
  {
  }

  // A removal succeeds exactly when something is at the path, and a directory only when asked to go all the way;
  // then what is at the path and below it is gone, and nothing else. A removal of the root only reaches its empty name.
  lemma RemoveIsExact(fs: Files, path: Path, recursive: bool)
    ensures var r, after := RemoveCheck(fs, path, recursive), Remove(fs, path, recursive);
            && (At(fs, path) == None ==> r == Failure(FileNotFound(path)))
            && (At(fs, path) == Some(Dir) && !recursive ==> r == Failure(IsADirectory(path)))
            && (r.Success? <==> At(fs, path).Some? && (At(fs, path).value.File? || recursive))
            && forall q :: At(after, q) == if r.Success? && (if path == [] then q != [] && q[0] == "" else path <= q) then None else At(fs, q)
  {
  }

  // A copy answers by its source and the directory it goes to; a move as its copy, unless the copy left nothing at
  // the source to remove.
  lemma CopyAndMoveAnswers(fs: Files, src: Path, dest: Path)
    ensures var parent := if dest == [] then [] else dest[..|dest| - 1];
            var copy, move := CopyCheck(fs, src, dest), MoveCheck(fs, src, dest);
            && (copy.Success? <==> At(fs, src).Some? && At(fs, parent) == Some(Dir))
            && (At(fs, src) == None ==> copy == Failure(FileNotFound(src)))
            && (At(fs, src).Some? && At(fs, parent) == None ==> copy == Failure(FileNotFound(parent)))
            && (At(fs, src).Some? && At(fs, parent).Some? && At(fs, parent).value.File? ==> copy == Failure(NotADirectory(parent)))
            && (copy.Failure? ==> move == copy && Copy(fs, src, dest) == fs == Move(fs, src, dest))
            && (copy.Success? ==> move == if At(Copy(fs, src, dest), src).Some? then Success(()) else Failure(FileNotFound(src)))
  {
  }

  // After a recursive mkdir that succeeds every prefix of the path is a directory and nothing else has changed;
  // it succeeds exactly when no prefix is a file, and a second call then changes nothing.
  lemma MkdirAllMakesPath(fs: Files, path: Path)
    requires PrefixClosed(fs)
    ensures var after := MkdirAll(fs, path);
            && (MkdirAllCheck(fs, path).Success? <==> forall q | q in fs && q <= path :: fs[q].Dir?)
            && (MkdirAllCheck(fs, path).Failure? ==> after == fs && exists k | 0 < k <= |path| ::
                 && MkdirAllCheck(fs, path) == Failure(FileExists([path[k - 1]]))
                 && path[..k] in fs && fs[path[..k]].File? && forall i | 0 <= i < k :: At(fs, path[..i]) == Some(Dir))
            && (MkdirAllCheck(fs, path).Success? ==>
                 && (forall q :: At(after, q) == if q <= path then Some(Dir) else At(fs, q))
                 && MkdirAllCheck(after, path).Success? && MkdirAll(after, path) == after)
  {
    var after := MkdirAll(fs, path);
    forall q | q <= path ensures q == path[..|q|] {
    }
    if MkdirAllCheck(fs, path).Success? {
      assert MkdirAllCheck(after, path).Success?;
    } else {
      FirstFileBelowDirs(fs, path);
    }
  }

  lemma FirstFileBelowDirs(fs: Files, path: Path)
    requires PrefixClosed(fs) && FirstFile(fs, path, 0).Some?
    ensures var k := FirstFile(fs, path, 0).value; 0 < k && forall i | 0 <= i < k :: At(fs, path[..i]) == Some(Dir)
  {
    var k := FirstFile(fs, path, 0).value;
    assert path[..0] == [];
    forall i | 0 <= i < k ensures At(fs, path[..i]) == Some(Dir) {
      PrefixIn(fs, path[..k], i);
      assert path[..k][..i] == path[..i];
    }
  }

  // A copy makes the destination equal to what the source was, wherever the destination lies, and changes nothing else.
  lemma CopyIsExact(fs: Files, src: Path, dest: Path)
    requires CopyCheck(fs, src, dest).Success?
    ensures var after, t := Copy(fs, src, dest), Target(dest);
            && Subtree(after, t) == Subtree(fs, src)
            && forall q | !Under(t, q) :: At(after, q) == At(fs, q)
  {
    var after, t := Copy(fs, src, dest), Target(dest);
    forall q | !Under(t, q) ensures At(after, q) == At(fs, q) {
      GraftedAt(fs, t, Subtree(fs, src), q);
    }
    forall r ensures At(Subtree(after, t), r) == At(Subtree(fs, src), r) {
      SubtreeAt(after, t, r);
      GraftedAt(fs, t, Subtree(fs, src), t + r);
      RelOfJoin(t, r);
    }
    SameEverywhere(Subtree(after, t), Subtree(fs, src));
  }

  // Places that hold the same entries have the same subtrees.
  lemma SameSubtree(a: Files, b: Files, t: Path)
    requires forall q | Under(t, q) :: At(a, q) == At(b, q)
    ensures Subtree(a, t) == Subtree(b, t)
  {
    forall r ensures At(Subtree(a, t), r) == At(Subtree(b, t), r) {
      SubtreeAt(a, t, r);
      SubtreeAt(b, t, r);
      RelOfJoin(t, r);
    }
    SameEverywhere(Subtree(a, t), Subtree(b, t));
  }

  // A later write or removal at or under one of two separate places never shows at the other.
  lemma ChangesStayApart(fs: Files, a: Path, b: Path, path: Path, content: string, recursive: bool)
    requires Under(a, Target(path)) && !Under(a, b) && !Under(b, a)
    ensures Subtree(Write(fs, path, content), b) == Subtree(fs, b)
    ensures Subtree(Remove(fs, path, recursive), b) == Subtree(fs, b)
  {
    var t := Target(path);
    forall q | Under(b, q) ensures !Under(t, q) {
      if Under(t, q) {
        Nested(t, b, q);
        if Under(b, t) { Nested(a, b, t); }
      }
    }
    SameSubtree(Write(fs, path, content), fs, b);
    SameSubtree(Remove(fs, path, recursive), fs, b);
  }

  // A copy and its original, neither inside the other, stay apart: a later write or removal in one of them never
  // shows in the other.
  lemma CopiesStayApart(fs: Files, src: Path, dest: Path, path: Path, content: string, recursive: bool)
    requires CopyCheck(fs, src, dest).Success? && !Under(src, Target(dest)) && !Under(Target(dest), src)
    ensures var copied, t := Copy(fs, src, dest), Target(dest);
            && (Under(t, Target(path)) ==>
                 Subtree(Write(copied, path, content), src) == Subtree(Remove(copied, path, recursive), src) == Subtree(fs, src))
            && (Under(src, Target(path)) ==>
                 Subtree(Write(copied, path, content), t) == Subtree(Remove(copied, path, recursive), t) == Subtree(fs, src))
  {
    var copied, t := Copy(fs, src, dest), Target(dest);
    CopyIsExact(fs, src, dest);
    forall q | Under(src, q) ensures At(copied, q) == At(fs, q) {
      if Under(t, q) { Nested(src, t, q); }
    }
    SameSubtree(copied, fs, src);
    if Under(t, Target(path)) { ChangesStayApart(copied, t, src, path, content, recursive); }
    if Under(src, Target(path)) { ChangesStayApart(copied, src, t, path, content, recursive); }
  }

  // What a caller of move expects: the destination is what the source was, the source is gone, nothing else changed.
  ghost predicate Relocated(fs: Files, src: Path, dest: Path, after: Files) {
    && Subtree(after, dest) == Subtree(fs, src)
    && (forall q | Under(src, q) :: q !in after)
    && (forall q | !Under(src, q) && !Under(dest, q) :: At(after, q) == At(fs, q))
  }

  // Move relocates exactly when it can copy and neither path lies in the other. Otherwise it loses the source,
  // or fails after it has overwritten the destination.
  lemma MoveRelocates(fs: Files, src: Path, dest: Path)
    requires PrefixClosed(fs) && IsPath(src)
    ensures MoveCheck(fs, src, dest).Success? && Relocated(fs, src, dest, Move(fs, src, dest))
       <==> CopyCheck(fs, src, dest).Success? && !Under(src, dest) && !Under(dest, src)
  {
    if CopyCheck(fs, src, dest).Success? {
      if dest == [] {
        MoveToRootFails(fs, src);
      } else if Under(src, dest) || Under(dest, src) {
        OverlappingMoveFails(fs, src, dest);
      } else {
        SeparateMoveRelocates(fs, src, dest);
      }
    }
  }

  lemma {:induction false} LongestIn(paths: set<Path>) returns (longest: Path)
    requires paths != {}
    ensures longest in paths && forall p | p in paths :: |p| <= |longest|
    decreases |paths|
  {
    longest :| longest in paths;
    var rest := paths - {longest};
    if rest != {} {
      var other := LongestIn(rest);
      if |other| > |longest| { longest := other; }
    }
  }

  lemma SomeEnd<T>(m: map<Path, T>, name: string)
    requires m != map[]
    ensures exists r | r in m :: [name] + r !in m
  {
    assert m.Keys != {};
    var longest := LongestIn(m.Keys);
    assert |[name] + longest| > |longest|;
  }

  // A move to the root goes under its empty name.
  lemma MovedToRoot(fs: Files, src: Path, r: Path)
    requires IsPath(src) && src != [] && CopyCheck(fs, src, []).Success?
    ensures At(Move(fs, src, []), [""] + r) == At(Subtree(fs, src), r)
  {
    RelOfJoin([""], r);
    GraftedAt(fs, [""], Subtree(fs, src), [""] + r);
    assert ([""] + r)[0] == "";
    assert !Under(src, [""] + r);
  }

  lemma RootStays(fs: Files)
    requires [] in fs
    ensures [] in Move(fs, [], [])
  {
    GraftedAt(fs, [""], Subtree(fs, []), []);
  }

  lemma NotOneLevelDown(fs: Files, src: Path)
    requires IsPath(src) && src != [] && CopyCheck(fs, src, []).Success?
    ensures Subtree(Move(fs, src, []), []) != Subtree(fs, src)
  {
    var sub := Subtree(fs, src);
    assert src + [] == src;
    SubtreeAt(fs, src, []);
    SomeEnd(sub, "");
    var r :| r in sub && [""] + r !in sub;
    MovedToRoot(fs, src, r);
    SubtreeAt(Move(fs, src, []), [], [""] + r);
    assert [] + ([""] + r) == [""] + r;
  }

  // Which is one level below the root.
  lemma MoveToRootFails(fs: Files, src: Path)
    requires PrefixClosed(fs) && IsPath(src) && CopyCheck(fs, src, []).Success?
    ensures !Relocated(fs, src, [], Move(fs, src, []))
  {
    if src == [] {
      RootStays(fs);
      assert Under(src, []);
    } else {
      NotOneLevelDown(fs, src);
    }
  }

  lemma OverlappingMoveFails(fs: Files, src: Path, dest: Path)
    requires PrefixClosed(fs) && dest != [] && CopyCheck(fs, src, dest).Success?
    requires Under(src, dest) || Under(dest, src)
    ensures !(MoveCheck(fs, src, dest).Success? && Relocated(fs, src, dest, Move(fs, src, dest)))
  {
    var copied, after := Copy(fs, src, dest), Move(fs, src, dest);
    if MoveCheck(fs, src, dest).Success? {
      if Under(src, dest) {
        assert dest + [] == dest && src + [] == src;
        SubtreeAt(after, dest, []);
        SubtreeAt(fs, src, []);
        if src == [] {
          GraftedAt(fs, dest, Subtree(fs, src), []);
          assert [] in after;
        }
      } else {
        var r := Rel(dest, src);
        CopyIsExact(fs, src, dest);
        SubtreeAt(copied, dest, r);
        SubtreeAt(after, dest, r);
        assert src != [] && src in copied && src !in after;
      }
    }
  }

  lemma SeparateMoveRelocates(fs: Files, src: Path, dest: Path)
    requires PrefixClosed(fs) && dest != [] && CopyCheck(fs, src, dest).Success?
    requires !Under(src, dest) && !Under(dest, src)
    ensures MoveCheck(fs, src, dest).Success? && Relocated(fs, src, dest, Move(fs, src, dest))
  {
    var copied, after := Copy(fs, src, dest), Move(fs, src, dest);
    CopyIsExact(fs, src, dest);
    assert At(copied, src) == At(fs, src);
    forall q | Under(dest, q) ensures At(after, q) == At(copied, q) {
      if Under(src, q) { Nested(src, dest, q); }
    }
    SameSubtree(after, copied, dest);
    forall q | !Under(src, q) && !Under(dest, q) ensures At(after, q) == At(fs, q) {
      assert At(copied, q) == At(fs, q);
    }
  }

  function Read(fs: Files, path: Path): Result<string, FileError> {
    if path !in fs then Failure(FileNotFound(path))
    else match fs[path]
      case Dir => Failure(IsADirectory(path))
      case File(content) => Success(content)
  }

  lemma ReadIsExact(fs: Files, path: Path, content: string)
    ensures Read(fs, path) == Success(content) <==> At(fs, path) == Some(File(content))
    ensures Read(fs, path) == Failure(FileNotFound(path)) <==> At(fs, path) == None
    ensures Read(fs, path) == Failure(IsADirectory(path)) <==> At(fs, path) == Some(Dir)
  {
  }

  // A write that succeeds is read back exactly when its path is not the root.
  lemma WriteIsReadBack(fs: Files, path: Path, content: string)
    requires PrefixClosed(fs) && WriteCheck(fs, path).Success?
    ensures Read(Write(fs, path, content), path) == Success(content) <==> path != []
  {
  }

  // The names in a directory are those of the entries one step below.
  function Names(fs: Files, path: Path): set<string> {
    set q | q in fs && q != [] && Parent(q) == path :: Last(q)
  }

  lemma NamesAreChildren(fs: Files, path: Path, name: string)
    ensures name in Names(fs, path) <==> path + [name] in fs
  {
    if path + [name] in fs {
      var q := path + [name];
      assert Parent(q) == path && Last(q) == name;
    }
    if name in Names(fs, path) {
      var q :| q in fs && q != [] && Parent(q) == path && Last(q) == name;
      assert q == path + [name];
    }
  }

  // A directory's listing: its names, and which of them are directories.
  function Listing(fs: Files, path: Path): Result<map<string, bool>, FileError> {
    if path !in fs then Failure(FileNotFound(path))
    else if fs[path].File? then Failure(NotADirectory(path))
    else
      Success(map n | n in Names(fs, path) :: NamesAreChildren(fs, path, n); fs[path + [n]].Dir?)
  }

  // A directory's listing has a name exactly when there is an entry one step below, and tells directories from files.
  lemma ListingIsExact(fs: Files, path: Path)
    ensures At(fs, path) == None ==> Listing(fs, path) == Failure(FileNotFound(path))
    ensures path in fs && fs[path].File? ==> Listing(fs, path) == Failure(NotADirectory(path))
    ensures At(fs, path) == Some(Dir) ==>
              && Listing(fs, path).Success?
              && (forall n :: n in Listing(fs, path).value <==> At(fs, path + [n]).Some?)
              && (forall n | n in Listing(fs, path).value :: Listing(fs, path).value[n] <==> At(fs, path + [n]) == Some(Dir))
  {
    forall n {
      NamesAreChildren(fs, path, n);
    }
  }

  // `entries` has the name `n` of a child of `path` rightly, or rightly lacks it.
  ghost predicate ListedRight(fs: Files, path: Path, entries: map<string, bool>, n: string) {
    if path + [n] in fs then n in entries && entries[n] == fs[path + [n]].Dir? else n !in entries
  }

  lemma ListingIs(fs: Files, path: Path, entries: map<string, bool>)
    requires path in fs && fs[path].Dir? && forall n {:trigger ListedRight(fs, path, entries, n)} :: ListedRight(fs, path, entries, n)
    ensures Listing(fs, path) == Success(entries)
  {
    var listed := Listing(fs, path).value;
    forall n ensures (n in listed <==> n in entries) && (n in listed ==> listed[n] == entries[n]) {
      NamesAreChildren(fs, path, n);
      assert ListedRight(fs, path, entries, n);
    }
    assert listed == entries;
  }
}
