// Paths of the virtual file systems: how a path string is normalized, and the names it stands for.
module FilePaths {
  import opened Text

  type Path = seq<string>

  const SLASH: char := '/'

  // ------------------------------------------------------------ normalization

  function CollapseSlashes(s: string): string {
    if s == "" then ""
    else if s[0] == SLASH && |s| > 1 && s[1] == SLASH then CollapseSlashes(s[1..])
    else [s[0]] + CollapseSlashes(s[1..])
  }

  function StripTrailingSlashes(s: string): string {
    if s != "" && s[|s| - 1] == SLASH then StripTrailingSlashes(s[..|s| - 1]) else s
  }

  function NormalizePath(p: string): string {
    var stripped := StripTrailingSlashes(CollapseSlashes(p));
    if stripped == "" || stripped[0] != SLASH then [SLASH] + stripped else stripped
  }

  function LastIndexOf(s: string, c: char): (r: int)
    ensures -1 <= r < |s|
    ensures r >= 0 ==> s[r] == c
    ensures forall k | r < k < |s| :: s[k] != c
  {
    if s == "" then -1
    else if s[|s| - 1] == c then |s| - 1
    else LastIndexOf(s[..|s| - 1], c)
  }

  function SplitLast(normalized: string): (string, string) {
    var last := LastIndexOf(normalized, SLASH);
    if last < 0 then ([SLASH], normalized)
    else (if last == 0 then [SLASH] else normalized[..last], normalized[last + 1..])
  }

  function ParentAndName(p: string): (string, string) {
    var normalized := NormalizePath(p);
    if normalized == [SLASH] then ([SLASH], "") else SplitLast(normalized)
  }

  // ------------------------------------------------------------------- names

  function NonEmpty(names: seq<string>): (r: seq<string>)
    ensures forall i | 0 <= i < |r| :: r[i] in names && r[i] != ""
  {
    if names == [] then []
    else (if names[0] != "" then [names[0]] else []) + NonEmpty(names[1..])
  }

  function Components(p: string): (r: Path)
    ensures forall i | 0 <= i < |r| :: r[i] != "" && SLASH !in r[i]
  {
    NonEmpty(SplitOn(p, SLASH))
  }

  function Canonical(path: Path): string {
    [SLASH] + JoinWith(path, [SLASH])
  }

  lemma {:induction false} NonEmptyConcat(a: seq<string>, b: seq<string>)
    ensures NonEmpty(a + b) == NonEmpty(a) + NonEmpty(b)
  {
    if a == [] {
      assert a + b == b;
    } else {
      NonEmptyConcat(a[1..], b);
      assert (a + b)[1..] == a[1..] + b;
      ConcatAssociative(if a[0] != "" then [a[0]] else [], NonEmpty(a[1..]), NonEmpty(b));
    }
  }

  lemma {:induction false} NonEmptyOfNonEmpty(names: seq<string>)
    requires forall i | 0 <= i < |names| :: names[i] != ""
    ensures NonEmpty(names) == names
  {
    if names != [] {
      NonEmptyOfNonEmpty(names[1..]);
    }
  }

  lemma LeadingSlash(s: string)
    ensures Components([SLASH] + s) == Components(s)
  {
    assert ([SLASH] + s)[1..] == s;
    NonEmptyConcat([""], SplitOn(s, SLASH));
  }

  lemma {:induction false} CollapseKeepsPieces(s: string)
    ensures var a, b := SplitOn(CollapseSlashes(s), SLASH), SplitOn(s, SLASH);
            a[0] == b[0] && NonEmpty(a[1..]) == NonEmpty(b[1..])
  {
    if s != "" {
      CollapseKeepsPieces(s[1..]);
      var t := s[1..];
      SplitFirst(s, SLASH);
      if s[0] == SLASH && |s| > 1 && s[1] == SLASH {
        SplitFirst(t, SLASH);
        var pieces := SplitOn(t[1..], SLASH);
        assert SplitOn(t, SLASH)[1..] == pieces;
        assert SplitOn(s, SLASH)[1..] == [""] + pieces;
        NonEmptyConcat([""], pieces);
      } else {
        var c := CollapseSlashes(s);
        assert c[1..] == CollapseSlashes(t);
        SplitFirst(c, SLASH);
        var x, y := SplitOn(CollapseSlashes(t), SLASH), SplitOn(t, SLASH);
        assert x == [x[0]] + x[1..] && y == [y[0]] + y[1..];
        NonEmptyConcat([x[0]], x[1..]);
        NonEmptyConcat([y[0]], y[1..]);
        if s[0] == SLASH {
          assert SplitOn(c, SLASH)[1..] == x && SplitOn(s, SLASH)[1..] == y;
        } else {
          assert SplitOn(c, SLASH)[1..] == x[1..] && SplitOn(s, SLASH)[1..] == y[1..];
        }
      }
    }
  }

  lemma CollapseKeepsComponents(s: string)
    ensures Components(CollapseSlashes(s)) == Components(s)
  {
    CollapseKeepsPieces(s);
    var a, b := SplitOn(CollapseSlashes(s), SLASH), SplitOn(s, SLASH);
    assert a == [a[0]] + a[1..] && b == [b[0]] + b[1..];
    NonEmptyConcat([a[0]], a[1..]);
    NonEmptyConcat([b[0]], b[1..]);
  }

  lemma {:induction false} StripKeepsComponents(s: string)
    ensures Components(StripTrailingSlashes(s)) == Components(s)
  {
    if s != "" && s[|s| - 1] == SLASH {
      var init := s[..|s| - 1];
      StripKeepsComponents(init);
      assert s == init + [SLASH] + "";
      SplitAround(init, "", SLASH);
      NonEmptyConcat(SplitOn(init, SLASH), [""]);
    }
  }

  // No two slashes in a row.
  predicate Single(s: string) {
    forall i | 0 < i < |s| :: !(s[i - 1] == SLASH && s[i] == SLASH)
  }

  lemma {:induction false} CollapsedIsSingle(s: string)
    ensures Single(CollapseSlashes(s))
    ensures (CollapseSlashes(s) == "" <==> s == "") && (s != "" ==> CollapseSlashes(s)[0] == s[0])
  {
    if s != "" {
      CollapsedIsSingle(s[1..]);
    }
  }

  lemma {:induction false} StrippedIsSingle(s: string)
    requires Single(s)
    ensures var r := StripTrailingSlashes(s); r <= s && Single(r) && (r != "" ==> r[|r| - 1] != SLASH)
  {
    if s != "" && s[|s| - 1] == SLASH {
      StrippedIsSingle(s[..|s| - 1]);
    }
  }

  // Text with no empty piece between slashes, before the first or after the last.
  lemma {:induction false} PiecesNotEmpty(s: string)
    requires s != "" && Single(s) && s[|s| - 1] != SLASH
    ensures var r := SplitOn(s, SLASH);
            (forall i | 0 < i < |r| :: r[i] != "") && (r[0] == "" <==> s[0] == SLASH)
  {
    if |s| > 1 {
      PiecesNotEmpty(s[1..]);
    }
  }

  // Text with single slashes between names is its names joined.
  lemma SingleIsJoined(body: string)
    requires Single(body) && (body != "" ==> body[0] != SLASH && body[|body| - 1] != SLASH)
    ensures body == JoinWith(Components(body), [SLASH])
  {
    if body == "" {
      assert SplitOn(body, SLASH) == [""] && NonEmpty([""]) == [];
    } else {
      PiecesNotEmpty(body);
      NonEmptyOfNonEmpty(SplitOn(body, SLASH));
      JoinSplit(body, SLASH);
    }
  }

  // A normalized path is a slash and its names between single slashes.
  lemma NormalizedIsCanonical(p: string)
    ensures Components(NormalizePath(p)) == Components(p)
    ensures NormalizePath(p) == Canonical(Components(p))
  {
    var collapsed := CollapseSlashes(p);
    var stripped := StripTrailingSlashes(collapsed);
    CollapseKeepsComponents(p);
    StripKeepsComponents(collapsed);
    LeadingSlash(stripped);
    CollapsedIsSingle(p);
    StrippedIsSingle(collapsed);
    var body := if stripped != "" && stripped[0] == SLASH then stripped[1..] else stripped;
    assert NormalizePath(p) == [SLASH] + body;
    LeadingSlash(body);
    SingleIsJoined(body);
  }

  predicate IsPath(path: Path) {
    forall i | 0 <= i < |path| :: path[i] != "" && SLASH !in path[i]
  }

  lemma ComponentsOfCanonical(path: Path)
    requires IsPath(path)
    ensures Components(Canonical(path)) == path
  {
    LeadingSlash(JoinWith(path, [SLASH]));
    if path != [] {
      SplitJoin(path, SLASH);
      NonEmptyOfNonEmpty(path);
    } else {
      assert SplitOn("", SLASH) == [""] && NonEmpty([""]) == [];
    }
  }

  // Normalizing is idempotent, and two paths are normalized alike exactly when they name the same.
  lemma NormalizeDecides(p: string, q: string)
    ensures NormalizePath(NormalizePath(p)) == NormalizePath(p)
    ensures NormalizePath(p) == NormalizePath(q) <==> Components(p) == Components(q)
    ensures NormalizePath(p) == [SLASH] <==> Components(p) == []
  {
    NormalizedIsCanonical(p);
    NormalizedIsCanonical(q);
    NormalizedIsCanonical(NormalizePath(p));
    if Components(p) != [] {
      CanonicalLonger(Components(p));
    }
  }

  lemma CanonicalLonger(path: Path)
    requires path != [] && path[0] != ""
    ensures |Canonical(path)| > 1
  {
  }

  lemma {:induction false} JoinLast(path: Path)
    requires |path| > 1
    ensures JoinWith(path, [SLASH]) == JoinWith(path[..|path| - 1], [SLASH]) + [SLASH] + path[|path| - 1]
  {
    if |path| > 2 {
      JoinLast(path[1..]);
      assert path[1..][..|path| - 2] == path[..|path| - 1][1..];
    }
  }

  // The entry an operation on `path` works on: below its parent, under its last name; for the root, the name "".
  function Target(path: Path): (r: Path)
    ensures r != []
  {
    if path == [] then [""] else path
  }

  function Parent(path: Path): Path
    requires path != []
  {
    path[..|path| - 1]
  }

  function Last(path: Path): string
    requires path != []
  {
    path[|path| - 1]
  }

  lemma SplitLastOfCanonical(path: Path)
    requires path != [] && IsPath(path)
    ensures SplitLast(Canonical(path)) == (Canonical(Parent(path)), Last(path))
  {
    var n := |path| - 1;
    if n == 0 {
      LastSlash("", path[0]);
      assert Canonical(path) == "" + [SLASH] + path[0];
      assert Canonical([]) == [SLASH];
    } else {
      JoinLast(path);
      var head := Canonical(path[..n]);
      assert Canonical(path) == head + [SLASH] + path[n];
      LastSlash(head, path[n]);
    }
  }

  // Splitting off the last name: the parent path names the parent's names, and the name is the last.
  lemma ParentAndNameSplit(p: string)
    ensures var (parent, name) := ParentAndName(p);
            var target := Target(Components(p));
            && Components(parent) == Parent(target)
            && name == Last(target)
            && target == Parent(target) + [name]
  {
    var path := Components(p);
    NormalizedIsCanonical(p);
    NormalizeDecides(p, p);
    if path == [] {
      ComponentsOfCanonical([]);
    } else {
      SplitLastOfCanonical(path);
      ComponentsOfCanonical(Parent(path));
    }
  }

  lemma LastSlash(head: string, name: string)
    requires SLASH !in name
    ensures var s := head + [SLASH] + name;
            LastIndexOf(s, SLASH) == |head| && s[..|head|] == head && s[|head| + 1..] == name
  {
    var s := head + [SLASH] + name;
    assert s[|head|] == SLASH;
    forall k | |head| < k < |s| ensures s[k] != SLASH {
      assert s[k] == name[k - |head| - 1];
    }
  }
}
