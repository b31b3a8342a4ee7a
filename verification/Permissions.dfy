// Permission strings with wildcards: which permission covers which, and what that means for merged lists,
// scoped API tokens and chains of grants.
module Permissions {
  import opened Text

  // ---------------------------------------------------------------- covering

  const ANY := "*"

  // Permissions differing only here mean the same.
  function Key(permission: string): string {
    Lower(Trim(permission))
  }

  function Segments(permission: string): (r: seq<string>)
    ensures |r| >= 1
  {
    SplitOn(Key(permission), ':')
  }

  // The first `n` segments of `g` match those of `r`, a wildcard matching any one segment.
  predicate MatchesUpTo(g: seq<string>, r: seq<string>, n: nat) {
    n <= |g| && n <= |r| && forall i | 0 <= i < n :: g[i] == ANY || g[i] == r[i]
  }

  // `g` covers `r`: segment by segment, or up to a final wildcard that takes whatever is left, even nothing.
  predicate Covers(g: seq<string>, r: seq<string>) {
    || (|g| == |r| && MatchesUpTo(g, r, |g|))
    || (g != [] && g[|g| - 1] == ANY && MatchesUpTo(g, r, |g| - 1))
  }

  predicate Grants(granted: string, required: string) {
    Covers(Segments(granted), Segments(required))
  }

  method PermissionMatches(granted: string, required: string) returns (matches: bool)
    ensures matches == Grants(granted, required)
  {
    var g, r := Segments(granted), Segments(required);
    for i := 0 to |g|
      invariant MatchesUpTo(g, r, i)
      invariant i == |g| ==> g[|g| - 1] != ANY
    {
      if g[i] == ANY && i == |g| - 1 {
        return true;
      }
      if i >= |r| || (g[i] != ANY && g[i] != r[i]) {
        return false;
      }
    }
    return |g| == |r|;
  }

  predicate HasPermission(granted: seq<string>, required: string) {
    exists p | p in granted :: Grants(p, required)
  }

  lemma CoversReflexive(a: seq<string>)
    ensures Covers(a, a)
  {
  }

  // Case and surrounding blanks make no difference.
  lemma GrantsInAnyCase(a: string, b: string, required: string)
    requires Lower(Trim(a)) == Lower(Trim(b))
    ensures Grants(a, required) == Grants(b, required) && Grants(required, a) == Grants(required, b)
  {
  }

  // Covering composes exactly when the outer pattern is at most one segment longer than the final request.
  lemma CoversComposes(a: seq<string>, b: seq<string>, c: seq<string>)
    requires Covers(a, b) && Covers(b, c)
    ensures Covers(a, c) <==> |a| <= |c| + 1
    ensures |c| >= |b| ==> Covers(a, c)
  {
  }

  // ------------------------------------------------------ chains of covering

  // The pattern without its trailing wildcards.
  function Stem(g: seq<string>): (r: seq<string>)
    ensures r <= g
    ensures r != [] ==> r[|r| - 1] != ANY
    ensures forall i | |r| <= i < |g| :: g[i] == ANY
  {
    if g != [] && g[|g| - 1] == ANY then Stem(g[..|g| - 1]) else g
  }

  predicate Open(g: seq<string>) {
    g != [] && g[|g| - 1] == ANY
  }

  // `g` covers `r`, directly or through permissions in between.
  predicate Dominates(g: seq<string>, r: seq<string>) {
    if Open(g) then MatchesUpTo(Stem(g), r, |Stem(g)|) else Covers(g, r)
  }

  lemma DominatesTransitive(a: seq<string>, b: seq<string>, c: seq<string>)
    requires Dominates(a, b) && Dominates(b, c)
    ensures Dominates(a, c)
  {
    if Open(a) && Open(b) {
      var s, t := Stem(a), Stem(b);
      assert |s| <= |t| by {
        if |s| > |t| { assert false; }
      }
    }
  }

  ghost predicate Chain(xs: seq<seq<string>>) {
    xs != [] && forall i | 0 < i < |xs| :: Covers(xs[i - 1], xs[i])
  }

  lemma {:induction false} ChainDominates(xs: seq<seq<string>>)
    requires Chain(xs)
    ensures Dominates(xs[0], xs[|xs| - 1])
  {
    var n := |xs| - 1;
    if n > 0 {
      ChainDominates(xs[..n]);
      DominatesTransitive(xs[0], xs[n - 1], xs[n]);
    }
  }

  lemma {:induction false} DominatesChain(a: seq<string>, c: seq<string>) returns (xs: seq<seq<string>>)
    requires Dominates(a, c)
    ensures Chain(xs) && xs[0] == a && xs[|xs| - 1] == c
    decreases |a|
  {
    if Covers(a, c) {
      xs := [a, c];
    } else {
      var b := a[..|a| - 1];
      assert |Stem(a)| < |b| by {
        if |Stem(a)| >= |b| { assert false; }
      }
      assert b[|b| - 1] == ANY;
      var rest := DominatesChain(b, c);
      xs := [a] + rest;
    }
  }

  // A pattern without two trailing wildcards, beyond the two-segment ones.
  predicate Tight(g: seq<string>) {
    |g| <= 2 || g[|g| - 1] != ANY || g[|g| - 2] != ANY
  }

  // Chains add nothing to a permission exactly when it is tight.
  lemma TightIffChainsAddNothing(g: seq<string>)
    requires g != []
    ensures Tight(g) <==> forall r: seq<string> | r != [] :: Dominates(g, r) ==> Covers(g, r)
  {
    if Tight(g) {
      forall r: seq<string> | r != [] && Dominates(g, r)
        ensures Covers(g, r)
      {
        if Open(g) && |g| > 2 {
          assert Stem(g) == g[..|g| - 1];
        }
      }
    } else {
      var r := g[..|g| - 2];
      assert Dominates(g, r) && !Covers(g, r);
    }
  }

  lemma CoversDominates(g: seq<string>, r: seq<string>)
    requires Covers(g, r)
    ensures Dominates(g, r)
  {
  }

  // ----------------------------------------------------------------- merging

  predicate Blank(permission: string) {
    Trim(permission) == ""
  }

  predicate HasKey(list: seq<string>, key: string) {
    exists p | p in list :: Key(p) == key
  }

  function AddPermission(out: seq<string>, permission: string): (r: seq<string>) {
    if Blank(permission) || HasKey(out, Key(permission)) then out else out + [Trim(permission)]
  }

  // The trimmed non-blank permissions of `all`, each key where it is seen first.
  function FirstSeen(all: seq<string>): (r: seq<string>)
    ensures forall p | p in r :: !Blank(p)
    ensures forall i, j | 0 <= i < j < |r| :: Key(r[i]) != Key(r[j])
  {
    if all == [] then []
    else
      TrimIdempotent(all[|all| - 1]);
      AddPermission(FirstSeen(all[..|all| - 1]), all[|all| - 1])
  }

  lemma FirstSeenStep(before: seq<string>, list: seq<string>, j: nat)
    requires j < |list|
    ensures FirstSeen(before + list[..j + 1]) == AddPermission(FirstSeen(before + list[..j]), list[j])
  {
    var all := before + list[..j + 1];
    assert all[..|all| - 1] == before + list[..j] && all[|all| - 1] == list[j];
  }

  lemma KeysOfAdded(out: seq<string>, permission: string, key: string)
    ensures HasKey(AddPermission(out, permission), key)
       <==> HasKey(out, key) || (!Blank(permission) && Key(permission) == key)
  {
    TrimIdempotent(permission);
    var r := AddPermission(out, permission);
    if r == out + [Trim(permission)] {
      assert forall p :: p in r <==> p in out || p == Trim(permission);
      assert Trim(permission) in r;
    }
  }

  function Flatten(lists: seq<Option<seq<string>>>): seq<string> {
    if lists == [] then []
    else Flatten(lists[..|lists| - 1]) + lists[|lists| - 1].GetOr([])
  }

  ghost predicate KeysOf(seen: set<string>, out: seq<string>) {
    forall k :: k in seen <==> HasKey(out, k)
  }

  lemma SeenStep(seen: set<string>, out: seq<string>, permission: string)
    requires KeysOf(seen, out)
    ensures var key := Trim(permission);
            if key != "" && Lower(key) !in seen
            then AddPermission(out, permission) == out + [key] && KeysOf(seen + {Lower(key)}, out + [key])
            else AddPermission(out, permission) == out
  {
    forall k {
      KeysOfAdded(out, permission, k);
    }
  }

  method MergePermissions(lists: seq<Option<seq<string>>>) returns (out: seq<string>)
    ensures out == FirstSeen(Flatten(lists))
  {
    var seen: set<string> := {};
    out := [];
    for i := 0 to |lists|
      invariant out == FirstSeen(Flatten(lists[..i]))
      invariant KeysOf(seen, out)
    {
      var list := lists[i].GetOr([]);
      ghost var before := Flatten(lists[..i]);
      FlattenStep(lists, i);
      assert before + list[..0] == before;
      for j := 0 to |list|
        invariant out == FirstSeen(before + list[..j])
        invariant KeysOf(seen, out)
      {
        FirstSeenStep(before, list, j);
        SeenStep(seen, out, list[j]);
        var key := Trim(list[j]);
        if key != "" && Lower(key) !in seen {
          seen := seen + {Lower(key)};
          out := out + [key];
        }
      }
      assert list[..|list|] == list;
    }
    assert lists[..|lists|] == lists;
  }

  lemma FlattenStep(lists: seq<Option<seq<string>>>, i: nat)
    requires i < |lists|
    ensures Flatten(lists[..i + 1]) == Flatten(lists[..i]) + lists[i].GetOr([])
  {
    assert lists[..i + 1][..i] == lists[..i];
  }

  // Merging keeps exactly the keys of the non-blank permissions.
  lemma {:induction false} FirstSeenKeys(all: seq<string>, key: string)
    ensures HasKey(FirstSeen(all), key) <==> exists p | p in all :: !Blank(p) && Key(p) == key
  {
    if all != [] {
      var init, last := all[..|all| - 1], all[|all| - 1];
      FirstSeenKeys(init, key);
      KeysOfAdded(FirstSeen(init), last, key);
      assert all == init + [last];
    }
  }

  // Which requests a merged list answers: those some non-blank permission of the lists grants.
  // A blank entry is dropped, and only ever granted the blank request.
  lemma MergeKeepsPermissions(lists: seq<Option<seq<string>>>, required: string)
    ensures var all := Flatten(lists);
            && (HasPermission(FirstSeen(all), required) <==> exists p | p in all :: !Blank(p) && Grants(p, required))
            && (!Blank(required) ==> (HasPermission(FirstSeen(all), required) <==> HasPermission(all, required)))
  {
    var all := Flatten(lists);
    var merged := FirstSeen(all);
    forall p | p in merged && Grants(p, required)
      ensures exists q | q in all :: !Blank(q) && Grants(q, required)
    {
      FirstSeenKeys(all, Key(p));
      assert HasKey(merged, Key(p));
    }
    forall p | p in all && !Blank(p) && Grants(p, required)
      ensures HasPermission(merged, required)
    {
      FirstSeenKeys(all, Key(p));
      var q :| q in merged && Key(q) == Key(p);
      assert Grants(q, required);
    }
    forall p | p in all && Blank(p) && Grants(p, required)
      ensures Blank(required)
    {
      assert Segments(p) == [""];
      JoinSplit(Key(required), ':');
    }
  }

  // ------------------------------------------------------------ scoped tokens

  function Filter(list: seq<string>, keep: string -> bool): (r: seq<string>)
    ensures forall p :: p in r <==> p in list && keep(p)
  {
    if list == [] then []
    else (if keep(list[0]) then [list[0]] else []) + Filter(list[1..], keep)
  }

  // The permissions of `target` that no permission of `caller` covers.
  function Uncovered(caller: seq<string>, target: seq<string>): (r: seq<string>)
    ensures r == [] <==> forall p | p in target :: HasPermission(caller, p)
    ensures forall p :: p in r <==> p in target && !HasPermission(caller, p)
  {
    var r := Filter(target, p => !HasPermission(caller, p));
    assert r != [] ==> r[0] in r;
    r
  }

  // What an API token may do: its scope, as far as its owner still holds it; all the owner may without a scope.
  function ScopePermissions(owner: seq<string>, scope: Option<seq<string>>): seq<string> {
    match scope
    case None => owner
    case Some(entries) => Filter(entries, p => HasPermission(owner, p))
  }

  // The permission for everything from `required` down.
  function Below(required: string): string {
    Key(required) + ":*"
  }

  lemma BelowSegments(required: string)
    ensures Segments(Below(required)) == Segments(required) + [ANY]
  {
    var key := Key(required);
    var below := Below(required);
    assert TrimStart(below) == below && TrimEnd(below) == below;
    LowerIdempotent(Trim(required));
    assert Lower(below) == Lower(key) + ":*" == below;
    SplitAround(key, ANY, ':');
    SplitPiece(ANY, ':');
    assert key + [':'] + ANY == below;
  }

  // A scope can widen what its owner may do exactly when the owner, lacking the permission, holds
  // everything below it.
  lemma ScopeWidens(owner: seq<string>, required: string)
    requires !HasPermission(owner, required)
    ensures (exists scope :: HasPermission(ScopePermissions(owner, scope), required))
       <==> HasPermission(owner, Below(required))
  {
    forall scope | HasPermission(ScopePermissions(owner, scope), required)
      ensures HasPermission(owner, Below(required))
    {
      WideningScope(owner, scope, required);
    }
    if HasPermission(owner, Below(required)) {
      BelowSegments(required);
      var scope := Some([Below(required)]);
      assert Below(required) in ScopePermissions(owner, scope);
      assert Grants(Below(required), required);
    }
  }

  lemma WideningScope(owner: seq<string>, scope: Option<seq<string>>, required: string)
    requires !HasPermission(owner, required)
    requires HasPermission(ScopePermissions(owner, scope), required)
    ensures HasPermission(owner, Below(required))
  {
    var b :| b in ScopePermissions(owner, scope) && Grants(b, required);
    assert HasPermission(owner, b);
    var a :| a in owner && Grants(a, b);
    assert !Grants(a, required);
    BelowSegments(required);
    OnlyBelow(Segments(a), Segments(b), Segments(required));
    assert Grants(a, Below(required));
  }

  // A pattern that covers a request through another one but not itself covers everything below the request.
  lemma OnlyBelow(a: seq<string>, b: seq<string>, r: seq<string>)
    requires Covers(a, b) && Covers(b, r) && !Covers(a, r)
    ensures Covers(a, r + [ANY])
  {
    CoversComposes(a, b, r);
  }

  // An owner none of whose permissions ends in two wildcards is never exceeded by a token of theirs.
  lemma TightOwnerIsNeverExceeded(owner: seq<string>, scope: Option<seq<string>>, required: string)
    requires forall p | p in owner :: Tight(Segments(p))
    requires HasPermission(ScopePermissions(owner, scope), required)
    ensures HasPermission(owner, required)
  {
    if scope.Some? {
      var b :| b in ScopePermissions(owner, scope) && Grants(b, required);
      assert HasPermission(owner, b);
      var a :| a in owner && Grants(a, b);
      CoversDominates(Segments(a), Segments(b));
      CoversDominates(Segments(b), Segments(required));
      DominatesTransitive(Segments(a), Segments(b), Segments(required));
      TightIffChainsAddNothing(Segments(a));
      assert Grants(a, required);
    }
  }
}
