// Users, groups and who may change them: the directory operations on values, and what every history of them keeps.
// Operations run one after another.
module UserDirectory {
  import opened Text
  import opened Permissions

  datatype User = User(id: string, name: string, email: string, groups: seq<string>, disabled: bool)

  datatype Group = Group(name: string, permissions: seq<string>, builtIn: bool)

  // Users by id; groups by lower-case name.
  datatype Directory = Directory(users: map<string, User>, groups: map<string, Group>)

  // Who asks, with the permissions the request was authenticated with.
  datatype Caller = Caller(id: string, permissions: seq<string>)

  datatype Settings = Settings(usersReadOnly: bool, groupsReadOnly: bool)

  datatype DirectoryError = BadRequest | Forbidden | NotFound | Conflict

  type Outcome = Result<(), DirectoryError>

  datatype NewUser = NewUser(name: string, email: string, groups: Option<seq<string>>, disabled: Option<bool>)

  datatype UserChange = UserChange(name: Option<string>, email: Option<string>, groups: Option<seq<string>>, disabled: Option<bool>)

  const ADMIN := "admin"
  const USERS := "users"

  // -------------------------------------------------------------- validation

  predicate IsLetter(c: char) {
    'a' <= c <= 'z' || 'A' <= c <= 'Z'
  }

  predicate IsLetterOrDigit(c: char) {
    IsLetter(c) || '0' <= c <= '9'
  }

  predicate ValidName(name: string) {
    1 <= |name| <= 64 && IsLetterOrDigit(name[0]) && forall c | c in name :: IsLetterOrDigit(c) || c in "._@-"
  }

  predicate ValidAtom(atom: string) {
    atom != "" && forall c | c in atom :: IsLetterOrDigit(c) || c in "!#$%&'*+/=?^_`{|}~-"
  }

  predicate ValidLabel(part: string) {
    && 1 <= |part| <= 63 && IsLetterOrDigit(part[0]) && IsLetterOrDigit(part[|part| - 1])
    && forall c | c in part :: IsLetterOrDigit(c) || c == '-'
  }

  predicate ValidDomain(domain: string) {
    || domain == "localhost"
    || (var labels := SplitOn(domain, '.');
        var last := labels[|labels| - 1];
        && |labels| >= 2 && 2 <= |last| <= 63 && (forall c | c in last :: IsLetter(c))
        && forall i | 0 <= i < |labels| - 1 :: ValidLabel(labels[i]))
  }

  predicate ValidEmail(email: string) {
    var parts := SplitOn(email, '@');
    && |email| <= 254 && |parts| == 2 && |parts[0]| <= 64
    && (forall atom | atom in SplitOn(parts[0], '.') :: ValidAtom(atom))
    && ValidDomain(parts[1])
  }

  predicate ValidSegment(segment: string) {
    segment != "" && forall c | c in segment :: IsLetterOrDigit(c) || c in "_.-"
  }

  predicate ValidPermission(permission: string) {
    var segments := SplitOn(permission, ':');
    && |permission| <= 128
    && (permission == "*" || (ValidSegment(segments[0]) && forall s | s in segments[1..] :: s == "*" || ValidSegment(s)))
  }

  predicate ValidPermissions(permissions: seq<string>) {
    |permissions| <= 100 && forall p | p in permissions :: ValidPermission(p)
  }

  // -------------------------------------------------------- names and groups

  predicate SameName(a: string, b: string) {
    a != "" && b != "" && Lower(a) == Lower(b)
  }

  predicate InGroup(groups: seq<string>, group: string) {
    exists g | g in groups :: SameName(g, group)
  }

  function Without(groups: seq<string>, group: string): (r: seq<string>)
    ensures forall g :: g in r <==> g in groups && !SameName(g, group)
  {
    Filter(groups, g => !SameName(g, group))
  }

  function GetGroup(d: Directory, name: string): Option<Group> {
    if Lower(name) in d.groups then Some(d.groups[Lower(name)]) else None
  }

  // The user with that id, or else with that name.
  ghost function GetUser(d: Directory, idOrName: string): (r: Option<User>)
    ensures r.Some? ==> exists id | id in d.users :: d.users[id] == r.value
  {
    if idOrName in d.users then Some(d.users[idOrName])
    else if exists id | id in d.users :: Lower(d.users[id].name) == Lower(idOrName) then
      var id :| id in d.users && Lower(d.users[id].name) == Lower(idOrName);
      Some(d.users[id])
    else None
  }

  // The stored groups of those names, each once; an unknown name is refused.
  function ResolveGroups(d: Directory, names: seq<string>): (r: Result<seq<Group>, DirectoryError>)
    ensures r.Success? ==> (forall name | name in names :: GetGroup(d, name).Some?)
                           && forall g | g in r.value :: exists k | k in d.groups :: d.groups[k] == g
  {
    if names == [] then Success([])
    else
      var init, last := names[..|names| - 1], names[|names| - 1];
      match ResolveGroups(d, init)
      case Failure(e) => Failure(e)
      case Success(out) =>
        match GetGroup(d, last)
        case None => Failure(BadRequest)
        case Some(group) =>
          assert names == init + [last];
          Success(if exists g | g in out :: SameName(g.name, group.name) then out else out + [group])
  }

  function NamesOf(groups: seq<Group>): (r: seq<string>)
    ensures |r| == |groups| && forall i | 0 <= i < |r| :: r[i] == groups[i].name
  {
    seq(|groups|, i requires 0 <= i < |groups| => groups[i].name)
  }

  // ------------------------------------------------------------- permissions

  function PermissionLists(d: Directory, names: seq<string>): seq<Option<seq<string>>> {
    if names == [] then []
    else
      PermissionLists(d, names[..|names| - 1])
      + match GetGroup(d, names[|names| - 1])
        case None => []
        case Some(group) => [Some(group.permissions)]
  }

  // What the members of these groups may do.
  function Effective(d: Directory, names: seq<string>): seq<string> {
    FirstSeen(Flatten(PermissionLists(d, names)))
  }

  function PermissionsOf(groups: seq<Group>): seq<string> {
    FirstSeen(Flatten(seq(|groups|, i requires 0 <= i < |groups| => Some(groups[i].permissions))))
  }

  predicate CanGrant(caller: Caller, permissions: seq<string>) {
    Uncovered(caller.permissions, permissions) == []
  }

  predicate CanAddGroups(caller: Caller, groups: seq<Group>) {
    CanGrant(caller, PermissionsOf(groups))
  }

  // Callers may act on themselves and on users whose permissions they cover.
  predicate CanActOn(d: Directory, caller: Caller, target: User) {
    caller.id == target.id || CanGrant(caller, Effective(d, target.groups))
  }

  function AddedGroups(groups: seq<Group>, target: User): (r: seq<Group>)
    ensures forall g :: g in r <==> g in groups && !InGroup(target.groups, g.name)
  {
    if groups == [] then []
    else (if InGroup(target.groups, groups[0].name) then [] else [groups[0]]) + AddedGroups(groups[1..], target)
  }

  // --------------------------------------------------------------- protections

  // Names and emails share one namespace.
  predicate Free(u: User, name: Option<string>, email: Option<string>) {
    && (name.Some? ==> !SameName(u.name, name.value) && !SameName(u.email, name.value))
    && (email.Some? ==> !SameName(u.email, email.value) && !SameName(u.name, email.value))
  }

  predicate UniqueUser(d: Directory, name: Option<string>, email: Option<string>, except: Option<string>) {
    forall id | id in d.users && Some(id) != except :: Free(d.users[id], name, email)
  }

  predicate EnabledAdmin(u: User) {
    !u.disabled && InGroup(u.groups, ADMIN)
  }

  predicate IsLastEnabledAdmin(d: Directory, u: User) {
    EnabledAdmin(u) && forall id | id in d.users && id != u.id :: !EnabledAdmin(d.users[id])
  }

  // -------------------------------------------------------------- operations

  function GroupsOfNew(data: NewUser): seq<string> {
    if data.groups.Some? && data.groups.value != [] then data.groups.value else [USERS]
  }

  function CreateUserCheck(d: Directory, data: NewUser, caller: Caller): Outcome {
    if !ValidName(data.name) || !ValidEmail(data.email) || (data.groups.Some? && "" in data.groups.value) then Failure(BadRequest)
    else match ResolveGroups(d, GroupsOfNew(data))
      case Failure(e) => Failure(e)
      case Success(groups) =>
        if GroupsOfNew(data) == data.groups.GetOr([]) && !CanAddGroups(caller, groups) then Failure(Forbidden)
        else if !UniqueUser(d, Some(data.name), Some(data.email), None) then Failure(Conflict)
        else Success(())
  }

  function CreateUser(d: Directory, id: string, data: NewUser, caller: Caller): Directory {
    if CreateUserCheck(d, data, caller).Failure? then d
    else
      var names := NamesOf(ResolveGroups(d, GroupsOfNew(data)).value);
      d.(users := d.users[id := User(id, data.name, data.email, names, data.disabled.GetOr(false))])
  }

  predicate ValidChange(change: UserChange) {
    && (change.name.Some? ==> ValidName(change.name.value))
    && (change.email.Some? ==> ValidEmail(change.email.value))
    && (change.groups.Some? ==> "" !in change.groups.value)
  }

  function ResolveChange(d: Directory, change: UserChange): Result<Option<seq<Group>>, DirectoryError> {
    if change.groups.None? then Success(None)
    else match ResolveGroups(d, change.groups.value)
      case Failure(e) => Failure(e)
      case Success(groups) => Success(Some(groups))
  }

  function UpdateUserCheck(d: Directory, target: User, change: UserChange, caller: Caller): Outcome {
    if !ValidChange(change) then Failure(BadRequest)
    else match ResolveChange(d, change)
      case Failure(e) => Failure(e)
      case Success(groups) =>
        if (change.name.Some? || groups.Some? || change.disabled.Some?) && !CanActOn(d, caller, target) then Failure(Forbidden)
        else if groups.Some? && !CanAddGroups(caller, AddedGroups(groups.value, target)) then Failure(Forbidden)
        else if !UniqueUser(d, change.name, change.email, Some(target.id)) then Failure(Conflict)
        else if IsLastEnabledAdmin(d, target) && change.disabled == Some(true) then Failure(Conflict)
        else if IsLastEnabledAdmin(d, target) && groups.Some? && !InGroup(NamesOf(groups.value), ADMIN) then Failure(Conflict)
        else Success(())
  }

  function Updated(u: User, change: UserChange, groups: Option<seq<string>>): User {
    User(u.id, change.name.GetOr(u.name), change.email.GetOr(u.email), groups.GetOr(u.groups), change.disabled.GetOr(u.disabled))
  }

  function UpdateUser(d: Directory, target: User, change: UserChange, caller: Caller): Directory {
    if UpdateUserCheck(d, target, change, caller).Failure? then d
    else
      var groups := ResolveChange(d, change).value;
      d.(users := d.users[target.id := Updated(target, change, if groups.Some? then Some(NamesOf(groups.value)) else None)])
  }

  function DeleteUserCheck(d: Directory, target: User, caller: Caller): Outcome {
    if target.id == caller.id then Failure(Conflict)
    else if !CanActOn(d, caller, target) then Failure(Forbidden)
    else if IsLastEnabledAdmin(d, target) then Failure(Conflict)
    else Success(())
  }

  function DeleteUser(d: Directory, target: User, caller: Caller): Directory {
    if DeleteUserCheck(d, target, caller).Failure? then d else d.(users := d.users - {target.id})
  }

  function CreateGroupCheck(d: Directory, name: string, permissions: Option<seq<string>>, caller: Caller): Outcome {
    var granted := permissions.GetOr([]);
    if !ValidName(name) || "" in granted || !ValidPermissions(granted) then Failure(BadRequest)
    else if !CanGrant(caller, granted) then Failure(Forbidden)
    else if GetGroup(d, name).Some? then Failure(Conflict)
    else Success(())
  }

  function CreateGroup(d: Directory, name: string, permissions: Option<seq<string>>, caller: Caller): Directory {
    if CreateGroupCheck(d, name, permissions, caller).Failure? then d
    else d.(groups := d.groups[Lower(name) := Group(name, permissions.GetOr([]), false)])
  }

  function UpdateGroupCheck(group: Group, permissions: Option<seq<string>>, caller: Caller): Outcome {
    if permissions.None? then Success(())
    else if "" in permissions.value || !ValidPermissions(permissions.value) then Failure(BadRequest)
    else if SameName(group.name, ADMIN) then Failure(Conflict)
    else if !CanGrant(caller, permissions.value) then Failure(Forbidden)
    else Success(())
  }

  function UpdateGroup(d: Directory, group: Group, permissions: Option<seq<string>>, caller: Caller): Directory {
    if UpdateGroupCheck(group, permissions, caller).Failure? || permissions.None? then d
    else d.(groups := d.groups[Lower(group.name) := group.(permissions := permissions.value)])
  }

  predicate BuiltIn(group: Group) {
    group.builtIn || SameName(ADMIN, group.name) || SameName(USERS, group.name)
  }

  function DeleteGroupCheck(group: Group): Outcome {
    if BuiltIn(group) then Failure(Conflict) else Success(())
  }

  function Leave(u: User, group: string): User {
    if InGroup(u.groups, group) then u.(groups := Without(u.groups, group)) else u
  }

  // The group goes, and its memberships with it, unless the host keeps the users.
  function DeleteGroup(d: Directory, group: Group, usersReadOnly: bool): Directory {
    if BuiltIn(group) then d
    else Directory(if usersReadOnly then d.users else map id | id in d.users :: Leave(d.users[id], group.name),
                   d.groups - {Lower(group.name)})
  }

  ghost function AddMemberCheck(d: Directory, group: string, idOrName: string, caller: Caller): Outcome {
    match GetGroup(d, group)
    case None => Failure(BadRequest)
    case Some(g) =>
      match GetUser(d, idOrName)
      case None => Failure(NotFound)
      case Some(u) =>
        if InGroup(u.groups, g.name) then Success(())
        else if !CanActOn(d, caller, u) || !CanAddGroups(caller, [g]) then Failure(Forbidden)
        else Success(())
  }

  ghost function AddMember(d: Directory, group: string, idOrName: string, caller: Caller): Directory {
    if AddMemberCheck(d, group, idOrName, caller).Failure? then d
    else
      var g, u := GetGroup(d, group).value, GetUser(d, idOrName).value;
      if InGroup(u.groups, g.name) then d else d.(users := d.users[u.id := u.(groups := u.groups + [g.name])])
  }

  function RemoveMemberCheck(d: Directory, group: Group, u: User, caller: Caller): Outcome {
    if !InGroup(u.groups, group.name) then Success(())
    else if !CanActOn(d, caller, u) then Failure(Forbidden)
    else if SameName(group.name, ADMIN) && IsLastEnabledAdmin(d, u) then Failure(Conflict)
    else Success(())
  }

  function RemoveMember(d: Directory, group: Group, u: User, caller: Caller): Directory {
    if RemoveMemberCheck(d, group, u, caller).Failure? then d else d.(users := d.users[u.id := Leave(u, group.name)])
  }

  // ----------------------------------------------------------------- histories

  datatype Request =
    | CreatesUser(id: string, data: NewUser)
    | UpdatesUser(user: string, change: UserChange)
    | DeletesUser(user: string)
    | CreatesGroup(name: string, permissions: Option<seq<string>>)
    | UpdatesGroup(group: string, permissions: Option<seq<string>>)
    | DeletesGroup(group: string)
    | AddsMember(group: string, user: string)
    | RemovesMember(group: string, user: string)

  predicate WritesGroups(r: Request) {
    r.CreatesGroup? || r.UpdatesGroup? || r.DeletesGroup?
  }

  predicate Guarded(s: Settings, r: Request) {
    if WritesGroups(r) then s.groupsReadOnly else s.usersReadOnly
  }

  // A request with its user and group looked up; nothing happens when one is missing or the host owns the store.
  ghost function Step(d: Directory, s: Settings, r: Request, caller: Caller): Directory {
    if Guarded(s, r) then d
    else match r
      case CreatesUser(id, data) => CreateUser(d, id, data, caller)
      case UpdatesUser(user, change) =>
        (match GetUser(d, user) case None => d case Some(u) => UpdateUser(d, u, change, caller))
      case DeletesUser(user) =>
        (match GetUser(d, user) case None => d case Some(u) => DeleteUser(d, u, caller))
      case CreatesGroup(name, permissions) => CreateGroup(d, name, permissions, caller)
      case UpdatesGroup(group, permissions) =>
        (match GetGroup(d, group) case None => d case Some(g) => UpdateGroup(d, g, permissions, caller))
      case DeletesGroup(group) =>
        (match GetGroup(d, group) case None => d case Some(g) => DeleteGroup(d, g, s.usersReadOnly))
      case AddsMember(group, user) => AddMember(d, group, user, caller)
      case RemovesMember(group, user) =>
        (match GetGroup(d, group)
         case None => d
         case Some(g) => match GetUser(d, user) case None => d case Some(u) => RemoveMember(d, g, u, caller))
  }

  // New users get an id nobody has.
  predicate FreshId(d: Directory, r: Request) {
    r.CreatesUser? ==> r.id !in d.users
  }

  ghost predicate History(ds: seq<Directory>, s: Settings, rs: seq<Request>, callers: seq<Caller>) {
    && |ds| == |rs| + 1 && |callers| == |rs|
    && forall i | 0 <= i < |rs| :: FreshId(ds[i], rs[i]) && ds[i + 1] == Step(ds[i], s, rs[i], callers[i])
  }

  // --------------------------------------------------------------- invariants

  predicate Clash(u: User, v: User) {
    SameName(u.name, v.name) || SameName(u.name, v.email) || SameName(u.email, v.name) || SameName(u.email, v.email)
  }

  predicate Keyed(d: Directory) {
    && (forall id | id in d.users :: d.users[id].id == id && d.users[id].name != "" && d.users[id].email != "")
    && (forall k | k in d.groups :: Lower(d.groups[k].name) == k && d.groups[k].name != "")
  }

  // No two users share a name or email, in one namespace.
  predicate Distinct(d: Directory) {
    forall a, b | a in d.users && b in d.users && a != b :: !Clash(d.users[a], d.users[b])
  }

  // Every membership names a group there is.
  predicate GroupsExist(d: Directory) {
    forall id, g | id in d.users && g in d.users[id].groups :: GetGroup(d, g).Some?
  }

  predicate HasEnabledAdmin(d: Directory) {
    exists id | id in d.users :: EnabledAdmin(d.users[id])
  }

  ghost predicate Inv(d: Directory) {
    Keyed(d) && Distinct(d)
  }

  lemma LookedUp(d: Directory, idOrName: string)
    requires Keyed(d) && GetUser(d, idOrName).Some?
    ensures var u := GetUser(d, idOrName).value; u.id in d.users && d.users[u.id] == u
  {
  }

  lemma EmailIsNotEmpty(email: string)
    requires ValidEmail(email)
    ensures email != ""
  {
    assert SplitOn("", '@') == [""];
  }

  // The new names of a user are free: nobody else has them.
  lemma PlacedUserKeepsInv(d: Directory, u: User)
    requires Inv(d) && u.name != "" && u.email != ""
    requires forall id | id in d.users && id != u.id :: !Clash(u, d.users[id])
    ensures Inv(d.(users := d.users[u.id := u]))
  {
  }

  lemma CreateUserKeepsInv(d: Directory, id: string, data: NewUser, caller: Caller)
    requires Inv(d) && id !in d.users
    ensures Inv(CreateUser(d, id, data, caller))
  {
    if CreateUserCheck(d, data, caller).Success? {
      EmailIsNotEmpty(data.email);
      var u := CreateUser(d, id, data, caller).users[id];
      forall other | other in d.users && other != id ensures !Clash(u, d.users[other]) {
        assert Free(d.users[other], Some(data.name), Some(data.email));
      }
      PlacedUserKeepsInv(d, u);
    }
  }

  lemma UpdateUserKeepsInv(d: Directory, target: User, change: UserChange, caller: Caller)
    requires Inv(d) && target.id in d.users && d.users[target.id] == target
    ensures Inv(UpdateUser(d, target, change, caller))
  {
    if UpdateUserCheck(d, target, change, caller).Success? {
      var u := UpdateUser(d, target, change, caller).users[target.id];
      if change.email.Some? { EmailIsNotEmpty(change.email.value); }
      forall id | id in d.users && id != target.id ensures !Clash(u, d.users[id]) {
        assert Free(d.users[id], change.name, change.email);
        assert !Clash(target, d.users[id]);
      }
      PlacedUserKeepsInv(d, u);
    }
  }

  // Only memberships change.
  lemma RegroupedKeepsInv(d: Directory, d': Directory)
    requires Inv(d) && d'.users.Keys <= d.users.Keys && d'.groups.Keys <= d.groups.Keys
    requires forall id | id in d'.users :: d'.users[id] == d.users[id].(groups := d'.users[id].groups)
    requires forall k | k in d'.groups :: d'.groups[k].name == d.groups[k].name
    ensures Inv(d')
  {
    forall a, b | a in d'.users && b in d'.users && a != b ensures !Clash(d'.users[a], d'.users[b]) {
      assert !Clash(d.users[a], d.users[b]);
    }
  }

  lemma DeleteUserKeepsInv(d: Directory, target: User, caller: Caller)
    requires Inv(d)
    ensures Inv(DeleteUser(d, target, caller))
  {
    RegroupedKeepsInv(d, DeleteUser(d, target, caller));
  }

  lemma CreateGroupKeepsInv(d: Directory, name: string, permissions: Option<seq<string>>, caller: Caller)
    requires Inv(d)
    ensures Inv(CreateGroup(d, name, permissions, caller))
  {
  }

  lemma UpdateGroupKeepsInv(d: Directory, group: Group, permissions: Option<seq<string>>, caller: Caller)
    requires Inv(d) && Lower(group.name) in d.groups && d.groups[Lower(group.name)] == group
    ensures Inv(UpdateGroup(d, group, permissions, caller))
  {
    RegroupedKeepsInv(d, UpdateGroup(d, group, permissions, caller));
  }

  lemma DeleteGroupKeepsInv(d: Directory, group: Group, usersReadOnly: bool)
    requires Inv(d)
    ensures Inv(DeleteGroup(d, group, usersReadOnly))
  {
    RegroupedKeepsInv(d, DeleteGroup(d, group, usersReadOnly));
  }

  lemma AddMemberKeepsInv(d: Directory, group: string, idOrName: string, caller: Caller)
    requires Inv(d)
    ensures Inv(AddMember(d, group, idOrName, caller))
  {
    if GetUser(d, idOrName).Some? { LookedUp(d, idOrName); }
    RegroupedKeepsInv(d, AddMember(d, group, idOrName, caller));
  }

  lemma RemoveMemberKeepsInv(d: Directory, group: Group, u: User, caller: Caller)
    requires Inv(d) && u.id in d.users && d.users[u.id] == u
    ensures Inv(RemoveMember(d, group, u, caller))
  {
    RegroupedKeepsInv(d, RemoveMember(d, group, u, caller));
  }

  // What a request works on is what is stored.
  lemma Found(d: Directory, r: Request)
    requires Keyed(d)
    ensures (r.UpdatesUser? || r.DeletesUser? || r.AddsMember? || r.RemovesMember?) && GetUser(d, r.user).Some? ==>
              var u := GetUser(d, r.user).value; u.id in d.users && d.users[u.id] == u
    ensures (r.UpdatesGroup? || r.DeletesGroup? || r.AddsMember? || r.RemovesMember?) && GetGroup(d, r.group).Some? ==>
              var g := GetGroup(d, r.group).value; g.name != "" && Lower(g.name) in d.groups && d.groups[Lower(g.name)] == g
  {
  }

  lemma StepKeepsInv(d: Directory, s: Settings, r: Request, caller: Caller)
    requires Inv(d) && FreshId(d, r)
    ensures Inv(Step(d, s, r, caller))
  {
    Found(d, r);
    if Step(d, s, r, caller) != d {
      match r
      case CreatesUser(id, data) => CreateUserKeepsInv(d, id, data, caller);
      case UpdatesUser(user, change) => UpdateUserKeepsInv(d, GetUser(d, user).value, change, caller);
      case DeletesUser(user) => DeleteUserKeepsInv(d, GetUser(d, user).value, caller);
      case CreatesGroup(name, permissions) => CreateGroupKeepsInv(d, name, permissions, caller);
      case UpdatesGroup(group, permissions) => UpdateGroupKeepsInv(d, GetGroup(d, group).value, permissions, caller);
      case DeletesGroup(group) => DeleteGroupKeepsInv(d, GetGroup(d, group).value, s.usersReadOnly);
      case AddsMember(group, user) => AddMemberKeepsInv(d, group, user, caller);
      case RemovesMember(group, user) => RemoveMemberKeepsInv(d, GetGroup(d, group).value, GetUser(d, user).value, caller);
    }
  }

  lemma {:induction false} InvHolds(ds: seq<Directory>, s: Settings, rs: seq<Request>, callers: seq<Caller>, n: nat)
    requires History(ds, s, rs, callers) && Inv(ds[0]) && n < |ds|
    ensures Inv(ds[n])
  {
    if n > 0 {
      InvHolds(ds, s, rs, callers, n - 1);
      StepKeepsInv(ds[n - 1], s, rs[n - 1], callers[n - 1]);
    }
  }

  // ------------------------------------------------------------- resolved groups

  // Resolving gives the stored groups of exactly the names asked for.
  lemma {:induction false} ResolvedGroups(d: Directory, names: seq<string>)
    requires Keyed(d) && ResolveGroups(d, names).Success?
    ensures forall g | g in ResolveGroups(d, names).value :: g.name != "" && GetGroup(d, g.name) == Some(g)
    ensures forall name | name in names :: GetGroup(d, name).value in ResolveGroups(d, names).value
    ensures forall g | g in ResolveGroups(d, names).value :: exists name | name in names :: GetGroup(d, name) == Some(g)
  {
    if names != [] {
      var init, last := names[..|names| - 1], names[|names| - 1];
      assert names == init + [last];
      ResolvedGroups(d, init);
      var before, group := ResolveGroups(d, init).value, GetGroup(d, last).value;
      forall g | g in before && SameName(g.name, group.name) ensures g == group {
      }
    }
  }

  lemma {:induction false} ResolvedOnce(d: Directory, names: seq<string>)
    requires ResolveGroups(d, names).Success?
    ensures var r := ResolveGroups(d, names).value; forall i, j | 0 <= i < j < |r| :: !SameName(r[i].name, r[j].name)
  {
    if names != [] {
      ResolvedOnce(d, names[..|names| - 1]);
    }
  }

  // --------------------------------------------------------------- memberships

  lemma PlacedUserKeepsGroups(d: Directory, u: User)
    requires GroupsExist(d) && forall g | g in u.groups :: GetGroup(d, g).Some?
    ensures GroupsExist(d.(users := d.users[u.id := u]))
  {
    var d' := d.(users := d.users[u.id := u]);
    forall id, g | id in d'.users && g in d'.users[id].groups ensures GetGroup(d', g).Some? {
      assert GetGroup(d, g).Some?;
    }
  }

  lemma CreateUserKeepsGroups(d: Directory, id: string, data: NewUser, caller: Caller)
    requires Keyed(d) && GroupsExist(d)
    ensures GroupsExist(CreateUser(d, id, data, caller))
  {
    if CreateUserCheck(d, data, caller).Success? {
      ResolvedGroups(d, GroupsOfNew(data));
      PlacedUserKeepsGroups(d, CreateUser(d, id, data, caller).users[id]);
    }
  }

  lemma UpdateUserKeepsGroups(d: Directory, u: User, change: UserChange, caller: Caller)
    requires Keyed(d) && GroupsExist(d) && u.id in d.users && d.users[u.id] == u
    ensures GroupsExist(UpdateUser(d, u, change, caller))
  {
    if UpdateUserCheck(d, u, change, caller).Success? {
      if change.groups.Some? { ResolvedGroups(d, change.groups.value); }
      PlacedUserKeepsGroups(d, UpdateUser(d, u, change, caller).users[u.id]);
    }
  }

  lemma MemberStepKeepsGroups(d: Directory, s: Settings, r: Request, caller: Caller)
    requires Keyed(d) && GroupsExist(d) && (r.AddsMember? || r.RemovesMember?) && Step(d, s, r, caller) != d
    ensures GroupsExist(Step(d, s, r, caller))
  {
    Found(d, r);
    var u := GetUser(d, r.user).value;
    PlacedUserKeepsGroups(d, Step(d, s, r, caller).users[u.id]);
  }

  // More groups, or the same ones with other permissions.
  lemma GroupsStayNamed(d: Directory, d': Directory)
    requires GroupsExist(d) && d'.users.Keys <= d.users.Keys && d.groups.Keys <= d'.groups.Keys
    requires forall id | id in d'.users :: d'.users[id] == d.users[id]
    ensures GroupsExist(d')
  {
    forall id, g | id in d'.users && g in d'.users[id].groups ensures GetGroup(d', g).Some? {
      assert GetGroup(d, g).Some?;
    }
  }

  lemma StepKeepsGroups(d: Directory, s: Settings, r: Request, caller: Caller)
    requires Inv(d) && GroupsExist(d) && !s.usersReadOnly
    ensures GroupsExist(Step(d, s, r, caller))
  {
    Found(d, r);
    var d' := Step(d, s, r, caller);
    if d' != d {
      match r
      case CreatesUser(id, data) => CreateUserKeepsGroups(d, id, data, caller);
      case UpdatesUser(user, change) => UpdateUserKeepsGroups(d, GetUser(d, user).value, change, caller);
      case DeletesGroup(group) => DeleteGroupKeepsGroups(d, GetGroup(d, group).value);
      case AddsMember(group, user) => MemberStepKeepsGroups(d, s, r, caller);
      case RemovesMember(group, user) => MemberStepKeepsGroups(d, s, r, caller);
      case DeletesUser(user) => GroupsStayNamed(d, d');
      case CreatesGroup(name, permissions) => GroupsStayNamed(d, d');
      case UpdatesGroup(group, permissions) => GroupsStayNamed(d, d');
    }
  }

  lemma DeleteGroupKeepsGroups(d: Directory, group: Group)
    requires Inv(d) && GroupsExist(d) && group.name != ""
    ensures GroupsExist(DeleteGroup(d, group, false))
  {
    if !BuiltIn(group) {
      var d' := DeleteGroup(d, group, false);
      forall id, g | id in d'.users && g in d'.users[id].groups ensures GetGroup(d', g).Some? {
        assert g in d.users[id].groups && GetGroup(d, g).Some? && !SameName(g, group.name);
      }
    }
  }

  // With users the host keeps, a deleted group leaves its memberships behind.
  lemma ReadOnlyUsersKeepMemberships(d: Directory, group: Group, id: string, g: string)
    requires GetGroup(d, g).Some? && !BuiltIn(group) && Lower(group.name) == Lower(g)
    requires id in d.users && g in d.users[id].groups
    ensures var d' := DeleteGroup(d, group, true); g in d'.users[id].groups && GetGroup(d', g).None?
  {
  }

  // ------------------------------------------------------------------- admins

  // Another enabled admin is still there when `u` is not the last one.
  lemma AnotherAdmin(d: Directory, u: User)
    requires Keyed(d) && HasEnabledAdmin(d) && u.id in d.users && d.users[u.id] == u && !IsLastEnabledAdmin(d, u)
    ensures exists id | id in d.users && id != u.id :: EnabledAdmin(d.users[id])
  {
  }

  lemma ReplacedUserKeepsAdmin(d: Directory, u: User, u': User)
    requires Keyed(d) && HasEnabledAdmin(d) && u.id in d.users && d.users[u.id] == u && u'.id == u.id
    requires EnabledAdmin(u') || !IsLastEnabledAdmin(d, u)
    ensures HasEnabledAdmin(d.(users := d.users[u.id := u']))
  {
    if EnabledAdmin(u') {
      assert EnabledAdmin(d.users[u.id := u'][u.id]);
    } else {
      var id :| id in d.users && id != u.id && EnabledAdmin(d.users[id]);
      assert EnabledAdmin(d.users[u.id := u'][id]);
    }
  }

  lemma DeleteUserKeepsAdmin(d: Directory, u: User, caller: Caller)
    requires Keyed(d) && HasEnabledAdmin(d) && u.id in d.users && d.users[u.id] == u
    ensures HasEnabledAdmin(DeleteUser(d, u, caller))
  {
    if DeleteUserCheck(d, u, caller).Success? {
      AnotherAdmin(d, u);
      var id :| id in d.users && id != u.id && EnabledAdmin(d.users[id]);
      assert EnabledAdmin(DeleteUser(d, u, caller).users[id]);
    }
  }

  lemma UpdateUserKeepsAdmin(d: Directory, u: User, change: UserChange, caller: Caller)
    requires Keyed(d) && HasEnabledAdmin(d) && u.id in d.users && d.users[u.id] == u
    ensures HasEnabledAdmin(UpdateUser(d, u, change, caller))
  {
    if UpdateUserCheck(d, u, change, caller).Success? {
      ReplacedUserKeepsAdmin(d, u, UpdateUser(d, u, change, caller).users[u.id]);
    }
  }

  lemma LeavingKeepsAdmin(u: User, group: string)
    requires EnabledAdmin(u) && !SameName(group, ADMIN)
    ensures EnabledAdmin(Leave(u, group))
  {
    var g :| g in u.groups && SameName(g, ADMIN);
    assert InGroup(u.groups, group) ==> g in Without(u.groups, group);
  }

  lemma DeleteGroupKeepsAdmin(d: Directory, group: Group, usersReadOnly: bool)
    requires Keyed(d) && HasEnabledAdmin(d)
    ensures HasEnabledAdmin(DeleteGroup(d, group, usersReadOnly))
  {
    if !BuiltIn(group) {
      var id :| id in d.users && EnabledAdmin(d.users[id]);
      LeavingKeepsAdmin(d.users[id], group.name);
      assert EnabledAdmin(DeleteGroup(d, group, usersReadOnly).users[id]);
    }
  }

  lemma AddMemberKeepsAdmin(d: Directory, group: string, idOrName: string, caller: Caller)
    requires Keyed(d) && HasEnabledAdmin(d)
    ensures HasEnabledAdmin(AddMember(d, group, idOrName, caller))
  {
    var d' := AddMember(d, group, idOrName, caller);
    if d' != d {
      LookedUp(d, idOrName);
      var u := GetUser(d, idOrName).value;
      var u' := d'.users[u.id];
      if EnabledAdmin(u) {
        var g :| g in u.groups && SameName(g, ADMIN);
        assert g in u'.groups;
      }
      ReplacedUserKeepsAdmin(d, u, u');
    }
  }

  lemma RemoveMemberKeepsAdmin(d: Directory, group: Group, u: User, caller: Caller)
    requires Keyed(d) && HasEnabledAdmin(d) && u.id in d.users && d.users[u.id] == u
    ensures HasEnabledAdmin(RemoveMember(d, group, u, caller))
  {
    if RemoveMemberCheck(d, group, u, caller).Success? {
      if EnabledAdmin(u) && !SameName(group.name, ADMIN) { LeavingKeepsAdmin(u, group.name); }
      ReplacedUserKeepsAdmin(d, u, Leave(u, group.name));
    }
  }

  lemma StepKeepsAdmin(d: Directory, s: Settings, r: Request, caller: Caller)
    requires Inv(d) && HasEnabledAdmin(d) && FreshId(d, r)
    ensures HasEnabledAdmin(Step(d, s, r, caller))
  {
    Found(d, r);
    var d' := Step(d, s, r, caller);
    if d' != d {
      match r
      case CreatesUser(id, data) =>
        var admin :| admin in d.users && EnabledAdmin(d.users[admin]);
        assert EnabledAdmin(d'.users[admin]);
      case UpdatesUser(user, change) => UpdateUserKeepsAdmin(d, GetUser(d, user).value, change, caller);
      case DeletesUser(user) => DeleteUserKeepsAdmin(d, GetUser(d, user).value, caller);
      case CreatesGroup(name, permissions) => assert d'.users == d.users;
      case UpdatesGroup(group, permissions) => assert d'.users == d.users;
      case DeletesGroup(group) => DeleteGroupKeepsAdmin(d, GetGroup(d, group).value, s.usersReadOnly);
      case AddsMember(group, user) => AddMemberKeepsAdmin(d, group, user, caller);
      case RemovesMember(group, user) => RemoveMemberKeepsAdmin(d, GetGroup(d, group).value, GetUser(d, user).value, caller);
    }
  }

  // Whatever is asked for, in whatever order: names and emails stay apart, an enabled admin stays, and
  // memberships name groups there are (unless the host keeps the users).
  lemma {:induction false} DirectoryStaysSound(ds: seq<Directory>, s: Settings, rs: seq<Request>, callers: seq<Caller>, n: nat)
    requires History(ds, s, rs, callers) && Inv(ds[0]) && n < |ds|
    ensures Inv(ds[n])
    ensures HasEnabledAdmin(ds[0]) ==> HasEnabledAdmin(ds[n])
    ensures GroupsExist(ds[0]) && !s.usersReadOnly ==> GroupsExist(ds[n])
  {
    if n > 0 {
      DirectoryStaysSound(ds, s, rs, callers, n - 1);
      var d, r, caller := ds[n - 1], rs[n - 1], callers[n - 1];
      StepKeepsInv(d, s, r, caller);
      if HasEnabledAdmin(d) { StepKeepsAdmin(d, s, r, caller); }
      if GroupsExist(d) && !s.usersReadOnly { StepKeepsGroups(d, s, r, caller); }
    }
  }

  // -------------------------------------------------------------- privileges

  // A non-blank permission as some group of `names` lists it.
  ghost predicate GivenBy(d: Directory, names: seq<string>, permission: string) {
    && !Blank(permission)
    && exists name | name in names :: GetGroup(d, name).Some? && permission in GetGroup(d, name).value.permissions
  }

  ghost predicate Gets(d: Directory, id: string, permission: string) {
    id in d.users && GivenBy(d, d.users[id].groups, permission)
  }

  lemma {:induction false} InFlattened(lists: seq<Option<seq<string>>>, p: string)
    ensures p in Flatten(lists) <==> exists i | 0 <= i < |lists| :: p in lists[i].GetOr([])
  {
    if lists != [] {
      var init := lists[..|lists| - 1];
      InFlattened(init, p);
      if p in lists[|lists| - 1].GetOr([]) {
        assert p in Flatten(lists);
      }
      assert forall i | 0 <= i < |init| :: init[i] == lists[i];
    }
  }

  lemma {:induction false} InPermissionLists(d: Directory, names: seq<string>, p: string)
    ensures p in Flatten(PermissionLists(d, names))
       <==> exists name | name in names :: GetGroup(d, name).Some? && p in GetGroup(d, name).value.permissions
  {
    if names != [] {
      var init, last := names[..|names| - 1], names[|names| - 1];
      assert names == init + [last];
      InPermissionLists(d, init, p);
      var lists := PermissionLists(d, init);
      if GetGroup(d, last).Some? {
        assert PermissionLists(d, names) == lists + [Some(GetGroup(d, last).value.permissions)];
        assert (lists + [Some(GetGroup(d, last).value.permissions)])[..|lists|] == lists;
      } else {
        assert PermissionLists(d, names) == lists;
      }
    }
  }

  // The effective permissions are exactly those the groups list, each key once.
  lemma EffectiveIsGiven(d: Directory, names: seq<string>, key: string)
    ensures HasKey(Effective(d, names), key) <==> exists p :: GivenBy(d, names, p) && Key(p) == key
  {
    var all := Flatten(PermissionLists(d, names));
    FirstSeenKeys(all, key);
    forall p ensures p in all <==> exists name | name in names :: GetGroup(d, name).Some? && p in GetGroup(d, name).value.permissions {
      InPermissionLists(d, names, p);
    }
    if exists p | p in all :: !Blank(p) && Key(p) == key {
      var p :| p in all && !Blank(p) && Key(p) == key;
      assert GivenBy(d, names, p);
    }
  }

  // A caller who may grant a list covers each of its permissions.
  lemma Granted(caller: Caller, permissions: seq<string>, p: string)
    requires CanGrant(caller, permissions) && HasKey(permissions, Key(p))
    ensures HasPermission(caller.permissions, p)
  {
    var q :| q in permissions && Key(q) == Key(p);
    var c :| c in caller.permissions && Grants(c, q);
    assert Grants(c, p);
  }

  lemma GrantedGroups(caller: Caller, groups: seq<Group>, g: Group, p: string)
    requires CanAddGroups(caller, groups) && g in groups && p in g.permissions && !Blank(p)
    ensures HasPermission(caller.permissions, p)
  {
    var lists := seq(|groups|, i requires 0 <= i < |groups| => Some(groups[i].permissions));
    var i :| 0 <= i < |groups| && groups[i] == g;
    assert p in lists[i].GetOr([]);
    InFlattened(lists, p);
    FirstSeenKeys(Flatten(lists), Key(p));
    Granted(caller, PermissionsOf(groups), p);
  }

  // New accounts without groups of their own get what the default group lists, whoever creates them.
  ghost predicate Default(d: Directory, r: Request, id: string, permission: string) {
    && r.CreatesUser? && id == r.id && r.data.groups.GetOr([]) == []
    && GivenBy(d, [USERS], permission)
  }

  lemma NewUserGives(d: Directory, data: NewUser, groups: seq<Group>, caller: Caller, name: string, p: string)
    requires Keyed(d) && ResolveGroups(d, GroupsOfNew(data)) == Success(groups) && CreateUserCheck(d, data, caller).Success?
    requires name in NamesOf(groups) && GetGroup(d, name).Some? && p in GetGroup(d, name).value.permissions && !Blank(p)
    ensures HasPermission(caller.permissions, p) || (data.groups.GetOr([]) == [] && GivenBy(d, [USERS], p))
  {
    var names := GroupsOfNew(data);
    ResolvedGroups(d, names);
    var i :| 0 <= i < |groups| && groups[i].name == name;
    if names == data.groups.GetOr([]) {
      GrantedGroups(caller, groups, groups[i], p);
    } else {
      assert names == [USERS] && USERS in [USERS];
    }
  }

  lemma CreateUserGives(d: Directory, r: Request, caller: Caller, id: string, p: string)
    requires Inv(d) && FreshId(d, r) && r.CreatesUser? && Gets(CreateUser(d, r.id, r.data, caller), id, p)
    ensures Gets(d, id, p) || HasPermission(caller.permissions, p) || Default(d, r, id, p)
  {
    var d' := CreateUser(d, r.id, r.data, caller);
    var name :| name in d'.users[id].groups && GetGroup(d', name).Some? && p in GetGroup(d', name).value.permissions;
    if id == r.id {
      NewUserGives(d, r.data, ResolveGroups(d, GroupsOfNew(r.data)).value, caller, name, p);
    } else {
      assert Gets(d, id, p);
    }
  }

  lemma UpdateUserGives(d: Directory, u: User, change: UserChange, caller: Caller, id: string, p: string)
    requires Inv(d) && u.id in d.users && d.users[u.id] == u && Gets(UpdateUser(d, u, change, caller), id, p)
    ensures Gets(d, id, p) || HasPermission(caller.permissions, p)
  {
    var d' := UpdateUser(d, u, change, caller);
    var name :| name in d'.users[id].groups && GetGroup(d', name).Some? && p in GetGroup(d', name).value.permissions;
    if d' == d || id != u.id || change.groups.None? {
      assert Gets(d, id, p);
    } else {
      ResolvedGroups(d, change.groups.value);
      var groups := ResolveGroups(d, change.groups.value).value;
      var g :| g in groups && g.name == name;
      if g in AddedGroups(groups, u) {
        GrantedGroups(caller, AddedGroups(groups, u), g, p);
      } else {
        var before :| before in u.groups && SameName(before, g.name);
        assert GetGroup(d, before) == Some(g);
        assert Gets(d, id, p);
      }
    }
  }

  // The groups list what they listed before, or what the caller may grant; the memberships are as before, or fewer.
  lemma GroupStepGives(d: Directory, d': Directory, caller: Caller, id: string, p: string)
    requires d'.users.Keys <= d.users.Keys && forall i, g | i in d'.users && g in d'.users[i].groups :: g in d.users[i].groups
    requires forall k, q | k in d'.groups && q in d'.groups[k].permissions ::
               (k in d.groups && q in d.groups[k].permissions) || HasPermission(caller.permissions, q)
    requires Gets(d', id, p)
    ensures Gets(d, id, p) || HasPermission(caller.permissions, p)
  {
    var name :| name in d'.users[id].groups && GetGroup(d', name).Some? && p in GetGroup(d', name).value.permissions;
    assert Lower(name) in d'.groups;
    if !HasPermission(caller.permissions, p) {
      assert name in d.users[id].groups && GetGroup(d, name).Some? && p in GetGroup(d, name).value.permissions;
    }
  }

  lemma CanGrantEach(caller: Caller, permissions: seq<string>)
    requires CanGrant(caller, permissions)
    ensures forall p | p in permissions :: HasPermission(caller.permissions, p)
  {
  }

  lemma AddMemberGives(d: Directory, group: string, idOrName: string, caller: Caller, id: string, p: string)
    requires Inv(d) && Gets(AddMember(d, group, idOrName, caller), id, p)
    ensures Gets(d, id, p) || HasPermission(caller.permissions, p)
  {
    var d' := AddMember(d, group, idOrName, caller);
    var name :| name in d'.users[id].groups && GetGroup(d', name).Some? && p in GetGroup(d', name).value.permissions;
    if id in d.users && name in d.users[id].groups {
      assert Gets(d, id, p);
    } else {
      LookedUp(d, idOrName);
      var g := GetGroup(d, group).value;
      assert name == g.name && GetGroup(d, name) == Some(g);
      GrantedGroups(caller, [g], g, p);
    }
  }

  lemma CreateGroupLists(d: Directory, name: string, permissions: Option<seq<string>>, caller: Caller, k: string, p: string)
    requires var d' := CreateGroup(d, name, permissions, caller); k in d'.groups && p in d'.groups[k].permissions
    ensures (k in d.groups && p in d.groups[k].permissions) || HasPermission(caller.permissions, p)
  {
    if CreateGroupCheck(d, name, permissions, caller).Success? { CanGrantEach(caller, permissions.GetOr([])); }
  }

  lemma UpdateGroupLists(d: Directory, group: Group, permissions: Option<seq<string>>, caller: Caller, k: string, p: string)
    requires var d' := UpdateGroup(d, group, permissions, caller); k in d'.groups && p in d'.groups[k].permissions
    ensures (k in d.groups && p in d.groups[k].permissions) || HasPermission(caller.permissions, p)
  {
    if UpdateGroupCheck(group, permissions, caller).Success? && permissions.Some? { CanGrantEach(caller, permissions.value); }
  }

  // What a group lists after a step it listed before, or the caller covers.
  lemma StepLists(d: Directory, s: Settings, r: Request, caller: Caller, k: string, p: string)
    requires var d' := Step(d, s, r, caller); k in d'.groups && p in d'.groups[k].permissions
    ensures (k in d.groups && p in d.groups[k].permissions) || HasPermission(caller.permissions, p)
  {
    var d' := Step(d, s, r, caller);
    if r.CreatesGroup? && d' != d {
      CreateGroupLists(d, r.name, r.permissions, caller, k, p);
    } else if r.UpdatesGroup? && d' != d {
      UpdateGroupLists(d, GetGroup(d, r.group).value, r.permissions, caller, k, p);
    } else {
      assert forall g | g in d'.groups :: g in d.groups && d'.groups[g] == d.groups[g];
    }
  }

  lemma OldUsersOnly(d: Directory, s: Settings, r: Request, caller: Caller)
    requires Keyed(d) && !r.CreatesUser?
    ensures Step(d, s, r, caller).users.Keys <= d.users.Keys
  {
    Found(d, r);
  }

  lemma LeavingStepUsers(d: Directory, s: Settings, r: Request, caller: Caller, id: string, g: string)
    requires Keyed(d) && !r.CreatesUser? && !r.UpdatesUser? && !r.AddsMember?
    requires var d' := Step(d, s, r, caller); id in d'.users && g in d'.users[id].groups
    ensures id in d.users && g in d.users[id].groups
  {
    Found(d, r);
  }

  // Groups are made, changed or deleted, users are deleted or leave: nobody joins a group.
  lemma LeavingStepGives(d: Directory, s: Settings, r: Request, caller: Caller, id: string, p: string)
    requires Inv(d) && !r.CreatesUser? && !r.UpdatesUser? && !r.AddsMember? && Gets(Step(d, s, r, caller), id, p)
    ensures Gets(d, id, p) || HasPermission(caller.permissions, p)
  {
    var d' := Step(d, s, r, caller);
    OldUsersOnly(d, s, r, caller);
    forall i, g | i in d'.users && g in d'.users[i].groups ensures g in d.users[i].groups {
      LeavingStepUsers(d, s, r, caller, i, g);
    }
    forall k, q | k in d'.groups && q in d'.groups[k].permissions
      ensures (k in d.groups && q in d.groups[k].permissions) || HasPermission(caller.permissions, q)
    {
      StepLists(d, s, r, caller, k, q);
    }
    GroupStepGives(d, d', caller, id, p);
  }

  lemma StepGives(d: Directory, s: Settings, r: Request, caller: Caller, id: string, p: string)
    requires Inv(d) && FreshId(d, r) && Gets(Step(d, s, r, caller), id, p)
    ensures Gets(d, id, p) || HasPermission(caller.permissions, p) || Default(d, r, id, p)
  {
    if Step(d, s, r, caller) != d {
      match r
      case CreatesUser(_, _) => CreateUserGives(d, r, caller, id, p);
      case UpdatesUser(user, change) =>
        LookedUp(d, user);
        UpdateUserGives(d, GetUser(d, user).value, change, caller, id, p);
      case AddsMember(group, user) => AddMemberGives(d, group, user, caller, id, p);
      case _ => LeavingStepGives(d, s, r, caller, id, p);
    }
  }

  // No operation gives anyone a permission they did not have, unless the caller covers it or it comes with the
  // default group of a new account.
  lemma NoStepAmplifies(d: Directory, s: Settings, r: Request, caller: Caller, id: string, p: string)
    requires Inv(d) && FreshId(d, r)
    requires var d' := Step(d, s, r, caller); id in d'.users && p in Effective(d', d'.users[id].groups)
    ensures || (id in d.users && HasKey(Effective(d, d.users[id].groups), Key(p)))
            || HasPermission(caller.permissions, p)
            || (r.CreatesUser? && id == r.id && r.data.groups.GetOr([]) == [] && HasKey(Effective(d, [USERS]), Key(p)))
  {
    var d' := Step(d, s, r, caller);
    EffectiveIsGiven(d', d'.users[id].groups, Key(p));
    var q :| GivenBy(d', d'.users[id].groups, q) && Key(q) == Key(p);
    StepGives(d, s, r, caller, id, q);
    if HasPermission(caller.permissions, q) {
      var c :| c in caller.permissions && Grants(c, q);
      assert Grants(c, p);
    } else if Default(d, r, id, q) {
      EffectiveIsGiven(d, [USERS], Key(p));
    } else {
      EffectiveIsGiven(d, d.users[id].groups, Key(p));
    }
  }

  // The account is gone, renamed, regrouped, enabled or disabled; its email address may have changed besides.
  predicate Affected(d: Directory, d': Directory, id: string) {
    && id in d.users
    && (id !in d'.users || d'.users[id] != d.users[id].(email := d'.users[id].email))
  }

  lemma UpdateUserAffects(d: Directory, u: User, change: UserChange, caller: Caller, id: string)
    requires Keyed(d) && u.id in d.users && d.users[u.id] == u && Affected(d, UpdateUser(d, u, change, caller), id)
    ensures id == u.id && CanActOn(d, caller, u)
  {
  }

  lemma AddMemberAffects(d: Directory, group: string, idOrName: string, caller: Caller, id: string)
    requires Keyed(d) && Affected(d, AddMember(d, group, idOrName, caller), id)
    ensures CanActOn(d, caller, d.users[id])
  {
    LookedUp(d, idOrName);
  }

  lemma DeleteUserAffects(d: Directory, u: User, caller: Caller, id: string)
    requires Affected(d, DeleteUser(d, u, caller), id)
    ensures id == u.id && CanActOn(d, caller, u)
  {
  }

  lemma RemoveMemberAffects(d: Directory, group: Group, u: User, caller: Caller, id: string)
    requires Keyed(d) && u.id in d.users && d.users[u.id] == u && Affected(d, RemoveMember(d, group, u, caller), id)
    ensures id == u.id && CanActOn(d, caller, u)
  {
  }

  // Whoever is affected by a step that is not the end of a group, other than the caller, holds nothing the caller
  // does not cover: no one acts upon someone above them.
  lemma NobodyActsAbove(d: Directory, s: Settings, r: Request, caller: Caller, id: string)
    requires Inv(d) && FreshId(d, r) && !r.DeletesGroup? && id != caller.id
    requires Affected(d, Step(d, s, r, caller), id)
    ensures forall p | p in Effective(d, d.users[id].groups) :: HasPermission(caller.permissions, p)
  {
    Found(d, r);
    if r.UpdatesUser? {
      UpdateUserAffects(d, GetUser(d, r.user).value, r.change, caller, id);
    } else if r.DeletesUser? {
      DeleteUserAffects(d, GetUser(d, r.user).value, caller, id);
    } else if r.AddsMember? {
      AddMemberAffects(d, r.group, r.user, caller, id);
    } else if r.RemovesMember? {
      RemoveMemberAffects(d, GetGroup(d, r.group).value, GetUser(d, r.user).value, caller, id);
    }
    CanGrantEach(caller, Effective(d, d.users[id].groups));
  }

  // Somebody else, who holds something the caller does not cover.
  predicate Above(d: Directory, caller: Caller, id: string) {
    id in d.users && id != caller.id && !CanGrant(caller, Effective(d, d.users[id].groups))
  }

  predicate Changed(d: Directory, d': Directory, id: string) {
    id in d.users && (id !in d'.users || d'.users[id] != d.users[id])
  }

  // A change of the email address alone, to one nobody else has.
  predicate Readdresses(d: Directory, change: UserChange, u: User) {
    && change.name.None? && change.groups.None? && change.disabled.None? && change.email.Some?
    && change.email.value != u.email && ValidEmail(change.email.value) && UniqueUser(d, None, change.email, Some(u.id))
  }

  lemma UpdateUserAbove(d: Directory, u: User, change: UserChange, caller: Caller)
    requires Keyed(d) && u.id in d.users && d.users[u.id] == u && Above(d, caller, u.id)
    ensures Changed(d, UpdateUser(d, u, change, caller), u.id) <==> Readdresses(d, change, u)
  {
  }

  lemma LeavingChanges(u: User, group: string)
    ensures Leave(u, group) != u <==> InGroup(u.groups, group)
  {
    if InGroup(u.groups, group) {
      var g :| g in u.groups && SameName(g, group);
      assert g !in Without(u.groups, group);
    }
  }

  ghost predicate ReaddressesThem(d: Directory, r: Request, u: User) {
    r.UpdatesUser? && GetUser(d, r.user) == Some(u) && Readdresses(d, r.change, u)
  }

  predicate EndsTheirGroup(d: Directory, s: Settings, r: Request, u: User) {
    && r.DeletesGroup? && !s.groupsReadOnly && GetGroup(d, r.group).Some?
    && var g := GetGroup(d, r.group).value; !BuiltIn(g) && InGroup(u.groups, g.name)
  }

  // Users above the caller are changed in exactly two ways: a new email address alone, which the service does
  // not guard, and the end of a group they are in.
  lemma OnlyAddressesAndGroupsAbove(d: Directory, s: Settings, r: Request, caller: Caller, id: string)
    requires Inv(d) && FreshId(d, r) && Above(d, caller, id)
    ensures Changed(d, Step(d, s, r, caller), id)
       <==> !s.usersReadOnly && (ReaddressesThem(d, r, d.users[id]) || EndsTheirGroup(d, s, r, d.users[id]))
  {
    if r.UpdatesUser? {
      UpdateStepAbove(d, s, r, caller, id);
    } else if r.DeletesGroup? {
      if GetGroup(d, r.group).Some? { LeavingChanges(d.users[id], GetGroup(d, r.group).value.name); }
    } else if Changed(d, Step(d, s, r, caller), id) {
      EmailsStay(d, s, r, caller, id);
      NobodyActsAbove(d, s, r, caller, id);
    }
  }

  lemma UpdateStepAbove(d: Directory, s: Settings, r: Request, caller: Caller, id: string)
    requires Inv(d) && Above(d, caller, id) && r.UpdatesUser?
    ensures Changed(d, Step(d, s, r, caller), id) <==> !s.usersReadOnly && ReaddressesThem(d, r, d.users[id])
  {
    if GetUser(d, r.user).Some? {
      LookedUp(d, r.user);
      var u := GetUser(d, r.user).value;
      if u.id == id {
        UpdateUserAbove(d, u, r.change, caller);
      } else {
        UpdateUserSparesOthers(d, u, r.change, caller, id);
      }
    }
  }

  lemma UpdateUserSparesOthers(d: Directory, u: User, change: UserChange, caller: Caller, id: string)
    requires Keyed(d) && id in d.users && u.id != id
    ensures u != d.users[id] && !Changed(d, UpdateUser(d, u, change, caller), id)
  {
  }

  lemma EmailsStay(d: Directory, s: Settings, r: Request, caller: Caller, id: string)
    requires Keyed(d) && FreshId(d, r) && !r.UpdatesUser? && id in d.users
    ensures var d' := Step(d, s, r, caller); id in d'.users ==> d'.users[id].email == d.users[id].email
  {
    Found(d, r);
  }

  // --------------------------------------------------- privileges over a history

  // Where permissions come from: a user, or the default group of new accounts.
  datatype Holder = Member(id: string) | DefaultGroup

  ghost predicate Holds(d: Directory, who: Holder, permission: string) {
    match who
    case Member(id) => Gets(d, id, permission)
    case DefaultGroup => GivenBy(d, [USERS], permission)
  }

  // Callers act as stored users, with permissions those users have (or, with a scoped token, cover).
  ghost predicate Backed(d: Directory, caller: Caller) {
    forall c | c in caller.permissions ::
      caller.id in d.users && HasPermission(Effective(d, d.users[caller.id].groups), c)
  }

  // Every caller whose request changed something acted with permissions of its own.
  ghost predicate AllBacked(ds: seq<Directory>, callers: seq<Caller>, n: nat)
    requires n < |ds| && n <= |callers|
  {
    forall i | 0 <= i < n && ds[i + 1] != ds[i] :: Backed(ds[i], callers[i])
  }

  // The user changed something in the first `n` steps.
  ghost predicate Acted(ds: seq<Directory>, callers: seq<Caller>, n: nat, id: string)
    requires n < |ds| && n <= |callers|
  {
    exists i | 0 <= i < n :: callers[i].id == id && ds[i + 1] != ds[i]
  }

  // Who may have passed a permission on to `who`: itself, the default group, or somebody who changed something.
  ghost predicate Origin(ds: seq<Directory>, callers: seq<Caller>, n: nat, who: Holder, w: Holder)
    requires n < |ds| && n <= |callers|
  {
    w == who || w == DefaultGroup || Acted(ds, callers, n, w.id)
  }

  // One of them held, at the start, a permission that covers this one, directly or through others.
  ghost predicate Traced(ds: seq<Directory>, callers: seq<Caller>, n: nat, who: Holder, p: string)
    requires n < |ds| && n <= |callers|
  {
    exists w, h :: Origin(ds, callers, n, who, w) && Holds(ds[0], w, h) && Dominates(Segments(h), Segments(p))
  }

  lemma DefaultGroupStep(d: Directory, s: Settings, r: Request, caller: Caller, p: string)
    requires GivenBy(Step(d, s, r, caller), [USERS], p)
    ensures GivenBy(d, [USERS], p) || HasPermission(caller.permissions, p)
  {
    var k := Lower(USERS);
    StepLists(d, s, r, caller, k, p);
    if k in d.groups && p in d.groups[k].permissions {
      assert USERS in [USERS] && GetGroup(d, USERS) == Some(d.groups[k]);
    }
  }

  lemma HolderStep(d: Directory, s: Settings, r: Request, caller: Caller, who: Holder, p: string)
    requires Inv(d) && FreshId(d, r) && Holds(Step(d, s, r, caller), who, p)
    ensures Holds(d, who, p) || HasPermission(caller.permissions, p) || Holds(d, DefaultGroup, p)
  {
    match who
    case Member(id) => StepGives(d, s, r, caller, id, p);
    case DefaultGroup => DefaultGroupStep(d, s, r, caller, p);
  }

  // What a backed caller covers, a permission of its own covers, directly or through one more.
  lemma CoveredByOwn(d: Directory, caller: Caller, p: string) returns (h: string)
    requires Backed(d, caller) && HasPermission(caller.permissions, p)
    ensures Gets(d, caller.id, h) && Dominates(Segments(h), Segments(p))
  {
    var c :| c in caller.permissions && Grants(c, p);
    var names := d.users[caller.id].groups;
    var e :| e in Effective(d, names) && Grants(e, c);
    EffectiveIsGiven(d, names, Key(e));
    assert HasKey(Effective(d, names), Key(e));
    h :| GivenBy(d, names, h) && Key(h) == Key(e);
    CoversDominates(Segments(e), Segments(c));
    CoversDominates(Segments(c), Segments(p));
    DominatesTransitive(Segments(e), Segments(c), Segments(p));
  }

  // Whom a permission comes from in one step, and what they held before it.
  lemma PassedBy(d: Directory, s: Settings, r: Request, caller: Caller, who: Holder, p: string) returns (from: Holder, q: string)
    requires Inv(d) && FreshId(d, r) && Holds(Step(d, s, r, caller), who, p)
    requires Step(d, s, r, caller) != d ==> Backed(d, caller)
    ensures Holds(d, from, q) && Dominates(Segments(q), Segments(p))
    ensures from == who || from == DefaultGroup || (from == Member(caller.id) && Step(d, s, r, caller) != d)
  {
    CoversReflexive(Segments(p));
    CoversDominates(Segments(p), Segments(p));
    HolderStep(d, s, r, caller, who, p);
    q := p;
    if Holds(d, who, p) {
      from := who;
    } else if Holds(d, DefaultGroup, p) {
      from := DefaultGroup;
    } else {
      from := Member(caller.id);
      q := CoveredByOwn(d, caller, p);
    }
  }

  // What is traced for somebody who may pass permissions on is traced, a step later, for whom they pass it to.
  lemma TracedOn(ds: seq<Directory>, callers: seq<Caller>, n: nat, from: Holder, who: Holder, q: string, p: string)
    requires 0 < n < |ds| && n <= |callers| && Traced(ds, callers, n - 1, from, q)
    requires Origin(ds, callers, n, who, from) && Dominates(Segments(q), Segments(p))
    ensures Traced(ds, callers, n, who, p)
  {
    var w, h :| Origin(ds, callers, n - 1, from, w) && Holds(ds[0], w, h) && Dominates(Segments(h), Segments(q));
    DominatesTransitive(Segments(h), Segments(q), Segments(p));
    assert Origin(ds, callers, n, who, w);
  }

  lemma AllBackedBefore(ds: seq<Directory>, callers: seq<Caller>, n: nat)
    requires 0 < n < |ds| && n <= |callers| && AllBacked(ds, callers, n)
    ensures AllBacked(ds, callers, n - 1) && (ds[n - 1 + 1] != ds[n - 1] ==> Backed(ds[n - 1], callers[n - 1]))
  {
  }

  // When callers act with permissions of their own, whatever a user ever holds follows, by covering, from a
  // permission held at the start by the same user, by somebody who changed something since, or by the default
  // group: what those who never act hold reaches nobody.
  lemma {:induction false} NoHistoryAmplifies(ds: seq<Directory>, s: Settings, rs: seq<Request>, callers: seq<Caller>, n: nat, who: Holder, p: string)
    requires History(ds, s, rs, callers) && Inv(ds[0]) && n < |ds| && AllBacked(ds, callers, n)
    requires Holds(ds[n], who, p)
    ensures Traced(ds, callers, n, who, p)
    decreases n
  {
    if n == 0 {
      CoversReflexive(Segments(p));
      CoversDominates(Segments(p), Segments(p));
      assert Origin(ds, callers, 0, who, who);
    } else {
      InvHolds(ds, s, rs, callers, n - 1);
      AllBackedBefore(ds, callers, n);
      var from, q := PassedBy(ds[n - 1], s, rs[n - 1], callers[n - 1], who, p);
      NoHistoryAmplifies(ds, s, rs, callers, n - 1, from, q);
      TracedOn(ds, callers, n, from, who, q, p);
    }
  }

  // With no permission among theirs that ends in two wildcards, whatever a user may ever do, one of them could
  // from the start: the user, somebody who changed something, or the default group.
  lemma NobodyEverExceedsTheStart(ds: seq<Directory>, s: Settings, rs: seq<Request>, callers: seq<Caller>, n: nat, id: string, required: string)
    requires History(ds, s, rs, callers) && Inv(ds[0]) && n < |ds| && AllBacked(ds, callers, n)
    requires forall w, h | Origin(ds, callers, n, Member(id), w) && Holds(ds[0], w, h) :: Tight(Segments(h))
    requires id in ds[n].users && HasPermission(Effective(ds[n], ds[n].users[id].groups), required)
    ensures exists w, h :: Origin(ds, callers, n, Member(id), w) && Holds(ds[0], w, h) && Grants(h, required)
  {
    EffectiveGrants(ds[n], ds[n].users[id].groups, required);
    var p :| GivenBy(ds[n], ds[n].users[id].groups, p) && Grants(p, required);
    NoHistoryAmplifies(ds, s, rs, callers, n, Member(id), p);
    var w, h :| Origin(ds, callers, n, Member(id), w) && Holds(ds[0], w, h) && Dominates(Segments(h), Segments(p));
    CoversDominates(Segments(p), Segments(required));
    DominatesTransitive(Segments(h), Segments(p), Segments(required));
    TightIffChainsAddNothing(Segments(h));
    assert Grants(h, required);
  }

  // A member may do what some permission listed by one of the groups grants.
  lemma EffectiveGrants(d: Directory, names: seq<string>, required: string)
    ensures HasPermission(Effective(d, names), required) <==> exists p :: GivenBy(d, names, p) && Grants(p, required)
  {
    if HasPermission(Effective(d, names), required) {
      var e :| e in Effective(d, names) && Grants(e, required);
      EffectiveIsGiven(d, names, Key(e));
      assert HasKey(Effective(d, names), Key(e));
      var p :| GivenBy(d, names, p) && Key(p) == Key(e);
      assert Grants(p, required);
    }
    if p :| GivenBy(d, names, p) && Grants(p, required) {
      EffectiveIsGiven(d, names, Key(p));
      var e :| e in Effective(d, names) && Key(e) == Key(p);
      assert Grants(e, required);
    }
  }

  // The directory of one user in one group.
  function Small(list: seq<string>): Directory {
    Directory(map["1" := User("1", "u", "u@localhost", ["g"], false)], map["g" := Group("g", list, false)])
  }

  lemma SmallGives(list: seq<string>, p: string)
    ensures GivenBy(Small(list), ["g"], p) <==> p in list && !Blank(p)
  {
    assert Lower("g") == "g";
    assert GetGroup(Small(list), "g") == Some(Group("g", list, false));
    assert "g" in ["g"];
  }

  lemma SmallGrants(list: seq<string>, required: string)
    ensures HasPermission(Effective(Small(list), ["g"]), required) <==> exists p | p in list :: !Blank(p) && Grants(p, required)
  {
    EffectiveGrants(Small(list), ["g"], required);
    forall p ensures GivenBy(Small(list), ["g"], p) <==> p in list && !Blank(p) {
      SmallGives(list, p);
    }
  }

  lemma GroupUpdated(d: Directory, s: Settings, name: string, listed: seq<string>, caller: Caller)
    requires !s.groupsReadOnly && ValidPermissions(listed) && "" !in listed && CanGrant(caller, listed)
    requires GetGroup(d, name).Some? && !SameName(GetGroup(d, name).value.name, ADMIN)
    ensures var g := GetGroup(d, name).value;
            Step(d, s, UpdatesGroup(name, Some(listed)), caller) == d.(groups := d.groups[Lower(g.name) := g.(permissions := listed)])
  {
    var g := GetGroup(d, name).value;
    UpdatePasses(g, listed, caller);
    UpdateStepIs(d, s, name, listed, caller);
  }

  lemma UpdateStepIs(d: Directory, s: Settings, name: string, listed: seq<string>, caller: Caller)
    requires !s.groupsReadOnly && GetGroup(d, name).Some? && UpdateGroupCheck(GetGroup(d, name).value, Some(listed), caller).Success?
    ensures var g := GetGroup(d, name).value;
            Step(d, s, UpdatesGroup(name, Some(listed)), caller) == d.(groups := d.groups[Lower(g.name) := g.(permissions := listed)])
  {
  }

  lemma UpdatePasses(g: Group, listed: seq<string>, caller: Caller)
    requires ValidPermissions(listed) && "" !in listed && CanGrant(caller, listed) && !SameName(g.name, ADMIN)
    ensures UpdateGroupCheck(g, Some(listed), caller) == Success(())
  {
  }

  lemma SmallUpdate(list: seq<string>, listed: seq<string>, s: Settings, caller: Caller)
    requires !s.groupsReadOnly && ValidPermissions(listed) && "" !in listed && CanGrant(caller, listed)
    ensures Step(Small(list), s, UpdatesGroup("g", Some(listed)), caller) == Small(listed)
  {
    assert Lower("g") == "g" && |Lower("g")| != |Lower(ADMIN)|;
    GroupUpdated(Small(list), s, "g", listed, caller);
    assert Small(list).groups["g" := Group("g", listed, false)] == Small(listed).groups;
  }

  lemma SmallBacked(list: seq<string>)
    ensures Backed(Small(list), Caller("1", Effective(Small(list), ["g"])))
  {
    forall c | c in Effective(Small(list), ["g"]) ensures HasPermission(Effective(Small(list), ["g"]), c) {
      CoversReflexive(Segments(c));
    }
  }

  // Permissions that end in wildcards there are, below every permission.
  lemma WildcardTails(a: string)
    ensures Segments(Below(a)) == Segments(a) + [ANY]
    ensures Segments(Below(Below(a))) == Segments(Below(a)) + [ANY]
    ensures !Blank(Below(a)) && !Blank(Below(Below(a)))
    ensures Grants(Below(Below(a)), Below(a)) && Grants(Below(a), a) && !Grants(Below(Below(a)), a)
  {
    BelowSegments(a);
    BelowSegments(Below(a));
    assert TrimStart(Below(a)) == Below(a) && TrimStart(Below(Below(a))) == Below(Below(a));
  }

  // A permission that ends in two wildcards grows: a holder who may change groups, by whatever permission the
  // route asks for, may list the one that ends in one, and then holds the permission in front of it, which it did not.
  lemma TwoTrailingWildcardsGrow(s: Settings, a: string, update: string)
    requires !s.groupsReadOnly && ValidPermission(Below(a)) && ValidPermission(update) && !Blank(update) && !Grants(update, a)
    ensures var before, after := Small([update, Below(Below(a))]), [update, Below(a)];
            var caller := Caller("1", Effective(before, ["g"]));
            && Backed(before, caller) && HasPermission(caller.permissions, update) && !HasPermission(caller.permissions, a)
            && Step(before, s, UpdatesGroup("g", Some(after)), caller) == Small(after)
            && HasPermission(Effective(Small(after), ["g"]), a)
  {
    var b, c := Below(a), Below(Below(a));
    var caller := Caller("1", Effective(Small([update, c]), ["g"]));
    WildcardTails(a);
    SmallBacked([update, c]);
    CoversReflexive(Segments(update));
    PairGrants(update, c, a);
    PairGrants(update, c, b);
    PairGrants(update, c, update);
    PairGrants(update, b, a);
    PairUpdate([update, c], update, b, s, caller);
  }

  lemma PairUpdate(list: seq<string>, p: string, q: string, s: Settings, caller: Caller)
    requires !s.groupsReadOnly && ValidPermission(p) && ValidPermission(q) && !Blank(p) && !Blank(q)
    requires HasPermission(caller.permissions, p) && HasPermission(caller.permissions, q)
    ensures Step(Small(list), s, UpdatesGroup("g", Some([p, q])), caller) == Small([p, q])
  {
    PairListed(p, q, caller);
    SmallUpdate(list, [p, q], s, caller);
  }

  lemma PairListed(p: string, q: string, caller: Caller)
    requires ValidPermission(p) && ValidPermission(q) && !Blank(p) && !Blank(q)
    requires HasPermission(caller.permissions, p) && HasPermission(caller.permissions, q)
    ensures ValidPermissions([p, q]) && "" !in [p, q] && CanGrant(caller, [p, q])
  {
    forall r | r in [p, q] ensures r == p || r == q {
    }
  }

  lemma PairGrants(p: string, q: string, required: string)
    requires !Blank(p) && !Blank(q)
    ensures HasPermission(Effective(Small([p, q]), ["g"]), required) <==> Grants(p, required) || Grants(q, required)
  {
    SmallGrants([p, q], required);
    assert p in [p, q] && q in [p, q];
  }
}
