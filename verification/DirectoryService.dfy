// The in-memory stores and the service that checks a request and then changes them, one step after another.
module DirectoryService {
  import opened Text
  import opened Permissions
  import opened UserDirectory

  datatype StoreError = NameTaken | EmailTaken | GroupTaken | Missing

  // The stores' own uniqueness: names among names, emails among emails.
  predicate StoreUnique(users: map<string, User>, name: Option<string>, email: Option<string>, except: Option<string>) {
    forall id | id in users && Some(id) != except ::
      && (name.Some? ==> Lower(users[id].name) != Lower(name.value))
      && (email.Some? ==> Lower(users[id].email) != Lower(email.value))
  }

  // The service's check leaves nothing for the store's to refuse.
  lemma UniqueInStore(d: Directory, name: Option<string>, email: Option<string>, except: Option<string>)
    requires Keyed(d) && UniqueUser(d, name, email, except)
    requires (name.Some? ==> name.value != "") && (email.Some? ==> email.value != "")
    ensures StoreUnique(d.users, name, email, except)
  {
    forall id | id in d.users && Some(id) != except
      ensures (name.Some? ==> Lower(d.users[id].name) != Lower(name.value)) && (email.Some? ==> Lower(d.users[id].email) != Lower(email.value))
    {
      assert Free(d.users[id], name, email);
    }
  }

  // What the store refuses is a name or an address another user has, in any case.
  lemma StoreRefuses(users: map<string, User>, name: Option<string>, email: Option<string>, except: Option<string>)
    ensures !StoreUnique(users, name, email, except)
       <==> exists id | id in users && Some(id) != except ::
              (name.Some? && Lower(users[id].name) == Lower(name.value)) || (email.Some? && Lower(users[id].email) == Lower(email.value))
  {
  }

  // The users `done` have left the group.
  function LeftBy(users: map<string, User>, done: set<string>, group: string): map<string, User> {
    map id | id in users :: if id in done then Leave(users[id], group) else users[id]
  }

  lemma OneMoreLeaves(users: map<string, User>, left: set<string>, id: string, group: string)
    requires left <= users.Keys && id in left
    ensures var now, next := LeftBy(users, users.Keys - left, group), LeftBy(users, users.Keys - (left - {id}), group);
            && id in now && now[id] == users[id] && next == now[id := Leave(users[id], group)]
            && (!InGroup(users[id].groups, group) ==> next == now)
  {
  }

  lemma NothingToKeepUnique(users: map<string, User>, except: Option<string>)
    ensures StoreUnique(users, None, None, except)
  {
  }

  class InMemoryUserStore {
    var users: map<string, User>

    constructor ()
      ensures users == map[]
    {
      users := map[];
    }

    method GetUser(idOrName: string) returns (r: Option<User>)
      ensures idOrName in users ==> r == Some(users[idOrName])
      ensures idOrName !in users && r.Some? ==>
                exists id | id in users :: users[id] == r.value && Lower(users[id].name) == Lower(idOrName)
      ensures r.None? ==> forall id | id in users :: Lower(users[id].name) != Lower(idOrName)
    {
      if idOrName in users {
        return Some(users[idOrName]);
      }
      var left := users.Keys;
      while left != {}
        invariant left <= users.Keys
        invariant forall id | id in users.Keys - left :: Lower(users[id].name) != Lower(idOrName)
        decreases left
      {
        var id :| id in left;
        if Lower(users[id].name) == Lower(idOrName) {
          return Some(users[id]);
        }
        left := left - {id};
      }
      return None;
    }

    method AssertUnique(name: Option<string>, email: Option<string>, except: Option<string>) returns (r: Result<(), StoreError>)
      ensures r.Success? <==> StoreUnique(users, name, email, except)
      ensures r == Failure(NameTaken) ==>
                name.Some? && exists id | id in users && Some(id) != except :: Lower(users[id].name) == Lower(name.value)
      ensures r == Failure(EmailTaken) ==>
                email.Some? && exists id | id in users && Some(id) != except :: Lower(users[id].email) == Lower(email.value)
      ensures r.Failure? ==> r.error == NameTaken || r.error == EmailTaken
    {
      var left := users.Keys;
      while left != {}
        invariant left <= users.Keys
        invariant StoreUnique(map id | id in users.Keys - left :: users[id], name, email, except)
        decreases left
      {
        var id :| id in left;
        left := left - {id};
        if Some(id) != except {
          if name.Some? && Lower(users[id].name) == Lower(name.value) {
            return Failure(NameTaken);
          }
          if email.Some? && Lower(users[id].email) == Lower(email.value) {
            return Failure(EmailTaken);
          }
        }
      }
      assert (map id | id in users.Keys - left :: users[id]) == users;
      return Success(());
    }

    method CreateUser(user: User) returns (r: Result<User, StoreError>)
      modifies this
      ensures r.Success? <==> StoreUnique(old(users), Some(user.name), Some(user.email), None)
      ensures r.Success? ==> r.value == user
      ensures users == if r.Success? then old(users)[user.id := user] else old(users)
    {
      var unique := AssertUnique(Some(user.name), Some(user.email), None);
      if unique.Failure? {
        return Failure(unique.error);
      }
      users := users[user.id := user];
      return Success(user);
    }

    method UpdateUser(id: string, change: UserChange) returns (r: Result<User, StoreError>)
      modifies this
      ensures r.Success? <==> id in old(users) && StoreUnique(old(users), change.name, change.email, Some(id))
      ensures r.Success? ==> r.value == Updated(old(users)[id], change, change.groups)
      ensures users == if r.Success? then old(users)[id := r.value] else old(users)
    {
      if id !in users {
        return Failure(Missing);
      }
      var unique := AssertUnique(change.name, change.email, Some(id));
      if unique.Failure? {
        return Failure(unique.error);
      }
      var user := users[id];
      if change.name.Some? { user := user.(name := change.name.value); }
      if change.email.Some? { user := user.(email := change.email.value); }
      if change.groups.Some? { user := user.(groups := change.groups.value); }
      if change.disabled.Some? { user := user.(disabled := change.disabled.value); }
      users := users[id := user];
      return Success(user);
    }

    method DeleteUser(id: string)
      modifies this
      ensures users == old(users) - {id}
    {
      users := users - {id};
    }
  }

  class InMemoryGroupStore {
    var groups: map<string, Group>

    constructor ()
      ensures groups == map[]
    {
      groups := map[];
    }

    method GetGroup(name: string) returns (r: Option<Group>)
      ensures forall users :: r == UserDirectory.GetGroup(Directory(users, groups), name)
    {
      r := if Lower(name) in groups then Some(groups[Lower(name)]) else None;
    }

    method CreateGroup(group: Group) returns (r: Result<Group, StoreError>)
      modifies this
      ensures r == if Lower(group.name) in old(groups) then Failure(GroupTaken) else Success(group)
      ensures groups == if r.Success? then old(groups)[Lower(group.name) := group] else old(groups)
    {
      if Lower(group.name) in groups {
        return Failure(GroupTaken);
      }
      groups := groups[Lower(group.name) := group];
      return Success(group);
    }

    method UpdateGroup(name: string, permissions: Option<seq<string>>) returns (r: Result<Group, StoreError>)
      modifies this
      ensures r.Success? <==> Lower(name) in old(groups)
      ensures r.Success? ==> r.value == old(groups)[Lower(name)].(permissions := permissions.GetOr(old(groups)[Lower(name)].permissions))
      ensures groups == if r.Success? then old(groups)[Lower(name) := r.value] else old(groups)
    {
      var key := Lower(name);
      if key !in groups {
        return Failure(Missing);
      }
      var group := groups[key];
      if permissions.Some? { group := group.(permissions := permissions.value); }
      groups := groups[key := group];
      return Success(group);
    }

    method DeleteGroup(name: string)
      modifies this
      ensures groups == old(groups) - {Lower(name)}
    {
      groups := groups - {Lower(name)};
    }
  }

  class DirectoryService {
    const userStore: InMemoryUserStore
    const groupStore: InMemoryGroupStore
    const settings: Settings

    constructor (userStore: InMemoryUserStore, groupStore: InMemoryGroupStore, settings: Settings)
      ensures this.userStore == userStore && this.groupStore == groupStore && this.settings == settings
    {
      this.userStore, this.groupStore, this.settings := userStore, groupStore, settings;
    }

    function Contents(): Directory
      reads userStore, groupStore
    {
      Directory(userStore.users, groupStore.groups)
    }

    ghost predicate Valid()
      reads userStore, groupStore
    {
      Inv(Contents())
    }

    // Names are unique, so whatever the store finds first is the user meant.
    method LookUp(idOrName: string) returns (r: Option<User>)
      requires Valid()
      ensures r == GetUser(Contents(), idOrName)
      ensures r.Some? ==> r.value.id in userStore.users && userStore.users[r.value.id] == r.value
    {
      r := userStore.GetUser(idOrName);
      ghost var d := Contents();
      if r.Some? && idOrName !in d.users {
        var u := GetUser(d, idOrName).value;
        LookedUp(d, idOrName);
        assert u.id != r.value.id ==> !Clash(d.users[u.id], d.users[r.value.id]);
      }
    }

    method ResolveGroups(names: seq<string>) returns (r: Result<seq<Group>, DirectoryError>)
      ensures r == UserDirectory.ResolveGroups(Contents(), names)
    {
      var out: seq<Group> := [];
      for i := 0 to |names|
        invariant UserDirectory.ResolveGroups(Contents(), names[..i]) == Success(out)
      {
        assert names[..i + 1][..i] == names[..i];
        var group := groupStore.GetGroup(names[i]);
        assert group == GetGroup(Contents(), names[i]);
        if group.None? {
          ResolveFails(Contents(), names, i + 1);
          return Failure(BadRequest);
        }
        if !exists g | g in out :: SameName(g.name, group.value.name) {
          out := out + [group.value];
        }
      }
      assert names[..|names|] == names;
      return Success(out);
    }

    method AssertUniqueUser(name: Option<string>, email: Option<string>, except: Option<string>) returns (unique: bool)
      ensures unique == UniqueUser(Contents(), name, email, except)
    {
      ghost var d := Contents();
      var left := userStore.users.Keys;
      while left != {}
        invariant left <= userStore.users.Keys
        invariant forall id | id in d.users.Keys - left && Some(id) != except :: Free(d.users[id], name, email)
        decreases left
      {
        var id :| id in left;
        left := left - {id};
        if Some(id) != except {
          var u := userStore.users[id];
          if name.Some? && (SameName(u.name, name.value) || SameName(u.email, name.value)) {
            assert !Free(d.users[id], name, email);
            return false;
          }
          if email.Some? && (SameName(u.email, email.value) || SameName(u.name, email.value)) {
            assert !Free(d.users[id], name, email);
            return false;
          }
        }
      }
      return true;
    }

    method GetEffectivePermissions(user: User) returns (permissions: seq<string>)
      ensures permissions == Effective(Contents(), user.groups)
    {
      var lists: seq<Option<seq<string>>> := [];
      for i := 0 to |user.groups|
        invariant lists == PermissionLists(Contents(), user.groups[..i])
      {
        assert user.groups[..i + 1][..i] == user.groups[..i];
        var group := groupStore.GetGroup(user.groups[i]);
        assert group == GetGroup(Contents(), user.groups[i]);
        if group.Some? {
          lists := lists + [Some(group.value.permissions)];
        }
      }
      assert user.groups[..|user.groups|] == user.groups;
      permissions := MergePermissions(lists);
    }

    method AssertCanActOn(caller: Caller, target: User) returns (can: bool)
      ensures can == CanActOn(Contents(), caller, target)
    {
      if caller.id == target.id {
        return true;
      }
      var permissions := GetEffectivePermissions(target);
      can := Uncovered(caller.permissions, permissions) == [];
    }

    method CreateUser(data: NewUser, caller: Caller, id: string) returns (r: Outcome)
      requires Valid() && id !in userStore.users
      modifies userStore
      ensures Valid()
      ensures r == CreateUserCheck(old(Contents()), data, caller)
      ensures Contents() == UserDirectory.CreateUser(old(Contents()), id, data, caller)
    {
      CreateUserKeepsInv(Contents(), id, data, caller);
      if !ValidName(data.name) || !ValidEmail(data.email) || (data.groups.Some? && "" in data.groups.value) {
        return Failure(BadRequest);
      }
      var explicit := data.groups.Some? && data.groups.value != [];
      var groups := ResolveGroups(if explicit then data.groups.value else [USERS]);
      if groups.Failure? {
        return Failure(groups.error);
      }
      if explicit && !CanAddGroups(caller, groups.value) {
        return Failure(Forbidden);
      }
      var unique := AssertUniqueUser(Some(data.name), Some(data.email), None);
      if !unique {
        return Failure(Conflict);
      }
      EmailIsNotEmpty(data.email);
      UniqueInStore(Contents(), Some(data.name), Some(data.email), None);
      var _ := userStore.CreateUser(User(id, data.name, data.email, NamesOf(groups.value), data.disabled.GetOr(false)));
      return Success(());
    }

    method UpdateUser(target: User, change: UserChange, caller: Caller) returns (r: Outcome)
      requires Valid() && target.id in userStore.users && userStore.users[target.id] == target
      modifies userStore
      ensures Valid()
      ensures r == UpdateUserCheck(old(Contents()), target, change, caller)
      ensures Contents() == UserDirectory.UpdateUser(old(Contents()), target, change, caller)
    {
      UpdateUserKeepsInv(Contents(), target, change, caller);
      if !ValidChange(change) {
        return Failure(BadRequest);
      }
      var groups: Option<seq<Group>> := None;
      if change.groups.Some? {
        var resolved := ResolveGroups(change.groups.value);
        if resolved.Failure? {
          return Failure(resolved.error);
        }
        groups := Some(resolved.value);
      }
      if change.name.Some? || groups.Some? || change.disabled.Some? {
        var can := AssertCanActOn(caller, target);
        if !can {
          return Failure(Forbidden);
        }
      }
      if groups.Some? && !CanAddGroups(caller, AddedGroups(groups.value, target)) {
        return Failure(Forbidden);
      }
      var unique := AssertUniqueUser(change.name, change.email, Some(target.id));
      if !unique {
        return Failure(Conflict);
      }
      var names := if groups.Some? then Some(NamesOf(groups.value)) else None;
      var lastAdmin := IsLastEnabledAdmin(Contents(), target);
      if lastAdmin && change.disabled == Some(true) {
        return Failure(Conflict);
      }
      if lastAdmin && names.Some? && !InGroup(names.value, ADMIN) {
        return Failure(Conflict);
      }
      if change.email.Some? { EmailIsNotEmpty(change.email.value); }
      UniqueInStore(Contents(), change.name, change.email, Some(target.id));
      var _ := userStore.UpdateUser(target.id, change.(groups := names));
      return Success(());
    }

    method DeleteUser(target: User, caller: Caller) returns (r: Outcome)
      requires Valid()
      modifies userStore
      ensures Valid()
      ensures r == DeleteUserCheck(old(Contents()), target, caller)
      ensures Contents() == UserDirectory.DeleteUser(old(Contents()), target, caller)
    {
      DeleteUserKeepsInv(Contents(), target, caller);
      if target.id == caller.id {
        return Failure(Conflict);
      }
      var can := AssertCanActOn(caller, target);
      if !can {
        return Failure(Forbidden);
      }
      if IsLastEnabledAdmin(Contents(), target) {
        return Failure(Conflict);
      }
      userStore.DeleteUser(target.id);
      return Success(());
    }

    method CreateGroup(name: string, permissions: Option<seq<string>>, caller: Caller) returns (r: Outcome)
      requires Valid()
      modifies groupStore
      ensures Valid()
      ensures r == CreateGroupCheck(old(Contents()), name, permissions, caller)
      ensures Contents() == UserDirectory.CreateGroup(old(Contents()), name, permissions, caller)
    {
      CreateGroupKeepsInv(Contents(), name, permissions, caller);
      var granted := permissions.GetOr([]);
      if !ValidName(name) || "" in granted || !ValidPermissions(granted) {
        return Failure(BadRequest);
      }
      if !CanGrant(caller, granted) {
        return Failure(Forbidden);
      }
      var existing := groupStore.GetGroup(name);
      assert existing == GetGroup(Contents(), name);
      if existing.Some? {
        return Failure(Conflict);
      }
      var _ := groupStore.CreateGroup(Group(name, granted, false));
      return Success(());
    }

    method UpdateGroup(group: Group, permissions: Option<seq<string>>, caller: Caller) returns (r: Outcome)
      requires Valid() && Lower(group.name) in groupStore.groups && groupStore.groups[Lower(group.name)] == group
      modifies groupStore
      ensures Valid()
      ensures r == UpdateGroupCheck(group, permissions, caller)
      ensures Contents() == UserDirectory.UpdateGroup(old(Contents()), group, permissions, caller)
    {
      UpdateGroupKeepsInv(Contents(), group, permissions, caller);
      if permissions.Some? && ("" in permissions.value || !ValidPermissions(permissions.value)) {
        return Failure(BadRequest);
      }
      if permissions.Some? && SameName(group.name, ADMIN) {
        return Failure(Conflict);
      }
      if permissions.Some? && !CanGrant(caller, permissions.value) {
        return Failure(Forbidden);
      }
      var _ := groupStore.UpdateGroup(group.name, permissions);
      return Success(());
    }

    method DeleteGroup(group: Group) returns (r: Outcome)
      requires Valid()
      modifies userStore, groupStore
      ensures Valid()
      ensures r == DeleteGroupCheck(group)
      ensures Contents() == UserDirectory.DeleteGroup(old(Contents()), group, settings.usersReadOnly)
    {
      DeleteGroupKeepsInv(Contents(), group, settings.usersReadOnly);
      if BuiltIn(group) {
        return Failure(Conflict);
      }
      groupStore.DeleteGroup(group.name);
      if !settings.usersReadOnly {
        RemoveMemberships(group.name);
      }
      return Success(());
    }

    method RemoveMemberships(group: string)
      requires Valid()
      modifies userStore
      ensures userStore.users == map id | id in old(userStore.users) :: Leave(old(userStore.users)[id], group)
    {
      ghost var before := userStore.users;
      var left := userStore.users.Keys;
      while left != {}
        invariant left <= before.Keys
        invariant userStore.users == LeftBy(before, before.Keys - left, group)
        decreases left
      {
        var id :| id in left;
        OneMoreLeaves(before, left, id, group);
        NothingToKeepUnique(userStore.users, Some(id));
        var user := userStore.users[id];
        if InGroup(user.groups, group) {
          var _ := userStore.UpdateUser(id, UserChange(None, None, Some(Without(user.groups, group)), None));
        }
        left := left - {id};
      }
      assert before.Keys - left == before.Keys;
    }

    method AddMember(groupName: string, userIdOrName: string, caller: Caller) returns (r: Outcome)
      requires Valid()
      modifies userStore
      ensures Valid()
      ensures r == AddMemberCheck(old(Contents()), groupName, userIdOrName, caller)
      ensures Contents() == UserDirectory.AddMember(old(Contents()), groupName, userIdOrName, caller)
    {
      AddMemberKeepsInv(Contents(), groupName, userIdOrName, caller);
      var group := groupStore.GetGroup(groupName);
      assert group == GetGroup(Contents(), groupName);
      if group.None? {
        return Failure(BadRequest);
      }
      var user := LookUp(userIdOrName);
      if user.None? {
        return Failure(NotFound);
      }
      if InGroup(user.value.groups, group.value.name) {
        return Success(());
      }
      var can := AssertCanActOn(caller, user.value);
      if !can || !CanAddGroups(caller, [group.value]) {
        return Failure(Forbidden);
      }
      var _ := userStore.UpdateUser(user.value.id, UserChange(None, None, Some(user.value.groups + [group.value.name]), None));
      return Success(());
    }

    method RemoveMember(group: Group, user: User, caller: Caller) returns (r: Outcome)
      requires Valid() && user.id in userStore.users && userStore.users[user.id] == user
      modifies userStore
      ensures Valid()
      ensures r == RemoveMemberCheck(old(Contents()), group, user, caller)
      ensures Contents() == UserDirectory.RemoveMember(old(Contents()), group, user, caller)
    {
      RemoveMemberKeepsInv(Contents(), group, user, caller);
      if !InGroup(user.groups, group.name) {
        return Success(());
      }
      var can := AssertCanActOn(caller, user);
      if !can {
        return Failure(Forbidden);
      }
      if SameName(group.name, ADMIN) && IsLastEnabledAdmin(Contents(), user) {
        return Failure(Conflict);
      }
      var _ := userStore.UpdateUser(user.id, UserChange(None, None, Some(Without(user.groups, group.name)), None));
      return Success(());
    }
  }

  // An unknown name among the first ones fails the whole list.
  lemma {:induction false} ResolveFails(d: Directory, names: seq<string>, n: nat)
    requires n <= |names| && UserDirectory.ResolveGroups(d, names[..n]) == Failure(BadRequest)
    ensures UserDirectory.ResolveGroups(d, names) == Failure(BadRequest)
    decreases |names| - n
  {
    if n == |names| {
      assert names[..n] == names;
    } else {
      assert names[..n + 1][..n] == names[..n];
      ResolveFails(d, names, n + 1);
    }
  }
}
