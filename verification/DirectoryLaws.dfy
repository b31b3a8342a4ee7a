// The directory operations by what they promise: when each is accepted, with which answer otherwise, and what it
// has changed once it was.
module DirectoryLaws {
  import opened Text
  import opened Permissions
  import opened UserDirectory

  // ------------------------------------------------- when operations are accepted

  // Every permission the groups of those names list, the caller covers.
  ghost predicate Covered(d: Directory, caller: Caller, names: seq<string>) {
    forall p | GivenBy(d, names, p) :: HasPermission(caller.permissions, p)
  }

  predicate AllKnown(d: Directory, names: seq<string>) {
    forall name | name in names :: GetGroup(d, name).Some?
  }

  // Somebody else has the name, as name or as email address, whatever its case.
  predicate Taken(d: Directory, name: string, except: Option<string>) {
    exists id | id in d.users && Some(id) != except ::
      name != "" && (Lower(d.users[id].name) == Lower(name) || Lower(d.users[id].email) == Lower(name))
  }

  lemma CanActOnIff(d: Directory, caller: Caller, target: User)
    ensures CanActOn(d, caller, target) <==> caller.id == target.id || Covered(d, caller, target.groups)
  {
    var effective := Effective(d, target.groups);
    if CanGrant(caller, effective) {
      forall p | GivenBy(d, target.groups, p) ensures HasPermission(caller.permissions, p) {
        EffectiveIsGiven(d, target.groups, Key(p));
        Granted(caller, effective, p);
      }
    }
    if Covered(d, caller, target.groups) {
      forall e | e in effective ensures HasPermission(caller.permissions, e) {
        EffectiveIsGiven(d, target.groups, Key(e));
        assert HasKey(effective, Key(e));
        var p :| GivenBy(d, target.groups, p) && Key(p) == Key(e);
        var c :| c in caller.permissions && Grants(c, p);
        assert Grants(c, e);
      }
    }
  }

  lemma PermissionsOfGroups(groups: seq<Group>, key: string)
    ensures HasKey(PermissionsOf(groups), key) <==> exists g, p | g in groups && p in g.permissions :: !Blank(p) && Key(p) == key
  {
    var lists := seq(|groups|, i requires 0 <= i < |groups| => Some(groups[i].permissions));
    FirstSeenKeys(Flatten(lists), key);
    if p :| p in Flatten(lists) && !Blank(p) && Key(p) == key {
      InFlattened(lists, p);
      var i :| 0 <= i < |lists| && p in lists[i].GetOr([]);
      assert groups[i] in groups && p in groups[i].permissions;
    }
    if g, p :| g in groups && p in g.permissions && !Blank(p) && Key(p) == key {
      var i :| 0 <= i < |groups| && groups[i] == g;
      assert p in lists[i].GetOr([]);
      InFlattened(lists, p);
    }
  }

  lemma CanAddIff(caller: Caller, groups: seq<Group>)
    ensures CanAddGroups(caller, groups)
       <==> forall g, p | g in groups && p in g.permissions && !Blank(p) :: HasPermission(caller.permissions, p)
  {
    if CanAddGroups(caller, groups) {
      forall g, p | g in groups && p in g.permissions && !Blank(p) ensures HasPermission(caller.permissions, p) {
        GrantedGroups(caller, groups, g, p);
      }
    } else {
      var e :| e in PermissionsOf(groups) && !HasPermission(caller.permissions, e);
      PermissionsOfGroups(groups, Key(e));
      assert HasKey(PermissionsOf(groups), Key(e));
      var g, p :| g in groups && p in g.permissions && !Blank(p) && Key(p) == Key(e);
      assert HasPermission(caller.permissions, p) ==> HasPermission(caller.permissions, e);
    }
  }

  lemma {:induction false} ResolvesIff(d: Directory, names: seq<string>)
    ensures ResolveGroups(d, names).Success? <==> AllKnown(d, names)
    ensures ResolveGroups(d, names).Failure? ==> ResolveGroups(d, names) == Failure(BadRequest)
  {
    if names != [] {
      var init, last := names[..|names| - 1], names[|names| - 1];
      assert names == init + [last];
      ResolvesIff(d, init);
    }
  }

  // The permissions of resolved groups are those the names give.
  lemma CanAddResolved(d: Directory, caller: Caller, names: seq<string>)
    requires Keyed(d) && ResolveGroups(d, names).Success?
    ensures CanAddGroups(caller, ResolveGroups(d, names).value) <==> Covered(d, caller, names)
  {
    var groups := ResolveGroups(d, names).value;
    ResolvedGroups(d, names);
    CanAddIff(caller, groups);
    if Covered(d, caller, names) {
      forall g, p | g in groups && p in g.permissions && !Blank(p) ensures HasPermission(caller.permissions, p) {
        assert GivenBy(d, names, p);
      }
    } else {
      var p :| GivenBy(d, names, p) && !HasPermission(caller.permissions, p);
      var name :| name in names && GetGroup(d, name).Some? && p in GetGroup(d, name).value.permissions;
      assert GetGroup(d, name).value in groups;
    }
  }

  lemma UniqueIff(d: Directory, name: Option<string>, email: Option<string>, except: Option<string>)
    requires Keyed(d)
    ensures UniqueUser(d, name, email, except)
       <==> (name.Some? ==> !Taken(d, name.value, except)) && (email.Some? ==> !Taken(d, email.value, except))
  {
    if UniqueUser(d, name, email, except) {
      forall id | id in d.users && Some(id) != except ensures Free(d.users[id], name, email) {
      }
    }
  }

  predicate Asks(data: NewUser) {
    data.groups.Some? && data.groups.value != []
  }

  predicate ValidNewUser(d: Directory, data: NewUser) {
    && ValidName(data.name) && ValidEmail(data.email) && (data.groups.Some? ==> "" !in data.groups.value)
    && AllKnown(d, if Asks(data) then data.groups.value else [USERS])
  }

  // An account is made for a valid name and address nobody has, in groups there are, all of which the caller covers
  // if it asks for any; it gets the default group otherwise.
  lemma CreateUserAnswers(d: Directory, data: NewUser, caller: Caller)
    requires Keyed(d)
    ensures CreateUserCheck(d, data, caller) ==
            if !ValidNewUser(d, data) then Failure(BadRequest)
            else if Asks(data) && !Covered(d, caller, data.groups.value) then Failure(Forbidden)
            else if Taken(d, data.name, None) || Taken(d, data.email, None) then Failure(Conflict)
            else Success(())
  {
    var names := if Asks(data) then data.groups.value else [USERS];
    assert GroupsOfNew(data) == names;
    ResolvesIff(d, names);
    if ResolveGroups(d, names).Success? { CanAddResolved(d, caller, names); }
    UniqueIff(d, Some(data.name), Some(data.email), None);
  }

  // The last user who is enabled and in the admin group.
  predicate OnlyAdmin(d: Directory, u: User) {
    && !u.disabled && InGroup(u.groups, ADMIN)
    && forall id | id in d.users && id != u.id :: d.users[id].disabled || !InGroup(d.users[id].groups, ADMIN)
  }

  predicate ValidUserChange(d: Directory, change: UserChange) {
    && (change.name.Some? ==> ValidName(change.name.value))
    && (change.email.Some? ==> ValidEmail(change.email.value))
    && (change.groups.Some? ==> "" !in change.groups.value && AllKnown(d, change.groups.value))
  }

  // What the groups asked for list beyond those the user is in.
  ghost predicate CoversAdded(d: Directory, caller: Caller, names: seq<string>, u: User) {
    forall name, p | name in names && GetGroup(d, name).Some? && !InGroup(u.groups, GetGroup(d, name).value.name)
                     && p in GetGroup(d, name).value.permissions && !Blank(p) :: HasPermission(caller.permissions, p)
  }

  lemma CanAddAddedIff(d: Directory, caller: Caller, names: seq<string>, u: User)
    requires Keyed(d) && ResolveGroups(d, names).Success?
    ensures CanAddGroups(caller, AddedGroups(ResolveGroups(d, names).value, u)) <==> CoversAdded(d, caller, names, u)
  {
    var groups := ResolveGroups(d, names).value;
    var added := AddedGroups(groups, u);
    ResolvedGroups(d, names);
    CanAddIff(caller, added);
    if CoversAdded(d, caller, names, u) {
      forall g, p | g in added && p in g.permissions && !Blank(p) ensures HasPermission(caller.permissions, p) {
        var name :| name in names && GetGroup(d, name) == Some(g);
      }
    }
  }

  // The names of the resolved groups include the admin group's exactly when one of the names asked for is its.
  lemma ResolvedAdmin(d: Directory, names: seq<string>)
    requires Keyed(d) && ResolveGroups(d, names).Success?
    ensures InGroup(NamesOf(ResolveGroups(d, names).value), ADMIN) <==> InGroup(names, ADMIN)
  {
    var groups := ResolveGroups(d, names).value;
    ResolvedGroups(d, names);
    if name :| name in names && SameName(name, ADMIN) {
      var g := GetGroup(d, name).value;
      var i :| 0 <= i < |groups| && groups[i] == g;
      assert NamesOf(groups)[i] == g.name && SameName(g.name, ADMIN);
    }
    if InGroup(NamesOf(groups), ADMIN) {
      var i :| 0 <= i < |groups| && SameName(NamesOf(groups)[i], ADMIN);
      var name :| name in names && GetGroup(d, name) == Some(groups[i]);
      KnownName(d, name);
    }
  }

  lemma KnownName(d: Directory, name: string)
    requires Keyed(d) && GetGroup(d, name).Some?
    ensures name != "" && SameName(name, GetGroup(d, name).value.name)
  {
  }

  // A user is changed as asked when the change is valid, its groups exist, the caller covers the user (for anything but
  // the address) and what added groups list, nobody else has the name or address, and an admin stays.
  lemma UpdateUserAnswers(d: Directory, u: User, change: UserChange, caller: Caller)
    requires Keyed(d)
    ensures UpdateUserCheck(d, u, change, caller) ==
            if !ValidUserChange(d, change) then Failure(BadRequest)
            else if (change.name.Some? || change.groups.Some? || change.disabled.Some?)
                    && caller.id != u.id && !Covered(d, caller, u.groups) then Failure(Forbidden)
            else if change.groups.Some? && !CoversAdded(d, caller, change.groups.value, u) then Failure(Forbidden)
            else if (change.name.Some? && Taken(d, change.name.value, Some(u.id)))
                    || (change.email.Some? && Taken(d, change.email.value, Some(u.id))) then Failure(Conflict)
            else if OnlyAdmin(d, u) && (change.disabled == Some(true) || (change.groups.Some? && !InGroup(change.groups.value, ADMIN)))
            then Failure(Conflict)
            else Success(())
  {
    CanActOnIff(d, caller, u);
    UniqueIff(d, change.name, change.email, Some(u.id));
    OnlyAdminIff(d, u);
    if change.groups.Some? {
      var names := change.groups.value;
      ResolvesIff(d, names);
      if ResolveGroups(d, names).Success? {
        CanAddAddedIff(d, caller, names, u);
        ResolvedAdmin(d, names);
      }
    }
  }

  lemma OnlyAdminIff(d: Directory, u: User)
    ensures IsLastEnabledAdmin(d, u) <==> OnlyAdmin(d, u)
  {
    if OnlyAdmin(d, u) {
      assert forall id | id in d.users && id != u.id :: !EnabledAdmin(d.users[id]);
    }
    if IsLastEnabledAdmin(d, u) {
      forall id | id in d.users && id != u.id ensures d.users[id].disabled || !InGroup(d.users[id].groups, ADMIN) {
        assert !EnabledAdmin(d.users[id]);
      }
    }
  }

  // Users are deleted by others who cover them, unless they are the last admin.
  lemma DeleteUserAnswers(d: Directory, u: User, caller: Caller)
    ensures DeleteUserCheck(d, u, caller) ==
            if u.id == caller.id then Failure(Conflict)
            else if !Covered(d, caller, u.groups) then Failure(Forbidden)
            else if OnlyAdmin(d, u) then Failure(Conflict)
            else Success(())
  {
    CanActOnIff(d, caller, u);
    OnlyAdminIff(d, u);
  }

  predicate ValidList(permissions: seq<string>) {
    |permissions| <= 100 && forall p | p in permissions :: p != "" && ValidPermission(p)
  }

  // A group is made under a valid name nobody has in any case, and lists valid permissions the caller covers.
  lemma CreateGroupAnswers(d: Directory, name: string, permissions: Option<seq<string>>, caller: Caller)
    requires Keyed(d)
    ensures CreateGroupCheck(d, name, permissions, caller) ==
            if !ValidName(name) || (permissions.Some? && !ValidList(permissions.value)) then Failure(BadRequest)
            else if permissions.Some? && exists p | p in permissions.value :: !HasPermission(caller.permissions, p) then Failure(Forbidden)
            else if exists k | k in d.groups :: Lower(d.groups[k].name) == Lower(name) then Failure(Conflict)
            else Success(())
  {
  }

  // The permissions of a group other than the admin one change to valid ones the caller covers.
  lemma UpdateGroupAnswers(group: Group, permissions: seq<string>, caller: Caller)
    ensures UpdateGroupCheck(group, Some(permissions), caller) ==
            if !ValidList(permissions) then Failure(BadRequest)
            else if Lower(group.name) == Lower(ADMIN) then Failure(Conflict)
            else if exists p | p in permissions :: !HasPermission(caller.permissions, p) then Failure(Forbidden)
            else Success(())
  {
  }

  // Somebody joins a group when the caller covers them and what the group lists; a member already is left alone.
  lemma AddMemberAnswers(d: Directory, group: string, idOrName: string, caller: Caller)
    ensures AddMemberCheck(d, group, idOrName, caller) ==
            if GetGroup(d, group).None? then Failure(BadRequest)
            else if GetUser(d, idOrName).None? then Failure(NotFound)
            else
              var g, u := GetGroup(d, group).value, GetUser(d, idOrName).value;
              if InGroup(u.groups, g.name) then Success(())
              else if caller.id != u.id && !Covered(d, caller, u.groups) then Failure(Forbidden)
              else if exists p | p in g.permissions && !Blank(p) :: !HasPermission(caller.permissions, p) then Failure(Forbidden)
              else Success(())
  {
    if GetGroup(d, group).Some? && GetUser(d, idOrName).Some? {
      CanActOnIff(d, caller, GetUser(d, idOrName).value);
      OneGroup(caller, GetGroup(d, group).value);
    }
  }

  lemma OneGroup(caller: Caller, g: Group)
    ensures CanAddGroups(caller, [g]) <==> forall p | p in g.permissions && !Blank(p) :: HasPermission(caller.permissions, p)
  {
    CanAddIff(caller, [g]);
    assert g in [g];
  }

  // And leaves it when the caller covers them, unless the last admin would leave the admin group.
  lemma RemoveMemberAnswers(d: Directory, group: Group, u: User, caller: Caller)
    ensures RemoveMemberCheck(d, group, u, caller) ==
            if !InGroup(u.groups, group.name) then Success(())
            else if caller.id != u.id && !Covered(d, caller, u.groups) then Failure(Forbidden)
            else if Lower(group.name) == Lower(ADMIN) && OnlyAdmin(d, u) then Failure(Conflict)
            else Success(())
  {
    CanActOnIff(d, caller, u);
    OnlyAdminIff(d, u);
  }

  // ---------------------------------------------------- what an accepted operation does

  ghost predicate OtherUsersKept(d: Directory, d': Directory, id: string) {
    forall other | other != id :: (other in d'.users <==> other in d.users) && (other in d.users ==> d'.users[other] == d.users[other])
  }

  ghost predicate OtherGroupsKept(d: Directory, d': Directory, k: string) {
    forall other | other != k :: (other in d'.groups <==> other in d.groups) && (other in d.groups ==> d'.groups[other] == d.groups[other])
  }

  // The names are those of the groups found under the names asked for.
  ghost predicate NamesTheGroups(d: Directory, names: seq<string>, asked: seq<string>) {
    forall n :: n in names <==> exists name | name in asked :: GetGroup(d, name).Some? && GetGroup(d, name).value.name == n
  }

  lemma ResolvedNames(d: Directory, asked: seq<string>)
    requires Keyed(d) && ResolveGroups(d, asked).Success?
    ensures NamesTheGroups(d, NamesOf(ResolveGroups(d, asked).value), asked)
  {
    var groups := ResolveGroups(d, asked).value;
    var names := NamesOf(groups);
    ResolvedGroups(d, asked);
    forall n ensures n in names <==> exists name | name in asked :: GetGroup(d, name).Some? && GetGroup(d, name).value.name == n {
      if n in names {
        var i :| 0 <= i < |names| && names[i] == n;
        assert groups[i] in groups;
      }
      if name :| name in asked && GetGroup(d, name).Some? && GetGroup(d, name).value.name == n {
        var i :| 0 <= i < |groups| && groups[i] == GetGroup(d, name).value;
        assert names[i] == n;
      }
    }
  }

  lemma CreateUserTakesEffect(d: Directory, id: string, data: NewUser, caller: Caller)
    requires Keyed(d) && id !in d.users
    ensures var d' := CreateUser(d, id, data, caller);
            && d'.groups == d.groups && OtherUsersKept(d, d', id)
            && (id in d'.users <==> CreateUserCheck(d, data, caller).Success?)
            && (id in d'.users ==>
                 var u := d'.users[id];
                 && u.id == id && u.name == data.name && u.email == data.email && (u.disabled <==> data.disabled == Some(true))
                 && NamesTheGroups(d, u.groups, if Asks(data) then data.groups.value else [USERS]))
  {
    if CreateUserCheck(d, data, caller).Success? { ResolvedNames(d, GroupsOfNew(data)); }
  }

  // Each field given has the value asked for, each other one is as it was, and so is everybody else.
  lemma UpdateUserTakesEffect(d: Directory, u: User, change: UserChange, caller: Caller)
    requires Keyed(d) && u.id in d.users && d.users[u.id] == u
    ensures var d', accepted := UpdateUser(d, u, change, caller), UpdateUserCheck(d, u, change, caller).Success?;
            && d'.groups == d.groups && OtherUsersKept(d, d', u.id)
            && u.id in d'.users && (!accepted ==> d'.users[u.id] == u)
            && (accepted ==>
                 var v := d'.users[u.id];
                 && v.id == u.id
                 && (if change.name.Some? then v.name == change.name.value else v.name == u.name)
                 && (if change.email.Some? then v.email == change.email.value else v.email == u.email)
                 && (if change.disabled.Some? then v.disabled == change.disabled.value else v.disabled == u.disabled)
                 && (if change.groups.Some? then NamesTheGroups(d, v.groups, change.groups.value) else v.groups == u.groups))
  {
    if UpdateUserCheck(d, u, change, caller).Success? && change.groups.Some? { ResolvedNames(d, change.groups.value); }
  }

  lemma DeleteUserTakesEffect(d: Directory, u: User, caller: Caller)
    requires u.id in d.users && d.users[u.id] == u
    ensures var d' := DeleteUser(d, u, caller);
            && d'.groups == d.groups && OtherUsersKept(d, d', u.id)
            && (if DeleteUserCheck(d, u, caller).Success? then u.id !in d'.users else u.id in d'.users && d'.users[u.id] == u)
  {
  }

  lemma CreateGroupTakesEffect(d: Directory, name: string, permissions: Option<seq<string>>, caller: Caller)
    requires Keyed(d)
    ensures var d' := CreateGroup(d, name, permissions, caller);
            && d'.users == d.users
            && (if CreateGroupCheck(d, name, permissions, caller).Failure? then d'.groups == d.groups
                else
                  && OtherGroupsKept(d, d', Lower(name)) && GetGroup(d', name).Some?
                  && GetGroup(d', name).value.name == name && !GetGroup(d', name).value.builtIn
                  && GetGroup(d', name).value.permissions == if permissions.Some? then permissions.value else [])
  {
  }

  lemma UpdateGroupTakesEffect(d: Directory, group: Group, permissions: Option<seq<string>>, caller: Caller)
    requires GetGroup(d, group.name) == Some(group)
    ensures var d' := UpdateGroup(d, group, permissions, caller);
            && d'.users == d.users && OtherGroupsKept(d, d', Lower(group.name))
            && GetGroup(d', group.name).Some?
            && GetGroup(d', group.name).value.name == group.name && GetGroup(d', group.name).value.builtIn == group.builtIn
            && GetGroup(d', group.name).value.permissions ==
               if permissions.Some? && UpdateGroupCheck(group, permissions, caller).Success? then permissions.value else group.permissions
  {
  }

  // A group is gone with its memberships, except a built-in one, and no other membership is lost.
  lemma DeleteGroupTakesEffect(d: Directory, group: Group, usersReadOnly: bool)
    requires GetGroup(d, group.name) == Some(group)
    ensures var d' := DeleteGroup(d, group, usersReadOnly);
            var kept := group.builtIn || Lower(group.name) == Lower(ADMIN) || Lower(group.name) == Lower(USERS);
            && (kept ==> d' == d) && (kept <==> DeleteGroupCheck(group) == Failure(Conflict)) && (!kept <==> DeleteGroupCheck(group) == Success(()))
            && (!kept ==> GetGroup(d', group.name) == None && OtherGroupsKept(d, d', Lower(group.name)))
            && d'.users.Keys == d.users.Keys
            && forall id | id in d.users ::
                 && d'.users[id] == d.users[id].(groups := d'.users[id].groups)
                 && forall g :: g in d'.users[id].groups <==> g in d.users[id].groups && (kept || usersReadOnly || !SameName(g, group.name))
  {
  }

  // One membership more, and nothing else.
  lemma AddMemberTakesEffect(d: Directory, group: string, idOrName: string, caller: Caller)
    requires Keyed(d) && GetGroup(d, group).Some? && GetUser(d, idOrName).Some?
    ensures var d', g, u := AddMember(d, group, idOrName, caller), GetGroup(d, group).value, GetUser(d, idOrName).value;
            && d'.groups == d.groups && OtherUsersKept(d, d', u.id)
            && u.id in d'.users && d'.users[u.id] == u.(groups := d'.users[u.id].groups)
            && d'.users[u.id].groups == if AddMemberCheck(d, group, idOrName, caller).Success? && !InGroup(u.groups, g.name)
                                        then u.groups + [g.name] else u.groups
  {
    LookedUp(d, idOrName);
  }

  // One membership less, and nothing else.
  lemma RemoveMemberTakesEffect(d: Directory, group: Group, u: User, caller: Caller)
    requires u.id in d.users && d.users[u.id] == u
    ensures var d' := RemoveMember(d, group, u, caller);
            && d'.groups == d.groups && OtherUsersKept(d, d', u.id)
            && u.id in d'.users && d'.users[u.id] == u.(groups := d'.users[u.id].groups)
            && forall g :: g in d'.users[u.id].groups <==>
                 g in u.groups && (RemoveMemberCheck(d, group, u, caller).Failure? || !SameName(g, group.name))
  {
    if RemoveMemberCheck(d, group, u, caller).Success? && !InGroup(u.groups, group.name) {
      assert forall g | g in u.groups :: !SameName(g, group.name);
    }
  }

  // A user is found by id, and by name in any case; nobody else is found.
  lemma UsersAreFound(d: Directory, idOrName: string)
    requires Inv(d)
    ensures idOrName in d.users ==> GetUser(d, idOrName) == Some(d.users[idOrName])
    ensures forall id | id in d.users && idOrName !in d.users && Lower(d.users[id].name) == Lower(idOrName) ::
              GetUser(d, idOrName) == Some(d.users[id])
    ensures GetUser(d, idOrName).None? <==> idOrName !in d.users && forall id | id in d.users :: Lower(d.users[id].name) != Lower(idOrName)
  {
    forall a, b | a in d.users && b in d.users && a != b ensures Lower(d.users[a].name) != Lower(d.users[b].name) {
      assert !Clash(d.users[a], d.users[b]);
    }
  }

  // Names and addresses of different users differ, whatever their case.
  lemma ApartInAnyCase(d: Directory, a: string, b: string)
    requires Inv(d) && a in d.users && b in d.users && a != b
    ensures Lower(d.users[a].name) != Lower(d.users[b].name) && Lower(d.users[a].email) != Lower(d.users[b].email)
    ensures Lower(d.users[a].name) != Lower(d.users[b].email)
  {
    assert !Clash(d.users[a], d.users[b]);
  }
}
