/**
 What each single admin call changes, and what it leaves alone: the caller's own
 words about users, groups, roles and keys, before and after.
 */
module AdminEffects {
  import opened Seqs
  import opened AdminRuntime

  /** A role that the user has by a stored group among `names`. */
  predicate HasByGroup(d: Directory, names: set<Id>, role: string) {
    exists g :: g in names && g in d.groups && role in d.groups[g].roles
  }

  predicate HasDirectly(d: Directory, user: Id, role: string) {
    user in d.bindings && role in d.bindings[user]
  }

  /** Without named groups the roles are the direct ones and those of the user's own groups. */
  lemma OwnGroupsGiveRoles(d: Directory, user: Id, role: string)
    ensures role in ResolveRoles(d, user, {})
            <==> HasDirectly(d, user, role) || (user in d.users && HasByGroup(d, d.users[user].groups, role))
  {
  }

  /** Named groups take the place of the user's own, for any id; naming the user's own changes nothing. */
  lemma NamedGroupsGiveRoles(d: Directory, user: Id, given: set<Id>, role: string)
    ensures given != {} ==>
              (role in ResolveRoles(d, user, given) <==> HasDirectly(d, user, role) || HasByGroup(d, given, role))
    ensures user in d.users ==> ResolveRoles(d, user, d.users[user].groups) == ResolveRoles(d, user, {})
  {
  }

  /** Only the membership of one user may differ, and it is as `names` says. */
  ghost predicate OnlyMembership(before: map<Id, Group>, after: map<Id, Group>, user: Id, names: set<Id>) {
    && after.Keys == before.Keys
    && forall g :: g in before ==>
         && after[g].description == before[g].description && after[g].roles == before[g].roles
         && (user in after[g].members <==> g in names)
         && forall v :: v != user ==> (v in after[g].members <==> v in before[g].members)
  }

  /** Only the listing of one group may differ, and it is as `members` says. */
  ghost predicate OnlyListing(before: map<Id, User>, after: map<Id, User>, group: Id, members: set<Id>) {
    && after.Keys == before.Keys
    && forall u :: u in before ==>
         && after[u].username == before[u].username && after[u].email == before[u].email
         && after[u].status == before[u].status
         && (group in after[u].groups <==> u in members)
         && forall g :: g != group ==> (g in after[u].groups <==> g in before[u].groups)
  }

  ghost predicate SameKeysAndBindings(d: Directory, e: Directory) {
    e.bindings == d.bindings && e.records == d.records && e.keys == d.keys
  }

  /** A user that is put: stored with exactly these fields and groups, listed by exactly those groups. */
  ghost predicate UserPut(d: Directory, e: Directory, id: Id, user: User) {
    && id in e.users && e.users[id] == user && e.users.Keys == d.users.Keys + {id}
    && (forall u :: u in d.users && u != id ==> e.users[u] == d.users[u])
    && OnlyMembership(d.groups, e.groups, id, user.groups)
    && SameKeysAndBindings(d, e)
  }

  lemma CreatedUserIsPut(d: Directory, id: Id, username: string, email: string, groups: set<Id>)
    ensures var after := Step(d, CreateUser(id, username, email, groups));
            if id in d.users then after == d else UserPut(d, after, id, User(username, email, groups, "active"))
  {
  }

  lemma UpdatedUserIsPut(d: Directory, id: Id, username: string, email: string, groups: set<Id>, status: string)
    ensures var after := Step(d, UpdateUser(id, username, email, groups, status));
            if id !in d.users then after == d
            else
              && (status != "" ==> UserPut(d, after, id, User(username, email, groups, status)))
              && (status == "" ==> UserPut(d, after, id, User(username, email, groups, "active")))
  {
  }

  /** A user that is put has its direct roles and those of the stored groups that were asked for; others keep theirs. */
  lemma PutUserRoles(d: Directory, e: Directory, id: Id, user: User, role: string, other: Id)
    requires UserPut(d, e, id, user)
    ensures role in ResolveRoles(e, id, {}) <==> HasDirectly(d, id, role) || HasByGroup(d, user.groups, role)
    ensures other != id ==> (role in ResolveRoles(e, other, {}) <==> role in ResolveRoles(d, other, {}))
  {
    hide ResolveRoles;
    OwnGroupsGiveRoles(e, id, role);
    OwnGroupsGiveRoles(e, other, role);
    OwnGroupsGiveRoles(d, other, role);
    forall names: set<Id>
      ensures HasByGroup(e, names, role) <==> HasByGroup(d, names, role)
    {
      SameRolesByGroup(d, e, names, role);
    }
  }

  lemma SameRolesByGroup(d: Directory, e: Directory, names: set<Id>, role: string)
    requires e.groups.Keys == d.groups.Keys
    requires forall g :: g in d.groups ==> e.groups[g].roles == d.groups[g].roles
    ensures HasByGroup(e, names, role) <==> HasByGroup(d, names, role)
  {
    if g :| g in names && g in d.groups && role in d.groups[g].roles {
      assert g in e.groups && role in e.groups[g].roles;
    }
  }

  /** A group that is put: stored with exactly these fields and members, listed by exactly those users. */
  ghost predicate GroupPut(d: Directory, e: Directory, id: Id, group: Group) {
    && id in e.groups && e.groups[id] == group && e.groups.Keys == d.groups.Keys + {id}
    && (forall g :: g in d.groups && g != id ==> e.groups[g] == d.groups[g])
    && OnlyListing(d.users, e.users, id, group.members)
    && SameKeysAndBindings(d, e)
  }

  lemma CreatedGroupIsPut(d: Directory, id: Id, description: string, roles: set<string>, members: set<Id>)
    ensures var after := Step(d, CreateGroup(id, description, roles, members));
            if id in d.groups then after == d else GroupPut(d, after, id, Group(description, roles, members))
  {
  }

  lemma UpdatedGroupIsPut(d: Directory, id: Id, description: string, roles: set<string>, members: set<Id>)
    ensures var after := Step(d, UpdateGroup(id, description, roles, members));
            if id !in d.groups then after == d else GroupPut(d, after, id, Group(description, roles, members))
  {
  }

  /** A group that is put gives its roles to its members among the stored users, and changes no other role. */
  lemma PutGroupRoles(d: Directory, e: Directory, id: Id, group: Group, user: Id, role: string)
    requires GroupPut(d, e, id, group) && user in d.users
    ensures role in ResolveRoles(e, user, {})
            <==> HasDirectly(d, user, role) || HasByGroup(d, d.users[user].groups - {id}, role)
                 || (user in group.members && role in group.roles)
  {
    hide ResolveRoles;
    OwnGroupsGiveRoles(e, user, role);
    if g :| g in e.users[user].groups && g in e.groups && role in e.groups[g].roles {
      assert g != id ==> g in d.users[user].groups - {id} && g in d.groups && role in d.groups[g].roles;
    }
    if g :| g in d.users[user].groups - {id} && g in d.groups && role in d.groups[g].roles {
      assert g in e.users[user].groups && g in e.groups && role in e.groups[g].roles;
    }
    if user in group.members && role in group.roles {
      assert id in e.users[user].groups && id in e.groups && role in e.groups[id].roles;
    }
  }

  /** A deletion takes the user from the store, from every group and from the bindings, and revokes what it owned. */
  lemma DeletedUserIsGone(d: Directory, id: Id)
    ensures var after := Step(d, DeleteUser(id));
            if id !in d.users then after == d
            else
              && after.users == d.users - {id} && after.bindings == d.bindings - {id}
              && OnlyMembership(d.groups, after.groups, id, {})
              && after.keys.Keys == d.keys.Keys && after.records.Keys == d.records.Keys
              && (forall k :: k in d.keys ==>
                    (after.keys[k] <==> d.keys[k] && !(k in d.records && d.records[k].owner == Some(id))))
              && forall k :: k in d.records ==>
                   && after.records[k].owner == d.records[k].owner
                   && (after.records[k].revoked <==> d.records[k].revoked || d.records[k].owner == Some(id))
  {
  }

  /** A deletion takes the group from the store and from every user, and nothing else. */
  lemma DeletedGroupIsGone(d: Directory, id: Id)
    ensures var after := Step(d, DeleteGroup(id));
            if id !in d.groups then after == d
            else
              && after.groups == d.groups - {id} && OnlyListing(d.users, after.users, id, {})
              && SameKeysAndBindings(d, after)
  {
  }

  /** Its members lose its roles, unless they have them otherwise. */
  lemma DeletedGroupRoles(d: Directory, id: Id, user: Id, role: string)
    requires id in d.groups && user in d.users
    ensures role in ResolveRoles(Step(d, DeleteGroup(id)), user, {})
            <==> HasDirectly(d, user, role) || HasByGroup(d, d.users[user].groups - {id}, role)
  {
    hide ResolveRoles, Step;
    var e := Step(d, DeleteGroup(id));
    DeletedGroupIsGone(d, id);
    OwnGroupsGiveRoles(e, user, role);
    if g :| g in e.users[user].groups && g in e.groups && role in e.groups[g].roles {
      assert g in d.users[user].groups - {id} && g in d.groups && role in d.groups[g].roles;
    }
    if g :| g in d.users[user].groups - {id} && g in d.groups && role in d.groups[g].roles {
      assert g in e.users[user].groups && g in e.groups && role in e.groups[g].roles;
    }
  }

  /** A key is valid and its owner's from its creation until it is revoked; no call on one key touches another. */
  lemma KeyCallsAreLocal(d: Directory, op: Op, key: Id)
    requires op.CreateKey? || op.RevokeKey? || op.UpdateKey?
    ensures var after := Step(d, op);
            && after.users == d.users && after.groups == d.groups && after.bindings == d.bindings
            && (op.key != key ==>
                  && (key in after.keys <==> key in d.keys) && (key in d.keys ==> after.keys[key] == d.keys[key])
                  && (key in after.records <==> key in d.records)
                  && (key in d.records ==> after.records[key] == d.records[key]))
  {
  }

  lemma KeyCallsAreDone(d: Directory, key: Id, owner: Id)
    ensures key !in d.keys && key !in d.records ==>
              var after := Step(d, CreateKey(key, owner));
              key in after.keys && after.keys[key] && OwnedBy(after, key, owner) && !after.records[key].revoked
    ensures var after := Step(d, RevokeKey(key));
            if key !in d.keys then after == d
            else
              && !after.keys[key] && key in after.records && after.records[key].revoked
              && (key in d.records ==> after.records[key].owner == d.records[key].owner)
    ensures var after := Step(d, UpdateKey(key));
            if key !in d.keys then after == d
            else
              && after.keys == d.keys && key in after.records
              && after.records[key] == if key in d.records then d.records[key] else KeyRecord(None, false)
  {
  }

  /** Binding and unbinding change the direct roles of one id and nothing else. */
  lemma BindingIsLocal(d: Directory, id: Id, role: string, other: Id, r: string)
    ensures var after := Step(d, Bind(id, role));
            && after == d.(bindings := after.bindings)
            && (HasDirectly(after, other, r) <==> HasDirectly(d, other, r) || (other == id && r == role))
    ensures var after := Step(d, Unbind(id, role));
            && after == d.(bindings := after.bindings)
            && (HasDirectly(after, other, r) <==> HasDirectly(d, other, r) && !(other == id && r == role))
  {
  }
}
