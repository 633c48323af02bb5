/**
 What every sequence of admin calls keeps: the two membership lists are inverse to
 each other, so roles can be read from either side, and a deleted user leaves nothing behind.
 */
module AdminLaws {
  import opened AdminRuntime

  /** A stored user lists a stored group exactly when the group lists the user. */
  ghost predicate Inverse(d: Directory) {
    forall u, g :: u in d.users && g in d.groups ==> (g in d.users[u].groups <==> u in d.groups[g].members)
  }

  lemma StepKeepsInverse(d: Directory, op: Op)
    requires Inverse(d)
    ensures Inverse(Step(d, op))
  {
    hide RevokedKeys, RevokedRecords, RecordOf;
  }

  /** In every reachable state, also after calls that name users or groups that do not exist yet. */
  lemma {:induction false} RunKeepsInverse(d: Directory, ops: seq<Op>, n: nat)
    requires n <= |ops| && Inverse(d)
    ensures Inverse(Run(d, ops, n))
  {
    hide Inverse, Step;
    if n > 0 {
      RunKeepsInverse(d, ops, n - 1);
      StepKeepsInverse(Run(d, ops, n - 1), ops[n - 1]);
    }
  }

  /** The groups that list a user as a member. */
  function GroupsListing(d: Directory, user: Id): set<Id> {
    set g | g in d.groups && user in d.groups[g].members
  }

  /** The roles of a stored user, read from the user's own list, are those that the groups' lists give. */
  lemma RolesAgreeWithGroups(d: Directory, user: Id)
    requires Inverse(d) && user in d.users
    ensures ResolveRoles(d, user, {}) == DirectRoles(d, user) + GroupRoles(d.groups, GroupsListing(d, user))
  {
    assert forall r :: r in GroupRoles(d.groups, d.users[user].groups)
             <==> r in GroupRoles(d.groups, GroupsListing(d, user)) by {
      forall g | g in d.groups
        ensures g in d.users[user].groups <==> g in GroupsListing(d, user)
      {
      }
    }
  }

  /** In a directory that starts empty of users and groups, after any calls. */
  lemma RolesAgreeInEveryRun(bindings: map<Id, set<string>>, ops: seq<Op>, user: Id)
    requires user in Run(Directory(map[], map[], bindings, map[], map[]), ops, |ops|).users
    ensures var d := Run(Directory(map[], map[], bindings, map[], map[]), ops, |ops|);
            ResolveRoles(d, user, {}) == DirectRoles(d, user) + GroupRoles(d.groups, GroupsListing(d, user))
  {
    hide Run, ResolveRoles, GroupRoles;
    var start := Directory(map[], map[], bindings, map[], map[]);
    RunKeepsInverse(start, ops, |ops|);
    RolesAgreeWithGroups(Run(start, ops, |ops|), user);
  }

  /** Nothing in the directory gives the user anything. */
  ghost predicate Stripped(d: Directory, user: Id) {
    && ResolveRoles(d, user, {}) == {}
    && GroupsListing(d, user) == {}
    && forall k :: k in d.keys && OwnedBy(d, k, user) ==> !d.keys[k]
  }

  lemma DeleteStrips(d: Directory, user: Id)
    requires user in d.users
    ensures Stripped(Step(d, DeleteUser(user)), user)
  {
    var after := Step(d, DeleteUser(user));
    assert GroupRoles(after.groups, {}) == {};
  }

  /** A revoked key is never valid again. */
  lemma {:induction false} RevokedForGood(d: Directory, ops: seq<Op>, n: nat, key: Id)
    requires n <= |ops| && key in d.keys && !d.keys[key]
    ensures key in Run(d, ops, n).keys && !Run(d, ops, n).keys[key]
  {
    hide Step;
    if n > 0 {
      RevokedForGood(d, ops, n - 1, key);
      RevokedStays(Run(d, ops, n - 1), ops[n - 1], key);
    }
  }

  lemma RevokedStays(d: Directory, op: Op, key: Id)
    requires key in d.keys && !d.keys[key]
    ensures key in Step(d, op).keys && !Step(d, op).keys[key]
  {
    hide SyncedGroups, SyncedUsers, RevokedRecords, RecordOf;
  }

  /** One call gives or takes a direct role of a user only by binding, unbinding or deleting. */
  lemma OneCallOnBindings(d: Directory, op: Op, user: Id, role: string)
    ensures role in DirectRoles(Step(d, op), user)
            <==> op == Bind(user, role)
                 || (role in DirectRoles(d, user) && op != Unbind(user, role)
                     && !(op == DeleteUser(user) && user in d.users))
  {
    hide SyncedGroups, SyncedUsers, RevokedRecords, RevokedKeys, RecordOf;
  }

  /** Call `k` takes the role away from the user. */
  predicate Takes(d: Directory, ops: seq<Op>, k: nat, user: Id, role: string)
    requires k < |ops|
  {
    ops[k] == Unbind(user, role) || (ops[k] == DeleteUser(user) && user in Run(d, ops, k).users)
  }

  /** Some call bound the role to the user and none has taken it away since. */
  ghost predicate StillBound(d: Directory, ops: seq<Op>, n: nat, user: Id, role: string)
    requires n <= |ops|
  {
    exists k: nat :: k < n && BindsForGood(d, ops, k, n, user, role)
  }

  ghost predicate BindsForGood(d: Directory, ops: seq<Op>, k: nat, n: nat, user: Id, role: string)
    requires k < n <= |ops|
  {
    ops[k] == Bind(user, role) && forall m :: k < m < n ==> !Takes(d, ops, m, user, role)
  }

  lemma StillBoundStep(d: Directory, ops: seq<Op>, n: nat, user: Id, role: string)
    requires 0 < n <= |ops|
    ensures StillBound(d, ops, n, user, role)
            <==> ops[n - 1] == Bind(user, role)
                 || (StillBound(d, ops, n - 1, user, role) && !Takes(d, ops, n - 1, user, role))
  {
    hide Takes;
    if ops[n - 1] == Bind(user, role) {
      assert BindsForGood(d, ops, n - 1, n, user, role);
    } else if StillBound(d, ops, n, user, role) {
      var k: nat :| k < n && BindsForGood(d, ops, k, n, user, role);
      assert BindsForGood(d, ops, k, n - 1, user, role);
    } else if StillBound(d, ops, n - 1, user, role) {
      var k: nat :| k < n - 1 && BindsForGood(d, ops, k, n - 1, user, role);
      assert !BindsForGood(d, ops, k, n, user, role);
    }
  }

  /** The direct roles of a user without any are those bound since and not taken away again. */
  lemma {:induction false} DirectRolesAreStillBound(d: Directory, ops: seq<Op>, n: nat, user: Id, role: string)
    requires n <= |ops| && DirectRoles(d, user) == {}
    ensures role in DirectRoles(Run(d, ops, n), user) <==> StillBound(d, ops, n, user, role)
  {
    hide Step, DirectRoles, StillBound;
    if n > 0 {
      DirectRolesAreStillBound(d, ops, n - 1, user, role);
      OneCallOnBindings(Run(d, ops, n - 1), ops[n - 1], user, role);
      StillBoundStep(d, ops, n, user, role);
    } else {
      NothingBoundYet(d, ops, user, role);
    }
  }

  lemma NothingBoundYet(d: Directory, ops: seq<Op>, user: Id, role: string)
    ensures !StillBound(d, ops, 0, user, role)
  {
  }

  lemma FreshUserHasDirectRoles(d: Directory, op: Op)
    requires op.CreateUser? && op.id !in d.users && op.groups == {}
    ensures ResolveRoles(Step(d, op), op.id, {}) == DirectRoles(d, op.id) && GroupsListing(Step(d, op), op.id) == {}
  {
    assert GroupRoles(Step(d, op).groups, {}) == {};
  }

  /**
   After a deletion and any further calls, a user created again under the same id
   without groups is in no group, whatever groups named that id in between, and the
   keys it once owned stay revoked. It has exactly the roles that were bound to the
   id since the deletion and not taken away again, so none if and only if every
   role bound since was taken away.
   */
  lemma {:induction false} DeletedUserRegainsNothing(d: Directory, user: Id, ops: seq<Op>, again: Op)
    requires user in d.users && again.CreateUser? && again.id == user && again.groups == {}
    requires user !in Run(Step(d, DeleteUser(user)), ops, |ops|).users
    ensures var deleted := Step(d, DeleteUser(user));
            var after := Step(Run(deleted, ops, |ops|), again);
            && (forall r :: r in ResolveRoles(after, user, {}) <==> StillBound(deleted, ops, |ops|, user, r))
            && (ResolveRoles(after, user, {}) == {} <==> forall r :: !StillBound(deleted, ops, |ops|, user, r))
            && GroupsListing(after, user) == {}
            && forall k :: k in d.keys && OwnedBy(d, k, user) ==> k in after.keys && !after.keys[k]
  {
    hide ResolveRoles, GroupsListing, SyncedGroups, RevokedRecords, StillBound;
    var deleted := Step(d, DeleteUser(user));
    FreshUserHasDirectRoles(Run(deleted, ops, |ops|), again);
    forall r
      ensures r in DirectRoles(Run(deleted, ops, |ops|), user) <==> StillBound(deleted, ops, |ops|, user, r)
    {
      DirectRolesAreStillBound(deleted, ops, |ops|, user, r);
    }
    forall k | k in d.keys && OwnedBy(d, k, user)
      ensures k in Run(deleted, ops, |ops|).keys && !Run(deleted, ops, |ops|).keys[k]
    {
      RevokedForGood(deleted, ops, |ops|, k);
    }
  }

  /** For instance, a role bound to the id of a deleted user is there when the user is created again. */
  lemma RoleBoundAfterDeletion(d: Directory, user: Id)
    requires user in d.users
    ensures var bound := Step(Step(d, DeleteUser(user)), Bind(user, "admin"));
            ResolveRoles(Step(bound, CreateUser(user, user, "", {})), user, {}) == {"admin"}
  {
    var bound := Step(Step(d, DeleteUser(user)), Bind(user, "admin"));
    FreshUserHasDirectRoles(bound, CreateUser(user, user, "", {}));
  }
}
