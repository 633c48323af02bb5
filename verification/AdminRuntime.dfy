/**
 Users, groups, role bindings and API keys of the admin runtime. Users list their
 groups and groups list their members; every operation rewrites both sides in
 place. Membership lists are kept as sets: the code keeps them free of
 duplicates and, once synchronised, sorted. Ids are trimmed and not empty.
 */
module AdminRuntime {
  import opened Seqs

  type Id = string

  datatype User = User(username: string, email: string, groups: set<Id>, status: string)

  datatype Group = Group(description: string, roles: set<string>, members: set<Id>)

  /** The service's record of an API key; a record made on an update alone has no owner. */
  datatype KeyRecord = KeyRecord(owner: Option<Id>, revoked: bool)

  /** The state of the runtime, and of the key manager: live keys and revoked ones. */
  datatype Directory = Directory(
    users: map<Id, User>,
    groups: map<Id, Group>,
    bindings: map<Id, set<string>>,
    records: map<Id, KeyRecord>,
    keys: map<Id, bool>)        // key id -> still valid

  datatype Op =
    | CreateUser(id: Id, username: string, email: string, groups: set<Id>)
    | UpdateUser(id: Id, username: string, email: string, groups: set<Id>, status: string)
    | DeleteUser(id: Id)
    | CreateGroup(id: Id, description: string, roles: set<string>, members: set<Id>)
    | UpdateGroup(id: Id, description: string, roles: set<string>, members: set<Id>)
    | DeleteGroup(id: Id)
    | CreateKey(key: Id, owner: Id)
    | RevokeKey(key: Id)
    | UpdateKey(key: Id)
    | Bind(id: Id, role: string)      // the tool registry shares the bindings and writes to them
    | Unbind(id: Id, role: string)

  // ---------------------------------------------------------------------------
  // What each operation does to the directory
  // ---------------------------------------------------------------------------

  /** Every group lists the user exactly when it is among `targets`. */
  function SyncedGroups(groups: map<Id, Group>, user: Id, targets: set<Id>): map<Id, Group> {
    map g | g in groups ::
      groups[g].(members := if g in targets then groups[g].members + {user} else groups[g].members - {user})
  }

  /** Every user lists the group exactly when it is among `members`. */
  function SyncedUsers(users: map<Id, User>, group: Id, members: set<Id>): map<Id, User> {
    map u | u in users ::
      users[u].(groups := if u in members then users[u].groups + {group} else users[u].groups - {group})
  }

  function PutUser(d: Directory, id: Id, user: User): Directory {
    d.(users := d.users[id := user], groups := SyncedGroups(d.groups, id, user.groups))
  }

  function PutGroup(d: Directory, id: Id, group: Group): Directory {
    d.(groups := d.groups[id := group], users := SyncedUsers(d.users, id, group.members))
  }

  predicate OwnedBy(d: Directory, key: Id, user: Id) {
    key in d.records && d.records[key].owner == Some(user)
  }

  function RevokedKeys(d: Directory, user: Id): map<Id, bool> {
    map k | k in d.keys :: d.keys[k] && !OwnedBy(d, k, user)
  }

  function RevokedRecords(d: Directory, user: Id): map<Id, KeyRecord> {
    map k | k in d.records :: if OwnedBy(d, k, user) then d.records[k].(revoked := true) else d.records[k]
  }

  function RemoveUser(d: Directory, id: Id): Directory {
    Directory(d.users - {id}, SyncedGroups(d.groups, id, {}), d.bindings - {id},
              RevokedRecords(d, id), RevokedKeys(d, id))
  }

  function RemoveGroup(d: Directory, id: Id): Directory {
    d.(groups := d.groups - {id}, users := SyncedUsers(d.users, id, {}))
  }

  /** A record is made for a key that has none. */
  function RecordOf(records: map<Id, KeyRecord>, key: Id): KeyRecord {
    if key in records then records[key] else KeyRecord(None, false)
  }

  predicate Accepted(d: Directory, op: Op) {
    match op
    case CreateUser(id, _, _, _) => id !in d.users
    case UpdateUser(id, _, _, _, _) => id in d.users
    case DeleteUser(id) => id in d.users
    case CreateGroup(id, _, _, _) => id !in d.groups
    case UpdateGroup(id, _, _, _) => id in d.groups
    case DeleteGroup(id) => id in d.groups
    case CreateKey(key, _) => key !in d.keys && key !in d.records   // the manager makes fresh ids
    case RevokeKey(key) => key in d.keys
    case UpdateKey(key) => key in d.keys
    case Bind(_, _) => true
    case Unbind(_, _) => true
  }

  /** One call; a call that raises changes nothing. */
  function Step(d: Directory, op: Op): Directory {
    if !Accepted(d, op) then d
    else
      match op
      case CreateUser(id, username, email, groups) => PutUser(d, id, User(username, email, groups, "active"))
      case UpdateUser(id, username, email, groups, status) =>
        PutUser(d, id, User(username, email, groups, if status == "" then "active" else status))
      case DeleteUser(id) => RemoveUser(d, id)
      case CreateGroup(id, description, roles, members) => PutGroup(d, id, Group(description, roles, members))
      case UpdateGroup(id, description, roles, members) => PutGroup(d, id, Group(description, roles, members))
      case DeleteGroup(id) => RemoveGroup(d, id)
      case CreateKey(key, owner) =>
        d.(keys := d.keys[key := true], records := d.records[key := KeyRecord(Some(owner), false)])
      case RevokeKey(key) =>
        d.(keys := d.keys[key := false], records := d.records[key := RecordOf(d.records, key).(revoked := true)])
      case UpdateKey(key) => d.(records := d.records[key := RecordOf(d.records, key)])
      case Bind(id, role) => d.(bindings := d.bindings[id := DirectRoles(d, id) + {role}])
      case Unbind(id, role) => d.(bindings := d.bindings[id := DirectRoles(d, id) - {role}])
  }

  function Run(d: Directory, ops: seq<Op>, n: nat): Directory
    requires n <= |ops|
  {
    if n == 0 then d else Step(Run(d, ops, n - 1), ops[n - 1])
  }

  /** Roles of all the named groups that exist. */
  function GroupRoles(groups: map<Id, Group>, names: set<Id>): set<string> {
    set g, r | g in names && g in groups && r in groups[g].roles :: r
  }

  function DirectRoles(d: Directory, user: Id): set<string> {
    if user in d.bindings then d.bindings[user] else {}
  }

  /** Direct roles, and those of the given groups, or of the user's own if none are given. */
  function ResolveRoles(d: Directory, user: Id, given: set<Id>): set<string> {
    var names := if given == {} && user in d.users then d.users[user].groups else given;
    DirectRoles(d, user) + GroupRoles(d.groups, names)
  }

  // ---------------------------------------------------------------------------
  // The runtime: dictionaries rewritten in place by loops
  // ---------------------------------------------------------------------------

  class Runtime {
    var users: map<Id, User>
    var groups: map<Id, Group>
    var bindings: map<Id, set<string>>
    var records: map<Id, KeyRecord>
    var keys: map<Id, bool>

    ghost function Contents(): Directory
      reads this
    {
      Directory(users, groups, bindings, records, keys)
    }

    constructor (bindings: map<Id, set<string>>)
      ensures Contents() == Directory(map[], map[], bindings, map[], map[])
    {
      this.bindings := bindings;
      users, groups, records, keys := map[], map[], map[], map[];
    }

    method SyncUserGroups(user: Id, targets: set<Id>)
      modifies this`groups
      ensures groups == SyncedGroups(old(groups), user, targets)
    {
      ghost var goal := SyncedGroups(groups, user, targets);
      var todo := groups.Keys;
      while todo != {}
        invariant todo <= groups.Keys && groups.Keys == old(groups).Keys
        invariant forall g :: g in groups ==> groups[g] == if g in todo then old(groups)[g] else goal[g]
        decreases todo
      {
        var g :| g in todo;
        var members := if g in targets then groups[g].members + {user} else groups[g].members - {user};
        groups := groups[g := groups[g].(members := members)];
        todo := todo - {g};
      }
    }

    method SyncGroupMembers(group: Id, members: set<Id>)
      modifies this`users
      ensures users == SyncedUsers(old(users), group, members)
    {
      ghost var goal := SyncedUsers(users, group, members);
      var todo := users.Keys;
      while todo != {}
        invariant todo <= users.Keys && users.Keys == old(users).Keys
        invariant forall u :: u in users ==> users[u] == if u in todo then old(users)[u] else goal[u]
        decreases todo
      {
        var u :| u in todo;
        var names := if u in members then users[u].groups + {group} else users[u].groups - {group};
        users := users[u := users[u].(groups := names)];
        todo := todo - {u};
      }
    }

    method CreateUser(id: Id, username: string, email: string, names: set<Id>) returns (ok: bool)
      modifies this
      ensures Contents() == Step(old(Contents()), Op.CreateUser(id, username, email, names))
      ensures ok <==> id !in old(users)
    {
      if id in users {
        return false;
      }
      users := users[id := User(username, email, names, "active")];
      SyncUserGroups(id, names);
      ok := true;
    }

    method UpdateUser(id: Id, username: string, email: string, names: set<Id>, status: string) returns (ok: bool)
      modifies this
      ensures Contents() == Step(old(Contents()), Op.UpdateUser(id, username, email, names, status))
      ensures ok <==> id in old(users)
    {
      if id !in users {
        return false;
      }
      users := users[id := User(username, email, names, if status == "" then "active" else status)];
      SyncUserGroups(id, names);
      ok := true;
    }

    method RevokeOwned(id: Id)
      modifies this`records, this`keys
      ensures records == RevokedRecords(old(Contents()), id) && keys == RevokedKeys(old(Contents()), id)
    {
      ghost var start := Contents();
      ghost var goalRecords, goalKeys := RevokedRecords(start, id), RevokedKeys(start, id);
      var todo := records.Keys;
      while todo != {}
        invariant todo <= records.Keys && records.Keys == start.records.Keys && keys.Keys == start.keys.Keys
        invariant forall k :: k in records ==> records[k] == if k in todo then start.records[k] else goalRecords[k]
        invariant forall k :: k in keys ==> keys[k] == if k in todo then start.keys[k] else goalKeys[k]
        decreases todo
      {
        var k :| k in todo;
        if records[k].owner == Some(id) {
          if k in keys {
            keys := keys[k := false];
          }
          records := records[k := records[k].(revoked := true)];
        }
        todo := todo - {k};
      }
    }

    method DeleteUser(id: Id) returns (ok: bool)
      modifies this
      ensures Contents() == Step(old(Contents()), Op.DeleteUser(id))
      ensures ok <==> id in old(users)
    {
      if id !in users {
        return false;
      }
      users := users - {id};
      bindings := bindings - {id};
      SyncUserGroups(id, {});
      RevokeOwned(id);
      ok := true;
    }

    method CreateGroup(id: Id, description: string, roles: set<string>, members: set<Id>) returns (ok: bool)
      modifies this
      ensures Contents() == Step(old(Contents()), Op.CreateGroup(id, description, roles, members))
      ensures ok <==> id !in old(groups)
    {
      if id in groups {
        return false;
      }
      groups := groups[id := Group(description, roles, members)];
      SyncGroupMembers(id, members);
      ok := true;
    }

    method UpdateGroup(id: Id, description: string, roles: set<string>, members: set<Id>) returns (ok: bool)
      modifies this
      ensures Contents() == Step(old(Contents()), Op.UpdateGroup(id, description, roles, members))
      ensures ok <==> id in old(groups)
    {
      if id !in groups {
        return false;
      }
      groups := groups[id := Group(description, roles, members)];
      SyncGroupMembers(id, members);
      ok := true;
    }

    method DeleteGroup(id: Id) returns (ok: bool)
      modifies this
      ensures Contents() == Step(old(Contents()), Op.DeleteGroup(id))
      ensures ok <==> id in old(groups)
    {
      if id !in groups {
        return false;
      }
      groups := groups - {id};
      SyncGroupMembers(id, {});
      ok := true;
    }

    /** `key` is the id that the key manager generated. */
    method CreateKey(key: Id, owner: Id)
      requires key !in keys && key !in records
      modifies this
      ensures Contents() == Step(old(Contents()), Op.CreateKey(key, owner))
    {
      keys := keys[key := true];
      records := records[key := KeyRecord(Some(owner), false)];
    }

    method RevokeKey(key: Id) returns (ok: bool)
      modifies this
      ensures Contents() == Step(old(Contents()), Op.RevokeKey(key))
      ensures ok <==> key in old(keys)
    {
      if key !in keys {
        return false;
      }
      keys := keys[key := false];
      records := records[key := RecordOf(records, key).(revoked := true)];
      ok := true;
    }

    /** The new name and capabilities of the key are not part of the record here. */
    method UpdateKey(key: Id) returns (ok: bool)
      modifies this
      ensures Contents() == Step(old(Contents()), Op.UpdateKey(key))
      ensures ok <==> key in old(keys)
    {
      if key !in keys {
        return false;
      }
      records := records[key := RecordOf(records, key)];
      ok := true;
    }

    /** Any id can be bound to a role, also one without a user. */
    method BindRole(id: Id, role: string)
      modifies this`bindings
      ensures Contents() == Step(old(Contents()), Bind(id, role))
    {
      if id !in bindings {
        bindings := bindings[id := {}];
      }
      bindings := bindings[id := bindings[id] + {role}];
    }

    method UnbindRole(id: Id, role: string)
      modifies this`bindings
      ensures Contents() == Step(old(Contents()), Unbind(id, role))
    {
      if id !in bindings {
        bindings := bindings[id := {}];
      }
      bindings := bindings[id := bindings[id] - {role}];
    }

    method Resolve(user: Id, given: set<Id>) returns (roles: set<string>)
      ensures roles == ResolveRoles(Contents(), user, given)
    {
      roles := if user in bindings then bindings[user] else {};
      ghost var direct := roles;
      var names := if given == {} && user in users then users[user].groups else given;
      var todo := names;
      while todo != {}
        invariant todo <= names
        invariant forall r :: r in roles <==> r in direct || r in GroupRoles(groups, names - todo)
        decreases todo
      {
        var g :| g in todo;
        ghost var before := names - todo;
        todo := todo - {g};
        assert names - todo == before + {g};
        if g in groups {
          roles := roles + groups[g].roles;
        }
      }
      assert names - {} == names;
    }
  }
}
