/**
 The workspace manager: tracked workspaces in memory, their directories on disk,
 and the metadata files of the persistent ones. A workspace made here lives in the
 directory of its id; one that is found on disk lives where its metadata was found.
 Metadata writes succeed, and times are whole seconds.
 */
module Workspaces {
  import opened Seqs

  type Id = string

  datatype Mode = Ephemeral | Persistent

  /** What the metadata file of a workspace says. */
  datatype Meta = Meta(id: Id, profile: string, mode: Mode, created: int, used: int, owner: Option<string>)

  /** A tracked workspace and the name of its directory. */
  datatype Workspace = Workspace(meta: Meta, dir: Id)

  /** A directory: the metadata file if there is one, its age, and whether a merge is in progress. */
  datatype Directory = Directory(meta: Option<Meta>, modified: int, merging: bool)

  datatype State = State(tracked: map<Id, Workspace>, disk: map<Id, Directory>)

  /** The session of a create only goes into generated ids. */
  datatype Op =
    | Create(id: Id, profile: string, session: string, mode: Mode, owner: Option<string>, cloneWorks: bool, now: int)
    | Get(id: Id, now: int)
    | Close(id: Id, now: int)
    | Cleanup(ttl: int, now: int)
    | Collect(ttl: int, stuckTtl: int, now: int)
    | DeleteDir(id: Id)
    | Restart                                      // on a disk where every metadata file is at home
    | Work(id: Id, modified: int, merging: bool)   // someone uses the checkout

  /** Writes the metadata file of a persistent workspace whose directory exists. */
  function Saved(disk: map<Id, Directory>, w: Workspace): map<Id, Directory> {
    if w.meta.mode == Persistent && w.dir in disk then disk[w.dir := disk[w.dir].(meta := Some(w.meta))] else disk
  }

  function Track(s: State, id: Id, w: Workspace): State {
    State(s.tracked[id := w], Saved(s.disk, w))
  }

  /** `meta.get("owner") or owner` */
  function OwnerOr(stored: Option<string>, owner: Option<string>): Option<string> {
    if stored.Some? && stored.value != "" then stored else owner
  }

  function AfterCreate(s: State, op: Op): State
    requires op.Create?
  {
    var id := op.id;
    if id in s.tracked && s.tracked[id].dir in s.disk then
      var m := s.tracked[id].meta;
      Track(s, id, s.tracked[id].(meta := m.(used := op.now, owner := if m.owner == None then op.owner else m.owner)))
    else if id in s.disk && s.disk[id].meta.Some? then
      var m := s.disk[id].meta.value;
      Track(s, id, Workspace(m.(id := id, used := op.now, owner := OwnerOr(m.owner, op.owner)), id))
    else if id in s.disk || !op.cloneWorks then s     // cloning into an existing checkout fails
    else
      Track(s.(disk := s.disk[id := Directory(None, op.now, false)]), id,
            Workspace(Meta(id, op.profile, op.mode, op.now, op.now, op.owner), id))
  }

  function Touched(w: Workspace, now: int): Workspace {
    w.(meta := w.meta.(used := now))
  }

  /** Closing saves a persistent workspace and removes the directory of an ephemeral one. */
  function AfterClose(s: State, id: Id, now: int): State {
    if id !in s.tracked then s
    else
      var w := Touched(s.tracked[id], now);
      State(s.tracked - {id}, if w.meta.mode == Ephemeral then s.disk - {w.dir} else Saved(s.disk, w))
  }

  function Expired(s: State, ttl: int, now: int): set<Id> {
    set i | i in s.tracked && now - s.tracked[i].meta.used > ttl
  }

  /** The first `n` workspaces of a list closed, one after another. */
  function ClosedInTurn(s: State, order: seq<Id>, n: nat, now: int): State
    requires n <= |order|
  {
    if n == 0 then s else AfterClose(ClosedInTurn(s, order, n - 1, now), order[n - 1], now)
  }

  /** All workspaces of a set closed, where each lives in the directory of its id. */
  function AllClosed(s: State, gone: set<Id>, now: int): State
    requires gone <= s.tracked.Keys
  {
    State(s.tracked - gone,
          map i | i in s.disk && !(i in gone && s.tracked[i].meta.mode == Ephemeral) ::
            if i in gone then s.disk[i].(meta := Some(Touched(s.tracked[i], now).meta)) else s.disk[i])
  }

  function AfterCleanup(s: State, ttl: int, now: int): State {
    AllClosed(s, Expired(s, ttl, now), now)
  }

  function Age(d: Directory, now: int): int {
    Max(0, now - d.modified)
  }

  function ModeOnDisk(d: Directory): Mode {
    if d.meta.Some? then d.meta.value.mode else Ephemeral
  }

  predicate Stale(d: Directory, ttl: int, stuckTtl: int, now: int) {
    && ModeOnDisk(d) == Ephemeral
    && ((d.merging && Age(d, now) > stuckTtl) || Age(d, now) > ttl)
  }

  function StaleDirs(disk: map<Id, Directory>, ttl: int, stuckTtl: int, now: int): set<Id> {
    set i | i in disk && Stale(disk[i], ttl, stuckTtl, now)
  }

  function Removed(s: State, ids: set<Id>): State {
    State(s.tracked - ids, s.disk - ids)
  }

  /** The directory holds metadata for that id. */
  predicate Names(disk: map<Id, Directory>, dir: Id, id: Id) {
    dir in disk && disk[dir].meta.Some? && disk[dir].meta.value.id == id
  }

  /**
   What a scan of the disk may track: each id that some metadata names, as one of the
   directories that name it has it. Which one, if there are several, is up to the
   order of the scan.
   */
  ghost predicate Found(disk: map<Id, Directory>, tracked: map<Id, Workspace>) {
    && (forall d :: d in disk && disk[d].meta.Some? ==> disk[d].meta.value.id in tracked)
    && forall i :: i in tracked ==> Names(disk, tracked[i].dir, i) && disk[tracked[i].dir].meta == Some(tracked[i].meta)
  }

  /** Every metadata file lies in the directory of the id that it names. */
  predicate AtHome(disk: map<Id, Directory>) {
    forall d :: d in disk && disk[d].meta.Some? ==> disk[d].meta.value.id == d
  }

  /** The workspaces that a new process finds where every metadata file is at home. */
  function Restored(disk: map<Id, Directory>): map<Id, Workspace> {
    map i | i in disk && disk[i].meta.Some? :: Workspace(disk[i].meta.value, i)
  }

  function Step(s: State, op: Op): State {
    match op
    case Create(_, _, _, _, _, _, _) => AfterCreate(s, op)
    case Get(id, now) => if id in s.tracked then s.(tracked := s.tracked[id := Touched(s.tracked[id], now)]) else s
    case Close(id, now) => AfterClose(s, id, now)
    case Cleanup(ttl, now) => AfterCleanup(s, ttl, now)
    case Collect(ttl, stuckTtl, now) => Removed(s, StaleDirs(s.disk, ttl, stuckTtl, now))
    case DeleteDir(id) => Removed(s, {id})
    case Restart => State(Restored(s.disk), s.disk)
    case Work(id, modified, merging) =>
      if id in s.disk then s.(disk := s.disk[id := s.disk[id].(modified := modified, merging := merging)]) else s
  }

  function Run(s: State, ops: seq<Op>, n: nat): State
    requires n <= |ops|
  {
    if n == 0 then s else Step(Run(s, ops, n - 1), ops[n - 1])
  }

  /** A tracked persistent workspace and its metadata file agree on all that must not change. */
  predicate Agree(w: Meta, m: Meta) {
    w.mode == m.mode == Persistent && w.profile == m.profile && w.created == m.created && w.owner == m.owner
  }

  /** Memory, directories and metadata fit together. */
  ghost predicate Consistent(s: State) {
    && (forall i :: i in s.tracked ==> s.tracked[i].meta.id == i && s.tracked[i].dir == i)
    && (forall i :: i in s.disk && s.disk[i].meta.Some? ==>
          s.disk[i].meta.value.id == i && s.disk[i].meta.value.mode == Persistent)
    && (forall i :: i in s.tracked && s.tracked[i].meta.mode == Persistent ==>
          i in s.disk && s.disk[i].meta.Some? && Agree(s.tracked[i].meta, s.disk[i].meta.value))
    && (forall i :: i in s.tracked && i in s.disk && s.disk[i].meta.Some? ==> s.tracked[i].meta.mode == Persistent)
  }

  // ---------------------------------------------------------------------------
  // The manager
  // ---------------------------------------------------------------------------

  class Manager {
    var tracked: map<Id, Workspace>
    var disk: map<Id, Directory>

    ghost function Contents(): State
      reads this
    {
      State(tracked, disk)
    }

    /** A new process on an existing base directory. */
    constructor (disk: map<Id, Directory>)
      ensures this.disk == disk && Found(disk, tracked)
      ensures AtHome(disk) ==> Contents() == State(Restored(disk), disk)
    {
      this.disk, tracked := disk, map[];
      new;
      RestorePersistent();
    }

    /** Files each workspace under the id that its metadata names. */
    method RestorePersistent()
      requires tracked == map[]
      modifies this`tracked
      ensures Found(disk, tracked)
      ensures AtHome(disk) ==> tracked == Restored(disk)
    {
      var todo := disk.Keys;
      while todo != {}
        invariant todo <= disk.Keys
        invariant forall d :: d in disk && d !in todo && disk[d].meta.Some? ==> disk[d].meta.value.id in tracked
        invariant forall i :: i in tracked ==>
          Names(disk, tracked[i].dir, i) && disk[tracked[i].dir].meta == Some(tracked[i].meta)
        decreases todo
      {
        var d :| d in todo;
        todo := todo - {d};
        if disk[d].meta == None {
          continue;
        }
        var w := Workspace(disk[d].meta.value, d);
        tracked := tracked[w.meta.id := w];
      }
      FoundAtHome(disk, tracked);
    }

    method SaveMetadata(w: Workspace)
      modifies this`disk
      ensures disk == Saved(old(disk), w)
    {
      if w.meta.mode != Persistent || w.dir !in disk {
        return;
      }
      disk := disk[w.dir := disk[w.dir].(meta := Some(w.meta))];
    }

    method CreateWorkspace(id: Id, profile: string, session: string, mode: Mode, owner: Option<string>,
                           cloneWorks: bool, now: int)
      returns (ok: bool)
      modifies this
      ensures Contents() == AfterCreate(old(Contents()), Create(id, profile, session, mode, owner, cloneWorks, now))
      ensures ok <==> (id in old(tracked) && old(tracked)[id].dir in old(disk))
                      || (if id in old(disk) then old(disk)[id].meta.Some? else cloneWorks)
      ensures ok ==> id in tracked && tracked[id].dir in disk
    {
      if id in tracked && tracked[id].dir in disk {
        var existing := Touched(tracked[id], now);
        if owner.Some? && existing.meta.owner == None {
          existing := existing.(meta := existing.meta.(owner := owner));
        }
        tracked := tracked[id := existing];
        SaveMetadata(existing);
        return true;
      }
      if id in disk && disk[id].meta.Some? {
        var meta := disk[id].meta.value;
        var restored := Workspace(meta.(id := id, used := now, owner := OwnerOr(meta.owner, owner)), id);
        tracked := tracked[id := restored];
        SaveMetadata(restored);
        return true;
      }
      if id in disk || !cloneWorks {
        return false;
      }
      disk := disk[id := Directory(None, now, false)];
      var cloned := Workspace(Meta(id, profile, mode, now, now, owner), id);
      tracked := tracked[id := cloned];
      SaveMetadata(cloned);
      ok := true;
    }

    method GetWorkspace(id: Id, now: int) returns (found: Option<Workspace>)
      modifies this`tracked
      ensures Contents() == Step(old(Contents()), Get(id, now))
      ensures found == if id in old(tracked) then Some(Touched(old(tracked)[id], now)) else None
    {
      if id !in tracked {
        return None;
      }
      tracked := tracked[id := Touched(tracked[id], now)];
      found := Some(tracked[id]);
    }

    method CloseWorkspace(id: Id, now: int) returns (ok: bool)
      modifies this
      ensures Contents() == AfterClose(old(Contents()), id, now)
      ensures ok <==> id in old(tracked)
    {
      if id !in tracked {
        return false;
      }
      var w := Touched(tracked[id], now);
      if w.meta.mode == Ephemeral {
        disk := disk - {w.dir};
      } else {
        SaveMetadata(w);
      }
      tracked := tracked - {id};
      ok := true;
    }

    /** Closes exactly the expired workspaces, once each, in the order in which they are returned. */
    method CleanupExpired(ttl: int, now: int) returns (deleted: seq<Id>)
      modifies this
      ensures Distinct(deleted) && Elems(deleted) == Expired(old(Contents()), ttl, now)
      ensures Contents() == ClosedInTurn(old(Contents()), deleted, |deleted|, now)
    {
      hide AfterClose;
      ghost var s := Contents();
      var todo := tracked.Keys;
      deleted := [];
      while todo != {}
        invariant todo <= s.tracked.Keys && Distinct(deleted)
        invariant forall i :: i in deleted <==> i in Expired(s, ttl, now) && i !in todo
        invariant forall i :: i in todo ==> i in tracked && tracked[i] == s.tracked[i]
        invariant Contents() == ClosedInTurn(s, deleted, |deleted|, now)
        decreases todo
      {
        var i :| i in todo;
        todo := todo - {i};
        if now - tracked[i].meta.used > ttl {
          ClosedIgnoresLater(s, deleted, i, |deleted|, now);
          CloseTracks(Contents(), i, now);
          var ok := CloseWorkspace(i, now);
          deleted := deleted + [i];
        }
      }
    }

    method DeleteWorkspaceDir(id: Id) returns (existed: bool)
      modifies this
      ensures Contents() == Removed(old(Contents()), {id})
      ensures existed <==> id in old(disk)
    {
      existed := id in disk;
      disk := disk - {id};
      tracked := tracked - {id};
    }

    /** Reaps stale ephemeral directories found by a scan of the disk. */
    method CollectGarbage(ttl: int, stuckTtl: int, now: int) returns (reaped: set<Id>)
      modifies this
      ensures reaped == StaleDirs(old(disk), ttl, stuckTtl, now)
      ensures Contents() == Removed(old(Contents()), reaped)
    {
      ghost var s := Contents();
      var todo := disk.Keys;
      reaped := {};
      while todo != {}
        invariant todo <= s.disk.Keys
        invariant forall i :: i in reaped <==> i in StaleDirs(s.disk, ttl, stuckTtl, now) && i !in todo
        invariant tracked == s.tracked - reaped && disk == s.disk - reaped
        decreases todo
      {
        var i :| i in todo;
        todo := todo - {i};
        if Stale(disk[i], ttl, stuckTtl, now) {
          var existed := DeleteWorkspaceDir(i);
          reaped := reaped + {i};
        }
      }
    }
  }

  // ---------------------------------------------------------------------------
  // Laws
  // ---------------------------------------------------------------------------

  lemma NoneClosed(s: State, now: int)
    ensures AllClosed(s, {}, now) == s
  {
  }

  lemma FoundAtHome(disk: map<Id, Directory>, tracked: map<Id, Workspace>)
    requires Found(disk, tracked)
    ensures AtHome(disk) ==> tracked == Restored(disk)
  {
  }

  lemma {:induction false} ClosedIgnoresLater(s: State, order: seq<Id>, id: Id, n: nat, now: int)
    requires n <= |order|
    ensures ClosedInTurn(s, order + [id], n, now) == ClosedInTurn(s, order, n, now)
  {
    hide AfterClose;
    if n > 0 {
      ClosedIgnoresLater(s, order, id, n - 1, now);
    }
  }

  lemma CloseTracks(s: State, id: Id, now: int)
    ensures AfterClose(s, id, now).tracked == s.tracked - {id}
  {
  }

  /** Closing one more of them. */
  lemma OneMoreClosed(s: State, gone: set<Id>, id: Id, now: int)
    requires Consistent(s) && gone <= s.tracked.Keys && id in s.tracked && id !in gone
    ensures AfterClose(AllClosed(s, gone, now), id, now) == AllClosed(s, gone + {id}, now)
    ensures AllClosed(s, gone, now).tracked[id] == s.tracked[id]
  {
    var one, all := AfterClose(AllClosed(s, gone, now), id, now), AllClosed(s, gone + {id}, now);
    assert one.tracked == all.tracked;
    assert forall i :: i in one.disk <==> i in all.disk;
    assert forall i :: i in one.disk ==> one.disk[i] == all.disk[i];
    assert one.disk == all.disk;
  }

  /** A cleanup closes all expired workspaces as if at once, in whatever order it takes them. */
  lemma {:induction false} CleanupIsAllAtOnce(s: State, order: seq<Id>, n: nat, now: int)
    requires Consistent(s) && Distinct(order) && Elems(order) <= s.tracked.Keys && n <= |order|
    ensures Firsts(order, n) <= s.tracked.Keys
    ensures ClosedInTurn(s, order, n, now) == AllClosed(s, Firsts(order, n), now)
  {
    hide Consistent, AfterClose, AllClosed, Distinct;
    if n > 0 {
      CleanupIsAllAtOnce(s, order, n - 1, now);
      NextIsNew(order, n);
      OneMoreClosed(s, Firsts(order, n - 1), order[n - 1], now);
    } else {
      NoneClosed(s, now);
    }
  }

  lemma NextIsNew(order: seq<Id>, n: nat)
    requires Distinct(order) && 0 < n <= |order|
    ensures order[n - 1] in Elems(order) && order[n - 1] !in Firsts(order, n - 1)
  {
    FirstsMembers(order, n - 1, order[n - 1]);
  }

  lemma TrackKeepsConsistent(s: State, id: Id, w: Workspace)
    requires Consistent(s) && w.meta.id == id && w.dir == id
    requires id in s.disk && (w.meta.mode == Ephemeral ==> s.disk[id].meta == None)
    ensures Consistent(Track(s, id, w))
  {
  }

  lemma NewDirectoryKeepsConsistent(s: State, id: Id, now: int)
    requires Consistent(s) && id !in s.disk
    ensures Consistent(s.(disk := s.disk[id := Directory(None, now, false)]))
  {
  }

  lemma CreateKeepsConsistent(s: State, op: Op)
    requires Consistent(s) && op.Create?
    ensures Consistent(AfterCreate(s, op))
  {
    hide Track, OwnerOr;
    var id := op.id;
    if id in s.tracked && id in s.disk {
      var w, m := s.tracked[id], s.tracked[id].meta;
      var owner := if m.owner == None then op.owner else m.owner;
      TrackKeepsConsistent(s, id, w.(meta := m.(used := op.now, owner := owner)));
    } else if id in s.disk && s.disk[id].meta.Some? {
      var m := s.disk[id].meta.value;
      TrackKeepsConsistent(s, id, Workspace(m.(id := id, used := op.now, owner := OwnerOr(m.owner, op.owner)), id));
    } else if id !in s.disk && op.cloneWorks {
      NewDirectoryKeepsConsistent(s, id, op.now);
      TrackKeepsConsistent(s.(disk := s.disk[id := Directory(None, op.now, false)]), id,
                           Workspace(Meta(id, op.profile, op.mode, op.now, op.now, op.owner), id));
    }
  }

  lemma CleanupKeepsConsistent(s: State, ttl: int, now: int)
    requires Consistent(s)
    ensures Consistent(AfterCleanup(s, ttl, now))
  {
  }

  lemma CloseKeepsConsistent(s: State, id: Id, now: int)
    requires Consistent(s)
    ensures Consistent(AfterClose(s, id, now))
  {
  }

  lemma RemovalKeepsConsistent(s: State, ids: set<Id>)
    requires Consistent(s)
    ensures Consistent(Removed(s, ids))
  {
  }

  lemma {:induction false} StepKeepsConsistent(s: State, op: Op)
    requires Consistent(s)
    ensures Consistent(Step(s, op))
  {
    match op
    case Create(_, _, _, _, _, _, _) => CreateKeepsConsistent(s, op);
    case Cleanup(ttl, now) => CleanupKeepsConsistent(s, ttl, now);
    case Collect(ttl, stuckTtl, now) => RemovalKeepsConsistent(s, StaleDirs(s.disk, ttl, stuckTtl, now));
    case DeleteDir(id) => RemovalKeepsConsistent(s, {id});
    case Close(id, now) => CloseKeepsConsistent(s, id, now);
    case _ => OtherStepKeepsConsistent(s, op);
  }

  lemma OtherStepKeepsConsistent(s: State, op: Op)
    requires Consistent(s) && (op.Get? || op.Restart? || op.Work?)
    ensures Consistent(Step(s, op))
  {
    hide AfterCreate, AfterClose, AfterCleanup, StaleDirs;
  }

  lemma {:induction false} RunKeepsConsistent(s: State, ops: seq<Op>, n: nat)
    requires n <= |ops| && Consistent(s)
    ensures Consistent(Run(s, ops, n))
  {
    hide Consistent, Step;
    if n > 0 {
      RunKeepsConsistent(s, ops, n - 1);
      StepKeepsConsistent(Run(s, ops, n - 1), ops[n - 1]);
    }
  }

  predicate IsPersistent(s: State, id: Id) {
    id in s.disk && s.disk[id].meta.Some?
  }

  /** The same workspace still: nothing but an unset owner and the time of use has changed. */
  predicate Same(m: Meta, n: Meta) {
    && n.id == m.id && n.mode == m.mode && n.profile == m.profile && n.created == m.created
    && (m.owner.Some? && m.owner.value != "" ==> n.owner == m.owner)
  }

  /** One call removes a persistent workspace from disk exactly when it is an explicit delete of it. */
  lemma OnlyDeleteRemoves(s: State, op: Op, id: Id)
    requires Consistent(s) && IsPersistent(s, id)
    ensures IsPersistent(Step(s, op), id) <==> op != DeleteDir(id)
    ensures op != DeleteDir(id) ==> Same(s.disk[id].meta.value, Step(s, op).disk[id].meta.value)
  {
    hide Age;
  }

  /**
   Over any run of creates, uses, closes, expiries, garbage collections and
   restarts, a persistent workspace that is not explicitly deleted keeps its
   directory, its identity, and its owner once it has one.
   */
  lemma {:induction false} PersistentSurvives(s: State, ops: seq<Op>, n: nat, id: Id)
    requires n <= |ops| && Consistent(s) && IsPersistent(s, id) && DeleteDir(id) !in ops
    ensures IsPersistent(Run(s, ops, n), id)
    ensures Same(s.disk[id].meta.value, Run(s, ops, n).disk[id].meta.value)
  {
    hide Consistent, Step;
    if n > 0 {
      PersistentSurvives(s, ops, n - 1, id);
      RunKeepsConsistent(s, ops, n - 1);
      OnlyDeleteRemoves(Run(s, ops, n - 1), ops[n - 1], id);
    }
  }

  /**
   Asking for a persistent workspace again, after any run in which it was not
   explicitly deleted, gives the same workspace, whatever the request says.
   */
  lemma {:induction false} ReopenFindsTheSame(s: State, ops: seq<Op>, again: Op)
    requires Consistent(s) && again.Create? && IsPersistent(s, again.id) && DeleteDir(again.id) !in ops
    ensures var after := Step(Run(s, ops, |ops|), again);
            again.id in after.tracked && Same(s.disk[again.id].meta.value, after.tracked[again.id].meta)
  {
    RunKeepsConsistent(s, ops, |ops|);
    PersistentSurvives(s, ops, |ops|, again.id);
  }

  /** After a restart exactly the persistent workspaces are tracked again, each with what it had. */
  lemma RestartFindsPersistent(s: State, id: Id)
    requires Consistent(s)
    ensures Step(s, Restart).disk == s.disk
    ensures id in Step(s, Restart).tracked <==> IsPersistent(s, id)
    ensures IsPersistent(s, id) ==> Step(s, Restart).tracked[id] == Workspace(s.disk[id].meta.value, id)
    ensures id in s.tracked && s.tracked[id].meta.mode == Persistent ==>
              id in Step(s, Restart).tracked && Agree(s.tracked[id].meta, Step(s, Restart).tracked[id].meta)
  {
  }

  /** Garbage collection takes exactly the ephemeral directories past their limit, with their tracking. */
  lemma CollectIsExact(s: State, ttl: int, stuckTtl: int, now: int, id: Id)
    requires Consistent(s)
    ensures var after := Step(s, Collect(ttl, stuckTtl, now));
            var limit := if id in s.disk && s.disk[id].merging && stuckTtl < ttl then stuckTtl else ttl;
            var reaped := id in s.disk && s.disk[id].meta == None && Max(0, now - s.disk[id].modified) > limit;
            && (id in after.disk <==> id in s.disk && !reaped)
            && (id in after.tracked <==> id in s.tracked && !reaped)
            && (id in after.disk ==> after.disk[id] == s.disk[id])
            && (id in after.tracked ==> after.tracked[id] == s.tracked[id])
  {
  }
}
