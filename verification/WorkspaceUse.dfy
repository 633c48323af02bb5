/**
 What each call of the workspace manager does to one workspace, and what that makes
 of the time of last use over runs: which call of the run set it, and so which
 workspaces a cleanup closes.
 */
module WorkspaceUse {
  import opened Seqs
  import opened Workspaces

  // ---------------------------------------------------------------------------
  // Single calls
  // ---------------------------------------------------------------------------

  /** A create finds a workspace in memory, or one on disk, or may clone. */
  predicate Succeeds(s: State, op: Op)
    requires op.Create?
  {
    || (op.id in s.tracked && s.tracked[op.id].dir in s.disk)
    || (op.id in s.disk && s.disk[op.id].meta.Some?)
    || (op.id !in s.disk && op.cloneWorks)
  }

  /** A create by `asked` leaves the owner that there was; a workspace without one goes to who asks. */
  predicate OwnedAfter(before: Option<string>, asked: Option<string>, after: Option<string>) {
    after == if before == None then asked else before
  }

  /** A create returns the workspace that there is, used now, or makes the one that was asked for; or fails. */
  lemma CreateDoesAsAsked(s: State, op: Op)
    requires Consistent(s) && op.Create?
    ensures !Succeeds(s, op) ==> Step(s, op) == s
    ensures Succeeds(s, op) ==>
              var after := Step(s, op);
              && op.id in after.tracked && op.id in after.disk
              && var m := after.tracked[op.id].meta;
                 && m.used == op.now
                 && (m.mode == Persistent ==> after.disk[op.id].meta == Some(m))
                 && (if op.id in s.tracked && op.id in s.disk then
                       Same(s.tracked[op.id].meta, m) && OwnedAfter(s.tracked[op.id].meta.owner, op.owner, m.owner)
                     else if op.id in s.disk then
                       && Same(s.disk[op.id].meta.value, m)
                       // an empty stored owner counts as none
                       && var stored := s.disk[op.id].meta.value.owner;
                          OwnedAfter(if stored == Some("") then None else stored, op.owner, m.owner)
                     else
                       && m.profile == op.profile && m.mode == op.mode && m.owner == op.owner && m.created == op.now
                       && after.disk[op.id].modified == op.now && !after.disk[op.id].merging)
  {
  }

  /** Every call but a restart, a cleanup and a collection is about one id, and leaves the others as they are. */
  lemma CallsAreLocal(s: State, op: Op, id: Id)
    requires Consistent(s) && !op.Restart? && !op.Cleanup? && !op.Collect? && op.id != id
    ensures var after := Step(s, op);
            && (id in after.tracked <==> id in s.tracked) && (id in s.tracked ==> after.tracked[id] == s.tracked[id])
            && (id in after.disk <==> id in s.disk) && (id in s.disk ==> after.disk[id] == s.disk[id])
  {
  }

  /** A close ends the tracking, removes the directory of an ephemeral workspace and saves a persistent one. */
  lemma CloseIsExact(s: State, id: Id, now: int)
    requires Consistent(s)
    ensures var after := Step(s, Close(id, now));
            if id !in s.tracked then after == s
            else
              && id !in after.tracked
              && (s.tracked[id].meta.mode == Ephemeral ==> id !in after.disk)
              && (s.tracked[id].meta.mode == Persistent ==>
                    IsPersistent(after, id) && after.disk[id].meta.value == s.tracked[id].meta.(used := now))
  {
  }

  /** An explicit delete removes directory and tracking. */
  lemma DeleteIsExact(s: State, id: Id)
    ensures id !in Step(s, DeleteDir(id)).tracked && id !in Step(s, DeleteDir(id)).disk
  {
  }

  /** A cleanup does to each expired workspace what a close does, and nothing to the others. */
  lemma CleanupIsClosing(s: State, ttl: int, now: int, id: Id)
    requires Consistent(s)
    ensures var after := Step(s, Cleanup(ttl, now));
            var like := if id in s.tracked && now - s.tracked[id].meta.used > ttl then Step(s, Close(id, now)) else s;
            && (id in after.tracked <==> id in like.tracked)
            && (id in like.tracked ==> after.tracked[id] == like.tracked[id])
            && (id in after.disk <==> id in like.disk) && (id in like.disk ==> after.disk[id] == like.disk[id])
  {
  }

  // ---------------------------------------------------------------------------
  // The time of last use
  // ---------------------------------------------------------------------------

  /** The call returns the workspace to a caller. */
  predicate Uses(s: State, op: Op, id: Id) {
    (op.Create? && op.id == id && Succeeds(s, op)) || (op.Get? && op.id == id && id in s.tracked)
  }

  /** After the call with number `k` no other of the first `n` uses the workspace, and the process is not restarted. */
  ghost predicate UnusedSince(s: State, ops: seq<Op>, k: nat, n: nat, id: Id)
    requires k < n <= |ops|
  {
    forall m :: k < m < n ==> !Uses(Run(s, ops, m), ops[m], id) && ops[m] != Restart
  }

  /** Between uses the time stands still for as long as the workspace is tracked. */
  lemma TimeStandsStill(s: State, op: Op, id: Id)
    requires Consistent(s) && !Uses(s, op, id) && op != Restart && id in Step(s, op).tracked
    ensures id in s.tracked && Step(s, op).tracked[id].meta.used == s.tracked[id].meta.used
  {
    hide Stale;
  }

  lemma UseSetsTime(s: State, op: Op, id: Id)
    requires Consistent(s) && Uses(s, op, id)
    ensures id in Step(s, op).tracked && Step(s, op).tracked[id].meta.used == op.now
  {
  }

  /** A tracked workspace was last used at the time of the last call of the run that used it. */
  lemma {:induction false} UsedAtLastUse(s: State, ops: seq<Op>, k: nat, n: nat, id: Id)
    requires Consistent(s) && k < n <= |ops| && UnusedSince(s, ops, k, n, id)
    requires Uses(Run(s, ops, k), ops[k], id) && id in Run(s, ops, n).tracked
    ensures Run(s, ops, n).tracked[id].meta.used == ops[k].now
  {
    hide Consistent, Step, Uses;
    RunKeepsConsistent(s, ops, n - 1);
    if k == n - 1 {
      UseSetsTime(Run(s, ops, k), ops[k], id);
    } else {
      TimeStandsStill(Run(s, ops, n - 1), ops[n - 1], id);
      UsedAtLastUse(s, ops, k, n - 1, id);
    }
  }

  /** A workspace that a restart found, and nobody used since, has the time that was stored. */
  lemma {:induction false} UsedAsStored(s: State, ops: seq<Op>, k: nat, n: nat, id: Id)
    requires Consistent(s) && k < n <= |ops| && UnusedSince(s, ops, k, n, id)
    requires ops[k] == Restart && id in Run(s, ops, n).tracked
    ensures IsPersistent(Run(s, ops, k), id)
    ensures Run(s, ops, n).tracked[id].meta.used == Run(s, ops, k).disk[id].meta.value.used
  {
    hide Consistent, Uses;
    RunKeepsConsistent(s, ops, n - 1);
    if k < n - 1 {
      TimeStandsStill(Run(s, ops, n - 1), ops[n - 1], id);
      UsedAsStored(s, ops, k, n - 1, id);
    }
  }

  /** In a run from nothing every tracked workspace has such a last use or restart. */
  lemma {:induction false} LastUseExists(ops: seq<Op>, n: nat, id: Id) returns (k: nat)
    requires n <= |ops| && id in Run(State(map[], map[]), ops, n).tracked
    ensures k < n && UnusedSince(State(map[], map[]), ops, k, n, id)
    ensures Uses(Run(State(map[], map[]), ops, k), ops[k], id) || ops[k] == Restart
  {
    hide Consistent, Step, Uses;
    var s := State(map[], map[]);
    NothingIsConsistent();
    if n > 0 {
      RunKeepsConsistent(s, ops, n - 1);
      if Uses(Run(s, ops, n - 1), ops[n - 1], id) || ops[n - 1] == Restart {
        k := n - 1;
      } else {
        TimeStandsStill(Run(s, ops, n - 1), ops[n - 1], id);
        k := LastUseExists(ops, n - 1, id);
      }
    }
  }

  lemma NothingIsConsistent()
    ensures Consistent(State(map[], map[]))
  {
  }

  // ---------------------------------------------------------------------------
  // The stored time
  // ---------------------------------------------------------------------------

  /** The call writes the metadata of the workspace: a create that returns it, a close, or a cleanup that closes it. */
  predicate Saves(s: State, op: Op, id: Id) {
    match op
    case Create(_, _, _, _, _, _, _) => op.id == id && Succeeds(s, op)
    case Close(i, _) => i == id && id in s.tracked
    case Cleanup(ttl, now) => id in s.tracked && now - s.tracked[id].meta.used > ttl
    case _ => false
  }

  function TimeOf(op: Op): int
    requires op.Create? || op.Close? || op.Cleanup?
  {
    op.now
  }

  lemma StoredTimeOfStep(s: State, op: Op, id: Id)
    requires Consistent(s) && IsPersistent(Step(s, op), id)
    ensures Saves(s, op, id) ==> Step(s, op).disk[id].meta.value.used == TimeOf(op)
    ensures !Saves(s, op, id) ==>
              IsPersistent(s, id) && Step(s, op).disk[id].meta.value.used == s.disk[id].meta.value.used
  {
    hide Stale;
  }

  /** The stored time is that of the last call of the run that wrote the metadata. */
  lemma {:induction false} StoredAtLastSave(s: State, ops: seq<Op>, k: nat, n: nat, id: Id)
    requires Consistent(s) && k < n <= |ops| && Saves(Run(s, ops, k), ops[k], id)
    requires forall m :: k < m < n ==> !Saves(Run(s, ops, m), ops[m], id)
    requires IsPersistent(Run(s, ops, n), id)
    ensures Run(s, ops, n).disk[id].meta.value.used == TimeOf(ops[k])
  {
    hide Consistent, Step, Saves;
    RunKeepsConsistent(s, ops, n - 1);
    StoredTimeOfStep(Run(s, ops, n - 1), ops[n - 1], id);
    if k < n - 1 {
      StoredAtLastSave(s, ops, k, n - 1, id);
    }
  }

  // ---------------------------------------------------------------------------
  // Which workspaces a cleanup closes
  // ---------------------------------------------------------------------------

  /**
   A cleanup closes a workspace exactly when its last use in the run, by a create or a
   get, is longer ago than the limit, and then removes its directory if it is ephemeral.
   */
  lemma {:induction false} CleanupGoesByLastUse(s: State, ops: seq<Op>, k: nat, n: nat, id: Id)
    requires Consistent(s) && k < n < |ops| && UnusedSince(s, ops, k, n, id) && ops[n].Cleanup?
    requires Uses(Run(s, ops, k), ops[k], id) && id in Run(s, ops, n).tracked
    ensures var before, after := Run(s, ops, n), Run(s, ops, n + 1);
            && (id in after.tracked <==> ops[n].now - ops[k].now <= ops[n].ttl)
            && (before.tracked[id].meta.mode == Ephemeral && ops[n].now - ops[k].now > ops[n].ttl ==> id !in after.disk)
            && (before.tracked[id].meta.mode == Persistent || ops[n].now - ops[k].now <= ops[n].ttl ==>
                  (id in after.disk <==> id in before.disk))
  {
    hide Consistent, UnusedSince, Uses;
    RunKeepsConsistent(s, ops, n);
    UsedAtLastUse(s, ops, k, n, id);
    CleanupIsClosing(Run(s, ops, n), ops[n].ttl, ops[n].now, id);
    CloseIsExact(Run(s, ops, n), id, ops[n].now);
    PersistentIsOnDisk(Run(s, ops, n), id);
  }

  lemma PersistentIsOnDisk(s: State, id: Id)
    requires Consistent(s) && id in s.tracked
    ensures s.tracked[id].meta.mode == Persistent ==> id in s.disk
  {
  }
}
