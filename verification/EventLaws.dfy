/**
 What each single event of an observation says: a ref event tells the move of its
 ref, a commit or file event the changes of its commit, and every ref that moved
 has the events of its move and no others.
 */
module EventLaws {
  import opened Seqs
  import opened CommitGraph
  import opened Observe
  import opened ObserveLaws

  // ---------------------------------------------------------------------------
  // The changes of a commit that are told
  // ---------------------------------------------------------------------------

  /** The letter that a status begins with: renames and copies carry a score behind it. */
  function Letter(status: string): string {
    if status == "" then "" else [status[0]]
  }

  /** The changes that name a path, each with its one-letter status. */
  function Named(rows: seq<Change>, i: nat): seq<Change>
    requires i <= |rows|
    decreases |rows| - i
  {
    if i == |rows| then []
    else (if rows[i].path == "" then [] else [Change(Letter(rows[i].status), rows[i].path)]) + Named(rows, i + 1)
  }

  lemma LetterIsFirst(status: string)
    ensures FirstCode(status) == Letter(status)
  {
  }

  lemma {:induction false} BoundedIsTake(rows: seq<Change>, i: nat, maxPaths: nat, kept: nat)
    requires i <= |rows| && kept < maxPaths
    ensures BoundedRows(rows, i, maxPaths, kept) == Take(Named(rows, i), maxPaths - kept)
    decreases |rows| - i
  {
    if i < |rows| {
      LetterIsFirst(rows[i].status);
      BoundedIsTake(rows, i + 1, maxPaths, kept);
      if rows[i].path == "" {
        assert [] + Named(rows, i + 1) == Named(rows, i + 1);
      } else if kept + 1 < maxPaths {
        BoundedIsTake(rows, i + 1, maxPaths, kept + 1);
        TakeMore(Change(Letter(rows[i].status), rows[i].path), Named(rows, i + 1), maxPaths - kept - 1);
      } else {
        TakeMore(Change(Letter(rows[i].status), rows[i].path), Named(rows, i + 1), 0);
      }
    }
  }

  lemma TakeMore<T>(x: T, s: seq<T>, n: nat)
    ensures Take([x] + s, n + 1) == [x] + Take(s, n)
  {
  }

  /**
   The changes of a commit that are told: the first `maxPaths` that name a path. A
   limit of 0 still lets the first row through, since the limit is looked at after
   a row has been kept.
   */
  function ToldChanges(rows: seq<Change>, maxPaths: nat): seq<Change> {
    if maxPaths >= 1 then Take(Named(rows, 0), maxPaths) else Named(Take(rows, 1), 0)
  }

  /** The bounded scan keeps exactly the first paths of a commit. */
  lemma RowsAreTheFirst(repo: Repository, o: Oid, limits: Limits)
    ensures CommitRows(repo, o, limits) == ToldChanges(repo.changes(Peel(repo, o)), limits.maxPaths)
  {
    var rows := repo.changes(Peel(repo, o));
    if limits.maxPaths >= 1 {
      BoundedIsTake(rows, 0, limits.maxPaths, 0);
    } else if rows != [] {
      var first := Take(rows, 1);
      LetterIsFirst(rows[0].status);
      assert first == [rows[0]] && Named(first, 1) == [];
      var kept := if rows[0].path == "" then [] else [Change(Letter(rows[0].status), rows[0].path)];
      assert Named(first, 0) == kept + [];
    }
  }

  // ---------------------------------------------------------------------------
  // Ref events say which move happened
  // ---------------------------------------------------------------------------

  /** The paths of an event are those of the changes, one for each and in order. */
  ghost predicate ListsPaths(paths: seq<string>, changes: seq<Change>) {
    |paths| == |changes| && forall i :: 0 <= i < |paths| ==> paths[i] == changes[i].path
  }

  /** The changes that go with a ref event: those of the new tip, where a ref appears or a branch is forced. */
  function TipChanges(repo: Repository, c: ChangeCandidate, new': Option<Oid>, limits: Limits): seq<Change> {
    if new'.Some? && (c.action == Created || (c.action == ForceUpdated && c.refType != Tag))
    then ToldChanges(repo.changes(Peel(repo, new'.value)), limits.maxPaths) else []
  }

  /** A ref event names both ends of its move, the kind of move between them, and the paths at its new end. */
  ghost predicate TellsMove(repo: Repository, c: ChangeCandidate, old': Option<Oid>, new': Option<Oid>, limits: Limits)
    requires Acyclic(repo.graph)
  {
    && c.subject == OnRef(c.ref) && c.refType == RefTypeOf(c.ref)
    && (new'.Some? ==> c.version == new'.value && c.author == repo.author(Peel(repo, new'.value)))
    && (new' == None ==> old' == Some(c.version) && c.author == "")
    && ListsPaths(c.paths, TipChanges(repo, c, new', limits))
    && c.metadata.oldSha == old' && c.metadata.newSha == new' && old' != new'
    && c.metadata.commit == (if old' == None then new' else None)
    && c.metadata.fileStatus == None && c.metadata.parents == None && !c.metadata.merge
    && (c.action == Deleted <==> new' == None)
    && (c.action == Created <==> old' == None)
    && (c.action == ForceUpdated <==> old'.Some? && new'.Some? && !IsAncestor(repo, old'.value, new'.value))
    && (c.metadata.force <==> c.action == ForceUpdated)
    && (c.action == MetadataChanged <==>
          c.refType == Tag && old'.Some? && new'.Some? && IsAncestor(repo, old'.value, new'.value))
  }

  /** What the bounded scan keeps of a commit is what its event lists. */
  lemma PathsAreListed(repo: Repository, o: Oid, limits: Limits)
    ensures ListsPaths(PathsOf(CommitRows(repo, o, limits)), ToldChanges(repo.changes(Peel(repo, o)), limits.maxPaths))
  {
    hide ToldChanges, CommitRows;
    RowsAreTheFirst(repo, o, limits);
  }

  lemma RefCandidatesTell(repo: Repository, ref: Ref, old': Option<Oid>, new': Oid, limits: Limits, c: ChangeCandidate)
    requires Acyclic(repo.graph) && c in RefCandidates(repo, ref, old', new', limits) && c.subject.OnRef?
    ensures c.ref == ref && TellsMove(repo, c, old', Some(new'), limits)
  {
    hide ToldChanges, CommitRows;
    PathsAreListed(repo, new', limits);
    if old'.Some? && old'.value != new' && RefTypeOf(ref) != Tag && IsAncestor(repo, old'.value, new') {
      var shas := NewCommits(repo, old'.value, new', limits);
      AdvancesAreCommitEvents(repo, ref, new', shas, |shas|, limits, c);
    }
  }

  lemma {:induction false} AdvancesAreCommitEvents(repo: Repository, ref: Ref, new': Oid, shas: seq<Oid>, n: nat,
                                                   limits: Limits, c: ChangeCandidate)
    requires n <= |shas| && c in PerCommit(repo, ref, new', shas, n, limits)
    ensures !c.subject.OnRef?
  {
    if n > 0 && c !in OneCommit(repo, ref, new', shas[n - 1], limits) {
      AdvancesAreCommitEvents(repo, ref, new', shas, n - 1, limits, c);
    }
  }

  lemma {:induction false} DeletionsTell(repo: Repository, old': seq<Entry>, live: map<Ref, Oid>, n: nat,
                                         limits: Limits, c: ChangeCandidate)
    requires Acyclic(repo.graph) && n <= |old'| && Unique(old', n) && c in Deletions(old', live, n)
    ensures c.ref in Table(old', n) && c.ref !in live && TellsMove(repo, c, Some(Table(old', n)[c.ref]), None, limits)
  {
    if c in Deletions(old', live, n - 1) {
      DeletionsTell(repo, old', live, n - 1, limits, c);
    }
  }

  lemma {:induction false} MovesTell(repo: Repository, previous: map<Ref, Oid>, live: seq<Entry>, n: nat,
                                     limits: Limits,
                                     c: ChangeCandidate)
    requires Acyclic(repo.graph) && n <= |live| && Unique(live, n)
    requires c in Moves(repo, previous, live, n, limits) && c.subject.OnRef?
    ensures c.ref in Table(live, n) && TellsMove(repo, c, Before(previous, c.ref), Some(Table(live, n)[c.ref]), limits)
  {
    hide RefCandidates, TellsMove;
    var e := live[n - 1];
    if c in RefCandidates(repo, e.ref, Before(previous, e.ref), e.id, limits) {
      RefCandidatesTell(repo, e.ref, Before(previous, e.ref), e.id, limits, c);
    } else {
      MovesTell(repo, previous, live, n - 1, limits, c);
    }
  }

  /** Every ref event of an observation tells the move of its ref between the two snapshots. */
  lemma RefEventsTellMoves(repo: Repository, previous: RefSnapshot, live: RefSnapshot, limits: Limits,
                           emitBaseline: bool, c: ChangeCandidate)
    requires Acyclic(repo.graph) && previous.Valid() && live.Valid()
    requires c in Candidates(repo, previous, live, limits, emitBaseline) && c.subject.OnRef?
    ensures TellsMove(repo, c, Before(previous.Refs(), c.ref), Before(live.Refs(), c.ref), limits)
  {
    hide TellsMove;
    if c in Deletions(previous.entries, live.Refs(), |previous.entries|) {
      DeletionsTell(repo, previous.entries, live.Refs(), |previous.entries|, limits, c);
    } else {
      MovesTell(repo, previous.Refs(), live.entries, |live.entries|, limits, c);
    }
  }

  // ---------------------------------------------------------------------------
  // What a commit or file event says of its commit
  // ---------------------------------------------------------------------------

  /** The action of a file event follows from the status of the change, and the other way round. */
  predicate ActionFits(action: Action, status: string) {
    && (action == Created <==> status == "A" || status == "C")
    && (action == Deleted <==> status == "D")
    && (action == Moved <==> status == "R")
    && action != ForceUpdated && action != MetadataChanged
  }

  /**
   A commit event lists the told changes of its commit, a file event is one of them,
   and both say whether the commit is a merge.
   */
  ghost predicate TellsCommit(repo: Repository, c: ChangeCandidate, limits: Limits) {
    match c.subject
    case OnRef(_) => true
    case OnCommit(sha) =>
      && SaysCommit(repo, c, sha) && c.action == Updated
      && (sha in repo.graph.parents ==> c.metadata.parents == Some(|repo.graph.parents[sha]|))
      && ListsPaths(c.paths, ToldChanges(repo.changes(Peel(repo, sha)), limits.maxPaths))
    case OnFile(sha, path) =>
      && SaysCommit(repo, c, sha) && c.paths == [path]
      && c.metadata.fileStatus.Some? && ActionFits(c.action, c.metadata.fileStatus.value)
      && Change(c.metadata.fileStatus.value, path) in ToldChanges(repo.changes(Peel(repo, sha)), limits.maxPaths)
  }

  /** What commit and file events have in common. */
  predicate SaysCommit(repo: Repository, c: ChangeCandidate, sha: Oid) {
    && c.refType == RefTypeOf(c.ref) && c.version == sha && c.author == repo.author(sha)
    && c.metadata.commit == Some(sha) && c.metadata.oldSha == None && !c.metadata.force
    && (sha in repo.graph.parents ==> (c.metadata.merge <==> |repo.graph.parents[sha]| > 1))
  }

  lemma {:induction false} FileCandidateAt(repo: Repository, ref: Ref, sha: Oid, rows: seq<Change>, n: nat, k: nat)
    requires k < n <= |rows|
    ensures FileCandidates(repo, ref, sha, rows, n)[k] == FileCandidate(repo, ref, sha, rows[k])
  {
    if k < n - 1 {
      FileCandidateAt(repo, ref, sha, rows, n - 1, k);
    }
  }

  lemma OneCommitTells(repo: Repository, ref: Ref, new': Oid, sha: Oid, limits: Limits, c: ChangeCandidate)
    requires c in OneCommit(repo, ref, new', sha, limits)
    ensures TellsCommit(repo, c, limits)
  {
    hide ToldChanges, CommitRows;
    var rows := CommitRows(repo, sha, limits);
    PathsAreListed(repo, sha, limits);
    RowsAreTheFirst(repo, sha, limits);
    if c != CommitCandidate(repo, ref, sha, new', rows) {
      var k :| 0 <= k < |rows| && FileCandidates(repo, ref, sha, rows, |rows|)[k] == c;
      FileCandidateAt(repo, ref, sha, rows, |rows|, k);
    }
  }

  lemma {:induction false} PerCommitTells(repo: Repository, ref: Ref, new': Oid, shas: seq<Oid>, n: nat, limits: Limits,
                                          c: ChangeCandidate)
    requires n <= |shas| && c in PerCommit(repo, ref, new', shas, n, limits)
    ensures TellsCommit(repo, c, limits)
  {
    hide TellsCommit, OneCommit;
    if c in OneCommit(repo, ref, new', shas[n - 1], limits) {
      OneCommitTells(repo, ref, new', shas[n - 1], limits, c);
    } else {
      PerCommitTells(repo, ref, new', shas, n - 1, limits, c);
    }
  }

  lemma {:induction false} MovesTellCommits(repo: Repository, previous: map<Ref, Oid>, live: seq<Entry>, n: nat,
                                            limits: Limits, c: ChangeCandidate)
    requires Acyclic(repo.graph) && n <= |live| && c in Moves(repo, previous, live, n, limits)
    ensures TellsCommit(repo, c, limits)
  {
    hide PerCommit, CommitRows, NewCommits;
    var e := live[n - 1];
    if c in Moves(repo, previous, live, n - 1, limits) {
      MovesTellCommits(repo, previous, live, n - 1, limits, c);
    } else if FastForward(repo, previous, e.ref, e.id) {
      var shas := NewCommits(repo, previous[e.ref], e.id, limits);
      PerCommitTells(repo, e.ref, e.id, shas, |shas|, limits, c);
    } else {
      assert c.subject.OnRef?;
    }
  }

  /** Every commit and file event of an observation tells changes that its commit did make. */
  lemma EventsTellCommits(repo: Repository, previous: RefSnapshot, live: RefSnapshot, limits: Limits,
                          emitBaseline: bool, c: ChangeCandidate)
    requires Acyclic(repo.graph) && c in Candidates(repo, previous, live, limits, emitBaseline)
    ensures TellsCommit(repo, c, limits)
  {
    if c !in Deletions(previous.entries, live.Refs(), |previous.entries|) {
      MovesTellCommits(repo, previous.Refs(), live.entries, |live.entries|, limits, c);
    }
  }

  // ---------------------------------------------------------------------------
  // Every move has its events, and no others
  // ---------------------------------------------------------------------------

  /** How many of the first `n` events are about the ref itself. */
  function RefEvents(ref: Ref, cs: seq<ChangeCandidate>, n: nat): nat
    requires n <= |cs|
  {
    if n == 0 then 0 else RefEvents(ref, cs, n - 1) + if cs[n - 1].subject == OnRef(ref) then 1 else 0
  }

  lemma {:induction false} RefEventsPrefix(ref: Ref, a: seq<ChangeCandidate>, b: seq<ChangeCandidate>, n: nat)
    requires n <= |a|
    ensures RefEvents(ref, a + b, n) == RefEvents(ref, a, n)
  {
    if n > 0 {
      RefEventsPrefix(ref, a, b, n - 1);
    }
  }

  lemma {:induction false} RefEventsAppend(ref: Ref, a: seq<ChangeCandidate>, b: seq<ChangeCandidate>, n: nat)
    requires n <= |b|
    ensures RefEvents(ref, a + b, |a| + n) == RefEvents(ref, a, |a|) + RefEvents(ref, b, n)
  {
    if n == 0 {
      RefEventsPrefix(ref, a, b, |a|);
    } else {
      RefEventsAppend(ref, a, b, n - 1);
    }
  }

  lemma {:induction false} NoRefEvents(ref: Ref, cs: seq<ChangeCandidate>, n: nat)
    requires n <= |cs| && forall c :: c in cs ==> c.subject != OnRef(ref)
    ensures RefEvents(ref, cs, n) == 0
  {
    if n > 0 {
      NoRefEvents(ref, cs, n - 1);
    }
  }

  /** A move of a ref that is told by one event about the ref: any but a branch moving forward. */
  predicate ToldAsRef(repo: Repository, ref: Ref, old': Option<Oid>, new': Option<Oid>)
    requires Acyclic(repo.graph)
  {
    && old' != new'
    && !(old'.Some? && new'.Some? && RefTypeOf(ref) != Tag && IsAncestor(repo, old'.value, new'.value))
  }

  lemma RefEventsOfMove(repo: Repository, on: Ref, ref: Ref, old': Option<Oid>, new': Oid, limits: Limits)
    requires Acyclic(repo.graph)
    ensures var cs := RefCandidates(repo, ref, old', new', limits);
            RefEvents(on, cs, |cs|) == if on == ref && ToldAsRef(repo, ref, old', Some(new')) then 1 else 0
  {
    hide CommitRows, NewCommits;
    var cs := RefCandidates(repo, ref, old', new', limits);
    if old'.Some? && !ToldAsRef(repo, ref, old', Some(new')) {
      forall c | c in cs
        ensures c.subject != OnRef(on)
      {
        var shas := NewCommits(repo, old'.value, new', limits);
        AdvancesAreCommitEvents(repo, ref, new', shas, |shas|, limits, c);
      }
      NoRefEvents(on, cs, |cs|);
    } else {
      assert |cs| == 1 && cs[0].subject == OnRef(ref) && RefEvents(on, cs, 0) == 0;
    }
  }

  lemma {:induction false} RefEventsOfMoves(repo: Repository, on: Ref, previous: map<Ref, Oid>, live: seq<Entry>,
                                            n: nat, limits: Limits)
    requires Acyclic(repo.graph) && n <= |live| && Unique(live, n)
    ensures var cs := Moves(repo, previous, live, n, limits);
            RefEvents(on, cs, |cs|) ==
            if on in Table(live, n) && ToldAsRef(repo, on, Before(previous, on), Some(Table(live, n)[on])) then 1 else 0
  {
    hide RefCandidates, ToldAsRef;
    if n > 0 {
      var e := live[n - 1];
      var one := RefCandidates(repo, e.ref, Before(previous, e.ref), e.id, limits);
      RefEventsOfMoves(repo, on, previous, live, n - 1, limits);
      RefEventsAppend(on, Moves(repo, previous, live, n - 1, limits), one, |one|);
      RefEventsOfMove(repo, on, e.ref, Before(previous, e.ref), e.id, limits);
    }
  }

  lemma {:induction false} RefEventsOfDeletions(old': seq<Entry>, live: map<Ref, Oid>, n: nat, on: Ref)
    requires n <= |old'| && Unique(old', n)
    ensures var cs := Deletions(old', live, n);
            RefEvents(on, cs, |cs|) == if on in Table(old', n) && on !in live then 1 else 0
  {
    if n > 0 {
      var e := old'[n - 1];
      RefEventsOfDeletions(old', live, n - 1, on);
      if e.ref !in live {
        var head, c := Deletions(old', live, n - 1), DeletedRef(e.ref, e.id);
        RefEventsAppend(on, head, [c], 1);
        assert RefEvents(on, [c], 0) == 0;
      } else {
        assert Deletions(old', live, n - 1) + [] == Deletions(old', live, n - 1);
      }
    }
  }

  /**
   Outside a baseline every ref that is gone, new, re-pointed or forced has exactly
   one event about itself, and no other ref has one.
   */
  lemma RefEventsAreExact(repo: Repository, previous: RefSnapshot, live: RefSnapshot, limits: Limits,
                          emitBaseline: bool, ref: Ref)
    requires Acyclic(repo.graph) && previous.Valid() && live.Valid() && (previous.entries != [] || emitBaseline)
    ensures var cs := Candidates(repo, previous, live, limits, emitBaseline);
            RefEvents(ref, cs, |cs|) ==
            if ToldAsRef(repo, ref, Before(previous.Refs(), ref), Before(live.Refs(), ref)) then 1 else 0
  {
    hide Moves, Deletions, RefEvents, IsAncestor, Unique;
    var deletions := Deletions(previous.entries, live.Refs(), |previous.entries|);
    var moves := Moves(repo, previous.Refs(), live.entries, |live.entries|, limits);
    RefEventsOfDeletions(previous.entries, live.Refs(), |previous.entries|, ref);
    RefEventsOfMoves(repo, ref, previous.Refs(), live.entries, |live.entries|, limits);
    RefEventsAppend(ref, deletions, moves, |moves|);
  }

  /** The commits of a forward move are told oldest first: the newest that fit, in the reverse of git's order. */
  lemma CommitsAreOldestFirst(repo: Repository, old': Oid, new': Oid, limits: Limits, i: nat)
    requires i < |NewCommits(repo, old', new', limits)|
    ensures var listed, told := repo.revList(Peel(repo, old'), Peel(repo, new')), NewCommits(repo, old', new', limits);
            && |told| <= |listed| && (|told| == |listed| || |told| == limits.maxCommits)
            && told[i] == listed[|told| - 1 - i]
  {
    var taken := Take(repo.revList(Peel(repo, old'), Peel(repo, new')), limits.maxCommits);
    ReverseAt(taken, 0);
    ReverseAt(taken, |taken| - 1 - i);
  }

  /** Two tag objects for one commit are compared by the commit: swapping them is not a forced move. */
  lemma RetaggingIsNotForced(repo: Repository, tag: Ref, old': Oid, new': Oid, limits: Limits, c: ChangeCandidate)
    requires Valid(repo) && RefTypeOf(tag) == Tag && old' != new'
    requires old' in repo.tagObjects && new' in repo.tagObjects && repo.tagObjects[old'] == repo.tagObjects[new']
    requires c in RefCandidates(repo, tag, Some(old'), new', limits)
    ensures c.action == MetadataChanged && !c.metadata.force
  {
  }
}
