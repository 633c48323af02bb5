/**
 What the file-level candidates of an observation say: for each commit that is
 told on a branch, the first changed paths of that commit, once each and in order,
 with the action that the change status stands for.
 */
module FileLaws {
  import opened Seqs
  import opened CommitGraph
  import opened Observe
  import opened ObserveLaws
  import opened EventLaws

  function FileIn(ref: Ref, sha: Oid, c: ChangeCandidate): seq<Change> {
    if c.ref == ref && c.subject.OnFile? && c.subject.commit == sha && c.metadata.fileStatus.Some?
    then [Change(c.metadata.fileStatus.value, c.subject.path)] else []
  }

  /** The file changes of one commit that the first `n` candidates tell on a ref, in order. */
  function FilesOnFirst(ref: Ref, sha: Oid, cs: seq<ChangeCandidate>, n: nat): seq<Change>
    requires n <= |cs|
  {
    if n == 0 then [] else FilesOnFirst(ref, sha, cs, n - 1) + FileIn(ref, sha, cs[n - 1])
  }

  function FilesOn(ref: Ref, sha: Oid, cs: seq<ChangeCandidate>): seq<Change> {
    FilesOnFirst(ref, sha, cs, |cs|)
  }

  lemma {:induction false} FilesOnPrefix(ref: Ref, sha: Oid, a: seq<ChangeCandidate>, b: seq<ChangeCandidate>, n: nat)
    requires n <= |a|
    ensures FilesOnFirst(ref, sha, a + b, n) == FilesOnFirst(ref, sha, a, n)
  {
    if n > 0 {
      FilesOnPrefix(ref, sha, a, b, n - 1);
    }
  }

  lemma {:induction false} FilesOnSuffix(ref: Ref, sha: Oid, a: seq<ChangeCandidate>, b: seq<ChangeCandidate>, n: nat)
    requires n <= |b|
    ensures FilesOnFirst(ref, sha, a + b, |a| + n) == FilesOn(ref, sha, a) + FilesOnFirst(ref, sha, b, n)
  {
    if n == 0 {
      FilesOnPrefix(ref, sha, a, b, |a|);
    } else {
      FilesOnSuffix(ref, sha, a, b, n - 1);
    }
  }

  lemma FilesOnAppend(ref: Ref, sha: Oid, a: seq<ChangeCandidate>, b: seq<ChangeCandidate>)
    ensures FilesOn(ref, sha, a + b) == FilesOn(ref, sha, a) + FilesOn(ref, sha, b)
  {
    FilesOnSuffix(ref, sha, a, b, |b|);
  }

  lemma {:induction false} NoFilesInFirst(ref: Ref, sha: Oid, cs: seq<ChangeCandidate>, n: nat)
    requires n <= |cs| && forall c :: c in cs ==> !c.subject.OnFile?
    ensures FilesOnFirst(ref, sha, cs, n) == []
  {
    if n > 0 {
      NoFilesInFirst(ref, sha, cs, n - 1);
    }
  }

  lemma NoFilesIn(ref: Ref, sha: Oid, cs: seq<ChangeCandidate>)
    requires forall c :: c in cs ==> !c.subject.OnFile?
    ensures FilesOn(ref, sha, cs) == []
  {
    NoFilesInFirst(ref, sha, cs, |cs|);
  }

  lemma FilesOfRow(repo: Repository, on: Ref, of: Oid, ref: Ref, sha: Oid, row: Change)
    ensures FilesOn(on, of, [FileCandidate(repo, ref, sha, row)]) == if on == ref && of == sha then [row] else []
  {
    var c := FileCandidate(repo, ref, sha, row);
    assert FilesOnFirst(on, of, [c], 0) == [];
    assert FilesOnFirst(on, of, [c], 1) == FileIn(on, of, c);
  }

  lemma {:induction false} FilesOfRows(repo: Repository, ref: Ref, sha: Oid, rows: seq<Change>, n: nat)
    requires n <= |rows|
    ensures FilesOn(ref, sha, FileCandidates(repo, ref, sha, rows, n)) == rows[..n]
  {
    hide FileCandidate, FilesOn;
    if n > 0 {
      var head, c := FileCandidates(repo, ref, sha, rows, n - 1), FileCandidate(repo, ref, sha, rows[n - 1]);
      FilesOfRows(repo, ref, sha, rows, n - 1);
      FilesOnAppend(ref, sha, head, [c]);
      FilesOfRow(repo, ref, sha, ref, sha, rows[n - 1]);
    } else {
      NoFilesIn(ref, sha, []);
    }
  }

  lemma {:induction false} FilesOfOthers(repo: Repository, on: Ref, of: Oid, ref: Ref, sha: Oid, rows: seq<Change>,
                                         n: nat)
    requires n <= |rows| && (on != ref || of != sha)
    ensures FilesOn(on, of, FileCandidates(repo, ref, sha, rows, n)) == []
  {
    hide FileCandidate, FilesOn;
    if n > 0 {
      var head, c := FileCandidates(repo, ref, sha, rows, n - 1), FileCandidate(repo, ref, sha, rows[n - 1]);
      FilesOfOthers(repo, on, of, ref, sha, rows, n - 1);
      FilesOnAppend(on, of, head, [c]);
      FilesOfRow(repo, on, of, ref, sha, rows[n - 1]);
    } else {
      NoFilesIn(on, of, []);
    }
  }

  lemma FilesOnOneCommit(repo: Repository, on: Ref, of: Oid, ref: Ref, new': Oid, sha: Oid, limits: Limits)
    ensures FilesOn(on, of, OneCommit(repo, ref, new', sha, limits)) ==
            if on == ref && of == sha then CommitRows(repo, sha, limits) else []
  {
    hide CommitRows, FileCandidates;
    var rows := CommitRows(repo, sha, limits);
    var c, files := CommitCandidate(repo, ref, sha, new', rows), FileCandidates(repo, ref, sha, rows, |rows|);
    FilesOnAppend(on, of, [c], files);
    NoFilesIn(on, of, [c]);
    if on == ref && of == sha {
      FilesOfRows(repo, ref, sha, rows, |rows|);
      assert rows[..|rows|] == rows;
    } else {
      FilesOfOthers(repo, on, of, ref, sha, rows, |rows|);
    }
  }

  lemma {:induction false} FilesOnPerCommit(repo: Repository, on: Ref, of: Oid, ref: Ref, new': Oid, shas: seq<Oid>,
                                            n: nat, limits: Limits)
    requires n <= |shas| && Distinct(shas)
    ensures FilesOn(on, of, PerCommit(repo, ref, new', shas, n, limits)) ==
            if on == ref && of in Firsts(shas, n) then CommitRows(repo, of, limits) else []
  {
    hide OneCommit, CommitRows, FilesOn, Distinct;
    if n > 0 {
      var head, one := PerCommit(repo, ref, new', shas, n - 1, limits), OneCommit(repo, ref, new', shas[n - 1], limits);
      FilesOnPerCommit(repo, on, of, ref, new', shas, n - 1, limits);
      FilesOnAppend(on, of, head, one);
      FilesOnOneCommit(repo, on, of, ref, new', shas[n - 1], limits);
      LastIsNew(shas, n);
    } else {
      NoFilesIn(on, of, []);
    }
  }

  lemma LastIsNew<T(!new)>(s: seq<T>, n: nat)
    requires Distinct(s) && 0 < n <= |s|
    ensures s[n - 1] !in Firsts(s, n - 1)
  {
    FirstsMembers(s, n - 1, s[n - 1]);
  }

  /** The commits that one observation tells on a branch. */
  function ToldOn(repo: Repository, previous: map<Ref, Oid>, ref: Ref, new': Oid, limits: Limits): seq<Oid>
    requires Acyclic(repo.graph)
  {
    if FastForward(repo, previous, ref, new') then NewCommits(repo, previous[ref], new', limits) else []
  }

  /** The listed commits are distinct, lie in the range, and are all of it exactly when it fits. */
  lemma NewCommitsOfRange(repo: Repository, old': Oid, new': Oid, limits: Limits)
    requires Valid(repo) && Peel(repo, new') in repo.graph.parents
    ensures var listed := NewCommits(repo, old', new', limits);
            var range := Range(repo.graph, Peel(repo, old'), Peel(repo, new'));
            && Distinct(listed) && Elems(listed) <= range
            && (Elems(listed) == range <==> |range| <= limits.maxCommits)
  {
    var listed := repo.revList(Peel(repo, old'), Peel(repo, new'));
    TakeElems(listed, limits.maxCommits);
    ReverseElems(Take(listed, limits.maxCommits));
  }

  lemma FilesOnRef(repo: Repository, on: Ref, of: Oid, previous: map<Ref, Oid>, ref: Ref, new': Oid, limits: Limits)
    requires Valid(repo) && Peel(repo, new') in repo.graph.parents
    ensures FilesOn(on, of, RefCandidates(repo, ref, Before(previous, ref), new', limits)) ==
            if on == ref && of in ToldOn(repo, previous, ref, new', limits) then CommitRows(repo, of, limits) else []
  {
    hide CommitRows, NewCommits;
    if FastForward(repo, previous, ref, new') {
      var shas := NewCommits(repo, previous[ref], new', limits);
      NewCommitsOfRange(repo, previous[ref], new', limits);
      FilesOnPerCommit(repo, on, of, ref, new', shas, |shas|, limits);
      FirstsAreElems(shas);
    } else {
      NoFilesIn(on, of, RefCandidates(repo, ref, Before(previous, ref), new', limits));
    }
  }

  lemma {:induction false} FilesOnMoves(repo: Repository, on: Ref, of: Oid, previous: map<Ref, Oid>, live: seq<Entry>,
                                        n: nat, limits: Limits)
    requires Valid(repo) && n <= |live| && Unique(live, n)
    requires forall i :: 0 <= i < n ==> Peel(repo, live[i].id) in repo.graph.parents
    ensures FilesOn(on, of, Moves(repo, previous, live, n, limits)) ==
            if on in Table(live, n) && of in ToldOn(repo, previous, on, Table(live, n)[on], limits)
            then CommitRows(repo, of, limits) else []
  {
    hide CommitRows, ToldOn, RefCandidates, ListsRanges;
    if n > 0 {
      var e := live[n - 1];
      FilesOnMoves(repo, on, of, previous, live, n - 1, limits);
      FilesOnAppend(on, of, Moves(repo, previous, live, n - 1, limits),
                    RefCandidates(repo, e.ref, Before(previous, e.ref), e.id, limits));
      FilesOnRef(repo, on, of, previous, e.ref, e.id, limits);
    }
  }

  /** What an observation tells of one ref comes from the moves alone. */
  lemma OnlyMovesTell(repo: Repository, on: Ref, of: Oid, previous: RefSnapshot, live: RefSnapshot, limits: Limits)
    requires Acyclic(repo.graph)
    ensures var moves := Moves(repo, previous.Refs(), live.entries, |live.entries|, limits);
            var cs := Candidates(repo, previous, live, limits, true);
            FilesOn(on, of, cs) == FilesOn(on, of, moves) && CommitsOn(on, cs) == CommitsOn(on, moves)
  {
    hide Moves, FilesOn, CommitsOn;
    var deletions := Deletions(previous.entries, live.Refs(), |previous.entries|);
    var moves := Moves(repo, previous.Refs(), live.entries, |live.entries|, limits);
    NoFilesIn(on, of, deletions);
    NoCommitsIn(on, deletions);
    FilesOnAppend(on, of, deletions, moves);
    CommitsOnAppend(on, deletions, moves);
    assert [] + FilesOn(on, of, moves) == FilesOn(on, of, moves);
    assert [] + CommitsOn(on, moves) == CommitsOn(on, moves);
  }

  lemma {:induction false} EntriesAreListed(entries: seq<Entry>, n: nat, i: nat)
    requires i < n <= |entries| && Unique(entries, n)
    ensures entries[i].ref in Table(entries, n) && Table(entries, n)[entries[i].ref] == entries[i].id
  {
    if i < n - 1 {
      EntriesAreListed(entries, n - 1, i);
    }
  }

  lemma ToldIsCommit(repo: Repository, previous: map<Ref, Oid>, ref: Ref, new': Oid, limits: Limits, sha: Oid)
    requires Valid(repo) && Peel(repo, new') in repo.graph.parents
    requires sha in ToldOn(repo, previous, ref, new', limits)
    ensures sha in repo.graph.parents && Peel(repo, sha) == sha
  {
    hide NewCommits, ListsRanges;
    NewCommitsOfRange(repo, previous[ref], new', limits);
    assert sha in Elems(NewCommits(repo, previous[ref], new', limits));
    ReachGoesDown(repo.graph, sha, Peel(repo, new'));
  }

  /** The commit events of any observation on a ref are the commits listed for its move, if it moved forward. */
  lemma CommitsToldOn(repo: Repository, previous: RefSnapshot, live: RefSnapshot, limits: Limits, emitBaseline: bool,
                      ref: Ref)
    requires Acyclic(repo.graph) && live.Valid()
    ensures CommitsOn(ref, Candidates(repo, previous, live, limits, emitBaseline)) ==
            if ref in live.Refs() then ToldOn(repo, previous.Refs(), ref, live.Refs()[ref], limits) else []
  {
    hide Moves, NewCommits;
    if !IsBaseline(previous, emitBaseline) {
      OnlyMovesTell(repo, ref, Oid(""), previous, live, limits);
      CommitsOnMoves(repo, ref, previous.Refs(), live.entries, |live.entries|, limits);
    } else {
      NoCommitsIn(ref, []);
    }
  }

  /**
   For every branch and commit, the file events of an observation are the first
   changed paths of the commit within the limit, once each and in order, if the
   commit is told on the branch, and none if it is not.
   */
  lemma FileEventsAreTheFirstChanges(repo: Repository, previous: RefSnapshot, live: RefSnapshot, limits: Limits,
                                     emitBaseline: bool, ref: Ref, sha: Oid)
    requires Valid(repo) && Live(repo, live)
    ensures var cs := Candidates(repo, previous, live, limits, emitBaseline);
            FilesOn(ref, sha, cs) ==
            if sha in CommitsOn(ref, cs) then ToldChanges(repo.changes(sha), limits.maxPaths) else []
  {
    hide Moves, CommitRows, NewCommits, Named, ToldChanges;
    var cs := Candidates(repo, previous, live, limits, emitBaseline);
    if !IsBaseline(previous, emitBaseline) {
      forall i | 0 <= i < |live.entries|
        ensures Peel(repo, live.entries[i].id) in repo.graph.parents
      {
        EntriesAreListed(live.entries, |live.entries|, i);
      }
      assert cs == Candidates(repo, previous, live, limits, true);
      OnlyMovesTell(repo, ref, sha, previous, live, limits);
      FilesOnMoves(repo, ref, sha, previous.Refs(), live.entries, |live.entries|, limits);
      CommitsToldOn(repo, previous, live, limits, emitBaseline, ref);
      if sha in CommitsOn(ref, cs) {
        ToldIsCommit(repo, previous.Refs(), ref, live.Refs()[ref], limits, sha);
        RowsAreTheFirst(repo, sha, limits);
      }
    }
  }

  lemma {:induction false} FileIsListed(ref: Ref, sha: Oid, cs: seq<ChangeCandidate>, n: nat, i: nat)
    requires i < n <= |cs| && FileIn(ref, sha, cs[i]) != []
    ensures FilesOnFirst(ref, sha, cs, n) != []
  {
    if i < n - 1 {
      FileIsListed(ref, sha, cs, n - 1, i);
    }
  }

  // ---------------------------------------------------------------------------
  // Events about a commit
  // ---------------------------------------------------------------------------

  /** The commit that an event is about. */
  predicate About(c: ChangeCandidate, sha: Oid) {
    match c.subject
    case OnRef(_) => false
    case OnCommit(commit) => commit == sha
    case OnFile(commit, _) => commit == sha
  }

  /** A branch gains a commit between two snapshots: it moves forward and the commit is new on it. */
  predicate Gains(repo: Repository, previous: RefSnapshot, live: RefSnapshot, ref: Ref, sha: Oid)
    requires Acyclic(repo.graph)
  {
    && ref in live.Refs() && FastForward(repo, previous.Refs(), ref, live.Refs()[ref])
    && sha in Range(repo.graph, Peel(repo, previous.Refs()[ref]), Peel(repo, live.Refs()[ref]))
  }

  /** An event about a commit on a branch means that the branch gained it in that observation. */
  lemma EventsTellGains(repo: Repository, previous: RefSnapshot, live: RefSnapshot, limits: Limits, emitBaseline: bool,
                        c: ChangeCandidate, sha: Oid)
    requires Valid(repo) && Live(repo, live)
    requires c in Candidates(repo, previous, live, limits, emitBaseline) && About(c, sha)
    ensures Gains(repo, previous, live, c.ref, sha)
  {
    hide Candidates, Range, NewCommits, ListsRanges, ToldChanges, Live;
    var cs := Candidates(repo, previous, live, limits, emitBaseline);
    var i :| 0 <= i < |cs| && cs[i] == c;
    LiveIsValid(repo, live);
    CommitsToldOn(repo, previous, live, limits, emitBaseline, c.ref);
    if c.subject.OnCommit? {
      CommitIsListed(c.ref, cs, |cs|, i);
    } else {
      EventsTellCommits(repo, previous, live, limits, emitBaseline, c);
      FileIsListed(c.ref, sha, cs, |cs|, i);
      FileEventsAreTheFirstChanges(repo, previous, live, limits, emitBaseline, c.ref, sha);
    }
    TipIsCommit(repo, live, c.ref);
    NewCommitsOfRange(repo, previous.Refs()[c.ref], live.Refs()[c.ref], limits);
    assert sha in Elems(NewCommits(repo, previous.Refs()[c.ref], live.Refs()[c.ref], limits));
  }

  lemma LiveIsValid(repo: Repository, live: RefSnapshot)
    requires Live(repo, live)
    ensures live.Valid()
  {
  }

  lemma TipIsCommit(repo: Repository, live: RefSnapshot, ref: Ref)
    requires Live(repo, live) && ref in live.Refs()
    ensures Peel(repo, live.Refs()[ref]) in repo.graph.parents
  {
  }

  /** A commit that a branch gains within the limit is told on that branch. */
  lemma GainsAreTold(repo: Repository, previous: RefSnapshot, live: RefSnapshot, limits: Limits, emitBaseline: bool,
                     ref: Ref, sha: Oid)
    requires Valid(repo) && Live(repo, live) && Gains(repo, previous, live, ref, sha)
    requires |Range(repo.graph, Peel(repo, previous.Refs()[ref]), Peel(repo, live.Refs()[ref]))| <= limits.maxCommits
    ensures sha in CommitsOn(ref, Candidates(repo, previous, live, limits, emitBaseline))
  {
    hide Candidates, Range, NewCommits, ListsRanges, Live;
    LiveIsValid(repo, live);
    TipIsCommit(repo, live, ref);
    CommitsToldOn(repo, previous, live, limits, emitBaseline, ref);
    NewCommitsOfRange(repo, previous.Refs()[ref], live.Refs()[ref], limits);
    assert sha in Elems(NewCommits(repo, previous.Refs()[ref], live.Refs()[ref], limits));
  }

  lemma {:induction false} CommitIsListed(ref: Ref, cs: seq<ChangeCandidate>, n: nat, i: nat)
    requires i < n <= |cs| && cs[i].ref == ref && cs[i].subject.OnCommit?
    ensures cs[i].subject.sha in CommitsOnFirst(ref, cs, n)
  {
    if i < n - 1 {
      CommitIsListed(ref, cs, n - 1, i);
    }
  }

  /** A listed commit has its event. */
  lemma {:induction false} ListedHasEvent(ref: Ref, cs: seq<ChangeCandidate>, n: nat, sha: Oid) returns (i: nat)
    requires n <= |cs| && sha in CommitsOnFirst(ref, cs, n)
    ensures i < n && cs[i].ref == ref && cs[i].subject == OnCommit(sha)
  {
    if sha in CommitsOnFirst(ref, cs, n - 1) {
      i := ListedHasEvent(ref, cs, n - 1, sha);
    } else {
      i := n - 1;
    }
  }
}
