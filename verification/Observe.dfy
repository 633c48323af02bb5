/**
 One observation of a repository: the last snapshot of the refs is compared with
 the live refs, and every ref move becomes a bounded list of change candidates.

 Git's answers are assumed to arrive; a commit that is gone from the repository
 is in no ancestry, which is what a failing `merge-base` says of it.
 */
module Observe {
  import opened Seqs
  import opened CommitGraph

  /** A ref name by its namespace: refs/heads/short, refs/tags/short or anything else. */
  datatype Ref = Head(short: string) | TagName(short: string) | Elsewhere(full: string)

  datatype RefType = Branch | Tag | Other

  datatype Action = Created | Updated | Deleted | ForceUpdated | MetadataChanged | Moved

  /** What a candidate is about: a ref, a commit, or one file of a commit. */
  datatype Subject = OnRef(ref: Ref) | OnCommit(sha: Oid) | OnFile(commit: Oid, path: string)

  /** Event details; an absent id stands for the empty string as well. */
  datatype Metadata = Metadata(
    oldSha: Option<Oid>,
    newSha: Option<Oid>,
    commit: Option<Oid>,
    fileStatus: Option<string>,
    merge: bool,
    force: bool,
    parents: Option<nat>)

  datatype ChangeCandidate = ChangeCandidate(
    action: Action,
    subject: Subject,
    ref: Ref,
    refType: RefType,
    version: Oid,
    author: string,
    paths: seq<string>,
    metadata: Metadata)

  datatype Entry = Entry(ref: Ref, id: Oid)

  /** The dictionary that inserting the first `n` entries of a listing gives. */
  function Table(entries: seq<Entry>, n: nat): map<Ref, Oid>
    requires n <= |entries|
  {
    if n == 0 then map[] else Table(entries, n - 1)[entries[n - 1].ref := entries[n - 1].id]
  }

  /** No ref is listed twice among the first `n` entries. */
  ghost predicate Unique(entries: seq<Entry>, n: nat)
    requires n <= |entries|
  {
    n == 0 || (Unique(entries, n - 1) && entries[n - 1].ref !in Table(entries, n - 1))
  }

  /** The last observed ref -> id dictionary, in its insertion order. */
  datatype RefSnapshot = RefSnapshot(entries: seq<Entry>) {
    function Refs(): map<Ref, Oid> {
      Table(entries, |entries|)
    }
    predicate IsEmpty() {
      entries == []
    }
    ghost predicate Valid() {
      Unique(entries, |entries|)
    }
  }

  datatype Limits = Limits(maxCommits: nat, maxPaths: nat)

  const NO_METADATA := Metadata(None, None, None, None, false, false, None)

  function RefTypeOf(ref: Ref): RefType {
    match ref
    case Head(_) => Branch
    case TagName(_) => Tag
    case Elsewhere(_) => Other
  }

  function FileAction(status: string): Action {
    if status == "A" || status == "C" then Created
    else if status == "D" then Deleted
    else if status == "R" then Moved
    else Updated
  }

  /** Only tag refs may hold annotated tag objects; git keeps commits in branches. */
  ghost predicate WellTyped(repo: Repository, s: RefSnapshot) {
    && s.Valid()
    && forall r :: r in s.Refs() && RefTypeOf(r) != Tag ==> s.Refs()[r] !in repo.tagObjects
  }

  ghost predicate Live(repo: Repository, s: RefSnapshot) {
    && WellTyped(repo, s)
    && forall r :: r in s.Refs() ==> Peel(repo, s.Refs()[r]) in repo.graph.parents
  }

  // ---------------------------------------------------------------------------
  // The candidates of each kind of ref move
  // ---------------------------------------------------------------------------

  function FirstCode(status: string): string {
    Take(status, 1)
  }

  /** What a bounded scan of `diff-tree` output still keeps from row `i` on. */
  function BoundedRows(rows: seq<Change>, i: nat, maxPaths: nat, kept: nat): seq<Change>
    requires i <= |rows|
    decreases |rows| - i
  {
    if i == |rows| then []
    else if rows[i].path == "" then
      if kept >= maxPaths then [] else BoundedRows(rows, i + 1, maxPaths, kept)
    else
      var row := Change(FirstCode(rows[i].status), rows[i].path);
      [row] + if kept + 1 >= maxPaths then [] else BoundedRows(rows, i + 1, maxPaths, kept + 1)
  }

  function PathsOf(rows: seq<Change>): seq<string> {
    seq(|rows|, i requires 0 <= i < |rows| => rows[i].path)
  }

  function CommitRows(repo: Repository, o: Oid, limits: Limits): seq<Change> {
    BoundedRows(repo.changes(Peel(repo, o)), 0, limits.maxPaths, 0)
  }

  function DeletedRef(ref: Ref, old': Oid): ChangeCandidate {
    ChangeCandidate(Deleted, OnRef(ref), ref, RefTypeOf(ref), old', "", [],
                    NO_METADATA.(oldSha := Some(old')))
  }

  function CreatedRef(repo: Repository, ref: Ref, new': Oid, tipRows: seq<Change>): ChangeCandidate {
    ChangeCandidate(Created, OnRef(ref), ref, RefTypeOf(ref), new', repo.author(Peel(repo, new')),
                    PathsOf(tipRows),
                    NO_METADATA.(newSha := Some(new'), commit := Some(new')))
  }

  function RepointedTag(repo: Repository, ref: Ref, old': Oid, new': Oid, forced: bool): ChangeCandidate {
    ChangeCandidate(if forced then ForceUpdated else MetadataChanged, OnRef(ref), ref, RefTypeOf(ref), new',
                    repo.author(Peel(repo, new')), [],
                    NO_METADATA.(oldSha := Some(old'), newSha := Some(new'), force := forced))
  }

  function ForcedRef(repo: Repository, ref: Ref, old': Oid, new': Oid, tipRows: seq<Change>): ChangeCandidate {
    ChangeCandidate(ForceUpdated, OnRef(ref), ref, RefTypeOf(ref), new', repo.author(Peel(repo, new')),
                    PathsOf(tipRows),
                    NO_METADATA.(oldSha := Some(old'), newSha := Some(new'), force := true))
  }

  function ParentCount(repo: Repository, sha: Oid): nat {
    if sha in repo.graph.parents then |repo.graph.parents[sha]| else 1
  }

  function CommitCandidate(repo: Repository, ref: Ref, sha: Oid, new': Oid, rows: seq<Change>): ChangeCandidate {
    ChangeCandidate(Updated, OnCommit(sha), ref, RefTypeOf(ref), sha, repo.author(sha), PathsOf(rows),
                    NO_METADATA.(newSha := Some(new'), commit := Some(sha),
                    merge := ParentCount(repo, sha) > 1, parents := Some(ParentCount(repo, sha))))
  }

  function FileCandidate(repo: Repository, ref: Ref, sha: Oid, row: Change): ChangeCandidate {
    ChangeCandidate(FileAction(row.status), OnFile(sha, row.path), ref, RefTypeOf(ref), sha, repo.author(sha),
                    [row.path],
                    NO_METADATA.(commit := Some(sha), fileStatus := Some(row.status),
                    merge := ParentCount(repo, sha) > 1))
  }

  /** The file candidates of the first `n` rows. */
  function FileCandidates(repo: Repository, ref: Ref, sha: Oid, rows: seq<Change>, n: nat): (r: seq<ChangeCandidate>)
    requires n <= |rows|
    ensures |r| == n
    ensures forall c :: c in r ==> c.subject.OnFile?
  {
    if n == 0 then [] else FileCandidates(repo, ref, sha, rows, n - 1) + [FileCandidate(repo, ref, sha, rows[n - 1])]
  }

  function OneCommit(repo: Repository, ref: Ref, new': Oid, sha: Oid, limits: Limits): seq<ChangeCandidate> {
    var rows := CommitRows(repo, sha, limits);
    [CommitCandidate(repo, ref, sha, new', rows)] + FileCandidates(repo, ref, sha, rows, |rows|)
  }

  /** The first `n` of a list of commits on one ref: each commit, then its files. */
  function PerCommit(repo: Repository, ref: Ref, new': Oid, shas: seq<Oid>, n: nat,
                     limits: Limits): seq<ChangeCandidate>
    requires n <= |shas|
  {
    if n == 0 then []
    else PerCommit(repo, ref, new', shas, n - 1, limits) + OneCommit(repo, ref, new', shas[n - 1], limits)
  }

  /** `rev-list --max-count=n new ^old`, oldest first. */
  function NewCommits(repo: Repository, old': Oid, new': Oid, limits: Limits): seq<Oid> {
    Reverse(Take(repo.revList(Peel(repo, old'), Peel(repo, new')), limits.maxCommits))
  }

  function Advance(repo: Repository, ref: Ref, old': Oid, new': Oid, limits: Limits): seq<ChangeCandidate> {
    var shas := NewCommits(repo, old', new', limits);
    PerCommit(repo, ref, new', shas, |shas|, limits)
  }

  /** What one live ref contributes, given the id it had in the last snapshot. */
  function RefCandidates(repo: Repository, ref: Ref, old': Option<Oid>, new': Oid, limits: Limits): seq<ChangeCandidate>
    requires Acyclic(repo.graph)
  {
    match old'
    case None => [CreatedRef(repo, ref, new', CommitRows(repo, new', limits))]
    case Some(o) =>
      if o == new' then []
      else if RefTypeOf(ref) == Tag then [RepointedTag(repo, ref, o, new', !IsAncestor(repo, o, new'))]
      else if !IsAncestor(repo, o, new') then [ForcedRef(repo, ref, o, new', CommitRows(repo, new', limits))]
      else Advance(repo, ref, o, new', limits)
  }

  function Before(refs: map<Ref, Oid>, ref: Ref): Option<Oid> {
    if ref in refs then Some(refs[ref]) else None
  }

  /** What the loop over the old refs has emitted after `n` rounds. */
  function Deletions(old': seq<Entry>, live: map<Ref, Oid>, n: nat): (r: seq<ChangeCandidate>)
    requires n <= |old'|
    ensures forall c :: c in r ==> c.subject.OnRef?
  {
    if n == 0 then []
    else
      var e := old'[n - 1];
      Deletions(old', live, n - 1) + if e.ref in live then [] else [DeletedRef(e.ref, e.id)]
  }

  /** What the loop over the live refs has emitted after `n` rounds. */
  function Moves(repo: Repository, previous: map<Ref, Oid>, live: seq<Entry>, n: nat, limits: Limits)
    : seq<ChangeCandidate>
    requires Acyclic(repo.graph) && n <= |live|
  {
    if n == 0 then []
    else
      var e := live[n - 1];
      Moves(repo, previous, live, n - 1, limits) + RefCandidates(repo, e.ref, Before(previous, e.ref), e.id, limits)
  }

  predicate IsBaseline(previous: RefSnapshot, emitBaseline: bool) {
    previous.IsEmpty() && !emitBaseline
  }

  /** All candidates of one observation, in the order in which they are emitted. */
  function Candidates(repo: Repository, previous: RefSnapshot, live: RefSnapshot, limits: Limits, emitBaseline: bool)
    : seq<ChangeCandidate>
    requires Acyclic(repo.graph)
  {
    if IsBaseline(previous, emitBaseline) then []
    else
      Deletions(previous.entries, live.Refs(), |previous.entries|)
      + Moves(repo, previous.Refs(), live.entries, |live.entries|, limits)
  }

  // ---------------------------------------------------------------------------
  // The observation itself
  // ---------------------------------------------------------------------------

  method CommitPaths(repo: Repository, o: Oid, limits: Limits) returns (rows: seq<Change>)
    ensures rows == CommitRows(repo, o, limits)
  {
    hide FirstCode;
    rows := [];
    var lines, max := repo.changes(Peel(repo, o)), limits.maxPaths;
    ghost var goal := BoundedRows(lines, 0, max, 0);
    var i := 0;
    while i < |lines|
      invariant 0 <= i <= |lines|
      invariant goal == rows + BoundedRows(lines, i, max, |rows|)
    {
      ghost var before := rows;
      if lines[i].path != "" {
        rows := rows + [Change(FirstCode(lines[i].status), lines[i].path)];
      }
      ghost var rest := if |rows| >= max then [] else BoundedRows(lines, i + 1, max, |rows|);
      assert BoundedRows(lines, i, max, |before|) == rows[|before|..] + rest;
      assert goal == rows + rest;
      if |rows| >= max {
        break;
      }
      i := i + 1;
    }
  }

  method FilesOf(repo: Repository, ref: Ref, sha: Oid, rows: seq<Change>) returns (out: seq<ChangeCandidate>)
    ensures out == FileCandidates(repo, ref, sha, rows, |rows|)
  {
    out := [];
    for k := 0 to |rows|
      invariant out == FileCandidates(repo, ref, sha, rows, k)
    {
      out := out + [FileCandidate(repo, ref, sha, rows[k])];
    }
  }

  method CommitWithFiles(repo: Repository, ref: Ref, new': Oid, sha: Oid, limits: Limits)
    returns (out: seq<ChangeCandidate>)
    ensures out == OneCommit(repo, ref, new', sha, limits)
  {
    var rows := CommitPaths(repo, sha, limits);
    var files := FilesOf(repo, ref, sha, rows);
    out := [CommitCandidate(repo, ref, sha, new', rows)] + files;
  }

  method CommitCandidates(repo: Repository, ref: Ref, old': Oid, new': Oid, limits: Limits)
    returns (out: seq<ChangeCandidate>)
    ensures out == Advance(repo, ref, old', new', limits)
  {
    hide OneCommit, NewCommits;
    out := [];
    var shas := NewCommits(repo, old', new', limits);
    for i := 0 to |shas|
      invariant out == PerCommit(repo, ref, new', shas, i, limits)
    {
      var one := CommitWithFiles(repo, ref, new', shas[i], limits);
      out := out + one;
    }
  }

  method DeletedRefs(previous: RefSnapshot, live: map<Ref, Oid>) returns (out: seq<ChangeCandidate>)
    ensures out == Deletions(previous.entries, live, |previous.entries|)
  {
    out := [];
    for i := 0 to |previous.entries|
      invariant out == Deletions(previous.entries, live, i)
    {
      var e := previous.entries[i];
      if e.ref in live {
        continue;
      }
      out := out + [DeletedRef(e.ref, e.id)];
    }
  }

  method MovedRef(repo: Repository, previous: map<Ref, Oid>, ref: Ref, new': Oid, limits: Limits)
    returns (out: seq<ChangeCandidate>)
    requires Acyclic(repo.graph)
    ensures out == RefCandidates(repo, ref, Before(previous, ref), new', limits)
  {
    if ref !in previous {
      var tipRows := CommitPaths(repo, new', limits);
      return [CreatedRef(repo, ref, new', tipRows)];
    }
    var old' := previous[ref];
    if old' == new' {
      return [];
    }
    var forced := !IsAncestor(repo, old', new');
    if RefTypeOf(ref) == Tag {
      return [RepointedTag(repo, ref, old', new', forced)];
    }
    if forced {
      var tipRows := CommitPaths(repo, new', limits);
      return [ForcedRef(repo, ref, old', new', tipRows)];
    }
    out := CommitCandidates(repo, ref, old', new', limits);
  }

  method MovedRefs(repo: Repository, previous: map<Ref, Oid>, live: seq<Entry>, limits: Limits)
    returns (out: seq<ChangeCandidate>)
    requires Acyclic(repo.graph)
    ensures out == Moves(repo, previous, live, |live|, limits)
  {
    out := [];
    for i := 0 to |live|
      invariant out == Moves(repo, previous, live, i, limits)
    {
      var moved := MovedRef(repo, previous, live[i].ref, live[i].id, limits);
      out := out + moved;
    }
  }

  method ObserveRefs(repo: Repository, previous: RefSnapshot, live: RefSnapshot, limits: Limits, emitBaseline: bool)
    returns (candidates: seq<ChangeCandidate>, snapshot: RefSnapshot)
    requires Acyclic(repo.graph)
    ensures candidates == Candidates(repo, previous, live, limits, emitBaseline)
    ensures snapshot == live
  {
    if previous.IsEmpty() && !emitBaseline {
      return [], live;
    }
    var deleted := DeletedRefs(previous, live.Refs());
    var moved := MovedRefs(repo, previous.Refs(), live.entries, limits);
    return deleted + moved, live;
  }
}
