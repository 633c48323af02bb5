/**
 What a consumer may conclude from the candidates of one observation, and of a
 whole run of them: the ref map can be rebuilt, no commit is told twice, and the
 work is bounded.
 */
module ObserveLaws {
  import opened Seqs
  import opened CommitGraph
  import opened Observe

  // ---------------------------------------------------------------------------
  // Rebuilding the refs from the event stream
  // ---------------------------------------------------------------------------

  /** A consumer's ref map after one event: file events say nothing about refs. */
  function Apply(refs: map<Ref, Oid>, c: ChangeCandidate): map<Ref, Oid> {
    match c.subject
    case OnRef(ref) => if c.action == Deleted then refs - {ref} else refs[ref := c.version]
    case OnCommit(_) => if c.metadata.newSha.Some? then refs[c.ref := c.metadata.newSha.value] else refs
    case OnFile(_, _) => refs
  }

  /** The consumer's map after the first `n` events. */
  function ReplayFirst(refs: map<Ref, Oid>, cs: seq<ChangeCandidate>, n: nat): map<Ref, Oid>
    requires n <= |cs|
  {
    if n == 0 then refs else Apply(ReplayFirst(refs, cs, n - 1), cs[n - 1])
  }

  function Replay(refs: map<Ref, Oid>, cs: seq<ChangeCandidate>): map<Ref, Oid> {
    ReplayFirst(refs, cs, |cs|)
  }

  lemma {:induction false} ReplayPrefix(refs: map<Ref, Oid>, a: seq<ChangeCandidate>, b: seq<ChangeCandidate>, n: nat)
    requires n <= |a|
    ensures ReplayFirst(refs, a + b, n) == ReplayFirst(refs, a, n)
  {
    if n > 0 {
      ReplayPrefix(refs, a, b, n - 1);
    }
  }

  lemma {:induction false} ReplaySuffix(refs: map<Ref, Oid>, a: seq<ChangeCandidate>, b: seq<ChangeCandidate>, n: nat)
    requires n <= |b|
    ensures ReplayFirst(refs, a + b, |a| + n) == ReplayFirst(Replay(refs, a), b, n)
  {
    if n == 0 {
      ReplayPrefix(refs, a, b, |a|);
    } else {
      ReplaySuffix(refs, a, b, n - 1);
    }
  }

  lemma ReplayAppend(refs: map<Ref, Oid>, a: seq<ChangeCandidate>, b: seq<ChangeCandidate>)
    ensures Replay(refs, a + b) == Replay(Replay(refs, a), b)
  {
    ReplaySuffix(refs, a, b, |b|);
  }

  lemma ReplayOne(refs: map<Ref, Oid>, c: ChangeCandidate)
    ensures Replay(refs, [c]) == Apply(refs, c)
  {
    assert ReplayFirst(refs, [c], 0) == refs;
    assert ReplayFirst(refs, [c], 1) == Apply(refs, c);
  }

  lemma ReplayNone(refs: map<Ref, Oid>)
    ensures Replay(refs, []) == refs
  {
  }

  lemma {:induction false} FileEventsLeaveRefs(refs: map<Ref, Oid>, cs: seq<ChangeCandidate>, n: nat)
    requires n <= |cs| && forall c :: c in cs ==> c.subject.OnFile?
    ensures ReplayFirst(refs, cs, n) == refs
  {
    if n > 0 {
      FileEventsLeaveRefs(refs, cs, n - 1);
    }
  }

  lemma OneCommitMovesRef(repo: Repository, ref: Ref, new': Oid, sha: Oid, limits: Limits, refs: map<Ref, Oid>)
    ensures Replay(refs, OneCommit(repo, ref, new', sha, limits)) == refs[ref := new']
  {
    var rows := CommitRows(repo, sha, limits);
    var c, files := CommitCandidate(repo, ref, sha, new', rows), FileCandidates(repo, ref, sha, rows, |rows|);
    ReplayAppend(refs, [c], files);
    ReplayOne(refs, c);
    FileEventsLeaveRefs(Replay(refs, [c]), files, |files|);
  }

  lemma {:induction false} CommitsMoveRef(repo: Repository, ref: Ref, new': Oid, shas: seq<Oid>, n: nat, limits: Limits,
                                          refs: map<Ref, Oid>)
    requires n <= |shas|
    ensures Replay(refs, PerCommit(repo, ref, new', shas, n, limits)) == if n == 0 then refs else refs[ref := new']
  {
    hide OneCommit;
    if n > 0 {
      var head, one := PerCommit(repo, ref, new', shas, n - 1, limits), OneCommit(repo, ref, new', shas[n - 1], limits);
      CommitsMoveRef(repo, ref, new', shas, n - 1, limits, refs);
      ReplayAppend(refs, head, one);
      OneCommitMovesRef(repo, ref, new', shas[n - 1], limits, Replay(refs, head));
      assert refs[ref := new'][ref := new'] == refs[ref := new'];
    }
  }

  /** A branch that moves forward along history. */
  predicate FastForward(repo: Repository, previous: map<Ref, Oid>, ref: Ref, new': Oid)
    requires Acyclic(repo.graph)
  {
    ref in previous && previous[ref] != new' && RefTypeOf(ref) != Tag && IsAncestor(repo, previous[ref], new')
  }

  /** A ref whose move was cut away altogether. */
  predicate Untold(repo: Repository, previous: map<Ref, Oid>, ref: Ref, new': Oid, limits: Limits)
    requires Acyclic(repo.graph)
  {
    limits.maxCommits == 0 && FastForward(repo, previous, ref, new')
  }

  /** The two ways in which a move leaves no trace in the stream. */
  predicate Silent(repo: Repository, previous: RefSnapshot, live: RefSnapshot, limits: Limits, emitBaseline: bool)
    requires Acyclic(repo.graph)
  {
    || (previous.entries == [] && !emitBaseline && live.entries != [])
    || exists r | r in live.Refs() :: Untold(repo, previous.Refs(), r, live.Refs()[r], limits)
  }

  /** Acyclicity: the new tip of a branch that moved is itself a new commit. */
  lemma AdvanceIsListed(repo: Repository, old': Oid, new': Oid, limits: Limits)
    requires Valid(repo) && old' != new' && old' in Reach(repo.graph, new')
    ensures NewCommits(repo, old', new', limits) == [] <==> limits.maxCommits == 0
  {
    ReachGoesDown(repo.graph, old', new');
    if new' in Reach(repo.graph, old') {
      ReachIsAntisymmetric(repo.graph, old', new');
    }
    var listed := repo.revList(old', new');
    assert new' in Elems(listed);
    if limits.maxCommits > 0 {
      ReverseAt(Take(listed, limits.maxCommits), 0);
    }
  }

  /** The ids that branches hold on both sides of an observation are commits. */
  ghost predicate HoldsCommits(repo: Repository, refs: map<Ref, Oid>) {
    forall r :: r in refs && RefTypeOf(r) != Tag ==> refs[r] !in repo.tagObjects
  }

  lemma RefReplay(repo: Repository, previous: map<Ref, Oid>, r: Ref, new': Oid, limits: Limits, refs: map<Ref, Oid>)
    requires Valid(repo) && HoldsCommits(repo, previous)
    requires RefTypeOf(r) != Tag ==> new' !in repo.tagObjects
    requires r in previous ==> r in refs && refs[r] == previous[r]
    ensures Replay(refs, RefCandidates(repo, r, Before(previous, r), new', limits)) ==
            if Untold(repo, previous, r, new', limits) then refs else refs[r := new']
  {
    var cs := RefCandidates(repo, r, Before(previous, r), new', limits);
    if FastForward(repo, previous, r, new') {
      AdvanceIsListed(repo, previous[r], new', limits);
      var shas := NewCommits(repo, previous[r], new', limits);
      CommitsMoveRef(repo, r, new', shas, |shas|, limits, refs);
    } else if r in previous && previous[r] == new' {
      assert refs[r := new'] == refs;
    } else {
      ReplayOne(refs, cs[0]);
      assert cs == [cs[0]];
    }
  }

  /** `after` is `refs` without the names of `done` that are not live. */
  ghost predicate Pruned(live: map<Ref, Oid>, refs: map<Ref, Oid>, done: map<Ref, Oid>, after: map<Ref, Oid>) {
    && (forall r :: r in after <==> r in refs && (r in done ==> r in live))
    && (forall r :: r in after ==> after[r] == refs[r])
  }

  lemma {:induction false} DeletionsReplay(old': seq<Entry>, live: map<Ref, Oid>, n: nat, refs: map<Ref, Oid>)
    requires n <= |old'|
    ensures Pruned(live, refs, Table(old', n), Replay(refs, Deletions(old', live, n)))
  {
    if n > 0 {
      var head := Deletions(old', live, n - 1);
      DeletionsReplay(old', live, n - 1, refs);
      if old'[n - 1].ref in live {
        assert head + [] == head;
      } else {
        ReplayAppend(refs, head, [DeletedRef(old'[n - 1].ref, old'[n - 1].id)]);
        ReplayOne(Replay(refs, head), DeletedRef(old'[n - 1].ref, old'[n - 1].id));
      }
    }
  }

  /** `refs` brought up to date with the live refs of `done`, as far as they are told. */
  ghost predicate Updated(repo: Repository, previous: map<Ref, Oid>, limits: Limits, refs: map<Ref, Oid>,
                          done: map<Ref, Oid>, after: map<Ref, Oid>)
    requires Acyclic(repo.graph)
  {
    && (forall r :: r in after <==> r in refs || r in done)
    && (forall r :: r in done && !Untold(repo, previous, r, done[r], limits) ==> after[r] == done[r])
    && (forall r :: r in done && Untold(repo, previous, r, done[r], limits) ==> r in refs && after[r] == refs[r])
    && (forall r :: r in refs && r !in done ==> after[r] == refs[r])
  }

  lemma UpdatedStep(repo: Repository, previous: map<Ref, Oid>, limits: Limits, refs: map<Ref, Oid>,
                    done: map<Ref, Oid>, mid: map<Ref, Oid>, e: Entry)
    requires Acyclic(repo.graph) && Updated(repo, previous, limits, refs, done, mid) && e.ref !in done
    requires Untold(repo, previous, e.ref, e.id, limits) ==> e.ref in refs
    ensures Updated(repo, previous, limits, refs, done[e.ref := e.id],
                    if Untold(repo, previous, e.ref, e.id, limits) then mid else mid[e.ref := e.id])
  {
    hide Untold;
  }

  lemma {:induction false} MovesReplay(repo: Repository, previous: map<Ref, Oid>, live: seq<Entry>, n: nat,
                                       limits: Limits, refs: map<Ref, Oid>)
    requires Valid(repo) && n <= |live| && Unique(live, n)
    requires HoldsCommits(repo, previous) && HoldsCommits(repo, Table(live, n))
    requires forall r :: r in Table(live, n) && r in previous ==> r in refs && refs[r] == previous[r]
    ensures Updated(repo, previous, limits, refs, Table(live, n),
                    Replay(refs, Moves(repo, previous, live, n, limits)))
  {
    hide RefCandidates, Replay;
    if n > 0 {
      var e := live[n - 1];
      var head := Moves(repo, previous, live, n - 1, limits);
      assert forall r :: r in Table(live, n - 1) ==> Table(live, n)[r] == Table(live, n - 1)[r];
      assert Table(live, n)[e.ref] == e.id;
      MovesReplay(repo, previous, live, n - 1, limits, refs);
      ReplayAppend(refs, head, RefCandidates(repo, e.ref, Before(previous, e.ref), e.id, limits));
      RefReplay(repo, previous, e.ref, e.id, limits, Replay(refs, head));
      UpdatedStep(repo, previous, limits, refs, Table(live, n - 1), Replay(refs, head), e);
    } else {
      ReplayNone(refs);
    }
  }

  lemma ReplayAfterObservation(repo: Repository, previous: RefSnapshot, live: RefSnapshot, limits: Limits,
                               emitBaseline: bool)
    requires Valid(repo) && WellTyped(repo, previous) && Live(repo, live) && !IsBaseline(previous, emitBaseline)
    ensures var kept := map r | r in previous.Refs() && r in live.Refs() :: previous.Refs()[r];
            Updated(repo, previous.Refs(), limits, kept, live.Refs(),
                    Replay(previous.Refs(), Candidates(repo, previous, live, limits, emitBaseline)))
  {
    var deletions := Deletions(previous.entries, live.Refs(), |previous.entries|);
    ReplayAppend(previous.Refs(), deletions, Moves(repo, previous.Refs(), live.entries, |live.entries|, limits));
    DeletionsReplay(previous.entries, live.Refs(), |previous.entries|, previous.Refs());
    var kept := map r | r in previous.Refs() && r in live.Refs() :: previous.Refs()[r];
    assert Replay(previous.Refs(), deletions) == kept;
    MovesReplay(repo, previous.Refs(), live.entries, |live.entries|, limits, kept);
  }

  /**
   The stream is a faithful delta: replayed over the last snapshot it gives the
   live refs, exactly when the observation was not silent about a move.
   */
  lemma ReplayRebuildsLiveRefs(repo: Repository, previous: RefSnapshot, live: RefSnapshot, limits: Limits,
                               emitBaseline: bool)
    requires Valid(repo) && WellTyped(repo, previous) && Live(repo, live)
    ensures Replay(previous.Refs(), Candidates(repo, previous, live, limits, emitBaseline)) == live.Refs()
            <==> !Silent(repo, previous, live, limits, emitBaseline)
  {
    if IsBaseline(previous, emitBaseline) {
      if live.entries != [] {
        assert live.entries[|live.entries| - 1].ref in live.Refs();
      }
    } else {
      ReplayAfterObservation(repo, previous, live, limits, emitBaseline);
      var after := Replay(previous.Refs(), Candidates(repo, previous, live, limits, emitBaseline));
      if r :| r in live.Refs() && Untold(repo, previous.Refs(), r, live.Refs()[r], limits) {
        assert after[r] == previous.Refs()[r];
      }
    }
  }

  /** For instance, what a branch shows after a time without any refs is taken as a baseline and lost. */
  lemma RefsAfterNoneAreLost(repo: Repository, limits: Limits, tip: Oid)
    requires Valid(repo) && tip in repo.graph.parents
    ensures var none, main := RefSnapshot([]), RefSnapshot([Entry(Head("main"), tip)]);
            Replay(none.Refs(), Candidates(repo, none, main, limits, false)) != main.Refs()
  {
    var main := RefSnapshot([Entry(Head("main"), tip)]);
    assert Table(main.entries, 1)[Head("main")] == tip;
  }

  /** The snapshots that a run of observations sees, one after another. */
  ghost predicate IsRun(repo: Repository, lives: seq<RefSnapshot>) {
    |lives| > 0 && forall n :: 0 <= n < |lives| ==> Live(repo, lives[n])
  }

  /** All candidates of the first `n` observations after the one that saw `lives[0]`. */
  function Stream(repo: Repository, lives: seq<RefSnapshot>, n: nat, limits: Limits, emitBaseline: bool)
    : seq<ChangeCandidate>
    requires Acyclic(repo.graph) && n < |lives|
  {
    if n == 0 then []
    else Stream(repo, lives, n - 1, limits, emitBaseline)
         + Candidates(repo, lives[n - 1], lives[n], limits, emitBaseline)
  }

  /** After `n` observations the consumer's map is the repository's. */
  predicate InStep(repo: Repository, lives: seq<RefSnapshot>, n: nat, limits: Limits, emitBaseline: bool)
    requires Acyclic(repo.graph) && n < |lives|
  {
    Replay(lives[0].Refs(), Stream(repo, lives, n, limits, emitBaseline)) == lives[n].Refs()
  }

  lemma StepStaysInStep(repo: Repository, lives: seq<RefSnapshot>, n: nat, limits: Limits, emitBaseline: bool)
    requires Valid(repo) && IsRun(repo, lives) && 0 < n < |lives|
    requires InStep(repo, lives, n - 1, limits, emitBaseline)
    ensures InStep(repo, lives, n, limits, emitBaseline)
            <==> !Silent(repo, lives[n - 1], lives[n], limits, emitBaseline)
  {
    ReplayAppend(lives[0].Refs(), Stream(repo, lives, n - 1, limits, emitBaseline),
                 Candidates(repo, lives[n - 1], lives[n], limits, emitBaseline));
    ReplayRebuildsLiveRefs(repo, lives[n - 1], lives[n], limits, emitBaseline);
  }

  lemma {:induction false} LoudRunStaysInStep(repo: Repository, lives: seq<RefSnapshot>, n: nat, limits: Limits,
                                              emitBaseline: bool)
    requires Valid(repo) && IsRun(repo, lives) && n < |lives|
    requires forall i :: 0 < i < |lives| ==> !Silent(repo, lives[i - 1], lives[i], limits, emitBaseline)
    ensures InStep(repo, lives, n, limits, emitBaseline)
  {
    if n > 0 {
      LoudRunStaysInStep(repo, lives, n - 1, limits, emitBaseline);
      StepStaysInStep(repo, lives, n, limits, emitBaseline);
    }
  }

  /**
   Whole runs: the replayed stream agrees with the repository after every single
   observation exactly when no observation of the run was silent. A run that
   passes through an empty snapshot is silent about the refs that come next.
   */
  lemma ReplayFollowsRun(repo: Repository, lives: seq<RefSnapshot>, limits: Limits, emitBaseline: bool)
    requires Valid(repo) && IsRun(repo, lives)
    ensures (forall n :: 0 <= n < |lives| ==> InStep(repo, lives, n, limits, emitBaseline))
            <==> (forall i :: 0 < i < |lives| ==> !Silent(repo, lives[i - 1], lives[i], limits, emitBaseline))
  {
    if forall i :: 0 < i < |lives| ==> !Silent(repo, lives[i - 1], lives[i], limits, emitBaseline) {
      forall n | 0 <= n < |lives|
        ensures InStep(repo, lives, n, limits, emitBaseline)
      {
        LoudRunStaysInStep(repo, lives, n, limits, emitBaseline);
      }
    } else {
      var i :| 0 < i < |lives| && Silent(repo, lives[i - 1], lives[i], limits, emitBaseline);
      if InStep(repo, lives, i - 1, limits, emitBaseline) {
        StepStaysInStep(repo, lives, i, limits, emitBaseline);
      }
    }
  }

  // ---------------------------------------------------------------------------
  // Commits are told once
  // ---------------------------------------------------------------------------

  function CommitIn(ref: Ref, c: ChangeCandidate): seq<Oid> {
    if c.ref == ref && c.subject.OnCommit? then [c.subject.sha] else []
  }

  /** The commit-level candidates of one ref among the first `n`, in order. */
  function CommitsOnFirst(ref: Ref, cs: seq<ChangeCandidate>, n: nat): seq<Oid>
    requires n <= |cs|
  {
    if n == 0 then [] else CommitsOnFirst(ref, cs, n - 1) + CommitIn(ref, cs[n - 1])
  }

  function CommitsOn(ref: Ref, cs: seq<ChangeCandidate>): seq<Oid> {
    CommitsOnFirst(ref, cs, |cs|)
  }

  lemma {:induction false} CommitsOnPrefix(ref: Ref, a: seq<ChangeCandidate>, b: seq<ChangeCandidate>, n: nat)
    requires n <= |a|
    ensures CommitsOnFirst(ref, a + b, n) == CommitsOnFirst(ref, a, n)
  {
    if n > 0 {
      CommitsOnPrefix(ref, a, b, n - 1);
    }
  }

  lemma {:induction false} CommitsOnSuffix(ref: Ref, a: seq<ChangeCandidate>, b: seq<ChangeCandidate>, n: nat)
    requires n <= |b|
    ensures CommitsOnFirst(ref, a + b, |a| + n) == CommitsOn(ref, a) + CommitsOnFirst(ref, b, n)
  {
    if n == 0 {
      CommitsOnPrefix(ref, a, b, |a|);
    } else {
      CommitsOnSuffix(ref, a, b, n - 1);
    }
  }

  lemma CommitsOnAppend(ref: Ref, a: seq<ChangeCandidate>, b: seq<ChangeCandidate>)
    ensures CommitsOn(ref, a + b) == CommitsOn(ref, a) + CommitsOn(ref, b)
  {
    CommitsOnSuffix(ref, a, b, |b|);
  }

  lemma {:induction false} NoCommitsInFirst(ref: Ref, cs: seq<ChangeCandidate>, n: nat)
    requires n <= |cs| && forall c :: c in cs ==> !c.subject.OnCommit?
    ensures CommitsOnFirst(ref, cs, n) == []
  {
    if n > 0 {
      NoCommitsInFirst(ref, cs, n - 1);
    }
  }

  lemma NoCommitsIn(ref: Ref, cs: seq<ChangeCandidate>)
    requires forall c :: c in cs ==> !c.subject.OnCommit?
    ensures CommitsOn(ref, cs) == []
  {
    NoCommitsInFirst(ref, cs, |cs|);
  }

  lemma CommitsOnOneCommit(repo: Repository, on: Ref, ref: Ref, new': Oid, sha: Oid, limits: Limits)
    ensures CommitsOn(on, OneCommit(repo, ref, new', sha, limits)) == if on == ref then [sha] else []
  {
    var rows := CommitRows(repo, sha, limits);
    var c, files := CommitCandidate(repo, ref, sha, new', rows), FileCandidates(repo, ref, sha, rows, |rows|);
    CommitsOnAppend(on, [c], files);
    assert CommitsOnFirst(on, [c], 0) == [];
    assert CommitsOnFirst(on, [c], 1) == CommitIn(on, c);
    NoCommitsIn(on, files);
  }

  lemma {:induction false} CommitsOnPerCommit(repo: Repository, on: Ref, ref: Ref, new': Oid, shas: seq<Oid>, n: nat,
                                              limits: Limits)
    requires n <= |shas|
    ensures CommitsOn(on, PerCommit(repo, ref, new', shas, n, limits)) == if on == ref then shas[..n] else []
  {
    hide OneCommit, CommitsOn;
    if n == 0 {
      assert CommitsOn(on, []) == [] by {
        NoCommitsIn(on, []);
      }
    } else {
      CommitsOnPerCommit(repo, on, ref, new', shas, n - 1, limits);
      assert shas[..n] == shas[..n - 1] + [shas[n - 1]];
      CommitsOnAppend(on, PerCommit(repo, ref, new', shas, n - 1, limits),
                      OneCommit(repo, ref, new', shas[n - 1], limits));
      CommitsOnOneCommit(repo, on, ref, new', shas[n - 1], limits);
    }
  }

  lemma CommitsOnRef(repo: Repository, on: Ref, previous: map<Ref, Oid>, ref: Ref, new': Oid, limits: Limits)
    requires Acyclic(repo.graph)
    ensures CommitsOn(on, RefCandidates(repo, ref, Before(previous, ref), new', limits)) ==
            if on == ref && FastForward(repo, previous, ref, new') then NewCommits(repo, previous[ref], new', limits)
            else []
  {
    if FastForward(repo, previous, ref, new') {
      var shas := NewCommits(repo, previous[ref], new', limits);
      CommitsOnPerCommit(repo, on, ref, new', shas, |shas|, limits);
      assert shas[..|shas|] == shas;
    } else {
      NoCommitsIn(on, RefCandidates(repo, ref, Before(previous, ref), new', limits));
    }
  }

  lemma {:induction false} CommitsOnMoves(repo: Repository, on: Ref, previous: map<Ref, Oid>, live: seq<Entry>, n: nat,
                                          limits: Limits)
    requires Acyclic(repo.graph) && n <= |live| && Unique(live, n)
    ensures CommitsOn(on, Moves(repo, previous, live, n, limits)) ==
            if on in Table(live, n) && FastForward(repo, previous, on, Table(live, n)[on])
            then NewCommits(repo, previous[on], Table(live, n)[on], limits) else []
  {
    if n > 0 {
      var e := live[n - 1];
      CommitsOnMoves(repo, on, previous, live, n - 1, limits);
      CommitsOnAppend(on, Moves(repo, previous, live, n - 1, limits),
                      RefCandidates(repo, e.ref, Before(previous, e.ref), e.id, limits));
      CommitsOnRef(repo, on, previous, e.ref, e.id, limits);
    }
  }

  lemma CommitsOnObservation(repo: Repository, on: Ref, previous: RefSnapshot, live: RefSnapshot, limits: Limits,
                             emitBaseline: bool)
    requires Acyclic(repo.graph) && live.Valid() && on in previous.Refs() && on in live.Refs()
    ensures CommitsOn(on, Candidates(repo, previous, live, limits, emitBaseline)) ==
            if FastForward(repo, previous.Refs(), on, live.Refs()[on])
            then NewCommits(repo, previous.Refs()[on], live.Refs()[on], limits) else []
  {
    var deletions := Deletions(previous.entries, live.Refs(), |previous.entries|);
    NoCommitsIn(on, deletions);
    CommitsOnAppend(on, deletions, Moves(repo, previous.Refs(), live.entries, |live.entries|, limits));
    CommitsOnMoves(repo, on, previous.Refs(), live.entries, |live.entries|, limits);
  }

  lemma StepCommits(repo: Repository, from: RefSnapshot, to: RefSnapshot, ref: Ref, limits: Limits, emitBaseline: bool)
    requires Valid(repo) && Live(repo, from) && Live(repo, to) && RefTypeOf(ref) != Tag
    requires ref in from.Refs() && ref in to.Refs() && from.Refs()[ref] in Reach(repo.graph, to.Refs()[ref])
    ensures var told := CommitsOn(ref, Candidates(repo, from, to, limits, emitBaseline));
            var range := Range(repo.graph, from.Refs()[ref], to.Refs()[ref]);
            && Distinct(told) && Elems(told) <= range
            && (Elems(told) == range <==> |range| <= limits.maxCommits)
  {
    CommitsOnObservation(repo, ref, from, to, limits, emitBaseline);
    var old', new' := from.Refs()[ref], to.Refs()[ref];
    if old' != new' {
      var listed := repo.revList(old', new');
      TakeElems(listed, limits.maxCommits);
      ReverseElems(Take(listed, limits.maxCommits));
    } else {
      assert Range(repo.graph, old', new') == {};
    }
  }

  /** The tip of a branch in the `n`-th snapshot of a run. */
  function Tip(lives: seq<RefSnapshot>, n: nat, ref: Ref): Oid
    requires n < |lives| && ref in lives[n].Refs()
  {
    lives[n].Refs()[ref]
  }

  ghost predicate Present(lives: seq<RefSnapshot>, ref: Ref) {
    forall n :: 0 <= n < |lives| ==> ref in lives[n].Refs()
  }

  /** The branch did not leave its history in the `n`-th observation. */
  ghost predicate Forward(repo: Repository, lives: seq<RefSnapshot>, ref: Ref, n: nat)
    requires Acyclic(repo.graph) && Present(lives, ref) && 0 < n < |lives|
  {
    Tip(lives, n - 1, ref) in Reach(repo.graph, Tip(lives, n, ref))
  }

  /** A run in which a branch exists throughout and only moves forward. */
  ghost predicate Advances(repo: Repository, lives: seq<RefSnapshot>, ref: Ref)
    requires Acyclic(repo.graph)
  {
    && IsRun(repo, lives) && RefTypeOf(ref) != Tag && Present(lives, ref)
    && forall n :: 0 < n < |lives| ==> Forward(repo, lives, ref, n)
  }

  lemma {:induction false} RunAdvances(repo: Repository, lives: seq<RefSnapshot>, ref: Ref, m: nat, n: nat)
    requires Acyclic(repo.graph) && Advances(repo, lives, ref) && m <= n < |lives|
    ensures Tip(lives, m, ref) in Reach(repo.graph, Tip(lives, n, ref))
    decreases n
  {
    if m < n {
      RunAdvances(repo, lives, ref, m, n - 1);
      assert Forward(repo, lives, ref, n);
      RangesSplit(repo.graph, Tip(lives, m, ref), Tip(lives, n - 1, ref), Tip(lives, n, ref));
    } else {
      assert Live(repo, lives[n]);
    }
  }

  /** The `n`-th observation was not cut by `maxCommits`. */
  predicate Fits(repo: Repository, lives: seq<RefSnapshot>, ref: Ref, n: nat, limits: Limits)
    requires Acyclic(repo.graph) && Present(lives, ref) && 0 < n < |lives|
  {
    |Range(repo.graph, Tip(lives, n - 1, ref), Tip(lives, n, ref))| <= limits.maxCommits
  }

  /** What `CommitsAreToldOnce` says of the first `n` observations of a run. */
  ghost predicate ToldOnce(repo: Repository, lives: seq<RefSnapshot>, ref: Ref, n: nat, limits: Limits,
                           emitBaseline: bool)
    requires Acyclic(repo.graph) && Present(lives, ref) && n < |lives|
  {
    var told := CommitsOn(ref, Stream(repo, lives, n, limits, emitBaseline));
    var range := Range(repo.graph, Tip(lives, 0, ref), Tip(lives, n, ref));
    && Distinct(told) && Elems(told) <= range
    && (Elems(told) == range <==> forall i :: 0 < i <= n ==> Fits(repo, lives, ref, i, limits))
  }

  /**
   Over any run in which a branch only moves forward, no commit is told twice,
   and what is told is the whole range between the first and the last tip exactly
   when every single step fitted into `maxCommits`. Commits cut from a step are
   never told later.
   */
  lemma {:induction false} CommitsAreToldOnce(repo: Repository, lives: seq<RefSnapshot>, ref: Ref, n: nat,
                                              limits: Limits, emitBaseline: bool)
    requires Valid(repo) && Advances(repo, lives, ref) && n < |lives|
    ensures ToldOnce(repo, lives, ref, n, limits, emitBaseline)
  {
    hide ToldOnce, IsRun, Acyclic;
    if n > 0 {
      CommitsAreToldOnce(repo, lives, ref, n - 1, limits, emitBaseline);
      ToldOnceStep(repo, lives, ref, n, limits, emitBaseline);
    } else {
      NothingToldYet(repo, lives, ref, limits, emitBaseline);
    }
  }

  lemma NothingToldYet(repo: Repository, lives: seq<RefSnapshot>, ref: Ref, limits: Limits, emitBaseline: bool)
    requires Acyclic(repo.graph) && Present(lives, ref) && |lives| > 0
    ensures ToldOnce(repo, lives, ref, 0, limits, emitBaseline)
  {
    assert Range(repo.graph, Tip(lives, 0, ref), Tip(lives, 0, ref)) == {};
  }

  lemma {:induction false} ToldOnceStep(repo: Repository, lives: seq<RefSnapshot>, ref: Ref, n: nat, limits: Limits,
                                        emitBaseline: bool)
    requires Valid(repo) && Advances(repo, lives, ref) && 0 < n < |lives|
    requires ToldOnce(repo, lives, ref, n - 1, limits, emitBaseline)
    ensures ToldOnce(repo, lives, ref, n, limits, emitBaseline)
  {
    hide Candidates, CommitsOn, Range, Live;
    var a := CommitsOn(ref, Stream(repo, lives, n - 1, limits, emitBaseline));
    var b := CommitsOn(ref, Candidates(repo, lives[n - 1], lives[n], limits, emitBaseline));
    var first, prev, last := Tip(lives, 0, ref), Tip(lives, n - 1, ref), Tip(lives, n, ref);
    var ra, rb, r := Range(repo.graph, first, prev), Range(repo.graph, prev, last), Range(repo.graph, first, last);
    CommitsOnAppend(ref, Stream(repo, lives, n - 1, limits, emitBaseline),
                    Candidates(repo, lives[n - 1], lives[n], limits, emitBaseline));
    assert CommitsOn(ref, Stream(repo, lives, n, limits, emitBaseline)) == a + b;
    assert Distinct(b) && Elems(b) <= rb && (Elems(b) == rb <==> Fits(repo, lives, ref, n, limits)) by {
      assert Forward(repo, lives, ref, n);
      StepCommits(repo, lives[n - 1], lives[n], ref, limits, emitBaseline);
    }
    assert Distinct(a + b) && Elems(a + b) <= r && (Elems(a + b) == r <==> Elems(a) == ra && Elems(b) == rb) by {
      RunSplits(repo, lives, ref, n);
      JoinCovers(a, ra, b, rb, r);
    }
  }

  lemma RunSplits(repo: Repository, lives: seq<RefSnapshot>, ref: Ref, n: nat)
    requires Acyclic(repo.graph) && Advances(repo, lives, ref) && 0 < n < |lives|
    ensures var first, prev, last := Tip(lives, 0, ref), Tip(lives, n - 1, ref), Tip(lives, n, ref);
            && (forall x :: x in Range(repo.graph, first, last) <==>
                  x in Range(repo.graph, first, prev) || x in Range(repo.graph, prev, last))
            && (forall x :: x in Range(repo.graph, first, prev) ==> x !in Range(repo.graph, prev, last))
  {
    RunAdvances(repo, lives, ref, 0, n - 1);
    assert Forward(repo, lives, ref, n);
    RangesSplit(repo.graph, Tip(lives, 0, ref), Tip(lives, n - 1, ref), Tip(lives, n, ref));
  }

  /** Lists that cover parts of a split range: joined they cover the range when each covers its part. */
  lemma JoinCovers<T(!new)>(a: seq<T>, ra: set<T>, b: seq<T>, rb: set<T>, r: set<T>)
    requires Distinct(a) && Distinct(b) && Elems(a) <= ra && Elems(b) <= rb
    requires forall x :: x in r <==> x in ra || x in rb
    requires forall x :: x in ra ==> x !in rb
    ensures Distinct(a + b) && Elems(a + b) <= r
    ensures Elems(a + b) == r <==> Elems(a) == ra && Elems(b) == rb
  {
    forall x
      ensures x in Elems(a + b) <==> x in Elems(a) || x in Elems(b)
    {
    }
    forall i, j | 0 <= i < j < |a + b|
      ensures (a + b)[i] != (a + b)[j]
    {
      if i < |a| <= j {
        assert a[i] in Elems(a) && b[j - |a|] in Elems(b);
      }
    }
  }

  /** Watching closely or looking once tells the same commits, when one look has room for them. */
  lemma {:induction false} OneLookEqualsMany(repo: Repository, lives: seq<RefSnapshot>, ref: Ref, n: nat,
                                             limits: Limits, emitBaseline: bool)
    requires Valid(repo) && Advances(repo, lives, ref) && n < |lives|
    requires |Range(repo.graph, Tip(lives, 0, ref), Tip(lives, n, ref))| <= limits.maxCommits
    ensures Elems(CommitsOn(ref, Stream(repo, lives, n, limits, emitBaseline)))
            == Elems(CommitsOn(ref, Candidates(repo, lives[0], lives[n], limits, emitBaseline)))
  {
    RunAdvances(repo, lives, ref, 0, n);
    StepCommits(repo, lives[0], lives[n], ref, limits, emitBaseline);
    CommitsAreToldOnce(repo, lives, ref, n, limits, emitBaseline);
    forall i | 0 < i <= n
      ensures Fits(repo, lives, ref, i, limits)
    {
      PartFits(repo, lives, ref, i, n);
    }
  }

  lemma PartFits(repo: Repository, lives: seq<RefSnapshot>, ref: Ref, i: nat, n: nat)
    requires Acyclic(repo.graph) && Advances(repo, lives, ref) && 0 < i <= n < |lives|
    ensures |Range(repo.graph, Tip(lives, i - 1, ref), Tip(lives, i, ref))|
            <= |Range(repo.graph, Tip(lives, 0, ref), Tip(lives, n, ref))|
  {
    RunAdvances(repo, lives, ref, 0, i - 1);
    RunAdvances(repo, lives, ref, i, n);
    ReachIsTransitive(repo.graph, Tip(lives, 0, ref), Tip(lives, i - 1, ref));
    ReachIsTransitive(repo.graph, Tip(lives, i, ref), Tip(lives, n, ref));
    SubsetSize(Range(repo.graph, Tip(lives, i - 1, ref), Tip(lives, i, ref)),
               Range(repo.graph, Tip(lives, 0, ref), Tip(lives, n, ref)));
  }

  lemma {:induction false} SubsetSize<T>(a: set<T>, b: set<T>)
    requires a <= b
    ensures |a| <= |b|
  {
    if a != {} {
      var x :| x in a;
      SubsetSize(a - {x}, b - {x});
    }
  }

  // ---------------------------------------------------------------------------
  // Bounded work
  // ---------------------------------------------------------------------------

  lemma {:induction false} RowsAreBounded(rows: seq<Change>, i: nat, maxPaths: nat, kept: nat)
    requires i <= |rows|
    ensures |BoundedRows(rows, i, maxPaths, kept)| <= Max(1, maxPaths - kept)
    decreases |rows| - i
  {
    if i < |rows| {
      RowsAreBounded(rows, i + 1, maxPaths, kept);
      RowsAreBounded(rows, i + 1, maxPaths, kept + 1);
    }
  }

  /** The most that a single commit, and a single ref, can contribute. */
  function PerCommitWork(limits: Limits): nat {
    1 + Max(1, limits.maxPaths)
  }

  function PerRefWork(limits: Limits): nat {
    Max(1, limits.maxCommits) * PerCommitWork(limits)
  }

  lemma {:induction false} CommitWorkIsBounded(repo: Repository, ref: Ref, new': Oid, shas: seq<Oid>, n: nat,
                                               limits: Limits)
    requires n <= |shas|
    ensures |PerCommit(repo, ref, new', shas, n, limits)| <= n * PerCommitWork(limits)
  {
    if n > 0 {
      CommitWorkIsBounded(repo, ref, new', shas, n - 1, limits);
      RowsAreBounded(repo.changes(Peel(repo, shas[n - 1])), 0, limits.maxPaths, 0);
      assert n * PerCommitWork(limits) == (n - 1) * PerCommitWork(limits) + PerCommitWork(limits);
    }
  }

  predicate Changed(previous: map<Ref, Oid>, ref: Ref, new': Oid) {
    ref in previous ==> previous[ref] != new'
  }

  /** Refs of `live` that are new or have moved. */
  function ChangedRefs(previous: map<Ref, Oid>, live: map<Ref, Oid>): set<Ref> {
    set r | r in live && Changed(previous, r, live[r])
  }

  function GoneRefs(previous: map<Ref, Oid>, live: map<Ref, Oid>): set<Ref> {
    set r | r in previous && r !in live
  }

  lemma NewCommitsAreBounded(repo: Repository, old': Oid, new': Oid, limits: Limits)
    ensures |NewCommits(repo, old', new', limits)| <= limits.maxCommits
  {
    var taken := Take(repo.revList(Peel(repo, old'), Peel(repo, new')), limits.maxCommits);
    if taken != [] {
      ReverseAt(taken, 0);
    }
  }

  lemma TimesGrows(a: nat, b: nat, p: nat)
    requires a <= b
    ensures a * p <= b * p
    ensures (b + 1) * p == b * p + p
  {
  }

  lemma RefWorkIsBounded(repo: Repository, previous: map<Ref, Oid>, ref: Ref, new': Oid, limits: Limits)
    requires Acyclic(repo.graph)
    ensures |RefCandidates(repo, ref, Before(previous, ref), new', limits)|
            <= if Changed(previous, ref, new') then PerRefWork(limits) else 0
  {
    var c, p := Max(1, limits.maxCommits), PerCommitWork(limits);
    TimesGrows(1, c, p);
    if FastForward(repo, previous, ref, new') {
      var shas := NewCommits(repo, previous[ref], new', limits);
      NewCommitsAreBounded(repo, previous[ref], new', limits);
      CommitWorkIsBounded(repo, ref, new', shas, |shas|, limits);
      TimesGrows(|shas|, c, p);
    }
  }

  lemma ChangedRefsStep(previous: map<Ref, Oid>, live: seq<Entry>, n: nat)
    requires 0 < n <= |live| && Unique(live, n)
    ensures |ChangedRefs(previous, Table(live, n))| ==
            |ChangedRefs(previous, Table(live, n - 1))| +
            if Changed(previous, live[n - 1].ref, live[n - 1].id) then 1 else 0
  {
    var e, before := live[n - 1], ChangedRefs(previous, Table(live, n - 1));
    assert ChangedRefs(previous, Table(live, n)) ==
           if Changed(previous, e.ref, e.id) then before + {e.ref} else before;
  }

  lemma {:induction false} MoveWorkIsBounded(repo: Repository, previous: map<Ref, Oid>, live: seq<Entry>, n: nat,
                                             limits: Limits)
    requires Acyclic(repo.graph) && n <= |live| && Unique(live, n)
    ensures |Moves(repo, previous, live, n, limits)|
            <= |ChangedRefs(previous, Table(live, n))| * PerRefWork(limits)
  {
    if n > 0 {
      var before := |ChangedRefs(previous, Table(live, n - 1))|;
      MoveWorkIsBounded(repo, previous, live, n - 1, limits);
      RefWorkIsBounded(repo, previous, live[n - 1].ref, live[n - 1].id, limits);
      ChangedRefsStep(previous, live, n);
      TimesGrows(before, before, PerRefWork(limits));
    }
  }

  lemma {:induction false} DeletionCount(old': seq<Entry>, live: map<Ref, Oid>, n: nat)
    requires n <= |old'| && Unique(old', n)
    ensures |Deletions(old', live, n)| == |GoneRefs(Table(old', n), live)|
  {
    if n > 0 {
      var r := old'[n - 1].ref;
      DeletionCount(old', live, n - 1);
      var before := GoneRefs(Table(old', n - 1), live);
      assert GoneRefs(Table(old', n), live) == if r in live then before else before + {r};
    }
  }

  /** One observation costs one event per deleted ref and at most a fixed budget per changed one. */
  lemma WorkIsBounded(repo: Repository, previous: RefSnapshot, live: RefSnapshot, limits: Limits, emitBaseline: bool)
    requires Acyclic(repo.graph) && previous.Valid() && live.Valid()
    ensures |Candidates(repo, previous, live, limits, emitBaseline)|
            <= |GoneRefs(previous.Refs(), live.Refs())|
               + |ChangedRefs(previous.Refs(), live.Refs())| * PerRefWork(limits)
  {
    DeletionCount(previous.entries, live.Refs(), |previous.entries|);
    MoveWorkIsBounded(repo, previous.Refs(), live.entries, |live.entries|, limits);
  }

  /** A repository that has not changed yields nothing, however its refs are listed. */
  lemma SteadyStateIsQuiet(repo: Repository, previous: RefSnapshot, live: RefSnapshot, limits: Limits,
                           emitBaseline: bool)
    requires Acyclic(repo.graph) && previous.Valid() && live.Valid() && previous.Refs() == live.Refs()
    ensures Candidates(repo, previous, live, limits, emitBaseline) == []
  {
    WorkIsBounded(repo, previous, live, limits, emitBaseline);
    assert ChangedRefs(previous.Refs(), live.Refs()) == {};
    assert GoneRefs(previous.Refs(), live.Refs()) == {};
  }
}
