/**
 Whole runs of the watch service: a watch only sees the calls of its owner, its
 journal is the concatenation over its live observations, and what a branch gained
 while it was paused is never told on that branch.
 */
module WatchLaws {
  import opened Seqs
  import opened CommitGraph
  import opened Observe
  import opened ObserveLaws
  import opened FileLaws
  import opened Criteria
  import opened WatchService

  /** Everything the tables hold about one watch. */
  datatype WatchView = WatchView(spec: Spec, criteria: Criteria, snapshot: RefSnapshot, state: WatchState,
                                 journal: seq<Event>, lastFetch: Option<real>)

  function View(t: Tables, id: WatchId): Option<WatchView>
    requires Consistent(t)
  {
    if id in t.specs then
      Some(WatchView(t.specs[id], t.criteria[id], t.snapshots[id], t.states[id], t.journals[id],
                     if id in t.fetches then Some(t.fetches[id]) else None))
    else None
  }

  /** A call made in the name of a tenant that does not own the watch. */
  predicate Foreign(op: Op, owner: string) {
    op.Create? || (op.caller.Some? && op.caller.value != owner)
  }

  predicate Overwrites(op: Op, id: WatchId) {
    op.Create? && op.id == id && op.accepted && ValidSpec(op.spec)
  }

  /**
   Tenant isolation: a call of another tenant leaves all that is stored about a
   watch as it was, unless the coordinator accepts a second watch under the same
   id for that tenant.
   */
  lemma ForeignCallsDoNotReach(w: World, t: Tables, op: Op, id: WatchId)
    requires ValidWorld(w) && Consistent(t) && id in t.specs && Foreign(op, t.specs[id].tenant)
    requires Overwrites(op, id) ==> op.spec.tenant != t.specs[id].tenant
    ensures View(Step(w, t, op), id) == View(t, id) <==> !Overwrites(op, id)
  {
    hide ValidWorld, Emitted;
  }

  /** The same over any run of foreign calls. */
  lemma {:induction false} ForeignRunsDoNotReach(w: World, t: Tables, ops: seq<Op>, n: nat, id: WatchId)
    requires ValidWorld(w) && Consistent(t) && id in t.specs && n <= |ops|
    requires forall i :: 0 <= i < n ==> Foreign(ops[i], t.specs[id].tenant) && !Overwrites(ops[i], id)
    ensures View(Run(w, t, ops, n), id) == View(t, id)
  {
    hide ValidWorld, Step;
    if n > 0 {
      ForeignRunsDoNotReach(w, t, ops, n - 1, id);
      ForeignCallsDoNotReach(w, Run(w, t, ops, n - 1), ops[n - 1], id);
    }
  }

  /** The observations of one watch in a run: the snapshots it saw, and whether it was live. */
  datatype Trace = Trace(lives: seq<RefSnapshot>, open: seq<bool>)

  predicate LooksAt(t: Tables, op: Op, id: WatchId) {
    op.Look? && op.id == id && Owns(t, id, op.caller)
  }

  function TraceOf(w: World, t: Tables, ops: seq<Op>, n: nat, id: WatchId): (r: Trace)
    requires ValidWorld(w) && Consistent(t) && id in t.specs && n <= |ops|
    ensures |r.lives| == |r.open| + 1 && r.lives[0] == t.snapshots[id]
  {
    if n == 0 then Trace([t.snapshots[id]], [])
    else
      var before, now := TraceOf(w, t, ops, n - 1, id), Run(w, t, ops, n - 1);
      if LooksAt(now, ops[n - 1], id)
      then Trace(before.lives + [ops[n - 1].live], before.open + [now.states[id] == Watching])
      else before
  }

  /** The events of the first `n` observations of a trace: nothing for a paused one. */
  function Told(w: World, id: WatchId, s: Spec, c: Criteria, trace: Trace, n: nat): seq<Event>
    requires ValidWorld(w) && |trace.lives| == |trace.open| + 1 && n <= |trace.open|
  {
    if n == 0 then []
    else
      Told(w, id, s, c, trace, n - 1) + Emitted(w, id, s, c, trace.open[n - 1], trace.lives[n - 1], trace.lives[n])
  }

  lemma {:induction false} ToldIgnoresLater(w: World, id: WatchId, s: Spec, c: Criteria, a: Trace, b: Trace, n: nat)
    requires ValidWorld(w) && |a.lives| == |a.open| + 1 && |b.lives| == |b.open| + 1
    requires n <= |a.open| <= |b.open| && a.lives <= b.lives && a.open <= b.open
    ensures Told(w, id, s, c, a, n) == Told(w, id, s, c, b, n)
  {
    hide ValidWorld, Emitted;
    if n > 0 {
      ToldIgnoresLater(w, id, s, c, a, b, n - 1);
    }
  }

  /** No call of the run removes the watch or puts another one in its place. */
  ghost predicate Keeps(ops: seq<Op>, id: WatchId) {
    forall i :: 0 <= i < |ops| ==> !Overwrites(ops[i], id) && !(ops[i].Delete? && ops[i].id == id)
  }

  /** One call as one watch sees it: its own observation, or at most a change of state. */
  lemma StepSeenByWatch(w: World, t: Tables, op: Op, id: WatchId)
    requires ValidWorld(w) && Consistent(t) && id in t.specs
    requires !Overwrites(op, id) && !(op.Delete? && op.id == id)
    ensures var after := Step(w, t, op);
            && id in after.specs && after.specs[id] == t.specs[id] && after.criteria[id] == t.criteria[id]
            && if LooksAt(t, op, id) then
                 && after.snapshots[id] == op.live
                 && after.journals[id] == t.journals[id] + Emitted(w, id, t.specs[id], t.criteria[id],
                                                                   t.states[id] == Watching, t.snapshots[id], op.live)
               else after.snapshots[id] == t.snapshots[id] && after.journals[id] == t.journals[id]
  {
    hide ValidWorld, Emitted;
  }

  /** What `JournalOfRun` says of a run. */
  ghost predicate Journaled(w: World, t: Tables, after: Tables, id: WatchId, trace: Trace)
    requires ValidWorld(w) && Consistent(t) && Consistent(after) && id in t.specs
    requires |trace.lives| == |trace.open| + 1
  {
    && id in after.specs && after.specs[id] == t.specs[id] && after.criteria[id] == t.criteria[id]
    && after.journals[id] == t.journals[id] + Told(w, id, t.specs[id], t.criteria[id], trace, |trace.open|)
    && after.snapshots[id] == trace.lives[|trace.open|]
  }

  /**
   Whatever else happens on the service, the journal of a watch grows by the
   concatenation over exactly its live observations of the matching candidates,
   and its snapshot is the one it saw last, live or paused.
   */
  lemma {:induction false} JournalOfRun(w: World, t: Tables, ops: seq<Op>, n: nat, id: WatchId)
    requires ValidWorld(w) && Consistent(t) && id in t.specs && n <= |ops| && Keeps(ops, id)
    ensures Journaled(w, t, Run(w, t, ops, n), id, TraceOf(w, t, ops, n, id))
  {
    hide ValidWorld, Step, Journaled;
    if n > 0 {
      JournalOfRun(w, t, ops, n - 1, id);
      JournalOfStep(w, t, ops, n, id);
    } else {
      JournalAtStart(w, t, ops, id);
    }
  }

  lemma JournalAtStart(w: World, t: Tables, ops: seq<Op>, id: WatchId)
    requires ValidWorld(w) && Consistent(t) && id in t.specs
    ensures Journaled(w, t, Run(w, t, ops, 0), id, TraceOf(w, t, ops, 0, id))
  {
    hide ValidWorld;
  }

  lemma JournalOfStep(w: World, t: Tables, ops: seq<Op>, n: nat, id: WatchId)
    requires ValidWorld(w) && Consistent(t) && id in t.specs && 0 < n <= |ops| && Keeps(ops, id)
    requires Journaled(w, t, Run(w, t, ops, n - 1), id, TraceOf(w, t, ops, n - 1, id))
    ensures Journaled(w, t, Run(w, t, ops, n), id, TraceOf(w, t, ops, n, id))
  {
    hide ValidWorld, Emitted, Step, Told, Overwrites;
    var before, now := TraceOf(w, t, ops, n - 1, id), Run(w, t, ops, n - 1);
    StepSeenByWatch(w, now, ops[n - 1], id);
    if LooksAt(now, ops[n - 1], id) {
      var open := now.states[id] == Watching;
      ToldOneMore(w, id, t.specs[id], t.criteria[id], before, ops[n - 1].live, open);
    }
  }

  lemma ToldOneMore(w: World, id: WatchId, s: Spec, c: Criteria, a: Trace, live: RefSnapshot, open: bool)
    requires ValidWorld(w) && |a.lives| == |a.open| + 1
    ensures Told(w, id, s, c, Trace(a.lives + [live], a.open + [open]), |a.open| + 1)
            == Told(w, id, s, c, a, |a.open|) + Emitted(w, id, s, c, open, a.lives[|a.open|], live)
  {
    hide ValidWorld, Emitted;
    ToldIgnoresLater(w, id, s, c, a, Trace(a.lives + [live], a.open + [open]), |a.open|);
  }

  function CandidatesIn(events: seq<Event>): seq<ChangeCandidate> {
    seq(|events|, i requires 0 <= i < |events| => events[i].candidate)
  }

  lemma {:induction false} MatchAllMatches(w: World, id: WatchId, s: Spec, cs: seq<ChangeCandidate>, n: nat)
    requires n <= |cs|
    ensures CandidatesIn(Matching(w, id, s, MATCH_ALL, cs, n)) == cs[..n]
  {
    if n > 0 {
      MatchAllMatches(w, id, s, cs, n - 1);
    }
  }

  lemma {:induction false} UnfilteredTold(w: World, id: WatchId, s: Spec, trace: Trace, n: nat)
    requires ValidWorld(w) && |trace.lives| == |trace.open| + 1 && n <= |trace.open|
    requires forall i :: 0 <= i < |trace.open| ==> trace.open[i]
    ensures CandidatesIn(Told(w, id, s, MATCH_ALL, trace, n))
            == Stream(w.repository(s.profile), trace.lives, n, LimitsOf(s), false)
  {
    hide Candidates;
    if n > 0 {
      var cs := Observed(w, s, trace.lives[n - 1], trace.lives[n]);
      UnfilteredTold(w, id, s, trace, n - 1);
      MatchAllMatches(w, id, s, cs, |cs|);
      assert cs[..|cs|] == cs;
    }
  }

  /** An observation that starts from no refs at all only takes a baseline. */
  predicate Rebaselines(previous: RefSnapshot, live: RefSnapshot) {
    previous.IsEmpty() && !live.IsEmpty()
  }

  /** After `n` observations the consumer's map, built from the journal, is the snapshot. */
  ghost predicate Rebuilt(w: World, id: WatchId, s: Spec, trace: Trace, n: nat)
    requires ValidWorld(w) && |trace.lives| == |trace.open| + 1 && n <= |trace.open|
  {
    Replay(trace.lives[0].Refs(), CandidatesIn(Told(w, id, s, MATCH_ALL, trace, n))) == trace.lives[n].Refs()
  }

  lemma OnlyBaselinesAreSilent(repo: Repository, previous: RefSnapshot, live: RefSnapshot, limits: Limits)
    requires Acyclic(repo.graph) && limits.maxCommits >= 1
    ensures Silent(repo, previous, live, limits, false) <==> Rebaselines(previous, live)
  {
  }

  /**
   A consumer of an unfiltered watch that was live throughout can rebuild the
   snapshot from the journal: after each observation of the run, exactly when no
   observation silently took a new baseline. The limits checked at creation make
   sure that no list of commits is cut to nothing.
   */
  lemma JournalRebuildsSnapshots(w: World, id: WatchId, s: Spec, trace: Trace)
    requires ValidWorld(w) && ValidSpec(s) && |trace.lives| == |trace.open| + 1
    requires IsRun(w.repository(s.profile), trace.lives)
    requires forall i :: 0 <= i < |trace.open| ==> trace.open[i]
    ensures (forall n :: 0 <= n <= |trace.open| ==> Rebuilt(w, id, s, trace, n))
            <==> (forall i :: 0 < i < |trace.lives| ==> !Rebaselines(trace.lives[i - 1], trace.lives[i]))
  {
    hide IsRun, Candidates, Valid, Silent, Rebaselines, Replay, Told;
    var repo, limits := w.repository(s.profile), LimitsOf(s);
    RepositoryIsAcyclic(repo, w, s.profile);
    forall n | 0 <= n <= |trace.open|
      ensures Rebuilt(w, id, s, trace, n) <==> InStep(repo, trace.lives, n, limits, false)
    {
      UnfilteredTold(w, id, s, trace, n);
    }
    forall i | 0 < i < |trace.lives|
      ensures Silent(repo, trace.lives[i - 1], trace.lives[i], limits, false)
              <==> Rebaselines(trace.lives[i - 1], trace.lives[i])
    {
      OnlyBaselinesAreSilent(repo, trace.lives[i - 1], trace.lives[i], limits);
    }
    ReplayFollowsRun(repo, trace.lives, limits, false);
  }

  lemma {:induction false} TraceGrows(w: World, t: Tables, ops: seq<Op>, m: nat, n: nat, id: WatchId)
    requires ValidWorld(w) && Consistent(t) && id in t.specs && m <= n <= |ops|
    ensures var before, after := TraceOf(w, t, ops, m, id), TraceOf(w, t, ops, n, id);
            before.lives <= after.lives && before.open <= after.open
    decreases n
  {
    hide ValidWorld, LooksAt, Run;
    if m < n {
      TraceGrows(w, t, ops, m, n - 1, id);
    }
  }

  /** The observation with number `k` is some call of the run. */
  lemma {:induction false} LookHappens(w: World, t: Tables, ops: seq<Op>, n: nat, id: WatchId, k: nat)
    returns (m: nat)
    requires ValidWorld(w) && Consistent(t) && id in t.specs && n <= |ops|
    requires k <= |TraceOf(w, t, ops, n, id).open|
    ensures m <= n && |TraceOf(w, t, ops, m, id).open| == k
  {
    hide ValidWorld, LooksAt, Run;
    if k == |TraceOf(w, t, ops, n, id).open| {
      m := n;
    } else {
      m := LookHappens(w, t, ops, n - 1, id, k);
    }
  }

  /** After `n` calls a consumer that has replayed the new part of the journal holds the stored snapshot. */
  ghost predicate ConsumerFollows(w: World, t: Tables, ops: seq<Op>, n: nat, id: WatchId)
    requires ValidWorld(w) && Consistent(t) && id in t.specs && n <= |ops|
  {
    var after, old' := Run(w, t, ops, n), t.journals[id];
    && id in after.specs && old' <= after.journals[id]
    && Replay(t.snapshots[id].Refs(), CandidatesIn(after.journals[id][|old'|..])) == after.snapshots[id].Refs()
  }

  lemma {:induction false} FollowingIsRebuilding(w: World, t: Tables, ops: seq<Op>, n: nat, id: WatchId)
    requires ValidWorld(w) && Consistent(t) && id in t.specs && n <= |ops| && Keeps(ops, id)
    requires t.criteria[id] == MATCH_ALL
    ensures var k, trace := |TraceOf(w, t, ops, n, id).open|, TraceOf(w, t, ops, |ops|, id);
            && k <= |trace.open|
            && (ConsumerFollows(w, t, ops, n, id) <==> Rebuilt(w, id, t.specs[id], trace, k))
  {
    hide ValidWorld, Run, TraceOf, Replay, Told, Keeps;
    var now, trace := TraceOf(w, t, ops, n, id), TraceOf(w, t, ops, |ops|, id);
    var after, k := Run(w, t, ops, n), |now.open|;
    JournalOfRun(w, t, ops, n, id);
    TraceGrows(w, t, ops, n, |ops|, id);
    ToldIgnoresLater(w, id, t.specs[id], MATCH_ALL, now, trace, k);
    var told := Told(w, id, t.specs[id], MATCH_ALL, now, k);
    assert after.journals[id] == t.journals[id] + told;
    assert after.journals[id][|t.journals[id]|..] == told;
  }

  /**
   The same for the tables: whatever is called on the service, replaying the journal
   of an unfiltered watch that was live at each of its observations gives the stored
   snapshot after every single call, exactly when none of them took a new baseline.
   */
  lemma {:induction false} JournalFollowsTables(w: World, t: Tables, ops: seq<Op>, id: WatchId)
    requires ValidWorld(w) && Consistent(t) && id in t.specs && Keeps(ops, id)
    requires t.criteria[id] == MATCH_ALL && ValidSpec(t.specs[id])
    requires IsRun(w.repository(t.specs[id].profile), TraceOf(w, t, ops, |ops|, id).lives)
    requires forall i :: 0 <= i < |TraceOf(w, t, ops, |ops|, id).open| ==> TraceOf(w, t, ops, |ops|, id).open[i]
    ensures var lives := TraceOf(w, t, ops, |ops|, id).lives;
            (forall n :: 0 <= n <= |ops| ==> ConsumerFollows(w, t, ops, n, id))
            <==> (forall i :: 0 < i < |lives| ==> !Rebaselines(lives[i - 1], lives[i]))
  {
    hide ValidWorld, Run, TraceOf, Keeps, ConsumerFollows, Rebuilt, Rebaselines, IsRun;
    var trace := TraceOf(w, t, ops, |ops|, id);
    JournalRebuildsSnapshots(w, id, t.specs[id], trace);
    if forall n :: 0 <= n <= |ops| ==> ConsumerFollows(w, t, ops, n, id) {
      forall k | 0 <= k <= |trace.open|
        ensures Rebuilt(w, id, t.specs[id], trace, k)
      {
        var n := LookHappens(w, t, ops, |ops|, id, k);
        FollowingIsRebuilding(w, t, ops, n, id);
      }
    } else {
      var n :| 0 <= n <= |ops| && !ConsumerFollows(w, t, ops, n, id);
      FollowingIsRebuilding(w, t, ops, n, id);
    }
  }

  // ---------------------------------------------------------------------------
  // Fetches
  // ---------------------------------------------------------------------------

  /** What one call on the service brings to the gate, if anything. */
  function ArrivalOf(t: Tables, op: Op): Option<FetchGate.Arrival> {
    if op.Look? && op.fetchAt.Some? && Owns(t, op.id, op.caller) then Some(FetchGate.Fetch(op.id, op.fetchAt.value))
    else if op.Delete? && Owns(t, op.id, op.caller) then Some(FetchGate.Forget(op.id))
    else None
  }

  /** What the first `n` calls bring to it. */
  function ArrivalsOf(w: World, t: Tables, ops: seq<Op>, n: nat): seq<FetchGate.Arrival>
    requires ValidWorld(w) && Consistent(t) && n <= |ops|
  {
    if n == 0 then []
    else
      var before, a := ArrivalsOf(w, t, ops, n - 1), ArrivalOf(Run(w, t, ops, n - 1), ops[n - 1]);
      if a.Some? then before + [a.value] else before
  }

  lemma FetchesOfStep(w: World, t: Tables, op: Op)
    requires ValidWorld(w) && Consistent(t)
    ensures Step(w, t, op).fetches ==
            if ArrivalOf(t, op).Some? then FetchGate.Step(t.fetches, w.fetchInterval, ArrivalOf(t, op).value)
            else t.fetches
  {
    hide ValidWorld, Emitted, FetchGate.Allowed;
  }

  lemma {:induction false} GateIgnoresLater(last: map<WatchId, real>, interval: real, calls: seq<FetchGate.Arrival>,
                                            a: FetchGate.Arrival, n: nat)
    requires n <= |calls|
    ensures FetchGate.Run(last, interval, calls + [a], n) == FetchGate.Run(last, interval, calls, n)
  {
    if n > 0 {
      GateIgnoresLater(last, interval, calls, a, n - 1);
    }
  }

  /** The fetch table of a run is that of the gate fed with the run's arrivals, so its laws hold for the service. */
  lemma {:induction false} FetchesFollowGate(w: World, t: Tables, ops: seq<Op>, n: nat)
    requires ValidWorld(w) && Consistent(t) && n <= |ops|
    ensures var calls := ArrivalsOf(w, t, ops, n);
            Run(w, t, ops, n).fetches == FetchGate.Run(t.fetches, w.fetchInterval, calls, |calls|)
  {
    hide ValidWorld, Step, ArrivalOf, FetchGate.Step;
    if n > 0 {
      var before, now := ArrivalsOf(w, t, ops, n - 1), Run(w, t, ops, n - 1);
      var a := ArrivalOf(now, ops[n - 1]);
      FetchesFollowGate(w, t, ops, n - 1);
      FetchesOfStep(w, now, ops[n - 1]);
      if a.Some? {
        GateIgnoresLater(t.fetches, w.fetchInterval, before, a.value, |before|);
        assert (before + [a.value])[|before|] == a.value;
      }
    }
  }

  lemma RepositoryIsAcyclic(repo: Repository, w: World, profile: string)
    requires ValidWorld(w) && repo == w.repository(profile)
    ensures Valid(repo) && Acyclic(repo.graph)
  {
  }

  lemma {:induction false} MatchingIsSelection(w: World, id: WatchId, s: Spec, c: Criteria, cs: seq<ChangeCandidate>,
                                               n: nat, e: Event)
    requires n <= |cs| && e in Matching(w, id, s, c, cs, n)
    ensures e.candidate in cs && Satisfies(w.text, c, e.candidate)
    ensures e.watch == id && e.tenant == s.tenant && e.profile == s.profile
  {
    hide Satisfies, Evidence;
    if e in Matching(w, id, s, c, cs, n - 1) {
      MatchingIsSelection(w, id, s, c, cs, n - 1, e);
    }
  }

  /** Every journaled event comes from one of the observations made while the watch was live. */
  lemma {:induction false} ToldComesFrom(w: World, id: WatchId, s: Spec, c: Criteria, trace: Trace, n: nat, e: Event)
    returns (j: nat)
    requires ValidWorld(w) && |trace.lives| == |trace.open| + 1 && n <= |trace.open|
    requires e in Told(w, id, s, c, trace, n)
    ensures 0 < j <= n && trace.open[j - 1]
    ensures e.candidate in Observed(w, s, trace.lives[j - 1], trace.lives[j])
  {
    hide Candidates;
    if e in Told(w, id, s, c, trace, n - 1) {
      j := ToldComesFrom(w, id, s, c, trace, n - 1, e);
    } else {
      j := n;
      var cs := Observed(w, s, trace.lives[n - 1], trace.lives[n]);
      MatchingIsSelection(w, id, s, c, cs, |cs|, e);
    }
  }

  lemma RangesOfStepsAreDisjoint(repo: Repository, lives: seq<RefSnapshot>, ref: Ref, j: nat, k: nat, x: Oid)
    requires Acyclic(repo.graph) && Advances(repo, lives, ref) && 0 < j < |lives| && 0 < k < |lives| && j != k
    requires x in Range(repo.graph, Tip(lives, j - 1, ref), Tip(lives, j, ref))
    ensures x !in Range(repo.graph, Tip(lives, k - 1, ref), Tip(lives, k, ref))
  {
    if j < k {
      RunAdvances(repo, lives, ref, j, k - 1);
      ReachIsTransitive(repo.graph, Tip(lives, j, ref), Tip(lives, k - 1, ref));
    } else {
      RunAdvances(repo, lives, ref, k, j - 1);
      ReachIsTransitive(repo.graph, Tip(lives, k, ref), Tip(lives, j - 1, ref));
    }
  }

  /** In an observation made while the watch was live, the branch gained the commit. */
  predicate GainedLive(w: World, s: Spec, trace: Trace, ref: Ref, sha: Oid, j: nat)
    requires ValidWorld(w) && Acyclic(w.repository(s.profile).graph) && |trace.lives| == |trace.open| + 1
    requires 0 < j <= |trace.open|
  {
    trace.open[j - 1] && Gains(w.repository(s.profile), trace.lives[j - 1], trace.lives[j], ref, sha)
  }

  /** An event about a commit comes from a live observation in which the branch of the event gained it. */
  lemma {:induction false} CommitEventsComeFromGains(w: World, id: WatchId, s: Spec, c: Criteria, trace: Trace,
                                                     e: Event, sha: Oid) returns (j: nat)
    requires ValidWorld(w) && Valid(w.repository(s.profile)) && |trace.lives| == |trace.open| + 1
    requires IsRun(w.repository(s.profile), trace.lives)
    requires e in Told(w, id, s, c, trace, |trace.open|) && About(e.candidate, sha)
    ensures 0 < j <= |trace.open| && GainedLive(w, s, trace, e.candidate.ref, sha, j)
  {
    hide ValidWorld, Candidates, Live, Gains, Valid, Told;
    j := ToldComesFrom(w, id, s, c, trace, |trace.open|, e);
    EventsTellGains(w.repository(s.profile), trace.lives[j - 1], trace.lives[j], LimitsOf(s), false, e.candidate, sha);
  }

  lemma RangesOfGain(repo: Repository, lives: seq<RefSnapshot>, ref: Ref, j: nat, sha: Oid)
    requires Acyclic(repo.graph) && Advances(repo, lives, ref) && 0 < j < |lives|
    requires Gains(repo, lives[j - 1], lives[j], ref, sha)
    ensures sha in Range(repo.graph, Tip(lives, j - 1, ref), Tip(lives, j, ref))
  {
    hide Range;
    assert Live(repo, lives[j]) && Live(repo, lives[j - 1]);
  }

  /**
   What a branch gained while the watch was paused is lost to it on that branch: no
   commit or file event of that branch, early or late, is about a commit in the
   range of a paused observation.
   */
  lemma {:induction false} PausedCommitsAreNeverTold(w: World, id: WatchId, s: Spec, c: Criteria, trace: Trace,
                                                     ref: Ref, k: nat, e: Event, sha: Oid)
    requires ValidWorld(w) && |trace.lives| == |trace.open| + 1
    requires Valid(w.repository(s.profile)) && Advances(w.repository(s.profile), trace.lives, ref)
    requires 0 < k <= |trace.open| && !trace.open[k - 1]
    requires sha in Range(w.repository(s.profile).graph, Tip(trace.lives, k - 1, ref), Tip(trace.lives, k, ref))
    requires e in Told(w, id, s, c, trace, |trace.open|) && e.candidate.ref == ref
    ensures !About(e.candidate, sha)
  {
    hide ValidWorld, Told, Range, Gains, ListsRanges, About;
    if About(e.candidate, sha) {
      var repo := w.repository(s.profile);
      var j := CommitEventsComeFromGains(w, id, s, c, trace, e, sha);
      RangesOfGain(repo, trace.lives, ref, j, sha);
      RangesOfStepsAreDisjoint(repo, trace.lives, ref, j, k, sha);
    }
  }

  /** What a branch gains in the `j`-th observation fits into the limit of the watch. */
  predicate GainFits(repo: Repository, s: Spec, trace: Trace, ref: Ref, j: nat)
    requires Acyclic(repo.graph) && 0 < j < |trace.lives|
  {
    var previous, live := trace.lives[j - 1].Refs(), trace.lives[j].Refs();
    ref in live && FastForward(repo, previous, ref, live[ref]) ==>
      |Range(repo.graph, Peel(repo, previous[ref]), Peel(repo, live[ref]))| <= LimitsOf(s).maxCommits
  }

  /** Some event of an unfiltered watch is about the commit on that branch. */
  ghost predicate IsTold(w: World, id: WatchId, s: Spec, trace: Trace, ref: Ref, sha: Oid)
    requires ValidWorld(w) && |trace.lives| == |trace.open| + 1
  {
    exists e :: e in Told(w, id, s, MATCH_ALL, trace, |trace.open|) && e.candidate.ref == ref && About(e.candidate, sha)
  }

  /** The matching candidates of each live observation are in the journal. */
  lemma {:induction false} LiveEventsAreTold(w: World, id: WatchId, s: Spec, trace: Trace, n: nat, j: nat,
                                             x: ChangeCandidate) returns (e: Event)
    requires ValidWorld(w) && |trace.lives| == |trace.open| + 1 && 0 < j <= n <= |trace.open| && trace.open[j - 1]
    requires x in Observed(w, s, trace.lives[j - 1], trace.lives[j])
    ensures e in Told(w, id, s, MATCH_ALL, trace, n) && e.candidate == x
  {
    hide Candidates;
    if j < n {
      e := LiveEventsAreTold(w, id, s, trace, n - 1, j, x);
    } else {
      var cs := Observed(w, s, trace.lives[n - 1], trace.lives[n]);
      var i :| 0 <= i < |cs| && cs[i] == x;
      MatchAllMatches(w, id, s, cs, |cs|);
      e := Matching(w, id, s, MATCH_ALL, cs, |cs|)[i];
      assert e.candidate == CandidatesIn(Matching(w, id, s, MATCH_ALL, cs, |cs|))[i];
    }
  }

  /**
   An unfiltered watch tells a commit on a branch exactly when that branch gained it
   in a live observation. So a commit gained by one branch during a pause is still
   told if another branch gains it later, and then on that other branch.
   */
  lemma {:induction false} ToldExactlyOnLiveGain(w: World, id: WatchId, s: Spec, trace: Trace, ref: Ref, sha: Oid)
    requires ValidWorld(w) && Valid(w.repository(s.profile)) && |trace.lives| == |trace.open| + 1
    requires IsRun(w.repository(s.profile), trace.lives)
    requires forall j :: 0 < j < |trace.lives| ==> GainFits(w.repository(s.profile), s, trace, ref, j)
    ensures IsTold(w, id, s, trace, ref, sha)
            <==> exists j :: 0 < j <= |trace.open| && GainedLive(w, s, trace, ref, sha, j)
  {
    hide ValidWorld, Candidates, Live, ListsRanges, Told, Range;
    if IsTold(w, id, s, trace, ref, sha) {
      var e :| e in Told(w, id, s, MATCH_ALL, trace, |trace.open|) && e.candidate.ref == ref && About(e.candidate, sha);
      var j := CommitEventsComeFromGains(w, id, s, MATCH_ALL, trace, e, sha);
    }
    if j :| 0 < j <= |trace.open| && GainedLive(w, s, trace, ref, sha, j) {
      var repo, cs := w.repository(s.profile), Observed(w, s, trace.lives[j - 1], trace.lives[j]);
      assert GainFits(repo, s, trace, ref, j);
      GainsAreTold(repo, trace.lives[j - 1], trace.lives[j], LimitsOf(s), false, ref, sha);
      var i := ListedHasEvent(ref, cs, |cs|, sha);
      var e := LiveEventsAreTold(w, id, s, trace, |trace.open|, j, cs[i]);
    }
  }
}
