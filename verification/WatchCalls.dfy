/**
 What the calls of a watch's owner do, stated on the calls themselves: a watch starts
 live and empty, pauses and resumes as it is told, and its observations are those
 that its owner asks for.
 */
module WatchCalls {
  import opened Seqs
  import opened Observe
  import opened Criteria
  import opened WatchService
  import opened WatchLaws

  /** A caller of that tenant, or one that is not bound to a tenant. */
  predicate MayCall(caller: Option<string>, tenant: string) {
    caller == None || caller == Some(tenant)
  }

  /** A watch that is created with positive limits and an accepted id starts live and empty, as its spec says. */
  lemma CreatedWatchStartsLive(w: World, t: Tables, id: WatchId, spec: Spec, accepted: bool)
    requires ValidWorld(w) && Consistent(t)
    ensures var after := Step(w, t, Create(id, spec, accepted));
            if accepted && spec.maxBatch >= 1 && spec.maxInflight >= 1 && spec.journalMax >= 1 then
              && id in after.specs && after.specs[id] == spec && after.criteria[id] == spec.criteria
              && after.states[id] == Watching && after.journals[id] == [] && after.snapshots[id].entries == []
            else after == t
  {
    hide ValidWorld;
  }

  /** Calls about one watch leave every other as it is. */
  lemma OtherWatchesStay(w: World, t: Tables, op: Op, id: WatchId)
    requires ValidWorld(w) && Consistent(t) && op.id != id
    ensures View(Step(w, t, op), id) == View(t, id)
  {
    hide ValidWorld, Emitted;
  }

  /** A fetch is asked for, one interval after the last attempt or, without one, after time zero. */
  predicate Due(w: World, t: Tables, id: WatchId, fetchAt: Option<real>) {
    fetchAt.Some? && fetchAt.value - (if id in t.fetches then t.fetches[id] else 0.0) >= w.fetchInterval
  }

  /** What the owner asks for is done: the state is set, the watch removed, the fetch that is due attempted. */
  lemma OwnerCallsAreDone(w: World, t: Tables, op: Op)
    requires ValidWorld(w) && Consistent(t) && !op.Create?
    requires op.id in t.specs && MayCall(op.caller, t.specs[op.id].tenant)
    ensures var after := Step(w, t, op);
            match op
            case SetState(id, _, state) => id in after.specs && after.states[id] == state
            case Delete(id, _) =>
              && id !in after.specs && id !in after.criteria && id !in after.snapshots && id !in after.states
              && id !in after.journals && id !in after.fetches
            case Look(id, _, fetchAt, live) =>
              && id in after.specs && after.snapshots[id] == live
              && (Due(w, t, id, fetchAt) ==> id in after.fetches && after.fetches[id] == fetchAt.value)
  {
    hide ValidWorld, Emitted;
  }

  // ---------------------------------------------------------------------------
  // Pause and resume over runs
  // ---------------------------------------------------------------------------

  /** The owner pauses or resumes the watch. */
  predicate Asks(op: Op, id: WatchId, tenant: string) {
    op.SetState? && op.id == id && MayCall(op.caller, tenant)
  }

  /** Whether the owner's last call among the first `n` to pause or resume was a resume; without one, how it started. */
  predicate LiveAfter(startsLive: bool, ops: seq<Op>, n: nat, id: WatchId, tenant: string)
    requires n <= |ops|
  {
    if n == 0 then startsLive
    else if Asks(ops[n - 1], id, tenant) then ops[n - 1].state == Watching
    else LiveAfter(startsLive, ops, n - 1, id, tenant)
  }

  /** The observations that the first `n` calls ask for, and whether each falls into a live time. */
  function CallTrace(first: RefSnapshot, startsLive: bool, ops: seq<Op>, n: nat, id: WatchId,
                     tenant: string): Trace
    requires n <= |ops|
  {
    if n == 0 then Trace([first], [])
    else
      var before, op := CallTrace(first, startsLive, ops, n - 1, id, tenant), ops[n - 1];
      if op.Look? && op.id == id && MayCall(op.caller, tenant)
      then Trace(before.lives + [op.live], before.open + [LiveAfter(startsLive, ops, n - 1, id, tenant)])
      else before
  }

  lemma StateOfStep(w: World, t: Tables, op: Op, id: WatchId)
    requires ValidWorld(w) && Consistent(t) && id in t.specs
    requires !Overwrites(op, id) && !(op.Delete? && op.id == id)
    ensures id in Step(w, t, op).states
    ensures Step(w, t, op).states[id] == if Asks(op, id, t.specs[id].tenant) then op.state else t.states[id]
    ensures LooksAt(t, op, id) <==> op.Look? && op.id == id && MayCall(op.caller, t.specs[id].tenant)
  {
    hide ValidWorld, Emitted;
  }

  /**
   Over any run that keeps the watch, it is live exactly when the owner's last pause or
   resume was a resume, or there was none and it started live; so the observations that
   are journaled are exactly those that the owner asked for in a live time.
   */
  lemma {:induction false} TraceFollowsCalls(w: World, t: Tables, ops: seq<Op>, n: nat, id: WatchId)
    requires ValidWorld(w) && Consistent(t) && id in t.specs && n <= |ops| && Keeps(ops, id)
    ensures var live, tenant := t.states[id] == Watching, t.specs[id].tenant;
            && id in Run(w, t, ops, n).states
            && (Run(w, t, ops, n).states[id] == Watching <==> LiveAfter(live, ops, n, id, tenant))
            && TraceOf(w, t, ops, n, id) == CallTrace(t.snapshots[id], live, ops, n, id, tenant)
  {
    hide ValidWorld, Step, LooksAt, Asks, Overwrites, Told;
    if n > 0 {
      TraceFollowsCalls(w, t, ops, n - 1, id);
      JournalOfRun(w, t, ops, n - 1, id);
      StateOfStep(w, Run(w, t, ops, n - 1), ops[n - 1], id);
    }
  }

  /** From the owner's pause to its next resume nothing enters the journal. */
  lemma {:induction false} PausedJournalStays(w: World, t: Tables, ops: seq<Op>, k: nat, n: nat,
                                              id: WatchId)
    requires ValidWorld(w) && Consistent(t) && id in t.specs && k < n <= |ops| && Keeps(ops, id)
    requires Asks(ops[k], id, t.specs[id].tenant) && ops[k].state == Paused
    requires forall m :: k < m < n && Asks(ops[m], id, t.specs[id].tenant) ==> ops[m].state == Paused
    ensures var before, after := Run(w, t, ops, k), Run(w, t, ops, n);
            && id in before.specs && id in after.specs
            && after.states[id] == Paused && after.journals[id] == before.journals[id]
  {
    hide ValidWorld, Step, Overwrites, Told;
    JournalOfRun(w, t, ops, n - 1, id);
    JournalOfRun(w, t, ops, k, id);
    StateOfStep(w, Run(w, t, ops, n - 1), ops[n - 1], id);
    StepSeenByWatch(w, Run(w, t, ops, n - 1), ops[n - 1], id);
    if k < n - 1 {
      PausedJournalStays(w, t, ops, k, n - 1, id);
    }
  }

  // ---------------------------------------------------------------------------
  // What is journaled
  // ---------------------------------------------------------------------------

  /** Some event of the list is about that candidate. */
  ghost predicate HasEvent(events: seq<Event>, x: ChangeCandidate) {
    exists e :: e in events && e.candidate == x
  }

  lemma HasEventAppend(a: seq<Event>, b: seq<Event>, x: ChangeCandidate)
    ensures HasEvent(a + b, x) <==> HasEvent(a, x) || HasEvent(b, x)
  {
  }

  /** The matching candidates, and no others, have events. */
  lemma {:induction false} MatchingIsExact(w: World, id: WatchId, s: Spec, c: Criteria, cs: seq<ChangeCandidate>,
                                           n: nat, x: ChangeCandidate)
    requires n <= |cs|
    ensures HasEvent(Matching(w, id, s, c, cs, n), x)
            <==> Satisfies(w.text, c, x) && exists i :: 0 <= i < n && cs[i] == x
  {
    hide Satisfies, Evidence;
    if n > 0 {
      MatchingIsExact(w, id, s, c, cs, n - 1, x);
      var last := if Satisfies(w.text, c, cs[n - 1]) then
                    [Event(id, s.tenant, s.profile, cs[n - 1], Evidence(w.text, c, cs[n - 1]))] else [];
      HasEventAppend(Matching(w, id, s, c, cs, n - 1), last, x);
      assert last != [] ==> last[0].candidate == cs[n - 1];
    }
  }

  /** There is one event for each matching candidate, in the order of the candidates. */
  lemma {:induction false} MatchingCount(w: World, id: WatchId, s: Spec, c: Criteria, cs: seq<ChangeCandidate>, n: nat)
    requires n < |cs|
    ensures var before, after := Matching(w, id, s, c, cs, n), Matching(w, id, s, c, cs, n + 1);
            if Satisfies(w.text, c, cs[n]) then
              |after| == |before| + 1 && after[..|before|] == before && after[|before|].candidate == cs[n]
            else after == before
  {
    hide Satisfies, Evidence;
  }

  /** Each event says what made it match, truly. */
  lemma {:induction false} EventsAreEvidenced(w: World, id: WatchId, s: Spec, c: Criteria, cs: seq<ChangeCandidate>,
                                              n: nat, e: Event)
    requires n <= |cs| && e in Matching(w, id, s, c, cs, n)
    ensures e.evidence == Evidence(w.text, c, e.candidate)
  {
    hide Satisfies, Evidence;
    if e in Matching(w, id, s, c, cs, n - 1) {
      EventsAreEvidenced(w, id, s, c, cs, n - 1, e);
    }
  }
}
