/**
 The tables of the watch service and the journals of its watches. A watch is
 owned by a tenant; an observation diffs the watched repository against the
 watch's snapshot, journals the matching candidates when the watch is live, and
 advances the snapshot in any case.

 Calls are taken one after another. The coordinator of the platform is assumed to
 keep a state and a journal per watch, and to accept or refuse a watch id at
 creation; the journal here is the full history, before any trimming.
 */
module WatchService {
  import opened Seqs
  import opened CommitGraph
  import opened Observe
  import opened Criteria
  import FetchGate

  type WatchId = FetchGate.WatchId

  const MAX_PATHS_PER_COMMIT: nat := 100

  datatype WatchState = Watching | Paused

  datatype Spec = Spec(profile: string, tenant: string, criteria: Criteria, maxBatch: int, maxInflight: int,
                       journalMax: int)

  datatype Event = Event(watch: WatchId, tenant: string, profile: string, candidate: ChangeCandidate,
                         evidence: Provenance)

  datatype Tables = Tables(
    specs: map<WatchId, Spec>,
    criteria: map<WatchId, Criteria>,
    snapshots: map<WatchId, RefSnapshot>,
    states: map<WatchId, WatchState>,
    journals: map<WatchId, seq<Event>>,
    fetches: map<WatchId, real>)       // the time of the last fetch, if there was one

  /** Repositories by profile, the text matcher, and the least time between two fetches of a watch. */
  datatype World = World(repository: string -> Repository, text: TextMatch, fetchInterval: real)

  ghost predicate ValidWorld(w: World) {
    forall p {:trigger w.repository(p)} :: Valid(w.repository(p))
  }

  const NEVER_OBSERVED := RefSnapshot([])

  /** Every watch has an entry in every table but that of the fetches. */
  ghost predicate Consistent(t: Tables) {
    && (forall i :: i in t.specs <==> i in t.criteria)
    && (forall i :: i in t.specs <==> i in t.snapshots)
    && (forall i :: i in t.specs <==> i in t.states)
    && (forall i :: i in t.specs <==> i in t.journals)
  }

  predicate ValidSpec(s: Spec) {
    s.maxBatch >= 1 && s.maxInflight >= 1 && s.journalMax >= 1
  }

  /** No caller tenant means an unscoped caller. */
  predicate Owns(t: Tables, id: WatchId, caller: Option<string>) {
    id in t.specs && (caller.Some? ==> t.specs[id].tenant == caller.value)
  }

  function LimitsOf(s: Spec): (r: Limits)
    ensures ValidSpec(s) ==> 1 <= r.maxCommits <= s.maxBatch && r.maxCommits <= s.journalMax
    ensures ValidSpec(s) ==> r.maxCommits == s.maxBatch || r.maxCommits == s.journalMax
    ensures r.maxPaths == 100
  {
    var n := if s.maxBatch < s.journalMax then s.maxBatch else s.journalMax;
    Limits(if n < 0 then 0 else n, MAX_PATHS_PER_COMMIT)
  }

  /** The events of the first `n` candidates that match. */
  function Matching(w: World, id: WatchId, s: Spec, c: Criteria, cs: seq<ChangeCandidate>, n: nat): seq<Event>
    requires n <= |cs|
  {
    if n == 0 then []
    else
      var x := cs[n - 1];
      Matching(w, id, s, c, cs, n - 1)
      + if Satisfies(w.text, c, x) then [Event(id, s.tenant, s.profile, x, Evidence(w.text, c, x))] else []
  }

  function Observed(w: World, s: Spec, previous: RefSnapshot, live: RefSnapshot): seq<ChangeCandidate>
    requires Acyclic(w.repository(s.profile).graph)
  {
    Candidates(w.repository(s.profile), previous, live, LimitsOf(s), false)
  }

  /** What one observation adds to the journal of a watch. */
  function Emitted(w: World, id: WatchId, s: Spec, c: Criteria, open: bool, previous: RefSnapshot, live: RefSnapshot)
    : seq<Event>
    requires Acyclic(w.repository(s.profile).graph)
  {
    if open then
      var cs := Observed(w, s, previous, live);
      Matching(w, id, s, c, cs, |cs|)
    else []
  }

  datatype Op =
    | Create(id: WatchId, spec: Spec, accepted: bool)
    | SetState(id: WatchId, caller: Option<string>, state: WatchState)
    | Delete(id: WatchId, caller: Option<string>)
    | Look(id: WatchId, caller: Option<string>, fetchAt: Option<real>, live: RefSnapshot)

  function AfterCreate(t: Tables, id: WatchId, spec: Spec, accepted: bool): (r: Tables)
    requires Consistent(t)
    ensures Consistent(r)
  {
    if ValidSpec(spec) && accepted then
      Tables(t.specs[id := spec], t.criteria[id := spec.criteria], t.snapshots[id := NEVER_OBSERVED],
             t.states[id := Watching], t.journals[id := []], t.fetches)
    else t
  }

  function AfterSetState(t: Tables, id: WatchId, caller: Option<string>, state: WatchState): (r: Tables)
    requires Consistent(t)
    ensures Consistent(r)
  {
    if Owns(t, id, caller) then t.(states := t.states[id := state]) else t
  }

  function AfterDelete(t: Tables, id: WatchId, caller: Option<string>): (r: Tables)
    requires Consistent(t)
    ensures Consistent(r)
  {
    if Owns(t, id, caller) then
      Tables(t.specs - {id}, t.criteria - {id}, t.snapshots - {id}, t.states - {id}, t.journals - {id},
             t.fetches - {id})
    else t
  }

  /** A fetch that is asked for is attempted if the gate lets it through. */
  function Fetched(w: World, fetches: map<WatchId, real>, id: WatchId, fetchAt: Option<real>): map<WatchId, real> {
    if fetchAt.Some? then FetchGate.Step(fetches, w.fetchInterval, FetchGate.Fetch(id, fetchAt.value)) else fetches
  }

  /** `live` are the refs after the fetch, if there was one. */
  function AfterLook(w: World, t: Tables, id: WatchId, fetchAt: Option<real>, live: RefSnapshot): (r: Tables)
    requires ValidWorld(w) && Consistent(t) && id in t.specs
    ensures Consistent(r)
  {
    var emitted := Emitted(w, id, t.specs[id], t.criteria[id], t.states[id] == Watching, t.snapshots[id], live);
    t.(journals := t.journals[id := t.journals[id] + emitted], snapshots := t.snapshots[id := live],
       fetches := Fetched(w, t.fetches, id, fetchAt))
  }

  lemma FetchesAreApart(t: Tables, fetches: map<WatchId, real>)
    requires Consistent(t)
    ensures Consistent(t.(fetches := fetches))
  {
  }

  function Step(w: World, t: Tables, op: Op): (r: Tables)
    requires ValidWorld(w) && Consistent(t)
    ensures Consistent(r)
  {
    match op
    case Create(id, spec, accepted) => AfterCreate(t, id, spec, accepted)
    case SetState(id, caller, state) => AfterSetState(t, id, caller, state)
    case Delete(id, caller) => AfterDelete(t, id, caller)
    case Look(id, caller, fetchAt, live) => if Owns(t, id, caller) then AfterLook(w, t, id, fetchAt, live) else t
  }

  lemma HasAllEntries(w: World, t: Tables, id: WatchId)
    requires ValidWorld(w) && Consistent(t) && id in t.specs
    ensures id in t.criteria && id in t.snapshots && id in t.states && id in t.journals
    ensures Acyclic(w.repository(t.specs[id].profile).graph)
  {
  }

  /** The tables after the first `n` calls. */
  function Run(w: World, t: Tables, ops: seq<Op>, n: nat): (r: Tables)
    requires ValidWorld(w) && Consistent(t) && n <= |ops|
    ensures Consistent(r)
  {
    if n == 0 then t else Step(w, Run(w, t, ops, n - 1), ops[n - 1])
  }

  /** The service object: its methods carry the calls out on mutable tables. */
  class Service {
    const world: World
    var specs: map<WatchId, Spec>
    var criteria: map<WatchId, Criteria>
    var snapshots: map<WatchId, RefSnapshot>
    var states: map<WatchId, WatchState>
    var journals: map<WatchId, seq<Event>>
    const gate: FetchGate.Gate

    ghost function Contents(): Tables
      reads this, gate
    {
      Tables(specs, criteria, snapshots, states, journals, gate.lastFetch)
    }

    ghost predicate Valid()
      reads this, gate
    {
      ValidWorld(world) && Consistent(Contents()) && gate.interval == world.fetchInterval
    }

    constructor (w: World)
      requires ValidWorld(w)
      ensures Valid() && world == w && fresh(gate)
      ensures Contents() == Tables(map[], map[], map[], map[], map[], map[])
    {
      world := w;
      specs, criteria, snapshots, states, journals := map[], map[], map[], map[], map[];
      gate := new FetchGate.Gate(w.fetchInterval);
    }

    method RequireOwner(id: WatchId, caller: Option<string>) returns (found: Option<Spec>)
      ensures found == if Owns(Contents(), id, caller) then Some(specs[id]) else None
    {
      if id !in specs {
        return None;
      }
      if caller.Some? && specs[id].tenant != caller.value {
        return None;
      }
      return Some(specs[id]);
    }

    /** `accepted` is the coordinator's answer to the new watch. */
    method CreateWatch(id: WatchId, spec: Spec, accepted: bool) returns (ok: bool)
      requires Valid()
      modifies this
      ensures Contents() == AfterCreate(old(Contents()), id, spec, accepted) && Valid()
      ensures ok <==> ValidSpec(spec) && accepted
    {
      hide ValidWorld, Consistent;
      if spec.maxBatch < 1 || spec.maxInflight < 1 || spec.journalMax < 1 || !accepted {
        return false;
      }
      states, journals := states[id := Watching], journals[id := []];
      specs := specs[id := spec];
      criteria := criteria[id := spec.criteria];
      snapshots := snapshots[id := NEVER_OBSERVED];
      ok := true;
    }

    method ChangeState(id: WatchId, caller: Option<string>, state: WatchState) returns (ok: bool)
      requires Valid()
      modifies this
      ensures Contents() == AfterSetState(old(Contents()), id, caller, state) && Valid()
      ensures ok <==> old(Owns(Contents(), id, caller))
    {
      hide ValidWorld, Consistent;
      var found := RequireOwner(id, caller);
      if found == None {
        return false;
      }
      states := states[id := state];
      ok := true;
    }

    method DeleteWatch(id: WatchId, caller: Option<string>) returns (ok: bool)
      requires Valid()
      modifies this, gate
      ensures Contents() == AfterDelete(old(Contents()), id, caller) && Valid()
      ensures ok <==> old(Owns(Contents(), id, caller))
    {
      hide ValidWorld, Consistent;
      var found := RequireOwner(id, caller);
      if found == None {
        return false;
      }
      states, journals := states - {id}, journals - {id};
      specs := specs - {id};
      criteria := criteria - {id};
      snapshots := snapshots - {id};
      gate.Forget(id);
      ok := true;
    }

    method EmitMatching(id: WatchId, spec: Spec, c: Criteria, cs: seq<ChangeCandidate>) returns (emitted: nat)
      requires Valid() && id in journals
      modifies this`journals
      ensures id in journals && journals == old(journals)[id := journals[id]]
      ensures journals[id] == old(journals[id]) + Matching(world, id, spec, c, cs, |cs|)
      ensures emitted == |Matching(world, id, spec, c, cs, |cs|)|
    {
      emitted := 0;
      ghost var before := journals;
      for i := 0 to |cs|
        invariant id in journals && journals == before[id := journals[id]]
        invariant journals[id] == before[id] + Matching(world, id, spec, c, cs, i)
        invariant emitted == |Matching(world, id, spec, c, cs, i)|
      {
        var matched := Match(world.text, c, cs[i]);
        if matched == None {
          continue;
        }
        var event := Event(id, spec.tenant, spec.profile, cs[i], matched.value);
        journals := journals[id := journals[id] + [event]];
        emitted := emitted + 1;
      }
    }

    /** Diff, emit to a live watch, advance the snapshot in any case. */
    method ObserveOwned(id: WatchId, live: RefSnapshot) returns (emitted: nat)
      requires Valid() && id in specs
      modifies this`journals, this`snapshots
      ensures Contents() == AfterLook(world, old(Contents()), id, None, live) && Valid()
      ensures emitted == |journals[id]| - |old(journals)[id]|
    {
      hide Candidates, Matching, ValidWorld, Consistent;
      HasAllEntries(world, Contents(), id);
      var spec, previous := specs[id], snapshots[id];
      var cs, snapshot := ObserveRefs(world.repository(spec.profile), previous, live, LimitsOf(spec), false);
      emitted := 0;
      if states[id] == Watching {
        emitted := EmitMatching(id, spec, criteria[id], cs);
      } else {
        assert journals[id] + [] == journals[id];
      }
      snapshots := snapshots[id := snapshot];
    }

    /** `fetchAt` is the clock if a fetch is asked for, `live` what the refs are after it. */
    method ObserveRepo(id: WatchId, caller: Option<string>, fetchAt: Option<real>, live: RefSnapshot)
      returns (emitted: Option<nat>, attempted: bool)
      requires Valid()
      modifies this, gate
      ensures Contents() == Step(world, old(Contents()), Look(id, caller, fetchAt, live)) && Valid()
      ensures emitted.Some? <==> old(Owns(Contents(), id, caller))
      ensures emitted.Some? ==> emitted.value == |journals[id]| - |old(journals)[id]|
      ensures attempted <==> (emitted.Some? && fetchAt.Some?
                              && FetchGate.Allowed(old(gate.lastFetch), gate.interval, id, fetchAt.value))
    {
      hide ValidWorld, Consistent, Emitted;
      attempted := false;
      var found := RequireOwner(id, caller);
      if found == None {
        return None, false;
      }
      ghost var before := Contents();
      if fetchAt.Some? {
        attempted := gate.MaybeFetch(id, fetchAt.value);
      }
      FetchesAreApart(before, gate.lastFetch);
      assert Contents() == before.(fetches := gate.lastFetch);
      var count := ObserveOwned(id, live);
      emitted := Some(count);
    }
  }
}
