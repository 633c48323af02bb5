/**
 The profile store: a mapping from names to bodies, kept in a table whose rows
 are never removed but only switched off. A body stands for JSON data that
 survives writing and reading, and fresh row keys are given by the caller.
 */
module ProfileStore {
  import opened Seqs

  datatype Name = Name(text: string)
  datatype Key = Key(text: string)

  /** `display` is empty when the body has no display name of its own. */
  datatype Body = Body(display: string, content: string)

  datatype Row = Row(key: Key, name: Name, display: string, body: Body, active: bool)

  /** A seed of the configuration, with the key that a new row for it would get. */
  datatype Seed = Seed(name: Name, body: Body, key: Key)

  datatype Op =
    | Put(name: Name, body: Body, key: Key)
    | Delete(name: Name)
    | Restart(seeds: seq<Seed>, managed: set<Name>)

  function DisplayName(name: Name, body: Body): string {
    if body.display != "" then body.display else name.text
  }

  // ---------------------------------------------------------------------------
  // The table
  // ---------------------------------------------------------------------------

  /** The row of a name among the first `n`, or `n` if it has none. */
  function IndexOf(rows: seq<Row>, name: Name, n: nat): (i: nat)
    requires n <= |rows|
    ensures i <= n
    ensures i < n ==> rows[i].name == name
    ensures forall j :: 0 <= j < i ==> rows[j].name != name
  {
    if n == 0 then 0
    else
      var i := IndexOf(rows, name, n - 1);
      if i < n - 1 || rows[n - 1].name == name then i else n
  }

  function Find(rows: seq<Row>, name: Name): nat {
    IndexOf(rows, name, |rows|)
  }

  predicate Known(rows: seq<Row>, name: Name) {
    Find(rows, name) < |rows|
  }

  function Get(rows: seq<Row>, name: Name): Option<Body> {
    var i := Find(rows, name);
    if i < |rows| && rows[i].active then Some(rows[i].body) else None
  }

  function Filled(row: Row, body: Body): Row {
    row.(body := body, display := DisplayName(row.name, body), active := true)
  }

  function NewRow(name: Name, body: Body, key: Key): Row {
    Row(key, name, DisplayName(name, body), body, true)
  }

  function AfterPut(rows: seq<Row>, name: Name, body: Body, key: Key): seq<Row> {
    var i := Find(rows, name);
    if i == |rows| then rows + [NewRow(name, body, key)] else rows[i := Filled(rows[i], body)]
  }

  function AfterDelete(rows: seq<Row>, name: Name): seq<Row> {
    var i := Find(rows, name);
    if i < |rows| && rows[i].active then rows[i := rows[i].(active := false)] else rows
  }

  function AfterSeed(rows: seq<Row>, seed: Seed, managed: set<Name>): seq<Row> {
    if Known(rows, seed.name) && seed.name !in managed then rows
    else AfterPut(rows, seed.name, seed.body, seed.key)
  }

  function Backfilled(rows: seq<Row>, seeds: seq<Seed>, managed: set<Name>, n: nat): seq<Row>
    requires n <= |seeds|
  {
    if n == 0 then rows else AfterSeed(Backfilled(rows, seeds, managed, n - 1), seeds[n - 1], managed)
  }

  function Step(rows: seq<Row>, op: Op): seq<Row> {
    match op
    case Put(name, body, key) => AfterPut(rows, name, body, key)
    case Delete(name) => AfterDelete(rows, name)
    case Restart(seeds, managed) => Backfilled(rows, seeds, managed, |seeds|)
  }

  function Run(rows: seq<Row>, ops: seq<Op>, n: nat): seq<Row>
    requires n <= |ops|
  {
    if n == 0 then rows else Step(Run(rows, ops, n - 1), ops[n - 1])
  }

  /** The names that are switched on, in the order of the table. */
  function ActiveNames(rows: seq<Row>, n: nat): seq<Name>
    requires n <= |rows|
  {
    if n == 0 then []
    else ActiveNames(rows, n - 1) + if rows[n - 1].active then [rows[n - 1].name] else []
  }

  /** What the unique column promises. */
  ghost predicate UniqueNames(rows: seq<Row>) {
    forall i, j :: 0 <= i < j < |rows| ==> rows[i].name != rows[j].name
  }

  /** No two seeds share a name: they come from a dictionary. */
  ghost predicate DistinctSeeds(seeds: seq<Seed>) {
    forall i, j :: 0 <= i < j < |seeds| ==> seeds[i].name != seeds[j].name
  }

  // ---------------------------------------------------------------------------
  // The store
  // ---------------------------------------------------------------------------

  class Store {
    var rows: seq<Row>

    /** Opens the store on an existing table. */
    constructor (rows: seq<Row>, seeds: seq<Seed>, managed: set<Name>)
      ensures this.rows == Step(rows, Restart(seeds, managed))
    {
      this.rows := rows;
      new;
      Backfill(seeds, managed);
    }

    method Backfill(seeds: seq<Seed>, managed: set<Name>)
      modifies this
      ensures rows == Backfilled(old(rows), seeds, managed, |seeds|)
    {
      var k := 0;
      while k < |seeds|
        invariant k <= |seeds|
        invariant rows == Backfilled(old(rows), seeds, managed, k)
      {
        var seed := seeds[k];
        var i := Find(rows, seed.name);
        if i == |rows| {
          rows := rows + [NewRow(seed.name, seed.body, seed.key)];
        } else if seed.name in managed {
          rows := rows[i := Filled(rows[i], seed.body)];
        }
        k := k + 1;
      }
    }

    method GetItem(name: Name) returns (body: Option<Body>)
      ensures body == Get(rows, name)
    {
      var i := Find(rows, name);
      if i == |rows| || !rows[i].active {
        return None;
      }
      body := Some(rows[i].body);
    }

    method SetItem(name: Name, body: Body, key: Key)
      modifies this
      ensures rows == Step(old(rows), Put(name, body, key))
    {
      var i := Find(rows, name);
      if i == |rows| {
        rows := rows + [NewRow(name, body, key)];
      } else {
        rows := rows[i := Filled(rows[i], body)];
      }
    }

    /** Fails, and changes nothing, when the name is not switched on. */
    method DeleteItem(name: Name) returns (ok: bool)
      modifies this
      ensures rows == Step(old(rows), Delete(name))
      ensures ok <==> Get(old(rows), name).Some?
    {
      var i := Find(rows, name);
      if i == |rows| || !rows[i].active {
        return false;
      }
      rows := rows[i := rows[i].(active := false)];
      ok := true;
    }

    method Names() returns (names: seq<Name>)
      ensures names == ActiveNames(rows, |rows|)
    {
      names := ActiveNames(rows, |rows|);
    }
  }

  // ---------------------------------------------------------------------------
  // The plain map that the table stands for
  // ---------------------------------------------------------------------------

  /** The live entries, and every name that has ever been used. */
  datatype Plain = Plain(live: map<Name, Body>, known: set<Name>)

  /** The seeds as the dictionary they come from. */
  function Seeded(seeds: seq<Seed>, n: nat): map<Name, Body>
    requires n <= |seeds|
  {
    if n == 0 then map[] else Seeded(seeds, n - 1)[seeds[n - 1].name := seeds[n - 1].body]
  }

  function PlainStep(p: Plain, op: Op): Plain {
    match op
    case Put(name, body, key) => Plain(p.live[name := body], p.known + {name})
    case Delete(name) => p.(live := p.live - {name})
    case Restart(seeds, managed) =>
      var bodies := Seeded(seeds, |seeds|);
      var written := map n | n in bodies && (n !in p.known || n in managed) :: bodies[n];
      Plain(p.live + written, p.known + bodies.Keys)
  }

  function PlainRun(p: Plain, ops: seq<Op>, n: nat): Plain
    requires n <= |ops|
  {
    if n == 0 then p else PlainStep(PlainRun(p, ops, n - 1), ops[n - 1])
  }

  function Lookup(p: Plain, name: Name): Option<Body> {
    if name in p.live then Some(p.live[name]) else None
  }

  /** The table and the plain map answer alike. */
  ghost predicate Agrees(rows: seq<Row>, p: Plain) {
    && p.live.Keys <= p.known
    && (forall n: Name :: Known(rows, n) <==> n in p.known)
    && (forall n: Name :: Get(rows, n) == Lookup(p, n))
  }

  ghost predicate SeedsAreDistinct(ops: seq<Op>) {
    forall k :: 0 <= k < |ops| && ops[k].Restart? ==> DistinctSeeds(ops[k].seeds)
  }

  // ---------------------------------------------------------------------------
  // Laws
  // ---------------------------------------------------------------------------

  /** Rows keep their places, their keys and their names; new rows come after them. */
  ghost predicate Extends(rows: seq<Row>, later: seq<Row>) {
    && |rows| <= |later|
    && forall i :: 0 <= i < |rows| ==> later[i].key == rows[i].key && later[i].name == rows[i].name
  }

  lemma FindStays(rows: seq<Row>, later: seq<Row>, name: Name)
    requires Extends(rows, later) && Known(rows, name)
    ensures Find(later, name) == Find(rows, name)
  {
    var i := Find(rows, name);
    assert later[i].name == name;
  }

  /** A write is seen under its own name and nowhere else. */
  lemma PutIsLocal(rows: seq<Row>, name: Name, body: Body, key: Key, n: Name)
    requires UniqueNames(rows)
    ensures var after := AfterPut(rows, name, body, key);
            && UniqueNames(after)
            && Extends(rows, after)
            && (Known(after, n) <==> n == name || Known(rows, n))
            && Get(after, n) == (if n == name then Some(body) else Get(rows, n))
            && (!Known(rows, name) ==> after[Find(after, name)].key == key)
  {
    var after := AfterPut(rows, name, body, key);
    if Known(rows, n) {
      FindStays(rows, after, n);
    } else if n == name {
      assert after[|rows|].name == name;
    }
  }

  lemma DeleteIsLocal(rows: seq<Row>, name: Name, n: Name)
    requires UniqueNames(rows)
    ensures var after := AfterDelete(rows, name);
            && UniqueNames(after)
            && Extends(rows, after)
            && (Known(after, n) <==> Known(rows, n))
            && Get(after, n) == if n == name then None else Get(rows, n)
  {
    var after := AfterDelete(rows, name);
    if Known(rows, n) {
      FindStays(rows, after, n);
    }
  }

  lemma {:induction false} SeededNames(seeds: seq<Seed>, n: nat, name: Name)
    requires n <= |seeds|
    ensures name in Seeded(seeds, n) <==> exists k :: 0 <= k < n && seeds[k].name == name
  {
    if n > 0 {
      SeededNames(seeds, n - 1, name);
    }
  }

  /**
   A restart writes the seeds whose names are new or managed, and nothing else:
   an ordinary name that was ever used keeps its body, or stays deleted.
   */
  lemma {:induction false} BackfillIsExact(rows: seq<Row>, seeds: seq<Seed>, managed: set<Name>, n: nat, name: Name)
    requires n <= |seeds| && UniqueNames(rows) && DistinctSeeds(seeds)
    ensures var after, bodies := Backfilled(rows, seeds, managed, n), Seeded(seeds, n);
            && UniqueNames(after)
            && Extends(rows, after)
            && (Known(after, name) <==> Known(rows, name) || name in bodies)
            && Get(after, name) == if name in bodies && (!Known(rows, name) || name in managed)
                                   then Some(bodies[name]) else Get(rows, name)
  {
    hide UniqueNames, AfterPut, Get, Known;
    if n > 0 {
      var before, seed := Backfilled(rows, seeds, managed, n - 1), seeds[n - 1];
      BackfillIsExact(rows, seeds, managed, n - 1, name);
      BackfillIsExact(rows, seeds, managed, n - 1, seed.name);
      SeededNames(seeds, n - 1, seed.name);
      PutIsLocal(before, seed.name, seed.body, seed.key, name);
    }
  }

  /** Every seed has a row, and the rows of the managed ones are as the seeds want them. */
  ghost predicate Settled(rows: seq<Row>, seeds: seq<Seed>, managed: set<Name>, n: nat)
    requires n <= |seeds|
  {
    forall k :: 0 <= k < n ==> SeedSettled(rows, seeds[k], managed)
  }

  predicate SeedSettled(rows: seq<Row>, seed: Seed, managed: set<Name>) {
    var i := Find(rows, seed.name);
    i < |rows| && (seed.name in managed ==> rows[i] == Filled(rows[i], seed.body))
  }

  /** A seed changes the table exactly when it is not settled. */
  lemma SettledMeansUnchanged(rows: seq<Row>, seed: Seed, managed: set<Name>)
    ensures AfterSeed(rows, seed, managed) == rows <==> SeedSettled(rows, seed, managed)
  {
  }

  lemma SeedSettles(rows: seq<Row>, seed: Seed, managed: set<Name>, other: Seed)
    requires UniqueNames(rows) && (other == seed || (other.name != seed.name && SeedSettled(rows, other, managed)))
    ensures SeedSettled(AfterSeed(rows, seed, managed), other, managed)
  {
    var after := AfterSeed(rows, seed, managed);
    if Known(rows, other.name) {
      PutIsLocal(rows, seed.name, seed.body, seed.key, other.name);
      FindStays(rows, after, other.name);
    }
  }

  lemma {:induction false} BackfillSettles(rows: seq<Row>, seeds: seq<Seed>, managed: set<Name>, n: nat)
    requires n <= |seeds| && UniqueNames(rows) && DistinctSeeds(seeds)
    ensures Settled(Backfilled(rows, seeds, managed, n), seeds, managed, n)
  {
    hide UniqueNames, AfterSeed, SeedSettled;
    if n > 0 {
      var before := Backfilled(rows, seeds, managed, n - 1);
      BackfillSettles(rows, seeds, managed, n - 1);
      BackfillIsExact(rows, seeds, managed, n - 1, seeds[n - 1].name);
      forall k | 0 <= k < n
        ensures SeedSettled(AfterSeed(before, seeds[n - 1], managed), seeds[k], managed)
      {
        SeedSettles(before, seeds[n - 1], managed, seeds[k]);
      }
    }
  }

  lemma {:induction false} SettledStays(rows: seq<Row>, seeds: seq<Seed>, managed: set<Name>, n: nat)
    requires n <= |seeds| && Settled(rows, seeds, managed, n)
    ensures Backfilled(rows, seeds, managed, n) == rows
  {
    if n > 0 {
      SettledStays(rows, seeds, managed, n - 1);
      SettledMeansUnchanged(rows, seeds[n - 1], managed);
    }
  }

  /** A restart leaves the table as it is exactly when every seed is settled. */
  lemma RestartIsQuietExactly(rows: seq<Row>, seeds: seq<Seed>, managed: set<Name>)
    requires UniqueNames(rows) && DistinctSeeds(seeds)
    ensures Step(rows, Restart(seeds, managed)) == rows <==> Settled(rows, seeds, managed, |seeds|)
  {
    BackfillSettles(rows, seeds, managed, |seeds|);
    if Settled(rows, seeds, managed, |seeds|) {
      SettledStays(rows, seeds, managed, |seeds|);
    }
  }

  predicate SameSeed(a: Seed, b: Seed) {
    a.name == b.name && a.body == b.body
  }

  /** A second restart with the same seeds changes nothing, whatever keys it would have used. */
  lemma BackfillIsIdempotent(rows: seq<Row>, seeds: seq<Seed>, again: seq<Seed>, managed: set<Name>)
    requires UniqueNames(rows) && DistinctSeeds(seeds)
    requires |again| == |seeds| && forall k :: 0 <= k < |seeds| ==> SameSeed(seeds[k], again[k])
    ensures var once := Step(rows, Restart(seeds, managed)); Step(once, Restart(again, managed)) == once
  {
    var once := Step(rows, Restart(seeds, managed));
    BackfillSettles(rows, seeds, managed, |seeds|);
    forall k | 0 <= k < |again|
      ensures SeedSettled(once, again[k], managed)
    {
      assert SameSeed(seeds[k], again[k]) && SeedSettled(once, seeds[k], managed);
    }
    SettledStays(once, again, managed, |again|);
  }

  /** One call on the table is the same call on the plain map. */
  lemma StepAgrees(rows: seq<Row>, p: Plain, op: Op)
    requires UniqueNames(rows) && Agrees(rows, p) && (op.Restart? ==> DistinctSeeds(op.seeds))
    ensures UniqueNames(Step(rows, op)) && Extends(rows, Step(rows, op))
    ensures Agrees(Step(rows, op), PlainStep(p, op))
  {
    hide UniqueNames, Extends, AfterPut, AfterDelete, Backfilled, Known, Get;
    var after, q := Step(rows, op), PlainStep(p, op);
    OneCall(rows, op, Name(""));
    forall n: Name
      ensures (Known(after, n) <==> n in q.known) && Get(after, n) == Lookup(q, n)
    {
      OneCall(rows, op, n);
    }
  }

  /** What one call does to one name. */
  lemma OneCall(rows: seq<Row>, op: Op, n: Name)
    requires UniqueNames(rows) && (op.Restart? ==> DistinctSeeds(op.seeds))
    ensures UniqueNames(Step(rows, op)) && Extends(rows, Step(rows, op))
    ensures match op
            case Put(name, body, key) =>
              && (Known(Step(rows, op), n) <==> n == name || Known(rows, n))
              && Get(Step(rows, op), n) == if n == name then Some(body) else Get(rows, n)
            case Delete(name) =>
              && (Known(Step(rows, op), n) <==> Known(rows, n))
              && Get(Step(rows, op), n) == if n == name then None else Get(rows, n)
            case Restart(seeds, managed) =>
              var bodies := Seeded(seeds, |seeds|);
              && (Known(Step(rows, op), n) <==> Known(rows, n) || n in bodies)
              && Get(Step(rows, op), n) == if n in bodies && (!Known(rows, n) || n in managed)
                                           then Some(bodies[n]) else Get(rows, n)
  {
    hide UniqueNames, Extends, AfterPut, AfterDelete, Backfilled, Known, Get, Seeded;
    match op
    case Put(name, body, key) => PutIsLocal(rows, name, body, key, n);
    case Delete(name) => DeleteIsLocal(rows, name, n);
    case Restart(seeds, managed) => BackfillIsExact(rows, seeds, managed, |seeds|, n);
  }

  /**
   Over any run of writes, deletes and restarts the table answers like the plain
   map, with one row for each name ever used, which keeps its place and its key.
   */
  lemma {:induction false} RunAgrees(rows: seq<Row>, p: Plain, ops: seq<Op>, n: nat)
    requires n <= |ops| && UniqueNames(rows) && Agrees(rows, p) && SeedsAreDistinct(ops)
    ensures UniqueNames(Run(rows, ops, n)) && Extends(rows, Run(rows, ops, n))
    ensures Agrees(Run(rows, ops, n), PlainRun(p, ops, n))
  {
    hide UniqueNames, Agrees, Step, PlainStep;
    if n > 0 {
      RunAgrees(rows, p, ops, n - 1);
      StepAgrees(Run(rows, ops, n - 1), PlainRun(p, ops, n - 1), ops[n - 1]);
    }
  }

  /** A profile that is deleted and created again has the row key that it always had. */
  lemma {:induction false} KeyIsForever(rows: seq<Row>, p: Plain, ops: seq<Op>, name: Name)
    requires UniqueNames(rows) && Agrees(rows, p) && SeedsAreDistinct(ops) && Known(rows, name)
    ensures var after := Run(rows, ops, |ops|);
            Known(after, name) && after[Find(after, name)].key == rows[Find(rows, name)].key
  {
    RunAgrees(rows, p, ops, |ops|);
    FindStays(rows, Run(rows, ops, |ops|), name);
  }

  lemma {:induction false} ActiveNamesMembers(rows: seq<Row>, n: nat, name: Name)
    requires n <= |rows|
    ensures name in ActiveNames(rows, n) <==> exists i :: 0 <= i < n && rows[i].active && rows[i].name == name
  {
    if n > 0 {
      ActiveNamesMembers(rows, n - 1, name);
    }
  }

  lemma {:induction false} ActiveNamesDistinct(rows: seq<Row>, n: nat)
    requires n <= |rows| && UniqueNames(rows)
    ensures Distinct(ActiveNames(rows, n))
  {
    if n > 0 {
      ActiveNamesDistinct(rows, n - 1);
      ActiveNamesMembers(rows, n - 1, rows[n - 1].name);
    }
  }

  /** Iteration gives every live name once, so the length is that of the plain map. */
  lemma NamesAreTheLiveOnes(rows: seq<Row>, p: Plain)
    requires UniqueNames(rows) && Agrees(rows, p)
    ensures var names := ActiveNames(rows, |rows|);
            Distinct(names) && Elems(names) == p.live.Keys && |names| == |p.live|
  {
    var names := ActiveNames(rows, |rows|);
    ActiveNamesDistinct(rows, |rows|);
    forall n: Name
      ensures n in names <==> n in p.live
    {
      ActiveNamesMembers(rows, |rows|, n);
      assert Get(rows, n) == Lookup(p, n);
    }
    TakeElems(names, |names|);
    assert Elems(names) == p.live.Keys;
    assert |p.live| == |p.live.Keys|;
  }

  /** Every row is shown under the name that its body asks for. */
  ghost predicate Labelled(rows: seq<Row>) {
    forall i :: 0 <= i < |rows| ==>
      rows[i].display == if rows[i].body.display != "" then rows[i].body.display else rows[i].name.text
  }

  lemma {:induction false} BackfillKeepsLabels(rows: seq<Row>, seeds: seq<Seed>, managed: set<Name>, n: nat)
    requires n <= |seeds| && Labelled(rows)
    ensures Labelled(Backfilled(rows, seeds, managed, n))
  {
    if n > 0 {
      BackfillKeepsLabels(rows, seeds, managed, n - 1);
    }
  }

  lemma {:induction false} RunKeepsLabels(rows: seq<Row>, ops: seq<Op>, n: nat)
    requires n <= |ops| && Labelled(rows)
    ensures Labelled(Run(rows, ops, n))
  {
    if n > 0 {
      RunKeepsLabels(rows, ops, n - 1);
      if ops[n - 1].Restart? {
        BackfillKeepsLabels(Run(rows, ops, n - 1), ops[n - 1].seeds, ops[n - 1].managed, |ops[n - 1].seeds|);
      }
    }
  }
}
