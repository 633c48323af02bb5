/**
 How workspace ids are generated, what they tell apart, and what that means for
 a manager whose workspaces are all created under generated ids. The digest is
 a parameter that gives 12 hexadecimal digits. No such function is injective on
 all strings, so each law names the collision that it excludes.
 */
module WorkspaceIds {
  import opened Workspaces

  predicate IsHexDigit(c: char) {
    '0' <= c <= '9' || 'a' <= c <= 'f'
  }

  predicate IsHex(s: string, n: nat) {
    |s| == n && forall i :: 0 <= i < n ==> IsHexDigit(s[i])
  }

  /** The text that is digested. */
  function Text(profile: string, session: string): string {
    profile + "-" + session
  }

  function PersistentId(slug: string -> string, profile: string, session: string): Id {
    profile + "-" + slug(Text(profile, session))
  }

  function EphemeralId(profile: string, session: string, tail: string): Id {
    profile + "-" + session + "-" + tail
  }

  ghost predicate IsDigest(slug: string -> string) {
    forall t :: IsHex(slug(t), 12)
  }

  /** A profile, a dash and 12 digits. */
  predicate PersistentShape(id: Id, profile: string) {
    && |id| == |profile| + 13
    && id[..|profile|] == profile
    && id[|profile|] == '-'
    && IsHex(id[|profile| + 1..], 12)
  }

  predicate EphemeralShape(id: Id) {
    |id| >= 9 && id[|id| - 9] == '-'
  }

  lemma GeneratedShapes(slug: string -> string, profile: string, session: string, tail: string)
    requires IsDigest(slug) && IsHex(tail, 8)
    ensures PersistentShape(PersistentId(slug, profile, session), profile)
    ensures EphemeralShape(EphemeralId(profile, session, tail))
  {
    var id := PersistentId(slug, profile, session);
    assert id[|profile| + 1..] == slug(Text(profile, session));
  }

  /** The shape of an id tells its profile, and a persistent id from an ephemeral one. */
  lemma ShapeTellsProfile(id: Id, p: string, q: string)
    requires PersistentShape(id, p)
    ensures PersistentShape(id, q) <==> p == q
    ensures !EphemeralShape(id)
  {
    assert IsHexDigit(id[|p| + 1..][3]);
    if PersistentShape(id, q) {
      assert p == id[..|id| - 13] == q;
    }
  }

  /** Two persistent ids agree exactly when the profiles do and the digests collide. */
  lemma PersistentIdsAgree(slug: string -> string, p: string, s: string, q: string, t: string)
    requires IsDigest(slug)
    ensures PersistentId(slug, p, s) == PersistentId(slug, q, t)
       <==> p == q && slug(Text(p, s)) == slug(Text(q, t))
  {
    var id, other := PersistentId(slug, p, s), PersistentId(slug, q, t);
    GeneratedShapes(slug, p, s, "00000000");
    GeneratedShapes(slug, q, t, "00000000");
    if id == other {
      ShapeTellsProfile(id, p, q);
      assert slug(Text(p, s)) == id[|p| + 1..] == other[|q| + 1..] == slug(Text(q, t));
    }
  }

  /** Without a collision of the two digests, the id tells the pair. */
  lemma PersistentIdIsInjective(slug: string -> string, p: string, s: string, q: string, t: string)
    requires IsDigest(slug)
    requires slug(Text(p, s)) == slug(Text(q, t)) ==> Text(p, s) == Text(q, t)
    ensures PersistentId(slug, p, s) == PersistentId(slug, q, t) <==> p == q && s == t
  {
    PersistentIdsAgree(slug, p, s, q, t);
    if PersistentId(slug, p, s) == PersistentId(slug, q, t) {
      assert s == Text(p, s)[|p| + 1..] == Text(q, t)[|q| + 1..] == t;
    }
  }

  /**
   The digested text alone does not tell the pair: two pairs have the same text
   exactly when they are equal or a piece between two dashes sits in the one
   profile and in the other session.
   */
  lemma TextIsAmbiguousExactly(p: string, s: string, q: string, t: string)
    requires |p| <= |q|
    ensures Text(p, s) == Text(q, t) <==>
              (p == q && s == t) || exists m :: q == Text(p, m) && s == Text(m, t)
  {
    if Text(p, s) == Text(q, t) {
      var x := Text(p, s);
      assert p == x[..|p|] && q == x[..|q|] && s == x[|p| + 1..] && t == x[|q| + 1..];
      if |p| < |q| {
        assert x[|p|] == '-' == x[|q|];
        var m := q[|p| + 1..];
        assert q == Text(p, m);
        assert s == Text(m, t);
      }
    }
    forall m | q == Text(p, m) && s == Text(m, t)
      ensures Text(p, s) == Text(q, t)
    {
      assert p + "-" + (m + "-" + t) == (p + "-" + m) + "-" + t;
    }
  }

  /** Two ephemeral ids agree exactly when their random ends do and the texts before them. */
  lemma EphemeralIdsAgree(p: string, s: string, a: string, q: string, t: string, b: string)
    requires IsHex(a, 8) && IsHex(b, 8)
    ensures EphemeralId(p, s, a) == EphemeralId(q, t, b) <==> Text(p, s) == Text(q, t) && a == b
  {
    var x, y := EphemeralId(p, s, a), EphemeralId(q, t, b);
    assert x == Text(p, s) + "-" + a && y == Text(q, t) + "-" + b;
    assert x[..|x| - 9] == Text(p, s) && y[..|y| - 9] == Text(q, t);
    assert x[|x| - 8..] == a && y[|y| - 8..] == b;
  }

  /** A persistent id is never an ephemeral one, whatever the two pairs are. */
  lemma PersistentIsNotEphemeral(slug: string -> string, p: string, s: string, q: string, t: string, tail: string)
    requires IsDigest(slug) && IsHex(tail, 8)
    ensures PersistentId(slug, p, s) != EphemeralId(q, t, tail)
  {
    GeneratedShapes(slug, p, s, tail);
    GeneratedShapes(slug, q, t, tail);
    ShapeTellsProfile(PersistentId(slug, p, s), p, p);
  }

  // ---------------------------------------------------------------------------
  // Runs whose creates use generated ids
  // ---------------------------------------------------------------------------

  /** A create under the id that is generated for it. */
  ghost predicate Generated(slug: string -> string, op: Op) {
    op.Create? ==>
      if op.mode == Persistent then op.id == PersistentId(slug, op.profile, op.session)
      else exists tail :: IsHex(tail, 8) && op.id == EphemeralId(op.profile, op.session, tail)
  }

  /** The workspace under id `i` with that metadata is the one that the call made. */
  predicate Made(op: Op, i: Id, m: Meta) {
    op.Create? && op.id == i && op.profile == m.profile && op.mode == m.mode && op.now == m.created
  }

  /** The same workspace, used or given an owner in between. */
  predicate Continues(m: Meta, n: Meta) {
    m.profile == n.profile && m.mode == n.mode && m.created == n.created
  }

  /** What a workspace or a metadata file after a call goes back to. */
  predicate ComesFrom(s: State, op: Op, i: Id, m: Meta) {
    || Made(op, i, m)
    || (i in s.tracked && Continues(s.tracked[i].meta, m))
    || (i in s.disk && s.disk[i].meta.Some? && Continues(s.disk[i].meta.value, m))
  }

  ghost predicate AllComeFrom(s: State, op: Op, after: State) {
    && (forall i :: i in after.tracked ==> ComesFrom(s, op, i, after.tracked[i].meta))
    && (forall i :: i in after.disk && after.disk[i].meta.Some? ==> ComesFrom(s, op, i, after.disk[i].meta.value))
  }

  lemma CreateComesFrom(s: State, op: Op)
    requires Consistent(s) && op.Create?
    ensures AllComeFrom(s, op, AfterCreate(s, op))
  {
  }

  lemma CleanupComesFrom(s: State, op: Op)
    requires Consistent(s) && op.Cleanup?
    ensures AllComeFrom(s, op, AfterCleanup(s, op.ttl, op.now))
  {
  }

  lemma CloseComesFrom(s: State, op: Op)
    requires Consistent(s) && op.Close?
    ensures AllComeFrom(s, op, AfterClose(s, op.id, op.now))
  {
  }

  lemma OtherComesFrom(s: State, op: Op)
    requires Consistent(s) && !op.Create? && !op.Close? && !op.Cleanup?
    ensures AllComeFrom(s, op, Step(s, op))
  {
    hide AfterCreate, AfterClose, AfterCleanup, Stale, Made;
  }

  /** A call leaves workspaces as they were or makes a new one. */
  lemma StepComesFrom(s: State, op: Op)
    requires Consistent(s)
    ensures AllComeFrom(s, op, Step(s, op))
  {
    hide AfterCreate, AfterClose, AfterCleanup, AllComeFrom, Consistent;
    match op
    case Create(_, _, _, _, _, _, _) => CreateComesFrom(s, op);
    case Close(_, _) => CloseComesFrom(s, op);
    case Cleanup(_, _) => CleanupComesFrom(s, op);
    case _ => OtherComesFrom(s, op);
  }

  /** Some call of the run made it. */
  ghost predicate MadeIn(ops: seq<Op>, n: nat, i: Id, m: Meta)
    requires n <= |ops|
  {
    exists k :: 0 <= k < n && Made(ops[k], i, m)
  }

  ghost predicate AllMade(s: State, ops: seq<Op>, n: nat)
    requires n <= |ops|
  {
    && (forall i :: i in s.tracked ==> MadeIn(ops, n, i, s.tracked[i].meta))
    && (forall i :: i in s.disk && s.disk[i].meta.Some? ==> MadeIn(ops, n, i, s.disk[i].meta.value))
  }

  lemma MadeStays(s: State, ops: seq<Op>, n: nat, i: Id, m: Meta)
    requires 0 < n <= |ops| && AllMade(s, ops, n - 1) && ComesFrom(s, ops[n - 1], i, m)
    ensures MadeIn(ops, n, i, m)
  {
    if !Made(ops[n - 1], i, m) {
      var o := if i in s.tracked && Continues(s.tracked[i].meta, m) then s.tracked[i].meta else s.disk[i].meta.value;
      var k :| 0 <= k < n - 1 && Made(ops[k], i, o);
      assert Made(ops[k], i, m);
    }
  }

  lemma AllMadeStep(s: State, ops: seq<Op>, n: nat)
    requires 0 < n <= |ops| && Consistent(s) && AllMade(s, ops, n - 1)
    ensures AllMade(Step(s, ops[n - 1]), ops, n)
  {
    hide Step, Consistent, MadeIn, ComesFrom;
    var after := Step(s, ops[n - 1]);
    StepComesFrom(s, ops[n - 1]);
    forall i | i in after.tracked
      ensures MadeIn(ops, n, i, after.tracked[i].meta)
    {
      MadeStays(s, ops, n, i, after.tracked[i].meta);
    }
    forall i | i in after.disk && after.disk[i].meta.Some?
      ensures MadeIn(ops, n, i, after.disk[i].meta.value)
    {
      MadeStays(s, ops, n, i, after.disk[i].meta.value);
    }
  }

  const NOTHING := State(map[], map[])

  /** In every run from nothing, each workspace was made under its id by some create of the run. */
  lemma {:induction false} RunMadeAll(ops: seq<Op>, n: nat)
    requires n <= |ops|
    ensures Consistent(Run(NOTHING, ops, n)) && AllMade(Run(NOTHING, ops, n), ops, n)
  {
    hide Step, Consistent, AllMade;
    NothingIsMade(ops);
    if n > 0 {
      RunMadeAll(ops, n - 1);
      StepKeepsConsistent(Run(NOTHING, ops, n - 1), ops[n - 1]);
      AllMadeStep(Run(NOTHING, ops, n - 1), ops, n);
    }
  }

  lemma NothingIsMade(ops: seq<Op>)
    ensures Consistent(NOTHING) && AllMade(NOTHING, ops, 0)
  {
  }

  /** No create of the run digests to the same as the pair without digesting the same text. */
  ghost predicate NoCollision(slug: string -> string, ops: seq<Op>, profile: string, session: string) {
    forall k :: 0 <= k < |ops| && ops[k].Create? && ops[k].mode == Persistent ==>
      slug(Text(ops[k].profile, ops[k].session)) == slug(Text(profile, session)) ==>
        Text(ops[k].profile, ops[k].session) == Text(profile, session)
  }

  /** The call that made the workspace, and that it was for that very profile and session. */
  ghost predicate MadeFor(ops: seq<Op>, m: Meta, profile: string, session: string) {
    && m.mode == Persistent && m.profile == profile
    && exists k :: 0 <= k < |ops| && Made(ops[k], m.id, m) && ops[k].session == session
  }

  lemma CreateWasForPair(slug: string -> string, op: Op, profile: string, session: string, m: Meta)
    requires IsDigest(slug) && Generated(slug, op) && Made(op, PersistentId(slug, profile, session), m)
    requires op.mode == Persistent && slug(Text(op.profile, op.session)) == slug(Text(profile, session)) ==>
               Text(op.profile, op.session) == Text(profile, session)
    ensures m.mode == Persistent && op.profile == profile && op.session == session
  {
    hide PersistentId, EphemeralId, Text;
    if op.mode == Persistent {
      PersistentIdIsInjective(slug, op.profile, op.session, profile, session);
    } else {
      var tail :| IsHex(tail, 8) && op.id == EphemeralId(op.profile, op.session, tail);
      PersistentIsNotEphemeral(slug, profile, session, op.profile, op.session, tail);
    }
  }

  /**
   After any run of generated creates and other calls from nothing, what stands
   under the persistent id of a profile and session, in memory or on disk, is a
   persistent workspace that was created for that very profile and session, if no
   other pair of the run collides with it.
   */
  lemma {:induction false} ReopenedIsTheirOwn(slug: string -> string, ops: seq<Op>, profile: string, session: string)
    requires IsDigest(slug) && NoCollision(slug, ops, profile, session)
    requires forall k :: 0 <= k < |ops| ==> Generated(slug, ops[k])
    ensures var id, s := PersistentId(slug, profile, session), Run(NOTHING, ops, |ops|);
            && (id in s.tracked ==> MadeFor(ops, s.tracked[id].meta, profile, session))
            && (IsPersistent(s, id) ==> MadeFor(ops, s.disk[id].meta.value, profile, session))
  {
    hide Run, Generated, PersistentId, Text, IsDigest, Made;
    var id, s := PersistentId(slug, profile, session), Run(NOTHING, ops, |ops|);
    RunMadeAll(ops, |ops|);
    if id in s.tracked {
      var k :| 0 <= k < |ops| && Made(ops[k], id, s.tracked[id].meta);
      MadeIsForPair(slug, ops, k, profile, session, s.tracked[id].meta);
    }
    if IsPersistent(s, id) {
      var k :| 0 <= k < |ops| && Made(ops[k], id, s.disk[id].meta.value);
      MadeIsForPair(slug, ops, k, profile, session, s.disk[id].meta.value);
    }
  }

  lemma {:induction false} MadeIsForPair(slug: string -> string, ops: seq<Op>, k: nat, profile: string,
                                         session: string, m: Meta)
    requires IsDigest(slug) && NoCollision(slug, ops, profile, session)
    requires k < |ops| && Generated(slug, ops[k])
    requires m.id == PersistentId(slug, profile, session) && Made(ops[k], m.id, m)
    ensures MadeFor(ops, m, profile, session)
  {
    hide Generated, PersistentId, Text, IsDigest;
    CreateWasForPair(slug, ops[k], profile, session, m);
  }
}
