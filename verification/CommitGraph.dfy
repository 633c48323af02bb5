/**
 The part of a git object database that change observation asks about: commits
 with their parents, annotated tag objects, and the answers of `merge-base
 --is-ancestor` and `rev-list`. A commit's parents are part of its identity, so
 one graph holds every commit that is ever seen during a run of observations.
 */
module CommitGraph {
  import opened Seqs

  /** The name of an object: a commit or an annotated tag. */
  datatype Oid = Oid(hex: string)

  /** Parents of each commit; generation numbers rule out cycles. */
  datatype Graph = Graph(parents: map<Oid, seq<Oid>>, generation: map<Oid, nat>)

  /** One row of `diff-tree --name-status`. */
  datatype Change = Change(status: string, path: string)

  datatype Repository = Repository(
    graph: Graph,
    tagObjects: map<Oid, Oid>,
    revList: (Oid, Oid) -> seq<Oid>,
    author: Oid -> string,
    changes: Oid -> seq<Change>)

  ghost predicate Acyclic(g: Graph) {
    && g.generation.Keys == g.parents.Keys
    && forall c, p {:trigger p in g.parents[c]} | c in g.parents && p in g.parents[c] ::
         p in g.parents && g.generation[p] < g.generation[c]
  }

  /** Every commit that can be reached from `c` along parent links, `c` included. */
  function Reach(g: Graph, c: Oid): set<Oid>
    requires Acyclic(g)
    decreases if c in g.parents then g.generation[c] + 1 else 0
  {
    if c !in g.parents then {}
    else {c} + (set p, a | p in g.parents[c] && a in Reach(g, p) :: a)
  }

  /** The commits between two points of history: reachable from `to`, not from `from`. */
  function Range(g: Graph, from: Oid, to: Oid): set<Oid>
    requires Acyclic(g)
  {
    set c | c in Reach(g, to) && c !in Reach(g, from)
  }

  function Peel(repo: Repository, o: Oid): Oid {
    if o in repo.tagObjects then repo.tagObjects[o] else o
  }

  /** `git rev-list new ^old` before it is cut: each commit of the difference once. */
  ghost predicate ListsRanges(repo: Repository)
    requires Acyclic(repo.graph)
  {
    forall old', new' :: new' in repo.graph.parents ==>
      && Distinct(repo.revList(old', new'))
      && Elems(repo.revList(old', new')) == Range(repo.graph, old', new')
  }

  ghost predicate Valid(repo: Repository) {
    && Acyclic(repo.graph)
    && repo.tagObjects.Keys !! repo.graph.parents.Keys
    && (forall t :: t in repo.tagObjects ==> repo.tagObjects[t] in repo.graph.parents)
    && ListsRanges(repo)
  }

  predicate IsAncestor(repo: Repository, old': Oid, new': Oid)
    requires Acyclic(repo.graph)
  {
    Peel(repo, old') in Reach(repo.graph, Peel(repo, new'))
  }

  lemma {:induction false} ReachIsTransitive(g: Graph, a: Oid, c: Oid)
    requires Acyclic(g) && a in Reach(g, c)
    ensures Reach(g, a) <= Reach(g, c)
    decreases if c in g.parents then g.generation[c] + 1 else 0
  {
    if a != c {
      var p :| p in g.parents[c] && a in Reach(g, p);
      ReachIsTransitive(g, a, p);
    }
  }

  lemma {:induction false} ReachGoesDown(g: Graph, a: Oid, c: Oid)
    requires Acyclic(g) && a in Reach(g, c)
    ensures a in g.parents && c in g.parents
    ensures a == c || g.generation[a] < g.generation[c]
    decreases if c in g.parents then g.generation[c] + 1 else 0
  {
    if a != c {
      var p :| p in g.parents[c] && a in Reach(g, p);
      ReachGoesDown(g, a, p);
    }
  }

  /** Two commits that reach each other are one commit. */
  lemma ReachIsAntisymmetric(g: Graph, a: Oid, c: Oid)
    requires Acyclic(g) && a in Reach(g, c) && c in Reach(g, a)
    ensures a == c
  {
    ReachGoesDown(g, a, c);
    ReachGoesDown(g, c, a);
  }

  /** A commit of a range lies in exactly one half of a split of the range. */
  lemma RangesSplit(g: Graph, a: Oid, b: Oid, c: Oid)
    requires Acyclic(g) && a in Reach(g, b) && b in Reach(g, c)
    ensures a in Reach(g, c)
    ensures forall x :: x in Range(g, a, c) <==> x in Range(g, a, b) || x in Range(g, b, c)
    ensures forall x :: x in Range(g, a, b) ==> x !in Range(g, b, c)
  {
    ReachIsTransitive(g, a, b);
    ReachIsTransitive(g, b, c);
  }

  /** A walk from `c` down parent links to `a`. */
  ghost predicate IsPath(g: Graph, p: seq<Oid>, a: Oid, c: Oid) {
    && |p| > 0 && p[0] == c && p[|p| - 1] == a
    && (forall i :: 0 <= i < |p| ==> p[i] in g.parents)
    && forall i :: 0 <= i < |p| - 1 ==> p[i + 1] in g.parents[p[i]]
  }

  lemma {:induction false} PathOfReach(g: Graph, a: Oid, c: Oid) returns (p: seq<Oid>)
    requires Acyclic(g) && a in Reach(g, c)
    ensures IsPath(g, p, a, c)
    decreases if c in g.parents then g.generation[c] + 1 else 0
  {
    if a == c {
      p := [c];
    } else {
      var q :| q in g.parents[c] && a in Reach(g, q);
      var rest := PathOfReach(g, a, q);
      p := [c] + rest;
    }
  }

  lemma {:induction false} ReachOfPath(g: Graph, p: seq<Oid>, a: Oid, c: Oid)
    requires Acyclic(g) && IsPath(g, p, a, c)
    ensures a in Reach(g, c)
  {
    if |p| > 1 {
      ReachOfPath(g, p[1..], a, p[1]);
    }
  }

  /** A commit is reached exactly when a walk along parent links leads to it. */
  lemma ReachIsByPaths(g: Graph, a: Oid, c: Oid)
    requires Acyclic(g)
    ensures a in Reach(g, c) <==> exists p :: IsPath(g, p, a, c)
  {
    if a in Reach(g, c) {
      var p := PathOfReach(g, a, c);
    }
    if p :| IsPath(g, p, a, c) {
      ReachOfPath(g, p, a, c);
    }
  }
}
