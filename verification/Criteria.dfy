/**
 Whether an observed change matches a watch's criteria, and the provenance that
 proves it. Glob and regular-expression matching is a parameter: it gives the
 matched text, which may be empty, or nothing.
 */
module Criteria {
  import opened Seqs
  import opened Observe

  type TextMatch = (string, string) -> Option<string>

  /** One optional criterion per field; no criterion at all matches everything. */
  datatype Criteria = Criteria(
    action: Option<seq<Action>>,
    branch: Option<seq<string>>,
    tag: Option<seq<string>>,
    ref: Option<string>,
    author: Option<string>,
    path: Option<string>)

  const MATCH_ALL := Criteria(None, None, None, None, None, None)

  /** The `criteria_match` part of an event: what made each given criterion hold. */
  datatype Provenance =
    | All
    | Fields(
        action: Option<Action>,
        branch: Option<string>,
        tag: Option<string>,
        ref: Option<string>,
        author: Option<string>,
        path: Option<string>)

  function FullName(ref: Ref): string {
    match ref
    case Head(short) => "refs/heads/" + short
    case TagName(short) => "refs/tags/" + short
    case Elsewhere(full) => full
  }

  function ShortName(ref: Ref): string {
    match ref
    case Head(short) => short
    case TagName(short) => short
    case Elsewhere(full) => full
  }

  function RefHit(text: TextMatch, pattern: string, ref: Ref): Option<string> {
    var full := text(pattern, FullName(ref));
    if full.Some? && full.value != "" then full else text(pattern, ShortName(ref))
  }

  /** Position `i` holds the first of `paths` that the pattern matches. */
  ghost predicate FirstHit(text: TextMatch, pattern: string, paths: seq<string>, i: nat) {
    && i < |paths| && text(pattern, paths[i]).Some?
    && forall j :: 0 <= j < i ==> text(pattern, paths[j]) == None
  }

  function PathHit(text: TextMatch, pattern: string, paths: seq<string>, i: nat): Option<string>
    requires i <= |paths|
    decreases |paths| - i
  {
    if i == |paths| then None
    else if text(pattern, paths[i]).Some? then Some(paths[i])
    else PathHit(text, pattern, paths, i + 1)
  }

  lemma {:induction false} PathHitIsFirst(text: TextMatch, pattern: string, paths: seq<string>, i: nat)
    requires i <= |paths| && forall j :: 0 <= j < i ==> text(pattern, paths[j]) == None
    ensures PathHit(text, pattern, paths, i).Some? <==> exists k :: 0 <= k < |paths| && text(pattern, paths[k]).Some?
    ensures PathHit(text, pattern, paths, i).Some? ==>
              exists k: nat :: FirstHit(text, pattern, paths, k) && PathHit(text, pattern, paths, i).value == paths[k]
    decreases |paths| - i
  {
    if i < |paths| {
      if text(pattern, paths[i]).Some? {
        assert FirstHit(text, pattern, paths, i);
      } else {
        PathHitIsFirst(text, pattern, paths, i + 1);
      }
    }
  }

  // One predicate per criterion; a criterion that is not given holds.

  predicate ActionHolds(c: Criteria, x: ChangeCandidate) {
    c.action.Some? ==> x.action in c.action.value
  }

  predicate BranchHolds(c: Criteria, x: ChangeCandidate) {
    c.branch.Some? ==> x.refType == Branch && ShortName(x.ref) in c.branch.value
  }

  predicate TagHolds(c: Criteria, x: ChangeCandidate) {
    c.tag.Some? ==> x.refType == Tag && ShortName(x.ref) in c.tag.value
  }

  predicate RefHolds(text: TextMatch, c: Criteria, x: ChangeCandidate) {
    c.ref.Some? ==>
      || text(c.ref.value, ShortName(x.ref)).Some?
      || (text(c.ref.value, FullName(x.ref)).Some? && text(c.ref.value, FullName(x.ref)).value != "")
  }

  predicate AuthorHolds(text: TextMatch, c: Criteria, x: ChangeCandidate) {
    c.author.Some? ==> text(c.author.value, x.author).Some?
  }

  predicate PathHolds(text: TextMatch, c: Criteria, x: ChangeCandidate) {
    c.path.Some? ==> exists p :: p in x.paths && text(c.path.value, p).Some?
  }

  predicate Satisfies(text: TextMatch, c: Criteria, x: ChangeCandidate) {
    && ActionHolds(c, x) && BranchHolds(c, x) && TagHolds(c, x)
    && RefHolds(text, c, x) && AuthorHolds(text, c, x) && PathHolds(text, c, x)
  }

  function Evidence(text: TextMatch, c: Criteria, x: ChangeCandidate): Provenance {
    if c == MATCH_ALL then All
    else Fields(
           if c.action.Some? then Some(x.action) else None,
           if c.branch.Some? then Some(ShortName(x.ref)) else None,
           if c.tag.Some? then Some(ShortName(x.ref)) else None,
           if c.ref.Some? then RefHit(text, c.ref.value, x.ref) else None,
           if c.author.Some? then text(c.author.value, x.author) else None,
           if c.path.Some? then PathHit(text, c.path.value, x.paths, 0) else None)
  }

  method FirstPathMatch(text: TextMatch, pattern: string, paths: seq<string>) returns (hit: Option<string>)
    ensures hit == PathHit(text, pattern, paths, 0)
    ensures hit == None <==> forall p :: p in paths ==> text(pattern, p) == None
  {
    for i := 0 to |paths|
      invariant PathHit(text, pattern, paths, 0) == PathHit(text, pattern, paths, i)
      invariant forall k :: 0 <= k < i ==> text(pattern, paths[k]) == None
    {
      if text(pattern, paths[i]).Some? {
        return Some(paths[i]);
      }
    }
    hit := None;
  }

  /** Matches exactly when every given criterion holds, with the evidence for each. */
  method Match(text: TextMatch, c: Criteria, x: ChangeCandidate) returns (matched: Option<Provenance>)
    ensures matched.Some? <==> Satisfies(text, c, x)
    ensures matched.Some? ==> matched.value == Evidence(text, c, x)
  {
    if c == MATCH_ALL {
      return Some(All);
    }
    var found := Fields(None, None, None, None, None, None);
    if c.action.Some? {
      if x.action !in c.action.value {
        return None;
      }
      found := found.(action := Some(x.action));
    }
    if c.branch.Some? {
      if x.refType != Branch || ShortName(x.ref) !in c.branch.value {
        return None;
      }
      found := found.(branch := Some(ShortName(x.ref)));
    }
    if c.tag.Some? {
      if x.refType != Tag || ShortName(x.ref) !in c.tag.value {
        return None;
      }
      found := found.(tag := Some(ShortName(x.ref)));
    }
    if c.ref.Some? {
      var hit := RefHit(text, c.ref.value, x.ref);
      if hit == None {
        return None;
      }
      found := found.(ref := hit);
    }
    if c.author.Some? {
      var hit := text(c.author.value, x.author);
      if hit == None {
        return None;
      }
      found := found.(author := hit);
    }
    if c.path.Some? {
      var hit := FirstPathMatch(text, c.path.value, x.paths);
      if hit == None {
        return None;
      }
      found := found.(path := hit);
    }
    matched := Some(found);
  }

  /**
   The documentation promises that a `ref` pattern is tried on the full and on the
   short name. That is so except when it matches the full name with an empty text
   and does not match the short name at all.
   */
  lemma RefPatternTriesBothNames(text: TextMatch, pattern: string, ref: Ref)
    ensures (RefHit(text, pattern, ref).Some?
             <==> text(pattern, FullName(ref)).Some? || text(pattern, ShortName(ref)).Some?)
            <==> !(text(pattern, FullName(ref)) == Some("") && text(pattern, ShortName(ref)) == None)
  {
  }

  /** A matcher as the expression `^(?=refs/)` acts: it matches the empty text before "refs/". */
  function LookAhead(pattern: string, value: string): Option<string> {
    if "refs/" <= value then Some("") else None
  }

  lemma EmptyMatchIsLost()
    ensures LookAhead("re:^(?=refs/)", FullName(Head("main"))) == Some("")
    ensures RefHit(LookAhead, "re:^(?=refs/)", Head("main")) == None
  {
    assert FullName(Head("main"))[..5] == "refs/";
    assert "main"[0] != "refs/"[0];
  }
}
