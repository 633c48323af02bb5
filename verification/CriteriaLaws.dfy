/**
 What a match means for the candidates of an observation: names are read by their
 prefixes, a branch or tag criterion selects exactly the events of that ref, and the
 provenance of a match is true of the candidate.
 */
module CriteriaLaws {
  import opened Seqs
  import opened CommitGraph
  import opened Observe
  import opened EventLaws
  import opened Criteria

  const HEADS := "refs/heads/"
  const TAGS := "refs/tags/"

  /** The ref that a full name stands for. */
  function RefNamed(full: string): Ref {
    if HEADS <= full then Head(full[|HEADS|..])
    else if TAGS <= full then TagName(full[|TAGS|..])
    else Elsewhere(full)
  }

  /** A full name is read by its prefix alone: that gives the type and the short name, and loses nothing. */
  lemma NamesAreReadByPrefix(full: string)
    ensures var ref := RefNamed(full);
            && FullName(ref) == full
            && (RefTypeOf(ref) == Branch <==> HEADS <= full)
            && (RefTypeOf(ref) == Tag <==> TAGS <= full)
            && ShortName(ref) == if HEADS <= full then full[11..] else if TAGS <= full then full[10..] else full
  {
    var tags := TAGS <= full;
    if HEADS <= full {
      assert full[5] == HEADS[5] && HEADS[5] != TAGS[5];
      assert full == HEADS + full[11..];
    } else if tags {
      assert full == TAGS + full[10..];
    }
  }

  /** Every ref that is named by its namespace is read back from its full name. */
  lemma NamesAreReadBack(ref: Ref)
    requires ref.Elsewhere? ==> !(HEADS <= ref.full) && !(TAGS <= ref.full)
    ensures RefNamed(FullName(ref)) == ref
  {
    NamesAreReadByPrefix(FullName(ref));
    if ref.Head? {
      assert FullName(ref)[..11] == HEADS && FullName(ref)[11..] == ref.short;
    } else if ref.TagName? {
      assert FullName(ref)[..10] == TAGS && FullName(ref)[10..] == ref.short;
      assert FullName(ref)[5] == 't' && HEADS[5] == 'h';
    }
  }

  /** Every candidate of an observation carries the type of its ref. */
  lemma CandidatesHaveTheirType(repo: Repository, previous: RefSnapshot, live: RefSnapshot, limits: Limits,
                                emitBaseline: bool, x: ChangeCandidate)
    requires Acyclic(repo.graph) && previous.Valid() && live.Valid()
    requires x in Candidates(repo, previous, live, limits, emitBaseline)
    ensures x.refType == RefTypeOf(x.ref)
  {
    hide Candidates, RefTypeOf, ToldChanges;
    if x.subject.OnRef? {
      RefEventsTellMoves(repo, previous, live, limits, emitBaseline, x);
    } else {
      EventsTellCommits(repo, previous, live, limits, emitBaseline, x);
    }
  }

  /** A branch or tag criterion alone selects exactly the candidates of the branches or tags that it names. */
  lemma NameCriteriaSelect(repo: Repository, previous: RefSnapshot, live: RefSnapshot, limits: Limits,
                           emitBaseline: bool, x: ChangeCandidate, text: TextMatch, names: seq<string>)
    requires Acyclic(repo.graph) && previous.Valid() && live.Valid()
    requires x in Candidates(repo, previous, live, limits, emitBaseline)
    ensures Satisfies(text, MATCH_ALL.(branch := Some(names)), x) <==> exists n :: n in names && x.ref == Head(n)
    ensures Satisfies(text, MATCH_ALL.(tag := Some(names)), x) <==> exists n :: n in names && x.ref == TagName(n)
  {
    hide Candidates;
    CandidatesHaveTheirType(repo, previous, live, limits, emitBaseline, x);
  }

  /** A provenance has one field for each criterion that is given, and each is true of the candidate. */
  ghost predicate TrueOf(text: TextMatch, c: Criteria, x: ChangeCandidate, e: Provenance)
    requires e.Fields?
  {
    && (if c.action.Some? then e.action == Some(x.action) && x.action in c.action.value else e.action == None)
    && (if c.branch.Some? then e.branch.Some? && x.ref == Head(e.branch.value) && e.branch.value in c.branch.value
        else e.branch == None)
    && (if c.tag.Some? then e.tag.Some? && x.ref == TagName(e.tag.value) && e.tag.value in c.tag.value
        else e.tag == None)
    && (if c.ref.Some? then
          && e.ref.Some?
          && (text(c.ref.value, FullName(x.ref)) !in {None, Some("")} ==> e.ref == text(c.ref.value, FullName(x.ref)))
          && (text(c.ref.value, FullName(x.ref)) in {None, Some("")} ==> e.ref == text(c.ref.value, ShortName(x.ref)))
        else e.ref == None)
    && (if c.author.Some? then e.author.Some? && e.author == text(c.author.value, x.author) else e.author == None)
    && (if c.path.Some? then
          e.path.Some? && exists k: nat :: FirstHit(text, c.path.value, x.paths, k) && x.paths[k] == e.path.value
        else e.path == None)
  }

  /** The provenance of a match is true of its candidate. */
  lemma ProvenanceIsTrue(text: TextMatch, c: Criteria, x: ChangeCandidate)
    requires Satisfies(text, c, x) && x.refType == RefTypeOf(x.ref)
    ensures if c == MATCH_ALL then Evidence(text, c, x) == All
            else Evidence(text, c, x).Fields? && TrueOf(text, c, x, Evidence(text, c, x))
  {
    hide PathHit, FullName, FirstHit;
    if c.path.Some? {
      PathHitIsFirst(text, c.path.value, x.paths, 0);
      var p :| p in x.paths && text(c.path.value, p).Some?;
    }
  }

  /** Each criterion alone, in the words of the documentation; together they must all hold. */
  lemma CriteriaMeanWhatTheySay(text: TextMatch, c: Criteria, x: ChangeCandidate)
    ensures Satisfies(text, MATCH_ALL, x)
    ensures Satisfies(text, c, x)
            <==> && (c.action.Some? ==> x.action in c.action.value)
                 && Satisfies(text, MATCH_ALL.(branch := c.branch), x) && Satisfies(text, MATCH_ALL.(tag := c.tag), x)
                 && Satisfies(text, MATCH_ALL.(ref := c.ref), x)
                 && (c.author.Some? ==> text(c.author.value, x.author).Some?)
                 && (c.path.Some? ==> exists i :: 0 <= i < |x.paths| && text(c.path.value, x.paths[i]).Some?)
    ensures c.ref.Some? && text(c.ref.value, FullName(x.ref)) != Some("") ==>
              (Satisfies(text, MATCH_ALL.(ref := c.ref), x)
               <==> text(c.ref.value, FullName(x.ref)).Some? || text(c.ref.value, ShortName(x.ref)).Some?)
  {
    if c.path.Some? {
      if p :| p in x.paths && text(c.path.value, p).Some? {
        var i :| 0 <= i < |x.paths| && x.paths[i] == p;
        assert text(c.path.value, x.paths[i]).Some?;
      }
      if i :| 0 <= i < |x.paths| && text(c.path.value, x.paths[i]).Some? {
        assert x.paths[i] in x.paths;
      }
    }
  }
}
