/**
 Options and the few facts about sequences that the other modules share.
 */
module Seqs {

  datatype Option<+T> = None | Some(value: T)

  function Max(a: int, b: int): int {
    if a < b then b else a
  }

  function Elems<T>(s: seq<T>): set<T> {
    set x | x in s
  }

  /** The elements that a loop over `s` has met after `n` rounds. */
  function Firsts<T>(s: seq<T>, n: nat): set<T>
    requires n <= |s|
  {
    if n == 0 then {} else Firsts(s, n - 1) + {s[n - 1]}
  }

  /** No element of `s` occurs twice. */
  ghost predicate Distinct<T(!new)>(s: seq<T>) {
    forall i, j :: 0 <= i < j < |s| ==> s[i] != s[j]
  }

  function Take<T>(s: seq<T>, n: nat): seq<T> {
    if |s| <= n then s else s[..n]
  }

  function Reverse<T>(s: seq<T>): seq<T> {
    if s == [] then [] else Reverse(s[1..]) + [s[0]]
  }

  lemma {:induction false} ReverseAt<T>(s: seq<T>, i: nat)
    requires i < |s|
    ensures |Reverse(s)| == |s|
    ensures Reverse(s)[|s| - 1 - i] == s[i]
  {
    if |s| > 1 {
      ReverseAt(s[1..], if i == 0 then 0 else i - 1);
    }
  }

  lemma {:induction false} FirstsMembers<T(!new)>(s: seq<T>, n: nat, x: T)
    requires n <= |s|
    ensures x in Firsts(s, n) <==> exists i :: 0 <= i < n && s[i] == x
  {
    if n > 0 {
      FirstsMembers(s, n - 1, x);
    }
  }

  lemma FirstsAreElems<T(!new)>(s: seq<T>)
    ensures Firsts(s, |s|) == Elems(s)
  {
    forall x
      ensures x in Firsts(s, |s|) <==> x in Elems(s)
    {
      FirstsMembers(s, |s|, x);
    }
  }

  lemma ReverseElems<T(!new)>(s: seq<T>)
    ensures Elems(Reverse(s)) == Elems(s)
    ensures Distinct(s) ==> Distinct(Reverse(s))
  {
    var r := Reverse(s);
    if s != [] {
      ReverseAt(s, 0);
    }
    forall i | 0 <= i < |r|
      ensures r[i] == s[|s| - 1 - i]
    {
      ReverseAt(s, |s| - 1 - i);
    }
    forall x | x in s
      ensures x in r
    {
      var i :| 0 <= i < |s| && s[i] == x;
      assert r[|s| - 1 - i] == x;
    }
  }

  // A duplicate-free list is as long as the set of its elements, so a cut
  // shortens that set exactly when it shortens the list.
  lemma {:induction false} DistinctLength<T(!new)>(s: seq<T>, n: nat)
    requires Distinct(s) && n <= |s|
    ensures |Firsts(s, n)| == n
  {
    if n > 0 {
      DistinctLength(s, n - 1);
      FirstsMembers(s, n - 1, s[n - 1]);
    }
  }

  lemma TakeElems<T(!new)>(s: seq<T>, n: nat)
    requires Distinct(s)
    ensures Distinct(Take(s, n))
    ensures Elems(Take(s, n)) <= Elems(s)
    ensures |Elems(s)| == |s|
    ensures Elems(Take(s, n)) == Elems(s) <==> |s| <= n
  {
    var t := Take(s, n);
    DistinctLength(s, |s|);
    DistinctLength(t, |t|);
    FirstsAreElems(s);
    FirstsAreElems(t);
  }
}
