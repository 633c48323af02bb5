/**
 The flat view of a configuration leaf by leaf: which keys and positions lead to the
 leaf behind each path, and which names are secret.
 */
module ConfigPaths {
  import opened Seqs
  import opened ConfigTree

  // ---------------------------------------------------------------------------
  // Leaves
  // ---------------------------------------------------------------------------

  /** One step down: the value of a key, or an item. */
  datatype Step = Under(key: string) | Nth(index: nat)

  function Lookup(es: Entries, key: string): Option<Tree> {
    match es
    case NoEntry => None
    case Entry(k, value, rest) => if k == key then Some(value) else Lookup(rest, key)
  }

  function ItemAt(xs: Items, i: nat): Option<Tree> {
    match xs
    case NoItem => None
    case Item(value, rest) => if i == 0 then Some(value) else ItemAt(rest, i - 1)
  }

  function Child(v: Tree, step: Step): Option<Tree> {
    if v.Dict? && step.Under? then Lookup(v.entries, step.key)
    else if v.List? && step.Nth? then ItemAt(v.items, step.index)
    else None
  }

  /** How a step is written behind the path so far. */
  function Written(path: string, step: Step): string {
    match step
    case Under(key) => if path == "" then key else path + "." + key
    case Nth(i) => path + "[" + Decimal(i) + "]"
  }

  function Render(path: string, steps: seq<Step>): string
    decreases steps
  {
    if steps == [] then path else Render(Written(path, steps[0]), steps[1..])
  }

  /**
   The leaf that the steps lead to from `v`, which stands at `path`: the walk ends at
   the first value that is no container or whose name is secret, and not before.
   */
  function Leaf(v: Tree, path: string, steps: seq<Step>): Option<Tree>
    decreases steps
  {
    if !IsContainer(v) || IsSecret(LeafKey(path)) then (if steps == [] then Some(v) else None)
    else if steps == [] then None
    else
      match Child(v, steps[0])
      case None => None
      case Some(child) => Leaf(child, Written(path, steps[0]), steps[1..])
  }

  /** No dictionary has a key twice. */
  predicate DistinctKeys(v: Tree) {
    match v
    case Dict(entries) => DistinctEntries(entries)
    case List(items) => DistinctItems(items)
    case _ => true
  }

  predicate DistinctEntries(es: Entries) {
    match es
    case NoEntry => true
    case Entry(k, value, rest) => Lookup(rest, k) == None && DistinctKeys(value) && DistinctEntries(rest)
  }

  predicate DistinctItems(xs: Items) {
    match xs
    case NoItem => true
    case Item(value, rest) => DistinctKeys(value) && DistinctItems(rest)
  }

  // Soundness: what the flat view holds is a leaf.

  lemma {:induction false} ChildIsSound(v: Tree, path: string, p: string) returns (steps: seq<Step>)
    requires DistinctKeys(v) && p in FlattenChild(v, path)
    ensures Render(path, steps) == p && Leaf(v, path, steps) == Some(FlattenChild(v, path)[p])
    decreases v, 1
  {
    hide IsSecret, LeafKey, Decimal;
    if IsContainer(v) {
      if path == "" {
        NamelessIsOpen();
      }
      if IsSecret(LeafKey(path)) {
        steps := [];
      } else {
        steps := ContainerIsSound(v, path, p);
      }
    } else {
      steps := [];
    }
  }

  lemma NamelessIsOpen()
    ensures !IsSecret(LeafKey(""))
  {
    EmptyIsNotSecret();
    FlagOfPath("");
  }

  lemma {:induction false} ContainerIsSound(v: Tree, path: string, p: string) returns (steps: seq<Step>)
    requires IsContainer(v) && DistinctKeys(v) && !IsSecret(LeafKey(path)) && p in Flatten(v, path)
    ensures Render(path, steps) == p && Leaf(v, path, steps) == Some(Flatten(v, path)[p])
    decreases v, 0
  {
    hide IsSecret, LeafKey, Decimal;
    var step, child, rest;
    if v.Dict? {
      step, child, rest := EntryIsSound(v.entries, path, p);
    } else {
      step, child, rest := ItemIsSound(v.items, path, 0, p);
    }
    steps := [step] + rest;
    assert steps[1..] == rest;
  }

  lemma {:induction false} EntryIsSound(es: Entries, path: string, p: string)
    returns (step: Step, child: Tree, steps: seq<Step>)
    requires DistinctEntries(es) && p in FlattenEntries(es, path)
    ensures step.Under? && Lookup(es, step.key) == Some(child)
    ensures Render(Written(path, step), steps) == p
    ensures Leaf(child, Written(path, step), steps) == Some(FlattenEntries(es, path)[p])
    decreases es
  {
    hide IsSecret, LeafKey, Leaf, FlattenChild, Render;
    if p in FlattenEntries(es.rest, path) {
      step, child, steps := EntryIsSound(es.rest, path, p);
    } else {
      step, child := Under(es.key), es.value;
      steps := ChildIsSound(es.value, KeyPath(path, es.key), p);
    }
  }

  lemma {:induction false} ItemIsSound(xs: Items, path: string, i: nat, p: string)
    returns (step: Step, child: Tree, steps: seq<Step>)
    requires DistinctItems(xs) && p in FlattenItems(xs, path, i)
    ensures step.Nth? && step.index >= i && ItemAt(xs, step.index - i) == Some(child)
    ensures Render(Written(path, step), steps) == p
    ensures Leaf(child, Written(path, step), steps) == Some(FlattenItems(xs, path, i)[p])
    decreases xs
  {
    hide IsSecret, LeafKey, Leaf, FlattenChild, Render, Decimal;
    if p in FlattenItems(xs.rest, path, i + 1) {
      step, child, steps := ItemIsSound(xs.rest, path, i + 1, p);
    } else {
      step, child := Nth(i), xs.value;
      steps := ChildIsSound(xs.value, IndexPath(path, i), p);
    }
  }

  // Completeness: every leaf has its path in the flat view.

  lemma {:induction false} ChildIsComplete(v: Tree, path: string, steps: seq<Step>)
    requires Leaf(v, path, steps).Some?
    ensures Render(path, steps) in FlattenChild(v, path)
    decreases steps
  {
    hide IsSecret, LeafKey, Decimal;
    if IsContainer(v) {
      if path == "" {
        NamelessIsOpen();
      }
      if !IsSecret(LeafKey(path)) {
        var child := Child(v, steps[0]).value;
        ChildIsComplete(child, Written(path, steps[0]), steps[1..]);
        if v.Dict? {
          EntryIsComplete(v.entries, path, steps[0].key, Render(path, steps));
        } else {
          ItemIsComplete(v.items, path, 0, steps[0].index, Render(path, steps));
        }
      }
    }
  }

  lemma {:induction false} EntryIsComplete(es: Entries, path: string, key: string, p: string)
    requires Lookup(es, key).Some? && p in FlattenChild(Lookup(es, key).value, KeyPath(path, key))
    ensures p in FlattenEntries(es, path)
    decreases es
  {
    hide FlattenChild;
    if es.key != key {
      EntryIsComplete(es.rest, path, key, p);
    }
  }

  lemma {:induction false} ItemIsComplete(xs: Items, path: string, i: nat, k: nat, p: string)
    requires ItemAt(xs, k).Some? && p in FlattenChild(ItemAt(xs, k).value, IndexPath(path, i + k))
    ensures p in FlattenItems(xs, path, i)
    decreases xs
  {
    hide FlattenChild, IndexPath;
    if k > 0 {
      ItemIsComplete(xs.rest, path, i + 1, k - 1, p);
    }
  }

  /**
   The flat view of a dictionary or list has a path exactly for each leaf, and holds
   under it one of the leaves with that path.
   */
  lemma FlattenHoldsLeaves(v: Tree, p: string)
    requires IsContainer(v) && DistinctKeys(v)
    ensures p in Flatten(v, "") <==> exists steps :: Leaf(v, "", steps).Some? && Render("", steps) == p
    ensures p in Flatten(v, "") ==>
              exists steps :: Leaf(v, "", steps) == Some(Flatten(v, "")[p]) && Render("", steps) == p
  {
    hide Flatten, Leaf, Render;
    RootIsChild(v);
    if p in Flatten(v, "") {
      var steps := ChildIsSound(v, "", p);
    }
    if steps :| Leaf(v, "", steps).Some? && Render("", steps) == p {
      ChildIsComplete(v, "", steps);
    }
  }

  /** A scalar by itself has no path, and one behind a path is the one leaf there. */
  lemma ScalarsAreLeaves(v: Tree, path: string)
    requires !IsContainer(v)
    ensures Flatten(v, path) == if path == "" then map[] else map[path := v]
  {
  }

  lemma RootIsChild(v: Tree)
    requires IsContainer(v)
    ensures FlattenChild(v, "") == Flatten(v, "")
  {
  }

  // ---------------------------------------------------------------------------
  // Paths over plain keys tell the steps
  // ---------------------------------------------------------------------------

  predicate Plain(key: string) {
    key != "" && '.' !in key && '[' !in key && ']' !in key
  }

  predicate PlainSteps(steps: seq<Step>) {
    forall i :: 0 <= i < |steps| && steps[i].Under? ==> Plain(steps[i].key)
  }

  /** The name of a plain key behind any path is the key, also with list indices behind it. */
  lemma LeafKeyOfPath(path: string, key: string, i: nat)
    requires Plain(key)
    ensures LeafKey(Written(path, Under(key))) == key
    ensures LeafKey(Written(Written(path, Under(key)), Nth(i))) == key
  {
    hide StripIndex;
    var named, tail := Written(path, Under(key)), "[" + Decimal(i) + "]";
    LastSegmentOfKeyPath(path, key);
    assert LastSegment(key) == key && LastSegment(named) == key;
    DecimalIsDigits(i);
    LastSegmentAppend(named, tail);
    assert Written(named, Nth(i)) == named + tail && key + tail == key + "[" + Decimal(i) + "]";
    StripsIndex(key, i);
  }

  lemma StripsIndex(key: string, i: nat)
    requires Plain(key)
    ensures StripIndex(key) == key && StripIndex(key + "[" + Decimal(i) + "]") == key
  {
    var whole := key + "[" + Decimal(i) + "]";
    DecimalIsDigits(i);
    assert whole[..|whole| - 1] == (key + "[") + Decimal(i);
    DigitsAtEnd(key + "[", Decimal(i));
    DecimalIsNotEmpty(i);
    assert whole[..|key|] == key;
  }

  lemma DecimalIsNotEmpty(n: nat)
    ensures Decimal(n) != ""
  {
  }

  lemma {:induction false} DigitsAtEnd(s: string, digits: string)
    requires s != "" && !IsDigit(s[|s| - 1]) && forall i :: 0 <= i < |digits| ==> IsDigit(digits[i])
    ensures TrailingDigits(s + digits) == |digits|
  {
    if digits == "" {
      assert s + digits == s;
    } else {
      DigitsAtEnd(s, digits[..|digits| - 1]);
      assert (s + digits)[..|s + digits| - 1] == s + digits[..|digits| - 1];
    }
  }

  /** A number is told by its digits. */
  lemma {:induction false} DecimalTells(m: nat, n: nat)
    requires Decimal(m) == Decimal(n)
    ensures m == n
  {
    var a, b := Decimal(m), Decimal(n);
    assert a[|a| - 1] == "0123456789"[m % 10] && b[|b| - 1] == "0123456789"[n % 10];
    DigitTells(m % 10, n % 10);
    DecimalIsNotEmpty(m / 10);
    DecimalIsNotEmpty(n / 10);
    if m >= 10 && n >= 10 {
      assert a[..|a| - 1] == Decimal(m / 10) && b[..|b| - 1] == Decimal(n / 10);
      DecimalTells(m / 10, n / 10);
    }
  }

  lemma DigitTells(c: nat, d: nat)
    requires c < 10 && d < 10 && "0123456789"[c] == "0123456789"[d]
    ensures c == d
  {
    assert forall k :: 0 <= k < 10 ==> "0123456789"[k] as int == '0' as int + k;
  }

  lemma UnderTells(p: string, k: string, q: string, l: string)
    requires Plain(k) && Plain(l) && Written(p, Under(k)) == Written(q, Under(l))
    ensures k == l && p == q
  {
    LastSegmentOfKeyPath(p, k);
    LastSegmentOfKeyPath(q, l);
    assert LastSegment(k) == k && LastSegment(l) == l;
    var w := Written(p, Under(k));
    if p != "" && q != "" {
      assert p == w[..|w| - |k| - 1] == q;
    }
  }

  lemma NthTells(p: string, i: nat, q: string, j: nat)
    requires Written(p, Nth(i)) == Written(q, Nth(j))
    ensures i == j && p == q
  {
    var w, a, b := Written(p, Nth(i)), Decimal(i), Decimal(j);
    DecimalIsDigits(i);
    DecimalIsDigits(j);
    assert w[|w| - 2 - |a|] == '[' && w[|w| - 2 - |b|] == '[';
    assert a == w[|w| - 1 - |a|..|w| - 1] == b;
    assert p == w[..|w| - 2 - |a|] == q;
    DecimalTells(i, j);
  }

  lemma StepsTellApart(p: string, k: string, q: string, j: nat)
    requires Plain(k)
    ensures Written(p, Under(k)) != Written(q, Nth(j))
  {
    var w, v := Written(p, Under(k)), Written(q, Nth(j));
    assert w[|w| - 1] == k[|k| - 1] && v[|v| - 1] == ']';
  }

  lemma {:induction false} RenderLast(path: string, steps: seq<Step>, last: Step)
    ensures Render(path, steps + [last]) == Written(Render(path, steps), last)
    decreases steps
  {
    hide Written;
    if steps != [] {
      RenderLast(Written(path, steps[0]), steps[1..], last);
      assert (steps + [last])[1..] == steps[1..] + [last];
    } else {
      assert ([] + [last])[1..] == [];
    }
  }

  /** Over plain keys a path tells the steps that it was written for. */
  lemma {:induction false} PathTellsSteps(s: seq<Step>, t: seq<Step>)
    requires PlainSteps(s) && PlainSteps(t) && Render("", s) == Render("", t)
    ensures s == t
  {
    hide Render, Decimal;
    if s != [] {
      var m := |s| - 1;
      assert s == s[..m] + [s[m]];
      RenderLast("", s[..m], s[m]);
    }
    if t != [] {
      var n := |t| - 1;
      assert t == t[..n] + [t[n]];
      RenderLast("", t[..n], t[n]);
    }
    RenderNothing();
    if s != [] && t != [] {
      LastStepTells(Render("", s[..|s| - 1]), s[|s| - 1], Render("", t[..|t| - 1]), t[|t| - 1]);
      PathTellsSteps(s[..|s| - 1], t[..|t| - 1]);
    }
  }

  lemma RenderNothing()
    ensures Render("", []) == ""
  {
  }

  lemma LastStepTells(p: string, x: Step, q: string, y: Step)
    requires (x.Under? ==> Plain(x.key)) && (y.Under? ==> Plain(y.key)) && Written(p, x) == Written(q, y)
    ensures x == y && p == q
  {
    hide Written;
    if x.Under? && y.Under? {
      UnderTells(p, x.key, q, y.key);
    } else if x.Nth? && y.Nth? {
      NthTells(p, x.index, q, y.index);
    } else if x.Under? {
      StepsTellApart(p, x.key, q, y.index);
    } else {
      StepsTellApart(q, y.key, p, x.index);
    }
  }

  lemma {:induction false} LookupIsKey(es: Entries, key: string)
    requires Lookup(es, key).Some?
    ensures key in KeysOfEntries(es) && KeysOf(Lookup(es, key).value) <= KeysOfEntries(es)
    decreases es
  {
    if es.key != key {
      LookupIsKey(es.rest, key);
    }
  }

  lemma {:induction false} ItemKeys(xs: Items, i: nat)
    requires ItemAt(xs, i).Some?
    ensures KeysOf(ItemAt(xs, i).value) <= KeysOfItems(xs)
    decreases xs
  {
    if i > 0 {
      ItemKeys(xs.rest, i - 1);
    }
  }

  lemma {:induction false} LeafStepsArePlain(v: Tree, path: string, steps: seq<Step>)
    requires Leaf(v, path, steps).Some? && forall k :: k in KeysOf(v) ==> Plain(k)
    ensures PlainSteps(steps)
    decreases steps
  {
    hide IsSecret, LeafKey, Plain, Written;
    if steps != [] {
      if steps[0].Under? {
        LookupIsKey(v.entries, steps[0].key);
      } else {
        ItemKeys(v.items, steps[0].index);
      }
      LeafStepsArePlain(Child(v, steps[0]).value, Written(path, steps[0]), steps[1..]);
    }
  }

  /** Over plain keys the flat view holds exactly the leaves, each under its own path. */
  lemma FlattenIsExact(v: Tree, steps: seq<Step>)
    requires IsContainer(v) && DistinctKeys(v) && forall k :: k in KeysOf(v) ==> Plain(k)
    requires Leaf(v, "", steps).Some?
    ensures Render("", steps) in Flatten(v, "") && Flatten(v, "")[Render("", steps)] == Leaf(v, "", steps).value
  {
    hide Flatten, Leaf, Render, Plain, KeysOf, DistinctKeys;
    var p := Render("", steps);
    FlattenHoldsLeaves(v, p);
    var others :| Leaf(v, "", others) == Some(Flatten(v, "")[p]) && Render("", others) == p;
    LeafStepsArePlain(v, "", steps);
    LeafStepsArePlain(v, "", others);
    PathTellsSteps(steps, others);
  }

  // ---------------------------------------------------------------------------
  // Secret names
  // ---------------------------------------------------------------------------

  /** The same ASCII letter, in either case, or the same other character. */
  predicate SameLetter(c: char, d: char) {
    c == d || ('A' <= c <= 'Z' && d as int == c as int + 32)
  }

  /** Some part of the key reads as the word, whatever the case of its letters. */
  predicate Holds(key: string, word: string) {
    exists i: nat | i <= |key| :: HoldsAt(key, word, i)
  }

  predicate HoldsAt(key: string, word: string, i: nat) {
    i + |word| <= |key| && forall k :: 0 <= k < |word| ==> SameLetter(key[i + k], word[k])
  }

  lemma LowerCase(c: char, d: char)
    requires !('A' <= d <= 'Z')
    ensures LowerChar(c) == d <==> SameLetter(c, d)
  {
  }

  lemma HoldsWhereItOccurs(key: string, word: string, i: nat)
    requires forall k :: 0 <= k < |word| ==> !('A' <= word[k] <= 'Z')
    ensures OccursAt(Lower(key), word, i) <==> HoldsAt(key, word, i)
  {
    if i + |word| <= |key| {
      forall k | 0 <= k < |word|
        ensures Lower(key)[i..i + |word|][k] == word[k] <==> SameLetter(key[i + k], word[k])
      {
        LowerCase(key[i + k], word[k]);
      }
    }
  }

  lemma ContainsIsHolds(key: string, word: string)
    requires forall k :: 0 <= k < |word| ==> !('A' <= word[k] <= 'Z')
    ensures Contains(Lower(key), word) <==> Holds(key, word)
  {
    forall i: nat
      ensures OccursAt(Lower(key), word, i) <==> HoldsAt(key, word, i)
    {
      HoldsWhereItOccurs(key, word, i);
    }
  }

  /** A key is secret exactly when it holds one of the eight words, in any case. */
  lemma SecretNames(key: string)
    ensures IsSecret(key) <==>
              || Holds(key, "password") || Holds(key, "secret") || Holds(key, "token") || Holds(key, "api_key")
              || Holds(key, "apikey") || Holds(key, "credential") || Holds(key, "private_key") || Holds(key, "key_hash")
  {
    hide Contains, Holds, Lower;
    ContainsIsHolds(key, "password");
    ContainsIsHolds(key, "secret");
    ContainsIsHolds(key, "token");
    ContainsIsHolds(key, "api_key");
    ContainsIsHolds(key, "apikey");
    ContainsIsHolds(key, "credential");
    ContainsIsHolds(key, "private_key");
    ContainsIsHolds(key, "key_hash");
    assert "password" in FRAGMENTS by { assert FRAGMENTS[0] == "password"; }
    assert "secret" in FRAGMENTS by { assert FRAGMENTS[1] == "secret"; }
    assert "token" in FRAGMENTS by { assert FRAGMENTS[2] == "token"; }
    assert "api_key" in FRAGMENTS by { assert FRAGMENTS[3] == "api_key"; }
    assert "apikey" in FRAGMENTS by { assert FRAGMENTS[4] == "apikey"; }
    assert "credential" in FRAGMENTS by { assert FRAGMENTS[5] == "credential"; }
    assert "private_key" in FRAGMENTS by { assert FRAGMENTS[6] == "private_key"; }
    assert "key_hash" in FRAGMENTS by { assert FRAGMENTS[7] == "key_hash"; }
  }
}
