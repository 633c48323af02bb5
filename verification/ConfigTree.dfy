/**
 The two views of the runtime configuration that must agree leaf by leaf: the
 flattener that names every leaf by its path, and the masker that redacts secrets
 in the tree. The flattener judges a leaf by the last segment of its path, the
 masker judges a value by the key it sits under.

 Keys are ASCII as far as lower-casing goes.
 */
module ConfigTree {

  datatype Tree = Nothing | Text(text: string) | Other(repr: string) | Dict(entries: Entries) | List(items: Items)
  datatype Entries = NoEntry | Entry(key: string, value: Tree, rest: Entries)
  datatype Items = NoItem | Item(value: Tree, rest: Items)

  const FRAGMENTS := ["password", "secret", "token", "api_key", "apikey", "credential", "private_key", "key_hash"]

  const MASK := Text("****")

  function LowerChar(c: char): char {
    if 'A' <= c <= 'Z' then c - 'A' + 'a' else c
  }

  function Lower(s: string): string {
    seq(|s|, i requires 0 <= i < |s| => LowerChar(s[i]))
  }

  predicate OccursAt(s: string, f: string, i: nat) {
    i + |f| <= |s| && s[i..i + |f|] == f
  }

  predicate Contains(s: string, f: string) {
    exists i: nat | i <= |s| :: OccursAt(s, f, i)
  }

  predicate IsSecret(key: string) {
    exists f | f in FRAGMENTS :: Contains(Lower(key), f)
  }

  /** `path.split(".")[-1]` */
  function LastSegment(path: string): string {
    if '.' !in path then path else LastSegment(path[1..])
  }

  predicate IsDigit(c: char) {
    '0' <= c <= '9'
  }

  function TrailingDigits(s: string): (n: nat)
    ensures n <= |s| && forall i :: |s| - n <= i < |s| ==> IsDigit(s[i])
  {
    if s != "" && IsDigit(s[|s| - 1]) then TrailingDigits(s[..|s| - 1]) + 1 else 0
  }

  /** Drops one list index `[n]` from the end. */
  function StripIndex(s: string): string {
    if s == "" || s[|s| - 1] != ']' then s
    else
      var n := TrailingDigits(s[..|s| - 1]);
      if n > 0 && |s| >= n + 2 && s[|s| - n - 2] == '[' then s[..|s| - n - 2] else s
  }

  function LeafKey(path: string): string {
    StripIndex(LastSegment(path))
  }

  predicate IsContainer(v: Tree) {
    v.Dict? || v.List?
  }

  predicate IsBlank(v: Tree) {
    v == Nothing || v == Text("") || v == List(NoItem) || v == Dict(NoEntry)
  }

  function Redact(v: Tree): Tree {
    if IsBlank(v) then v else MASK
  }

  function Decimal(n: nat): string {
    (if n < 10 then "" else Decimal(n / 10)) + ["0123456789"[n % 10]]
  }

  function KeyPath(parent: string, key: string): string {
    if parent != "" then parent + "." + key else key
  }

  function IndexPath(parent: string, i: nat): string {
    parent + "[" + Decimal(i) + "]"
  }

  // ---------------------------------------------------------------------------
  // Flattening
  // ---------------------------------------------------------------------------

  function Flatten(v: Tree, parent: string): map<string, Tree>
    decreases v, 1
  {
    if parent != "" && IsSecret(LeafKey(parent)) && IsContainer(v) then map[parent := v]
    else
      match v
      case Dict(entries) => FlattenEntries(entries, parent)
      case List(items) => FlattenItems(items, parent, 0)
      case _ => if parent != "" then map[parent := v] else map[]
  }

  function FlattenChild(v: Tree, path: string): map<string, Tree>
    decreases v, 2
  {
    if IsContainer(v) then Flatten(v, path) else map[path := v]
  }

  /** Later entries win over earlier ones with the same path. */
  function FlattenEntries(es: Entries, parent: string): map<string, Tree> {
    match es
    case NoEntry => map[]
    case Entry(key, value, rest) => FlattenChild(value, KeyPath(parent, key)) + FlattenEntries(rest, parent)
  }

  function FlattenItems(xs: Items, parent: string, i: nat): map<string, Tree> {
    match xs
    case NoItem => map[]
    case Item(value, rest) => FlattenChild(value, IndexPath(parent, i)) + FlattenItems(rest, parent, i + 1)
  }

  /** The flattener: it fills a dictionary in a loop over each container. */
  method FlattenTree(v: Tree, parent: string) returns (out: map<string, Tree>)
    ensures out == Flatten(v, parent)
    decreases v, 1
  {
    if parent != "" && IsSecret(LeafKey(parent)) && IsContainer(v) {
      return map[parent := v];
    }
    match v {
      case Dict(entries) => out := FlattenDict(entries, parent);
      case List(items) => out := FlattenList(items, parent);
      case _ => out := if parent != "" then map[parent := v] else map[];
    }
  }

  method AddChild(before: map<string, Tree>, v: Tree, path: string) returns (out: map<string, Tree>)
    ensures out == before + FlattenChild(v, path)
    decreases v, 2
  {
    if IsContainer(v) {
      var inner := FlattenTree(v, path);
      out := before + inner;
    } else {
      out := before[path := v];
    }
  }

  method FlattenDict(entries: Entries, parent: string) returns (out: map<string, Tree>)
    ensures out == FlattenEntries(entries, parent)
    decreases entries
  {
    hide FlattenChild;
    out := map[];
    var es := entries;
    while es != NoEntry
      invariant es == entries || es < entries
      invariant out + FlattenEntries(es, parent) == FlattenEntries(entries, parent)
      decreases es
    {
      ghost var before, child := out, FlattenChild(es.value, KeyPath(parent, es.key));
      ghost var rest := FlattenEntries(es.rest, parent);
      assert before + (child + rest) == before + child + rest;
      out := AddChild(out, es.value, KeyPath(parent, es.key));
      es := es.rest;
    }
  }

  method FlattenList(items: Items, parent: string) returns (out: map<string, Tree>)
    ensures out == FlattenItems(items, parent, 0)
    decreases items
  {
    hide FlattenChild, IndexPath;
    out := map[];
    var xs, i: nat := items, 0;
    while xs != NoItem
      invariant xs == items || xs < items
      invariant out + FlattenItems(xs, parent, i) == FlattenItems(items, parent, 0)
      decreases xs
    {
      ghost var before, child := out, FlattenChild(xs.value, IndexPath(parent, i));
      ghost var rest := FlattenItems(xs.rest, parent, i + 1);
      assert before + (child + rest) == before + child + rest;
      out := AddChild(out, xs.value, IndexPath(parent, i));
      xs, i := xs.rest, i + 1;
    }
  }

  // ---------------------------------------------------------------------------
  // Masking
  // ---------------------------------------------------------------------------

  function Mask(v: Tree): Tree {
    match v
    case Dict(entries) => Dict(MaskEntries(entries))
    case List(items) => List(MaskItems(items))
    case _ => v
  }

  function MaskEntries(es: Entries): Entries {
    match es
    case NoEntry => NoEntry
    case Entry(key, value, rest) =>
      Entry(key, if IsSecret(key) then Redact(value) else Mask(value), MaskEntries(rest))
  }

  function MaskItems(xs: Items): Items {
    match xs
    case NoItem => NoItem
    case Item(value, rest) => Item(Mask(value), MaskItems(rest))
  }

  /** What the flat view should show: every leaf that it flags redacted, all others as they are. */
  function Redacted(m: map<string, Tree>): map<string, Tree> {
    map path | path in m :: if IsSecret(LeafKey(path)) then Redact(m[path]) else m[path]
  }

  // ---------------------------------------------------------------------------
  // Names
  // ---------------------------------------------------------------------------

  /** Text without letters or underscores cannot complete a secret fragment. */
  predicate Inert(c: char) {
    IsDigit(c) || c == '[' || c == ']'
  }

  lemma FragmentsEndInLetters(f: string)
    requires f in FRAGMENTS
    ensures f != "" && !Inert(f[|f| - 1]) && LowerChar(f[|f| - 1]) == f[|f| - 1]
  {
  }

  lemma InertTail(base: string, tail: string)
    requires forall i :: 0 <= i < |tail| ==> Inert(tail[i])
    ensures IsSecret(base + tail) <==> IsSecret(base)
  {
    var s, b := Lower(base + tail), Lower(base);
    forall f | f in FRAGMENTS
      ensures Contains(s, f) <==> Contains(b, f)
    {
      FragmentsEndInLetters(f);
      if i: nat :| i <= |s| && OccursAt(s, f, i) {
        assert s[i..i + |f|][|f| - 1] == s[i + |f| - 1];
        assert i + |f| <= |b|;
        assert b[i..i + |f|] == s[i..i + |f|];
        assert OccursAt(b, f, i);
      }
      if i: nat :| i <= |b| && OccursAt(b, f, i) {
        assert b[i..i + |f|] == s[i..i + |f|];
        assert OccursAt(s, f, i);
      }
    }
  }

  lemma StripIsHarmless(s: string)
    ensures IsSecret(StripIndex(s)) <==> IsSecret(s)
  {
    var t := StripIndex(s);
    if t != s {
      assert s == t + s[|t|..];
      InertTail(t, s[|t|..]);
    }
  }

  lemma {:induction false} LastSegmentIsSuffix(path: string)
    ensures IsSecret(LastSegment(path)) ==> IsSecret(path)
  {
    if '.' in path {
      LastSegmentIsSuffix(path[1..]);
      if IsSecret(path[1..]) {
        var f :| f in FRAGMENTS && Contains(Lower(path[1..]), f);
        var i: nat :| i <= |path[1..]| && OccursAt(Lower(path[1..]), f, i);
        assert Lower(path)[i + 1..i + 1 + |f|] == Lower(path[1..])[i..i + |f|];
        assert OccursAt(Lower(path), f, i + 1);
      }
    }
  }

  lemma {:induction false} LastSegmentOfKeyPath(parent: string, key: string)
    ensures LastSegment(KeyPath(parent, key)) == LastSegment(key)
  {
    if parent != "" {
      var path := parent + "." + key;
      assert path[|parent|] == '.';
      if |parent| == 1 {
        assert path[1..] == "." + key;
        assert ("." + key)[0] == '.' && ("." + key)[1..] == key;
      } else {
        assert path[1..] == parent[1..] + "." + key;
        LastSegmentOfKeyPath(parent[1..], key);
      }
    }
  }

  lemma {:induction false} LastSegmentAppend(path: string, tail: string)
    requires '.' !in tail
    ensures LastSegment(path + tail) == LastSegment(path) + tail
  {
    if '.' in path {
      assert (path + tail)[1..] == path[1..] + tail;
      var i :| 0 <= i < |path| && path[i] == '.';
      assert (path + tail)[i] == '.';
      LastSegmentAppend(path[1..], tail);
    }
  }

  lemma {:induction false} DecimalIsDigits(n: nat)
    ensures forall i :: 0 <= i < |Decimal(n)| ==> IsDigit(Decimal(n)[i])
  {
    if n >= 10 {
      DecimalIsDigits(n / 10);
    }
    assert forall d :: 0 <= d < 10 ==> IsDigit("0123456789"[d]);
  }

  /** A list position is flagged exactly when the list itself would be. */
  lemma IndexKeepsFlag(parent: string, i: nat)
    ensures IsSecret(LastSegment(IndexPath(parent, i))) <==> IsSecret(LastSegment(parent))
  {
    var tail := "[" + Decimal(i) + "]";
    DecimalIsDigits(i);
    assert forall j :: 0 <= j < |tail| ==> Inert(tail[j]);
    assert IndexPath(parent, i) == parent + tail;
    LastSegmentAppend(parent, tail);
    InertTail(LastSegment(parent), tail);
  }

  // ---------------------------------------------------------------------------
  // The two views agree
  // ---------------------------------------------------------------------------

  /** The masker and the flattener judge a key alike. */
  predicate Agrees(key: string) {
    IsSecret(key) ==> IsSecret(LastSegment(key))
  }

  function KeysOf(v: Tree): set<string> {
    match v
    case Dict(entries) => KeysOfEntries(entries)
    case List(items) => KeysOfItems(items)
    case _ => {}
  }

  function KeysOfEntries(es: Entries): set<string> {
    match es
    case NoEntry => {}
    case Entry(key, value, rest) => {key} + KeysOf(value) + KeysOfEntries(rest)
  }

  function KeysOfItems(xs: Items): set<string> {
    match xs
    case NoItem => {}
    case Item(value, rest) => KeysOf(value) + KeysOfItems(rest)
  }

  ghost predicate AllAgree(keys: set<string>) {
    forall k :: k in keys ==> Agrees(k)
  }

  /** Flattening the masked tree is redacting the flat one. */
  ghost predicate Commutes(v: Tree, parent: string) {
    Flatten(Mask(v), parent) == Redacted(Flatten(v, parent))
  }

  lemma RedactedMerge(a: map<string, Tree>, b: map<string, Tree>)
    ensures Redacted(a + b) == Redacted(a) + Redacted(b)
  {
    hide IsSecret, LeafKey, Redact;
  }

  lemma RedactedSingle(path: string, v: Tree)
    ensures Redacted(map[path := v]) == map[path := if IsSecret(LeafKey(path)) then Redact(v) else v]
  {
    hide IsSecret, LeafKey, Redact;
  }

  lemma FlagOfPath(path: string)
    ensures IsSecret(LeafKey(path)) <==> IsSecret(LastSegment(path))
  {
    StripIsHarmless(LastSegment(path));
  }

  lemma EmptyIsNotSecret()
    ensures !IsSecret("") && LastSegment("") == ""
  {
    forall f | f in FRAGMENTS
      ensures !Contains(Lower(""), f)
    {
      FragmentsEndInLetters(f);
    }
  }

  /** A value under a flagged path is one leaf, however deep it is. */
  lemma {:induction false} SecretChild(v: Tree, path: string)
    requires IsSecret(LastSegment(path))
    ensures FlattenChild(v, path) == map[path := v]
    ensures FlattenChild(Redact(v), path) == Redacted(FlattenChild(v, path))
  {
    hide IsSecret, LastSegment, StripIndex;
    FlagOfPath(path);
    EmptyIsNotSecret();
    RedactedSingle(path, v);
  }

  lemma {:induction false} OpenChild(v: Tree, path: string)
    requires AllAgree(KeysOf(v)) && !IsSecret(LastSegment(path))
    ensures FlattenChild(Mask(v), path) == Redacted(FlattenChild(v, path))
    decreases v, 1
  {
    hide IsSecret, LeafKey, LastSegment, Redacted;
    if IsContainer(v) {
      ContainerCommutes(v, path);
    } else {
      FlagOfPath(path);
      RedactedSingle(path, v);
    }
  }

  lemma {:induction false} ContainerCommutes(v: Tree, parent: string)
    requires IsContainer(v) && AllAgree(KeysOf(v)) && !IsSecret(LastSegment(parent))
    ensures Commutes(v, parent)
    decreases v, 0
  {
    hide IsSecret, LeafKey, LastSegment, Redacted;
    FlagOfPath(parent);
    match v
    case Dict(entries) => EntriesCommute(entries, parent);
    case List(items) => ItemsCommute(items, parent, 0);
  }

  lemma {:induction false} EntriesCommute(es: Entries, parent: string)
    requires AllAgree(KeysOfEntries(es))
    ensures FlattenEntries(MaskEntries(es), parent) == Redacted(FlattenEntries(es, parent))
    decreases es
  {
    hide IsSecret, LeafKey, LastSegment, KeyPath, FlattenChild;
    match es
    case NoEntry =>
    case Entry(key, value, rest) =>
      var path := KeyPath(parent, key);
      LastSegmentOfKeyPath(parent, key);
      LastSegmentIsSuffix(key);
      assert Agrees(key);
      if IsSecret(key) {
        SecretChild(value, path);
      } else {
        OpenChild(value, path);
      }
      EntriesCommute(rest, parent);
      RedactedMerge(FlattenChild(value, path), FlattenEntries(rest, parent));
  }

  lemma {:induction false} ItemsCommute(xs: Items, parent: string, i: nat)
    requires AllAgree(KeysOfItems(xs)) && !IsSecret(LastSegment(parent))
    ensures FlattenItems(MaskItems(xs), parent, i) == Redacted(FlattenItems(xs, parent, i))
    decreases xs
  {
    hide IsSecret, LeafKey, LastSegment, IndexPath, FlattenChild;
    match xs
    case NoItem =>
    case Item(value, rest) =>
      IndexKeepsFlag(parent, i);
      OpenChild(value, IndexPath(parent, i));
      ItemsCommute(rest, parent, i + 1);
      RedactedMerge(FlattenChild(value, IndexPath(parent, i)), FlattenItems(rest, parent, i + 1));
  }

  /** For any tree over agreeing keys, at any nesting, masking and flattening commute. */
  lemma MaskThenFlatten(v: Tree)
    requires AllAgree(KeysOf(v))
    ensures Commutes(v, "")
  {
    hide IsSecret, LeafKey, LastSegment;
    if IsContainer(v) {
      EmptyIsNotSecret();
      ContainerCommutes(v, "");
    }
  }

  /**
   The keys for which the two views agree on every tree are exactly the agreeing
   ones. A dotted key such as "secret.x" is not: the masker sees a secret there and
   the flattener does not.
   */
  lemma ViewsAgreeExactlyOn(keys: set<string>)
    ensures (forall v: Tree :: KeysOf(v) <= keys ==> Commutes(v, "")) <==> AllAgree(keys)
  {
    hide IsSecret, LeafKey, LastSegment, Commutes, KeysOf;
    if AllAgree(keys) {
      forall v: Tree | KeysOf(v) <= keys
        ensures Commutes(v, "")
      {
        MaskThenFlatten(v);
      }
    } else {
      var k :| k in keys && !Agrees(k);
      DisagreeingKeyBreaks(k);
      assert KeysOf(Dict(Entry(k, Text("x"), NoEntry))) <= keys;
    }
  }

  lemma ShortIsNotSecret(s: string)
    requires |s| < 5
    ensures !IsSecret(s)
  {
    forall f | f in FRAGMENTS
      ensures !Contains(Lower(s), f)
    {
      FragmentsAreLong(f);
    }
  }

  lemma FragmentsAreLong(f: string)
    requires f in FRAGMENTS
    ensures |f| >= 5
  {
  }

  lemma FragmentAtStart(f: string, s: string)
    requires f in FRAGMENTS && |f| <= |s| && Lower(s)[..|f|] == f
    ensures IsSecret(s)
  {
    assert OccursAt(Lower(s), f, 0);
  }

  lemma DottedKeyDisagrees()
    ensures !Agrees("secret.x")
  {
    hide IsSecret, Contains;
    var f, key := "secret", "secret.x";
    assert FRAGMENTS[1] == f;
    assert Lower(key)[..|f|] == f;
    FragmentAtStart(f, key);
    LastSegmentOfKeyPath(f, "x");
    assert KeyPath(f, "x") == key;
    ShortIsNotSecret("x");
  }

  lemma DisagreeingKeyBreaks(k: string)
    requires !Agrees(k)
    ensures KeysOf(Dict(Entry(k, Text("x"), NoEntry))) == {k}
    ensures !Commutes(Dict(Entry(k, Text("x"), NoEntry)), "")
  {
    hide IsSecret, LeafKey, LastSegment;
    FlagOfPath(k);
    var leaf, entries := Text("x"), Entry(k, Text("x"), NoEntry);
    var v := Dict(entries);
    assert KeysOf(leaf) == {} && KeysOfEntries(NoEntry) == {} && KeysOfEntries(entries) == {k};
    assert leaf.text != "" && Redact(leaf) == MASK;
    assert MaskEntries(NoEntry) == NoEntry && MaskEntries(entries) == Entry(k, MASK, NoEntry);
    assert forall x: Tree :: !IsContainer(x) ==> FlattenEntries(Entry(k, x, NoEntry), "") == map[k := x] by {
      assert FlattenEntries(NoEntry, "") == map[];
    }
    assert Flatten(v, "") == map[k := leaf];
    assert Flatten(Mask(v), "") == map[k := MASK];
    RedactedSingle(k, Text("x"));
    assert map[k := MASK][k] != map[k := Text("x")][k];
  }

  /** The promise of the settings page: the same paths, the open leaves as they are, the secret ones blank or masked. */
  lemma MaskedViewShowsNoSecret(v: Tree, path: string)
    requires AllAgree(KeysOf(v))
    ensures path in Flatten(Mask(v), "") <==> path in Flatten(v, "")
    ensures path in Flatten(v, "") && !IsSecret(LeafKey(path)) ==> Flatten(Mask(v), "")[path] == Flatten(v, "")[path]
    ensures path in Flatten(v, "") && IsSecret(LeafKey(path)) ==>
              var shown, plain := Flatten(Mask(v), "")[path], Flatten(v, "")[path];
              shown == if plain == Nothing || plain == Text("") || plain == List(NoItem) || plain == Dict(NoEntry)
                       then plain else Text("****")
  {
    hide IsSecret, LeafKey, Flatten, Mask;
    MaskThenFlatten(v);
  }
}
