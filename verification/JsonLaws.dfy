/**
 The laws of the in-place update: what was set is found, nothing else moves,
 lists grow as far as they must, and an update that raises has changed nothing.
 */
module JsonLaws {
  import opened Seqs
  import opened JsonDocument

  /** `g` has every cell and every edge of `h`. */
  ghost predicate Extends(h: Heap, g: Heap) {
    && h.next <= g.next
    && (forall r :: r in h.cells ==> r in g.cells)
    && forall r, k :: Child(h, r, k).Some? ==> Child(g, r, k) == Child(h, r, k)
  }

  /** `g` is `h` with one more cell, empty, at a place that was free. */
  ghost predicate Linked(h: Heap, g: Heap, node: Ref, key: Key) {
    && node in h.cells && Child(h, node, key) == None
    && g.next == h.next + 1
    && (forall r :: r in g.cells <==> r in h.cells || r == h.next)
    && (forall r, k :: Child(g, r, k) == if r == node && k == key then Some(h.next) else Child(h, r, k))
    && forall r :: r in h.cells && r != node ==> g.cells[r] == h.cells[r]
  }

  lemma LinkKeeps(h: Heap, g: Heap, node: Ref, key: Key, root: Ref, value: Ref)
    requires Sound(h) && Linked(h, g, node, key)
    ensures Sound(g) && Extends(h, g)
    ensures TreeShaped(h, root) ==> TreeShaped(g, root)
    ensures value in h.cells && Unlinked(h, value) ==> Unlinked(g, value)
  {
  }

  lemma DictInsert(h: Heap, node: Ref, name: string)
    requires Sound(h) && node in h.cells && h.cells[node].Dict? && name !in h.cells[node].fields
    ensures Linked(h, Heap(h.cells[h.next := Dict(map[])][node := Dict(h.cells[node].fields[name := h.next])],
                           h.next + 1),
                   node, Field(name))
  {
  }

  lemma ListAppend(h: Heap, node: Ref, filler: Cell)
    requires Sound(h) && node in h.cells && h.cells[node].List? && (filler == Dict(map[]) || filler == Null)
    ensures Linked(h, Heap(h.cells[h.next := filler][node := List(h.cells[node].items + [h.next])], h.next + 1),
                   node, At(|h.cells[node].items|))
  {
  }

  /** Padding adds cells at the end of one list. */
  lemma {:induction false} GrowKeeps(h: Heap, node: Ref, k: nat, filler: Cell, root: Ref, value: Ref)
    requires Sound(h) && node in h.cells && h.cells[node].List? && (filler == Dict(map[]) || filler == Null)
    ensures var g := Grow(h, node, k, filler);
            && Sound(g) && Extends(h, g) && (TreeShaped(h, root) ==> TreeShaped(g, root))
            && (value in h.cells && Unlinked(h, value) ==> Unlinked(g, value))
            && (forall r :: r in h.cells && r != node ==> g.cells[r] == h.cells[r])
  {
    hide Sound, TreeShaped, Unlinked, Child;
    if k > 0 {
      var g := Grow(h, node, k - 1, filler);
      GrowKeeps(h, node, k - 1, filler, root, value);
      ListAppend(g, node, filler);
      LinkKeeps(g, Grow(h, node, k, filler), node, At(|g.cells[node].items|), root, value);
    }
  }

  /** The last cell of a padded list is the filler. */
  lemma GrowLast(h: Heap, node: Ref, k: nat, filler: Cell)
    requires Sound(h) && node in h.cells && h.cells[node].List? && k > 0
    requires filler == Dict(map[]) || filler == Null
    ensures var g := Grow(h, node, k, filler);
            |g.cells[node].items| > 0 && g.cells[node].items[|g.cells[node].items| - 1] in g.cells
            && g.cells[g.cells[node].items[|g.cells[node].items| - 1]] == filler
  {
    GrowKeeps(h, node, k - 1, filler, node, node);
  }

  /** The key by which a step leaves a container. */
  function KeyFor(parse: IntParser, h: Heap, node: Ref, token: string): Key {
    if node in h.cells && h.cells[node].List? && SlotFor(parse, token, |h.cells[node].items|).Position?
    then At(SlotFor(parse, token, |h.cells[node].items|).index)
    else Field(token)
  }

  /** A list that was entered at `key` is as long as it was or just long enough. */
  ghost predicate GrownTo(h: Heap, g: Heap, node: Ref, key: Key) {
    node in h.cells && h.cells[node].List? && key.At? ==>
      node in g.cells && g.cells[node].List?
      && |g.cells[node].items| == Max(|h.cells[node].items|, key.index + 1)
  }

  lemma StepIntoKeeps(parse: IntParser, h: Heap, node: Ref, token: string, root: Ref, value: Ref)
    requires Sound(h) && node in h.cells
    ensures var c, key := StepInto(parse, h, node, token), KeyFor(parse, h, node, token);
            && (c.error.Some? ==> c.heap == h && h.cells[node] != Dict(map[]))
            && (c.error == None ==>
                  && Sound(c.heap) && Extends(h, c.heap) && c.node in c.heap.cells
                  && Child(c.heap, node, key) == Some(c.node)
                  && (c.heap == h || c.heap.cells[c.node] == Dict(map[]))
                  && (h.cells[node] == Dict(map[]) ==> c.heap.cells[c.node] == Dict(map[]))
                  && GrownTo(h, c.heap, node, key)
                  && (forall r :: r in h.cells && r != node ==> c.heap.cells[r] == h.cells[r])
                  && (TreeShaped(h, root) ==> TreeShaped(c.heap, root))
                  && (value in h.cells && Unlinked(h, value) ==> Unlinked(c.heap, value)))
  {
    match h.cells[node]
    case Dict(fields) =>
      if token !in fields {
        DictInsert(h, node, token);
        LinkKeeps(h, StepInto(parse, h, node, token).heap, node, Field(token), root, value);
      } else {
        assert Child(h, node, Field(token)) == Some(fields[token]);
      }
    case List(items) =>
      var slot := SlotFor(parse, token, |items|);
      if slot.Position? {
        var k := Missing(|items|, slot.index);
        GrowLength(h, node, k, Dict(map[]));
        GrowKeeps(h, node, k, Dict(map[]), root, value);
        var g := Grow(h, node, k, Dict(map[]));
        assert Child(g, node, At(slot.index)) == Some(g.cells[node].items[slot.index]);
        if k > 0 {
          GrowLast(h, node, k, Dict(map[]));
        }
      }
    case _ =>
  }

  // ---------------------------------------------------------------------------
  // The walk
  // ---------------------------------------------------------------------------

  /** The keys that the first `n` tokens stand for, as the walk meets their containers. */
  function Location(parse: IntParser, h: Heap, root: Ref, tokens: seq<string>, n: nat): (r: seq<Key>)
    requires n <= |tokens|
    ensures |r| == n
  {
    if n == 0 then []
    else
      var c := Descend(parse, h, root, tokens, n - 1);
      Location(parse, h, root, tokens, n - 1) + [KeyFor(parse, c.heap, c.node, tokens[n - 1])]
  }

  lemma {:induction false} LocationPrefix(parse: IntParser, h: Heap, root: Ref, tokens: seq<string>, m: nat, n: nat)
    requires m <= n <= |tokens|
    ensures Location(parse, h, root, tokens, n)[..m] == Location(parse, h, root, tokens, m)
    decreases n
  {
    if m < n {
      LocationPrefix(parse, h, root, tokens, m, n - 1);
    }
  }

  lemma {:induction false} FollowExtends(h: Heap, g: Heap, r: Ref, path: seq<Key>, n: nat)
    requires Extends(h, g) && n <= |path| && Follow(h, r, path, n).Some?
    ensures Follow(g, r, path, n) == Follow(h, r, path, n)
  {
    if n > 0 {
      FollowExtends(h, g, r, path, n - 1);
    }
  }

  lemma {:induction false} FollowSamePrefix(h: Heap, r: Ref, p: seq<Key>, q: seq<Key>, n: nat)
    requires n <= |p| && n <= |q| && p[..n] == q[..n]
    ensures Follow(h, r, p, n) == Follow(h, r, q, n)
  {
    if n > 0 {
      assert p[..n - 1] == p[..n][..n - 1] == q[..n][..n - 1] == q[..n - 1];
      assert p[n - 1] == p[..n][n - 1] == q[..n][n - 1] == q[n - 1];
      FollowSamePrefix(h, r, p, q, n - 1);
    }
  }

  /** What holds of the heap and the cursor during a walk that has not failed. */
  ghost predicate Walking(h: Heap, root: Ref, value: Ref, path: seq<Key>, c: Cursor) {
    && Sound(c.heap) && Extends(h, c.heap) && c.node in c.heap.cells
    && Follow(c.heap, root, path, |path|) == Some(c.node)
    && (c.heap == h || c.heap.cells[c.node] == Dict(map[]))
    && (TreeShaped(h, root) ==> TreeShaped(c.heap, root))
    && (value in h.cells && Unlinked(h, value) ==> Unlinked(c.heap, value))
  }

  lemma WalkingStep(parse: IntParser, h: Heap, root: Ref, value: Ref, path: seq<Key>, c: Cursor, token: string)
    requires Sound(h) && root in h.cells && Walking(h, root, value, path, c)
    ensures var d, key := StepInto(parse, c.heap, c.node, token), KeyFor(parse, c.heap, c.node, token);
            && (d.error == None ==> Walking(h, root, value, path + [key], d))
            && (d.error.Some? ==> d.heap == h)
  {
    hide StepInto, KeyFor, Sound, TreeShaped, Unlinked;
    var d, key := StepInto(parse, c.heap, c.node, token), KeyFor(parse, c.heap, c.node, token);
    StepIntoKeeps(parse, c.heap, c.node, token, root, value);
    if d.error == None {
      FollowSamePrefix(c.heap, root, path, path + [key], |path|);
      FollowExtends(c.heap, d.heap, root, path + [key], |path|);
    }
  }

  lemma {:induction false} DescendKeeps(parse: IntParser, h: Heap, root: Ref, tokens: seq<string>, n: nat, value: Ref)
    requires Sound(h) && root in h.cells && n <= |tokens|
    ensures var c := Descend(parse, h, root, tokens, n);
            && (c.error.Some? ==> c.heap == h)
            && (c.error == None ==> Walking(h, root, value, Location(parse, h, root, tokens, n), c))
  {
    hide StepInto, KeyFor, Sound, TreeShaped, Unlinked;
    if n > 0 {
      DescendKeeps(parse, h, root, tokens, n - 1, value);
      var c := Descend(parse, h, root, tokens, n - 1);
      if c.error == None {
        WalkingStep(parse, h, root, value, Location(parse, h, root, tokens, n - 1), c, tokens[n - 1]);
      }
    }
  }

  lemma StoreKeeps(parse: IntParser, h: Heap, node: Ref, leaf: string, value: Ref, root: Ref)
    requires Sound(h) && node in h.cells && value in h.cells
    ensures var c, key := Store(parse, h, node, leaf, value), KeyFor(parse, h, node, leaf);
            && (c.error.Some? ==> c.heap == h && h.cells[node] != Dict(map[]))
            && (c.error == None ==>
                  && Sound(c.heap)
                  && Child(c.heap, node, key) == Some(value)
                  && (forall r, k :: Child(h, r, k).Some? && !(r == node && k == key) ==>
                        Child(c.heap, r, k) == Child(h, r, k))
                  && GrownTo(h, c.heap, node, key)
                  && (forall r :: r in h.cells && r != node ==> r in c.heap.cells && c.heap.cells[r] == h.cells[r])
                  && (TreeShaped(h, root) && Unlinked(h, value) && value != root ==> TreeShaped(c.heap, root)))
  {
    match h.cells[node]
    case Dict(fields) =>
      Relinked(h, Store(parse, h, node, leaf, value).heap, node, Field(leaf), value, root);
    case List(items) =>
      var slot := SlotFor(parse, leaf, |items|);
      if slot.Position? {
        var k := Missing(|items|, slot.index);
        GrowLength(h, node, k, Null);
        GrowKeeps(h, node, k, Null, root, value);
        Relinked(Grow(h, node, k, Null), Store(parse, h, node, leaf, value).heap, node, At(slot.index), value, root);
      }
    case _ =>
  }

  /** Pointing one place of a container at `value`. */
  lemma Relinked(h: Heap, g: Heap, node: Ref, key: Key, value: Ref, root: Ref)
    requires Sound(h) && node in h.cells && value in h.cells
    requires g.next == h.next && forall r :: r in g.cells <==> r in h.cells
    requires forall r, k :: Child(g, r, k) == if r == node && k == key then Some(value) else Child(h, r, k)
    ensures Sound(g)
    ensures TreeShaped(h, root) && Unlinked(h, value) && value != root ==> TreeShaped(g, root)
  {
  }

  // ---------------------------------------------------------------------------
  // The laws
  // ---------------------------------------------------------------------------

  /** An update that raises leaves the whole memory as it was, even where cells are shared. */
  lemma {:induction false} FailedUpdateChangesNothing(parse: IntParser, h: Heap, root: Ref, tokens: seq<string>,
                                                      value: Ref)
    requires Sound(h) && root in h.cells && value in h.cells && tokens != []
    requires Update(parse, h, root, tokens, value).error.Some?
    ensures Update(parse, h, root, tokens, value).heap == h
  {
    hide StepInto, Store, KeyFor, TreeShaped, Unlinked;
    var c := Descend(parse, h, root, tokens, |tokens| - 1);
    DescendKeeps(parse, h, root, tokens, |tokens| - 1, value);
    if c.error == None {
      StoreKeeps(parse, c.heap, c.node, tokens[|tokens| - 1], value, root);
    }
  }

  /** A scalar cannot be entered or assigned into, nor a list at a token that is no position of it. */
  predicate Blocks(parse: IntParser, h: Heap, node: Ref, token: string) {
    node in h.cells
    && match h.cells[node]
       case Dict(_) => false
       case List(items) => SlotFor(parse, token, |items|).Bad?
       case _ => true
  }

  /** The walk through the document as it was comes to a cell that blocks token `j`. */
  predicate BlockedAt(parse: IntParser, h: Heap, root: Ref, tokens: seq<string>, j: nat)
    requires j < |tokens|
  {
    var c := Descend(parse, h, root, tokens, j);
    c.error == None && c.heap == h && Blocks(parse, h, c.node, tokens[j])
  }

  lemma StepsFailWhenBlocked(parse: IntParser, h: Heap, node: Ref, token: string, value: Ref)
    requires node in h.cells
    ensures StepInto(parse, h, node, token).error.Some? <==> Blocks(parse, h, node, token)
    ensures Store(parse, h, node, token, value).error.Some? <==> Blocks(parse, h, node, token)
    ensures h.cells[node] == Dict(map[]) ==> !Blocks(parse, h, node, token)
  {
    hide SlotFor, Grow;
  }

  lemma {:induction false} DescendBlocked(parse: IntParser, h: Heap, root: Ref, tokens: seq<string>, n: nat)
    requires Sound(h) && root in h.cells && n <= |tokens|
    ensures Descend(parse, h, root, tokens, n).error.Some?
            <==> exists j :: 0 <= j < n && BlockedAt(parse, h, root, tokens, j)
  {
    hide Sound, Blocks, StepInto, KeyFor, TreeShaped, Unlinked, Child, Follow, Extends;
    if n > 0 {
      var c := Descend(parse, h, root, tokens, n - 1);
      DescendBlocked(parse, h, root, tokens, n - 1);
      DescendKeeps(parse, h, root, tokens, n - 1, root);
      if c.error == None {
        StepsFailWhenBlocked(parse, c.heap, c.node, tokens[n - 1], root);
        assert BlockedAt(parse, h, root, tokens, n - 1) <==> Blocks(parse, c.heap, c.node, tokens[n - 1]);
      }
    }
  }

  /**
   An update raises exactly when the document, as it was, blocks one of the tokens:
   once a container had to be created the rest of the walk cannot fail.
   */
  lemma {:induction false} UpdateFailsWhenBlocked(parse: IntParser, h: Heap, root: Ref, tokens: seq<string>, value: Ref)
    requires Sound(h) && root in h.cells && tokens != []
    ensures Update(parse, h, root, tokens, value).error.Some?
            <==> exists j :: 0 <= j < |tokens| && BlockedAt(parse, h, root, tokens, j)
  {
    hide Sound, Blocks, StepInto, Store, KeyFor, TreeShaped, Unlinked, Child, Follow, Extends;
    var n := |tokens| - 1;
    var c := Descend(parse, h, root, tokens, n);
    DescendBlocked(parse, h, root, tokens, n);
    DescendKeeps(parse, h, root, tokens, n, root);
    if c.error == None {
      StepsFailWhenBlocked(parse, c.heap, c.node, tokens[n], value);
      assert BlockedAt(parse, h, root, tokens, n) <==> Blocks(parse, c.heap, c.node, tokens[n]);
    } else {
      var j :| 0 <= j < n && BlockedAt(parse, h, root, tokens, j);
      assert BlockedAt(parse, h, root, tokens, j);
    }
  }

  /** In a tree a cell is reached along one path only. */
  lemma {:induction false} PathsAreUnique(h: Heap, root: Ref, p: seq<Key>, m: nat, q: seq<Key>, n: nat)
    requires TreeShaped(h, root) && m <= |p| && n <= |q|
    requires Follow(h, root, p, m).Some? && Follow(h, root, p, m) == Follow(h, root, q, n)
    ensures m == n && p[..m] == q[..n]
  {
    if m > 0 && n > 0 {
      PathsAreUnique(h, root, p, m - 1, q, n - 1);
      assert p[..m] == p[..m - 1] + [p[m - 1]] && q[..n] == q[..n - 1] + [q[n - 1]];
    }
  }

  /** The path `p` leaves the cell `node` by `key` as its `j`-th step. */
  predicate Uses(h: Heap, root: Ref, p: seq<Key>, j: nat, node: Ref, key: Key)
    requires j < |p|
  {
    Follow(h, root, p, j) == Some(node) && p[j] == key
  }

  /** All edges but one are kept. */
  ghost predicate KeepsOtherEdges(h: Heap, g: Heap, node: Ref, key: Key) {
    forall r, k :: Child(h, r, k).Some? && !(r == node && k == key) ==> Child(g, r, k) == Child(h, r, k)
  }

  /** A path that does not use the edge that was rewritten still leads where it led. */
  lemma {:induction false} FollowAvoids(h: Heap, g: Heap, root: Ref, p: seq<Key>, n: nat, node: Ref, key: Key)
    requires n <= |p| && Follow(h, root, p, n).Some? && KeepsOtherEdges(h, g, node, key)
    requires forall j :: 0 <= j < n ==> !Uses(h, root, p, j, node, key)
    ensures Follow(g, root, p, n) == Follow(h, root, p, n)
  {
    hide Child;
    if n > 0 {
      assert !Uses(h, root, p, n - 1, node, key);
      FollowAvoids(h, g, root, p, n - 1, node, key);
    }
  }

  /** The setting of the laws: a tree, and a value that is not part of it. */
  ghost predicate Ready(h: Heap, root: Ref, value: Ref) {
    TreeShaped(h, root) && value in h.cells && Unlinked(h, value) && value != root
  }

  /** The walk and the final assignment of a successful update, with what each keeps. */
  lemma {:induction false} UpdateParts(parse: IntParser, h: Heap, root: Ref, tokens: seq<string>, value: Ref)
    requires Ready(h, root, value) && tokens != [] && Update(parse, h, root, tokens, value).error == None
    ensures var n := |tokens| - 1;
            var c, out := Descend(parse, h, root, tokens, n), Update(parse, h, root, tokens, value);
            var path := Location(parse, h, root, tokens, n + 1);
            && c.error == None && Walking(h, root, value, path[..n], c)
            && KeepsOtherEdges(c.heap, out.heap, c.node, path[n])
            && Child(out.heap, c.node, path[n]) == Some(value)
            && GrownTo(c.heap, out.heap, c.node, path[n])
            && (forall r :: r in c.heap.cells && r != c.node ==>
                  r in out.heap.cells && out.heap.cells[r] == c.heap.cells[r])
            && TreeShaped(out.heap, root)
  {
    hide StepInto, Store, KeyFor, GrownTo, Sound;
    var n := |tokens| - 1;
    var c := Descend(parse, h, root, tokens, n);
    SoundTree(h, root);
    DescendKeeps(parse, h, root, tokens, n, value);
    LocationPrefix(parse, h, root, tokens, n, n + 1);
    StoreKeeps(parse, c.heap, c.node, tokens[n], value, root);
  }

  lemma SoundTree(h: Heap, root: Ref)
    requires TreeShaped(h, root)
    ensures Sound(h) && root in h.cells
  {
  }

  /** The path used by the update meets the rewritten container only at its end. */
  lemma {:induction false} LocationMeetsNodeOnce(h: Heap, root: Ref, path: seq<Key>, node: Ref, key: Key, q: seq<Key>,
                                                 j: nat)
    requires TreeShaped(h, root) && Follow(h, root, path, |path|) == Some(node) && j < |q|
    requires Uses(h, root, q, j, node, key)
    ensures q[..j + 1] == path + [key]
  {
    PathsAreUnique(h, root, q, j, path, |path|);
    assert q[..j + 1] == q[..j] + [q[j]];
    assert path[..|path|] == path;
  }

  /** So a path uses the rewritten edge only if it goes on from there. */
  lemma {:induction false} OnlyExtensionsUse(h: Heap, root: Ref, path: seq<Key>, node: Ref, key: Key, q: seq<Key>)
    requires TreeShaped(h, root) && Follow(h, root, path, |path|) == Some(node) && !(path + [key] <= q)
    ensures forall j :: 0 <= j < |q| ==> !Uses(h, root, q, j, node, key)
  {
    hide TreeShaped, Follow;
    forall j | 0 <= j < |q|
      ensures !Uses(h, root, q, j, node, key)
    {
      if Uses(h, root, q, j, node, key) {
        LocationMeetsNodeOnce(h, root, path, node, key, q, j);
      }
    }
  }

  /** The cells that the walk entered are found along the same keys afterwards. */
  lemma {:induction false} PathSurvives(parse: IntParser, h: Heap, root: Ref, tokens: seq<string>, value: Ref, j: nat)
    requires Ready(h, root, value) && j < |tokens| && Update(parse, h, root, tokens, value).error == None
    ensures Follow(Update(parse, h, root, tokens, value).heap, root, Location(parse, h, root, tokens, |tokens|), j)
            == Some(Descend(parse, h, root, tokens, j).node)
  {
    hide Descend, Update, Location, TreeShaped, Sound, Unlinked, GrownTo;
    var n := |tokens| - 1;
    var c, out := Descend(parse, h, root, tokens, n), Update(parse, h, root, tokens, value);
    var path := Location(parse, h, root, tokens, n + 1);
    TreeOfReady(h, root, value);
    SoundTree(h, root);
    UpdateParts(parse, h, root, tokens, value);
    LocationPrefix(parse, h, root, tokens, n, n + 1);
    EnteredAlongLocation(parse, h, root, tokens, j, n);
    assert path[..n][..j] == path[..j];
    FollowSamePrefix(c.heap, root, path[..n], path, j);
    FollowSamePrefix(c.heap, root, path[..n], path, n);
    forall i | 0 <= i < j
      ensures !Uses(c.heap, root, path, i, c.node, path[n])
    {
      if Uses(c.heap, root, path, i, c.node, path[n]) {
        LocationMeetsNodeOnce(c.heap, root, path[..n], c.node, path[n], path, i);
      }
    }
    FollowAvoids(c.heap, out.heap, root, path, j, c.node, path[n]);
  }

  /** What was set is found at the place that the walk chose for the pointer. */
  lemma {:induction false} SetAtLocation(parse: IntParser, h: Heap, root: Ref, tokens: seq<string>, value: Ref)
    requires Ready(h, root, value) && tokens != [] && Update(parse, h, root, tokens, value).error == None
    ensures Follow(Update(parse, h, root, tokens, value).heap, root,
                   Location(parse, h, root, tokens, |tokens|), |tokens|)
            == Some(value)
  {
    hide Descend, Update, Location, TreeShaped, Sound, Unlinked, GrownTo;
    UpdateParts(parse, h, root, tokens, value);
    PathSurvives(parse, h, root, tokens, value, |tokens| - 1);
  }

  lemma TreeOfReady(h: Heap, root: Ref, value: Ref)
    requires Ready(h, root, value)
    ensures TreeShaped(h, root)
  {
  }

  /** Every other place of the document, outside the one that was set, still holds the same cell. */
  lemma {:induction false} OtherPlacesStay(parse: IntParser, h: Heap, root: Ref, tokens: seq<string>, value: Ref,
                                           q: seq<Key>)
    requires Ready(h, root, value) && tokens != [] && Update(parse, h, root, tokens, value).error == None
    requires Follow(h, root, q, |q|).Some? && !(Location(parse, h, root, tokens, |tokens|) <= q)
    ensures Follow(Update(parse, h, root, tokens, value).heap, root, q, |q|) == Follow(h, root, q, |q|)
  {
    hide Descend, Update, Location, TreeShaped, Sound, Unlinked, Extends, KeepsOtherEdges, Uses, GrownTo, Follow, Child;
    var n := |tokens| - 1;
    var c, out := Descend(parse, h, root, tokens, n), Update(parse, h, root, tokens, value);
    var path := Location(parse, h, root, tokens, n + 1);
    TreeOfReady(h, root, value);
    UpdateParts(parse, h, root, tokens, value);
    FollowExtends(h, c.heap, root, q, |q|);
    assert path[..n] + [path[n]] == path;
    OnlyExtensionsUse(c.heap, root, path[..n], c.node, path[n], q);
    FollowAvoids(c.heap, out.heap, root, q, |q|, c.node, path[n]);
  }

  // ---------------------------------------------------------------------------
  // Contents of the cells
  // ---------------------------------------------------------------------------

  /** The cell is one of those that the walk enters in its rounds `m` to `n`. */
  ghost predicate Entered(parse: IntParser, h: Heap, root: Ref, tokens: seq<string>, m: nat, n: nat, r: Ref)
    requires n <= |tokens|
  {
    exists j :: m <= j < n && Descend(parse, h, root, tokens, j).node == r
  }

  /** The walk only writes into cells that it enters. */
  lemma {:induction false} DescendWritesOnPath(parse: IntParser, h: Heap, root: Ref, tokens: seq<string>, m: nat,
                                               n: nat,
                                               r: Ref)
    requires Sound(h) && root in h.cells && m <= n <= |tokens| && Descend(parse, h, root, tokens, n).error == None
    requires r in Descend(parse, h, root, tokens, m).heap.cells && !Entered(parse, h, root, tokens, m, n, r)
    ensures Descend(parse, h, root, tokens, m).error == None
    ensures r in Descend(parse, h, root, tokens, n).heap.cells
    ensures Descend(parse, h, root, tokens, n).heap.cells[r] == Descend(parse, h, root, tokens, m).heap.cells[r]
    decreases n
  {
    hide StepInto, Sound, TreeShaped, Unlinked, KeyFor, GrownTo;
    if m < n {
      var c := Descend(parse, h, root, tokens, n - 1);
      DescendWritesOnPath(parse, h, root, tokens, m, n - 1, r);
      DescendKeeps(parse, h, root, tokens, n - 1, root);
      StepIntoKeeps(parse, c.heap, c.node, tokens[n - 1], root, root);
      assert r != c.node;
    }
  }

  /** The cell entered in round `j` is the one the first `j` keys lead to, at any later time. */
  lemma {:induction false} EnteredAlongLocation(parse: IntParser, h: Heap, root: Ref, tokens: seq<string>, j: nat,
                                                n: nat)
    requires Sound(h) && root in h.cells && j <= n <= |tokens| && Descend(parse, h, root, tokens, n).error == None
    ensures var path := Location(parse, h, root, tokens, n);
            Follow(Descend(parse, h, root, tokens, n).heap, root, path, j)
            == Some(Descend(parse, h, root, tokens, j).node)
    decreases n - j
  {
    hide StepInto, Sound, TreeShaped, Unlinked, KeyFor, GrownTo;
    var path := Location(parse, h, root, tokens, n);
    DescendKeeps(parse, h, root, tokens, j, root);
    if Descend(parse, h, root, tokens, j).error.Some? {
      DescendStopsAt(parse, h, root, tokens, j, n);
    }
    LocationPrefix(parse, h, root, tokens, j, n);
    DescendGrows(parse, h, root, tokens, j, n);
    var before, after := Descend(parse, h, root, tokens, j), Descend(parse, h, root, tokens, n);
    FollowExtends(before.heap, after.heap, root, Location(parse, h, root, tokens, j), j);
    assert Location(parse, h, root, tokens, j)[..j] == path[..j];
    FollowSamePrefix(after.heap, root, Location(parse, h, root, tokens, j), path, j);
  }

  lemma {:induction false} DescendGrows(parse: IntParser, h: Heap, root: Ref, tokens: seq<string>, m: nat, n: nat)
    requires Sound(h) && root in h.cells && m <= n <= |tokens| && Descend(parse, h, root, tokens, n).error == None
    ensures Extends(Descend(parse, h, root, tokens, m).heap, Descend(parse, h, root, tokens, n).heap)
    decreases n
  {
    hide StepInto, Sound, TreeShaped, Unlinked, KeyFor, GrownTo, Child;
    if m < n {
      var c := Descend(parse, h, root, tokens, n - 1);
      DescendGrows(parse, h, root, tokens, m, n - 1);
      DescendKeeps(parse, h, root, tokens, n - 1, root);
      StepIntoKeeps(parse, c.heap, c.node, tokens[n - 1], root, root);
    }
  }

  /**
   A place that is neither above the pointer nor at or below it keeps its very
   contents: same cell, same scalar, same keys, same length.
   */
  lemma {:induction false} UnrelatedContentsStay(parse: IntParser, h: Heap, root: Ref, tokens: seq<string>,
                                                 value: Ref, q: seq<Key>)
    requires Ready(h, root, value) && tokens != [] && Update(parse, h, root, tokens, value).error == None
    requires Follow(h, root, q, |q|).Some? && Follow(h, root, q, |q|).value in h.cells
    requires !(q <= Location(parse, h, root, tokens, |tokens|))
    ensures var out := Update(parse, h, root, tokens, value).heap;
            var x := Follow(h, root, q, |q|).value;
            x in out.cells && out.cells[x] == h.cells[x]
  {
    hide Update, Location, TreeShaped, Sound, Unlinked, Extends, KeepsOtherEdges, GrownTo, Follow, Child;
    var n := |tokens| - 1;
    var c, x := Descend(parse, h, root, tokens, n), Follow(h, root, q, |q|).value;
    var path := Location(parse, h, root, tokens, n + 1);
    TreeOfReady(h, root, value);
    SoundTree(h, root);
    UpdateParts(parse, h, root, tokens, value);
    LocationPrefix(parse, h, root, tokens, n, n + 1);
    FollowExtends(h, c.heap, root, q, |q|);
    forall j | 0 <= j <= n
      ensures Descend(parse, h, root, tokens, j).node != x
    {
      EnteredAlongLocation(parse, h, root, tokens, j, n);
      if Descend(parse, h, root, tokens, j).node == x {
        PathsAreUnique(c.heap, root, q, |q|, path[..n], j);
      }
    }
    DescendWritesOnPath(parse, h, root, tokens, 0, n, x);
  }

  /** A walk in a tree never enters a cell twice. */
  lemma {:induction false} EntersOnce(parse: IntParser, h: Heap, root: Ref, tokens: seq<string>, i: nat, j: nat)
    requires TreeShaped(h, root) && i < j <= |tokens| && Descend(parse, h, root, tokens, j).error == None
    ensures Descend(parse, h, root, tokens, i).node != Descend(parse, h, root, tokens, j).node
  {
    hide Descend, TreeShaped, Sound, Unlinked, Extends;
    SoundTree(h, root);
    DescendKeeps(parse, h, root, tokens, j, root);
    EnteredAlongLocation(parse, h, root, tokens, i, j);
    EnteredAlongLocation(parse, h, root, tokens, j, j);
    var path := Location(parse, h, root, tokens, j);
    if Descend(parse, h, root, tokens, i).node == Descend(parse, h, root, tokens, j).node {
      PathsAreUnique(Descend(parse, h, root, tokens, j).heap, root, path, i, path, j);
    }
  }

  lemma {:induction false} WalkSurvives(parse: IntParser, h: Heap, root: Ref, tokens: seq<string>, j: nat, n: nat)
    requires j <= n <= |tokens| && Descend(parse, h, root, tokens, n).error == None
    ensures Descend(parse, h, root, tokens, j).error == None
  {
    if Descend(parse, h, root, tokens, j).error.Some? {
      DescendStopsAt(parse, h, root, tokens, j, n);
    }
  }

  /** From round `j` to round `n` of a walk, the cell entered in round `k` outside of them is not written. */
  lemma {:induction false} EnteredStays(parse: IntParser, h: Heap, root: Ref, tokens: seq<string>, k: nat, m: nat,
                                        n: nat)
    requires TreeShaped(h, root) && m <= n < |tokens| && k <= n && (k < m || k == n)
    requires Descend(parse, h, root, tokens, n).error == None
    requires Descend(parse, h, root, tokens, k).node in Descend(parse, h, root, tokens, m).heap.cells
    ensures var r := Descend(parse, h, root, tokens, k).node;
            && r in Descend(parse, h, root, tokens, n).heap.cells
            && Descend(parse, h, root, tokens, n).heap.cells[r] == Descend(parse, h, root, tokens, m).heap.cells[r]
  {
    hide Descend, TreeShaped, Sound;
    var r := Descend(parse, h, root, tokens, k).node;
    SoundTree(h, root);
    forall j | m <= j < n
      ensures Descend(parse, h, root, tokens, j).node != r
    {
      WalkSurvives(parse, h, root, tokens, if k < j then j else k, n);
      if k < j {
        EntersOnce(parse, h, root, tokens, k, j);
      } else {
        EntersOnce(parse, h, root, tokens, j, k);
      }
    }
    DescendWritesOnPath(parse, h, root, tokens, m, n, r);
  }

  /**
   A list on the way, or at its end, that existed before is as long as it was or
   just long enough for the position that was used in it.
   */
  lemma {:induction false} ListsGrowAsNeeded(parse: IntParser, h: Heap, root: Ref, tokens: seq<string>, value: Ref,
                                             j: nat)
    requires Ready(h, root, value) && j < |tokens| && Update(parse, h, root, tokens, value).error == None
    ensures GrownTo(h, Update(parse, h, root, tokens, value).heap, Descend(parse, h, root, tokens, j).node,
                    Location(parse, h, root, tokens, |tokens|)[j])
  {
    hide Descend, Update, TreeShaped, Sound, Unlinked, Extends, KeepsOtherEdges, Follow, Child;
    var n := |tokens| - 1;
    var c, out, x := Descend(parse, h, root, tokens, n), Update(parse, h, root, tokens, value).heap,
                     Descend(parse, h, root, tokens, j).node;
    TreeOfReady(h, root, value);
    SoundTree(h, root);
    UpdateParts(parse, h, root, tokens, value);
    WalkSurvives(parse, h, root, tokens, j, n);
    WalkStart(parse, h, root, tokens);
    if x in h.cells {
      EnteredStays(parse, h, root, tokens, j, 0, j);
      if j < n {
        LocationPrefix(parse, h, root, tokens, j + 1, n + 1);
        assert Location(parse, h, root, tokens, n + 1)[j] == Location(parse, h, root, tokens, n + 1)[..j + 1][j];
        RoundGrows(parse, h, root, tokens, j, n);
        EnteredStays(parse, h, root, tokens, j, j + 1, n);
        EntersOnce(parse, h, root, tokens, j, n);
      }
    }
  }

  lemma WalkStart(parse: IntParser, h: Heap, root: Ref, tokens: seq<string>)
    ensures Descend(parse, h, root, tokens, 0) == Cursor(h, root, None)
  {
  }

  lemma {:induction false} RoundGrows(parse: IntParser, h: Heap, root: Ref, tokens: seq<string>, j: nat, n: nat)
    requires TreeShaped(h, root) && j < n < |tokens| && Descend(parse, h, root, tokens, n).error == None
    ensures var before, after := Descend(parse, h, root, tokens, j), Descend(parse, h, root, tokens, j + 1);
            && before.node in after.heap.cells
            && GrownTo(before.heap, after.heap, before.node, Location(parse, h, root, tokens, j + 1)[j])
  {
    hide StepInto, TreeShaped, Sound, Unlinked, GrownTo, Child, KeyFor;
    var before := Descend(parse, h, root, tokens, j);
    SoundTree(h, root);
    WalkSurvives(parse, h, root, tokens, j, n);
    WalkSurvives(parse, h, root, tokens, j + 1, n);
    DescendKeeps(parse, h, root, tokens, j, root);
    StepIntoKeeps(parse, before.heap, before.node, tokens[j], root, root);
  }

  /**
   A token that led out of a container by a key leads out of it by that key again,
   without changing anything: negative list indices included, since a list that is
   entered from its end does not grow.
   */
  lemma TokenLeadsAgain(parse: IntParser, h: Heap, g: Heap, node: Ref, token: string, child: Ref)
    requires node in h.cells && !Blocks(parse, h, node, token)
    requires GrownTo(h, g, node, KeyFor(parse, h, node, token))
    requires Child(g, node, KeyFor(parse, h, node, token)) == Some(child)
    ensures StepInto(parse, g, node, token) == Cursor(g, child, None)
  {
  }

  /** The same for the token of round `j` of the walk of an update. */
  lemma {:induction false} RoundLeadsAgain(parse: IntParser, h: Heap, root: Ref, tokens: seq<string>, value: Ref,
                                           j: nat, child: Ref)
    requires Ready(h, root, value) && j < |tokens| && Update(parse, h, root, tokens, value).error == None
    requires var out := Update(parse, h, root, tokens, value).heap;
             Child(out, Descend(parse, h, root, tokens, j).node, Location(parse, h, root, tokens, |tokens|)[j])
             == Some(child)
    ensures var out := Update(parse, h, root, tokens, value).heap;
            StepInto(parse, out, Descend(parse, h, root, tokens, j).node, tokens[j]) == Cursor(out, child, None)
  {
    hide StepInto, Update, TreeShaped, Sound, Unlinked, Child, Follow, Extends;
    var out, c := Update(parse, h, root, tokens, value).heap, Descend(parse, h, root, tokens, j);
    TreeOfReady(h, root, value);
    SoundTree(h, root);
    UpdateParts(parse, h, root, tokens, value);
    WalkSurvives(parse, h, root, tokens, j, |tokens| - 1);
    DescendKeeps(parse, h, root, tokens, j, value);
    LocationPrefix(parse, h, root, tokens, j + 1, |tokens|);
    assert Location(parse, h, root, tokens, |tokens|)[j] == Location(parse, h, root, tokens, |tokens|)[..j + 1][j];
    ListsGrowAsNeeded(parse, h, root, tokens, value, j);
    TokenIsNotBlocked(parse, h, root, tokens, value, j);
    TokenLeadsAgain(parse, c.heap, out, c.node, tokens[j], child);
  }

  lemma {:induction false} TokenIsNotBlocked(parse: IntParser, h: Heap, root: Ref, tokens: seq<string>, value: Ref,
                                             j: nat)
    requires Ready(h, root, value) && j < |tokens| && Update(parse, h, root, tokens, value).error == None
    ensures var c := Descend(parse, h, root, tokens, j); !Blocks(parse, c.heap, c.node, tokens[j])
  {
    hide StepInto, Store, TreeShaped, Sound, Unlinked, Child, Follow, Extends, Blocks;
    var c, n := Descend(parse, h, root, tokens, j), |tokens| - 1;
    TreeOfReady(h, root, value);
    SoundTree(h, root);
    WalkSurvives(parse, h, root, tokens, j, n);
    DescendKeeps(parse, h, root, tokens, j, value);
    StepsFailWhenBlocked(parse, c.heap, c.node, tokens[j], value);
    if j < n {
      WalkSurvives(parse, h, root, tokens, j + 1, n);
    }
  }

  /** The walk along the tokens through the updated document meets the same cells and changes nothing. */
  lemma {:induction false} WalkAgain(parse: IntParser, h: Heap, root: Ref, tokens: seq<string>, value: Ref, j: nat)
    requires Ready(h, root, value) && j < |tokens| && Update(parse, h, root, tokens, value).error == None
    ensures var out := Update(parse, h, root, tokens, value).heap;
            Descend(parse, out, root, tokens, j) == Cursor(out, Descend(parse, h, root, tokens, j).node, None)
  {
    hide StepInto, Update, Location, TreeShaped, Sound, Unlinked, Child;
    if j > 0 {
      WalkAgain(parse, h, root, tokens, value, j - 1);
      PathSurvives(parse, h, root, tokens, value, j - 1);
      PathSurvives(parse, h, root, tokens, value, j);
      RoundLeadsAgain(parse, h, root, tokens, value, j - 1, Descend(parse, h, root, tokens, j).node);
    } else {
      WalkStart(parse, h, root, tokens);
    }
  }

  /**
   Get after set: the same tokens, resolved in the updated document, lead to the
   value, and resolving them creates nothing.
   */
  lemma {:induction false} GetAfterSet(parse: IntParser, h: Heap, root: Ref, tokens: seq<string>, value: Ref)
    requires Ready(h, root, value) && tokens != [] && Update(parse, h, root, tokens, value).error == None
    ensures var out := Update(parse, h, root, tokens, value).heap;
            && Descend(parse, out, root, tokens, |tokens|) == Cursor(out, value, None)
            && Follow(out, root, Location(parse, h, root, tokens, |tokens|), |tokens|) == Some(value)
  {
    hide StepInto, Update, Location, TreeShaped, Sound, Unlinked, Child, GrownTo;
    var n := |tokens| - 1;
    UpdateParts(parse, h, root, tokens, value);
    SetAtLocation(parse, h, root, tokens, value);
    WalkAgain(parse, h, root, tokens, value, n);
    RoundLeadsAgain(parse, h, root, tokens, value, n, value);
  }

  /** In a tree nothing can be reached both from the root and from a value outside of it. */
  lemma {:induction false} OutsideStaysApart(h: Heap, root: Ref, value: Ref, p: seq<Key>, m: nat, q: seq<Key>, n: nat)
    requires Ready(h, root, value) && m <= |p| && n <= |q|
    requires Follow(h, root, p, m).Some?
    ensures Follow(h, root, p, m) != Follow(h, value, q, n)
  {
    if m > 0 && n > 0 && Follow(h, root, p, m) == Follow(h, value, q, n) {
      OutsideStaysApart(h, root, value, p, m - 1, q, n - 1);
    }
  }

  /** The value arrives whole: everything below it is where it was, unchanged. */
  lemma {:induction false} ValueArrivesWhole(parse: IntParser, h: Heap, root: Ref, tokens: seq<string>, value: Ref,
                                             q: seq<Key>, n: nat)
    requires Ready(h, root, value) && tokens != [] && Update(parse, h, root, tokens, value).error == None
    requires n <= |q| && Follow(h, value, q, n).Some?
    ensures var out, x := Update(parse, h, root, tokens, value).heap, Follow(h, value, q, n).value;
            && Follow(out, value, q, n) == Some(x)
            && x in h.cells && x in out.cells && out.cells[x] == h.cells[x]
  {
    hide Update, Descend, KeepsOtherEdges, Extends;
    if n > 0 {
      ValueArrivesWhole(parse, h, root, tokens, value, q, n - 1);
    }
    OutsideIsNotWritten(parse, h, root, tokens, value, q, n);
  }

  lemma {:induction false} OutsideIsNotWritten(parse: IntParser, h: Heap, root: Ref, tokens: seq<string>, value: Ref,
                                               q: seq<Key>, n: nat)
    requires Ready(h, root, value) && tokens != [] && Update(parse, h, root, tokens, value).error == None
    requires n <= |q| && Follow(h, value, q, n).Some? && Follow(h, value, q, n).value in h.cells
    ensures var out, x := Update(parse, h, root, tokens, value).heap, Follow(h, value, q, n).value;
            x in out.cells && out.cells[x] == h.cells[x]
  {
    hide Update, TreeShaped, Sound, Unlinked, KeepsOtherEdges, Child, Follow, Descend, Extends;
    var m := |tokens| - 1;
    var c, x := Descend(parse, h, root, tokens, m), Follow(h, value, q, n).value;
    TreeOfReady(h, root, value);
    SoundTree(h, root);
    UpdateParts(parse, h, root, tokens, value);
    FollowExtends(h, c.heap, value, q, n);
    StillReady(h, c.heap, root, value);
    WalkStart(parse, h, root, tokens);
    forall j | 0 <= j <= m
      ensures Descend(parse, h, root, tokens, j).node != x
    {
      EnteredAlongLocation(parse, h, root, tokens, j, m);
      OutsideStaysApart(c.heap, root, value, Location(parse, h, root, tokens, m), j, q, n);
    }
    DescendWritesOnPath(parse, h, root, tokens, 0, m, x);
  }

  lemma StillReady(h: Heap, g: Heap, root: Ref, value: Ref)
    requires Ready(h, root, value) && Extends(h, g) && TreeShaped(g, root) && Unlinked(g, value)
    ensures Ready(g, root, value)
  {
  }

  /** The document is a tree again, so the laws hold for the next update as well. */
  lemma {:induction false} UpdateKeepsTree(parse: IntParser, h: Heap, root: Ref, tokens: seq<string>, value: Ref)
    requires Ready(h, root, value) && tokens != []
    ensures TreeShaped(Update(parse, h, root, tokens, value).heap, root)
  {
    hide Update, TreeShaped, Sound, Unlinked;
    TreeOfReady(h, root, value);
    SoundTree(h, root);
    if Update(parse, h, root, tokens, value).error == None {
      UpdateParts(parse, h, root, tokens, value);
    } else {
      FailedUpdateChangesNothing(parse, h, root, tokens, value);
    }
  }
}
