/**
 The in-place update in Python's own terms: which item of a list a token addresses,
 what the new items hold, which entry of a dictionary is set, and which error is
 raised. Indices are those that `parse` gives, against the length of the list.
 */
module JsonPositions {
  import opened Seqs
  import opened JsonDocument
  import opened JsonLaws

  /** The item that index `i` addresses in a list of `n` items: from the front, or from the end if negative. */
  ghost predicate Addresses(i: int, n: nat, position: nat) {
    if i >= 0 then position == i else position == n + i
  }

  /** An index that is no item and cannot be appended either. */
  predicate BeforeStart(i: int, n: nat) {
    i < 0 && i + n < 0
  }

  /**
   `items` became `after` by using position `p`: the old items keep their places but
   for `changed`, and new items up to `p` are fresh cells that hold the filler.
   */
  ghost predicate Padded(h: Heap, g: Heap, items: seq<Ref>, after: seq<Ref>, p: nat, changed: Option<nat>,
                         filler: Cell)
  {
    && |after| == Max(|items|, p + 1)
    && (forall k :: 0 <= k < |items| && Some(k) != changed ==> after[k] == items[k])
    && forall k :: |items| <= k < |after| && Some(k) != changed ==>
         after[k] !in h.cells && after[k] in g.cells && g.cells[after[k]] == filler
  }

  lemma {:induction false} GrowItems(h: Heap, node: Ref, k: nat, filler: Cell)
    requires Sound(h) && node in h.cells && h.cells[node].List?
    ensures var g, n := Grow(h, node, k, filler), |h.cells[node].items|;
            && g.next == h.next + k && |g.cells[node].items| == n + k
            && (forall j :: 0 <= j < n ==> g.cells[node].items[j] == h.cells[node].items[j])
            && (forall j :: n <= j < n + k ==> g.cells[node].items[j] == h.next + j - n)
            && (forall r :: h.next <= r < h.next + k ==> r in g.cells && g.cells[r] == filler)
  {
    if k > 0 {
      GrowItems(h, node, k - 1, filler);
    }
  }

  /** Padding a list for position `p`. */
  lemma GrowPads(h: Heap, node: Ref, p: nat, filler: Cell)
    requires Sound(h) && node in h.cells && h.cells[node].List?
    ensures var n := |h.cells[node].items|;
            var g := Grow(h, node, Missing(n, p), filler);
            Padded(h, g, h.cells[node].items, g.cells[node].items, p, None, filler)
  {
    GrowItems(h, node, Missing(|h.cells[node].items|, p), filler);
  }

  /** Assigning into a list, by the index that the token parses to. */
  lemma StoreIntoList(parse: IntParser, h: Heap, node: Ref, leaf: string, value: Ref)
    requires Sound(h) && node in h.cells && h.cells[node].List?
    ensures var items, c := h.cells[node].items, Store(parse, h, node, leaf, value);
            match parse(leaf)
            case None => c == Cursor(h, node, Some(ValueError))
            case Some(i) =>
              if BeforeStart(i, |items|) then c == Cursor(h, node, Some(IndexError))
              else
                && c.error == None && node in c.heap.cells && c.heap.cells[node].List?
                && exists p: nat ::
                     && Addresses(i, |items|, p) && p < |c.heap.cells[node].items|
                     && c.heap.cells[node].items[p] == value
                     && Padded(h, c.heap, items, c.heap.cells[node].items, p, Some(p), Null)
  {
    var items := h.cells[node].items;
    if parse(leaf).Some? && !BeforeStart(parse(leaf).value, |items|) {
      var i := parse(leaf).value;
      var p: nat := if i >= 0 then i else |items| + i;
      GrowItems(h, node, Missing(|items|, p), Null);
      assert Addresses(i, |items|, p);
    }
  }

  /** Entering a list on the way, by the index that the token parses to. */
  lemma StepIntoList(parse: IntParser, h: Heap, node: Ref, token: string)
    requires Sound(h) && node in h.cells && h.cells[node].List?
    ensures var items, c := h.cells[node].items, StepInto(parse, h, node, token);
            match parse(token)
            case None => c == Cursor(h, node, Some(ValueError))
            case Some(i) =>
              if BeforeStart(i, |items|) then c == Cursor(h, node, Some(IndexError))
              else
                && c.error == None && node in c.heap.cells && c.heap.cells[node].List?
                && exists p: nat ::
                     && Addresses(i, |items|, p) && p < |c.heap.cells[node].items|
                     && c.heap.cells[node].items[p] == c.node
                     && Padded(h, c.heap, items, c.heap.cells[node].items, p, None, Dict(map[]))
  {
    var items := h.cells[node].items;
    if parse(token).Some? && !BeforeStart(parse(token).value, |items|) {
      var i := parse(token).value;
      var p: nat := if i >= 0 then i else |items| + i;
      GrowPads(h, node, p, Dict(map[]));
      GrowLength(h, node, Missing(|items|, p), Dict(map[]));
      assert Addresses(i, |items|, p);
    }
  }

  /** Dictionaries: the one entry is set; on the way a missing entry is made, an empty dictionary. */
  lemma DictionariesAreSet(parse: IntParser, h: Heap, node: Ref, token: string, value: Ref)
    requires Sound(h) && node in h.cells && h.cells[node].Dict?
    ensures Store(parse, h, node, token, value).error == None
    ensures Store(parse, h, node, token, value).heap.cells[node] == Dict(h.cells[node].fields[token := value])
    ensures var fields, c := h.cells[node].fields, StepInto(parse, h, node, token);
            && c.error == None
            && if token in fields then c.heap == h && c.node == fields[token]
               else
                 && c.node !in h.cells && c.node in c.heap.cells && c.heap.cells[c.node] == Dict(map[])
                 && c.heap.cells[node] == Dict(fields[token := c.node])
  {
  }

  /** Anything else refuses both. */
  lemma ScalarsRefuse(parse: IntParser, h: Heap, node: Ref, token: string, value: Ref)
    requires node in h.cells && !h.cells[node].Dict? && !h.cells[node].List?
    ensures StepInto(parse, h, node, token) == Cursor(h, node, Some(TypeError))
    ensures Store(parse, h, node, token, value) == Cursor(h, node, Some(TypeError))
  {
  }

  /** A token is refused exactly by a scalar, or by a list to which it is no number or a number before its start. */
  lemma RefusedExactly(parse: IntParser, h: Heap, node: Ref, token: string)
    requires node in h.cells
    ensures Blocks(parse, h, node, token)
            <==> match h.cells[node]
                 case Dict(_) => false
                 case List(items) => parse(token) == None || BeforeStart(parse(token).value, |items|)
                 case _ => true
  {
  }

  /** The list at the end of the pointer, before and after an update. */
  ghost predicate ListSet(parse: IntParser, h: Heap, out: Heap, node: Ref, leaf: string, value: Ref)
    requires node in h.cells && h.cells[node].List?
  {
    && parse(leaf).Some? && node in out.cells && out.cells[node].List?
    && exists p: nat ::
         && Addresses(parse(leaf).value, |h.cells[node].items|, p) && p < |out.cells[node].items|
         && out.cells[node].items[p] == value
         && Padded(h, out, h.cells[node].items, out.cells[node].items, p, Some(p), Null)
  }

  /**
   An update that ends in a list puts the value at the index that the last token parses
   to, counted from the end if negative, keeps every other item, and fills new items with
   nulls; it raises exactly when the token is no number or lies before the start.
   */
  lemma {:induction false} UpdateSetsItem(parse: IntParser, h: Heap, root: Ref, tokens: seq<string>, value: Ref)
    requires Sound(h) && root in h.cells && value in h.cells && tokens != []
    requires var c := Descend(parse, h, root, tokens, |tokens| - 1);
             c.error == None && c.node in h.cells && c.heap == h && h.cells[c.node].List?
    ensures var node, leaf := Descend(parse, h, root, tokens, |tokens| - 1).node, tokens[|tokens| - 1];
            var n, out := |h.cells[node].items|, Update(parse, h, root, tokens, value);
            && (out.error == Some(ValueError) <==> parse(leaf) == None)
            && (out.error == Some(IndexError) <==> parse(leaf).Some? && BeforeStart(parse(leaf).value, n))
            && out.error != Some(TypeError)
            && (out.error == None ==> ListSet(parse, h, out.heap, node, leaf, value))
  {
    hide Store, Sound;
    var node := Descend(parse, h, root, tokens, |tokens| - 1).node;
    StoreIntoList(parse, h, node, tokens[|tokens| - 1], value);
  }

  /** When the walk has reached a list, nothing was created on the way to it: the list is one of the document. */
  lemma {:induction false} ListsAreOld(parse: IntParser, h: Heap, root: Ref, tokens: seq<string>, j: nat)
    requires Sound(h) && root in h.cells && j <= |tokens|
    requires var c := Descend(parse, h, root, tokens, j);
             c.error == None && c.node in c.heap.cells && c.heap.cells[c.node].List?
    ensures var c := Descend(parse, h, root, tokens, j); c.heap == h && c.node in h.cells
  {
    hide StepInto, Sound, TreeShaped, Unlinked;
    DescendKeeps(parse, h, root, tokens, j, root);
  }

  /** A list that was entered on the way, before and after an update. */
  ghost predicate ListEntered(parse: IntParser, h: Heap, out: Heap, node: Ref, token: string, child: Ref)
    requires node in h.cells && h.cells[node].List?
  {
    && parse(token).Some? && node in out.cells && out.cells[node].List?
    && exists p: nat ::
         && Addresses(parse(token).value, |h.cells[node].items|, p) && p < |out.cells[node].items|
         && out.cells[node].items[p] == child
         && |out.cells[node].items| == Max(|h.cells[node].items|, p + 1)
         && forall k :: 0 <= k < |h.cells[node].items| ==> out.cells[node].items[k] == h.cells[node].items[k]
  }

  /**
   A list that is entered on the way is left at the index that its token parses to, by
   the cell that the walk enters next, keeps all its items, and gets no more than it needs.
   */
  lemma {:induction false} UpdateEntersItem(parse: IntParser, h: Heap, root: Ref, tokens: seq<string>, value: Ref,
                                            j: nat)
    requires Ready(h, root, value) && j + 1 < |tokens| && Update(parse, h, root, tokens, value).error == None
    requires var c := Descend(parse, h, root, tokens, j); c.heap == h && c.node in h.cells && h.cells[c.node].List?
    ensures ListEntered(parse, h, Update(parse, h, root, tokens, value).heap, Descend(parse, h, root, tokens, j).node,
                        tokens[j], Descend(parse, h, root, tokens, j + 1).node)
  {
    hide StepInto, Update, TreeShaped, Sound, Unlinked, Extends, KeepsOtherEdges, Follow, Child;
    var n, node := |tokens| - 1, Descend(parse, h, root, tokens, j).node;
    TreeOfReady(h, root, value);
    SoundTree(h, root);
    UpdateParts(parse, h, root, tokens, value);
    WalkSurvives(parse, h, root, tokens, j, n);
    WalkSurvives(parse, h, root, tokens, j + 1, n);
    StepIntoList(parse, h, node, tokens[j]);
    EnteredStays(parse, h, root, tokens, j, j + 1, n);
    EntersOnce(parse, h, root, tokens, j, n);
  }

  /** The walk never comes to a cell that hangs in a container it has left by another key. */
  lemma {:induction false} WalkPassesBy(parse: IntParser, h: Heap, root: Ref, tokens: seq<string>, j: nat, i: nat,
                                        n: nat, key: Key, x: Ref)
    requires TreeShaped(h, root) && j < i <= n <= |tokens| && Descend(parse, h, root, tokens, n).error == None
    requires Child(Descend(parse, h, root, tokens, n).heap, Descend(parse, h, root, tokens, j).node, key) == Some(x)
    requires Descend(parse, h, root, tokens, j + 1).node != x
    ensures Descend(parse, h, root, tokens, i).node != x
  {
    hide Descend, Location, TreeShaped, Sound, Unlinked, Extends, Child;
    SoundTree(h, root);
    DescendKeeps(parse, h, root, tokens, n, root);
    EnteredAlongLocation(parse, h, root, tokens, i - 1, n);
    EnteredAlongLocation(parse, h, root, tokens, i, n);
    WalkSurvives(parse, h, root, tokens, i - 1, n);
    if Descend(parse, h, root, tokens, i).node == x {
      OneEdge(Descend(parse, h, root, tokens, n).heap, root, Descend(parse, h, root, tokens, j).node, key,
              Descend(parse, h, root, tokens, i - 1).node, Location(parse, h, root, tokens, n)[i - 1]);
      if j < i - 1 {
        EntersOnce(parse, h, root, tokens, j, i - 1);
      }
    }
  }

  lemma OneEdge(h: Heap, root: Ref, r: Ref, k: Key, s: Ref, l: Key)
    requires TreeShaped(h, root) && Child(h, r, k).Some? && Child(h, r, k) == Child(h, s, l)
    ensures r == s && k == l
  {
  }

  /** The items that a list on the way got beside the one that was entered are empty dictionaries. */
  lemma {:induction false} NewItemsStayEmpty(parse: IntParser, h: Heap, root: Ref, tokens: seq<string>, value: Ref,
                                             j: nat, k: nat)
    requires Ready(h, root, value) && j + 1 < |tokens| && Update(parse, h, root, tokens, value).error == None
    requires var c := Descend(parse, h, root, tokens, j); c.heap == h && c.node in h.cells && h.cells[c.node].List?
    requires var node, out := Descend(parse, h, root, tokens, j).node, Update(parse, h, root, tokens, value).heap;
             && node in out.cells && out.cells[node].List?
             && |h.cells[node].items| <= k < |out.cells[node].items|
             && out.cells[node].items[k] != Descend(parse, h, root, tokens, j + 1).node
    ensures var node, out := Descend(parse, h, root, tokens, j).node, Update(parse, h, root, tokens, value).heap;
            var x := out.cells[node].items[k];
            x !in h.cells && x in out.cells && out.cells[x] == Dict(map[])
  {
    hide StepInto, Update, TreeShaped, Sound, Unlinked, KeepsOtherEdges, Follow, Descend;
    var n, node := |tokens| - 1, Descend(parse, h, root, tokens, j).node;
    TreeOfReady(h, root, value);
    SoundTree(h, root);
    UpdateParts(parse, h, root, tokens, value);
    WalkSurvives(parse, h, root, tokens, j, n);
    WalkSurvives(parse, h, root, tokens, j + 1, n);
    RoundOfWalk(parse, h, root, tokens, j);
    StepIntoList(parse, h, node, tokens[j]);
    EnteredStays(parse, h, root, tokens, j, j + 1, n);
    EntersOnce(parse, h, root, tokens, j, n);
    DescendGrows(parse, h, root, tokens, j + 1, n);
    var g := Descend(parse, h, root, tokens, j + 1).heap;
    var x := g.cells[node].items[k];
    assert Child(g, node, At(k)) == Some(x);
    forall i | j < i <= n
      ensures Descend(parse, h, root, tokens, i).node != x
    {
      WalkPassesBy(parse, h, root, tokens, j, i, n, At(k), x);
    }
    DescendWritesOnPath(parse, h, root, tokens, j + 1, n, x);
  }

  lemma RoundOfWalk(parse: IntParser, h: Heap, root: Ref, tokens: seq<string>, j: nat)
    requires j < |tokens| && Descend(parse, h, root, tokens, j).error == None
    ensures var c := Descend(parse, h, root, tokens, j);
            Descend(parse, h, root, tokens, j + 1) == StepInto(parse, c.heap, c.node, tokens[j])
  {
  }
}
