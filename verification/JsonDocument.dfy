/**
 In-place update of a JSON or YAML document through a pointer. The document is a
 heap of cells, so that dictionaries and lists are objects with identity that the
 update mutates while it walks down; `parse` is Python's `int` on a token.
 */
module JsonDocument {
  import opened Seqs
  import opened JsonPointer

  type Ref = nat

  datatype Cell = Dict(fields: map<string, Ref>) | List(items: seq<Ref>) | Null | Scalar(text: string)

  datatype Heap = Heap(cells: map<Ref, Cell>, next: Ref)

  /** One step from a container to a child: a dictionary key or a list position. */
  datatype Key = Field(name: string) | At(index: nat)

  datatype Error = TypeError | ValueError | IndexError

  type IntParser = string -> Option<int>

  function Child(h: Heap, r: Ref, k: Key): Option<Ref> {
    if r !in h.cells then None
    else
      match h.cells[r]
      case Dict(fields) => if k.Field? && k.name in fields then Some(fields[k.name]) else None
      case List(items) => if k.At? && k.index < |items| then Some(items[k.index]) else None
      case _ => None
  }

  /** The cell that the first `n` keys of a path lead to. */
  function Follow(h: Heap, r: Ref, path: seq<Key>, n: nat): Option<Ref>
    requires n <= |path|
  {
    if n == 0 then Some(r)
    else
      var parent := Follow(h, r, path, n - 1);
      if parent == None then None else Child(h, parent.value, path[n - 1])
  }

  /** Children exist, and the allocator is ahead of every cell. */
  ghost predicate Sound(h: Heap) {
    && (forall r :: r in h.cells ==> r < h.next)
    && forall r, k :: Child(h, r, k).Some? ==> Child(h, r, k).value in h.cells
  }

  /** No edge of the heap leads to `x`. */
  ghost predicate Unlinked(h: Heap, x: Ref) {
    forall r, k :: Child(h, r, k) != Some(x)
  }

  /** No cell is shared: at most one edge leads to each, and none to the root. */
  ghost predicate TreeShaped(h: Heap, root: Ref) {
    && Sound(h) && root in h.cells && Unlinked(h, root)
    && forall r, k, s, l :: Child(h, r, k).Some? && Child(h, r, k) == Child(h, s, l) ==> r == s && k == l
  }

  // ---------------------------------------------------------------------------
  // The update
  // ---------------------------------------------------------------------------

  datatype Slot = Position(index: nat) | Bad(error: Error)

  /** Where Python's list indexing takes a token in a list of `length` items, growing it if asked beyond. */
  function SlotFor(parse: IntParser, token: string, length: nat): Slot {
    match parse(token)
    case None => Bad(ValueError)
    case Some(i) =>
      if i >= 0 then Position(i) else if length + i >= 0 then Position(length + i) else Bad(IndexError)
  }

  /** Appends `k` new cells to the list `node`. */
  function Grow(h: Heap, node: Ref, k: nat, filler: Cell): (g: Heap)
    requires node in h.cells && h.cells[node].List?
    ensures node in g.cells && g.cells[node].List?
  {
    if k == 0 then h
    else
      var g := Grow(h, node, k - 1, filler);
      Heap(g.cells[g.next := filler][node := List(g.cells[node].items + [g.next])], g.next + 1)
  }

  lemma {:induction false} GrowLength(h: Heap, node: Ref, k: nat, filler: Cell)
    requires node in h.cells && h.cells[node].List?
    ensures |Grow(h, node, k, filler).cells[node].items| == |h.cells[node].items| + k
  {
    if k > 0 {
      GrowLength(h, node, k - 1, filler);
    }
  }

  function Missing(length: nat, index: nat): nat {
    if index < length then 0 else index + 1 - length
  }

  datatype Cursor = Cursor(heap: Heap, node: Ref, error: Option<Error>)

  /** One round of the loop over all tokens but the last. */
  function StepInto(parse: IntParser, h: Heap, node: Ref, token: string): Cursor {
    if node !in h.cells then Cursor(h, node, Some(TypeError))
    else
      match h.cells[node]
      case Dict(fields) =>
        if token in fields then Cursor(h, fields[token], None)
        else
          var cells := h.cells[h.next := Dict(map[])][node := Dict(fields[token := h.next])];
          Cursor(Heap(cells, h.next + 1), h.next, None)
      case List(items) =>
        (match SlotFor(parse, token, |items|)
         case Bad(e) => Cursor(h, node, Some(e))
         case Position(i) =>
           GrowLength(h, node, Missing(|items|, i), Dict(map[]));
           var g := Grow(h, node, Missing(|items|, i), Dict(map[]));
           Cursor(g, g.cells[node].items[i], None))
      case _ => Cursor(h, node, Some(TypeError))
  }

  /** The cursor after the first `n` tokens. */
  function Descend(parse: IntParser, h: Heap, root: Ref, tokens: seq<string>, n: nat): Cursor
    requires n <= |tokens|
  {
    if n == 0 then Cursor(h, root, None)
    else
      var c := Descend(parse, h, root, tokens, n - 1);
      if c.error.Some? then c else StepInto(parse, c.heap, c.node, tokens[n - 1])
  }

  /** The final assignment. */
  function Store(parse: IntParser, h: Heap, node: Ref, leaf: string, value: Ref): Cursor {
    if node !in h.cells then Cursor(h, node, Some(TypeError))
    else
      match h.cells[node]
      case Dict(fields) => Cursor(h.(cells := h.cells[node := Dict(fields[leaf := value])]), node, None)
      case List(items) =>
        (match SlotFor(parse, leaf, |items|)
         case Bad(e) => Cursor(h, node, Some(e))
         case Position(i) =>
           GrowLength(h, node, Missing(|items|, i), Null);
           var g := Grow(h, node, Missing(|items|, i), Null);
           Cursor(g.(cells := g.cells[node := List(g.cells[node].items[i := value])]), node, None))
      case _ => Cursor(h, node, Some(TypeError))
  }

  function Update(parse: IntParser, h: Heap, root: Ref, tokens: seq<string>, value: Ref): Cursor
    requires tokens != []
  {
    var c := Descend(parse, h, root, tokens, |tokens| - 1);
    if c.error.Some? then c else Store(parse, c.heap, c.node, tokens[|tokens| - 1], value)
  }

  /** A document in memory: its cells are mutated in place. */
  class Document {
    var cells: map<Ref, Cell>
    var next: Ref
    const root: Ref

    ghost function Memory(): Heap
      reads this
    {
      Heap(cells, next)
    }

    constructor (root: Ref, h: Heap)
      ensures this.root == root && Memory() == h
    {
      this.root, cells, next := root, h.cells, h.next;
    }

    /** The padding loop. */
    method Pad(node: Ref, k: nat, filler: Cell)
      requires node in cells && cells[node].List?
      modifies this
      ensures Memory() == Grow(old(Memory()), node, k, filler)
    {
      for i := 0 to k
        invariant Memory() == Grow(old(Memory()), node, i, filler)
      {
        cells := cells[next := filler][node := List(cells[node].items + [next])];
        next := next + 1;
      }
    }

    method Enter(parse: IntParser, node: Ref, token: string) returns (child: Ref, error: Option<Error>)
      modifies this
      ensures Cursor(Memory(), child, error) == StepInto(parse, old(Memory()), node, token)
    {
      child := node;
      if node !in cells {
        return node, Some(TypeError);
      }
      match cells[node] {
        case Dict(fields) =>
          if token !in fields {
            child := next;
            cells := cells[child := Dict(map[])];
            cells := cells[node := Dict(fields[token := child])];
            next := next + 1;
            return child, None;
          }
          return fields[token], None;
        case List(items) =>
          var slot := SlotFor(parse, token, |items|);
          if slot.Bad? {
            return node, Some(slot.error);
          }
          GrowLength(Memory(), node, Missing(|items|, slot.index), Dict(map[]));
          Pad(node, Missing(|items|, slot.index), Dict(map[]));
          return cells[node].items[slot.index], None;
        case _ =>
          return node, Some(TypeError);
      }
    }

    method Assign(parse: IntParser, node: Ref, leaf: string, value: Ref) returns (error: Option<Error>)
      modifies this
      ensures Cursor(Memory(), node, error) == Store(parse, old(Memory()), node, leaf, value)
    {
      if node !in cells {
        return Some(TypeError);
      }
      match cells[node] {
        case Dict(fields) =>
          cells := cells[node := Dict(fields[leaf := value])];
          return None;
        case List(items) =>
          var slot := SlotFor(parse, leaf, |items|);
          if slot.Bad? {
            return Some(slot.error);
          }
          GrowLength(Memory(), node, Missing(|items|, slot.index), Null);
          Pad(node, Missing(|items|, slot.index), Null);
          cells := cells[node := List(cells[node].items[slot.index := value])];
          return None;
        case _ =>
          return Some(TypeError);
      }
    }

    /** Sets the value at a pointer; an empty pointer makes the value the document. */
    method SetPointer(parse: IntParser, pointer: string, value: Ref) returns (document: Ref, error: Option<Error>)
      modifies this
      ensures SplitPointer(pointer) == [] ==> document == value && error == None && Memory() == old(Memory())
      ensures SplitPointer(pointer) != [] ==>
                var c := Update(parse, old(Memory()), root, SplitPointer(pointer), value);
                document == root && error == c.error && Memory() == c.heap
    {
      hide StepInto, Store, SplitPointer;
      var parts := SplitPointer(pointer);
      if parts == [] {
        return value, None;
      }
      var node := root;
      for i := 0 to |parts| - 1
        invariant Cursor(Memory(), node, None) == Descend(parse, old(Memory()), root, parts, i)
      {
        var child, failure := Enter(parse, node, parts[i]);
        if failure.Some? {
          DescendStopsAt(parse, old(Memory()), root, parts, i + 1, |parts| - 1);
          return root, failure;
        }
        node := child;
      }
      error := Assign(parse, node, parts[|parts| - 1], value);
      document := root;
    }
  }

  /** After an error the walk does nothing more. */
  lemma {:induction false} DescendStopsAt(parse: IntParser, h: Heap, root: Ref, tokens: seq<string>, m: nat, n: nat)
    requires m <= n <= |tokens| && Descend(parse, h, root, tokens, m).error.Some?
    ensures Descend(parse, h, root, tokens, n) == Descend(parse, h, root, tokens, m)
    decreases n
  {
    if m < n {
      DescendStopsAt(parse, h, root, tokens, m, n - 1);
    }
  }
}
