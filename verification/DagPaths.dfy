/** The paths that a run gives to the cells it visits, and when two cells can come to have the same one. */
module DagPaths {
  import opened Bytes
  import opened Dag

  /** Where a visit starts: at a row of the result, a cell of a row, or the row or predicate of a decision. */
  datatype Root = RowRoot(row: nat) | CellRoot(row: nat, field: bytes) | ExclusionRoot(decision: nat) | DeciderRoot(decision: nat)

  /** What a path is the hash of: a root, or the path above with an input's index. */
  datatype Place = RootPlace(root: Root) | ChildPlace(above: bytes, index: nat)

  /** The hashes of one query at one revision: the paths of roots and children, and a node's identity. */
  datatype Namer = Namer(root: Root -> bytes, child: (bytes, nat) -> bytes, id: (bytes, bytes, bytes, seq<bytes>) -> bytes)

  function PathOf(namer: Namer, place: Place): bytes {
    match place
    case RootPlace(root) => namer.root(root)
    case ChildPlace(above, index) => namer.child(above, index)
  }

  /** Two of these places have the same path. */
  ghost predicate Collide(namer: Namer, places: set<Place>) {
    exists a, b :: a in places && b in places && a != b && PathOf(namer, a) == PathOf(namer, b)
  }

  /** This place is the input of a cell at a place with the path above. */
  ghost predicate Under(heap: Heap, namer: Namer, cells: map<Place, nat>, place: Place, above: Place) {
    && place in cells && place.ChildPlace? && above in cells && PathOf(namer, above) == place.above && cells[above] in heap
    && place.index < |heap[cells[above]].inputs| && heap[cells[above]].inputs[place.index] == cells[place]
  }

  /** The cell at each place, reached from its root through inputs. */
  ghost predicate Grown(heap: Heap, namer: Namer, cells: map<Place, nat>) {
    forall place :: place in cells && place.ChildPlace? ==> exists above :: Under(heap, namer, cells, place, above)
  }

  /** Some place with this path is of this cell. */
  ghost predicate PathIs(namer: Namer, cells: map<Place, nat>, path: bytes, key: nat) {
    exists place :: place in cells && PathOf(namer, place) == path && cells[place] == key
  }

  predicate Extends(cells: map<Place, nat>, more: map<Place, nat>) {
    forall place :: place in cells ==> place in more && more[place] == cells[place]
  }

  lemma PathStays(namer: Namer, cells: map<Place, nat>, more: map<Place, nat>, path: bytes, key: nat)
    requires Extends(cells, more) && PathIs(namer, cells, path, key)
    ensures PathIs(namer, more, path, key)
  {
    var place :| place in cells && PathOf(namer, place) == path && cells[place] == key;
    assert place in more;
  }

  lemma CollisionStays(namer: Namer, cells: map<Place, nat>, more: map<Place, nat>)
    requires Extends(cells, more) && Collide(namer, cells.Keys)
    ensures Collide(namer, more.Keys)
  {
    var a, b :| a in cells && b in cells && a != b && PathOf(namer, a) == PathOf(namer, b);
    assert a in more && b in more;
  }

  /** Without a collision a path is of one cell. */
  lemma OnePath(namer: Namer, cells: map<Place, nat>, path: bytes, key: nat, other: nat)
    requires PathIs(namer, cells, path, key) && PathIs(namer, cells, path, other) && !Collide(namer, cells.Keys)
    ensures key == other
  {
    var a :| a in cells && PathOf(namer, a) == path && cells[a] == key;
    var b :| b in cells && PathOf(namer, b) == path && cells[b] == other;
    assert a == b;
  }

  /** A visit starts at a new root. */
  lemma GrowRoot(heap: Heap, namer: Namer, cells: map<Place, nat>, root: Root, key: nat)
    requires RootPlace(root) !in cells
    ensures var more := cells[RootPlace(root) := key];
            && Extends(cells, more) && PathIs(namer, more, namer.root(root), key)
            && (Grown(heap, namer, cells) ==> Grown(heap, namer, more))
  {
    var more := cells[RootPlace(root) := key];
    assert RootPlace(root) in more && PathOf(namer, RootPlace(root)) == namer.root(root);
    if Grown(heap, namer, cells) {
      UnderStays(heap, namer, cells, more);
    }
  }

  lemma UnderStays(heap: Heap, namer: Namer, cells: map<Place, nat>, more: map<Place, nat>)
    requires Extends(cells, more) && Grown(heap, namer, cells)
    ensures forall place :: place in cells && place.ChildPlace? ==> exists above :: Under(heap, namer, more, place, above)
  {
    forall place | place in cells && place.ChildPlace? ensures exists above :: Under(heap, namer, more, place, above) {
      var above :| Under(heap, namer, cells, place, above);
      assert Under(heap, namer, more, place, above);
    }
  }

  function WithChild(cells: map<Place, nat>, path: bytes, index: nat, input: nat): map<Place, nat> {
    if ChildPlace(path, index) in cells then cells else cells[ChildPlace(path, index) := input]
  }

  /** Going down to an input: its place is new, or was of the same input before, unless paths collide. */
  lemma GrowChild(heap: Heap, namer: Namer, cells: map<Place, nat>, path: bytes, key: nat, index: nat)
    requires Grown(heap, namer, cells) && PathIs(namer, cells, path, key) && !Collide(namer, cells.Keys)
    requires key in heap && index < |heap[key].inputs|
    ensures var (input, more) := (heap[key].inputs[index], WithChild(cells, path, index, heap[key].inputs[index]));
            Grown(heap, namer, more) && PathIs(namer, more, namer.child(path, index), input)
  {
    var input := heap[key].inputs[index];
    var place := ChildPlace(path, index);
    var more := WithChild(cells, path, index, input);
    var at :| at in cells && PathOf(namer, at) == path && cells[at] == key;
    if place in cells {
      var above :| Under(heap, namer, cells, place, above);
      assert above == at;
    } else {
      assert Extends(cells, more);
      UnderStays(heap, namer, cells, more);
      assert Under(heap, namer, more, place, at);
    }
    assert place in more && PathOf(namer, place) == namer.child(path, index) && more[place] == input;
  }

  lemma WithChildExtends(cells: map<Place, nat>, path: bytes, index: nat, input: nat)
    ensures var more := WithChild(cells, path, index, input);
            Extends(cells, more) && forall root :: RootPlace(root) in more ==> RootPlace(root) in cells
  {}

  /** No two places have the same path, and no two paths give the same identity. */
  ghost predicate Injective(namer: Namer) {
    && (forall a, b :: PathOf(namer, a) == PathOf(namer, b) ==> a == b)
    && (forall p, q, op, oq, r, s, x, y :: namer.id(p, op, r, x) == namer.id(q, oq, s, y) ==> p == q)
  }
}
