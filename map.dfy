/**
 * The board (world/map.py): a sparse dictionary from coordinates to entities
 * on a fixed width x height board.
 *
 * A Python dictionary remembers insertion order, and the turn phases iterate
 * over a snapshot of it, so the order decides who acts first. The model keeps
 * the dictionary as `cells` plus its key order `order`: assigning to a present
 * key keeps its place, assigning to a new key appends it, popping a key
 * removes it from the order.
 */
module World {
  import opened Util
  import opened Enums
  import opened Coordinates
  import opened Entities

  predicate InBounds(c: Coord, width: int, height: int)
  {
    0 <= c.x < width && 0 <= c.y < height
  }

  /** The cell one step from `c` in direction `d`, if it lies on the board. */
  function NeighborIn(c: Coord, d: Direction, width: int, height: int): seq<Coord>
  {
    var n := Step(c, d);
    if InBounds(n, width, height) then [n] else []
  }

  /** The in-bounds cells one step from `c` along `ds`, in the order of `ds`. */
  function NeighborsAlong(c: Coord, ds: seq<Direction>, width: int, height: int): seq<Coord>
  {
    if ds == [] then []
    else NeighborsAlong(c, ds[..|ds| - 1], width, height) + NeighborIn(c, ds[|ds| - 1], width, height)
  }

  /** `get_neighbors_cells`: the in-bounds cells UP, DOWN, LEFT, RIGHT of `c`, in that order. */
  function Neighbors(c: Coord, width: int, height: int): seq<Coord>
  {
    NeighborsAlong(c, MovementDirections(), width, height)
  }

  lemma NeighborsUnfold(c: Coord, width: int, height: int)
    ensures Neighbors(c, width, height)
         == NeighborIn(c, Up, width, height) + NeighborIn(c, Down, width, height)
          + NeighborIn(c, Left, width, height) + NeighborIn(c, Right, width, height)
  {
    var d1, d2, d3, d4 := [Up], [Up, Down], [Up, Down, Left], MovementDirections();
    assert d1[..0] == [] && d2[..1] == d1 && d3[..2] == d2 && d4[..3] == d3;
    assert NeighborsAlong(c, d1, width, height) == NeighborIn(c, Up, width, height);
    assert NeighborsAlong(c, d2, width, height)
        == NeighborIn(c, Up, width, height) + NeighborIn(c, Down, width, height);
    assert NeighborsAlong(c, d3, width, height)
        == NeighborIn(c, Up, width, height) + NeighborIn(c, Down, width, height) + NeighborIn(c, Left, width, height);
  }

  /**
   * At most four neighbours, no duplicates, and exactly the in-bounds cells
   * at Manhattan distance 1.
   */
  lemma NeighborsAreAdjacentCells(c: Coord, width: int, height: int)
    ensures |Neighbors(c, width, height)| <= 4
    ensures Distinct(Neighbors(c, width, height))
    ensures forall v :: v in Neighbors(c, width, height) <==> InBounds(v, width, height) && Distance(c, v) == 1
  {
    NeighborsUnfold(c, width, height);
    var r := Neighbors(c, width, height);
    var up, down, left, right := Step(c, Up), Step(c, Down), Step(c, Left), Step(c, Right);
    assert forall v :: v in r <==> InBounds(v, width, height) && (v == up || v == down || v == left || v == right);
    forall v ensures Distance(c, v) == 1 <==> (v == up || v == down || v == left || v == right) {
      if Distance(c, v) == 1 {
        if v.x == c.x {
          assert v == up || v == down;
        } else {
          assert v.y == c.y;
          assert v == left || v == right;
        }
      }
    }
    forall i, j | 0 <= i < j < |r| ensures r[i] != r[j] {
      assert r[i] in r && r[j] in r;
    }
  }

  /** No cell of the width x height board is occupied. */
  ghost predicate Vacant(cells: map<Coord, Entity>, width: int, height: int)
  {
    forall c | InBounds(c, width, height) :: c !in cells
  }

  /** `c` is occupied by an entity of type `t`. */
  predicate HoldsType(cells: map<Coord, Entity>, c: Coord, t: EntityType)
  {
    c in cells && cells[c].Type() == t
  }

  /** The creatures on the board. */
  function CreaturesOf(cells: map<Coord, Entity>): set<Creature>
  {
    set c | c in cells && cells[c].Animal? :: cells[c].creature
  }

  /** Every key lies on the board. */
  predicate KeysInBounds(cells: map<Coord, Entity>, width: int, height: int)
  {
    forall c | c in cells :: InBounds(c, width, height)
  }

  /** Every entity is well formed. */
  predicate AllWellFormed(cells: map<Coord, Entity>)
  {
    forall c | c in cells :: cells[c].WellFormed()
  }

  /** No creature stands on two cells at once. */
  predicate Exclusive(cells: map<Coord, Entity>)
  {
    forall a, b | a in cells && b in cells && cells[a].Animal? && cells[b].Animal? ::
      cells[a].creature == cells[b].creature ==> a == b
  }

  /** The placement invariant every phase keeps. */
  predicate Sound(cells: map<Coord, Entity>, width: int, height: int)
  {
    KeysInBounds(cells, width, height) && AllWellFormed(cells) && Exclusive(cells)
  }

  /**
   * The cells after `move_entity(a, b)`: nothing happens when `a` is empty;
   * otherwise `b` holds the entity from `a`, `a` is empty unless `a == b`, any
   * occupant of `b` is lost, and every other cell is unchanged.
   */
  function MovedCells(cells: map<Coord, Entity>, a: Coord, b: Coord): (r: map<Coord, Entity>)
    ensures a !in cells ==> r == cells
    ensures a in cells ==> b in r && r[b] == cells[a] && (a != b ==> a !in r)
    ensures forall k | k != a && k != b :: (k in r <==> k in cells) && (k in r ==> r[k] == cells[k])
  {
    if a in cells then (cells - {a})[b := cells[a]] else cells
  }

  /** The key order after `move_entity(a, b)`: pop `a`, then `b` keeps its place or is appended. */
  function MovedOrder(order: seq<Coord>, cells: map<Coord, Entity>, a: Coord, b: Coord): seq<Coord>
  {
    if a !in cells then order
    else
      var popped := Without(order, a);
      if b in cells && b != a then popped else popped + [b]
  }

  /** A move to an in-bounds cell keeps the placement invariant and adds no creature. */
  lemma MovedCellsSound(cells: map<Coord, Entity>, a: Coord, b: Coord, width: int, height: int)
    requires Sound(cells, width, height) && InBounds(b, width, height)
    ensures Sound(MovedCells(cells, a, b), width, height)
    ensures CreaturesOf(MovedCells(cells, a, b)) <= CreaturesOf(cells)
  {
    var r := MovedCells(cells, a, b);
    if a in cells {
      forall x, y | x in r && y in r && r[x].Animal? && r[y].Animal? && r[x].creature == r[y].creature
        ensures x == y
      {
        var x0 := if x == b then a else x;
        var y0 := if y == b then a else y;
        assert r[x] == cells[x0] && r[y] == cells[y0];
      }
      forall e | e in CreaturesOf(r) ensures e in CreaturesOf(cells) {
        var k :| k in r && r[k].Animal? && r[k].creature == e;
        var k0 := if k == b then a else k;
        assert cells[k0] == r[k];
      }
    }
  }

  /** Popping a key keeps the placement invariant and adds no creature. */
  lemma RemovedCellsSound(cells: map<Coord, Entity>, c: Coord, width: int, height: int)
    requires Sound(cells, width, height)
    ensures Sound(cells - {c}, width, height)
    ensures CreaturesOf(cells - {c}) <= CreaturesOf(cells)
  {
    var r := cells - {c};
    forall e | e in CreaturesOf(r) ensures e in CreaturesOf(cells) {
      var k :| k in r && r[k].Animal? && r[k].creature == e;
      assert cells[k] == r[k];
    }
  }

  /**
   * The live board. `width` and `height` are fixed at creation; the source
   * reads them from its configuration.
   */
  class Grid {
    const width: nat
    const height: nat
    var cells: map<Coord, Entity>
    var order: seq<Coord>

    /** `order` lists every key of `cells` exactly once. */
    ghost predicate Valid()
      reads this
    {
      Distinct(order) && forall c :: c in cells <==> c in order
    }

    constructor (width: nat, height: nat)
      ensures Valid()
      ensures this.width == width && this.height == height
      ensures cells == map[] && order == []
    {
      this.width := width;
      this.height := height;
      cells := map[];
      order := [];
    }

    /** `add_entity`: no bounds or occupancy check; an occupant of `c` is replaced. */
    method AddEntity(c: Coord, e: Entity)
      requires Valid()
      modifies this
      ensures Valid()
      ensures cells == old(cells)[c := e]
      ensures order == if c in old(cells) then old(order) else old(order) + [c]
    {
      if c !in cells {
        DistinctSnoc(order, c);
        order := order + [c];
      }
      cells := cells[c := e];
    }

    /** `remove_entity`: `dict.pop(c, None)`. */
    method RemoveEntity(c: Coord) returns (removed: Option<Entity>)
      requires Valid()
      modifies this
      ensures Valid()
      ensures removed == if c in old(cells) then Some(old(cells)[c]) else None
      ensures cells == old(cells) - {c}
      ensures order == Without(old(order), c)
    {
      removed := if c in cells then Some(cells[c]) else None;
      cells := cells - {c};
      order := Without(order, c);
    }

    /** `get_entity`: the entity at `c`, or none for an empty cell. */
    function GetEntity(c: Coord): (r: Option<Entity>)
      reads this
      ensures r.None? <==> c !in cells
      ensures r.Some? ==> r.value == cells[c]
    {
      if c in cells then Some(cells[c]) else None
    }

    /** `get_coords_by_type`: exactly the cells holding type `t`, each once, in dictionary order. */
    function CoordsByType(t: EntityType): (r: seq<Coord>)
      reads this
      requires Valid()
      ensures forall c :: c in r <==> HoldsType(cells, c, t)
      ensures Distinct(r)
    {
      CoordsOfType(order, cells, t)
    }

    /** `get_entity_by_type`: the entities at the coordinates of that type, in the same order. */
    function EntitiesByType(t: EntityType): (r: seq<Entity>)
      reads this
      requires Valid()
      ensures |r| == |CoordsByType(t)|
      ensures forall i | 0 <= i < |r| :: r[i] == cells[CoordsByType(t)[i]] && r[i].Type() == t
    {
      ValuesMatchCoords(order, cells, t);
      ValuesOfType(order, cells, t)
    }

    /** `get_all_entities_with_coords().items()`: one (coordinate, entity) pair per key, in dictionary order. */
    function Items(): (r: seq<(Coord, Entity)>)
      reads this
      requires Valid()
      ensures |r| == |order|
      ensures forall i | 0 <= i < |r| :: r[i] == (order[i], cells[order[i]])
    {
      Entries(order, cells)
    }

    /**
     * `get_creatures_count`: the numbers of herbivores and of predators,
     * each positive exactly when some cell holds that type.
     */
    function CreaturesCount(): (r: (nat, nat))
      reads this
      requires Valid()
      ensures r.0 == |CoordsByType(Herbivore)| && r.1 == |CoordsByType(Predator)|
      ensures r.0 > 0 <==> exists c | c in cells :: HoldsType(cells, c, Herbivore)
      ensures r.1 > 0 <==> exists c | c in cells :: HoldsType(cells, c, Predator)
    {
      NonEmptyIffHeld(CoordsByType(Herbivore), cells, Herbivore);
      NonEmptyIffHeld(CoordsByType(Predator), cells, Predator);
      (|EntitiesByType(Herbivore)|, |EntitiesByType(Predator)|)
    }

    /** The creatures on the board. */
    function Creatures(): set<Creature>
      reads this
    {
      CreaturesOf(cells)
    }

    /** `is_valid_coord`: the point lies on the board. */
    predicate IsValidCoord(x: int, y: int): (b: bool)
      ensures b <==> InBounds(Coord(x, y), width, height)
    {
      0 <= x < width && 0 <= y < height
    }

    /** `is_cell_empty`: no entity at (x, y). */
    predicate IsCellEmpty(x: int, y: int): (b: bool)
      reads this
      ensures b <==> Coord(x, y) !in cells
    {
      GetEntity(Coord(x, y)).None?
    }

    /**
     * `find_random_empty_cell`: up to width * height uniformly drawn cells;
     * the first empty one is returned, and `None` stands for the
     * RuntimeError raised when every draw hit an occupied cell. The draws
     * are any choice of in-bounds cells.
     */
    method FindRandomEmptyCell() returns (found: Option<Coord>)
      ensures found.Some? ==> InBounds(found.value, width, height) && found.value !in cells
      ensures (forall c | InBounds(c, width, height) :: c in cells) ==> found.None?
      ensures width > 0 && height > 0 && Vacant(cells, width, height) ==> found.Some?
    {
      var attempts := 0;
      var maxAttempts := width * height;
      while attempts < maxAttempts
        invariant Vacant(cells, width, height) ==> attempts == 0
        decreases maxAttempts - attempts
      {
        assert width > 0 && height > 0;
        var x :| 0 <= x < width;
        var y :| 0 <= y < height;
        if IsCellEmpty(x, y) {
          return Some(Coord(x, y));
        }
        attempts := attempts + 1;
      }
      return None;
    }

    /**
     * `move_entity(a, b)`: false when `a` is empty; otherwise the entity of
     * `a` is put at `b`, overwriting whatever was there.
     */
    method MoveEntity(a: Coord, b: Coord) returns (moved: bool)
      requires Valid()
      modifies this
      ensures Valid()
      ensures moved == (a in old(cells))
      ensures cells == MovedCells(old(cells), a, b)
      ensures order == MovedOrder(old(order), old(cells), a, b)
    {
      var entityToMove := RemoveEntity(a);
      if entityToMove.None? {
        return false;
      }
      AddEntity(b, entityToMove.value);
      return true;
    }

    /** `get_neighbors_cells`: a loop over the four directions. */
    method GetNeighborsCells(c: Coord) returns (neighbors: seq<Coord>)
      ensures neighbors == Neighbors(c, width, height)
    {
      neighbors := [];
      var directions := MovementDirections();
      for i := 0 to |directions|
        invariant neighbors == NeighborsAlong(c, directions[..i], width, height)
      {
        var n := Step(c, directions[i]);
        if IsValidCoord(n.x, n.y) {
          neighbors := neighbors + [n];
        }
        assert directions[..i + 1][..i] == directions[..i];
      }
      assert directions[..|directions|] == directions;
    }
  }

  /** The keys of `ks` whose entity has type `t`, in the order of `ks`. */
  function CoordsOfType(ks: seq<Coord>, cells: map<Coord, Entity>, t: EntityType): (r: seq<Coord>)
    requires forall k | k in ks :: k in cells
    ensures forall c :: c in r <==> c in ks && cells[c].Type() == t
    ensures Distinct(ks) ==> Distinct(r)
  {
    if ks == [] then []
    else
      assert forall c :: c in ks <==> c == ks[0] || c in ks[1..];
      assert ks == [ks[0]] + ks[1..];
      DistinctCons(ks[0], ks[1..]);
      var rest := CoordsOfType(ks[1..], cells, t);
      DistinctCons(ks[0], rest);
      if cells[ks[0]].Type() == t then [ks[0]] + rest else rest
  }

  /** The entities of the keys `ks` that have type `t`, in the order of `ks`. */
  function ValuesOfType(ks: seq<Coord>, cells: map<Coord, Entity>, t: EntityType): seq<Entity>
    requires forall k | k in ks :: k in cells
  {
    if ks == [] then []
    else
      var rest := ValuesOfType(ks[1..], cells, t);
      if cells[ks[0]].Type() == t then [cells[ks[0]]] + rest else rest
  }

  /** A list holding exactly the cells of type `t` is non-empty exactly when some cell holds `t`. */
  lemma NonEmptyIffHeld(r: seq<Coord>, cells: map<Coord, Entity>, t: EntityType)
    requires forall c :: c in r <==> HoldsType(cells, c, t)
    ensures |r| > 0 <==> exists c | c in cells :: HoldsType(cells, c, t)
  {
    if |r| > 0 {
      assert HoldsType(cells, r[0], t);
    }
  }

  /** The (key, entity) pairs of the keys `ks`, in the order of `ks`. */
  function Entries(ks: seq<Coord>, cells: map<Coord, Entity>): (r: seq<(Coord, Entity)>)
    requires forall k | k in ks :: k in cells
    ensures |r| == |ks|
    ensures forall i | 0 <= i < |ks| :: r[i] == (ks[i], cells[ks[i]])
  {
    if ks == [] then [] else [(ks[0], cells[ks[0]])] + Entries(ks[1..], cells)
  }

  /** The entities at the keys `cs`, in the order of `cs`. */
  function Lookup(cs: seq<Coord>, cells: map<Coord, Entity>): (r: seq<Entity>)
    requires forall k | k in cs :: k in cells
    ensures |r| == |cs|
    ensures forall i | 0 <= i < |cs| :: r[i] == cells[cs[i]]
  {
    if cs == [] then [] else [cells[cs[0]]] + Lookup(cs[1..], cells)
  }

  /**
   * The entity list of a type is the entities at the coordinate list of that
   * type: as long as it, and entry by entry the entity at that coordinate.
   */
  lemma {:induction false} ValuesMatchCoords(ks: seq<Coord>, cells: map<Coord, Entity>, t: EntityType)
    requires forall k | k in ks :: k in cells
    ensures ValuesOfType(ks, cells, t) == Lookup(CoordsOfType(ks, cells, t), cells)
    ensures |ValuesOfType(ks, cells, t)| == |CoordsOfType(ks, cells, t)|
    ensures forall i | 0 <= i < |ValuesOfType(ks, cells, t)| ::
      ValuesOfType(ks, cells, t)[i] == cells[CoordsOfType(ks, cells, t)[i]]
  {
    if ks != [] {
      var tail := ks[1..];
      assert forall k | k in tail :: k in cells;
      ValuesMatchCoords(tail, cells, t);
      var cs := CoordsOfType(tail, cells, t);
      if cells[ks[0]].Type() == t {
        assert ([ks[0]] + cs)[1..] == cs;
      }
    }
  }
}
