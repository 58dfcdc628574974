/**
 * The population phase (actions/init/populate_map.py): the types are placed
 * one after another, each up to its count, every entity onto a cell that
 * `find_random_empty_cell` reports empty. The grass, rock and tree counts
 * come from a percentage computation on the board size in the source; here
 * they are parameters.
 */
module PopulateMap {
  import opened Util
  import opened Enums
  import opened Coordinates
  import opened World
  import opened Entities
  import Config
  import EntityFactory

  /** `entities_to_place`: grass, rock, tree, then the configured herbivores and predators. */
  function EntitiesToPlace(grassCount: int, rockCount: int, treeCount: int): (r: seq<(EntityType, int)>)
    ensures |r| == 5
    ensures r[0].0 == Grass && r[1].0 == Rock && r[2].0 == Tree && r[3].0 == Herbivore && r[4].0 == Predator
  {
    [(Grass, grassCount), (Rock, rockCount), (Tree, treeCount),
     (Herbivore, Config.InitialHerbivores), (Predator, Config.InitialPredators)]
  }

  /** The sequences of `ss` one after another. */
  function Concat(ss: seq<seq<Coord>>): seq<Coord>
  {
    if ss == [] then [] else Concat(ss[..|ss| - 1]) + ss[|ss| - 1]
  }

  lemma ConcatSnoc(ss: seq<seq<Coord>>, s: seq<Coord>)
    ensures Concat(ss + [s]) == Concat(ss) + s
  {
    assert (ss + [s])[..|ss + [s]| - 1] == ss;
  }

  /** Putting a well-formed entity that no other cell shares onto an empty in-bounds cell keeps the placement invariant. */
  lemma AddedCellSound(cells: map<Coord, Entity>, c: Coord, e: Entity, width: int, height: int)
    requires Sound(cells, width, height)
    requires InBounds(c, width, height) && c !in cells && e.WellFormed()
    requires e.Animal? ==> e.creature !in CreaturesOf(cells)
    ensures Sound(cells[c := e], width, height)
  {
    assert forall k | k in cells && cells[k].Animal? :: cells[k].creature in CreaturesOf(cells);
  }

  /** Every cell of the board is occupied. */
  ghost predicate Full(cells: map<Coord, Entity>, width: int, height: int)
  {
    forall c | InBounds(c, width, height) :: c in cells
  }

  /**
   * `_place_entities(t, count)`: up to `count` new entities of type `t`, each
   * on a cell reported empty; the first failed search ends the placement.
   * `placed` is the number placed and `added` their cells in order; every
   * earlier entity stays where it was. `failed` tells whether a search
   * failed: without a failure all `count` entities are placed, and a failure
   * happens on a board that is not empty. On a full board nothing is placed,
   * and on an empty board of positive size at least one entity is.
   */
  method PlaceEntities(grid: Grid, t: EntityType, count: int) returns (placed: nat, ghost added: seq<Coord>, ghost failed: bool)
    requires grid.Valid() && Sound(grid.cells, grid.width, grid.height)
    modifies grid
    ensures grid.Valid() && Sound(grid.cells, grid.width, grid.height)
    ensures placed == |added| && (count <= 0 ==> placed == 0) && (count > 0 ==> placed <= count)
    ensures !failed ==> placed == Max0(count)
    ensures failed ==> placed < count && !(grid.width > 0 && grid.height > 0 && Vacant(grid.cells, grid.width, grid.height))
    ensures grid.order == old(grid.order) + added
    ensures forall k :: k in grid.cells <==> k in old(grid.cells) || k in added
    ensures forall k | k in old(grid.cells) :: grid.cells[k] == old(grid.cells)[k]
    ensures forall k | k in added ::
      (k !in old(grid.cells) && InBounds(k, grid.width, grid.height) && grid.cells[k].Type() == t)
    ensures Full(old(grid.cells), grid.width, grid.height) ==> placed == 0
    ensures count > 0 && grid.width > 0 && grid.height > 0 && Vacant(old(grid.cells), grid.width, grid.height) ==> placed > 0
    ensures forall c | c in grid.Creatures() :: c in old(grid.Creatures()) || fresh(c)
  {
    ghost var cells0 := grid.cells;
    ghost var order0 := grid.order;
    placed, added, failed := 0, [], false;
    while placed < count
      invariant grid.Valid() && Sound(grid.cells, grid.width, grid.height)
      invariant placed == |added| && (count <= 0 ==> placed == 0) && (count > 0 ==> placed <= count)
      invariant !failed
      invariant grid.order == order0 + added
      invariant forall k :: k in grid.cells <==> k in cells0 || k in added
      invariant forall k | k in cells0 :: grid.cells[k] == cells0[k]
      invariant forall k | k in added ::
        (k !in cells0 && InBounds(k, grid.width, grid.height) && grid.cells[k].Type() == t)
      invariant placed == 0 ==> grid.cells == cells0
      invariant Full(cells0, grid.width, grid.height) ==> placed == 0
      invariant forall c | c in grid.Creatures() :: c in CreaturesOf(cells0) || fresh(c)
      decreases count - placed
    {
      var coord := PlaceOne(grid, t);
      if coord.None? {
        failed := true;
        break;
      }
      placed, added := placed + 1, added + [coord.value];
    }
  }

  /**
   * One round of `_place_entities`: an empty cell is searched for, and on
   * success a new entity of type `t` from the factory is put there. On a
   * full board the search fails and nothing changes; on an empty board of
   * positive size it succeeds.
   */
  method PlaceOne(grid: Grid, t: EntityType) returns (coord: Option<Coord>)
    requires grid.Valid() && Sound(grid.cells, grid.width, grid.height)
    modifies grid
    ensures grid.Valid() && Sound(grid.cells, grid.width, grid.height)
    ensures coord.None? ==> grid.cells == old(grid.cells) && grid.order == old(grid.order)
    ensures Full(old(grid.cells), grid.width, grid.height) ==> coord.None?
    ensures grid.width > 0 && grid.height > 0 && Vacant(old(grid.cells), grid.width, grid.height) ==> coord.Some?
    ensures coord.Some? ==>
      coord.value !in old(grid.cells) && InBounds(coord.value, grid.width, grid.height) &&
      coord.value in grid.cells && grid.cells[coord.value].Type() == t &&
      grid.cells == old(grid.cells)[coord.value := grid.cells[coord.value]] &&
      grid.order == old(grid.order) + [coord.value]
    ensures forall c | c in grid.Creatures() :: c in old(grid.Creatures()) || fresh(c)
  {
    coord := grid.FindRandomEmptyCell();
    if coord.None? {
      return;
    }
    EntityFactory.RegistryCoversAllTypes();
    var entity := EntityFactory.CreateEntity(t);
    AddedCellSound(grid.cells, coord.value, entity.value, grid.width, grid.height);
    grid.AddEntity(coord.value, entity.value);
  }

  /**
   * The cells `added[j]` placed for the `j`th entry of `list` are at most
   * its count, and each holds an entity of its type in `cells`.
   */
  ghost predicate PlacedAsListed(cells: map<Coord, Entity>, added: seq<seq<Coord>>, list: seq<(EntityType, int)>)
  {
    |added| == |list| &&
    (forall j | 0 <= j < |list| :: |added[j]| <= Max0(list[j].1)) &&
    (forall j, k | 0 <= j < |list| && k in added[j] :: k in cells && cells[k].Type() == list[j].0)
  }

  /** One more placement keeps the record: earlier cells keep their entities, and the new cells are as listed. */
  lemma PlacedStep(added: seq<seq<Coord>>, cells: seq<Coord>, list: seq<(EntityType, int)>,
                   before: map<Coord, Entity>, after: map<Coord, Entity>)
    requires |added| < |list| && PlacedAsListed(before, added, list[..|added|])
    requires forall k | k in before :: k in after && after[k] == before[k]
    requires |cells| <= Max0(list[|added|].1)
    requires forall k | k in cells :: k in after && after[k].Type() == list[|added|].0
    ensures PlacedAsListed(after, added + [cells], list[..|added| + 1])
  {
    var next := added + [cells];
    var n := |added|;
    var l0, l1 := list[..n], list[..n + 1];
    forall j | 0 <= j < n + 1 ensures |next[j]| <= Max0(l1[j].1) {
      if j < n {
        assert next[j] == added[j] && l1[j] == l0[j];
      }
    }
    forall j, k | 0 <= j < n + 1 && k in next[j] ensures k in after && after[k].Type() == l1[j].0 {
      if j < n {
        assert next[j] == added[j] && l1[j] == l0[j];
        assert k in before;
      }
    }
  }

  /** Without a failed search, the `j`th placement placed its whole count. */
  ghost predicate PlacedFully(added: seq<seq<Coord>>, failed: seq<bool>, list: seq<(EntityType, int)>)
  {
    |added| == |list| && |failed| == |list| &&
    forall j | 0 <= j < |list| :: !failed[j] ==> |added[j]| == Max0(list[j].1)
  }

  /**
   * What the population phase did to the board `cells0`/`order0`: the
   * cells `added[i]` placed for entry `i` of `EntitiesToPlace(..)` are
   * appended to the key order entry by entry, each entry places at most its
   * count and its whole count unless a search failed (`failed[i]`), a
   * search fails only as `FailedOnOccupied` allows, every earlier entity
   * stays where it was, and no other cell is touched.
   */
  ghost predicate Populated(cells0: map<Coord, Entity>, order0: seq<Coord>, cells1: map<Coord, Entity>, order1: seq<Coord>,
                            added: seq<seq<Coord>>, failed: seq<bool>, grassCount: int, rockCount: int, treeCount: int,
                            width: int, height: int)
  {
    |added| == 5 &&
    PopulatedBy(cells0, order0, cells1, order1, added, failed, EntitiesToPlace(grassCount, rockCount, treeCount),
                width, height)
  }

  /** `Populated` after the placements of the entries of `list`. */
  ghost predicate PopulatedBy(cells0: map<Coord, Entity>, order0: seq<Coord>, cells1: map<Coord, Entity>, order1: seq<Coord>,
                              added: seq<seq<Coord>>, failed: seq<bool>, list: seq<(EntityType, int)>,
                              width: int, height: int)
  {
    FailedOnOccupied(cells0, added, failed, list, width, height) &&
    order1 == order0 + Concat(added) &&
    PlacedAsListed(cells1, added, list) &&
    PlacedFully(added, failed, list) &&
    (forall k | k in cells0 :: k in cells1 && cells1[k] == cells0[k]) &&
    (forall k | k in cells1 :: k in cells0 || k in Concat(added))
  }

  /**
   * The `j`th placement's search fails (`failed[j]`) only short of its count
   * and on a board that was not empty when it searched: the board held an
   * entity from before the phase, or one placed by this placement or an
   * earlier one.
   */
  ghost predicate FailedOnOccupied(cells0: map<Coord, Entity>, added: seq<seq<Coord>>, failed: seq<bool>,
                                   list: seq<(EntityType, int)>, width: int, height: int)
  {
    |added| == |list| && |failed| == |list| &&
    forall j | 0 <= j < |list| && failed[j] ::
      |added[j]| < list[j].1 &&
      !(width > 0 && height > 0 && Vacant(cells0, width, height) && forall m | 0 <= m <= j :: added[m] == [])
  }

  /** Placements that placed nothing leave an empty board empty. */
  lemma StaysVacant(cells0: map<Coord, Entity>, before: map<Coord, Entity>, added: seq<seq<Coord>>,
                    after: map<Coord, Entity>, cells: seq<Coord>, width: int, height: int)
    requires Vacant(cells0, width, height) && cells == [] && forall m | 0 <= m < |added| :: added[m] == []
    requires forall k | k in before :: k in cells0 || k in Concat(added)
    requires forall k :: k in after <==> k in before || k in cells
    ensures Vacant(after, width, height)
  {
    forall k | k in before ensures k in cells0 {
      InConcat(added, k);
    }
  }

  /** One more placement keeps the `FailedOnOccupied` record. */
  lemma FailedOnOccupiedStep(cells0: map<Coord, Entity>, before: map<Coord, Entity>, added: seq<seq<Coord>>,
                             failed: seq<bool>, list: seq<(EntityType, int)>, width: int, height: int,
                             after: map<Coord, Entity>, cells: seq<Coord>, fail: bool)
    requires |added| < |list| && FailedOnOccupied(cells0, added, failed, list[..|added|], width, height)
    requires forall k | k in before :: k in cells0 || k in Concat(added)
    requires forall k :: k in after <==> k in before || k in cells
    requires fail ==> |cells| < list[|added|].1 && !(width > 0 && height > 0 && Vacant(after, width, height))
    ensures FailedOnOccupied(cells0, added + [cells], failed + [fail], list[..|added| + 1], width, height)
  {
    var n := |added|;
    var added1, failed1, list1 := added + [cells], failed + [fail], list[..n + 1];
    forall j | 0 <= j < n + 1 && failed1[j]
      ensures |added1[j]| < list1[j].1 &&
              !(width > 0 && height > 0 && Vacant(cells0, width, height) && forall m | 0 <= m <= j :: added1[m] == [])
    {
      if j < n {
        assert failed1[j] == failed[j] && added1[j] == added[j] && list1[j] == list[..n][j];
        forall m | 0 <= m <= j ensures added1[m] == added[m] {}
      } else {
        assert added1[n] == cells;
        if width > 0 && height > 0 && Vacant(cells0, width, height) && forall m | 0 <= m <= j :: added1[m] == [] {
          forall m | 0 <= m < n ensures added[m] == [] {
            assert added1[m] == added[m];
          }
          StaysVacant(cells0, before, added, after, cells, width, height);
          assert false;
        }
      }
    }
  }

  /** One more placement, of the cells `cells` for the next entry of `list`, extends the record. */
  lemma PopulatedStep(cells0: map<Coord, Entity>, order0: seq<Coord>, before: map<Coord, Entity>, orderBefore: seq<Coord>,
                      added: seq<seq<Coord>>, failed: seq<bool>, list: seq<(EntityType, int)>, width: int, height: int,
                      after: map<Coord, Entity>, orderAfter: seq<Coord>, cells: seq<Coord>, fail: bool)
    requires |added| < |list| &&
             PopulatedBy(cells0, order0, before, orderBefore, added, failed, list[..|added|], width, height)
    requires orderAfter == orderBefore + cells
    requires forall k :: k in after <==> k in before || k in cells
    requires forall k | k in before :: after[k] == before[k]
    requires forall k | k in cells :: after[k].Type() == list[|added|].0
    requires |cells| <= Max0(list[|added|].1) && (!fail ==> |cells| == Max0(list[|added|].1))
    requires fail ==> |cells| < list[|added|].1 && !(width > 0 && height > 0 && Vacant(after, width, height))
    ensures PopulatedBy(cells0, order0, after, orderAfter, added + [cells], failed + [fail], list[..|added| + 1],
                        width, height)
  {
    PlacedStep(added, cells, list, before, after);
    PlacedFullyStep(added, failed, list, cells, fail);
    FailedOnOccupiedStep(cells0, before, added, failed, list, width, height, after, cells, fail);
    ConcatSnoc(added, cells);
    forall k | k in after ensures k in cells0 || k in Concat(added + [cells]) {
      if k !in before && k !in cells0 {
        assert k in cells;
      }
    }
  }

  /** `Concat` holds exactly the cells of its parts. */
  lemma {:induction false} InConcat(ss: seq<seq<Coord>>, k: Coord)
    ensures k in Concat(ss) <==> exists j | 0 <= j < |ss| :: k in ss[j]
  {
    if ss != [] {
      var init := ss[..|ss| - 1];
      InConcat(init, k);
      if k in Concat(init) {
        var j :| 0 <= j < |init| && k in init[j];
        assert ss[j] == init[j];
      }
      forall j | 0 <= j < |ss| - 1 && k in ss[j] ensures k in Concat(init) {
        assert init[j] == ss[j];
      }
    }
  }

  /**
   * `PopulateMapAction.execute`: the five placements in list order, as
   * `Populated` records them.
   */
  method Execute(grid: Grid, grassCount: int, rockCount: int, treeCount: int)
    returns (ghost added: seq<seq<Coord>>, ghost failed: seq<bool>)
    requires grid.Valid() && Sound(grid.cells, grid.width, grid.height)
    modifies grid
    ensures grid.Valid() && Sound(grid.cells, grid.width, grid.height)
    ensures Populated(old(grid.cells), old(grid.order), grid.cells, grid.order, added, failed,
                      grassCount, rockCount, treeCount, grid.width, grid.height)
    ensures forall c | c in grid.Creatures() :: c in old(grid.Creatures()) || fresh(c)
  {
    var entitiesToPlace := EntitiesToPlace(grassCount, rockCount, treeCount);
    ghost var cells0 := grid.cells;
    ghost var order0 := grid.order;
    added, failed := [], [];
    for i := 0 to |entitiesToPlace|
      invariant grid.Valid() && Sound(grid.cells, grid.width, grid.height)
      invariant |added| == i
      invariant PopulatedBy(cells0, order0, grid.cells, grid.order, added, failed, entitiesToPlace[..i],
                            grid.width, grid.height)
      invariant forall c | c in grid.Creatures() :: c in CreaturesOf(cells0) || fresh(c)
    {
      var (entityType, count) := entitiesToPlace[i];
      ghost var cellsBefore, orderBefore := grid.cells, grid.order;
      var placed, cells, fail := PlaceEntities(grid, entityType, count);
      PopulatedStep(cells0, order0, cellsBefore, orderBefore, added, failed, entitiesToPlace, grid.width, grid.height,
                    grid.cells, grid.order, cells, fail);
      added, failed := added + [cells], failed + [fail];
    }
    assert entitiesToPlace[..5] == entitiesToPlace;
  }

  /** One more placement keeps the `PlacedFully` record. */
  lemma PlacedFullyStep(added: seq<seq<Coord>>, failed: seq<bool>, list: seq<(EntityType, int)>, cells: seq<Coord>, fail: bool)
    requires |added| < |list| && PlacedFully(added, failed, list[..|added|])
    requires !fail ==> |cells| == Max0(list[|added|].1)
    ensures PlacedFully(added + [cells], failed + [fail], list[..|added| + 1])
  {
    var n := |added|;
    forall j | 0 <= j < n + 1 && !(failed + [fail])[j]
      ensures |(added + [cells])[j]| == Max0(list[..n + 1][j].1)
    {
      if j < n {
        assert (failed + [fail])[j] == failed[j] && (added + [cells])[j] == added[j] && list[..n + 1][j] == list[..n][j];
      }
    }
  }

  function Max0(n: int): nat
  {
    if n <= 0 then 0 else n
  }
}
