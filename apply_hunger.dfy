/**
 * The hunger phase (actions/turn/apply_hunger.py): every creature of a
 * snapshot of the board loses the configured hunger damage.
 *
 * The source's death test reads `is_alive` without calling it; a bound
 * method is always truthy, so the removal branch never runs and starving
 * creatures stay on the board. `Execute` models the phase as it behaves,
 * and it is the phase the simulation runs; `ExecuteIntended` is the phase
 * with the removal branch taken as evidently intended.
 */
module ApplyHunger {
  import opened Util
  import opened Coordinates
  import opened World
  import opened Entities
  import Config

  /** Every creature entry of the snapshot `es` of a board holds a different creature. */
  lemma SnapshotCreaturesDistinct(es: seq<(Coord, Entity)>, order: seq<Coord>, cells: map<Coord, Entity>)
    requires Distinct(order) && forall k | k in order :: k in cells
    requires Exclusive(cells)
    requires es == Entries(order, cells)
    ensures forall j, k | 0 <= j < |es| && 0 <= k < |es| && j != k && es[j].1.Animal? && es[k].1.Animal? ::
      es[j].1.creature != es[k].1.creature
  {
    forall j, k | 0 <= j < |es| && 0 <= k < |es| && j != k && es[j].1.Animal? && es[k].1.Animal?
      ensures es[j].1.creature != es[k].1.creature
    {
      assert order[j] != order[k];
    }
  }

  /** The position of each creature in the snapshot: a creature determines its entry. */
  lemma CreatureIndexOf(es: seq<(Coord, Entity)>, order: seq<Coord>, cells: map<Coord, Entity>)
    returns (index: map<Creature, int>)
    requires Distinct(order) && forall k | k in order :: k in cells
    requires Exclusive(cells)
    requires es == Entries(order, cells)
    ensures forall k | 0 <= k < |es| && es[k].1.Animal? :: es[k].1.creature in index && index[es[k].1.creature] == k
  {
    SnapshotCreaturesDistinct(es, order, cells);
    index := IndexOfCreatures(es);
  }

  /** With no creature on two entries, each creature is mapped to the position of its entry. */
  lemma IndexOfCreatures(es: seq<(Coord, Entity)>) returns (index: map<Creature, int>)
    requires forall j, k | 0 <= j < |es| && 0 <= k < |es| && j != k && es[j].1.Animal? && es[k].1.Animal? ::
      es[j].1.creature != es[k].1.creature
    ensures forall k | 0 <= k < |es| && es[k].1.Animal? :: es[k].1.creature in index && index[es[k].1.creature] == k
  {
    index := map k | 0 <= k < |es| && es[k].1.Animal? :: es[k].1.creature := k;
    forall k | 0 <= k < |es| && es[k].1.Animal?
      ensures es[k].1.creature in index && index[es[k].1.creature] == k
    {
      var j :| 0 <= j < |es| && es[j].1.Animal? && es[j].1.creature == es[k].1.creature && index[es[k].1.creature] == j;
    }
  }

  /**
   * When every creature entry of the snapshot of a board has lost `loss`
   * against `hp0`, every creature of that board has.
   */
  lemma HungerReachesAll(es: seq<(Coord, Entity)>, order: seq<Coord>, cells: map<Coord, Entity>,
                         hp0: map<Creature, int>, loss: int)
    requires forall k :: k in cells <==> k in order
    requires es == Entries(order, cells)
    requires forall k | 0 <= k < |es| && es[k].1.Animal? ::
      es[k].1.creature in hp0 && es[k].1.creature.hp == hp0[es[k].1.creature] - loss
    ensures forall c | c in CreaturesOf(cells) :: c in hp0 && c.hp == hp0[c] - loss
  {
    forall c | c in CreaturesOf(cells) ensures c in hp0 && c.hp == hp0[c] - loss {
      var key :| key in cells && cells[key].Animal? && cells[key].creature == c;
      var j :| 0 <= j < |order| && order[j] == key;
      assert es[j].1 == cells[key];
    }
  }

  /**
   * One step of the intended phase, entry `i` of the snapshot `es`: its
   * creature, if any, loses the hunger damage and is popped from the board
   * when its hit points are no longer positive.
   */
  method StarveEntry(grid: Grid, es: seq<(Coord, Entity)>, i: nat, ghost order0: seq<Coord>,
                     ghost index: map<Creature, int>, ghost cells0: map<Coord, Entity>, ghost hp0: map<Creature, int>)
    requires Distinct(order0) && |order0| == |es| && i < |es|
    requires forall k | 0 <= k < |es| :: es[k].0 == order0[k]
    requires forall k | 0 <= k < |es| && es[k].1.Animal? :: es[k].1.creature in index && index[es[k].1.creature] == k
    requires grid.Valid() && es[i].0 in grid.cells && grid.cells[es[i].0] == es[i].1
    modifies grid, if es[i].1.Animal? then {es[i].1.creature} else {}
    ensures grid.Valid()
    ensures es[i].1.Animal? ==> es[i].1.creature.hp == old(es[i].1.creature.hp) - Config.HungerHpLossPerTurn
    ensures grid.cells == if es[i].1.Animal? && es[i].1.creature.hp <= 0 then old(grid.cells) - {es[i].0} else old(grid.cells)
    ensures grid.order == if es[i].1.Animal? && es[i].1.creature.hp <= 0 then Without(old(grid.order), es[i].0) else old(grid.order)
    ensures forall k | 0 <= k < |es| && k != i && es[k].1.Animal? :: es[k].1.creature.hp == old(es[k].1.creature.hp)
    ensures old(StarvedUpTo(es, i, cells0, order0, hp0, grid.cells, grid.order)) ==>
      StarvedUpTo(es, i + 1, cells0, order0, hp0, grid.cells, grid.order)
  {
    var (coord, entity) := es[i];
    if entity.Animal? {
      entity.creature.TakeDamage(Config.HungerHpLossPerTurn);
      if !entity.creature.IsAlive() {
        var _ := grid.RemoveEntity(coord);
      }
    }
    forall k | 0 <= k < |es| && k != i ensures es[k].0 != es[i].0 {
      assert order0[k] != order0[i];
    }
    if grid.cells != old(grid.cells) {
      WithoutKept(order0, old(grid.cells), es[i].0);
    }
  }

  /**
   * `ApplyHungerAction.execute` as written: every creature on the board
   * loses exactly the hunger damage, once, and the board itself is left as
   * it was, even for creatures whose hit points are no longer positive.
   */
  method Execute(grid: Grid)
    requires grid.Valid() && Sound(grid.cells, grid.width, grid.height)
    modifies grid.Creatures()
    ensures forall c | c in old(grid.Creatures()) :: c.hp == old(c.hp) - Config.HungerHpLossPerTurn
    ensures grid.cells == old(grid.cells) && grid.order == old(grid.order)
  {
    var entitiesWithCoords := grid.Items();
    ghost var es := entitiesWithCoords;
    ghost var index := CreatureIndexOf(es, grid.order, grid.cells);
    ghost var hp0: map<Creature, int> := map c | c in grid.Creatures() :: c.hp;
    for i := 0 to |entitiesWithCoords|
      invariant forall k | 0 <= k < |es| && es[k].1.Animal? ::
        es[k].1.creature in hp0 &&
        es[k].1.creature.hp == hp0[es[k].1.creature] - (if k < i then Config.HungerHpLossPerTurn else 0)
    {
      var entity := entitiesWithCoords[i].1;
      if entity.Animal? {
        entity.creature.TakeDamage(Config.HungerHpLossPerTurn);
      }
    }
    HungerReachesAll(es, grid.order, grid.cells, hp0, Config.HungerHpLossPerTurn);
  }

  /**
   * After the last step of the intended phase, a key is still on the board
   * exactly when its snapshot creature, if any, kept positive hit points.
   */
  lemma StarvedKeysRemoved(es: seq<(Coord, Entity)>, order0: seq<Coord>, cells0: map<Coord, Entity>,
                           cells: map<Coord, Entity>)
    requires forall k :: k in cells0 <==> k in order0
    requires es == Entries(order0, cells0)
    requires forall k | 0 <= k < |es| :: (es[k].0 in cells <==> !(es[k].1.Animal? && es[k].1.creature.hp <= 0))
    requires forall key | key in cells :: key in cells0
    ensures forall k :: k in cells <==> k in cells0 && !(cells0[k].Animal? && cells0[k].creature.hp <= 0)
  {
    forall key | key in cells0 ensures key in cells <==> !(cells0[key].Animal? && cells0[key].creature.hp <= 0) {
      var j :| 0 <= j < |order0| && order0[j] == key;
      assert es[j] == (key, cells0[key]);
    }
  }

  /** The creatures of the snapshot `es`. */
  function SnapshotCreatures(es: seq<(Coord, Entity)>): set<Creature>
  {
    set k | 0 <= k < |es| && es[k].1.Animal? :: es[k].1.creature
  }

  /**
   * The intended phase after the first `i` entries of the snapshot `es` of
   * the board (`cells0`, `order0`): those entries' creatures have lost the
   * hunger damage against `hp0` and the later ones have not; exactly the
   * snapshot keys among the first `i` whose creature is left without
   * positive hit points are gone; the remaining keys keep their entities and
   * their order.
   */
  ghost predicate StarvedUpTo(es: seq<(Coord, Entity)>, i: int, cells0: map<Coord, Entity>, order0: seq<Coord>,
                              hp0: map<Creature, int>, cells: map<Coord, Entity>, order: seq<Coord>)
    reads SnapshotCreatures(es)
  {
    (forall k | 0 <= k < |es| && es[k].1.Animal? ::
       es[k].1.creature in hp0 &&
       es[k].1.creature.hp == hp0[es[k].1.creature] - (if k < i then Config.HungerHpLossPerTurn else 0)) &&
    (forall k | 0 <= k < |es| :: (es[k].0 in cells <==> !(k < i && es[k].1.Animal? && es[k].1.creature.hp <= 0))) &&
    (forall key | key in cells :: key in cells0 && cells[key] == cells0[key]) &&
    order == Kept(order0, cells)
  }

  /**
   * The loop of the intended phase over the snapshot `es` of the board
   * (`cells0`, `order0`): afterwards every snapshot creature has lost the
   * hunger damage against `hp0`, exactly the snapshot keys of creatures
   * left without positive hit points are gone, the remaining keys keep their
   * order, and the rest of the board is as it was.
   */
  method StarveAll(grid: Grid, es: seq<(Coord, Entity)>, ghost cells0: map<Coord, Entity>, ghost order0: seq<Coord>,
                   ghost index: map<Creature, int>, ghost hp0: map<Creature, int>)
    requires grid.Valid() && Sound(grid.cells, grid.width, grid.height)
    requires grid.cells == cells0 && grid.order == order0 && Distinct(order0) && |order0| == |es|
    requires forall k | 0 <= k < |es| :: order0[k] in cells0 && es[k] == (order0[k], cells0[order0[k]])
    requires forall k | 0 <= k < |es| && es[k].1.Animal? :: es[k].1.creature in index && index[es[k].1.creature] == k
    requires forall k | 0 <= k < |es| && es[k].1.Animal? :: es[k].1.creature in hp0 && es[k].1.creature.hp == hp0[es[k].1.creature]
    modifies grid, SnapshotCreatures(es)
    ensures grid.Valid() && Sound(grid.cells, grid.width, grid.height)
    ensures StarvedUpTo(es, |es|, cells0, order0, hp0, grid.cells, grid.order)
  {
    KeptAll(order0, grid.cells);
    for i := 0 to |es|
      invariant grid.Valid() && Sound(grid.cells, grid.width, grid.height)
      invariant StarvedUpTo(es, i, cells0, order0, hp0, grid.cells, grid.order)
    {
      ghost var before := grid.cells;
      assert es[i].0 in grid.cells;
      StarveEntry(grid, es, i, order0, index, cells0, hp0);
      if grid.cells != before {
        RemovedCellsSound(before, es[i].0, grid.width, grid.height);
      }
    }
  }

  /**
   * The phase as its death branch evidently intends: every creature on the
   * board loses the hunger damage once, and exactly the creatures whose hit
   * points are then no longer positive are popped from the board; every
   * other cell keeps its entity, and the remaining keys keep their order.
   */
  method ExecuteIntended(grid: Grid)
    requires grid.Valid() && Sound(grid.cells, grid.width, grid.height)
    modifies grid, grid.Creatures()
    ensures grid.Valid() && Sound(grid.cells, grid.width, grid.height)
    ensures forall c | c in old(grid.Creatures()) :: c.hp == old(c.hp) - Config.HungerHpLossPerTurn
    ensures forall k :: k in grid.cells <==>
      k in old(grid.cells) && !(old(grid.cells)[k].Animal? && old(grid.cells)[k].creature.hp <= 0)
    ensures forall k | k in grid.cells :: grid.cells[k] == old(grid.cells)[k]
    ensures grid.order == Kept(old(grid.order), grid.cells)
  {
    var entitiesWithCoords := grid.Items();
    ghost var es := entitiesWithCoords;
    ghost var cells0, order0 := grid.cells, grid.order;
    ghost var index := CreatureIndexOf(es, grid.order, grid.cells);
    ghost var hp0: map<Creature, int> := map c | c in grid.Creatures() :: c.hp;
    assert SnapshotCreatures(es) <= grid.Creatures();
    StarveAll(grid, entitiesWithCoords, cells0, order0, index, hp0);
    StarvedKeysRemoved(es, order0, cells0, grid.cells);
    HungerReachesAll(es, order0, cells0, hp0, Config.HungerHpLossPerTurn);
  }
}
