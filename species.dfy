/**
 * The two kinds of creature (entities/herbivore.py, entities/predator.py):
 * what each does to an adjacent target and which cells it walks towards.
 * `get_target_type` is `Creature.TargetType` in entities.dfy.
 */
module Species {
  import opened Util
  import opened Enums
  import opened Coordinates
  import opened World
  import opened Entities
  import EatAction
  import AttackAction
  import Config

  /** The empty cells of `ns`, in the order of `ns`. */
  function EmptyAmong(ns: seq<Coord>, cells: map<Coord, Entity>): (r: seq<Coord>)
    ensures forall c :: c in r <==> c in ns && c !in cells
  {
    if ns == [] then []
    else
      var init, last := ns[..|ns| - 1], ns[|ns| - 1];
      assert ns == init + [last];
      EmptyAmong(init, cells) + (if last !in cells then [last] else [])
  }

  /** For each coordinate of `hs` in turn, its empty neighbours in direction order, duplicates kept. */
  function Candidates(hs: seq<Coord>, cells: map<Coord, Entity>, width: int, height: int): seq<Coord>
  {
    if hs == [] then []
    else Candidates(hs[..|hs| - 1], cells, width, height) + EmptyAmong(Neighbors(hs[|hs| - 1], width, height), cells)
  }

  /**
   * The predator's stalking cells around the herbivores at `hs`: the first
   * occurrence of each candidate of `Candidates`, in the candidates' order.
   */
  function StalkingCells(hs: seq<Coord>, cells: map<Coord, Entity>, width: int, height: int): seq<Coord>
  {
    Dedup(Candidates(hs, cells, width, height))
  }

  lemma {:induction false} CandidatesMembers(hs: seq<Coord>, cells: map<Coord, Entity>, width: int, height: int)
    ensures forall c :: c in Candidates(hs, cells, width, height) <==>
      c !in cells && exists k :: 0 <= k < |hs| && c in Neighbors(hs[k], width, height)
  {
    if hs != [] {
      var init := hs[..|hs| - 1];
      CandidatesMembers(init, cells, width, height);
      assert forall k | 0 <= k < |init| :: init[k] == hs[k];
      forall c | c !in cells && (exists k :: 0 <= k < |hs| && c in Neighbors(hs[k], width, height))
        ensures c in Candidates(hs, cells, width, height)
      {
        var k :| 0 <= k < |hs| && c in Neighbors(hs[k], width, height);
        if k < |init| {
          assert c in Neighbors(init[k], width, height);
        }
      }
    }
  }

  /**
   * The stalking cells are exactly the empty cells next to some herbivore,
   * each listed once, all on the board and empty; with no herbivores there are none.
   */
  lemma StalkingCellsSpec(hs: seq<Coord>, cells: map<Coord, Entity>, width: int, height: int)
    ensures forall c :: c in StalkingCells(hs, cells, width, height) <==>
      c !in cells && exists k :: 0 <= k < |hs| && c in Neighbors(hs[k], width, height)
    ensures forall c | c in StalkingCells(hs, cells, width, height) :: InBounds(c, width, height)
    ensures Distinct(StalkingCells(hs, cells, width, height))
    ensures hs == [] ==> StalkingCells(hs, cells, width, height) == []
  {
    CandidatesMembers(hs, cells, width, height);
    forall c | c in StalkingCells(hs, cells, width, height) ensures InBounds(c, width, height) {
      var k :| 0 <= k < |hs| && c in Neighbors(hs[k], width, height);
      NeighborsAreAdjacentCells(hs[k], width, height);
    }
  }

  lemma EmptyAmongSnoc(ns: seq<Coord>, j: nat, cells: map<Coord, Entity>)
    requires j < |ns|
    ensures EmptyAmong(ns[..j + 1], cells) == EmptyAmong(ns[..j], cells) + (if ns[j] !in cells then [ns[j]] else [])
  {
    assert ns[..j + 1][..j] == ns[..j];
  }

  lemma CandidatesSnoc(hs: seq<Coord>, i: nat, cells: map<Coord, Entity>, width: int, height: int)
    requires i < |hs|
    ensures Candidates(hs[..i + 1], cells, width, height)
         == Candidates(hs[..i], cells, width, height) + EmptyAmong(Neighbors(hs[i], width, height), cells)
  {
    assert hs[..i + 1][..i] == hs[..i];
  }

  /** The predator's `get_movement_targets`: nested loops appending unseen empty neighbours. */
  method StalkingTargets(grid: Grid, targetType: EntityType) returns (targetCoords: seq<Coord>)
    requires grid.Valid()
    ensures targetCoords == StalkingCells(grid.CoordsByType(targetType), grid.cells, grid.width, grid.height)
  {
    var herbivoreCoords := grid.CoordsByType(targetType);
    if herbivoreCoords == [] {
      return [];
    }
    targetCoords := [];
    for i := 0 to |herbivoreCoords|
      invariant targetCoords == Dedup(Candidates(herbivoreCoords[..i], grid.cells, grid.width, grid.height))
    {
      var coord := herbivoreCoords[i];
      ghost var before := Candidates(herbivoreCoords[..i], grid.cells, grid.width, grid.height);
      var neighbors := grid.GetNeighborsCells(coord);
      assert neighbors[..0] == [] && before + EmptyAmong([], grid.cells) == before;
      for j := 0 to |neighbors|
        invariant targetCoords == Dedup(before + EmptyAmong(neighbors[..j], grid.cells))
      {
        var neighbor := neighbors[j];
        ghost var e := EmptyAmong(neighbors[..j], grid.cells);
        EmptyAmongSnoc(neighbors, j, grid.cells);
        assert grid.IsCellEmpty(neighbor.x, neighbor.y) <==> neighbor !in grid.cells by {
          assert neighbor == Coord(neighbor.x, neighbor.y);
        }
        if neighbor !in grid.cells {
          AppendAssoc(before, e, [neighbor]);
          DedupSnoc(before + e, neighbor);
        } else {
          assert e + [] == e;
        }
        if grid.IsCellEmpty(neighbor.x, neighbor.y) && neighbor !in targetCoords {
          targetCoords := targetCoords + [neighbor];
        }
      }
      assert neighbors[..|neighbors|] == neighbors;
      CandidatesSnoc(herbivoreCoords, i, grid.cells, grid.width, grid.height);
    }
    assert herbivoreCoords[..|herbivoreCoords|] == herbivoreCoords;
  }

  /**
   * `get_movement_targets`: a herbivore walks towards every cell of its target
   * type (the grass), a predator towards the stalking cells around its targets.
   */
  method MovementTargets(self: Creature, grid: Grid, targetType: EntityType) returns (targetCoords: seq<Coord>)
    requires grid.Valid() && self.Valid()
    ensures self.kind == Herbivore ==> targetCoords == grid.CoordsByType(targetType)
    ensures self.kind == Predator ==>
      targetCoords == StalkingCells(grid.CoordsByType(targetType), grid.cells, grid.width, grid.height)
  {
    if self.kind == Herbivore {
      targetCoords := grid.CoordsByType(targetType);
    } else {
      targetCoords := StalkingTargets(grid, targetType);
    }
  }

  /** What `perform_action` accepts at `c`: grass for a herbivore, a herbivore object for a predator. */
  predicate CanActOn(kind: EntityType, cells: map<Coord, Entity>, c: Coord)
  {
    if kind == Herbivore then HoldsType(cells, c, Grass) else AttackAction.IsPrey(cells, c, EntityType.Herbivore)
  }

  /**
   * On a sound board a creature can act on exactly the cells that hold its
   * target type, so an adjacent target found by the neighbour scan is always acted on.
   */
  lemma CanActOnTargetType(self: Creature, cells: map<Coord, Entity>, c: Coord, width: int, height: int)
    requires self.Valid() && Sound(cells, width, height)
    ensures CanActOn(self.kind, cells, c) <==> HoldsType(cells, c, self.TargetType())
  {
    if c in cells {
      assert cells[c].WellFormed();
    }
  }

  /**
   * What a successful `perform_action` by `self` on `target` did, from the
   * board `cells0`/`order0` with the creatures `creatures0` to the board
   * `cells1`/`order1` and the current hit points. A herbivore's meal pops
   * the grass and heals it by the grass amount. A predator's victim loses
   * exactly the attack power; a victim left at hp <= 0 is popped and the
   * predator heals by the kill bonus when its attack power is positive,
   * while a survivor stays and the predator's hit points are unchanged. No
   * other creature's hit points change.
   */
  twostate predicate ActionEffect(self: Creature, target: Coord, cells0: map<Coord, Entity>, order0: seq<Coord>,
                                  creatures0: set<Creature>, cells1: map<Coord, Entity>, order1: seq<Coord>)
    reads self, creatures0
  {
    if self.kind == Herbivore then
      cells1 == cells0 - {target} && order1 == Without(order0, target) &&
      self.hp == Healed(old(self.hp), self.maxHp, Config.GrassRecoveryHp) &&
      forall c | c in creatures0 && c != self :: c.hp == old(c.hp)
    else
      target in cells0 && cells0[target].Animal? &&
      var victim := cells0[target].creature;
      victim in creatures0 && victim != self &&
      victim.hp == old(victim.hp) - self.attackPower &&
      (victim.hp <= 0 ==>
         cells1 == cells0 - {target} && order1 == Without(order0, target) &&
         self.hp == if self.attackPower > 0
                    then Healed(old(self.hp), self.maxHp, Config.PredatorHpGainOnKill)
                    else old(self.hp)) &&
      (victim.hp > 0 ==> cells1 == cells0 && order1 == order0 && self.hp == old(self.hp)) &&
      forall c | c in creatures0 && c != victim && c != self :: c.hp == old(c.hp)
  }

  /**
   * `perform_action`: a herbivore eats, a predator attacks. It succeeds
   * exactly when the target holds what the creature seeks, with the
   * effect `ActionEffect`; a failed action changes nothing.
   */
  method PerformAction(self: Creature, start: Coord, target: Coord, grid: Grid) returns (ok: bool)
    requires grid.Valid() && self.Valid()
    modifies grid, self, grid.Creatures()
    ensures grid.Valid()
    ensures ok == CanActOn(self.kind, old(grid.cells), target)
    ensures ok ==>
      (grid.cells == old(grid.cells) - {target} && grid.order == Without(old(grid.order), target)) ||
      (grid.cells == old(grid.cells) && grid.order == old(grid.order))
    ensures ok ==> ActionEffect(self, target, old(grid.cells), old(grid.order), old(grid.Creatures()), grid.cells, grid.order)
    ensures !ok ==> grid.cells == old(grid.cells) && grid.order == old(grid.order)
    ensures !ok ==> self.hp == old(self.hp) && forall c | c in old(grid.Creatures()) :: c.hp == old(c.hp)
  {
    if self.kind == Herbivore {
      ok := EatAction.Execute(self, start, target, grid);
    } else {
      ok := AttackAction.Execute(self, start, target, grid);
    }
  }
}
