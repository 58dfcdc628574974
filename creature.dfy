/**
 * A creature's turn (entities/base/creature.py): act on an adjacent target,
 * otherwise walk along a shortest path towards the movement targets, and
 * otherwise step onto a random empty neighbour.
 *
 * The source's methods take `self`; a creature's data lives in module
 * Entities, so here they are module-level methods with a `self` parameter.
 * Log lines are left out; the methods return what they would have logged.
 */
module Behaviour {
  import opened Util
  import opened Enums
  import opened Coordinates
  import opened World
  import opened Entities
  import opened Pathfinding
  import opened Species

  /** The first cell of `ns` that holds an entity of type `t`. */
  function FirstHolding(ns: seq<Coord>, cells: map<Coord, Entity>, t: EntityType): Option<Coord>
  {
    if ns == [] then None
    else if HoldsType(cells, ns[0], t) then Some(ns[0])
    else FirstHolding(ns[1..], cells, t)
  }

  /**
   * `FirstHolding` is none exactly when no cell of `ns` holds type `t`, and
   * otherwise the earliest such cell.
   */
  lemma {:induction false} FirstHoldingSpec(ns: seq<Coord>, cells: map<Coord, Entity>, t: EntityType)
    ensures FirstHolding(ns, cells, t).None? <==> forall i | 0 <= i < |ns| :: !HoldsType(cells, ns[i], t)
    ensures FirstHolding(ns, cells, t).Some? ==>
      exists k | 0 <= k < |ns| :: ns[k] == FirstHolding(ns, cells, t).value && HoldsType(cells, ns[k], t) &&
        forall i | 0 <= i < k :: !HoldsType(cells, ns[i], t)
  {
    if ns != [] && !HoldsType(cells, ns[0], t) {
      var rest := ns[1..];
      FirstHoldingSpec(rest, cells, t);
      assert forall i | 0 <= i < |rest| :: rest[i] == ns[i + 1];
      if FirstHolding(rest, cells, t).Some? {
        var k :| 0 <= k < |rest| && rest[k] == FirstHolding(rest, cells, t).value && HoldsType(cells, rest[k], t) &&
          forall i | 0 <= i < k :: !HoldsType(cells, rest[i], t);
        assert ns[k + 1] == rest[k];
        forall i | 0 <= i < k + 1 ensures !HoldsType(cells, ns[i], t) {
          if i > 0 { assert ns[i] == rest[i - 1]; }
        }
      } else {
        forall i | 0 <= i < |ns| ensures !HoldsType(cells, ns[i], t) {
          if i > 0 { assert ns[i] == rest[i - 1]; }
        }
      }
    }
  }

  /** Skipping a prefix in which nothing holds type `t` does not change the first holder. */
  lemma {:induction false} FirstHoldingSkip(ns: seq<Coord>, i: nat, cells: map<Coord, Entity>, t: EntityType)
    requires i <= |ns|
    requires forall j | 0 <= j < i :: !HoldsType(cells, ns[j], t)
    ensures FirstHolding(ns, cells, t) == FirstHolding(ns[i..], cells, t)
  {
    if i > 0 {
      FirstHoldingSkip(ns[1..], i - 1, cells, t);
      assert ns[1..][i - 1..] == ns[i..];
    }
  }

  /** `_find_nearby_entity`: the scan over the neighbours, stopping at the first holder of `t`. */
  method FindNearbyEntity(start: Coord, grid: Grid, t: EntityType) returns (found: Option<Coord>)
    ensures found == FirstHolding(Neighbors(start, grid.width, grid.height), grid.cells, t)
  {
    var neighbors := grid.GetNeighborsCells(start);
    for i := 0 to |neighbors|
      invariant forall j | 0 <= j < i :: !HoldsType(grid.cells, neighbors[j], t)
    {
      var entity := grid.GetEntity(neighbors[i]);
      if entity.Some? && entity.value.Type() == t {
        FirstHoldingSkip(neighbors, i, grid.cells, t);
        return Some(neighbors[i]);
      }
    }
    FirstHoldingSkip(neighbors, |neighbors|, grid.cells, t);
    return None;
  }

  /**
   * `_try_move`: succeeds exactly when the destination is empty and then
   * performs `move_entity`. As in the source, success is reported even when
   * the start cell was empty and nothing moved.
   */
  method TryMove(self: Creature, start: Coord, target: Coord, grid: Grid) returns (ok: bool)
    requires grid.Valid()
    modifies grid
    ensures grid.Valid()
    ensures ok == (target !in old(grid.cells))
    ensures ok ==> grid.cells == MovedCells(old(grid.cells), start, target) &&
                   grid.order == MovedOrder(old(grid.order), old(grid.cells), start, target)
    ensures ok && start !in old(grid.cells) ==> grid.cells == old(grid.cells)
    ensures !ok ==> grid.cells == old(grid.cells) && grid.order == old(grid.order)
  {
    assert grid.IsCellEmpty(target.x, target.y) <==> target !in grid.cells by {
      assert target == Coord(target.x, target.y);
    }
    if grid.IsCellEmpty(target.x, target.y) {
      var moved := grid.MoveEntity(start, target);
      return true;
    }
    return false;
  }

  /**
   * The evidently intended `_try_move`: it reports success only for a move
   * that happened, that is when the start holds an entity and the
   * destination is empty.
   */
  method TryMoveIntended(self: Creature, start: Coord, target: Coord, grid: Grid) returns (ok: bool)
    requires grid.Valid()
    modifies grid
    ensures grid.Valid()
    ensures ok == (start in old(grid.cells) && target !in old(grid.cells))
    ensures ok ==> grid.cells == MovedCells(old(grid.cells), start, target) &&
                   grid.order == MovedOrder(old(grid.order), old(grid.cells), start, target)
    ensures !ok ==> grid.cells == old(grid.cells) && grid.order == old(grid.order)
  {
    assert grid.IsCellEmpty(target.x, target.y) <==> target !in grid.cells by {
      assert target == Coord(target.x, target.y);
    }
    if grid.IsCellEmpty(target.x, target.y) {
      ok := grid.MoveEntity(start, target);
    } else {
      ok := false;
    }
  }

  /**
   * `_make_random_move`: a step to some empty neighbour, any of them; with
   * no empty neighbour nothing changes. Returns the destination.
   */
  method MakeRandomMove(self: Creature, start: Coord, grid: Grid) returns (moved: Option<Coord>)
    requires grid.Valid()
    modifies grid
    ensures grid.Valid()
    ensures moved.None? <==> EmptyAmong(Neighbors(start, grid.width, grid.height), old(grid.cells)) == []
    ensures moved.Some? ==>
      moved.value in Neighbors(start, grid.width, grid.height) && moved.value !in old(grid.cells) &&
      grid.cells == MovedCells(old(grid.cells), start, moved.value) &&
      grid.order == MovedOrder(old(grid.order), old(grid.cells), start, moved.value)
    ensures moved.None? ==> grid.cells == old(grid.cells) && grid.order == old(grid.order)
  {
    var neighbors := grid.GetNeighborsCells(start);
    var availableMoves := EmptyAmong(neighbors, grid.cells);
    if availableMoves == [] {
      return None;
    }
    var k :| 0 <= k < |availableMoves|;
    var nextPosition := availableMoves[k];
    assert nextPosition in availableMoves;
    var ok := TryMove(self, start, nextPosition, grid);
    return Some(nextPosition);
  }

  /** Along a walk, the cell after `k` steps is at most `k` away and (for `k > 0`) on the board. */
  lemma {:induction false} WalkReach(t: Terrain, start: Coord, p: seq<Coord>, k: nat)
    requires IsWalk(t, start, p) && k < |p|
    ensures Distance(start, p[k]) <= k
    ensures k > 0 ==> InBounds(p[k], t.width, t.height)
  {
    if k > 0 {
      WalkReach(t, start, p, k - 1);
      assert Edge(t, p[k - 1], p[k]);
    }
  }

  /** The cell a creature of speed `speed` aims for on `path`. */
  function StepTarget(path: seq<Coord>, speed: int): Coord
    requires |path| >= 2 && speed >= 1
  {
    path[Min(speed, |path| - 1)]
  }

  /**
   * What `_move_towards_targets(start, targets)` did to the board
   * `cells0`/`order0`, leaving `cells1`/`order1`. With targets, `plan` is
   * the BFS result: `None` exactly when no target is reachable, and
   * otherwise a shortest path to a target. If the cell `min(speed, len - 1)`
   * steps along it is empty, the creature moves there. Otherwise, or
   * without a path, it steps onto an empty neighbour. A creature that moved
   * (`moved`) went at most `speed` cells, to an empty in-bounds cell, and
   * the board changed by `move_entity`. A creature that stayed had no empty
   * neighbour, and the board is unchanged.
   */
  ghost predicate WalkedTowards(start: Coord, speed: int, width: int, height: int,
                                cells0: map<Coord, Entity>, order0: seq<Coord>, targets: seq<Coord>,
                                plan: Option<seq<Coord>>, moved: Option<Coord>,
                                cells1: map<Coord, Entity>, order1: seq<Coord>)
  {
    var t := Terrain(width, height, cells0.Keys, targets);
    speed >= 1 &&
    (targets == [] ==> plan.None?) &&
    (targets != [] ==> (plan.None? <==> forall q :: !IsPathToTarget(t, start, q))) &&
    (plan.Some? ==>
      IsPathToTarget(t, start, plan.value) && |plan.value| >= 2 &&
      forall q | IsPathToTarget(t, start, q) :: |plan.value| <= |q|) &&
    (plan.Some? && StepTarget(plan.value, speed) !in cells0 ==> moved == Some(StepTarget(plan.value, speed))) &&
    (moved.Some? ==>
      (moved.value in Neighbors(start, width, height) ||
       (plan.Some? && moved.value == StepTarget(plan.value, speed))) &&
      moved.value !in cells0 && InBounds(moved.value, width, height) &&
      Distance(start, moved.value) <= speed &&
      cells1 == MovedCells(cells0, start, moved.value) &&
      order1 == MovedOrder(order0, cells0, start, moved.value)) &&
    (moved.None? ==>
      EmptyAmong(Neighbors(start, width, height), cells0) == [] &&
      cells1 == cells0 && order1 == order0)
  }

  /**
   * `_move_towards_targets`. With targets, the BFS path (`plan`, a ghost
   * record of the search result) is followed for `min(speed, len - 1)`
   * steps if that cell is empty; otherwise, or without targets or a path, a
   * random move is made. The effect is `WalkedTowards`.
   */
  method MoveTowardsTargets(self: Creature, start: Coord, grid: Grid, targetCoords: seq<Coord>)
    returns (moved: Option<Coord>, ghost plan: Option<seq<Coord>>)
    requires grid.Valid() && self.Valid()
    modifies grid
    ensures grid.Valid()
    ensures WalkedTowards(start, self.speed, grid.width, grid.height, old(grid.cells), old(grid.order),
                          targetCoords, plan, moved, grid.cells, grid.order)
  {
    plan := None;
    if targetCoords != [] {
      var path := FindNearestTargetPath(start, grid, targetCoords);
      assert TerrainOf(grid, targetCoords) == Terrain(grid.width, grid.height, old(grid.cells).Keys, targetCoords);
      plan := path;
      if path.Some? && |path.value| > 1 {
        var steps := Min(self.speed, |path.value| - 1);
        var nextCoord := path.value[steps];
        WalkReach(TerrainOf(grid, targetCoords), start, path.value, steps);
        var ok := TryMove(self, start, nextCoord, grid);
        if ok {
          return Some(nextCoord), plan;
        }
      }
    }
    moved := MakeRandomMove(self, start, grid);
    if moved.Some? {
      NeighborsAreAdjacentCells(start, grid.width, grid.height);
    }
  }

  /**
   * The movement targets of a creature of kind `kind` on a board (as
   * `get_movement_targets` computes them): the grass cells for a herbivore,
   * the stalking cells around the herbivores for a predator.
   */
  function WalkTargets(kind: EntityType, order: seq<Coord>, cells: map<Coord, Entity>, width: int, height: int): seq<Coord>
    requires forall k | k in order :: k in cells
  {
    if kind == EntityType.Herbivore then CoordsOfType(order, cells, Grass)
    else StalkingCells(CoordsOfType(order, cells, EntityType.Herbivore), cells, width, height)
  }

  /** What a creature's turn came to: it acted on a target, moved, or stayed put. */
  datatype MoveOutcome = Acted(target: Coord) | Moved(to: Coord) | Stayed

  /**
   * What `make_move(start)` by a creature of kind `kind` and speed `speed`
   * did to the board `cells0`/`order0`, leaving `cells1`/`order1`. It acted
   * exactly when the first neighbour holding its target type accepts the
   * action; the target is then popped, always for a herbivore and for a
   * predator when the victim died. Otherwise it walked towards its movement
   * targets on the board it started from, as `WalkedTowards` says.
   */
  ghost predicate MoveEffect(kind: EntityType, speed: int, start: Coord, width: int, height: int,
                             cells0: map<Coord, Entity>, order0: seq<Coord>, outcome: MoveOutcome,
                             plan: Option<seq<Coord>>, cells1: map<Coord, Entity>, order1: seq<Coord>)
  {
    (forall k | k in order0 :: k in cells0) &&
    var found := FirstHolding(Neighbors(start, width, height), cells0, TargetOf(kind));
    (outcome.Acted? <==> found.Some? && CanActOn(kind, cells0, found.value)) &&
    (outcome.Acted? ==>
      outcome.target == found.value &&
      ((cells1 == cells0 - {outcome.target} && order1 == Without(order0, outcome.target)) ||
       (kind != EntityType.Herbivore && cells1 == cells0 && order1 == order0))) &&
    (!outcome.Acted? ==>
      WalkedTowards(start, speed, width, height, cells0, order0, WalkTargets(kind, order0, cells0, width, height),
                    plan, if outcome.Moved? then Some(outcome.to) else None, cells1, order1))
  }

  /** Lines 38-39 of `make_move`: the movement targets, then the walk towards them. */
  method Walk(self: Creature, start: Coord, grid: Grid) returns (moved: Option<Coord>, ghost plan: Option<seq<Coord>>)
    requires grid.Valid() && self.Valid()
    modifies grid
    ensures grid.Valid()
    ensures WalkedTowards(start, self.speed, grid.width, grid.height, old(grid.cells), old(grid.order),
                          WalkTargets(self.kind, old(grid.order), old(grid.cells), grid.width, grid.height),
                          plan, moved, grid.cells, grid.order)
    ensures Sound(old(grid.cells), grid.width, grid.height) ==>
      Sound(grid.cells, grid.width, grid.height) && CreaturesOf(grid.cells) <= CreaturesOf(old(grid.cells))
  {
    var targetCoords := MovementTargets(self, grid, self.TargetType());
    moved, plan := MoveTowardsTargets(self, start, grid, targetCoords);
    if moved.Some? && Sound(old(grid.cells), grid.width, grid.height) {
      MovedCellsSound(old(grid.cells), start, moved.value, grid.width, grid.height);
    }
  }

  /**
   * `make_move`. The first adjacent cell holding the target type is acted
   * on if the action succeeds (on a sound board it always does), with the
   * effect `ActionEffect`; otherwise the creature walks towards its movement
   * targets and no hit points change. The board changes as `MoveEffect`
   * says; the placement invariant is kept and no creature is added.
   */
  method MakeMove(self: Creature, start: Coord, grid: Grid) returns (outcome: MoveOutcome, ghost plan: Option<seq<Coord>>)
    requires grid.Valid() && self.Valid()
    modifies grid, self, grid.Creatures()
    ensures grid.Valid()
    ensures Sound(old(grid.cells), grid.width, grid.height) ==>
      Sound(grid.cells, grid.width, grid.height) && CreaturesOf(grid.cells) <= CreaturesOf(old(grid.cells))
    ensures MoveEffect(self.kind, self.speed, start, grid.width, grid.height, old(grid.cells), old(grid.order),
                       outcome, plan, grid.cells, grid.order)
    ensures (Sound(old(grid.cells), grid.width, grid.height) &&
             FirstHolding(Neighbors(start, grid.width, grid.height), old(grid.cells), self.TargetType()).Some?)
            ==> outcome.Acted?
    ensures outcome.Acted? ==>
      ActionEffect(self, outcome.target, old(grid.cells), old(grid.order), old(grid.Creatures()), grid.cells, grid.order)
    ensures !outcome.Acted? ==> self.hp == old(self.hp) && forall c | c in old(grid.Creatures()) :: c.hp == old(c.hp)
  {
    var targetType := self.TargetType();
    var nearbyTarget := FindNearbyEntity(start, grid, targetType);
    if nearbyTarget.Some? {
      FirstHoldingSpec(Neighbors(start, grid.width, grid.height), grid.cells, targetType);
      if Sound(grid.cells, grid.width, grid.height) {
        CanActOnTargetType(self, grid.cells, nearbyTarget.value, grid.width, grid.height);
      }
      ghost var before := grid.cells;
      var ok := PerformAction(self, start, nearbyTarget.value, grid);
      if ok {
        if grid.cells != before && Sound(before, grid.width, grid.height) {
          RemovedCellsSound(before, nearbyTarget.value, grid.width, grid.height);
        }
        return Acted(nearbyTarget.value), None;
      }
    }
    var moved;
    moved, plan := Walk(self, start, grid);
    outcome := if moved.Some? then Moved(moved.value) else Stayed;
  }

  /**
   * As written, `_try_move` reports a move from an empty start: a walk
   * recorded as a move from a cell that holds nothing left the board as it
   * was, so the turn logs a move that did not happen and skips the random
   * move.
   */
  lemma VacatedStartReportsMove(start: Coord, speed: int, width: int, height: int,
                                cells0: map<Coord, Entity>, order0: seq<Coord>, targets: seq<Coord>,
                                plan: Option<seq<Coord>>, moved: Option<Coord>,
                                cells1: map<Coord, Entity>, order1: seq<Coord>)
    requires WalkedTowards(start, speed, width, height, cells0, order0, targets, plan, moved, cells1, order1)
    requires start !in cells0 && moved.Some?
    ensures cells1 == cells0 && order1 == order0
  {
  }

  /**
   * The turns on which `make_move` calls `AttackAction.execute`: a predator
   * whose neighbour scan finds a herbivore. As written that call evaluates
   * `isinstance(target, Creature)` with a name imported only for type
   * checking, so each such turn raises `NameError`.
   */
  predicate ReachesAttack(kind: EntityType, start: Coord, cells: map<Coord, Entity>, width: int, height: int)
  {
    kind == EntityType.Predator && FirstHolding(Neighbors(start, width, height), cells, EntityType.Herbivore).Some?
  }

  /**
   * On a sound board a predator's turn ends in an attack exactly when it
   * reaches `AttackAction.execute`: every attack the model records is a turn
   * on which the code as written stops with `NameError`.
   */
  lemma AttacksAreRaisingTurns(kind: EntityType, speed: int, start: Coord, width: int, height: int,
                               cells0: map<Coord, Entity>, order0: seq<Coord>, outcome: MoveOutcome,
                               plan: Option<seq<Coord>>, cells1: map<Coord, Entity>, order1: seq<Coord>)
    requires kind == EntityType.Predator && Sound(cells0, width, height)
    requires MoveEffect(kind, speed, start, width, height, cells0, order0, outcome, plan, cells1, order1)
    ensures outcome.Acted? <==> ReachesAttack(kind, start, cells0, width, height)
  {
    var ns := Neighbors(start, width, height);
    var found := FirstHolding(ns, cells0, EntityType.Herbivore);
    if found.Some? {
      FirstHoldingSpec(ns, cells0, EntityType.Herbivore);
      assert cells0[found.value].WellFormed();
    }
  }
}
