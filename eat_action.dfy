/**
 * The eating interaction (entities/actions/eat_action.py): a creature eats
 * the entity on an adjacent cell when that entity has the eater's target type.
 */
module EatAction {
  import opened Util
  import opened Coordinates
  import opened World
  import opened Entities
  import Config

  /**
   * `EatAction.execute`. It fails, changing nothing, when `target` is empty
   * or holds another type than the eater seeks; otherwise the target's entry
   * is popped from the map and the eater heals by the grass recovery amount,
   * clamped to its maximum.
   */
  method Execute(eater: Creature, from: Coord, target: Coord, grid: Grid) returns (ok: bool)
    requires grid.Valid()
    modifies grid, eater
    ensures grid.Valid()
    ensures ok == HoldsType(old(grid.cells), target, eater.TargetType())
    ensures ok ==> grid.cells == old(grid.cells) - {target} && grid.order == Without(old(grid.order), target)
    ensures ok ==> eater.hp == Healed(old(eater.hp), eater.maxHp, Config.GrassRecoveryHp)
    ensures !ok ==> grid.cells == old(grid.cells) && grid.order == old(grid.order) && eater.hp == old(eater.hp)
  {
    var targetEntity := grid.GetEntity(target);
    if targetEntity.None? || targetEntity.value.Type() != eater.TargetType() {
      return false;
    }
    var _ := grid.RemoveEntity(target);
    eater.RestoreHp(Config.GrassRecoveryHp);
    return true;
  }
}
