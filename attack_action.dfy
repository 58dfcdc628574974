/**
 * The attack interaction (actions/turn/attack_action.py), the version the
 * predator uses.
 *
 * The source checks `isinstance(target, Creature)` with a name that is only
 * imported for type checking; the model takes the evidently intended check:
 * the target is a creature of the attacker's target type.
 */
module AttackAction {
  import opened Util
  import opened Enums
  import opened Coordinates
  import opened World
  import opened Entities
  import Config

  /** `c` holds a creature of type `t`. */
  predicate IsPrey(cells: map<Coord, Entity>, c: Coord, t: EntityType)
  {
    c in cells && cells[c].Animal? && cells[c].Type() == t
  }

  /**
   * `AttackAction.execute`. On a valid target the victim loses exactly the
   * attacker's attack power (no clamp). A victim left with hp <= 0 is
   * popped from the map and the attacker then heals by the kill bonus, but
   * only when the damage was positive; a surviving victim stays where it is.
   * The call succeeds whenever damage was dealt, and otherwise changes
   * nothing. No other creature is touched.
   */
  method Execute(attacker: Creature, from: Coord, target: Coord, grid: Grid) returns (ok: bool)
    requires grid.Valid() && attacker.Valid()
    modifies grid, attacker, grid.Creatures()
    ensures grid.Valid()
    ensures ok == IsPrey(old(grid.cells), target, attacker.TargetType())
    ensures !ok ==> grid.cells == old(grid.cells) && grid.order == old(grid.order) && attacker.hp == old(attacker.hp)
    ensures !ok ==> forall c | c in old(grid.Creatures()) :: c.hp == old(c.hp)
    ensures ok ==>
      var victim := old(grid.cells)[target].creature;
      victim != attacker &&
      victim.hp == old(victim.hp) - attacker.attackPower &&
      (victim.hp <= 0 ==>
         grid.cells == old(grid.cells) - {target} && grid.order == Without(old(grid.order), target) &&
         attacker.hp == if attacker.attackPower > 0
                        then Healed(old(attacker.hp), attacker.maxHp, Config.PredatorHpGainOnKill)
                        else old(attacker.hp)) &&
      (victim.hp > 0 ==>
         grid.cells == old(grid.cells) && grid.order == old(grid.order) && attacker.hp == old(attacker.hp)) &&
      forall c | c in old(grid.Creatures()) && c != victim && c != attacker :: c.hp == old(c.hp)
  {
    var targetEntity := grid.GetEntity(target);
    if !(targetEntity.Some? && targetEntity.value.Animal?) || targetEntity.value.Type() != attacker.TargetType() {
      return false;
    }
    var victim := targetEntity.value.creature;
    assert victim in grid.Creatures();
    TargetTypeIsOtherKind(attacker);
    var damage := attacker.attackPower;
    victim.TakeDamage(damage);
    if !victim.IsAlive() {
      var _ := grid.RemoveEntity(target);
      if damage > 0 {
        attacker.RestoreHp(Config.PredatorHpGainOnKill);
      }
    }
    return true;
  }
}
