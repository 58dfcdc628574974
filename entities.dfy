/**
 * The occupants of the board (entities/base/entity.py, entities/base/creature.py,
 * entities/herbivore.py, entities/predator.py and the static entities under entities/static).
 *
 * Static entities (grass, rock, tree) carry only their type and never change,
 * so they are values. A creature's hit points are changed in place and the
 * same creature object is seen both from the live map and from the phase
 * snapshots, so a creature is an object of class `Creature`.
 */
module Entities {
  import opened Util
  import opened Enums
  import Config

  /** `hp + min(maxHp - hp, amount)`: the hit points after `restore_hp(amount)`. */
  function Healed(hp: int, maxHp: int, amount: int): (r: int)
    ensures r == if hp + amount <= maxHp then hp + amount else maxHp
    ensures r <= maxHp
    ensures amount >= 0 && hp <= maxHp ==> hp <= r
  {
    hp + Min(maxHp - hp, amount)
  }

  /** The type a creature of kind `kind` seeks. */
  function TargetOf(kind: EntityType): EntityType
  {
    if kind == EntityType.Herbivore then Grass else EntityType.Herbivore
  }

  /**
   * A herbivore or a predator. `attackPower` is what
   * `getattr(attacker, "attack_power", 0)` reads: the configured damage for
   * a predator, and 0 for a herbivore, which has no such attribute.
   */
  class Creature {
    const kind: EntityType
    const speed: int
    const maxHp: int
    const attackPower: int
    var hp: int

    /** The kind is a creature type and the speed is positive; fixed at construction. */
    predicate Valid()
    {
      IsCreatureType(kind) && speed >= 1
    }

    /** `Herbivore()`: full health, the herbivore speed. */
    constructor Herbivore()
      ensures Valid()
      ensures kind == EntityType.Herbivore && speed == Config.HerbivoreSpeed
      ensures hp == maxHp == Config.BaseHerbivoreHp && attackPower == 0
    {
      kind := EntityType.Herbivore;
      speed := Config.HerbivoreSpeed;
      maxHp := Config.BaseHerbivoreHp;
      hp := Config.BaseHerbivoreHp;
      attackPower := 0;
    }

    /** `Predator()`: full health, the predator speed and the configured attack power. */
    constructor Predator()
      ensures Valid()
      ensures kind == EntityType.Predator && speed == Config.PredatorSpeed
      ensures hp == maxHp == Config.BasePredatorHp && attackPower == Config.PredatorAttackDamage
    {
      kind := EntityType.Predator;
      speed := Config.PredatorSpeed;
      maxHp := Config.BasePredatorHp;
      hp := Config.BasePredatorHp;
      attackPower := Config.PredatorAttackDamage;
    }

    /** `get_target_type`: herbivores seek grass, predators seek herbivores. */
    function TargetType(): (r: EntityType)
      ensures kind == EntityType.Herbivore ==> r == Grass
      ensures kind == EntityType.Predator ==> r == EntityType.Herbivore
    {
      TargetOf(kind)
    }

    /** `is_alive`: a creature lives while its hit points are positive. */
    predicate IsAlive(): (alive: bool)
      reads this
      ensures alive <==> !(hp <= 0)
    {
      hp > 0
    }

    /** `take_damage`: no clamp, so hit points may become negative. */
    method TakeDamage(amount: int)
      modifies this
      ensures hp == old(hp) - amount
    {
      hp := hp - amount;
    }

    /** `restore_hp`: heal by `amount`, never beyond `maxHp`. */
    method RestoreHp(amount: int)
      modifies this
      ensures hp == Healed(old(hp), maxHp, amount)
    {
      var healedAmount := Min(maxHp - hp, amount);
      hp := hp + healedAmount;
    }
  }

  /** A creature never seeks its own kind, so an attacker is never its own victim. */
  lemma TargetTypeIsOtherKind(c: Creature)
    requires c.Valid()
    ensures c.TargetType() != c.kind
    ensures c.kind == Herbivore ==> c.TargetType() == Grass
    ensures c.kind == Predator ==> c.TargetType() == Herbivore
  {
  }

  /** What a map cell holds. */
  datatype Entity = Static(kind: EntityType) | Animal(creature: Creature)
  {
    /** `entity.entity_type`. */
    function Type(): EntityType
    {
      match this
      case Static(k) => k
      case Animal(c) => c.kind
    }

    /** A static entity is a rock, a tree or grass; a creature is a valid herbivore or predator. */
    predicate WellFormed()
    {
      match this
      case Static(k) => !IsCreatureType(k)
      case Animal(c) => c.Valid()
    }
  }

  /** The hit points of the creatures `cs`, as a map from each to its current value. */
  ghost function HpOf(cs: set<Creature>): (r: map<Creature, int>)
    reads cs
    ensures r.Keys == cs && forall c | c in cs :: r[c] == c.hp
  {
    map c | c in cs :: c.hp
  }
}
