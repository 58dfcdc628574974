/**
 * The entity factory (entities/entity_factory.py): a registry from type tag
 * to entity class. The creature classes accept no path finder, so the
 * factory's first construction attempt fails and the argument-free fallback
 * builds every entity; the path finder therefore plays no part here.
 */
module EntityFactory {
  import opened Util
  import opened Enums
  import opened Entities

  /** The keys of `_registry`. */
  function Registry(): set<EntityType>
  {
    {Herbivore, Predator, Grass, Rock, Tree}
  }

  /** Every entity type is registered, so the ValueError of an unregistered type cannot occur. */
  lemma RegistryCoversAllTypes()
    ensures forall t: EntityType :: t in Registry()
  {
    forall t: EntityType ensures t in Registry() {
      match t
      case Herbivore =>
      case Predator =>
      case Grass =>
      case Rock =>
      case Tree =>
    }
  }

  /**
   * `create_entity(t)`: `None` stands for the ValueError of an unregistered
   * type; otherwise a new well-formed entity of type `t`. A creature is a
   * fresh object at full health, and a static entity is the bare tag.
   */
  method CreateEntity(t: EntityType) returns (result: Option<Entity>)
    ensures result.Some? <==> t in Registry()
    ensures result.Some? ==> result.value.Type() == t && result.value.WellFormed()
    ensures result.Some? && IsCreatureType(t) ==>
      result.value.Animal? && fresh(result.value.creature) &&
      result.value.creature.hp == result.value.creature.maxHp
    ensures result.Some? && !IsCreatureType(t) ==> result.value == Static(t)
  {
    if t !in Registry() {
      return None;
    }
    if t == Herbivore {
      var h := new Creature.Herbivore();
      result := Some(Animal(h));
    } else if t == Predator {
      var p := new Creature.Predator();
      result := Some(Animal(p));
    } else {
      result := Some(Static(t));
    }
  }
}
