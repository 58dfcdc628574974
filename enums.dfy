/**
 * The entity categories and the movement directions (utils/enums.py).
 */
module Enums {

  /** The five kinds of entity; `Value` gives the string each enum member carries. */
  datatype EntityType = Herbivore | Predator | Grass | Rock | Tree

  function Value(t: EntityType): string
  {
    match t
    case Herbivore => "herbivore"
    case Predator => "predator"
    case Grass => "grass"
    case Rock => "rock"
    case Tree => "tree"
  }

  /** Types of the creatures that can move. */
  function Creatures(): seq<EntityType>
  {
    [Herbivore, Predator]
  }

  /** Types of the static obstacles. */
  function StaticObjects(): seq<EntityType>
  {
    [Rock, Tree]
  }

  /** Types of the consumable resources. */
  function Resources(): seq<EntityType>
  {
    [Grass]
  }

  predicate IsCreatureType(t: EntityType)
  {
    t in Creatures()
  }

  /** The three categories are pairwise disjoint and together cover every entity type. */
  lemma CategoriesPartitionTypes()
    ensures forall t :: !(t in Creatures() && t in StaticObjects())
    ensures forall t :: !(t in Creatures() && t in Resources())
    ensures forall t :: !(t in StaticObjects() && t in Resources())
    ensures forall t :: t in Creatures() || t in StaticObjects() || t in Resources()
  {
    forall t: EntityType ensures t in Creatures() || t in StaticObjects() || t in Resources() {
      match t
      case Herbivore => assert Creatures()[0] == t;
      case Predator => assert Creatures()[1] == t;
      case Grass => assert Resources()[0] == t;
      case Rock => assert StaticObjects()[0] == t;
      case Tree => assert StaticObjects()[1] == t;
    }
  }

  /** `@unique`: no two members of EntityType carry the same value. */
  lemma {:induction false} EntityValuesUnique(a: EntityType, b: EntityType)
    ensures Value(a) == Value(b) ==> a == b
  {
    if Value(a) == Value(b) {
      // the five values already differ in their first character
      assert Value(a)[0] == Value(b)[0];
    }
  }

  /** The four movement directions. */
  datatype Direction = Up | Down | Left | Right

  /** The (dx, dy) value each Direction member carries; y grows downwards. */
  function Offset(d: Direction): (int, int)
  {
    match d
    case Up => (0, -1)
    case Down => (0, 1)
    case Left => (-1, 0)
    case Right => (1, 0)
  }

  /** The neighbour enumeration order, which decides every tie-break of the path finder. */
  function MovementDirections(): seq<Direction>
  {
    [Up, Down, Left, Right]
  }

  function Abs(n: int): nat
  {
    if n < 0 then -n else n
  }

  /** Every offset is a unit cardinal step, and `@unique` holds: distinct members, distinct offsets. */
  lemma OffsetsAreDistinctUnitSteps()
    ensures forall d :: Abs(Offset(d).0) + Abs(Offset(d).1) == 1
    ensures forall d, e :: Offset(d) == Offset(e) ==> d == e
    ensures forall d :: d in MovementDirections()
    ensures |MovementDirections()| == 4
  {
    forall d: Direction ensures d in MovementDirections() {
      match d
      case Up => assert MovementDirections()[0] == d;
      case Down => assert MovementDirections()[1] == d;
      case Left => assert MovementDirections()[2] == d;
      case Right => assert MovementDirections()[3] == d;
    }
  }
}
