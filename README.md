# Predator/prey grid simulation: the turn engine in Dafny

This project models the turn engine of a grid simulation with herbivores, predators, grass, rocks and trees.

The board is a sparse dictionary from coordinates to entities on a fixed width × height grid. It keeps Python's insertion order, because every phase iterates over a snapshot of it.

Each creature acts on an adjacent target if it can. Otherwise it walks along a breadth-first shortest path towards its movement targets, and failing that it steps onto a random empty neighbour. Herbivores seek grass. Predators seek herbivores and walk towards the empty cells next to them.

A turn has three phases in fixed order:

1. move/act over a snapshot;
2. hunger over a snapshot;
3. grass regrowth in a column scan.

A population phase runs once before the first turn. The simulation driver keeps a turn counter and stop flag, runs turns while herbivores and predators both remain, and picks the end message.

Module layout, one module per source file or concern:

- `Enums` (enums.dfy) and `Coordinates` (coordinate.dfy): the value types.
- `World` (map.dfy): the board, a class `Grid` whose `cells` map and key `order` the methods update in place.
- `Pathfinding` (bfs.dfy): the breadth-first search, proved to return a shortest path.
- `Entities` (entities.dfy): the static entities as values, and creatures as objects of class `Creature`. A creature's `hp` is changed in place and is seen through every snapshot.
- `Behaviour` (creature.dfy) and `Species` (species.dfy): a creature's turn and its two kinds.
- `EatAction`, `AttackAction`: the two interactions.
- `MoveCreatures`, `ApplyHunger`, `SpawnGrass`, `PopulateMap`: the phases.
- `EntityFactory`: object creation.
- `Simulations` (simulation.dfy): the driver.
- `Config`: the integral settings of config.py.
- `Util`: shared sequence helpers.

The board invariant `World.Sound` holds before and after every phase. It says every key is on the board, every entity is well formed, and no creature stands on two cells.

Randomness is treated as follows:

- `randint` and `choice` become an arbitrary choice (`:|`), and every contract holds for every choice.
- `random()` in the grass phase becomes an oracle `draw`, one number per cell.

## Model

| member | source | states |
|---|---|---|
| Enums.CategoriesPartitionTypes | utils/enums.py:14-27 | creatures, static objects and resources are pairwise disjoint and together cover all five entity types |
| Enums.EntityValuesUnique | utils/enums.py:4-12 | `@unique`: two entity types with the same value are the same type |
| Enums.OffsetsAreDistinctUnitSteps | utils/enums.py:29-41 | every direction offset is a unit cardinal step; different directions have different offsets; the movement list holds all four directions |
| Coordinates.EqualsIsValueEquality | world/coordinate.py:7-15 | `__eq__` holds exactly for a coordinate object with the same x and y, never for another object, and agrees with `__hash__` |
| Coordinates.ShowRoundTrip | world/coordinate.py:17-18 | the string form "(x, y)" parses back to the same coordinate, negative parts included |
| Coordinates.IntStringRoundTrip | world/coordinate.py:17-18 | the decimal rendering of an int parses back to it and contains no comma |
| World.Grid.constructor | world/map.py:13-16 | a new board has the given size and no entities |
| World.Grid.AddEntity | world/map.py:18-20 | `c` holds `e` afterwards and every other cell is unchanged; no bounds or occupancy check; a new key is appended to the order, an existing one keeps its place |
| World.Grid.RemoveEntity | world/map.py:22-24 | returns the previous occupant or None; afterwards `c` is empty, no other cell changes, and `c` leaves the order |
| World.Grid.GetEntity | world/map.py:26-28 | None exactly when the cell is not a key; otherwise the entity stored there |
| World.Grid.CoordsByType | world/map.py:30-38 | a coordinate is listed exactly when its cell holds the type, and none twice |
| World.Grid.EntitiesByType | world/map.py:40-46 | one entity per coordinate of the type, in the same order; each is the entity at that coordinate and has the type |
| World.Grid.Items | world/map.py:48-53 | one entry per key, in dictionary order, pairing the key with its entity |
| World.Grid.CreaturesCount | world/map.py:55-59 | the herbivore and predator counts; each is positive exactly when some cell holds that type |
| World.Grid.IsValidCoord | world/map.py:61-63 | true exactly for a coordinate inside the board |
| World.Grid.IsCellEmpty | world/map.py:65-67 | true exactly when the coordinate is not a key |
| World.MovedCells | world/map.py:81-100 | an empty source changes nothing; otherwise the destination holds the moved entity, the source is empty unless it is the destination, and all other cells are unchanged, so an occupant of the destination is lost |
| World.Grid.MoveEntity | world/map.py:81-100 | returns false exactly when the source is empty; the new cells and order are the `MovedCells`/`MovedOrder` result |
| World.MovedCellsSound | world/map.py:96-99 | a move onto an in-bounds cell keeps the board invariant and adds no creature |
| World.RemovedCellsSound | world/map.py:22-24 | popping a key keeps the board invariant and adds no creature |
| World.NeighborsUnfold | world/map.py:112-118 | the neighbour list is the in-bounds cells up, down, left and right of `c`, in that order |
| World.NeighborsAreAdjacentCells | world/map.py:102-118 | at most four neighbours, no duplicates, and exactly the in-bounds cells at Manhattan distance 1 |
| World.Grid.GetNeighborsCells | world/map.py:102-118 | the direction loop returns exactly the neighbour list above |
| World.CoordsOfType | world/map.py:30-38 | a coordinate is listed exactly when it is a key whose entity has the type; each is listed once |
| World.ValuesMatchCoords | world/map.py:40-46 | the entity list of a type is the entities at the coordinate list of that type, entry by entry, so both counts agree |
| World.Entries | world/map.py:48-53 | the snapshot lists every key in dictionary order with its entity; as a value it is unaffected by later mutation |
| World.Grid.FindRandomEmptyCell | world/map.py:69-79 | a returned cell is in bounds and empty; on a full board the search fails; on an empty board of positive size it succeeds |
| Pathfinding.RestorePath | pathfinding/bfs.py:26-34 | following `came_from` back from a discovered cell and reversing gives a walk from the start to that cell, one step per search level |
| Pathfinding.Expand | pathfinding/bfs.py:36-45 | dequeuing a cell and scanning its neighbours keeps the search invariant (every discovered cell has a `came_from` chain of its search level back to the start, the queue is in level order, and every step out of a dequeued cell leads to a discovered cell); the discovered set only grows, and when nothing new is discovered the queue just loses its head |
| Pathfinding.FoundIsShortest | pathfinding/bfs.py:23-34 | the first dequeued target other than the start yields a path to a target of length at least 2, without repeated cells, and no longer than any other such walk |
| Pathfinding.Unreachable | pathfinding/bfs.py:23-46 | when the queue runs dry, no walk of steppable cells leads from the start to a target other than the start |
| Pathfinding.FindNearestTargetPath | pathfinding/bfs.py:8-46 | a returned path starts at the start, steps between in-bounds 4-neighbours onto empty or target cells, ends at a target other than the start, has no repeated cells and is a shortest such walk; None exactly when no such walk exists; the board is not modified |
| Entities.Healed | entities/base/creature.py:124-127 | the healed value is `hp + amount` capped at `maxHp`; it never decreases for a non-negative amount from at most full health |
| Entities.Creature.TakeDamage | entities/base/creature.py:120-122 | hit points drop by exactly the amount, with no clamp |
| Entities.Creature.RestoreHp | entities/base/creature.py:124-131 | hit points become the `Healed` value |
| Entities.Creature.Herbivore | entities/herbivore.py:18-24 | a new herbivore is at full health with the configured hit points and speed, and has no attack power |
| Entities.Creature.Predator | entities/predator.py:18-25 | a new predator is at full health with the configured hit points, speed and attack power |
| Entities.Creature.TargetType | entities/herbivore.py:26-28 | grass for a herbivore; herbivores for a predator, as at entities/predator.py:27-29 |
| Entities.Creature.IsAlive | entities/base/creature.py:116-118 | alive exactly when hit points are positive |
| Entities.TargetTypeIsOtherKind | entities/predator.py:27-29 | herbivores target grass and predators target herbivores, so no creature targets its own kind |
| Behaviour.FirstHoldingSpec | entities/base/creature.py:54-65 | the neighbour scan finds nothing exactly when no neighbour holds the type, and otherwise the first neighbour in direction order that does |
| Behaviour.FindNearbyEntity | entities/base/creature.py:54-65 | the loop with early return computes that first holder |
| Behaviour.TryMove | entities/base/creature.py:86-101 | succeeds exactly when the destination is empty and then performs the move; it reports success even when the start was empty; a failure changes nothing |
| Behaviour.TryMoveIntended | entities/base/creature.py:86-101 | the evidently intended try-move: success exactly when the start holds an entity and the destination is empty, and then the move is made; otherwise nothing changes |
| Behaviour.VacatedStartReportsMove | entities/base/creature.py:86-95 | as written, a walk reported as a move from an empty start left the board exactly as it was |
| Behaviour.MakeRandomMove | entities/base/creature.py:103-114 | with an empty neighbour, moves onto one of them; with none, the board is unchanged |
| Behaviour.WalkReach | entities/base/creature.py:78-80 | the cell `k` steps along a path is at most `k` away from the start and on the board |
| Behaviour.MoveTowardsTargets | entities/base/creature.py:67-84 | without targets no path is sought; with targets a path is found exactly when some walk to a target exists, and it is a shortest one of at least two cells; if the cell `min(speed, len - 1)` steps along it is empty the creature moves exactly there; any move goes to a previously empty in-bounds cell at most `speed` away, along the path or to a neighbour, and changes the board as `move_entity` does; a creature that stays had no empty neighbour and the board is unchanged |
| Behaviour.Walk | entities/base/creature.py:38-39 | the walk above towards the movement targets of the creature's kind on the current board; the board invariant is kept and no creature appears |
| Behaviour.MakeMove | entities/base/creature.py:26-39 | acts exactly when the first neighbour holding the target type accepts the action, which on a sound board it always does; an action pops the target (always for a meal, for an attack when the victim dies) or leaves the board as it was, with the action's hit-point effect: the eater heals by the grass amount, or the victim loses the attack power and a killer heals by the kill bonus; otherwise the creature walks towards its kind's movement targets on the board it started from, as above, and no hit points change; the board invariant is kept and no creature appears |
| Behaviour.AttacksAreRaisingTurns | actions/turn/attack_action.py:6-26 | on a sound board a predator's turn is an attack exactly when its neighbour scan finds a herbivore, which is exactly when `make_move` reaches the attack's `isinstance` test |
| Species.EmptyAmong | entities/base/creature.py:107-111 | a cell is listed exactly when it is one of the given neighbours and empty |
| Species.StalkingCellsSpec | entities/predator.py:41-52 | the stalking cells are exactly the empty cells 4-adjacent to some herbivore, each listed once and on the board; with no herbivores there are none |
| Species.StalkingTargets | entities/predator.py:37-54 | the nested loops produce the stalking cells in herbivore order, then direction order, keeping first occurrences |
| Species.MovementTargets | entities/herbivore.py:36-40 | a herbivore's targets are exactly the grass coordinates in dictionary order; a predator's are its stalking cells |
| Species.CanActOnTargetType | entities/base/creature.py:30-36 | on a sound board a creature can act on a cell exactly when it holds the creature's target type |
| Species.PerformAction | entities/herbivore.py:30-34 | a herbivore eats and a predator attacks; success exactly when the action's test accepts the target cell; on success the target is popped or the board is unchanged, a herbivore heals by the grass amount and a predator's victim loses its attack power; on failure board and hit points are unchanged |
| EatAction.Execute | entities/actions/eat_action.py:13-34 | fails and changes nothing on an empty cell or the wrong type; on success the target entry is popped and the eater heals by the grass amount, capped at its maximum |
| AttackAction.Execute | actions/turn/attack_action.py:13-46 | fails and changes nothing unless the target is a creature of the attacker's target type; otherwise the victim, never the attacker itself, loses exactly the attack power; a victim at hp ≤ 0 is popped and the attacker heals by the kill bonus, capped, when its attack power is positive; a survivor stays and the attacker's hp is unchanged; no other creature is touched |
| MoveCreatures.CreatureEntries | actions/turn/move_creatures.py:17-18 | the creature entries of a snapshot are exactly its entries holding creatures |
| MoveCreatures.Execute | actions/turn/move_creatures.py:11-19 | one turn per creature entry of the pre-phase snapshot, in snapshot order, each with that entry's coordinate and creature; non-creature entries and creatures that arrive during the phase get none; the boards run from the pre-phase board to the post-phase board, and each turn changes the board left by the previous one as `make_move` does from its recorded coordinate; the hit points of the snapshot's creatures run from their values before the phase, turn by turn as `TurnHp` says, to their current values, and an attack pops its victim exactly when it leaves it at hp ≤ 0; the board invariant is kept and no creature appears |
| MoveCreatures.TurnHp | actions/turn/attack_action.py:28-45 | the creatures tracked stay the same; a turn that does not act changes no hit points, and one that acts changes only the mover's and its victim's |
| MoveCreatures.TakeTurn | actions/turn/move_creatures.py:19 | one `make_move` of the phase: the board changes as `make_move` says, the tracked creatures' hit points become the `TurnHp` values, and an attack pops its victim exactly when it kills it; the board invariant is kept and no creature appears |
| MoveCreatures.MoveEntry | actions/turn/move_creatures.py:17-19 | one snapshot entry: a creature entry adds its turn, its board step and its hit-point step to the phase record, any other entry adds nothing; the current hit points stay those last recorded |
| MoveCreatures.ActsOnFound | entities/base/creature.py:30-36 | a turn whose first neighbour holding the target type can be acted on acts on it, and a meal or a kill pops exactly that cell |
| MoveCreatures.DeadHerbivoreStillEats | actions/turn/move_creatures.py:17-19 | as written: on a 3 × 2 board with a predator at (1, 0), a herbivore at (0, 0) and grass at (0, 1), where the herbivore has no more hit points than the predator's attack power, the predator's attack leaves it at hp ≤ 0 and pops it, yet the herbivore still takes the second turn from (0, 0), eats the grass and leaves the predator alone on the board |
| MoveCreatures.ExecuteIntended | actions/turn/move_creatures.py:11-19 | the evidently intended phase: a snapshot entry takes a turn exactly when its creature still stands at its coordinate, and the turn changes the board as `make_move` says and the hit points as `TurnHp` says, an attack popping its victim exactly when it kills it; a skipped entry leaves board and hit points unchanged; the hit points run from their values before the phase to their current values; the board invariant is kept and no creature appears |
| ApplyHunger.SnapshotCreaturesDistinct | actions/turn/apply_hunger.py:15-17 | no creature occupies two entries of the snapshot |
| ApplyHunger.HungerReachesAll | actions/turn/apply_hunger.py:19-21 | once every snapshot creature has lost the damage, every creature on the board has |
| ApplyHunger.Execute | actions/turn/apply_hunger.py:13-27 | as written: every creature on the board loses exactly the hunger damage, once, and the board is unchanged, creatures without positive hit points included |
| ApplyHunger.StarveEntry | actions/turn/apply_hunger.py:19-27 | one entry of the intended phase: its creature loses the damage and is popped exactly when its hit points are no longer positive, the key order losing exactly that key; no other creature is touched |
| ApplyHunger.ExecuteIntended | actions/turn/apply_hunger.py:22-27 | the intended phase: every creature loses the damage once, exactly the creatures then at hp ≤ 0 leave the board, every other cell keeps its entity, and the remaining keys keep their order |
| SpawnGrass.ScanOrder | actions/turn/spawn_grass.py:24-25 | the scan visits exactly the in-bounds cells, x outer and y inner |
| SpawnGrass.ScanSpec | actions/turn/spawn_grass.py:24-34 | occupied cells keep their entity; exactly the visited empty cells whose draw is below the rate gain an entity, and it is grass; exactly those keys are appended to the order |
| SpawnGrass.ScanSound | actions/turn/spawn_grass.py:26-34 | the scan keeps the board invariant and the set of creatures |
| SpawnGrass.FullRateFillsBoard | actions/turn/spawn_grass.py:15-34 | with draws in [0, 1) and a rate of at least 1, every in-bounds cell is occupied afterwards and every empty one became grass |
| SpawnGrass.ZeroRateKeepsBoard | actions/turn/spawn_grass.py:15-34 | with a rate of at most 0, the board and its order are unchanged |
| SpawnGrass.AddGrass | actions/turn/spawn_grass.py:30-34 | a factory-made grass entity is put at the cell |
| SpawnGrass.SpawnColumn | actions/turn/spawn_grass.py:25-34 | the inner loop performs the scan of one column |
| SpawnGrass.Execute | actions/turn/spawn_grass.py:20-37 | the nested loops perform the scan over the whole board with the configured regrowth rate |
| PopulateMap.EntitiesToPlace | actions/init/populate_map.py:18-24 | five entries, in the order grass, rock, tree, herbivore, predator |
| PopulateMap.AddedCellSound | actions/init/populate_map.py:40-41 | a new well-formed entity on an empty in-bounds cell keeps the board invariant |
| PopulateMap.PlaceOne | actions/init/populate_map.py:36-41 | a successful search puts a new entity of the type on a cell that was empty and appends it to the order; a failed one changes nothing; on a full board the search fails and on an empty board of positive size it succeeds |
| PopulateMap.PlaceEntities | actions/init/populate_map.py:28-41 | exactly `max(count, 0)` entities of the type are placed unless a search failed, and a search fails only on a board that is not empty; each lands on a previously empty in-bounds cell and is appended to the order; no earlier entity moves or is overwritten; on a full board nothing is placed, on an empty board of positive size at least one entity is placed for a positive count; new creatures are fresh |
| PopulateMap.Execute | actions/init/populate_map.py:12-26 | the five placements run in list order; each places only its type, at most its count and its whole count unless its search failed; a placement's search fails only short of its count, and only on a board with no cells or one holding an entity from before the phase or from this or an earlier placement; the keys are appended placement by placement; every earlier entity stays and no other cell gains one |
| EntityFactory.RegistryCoversAllTypes | entities/entity_factory.py:13-19 | every entity type is registered, so the ValueError cannot occur |
| EntityFactory.CreateEntity | entities/entity_factory.py:26-38 | an entity is returned exactly for a registered type; it is well formed and has that type; a creature is a fresh object at full health and a static entity is the bare tag |
| Simulations.EndMessageFor | simulation.py:153-166 | "Predators won" exactly with no herbivores (checked first); "Herbivores survived" exactly with herbivores but no predators; "Simulation completed." exactly when both remain |
| Simulations.PresentWhenListed | simulation.py:145-151 | the entity list of a type is non-empty exactly when some cell holds that type |
| Simulations.RunningIffBothPresent | simulation.py:138-151 | the simulation runs exactly when some cell holds a herbivore and some cell holds a predator |
| Simulations.EndMessageNamesWinner | simulation.py:153-166 | once one side is gone, the message is not "Simulation completed."; it is "Predators won" exactly when no herbivore is left |
| Simulations.Simulation.constructor | simulation.py:23-33 | population is the one init phase; the turn phases are move, hunger, grass, in that order; turn 0, neither stopped nor paused |
| Simulations.Simulation.Stop | simulation.py:75-77 | afterwards the simulation is stopped and no longer running |
| Simulations.Simulation.Counts | simulation.py:145-150 | the board's herbivore and predator counts; each is positive exactly when some cell holds that type |
| Simulations.Simulation.IsSimulationRunning | simulation.py:138-151 | true exactly when herbivores and predators are both on the board |
| Simulations.Simulation.IsRunning | simulation.py:134-136 | true exactly when the simulation is not stopped and both sides are on the board |
| Simulations.Simulation.EndMessage | simulation.py:153-166 | "Simulation completed." exactly when the simulation is running; "Predators won" exactly when no herbivore is left |
| Simulations.Simulation.RunInitActions | simulation.py:43-44 | the population phase runs once, with the effect `PopulateMap.Execute` states; the board invariant is kept and the turn count is unchanged |
| Simulations.Simulation.NextTurn | simulation.py:59-73 | the turn count goes up by exactly one and the flags are unchanged; the move phase takes one turn per snapshot creature, each changing the board as `make_move` says and the hit points, from those before the turn, as `TurnHp` says; every creature left after it loses exactly the hunger damage against its hit points at the end of the move phase, every creature that left the board keeps those, and the board stays; the grass scan with this turn's draws then yields the new board; the board invariant holds and no creature joins |
| Simulations.Simulation.RunSimulationLoop | simulation.py:102-111 | the record starts at the pre-loop board and ends at the current one; every turn started on a board holding both sides and took it to the next board of the record as `NextTurn` does; the turn count grows by the number of turns; an exit before the draws run out means it is no longer running |
| Simulations.Simulation.StartSimulation | simulation.py:35-57 | the population phase takes the starting board to the first board of the run record, then the run loop proceeds as above; the closing message is the stop notice after a stop and otherwise the end message |

## Behaviour kept as written

`Map.move_entity` overwrites an occupied destination, and the occupant is lost (`World.MovedCells`). Every call in the core comes after an emptiness check, so no entity is lost in a turn.

## Left out

- Logging (logging/logger.py and the log calls in every action): the turn logic never reads the log. The movement methods return the destination they would log, and `MakeMove` returns what the turn came to.
- Rendering, the console menus, main.py, the turn delay, step mode and the pause menu with its KeyboardInterrupt handling: console I/O and user interaction.
- Simulations.Simulation.RunSimulationLoop: runs one turn per element of `draws`, so a run is bounded by the draws supplied, where the source loops until the simulation stops running.
- Simulations.Simulation.RunSimulationLoop: its record `Ran` keeps each turn's boards but not its hit points; the hit points of a single turn are stated by `NextTurn`.
- Pathfinding.FindNearestTargetPath: the contract promises a shortest path, not which of several equally short paths the UP, DOWN, LEFT, RIGHT order selects. The body does follow that order.
- World.Grid.FindRandomEmptyCell: the search may draw any sequence of in-bounds cells, because uniform `randint` draws are not modelled. It therefore promises success only on an empty board of positive size, not whenever some cell is empty. PopulateMap.PlaceOne and PopulateMap.PlaceEntities inherit this bound.
- Behaviour.MakeRandomMove: with an empty neighbour it always moves, but onto any empty neighbour; it does not promise that `choice` picks among them uniformly.
- The grass phase's `random()` is an oracle giving one number per cell. A cell is drawn for at most once per scan, so this is all the phase reads.
- The A* path finder and the path-finder base class are outside this model: creatures always call the breadth-first search. The factory's path-finder table is left out too, because the constructors accept no argument and the fallback builds every entity without one.
- `calculate_entity_counts` (float percentages of the board size): the grass, rock and tree counts are parameters of the population phase.
- entities/actions/attack_action.py: an unimported duplicate of the attack action.
- Entity symbols, the config symbols and the rendering settings: display only. Hit points are floats in config.py, but every value is integral, so they are integers here.
- Python's integer hash value: `__hash__` is modelled as the (x, y) pair it hashes.
- The board size (`map_width`, `map_height` in config.py) is a parameter of `World.Grid`'s constructor rather than a setting, so any size is covered.

## Findings

The code below departs from its own evident intent. Each row has a member that models the code as written and one that models the intended behaviour. The simulation driver composes the phases as written wherever the code runs: the move phase `MoveCreatures.Execute`, the hunger phase `ApplyHunger.Execute` and `Behaviour.TryMove`. The attack as written cannot run, because it raises, so the driver uses the intended `AttackAction.Execute`.

| source | as written | input that shows it | evidently intended | confidence | as-written member | corrected member |
|---|---|---|---|---|---|---|
| actions/turn/move_creatures.py:17-19 | every creature entry of the snapshot takes its turn, whether or not it is still on the board | 3 × 2 board, keys in the order predator at (1, 0), herbivore at (0, 0), grass at (0, 1); the predator's attack kills the herbivore, which then still eats the grass from (0, 0) | an entry takes its turn only while its creature still stands at its coordinate | not executed | MoveCreatures.DeadHerbivoreStillEats | MoveCreatures.ExecuteIntended |
| entities/base/creature.py:90-95 | `_try_move` reports success whenever the destination is empty | a move whose start cell is empty: `move_entity` does nothing, yet the move is reported and the random move is skipped | success only when the start holds an entity and the destination is empty | not executed | Behaviour.VacatedStartReportsMove | Behaviour.TryMoveIntended |
| actions/turn/attack_action.py:6-23 | `isinstance(target_entity, Creature)` uses a name imported only under `TYPE_CHECKING`, so the test raises `NameError` | any predator with a herbivore as a neighbour: its turn reaches the test | the target must be a creature of the attacker's target type | not executed | Behaviour.AttacksAreRaisingTurns | AttackAction.Execute |
| actions/turn/apply_hunger.py:22-27 | `if not entity.is_alive:` tests the bound method without calling it; a bound method is always true, so the removal branch never runs | a creature at 5 hit points: hunger takes it to 0 and it stays on the board | the removal branch, which pops the entry, runs for creatures at hp ≤ 0 | not executed | ApplyHunger.Execute | ApplyHunger.ExecuteIntended |

The removal branch in apply_hunger.py also reads `config.death_symbol`, which config.py does not define. So if the test were corrected alone, the branch would raise `AttributeError`. `ApplyHunger.ExecuteIntended` leaves the log line out.
