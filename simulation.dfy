/**
 * The simulation driver (simulation.py): the population phase once, then
 * turns of move, hunger and grass regrowth, until one side has no creature
 * left or the simulation is stopped. Rendering, the turn delay and the
 * console menus are outside the model; the random draws of each turn's
 * grass phase are a parameter.
 */
module Simulations {
  import opened Util
  import opened Enums
  import opened Coordinates
  import opened World
  import opened Entities
  import MoveCreatures
  import ApplyHunger
  import SpawnGrass
  import PopulateMap
  import Config

  /** The phases of `turn_actions`. */
  datatype TurnAction = MoveCreaturesAction | ApplyHungerAction | SpawnGrassAction

  /** The phases of `init_actions`. */
  datatype InitAction = PopulateMapAction

  /**
   * `_get_simulation_end_message` on the two counts: no herbivores is
   * checked first, then no predators; otherwise the run simply ended.
   */
  function EndMessageFor(herbivoreCount: nat, predatorCount: nat): (m: string)
    ensures m == "All herbivores were eaten. Predators won!" <==> herbivoreCount == 0
    ensures m == "All predators died. Herbivores survived!" <==> herbivoreCount > 0 && predatorCount == 0
    ensures m == "Simulation completed." <==> herbivoreCount > 0 && predatorCount > 0
  {
    if herbivoreCount == 0 then "All herbivores were eaten. Predators won!"
    else if predatorCount == 0 then "All predators died. Herbivores survived!"
    else "Simulation completed."
  }

  /** There are entities of type `t` among the keys `ks` exactly when the entity list of that type is not empty. */
  lemma PresentWhenListed(ks: seq<Coord>, cells: map<Coord, Entity>, t: EntityType)
    requires forall k | k in ks :: k in cells
    ensures |ValuesOfType(ks, cells, t)| > 0 <==> exists k | k in ks :: HoldsType(cells, k, t)
  {
    ValuesMatchCoords(ks, cells, t);
    var coords := CoordsOfType(ks, cells, t);
    if |coords| > 0 {
      assert coords[0] in coords;
    }
  }

  /**
   * One turn from the board `b0` to the board `b1`: the move phase took
   * the turns `turns` over the snapshot of `b0`, stepping through `boards`
   * as `MoveCreatures.Stepped` records; the hunger phase left the board as
   * it was; and the grass phase scanned the board with the draws `draw`.
   */
  ghost predicate TurnOn(b0: MoveCreatures.Board, b1: MoveCreatures.Board, draw: Coord -> real, width: nat, height: nat,
                         turns: seq<MoveCreatures.Turn>, plans: seq<Option<seq<Coord>>>, boards: seq<MoveCreatures.Board>)
  {
    (forall k | k in b0.1 :: k in b0.0) &&
    MoveCreatures.Covers(turns, Entries(b0.1, b0.0)) &&
    MoveCreatures.Stepped(turns, plans, boards, width, height) && boards[0] == b0 &&
    b1 == SpawnGrass.Scan(boards[|turns|], SpawnGrass.ScanOrder(width, height), draw, Config.InitialGrassRegrowthRate)
  }

  /** Both sides are on the board `b`: what `_is_simulation_running` asks of it. */
  predicate BothSidesOn(b: MoveCreatures.Board)
  {
    (forall k | k in b.1 :: k in b.0) &&
    |ValuesOfType(b.1, b.0, Herbivore)| > 0 && |ValuesOfType(b.1, b.0, Predator)| > 0
  }

  /**
   * How far `next_turn` has got after `i` of its three phases, from the
   * board `b0` to the current board `b`: after the move phase the board is
   * the last of `boards`, the hunger phase leaves it so, and the grass phase
   * completes `TurnOn`.
   */
  ghost predicate PhasesDone(i: int, b0: MoveCreatures.Board, b: MoveCreatures.Board, draw: Coord -> real,
                             width: nat, height: nat, turns: seq<MoveCreatures.Turn>, plans: seq<Option<seq<Coord>>>,
                             boards: seq<MoveCreatures.Board>)
  {
    (forall k | k in b0.1 :: k in b0.0) &&
    (i == 0 ==> b == b0) &&
    (i >= 1 ==> MoveCreatures.Covers(turns, Entries(b0.1, b0.0)) &&
                MoveCreatures.Stepped(turns, plans, boards, width, height) && boards[0] == b0) &&
    (1 <= i <= 2 ==> b == boards[|turns|]) &&
    (i == 3 ==> TurnOn(b0, b, draw, width, height, turns, plans, boards))
  }

  /** Every creature of `cs` has lost `loss` against its hit points in `hp`. */
  predicate LostAgainst(cs: set<Creature>, hp: map<Creature, int>, loss: int)
    reads cs
  {
    forall c | c in cs :: c in hp && c.hp == hp[c] - loss
  }

  /** Every creature of `cs0` that is not in `cs` still has its hit points in `hp`. */
  predicate KeptAgainst(cs0: set<Creature>, cs: set<Creature>, hp: map<Creature, int>)
    reads cs0
  {
    forall c | c in cs0 && c !in cs :: c in hp && c.hp == hp[c]
  }

  /**
   * The record of the first `n` turns of the run loop: `history[m]` is the
   * board before turn `m`, both sides were on it, and turn `m` took it to
   * `history[m + 1]`.
   */
  ghost predicate Ran(history: seq<MoveCreatures.Board>, moves: seq<seq<MoveCreatures.Turn>>,
                      plans: seq<seq<Option<seq<Coord>>>>, boards: seq<seq<MoveCreatures.Board>>,
                      draws: seq<Coord -> real>, n: nat, width: nat, height: nat)
  {
    n <= |draws| && |history| == n + 1 && |moves| == n && |plans| == n && |boards| == n &&
    forall m | 0 <= m < n ::
      BothSidesOn(history[m]) &&
      TurnOn(history[m], history[m + 1], draws[m], width, height, moves[m], plans[m], boards[m])
  }

  /** One more turn extends the record. */
  lemma RanSnoc(history: seq<MoveCreatures.Board>, moves: seq<seq<MoveCreatures.Turn>>,
                plans: seq<seq<Option<seq<Coord>>>>, boards: seq<seq<MoveCreatures.Board>>,
                draws: seq<Coord -> real>, n: nat, width: nat, height: nat,
                b: MoveCreatures.Board, ts: seq<MoveCreatures.Turn>, ps: seq<Option<seq<Coord>>>,
                bs: seq<MoveCreatures.Board>)
    requires Ran(history, moves, plans, boards, draws, n, width, height) && n < |draws|
    requires BothSidesOn(history[n]) && TurnOn(history[n], b, draws[n], width, height, ts, ps, bs)
    ensures Ran(history + [b], moves + [ts], plans + [ps], boards + [bs], draws, n + 1, width, height)
  {
    var h1, m1, p1, b1 := history + [b], moves + [ts], plans + [ps], boards + [bs];
    forall m | 0 <= m < n + 1
      ensures BothSidesOn(h1[m]) && TurnOn(h1[m], h1[m + 1], draws[m], width, height, m1[m], p1[m], b1[m])
    {
      if m < n {
        assert h1[m] == history[m] && h1[m + 1] == history[m + 1] && m1[m] == moves[m] && p1[m] == plans[m] &&
               b1[m] == boards[m];
      }
    }
  }

  class Simulation {
    const worldMap: Grid
    const initActions: seq<InitAction>
    const turnActions: seq<TurnAction>
    var turnCount: int
    var isStopped: bool
    var isPaused: bool

    /** The phases are those `__init__` sets up, and the board keeps its placement invariant between turns. */
    ghost predicate Valid()
      reads this, worldMap
    {
      initActions == [PopulateMapAction] &&
      turnActions == [MoveCreaturesAction, ApplyHungerAction, SpawnGrassAction] &&
      worldMap.Valid() && Sound(worldMap.cells, worldMap.width, worldMap.height)
    }

    /** `__init__`: population as the one init phase; move, hunger, grass in that order; turn 0. */
    constructor (worldMap: Grid)
      ensures this.worldMap == worldMap
      ensures initActions == [PopulateMapAction]
      ensures turnActions == [MoveCreaturesAction, ApplyHungerAction, SpawnGrassAction]
      ensures turnCount == 0 && !isStopped && !isPaused
      ensures Valid() <==> worldMap.Valid() && Sound(worldMap.cells, worldMap.width, worldMap.height)
    {
      this.worldMap := worldMap;
      initActions := [PopulateMapAction];
      turnActions := [MoveCreaturesAction, ApplyHungerAction, SpawnGrassAction];
      turnCount := 0;
      isStopped := false;
      isPaused := false;
    }

    /** `(herbivore_count, predator_count)`: the sizes of the two entity lists, as the board's own count. */
    function Counts(): (r: (nat, nat))
      reads this, worldMap
      requires worldMap.Valid()
      ensures r == worldMap.CreaturesCount()
      ensures r.0 > 0 <==> exists k | k in worldMap.cells :: HoldsType(worldMap.cells, k, Herbivore)
      ensures r.1 > 0 <==> exists k | k in worldMap.cells :: HoldsType(worldMap.cells, k, Predator)
    {
      (|worldMap.EntitiesByType(Herbivore)|, |worldMap.EntitiesByType(Predator)|)
    }

    /** `_is_simulation_running`: both herbivores and predators remain. */
    predicate IsSimulationRunning(): (running: bool)
      reads this, worldMap
      requires worldMap.Valid()
      ensures running <==> BothSidesOn((worldMap.cells, worldMap.order))
    {
      Counts().0 > 0 && Counts().1 > 0
    }

    /** `_is_running`: not stopped, and both sides remain. */
    predicate IsRunning(): (running: bool)
      reads this, worldMap
      requires worldMap.Valid()
      ensures running <==> !isStopped && BothSidesOn((worldMap.cells, worldMap.order))
    {
      !isStopped && IsSimulationRunning()
    }

    /** `_get_simulation_end_message`: it says "Simulation completed." exactly while both sides remain. */
    function EndMessage(): (m: string)
      reads this, worldMap
      requires worldMap.Valid()
      ensures m == "Simulation completed." <==> IsSimulationRunning()
      ensures m == "All herbivores were eaten. Predators won!" <==> Counts().0 == 0
    {
      EndMessageFor(Counts().0, Counts().1)
    }

    /** `stop`: the simulation no longer runs. */
    method Stop()
      requires worldMap.Valid()
      modifies this
      ensures isStopped && !IsRunning()
      ensures turnCount == old(turnCount) && isPaused == old(isPaused)
    {
      isStopped := true;
    }

    /**
     * The first part of `start_simulation`: every init phase once, with the
     * grass, rock and tree counts the source derives from the board size.
     * The one init phase is the population phase, so the board ends up as
     * `PopulateMap.Populated` describes.
     */
    method RunInitActions(grassCount: int, rockCount: int, treeCount: int)
      returns (ghost added: seq<seq<Coord>>, ghost failed: seq<bool>)
      requires Valid()
      modifies worldMap
      ensures Valid()
      ensures PopulateMap.Populated(old(worldMap.cells), old(worldMap.order), worldMap.cells, worldMap.order,
                                    added, failed, grassCount, rockCount, treeCount,
                                    worldMap.width, worldMap.height)
      ensures turnCount == old(turnCount)
      ensures forall c | c in worldMap.Creatures() :: c in old(worldMap.Creatures()) || fresh(c)
    {
      added, failed := [], [];
      for i := 0 to |initActions|
        invariant Valid()
        invariant i == 0 ==> worldMap.cells == old(worldMap.cells) && worldMap.order == old(worldMap.order)
        invariant i == 1 ==> PopulateMap.Populated(old(worldMap.cells), old(worldMap.order), worldMap.cells, worldMap.order,
                                                   added, failed, grassCount, rockCount, treeCount,
                                                   worldMap.width, worldMap.height)
        invariant forall c | c in worldMap.Creatures() :: c in old(worldMap.Creatures()) || fresh(c)
      {
        match initActions[i]
        case PopulateMapAction =>
          added, failed := PopulateMap.Execute(worldMap, grassCount, rockCount, treeCount);
      }
    }

    /**
     * `next_turn` without delay and rendering: the turn counter goes up by
     * one and the turn phases run in list order, the grass phase with the
     * draws `draw`. The board goes through the move phase (`turns`, `plans`,
     * `boards`) and then the grass phase, as `TurnOn` records. The hit
     * points go from those before the turn through the move phase as
     * `MoveCreatures.HpStepped` records (`hps`); every creature on the board
     * after the move phase then loses the hunger damage against its hit
     * points at that point. No creature joins the board during a turn.
     */
    method NextTurn(draw: Coord -> real)
      returns (ghost turns: seq<MoveCreatures.Turn>, ghost plans: seq<Option<seq<Coord>>>,
               ghost boards: seq<MoveCreatures.Board>, ghost hps: seq<map<Creature, int>>)
      requires Valid()
      modifies this, worldMap, worldMap.Creatures()
      ensures Valid()
      ensures turnCount == old(turnCount) + 1
      ensures isStopped == old(isStopped) && isPaused == old(isPaused)
      ensures worldMap.Creatures() <= old(worldMap.Creatures())
      ensures TurnOn((old(worldMap.cells), old(worldMap.order)), (worldMap.cells, worldMap.order), draw,
                     worldMap.width, worldMap.height, turns, plans, boards)
      ensures MoveCreatures.HpStepped(turns, boards, hps)
      ensures hps[0] == old(HpOf(worldMap.Creatures()))
      ensures LostAgainst(CreaturesOf(boards[|turns|].0), hps[|turns|], Config.HungerHpLossPerTurn)
      ensures KeptAgainst(old(worldMap.Creatures()), CreaturesOf(boards[|turns|].0), hps[|turns|])
    {
      turnCount := turnCount + 1;
      ghost var creatures0 := worldMap.Creatures();
      ghost var b0 := (worldMap.cells, worldMap.order);
      ghost var hp0 := HpOf(creatures0);
      assert hp0 == old(HpOf(worldMap.Creatures()));
      turns, plans, boards, hps := [], [], [b0], [hp0];
      for i := 0 to |turnActions|
        invariant Valid()
        invariant turnCount == old(turnCount) + 1
        invariant isStopped == old(isStopped) && isPaused == old(isPaused)
        invariant worldMap.Creatures() <= creatures0
        invariant PhasesDone(i, b0, (worldMap.cells, worldMap.order), draw, worldMap.width, worldMap.height,
                             turns, plans, boards)
        invariant MoveCreatures.HpStepped(turns, boards, hps) && hps[0] == hp0
        invariant i == 0 ==> HpOf(worldMap.Creatures()) == hp0
        invariant i >= 1 ==> LostAgainst(CreaturesOf(boards[|turns|].0), hps[|turns|],
                                         if i == 1 then 0 else Config.HungerHpLossPerTurn)
        invariant i >= 1 ==> KeptAgainst(creatures0, CreaturesOf(boards[|turns|].0), hps[|turns|])
      {
        match turnActions[i]
        case MoveCreaturesAction =>
          turns, plans, boards, hps := MovePhase(hp0);
        case ApplyHungerAction =>
          HungerPhase(boards[|turns|], hps[|turns|], creatures0);
        case SpawnGrassAction =>
          GrassPhase(draw, CreaturesOf(boards[|turns|].0), hps[|turns|], creatures0);
      }
    }

    /** The move phase of a turn from the hit points `hp0`, with the record `hps` of those it goes through. */
    method MovePhase(ghost hp0: map<Creature, int>)
      returns (turns: seq<MoveCreatures.Turn>, ghost plans: seq<Option<seq<Coord>>>, ghost boards: seq<MoveCreatures.Board>,
               ghost hps: seq<map<Creature, int>>)
      requires Valid() && HpOf(worldMap.Creatures()) == hp0
      modifies worldMap, worldMap.Creatures()
      ensures Valid()
      ensures worldMap.Creatures() <= old(worldMap.Creatures())
      ensures MoveCreatures.Covers(turns, Entries(old(worldMap.order), old(worldMap.cells)))
      ensures MoveCreatures.Stepped(turns, plans, boards, worldMap.width, worldMap.height)
      ensures boards[0] == (old(worldMap.cells), old(worldMap.order)) && boards[|turns|] == (worldMap.cells, worldMap.order)
      ensures MoveCreatures.HpStepped(turns, boards, hps)
      ensures hps[0] == hp0
      ensures LostAgainst(CreaturesOf(worldMap.cells), hps[|turns|], 0)
      ensures KeptAgainst(old(worldMap.Creatures()), CreaturesOf(worldMap.cells), hps[|turns|])
    {
      turns, plans, boards, hps := MoveCreatures.Execute(worldMap);
    }

    /** The hunger phase of a turn: the board `b` stays, its creatures lose the hunger damage against `hp`. */
    method HungerPhase(ghost b: MoveCreatures.Board, ghost hp: map<Creature, int>, ghost cs0: set<Creature>)
      requires Valid() && b == (worldMap.cells, worldMap.order) && LostAgainst(CreaturesOf(b.0), hp, 0)
      requires KeptAgainst(cs0, CreaturesOf(b.0), hp)
      modifies worldMap.Creatures()
      ensures Valid() && b == (worldMap.cells, worldMap.order)
      ensures LostAgainst(CreaturesOf(b.0), hp, Config.HungerHpLossPerTurn)
      ensures KeptAgainst(cs0, CreaturesOf(b.0), hp)
    {
      ApplyHunger.Execute(worldMap);
    }

    /**
     * The grass phase of a turn, with the draws `draw`: the creatures on the
     * board stay the same, and so do the hit points, so the loss of the
     * creatures `cs` against `hp` still stands afterwards.
     */
    method GrassPhase(draw: Coord -> real, ghost cs: set<Creature>, ghost hp: map<Creature, int>, ghost cs0: set<Creature>)
      requires Valid() && LostAgainst(cs, hp, Config.HungerHpLossPerTurn) && KeptAgainst(cs0, cs, hp)
      modifies worldMap
      ensures Valid() && worldMap.Creatures() == old(worldMap.Creatures())
      ensures LostAgainst(cs, hp, Config.HungerHpLossPerTurn) && KeptAgainst(cs0, cs, hp)
      ensures (worldMap.cells, worldMap.order) ==
        SpawnGrass.Scan(old((worldMap.cells, worldMap.order)), SpawnGrass.ScanOrder(worldMap.width, worldMap.height),
                        draw, Config.InitialGrassRegrowthRate)
    {
      ghost var board := (worldMap.cells, worldMap.order);
      SpawnGrass.Execute(worldMap, draw);
      SpawnGrass.ScanOrderIsBoard(worldMap.width, worldMap.height);
      SpawnGrass.ScanSound(board, SpawnGrass.ScanOrder(worldMap.width, worldMap.height),
                           draw, Config.InitialGrassRegrowthRate, worldMap.width, worldMap.height);
    }

    /**
     * `_run_simulation_loop` without the pause handling: turns run while the
     * simulation is running, turn `n` with the draws `draws[n]`; when the
     * draws run out the loop ends early. `history[n]` is the board before
     * turn `n`, and `Ran` records that both sides were on it and that turn
     * `n` took it to `history[n + 1]`, with `moves[n]`, `plans[n]` and
     * `boards[n]`. On an exit before the draws run out the simulation has
     * stopped running.
     */
    method RunSimulationLoop(draws: seq<Coord -> real>)
      returns (turns: nat, ghost history: seq<MoveCreatures.Board>, ghost moves: seq<seq<MoveCreatures.Turn>>,
               ghost plans: seq<seq<Option<seq<Coord>>>>, ghost boards: seq<seq<MoveCreatures.Board>>)
      requires Valid()
      modifies this, worldMap, worldMap.Creatures()
      ensures Valid()
      ensures turns <= |draws| && turnCount == old(turnCount) + turns
      ensures isStopped == old(isStopped) && isPaused == old(isPaused)
      ensures turns < |draws| ==> !IsRunning()
      ensures Ran(history, moves, plans, boards, draws, turns, worldMap.width, worldMap.height)
      ensures history[0] == (old(worldMap.cells), old(worldMap.order))
      ensures history[turns] == (worldMap.cells, worldMap.order)
    {
      turns := 0;
      history, moves, plans, boards := [(worldMap.cells, worldMap.order)], [], [], [];
      while turns < |draws| && IsRunning()
        invariant Valid() && turnCount == old(turnCount) + turns
        invariant isStopped == old(isStopped) && isPaused == old(isPaused)
        invariant worldMap.Creatures() <= old(worldMap.Creatures())
        invariant Ran(history, moves, plans, boards, draws, turns, worldMap.width, worldMap.height)
        invariant history[0] == (old(worldMap.cells), old(worldMap.order))
        invariant history[turns] == (worldMap.cells, worldMap.order)
      {
        assert BothSidesOn(history[turns]);
        var ts, ps, bs, _ := NextTurn(draws[turns]);
        RanSnoc(history, moves, plans, boards, draws, turns, worldMap.width, worldMap.height,
                (worldMap.cells, worldMap.order), ts, ps, bs);
        history, moves, plans, boards := history + [(worldMap.cells, worldMap.order)], moves + [ts], plans + [ps], boards + [bs];
        turns := turns + 1;
      }
    }

    /**
     * `start_simulation` in automatic mode: the init phases, then the run
     * loop, then the closing message, which reports a stop by the user and
     * otherwise the end message. The run starts from the populated board
     * `history[0]` and goes on as `RunSimulationLoop` records.
     */
    method StartSimulation(grassCount: int, rockCount: int, treeCount: int, draws: seq<Coord -> real>)
      returns (turns: nat, message: string, ghost added: seq<seq<Coord>>, ghost failed: seq<bool>,
               ghost history: seq<MoveCreatures.Board>, ghost moves: seq<seq<MoveCreatures.Turn>>,
               ghost plans: seq<seq<Option<seq<Coord>>>>, ghost boards: seq<seq<MoveCreatures.Board>>)
      requires Valid()
      modifies this, worldMap, worldMap.Creatures()
      ensures Valid()
      ensures turns <= |draws| && turnCount == old(turnCount) + turns
      ensures turns < |draws| ==> !IsRunning()
      ensures message == if isStopped then "Simulation stopped by user." else EndMessage()
      ensures Ran(history, moves, plans, boards, draws, turns, worldMap.width, worldMap.height)
      ensures PopulateMap.Populated(old(worldMap.cells), old(worldMap.order), history[0].0, history[0].1,
                                    added, failed, grassCount, rockCount, treeCount,
                                    worldMap.width, worldMap.height)
      ensures history[turns] == (worldMap.cells, worldMap.order)
    {
      added, failed := RunInitActions(grassCount, rockCount, treeCount);
      turns, history, moves, plans, boards := RunSimulationLoop(draws);
      if isStopped {
        message := "Simulation stopped by user.";
      } else {
        message := EndMessage();
      }
    }
  }

  /**
   * The running test reads the board: the simulation runs exactly when some
   * cell holds a herbivore and some cell holds a predator.
   */
  lemma RunningIffBothPresent(sim: Simulation)
    requires sim.worldMap.Valid()
    ensures sim.IsSimulationRunning() <==>
      (exists k | k in sim.worldMap.cells :: HoldsType(sim.worldMap.cells, k, Herbivore)) &&
      (exists k | k in sim.worldMap.cells :: HoldsType(sim.worldMap.cells, k, Predator))
  {
    PresentWhenListed(sim.worldMap.order, sim.worldMap.cells, Herbivore);
    PresentWhenListed(sim.worldMap.order, sim.worldMap.cells, Predator);
  }

  /** Once one side is gone, the end message names the winner, herbivores' loss first. */
  lemma EndMessageNamesWinner(sim: Simulation)
    requires sim.worldMap.Valid() && !sim.IsSimulationRunning()
    ensures sim.EndMessage() != "Simulation completed."
    ensures sim.EndMessage() == "All herbivores were eaten. Predators won!" <==>
      !exists k | k in sim.worldMap.cells :: HoldsType(sim.worldMap.cells, k, Herbivore)
  {
    RunningIffBothPresent(sim);
    PresentWhenListed(sim.worldMap.order, sim.worldMap.cells, Herbivore);
  }
}
