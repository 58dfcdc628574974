/**
 * The move phase (actions/turn/move_creatures.py): every creature of a
 * snapshot of the board, taken before anyone moves, makes its move in
 * snapshot order.
 */
module MoveCreatures {
  import opened Util
  import opened Enums
  import opened Coordinates
  import opened World
  import opened Entities
  import opened Behaviour
  import opened Species
  import AttackAction

  /** The creature entries of a snapshot, in snapshot order. */
  function CreatureEntries(entries: seq<(Coord, Entity)>): (r: seq<(Coord, Entity)>)
    ensures forall e | e in r :: e in entries && e.1.Animal?
    ensures forall e | e in entries && e.1.Animal? :: e in r
    ensures |r| <= |entries|
  {
    if entries == [] then []
    else
      var init, last := entries[..|entries| - 1], entries[|entries| - 1];
      assert entries == init + [last];
      CreatureEntries(init) + (if last.1.Animal? then [last] else [])
  }

  lemma CreatureEntriesSnoc(entries: seq<(Coord, Entity)>, i: nat)
    requires i < |entries|
    ensures CreatureEntries(entries[..i + 1]) ==
      CreatureEntries(entries[..i]) + (if entries[i].1.Animal? then [entries[i]] else [])
  {
    assert entries[..i + 1][..i] == entries[..i];
  }

  /** One line of the phase: the snapshot coordinate, the creature and what its move came to. */
  datatype Turn = Turn(coord: Coord, creature: Creature, outcome: MoveOutcome)

  /** The turns match the creature entries of `entries` one for one, in order. */
  predicate Covers(turns: seq<Turn>, entries: seq<(Coord, Entity)>)
  {
    var cs := CreatureEntries(entries);
    |turns| == |cs| &&
    forall k | 0 <= k < |turns| :: turns[k].coord == cs[k].0 && turns[k].creature == cs[k].1.creature
  }

  /** Covering one more entry: a creature entry adds one turn, any other entry none. */
  lemma CoversSnoc(turns: seq<Turn>, entries: seq<(Coord, Entity)>, i: nat, outcome: MoveOutcome)
    requires i < |entries| && Covers(turns, entries[..i])
    ensures entries[i].1.Animal? ==>
      Covers(turns + [Turn(entries[i].0, entries[i].1.creature, outcome)], entries[..i + 1])
    ensures !entries[i].1.Animal? ==> Covers(turns, entries[..i + 1])
  {
    CreatureEntriesSnoc(entries, i);
  }

  /** A board: the cells and the key order. */
  type Board = (map<Coord, Entity>, seq<Coord>)

  /**
   * The record of a move phase: `boards[k]` is the board before turn `k`
   * and `boards[k + 1]` the board after it. Each turn changed the board as
   * `make_move` by its creature from its coordinate does, `plans[k]` being
   * that turn's path search.
   */
  ghost predicate Stepped(turns: seq<Turn>, plans: seq<Option<seq<Coord>>>, boards: seq<Board>, width: int, height: int)
  {
    |plans| == |turns| && |boards| == |turns| + 1 &&
    forall k | 0 <= k < |turns| ::
      MoveEffect(turns[k].creature.kind, turns[k].creature.speed, turns[k].coord, width, height,
                 boards[k].0, boards[k].1, turns[k].outcome, plans[k], boards[k + 1].0, boards[k + 1].1)
  }

  /** Recording one more turn, from the last board of the record to `board`. */
  lemma SteppedSnoc(turns: seq<Turn>, plans: seq<Option<seq<Coord>>>, boards: seq<Board>, width: int, height: int,
                    turn: Turn, plan: Option<seq<Coord>>, board: Board)
    requires Stepped(turns, plans, boards, width, height)
    requires MoveEffect(turn.creature.kind, turn.creature.speed, turn.coord, width, height,
                        boards[|turns|].0, boards[|turns|].1, turn.outcome, plan, board.0, board.1)
    ensures Stepped(turns + [turn], plans + [plan], boards + [board], width, height)
  {
    var ts, ps, bs := turns + [turn], plans + [plan], boards + [board];
    forall k | 0 <= k < |ts|
      ensures MoveEffect(ts[k].creature.kind, ts[k].creature.speed, ts[k].coord, width, height,
                         bs[k].0, bs[k].1, ts[k].outcome, ps[k], bs[k + 1].0, bs[k + 1].1)
    {
      if k < |turns| {
        assert ts[k] == turns[k] && ps[k] == plans[k] && bs[k] == boards[k] && bs[k + 1] == boards[k + 1];
      }
    }
  }

  /**
   * The hit points after a turn by `self` that came to `outcome` from a
   * board with cells `cells0`, given the hit points `hp` before it. A turn
   * that did not act changes none. A herbivore's meal heals it by the grass
   * amount. A predator's attack takes its attack power from the victim and,
   * when that leaves the victim at hp <= 0 and the attack power is
   * positive, heals the predator by the kill bonus. Only the creatures in
   * `hp` are tracked.
   */
  function TurnHp(self: Creature, outcome: MoveOutcome, cells0: map<Coord, Entity>, hp: map<Creature, int>)
    : (r: map<Creature, int>)
    ensures r.Keys == hp.Keys
    ensures !outcome.Acted? ==> r == hp
    ensures forall c | c in hp && c != self && !(Victim(self, outcome, cells0) == Some(c)) :: r[c] == hp[c]
  {
    if !outcome.Acted? || self !in hp then hp
    else if self.kind == EntityType.Herbivore then hp[self := Healed(hp[self], self.maxHp, Config.GrassRecoveryHp)]
    else match Victim(self, outcome, cells0)
      case Some(victim) =>
        if victim !in hp then hp
        else
          var left := hp[victim] - self.attackPower;
          if left <= 0 && self.attackPower > 0
          then hp[victim := left][self := Healed(hp[self], self.maxHp, Config.PredatorHpGainOnKill)]
          else hp[victim := left]
      case None => hp
  }

  /** The creature a predator's attack hits: the animal at the attacked cell. */
  function Victim(self: Creature, outcome: MoveOutcome, cells0: map<Coord, Entity>): (r: Option<Creature>)
    ensures r.Some? <==> outcome.Acted? && self.kind != EntityType.Herbivore &&
                         outcome.target in cells0 && cells0[outcome.target].Animal?
    ensures r.Some? ==> r.value == cells0[outcome.target].creature
  {
    if outcome.Acted? && self.kind != EntityType.Herbivore && outcome.target in cells0 && cells0[outcome.target].Animal?
    then Some(cells0[outcome.target].creature)
    else None
  }

  /**
   * A predator's attack has a victim, and it pops the victim's cell exactly
   * when it leaves the victim at hp <= 0 (`hp1` being the hit points after
   * the turn).
   */
  ghost predicate KillPops(turn: Turn, cells0: map<Coord, Entity>, cells1: map<Coord, Entity>, hp1: map<Creature, int>)
  {
    turn.outcome.Acted? && turn.creature.kind != EntityType.Herbivore ==>
      match Victim(turn.creature, turn.outcome, cells0)
      case Some(victim) => victim in hp1 && (turn.outcome.target !in cells1 <==> hp1[victim] <= 0)
      case None => false
  }

  /**
   * The hit-point record of a move phase: `hps[k]` are the hit points
   * before turn `k` and `hps[k + 1]` those after it, as `TurnHp` says, and
   * an attack popped its victim exactly when it killed it.
   */
  ghost predicate HpStepped(turns: seq<Turn>, boards: seq<Board>, hps: seq<map<Creature, int>>)
  {
    |boards| == |turns| + 1 && |hps| == |turns| + 1 &&
    forall k | 0 <= k < |turns| ::
      hps[k + 1] == TurnHp(turns[k].creature, turns[k].outcome, boards[k].0, hps[k]) &&
      KillPops(turns[k], boards[k].0, boards[k + 1].0, hps[k + 1])
  }

  /** Recording the hit points after one more turn. */
  lemma HpSteppedSnoc(turns: seq<Turn>, boards: seq<Board>, hps: seq<map<Creature, int>>,
                      turn: Turn, board: Board, hp: map<Creature, int>)
    requires HpStepped(turns, boards, hps)
    requires hp == TurnHp(turn.creature, turn.outcome, boards[|turns|].0, hps[|turns|])
    requires KillPops(turn, boards[|turns|].0, board.0, hp)
    ensures HpStepped(turns + [turn], boards + [board], hps + [hp])
  {
    var ts, bs, hs := turns + [turn], boards + [board], hps + [hp];
    forall k | 0 <= k < |ts|
      ensures hs[k + 1] == TurnHp(ts[k].creature, ts[k].outcome, bs[k].0, hs[k]) &&
              KillPops(ts[k], bs[k].0, bs[k + 1].0, hs[k + 1])
    {
      if k < |turns| {
        assert ts[k] == turns[k] && bs[k] == boards[k] && bs[k + 1] == boards[k + 1] && hs[k] == hps[k] && hs[k + 1] == hps[k + 1];
      }
    }
  }

  /**
   * One turn of the phase: `make_move` by `self` from `start`. The hit
   * points `hp0`, which hold `self` and every creature on the board, are the
   * current ones before the turn; the new hit points `hp1` are those
   * `TurnHp` gives, and an attack pops its victim exactly when it kills it.
   */
  method TakeTurn(self: Creature, start: Coord, grid: Grid, ghost hp0: map<Creature, int>)
    returns (outcome: MoveOutcome, ghost plan: Option<seq<Coord>>, ghost hp1: map<Creature, int>)
    requires grid.Valid() && self.Valid() && Sound(grid.cells, grid.width, grid.height)
    requires self in hp0 && forall c | c in grid.Creatures() :: c in hp0
    requires forall c | c in hp0 :: c.hp == hp0[c]
    modifies grid, self, grid.Creatures()
    ensures grid.Valid() && Sound(grid.cells, grid.width, grid.height)
    ensures grid.Creatures() <= old(grid.Creatures())
    ensures MoveEffect(self.kind, self.speed, start, grid.width, grid.height, old(grid.cells), old(grid.order),
                       outcome, plan, grid.cells, grid.order)
    ensures hp1 == TurnHp(self, outcome, old(grid.cells), hp0)
    ensures forall c | c in hp1 :: c.hp == hp1[c]
    ensures KillPops(Turn(start, self, outcome), old(grid.cells), grid.cells, hp1)
  {
    ghost var cells0, creatures0 := grid.cells, grid.Creatures();
    outcome, plan := MakeMove(self, start, grid);
    hp1 := TurnHp(self, outcome, cells0, hp0);
    ghost var victim := Victim(self, outcome, cells0);
    if victim.Some? {
      assert victim.value in creatures0;
    }
    forall c | c in hp0
      ensures c.hp == hp1[c]
    {
      if c != self && !(victim == Some(c)) && c !in creatures0 {
        assert c.hp == old(c.hp);
      }
    }
  }

  /**
   * `MoveCreaturesAction.execute`. The snapshot is the list of entries
   * before the phase. Each creature entry gets exactly one `make_move`, from
   * its snapshot coordinate and in snapshot order, whether or not the
   * creature is still on the board; other entries, and entities added
   * during the phase, get none. The boards in between are recorded; each
   * turn changed the board as `MoveEffect` says. The hit points of the
   * creatures of the snapshot are recorded too: `hps[0]` holds them before
   * the phase, each turn changed them as `TurnHp` says, and the last entry
   * holds them after the phase. The placement invariant is kept and no
   * creature appears.
   */
  method Execute(grid: Grid)
    returns (turns: seq<Turn>, ghost plans: seq<Option<seq<Coord>>>, ghost boards: seq<Board>,
             ghost hps: seq<map<Creature, int>>)
    requires grid.Valid() && Sound(grid.cells, grid.width, grid.height)
    modifies grid, grid.Creatures()
    ensures grid.Valid() && Sound(grid.cells, grid.width, grid.height)
    ensures grid.Creatures() <= old(grid.Creatures())
    ensures Covers(turns, old(grid.Items()))
    ensures Stepped(turns, plans, boards, grid.width, grid.height)
    ensures boards[0] == (old(grid.cells), old(grid.order)) && boards[|turns|] == (grid.cells, grid.order)
    ensures HpStepped(turns, boards, hps)
    ensures hps[0] == old(HpOf(grid.Creatures()))
    ensures forall c | c in old(grid.Creatures()) :: c in hps[|turns|] && c.hp == hps[|turns|][c]
  {
    var entitiesWithCoords := grid.Items();
    ghost var creatures0 := grid.Creatures();
    ghost var hp0 := HpOf(creatures0);
    turns, plans, boards, hps := [], [], [(grid.cells, grid.order)], [hp0];
    for i := 0 to |entitiesWithCoords|
      invariant grid.Valid() && Sound(grid.cells, grid.width, grid.height)
      invariant grid.Creatures() <= creatures0
      invariant PhaseRecord(entitiesWithCoords, i, turns, plans, boards, hps, grid.width, grid.height)
      invariant boards[0] == (old(grid.cells), old(grid.order)) && boards[|turns|] == (grid.cells, grid.order)
      invariant hps[0] == hp0 && hps[|turns|].Keys == creatures0
      invariant forall c | c in hps[|turns|] :: c.hp == hps[|turns|][c]
    {
      if entitiesWithCoords[i].1.Animal? {
        assert entitiesWithCoords[i].0 == old(grid.order)[i] && entitiesWithCoords[i].0 in old(grid.cells);
        assert entitiesWithCoords[i].1.creature in creatures0;
      }
      turns, plans, boards, hps := MoveEntry(grid, entitiesWithCoords, i, turns, plans, boards, hps);
    }
    assert entitiesWithCoords[..|entitiesWithCoords|] == entitiesWithCoords;
  }

  /** The three records of a move phase over the first `n` snapshot entries. */
  ghost predicate PhaseRecord(entries: seq<(Coord, Entity)>, n: nat, turns: seq<Turn>, plans: seq<Option<seq<Coord>>>,
                              boards: seq<Board>, hps: seq<map<Creature, int>>, width: int, height: int)
  {
    n <= |entries| && Covers(turns, entries[..n]) && Stepped(turns, plans, boards, width, height) &&
    HpStepped(turns, boards, hps)
  }

  /**
   * The loop body of `execute` for entry `i` of the snapshot `entries`: a
   * creature entry takes its turn and extends the records, any other entry
   * leaves them as they are.
   */
  method MoveEntry(grid: Grid, entries: seq<(Coord, Entity)>, i: nat, turns: seq<Turn>,
                   ghost plans: seq<Option<seq<Coord>>>, ghost boards: seq<Board>, ghost hps: seq<map<Creature, int>>)
    returns (turns1: seq<Turn>, ghost plans1: seq<Option<seq<Coord>>>, ghost boards1: seq<Board>,
             ghost hps1: seq<map<Creature, int>>)
    requires grid.Valid() && Sound(grid.cells, grid.width, grid.height)
    requires i < |entries| && PhaseRecord(entries, i, turns, plans, boards, hps, grid.width, grid.height)
    requires boards[|turns|] == (grid.cells, grid.order)
    requires entries[i].1.Animal? ==> entries[i].1.creature.Valid() && entries[i].1.creature in hps[|turns|]
    requires forall c | c in grid.Creatures() :: c in hps[|turns|]
    requires forall c | c in hps[|turns|] :: c.hp == hps[|turns|][c]
    modifies grid, grid.Creatures(), if entries[i].1.Animal? then {entries[i].1.creature} else {}
    ensures grid.Valid() && Sound(grid.cells, grid.width, grid.height)
    ensures grid.Creatures() <= old(grid.Creatures())
    ensures PhaseRecord(entries, i + 1, turns1, plans1, boards1, hps1, grid.width, grid.height)
    ensures boards1[0] == boards[0] && boards1[|turns1|] == (grid.cells, grid.order)
    ensures hps1[0] == hps[0] && hps1[|turns1|].Keys == hps[|turns|].Keys
    ensures forall c | c in hps1[|turns1|] :: c.hp == hps1[|turns1|][c]
  {
    var (coord, entity) := entries[i];
    if entity.Animal? {
      var outcome, plan, hp := TakeTurn(entity.creature, coord, grid, hps[|turns|]);
      HpSteppedSnoc(turns, boards, hps, Turn(coord, entity.creature, outcome), (grid.cells, grid.order), hp);
      CoversSnoc(turns, entries, i, outcome);
      SteppedSnoc(turns, plans, boards, grid.width, grid.height, Turn(coord, entity.creature, outcome), plan,
                  (grid.cells, grid.order));
      turns1, plans1, boards1 := turns + [Turn(coord, entity.creature, outcome)], plans + [plan],
                                 boards + [(grid.cells, grid.order)];
      hps1 := hps + [hp];
      assert boards1[|turns1|] == (grid.cells, grid.order) && hps1[|turns1|] == hp;
    } else {
      CoversSnoc(turns, entries, i, Stayed);
      turns1, plans1, boards1, hps1 := turns, plans, boards, hps;
    }
  }

  /** The example's snapshot lists the predator, then the herbivore, as its creature entries. */
  lemma ExampleCreatureEntries(p: Creature, h: Creature)
    ensures CreatureEntries(Entries([Coord(1, 0), Coord(0, 0), Coord(0, 1)], map[Coord(1, 0) := Animal(p), Coord(0, 0) := Animal(h), Coord(0, 1) := Static(Grass)])) ==
      [(Coord(1, 0), Animal(p)), (Coord(0, 0), Animal(h))]
  {
    var es := Entries([Coord(1, 0), Coord(0, 0), Coord(0, 1)], map[Coord(1, 0) := Animal(p), Coord(0, 0) := Animal(h), Coord(0, 1) := Static(Grass)]);
    assert es == [(Coord(1, 0), Animal(p)), (Coord(0, 0), Animal(h)), (Coord(0, 1), Static(Grass))];
    assert es[..2] == [(Coord(1, 0), Animal(p)), (Coord(0, 0), Animal(h))];
    assert es[..2][..1] == [(Coord(1, 0), Animal(p))];
  }

  /** When `c` is the only cell holding type `t` and `ns` lists it, `FirstHolding` finds `c`. */
  lemma FirstHoldingOnly(ns: seq<Coord>, cells: map<Coord, Entity>, t: EntityType, c: Coord)
    requires c in ns && HoldsType(cells, c, t)
    requires forall d | d in cells && d != c :: !HoldsType(cells, d, t)
    ensures FirstHolding(ns, cells, t) == Some(c)
  {
    var k :| 0 <= k < |ns| && ns[k] == c;
    FirstHoldingSpec(ns, cells, t);
  }

  /** An in-bounds cell at distance 1 is one of the neighbours. */
  lemma AdjacentIsNeighbor(c: Coord, v: Coord, width: int, height: int)
    requires InBounds(v, width, height) && Distance(c, v) == 1
    ensures v in Neighbors(c, width, height)
  {
    NeighborsAreAdjacentCells(c, width, height);
  }

  /** In the example, the predator's first neighbour holding a herbivore is (0, 0). */
  lemma ExamplePredatorFinds(p: Creature, h: Creature, width: int, height: int)
    requires width == 3 && height == 2
    requires p.kind == EntityType.Predator && h.kind == EntityType.Herbivore
    ensures FirstHolding(Neighbors(Coord(1, 0), width, height),
                         map[Coord(1, 0) := Animal(p), Coord(0, 0) := Animal(h), Coord(0, 1) := Static(Grass)],
                         EntityType.Herbivore) == Some(Coord(0, 0))
  {
    AdjacentIsNeighbor(Coord(1, 0), Coord(0, 0), width, height);
    var cells := map[Coord(1, 0) := Animal(p), Coord(0, 0) := Animal(h), Coord(0, 1) := Static(Grass)];
    assert cells.Keys == {Coord(1, 0), Coord(0, 0), Coord(0, 1)};
    FirstHoldingOnly(Neighbors(Coord(1, 0), width, height), cells, EntityType.Herbivore, Coord(0, 0));
  }

  /** Once the herbivore is gone, the first neighbour of (0, 0) holding grass is (0, 1). */
  lemma ExampleHerbivoreFinds(p: Creature, width: int, height: int)
    requires width == 3 && height == 2
    requires p.kind == EntityType.Predator
    ensures FirstHolding(Neighbors(Coord(0, 0), width, height), map[Coord(1, 0) := Animal(p), Coord(0, 1) := Static(Grass)], Grass)
         == Some(Coord(0, 1))
  {
    AdjacentIsNeighbor(Coord(0, 0), Coord(0, 1), width, height);
    FirstHoldingOnly(Neighbors(Coord(0, 0), width, height), map[Coord(1, 0) := Animal(p), Coord(0, 1) := Static(Grass)],
                     Grass, Coord(0, 1));
  }

  /** A turn that finds an adjacent target it can act on acts on it; a herbivore's meal, or a kill, pops it. */
  lemma ActsOnFound(kind: EntityType, speed: int, start: Coord, width: int, height: int,
                    cells0: map<Coord, Entity>, order0: seq<Coord>, outcome: MoveOutcome,
                    plan: Option<seq<Coord>>, cells1: map<Coord, Entity>, order1: seq<Coord>, t: Coord)
    requires MoveEffect(kind, speed, start, width, height, cells0, order0, outcome, plan, cells1, order1)
    requires FirstHolding(Neighbors(start, width, height), cells0, TargetOf(kind)) == Some(t)
    requires CanActOn(kind, cells0, t) && t in cells0
    ensures outcome == Acted(t)
    ensures kind == EntityType.Herbivore || t !in cells1 ==> cells1 == cells0 - {t}
  {
  }

  /** The example's first turn: the predator's attack empties (0, 0), so it killed the herbivore and popped it. */
  lemma ExamplePredatorTurn(p: Creature, h: Creature, width: int, height: int, outcome: MoveOutcome,
                            plan: Option<seq<Coord>>, b0: Board, b1: Board)
    requires width == 3 && height == 2
    requires p.kind == EntityType.Predator && h.kind == EntityType.Herbivore
    requires b0.0 == map[Coord(1, 0) := Animal(p), Coord(0, 0) := Animal(h), Coord(0, 1) := Static(Grass)]
    requires MoveEffect(p.kind, p.speed, Coord(1, 0), width, height, b0.0, b0.1, outcome, plan, b1.0, b1.1)
    requires Coord(0, 0) !in b1.0
    ensures b1.0 == map[Coord(1, 0) := Animal(p), Coord(0, 1) := Static(Grass)]
  {
    ExamplePredatorFinds(p, h, width, height);
    assert AttackAction.IsPrey(b0.0, Coord(0, 0), EntityType.Herbivore);
    ActsOnFound(p.kind, p.speed, Coord(1, 0), width, height, b0.0, b0.1, outcome, plan, b1.0, b1.1, Coord(0, 0));
    assert b0.0 - {Coord(0, 0)} == map[Coord(1, 0) := Animal(p), Coord(0, 1) := Static(Grass)];
  }

  /** The example's first turn is the predator's attack on the herbivore at (0, 0). */
  lemma ExamplePredatorActs(p: Creature, h: Creature, width: int, height: int, outcome: MoveOutcome,
                            plan: Option<seq<Coord>>, b0: Board, b1: Board)
    requires width == 3 && height == 2
    requires p.kind == EntityType.Predator && h.kind == EntityType.Herbivore
    requires b0.0 == map[Coord(1, 0) := Animal(p), Coord(0, 0) := Animal(h), Coord(0, 1) := Static(Grass)]
    requires MoveEffect(p.kind, p.speed, Coord(1, 0), width, height, b0.0, b0.1, outcome, plan, b1.0, b1.1)
    ensures outcome == Acted(Coord(0, 0))
  {
    ExamplePredatorFinds(p, h, width, height);
    assert AttackAction.IsPrey(b0.0, Coord(0, 0), EntityType.Herbivore);
    ActsOnFound(p.kind, p.speed, Coord(1, 0), width, height, b0.0, b0.1, outcome, plan, b1.0, b1.1, Coord(0, 0));
  }

  /** An attack on the herbivore at (0, 0) with at least its hit points as attack power kills it and pops it. */
  lemma ExamplePredatorKills(p: Creature, h: Creature, turn: Turn, b0: Board, b1: Board,
                             hp0: map<Creature, int>, hp1: map<Creature, int>)
    requires p.kind == EntityType.Predator && h.kind == EntityType.Herbivore
    requires b0.0 == map[Coord(1, 0) := Animal(p), Coord(0, 0) := Animal(h), Coord(0, 1) := Static(Grass)]
    requires turn.creature == p && turn.outcome == Acted(Coord(0, 0))
    requires hp1 == TurnHp(p, turn.outcome, b0.0, hp0) && KillPops(turn, b0.0, b1.0, hp1)
    requires p in hp0 && h in hp0 && hp0[h] <= p.attackPower
    ensures Coord(0, 0) !in b1.0 && hp1[h] <= 0
  {
    assert Victim(p, turn.outcome, b0.0) == Some(h);
  }

  /** The example's second turn: the herbivore listed at (0, 0) eats the grass at (0, 1). */
  lemma ExampleHerbivoreTurn(p: Creature, h: Creature, width: int, height: int, outcome: MoveOutcome,
                             plan: Option<seq<Coord>>, b1: Board, b2: Board)
    requires width == 3 && height == 2
    requires p.kind == EntityType.Predator && h.kind == EntityType.Herbivore
    requires b1.0 == map[Coord(1, 0) := Animal(p), Coord(0, 1) := Static(Grass)]
    requires MoveEffect(h.kind, h.speed, Coord(0, 0), width, height, b1.0, b1.1, outcome, plan, b2.0, b2.1)
    ensures outcome == Acted(Coord(0, 1)) && b2.0 == map[Coord(1, 0) := Animal(p)]
  {
    ExampleHerbivoreFinds(p, width, height);
    ActsOnFound(h.kind, h.speed, Coord(0, 0), width, height, b1.0, b1.1, outcome, plan, b2.0, b2.1, Coord(0, 1));
    assert b1.0 - {Coord(0, 1)} == map[Coord(1, 0) := Animal(p)];
  }

  /**
   * As written the phase does not ask whether a snapshot creature is still
   * on the board. On a 3 x 2 board holding a predator at (1, 0), a
   * herbivore at (0, 0) and grass at (0, 1), in that key order, the
   * predator attacks the herbivore first. When the herbivore has no more
   * hit points than the predator's attack power, that attack kills it; the
   * dead herbivore still takes its turn from (0, 0) and eats the grass,
   * leaving the predator alone on the board.
   */
  lemma DeadHerbivoreStillEats(p: Creature, h: Creature, width: int, height: int, turns: seq<Turn>,
                               plans: seq<Option<seq<Coord>>>, boards: seq<Board>, hps: seq<map<Creature, int>>)
    requires width == 3 && height == 2
    requires p.kind == EntityType.Predator && h.kind == EntityType.Herbivore
    requires Covers(turns, Entries([Coord(1, 0), Coord(0, 0), Coord(0, 1)],
                                   map[Coord(1, 0) := Animal(p), Coord(0, 0) := Animal(h), Coord(0, 1) := Static(Grass)]))
    requires Stepped(turns, plans, boards, width, height) && HpStepped(turns, boards, hps)
    requires boards[0] == (map[Coord(1, 0) := Animal(p), Coord(0, 0) := Animal(h), Coord(0, 1) := Static(Grass)],
                           [Coord(1, 0), Coord(0, 0), Coord(0, 1)])
    requires p in hps[0] && h in hps[0] && hps[0][h] <= p.attackPower
    ensures |turns| == 2 && turns[1].creature == h && turns[1].coord == Coord(0, 0)
    ensures Coord(0, 0) !in boards[1].0 && hps[1][h] <= 0
    ensures turns[1].outcome == Acted(Coord(0, 1)) && boards[2].0 == map[Coord(1, 0) := Animal(p)]
  {
    ExampleCreatureEntries(p, h);
    assert turns[0].creature == p && turns[0].coord == Coord(1, 0);
    assert MoveEffect(p.kind, p.speed, Coord(1, 0), width, height, boards[0].0, boards[0].1, turns[0].outcome, plans[0],
                      boards[1].0, boards[1].1);
    assert MoveEffect(h.kind, h.speed, Coord(0, 0), width, height, boards[1].0, boards[1].1, turns[1].outcome, plans[1],
                      boards[2].0, boards[2].1);
    ExamplePredatorActs(p, h, width, height, turns[0].outcome, plans[0], boards[0], boards[1]);
    assert hps[1] == TurnHp(p, turns[0].outcome, boards[0].0, hps[0]) && KillPops(turns[0], boards[0].0, boards[1].0, hps[1]);
    ExamplePredatorKills(p, h, turns[0], boards[0], boards[1], hps[0], hps[1]);
    ExamplePredatorTurn(p, h, width, height, turns[0].outcome, plans[0], boards[0], boards[1]);
    ExampleHerbivoreTurn(p, h, width, height, turns[1].outcome, plans[1], boards[1], boards[2]);
  }

  /** Entry `e` of a snapshot still stands where it was listed: its cell holds the same creature. */
  predicate StillThere(e: (Coord, Entity), cells: map<Coord, Entity>)
  {
    e.1.Animal? && e.0 in cells && cells[e.0] == e.1
  }

  /**
   * The record of the intended move phase over the first `n` snapshot
   * entries: `boards[i]` is the board and `hps[i]` are the hit points when
   * entry `i` is reached. The entry takes a turn (`outcomes[i]`) exactly
   * when its creature still stands at its coordinate on that board; the
   * turn changes the board as `MoveEffect` says and the hit points as
   * `TurnHp` says, and its attack pops its victim exactly when it kills it.
   * A skipped entry leaves board and hit points as they are.
   */
  ghost predicate LiveSteps(entries: seq<(Coord, Entity)>, n: nat, outcomes: seq<Option<MoveOutcome>>,
                            plans: seq<Option<seq<Coord>>>, boards: seq<Board>, hps: seq<map<Creature, int>>,
                            width: int, height: int)
  {
    n <= |entries| && |outcomes| == n && |plans| == n && |boards| == n + 1 && |hps| == n + 1 &&
    forall i | 0 <= i < n ::
      LiveStep(entries[i], outcomes[i], plans[i], boards[i], hps[i], boards[i + 1], hps[i + 1], width, height)
  }

  /** What reaching the entry `e` did, from the board `b0` and hit points `hp0` to `b1` and `hp1`. */
  ghost predicate LiveStep(e: (Coord, Entity), outcome: Option<MoveOutcome>, plan: Option<seq<Coord>>,
                           b0: Board, hp0: map<Creature, int>, b1: Board, hp1: map<Creature, int>, width: int, height: int)
  {
    (outcome.Some? <==> StillThere(e, b0.0)) &&
    (outcome.Some? ==>
       MoveEffect(e.1.creature.kind, e.1.creature.speed, e.0, width, height, b0.0, b0.1, outcome.value, plan, b1.0, b1.1) &&
       hp1 == TurnHp(e.1.creature, outcome.value, b0.0, hp0) &&
       KillPops(Turn(e.0, e.1.creature, outcome.value), b0.0, b1.0, hp1)) &&
    (outcome.None? ==> b1 == b0 && hp1 == hp0)
  }

  /** Reaching one more entry extends the record. */
  lemma LiveStepsSnoc(entries: seq<(Coord, Entity)>, n: nat, outcomes: seq<Option<MoveOutcome>>,
                      plans: seq<Option<seq<Coord>>>, boards: seq<Board>, hps: seq<map<Creature, int>>,
                      width: int, height: int,
                      outcome: Option<MoveOutcome>, plan: Option<seq<Coord>>, board: Board, hp: map<Creature, int>)
    requires LiveSteps(entries, n, outcomes, plans, boards, hps, width, height) && n < |entries|
    requires LiveStep(entries[n], outcome, plan, boards[n], hps[n], board, hp, width, height)
    ensures LiveSteps(entries, n + 1, outcomes + [outcome], plans + [plan], boards + [board], hps + [hp], width, height)
  {
    var os, ps, bs, hs := outcomes + [outcome], plans + [plan], boards + [board], hps + [hp];
    forall i | 0 <= i < n + 1
      ensures LiveStep(entries[i], os[i], ps[i], bs[i], hs[i], bs[i + 1], hs[i + 1], width, height)
    {
      if i < n {
        assert os[i] == outcomes[i] && ps[i] == plans[i] && bs[i] == boards[i] && bs[i + 1] == boards[i + 1];
        assert hs[i] == hps[i] && hs[i + 1] == hps[i + 1];
      }
    }
  }

  /**
   * The evidently intended move phase: an entry of the snapshot takes its
   * turn only if its creature still stands at its coordinate, so a creature
   * killed or displaced earlier in the phase does not move.
   */
  method ExecuteIntended(grid: Grid)
    returns (ghost outcomes: seq<Option<MoveOutcome>>, ghost plans: seq<Option<seq<Coord>>>, ghost boards: seq<Board>,
             ghost hps: seq<map<Creature, int>>)
    requires grid.Valid() && Sound(grid.cells, grid.width, grid.height)
    modifies grid, grid.Creatures()
    ensures grid.Valid() && Sound(grid.cells, grid.width, grid.height)
    ensures grid.Creatures() <= old(grid.Creatures())
    ensures LiveSteps(old(grid.Items()), |old(grid.Items())|, outcomes, plans, boards, hps, grid.width, grid.height)
    ensures boards[0] == (old(grid.cells), old(grid.order)) && boards[|outcomes|] == (grid.cells, grid.order)
    ensures hps[0] == old(HpOf(grid.Creatures()))
    ensures forall c | c in old(grid.Creatures()) :: c in hps[|outcomes|] && c.hp == hps[|outcomes|][c]
  {
    var entitiesWithCoords := grid.Items();
    ghost var creatures0 := grid.Creatures();
    outcomes, plans, boards, hps := [], [], [(grid.cells, grid.order)], [HpOf(creatures0)];
    for i := 0 to |entitiesWithCoords|
      invariant grid.Valid() && Sound(grid.cells, grid.width, grid.height)
      invariant grid.Creatures() <= creatures0
      invariant LiveSteps(entitiesWithCoords, i, outcomes, plans, boards, hps, grid.width, grid.height)
      invariant boards[0] == (old(grid.cells), old(grid.order)) && boards[i] == (grid.cells, grid.order)
      invariant hps[0] == old(HpOf(grid.Creatures())) && hps[i].Keys == creatures0
      invariant forall c | c in hps[i] :: c.hp == hps[i][c]
    {
      var (coord, entity) := entitiesWithCoords[i];
      if entity.Animal? && grid.GetEntity(coord) == Some(entity) {
        assert StillThere(entitiesWithCoords[i], grid.cells);
        assert grid.cells[coord].WellFormed() && entity.creature in grid.Creatures();
        var outcome, plan, hp := TakeTurn(entity.creature, coord, grid, hps[i]);
        LiveStepsSnoc(entitiesWithCoords, i, outcomes, plans, boards, hps, grid.width, grid.height,
                      Some(outcome), plan, (grid.cells, grid.order), hp);
        outcomes, plans, boards, hps := outcomes + [Some(outcome)], plans + [plan], boards + [(grid.cells, grid.order)],
                                        hps + [hp];
      } else {
        LiveStepsSnoc(entitiesWithCoords, i, outcomes, plans, boards, hps, grid.width, grid.height,
                      None, None, (grid.cells, grid.order), hps[i]);
        outcomes, plans, boards, hps := outcomes + [None], plans + [None], boards + [(grid.cells, grid.order)],
                                        hps + [hps[i]];
      }
    }
  }
}
