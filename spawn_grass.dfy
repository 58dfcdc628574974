/**
 * The grass phase (actions/turn/spawn_grass.py): the board is scanned
 * column by column (x outer, y inner) and every empty cell whose random
 * draw falls below the regrowth rate receives a new grass entity.
 *
 * `random()` is an oracle `draw` giving each cell the number in [0, 1) it
 * would draw this turn; a cell is only drawn for when it is empty, and the
 * scan visits each cell once, so one number per cell is all the phase reads.
 */
module SpawnGrass {
  import opened Util
  import opened Enums
  import opened Coordinates
  import opened World
  import opened Entities
  import Config
  import EntityFactory

  /** `_should_regrow_grass`: the draw for `c` is below `rate`. */
  predicate ShouldRegrowGrass(draw: Coord -> real, rate: real, c: Coord)
  {
    draw(c) < rate
  }

  /** Every draw lies in [0, 1), as `random()` promises. */
  ghost predicate UnitDraws(draw: Coord -> real)
  {
    forall c :: 0.0 <= draw(c) < 1.0
  }

  /** Column `x` with its first `h` cells, from y = 0 upwards. */
  function Column(x: int, h: nat): (r: seq<Coord>)
    ensures |r| == h
    ensures forall c :: c in r <==> c.x == x && 0 <= c.y < h
  {
    if h == 0 then [] else Column(x, h - 1) + [Coord(x, h - 1)]
  }

  /** The cells of the first `w` columns of a board of height `h`, in scan order. */
  function ScanOrder(w: nat, h: nat): (r: seq<Coord>)
    ensures forall c :: c in r <==> 0 <= c.x < w && 0 <= c.y < h
  {
    if w == 0 then [] else ScanOrder(w - 1, h) + Column(w - 1, h)
  }

  /** The scan visits exactly the cells of the board. */
  lemma ScanOrderIsBoard(w: nat, h: nat)
    ensures forall c :: c in ScanOrder(w, h) <==> InBounds(c, w, h)
  {
  }

  /** One visited cell: grass is added to it when it is empty and its draw is below `rate`. */
  function Visit(board: (map<Coord, Entity>, seq<Coord>), c: Coord, draw: Coord -> real, rate: real)
    : (map<Coord, Entity>, seq<Coord>)
  {
    if c !in board.0 && ShouldRegrowGrass(draw, rate, c) then
      (board.0[c := Static(Grass)], board.1 + [c])
    else board
  }

  /** The cells and their key order after visiting `ks` in order. */
  function Scan(board: (map<Coord, Entity>, seq<Coord>), ks: seq<Coord>, draw: Coord -> real, rate: real)
    : (map<Coord, Entity>, seq<Coord>)
  {
    if ks == [] then board else Visit(Scan(board, ks[..|ks| - 1], draw, rate), ks[|ks| - 1], draw, rate)
  }

  /** Scanning one more cell is visiting it after the rest. */
  lemma ScanSnoc(board: (map<Coord, Entity>, seq<Coord>), ks: seq<Coord>, c: Coord, draw: Coord -> real, rate: real)
    ensures Scan(board, ks + [c], draw, rate) == Visit(Scan(board, ks, draw, rate), c, draw, rate)
  {
    assert (ks + [c])[..|ks + [c]| - 1] == ks;
  }

  /**
   * What a scan does: it keeps every occupied cell as it was, fills exactly
   * the visited empty cells whose draw is below `rate`, with grass, and
   * appends exactly those keys to the order.
   */
  lemma {:induction false} ScanSpec(board: (map<Coord, Entity>, seq<Coord>), ks: seq<Coord>,
                                    draw: Coord -> real, rate: real)
    ensures forall c :: c in Scan(board, ks, draw, rate).0 <==>
      c in board.0 || (c in ks && ShouldRegrowGrass(draw, rate, c))
    ensures forall c | c in board.0 :: Scan(board, ks, draw, rate).0[c] == board.0[c]
    ensures forall c | c in Scan(board, ks, draw, rate).0 && c !in board.0 ::
      Scan(board, ks, draw, rate).0[c] == Static(Grass)
    ensures exists added: seq<Coord> :: (Scan(board, ks, draw, rate).1 == board.1 + added &&
      forall c :: c in added <==> c !in board.0 && c in Scan(board, ks, draw, rate).0)
  {
    if ks == [] {
      assert board.1 + [] == board.1;
    } else {
      var init := ks[..|ks| - 1];
      var c := ks[|ks| - 1];
      assert ks == init + [c];
      ScanSpec(board, init, draw, rate);
      var prev := Scan(board, init, draw, rate);
      var added :| prev.1 == board.1 + added &&
        forall k :: k in added <==> k !in board.0 && k in prev.0;
      if c !in prev.0 && ShouldRegrowGrass(draw, rate, c) {
        assert Scan(board, ks, draw, rate).1 == board.1 + (added + [c]);
      } else {
        assert Scan(board, ks, draw, rate).1 == board.1 + added;
      }
    }
  }

  /** A scan keeps the placement invariant: grass is static and every visited cell is on the board. */
  lemma {:induction false} ScanSound(board: (map<Coord, Entity>, seq<Coord>), ks: seq<Coord>,
                                     draw: Coord -> real, rate: real, width: int, height: int)
    requires Sound(board.0, width, height)
    requires forall c | c in ks :: InBounds(c, width, height)
    ensures Sound(Scan(board, ks, draw, rate).0, width, height)
    ensures CreaturesOf(Scan(board, ks, draw, rate).0) == CreaturesOf(board.0)
  {
    if ks != [] {
      var init := ks[..|ks| - 1];
      var c := ks[|ks| - 1];
      assert forall k | k in init :: k in ks;
      ScanSound(board, init, draw, rate, width, height);
      var prev := Scan(board, init, draw, rate);
      if c !in prev.0 && ShouldRegrowGrass(draw, rate, c) {
        var r := prev.0[c := Static(Grass)];
        assert forall k | k in r && r[k].Animal? :: k in prev.0 && r[k] == prev.0[k];
        assert CreaturesOf(r) == CreaturesOf(prev.0);
      }
    }
  }

  /** With a rate of at least 1, every empty cell of the board is covered with grass. */
  lemma FullRateFillsBoard(cells: map<Coord, Entity>, order: seq<Coord>, width: nat, height: nat,
                           draw: Coord -> real, rate: real)
    requires UnitDraws(draw) && rate >= 1.0
    ensures forall c | InBounds(c, width, height) ::
      c in Scan((cells, order), ScanOrder(width, height), draw, rate).0
    ensures forall c | InBounds(c, width, height) && c !in cells ::
      Scan((cells, order), ScanOrder(width, height), draw, rate).0[c] == Static(Grass)
  {
    ScanSpec((cells, order), ScanOrder(width, height), draw, rate);
    ScanOrderIsBoard(width, height);
  }

  /** With a rate of at most 0 nothing grows: the board and its order are unchanged. */
  lemma {:induction false} ZeroRateKeepsBoard(board: (map<Coord, Entity>, seq<Coord>), ks: seq<Coord>,
                                              draw: Coord -> real, rate: real)
    requires UnitDraws(draw) && rate <= 0.0
    ensures Scan(board, ks, draw, rate) == board
  {
    if ks != [] {
      ZeroRateKeepsBoard(board, ks[..|ks| - 1], draw, rate);
    }
  }

  /** The body of the scan for a cell that regrows: a factory-made grass entity is added at `c`. */
  method AddGrass(grid: Grid, c: Coord)
    requires grid.Valid()
    modifies grid
    ensures grid.Valid()
    ensures grid.cells == old(grid.cells)[c := Static(Grass)]
    ensures grid.order == if c in old(grid.cells) then old(grid.order) else old(grid.order) + [c]
  {
    var grass := EntityFactory.CreateEntity(Grass);
    grid.AddEntity(c, grass.value);
  }

  /** Scanning `a` and then `b` is scanning `a + b`. */
  lemma {:induction false} ScanAppend(board: (map<Coord, Entity>, seq<Coord>), a: seq<Coord>, b: seq<Coord>,
                                      draw: Coord -> real, rate: real)
    ensures Scan(board, a + b, draw, rate) == Scan(Scan(board, a, draw, rate), b, draw, rate)
    decreases |b|
  {
    if b == [] {
      assert a + b == a;
    } else {
      var init := b[..|b| - 1];
      assert a + b == (a + init) + [b[|b| - 1]];
      ScanAppend(board, a, init, draw, rate);
    }
  }

  /** The inner loop of the scan: column `x`, from y = 0 upwards. */
  method SpawnColumn(grid: Grid, x: int, draw: Coord -> real)
    requires grid.Valid()
    modifies grid
    ensures grid.Valid()
    ensures (grid.cells, grid.order) ==
      Scan(old((grid.cells, grid.order)), Column(x, grid.height), draw, Config.InitialGrassRegrowthRate)
  {
    ghost var board0 := (grid.cells, grid.order);
    for y := 0 to grid.height
      invariant grid.Valid()
      invariant (grid.cells, grid.order) == Scan(board0, Column(x, y), draw, Config.InitialGrassRegrowthRate)
    {
      if grid.IsCellEmpty(x, y) && ShouldRegrowGrass(draw, Config.InitialGrassRegrowthRate, Coord(x, y)) {
        AddGrass(grid, Coord(x, y));
      }
    }
  }

  /**
   * `SpawnGrassAction.execute`: the scan over the board, x outer and y
   * inner, with the configured regrowth rate.
   */
  method Execute(grid: Grid, draw: Coord -> real)
    requires grid.Valid()
    modifies grid
    ensures grid.Valid()
    ensures (grid.cells, grid.order) ==
      Scan(old((grid.cells, grid.order)), ScanOrder(grid.width, grid.height), draw, Config.InitialGrassRegrowthRate)
  {
    ghost var board0 := (grid.cells, grid.order);
    for x := 0 to grid.width
      invariant grid.Valid()
      invariant (grid.cells, grid.order) ==
        Scan(board0, ScanOrder(x, grid.height), draw, Config.InitialGrassRegrowthRate)
    {
      SpawnColumn(grid, x, draw);
      ScanAppend(board0, ScanOrder(x, grid.height), Column(x, grid.height), draw, Config.InitialGrassRegrowthRate);
    }
  }
}
