/**
 * The breadth-first path finder (pathfinding/bfs.py).
 *
 * The search starts at `start`, may step onto any in-bounds neighbour that is
 * empty or is one of the targets, and stops at the first dequeued target other
 * than `start`. The returned path is a shortest such walk; `None` means that no
 * target other than `start` is reachable.
 *
 * The proof follows the textbook argument. Besides the real queue and
 * `cameFrom` dictionary the search keeps a ghost map `dist` with the depth of
 * every discovered cell. A cell is "processed" once it is discovered and no
 * longer queued. The queue is ordered by depth and spans at most two depths,
 * a processed cell has every steppable neighbour discovered and at most one
 * level deeper, and no processed cell other than `start` is a target.
 */
module Pathfinding {
  import opened Util
  import opened Coordinates
  import opened World

  /** What the search sees of the board: its size, the occupied cells and the targets. */
  datatype Terrain = Terrain(width: int, height: int, occupied: set<Coord>, targets: seq<Coord>)

  function TerrainOf(grid: Grid, targets: seq<Coord>): Terrain
    reads grid
  {
    Terrain(grid.width, grid.height, grid.cells.Keys, targets)
  }

  /** The search may enter `c`: it is empty or it is a target. */
  predicate Passable(t: Terrain, c: Coord)
  {
    c !in t.occupied || c in t.targets
  }

  /** One step of a walk: to an in-bounds, passable cell at Manhattan distance 1. */
  predicate Edge(t: Terrain, u: Coord, v: Coord)
  {
    InBounds(v, t.width, t.height) && Distance(u, v) == 1 && Passable(t, v)
  }

  /** A walk from `start`: every step is an `Edge`. Its length is `|p| - 1`. */
  predicate IsWalk(t: Terrain, start: Coord, p: seq<Coord>)
  {
    |p| >= 1 && p[0] == start && forall i | 0 <= i < |p| - 1 :: Edge(t, p[i], p[i + 1])
  }

  /** A walk from `start` that ends at a target other than `start`. */
  predicate IsPathToTarget(t: Terrain, start: Coord, p: seq<Coord>)
  {
    IsWalk(t, start, p) && p[|p| - 1] in t.targets && p[|p| - 1] != start
  }

  // ----- the search invariant -----

  /** `cameFrom` is a tree of edges rooted at `start`, and `dist` gives every cell's depth in it. */
  ghost predicate Tree(t: Terrain, start: Coord, cameFrom: map<Coord, Option<Coord>>, dist: map<Coord, nat>)
  {
    cameFrom.Keys == dist.Keys && start in dist && cameFrom[start] == None && dist[start] == 0 &&
    forall v {:trigger cameFrom[v]} | v in dist && v != start ::
      cameFrom[v].Some? && cameFrom[v].value in dist && Edge(t, cameFrom[v].value, v) &&
      dist[v] == dist[cameFrom[v].value] + 1
  }

  /** The queue holds distinct discovered cells, ordered by depth, spanning at most two depths. */
  ghost predicate QueueOk(queue: seq<Coord>, dist: map<Coord, nat>)
  {
    Distinct(queue) && (forall i | 0 <= i < |queue| :: queue[i] in dist) &&
    forall i, j | 0 <= i <= j < |queue| :: dist[queue[i]] <= dist[queue[j]] <= dist[queue[i]] + 1
  }

  /** Every neighbour a processed cell can step to is discovered and at most one level deeper. */
  ghost predicate Closed(t: Terrain, queue: seq<Coord>, dist: map<Coord, nat>)
  {
    forall u, v {:trigger Edge(t, u, v)} | u in dist && u !in queue && Edge(t, u, v) :: v in dist && dist[v] <= dist[u] + 1
  }

  /** No processed cell is deeper than a queued one. */
  ghost predicate Settled(queue: seq<Coord>, dist: map<Coord, nat>)
  {
    forall u, i | u in dist && u !in queue && 0 <= i < |queue| && queue[i] in dist :: dist[u] <= dist[queue[i]]
  }

  /** No processed cell other than `start` is a target. */
  ghost predicate Explored(t: Terrain, start: Coord, queue: seq<Coord>, dist: map<Coord, nat>)
  {
    forall u | u in dist && u !in queue && u != start :: u !in t.targets
  }

  ghost predicate Inv(t: Terrain, start: Coord, queue: seq<Coord>, cameFrom: map<Coord, Option<Coord>>, dist: map<Coord, nat>)
  {
    Tree(t, start, cameFrom, dist) && QueueOk(queue, dist) && Closed(t, queue, dist) &&
    Settled(queue, dist) && Explored(t, start, queue, dist)
  }

  /** The cells a search can discover: the board and the start. */
  ghost function Universe(t: Terrain, start: Coord): set<Coord>
  {
    (set x, y | 0 <= x < t.width && 0 <= y < t.height :: Coord(x, y)) + {start}
  }

  lemma TreeInUniverse(t: Terrain, start: Coord, cameFrom: map<Coord, Option<Coord>>, dist: map<Coord, nat>)
    requires Tree(t, start, cameFrom, dist)
    ensures cameFrom.Keys <= Universe(t, start)
  {
    forall v | v in cameFrom ensures v in Universe(t, start) {
      if v != start {
        assert InBounds(v, t.width, t.height);
        assert v == Coord(v.x, v.y);
      }
    }
  }

  /**
   * With every queued cell at depth `h` or more, every walk of length below `h`
   * ends at a processed cell no deeper than the walk is long.
   */
  lemma {:induction false} Reached(t: Terrain, start: Coord, queue: seq<Coord>, dist: map<Coord, nat>, h: int, p: seq<Coord>)
    requires start in dist && dist[start] == 0
    requires Closed(t, queue, dist)
    requires forall i | 0 <= i < |queue| :: queue[i] in dist && h <= dist[queue[i]]
    requires IsWalk(t, start, p)
    ensures h <= |p| - 1 || (p[|p| - 1] in dist && p[|p| - 1] !in queue && dist[p[|p| - 1]] <= |p| - 1)
    decreases |p|
  {
    if |p| > 1 {
      var init := p[..|p| - 1];
      assert forall i | 0 <= i < |init| :: init[i] == p[i];
      assert IsWalk(t, start, init);
      Reached(t, start, queue, dist, h, init);
      var u, v := init[|init| - 1], p[|p| - 1];
      assert Edge(t, u, v);
    }
  }

  /** Popping the front of a well-ordered queue. */
  lemma QueueTail(c: Coord, rest: seq<Coord>, dist: map<Coord, nat>)
    requires QueueOk([c] + rest, dist)
    ensures c in dist && c !in rest && QueueOk(rest, dist)
    ensures forall i | 0 <= i < |rest| :: dist[c] <= dist[rest[i]] <= dist[c] + 1
  {
    var q := [c] + rest;
    assert q[0] == c;
    assert forall i | 0 <= i < |rest| :: rest[i] == q[i + 1];
    DistinctCons(c, rest);
  }

  /** Appending a cell one level below the front keeps the queue well ordered. */
  lemma QueueSnoc(queue: seq<Coord>, v: Coord, dist: map<Coord, nat>, d: nat)
    requires QueueOk(queue, dist) && v in dist && dist[v] == d + 1 && v !in queue
    requires forall i | 0 <= i < |queue| :: d <= dist[queue[i]] <= d + 1
    ensures QueueOk(queue + [v], dist)
  {
    DistinctSnoc(queue, v);
    var q := queue + [v];
    assert forall i | 0 <= i < |queue| :: q[i] == queue[i];
  }

  /**
   * The state part-way through expanding `current` (at depth `d`): the
   * first `i` of its `neighbors` have been dealt with, `rest` was the queue
   * behind `current` and `dist0` the depths before the expansion.
   */
  ghost predicate Midway(t: Terrain, start: Coord, current: Coord, d: nat, neighbors: seq<Coord>, i: nat, queue: seq<Coord>,
                         cameFrom: map<Coord, Option<Coord>>, dist: map<Coord, nat>, rest: seq<Coord>, dist0: map<Coord, nat>)
  {
    Tree(t, start, cameFrom, dist) && MidQueue(current, d, queue, dist) &&
    MidClosed(t, current, d, neighbors, i, queue, dist) && Explored(t, start, queue, dist) &&
    Grown(queue, dist, rest, dist0)
  }

  /** `current` is processed at depth `d`; the queue holds depths `d` and `d + 1`, processed cells at most `d`. */
  ghost predicate MidQueue(current: Coord, d: nat, queue: seq<Coord>, dist: map<Coord, nat>)
  {
    current in dist && dist[current] == d && current !in queue &&
    QueueOk(queue, dist) && (forall k | 0 <= k < |queue| :: d <= dist[queue[k]] <= d + 1) &&
    (forall u | u in dist :: dist[u] <= d + 1) &&
    (forall u | u in dist && u !in queue :: dist[u] <= d)
  }

  /** Processed cells other than `current` are closed, and so far every passable neighbour of `current` is discovered. */
  ghost predicate MidClosed(t: Terrain, current: Coord, d: nat, neighbors: seq<Coord>, i: nat, queue: seq<Coord>,
                            dist: map<Coord, nat>)
  {
    (forall u, v {:trigger Edge(t, u, v)} | u in dist && u !in queue && u != current && Edge(t, u, v) ::
       v in dist && dist[v] <= dist[u] + 1) &&
    i <= |neighbors| &&
    (forall k | 0 <= k < i && Passable(t, neighbors[k]) :: neighbors[k] in dist && dist[neighbors[k]] <= d + 1)
  }

  /** Discovery only adds cells, and the queue is `rest` until the first one. */
  ghost predicate Grown(queue: seq<Coord>, dist: map<Coord, nat>, rest: seq<Coord>, dist0: map<Coord, nat>)
  {
    dist0.Keys <= dist.Keys && (dist.Keys == dist0.Keys ==> queue == rest)
  }

  lemma MidwayBegin(t: Terrain, start: Coord, current: Coord, neighbors: seq<Coord>, rest: seq<Coord>,
                    cameFrom: map<Coord, Option<Coord>>, dist: map<Coord, nat>)
    requires Inv(t, start, [current] + rest, cameFrom, dist)
    requires current !in t.targets || current == start
    ensures current in dist && Midway(t, start, current, dist[current], neighbors, 0, rest, cameFrom, dist, rest, dist)
  {
    QueueTail(current, rest, dist);
    var q := [current] + rest;
    assert q[0] == current;
    forall u | u in dist ensures dist[u] <= dist[current] + 1 {
      if u in q {
        var k :| 0 <= k < |q| && q[k] == u;
      } else {
        assert dist[u] <= dist[q[0]];
      }
    }
    forall u | u in dist && u !in rest ensures dist[u] <= dist[current] {
      if u != current {
        assert dist[u] <= dist[q[0]];
      }
    }
  }

  /** A neighbour that is already discovered, or may not be entered, is skipped. */
  lemma MidwaySkip(t: Terrain, start: Coord, current: Coord, d: nat, neighbors: seq<Coord>, i: nat, queue: seq<Coord>,
                   cameFrom: map<Coord, Option<Coord>>, dist: map<Coord, nat>, rest: seq<Coord>, dist0: map<Coord, nat>)
    requires Midway(t, start, current, d, neighbors, i, queue, cameFrom, dist, rest, dist0)
    requires i < |neighbors| && (neighbors[i] in dist || !Passable(t, neighbors[i]))
    ensures Midway(t, start, current, d, neighbors, i + 1, queue, cameFrom, dist, rest, dist0)
  {
  }

  /** Hanging an undiscovered cell `v` below `current` keeps the tree. */
  lemma TreeAdd(t: Terrain, start: Coord, cameFrom: map<Coord, Option<Coord>>, dist: map<Coord, nat>, current: Coord, d: nat, v: Coord)
    requires Tree(t, start, cameFrom, dist) && current in dist && dist[current] == d && v !in dist && Edge(t, current, v)
    ensures Tree(t, start, cameFrom[v := Some(current)], dist[v := d + 1])
  {
    var cameFrom', dist' := cameFrom[v := Some(current)], dist[v := d + 1];
    forall u | u in dist' && u != start
      ensures cameFrom'[u].Some? && cameFrom'[u].value in dist' && Edge(t, cameFrom'[u].value, u) &&
              dist'[u] == dist'[cameFrom'[u].value] + 1
    {
      if u != v {
        assert cameFrom'[u] == cameFrom[u];
        assert cameFrom[u].value != v;
      }
    }
  }

  /** The queue facts of `Midway` survive discovering `v` at depth `d + 1`. */
  lemma AddQueue(current: Coord, d: nat, queue: seq<Coord>, dist: map<Coord, nat>, v: Coord)
    requires MidQueue(current, d, queue, dist) && v !in dist
    ensures MidQueue(current, d, queue + [v], dist[v := d + 1])
  {
    var dist', q := dist[v := d + 1], queue + [v];
    QueueSnoc(queue, v, dist', d);
    assert forall k | 0 <= k < |queue| :: q[k] == queue[k];
    assert current != v && current !in q;
  }

  /** The closure facts of `Midway` survive discovering `neighbors[i]`, a passable neighbour of `current`. */
  lemma AddClosed(t: Terrain, current: Coord, d: nat, neighbors: seq<Coord>, i: nat, queue: seq<Coord>, dist: map<Coord, nat>)
    requires MidClosed(t, current, d, neighbors, i, queue, dist)
    requires i < |neighbors| && neighbors[i] !in dist
    ensures MidClosed(t, current, d, neighbors, i + 1, queue + [neighbors[i]], dist[neighbors[i] := d + 1])
  {
    var v := neighbors[i];
    var dist', q := dist[v := d + 1], queue + [v];
    forall u, w | u in dist' && u !in q && u != current && Edge(t, u, w)
      ensures w in dist' && dist'[w] <= dist'[u] + 1
    {
      assert u in dist && u !in queue;
    }
  }

  /** Processed cells stay processed, so `Explored` survives queueing a new cell. */
  lemma AddExplored(t: Terrain, start: Coord, queue: seq<Coord>, dist: map<Coord, nat>, v: Coord, d: nat)
    requires Explored(t, start, queue, dist)
    ensures Explored(t, start, queue + [v], dist[v := d + 1])
  {
    assert forall u :: u in queue + [v] <==> u in queue || u == v;
  }

  /** An undiscovered, passable neighbour is discovered with `current` as its parent and queued. */
  lemma MidwayAdd(t: Terrain, start: Coord, current: Coord, d: nat, neighbors: seq<Coord>, i: nat, queue: seq<Coord>,
                  cameFrom: map<Coord, Option<Coord>>, dist: map<Coord, nat>, rest: seq<Coord>, dist0: map<Coord, nat>)
    requires Midway(t, start, current, d, neighbors, i, queue, cameFrom, dist, rest, dist0)
    requires i < |neighbors| && neighbors[i] !in dist && Edge(t, current, neighbors[i])
    ensures var v := neighbors[i];
      Midway(t, start, current, d, neighbors, i + 1, queue + [v], cameFrom[v := Some(current)], dist[v := d + 1], rest, dist0)
  {
    var v := neighbors[i];
    TreeAdd(t, start, cameFrom, dist, current, d, v);
    AddQueue(current, d, queue, dist, v);
    AddClosed(t, current, d, neighbors, i, queue, dist);
    AddExplored(t, start, queue, dist, v, d);
    var dist' := dist[v := d + 1];
    assert v in dist'.Keys && v !in dist0.Keys && dist0.Keys <= dist'.Keys;
  }

  /**
   * One round of the `for neighbor in ...` loop: discover every passable,
   * undiscovered neighbour of `current` with `current` as its parent.
   */
  method Expand(grid: Grid, targets: seq<Coord>, start: Coord, current: Coord, rest: seq<Coord>,
                cameFrom0: map<Coord, Option<Coord>>, ghost dist0: map<Coord, nat>)
    returns (queue: seq<Coord>, cameFrom: map<Coord, Option<Coord>>, ghost dist: map<Coord, nat>)
    requires Inv(TerrainOf(grid, targets), start, [current] + rest, cameFrom0, dist0)
    requires current !in targets || current == start
    ensures Inv(TerrainOf(grid, targets), start, queue, cameFrom, dist)
    ensures dist0.Keys <= dist.Keys
    ensures dist.Keys == dist0.Keys ==> queue == rest
  {
    ghost var t := TerrainOf(grid, targets);
    var neighbors := grid.GetNeighborsCells(current);
    NeighborsAreAdjacentCells(current, grid.width, grid.height);
    MidwayBegin(t, start, current, neighbors, rest, cameFrom0, dist0);
    ghost var d := dist0[current];
    queue, cameFrom, dist := rest, cameFrom0, dist0;
    for i := 0 to |neighbors|
      invariant Midway(t, start, current, d, neighbors, i, queue, cameFrom, dist, rest, dist0)
    {
      var neighbor := neighbors[i];
      if neighbor in cameFrom {
        MidwaySkip(t, start, current, d, neighbors, i, queue, cameFrom, dist, rest, dist0);
        continue;
      }
      if grid.IsCellEmpty(neighbor.x, neighbor.y) || neighbor in targets {
        assert neighbor in neighbors && neighbor == Coord(neighbor.x, neighbor.y);
        assert Edge(t, current, neighbor);
        MidwayAdd(t, start, current, d, neighbors, i, queue, cameFrom, dist, rest, dist0);
        cameFrom := cameFrom[neighbor := Some(current)];
        dist := dist[neighbor := d + 1];
        queue := queue + [neighbor];
      } else {
        MidwaySkip(t, start, current, d, neighbors, i, queue, cameFrom, dist, rest, dist0);
      }
    }
    MidwayEnd(t, start, current, d, neighbors, queue, cameFrom, dist, rest, dist0);
  }

  lemma MidwayEnd(t: Terrain, start: Coord, current: Coord, d: nat, neighbors: seq<Coord>, queue: seq<Coord>,
                  cameFrom: map<Coord, Option<Coord>>, dist: map<Coord, nat>, rest: seq<Coord>, dist0: map<Coord, nat>)
    requires Midway(t, start, current, d, neighbors, |neighbors|, queue, cameFrom, dist, rest, dist0)
    requires forall v :: v in neighbors <==> InBounds(v, t.width, t.height) && Distance(current, v) == 1
    ensures Inv(t, start, queue, cameFrom, dist)
  {
    forall v | Edge(t, current, v) ensures v in dist && dist[v] <= d + 1 {
      assert v in neighbors;
      var k :| 0 <= k < |neighbors| && neighbors[k] == v;
    }
  }

  /**
   * The inner `while path_node is not None` loop and `path.reverse()`:
   * follow the parents from `current` back to `start`.
   */
  method RestorePath(ghost t: Terrain, start: Coord, cameFrom: map<Coord, Option<Coord>>, ghost dist: map<Coord, nat>,
                     current: Coord)
    returns (path: seq<Coord>)
    requires Tree(t, start, cameFrom, dist) && current in dist
    ensures IsWalk(t, start, path) && path[|path| - 1] == current
    ensures |path| == dist[current] + 1
    ensures forall j | 0 <= j < |path| :: path[j] in dist && dist[path[j]] == j
  {
    var reversed: seq<Coord> := [];
    var node := Some(current);
    while node.Some?
      invariant node.Some? ==> node.value in dist && dist[node.value] + |reversed| == dist[current]
      invariant node.Some? && reversed != [] ==> Edge(t, node.value, reversed[|reversed| - 1])
      invariant node.None? ==> reversed != [] && reversed[|reversed| - 1] == start && |reversed| == dist[current] + 1
      invariant reversed == [] ==> node == Some(current)
      invariant reversed != [] ==> reversed[0] == current
      invariant forall k | 0 <= k < |reversed| :: reversed[k] in dist && dist[reversed[k]] + k == dist[current]
      invariant forall k | 0 <= k < |reversed| - 1 :: Edge(t, reversed[k + 1], reversed[k])
      decreases if node.Some? then dist[node.value] + 1 else 0
    {
      reversed := reversed + [node.value];
      node := cameFrom[node.value];
    }
    path := Reverse(reversed);
    ReversedWalk(t, start, dist, current, reversed);
  }

  /** Reversing the parent chain from `current` gives a walk from `start` with the depths in order. */
  lemma ReversedWalk(t: Terrain, start: Coord, dist: map<Coord, nat>, current: Coord, reversed: seq<Coord>)
    requires current in dist
    requires reversed != [] && reversed[|reversed| - 1] == start && |reversed| == dist[current] + 1
    requires reversed[0] == current
    requires forall k | 0 <= k < |reversed| :: reversed[k] in dist && dist[reversed[k]] + k == dist[current]
    requires forall k | 0 <= k < |reversed| - 1 :: Edge(t, reversed[k + 1], reversed[k])
    ensures var path := Reverse(reversed);
      IsWalk(t, start, path) && path[|path| - 1] == current && |path| == dist[current] + 1 &&
      forall j | 0 <= j < |path| :: path[j] in dist && dist[path[j]] == j
  {
    var path := Reverse(reversed);
    var n := |reversed|;
    forall j | 0 <= j < n - 1 ensures Edge(t, path[j], path[j + 1]) {
      assert path[j] == reversed[n - 1 - j] && path[j + 1] == reversed[n - 1 - (j + 1)];
    }
    forall j | 0 <= j < n ensures path[j] in dist && dist[path[j]] == j {
      assert path[j] == reversed[n - 1 - j];
    }
  }

  /** When the front of the queue is a target other than `start`, its tree path is a shortest path to a target. */
  lemma FoundIsShortest(t: Terrain, start: Coord, queue: seq<Coord>, cameFrom: map<Coord, Option<Coord>>,
                        dist: map<Coord, nat>, p: seq<Coord>)
    requires Inv(t, start, queue, cameFrom, dist) && queue != []
    requires queue[0] in t.targets && queue[0] != start
    requires IsWalk(t, start, p) && p[|p| - 1] == queue[0] && |p| == dist[queue[0]] + 1
    requires forall j | 0 <= j < |p| :: p[j] in dist && dist[p[j]] == j
    ensures IsPathToTarget(t, start, p) && |p| >= 2 && Distinct(p)
    ensures forall q | IsPathToTarget(t, start, q) :: |p| <= |q|
  {
    forall q | IsPathToTarget(t, start, q) ensures |p| <= |q| {
      Reached(t, start, queue, dist, dist[queue[0]], q);
    }
    forall i, j | 0 <= i < j < |p| ensures p[i] != p[j] {
      assert dist[p[i]] != dist[p[j]];
    }
  }

  /** With the queue empty, no target other than `start` can be reached. */
  lemma Unreachable(t: Terrain, start: Coord, cameFrom: map<Coord, Option<Coord>>, dist: map<Coord, nat>)
    requires Inv(t, start, [], cameFrom, dist)
    ensures forall q :: !IsPathToTarget(t, start, q)
  {
    forall q | IsWalk(t, start, q) ensures !IsPathToTarget(t, start, q) {
      Reached(t, start, [], dist, |q|, q);
    }
  }

  /** A strictly larger set of discovered cells inside the universe leaves fewer to discover. */
  lemma Progress(universe: set<Coord>, before: set<Coord>, after: set<Coord>)
    requires before <= after <= universe && before != after
    ensures universe - after < universe - before
  {
    var v :| v in after && v !in before;
    assert v in universe - before && v !in universe - after;
  }

  /** The path to the dequeued target `queue[0]`, which is a shortest path to a target. */
  method FoundPath(ghost t: Terrain, start: Coord, queue: seq<Coord>, cameFrom: map<Coord, Option<Coord>>,
                   ghost dist: map<Coord, nat>)
    returns (p: seq<Coord>)
    requires Inv(t, start, queue, cameFrom, dist) && queue != []
    requires queue[0] in t.targets && queue[0] != start
    ensures IsPathToTarget(t, start, p) && |p| >= 2 && Distinct(p)
    ensures forall q | IsPathToTarget(t, start, q) :: |p| <= |q|
  {
    p := RestorePath(t, start, cameFrom, dist, queue[0]);
    FoundIsShortest(t, start, queue, cameFrom, dist, p);
  }

  /**
   * One pass of the outer loop for a front cell that is not a goal: pop it
   * and expand it. Either a new cell is discovered or the queue gets shorter.
   */
  method Advance(grid: Grid, targets: seq<Coord>, start: Coord, queue0: seq<Coord>,
                 cameFrom0: map<Coord, Option<Coord>>, ghost dist0: map<Coord, nat>, ghost universe: set<Coord>)
    returns (queue: seq<Coord>, cameFrom: map<Coord, Option<Coord>>, ghost dist: map<Coord, nat>)
    requires Inv(TerrainOf(grid, targets), start, queue0, cameFrom0, dist0) && queue0 != []
    requires queue0[0] !in targets || queue0[0] == start
    requires universe == Universe(TerrainOf(grid, targets), start) && cameFrom0.Keys <= universe
    ensures Inv(TerrainOf(grid, targets), start, queue, cameFrom, dist) && cameFrom.Keys <= universe
    ensures universe - cameFrom.Keys < universe - cameFrom0.Keys ||
      (universe - cameFrom.Keys == universe - cameFrom0.Keys && |queue| < |queue0|)
  {
    var current := queue0[0];
    assert queue0 == [current] + queue0[1..];
    queue, cameFrom, dist := Expand(grid, targets, start, current, queue0[1..], cameFrom0, dist0);
    TreeInUniverse(TerrainOf(grid, targets), start, cameFrom, dist);
    if cameFrom.Keys != cameFrom0.Keys {
      Progress(universe, cameFrom0.Keys, cameFrom.Keys);
    }
  }

  /**
   * `find_nearest_target_path`. A returned path starts at `start`, ends at a
   * target other than `start`, steps only onto empty or target cells, has no
   * repeated cell and is no longer than any other such path; `None` is
   * returned exactly when no such path exists. The map is only read.
   */
  method FindNearestTargetPath(start: Coord, grid: Grid, targets: seq<Coord>) returns (path: Option<seq<Coord>>)
    ensures path.Some? ==> IsPathToTarget(TerrainOf(grid, targets), start, path.value) && |path.value| >= 2
    ensures path.Some? ==> Distinct(path.value)
    ensures path.Some? ==> forall q | IsPathToTarget(TerrainOf(grid, targets), start, q) :: |path.value| <= |q|
    ensures path.None? <==> forall q :: !IsPathToTarget(TerrainOf(grid, targets), start, q)
  {
    ghost var t := TerrainOf(grid, targets);
    ghost var universe := Universe(t, start);
    var queue := [start];
    var cameFrom := map[start := None];
    ghost var dist: map<Coord, nat> := map[start := 0];
    while queue != []
      invariant Inv(t, start, queue, cameFrom, dist)
      invariant cameFrom.Keys <= universe
      decreases universe - cameFrom.Keys, |queue|
    {
      var current := queue[0];
      if current in targets && current != start {
        var p := FoundPath(t, start, queue, cameFrom, dist);
        return Some(p);
      }
      queue, cameFrom, dist := Advance(grid, targets, start, queue, cameFrom, dist, universe);
    }
    Unreachable(t, start, cameFrom, dist);
    return None;
  }
}
