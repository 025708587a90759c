/** `moveGhosts`: every ghost steps in a random direction among those that change its position. */
module Ghosts {
  import opened Types
  import opened Grid
  import opened Motion

  /** The directions, in the order UP, DOWN, LEFT, RIGHT, that move an entity away from `p`. */
  function ValidDirections(lay: Layout, maze: Maze, p: Position): (r: seq<Direction>)
    ensures forall d :: d in r <==> CanMove(lay, maze, p, d)
    ensures forall i, j | 0 <= i < j < |r| :: r[i] != r[j]
    ensures |r| <= 4
  {
    FilterMoving(lay, maze, p, AllDirections)
  }

  function FilterMoving(lay: Layout, maze: Maze, p: Position, ds: seq<Direction>): (r: seq<Direction>)
    ensures forall d :: d in r <==> d in ds && CanMove(lay, maze, p, d)
    ensures |r| <= |ds|
    ensures (forall i, j | 0 <= i < j < |ds| :: ds[i] != ds[j]) ==> forall i, j | 0 <= i < j < |r| :: r[i] != r[j]
  {
    if |ds| == 0 then []
    else
      var rest := FilterMoving(lay, maze, p, ds[1..]);
      if CanMove(lay, maze, p, ds[0]) then [ds[0]] + rest else rest
  }

  /** Which directions move depends only on where the walls are. */
  lemma {:induction false} FilterMovingSameWalls(lay: Layout, maze: Maze, maze': Maze, p: Position, ds: seq<Direction>)
    requires SameWalls(maze, maze')
    ensures FilterMoving(lay, maze, p, ds) == FilterMoving(lay, maze', p, ds)
  {
    if |ds| > 0 {
      OnlyWallsMatter(lay, maze, maze', p, ds[0]);
      FilterMovingSameWalls(lay, maze, maze', p, ds[1..]);
    }
  }

  /** `Math.floor(roll * n)` for a roll drawn from [0, 1): always an index below `n`. */
  function PickIndex(roll: real, n: nat): (i: nat)
    requires 0.0 <= roll < 1.0 && n > 0
    ensures i < n
    ensures i as real <= roll * n as real < i as real + 1.0
  {
    var k := (roll * n as real).Floor;
    assert 0.0 <= roll * n as real < n as real by {
      assert roll * n as real < 1.0 * n as real;
    }
    k
  }

  /** Every index below `n` is picked by some roll: the roll `i / n` picks `i`. */
  lemma EveryIndexReachable(i: nat, n: nat)
    requires i < n
    ensures 0.0 <= i as real / n as real < 1.0
    ensures PickIndex(i as real / n as real, n) == i
  {
    var roll := i as real / n as real;
    assert roll * n as real == i as real;
  }

  /** One ghost's move, computed from that ghost alone and the maze. */
  function MoveGhost(lay: Layout, maze: Maze, g: Ghost, roll: real): (r: Ghost)
    requires 0.0 <= roll < 1.0
    ensures |ValidDirections(lay, maze, g.position)| == 0 ==> r == g
    ensures |ValidDirections(lay, maze, g.position)| > 0 ==>
      && CanMove(lay, maze, g.position, r.direction)
      && r.position == MoveEntity(lay, maze, g.position, r.direction)
    ensures r.id == g.id && r.color == g.color && r.mode == g.mode
  {
    var valid := ValidDirections(lay, maze, g.position);
    if |valid| == 0 then g
    else
      var d := valid[PickIndex(roll, |valid|)];
      g.(position := MoveEntity(lay, maze, g.position, d), direction := d)
  }

  /** A ghost moves alike in two mazes with the same walls. */
  lemma MoveGhostSameWalls(lay: Layout, maze: Maze, maze': Maze, g: Ghost, roll: real)
    requires SameWalls(maze, maze') && 0.0 <= roll < 1.0
    ensures MoveGhost(lay, maze, g, roll) == MoveGhost(lay, maze', g, roll)
  {
    FilterMovingSameWalls(lay, maze, maze', g.position, AllDirections);
    forall d | true ensures MoveEntity(lay, maze, g.position, d) == MoveEntity(lay, maze', g.position, d) {
      OnlyWallsMatter(lay, maze, maze', g.position, d);
    }
  }

  /** A ghost with some way out can be sent along any of its moving directions by some roll. */
  lemma EveryValidDirectionReachable(lay: Layout, maze: Maze, g: Ghost, d: Direction)
    requires CanMove(lay, maze, g.position, d)
    ensures exists roll: real :: 0.0 <= roll < 1.0 && MoveGhost(lay, maze, g, roll).direction == d
  {
    var valid := ValidDirections(lay, maze, g.position);
    var i :| 0 <= i < |valid| && valid[i] == d;
    EveryIndexReachable(i, |valid|);
    var roll := i as real / |valid| as real;
    assert MoveGhost(lay, maze, g, roll).direction == d;
  }

  predicate ValidRolls(rolls: seq<real>)
  {
    forall i | 0 <= i < |rolls| :: 0.0 <= rolls[i] < 1.0
  }

  /** All ghosts move at once, each from the state before the tick: ghost `i` uses roll `i`. */
  function MoveGhosts(lay: Layout, maze: Maze, gs: seq<Ghost>, rolls: seq<real>): (r: seq<Ghost>)
    requires |rolls| == |gs| && ValidRolls(rolls)
    ensures |r| == |gs|
    ensures forall i | 0 <= i < |gs| :: r[i] == MoveGhost(lay, maze, gs[i], rolls[i])
  {
    seq(|gs|, i requires 0 <= i < |gs| => MoveGhost(lay, maze, gs[i], rolls[i]))
  }

  /** The ghost tick keeps the roster: count, ids, colours and modes, and moves each ghost as
      `MoveGhost` says. */
  lemma MoveGhostsKeepsRoster(lay: Layout, maze: Maze, gs: seq<Ghost>, rolls: seq<real>)
    requires |rolls| == |gs| && ValidRolls(rolls)
    ensures var r := MoveGhosts(lay, maze, gs, rolls);
      && |r| == |gs|
      && forall i | 0 <= i < |gs| ::
           && r[i].id == gs[i].id && r[i].color == gs[i].color && r[i].mode == gs[i].mode
           && (r[i] == gs[i] || CanMove(lay, maze, gs[i].position, r[i].direction))
           && (r[i] == gs[i] || r[i].position == MoveEntity(lay, maze, gs[i].position, r[i].direction))
  {
  }

  /** The ghost tick of a game state: only the ghost list changes. */
  function GhostTick(lay: Layout, s: GameState, rolls: seq<real>): (r: GameState)
    requires |rolls| == |s.ghosts| && ValidRolls(rolls)
    ensures r == s.(ghosts := r.ghosts)
    ensures |r.ghosts| == |s.ghosts|
    ensures forall i | 0 <= i < |s.ghosts| :: r.ghosts[i] == MoveGhost(lay, s.maze, s.ghosts[i], rolls[i])
  {
    s.(ghosts := MoveGhosts(lay, s.maze, s.ghosts, rolls))
  }
}
