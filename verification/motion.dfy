/** `moveEntity` and Pac-Man's per-tick movement (src/components/PacManGame.tsx). */
module Motion {
  import opened Types
  import opened Grid

  /** The candidate cell one step from `p`: columns wrap through the tunnel, rows are clamped
      to [0, height - 1]. It is not yet checked against the walls. */
  function Neighbour(lay: Layout, p: Position, d: Direction): Position
  {
    match d
    case Up => Position(p.x, if p.y - 1 < 0 then 0 else p.y - 1)
    case Down => Position(p.x, if p.y + 1 > lay.height - 1 then lay.height - 1 else p.y + 1)
    case Left => Position(if p.x - 1 < 0 then lay.width - 1 else p.x - 1, p.y)
    case Right => Position(if p.x + 1 >= lay.width then 0 else p.x + 1, p.y)
  }

  /** Resolves one step of an entity. The wall test reads `maze`; a missing row or column is
      not a wall. */
  function MoveEntity(lay: Layout, maze: Maze, p: Position, d: Direction): (r: Position)
    ensures r == p || r == Neighbour(lay, p, d)
    ensures r != p ==> !IsWall(maze, r)
    ensures !IsWall(maze, Neighbour(lay, p, d)) ==> r == Neighbour(lay, p, d)
  {
    var q := Neighbour(lay, p, d);
    if IsWall(maze, q) then p else q
  }

  /** Moving changes position exactly when the neighbour is a different, open cell. */
  predicate CanMove(lay: Layout, maze: Maze, p: Position, d: Direction)
  {
    MoveEntity(lay, maze, p, d) != p
  }

  lemma CanMoveIff(lay: Layout, maze: Maze, p: Position, d: Direction)
    ensures CanMove(lay, maze, p, d) <==> Neighbour(lay, p, d) != p && !IsWall(maze, Neighbour(lay, p, d))
  {
  }

  /** A move from an open cell never ends on a wall. */
  lemma NeverIntoWall(lay: Layout, maze: Maze, p: Position, d: Direction)
    requires !IsWall(maze, p)
    ensures !IsWall(maze, MoveEntity(lay, maze, p, d))
  {
  }

  /** Tunnel: LEFT from the first column lands on the last one, RIGHT from the last column on
      the first, on the same row, when that cell is open. */
  lemma WrapLeft(lay: Layout, maze: Maze, y: int)
    requires lay.width >= 1
    requires !IsWall(maze, Position(lay.width - 1, y))
    ensures MoveEntity(lay, maze, Position(0, y), Left) == Position(lay.width - 1, y)
  {
  }

  lemma WrapRight(lay: Layout, maze: Maze, y: int)
    requires lay.width >= 1
    requires !IsWall(maze, Position(0, y))
    ensures MoveEntity(lay, maze, Position(lay.width - 1, y), Right) == Position(0, y)
  {
  }

  /** UP on the top row and DOWN on the bottom row never move. */
  lemma ClampUp(lay: Layout, maze: Maze, x: int)
    ensures MoveEntity(lay, maze, Position(x, 0), Up) == Position(x, 0)
  {
  }

  lemma ClampDown(lay: Layout, maze: Maze, x: int)
    ensures MoveEntity(lay, maze, Position(x, lay.height - 1), Down) == Position(x, lay.height - 1)
  {
  }

  /** A position inside the grid stays inside after any move; a real move changes exactly one
      coordinate, by one or across the tunnel. */
  lemma MoveStaysInGrid(lay: Layout, maze: Maze, p: Position, d: Direction)
    requires lay.width >= 1 && lay.height >= 1 && InGrid(lay, p)
    ensures InGrid(lay, MoveEntity(lay, maze, p, d))
    ensures var r := MoveEntity(lay, maze, p, d);
      r != p ==>
        || (r.x == p.x && (r.y == p.y - 1 || r.y == p.y + 1))
        || (r.y == p.y && (r.x == p.x - 1 || r.x == p.x + 1 || (p.x == 0 && r.x == lay.width - 1) || (p.x == lay.width - 1 && r.x == 0)))
  {
  }

  /** Only the wall layout matters: two mazes with walls in the same cells resolve every move
      alike. The engine's closures read an older maze than the current one; this is why that
      is harmless, since eating never creates or removes a wall. */
  lemma OnlyWallsMatter(lay: Layout, maze: Maze, maze': Maze, p: Position, d: Direction)
    requires SameWalls(maze, maze')
    ensures MoveEntity(lay, maze, p, d) == MoveEntity(lay, maze', p, d)
  {
    SameWallsSameTest(maze, maze', Neighbour(lay, p, d));
  }

  /** One runner tick: turn onto the pending direction if that moves, else keep going. */
  function RunnerTick(lay: Layout, s: GameState): (r: GameState)
    ensures CanMove(lay, s.maze, s.pacman.position, s.pacman.nextDirection) ==> r.pacman.direction == s.pacman.nextDirection
    ensures !CanMove(lay, s.maze, s.pacman.position, s.pacman.nextDirection) ==> r.pacman.direction == s.pacman.direction
    ensures r.pacman.position == MoveEntity(lay, s.maze, s.pacman.position, r.pacman.direction)
    ensures r.pacman.nextDirection == s.pacman.nextDirection
    ensures r == s.(pacman := r.pacman)
  {
    var pac := s.pacman;
    var turn := MoveEntity(lay, s.maze, pac.position, pac.nextDirection) != pac.position;
    var dir := if turn then pac.nextDirection else pac.direction;
    s.(pacman := pac.(position := MoveEntity(lay, s.maze, pac.position, dir), direction := dir))
  }

  /** Pac-Man stays put exactly when neither the pending nor the current direction can move. */
  lemma RunnerStaysIff(lay: Layout, s: GameState)
    ensures RunnerTick(lay, s).pacman.position == s.pacman.position <==>
      !CanMove(lay, s.maze, s.pacman.position, s.pacman.nextDirection) &&
      !CanMove(lay, s.maze, s.pacman.position, s.pacman.direction)
  {
  }
}
