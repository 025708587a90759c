/** The engine's records: directions, positions, Pac-Man, ghosts and the whole game state.
    Integers are unbounded; the source's `number` never leaves the small range the game uses. */
module Types {

  datatype Option<T> = None | Some(value: T)

  /** The four cardinal directions; no other value is a direction. */
  datatype Direction = Up | Down | Left | Right

  /** A cell of the maze: `x` is the column, `y` the row. */
  datatype Position = Position(x: int, y: int)

  /** Pac-Man keeps the direction it is moving along apart from the pending one the player asked for. */
  datatype PacMan = PacMan(position: Position, direction: Direction, nextDirection: Direction)

  datatype GhostMode = Scatter | Chase | Frightened

  /** `color` only matters for drawing; the engine copies it unchanged. */
  datatype Ghost = Ghost(id: int, position: Position, direction: Direction, color: string, mode: GhostMode)

  datatype GameStatus = Ready | Playing | Paused | GameOver

  /** The maze is a grid of rows of small integers: 0 wall, 1 dot, 2 power pellet, 3 empty. */
  type Maze = seq<seq<int>>

  datatype GameState = GameState(
    score: int,
    lives: int,
    level: int,
    status: GameStatus,
    pacman: PacMan,
    ghosts: seq<Ghost>,
    maze: Maze,
    dotsRemaining: int
  )

  /** No two ghosts share an id. */
  predicate DistinctIds(gs: seq<Ghost>)
  {
    forall i, j | 0 <= i < j < |gs| :: gs[i].id != gs[j].id
  }

  /** The four directions in the order the ghost logic enumerates them. */
  const AllDirections: seq<Direction> := [Up, Down, Left, Right]

  lemma AllDirectionsComplete(d: Direction)
    ensures d in AllDirections
    ensures |AllDirections| == 4
  {
  }
}
