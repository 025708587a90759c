/** The initial game state (src/utils/gameConstants.ts). The maze itself comes from the layout. */
module Constants {
  import opened Types
  import opened Grid

  const INITIAL_PACMAN := PacMan(Position(13, 26), Right, Right)

  const INITIAL_GHOSTS: seq<Ghost> := [
    Ghost(1, Position(13, 11), Up, "red", Scatter),
    Ghost(2, Position(12, 13), Up, "pink", Scatter),
    Ghost(3, Position(13, 13), Up, "cyan", Scatter),
    Ghost(4, Position(14, 13), Up, "orange", Scatter)
  ]

  function InitialDotsCount(lay: Layout): nat
  {
    CountItems(lay.initial)
  }

  function CreateInitialGameState(lay: Layout): (s: GameState)
    ensures s.score == 0 && s.lives == 3 && s.level == 1 && s.status == Ready
    ensures s.maze == lay.initial
    ensures s.dotsRemaining == CountItems(s.maze)
    ensures s.pacman == INITIAL_PACMAN && s.ghosts == INITIAL_GHOSTS
  {
    GameState(0, 3, 1, Ready, INITIAL_PACMAN, INITIAL_GHOSTS, lay.initial, InitialDotsCount(lay))
  }

  /** The starting roster: four ghosts with ids 1 to 4, all distinct, facing UP in scatter mode,
      and Pac-Man at (13,26) facing RIGHT with RIGHT pending. */
  lemma InitialRoster()
    ensures |INITIAL_GHOSTS| == 4 && DistinctIds(INITIAL_GHOSTS)
    ensures forall i | 0 <= i < 4 :: INITIAL_GHOSTS[i].id == i + 1
    ensures forall i | 0 <= i < 4 :: INITIAL_GHOSTS[i].direction == Up && INITIAL_GHOSTS[i].mode == Scatter
    ensures INITIAL_PACMAN.position == Position(13, 26)
    ensures INITIAL_PACMAN.direction == Right && INITIAL_PACMAN.nextDirection == Right
  {
  }
}
