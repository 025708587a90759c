/** `eatDot` and the pure effect of the power-pellet timer (src/components/PacManGame.tsx).
    The source decides from the render's state (`snap`) and applies its update to the latest
    state (`prev`); both are parameters so the ordering with collisions can be stated. */
module Consumption {
  import opened Types
  import opened Grid

  const DOT_SCORE := 10
  const PELLET_SCORE := 50

  /** Every ghost of `gs` in mode `m`, nothing else about it changed. */
  predicate AllSetTo(gs: seq<Ghost>, gs': seq<Ghost>, m: GhostMode)
  {
    && |gs'| == |gs|
    && forall i | 0 <= i < |gs| :: gs'[i] == gs[i].(mode := m)
  }

  function SetModes(gs: seq<Ghost>, m: GhostMode): (r: seq<Ghost>)
    ensures AllSetTo(gs, r, m)
  {
    seq(|gs|, i requires 0 <= i < |gs| => gs[i].(mode := m))
  }

  /** Eating at Pac-Man's cell: a dot scores 10, a pellet 50 and frightens every ghost; both
      empty the cell and lower the remaining count by one. Anything else changes nothing. */
  function EatDot(snap: GameState, prev: GameState): (r: GameState)
    requires 0 <= snap.pacman.position.y < |snap.maze|
    ensures var p := snap.pacman.position;
      CellIs(snap.maze, p, DOT) ==>
        && UpdatedAt(snap.maze, r.maze, p, EMPTY)
        && r.score == prev.score + DOT_SCORE
        && r.dotsRemaining == prev.dotsRemaining - 1
        && r == prev.(maze := r.maze, score := r.score, dotsRemaining := r.dotsRemaining)
    ensures var p := snap.pacman.position;
      CellIs(snap.maze, p, PELLET) ==>
        && UpdatedAt(snap.maze, r.maze, p, EMPTY)
        && r.score == prev.score + PELLET_SCORE
        && r.dotsRemaining == prev.dotsRemaining - 1
        && AllSetTo(prev.ghosts, r.ghosts, Frightened)
        && r == prev.(maze := r.maze, score := r.score, dotsRemaining := r.dotsRemaining, ghosts := r.ghosts)
    ensures !CellIs(snap.maze, snap.pacman.position, DOT) && !CellIs(snap.maze, snap.pacman.position, PELLET) ==> r == prev
  {
    var p := snap.pacman.position;
    if CellIs(snap.maze, p, DOT) then
      prev.(maze := SetCell(snap.maze, p, EMPTY), score := prev.score + DOT_SCORE,
            dotsRemaining := prev.dotsRemaining - 1)
    else if CellIs(snap.maze, p, PELLET) then
      prev.(maze := SetCell(snap.maze, p, EMPTY), score := prev.score + PELLET_SCORE,
            dotsRemaining := prev.dotsRemaining - 1,
            ghosts := SetModes(prev.ghosts, Frightened))
    else
      prev
  }

  /** Eating the same cell twice scores once: the second call changes nothing. */
  lemma EatTwiceScoresOnce(s: GameState)
    requires 0 <= s.pacman.position.y < |s.maze|
    ensures var s' := EatDot(s, s); EatDot(s', s') == s'
  {
    var s' := EatDot(s, s);
    var p := s.pacman.position;
    assert !CellIs(s'.maze, p, DOT) && !CellIs(s'.maze, p, PELLET);
  }

  /** Eating keeps the remaining count equal to the number of collectible cells and keeps the
      walls where they were. */
  lemma EatKeepsCount(s: GameState)
    requires 0 <= s.pacman.position.y < |s.maze|
    requires s.dotsRemaining == CountItems(s.maze)
    ensures EatDot(s, s).dotsRemaining == CountItems(EatDot(s, s).maze)
    ensures SameWalls(s.maze, EatDot(s, s).maze)
    ensures EatDot(s, s).score >= s.score
  {
    var p := s.pacman.position;
    if CellIs(s.maze, p, DOT) || CellIs(s.maze, p, PELLET) {
      CountItemsConsume(s.maze, p, EMPTY);
    }
  }

  /** The pellet timer's effect when it fires: every ghost back to scatter. */
  function PelletExpiry(s: GameState): (r: GameState)
    ensures AllSetTo(s.ghosts, r.ghosts, Scatter)
    ensures r == s.(ghosts := r.ghosts)
  {
    s.(ghosts := SetModes(s.ghosts, Scatter))
  }
}
