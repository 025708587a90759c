/** The game's control flow (src/components/PacManGame.tsx): the key handler, start and reset,
    the eat-then-collide effect, the win/lose check, and the whole engine as a sequence of
    events. React's timers and effects become explicit events; see README. */
module Engine {
  import opened Types
  import opened Grid
  import opened Motion
  import opened Ghosts
  import opened Consumption
  import opened Collisions
  import opened Constants

  /** The state the reset button installs; written out as the component writes it. */
  function ResetGame(lay: Layout): (s: GameState)
    ensures s.status == Ready && s.score == 0 && s.lives == 3
    ensures s.dotsRemaining == CountItems(s.maze) && s.maze == lay.initial
    ensures lay.Valid() ==> Consistent(lay, s)
  {
    GameState(
      0, 3, 1, Ready,
      PacMan(Position(13, 26), Right, Right),
      [ Ghost(1, Position(13, 11), Up, "red", Scatter),
        Ghost(2, Position(12, 13), Up, "pink", Scatter),
        Ghost(3, Position(13, 13), Up, "cyan", Scatter),
        Ghost(4, Position(14, 13), Up, "orange", Scatter) ],
      lay.initial,
      CountItems(lay.initial))
  }

  /** Resetting gives exactly the state the constants file builds. */
  lemma ResetIsInitial(lay: Layout)
    ensures ResetGame(lay) == CreateInitialGameState(lay)
  {
  }

  /** The start button: the game runs, whatever it was doing before. */
  function StartGame(s: GameState): (r: GameState)
    ensures r.status == Playing && r == s.(status := Playing)
  {
    s.(status := Playing)
  }

  /** Keys that steer: arrows and WASD in either case. */
  function KeyDirection(key: string): (r: Option<Direction>)
    ensures r == Some(Up) <==> key in {"ArrowUp", "w", "W"}
    ensures r == Some(Down) <==> key in {"ArrowDown", "s", "S"}
    ensures r == Some(Left) <==> key in {"ArrowLeft", "a", "A"}
    ensures r == Some(Right) <==> key in {"ArrowRight", "d", "D"}
  {
    if key == "ArrowUp" || key == "w" || key == "W" then Some(Up)
    else if key == "ArrowDown" || key == "s" || key == "S" then Some(Down)
    else if key == "ArrowLeft" || key == "a" || key == "A" then Some(Left)
    else if key == "ArrowRight" || key == "d" || key == "D" then Some(Right)
    else None
  }

  const SPACE := " "

  /** The keyboard handler. Outside play every key is ignored; in play a steering key sets the
      pending direction and Space flips the status (which, in play, means pausing). */
  function KeyPress(s: GameState, key: string): (r: GameState)
    ensures s.status != Playing ==> r == s
    ensures s.status == Playing && KeyDirection(key).Some? ==>
      r == s.(pacman := s.pacman.(nextDirection := KeyDirection(key).value))
    ensures s.status == Playing && key == SPACE ==> r == s.(status := Paused)
    ensures KeyDirection(key).None? && key != SPACE ==> r == s
  {
    if s.status != Playing then s
    else match KeyDirection(key)
      case Some(d) => s.(pacman := s.pacman.(nextDirection := d))
      case None =>
        if key == SPACE then s.(status := if s.status == Playing then Paused else Playing)
        else s
  }

  /** No key brings a paused game back; only the start button does. */
  lemma KeysNeverResume(s: GameState, key: string)
    requires s.status == Paused
    ensures KeyPress(s, key).status == Paused
  {
  }

  /** Eating and colliding after a move: both judge the same state, eating's update lands first. */
  function Resolve(s: GameState): (r: GameState)
    requires 0 <= s.pacman.position.y < |s.maze|
  {
    CheckCollisions(s, EatDot(s, s))
  }

  /** A pellet eaten on the cell of a ghost that was not yet frightened still costs a life: the
      collision is judged against the ghost's old mode, although every ghost ends up frightened. */
  lemma PelletOnGhostCellStillCatches(s: GameState)
    requires 0 <= s.pacman.position.y < |s.maze|
    requires CellIs(s.maze, s.pacman.position, PELLET)
    requires var c := FirstCollision(s.ghosts, s.pacman.position);
      c.Some? && s.ghosts[c.value].mode != Frightened
    ensures var r := Resolve(s);
      && r.lives == s.lives - 1
      && r.pacman.position == PACMAN_RESPAWN
      && r.score == s.score + PELLET_SCORE
      && r.dotsRemaining == s.dotsRemaining - 1
      && forall i | 0 <= i < |r.ghosts| :: r.ghosts[i].mode == Frightened
  {
  }

  /** A runner step onto a dot with no ghost there, followed by the eat-and-collide effect:
      Pac-Man is on the dot's cell, which is now empty, the score is 10 higher and one fewer
      collectible remains. */
  lemma StepOntoDot(lay: Layout, s: GameState)
    requires Consistent(lay, s) && s.status == Playing
    requires var q := MoveEntity(lay, s.maze, s.pacman.position, s.pacman.nextDirection);
      q != s.pacman.position && CellIs(s.maze, q, DOT) &&
      forall i | 0 <= i < |s.ghosts| :: s.ghosts[i].position != q
    ensures var q := MoveEntity(lay, s.maze, s.pacman.position, s.pacman.nextDirection);
      var r := Apply(lay, Apply(lay, s, RunnerStep), Settle);
      && r.pacman.position == q
      && CellIs(r.maze, q, EMPTY)
      && r.score == s.score + DOT_SCORE
      && r.dotsRemaining == s.dotsRemaining - 1
      && r.dotsRemaining == CountItems(r.maze)
  {
    var t := Apply(lay, s, RunnerStep);
    RunnerStepConsistent(lay, s);
    SettleConsistent(lay, t);
  }

  datatype Verdict = Lost | Won | Undecided

  /** Why the win/lose check ends the game, if it does; running out of lives is tested first. */
  function Judge(s: GameState): (v: Verdict)
    ensures v == Lost <==> s.lives <= 0
    ensures v == Won <==> s.lives > 0 && s.dotsRemaining <= 0
  {
    if s.lives <= 0 then Lost
    else if s.dotsRemaining <= 0 then Won
    else Undecided
  }

  /** The win/lose check changes the status only, and only to game over. */
  function TerminalCheck(s: GameState): (r: GameState)
    ensures r == s.(status := r.status)
    ensures Judge(s) != Undecided ==> r.status == GameOver
    ensures Judge(s) == Undecided ==> r == s
  {
    if s.lives <= 0 then s.(status := GameOver)
    else if s.dotsRemaining <= 0 then s.(status := GameOver)
    else s
  }

  /** No lives and no dots at once is a loss, not a win. */
  lemma LossTakesPrecedence(s: GameState)
    requires s.lives <= 0 && s.dotsRemaining <= 0
    ensures Judge(s) == Lost && TerminalCheck(s).status == GameOver
  {
  }

  /** The component's mount state is the initial state with a remaining count of 0; the
      win/lose check reading it declares a win and ends the game before it ever starts. */
  lemma MountStateEndsGame(lay: Layout)
    ensures var m := CreateInitialGameState(lay).(dotsRemaining := 0);
      Judge(m) == Won && TerminalCheck(m).status == GameOver
  {
  }

  /** What a well-formed game state keeps true: the maze keeps the layout's shape and walls,
      the remaining count is the number of dots and pellets, everyone is on the grid, the four
      ghosts have distinct ids and none is ever in chase mode, and the score is non-negative. */
  predicate Consistent(lay: Layout, s: GameState)
  {
    && lay.Valid()
    && Shaped(s.maze, lay.width, lay.height)
    && SameWalls(s.maze, lay.initial)
    && s.dotsRemaining == CountItems(s.maze)
    && InGrid(lay, s.pacman.position)
    && |s.ghosts| == 4
    && DistinctIds(s.ghosts)
    && (forall i | 0 <= i < |s.ghosts| :: InGrid(lay, s.ghosts[i].position) && s.ghosts[i].mode != Chase)
    && s.score >= 0
  }

  /** Under the invariant a win means the maze holds no dot or pellet any more. */
  lemma WinMeansCleared(lay: Layout, s: GameState)
    requires Consistent(lay, s) && s.lives > 0
    ensures Judge(s) == Won <==> forall y, x | 0 <= y < |s.maze| && 0 <= x < |s.maze[y]| :: !IsItem(s.maze[y][x])
  {
    CountItemsZero(s.maze);
  }

  /** Everything that can happen to a game: the two timers' ticks, the effect that eats and
      collides, the win/lose check, a key, the two buttons, and the pellet timer firing. */
  datatype Event =
    | RunnerStep
    | GhostStep(rolls: seq<real>)
    | Settle
    | CheckEnd
    | Key(key: string)
    | Start
    | Reset
    | PelletTimeout

  /** A ghost step carries one roll in [0, 1) per ghost. */
  predicate Fits(e: Event)
  {
    e.GhostStep? ==> |e.rolls| == 4 && ValidRolls(e.rolls)
  }

  function Apply(lay: Layout, s: GameState, e: Event): (r: GameState)
    requires Consistent(lay, s) && Fits(e)
  {
    match e
    case RunnerStep => if s.status == Playing then RunnerTick(lay, s) else s
    case GhostStep(rolls) => if s.status == Playing then GhostTick(lay, s, rolls) else s
    case Settle => if s.status == Playing then Resolve(s) else s
    case CheckEnd => TerminalCheck(s)
    case Key(k) => KeyPress(s, k)
    case Start => StartGame(s)
    case Reset => ResetGame(lay)
    case PelletTimeout => PelletExpiry(s)
  }

  /** The ghost timer's callback is created once, at mount, and its moves read the mount-time
      maze. In any consistent state that maze gives exactly the ghost moves the current one does. */
  lemma GhostsReadMountMaze(lay: Layout, s: GameState, rolls: seq<real>)
    requires Consistent(lay, s) && |rolls| == |s.ghosts| && ValidRolls(rolls)
    ensures MoveGhosts(lay, lay.initial, s.ghosts, rolls) == GhostTick(lay, s, rolls).ghosts
  {
    var a := MoveGhosts(lay, lay.initial, s.ghosts, rolls);
    var b := GhostTick(lay, s, rolls).ghosts;
    forall i | 0 <= i < |s.ghosts| ensures a[i] == b[i] {
      MoveGhostSameWalls(lay, lay.initial, s.maze, s.ghosts[i], rolls[i]);
    }
  }

  lemma RunnerStepConsistent(lay: Layout, s: GameState)
    requires Consistent(lay, s)
    ensures Consistent(lay, RunnerTick(lay, s))
  {
    MoveStaysInGrid(lay, s.maze, s.pacman.position, RunnerTick(lay, s).pacman.direction);
  }

  lemma GhostStepConsistent(lay: Layout, s: GameState, rolls: seq<real>)
    requires Consistent(lay, s) && |rolls| == |s.ghosts| && ValidRolls(rolls)
    ensures Consistent(lay, GhostTick(lay, s, rolls))
  {
    var r := GhostTick(lay, s, rolls);
    forall i | 0 <= i < |s.ghosts| ensures InGrid(lay, r.ghosts[i].position) {
      MoveStaysInGrid(lay, s.maze, s.ghosts[i].position, r.ghosts[i].direction);
    }
  }

  lemma SettleConsistent(lay: Layout, s: GameState)
    requires Consistent(lay, s)
    ensures Consistent(lay, Resolve(s))
    ensures Resolve(s).score >= s.score
    ensures Resolve(s).dotsRemaining <= s.dotsRemaining
  {
    EatKeepsCount(s);
    var e := EatDot(s, s);
    SameWallsTransitive(lay.initial, s.maze, e.maze);
    assert SameWalls(e.maze, lay.initial);
    var r := CheckCollisions(s, e);
    var c := FirstCollision(s.ghosts, s.pacman.position);
    if c.Some? && s.ghosts[c.value].mode == Frightened {
      assert forall i | 0 <= i < |e.ghosts| :: e.ghosts[i].id == s.ghosts[i].id;
    }
  }

  /** Every event keeps the invariant. */
  lemma ApplyConsistent(lay: Layout, s: GameState, e: Event)
    requires Consistent(lay, s) && Fits(e)
    ensures Consistent(lay, Apply(lay, s, e))
  {
    match e
    case RunnerStep => if s.status == Playing { RunnerStepConsistent(lay, s); }
    case GhostStep(rolls) => if s.status == Playing { GhostStepConsistent(lay, s, rolls); }
    case Settle => if s.status == Playing { SettleConsistent(lay, s); }
    case _ =>
  }

  /** Except on reset, the score never drops and the remaining count never rises. */
  lemma ApplyMonotone(lay: Layout, s: GameState, e: Event)
    requires Consistent(lay, s) && Fits(e)
    ensures !e.Reset? ==> Apply(lay, s, e).score >= s.score
    ensures !e.Reset? ==> Apply(lay, s, e).dotsRemaining <= s.dotsRemaining
    ensures Apply(lay, s, e).maze != s.maze ==> e.Settle? || e.Reset?
  {
    if e.Settle? && s.status == Playing {
      SettleConsistent(lay, s);
    }
  }

  /** Running a whole sequence of events from a consistent state. */
  function Run(lay: Layout, s: GameState, es: seq<Event>): (r: GameState)
    requires Consistent(lay, s)
    requires forall i | 0 <= i < |es| :: Fits(es[i])
    ensures Consistent(lay, r)
    ensures (forall i | 0 <= i < |es| :: !es[i].Reset?) ==> r.score >= s.score && r.dotsRemaining <= s.dotsRemaining
    decreases |es|
  {
    if |es| == 0 then s
    else
      ApplyConsistent(lay, s, es[0]);
      ApplyMonotone(lay, s, es[0]);
      Run(lay, Apply(lay, s, es[0]), es[1..])
  }

  /** Every state the game can reach from a reset is consistent: in particular the remaining
      count always equals the number of dots and pellets left in the maze. */
  lemma ReachableConsistent(lay: Layout, es: seq<Event>)
    requires lay.Valid()
    requires forall i | 0 <= i < |es| :: Fits(es[i])
    ensures var r := Run(lay, ResetGame(lay), es);
      && r.dotsRemaining == CountItems(r.maze)
      && SameWalls(r.maze, lay.initial)
      && forall i | 0 <= i < |r.ghosts| :: r.ghosts[i].mode != Chase
  {
  }
}
