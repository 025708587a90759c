/** `checkCollisions` (src/components/PacManGame.tsx): the first ghost, in list order, on
    Pac-Man's cell is either eaten or catches Pac-Man. Like eating, the decision reads `snap`
    and the update applies to `prev`. */
module Collisions {
  import opened Types

  const GHOST_SCORE := 200
  /** Where an eaten ghost reappears and where a caught Pac-Man restarts. */
  const GHOST_RESPAWN := Position(13, 13)
  const PACMAN_RESPAWN := Position(13, 26)

  /** Index of the first ghost standing on `p`, if any. */
  function FirstCollision(gs: seq<Ghost>, p: Position): (r: Option<nat>)
    ensures r.Some? ==> r.value < |gs| && gs[r.value].position == p
    ensures r.Some? ==> forall j | 0 <= j < r.value :: gs[j].position != p
    ensures r.None? ==> forall j | 0 <= j < |gs| :: gs[j].position != p
  {
    if |gs| == 0 then None
    else if gs[0].position == p then Some(0)
    else
      match FirstCollision(gs[1..], p)
      case None => None
      case Some(i) => Some(i + 1)
  }

  /** Every ghost with the given id goes home in scatter mode; the others are untouched. */
  function SendHome(gs: seq<Ghost>, id: int): (r: seq<Ghost>)
    ensures |r| == |gs|
    ensures forall j | 0 <= j < |gs| ::
      r[j] == if gs[j].id == id then gs[j].(position := GHOST_RESPAWN, mode := Scatter) else gs[j]
  {
    seq(|gs|, j requires 0 <= j < |gs| =>
      if gs[j].id == id then gs[j].(position := GHOST_RESPAWN, mode := Scatter) else gs[j])
  }

  function CheckCollisions(snap: GameState, prev: GameState): (r: GameState)
    ensures FirstCollision(snap.ghosts, snap.pacman.position).None? ==> r == prev
    ensures var c := FirstCollision(snap.ghosts, snap.pacman.position);
      c.Some? && snap.ghosts[c.value].mode == Frightened ==>
        && r.score == prev.score + GHOST_SCORE
        && r.ghosts == SendHome(prev.ghosts, snap.ghosts[c.value].id)
        && r == prev.(score := r.score, ghosts := r.ghosts)
    ensures var c := FirstCollision(snap.ghosts, snap.pacman.position);
      c.Some? && snap.ghosts[c.value].mode != Frightened ==>
        && r.lives == prev.lives - 1
        && r.pacman == prev.pacman.(position := PACMAN_RESPAWN)
        && r == prev.(lives := r.lives, pacman := r.pacman)
  {
    match FirstCollision(snap.ghosts, snap.pacman.position)
    case None => prev
    case Some(i) =>
      var g := snap.ghosts[i];
      if g.mode == Frightened then
        prev.(score := prev.score + GHOST_SCORE, ghosts := SendHome(prev.ghosts, g.id))
      else
        prev.(lives := prev.lives - 1, pacman := prev.pacman.(position := PACMAN_RESPAWN))
  }

  /** With distinct ids, eating a frightened ghost moves that ghost alone: it goes home in
      scatter mode, every other ghost, the lives and Pac-Man stay as they were. */
  lemma EatenGhostAlone(s: GameState)
    requires DistinctIds(s.ghosts)
    requires var c := FirstCollision(s.ghosts, s.pacman.position);
      c.Some? && s.ghosts[c.value].mode == Frightened
    ensures var i := FirstCollision(s.ghosts, s.pacman.position).value;
      var r := CheckCollisions(s, s);
      && r.score == s.score + GHOST_SCORE
      && r.lives == s.lives && r.pacman == s.pacman
      && |r.ghosts| == |s.ghosts|
      && r.ghosts[i] == s.ghosts[i].(position := GHOST_RESPAWN, mode := Scatter)
      && forall j | 0 <= j < |s.ghosts| && j != i :: r.ghosts[j] == s.ghosts[j]
  {
    var i := FirstCollision(s.ghosts, s.pacman.position).value;
    var r := CheckCollisions(s, s);
    forall j | 0 <= j < |s.ghosts| && j != i ensures r.ghosts[j] == s.ghosts[j] {
      if j < i {
        assert s.ghosts[j].id != s.ghosts[i].id;
      } else {
        assert s.ghosts[i].id != s.ghosts[j].id;
      }
    }
  }

  /** Being caught costs exactly one life and sends only Pac-Man back; the ghosts stay. */
  lemma CaughtLosesOneLife(s: GameState)
    requires var c := FirstCollision(s.ghosts, s.pacman.position);
      c.Some? && s.ghosts[c.value].mode != Frightened
    ensures var r := CheckCollisions(s, s);
      && r.lives == s.lives - 1
      && r.pacman.position == PACMAN_RESPAWN
      && r.pacman.direction == s.pacman.direction
      && r.ghosts == s.ghosts && r.score == s.score
  {
  }
}
