/** Queries on the maze grid and the count of collectibles it holds. */
module Grid {
  import opened Types

  const WALL := 0
  const DOT := 1
  const PELLET := 2
  const EMPTY := 3

  /** The maze data the engine is built against: its declared width and height and the initial grid. */
  datatype Layout = Layout(width: int, height: int, initial: Maze)
  {
    /** A rectangular width x height grid of values 0..3, large enough to hold every spawn point. */
    predicate Valid()
    {
      && width > 14 && height > 26
      && Shaped(initial, width, height)
    }
  }

  /** `m` has `h` rows of `w` cells each, every cell one of the four cell kinds. */
  predicate Shaped(m: Maze, w: int, h: int)
  {
    && |m| == h
    && (forall y | 0 <= y < |m| :: |m[y]| == w)
    && (forall y, x | 0 <= y < |m| && 0 <= x < |m[y]| :: WALL <= m[y][x] <= EMPTY)
  }

  /** The cell at `p` exists in `m` and holds `v`. A missing row or column holds nothing. */
  predicate CellIs(m: Maze, p: Position, v: int)
  {
    0 <= p.y < |m| && 0 <= p.x < |m[p.y]| && m[p.y][p.x] == v
  }

  predicate IsWall(m: Maze, p: Position)
  {
    CellIs(m, p, WALL)
  }

  predicate InGrid(lay: Layout, p: Position)
  {
    0 <= p.x < lay.width && 0 <= p.y < lay.height
  }

  predicate IsItem(v: int)
  {
    v == DOT || v == PELLET
  }

  /** `m` and `m'` have the same shape and walls in the same cells. */
  predicate SameWalls(m: Maze, m': Maze)
  {
    && |m| == |m'|
    && (forall y | 0 <= y < |m| :: |m[y]| == |m'[y]|)
    && (forall y, x | 0 <= y < |m| && 0 <= x < |m[y]| :: (m[y][x] == WALL <==> m'[y][x] == WALL))
  }

  lemma SameWallsSameTest(m: Maze, m': Maze, p: Position)
    requires SameWalls(m, m')
    ensures IsWall(m, p) <==> IsWall(m', p)
  {
  }

  lemma SameWallsTransitive(m: Maze, m': Maze, m'': Maze)
    requires SameWalls(m, m') && SameWalls(m', m'')
    ensures SameWalls(m, m'')
  {
  }

  /** `m'` is `m` with the single cell at `p` replaced by `v`. */
  predicate UpdatedAt(m: Maze, m': Maze, p: Position, v: int)
  {
    && |m'| == |m|
    && (forall y | 0 <= y < |m| :: |m'[y]| == |m[y]|)
    && (forall y, x | 0 <= y < |m| && 0 <= x < |m[y]| ::
          m'[y][x] == if y == p.y && x == p.x then v else m[y][x])
  }

  function SetCell(m: Maze, p: Position, v: int): (m': Maze)
    requires 0 <= p.y < |m| && 0 <= p.x < |m[p.y]|
    ensures UpdatedAt(m, m', p, v)
  {
    m[p.y := m[p.y][p.x := v]]
  }

  /** Number of dots and pellets in one row. */
  function RowItems(row: seq<int>): nat
  {
    if |row| == 0 then 0 else (if IsItem(row[0]) then 1 else 0) + RowItems(row[1..])
  }

  /** Number of cells holding a dot or a pellet, row after row: the length of the flattened
      grid filtered to values 1 and 2. */
  function CountItems(m: Maze): nat
  {
    if |m| == 0 then 0 else RowItems(m[0]) + CountItems(m[1..])
  }

  /** Replacing one collectible in a row by a non-collectible lowers the row's count by exactly one. */
  lemma {:induction false} RowItemsConsume(row: seq<int>, x: int, v: int)
    requires 0 <= x < |row| && IsItem(row[x]) && !IsItem(v)
    ensures RowItems(row[x := v]) == RowItems(row) - 1
  {
    if x == 0 {
      assert row[x := v][1..] == row[1..];
    } else {
      assert row[x := v][1..] == row[1..][x - 1 := v];
      RowItemsConsume(row[1..], x - 1, v);
    }
  }

  /** Consuming one collectible cell lowers the grid's count by exactly one. */
  lemma {:induction false} CountItemsConsume(m: Maze, p: Position, v: int)
    requires 0 <= p.y < |m| && 0 <= p.x < |m[p.y]| && IsItem(m[p.y][p.x]) && !IsItem(v)
    ensures CountItems(SetCell(m, p, v)) == CountItems(m) - 1
  {
    var m' := SetCell(m, p, v);
    if p.y == 0 {
      assert m'[1..] == m[1..];
      RowItemsConsume(m[0], p.x, v);
    } else {
      var p' := Position(p.x, p.y - 1);
      assert m'[1..] == SetCell(m[1..], p', v);
      CountItemsConsume(m[1..], p', v);
    }
  }

  /** A grid with no collectible left counts zero, and a positive count means some cell holds one. */
  lemma {:induction false} CountItemsZero(m: Maze)
    ensures CountItems(m) == 0 <==> forall y, x | 0 <= y < |m| && 0 <= x < |m[y]| :: !IsItem(m[y][x])
  {
    if |m| > 0 {
      CountItemsZero(m[1..]);
      RowItemsZero(m[0]);
      if CountItems(m) == 0 {
        forall y, x | 0 <= y < |m| && 0 <= x < |m[y]| ensures !IsItem(m[y][x]) {
          if y > 0 {
            assert m[y] == m[1..][y - 1];
          }
        }
      } else if RowItems(m[0]) == 0 {
        var y, x :| 0 <= y < |m[1..]| && 0 <= x < |m[1..][y]| && IsItem(m[1..][y][x]);
        assert m[y + 1][x] == m[1..][y][x];
      }
    }
  }

  lemma {:induction false} RowItemsZero(row: seq<int>)
    ensures RowItems(row) == 0 <==> forall x | 0 <= x < |row| :: !IsItem(row[x])
  {
    if |row| > 0 {
      RowItemsZero(row[1..]);
      if RowItems(row) == 0 {
        forall x | 0 <= x < |row| ensures !IsItem(row[x]) {
          if x > 0 {
            assert row[x] == row[1..][x - 1];
          }
        }
      }
    }
  }
}
