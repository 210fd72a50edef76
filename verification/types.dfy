/** Optional values, standing in for the `null` the game returns for
    off-board lookups and empty candidate lists. */
module Wrappers {

  datatype Option<+T> = None | Some(value: T)

}

/** The vocabulary shared by every part of the rule engine: grid
    coordinates, ship orientation, cell states, ships, cells and boards. */
module Types {
  import opened Wrappers

  /** Every board is a square of Dim × Dim cells (a 10 × 10 BoardData). */
  const Dim: int := 10

  /** A grid coordinate: column x, row y. */
  datatype Coord = Coord(x: int, y: int)

  datatype Direction = Horizontal | Vertical

  /** The states the game actually assigns to a cell.  `Bombed` marks a
      missed shot as well as an automatically ruled-out neighbour; `Hollow`
      marks the cells of a ship that is being dragged. */
  datatype CellState = Empty | Bombed | Ship | ShipBombed | ShipDestroyed | Hollow

  /** Whose board a cell belongs to; it decides what is clickable. */
  datatype PlayerType = Player | Enemy

  predicate OnBoard(c: Coord) {
    0 <= c.x < Dim && 0 <= c.y < Dim
  }

  /** A ship: its origin, length and orientation, plus the drag state (the
      grid coordinate and orientation the ship would be dropped at, and
      whether it is being dragged). */
  datatype Ship = ShipAt(
    start: Coord,
    size: nat,
    direction: Direction,
    dragCoords: Coord,
    dragDirection: Direction,
    dragged: bool)

  /** A freshly constructed ship: the drag target starts as a copy of the
      origin and orientation, and the ship is not being dragged. */
  function NewShip(start: Coord, size: nat, direction: Direction): (s: Ship)
    ensures s.start == s.dragCoords == start
    ensures s.direction == s.dragDirection == direction
    ensures s.size == size && !s.dragged
  {
    ShipAt(start, size, direction, start, direction, false)
  }

  /** The ship is at rest: not dragged and its drag target equals its place. */
  predicate AtRest(s: Ship) {
    !s.dragged && s.dragCoords == s.start && s.dragDirection == s.direction
  }

  /** The i-th cell of a ship: i steps from the origin along its direction. */
  function Part(s: Ship, i: int): Coord {
    match s.direction
    case Horizontal => Coord(s.start.x + i, s.start.y)
    case Vertical => Coord(s.start.x, s.start.y + i)
  }

  /** The footprint of a ship, origin first. */
  function Footprint(s: Ship): (r: seq<Coord>)
    ensures |r| == s.size
    ensures forall i :: 0 <= i < |r| ==> r[i] == Part(s, i)
  {
    seq(s.size, i => Part(s, i))
  }

  /** Whether a ship covers a coordinate, stated as a segment of a row or a
      column rather than through the list of parts. */
  predicate Covers(s: Ship, c: Coord) {
    match s.direction
    case Horizontal => c.y == s.start.y && s.start.x <= c.x < s.start.x + s.size
    case Vertical => c.x == s.start.x && s.start.y <= c.y < s.start.y + s.size
  }

  lemma CoversIffPart(s: Ship, c: Coord)
    ensures Covers(s, c) <==> exists i :: 0 <= i < s.size && Part(s, i) == c
  {
    if Covers(s, c) {
      var i := if s.direction == Horizontal then c.x - s.start.x else c.y - s.start.y;
      assert Part(s, i) == c;
    }
  }

  /** A coordinate is covered exactly when it is in the footprint. */
  lemma CoversIffInFootprint(s: Ship, c: Coord)
    ensures Covers(s, c) <==> c in Footprint(s)
  {
    CoversIffPart(s, c);
    if c in Footprint(s) {
      var i :| 0 <= i < s.size && Footprint(s)[i] == c;
      assert Part(s, i) == c;
    }
  }

  /** Every cell of the ship lies on the board. */
  predicate OnBoardShip(s: Ship) {
    forall i :: 0 <= i < s.size ==> OnBoard(Part(s, i))
  }

  /** Ships with the same origin, length and orientation occupy the same
      cells, whatever their drag state. */
  lemma SamePlace(s: Ship, t: Ship)
    requires s.start == t.start && s.size == t.size && s.direction == t.direction
    ensures forall i :: Part(s, i) == Part(t, i)
    ensures forall c :: Covers(s, c) <==> Covers(t, c)
    ensures OnBoardShip(s) <==> OnBoardShip(t)
  {
  }

  /** Two coordinates lie in one 3 × 3 block (Chebyshev distance at most 1). */
  predicate Near(a: Coord, b: Coord) {
    -1 <= a.x - b.x <= 1 && -1 <= a.y - b.y <= 1
  }

  /** Two ships overlap or touch, sides or corners. */
  predicate Touch(s: Ship, t: Ship) {
    exists i, j :: 0 <= i < s.size && 0 <= j < t.size && Near(Part(s, i), Part(t, j))
  }

  lemma TouchSym(s: Ship, t: Ship)
    ensures Touch(s, t) <==> Touch(t, s)
  {
    if Touch(s, t) {
      var i, j :| 0 <= i < s.size && 0 <= j < t.size && Near(Part(s, i), Part(t, j));
      assert Near(Part(t, j), Part(s, i));
    }
    if Touch(t, s) {
      var j, i :| 0 <= j < t.size && 0 <= i < s.size && Near(Part(t, j), Part(s, i));
      assert Near(Part(s, i), Part(t, j));
    }
  }

  /** No two ships of the list overlap or touch. */
  predicate NoTouch(ships: seq<Ship>) {
    forall k, l :: 0 <= k < l < |ships| ==> !Touch(ships[k], ships[l])
  }

  /** A cell of the board: where it is, its state, and the index in the
      board's ship list of the ship it was last linked to. */
  datatype Cell = Cell(coords: Coord, state: CellState, ship: Option<nat>)

  /** Cells stored row by row: g[y][x]. */
  type Grid = seq<seq<Cell>>

  /** The rule-relevant part of one side's board: its cells and its fleet. */
  datatype Board = Board(cells: Grid, ships: seq<Ship>)

  /** randomInt(bottom, top): the random source is injected as a natural
      number, and the result is some integer in [bottom, top]. */
  function RandomInt(bottom: int, top: int, rnd: nat): (r: int)
    requires bottom <= top
    ensures bottom <= r <= top
  {
    bottom + rnd % (1 + top - bottom)
  }

}
