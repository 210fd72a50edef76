/** Grid queries of one board: bounds-checked lookup, the "safe cell" rule
    used by placement, ship footprints, neighbourhoods, and re-marking the
    cells from the ship list (boardData.ts). */
module BoardData {
  import opened Wrappers
  import opened Types

  /** Dim rows of Dim cells, each cell knowing its own coordinates. */
  predicate WellFormed(g: Grid) {
    |g| == Dim &&
    forall y :: 0 <= y < Dim ==>
      |g[y]| == Dim && forall x :: 0 <= x < Dim ==> g[y][x].coords == Coord(x, y)
  }

  /** The cell at an on-board coordinate. */
  function At(g: Grid, c: Coord): Cell
    requires WellFormed(g) && OnBoard(c)
  {
    g[c.y][c.x]
  }

  /** The cell stored at an on-board coordinate knows that coordinate. */
  lemma AtCoords(g: Grid, c: Coord)
    requires WellFormed(g) && OnBoard(c)
    ensures At(g, c).coords == c
  {
  }

  /** A fresh board: every cell Empty, linked to no ship, at its own place. */
  function CreateBoardCells(): (g: Grid)
    ensures WellFormed(g)
    ensures forall c :: OnBoard(c) ==> At(g, c) == Cell(c, Empty, None)
  {
    seq(Dim, y => seq(Dim, x => Cell(Coord(x, y), Empty, None)))
  }

  /** Store a cell at the place its own coordinates name. */
  function AddCell(g: Grid, cell: Cell): (r: Grid)
    requires WellFormed(g) && OnBoard(cell.coords)
    ensures WellFormed(r)
    ensures At(r, cell.coords) == cell
    ensures forall c :: OnBoard(c) && c != cell.coords ==> At(r, c) == At(g, c)
  {
    g[cell.coords.y := g[cell.coords.y][cell.coords.x := cell]]
  }

  /** Looking a cell up: a cell exactly on the board, `None` (the game's
      null) everywhere else. */
  function CellAt(g: Grid, c: Coord): (r: Option<Cell>)
    requires WellFormed(g)
    ensures r.Some? <==> 0 <= c.x < Dim && 0 <= c.y < Dim
    ensures r.Some? ==> r.value.coords == c && r.value == g[c.y][c.x]
  {
    if c.x >= 0 && c.y >= 0 && c.x < Dim && c.y < Dim then Some(g[c.y][c.x]) else None
  }

  /** A coordinate is safe for placement when it is off the board, or its
      cell is Empty or Hollow. */
  predicate IsCellSafe(g: Grid, c: Coord)
    requires WellFormed(g)
  {
    if c.x < 0 || c.y < 0 || c.x >= Dim || c.y >= Dim then true
    else CellAt(g, c).value.state in {Empty, Hollow}
  }

  /** The states that make a cell unsafe: something is, or was, there. */
  predicate Blocking(st: CellState) {
    st == Ship || st == Bombed || st == ShipBombed || st == ShipDestroyed
  }

  lemma SafeIffNotBlocking(g: Grid, c: Coord)
    requires WellFormed(g)
    ensures IsCellSafe(g, c) <==> !OnBoard(c) || !Blocking(At(g, c).state)
  {
  }

  /** The nine offsets of a 3 × 3 block, in the order the game visits them
      (column offset outer, row offset inner). */
  function BlockOffsets(): (r: seq<Coord>)
    ensures |r| == 9
    ensures forall k :: 0 <= k < 9 ==> r[k] == Coord(k / 3 - 1, k % 3 - 1)
  {
    [Coord(-1, -1), Coord(-1, 0), Coord(-1, 1),
     Coord(0, -1), Coord(0, 0), Coord(0, 1),
     Coord(1, -1), Coord(1, 0), Coord(1, 1)]
  }

  /** Every offset from `from` on, applied to c, is safe (the early-exit loop). */
  predicate AllSafeFrom(g: Grid, c: Coord, offs: seq<Coord>, from: nat)
    requires WellFormed(g) && from <= |offs|
    decreases |offs| - from
  {
    if from == |offs| then true
    else if !IsCellSafe(g, Coord(c.x + offs[from].x, c.y + offs[from].y)) then false
    else AllSafeFrom(g, c, offs, from + 1)
  }

  /** The early-exit loop answers true exactly when no remaining offset
      leads to an unsafe coordinate. */
  lemma {:induction false} AllSafeFromIff(g: Grid, c: Coord, offs: seq<Coord>, from: nat)
    requires WellFormed(g) && from <= |offs|
    ensures AllSafeFrom(g, c, offs, from) <==>
      forall k :: from <= k < |offs| ==> IsCellSafe(g, Coord(c.x + offs[k].x, c.y + offs[k].y))
    decreases |offs| - from
  {
    if from < |offs| {
      AllSafeFromIff(g, c, offs, from + 1);
    }
  }

  /** isCellAndSurroundingsSave: the cell and all eight around it are safe. */
  predicate IsCellAndSurroundingsSafe(g: Grid, c: Coord)
    requires WellFormed(g)
  {
    AllSafeFrom(g, c, BlockOffsets(), 0)
  }

  /** No on-board cell of the 3 × 3 block centred on c holds a ship or a
      shot. */
  ghost predicate BlockClear(g: Grid, c: Coord)
    requires WellFormed(g)
  {
    forall d :: OnBoard(d) && Near(d, c) ==> !Blocking(At(g, d).state)
  }

  /** The 3 × 3 check holds exactly when all nine coordinates of the block
      centred on c are safe, that is, when nothing there is blocking. */
  lemma IsCellAndSurroundingsSafeIff(g: Grid, c: Coord)
    requires WellFormed(g)
    ensures IsCellAndSurroundingsSafe(g, c) <==> forall d :: Near(d, c) ==> IsCellSafe(g, d)
    ensures IsCellAndSurroundingsSafe(g, c) <==> BlockClear(g, c)
  {
    var offs := BlockOffsets();
    AllSafeFromIff(g, c, offs, 0);
    if IsCellAndSurroundingsSafe(g, c) {
      forall d | Near(d, c) ensures IsCellSafe(g, d) {
        var k := (d.x - c.x + 1) * 3 + (d.y - c.y + 1);
        assert offs[k] == Coord(d.x - c.x, d.y - c.y);
      }
    }
    if forall d :: Near(d, c) ==> IsCellSafe(g, d) {
      forall k | 0 <= k < 9 ensures Near(Coord(c.x + offs[k].x, c.y + offs[k].y), c) { }
    }
    forall d ensures IsCellSafe(g, d) <==> !OnBoard(d) || !Blocking(At(g, d).state) {
      SafeIffNotBlocking(g, d);
    }
  }

  /** The cells under a ship, origin first; off-board parts are `None`. */
  function CellsForShip(g: Grid, s: Ship): (r: seq<Option<Cell>>)
    requires WellFormed(g)
    ensures |r| == s.size
    ensures forall i :: 0 <= i < s.size ==>
      r[i] == CellAt(g, if s.direction == Horizontal then Coord(s.start.x + i, s.start.y)
                        else Coord(s.start.x, s.start.y + i))
  {
    seq(s.size, i requires 0 <= i < s.size => CellAt(g, Part(s, i)))
  }

  /** The four corner lookups, in the game's order, `None` off the board. */
  function DiagonalLookups(g: Grid, c: Coord): (all: seq<Option<Cell>>)
    requires WellFormed(g)
    ensures forall d :: OnBoard(d) && IsDiagonal(d, c) ==> Some(At(g, d)) in all
    ensures forall cell :: Some(cell) in all ==>
      OnBoard(cell.coords) && cell == At(g, cell.coords) && IsDiagonal(cell.coords, c)
  {
    [CellAt(g, Coord(c.x - 1, c.y - 1)), CellAt(g, Coord(c.x - 1, c.y + 1)),
     CellAt(g, Coord(c.x + 1, c.y - 1)), CellAt(g, Coord(c.x + 1, c.y + 1))]
  }

  /** The on-board diagonal neighbours, in the game's order. */
  function DiagonalCells(g: Grid, c: Coord): (r: seq<Cell>)
    requires WellFormed(g)
    ensures |r| <= 4
    ensures forall k :: 0 <= k < |r| ==>
      OnBoard(r[k].coords) && r[k] == At(g, r[k].coords) && IsDiagonal(r[k].coords, c)
    ensures forall d :: OnBoard(d) && IsDiagonal(d, c) ==> At(g, d) in r
  {
    var r := Present(DiagonalLookups(g, c));
    assert forall k :: 0 <= k < |r| ==> r[k] in r;
    r
  }

  /** d is one of the four corner neighbours of c. */
  predicate IsDiagonal(d: Coord, c: Coord) {
    (d.x - c.x == 1 || d.x - c.x == -1) && (d.y - c.y == 1 || d.y - c.y == -1)
  }

  /** The present values of a list of optional cells, in order. */
  function Present(cs: seq<Option<Cell>>): (r: seq<Cell>)
    ensures |r| <= |cs|
    ensures forall cell :: cell in r <==> Some(cell) in cs
  {
    if cs == [] then []
    else
      var rest := Present(cs[1..]);
      assert forall o :: o in cs <==> o == cs[0] || o in cs[1..];
      if cs[0].Some? then [cs[0].value] + rest else rest
  }

  /** The whole 3 × 3 block around c, centre included, column offset outer;
      off-board positions are `None`. */
  function SurroundingCells(g: Grid, c: Coord): (r: seq<Option<Cell>>)
    requires WellFormed(g)
    ensures |r| == 9
    ensures forall i, j :: -1 <= i <= 1 && -1 <= j <= 1 ==>
      r[BlockIndex(i, j)] == CellAt(g, Coord(c.x + i, c.y + j))
  {
    seq(9, k => CellAt(g, Coord(c.x + k / 3 - 1, c.y + k % 3 - 1)))
  }

  /** Where offset (i, j) sits in the nine-entry neighbourhood list. */
  function BlockIndex(i: int, j: int): int {
    (i + 1) * 3 + (j + 1)
  }

  /** Every coordinate of the 3 × 3 block around c has an entry, and every
      entry is for a coordinate of the block. */
  lemma SurroundingCellsCoverBlock(g: Grid, c: Coord)
    requires WellFormed(g)
    ensures forall d :: OnBoard(d) && Near(d, c) ==> Some(At(g, d)) in SurroundingCells(g, c)
    ensures forall o :: o in SurroundingCells(g, c) && o.Some? ==> Near(o.value.coords, c)
  {
    var r := SurroundingCells(g, c);
    forall d | OnBoard(d) && Near(d, c) ensures Some(At(g, d)) in r {
      assert r[BlockIndex(d.x - c.x, d.y - c.y)] == Some(At(g, d));
    }
  }

  /** Apply a cell rewrite to every cell of the board. */
  function Rewrite(g: Grid, f: Cell -> Cell): (r: Grid)
    requires WellFormed(g)
    requires forall cell :: f(cell).coords == cell.coords
    ensures WellFormed(r)
    ensures forall c :: OnBoard(c) ==> At(r, c) == f(At(g, c))
  {
    seq(Dim, y requires 0 <= y < Dim => seq(Dim, x requires 0 <= x < Dim => f(g[y][x])))
  }

  /** Change the state of one on-board cell. */
  function SetState(g: Grid, c: Coord, st: CellState): (r: Grid)
    requires WellFormed(g) && OnBoard(c)
    ensures WellFormed(r)
    ensures At(r, c) == At(g, c).(state := st)
    ensures forall d :: OnBoard(d) && d != c ==> At(r, d) == At(g, d)
  {
    g[c.y := g[c.y][c.x := g[c.y][c.x].(state := st)]]
  }

  /** Give every cell under ship s the state st, keeping its ship link. */
  function SetFootprint(g: Grid, s: Ship, st: CellState): (r: Grid)
    requires WellFormed(g)
    ensures WellFormed(r)
    ensures forall c :: OnBoard(c) ==>
      At(r, c) == if Covers(s, c) then At(g, c).(state := st) else At(g, c)
  {
    Rewrite(g, (cell: Cell) => if Covers(s, cell.coords) then cell.(state := st) else cell)
  }

  /** Two boards with the same cell at every coordinate are the same board. */
  lemma GridExt(a: Grid, b: Grid)
    requires WellFormed(a) && WellFormed(b)
    requires forall c :: OnBoard(c) ==> At(a, c) == At(b, c)
    ensures a == b
  {
    forall y | 0 <= y < Dim ensures a[y] == b[y] {
      forall x | 0 <= x < Dim ensures a[y][x] == b[y][x] {
        assert At(a, Coord(x, y)) == At(b, Coord(x, y));
      }
    }
  }

  /** Mark the cells of one ship as Ship and link them to ship number id. */
  function MarkShip(g: Grid, s: Ship, id: nat): (r: Grid)
    requires WellFormed(g)
    ensures WellFormed(r)
    ensures forall c :: OnBoard(c) ==>
      At(r, c) == if Covers(s, c) then At(g, c).(state := Ship, ship := Some(id)) else At(g, c)
  {
    Rewrite(g, (cell: Cell) => if Covers(s, cell.coords) then cell.(state := Ship, ship := Some(id)) else cell)
  }

  /** No ship of the list covers c. */
  predicate Uncovered(ships: seq<Ship>, c: Coord) {
    forall k :: 0 <= k < |ships| ==> !Covers(ships[k], c)
  }

  /** Every ship of the list lies wholly on the board. */
  predicate FleetOnBoard(ships: seq<Ship>) {
    forall k :: 0 <= k < |ships| ==> OnBoardShip(ships[k])
  }

  /** Replacing one ship by one lying on the board keeps the fleet on it. */
  lemma FleetUpdate(ships: seq<Ship>, k: nat, t: Ship)
    requires FleetOnBoard(ships) && k < |ships| && OnBoardShip(t)
    ensures FleetOnBoard(ships[k := t])
  {
  }

  /** Mark the first n ships of the list, in list order, so a later ship
      overwrites an earlier one where they share a cell. */
  function MarkShips(g: Grid, ships: seq<Ship>, n: nat): (r: Grid)
    requires WellFormed(g) && n <= |ships|
    ensures WellFormed(r)
    ensures forall c :: OnBoard(c) && (forall k :: 0 <= k < n ==> !Covers(ships[k], c)) ==>
      At(r, c) == At(g, c)
    ensures forall c, k :: OnBoard(c) && 0 <= k < n && Covers(ships[k], c) ==> At(r, c).state == Ship
  {
    if n == 0 then g
    else MarkShip(MarkShips(g, ships, n - 1), ships[n - 1], n - 1)
  }

  /** A cell covered by ship k and by no later ship of the first n ends up
      linked to ship k. */
  lemma {:induction false} MarkShipsLast(g: Grid, ships: seq<Ship>, n: nat, c: Coord, k: nat)
    requires WellFormed(g) && n <= |ships| && OnBoard(c)
    requires k < n && Covers(ships[k], c) && forall l :: k < l < n ==> !Covers(ships[l], c)
    ensures At(MarkShips(g, ships, n), c) == At(g, c).(state := Ship, ship := Some(k))
  {
    if k < n - 1 {
      MarkShipsLast(g, ships, n - 1, c, k);
    }
  }

  /** Re-mark the board from the whole ship list: every covered cell becomes
      Ship, linked to the last listed ship covering it; every other cell is
      left as it was. */
  function UpdateAfterAddShip(g: Grid, ships: seq<Ship>): (r: Grid)
    requires WellFormed(g) && FleetOnBoard(ships)
    ensures WellFormed(r)
    ensures forall c :: OnBoard(c) && Uncovered(ships, c) ==>
      At(r, c) == At(g, c)
    ensures forall c, k ::
      OnBoard(c) && 0 <= k < |ships| && Covers(ships[k], c) && (forall l :: k < l < |ships| ==> !Covers(ships[l], c))
      ==> At(r, c) == At(g, c).(state := Ship, ship := Some(k))
    ensures forall c, k :: OnBoard(c) && 0 <= k < |ships| && Covers(ships[k], c) ==> At(r, c).state == Ship
  {
    var r := MarkShips(g, ships, |ships|);
    assert forall c, k ::
      OnBoard(c) && 0 <= k < |ships| && Covers(ships[k], c) && (forall l :: k < l < |ships| ==> !Covers(ships[l], c))
      ==> At(r, c) == At(g, c).(state := Ship, ship := Some(k)) by {
      forall c, k | OnBoard(c) && 0 <= k < |ships| && Covers(ships[k], c) && (forall l :: k < l < |ships| ==> !Covers(ships[l], c))
        ensures At(r, c) == At(g, c).(state := Ship, ship := Some(k))
      {
        MarkShipsLast(g, ships, |ships|, c, k);
      }
    }
    r
  }

  /** Ships that do not touch never share a cell, so on a non-touching fleet
      every covered cell is Ship and linked to the one ship covering it. */
  lemma UpdateAfterAddShipNoTouch(g: Grid, ships: seq<Ship>, c: Coord, k: nat)
    requires WellFormed(g) && FleetOnBoard(ships) && NoTouch(ships)
    requires OnBoard(c) && k < |ships| && Covers(ships[k], c)
    ensures At(UpdateAfterAddShip(g, ships), c) == At(g, c).(state := Ship, ship := Some(k))
  {
    forall l | k < l < |ships| ensures !Covers(ships[l], c) {
      CoversIffPart(ships[k], c);
      CoversIffPart(ships[l], c);
      assert !Touch(ships[k], ships[l]);
    }
  }


  /** States of a cell that holds a piece of a ship. */
  predicate IsShipState(st: CellState) {
    st == Ship || st == ShipBombed || st == ShipDestroyed
  }

  /** The board agrees with its fleet: the ships lie on the board and do not
      touch; every cell a ship covers holds a ship state and is linked to that
      ship; and every cell no ship covers is Empty or Bombed.  Placement
      establishes this and attacks keep it. */
  ghost predicate Consistent(bd: Board) {
    && WellFormed(bd.cells)
    && FleetOnBoard(bd.ships)
    && NoTouch(bd.ships)
    && (forall c, k :: OnBoard(c) && 0 <= k < |bd.ships| && Covers(bd.ships[k], c) ==>
          At(bd.cells, c).ship == Some(k) && IsShipState(At(bd.cells, c).state))
    && (forall c :: OnBoard(c) && At(bd.cells, c).state != Empty && At(bd.cells, c).state != Bombed ==>
          exists k :: 0 <= k < |bd.ships| && Covers(bd.ships[k], c))
  }

  /** On a consistent board two covered coordinates in one 3 × 3 block are
      covered by the same ship: different ships never come that close. */
  lemma CoveredNearSameShip(bd: Board, c: Coord, d: Coord, i: nat, j: nat)
    requires Consistent(bd)
    requires i < |bd.ships| && j < |bd.ships|
    requires Covers(bd.ships[i], c) && Covers(bd.ships[j], d) && Near(c, d)
    ensures i == j
  {
    CoversIffPart(bd.ships[i], c);
    CoversIffPart(bd.ships[j], d);
    var a :| 0 <= a < bd.ships[i].size && Part(bd.ships[i], a) == c;
    var b :| 0 <= b < bd.ships[j].size && Part(bd.ships[j], b) == d;
    assert Touch(bd.ships[i], bd.ships[j]);
    TouchSym(bd.ships[i], bd.ships[j]);
  }

  /** A rewrite of a consistent board that keeps every link, keeps ship
      cells in ship states, and otherwise only turns cells into Bombed keeps
      the board consistent with the same fleet. */
  lemma ConsistentAfterRewrite(bd: Board, g: Grid)
    requires Consistent(bd) && WellFormed(g)
    requires forall c :: OnBoard(c) ==> At(g, c).ship == At(bd.cells, c).ship
    requires forall c :: OnBoard(c) && IsShipState(At(bd.cells, c).state) ==> IsShipState(At(g, c).state)
    requires forall c :: OnBoard(c) && !IsShipState(At(bd.cells, c).state) ==>
      At(g, c).state == At(bd.cells, c).state || At(g, c).state == Bombed
    ensures Consistent(Board(g, bd.ships))
  {
  }

  /** A fresh board with no ships agrees with its (empty) fleet. */
  lemma FreshBoardConsistent()
    ensures Consistent(Board(CreateBoardCells(), []))
  {
  }

}
