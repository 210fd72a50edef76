/** One cell of a board under attack (boardCell.ts): what a shot does,
    which cells can be clicked, and the characters a cell shows to the
    owner and to the targeting heuristic. */
module BoardCell {
  import opened Wrappers
  import opened Types
  import opened BoardData
  import opened ShipCells

  /** A newly constructed cell: Empty, linked to no ship. */
  function NewCell(coords: Coord): (r: Cell)
    ensures r.coords == coords && r.state == Empty && r.ship == None
  {
    Cell(coords, Empty, None)
  }

  /** The states a shot leaves behind. */
  predicate IsShot(st: CellState) {
    st == Bombed || st == ShipBombed || st == ShipDestroyed
  }

  /** clickable: on the player's own board only intact ship cells react;
      on the enemy board every cell not yet shot at does. */
  function Clickable(owner: PlayerType, st: CellState): (r: bool)
    ensures owner == Player ==> (r <==> st == Ship)
    ensures owner == Enemy ==> (r <==> !IsShot(st))
  {
    match owner
    case Player => st == Ship
    case Enemy => !(st in {Bombed, ShipBombed, ShipDestroyed})
  }

  /** stateSign: the owner's view, one character per state. */
  function StateSign(st: CellState): (r: char)
    ensures r in {'_', '.', 'S', 'X', 'D', 'H'}
  {
    match st
    case Empty => '_'
    case Bombed => '.'
    case Ship => 'S'
    case ShipBombed => 'X'
    case ShipDestroyed => 'D'
    case Hollow => 'H'
  }

  /** The owner's view tells every state apart. */
  lemma StateSignInjective(a: CellState, b: CellState)
    ensures StateSign(a) == StateSign(b) <==> a == b
  {
  }

  /** stateSignForFinder: the opponent's view, where an intact or dragged
      ship cell looks like open water. */
  function StateSignForFinder(st: CellState): (r: char)
    ensures r in {'_', '.', 'X', 'D'}
  {
    match st
    case Empty => '_'
    case Bombed => '.'
    case Ship => '_'
    case ShipBombed => 'X'
    case ShipDestroyed => 'D'
    case Hollow => '_'
  }

  /** The opponent's view hides exactly the intact ship cells (and dragged
      ones), and agrees with the owner's view on everything else. */
  lemma FinderSignHidesShips(st: CellState)
    ensures StateSignForFinder(st) == '_' <==> st == Empty || st == Ship || st == Hollow
    ensures StateSignForFinder(st) == StateSign(st) <==> st != Ship && st != Hollow
    ensures StateSignForFinder(st) != 'S' && StateSignForFinder(st) != 'H'
  {
  }

  /** The character grid the targeting heuristic reads: the opponent's
      view of every cell, row by row. */
  function FinderView(g: Grid): (v: seq<seq<char>>)
    requires WellFormed(g)
    ensures |v| == Dim && forall y :: 0 <= y < Dim ==> |v[y]| == Dim
    ensures forall c :: OnBoard(c) ==> v[c.y][c.x] == StateSignForFinder(At(g, c).state)
  {
    seq(Dim, y requires 0 <= y < Dim => seq(Dim, x requires 0 <= x < Dim => StateSignForFinder(g[y][x].state)))
  }

  /** Two boards that differ only in where intact ships lie look the same to
      the opponent. */
  lemma FinderViewHidesShips(g: Grid, h: Grid)
    requires WellFormed(g) && WellFormed(h)
    requires forall c :: OnBoard(c) && At(g, c).state != At(h, c).state ==>
      At(g, c).state in {Empty, Ship} && At(h, c).state in {Empty, Ship}
    ensures FinderView(g) == FinderView(h)
  {
    var v, w := FinderView(g), FinderView(h);
    forall y | 0 <= y < Dim ensures v[y] == w[y] {
      forall x | 0 <= x < Dim ensures v[y][x] == w[y][x] {
        assert v[y][x] == StateSignForFinder(At(g, Coord(x, y)).state);
        assert w[y][x] == StateSignForFinder(At(h, Coord(x, y)).state);
      }
    }
  }

  /** The coordinates of a list of cells. */
  function CoordsOf(cells: seq<Cell>): (r: seq<Coord>)
    ensures |r| == |cells| && forall k :: 0 <= k < |cells| ==> r[k] == cells[k].coords
  {
    seq(|cells|, k requires 0 <= k < |cells| => cells[k].coords)
  }

  /** Give each listed cell the state st, one after the other (the
      `forEach(cell => cell.state = …)` loops). */
  function SetCellsState(g: Grid, cells: seq<Cell>, st: CellState): (r: Grid)
    requires WellFormed(g)
    requires forall k :: 0 <= k < |cells| ==> OnBoard(cells[k].coords)
    ensures WellFormed(r)
    ensures forall d :: OnBoard(d) ==>
      At(r, d) == if d in CoordsOf(cells) then At(g, d).(state := st) else At(g, d)
    decreases |cells|
  {
    if cells == [] then g
    else
      var rest := SetCellsState(SetState(g, cells[0].coords, st), cells[1..], st);
      assert forall d :: d in CoordsOf(cells) <==> d == cells[0].coords || d in CoordsOf(cells[1..]) by {
        assert CoordsOf(cells) == [cells[0].coords] + CoordsOf(cells[1..]);
      }
      rest
  }

  /** Mark the Empty cells of the 3 × 3 block around p as Bombed: the
      surrounding cells of one ship cell, with the `cell?.state === Empty`
      test skipping off-board entries and anything not Empty. */
  function BombEmptyAround(g: Grid, p: Coord): (r: Grid)
    requires WellFormed(g)
    ensures WellFormed(r)
    ensures forall d :: OnBoard(d) ==>
      At(r, d) == if Near(d, p) && At(g, d).state == Empty then At(g, d).(state := Bombed) else At(g, d)
  {
    Rewrite(g, (cell: Cell) => if Near(cell.coords, p) && cell.state == Empty then cell.(state := Bombed) else cell)
  }

  /** d lies in the 3 × 3 block of some part of s from part i on. */
  ghost predicate NearFrom(s: Ship, d: Coord, i: nat) {
    exists j :: i <= j < s.size && Near(d, Part(s, j))
  }

  /** The halo loop from part i on: every Empty cell in the 3 × 3 block of
      one of those parts becomes Bombed, and nothing else changes. */
  function HaloFrom(g: Grid, s: Ship, i: nat): (r: Grid)
    requires WellFormed(g) && i <= s.size
    ensures WellFormed(r)
    ensures forall d :: OnBoard(d) ==>
      At(r, d) == if NearFrom(s, d, i) && At(g, d).state == Empty then At(g, d).(state := Bombed) else At(g, d)
    decreases s.size - i
  {
    if i == s.size then g
    else
      var g1 := BombEmptyAround(g, Part(s, i));
      var r := HaloFrom(g1, s, i + 1);
      assert forall d :: NearFrom(s, d, i) <==> Near(d, Part(s, i)) || NearFrom(s, d, i + 1) by {
        forall d | NearFrom(s, d, i) && !Near(d, Part(s, i)) ensures NearFrom(s, d, i + 1) {
          var j :| i <= j < s.size && Near(d, Part(s, j));
          assert j != i;
        }
      }
      r
  }

  /** A cell whose state is Ship is linked to a ship of the fleet: bomb
      follows that link. */
  predicate Linked(bd: Board, c: Coord)
    requires WellFormed(bd.cells) && OnBoard(c)
  {
    At(bd.cells, c).ship.Some? && At(bd.cells, c).ship.value < |bd.ships|
  }

  /** What a shot returns, and the cells after it.  `None` is the game's
      fall-through without a return value. */
  datatype Shot = Shot(result: Option<bool>, cells: Grid)

  /** bomb: a shot at an Empty cell is a miss that marks it Bombed; a shot
      at a Ship cell is a hit that marks it ShipBombed and then either sinks
      the linked ship (its cells become ShipDestroyed and every Empty cell
      around it becomes Bombed) or, if the ship still floats, marks the four
      diagonal neighbours Bombed; a shot anywhere else does nothing. */
  function Bomb(bd: Board, c: Coord): (r: Shot)
    requires WellFormed(bd.cells) && FleetOnBoard(bd.ships) && OnBoard(c)
    requires At(bd.cells, c).state == Ship ==> Linked(bd, c)
    ensures WellFormed(r.cells)
    ensures r.result.Some? <==> At(bd.cells, c).state == Empty || At(bd.cells, c).state == Ship
    ensures r.result == Some(true) <==> At(bd.cells, c).state == Ship
    ensures r.result.None? ==> r.cells == bd.cells
    ensures r.result.Some? ==> IsShot(At(r.cells, c).state)
    ensures forall d :: OnBoard(d) ==> At(r.cells, d).ship == At(bd.cells, d).ship
  {
    var g := bd.cells;
    match At(g, c).state
    case Empty => Shot(Some(false), SetState(g, c, Bombed))
    case Ship => Shot(Some(true), HitCells(bd, c))
    case _ => Shot(None, g)
  }

  /** The cells after a hit at c: c is ShipBombed, and then either the
      linked ship sinks with its halo or the diagonal neighbours are
      marked.  The links of the cells are never touched. */
  function HitCells(bd: Board, c: Coord): (r: Grid)
    requires WellFormed(bd.cells) && FleetOnBoard(bd.ships) && OnBoard(c)
    requires At(bd.cells, c).state == Ship && Linked(bd, c)
    ensures WellFormed(r)
    ensures IsShot(At(r, c).state)
    ensures forall d :: OnBoard(d) ==> At(r, d).ship == At(bd.cells, d).ship
  {
    var hit := SetState(bd.cells, c, ShipBombed);
    var s := HitShip(bd, c);
    if IsDestroyed(hit, s) then HaloFrom(MarkAsDestroyed(hit, s), s, 0)
    else
      var diag := DiagonalCells(hit, c);
      assert c !in CoordsOf(diag) by {
        assert !IsDiagonal(c, c);
      }
      SetCellsState(hit, diag, Bombed)
  }

  /** A miss marks the cell Bombed, answers false, and touches nothing else. */
  lemma BombMiss(bd: Board, c: Coord)
    requires WellFormed(bd.cells) && FleetOnBoard(bd.ships) && OnBoard(c)
    requires At(bd.cells, c).state == Empty
    ensures Bomb(bd, c).result == Some(false)
    ensures At(Bomb(bd, c).cells, c) == At(bd.cells, c).(state := Bombed)
    ensures forall d :: OnBoard(d) && d != c ==> At(Bomb(bd, c).cells, d) == At(bd.cells, d)
  {
  }

  /** The ship a hit at c follows the link to. */
  function HitShip(bd: Board, c: Coord): (s: Ship)
    requires WellFormed(bd.cells) && OnBoard(c) && Linked(bd, c)
    ensures s in bd.ships
  {
    bd.ships[At(bd.cells, c).ship.value]
  }

  /** A hit sinks the linked ship exactly when, with c hit, every cell of
      that ship has been hit. */
  predicate Sinks(bd: Board, c: Coord)
    requires WellFormed(bd.cells) && FleetOnBoard(bd.ships) && OnBoard(c) && Linked(bd, c)
  {
    IsDestroyed(SetState(bd.cells, c, ShipBombed), HitShip(bd, c))
  }

  /** A hit that does not sink: c becomes ShipBombed, each on-board diagonal
      neighbour becomes Bombed whatever it held, and every other cell, the
      orthogonal neighbours included, is unchanged. */
  lemma BombHit(bd: Board, c: Coord)
    requires WellFormed(bd.cells) && FleetOnBoard(bd.ships) && OnBoard(c)
    requires At(bd.cells, c).state == Ship && Linked(bd, c) && !Sinks(bd, c)
    ensures Bomb(bd, c).result == Some(true)
    ensures At(Bomb(bd, c).cells, c) == At(bd.cells, c).(state := ShipBombed)
    ensures forall d :: OnBoard(d) && IsDiagonal(d, c) ==> At(Bomb(bd, c).cells, d) == At(bd.cells, d).(state := Bombed)
    ensures forall d :: OnBoard(d) && d != c && !IsDiagonal(d, c) ==> At(Bomb(bd, c).cells, d) == At(bd.cells, d)
  {
    var hit := SetState(bd.cells, c, ShipBombed);
    var diag := DiagonalCells(hit, c);
    forall d | OnBoard(d) ensures d in CoordsOf(diag) <==> IsDiagonal(d, c) {
      if IsDiagonal(d, c) {
        var k :| 0 <= k < |diag| && diag[k] == At(hit, d);
        AtCoords(hit, d);
      }
    }
    assert !IsDiagonal(c, c);
  }

  /** A hit that sinks: every cell of the ship becomes ShipDestroyed, every
      Empty cell in the 3 × 3 block of one of its cells becomes Bombed, and
      every other cell keeps its state (c itself, if the link points at a
      ship not covering it, is ShipBombed). */
  lemma BombSink(bd: Board, c: Coord)
    requires WellFormed(bd.cells) && FleetOnBoard(bd.ships) && OnBoard(c)
    requires At(bd.cells, c).state == Ship && Linked(bd, c) && Sinks(bd, c)
    ensures Bomb(bd, c).result == Some(true)
    ensures forall d :: OnBoard(d) && Covers(HitShip(bd, c), d) ==> At(Bomb(bd, c).cells, d).state == ShipDestroyed
    ensures forall d :: OnBoard(d) && !Covers(HitShip(bd, c), d) && d != c ==>
      At(Bomb(bd, c).cells, d).state ==
        if At(bd.cells, d).state == Empty && NearFrom(HitShip(bd, c), d, 0) then Bombed else At(bd.cells, d).state
    ensures !Covers(HitShip(bd, c), c) ==> At(Bomb(bd, c).cells, c).state == ShipBombed
  {
  }

  /** On a consistent board the diagonal neighbours of a ship cell never
      hold a ship: ships are straight and never touch, so the
      unconditional Bombed marking only ever lands on water. */
  lemma DiagonalsAreWater(bd: Board, c: Coord, d: Coord)
    requires Consistent(bd) && OnBoard(c) && OnBoard(d)
    requires IsShipState(At(bd.cells, c).state) && IsDiagonal(d, c)
    ensures At(bd.cells, d).state == Empty || At(bd.cells, d).state == Bombed
  {
    if !(At(bd.cells, d).state == Empty || At(bd.cells, d).state == Bombed) {
      var i :| 0 <= i < |bd.ships| && Covers(bd.ships[i], c);
      var j :| 0 <= j < |bd.ships| && Covers(bd.ships[j], d);
      CoveredNearSameShip(bd, c, d, i, j);
      assert false;
    }
  }

  /** On a consistent board every Ship cell is linked to the ship covering
      it, so bomb's precondition holds there. */
  lemma ConsistentLinked(bd: Board, c: Coord)
    requires Consistent(bd) && OnBoard(c) && IsShipState(At(bd.cells, c).state)
    ensures Linked(bd, c) && Covers(HitShip(bd, c), c)
  {
    var k :| 0 <= k < |bd.ships| && Covers(bd.ships[k], c);
  }

  /** A hit that sinks keeps the board consistent with its fleet. */
  lemma SinkConsistent(bd: Board, c: Coord)
    requires Consistent(bd) && OnBoard(c) && At(bd.cells, c).state == Ship
    requires Linked(bd, c) && Sinks(bd, c)
    ensures Consistent(Board(Bomb(bd, c).cells, bd.ships))
  {
    ConsistentLinked(bd, c);
    BombSink(bd, c);
    ConsistentAfterRewrite(bd, Bomb(bd, c).cells);
  }

  /** A hit that does not sink, next to no ship diagonally, leaves every
      ship cell in a ship state ... */
  lemma HitKeepsShips(bd: Board, c: Coord)
    requires WellFormed(bd.cells) && FleetOnBoard(bd.ships) && OnBoard(c)
    requires At(bd.cells, c).state == Ship && Linked(bd, c) && !Sinks(bd, c)
    requires forall d :: OnBoard(d) && IsDiagonal(d, c) ==> !IsShipState(At(bd.cells, d).state)
    ensures forall d :: OnBoard(d) && IsShipState(At(bd.cells, d).state) ==> IsShipState(At(Bomb(bd, c).cells, d).state)
  {
    BombHit(bd, c);
  }

  /** ... and turns other cells into Bombed or leaves them alone. */
  lemma HitKeepsWater(bd: Board, c: Coord)
    requires Consistent(bd) && OnBoard(c) && At(bd.cells, c).state == Ship
    requires Linked(bd, c) && !Sinks(bd, c)
    ensures forall d :: OnBoard(d) && !IsShipState(At(bd.cells, d).state) ==>
      At(Bomb(bd, c).cells, d).state == At(bd.cells, d).state || At(Bomb(bd, c).cells, d).state == Bombed
  {
    BombHit(bd, c);
  }

  /** A hit that does not sink keeps the board consistent with its fleet. */
  lemma HitConsistent(bd: Board, c: Coord)
    requires Consistent(bd) && OnBoard(c) && At(bd.cells, c).state == Ship
    requires Linked(bd, c) && !Sinks(bd, c)
    ensures Consistent(Board(Bomb(bd, c).cells, bd.ships))
  {
    forall d | OnBoard(d) && IsDiagonal(d, c) ensures !IsShipState(At(bd.cells, d).state) {
      DiagonalsAreWater(bd, c, d);
    }
    HitKeepsShips(bd, c);
    HitKeepsWater(bd, c);
    ConsistentAfterRewrite(bd, Bomb(bd, c).cells);
  }

  /** A shot keeps the board consistent with its fleet. */
  lemma BombConsistent(bd: Board, c: Coord)
    requires Consistent(bd) && OnBoard(c)
    ensures At(bd.cells, c).state == Ship ==> Linked(bd, c)
    ensures Consistent(Board(Bomb(bd, c).cells, bd.ships))
  {
    if At(bd.cells, c).state == Ship {
      ConsistentLinked(bd, c);
      if Sinks(bd, c) {
        SinkConsistent(bd, c);
      } else {
        HitConsistent(bd, c);
      }
    } else if At(bd.cells, c).state == Empty {
      BombMiss(bd, c);
      ConsistentAfterRewrite(bd, Bomb(bd, c).cells);
    }
  }

  /** Shooting the same cell again does nothing and returns no value. */
  lemma BombTwice(bd: Board, c: Coord)
    requires WellFormed(bd.cells) && FleetOnBoard(bd.ships) && OnBoard(c)
    requires At(bd.cells, c).state == Ship ==> Linked(bd, c)
    ensures var after := Board(Bomb(bd, c).cells, bd.ships);
      Bomb(bd, c).result.Some? ==> Bomb(after, c) == Shot(None, after.cells)
  {
  }

  /** On a consistent enemy board a cell is clickable exactly when a shot
      at it returns a value, and once shot it is no longer clickable. */
  lemma ClickableIffShotCounts(bd: Board, c: Coord)
    requires Consistent(bd) && OnBoard(c)
    ensures At(bd.cells, c).state == Ship ==> Linked(bd, c)
    ensures Clickable(Enemy, At(bd.cells, c).state) <==> Bomb(bd, c).result.Some?
    ensures !Clickable(Enemy, At(Bomb(bd, c).cells, c).state)
  {
    if At(bd.cells, c).state == Ship {
      ConsistentLinked(bd, c);
    }
    if At(bd.cells, c).state == Hollow {
      var k :| 0 <= k < |bd.ships| && Covers(bd.ships[k], c);
    }
  }

}
