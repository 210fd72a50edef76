/** The ship's view of the board: whether it is sunk, and sinking it
    (ship.ts, isDestroyed and markAsDestroyed). */
module ShipCells {
  import opened Wrappers
  import opened Types
  import opened BoardData

  /** The states of a ship cell that has been hit. */
  predicate IsHitState(st: CellState) {
    st == ShipBombed || st == ShipDestroyed
  }

  /** A ship is destroyed when every cell under it has been hit. */
  function IsDestroyed(g: Grid, s: Ship): (r: bool)
    requires WellFormed(g) && OnBoardShip(s)
    ensures r <==> forall c :: OnBoard(c) && Covers(s, c) ==> IsHitState(At(g, c).state)
  {
    var cells := CellsForShip(g, s);
    var r := forall i :: 0 <= i < s.size ==> cells[i].value.state in {ShipBombed, ShipDestroyed};
    assert r <==> forall c :: OnBoard(c) && Covers(s, c) ==> IsHitState(At(g, c).state) by {
      forall c | OnBoard(c) {
        CoversIffPart(s, c);
      }
      assert forall i :: 0 <= i < s.size ==> cells[i] == Some(At(g, Part(s, i)));
    }
    r
  }

  /** Turn every cell under the ship into ShipDestroyed. */
  function MarkAsDestroyed(g: Grid, s: Ship): (r: Grid)
    requires WellFormed(g) && OnBoardShip(s)
    ensures WellFormed(r)
    ensures IsDestroyed(r, s)
    ensures forall c :: OnBoard(c) && Covers(s, c) ==> At(r, c).state == ShipDestroyed
    ensures forall c :: OnBoard(c) ==> At(r, c).ship == At(g, c).ship && At(r, c).coords == c
    ensures forall c :: OnBoard(c) && !Covers(s, c) ==> At(r, c) == At(g, c)
  {
    Rewrite(g, (cell: Cell) => if Covers(s, cell.coords) then cell.(state := ShipDestroyed) else cell)
  }

}
