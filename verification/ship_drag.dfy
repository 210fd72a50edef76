/** Drag-and-drop relocation of a placed ship (ship.ts): picking a ship up
    hollows out its cells, the drop target and orientation change while it
    is held, and releasing it either moves it or puts everything back.
    The pixel arithmetic that turns the mouse position into a grid target
    is replaced by the target itself. */
module ShipDrag {
  import opened Wrappers
  import opened Types
  import opened BoardData
  import opened Ships

  /** startDragging: ship k is marked as dragged and the cells under it
      become Hollow; nothing else changes. */
  function StartDragging(bd: Board, k: nat): (r: Board)
    requires WellFormed(bd.cells) && FleetOnBoard(bd.ships) && k < |bd.ships|
    ensures WellFormed(r.cells) && FleetOnBoard(r.ships)
    ensures r.ships == bd.ships[k := bd.ships[k].(dragged := true)]
    ensures forall c :: OnBoard(c) && Covers(bd.ships[k], c) ==> At(r.cells, c) == At(bd.cells, c).(state := Hollow)
    ensures forall c :: OnBoard(c) && !Covers(bd.ships[k], c) ==> At(r.cells, c) == At(bd.cells, c)
  {
    var ships := bd.ships[k := bd.ships[k].(dragged := true)];
    SamePlace(bd.ships[k], ships[k]);
    FleetUpdate(bd.ships, k, ships[k]);
    Board(SetFootprint(bd.cells, bd.ships[k], Hollow), ships)
  }

  /** The grid target the held ship would be dropped at (what
      updateDraggedPossibleRectangle derives from the mouse position). */
  function DragTo(bd: Board, k: nat, target: Coord): (r: Board)
    requires k < |bd.ships|
    ensures r.cells == bd.cells && |r.ships| == |bd.ships|
    ensures r.ships[k].dragCoords == target
    ensures r.ships[k] == bd.ships[k].(dragCoords := r.ships[k].dragCoords)
    ensures forall j :: 0 <= j < |bd.ships| && j != k ==> r.ships[j] == bd.ships[j]
  {
    Board(bd.cells, bd.ships[k := bd.ships[k].(dragCoords := target)])
  }

  /** changeDraggedDirection on a ship: the drop orientation flips and
      nothing else about the ship changes. */
  function Toggle(s: Ship): (r: Ship)
    ensures r.dragDirection != s.dragDirection
    ensures r == s.(dragDirection := r.dragDirection)
  {
    s.(dragDirection := if s.dragDirection == Horizontal then Vertical else Horizontal)
  }

  /** Turning the held ship twice gives it back unchanged. */
  lemma ToggleTwice(s: Ship)
    ensures Toggle(Toggle(s)) == s
  {
  }

  /** changeDraggedDirection applied to ship k of a board. */
  function ChangeDraggedDirection(bd: Board, k: nat): (r: Board)
    requires k < |bd.ships|
    ensures r.cells == bd.cells && |r.ships| == |bd.ships|
    ensures r.ships[k] == Toggle(bd.ships[k])
    ensures forall j :: 0 <= j < |bd.ships| && j != k ==> r.ships[j] == bd.ships[j]
  {
    Board(bd.cells, bd.ships[k := Toggle(bd.ships[k])])
  }

  /** The ship a drop would create: fresh, at the drag target, in the drag
      orientation. */
  function DropTarget(s: Ship): (r: Ship)
    ensures AtRest(r) && r.size == s.size
    ensures r.start == s.dragCoords && r.direction == s.dragDirection
  {
    NewShip(s.dragCoords, s.size, s.dragDirection)
  }

  /** The bounds test the preview rectangle is drawn under, on the drag
      target and drag orientation. */
  predicate PreviewInBounds(s: Ship) {
    s.dragCoords.x >= 0 &&
    s.dragCoords.y >= 0 &&
    s.dragCoords.x <= (if s.dragDirection == Horizontal then Dim - s.size else Dim - 1) &&
    s.dragCoords.y <= (if s.dragDirection == Horizontal then Dim - 1 else Dim - s.size)
  }

  /** The preview is shown exactly when the drop passes the bounds half of
      canAddShip. */
  lemma PreviewMatchesBounds(s: Ship)
    ensures PreviewInBounds(s) <==> InBounds(DropTarget(s))
  {
  }

  /** stopDragging: the ship is released.  If canAddShip accepts the drop
      target, the old cells are cleared to Empty, the ship moves to the
      target and the board is re-marked from the whole fleet; otherwise the
      old cells become Ship again and the drag target is reset. */
  function StopDragging(bd: Board, k: nat): (r: Board)
    requires WellFormed(bd.cells) && FleetOnBoard(bd.ships) && k < |bd.ships|
    ensures WellFormed(r.cells) && FleetOnBoard(r.ships) && |r.ships| == |bd.ships|
    ensures forall j :: 0 <= j < |bd.ships| && j != k ==> r.ships[j] == bd.ships[j]
    ensures CanAddShip(bd.cells, DropTarget(bd.ships[k])) ==> r.ships[k] == DropTarget(bd.ships[k])
    ensures !CanAddShip(bd.cells, DropTarget(bd.ships[k])) ==>
      && r.ships[k].start == bd.ships[k].start && r.ships[k].direction == bd.ships[k].direction
      && AtRest(r.ships[k]) && r.ships[k].size == bd.ships[k].size
  {
    var s := bd.ships[k];
    var target := DropTarget(s);
    if CanAddShip(bd.cells, target) then
      var cleared := SetFootprint(bd.cells, s, Empty);
      var moved := s.(dragged := false, start := s.dragCoords, direction := s.dragDirection);
      var ships := bd.ships[k := moved];
      InBoundsIffOnBoard(target);
      assert moved == target;
      FleetUpdate(bd.ships, k, moved);
      Board(UpdateAfterAddShip(cleared, ships), ships)
    else
      var back := s.(dragged := false, dragCoords := s.start, dragDirection := s.direction);
      var ships := bd.ships[k := back];
      SamePlace(s, back);
      FleetUpdate(bd.ships, k, back);
      Board(SetFootprint(bd.cells, s, Ship), ships)
  }

  /** Board d is ship k of board bd picked up: the cells are those
      startDragging left, the other ships are untouched, and ship k still
      has its place, length and orientation but may have a new drop target
      and drop orientation. */
  predicate DragOf(bd: Board, d: Board, k: nat)
    requires WellFormed(bd.cells) && FleetOnBoard(bd.ships)
  {
    && k < |bd.ships|
    && |d.ships| == |bd.ships|
    && d.cells == StartDragging(bd, k).cells
    && (forall j :: 0 <= j < |bd.ships| && j != k ==> d.ships[j] == bd.ships[j])
    && d.ships[k].start == bd.ships[k].start
    && d.ships[k].size == bd.ships[k].size
    && d.ships[k].direction == bd.ships[k].direction
    && d.ships[k].dragged
    && WellFormed(d.cells)
    && FleetOnBoard(d.ships)
  }

  /** Picking a ship up, moving it and turning it all give a drag of the
      original board. */
  lemma DragSteps(bd: Board, d: Board, k: nat, target: Coord)
    requires WellFormed(bd.cells) && FleetOnBoard(bd.ships) && k < |bd.ships|
    ensures DragOf(bd, StartDragging(bd, k), k)
    ensures DragOf(bd, d, k) ==> DragOf(bd, DragTo(d, k, target), k)
    ensures DragOf(bd, d, k) ==> DragOf(bd, ChangeDraggedDirection(d, k), k)
  {
    if DragOf(bd, d, k) {
      var moved := DragTo(d, k, target);
      var turned := ChangeDraggedDirection(d, k);
      SamePlace(d.ships[k], moved.ships[k]);
      SamePlace(d.ships[k], turned.ships[k]);
      assert moved.ships == d.ships[k := moved.ships[k]];
      assert turned.ships == d.ships[k := turned.ships[k]];
      FleetUpdate(d.ships, k, moved.ships[k]);
      FleetUpdate(d.ships, k, turned.ships[k]);
    }
  }

  /** A rejected drop puts the board back exactly as it was before the ship
      was picked up, provided the ship was at rest and all its cells held
      Ship. */
  lemma RejectedDropRestores(bd: Board, d: Board, k: nat)
    requires WellFormed(bd.cells) && FleetOnBoard(bd.ships) && DragOf(bd, d, k)
    requires AtRest(bd.ships[k])
    requires forall c :: OnBoard(c) && Covers(bd.ships[k], c) ==> At(bd.cells, c).state == Ship
    ensures !CanAddShip(d.cells, DropTarget(d.ships[k])) ==> StopDragging(d, k) == bd
  {
    if !CanAddShip(d.cells, DropTarget(d.ships[k])) {
      var r := StopDragging(d, k);
      var s := bd.ships[k];
      assert forall c :: Covers(d.ships[k], c) <==> Covers(s, c);
      forall c | OnBoard(c) ensures At(r.cells, c) == At(bd.cells, c) {
        if Covers(s, c) {
          assert At(bd.cells, c) == At(bd.cells, c).(state := Ship);
        }
      }
      GridExt(r.cells, bd.cells);
      assert r.ships[k] == s;
      assert r.ships == bd.ships;
    }
  }

  /** An accepted drop re-marks the board from the fleet with the ship at
      its target: every cell some ship covers becomes Ship, linked to the
      last ship listed over it; the old cells no ship covers any more become
      Empty and keep their link; every other cell is as it was before the
      ship was picked up. */
  lemma AcceptedDropMoves(bd: Board, d: Board, k: nat)
    requires WellFormed(bd.cells) && FleetOnBoard(bd.ships) && DragOf(bd, d, k)
    ensures CanAddShip(d.cells, DropTarget(d.ships[k])) ==>
      var r := StopDragging(d, k);
      && r.ships == bd.ships[k := DropTarget(d.ships[k])]
      && (forall c :: OnBoard(c) && Covers(r.ships[k], c) ==> At(r.cells, c).state == Ship)
      && (forall c :: OnBoard(c) && Covers(bd.ships[k], c) && Uncovered(r.ships, c) ==>
            At(r.cells, c) == At(bd.cells, c).(state := Empty))
      && (forall c :: OnBoard(c) && !Covers(bd.ships[k], c) && Uncovered(r.ships, c) ==>
            At(r.cells, c) == At(bd.cells, c))
  {
    if CanAddShip(d.cells, DropTarget(d.ships[k])) {
      var r := StopDragging(d, k);
      assert forall c :: Covers(d.ships[k], c) <==> Covers(bd.ships[k], c);
      assert r.ships == bd.ships[k := DropTarget(d.ships[k])];
    }
  }

  /** The cells of a ship listed over c last take the link to it and the
      state Ship, and otherwise are as they were before the pick-up. */
  lemma AcceptedDropLinks(bd: Board, d: Board, k: nat, c: Coord, j: nat)
    requires WellFormed(bd.cells) && FleetOnBoard(bd.ships) && DragOf(bd, d, k)
    requires CanAddShip(d.cells, DropTarget(d.ships[k]))
    requires OnBoard(c) && j < |bd.ships|
    requires var ships := StopDragging(d, k).ships;
      Covers(ships[j], c) && forall l :: j < l < |ships| ==> !Covers(ships[l], c)
    ensures At(StopDragging(d, k).cells, c) == At(bd.cells, c).(state := Ship, ship := Some(j))
  {
    assert forall c :: Covers(d.ships[k], c) <==> Covers(bd.ships[k], c);
  }

  /** On a consistent board an accepted drop leaves the other ships' cells
      linked to the same ship; they only take the state Ship. */
  lemma AcceptedDropKeepsOthers(bd: Board, d: Board, k: nat, c: Coord, j: nat)
    requires Consistent(bd) && DragOf(bd, d, k)
    requires CanAddShip(d.cells, DropTarget(d.ships[k]))
    requires OnBoard(c) && j < |bd.ships| && j != k && Covers(bd.ships[j], c)
    ensures At(StopDragging(d, k).cells, c) == At(bd.cells, c).(state := Ship)
  {
    var r := StopDragging(d, k);
    var s := bd.ships[k];
    var t := DropTarget(d.ships[k]);
    SamePlace(s, d.ships[k]);
    DropNoTouch(bd, d, k);
    assert r.ships == bd.ships[k := t];
    if Covers(s, c) {
      CoveredNearSameShip(bd, c, c, j, k);
    }
    var cleared := SetFootprint(d.cells, d.ships[k], Empty);
    UpdateAfterAddShipNoTouch(cleared, r.ships, c, j);
  }

  /** A placed ship blocks its own place: its first cell holds it. */
  lemma OwnPlaceBlocked(bd: Board, k: nat)
    requires Consistent(bd) && k < |bd.ships| && bd.ships[k].size >= 1
    ensures !CanAddShip(bd.cells, bd.ships[k])
  {
    var s := bd.ships[k];
    CanAddShipIff(bd.cells, s);
    assert Part(s, 0) == s.start;
    assert Covers(s, s.start) && OnBoard(s.start) && Near(s.start, s.start);
  }

  /** During the placement phase (every cell Empty or Ship), a ship picked
      up may be dropped back where it was: its own Hollow cells count as
      free, so a drop may overlap the ship's previous cells. */
  lemma HollowIsFree(bd: Board, k: nat)
    requires Consistent(bd) && k < |bd.ships| && bd.ships[k].size >= 1
    requires forall c :: OnBoard(c) ==> At(bd.cells, c).state == Empty || At(bd.cells, c).state == Ship
    ensures !CanAddShip(bd.cells, bd.ships[k])
    ensures CanAddShip(StartDragging(bd, k).cells, NewShip(bd.ships[k].start, bd.ships[k].size, bd.ships[k].direction))
  {
    var s := bd.ships[k];
    var t := NewShip(s.start, s.size, s.direction);
    var g := StartDragging(bd, k).cells;
    OwnPlaceBlocked(bd, k);
    SamePlace(s, t);
    InBoundsIffOnBoard(t);
    CanAddShipIff(g, t);
    forall c, d | Covers(t, c) && OnBoard(d) && Near(d, c) ensures !Blocking(At(g, d).state) {
      if !Covers(s, d) && At(bd.cells, d).state == Ship {
        var j :| 0 <= j < |bd.ships| && Covers(bd.ships[j], d);
        CoveredNearSameShip(bd, d, c, j, k);
      }
    }
  }

  /** An accepted drop target touches none of the other ships. */
  lemma DropNoTouch(bd: Board, d: Board, k: nat)
    requires Consistent(bd) && DragOf(bd, d, k)
    requires CanAddShip(d.cells, DropTarget(d.ships[k]))
    ensures NoTouch(bd.ships[k := DropTarget(d.ships[k])])
  {
    var s := bd.ships[k];
    var t := DropTarget(d.ships[k]);
    var ships := bd.ships[k := t];
    SamePlace(s, d.ships[k]);
    forall j | 0 <= j < |bd.ships| && j != k ensures !Touch(bd.ships[j], t) {
      forall c | OnBoard(c) && Covers(bd.ships[j], c) ensures Blocking(At(d.cells, c).state) {
        if Covers(s, c) {
          CoveredNearSameShip(bd, c, c, j, k);
        }
      }
      CanAddShipAvoids(d.cells, t, bd.ships[j]);
    }
    forall a, b | 0 <= a < b < |ships| ensures !Touch(ships[a], ships[b]) {
      if b == k {
        assert !Touch(bd.ships[a], t);
      } else if a == k {
        TouchSym(t, bd.ships[b]);
      } else {
        assert ships[a] == bd.ships[a] && ships[b] == bd.ships[b];
      }
    }
  }

  /** An accepted drop keeps the board consistent with its fleet: the moved
      ship touches none of the others, and the cells it left are Empty. */
  lemma AcceptedDropConsistent(bd: Board, d: Board, k: nat)
    requires Consistent(bd) && DragOf(bd, d, k)
    requires CanAddShip(d.cells, DropTarget(d.ships[k]))
    ensures Consistent(StopDragging(d, k))
  {
    var r := StopDragging(d, k);
    var s := bd.ships[k];
    var t := DropTarget(d.ships[k]);
    var ships := r.ships;
    assert ships == bd.ships[k := t];
    SamePlace(s, d.ships[k]);
    DropNoTouch(bd, d, k);
    var cleared := SetFootprint(d.cells, d.ships[k], Empty);
    assert r.cells == UpdateAfterAddShip(cleared, ships);
    forall c, j | OnBoard(c) && 0 <= j < |ships| && Covers(ships[j], c)
      ensures At(r.cells, c).ship == Some(j) && IsShipState(At(r.cells, c).state)
    {
      UpdateAfterAddShipNoTouch(cleared, ships, c, j);
    }
    forall c | OnBoard(c) && At(r.cells, c).state != Empty && At(r.cells, c).state != Bombed
      ensures exists j :: 0 <= j < |ships| && Covers(ships[j], c)
    {
      if Covers(t, c) {
        assert ships[k] == t;
      } else if !Covers(s, c) && At(bd.cells, c).state != Empty && At(bd.cells, c).state != Bombed {
        var j :| 0 <= j < |bd.ships| && Covers(bd.ships[j], c);
        assert ships[j] == bd.ships[j];
      } else if Uncovered(ships, c) {
        assert false;
      }
    }
  }

}
