/** Fleet placement (ships.ts): the placement rule, adding a ship,
    enumerating legal placements, the default fleet, largest-first random
    auto-fill, and counting surviving ships. */
module Ships {
  import opened Wrappers
  import opened Types
  import opened BoardData
  import opened ShipCells

  /** The bounds half of canAddShip, with the game's own comparisons. */
  predicate InBounds(s: Ship) {
    !(s.start.x < 0 || s.start.y < 0 ||
      s.start.x > (if s.direction == Horizontal then Dim - s.size else Dim - 1) ||
      s.start.y > (if s.direction == Horizontal then Dim - 1 else Dim - s.size))
  }

  /** For a ship of positive length the bounds check holds exactly when every
      cell of the ship lies on the board. */
  lemma InBoundsIffOnBoard(s: Ship)
    ensures InBounds(s) ==> OnBoardShip(s)
    ensures s.size >= 1 && OnBoardShip(s) ==> InBounds(s)
  {
    if s.size >= 1 && OnBoardShip(s) {
      assert OnBoard(Part(s, 0)) && OnBoard(Part(s, s.size - 1));
    }
  }

  /** Parts from i on each have a fully safe 3 × 3 block (the early-exit loop). */
  predicate PartsSafeFrom(g: Grid, s: Ship, i: nat)
    requires WellFormed(g) && i <= s.size
    decreases s.size - i
  {
    if i == s.size then true
    else if !IsCellAndSurroundingsSafe(g, Part(s, i)) then false
    else PartsSafeFrom(g, s, i + 1)
  }

  /** The loop over the parts holds exactly when the 3 × 3 block around
      every part from i on is clear. */
  lemma {:induction false} PartsSafeFromIff(g: Grid, s: Ship, i: nat)
    requires WellFormed(g) && i <= s.size
    ensures PartsSafeFrom(g, s, i) <==> forall j :: i <= j < s.size ==> BlockClear(g, Part(s, j))
    decreases s.size - i
  {
    if i < s.size {
      PartsSafeFromIff(g, s, i + 1);
      IsCellAndSurroundingsSafeIff(g, Part(s, i));
    }
  }

  /** canAddShip: the bounds check, then every cell of the ship must have a
      fully safe 3 × 3 block. */
  predicate CanAddShip(g: Grid, s: Ship)
    requires WellFormed(g)
  {
    InBounds(s) && PartsSafeFrom(g, s, 0)
  }

  /** canAddShip accepts exactly the in-bounds ships such that no cell in the
      3 × 3 block of any of their cells holds a ship or a shot: an accepted
      ship neither overlaps nor touches, even at a corner, anything there. */
  lemma CanAddShipIff(g: Grid, s: Ship)
    requires WellFormed(g)
    ensures CanAddShip(g, s) <==>
      InBounds(s) && forall c, d :: Covers(s, c) && OnBoard(d) && Near(d, c) ==> !Blocking(At(g, d).state)
  {
    PartsSafeFromIff(g, s, 0);
    forall c | Covers(s, c) {
      CoversIffPart(s, c);
    }
    forall j | 0 <= j < s.size ensures Covers(s, Part(s, j)) {
      CoversIffPart(s, Part(s, j));
    }
  }

  /** On a fresh board the placement rule reduces to the bounds check. */
  lemma FreshBoardCanAdd(s: Ship)
    ensures CanAddShip(CreateBoardCells(), s) <==> InBounds(s)
  {
    CanAddShipIff(CreateBoardCells(), s);
  }

  /** A ship accepted by canAddShip touches no ship whose cells all hold a
      blocking state. */
  lemma CanAddShipAvoids(g: Grid, s: Ship, t: Ship)
    requires WellFormed(g) && CanAddShip(g, s) && OnBoardShip(t)
    requires forall c :: OnBoard(c) && Covers(t, c) ==> Blocking(At(g, c).state)
    ensures !Touch(t, s)
  {
    CanAddShipIff(g, s);
    forall i, j | 0 <= i < t.size && 0 <= j < s.size ensures !Near(Part(t, i), Part(s, j)) {
      CoversIffPart(t, Part(t, i));
      CoversIffPart(s, Part(s, j));
      assert Blocking(At(g, Part(t, i)).state);
    }
  }

  /** A ship accepted by canAddShip touches no ship of a consistent board. */
  lemma CanAddShipNoTouch(bd: Board, s: Ship)
    requires Consistent(bd) && CanAddShip(bd.cells, s)
    ensures forall k :: 0 <= k < |bd.ships| ==> !Touch(bd.ships[k], s)
  {
    forall k | 0 <= k < |bd.ships| ensures !Touch(bd.ships[k], s) {
      CanAddShipAvoids(bd.cells, s, bd.ships[k]);
    }
  }

  /** The outcome of an attempt to add a ship. */
  datatype Placed = Placed(added: bool, board: Board)

  /** addShip: on rejection nothing changes; on acceptance the ship is
      appended and the board is re-marked from the whole list. */
  function AddShip(bd: Board, s: Ship): (r: Placed)
    requires WellFormed(bd.cells) && FleetOnBoard(bd.ships)
    ensures r.added <==> CanAddShip(bd.cells, s)
    ensures !r.added ==> r.board == bd
    ensures r.added ==> r.board.ships == bd.ships + [s]
    ensures r.added ==> WellFormed(r.board.cells) && FleetOnBoard(r.board.ships)
    ensures r.added ==> forall c :: OnBoard(c) && Covers(s, c) ==>
      At(r.board.cells, c).state == Ship && At(r.board.cells, c).ship == Some(|bd.ships|)
    ensures r.added ==> forall c :: OnBoard(c) && Uncovered(r.board.ships, c) ==> At(r.board.cells, c) == At(bd.cells, c)
  {
    if !CanAddShip(bd.cells, s) then Placed(false, bd)
    else
      InBoundsIffOnBoard(s);
      var ships := bd.ships + [s];
      Placed(true, Board(UpdateAfterAddShip(bd.cells, ships), ships))
  }

  /** Adding a ship keeps the board consistent with its fleet: in particular
      the fleet stays pairwise non-touching. */
  lemma AddShipConsistent(bd: Board, s: Ship)
    requires Consistent(bd)
    ensures AddShip(bd, s).added ==> Consistent(AddShip(bd, s).board)
  {
    var r := AddShip(bd, s);
    if r.added {
      CanAddShipNoTouch(bd, s);
      AppendNoTouch(bd.ships, s);
      var ships := r.board.ships;
      forall c, k | OnBoard(c) && 0 <= k < |ships| && Covers(ships[k], c)
        ensures At(r.board.cells, c).ship == Some(k) && IsShipState(At(r.board.cells, c).state)
      {
        UpdateAfterAddShipNoTouch(bd.cells, ships, c, k);
      }
      forall c | OnBoard(c) && At(r.board.cells, c).state != Empty && At(r.board.cells, c).state != Bombed
        ensures exists k :: 0 <= k < |ships| && Covers(ships[k], c)
      {
        AddShipCoverage(bd, s, c);
      }
    }
  }

  /** A ship touching no ship of a non-touching fleet can join it. */
  lemma AppendNoTouch(ships: seq<Ship>, s: Ship)
    requires NoTouch(ships)
    requires forall k :: 0 <= k < |ships| ==> !Touch(ships[k], s)
    ensures NoTouch(ships + [s])
  {
    var all := ships + [s];
    forall k, l | 0 <= k < l < |all| ensures !Touch(all[k], all[l]) {
      if l < |ships| {
        assert all[k] == ships[k] && all[l] == ships[l];
      } else {
        assert all[l] == s && all[k] == ships[k];
      }
    }
  }

  /** After an accepted addShip a cell that is neither Empty nor Bombed is
      covered by some ship of the new fleet. */
  lemma AddShipCoverage(bd: Board, s: Ship, c: Coord)
    requires Consistent(bd) && AddShip(bd, s).added && OnBoard(c)
    requires At(AddShip(bd, s).board.cells, c).state != Empty && At(AddShip(bd, s).board.cells, c).state != Bombed
    ensures exists k :: 0 <= k < |AddShip(bd, s).board.ships| && Covers(AddShip(bd, s).board.ships[k], c)
  {
    var ships := AddShip(bd, s).board.ships;
    if Covers(s, c) {
      assert ships[|bd.ships|] == s;
    } else if At(bd.cells, c).state != Empty && At(bd.cells, c).state != Bombed {
      var k :| 0 <= k < |bd.ships| && Covers(bd.ships[k], c);
      assert ships[k] == bd.ships[k];
    } else if Uncovered(ships, c) {
      assert false;
    }
  }

  /** The origins the enumeration tries: x in [0, Dim - size) for horizontal
      ships and y in [0, Dim - size) for vertical ones, both bounds strict. */
  predicate CandidateOrigin(s: Ship) {
    0 <= s.start.x && 0 <= s.start.y &&
    (s.direction == Horizontal ==> s.start.x < Dim - s.size && s.start.y < Dim) &&
    (s.direction == Vertical ==> s.start.x < Dim && s.start.y < Dim - s.size)
  }

  /** A freshly built ship at one of the tried origins. */
  predicate CandidateShape(s: Ship) {
    AtRest(s) && CandidateOrigin(s)
  }

  /** One column of the enumeration: fresh ships at (i, j) for j up to ny,
      kept when the placement test `ok` accepts them. */
  function ScanColumn(size: nat, dir: Direction, ok: Ship -> bool, i: int, j: int, ny: int): (r: seq<Ship>)
    ensures forall s :: s in r <==>
      AtRest(s) && s.size == size && s.direction == dir && s.start.x == i && j <= s.start.y < ny && ok(s)
    decreases ny - j
  {
    if j >= ny then []
    else
      var ship := NewShip(Coord(i, j), size, dir);
      var rest := ScanColumn(size, dir, ok, i, j + 1, ny);
      assert forall s :: s in [ship] + rest <==> s == ship || s in rest;
      if ok(ship) then [ship] + rest else rest
  }

  /** Columns i up to nx of the enumeration, column by column. */
  function Scan(size: nat, dir: Direction, ok: Ship -> bool, i: int, nx: int, ny: int): (r: seq<Ship>)
    ensures forall s :: s in r <==>
      AtRest(s) && s.size == size && s.direction == dir && i <= s.start.x < nx && 0 <= s.start.y < ny && ok(s)
    decreases nx - i
  {
    if i >= nx then []
    else
      var col := ScanColumn(size, dir, ok, i, 0, ny);
      var rest := Scan(size, dir, ok, i + 1, nx, ny);
      assert forall s :: s in col + rest <==> s in col || s in rest;
      col + rest
  }

  /** getAllPossibleToAddDirectionShips: exactly the fresh ships of the
      requested size and direction, at a tried origin, that canAddShip
      accepts. */
  function DirectionCandidates(g: Grid, size: nat, dir: Direction): (r: seq<Ship>)
    requires WellFormed(g)
    ensures forall s :: s in r <==>
      s.size == size && s.direction == dir && CandidateShape(s) && CanAddShip(g, s)
  {
    var ok := (s: Ship) => CanAddShip(g, s);
    var nx := if dir == Horizontal then Dim - size else Dim;
    var ny := if dir == Horizontal then Dim else Dim - size;
    var r := Scan(size, dir, ok, 0, nx, ny);
    TriedOrigins(r, size, dir, nx, ny, ok);
    r
  }

  /** The scanned ranges are exactly the tried origins. */
  lemma TriedOrigins(r: seq<Ship>, size: nat, dir: Direction, nx: int, ny: int, p: Ship -> bool)
    requires nx == (if dir == Horizontal then Dim - size else Dim)
    requires ny == (if dir == Horizontal then Dim else Dim - size)
    requires forall s :: s in r <==>
      AtRest(s) && s.size == size && s.direction == dir && 0 <= s.start.x < nx && 0 <= s.start.y < ny && p(s)
    ensures forall s :: s in r <==> s.size == size && s.direction == dir && CandidateShape(s) && p(s)
  {
  }

  /** getAllPossibleToAddShips: horizontal candidates, then vertical ones. */
  function AllCandidates(g: Grid, size: nat): (r: seq<Ship>)
    requires WellFormed(g)
    ensures forall s :: s in r <==> s.size == size && CandidateShape(s) && CanAddShip(g, s)
  {
    var h := DirectionCandidates(g, size, Horizontal);
    var v := DirectionCandidates(g, size, Vertical);
    BothDirections(h, v, (s: Ship) => s.size == size && CandidateShape(s) && CanAddShip(g, s));
    h + v
  }

  /** The ships of one direction followed by those of the other are all the
      ships with the property. */
  lemma BothDirections(h: seq<Ship>, v: seq<Ship>, p: Ship -> bool)
    requires forall s :: s in h <==> s.direction == Horizontal && p(s)
    requires forall s :: s in v <==> s.direction == Vertical && p(s)
    ensures forall s :: s in h + v <==> p(s)
  {
  }

  /** The enumeration is incomplete: a horizontal candidate never reaches the
      last column, a vertical one never reaches the last row, and so no
      candidate covers the bottom-right cell. */
  lemma CandidatesAvoidLastLines(s: Ship)
    requires CandidateShape(s)
    ensures s.direction == Horizontal ==> forall i :: 0 <= i < s.size ==> Part(s, i).x < Dim - 1
    ensures s.direction == Vertical ==> forall i :: 0 <= i < s.size ==> Part(s, i).y < Dim - 1
    ensures !Covers(s, Coord(Dim - 1, Dim - 1))
  {
  }

  /** A witness of the incompleteness: on a fresh board a horizontal ship
      ending in the last column is legal but is never offered. */
  lemma EnumerationMissesLastColumn(size: nat)
    requires 1 <= size <= Dim
    ensures CanAddShip(CreateBoardCells(), NewShip(Coord(Dim - size, 0), size, Horizontal))
    ensures NewShip(Coord(Dim - size, 0), size, Horizontal) !in AllCandidates(CreateBoardCells(), size)
  {
    FreshBoardCanAdd(NewShip(Coord(Dim - size, 0), size, Horizontal));
  }

  /** addRandomShip: no candidate means failure with nothing changed;
      otherwise a randomly picked candidate is added, which always succeeds. */
  function AddRandomShip(bd: Board, size: nat, rnd: nat): (r: Placed)
    requires WellFormed(bd.cells) && FleetOnBoard(bd.ships)
    ensures r.added <==> |AllCandidates(bd.cells, size)| > 0
    ensures !r.added ==> r.board == bd
    ensures r.added ==>
      && |r.board.ships| == |bd.ships| + 1
      && r.board.ships[..|bd.ships|] == bd.ships
      && r.board.ships[|bd.ships|] in AllCandidates(bd.cells, size)
      && r == AddShip(bd, r.board.ships[|bd.ships|])
  {
    var cands := AllCandidates(bd.cells, size);
    if |cands| == 0 then Placed(false, bd)
    else
      var s := cands[RandomInt(0, |cands| - 1, rnd)];
      assert s in cands;
      var r := AddShip(bd, s);
      assert r.board.ships[..|bd.ships|] == bd.ships;
      r
  }

  /** A random placement keeps the board consistent with its fleet. */
  lemma AddRandomShipConsistent(bd: Board, size: nat, rnd: nat)
    requires Consistent(bd)
    ensures AddRandomShip(bd, size, rnd).added ==> Consistent(AddRandomShip(bd, size, rnd).board)
  {
    var r := AddRandomShip(bd, size, rnd);
    if r.added {
      AddShipConsistent(bd, r.board.ships[|bd.ships|]);
    }
  }

  /** Retrying addRandomShip is futile: a failed attempt leaves the board as
      it was, so every later attempt, whatever the random draw, fails too. */
  lemma RetryAfterFailureFails(bd: Board, size: nat, rnd: nat, rnd': nat)
    requires WellFormed(bd.cells) && FleetOnBoard(bd.ships)
    requires !AddRandomShip(bd, size, rnd).added
    ensures !AddRandomShip(AddRandomShip(bd, size, rnd).board, size, rnd').added
  {
  }

  /** getDefaultShipsCollection: four ships of length 1, three of 2, two of
      3 and one of 4 — ten ships covering twenty cells. */
  function DefaultShipsCollection(): (r: seq<nat>)
    ensures |r| == 10 && Sum(r) == 20
    ensures forall n :: 1 <= n <= 4 ==> multiset(r)[n] == 5 - n
  {
    DefaultFleetCells();
    DefaultFleetCounts();
    [1, 1, 1, 1, 2, 2, 2, 3, 3, 4]
  }

  /** Every default ship is between one and four cells long. */
  lemma DefaultSizesInRange()
    ensures forall x :: x in DefaultShipsCollection() ==> 1 <= x <= 4
  {
  }

  lemma DefaultFleetCells()
    ensures Sum([1, 1, 1, 1, 2, 2, 2, 3, 3, 4]) == 20
  {
  }

  lemma DefaultFleetCounts()
    ensures forall n :: 1 <= n <= 4 ==> multiset([1, 1, 1, 1, 2, 2, 2, 3, 3, 4])[n] == 5 - n
  {
    var r := [1, 1, 1, 1, 2, 2, 2, 3, 3, 4];
    assert multiset(r)[1] == 4;
    assert multiset(r)[2] == 3;
    assert multiset(r)[3] == 2;
    assert multiset(r)[4] == 1;
  }

  function Sum(xs: seq<nat>): nat {
    if xs == [] then 0 else xs[0] + Sum(xs[1..])
  }

  /** The sizes of a list of ships. */
  function Sizes(ships: seq<Ship>): (r: seq<nat>)
    ensures |r| == |ships| && forall k :: 0 <= k < |r| ==> r[k] == ships[k].size
  {
    seq(|ships|, k requires 0 <= k < |ships| => ships[k].size)
  }

  /** The list read from its end: the order in which `pop` hands it out. */
  function Reverse(xs: seq<nat>): (r: seq<nat>)
    ensures |r| == |xs|
    ensures forall k :: 0 <= k < |xs| ==> r[k] == xs[|xs| - 1 - k]
  {
    if xs == [] then [] else [xs[|xs| - 1]] + Reverse(xs[..|xs| - 1])
  }

  /** The retry loop of addRandomShips for the sizes still on the stack:
      the last size is popped first and placed with the next random draw.
      `None` stands for the game's endless retry when some size has no
      candidate left. */
  function PlaceSizes(bd: Board, sizes: seq<nat>, picks: seq<nat>): (r: Option<Board>)
    requires WellFormed(bd.cells) && FleetOnBoard(bd.ships)
    requires |picks| == |sizes|
    ensures r.Some? ==> WellFormed(r.value.cells) && FleetOnBoard(r.value.ships)
    ensures r.Some? ==> |r.value.ships| == |bd.ships| + |sizes| && r.value.ships[..|bd.ships|] == bd.ships
    decreases |sizes|
  {
    if sizes == [] then Some(bd)
    else
      var step := AddRandomShip(bd, sizes[|sizes| - 1], picks[0]);
      if !step.added then None
      else
        var r := PlaceSizes(step.board, sizes[..|sizes| - 1], picks[1..]);
        if r.None? then None
        else
          PrefixOfPrefix(r.value.ships, step.board.ships, bd.ships);
          r
  }

  /** One step of the auto-fill: the popped size was placed, the rest of
      the stack finished the job, and the ship appended first is the one
      that step placed. */
  lemma PlaceSizesStep(bd: Board, sizes: seq<nat>, picks: seq<nat>)
    requires WellFormed(bd.cells) && FleetOnBoard(bd.ships)
    requires |picks| == |sizes| && sizes != []
    requires PlaceSizes(bd, sizes, picks).Some?
    ensures var step := AddRandomShip(bd, sizes[|sizes| - 1], picks[0]);
      && step.added
      && PlaceSizes(step.board, sizes[..|sizes| - 1], picks[1..]) == PlaceSizes(bd, sizes, picks)
      && PlaceSizes(bd, sizes, picks).value.ships[|bd.ships|] == step.board.ships[|bd.ships|]
  {
    PlaceSizesUnfold(bd, sizes, picks);
    var step := AddRandomShip(bd, sizes[|sizes| - 1], picks[0]);
    var all := PlaceSizes(bd, sizes, picks).value.ships;
    var n := |bd.ships|;
    assert all[..n + 1] == step.board.ships;
    assert all[n] == all[..n + 1][n];
  }

  /** A successful auto-fill of a non-empty stack is its first step
      followed by the rest. */
  lemma PlaceSizesUnfold(bd: Board, sizes: seq<nat>, picks: seq<nat>)
    requires WellFormed(bd.cells) && FleetOnBoard(bd.ships)
    requires |picks| == |sizes| && sizes != []
    requires PlaceSizes(bd, sizes, picks).Some?
    ensures var step := AddRandomShip(bd, sizes[|sizes| - 1], picks[0]);
      && step.added
      && PlaceSizes(step.board, sizes[..|sizes| - 1], picks[1..]) == PlaceSizes(bd, sizes, picks)
  {
  }

  /** The ship a successful random placement appends is a candidate of
      the requested size. */
  lemma AddedCandidate(bd: Board, size: nat, rnd: nat)
    requires WellFormed(bd.cells) && FleetOnBoard(bd.ships)
    requires AddRandomShip(bd, size, rnd).added
    ensures var s := AddRandomShip(bd, size, rnd).board.ships[|bd.ships|];
      s.size == size && CandidateShape(s)
  {
  }

  /** The ships the auto-fill appends have the popped sizes, in popping
      order. */
  lemma {:induction false} PlaceSizesFleet(bd: Board, sizes: seq<nat>, picks: seq<nat>)
    requires WellFormed(bd.cells) && FleetOnBoard(bd.ships)
    requires |picks| == |sizes|
    ensures var r := PlaceSizes(bd, sizes, picks);
      r.Some? ==> Sizes(r.value.ships[|bd.ships|..]) == Reverse(sizes)
    decreases |sizes|
  {
    var r := PlaceSizes(bd, sizes, picks);
    if sizes != [] && r.Some? {
      PlaceSizesStep(bd, sizes, picks);
      var step := AddRandomShip(bd, sizes[|sizes| - 1], picks[0]);
      PlaceSizesFleet(step.board, sizes[..|sizes| - 1], picks[1..]);
      AddedCandidate(bd, sizes[|sizes| - 1], picks[0]);
      var all := r.value.ships;
      var n := |bd.ships|;
      SplitAt(all, n);
      SizesCons(all[n], all[n + 1..]);
    }
  }

  /** ... and each sits at a tried origin in its fresh state. */
  lemma {:induction false} PlaceSizesShapes(bd: Board, sizes: seq<nat>, picks: seq<nat>)
    requires WellFormed(bd.cells) && FleetOnBoard(bd.ships)
    requires |picks| == |sizes|
    ensures var r := PlaceSizes(bd, sizes, picks);
      r.Some? ==> forall s :: s in r.value.ships[|bd.ships|..] ==> CandidateShape(s)
    decreases |sizes|
  {
    var r := PlaceSizes(bd, sizes, picks);
    if sizes != [] && r.Some? {
      PlaceSizesStep(bd, sizes, picks);
      var step := AddRandomShip(bd, sizes[|sizes| - 1], picks[0]);
      PlaceSizesShapes(step.board, sizes[..|sizes| - 1], picks[1..]);
      AddedCandidate(bd, sizes[|sizes| - 1], picks[0]);
      ShapesCons(r.value.ships, |bd.ships|);
    }
  }

  /** A candidate followed by candidates is a list of candidates. */
  lemma ShapesCons(all: seq<Ship>, n: nat)
    requires n < |all| && CandidateShape(all[n])
    requires forall s :: s in all[n + 1..] ==> CandidateShape(s)
    ensures forall s :: s in all[n..] ==> CandidateShape(s)
  {
    SplitAt(all, n);
  }

  lemma PrefixOfPrefix(xs: seq<Ship>, ys: seq<Ship>, zs: seq<Ship>)
    requires |zs| <= |ys| <= |xs| && xs[..|ys|] == ys && ys[..|zs|] == zs
    ensures xs[..|zs|] == zs
  {
    assert xs[..|zs|] == xs[..|ys|][..|zs|];
  }

  lemma SplitAt(xs: seq<Ship>, n: nat)
    requires n < |xs|
    ensures xs[n..] == [xs[n]] + xs[n + 1..]
  {
  }

  lemma SizesCons(x: Ship, ys: seq<Ship>)
    ensures Sizes([x] + ys) == [x.size] + Sizes(ys)
  {
  }

  /** Auto-fill keeps the board consistent with its fleet. */
  lemma {:induction false} PlaceSizesConsistent(bd: Board, sizes: seq<nat>, picks: seq<nat>)
    requires Consistent(bd)
    requires |picks| == |sizes|
    ensures var r := PlaceSizes(bd, sizes, picks);
      r.Some? ==> Consistent(r.value)
    decreases |sizes|
  {
    if sizes != [] {
      var step := AddRandomShip(bd, sizes[|sizes| - 1], picks[0]);
      if step.added {
        AddRandomShipConsistent(bd, sizes[|sizes| - 1], picks[0]);
        var rest := PlaceSizes(step.board, sizes[..|sizes| - 1], picks[1..]);
        assert PlaceSizes(bd, sizes, picks) == rest;
        PlaceSizesConsistent(step.board, sizes[..|sizes| - 1], picks[1..]);
      }
    }
  }

  /** addRandomShips: place the default fleet, popping sizes off its end,
      so the largest ship goes first. */
  function AddRandomShips(bd: Board, picks: seq<nat>): (r: Option<Board>)
    requires WellFormed(bd.cells) && FleetOnBoard(bd.ships)
    requires |picks| == 10
    ensures r.Some? ==> |r.value.ships| == |bd.ships| + 10 && r.value.ships[..|bd.ships|] == bd.ships
  {
    PlaceSizes(bd, DefaultShipsCollection(), picks)
  }

  /** The ten appended ships come largest first, and each is a fresh ship at
      a tried origin. */
  lemma AddRandomShipsOrder(bd: Board, picks: seq<nat>)
    requires WellFormed(bd.cells) && FleetOnBoard(bd.ships)
    requires |picks| == 10
    ensures var r := AddRandomShips(bd, picks);
      r.Some? ==>
        && Sizes(r.value.ships[|bd.ships|..]) == [4, 3, 3, 2, 2, 2, 1, 1, 1, 1]
        && forall s :: s in r.value.ships[|bd.ships|..] ==> CandidateShape(s)
  {
    PlaceSizesFleet(bd, DefaultShipsCollection(), picks);
    PlaceSizesShapes(bd, DefaultShipsCollection(), picks);
    ReverseDefault();
  }

  /** Auto-fill on a fresh board, when it finishes, places exactly the
      default fleet, pairwise non-touching, and never covers the
      bottom-right cell. */
  lemma AutoFillFreshBoard(picks: seq<nat>)
    requires |picks| == 10
    ensures var r := AddRandomShips(Board(CreateBoardCells(), []), picks);
      r.Some? ==>
        && |r.value.ships| == 10
        && multiset(Sizes(r.value.ships)) == multiset(DefaultShipsCollection())
        && NoTouch(r.value.ships)
        && Consistent(r.value)
        && forall k :: 0 <= k < 10 ==> !Covers(r.value.ships[k], Coord(Dim - 1, Dim - 1))
  {
    var bd := Board(CreateBoardCells(), []);
    FreshBoardConsistent();
    var r := AddRandomShips(bd, picks);
    if r.Some? {
      AddRandomShipsOrder(bd, picks);
      PlaceSizesConsistent(bd, DefaultShipsCollection(), picks);
      assert r.value.ships[0..] == r.value.ships;
      forall k | 0 <= k < 10 ensures !Covers(r.value.ships[k], Coord(Dim - 1, Dim - 1)) {
        assert r.value.ships[k] in r.value.ships[0..];
        CandidatesAvoidLastLines(r.value.ships[k]);
      }
      DefaultFleetMultiset();
    }
  }

  lemma ReverseDefault()
    ensures Reverse(DefaultShipsCollection()) == [4, 3, 3, 2, 2, 2, 1, 1, 1, 1]
  {
    var d := DefaultShipsCollection();
    assert d == [1, 1, 1, 1, 2, 2, 2, 3, 3, 4];
    var r := Reverse(d);
    assert r[0] == 4 && r[1] == 3 && r[2] == 3 && r[3] == 2 && r[4] == 2;
    assert r[5] == 2 && r[6] == 1 && r[7] == 1 && r[8] == 1 && r[9] == 1;
  }

  lemma DefaultFleetMultiset()
    ensures multiset([4, 3, 3, 2, 2, 2, 1, 1, 1, 1]) == multiset(DefaultShipsCollection())
  {
    ReverseDefault();
    ReversePermutes(DefaultShipsCollection());
  }

  /** Popping every element off a stack hands out each one once. */
  lemma {:induction false} ReversePermutes(xs: seq<nat>)
    ensures multiset(Reverse(xs)) == multiset(xs)
  {
    if xs != [] {
      var init := xs[..|xs| - 1];
      ReversePermutes(init);
      assert xs == init + [xs[|xs| - 1]];
      assert Reverse(xs) == [xs[|xs| - 1]] + Reverse(init);
    }
  }

  /** The indices, below n, of the ships that are not destroyed. */
  ghost function Alive(g: Grid, ships: seq<Ship>, n: nat): set<int>
    requires WellFormed(g) && FleetOnBoard(ships) && n <= |ships|
  {
    set k | 0 <= k < n && !IsDestroyed(g, ships[k])
  }

  lemma AliveStep(g: Grid, ships: seq<Ship>, n: nat)
    requires WellFormed(g) && FleetOnBoard(ships) && 0 < n <= |ships|
    ensures n - 1 !in Alive(g, ships, n - 1)
    ensures Alive(g, ships, n) ==
      Alive(g, ships, n - 1) + (if IsDestroyed(g, ships[n - 1]) then {} else {n - 1})
  {
  }

  /** Count the ships among the first n that are not destroyed. */
  function CountUndestroyed(g: Grid, ships: seq<Ship>, n: nat): (r: nat)
    requires WellFormed(g) && FleetOnBoard(ships) && n <= |ships|
    ensures r == |Alive(g, ships, n)|
    ensures r <= n
  {
    if n == 0 then
      assert Alive(g, ships, n) == {};
      0
    else
      AliveStep(g, ships, n);
      CountUndestroyed(g, ships, n - 1) + (if IsDestroyed(g, ships[n - 1]) then 0 else 1)
  }

  /** getUndestroyedShipsNumber: the number of ships not yet destroyed; it is
      zero exactly when every ship is destroyed. */
  function UndestroyedShipsNumber(bd: Board): (r: nat)
    requires WellFormed(bd.cells) && FleetOnBoard(bd.ships)
    ensures r == |set k | 0 <= k < |bd.ships| && !IsDestroyed(bd.cells, bd.ships[k])|
    ensures r <= |bd.ships|
    ensures r == 0 <==> forall k :: 0 <= k < |bd.ships| ==> IsDestroyed(bd.cells, bd.ships[k])
  {
    var alive := Alive(bd.cells, bd.ships, |bd.ships|);
    assert alive == {} <==> forall k :: 0 <= k < |bd.ships| ==> IsDestroyed(bd.cells, bd.ships[k]) by {
      if alive == {} {
        forall k | 0 <= k < |bd.ships| ensures IsDestroyed(bd.cells, bd.ships[k]) {
          assert k !in alive;
        }
      }
    }
    CountUndestroyed(bd.cells, bd.ships, |bd.ships|)
  }

}
