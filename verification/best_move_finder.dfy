/** The computer's targeting heuristic (bestMoveFinder.ts), a pure function
    of the opponent's view of a board: one character per cell, `_` for
    open water or an unseen ship, `.` for a miss, `X` for a hit and `D` for
    a sunk ship's cell.  With a hit on the board it shoots next to one
    (target mode); otherwise it counts, for every cell, the open windows the
    largest missing ship could lie in and shoots where that count peaks
    (hunt mode).  The random pick is an injected natural number. */
module BestMoveFinder {
  import opened Wrappers
  import opened Types
  import opened Ships

  type View = seq<seq<char>>

  /** A Dim × Dim grid: the only shape of view the heuristic is given, and
      the shape of the matrix it builds. */
  predicate Square<T>(g: seq<seq<T>>) {
    |g| == Dim && forall y :: 0 <= y < Dim ==> |g[y]| == Dim
  }

  /** getValueAtCords: the character at c, or `None` (null) off the view;
      the width is the length of the first row and the height the number
      of rows. */
  function ValueAt(v: View, c: Coord): (r: Option<char>)
    requires Square(v)
    ensures r.Some? <==> OnBoard(c)
    ensures r.Some? ==> r.value == v[c.y][c.x]
  {
    if c.x < 0 || c.y < 0 || c.x >= |v[0]| || c.y >= |v| then None else Some(v[c.y][c.x])
  }

  /** The character at c is ch; off the view nothing matches. */
  predicate Is(v: View, c: Coord, ch: char)
    requires Square(v)
  {
    ValueAt(v, c) == Some(ch)
  }

  /** d is one of the four side neighbours of c. */
  predicate Orthogonal(d: Coord, c: Coord) {
    (d.y == c.y && (d.x == c.x - 1 || d.x == c.x + 1)) ||
    (d.x == c.x && (d.y == c.y - 1 || d.y == c.y + 1))
  }

  /** The listed coordinates holding `_`, in order. */
  function OpenOnly(v: View, cs: seq<Coord>): (r: seq<Coord>)
    requires Square(v)
    ensures |r| <= |cs|
    ensures forall d :: d in r <==> d in cs && Is(v, d, '_')
  {
    if cs == [] then []
    else
      var rest := OpenOnly(v, cs[1..]);
      assert forall d :: d in cs <==> d == cs[0] || d in cs[1..];
      if Is(v, cs[0], '_') then [cs[0]] + rest else rest
  }

  /** getPossibleMovesNearCoords: the side neighbours of c (left, up,
      right, down) that hold `_`. */
  function PossibleMovesNear(v: View, c: Coord): (r: seq<Coord>)
    requires Square(v)
    ensures |r| <= 4
    ensures forall d :: d in r <==> Orthogonal(d, c) && OnBoard(d) && v[d.y][d.x] == '_'
  {
    var around := [Coord(c.x - 1, c.y), Coord(c.x, c.y - 1), Coord(c.x + 1, c.y), Coord(c.x, c.y + 1)];
    assert forall d :: Orthogonal(d, c) <==> d in around;
    OpenOnly(v, around)
  }

  /** Rows laid end to end (`flat()`). */
  function Flat<T>(v: seq<seq<T>>): (r: seq<T>)
  {
    if v == [] then [] else v[0] + Flat(v[1..])
  }

  /** Row y of Dim-wide rows starts at index y * Dim of the flat list. */
  lemma {:induction false} FlatIndex<T>(v: seq<seq<T>>)
    requires forall y :: 0 <= y < |v| ==> |v[y]| == Dim
    ensures |Flat(v)| == Dim * |v|
    ensures forall y, x :: 0 <= y < |v| && 0 <= x < Dim ==> Flat(v)[Dim * y + x] == v[y][x]
  {
    if v != [] {
      var rest := v[1..];
      FlatIndex(rest);
      assert Flat(v) == v[0] + Flat(rest);
      assert Dim * |v| == Dim + Dim * |rest|;
      forall y, x | 0 <= y < |v| && 0 <= x < Dim ensures Flat(v)[Dim * y + x] == v[y][x] {
        if y == 0 {
          assert Flat(v)[x] == v[0][x];
        } else {
          assert Flat(v)[Dim * y + x] == Flat(rest)[Dim * (y - 1) + x];
          assert rest[y - 1] == v[y];
        }
      }
    }
  }

  /** A scan of a flat list from index i on: the position of every entry
      equal to x, as (index mod w, index div h), in index order. */
  function PositionsFrom<T(==)>(flat: seq<T>, x: T, w: int, h: int, i: nat): (r: seq<Coord>)
    requires w > 0 && h > 0 && i <= |flat|
    ensures forall c :: c in r <==> exists j :: i <= j < |flat| && flat[j] == x && c == Coord(j % w, j / h)
    decreases |flat| - i
  {
    if i == |flat| then []
    else
      var rest := PositionsFrom(flat, x, w, h, i + 1);
      var here := if flat[i] == x then [Coord(i % w, i / h)] else [];
      assert forall c :: c in here + rest <==> c in here || c in rest;
      here + rest
  }

  /** A flat index splits into a column and a row of the square view. */
  lemma Unflatten(j: int)
    requires 0 <= j < Dim * Dim
    ensures j == Dim * (j / Dim) + j % Dim
    ensures OnBoard(Coord(j % Dim, j / Dim))
  {
  }

  /** ... and a coordinate of the view has one flat index. */
  lemma Flatten(c: Coord)
    requires OnBoard(c)
    ensures 0 <= Dim * c.y + c.x < Dim * Dim
    ensures (Dim * c.y + c.x) % Dim == c.x && (Dim * c.y + c.x) / Dim == c.y
  {
  }

  /** The coordinates of a square grid's entries equal to x, row by row. */
  function Positions<T(==)>(g: seq<seq<T>>, x: T): (r: seq<Coord>)
    requires Square(g)
    ensures forall c :: c in r <==> OnBoard(c) && g[c.y][c.x] == x
  {
    var r := PositionsFrom(Flat(g), x, |g[0]|, |g|, 0);
    forall c ensures c in r <==> OnBoard(c) && g[c.y][c.x] == x {
      PositionOf(g, x, c);
    }
    r
  }

  /** One coordinate is listed by the flat scan exactly when it is on the
      board and holds x. */
  lemma PositionOf<T>(g: seq<seq<T>>, x: T, c: Coord)
    requires Square(g)
    ensures c in PositionsFrom(Flat(g), x, Dim, Dim, 0) <==> OnBoard(c) && g[c.y][c.x] == x
  {
    if OnBoard(c) && g[c.y][c.x] == x {
      HoldsListed(g, x, c);
    }
    if c in PositionsFrom(Flat(g), x, Dim, Dim, 0) {
      ListedOnBoard(g, x, c);
    }
  }

  /** An on-board coordinate holding x is listed, from its flat index. */
  lemma HoldsListed<T>(g: seq<seq<T>>, x: T, c: Coord)
    requires Square(g) && OnBoard(c) && g[c.y][c.x] == x
    ensures c in PositionsFrom(Flat(g), x, Dim, Dim, 0)
  {
    var flat := Flat(g);
    FlatAt(g, c.y, c.x);
    Flatten(c);
    var j := Dim * c.y + c.x;
    assert flat[j] == x && c == Coord(j % Dim, j / Dim);
  }

  /** The flat list of Dim-wide rows has Dim entries per row. */
  lemma FlatLength<T>(v: seq<seq<T>>)
    requires forall y :: 0 <= y < |v| ==> |v[y]| == Dim
    ensures |Flat(v)| == Dim * |v|
  {
    FlatIndex(v);
  }

  /** One entry of the flat list of Dim-wide rows. */
  lemma FlatAt<T>(v: seq<seq<T>>, y: int, x: int)
    requires forall y :: 0 <= y < |v| ==> |v[y]| == Dim
    requires 0 <= y < |v| && 0 <= x < Dim
    ensures |Flat(v)| == Dim * |v| && Flat(v)[Dim * y + x] == v[y][x]
  {
    FlatIndex(v);
  }

  /** A listed coordinate comes from some flat index holding x. */
  lemma ListedOnBoard<T>(g: seq<seq<T>>, x: T, c: Coord)
    requires Square(g) && c in PositionsFrom(Flat(g), x, Dim, Dim, 0)
    ensures OnBoard(c) && g[c.y][c.x] == x
  {
    var flat := Flat(g);
    var j :| 0 <= j < |flat| && flat[j] == x && c == Coord(j % Dim, j / Dim);
    FlatLength(g);
    Unflatten(j);
    FlatAt(g, c.y, c.x);
  }

  /** findPartlyDestroyedCoordsList: exactly the coordinates of the `X`
      cells, because the view is square. */
  function PartlyDestroyedCoords(v: View): (r: seq<Coord>)
    requires Square(v)
    ensures forall c :: c in r <==> OnBoard(c) && v[c.y][c.x] == 'X'
  {
    Positions(v, 'X')
  }

  /** A report of findShips: where a sunk ship starts and its length. */
  datatype Find = Find(coords: Coord, size: nat)

  /** The t-th cell of line `line` scanned in direction dir: of row `line`
      when horizontal, of column `line` when vertical. */
  function Pos(dir: Direction, line: int, t: int): (c: Coord)
    ensures dir == Horizontal ==> c.y == line && c.x == t
    ensures dir == Vertical ==> c.x == line && c.y == t
  {
    if dir == Horizontal then Coord(t, line) else Coord(line, t)
  }

  /** Which line of direction dir a coordinate lies on ... */
  function Across(dir: Direction, c: Coord): int {
    if dir == Horizontal then c.y else c.x
  }

  /** ... and how far along it. */
  function Along(dir: Direction, c: Coord): int {
    if dir == Horizontal then c.x else c.y
  }

  /** The inner while loop of findShips: from a `D` at position t of a
      line, the last position of the unbroken run of `D`s. */
  function RunEnd(v: View, dir: Direction, line: int, t: int): (e: int)
    requires Square(v) && Is(v, Pos(dir, line, t), 'D')
    ensures t <= e < Dim
    ensures forall u :: t <= u <= e ==> Is(v, Pos(dir, line, u), 'D')
    ensures !Is(v, Pos(dir, line, e + 1), 'D')
    decreases Dim - t
  {
    if Is(v, Pos(dir, line, t + 1), 'D') then RunEnd(v, dir, line, t + 1) else t
  }

  /** A maximal run: exactly the n >= 1 positions from t on hold `D`, with
      no `D` just before or just after. */
  ghost predicate Run(v: View, dir: Direction, line: int, t: int, n: int)
    requires Square(v)
  {
    1 <= n && (forall u :: t <= u < t + n ==> Is(v, Pos(dir, line, u), 'D')) &&
    !Is(v, Pos(dir, line, t - 1), 'D') && !Is(v, Pos(dir, line, t + n), 'D')
  }

  /** Neither the cell below nor the cell above c holds `D`. */
  predicate Lone(v: View, c: Coord)
    requires Square(v)
  {
    !Is(v, Coord(c.x, c.y + 1), 'D') && !Is(v, Coord(c.x, c.y - 1), 'D')
  }

  /** What the scan in direction dir reports: every maximal run of two or
      more `D`s, and in rows also a single `D` with no `D` above or below
      it.  A lone vertical `D` of length one is left to the row scan. */
  ghost predicate Reported(v: View, dir: Direction, f: Find)
    requires Square(v)
  {
    Run(v, dir, Across(dir, f.coords), Along(dir, f.coords), f.size) &&
    (f.size >= 2 || (dir == Horizontal && Lone(v, f.coords)))
  }

  /** What the scan reports for the run from t to e: the run when it is
      two or more long, a single cell only in a row and with no `D` above or
      below it. */
  function RunFinds(v: View, dir: Direction, line: int, t: int, e: int): (r: seq<Find>)
    requires Square(v) && t <= e
    ensures forall f :: f in r <==>
      f == Find(Pos(dir, line, t), e - t + 1) && (e != t || (dir == Horizontal && Lone(v, f.coords)))
  {
    var c := Pos(dir, line, t);
    if e != t then [Find(c, e - t + 1)]
    else if dir == Horizontal && Lone(v, c) then [Find(c, 1)]
    else []
  }

  /** The scan of one line from position t on; after a run ending at e it
      resumes at e + 2, as the game's loop counter does. */
  function LineFinds(v: View, dir: Direction, line: int, t: int): (r: seq<Find>)
    requires Square(v) && 0 <= line < Dim && 0 <= t
    decreases Dim - t
  {
    if t >= Dim then []
    else if !Is(v, Pos(dir, line, t), 'D') then LineFinds(v, dir, line, t + 1)
    else
      var e := RunEnd(v, dir, line, t);
      RunFinds(v, dir, line, t, e) + LineFinds(v, dir, line, e + 2)
  }

  /** A run that starts at t has one length. */
  lemma RunLength(v: View, dir: Direction, line: int, t: int, n: int, m: int)
    requires Square(v) && Run(v, dir, line, t, n) && Run(v, dir, line, t, m)
    ensures n == m
  {
  }

  /** No run starts right after a `D` or on a cell without one. */
  lemma NoRunAt(v: View, dir: Direction, line: int, a: int, n: int)
    requires Square(v)
    requires Is(v, Pos(dir, line, a - 1), 'D') || !Is(v, Pos(dir, line, a), 'D')
    ensures !Run(v, dir, line, a, n)
  {
  }

  /** The reports of the run found at t and ending at e: exactly the finds
      of that line starting between t and the gap after the run. */
  lemma RunReport(v: View, dir: Direction, line: int, t: int, e: int, f: Find)
    requires Square(v) && 0 <= line < Dim && 0 <= t
    requires !Is(v, Pos(dir, line, t - 1), 'D') && Is(v, Pos(dir, line, t), 'D')
    requires e == RunEnd(v, dir, line, t)
    requires Across(dir, f.coords) == line && t <= Along(dir, f.coords) <= e + 1
    ensures Reported(v, dir, f) <==>
      f.coords == Pos(dir, line, t) && f.size == e - t + 1 &&
      (f.size >= 2 || (dir == Horizontal && Lone(v, f.coords)))
  {
    var a := Along(dir, f.coords);
    assert f.coords == Pos(dir, line, a);
    if a == t {
      RunAtStart(v, dir, line, t, e, f);
    } else {
      NoRunAt(v, dir, line, a, f.size);
    }
  }

  /** A run starting where the scan found a `D` is the scanned run. */
  lemma RunAtStart(v: View, dir: Direction, line: int, t: int, e: int, f: Find)
    requires Square(v) && 0 <= line < Dim && 0 <= t
    requires !Is(v, Pos(dir, line, t - 1), 'D') && Is(v, Pos(dir, line, t), 'D')
    requires e == RunEnd(v, dir, line, t)
    requires f.coords == Pos(dir, line, t)
    ensures Run(v, dir, line, t, f.size) <==> f.size == e - t + 1
  {
    ScannedRun(v, dir, line, t, e);
    if Run(v, dir, line, t, f.size) {
      RunLength(v, dir, line, t, f.size, e - t + 1);
    }
  }

  /** The cells the inner loop walks over form a maximal run. */
  lemma ScannedRun(v: View, dir: Direction, line: int, t: int, e: int)
    requires Square(v) && 0 <= line < Dim && 0 <= t
    requires !Is(v, Pos(dir, line, t - 1), 'D') && Is(v, Pos(dir, line, t), 'D')
    requires e == RunEnd(v, dir, line, t)
    ensures Run(v, dir, line, t, e - t + 1)
  {
  }

  /** What a find must be to be reported from position t on. */
  ghost predicate ReportedFrom(v: View, dir: Direction, line: int, t: int, f: Find)
    requires Square(v)
  {
    Across(dir, f.coords) == line && Along(dir, f.coords) >= t && Reported(v, dir, f)
  }

  /** Past the end of a line nothing is reported. */
  lemma PastEnd(v: View, dir: Direction, line: int, t: int, f: Find)
    requires Square(v) && t >= Dim
    ensures !ReportedFrom(v, dir, line, t, f)
  {
    if Across(dir, f.coords) == line && Along(dir, f.coords) >= t {
      assert f.coords == Pos(dir, line, Along(dir, f.coords));
      NoRunAt(v, dir, line, Along(dir, f.coords), f.size);
    }
  }

  /** A position without `D` adds nothing to the reports. */
  lemma SkipGap(v: View, dir: Direction, line: int, t: int, f: Find)
    requires Square(v) && !Is(v, Pos(dir, line, t), 'D')
    ensures ReportedFrom(v, dir, line, t, f) <==> ReportedFrom(v, dir, line, t + 1, f)
  {
    if Across(dir, f.coords) == line && Along(dir, f.coords) == t {
      assert f.coords == Pos(dir, line, t);
      NoRunAt(v, dir, line, t, f.size);
    }
  }

  /** A run found at t, ending at e, adds its own report to those from the
      gap after it on. */
  lemma SkipRun(v: View, dir: Direction, line: int, t: int, e: int, f: Find)
    requires Square(v) && 0 <= line < Dim && 0 <= t
    requires !Is(v, Pos(dir, line, t - 1), 'D') && Is(v, Pos(dir, line, t), 'D')
    requires e == RunEnd(v, dir, line, t)
    ensures ReportedFrom(v, dir, line, t, f) <==>
      ReportedFrom(v, dir, line, e + 2, f) ||
      (f == Find(Pos(dir, line, t), e - t + 1) && (e != t || (dir == Horizontal && Lone(v, f.coords))))
  {
    var a := Along(dir, f.coords);
    if Across(dir, f.coords) == line && t <= a < e + 2 {
      RunReport(v, dir, line, t, e, f);
    }
  }

  /** Scanning a line from a run boundary t reports a find exactly when it
      is a run of that line starting at t or later. */
  lemma {:induction false} LineFindsIff(v: View, dir: Direction, line: int, t: int, f: Find)
    requires Square(v) && 0 <= line < Dim && 0 <= t
    requires !Is(v, Pos(dir, line, t - 1), 'D')
    ensures f in LineFinds(v, dir, line, t) <==> ReportedFrom(v, dir, line, t, f)
    decreases Dim - t, 1
  {
    if t >= Dim {
      PastEnd(v, dir, line, t, f);
    } else if !Is(v, Pos(dir, line, t), 'D') {
      LineFindsGap(v, dir, line, t, f);
    } else {
      LineFindsRun(v, dir, line, t, f);
    }
  }

  /** LineFindsIff at a cell without `D`: the scan moves on to the next
      cell, and so does the claim. */
  lemma {:induction false} LineFindsGap(v: View, dir: Direction, line: int, t: int, f: Find)
    requires Square(v) && 0 <= line < Dim && 0 <= t < Dim
    requires !Is(v, Pos(dir, line, t), 'D')
    ensures f in LineFinds(v, dir, line, t) <==> ReportedFrom(v, dir, line, t, f)
    decreases Dim - t, 0
  {
    LineFindsIff(v, dir, line, t + 1, f);
    SkipGap(v, dir, line, t, f);
  }

  /** LineFindsIff at the start of a run: the run's own report, then the
      claim from the gap after it. */
  lemma {:induction false} LineFindsRun(v: View, dir: Direction, line: int, t: int, f: Find)
    requires Square(v) && 0 <= line < Dim && 0 <= t < Dim
    requires !Is(v, Pos(dir, line, t - 1), 'D') && Is(v, Pos(dir, line, t), 'D')
    ensures f in LineFinds(v, dir, line, t) <==> ReportedFrom(v, dir, line, t, f)
    decreases Dim - t, 0
  {
    var e := RunEnd(v, dir, line, t);
    LineFindsIff(v, dir, line, e + 2, f);
    LineFindsAtRun(v, dir, line, t, e, f);
    SkipRun(v, dir, line, t, e, f);
  }

  /** At a run the scan reports the run's finds, then resumes at e + 2. */
  lemma LineFindsAtRun(v: View, dir: Direction, line: int, t: int, e: int, f: Find)
    requires Square(v) && 0 <= line < Dim && 0 <= t < Dim
    requires Is(v, Pos(dir, line, t), 'D') && e == RunEnd(v, dir, line, t)
    ensures f in LineFinds(v, dir, line, t) <==> f in RunFinds(v, dir, line, t, e) || f in LineFinds(v, dir, line, e + 2)
  {
    LineFindsSplit(v, dir, line, t, e);
  }

  /** The scan at a run is the run's report followed by the scan from the
      gap after it. */
  lemma LineFindsSplit(v: View, dir: Direction, line: int, t: int, e: int)
    requires Square(v) && 0 <= line < Dim && 0 <= t < Dim
    requires Is(v, Pos(dir, line, t), 'D') && e == RunEnd(v, dir, line, t)
    ensures LineFinds(v, dir, line, t) == RunFinds(v, dir, line, t, e) + LineFinds(v, dir, line, e + 2)
  {
  }

  /** A reported find lies on the view, starts with a `D` and is at least
      one cell long. */
  lemma ReportedOnView(v: View, dir: Direction, f: Find)
    requires Square(v) && Reported(v, dir, f)
    ensures f.coords == Pos(dir, Across(dir, f.coords), Along(dir, f.coords))
    ensures OnBoard(f.coords) && f.size >= 1 && Is(v, f.coords, 'D')
  {
    assert f.coords == Pos(dir, Across(dir, f.coords), Along(dir, f.coords));
  }

  /** The scan of every line of direction dir from `line` on. */
  function ScanLines(v: View, dir: Direction, line: int): (r: seq<Find>)
    requires Square(v) && 0 <= line
    decreases Dim - line
  {
    if line >= Dim then [] else LineFinds(v, dir, line, 0) + ScanLines(v, dir, line + 1)
  }

  lemma {:induction false} ScanLinesIff(v: View, dir: Direction, line: int, f: Find)
    requires Square(v) && 0 <= line
    ensures f in ScanLines(v, dir, line) <==> Across(dir, f.coords) >= line && Reported(v, dir, f)
    decreases Dim - line
  {
    if Reported(v, dir, f) {
      ReportedOnView(v, dir, f);
    }
    if line < Dim {
      LineFindsIff(v, dir, line, 0, f);
      ScanLinesIff(v, dir, line + 1, f);
      var r := LineFinds(v, dir, line, 0) + ScanLines(v, dir, line + 1);
      assert f in r <==> f in LineFinds(v, dir, line, 0) || f in ScanLines(v, dir, line + 1);
    }
  }

  /** findShips: the row scan followed by the column scan. */
  function FindShips(v: View): (r: seq<Find>)
    requires Square(v)
  {
    ScanLines(v, Horizontal, 0) + ScanLines(v, Vertical, 0)
  }

  /** findShips reports exactly the maximal runs of two or more `D`s in a
      row or a column, and the single `D`s with no `D` left, right, above
      or below. */
  lemma FindShipsIff(v: View, f: Find)
    requires Square(v)
    ensures f in FindShips(v) <==> Reported(v, Horizontal, f) || Reported(v, Vertical, f)
    ensures f in FindShips(v) ==> OnBoard(f.coords) && f.size >= 1 && Is(v, f.coords, 'D')
  {
    ScanLinesIff(v, Horizontal, 0, f);
    ScanLinesIff(v, Vertical, 0, f);
    if Reported(v, Horizontal, f) {
      ReportedOnView(v, Horizontal, f);
    }
    if Reported(v, Vertical, f) {
      ReportedOnView(v, Vertical, f);
    }
  }

  /** A run's own reports hold the find at most once, and never one the
      scan from the gap after the run reports again. */
  lemma RunFindsOnce(v: View, dir: Direction, line: int, t: int, e: int, f: Find)
    requires Square(v) && 0 <= t <= e
    ensures multiset(RunFinds(v, dir, line, t, e))[f] == if f in RunFinds(v, dir, line, t, e) then 1 else 0
    ensures f in RunFinds(v, dir, line, t, e) ==> !ReportedFrom(v, dir, line, e + 2, f)
  {
    if f in RunFinds(v, dir, line, t, e) {
      assert Along(dir, f.coords) == t;
    }
  }

  /** Scanning a line from a run boundary t reports each qualifying run
      starting at t or later exactly once, and nothing else. */
  lemma {:induction false} LineFindsCount(v: View, dir: Direction, line: int, t: int, f: Find)
    requires Square(v) && 0 <= line < Dim && 0 <= t
    requires !Is(v, Pos(dir, line, t - 1), 'D')
    ensures multiset(LineFinds(v, dir, line, t))[f] == if ReportedFrom(v, dir, line, t, f) then 1 else 0
    decreases Dim - t, 1
  {
    if t >= Dim {
      PastEnd(v, dir, line, t, f);
    } else if !Is(v, Pos(dir, line, t), 'D') {
      LineCountGap(v, dir, line, t, f);
    } else {
      LineCountRun(v, dir, line, t, f);
    }
  }

  /** LineFindsCount at a cell without `D`. */
  lemma {:induction false} LineCountGap(v: View, dir: Direction, line: int, t: int, f: Find)
    requires Square(v) && 0 <= line < Dim && 0 <= t < Dim
    requires !Is(v, Pos(dir, line, t), 'D')
    ensures multiset(LineFinds(v, dir, line, t))[f] == if ReportedFrom(v, dir, line, t, f) then 1 else 0
    decreases Dim - t, 0
  {
    LineFindsCount(v, dir, line, t + 1, f);
    SkipGap(v, dir, line, t, f);
  }

  /** LineFindsCount at the start of a run: the run's report and the
      reports from the gap after it never name the same find. */
  lemma {:induction false} LineCountRun(v: View, dir: Direction, line: int, t: int, f: Find)
    requires Square(v) && 0 <= line < Dim && 0 <= t < Dim
    requires !Is(v, Pos(dir, line, t - 1), 'D') && Is(v, Pos(dir, line, t), 'D')
    ensures multiset(LineFinds(v, dir, line, t))[f] == if ReportedFrom(v, dir, line, t, f) then 1 else 0
    decreases Dim - t, 0
  {
    var e := RunEnd(v, dir, line, t);
    LineFindsCount(v, dir, line, e + 2, f);
    RunFindsOnce(v, dir, line, t, e, f);
    SkipRun(v, dir, line, t, e, f);
    LineFindsSplit(v, dir, line, t, e);
    CountSplit(LineFinds(v, dir, line, t), RunFinds(v, dir, line, t, e), LineFinds(v, dir, line, e + 2), f,
      f in RunFinds(v, dir, line, t, e), ReportedFrom(v, dir, line, e + 2, f), ReportedFrom(v, dir, line, t, f));
  }

  /** The scan of the lines from `line` on reports each qualifying run on
      them exactly once. */
  lemma {:induction false} ScanLinesCount(v: View, dir: Direction, line: int, f: Find)
    requires Square(v) && 0 <= line
    ensures multiset(ScanLines(v, dir, line))[f] == if Across(dir, f.coords) >= line && Reported(v, dir, f) then 1 else 0
    decreases Dim - line
  {
    if line < Dim {
      LineFindsCount(v, dir, line, 0, f);
      ScanLinesCount(v, dir, line + 1, f);
      WholeLine(v, dir, line, f);
      ScanLinesSplit(v, dir, line);
      CountSplit(ScanLines(v, dir, line), LineFinds(v, dir, line, 0), ScanLines(v, dir, line + 1), f,
        ReportedFrom(v, dir, line, 0, f), Across(dir, f.coords) >= line + 1 && Reported(v, dir, f),
        Across(dir, f.coords) >= line && Reported(v, dir, f));
    } else if Reported(v, dir, f) {
      ReportedOnView(v, dir, f);
    }
  }

  /** The scan of the lines from `line` on is that line's scan followed by
      the scan of the lines after it. */
  lemma ScanLinesSplit(v: View, dir: Direction, line: int)
    requires Square(v) && 0 <= line < Dim
    ensures ScanLines(v, dir, line) == LineFinds(v, dir, line, 0) + ScanLines(v, dir, line + 1)
  {
  }

  /** Scanning a line from its start can report any run of that line. */
  lemma WholeLine(v: View, dir: Direction, line: int, f: Find)
    requires Square(v)
    ensures ReportedFrom(v, dir, line, 0, f) <==> Across(dir, f.coords) == line && Reported(v, dir, f)
  {
    if Reported(v, dir, f) {
      ReportedOnView(v, dir, f);
    }
  }

  /** findShips reports a find once for each scan that reports it: when a
      row run and a column run of the same length start on the same `D`
      (the corner of an L of three `D`s), that find is listed twice and so
      cancels two default sizes. */
  lemma FindShipsCount(v: View, f: Find)
    requires Square(v)
    ensures multiset(FindShips(v))[f] ==
      (if Reported(v, Horizontal, f) then 1 else 0) + (if Reported(v, Vertical, f) then 1 else 0)
  {
    ScanLinesCount(v, Horizontal, 0, f);
    ScanLinesCount(v, Vertical, 0, f);
    if Reported(v, Horizontal, f) {
      ReportedOnView(v, Horizontal, f);
    }
    if Reported(v, Vertical, f) {
      ReportedOnView(v, Vertical, f);
    }
    ConcatCount(ScanLines(v, Horizontal, 0), ScanLines(v, Vertical, 0), f);
  }

  /** A list made of two parts, each holding x once or not at all and
      never both, holds x once exactly when one of them does. */
  lemma CountSplit<T>(whole: seq<T>, a: seq<T>, b: seq<T>, x: T, inA: bool, inB: bool, want: bool)
    requires whole == a + b
    requires multiset(a)[x] == (if inA then 1 else 0) && multiset(b)[x] == (if inB then 1 else 0)
    requires !(inA && inB) && want == (inA || inB)
    ensures multiset(whole)[x] == if want then 1 else 0
  {
    ConcatCount(a, b, x);
  }

  /** Occurrences in a concatenation add up. */
  lemma ConcatCount<T>(a: seq<T>, b: seq<T>, x: T)
    ensures multiset(a + b)[x] == multiset(a)[x] + multiset(b)[x]
  {
  }

  /** A view without sunk cells has nothing to report. */
  lemma NoSunkNoFinds(v: View)
    requires Square(v)
    requires forall c :: OnBoard(c) ==> v[c.y][c.x] != 'D'
    ensures FindShips(v) == []
  {
    if FindShips(v) != [] {
      FindShipsIff(v, FindShips(v)[0]);
    }
  }

  /** The sizes of the finds. */
  function FoundSizes(fs: seq<Find>): (r: seq<nat>)
    ensures |r| == |fs| && forall i :: 0 <= i < |fs| ==> r[i] == fs[i].size
  {
    seq(|fs|, i requires 0 <= i < |fs| => fs[i].size)
  }

  /** `findIndex` then `splice(i, 1)`: drop the first x, if there is one. */
  function RemoveFirst(xs: seq<nat>, x: nat): (r: seq<nat>)
    ensures x in xs ==> |r| == |xs| - 1 && multiset(r) == multiset(xs) - multiset{x}
    ensures x !in xs ==> r == xs
  {
    if xs == [] then []
    else
      assert xs == [xs[0]] + xs[1..];
      if xs[0] == x then xs[1..] else [xs[0]] + RemoveFirst(xs[1..], x)
  }

  /** The forEach of findMaxMissingSize: one RemoveFirst per found size. */
  function RemoveEach(xs: seq<nat>, ys: seq<nat>): (r: seq<nat>)
    decreases |ys|
  {
    if ys == [] then xs else RemoveEach(RemoveFirst(xs, ys[0]), ys[1..])
  }

  /** What is left is the multiset difference: each found size cancels one
      default ship of that size, and sizes with none left cancel nothing. */
  lemma {:induction false} RemoveEachMultiset(xs: seq<nat>, ys: seq<nat>)
    ensures multiset(RemoveEach(xs, ys)) == multiset(xs) - multiset(ys)
    decreases |ys|
  {
    if ys != [] {
      var first := RemoveFirst(xs, ys[0]);
      RemoveEachMultiset(first, ys[1..]);
      assert multiset(first) == multiset(xs) - multiset{ys[0]};
      HeadTail(ys);
      DifferenceStep(multiset(xs), multiset{ys[0]}, multiset(ys[1..]));
    }
  }

  /** A non-empty list is its head and its tail, as a multiset. */
  lemma HeadTail(ys: seq<nat>)
    requires ys != []
    ensures multiset(ys) == multiset{ys[0]} + multiset(ys[1..])
  {
    assert ys == [ys[0]] + ys[1..];
  }

  /** Taking away a then b is taking away a + b. */
  lemma DifferenceStep(m: multiset<nat>, a: multiset<nat>, b: multiset<nat>)
    ensures (m - a) - b == m - (a + b)
  {
    forall z
      ensures ((m - a) - b)[z] == (m - (a + b))[z]
    {
    }
  }

  /** The largest element (`sort().reverse()[0]`, as numbers). */
  function MaxOf(xs: seq<nat>): (m: nat)
    requires xs != []
    ensures m in xs && forall x :: x in xs ==> x <= m
  {
    if |xs| == 1 then xs[0]
    else
      var m := MaxOf(xs[1..]);
      assert xs == [xs[0]] + xs[1..];
      if xs[0] >= m then xs[0] else m
  }

  /** The largest of xs that ys does not cancel, or 0 when ys cancels
      them all (`length && max`). */
  function MaxLeft(xs: seq<nat>, ys: seq<nat>): (r: nat)
    ensures multiset(xs) - multiset(ys) == multiset{} ==> r == 0
    ensures multiset(xs) - multiset(ys) != multiset{} ==>
      r in multiset(xs) - multiset(ys) && forall x :: x in multiset(xs) - multiset(ys) ==> x <= r
  {
    var rest := RemoveEach(xs, ys);
    RemoveEachMultiset(xs, ys);
    if |rest| == 0 then 0
    else
      assert rest[0] in multiset(rest);
      assert forall x :: x in multiset(rest) ==> x in rest;
      MaxOf(rest)
  }

  /** The default sizes no sunk ship on the view accounts for. */
  ghost function Missing(v: View): multiset<nat>
    requires Square(v)
  {
    multiset(DefaultShipsCollection()) - multiset(FoundSizes(FindShips(v)))
  }

  /** Whatever is left of xs is bounded as xs is. */
  lemma LeftBound(xs: seq<nat>, ys: seq<nat>, b: nat)
    requires forall x :: x in xs ==> x <= b
    ensures forall x :: x in multiset(xs) - multiset(ys) ==> x <= b
  {
    forall x | x in multiset(xs) - multiset(ys) ensures x <= b {
      assert x in multiset(xs);
      assert x in xs;
    }
  }

  /** The largest default size the found sizes leave over, or 0. */
  function MaxMissing(found: seq<nat>): (r: nat)
    ensures var left := multiset(DefaultShipsCollection()) - multiset(found);
      (left == multiset{} ==> r == 0) &&
      (left != multiset{} ==> r in left && forall x :: x in left ==> x <= r)
    ensures r <= 4
  {
    var defaults := DefaultShipsCollection();
    DefaultSizesInRange();
    LeftBound(defaults, found, 4);
    MaxLeft(defaults, found)
  }

  /** findMaxMissingSize: the largest size still afloat, or 0 when every
      default ship is accounted for. */
  function FindMaxMissingSize(v: View): (r: nat)
    requires Square(v)
    ensures Missing(v) == multiset{} ==> r == 0
    ensures Missing(v) != multiset{} ==> r in Missing(v) && forall x :: x in Missing(v) ==> x <= r
    ensures r <= 4
  {
    MaxMissing(FoundSizes(FindShips(v)))
  }

  /** With nothing sunk the longest ship, of four cells, is hunted. */
  lemma NothingSunkHuntsFour(v: View)
    requires Square(v)
    requires forall c :: OnBoard(c) ==> v[c.y][c.x] != 'D'
    ensures FindMaxMissingSize(v) == 4
  {
    NoSunkNoFinds(v);
    assert FoundSizes(FindShips(v)) == [];
    NoneFoundFour();
  }

  /** With no sizes found, the largest default size, 4, is left. */
  lemma NoneFoundFour()
    ensures MaxMissing([]) == 4
  {
    var defaults := DefaultShipsCollection();
    var found: seq<nat> := [];
    assert multiset(found) == multiset{};
    assert multiset(defaults)[4] == 1;
    assert 4 in multiset(defaults) - multiset(found);
  }

  /** The score matrix of hunt mode, row by row like the view. */
  type Matrix = seq<seq<nat>>

  function MAt(m: Matrix, c: Coord): nat
    requires Square(m) && OnBoard(c)
  {
    m[c.y][c.x]
  }

  /** The window of `size` cells from position s of a line is all `_`. */
  ghost predicate WindowOpen(v: View, dir: Direction, line: int, s: int, size: nat)
    requires Square(v)
  {
    forall u :: s <= u < s + size ==> Is(v, Pos(dir, line, u), '_')
  }

  /** How many of the open windows starting at 0 .. n - 1 of a line cover
      position p of it. */
  ghost function Count(v: View, dir: Direction, line: int, p: int, size: nat, n: nat): nat
    requires Square(v)
  {
    if n == 0 then 0
    else
      var s := n - 1;
      Count(v, dir, line, p, size, s) + (if WindowOpen(v, dir, line, s, size) && s <= p < s + size then 1 else 0)
  }

  /** Rows are tried from every start x <= width - size ... */
  function HStarts(size: nat): nat {
    if size <= Dim + 1 then Dim + 1 - size else 0
  }

  /** ... and columns only from starts y < height - size. */
  function VStarts(size: nat): nat {
    if size <= Dim then Dim - size else 0
  }

  /** The score of a cell: the open horizontal and vertical placements of a
      ship of the given size that cover it. */
  ghost function Score(v: View, size: nat, c: Coord): nat
    requires Square(v)
  {
    Count(v, Horizontal, c.y, c.x, size, HStarts(size)) + Count(v, Vertical, c.x, c.y, size, VStarts(size))
  }

  /** The canBePlaced loop: every cell of the window is checked, with no
      early exit; an off-view cell is not `_`. */
  method WindowIsOpen(v: View, dir: Direction, line: int, s: int, size: nat) returns (open: bool)
    requires Square(v)
    ensures open == WindowOpen(v, dir, line, s, size)
  {
    open := true;
    var t := s;
    while t < size + s
      invariant s <= t <= s + size
      invariant open == forall u :: s <= u < t ==> Is(v, Pos(dir, line, u), '_')
    {
      if ValueAt(v, Pos(dir, line, t)) != Some('_') {
        open := false;
      }
      t := t + 1;
    }
  }

  /** `matrix[..][t] += 1` over the window: its cells gain one, all others
      keep their score. */
  method AddWindow(m: Matrix, dir: Direction, line: int, s: int, size: nat) returns (r: Matrix)
    requires Square(m) && 0 <= line < Dim && 0 <= s && s + size <= Dim
    ensures Square(r)
    ensures forall c :: OnBoard(c) ==>
      MAt(r, c) == MAt(m, c) + (if Across(dir, c) == line && s <= Along(dir, c) < s + size then 1 else 0)
  {
    r := m;
    var t := s;
    while t < size + s
      invariant s <= t <= s + size && Square(r)
      invariant forall c :: OnBoard(c) ==>
        MAt(r, c) == MAt(m, c) + (if Across(dir, c) == line && s <= Along(dir, c) < t then 1 else 0)
    {
      var p := Pos(dir, line, t);
      r := r[p.y := r[p.y][p.x := r[p.y][p.x] + 1]];
      t := t + 1;
    }
  }

  /** One line of createMatrix: each open window of the first n adds one to
      the cells it covers. */
  method ScanLine(v: View, m: Matrix, dir: Direction, line: int, size: nat, n: nat) returns (r: Matrix)
    requires Square(v) && Square(m) && 0 <= line < Dim && (n == 0 || n + size <= Dim + 1)
    ensures Square(r)
    ensures forall c :: OnBoard(c) ==>
      MAt(r, c) == MAt(m, c) + (if Across(dir, c) == line then Count(v, dir, line, Along(dir, c), size, n) else 0)
  {
    r := m;
    var s := 0;
    while s < n
      invariant 0 <= s <= n && Square(r)
      invariant forall c :: OnBoard(c) ==>
        MAt(r, c) == MAt(m, c) + (if Across(dir, c) == line then Count(v, dir, line, Along(dir, c), size, s) else 0)
    {
      var open := WindowIsOpen(v, dir, line, s, size);
      if open {
        r := AddWindow(r, dir, line, s, size);
      }
      s := s + 1;
    }
  }

  /** All lines of one direction. */
  method ScanAll(v: View, m: Matrix, dir: Direction, size: nat, n: nat) returns (r: Matrix)
    requires Square(v) && Square(m) && (n == 0 || n + size <= Dim + 1)
    ensures Square(r)
    ensures forall c :: OnBoard(c) ==>
      MAt(r, c) == MAt(m, c) + Count(v, dir, Across(dir, c), Along(dir, c), size, n)
  {
    r := m;
    var line := 0;
    while line < Dim
      invariant 0 <= line <= Dim && Square(r)
      invariant forall c :: OnBoard(c) ==>
        MAt(r, c) == MAt(m, c) + (if Across(dir, c) < line then Count(v, dir, Across(dir, c), Along(dir, c), size, n) else 0)
    {
      r := ScanLine(v, r, dir, line, size, n);
      line := line + 1;
    }
  }

  /** createMatrix: every cell scored by the open placements covering it.
      The game's column loop also visits x == width, where every
      window is off the view and adds nothing. */
  method CreateMatrix(v: View, size: nat) returns (m: Matrix)
    requires Square(v)
    ensures Square(m)
    ensures forall c :: OnBoard(c) ==> MAt(m, c) == Score(v, size, c)
  {
    m := seq(Dim, _ => seq(Dim, _ => 0));
    m := ScanAll(v, m, Horizontal, size, HStarts(size));
    m := ScanAll(v, m, Vertical, size, VStarts(size));
  }

  /** How many starts 0 .. n - 1 give a window of `size` cells covering
      position p, open or not. */
  function Covering(p: int, size: nat, n: nat): (k: nat)
    ensures k <= size && k <= n
  {
    var lo := if p - size + 1 > 0 then p - size + 1 else 0;
    var hi := if n < p + 1 then n else p + 1;
    if hi > lo then hi - lo else 0
  }

  /** A line scores a position at most once per covering start ... */
  lemma {:induction false} CountAtMostCovering(v: View, dir: Direction, line: int, p: int, size: nat, n: nat)
    requires Square(v)
    ensures Count(v, dir, line, p, size, n) <= Covering(p, size, n)
  {
    if n > 0 {
      CountAtMostCovering(v, dir, line, p, size, n - 1);
    }
  }

  /** ... and exactly once per start when every window is open. */
  lemma {:induction false} CountAllOpen(v: View, dir: Direction, line: int, p: int, size: nat, n: nat)
    requires Square(v)
    requires forall s :: 0 <= s < n ==> WindowOpen(v, dir, line, s, size)
    ensures Count(v, dir, line, p, size, n) == Covering(p, size, n)
  {
    if n > 0 {
      CountAllOpen(v, dir, line, p, size, n - 1);
    }
  }

  /** No open window covers a cell that is not `_`. */
  lemma {:induction false} CountClosed(v: View, dir: Direction, line: int, p: int, size: nat, n: nat)
    requires Square(v) && !Is(v, Pos(dir, line, p), '_')
    ensures Count(v, dir, line, p, size, n) == 0
  {
    if n > 0 {
      CountClosed(v, dir, line, p, size, n - 1);
    }
  }

  /** A cell that is not `_` (a miss, a hit or a sunk cell) scores zero, and
      every cell scores at most two placements per ship cell. */
  lemma ScoreBounds(v: View, size: nat, c: Coord)
    requires Square(v) && OnBoard(c)
    ensures v[c.y][c.x] != '_' ==> Score(v, size, c) == 0
    ensures Score(v, size, c) <= 2 * size
  {
    CountAtMostCovering(v, Horizontal, c.y, c.x, size, HStarts(size));
    CountAtMostCovering(v, Vertical, c.x, c.y, size, VStarts(size));
    if v[c.y][c.x] != '_' {
      assert Pos(Horizontal, c.y, c.x) == c && Pos(Vertical, c.x, c.y) == c;
      CountClosed(v, Horizontal, c.y, c.x, size, HStarts(size));
      CountClosed(v, Vertical, c.x, c.y, size, VStarts(size));
    }
  }

  /** Whatever the view, no vertical placement is counted for a cell of
      the bottom row: the last column start, height - size, is never tried. */
  lemma BottomRowNoVertical(v: View, size: nat, x: int)
    requires Square(v)
    ensures Count(v, Vertical, x, Dim - 1, size, VStarts(size)) == 0
  {
    CountAtMostCovering(v, Vertical, x, Dim - 1, size, VStarts(size));
  }

  /** On a view of open water every window is open. */
  lemma OpenViewWindows(v: View, dir: Direction, line: int, size: nat, n: nat)
    requires Square(v) && forall c :: OnBoard(c) ==> v[c.y][c.x] == '_'
    requires 0 <= line < Dim && n + size <= Dim + 1
    ensures forall s :: 0 <= s < n ==> WindowOpen(v, dir, line, s, size)
  {
    forall s | 0 <= s < n ensures WindowOpen(v, dir, line, s, size) {
      forall u | s <= u < s + size ensures Is(v, Pos(dir, line, u), '_') {
        assert OnBoard(Pos(dir, line, u));
      }
    }
  }

  /** On open water a ship shorter than the board makes the top left corner
      score two (one placement each way) but the bottom right corner one:
      rows try every start up to width - size, columns stop one start
      short, so no vertical placement ever covers the bottom row. */
  lemma OpenViewCorners(v: View, size: nat)
    requires Square(v) && forall c :: OnBoard(c) ==> v[c.y][c.x] == '_'
    requires 1 <= size < Dim
    ensures Score(v, size, Coord(0, 0)) == 2
    ensures Score(v, size, Coord(Dim - 1, Dim - 1)) == 1
  {
    OpenViewWindows(v, Horizontal, 0, size, HStarts(size));
    OpenViewWindows(v, Vertical, 0, size, VStarts(size));
    OpenViewWindows(v, Horizontal, Dim - 1, size, HStarts(size));
    OpenViewWindows(v, Vertical, Dim - 1, size, VStarts(size));
    CountAllOpen(v, Horizontal, 0, 0, size, HStarts(size));
    CountAllOpen(v, Vertical, 0, 0, size, VStarts(size));
    CountAllOpen(v, Horizontal, Dim - 1, Dim - 1, size, HStarts(size));
    CountAllOpen(v, Vertical, Dim - 1, Dim - 1, size, VStarts(size));
  }

  /** getRandomElementFromArray: `None` (null) for an empty list, else an
      element at the index randomInt(0, length - 1) picks. */
  function RandomElement<T>(xs: seq<T>, rnd: nat): (r: Option<T>)
    ensures r.Some? <==> xs != []
    ensures r.Some? ==> r.value in xs
  {
    if xs == [] then None else Some(xs[RandomInt(0, |xs| - 1, rnd)])
  }

  /** The reduce of target mode: the open side neighbours of each listed
      hit, hit by hit. */
  function TargetMoves(v: View, xs: seq<Coord>): (r: seq<Coord>)
    requires Square(v)
    ensures forall d :: d in r <==> OnBoard(d) && v[d.y][d.x] == '_' && exists c :: c in xs && Orthogonal(d, c)
  {
    if xs == [] then []
    else
      var rest := TargetMoves(v, xs[1..]);
      assert forall c :: c in xs <==> c == xs[0] || c in xs[1..];
      PossibleMovesNear(v, xs[0]) + rest
  }

  /** The largest score (`flat().sort((a, b) => b - a)[0]`). */
  function Best(m: Matrix): (b: nat)
    requires Square(m)
    ensures exists c :: OnBoard(c) && MAt(m, c) == b
    ensures forall c :: OnBoard(c) ==> MAt(m, c) <= b
  {
    var flat := Flat(m);
    FlatLength(m);
    var b := MaxOf(flat);
    var j :| 0 <= j < |flat| && flat[j] == b;
    Unflatten(j);
    FlatAt(m, j / Dim, j % Dim);
    assert MAt(m, Coord(j % Dim, j / Dim)) == b;
    forall c | OnBoard(c) ensures MAt(m, c) <= b {
      FlatAt(m, c.y, c.x);
      assert flat[Dim * c.y + c.x] in flat;
    }
    b
  }

  /** Some cell of the view holds a hit that is not yet sunk. */
  ghost predicate HasHit(v: View)
    requires Square(v)
  {
    exists c :: OnBoard(c) && v[c.y][c.x] == 'X'
  }

  /** d is open water beside a hit. */
  ghost predicate NextToHit(v: View, d: Coord)
    requires Square(v)
  {
    OnBoard(d) && v[d.y][d.x] == '_' && exists c :: OnBoard(c) && v[c.y][c.x] == 'X' && Orthogonal(d, c)
  }

  /** The hit list is empty exactly when the view has no hit. */
  lemma HitsIff(v: View)
    requires Square(v)
    ensures HasHit(v) <==> PartlyDestroyedCoords(v) != []
  {
    var hits := PartlyDestroyedCoords(v);
    if hits != [] {
      assert hits[0] in hits;
    }
  }

  /** Target mode chooses among exactly the open cells beside a hit. */
  lemma TargetMovesIff(v: View, d: Coord)
    requires Square(v)
    ensures d in TargetMoves(v, PartlyDestroyedCoords(v)) <==> NextToHit(v, d)
  {
    var hits := PartlyDestroyedCoords(v);
    if NextToHit(v, d) {
      var c :| OnBoard(c) && v[c.y][c.x] == 'X' && Orthogonal(d, c);
      assert c in hits;
    }
  }

  /** Hunt mode: a random cell among the best-scored ones. */
  method HuntMove(v: View, rnd: nat) returns (r: Option<Coord>)
    requires Square(v)
    ensures r.Some? && OnBoard(r.value)
    ensures forall c :: OnBoard(c) ==> Score(v, FindMaxMissingSize(v), c) <= Score(v, FindMaxMissingSize(v), r.value)
  {
    var size := FindMaxMissingSize(v);
    var m := CreateMatrix(v, size);
    var best := Best(m);
    var cells := Positions(m, best);
    var c :| OnBoard(c) && MAt(m, c) == best;
    assert c in cells;
    r := RandomElement(cells, rnd);
    assert r.value in cells;
  }

  /** findBestMove.  With a hit on the view, a random open side neighbour of
      some hit, or `None` when every hit is boxed in.  Otherwise a random
      cell among those with the highest score for the largest ship still
      afloat; the row-major list of such cells is never empty. */
  method FindBestMove(v: View, rnd: nat) returns (r: Option<Coord>)
    requires Square(v)
    ensures HasHit(v) ==> (r.Some? <==> exists d :: NextToHit(v, d))
    ensures HasHit(v) && r.Some? ==> NextToHit(v, r.value)
    ensures !HasHit(v) ==> r.Some? && OnBoard(r.value)
    ensures !HasHit(v) ==>
      forall c :: OnBoard(c) ==> Score(v, FindMaxMissingSize(v), c) <= Score(v, FindMaxMissingSize(v), r.value)
  {
    var hits := PartlyDestroyedCoords(v);
    HitsIff(v);
    if |hits| > 0 {
      var moves := TargetMoves(v, hits);
      r := RandomElement(moves, rnd);
      if r.Some? {
        TargetMovesIff(v, r.value);
      } else {
        forall d ensures !NextToHit(v, d) {
          TargetMovesIff(v, d);
        }
      }
    } else {
      r := HuntMove(v, rnd);
    }
  }

}
