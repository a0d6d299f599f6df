/**
 * The 10x20 playfield: building it, the collision test, writing a locked
 * piece into it, clearing full rows, and the landing ("ghost") search.
 * Row 0 is the top row; y grows downwards.
 */
module Board {
  import opened Wrappers
  import opened Tetrominoes

  const Cols := 10
  const Rows := 20

  /** A row: each cell is empty or holds the kind (hence colour) that locked there. */
  type Row = seq<Option<Kind>>
  type Grid = seq<Row>

  /** The board always has Rows rows of Cols cells each. */
  predicate WellFormed(g: Grid)
  {
    |g| == Rows && forall y :: 0 <= y < |g| ==> |g[y]| == Cols
  }

  /** createMatrix: rows x cols cells, all holding fill. */
  function CreateMatrix(cols: nat, rows: nat, fill: Option<Kind>): (m: Grid)
    ensures |m| == rows
    ensures forall y :: 0 <= y < rows ==> |m[y]| == cols
    ensures forall y, x :: 0 <= y < rows && 0 <= x < cols ==> m[y][x] == fill
  {
    seq(rows, _ => seq(cols, _ => fill))
  }

  /** The board a new game starts with. */
  function EmptyGrid(): (g: Grid)
    ensures WellFormed(g)
  {
    CreateMatrix(Cols, Rows, None)
  }

  /** A blank row, as inserted at the top when a full row is removed. */
  function EmptyRow(): (r: Row)
    ensures |r| == Cols && forall x :: 0 <= x < Cols ==> r[x] == None
  {
    seq(Cols, _ => None)
  }

  /**
   * Whether a piece cell is blocked: cells above the board (y < 0) never
   * are, whatever their x; any other cell is blocked when it is left of,
   * right of or below the board, or occupied.
   */
  predicate Blocked(g: Grid, c: Cell)
    requires WellFormed(g)
  {
    c.y >= 0 && (c.x < 0 || c.x >= Cols || c.y >= Rows || g[c.y][c.x].Some?)
  }

  /** The collision test (collide): some cell of the piece is blocked. */
  predicate Collides(g: Grid, p: Piece)
    requires WellFormed(g)
  {
    exists i :: 0 <= i < 4 && Blocked(g, Cells(p)[i])
  }

  /** collide: scans the piece's cells, skipping those above the board. */
  method Collide(g: Grid, p: Piece) returns (hit: bool)
    requires WellFormed(g)
    ensures hit <==> exists i :: 0 <= i < 4 && Blocked(g, Cells(p)[i])
  {
    var cs := Cells(p);
    for i := 0 to |cs|
      invariant forall j :: 0 <= j < i ==> !Blocked(g, cs[j])
    {
      var c := cs[i];
      if c.y < 0 {
        continue;
      }
      if c.x < 0 || c.x >= Cols || c.y >= Rows {
        return true;
      }
      if g[c.y][c.x].Some? {
        return true;
      }
    }
    return false;
  }

  /** A freshly spawned piece never collides, whatever the board holds. */
  lemma SpawnNeverCollides(g: Grid, k: Kind)
    requires WellFormed(g)
    ensures !Collides(g, Spawn(k))
  {
    SpawnAboveBoard(k);
  }

  /** A piece that does not collide has its origin above the floor. */
  lemma AboveFloor(g: Grid, p: Piece)
    requires WellFormed(g) && !Collides(g, p)
    ensures p.y < Rows
  {
    assert !Blocked(g, Cells(p)[0]);
  }

  /** A cell on the board. */
  predicate InBounds(c: Cell)
  {
    0 <= c.x < Cols && 0 <= c.y < Rows
  }

  /** A piece that can be written into the board: all its cells are on it. */
  predicate Placeable(g: Grid, p: Piece)
    requires WellFormed(g)
  {
    !Collides(g, p) && forall i :: 0 <= i < 4 ==> Cells(p)[i].y >= 0
  }

  /** A placeable piece covers four empty cells of the board. */
  lemma PlaceableCells(g: Grid, p: Piece)
    requires WellFormed(g) && Placeable(g, p)
    ensures forall i :: 0 <= i < 4 ==>
      InBounds(Cells(p)[i]) && g[Cells(p)[i].y][Cells(p)[i].x] == None
  {
    forall i | 0 <= i < 4
      ensures InBounds(Cells(p)[i]) && g[Cells(p)[i].y][Cells(p)[i].x] == None
    {
      assert !Blocked(g, Cells(p)[i]);
    }
  }

  /** The board after writing kind k into the cells cs, one after the other. */
  function PlaceCells(g: Grid, cs: seq<Cell>, k: Kind): (r: Grid)
    requires WellFormed(g)
    requires forall i :: 0 <= i < |cs| ==> InBounds(cs[i])
    ensures WellFormed(r)
  {
    if cs == [] then g
    else
      var h := PlaceCells(g, cs[..|cs| - 1], k);
      var c := cs[|cs| - 1];
      assert InBounds(c);
      h[c.y := h[c.y][c.x := Some(k)]]
  }

  /** Writing one more cell of cs extends the board written so far. */
  lemma PlaceCellsNext(g: Grid, cs: seq<Cell>, i: nat, k: Kind)
    requires WellFormed(g) && i < |cs|
    requires forall j :: 0 <= j < |cs| ==> InBounds(cs[j])
    ensures var h := PlaceCells(g, cs[..i], k);
      PlaceCells(g, cs[..i + 1], k) == h[cs[i].y := h[cs[i].y][cs[i].x := Some(k)]]
  {
    assert cs[..i + 1][..i] == cs[..i];
  }

  /** Exactly the listed cells now hold k; every other cell is unchanged. */
  lemma {:induction false} PlaceCellsSpec(g: Grid, cs: seq<Cell>, k: Kind)
    requires WellFormed(g)
    requires forall i :: 0 <= i < |cs| ==> InBounds(cs[i])
    ensures forall y, x :: 0 <= y < Rows && 0 <= x < Cols ==>
      PlaceCells(g, cs, k)[y][x] == if Cell(x, y) in cs then Some(k) else g[y][x]
  {
    if cs != [] {
      var init := cs[..|cs| - 1];
      PlaceCellsSpec(g, init, k);
      assert forall d :: d in cs <==> d in init || d == cs[|cs| - 1];
    }
  }

  /** Locking writes the piece's kind into its four cells. */
  function Place(g: Grid, p: Piece): (r: Grid)
    requires WellFormed(g) && Placeable(g, p)
    ensures WellFormed(r)
  {
    PlaceableCells(g, p);
    PlaceCells(g, Cells(p), p.kind)
  }

  /** A row with every column occupied. */
  predicate Full(r: Row)
  {
    forall x :: 0 <= x < Cols ==> x < |r| && r[x].Some?
  }

  predicate NoFullRow(g: Grid)
  {
    forall y :: 0 <= y < |g| ==> !Full(g[y])
  }

  /** The number of full rows. */
  function FullCount(s: seq<Row>): nat
  {
    if s == [] then 0 else (if Full(s[0]) then 1 else 0) + FullCount(s[1..])
  }

  /**
   * The rows that survive a clear: the rows that are not full, in their
   * original order; exactly FullCount(s) rows are dropped.
   */
  function Keep(s: seq<Row>): (r: seq<Row>)
    ensures |r| + FullCount(s) == |s|
  {
    if s == [] then []
    else if Full(s[0]) then Keep(s[1..])
    else [s[0]] + Keep(s[1..])
  }

  /** A row survives the clear exactly when it is not full. */
  lemma {:induction false} KeepMembers(s: seq<Row>)
    ensures forall i :: 0 <= i < |Keep(s)| ==> Keep(s)[i] in s && !Full(Keep(s)[i])
    ensures forall i :: 0 <= i < |s| && !Full(s[i]) ==> s[i] in Keep(s)
  {
    if s != [] {
      KeepMembers(s[1..]);
      assert forall i :: 1 <= i < |s| ==> s[i] == s[1..][i - 1];
    }
  }

  /** n blank rows. */
  function Empties(n: nat): (e: seq<Row>)
    ensures |e| == n && forall i :: 0 <= i < n ==> e[i] == EmptyRow()
  {
    seq(n, _ => EmptyRow())
  }

  /** The board after clearing: as many blank rows as were full, then the survivors. */
  function ClearFull(g: Grid): Grid
  {
    Empties(FullCount(g)) + Keep(g)
  }

  /**
   * Clearing leaves a 20x10 board with no full row, FullCount(g) blank rows
   * at the top and the surviving rows, in their old order, below them.
   */
  lemma ClearFullSpec(g: Grid)
    requires WellFormed(g)
    ensures WellFormed(ClearFull(g))
    ensures NoFullRow(ClearFull(g))
    ensures FullCount(g) <= Rows
    ensures forall y :: 0 <= y < FullCount(g) ==> ClearFull(g)[y] == EmptyRow()
    ensures ClearFull(g)[FullCount(g)..] == Keep(g)
  {
    var c := FullCount(g);
    var r := ClearFull(g);
    KeepMembers(g);
    assert r[c..] == Keep(g);
    forall y | 0 <= y < |r| ensures |r[y]| == Cols && !Full(r[y]) {
      if y < c {
        assert r[y] == EmptyRow();
        assert !(0 < |r[y]| && r[y][0].Some?);
      } else {
        assert r[y] == Keep(g)[y - c];
      }
    }
  }

  /** A board without full rows is left as it is, and nothing is counted. */
  lemma {:induction false} ClearFullNoop(s: seq<Row>)
    requires NoFullRow(s)
    ensures FullCount(s) == 0 && Keep(s) == s && ClearFull(s) == s
  {
    if s != [] {
      assert NoFullRow(s[1..]) by {
        forall y | 0 <= y < |s[1..]| ensures !Full(s[1..][y]) {
          assert s[1..][y] == s[y + 1];
        }
      }
      ClearFullNoop(s[1..]);
      assert !Full(s[0]);
    }
  }

  /**
   * The line-clear loop of lockPiece: scans the rows bottom to top; a full
   * row is spliced out, a blank row is put in at the top, and the same y is
   * scanned again.
   */
  method ClearLines(g0: Grid) returns (g: Grid, cleared: nat)
    requires WellFormed(g0)
    ensures g == ClearFull(g0) && cleared == FullCount(g0)
  {
    g, cleared := g0, 0;
    var y := Rows - 1;
    // g0[..p] are the rows not yet scanned; row p - 1 of g0 sits at row y of g
    ghost var p := Rows;
    while y >= 0
      invariant -1 <= y < Rows && 0 <= p <= Rows
      invariant p > 0 ==> y == cleared + p - 1
      invariant p == 0 ==> y < cleared
      invariant |g| == Rows
      invariant g == Empties(cleared) + g0[..p] + Keep(g0[p..])
      decreases y + 1 + p
    {
      if p > 0 {
        ScannedRow(g0, cleared, p);
      } else {
        InFirst(Empties(cleared), g0[..p], Keep(g0[p..]), y);
        assert !(0 < |g[y]| && g[y][0].Some?);
      }
      if Full(g[y]) {
        ClearStep(g0, g, cleared, p);
        g := [EmptyRow()] + g[..y] + g[y + 1..];
        cleared := cleared + 1;
        y := y + 1;
        p := p - 1;
      } else if p > 0 {
        KeepRowStep(g0, g, cleared, p);
        p := p - 1;
      }
      y := y - 1;
    }
    assert g0[..0] == [] && g0[0..] == g0;
  }

  /** During the scan, row p - 1 of the input is the row being looked at. */
  lemma ScannedRow(g0: Grid, c: nat, p: nat)
    requires 0 < p <= |g0|
    ensures (Empties(c) + g0[..p] + Keep(g0[p..]))[c + p - 1] == g0[p - 1]
  {
    LastOfMiddle(Empties(c), g0[..p], Keep(g0[p..]));
  }

  /** The last entry of the middle part of e + m + k. */
  lemma LastOfMiddle<X>(e: seq<X>, m: seq<X>, k: seq<X>)
    requires m != []
    ensures (e + m + k)[|e| + |m| - 1] == m[|m| - 1]
  {
  }

  /** An index inside the first part of e + m + k. */
  lemma InFirst<X>(e: seq<X>, m: seq<X>, k: seq<X>, i: nat)
    requires i < |e|
    ensures (e + m + k)[i] == e[i]
  {
  }

  /** Unfolding Keep by one row from the front of a suffix. */
  lemma KeepStep(s: seq<Row>, p: nat)
    requires 0 < p <= |s|
    ensures Keep(s[p - 1..]) == (if Full(s[p - 1]) then [] else [s[p - 1]]) + Keep(s[p..])
  {
    assert s[p - 1..][1..] == s[p..];
  }

  /**
   * Taking out the last entry of the middle part m of e + m + k and putting
   * z in front gives [z] + e, then m without its last entry, then k.
   */
  lemma SpliceOut<X>(e: seq<X>, m: seq<X>, k: seq<X>, z: X)
    requires m != []
    ensures var s := e + m + k;
      [z] + s[..|e| + |m| - 1] + s[|e| + |m|..] == ([z] + e) + m[..|m| - 1] + k
  {
    var s := e + m + k;
    assert s[..|e| + |m| - 1] == e + m[..|m| - 1];
    assert s[|e| + |m|..] == k;
  }

  /** Moving the boundary of a prefix one entry left. */
  lemma PrefixShrink<X>(s: seq<X>, p: nat)
    requires 0 < p <= |s|
    ensures s[..p][..p - 1] == s[..p - 1] && |s[..p]| == p
  {
  }

  /** One more blank row on top. */
  lemma EmptiesSucc(c: nat)
    ensures [EmptyRow()] + Empties(c) == Empties(c + 1)
  {
    assert forall i :: 0 <= i < c + 1 ==> ([EmptyRow()] + Empties(c))[i] == EmptyRow();
  }

  /** Splicing out a full scanned row and putting a blank row on top. */
  lemma ClearStep(g0: Grid, g: Grid, c: nat, p: nat)
    requires 0 < p <= |g0| && Full(g0[p - 1])
    requires g == Empties(c) + g0[..p] + Keep(g0[p..])
    ensures var y := c + p - 1;
      [EmptyRow()] + g[..y] + g[y + 1..] == Empties(c + 1) + g0[..p - 1] + Keep(g0[p - 1..])
  {
    SpliceOut(Empties(c), g0[..p], Keep(g0[p..]), EmptyRow());
    PrefixShrink(g0, p);
    KeepStep(g0, p);
    EmptiesSucc(c);
  }

  /** Moving one entry from the end of the middle part to the front of the last. */
  lemma Regroup<X>(e: seq<X>, m: seq<X>, k: seq<X>)
    requires m != []
    ensures e + m + k == e + m[..|m| - 1] + ([m[|m| - 1]] + k)
  {
    assert m == m[..|m| - 1] + [m[|m| - 1]];
  }

  /** Passing over a scanned row that is not full: it joins the survivors. */
  lemma KeepRowStep(g0: Grid, g: Grid, c: nat, p: nat)
    requires 0 < p <= |g0| && !Full(g0[p - 1])
    requires g == Empties(c) + g0[..p] + Keep(g0[p..])
    ensures g == Empties(c) + g0[..p - 1] + Keep(g0[p - 1..])
  {
    Regroup(Empties(c), g0[..p], Keep(g0[p..]));
    PrefixShrink(g0, p);
    KeepStep(g0, p);
  }

  /** Counts the cells of cs whose row lies in [lo, hi). */
  function CellsIn(cs: seq<Cell>, lo: int, hi: int): nat
  {
    if cs == [] then 0
    else (if lo <= cs[0].y < hi then 1 else 0) + CellsIn(cs[1..], lo, hi)
  }

  lemma {:induction false} CellsInAtMost(cs: seq<Cell>, lo: int, hi: int)
    ensures CellsIn(cs, lo, hi) <= |cs|
  {
    if cs != [] {
      CellsInAtMost(cs[1..], lo, hi);
    }
  }

  lemma {:induction false} CellsInSplit(cs: seq<Cell>, lo: int, mid: int, hi: int)
    requires lo <= mid <= hi
    ensures CellsIn(cs, lo, hi) == CellsIn(cs, lo, mid) + CellsIn(cs, mid, hi)
  {
    if cs != [] {
      CellsInSplit(cs[1..], lo, mid, hi);
    }
  }

  lemma {:induction false} CellsInHit(cs: seq<Cell>, j: nat, lo: int)
    requires j < |cs| && cs[j].y == lo
    ensures CellsIn(cs, lo, lo + 1) >= 1
  {
    if j > 0 {
      CellsInHit(cs[1..], j - 1, lo);
    }
  }

  /**
   * If every full row of s (s starting at board row lo) contains one of the
   * cells cs, there are no more full rows than cells in those rows.
   */
  lemma {:induction false} FullCountBound(s: seq<Row>, lo: int, cs: seq<Cell>)
    requires forall i :: 0 <= i < |s| && Full(s[i]) ==>
      exists j :: 0 <= j < |cs| && cs[j].y == lo + i
    ensures FullCount(s) <= CellsIn(cs, lo, lo + |s|)
  {
    if s != [] {
      forall i | 0 <= i < |s[1..]| && Full(s[1..][i])
        ensures exists j :: 0 <= j < |cs| && cs[j].y == lo + 1 + i
      {
        assert s[1..][i] == s[i + 1];
      }
      FullCountBound(s[1..], lo + 1, cs);
      CellsInSplit(cs, lo, lo + 1, lo + |s|);
      if Full(s[0]) {
        var j :| 0 <= j < |cs| && cs[j].y == lo + 0;
        CellsInHit(cs, j, lo);
      }
    }
  }

  /** A row that none of the piece's cells lies in is left as it was. */
  lemma RowUntouched(g: Grid, p: Piece, y: int)
    requires WellFormed(g) && Placeable(g, p) && 0 <= y < Rows
    requires forall j :: 0 <= j < 4 ==> Cells(p)[j].y != y
    ensures Place(g, p)[y] == g[y]
  {
    var h := Place(g, p);
    PlaceableCells(g, p);
    PlaceCellsSpec(g, Cells(p), p.kind);
    forall x | 0 <= x < Cols ensures h[y][x] == g[y][x] {
      assert Cell(x, y) !in Cells(p);
    }
  }

  /**
   * Locking a piece into a board without full rows completes at most four
   * rows: every full row must contain one of the piece's four cells.
   */
  lemma PlaceClearsAtMostFour(g: Grid, p: Piece)
    requires WellFormed(g) && NoFullRow(g) && Placeable(g, p)
    ensures FullCount(Place(g, p)) <= 4
  {
    var h := Place(g, p);
    var cs := Cells(p);
    forall y | 0 <= y < |h| && Full(h[y])
      ensures exists j :: 0 <= j < |cs| && cs[j].y == 0 + y
    {
      if forall j :: 0 <= j < 4 ==> cs[j].y != y {
        RowUntouched(g, p, y);
      }
    }
    FullRowsHaveCells(h, cs);
  }

  /** Rows that can only be full where some of the cells cs lie number at most |cs|. */
  lemma FullRowsHaveCells(h: seq<Row>, cs: seq<Cell>)
    requires forall y :: 0 <= y < |h| && Full(h[y]) ==> exists j :: 0 <= j < |cs| && cs[j].y == 0 + y
    ensures FullCount(h) <= |cs|
  {
    FullCountBound(h, 0, cs);
    CellsInAtMost(cs, 0, 0 + |h|);
  }

  /**
   * The landing search of render: step the piece down while it does not
   * collide, then take back the last step.
   */
  function DropFrom(g: Grid, p: Piece): Piece
    requires WellFormed(g)
    decreases Rows - p.y
  {
    if Collides(g, p) then p.(y := p.y - 1)
    else
      AboveFloor(g, p);
      DropFrom(g, p.(y := p.y + 1))
  }

  /**
   * From a position that fits, the landing position is the same piece moved
   * straight down (never up): it fits, and one row lower it collides.
   */
  lemma {:induction false} DropFromLands(g: Grid, p: Piece)
    requires WellFormed(g) && !Collides(g, p)
    ensures DropFrom(g, p) == p.(y := DropFrom(g, p).y)
    ensures DropFrom(g, p).y >= p.y
    ensures !Collides(g, DropFrom(g, p))
    ensures Collides(g, DropFrom(g, p).(y := DropFrom(g, p).y + 1))
    decreases Rows - p.y
  {
    AboveFloor(g, p);
    var q := p.(y := p.y + 1);
    if !Collides(g, q) {
      DropFromLands(g, q);
      assert q.(y := DropFrom(g, q).y) == p.(y := DropFrom(g, q).y);
    } else {
      assert DropFrom(g, p) == p;
    }
  }

  /**
   * One step of the search: from a position that fits, a fitting move one row
   * down keeps the landing position, and a colliding one means the piece has
   * landed.
   */
  lemma DropFromStep(g: Grid, p: Piece)
    requires WellFormed(g) && !Collides(g, p)
    ensures !Collides(g, Shift(p, 0, 1)) ==> DropFrom(g, Shift(p, 0, 1)) == DropFrom(g, p)
    ensures Collides(g, Shift(p, 0, 1)) ==> DropFrom(g, p) == p
  {
    assert Shift(p, 0, 1) == p.(y := p.y + 1);
  }

  /** Every row the search passes on the way down fits as well. */
  lemma {:induction false} DropFromPath(g: Grid, p: Piece)
    requires WellFormed(g) && !Collides(g, p)
    ensures forall y :: p.y <= y <= DropFrom(g, p).y ==> !Collides(g, p.(y := y))
    decreases Rows - p.y
  {
    AboveFloor(g, p);
    var q := p.(y := p.y + 1);
    if !Collides(g, q) {
      DropFromPath(g, q);
      forall y | p.y <= y <= DropFrom(g, p).y ensures !Collides(g, p.(y := y)) {
        if y > p.y {
          assert p.(y := y) == q.(y := y);
        } else {
          assert p.(y := y) == p;
        }
      }
    } else {
      assert DropFrom(g, p) == p;
      assert p.(y := p.y) == p;
    }
  }

  /** The ghost search as the source writes it, on a copy of the piece. */
  method GhostPosition(g: Grid, p: Piece) returns (shadow: Piece)
    requires WellFormed(g)
    ensures shadow == DropFrom(g, p)
  {
    shadow := p;
    var hit := Collide(g, shadow);
    while !hit
      invariant DropFrom(g, shadow) == DropFrom(g, p)
      invariant hit == Collides(g, shadow)
      decreases Rows - shadow.y
    {
      AboveFloor(g, shadow);
      shadow := shadow.(y := shadow.y + 1);
      hit := Collide(g, shadow);
    }
    shadow := shadow.(y := shadow.y - 1);
  }
}
