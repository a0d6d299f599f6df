/**
 * The piece catalog (the TETROMINOES table) and the geometry of one piece:
 * its spawn position, the cells it covers and its rotated copy.
 */
module Tetrominoes {

  /** The seven kinds, in the order the catalog lists them. */
  datatype Kind = I | O | T | S | Z | J | L

  /** A cell offset inside the 4x4 box, or an absolute board cell. */
  datatype Cell = Cell(x: int, y: int)

  /** A rotation index. */
  type Rot = r: int | 0 <= r < 4

  /** Each kind once: the kinds a full bag holds. */
  const Catalog: multiset<Kind> := multiset{I, O, T, S, Z, J, L}

  /** The kinds in catalog order: what a refill of the bag starts from. */
  function AllKinds(): (ks: seq<Kind>)
    ensures |ks| == 7
    ensures multiset(ks) == Catalog
  {
    [I, O, T, S, Z, J, L]
  }

  /** The catalog lists every kind, and each exactly once. */
  lemma AllKindsOnce(k: Kind)
    ensures k in AllKinds() && Catalog[k] == 1
  {
    match k
    case I => case O => case T => case S => case Z => case J => case L =>
  }

  /** The display colour of a kind. */
  function Color(k: Kind): (c: string)
    ensures |c| == 7 && c[0] == '#'
  {
    match k
    case I => "#4fd1c5"
    case O => "#f6e05e"
    case T => "#b794f4"
    case S => "#68d391"
    case Z => "#fc8181"
    case J => "#63b3ed"
    case L => "#f6ad55"
  }

  /** No two kinds share a colour, so a board cell may hold the kind instead. */
  lemma ColorInjective(k1: Kind, k2: Kind)
    ensures Color(k1) == Color(k2) ==> k1 == k2
  {
  }

  /** The layout of kind k in rotation r, as the catalog lists it. */
  function Layout(k: Kind, r: Rot): seq<Cell>
  {
    match k
    case I =>
      if r == 0 then [Cell(0, 1), Cell(1, 1), Cell(2, 1), Cell(3, 1)]
      else if r == 1 then [Cell(2, 0), Cell(2, 1), Cell(2, 2), Cell(2, 3)]
      else if r == 2 then [Cell(0, 2), Cell(1, 2), Cell(2, 2), Cell(3, 2)]
      else [Cell(1, 0), Cell(1, 1), Cell(1, 2), Cell(1, 3)]
    case O =>
      if r == 0 then [Cell(1, 0), Cell(2, 0), Cell(1, 1), Cell(2, 1)]
      else if r == 1 then [Cell(1, 0), Cell(2, 0), Cell(1, 1), Cell(2, 1)]
      else if r == 2 then [Cell(1, 0), Cell(2, 0), Cell(1, 1), Cell(2, 1)]
      else [Cell(1, 0), Cell(2, 0), Cell(1, 1), Cell(2, 1)]
    case T =>
      if r == 0 then [Cell(1, 0), Cell(0, 1), Cell(1, 1), Cell(2, 1)]
      else if r == 1 then [Cell(1, 0), Cell(1, 1), Cell(2, 1), Cell(1, 2)]
      else if r == 2 then [Cell(0, 1), Cell(1, 1), Cell(2, 1), Cell(1, 2)]
      else [Cell(1, 0), Cell(0, 1), Cell(1, 1), Cell(1, 2)]
    case S =>
      if r == 0 then [Cell(1, 0), Cell(2, 0), Cell(0, 1), Cell(1, 1)]
      else if r == 1 then [Cell(1, 0), Cell(1, 1), Cell(2, 1), Cell(2, 2)]
      else if r == 2 then [Cell(1, 1), Cell(2, 1), Cell(0, 2), Cell(1, 2)]
      else [Cell(0, 0), Cell(0, 1), Cell(1, 1), Cell(1, 2)]
    case Z =>
      if r == 0 then [Cell(0, 0), Cell(1, 0), Cell(1, 1), Cell(2, 1)]
      else if r == 1 then [Cell(2, 0), Cell(1, 1), Cell(2, 1), Cell(1, 2)]
      else if r == 2 then [Cell(0, 1), Cell(1, 1), Cell(1, 2), Cell(2, 2)]
      else [Cell(1, 0), Cell(0, 1), Cell(1, 1), Cell(0, 2)]
    case J =>
      if r == 0 then [Cell(0, 0), Cell(0, 1), Cell(1, 1), Cell(2, 1)]
      else if r == 1 then [Cell(1, 0), Cell(2, 0), Cell(1, 1), Cell(1, 2)]
      else if r == 2 then [Cell(0, 1), Cell(1, 1), Cell(2, 1), Cell(2, 2)]
      else [Cell(1, 0), Cell(1, 1), Cell(0, 2), Cell(1, 2)]
    case L =>
      if r == 0 then [Cell(2, 0), Cell(0, 1), Cell(1, 1), Cell(2, 1)]
      else if r == 1 then [Cell(1, 0), Cell(1, 1), Cell(1, 2), Cell(2, 2)]
      else if r == 2 then [Cell(0, 1), Cell(1, 1), Cell(2, 1), Cell(0, 2)]
      else [Cell(0, 0), Cell(1, 0), Cell(1, 1), Cell(1, 2)]
  }

  /**
   * Four distinct offsets inside the 4x4 box, listed with non-decreasing y,
   * written out entry by entry.
   */
  predicate WellShaped(s: seq<Cell>)
  {
    |s| == 4 &&
    0 <= s[0].x < 4 && 0 <= s[1].x < 4 && 0 <= s[2].x < 4 && 0 <= s[3].x < 4 &&
    0 <= s[0].y <= s[1].y <= s[2].y <= s[3].y < 4 &&
    s[0] != s[1] && s[0] != s[2] && s[0] != s[3] &&
    s[1] != s[2] && s[1] != s[3] && s[2] != s[3]
  }

  /** Every layout of the catalog is well shaped; rotation 0 uses the top two rows. */
  lemma LayoutShaped(k: Kind, r: Rot)
    ensures WellShaped(Layout(k, r))
    ensures r == 0 ==> Layout(k, r)[3].y <= 1
  {
  }

  /** The entry-by-entry facts of a well-shaped layout, as quantified statements. */
  lemma WellShapedAll(s: seq<Cell>)
    requires WellShaped(s)
    ensures forall i :: 0 <= i < |s| ==> 0 <= s[i].x < 4 && 0 <= s[i].y < 4
    ensures forall i, j :: 0 <= i <= j < |s| ==> s[i].y <= s[j].y
    ensures forall i, j :: 0 <= i < j < |s| ==> s[i] != s[j]
    ensures forall i :: 0 <= i < |s| ==> s[i].y <= s[3].y
  {
  }

  /**
   * shape(): the layout of kind k in rotation r. It is Layout itself; this
   * name exists to carry the facts LayoutShaped proves about every layout:
   * four distinct offsets inside the 4x4 box, listed with non-decreasing y,
   * and every rotation-0 layout in the top two rows of its box.
   */
  function Shape(k: Kind, r: Rot): (s: seq<Cell>)
    ensures |s| == 4
    ensures forall i :: 0 <= i < |s| ==> 0 <= s[i].x < 4 && 0 <= s[i].y < 4
    ensures forall i, j :: 0 <= i <= j < |s| ==> s[i].y <= s[j].y
    ensures forall i, j :: 0 <= i < j < |s| ==> s[i] != s[j]
    ensures r == 0 ==> forall i :: 0 <= i < |s| ==> s[i].y <= 1
  {
    LayoutShaped(k, r);
    WellShapedAll(Layout(k, r));
    Layout(k, r)
  }

  /** The falling piece: its kind, rotation and origin (top-left of its box). */
  datatype Piece = Piece(kind: Kind, rot: Rot, x: int, y: int)

  /** A new piece of kind k at the spawn point (3, -2) in rotation 0. */
  function Spawn(k: Kind): Piece
  {
    Piece(k, 0, 3, -2)
  }

  /** The piece moved by (dx, dy). */
  function Shift(p: Piece, dx: int, dy: int): Piece
  {
    p.(x := p.x + dx, y := p.y + dy)
  }

  /** The board cells of a piece: its layout offsets added to its origin. */
  function Cells(p: Piece): (cs: seq<Cell>)
    ensures |cs| == 4
    ensures forall i :: 0 <= i < 4 ==>
      cs[i] == Cell(Shape(p.kind, p.rot)[i].x + p.x, Shape(p.kind, p.rot)[i].y + p.y)
  {
    var s := Shape(p.kind, p.rot);
    [Cell(s[0].x + p.x, s[0].y + p.y), Cell(s[1].x + p.x, s[1].y + p.y),
     Cell(s[2].x + p.x, s[2].y + p.y), Cell(s[3].x + p.x, s[3].y + p.y)]
  }

  /** The same piece turned clockwise (dir > 0) or counter-clockwise. */
  function Rotated(p: Piece, dir: int): (q: Piece)
    ensures q.kind == p.kind && q.x == p.x && q.y == p.y
    ensures q.rot == (p.rot + (if dir > 0 then 1 else 3)) % 4
  {
    p.(rot := (p.rot + (if dir > 0 then 1 else 3)) % 4)
  }

  /** Turning one way and then the other gives back the same piece. */
  lemma RotatedInverse(p: Piece, dir: int)
    ensures Rotated(Rotated(p, dir), -dir) == p || dir == 0
    ensures Rotated(Rotated(p, 1), -1) == p && Rotated(Rotated(p, -1), 1) == p
  {
    TurnBack(p.rot);
  }

  /** A quarter turn one way and a quarter turn back cancel. */
  lemma TurnBack(r: Rot)
    ensures ((r + 1) % 4 + 3) % 4 == r && ((r + 3) % 4 + 1) % 4 == r
  {
    if r == 0 {
    } else if r == 1 {
    } else if r == 2 {
    } else {
    }
  }

  /** Four turns in the same direction give back the same piece. */
  lemma RotatedFourTimes(p: Piece, dir: int)
    ensures Rotated(Rotated(Rotated(Rotated(p, dir), dir), dir), dir) == p
  {
  }

  /** A piece's cells are listed with non-decreasing y, so the first is highest. */
  lemma {:induction false} FirstCellHighest(p: Piece)
    ensures forall i :: 0 <= i < 4 ==> Cells(p)[0].y <= Cells(p)[i].y
    ensures (exists i :: 0 <= i < 4 && Cells(p)[i].y < 0) <==> Cells(p)[0].y < 0
  {
    var s := Shape(p.kind, p.rot);
    assert forall i :: 0 <= i < 4 ==> s[0].y <= s[i].y;
    if Cells(p)[0].y < 0 {
      assert 0 <= 0 < 4 && Cells(p)[0].y < 0;
    }
  }

  /** Every cell of a freshly spawned piece lies above the board (y < 0). */
  lemma SpawnAboveBoard(k: Kind)
    ensures forall i :: 0 <= i < 4 ==> Cells(Spawn(k))[i].y < 0
  {
  }
}
