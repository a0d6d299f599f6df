/**
 * The rules of a session as functions on a snapshot of the game's fields:
 * what locking, moving, rotating, holding, pausing, dropping and one
 * gravity step do to them. The GameState class and the frame driver are
 * proved to follow these functions; the lemmas here state what the rules
 * guarantee.
 *
 * A function that may draw a new kind from the bag takes that kind as the
 * parameter k; when the rule draws nothing, k is ignored.
 */
module Rules {
  import opened Wrappers
  import opened Tetrominoes
  import opened Board

  /** The fields of GameState, the bag aside. */
  datatype Session = Session(
    board: Grid,
    current: Piece,
    queue: seq<Kind>,
    hold: Option<Kind>,
    holdUsed: bool,
    score: nat,
    level: nat,
    lines: nat,
    dropMs: nat,
    elapsed: nat,
    paused: bool,
    over: bool)

  /** The number of upcoming kinds shown in the next queue. */
  const QueueLength := 5

  /** The points for clearing c rows at once, before the level factor. */
  function LineScore(c: nat): (pts: nat)
    requires c <= 4
    ensures c == 0 <==> pts == 0
    ensures c == 4 ==> pts == 800
    ensures 0 < c ==> pts >= 100 * c
  {
    [0, 100, 300, 500, 800][c]
  }

  /** More rows cleared at once are worth more points. */
  lemma LineScoreIncreasing(a: nat, b: nat)
    requires a < b <= 4
    ensures LineScore(a) < LineScore(b)
  {
  }

  /** The gravity interval in milliseconds at a level: max(120, 1000 - (level - 1) * 80). */
  function DropInterval(level: int): (ms: nat)
  {
    var v := 1000 - (level - 1) * 80;
    if v > 120 then v else 120
  }

  /**
   * The interval starts at 1000 ms at level 1, never leaves [120, 1000] for
   * levels from 1 on, gets shorter as the level rises and reaches 120 ms from
   * level 12 on.
   */
  lemma DropIntervalBounds(level: int, higher: int)
    requires 1 <= level <= higher
    ensures DropInterval(1) == 1000
    ensures 120 <= DropInterval(level) <= 1000
    ensures DropInterval(higher) <= DropInterval(level)
    ensures level >= 12 <==> DropInterval(level) == 120
  {
  }

  /** The board, the current piece and the queue are in shape for every rule. */
  predicate Ready(s: Session)
  {
    WellFormed(s.board) && NoFullRow(s.board) && !Collides(s.board, s.current) &&
    |s.queue| == QueueLength
  }

  /**
   * The session invariant: Ready, and the level and the gravity interval
   * follow from the lines cleared so far.
   */
  predicate Inv(s: Session)
  {
    Ready(s) && s.level == s.lines / 10 + 1 && s.dropMs == DropInterval(s.level)
  }

  /** Under the invariant the level is at least 1 and lines < level * 10. */
  lemma InvLevel(s: Session)
    requires Inv(s)
    ensures 1 <= s.level && (s.level - 1) * 10 <= s.lines < s.level * 10
  {
  }

  /** A new game: empty board, the first kind spawned, five kinds queued. */
  function Initial(k: Kind, queue: seq<Kind>): (s: Session)
  {
    Session(EmptyGrid(), Spawn(k), queue, None, false, 0, 1, 0, 1000, 0, false, false)
  }

  /** A new game satisfies the invariant. */
  lemma InitialInv(k: Kind, queue: seq<Kind>)
    requires |queue| == QueueLength
    ensures Inv(Initial(k, queue))
    ensures !Initial(k, queue).over && !Initial(k, queue).paused
  {
    var s := Initial(k, queue);
    assert NoFullRow(s.board) by {
      forall y | 0 <= y < Rows ensures !Full(s.board[y]) {
        assert s.board[y][0] == None;
      }
    }
    SpawnNeverCollides(s.board, k);
  }

  /** takeNext: the front of the queue becomes the current piece and k joins at the back. */
  function Dequeue(s: Session, k: Kind): (r: Session)
    requires |s.queue| > 0
  {
    s.(current := Spawn(s.queue[0]), queue := s.queue[1..] + [k])
  }

  /**
   * The new piece is the former front of the queue, the queue keeps its
   * length and moves up by one, and no other field changes.
   */
  lemma DequeueSpec(s: Session, k: Kind)
    requires |s.queue| > 0
    ensures Dequeue(s, k).current == Spawn(s.queue[0])
    ensures |Dequeue(s, k).queue| == |s.queue|
    ensures forall i :: 0 <= i < |s.queue| - 1 ==> Dequeue(s, k).queue[i] == s.queue[i + 1]
    ensures Dequeue(s, k).queue[|s.queue| - 1] == k
    ensures Dequeue(s, k).(current := s.current, queue := s.queue) == s
  {
  }

  /** Some cell of the piece lies above the board. */
  predicate AboveTop(p: Piece)
  {
    exists i :: 0 <= i < 4 && Cells(p)[i].y < 0
  }

  /**
   * The score and level update after c rows were cleared: nothing when c is
   * 0, otherwise the table score times the level, the lines, and one level
   * up once the lines reach level * 10.
   */
  function Award(s: Session, c: nat): Session
    requires c <= 4
  {
    if c == 0 then s
    else LevelUp(s.(score := s.score + LineScore(c) * s.level, lines := s.lines + c))
  }

  /** One level up, with its gravity interval, once the lines reach level * 10. */
  function LevelUp(s: Session): Session
  {
    if s.lines >= s.level * 10 then s.(level := s.level + 1, dropMs := DropInterval(s.level + 1))
    else s
  }

  /**
   * The score rises by the table entry times the old level and the lines by
   * c; only score, lines, level and dropMs change.
   */
  lemma AwardSpec(s: Session, c: nat)
    requires c <= 4
    ensures Award(s, c).score == s.score + LineScore(c) * s.level
    ensures Award(s, c).lines == s.lines + c
    ensures Award(s, c).(score := s.score, lines := s.lines, level := s.level, dropMs := s.dropMs) == s
  {
  }

  /**
   * At most four rows cleared keep the level equal to lines / 10 + 1 and
   * dropMs equal to its interval, so the level rises by at most one.
   */
  lemma AwardLevel(s: Session, c: nat)
    requires c <= 4
    requires s.level == s.lines / 10 + 1 && s.dropMs == DropInterval(s.level)
    ensures Award(s, c).level == Award(s, c).lines / 10 + 1
    ensures Award(s, c).dropMs == DropInterval(Award(s, c).level)
    ensures s.level <= Award(s, c).level <= s.level + 1
  {
  }

  /**
   * lockPiece: a piece reaching above the board ends the game and nothing
   * else changes; otherwise it is written into the board, full rows are
   * cleared, the score and level are updated, the next piece is taken and
   * hold is allowed again. The new piece is not checked for collision.
   */
  function Lock(s: Session, k: Kind): Session
    requires Ready(s)
  {
    if AboveTop(s.current) then s.(over := true)
    else Dequeue(Settle(s), k).(holdUsed := false)
  }

  /** Whether lockPiece gets as far as takeNext, the only place it draws a kind. */
  predicate LockDraws(s: Session)
  {
    !AboveTop(s.current)
  }

  /**
   * The part of lockPiece between writing the cells and taking the next
   * piece: the written board with its full rows cleared, and the award.
   */
  function Settle(s: Session): Session
    requires Ready(s) && !AboveTop(s.current)
  {
    var placed := Place(s.board, s.current);
    PlaceClearsAtMostFour(s.board, s.current);
    Award(s.(board := ClearFull(placed)), FullCount(placed))
  }

  /** Locking above the top sets over and changes nothing else. */
  lemma LockAboveTop(s: Session, k: Kind)
    requires Ready(s) && AboveTop(s.current)
    ensures Lock(s, k) == s.(over := true)
  {
  }

  /**
   * The drawn kind matters to a lock exactly when it draws: then it joins the
   * back of the queue, and otherwise any kind gives the same result.
   */
  lemma LockUsesKind(s: Session, k: Kind, k2: Kind)
    requires Ready(s)
    ensures LockDraws(s) ==> Lock(s, k).queue == s.queue[1..] + [k]
    ensures !LockDraws(s) ==> Lock(s, k) == Lock(s, k2)
  {
    if LockDraws(s) {
      SettleSpec(s);
    }
  }

  /**
   * Locking on the board: the piece's cells are written, at most four rows
   * are cleared, the score rises by the table entry times the level and the
   * lines by the rows cleared.
   */
  lemma LockOnBoard(s: Session, k: Kind)
    requires Ready(s) && !AboveTop(s.current)
    ensures Placeable(s.board, s.current)
    ensures FullCount(Place(s.board, s.current)) <= 4
    ensures var c := FullCount(Place(s.board, s.current));
      Lock(s, k).board == ClearFull(Place(s.board, s.current)) &&
      Lock(s, k).score == s.score + LineScore(c) * s.level &&
      Lock(s, k).lines == s.lines + c
  {
    PlaceClearsAtMostFour(s.board, s.current);
    SettleSpec(s);
  }

  /** What Settle changes: board, score, lines and, at most by one, the level. */
  lemma SettleSpec(s: Session)
    requires Ready(s) && !AboveTop(s.current)
    ensures FullCount(Place(s.board, s.current)) <= 4
    ensures var c := FullCount(Place(s.board, s.current));
      Settle(s).board == ClearFull(Place(s.board, s.current)) &&
      Settle(s).score == s.score + LineScore(c) * s.level &&
      Settle(s).lines == s.lines + c
    ensures Settle(s).(board := s.board, score := s.score, lines := s.lines, level := s.level, dropMs := s.dropMs) == s
  {
    var placed := Place(s.board, s.current);
    PlaceClearsAtMostFour(s.board, s.current);
    var c := FullCount(placed);
    AwardSpec(s.(board := ClearFull(placed)), c);
  }

  /**
   * After locking on the board the next piece comes from the front of the
   * queue, k joins the queue and hold is allowed again.
   */
  lemma LockTakesNext(s: Session, k: Kind)
    requires Ready(s) && !AboveTop(s.current)
    ensures Lock(s, k).current == Spawn(s.queue[0])
    ensures Lock(s, k).queue == s.queue[1..] + [k]
    ensures !Lock(s, k).holdUsed && Lock(s, k).over == s.over
    ensures Lock(s, k).hold == s.hold && Lock(s, k).paused == s.paused
  {
    SettleSpec(s);
  }

  /** Locking keeps the session invariant, whichever kind is drawn. */
  lemma LockPreservesInv(s: Session, k: Kind)
    requires Inv(s)
    ensures Inv(Lock(s, k))
  {
    if !AboveTop(s.current) {
      var placed := Place(s.board, s.current);
      PlaceClearsAtMostFour(s.board, s.current);
      var c := FullCount(placed);
      ClearFullSpec(placed);
      AwardSpec(s.(board := ClearFull(placed)), c);
      AwardLevel(s.(board := ClearFull(placed)), c);
      SpawnNeverCollides(Settle(s).board, s.queue[0]);
    }
  }

  /** tryMove: the shifted piece is kept unless it collides. */
  function Move(s: Session, dx: int, dy: int): (Session, bool)
    requires WellFormed(s.board)
  {
    var q := Shift(s.current, dx, dy);
    if Collides(s.board, q) then (s, false) else (s.(current := q), true)
  }

  /**
   * A move is all or nothing: it succeeds exactly when the shifted piece
   * fits, a failed move changes nothing, and a move never changes the kind
   * or the rotation, nor anything but the piece.
   */
  lemma MoveSpec(s: Session, dx: int, dy: int)
    requires WellFormed(s.board)
    ensures Move(s, dx, dy).1 <==> !Collides(s.board, Shift(s.current, dx, dy))
    ensures !Move(s, dx, dy).1 ==> Move(s, dx, dy).0 == s
    ensures Move(s, dx, dy).1 ==> Move(s, dx, dy).0.current == s.current.(x := s.current.x + dx, y := s.current.y + dy)
    ensures Move(s, dx, dy).0.current.kind == s.current.kind
    ensures Move(s, dx, dy).0.current.rot == s.current.rot
    ensures Move(s, dx, dy).0.(current := s.current) == s
  {
  }

  /** A move keeps the session invariant. */
  lemma MovePreservesInv(s: Session, dx: int, dy: int)
    requires Inv(s)
    ensures Inv(Move(s, dx, dy).0)
  {
  }

  /** The wall kicks tryRotate tries, in order. */
  const Kicks: seq<Cell> := [Cell(0, 0), Cell(1, 0), Cell(-1, 0), Cell(2, 0), Cell(-2, 0), Cell(0, -1)]

  /** The rotated piece moved by kick i. */
  function Kicked(p: Piece, dir: int, i: nat): (q: Piece)
    requires i < |Kicks|
    ensures q.kind == p.kind && q.rot == Rotated(p, dir).rot
    ensures q.x == p.x + Kicks[i].x && q.y == p.y + Kicks[i].y
  {
    Rotated(p, dir).(x := p.x + Kicks[i].x, y := p.y + Kicks[i].y)
  }

  /** Which kicks of the rotated piece collide, in the order they are tried. */
  function KickHits(g: Grid, p: Piece, dir: int): (hits: seq<bool>)
    requires WellFormed(g)
    ensures |hits| == |Kicks|
    ensures forall j :: 0 <= j < |Kicks| ==> hits[j] == Collides(g, Kicked(p, dir, j))
  {
    seq(|Kicks|, j requires 0 <= j < |Kicks| => Collides(g, Kicked(p, dir, j)))
  }

  /** The first index from i on whose entry is false. */
  function FirstMiss(hits: seq<bool>, i: nat): (r: Option<nat>)
    requires i <= |hits|
    ensures r.Some? ==> i <= r.value < |hits|
    decreases |hits| - i
  {
    if i == |hits| then None
    else if !hits[i] then Some(i)
    else FirstMiss(hits, i + 1)
  }

  /**
   * FirstMiss finds nothing exactly when every entry from i on is true, and
   * otherwise the first false entry from i on.
   */
  lemma {:induction false} FirstMissSpec(hits: seq<bool>, i: nat)
    requires i <= |hits|
    ensures FirstMiss(hits, i).None? <==> forall j :: i <= j < |hits| ==> hits[j]
    ensures FirstMiss(hits, i).Some? ==>
      var j := FirstMiss(hits, i).value;
      i <= j < |hits| && !hits[j] && forall m :: i <= m < j ==> hits[m]
    decreases |hits| - i
  {
    if i < |hits| && hits[i] {
      FirstMissSpec(hits, i + 1);
    }
  }

  /** The first kick whose placement does not collide, if any. */
  function FirstFit(g: Grid, p: Piece, dir: int): Option<Piece>
    requires WellFormed(g)
  {
    match FirstMiss(KickHits(g, p, dir), 0)
    case None => None
    case Some(j) => Some(Kicked(p, dir, j))
  }

  /**
   * FirstFit finds nothing exactly when every kick collides, and otherwise
   * the placement of the first kick that does not.
   */
  lemma FirstFitSpec(g: Grid, p: Piece, dir: int)
    requires WellFormed(g)
    ensures FirstFit(g, p, dir).None? <==>
      forall j :: 0 <= j < |Kicks| ==> Collides(g, Kicked(p, dir, j))
    ensures FirstFit(g, p, dir).Some? ==>
      exists j :: 0 <= j < |Kicks| && FirstFit(g, p, dir).value == Kicked(p, dir, j) &&
        !Collides(g, Kicked(p, dir, j)) &&
        forall m :: 0 <= m < j ==> Collides(g, Kicked(p, dir, m))
  {
    var hits := KickHits(g, p, dir);
    FirstMissSpec(hits, 0);
    if FirstMiss(hits, 0).Some? {
      var j := FirstMiss(hits, 0).value;
      assert FirstFit(g, p, dir).value == Kicked(p, dir, j);
    }
  }

  /** tryRotate: commit the first kick that fits, or change nothing. */
  function Rotate(s: Session, dir: int): (Session, bool)
    requires WellFormed(s.board)
  {
    match FirstFit(s.board, s.current, dir)
    case None => (s, false)
    case Some(q) => (s.(current := q), true)
  }

  /**
   * A successful rotation turns the piece by one step (clockwise for
   * dir > 0), moves it by the first kick that fits to a place that does not
   * collide; a failed one changes nothing, and only then does every kick
   * collide.
   */
  lemma RotateSpec(s: Session, dir: int)
    requires WellFormed(s.board)
    ensures !Rotate(s, dir).1 <==> forall j :: 0 <= j < |Kicks| ==> Collides(s.board, Kicked(s.current, dir, j))
    ensures !Rotate(s, dir).1 ==> Rotate(s, dir).0 == s
    ensures Rotate(s, dir).1 ==>
      var q := Rotate(s, dir).0.current;
      q.kind == s.current.kind && q.rot == (s.current.rot + (if dir > 0 then 1 else 3)) % 4 &&
      !Collides(s.board, q) &&
      exists j :: 0 <= j < |Kicks| && q == Kicked(s.current, dir, j) &&
        forall m :: 0 <= m < j ==> Collides(s.board, Kicked(s.current, dir, m))
    ensures Rotate(s, dir).0.(current := s.current) == s
  {
    FirstFitSpec(s.board, s.current, dir);
  }

  /** A colliding entry is skipped by the search. */
  lemma FirstMissSkip(hits: seq<bool>, i: nat)
    requires i < |hits| && hits[i]
    ensures FirstMiss(hits, i + 1) == FirstMiss(hits, i)
  {
  }

  /** When the search from 0 reaches kick i and it fits, the rotation commits kick i. */
  lemma RotateAt(s: Session, dir: int, i: nat)
    requires WellFormed(s.board) && i < |Kicks|
    requires FirstMiss(KickHits(s.board, s.current, dir), i) == FirstMiss(KickHits(s.board, s.current, dir), 0)
    requires !Collides(s.board, Kicked(s.current, dir, i))
    ensures Rotate(s, dir) == (s.(current := Kicked(s.current, dir, i)), true)
  {
  }

  /** When the search from 0 runs past the last kick, the rotation fails. */
  lemma RotateNone(s: Session, dir: int)
    requires WellFormed(s.board)
    requires FirstMiss(KickHits(s.board, s.current, dir), |Kicks|) == FirstMiss(KickHits(s.board, s.current, dir), 0)
    ensures Rotate(s, dir) == (s, false)
  {
  }

  /** A rotation keeps the session invariant. */
  lemma RotatePreservesInv(s: Session, dir: int)
    requires Inv(s)
    ensures Inv(Rotate(s, dir).0)
  {
    FirstFitSpec(s.board, s.current, dir);
  }

  /** Soft drop: a successful one-row move down is worth one point. */
  function SoftDropped(s: Session): Session
    requires WellFormed(s.board)
  {
    var (r, ok) := Move(s, 0, 1);
    if ok then r.(score := r.score + 1) else r
  }

  /** A soft drop moves down one row and scores 1, or changes nothing. */
  lemma SoftDropSpec(s: Session)
    requires Inv(s)
    ensures Inv(SoftDropped(s))
    ensures !Collides(s.board, Shift(s.current, 0, 1)) ==>
      SoftDropped(s) == s.(current := Shift(s.current, 0, 1), score := s.score + 1)
    ensures Collides(s.board, Shift(s.current, 0, 1)) ==> SoftDropped(s) == s
  {
  }

  /** The first part of hardDrop: the piece at its landing row, two points per row fallen. */
  function Dropped(s: Session): (r: Session)
    requires WellFormed(s.board) && !Collides(s.board, s.current)
    ensures r.board == s.board && r.queue == s.queue && !Collides(r.board, r.current)
  {
    var q := DropFrom(s.board, s.current);
    DropFromLands(s.board, s.current);
    s.(current := q, score := s.score + 2 * (q.y - s.current.y))
  }

  /**
   * The piece falls straight down through rows that all fit and stops where
   * one more row would collide; the score rises by twice the rows fallen and
   * nothing else changes.
   */
  lemma DroppedSpec(s: Session)
    requires WellFormed(s.board) && !Collides(s.board, s.current)
    ensures var r := Dropped(s);
      r.current == s.current.(y := r.current.y) && r.current.y >= s.current.y &&
      r.score == s.score + 2 * (r.current.y - s.current.y) &&
      !Collides(s.board, r.current) && Collides(s.board, Shift(r.current, 0, 1)) &&
      (forall y :: s.current.y <= y <= r.current.y ==> !Collides(s.board, s.current.(y := y))) &&
      r.(current := s.current, score := s.score) == s
  {
    DropFromLands(s.board, s.current);
    DropFromPath(s.board, s.current);
  }

  /** hardDrop: drop, then lock. */
  function HardDropped(s: Session, k: Kind): Session
    requires Ready(s)
  {
    Lock(Dropped(s), k)
  }

  /** Whether a hard drop draws a kind: when the dropped piece locks on the board. */
  predicate HardDropDraws(s: Session)
    requires Ready(s)
  {
    LockDraws(Dropped(s))
  }

  /** The drawn kind matters to a hard drop exactly when it draws. */
  lemma HardDropUsesKind(s: Session, k: Kind, k2: Kind)
    requires Ready(s)
    ensures HardDropDraws(s) ==> HardDropped(s, k).queue == s.queue[1..] + [k]
    ensures !HardDropDraws(s) ==> HardDropped(s, k) == HardDropped(s, k2)
  {
    DropFromLands(s.board, s.current);
    LockUsesKind(Dropped(s), k, k2);
  }

  /** A hard drop keeps the session invariant. */
  lemma HardDropPreservesInv(s: Session, k: Kind)
    requires Inv(s)
    ensures Inv(HardDropped(s, k))
  {
    DropFromLands(s.board, s.current);
    LockPreservesInv(Dropped(s), k);
  }

  /**
   * holdPiece: once per piece, put the current kind into hold and take the
   * held kind back (or, with an empty hold, the next piece), at the spawn
   * point; a collision of the new piece would end the game.
   */
  function Hold(s: Session, k: Kind): Session
    requires WellFormed(s.board) && |s.queue| > 0
  {
    if s.holdUsed then s else Respawned(Swapped(s, k))
  }

  /** Whether holdPiece draws a kind: hold is still allowed and the slot is empty. */
  predicate HoldDraws(s: Session)
  {
    !s.holdUsed && s.hold.None?
  }

  /** The drawn kind matters to a hold exactly when it draws. */
  lemma HoldUsesKind(s: Session, k: Kind, k2: Kind)
    requires WellFormed(s.board) && |s.queue| > 0
    ensures HoldDraws(s) ==> Hold(s, k).queue == s.queue[1..] + [k]
    ensures !HoldDraws(s) ==> Hold(s, k) == Hold(s, k2)
  {
  }

  /**
   * The end of holdPiece: the piece goes back to the spawn point in rotation 0,
   * a collision there ends the game, and hold is used up.
   */
  function Respawned(s: Session): Session
    requires WellFormed(s.board)
  {
    var q := s.current.(x := 3, y := -2, rot := 0);
    s.(current := q, over := s.over || Collides(s.board, q), holdUsed := true)
  }

  /**
   * The exchange inside holdPiece: the current kind goes into hold and the
   * piece becomes one of the held kind, or, with an empty hold, the next
   * piece of the queue.
   */
  function Swapped(s: Session, k: Kind): Session
    requires |s.queue| > 0
  {
    match s.hold
    case None => Dequeue(s.(hold := Some(s.current.kind)), k)
    case Some(h) => s.(hold := Some(s.current.kind), current := Spawn(h))
  }

  /**
   * A second hold before the next lock changes nothing; otherwise the held
   * kind becomes the current kind's, the new piece is the old held kind (or
   * the front of the queue) at the spawn point, and hold is used up. The
   * game-over check of holdPiece never fires.
   */
  lemma HoldSpec(s: Session, k: Kind)
    requires WellFormed(s.board) && |s.queue| > 0
    ensures s.holdUsed ==> Hold(s, k) == s
    ensures !s.holdUsed ==>
      Hold(s, k).holdUsed && Hold(s, k).hold == Some(s.current.kind) &&
      Hold(s, k).current == Spawn(if s.hold.Some? then s.hold.value else s.queue[0]) &&
      Hold(s, k).queue == (if s.hold.Some? then s.queue else s.queue[1..] + [k])
    ensures Hold(s, k).over == s.over
    ensures Hold(s, k).(current := s.current, queue := s.queue, hold := s.hold, holdUsed := s.holdUsed) == s
  {
    if !s.holdUsed {
      SpawnNeverCollides(s.board, if s.hold.Some? then s.hold.value else s.queue[0]);
    }
  }

  /** Holding keeps the session invariant. */
  lemma HoldPreservesInv(s: Session, k: Kind)
    requires Inv(s)
    ensures Inv(Hold(s, k))
  {
    HoldSpec(s, k);
    if !s.holdUsed {
      SpawnNeverCollides(s.board, if s.hold.Some? then s.hold.value else s.queue[0]);
    }
  }

  /** togglePause: flips paused, except once the game is over. */
  function Toggled(s: Session): Session
  {
    if s.over then s else s.(paused := !s.paused)
  }

  /** Pausing twice restores the session; after game over nothing changes. */
  lemma TogglePauseSpec(s: Session)
    ensures Toggled(Toggled(s)) == s
    ensures s.over ==> Toggled(s) == s
    ensures !s.over ==> Toggled(s).paused != s.paused
    ensures Toggled(s).(paused := s.paused) == s
    ensures Inv(s) ==> Inv(Toggled(s))
  {
  }

  /**
   * One frame of the loop with frame delta dt and accumulator acc: nothing
   * while paused or over; otherwise acc and elapsed grow by dt and, once acc
   * reaches dropMs, acc restarts at 0 and the piece moves down one row or,
   * when it cannot, locks.
   */
  function Gravity(s: Session, acc: nat, dt: nat, k: Kind): (Session, nat)
    requires Ready(s)
  {
    if s.paused || s.over then (s, acc)
    else
      var acc1 := acc + dt;
      var s1 := s.(elapsed := s.elapsed + dt);
      if acc1 >= s1.dropMs then
        var (s2, ok) := Move(s1, 0, 1);
        (if ok then s2 else Lock(s2, k), 0)
      else (s1, acc1)
  }

  /**
   * Whether a gravity step draws a kind: it runs, acc reaches dropMs, the
   * piece cannot move down and it locks on the board.
   */
  predicate GravityDraws(s: Session, acc: nat, dt: nat)
    requires WellFormed(s.board)
  {
    !s.paused && !s.over && acc + dt >= s.dropMs &&
    Collides(s.board, Shift(s.current, 0, 1)) && LockDraws(s)
  }

  /** The drawn kind matters to a gravity step exactly when it draws. */
  lemma GravityUsesKind(s: Session, acc: nat, dt: nat, k: Kind, k2: Kind)
    requires Inv(s)
    ensures GravityDraws(s, acc, dt) ==> Gravity(s, acc, dt, k).0.queue == s.queue[1..] + [k]
    ensures !GravityDraws(s, acc, dt) ==> Gravity(s, acc, dt, k) == Gravity(s, acc, dt, k2)
  {
    GravitySpec(s, acc, dt, k);
    GravitySpec(s, acc, dt, k2);
    if !s.paused && !s.over && acc + dt >= s.dropMs && Collides(s.board, Shift(s.current, 0, 1)) {
      LockUsesKind(s.(elapsed := s.elapsed + dt), k, k2);
    }
  }

  /**
   * A frame changes nothing while paused or over. Otherwise the elapsed
   * time grows by dt, and either acc grows by dt and stays below dropMs with
   * nothing else changed, or acc restarts at 0 and the piece falls one row
   * or is locked.
   */
  lemma GravitySpec(s: Session, acc: nat, dt: nat, k: Kind)
    requires Inv(s)
    ensures Inv(Gravity(s, acc, dt, k).0)
    ensures s.paused || s.over ==> Gravity(s, acc, dt, k) == (s, acc)
    ensures !s.paused && !s.over && acc + dt < s.dropMs ==>
      Gravity(s, acc, dt, k) == (s.(elapsed := s.elapsed + dt), acc + dt)
    ensures !s.paused && !s.over && acc + dt >= s.dropMs ==>
      Gravity(s, acc, dt, k).1 == 0 &&
      Gravity(s, acc, dt, k).0 ==
        (if Collides(s.board, Shift(s.current, 0, 1))
         then Lock(s.(elapsed := s.elapsed + dt), k)
         else s.(elapsed := s.elapsed + dt, current := Shift(s.current, 0, 1)))
  {
    if !s.paused && !s.over && acc + dt >= s.dropMs {
      var s1 := s.(elapsed := s.elapsed + dt);
      MovePreservesInv(s1, 0, 1);
      LockPreservesInv(Move(s1, 0, 1).0, k);
    }
  }

  /** Locking leaves the play time alone. */
  lemma LockElapsed(s: Session, k: Kind)
    requires Ready(s)
    ensures Lock(s, k).elapsed == s.elapsed
  {
    if !AboveTop(s.current) {
      SettleSpec(s);
    }
  }

  /** A frame that is not paused or over adds exactly dt to the play time. */
  lemma GravityElapsed(s: Session, acc: nat, dt: nat, k: Kind)
    requires Inv(s) && !s.paused && !s.over
    ensures Gravity(s, acc, dt, k).0.elapsed == s.elapsed + dt
  {
    GravitySpec(s, acc, dt, k);
    var s1 := s.(elapsed := s.elapsed + dt);
    if acc + dt >= s1.dropMs && Collides(s.board, Shift(s.current, 0, 1)) {
      LockElapsed(s1, k);
    }
  }
}
