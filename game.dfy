/**
 * GameState and the player actions that update it in place: tryMove,
 * tryRotate, hardDrop, the soft drop of the key handler, holdPiece,
 * togglePause and lockPiece. Each action is proved to change the fields
 * exactly as the corresponding rule of the Rules module says and to keep
 * the session invariant; an action that may draw from the bag also states
 * that it made exactly one call of next when its rule draws, and left the
 * bag alone otherwise.
 */
module Game {
  import opened Wrappers
  import opened Tetrominoes
  import opened Bag
  import opened Board
  import opened Rules

  /** Appending after a front entry is appending to the rest. */
  lemma AppendBehind<X>(a: X, q: seq<X>, k: X)
    ensures ([a] + q) + [k] == [a] + (q + [k])
  {
  }

  /**
   * One draw from a bag that still holds kinds: the kind comes out of the bag
   * and is appended to the drawn ones.
   */
  method DrawOne(r: BagRandom) returns (k: Kind)
    requires r.Valid() && r.bag != []
    modifies r
    ensures r.Valid()
    ensures r.drawn == old(r.drawn) + [k] && |r.bag| == |old(r.bag)| - 1
  {
    k := r.Next();
  }

  /**
   * The six draws of a new game from a fresh bag: the first piece and the
   * five queued kinds. They all come from the first shuffled bag.
   */
  method FirstDraws(r: BagRandom) returns (k0: Kind, q: seq<Kind>)
    requires r.Valid() && r.bag == [] && r.drawn == []
    modifies r
    ensures r.Valid()
    ensures |q| == QueueLength
    ensures r.drawn == [k0] + q && Distinct(r.drawn)
  {
    k0 := r.Next();
    assert |r.bag| == 6;
    q := [];
    assert r.drawn == [k0] + q;
    var k := DrawOne(r);
    AppendBehind(k0, q, k);
    q := q + [k];
    k := DrawOne(r);
    AppendBehind(k0, q, k);
    q := q + [k];
    k := DrawOne(r);
    AppendBehind(k0, q, k);
    q := q + [k];
    k := DrawOne(r);
    AppendBehind(k0, q, k);
    q := q + [k];
    k := DrawOne(r);
    AppendBehind(k0, q, k);
    q := q + [k];
    DrawnDistinct(r);
  }

  class GameState {
    var board: Grid
    const random: BagRandom
    var current: Piece
    /** The upcoming kinds, front first. */
    var nextQueue: seq<Kind>
    var holdType: Option<Kind>
    /** Whether hold was used since the last lock. */
    var holdUsed: bool
    var score: nat
    var level: nat
    var lines: nat
    /** The gravity interval in milliseconds. */
    var dropMs: nat
    /**
     * Milliseconds summed over the frames that ran; the first frame after a
     * pause also counts the paused time.
     */
    var elapsed: nat
    var paused: bool
    var over: bool

    /** The fields as a Session value. */
    ghost function State(): Session
      reads this
    {
      Session(board, current, nextQueue, holdType, holdUsed, score, level, lines, dropMs,
              elapsed, paused, over)
    }

    ghost predicate Valid()
      reads this, random
    {
      Inv(State()) && random.Valid()
    }

    /** The kind drawn last from the bag: the back of the queue. */
    ghost function Drawn(): Kind
      reads this
      requires |nextQueue| > 0
    {
      nextQueue[|nextQueue| - 1]
    }

    /**
     * A new game: an empty board, a fresh bag, the first kind drawn as the
     * current piece and the next five queued. The six come from one shuffled
     * bag, so no two of them are alike.
     */
    constructor ()
      ensures Valid() && fresh(random)
      ensures State() == Initial(current.kind, nextQueue)
      ensures random.drawn == [current.kind] + nextQueue
      ensures Distinct([current.kind] + nextQueue)
    {
      board := CreateMatrix(Cols, Rows, None);
      var r := new BagRandom();
      var k0, q := FirstDraws(r);
      random := r;
      current := Spawn(k0);
      nextQueue := q;
      holdType := None;
      holdUsed := false;
      score := 0;
      level := 1;
      lines := 0;
      dropMs := 1000;
      elapsed := 0;
      paused := false;
      over := false;
      InitialInv(k0, q);
    }

    /**
     * takeNext: returns a new piece of the kind at the front of the queue and
     * appends the kind of exactly one call of next on the bag.
     */
    method TakeNext() returns (p: Piece)
      requires random.Valid() && |nextQueue| > 0
      modifies this`nextQueue, random
      ensures random.Valid()
      ensures p == Spawn(old(nextQueue)[0])
      ensures |nextQueue| == |old(nextQueue)|
      ensures nextQueue == old(nextQueue)[1..] + [Drawn()]
      ensures OneDraw(old(random.bag), old(random.drawn), random.bag, random.drawn, Drawn())
    {
      var kind := nextQueue[0];
      nextQueue := nextQueue[1..];
      var k := random.Next();
      nextQueue := nextQueue + [k];
      p := Spawn(kind);
    }

    /** tryMove: shift the piece, and shift it back if it then collides. */
    method TryMove(dx: int, dy: int) returns (ok: bool)
      requires Valid()
      modifies this`current
      ensures Valid()
      ensures (State(), ok) == Move(old(State()), dx, dy)
    {
      var oldX, oldY := current.x, current.y;
      current := current.(x := current.x + dx, y := current.y + dy);
      var hit := Collide(board, current);
      if hit {
        current := current.(x := oldX, y := oldY);
        return false;
      }
      MovePreservesInv(old(State()), dx, dy);
      return true;
    }

    /** tryRotate: try the wall kicks in order and commit the first that fits. */
    method TryRotate(dir: int) returns (ok: bool)
      requires Valid()
      modifies this`current
      ensures Valid()
      ensures (State(), ok) == Rotate(old(State()), dir)
    {
      var prev := current;
      var rotated := Rotated(prev, dir);
      ghost var hits := KickHits(board, prev, dir);
      for i := 0 to |Kicks|
        invariant current == prev
        invariant rotated.kind == prev.kind && rotated.rot == Rotated(prev, dir).rot
        invariant FirstMiss(hits, i) == FirstMiss(hits, 0)
      {
        rotated := rotated.(x := prev.x + Kicks[i].x, y := prev.y + Kicks[i].y);
        assert rotated == Kicked(prev, dir, i);
        var hit := Collide(board, rotated);
        if !hit {
          current := rotated;
          RotateAt(old(State()), dir, i);
          RotatePreservesInv(old(State()), dir);
          return true;
        }
        FirstMissSkip(hits, i);
      }
      RotateNone(old(State()), dir);
      return false;
    }

    /**
     * The first half of lockPiece: write the piece's cells into the board one
     * by one, stopping with game over at the first cell above the board.
     * Since the first cell is the highest, either no cell is written or all
     * four are.
     */
    method WriteCells() returns (landed: bool)
      requires WellFormed(board) && !Collides(board, current)
      modifies this`board, this`over
      ensures landed == !AboveTop(current)
      ensures landed ==> Placeable(old(board), current) && board == Place(old(board), current)
      ensures landed ==> over == old(over)
      ensures !landed ==> board == old(board) && over
    {
      var cs := Cells(current);
      var kind := current.kind;
      ghost var g0 := board;
      FirstCellHighest(current);
      if cs[0].y >= 0 {
        PlaceableCells(g0, current);
      }
      for i := 0 to |cs|
        invariant i > 0 ==> cs[0].y >= 0
        invariant cs[0].y >= 0 ==> forall j :: 0 <= j < |cs| ==> InBounds(cs[j])
        invariant board == PlaceCells(g0, cs[..i], kind)
        invariant over == old(over)
      {
        var c := cs[i];
        if c.y < 0 {
          assert i == 0 && cs[..i] == [];
          assert Cells(current)[i].y < 0;
          over := true;
          return false;
        }
        PlaceCellsNext(g0, cs, i, kind);
        board := board[c.y := board[c.y][c.x := Some(kind)]];
      }
      assert cs[..|cs|] == cs;
      return true;
    }

    /**
     * The scoring of lockPiece after c rows were cleared: when c > 0, add the
     * table score times the level and the lines, then check for a level up.
     */
    method AwardLines(c: nat)
      requires c <= 4
      modifies this`score, this`lines, this`level, this`dropMs
      ensures State() == Award(old(State()), c)
    {
      if c > 0 {
        score := score + LineScore(c) * level;
        lines := lines + c;
        RaiseLevel();
      }
    }

    /** The level check of lockPiece, run when some rows were cleared. */
    method RaiseLevel()
      modifies this`level, this`dropMs
      ensures State() == LevelUp(old(State()))
    {
      if lines >= level * 10 {
        level := level + 1;
        dropMs := DropInterval(level);
      }
    }

    /**
     * lockPiece up to taking the next piece: write the cells, ending the game
     * at a cell above the board, or else clear the full rows and award the
     * score.
     */
    method SettlePiece() returns (landed: bool)
      requires Ready(State())
      modifies this`board, this`over, this`score, this`lines, this`level, this`dropMs
      ensures landed == !AboveTop(old(current))
      ensures landed ==> State() == Settle(old(State()))
      ensures !landed ==> State() == old(State()).(over := true)
    {
      ghost var s0 := State();
      landed := WriteCells();
      if !landed {
        assert State() == s0.(over := true);
        return;
      }
      PlaceClearsAtMostFour(s0.board, s0.current);
      ghost var placed := State();
      var cleared;
      board, cleared := ClearLines(board);
      assert State() == placed.(board := board);
      assert placed.(board := board) == s0.(board := board);
      AwardLines(cleared);
    }

    /**
     * lockPiece: write the piece's cells into the board, ending the game at a
     * cell above the board; then clear full rows, award the score, possibly
     * raise the level, take the next piece and allow hold again.
     */
    method LockPiece()
      requires Valid()
      modifies this, random
      ensures Valid()
      ensures State() == Lock(old(State()), Drawn())
      ensures LockDraws(old(State())) ==>
        OneDraw(old(random.bag), old(random.drawn), random.bag, random.drawn, Drawn())
      ensures !LockDraws(old(State())) ==> unchanged(random)
    {
      ghost var s0 := State();
      var landed := SettlePiece();
      if landed {
        NextPiece();
      }
      LockPreservesInv(s0, Drawn());
    }

    /** The end of lockPiece: take the next piece and allow hold again. */
    method NextPiece()
      requires random.Valid() && |nextQueue| > 0
      modifies this`current, this`nextQueue, this`holdUsed, random
      ensures random.Valid()
      ensures |nextQueue| == |old(nextQueue)|
      ensures State() == Dequeue(old(State()), Drawn()).(holdUsed := false)
      ensures OneDraw(old(random.bag), old(random.drawn), random.bag, random.drawn, Drawn())
    {
      current := TakeNext();
      holdUsed := false;
    }

    /** The loop of hardDrop: move down while the move succeeds, counting the rows. */
    method DropDown() returns (dist: nat)
      requires Valid()
      modifies this`current
      ensures Valid()
      ensures State() == old(State()).(current := DropFrom(board, old(current)))
      ensures current.y == old(current).y + dist
    {
      ghost var s0 := State();
      dist := 0;
      while true
        invariant Valid()
        invariant State() == s0.(current := s0.current.(y := s0.current.y + dist))
        invariant DropFrom(board, current) == DropFrom(s0.board, s0.current)
        decreases Rows - current.y
      {
        AboveFloor(board, current);
        DropFromStep(board, current);
        var moved := TryMove(0, 1);
        if !moved {
          break;
        }
        dist := dist + 1;
      }
    }

    /** hardDrop: drop as far as the piece goes, two points per row, then lock. */
    method HardDrop()
      requires Valid()
      modifies this, random
      ensures Valid()
      ensures State() == HardDropped(old(State()), Drawn())
      ensures HardDropDraws(old(State())) ==>
        OneDraw(old(random.bag), old(random.drawn), random.bag, random.drawn, Drawn())
      ensures !HardDropDraws(old(State())) ==> unchanged(random)
    {
      ghost var s0 := State();
      var dist := DropDown();
      score := score + dist * 2;
      assert State() == Dropped(s0);
      LockPiece();
    }

    /** The soft drop of the down key: one point when the one-row move succeeds. */
    method SoftDrop()
      requires Valid()
      modifies this
      ensures Valid()
      ensures State() == SoftDropped(old(State()))
    {
      var ok := TryMove(0, 1);
      if ok {
        score := score + 1;
      }
    }

    /**
     * holdPiece: once per piece, swap the current kind with the held one (or
     * store it and take the next piece), respawn at (3, -2) in rotation 0,
     * and end the game if that collides.
     */
    method HoldPiece()
      requires Valid()
      modifies this, random
      ensures Valid()
      ensures State() == Hold(old(State()), Drawn())
      ensures HoldDraws(old(State())) ==>
        OneDraw(old(random.bag), old(random.drawn), random.bag, random.drawn, Drawn())
      ensures !HoldDraws(old(State())) ==> unchanged(random)
    {
      ghost var s0 := State();
      if holdUsed {
        return;
      }
      SwapHeld();
      Respawn();
      HoldPreservesInv(s0, Drawn());
    }

    /** The exchange of holdPiece: store the current kind, take the held one or the next. */
    method SwapHeld()
      requires random.Valid() && |nextQueue| > 0
      modifies this`holdType, this`current, this`nextQueue, random
      ensures random.Valid() && |nextQueue| == |old(nextQueue)|
      ensures State() == Swapped(old(State()), Drawn())
      ensures old(holdType).None? ==>
        OneDraw(old(random.bag), old(random.drawn), random.bag, random.drawn, Drawn())
      ensures old(holdType).Some? ==> unchanged(random)
    {
      if holdType.None? {
        StoreHeld();
      } else {
        var cur := current.kind;
        var tmp := holdType.value;
        holdType := Some(cur);
        current := Spawn(tmp);
      }
    }

    /** The empty-slot case of holdPiece: store the current kind and take the next piece. */
    method StoreHeld()
      requires random.Valid() && |nextQueue| > 0
      modifies this`holdType, this`current, this`nextQueue, random
      ensures random.Valid() && |nextQueue| == |old(nextQueue)|
      ensures State() == Dequeue(old(State()).(hold := Some(old(current).kind)), Drawn())
      ensures OneDraw(old(random.bag), old(random.drawn), random.bag, random.drawn, Drawn())
    {
      holdType := Some(current.kind);
      ghost var stored := State();
      current := TakeNext();
      assert State() == Dequeue(stored, Drawn());
    }

    /** The end of holdPiece: respawn in rotation 0, check for a collision, use up hold. */
    method Respawn()
      requires WellFormed(board)
      modifies this`current, this`over, this`holdUsed
      ensures State() == Respawned(old(State()))
    {
      current := current.(x := 3, y := -2, rot := 0);
      var hit := Collide(board, current);
      over := over || hit;
      holdUsed := true;
    }

    /** togglePause: flip paused unless the game is over. */
    method TogglePause()
      requires Valid()
      modifies this`paused
      ensures Valid()
      ensures State() == Toggled(old(State()))
    {
      if over {
        return;
      }
      paused := !paused;
    }
  }
}
