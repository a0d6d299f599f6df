/**
 * The page-level driver: the game object, the gravity accumulator and the
 * last frame timestamp, with one animation frame (loop), the key handler's
 * dispatch and resetGame.
 */
module Loop {
  import opened Tetrominoes
  import opened Bag
  import opened Board
  import opened Rules
  import opened Game

  /**
   * One animation frame at timestamp ts. While paused or over nothing changes,
   * not even the last timestamp. Otherwise a last timestamp of 0 counts as
   * unset and is taken to be ts, the frame delta is ts minus the last
   * timestamp, the gravity step runs with it and ts becomes the last
   * timestamp.
   */
  function Frame(s: Session, acc: nat, last: int, ts: int, k: Kind): (Session, nat, int)
    requires Ready(s) && ts >= last
  {
    if s.paused || s.over then (s, acc, last)
    else
      var start := if last == 0 then ts else last;
      var (s1, acc1) := Gravity(s, acc, ts - start, k);
      (s1, acc1, ts)
  }

  /**
   * A frame keeps the invariant. While paused or over it changes nothing;
   * otherwise the last timestamp becomes ts and the session and accumulator
   * are the gravity step for the time since the last frame (none on the
   * first frame).
   */
  lemma FrameSpec(s: Session, acc: nat, last: int, ts: int, k: Kind)
    requires Inv(s) && ts >= last
    ensures Inv(Frame(s, acc, last, ts, k).0)
    ensures s.paused || s.over ==> Frame(s, acc, last, ts, k) == (s, acc, last)
    ensures !s.paused && !s.over ==>
      Frame(s, acc, last, ts, k).2 == ts &&
      (Frame(s, acc, last, ts, k).0, Frame(s, acc, last, ts, k).1) ==
        Gravity(s, acc, if last == 0 then 0 else ts - last, k)
  {
    GravitySpec(s, acc, if last == 0 then 0 else ts - last, k);
  }

  /** Whether a frame draws a kind: its gravity step does. */
  predicate FrameDraws(s: Session, acc: nat, last: int, ts: int)
    requires Ready(s) && ts >= last
  {
    GravityDraws(s, acc, if last == 0 then 0 else ts - last)
  }

  /** The drawn kind matters to a frame exactly when it draws. */
  lemma FrameUsesKind(s: Session, acc: nat, last: int, ts: int, k: Kind, k2: Kind)
    requires Inv(s) && ts >= last
    ensures FrameDraws(s, acc, last, ts) ==> Frame(s, acc, last, ts, k).0.queue == s.queue[1..] + [k]
    ensures !FrameDraws(s, acc, last, ts) ==> Frame(s, acc, last, ts, k) == Frame(s, acc, last, ts, k2)
  {
    FrameSpec(s, acc, last, ts, k);
    FrameSpec(s, acc, last, ts, k2);
    GravityUsesKind(s, acc, if last == 0 then 0 else ts - last, k, k2);
  }

  /**
   * Frames drawn while paused leave the last timestamp where it was, so the
   * first frame after resuming at ts counts all of the time since the last
   * frame before the pause, the paused time included, as played time.
   */
  lemma {:induction false} PauseSpansFrame(s: Session, acc: nat, last: int, mid: int, ts: int, k: Kind)
    requires Inv(s) && s.paused && !s.over
    requires last > 0 && last <= mid <= ts
    ensures Frame(s, acc, last, mid, k) == (s, acc, last)
    ensures Frame(Toggled(s), acc, last, ts, k).0.elapsed == s.elapsed + (ts - last)
    ensures Frame(Toggled(s), acc, last, ts, k).2 == ts
  {
    TogglePauseSpec(s);
    GravityElapsed(Toggled(s), acc, ts - last, k);
  }

  /** The keys the keydown handler acts on; every other code is ignored. */
  datatype Key = Left | Right | Down | RotateLeft | RotateRight | Space | HoldKey | Pause | Other

  /**
   * The keydown handler: ignored when the key is repeating; otherwise left
   * and right move, down soft-drops, Z and X rotate counter-clockwise and
   * clockwise, space hard-drops, C holds and P toggles pause. The handler
   * checks neither paused nor over.
   */
  function Pressed(s: Session, key: Key, repeat: bool, k: Kind): Session
    requires Ready(s)
  {
    if repeat then s
    else
      match key
      case Left => Move(s, -1, 0).0
      case Right => Move(s, 1, 0).0
      case Down => SoftDropped(s)
      case RotateLeft => Rotate(s, -1).0
      case RotateRight => Rotate(s, 1).0
      case Space => HardDropped(s, k)
      case HoldKey => Hold(s, k)
      case Pause => Toggled(s)
      case Other => s
  }

  /**
   * Every key keeps the invariant; repeats and unknown keys change nothing,
   * and the pause key is the only one that changes paused.
   */
  lemma PressedPreservesInv(s: Session, key: Key, repeat: bool, k: Kind)
    requires Inv(s)
    ensures Inv(Pressed(s, key, repeat, k))
    ensures repeat || key == Other ==> Pressed(s, key, repeat, k) == s
    ensures key != Pause ==> Pressed(s, key, repeat, k).paused == s.paused
  {
    if !repeat {
      match key
      case Left => MovePreservesInv(s, -1, 0);
      case Right => MovePreservesInv(s, 1, 0);
      case Down => SoftDropSpec(s);
      case RotateLeft => RotatePreservesInv(s, -1);
      case RotateRight => RotatePreservesInv(s, 1);
      case Space =>
        HardDropPreservesInv(s, k);
        DropFromLands(s.board, s.current);
        if !AboveTop(Dropped(s).current) {
          LockTakesNext(Dropped(s), k);
        }
      case HoldKey => HoldPreservesInv(s, k); HoldSpec(s, k);
      case Pause => TogglePauseSpec(s);
      case Other =>
    }
  }

  /** Whether a key press draws a kind: a hard drop or a hold that does. */
  predicate PressDraws(s: Session, key: Key, repeat: bool)
    requires Ready(s)
  {
    !repeat && ((key == Space && HardDropDraws(s)) || (key == HoldKey && HoldDraws(s)))
  }

  /** The drawn kind matters to a key press exactly when it draws. */
  lemma PressedUsesKind(s: Session, key: Key, repeat: bool, k: Kind, k2: Kind)
    requires Ready(s)
    ensures PressDraws(s, key, repeat) ==> Pressed(s, key, repeat, k).queue == s.queue[1..] + [k]
    ensures !PressDraws(s, key, repeat) ==> Pressed(s, key, repeat, k) == Pressed(s, key, repeat, k2)
  {
    if !repeat && key == Space {
      HardDropUsesKind(s, k, k2);
    } else if !repeat && key == HoldKey {
      HoldUsesKind(s, k, k2);
    }
  }

  /**
   * The handler does not look at paused: a move key moves the piece of a
   * paused game when the target fits.
   */
  lemma MoveWhilePaused(s: Session, k: Kind)
    requires Inv(s) && s.paused
    requires !Collides(s.board, Shift(s.current, -1, 0))
    ensures Pressed(s, Left, false, k).current == Shift(s.current, -1, 0)
    ensures Pressed(s, Left, false, k).paused
  {
  }

  /** The page's globals: the game, the gravity accumulator and the last frame time. */
  class Driver {
    var game: GameState
    /** Milliseconds since the last gravity step. */
    var acc: nat
    /** The timestamp of the last frame that ran; 0 before the first. */
    var lastTime: int

    ghost predicate Valid()
      reads this, game, game.random
    {
      game.Valid()
    }

    /** The page's start-up: a new game, no frame seen yet, nothing accumulated. */
    constructor ()
      ensures Valid() && fresh(game) && fresh(game.random)
      ensures acc == 0 && lastTime == 0
      ensures game.State() == Initial(game.current.kind, game.nextQueue)
      ensures game.random.drawn == [game.current.kind] + game.nextQueue
      ensures Distinct([game.current.kind] + game.nextQueue)
    {
      game := new GameState();
      lastTime := 0;
      acc := 0;
    }

    /**
     * loop: one animation frame at timestamp ts. Nothing happens while paused
     * or over; otherwise the frame delta is taken from the last timestamp and
     * the gravity step runs.
     */
    method Tick(ts: int)
      requires Valid() && ts >= lastTime
      modifies this`acc, this`lastTime, game, game.random
      ensures Valid()
      ensures (game.State(), acc, lastTime) ==
        Frame(old(game.State()), old(acc), old(lastTime), ts, game.Drawn())
      ensures FrameDraws(old(game.State()), old(acc), old(lastTime), ts) ==>
        OneDraw(old(game.random.bag), old(game.random.drawn), game.random.bag, game.random.drawn, game.Drawn())
      ensures !FrameDraws(old(game.State()), old(acc), old(lastTime), ts) ==> unchanged(game.random)
    {
      if game.paused || game.over {
        return;
      }
      if lastTime == 0 {
        lastTime := ts;
      }
      var dt := ts - lastTime;
      lastTime := ts;
      ghost var s0, acc0 := game.State(), acc;
      assert FrameDraws(s0, acc0, old(lastTime), ts) == GravityDraws(s0, acc0, dt);
      Advance(dt);
      assert Frame(s0, acc0, old(lastTime), ts, game.Drawn()) ==
        (Gravity(s0, acc0, dt, game.Drawn()).0, Gravity(s0, acc0, dt, game.Drawn()).1, ts);
    }

    /**
     * The gravity step of loop for the frame delta dt of a frame that is
     * neither paused nor over: acc and elapsed grow by dt and, once acc
     * reaches dropMs, acc restarts and the piece moves down one row or, when
     * it cannot, locks.
     */
    method Advance(dt: nat)
      requires Valid() && !game.paused && !game.over
      modifies this`acc, game, game.random
      ensures Valid()
      ensures (game.State(), acc) == Gravity(old(game.State()), old(acc), dt, game.Drawn())
      ensures GravityDraws(old(game.State()), old(acc), dt) ==>
        OneDraw(old(game.random.bag), old(game.random.drawn), game.random.bag, game.random.drawn, game.Drawn())
      ensures !GravityDraws(old(game.State()), old(acc), dt) ==> unchanged(game.random)
    {
      ghost var s0 := game.State();
      acc := acc + dt;
      game.elapsed := game.elapsed + dt;
      ghost var s1 := s0.(elapsed := s0.elapsed + dt);
      assert game.State() == s1;
      if acc >= game.dropMs {
        acc := 0;
        Fall();
      }
    }

    /** The fall of the gravity step: one row down or, when that collides, a lock. */
    method Fall()
      requires Valid()
      modifies game, game.random
      ensures Valid()
      ensures !Collides(old(game.board), Shift(old(game.current), 0, 1)) ==>
        game.State() == old(game.State()).(current := Shift(old(game.current), 0, 1)) &&
        unchanged(game.random)
      ensures Collides(old(game.board), Shift(old(game.current), 0, 1)) ==>
        game.State() == Lock(old(game.State()), game.Drawn())
      ensures Collides(old(game.board), Shift(old(game.current), 0, 1)) && LockDraws(old(game.State())) ==>
        OneDraw(old(game.random.bag), old(game.random.drawn), game.random.bag, game.random.drawn, game.Drawn())
      ensures Collides(old(game.board), Shift(old(game.current), 0, 1)) && !LockDraws(old(game.State())) ==>
        unchanged(game.random)
    {
      var ok := game.TryMove(0, 1);
      if !ok {
        game.LockPiece();
      }
    }

    /**
     * The keydown handler for a press of key (repeat says whether the key is
     * auto-repeating); the on-screen buttons call the same operations.
     */
    method Press(key: Key, repeat: bool)
      requires Valid()
      modifies game, game.random
      ensures Valid()
      ensures game.State() == Pressed(old(game.State()), key, repeat, game.Drawn())
      ensures PressDraws(old(game.State()), key, repeat) ==>
        OneDraw(old(game.random.bag), old(game.random.drawn), game.random.bag, game.random.drawn, game.Drawn())
      ensures !PressDraws(old(game.State()), key, repeat) ==> unchanged(game.random)
    {
      if repeat {
        return;
      }
      if key == Space || key == HoldKey {
        PressDrawing(key);
      } else {
        PressOther(key);
      }
    }

    /** The cases of the keydown handler that may draw a kind: hard drop and hold. */
    method PressDrawing(key: Key)
      requires Valid() && (key == Space || key == HoldKey)
      modifies game, game.random
      ensures Valid()
      ensures game.State() == Pressed(old(game.State()), key, false, game.Drawn())
      ensures PressDraws(old(game.State()), key, false) ==>
        OneDraw(old(game.random.bag), old(game.random.drawn), game.random.bag, game.random.drawn, game.Drawn())
      ensures !PressDraws(old(game.State()), key, false) ==> unchanged(game.random)
    {
      if key == Space {
        game.HardDrop();
      } else {
        game.HoldPiece();
      }
    }

    /** The cases of the keydown handler that never draw a kind. */
    method PressOther(key: Key)
      requires Valid() && key != Space && key != HoldKey
      modifies game
      ensures Valid()
      ensures game.State() == Pressed(old(game.State()), key, false, game.Drawn())
    {
      match key
      case Left => var _ := game.TryMove(-1, 0);
      case Right => var _ := game.TryMove(1, 0);
      case Down => game.SoftDrop();
      case RotateLeft => var _ := game.TryRotate(-1);
      case RotateRight => var _ := game.TryRotate(1);
      case Pause => game.TogglePause();
      case Other =>
    }

    /** resetGame: a new game, the frame clock and the accumulator cleared. */
    method Reset()
      modifies this
      ensures Valid() && fresh(game) && fresh(game.random)
      ensures acc == 0 && lastTime == 0
      ensures game.State() == Initial(game.current.kind, game.nextQueue)
      ensures game.random.drawn == [game.current.kind] + game.nextQueue
      ensures Distinct([game.current.kind] + game.nextQueue)
    {
      game := new GameState();
      lastTime := 0;
      acc := 0;
    }
  }
}
